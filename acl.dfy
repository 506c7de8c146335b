/** The document-level engine: the ACL container stored in a document field,
    its tags, and `AclWriter`, the chainable session that reads and changes
    one tag (or, without a tag name, the canonical grants themselves). */
module Acl {
  import opened Values
  import opened Grantees
  import opened Access
  import opened Upsert
  import opened Merge
  import opened Plugin

  /** A tag `{name, grants}`: one independent source of grants. */
  class Tag {
    var name: string
    var grants: seq<Grant>

    constructor (name: string)
      ensures this.name == name && grants == []
    {
      this.name := name;
      grants := [];
    }
  }

  /** The ACL container `{tags, grants}`; `grants` is the canonical list the
      last merge produced. */
  class Container {
    var tags: seq<Tag>
    var grants: seq<Grant>

    constructor ()
      ensures tags == [] && grants == []
    {
      tags := [];
      grants := [];
    }

    /** The tag part of `getAcl(tagName)`: appends an empty tag named `name`
        when no tag has that name, and returns the first tag with it. */
    method EnsureTag(name: string) returns (t: Tag)
      modifies this
      ensures grants == old(grants)
      ensures FindTag(old(tags), name).Some? ==> tags == old(tags)
      ensures FindTag(old(tags), name).None? ==>
        tags == old(tags) + [t] && fresh(t) && t.name == name && t.grants == []
      ensures FindTag(tags, name).Some? && t == tags[FindTag(tags, name).value]
      ensures UniqueNames(old(tags)) ==> UniqueNames(tags)
    {
      var found := FindTag(tags, name);
      if found.None? {
        t := new Tag(name);
        ghost var before := tags;
        tags := tags + [t];
        assert tags[|before|].name == name;
        assert FindTag(tags, name) == Some(|before|);
      } else {
        t := tags[found.value];
      }
    }
  }

  /** The grants of all tags, tag after tag, each tag's grants in order. */
  function AllGrants(tags: seq<Tag>): (r: seq<Grant>)
    reads set t | t in tags
    ensures forall g :: g in r <==> exists t :: t in tags && g in t.grants
  {
    if tags == [] then []
    else
      var init := tags[..|tags| - 1];
      assert tags == init + [tags[|tags| - 1]];
      AllGrants(init) + tags[|tags| - 1].grants
  }

  /** The names of the tags, in order. */
  function TagNames(tags: seq<Tag>): (r: seq<string>)
    reads set t | t in tags
    ensures |r| == |tags|
    ensures forall i :: 0 <= i < |tags| ==> r[i] == tags[i].name
  {
    seq(|tags|, i reads set t | t in tags requires 0 <= i < |tags| => tags[i].name)
  }

  /** `tags.filter(v => v !== tag)`: the tags other than the given object. */
  function Without(tags: seq<Tag>, tag: Tag): (r: seq<Tag>)
    ensures tag !in r
    ensures forall i :: 0 <= i < |r| ==> r[i] in tags && r[i] != tag
    ensures forall i :: 0 <= i < |tags| && tags[i] != tag ==> tags[i] in r
    ensures |r| <= |tags|
  {
    if tags == [] then []
    else (if tags[0] != tag then [tags[0]] else []) + Without(tags[1..], tag)
  }

  /** Rejecting a tag that occurs once removes exactly that position and
      keeps the other tags in their order. */
  lemma {:induction false} WithoutAt(tags: seq<Tag>, i: nat)
    requires i < |tags|
    requires tags[i] !in tags[..i] && tags[i] !in tags[i + 1..]
    ensures Without(tags, tags[i]) == tags[..i] + tags[i + 1..]
  {
    var t, before, after := tags[i], tags[..i], tags[i + 1..];
    assert tags == before + ([t] + after);
    WithoutConcat(before, [t] + after, t);
    assert ([t] + after)[1..] == after;
    assert Without([t] + after, t) == Without(after, t);
    WithoutNone(before, t);
    WithoutNone(after, t);
  }

  lemma {:induction false} WithoutConcat(a: seq<Tag>, b: seq<Tag>, tag: Tag)
    ensures Without(a + b, tag) == Without(a, tag) + Without(b, tag)
  {
    if a != [] {
      assert (a + b)[1..] == a[1..] + b;
      WithoutConcat(a[1..], b, tag);
    } else {
      assert a + b == b;
    }
  }

  lemma {:induction false} WithoutNone(tags: seq<Tag>, tag: Tag)
    requires tag !in tags
    ensures Without(tags, tag) == tags
  {
    if tags != [] {
      WithoutNone(tags[1..], tag);
    }
  }

  /** The first tag with the given name, as `tags.find(v => v.name == name)`. */
  function FindTag(tags: seq<Tag>, name: string): (r: Option<nat>)
    reads set t | t in tags
    ensures r.None? <==> forall i :: 0 <= i < |tags| ==> tags[i].name != name
    ensures r.Some? ==> r.value < |tags| && tags[r.value].name == name
                        && forall i :: 0 <= i < r.value ==> tags[i].name != name
  {
    if tags == [] then None
    else if tags[0].name == name then Some(0)
    else match FindTag(tags[1..], name)
         case None => None
         case Some(i) => Some(i + 1)
  }

  /** Tag names are unique within a container. */
  ghost predicate UniqueNames(tags: seq<Tag>)
    reads set t | t in tags
  {
    forall i, j :: 0 <= i < j < |tags| ==> tags[i].name != tags[j].name
  }

  /** `grants.filter(v => v.scope === scope).map(v => v.grantee)`: the
      grantees the canonical list knows in a scope. */
  function KnownGrantees(grants: seq<Grant>, scope: Option<string>): (r: seq<string>)
    ensures forall g :: g in r <==> exists x :: x in grants && x.scope == scope && x.grantee == g
  {
    if grants == [] then []
    else (if grants[0].scope == scope then [grants[0].grantee] else []) + KnownGrantees(grants[1..], scope)
  }

  /** The inner loop of `apply`: `map.set(key(grant), grant.permission)`
      for each grant of one tag, continuing the map built so far. */
  method CollectGrants(m0: OrderedMap<Key, int>, ghost before: seq<Grant>, grants: seq<Grant>)
    returns (m: OrderedMap<Key, int>)
    requires m0 == Collect(before)
    ensures m == Collect(before + grants)
  {
    m := m0;
    var j := 0;
    assert before + grants[..0] == before;
    while j < |grants|
      invariant 0 <= j <= |grants|
      invariant m == Collect(before + grants[..j])
    {
      CollectPrefixStep(before, grants, j);
      m := m.Put(KeyOf(grants[j]), grants[j].permission);
      j := j + 1;
    }
    assert grants[..j] == grants;
  }

  /** The outer loop of `apply`: every tag's grants, tag after tag, into one
      insertion-ordered map. */
  method CollectTags(tags: seq<Tag>) returns (m: OrderedMap<Key, int>)
    ensures m == Collect(AllGrants(tags))
  {
    m := OrderedMap([], map[]);
    var i := 0;
    while i < |tags|
      invariant 0 <= i <= |tags|
      invariant m == Collect(AllGrants(tags[..i]))
    {
      assert tags[..i + 1][..i] == tags[..i];
      m := CollectGrants(m, AllGrants(tags[..i]), tags[i].grants);
      i := i + 1;
    }
    assert tags[..i] == tags;
  }

  /** The loop over `map.entries()` of `apply`: one grant per key, in key
      order. */
  method Rebuild(m: OrderedMap<Key, int>) returns (gs: seq<Grant>)
    requires m.Valid()
    ensures gs == Entries(m)
  {
    gs := [];
    var k := 0;
    while k < |m.keys|
      invariant 0 <= k <= |m.keys|
      invariant gs == Entries(m)[..k]
    {
      var key := m.keys[k];
      gs := gs + [Grant(key.grantee, m.values[key], key.scope)];
      assert Entries(m)[..k + 1] == Entries(m)[..k] + [Entries(m)[k]];
      k := k + 1;
    }
    assert Entries(m)[..k] == Entries(m);
  }

  /** What a writer is bound to: a named tag, or the container itself. */
  datatype Target = OfTag(tag: Tag) | OfContainer(acl: Container)

  /** The host document, reduced to the ACL field and the two flags the
      engine asks the host about. */
  class Document {
    /** Whether the ACL field was loaded (`isSelected(path)`). */
    var selected: bool
    /** Whether the ACL field was modified (`isModified(path)`). */
    var modified: bool
    /** The ACL field itself, absent until the first `getAcl`. */
    var acl: Container?

    constructor (selected: bool)
      ensures this.selected == selected && !modified && acl == null
    {
      this.selected := selected;
      modified := false;
      acl := null;
    }

    /** The lazy initialisation of `getAcl`: an absent ACL field becomes an
        empty container. */
    method EnsureAcl()
      modifies this
      ensures selected == old(selected) && modified == old(modified)
      ensures acl != null
      ensures old(acl) != null ==> acl == old(acl)
      ensures old(acl) == null ==> fresh(acl) && acl.tags == [] && acl.grants == []
    {
      if acl == null {
        acl := new Container();
      }
    }

    /** `getAcl(tagName)`: fails unless the ACL field is selected; creates
        the container if absent; appends a tag named `tagName` when no tag
        has that name; and returns a writer bound to the first tag with that
        name, or to the container when `tagName` is falsy (""). */
    method GetAcl(opts: Options, tagName: string) returns (r: Result<AclWriter>)
      modifies this, acl
      ensures selected == old(selected) && modified == old(modified)
      ensures !selected ==> r == Err(AclNotSelected) && acl == old(acl)
                            && (acl != null ==> unchanged(acl))
      ensures selected ==> r.Ok? && acl != null && (old(acl) == null ==> fresh(acl))
                           && (old(acl) != null ==> acl == old(acl))
      ensures selected ==> acl.grants == (if old(acl) == null then [] else old(acl.grants))
      ensures selected ==> var before := if old(acl) == null then [] else old(acl.tags);
        if !Truthy(tagName) || FindTag(before, tagName).Some? then acl.tags == before
        else |acl.tags| == |before| + 1 && acl.tags[..|before|] == before
             && fresh(acl.tags[|before|]) && acl.tags[|before|].name == tagName
             && acl.tags[|before|].grants == []
      ensures r.Ok? ==> var w := r.value;
        fresh(w) && w.doc == this && w.opts == opts && w.currentScope == None && w.emitted == 0 && w.Valid()
        && (if Truthy(tagName) then FindTag(acl.tags, tagName).Some?
                                   && w.target == OfTag(acl.tags[FindTag(acl.tags, tagName).value])
            else w.target == OfContainer(acl))
    {
      if !selected {
        return Err(AclNotSelected);
      }
      EnsureAcl();
      if Truthy(tagName) {
        var t := acl.EnsureTag(tagName);
        var w := new AclWriter(this, OfTag(t), opts);
        r := Ok(w);
      } else {
        var w := new AclWriter(this, OfContainer(acl), opts);
        r := Ok(w);
      }
    }

    /** `explainAcl(grantees)`: through the unnamed writer, the access level
        of the grantees in every configured scope, over the canonical
        grants. */
    method ExplainAcl(opts: Options, grantees: GranteesArg) returns (r: Result<map<string, int>>)
      modifies this, acl
      ensures !old(selected) ==> r == Err(AclNotSelected) && acl == old(acl)
      ensures old(selected) ==> acl != null && r == Explain(opts, acl.grants, grantees)
      ensures old(selected) && old(acl) == null ==> fresh(acl) && acl.tags == [] && acl.grants == []
      ensures old(acl) != null ==> acl == old(acl) && acl.tags == old(acl.tags) && acl.grants == old(acl.grants)
      ensures selected == old(selected) && modified == old(modified)
    {
      var w := GetAcl(opts, "");
      if w.Err? {
        return Err(w.error);
      }
      r := Explain(opts, acl.grants, grantees);
    }
  }

  /** `AclWriter`: bound to one document, one target and the options. */
  class AclWriter {
    const doc: Document
    const target: Target
    const opts: Options
    /** The scope chosen by the last successful `scope(name)`. */
    var currentScope: Option<string>
    /** How many 'modify' events the writer has emitted. */
    ghost var emitted: nat

    ghost predicate Valid()
      reads this, doc
    {
      doc.acl != null && (target.OfContainer? ==> target.acl == doc.acl)
    }

    constructor (doc: Document, target: Target, opts: Options)
      requires doc.acl != null && (target.OfContainer? ==> target.acl == doc.acl)
      ensures this.doc == doc && this.target == target && this.opts == opts
      ensures currentScope == None && emitted == 0 && Valid()
    {
      this.doc := doc;
      this.target := target;
      this.opts := opts;
      currentScope := None;
      emitted := 0;
    }

    /** The object whose `grants` the writer works on. */
    function TargetObject(): object
    {
      match target
      case OfTag(t) => t
      case OfContainer(a) => a
    }

    /** `this.tag.grants`. */
    function TargetGrants(): seq<Grant>
      reads TargetObject()
    {
      match target
      case OfTag(t) => t.grants
      case OfContainer(a) => a.grants
    }

    method SetTargetGrants(gs: seq<Grant>)
      modifies TargetObject()
      ensures TargetGrants() == gs
      ensures target.OfTag? ==> target.tag.name == old(target.tag.name)
      ensures target.OfContainer? ==> target.acl.tags == old(target.acl.tags)
    {
      match target
      case OfTag(t) => t.grants := gs;
      case OfContainer(a) => a.grants := gs;
    }

    /** `markModified()`: flags the ACL field as modified and emits 'modify'. */
    method MarkModified()
      modifies this, doc
      ensures doc.modified && emitted == old(emitted) + 1
      ensures doc.selected == old(doc.selected) && doc.acl == old(doc.acl)
      ensures currentScope == old(currentScope)
    {
      doc.modified := true;
      emitted := emitted + 1;
    }

    /** `scope(name)`: selects a configured scope. */
    method Scope(name: string) returns (res: Outcome)
      modifies this
      ensures emitted == old(emitted)
      ensures !Truthy(name) ==> res == Fail(ScopeUndefined)
      ensures Truthy(name) ==>
        (res.Pass? <==> exists i :: 0 <= i < |opts.scopes| && opts.scopes[i].name == name)
      ensures res.Fail? && Truthy(name) ==> res.error == InvalidScope
      ensures res.Pass? ==> currentScope == Some(name)
      ensures res.Fail? ==> currentScope == old(currentScope)
    {
      if !Truthy(name) {
        return Fail(ScopeUndefined);
      }
      if !(exists i :: 0 <= i < |opts.scopes| && opts.scopes[i].name == name) {
        return Fail(InvalidScope);
      }
      currentScope := Some(name);
      res := Pass;
    }

    /** `tags()`: the names of the container's tags. */
    function Tags(): (r: seq<string>)
      requires Valid()
      reads this, doc, doc.acl, set t | t in doc.acl.tags
      ensures |r| == |doc.acl.tags|
      ensures forall i :: 0 <= i < |r| ==> r[i] == doc.acl.tags[i].name
    {
      TagNames(doc.acl.tags)
    }

    /** `access(grantees)`: the highest permission the target's grants give
        the grantees in the current scope, never below `lowestAccess`;
        fails when no scope is selected. */
    function Access(grantees: GranteesArg): (r: Result<int>)
      reads this, TargetObject()
      ensures r.Err? <==> currentScope.None?
      ensures r.Err? ==> r.error == ScopeNotSelected
      ensures r.Ok? ==> var ids := ToSetOfGrantees(grantees);
        && r.value >= opts.lowestAccess
        && (forall g :: g in TargetGrants() && Matches(g, currentScope, ids) ==> g.permission <= r.value)
        && (r.value == opts.lowestAccess
            || exists g :: g in TargetGrants() && Matches(g, currentScope, ids) && g.permission == r.value)
      ensures r.Ok? && ToSetOfGrantees(grantees) == [] ==> r.value == opts.lowestAccess
    {
      if currentScope.None? then Err(ScopeNotSelected)
      else Ok(AccessLevel(TargetGrants(), currentScope, ToSetOfGrantees(grantees), opts.lowestAccess))
    }

    /** One iteration of the loop of `grantAccess`: append a grant for `g`
        in the current scope, or give the one found the permission; mark the
        field modified exactly when the grants change. */
    method UpsertOne(g: string, permission: int) returns (changed: bool)
      requires Valid()
      modifies this, doc, TargetObject()
      ensures Valid() && currentScope == old(currentScope)
      ensures doc.selected == old(doc.selected) && doc.acl == old(doc.acl)
      ensures target.OfTag? ==> target.tag.name == old(target.tag.name)
      ensures target.OfContainer? ==> target.acl.tags == old(target.acl.tags)
      ensures target.OfTag? ==> unchanged(doc.acl)
      ensures TargetGrants() == Step(old(TargetGrants()), currentScope, g, permission)
      ensures changed <==> TargetGrants() != old(TargetGrants())
      ensures doc.modified == (old(doc.modified) || changed)
      ensures emitted == old(emitted) + (if changed then 1 else 0)
    {
      var grants := TargetGrants();
      match FirstWithKey(grants, Key(currentScope, g)) {
        case None =>
          SetTargetGrants(grants + [Grant(g, permission, currentScope)]);
          assert |TargetGrants()| != |grants|;
          MarkModified();
          changed := true;
        case Some(j) =>
          if grants[j].permission != permission {
            SetTargetGrants(grants[j := grants[j].(permission := permission)]);
            assert TargetGrants()[j] != grants[j];
            MarkModified();
            changed := true;
          } else {
            changed := false;
          }
      }
    }

    /** The loop of `grantAccess` over distinct grantees. */
    method UpsertEach(ids: seq<string>, permission: int)
      requires Valid() && Distinct(ids)
      modifies this, doc, TargetObject()
      ensures Valid() && currentScope == old(currentScope)
      ensures doc.selected == old(doc.selected) && doc.acl == old(doc.acl)
      ensures target.OfTag? ==> target.tag.name == old(target.tag.name)
      ensures target.OfContainer? ==> target.acl.tags == old(target.acl.tags)
      ensures target.OfTag? ==> unchanged(doc.acl)
      ensures TargetGrants() == UpsertAll(old(TargetGrants()), currentScope, ids, permission)
      ensures doc.modified == (old(doc.modified) || TargetGrants() != old(TargetGrants()))
      ensures emitted == old(emitted) <==> TargetGrants() == old(TargetGrants())
    {
      ghost var start := TargetGrants();
      var i := 0;
      while i < |ids|
        decreases |ids| - i
        invariant 0 <= i <= |ids|
        invariant Valid() && currentScope == old(currentScope)
        invariant doc.selected == old(doc.selected) && doc.acl == old(doc.acl)
        invariant target.OfTag? ==> unchanged(doc.acl)
        invariant target.OfTag? ==> target.tag.name == old(target.tag.name)
        invariant target.OfContainer? ==> target.acl.tags == old(target.acl.tags)
        invariant TargetGrants() == UpsertAll(start, currentScope, ids[..i], permission)
        invariant doc.modified == (old(doc.modified) || TargetGrants() != start)
        invariant emitted >= old(emitted)
        invariant emitted == old(emitted) <==> TargetGrants() == start
      {
        GrantStep(start, currentScope, ids, i, permission);
        var changed := UpsertOne(ids[i], permission);
        i := i + 1;
      }
      assert ids[..|ids|] == ids;
    }

    /** `grantAccess(grantees, permission)`: fails, before any change, on
        falsy grantees or a permission below `lowestAccess`; otherwise runs
        the update-or-append loop over the normalised grantees, marks the
        field modified when the grants change, and emits notifications
        exactly when they change. */
    method GrantAccess(grantees: GranteesArg, permission: int) returns (res: Outcome)
      requires Valid()
      modifies this, doc, TargetObject()
      ensures Valid() && currentScope == old(currentScope)
      ensures doc.selected == old(doc.selected) && doc.acl == old(doc.acl)
      ensures target.OfTag? ==> target.tag.name == old(target.tag.name)
      ensures target.OfContainer? ==> target.acl.tags == old(target.acl.tags)
      ensures target.OfTag? ==> unchanged(doc.acl)
      ensures !IsTruthy(grantees) ==> res == Fail(GranteesUndefined)
      ensures IsTruthy(grantees) && permission < opts.lowestAccess ==> res == Fail(InvalidPermission)
      ensures res.Pass? <==> IsTruthy(grantees) && permission >= opts.lowestAccess
      ensures res.Fail? ==> TargetGrants() == old(TargetGrants()) && doc.modified == old(doc.modified)
                            && emitted == old(emitted)
      ensures res.Pass? ==>
        TargetGrants() == UpsertAll(old(TargetGrants()), currentScope, ToSetOfGrantees(grantees), permission)
      ensures res.Pass? ==> doc.modified == (old(doc.modified) || TargetGrants() != old(TargetGrants()))
      ensures res.Pass? ==> (emitted == old(emitted) <==> TargetGrants() == old(TargetGrants()))
    {
      if !IsTruthy(grantees) {
        return Fail(GranteesUndefined);
      }
      if permission < opts.lowestAccess {
        return Fail(InvalidPermission);
      }
      UpsertEach(ToSetOfGrantees(grantees), permission);
      res := Pass;
    }

    /** `grantAccess(permission)`: the same, with the grantees defaulting to
        those the canonical grants know in the current scope. */
    method GrantToKnown(permission: int) returns (res: Outcome)
      requires Valid()
      modifies this, doc, TargetObject()
      ensures Valid() && currentScope == old(currentScope)
      ensures doc.selected == old(doc.selected) && doc.acl == old(doc.acl)
      ensures target.OfTag? ==> unchanged(doc.acl)
      ensures target.OfTag? ==> target.tag.name == old(target.tag.name)
      ensures target.OfContainer? ==> target.acl.tags == old(target.acl.tags)
      ensures res.Pass? <==> permission >= opts.lowestAccess
      ensures res.Fail? ==> res.error == InvalidPermission && TargetGrants() == old(TargetGrants())
                            && doc.modified == old(doc.modified) && emitted == old(emitted)
      ensures res.Pass? ==>
        TargetGrants() == UpsertAll(old(TargetGrants()), currentScope,
                                    Dedup(KnownGrantees(old(doc.acl.grants), currentScope)), permission)
      ensures res.Pass? ==> doc.modified == (old(doc.modified) || TargetGrants() != old(TargetGrants()))
      ensures res.Pass? ==> (emitted == old(emitted) <==> TargetGrants() == old(TargetGrants()))
    {
      var known := KnownGrantees(doc.acl.grants, currentScope);
      res := GrantAccess(List(known), permission);
    }

    /** `denyAccess(grantees)`: `grantAccess(grantees, lowestAccess)`. */
    method DenyAccess(grantees: GranteesArg) returns (res: Outcome)
      requires Valid()
      modifies this, doc, TargetObject()
      ensures Valid() && currentScope == old(currentScope)
      ensures doc.selected == old(doc.selected) && doc.acl == old(doc.acl)
      ensures target.OfTag? ==> unchanged(doc.acl)
      ensures target.OfTag? ==> target.tag.name == old(target.tag.name)
      ensures target.OfContainer? ==> target.acl.tags == old(target.acl.tags)
      ensures res.Pass? <==> IsTruthy(grantees)
      ensures res.Fail? ==> res.error == GranteesUndefined && TargetGrants() == old(TargetGrants())
                            && doc.modified == old(doc.modified) && emitted == old(emitted)
      ensures res.Pass? ==>
        TargetGrants() == UpsertAll(old(TargetGrants()), currentScope, ToSetOfGrantees(grantees), opts.lowestAccess)
      ensures res.Pass? ==> doc.modified == (old(doc.modified) || TargetGrants() != old(TargetGrants()))
      ensures res.Pass? ==> (emitted == old(emitted) <==> TargetGrants() == old(TargetGrants()))
    {
      res := GrantAccess(grantees, opts.lowestAccess);
    }

    /** `apply()`: when the field is modified, rebuilds the canonical grants
        as the last-write-wins merge of all tags' grants; marks the field
        modified again when the result is not empty. */
    method Apply()
      requires Valid()
      modifies this, doc, doc.acl
      ensures Valid() && currentScope == old(currentScope)
      ensures doc.selected == old(doc.selected) && doc.acl == old(doc.acl) && doc.modified == old(doc.modified)
      ensures doc.acl.tags == old(doc.acl.tags)
      ensures !old(doc.modified) ==> doc.acl.grants == old(doc.acl.grants) && emitted == old(emitted)
      ensures old(doc.modified) ==> doc.acl.grants == Merge.Merge(old(AllGrants(doc.acl.tags)))
      ensures old(doc.modified) ==> emitted == old(emitted) + (if doc.acl.grants == [] then 0 else 1)
    {
      if !doc.modified {
        return;
      }
      var acl := doc.acl;
      var m := CollectTags(acl.tags);
      acl.grants := Rebuild(m);
      if |m.keys| > 0 {
        MarkModified();
      }
    }

    /** `reject()`: removes the writer's tag from the container and marks the
        field modified; a writer bound to the container removes nothing. */
    method Reject()
      requires Valid()
      modifies this, doc, doc.acl
      ensures Valid() && currentScope == old(currentScope)
      ensures doc.selected == old(doc.selected) && doc.acl == old(doc.acl)
      ensures doc.modified && emitted == old(emitted) + 1
      ensures doc.acl.grants == old(doc.acl.grants)
      ensures target.OfTag? ==> doc.acl.tags == Without(old(doc.acl.tags), target.tag)
      ensures target.OfContainer? ==> doc.acl.tags == old(doc.acl.tags)
    {
      var acl := doc.acl;
      if target.OfTag? {
        acl.tags := Without(acl.tags, target.tag);
      }
      MarkModified();
    }
  }
}
