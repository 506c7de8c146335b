/** What `AclWriter.grantAccess` does to the grants of its target: for each
    grantee in order, update the first grant with that (scope, grantee) in
    place, or append a new one. */
module Upsert {
  import opened Values
  import opened Grantees
  import opened Access

  /** `grants.find(...)` with the matcher over `ids`: the index of the first
      grant in `scope` whose grantee is in `ids`. */
  function FindMatching(grants: seq<Grant>, scope: Option<string>, ids: seq<string>): (r: Option<nat>)
    ensures r.None? <==> forall i :: 0 <= i < |grants| ==> !Matches(grants[i], scope, ids)
    ensures r.Some? ==> r.value < |grants| && Matches(grants[r.value], scope, ids)
                        && forall i :: 0 <= i < r.value ==> !Matches(grants[i], scope, ids)
  {
    if grants == [] then None
    else if Matches(grants[0], scope, ids) then Some(0)
    else match FindMatching(grants[1..], scope, ids)
         case None => None
         case Some(i) => Some(i + 1)
  }

  /** The index of the first grant with key `k`. */
  function FirstWithKey(grants: seq<Grant>, k: Key): (r: Option<nat>)
    ensures r.None? <==> forall i :: 0 <= i < |grants| ==> KeyOf(grants[i]) != k
    ensures r.Some? ==> r.value < |grants| && KeyOf(grants[r.value]) == k
                        && forall i :: 0 <= i < r.value ==> KeyOf(grants[i]) != k
  {
    FindMatching(grants, k.scope, [k.grantee])
  }

  /** One iteration of the loop, given what the lookup found: a new grant is
      appended, a found one gets the permission if it differs. */
  function StepWith(grants: seq<Grant>, scope: Option<string>, g: string, p: int, found: Option<nat>): (r: seq<Grant>)
    requires found.Some? ==> found.value < |grants|
    ensures found.None? ==> r == grants + [Grant(g, p, scope)]
    ensures found.Some? ==> |r| == |grants| && r[found.value].permission == p
                            && r[found.value].grantee == grants[found.value].grantee
                            && r[found.value].scope == grants[found.value].scope
                            && forall i :: 0 <= i < |grants| && i != found.value ==> r[i] == grants[i]
  {
    match found
    case None => grants + [Grant(g, p, scope)]
    case Some(i) => if grants[i].permission != p then grants[i := grants[i].(permission := p)] else grants
  }

  /** One iteration, with the lookup keyed by (scope, g). */
  function Step(grants: seq<Grant>, scope: Option<string>, g: string, p: int): (r: seq<Grant>)
    ensures |grants| <= |r| <= |grants| + 1
    ensures Grant(g, p, scope) in r
    ensures forall i :: 0 <= i < |grants| && KeyOf(grants[i]) != Key(scope, g) ==> r[i] == grants[i]
  {
    StepWith(grants, scope, g, p, FirstWithKey(grants, Key(scope, g)))
  }

  /** The whole loop of `grantAccess` over the normalised grantees `ids`. */
  function UpsertAll(grants: seq<Grant>, scope: Option<string>, ids: seq<string>, p: int): (r: seq<Grant>)
    ensures |grants| <= |r| <= |grants| + |ids|
    ensures forall id :: id in ids ==> Grant(id, p, scope) in r
  {
    if ids == [] then grants
    else
      var prev := UpsertAll(grants, scope, ids[..|ids| - 1], p);
      var r := Step(prev, scope, ids[|ids| - 1], p);
      assert forall id :: id in ids ==> id in ids[..|ids| - 1] || id == ids[|ids| - 1];
      assert forall id :: id in ids[..|ids| - 1] && id != ids[|ids| - 1] ==> Grant(id, p, scope) in r by {
        forall id | id in ids[..|ids| - 1] && id != ids[|ids| - 1] ensures Grant(id, p, scope) in r {
          var i :| 0 <= i < |prev| && prev[i] == Grant(id, p, scope);
          assert r[i] == prev[i];
        }
      }
      r
  }

  /** One more grantee extends the loop by one step. */
  lemma UpsertSnoc(grants: seq<Grant>, scope: Option<string>, init: seq<string>, g: string, p: int)
    ensures UpsertAll(grants, scope, init + [g], p) == Step(UpsertAll(grants, scope, init, p), scope, g, p)
  {
    assert (init + [g])[..|init|] == init;
  }

  /** The grants the loop appends: one per grantee without a grant in the
      scope, in the order of the grantees. */
  function Missing(grants: seq<Grant>, scope: Option<string>, ids: seq<string>, p: int): seq<Grant>
  {
    if ids == [] then []
    else Missing(grants, scope, ids[..|ids| - 1], p)
         + (if FirstWithKey(grants, Key(scope, ids[|ids| - 1])).None? then [Grant(ids[|ids| - 1], p, scope)] else [])
  }

  /** The grant at position i after the loop, for a position that existed
      before: it takes `p` when it is the first grant of a requested key. */
  function Updated(grants: seq<Grant>, scope: Option<string>, ids: seq<string>, p: int, i: nat): Grant
    requires i < |grants|
  {
    var g := grants[i];
    if g.scope == scope && g.grantee in ids && FirstWithKey(grants, KeyOf(g)) == Some(i)
    then g.(permission := p) else g
  }

  lemma {:induction false} FirstWithKeyStable(a: seq<Grant>, b: seq<Grant>, k: Key)
    requires |a| <= |b|
    requires forall i :: 0 <= i < |a| ==> KeyOf(b[i]) == KeyOf(a[i])
    requires forall i :: |a| <= i < |b| ==> KeyOf(b[i]) != k
    ensures FirstWithKey(b, k) == FirstWithKey(a, k)
  {
    var fa := FirstWithKey(a, k);
    if fa.None? {
      forall i | 0 <= i < |b| ensures !Matches(b[i], k.scope, [k.grantee]) {
        if i < |a| { assert KeyOf(b[i]) == KeyOf(a[i]); }
      }
    } else {
      var j := fa.value;
      assert Matches(b[j], k.scope, [k.grantee]);
      forall i | 0 <= i < j ensures !Matches(b[i], k.scope, [k.grantee]) {
        assert KeyOf(b[i]) == KeyOf(a[i]);
      }
    }
  }

  /** Result of the loop restricted to its effect: old positions as
      `Updated` says, then the `Missing` grants. */
  predicate Shaped(grants: seq<Grant>, scope: Option<string>, ids: seq<string>, p: int, r: seq<Grant>)
  {
    |r| == |grants| + |Missing(grants, scope, ids, p)|
    && (forall i :: 0 <= i < |grants| ==> r[i] == Updated(grants, scope, ids, p, i))
    && r[|grants|..] == Missing(grants, scope, ids, p)
  }

  lemma UpdatedExtend(grants: seq<Grant>, scope: Option<string>, init: seq<string>, g: string, p: int, j: nat)
    requires j < |grants|
    requires g !in init
    ensures Updated(grants, scope, init + [g], p, j)
            == if KeyOf(grants[j]) == Key(scope, g) && FirstWithKey(grants, Key(scope, g)) == Some(j)
               then grants[j].(permission := p)
               else Updated(grants, scope, init, p, j)
  {
  }

  lemma {:induction false} ShapedStep(grants: seq<Grant>, scope: Option<string>, init: seq<string>, g: string, p: int, mid: seq<Grant>)
    requires g !in init
    requires Shaped(grants, scope, init, p, mid)
    ensures Shaped(grants, scope, init + [g], p, Step(mid, scope, g, p))
  {
    var k := Key(scope, g);
    var ids := init + [g];
    assert ids[..|ids| - 1] == init;
    var miss := Missing(grants, scope, init, p);
    MissingFrom(grants, scope, init, p);
    forall i | |grants| <= i < |mid| ensures KeyOf(mid[i]) != k {
      assert mid[i] == miss[i - |grants|];
      assert miss[i - |grants|].grantee in init;
    }
    FirstWithKeyStable(grants, mid, k);
    var r := Step(mid, scope, g, p);
    forall j | 0 <= j < |grants|
      ensures r[j] == Updated(grants, scope, ids, p, j)
    {
      UpdatedExtend(grants, scope, init, g, p, j);
      if KeyOf(grants[j]) == k {
        assert Updated(grants, scope, init, p, j) == grants[j];
      }
    }
    if FirstWithKey(grants, k).None? {
      assert r == mid + [Grant(g, p, scope)];
      assert r[|grants|..] == mid[|grants|..] + [Grant(g, p, scope)];
    } else {
      assert r[|grants|..] == mid[|grants|..];
    }
  }

  /** The loop, described without the loop: old positions keep their grant
      except the first grant of each requested key, which takes `p`; the
      grantees that had no grant are appended, in order. */
  lemma {:induction false} UpsertShape(grants: seq<Grant>, scope: Option<string>, ids: seq<string>, p: int)
    requires Distinct(ids)
    ensures Shaped(grants, scope, ids, p, UpsertAll(grants, scope, ids, p))
  {
    if ids != [] {
      var init := ids[..|ids| - 1];
      var g := ids[|ids| - 1];
      assert Distinct(init);
      assert ids == init + [g];
      UpsertShape(grants, scope, init, p);
      ShapedStep(grants, scope, init, g, p, UpsertAll(grants, scope, init, p));
    } else {
      assert grants[|grants|..] == [];
    }
  }

  lemma {:induction false} MissingFrom(grants: seq<Grant>, scope: Option<string>, ids: seq<string>, p: int)
    ensures forall j :: 0 <= j < |Missing(grants, scope, ids, p)| ==>
      var g := Missing(grants, scope, ids, p)[j];
      g == Grant(g.grantee, p, scope) && g.grantee in ids && FirstWithKey(grants, KeyOf(g)).None?
  {
    if ids != [] {
      var init := ids[..|ids| - 1];
      MissingFrom(grants, scope, init, p);
      var before := Missing(grants, scope, init, p);
      var m := Missing(grants, scope, ids, p);
      forall j | 0 <= j < |m|
        ensures m[j] == Grant(m[j].grantee, p, scope) && m[j].grantee in ids
                && FirstWithKey(grants, KeyOf(m[j])).None?
      {
        if j < |before| {
          assert m[j] == before[j];
          assert before[j].grantee in init;
        }
      }
    }
  }

  lemma {:induction false} MissingDistinct(grants: seq<Grant>, scope: Option<string>, ids: seq<string>, p: int)
    requires Distinct(ids)
    ensures forall i, j :: 0 <= i < j < |Missing(grants, scope, ids, p)| ==>
      Missing(grants, scope, ids, p)[i].grantee != Missing(grants, scope, ids, p)[j].grantee
  {
    if ids != [] {
      var init := ids[..|ids| - 1];
      assert Distinct(init);
      MissingDistinct(grants, scope, init, p);
      MissingFrom(grants, scope, init, p);
      var before := Missing(grants, scope, init, p);
      var m := Missing(grants, scope, ids, p);
      forall i, j | 0 <= i < j < |m| ensures m[i].grantee != m[j].grantee {
        assert m[i] == before[i];
        if j < |before| {
          assert m[j] == before[j];
        } else {
          assert before[i].grantee in init;
          assert ids[|ids| - 1] !in init;
          assert m[j] == Grant(ids[|ids| - 1], p, scope);
        }
      }
    }
  }

  lemma {:induction false} MissingHas(grants: seq<Grant>, scope: Option<string>, ids: seq<string>, p: int, g: string)
    requires g in ids
    requires FirstWithKey(grants, Key(scope, g)).None?
    ensures Grant(g, p, scope) in Missing(grants, scope, ids, p)
  {
    var init := ids[..|ids| - 1];
    if g != ids[|ids| - 1] {
      assert g in init;
      MissingHas(grants, scope, init, p, g);
    }
  }

  lemma {:induction false} MissingEmpty(grants: seq<Grant>, scope: Option<string>, ids: seq<string>, p: int)
    requires forall g :: g in ids ==> FirstWithKey(grants, Key(scope, g)).Some?
    ensures Missing(grants, scope, ids, p) == []
  {
    if ids != [] {
      var init := ids[..|ids| - 1];
      assert forall g :: g in init ==> g in ids;
      MissingEmpty(grants, scope, init, p);
    }
  }

  /** Keys are kept at the old positions, and an appended grant carries a key
      that had no grant before. */
  lemma UpsertKeys(grants: seq<Grant>, scope: Option<string>, ids: seq<string>, p: int)
    requires Distinct(ids)
    ensures var r := UpsertAll(grants, scope, ids, p);
      |grants| <= |r|
      && (forall i :: 0 <= i < |grants| ==> KeyOf(r[i]) == KeyOf(grants[i]))
      && (forall i :: |grants| <= i < |r| ==>
            r[i].scope == scope && r[i].grantee in ids && r[i].permission == p
            && FirstWithKey(grants, KeyOf(r[i])).None?)
  {
    var r := UpsertAll(grants, scope, ids, p);
    UpsertShape(grants, scope, ids, p);
    MissingFrom(grants, scope, ids, p);
    var m := Missing(grants, scope, ids, p);
    forall i | |grants| <= i < |r|
      ensures r[i].scope == scope && r[i].grantee in ids && r[i].permission == p
              && FirstWithKey(grants, KeyOf(r[i])).None?
    {
      assert r[i] == m[i - |grants|];
    }
  }

  /** After the loop every requested grantee has a grant in the scope, and
      the first one carries the requested permission. */
  lemma {:induction false} UpsertGrants(grants: seq<Grant>, scope: Option<string>, ids: seq<string>, p: int, g: string)
    requires Distinct(ids)
    requires g in ids
    ensures var r := UpsertAll(grants, scope, ids, p);
      var f := FirstWithKey(r, Key(scope, g));
      f.Some? && r[f.value].permission == p
  {
    var r := UpsertAll(grants, scope, ids, p);
    var k := Key(scope, g);
    UpsertShape(grants, scope, ids, p);
    UpsertKeys(grants, scope, ids, p);
    var fg := FirstWithKey(grants, k);
    if fg.Some? {
      FirstWithKeyStable(grants, r, k);
      assert r[fg.value] == Updated(grants, scope, ids, p, fg.value);
    } else {
      MissingHas(grants, scope, ids, p, g);
      var m := Missing(grants, scope, ids, p);
      var j :| 0 <= j < |m| && m[j] == Grant(g, p, scope);
      assert r[|grants| + j] == m[j];
      assert Matches(r[|grants| + j], scope, [g]);
      forall i | 0 <= i < |grants| ensures !Matches(r[i], scope, [g]) {
        assert KeyOf(r[i]) == KeyOf(grants[i]);
      }
    }
  }

  /** The loop keeps "at most one grant per (scope, grantee)". */
  lemma {:induction false} UpsertKeepsUnique(grants: seq<Grant>, scope: Option<string>, ids: seq<string>, p: int)
    requires Distinct(ids)
    requires AtMostOne(grants)
    ensures AtMostOne(UpsertAll(grants, scope, ids, p))
  {
    var r := UpsertAll(grants, scope, ids, p);
    UpsertShape(grants, scope, ids, p);
    UpsertKeys(grants, scope, ids, p);
    MissingDistinct(grants, scope, ids, p);
    var m := Missing(grants, scope, ids, p);
    forall i, j | 0 <= i < j < |r| ensures KeyOf(r[i]) != KeyOf(r[j]) {
      if j < |grants| {
        assert KeyOf(r[i]) == KeyOf(grants[i]) && KeyOf(r[j]) == KeyOf(grants[j]);
      } else if i < |grants| {
        assert !Matches(grants[i], r[j].scope, [r[j].grantee]);
        assert KeyOf(r[i]) == KeyOf(grants[i]);
      } else {
        assert r[i] == m[i - |grants|] && r[j] == m[j - |grants|];
      }
    }
  }

  /** Whether the loop changes anything: some requested grantee has no grant
      in the scope yet, or its grant has another permission. */
  predicate Changes(grants: seq<Grant>, scope: Option<string>, ids: seq<string>, p: int)
  {
    exists g :: g in ids &&
      match FirstWithKey(grants, Key(scope, g))
      case None => true
      case Some(i) => grants[i].permission != p
  }

  /** The loop leaves the grants as they were exactly when no requested
      grantee needed a change; this is when `grantAccess` marks nothing. */
  lemma {:induction false} UpsertChangesIff(grants: seq<Grant>, scope: Option<string>, ids: seq<string>, p: int)
    requires Distinct(ids)
    ensures UpsertAll(grants, scope, ids, p) != grants <==> Changes(grants, scope, ids, p)
  {
    if Changes(grants, scope, ids, p) {
      ChangesAltered(grants, scope, ids, p);
    } else {
      NoChangesSame(grants, scope, ids, p);
    }
  }

  lemma {:induction false} ChangesAltered(grants: seq<Grant>, scope: Option<string>, ids: seq<string>, p: int)
    requires Distinct(ids) && Changes(grants, scope, ids, p)
    ensures UpsertAll(grants, scope, ids, p) != grants
  {
    var r := UpsertAll(grants, scope, ids, p);
    UpsertShape(grants, scope, ids, p);
    var g :| g in ids && match FirstWithKey(grants, Key(scope, g))
                        case None => true
                        case Some(i) => grants[i].permission != p;
    var f := FirstWithKey(grants, Key(scope, g));
    if f.None? {
      MissingHas(grants, scope, ids, p, g);
      assert |r| > |grants|;
    } else {
      assert r[f.value] == Updated(grants, scope, ids, p, f.value);
      assert r[f.value].permission != grants[f.value].permission;
    }
  }

  lemma {:induction false} NoChangesSame(grants: seq<Grant>, scope: Option<string>, ids: seq<string>, p: int)
    requires Distinct(ids) && !Changes(grants, scope, ids, p)
    ensures UpsertAll(grants, scope, ids, p) == grants
  {
    var r := UpsertAll(grants, scope, ids, p);
    UpsertShape(grants, scope, ids, p);
    MissingEmpty(grants, scope, ids, p);
    forall i | 0 <= i < |grants| ensures r[i] == grants[i] {
      var gi := grants[i];
      if gi.scope == scope && gi.grantee in ids && FirstWithKey(grants, KeyOf(gi)) == Some(i) {
        assert gi.permission == p;
      }
    }
    assert r == grants;
  }

  /** A second identical `grantAccess` changes nothing. */
  lemma {:induction false} UpsertIdempotent(grants: seq<Grant>, scope: Option<string>, ids: seq<string>, p: int)
    requires Distinct(ids)
    ensures var r := UpsertAll(grants, scope, ids, p);
      UpsertAll(r, scope, ids, p) == r
  {
    var r := UpsertAll(grants, scope, ids, p);
    forall g | g in ids
      ensures match FirstWithKey(r, Key(scope, g))
              case None => false
              case Some(i) => r[i].permission == p
    {
      UpsertGrants(grants, scope, ids, p, g);
    }
    UpsertChangesIff(r, scope, ids, p);
  }

  /** With at most one grant per key before, `grantAccess(ids, p)` leaves
      exactly one grant for each requested grantee in the scope, with
      permission `p`, and `access` for that grantee then reads `p` back. */
  lemma {:induction false} GrantThenAccess(grants: seq<Grant>, scope: Option<string>, ids: seq<string>, p: int, g: string, lowest: int)
    requires Distinct(ids) && AtMostOne(grants)
    requires g in ids
    requires p >= lowest
    ensures var r := UpsertAll(grants, scope, ids, p);
      (exists i :: 0 <= i < |r| && KeyOf(r[i]) == Key(scope, g))
      && (forall i :: 0 <= i < |r| && KeyOf(r[i]) == Key(scope, g) ==> r[i].permission == p)
      && AccessLevel(r, scope, [g], lowest) == p
  {
    var r := UpsertAll(grants, scope, ids, p);
    UpsertGrants(grants, scope, ids, p, g);
    UpsertKeepsUnique(grants, scope, ids, p);
    var f := FirstWithKey(r, Key(scope, g)).value;
    assert KeyOf(r[f]) == Key(scope, g);
    forall i | 0 <= i < |r| && KeyOf(r[i]) == Key(scope, g) ensures r[i].permission == p {
      assert i == f;
    }
    forall j | 0 <= j < |r| && j != f ensures KeyOf(r[j]) != KeyOf(r[f]) {
      if j < f { assert KeyOf(r[j]) != KeyOf(r[f]); } else { assert KeyOf(r[f]) != KeyOf(r[j]); }
    }
    SoleGrantDecides(r, f, lowest);
  }

  // The loop as written looks each grantee up with
  // `isMatchingGrant(currentScope, grantee)`, which normalises the bare
  // grantee with `toSetOfGrantees`; the empty identifier, being falsy, then
  // becomes the empty set and is never found.

  /** One iteration of the loop as written. */
  function StepAsWritten(grants: seq<Grant>, scope: Option<string>, g: string, p: int): (r: seq<Grant>)
    ensures |grants| <= |r| <= |grants| + 1
    ensures Grant(g, p, scope) in r
  {
    StepWith(grants, scope, g, p, FindMatching(grants, scope, ToSetOfGrantees(Single(g))))
  }

  /** The loop of `grantAccess` as written. */
  function UpsertAllAsWritten(grants: seq<Grant>, scope: Option<string>, ids: seq<string>, p: int): (r: seq<Grant>)
    ensures |grants| <= |r| <= |grants| + |ids|
  {
    if ids == [] then grants
    else StepAsWritten(UpsertAllAsWritten(grants, scope, ids[..|ids| - 1], p), scope, ids[|ids| - 1], p)
  }

  /** For every grantee but the empty one the loop as written is the loop
      this model uses. */
  lemma {:induction false} AsWrittenAgrees(grants: seq<Grant>, scope: Option<string>, ids: seq<string>, p: int)
    requires "" !in ids
    ensures UpsertAllAsWritten(grants, scope, ids, p) == UpsertAll(grants, scope, ids, p)
  {
    if ids != [] {
      AsWrittenAgrees(grants, scope, ids[..|ids| - 1], p);
    }
  }

  /** Calling `grantAccess([""], p)` twice on an empty tag leaves two grants
      for the same (scope, grantee) when run as written. */
  lemma EmptyGranteeDuplicates(scope: Option<string>, p: int)
    ensures var once := UpsertAllAsWritten([], scope, [""], p);
      var twice := UpsertAllAsWritten(once, scope, [""], p);
      twice == [Grant("", p, scope), Grant("", p, scope)] && !AtMostOne(twice)
  {
    var ids: seq<string> := [""];
    assert ids[..|ids| - 1] == [] && ids[|ids| - 1] == "";
    assert UpsertAllAsWritten([], scope, [], p) == [];
    assert ToSetOfGrantees(Single("")) == [];
    var once := UpsertAllAsWritten([], scope, [""], p);
    assert once == StepAsWritten([], scope, "", p);
    assert once == [Grant("", p, scope)];
    var twice := UpsertAllAsWritten(once, scope, [""], p);
    assert UpsertAllAsWritten(once, scope, [], p) == once;
    assert twice == StepAsWritten(once, scope, "", p);
    assert FindMatching(once, scope, []) == None;
    assert twice == [Grant("", p, scope), Grant("", p, scope)];
    assert KeyOf(twice[0]) == KeyOf(twice[1]);
  }

  /** The same two calls in this model leave one grant. */
  lemma EmptyGranteeOnce(scope: Option<string>, p: int)
    ensures var once := UpsertAll([], scope, [""], p);
      UpsertAll(once, scope, [""], p) == [Grant("", p, scope)]
  {
    var ids: seq<string> := [""];
    assert ids[..|ids| - 1] == [] && ids[|ids| - 1] == "";
    assert UpsertAll([], scope, [], p) == [];
    var once := UpsertAll([], scope, [""], p);
    assert once == Step([], scope, "", p);
    assert once == [Grant("", p, scope)];
    assert FirstWithKey(once, Key(scope, "")) == Some(0);
    assert UpsertAll(once, scope, [], p) == once;
    assert UpsertAll(once, scope, [""], p) == Step(once, scope, "", p);
  }

  lemma ChangesSplit(grants: seq<Grant>, scope: Option<string>, init: seq<string>, g: string, p: int)
    ensures Changes(grants, scope, init + [g], p) <==> Changes(grants, scope, init, p) || Changes(grants, scope, [g], p)
  {
    if Changes(grants, scope, init + [g], p) {
      var x :| x in init + [g] && match FirstWithKey(grants, Key(scope, x))
                                  case None => true
                                  case Some(i) => grants[i].permission != p;
      if x != g { assert x in init; } else { assert x in [g]; }
    }
    if Changes(grants, scope, init, p) {
      var x :| x in init && match FirstWithKey(grants, Key(scope, x))
                            case None => true
                            case Some(i) => grants[i].permission != p;
      assert x in init + [g];
    }
    if Changes(grants, scope, [g], p) {
      assert g in init + [g];
    }
  }

  /** One more iteration of the loop changes the grants exactly when the
      grantee it handles needed a change in the grants the loop started
      from. */
  lemma {:induction false} StepChanges(grants: seq<Grant>, scope: Option<string>, init: seq<string>, g: string, p: int)
    requires Distinct(init) && g !in init
    ensures var mid := UpsertAll(grants, scope, init, p);
      Step(mid, scope, g, p) != mid <==> Changes(grants, scope, [g], p)
  {
    var mid := UpsertAll(grants, scope, init, p);
    var k := Key(scope, g);
    UpsertShape(grants, scope, init, p);
    UpsertKeys(grants, scope, init, p);
    forall i | |grants| <= i < |mid| ensures KeyOf(mid[i]) != k {
      assert mid[i].grantee in init;
    }
    FirstWithKeyStable(grants, mid, k);
    var f := FirstWithKey(grants, k);
    if f.Some? {
      assert mid[f.value] == Updated(grants, scope, init, p, f.value) == grants[f.value];
      if grants[f.value].permission != p {
        assert Step(mid, scope, g, p)[f.value].permission == p;
        assert g in [g];
      }
    } else {
      assert |Step(mid, scope, g, p)| == |mid| + 1;
      assert g in [g];
    }
  }

  /** One iteration of the loop over distinct grantees: it performs one
      step, and the grants differ from where the loop started exactly when
      they already differed or this step changed them. */
  lemma GrantStep(grants: seq<Grant>, scope: Option<string>, ids: seq<string>, i: nat, p: int)
    requires Distinct(ids) && i < |ids|
    ensures var mid := UpsertAll(grants, scope, ids[..i], p);
      var next := Step(mid, scope, ids[i], p);
      && UpsertAll(grants, scope, ids[..i + 1], p) == next
      && (next != grants <==> mid != grants || next != mid)
  {
    var init := ids[..i];
    assert ids[..i + 1] == init + [ids[i]];
    assert Distinct(init) && ids[i] !in init;
    assert Distinct(ids[..i + 1]);
    UpsertSnoc(grants, scope, init, ids[i], p);
    StepChanges(grants, scope, init, ids[i], p);
    ChangesSplit(grants, scope, init, ids[i], p);
    UpsertChangesIff(grants, scope, init, p);
    UpsertChangesIff(grants, scope, ids[..i + 1], p);
  }
}
