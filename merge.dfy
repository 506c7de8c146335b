/** The merge of `AclWriter.apply`: every grant of every tag, in order, goes
    into a map keyed by (scope, grantee), so that a later grant overwrites an
    earlier one; the canonical list is rebuilt from the map's entries. */
module Merge {
  import opened Values
  import Access

  /** A JavaScript `Map`: its keys in first-insertion order, and their values. */
  datatype OrderedMap<K(==,!new), V> = OrderedMap(keys: seq<K>, values: map<K, V>)
  {
    predicate Valid()
    {
      Distinct(keys) && (forall k :: k in keys ==> k in values) && (forall k :: k in values ==> k in keys)
    }

    /** `map.set(k, v)`: a new key goes last, a present key keeps its place
        and only its value changes. */
    function Put(k: K, v: V): (r: OrderedMap<K, V>)
      requires Valid()
      ensures r.Valid()
      ensures r.keys == Add(keys, k)
      ensures r.values == values[k := v]
    {
      OrderedMap(Add(keys, k), values[k := v])
    }
  }

  /** The keys of a grant list, position by position. */
  function Keys(gs: seq<Grant>): (r: seq<Key>)
    ensures |r| == |gs|
    ensures forall i :: 0 <= i < |gs| ==> r[i] == KeyOf(gs[i])
  {
    seq(|gs|, i requires 0 <= i < |gs| => KeyOf(gs[i]))
  }

  /** The loop that fills the map: `map.set(key(grant), grant.permission)`
      for each grant in order. */
  function Collect(gs: seq<Grant>): (m: OrderedMap<Key, int>)
    ensures m.Valid()
  {
    if gs == [] then OrderedMap([], map[])
    else Collect(gs[..|gs| - 1]).Put(KeyOf(gs[|gs| - 1]), gs[|gs| - 1].permission)
  }

  /** One more grant extends the collected map by one `set`. */
  lemma CollectSnoc(gs: seq<Grant>, g: Grant)
    ensures Collect(gs + [g]) == Collect(gs).Put(KeyOf(g), g.permission)
  {
    assert (gs + [g])[..|gs|] == gs;
  }

  /** The same step, for a prefix of a tag's grants appended to what came
      before. */
  lemma CollectPrefixStep(before: seq<Grant>, grants: seq<Grant>, j: nat)
    requires j < |grants|
    ensures Collect(before + grants[..j + 1])
         == Collect(before + grants[..j]).Put(KeyOf(grants[j]), grants[j].permission)
  {
    assert grants[..j + 1] == grants[..j] + [grants[j]];
    assert before + grants[..j + 1] == (before + grants[..j]) + [grants[j]];
    CollectSnoc(before + grants[..j], grants[j]);
  }

  /** The loop over `map.entries()` that rebuilds the canonical grants. */
  function Entries(m: OrderedMap<Key, int>): (r: seq<Grant>)
    requires m.Valid()
    ensures |r| == |m.keys|
    ensures forall i :: 0 <= i < |r| ==> KeyOf(r[i]) == m.keys[i] && r[i].permission == m.values[m.keys[i]]
  {
    seq(|m.keys|, i requires 0 <= i < |m.keys| => Grant(m.keys[i].grantee, m.values[m.keys[i]], m.keys[i].scope))
  }

  /** The canonical grants `apply` computes from the concatenated grants of
      all tags. */
  function Merge(gs: seq<Grant>): (r: seq<Grant>)
    ensures |r| <= |gs|
  {
    CollectKeys(gs);
    Entries(Collect(gs))
  }

  /** No grant after position j has the key of the grant at j. */
  predicate IsLast(gs: seq<Grant>, j: nat)
    requires j < |gs|
  {
    forall j' :: j < j' < |gs| ==> KeyOf(gs[j']) != KeyOf(gs[j])
  }

  /** The value of key k in the map: the permission of the last grant with
      that key. */
  ghost predicate LastValue(gs: seq<Grant>, k: Key, v: int)
  {
    exists j :: 0 <= j < |gs| && KeyOf(gs[j]) == k && IsLast(gs, j) && v == gs[j].permission
  }

  lemma {:induction false} CollectKeys(gs: seq<Grant>)
    ensures Collect(gs).keys == Dedup(Keys(gs))
  {
    if gs != [] {
      var init := gs[..|gs| - 1];
      CollectKeys(init);
      assert Keys(gs)[..|gs| - 1] == Keys(init);
    }
  }

  /** A value that was the last for its key stays the last when a grant
      with another key follows. */
  lemma LastValueSnoc(init: seq<Grant>, g: Grant, k: Key, v: int)
    requires k != KeyOf(g) && LastValue(init, k, v)
    ensures LastValue(init + [g], k, v)
  {
    var gs := init + [g];
    var j :| 0 <= j < |init| && KeyOf(init[j]) == k && IsLast(init, j) && v == init[j].permission;
    assert gs[j] == init[j];
    forall j' | j < j' < |gs| ensures KeyOf(gs[j']) != k {
      if j' < |init| {
        assert gs[j'] == init[j'];
      }
    }
    assert IsLast(gs, j);
  }

  lemma {:induction false} CollectValues(gs: seq<Grant>)
    ensures forall k :: k in Collect(gs).values ==> LastValue(gs, k, Collect(gs).values[k])
  {
    if gs != [] {
      var n := |gs| - 1;
      var init := gs[..n];
      CollectValues(init);
      assert gs == init + [gs[n]];
      CollectSnoc(init, gs[n]);
      var m := Collect(gs);
      var mi := Collect(init);
      forall k | k in m.values ensures LastValue(gs, k, m.values[k]) {
        if k == KeyOf(gs[n]) {
          assert IsLast(gs, n);
        } else {
          assert k in mi.values && m.values[k] == mi.values[k];
          LastValueSnoc(init, gs[n], k, mi.values[k]);
        }
      }
    }
  }

  /** The map's keys are the distinct keys in order of first occurrence, and
      each value is the permission of the last grant with that key. */
  lemma CollectSpec(gs: seq<Grant>)
    ensures Collect(gs).keys == Dedup(Keys(gs))
    ensures forall k :: k in Collect(gs).values ==>
      exists j :: 0 <= j < |gs| && KeyOf(gs[j]) == k && IsLast(gs, j) && Collect(gs).values[k] == gs[j].permission
  {
    CollectKeys(gs);
    CollectValues(gs);
  }

  /** After a merge there is at most one grant per (scope, grantee). */
  lemma MergeUnique(gs: seq<Grant>)
    ensures AtMostOne(Merge(gs))
  {
    CollectSpec(gs);
  }

  /** A (scope, grantee) has a canonical grant exactly when some tag has a
      grant for it. */
  lemma MergeCovers(gs: seq<Grant>, k: Key)
    ensures (exists i :: 0 <= i < |Merge(gs)| && KeyOf(Merge(gs)[i]) == k)
        <==> (exists j :: 0 <= j < |gs| && KeyOf(gs[j]) == k)
  {
    CollectKeys(gs);
    var r := Merge(gs);
    if exists j :: 0 <= j < |gs| && KeyOf(gs[j]) == k {
      var j :| 0 <= j < |gs| && KeyOf(gs[j]) == k;
      assert Keys(gs)[j] == k;
      assert k in Collect(gs).keys;
      var i :| 0 <= i < |Collect(gs).keys| && Collect(gs).keys[i] == k;
      assert KeyOf(r[i]) == k;
    }
    if exists i :: 0 <= i < |r| && KeyOf(r[i]) == k {
      var i :| 0 <= i < |r| && KeyOf(r[i]) == k;
      assert k in Keys(gs);
    }
  }

  /** Last write wins: each canonical grant carries the permission of the
      last grant, over all tags in order, with its (scope, grantee). */
  lemma MergeLastWins(gs: seq<Grant>, i: nat)
    requires i < |Merge(gs)|
    ensures exists j :: 0 <= j < |gs| && KeyOf(gs[j]) == KeyOf(Merge(gs)[i]) && IsLast(gs, j)
                        && Merge(gs)[i].permission == gs[j].permission
  {
    CollectSpec(gs);
    assert Collect(gs).keys[i] in Collect(gs).values;
  }

  /** A grant whose (scope, grantee) no earlier grant has adds one
      canonical grant at the end. */
  lemma MergeSnocNew(gs: seq<Grant>, g: Grant)
    requires forall j :: 0 <= j < |gs| ==> KeyOf(gs[j]) != KeyOf(g)
    ensures Merge(gs + [g]) == Merge(gs) + [g]
  {
    CollectSnoc(gs, g);
    CollectKeys(gs);
    forall j | 0 <= j < |gs| ensures Keys(gs)[j] != KeyOf(g) {
      assert Keys(gs)[j] == KeyOf(gs[j]);
    }
    EntriesAppend(Collect(gs), KeyOf(g), g.permission);
  }

  /** `set` of a new key adds its entry at the end. */
  lemma EntriesAppend(m: OrderedMap<Key, int>, k: Key, v: int)
    requires m.Valid() && k !in m.keys
    ensures Entries(m.Put(k, v)) == Entries(m) + [Grant(k.grantee, v, k.scope)]
  {
    var r, r' := Entries(m), Entries(m.Put(k, v));
    forall i | 0 <= i < |r| ensures r'[i] == r[i] {
      assert m.keys[i] != k;
    }
  }

  /** A grant whose (scope, grantee) already has the canonical grant at i
      replaces that grant in place. */
  lemma MergeSnocOld(gs: seq<Grant>, g: Grant, i: nat)
    requires i < |Merge(gs)| && KeyOf(Merge(gs)[i]) == KeyOf(g)
    ensures Merge(gs + [g]) == Merge(gs)[i := g]
  {
    CollectSnoc(gs, g);
    var m := Collect(gs);
    assert m.keys[i] == KeyOf(g);
    var r, r' := Merge(gs), Merge(gs + [g]);
    assert |r'| == |r|;
    forall i' | 0 <= i' < |r'| ensures r'[i'] == r[i := g][i'] {
      if i' != i {
        assert m.keys[i'] != m.keys[i];
      }
    }
  }

  /** Read back after the merge, the last grant for a (scope, grantee) over
      all tags decides `access` on the canonical list. */
  lemma MergeThenAccess(gs: seq<Grant>, j: nat, lowest: int)
    requires j < |gs| && IsLast(gs, j) && gs[j].permission >= lowest
    ensures Access.AccessLevel(Merge(gs), gs[j].scope, [gs[j].grantee], lowest) == gs[j].permission
  {
    var r := Merge(gs);
    var k := KeyOf(gs[j]);
    MergeCovers(gs, k);
    var i :| 0 <= i < |r| && KeyOf(r[i]) == k;
    MergeLastWins(gs, i);
    var j' :| 0 <= j' < |gs| && KeyOf(gs[j']) == k && IsLast(gs, j') && r[i].permission == gs[j'].permission;
    assert j' == j;
    MergeUnique(gs);
    Access.SoleGrantDecides(r, i, lowest);
  }

  /** The canonical grants come in the order in which their (scope, grantee)
      first occurs among the tags' grants. */
  lemma MergeOrder(gs: seq<Grant>, i: nat, i': nat)
    requires i < i' < |Merge(gs)|
    ensures exists a, b :: 0 <= a < b < |gs| && KeyOf(gs[a]) == KeyOf(Merge(gs)[i])
                           && KeyOf(gs[b]) == KeyOf(Merge(gs)[i'])
                           && forall c :: 0 <= c < b ==> KeyOf(gs[c]) != KeyOf(Merge(gs)[i'])
  {
    CollectKeys(gs);
    DedupOrder(Keys(gs), i, i');
    var a, b :| 0 <= a < b < |gs| && Keys(gs)[a] == Dedup(Keys(gs))[i] && Keys(gs)[b] == Dedup(Keys(gs))[i']
                && Dedup(Keys(gs))[i'] !in Keys(gs)[..b];
    forall c | 0 <= c < b ensures KeyOf(gs[c]) != KeyOf(Merge(gs)[i']) {
      assert Keys(gs)[..b][c] == KeyOf(gs[c]);
    }
  }

  /** Last tag wins: for a (scope, grantee) that the later tags `b` mention,
      the canonical grant takes its permission from the last of them,
      whatever the earlier tags `a` said. */
  lemma LaterTagsWin(a: seq<Grant>, b: seq<Grant>, i: nat)
    requires i < |Merge(a + b)|
    requires exists j :: 0 <= j < |b| && KeyOf(b[j]) == KeyOf(Merge(a + b)[i])
    ensures exists j :: 0 <= j < |b| && KeyOf(b[j]) == KeyOf(Merge(a + b)[i])
                        && Merge(a + b)[i].permission == b[j].permission
                        && forall j' :: j < j' < |b| ==> KeyOf(b[j']) != KeyOf(b[j])
  {
    var gs := a + b;
    var k := KeyOf(Merge(gs)[i]);
    MergeLastWins(gs, i);
    var j :| 0 <= j < |gs| && KeyOf(gs[j]) == k && IsLast(gs, j) && Merge(gs)[i].permission == gs[j].permission;
    var jb :| 0 <= jb < |b| && KeyOf(b[jb]) == k;
    assert gs[|a| + jb] == b[jb];
    assert j >= |a|;
    assert b[j - |a|] == gs[j];
    forall j' | j - |a| < j' < |b| ensures KeyOf(b[j']) != KeyOf(b[j - |a|]) {
      assert gs[|a| + j'] == b[j'];
    }
  }

  /** Merging a canonical list again gives it back: the merge deduplicates
      and nothing more. */
  lemma UniqueKeysDistinct(m: seq<Grant>)
    requires AtMostOne(m)
    ensures Distinct(Keys(m))
  {
    forall i, j | 0 <= i < j < |m| ensures Keys(m)[i] != Keys(m)[j] {
      assert KeyOf(m[i]) != KeyOf(m[j]);
    }
  }

  /** Grants with at most one grant per (scope, grantee) are their own merge:
      the merge keeps their order and their permissions. */
  lemma MergeOfUnique(m: seq<Grant>)
    requires AtMostOne(m)
    ensures Merge(m) == m
  {
    CollectKeys(m);
    UniqueKeysDistinct(m);
    DedupOfDistinct(Keys(m));
    var c := Collect(m);
    CollectValues(m);
    var r := Entries(c);
    forall i | 0 <= i < |r| ensures r[i] == m[i] {
      var k := KeyOf(m[i]);
      assert c.keys[i] == k;
      assert LastValue(m, k, c.values[k]);
      var j :| 0 <= j < |m| && KeyOf(m[j]) == k && IsLast(m, j) && c.values[k] == m[j].permission;
      assert j == i;
    }
  }

  /** Merging the canonical grants again changes nothing. */
  lemma MergeIdempotent(gs: seq<Grant>)
    ensures Merge(Merge(gs)) == Merge(gs)
  {
    MergeUnique(gs);
    MergeOfUnique(Merge(gs));
  }

  // As written, the map is keyed by the string `${scope}:${grantee}` and
  // each key is split on ':' to rebuild its grant, which is faithful only
  // while neither part contains a ':'.

  /** A scope as a template literal renders it. */
  function ScopeText(scope: Option<string>): (r: string)
    ensures scope.Some? ==> r == scope.value
    ensures scope.None? ==> r == "undefined"
  {
    match scope
    case None => "undefined"
    case Some(s) => s
  }

  /** The string key `${grant.scope}:${grant.grantee}`. */
  function KeyText(k: Key): (r: string)
    ensures |r| == |ScopeText(k.scope)| + 1 + |k.grantee|
    ensures r[..|ScopeText(k.scope)|] == ScopeText(k.scope) && r[|ScopeText(k.scope)|] == ':'
    ensures r[|ScopeText(k.scope)| + 1..] == k.grantee
  {
    ScopeText(k.scope) + ":" + k.grantee
  }

  function IndexOf(s: string, c: char): (i: nat)
    requires c in s
    ensures i < |s| && s[i] == c && c !in s[..i]
  {
    if s[0] == c then 0 else IndexOf(s[1..], c) + 1
  }

  /** `s.split(':')`. */
  function Split(s: string): (r: seq<string>)
    ensures |r| >= 1
    decreases |s|
  {
    if ':' !in s then [s]
    else var i := IndexOf(s, ':'); [s[..i]] + Split(s[i + 1..])
  }

  /** The map filling loop as written. */
  function CollectText(gs: seq<Grant>): (m: OrderedMap<string, int>)
    ensures m.Valid()
  {
    if gs == [] then OrderedMap([], map[])
    else CollectText(gs[..|gs| - 1]).Put(KeyText(KeyOf(gs[|gs| - 1])), gs[|gs| - 1].permission)
  }

  /** `let [scope, grantee] = k.split(':')` for each entry. Every key holds a
      ':', so the second field is always present. */
  function EntriesAsWritten(m: OrderedMap<string, int>): (r: seq<Grant>)
    requires m.Valid()
    ensures |r| == |m.keys|
    ensures forall i :: 0 <= i < |r| ==> r[i].scope.Some? && r[i].permission == m.values[m.keys[i]]
  {
    seq(|m.keys|, i requires 0 <= i < |m.keys| =>
      var f := Split(m.keys[i]);
      Grant(if |f| > 1 then f[1] else "", m.values[m.keys[i]], Some(f[0])))
  }

  /** The canonical grants `apply` computes as written. */
  function MergeAsWritten(gs: seq<Grant>): (r: seq<Grant>)
    ensures forall i :: 0 <= i < |r| ==> r[i].scope.Some?
  {
    EntriesAsWritten(CollectText(gs))
  }

  lemma SplitAt(a: string, b: string)
    requires ':' !in a
    ensures Split(a + ":" + b) == [a] + Split(b)
  {
    var t := a + ":" + b;
    assert t[|a|] == ':' && t[..|a|] == a;
    assert t[|a| + 1..] == b;
  }

  /** A grantee with a ':' loses everything from the ':' on: a grant for
      grantee "u:v" comes back from the merge as a grant for "u". */
  lemma ColonGranteeTruncated(scope: string, u: string, v: string, p: int)
    requires ':' !in scope && ':' !in u && ':' !in v
    ensures MergeAsWritten([Grant(u + ":" + v, p, Some(scope))]) == [Grant(u, p, Some(scope))]
  {
    var gs := [Grant(u + ":" + v, p, Some(scope))];
    assert gs[..0] == [];
    var key := scope + ":" + (u + ":" + v);
    assert KeyText(KeyOf(gs[0])) == key;
    assert CollectText(gs[..0]) == OrderedMap([], map[]);
    var m := CollectText(gs);
    assert m.keys == [key] && m.values == map[key := p];
    SplitAt(u, v);
    SplitAt(scope, u + ":" + v);
    assert Split(v) == [v];
    assert Split(key) == [scope, u, v];
  }

  /** A grant recorded before any scope was selected comes back from the
      merge with the scope string "undefined" in place of no scope. */
  lemma UnscopedBecomesUndefined(u: string, p: int)
    requires ':' !in u
    ensures MergeAsWritten([Grant(u, p, None)]) == [Grant(u, p, Some("undefined"))]
  {
    var gs := [Grant(u, p, None)];
    assert gs[..0] == [];
    var key := "undefined" + ":" + u;
    assert KeyText(KeyOf(gs[0])) == key;
    assert CollectText(gs[..0]) == OrderedMap([], map[]);
    var m := CollectText(gs);
    assert m.keys == [key] && m.values == map[key := p];
    assert ':' !in "undefined";
    SplitAt("undefined", u);
    assert Split(u) == [u];
    assert Split(key) == ["undefined", u];
  }

  /** Every scope is set and no scope or grantee contains a ':'. */
  predicate ColonFree(gs: seq<Grant>)
  {
    forall g :: g in gs ==> g.scope.Some? && ':' !in g.scope.value && ':' !in g.grantee
  }

  predicate KeyColonFree(k: Key)
  {
    k.scope.Some? && ':' !in k.scope.value && ':' !in k.grantee
  }

  lemma SplitKeyText(k: Key)
    requires KeyColonFree(k)
    ensures Split(KeyText(k)) == [k.scope.value, k.grantee]
  {
    var s, g := k.scope.value, k.grantee;
    var t := s + ":" + g;
    assert t[|s|] == ':';
    assert t[..|s|] == s;
    assert IndexOf(t, ':') == |s|;
    assert t[|s| + 1..] == g;
  }

  /** The string map mirrors the pair-keyed map entry by entry. */
  predicate Mirrors(m: OrderedMap<Key, int>, t: OrderedMap<string, int>)
    requires m.Valid() && t.Valid()
  {
    |t.keys| == |m.keys|
    && (forall i :: 0 <= i < |m.keys| ==> t.keys[i] == KeyText(m.keys[i]) && t.values[t.keys[i]] == m.values[m.keys[i]])
  }

  lemma MirrorsPut(m: OrderedMap<Key, int>, t: OrderedMap<string, int>, k: Key, v: int)
    requires m.Valid() && t.Valid() && Mirrors(m, t)
    requires forall x :: x in m.keys ==> KeyColonFree(x)
    requires KeyColonFree(k)
    ensures Mirrors(m.Put(k, v), t.Put(KeyText(k), v))
  {
    SplitKeyText(k);
    forall i | 0 <= i < |m.keys| ensures (m.keys[i] == k) == (t.keys[i] == KeyText(k)) {
      SplitKeyText(m.keys[i]);
    }
    if k !in m.keys {
      assert KeyText(k) !in t.keys;
    }
  }

  lemma {:induction false} CollectMirrors(gs: seq<Grant>)
    requires ColonFree(gs)
    ensures Mirrors(Collect(gs), CollectText(gs))
    ensures forall x :: x in Collect(gs).keys ==> KeyColonFree(x)
  {
    if gs != [] {
      var init := gs[..|gs| - 1];
      var last := gs[|gs| - 1];
      assert ColonFree(init);
      CollectMirrors(init);
      assert last in gs;
      MirrorsPut(Collect(init), CollectText(init), KeyOf(last), last.permission);
    }
  }

  /** When no scope or grantee contains a ':', the merge as written is the
      merge this model uses. */
  lemma MergeAsWrittenAgrees(gs: seq<Grant>)
    requires ColonFree(gs)
    ensures MergeAsWritten(gs) == Merge(gs)
  {
    CollectMirrors(gs);
    var m := Collect(gs);
    forall i | 0 <= i < |m.keys| ensures MergeAsWritten(gs)[i] == Merge(gs)[i] {
      SplitKeyText(m.keys[i]);
    }
  }
}
