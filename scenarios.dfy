/** The configuration the repository's own usage describes (a `Home` model
    with an `info` scope over `address` and a `money` scope over `locker`
    and `piggiBank`), and what the engine computes for it. */
module Scenarios {
  import opened Values
  import opened Grantees
  import opened Access
  import opened Upsert
  import opened Merge
  import opened Plugin

  function HomeRaw(): RawOptions
  {
    RawOptions("", [ScopeConfig("info", ["address"]), ScopeConfig("money", ["locker", "piggiBank"])], None)
  }

  function Home(): Options
  {
    Options("acl", [ScopeConfig("info", ["address"]), ScopeConfig("money", ["locker", "piggiBank"]),
                    ScopeConfig("acl", ["acl"])], 0)
  }

  /** The plugin accepts the options, keeps `info` and `money` and appends
      the reserved `acl` scope; `scopes()` lists the three names. */
  lemma HomeOptions()
    ensures Normalise(HomeRaw()) == Ok(Home())
    ensures ScopeNames(Home()) == ["info", "money", "acl"]
  {
    var raw := HomeRaw();
    assert WithoutReserved(raw.scopes) == raw.scopes by {
      assert WithoutReserved(raw.scopes[1..][1..]) == [];
      assert WithoutReserved(raw.scopes[1..]) == [raw.scopes[1]];
    }
    assert AclPath == "acl" && '.' !in AclPath;
    assert raw.scopes + [ScopeConfig(AclScopeName, [AclPath])] == Home().scopes;
  }

  lemma RequestedMoney()
    ensures Requested(Home().scopes, ["money"]) == [ScopeConfig("money", ["locker", "piggiBank"])]
  {
    var sc := Home().scopes;
    assert Requested(sc[1..][1..], ["money"]) == [];
    assert Requested(sc[1..], ["money"]) == [sc[1]];
  }

  lemma MoneyPaths()
    ensures AddAll([], ["locker", "piggiBank"]) == ["locker", "piggiBank"]
  {
    var paths := ["locker", "piggiBank"];
    assert paths[1..] == ["piggiBank"] && paths[1..][1..] == [];
    assert Add(["locker"], "piggiBank") == paths;
    assert AddAll(["locker"], ["piggiBank"]) == paths;
  }

  /** `selectList('money')` is the two money paths and the ACL path. */
  lemma SelectMoney()
    ensures SelectList(Home(), ["money"]) == ["locker", "piggiBank", "acl"]
  {
    RequestedMoney();
    MoneyPaths();
    var m := ScopeConfig("money", ["locker", "piggiBank"]);
    assert [m][1..] == [];
    assert UnionOfPaths([], [m]) == m.paths;
    assert Home().path == "acl";
    assert "acl"[0] != "locker"[0] && "acl"[0] != "piggiBank"[0];
    assert Add(m.paths, "acl") == m.paths + ["acl"];
  }

  /** The three documents of the accessibility queries, by their canonical
      grants: each gives `alice` one grant in `info`, with permission 1, 2
      and 3. */
  function Homes(): seq<seq<Grant>>
  {
    [[Grant("alice", 1, Some("info"))], [Grant("alice", 2, Some("info"))], [Grant("alice", 3, Some("info"))]]
  }

  /** `findAccessibleBy('alice', 1, 'info')` selects all three documents. */
  lemma AliceInfoAtLeast1()
    ensures Select(FindAccessibleBy(Home(), Single("alice"), 1, "info", true).value, Homes()) == Homes()
  {
    var d := Homes();
    assert Select(FindAccessibleBy(Home(), Single("alice"), 1, "info", false).value, d) == d by {
      var q := FindAccessibleBy(Home(), Single("alice"), 1, "info", false).value;
      assert q.grantees == ["alice"];
      assert Accepts(q, d[0]) && Accepts(q, d[1]) && Accepts(q, d[2]) by {
        assert d[0][0] in d[0] && d[1][0] in d[1] && d[2][0] in d[2];
      }
      assert d[1..][1..] == [d[2]];
    }
    SelectIgnoresProjection(Home(), Single("alice"), 1, "info", d);
  }

  /** `findAccessibleBy('alice', 2, 'info')` selects the last two. */
  lemma AliceInfoAtLeast2()
    ensures Select(FindAccessibleBy(Home(), Single("alice"), 2, "info", true).value, Homes()) == Homes()[1..]
  {
    var d := Homes();
    assert Select(FindAccessibleBy(Home(), Single("alice"), 2, "info", false).value, d) == d[1..] by {
      var q := FindAccessibleBy(Home(), Single("alice"), 2, "info", false).value;
      assert q.grantees == ["alice"];
      assert !Accepts(q, d[0]) && Accepts(q, d[1]) && Accepts(q, d[2]) by {
        assert d[1][0] in d[1] && d[2][0] in d[2];
      }
      assert d[1..][1..] == [d[2]];
    }
    SelectIgnoresProjection(Home(), Single("alice"), 2, "info", d);
  }

  /** `findAccessibleBy('alice', 42, 'info')` selects none. */
  lemma AliceInfoAtLeast42()
    ensures Select(FindAccessibleBy(Home(), Single("alice"), 42, "info", true).value, Homes()) == []
  {
    var d := Homes();
    assert Select(FindAccessibleBy(Home(), Single("alice"), 42, "info", false).value, d) == [] by {
      var q := FindAccessibleBy(Home(), Single("alice"), 42, "info", false).value;
      assert !Accepts(q, d[0]) && !Accepts(q, d[1]) && !Accepts(q, d[2]);
      assert d[1..][1..] == [d[2]];
    }
    SelectIgnoresProjection(Home(), Single("alice"), 42, "info", d);
  }

  /** `findAccessibleBy('alice', 0, 'money')` selects none: no document has a
      grant in `money`, whatever the threshold. */
  lemma AliceMoney()
    ensures Select(FindAccessibleBy(Home(), Single("alice"), 0, "money", true).value, Homes()) == []
  {
    var d := Homes();
    assert Select(FindAccessibleBy(Home(), Single("alice"), 0, "money", false).value, d) == [] by {
      var q := FindAccessibleBy(Home(), Single("alice"), 0, "money", false).value;
      assert !Accepts(q, d[0]) && !Accepts(q, d[1]) && !Accepts(q, d[2]);
      assert d[1..][1..] == [d[2]];
    }
    SelectIgnoresProjection(Home(), Single("alice"), 0, "money", d);
  }

  /** One identifier passed to `grantAccess` is one step of its loop. */
  lemma GrantOne(grants: seq<Grant>, scope: Option<string>, g: string, p: int)
    requires g != ""
    ensures UpsertAll(grants, scope, ToSetOfGrantees(Single(g)), p) == Step(grants, scope, g, p)
  {
    assert [g][..0] == [];
  }

  function A(p: int, scope: string): Grant { Grant("alice", p, Some(scope)) }
  function B(p: int, scope: string): Grant { Grant("bob", p, Some(scope)) }
  function C(p: int, scope: string): Grant { Grant("carol", p, Some(scope)) }

  /** The first three grants of the single-tag chain, all in `info`. */
  lemma InfoGrants()
    ensures Step([], Some("info"), "alice", 0) == [A(0, "info")]
    ensures Step([A(0, "info")], Some("info"), "bob", 1) == [A(0, "info"), B(1, "info")]
    ensures Step([A(0, "info"), B(1, "info")], Some("info"), "carol", 2) == [A(0, "info"), B(1, "info"), C(2, "info")]
  {
    assert !Matches(A(0, "info"), Some("info"), ["bob"]);
    assert !Matches(A(0, "info"), Some("info"), ["carol"]) && !Matches(B(1, "info"), Some("info"), ["carol"]);
  }

  /** `denyAccess('bob')` and `grantAccess('alice', 42)` update in place. */
  lemma InfoUpdates()
    ensures Step([A(0, "info"), B(1, "info"), C(2, "info")], Some("info"), "bob", 0)
         == [A(0, "info"), B(0, "info"), C(2, "info")]
    ensures Step([A(0, "info"), B(0, "info"), C(2, "info")], Some("info"), "alice", 42)
         == [A(42, "info"), B(0, "info"), C(2, "info")]
  {
    var g1 := [A(0, "info"), B(1, "info"), C(2, "info")];
    assert !Matches(g1[0], Some("info"), ["bob"]) && Matches(g1[1], Some("info"), ["bob"]);
    assert FirstWithKey(g1, Key(Some("info"), "bob")) == Some(1);
    var g2 := [A(0, "info"), B(0, "info"), C(2, "info")];
    assert Matches(g2[0], Some("info"), ["alice"]);
    assert FirstWithKey(g2, Key(Some("info"), "alice")) == Some(0);
  }

  /** The `money` grants are appended after the `info` ones. */
  lemma MoneyGrants()
    ensures Step([A(42, "info"), B(0, "info"), C(2, "info")], Some("money"), "alice", 1)
         == [A(42, "info"), B(0, "info"), C(2, "info"), A(1, "money")]
    ensures Step([A(42, "info"), B(0, "info"), C(2, "info"), A(1, "money")], Some("money"), "bob", 0)
         == [A(42, "info"), B(0, "info"), C(2, "info"), A(1, "money"), B(0, "money")]
  {
    var g1 := [A(42, "info"), B(0, "info"), C(2, "info")];
    assert forall i :: 0 <= i < |g1| ==> !Matches(g1[i], Some("money"), ["alice"]);
    var g2 := g1 + [A(1, "money")];
    assert forall i :: 0 <= i < |g2| ==> !Matches(g2[i], Some("money"), ["bob"]);
  }

  /** The tag's grants after the chain of the single-tag usage. */
  function FirstTag(): seq<Grant>
  {
    [A(42, "info"), B(0, "info"), C(2, "info"), A(1, "money"), B(0, "money")]
  }

  /** The chain `scope('info')`, grants to alice 0, bob 1, carol 2, then
      `denyAccess('bob')` and alice 42, then `scope('money')`, alice 1 and
      `denyAccess('bob')`, leaves the tag with five grants; `apply` copies
      them to the canonical list unchanged, and `access` reads back 42, 0,
      2 in `info` and 1, 0, 0 in `money` for alice, bob and carol. */
  lemma SingleTagChain()
    ensures
      var info, money := Some("info"), Some("money");
      var t1 := UpsertAll([], info, ToSetOfGrantees(Single("alice")), 0);
      var t2 := UpsertAll(t1, info, ToSetOfGrantees(Single("bob")), 1);
      var t3 := UpsertAll(t2, info, ToSetOfGrantees(Single("carol")), 2);
      var t4 := UpsertAll(t3, info, ToSetOfGrantees(Single("bob")), 0);
      var t5 := UpsertAll(t4, info, ToSetOfGrantees(Single("alice")), 42);
      var t6 := UpsertAll(t5, money, ToSetOfGrantees(Single("alice")), 1);
      var t7 := UpsertAll(t6, money, ToSetOfGrantees(Single("bob")), 0);
      t7 == FirstTag() && Merge.Merge(t7) == t7 && |Merge.Merge(t7)| == 5
  {
    var info, money := Some("info"), Some("money");
    InfoGrants();
    InfoUpdates();
    MoneyGrants();
    GrantOne([], info, "alice", 0);
    GrantOne([A(0, "info")], info, "bob", 1);
    GrantOne([A(0, "info"), B(1, "info")], info, "carol", 2);
    GrantOne([A(0, "info"), B(1, "info"), C(2, "info")], info, "bob", 0);
    GrantOne([A(0, "info"), B(0, "info"), C(2, "info")], info, "alice", 42);
    GrantOne([A(42, "info"), B(0, "info"), C(2, "info")], money, "alice", 1);
    GrantOne([A(42, "info"), B(0, "info"), C(2, "info"), A(1, "money")], money, "bob", 0);
    FirstTagUnique();
    MergeOfUnique(FirstTag());
  }

  lemma FirstTagUnique()
    ensures AtMostOne(FirstTag())
  {
    var t := FirstTag();
    forall i, j | 0 <= i < j < |t| ensures KeyOf(t[i]) != KeyOf(t[j]) {
      assert t[i].grantee[0] != t[j].grantee[0] || t[i].scope != t[j].scope;
    }
  }

  /** Each grant of the tag is the only one for its key, so `access` for its
      grantee in its scope reads back its own permission. */
  lemma FirstTagLevel(i: nat)
    requires i < |FirstTag()|
    ensures AccessLevel(FirstTag(), FirstTag()[i].scope, [FirstTag()[i].grantee], 0) == FirstTag()[i].permission
  {
    FirstTagUnique();
    SoleGrantDecides(FirstTag(), i, 0);
  }

  /** The access levels the single-tag usage reads back. */
  lemma SingleTagAccess()
    ensures AccessLevel(FirstTag(), Some("info"), ["alice"], 0) == 42
    ensures AccessLevel(FirstTag(), Some("info"), ["bob"], 0) == 0
    ensures AccessLevel(FirstTag(), Some("info"), ["carol"], 0) == 2
    ensures AccessLevel(FirstTag(), Some("money"), ["alice"], 0) == 1
    ensures AccessLevel(FirstTag(), Some("money"), ["bob"], 0) == 0
    ensures AccessLevel(FirstTag(), Some("money"), ["carol"], 0) == 0
  {
    FirstTagLevel(0);
    FirstTagLevel(1);
    FirstTagLevel(2);
    FirstTagLevel(3);
    FirstTagLevel(4);
    NoCarolInMoney();
  }

  /** carol holds no grant in `money`, so her level there is the floor. */
  lemma NoCarolInMoney()
    ensures AccessLevel(FirstTag(), Some("money"), ["carol"], 0) == 0
  {
    var t := FirstTag();
    assert t[0].scope != Some("money") && t[1].scope != Some("money") && t[2].scope != Some("money");
    assert t[3].grantee[0] != 'c' && t[4].grantee[0] != 'c';
    NoMatchIsFloor(t, Some("money"), ["carol"], 0);
  }

  /** The second tag of the three-tag usage: `denyAccess('bob')` and
      `grantAccess('alice', 42)` in `info`, starting from no grants. */
  function SecondTag(): seq<Grant> { [B(0, "info"), A(42, "info")] }

  /** The third tag: `grantAccess('alice', 1)` and `denyAccess('bob')` in
      `money`. */
  function ThirdTag(): seq<Grant> { [A(1, "money"), B(0, "money")] }

  /** Each of the three tags receives the grants of its own chain. */
  lemma ThreeTagGrants()
    ensures Step(Step(Step([], Some("info"), "alice", 0), Some("info"), "bob", 1), Some("info"), "carol", 2)
         == [A(0, "info"), B(1, "info"), C(2, "info")]
    ensures Step(Step([], Some("info"), "bob", 0), Some("info"), "alice", 42) == SecondTag()
    ensures Step(Step([], Some("money"), "alice", 1), Some("money"), "bob", 0) == ThirdTag()
  {
    InfoGrants();
    assert !Matches(B(0, "info"), Some("info"), ["alice"]);
    assert !Matches(A(1, "money"), Some("money"), ["bob"]);
  }

  /** The first tag's grants are one per key, so `apply` keeps them. */
  lemma FirstTagMerge()
    ensures Merge.Merge([A(0, "info"), B(1, "info"), C(2, "info")]) == [A(0, "info"), B(1, "info"), C(2, "info")]
  {
    var t := [A(0, "info"), B(1, "info"), C(2, "info")];
    forall i, j | 0 <= i < j < |t| ensures KeyOf(t[i]) != KeyOf(t[j]) {
      assert t[i].grantee[0] != t[j].grantee[0];
    }
    MergeOfUnique(t);
  }

  /** The second tag overwrites bob's and then alice's `info` grant in
      place. */
  lemma SecondTagMerge()
    ensures Merge.Merge([A(0, "info"), B(1, "info"), C(2, "info")] + SecondTag())
         == [A(42, "info"), B(0, "info"), C(2, "info")]
  {
    var first := [A(0, "info"), B(1, "info"), C(2, "info")];
    FirstTagMerge();
    MergeSnocOld(first, B(0, "info"), 1);
    assert first + SecondTag() == (first + [B(0, "info")]) + [A(42, "info")];
    MergeSnocOld(first + [B(0, "info")], A(42, "info"), 0);
  }

  /** The third tag's first grant appends alice's `money` grant. */
  lemma ThirdTagFirstMerge()
    ensures Merge.Merge([A(0, "info"), B(1, "info"), C(2, "info")] + SecondTag() + [A(1, "money")])
         == [A(42, "info"), B(0, "info"), C(2, "info"), A(1, "money")]
  {
    var two := [A(0, "info"), B(1, "info"), C(2, "info")] + SecondTag();
    SecondTagMerge();
    assert forall j :: 0 <= j < |two| ==> two[j].scope == Some("info");
    MergeSnocNew(two, A(1, "money"));
  }

  /** Its second grant appends bob's `money` grant, which leaves the five
      grants of the single-tag usage. */
  lemma ThreeTagChain()
    ensures Merge.Merge([A(0, "info"), B(1, "info"), C(2, "info")] + SecondTag() + ThirdTag()) == FirstTag()
  {
    var three := [A(0, "info"), B(1, "info"), C(2, "info")] + SecondTag() + [A(1, "money")];
    ThirdTagFirstMerge();
    assert [A(0, "info"), B(1, "info"), C(2, "info")] + SecondTag() + ThirdTag() == three + [B(0, "money")];
    forall j | 0 <= j < |three| ensures KeyOf(three[j]) != KeyOf(B(0, "money")) {
      assert three[j].scope == Some("info") || three[j].grantee[0] == 'a';
    }
    MergeSnocNew(three, B(0, "money"));
  }

  /** In the three-tag usage `access` reads back the levels of the
      single-tag usage. */
  lemma ThreeTagAccess()
    ensures
      var r := Merge.Merge([A(0, "info"), B(1, "info"), C(2, "info")] + SecondTag() + ThirdTag());
      |r| == 5
      && AccessLevel(r, Some("info"), ["alice"], 0) == 42
      && AccessLevel(r, Some("info"), ["bob"], 0) == 0
      && AccessLevel(r, Some("info"), ["carol"], 0) == 2
      && AccessLevel(r, Some("money"), ["alice"], 0) == 1
      && AccessLevel(r, Some("money"), ["bob"], 0) == 0
      && AccessLevel(r, Some("money"), ["carol"], 0) == 0
  {
    ThreeTagChain();
    SingleTagAccess();
  }
}
