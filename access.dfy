/** The access level computation of `AclWriter.access`: a max-reduce over the
    matching grants with `lowestAccess` as the starting value. */
module Access {
  import opened Values
  import opened Grantees

  /** `grants.filter(isMatchingGrant(scope, ids))`. */
  function Matching(grants: seq<Grant>, scope: Option<string>, ids: seq<string>): (r: seq<Grant>)
    ensures forall g :: g in r <==> g in grants && Matches(g, scope, ids)
    ensures |r| <= |grants|
  {
    if grants == [] then []
    else if Matches(grants[0], scope, ids) then [grants[0]] + Matching(grants[1..], scope, ids)
    else Matching(grants[1..], scope, ids)
  }

  /** `gs.reduce((o, v) => o < v.permission ? v.permission : o, acc)`. */
  function MaxFrom(acc: int, gs: seq<Grant>): (r: int)
    ensures r >= acc
    ensures forall g :: g in gs ==> g.permission <= r
    ensures r == acc || exists g :: g in gs && g.permission == r
    decreases |gs|
  {
    if gs == [] then acc
    else MaxFrom(if acc < gs[0].permission then gs[0].permission else acc, gs[1..])
  }

  /** The level `access` reports: the highest permission among the grants in
      `scope` whose grantee is in `ids`, and never less than `lowest`. */
  function AccessLevel(grants: seq<Grant>, scope: Option<string>, ids: seq<string>, lowest: int): (r: int)
    ensures r >= lowest
    ensures forall g :: g in grants && Matches(g, scope, ids) ==> g.permission <= r
    ensures r == lowest || exists g :: g in grants && Matches(g, scope, ids) && g.permission == r
  {
    MaxFrom(lowest, Matching(grants, scope, ids))
  }

  /** The level only depends on which grants match, and a single grant for
      the key that is at or above the floor decides it. */
  lemma {:induction false} SoleGrantDecides(grants: seq<Grant>, i: nat, lowest: int)
    requires i < |grants|
    requires grants[i].permission >= lowest
    requires forall j :: 0 <= j < |grants| && j != i ==> KeyOf(grants[j]) != KeyOf(grants[i])
    ensures AccessLevel(grants, grants[i].scope, [grants[i].grantee], lowest) == grants[i].permission
  {
    var g := grants[i];
    forall h | h in grants && Matches(h, g.scope, [g.grantee])
      ensures h == g
    {
      var j :| 0 <= j < |grants| && grants[j] == h;
      assert KeyOf(grants[j]) == KeyOf(g);
    }
  }

  /** With no matching grant the level is the floor `lowestAccess`. */
  lemma NoMatchIsFloor(grants: seq<Grant>, scope: Option<string>, ids: seq<string>, lowest: int)
    requires forall i :: 0 <= i < |grants| ==> !Matches(grants[i], scope, ids)
    ensures AccessLevel(grants, scope, ids, lowest) == lowest
  {
    forall g | g in grants ensures !Matches(g, scope, ids) {
      var i :| 0 <= i < |grants| && grants[i] == g;
    }
  }
}
