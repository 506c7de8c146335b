/** The collection-level parts of the plugin: option normalisation, the
    scope-to-path selector (`selectList`), the accessibility filter built by
    `findAccessibleBy`, and the per-scope snapshot of `explainAcl`. */
module Plugin {
  import opened Values
  import opened Grantees
  import opened Access

  /** The default ACL field path. */
  const AclPath: string := "acl"

  /** The name of the reserved scope that exposes the ACL field itself. */
  const AclScopeName: string := "acl"

  datatype ScopeConfig = ScopeConfig(name: string, paths: seq<string>)

  /** Options as the caller passes them: `path` is "" when absent (absent and
      "" are both falsy), `lowestAccess` is `None` when null or absent. */
  datatype RawOptions = RawOptions(path: string, scopes: seq<ScopeConfig>, lowestAccess: Option<int>)

  /** Options after `plugin` normalised them. */
  datatype Options = Options(path: string, scopes: seq<ScopeConfig>, lowestAccess: int)

  /** `scopes.filter(v => v.name != AclScopeName)`. */
  function WithoutReserved(scopes: seq<ScopeConfig>): (r: seq<ScopeConfig>)
    ensures forall sc :: sc in r <==> sc in scopes && sc.name != AclScopeName
    ensures |r| <= |scopes|
  {
    if scopes == [] then []
    else (if scopes[0].name != AclScopeName then [scopes[0]] else []) + WithoutReserved(scopes[1..])
  }

  /** The option normalisation at the top of `plugin`. */
  function Normalise(raw: RawOptions): (r: Result<Options>)
    ensures r.Ok? <==> '.' !in (if raw.path == "" then AclPath else raw.path)
    ensures r.Ok? ==> var o := r.value;
      && o.path != "" && '.' !in o.path
      && (raw.path != "" ==> o.path == raw.path)
      && (raw.path == "" ==> o.path == AclPath)
      && |o.scopes| >= 1
      && o.scopes[|o.scopes| - 1] == ScopeConfig(AclScopeName, [AclPath])
      && (forall i :: 0 <= i < |o.scopes| - 1 ==> o.scopes[i].name != AclScopeName)
      && (forall sc :: sc in raw.scopes && sc.name != AclScopeName ==> sc in o.scopes)
      && (forall sc :: sc in o.scopes ==> sc in raw.scopes || sc == ScopeConfig(AclScopeName, [AclPath]))
      && (raw.lowestAccess.Some? ==> o.lowestAccess == raw.lowestAccess.value)
      && (raw.lowestAccess.None? ==> o.lowestAccess == 0)
  {
    var path := if raw.path != "" then raw.path else AclPath;
    var scopes := WithoutReserved(raw.scopes) + [ScopeConfig(AclScopeName, [AclPath])];
    var lowest := if raw.lowestAccess.Some? then raw.lowestAccess.value else 0;
    if '.' in path then Err(NestedPath) else Ok(Options(path, scopes, lowest))
  }

  /** `scopes()`: the configured scope names. */
  function ScopeNames(opts: Options): (r: seq<string>)
    ensures |r| == |opts.scopes|
    ensures forall i :: 0 <= i < |r| ==> r[i] == opts.scopes[i].name
  {
    seq(|opts.scopes|, i requires 0 <= i < |opts.scopes| => opts.scopes[i].name)
  }

  /** `scopes.filter(v => names.has(v.name))`. */
  function Requested(scopes: seq<ScopeConfig>, names: seq<string>): (r: seq<ScopeConfig>)
    ensures forall sc :: sc in r <==> sc in scopes && sc.name in names
  {
    if scopes == [] then []
    else (if scopes[0].name in names then [scopes[0]] else []) + Requested(scopes[1..], names)
  }

  /** `paths.reduce((o, v) => o.add(v), o)`. */
  function AddAll(o: seq<string>, paths: seq<string>): (r: seq<string>)
    requires Distinct(o)
    ensures Distinct(r)
    ensures forall x :: x in r <==> x in o || x in paths
    decreases |paths|
  {
    if paths == [] then o else AddAll(Add(o, paths[0]), paths[1..])
  }

  /** The outer reduce: the paths of every scope, into one ordered set. */
  function UnionOfPaths(o: seq<string>, scopes: seq<ScopeConfig>): (r: seq<string>)
    requires Distinct(o)
    ensures Distinct(r)
    ensures forall x :: x in r <==> x in o || exists sc :: sc in scopes && x in sc.paths
    decreases |scopes|
  {
    if scopes == [] then o
    else
      var r := UnionOfPaths(AddAll(o, scopes[0].paths), scopes[1..]);
      assert forall sc :: sc in scopes <==> sc == scopes[0] || sc in scopes[1..];
      r
  }

  /** `selectList(...names)`: the paths of the requested scopes, each once,
      and the ACL field's own path. */
  function SelectList(opts: Options, names: seq<string>): (r: seq<string>)
    ensures Distinct(r)
    ensures opts.path in r
    ensures forall x :: x in r <==>
      x == opts.path || exists sc :: sc in opts.scopes && sc.name in names && x in sc.paths
  {
    Add(UnionOfPaths([], Requested(opts.scopes, names)), opts.path)
  }

  lemma {:induction false} RequestedBySet(scopes: seq<ScopeConfig>, names1: seq<string>, names2: seq<string>)
    requires forall n :: n in names1 <==> n in names2
    ensures Requested(scopes, names1) == Requested(scopes, names2)
  {
    if scopes != [] {
      RequestedBySet(scopes[1..], names1, names2);
    }
  }

  /** The result of `selectList` does not depend on the order of the
      requested names, nor on their repetition. */
  lemma SelectListOrderFree(opts: Options, names1: seq<string>, names2: seq<string>)
    requires forall n :: n in names1 <==> n in names2
    ensures SelectList(opts, names1) == SelectList(opts, names2)
  {
    RequestedBySet(opts.scopes, names1, names2);
  }

  /** The filter `findAccessibleBy` builds, and the projection it adds. */
  datatype AccessQuery = AccessQuery(scope: string, grantees: seq<string>, minPermission: int,
                                     projection: Option<seq<string>>)

  /** `findAccessibleBy(grantees, permission, scope, selectAclScope)`. */
  function FindAccessibleBy(opts: Options, grantees: GranteesArg, permission: int, scope: string,
                            selectAclScope: bool): (r: Result<AccessQuery>)
    ensures permission < opts.lowestAccess ==> r == Err(InvalidPermission)
    ensures permission >= opts.lowestAccess && !Truthy(scope) ==> r == Err(MissingScope)
    ensures r.Ok? <==> permission >= opts.lowestAccess && Truthy(scope)
    ensures r.Ok? ==> r.value.scope == scope && r.value.minPermission == permission
                      && r.value.grantees == ToSetOfGrantees(grantees)
    ensures r.Ok? && selectAclScope ==> r.value.projection == Some(SelectList(opts, [AclScopeName]))
    ensures r.Ok? && !selectAclScope ==> r.value.projection.None?
  {
    if permission < opts.lowestAccess then Err(InvalidPermission)
    else if !Truthy(scope) then Err(MissingScope)
    else
      var projection := if selectAclScope then Some(SelectList(opts, [AclScopeName])) else None;
      Ok(AccessQuery(scope, ToSetOfGrantees(grantees), permission, projection))
  }

  /** The `elemMatch` of the query: some canonical grant lies in the scope,
      names one of the grantees, and reaches the threshold. */
  predicate Accepts(q: AccessQuery, grants: seq<Grant>): (r: bool)
    ensures r ==> grants != [] && q.grantees != []
  {
    exists g :: g in grants && g.scope == Some(q.scope) && g.grantee in q.grantees && g.permission >= q.minPermission
  }

  /** The query against a collection: the documents, given by their canonical
      grants, that it accepts. */
  function Select(q: AccessQuery, docs: seq<seq<Grant>>): (r: seq<seq<Grant>>)
    ensures |r| <= |docs|
    ensures forall d :: d in r <==> d in docs && Accepts(q, d)
  {
    if docs == [] then []
    else (if Accepts(q, docs[0]) then [docs[0]] else []) + Select(q, docs[1..])
  }

  /** The projection is only a field selection: the documents the query
      finds are the same whether `selectAclScope` is set or not. */
  lemma {:induction false} SelectIgnoresProjection(opts: Options, grantees: GranteesArg, permission: int,
                                                   scope: string, docs: seq<seq<Grant>>)
    requires permission >= opts.lowestAccess && Truthy(scope)
    ensures Select(FindAccessibleBy(opts, grantees, permission, scope, true).value, docs)
         == Select(FindAccessibleBy(opts, grantees, permission, scope, false).value, docs)
  {
    if docs != [] {
      SelectIgnoresProjection(opts, grantees, permission, scope, docs[1..]);
    }
  }

  /** Raising the threshold can only shrink the result. */
  lemma {:induction false} SelectMonotone(q: AccessQuery, p: int, docs: seq<seq<Grant>>)
    requires p >= q.minPermission
    ensures |Select(q.(minPermission := p), docs)| <= |Select(q, docs)|
    ensures forall d :: d in Select(q.(minPermission := p), docs) ==> d in Select(q, docs)
  {
    if docs != [] {
      SelectMonotone(q, p, docs[1..]);
    }
  }

  /** Above the floor the filter agrees with `access`: a document is
      accepted exactly when the access level of the grantees in the scope
      reaches the threshold. */
  lemma AcceptsIffAccess(q: AccessQuery, grants: seq<Grant>, lowest: int)
    requires q.minPermission > lowest
    ensures Accepts(q, grants) <==> AccessLevel(grants, Some(q.scope), q.grantees, lowest) >= q.minPermission
  {
    var r := AccessLevel(grants, Some(q.scope), q.grantees, lowest);
    if r >= q.minPermission {
      var g :| g in grants && Matches(g, Some(q.scope), q.grantees) && g.permission == r;
      assert g.permission >= q.minPermission;
    }
  }

  /** `explainAcl(grantees)` over the canonical grants: each configured scope
      name mapped to the access level of the grantees in that scope. It
      fails when a configured name is falsy, as `scope(name)` does. */
  function Explain(opts: Options, grants: seq<Grant>, grantees: GranteesArg): (r: Result<map<string, int>>)
    ensures r.Ok? <==> forall i :: 0 <= i < |opts.scopes| ==> Truthy(opts.scopes[i].name)
    ensures r.Err? ==> r.error == ScopeUndefined
    ensures r.Ok? ==> forall i :: 0 <= i < |opts.scopes| ==> opts.scopes[i].name in r.value
    ensures r.Ok? ==> forall n :: n in r.value ==> exists i :: 0 <= i < |opts.scopes| && opts.scopes[i].name == n
    ensures r.Ok? ==> forall n :: n in r.value ==>
      r.value[n] >= opts.lowestAccess
      && r.value[n] == AccessLevel(grants, Some(n), ToSetOfGrantees(grantees), opts.lowestAccess)
  {
    var ids := ToSetOfGrantees(grantees);
    if exists i :: 0 <= i < |opts.scopes| && !Truthy(opts.scopes[i].name) then Err(ScopeUndefined)
    else Ok(map i | 0 <= i < |opts.scopes| :: opts.scopes[i].name := AccessLevel(grants, Some(opts.scopes[i].name), ids, opts.lowestAccess))
  }
}
