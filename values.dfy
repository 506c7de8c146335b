/** Values shared by every part of the ACL engine: the outcome wrappers that
    stand for the engine's thrown assertions, the grant record, and the
    insertion-ordered sets that the engine builds with JavaScript `Set`s. */
module Values {

  datatype Option<+T> = None | Some(value: T)

  /** The conditions under which the engine throws (an `assert.ok` or an
      `Error`); each operation that can throw returns one of these instead. */
  datatype AclError =
    | ScopeUndefined      // scope(name) with a falsy name
    | InvalidScope        // scope(name) with a name that is not configured
    | ScopeNotSelected    // access() before any scope(...)
    | GranteesUndefined   // grantAccess with falsy grantees
    | InvalidPermission   // a permission below lowestAccess
    | MissingScope        // findAccessibleBy with a falsy scope
    | AclNotSelected      // getAcl on a document whose ACL field was not loaded
    | NestedPath          // a configured ACL path containing '.'

  datatype Result<+T> = Ok(value: T) | Err(error: AclError)

  datatype Outcome = Pass | Fail(error: AclError)

  /** One grant `{grantee, permission, scope}`. The scope is `None` when the
      grant was written by a writer on which no scope had been selected. */
  datatype Grant = Grant(grantee: string, permission: int, scope: Option<string>)

  /** The pair a grant is identified by, both inside a tag and in the merge. */
  datatype Key = Key(scope: Option<string>, grantee: string)

  function KeyOf(g: Grant): Key
  {
    Key(g.scope, g.grantee)
  }

  /** At most one grant per (scope, grantee). */
  predicate AtMostOne(grants: seq<Grant>)
  {
    forall i, j :: 0 <= i < j < |grants| ==> KeyOf(grants[i]) != KeyOf(grants[j])
  }

  /** JavaScript truthiness of a string: only the empty string is falsy. */
  predicate Truthy(s: string)
  {
    s != ""
  }

  predicate Distinct<T(==)>(s: seq<T>)
  {
    forall i, j :: 0 <= i < j < |s| ==> s[i] != s[j]
  }

  /** `set.add(x)` on an insertion-ordered set: a present element keeps its place. */
  function Add<T(==,!new)>(s: seq<T>, x: T): (r: seq<T>)
    ensures Distinct(s) ==> Distinct(r)
    ensures forall y :: y in r <==> y in s || y == x
    ensures x in s ==> r == s
    ensures x !in s ==> r == s + [x]
  {
    if x in s then s else s + [x]
  }

  /** `new Set(array)`: the elements of `s`, each at its first occurrence. */
  function Dedup<T(==,!new)>(s: seq<T>): (r: seq<T>)
    ensures Distinct(r)
    ensures forall x :: x in r <==> x in s
    ensures |r| <= |s|
  {
    if s == [] then [] else Add(Dedup(s[..|s| - 1]), s[|s| - 1])
  }

  lemma {:induction false} DedupOfDistinct<T(!new)>(s: seq<T>)
    requires Distinct(s)
    ensures Dedup(s) == s
  {
    if s != [] {
      var init := s[..|s| - 1];
      assert Distinct(init);
      DedupOfDistinct(init);
      assert s[|s| - 1] !in init;
      assert init + [s[|s| - 1]] == s;
    }
  }

  /** Dedup keeps the order of first occurrences: when x comes before y in
      the result, some occurrence of x in s precedes the first one of y. */
  lemma {:induction false} DedupOrder<T(!new)>(s: seq<T>, i: nat, j: nat)
    requires i < j < |Dedup(s)|
    ensures exists a, b :: 0 <= a < b < |s| && s[a] == Dedup(s)[i] && s[b] == Dedup(s)[j]
                           && Dedup(s)[j] !in s[..b]
  {
    var init := s[..|s| - 1];
    var last := s[|s| - 1];
    if j < |Dedup(init)| {
      DedupOrder(init, i, j);
      var a, b :| 0 <= a < b < |init| && init[a] == Dedup(init)[i] && init[b] == Dedup(init)[j]
                  && Dedup(init)[j] !in init[..b];
      assert init[..b] == s[..b];
    } else {
      assert Dedup(s) == Dedup(init) + [last];
      assert Dedup(s)[j] == last && last !in init;
      assert Dedup(s)[i] in init;
      var a :| 0 <= a < |init| && init[a] == Dedup(s)[i];
      assert s[..|s| - 1] == init;
    }
  }
}
