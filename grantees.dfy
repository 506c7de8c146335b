/** Grantee normalisation (`toSetOfGrantees`) and the grant matcher
    (`isMatchingGrant`). */
module Grantees {
  import opened Values

  /** The values the engine accepts wherever it expects grantees. A JavaScript
      `Set` is given by its elements in insertion order. */
  datatype GranteesArg =
    | Undefined                 // undefined or null
    | Single(id: string)        // one bare identifier; "" is falsy
    | List(ids: seq<string>)    // an array, truthy even when empty
    | SetOf(ids: seq<string>)   // a Set, truthy even when empty
    | Holder(ids: seq<string>)  // an object whose `grantees` field is an array or a Set

  /** JavaScript truthiness of the argument itself, before normalisation. */
  predicate IsTruthy(v: GranteesArg): (r: bool)
    ensures v.Undefined? ==> !r
    ensures v.Single? ==> (r <==> v.id != "")
    ensures !v.Undefined? && !v.Single? ==> r  // an array, Set or holder, even an empty one
  {
    match v
    case Undefined => false
    case Single(id) => Truthy(id)
    case _ => true
  }

  /** `toSetOfGrantees`: a falsy value gives the empty set, a holder is
      unwrapped, an array or a Set gives its distinct elements in insertion
      order, and a bare identifier gives a singleton. */
  function ToSetOfGrantees(v: GranteesArg): (r: seq<string>)
    ensures Distinct(r)
    ensures !IsTruthy(v) ==> r == []
    ensures v.Single? && Truthy(v.id) ==> r == [v.id]
    ensures (v.List? || v.SetOf? || v.Holder?) ==> forall g :: g in r <==> g in v.ids
    ensures v.SetOf? && Distinct(v.ids) ==> r == v.ids
  {
    match v
    case Undefined => []
    case Single(id) => if Truthy(id) then [id] else []
    case List(ids) => Dedup(ids)
    case SetOf(ids) =>
      if Distinct(ids) then DedupOfDistinct(ids); ids else Dedup(ids)
    case Holder(ids) => Dedup(ids)
  }

  /** The grant filter the engine's lookups share: the grant lies in `scope`
      and its grantee is one of `ids`. */
  predicate Matches(g: Grant, scope: Option<string>, ids: seq<string>)
  {
    g.scope == scope && g.grantee in ids
  }

  /** `isMatchingGrant(scope, grantees)` applied to the grant `g`. */
  predicate IsMatchingGrant(scope: Option<string>, grantees: GranteesArg, g: Grant): (r: bool)
    ensures r ==> IsTruthy(grantees) && g.scope == scope
  {
    Matches(g, scope, ToSetOfGrantees(grantees))
  }

  /** With a single identifier the matcher compares keys, except that the
      empty identifier, being falsy, matches no grant at all. */
  lemma MatchingSingle(scope: Option<string>, id: string, g: Grant)
    ensures IsMatchingGrant(scope, Single(id), g) <==> id != "" && KeyOf(g) == Key(scope, id)
  {
  }

  /** Normalisation is stable: normalising an already normalised set (a
      `Set` passed back in, as the engine does) changes nothing. */
  lemma {:induction false} NormaliseTwice(v: GranteesArg)
    ensures ToSetOfGrantees(SetOf(ToSetOfGrantees(v))) == ToSetOfGrantees(v)
  {
  }
}
