/** Literals, lifted booleans, clauses and what they mean. */
module Cnf {

  // A literal: variable `v`, negated when `s` (the source's sign bit).
  datatype Lit = Lit(v: nat, s: bool)

  function Neg(p: Lit): Lit { Lit(p.v, !p.s) }

  datatype LBool = True | False | Undef

  type Assignment = nat -> bool

  predicate Holds(a: Assignment, p: Lit) { a(p.v) != p.s }

  ghost predicate SatClause(a: Assignment, c: seq<Lit>) {
    exists p :: p in c && Holds(a, p)
  }

  ghost predicate SatAll(a: Assignment, f: seq<seq<Lit>>) {
    forall c :: c in f ==> SatClause(a, c)
  }

  ghost predicate Entails(f: seq<seq<Lit>>, c: seq<Lit>) {
    forall a: Assignment :: SatAll(a, f) ==> SatClause(a, c)
  }

  ghost predicate Unsat(f: seq<seq<Lit>>) {
    forall a: Assignment :: !SatAll(a, f)
  }

  lemma SatMore(a: Assignment, f: seq<seq<Lit>>, ps: seq<Lit>)
    ensures SatAll(a, f + [ps]) <==> SatAll(a, f) && SatClause(a, ps)
  {
    if SatAll(a, f + [ps]) {
      assert ps in f + [ps];
      forall d | d in f ensures SatClause(a, d) { assert d in f + [ps]; }
    }
  }

  // No variable occurs twice: neither a duplicate literal nor a tautology.
  predicate Proper(c: seq<Lit>) {
    forall i, j :: 0 <= i < j < |c| ==> c[i].v != c[j].v
  }

  predicate VarsBelow(c: seq<Lit>, n: nat) {
    forall i :: 0 <= i < |c| ==> c[i].v < n
  }

  // The integer a literal is stored as: 2v, or 2v + 1 when negated. It is also the order of sorting.
  function ToInt(p: Lit): nat { 2 * p.v + if p.s then 1 else 0 }

  function ToLit(i: nat): Lit { Lit(i / 2, i % 2 == 1) }

  lemma LitRoundTrip(p: Lit, i: nat)
    ensures ToLit(ToInt(p)) == p && ToInt(ToLit(i)) == i
  {}
}
