/** What groups of clauses over Boolean references mean, and how encodings compose. */
module Encode {
  import opened Cnf
  import opened SearchSpec

  // A Boolean reference: variable v is v + 1, its negation -(v + 1); 0 is not a reference.
  predicate RefOk(b: int, nv: nat) { b != 0 && b <= nv && -b <= nv }

  predicate RefsOk(bs: seq<int>, nv: nat) { forall i :: 0 <= i < |bs| ==> RefOk(bs[i], nv) }

  function LitOf(b: int): Lit {
    if b > 0 then Lit(b - 1, false) else if b < 0 then Lit(-b - 1, true) else Lit(0, false)
  }

  predicate B(a: Assignment, b: int) { Holds(a, LitOf(b)) }

  function Lits(bs: seq<int>): seq<Lit> { seq(|bs|, (i: nat) requires i < |bs| => LitOf(bs[i])) }

  ghost predicate Agree(a: Assignment, a': Assignment, n: nat) { forall v: nat :: v < n ==> a(v) == a'(v) }

  function Put(a: Assignment, v: nat, b: bool): Assignment { (x: nat) => if x == v then b else a(x) }

  /** A condition that depends only on the first n variables. */
  ghost predicate Local(phi: Assignment -> bool, n: nat) {
    forall a: Assignment, a': Assignment :: Agree(a, a', n) ==> phi(a) == phi(a')
  }

  type Formula = seq<seq<Lit>>

  /** `f'` is `f` with exactly the condition phi added. */
  ghost predicate Adds(f: Formula, f': Formula, phi: Assignment -> bool) {
    forall a: Assignment :: SatAll(a, f') <==> SatAll(a, f) && phi(a)
  }

  /** Some assignment of `f` agrees with a on the first nv variables. */
  ghost predicate ExtendsTo(a: Assignment, nv: nat, f: Formula) {
    exists a': Assignment :: Agree(a, a', nv) && SatAll(a', f)
  }

  /** Every assignment of `f` with phi extends, on new variables only, to one of `f'`. */
  ghost predicate Extensible(f: Formula, nv: nat, f': Formula, phi: Assignment -> bool) {
    forall a: Assignment :: SatAll(a, f) && phi(a) ==> ExtendsTo(a, nv, f')
  }

  ghost predicate Implies(f: Formula, f': Formula, phi: Assignment -> bool) {
    forall a: Assignment :: SatAll(a, f') ==> SatAll(a, f) && phi(a)
  }

  /** Projected to the first nv variables, `f'` is exactly `f` with phi. */
  ghost predicate Step(f: Formula, nv: nat, f': Formula, phi: Assignment -> bool) {
    Implies(f, f', phi) && Extensible(f, nv, f', phi)
  }

  function Top(): Assignment -> bool { (a: Assignment) => true }

  lemma AgreeB(a: Assignment, a': Assignment, nv: nat, b: int)
    requires Agree(a, a', nv) && RefOk(b, nv)
    ensures B(a, b) == B(a', b)
  {}

  lemma NegB(a: Assignment, b: int)
    requires b != 0
    ensures B(a, -b) == !B(a, b)
  {}

  ghost predicate Or(a: Assignment, bs: seq<int>) { exists i :: 0 <= i < |bs| && B(a, bs[i]) }

  lemma OrClause(a: Assignment, bs: seq<int>)
    ensures SatClause(a, Lits(bs)) <==> Or(a, bs)
  {
    var c := Lits(bs);
    if SatClause(a, c) {
      var p :| p in c && Holds(a, p);
      var i :| 0 <= i < |c| && c[i] == p;
      assert B(a, bs[i]);
    }
    if Or(a, bs) {
      var i :| 0 <= i < |bs| && B(a, bs[i]);
      assert c[i] in c;
    }
  }

  lemma AgreeSat(f: Formula, nv: nat, a: Assignment, a': Assignment)
    requires FormulaBelow(f, nv) && Agree(a, a', nv)
    ensures SatAll(a, f) == SatAll(a', f)
  {
    forall c | c in f ensures SatClause(a, c) == SatClause(a', c) {
      forall p | p in c ensures Holds(a, p) == Holds(a', p) {}
    }
  }

  lemma AddsTrans(f: Formula, f': Formula, f'': Formula, phi: Assignment -> bool, psi: Assignment -> bool,
      chi: Assignment -> bool)
    requires Adds(f, f', phi) && Adds(f', f'', psi) && forall a: Assignment :: chi(a) <==> phi(a) && psi(a)
    ensures Adds(f, f'', chi)
  {}

  lemma AddsOr(f: Formula, bs: seq<int>, phi: Assignment -> bool)
    requires forall a: Assignment :: phi(a) <==> Or(a, bs)
    ensures Adds(f, f + [Lits(bs)], phi)
  {
    forall a: Assignment ensures SatAll(a, f + [Lits(bs)]) <==> SatAll(a, f) && phi(a) {
      SatMore(a, f, Lits(bs));
      OrClause(a, bs);
    }
  }

  lemma ExtendsTrans(a: Assignment, a': Assignment, nv: nat, nv': nat, f: Formula)
    requires Agree(a, a', nv) && nv <= nv' && ExtendsTo(a', nv', f)
    ensures ExtendsTo(a, nv, f)
  {
    var a'': Assignment :| Agree(a', a'', nv') && SatAll(a'', f);
    assert Agree(a, a'', nv);
  }

  lemma ExtendsSelf(a: Assignment, nv: nat, f: Formula)
    requires SatAll(a, f)
    ensures ExtendsTo(a, nv, f)
  {
    assert Agree(a, a, nv);
  }

  /** A new variable, added with a condition that gives it the value of psi in every model of the old clauses. */
  lemma Define(f: Formula, nv: nat, f': Formula, psi: Assignment -> bool, phi: Assignment -> bool)
    requires FormulaBelow(f, nv) && Local(psi, nv)
    requires Adds(f, f', phi) && forall a: Assignment :: SatAll(a, f) ==> (phi(a) <==> a(nv) == psi(a))
    ensures Step(f, nv, f', Top())
  {
    forall a: Assignment | SatAll(a, f) ensures ExtendsTo(a, nv, f') {
      var a' := Put(a, nv, psi(a));
      assert Agree(a, a', nv);
      AgreeSat(f, nv, a, a');
      assert psi(a') == psi(a) && a'(nv) == psi(a);
      assert phi(a');
    }
  }

  lemma StepTransAt(f: Formula, nv: nat, f': Formula, nv': nat, f'': Formula, psi: Assignment -> bool, a: Assignment)
    requires ExtendsTo(a, nv, f') && Extensible(f', nv', f'', psi) && nv <= nv' && Local(psi, nv) && psi(a)
    ensures ExtendsTo(a, nv, f'')
  {
    hide SatAll;
    var a': Assignment :| Agree(a, a', nv) && SatAll(a', f');
    assert psi(a) == psi(a');
    ExtendsTrans(a, a', nv, nv', f'');
  }

  /** Two encoding steps, the second about variables that were there before the first. */
  lemma StepTrans(f: Formula, nv: nat, f': Formula, nv': nat, f'': Formula,
                  phi: Assignment -> bool, psi: Assignment -> bool, chi: Assignment -> bool)
    requires Step(f, nv, f', phi) && Step(f', nv', f'', psi) && nv <= nv' && Local(psi, nv)
    requires forall a: Assignment :: chi(a) <==> phi(a) && psi(a)
    ensures Step(f, nv, f'', chi)
  {
    hide SatAll, Local, ExtendsTo;
    forall a: Assignment | SatAll(a, f) && chi(a) ensures ExtendsTo(a, nv, f'') {
      assert phi(a) && psi(a);
      StepTransAt(f, nv, f', nv', f'', psi, a);
    }
    forall a: Assignment | SatAll(a, f'') ensures SatAll(a, f) && chi(a) {
      assert SatAll(a, f') && psi(a);
      assert SatAll(a, f) && phi(a);
    }
  }

  lemma StepRefl(f: Formula, nv: nat)
    ensures Step(f, nv, f, Top())
  {
    forall a: Assignment | SatAll(a, f) ensures ExtendsTo(a, nv, f) { ExtendsSelf(a, nv, f); }
  }

  lemma AddsStep(f: Formula, nv: nat, f': Formula, phi: Assignment -> bool)
    requires Adds(f, f', phi)
    ensures Step(f, nv, f', phi)
  {
    forall a: Assignment | SatAll(a, f) && phi(a) ensures ExtendsTo(a, nv, f') { ExtendsSelf(a, nv, f'); }
  }

  lemma StepThenAt(f: Formula, nv: nat, f': Formula, nv': nat, f'': Formula,
                   psi: Assignment -> bool, phi: Assignment -> bool, a: Assignment)
    requires ExtendsTo(a, nv, f') && Extensible(f', nv', f'', psi) && nv <= nv' && Local(phi, nv) && phi(a)
    requires forall a: Assignment :: SatAll(a, f') ==> (psi(a) <==> phi(a))
    ensures ExtendsTo(a, nv, f'')
  {
    hide SatAll;
    var a': Assignment :| Agree(a, a', nv) && SatAll(a', f');
    assert phi(a) == phi(a');
    ExtendsTrans(a, a', nv, nv', f'');
  }

  /** After defining auxiliary variables, a condition psi on them that amounts to phi on the old ones. */
  lemma StepThen(f: Formula, nv: nat, f': Formula, nv': nat, f'': Formula, psi: Assignment -> bool,
      phi: Assignment -> bool)
    requires Step(f, nv, f', Top()) && Step(f', nv', f'', psi) && nv <= nv' && Local(phi, nv)
    requires forall a: Assignment :: SatAll(a, f') ==> (psi(a) <==> phi(a))
    ensures Step(f, nv, f'', phi)
  {
    hide SatAll, Local, ExtendsTo;
    forall a: Assignment | SatAll(a, f) && phi(a) ensures ExtendsTo(a, nv, f'') {
      assert Top()(a);
      StepThenAt(f, nv, f', nv', f'', psi, phi, a);
    }
    forall a: Assignment | SatAll(a, f'') ensures SatAll(a, f) && phi(a) {
      assert SatAll(a, f') && psi(a);
    }
  }

  /** A weaker view of a step: nothing earlier is lost. */
  ghost predicate Stronger(f: Formula, f': Formula) {
    forall a: Assignment :: SatAll(a, f') ==> SatAll(a, f)
  }

  // ---------------------------------------------------------------- conditions

  ghost predicate AtMostOne(a: Assignment, bs: seq<int>) {
    forall i, j :: 0 <= i < j < |bs| ==> !(B(a, bs[i]) && B(a, bs[j]))
  }

  ghost predicate ExactlyOne(a: Assignment, bs: seq<int>) { Or(a, bs) && AtMostOne(a, bs) }

  ghost function OrPhi(bs: seq<int>): Assignment -> bool { (a: Assignment) => Or(a, bs) }

  ghost function AmoPhi(bs: seq<int>): Assignment -> bool { (a: Assignment) => AtMostOne(a, bs) }

  ghost function OnePhi(bs: seq<int>): Assignment -> bool { (a: Assignment) => ExactlyOne(a, bs) }

  /** t is true exactly if b1 and b2 are equal. */
  function IffPhi(b1: int, b2: int, t: int): Assignment -> bool {
    (a: Assignment) => B(a, t) == (B(a, b1) == B(a, b2))
  }

  function And2Phi(b1: int, b2: int, t: int): Assignment -> bool {
    (a: Assignment) => B(a, t) == (B(a, b1) && B(a, b2))
  }

  function And3Phi(b1: int, b2: int, b3: int, t: int): Assignment -> bool {
    (a: Assignment) => B(a, t) == (B(a, b1) && B(a, b2) && B(a, b3))
  }

  /** What the three clauses of the or-reification say: t is the disjunction, unless both inputs are true. */
  function OrReifPhi(b1: int, b2: int, t: int): Assignment -> bool {
    (a: Assignment) => (B(a, b1) && B(a, b2)) || B(a, t) == (B(a, b1) || B(a, b2))
  }

  ghost function ArrayOrPhi(bs: seq<int>, t: int): Assignment -> bool {
    (a: Assignment) => B(a, t) == Or(a, bs)
  }

  /** The arrays agree on their first k positions. */
  ghost predicate Same(a: Assignment, arr1: seq<int>, arr2: seq<int>, k: nat) {
    forall i :: 0 <= i < k && i < |arr1| && i < |arr2| ==> B(a, arr1[i]) == B(a, arr2[i])
  }

  /** If the arrays agree before position `length - 1`, the first is not above the second there. */
  ghost predicate LexImp(a: Assignment, arr1: seq<int>, arr2: seq<int>, length: nat) {
    1 <= length <= |arr1| && length <= |arr2| && Same(a, arr1, arr2, length - 1) ==>
      !B(a, arr1[length - 1]) || B(a, arr2[length - 1])
  }

  /** The arrays agree before position `length - 1`, and there the first is false and the second true. */
  ghost predicate LexLt(a: Assignment, arr1: seq<int>, arr2: seq<int>, length: nat) {
    && 1 <= length <= |arr1| && length <= |arr2| && Same(a, arr1, arr2, length - 1)
    && !B(a, arr1[length - 1]) && B(a, arr2[length - 1])
  }

  ghost function LexImpPhi(arr1: seq<int>, arr2: seq<int>, length: nat): Assignment -> bool {
    (a: Assignment) => LexImp(a, arr1, arr2, length)
  }

  ghost function LexLtPhi(arr1: seq<int>, arr2: seq<int>, length: nat): Assignment -> bool {
    (a: Assignment) => LexLt(a, arr1, arr2, length)
  }

  // ---------------------------------------------------------------- what the clauses of each reification say

  lemma Or2(a: Assignment, b1: int, b2: int)
    ensures Or(a, [b1, b2]) <==> B(a, b1) || B(a, b2)
  {
    var bs := [b1, b2];
    if B(a, b1) { assert B(a, bs[0]); }
    if B(a, b2) { assert B(a, bs[1]); }
  }

  lemma Or3(a: Assignment, b1: int, b2: int, b3: int)
    ensures Or(a, [b1, b2, b3]) <==> B(a, b1) || B(a, b2) || B(a, b3)
  {
    var bs := [b1, b2, b3];
    if B(a, b1) { assert B(a, bs[0]); }
    if B(a, b2) { assert B(a, bs[1]); }
    if B(a, b3) { assert B(a, bs[2]); }
  }

  lemma Or4(a: Assignment, b1: int, b2: int, b3: int, b4: int)
    ensures Or(a, [b1, b2, b3, b4]) <==> B(a, b1) || B(a, b2) || B(a, b3) || B(a, b4)
  {
    var bs := [b1, b2, b3, b4];
    if B(a, b1) { assert B(a, bs[0]); }
    if B(a, b2) { assert B(a, bs[1]); }
    if B(a, b3) { assert B(a, bs[2]); }
    if B(a, b4) { assert B(a, bs[3]); }
  }

  /** One clause more, as a condition on references. */
  lemma SatOr(a: Assignment, f: Formula, bs: seq<int>)
    ensures SatAll(a, f + [Lits(bs)]) <==> SatAll(a, f) && Or(a, bs)
  {
    SatMore(a, f, Lits(bs));
    OrClause(a, bs);
  }

  lemma IffAdds(f: Formula, b1: int, b2: int, t: int)
    requires b1 != 0 && b2 != 0 && t != 0
    ensures Adds(f, f + [Lits([b1, b2, t])] + [Lits([-b1, -b2, t])] + [Lits([b1, -b2, -t])] + [Lits([-b1, b2, -t])],
      IffPhi(b1, b2, t))
  {
    hide SatAll, Or, B, Lits;
    var f1 := f + [Lits([b1, b2, t])];
    var f2 := f1 + [Lits([-b1, -b2, t])];
    var f3 := f2 + [Lits([b1, -b2, -t])];
    var f4 := f3 + [Lits([-b1, b2, -t])];
    forall a: Assignment ensures SatAll(a, f4) <==> SatAll(a, f) && IffPhi(b1, b2, t)(a) {
      SatOr(a, f, [b1, b2, t]); SatOr(a, f1, [-b1, -b2, t]); SatOr(a, f2, [b1, -b2, -t]); SatOr(a, f3, [-b1, b2, -t]);
      Or3(a, b1, b2, t); Or3(a, -b1, -b2, t); Or3(a, b1, -b2, -t); Or3(a, -b1, b2, -t);
      NegB(a, b1); NegB(a, b2); NegB(a, t);
    }
  }

  lemma And2Adds(f: Formula, b1: int, b2: int, t: int)
    requires b1 != 0 && b2 != 0 && t != 0
    ensures Adds(f, f + [Lits([b1, -t])] + [Lits([b2, -t])] + [Lits([-b1, -b2, t])], And2Phi(b1, b2, t))
  {
    hide SatAll, Or, B, Lits;
    var f1 := f + [Lits([b1, -t])];
    var f2 := f1 + [Lits([b2, -t])];
    var f3 := f2 + [Lits([-b1, -b2, t])];
    forall a: Assignment ensures SatAll(a, f3) <==> SatAll(a, f) && And2Phi(b1, b2, t)(a) {
      SatOr(a, f, [b1, -t]); SatOr(a, f1, [b2, -t]); SatOr(a, f2, [-b1, -b2, t]);
      Or2(a, b1, -t); Or2(a, b2, -t); Or3(a, -b1, -b2, t);
      NegB(a, b1); NegB(a, b2); NegB(a, t);
    }
  }

  lemma And3Adds(f: Formula, b1: int, b2: int, b3: int, t: int)
    requires b1 != 0 && b2 != 0 && b3 != 0 && t != 0
    ensures Adds(f, f + [Lits([b1, -t])] + [Lits([b2, -t])] + [Lits([b3, -t])] + [Lits([-b1, -b2, -b3, t])],
      And3Phi(b1, b2, b3, t))
  {
    hide SatAll, Or, B, Lits;
    var f1 := f + [Lits([b1, -t])];
    var f2 := f1 + [Lits([b2, -t])];
    var f3 := f2 + [Lits([b3, -t])];
    var f4 := f3 + [Lits([-b1, -b2, -b3, t])];
    forall a: Assignment ensures SatAll(a, f4) <==> SatAll(a, f) && And3Phi(b1, b2, b3, t)(a) {
      SatOr(a, f, [b1, -t]); SatOr(a, f1, [b2, -t]); SatOr(a, f2, [b3, -t]); SatOr(a, f3, [-b1, -b2, -b3, t]);
      Or2(a, b1, -t); Or2(a, b2, -t); Or2(a, b3, -t); Or4(a, -b1, -b2, -b3, t);
      NegB(a, b1); NegB(a, b2); NegB(a, b3); NegB(a, t);
    }
  }

  lemma OrReifAdds(f: Formula, b1: int, b2: int, t: int)
    requires b1 != 0 && b2 != 0 && t != 0
    ensures Adds(f, f + [Lits([b1, b2, -t])] + [Lits([b1, -b2, t])] + [Lits([-b1, b2, t])], OrReifPhi(b1, b2, t))
  {
    hide SatAll, Or, B, Lits;
    var f1 := f + [Lits([b1, b2, -t])];
    var f2 := f1 + [Lits([b1, -b2, t])];
    var f3 := f2 + [Lits([-b1, b2, t])];
    forall a: Assignment ensures SatAll(a, f3) <==> SatAll(a, f) && OrReifPhi(b1, b2, t)(a) {
      SatOr(a, f, [b1, b2, -t]); SatOr(a, f1, [b1, -b2, t]); SatOr(a, f2, [-b1, b2, t]);
      Or3(a, b1, b2, -t); Or3(a, b1, -b2, t); Or3(a, -b1, b2, t);
      NegB(a, b1); NegB(a, b2); NegB(a, t);
    }
  }

  /**
   * The or-reification pins t to the disjunction of two references over other variables exactly under assignments that
   * do not make both true; with both true, either value of t satisfies its clauses.
   */
  lemma OrReifExactness(a: Assignment, b1: int, b2: int, t: int)
    requires b1 != 0 && b2 != 0 && t != 0 && LitOf(b1).v != LitOf(t).v && LitOf(b2).v != LitOf(t).v
    ensures (forall v: bool :: OrReifPhi(b1, b2, t)(Put(a, LitOf(t).v, v)) ==>
      B(Put(a, LitOf(t).v, v), t) == (B(a, b1) || B(a, b2))) <==> !(B(a, b1) && B(a, b2))
  {
    var u := LitOf(t).v;
    forall v: bool ensures OrReifPhi(b1, b2, t)(Put(a, u, v)) ==
      ((B(a, b1) && B(a, b2)) || B(Put(a, u, v), t) == (B(a, b1) || B(a, b2)))
    {
      assert B(Put(a, u, v), b1) == B(a, b1) && B(Put(a, u, v), b2) == B(a, b2);
    }
    var w := !(B(a, b1) || B(a, b2));
    assert B(Put(a, u, w != LitOf(t).s), t) == w;
  }

  /** A definition of a fresh variable, as the next reference. */
  lemma DefineRef(f: Formula, nv: nat, f': Formula, psi: Assignment -> bool, phi: Assignment -> bool)
    requires FormulaBelow(f, nv) && Local(psi, nv)
    requires Adds(f, f', phi) && forall a: Assignment :: SatAll(a, f) ==> (phi(a) <==> B(a, nv + 1) == psi(a))
    ensures Step(f, nv, f', Top())
    ensures forall a: Assignment :: SatAll(a, f') ==> B(a, nv + 1) == psi(a)
  {
    Define(f, nv, f', psi, phi);
  }
}
