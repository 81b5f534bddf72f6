/** Full lexicographic order on references: the strict order by reified first differences, the other by Horn clauses. */
module LexCnf {
  import opened Cnf
  import opened SolverSpec
  import opened SearchSpec
  import opened Encode
  import opened GraphCnf

  // ---------------------------------------------------------------- conjunctions

  ghost predicate All(a: Assignment, bs: seq<int>) { forall i :: 0 <= i < |bs| ==> B(a, bs[i]) }

  ghost predicate IsAnd(f: Formula, t: int, bs: seq<int>) {
    forall a: Assignment :: SatAll(a, f) ==> (B(a, t) <==> All(a, bs))
  }

  ghost function ArrayAndPhi(bs: seq<int>, t: int): Assignment -> bool { (a: Assignment) => B(a, t) == All(a, bs) }

  lemma AllTake(a: Assignment, bs: seq<int>, i: nat)
    requires i < |bs|
    ensures All(a, bs[..i + 1]) <==> All(a, bs[..i]) && B(a, bs[i])
  {
    var c, d := bs[..i], bs[..i + 1];
    assert forall k :: 0 <= k < i ==> c[k] == d[k];
    assert d[i] == bs[i];
  }

  lemma AgreeAll(a: Assignment, a': Assignment, bs: seq<int>, nv: nat)
    requires Agree(a, a', nv) && RefsOk(bs, nv)
    ensures All(a, bs) == All(a', bs)
  {
    forall i | 0 <= i < |bs| ensures B(a, bs[i]) == B(a', bs[i]) { AgreeB(a, a', nv, bs[i]); }
  }

  lemma AndStart(f: Formula, nv: nat, bs: seq<int>)
    requires |bs| >= 1
    ensures Step(f, nv, f, Top()) && IsAnd(f, bs[0], bs[..1])
  {
    StepRefl(f, nv);
    forall a: Assignment ensures B(a, bs[0]) == All(a, bs[..1]) { assert bs[..1][0] == bs[0]; }
  }

  lemma AndLink(f: Formula, nv: nat, f': Formula, bs: seq<int>, i: nat, ti: int)
    requires FormulaBelow(f, nv) && RefsOk(bs, nv) && RefOk(ti, nv) && i < |bs|
    requires IsAnd(f, ti, bs[..i]) && Adds(f, f', And2Phi(ti, bs[i], nv + 1))
    ensures Step(f, nv, f', Top()) && IsAnd(f', nv + 1, bs[..i + 1])
  {
    hide SatAll, All, FormulaBelow, B;
    var psi := (a: Assignment) => B(a, ti) && B(a, bs[i]);
    LocalAnd2(ti, bs[i], nv);
    DefineRef(f, nv, f', psi, And2Phi(ti, bs[i], nv + 1));
    forall a: Assignment | SatAll(a, f') ensures B(a, nv + 1) == All(a, bs[..i + 1]) {
      AllTake(a, bs, i);
      assert SatAll(a, f);
    }
  }

  lemma AndNext(f0: Formula, nv0: nat, f: Formula, nv: nat, f': Formula, bs: seq<int>, i: nat, ti: int)
    requires Step(f0, nv0, f, Top()) && nv0 <= nv && FormulaBelow(f, nv) && RefsOk(bs, nv) && RefOk(ti, nv) && i < |bs|
    requires IsAnd(f, ti, bs[..i]) && Adds(f, f', And2Phi(ti, bs[i], nv + 1))
    ensures Step(f0, nv0, f', Top()) && IsAnd(f', nv + 1, bs[..i + 1])
  {
    hide SatAll, IsAnd, FormulaBelow, Step, Adds;
    AndLink(f, nv, f', bs, i, ti);
    StepTop(f0, nv0, f, nv, f');
  }

  lemma LocalAnd2(b1: int, b2: int, nv: nat)
    requires RefOk(b1, nv) && RefOk(b2, nv)
    ensures Local((a: Assignment) => B(a, b1) && B(a, b2), nv)
  {}

  lemma LocalArrayAnd(bs: seq<int>, t: int, nv: nat)
    requires RefsOk(bs, nv) && RefOk(t, nv)
    ensures Local(ArrayAndPhi(bs, t), nv)
  {
    forall a: Assignment, a': Assignment | Agree(a, a', nv) ensures ArrayAndPhi(bs, t)(a) == ArrayAndPhi(bs, t)(a') {
      AgreeAll(a, a', bs, nv);
      AgreeB(a, a', nv, t);
    }
  }

  /** The last link of the chain; a chain of one link repeats its input. */
  lemma AndEnd(f0: Formula, nv0: nat, f: Formula, nv: nat, f': Formula, bs: seq<int>, i: nat, ti: int, t: int)
    requires |bs| >= 1 && i == (if |bs| == 1 then 1 else |bs| - 1) && Step(f0, nv0, f, Top()) && nv0 <= nv
    requires RefsOk(bs, nv0) && RefOk(t, nv0) && IsAnd(f, ti, bs[..i]) && Adds(f, f', And2Phi(bs[|bs| - 1], ti, t))
    ensures Step(f0, nv0, f', ArrayAndPhi(bs, t))
  {
    hide SatAll, All, B, Step, Adds;
    var last := bs[|bs| - 1];
    LocalArrayAnd(bs, t, nv0);
    AddsStep(f, nv, f', And2Phi(last, ti, t));
    forall a: Assignment | SatAll(a, f) ensures And2Phi(last, ti, t)(a) <==> ArrayAndPhi(bs, t)(a) {
      AllTake(a, bs, |bs| - 1);
      assert bs[..|bs|] == bs;
    }
    StepThen(f0, nv0, f, nv, f', And2Phi(last, ti, t), ArrayAndPhi(bs, t));
  }

  // ---------------------------------------------------------------- the order itself

  /** The first array is not above the second at any first difference among the first k positions. */
  ghost predicate LexLeUpTo(a: Assignment, arr1: seq<int>, arr2: seq<int>, k: nat) {
    forall length: nat :: 1 <= length <= k ==> LexImp(a, arr1, arr2, length)
  }

  ghost function LexLeUpToPhi(arr1: seq<int>, arr2: seq<int>, k: nat): Assignment -> bool {
    (a: Assignment) => LexLeUpTo(a, arr1, arr2, k)
  }

  /** The arrays differ, and at the first difference the first is false. */
  ghost predicate LexBelow(a: Assignment, arr1: seq<int>, arr2: seq<int>) {
    exists length: nat :: LexLt(a, arr1, arr2, length)
  }

  ghost function LexBelowPhi(arr1: seq<int>, arr2: seq<int>): Assignment -> bool {
    (a: Assignment) => LexBelow(a, arr1, arr2)
  }

  /** The references are, in all models, the equalities of the first positions. */
  ghost predicate EqualTo(f: Formula, reifs: seq<int>, arr1: seq<int>, arr2: seq<int>) {
    |reifs| <= |arr1| && |reifs| <= |arr2| && forall k :: 0 <= k < |reifs| ==>
      reifs[k] != 0 && Equated(f, arr1[k], arr2[k], reifs[k])
  }

  lemma EqualMore(f: Formula, f': Formula, reifs: seq<int>, arr1: seq<int>, arr2: seq<int>, t: int)
    requires EqualTo(f, reifs, arr1, arr2) && Stronger(f, f') && |reifs| < |arr1| && |reifs| < |arr2|
    requires t != 0 && Equated(f', arr1[|reifs|], arr2[|reifs|], t)
    ensures EqualTo(f', reifs + [t], arr1, arr2)
  {
    hide SatAll, B;
    forall k | 0 <= k < |reifs|
      ensures Equated(f', arr1[k], arr2[k], reifs[k])
    {
      assert Equated(f, arr1[k], arr2[k], reifs[k]);
    }
  }

  function Negs(reifs: seq<int>): (r: seq<int>)
    ensures |r| == |reifs| && forall k :: 0 <= k < |r| ==> r[k] == -reifs[k]
  {
    seq(|reifs|, (k: nat) requires k < |reifs| => -reifs[k])
  }

  lemma NegsDiffer(f: Formula, reifs: seq<int>, arr1: seq<int>, arr2: seq<int>, i: nat)
    requires EqualTo(f, reifs, arr1, arr2) && i <= |reifs|
    ensures Differ(f, Negs(reifs)[..i], arr1, arr2)
  {
    hide SatAll, B;
    var c := Negs(reifs)[..i];
    forall k | 0 <= k < |c| ensures c[k] != 0 && Equated(f, arr1[k], arr2[k], -c[k]) { assert -c[k] == reifs[k]; }
  }

  /** One more Horn clause. */
  lemma LexLeNext(f0: Formula, nv0: nat, f: Formula, nv: nat, f': Formula, reifs: seq<int>, arr1: seq<int>,
      arr2: seq<int>, i: nat)
    requires |arr1| == |arr2| && i < |arr1| && i <= |reifs| && EqualTo(f, reifs, arr1, arr2) && nv0 <= nv
    requires RefsOk(arr1, nv0) && RefsOk(arr2, nv0) && Step(f0, nv0, f, LexLeUpToPhi(arr1, arr2, i))
    requires Adds(f, f', OrPhi(Negs(reifs)[..i] + [-arr1[i]] + [arr2[i]]))
    ensures Step(f0, nv0, f', LexLeUpToPhi(arr1, arr2, i + 1)) && EqualTo(f', reifs, arr1, arr2)
  {
    hide SatAll, B, Step, Local, LexImp, Or;
    var c := Negs(reifs)[..i];
    var d := c + [-arr1[i]] + [arr2[i]];
    NegsDiffer(f, reifs, arr1, arr2, i);
    LocalLexImp(arr1, arr2, i + 1, nv0);
    var imp := LexImpPhi(arr1, arr2, i + 1);
    forall a: Assignment ensures SatAll(a, f') <==> SatAll(a, f) && imp(a) {
      if SatAll(a, f) { LexImpClause(f, a, c, arr1, arr2, i + 1); }
    }
    AddsStep(f, nv, f', imp);
    StepTrans(f0, nv0, f, nv, f', LexLeUpToPhi(arr1, arr2, i), imp, LexLeUpToPhi(arr1, arr2, i + 1));
    forall k | 0 <= k < |reifs|
      ensures Equated(f', arr1[k], arr2[k], reifs[k])
    {
      assert Equated(f, arr1[k], arr2[k], reifs[k]);
    }
  }

  lemma LexLeNone(f0: Formula, nv0: nat, f: Formula, arr1: seq<int>, arr2: seq<int>)
    requires Step(f0, nv0, f, Top())
    ensures Step(f0, nv0, f, LexLeUpToPhi(arr1, arr2, 0))
  {
    StepSame(f0, nv0, f, Top(), LexLeUpToPhi(arr1, arr2, 0));
  }

  // ---------------------------------------------------------------- the strict order

  /** The inputs of the conjunction that says: the first difference is at position i, and the first array is 0 there. */
  function DropsRefs(reifs: seq<int>, arr1: seq<int>, arr2: seq<int>, i: nat): seq<int>
    requires i <= |reifs| && i < |arr1| && i < |arr2|
  {
    reifs[..i] + [-arr1[i]] + [arr2[i]]
  }

  lemma DropsRefsOk(reifs: seq<int>, arr1: seq<int>, arr2: seq<int>, i: nat, nv: nat)
    requires i <= |reifs| && i < |arr1| && i < |arr2| && RefsOk(reifs, nv) && RefsOk(arr1, nv) && RefsOk(arr2, nv)
    ensures RefsOk(DropsRefs(reifs, arr1, arr2, i), nv)
  {}

  lemma DropsMeaning(f: Formula, a: Assignment, reifs: seq<int>, arr1: seq<int>, arr2: seq<int>, i: nat)
    requires SatAll(a, f) && EqualTo(f, reifs, arr1, arr2) && i <= |reifs| && i < |arr1| && i < |arr2| && arr1[i] != 0
    ensures All(a, DropsRefs(reifs, arr1, arr2, i)) <==> LexLt(a, arr1, arr2, i + 1)
  {
    hide SatAll, B;
    var d := DropsRefs(reifs, arr1, arr2, i);
    NegB(a, arr1[i]);
    forall k | 0 <= k < i ensures B(a, d[k]) <==> B(a, arr1[k]) == B(a, arr2[k]) {
      assert d[k] == reifs[k];
      assert Equated(f, arr1[k], arr2[k], reifs[k]);
    }
    assert d[i] == -arr1[i] && d[i + 1] == arr2[i];
    if All(a, d) {
      forall k | 0 <= k < i ensures B(a, arr1[k]) == B(a, arr2[k]) { assert B(a, d[k]); }
    }
    if LexLt(a, arr1, arr2, i + 1) {
      forall k | 0 <= k < |d| ensures B(a, d[k]) {}
    }
  }

  /** The first k of the references ts say where the first difference is. */
  ghost predicate Located(a: Assignment, reifs: seq<int>, arr1: seq<int>, arr2: seq<int>, ts: seq<int>, k: nat) {
    forall i :: 0 <= i < k && i < |ts| && i <= |reifs| && i < |arr1| && i < |arr2| ==>
      B(a, ts[i]) == All(a, DropsRefs(reifs, arr1, arr2, i))
  }

  ghost function LocatedPhi(reifs: seq<int>, arr1: seq<int>, arr2: seq<int>, ts: seq<int>, k: nat): Assignment -> bool {
    (a: Assignment) => Located(a, reifs, arr1, arr2, ts, k)
  }

  lemma LocatedNone(f: Formula, nv: nat, reifs: seq<int>, arr1: seq<int>, arr2: seq<int>, ts: seq<int>)
    ensures Step(f, nv, f, LocatedPhi(reifs, arr1, arr2, ts, 0))
  {
    StepRefl(f, nv);
    StepSame(f, nv, f, Top(), LocatedPhi(reifs, arr1, arr2, ts, 0));
  }

  lemma LocatedNext(f0: Formula, nv0: nat, f: Formula, nv: nat, f': Formula, reifs: seq<int>, arr1: seq<int>,
      arr2: seq<int>, ts: seq<int>, i: nat)
    requires i < |ts| && i <= |reifs| && i < |arr1| && i < |arr2| && nv0 <= nv
    requires RefsOk(reifs, nv0) && RefsOk(arr1, nv0) && RefsOk(arr2, nv0) && RefsOk(ts, nv0)
    requires Step(f0, nv0, f, LocatedPhi(reifs, arr1, arr2, ts, i))
    requires Step(f, nv, f', ArrayAndPhi(DropsRefs(reifs, arr1, arr2, i), ts[i]))
    ensures Step(f0, nv0, f', LocatedPhi(reifs, arr1, arr2, ts, i + 1))
  {
    hide Step, Local, All, B, DropsRefs;
    DropsRefsOk(reifs, arr1, arr2, i, nv0);
    LocalArrayAnd(DropsRefs(reifs, arr1, arr2, i), ts[i], nv0);
    StepTrans(f0, nv0, f, nv, f', LocatedPhi(reifs, arr1, arr2, ts, i),
      ArrayAndPhi(DropsRefs(reifs, arr1, arr2, i), ts[i]), LocatedPhi(reifs, arr1, arr2, ts, i + 1));
  }

  /** The assignment with the new references ts set to say where the first difference is. */
  ghost function Locating(a: Assignment, nv: nat, reifs: seq<int>, arr1: seq<int>, arr2: seq<int>): Assignment {
    (v: nat) => if nv <= v && v - nv <= |reifs| && v - nv < |arr1| && v - nv < |arr2|
      then All(a, DropsRefs(reifs, arr1, arr2, v - nv)) else a(v)
  }

  lemma LocatingOk(a: Assignment, nv: nat, reifs: seq<int>, arr1: seq<int>, arr2: seq<int>)
    requires |arr1| == |arr2| && |arr1| <= |reifs| + 1 && RefsOk(reifs, nv) && RefsOk(arr1, nv) && RefsOk(arr2, nv)
    ensures Agree(a, Locating(a, nv, reifs, arr1, arr2), nv)
    ensures Located(Locating(a, nv, reifs, arr1, arr2), reifs, arr1, arr2, Run(nv, |arr1|), |arr1|)
  {
    hide All, DropsRefs;
    var a' := Locating(a, nv, reifs, arr1, arr2);
    var ts := Run(nv, |arr1|);
    forall i | 0 <= i < |arr1| ensures B(a', ts[i]) == All(a', DropsRefs(reifs, arr1, arr2, i)) {
      DropsRefsOk(reifs, arr1, arr2, i, nv);
      AgreeAll(a, a', DropsRefs(reifs, arr1, arr2, i), nv);
      assert LitOf(ts[i]) == Lit(nv + i, false);
      assert a'(nv + i) == All(a, DropsRefs(reifs, arr1, arr2, i));
    }
  }

  /** Under the located references, their disjunction is the strict order. */
  lemma LocatedOr(f: Formula, a: Assignment, reifs: seq<int>, arr1: seq<int>, arr2: seq<int>, ts: seq<int>)
    requires SatAll(a, f) && EqualTo(f, reifs, arr1, arr2) && |arr1| == |arr2| == |ts| && |arr1| <= |reifs| + 1
    requires Located(a, reifs, arr1, arr2, ts, |ts|) && forall i :: 0 <= i < |arr1| ==> arr1[i] != 0
    ensures Or(a, ts) <==> LexBelow(a, arr1, arr2)
  {
    hide SatAll, B, All, LexLt, EqualTo, DropsRefs;
    if Or(a, ts) {
      var i :| 0 <= i < |ts| && B(a, ts[i]);
      DropsMeaning(f, a, reifs, arr1, arr2, i);
      assert LexLt(a, arr1, arr2, i + 1);
    }
    if length: nat :| LexLt(a, arr1, arr2, length) {
      LexLtRange(a, arr1, arr2, length);
      DropsMeaning(f, a, reifs, arr1, arr2, length - 1);
      assert B(a, ts[length - 1]);
    }
  }

  lemma LexLtRange(a: Assignment, arr1: seq<int>, arr2: seq<int>, length: nat)
    requires LexLt(a, arr1, arr2, length)
    ensures 1 <= length <= |arr1| && length <= |arr2|
  {}

  /** Equalities, then located references, then their disjunction: together, the strict order. */
  lemma LexBelowStep(f0: Formula, nv0: nat, f1: Formula, nv1: nat, f2: Formula, nv2: nat, f3: Formula, reifs: seq<int>,
      arr1: seq<int>, arr2: seq<int>)
    requires |arr1| == |arr2| && |arr1| <= |reifs| + 1 && RefsOk(reifs, nv1) && RefsOk(arr1, nv0) && RefsOk(arr2, nv0)
    requires nv0 <= nv1
    requires nv1 + |arr1| <= nv2 && FormulaBelow(f1, nv1) && Step(f0, nv0, f1, Top()) && EqualTo(f1, reifs, arr1, arr2)
    requires Step(f1, nv1 + |arr1|, f2, LocatedPhi(reifs, arr1, arr2, Run(nv1, |arr1|), |arr1|))
    requires Adds(f2, f3, OrPhi(Run(nv1, |arr1|)))
    ensures Step(f0, nv0, f3, LexBelowPhi(arr1, arr2))
  {
    hide SatAll, All, B, EqualTo, Or, DropsRefs, LexLt;
    var ts := Run(nv1, |arr1|);
    forall a: Assignment | SatAll(a, f3) ensures SatAll(a, f0) && LexBelow(a, arr1, arr2) {
      assert SatAll(a, f2) && OrPhi(ts)(a);
      assert SatAll(a, f1) && LocatedPhi(reifs, arr1, arr2, ts, |ts|)(a);
      LocatedOr(f1, a, reifs, arr1, arr2, ts);
    }
    forall a: Assignment | SatAll(a, f0) && LexBelow(a, arr1, arr2) ensures ExtendsTo(a, nv0, f3) {
      assert Top()(a);
      LexBelowExtends(a, f0, nv0, f1, nv1, f2, f3, reifs, arr1, arr2);
    }
  }

  lemma AgreeLess(a: Assignment, a': Assignment, nv: nat, nv': nat)
    requires Agree(a, a', nv') && nv <= nv'
    ensures Agree(a, a', nv)
  {}

  lemma AgreeTrans(a: Assignment, a': Assignment, a'': Assignment, nv: nat)
    requires Agree(a, a', nv) && Agree(a', a'', nv)
    ensures Agree(a, a'', nv)
  {}

  lemma AgreeBelow(a: Assignment, a': Assignment, nv: nat, arr1: seq<int>, arr2: seq<int>)
    requires Agree(a, a', nv) && RefsOk(arr1, nv) && RefsOk(arr2, nv)
    ensures LexBelow(a, arr1, arr2) <==> LexBelow(a', arr1, arr2)
  {
    hide LexLt, Local;
    forall length: nat
      ensures LexLt(a, arr1, arr2, length) <==> LexLt(a', arr1, arr2, length)
    {
      AgreeLt(a, a', nv, arr1, arr2, length);
    }
  }

  lemma AgreeLt(a: Assignment, a': Assignment, nv: nat, arr1: seq<int>, arr2: seq<int>, length: nat)
    requires Agree(a, a', nv) && RefsOk(arr1, nv) && RefsOk(arr2, nv)
    ensures LexLt(a, arr1, arr2, length) <==> LexLt(a', arr1, arr2, length)
  {
    hide B;
    forall i | 0 <= i < |arr1| ensures B(a, arr1[i]) == B(a', arr1[i]) { AgreeB(a, a', nv, arr1[i]); }
    forall i | 0 <= i < |arr2| ensures B(a, arr2[i]) == B(a', arr2[i]) { AgreeB(a, a', nv, arr2[i]); }
  }

  /** The assignment with the located references in place. */
  lemma LexBelowLocated(a: Assignment, nv0: nat, f1: Formula, nv1: nat, reifs: seq<int>, arr1: seq<int>, arr2: seq<int>)
    returns (c: Assignment)
    requires |arr1| == |arr2| && |arr1| <= |reifs| + 1 && RefsOk(reifs, nv1) && RefsOk(arr1, nv0) && RefsOk(arr2, nv0)
    requires nv0 <= nv1
    requires FormulaBelow(f1, nv1) && ExtendsTo(a, nv0, f1) && LexBelow(a, arr1, arr2)
    ensures Agree(a, c, nv0) && SatAll(c, f1) && LexBelow(c, arr1, arr2)
    ensures LocatedPhi(reifs, arr1, arr2, Run(nv1, |arr1|), |arr1|)(c)
  {
    hide SatAll, All, B, DropsRefs, LexBelow, Located, FormulaBelow, Agree;
    var b: Assignment :| Agree(a, b, nv0) && SatAll(b, f1);
    MoreRefs(arr1, nv0, nv1);
    MoreRefs(arr2, nv0, nv1);
    LocatingOk(b, nv1, reifs, arr1, arr2);
    c := Locating(b, nv1, reifs, arr1, arr2);
    AgreeSat(f1, nv1, b, c);
    AgreeLess(b, c, nv0, nv1);
    AgreeTrans(a, b, c, nv0);
    AgreeBelow(a, c, nv0, arr1, arr2);
  }

  lemma LexBelowExtends(a: Assignment, f0: Formula, nv0: nat, f1: Formula, nv1: nat, f2: Formula, f3: Formula,
      reifs: seq<int>, arr1: seq<int>, arr2: seq<int>)
    requires |arr1| == |arr2| && |arr1| <= |reifs| + 1 && RefsOk(reifs, nv1) && RefsOk(arr1, nv0) && RefsOk(arr2, nv0)
    requires nv0 <= nv1
    requires FormulaBelow(f1, nv1) && ExtendsTo(a, nv0, f1) && EqualTo(f1, reifs, arr1, arr2) && LexBelow(a, arr1, arr2)
    requires Step(f1, nv1 + |arr1|, f2, LocatedPhi(reifs, arr1, arr2, Run(nv1, |arr1|), |arr1|))
    requires Adds(f2, f3, OrPhi(Run(nv1, |arr1|)))
    ensures ExtendsTo(a, nv0, f3)
  {
    hide SatAll, All, B, EqualTo, Or, DropsRefs, LexBelow, Located, FormulaBelow, Agree;
    var ts := Run(nv1, |arr1|);
    var c := LexBelowLocated(a, nv0, f1, nv1, reifs, arr1, arr2);
    assert ExtendsTo(c, nv1 + |arr1|, f2);
    var d: Assignment :| Agree(c, d, nv1 + |arr1|) && SatAll(d, f2);
    AgreeLess(c, d, nv0, nv1 + |arr1|);
    AgreeTrans(a, c, d, nv0);
    AgreeBelow(c, d, nv0, arr1, arr2);
    MoreRefs(arr1, nv0, nv1);
    assert SatAll(d, f1) && LocatedPhi(reifs, arr1, arr2, ts, |arr1|)(d);
    LocatedOr(f1, d, reifs, arr1, arr2, ts);
    assert OrPhi(ts)(d);
    assert SatAll(d, f3);
  }

  lemma MoreRefs(bs: seq<int>, nv: nat, nv': nat)
    requires RefsOk(bs, nv) && nv <= nv'
    ensures RefsOk(bs, nv') && forall i :: 0 <= i < |bs| ==> bs[i] != 0
  {}
}
