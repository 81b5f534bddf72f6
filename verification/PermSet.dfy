/** The counterexample-guided computation of canonizing sets of permutations, with the full lexicographic order. */
module PermSet {
  import opened Cnf
  import opened Wrappers
  import opened Encode
  import opened LexCnf
  import opened Cdcl
  import opened Graphs
  import opened Orbits
  import opened Matrices
  import opened GraphCnf
  import opened CanonSpec
  import opened Constraints

  /** The graph's string is not above that of its copy renamed by p. */
  ghost predicate NotAbove(g: Graph, n: nat, ix: Indexing, p: seq<nat>) {
    LexLe(Str(g, Pairs(n, ix)), Str(Permute(g, p), Pairs(n, ix)))
  }

  ghost predicate Accepts(g: Graph, n: nat, ix: Indexing, perms: seq<seq<nat>>) {
    forall k :: 0 <= k < |perms| ==> NotAbove(g, n, ix, perms[k])
  }

  ghost predicate PermsOk(perms: seq<seq<nat>>, n: nat) { forall k :: 0 <= k < |perms| ==> IsPerm(perms[k], n) }

  /** Comparing with these copies only is as good as comparing with all copies. */
  ghost predicate CanonizingPerms(n: nat, ix: Indexing, perms: seq<seq<nat>>) {
    forall g: Graph :: Symmetric(g, n) ==> (Accepts(g, n, ix, perms) <==> Least(g, n, ix))
  }

  // ---------------------------------------------------------------- what the encoding says

  ghost function PermRefs(m: seq<seq<int>>, n: nat, ix: Indexing, p: seq<nat>): (r: seq<int>)
    requires SquareOf(m, n) && Within(p, n)
    ensures |r| == |Pairs(n, ix)|
  {
    Refs(Permuted(m, n, p), n, ix)
  }

  ghost predicate PermOn(a: Assignment, m: seq<seq<int>>, n: nat, ix: Indexing, p: seq<nat>) {
    SquareOf(m, n) && Within(p, n) ==> LexLeUpTo(a, Refs(m, n, ix), PermRefs(m, n, ix, p), |Pairs(n, ix)|)
  }

  ghost predicate PermsOn(a: Assignment, m: seq<seq<int>>, n: nat, ix: Indexing, perms: seq<seq<nat>>) {
    forall k :: 0 <= k < |perms| ==> PermOn(a, m, n, ix, perms[k])
  }

  /** A permutation, an isomorphism, and a copy strictly below the graph. */
  ghost predicate Undercuts(a: Assignment, e: Names, ix: Indexing) {
    && PermPhi(e.Rows(), e.n)(a) && IsoPhi(e.g1, e.g2, e.Rows(), e.n)(a)
    && SquareOf(e.g1, e.n) && SquareOf(e.g2, e.n) && LexBelow(a, Refs(e.g2, e.n, ix), Refs(e.g1, e.n, ix))
  }

  ghost function RivalPhi(e: Names, ix: Indexing, perms: seq<seq<nat>>): Assignment -> bool {
    (a: Assignment) => Undercuts(a, e, ix) && PermsOn(a, e.g1, e.n, ix, perms)
  }

  /** The order on references is the order on the strings they name. */
  lemma LexMeaning(a: Assignment, arr1: seq<int>, arr2: seq<int>, s: seq<bool>, t: seq<bool>)
    requires |arr1| == |arr2| == |s| == |t|
    requires forall k :: 0 <= k < |s| ==> B(a, arr1[k]) == s[k]
    requires forall k :: 0 <= k < |s| ==> B(a, arr2[k]) == t[k]
    ensures LexBelow(a, arr2, arr1) <==> !LexLe(s, t)
    ensures LexLeUpTo(a, arr1, arr2, |s|) <==> LexLe(s, t)
  {
    hide B, LexLt, LexImp, DropsAt, LexLe;
    LexByPosition(s, t);
    forall len: nat | 1 <= len <= |s|
      ensures LexLt(a, arr2, arr1, len) <==> DropsAt(s, t, len - 1)
      ensures LexImp(a, arr1, arr2, len) <==> !DropsAt(s, t, len - 1)
    {
      LexDrops(a, arr1, arr2, s, t, len);
    }
    if len: nat :| LexLt(a, arr2, arr1, len) {
      LexLtLength(a, arr2, arr1, len);
      assert DropsAt(s, t, len - 1);
    }
    if k: nat :| k < |s| && DropsAt(s, t, k) {
      var len := k + 1;
      assert LexLt(a, arr2, arr1, len) && !LexImp(a, arr1, arr2, len);
    }
  }

  lemma PermMeaning(a: Assignment, m: seq<seq<int>>, n: nat, ix: Indexing, g: Graph, p: seq<nat>)
    requires SquareOf(m, n) && IsPerm(p, n)
    requires forall i: nat, j: nat :: i < n && j < n && i != j ==> B(a, m[i][j]) == g(i, j)
    ensures PermOn(a, m, n, ix, p) <==> NotAbove(g, n, ix, p)
  {
    hide B, LexLeUpTo, LexLe, LexBelow;
    RefsStr(a, m, n, ix, g);
    PermutedRefs(a, m, n, ix, g, p);
    LexMeaning(a, Refs(m, n, ix), PermRefs(m, n, ix, p), Str(g, Pairs(n, ix)), Str(Permute(g, p), Pairs(n, ix)));
  }

  lemma PermsMeaning(a: Assignment, m: seq<seq<int>>, n: nat, ix: Indexing, g: Graph, perms: seq<seq<nat>>)
    requires SquareOf(m, n) && PermsOk(perms, n)
    requires forall i: nat, j: nat :: i < n && j < n && i != j ==> B(a, m[i][j]) == g(i, j)
    ensures PermsOn(a, m, n, ix, perms) <==> Accepts(g, n, ix, perms)
  {
    hide B, PermOn, NotAbove;
    forall k | 0 <= k < |perms| ensures PermOn(a, m, n, ix, perms[k]) <==> NotAbove(g, n, ix, perms[k]) {
      PermMeaning(a, m, n, ix, g, perms[k]);
    }
  }

  lemma UndercutMeaning(a: Assignment, e: Names, ix: Indexing, g: Graph, p: seq<nat>)
    requires e.Ok()
    requires forall i: nat, j: nat :: i < e.n && j < e.n && i != j ==> B(a, e.g1[i][j]) == g(i, j)
    requires forall i: nat, j: nat :: i < e.n && j < e.n && i != j ==> B(a, e.g2[i][j]) == Permute(g, p)(i, j)
    ensures LexBelow(a, Refs(e.g2, e.n, ix), Refs(e.g1, e.n, ix)) <==> !NotAbove(g, e.n, ix, p)
  {
    hide B, LexLe, LexBelow, LexLeUpTo, Permute, AdjNamed;
    RefsStr(a, e.g1, e.n, ix, g);
    RefsStr(a, e.g2, e.n, ix, Permute(g, p));
    LexMeaning(a, Refs(e.g1, e.n, ix), Refs(e.g2, e.n, ix), Str(g, Pairs(e.n, ix)), Str(Permute(g, p), Pairs(e.n, ix)));
  }

  /** A model is a graph accepted so far, and a permutation whose copy is strictly below it. */
  lemma RivalSound(a: Assignment, e: Names, ix: Indexing, perms: seq<seq<nat>>)
    requires e.Ok() && RivalPhi(e, ix, perms)(a) && PermsOk(perms, e.n)
    ensures var g, p := GraphOf(a, e.g1, e.n), Decoded(a, e.Rows());
      Symmetric(g, e.n) && IsPerm(p, e.n) && Accepts(g, e.n, ix, perms) && !NotAbove(g, e.n, ix, p) && p !in perms
  {
    hide B, LexBelow, PermsOn, NotAbove, IsoPhi, PermPhi, FirstTrue, AdjNamed, Permute;
    var g, p := GraphOf(a, e.g1, e.n), Decoded(a, e.Rows());
    ModelGraph(a, e);
    IsoMeaning(a, e);
    PermsMeaning(a, e.g1, e.n, ix, g, perms);
    UndercutMeaning(a, e, ix, g, p);
  }

  /** Every accepted graph with a copy strictly below it is the projection of a model. */
  lemma RivalComplete(e: Names, g: Graph, p: seq<nat>, ix: Indexing, perms: seq<seq<nat>>)
    requires e.Ok() && IsPerm(p, e.n) && Symmetric(g, e.n) && PermsOk(perms, e.n)
    requires Accepts(g, e.n, ix, perms) && !NotAbove(g, e.n, ix, p)
    ensures RivalPhi(e, ix, perms)(Witness(e, g, p)) && SatAll(Witness(e, g, p), [Lits([1])])
  {
    hide B, LexBelow, PermsOn, NotAbove, IsoPhi, PermPhi, AdjNamed, Witness, Permute;
    var a := Witness(e, g, p);
    WitnessSpells(e, g, p);
    SpellsPerm(a, e.Rows(), e.n, p);
    WitnessCopy(e, g, p);
    CopyIso(a, e, p);
    WitnessEdges(e, g, p);
    PermsMeaning(a, e.g1, e.n, ix, g, perms);
    UndercutMeaning(a, e, ix, g, p);
    WitnessTrue(e, g, p);
  }

  /** No model left: the set is canonizing. */
  lemma NoRivalCanonizing(e: Names, ix: Indexing, perms: seq<seq<nat>>, f: Formula)
    requires e.Ok() && PermsOk(perms, e.n) && Step([Lits([1])], e.NV(), f, RivalPhi(e, ix, perms)) && Unsat(f)
    ensures CanonizingPerms(e.n, ix, perms)
  {
    hide SatAll, RivalPhi, NotAbove, Names.Ok, Witness, Agree, Unsat, ExtendsTo, Permute;
    forall g: Graph | Symmetric(g, e.n) ensures Accepts(g, e.n, ix, perms) <==> Least(g, e.n, ix) {
      LeastNotAbove(g, e.n, ix);
      if Accepts(g, e.n, ix, perms) {
        forall p | IsPerm(p, e.n) ensures NotAbove(g, e.n, ix, p) {
          if !NotAbove(g, e.n, ix, p) {
            RivalComplete(e, g, p, ix, perms);
            ExtendsSat(Witness(e, g, p), e.NV(), f);
          }
        }
      }
    }
  }

  lemma LeastNotAbove(g: Graph, n: nat, ix: Indexing)
    ensures Least(g, n, ix) <==> forall p :: IsPerm(p, n) ==> NotAbove(g, n, ix, p)
  {
    hide LexLe, Str, Permute;
    if forall p :: IsPerm(p, n) ==> NotAbove(g, n, ix, p) {
      forall p | IsPerm(p, n)
        ensures LexLe(Str(g, Pairs(n, ix)), Str(Permute(g, p), Pairs(n, ix)))
      {
        assert NotAbove(g, n, ix, p);
      }
    }
  }

  // ---------------------------------------------------------------- building the encoding

  lemma LocalBelow(arr1: seq<int>, arr2: seq<int>, nv: nat)
    requires RefsOk(arr1, nv) && RefsOk(arr2, nv)
    ensures Local(LexBelowPhi(arr1, arr2), nv)
  {
    hide LexBelow, Agree;
    forall a: Assignment, a': Assignment | Agree(a, a', nv)
      ensures LexBelow(a, arr1, arr2) == LexBelow(a', arr1, arr2)
    {
      AgreeBelow(a, a', nv, arr1, arr2);
    }
  }

  lemma LocalLeUpTo(arr1: seq<int>, arr2: seq<int>, k: nat, nv: nat)
    requires RefsOk(arr1, nv) && RefsOk(arr2, nv)
    ensures Local(LexLeUpToPhi(arr1, arr2, k), nv)
  {
    hide LexImp, Agree;
    forall a: Assignment, a': Assignment | Agree(a, a', nv)
      ensures LexLeUpTo(a, arr1, arr2, k) == LexLeUpTo(a', arr1, arr2, k)
    {
      forall length: nat ensures LexImp(a, arr1, arr2, length) == LexImp(a', arr1, arr2, length) {
        LocalLexImp(arr1, arr2, length, nv);
        assert LexImpPhi(arr1, arr2, length)(a) == LexImpPhi(arr1, arr2, length)(a');
      }
    }
  }

  /** The three parts of the encoding together. */
  lemma RivalSetup(f0: Formula, f1: Formula, f2: Formula, nv2: nat, f3: Formula, e: Names, ix: Indexing)
    requires e.Ok() && Adds(f0, f1, PermPhi(e.Rows(), e.n)) && e.NV() <= nv2
    requires Step(f1, e.NV(), f2, IsoPhi(e.g1, e.g2, e.Rows(), e.n))
    requires Step(f2, nv2, f3, LexBelowPhi(Refs(e.g2, e.n, ix), Refs(e.g1, e.n, ix)))
    ensures Step(f0, e.NV(), f3, RivalPhi(e, ix, []))
  {
    hide SatAll, Step, Adds, Local, PermPhi, IsoPhi, LexBelow, RowsBelow, RefsOk, AdjNamed;
    NamesBelow(e);
    var nv := e.NV();
    var perm, iso, below := PermPhi(e.Rows(), e.n), IsoPhi(e.g1, e.g2, e.Rows(), e.n),
      LexBelowPhi(Refs(e.g2, e.n, ix), Refs(e.g1, e.n, ix));
    var both := (a: Assignment) => perm(a) && iso(a);
    AddsStep(f0, nv, f1, perm);
    LocalIso(e.g1, e.g2, e.Rows(), e.n, nv);
    StepTrans(f0, nv, f1, nv, f2, perm, iso, both);
    RefsBelow(e.g1, e.n, ix, nv);
    RefsBelow(e.g2, e.n, ix, nv);
    LocalBelow(Refs(e.g2, e.n, ix), Refs(e.g1, e.n, ix), nv);
    StepTrans(f0, nv, f2, nv2, f3, both, below, RivalPhi(e, ix, []));
  }

  lemma PermsOnMore(a: Assignment, m: seq<seq<int>>, n: nat, ix: Indexing, perms: seq<seq<nat>>, p: seq<nat>)
    ensures PermsOn(a, m, n, ix, perms + [p]) <==> PermsOn(a, m, n, ix, perms) && PermOn(a, m, n, ix, p)
  {
    hide PermOn;
    var more := perms + [p];
    assert more[|perms|] == p;
    assert forall k :: 0 <= k < |perms| ==> more[k] == perms[k];
    if PermsOn(a, m, n, ix, more) {
      forall k | 0 <= k < |perms| ensures PermOn(a, m, n, ix, perms[k]) { assert more[k] == perms[k]; }
    }
  }

  /** One more permutation encoded. */
  lemma RivalMore(f0: Formula, f: Formula, nv: nat, f': Formula, e: Names, ix: Indexing, perms: seq<seq<nat>>,
      p: seq<nat>)
    requires e.Ok() && IsPerm(p, e.n) && Within(p, e.n) && e.NV() <= nv && Step(f0, e.NV(), f, RivalPhi(e, ix, perms))
    requires Step(f, nv, f', LexLeUpToPhi(Refs(e.g1, e.n, ix), PermRefs(e.g1, e.n, ix, p), |Pairs(e.n, ix)|))
    ensures Step(f0, e.NV(), f', RivalPhi(e, ix, perms + [p]))
  {
    hide SatAll, Step, Local, Undercuts, RowsBelow, RefsOk, AdjNamed, PermsOn, LexLeUpTo;
    NamesBelow(e);
    PermutedBelow(e.g1, e.n, p, e.NV());
    RefsBelow(e.g1, e.n, ix, e.NV());
    RefsBelow(Permuted(e.g1, e.n, p), e.n, ix, e.NV());
    var psi := LexLeUpToPhi(Refs(e.g1, e.n, ix), PermRefs(e.g1, e.n, ix, p), |Pairs(e.n, ix)|);
    LocalLeUpTo(Refs(e.g1, e.n, ix), PermRefs(e.g1, e.n, ix, p), |Pairs(e.n, ix)|, e.NV());
    forall a: Assignment ensures RivalPhi(e, ix, perms + [p])(a) <==> RivalPhi(e, ix, perms)(a) && psi(a) {
      PermsOnMore(a, e.g1, e.n, ix, perms, p);
    }
    StepTrans(f0, e.NV(), f, nv, f', RivalPhi(e, ix, perms), psi, RivalPhi(e, ix, perms + [p]));
  }

  class CanonizingPermutationSetAlg {
    const nvertices: nat
    const indexing: Indexing
    const solver: ConstraintSolver

    ghost const F0: Formula := [Lits([1])]

    constructor (n: nat, ix: Indexing)
      ensures nvertices == n && indexing == ix && fresh(solver) && fresh(solver.satSolver)
      ensures solver.Valid() && solver.F() == F0 && solver.NV() == 1 && solver.satSolver.conflicts == 0
    {
      nvertices, indexing := n, ix;
      solver := new ConstraintSolver();
    }

    /** The models of the solver's clauses, on the named variables, are exactly the rivals to `perms`. */
    ghost predicate Encoding(e: Names, perms: seq<seq<nat>>)
      reads solver, solver.satSolver
    {
      && solver.Valid() && e.n == nvertices && e.Ok() && solver.NV() >= e.NV()
      && Step(F0, e.NV(), solver.F(), RivalPhi(e, indexing, perms))
    }

    lemma StartEncoding(e: Names)
      requires solver.Valid() && e.n == nvertices && e.Ok() && solver.NV() >= e.NV()
      requires Step(F0, e.NV(), solver.F(), RivalPhi(e, indexing, []))
      ensures Encoding(e, [])
    {}

    /** Two isomorphic graphs, the second strictly smaller. */
    method Setup() returns (g1: Matrix<int>, perm: seq<nat>, stringG1: seq<int>, ghost e: Names)
      requires solver.Valid() && solver.F() == F0 && solver.NV() == 1
      modifies solver, solver.satSolver
      ensures solver.satSolver == old(solver.satSolver) && fresh(g1) && Encoding(e, []) && g1.Square(nvertices)
      ensures g1.Rows() == e.g1
      ensures stringG1 == Refs(e.g1, nvertices, indexing) && HasRows(solver.ints, perm, e.Rows(), nvertices)
    {
      hide ConstraintSolver.Valid, Step, AdjNamed, Adds, RowsBelow, RefsOk, Pairs, IsoPhi, PermPhi, Matrix.Valid;
      hide HasRows, PermIn, Encoding;
      g1 := solver.NewAdjMatrix(nvertices);
      ghost var h1 := solver.NV();
      var g2 := solver.NewAdjMatrix(nvertices);
      ghost var h2 := solver.NV();
      e := Names(nvertices, g1.Rows(), g2.Rows(), h1, h2, NoSub());
      perm := solver.NewPermutation(nvertices);
      NamesBelow(e);
      ghost var f1 := solver.F();
      AddsPermIn(F0, f1, e.Rows(), nvertices);
      solver.Isomorphic(g1, g2, perm, e.Rows());
      ghost var f2, nv2 := solver.F(), solver.NV();
      stringG1 := IndexingOf(g1, nvertices, indexing);
      var stringG2 := IndexingOf(g2, nvertices, indexing);
      StringsBelow(e, indexing, nv2);
      var ok := solver.BoolArraysLexLt(stringG2, stringG1);
      RivalSetup(F0, f1, f2, nv2, solver.F(), e, indexing);
      StartEncoding(e);
    }

    /** Requires of the first graph that it is not above its copy renamed by p. */
    method EncodePerm(g1: Matrix<int>, stringG1: seq<int>, p: seq<nat>, ghost e: Names, ghost perms: seq<seq<nat>>)
      requires Encoding(e, perms) && g1.Square(nvertices) && g1.Rows() == e.g1
      requires stringG1 == Refs(e.g1, nvertices, indexing)
      requires IsPerm(p, nvertices)
      modifies solver.satSolver, solver`nextBoolID
      ensures Encoding(e, perms + [p])
    {
      hide ConstraintSolver.Valid, Step, Adds, RowsBelow, RefsOk, Pairs, Matrix.Valid, Names.Ok;
      var permutedG1 := g1.Permute(p, 0);
      var stringPermutedG1 := IndexingOf(permutedG1, nvertices, indexing);
      ghost var f, nv := solver.F(), solver.NV();
      PermutedStringBelow(e, indexing, p, nv);
      var ok := solver.BoolArraysLex(stringG1, stringPermutedG1);
      RivalMore(F0, f, nv, solver.F(), e, indexing, perms, p);
    }

    /** A permutation that takes some accepted graph strictly below itself; false when there is none. */
    method FindRival(perm: seq<nat>, ghost e: Names, ghost perms: seq<seq<nat>>, budget: nat)
      returns (status: LBool, cePerm: seq<nat>)
      requires Encoding(e, perms) && PermsOk(perms, nvertices) && HasRows(solver.ints, perm, e.Rows(), nvertices)
      modifies solver.satSolver
      ensures Encoding(e, perms)
      ensures status == False ==> CanonizingPerms(nvertices, indexing, perms)
      ensures status == True ==> IsPerm(cePerm, nvertices) && cePerm !in perms
      ensures status == Undef ==> solver.satSolver.conflicts >= old(solver.satSolver.conflicts) + budget
    {
      hide ConstraintSolver.Valid, Step, PermsOk, Names.Ok, Unsat, SatAll, HasRows, RivalPhi, Accepts, NotAbove;
      status := solver.Solve(budget);
      cePerm := [];
      if status == False {
        NoRivalCanonizing(e, indexing, perms, solver.F());
      } else if status == True {
        cePerm := solver.DecodeIntArray(perm, e.Rows(), nvertices);
        StepModel(F0, e.NV(), solver.F(), RivalPhi(e, indexing, perms), solver.ModelAt());
        RivalSound(solver.ModelAt(), e, indexing, perms);
      }
    }

    /**
     * A set of permutations without repetition such that a graph is least among all its copies exactly if it is not
     * above its copies under this set. No permutation is found twice, so this ends. None: the solver has used up its
     * budget.
     */
    method Compute(budget: nat) returns (r: Option<seq<seq<nat>>>)
      requires solver.Valid() && solver.F() == F0 && solver.NV() == 1 && solver.satSolver.conflicts == 0
      modifies solver, solver.satSolver
      ensures r.Some? ==> PermsOk(r.value, nvertices) && CanonizingPerms(nvertices, indexing, r.value)
      ensures r.Some? ==> forall k :: 0 <= k < |r.value| ==> r.value[k] !in r.value[..k]
      ensures solver.Valid() && fresh(solver.satSolver) && solver.F() == F0 && solver.NV() == 1
      ensures solver.satSolver.conflicts == 0
      ensures r == None ==> old(solver.satSolver).conflicts >= budget
    {
      hide Encoding, Matrix.Valid, Names.Ok, Refs, CanonizingPerms, HasRows, ConstraintSolver.Valid;
      var g1, perm, stringG1; ghost var e;
      g1, perm, stringG1, e := Setup();
      var canonizingSet: seq<seq<nat>> := [];
      var status, cePerm := FindRival(perm, e, canonizingSet, budget);
      ghost var left := Perms(nvertices);
      while status == True
        invariant solver.satSolver == old(solver.satSolver) && Encoding(e, canonizingSet)
        invariant PermsOk(canonizingSet, nvertices)
        invariant HasRows(solver.ints, perm, e.Rows(), nvertices) && g1.Square(nvertices) && g1.Rows() == e.g1
        invariant status == False ==> CanonizingPerms(nvertices, indexing, canonizingSet)
        invariant status == Undef ==> solver.satSolver.conflicts >= budget
        invariant status == True ==> IsPerm(cePerm, nvertices) && cePerm !in canonizingSet
        invariant forall k :: 0 <= k < |canonizingSet| ==> canonizingSet[k] !in canonizingSet[..k]
        invariant forall p :: IsPerm(p, nvertices) && p !in canonizingSet ==> p in left
        decreases left
      {
        EncodePerm(g1, stringG1, cePerm, e, canonizingSet);
        left := left - {cePerm};
        NewLast(canonizingSet, cePerm);
        canonizingSet := canonizingSet + [cePerm];
        status, cePerm := FindRival(perm, e, canonizingSet, budget);
      }
      solver.NewModel();
      r := if status == False then Some(canonizingSet) else None;
    }
  }

  lemma NewLast(s: seq<seq<nat>>, p: seq<nat>)
    requires p !in s && forall k :: 0 <= k < |s| ==> s[k] !in s[..k]
    ensures forall k :: 0 <= k < |s + [p]| ==> (s + [p])[k] !in (s + [p])[..k]
  {
    forall k | 0 <= k < |s + [p]| ensures (s + [p])[k] !in (s + [p])[..k] { assert (s + [p])[..k] == s[..k]; }
  }
}
