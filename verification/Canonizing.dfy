/** The counterexample-guided computation of canonizing sets of lex implications. */
module Canonize {
  import opened Cnf
  import opened Wrappers
  import opened Encode
  import opened Cdcl
  import opened Graphs
  import opened Orbits
  import opened Matrices
  import opened GraphCnf
  import opened CanonSpec
  import opened Constraints

  /** The external reducer: given implications to rely on and implications to reduce, the indices of those to keep. */
  type Reducer = (seq<LexImplication>, seq<LexImplication>) -> seq<nat>

  function Picked(delta: seq<LexImplication>, res: seq<nat>): seq<LexImplication>
    requires Within(res, |delta|)
  {
    seq(|res|, (k: nat) requires k < |res| => delta[res[k]])
  }

  /** Keeping these indices loses nothing: the dropped implications follow from the rest. */
  ghost predicate Keeps(n: nat, ix: Indexing, sub: Sub, base: seq<LexImplication>, delta: seq<LexImplication>,
      res: seq<nat>)
  {
    Within(res, |delta|) && forall g: Graph ::
      Symmetric(g, n) && Embeds(g, sub) && SatImps(g, Pairs(n, ix), base)
        && SatImps(g, Pairs(n, ix), Picked(delta, res)) ==>
        SatImps(g, Pairs(n, ix), delta)
  }

  /** What is assumed of the external program. */
  ghost predicate ReducerOk(reducer: Reducer, n: nat, ix: Indexing, sub: Sub) {
    forall base, delta :: ImpsOk(base, n, ix) && ImpsOk(delta, n, ix) ==>
      Keeps(n, ix, sub, base, delta, reducer(base, delta))
  }

  lemma SatJoin(g: Graph, ps: seq<(nat, nat)>, s: seq<LexImplication>, t: seq<LexImplication>)
    ensures SatImps(g, ps, s + t) <==> SatImps(g, ps, s) && SatImps(g, ps, t)
  {
    hide SatImp;
    forall k | 0 <= k < |s| ensures (s + t)[k] == s[k] {}
    forall k | 0 <= k < |t| ensures (s + t)[|s| + k] == t[k] {}
    if SatImps(g, ps, s + t) {
      forall k | 0 <= k < |s| ensures SatImp(g, ps, s[k]) { assert SatImp(g, ps, (s + t)[k]); }
      forall k | 0 <= k < |t| ensures SatImp(g, ps, t[k]) { assert SatImp(g, ps, (s + t)[|s| + k]); }
    }
  }

  /** Reduction keeps what the implications exclude. */
  lemma ReducedCovers(n: nat, ix: Indexing, sub: Sub, base: seq<LexImplication>, delta: seq<LexImplication>,
      res: seq<nat>, len: int)
    requires CoversTo(n, ix, sub, base + delta, len) && Keeps(n, ix, sub, base, delta, res)
    ensures CoversTo(n, ix, sub, base + Picked(delta, res), len)
  {
    hide SatImps, LeastUpTo, Embeds;
    forall g: Graph | Symmetric(g, n) && Embeds(g, sub) && SatImps(g, Pairs(n, ix), base + Picked(delta, res))
      ensures LeastUpTo(g, n, ix, len)
    {
      SatJoin(g, Pairs(n, ix), base, Picked(delta, res));
      SatJoin(g, Pairs(n, ix), base, delta);
    }
  }

  lemma PickedOk(delta: seq<LexImplication>, res: seq<nat>, n: nat, ix: Indexing)
    requires Within(res, |delta|) && ImpsOk(delta, n, ix)
    ensures ImpsOk(Picked(delta, res), n, ix)
  {}

  class CanonizingLexImplicationsAlg {
    const nvertices: nat
    const indexing: Indexing
    const solver: ConstraintSolver

    ghost const F0: Formula := [Lits([1])]

    constructor (n: nat, ix: Indexing)
      ensures nvertices == n && indexing == ix && fresh(solver) && fresh(solver.satSolver) && solver.Valid()
    {
      nvertices, indexing := n, ix;
      solver := new ConstraintSolver();
    }

    /** A fresh model of two isomorphic graphs. */
    method SetupCopy(sub: Sub) returns (g1: Matrix<int>, g2: Matrix<int>, perm: seq<nat>, ghost e: Names)
      requires SubOk(sub, nvertices)
      modifies solver
      ensures solver.Valid() && fresh(solver.satSolver) && fresh(g1) && fresh(g2) && solver.NV() >= e.NV()
      ensures e.n == nvertices && e.sub == sub && e.Ok()
      ensures g1.Square(nvertices) && g1.Rows() == e.g1 && g2.Square(nvertices) && g2.Rows() == e.g2
      ensures HasRows(solver.ints, perm, e.Rows(), nvertices) && Step(F0, e.NV(), solver.F(), CopyPhi(e))
    {
      hide ConstraintSolver.Valid, Step, AdjNamed, Adds, RowsBelow, RefsOk, IsoPhi, PermPhi, Matrix.Valid, HasRows;
      hide PermIn, SubOk, CopyPhi;
      solver.NewModel();
      g1 := solver.NewAdjMatrix(nvertices);
      ghost var h1 := solver.NV();
      g2 := solver.NewAdjMatrix(nvertices);
      ghost var h2 := solver.NV();
      e := Names(nvertices, g1.Rows(), g2.Rows(), h1, h2, sub);
      perm := solver.NewPermutation(nvertices);
      NamesBelow(e);
      ghost var f1 := solver.F();
      AddsPermIn(F0, f1, e.Rows(), nvertices);
      solver.Isomorphic(g1, g2, perm, e.Rows());
      CopyStep(F0, f1, solver.F(), e);
    }

    /** A fresh model of two isomorphic graphs, the first with the given subgraph, the second smaller at position i. */
    method Setup(i: nat, sub: Sub) returns (g1: Matrix<int>, perm: seq<nat>, stringG1: seq<int>, ghost e: Names)
      requires 1 <= i <= |Pairs(nvertices, indexing)| && SubOk(sub, nvertices)
      modifies solver
      ensures solver.Valid() && fresh(solver.satSolver) && fresh(g1) && solver.NV() >= e.NV()
      ensures e.n == nvertices && e.sub == sub && e.Ok() && g1.Square(nvertices) && g1.Rows() == e.g1
      ensures stringG1 == Refs(e.g1, nvertices, indexing) && HasRows(solver.ints, perm, e.Rows(), nvertices)
      ensures Step(F0, e.NV(), solver.F(), CounterPhi(e, indexing, i, []))
    {
      hide ConstraintSolver.Valid, Step, Adds, RefsOk, Pairs, Matrix.Valid, HasRows, SubOk, CopyPhi, EmbedPhi;
      hide CounterPhi, Names.Ok;
      var g2;
      g1, g2, perm, e := SetupCopy(sub);
      ghost var f2, nv2 := solver.F(), solver.NV();
      EmbedSubgraph(g1, sub, e);
      ghost var f3 := solver.F();
      stringG1 := IndexingOf(g1, nvertices, indexing);
      var stringG2 := IndexingOf(g2, nvertices, indexing);
      StringsBelow(e, indexing, nv2);
      var ok := solver.BoolArraysLexLtImplication(stringG2, stringG1, i);
      SetupStep(F0, f2, f3, nv2, solver.F(), e, indexing, i);
    }

    /** Fixes the edges among the first vertices of the graph. */
    method EmbedSubgraph(g1: Matrix<int>, sub: Sub, ghost e: Names)
      requires solver.Valid() && solver.NV() >= e.NV() && e.Ok() && e.n == nvertices && e.sub == sub
      requires g1.Square(nvertices) && g1.Rows() == e.g1
      modifies solver.satSolver
      ensures solver.Valid() && solver.NV() == old(solver.NV())
      ensures Adds(old(solver.F()), solver.F(), EmbedPhi(e.g1, e.n, sub, |sub.bits|))
    {
      hide ConstraintSolver.Valid, AdjNamed, Adds, RowsBelow, RefsOk, Matrix.Valid, SubOk, EmbedPhi;
      EmbedNone(solver.F(), e.g1, e.n, sub);
      for j := 0 to |sub.bits|
        invariant solver.Valid() && solver.NV() == old(solver.NV())
        invariant Adds(old(solver.F()), solver.F(), EmbedPhi(e.g1, e.n, sub, j))
      {
        SubCell(sub, nvertices, j);
        EdgeRef(e, solver.NV(), j / sub.k, j % sub.k);
        ghost var f := solver.F();
        var b := g1.Get(j / sub.k, j % sub.k);
        solver.SetBoolVar(b, sub.bits[j]);
        EmbedNext(old(solver.F()), f, solver.F(), e.g1, e.n, sub, j);
      }
    }
  
    /** Encodes one lex implication on the first graph. */
    method EncodeImp(g1: Matrix<int>, stringG1: seq<int>, imp: LexImplication, ghost e: Names, ghost len: nat,
        ghost imps: seq<LexImplication>)
      requires Encoding(e, len, imps) && g1.Square(nvertices) && g1.Rows() == e.g1
      requires stringG1 == Refs(e.g1, nvertices, indexing)
      requires ImpOk(imp, nvertices, indexing)
      modifies solver.satSolver, solver`nextBoolID, solver`iffReifCache
      ensures Encoding(e, len, imps + [imp])
    {
      hide ConstraintSolver.Valid, Step, Adds, RowsBelow, RefsOk, Pairs, Matrix.Valid, Names.Ok;
      ImpWithin(imp, nvertices, indexing);
      var permuted := g1.Permute(imp.perm, 0);
      var stringPermutedG1 := IndexingOf(permuted, nvertices, indexing);
      ghost var f, nv := solver.F(), solver.NV();
      PermutedStringBelow(e, indexing, imp.perm, nv);
      var ok := solver.BoolArraysLexImplication(stringG1, stringPermutedG1, imp.length);
      ImpStep(F0, f, nv, solver.F(), e, indexing, len, imps, imp);
    }

    /** The models of the solver's clauses, on the named variables, are exactly the counterexamples to `imps`. */
    ghost predicate Encoding(e: Names, len: nat, imps: seq<LexImplication>)
      reads solver, solver.satSolver
    {
      && solver.Valid() && e.n == nvertices && e.Ok() && solver.NV() >= e.NV()
      && Step(F0, e.NV(), solver.F(), CounterPhi(e, indexing, len, imps))
    }

    method EncodeImps(g1: Matrix<int>, stringG1: seq<int>, more: seq<LexImplication>, ghost e: Names, ghost len: nat,
        ghost imps: seq<LexImplication>)
      requires Encoding(e, len, imps) && g1.Square(nvertices) && g1.Rows() == e.g1
      requires stringG1 == Refs(e.g1, nvertices, indexing)
      requires ImpsOk(more, nvertices, indexing)
      modifies solver.satSolver, solver`nextBoolID, solver`iffReifCache
      ensures Encoding(e, len, imps + more)
    {
      hide Encoding, ImpOk, Pairs, Matrix.Valid, Names.Ok, Refs;
      assert imps + more[..0] == imps;
      for j := 0 to |more|
        invariant Encoding(e, len, imps + more[..j])
      {
        EncodeImp(g1, stringG1, more[j], e, len, imps + more[..j]);
        assert imps + more[..j] + [more[j]] == imps + more[..j + 1];
      }
      assert more[..|more|] == more;
    }

    /** A permutation that breaks some graph satisfying all implications so far; false when there is none. */
    method FindCounter(perm: seq<nat>, ghost e: Names, i: nat, ghost imps: seq<LexImplication>, budget: nat)
      returns (status: LBool, cePerm: seq<nat>)
      requires Encoding(e, i, imps) && ImpsOk(imps, nvertices, indexing)
      requires HasRows(solver.ints, perm, e.Rows(), nvertices)
      requires 1 <= i <= |Pairs(nvertices, indexing)|
      modifies solver.satSolver
      ensures Encoding(e, i, imps)
      ensures status == False ==> NoCounter(nvertices, indexing, e.sub, imps, i)
      ensures status == True ==> IsPerm(cePerm, nvertices) && LexImplication(cePerm, i) !in imps
      ensures status == Undef ==> solver.satSolver.conflicts >= old(solver.satSolver.conflicts) + budget
    {
      hide ConstraintSolver.Valid, Step, ImpsOk, ImpOk, Pairs, Names.Ok, Unsat, SatAll, HasRows;
      status := solver.Solve(budget);
      cePerm := [];
      if status == False {
        NoModelNoCounter(e, indexing, i, imps, solver.F());
      } else if status == True {
        cePerm := solver.DecodeIntArray(perm, e.Rows(), nvertices);
        StepModel(F0, e.NV(), solver.F(), CounterPhi(e, indexing, i, imps), solver.ModelAt());
        FoundCounter(solver.ModelAt(), e, indexing, i, imps);
      }
    }

    /**
     * Adds implications of length i until no graph and permutation are left that break one more. No permutation is
     * found twice, so this ends. None: the solver has used up its budget.
     */
    method Level(base: seq<LexImplication>, delta: seq<LexImplication>, sub: Sub, i: nat, budget: nat)
      returns (r: Option<seq<LexImplication>>)
      requires 1 <= i <= |Pairs(nvertices, indexing)| && SubOk(sub, nvertices)
      requires ImpsOk(base, nvertices, indexing) && ImpsOk(delta, nvertices, indexing)
      modifies solver
      ensures solver.Valid() && fresh(solver.satSolver)
      ensures r.Some? ==>
        ImpsOk(r.value, nvertices, indexing) && delta <= r.value
        && NoCounter(nvertices, indexing, sub, base + r.value, i)
      ensures r.Some? ==> AllNew(delta, r.value, i)
      ensures r == None ==> solver.satSolver.conflicts >= budget
    {
      hide Encoding, ImpsOk, Pairs, Matrix.Valid, Names.Ok, Refs, NoCounter, HasRows, AllNew, Step, CounterPhi;
      hide ConstraintSolver.Valid, SubOk;
      var g1, perm, stringG1; ghost var e;
      g1, perm, stringG1, e := Setup(i, sub);
      StartEncoding(e, i);
      assert [] + base == base;
      EncodeImps(g1, stringG1, base, e, i, []);
      EncodeImps(g1, stringG1, delta, e, i, base);
      r := FindAll(g1, stringG1, perm, base, delta, e, i, budget);
    }

    lemma StartEncoding(e: Names, i: nat)
      requires solver.Valid() && e.n == nvertices && e.Ok() && solver.NV() >= e.NV()
      requires Step(F0, e.NV(), solver.F(), CounterPhi(e, indexing, i, []))
      ensures Encoding(e, i, [])
    {}

    lemma ValidEncoding(e: Names, len: nat, imps: seq<LexImplication>)
      requires Encoding(e, len, imps)
      ensures solver.Valid()
    {}

    method FindAll(g1: Matrix<int>, stringG1: seq<int>, perm: seq<nat>, ghost base: seq<LexImplication>,
        delta: seq<LexImplication>,
                   ghost e: Names, i: nat, budget: nat) returns (r: Option<seq<LexImplication>>)
      requires Encoding(e, i, base + delta) && g1.Square(nvertices) && g1.Rows() == e.g1
      requires stringG1 == Refs(e.g1, nvertices, indexing)
      requires HasRows(solver.ints, perm, e.Rows(), nvertices) && 1 <= i <= |Pairs(nvertices, indexing)|
      requires ImpsOk(base, nvertices, indexing) && ImpsOk(delta, nvertices, indexing)
      modifies solver.satSolver, solver`nextBoolID, solver`iffReifCache
      ensures solver.Valid()
      ensures r.Some? ==>
        ImpsOk(r.value, nvertices, indexing) && delta <= r.value
        && NoCounter(nvertices, indexing, e.sub, base + r.value, i)
      ensures r.Some? ==> AllNew(delta, r.value, i)
      ensures r == None ==> solver.satSolver.conflicts >= budget
    {
      hide Encoding, ImpOk, Pairs, Matrix.Valid, Names.Ok, Refs, NoCounter, HasRows;
      var cur := delta;
      var status, cePerm := FindCounter(perm, e, i, base + cur, budget);
      ghost var left := Words(nvertices, nvertices);
      PermWords(nvertices);
      while status == True
        invariant Encoding(e, i, base + cur) && ImpsOk(cur, nvertices, indexing) && delta <= cur
        invariant AllNew(delta, cur, i)
        invariant status == False ==> NoCounter(nvertices, indexing, e.sub, base + cur, i)
        invariant status == Undef ==> solver.satSolver.conflicts >= budget
        invariant status == True ==> IsPerm(cePerm, nvertices) && LexImplication(cePerm, i) !in base + cur
        invariant forall p :: IsPerm(p, nvertices) && LexImplication(p, i) !in base + cur ==> p in left
        decreases left
      {
        var leximp := LexImplication(cePerm, i);
        FoundOk(cePerm, nvertices, indexing, i);
        EncodeImp(g1, stringG1, leximp, e, i, base + cur);
        left := left - {cePerm};
        AllNewMore(delta, cur, leximp);
        assert base + cur + [leximp] == base + (cur + [leximp]);
        cur := cur + [leximp];
        status, cePerm := FindCounter(perm, e, i, base + cur, budget);
      }
      ValidEncoding(e, i, base + cur);
      r := if status == False then Some(cur) else None;
    }
  
    /** The canonizing set for the algorithm's number of vertices, computed from scratch. */
    method Compute(reducer: Reducer, budget: nat) returns (r: Option<seq<LexImplication>>)
      requires ReducerOk(reducer, nvertices, indexing, NoSub())
      modifies solver
      ensures r.Some? ==> ImpsOk(r.value, nvertices, indexing) && Canonizing(nvertices, indexing, r.value)
      ensures r == None ==> fresh(solver.satSolver) && solver.satSolver.conflicts >= budget
    {
      hide ImpOk, Pairs, NoCounter, CoversTo, CanonizingOn, Canonizing, ReducerOk, AllNew, Keeps;
      hide ConstraintSolver.Valid;
      var canonizingSet: seq<LexImplication> := [];
      PairsLength(nvertices, indexing);
      var maxLen := nvertices * (nvertices - 1) / 2 - 1;
      CoversNone(nvertices, indexing, NoSub(), []);
      var i := 1;
      while i <= maxLen
        invariant 1 <= i && (i <= maxLen + 1 || i == 1) && ImpsOk(canonizingSet, nvertices, indexing)
        invariant CoversTo(nvertices, indexing, NoSub(), canonizingSet, i - 1)
        invariant unchanged(solver) || fresh(solver.satSolver)
      {
        var found := Level([], canonizingSet, NoSub(), i, budget);
        if found == None { return None; }
        assert [] + canonizingSet == canonizingSet && [] + found.value == found.value;
        LevelCovers(nvertices, indexing, NoSub(), [], canonizingSet, found.value, i);
        canonizingSet := found.value;
        if i % 5 == 0 || i == maxLen {
          ReduceCovers(reducer, nvertices, indexing, NoSub(), [], canonizingSet, i);
          canonizingSet := Picked(canonizingSet, reducer([], canonizingSet));
        }
        assert [] + canonizingSet == canonizingSet;
        i := i + 1;
      }
      CoversLess(nvertices, indexing, NoSub(), canonizingSet, i - 1, maxLen);
      CoversCanonizing(nvertices, indexing, NoSub(), canonizingSet);
      CanonizingAll(nvertices, indexing, canonizingSet);
      return Some(canonizingSet);
    }

    /** What has to be added to a given set, possibly about fewer vertices, to make it canonizing. */
    method Extend(impSet: seq<LexImplication>, reducer: Reducer, budget: nat)
      returns (r: Option<seq<LexImplication>>)
      requires ReducerOk(reducer, nvertices, indexing, NoSub()) && ImpsOk(impSet, nvertices, indexing)
      modifies solver
      ensures r.Some? ==> ImpsOk(r.value, nvertices, indexing) && Canonizing(nvertices, indexing, impSet + r.value)
      ensures r == None ==> fresh(solver.satSolver) && solver.satSolver.conflicts >= budget
    {
      hide ImpsOk, ReducerOk, CanonizingOn, Canonizing;
      r := ExtendSubgraph(impSet, NoSub(), reducer, budget);
      if r.Some? { CanonizingAll(nvertices, indexing, impSet + r.value); }
    }

    /** The same among the graphs that have the given subgraph on their first vertices. */
    method ExtendSubgraph(impSet: seq<LexImplication>, sub: Sub, reducer: Reducer, budget: nat)
      returns (r: Option<seq<LexImplication>>)
      requires ReducerOk(reducer, nvertices, indexing, sub) && ImpsOk(impSet, nvertices, indexing)
      requires SubOk(sub, nvertices)
      modifies solver
      ensures r.Some? ==>
        ImpsOk(r.value, nvertices, indexing) && CanonizingOn(nvertices, indexing, sub, impSet + r.value)
      ensures r == None ==> fresh(solver.satSolver) && solver.satSolver.conflicts >= budget
    {
      hide ImpOk, Pairs, NoCounter, CoversTo, CanonizingOn, ReducerOk, AllNew, Keeps, ConstraintSolver.Valid, SubOk;
      var delta: seq<LexImplication> := [];
      PairsLength(nvertices, indexing);
      var maxLen := nvertices * (nvertices - 1) / 2 - 1;
      CoversNone(nvertices, indexing, sub, impSet + []);
      var i := 1;
      while i <= maxLen
        invariant 1 <= i && (i <= maxLen + 1 || i == 1) && ImpsOk(delta, nvertices, indexing)
        invariant CoversTo(nvertices, indexing, sub, impSet + delta, i - 1)
        invariant unchanged(solver) || fresh(solver.satSolver)
      {
        var found := Level(impSet, delta, sub, i, budget);
        if found == None { return None; }
        LevelCovers(nvertices, indexing, sub, impSet, delta, found.value, i);
        delta := found.value;
        if i % 5 == 0 || i == maxLen {
          ReduceCovers(reducer, nvertices, indexing, sub, impSet, delta, i);
          delta := Picked(delta, reducer(impSet, delta));
        }
        i := i + 1;
      }
      CoversLess(nvertices, indexing, sub, impSet + delta, i - 1, maxLen);
      ImpsOkJoin(impSet, delta, nvertices, indexing);
      CoversCanonizing(nvertices, indexing, sub, impSet + delta);
      return Some(delta);
    }
  }

  lemma EdgeRef(e: Names, nv: nat, i: nat, j: nat)
    requires e.Ok() && e.NV() <= nv && i < e.n && j < e.n
    ensures RefOk(e.g1[i][j], nv)
  {
    hide AdjNamed;
    NamesBelow(e);
    EntryBelow(e.g1, e.n, e.NV(), i, j);
  }

  /**
   * The implications after `delta` all have length i and different permutations, none already in `delta` at that
   * length.
   */
  ghost predicate AllNew(delta: seq<LexImplication>, cur: seq<LexImplication>, i: nat) {
    forall k :: |delta| <= k < |cur| ==> cur[k].length == i && cur[k] !in cur[..k]
  }

  lemma AllNewMore(delta: seq<LexImplication>, cur: seq<LexImplication>, imp: LexImplication)
    requires AllNew(delta, cur, imp.length) && imp !in cur && |delta| <= |cur|
    ensures AllNew(delta, cur + [imp], imp.length)
  {
    var next := cur + [imp];
    forall k | |delta| <= k < |next| ensures next[k] !in next[..k] { assert next[..k] == cur[..k]; }
  }

  lemma FoundOk(p: seq<nat>, n: nat, ix: Indexing, i: nat)
    requires IsPerm(p, n) && 1 <= i <= |Pairs(n, ix)|
    ensures ImpOk(LexImplication(p, i), n, ix)
  {}

  lemma CoversNone(n: nat, ix: Indexing, sub: Sub, imps: seq<LexImplication>)
    ensures CoversTo(n, ix, sub, imps, 0)
  {}

  lemma CoversLess(n: nat, ix: Indexing, sub: Sub, imps: seq<LexImplication>, len: int, len': int)
    requires CoversTo(n, ix, sub, imps, len) && len' <= len
    ensures CoversTo(n, ix, sub, imps, len')
  {
    hide SatImps, SatImp, Embeds;
    forall g: Graph | Symmetric(g, n) && Embeds(g, sub) && SatImps(g, Pairs(n, ix), imps)
      ensures LeastUpTo(g, n, ix, len')
    {
      assert LeastUpTo(g, n, ix, len);
    }
  }

  lemma ImpsOkJoin(s: seq<LexImplication>, t: seq<LexImplication>, n: nat, ix: Indexing)
    requires ImpsOk(s, n, ix) && ImpsOk(t, n, ix)
    ensures ImpsOk(s + t, n, ix)
  {}

  /** After a level, one length more is covered. */
  lemma LevelCovers(n: nat, ix: Indexing, sub: Sub, base: seq<LexImplication>, delta: seq<LexImplication>,
      found: seq<LexImplication>, i: nat)
    requires CoversTo(n, ix, sub, base + delta, i - 1) && delta <= found && NoCounter(n, ix, sub, base + found, i)
    ensures CoversTo(n, ix, sub, base + found, i)
  {
    var more := found[|delta|..];
    assert base + found == base + delta + more;
    CoversNext(n, ix, sub, base + delta, more, i);
  }

  lemma ReduceCovers(reducer: Reducer, n: nat, ix: Indexing, sub: Sub, base: seq<LexImplication>,
      delta: seq<LexImplication>, len: int)
    requires ReducerOk(reducer, n, ix, sub) && ImpsOk(base, n, ix) && ImpsOk(delta, n, ix)
    requires CoversTo(n, ix, sub, base + delta, len)
    ensures Within(reducer(base, delta), |delta|)
    ensures ImpsOk(Picked(delta, reducer(base, delta)), n, ix)
    ensures CoversTo(n, ix, sub, base + Picked(delta, reducer(base, delta)), len)
  {
    hide CoversTo, ImpsOk;
    assert Keeps(n, ix, sub, base, delta, reducer(base, delta));
    ReducedCovers(n, ix, sub, base, delta, reducer(base, delta), len);
    PickedOk(delta, reducer(base, delta), n, ix);
  }

  lemma ImpsOkMore(imps: seq<LexImplication>, n: nat, ix: Indexing)
    requires ImpsOk(imps, n, ix)
    ensures ImpsOk(imps, n + 1, ix)
  {
    PairsLength(n, ix);
    PairsLength(n + 1, ix);
    assert (n + 1) * n == n * (n - 1) + 2 * n;
  }

  /** Round k of an incremental run has produced a canonizing set for k + 3 vertices, kept in all later rounds. */
  ghost predicate Rounds(rounds: seq<seq<LexImplication>>, canset: seq<LexImplication>, ix: Indexing) {
    forall k :: 0 <= k < |rounds| ==> rounds[k] <= canset && Canonizing(k + 3, ix, rounds[k])
  }

  /**
   * Accumulates implications over growing numbers of vertices: after every round the set is canonizing for its number.
   */
  method RunIncremental(n: nat, ix: Indexing, reducers: nat -> Reducer, budget: nat)
    returns (r: Option<seq<LexImplication>>, ghost rounds: seq<seq<LexImplication>>,
             ghost last: CanonizingLexImplicationsAlg?)
    requires forall m: nat :: ReducerOk(reducers(m), m, ix, NoSub())
    ensures r.Some? ==> Rounds(rounds, r.value, ix) && |rounds| == (if n < 3 then 0 else n - 2)
    ensures r.Some? && n >= 3 ==> Canonizing(n, ix, r.value)
    ensures r == None ==> last != null && fresh(last) && last.solver.satSolver.conflicts >= budget
  {
    hide ReducerOk, Canonizing, ImpOk, ConstraintSolver.Valid;
    var canset: seq<LexImplication> := [];
    rounds := [];
    var i := 3;
    while i <= n
      invariant 3 <= i && (i <= n + 1 || i == 3) && ImpsOk(canset, i, ix)
      invariant Rounds(rounds, canset, ix) && |rounds| == i - 3 && (i > 3 ==> canset == rounds[i - 4])
    {
      var alg := new CanonizingLexImplicationsAlg(i, ix);
      var delta := alg.Extend(canset, reducers(i), budget);
      if delta == None { return None, rounds, alg; }
      ImpsOkJoin(canset, delta.value, i, ix);
      canset := canset + delta.value;
      rounds := rounds + [canset];
      ImpsOkMore(canset, i, ix);
      i := i + 1;
    }
    return Some(canset), rounds, null;
  }

  /** Round t of an incremental run over a fixed subgraph of k vertices: k + 1 + t vertices. */
  ghost predicate SubRounds(rounds: seq<seq<LexImplication>>, canset: seq<LexImplication>, ix: Indexing, sub: Sub) {
    forall t :: 0 <= t < |rounds| ==> rounds[t] <= canset && CanonizingOn(sub.k + 1 + t, ix, sub, rounds[t])
  }

  /** Accumulates implications over growing numbers of vertices around a fixed subgraph. */
  method RunIncrementalSubgraph(n: nat, ix: Indexing, sub: Sub, reducers: nat -> Reducer, budget: nat)
    returns (r: Option<seq<LexImplication>>, ghost rounds: seq<seq<LexImplication>>,
             ghost last: CanonizingLexImplicationsAlg?)
    requires |sub.bits| == sub.k * sub.k && forall m: nat :: ReducerOk(reducers(m), m, ix, sub)
    ensures r.Some? ==> SubRounds(rounds, r.value, ix, sub) && |rounds| == (if n < sub.k then 0 else n - sub.k)
    ensures r.Some? && n > sub.k ==> CanonizingOn(n, ix, sub, r.value)
    ensures r == None ==> last != null && fresh(last) && last.solver.satSolver.conflicts >= budget
  {
    hide ReducerOk, CanonizingOn, ImpOk, ConstraintSolver.Valid;
    var canset: seq<LexImplication> := [];
    rounds := [];
    var i := sub.k + 1;
    while i <= n
      invariant sub.k + 1 <= i && (i <= n + 1 || i == sub.k + 1) && ImpsOk(canset, i, ix)
      invariant SubRounds(rounds, canset, ix, sub) && |rounds| == i - sub.k - 1
      invariant (i > sub.k + 1 ==> canset == rounds[|rounds| - 1])
    {
      var alg := new CanonizingLexImplicationsAlg(i, ix);
      var delta := alg.ExtendSubgraph(canset, sub, reducers(i), budget);
      if delta == None { return None, rounds, alg; }
      ImpsOkJoin(canset, delta.value, i, ix);
      canset := canset + delta.value;
      rounds := rounds + [canset];
      ImpsOkMore(canset, i, ix);
      i := i + 1;
    }
    return Some(canset), rounds, null;
  }
}
