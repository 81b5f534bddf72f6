/** The constraint layer: Boolean references, direct-encoded integers and reifications, as clauses of the solver. */
module Constraints {
  import opened Cnf
  import opened SolverSpec
  import opened SearchSpec
  import opened Encode
  import opened Cdcl
  import opened Matrices
  import opened GraphCnf
  import opened LexCnf
  import opened Wrappers

  /** An integer variable in direct representation: bools[k] says that its value is lb + k. */
  datatype IntVar = IntVar(lb: int, ub: int, bools: seq<int>)

  function IntSize(lb: int, ub: int): nat { if ub < lb then 0 else ub - lb + 1 }

  /** `perm` names n variables with range 0..n-1, whose references are the given rows. */
  ghost predicate HasRows(ints: seq<IntVar>, perm: seq<nat>, rows: seq<seq<int>>, n: nat) {
    |perm| == n && SquareOf(rows, n) && forall k :: 0 <= k < n ==>
      perm[k] < |ints| && ints[perm[k]] == IntVar(0, n - 1, rows[k])
  }

  predicate IntOk(v: IntVar, nv: nat) {
    RefsOk(v.bools, nv) && |v.bools| == IntSize(v.lb, v.ub)
  }

  predicate IntsOk(ints: seq<IntVar>, nv: nat) {
    forall i :: 0 <= i < |ints| ==> IntOk(ints[i], nv)
  }

  /** Every memoised reference is, in all models, the equality of its key pair. */
  ghost predicate CacheOk(cache: map<(int, int), int>, f: Formula, nv: nat) {
    forall k :: k in cache ==> RefOk(k.0, nv) && RefOk(k.1, nv) && RefOk(cache[k], nv) && Equated(f, k.0, k.1, cache[k])
  }

  predicate AllTrue(s: seq<bool>, n: nat) { |s| == n && forall i :: 0 <= i < n ==> s[i] }

  lemma CacheMore(cache: map<(int, int), int>, f: Formula, nv: nat, f': Formula, nv': nat)
    requires CacheOk(cache, f, nv) && Stronger(f, f') && nv <= nv'
    ensures CacheOk(cache, f', nv')
  {
    hide SatAll, B;
    forall k | k in cache ensures Equated(f', k.0, k.1, cache[k]) {
      assert Equated(f, k.0, k.1, cache[k]);
    }
  }

  lemma MoreStronger(f: Formula, c: seq<Lit>)
    ensures Stronger(f, f + [c])
  {
    forall a: Assignment | SatAll(a, f + [c]) ensures SatAll(a, f) { SatMore(a, f, c); }
  }

  /** One more variable disturbs nothing. */
  lemma MoreVars(f: Formula, ints: seq<IntVar>, cache: map<(int, int), int>, nv: nat)
    requires FormulaBelow(f, nv) && IntsOk(ints, nv) && CacheOk(cache, f, nv)
    ensures FormulaBelow(f, nv + 1) && IntsOk(ints, nv + 1) && CacheOk(cache, f, nv + 1)
  {
    CacheMore(cache, f, nv, f, nv + 1);
  }

  lemma CacheHit(cache: map<(int, int), int>, f: Formula, nv: nat, b1: int, b2: int)
    requires CacheOk(cache, f, nv) && (b1, b2) in cache
    ensures RefOk(cache[(b1, b2)], nv) && Step(f, nv, f, Top())
    ensures Equated(f, b1, b2, cache[(b1, b2)]) && Equated(f, b2, b1, cache[(b1, b2)])
  {
    hide SatAll, B, Step;
    StepRefl(f, nv);
    assert Equated(f, (b1, b2).0, (b1, b2).1, cache[(b1, b2)]);
  }

  lemma CacheAdd(cache: map<(int, int), int>, f: Formula, nv: nat, b1: int, b2: int, t: int)
    requires CacheOk(cache, f, nv) && RefOk(b1, nv) && RefOk(b2, nv) && RefOk(t, nv) && Equated(f, b1, b2, t)
    ensures CacheOk(cache[(b1, b2) := t], f, nv)
  {
    hide Equated;
  }

  class ConstraintSolver {
    var satSolver: Solver
    var nextBoolID: nat
    var ints: seq<IntVar>
    var nextIntID: nat
    var iffReifCache: map<(int, int), int>

    /** Every clause added to the solver. */
    ghost function F(): Formula
      reads `satSolver, satSolver`formula
    {
      satSolver.formula
    }

    /** The number of variables. */
    ghost function NV(): nat
      reads `satSolver, satSolver`assigns
    {
      |satSolver.assigns|
    }

    ghost predicate Valid()
      reads this, satSolver
    {
      && satSolver.Valid() && AllTrue(satSolver.decision, NV()) && FormulaBelow(F(), NV())
      && nextBoolID == NV() + 1 && NV() >= 1
      && nextIntID == |ints| && IntsOk(ints, NV())
      && CacheOk(iffReifCache, F(), NV())
    }

    // ---------------------------------------------------------------- models

    constructor ()
      ensures Valid() && fresh(satSolver) && F() == [Lits([1])] && NV() == 1 && ints == []
      ensures satSolver.conflicts == 0
    {
      hide Solver.Valid, Valid, CacheOk, IntsOk, AllTrue, FormulaBelow;
      nextBoolID, nextIntID, ints, iffReifCache := 1, 0, [], map[];
      satSolver := new Solver();
      new;
      FirstVar();
    }

    /** Discards everything and starts over with the constant true. */
    method NewModel()
      modifies this
      ensures Valid() && fresh(satSolver) && F() == [Lits([1])] && NV() == 1 && ints == []
      ensures satSolver.conflicts == 0
    {
      ints, iffReifCache, nextBoolID, nextIntID := [], map[], 1, 0;
      satSolver := new Solver();
      FirstVar();
    }

    method FirstVar()
      requires satSolver.Valid() && F() == [] && satSolver.decision == [] && NV() == 0
      requires nextBoolID == 1 && nextIntID == 0 && ints == [] && iffReifCache == map[]
      modifies `nextBoolID, satSolver
      ensures Valid() && F() == [Lits([1])] && NV() == 1 && satSolver.conflicts == old(satSolver.conflicts)
    {
      hide Solver.Valid;
      var v := satSolver.NewVar(true, true);
      nextBoolID := nextBoolID + 1;
      Add([1]);
    }

    method NewBoolVar() returns (b: int)
      requires Valid()
      modifies `nextBoolID, satSolver
      ensures Valid() && F() == old(F()) && NV() == old(NV()) + 1 && b == NV()
    {
      hide Solver.Valid;
      MoreVars(F(), ints, iffReifCache, NV());
      var v := satSolver.NewVar(true, true);
      b := nextBoolID;
      nextBoolID := nextBoolID + 1;
    }

    /** Adds one clause. */
    method Add(bs: seq<int>)
      requires Valid() && RefsOk(bs, NV())
      modifies satSolver
      ensures Valid() && F() == old(F()) + [Lits(bs)] && NV() == old(NV())
      ensures satSolver.conflicts == old(satSolver.conflicts)
    {
      hide Solver.Valid;
      var lits: seq<Lit> := [];
      for i := 0 to |bs|
        invariant lits == Lits(bs[..i])
      {
        lits := lits + [LitOf(bs[i])];
      }
      assert bs[..|bs|] == bs;
      MoreStronger(F(), lits);
      CacheMore(iffReifCache, F(), NV(), F() + [lits], NV());
      assert forall q :: q in lits ==> q.v < NV();
      FormulaMore(F(), lits, NV());
      var r := satSolver.AddClause(lits);
    }

    static function TrueConst(): int { 1 }

    static function NegRef(b: int): int { -b }

    /** Fixes the value of a reference. */
    method SetBoolVar(b: int, val: bool)
      requires Valid() && RefOk(b, NV())
      modifies satSolver
      ensures Valid() && NV() == old(NV())
      ensures Adds(old(F()), F(), (a: Assignment) => B(a, b) == val)
    {
      hide Solver.Valid, CacheOk, IntsOk;
      if val {
        Add([b]);
        forall a: Assignment
          ensures SatAll(a, F()) <==> SatAll(a, old(F())) && B(a, b) == val
        {
          SatOr(a, old(F()), [b]); Or1(a, b);
        }
      } else {
        Add([NegRef(b)]);
        forall a: Assignment ensures SatAll(a, F()) <==> SatAll(a, old(F())) && B(a, b) == val {
          SatOr(a, old(F()), [-b]); Or1(a, -b); NegB(a, b);
        }
      }
    }

    /** At least one of the references holds. */
    method BoolArrayOr(bools: seq<int>)
      requires Valid() && RefsOk(bools, NV())
      modifies satSolver
      ensures Valid() && NV() == old(NV()) && Adds(old(F()), F(), OrPhi(bools))
    {
      hide Solver.Valid, CacheOk, IntsOk;
      Add(bools);
      AddsOr(old(F()), bools, OrPhi(bools));
    }

    method AtMostOneOf(bools: seq<int>)
      requires Valid() && RefsOk(bools, NV())
      modifies satSolver
      ensures Valid() && NV() == old(NV()) && Adds(old(F()), F(), AmoPhi(bools))
    {
      hide Solver.Valid, CacheOk, IntsOk, SatAll, B, Or, Lits;
      for i := 0 to |bools|
        invariant Valid() && NV() == old(NV())
        invariant Adds(old(F()), F(), (a: Assignment) => AmoUpTo(a, bools, i, i + 1))
      {
        for j := i + 1 to |bools|
          invariant Valid() && NV() == old(NV())
          invariant Adds(old(F()), F(), (a: Assignment) => AmoUpTo(a, bools, i, j))
        {
          AmoNext(old(F()), F(), bools, i, j);
          Add([NegRef(bools[i]), NegRef(bools[j])]);
        }
      }
    }

    method ExactlyOneOf(bools: seq<int>)
      requires Valid() && RefsOk(bools, NV())
      modifies satSolver
      ensures Valid() && NV() == old(NV()) && Adds(old(F()), F(), OnePhi(bools))
    {
      hide Solver.Valid, CacheOk, IntsOk, SatAll, B, Or;
      BoolArrayOr(bools);
      ghost var f := F();
      AtMostOneOf(bools);
      AddsTrans(old(F()), f, F(), OrPhi(bools), AmoPhi(bools), OnePhi(bools));
    }

    // ---------------------------------------------------------------- reifications

    method BoolIffReif(b1: int, b2: int, t: int)
      requires Valid() && RefOk(b1, NV()) && RefOk(b2, NV()) && RefOk(t, NV())
      modifies satSolver
      ensures Valid() && NV() == old(NV()) && Adds(old(F()), F(), IffPhi(b1, b2, t))
    {
      hide Solver.Valid, CacheOk, IntsOk, SatAll, B, Or, Lits;
      IffAdds(F(), b1, b2, t);
      Add([b1, b2, t]);
      Add([NegRef(b1), NegRef(b2), t]);
      Add([b1, NegRef(b2), NegRef(t)]);
      Add([NegRef(b1), b2, NegRef(t)]);
    }

    method BoolAndReif(b1: int, b2: int, t: int)
      requires Valid() && RefOk(b1, NV()) && RefOk(b2, NV()) && RefOk(t, NV())
      modifies satSolver
      ensures Valid() && NV() == old(NV()) && Adds(old(F()), F(), And2Phi(b1, b2, t))
    {
      hide Solver.Valid, CacheOk, IntsOk, SatAll, B, Or, Lits;
      And2Adds(F(), b1, b2, t);
      Add([b1, NegRef(t)]);
      Add([b2, NegRef(t)]);
      Add([NegRef(b1), NegRef(b2), t]);
    }

    method BoolAnd3Reif(b1: int, b2: int, b3: int, t: int)
      requires Valid() && RefOk(b1, NV()) && RefOk(b2, NV()) && RefOk(b3, NV()) && RefOk(t, NV())
      modifies satSolver
      ensures Valid() && NV() == old(NV()) && Adds(old(F()), F(), And3Phi(b1, b2, b3, t))
    {
      hide Solver.Valid, CacheOk, IntsOk, SatAll, B, Or, Lits;
      And3Adds(F(), b1, b2, b3, t);
      Add([b1, NegRef(t)]);
      Add([b2, NegRef(t)]);
      Add([b3, NegRef(t)]);
      Add([NegRef(b1), NegRef(b2), NegRef(b3), t]);
    }

    /** Leaves t free when both inputs are true. */
    method BoolOrReif(b1: int, b2: int, t: int)
      requires Valid() && RefOk(b1, NV()) && RefOk(b2, NV()) && RefOk(t, NV())
      modifies satSolver
      ensures Valid() && NV() == old(NV()) && Adds(old(F()), F(), OrReifPhi(b1, b2, t))
    {
      hide Solver.Valid, CacheOk, IntsOk, SatAll, B, Or, Lits;
      OrReifAdds(F(), b1, b2, t);
      Add([b1, b2, NegRef(t)]);
      Add([b1, NegRef(b2), t]);
      Add([NegRef(b1), b2, t]);
    }

    /** The memoised equality of two references, in either order. */
    method BoolIffReifOf(b1: int, b2: int) returns (t: int)
      requires Valid() && RefOk(b1, NV()) && RefOk(b2, NV())
      modifies satSolver, `nextBoolID, `iffReifCache
      ensures Valid() && NV() >= old(NV()) && RefOk(t, NV())
      ensures Step(old(F()), old(NV()), F(), Top()) && Equated(F(), b1, b2, t)
    {
      hide Solver.Valid, IntsOk, CacheOk, Equated, Step, FormulaBelow;
      if (b1, b2) in iffReifCache {
        CacheHit(iffReifCache, F(), NV(), b1, b2);
        return iffReifCache[(b1, b2)];
      }
      if (b2, b1) in iffReifCache {
        CacheHit(iffReifCache, F(), NV(), b2, b1);
        return iffReifCache[(b2, b1)];
      }
      t := NewIff(b1, b2);
      CacheAdd(iffReifCache, F(), NV(), b1, b2, t);
      iffReifCache := iffReifCache[(b1, b2) := t];
    }

    method NewIff(b1: int, b2: int) returns (t: int)
      requires Valid() && RefOk(b1, NV()) && RefOk(b2, NV())
      modifies satSolver, `nextBoolID
      ensures Valid() && NV() == old(NV()) + 1 && t == NV()
      ensures Step(old(F()), old(NV()), F(), Top()) && Equated(F(), b1, b2, t)
    {
      hide Solver.Valid, IntsOk, CacheOk, SatAll, B, Or, Step, FormulaBelow;
      t := NewBoolVar();
      BoolIffReif(b1, b2, t);
      IffDefined(old(F()), old(NV()), F(), b1, b2);
    }
  
    /**
     * Reifies a disjunction by a chain. With two or more inputs it fixes t to the disjunction exactly where at most one
     * input holds; with a single input, t is only bounded by it.
     */
    method BoolArrayOrReif(bvars: seq<int>, t: int)
      requires Valid() && RefsOk(bvars, NV()) && RefOk(t, NV()) && |bvars| >= 1
      modifies satSolver, `nextBoolID
      ensures Valid() && NV() >= old(NV()) && Stronger(old(F()), F())
      ensures |bvars| >= 2 ==> Step(old(F()), old(NV()), F(), ChainPhi(bvars, t))
      ensures |bvars| >= 2 ==> forall n: nat :: Apart(old(F()), bvars, t, n) ==> PinsExactly(old(F()), F(), bvars, t, n)
      ensures |bvars| == 1 ==> Adds(old(F()), F(), (a: Assignment) => B(a, t) ==> B(a, bvars[0]))
    {
      hide Solver.Valid, IntsOk, CacheOk, SatAll, B, Or, Step, FormulaBelow, Chained, Free;
      if |bvars| == 1 { OrReifAlone(F(), bvars[0], t); }
      ghost var f0, nv0 := F(), NV();
      var ti := bvars[0];
      ChainStart(f0, nv0, bvars);
      var i := 1;
      while i < |bvars| - 1
        invariant Valid() && NV() >= nv0 && RefOk(ti, NV()) && Stronger(f0, F())
        invariant |bvars| >= 2 ==> i <= |bvars| - 1
        invariant |bvars| == 1 ==> ti == bvars[0] && F() == f0
        invariant |bvars| >= 2 ==> Chained(f0, nv0, F(), bvars, i, ti)
      {
        ti := OrLink(f0, nv0, bvars, i, ti);
        i := i + 1;
      }
      ghost var f := F();
      BoolOrReif(bvars[|bvars| - 1], ti, t);
      AddsStronger(f0, f, F(), OrReifPhi(bvars[|bvars| - 1], ti, t));
      if |bvars| >= 2 {
        ChainEnd(f0, nv0, f, F(), bvars, ti, t);
        forall n: nat | Apart(f0, bvars, t, n) ensures PinsExactly(f0, F(), bvars, t, n) {
          RefApart(t, n, nv0);
          ChainPins(f0, nv0, F(), bvars, t, n);
        }
      }
    }

    /** One more input: a new variable for the disjunction so far. */
    method OrLink(ghost f0: Formula, ghost nv0: nat, bvars: seq<int>, i: nat, ti: int) returns (ti1: int)
      requires Valid() && RefsOk(bvars, nv0) && RefOk(ti, NV()) && i < |bvars| && NV() >= nv0 && Stronger(f0, F())
      modifies satSolver, `nextBoolID
      ensures Valid() && NV() > old(NV()) && RefOk(ti1, NV()) && Stronger(f0, F())
      ensures Chained(f0, nv0, old(F()), bvars, i, ti) ==> Chained(f0, nv0, F(), bvars, i + 1, ti1)
    {
      hide Solver.Valid, IntsOk, CacheOk, SatAll, B, Or, Step, FormulaBelow, Chained, Free;
      ti1 := NewBoolVar();
      BoolOrReif(ti, bvars[i], ti1);
      AddsStronger(f0, old(F()), F(), OrReifPhi(ti, bvars[i], ti1));
      if Chained(f0, nv0, old(F()), bvars, i, ti) { ChainNext(f0, nv0, old(F()), old(NV()), F(), bvars, i, ti); }
    }

    // ---------------------------------------------------------------- integers and permutations

    /** An integer variable with range lb..ub; the references of its values are the next ones in order. */
    method NewIntVar(lb: int, ub: int) returns (vRef: nat)
      requires Valid()
      modifies satSolver, `nextBoolID, `ints, `nextIntID
      ensures Valid() && vRef == |old(ints)|
      ensures ints == old(ints) + [IntVar(lb, ub, Run(old(NV()), IntSize(lb, ub)))]
      ensures NV() == old(NV()) + IntSize(lb, ub)
      ensures Adds(old(F()), F(), OnePhi(Run(old(NV()), IntSize(lb, ub))))
    {
      hide Solver.Valid, CacheOk, SatAll, B, Or, FormulaBelow, AtMostOne;
      vRef := nextIntID;
      var bools := [];
      var i := lb;
      while i <= ub
        invariant Valid() && F() == old(F()) && ints == old(ints) && lb <= i && (i <= ub + 1 || bools == [])
        invariant NV() == old(NV()) + |bools| && |bools| == i - lb && bools == Run(old(NV()), |bools|)
      {
        var b := NewBoolVar();
        bools, i := bools + [b], i + 1;
      }
      ExactlyOneOf(bools);
      ints := ints + [IntVar(lb, ub, bools)];
      nextIntID := nextIntID + 1;
    }

    /** A permutation of 0..n-1: n variables, one value each and each value once. */
    method NewPermutation(n: nat) returns (perm: seq<nat>)
      requires Valid()
      modifies satSolver, `nextBoolID, `ints, `nextIntID
      ensures Valid() && NV() == old(NV()) + n * n
      ensures HasRows(ints, perm, Grid(old(NV()), n), n)
      ensures Adds(old(F()), F(), PermPhi(Grid(old(NV()), n), n))
    {
      hide Solver.Valid, CacheOk, SatAll, B, FormulaBelow, ExactlyOne, IntsOk, IntOk;
      ghost var nv0 := NV();
      ghost var rows := Grid(nv0, n);
      perm := [];
      for i := 0 to n
        invariant Valid() && NV() == nv0 + i * n && |perm| == i
        invariant forall k :: 0 <= k < i ==> perm[k] < |ints| && ints[perm[k]] == IntVar(0, n - 1, rows[k])
        invariant Adds(old(F()), F(), (a: Assignment) => RowsOn(a, rows, i))
      {
        GridRow(nv0, n, i);
        ghost var f := F();
        var v := NewIntVar(0, n - 1);
        perm := perm + [v];
        RowsNext(old(F()), f, F(), rows, i);
      }
      GridBelow(nv0, n);
      for num := 0 to n
        invariant Valid() && NV() == nv0 + n * n && HasRows(ints, perm, rows, n)
        invariant Adds(old(F()), F(), (a: Assignment) => RowsOn(a, rows, n) && ColsOn(a, rows, n, num))
      {
        var col := ColumnOf(perm, n, num, rows);
        ghost var f := F();
        ColumnBelow(rows, n, num, NV());
        ExactlyOneOf(col);
        ColsNext(old(F()), f, F(), rows, n, num);
      }
    }

    method ColumnOf(perm: seq<nat>, n: nat, num: nat, ghost rows: seq<seq<int>>) returns (col: seq<int>)
      requires HasRows(ints, perm, rows, n) && num < n
      ensures col == Column(rows, n, num)
    {
      col := [];
      for i := 0 to n
        invariant col == Column(rows, n, num)[..i]
      {
        col := col + [IntEqReif(perm[i], num)];
      }
    }

    /** The reference that says vi == c. */
    function IntEqReif(vi: nat, c: int): int
      requires vi < |ints| && 0 <= c - ints[vi].lb < |ints[vi].bools|
      reads this
    {
      ints[vi].bools[c - ints[vi].lb]
    }
  
    // ---------------------------------------------------------------- graphs

    /** A graph of unknown edges: one variable per pair of vertices, no loops. */
    method NewAdjMatrix(n: nat) returns (adj: Matrix<int>)
      requires Valid()
      modifies satSolver, `nextBoolID
      ensures Valid() && F() == old(F()) && NV() >= old(NV())
      ensures fresh(adj) && adj.Square(n) && AdjNamed(adj.Rows(), n, old(NV()), NV())
    {
      hide Solver.Valid, CacheOk, FormulaBelow, IntsOk, AdjUpTo, FalseDiagonal;
      adj := new Matrix(n, n, 0);
      ghost var nv0 := NV();
      AdjStart(adj.Rows(), n, nv0);
      for i := 0 to n
        invariant Valid() && F() == old(F()) && NV() >= nv0 && adj.Square(n)
        invariant AdjUpTo(adj.Rows(), n, nv0, NV(), i, i) && FalseDiagonal(adj.Rows(), i)
      {
        AdjRow(adj.Rows(), n, nv0, NV(), i, -1);
        DiagonalNext(adj.Rows(), n, i);
        adj.Set(i, i, NegRef(TrueConst()));
        for j := i + 1 to n
          invariant Valid() && F() == old(F()) && NV() >= nv0 && adj.Square(n)
          invariant AdjUpTo(adj.Rows(), n, nv0, NV(), i, j) && FalseDiagonal(adj.Rows(), i + 1)
        {
          NewEdge(adj, n, nv0, i, j);
        }
        AdjRowEnd(adj.Rows(), n, nv0, NV(), i);
      }
    }

    method NewEdge(adj: Matrix<int>, n: nat, ghost nv0: nat, i: nat, j: nat)
      requires Valid() && adj.Square(n) && i < j < n
      requires AdjUpTo(adj.Rows(), n, nv0, NV(), i, j) && FalseDiagonal(adj.Rows(), i + 1)
      modifies satSolver, `nextBoolID, adj
      ensures Valid() && F() == old(F()) && NV() == old(NV()) + 1 && adj.Square(n)
      ensures AdjUpTo(adj.Rows(), n, nv0, NV(), i, j + 1) && FalseDiagonal(adj.Rows(), i + 1)
    {
      hide Solver.Valid, CacheOk, FormulaBelow, IntsOk, AdjUpTo, FalseDiagonal;
      AdjNext(adj.Rows(), n, nv0, NV(), i, j);
      DiagonalKept(adj.Rows(), n, i, j, NV() + 1, i + 1);
      var xij := NewBoolVar();
      adj.Set(i, j, xij);
      adj.Set(j, i, xij);
    }
  
    /** Requires the first graph to be the second with its vertices renamed by the permutation. */
    method Isomorphic(g1: Matrix<int>, g2: Matrix<int>, perm: seq<nat>, ghost rows: seq<seq<int>>)
      requires Valid() && g1.Square(g1.nRows) && g2.Square(g1.nRows) && HasRows(ints, perm, rows, g1.nRows)
      requires RowsBelow(g1.Rows(), g1.nRows, NV()) && RowsBelow(g2.Rows(), g1.nRows, NV())
      requires RowsBelow(rows, g1.nRows, NV())
      modifies satSolver, `nextBoolID
      ensures Valid() && NV() >= old(NV()) && Stronger(old(F()), F())
      ensures PermIn(old(F()), rows, g1.nRows) ==>
        Step(old(F()), old(NV()), F(), IsoPhi(g1.Rows(), g2.Rows(), rows, g1.nRows))
    {
      hide Solver.Valid, CacheOk, FormulaBelow, IntsOk, Step, SatAll, PermIn, IsoUpTo, IsoAt;
      var n := g1.nRows;
      ghost var f0, nv0, m1, m2 := F(), NV(), g1.Rows(), g2.Rows();
      IsoStart(f0, nv0, m1, m2, rows, n);
      for i := 0 to n
        invariant Valid() && NV() >= nv0 && Stronger(f0, F())
        invariant PermIn(f0, rows, n) ==> Step(f0, nv0, F(), IsoUpToPhi(m1, m2, rows, n, i, i + 1))
      {
        for j := i + 1 to n
          invariant Valid() && NV() >= nv0 && Stronger(f0, F())
          invariant PermIn(f0, rows, n) ==> Step(f0, nv0, F(), IsoUpToPhi(m1, m2, rows, n, i, j))
        {
          ghost var f, nv := F(), NV();
          IsoEntry(g1, g2, perm, rows, i, j);
          StrongerTrans(f0, f, F());
          if PermIn(f0, rows, n) {
            PermMore(f0, f, rows, n);
            IsoNext(f0, nv0, f, nv, F(), m1, m2, rows, n, i, j);
          }
        }
        if PermIn(f0, rows, n) { IsoRowEnd(f0, nv0, F(), m1, m2, rows, n, i); }
      }
      if PermIn(f0, rows, n) { IsoDone(f0, nv0, F(), m1, m2, rows, n); }
    }

    /** The entry ij of the first graph is the disjunction of the terms over all pairs k, l. */
    method IsoEntry(g1: Matrix<int>, g2: Matrix<int>, perm: seq<nat>, ghost rows: seq<seq<int>>, i: nat, j: nat)
      requires Valid() && g1.Square(g1.nRows) && g2.Square(g1.nRows) && HasRows(ints, perm, rows, g1.nRows)
      requires i < j < g1.nRows
      requires RowsBelow(g1.Rows(), g1.nRows, NV()) && RowsBelow(g2.Rows(), g1.nRows, NV())
      requires RowsBelow(rows, g1.nRows, NV())
      modifies satSolver, `nextBoolID
      ensures Valid() && NV() >= old(NV()) && Stronger(old(F()), F())
      ensures PermIn(old(F()), rows, g1.nRows) ==>
        Step(old(F()), old(NV()), F(), IsoAtPhi(g1.Rows(), g2.Rows(), rows, g1.nRows, i, j))
    {
      hide Solver.Valid, CacheOk, FormulaBelow, IntsOk, Step, SatAll, PermIn, IsoAt, Terms, Listed, Exclusive, ChainPhi;
      hide PinsExactly, ArrayOrPhi, RowsBelow, Matrix.Valid, Cell, Stronger;
      ghost var f0, nv0 := F(), NV();
      var n := g1.nRows;
      EntryBelow(g1.Rows(), n, nv0, i, j);
      var ts; ghost var kls;
      ts, kls := IsoTerms(g2, perm, rows, n, i, j);
      ghost var f, nv := F(), NV();
      var xij := g1.Get(i, j);
      RefMore(xij, nv0, nv);
      BoolArrayOrReif(ts, xij);
      StepStronger(f0, nv0, f, Top());
      StrongerTrans(f0, f, F());
      if PermIn(f0, rows, n) {
        PermMore(f0, f, rows, n);
        TermsExclusive(f, ts, kls, g2.Rows(), rows, n, i, j);
        ChainExclusive(f, nv, F(), ts, xij);
        IsoEntryStep(f0, nv0, f, nv, F(), ts, kls, g1.Rows(), g2.Rows(), rows, n, i, j);
      }
    }

    /** One new variable for each ordered pair k != l. */
    method IsoTerms(g2: Matrix<int>, perm: seq<nat>, ghost rows: seq<seq<int>>, n: nat, i: nat, j: nat)
      returns (ts: seq<int>, ghost kls: seq<(nat, nat)>)
      requires Valid() && g2.Square(n) && HasRows(ints, perm, rows, n) && i < j < n
      requires RowsBelow(g2.Rows(), n, NV()) && RowsBelow(rows, n, NV())
      modifies satSolver, `nextBoolID
      ensures Valid() && NV() >= old(NV()) && Step(old(F()), old(NV()), F(), Top())
      ensures RefsOk(ts, NV()) && |ts| >= 2 && Terms(F(), ts, kls, g2.Rows(), rows, n, i, j) && Listed(kls, n, n, 0)
    {
      hide Solver.Valid, CacheOk, FormulaBelow, IntsOk, Step, SatAll, IsTerm, Listed;
      ghost var f0, nv0, m2 := F(), NV(), g2.Rows();
      ts, kls := [], [];
      StepRefl(f0, nv0);
      ListedStart(n);
      for k := 0 to n
        invariant Valid() && NV() >= nv0 && Step(f0, nv0, F(), Top())
        invariant RefsOk(ts, NV()) && Terms(F(), ts, kls, m2, rows, n, i, j) && Listed(kls, n, k, 0)
      {
        for l := 0 to n
          invariant Valid() && NV() >= nv0 && Step(f0, nv0, F(), Top())
          invariant RefsOk(ts, NV()) && Terms(F(), ts, kls, m2, rows, n, i, j) && Listed(kls, n, k, l)
        {
          ListedNext(kls, n, k, l);
          if k != l {
            ghost var f, nv := F(), NV();
            RowsMore(m2, n, nv0, nv);
            RowsMore(rows, n, nv0, nv);
            var t := IsoTerm(g2, perm, rows, n, i, j, k, l);
            StepStronger(f, nv, F(), Top());
            StepTop(f0, nv0, f, nv, F());
            TermsMore(f, F(), ts, kls, t, (k, l), m2, rows, n, i, j);
            ts, kls := ts + [t], kls + [(k, l)];
          }
        }
        ListedRow(kls, n, k);
      }
      ListedTwo(kls, n);
    }

    /** A new variable for: i is the image of k, j that of l, and kl is an edge of the second graph. */
    method IsoTerm(g2: Matrix<int>, perm: seq<nat>, ghost rows: seq<seq<int>>, n: nat, i: nat, j: nat, k: nat, l: nat)
      returns (t: int)
      requires Valid() && g2.Square(n) && HasRows(ints, perm, rows, n) && i < n && j < n && k < n && l < n
      requires RowsBelow(g2.Rows(), n, NV()) && RowsBelow(rows, n, NV())
      modifies satSolver, `nextBoolID
      ensures Valid() && NV() > old(NV()) && RefOk(t, NV()) && Step(old(F()), old(NV()), F(), Top())
      ensures IsTerm(F(), t, g2.Rows(), rows, n, (k, l), i, j)
    {
      hide Solver.Valid, CacheOk, FormulaBelow, IntsOk, Step, SatAll, IsTerm, B, RowsBelow, Matrix.Valid, Cell, Adds;
      EntryBelow(rows, n, NV(), k, i);
      EntryBelow(rows, n, NV(), l, j);
      EntryBelow(g2.Rows(), n, NV(), k, l);
      var t1 := IntEqReif(perm[k], i);
      var t2 := IntEqReif(perm[l], j);
      var xkl := g2.Get(k, l);
      t := NewBoolVar();
      BoolAnd3Reif(t1, t2, xkl, t);
      TermDefined(old(F()), old(NV()), F(), g2.Rows(), rows, n, k, l, i, j);
    }

    // ---------------------------------------------------------------- lexicographic order

    /**
     * The arrays agree before position length - 1, and there the first is 0 and the second 1. False reports unequal
     * lengths.
     */
    method BoolArraysLexLtImplication(arr1: seq<int>, arr2: seq<int>, length: nat) returns (ok: bool)
      requires Valid() && RefsOk(arr1, NV()) && RefsOk(arr2, NV()) && (|arr1| == |arr2| ==> 1 <= length <= |arr1|)
      modifies satSolver, `nextBoolID
      ensures ok <==> |arr1| == |arr2|
      ensures Valid() && NV() >= old(NV()) && (!ok ==> F() == old(F()) && NV() == old(NV()))
      ensures ok ==> Step(old(F()), old(NV()), F(), LexLtPhi(arr1, arr2, length))
    {
      hide Solver.Valid, CacheOk, FormulaBelow, IntsOk, Step, SatAll, Equated, SamePhi;
      if |arr1| != |arr2| { return false; }
      ghost var f0, nv0 := F(), NV();
      SameNone(f0, nv0, arr1, arr2);
      for i := 0 to length - 1
        invariant Valid() && NV() >= nv0 && Step(f0, nv0, F(), SamePhi(arr1, arr2, i))
      {
        ghost var f, nv := F(), NV();
        var t := NewIff(arr1[i], arr2[i]);
        ghost var f', nv' := F(), NV();
        SetBoolVar(t, true);
        SameNext(f0, nv0, f, nv, f', nv', F(), arr1, arr2, i, t);
      }
      ghost var f, nv := F(), NV();
      SetBoolVar(arr1[length - 1], false);
      ghost var f' := F();
      SetBoolVar(arr2[length - 1], true);
      LexLtEnd(f0, nv0, f, nv, f', F(), arr1, arr2, length);
      ok := true;
    }

    /**
     * If the arrays agree before position length - 1, the first is not above the second there. False reports unequal
     * lengths.
     */
    method BoolArraysLexImplication(arr1: seq<int>, arr2: seq<int>, length: nat) returns (ok: bool)
      requires Valid() && RefsOk(arr1, NV()) && RefsOk(arr2, NV()) && (|arr1| == |arr2| ==> 1 <= length <= |arr1|)
      modifies satSolver, `nextBoolID, `iffReifCache
      ensures ok <==> |arr1| == |arr2|
      ensures Valid() && NV() >= old(NV()) && (!ok ==> F() == old(F()) && NV() == old(NV()))
      ensures ok ==> Step(old(F()), old(NV()), F(), LexImpPhi(arr1, arr2, length))
    {
      hide Solver.Valid, CacheOk, FormulaBelow, IntsOk, Step, SatAll, Equated, LexImp, Or;
      if |arr1| != |arr2| { return false; }
      ghost var f0, nv0 := F(), NV();
      StepRefl(f0, nv0);
      var c: seq<int> := [];
      for i := 0 to length - 1
        invariant Valid() && NV() >= nv0 && Step(f0, nv0, F(), Top())
        invariant |c| == i && RefsOk(c, NV()) && Differ(F(), c, arr1, arr2)
      {
        ghost var f, nv := F(), NV();
        var t := BoolIffReifOf(arr1[i], arr2[i]);
        StepStronger(f, nv, F(), Top());
        StepTop(f0, nv0, f, nv, F());
        DifferMore(f, F(), c, arr1, arr2, t);
        c := c + [NegRef(t)];
      }
      ghost var f, nv := F(), NV();
      BoolArrayOr(c + [NegRef(arr1[length - 1])] + [arr2[length - 1]]);
      LexImpEnd(f0, nv0, f, nv, F(), c, arr1, arr2, length);
      ok := true;
    }

    /** Reifies a conjunction by a chain; exact for every number of inputs. */
    method BoolArrayAndReif(bvars: seq<int>, t: int)
      requires Valid() && RefsOk(bvars, NV()) && RefOk(t, NV()) && |bvars| >= 1
      modifies satSolver, `nextBoolID
      ensures Valid() && NV() >= old(NV()) && Step(old(F()), old(NV()), F(), ArrayAndPhi(bvars, t))
    {
      hide Solver.Valid, IntsOk, CacheOk, SatAll, B, Step, FormulaBelow, IsAnd, Adds;
      ghost var f0, nv0 := F(), NV();
      var ti := bvars[0];
      AndStart(f0, nv0, bvars);
      var i := 1;
      while i < |bvars| - 1
        invariant Valid() && NV() >= nv0 && RefOk(ti, NV()) && 1 <= i <= |bvars| && (|bvars| >= 2 ==> i <= |bvars| - 1)
        invariant Step(f0, nv0, F(), Top()) && IsAnd(F(), ti, bvars[..i])
      {
        ghost var f, nv := F(), NV();
        var ti1 := NewBoolVar();
        BoolAndReif(ti, bvars[i], ti1);
        AndNext(f0, nv0, f, nv, F(), bvars, i, ti);
        ti, i := ti1, i + 1;
      }
      ghost var f, nv := F(), NV();
      BoolAndReif(bvars[|bvars| - 1], ti, t);
      AndEnd(f0, nv0, f, nv, F(), bvars, i, ti, t);
    }

    /** New references for the equalities of the first n - 1 positions. */
    method EqualityReifs(arr1: seq<int>, arr2: seq<int>) returns (reifs: seq<int>)
      requires Valid() && RefsOk(arr1, NV()) && RefsOk(arr2, NV()) && |arr1| == |arr2|
      modifies satSolver, `nextBoolID
      ensures Valid() && NV() >= old(NV()) && Step(old(F()), old(NV()), F(), Top()) && RefsOk(reifs, NV())
      ensures EqualTo(F(), reifs, arr1, arr2) && |reifs| == if |arr1| == 0 then 0 else |arr1| - 1
    {
      hide Solver.Valid, CacheOk, FormulaBelow, IntsOk, Step, SatAll, Equated;
      ghost var f0, nv0 := F(), NV();
      StepRefl(f0, nv0);
      reifs := [];
      var i := 0;
      while i < |arr1| - 1
        invariant Valid() && NV() >= nv0 && Step(f0, nv0, F(), Top()) && RefsOk(reifs, NV())
        invariant |reifs| == i && EqualTo(F(), reifs, arr1, arr2) && (|arr1| > 0 ==> i <= |arr1| - 1)
        invariant (|arr1| == 0 ==> i == 0)
      {
        ghost var f, nv := F(), NV();
        var t := NewIff(arr1[i], arr2[i]);
        StepStronger(f, nv, F(), Top());
        StepTop(f0, nv0, f, nv, F());
        EqualMore(f, F(), reifs, arr1, arr2, t);
        reifs, i := reifs + [t], i + 1;
      }
    }

    /** The first array is lexicographically at most the second. False reports unequal lengths. */
    method BoolArraysLex(arr1: seq<int>, arr2: seq<int>) returns (ok: bool)
      requires Valid() && RefsOk(arr1, NV()) && RefsOk(arr2, NV())
      modifies satSolver, `nextBoolID
      ensures ok <==> |arr1| == |arr2|
      ensures Valid() && NV() >= old(NV()) && (!ok ==> F() == old(F()) && NV() == old(NV()))
      ensures ok ==> Step(old(F()), old(NV()), F(), LexLeUpToPhi(arr1, arr2, |arr1|))
    {
      hide Solver.Valid, CacheOk, FormulaBelow, IntsOk, Step, SatAll, EqualTo, Or, Adds;
      if |arr1| != |arr2| { return false; }
      ghost var f0, nv0 := F(), NV();
      var reifs := EqualityReifs(arr1, arr2);
      ghost var nv := NV();
      LexLeNone(f0, nv0, F(), arr1, arr2);
      for i := 0 to |arr1|
        invariant Valid() && NV() == nv && EqualTo(F(), reifs, arr1, arr2)
        invariant Step(f0, nv0, F(), LexLeUpToPhi(arr1, arr2, i))
      {
        ghost var f := F();
        var c: seq<int> := [];
        for j := 0 to i
          invariant c == Negs(reifs)[..j] && RefsOk(c, nv)
        {
          c := c + [NegRef(reifs[j])];
        }
        BoolArrayOr(c + [NegRef(arr1[i])] + [arr2[i]]);
        LexLeNext(f0, nv0, f, nv, F(), reifs, arr1, arr2, i);
      }
      ok := true;
    }

    /** The first array is lexicographically below the second. False reports unequal lengths. */
    method BoolArraysLexLt(arr1: seq<int>, arr2: seq<int>) returns (ok: bool)
      requires Valid() && RefsOk(arr1, NV()) && RefsOk(arr2, NV())
      modifies satSolver, `nextBoolID
      ensures ok <==> |arr1| == |arr2|
      ensures Valid() && NV() >= old(NV()) && (!ok ==> F() == old(F()) && NV() == old(NV()))
      ensures ok ==> Step(old(F()), old(NV()), F(), LexBelowPhi(arr1, arr2))
    {
      hide Solver.Valid, CacheOk, FormulaBelow, IntsOk, Step, SatAll, EqualTo, Or, Adds;
      if |arr1| != |arr2| { return false; }
      ghost var f0, nv0 := F(), NV();
      var eqReifs := EqualityReifs(arr1, arr2);
      ghost var f1, nv1 := F(), NV();
      var ts := NewBoolVars(|arr1|);
      ghost var nv := NV();
      LocatedNone(f1, nv, eqReifs, arr1, arr2, ts);
      for i := 0 to |arr1|
        invariant Valid() && NV() >= nv && Step(f1, nv, F(), LocatedPhi(eqReifs, arr1, arr2, ts, i))
      {
        LocateAt(eqReifs, arr1, arr2, ts, i, f1, nv);
      }
      ghost var f2, nv2 := F(), NV();
      BoolArrayOr(ts);
      LexBelowStep(f0, nv0, f1, nv1, f2, nv2, F(), eqReifs, arr1, arr2);
      ok := true;
    }

    method NewBoolVars(k: nat) returns (ts: seq<int>)
      requires Valid()
      modifies satSolver, `nextBoolID
      ensures Valid() && F() == old(F()) && NV() == old(NV()) + k && ts == Run(old(NV()), k) && RefsOk(ts, NV())
    {
      hide Solver.Valid, CacheOk, FormulaBelow, IntsOk;
      ts := [];
      for i := 0 to k
        invariant Valid() && F() == old(F()) && NV() == old(NV()) + i && ts == Run(old(NV()), i) && RefsOk(ts, NV())
      {
        var b := NewBoolVar();
        ts := ts + [b];
      }
    }

    method LocateAt(eqReifs: seq<int>, arr1: seq<int>, arr2: seq<int>, ts: seq<int>, i: nat, ghost f1: Formula,
        ghost nv: nat)
      requires Valid() && i < |arr1| == |arr2| == |ts| && i <= |eqReifs| && NV() >= nv
      requires RefsOk(eqReifs, nv) && RefsOk(arr1, nv) && RefsOk(arr2, nv) && RefsOk(ts, nv)
      requires Step(f1, nv, F(), LocatedPhi(eqReifs, arr1, arr2, ts, i))
      modifies satSolver, `nextBoolID
      ensures Valid() && NV() >= old(NV()) && Step(f1, nv, F(), LocatedPhi(eqReifs, arr1, arr2, ts, i + 1))
    {
      hide Solver.Valid, CacheOk, FormulaBelow, IntsOk, Step, SatAll;
      ghost var f, nv2 := F(), NV();
      var bvars: seq<int> := [];
      for j := 0 to i
        invariant bvars == eqReifs[..j]
      {
        bvars := bvars + [eqReifs[j]];
      }
      bvars := bvars + [NegRef(arr1[i])];
      bvars := bvars + [arr2[i]];
      assert bvars == DropsRefs(eqReifs, arr1, arr2, i);
      DropsRefsOk(eqReifs, arr1, arr2, i, nv2);
      BoolArrayAndReif(bvars, ts[i]);
      LocatedNext(f1, nv, f, nv2, F(), eqReifs, arr1, arr2, ts, i);
    }

    // ---------------------------------------------------------------- solving

    /** The assignment of the solver's model. */
    ghost function ModelAt(): Assignment
      reads `satSolver, satSolver`model
    {
      var model := satSolver.model;
      (v: nat) => v < |model| && model[v] == True
    }

    /** True comes with a model of every clause, False means there is none; Undef only if the budget is used up. */
    method Solve(budget: nat) returns (status: LBool)
      requires Valid()
      modifies satSolver
      ensures Valid() && F() == old(F()) && NV() == old(NV())
      ensures status == False ==> Unsat(F())
      ensures status == True ==> SatAll(ModelAt(), F()) && |satSolver.model| == NV() && forall v :: 0 <= v < NV() ==>
        satSolver.model[v] != Undef
      ensures status == Undef ==> satSolver.conflicts >= old(satSolver.conflicts) + budget
    {
      hide Solver.Valid, CacheOk, FormulaBelow, IntsOk, Unsat;
      status := satSolver.Solve(budget);
      if status == True {
        forall v: nat | Mentioned(F(), v) ensures v < NV() { MentionedBelow(F(), NV(), v); }
        ModelHolds(satSolver.model, F(), ModelAt());
      }
    }

    /** The value of a reference in the model found. */
    function GetBoolAssignment(b: int): (r: LBool)
      requires RefOk(b, |satSolver.model|) && satSolver.model[LitOf(b).v] != Undef
      reads this, satSolver
      ensures r == if B(ModelAt(), b) then True else False
    {
      Val(satSolver.model, LitOf(b))
    }

    /** The value of an integer: that of its first true reference. */
    method GetIntAssignment(vref: nat) returns (val: int)
      requires vref < |ints| && RefsOk(ints[vref].bools, |satSolver.model|)
      requires forall v :: 0 <= v < |satSolver.model| ==> satSolver.model[v] != Undef
      ensures val == ints[vref].lb + FirstTrue(ModelAt(), ints[vref].bools)
    {
      var bools := ints[vref].bools;
      val := ints[vref].lb;
      for i := 0 to |bools|
        invariant forall k :: 0 <= k < i ==> !B(ModelAt(), bools[k])
      {
        if GetBoolAssignment(bools[i]) == True {
          FirstTrueAt(ModelAt(), bools, i);
          return val + i;
        }
      }
      FirstTrueNone(ModelAt(), bools);
    }

    method DecodeIntArray(arr: seq<nat>, ghost rows: seq<seq<int>>, n: nat) returns (ans: seq<nat>)
      requires Valid() && HasRows(ints, arr, rows, n) && |satSolver.model| == NV()
      requires forall v :: 0 <= v < |satSolver.model| ==> satSolver.model[v] != Undef
      ensures ans == Decoded(ModelAt(), rows)
    {
      hide Solver.Valid, CacheOk, FormulaBelow;
      ans := [];
      for i := 0 to n
        invariant ans == Decoded(ModelAt(), rows)[..i]
      {
        var val := GetIntAssignment(arr[i]);
        ans := ans + [val];
      }
    }
  }
}
