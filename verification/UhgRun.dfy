/** Whole runs of decisions and propagations: what a complete accepted graph is, and that no such graph is lost. */
module UhgRun {
  import opened Cnf
  import opened Graphs
  import opened Matrices
  import opened Hamilton
  import opened PathSearch
  import opened Uhg
  import opened Dihedral

  // ---------------------------------------------------------------- runs

  /** The solver decides an edge, or another constraint does; or the propagator handles a present edge. */
  datatype Event = Decide(i: nat, j: nat, val: bool) | Propagate(x: nat, y: nat)

  ghost predicate StepOk(m: Tri, ev: Event, m': Tri, n: nat) {
    match ev
    case Decide(i, j, val) =>
      i < n && j < n && i != j && Sym(m, n) && m[i][j] == Undef
        && m' == PutEdge(m, n, i, j, if val then True else False)
    case Propagate(x, y) => x < y < n && Propagated(m, m', n, x, y)
  }

  /** The base cycle is fixed, everything else unknown. */
  ghost predicate Start(m: Tri, n: nat) {
    Sym(m, n) && BaseIn(m, n) && forall i: nat, j: nat :: i < n && j < n && i != j && !Base(i, j, n) ==>
      m[i][j] == Undef
  }

  ghost predicate Run(ms: seq<Tri>, evs: seq<Event>, n: nat) {
    && |ms| == |evs| + 1 && Start(ms[0], n)
    && forall k :: 0 <= k < |evs| ==> StepOk(ms[k], evs[k], ms[k + 1], n)
  }

  function Final(ms: seq<Tri>): Tri { if ms == [] then [] else ms[|ms| - 1] }

  /** Every chord of the final graph has been propagated at some time after it was set. */
  ghost predicate AllPropagated(ms: seq<Tri>, evs: seq<Event>, n: nat) {
    forall x: nat, y: nat :: x < y < n && Has(Final(ms), x, y) && !Base(x, y, n) ==>
      exists k: nat :: PropagatedAt(ms, evs, x, y, k)
  }

  ghost predicate PropagatedAt(ms: seq<Tri>, evs: seq<Event>, x: nat, y: nat, k: nat) {
    k < |evs| && k < |ms| && evs[k] == Propagate(x, y) && Has(ms[k], x, y)
  }

  lemma StepFacts(m: Tri, ev: Event, m': Tri, n: nat)
    requires StepOk(m, ev, m', n)
    ensures Sym(m, n) && Sym(m', n) && forall i: nat, j: nat :: Has(m, i, j) ==> Has(m', i, j)
  {
    if ev.Propagate? { ForcedHas(m, m', n); }
  }

  /** Present edges stay present. */
  lemma {:induction false} Monotone(ms: seq<Tri>, evs: seq<Event>, n: nat, k: nat, l: nat)
    requires Run(ms, evs, n) && k <= l <= |evs|
    ensures Sym(ms[k], n) && Sym(ms[l], n) && forall i: nat, j: nat :: Has(ms[k], i, j) ==> Has(ms[l], i, j)
    decreases l - k
  {
    hide Propagated, Sym;
    if k < l {
      assert StepOk(ms[k], evs[k], ms[k + 1], n);
      StepFacts(ms[k], evs[k], ms[k + 1], n);
      Monotone(ms, evs, n, k + 1, l);
    } else if k > 0 {
      assert StepOk(ms[k - 1], evs[k - 1], ms[k - 1 + 1], n);
      StepFacts(ms[k - 1], evs[k - 1], ms[k], n);
    } else {
      assert Sym(ms[0], n);
    }
  }

  /** A time at which a chord of c is propagated. */
  ghost predicate ChordTime(ms: seq<Tri>, evs: seq<Event>, n: nat, c: seq<nat>, k: nat) {
    exists t: nat, x: nat, y: nat :: OnCycle(c, n, t, x, y) && !Base(x, y, n) && PropagatedAt(ms, evs, x, y, k)
  }

  lemma TimeBelow(ms: seq<Tri>, evs: seq<Event>, n: nat, c: seq<nat>, k: nat)
    requires ChordTime(ms, evs, n, c, k)
    ensures k < |evs| && k < |ms|
  {}

  lemma {:induction false} LastTime(ms: seq<Tri>, evs: seq<Event>, n: nat, c: seq<nat>, k: nat) returns (last: nat)
    requires ChordTime(ms, evs, n, c, k) && k < |evs|
    ensures last < |evs| && ChordTime(ms, evs, n, c, last) && forall l: nat :: ChordTime(ms, evs, n, c, l) ==> l <= last
    decreases |evs| - k
  {
    hide ChordTime;
    if l: nat :| l > k && ChordTime(ms, evs, n, c, l) {
      TimeBelow(ms, evs, n, c, l);
      last := LastTime(ms, evs, n, c, l);
    } else {
      last := k;
    }
  }

  /** The edge after position t of c is present when some chord of c is propagated at time k. */
  ghost predicate SeenAt(ms: seq<Tri>, evs: seq<Event>, n: nat, c: seq<nat>, t: nat, k: nat) {
    ChordTime(ms, evs, n, c, k) && k < |ms| && t < n && |c| == n && Has(ms[k], c[t], c[Next(t, n)])
  }

  lemma FinalSym(ms: seq<Tri>, evs: seq<Event>, n: nat)
    requires Run(ms, evs, n)
    ensures Sym(Final(ms), n) && |ms| == |evs| + 1 && Final(ms) == ms[|evs|]
  {
    Monotone(ms, evs, n, |evs|, |evs|);
  }

  /** Every chord of a final Hamiltonian cycle has its time. */
  lemma ChordHasTime(ms: seq<Tri>, evs: seq<Event>, n: nat, c: seq<nat>, t: nat)
    requires Run(ms, evs, n) && AllPropagated(ms, evs, n) && HamCycle(Final(ms), n, c) && t < n
    requires !Base(c[t], c[Next(t, n)], n)
    ensures exists k: nat :: SeenAt(ms, evs, n, c, t, k)
  {
    hide Run, Sym, Has, Base, IsPerm;
    FinalSym(ms, evs, n);
    CycleSize(Final(ms), n, c);
    var a, b := c[t], c[Next(t, n)];
    HasBelow(Final(ms), n, a, b);
    HasApart(Final(ms), a, b);
    BaseSym(a, b, n);
    if a < b { SeenEdge(ms, evs, n, c, t, a, b); } else { SeenEdge(ms, evs, n, c, t, b, a); }
  }

  lemma SeenEdge(ms: seq<Tri>, evs: seq<Event>, n: nat, c: seq<nat>, t: nat, x: nat, y: nat)
    requires Run(ms, evs, n) && AllPropagated(ms, evs, n) && x < y < n && Has(Final(ms), x, y) && !Base(x, y, n)
    requires OnCycle(c, n, t, x, y)
    ensures exists k: nat :: SeenAt(ms, evs, n, c, t, k)
  {
    hide Run, Sym, Base;
    FinalSym(ms, evs, n);
    var k: nat :| PropagatedAt(ms, evs, x, y, k);
    assert ChordTime(ms, evs, n, c, k);
    Monotone(ms, evs, n, k, |evs|);
    HasBelow(ms[k], n, x, y);
    assert SeenAt(ms, evs, n, c, t, k);
  }

  lemma StartBase(ms: seq<Tri>, evs: seq<Event>, n: nat, i: nat, j: nat)
    requires Run(ms, evs, n) && i < n && j < n && Base(i, j, n)
    ensures Has(ms[0], i, j)
  {
    BaseStep(ms[0], n, i);
    BaseStep(ms[0], n, j);
  }

  /** At the last of these times the whole cycle is present. */
  lemma CyclePresent(ms: seq<Tri>, evs: seq<Event>, n: nat, c: seq<nat>, last: nat)
    requires Run(ms, evs, n) && AllPropagated(ms, evs, n) && HamCycle(Final(ms), n, c) && last < |evs|
    requires forall l: nat :: ChordTime(ms, evs, n, c, l) ==> l <= last
    ensures last < |ms| && HamCycle(ms[last], n, c)
  {
    hide Run, Sym, Has, Base, ChordTime, AllPropagated;
    FinalSym(ms, evs, n);
    Monotone(ms, evs, n, 0, last);
    forall t | 0 <= t < n ensures Has(ms[last], c[t], c[Next(t, n)]) {
      if Base(c[t], c[Next(t, n)], n) {
        StartBase(ms, evs, n, c[t], c[Next(t, n)]);
      } else {
        ChordHasTime(ms, evs, n, c, t);
        var k: nat :| SeenAt(ms, evs, n, c, t, k);
        Monotone(ms, evs, n, k, last);
      }
    }
  }

  lemma ChordTimeRefutes(ms: seq<Tri>, evs: seq<Event>, n: nat, c: seq<nat>, k: nat)
    requires n >= 3 && Run(ms, evs, n) && ChordTime(ms, evs, n, c, k) && k < |ms|
    ensures !HamCycle(ms[k], n, c)
  {
    hide Propagated, Has, Base, Sym, OnCycle;
    var t: nat, x: nat, y: nat :| OnCycle(c, n, t, x, y) && !Base(x, y, n) && PropagatedAt(ms, evs, x, y, k);
    assert StepOk(ms[k], evs[k], ms[k + 1], n);
    PropagatedExcludes(ms[k], ms[k + 1], n, x, y, c, t);
  }

  /** The graph of an accepted run has the base cycle as its only Hamiltonian cycle. */
  lemma OnlyBaseCycle(ms: seq<Tri>, evs: seq<Event>, n: nat)
    requires n >= 3 && Run(ms, evs, n) && AllPropagated(ms, evs, n)
    ensures !HasSecond(Final(ms), n)
  {
    hide ChordTime, HamCycle, Run, AllPropagated, Base;
    if c :| HamCycle(Final(ms), n, c) && UsesChord(c, n) {
      CycleSize(Final(ms), n, c);
      var t: nat :| t < |c| && !Base(c[t], c[Next(t, |c|)], n);
      ChordHasTime(ms, evs, n, c, t);
      var k: nat :| SeenAt(ms, evs, n, c, t, k);
      TimeBelow(ms, evs, n, c, k);
      var last := LastTime(ms, evs, n, c, k);
      CyclePresent(ms, evs, n, c, last);
      ChordTimeRefutes(ms, evs, n, c, last);
    }
  }

  // ---------------------------------------------------------------- nothing is lost

  /** A complete graph that agrees with everything known so far. */
  ghost predicate Agrees(m: Tri, g: Tri, n: nat) {
    && Sym(m, n) && Sym(g, n)
    && forall i: nat, j: nat :: i < n && j < n && i != j && m[i][j] != Undef ==> m[i][j] == g[i][j]
  }

  lemma AgreesHas(m: Tri, g: Tri, n: nat)
    requires Agrees(m, g, n)
    ensures forall i: nat, j: nat :: Has(m, i, j) ==> Has(g, i, j)
  {}

  /** The propagator reports no contradiction against a uniquely Hamiltonian graph. */
  lemma NoContradiction(m: Tri, g: Tri, n: nat)
    requires Agrees(m, g, n) && !HasSecond(g, n)
    ensures !HasSecond(m, n)
  {
    AgreesHas(m, g, n);
    if c :| HamCycle(m, n, c) && UsesChord(c, n) {
      assert HamCycle(g, n, c);
    }
  }

  /** The propagator excludes no edge of a uniquely Hamiltonian graph. */
  lemma PropagatedAgrees(m: Tri, m': Tri, n: nat, x: nat, y: nat, g: Tri)
    requires Agrees(m, g, n) && Propagated(m, m', n, x, y) && !HasSecond(g, n)
    requires forall i: nat, j: nat :: i < n && j < n && i != j ==> g[i][j] != Undef
    ensures Agrees(m', g, n)
  {
    hide ClosesSecond, HasSecond, RulesDone, HamPath, Closed;
    AgreesHas(m, g, n);
    forall i: nat, j: nat | i < n && j < n && i != j && m'[i][j] != Undef ensures m'[i][j] == g[i][j] {
      if m'[i][j] != m[i][j] {
        assert ForcedEdge(m, m', n, i, j);
        if g[i][j] == True {
          ClosesSame(m, g, n, i, j);
          SecondPresent(g, n, i, j);
        }
      }
    }
  }

  /** As long as the decisions agree with a uniquely Hamiltonian graph, the whole run does. */
  lemma {:induction false} RunAgrees(ms: seq<Tri>, evs: seq<Event>, n: nat, g: Tri, k: nat)
    requires Run(ms, evs, n) && k <= |evs| && Agrees(ms[0], g, n) && !HasSecond(g, n)
    requires forall i: nat, j: nat :: i < n && j < n && i != j ==> g[i][j] != Undef
    requires forall l :: 0 <= l < k && evs[l].Decide? && evs[l].i < n && evs[l].j < n ==>
      g[evs[l].i][evs[l].j] == if evs[l].val then True else False
    ensures Agrees(ms[k], g, n) && !HasSecond(ms[k], n)
  {
    hide Propagated, HasSecond;
    if k == 0 {
      NoContradiction(ms[0], g, n);
    } else {
      RunAgrees(ms, evs, n, g, k - 1);
      assert StepOk(ms[k - 1], evs[k - 1], ms[k - 1 + 1], n);
      if evs[k - 1].Propagate? {
        PropagatedAgrees(ms[k - 1], ms[k], n, evs[k - 1].x, evs[k - 1].y, g);
      } else {
        assert Agrees(ms[k], g, n);
      }
      NoContradiction(ms[k], g, n);
    }
  }

  // ---------------------------------------------------------------- the search object

  /** The first k edges of the base cycle are present, everything else is unknown. */
  ghost predicate FixedUpTo(m: Tri, n: nat, k: nat) {
    SquareOf(m, n) && forall a: nat, b: nat :: a < n && b < n && a != b ==> m[a][b] == EdgeAfter(n, k, a, b)
  }

  function EdgeAfter(n: nat, k: nat, a: nat, b: nat): LBool {
    if (Next(a, n) == b && a < k) || (Next(b, n) == a && b < k) then True else Undef
  }

  lemma FixedNone(m: Tri, n: nat)
    requires SquareOf(m, n) && forall i: nat, j: nat :: i < n && j < n ==> m[i][j] == Undef
    ensures FixedUpTo(m, n, 0)
  {}

  lemma FixedNext(m: Tri, n: nat, i: nat)
    requires FixedUpTo(m, n, i) && i < n && n >= 2
    ensures Next(i, n) < n && Next(i, n) != i && m[i][Next(i, n)] != False
    ensures FixedUpTo(PutEdge(m, n, i, Next(i, n), True), n, i + 1)
  {
    var m' := PutEdge(m, n, i, Next(i, n), True);
    forall a: nat, b: nat | a < n && b < n && a != b ensures m'[a][b] == EdgeAfter(n, i + 1, a, b) {
      assert m[a][b] == EdgeAfter(n, i, a, b);
    }
  }

  lemma FixedAll(m: Tri, n: nat)
    requires FixedUpTo(m, n, n) && Sym(m, n) && n >= 2
    ensures Start(m, n)
  {
    forall i: nat | i < n ensures Has(m, i, Next(i, n)) { assert m[i][Next(i, n)] == EdgeAfter(n, n, i, Next(i, n)); }
  }

  class UHGSearch {
    const n: nat
    const graph: UnknownGraph
    const propagator: PropOptimized

    constructor (n: nat)
      requires n >= 2
      ensures this.n == graph.n == n && graph.Valid() && Start(graph.m, n)
      ensures propagator.graph == graph && propagator.Sized() && fresh(graph)
    {
      this.n := n;
      var g := new UnknownGraph(n);
      graph := g;
      propagator := new PropOptimized(g);
      new;
      FixHamCycle();
    }

    /** Sets the edges of the base cycle. */
    method FixHamCycle()
      requires graph.Valid() && graph.n == n && n >= 2
      requires SquareOf(graph.m, n) && forall i: nat, j: nat :: i < n && j < n ==> graph.m[i][j] == Undef
      modifies graph
      ensures graph.Valid() && Start(graph.m, n)
    {
      hide Mod, Sym, FixedUpTo, PutEdge;
      FixedNone(graph.m, n);
      for i := 0 to n
        invariant graph.Valid() && FixedUpTo(graph.m, n, i)
      {
        ModNext(i, n);
        ModSmall(i, n);
        FixedNext(graph.m, n, i);
        var ok := graph.FixEdgeValue(Mod(i, n), Mod(i + 1, n), true);
      }
      FixedAll(graph.m, n);
    }
  }

  /** The only Hamiltonian cycles of an accepted graph are the 2n traversals of the base cycle. */
  lemma AcceptedCycles(ms: seq<Tri>, evs: seq<Event>, n: nat, c: seq<nat>)
    requires n >= 3 && Run(ms, evs, n) && AllPropagated(ms, evs, n)
    ensures HamCycle(Final(ms), n, c) <==> Automorphism(c, n)
  {
    hide Propagated, StepOk, AllPropagated;
    OnlyBaseCycle(ms, evs, n);
    FinalSym(ms, evs, n);
    if HamCycle(Final(ms), n, c) {
      forall i: nat | i < n ensures Base(c[i], c[Next(i, n)], n) {
        if !Base(c[i], c[Next(i, n)], n) { UseChord(c, n, i); }
      }
      BasePreserved(c, n);
    }
    if Automorphism(c, n) {
      forall k: nat | k < n ensures Has(Final(ms), c[k], c[Next(k, n)]) {
        assert Base(k, Next(k, n), n) <==> Base(c[k], c[Next(k, n)], n);
        StartBase(ms, evs, n, c[k], c[Next(k, n)]);
        Monotone(ms, evs, n, 0, |evs|);
      }
    }
  }
}
