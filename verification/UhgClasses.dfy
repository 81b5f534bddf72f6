/** The search as a whole: its complete accepted runs give each uniquely Hamiltonian graph once, up to isomorphism. */
module UhgClasses {
  import opened Cnf
  import opened Graphs
  import opened Matrices
  import opened Orbits
  import opened Hamilton
  import opened PathSearch
  import opened Uhg
  import opened Dihedral
  import opened UhgRun

  function GraphOf(m: Tri): Graph { (i: nat, j: nat) => Has(m, i, j) }

  ghost predicate Complete(m: Tri, n: nat) {
    SquareOf(m, n) && forall i: nat, j: nat :: i < n && j < n && i != j ==> m[i][j] != Undef
  }

  /** A run that ends with every edge decided, every chord propagated and the posted constraints satisfied. */
  ghost predicate Solution(ms: seq<Tri>, evs: seq<Event>, n: nat) {
    Run(ms, evs, n) && AllPropagated(ms, evs, n) && Complete(Final(ms), n) && LeastUnderGroup(GraphOf(Final(ms)), n)
  }

  ghost predicate Loopless(g: Graph, n: nat) { forall i: nat :: i < n ==> !g(i, i) }

  // ---------------------------------------------------------------- solutions are uniquely Hamiltonian

  lemma GraphCycles(m: Tri, n: nat, c: seq<nat>)
    ensures CycleOf(GraphOf(m), n, c) <==> HamCycle(m, n, c)
  {
    hide Has;
    if CycleOf(GraphOf(m), n, c) {
      forall k | 0 <= k < n ensures Has(m, c[k], c[Next(k, n)]) { assert GraphOf(m)(c[k], c[Next(k, n)]); }
    }
    if HamCycle(m, n, c) {
      forall k | 0 <= k < n ensures GraphOf(m)(c[k], c[Next(k, n)]) { assert Has(m, c[k], c[Next(k, n)]); }
    }
  }

  lemma GraphUnique(m: Tri, n: nat)
    requires Sym(m, n) && BaseIn(m, n)
    ensures UniquelyHamiltonian(GraphOf(m), n) <==> !HasSecond(m, n)
  {
    hide HamCycle, CycleOf, UsesChord;
    forall c ensures CycleOf(GraphOf(m), n, c) <==> HamCycle(m, n, c) { GraphCycles(m, n, c); }
  }

  lemma FinalBase(ms: seq<Tri>, evs: seq<Event>, n: nat)
    requires Run(ms, evs, n)
    ensures Sym(Final(ms), n) && BaseIn(Final(ms), n)
  {
    hide StepOk, Sym;
    FinalSym(ms, evs, n);
    Monotone(ms, evs, n, 0, |evs|);
  }

  lemma SolutionUnique(ms: seq<Tri>, evs: seq<Event>, n: nat)
    requires n >= 3 && Solution(ms, evs, n)
    ensures UniquelyHamiltonian(GraphOf(Final(ms)), n) && Loopless(GraphOf(Final(ms)), n)
  {
    hide Run, AllPropagated, LeastUnderGroup, UniquelyHamiltonian, HasSecond;
    FinalBase(ms, evs, n);
    OnlyBaseCycle(ms, evs, n);
    GraphUnique(Final(ms), n);
  }

  // ---------------------------------------------------------------- a run for every such graph

  /** The decided matrix of a graph. */
  function MatrixOf(g: Graph, n: nat): (m: Tri)
    ensures SquareOf(m, n)
  {
    seq(n, (i: nat) => seq(n, (j: nat) => if i != j && g(i, j) then True else False))
  }

  lemma MatrixGraph(g: Graph, n: nat)
    requires UniquelyHamiltonian(g, n) && n >= 2
    ensures var m := MatrixOf(g, n); Sym(m, n) && BaseIn(m, n) && Complete(m, n)
    ensures forall i: nat, j: nat :: i < n && j < n && i != j ==> GraphOf(MatrixOf(g, n))(i, j) == g(i, j)
  {
    hide UsesChord, CycleOf;
    var m := MatrixOf(g, n);
    forall i: nat | i < n ensures Has(m, i, Next(i, n)) { assert g(i, Next(i, n)); }
  }

  /** Its Hamiltonian cycles are those of the graph. */
  lemma MatrixUnique(g: Graph, n: nat)
    requires UniquelyHamiltonian(g, n) && n >= 2
    ensures !HasSecond(MatrixOf(g, n), n)
  {
    hide UsesChord, MatrixOf, Has;
    MatrixGraph(g, n);
    var m := MatrixOf(g, n);
    forall c | HamCycle(m, n, c) ensures !UsesChord(c, n) {
      forall k: nat | k < n ensures g(c[k], c[Next(k, n)]) {
        assert GraphOf(m)(c[k], c[Next(k, n)]) == g(c[k], c[Next(k, n)]);
      }
      assert CycleOf(g, n, c);
    }
  }

  lemma AbsentIf(m: Tri, n: nat, i: nat, j: nat)
    requires Sym(m, n) && Complete(m, n) && !HasSecond(m, n) && i < n && j < n && i != j && ClosesSecond(m, n, i, j)
    ensures IsAbsent(m, i, j)
  {
    hide HasSecond, ClosesSecond;
    if m[i][j] == True { SecondPresent(m, n, i, j); }
  }

  /** Nothing is left to be forced in a decided graph without a second Hamiltonian cycle. */
  lemma NothingToForce(m: Tri, n: nat, x: nat, y: nat)
    requires n >= 3 && Sym(m, n) && BaseIn(m, n) && Complete(m, n) && !HasSecond(m, n)
    requires x < y < n && Has(m, x, y) && !Base(x, y, n)
    ensures Propagated(m, m, n, x, y)
  {
    hide HasSecond, ClosesSecond, Forced, HamPath, Closed, Has, BaseIn, Sym, IsAbsent, Complete;
    ForcedRefl(m, n);
    Rule1(m, n, x, y);
    AbsentIf(m, n, x + 1, Next(y, n));
    assert Rule2Done(m, m, n, x, y, x) by {
      forall z1: nat | y + 2 - n <= z1 < x && Prev(z1, n) >= 0 && Has(m, Prev(z1, n), y - 1)
        ensures IsAbsent(m, x + 1, z1)
      {
        Rule2(m, n, x, y, z1);
        AbsentIf(m, n, x + 1, z1);
      }
    }
    assert Rule3Done(m, m, n, x, y, x + 1) by {
      forall w: nat | x + 1 < w < y && Has(m, w, Next(y, n)) ensures IsAbsent(m, Prev(x, n), w - 1) {
        Rule3(m, n, x, y, w);
        AbsentIf(m, n, Prev(x, n), w - 1);
      }
    }
    forall q | HamPath(m, n, x, y, q) ensures Closed(m, q) { PathClosed(m, n, x, y, q); }
  }

  lemma PathClosing(m: Tri, n: nat, x: nat, y: nat, q: seq<nat>)
    requires n >= 3 && Sym(m, n) && HamPath(m, n, x, y, q) && !Base(x, y, n) && m[q[0]][Top(q)] == True
    ensures HasSecond(m, n)
  {
    hide Base, UsesChord;
    assert q[n - 1] != q[0] && m[q[n - 1]][q[0]] == m[q[0]][q[n - 1]];
    forall k | 0 <= k < n ensures Has(m, q[k], q[Next(k, n)]) {
      if k < n - 1 { assert Has(m, q[k], q[k + 1]); }
    }
    UseChord(q, n, 0);
    assert HamCycle(m, n, q) && UsesChord(q, n);
  }

  lemma PathClosed(m: Tri, n: nat, x: nat, y: nat, q: seq<nat>)
    requires n >= 3 && Sym(m, n) && Complete(m, n) && !HasSecond(m, n) && HamPath(m, n, x, y, q) && !Base(x, y, n)
    ensures Closed(m, q)
  {
    hide Base, HasSecond;
    if m[q[0]][Top(q)] == True { PathClosing(m, n, x, y, q); }
  }

  // ---------------------------------------------------------------- extending a run

  lemma RunMore(ms: seq<Tri>, evs: seq<Event>, n: nat, ev: Event, m': Tri)
    requires Run(ms, evs, n) && StepOk(Final(ms), ev, m', n)
    ensures Run(ms + [m'], evs + [ev], n) && Final(ms + [m']) == m'
  {
    hide StepOk, Start;
    var ms', evs' := ms + [m'], evs + [ev];
    forall k | 0 <= k < |evs'| ensures StepOk(ms'[k], evs'[k], ms'[k + 1], n) {
      if k < |evs| { assert StepOk(ms[k], evs[k], ms[k + 1], n); }
    }
  }

  /** Pairs before (a, b) have the values of h, later chords are unknown. */
  ghost predicate DecidedUpTo(m: Tri, h: Tri, n: nat, a: nat, b: nat) {
    && Sym(m, n) && SquareOf(h, n)
    && forall i: nat, j: nat :: i < j < n ==>
      m[i][j] == if Base(i, j, n) || i < a || (i == a && j < b) then h[i][j] else Undef
  }

  function StartMatrix(n: nat): (m: Tri)
    ensures SquareOf(m, n)
  {
    seq(n, (i: nat) => seq(n, (j: nat) => if Base(i, j, n) then True else Undef))
  }

  lemma StartDecided(h: Tri, n: nat)
    requires n >= 2 && Sym(h, n) && BaseIn(h, n)
    ensures Start(StartMatrix(n), n) && DecidedUpTo(StartMatrix(n), h, n, 0, 1)
  {
    var m := StartMatrix(n);
    forall i: nat, j: nat | i < n && j < n ensures m[i][j] == m[j][i] { BaseSym(i, j, n); }
    forall i: nat | i < n ensures Has(m, i, Next(i, n)) {}
    forall i: nat, j: nat | i < j < n && Base(i, j, n) ensures h[i][j] == True {
      BaseStep(h, n, i);
      BaseStep(h, n, j);
    }
  }

  lemma DecideNext(m: Tri, h: Tri, n: nat, a: nat, b: nat)
    requires a < b < n && DecidedUpTo(m, h, n, a, b) && !Base(a, b, n)
    ensures m[a][b] == Undef && DecidedUpTo(PutEdge(m, n, a, b, h[a][b]), h, n, a, b + 1)
  {
    hide Base;
    var m' := PutEdge(m, n, a, b, h[a][b]);
    forall i: nat, j: nat | i < n && j < n ensures m'[i][j] == m'[j][i] {}
  }

  lemma DecideSkip(m: Tri, h: Tri, n: nat, a: nat, b: nat)
    requires a < b < n && DecidedUpTo(m, h, n, a, b) && Base(a, b, n)
    ensures DecidedUpTo(m, h, n, a, b + 1)
  {
    hide Base;
  }

  lemma DecideRow(m: Tri, h: Tri, n: nat, a: nat)
    requires a < n && DecidedUpTo(m, h, n, a, n)
    ensures DecidedUpTo(m, h, n, a + 1, a + 2)
  {
    hide Base;
  }

  lemma DecideAll(m: Tri, h: Tri, n: nat)
    requires Sym(h, n) && DecidedUpTo(m, h, n, n, n + 1)
    ensures forall i: nat, j: nat :: i < n && j < n && i != j ==> m[i][j] == h[i][j]
  {
    hide Base;
    forall i: nat, j: nat | i < n && j < n && i != j ensures m[i][j] == h[i][j] {
      if i > j { assert m[j][i] == h[j][i]; }
    }
  }

  /** The first run decides every chord as h has it. */
  lemma DecideRun(h: Tri, n: nat) returns (ms: seq<Tri>, evs: seq<Event>)
    requires n >= 2 && Sym(h, n) && BaseIn(h, n) && Complete(h, n)
    ensures Run(ms, evs, n) && Sym(Final(ms), n)
    ensures forall i: nat, j: nat :: i < n && j < n && i != j ==> Final(ms)[i][j] == h[i][j]
  {
    hide Sym, Base, BaseIn, Run, DecidedUpTo, PutEdge;
    StartDecided(h, n);
    ms, evs := [StartMatrix(n)], [];
    RunStart(StartMatrix(n), n);
    for a := 0 to n
      invariant Run(ms, evs, n) && DecidedUpTo(Final(ms), h, n, a, a + 1)
    {
      for b := a + 1 to n
        invariant Run(ms, evs, n) && DecidedUpTo(Final(ms), h, n, a, b)
      {
        ms, evs := DecideOne(ms, evs, h, n, a, b);
      }
      DecideRow(Final(ms), h, n, a);
    }
    FinalSym(ms, evs, n);
    DecideAll(Final(ms), h, n);
  }

  lemma RunStart(m: Tri, n: nat)
    requires Start(m, n)
    ensures Run([m], [], n) && Final([m]) == m
  {
    hide Start;
  }

  lemma DecideOne(ms0: seq<Tri>, evs0: seq<Event>, h: Tri, n: nat, a: nat, b: nat)
    returns (ms: seq<Tri>, evs: seq<Event>)
    requires Run(ms0, evs0, n) && DecidedUpTo(Final(ms0), h, n, a, b) && a < b < n && Complete(h, n)
    ensures Run(ms, evs, n) && DecidedUpTo(Final(ms), h, n, a, b + 1)
  {
    hide Run, DecidedUpTo, PutEdge, Base;
    FinalSym(ms0, evs0, n);
    var m := Final(ms0);
    ms, evs := ms0, evs0;
    if Base(a, b, n) {
      DecideSkip(m, h, n, a, b);
    } else {
      DecideNext(m, h, n, a, b);
      var val := h[a][b] == True;
      var m' := PutEdge(m, n, a, b, h[a][b]);
      assert h[a][b] == if val then True else False;
      RunMore(ms, evs, n, Decide(a, b, val), m');
      ms, evs := ms + [m'], evs + [Decide(a, b, val)];
    }
  }

  /** Every chord before (a, b) has been propagated. */
  ghost predicate PropagatedUpTo(ms: seq<Tri>, evs: seq<Event>, n: nat, a: nat, b: nat) {
    forall x: nat, y: nat :: x < y < n && (x < a || (x == a && y < b)) && Has(Final(ms), x, y) && !Base(x, y, n) ==>
      exists k: nat :: PropagatedAt(ms, evs, x, y, k)
  }

  lemma PropagatedMore(ms: seq<Tri>, evs: seq<Event>, n: nat, a: nat, b: nat, ev: Event)
    requires PropagatedUpTo(ms, evs, n, a, b) && |ms| == |evs| + 1 && b < n
    requires Has(Final(ms), a, b) && !Base(a, b, n) ==> ev == Propagate(a, b)
    ensures PropagatedUpTo(ms + [Final(ms)], evs + [ev], n, a, b + 1)
  {
    hide Has, Base;
    var ms', evs' := ms + [Final(ms)], evs + [ev];
    forall x: nat, y: nat | x < y < n && (x < a || (x == a && y < b + 1)) && Has(Final(ms'), x, y) && !Base(x, y, n)
      ensures exists k: nat :: PropagatedAt(ms', evs', x, y, k)
    {
      if x == a && y == b {
        assert PropagatedAt(ms', evs', x, y, |evs|);
      } else {
        var k: nat :| PropagatedAt(ms, evs, x, y, k);
        assert PropagatedAt(ms', evs', x, y, k);
      }
    }
  }

  lemma PropagatedSkip(ms: seq<Tri>, evs: seq<Event>, n: nat, a: nat, b: nat)
    requires PropagatedUpTo(ms, evs, n, a, b) && !(Has(Final(ms), a, b) && !Base(a, b, n))
    ensures PropagatedUpTo(ms, evs, n, a, b + 1)
  {
    hide Has, Base, PropagatedAt;
  }

  lemma PropagateOne(ms0: seq<Tri>, evs0: seq<Event>, n: nat, a: nat, b: nat) returns (ms: seq<Tri>, evs: seq<Event>)
    requires n >= 3 && Run(ms0, evs0, n) && Complete(Final(ms0), n) && !HasSecond(Final(ms0), n)
    requires PropagatedUpTo(ms0, evs0, n, a, b) && a < b < n
    ensures Run(ms, evs, n) && Final(ms) == Final(ms0) && PropagatedUpTo(ms, evs, n, a, b + 1)
  {
    hide Run, Complete, HasSecond, PropagatedUpTo, Has, Base, Sym, BaseIn, Propagated;
    ms, evs := ms0, evs0;
    var m := Final(ms);
    FinalSym(ms, evs, n);
    if Has(m, a, b) && !Base(a, b, n) {
      FinalBase(ms, evs, n);
      NothingToForce(m, n, a, b);
      PropagatedMore(ms, evs, n, a, b, Propagate(a, b));
      RunMore(ms, evs, n, Propagate(a, b), m);
      ms, evs := ms + [m], evs + [Propagate(a, b)];
    } else {
      PropagatedSkip(ms, evs, n, a, b);
    }
  }

  /** The second run propagates every chord, which changes nothing any more. */
  lemma PropagateRun(ms0: seq<Tri>, evs0: seq<Event>, n: nat) returns (ms: seq<Tri>, evs: seq<Event>)
    requires n >= 3 && Run(ms0, evs0, n) && Complete(Final(ms0), n) && !HasSecond(Final(ms0), n)
    ensures Run(ms, evs, n) && AllPropagated(ms, evs, n) && Final(ms) == Final(ms0)
  {
    hide Run, Complete, HasSecond, PropagatedAt, Has, Base;
    ms, evs := ms0, evs0;
    for a := 0 to n
      invariant Run(ms, evs, n) && Final(ms) == Final(ms0) && PropagatedUpTo(ms, evs, n, a, a + 1)
    {
      for b := a + 1 to n
        invariant Run(ms, evs, n) && Final(ms) == Final(ms0) && PropagatedUpTo(ms, evs, n, a, b)
      {
        ms, evs := PropagateOne(ms, evs, n, a, b);
      }
    }
  }

  lemma SecondEqual(m: Tri, h: Tri, n: nat)
    requires SquareOf(m, n) && SquareOf(h, n)
    requires forall i: nat, j: nat :: i < n && j < n && i != j ==> m[i][j] == h[i][j]
    requires !HasSecond(h, n) && Complete(h, n)
    ensures !HasSecond(m, n) && Complete(m, n) && forall i: nat, j: nat :: Has(m, i, j) == Has(h, i, j)
  {
    hide UsesChord;
    forall c | HamCycle(m, n, c) ensures !UsesChord(c, n) { assert HamCycle(h, n, c); }
  }

  /** Every uniquely Hamiltonian graph on the base cycle is the end of an accepted run. */
  lemma Reached(g: Graph, n: nat) returns (ms: seq<Tri>, evs: seq<Event>)
    requires n >= 3 && UniquelyHamiltonian(g, n)
    ensures Run(ms, evs, n) && AllPropagated(ms, evs, n) && Complete(Final(ms), n)
    ensures forall i: nat, j: nat :: i < n && j < n && i != j ==> GraphOf(Final(ms))(i, j) == g(i, j)
  {
    hide Run, UniquelyHamiltonian, Complete, HasSecond, AllPropagated, Sym, BaseIn, MatrixOf;
    MatrixGraph(g, n);
    MatrixUnique(g, n);
    var h := MatrixOf(g, n);
    ms, evs := DecideRun(h, n);
    SymSize(Final(ms), n);
    SecondEqual(Final(ms), h, n);
    ms, evs := PropagateRun(ms, evs, n);
  }

  lemma SymSize(m: Tri, n: nat)
    requires Sym(m, n)
    ensures SquareOf(m, n)
  {}

  // ---------------------------------------------------------------- exactly one per class

  /** All Hamiltonian cycles have the edges of c. */
  ghost predicate OneCycle(g: Graph, n: nat, c: seq<nat>) {
    && Symmetric(g, n) && CycleOf(g, n, c)
    && forall d :: CycleOf(g, n, d) ==> forall k: nat :: k < n ==>
      exists t: nat :: OnCycle(c, n, t, d[k], d[Next(k, n)])
  }

  lemma BasedCycle(g: Graph, n: nat, c: seq<nat>, d: seq<nat>)
    requires OneCycle(g, n, c) && CycleOf(Permute(g, c), n, d)
    ensures !UsesChord(d, n)
  {
    hide Permute, Symmetric;
    var e := Compose(c, d);
    ComposePerm(c, d, n);
    forall k | 0 <= k < n ensures g(e[k], e[Next(k, n)]) { RenamedAt(g, c, n, d[k], d[Next(k, n)]); }
    assert CycleOf(g, n, e);
    forall k: nat | k < n ensures Base(d[k], d[Next(k, n)], n) {
      var t: nat :| OnCycle(c, n, t, e[k], e[Next(k, n)]);
      assert e[k] == c[d[k]] && e[Next(k, n)] == c[d[Next(k, n)]];
    }
  }

  /** Renamed along its Hamiltonian cycle, such a graph is uniquely Hamiltonian on the base cycle. */
  lemma Based(g: Graph, n: nat, c: seq<nat>)
    requires OneCycle(g, n, c)
    ensures UniquelyHamiltonian(Permute(g, c), n)
  {
    hide OneCycle, Permute, UsesChord;
    assert Symmetric(g, n) && CycleOf(g, n, c) by { OneCycleFacts(g, n, c); }
    forall i: nat, j: nat | i < n && j < n ensures Permute(g, c)(i, j) == Permute(g, c)(j, i) {
      RenamedAt(g, c, n, i, j);
      RenamedAt(g, c, n, j, i);
    }
    forall i: nat | i < n ensures Permute(g, c)(i, Next(i, n)) { RenamedAt(g, c, n, i, Next(i, n)); }
    forall d | CycleOf(Permute(g, c), n, d) ensures !UsesChord(d, n) { BasedCycle(g, n, c, d); }
  }

  lemma OneCycleFacts(g: Graph, n: nat, c: seq<nat>)
    requires OneCycle(g, n, c)
    ensures Symmetric(g, n) && CycleOf(g, n, c) && IsPerm(c, n)
  {}

  /** A solution that is isomorphic to g. */
  ghost predicate Represents(g: Graph, n: nat, ms: seq<Tri>, evs: seq<Event>, q: seq<nat>) {
    Solution(ms, evs, n) && Isomorphic(g, GraphOf(Final(ms)), q, n)
  }

  ghost predicate SameEdges(m: Tri, m': Tri, n: nat) {
    SquareOf(m, n) && SquareOf(m', n) && forall i: nat, j: nat :: i < n && j < n && i != j ==> m[i][j] == m'[i][j]
  }

  /** Every graph with exactly one Hamiltonian cycle has a solution, and all its solutions end with the same edges. */
  lemma ExactlyOne(g: Graph, n: nat, c: seq<nat>)
    requires n >= 3 && OneCycle(g, n, c) && Loopless(g, n)
    ensures exists ms, evs, q :: Represents(g, n, ms, evs, q)
    ensures forall ms, evs, q, ms', evs', q' :: Represents(g, n, ms, evs, q) && Represents(g, n, ms', evs', q') ==>
      SameEdges(Final(ms), Final(ms'), n)
  {
    hide Solution, OneCycle, Isomorphic, SameEdges;
    var ms, evs, q := SolutionExists(g, n, c);
    assert Represents(g, n, ms, evs, q);
    forall ms, evs, q, ms', evs', q' | Represents(g, n, ms, evs, q) && Represents(g, n, ms', evs', q')
      ensures SameEdges(Final(ms), Final(ms'), n)
    {
      SolutionOnce(g, n, ms, evs, q, ms', evs', q');
    }
  }

  /** Some solution is isomorphic to g. */
  lemma SolutionExists(g: Graph, n: nat, c: seq<nat>) returns (ms: seq<Tri>, evs: seq<Event>, q: seq<nat>)
    requires n >= 3 && OneCycle(g, n, c) && Loopless(g, n)
    ensures Solution(ms, evs, n) && Isomorphic(g, GraphOf(Final(ms)), q, n)
  {
    hide OneCycle, UniquelyHamiltonian, Run, AllPropagated, Complete, Permute, LeastUnderGroup, Automorphism;
    Based(g, n, c);
    OneCycleFacts(g, n, c);
    var h := Permute(g, c);
    KeptExists(h, n);
    var p :| Automorphism(p, n) && UniquelyHamiltonian(Permute(h, p), n) && LeastUnderGroup(Permute(h, p), n);
    AutomorphismPerm(p, n);
    ms, evs := Reached(Permute(h, p), n);
    LeastEqual(Permute(h, p), GraphOf(Final(ms)), n);
    q := Compose(c, p);
    ComposePerm(c, p, n);
    forall i: nat, j: nat | i < n && j < n ensures GraphOf(Final(ms))(i, j) == g(q[i], q[j]) {
      RenamedAt(h, p, n, i, j);
      RenamedAt(g, c, n, p[i], p[j]);
      assert i == j ==> !g(q[i], q[j]);
    }
  }

  /** Whether a graph is kept does not depend on loops. */
  lemma LeastEqual(g: Graph, h: Graph, n: nat)
    requires LeastUnderGroup(g, n) && forall i: nat, j: nat :: i < n && j < n && i != j ==> g(i, j) == h(i, j)
    ensures LeastUnderGroup(h, n)
  {
    hide LexLe, Pairs, Automorphism;
    var ps := Pairs(n, UpperTriangleRows);
    PairsPairing(n, UpperTriangleRows);
    StrEqual(g, h, ps, n);
    forall p | Automorphism(p, n) ensures LexLe(Str(h, ps), Str(Permute(h, p), ps)) {
      AutomorphismPerm(p, n);
      PermutedEqual(g, h, p, ps, n);
    }
  }

  lemma StrEqual(g: Graph, h: Graph, ps: seq<(nat, nat)>, n: nat)
    requires forall i: nat, j: nat :: i < n && j < n && i != j ==> g(i, j) == h(i, j)
    requires forall k :: 0 <= k < |ps| ==> ps[k].0 < n && ps[k].1 < n && ps[k].0 != ps[k].1
    ensures Str(g, ps) == Str(h, ps)
  {}

  lemma PermutedEqual(g: Graph, h: Graph, p: seq<nat>, ps: seq<(nat, nat)>, n: nat)
    requires forall i: nat, j: nat :: i < n && j < n && i != j ==> g(i, j) == h(i, j)
    requires forall k :: 0 <= k < |ps| ==> ps[k].0 < n && ps[k].1 < n && ps[k].0 != ps[k].1
    requires IsPerm(p, n)
    ensures Str(Permute(g, p), ps) == Str(Permute(h, p), ps)
  {
    hide Permute;
    forall i: nat, j: nat | i < n && j < n && i != j ensures Permute(g, p)(i, j) == Permute(h, p)(i, j) {
      RenamedAt(g, p, n, i, j);
      RenamedAt(h, p, n, i, j);
      assert p[i] != p[j];
    }
    StrEqual(Permute(g, p), Permute(h, p), ps, n);
  }

  /** Two graphs isomorphic to a third are isomorphic. */
  lemma IsomorphicBoth(g: Graph, h1: Graph, h2: Graph, q1: seq<nat>, q2: seq<nat>, n: nat)
    requires Isomorphic(g, h1, q1, n) && Isomorphic(g, h2, q2, n)
    ensures Isomorphic(h1, h2, Compose(Inverse(q1, n), q2), n)
  {
    var r, q := Inverse(q1, n), Compose(Inverse(q1, n), q2);
    InversePerm(q1, n);
    ComposePerm(r, q2, n);
    forall i: nat, j: nat | i < n && j < n ensures h2(i, j) == h1(q[i], q[j]) {
      assert q[i] == r[q2[i]] && q[j] == r[q2[j]];
      assert h1(q[i], q[j]) == g(q1[q[i]], q1[q[j]]);
    }
  }

  /** Two solutions isomorphic to the same graph end with the same edges. */
  lemma SolutionOnce(g: Graph, n: nat, ms: seq<Tri>, evs: seq<Event>, q: seq<nat>, ms': seq<Tri>, evs': seq<Event>,
      q': seq<nat>)
    requires n >= 3 && Solution(ms, evs, n) && Isomorphic(g, GraphOf(Final(ms)), q, n)
    requires Solution(ms', evs', n) && Isomorphic(g, GraphOf(Final(ms')), q', n)
    ensures SameEdges(Final(ms), Final(ms'), n)
  {
    hide Run, AllPropagated, UniquelyHamiltonian, LeastUnderGroup, Isomorphic;
    SolutionUnique(ms, evs, n);
    SolutionUnique(ms', evs', n);
    var h, h' := GraphOf(Final(ms)), GraphOf(Final(ms'));
    IsomorphicPerm(g, h, q, n);
    IsomorphicBoth(g, h, h', q, q', n);
    KeptUnique(h, h', Compose(Inverse(q, n), q'), n);
    forall i: nat, j: nat | i < n && j < n && i != j ensures Final(ms)[i][j] == Final(ms')[i][j] {
      assert h(i, j) == h'(i, j);
    }
  }

  lemma IsomorphicPerm(g: Graph, h: Graph, q: seq<nat>, n: nat)
    requires Isomorphic(g, h, q, n)
    ensures IsPerm(q, n)
  {}
}
