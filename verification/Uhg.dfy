/** The propagator that forbids second Hamiltonian cycles, over a graph whose edges are only partly decided. */
module Uhg {
  import opened Cnf
  import opened Graphs
  import opened Matrices
  import opened Hamilton
  import opened PathSearch

  function PutEdge(m: Tri, n: nat, i: nat, j: nat, val: LBool): (r: Tri)
    requires SquareOf(m, n) && i < n && j < n
    ensures SquareOf(r, n)
    ensures forall a, b :: 0 <= a < n && 0 <= b < n ==> r[a][b] == if (a == i && b == j) || (a == j && b == i)
      then val else m[a][b]
  {
    var m1 := m[i := m[i][j := val]];
    m1[j := m1[j][i := val]]
  }

  /** Only unknown edges have changed, to absent, and each of them would have closed a second Hamiltonian cycle. */
  ghost predicate Forced(m: Tri, m': Tri, n: nat) {
    && Sym(m, n) && Sym(m', n)
    && forall i: nat, j: nat :: i < n && j < n && i != j && m'[i][j] != m[i][j] ==> ForcedEdge(m, m', n, i, j)
  }

  ghost predicate ForcedEdge(m: Tri, m': Tri, n: nat, i: nat, j: nat)
    requires SquareOf(m, n) && SquareOf(m', n) && i < n && j < n
  {
    m[i][j] == Undef && m'[i][j] == False && ClosesSecond(m, n, i, j)
  }

  lemma ForcedHas(m: Tri, m': Tri, n: nat)
    requires Forced(m, m', n)
    ensures forall i: nat, j: nat :: Has(m', i, j) <==> Has(m, i, j)
  {
    forall i: nat, j: nat ensures Has(m', i, j) <==> Has(m, i, j) {
      if i < n && j < n && i != j && m'[i][j] != m[i][j] { assert ForcedEdge(m, m', n, i, j); }
    }
  }

  lemma ClosesSecondSym(m: Tri, n: nat, i: nat, j: nat)
    requires ClosesSecond(m, n, i, j)
    ensures ClosesSecond(m, n, j, i)
  {
    var c :| CyclePlus(m, n, i, j, c) && UsesChord(c, n);
    assert CyclePlus(m, n, j, i, c);
  }

  /** What excluding one more edge does. */
  lemma ForceStep(m: Tri, cur: Tri, n: nat, i: nat, j: nat)
    requires Forced(m, cur, n) && i < n && j < n && i != j && ClosesSecond(m, n, i, j) && cur[i][j] != True
    ensures Forced(m, PutEdge(cur, n, i, j, False), n)
  {
    hide ClosesSecond;
    ClosesSecondSym(m, n, i, j);
    var m' := PutEdge(cur, n, i, j, False);
    forall a: nat, b: nat | a < n && b < n && a != b && m'[a][b] != m[a][b] ensures ForcedEdge(m, m', n, a, b) {
      if cur[a][b] != m[a][b] { assert ForcedEdge(m, cur, n, a, b); }
    }
  }

  /** Absent edges stay absent. */
  ghost predicate Kept(m: Tri, m': Tri, n: nat) {
    SquareOf(m, n) && SquareOf(m', n) && forall i: nat, j: nat :: i < n && j < n && m[i][j] == False ==>
      m'[i][j] == False
  }

  lemma KeptTrans(m: Tri, m': Tri, m'': Tri, n: nat)
    requires Kept(m, m', n) && Kept(m', m'', n)
    ensures Kept(m, m'', n)
  {}

  lemma KeptRefl(m: Tri, n: nat)
    requires SquareOf(m, n)
    ensures Kept(m, m, n)
  {}

  /** An edge that is present although it closes a second cycle is a contradiction. */
  lemma ForceContradiction(m: Tri, cur: Tri, n: nat, i: nat, j: nat)
    requires Forced(m, cur, n) && i < n && j < n && i != j && ClosesSecond(m, n, i, j) && cur[i][j] == True
    ensures HasSecond(m, n)
  {
    ForcedHas(m, cur, n);
    assert Has(cur, i, j);
    SecondPresent(m, n, i, j);
  }

  lemma ForcedRefl(m: Tri, n: nat)
    requires Sym(m, n)
    ensures Forced(m, m, n)
  {}

  lemma ForcedAdj(m: Tri, m': Tri, n: nat, adj: Adj)
    requires Forced(m, m', n) && AdjOf(adj, m, n)
    ensures AdjOf(adj, m', n) && Sym(m', n) && Sym(m, n)
  {
    ForcedHas(m, m', n);
  }

  lemma ExcludedCloses(cur: Tri, m: Tri, n: nat, p: seq<nat>)
    requires Sym(cur, n) && |p| == n && n >= 1 && p[0] < n && Top(p) < n && m == PutEdge(cur, n, p[0], Top(p), False)
    ensures Closed(m, p) && forall q :: Closed(cur, q) ==> Closed(m, q)
  {}

  lemma AccountedKept(m0: Tri, cur: Tri, m: Tri, n: nat, adj: Adj, x: nat, y: nat, s: Stage)
    requires Accounted(m0, cur, n, adj, x, y, s) && forall q :: Closed(cur, q) ==> Closed(m, q)
    ensures Accounted(m0, m, n, adj, x, y, s)
  {
    hide Pending, Closed;
  }

  class UnknownGraph {
    const n: nat
    var m: Tri

    ghost predicate Valid()
      reads this
    {
      Sym(m, n)
    }

    constructor (n: nat)
      ensures Valid() && this.n == n && forall i: nat, j: nat :: i < n && j < n ==> m[i][j] == Undef
    {
      this.n := n;
      m := seq(n, (i: nat) => seq(n, (j: nat) => Undef));
    }

    /** Instantiates an edge variable; false is the contradiction raised when it already has the other value. */
    method FixEdgeValue(i: nat, j: nat, val: bool) returns (ok: bool)
      requires Valid() && i < n && j < n && i != j
      modifies this
      ensures Valid() && (ok <==> old(m[i][j]) == Undef || old(m[i][j]) == if val then True else False)
      ensures m == if ok then PutEdge(old(m), n, i, j, if val then True else False) else old(m)
    {
      var v := if val then True else False;
      ok := m[i][j] == Undef || m[i][j] == v;
      if ok { m := PutEdge(m, n, i, j, v); }
    }

    predicate HasEdge(u: nat, v: nat)
      reads this
    {
      Has(m, u, v)
    }

    method NeighborsOf(v: nat) returns (ns: seq<nat>)
      requires Valid() && v < n
      ensures Distinct(ns) && forall u: nat :: u in ns <==> Has(m, v, u)
    {
      ns := [];
      for u := 0 to n
        invariant Distinct(ns) && forall w: nat :: w in ns <==> w < u && Has(m, v, w)
      {
        if HasEdge(v, u) { ns := ns + [u]; }
      }
    }

    /** Excludes an edge that would close a second Hamiltonian cycle of the graph `m0`. */
    method Exclude(i: nat, j: nat, ghost m0: Tri) returns (ok: bool)
      requires Forced(m0, m, n) && i < n && j < n && i != j && ClosesSecond(m0, n, i, j)
      modifies this
      ensures ok ==> Forced(m0, m, n) && m == PutEdge(old(m), n, i, j, False)
      ensures !ok ==> m == old(m) && HasSecond(m0, n)
      ensures Kept(old(m), m, n)
    {
      hide ClosesSecond, HasSecond, ForcedEdge;
      if m[i][j] == True { ForceContradiction(m0, m, n, i, j); } else { ForceStep(m0, m, n, i, j); }
      ok := FixEdgeValue(i, j, false);
    }
  }

  method Put<T>(a: array<T>, k: nat, v: T)
    requires k < a.Length
    modifies a
    ensures a[..] == old(a[..])[k := v]
  {
    a[k] := v;
  }

  class PropOptimized {
    const graph: UnknownGraph
    const currentPath: array<nat>
    const degrees: array<int>
    const visited: array<bool>

    ghost predicate Sized() {
      currentPath.Length == degrees.Length == visited.Length == graph.n
    }

    constructor (graph: UnknownGraph)
      ensures this.graph == graph && Sized() && fresh(currentPath) && fresh(degrees) && fresh(visited)
    {
      this.graph := graph;
      currentPath := new nat[graph.n](_ => 0);
      degrees := new int[graph.n](_ => 0);
      visited := new bool[graph.n](_ => false);
    }

    /** The search state with the path ending at index i. */
    ghost function S(i: nat, inds: array<nat>): Stage
      requires i < currentPath.Length
      reads currentPath, degrees, visited, inds
    {
      Stage(currentPath[..i + 1], visited[..], degrees[..], inds[..])
    }

    /** The next index of the top of the path. */
    ghost function Index(i: nat, inds: array<nat>): nat
      reads currentPath, inds
    {
      if i < currentPath.Length && currentPath[i] < inds.Length then inds[currentPath[i]] else 0
    }

    /** The termination measure of the search. */
    ghost function Rank(i: nat, inds: array<nat>, adj: Adj, w: nat): nat
      reads currentPath, degrees, visited, inds
    {
      if i < currentPath.Length then Potential(adj, currentPath.Length, S(i, inds), w) else 0
    }

    ghost function Path(i: nat): seq<nat>
      reads currentPath
    {
      if i < currentPath.Length then currentPath[..i + 1] else []
    }

    lemma Reads(i: nat, inds: array<nat>)
      requires i < currentPath.Length
      ensures var s := S(i, inds);
        && |s.path| == i + 1 && Top(s.path) == currentPath[i]
        && |s.visited| == visited.Length && (forall v :: 0 <= v < visited.Length ==> s.visited[v] == visited[v])
        && |s.degrees| == degrees.Length && (forall v :: 0 <= v < degrees.Length ==> s.degrees[v] == degrees[v])
        && |s.inds| == inds.Length && (forall v :: 0 <= v < inds.Length ==> s.inds[v] == inds[v])
    {}

    // ---------------------------------------------------------------- steps of the search

    /** Adds delta to the residual degree of every unvisited neighbour of u. */
    method Shift(adj: Adj, n: nat, u: nat, delta: int)
      requires degrees.Length == n && visited.Length == n && u < |adj| && Distinct(adj[u])
      requires forall w :: w in adj[u] ==> w < n
      modifies degrees
      ensures Shifted(adj, n, u, visited[..], old(degrees[..]), degrees[..], delta)
    {
      var l := adj[u];
      for k := 0 to |l|
        invariant forall v: nat :: v < n ==> degrees[v] == old(degrees[v]) + if v in l[..k] && !visited[v] then delta
          else 0
      {
        assert l[k] in l && l[k] !in l[..k];
        assert l[..k + 1] == l[..k] + [l[k]];
        if !visited[l[k]] { degrees[l[k]] := degrees[l[k]] + delta; }
      }
      assert l[..|l|] == l;
    }

    /** Some unvisited neighbour of v would have no way on. */
    method MakesNeighborUnreachable(v: nat, adj: Adj, ghost p: seq<nat>) returns (r: bool)
      requires graph.Valid() && Sized() && v < graph.n && AdjOf(adj, graph.m, graph.n)
      requires VisitedOk(graph.n, p, visited[..]) && DegreesOk(adj, graph.n, p, degrees[..]) && |p| >= 2
      ensures r <==> exists w :: w in adj[v] && w !in p && Residual(adj, p, w) < 2
    {
      var ns := graph.NeighborsOf(v);
      for k := 0 to |ns|
        invariant forall j :: 0 <= j < k ==> ns[j] in p || Residual(adj, p, ns[j]) >= 2
      {
        var u := ns[k];
        assert u in ns && Has(graph.m, v, u);
        if !visited[u] && degrees[u] < 2 { return true; }
      }
      return false;
    }
  
    /** Goes on to u, the candidate at the top's next index. */
    method Push(i: nat, u: nat, adj: Adj, inds: array<nat>, ghost m0: Tri, ghost x: nat, ghost y: nat)
      requires Sized() && inds.Length == graph.n && inds != currentPath && 1 <= i && i + 1 < graph.n
      requires Sym(m0, graph.n) && AdjOf(adj, m0, graph.n) && StageOk(m0, graph.n, adj, x, y, S(i, inds))
      requires u < graph.n && !visited[u] && Has(m0, currentPath[i], u) && inds[currentPath[i]] < |adj[currentPath[i]]|
      modifies currentPath, degrees, visited, inds
      ensures currentPath[..i + 2] == old(currentPath[..i + 1]) + [u]
      ensures inds[..] == old(inds[..])[u := 0][old(currentPath[i]) := old(inds[currentPath[i]]) + 1]
      ensures StageOk(m0, graph.n, adj, x, y, S(i + 1, inds))
    {
      hide Sym, AdjOf, PathOk, VisitedOk, DegreesOk, IndsOk, Residual;
      ghost var n, p, d := graph.n, currentPath[..i + 1], degrees[..];
      Reads(i, inds);
      TopBelow(m0, n, adj, x, y, S(i, inds));
      PushFacts(m0, n, adj, x, y, S(i, inds), u);
      var v := currentPath[i];
      Put(visited, u, true);
      Put(currentPath, i + 1, u);
      assert currentPath[..i + 2] == p + [u];
      Put(inds, u, 0);
      Shift(adj, graph.n, u, -1);
      Put(inds, v, inds[v] + 1);
      PushDegrees(m0, n, adj, p, u, visited[..], d, degrees[..]);
    }

    /** Steps back from an exhausted vertex. */
    method Leave(i: nat, adj: Adj, inds: array<nat>, ghost m0: Tri, ghost x: nat, ghost y: nat)
      requires Sized() && inds.Length == graph.n && inds != currentPath && 1 <= i < graph.n
      requires Sym(m0, graph.n) && AdjOf(adj, m0, graph.n) && StageOk(m0, graph.n, adj, x, y, S(i, inds))
      modifies currentPath, degrees, visited
      ensures currentPath[..i] == old(currentPath[..i])
      ensures StageOk(m0, graph.n, adj, x, y, S(i - 1, inds))
    {
      hide Sym, AdjOf, PathOk, VisitedOk, DegreesOk, IndsOk, Residual;
      ghost var n, p, d := graph.n, currentPath[..i], degrees[..];
      assert currentPath[..i + 1] == p + [currentPath[i]];
      LeaveFacts(m0, n, adj, x, y, S(i, inds), p);
      var v := currentPath[i];
      Put(visited, v, false);
      Put(currentPath, i, 0);
      assert currentPath[..i] == p;
      Shift(adj, graph.n, v, 1);
      LeaveDegrees(m0, n, adj, x, y, p, v, visited[..], d, degrees[..]);
    }

    /** Steps back from the end of a complete path; no unvisited vertex is left whose degree could change. */
    method LeaveFull(i: nat, adj: Adj, inds: array<nat>, ghost m0: Tri, ghost x: nat, ghost y: nat)
      requires Sized() && inds.Length == graph.n && i + 1 == graph.n && i >= 2
      requires Sym(m0, graph.n) && AdjOf(adj, m0, graph.n) && StageOk(m0, graph.n, adj, x, y, S(i, inds))
      modifies visited
      ensures StageOk(m0, graph.n, adj, x, y, S(i - 1, inds))
    {
      hide Sym, AdjOf, PathOk, VisitedOk, DegreesOk, IndsOk, Residual;
      ghost var n, p, d := graph.n, currentPath[..i], degrees[..];
      assert currentPath[..i + 1] == p + [currentPath[i]];
      LeaveFacts(m0, n, adj, x, y, S(i, inds), p);
      FullIsPerm(m0, n, x, y, p + [currentPath[i]]);
      var v := currentPath[i];
      Put(visited, v, false);
      FullShift(m0, n, adj, p, v, visited[..], d);
      LeaveDegrees(m0, n, adj, x, y, p, v, visited[..], d, d);
    }
  
    /** Looks for neighbours of the top with residual degree 0 or 1: the prefix is dead, or these are the candidates. */
    method Scan(i: nat, adj: Adj, inds: array<nat>, ghost m0: Tri, ghost x: nat, ghost y: nat) returns (ns: seq<nat>)
      requires Sized() && inds.Length == graph.n && inds != currentPath && 1 <= i && i + 2 < graph.n
      requires Sym(m0, graph.n) && AdjOf(adj, m0, graph.n) && StageOk(m0, graph.n, adj, x, y, S(i, inds))
      modifies inds
      ensures var p, v := currentPath[..i + 1], currentPath[i];
        || (inds[..] == old(inds[..]) && ns == Candidates(adj, graph.n, p))
        || (Dead(adj, graph.n, p) && inds[..] == old(inds[..])[v := |adj[v]|] && |ns| <= |adj[v]|)
    {
      hide Sym, AdjOf, PathOk, VisitedOk, DegreesOk, IndsOk, Residual, Ones, Candidates;
      ghost var p := currentPath[..i + 1];
      Reads(i, inds);
      TopBelow(m0, graph.n, adj, x, y, S(i, inds));
      NeighboursKnown(m0, graph.n, adj, x, y, S(i, inds));
      var v := currentPath[i];
      ns := adj[v];
      ghost var dead := false;
      var count, w1, w2 := 0, 0, 0;
      OnesNone(adj, p, ns);
      var k := 0;
      while k < |ns|
        invariant k <= |ns| && ns == adj[v] && count <= 2 && !dead && inds[..] == old(inds[..])
        invariant Ones(adj, ns[..k], p) == Found(count, w1, w2)
      {
        var z := ns[k];
        assert z in ns && ns[..k + 1] == ns[..k] + [z];
        OnesSnoc(adj, ns[..k], p, z);
        OnesMonotone(adj, ns, p, k + 1);
        if !visited[z] && degrees[z] == 0 {
          assert Isolated(adj, adj[v], p);
          dead := true;
          Put(inds, v, |ns|);
          break;
        } else if !visited[z] && degrees[z] == 1 {
          count := count + 1;
          if count >= 3 {
            dead := true;
            Put(inds, v, |ns|);
            break;
          }
          if count == 1 { w1 := z; } else { w2 := z; }
        }
        k := k + 1;
      }
      if !dead {
        assert ns[..k] == adj[v];
        CandidatesFound(adj, graph.n, p, count, w1, w2);
      }
      if count == 2 {
        OnesMonotone(adj, ns, p, k);
        ns := [w1, w2];
      }
    }
  
    /** The search invariant: a proper state in which every Hamiltonian path from the edge is accounted for. */
    ghost predicate Live(i: nat, inds: array<nat>, adj: Adj, m0: Tri, x: nat, y: nat)
      reads graph, currentPath, degrees, visited, inds
    {
      && Sized() && i < graph.n && inds.Length == graph.n && inds != currentPath
      && Forced(m0, graph.m, graph.n) && AdjOf(adj, m0, graph.n)
      && StageOk(m0, graph.n, adj, x, y, S(i, inds)) && Accounted(m0, graph.m, graph.n, adj, x, y, S(i, inds))
    }

    /** Tries the top's remaining candidates until it can go on to one. */
    method Advance(i: nat, ns: seq<nat>, adj: Adj, inds: array<nat>, ghost m0: Tri, ghost x: nat, ghost y: nat,
        ghost w: nat)
      returns (foundNext: bool)
      requires Live(i, inds, adj, m0, x, y) && 1 <= i && i + 1 < graph.n && Wide(adj, w)
      requires ns == Candidates(adj, graph.n, Path(i))
        || (Index(i, inds) >= |ns| && Index(i, inds) >= |Candidates(adj, graph.n, Path(i))|)
      modifies currentPath, degrees, visited, inds
      ensures foundNext ==> Live(i + 1, inds, adj, m0, x, y) && Rank(i + 1, inds, adj, w) < old(Rank(i, inds, adj, w))
      ensures !foundNext ==> Live(i, inds, adj, m0, x, y) && Rank(i, inds, adj, w) <= old(Rank(i, inds, adj, w))
      ensures !foundNext ==> Index(i, inds) >= |Candidates(adj, graph.n, Path(i))|
    {
      hide Sym, AdjOf, StageOk, Accounted, Forced, Residual, Candidates, Wide, Rank;
      foundNext := false;
      ghost var p := Path(i);
      var v := currentPath[i];
      TopBelow(m0, graph.n, adj, x, y, S(i, inds));
      Reads(i, inds);
      while inds[v] < |ns| && !foundNext
        invariant v < inds.Length
        invariant foundNext ==>
          Live(i + 1, inds, adj, m0, x, y) && Rank(i + 1, inds, adj, w) < old(Rank(i, inds, adj, w))
        invariant !foundNext ==> Live(i, inds, adj, m0, x, y) && Rank(i, inds, adj, w) <= old(Rank(i, inds, adj, w))
        invariant !foundNext ==> Path(i) == p && currentPath[i] == v
        invariant ns == Candidates(adj, graph.n, p)
          || (!foundNext && inds[v] >= |ns| && inds[v] >= |Candidates(adj, graph.n, p)|)
        decreases !foundNext, |ns| - inds[v]
      {
        foundNext := TryNext(i, ns, adj, inds, m0, x, y, w);
      }
    }

    /** One candidate: either the path goes on to it, or no Hamiltonian path does. */
    method TryNext(i: nat, ns: seq<nat>, adj: Adj, inds: array<nat>, ghost m0: Tri, ghost x: nat, ghost y: nat,
        ghost w: nat)
      returns (found: bool)
      requires Live(i, inds, adj, m0, x, y) && 1 <= i && i + 1 < graph.n && Wide(adj, w)
      requires ns == Candidates(adj, graph.n, Path(i)) && Index(i, inds) < |ns|
      modifies currentPath, degrees, visited, inds
      ensures found ==> Live(i + 1, inds, adj, m0, x, y) && Rank(i + 1, inds, adj, w) < old(Rank(i, inds, adj, w))
      ensures !found ==> Live(i, inds, adj, m0, x, y) && Rank(i, inds, adj, w) <= old(Rank(i, inds, adj, w))
      ensures !found ==>
        Path(i) == old(Path(i)) && currentPath[i] == old(currentPath[i]) && Index(i, inds) == old(Index(i, inds)) + 1
    {
      hide Sym, AdjOf, PathOk, VisitedOk, DegreesOk, IndsOk, Accounted, Forced, Residual, Candidates, Potential, Wide;
      ghost var n, s := graph.n, S(i, inds);
      var v := currentPath[i];
      TopBelow(m0, n, adj, x, y, s);
      Reads(i, inds);
      var u := ns[inds[v]];
      ForcedAdj(m0, graph.m, n, adj);
      CandidateKnown(m0, n, adj, x, y, s);
      WideAt(adj, w, u);
      var skip := visited[u];
      if !skip && i + 3 < graph.n { skip := MakesNeighborUnreachable(u, adj, s.path); }
      if skip {
        Put(inds, v, inds[v] + 1);
        SkipCandidate(m0, n, adj, x, y, s.path, s.inds[v]);
        SkipAccounted(m0, graph.m, n, adj, x, y, s, S(i, inds), s.inds[v] + 1);
        SkipInds(adj, n, s.path, s.inds, s.inds[v] + 1);
        PotentialSkip(adj, n, s, S(i, inds), w, s.inds[v] + 1);
      } else {
        Push(i, u, adj, inds, m0, x, y);
        PushAccounted(m0, graph.m, n, adj, x, y, s, S(i + 1, inds), u);
        PotentialPush(adj, n, s, S(i + 1, inds), u, w);
      }
      found := !skip;
    }
  
    /** A complete path is kept from closing to a cycle, and left. */
    method CloseFull(i: nat, adj: Adj, inds: array<nat>, ghost m0: Tri, ghost x: nat, ghost y: nat, ghost w: nat)
      returns (ok: bool)
      requires Live(i, inds, adj, m0, x, y) && i + 1 == graph.n && graph.n >= 3 && !Base(x, y, graph.n)
      modifies graph, visited
      ensures ok ==> Live(i - 1, inds, adj, m0, x, y) && Rank(i - 1, inds, adj, w) <= old(Rank(i, inds, adj, w))
      ensures !ok ==> HasSecond(m0, graph.n)
      ensures Kept(old(graph.m), graph.m, graph.n)
    {
      hide Sym, AdjOf, VisitedOk, DegreesOk, IndsOk, PathOk, Accounted, Forced, Residual, Candidates, Potential;
      hide ClosesSecond, HasSecond, Kept;
      ghost var n, s, cur := graph.n, S(i, inds), graph.m;
      TopBelow(m0, n, adj, x, y, s);
      Reads(i, inds);
      assert s.path[0] == currentPath[0];
      FullPath(m0, n, x, y, s.path);
      ForcedAdj(m0, cur, n, adj);
      ok := graph.Exclude(currentPath[0], currentPath[i], m0);
      if !ok { return; }
      ExcludedCloses(cur, graph.m, n, s.path);
      AccountedKept(m0, cur, graph.m, n, adj, x, y, s);
      LeaveFull(i, adj, inds, m0, x, y);
      PopAccounted(m0, graph.m, n, adj, x, y, s, S(i - 1, inds));
      PotentialPop(adj, n, s, S(i - 1, inds), w);
    }

    /** The scan before the candidates are tried: a dead prefix loses nothing. */
    method Prune(i: nat, adj: Adj, inds: array<nat>, ghost m0: Tri, ghost x: nat, ghost y: nat, ghost w: nat)
      returns (ns: seq<nat>)
      requires Live(i, inds, adj, m0, x, y) && 1 <= i && i + 2 < graph.n
      modifies inds
      ensures Live(i, inds, adj, m0, x, y) && Rank(i, inds, adj, w) <= old(Rank(i, inds, adj, w))
      ensures ns == Candidates(adj, graph.n, Path(i))
        || (Index(i, inds) >= |ns| && Index(i, inds) >= |Candidates(adj, graph.n, Path(i))|)
    {
      hide Sym, AdjOf, VisitedOk, DegreesOk, IndsOk, PathOk, Accounted, Forced, Residual, Candidates, Potential, Dead;
      ghost var n, s := graph.n, S(i, inds);
      TopBelow(m0, n, adj, x, y, s);
      Reads(i, inds);
      ForcedAdj(m0, graph.m, n, adj);
      ns := Scan(i, adj, inds, m0, x, y);
      if s.inds == inds[..] {
        assert S(i, inds) == s;
      } else {
        var v := currentPath[i];
        SkipDead(m0, n, adj, x, y, s.path);
        SkipAccounted(m0, graph.m, n, adj, x, y, s, S(i, inds), |adj[v]|);
        SkipInds(adj, n, s.path, s.inds, |adj[v]|);
        PotentialSkip(adj, n, s, S(i, inds), w, |adj[v]|);
      }
      Reads(i, inds);
      CandidatesFew(adj, n, s.path);
    }

    method Retreat(i: nat, adj: Adj, inds: array<nat>, ghost m0: Tri, ghost x: nat, ghost y: nat, ghost w: nat)
      requires Live(i, inds, adj, m0, x, y) && 1 <= i && i + 1 < graph.n
      requires Index(i, inds) >= |Candidates(adj, graph.n, Path(i))|
      modifies currentPath, degrees, visited
      ensures Live(i - 1, inds, adj, m0, x, y) && Rank(i - 1, inds, adj, w) <= old(Rank(i, inds, adj, w))
    {
      hide Sym, AdjOf, VisitedOk, DegreesOk, IndsOk, PathOk, Accounted, Forced, Residual, Candidates, Potential;
      ghost var n, s := graph.n, S(i, inds);
      TopBelow(m0, n, adj, x, y, s);
      Reads(i, inds);
      ForcedAdj(m0, graph.m, n, adj);
      Leave(i, adj, inds, m0, x, y);
      assert S(i - 1, inds).path == s.path[..|s.path| - 1];
      PopAccounted(m0, graph.m, n, adj, x, y, s, S(i - 1, inds));
      PotentialPop(adj, n, s, S(i - 1, inds), w);
    }

    /** One round of the search loop. */
    method Round(i: nat, adj: Adj, inds: array<nat>, ghost m0: Tri, ghost x: nat, ghost y: nat, ghost w: nat)
      returns (ok: bool, i': nat)
      requires Live(i, inds, adj, m0, x, y) && 1 <= i && graph.n >= 4 && !Base(x, y, graph.n) && Wide(adj, w)
      modifies graph, currentPath, degrees, visited, inds
      ensures ok ==> Live(i', inds, adj, m0, x, y)
      ensures ok ==>
        Rank(i', inds, adj, w) < old(Rank(i, inds, adj, w))
        || (Rank(i', inds, adj, w) == old(Rank(i, inds, adj, w)) && i' < i)
      ensures !ok ==> HasSecond(m0, graph.n)
      ensures Kept(old(graph.m), graph.m, graph.n)
    {
      hide Sym, AdjOf, StageOk, Accounted, Forced, Residual, Candidates, Wide, Rank, HasSecond, Kept;
      ForcedSym(m0, graph.m, graph.n);
      KeptRefl(graph.m, graph.n);
      i' := i;
      if i' == graph.n - 1 {
        ok := CloseFull(i', adj, inds, m0, x, y, w);
        if !ok { return; }
        i' := i' - 1;
      }
      TopBelow(m0, graph.n, adj, x, y, S(i', inds));
      CandidatesLast(adj, graph.n, Path(i'));
      var ns := adj[currentPath[i']];
      if i' < graph.n - 2 { ns := Prune(i', adj, inds, m0, x, y, w); }
      var foundNext := Advance(i', ns, adj, inds, m0, x, y, w);
      if foundNext {
        i' := i' + 1;
      } else {
        Retreat(i', adj, inds, m0, x, y, w);
        i' := i' - 1;
      }
      ok := true;
    }

    /**
     * Visits every Hamiltonian path from the edge xy and keeps it from closing; false reports a second Hamiltonian
     * cycle.
     */
    method SearchPaths(adj: Adj, inds: array<nat>, ghost m0: Tri, ghost x: nat, ghost y: nat, ghost w: nat)
      returns (ok: bool)
      requires Live(1, inds, adj, m0, x, y) && graph.n >= 4 && !Base(x, y, graph.n) && Wide(adj, w)
      modifies graph, currentPath, degrees, visited, inds
      ensures ok ==> Forced(m0, graph.m, graph.n) && forall q :: HamPath(m0, graph.n, x, y, q) ==> Closed(graph.m, q)
      ensures !ok ==> HasSecond(m0, graph.n)
      ensures Kept(old(graph.m), graph.m, graph.n)
    {
      hide Sym, AdjOf, StageOk, Accounted, Forced, Wide, Rank, HasSecond, Kept;
      ForcedSym(m0, graph.m, graph.n);
      KeptRefl(graph.m, graph.n);
      var i := 1;
      while i > 0
        invariant Live(i, inds, adj, m0, x, y) && Kept(old(graph.m), graph.m, graph.n)
        decreases Rank(i, inds, adj, w), i
      {
        ghost var cur := graph.m;
        ok, i := Round(i, adj, inds, m0, x, y, w);
        KeptTrans(old(graph.m), cur, graph.m, graph.n);
        if !ok { return; }
      }
      EndAccounted(m0, graph.m, graph.n, adj, x, y, S(0, inds));
      ok := true;
    }
  
    // ---------------------------------------------------------------- preparing the search

    /** Sorts vertices by decreasing degree, in place, by exchanging neighbours. */
    method SortByDegrees(arr: array<nat>)
      requires arr != currentPath && forall u :: u in arr[..] ==> u < degrees.Length
      modifies arr
      ensures Rearranged(old(arr[..]), arr[..]) && Falling(arr[..], degrees[..], 0)
    {
      hide Rearranged, Falling;
      ghost var l := arr[..];
      RearrangedRefl(l);
      FallingEmpty(l, degrees[..]);
      var i := 0;
      while i < arr.Length
        invariant i <= arr.Length && Rearranged(l, arr[..]) && Falling(arr[..], degrees[..], arr.Length - i)
      {
        var swapped := SortPass(arr, i, l);
        i := i + 1;
        if !swapped {
          FallingByNeighbours(arr[..], degrees[..]);
          return;
        }
      }
    }

    /** One pass moves the least degree of the unsorted part to its end. */
    method SortPass(arr: array<nat>, i: nat, ghost l: seq<nat>) returns (swapped: bool)
      requires arr != currentPath && i < arr.Length && Rearranged(l, arr[..])
      requires forall u :: u in l ==> u < degrees.Length
      requires Falling(arr[..], degrees[..], arr.Length - i)
      modifies arr
      ensures Rearranged(l, arr[..]) && Falling(arr[..], degrees[..], arr.Length - i - 1)
      ensures !swapped ==> NoAscent(arr[..], degrees[..], arr.Length - i - 1)
      ensures !swapped ==> forall a :: 0 <= a < arr.Length - 1 ==>
        Deg(degrees[..], arr[a]) >= Deg(degrees[..], arr[a + 1])
    {
      hide Rearranged, Falling, NoAscent, LowestAt, Exchanged;
      swapped := false;
      PassStart(arr[..], degrees[..]);
      for j := 0 to arr.Length - i - 1
        invariant Rearranged(l, arr[..]) && Falling(arr[..], degrees[..], arr.Length - i)
        invariant LowestAt(arr[..], degrees[..], j)
        invariant !swapped ==> NoAscent(arr[..], degrees[..], j)
      {
        RearrangedIn(l, arr[..], j);
        if degrees[arr[j]] < degrees[arr[j + 1]] {
          ExchangeKeeps(l, arr[..], j);
          ExchangeLeast(arr[..], degrees[..], j, arr.Length - i);
          Exchange(arr, j);
          swapped := true;
        } else {
          StayLeast(arr[..], degrees[..], j);
        }
      }
      PassEnd(arr[..], degrees[..], arr.Length - i - 1);
    }

    method Exchange(arr: array<nat>, j: nat)
      requires j + 1 < arr.Length
      modifies arr
      ensures arr[..] == Exchanged(old(arr[..]), j)
    {
      arr[j], arr[j + 1] := arr[j + 1], arr[j];
    }
  
    /** Neighbour lists and degrees of the present edges, the degrees less the neighbours on the first edge. */
    method Prepare(x: nat, y: nat) returns (adj: Adj)
      requires graph.Valid() && Sized() && x < graph.n && y < graph.n && x != y && Has(graph.m, x, y)
      modifies currentPath, degrees, visited
      ensures AdjOf(adj, graph.m, graph.n) && graph.n >= 2 && Path(1) == [x, y]
      ensures VisitedOk(graph.n, [x, y], visited[..]) && DegreesOk(adj, graph.n, [x, y], degrees[..])
    {
      hide Sym;
      MarkEdge(x, y);
      var lists := Lists();
      ghost var d0 := degrees[..];
      ListsOk(lists, graph.m, graph.n);
      Shift(lists, graph.n, x, -1);
      ghost var d1 := degrees[..];
      Shift(lists, graph.n, y, -1);
      adj := SortAll(lists);
      StartDegrees(graph.m, graph.n, lists, adj, x, y, visited[..], d0, d1, degrees[..]);
    }

    method MarkEdge(x: nat, y: nat)
      requires Sized() && x < graph.n && y < graph.n && x != y && graph.n >= 2
      modifies currentPath, visited
      ensures Path(1) == [x, y] && VisitedOk(graph.n, [x, y], visited[..])
    {
      for k := 0 to graph.n
        invariant forall j :: 0 <= j < k ==> !visited[j] && currentPath[j] == 0
      {
        visited[k] := false;
        currentPath[k] := 0;
      }
      visited[x], visited[y] := true, true;
      currentPath[0], currentPath[1] := x, y;
    }

    method Lists() returns (lists: Adj)
      requires graph.Valid() && Sized()
      modifies degrees
      ensures AdjOf(lists, graph.m, graph.n) && forall v :: 0 <= v < graph.n ==> degrees[v] == |lists[v]|
    {
      lists := [];
      for i := 0 to graph.n
        invariant |lists| == i
        invariant forall v: nat :: v < i ==> Distinct(lists[v]) && forall u: nat :: u in lists[v] <==>
          Has(graph.m, v, u)
        invariant forall v :: 0 <= v < i ==> degrees[v] == |lists[v]|
      {
        var ns := graph.NeighborsOf(i);
        lists := lists + [ns];
        degrees[i] := |ns|;
      }
    }

    method SortAll(lists: Adj) returns (adj: Adj)
      requires graph.Valid() && Sized() && AdjOf(lists, graph.m, graph.n)
      ensures AdjOf(adj, graph.m, graph.n)
      ensures forall v :: 0 <= v < graph.n ==> Rearranged(lists[v], adj[v]) && Falling(adj[v], degrees[..], 0)
    {
      hide Sym, Falling;
      ListsOk(lists, graph.m, graph.n);
      adj := [];
      for i := 0 to graph.n
        invariant |adj| == i
        invariant forall v :: 0 <= v < i ==> Rearranged(lists[v], adj[v]) && Falling(adj[v], degrees[..], 0)
      {
        var l := lists[i];
        var arr := new nat[|l|](k requires 0 <= k < |l| => l[k]);
        assert arr[..] == l;
        SortByDegrees(arr);
        adj := adj + [arr[..]];
      }
    }

    // ---------------------------------------------------------------- the propagator

    /** Rule 1: with the chord xy, the edge from x + 1 to y + 1 is excluded. */
    method ApplyRule1(x: nat, y: nat, ghost m0: Tri) returns (ok: bool)
      requires Chord(m0, x, y) && Forced(m0, graph.m, graph.n)
      modifies graph
      ensures ok ==> Forced(m0, graph.m, graph.n) && Rule1Done(graph.m, graph.n, x, y)
      ensures !ok ==> HasSecond(m0, graph.n)
      ensures Kept(old(graph.m), graph.m, graph.n)
    {
      hide ClosesSecond, HasSecond, ForcedEdge, Mod;
      var n := graph.n;
      Rule1(m0, n, x, y);
      ModNext(y, n);
      ModNext(x, n);
      ModSmall(x, n);
      ModSmall(y, n);
      ok := graph.Exclude(Mod(x + 1, n), Mod(y + 1, n), m0);
    }

    /**
     * Rule 2: with the chord xy and an edge from y + k to y - 1, the edge from x + 1 to y + k + 1 is to be excluded.
     * The guard is tested before the index has wrapped around, so with y + 2 < n nothing happens at all.
     */
    method ApplyRule2(x: nat, y: nat, ghost m0: Tri) returns (ok: bool)
      requires Chord(m0, x, y) && Forced(m0, graph.m, graph.n)
      modifies graph
      ensures ok ==> Forced(m0, graph.m, graph.n) && Rule2Done(m0, graph.m, graph.n, x, y, x)
      ensures !ok ==> HasSecond(m0, graph.n)
      ensures Kept(old(graph.m), graph.m, graph.n)
      ensures y + 2 < graph.n ==> ok && graph.m == old(graph.m)
      ensures ok ==> (Rule2All(m0, graph.m, graph.n, x, y) <==>
        y + 2 >= graph.n || Rule2All(m0, old(graph.m), graph.n, x, y))
    {
      hide ClosesSecond, HasSecond, ForcedEdge, Mod, Kept;
      var n := graph.n;
      var k := 1;
      KeptRefl(graph.m, n);
      Rule2Start(y, n);
      while Mod(y + k + 1, n) < x
        invariant y + 2 < n ==> k == 1 && graph.m == old(graph.m)
        invariant k >= 1 && Forced(m0, graph.m, n) && Kept(old(graph.m), graph.m, n)
        invariant 0 <= Mod(y + k + 1, n)
        invariant (Mod(y + k + 1, n) <= x ==> Rule2Done(m0, graph.m, n, x, y, Mod(y + k + 1, n)))
        invariant Mod(y + k + 1, n) <= x || (k == 1 && y + 2 < n)
        decreases x - Mod(y + k + 1, n)
      {
        var z1 := Mod(y + k + 1, n);
        ModNext(y + k, n);
        ModNext(y + k + 1, n);
        ModNext(x, n);
        ModSmall(x, n);
        ModSmall(y - 1, n);
        ForcedHas(m0, graph.m, n);
        ghost var cur := graph.m;
        if graph.HasEdge(Mod(y + k, n), Mod(y - 1, n)) {
          Rule2(m0, n, x, y, z1);
          ok := graph.Exclude(Mod(x + 1, n), z1, m0);
          KeptTrans(old(graph.m), cur, graph.m, n);
          if !ok { return; }
          Rule2Kept(m0, cur, graph.m, n, x, y, z1);
        }
        k := k + 1;
      }
      ok := true;
    }

    /** Rule 3: with the chord xy and an edge from y - k to y + 1, the edge from x - 1 to y - k - 1 is excluded. */
    method ApplyRule3(x: nat, y: nat, ghost m0: Tri) returns (ok: bool)
      requires Chord(m0, x, y) && Forced(m0, graph.m, graph.n)
      modifies graph
      ensures ok ==> Forced(m0, graph.m, graph.n) && Rule3Done(m0, graph.m, graph.n, x, y, x + 1)
      ensures !ok ==> HasSecond(m0, graph.n)
      ensures Kept(old(graph.m), graph.m, graph.n)
    {
      hide HasSecond, Forced, Mod, Kept, Has, BaseIn, Base, IsAbsent;
      var n := graph.n;
      var k := 1;
      ForcedSym(m0, graph.m, n);
      KeptRefl(graph.m, n);
      ChordSize(x, y, n);
      ModSmall(y - k - 1, n);
      while Mod(y - k - 1, n) > x
        invariant 1 <= k < y - x && Forced(m0, graph.m, n) && Mod(y - k - 1, n) == y - k - 1
        invariant Kept(old(graph.m), graph.m, n) && Rule3Done(m0, graph.m, n, x, y, y - k)
        decreases y - k
      {
        ghost var cur := graph.m;
        ok := ApplyRule3At(x, y, k, m0);
        KeptTrans(old(graph.m), cur, graph.m, n);
        if !ok { return; }
        k := k + 1;
        ModSmall(y - k - 1, n);
      }
      ok := true;
    }

    /** One step of the loop of rule 3. */
    method ApplyRule3At(x: nat, y: nat, k: nat, ghost m0: Tri) returns (ok: bool)
      requires Chord(m0, x, y) && Forced(m0, graph.m, graph.n) && 1 <= k && x < y - k - 1
      requires Rule3Done(m0, graph.m, graph.n, x, y, y - k)
      modifies graph
      ensures ok ==> Forced(m0, graph.m, graph.n) && Rule3Done(m0, graph.m, graph.n, x, y, y - k - 1)
      ensures !ok ==> HasSecond(m0, graph.n)
      ensures Kept(old(graph.m), graph.m, graph.n)
    {
      hide ClosesSecond, HasSecond, ForcedEdge, Mod, Kept;
      var n := graph.n;
      ModSmall(y - k - 1, n);
      ModSmall(y - k, n);
      ModNext(y, n);
      ModSmall(y, n);
      ModBefore(x, n);
      ForcedHas(m0, graph.m, n);
      ghost var cur := graph.m;
      KeptRefl(cur, n);
      ok := true;
      if graph.HasEdge(Mod(y - k, n), Mod(y + 1, n)) {
        Rule3(m0, n, x, y, y - k);
        ok := graph.Exclude(Mod(x - 1, n), Mod(y - k - 1, n), m0);
        if ok { Rule3Kept(m0, cur, graph.m, n, x, y, y - k); }
      }
    }

    method SearchFrom(x: nat, y: nat, ghost m0: Tri) returns (ok: bool)
      requires Sized() && Chord(m0, x, y) && Forced(m0, graph.m, graph.n)
      modifies graph, currentPath, degrees, visited
      ensures ok ==> Forced(m0, graph.m, graph.n) && forall q :: HamPath(m0, graph.n, x, y, q) ==> Closed(graph.m, q)
      ensures !ok ==> HasSecond(m0, graph.n)
      ensures Kept(old(graph.m), graph.m, graph.n)
    {
      hide Sym, AdjOf, DegreesOk, HasSecond, Closed, HamPath, Accounted, Wide, ForcedEdge, Kept;
      ForcedHas(m0, graph.m, graph.n);
      ForcedSym(m0, graph.m, graph.n);
      var adj := Prepare(x, y);
      AdjSame(adj, graph.m, m0, graph.n);
      AdjSize(adj, m0, graph.n);
      var inds := new nat[graph.n](_ => 0);
      StartAccounted(m0, graph.m, graph.n, adj, x, y, S(1, inds));
      WidthWide(adj);
      ok := SearchPaths(adj, inds, m0, x, y, Width(adj));
    }

    /** A present edge x < y off the base cycle, in a graph that contains the base cycle. */
    ghost predicate Chord(m0: Tri, x: nat, y: nat) {
      Sym(m0, graph.n) && BaseIn(m0, graph.n) && x < y < graph.n && Has(m0, x, y) && !Base(x, y, graph.n)
        && graph.n >= 4
    }

    /**
     * Propagates one edge set to present. Without contradiction, every Hamiltonian path that starts with it cannot
     * close any more; every edge excluded would have closed a second Hamiltonian cycle, and a contradiction means that
     * the graph already has one.
     */
    method PropagateEdge(x: nat, y: nat) returns (ok: bool)
      requires graph.Valid() && Sized() && BaseIn(graph.m, graph.n) && x < y < graph.n && graph.n >= 3
      modifies graph, currentPath, degrees, visited
      ensures ok ==> Propagated(old(graph.m), graph.m, graph.n, x, y) && BaseIn(graph.m, graph.n)
      ensures ok ==> Kept(old(graph.m), graph.m, graph.n)
      ensures !ok ==> HasSecond(old(graph.m), graph.n)
    {
      hide ClosesSecond, HasSecond, ForcedEdge, AdjOf, Closed, HamPath, CycleDist, Kept;
      ghost var m0 := graph.m;
      ForcedRefl(m0, graph.n);
      KeptRefl(m0, graph.n);
      if !graph.HasEdge(x, y) { return true; }
      CycleDistBase(x, y, graph.n);
      if CycleDist(x, y, graph.n) == 1 { return true; }
      ChordSize(x, y, graph.n);
      ok := ApplyRule1(x, y, m0);
      if !ok { return; }
      ghost var m1 := graph.m;
      ok := ApplyRule2(x, y, m0);
      if !ok { return; }
      ghost var m2 := graph.m;
      ok := ApplyRule3(x, y, m0);
      if !ok { return; }
      ghost var m3 := graph.m;
      ok := SearchFrom(x, y, m0);
      if !ok { return; }
      KeptFour(m0, m1, m2, m3, graph.m, graph.n);
      RulesKept(m0, m1, m2, m3, graph.m, graph.n, x, y);
      ForcedBase(m0, graph.m, graph.n);
    }
  
    /** Propagates every present chord: a contradiction is reported exactly if there is a second Hamiltonian cycle. */
    method PropagateAll() returns (ok: bool)
      requires graph.Valid() && Sized() && BaseIn(graph.m, graph.n) && graph.n >= 3
      modifies graph, currentPath, degrees, visited
      ensures ok <==> !HasSecond(old(graph.m), graph.n)
      ensures ok ==> Forced(old(graph.m), graph.m, graph.n) && BaseIn(graph.m, graph.n)
      ensures ok ==> forall x: nat, y: nat :: x < y < graph.n && Has(old(graph.m), x, y) && !Base(x, y, graph.n) ==>
        Propagated(old(graph.m), graph.m, graph.n, x, y)
    {
      hide HasSecond, Forced, BaseIn, Has, Base, Propagated, CycleDist, Kept;
      var n := graph.n;
      ghost var m0 := graph.m;
      ForcedRefl(m0, n);
      for i := 0 to n
        invariant Forced(m0, graph.m, n) && BaseIn(graph.m, n) && graph.Valid()
        invariant HandledUpTo(m0, graph.m, n, i, i + 1)
      {
        for j := i + 1 to n
          invariant Forced(m0, graph.m, n) && BaseIn(graph.m, n) && graph.Valid()
          invariant HandledUpTo(m0, graph.m, n, i, j)
        {
          ghost var cur := graph.m;
          ForcedHas(m0, cur, n);
          CycleDistBase(i, j, n);
          if graph.HasEdge(i, j) && CycleDist(i, j, n) != 1 {
            ok := PropagateEdge(i, j);
            SecondSame(m0, cur, n);
            if !ok { return; }
            PropagatedForced(cur, graph.m, n, i, j);
            HandledKept(m0, cur, graph.m, n, i, j);
            PropagatedFirst(m0, cur, graph.m, n, i, j);
            ForcedTrans(m0, cur, graph.m, n);
            ForcedSym(m0, graph.m, n);
          }
        }
      }
      AllHandled(m0, graph.m, n);
      ok := true;
    }
  }

  /** What propagating the edge xy does to a graph. */
  ghost predicate Propagated(m: Tri, m': Tri, n: nat, x: nat, y: nat) {
    && Forced(m, m', n)
    && (Has(m, x, y) && !Base(x, y, n) ==> RulesDone(m, m', n, x, y) && forall q :: HamPath(m, n, x, y, q) ==>
      Closed(m', q))
  }

  function Prev(i: nat, n: nat): int { if i == 0 then n - 1 else i - 1 }

  predicate IsAbsent(m: Tri, i: int, j: int) {
    0 <= i < |m| && 0 <= j < |m[i]| && m[i][j] == False
  }

  predicate Rule1Done(m: Tri, n: nat, x: nat, y: nat) { IsAbsent(m, x + 1, Next(y, n)) }

  /** Rule 2 for all ends z1 below a bound; they lie beyond the wrap-around. */
  ghost predicate Rule2Done(m: Tri, m': Tri, n: nat, x: nat, y: nat, bound: int) {
    y + 2 >= n && y >= 1 ==> forall z1: nat ::
      y + 2 - n <= z1 < bound && Prev(z1, n) >= 0 && Has(m, Prev(z1, n), y - 1) ==> IsAbsent(m', x + 1, z1)
  }

  /**
   * What the rule says of the end z1, for ends met from y on, around, to x: an edge from z1 - 1 to y - 1 is present.
   */
  predicate Rule2Names(m: Tri, n: nat, x: nat, y: nat, z1: nat) {
    && y >= 1 && ((z1 < x && y + 2 - n <= z1) || y + 2 <= z1 < n)
    && Prev(z1, n) >= 0 && Has(m, Prev(z1, n), y - 1)
  }

  /** Every edge that rule 2 names is excluded. */
  ghost predicate Rule2All(m: Tri, m': Tri, n: nat, x: nat, y: nat) {
    forall z1: nat :: Rule2Names(m, n, x, y, z1) ==> IsAbsent(m', x + 1, z1)
  }

  /** The base cycle on eight vertices with the chords 03 and 24; nothing else is known. */
  function TwoChords(): Tri { seq(8, (i: nat) => seq(8, (j: nat) => if ChordOrBase(i, j) then True else Undef)) }

  predicate ChordOrBase(i: nat, j: nat) {
    Base(i, j, 8) || (i == 0 && j == 3) || (i == 3 && j == 0) || (i == 2 && j == 4) || (i == 4 && j == 2)
  }

  lemma TwoChordsAt(i: nat, j: nat)
    requires i < 8 && j < 8 && i != j
    ensures Has(TwoChords(), i, j) == ChordOrBase(i, j) && (!ChordOrBase(i, j) ==> TwoChords()[i][j] == Undef)
  {}

  lemma TwoChordsFit()
    ensures Sym(TwoChords(), 8) && BaseIn(TwoChords(), 8)
  {
    hide Has;
    forall i: nat | i < 8 ensures Has(TwoChords(), i, Next(i, 8)) { TwoChordsAt(i, Next(i, 8)); }
  }

  /**
   * Rule 2 names the edge 15 for the chord 03, since it closes a second Hamiltonian cycle; the loop leaves it unknown.
   */
  lemma Rule2Misses()
    ensures var m := TwoChords();
      Sym(m, 8) && BaseIn(m, 8) && Has(m, 0, 3) && !Base(0, 3, 8) && Rule2Names(m, 8, 0, 3, 5)
      && ClosesSecond(m, 8, 1, 5) && m[1][5] == Undef && !Rule2All(m, m, 8, 0, 3)
  {
    hide TwoChords, Sym, BaseIn, Has, ClosesSecond;
    var m := TwoChords();
    TwoChordsFit();
    TwoChordsAt(0, 3);
    TwoChordsAt(4, 2);
    TwoChordsAt(1, 5);
    Rule2(m, 8, 0, 3, 5);
    assert Rule2Names(m, 8, 0, 3, 5) && !IsAbsent(m, 1, 5);
  }

  /** Rule 3 for all ends w above a bound. */
  ghost predicate Rule3Done(m: Tri, m': Tri, n: nat, x: nat, y: nat, bound: int) {
    forall w: nat :: bound < w < y && Has(m, w, Next(y, n)) ==> IsAbsent(m', Prev(x, n), w - 1)
  }

  ghost predicate RulesDone(m: Tri, m': Tri, n: nat, x: nat, y: nat) {
    Rule1Done(m', n, x, y) && Rule2Done(m, m', n, x, y, x) && Rule3Done(m, m', n, x, y, x + 1)
  }

  lemma KeptAbsent(m: Tri, m': Tri, n: nat)
    requires Kept(m, m', n)
    ensures forall i: int, j: int :: IsAbsent(m, i, j) ==> IsAbsent(m', i, j)
  {}

  lemma Rule2Start(y: nat, n: nat)
    requires y < n && n >= 2
    ensures Mod(y + 2, n) == if y + 2 < n then y + 2 else y + 2 - n
  {
    if y + 2 < n { ModSmall(y + 2, n); } else {
      ModIs(y + 2, n);
      ModUnique(y + 2, n, 1, y + 2 - n);
    }
  }

  lemma Rule2Kept(m: Tri, cur: Tri, m': Tri, n: nat, x: nat, y: nat, z1: nat)
    requires Rule2Done(m, cur, n, x, y, z1) && Kept(cur, m', n) && IsAbsent(m', x + 1, z1)
    ensures Rule2Done(m, m', n, x, y, z1 + 1)
  {
    hide Kept, IsAbsent;
    KeptAbsent(cur, m', n);
  }

  lemma Rule3Kept(m: Tri, cur: Tri, m': Tri, n: nat, x: nat, y: nat, w: nat)
    requires Rule3Done(m, cur, n, x, y, w) && Kept(cur, m', n) && IsAbsent(m', Prev(x, n), w - 1)
    ensures Rule3Done(m, m', n, x, y, w - 1)
  {
    hide Kept, IsAbsent;
    KeptAbsent(cur, m', n);
  }

  lemma KeptFour(m0: Tri, m1: Tri, m2: Tri, m3: Tri, m4: Tri, n: nat)
    requires Kept(m0, m1, n) && Kept(m1, m2, n) && Kept(m2, m3, n) && Kept(m3, m4, n)
    ensures Kept(m0, m4, n)
  {
    hide Kept;
    KeptTrans(m0, m1, m2, n);
    KeptTrans(m0, m2, m3, n);
    KeptTrans(m0, m3, m4, n);
  }

  /** What the rules excluded is still excluded at the end. */
  lemma RulesKept(m0: Tri, m1: Tri, m2: Tri, m3: Tri, m4: Tri, n: nat, x: nat, y: nat)
    requires Rule1Done(m1, n, x, y) && Rule2Done(m0, m2, n, x, y, x) && Rule3Done(m0, m3, n, x, y, x + 1)
    requires Kept(m1, m2, n) && Kept(m2, m3, n) && Kept(m3, m4, n)
    ensures RulesDone(m0, m4, n, x, y)
  {
    hide Kept, IsAbsent;
    KeptTrans(m2, m3, m4, n);
    KeptTrans(m1, m2, m4, n);
    KeptAbsent(m1, m4, n);
    KeptAbsent(m2, m4, n);
    KeptAbsent(m3, m4, n);
  }

  lemma ForcedSym(m: Tri, m': Tri, n: nat)
    requires Forced(m, m', n)
    ensures Sym(m, n) && Sym(m', n)
  {}

  lemma ForcedBase(m: Tri, m': Tri, n: nat)
    requires Forced(m, m', n) && BaseIn(m, n)
    ensures BaseIn(m', n) && Sym(m', n)
  {
    ForcedHas(m, m', n);
  }

  lemma AdjSame(adj: Adj, m: Tri, m': Tri, n: nat)
    requires AdjOf(adj, m, n) && forall i: nat, j: nat :: Has(m, i, j) <==> Has(m', i, j)
    ensures AdjOf(adj, m', n)
  {}

  lemma ChordSize(x: nat, y: nat, n: nat)
    requires x < y < n && n >= 3 && !Base(x, y, n)
    ensures n >= 4 && x + 1 < y
  {}

  lemma ModNext(a: nat, n: nat)
    requires n > 0
    ensures 0 <= Mod(a, n) < n && 0 <= Mod(a + 1, n) < n && Mod(a + 1, n) == Next(Mod(a, n), n)
  {
    ModIs(a, n);
    ModIs(a + 1, n);
    var q, r := a / n, a % n;
    assert a == q * n + r;
    if r + 1 < n {
      ModUnique(a + 1, n, q, r + 1);
    } else {
      assert a + 1 == q * n + n == (q + 1) * n;
      ModUnique(a + 1, n, q + 1, 0);
    }
  }

  lemma ModBefore(x: nat, n: nat)
    requires x < n
    ensures Mod(x - 1, n) == if x == 0 then n - 1 else x - 1
  {
    if x == 0 { ModBelow(-1, n); } else { ModSmall(x - 1, n); }
  }

  lemma ListsOk(lists: Adj, m: Tri, n: nat)
    requires AdjOf(lists, m, n) && Sym(m, n)
    ensures |lists| == n && forall v :: 0 <= v < n ==> Distinct(lists[v]) && forall u :: u in lists[v] ==> u < n
  {
    forall v: nat, u: nat | v < n && u in lists[v] ensures u < n { HasBelow(m, n, v, u); }
  }

  lemma {:induction false} UnvisitedAll(l: seq<nat>)
    ensures Unvisited(l, []) == l
  {
    if l != [] { UnvisitedAll(l[1..]); }
  }

  /** The initial residual degrees. */
  lemma StartDegrees(m: Tri, n: nat, lists: Adj, adj: Adj, x: nat, y: nat, visited: seq<bool>, d0: seq<int>,
      d1: seq<int>, d2: seq<int>)
    requires Sym(m, n) && AdjOf(lists, m, n) && AdjOf(adj, m, n) && x < n && y < n && x != y
    requires VisitedOk(n, [x, y], visited)
    requires |d0| == n && forall v :: 0 <= v < n ==> d0[v] == |lists[v]| == |adj[v]|
    requires Shifted(lists, n, x, visited, d0, d1, -1) && Shifted(lists, n, y, visited, d1, d2, -1)
    ensures DegreesOk(adj, n, [x, y], d2)
  {
    hide Sym;
    var p := [x, y];
    forall v: nat | v < n && v !in p ensures d2[v] == Residual(adj, p, v) {
      assert !visited[v] && [] + [x] == [x] && [x] + [y] == p;
      UnvisitedAll(adj[v]);
      VisitOne(adj[v], [], x);
      VisitOne(adj[v], [x], y);
      InBoth(m, n, lists, adj, x, v);
      InBoth(m, n, lists, adj, y, v);
    }
  }

  lemma InBoth(m: Tri, n: nat, lists: Adj, adj: Adj, x: nat, v: nat)
    requires Sym(m, n) && AdjOf(lists, m, n) && AdjOf(adj, m, n) && x < n && v < n
    ensures v in lists[x] <==> x in adj[v]
  {
    assert Has(m, x, v) == Has(m, v, x);
  }

  ghost function Width(adj: Adj): nat {
    if adj == [] then 1 else |adj[0]| + Width(adj[1..])
  }

  lemma {:induction false} WidthWide(adj: Adj)
    ensures Wide(adj, Width(adj))
  {
    if adj != [] {
      WidthWide(adj[1..]);
      WidthPositive(adj[1..]);
      forall v | 0 <= v < |adj| ensures |adj[v]| < Width(adj) {
        if v > 0 { assert adj[v] == adj[1..][v - 1]; }
      }
    }
  }

  lemma {:induction false} WidthPositive(adj: Adj)
    ensures Width(adj) >= 1
  {
    if adj != [] { WidthPositive(adj[1..]); }
  }

  /** After propagating xy without contradiction, no Hamiltonian cycle of present edges uses xy. */
  lemma PropagatedExcludes(m: Tri, m': Tri, n: nat, x: nat, y: nat, c: seq<nat>, t: nat)
    requires n >= 3 && Propagated(m, m', n, x, y) && Has(m, x, y) && !Base(x, y, n) && OnCycle(c, n, t, x, y)
    ensures !HamCycle(m, n, c)
  {
    hide RulesDone, Closed, Has, Sym;
    ForcedSym(m, m', n);
    ForcedHas(m, m', n);
    if HamCycle(m, n, c) {
      ThroughEdge(m, n, c, t, x, y);
      var q :| PathThrough(m, n, x, y, q);
      ClosedIsAbsent(m', n, x, y, q);
    }
  }

  lemma PropagatedForced(m: Tri, m': Tri, n: nat, x: nat, y: nat)
    requires Propagated(m, m', n, x, y)
    ensures Forced(m, m', n)
  {}

  lemma ForcedTrans(m: Tri, m': Tri, m'': Tri, n: nat)
    requires Forced(m, m', n) && Forced(m', m'', n)
    ensures Forced(m, m'', n)
  {
    hide ClosesSecond, Has;
    ForcedHas(m, m', n);
    forall i: nat, j: nat | i < n && j < n && i != j && m''[i][j] != m[i][j] ensures ForcedEdge(m, m'', n, i, j) {
      if m'[i][j] != m[i][j] { assert ForcedEdge(m, m', n, i, j); }
      if m''[i][j] != m'[i][j] {
        assert ForcedEdge(m', m'', n, i, j);
        ClosesSame(m', m, n, i, j);
      }
    }
  }

  lemma ClosesSame(m: Tri, g: Tri, n: nat, i: nat, j: nat)
    requires ClosesSecond(m, n, i, j) && forall a: nat, b: nat :: Has(m, a, b) ==> Has(g, a, b)
    ensures ClosesSecond(g, n, i, j)
  {
    hide UsesChord, Has;
    var c :| CyclePlus(m, n, i, j, c) && UsesChord(c, n);
    forall k | 0 <= k < n ensures HasPlus(g, i, j, c[k], c[Next(k, n)]) {
      assert HasPlus(m, i, j, c[k], c[Next(k, n)]);
    }
    assert CyclePlus(g, n, i, j, c);
  }

  lemma SecondSame(m: Tri, m': Tri, n: nat)
    requires Forced(m, m', n)
    ensures HasSecond(m', n) <==> HasSecond(m, n)
  {
    hide HamCycle, UsesChord, Forced, Has;
    ForcedHas(m, m', n);
    forall c ensures HamCycle(m, n, c) <==> HamCycle(m', n, c) { HamSame(m, m', n, c); }
    if c :| HamCycle(m, n, c) && UsesChord(c, n) { assert HamCycle(m', n, c); }
    if c :| HamCycle(m', n, c) && UsesChord(c, n) { assert HamCycle(m, n, c); }
  }

  lemma HamSame(m: Tri, m': Tri, n: nat, c: seq<nat>)
    requires forall i: nat, j: nat :: Has(m', i, j) <==> Has(m, i, j)
    ensures HamCycle(m, n, c) <==> HamCycle(m', n, c)
  {
    hide Has;
  }

  /** The chords handled so far, with what their propagation did still in place. */
  ghost predicate HandledUpTo(m: Tri, m': Tri, n: nat, i: nat, j: nat) {
    forall x: nat, y: nat :: x < y < n && (x < i || (x == i && y < j)) && Has(m, x, y) && !Base(x, y, n) ==>
      Propagated(m, m', n, x, y)
  }

  /** What an edge propagated in a graph with forced exclusions only does to the graph before them. */
  lemma PropagatedFirst(m0: Tri, m: Tri, m': Tri, n: nat, x: nat, y: nat)
    requires Forced(m0, m, n) && Propagated(m, m', n, x, y)
    ensures Propagated(m0, m', n, x, y)
  {
    hide Forced, Has, IsAbsent, Closed;
    ForcedHas(m0, m, n);
    ForcedTrans(m0, m, m', n);
    forall q | Has(m0, x, y) && !Base(x, y, n) && HamPath(m0, n, x, y, q) ensures Closed(m', q) {
      forall k | 0 <= k < n - 1 ensures Has(m, q[k], q[k + 1]) { assert Has(m0, q[k], q[k + 1]); }
      assert HamPath(m, n, x, y, q);
    }
  }

  lemma ClosedStays(m: Tri, m': Tri, n: nat, q: seq<nat>)
    requires Closed(m, q) && Kept(m, m', n)
    ensures Closed(m', q)
  {}

  lemma PropagatedThen(m: Tri, m': Tri, m'': Tri, n: nat, x: nat, y: nat)
    requires Propagated(m, m', n, x, y) && Forced(m', m'', n) && Kept(m', m'', n)
    ensures Propagated(m, m'', n, x, y)
  {
    hide Forced, Has, IsAbsent, HamPath, Closed, Kept;
    ForcedTrans(m, m', m'', n);
    KeptAbsent(m', m'', n);
    forall q | HamPath(m, n, x, y, q) && Closed(m', q) ensures Closed(m'', q) { ClosedStays(m', m'', n, q); }
  }

  lemma HandledKept(m0: Tri, m: Tri, m': Tri, n: nat, i: nat, j: nat)
    requires HandledUpTo(m0, m, n, i, j) && Forced(m, m', n) && Kept(m, m', n)
    ensures HandledUpTo(m0, m', n, i, j)
  {
    hide Forced, Has, Base, Propagated, Kept;
    forall x: nat, y: nat | x < y < n && Propagated(m0, m, n, x, y) ensures Propagated(m0, m', n, x, y) {
      PropagatedThen(m0, m, m', n, x, y);
    }
  }

  /** With every chord handled there is no second Hamiltonian cycle. */
  lemma AllHandled(m: Tri, m': Tri, n: nat)
    requires n >= 3 && Sym(m, n) && HandledUpTo(m, m', n, n, n)
    ensures !HasSecond(m, n)
  {
    hide Has, Base, Propagated;
    if c :| HamCycle(m, n, c) && UsesChord(c, n) {
      CycleSize(m, n, c);
      var t: nat :| t < |c| && !Base(c[t], c[Next(t, |c|)], n);
      var a, b := c[t], c[Next(t, n)];
      HasBelow(m, n, a, b);
      HasApart(m, a, b);
      BaseSym(a, b, n);
      PropagatedExcludes(m, m', n, if a < b then a else b, if a < b then b else a, c, t);
    }
  }

  function Deg(d: seq<int>, u: nat): int { if u < |d| then d[u] else 0 }

  /** From position `from` on, no degree is above an earlier one. */
  ghost predicate Falling(l: seq<nat>, d: seq<int>, from: int) {
    forall a, b :: 0 <= a < b < |l| && from <= b ==> Deg(d, l[a]) >= Deg(d, l[b])
  }

  ghost predicate LowestAt(l: seq<nat>, d: seq<int>, j: nat) {
    j < |l| ==> forall a :: 0 <= a <= j ==> Deg(d, l[a]) >= Deg(d, l[j])
  }

  ghost predicate NoAscent(l: seq<nat>, d: seq<int>, j: nat) {
    j < |l| ==> forall a :: 0 <= a < j ==> Deg(d, l[a]) >= Deg(d, l[a + 1])
  }

  lemma FallingEmpty(l: seq<nat>, d: seq<int>)
    ensures Falling(l, d, |l|)
  {}

  lemma {:induction false} FallingFrom(l: seq<nat>, d: seq<int>, a: nat, b: nat)
    requires a < b < |l| && forall k :: 0 <= k < |l| - 1 ==> Deg(d, l[k]) >= Deg(d, l[k + 1])
    ensures Deg(d, l[a]) >= Deg(d, l[b])
  {
    assert Deg(d, l[b - 1]) >= Deg(d, l[b - 1 + 1]);
    if a < b - 1 { FallingFrom(l, d, a, b - 1); }
  }

  lemma FallingByNeighbours(l: seq<nat>, d: seq<int>)
    requires forall k :: 0 <= k < |l| - 1 ==> Deg(d, l[k]) >= Deg(d, l[k + 1])
    ensures Falling(l, d, 0)
  {
    forall a, b | 0 <= a < b < |l| ensures Deg(d, l[a]) >= Deg(d, l[b]) { FallingFrom(l, d, a, b); }
  }

  lemma PassStart(l: seq<nat>, d: seq<int>)
    ensures LowestAt(l, d, 0) && NoAscent(l, d, 0)
  {}

  lemma ExchangeLeast(l: seq<nat>, d: seq<int>, j: nat, m: nat)
    requires LowestAt(l, d, j) && j + 1 < m <= |l| && Falling(l, d, m) && Deg(d, l[j]) < Deg(d, l[j + 1])
    ensures LowestAt(Exchanged(l, j), d, j + 1) && Falling(Exchanged(l, j), d, m)
  {
    var c := Exchanged(l, j);
    forall a, b | 0 <= a < b < |l| && m <= b ensures Deg(d, c[a]) >= Deg(d, c[b]) {
      assert c[b] == l[b] && c[a] == l[if a == j then j + 1 else if a == j + 1 then j else a];
    }
  }

  lemma StayLeast(l: seq<nat>, d: seq<int>, j: nat)
    requires LowestAt(l, d, j) && j + 1 < |l| && Deg(d, l[j]) >= Deg(d, l[j + 1])
    ensures LowestAt(l, d, j + 1) && (NoAscent(l, d, j) ==> NoAscent(l, d, j + 1))
  {}

  lemma PassEnd(l: seq<nat>, d: seq<int>, j: nat)
    requires LowestAt(l, d, j) && Falling(l, d, j + 1) && j < |l|
    ensures Falling(l, d, j)
    ensures NoAscent(l, d, j) ==> forall a :: 0 <= a < |l| - 1 ==> Deg(d, l[a]) >= Deg(d, l[a + 1])
  {}

  lemma RearrangedRefl(l: seq<nat>)
    ensures Rearranged(l, l)
  {}

  lemma RearrangedIn(l: seq<nat>, c: seq<nat>, j: nat)
    requires Rearranged(l, c) && j + 1 < |c|
    ensures c[j] in l && c[j + 1] in l
  {}

  function Exchanged(l: seq<nat>, j: nat): seq<nat>
    requires j + 1 < |l|
  {
    l[j := l[j + 1]][j + 1 := l[j]]
  }

  /** The same elements, in some order. */
  ghost predicate Rearranged(l: seq<nat>, l': seq<nat>) {
    && |l| == |l'| && multiset(l) == multiset(l')
    && (forall u :: u in l' <==> u in l) && (Distinct(l) ==> Distinct(l'))
  }

  lemma ExchangeKeeps(l: seq<nat>, cur: seq<nat>, j: nat)
    requires Rearranged(l, cur) && j + 1 < |cur|
    ensures Rearranged(l, Exchanged(cur, j))
  {
    var c := Exchanged(cur, j);
    assert multiset(c) == multiset(cur);
    forall u ensures u in c <==> u in cur {
      assert u in c <==> u in multiset(c);
      assert u in cur <==> u in multiset(cur);
    }
  }
}
