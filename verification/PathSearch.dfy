/** The pruned search for Hamiltonian paths that start with a given edge: what each prefix may still lead to. */
module PathSearch {
  import opened Cnf
  import opened Graphs
  import opened Matrices
  import opened Hamilton

  type Adj = seq<seq<nat>>

  predicate Distinct(l: seq<nat>) { forall a, b :: 0 <= a < b < |l| ==> l[a] != l[b] }

  /** Row v lists the vertices that share a present edge with v, each once. */
  ghost predicate AdjOf(adj: Adj, m: Tri, n: nat) {
    |adj| == n && forall v: nat :: v < n ==> Distinct(adj[v]) && forall u: nat :: u in adj[v] <==> Has(m, v, u)
  }

  /** The elements of l outside p, in order. */
  function Unvisited(l: seq<nat>, p: seq<nat>): (r: seq<nat>)
    ensures forall u :: u in r <==> u in l && u !in p
    ensures |r| <= |l|
  {
    if l == [] then [] else if l[0] in p then Unvisited(l[1..], p) else [l[0]] + Unvisited(l[1..], p)
  }

  /** The residual degree of x once p is on the path. */
  function Residual(adj: Adj, p: seq<nat>, x: nat): nat {
    if x < |adj| then |Unvisited(adj[x], p)| else 0
  }

  /** The elements of l outside p whose residual degree is one, in order. */
  function Ones(adj: Adj, l: seq<nat>, p: seq<nat>): (r: seq<nat>)
    ensures forall u :: u in r <==> u in l && u !in p && Residual(adj, p, u) == 1
    ensures |r| <= |l|
  {
    if l == [] then []
    else if l[0] !in p && Residual(adj, p, l[0]) == 1 then [l[0]] + Ones(adj, l[1..], p)
    else Ones(adj, l[1..], p)
  }

  ghost predicate Isolated(adj: Adj, l: seq<nat>, p: seq<nat>) {
    exists u :: u in l && u !in p && Residual(adj, p, u) == 0
  }

  function Top(p: seq<nat>): nat
    requires p != []
  {
    p[|p| - 1]
  }

  /** At least two vertices are left, and one next to the top cannot be reached, or three would have to come last. */
  ghost predicate Dead(adj: Adj, n: nat, p: seq<nat>)
    requires p != [] && Top(p) < |adj|
  {
    |p| + 1 < n && (Isolated(adj, adj[Top(p)], p) || |Ones(adj, adj[Top(p)], p)| >= 3)
  }

  /** The vertices that the search tries after p. */
  function Candidates(adj: Adj, n: nat, p: seq<nat>): seq<nat> {
    if p == [] || Top(p) >= |adj| then [] else
      var l := adj[Top(p)];
      if |p| + 1 < n && |Ones(adj, l, p)| == 2 then Ones(adj, l, p) else l
  }

  /** Going to u would leave one of its neighbours with no further way on. */
  ghost predicate Strands(adj: Adj, n: nat, p: seq<nat>, u: nat)
    requires u < |adj|
  {
    |p| + 2 < n && exists w :: w in adj[u] && w !in p && Residual(adj, p, w) < 2
  }

  /** A Hamiltonian path along present edges that starts with the edge xy. */
  ghost predicate HamPath(m: Tri, n: nat, x: nat, y: nat, p: seq<nat>) {
    IsPerm(p, n) && n >= 2 && p[0] == x && p[1] == y && forall k :: 0 <= k < n - 1 ==> Has(m, p[k], p[k + 1])
  }

  // ---------------------------------------------------------------- counting

  lemma {:induction false} UnvisitedDistinct(l: seq<nat>, p: seq<nat>)
    requires Distinct(l)
    ensures Distinct(Unvisited(l, p))
  {
    if l != [] { UnvisitedDistinct(l[1..], p); }
  }

  lemma {:induction false} OnesDistinct(adj: Adj, l: seq<nat>, p: seq<nat>)
    requires Distinct(l)
    ensures Distinct(Ones(adj, l, p))
  {
    if l != [] { OnesDistinct(adj, l[1..], p); }
  }

  lemma AtLeastOneLeft(adj: Adj, p: seq<nat>, x: nat, u: nat)
    requires x < |adj| && u in adj[x] && u !in p
    ensures Residual(adj, p, x) >= 1
  {
    assert u in Unvisited(adj[x], p);
  }

  lemma AtLeastTwoLeft(adj: Adj, p: seq<nat>, x: nat, u: nat, w: nat)
    requires x < |adj| && u in adj[x] && u !in p && w in adj[x] && w !in p && u != w
    ensures Residual(adj, p, x) >= 2
  {
    var r := Unvisited(adj[x], p);
    assert u in r && w in r;
    var a :| 0 <= a < |r| && r[a] == u;
    var b :| 0 <= b < |r| && r[b] == w;
  }

  /** Visiting u takes one from the residual degree of its neighbours only. */
  lemma {:induction false} VisitOne(l: seq<nat>, p: seq<nat>, u: nat)
    requires Distinct(l) && u !in p
    ensures |Unvisited(l, p)| == |Unvisited(l, p + [u])| + if u in l then 1 else 0
  {
    if l != [] {
      VisitOne(l[1..], p, u);
      if l[0] == u { assert u !in l[1..]; }
    }
  }

  // ---------------------------------------------------------------- the prunings lose nothing

  /** A vertex on the rest of a path has its neighbours on the path among its unvisited ones. */
  lemma PathNeighbours(m: Tri, n: nat, adj: Adj, x: nat, y: nat, p: seq<nat>, q: seq<nat>, t: nat)
    requires Sym(m, n) && AdjOf(adj, m, n) && HamPath(m, n, x, y, q) && p <= q && |p| <= t < n
    ensures q[t] !in p
    ensures t + 1 < n ==> q[t + 1] in adj[q[t]] && q[t + 1] !in p
    ensures |p| < t ==> q[t - 1] in adj[q[t]] && q[t - 1] !in p
  {
    forall k | |p| <= k < n ensures q[k] !in p {
      forall j | 0 <= j < |p| ensures p[j] != q[k] { assert p[j] == q[j]; }
    }
    if t + 1 < n { assert Has(m, q[t], q[t + 1]); }
    if |p| < t { assert Has(m, q[t - 1], q[t]) && m[q[t]][q[t - 1]] == m[q[t - 1]][q[t]]; }
  }

  lemma InnerDegree(m: Tri, n: nat, adj: Adj, x: nat, y: nat, p: seq<nat>, q: seq<nat>, t: nat)
    requires Sym(m, n) && AdjOf(adj, m, n) && HamPath(m, n, x, y, q) && p <= q && |p| <= t < n && |p| + 1 < n
    ensures Residual(adj, p, q[t]) >= 1
    ensures |p| < t < n - 1 ==> Residual(adj, p, q[t]) >= 2
  {
    hide Sym;
    PathNeighbours(m, n, adj, x, y, p, q, t);
    if t + 1 < n { AtLeastOneLeft(adj, p, q[t], q[t + 1]); } else { AtLeastOneLeft(adj, p, q[t], q[t - 1]); }
    if |p| < t < n - 1 { AtLeastTwoLeft(adj, p, q[t], q[t - 1], q[t + 1]); }
  }

  lemma PositionOf(q: seq<nat>, n: nat, p: seq<nat>, u: nat) returns (t: nat)
    requires IsPerm(q, n) && p <= q && u < n && u !in p
    ensures |p| <= t < n && q[t] == u
  {
    Onto(q, n, u);
    t :| t < n && q[t] == u;
    assert forall j :: 0 <= j < |p| ==> p[j] == q[j];
  }

  lemma HasBelow(m: Tri, n: nat, i: nat, j: nat)
    requires Sym(m, n) && Has(m, i, j)
    ensures i < n && j < n && Has(m, j, i)
  {}

  /** A vertex of residual degree one next to the top comes first or last in the rest of the path. */
  lemma OneIsEnd(m: Tri, n: nat, adj: Adj, x: nat, y: nat, p: seq<nat>, q: seq<nat>, u: nat)
    requires Sym(m, n) && AdjOf(adj, m, n) && HamPath(m, n, x, y, q) && p <= q && 1 <= |p| && |p| + 1 < n
    requires u in Ones(adj, adj[Top(p)], p)
    ensures u == q[|p|] || u == q[n - 1]
  {
    hide Sym, Has, Residual, Ones;
    assert Top(p) == q[|p| - 1];
    assert Has(m, Top(p), u);
    HasBelow(m, n, Top(p), u);
    var t := PositionOf(q, n, p, u);
    InnerDegree(m, n, adj, x, y, p, q, t);
  }

  /** No Hamiltonian path continues a dead prefix. */
  lemma DeadIsDead(m: Tri, n: nat, adj: Adj, x: nat, y: nat, p: seq<nat>, q: seq<nat>)
    requires Sym(m, n) && AdjOf(adj, m, n) && HamPath(m, n, x, y, q) && p <= q && 1 <= |p| < n && Top(p) < n
    ensures !Dead(adj, n, p)
  {
    hide Sym;
    if Dead(adj, n, p) {
      var l := adj[Top(p)];
      if u :| u in l && u !in p && Residual(adj, p, u) == 0 {
        HasBelow(m, n, Top(p), u);
        var t := PositionOf(q, n, p, u);
        InnerDegree(m, n, adj, x, y, p, q, t);
      } else {
        var r := Ones(adj, l, p);
        OnesDistinct(adj, l, p);
        assert r[0] != r[1] && r[0] != r[2] && r[1] != r[2];
        forall k | 0 <= k < 3 ensures r[k] == q[|p|] || r[k] == q[n - 1] {
          assert r[k] in r;
          OneIsEnd(m, n, adj, x, y, p, q, r[k]);
        }
      }
    }
  }

  /** The next vertex of every Hamiltonian path that continues p is among the candidates. */
  lemma CandidatesComplete(m: Tri, n: nat, adj: Adj, x: nat, y: nat, p: seq<nat>, q: seq<nat>)
    requires Sym(m, n) && AdjOf(adj, m, n) && HamPath(m, n, x, y, q) && p <= q && 1 <= |p| < n && Top(p) < n
    ensures q[|p|] in Candidates(adj, n, p)
  {
    hide Sym;
    var l := adj[Top(p)];
    assert Top(p) == q[|p| - 1];
    assert Has(m, q[|p| - 1], q[|p|]);
    var r := Ones(adj, l, p);
    if |p| + 1 < n && |r| == 2 {
      OnesDistinct(adj, l, p);
      assert r[0] in r && r[1] in r;
      OneIsEnd(m, n, adj, x, y, p, q, r[0]);
      OneIsEnd(m, n, adj, x, y, p, q, r[1]);
    }
  }

  /** No Hamiltonian path goes on to a vertex that strands one of its neighbours. */
  lemma StrandsIsDead(m: Tri, n: nat, adj: Adj, x: nat, y: nat, p: seq<nat>, q: seq<nat>, u: nat)
    requires Sym(m, n) && AdjOf(adj, m, n) && HamPath(m, n, x, y, q) && p + [u] <= q && 1 <= |p| && u < n
    ensures !Strands(adj, n, p, u)
  {
    hide Sym;
    if Strands(adj, n, p, u) {
      var w :| w in adj[u] && w !in p && Residual(adj, p, w) < 2;
      HasBelow(m, n, u, w);
      var p1 := p + [u];
      assert q[|p|] == u;
      var t := PositionOf(q, n, p1, w);
      PathNeighbours(m, n, adj, x, y, p, q, t);
      PathNeighbours(m, n, adj, x, y, p, q, |p|);
      assert u in adj[w];
      if t == |p| + 1 {
        AtLeastTwoLeft(adj, p, w, u, q[t + 1]);
      } else {
        AtLeastTwoLeft(adj, p, w, u, q[t - 1]);
      }
    }
  }

  // ---------------------------------------------------------------- the state of the search

  /** The stack of the search: the path, the visited marks, the residual degrees and the next index per vertex. */
  datatype Stage = Stage(path: seq<nat>, visited: seq<bool>, degrees: seq<int>, inds: seq<nat>)

  ghost predicate PathOk(m: Tri, n: nat, x: nat, y: nat, p: seq<nat>) {
    && 1 <= |p| <= n && Distinct(p) && (forall k :: 0 <= k < |p| ==> p[k] < n)
    && p[0] == x && (|p| >= 2 ==> p[1] == y)
    && forall k :: 0 <= k < |p| - 1 ==> Has(m, p[k], p[k + 1])
  }

  ghost predicate VisitedOk(n: nat, p: seq<nat>, visited: seq<bool>) {
    |visited| == n && forall v: nat :: v < n ==> (visited[v] <==> v in p)
  }

  /**
   * The residual degree of every unvisited vertex is the number of its unvisited neighbours; on the path, the degree
   * is what it was when the vertex was visited.
   */
  ghost predicate DegreesOk(adj: Adj, n: nat, p: seq<nat>, degrees: seq<int>) {
    && |degrees| == n
    && (|p| >= 2 ==> forall v: nat :: v < n && v !in p ==> degrees[v] == Residual(adj, p, v))
    && forall k :: 2 <= k < |p| && p[k] < n ==> degrees[p[k]] == Residual(adj, p[..k], p[k])
  }

  ghost predicate IndsOk(adj: Adj, n: nat, p: seq<nat>, inds: seq<nat>) {
    |adj| == n && |inds| == n && forall k :: 1 <= k < |p| && p[k] < n ==> inds[p[k]] <= |adj[p[k]]|
  }

  ghost predicate StageOk(m: Tri, n: nat, adj: Adj, x: nat, y: nat, s: Stage) {
    && PathOk(m, n, x, y, s.path) && VisitedOk(n, s.path, s.visited)
    && DegreesOk(adj, n, s.path, s.degrees) && IndsOk(adj, n, s.path, s.inds)
  }

  /** The degrees after one is added to, or taken from, every unvisited neighbour of u. */
  ghost predicate Shifted(adj: Adj, n: nat, u: nat, visited: seq<bool>, d: seq<int>, d': seq<int>, delta: int)
    requires u < |adj|
  {
    |d| == |d'| == |visited| == n && forall v: nat :: v < n ==> d'[v] == d[v] + if v in adj[u] && !visited[v]
      then delta else 0
  }

  lemma PushPath(m: Tri, n: nat, x: nat, y: nat, p: seq<nat>, u: nat)
    requires PathOk(m, n, x, y, p) && 2 <= |p| < n && u < n && u !in p && Has(m, Top(p), u)
    ensures PathOk(m, n, x, y, p + [u])
  {}

  lemma ResidualVisit(m: Tri, n: nat, adj: Adj, p: seq<nat>, u: nat, v: nat)
    requires Sym(m, n) && AdjOf(adj, m, n) && u < n && v < n && u !in p
    ensures Residual(adj, p, v) == Residual(adj, p + [u], v) + if v in adj[u] then 1 else 0
  {
    VisitOne(adj[v], p, u);
    assert Has(m, u, v) == Has(m, v, u);
  }

  lemma PushDegrees(m: Tri, n: nat, adj: Adj, p: seq<nat>, u: nat, visited: seq<bool>, d: seq<int>, d': seq<int>)
    requires Sym(m, n) && AdjOf(adj, m, n) && DegreesOk(adj, n, p, d) && 2 <= |p| && u < n && u !in p
    requires forall k :: 0 <= k < |p| ==> p[k] < n
    requires VisitedOk(n, p + [u], visited) && Shifted(adj, n, u, visited, d, d', -1)
    ensures DegreesOk(adj, n, p + [u], d')
  {
    hide Sym, Residual;
    var p' := p + [u];
    forall v: nat | v < n && v !in p' ensures d'[v] == Residual(adj, p', v) {
      ResidualVisit(m, n, adj, p, u, v);
    }
    forall k | 2 <= k < |p'| ensures d'[p'[k]] == Residual(adj, p'[..k], p'[k]) {
      assert visited[p'[k]];
      assert p'[..k] == if k < |p| then p[..k] else p;
    }
  }

  lemma PopDegrees(m: Tri, n: nat, adj: Adj, p: seq<nat>, u: nat, visited: seq<bool>, d: seq<int>, d': seq<int>)
    requires Sym(m, n) && AdjOf(adj, m, n) && DegreesOk(adj, n, p + [u], d) && 2 <= |p| && u < n && u !in p
    requires forall k :: 0 <= k < |p| ==> p[k] < n
    requires VisitedOk(n, p, visited) && Shifted(adj, n, u, visited, d, d', 1)
    ensures DegreesOk(adj, n, p, d')
  {
    hide Sym, Residual;
    var p' := p + [u];
    assert !Has(m, u, u);
    forall v: nat | v < n && v !in p ensures d'[v] == Residual(adj, p, v) {
      ResidualVisit(m, n, adj, p, u, v);
      if v == u { assert p'[|p|] == u && p'[..|p|] == p; }
    }
    forall k | 2 <= k < |p| ensures d'[p[k]] == Residual(adj, p[..k], p[k]) {
      assert visited[p[k]];
      assert p'[..k] == p[..k] && p'[k] == p[k];
    }
  }

  // ---------------------------------------------------------------- what is still to come

  /** u is in the list, from this index on. */
  ghost predicate Tries(l: seq<nat>, from: nat, u: nat) {
    exists j :: from <= j < |l| && l[j] == u
  }

  /** Some index not tried yet at depth k leads on to q. */
  ghost predicate PendingAt(adj: Adj, n: nat, s: Stage, q: seq<nat>, k: nat) {
    && 1 <= k < |s.path| && k + 1 < |q| && s.path[..k + 1] <= q
    && s.path[k] < |adj| && s.path[k] < |s.inds|
    && Tries(Candidates(adj, n, s.path[..k + 1]), s.inds[s.path[k]], q[k + 1])
  }

  ghost predicate Pending(adj: Adj, n: nat, s: Stage, q: seq<nat>) {
    exists k: nat :: PendingAt(adj, n, s, q, k)
  }

  /** The edge that would close the path to a cycle is excluded. */
  predicate Closed(m: Tri, q: seq<nat>) {
    q != [] && q[0] < |m| && Top(q) < |m[q[0]]| && m[q[0]][Top(q)] == False
  }

  /** Every Hamiltonian path from the edge is closed, is the current path, or is still to be found. */
  ghost predicate Accounted(m0: Tri, m: Tri, n: nat, adj: Adj, x: nat, y: nat, s: Stage) {
    forall q :: HamPath(m0, n, x, y, q) ==> Closed(m, q) || q == s.path || Pending(adj, n, s, q)
  }

  lemma PendingKept(adj: Adj, n: nat, s: Stage, s': Stage, q: seq<nat>, k: nat)
    requires PendingAt(adj, n, s, q, k) && k < |s'.path| && s'.path[..k + 1] == s.path[..k + 1]
    requires s.path[k] < |s'.inds| && s'.inds[s.path[k]] <= s.inds[s.path[k]]
    ensures PendingAt(adj, n, s', q, k)
  {
    assert s'.path[k] == s'.path[..k + 1][k] && s.path[k] == s.path[..k + 1][k];
  }

  lemma StartAccounted(m: Tri, cur: Tri, n: nat, adj: Adj, x: nat, y: nat, s: Stage)
    requires Sym(m, n) && AdjOf(adj, m, n) && n >= 3 && s.path == [x, y] && x < n && y < n && |s.inds| == n
    requires s.inds[y] == 0
    ensures Accounted(m, cur, n, adj, x, y, s)
  {
    hide Sym, Candidates;
    forall q | HamPath(m, n, x, y, q) ensures Pending(adj, n, s, q) {
      assert s.path[..2] == s.path && s.path <= q;
      CandidatesComplete(m, n, adj, x, y, s.path, q);
      assert PendingAt(adj, n, s, q, 1);
    }
  }

  /** Moving on to a candidate loses nothing. */
  lemma PushAccounted(m0: Tri, m: Tri, n: nat, adj: Adj, x: nat, y: nat, s: Stage, s': Stage, u: nat)
    requires Sym(m0, n) && AdjOf(adj, m0, n) && PathOk(m0, n, x, y, s.path) && 2 <= |s.path| < n && |s.inds| == n
    requires Accounted(m0, m, n, adj, x, y, s) && u < n && u !in s.path
    requires s.inds[Top(s.path)] < |Candidates(adj, n, s.path)| && Candidates(adj, n, s.path)[s.inds[Top(s.path)]] == u
    requires s'.path == s.path + [u] && s'.inds == s.inds[u := 0][Top(s.path) := s.inds[Top(s.path)] + 1]
    ensures Accounted(m0, m, n, adj, x, y, s')
  {
    hide Sym, Candidates;
    forall q | HamPath(m0, n, x, y, q) ensures Closed(m, q) || q == s'.path || Pending(adj, n, s', q) {
      if !Closed(m, q) && Pending(adj, n, s, q) {
        var k: nat :| PendingAt(adj, n, s, q, k);
        PushPending(m0, n, adj, x, y, s, s', u, q, k);
      }
    }
  }

  lemma PushPending(m0: Tri, n: nat, adj: Adj, x: nat, y: nat, s: Stage, s': Stage, u: nat, q: seq<nat>, k: nat)
    requires Sym(m0, n) && AdjOf(adj, m0, n) && PathOk(m0, n, x, y, s.path) && 2 <= |s.path| < n && |s.inds| == n
    requires HamPath(m0, n, x, y, q) && PendingAt(adj, n, s, q, k) && u < n && u !in s.path
    requires s.inds[Top(s.path)] < |Candidates(adj, n, s.path)| && Candidates(adj, n, s.path)[s.inds[Top(s.path)]] == u
    requires s'.path == s.path + [u] && s'.inds == s.inds[u := 0][Top(s.path) := s.inds[Top(s.path)] + 1]
    ensures q == s'.path || Pending(adj, n, s', q)
  {
    hide Sym, Candidates;
    var p, v := s.path, Top(s.path);
    if k + 1 < |p| {
      assert s'.path[..k + 1] == p[..k + 1] && p[k] != v && p[k] != u;
      PendingKept(adj, n, s, s', q, k);
    } else {
      assert p[..k + 1] == p && s'.path[..k + 1] == p;
      var l := Candidates(adj, n, p);
      var j :| s.inds[v] <= j < |l| && l[j] == q[k + 1];
      if j > s.inds[v] {
        assert Tries(l, s.inds[v] + 1, q[k + 1]);
        assert PendingAt(adj, n, s', q, k);
      } else {
        assert s'.path <= q;
        if |s'.path| == n {
          assert q == s'.path;
        } else {
          CandidatesComplete(m0, n, adj, x, y, s'.path, q);
          assert s'.path[..k + 2] == s'.path;
          assert PendingAt(adj, n, s', q, k + 1);
        }
      }
    }
  }

  /** Trying the next index without moving loses nothing if no path continues there. */
  lemma SkipAccounted(m0: Tri, m: Tri, n: nat, adj: Adj, x: nat, y: nat, s: Stage, s': Stage, to: nat)
    requires PathOk(m0, n, x, y, s.path) && 2 <= |s.path| < n && |s.inds| == n && |adj| == n
    requires Accounted(m0, m, n, adj, x, y, s)
    requires s'.path == s.path && s'.inds == s.inds[Top(s.path) := to]
    requires forall q ::
      HamPath(m0, n, x, y, q) && s.path <= q && Tries(Candidates(adj, n, s.path), s.inds[Top(s.path)], q[|s.path|]) ==>
        Tries(Candidates(adj, n, s.path), to, q[|s.path|])
    ensures Accounted(m0, m, n, adj, x, y, s')
  {
    hide Candidates;
    forall q | HamPath(m0, n, x, y, q) ensures Closed(m, q) || q == s'.path || Pending(adj, n, s', q) {
      if !Closed(m, q) && Pending(adj, n, s, q) {
        var k: nat :| PendingAt(adj, n, s, q, k);
        var p, v := s.path, Top(s.path);
        if k + 1 < |p| {
          assert p[k] != v;
          PendingKept(adj, n, s, s', q, k);
        } else {
          assert p[..k + 1] == p;
          assert Tries(Candidates(adj, n, p), to, q[|p|]);
          assert PendingAt(adj, n, s', q, k);
        }
      }
    }
  }

  /** Leaving a vertex whose candidates are exhausted, or a closed complete path, loses nothing. */
  lemma PopAccounted(m0: Tri, m: Tri, n: nat, adj: Adj, x: nat, y: nat, s: Stage, s': Stage)
    requires PathOk(m0, n, x, y, s.path) && 2 <= |s.path| && |s.inds| == n && |adj| == n
    requires Accounted(m0, m, n, adj, x, y, s)
    requires if |s.path| == n then Closed(m, s.path) else s.inds[Top(s.path)] >= |Candidates(adj, n, s.path)|
    requires s'.path == s.path[..|s.path| - 1] && s'.inds == s.inds
    ensures Accounted(m0, m, n, adj, x, y, s')
  {
    hide Candidates;
    forall q | HamPath(m0, n, x, y, q) ensures Closed(m, q) || q == s'.path || Pending(adj, n, s', q) {
      if !Closed(m, q) && Pending(adj, n, s, q) {
        var k: nat :| PendingAt(adj, n, s, q, k);
        var p := s.path;
        assert p[..|p|] == p;
        if k + 1 < |p| {
          assert s'.path[..k + 1] == p[..k + 1];
          PendingKept(adj, n, s, s', q, k);
        }
      }
    }
  }

  /** When the search is back at its first vertex, every path is closed. */
  lemma EndAccounted(m0: Tri, m: Tri, n: nat, adj: Adj, x: nat, y: nat, s: Stage)
    requires Accounted(m0, m, n, adj, x, y, s) && |s.path| == 1 && n >= 2
    ensures forall q :: HamPath(m0, n, x, y, q) ==> Closed(m, q)
  {}

  // ---------------------------------------------------------------- termination of the search

  function Pow(w: nat, k: nat): (r: nat)
    ensures w > 0 ==> r > 0
  {
    if k == 0 then 1 else w * Pow(w, k - 1)
  }

  /** The digits of a number in base w, the first of weight w to the m. */
  function Phi(d: seq<nat>, w: nat, m: nat): nat
    requires |d| <= m + 1
  {
    if d == [] then 0 else d[0] * Pow(w, m) + if m == 0 then 0 else Phi(d[1..], w, m - 1)
  }

  lemma {:induction false} PhiSnoc(d: seq<nat>, x: nat, w: nat, m: nat)
    requires |d| <= m
    ensures Phi(d + [x], w, m) == Phi(d, w, m) + x * Pow(w, m - |d|)
  {
    if d == [] {
      assert [x][1..] == [];
    } else {
      assert (d + [x])[1..] == d[1..] + [x];
      PhiSnoc(d[1..], x, w, m - 1);
    }
  }

  /** How many indices of each vertex on the path are left to try, the first vertex aside. */
  ghost function Digits(adj: Adj, p: seq<nat>, inds: seq<nat>): (d: seq<nat>)
    ensures |d| == if p == [] then 0 else |p| - 1
  {
    if p == [] then [] else seq(|p| - 1, (k: nat) requires k < |p| - 1 => Left(adj, inds, p[k + 1]))
  }

  function Left(adj: Adj, inds: seq<nat>, v: nat): nat {
    if v < |adj| && v < |inds| && inds[v] <= |adj[v]| then |adj[v]| - inds[v] else 0
  }

  /** Decreases with every index tried, even when the path grows. */
  ghost function Potential(adj: Adj, n: nat, s: Stage, w: nat): nat {
    if |s.path| <= n then Phi(Digits(adj, s.path, s.inds), w, n) else 0
  }

  lemma PotentialPop(adj: Adj, n: nat, s: Stage, s': Stage, w: nat)
    requires 2 <= |s.path| <= n && s'.path == s.path[..|s.path| - 1] && s'.inds == s.inds
    ensures Potential(adj, n, s', w) <= Potential(adj, n, s, w)
  {
    hide Phi, Pow, Left;
    var d, d' := Digits(adj, s.path, s.inds), Digits(adj, s'.path, s'.inds);
    assert d == d' + [d[|d| - 1]];
    PhiSnoc(d', d[|d| - 1], w, n);
    MulMore(0, d[|d| - 1], Pow(w, n - |d'|));
  }

  lemma MulMore(a: nat, b: nat, c: nat)
    requires a <= b
    ensures a * c <= b * c
    ensures a < b ==> a * c + c <= b * c
  {
    if a < b {
      MulLe(a + 1, b, c);
      assert (a + 1) * c == a * c + c;
    } else {
      MulLe(a, b, c);
    }
  }

  lemma PotentialSkip(adj: Adj, n: nat, s: Stage, s': Stage, w: nat, to: nat)
    requires 2 <= |s.path| <= n && Distinct(s.path) && s'.path == s.path && |s.inds| == n && Top(s.path) < n
    requires |adj| == n
    requires s'.inds == s.inds[Top(s.path) := to] && s.inds[Top(s.path)] <= to <= |adj[Top(s.path)]|
    ensures Potential(adj, n, s', w) <= Potential(adj, n, s, w)
  {
    var d, d' := Digits(adj, s.path, s.inds), Digits(adj, s'.path, s'.inds);
    var k := |d| - 1;
    assert d[..k] == d'[..k];
    assert d == d[..k] + [d[k]] && d' == d[..k] + [d'[k]];
    PhiSnoc(d[..k], d[k], w, n);
    PhiSnoc(d[..k], d'[k], w, n);
    MulMore(d'[k], d[k], Pow(w, n - k));
  }

  lemma PotentialPush(adj: Adj, n: nat, s: Stage, s': Stage, u: nat, w: nat)
    requires 2 <= |s.path| < n && Distinct(s.path) && |s.inds| == n && Top(s.path) < n && u < n && u !in s.path
    requires |adj| == n
    requires forall k :: 0 <= k < |s.path| ==> s.path[k] < n
    requires |adj[u]| < w && s.inds[Top(s.path)] < |adj[Top(s.path)]|
    requires s'.path == s.path + [u] && s'.inds == s.inds[u := 0][Top(s.path) := s.inds[Top(s.path)] + 1]
    ensures Potential(adj, n, s', w) < Potential(adj, n, s, w)
  {
    var d, d' := Digits(adj, s.path, s.inds), Digits(adj, s'.path, s'.inds);
    var k := |d| - 1;
    forall i | 0 <= i < k ensures d'[i] == d[i] { assert s'.path[i + 1] == s.path[i + 1] != Top(s.path); }
    assert d'[k] == d[k] - 1 && d'[k + 1] == |adj[u]|;
    assert d == d[..k] + [d[k]] && d' == d[..k] + [d[k] - 1] + [d'[k + 1]];
    PhiSnoc(d[..k], d[k], w, n);
    PhiSnoc(d[..k], d[k] - 1, w, n);
    PhiSnoc(d[..k] + [d[k] - 1], d'[k + 1], w, n);
    var lo := Pow(w, n - k - 1);
    assert Pow(w, n - k) == w * lo;
    MulMore(d[k] - 1, d[k], Pow(w, n - k));
    MulMore(d'[k + 1], w, lo);
  }

  // ---------------------------------------------------------------- scanning the neighbours of the top

  lemma {:induction false} OnesSnoc(adj: Adj, l: seq<nat>, p: seq<nat>, u: nat)
    ensures Ones(adj, l + [u], p) == Ones(adj, l, p) + if u !in p && Residual(adj, p, u) == 1 then [u] else []
  {
    if l == [] {
      assert [u][1..] == [];
    } else {
      assert (l + [u])[1..] == l[1..] + [u];
      OnesSnoc(adj, l[1..], p, u);
    }
  }

  /** A longer list has at least as many of them. */
  lemma {:induction false} OnesMonotone(adj: Adj, l: seq<nat>, p: seq<nat>, k: nat)
    requires k <= |l|
    ensures |Ones(adj, l[..k], p)| <= |Ones(adj, l, p)|
  {
    if k > 0 {
      assert l[..k][1..] == l[1..][..k - 1] && l[..k][0] == l[0];
      OnesMonotone(adj, l[1..], p, k - 1);
    }
  }

  /** A candidate that is on the path, or strands a neighbour, continues no Hamiltonian path. */
  lemma SkipCandidate(m: Tri, n: nat, adj: Adj, x: nat, y: nat, p: seq<nat>, j: nat)
    requires Sym(m, n) && AdjOf(adj, m, n) && PathOk(m, n, x, y, p) && 1 <= |p| < n && j < |Candidates(adj, n, p)|
    requires Candidates(adj, n, p)[j] < n
    requires (Candidates(adj, n, p)[j] in p || Strands(adj, n, p, Candidates(adj, n, p)[j]))
    ensures forall q :: HamPath(m, n, x, y, q) && p <= q && Tries(Candidates(adj, n, p), j, q[|p|]) ==>
      Tries(Candidates(adj, n, p), j + 1, q[|p|])
  {
    hide Sym, Candidates, Strands, AdjOf;
    AdjSize(adj, m, n);
    var l := Candidates(adj, n, p);
    forall q | HamPath(m, n, x, y, q) && p <= q && Tries(l, j, q[|p|]) ensures Tries(l, j + 1, q[|p|]) {
      var k :| j <= k < |l| && l[k] == q[|p|];
      if k == j {
        NextOffPath(p, q, n);
        if l[j] !in p {
          assert p + [l[j]] <= q;
          StrandsIsDead(m, n, adj, x, y, p, q, l[j]);
        }
      }
    }
  }

  lemma NextOffPath(p: seq<nat>, q: seq<nat>, n: nat)
    requires IsPerm(q, n) && p <= q && |p| < n
    ensures q[|p|] !in p
  {
    forall k | 0 <= k < |p| ensures p[k] != q[|p|] { assert p[k] == q[k]; }
  }

  lemma AdjSize(adj: Adj, m: Tri, n: nat)
    requires AdjOf(adj, m, n)
    ensures |adj| == n
  {}

  /** In a dead prefix every candidate may be skipped. */
  lemma SkipDead(m: Tri, n: nat, adj: Adj, x: nat, y: nat, p: seq<nat>)
    requires Sym(m, n) && AdjOf(adj, m, n) && PathOk(m, n, x, y, p) && 1 <= |p| < n && Top(p) < n && Dead(adj, n, p)
    ensures forall q :: HamPath(m, n, x, y, q) ==> !(p <= q)
  {
    hide Sym, Candidates, AdjOf;
    AdjSize(adj, m, n);
    forall q | HamPath(m, n, x, y, q) ensures !(p <= q) {
      if p <= q { DeadIsDead(m, n, adj, x, y, p, q); }
    }
  }

  /** A complete path is a Hamiltonian path, and its closing edge makes a second Hamiltonian cycle. */
  lemma FullPath(m: Tri, n: nat, x: nat, y: nat, p: seq<nat>)
    requires PathOk(m, n, x, y, p) && |p| == n && n >= 3 && !Base(x, y, n)
    ensures HamPath(m, n, x, y, p) && ClosesSecond(m, n, p[0], p[n - 1]) && p[0] != p[n - 1]
  {
    assert IsPerm(p, n);
    forall k | 0 <= k < n ensures HasPlus(m, p[0], p[n - 1], p[k], p[Next(k, n)]) {}
    UseChord(p, n, 0);
  }

  /** On a complete path every vertex is visited, so leaving its end shifts no degree. */
  lemma FullShift(m: Tri, n: nat, adj: Adj, p: seq<nat>, u: nat, visited: seq<bool>, d: seq<int>)
    requires AdjOf(adj, m, n) && |p| + 1 == n && IsPerm(p + [u], n) && u < n && VisitedOk(n, p, visited) && |d| == n
    requires Sym(m, n)
    ensures Shifted(adj, n, u, visited, d, d, 1)
  {
    forall v: nat | v < n && v in adj[u] ensures visited[v] {
      assert Has(m, u, v);
      Onto(p + [u], n, v);
      var k: nat :| k < n && (p + [u])[k] == v;
      assert p[k] == v;
    }
  }

  lemma TopBelow(m: Tri, n: nat, adj: Adj, x: nat, y: nat, s: Stage)
    requires StageOk(m, n, adj, x, y, s)
    ensures 1 <= |s.path| <= n && Top(s.path) < n && |s.inds| == |adj| == n && Distinct(s.path)
    ensures |s.path| >= 2 ==> s.inds[Top(s.path)] <= |adj[Top(s.path)]|
    ensures forall k :: 0 <= k < |s.path| ==> s.path[k] < n
  {}

  /** What going on to u keeps, the degrees aside. */
  lemma PushFacts(m: Tri, n: nat, adj: Adj, x: nat, y: nat, s: Stage, u: nat)
    requires Sym(m, n) && AdjOf(adj, m, n) && StageOk(m, n, adj, x, y, s) && 2 <= |s.path| < n
    requires u < n && !s.visited[u] && Has(m, Top(s.path), u) && s.inds[Top(s.path)] < |adj[Top(s.path)]|
    ensures PathOk(m, n, x, y, s.path + [u]) && VisitedOk(n, s.path + [u], s.visited[u := true]) && u !in s.path
    ensures |s.inds| == |adj| == n && forall k :: 0 <= k < |s.path| ==> s.path[k] < n
    ensures IndsOk(adj, n, s.path + [u], s.inds[u := 0][Top(s.path) := s.inds[Top(s.path)] + 1]) && Top(s.path) != u
    ensures Distinct(adj[u]) && forall w :: w in adj[u] ==> w < n
  {
    PushPath(m, n, x, y, s.path, u);
    forall w | w in adj[u] ensures w < n { assert Has(m, u, w); }
  }

  /** What stepping back keeps, the degrees aside. */
  lemma LeaveFacts(m: Tri, n: nat, adj: Adj, x: nat, y: nat, s: Stage, p: seq<nat>)
    requires Sym(m, n) && AdjOf(adj, m, n) && StageOk(m, n, adj, x, y, s) && 2 <= |s.path|
    requires s.path == p + [Top(s.path)]
    ensures Top(s.path) < n && |adj| == n && Top(s.path) !in p && PathOk(m, n, x, y, p)
    ensures VisitedOk(n, p, s.visited[Top(s.path) := false]) && IndsOk(adj, n, p, s.inds)
    ensures Distinct(adj[Top(s.path)]) && forall w :: w in adj[Top(s.path)] ==> w < n
    ensures DegreesOk(adj, n, p + [Top(s.path)], s.degrees)
  {
    hide Sym, Residual, DegreesOk;
    var u := Top(s.path);
    LeavePath(m, n, x, y, s.path, p, u);
    forall w | w in adj[u] ensures w < n {
      assert Has(m, u, w);
      HasBelow(m, n, u, w);
    }
    forall k | 1 <= k < |p| ensures s.inds[p[k]] <= |adj[p[k]]| { assert p[k] == s.path[k]; }
    forall v: nat | v < n ensures v in p <==> v in s.path && v != u {}
  }

  lemma LeavePath(m: Tri, n: nat, x: nat, y: nat, q: seq<nat>, p: seq<nat>, u: nat)
    requires PathOk(m, n, x, y, q) && q == p + [u] && p != []
    ensures PathOk(m, n, x, y, p) && u !in p && u < n
  {
    assert q[|p|] == u;
    assert forall k :: 0 <= k < |p| ==> p[k] == q[k];
  }

  lemma LeaveDegrees(m: Tri, n: nat, adj: Adj, x: nat, y: nat, p: seq<nat>, u: nat, visited: seq<bool>, d: seq<int>,
      d': seq<int>)
    requires Sym(m, n) && AdjOf(adj, m, n) && PathOk(m, n, x, y, p) && DegreesOk(adj, n, p + [u], d) && u < n && u !in p
    requires VisitedOk(n, p, visited) && Shifted(adj, n, u, visited, d, d', 1)
    ensures DegreesOk(adj, n, p, d')
  {
    if |p| >= 2 { PopDegrees(m, n, adj, p, u, visited, d, d'); }
  }

  lemma FullIsPerm(m: Tri, n: nat, x: nat, y: nat, p: seq<nat>)
    requires PathOk(m, n, x, y, p) && |p| == n
    ensures IsPerm(p, n)
  {}

  /** For the unvisited neighbours of the top, the recorded degree is the residual degree. */
  lemma NeighboursKnown(m: Tri, n: nat, adj: Adj, x: nat, y: nat, s: Stage)
    requires Sym(m, n) && AdjOf(adj, m, n) && StageOk(m, n, adj, x, y, s) && 2 <= |s.path|
    ensures |s.visited| == n && |s.degrees| == n
    ensures forall z :: z in adj[Top(s.path)] ==>
      z < n && (s.visited[z] <==> z in s.path) && (z !in s.path ==> s.degrees[z] == Residual(adj, s.path, z))
  {
    forall z | z in adj[Top(s.path)] ensures z < n { HasBelow(m, n, Top(s.path), z); }
  }

  /** The vertices remembered by the scan. */
  function Found(count: nat, w1: nat, w2: nat): seq<nat> {
    if count == 0 then [] else if count == 1 then [w1] else [w1, w2]
  }

  lemma OnesNone(adj: Adj, p: seq<nat>, l: seq<nat>)
    ensures Ones(adj, l[..0], p) == []
  {}

  lemma CandidatesFound(adj: Adj, n: nat, p: seq<nat>, count: nat, w1: nat, w2: nat)
    requires p != [] && Top(p) < |adj| && |p| + 1 < n && count <= 2 && Ones(adj, adj[Top(p)], p) == Found(count, w1, w2)
    ensures Candidates(adj, n, p) == if count == 2 then [w1, w2] else adj[Top(p)]
  {}

  ghost predicate Wide(adj: Adj, w: nat) { forall v :: 0 <= v < |adj| ==> |adj[v]| < w }

  lemma WideAt(adj: Adj, w: nat, v: nat)
    requires Wide(adj, w) && v < |adj|
    ensures |adj[v]| < w
  {}

  /** The next candidate of the top. */
  lemma CandidateKnown(m: Tri, n: nat, adj: Adj, x: nat, y: nat, s: Stage)
    requires Sym(m, n) && AdjOf(adj, m, n) && StageOk(m, n, adj, x, y, s) && 2 <= |s.path| < n
    requires s.inds[Top(s.path)] < |Candidates(adj, n, s.path)|
    ensures var u := Candidates(adj, n, s.path)[s.inds[Top(s.path)]];
      u < n && Has(m, Top(s.path), u) && (s.visited[u] <==> u in s.path)
    ensures |Candidates(adj, n, s.path)| <= |adj[Top(s.path)]|
  {
    var c := Candidates(adj, n, s.path);
    assert forall z :: z in c ==> z in adj[Top(s.path)];
    var u := c[s.inds[Top(s.path)]];
    assert u in c;
    HasBelow(m, n, Top(s.path), u);
  }

  lemma SkipInds(adj: Adj, n: nat, p: seq<nat>, inds: seq<nat>, to: nat)
    requires IndsOk(adj, n, p, inds) && p != [] && Top(p) < n && to <= |adj[Top(p)]| && Distinct(p)
    ensures IndsOk(adj, n, p, inds[Top(p) := to])
  {}

  lemma CandidatesFew(adj: Adj, n: nat, p: seq<nat>)
    requires p != [] && Top(p) < |adj|
    ensures |Candidates(adj, n, p)| <= |adj[Top(p)]|
  {}

  /** With one vertex left all neighbours are candidates. */
  lemma CandidatesLast(adj: Adj, n: nat, p: seq<nat>)
    requires p != [] && Top(p) < |adj|
    ensures |p| + 1 >= n ==> Candidates(adj, n, p) == adj[Top(p)]
  {}

  // ---------------------------------------------------------------- rotating a cycle

  /** The cycle read from position t on. */
  function Forward(c: seq<nat>, t: nat): seq<nat>
    requires t < |c|
  {
    seq(|c|, (k: nat) requires k < |c| => c[if t + k < |c| then t + k else t + k - |c|])
  }

  /** The cycle read backwards from position t on. */
  function Backward(c: seq<nat>, t: nat): seq<nat>
    requires t < |c|
  {
    seq(|c|, (k: nat) requires k < |c| => c[if t >= k then t - k else t - k + |c|])
  }

  lemma ForwardPerm(c: seq<nat>, n: nat, t: nat)
    requires IsPerm(c, n) && t < n
    ensures IsPerm(Forward(c, t), n) && IsPerm(Backward(c, t), n)
  {}

  lemma ForwardStep(m: Tri, n: nat, c: seq<nat>, t: nat, k: nat)
    requires n >= 3 && HamCycle(m, n, c) && t < n && k < n
    ensures Has(m, Forward(c, t)[k], Forward(c, t)[Next(k, n)])
  {
    hide Has;
    var q, s := Forward(c, t), if t + k < n then t + k else t + k - n;
    assert |c| == n && q[k] == c[s] && q[Next(k, n)] == c[Next(s, n)];
  }

  lemma BackwardStep(m: Tri, n: nat, c: seq<nat>, t: nat, k: nat)
    requires n >= 3 && Sym(m, n) && HamCycle(m, n, c) && t < n && k < n
    ensures Has(m, Backward(c, t)[k], Backward(c, t)[Next(k, n)])
  {
    hide Has, Sym;
    var q, s := Backward(c, t), if t >= k then t - k else t - k + n;
    var r := if s == 0 then n - 1 else s - 1;
    assert |c| == n && q[k] == c[s] && q[Next(k, n)] == c[r] && Next(r, n) == s;
    HasBelow(m, n, c[r], c[s]);
  }

  lemma CycleIsPath(m: Tri, n: nat, q: seq<nat>)
    requires n >= 3 && IsPerm(q, n) && forall k :: 0 <= k < n ==> Has(m, q[k], q[Next(k, n)])
    ensures HamPath(m, n, q[0], q[1], q) && Has(m, q[n - 1], q[0])
  {
    assert Next(n - 1, n) == 0;
    forall k | 0 <= k < n - 1 ensures Has(m, q[k], q[k + 1]) { assert Next(k, n) == k + 1; }
  }

  ghost predicate PathThrough(m: Tri, n: nat, x: nat, y: nat, q: seq<nat>) {
    HamPath(m, n, x, y, q) && Has(m, q[n - 1], q[0])
  }

  predicate OnCycle(c: seq<nat>, n: nat, t: nat, x: nat, y: nat) {
    |c| == n && t < n && ((c[t] == x && c[Next(t, n)] == y) || (c[t] == y && c[Next(t, n)] == x))
  }

  /** A Hamiltonian cycle through the edge xy leaves a Hamiltonian path whose closing edge is present. */
  lemma ThroughEdge(m: Tri, n: nat, c: seq<nat>, t: nat, x: nat, y: nat)
    requires n >= 3 && Sym(m, n) && HamCycle(m, n, c) && OnCycle(c, n, t, x, y)
    ensures exists q :: PathThrough(m, n, x, y, q)
  {
    hide IsPerm, Has, Sym, HamPath;
    ForwardPerm(c, n, t);
    ForwardPerm(c, n, Next(t, n));
    var q := if c[t] == x && c[Next(t, n)] == y then Forward(c, t) else Backward(c, Next(t, n));
    forall k | 0 <= k < n ensures Has(m, q[k], q[Next(k, n)]) {
      ForwardStep(m, n, c, t, k);
      BackwardStep(m, n, c, Next(t, n), k);
    }
    CycleIsPath(m, n, q);
    assert PathThrough(m, n, x, y, q);
  }

  lemma ClosedIsAbsent(m: Tri, n: nat, x: nat, y: nat, q: seq<nat>)
    requires Sym(m, n) && IsPerm(q, n) && n >= 1 && Closed(m, q)
    ensures !Has(m, q[n - 1], q[0])
  {}

  lemma CycleSize(m: Tri, n: nat, c: seq<nat>)
    requires HamCycle(m, n, c)
    ensures |c| == n
  {}

  lemma HasApart(m: Tri, i: nat, j: nat)
    requires Has(m, i, j)
    ensures i != j
  {}

  lemma BaseSym(i: nat, j: nat, n: nat)
    ensures Base(i, j, n) <==> Base(j, i, n)
  {}
}
