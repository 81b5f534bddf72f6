/** Enumerating simple paths: the recursive definition, the explicit-stack loop and the resumable iterator. */
module Paths {
  import opened Graphs
  import opened Wrappers

  // ---------------------------------------------------------------- the reference

  /** u can be visited after the path. */
  predicate Free(g: Graph, path: seq<nat>, u: nat) { path != [] && g(path[|path| - 1], u) && u !in path }

  /** All completions of the path to length `len`, in the order the recursion finds them. */
  function Rec(g: Graph, n: nat, len: nat, path: seq<nat>): seq<seq<nat>>
    decreases len - |path|, n + 1
  {
    if |path| >= len then [path] else From(g, n, len, path, 0)
  }

  /** The completions whose next vertex is k or later. */
  function From(g: Graph, n: nat, len: nat, path: seq<nat>, k: nat): seq<seq<nat>>
    decreases len - |path|, n - k
  {
    if k >= n || |path| >= len then []
    else (if Free(g, path, k) then Rec(g, n, len, path + [k]) else []) + From(g, n, len, path, k + 1)
  }

  /** The path p extends the given one by free vertices to length `len`. */
  ghost predicate Extends(g: Graph, n: nat, len: nat, path: seq<nat>, p: seq<nat>) {
    && |p| == len && path <= p
    && forall t :: |path| <= t < len ==> p[t] < n && Free(g, p[..t], p[t])
  }

  lemma ExtendsMore(g: Graph, n: nat, len: nat, path: seq<nat>, p: seq<nat>)
    requires |path| < len
    ensures Extends(g, n, len, path, p) <==>
      |p| == len && p[|path|] < n && Free(g, path, p[|path|]) && Extends(g, n, len, path + [p[|path|]], p)
  {
    if |p| == len && path <= p {
      assert p[..|path|] == path;
      assert p[..|path| + 1] == path + [p[|path|]];
    }
  }

  /** Exactly the completions are listed. */
  lemma {:induction false} FromExact(g: Graph, n: nat, len: nat, path: seq<nat>, k: nat, p: seq<nat>)
    requires |path| < len
    ensures p in From(g, n, len, path, k) <==> Extends(g, n, len, path, p) && p[|path|] >= k
    decreases len - |path|, n - k
  {
    ExtendsMore(g, n, len, path, p);
    if k < n {
      FromExact(g, n, len, path, k + 1, p);
      if Free(g, path, k) {
        RecExact(g, n, len, path + [k], p);
        if Extends(g, n, len, path + [k], p) { assert p[|path|] == (path + [k])[|path|]; }
      }
    }
  }

  lemma {:induction false} RecExact(g: Graph, n: nat, len: nat, path: seq<nat>, p: seq<nat>)
    requires |path| <= len
    ensures p in Rec(g, n, len, path) <==> Extends(g, n, len, path, p)
    decreases len - |path|, n + 1
  {
    if |path| < len {
      FromExact(g, n, len, path, 0, p);
    } else if |p| == len && path <= p {
      assert p == path;
    }
  }

  ghost predicate NoRepeats(ps: seq<seq<nat>>) { forall a, b :: 0 <= a < b < |ps| ==> ps[a] != ps[b] }

  lemma JoinNoRepeats(s: seq<seq<nat>>, t: seq<seq<nat>>)
    requires NoRepeats(s) && NoRepeats(t) && forall p :: p in s ==> p !in t
    ensures NoRepeats(s + t)
  {
    var st := s + t;
    forall a, b | 0 <= a < b < |st| ensures st[a] != st[b] {
      if a < |s| <= b { assert s[a] in s && st[b] == t[b - |s|] && t[b - |s|] in t; }
    }
  }

  lemma {:induction false} FromNoRepeats(g: Graph, n: nat, len: nat, path: seq<nat>, k: nat)
    requires |path| < len
    ensures NoRepeats(From(g, n, len, path, k))
    decreases len - |path|, n - k
  {
    if k < n {
      FromNoRepeats(g, n, len, path, k + 1);
      if Free(g, path, k) {
        RecNoRepeats(g, n, len, path + [k]);
        var s, t := Rec(g, n, len, path + [k]), From(g, n, len, path, k + 1);
        forall p | p in s ensures p !in t {
          RecExact(g, n, len, path + [k], p);
          FromExact(g, n, len, path, k + 1, p);
          assert p[|path|] == (path + [k])[|path|];
        }
        JoinNoRepeats(s, t);
      } else {
        assert From(g, n, len, path, k) == From(g, n, len, path, k + 1);
      }
    }
  }

  lemma {:induction false} RecNoRepeats(g: Graph, n: nat, len: nat, path: seq<nat>)
    requires |path| <= len
    ensures NoRepeats(Rec(g, n, len, path))
    decreases len - |path|, n + 1
  {
    if |path| < len { FromNoRepeats(g, n, len, path, 0); }
  }

  // ---------------------------------------------------------------- one of each path and its reversal

  predicate Kept(p: seq<nat>) { p != [] && p[0] < p[|p| - 1] }

  /** Those that end above where they start. */
  function Keep(ps: seq<seq<nat>>): seq<seq<nat>> {
    if ps == [] then [] else (if Kept(ps[0]) then [ps[0]] else []) + Keep(ps[1..])
  }

  lemma {:induction false} KeepJoin(s: seq<seq<nat>>, t: seq<seq<nat>>)
    ensures Keep(s + t) == Keep(s) + Keep(t)
  {
    if s == [] {
      assert s + t == t;
    } else {
      assert (s + t)[1..] == s[1..] + t;
      KeepJoin(s[1..], t);
    }
  }

  lemma {:induction false} KeepExact(s: seq<seq<nat>>, p: seq<nat>)
    ensures p in Keep(s) <==> p in s && Kept(p)
  {
    if s != [] {
      KeepExact(s[1..], p);
      assert s == [s[0]] + s[1..];
    }
  }

  lemma HeadApart(s: seq<seq<nat>>)
    requires NoRepeats(s) && s != []
    ensures s[0] !in s[1..]
  {
    forall b | 0 <= b < |s[1..]| ensures s[1..][b] != s[0] { assert s[0] != s[b + 1]; }
  }

  lemma {:induction false} KeepNoRepeats(s: seq<seq<nat>>)
    requires NoRepeats(s)
    ensures NoRepeats(Keep(s))
  {
    if s != [] {
      assert NoRepeats(s[1..]) by { forall a,
        b | 0 <= a < b < |s[1..]| ensures s[1..][a] != s[1..][b] { assert s[a + 1] != s[b + 1]; } }
      KeepNoRepeats(s[1..]);
      if Kept(s[0]) {
        HeadApart(s);
        KeepExact(s[1..], s[0]);
        JoinNoRepeats([s[0]], Keep(s[1..]));
      }
    }
  }

  /** A simple path of the graph with `len` vertices. */
  ghost predicate SimplePath(g: Graph, n: nat, len: nat, p: seq<nat>) {
    && |p| == len && (forall t :: 0 <= t < len ==> p[t] < n)
    && (forall s, t :: 0 <= s < t < len ==> p[s] != p[t])
    && forall t :: 0 < t < len ==> Edge(g, p, t)
  }

  ghost predicate Edge(g: Graph, p: seq<nat>, t: int) { 0 < t < |p| && g(p[t - 1], p[t]) }

  lemma SimpleExtends(g: Graph, n: nat, len: nat, v: nat, p: seq<nat>)
    requires v < n && len >= 1
    ensures Extends(g, n, len, [v], p) <==> SimplePath(g, n, len, p) && p[0] == v
  {
    if Extends(g, n, len, [v], p) {
      assert p[0] == [v][0];
      forall t | 0 < t < len ensures Edge(g, p, t) { assert Free(g, p[..t], p[t]); }
      forall s, t | 0 <= s < t < len ensures p[s] != p[t] {
        assert Free(g, p[..t], p[t]);
        assert p[..t][s] in p[..t];
      }
    }
    if SimplePath(g, n, len, p) && p[0] == v {
      assert [v] <= p;
      forall t | 1 <= t < len ensures Free(g, p[..t], p[t]) { assert Edge(g, p, t); }
    }
  }

  /** What one call emits: every simple path from v that ends above v, once. */
  lemma EmittedOnce(g: Graph, n: nat, len: nat, v: nat)
    requires v < n && len >= 2
    ensures NoRepeats(Keep(Rec(g, n, len, [v])))
    ensures forall p :: p in Keep(Rec(g, n, len, [v])) <==> SimplePath(g, n, len, p) && p[0] == v && v < p[len - 1]
  {
    RecNoRepeats(g, n, len, [v]);
    KeepNoRepeats(Rec(g, n, len, [v]));
    forall p ensures p in Keep(Rec(g, n, len, [v])) <==> SimplePath(g, n, len, p) && p[0] == v && v < p[len - 1] {
      KeepExact(Rec(g, n, len, [v]), p);
      RecExact(g, n, len, [v], p);
      SimpleExtends(g, n, len, v, p);
    }
  }

  function Reversed(p: seq<nat>): (r: seq<nat>)
    ensures |r| == |p| && forall t :: 0 <= t < |p| ==> r[t] == p[|p| - 1 - t]
  {
    seq(|p|, (t: nat) requires t < |p| => p[|p| - 1 - t])
  }

  lemma ReversedSimple(g: Graph, n: nat, len: nat, p: seq<nat>)
    requires Symmetric(g, n) && SimplePath(g, n, len, p)
    ensures SimplePath(g, n, len, Reversed(p))
  {
    var r := Reversed(p);
    forall t | 0 < t < len ensures Edge(g, r, t) {
      var s := len - t;
      assert Edge(g, p, s);
      assert r[t - 1] == p[s] && r[t] == p[s - 1];
    }
  }

  /** What the enumeration from every start vertex emits, in order. */
  function AllFrom(g: Graph, n: nat, len: nat, k: nat): seq<seq<nat>> {
    if k == 0 then [] else AllFrom(g, n, len, k - 1) + Keep(Rec(g, n, len, [k - 1]))
  }

  lemma {:induction false} AllFromExact(g: Graph, n: nat, len: nat, k: nat)
    requires k <= n && len >= 2
    ensures NoRepeats(AllFrom(g, n, len, k))
    ensures forall p :: p in AllFrom(g, n, len, k) <==> SimplePath(g, n, len, p) && p[0] < k && p[0] < p[len - 1]
  {
    if k > 0 {
      AllFromExact(g, n, len, k - 1);
      EmittedOnce(g, n, len, k - 1);
      JoinNoRepeats(AllFrom(g, n, len, k - 1), Keep(Rec(g, n, len, [k - 1])));
    }
  }

  /** The number of start vertices tried: the last vertex starts no path that ends above it. */
  function Starts(n: nat): nat { if n == 0 then 0 else n - 1 }

  /** Of every simple path of an undirected graph and its reversal, exactly one is emitted, and once. */
  lemma OnePerPath(g: Graph, n: nat, len: nat, p: seq<nat>)
    requires Symmetric(g, n) && len >= 2 && SimplePath(g, n, len, p)
    ensures NoRepeats(AllFrom(g, n, len, Starts(n)))
    ensures (p in AllFrom(g, n, len, Starts(n)) <==> Reversed(p) !in AllFrom(g, n, len, Starts(n)))
  {
    assert p[0] < n && p[len - 1] < n && p[0] != p[len - 1];
    AllFromExact(g, n, len, Starts(n));
    ReversedSimple(g, n, len, p);
  }

  // ---------------------------------------------------------------- the stack of the loop

  function Ind(inds: seq<nat>, x: nat): nat { if x < |inds| then inds[x] else 0 }

  function Parent(path: seq<nat>): seq<nat> { if path == [] then [] else path[..|path| - 1] }

  /** What backtracking from this path will still find. */
  function Todo(g: Graph, n: nat, len: nat, path: seq<nat>, inds: seq<nat>): seq<seq<nat>> {
    if path == [] then []
      else From(g, n, len, path, Ind(inds, path[|path| - 1])) + Todo(g, n, len, path[..|path| - 1], inds)
  }

  /** What is still to come at the head of the loop. */
  function Remaining(g: Graph, n: nat, len: nat, path: seq<nat>, inds: seq<nat>): seq<seq<nat>> {
    if path != [] && |path| == len then [path] + Todo(g, n, len, Parent(path), inds) else Todo(g, n, len, path, inds)
  }

  // The size of the part of the search tree that is still to come.
  function RecWork(g: Graph, n: nat, len: nat, path: seq<nat>): nat
    decreases len - |path|, n + 1
  {
    if |path| >= len then 2 else 2 + FromWork(g, n, len, path, 0)
  }

  function FromWork(g: Graph, n: nat, len: nat, path: seq<nat>, k: nat): nat
    decreases len - |path|, n - k
  {
    if k >= n || |path| >= len then 0
    else (if Free(g, path, k) then RecWork(g, n, len, path + [k]) else 0) + FromWork(g, n, len, path, k + 1)
  }

  function TodoWork(g: Graph, n: nat, len: nat, path: seq<nat>, inds: seq<nat>): nat {
    if path == [] then 0
      else 1 + FromWork(g, n, len, path, Ind(inds, path[|path| - 1])) + TodoWork(g, n, len, path[..|path| - 1], inds)
  }

  function Work(g: Graph, n: nat, len: nat, path: seq<nat>, inds: seq<nat>): nat {
    if path != [] && |path| == len then 1 + TodoWork(g, n, len, Parent(path), inds) else TodoWork(g, n, len, path, inds)
  }

  ghost predicate Below(path: seq<nat>, n: nat) { forall k :: 0 <= k < |path| ==> path[k] < n }

  ghost predicate Apart(path: seq<nat>) { forall k, l :: 0 <= k < l < |path| ==> path[k] != path[l] }

  ghost predicate Marks(visited: seq<bool>, n: nat, path: seq<nat>) {
    |visited| == n && forall u: nat :: u < n ==> (visited[u] <==> u in path)
  }

  /** The tables describe the path. */
  ghost predicate StackOk(n: nat, len: nat, path: seq<nat>, inds: seq<nat>, visited: seq<bool>) {
    |path| <= len && Below(path, n) && Apart(path) && |inds| == n && Marks(visited, n, path)
  }

  lemma {:induction false} TodoSame(g: Graph, n: nat, len: nat, path: seq<nat>, inds: seq<nat>, inds': seq<nat>)
    requires forall k :: 0 <= k < |path| ==> Ind(inds, path[k]) == Ind(inds', path[k])
    ensures Todo(g, n, len, path, inds) == Todo(g, n, len, path, inds')
    ensures TodoWork(g, n, len, path, inds) == TodoWork(g, n, len, path, inds')
  {
    if path != [] { TodoSame(g, n, len, path[..|path| - 1], inds, inds'); }
  }

  lemma FromNext(g: Graph, n: nat, len: nat, path: seq<nat>, u: nat)
    requires |path| < len && u < n && Free(g, path, u)
    ensures From(g, n, len, path, u) == Rec(g, n, len, path + [u]) + From(g, n, len, path, u + 1)
    ensures FromWork(g, n, len, path, u) == RecWork(g, n, len, path + [u]) + FromWork(g, n, len, path, u + 1)
  {}

  lemma FromSkip(g: Graph, n: nat, len: nat, path: seq<nat>, u: nat)
    requires u >= n || !Free(g, path, u)
    ensures From(g, n, len, path, u) == From(g, n, len, path, u + 1)
    ensures FromWork(g, n, len, path, u) == FromWork(g, n, len, path, u + 1)
  {}

  lemma TodoTop(g: Graph, n: nat, len: nat, path: seq<nat>, inds: seq<nat>)
    requires path != []
    ensures Todo(g, n, len, path, inds) == From(g, n, len, path, Ind(inds, path[|path| - 1])) + Todo(g, n, len,
      Parent(path), inds)
    ensures TodoWork(g, n, len, path, inds) == 1 + FromWork(g, n, len, path, Ind(inds, path[|path| - 1])) + TodoWork(g,
      n, len, Parent(path), inds)
  {}

  lemma RecIs(g: Graph, n: nat, len: nat, path: seq<nat>)
    ensures Rec(g, n, len, path) == if |path| >= len then [path] else From(g, n, len, path, 0)
    ensures RecWork(g, n, len, path) == if |path| >= len then 2 else 2 + FromWork(g, n, len, path, 0)
  {}

  /** The next free neighbour is pushed: what was to come from the stack is now to come from the longer one. */
  lemma PushStep(g: Graph, n: nat, len: nat, path: seq<nat>, inds: seq<nat>, inds': seq<nat>, u: nat)
    requires path != [] && |path| < len && u < n && Free(g, path, u)
    requires Ind(inds', u) == 0 && Ind(inds', path[|path| - 1]) == u + 1
    requires forall k :: 0 <= k < |path| - 1 ==> Ind(inds', path[k]) == Ind(inds, path[k])
    requires var k := Ind(inds, path[|path| - 1]);
      From(g, n, len, path, k) == From(g, n, len, path, u)
      && FromWork(g, n, len, path, k) == FromWork(g, n, len, path, u)
    ensures Remaining(g, n, len, path + [u], inds') == Todo(g, n, len, path, inds)
    ensures Work(g, n, len, path + [u], inds') < TodoWork(g, n, len, path, inds)
  {
    hide Free, From, Rec, FromWork, RecWork, Todo, TodoWork, Ind;
    var up := Parent(path);
    var path' := path + [u];
    assert Parent(path') == path && path'[|path'| - 1] == u;
    TodoSame(g, n, len, up, inds, inds');
    TodoTop(g, n, len, path, inds);
    TodoTop(g, n, len, path, inds');
    FromNext(g, n, len, path, u);
    RecIs(g, n, len, path');
    TodoTop(g, n, len, path', inds');
  }

  lemma PushMarks(n: nat, len: nat, path: seq<nat>, inds: seq<nat>, visited: seq<bool>, u: nat)
    requires StackOk(n, len, path, inds, visited) && |path| < len && u < n && u !in path
    ensures Marks(visited[u := true], n, path + [u]) && Below(path + [u], n) && Apart(path + [u])
  {
    assert forall k :: 0 <= k < |path| ==> path[k] in path;
  }

  /** The last vertex is popped. */
  lemma PopStep(n: nat, len: nat, path: seq<nat>, inds: seq<nat>, visited: seq<bool>)
    requires StackOk(n, len, path, inds, visited) && path != []
    ensures path[|path| - 1] < n && StackOk(n, len, path[..|path| - 1], inds, visited[path[|path| - 1] := false])
  {
    var v, up := path[|path| - 1], path[..|path| - 1];
    forall u: nat | u < n ensures visited[v := false][u] <==> u in up {
      if u in path && u != v {
        var k :| 0 <= k < |path| && path[k] == u;
        assert up[k] == u;
      }
    }
  }

  lemma DeadEnd(g: Graph, n: nat, len: nat, path: seq<nat>, inds: seq<nat>, inds': seq<nat>)
    requires path != [] && Apart(path) && |inds| == |inds'|
    requires From(g, n, len, path, Ind(inds, path[|path| - 1])) == []
    requires forall x: nat :: x < |inds| && x != path[|path| - 1] ==> inds'[x] == inds[x]
    ensures Todo(g, n, len, Parent(path), inds') == Todo(g, n, len, path, inds)
    ensures TodoWork(g, n, len, Parent(path), inds') < TodoWork(g, n, len, path, inds)
  {
    hide From, FromWork, Todo, TodoWork;
    TodoTop(g, n, len, path, inds);
    forall k | 0 <= k < |path| - 1
      ensures Ind(inds, path[k]) == Ind(inds', path[k])
    {
      assert path[k] != path[|path| - 1];
    }
    TodoSame(g, n, len, Parent(path), inds, inds');
  }

  lemma FullStep(g: Graph, n: nat, len: nat, path: seq<nat>, inds: seq<nat>)
    requires |path| == len >= 1
    ensures Keep(Remaining(g, n, len, path, inds)) == (if Kept(path) then [path]
      else []) + Keep(Todo(g, n, len, Parent(path), inds))
  {
    KeepJoin([path], Todo(g, n, len, Parent(path), inds));
  }

  lemma StartStack(g: Graph, n: nat, len: nat, v: nat, inds: seq<nat>, visited: seq<bool>)
    requires v < n && len >= 2 && inds == seq(n, (u: nat) => 0) && visited == seq(n, (u: nat) => false)[v := true]
    ensures StackOk(n, len, [v], inds, visited) && Remaining(g, n, len, [v], inds) == Rec(g, n, len, [v])
  {
    RecIs(g, n, len, [v]);
    assert Parent([v]) == [];
    TodoTop(g, n, len, [v], inds);
  }

  // ---------------------------------------------------------------- the recursion

  /** Appends all paths that continue the first `index` vertices with v; the tables are as before afterwards. */
  method PathsFromRec(g: Graph, n: nat, v: nat, index: nat, currentPath: array<nat>, visited: array<bool>,
      all: seq<seq<nat>>)
    returns (r: seq<seq<nat>>)
    requires Symmetric(g, n) && v < n && index < currentPath.Length && Marks(visited[..], n, currentPath[..index])
    requires Below(currentPath[..index], n) && v !in currentPath[..index]
    modifies currentPath, visited
    ensures r == all + Rec(g, n, currentPath.Length, old(currentPath[..index]) + [v])
    ensures visited[..] == old(visited[..]) && currentPath[..index] == old(currentPath[..index])
    decreases currentPath.Length - index
  {
    hide Rec, From;
    ghost var path := currentPath[..index] + [v];
    ghost var seen := visited[..];
    visited[v] := true;
    currentPath[index] := v;
    assert currentPath[..index + 1] == path;
    RecIs(g, n, currentPath.Length, path);
    r := all;
    if index == currentPath.Length - 1 {
      assert currentPath[..] == path;
      r := r + [currentPath[..]];
    } else {
      for u := 0 to n
        invariant visited.Length == n && visited[..] == seen[v := true] && currentPath[..index + 1] == path
        invariant r + From(g, n, currentPath.Length, path, u) == all + Rec(g, n, currentPath.Length, path)
      {
        Next(g, n, currentPath.Length, path, visited[..], u);
        // The neighbours of v, in increasing order.
        if g(u, v) && !visited[u] {
          r := PathsFromRec(g, n, u, index + 1, currentPath, visited, r);
        }
      }
      FromEnd(g, n, currentPath.Length, path);
    }
    visited[v] := false;
    assert visited[..] == seen;
    assert currentPath[..index] == path[..index];
  }

  lemma FromEnd(g: Graph, n: nat, len: nat, path: seq<nat>)
    ensures From(g, n, len, path, n) == []
  {}

  lemma Next(g: Graph, n: nat, len: nat, path: seq<nat>, visited: seq<bool>, u: nat)
    requires Symmetric(g, n) && path != [] && |path| < len && u < n && |visited| == n && path[|path| - 1] < n
    requires forall x: nat :: x < n ==> (visited[x] <==> x in path)
    ensures From(g, n, len, path, u) ==
      (if g(u, path[|path| - 1]) && !visited[u] then Rec(g, n, len, path + [u]) else []) + From(g, n, len, path, u + 1)
  {
    assert Free(g, path, u) <==> g(u, path[|path| - 1]) && !visited[u];
    if Free(g, path, u) { FromNext(g, n, len, path, u); } else { FromSkip(g, n, len, path, u); }
  }

  // ---------------------------------------------------------------- the loop

  /** Looks for the next free neighbour of the last vertex, from where the last search stopped. */
  method Scan(g: Graph, n: nat, i: nat, currentPath: array<nat>, visited: array<bool>, inds: array<nat>)
    returns (foundNext: bool, i': nat)
    requires currentPath != inds && i + 1 < currentPath.Length
    requires StackOk(n, currentPath.Length, currentPath[..i + 1], inds[..], visited[..])
    modifies currentPath, visited, inds
    ensures foundNext ==>
      i' == i + 1
      && Pushed(g, n, currentPath.Length, old(currentPath[..i + 1]), old(inds[..]), currentPath[..i' + 1], inds[..],
                visited[..])
    ensures !foundNext ==> i' == i && currentPath[..] == old(currentPath[..]) && visited[..] == old(visited[..])
    ensures !foundNext ==> Exhausted(g, n, currentPath.Length, old(currentPath[..i + 1]), old(inds[..]), inds[..])
  {
    hide From, FromWork, StackOk, Pushed, Free, Ind;
    ghost var path, ix, seen, len := currentPath[..i + 1], inds[..], visited[..], currentPath.Length;
    StackFacts(n, len, path, ix, seen);
    var v := currentPath[i];
    assert v == path[i] && Ind(ix, v) == inds[v] by { IndIs(ix, v); }
    foundNext, i' := false, i;
    while inds[v] < n && !foundNext
      invariant visited.Length == inds.Length == n && currentPath.Length == len && v < n
      invariant foundNext ==> i' == i + 1 && Pushed(g, n, len, path, ix, currentPath[..i' + 1], inds[..], visited[..])
      invariant !foundNext ==>
        i' == i && currentPath[..] == old(currentPath[..]) && visited[..] == seen && inds[..] == ix[v := inds[v]]
      invariant !foundNext ==> SameFrom(g, n, len, path, Ind(ix, v), inds[v])
      decreases n - inds[v], !foundNext
    {
      var u := inds[v];
      FreeIs(g, n, len, path, ix, seen, u);
      if g(v, u) && !visited[u] {
        i' := i + 1;
        visited[u] := true;
        currentPath[i'] := u;
        inds[u] := 0;
        foundNext := true;
      }
      inds[v] := inds[v] + 1;
      if foundNext {
        assert currentPath[..i' + 1] == path + [u];
        assert visited[..] == seen[u := true];
        Found(g, n, len, path, ix, seen, inds[..], u);
      } else {
        FromSkip(g, n, len, path, u);
        assert inds[..] == ix[v := inds[v]];
      }
    }
    if !foundNext { NoneLeft(g, n, len, path, ix, inds[..]); }
  }

  /** The completions from k on are those from k' on. */
  ghost predicate SameFrom(g: Graph, n: nat, len: nat, path: seq<nat>, k: nat, k': nat) {
    From(g, n, len, path, k) == From(g, n, len, path, k')
      && FromWork(g, n, len, path, k) == FromWork(g, n, len, path, k')
  }

  /** A longer path, from which the same is still to come. */
  ghost predicate Pushed(g: Graph, n: nat, len: nat, path: seq<nat>, inds: seq<nat>, path': seq<nat>, inds': seq<nat>,
      visited': seq<bool>)
  {
    && StackOk(n, len, path', inds', visited') && path' != [] && |path'| == |path| + 1
    && path' != [] && path <= path'
    && Remaining(g, n, len, path', inds') == Todo(g, n, len, path, inds)
    && Work(g, n, len, path', inds') < TodoWork(g, n, len, path, inds)
  }

  /** Nothing continues the path. */
  ghost predicate Exhausted(g: Graph, n: nat, len: nat, path: seq<nat>, inds: seq<nat>, inds': seq<nat>) {
    && path != [] && |inds'| == |inds|
    && Todo(g, n, len, Parent(path), inds') == Todo(g, n, len, path, inds)
    && TodoWork(g, n, len, Parent(path), inds') < TodoWork(g, n, len, path, inds)
  }

  lemma StackFacts(n: nat, len: nat, path: seq<nat>, inds: seq<nat>, visited: seq<bool>)
    requires StackOk(n, len, path, inds, visited)
    ensures |inds| == |visited| == n && Below(path, n) && Apart(path)
    ensures forall u: nat :: u < n ==> (visited[u] <==> u in path)
  {}

  lemma IndIs(inds: seq<nat>, v: nat)
    requires v < |inds|
    ensures Ind(inds, v) == inds[v]
  {}

  lemma FreeIs(g: Graph, n: nat, len: nat, path: seq<nat>, inds: seq<nat>, visited: seq<bool>, u: nat)
    requires StackOk(n, len, path, inds, visited) && path != [] && u < n
    ensures |visited| == n && (Free(g, path, u) <==> g(path[|path| - 1], u) && !visited[u])
  {}

  lemma Found(g: Graph, n: nat, len: nat, path: seq<nat>, inds: seq<nat>, visited: seq<bool>, inds': seq<nat>, u: nat)
    requires StackOk(n, len, path, inds, visited) && path != [] && |path| < len && u < n && Free(g, path, u)
    requires path[|path| - 1] < n && inds' == inds[path[|path| - 1] := u][u := 0][path[|path| - 1] := u + 1]
    requires SameFrom(g, n, len, path, Ind(inds, path[|path| - 1]), u)
    ensures Pushed(g, n, len, path, inds, path + [u], inds', visited[u := true])
  {
    hide From, FromWork, Todo, TodoWork, Remaining, Work;
    PushMarks(n, len, path, inds, visited, u);
    assert path[|path| - 1] in path && forall k :: 0 <= k < |path| ==> path[k] in path;
    PushStep(g, n, len, path, inds, inds', u);
  }

  lemma NoneLeft(g: Graph, n: nat, len: nat, path: seq<nat>, inds: seq<nat>, inds': seq<nat>)
    requires path != [] && Apart(path) && path[|path| - 1] < |inds| == |inds'| && inds'[path[|path| - 1]] >= n
    requires inds' == inds[path[|path| - 1] := inds'[path[|path| - 1]]]
    requires SameFrom(g, n, len, path, Ind(inds, path[|path| - 1]), inds'[path[|path| - 1]])
    ensures Exhausted(g, n, len, path, inds, inds')
  {
    DeadEnd(g, n, len, path, inds, inds');
  }

  /** Pushes the next free neighbour, or pops. */
  method Move(g: Graph, n: nat, i: nat, currentPath: array<nat>, visited: array<bool>, inds: array<nat>)
    returns (i': int)
    requires currentPath != inds && i + 1 < currentPath.Length && inds.Length == visited.Length == n
    requires StackOk(n, currentPath.Length, currentPath[..i + 1], inds[..], visited[..])
    modifies currentPath, visited, inds
    ensures -1 <= i' < currentPath.Length
    ensures StackOk(n, currentPath.Length, currentPath[..i' + 1], inds[..], visited[..])
    ensures Remaining(g, n, currentPath.Length, currentPath[..i' + 1],
      inds[..]) == old(Todo(g, n, currentPath.Length, currentPath[..i + 1], inds[..]))
    ensures Work(g, n, currentPath.Length, currentPath[..i' + 1],
      inds[..]) < old(TodoWork(g, n, currentPath.Length, currentPath[..i + 1], inds[..]))
  {
    hide Rec, From, StackOk, Keep, Remaining, Work, Todo, TodoWork, Pushed, Exhausted;
    ghost var path, ix, length := currentPath[..i + 1], inds[..], currentPath.Length;
    var v := currentPath[i];
    var foundNext;
    foundNext, i' := Scan(g, n, i, currentPath, visited, inds);
    if foundNext {
      PushedFacts(g, n, length, path, ix, currentPath[..i' + 1], inds[..], visited[..]);
    } else {
      assert currentPath[..i' + 1] == path;
      SameStack(n, length, path, ix, inds[..], visited[..]);
      PopStep(n, length, path, inds[..], visited[..]);
      visited[v] := false;
      i' := i' - 1;
      assert currentPath[..i' + 1] == Parent(path);
      ExhaustedFacts(g, n, length, path, ix, inds[..]);
    }
  }

  /** Appends the paths from v of the given length that end above v. */
  method PathsIter(g: Graph, n: nat, v0: nat, length: nat, all: seq<seq<nat>>) returns (r: seq<seq<nat>>)
    requires v0 < n && length >= 2
    ensures r == all + Keep(Rec(g, n, length, [v0]))
  {
    hide Rec, From, StackOk, Keep, Remaining, Work, Todo, TodoWork, Pushed, Exhausted;
    var visited := new bool[n](_ => false);
    visited[v0] := true;
    var currentPath := new nat[length](_ => 0);
    currentPath[0] := v0;
    var i := 0;
    var inds := new nat[n](_ => 0);
    assert currentPath[..i + 1] == [v0];
    assert visited[..] == seq(n, (u: nat) => false)[v0 := true] && inds[..] == seq(n, (u: nat) => 0);
    StartStack(g, n, length, v0, inds[..], visited[..]);
    r := all;
    while i > -1
      invariant -1 <= i < length == currentPath.Length && visited.Length == inds.Length == n
      invariant StackOk(n, length, currentPath[..i + 1], inds[..], visited[..])
      invariant r + Keep(Remaining(g, n, length, currentPath[..i + 1], inds[..])) == all + Keep(Rec(g, n, length, [v0]))
      decreases Work(g, n, length, currentPath[..i + 1], inds[..])
    {
      ghost var work := Work(g, n, length, currentPath[..i + 1], inds[..]);
      if i == length - 1 {
        ghost var path := currentPath[..i + 1];
        assert path == currentPath[..];
        FullStep(g, n, length, path, inds[..]);
        FullWork(g, n, length, path, inds[..]);
        PopStep(n, length, path, inds[..], visited[..]);
        if currentPath[0] < currentPath[i] { r := r + [currentPath[..]]; }
        visited[currentPath[i]] := false;
        i := i - 1;
        assert currentPath[..i + 1] == Parent(path);
      } else {
        OpenWork(g, n, length, currentPath[..i + 1], inds[..]);
      }
      i := Move(g, n, i, currentPath, visited, inds);
    }
    NothingLeft(g, n, length, currentPath[..i + 1], inds[..]);
  }

  lemma FullWork(g: Graph, n: nat, len: nat, path: seq<nat>, inds: seq<nat>)
    requires |path| == len >= 1
    ensures Work(g, n, len, path, inds) == 1 + TodoWork(g, n, len, Parent(path), inds)
  {}

  lemma OpenWork(g: Graph, n: nat, len: nat, path: seq<nat>, inds: seq<nat>)
    requires |path| < len
    ensures Work(g, n, len, path, inds) == TodoWork(g, n, len, path, inds)
    ensures Remaining(g, n, len, path, inds) == Todo(g, n, len, path, inds)
  {}

  lemma PushedFacts(g: Graph, n: nat, len: nat, path: seq<nat>, inds: seq<nat>, path': seq<nat>, inds': seq<nat>,
      visited': seq<bool>)
    requires Pushed(g, n, len, path, inds, path', inds', visited')
    ensures StackOk(n, len, path', inds', visited') && |inds'| == |visited'| == n
    ensures Remaining(g, n, len, path', inds') == Todo(g, n, len, path, inds)
    ensures Work(g, n, len, path', inds') < TodoWork(g, n, len, path, inds)
  {}

  lemma SameStack(n: nat, len: nat, path: seq<nat>, inds: seq<nat>, inds': seq<nat>, visited: seq<bool>)
    requires StackOk(n, len, path, inds, visited) && |inds'| == |inds|
    ensures StackOk(n, len, path, inds', visited)
  {}

  lemma ExhaustedFacts(g: Graph, n: nat, len: nat, path: seq<nat>, inds: seq<nat>, inds': seq<nat>)
    requires Exhausted(g, n, len, path, inds, inds') && |path| <= len
    ensures Remaining(g, n, len, Parent(path), inds') == Todo(g, n, len, path, inds)
    ensures Work(g, n, len, Parent(path), inds') < TodoWork(g, n, len, path, inds)
  {}

  lemma NothingLeft(g: Graph, n: nat, len: nat, path: seq<nat>, inds: seq<nat>)
    requires path == [] && len >= 1
    ensures Keep(Remaining(g, n, len, path, inds)) == []
  {}

  /** The paths from every start vertex but the last. */
  method AllPaths(g: Graph, n: nat, length: nat) returns (all: seq<seq<nat>>)
    requires length >= 2
    ensures all == AllFrom(g, n, length, Starts(n))
  {
    hide Keep, Rec;
    all := [];
    for i := 0 to Starts(n)
      invariant all == AllFrom(g, n, length, i)
    {
      all := PathsIter(g, n, i, length, all);
    }
  }

  // ---------------------------------------------------------------- the iterator

  class PathIterator {
    const graph: Graph
    const order: nat
    const length: nat
    const currentPath: array<nat>
    const visited: array<bool>
    const inds: array<nat>
    var i: int
    var nextPath: Option<seq<nat>>

    ghost predicate Shape()
      reads this
    {
      && currentPath != inds && currentPath.Length == length >= 2 && inds.Length == visited.Length == order
        && -1 <= i < length
    }

    ghost predicate Stack()
      reads this, currentPath, visited, inds
    {
      Shape() && StackOk(order, length, currentPath[..i + 1], inds[..], visited[..])
    }

    ghost predicate Valid()
      reads this, currentPath, visited, inds
    {
      Stack() && (nextPath == None ==> i == -1)
    }

    ghost function Pending(): seq<seq<nat>>
      requires Shape()
      reads this, currentPath, inds
    {
      Keep(Remaining(graph, order, length, currentPath[..i + 1], inds[..]))
    }

    /** What is still to be returned, in order. */
    ghost function Contents(): seq<seq<nat>>
      requires Shape()
      reads this, currentPath, inds
    {
      (if nextPath.Some? then [nextPath.value] else []) + Pending()
    }

    constructor (g: Graph, n: nat, v: nat, len: nat)
      requires v < n && len >= 2
      ensures Valid() && fresh(currentPath) && fresh(visited) && fresh(inds)
      ensures graph == g && order == n && length == len && Contents() == Keep(Rec(g, n, len, [v]))
    {
      hide Rec, From, StackOk, Keep, Remaining;
      graph, order, length := g, n, len;
      visited := new bool[n](_ => false);
      currentPath := new nat[len](_ => 0);
      inds := new nat[n](_ => 0);
      i, nextPath := 0, None;
      new;
      currentPath[0] := v;
      visited[v] := true;
      assert currentPath[..i + 1] == [v];
      assert visited[..] == seq(n, (u: nat) => false)[v := true] && inds[..] == seq(n, (u: nat) => 0);
      StartStack(g, n, len, v, inds[..], visited[..]);
      PrepareNext();
    }

    predicate HasNext(): (r: bool)
      requires Valid()
      reads this, currentPath, visited, inds
      ensures r <==> Contents() != []
    {
      NothingLeftHere();
      nextPath.Some?
    }

    lemma NothingLeftHere()
      requires Shape()
      ensures i == -1 ==> Pending() == []
    {
      if i == -1 { NothingLeft(graph, order, length, currentPath[..i + 1], inds[..]); }
    }

    /** The next path; None where the source throws. */
    method Next() returns (path: Option<seq<nat>>)
      requires Valid()
      modifies this, currentPath, visited, inds
      ensures Valid()
      ensures if old(Contents()) == [] then path == None && Contents() == []
              else path == Some(old(Contents())[0]) && Contents() == old(Contents())[1..]
    {
      hide Keep, Remaining, StackOk;
      NothingLeftHere();
      if nextPath == None { return None; }
      path := nextPath;
      PrepareNext();
    }

    /** Runs the search to the next path that is kept. */
    method PrepareNext()
      requires Stack()
      modifies this, currentPath, visited, inds
      ensures Valid() && Contents() == old(Pending())
    {
      hide Rec, From, StackOk, Keep, Remaining, Work, Todo, TodoWork, Pushed, Exhausted;
      nextPath := None;
      while i > -1
        invariant Stack() && nextPath == None && Pending() == old(Pending())
        decreases Work(graph, order, length, currentPath[..i + 1], inds[..])
      {
        if i == length - 1 {
          ghost var path := currentPath[..i + 1];
          assert path == currentPath[..];
          FullStep(graph, order, length, path, inds[..]);
          FullWork(graph, order, length, path, inds[..]);
          PopStep(order, length, path, inds[..], visited[..]);
          if currentPath[0] < currentPath[i] { nextPath := Some(currentPath[..]); }
          visited[currentPath[i]] := false;
          i := i - 1;
          assert currentPath[..i + 1] == Parent(path);
          OpenWork(graph, order, length, currentPath[..i + 1], inds[..]);
          if nextPath.Some? { return; }
        } else {
          OpenWork(graph, order, length, currentPath[..i + 1], inds[..]);
        }
        i := Move(graph, order, i, currentPath, visited, inds);
      }
      NothingLeftHere();
    }
  }
}
