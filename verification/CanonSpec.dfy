/** What the counterexample encoding means: its models are the graph-permutation pairs that break a lex implication. */
module CanonSpec {
  import opened Cnf
  import opened Encode
  import opened Graphs
  import opened Orbits
  import opened Matrices
  import opened GraphCnf

  /** The adjacency matrix, row by row, that the first k vertices are to have; no bits leave the graph free. */
  datatype Sub = Sub(bits: seq<bool>, k: nat)

  function NoSub(): Sub { Sub([], 0) }

  ghost predicate SubOk(sub: Sub, n: nat) { |sub.bits| == sub.k * sub.k && sub.k <= n }

  lemma SubCell(sub: Sub, n: nat, j: nat)
    requires SubOk(sub, n) && j < |sub.bits|
    ensures 0 < sub.k && j / sub.k < n && j % sub.k < n
  {
    if j / sub.k >= sub.k {
      assert (j / sub.k) * sub.k >= sub.k * sub.k by { MulLe(sub.k, j / sub.k, sub.k); }
    }
  }

  /** The graph has the given subgraph on its first vertices. */
  ghost predicate Embeds(g: Graph, sub: Sub) {
    forall j: nat :: j < |sub.bits| && sub.k > 0 ==> sub.bits[j] == EdgeAt(g, j / sub.k, j % sub.k)
  }

  ghost predicate EdgeAt(g: Graph, i: nat, j: nat) { i != j && g(i, j) }

  ghost predicate EmbeddedAt(a: Assignment, m: seq<seq<int>>, n: nat, sub: Sub, j: nat) {
    j < |sub.bits| && sub.k > 0 && SquareOf(m, n) && j / sub.k < n && j % sub.k < n ==>
      B(a, m[j / sub.k][j % sub.k]) == sub.bits[j]
  }

  /** The first l bits of the subgraph are the values of the matrix's references. */
  ghost predicate EmbeddedTo(a: Assignment, m: seq<seq<int>>, n: nat, sub: Sub, l: nat) {
    forall j: nat :: j < l ==> EmbeddedAt(a, m, n, sub, j)
  }

  ghost function EmbedPhi(m: seq<seq<int>>, n: nat, sub: Sub, l: nat): Assignment -> bool {
    (a: Assignment) => EmbeddedTo(a, m, n, sub, l)
  }

  /** The references of the two graphs and the permutation; those of g1 end at h1, of g2 at h2. */
  datatype Names = Names(n: nat, g1: seq<seq<int>>, g2: seq<seq<int>>, h1: nat, h2: nat, sub: Sub) {
    function Rows(): seq<seq<int>> { Grid(h2, n) }
    function NV(): nat { h2 + n * n }
    ghost predicate Ok() {
      SquareOf(g1, n) && SquareOf(g2, n) && AdjNamed(g1, n, 1, h1) && AdjNamed(g2, n, h1, h2) && SubOk(sub, n)
    }
  }

  function GraphOf(a: Assignment, m: seq<seq<int>>, n: nat): Graph
    requires SquareOf(m, n)
  {
    (i: nat, j: nat) => i < n && j < n && B(a, m[i][j])
  }

  /** The references of a graph's string. */
  ghost function Refs(m: seq<seq<int>>, n: nat, ix: Indexing): (r: seq<int>)
    requires SquareOf(m, n)
    ensures |r| == |Pairs(n, ix)|
  {
    Entries(m, n, PairsIn(n, ix))
  }

  /** The references of a graph as a string, in the chosen order. */
  method IndexingOf(g: Matrix<int>, n: nat, ix: Indexing) returns (s: seq<int>)
    requires g.Square(n)
    ensures s == Refs(g.Rows(), n, ix)
  {
    if ix == UpperTriangleRows {
      s := g.UpperTriangle();
    } else {
      s := g.LowerTriangle();
    }
  }

  ghost predicate ImpOk(imp: LexImplication, n: nat, ix: Indexing) {
    |imp.perm| <= n && IsPerm(imp.perm, |imp.perm|) && 1 <= imp.length <= |Pairs(n, ix)|
  }

  ghost predicate ImpsOk(imps: seq<LexImplication>, n: nat, ix: Indexing) {
    forall k :: 0 <= k < |imps| ==> ImpOk(imps[k], n, ix)
  }

  lemma ImpWithin(imp: LexImplication, n: nat, ix: Indexing)
    requires ImpOk(imp, n, ix)
    ensures Within(imp.perm, n)
  {}

  ghost predicate ImpOn(a: Assignment, m: seq<seq<int>>, n: nat, ix: Indexing, imp: LexImplication) {
    SquareOf(m, n) && Within(imp.perm, n) ==>
      LexImp(a, Refs(m, n, ix), Refs(Permuted(m, n, imp.perm), n, ix), imp.length)
  }

  ghost predicate ImpsOn(a: Assignment, m: seq<seq<int>>, n: nat, ix: Indexing, imps: seq<LexImplication>) {
    forall k :: 0 <= k < |imps| ==> ImpOn(a, m, n, ix, imps[k])
  }

  /** A permutation, an isomorphism, the embedded subgraph, and a first difference downwards at position len - 1. */
  ghost predicate Breaks(a: Assignment, e: Names, ix: Indexing, len: nat) {
    && PermPhi(e.Rows(), e.n)(a) && IsoPhi(e.g1, e.g2, e.Rows(), e.n)(a)
      && EmbeddedTo(a, e.g1, e.n, e.sub, |e.sub.bits|)
    && SquareOf(e.g1, e.n) && SquareOf(e.g2, e.n) && LexLt(a, Refs(e.g2, e.n, ix), Refs(e.g1, e.n, ix), len)
  }

  ghost predicate Counter(a: Assignment, e: Names, ix: Indexing, len: nat, imps: seq<LexImplication>) {
    Breaks(a, e, ix, len) && ImpsOn(a, e.g1, e.n, ix, imps)
  }

  ghost function CounterPhi(e: Names, ix: Indexing, len: nat, imps: seq<LexImplication>): Assignment -> bool {
    (a: Assignment) => Counter(a, e, ix, len, imps)
  }

  // ---------------------------------------------------------------- references and strings

  lemma RefsStr(a: Assignment, m: seq<seq<int>>, n: nat, ix: Indexing, g: Graph)
    requires SquareOf(m, n) && forall i: nat, j: nat :: i < n && j < n && i != j ==> B(a, m[i][j]) == g(i, j)
    ensures forall k :: 0 <= k < |Pairs(n, ix)| ==> B(a, Refs(m, n, ix)[k]) == Str(g, Pairs(n, ix))[k]
  {
    var ps := PairsIn(n, ix);
    forall k | 0 <= k < |ps| ensures B(a, Refs(m, n, ix)[k]) == Str(g, ps)[k] {
      assert B(a, m[ps[k].0][ps[k].1]) == g(ps[k].0, ps[k].1);
    }
  }

  lemma PermutedRefs(a: Assignment, m: seq<seq<int>>, n: nat, ix: Indexing, g: Graph, p: seq<nat>)
    requires SquareOf(m, n) && |p| <= n && IsPerm(p, |p|) && Within(p, n)
    requires forall i: nat, j: nat :: i < n && j < n && i != j ==> B(a, m[i][j]) == g(i, j)
    ensures forall k :: 0 <= k < |Pairs(n, ix)| ==>
      B(a, Refs(Permuted(m, n, p), n, ix)[k]) == Str(Permute(g, p), Pairs(n, ix))[k]
  {
    var m' := Permuted(m, n, p);
    forall i: nat, j: nat | i < n && j < n && i != j ensures B(a, m'[i][j]) == Permute(g, p)(i, j) {
      AtApart(p, n, i, j);
      assert B(a, m[At(p, i)][At(p, j)]) == g(At(p, i), At(p, j));
    }
    RefsStr(a, m', n, ix, Permute(g, p));
  }

  lemma AtApart(p: seq<nat>, n: nat, i: nat, j: nat)
    requires |p| <= n && IsPerm(p, |p|) && i < n && j < n && i != j
    ensures At(p, i) < n && At(p, j) < n && At(p, i) != At(p, j)
  {}

  lemma LexDrops(a: Assignment, arr1: seq<int>, arr2: seq<int>, s: seq<bool>, t: seq<bool>, len: nat)
    requires |arr1| == |arr2| == |s| == |t| && 1 <= len <= |s|
    requires forall k :: 0 <= k < |s| ==> B(a, arr1[k]) == s[k]
    requires forall k :: 0 <= k < |s| ==> B(a, arr2[k]) == t[k]
    ensures LexLt(a, arr2, arr1, len) <==> DropsAt(s, t, len - 1)
    ensures LexImp(a, arr1, arr2, len) <==> !DropsAt(s, t, len - 1)
  {
    hide B;
    if Same(a, arr1, arr2, len - 1) {
      forall k | 0 <= k < len - 1 ensures s[k] == t[k] { assert B(a, arr1[k]) == B(a, arr2[k]); }
      assert s[..len - 1] == t[..len - 1];
    }
    if s[..len - 1] == t[..len - 1] {
      forall k | 0 <= k < len - 1 ensures s[k] == t[k] { assert s[..len - 1][k] == t[..len - 1][k]; }
    }
  }

  /** A lex implication on references is the lex implication on the graph. */
  lemma ImpMeaning(a: Assignment, m: seq<seq<int>>, n: nat, ix: Indexing, g: Graph, imp: LexImplication)
    requires SquareOf(m, n) && ImpOk(imp, n, ix)
    requires forall i: nat, j: nat :: i < n && j < n && i != j ==> B(a, m[i][j]) == g(i, j)
    ensures ImpOn(a, m, n, ix, imp) <==> SatImp(g, Pairs(n, ix), imp)
  {
    hide B, LexImp, DropsAt, Permute, Permuted, IsPerm, Reads, Refs, Str;
    ImpWithin(imp, n, ix);
    StringsRead(a, m, n, ix, g, imp.perm);
    var ps := Pairs(n, ix);
    ReadsDrops(a, Refs(m, n, ix), Refs(Permuted(m, n, imp.perm), n, ix), Str(g, ps), Str(Permute(g, imp.perm), ps),
      imp.length);
  }

  /** The references have the values of the string. */
  ghost predicate Reads(a: Assignment, arr: seq<int>, s: seq<bool>) {
    |arr| == |s| && forall k :: 0 <= k < |s| ==> B(a, arr[k]) == s[k]
  }

  lemma StringsRead(a: Assignment, m: seq<seq<int>>, n: nat, ix: Indexing, g: Graph, p: seq<nat>)
    requires SquareOf(m, n) && |p| <= n && IsPerm(p, |p|) && Within(p, n)
    requires forall i: nat, j: nat :: i < n && j < n && i != j ==> B(a, m[i][j]) == g(i, j)
    ensures Reads(a, Refs(m, n, ix), Str(g, Pairs(n, ix)))
    ensures Reads(a, Refs(Permuted(m, n, p), n, ix), Str(Permute(g, p), Pairs(n, ix)))
  {
    hide B, Permute, Permuted, IsPerm, Refs;
    RefsStr(a, m, n, ix, g);
    PermutedRefs(a, m, n, ix, g, p);
  }

  lemma ReadsDrops(a: Assignment, arr1: seq<int>, arr2: seq<int>, s: seq<bool>, t: seq<bool>, len: nat)
    requires Reads(a, arr1, s) && Reads(a, arr2, t) && |s| == |t| && 1 <= len <= |s|
    ensures LexImp(a, arr1, arr2, len) <==> !DropsAt(s, t, len - 1)
  {
    hide B, LexImp, DropsAt;
    LexDrops(a, arr1, arr2, s, t, len);
  }

  // ---------------------------------------------------------------- from models to graphs

  lemma RowDecoded(a: Assignment, row: seq<int>, c: nat)
    requires ExactlyOne(a, row) && c < |row|
    ensures FirstTrue(a, row) < |row| && (B(a, row[c]) <==> FirstTrue(a, row) == c)
  {
    var k: nat :| k < |row| && B(a, row[k]);
    FirstTrueAt(a, row, k);
  }

  /** The rows of a model decode to a permutation, and say exactly what it is. */
  lemma PermDecoded(a: Assignment, rows: seq<seq<int>>, n: nat)
    requires SquareOf(rows, n) && PermPhi(rows, n)(a)
    ensures IsPerm(Decoded(a, rows), n)
    ensures forall k: nat, c: nat :: k < n && c < n ==> (B(a, rows[k][c]) <==> Decoded(a, rows)[k] == c)
  {
    hide B, ExactlyOne, FirstTrue, ColsOn;
    var p := Decoded(a, rows);
    forall k: nat, c: nat | k < n && c < n ensures p[k] < n && (B(a, rows[k][c]) <==> p[k] == c) {
      assert ExactlyOne(a, rows[k]);
      RowDecoded(a, rows[k], c);
    }
    forall k: nat | k < n ensures p[k] < n && B(a, rows[k][p[k]]) {
      assert B(a, rows[k][0]) <==> p[k] == 0;
    }
    forall k, l | 0 <= k < l < n ensures p[k] != p[l] {
      if p[k] == p[l] { OneInColumn(a, rows, n, p[k], k, l); }
    }
  }

  lemma IsoEdge(a: Assignment, e: Names, p: seq<nat>, k: nat, l: nat)
    requires e.Ok() && IsPerm(p, e.n) && k < e.n && l < e.n && k != l && p[k] < p[l]
    requires forall x: nat, c: nat :: x < e.n && c < e.n ==> (B(a, e.Rows()[x][c]) <==> p[x] == c)
    requires IsoAt(a, e.g1, e.g2, e.Rows(), e.n, p[k], p[l])
    ensures B(a, e.g2[k][l]) == B(a, e.g1[p[k]][p[l]])
  {
    var n, rows := e.n, e.Rows();
    if B(a, e.g2[k][l]) { assert Term(a, e.g2, rows, n, k, l, p[k], p[l]); }
    if B(a, e.g1[p[k]][p[l]]) {
      var x: nat, y: nat :| x != y && Term(a, e.g2, rows, n, x, y, p[k], p[l]);
      assert p[x] == p[k] && p[y] == p[l];
    }
  }

  lemma NamedSymmetric(m: seq<seq<int>>, n: nat, lo: nat, hi: nat, i: nat, j: nat)
    requires AdjNamed(m, n, lo, hi) && i < n && j < n
    ensures m[i][j] == m[j][i]
  {
    assert i < j ==> Before(i, j, n, n);
    assert j < i ==> Before(j, i, n, n);
  }

  /** In a model, the second graph is the first one permuted. */
  lemma IsoMeaning(a: Assignment, e: Names)
    requires e.Ok() && PermPhi(e.Rows(), e.n)(a) && IsoPhi(e.g1, e.g2, e.Rows(), e.n)(a)
    ensures IsPerm(Decoded(a, e.Rows()), e.n)
    ensures forall i: nat, j: nat :: i < e.n && j < e.n && i != j ==>
      B(a, e.g2[i][j]) == Permute(GraphOf(a, e.g1, e.n), Decoded(a, e.Rows()))(i, j)
  {
    hide B, IsoAt, RowsOn, ColsOn, FirstTrue, AdjNamed;
    var n, rows := e.n, e.Rows();
    var p := Decoded(a, rows);
    PermDecoded(a, rows, n);
    forall k: nat, l: nat | k < n && l < n && k != l ensures B(a, e.g2[k][l]) == B(a, e.g1[p[k]][p[l]]) {
      if p[k] < p[l] {
        assert Before(p[k], p[l], n, n);
        IsoEdge(a, e, p, k, l);
      } else {
        assert Before(p[l], p[k], n, n);
        IsoEdge(a, e, p, l, k);
        NamedSymmetric(e.g2, n, e.h1, e.h2, k, l);
        NamedSymmetric(e.g1, n, 1, e.h1, p[k], p[l]);
      }
    }
    forall i: nat, j: nat | i < n && j < n && i != j ensures B(a, e.g2[i][j]) == Permute(GraphOf(a, e.g1, n), p)(i, j) {
      assert At(p, i) == p[i] && At(p, j) == p[j];
    }
  }

  lemma ModelGraph(a: Assignment, e: Names)
    requires e.Ok()
    ensures Symmetric(GraphOf(a, e.g1, e.n), e.n)
  {
    hide AdjNamed, B;
    forall i: nat, j: nat | i < e.n && j < e.n
      ensures e.g1[i][j] == e.g1[j][i]
    {
      NamedSymmetric(e.g1, e.n, 1, e.h1, i, j);
    }
  }

  /** A model is a graph that satisfies all implications and a permutation that breaks it at position len - 1. */
  lemma CounterSound(a: Assignment, e: Names, ix: Indexing, len: nat, imps: seq<LexImplication>)
    requires e.Ok() && Counter(a, e, ix, len, imps) && ImpsOk(imps, e.n, ix)
    ensures var g, p := GraphOf(a, e.g1, e.n), Decoded(a, e.Rows());
      && Symmetric(g, e.n) && IsPerm(p, e.n) && SatImps(g, Pairs(e.n, ix), imps)
      && 1 <= len <= |Pairs(e.n, ix)| && !SatImp(g, Pairs(e.n, ix), LexImplication(p, len))
  {
    hide B, LexLt, ImpOn, SatImp, IsoPhi, PermPhi, FirstTrue, AdjNamed, DropsAt;
    var g, p, ps := GraphOf(a, e.g1, e.n), Decoded(a, e.Rows()), Pairs(e.n, ix);
    ModelGraph(a, e);
    IsoMeaning(a, e);
    forall k | 0 <= k < |imps| ensures SatImp(g, ps, imps[k]) { ImpMeaning(a, e.g1, e.n, ix, g, imps[k]); }
    RefsStr(a, e.g1, e.n, ix, g);
    RefsStr(a, e.g2, e.n, ix, Permute(g, p));
    LexLtLength(a, Refs(e.g2, e.n, ix), Refs(e.g1, e.n, ix), len);
    LexDrops(a, Refs(e.g1, e.n, ix), Refs(e.g2, e.n, ix), Str(g, ps), Str(Permute(g, p), ps), len);
    Broken(g, ps, p, len);
  }

  lemma LexLtLength(a: Assignment, arr1: seq<int>, arr2: seq<int>, len: nat)
    requires LexLt(a, arr1, arr2, len)
    ensures 1 <= len <= |arr1|
  {}

  lemma Broken(g: Graph, ps: seq<(nat, nat)>, p: seq<nat>, len: nat)
    requires 1 <= len <= |ps|
    ensures SatImp(g, ps, LexImplication(p, len)) <==> !DropsAt(Str(g, ps), Str(Permute(g, p), ps), len - 1)
  {}

  // ---------------------------------------------------------------- from graphs to models

  /** The reference of an edge i < j of the matrix is variable v. */
  predicate EdgeVar(m: seq<seq<int>>, n: nat, i: nat, j: nat, v: nat) {
    SquareOf(m, n) && i < j < n && m[i][j] == v + 1
  }

  /** The assignment that names the graph g, its copy permuted by p, and p itself. */
  ghost function Witness(e: Names, g: Graph, p: seq<nat>): Assignment {
    (v: nat) => v == 0
      || (exists i: nat, j: nat :: EdgeVar(e.g1, e.n, i, j, v) && g(i, j))
      || (exists i: nat, j: nat :: EdgeVar(e.g2, e.n, i, j, v) && Permute(g, p)(i, j))
      || (exists k: nat, c: nat :: EntryVar(e.Rows(), e.n, k, c, v) && At(p, k) == c)
  }

  predicate EntryVar(m: seq<seq<int>>, n: nat, k: nat, c: nat, v: nat) {
    SquareOf(m, n) && k < n && c < n && m[k][c] == v + 1
  }

  lemma NamedBounds(m: seq<seq<int>>, n: nat, lo: nat, hi: nat, i: nat, j: nat)
    requires AdjNamed(m, n, lo, hi) && i < j < n
    ensures lo < m[i][j] <= hi
    ensures forall x: nat, y: nat, v: nat :: EdgeVar(m, n, x, y, v) ==> lo < v + 1 <= hi
    ensures forall x: nat, y: nat, v: nat :: EdgeVar(m, n, x, y, v) && v + 1 == m[i][j] ==> x == i && y == j
  {
    assert Before(i, j, n, n);
    forall x: nat, y: nat, v: nat | EdgeVar(m, n, x, y, v)
      ensures lo < v + 1 <= hi && (v + 1 == m[i][j] ==> x == i && y == j)
    {
      assert Before(x, y, n, n);
    }
  }

  lemma GridBounds(nv: nat, n: nat)
    ensures forall k: nat, c: nat, v: nat :: EntryVar(Grid(nv, n), n, k, c, v) ==> v >= nv
  {}

  lemma EdgeRange(m: seq<seq<int>>, n: nat, lo: nat, hi: nat)
    requires AdjNamed(m, n, lo, hi)
    ensures forall x: nat, y: nat, v: nat :: EdgeVar(m, n, x, y, v) ==> lo <= v < hi
  {
    forall x: nat, y: nat, v: nat | EdgeVar(m, n, x, y, v) ensures lo <= v < hi { NamedBounds(m, n, lo, hi, x, y); }
  }

  lemma WitnessG1(e: Names, g: Graph, p: seq<nat>, i: nat, j: nat)
    requires e.Ok() && i < j < e.n
    ensures B(Witness(e, g, p), e.g1[i][j]) == g(i, j)
  {
    hide AdjNamed, EdgeVar, EntryVar;
    NamedBounds(e.g1, e.n, 1, e.h1, i, j);
    EdgeRange(e.g2, e.n, e.h1, e.h2);
    GridBounds(e.h2, e.n);
    var v: nat := e.g1[i][j] - 1;
    EdgeVarIs(e.g1, e.n, i, j);
    assert v < e.h1 <= e.h2 by { NamedOrder(e.g2, e.n, e.h1, e.h2); }
    assert (exists x: nat, y: nat :: EdgeVar(e.g1, e.n, x, y, v) && g(x, y)) == g(i, j);
    assert v != 0;
    assert !(exists x: nat, y: nat :: EdgeVar(e.g2, e.n, x, y, v) && Permute(g, p)(x, y));
    assert !(exists k: nat, c: nat :: EntryVar(e.Rows(), e.n, k, c, v) && At(p, k) == c);
    assert Witness(e, g, p)(v) == g(i, j);
  }

  lemma NamedOrder(m: seq<seq<int>>, n: nat, lo: nat, hi: nat)
    requires AdjNamed(m, n, lo, hi)
    ensures lo <= hi
  {}

  lemma EdgeVarIs(m: seq<seq<int>>, n: nat, i: nat, j: nat)
    requires SquareOf(m, n) && i < j < n && m[i][j] >= 1
    ensures EdgeVar(m, n, i, j, m[i][j] - 1)
  {}

  lemma WitnessG2(e: Names, g: Graph, p: seq<nat>, i: nat, j: nat)
    requires e.Ok() && i < j < e.n
    ensures B(Witness(e, g, p), e.g2[i][j]) == Permute(g, p)(i, j)
  {
    hide AdjNamed, EdgeVar, EntryVar, Permute;
    NamedBounds(e.g2, e.n, e.h1, e.h2, i, j);
    EdgeRange(e.g1, e.n, 1, e.h1);
    NamedOrder(e.g1, e.n, 1, e.h1);
    GridBounds(e.h2, e.n);
    var v: nat := e.g2[i][j] - 1;
    EdgeVarIs(e.g2, e.n, i, j);
    assert (exists x: nat, y: nat :: EdgeVar(e.g2, e.n, x, y, v) && Permute(g, p)(x, y)) == Permute(g, p)(i, j);
    assert v != 0;
    assert !(exists x: nat, y: nat :: EdgeVar(e.g1, e.n, x, y, v) && g(x, y));
    assert !(exists k: nat, c: nat :: EntryVar(e.Rows(), e.n, k, c, v) && At(p, k) == c);
    assert Witness(e, g, p)(v) == Permute(g, p)(i, j);
  }

  lemma WitnessRows(e: Names, g: Graph, p: seq<nat>, k: nat, c: nat)
    requires e.Ok() && k < e.n && c < e.n
    ensures B(Witness(e, g, p), e.Rows()[k][c]) == (At(p, k) == c)
  {
    hide AdjNamed, EdgeVar, Permute, Cell;
    EdgeRange(e.g1, e.n, 1, e.h1);
    EdgeRange(e.g2, e.n, e.h1, e.h2);
    NamedOrder(e.g1, e.n, 1, e.h1);
    NamedOrder(e.g2, e.n, e.h1, e.h2);
    var v: nat := e.Rows()[k][c] - 1;
    assert EntryVar(e.Rows(), e.n, k, c, v);
    forall x: nat, y: nat | EntryVar(e.Rows(), e.n, x, y, v) ensures x == k && y == c {
      if x != k || y != c { CellApart(e.n, k, c, x, y); }
    }
    assert Witness(e, g, p)(v) == (At(p, k) == c);
  }

  lemma OneTrue(a: Assignment, bs: seq<int>, c: nat)
    requires c < |bs| && forall k: nat :: k < |bs| ==> (B(a, bs[k]) <==> k == c)
    ensures ExactlyOne(a, bs)
  {
    assert B(a, bs[c]);
  }

  /** The rows of references spell out the permutation p. */
  ghost predicate Spells(a: Assignment, rows: seq<seq<int>>, n: nat, p: seq<nat>) {
    SquareOf(rows, n) && |p| == n && forall k: nat, c: nat :: k < n && c < n ==> (B(a, rows[k][c]) <==> p[k] == c)
  }

  /** The second graph's references are those of g renamed by p. */
  ghost predicate IsCopy(a: Assignment, m: seq<seq<int>>, n: nat, g: Graph, p: seq<nat>) {
    SquareOf(m, n) && forall i: nat, j: nat :: i < n && j < n && i != j ==> B(a, m[i][j]) == Permute(g, p)(i, j)
  }

  lemma SpellsPerm(a: Assignment, rows: seq<seq<int>>, n: nat, p: seq<nat>)
    requires Spells(a, rows, n, p) && IsPerm(p, n)
    ensures PermPhi(rows, n)(a)
  {
    hide B, ExactlyOne;
    forall k | 0 <= k < n ensures ExactlyOne(a, rows[k]) { OneTrue(a, rows[k], p[k]); }
    forall c: nat | c < n ensures ExactlyOne(a, Column(rows, n, c)) {
      Onto(p, n, c);
      var k: nat :| k < n && p[k] == c;
      OneTrue(a, Column(rows, n, c), k);
    }
  }

  lemma CopyIso(a: Assignment, e: Names, p: seq<nat>)
    requires e.Ok() && IsPerm(p, e.n) && Spells(a, e.Rows(), e.n, p) && IsCopy(a, e.g2, e.n, GraphOf(a, e.g1, e.n), p)
    ensures IsoPhi(e.g1, e.g2, e.Rows(), e.n)(a)
  {
    hide B, AdjNamed;
    var n, rows, g := e.n, e.Rows(), GraphOf(a, e.g1, e.n);
    forall i: nat, j: nat | j < n && Before(i, j, n, n) ensures IsoAt(a, e.g1, e.g2, rows, n, i, j) {
      Onto(p, n, i);
      Onto(p, n, j);
      var k: nat :| k < n && p[k] == i;
      var l: nat :| l < n && p[l] == j;
      assert At(p, k) == i && At(p, l) == j;
      assert B(a, e.g2[k][l]) == Permute(g, p)(k, l) == g(i, j);
      if g(i, j) { assert Term(a, e.g2, rows, n, k, l, i, j); }
      if x: nat, y: nat :| x != y && Term(a, e.g2, rows, n, x, y, i, j) {
        assert At(p, x) == i && At(p, y) == j;
        assert B(a, e.g2[x][y]) == Permute(g, p)(x, y);
      }
    }
  }

  /**
   * On the named variables, the clauses hold exactly when the rows spell a bijection and the second graph is the first
   * renamed by it.
   */
  lemma EncodingExact(a: Assignment, e: Names)
    requires e.Ok()
    ensures (PermPhi(e.Rows(), e.n)(a) && IsoPhi(e.g1, e.g2, e.Rows(), e.n)(a)) <==>
      exists p :: IsPerm(p, e.n) && Spells(a, e.Rows(), e.n, p) && IsCopy(a, e.g2, e.n, GraphOf(a, e.g1, e.n), p)
  {
    hide B, AdjNamed, Permute, RowsOn, ColsOn, IsoUpTo, FirstTrue;
    if PermPhi(e.Rows(), e.n)(a) && IsoPhi(e.g1, e.g2, e.Rows(), e.n)(a) {
      var p := Decoded(a, e.Rows());
      PermDecoded(a, e.Rows(), e.n);
      IsoMeaning(a, e);
      assert Spells(a, e.Rows(), e.n, p) && IsCopy(a, e.g2, e.n, GraphOf(a, e.g1, e.n), p);
    }
    if p :| IsPerm(p, e.n) && Spells(a, e.Rows(), e.n, p) && IsCopy(a, e.g2, e.n, GraphOf(a, e.g1, e.n), p) {
      SpellsPerm(a, e.Rows(), e.n, p);
      CopyIso(a, e, p);
    }
  }

  lemma WitnessSpells(e: Names, g: Graph, p: seq<nat>)
    requires e.Ok() && IsPerm(p, e.n)
    ensures Spells(Witness(e, g, p), e.Rows(), e.n, p)
  {
    hide B, Witness, AdjNamed;
    forall k: nat, c: nat | k < e.n && c < e.n
      ensures B(Witness(e, g, p), e.Rows()[k][c]) == (p[k] == c)
    {
      WitnessRows(e, g, p, k, c);
    }
  }

  lemma PermutedSymmetric(g: Graph, p: seq<nat>, n: nat, i: nat, j: nat)
    requires IsPerm(p, n) && Symmetric(g, n) && i < n && j < n
    ensures Permute(g, p)(i, j) == Permute(g, p)(j, i)
  {
    assert At(p, i) < n && At(p, j) < n;
    assert g(At(p, i), At(p, j)) == g(At(p, j), At(p, i));
  }

  lemma WitnessEdges(e: Names, g: Graph, p: seq<nat>)
    requires e.Ok() && IsPerm(p, e.n) && Symmetric(g, e.n)
    ensures forall i: nat, j: nat :: i < e.n && j < e.n && i != j ==> B(Witness(e, g, p), e.g1[i][j]) == g(i, j)
    ensures forall i: nat, j: nat :: i < e.n && j < e.n && i != j ==>
      B(Witness(e, g, p), e.g2[i][j]) == Permute(g, p)(i, j)
  {
    hide B, Witness, AdjNamed;
    var a := Witness(e, g, p);
    forall i: nat, j: nat | i < e.n && j < e.n && i != j
      ensures B(a, e.g1[i][j]) == g(i, j) && B(a, e.g2[i][j]) == Permute(g, p)(i, j)
    {
      NamedSymmetric(e.g1, e.n, 1, e.h1, i, j);
      NamedSymmetric(e.g2, e.n, e.h1, e.h2, i, j);
      PermutedSymmetric(g, p, e.n, i, j);
      if i < j {
        WitnessG1(e, g, p, i, j);
        WitnessG2(e, g, p, i, j);
      } else {
        WitnessG1(e, g, p, j, i);
        WitnessG2(e, g, p, j, i);
      }
    }
  }

  lemma WitnessCopy(e: Names, g: Graph, p: seq<nat>)
    requires e.Ok() && IsPerm(p, e.n) && Symmetric(g, e.n)
    ensures IsCopy(Witness(e, g, p), e.g2, e.n, GraphOf(Witness(e, g, p), e.g1, e.n), p)
  {
    hide B, Witness, AdjNamed;
    var a, n := Witness(e, g, p), e.n;
    WitnessEdges(e, g, p);
    forall i: nat, j: nat | i < n && j < n && i != j
      ensures Permute(GraphOf(a, e.g1, n), p)(i, j) == Permute(g, p)(i, j)
    {
      AtApart(p, n, i, j);
    }
  }

  lemma WitnessEmbeds(e: Names, g: Graph, p: seq<nat>)
    requires e.Ok() && IsPerm(p, e.n) && Symmetric(g, e.n) && Embeds(g, e.sub)
    ensures EmbeddedTo(Witness(e, g, p), e.g1, e.n, e.sub, |e.sub.bits|)
  {
    hide B, Witness, AdjNamed, EdgeVar, EntryVar;
    WitnessEdges(e, g, p);
    forall j: nat | j < |e.sub.bits| ensures EmbeddedAt(Witness(e, g, p), e.g1, e.n, e.sub, j) {
      SubCell(e.sub, e.n, j);
      var x, y := j / e.sub.k, j % e.sub.k;
      if x == y { WitnessDiagonal(e, g, p, x); }
      assert e.sub.bits[j] == EdgeAt(g, x, y);
    }
  }

  lemma WitnessDiagonal(e: Names, g: Graph, p: seq<nat>, i: nat)
    requires e.Ok() && i < e.n
    ensures !B(Witness(e, g, p), e.g1[i][i])
  {
    DiagonalFalse(e.g1, e.n, 1, e.h1, i);
    assert LitOf(-1) == Lit(0, true);
  }

  lemma DiagonalFalse(m: seq<seq<int>>, n: nat, lo: nat, hi: nat, i: nat)
    requires AdjNamed(m, n, lo, hi) && i < n
    ensures m[i][i] == -1
  {}

  /** Every graph that satisfies the implications, with a permutation that breaks it, is the projection of a model. */
  lemma CounterComplete(e: Names, g: Graph, p: seq<nat>, ix: Indexing, len: nat, imps: seq<LexImplication>)
    requires e.Ok() && IsPerm(p, e.n) && Symmetric(g, e.n) && ImpsOk(imps, e.n, ix) && 1 <= len <= |Pairs(e.n, ix)|
    requires SatImps(g, Pairs(e.n, ix), imps) && !SatImp(g, Pairs(e.n, ix), LexImplication(p, len)) && Embeds(g, e.sub)
    ensures Counter(Witness(e, g, p), e, ix, len, imps) && SatAll(Witness(e, g, p), [Lits([1])])
  {
    hide B, LexLt, ImpOn, SatImp, IsoPhi, PermPhi, AdjNamed, DropsAt, Witness, EmbeddedTo, Embeds, SubOk;
    var a, ps := Witness(e, g, p), Pairs(e.n, ix);
    WitnessEmbeds(e, g, p);
    WitnessSpells(e, g, p);
    SpellsPerm(a, e.Rows(), e.n, p);
    WitnessCopy(e, g, p);
    CopyIso(a, e, p);
    WitnessEdges(e, g, p);
    forall k | 0 <= k < |imps| ensures ImpOn(a, e.g1, e.n, ix, imps[k]) { ImpMeaning(a, e.g1, e.n, ix, g, imps[k]); }
    RefsStr(a, e.g1, e.n, ix, g);
    RefsStr(a, e.g2, e.n, ix, Permute(g, p));
    LexDrops(a, Refs(e.g1, e.n, ix), Refs(e.g2, e.n, ix), Str(g, ps), Str(Permute(g, p), ps), len);
    Broken(g, ps, p, len);
    WitnessTrue(e, g, p);
  }

  lemma WitnessTrue(e: Names, g: Graph, p: seq<nat>)
    ensures SatAll(Witness(e, g, p), [Lits([1])])
  {
    var a := Witness(e, g, p);
    assert LitOf(1) == Lit(0, false) && Holds(a, LitOf(1));
    assert LitOf(1) in Lits([1]) by { assert Lits([1])[0] == LitOf(1); }
  }

  // ---------------------------------------------------------------- canonizing sets

  /** Every graph that satisfies the implications is not broken by any permutation at position len - 1. */
  ghost predicate NoCounter(n: nat, ix: Indexing, sub: Sub, imps: seq<LexImplication>, len: nat) {
    forall g: Graph, p :: Symmetric(g, n) && Embeds(g, sub) && SatImps(g, Pairs(n, ix), imps) && IsPerm(p, n) ==>
      SatImp(g, Pairs(n, ix), LexImplication(p, len))
  }

  lemma ExtendsSat(a: Assignment, nv: nat, f: Formula)
    requires ExtendsTo(a, nv, f)
    ensures !Unsat(f)
  {}

  /** The solver has no model left exactly if no graph and permutation are left. */
  lemma NoModelNoCounter(e: Names, ix: Indexing, len: nat, imps: seq<LexImplication>, f: Formula)
    requires e.Ok() && ImpsOk(imps, e.n, ix) && 1 <= len <= |Pairs(e.n, ix)|
    requires Step([Lits([1])], e.NV(), f, CounterPhi(e, ix, len, imps)) && Unsat(f)
    ensures NoCounter(e.n, ix, e.sub, imps, len)
  {
    hide SatAll, Counter, SatImps, SatImp, Names.Ok, Witness, Agree, Unsat, ExtendsTo, Embeds;
    forall g: Graph, p | Symmetric(g, e.n) && Embeds(g, e.sub) && SatImps(g, Pairs(e.n, ix), imps) && IsPerm(p, e.n)
      ensures SatImp(g, Pairs(e.n, ix), LexImplication(p, len))
    {
      if !SatImp(g, Pairs(e.n, ix), LexImplication(p, len)) {
        CounterComplete(e, g, p, ix, len, imps);
        var a := Witness(e, g, p);
        assert CounterPhi(e, ix, len, imps)(a);
        ExtendsSat(a, e.NV(), f);
      }
    }
  }

  /** A set of implications accepts exactly the least graph of every isomorphism class. */
  ghost predicate Canonizing(n: nat, ix: Indexing, imps: seq<LexImplication>) {
    forall g: Graph :: Symmetric(g, n) ==> (SatImps(g, Pairs(n, ix), imps) <==> Least(g, n, ix))
  }

  /** The same among the graphs with the given subgraph. */
  ghost predicate CanonizingOn(n: nat, ix: Indexing, sub: Sub, imps: seq<LexImplication>) {
    forall g: Graph :: Symmetric(g, n) && Embeds(g, sub) ==> (SatImps(g, Pairs(n, ix), imps) <==> Least(g, n, ix))
  }

  lemma CanonizingAll(n: nat, ix: Indexing, imps: seq<LexImplication>)
    requires CanonizingOn(n, ix, NoSub(), imps)
    ensures Canonizing(n, ix, imps)
  {
    hide SatImps, Least;
    forall g: Graph | Symmetric(g, n)
      ensures SatImps(g, Pairs(n, ix), imps) <==> Least(g, n, ix)
    {
      assert Embeds(g, NoSub());
    }
  }

  /** The implications exclude every first difference at one of the first len positions. */
  ghost predicate CoversTo(n: nat, ix: Indexing, sub: Sub, imps: seq<LexImplication>, len: int) {
    forall g: Graph :: Symmetric(g, n) && Embeds(g, sub) && SatImps(g, Pairs(n, ix), imps) ==> LeastUpTo(g, n, ix, len)
  }

  /** A least graph satisfies every implication, also those of fewer vertices. */
  lemma LeastSat(g: Graph, n: nat, ix: Indexing, imp: LexImplication)
    requires Least(g, n, ix) && ImpOk(imp, n, ix)
    ensures SatImp(g, Pairs(n, ix), imp)
  {
    hide DropsAt, Str, LexLe, Least;
    LeastIsLeastUpTo(g, n, ix);
    var ps := PairsIn(n, ix);
    ExtendedPerm(imp.perm, |imp.perm|, n, g, ps);
    assert SatImp(g, ps, LexImplication(Extended(imp.perm, n), imp.length));
  }

  lemma CoversCanonizing(n: nat, ix: Indexing, sub: Sub, imps: seq<LexImplication>)
    requires ImpsOk(imps, n, ix) && CoversTo(n, ix, sub, imps, |Pairs(n, ix)| - 1)
    ensures CanonizingOn(n, ix, sub, imps)
  {
    hide LeastUpTo, Least, SatImp, ImpOk, Embeds;
    forall g: Graph | Symmetric(g, n) && Embeds(g, sub) ensures SatImps(g, Pairs(n, ix), imps) <==> Least(g, n, ix) {
      LeastShort(g, n, ix);
      if Least(g, n, ix) {
        forall k | 0 <= k < |imps| ensures SatImp(g, Pairs(n, ix), imps[k]) { LeastSat(g, n, ix, imps[k]); }
      }
    }
  }

  /** One length more. */
  lemma CoversNext(n: nat, ix: Indexing, sub: Sub, imps: seq<LexImplication>, more: seq<LexImplication>, len: nat)
    requires CoversTo(n, ix, sub, imps, len - 1) && NoCounter(n, ix, sub, imps + more, len)
    ensures CoversTo(n, ix, sub, imps + more, len)
  {
    hide SatImp, Str, Embeds;
    forall g: Graph | Symmetric(g, n) && Embeds(g, sub) && SatImps(g, Pairs(n, ix), imps + more)
      ensures LeastUpTo(g, n, ix, len)
    {
      assert SatImps(g, Pairs(n, ix), imps) by {
        forall k | 0 <= k < |imps| ensures SatImp(g, Pairs(n, ix), imps[k]) { assert (imps + more)[k] == imps[k]; }
      }
      assert LeastUpTo(g, n, ix, len - 1);
    }
  }

  // ---------------------------------------------------------------- building the encoding

  lemma LocalIso(g1: seq<seq<int>>, g2: seq<seq<int>>, rows: seq<seq<int>>, n: nat, nv: nat)
    requires RowsBelow(g1, n, nv) && RowsBelow(g2, n, nv) && RowsBelow(rows, n, nv)
    ensures Local(IsoPhi(g1, g2, rows, n), nv)
  {
    hide IsoAt, RowsBelow, Agree;
    forall a: Assignment, a': Assignment | Agree(a, a', nv)
      ensures IsoUpTo(a, g1, g2, rows, n, n, n) == IsoUpTo(a', g1, g2, rows, n, n, n)
    {
      forall i: nat, j: nat ensures IsoAt(a, g1, g2, rows, n, i, j) == IsoAt(a', g1, g2, rows, n, i, j) {
        LocalIsoAt(g1, g2, rows, n, i, j, nv);
        assert IsoAtPhi(g1, g2, rows, n, i, j)(a) == IsoAtPhi(g1, g2, rows, n, i, j)(a');
      }
    }
  }

  lemma LocalLexLt(arr1: seq<int>, arr2: seq<int>, len: nat, nv: nat)
    requires RefsOk(arr1, nv) && RefsOk(arr2, nv)
    ensures Local(LexLtPhi(arr1, arr2, len), nv)
  {
    hide B;
    forall a: Assignment, a': Assignment | Agree(a, a', nv)
      ensures LexLt(a, arr1, arr2, len) == LexLt(a', arr1, arr2, len)
    {
      forall i | 0 <= i < |arr1| ensures B(a, arr1[i]) == B(a', arr1[i]) { AgreeB(a, a', nv, arr1[i]); }
      forall i | 0 <= i < |arr2| ensures B(a, arr2[i]) == B(a', arr2[i]) { AgreeB(a, a', nv, arr2[i]); }
    }
  }

  lemma RefsBelow(m: seq<seq<int>>, n: nat, ix: Indexing, nv: nat)
    requires RowsBelow(m, n, nv)
    ensures RefsOk(Refs(m, n, ix), nv)
  {}

  lemma PermutedBelow(m: seq<seq<int>>, n: nat, p: seq<nat>, nv: nat)
    requires RowsBelow(m, n, nv) && Within(p, n)
    ensures RowsBelow(Permuted(m, n, p), n, nv)
  {}

  /** All three groups of references are below the number of named variables. */
  lemma NamesBelow(e: Names)
    requires e.Ok()
    ensures RowsBelow(e.g1, e.n, e.NV()) && RowsBelow(e.g2, e.n, e.NV()) && RowsBelow(e.Rows(), e.n, e.NV())
  {
    hide AdjNamed;
    NamedOrder(e.g1, e.n, 1, e.h1);
    NamedOrder(e.g2, e.n, e.h1, e.h2);
    AdjBelow(e.g1, e.n, 1, e.h1);
    AdjBelow(e.g2, e.n, e.h1, e.h2);
    GridBelow(e.h2, e.n);
    RowsMore(e.g1, e.n, e.h1, e.NV());
    RowsMore(e.g2, e.n, e.h2, e.NV());
  }

  lemma StringsBelow(e: Names, ix: Indexing, nv: nat)
    requires e.Ok() && e.NV() <= nv
    ensures RefsOk(Refs(e.g1, e.n, ix), nv) && RefsOk(Refs(e.g2, e.n, ix), nv)
  {
    hide AdjNamed;
    NamesBelow(e);
    RowsMore(e.g1, e.n, e.NV(), nv);
    RowsMore(e.g2, e.n, e.NV(), nv);
    RefsBelow(e.g1, e.n, ix, nv);
    RefsBelow(e.g2, e.n, ix, nv);
  }

  lemma PermutedStringBelow(e: Names, ix: Indexing, p: seq<nat>, nv: nat)
    requires e.Ok() && e.NV() <= nv && Within(p, e.n)
    ensures RefsOk(Refs(e.g1, e.n, ix), nv) && RefsOk(Refs(Permuted(e.g1, e.n, p), e.n, ix), nv)
  {
    hide AdjNamed;
    StringsBelow(e, ix, nv);
    NamesBelow(e);
    RowsMore(e.g1, e.n, e.NV(), nv);
    PermutedBelow(e.g1, e.n, p, nv);
    RefsBelow(Permuted(e.g1, e.n, p), e.n, ix, nv);
  }

  lemma StepModel(f: Formula, nv: nat, f': Formula, phi: Assignment -> bool, a: Assignment)
    requires Step(f, nv, f', phi) && SatAll(a, f')
    ensures phi(a)
  {}

  /** The permutation read off a model is new. */
  lemma FoundCounter(a: Assignment, e: Names, ix: Indexing, len: nat, imps: seq<LexImplication>)
    requires e.Ok() && Counter(a, e, ix, len, imps) && ImpsOk(imps, e.n, ix)
    ensures IsPerm(Decoded(a, e.Rows()), e.n) && LexImplication(Decoded(a, e.Rows()), len) !in imps
  {
    CounterSound(a, e, ix, len, imps);
    NewCounter(GraphOf(a, e.g1, e.n), Pairs(e.n, ix), imps, LexImplication(Decoded(a, e.Rows()), len));
  }

  lemma AddsPermIn(f: Formula, f': Formula, rows: seq<seq<int>>, n: nat)
    requires Adds(f, f', PermPhi(rows, n))
    ensures PermIn(f', rows, n)
  {}

  lemma LocalEmbed(m: seq<seq<int>>, n: nat, sub: Sub, l: nat, nv: nat)
    requires RowsBelow(m, n, nv)
    ensures Local(EmbedPhi(m, n, sub, l), nv)
  {
    hide B;
    forall a: Assignment, a': Assignment | Agree(a, a', nv)
      ensures EmbeddedTo(a, m, n, sub, l) == EmbeddedTo(a', m, n, sub, l)
    {
      forall j: nat ensures EmbeddedAt(a, m, n, sub, j) == EmbeddedAt(a', m, n, sub, j) {
        if j < |sub.bits| && sub.k > 0 && SquareOf(m, n) && j / sub.k < n && j % sub.k < n {
          EntryBelow(m, n, nv, j / sub.k, j % sub.k);
          AgreeB(a, a', nv, m[j / sub.k][j % sub.k]);
        }
      }
    }
  }

  /** One more bit of the subgraph fixed. */
  lemma EmbedNext(f0: Formula, f: Formula, f': Formula, m: seq<seq<int>>, n: nat, sub: Sub, j: nat)
    requires SquareOf(m, n) && j < |sub.bits| && sub.k > 0 && j / sub.k < n && j % sub.k < n
    requires Adds(f0, f, EmbedPhi(m, n, sub, j))
    requires Adds(f, f', (a: Assignment) => B(a, m[j / sub.k][j % sub.k]) == sub.bits[j])
    ensures Adds(f0, f', EmbedPhi(m, n, sub, j + 1))
  {
    hide B, SatAll;
    var x, y := j / sub.k, j % sub.k;
    var bit := (a: Assignment) => B(a, m[x][y]) == sub.bits[j];
    forall a: Assignment ensures EmbedPhi(m, n, sub, j + 1)(a) <==> EmbedPhi(m, n, sub, j)(a) && bit(a) {
      assert EmbeddedAt(a, m, n, sub, j) <==> bit(a);
    }
    AddsTrans(f0, f, f', EmbedPhi(m, n, sub, j), bit, EmbedPhi(m, n, sub, j + 1));
  }

  lemma EmbedNone(f: Formula, m: seq<seq<int>>, n: nat, sub: Sub)
    ensures Adds(f, f, EmbedPhi(m, n, sub, 0))
  {}

  ghost predicate IsCopyOf(a: Assignment, e: Names) {
    PermPhi(e.Rows(), e.n)(a) && IsoPhi(e.g1, e.g2, e.Rows(), e.n)(a)
  }

  ghost function CopyPhi(e: Names): Assignment -> bool { (a: Assignment) => IsCopyOf(a, e) }

  /** A permutation and an isomorphism. */
  lemma CopyStep(f0: Formula, f1: Formula, f2: Formula, e: Names)
    requires e.Ok() && Adds(f0, f1, PermPhi(e.Rows(), e.n)) && Step(f1, e.NV(), f2, IsoPhi(e.g1, e.g2, e.Rows(), e.n))
    ensures Step(f0, e.NV(), f2, CopyPhi(e))
  {
    hide SatAll, Step, Adds, Local, PermPhi, IsoPhi, RowsBelow, RefsOk, AdjNamed;
    NamesBelow(e);
    var perm, iso := PermPhi(e.Rows(), e.n), IsoPhi(e.g1, e.g2, e.Rows(), e.n);
    AddsStep(f0, e.NV(), f1, perm);
    LocalIso(e.g1, e.g2, e.Rows(), e.n, e.NV());
    StepTrans(f0, e.NV(), f1, e.NV(), f2, perm, iso, CopyPhi(e));
  }

  ghost function CopyEmbedPhi(e: Names): Assignment -> bool {
    (a: Assignment) => IsCopyOf(a, e) && EmbeddedTo(a, e.g1, e.n, e.sub, |e.sub.bits|)
  }

  /** The parts of the encoding together. */
  lemma SetupStep(f0: Formula, f2: Formula, f3: Formula, nv2: nat, f4: Formula, e: Names, ix: Indexing, len: nat)
    requires e.Ok() && e.NV() <= nv2 && Step(f0, e.NV(), f2, CopyPhi(e))
    requires Adds(f2, f3, EmbedPhi(e.g1, e.n, e.sub, |e.sub.bits|))
    requires Step(f3, nv2, f4, LexLtPhi(Refs(e.g2, e.n, ix), Refs(e.g1, e.n, ix), len))
    ensures Step(f0, e.NV(), f4, CounterPhi(e, ix, len, []))
  {
    hide SatAll, Step, Adds, Local, PermPhi, IsoPhi, LexLt, RowsBelow, RefsOk, AdjNamed, EmbeddedTo;
    NamesBelow(e);
    var nv := e.NV();
    var embed, lt := EmbedPhi(e.g1, e.n, e.sub, |e.sub.bits|), LexLtPhi(Refs(e.g2, e.n, ix), Refs(e.g1, e.n, ix), len);
    AddsStep(f2, nv, f3, embed);
    LocalEmbed(e.g1, e.n, e.sub, |e.sub.bits|, nv);
    StepTrans(f0, nv, f2, nv, f3, CopyPhi(e), embed, CopyEmbedPhi(e));
    RefsBelow(e.g1, e.n, ix, nv);
    RefsBelow(e.g2, e.n, ix, nv);
    LocalLexLt(Refs(e.g2, e.n, ix), Refs(e.g1, e.n, ix), len, nv);
    StepTrans(f0, nv, f3, nv2, f4, CopyEmbedPhi(e), lt, CounterPhi(e, ix, len, []));
  }

  lemma ImpsOnMore(a: Assignment, m: seq<seq<int>>, n: nat, ix: Indexing, imps: seq<LexImplication>,
      imp: LexImplication)
    ensures ImpsOn(a, m, n, ix, imps + [imp]) <==> ImpsOn(a, m, n, ix, imps) && ImpOn(a, m, n, ix, imp)
  {
    hide ImpOn;
    if ImpsOn(a, m, n, ix, imps + [imp]) {
      assert (imps + [imp])[|imps|] == imp;
      forall k | 0 <= k < |imps| ensures ImpOn(a, m, n, ix, imps[k]) { assert (imps + [imp])[k] == imps[k]; }
    }
  }

  /** One more implication encoded. */
  lemma ImpStep(f0: Formula, f: Formula, nv: nat, f': Formula, e: Names, ix: Indexing, len: nat,
      imps: seq<LexImplication>, imp: LexImplication)
    requires e.Ok() && ImpOk(imp, e.n, ix) && Within(imp.perm, e.n) && e.NV() <= nv
    requires Step(f0, e.NV(), f, CounterPhi(e, ix, len, imps))
    requires Step(f, nv, f', LexImpPhi(Refs(e.g1, e.n, ix), Refs(Permuted(e.g1, e.n, imp.perm), e.n, ix), imp.length))
    ensures Step(f0, e.NV(), f', CounterPhi(e, ix, len, imps + [imp]))
  {
    hide SatAll, Step, Local, Breaks, RowsBelow, RefsOk, AdjNamed, ImpsOn, LexImp;
    NamesBelow(e);
    PermutedBelow(e.g1, e.n, imp.perm, e.NV());
    RefsBelow(e.g1, e.n, ix, e.NV());
    RefsBelow(Permuted(e.g1, e.n, imp.perm), e.n, ix, e.NV());
    var psi := LexImpPhi(Refs(e.g1, e.n, ix), Refs(Permuted(e.g1, e.n, imp.perm), e.n, ix), imp.length);
    LocalLexImp(Refs(e.g1, e.n, ix), Refs(Permuted(e.g1, e.n, imp.perm), e.n, ix), imp.length, e.NV());
    forall a: Assignment ensures Counter(a, e, ix, len, imps + [imp]) <==> Counter(a, e, ix, len, imps) && psi(a) {
      ImpsOnMore(a, e.g1, e.n, ix, imps, imp);
    }
    StepTrans(f0, e.NV(), f, nv, f', CounterPhi(e, ix, len, imps), psi, CounterPhi(e, ix, len, imps + [imp]));
  }

  // ---------------------------------------------------------------- progress

  /** A permutation that still breaks a graph has not been found before at this length. */
  lemma NewCounter(g: Graph, ps: seq<(nat, nat)>, imps: seq<LexImplication>, imp: LexImplication)
    requires SatImps(g, ps, imps) && !SatImp(g, ps, imp)
    ensures imp !in imps
  {}

  // ---------------------------------------------------------------- representatives

  lemma PermutedGraphSymmetric(g: Graph, n: nat, p: seq<nat>)
    requires Symmetric(g, n) && IsPerm(p, n)
    ensures Symmetric(Permute(g, p), n)
  {
    forall i: nat, j: nat | i < n && j < n
      ensures Permute(g, p)(i, j) == Permute(g, p)(j, i)
    {
      PermutedSymmetric(g, p, n, i, j);
    }
  }

  /** Every graph has a copy that is least. */
  lemma LeastCopy(g: Graph, n: nat, ix: Indexing) returns (p: seq<nat>)
    ensures IsPerm(p, n) && Least(Permute(g, p), n, ix)
  {
    hide LexLe, Permute, Str;
    var ps := PairsIn(n, ix);
    assert IsPerm(Identity(n), n);
    p := LeastExists(g, ps, Perms(n));
    forall q | IsPerm(q, n) ensures LexLe(Str(Permute(g, p), ps), Str(Permute(Permute(g, p), q), ps)) {
      ComposePerm(p, q, n);
      ComposeStr(g, p, q, n, ps);
      assert Compose(p, q) in Perms(n);
    }
  }

  /** Two least copies of one graph have the same string. */
  lemma LeastUnique(g: Graph, h: Graph, p: seq<nat>, n: nat, ix: Indexing)
    requires Least(g, n, ix) && Least(h, n, ix) && IsPerm(p, n)
    requires forall i: nat, j: nat :: i < n && j < n ==> h(i, j) == g(p[i], p[j])
    ensures Str(g, Pairs(n, ix)) == Str(h, Pairs(n, ix))
  {
    hide LexLe, Permute;
    var ps := PairsIn(n, ix);
    SameStr(g, h, p, n, ps);
    InversePerm(p, n);
    InverseStr(g, h, p, n, ps);
    LexAntisymmetric(Str(g, ps), Str(h, ps));
  }

  /** The copy of g renamed by p is accepted, and every accepted copy of it has the same string. */
  ghost predicate OnlyCopy(n: nat, ix: Indexing, imps: seq<LexImplication>, g: Graph, p: seq<nat>) {
    && IsPerm(p, n) && SatImps(Permute(g, p), Pairs(n, ix), imps)
    && forall h: Graph, q ::
      Symmetric(h, n) && SatImps(h, Pairs(n, ix), imps) && IsPerm(q, n) && Renames(h, Permute(g, p), q, n) ==>
        Str(h, Pairs(n, ix)) == Str(Permute(g, p), Pairs(n, ix))
  }

  /** A canonizing set accepts exactly one graph of every isomorphism class. */
  lemma OnePerClass(n: nat, ix: Indexing, imps: seq<LexImplication>, g: Graph)
    requires Canonizing(n, ix, imps) && Symmetric(g, n)
    ensures exists p :: OnlyCopy(n, ix, imps, g, p)
  {
    hide Least, SatImps, Permute;
    var p := LeastCopy(g, n, ix);
    PermutedGraphSymmetric(g, n, p);
    var g' := Permute(g, p);
    forall h: Graph, q | Symmetric(h, n) && SatImps(h, Pairs(n, ix), imps) && IsPerm(q, n) && Renames(h, g', q, n)
      ensures Str(h, Pairs(n, ix)) == Str(g', Pairs(n, ix))
    {
      LeastUnique(g', h, q, n, ix);
    }
    assert OnlyCopy(n, ix, imps, g, p);
  }

  ghost predicate Renames(h: Graph, g: Graph, q: seq<nat>, n: nat) {
    |q| == n && forall i: nat, j: nat :: i < n && j < n ==> h(i, j) == g(q[i], q[j])
  }
}
