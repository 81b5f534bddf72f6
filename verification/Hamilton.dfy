/** Hamiltonian cycles in graphs whose edges are present, absent or still unknown. */
module Hamilton {
  import opened Cnf
  import opened Graphs
  import opened Matrices

  /** A symmetric matrix of edge values. */
  type Tri = seq<seq<LBool>>

  ghost predicate Sym(m: Tri, n: nat) {
    SquareOf(m, n) && forall i: nat, j: nat :: i < n && j < n ==> m[i][j] == m[j][i]
  }

  predicate Has(m: Tri, i: nat, j: nat) { i < |m| && j < |m[i]| && i != j && m[i][j] == True }

  lemma MulBounds(d: int, n: nat)
    ensures d >= 1 ==> d * n >= n
    ensures d <= -1 ==> d * n + n <= 0
  {}

  lemma ModUnique(x: int, n: nat, q: int, r: nat)
    requires r < n && x == q * n + r
    ensures x % n == r
  {
    var d := x / n - q;
    assert d * n == (x / n) * n - q * n;
    assert d * n == r - x % n;
    MulBounds(d, n);
  }

  lemma ModNegative(x: int, n: nat)
    requires n > 0 && x < 0
    ensures x % n == if (-x) % n == 0 then 0 else n - (-x) % n
  {
    var q, r := (-x) / n, (-x) % n;
    assert -x == q * n + r;
    if r == 0 {
      assert (-q) * n == -(q * n);
      ModUnique(x, n, -q, 0);
    } else {
      assert (-q - 1) * n == -(q * n) - n;
      ModUnique(x, n, -q - 1, n - r);
    }
  }

  /** The remainder as the source computes it: truncated division, then a correction for negative operands. */
  function Mod(x: int, n: nat): int
    requires n > 0
  {
    var t := if x >= 0 then x % n else -((-x) % n);
    if t < 0 then t + n else t
  }

  lemma ModIs(x: int, n: nat)
    requires n > 0
    ensures Mod(x, n) == x % n
  {
    if x < 0 { ModNegative(x, n); }
  }

  lemma ModSmall(a: int, n: nat)
    requires 0 <= a < n
    ensures Mod(a, n) == a
  {
    ModUnique(a, n, 0, a);
  }

  lemma ModBelow(a: int, n: nat)
    requires a < 0 <= a + n
    ensures Mod(a, n) == a + n
  {
    ModIs(a, n);
    ModUnique(a, n, -1, a + n);
  }

  function CycleDist(i: nat, j: nat, n: nat): int
    requires n > 0
  {
    var a, b := Mod(i - j, n), Mod(j - i, n);
    if a <= b then a else b
  }

  function Next(i: nat, n: nat): nat { if i + 1 == n then 0 else i + 1 }

  /** Neighbours on the base cycle 0, 1, ..., n - 1. */
  predicate Base(i: nat, j: nat, n: nat) { Next(i, n) == j || Next(j, n) == i }

  lemma CycleDistBase(i: nat, j: nat, n: nat)
    requires i < n && j < n && n >= 3
    ensures CycleDist(i, j, n) == 1 <==> Base(i, j, n)
  {
    hide Mod;
    ModSmall(if i >= j then i - j else j - i, n);
    if i != j { ModBelow(if i < j then i - j else j - i, n); }
  }

  ghost predicate BaseIn(m: Tri, n: nat) { forall i: nat :: i < n ==> Has(m, i, Next(i, n)) }

  /** An edge that is present, or the one that is being added. */
  predicate HasPlus(m: Tri, u: nat, v: nat, i: nat, j: nat) {
    Has(m, i, j) || (i == u && j == v) || (i == v && j == u)
  }

  predicate UsesChord(c: seq<nat>, n: nat) {
    exists k :: 0 <= k < |c| && !Base(c[k], c[Next(k, |c|)], n)
  }

  ghost predicate CyclePlus(m: Tri, n: nat, u: nat, v: nat, c: seq<nat>) {
    IsPerm(c, n) && forall k :: 0 <= k < n ==> HasPlus(m, u, v, c[k], c[Next(k, n)])
  }

  ghost predicate HamCycle(m: Tri, n: nat, c: seq<nat>) {
    IsPerm(c, n) && forall k :: 0 <= k < n ==> Has(m, c[k], c[Next(k, n)])
  }

  /** With the edge uv, the graph has a Hamiltonian cycle other than the base cycle. */
  ghost predicate ClosesSecond(m: Tri, n: nat, u: nat, v: nat) {
    exists c :: CyclePlus(m, n, u, v, c) && UsesChord(c, n)
  }

  ghost predicate HasSecond(m: Tri, n: nat) {
    exists c :: HamCycle(m, n, c) && UsesChord(c, n)
  }

  lemma SecondPresent(m: Tri, n: nat, u: nat, v: nat)
    requires Sym(m, n) && ClosesSecond(m, n, u, v) && u < n && v < n && u != v && m[u][v] == True
    ensures HasSecond(m, n)
  {
    var c :| CyclePlus(m, n, u, v, c) && UsesChord(c, n);
    assert HamCycle(m, n, c);
  }

  // ---------------------------------------------------------------- the chord rules

  /** For rule 1: the part between the chord's ends is walked backwards. */
  function Detour1(n: nat, x: nat, y: nat): seq<nat>
    requires x < y < n
  {
    seq(n, (k: nat) => if x < k <= y then x + 1 + y - k else k)
  }

  lemma Detour1Perm(n: nat, x: nat, y: nat)
    requires x < y < n
    ensures IsPerm(Detour1(n, x, y), n)
  {}

  lemma UseChord(c: seq<nat>, n: nat, k: nat)
    requires k < |c| && !Base(c[k], c[Next(k, |c|)], n)
    ensures UsesChord(c, n)
  {}

  lemma Rule1(m: Tri, n: nat, x: nat, y: nat)
    requires Sym(m, n) && BaseIn(m, n) && x < y < n && Has(m, x, y) && !Base(x, y, n)
    ensures ClosesSecond(m, n, x + 1, Next(y, n))
  {
    var c := Detour1(n, x, y);
    Detour1Perm(n, x, y);
    forall k | 0 <= k < n ensures HasPlus(m, x + 1, Next(y, n), c[k], c[Next(k, n)]) {
      BaseStep(m, n, if x < k < y then c[k] - 1 else k);
    }
    UseChord(c, n, x);
  }

  lemma BaseStep(m: Tri, n: nat, i: nat)
    requires Sym(m, n) && BaseIn(m, n) && i < n
    ensures Has(m, i, Next(i, n)) && Has(m, Next(i, n), i)
  {}

  /** For rule 3: w is the other end of the second edge. */
  function Detour3(n: nat, x: nat, y: nat, w: nat): seq<nat>
    requires x < w <= y < n
  {
    seq(n, (k: nat) => if x <= k < w then w - 1 + x - k else if w <= k <= y then y + w - k else k)
  }

  lemma Detour3Perm(n: nat, x: nat, y: nat, w: nat)
    requires x < w <= y < n
    ensures IsPerm(Detour3(n, x, y, w), n)
  {}

  lemma Step3(m: Tri, n: nat, x: nat, y: nat, w: nat, k: nat)
    requires Sym(m, n) && BaseIn(m, n) && x + 1 < w < y < n && Has(m, x, y) && !Base(x, y, n) && Has(m, w, Next(y, n))
    requires k < n
    ensures HasPlus(m, if x == 0 then n - 1 else x - 1, w - 1, Detour3(n, x, y, w)[k], Detour3(n, x, y, w)[Next(k, n)])
  {
    var c := Detour3(n, x, y, w);
    if Next(k, n) == x {
      assert c[k] == k && c[Next(k, n)] == w - 1;
    } else if k < x || y < k {
      assert c[k] == k && c[Next(k, n)] == Next(k, n);
      BaseStep(m, n, k);
    } else if k == y {
      assert c[k] == w && c[Next(k, n)] == Next(y, n);
    } else if k != w - 1 {
      assert c[k + 1] + 1 == c[k];
      BaseStep(m, n, c[k] - 1);
    } else {
      assert c[k] == x && c[k + 1] == y && m[x][y] == m[y][x];
    }
  }

  lemma Rule3(m: Tri, n: nat, x: nat, y: nat, w: nat)
    requires Sym(m, n) && BaseIn(m, n) && x + 1 < w < y < n && Has(m, x, y) && !Base(x, y, n) && Has(m, w, Next(y, n))
    ensures ClosesSecond(m, n, if x == 0 then n - 1 else x - 1, w - 1)
  {
    hide HasPlus, Has, BaseIn, Sym;
    var c := Detour3(n, x, y, w);
    var u := if x == 0 then n - 1 else x - 1;
    Detour3Perm(n, x, y, w);
    forall k | 0 <= k < n ensures HasPlus(m, u, w - 1, c[k], c[Next(k, n)]) { Step3(m, n, x, y, w, k); }
    UseChord(c, n, w - 1);
  }

  /** For rule 2: z1 is the vertex after the other end of the second edge, beyond the wrap-around. */
  function Detour2(n: nat, x: nat, y: nat, z1: nat): seq<nat>
    requires z1 <= x < y <= n
  {
    var a := x - z1 + 1;
    var b := a + n - y;
    seq(n, (k: nat) =>
      if k < a then z1 + k else if k < b then y + k - a else if k < b + z1 then k - b else if k < n
        then y - 1 - (k - b - z1) else 0)
  }

  lemma Detour2Perm(n: nat, x: nat, y: nat, z1: nat)
    requires z1 <= x < y <= n
    ensures IsPerm(Detour2(n, x, y, z1), n)
  {}

  lemma Step2(m: Tri, n: nat, x: nat, y: nat, z1: nat, k: nat)
    requires Sym(m, n) && BaseIn(m, n) && z1 < x && x + 1 < y < n && Has(m, x, y) && k < n
    requires Has(m, if z1 == 0 then n - 1 else z1 - 1, y - 1)
    ensures HasPlus(m, x + 1, z1, Detour2(n, x, y, z1)[k], Detour2(n, x, y, z1)[Next(k, n)])
  {
    var c := Detour2(n, x, y, z1);
    var a := x - z1 + 1;
    var b := a + n - y;
    if k == n - 1 {
      assert c[k] == x + 1 && c[Next(k, n)] == z1;
    } else if k + 1 == a {
      assert c[k] == x && c[k + 1] == y;
    } else if k + 1 == b + z1 {
      assert c[k + 1] == y - 1 && c[k] == if z1 == 0 then n - 1 else z1 - 1;
    } else if k < b + z1 {
      assert c[k + 1] == Next(c[k], n);
      BaseStep(m, n, c[k]);
    } else {
      assert c[k + 1] + 1 == c[k];
      BaseStep(m, n, c[k] - 1);
    }
  }

  lemma Rule2Behind(m: Tri, n: nat, x: nat, y: nat, z1: nat)
    requires Sym(m, n) && BaseIn(m, n) && z1 < x && x + 1 < y < n && Has(m, x, y) && !Base(x, y, n)
    requires Has(m, if z1 == 0 then n - 1 else z1 - 1, y - 1)
    ensures ClosesSecond(m, n, x + 1, z1)
  {
    hide HasPlus, Has, BaseIn, Sym;
    var c := Detour2(n, x, y, z1);
    Detour2Perm(n, x, y, z1);
    forall k | 0 <= k < n ensures HasPlus(m, x + 1, z1, c[k], c[Next(k, n)]) { Step2(m, n, x, y, z1, k); }
    UseChord(c, n, x - z1);
  }

  /** For rule 2 before the wrap-around: z1 is beyond y. */
  function Detour2Ahead(n: nat, x: nat, y: nat, z1: nat): seq<nat>
    requires x < y < z1 < n
  {
    seq(n, (k: nat) => if x < k <= x + z1 - y then y + k - x - 1 else if x < k < z1 then x + z1 - k else k)
  }

  lemma Detour2AheadPerm(n: nat, x: nat, y: nat, z1: nat)
    requires x < y < z1 < n
    ensures IsPerm(Detour2Ahead(n, x, y, z1), n)
  {}

  lemma Step2Ahead(m: Tri, n: nat, x: nat, y: nat, z1: nat, k: nat)
    requires Sym(m, n) && BaseIn(m, n) && x + 1 < y && y + 2 <= z1 < n && Has(m, x, y) && Has(m, z1 - 1, y - 1) && k < n
    ensures HasPlus(m, x + 1, z1, Detour2Ahead(n, x, y, z1)[k], Detour2Ahead(n, x, y, z1)[Next(k, n)])
  {
    var c := Detour2Ahead(n, x, y, z1);
    if k < x || k >= z1 {
      BaseStep(m, n, k);
    } else if k == x {
      assert c[k] == x && c[k + 1] == y;
    } else if k < x + z1 - y {
      assert c[k + 1] == c[k] + 1;
      BaseStep(m, n, c[k]);
    } else if k == x + z1 - y {
      assert c[k] == z1 - 1 && c[k + 1] == y - 1;
    } else if k < z1 - 1 {
      assert c[k + 1] + 1 == c[k];
      BaseStep(m, n, c[k] - 1);
    } else {
      assert c[k] == x + 1 && c[k + 1] == z1;
    }
  }

  lemma Rule2Ahead(m: Tri, n: nat, x: nat, y: nat, z1: nat)
    requires Sym(m, n) && BaseIn(m, n) && x + 1 < y && y + 2 <= z1 < n
    requires Has(m, x, y) && !Base(x, y, n) && Has(m, z1 - 1, y - 1)
    ensures ClosesSecond(m, n, x + 1, z1)
  {
    hide HasPlus, Has, BaseIn, Sym;
    var c := Detour2Ahead(n, x, y, z1);
    Detour2AheadPerm(n, x, y, z1);
    forall k | 0 <= k < n ensures HasPlus(m, x + 1, z1, c[k], c[Next(k, n)]) { Step2Ahead(m, n, x, y, z1, k); }
    UseChord(c, n, x);
  }

  /** The rule at every end that walking on from y meets before x, on both sides of the wrap-around. */
  lemma Rule2(m: Tri, n: nat, x: nat, y: nat, z1: nat)
    requires Sym(m, n) && BaseIn(m, n) && x + 1 < y < n && (z1 < x || y + 2 <= z1 < n)
    requires Has(m, x, y) && !Base(x, y, n) && Has(m, if z1 == 0 then n - 1 else z1 - 1, y - 1)
    ensures ClosesSecond(m, n, x + 1, z1)
  {
    if z1 < x { Rule2Behind(m, n, x, y, z1); } else { Rule2Ahead(m, n, x, y, z1); }
  }
}
