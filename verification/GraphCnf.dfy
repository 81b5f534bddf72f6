/** Conditions on references that speak about at-most-one groups, permutations and graphs. */
module GraphCnf {
  import opened Cnf
  import opened SolverSpec
  import opened SearchSpec
  import opened Encode
  import opened Graphs
  import opened Matrices

  lemma Or1(a: Assignment, b: int)
    ensures Or(a, [b]) <==> B(a, b)
  {
    var bs := [b];
    if B(a, b) { assert B(a, bs[0]); }
  }

  /** At most one, for the pairs handled before (i, j). */
  ghost predicate AmoUpTo(a: Assignment, bs: seq<int>, i: nat, j: nat) {
    forall x, y :: 0 <= x < y < |bs| && (x < i || (x == i && y < j)) ==> !(B(a, bs[x]) && B(a, bs[y]))
  }

  lemma AmoNext(f0: Formula, f: Formula, bs: seq<int>, i: nat, j: nat)
    requires i < j < |bs| && bs[i] != 0 && bs[j] != 0
    requires Adds(f0, f, (a: Assignment) => AmoUpTo(a, bs, i, j))
    ensures Adds(f0, f + [Lits([-bs[i], -bs[j]])], (a: Assignment) => AmoUpTo(a, bs, i, j + 1))
  {
    hide SatAll, B, Lits, Or;
    var f' := f + [Lits([-bs[i], -bs[j]])];
    forall a: Assignment ensures SatAll(a, f') <==> SatAll(a, f0) && AmoUpTo(a, bs, i, j + 1) {
      SatOr(a, f, [-bs[i], -bs[j]]);
      Or2(a, -bs[i], -bs[j]);
      NegB(a, bs[i]);
      NegB(a, bs[j]);
      assert SatAll(a, f) <==> SatAll(a, f0) && AmoUpTo(a, bs, i, j);
    }
  }

  lemma IffDefined(f: Formula, nv: nat, f': Formula, b1: int, b2: int)
    requires FormulaBelow(f, nv) && RefOk(b1, nv) && RefOk(b2, nv) && Adds(f, f', IffPhi(b1, b2, nv + 1))
    ensures Step(f, nv, f', Top())
  {
    var psi := (a: Assignment) => B(a, b1) == B(a, b2);
    Define(f, nv, f', psi, IffPhi(b1, b2, nv + 1));
  }

  // ---------------------------------------------------------------- chains of or-reifications

  ghost predicate Exclusive(f: Formula, bs: seq<int>) {
    forall a: Assignment :: SatAll(a, f) ==> AtMostOne(a, bs)
  }

  /** A value the chain lets its output take: the disjunction, or any value when two inputs are true. */
  ghost predicate Free(a: Assignment, bs: seq<int>, v: bool) { AtMostOne(a, bs) ==> v == Or(a, bs) }

  ghost function ChainPhi(bs: seq<int>, t: int): Assignment -> bool {
    (a: Assignment) => Free(a, bs, B(a, t))
  }

  /** Some assignment of `f` agrees with a on the first nv variables and gives t the value v. */
  ghost predicate Reaches(a: Assignment, nv: nat, f: Formula, t: int, v: bool) {
    exists a': Assignment :: Agree(a, a', nv) && SatAll(a', f) && B(a', t) == v
  }

  ghost predicate ChainSound(f0: Formula, f: Formula, bs: seq<int>, ti: int) {
    forall a: Assignment :: SatAll(a, f) ==> SatAll(a, f0) && Free(a, bs, B(a, ti))
  }

  ghost predicate ChainReaches(f0: Formula, nv: nat, f: Formula, bs: seq<int>, ti: int) {
    forall a: Assignment, v: bool :: SatAll(a, f0) && Free(a, bs, v) ==> Reaches(a, nv, f, ti, v)
  }

  /** After i inputs of the chain, ti takes exactly the values that are free for them. */
  ghost predicate Chained(f0: Formula, nv: nat, f: Formula, bs: seq<int>, i: nat, ti: int) {
    i <= |bs| && ChainSound(f0, f, bs[..i], ti) && ChainReaches(f0, nv, f, bs[..i], ti)
  }

  lemma OrTake(a: Assignment, bs: seq<int>, i: nat)
    requires i < |bs|
    ensures Or(a, bs[..i + 1]) <==> Or(a, bs[..i]) || B(a, bs[i])
  {
    var c, d := bs[..i], bs[..i + 1];
    if Or(a, c) { var k :| 0 <= k < |c| && B(a, c[k]); assert B(a, d[k]); }
    if B(a, bs[i]) { assert B(a, d[i]); }
    if Or(a, d) { var k :| 0 <= k < |d| && B(a, d[k]); assert k < i ==> B(a, c[k]); }
  }

  lemma AmoTake(a: Assignment, bs: seq<int>, i: nat)
    requires i < |bs|
    ensures AtMostOne(a, bs[..i + 1]) <==> AtMostOne(a, bs[..i]) && !(Or(a, bs[..i]) && B(a, bs[i]))
  {
    var c, d := bs[..i], bs[..i + 1];
    assert d == c + [bs[i]];
    if AtMostOne(a, d) {
      forall x, y | 0 <= x < y < |c| ensures !(B(a, c[x]) && B(a, c[y])) { assert d[x] == c[x] && d[y] == c[y]; }
      forall k | 0 <= k < |c| && B(a, c[k]) ensures !B(a, bs[i]) { assert d[k] == c[k] && d[i] == bs[i]; }
    }
  }

  lemma ChainStart(f: Formula, nv: nat, bs: seq<int>)
    requires |bs| >= 1
    ensures Chained(f, nv, f, bs, 1, bs[0])
  {
    hide SatAll, B;
    assert bs[..1] == [bs[0]];
    forall a: Assignment ensures Or(a, bs[..1]) == B(a, bs[0]) && AtMostOne(a, bs[..1]) { Or1(a, bs[0]); }
    forall a: Assignment, v: bool | SatAll(a, f) && Free(a, bs[..1], v) ensures Reaches(a, nv, f, bs[0], v) {
      assert Agree(a, a, nv) && SatAll(a, f) && B(a, bs[0]) == v;
    }
  }

  /** What one link says of the values u and b of its inputs and w of its output. */
  predicate Link(u: bool, b: bool, w: bool) { (u && b) || w == (u || b) }

  lemma LinkFree(a: Assignment, bs: seq<int>, i: nat, u: bool, w: bool)
    requires i < |bs| && Free(a, bs[..i], u) && Link(u, B(a, bs[i]), w)
    ensures Free(a, bs[..i + 1], w)
  {
    hide Or, AtMostOne, B;
    AmoTake(a, bs, i);
    OrTake(a, bs, i);
  }

  /** Every free value after a link comes from a free value before it. */
  lemma FreeLink(a: Assignment, bs: seq<int>, i: nat, w: bool) returns (u: bool)
    requires i < |bs| && Free(a, bs[..i + 1], w)
    ensures Free(a, bs[..i], u) && Link(u, B(a, bs[i]), w)
  {
    hide Or, AtMostOne, B;
    AmoTake(a, bs, i);
    OrTake(a, bs, i);
    u := if AtMostOne(a, bs[..i]) then Or(a, bs[..i]) else B(a, bs[i]) || w;
  }

  lemma LinkReaches(a: Assignment, nv0: nat, f: Formula, nv: nat, f': Formula, b: int, ti: int, u: bool, w: bool)
    requires FormulaBelow(f, nv) && RefOk(ti, nv) && RefOk(b, nv0) && nv0 <= nv && Adds(f, f', OrReifPhi(ti, b, nv + 1))
    requires Reaches(a, nv0, f, ti, u) && Link(u, B(a, b), w)
    ensures Reaches(a, nv0, f', nv + 1, w)
  {
    hide SatAll, FormulaBelow;
    var a': Assignment :| Agree(a, a', nv0) && SatAll(a', f) && B(a', ti) == u;
    var a'' := Put(a', nv, w);
    assert Agree(a', a'', nv) && Agree(a, a'', nv0);
    AgreeSat(f, nv, a', a'');
    AgreeB(a', a'', nv, ti);
    AgreeB(a, a'', nv0, b);
    assert B(a'', nv + 1) == w && OrReifPhi(ti, b, nv + 1)(a'');
  }

  lemma ChainNext(f0: Formula, nv0: nat, f: Formula, nv: nat, f': Formula, bs: seq<int>, i: nat, ti: int)
    requires Chained(f0, nv0, f, bs, i, ti) && nv0 <= nv && FormulaBelow(f, nv)
    requires RefsOk(bs, nv0) && RefOk(ti, nv) && i < |bs| && Adds(f, f', OrReifPhi(ti, bs[i], nv + 1))
    ensures Chained(f0, nv0, f', bs, i + 1, nv + 1)
  {
    hide SatAll, FormulaBelow, Free, B, Reaches;
    var t, bs1 := nv + 1, bs[..i + 1];
    forall a: Assignment | SatAll(a, f') ensures SatAll(a, f0) && Free(a, bs[..i + 1], B(a, nv + 1)) {
      assert SatAll(a, f) && OrReifPhi(ti, bs[i], nv + 1)(a);
      LinkFree(a, bs, i, B(a, ti), B(a, nv + 1));
    }
    forall a: Assignment, w: bool | SatAll(a, f0) && Free(a, bs1, w) ensures Reaches(a, nv0, f', t, w) {
      var u := FreeLink(a, bs, i, w);
      LinkReaches(a, nv0, f, nv, f', bs[i], ti, u, w);
    }
  }

  lemma LastReaches(a: Assignment, nv0: nat, f: Formula, f': Formula, b: int, ti: int, t: int, u: bool)
    requires RefOk(b, nv0) && RefOk(t, nv0) && Adds(f, f', OrReifPhi(b, ti, t))
    requires Reaches(a, nv0, f, ti, u) && Link(u, B(a, b), B(a, t))
    ensures ExtendsTo(a, nv0, f')
  {
    hide SatAll;
    var a': Assignment :| Agree(a, a', nv0) && SatAll(a', f) && B(a', ti) == u;
    AgreeB(a, a', nv0, b);
    AgreeB(a, a', nv0, t);
    assert OrReifPhi(b, ti, t)(a');
  }

  /** The whole chain: projected to the variables there were, it is exactly `ChainPhi`. */
  lemma ChainEnd(f0: Formula, nv0: nat, f: Formula, f': Formula, bs: seq<int>, ti: int, t: int)
    requires |bs| >= 1 && Chained(f0, nv0, f, bs, |bs| - 1, ti) && RefsOk(bs, nv0) && RefOk(t, nv0)
    requires Adds(f, f', OrReifPhi(bs[|bs| - 1], ti, t))
    ensures Step(f0, nv0, f', ChainPhi(bs, t))
  {
    hide SatAll, Free, B, Reaches, ExtendsTo;
    var i := |bs| - 1;
    assert bs[..i + 1] == bs;
    forall a: Assignment | SatAll(a, f') ensures SatAll(a, f0) && ChainPhi(bs, t)(a) {
      assert SatAll(a, f) && OrReifPhi(bs[i], ti, t)(a);
      LinkFree(a, bs, i, B(a, ti), B(a, t));
    }
    forall a: Assignment | SatAll(a, f0) && ChainPhi(bs, t)(a) ensures ExtendsTo(a, nv0, f') {
      var u := FreeLink(a, bs, i, B(a, t));
      LastReaches(a, nv0, f, f', bs[i], ti, t, u);
    }
  }

  /** With inputs of which at most one can hold, that is the disjunction. */
  lemma ChainExclusive(f: Formula, nv: nat, f': Formula, bs: seq<int>, t: int)
    requires Exclusive(f, bs) && Step(f, nv, f', ChainPhi(bs, t))
    ensures Step(f, nv, f', ArrayOrPhi(bs, t))
  {
    hide SatAll, Or, AtMostOne, B, ExtendsTo;
    forall a: Assignment | SatAll(a, f) ensures ChainPhi(bs, t)(a) == ArrayOrPhi(bs, t)(a) {}
    assert forall a: Assignment :: SatAll(a, f') ==> ChainPhi(bs, t)(a);
  }

  /** Every assignment of `f` that agrees with a on the first n variables gives t the value v. */
  ghost predicate Pins(a: Assignment, n: nat, f: Formula, t: int, v: bool) {
    forall a': Assignment :: Agree(a, a', n) && SatAll(a', f) ==> B(a', t) == v
  }

  /** The inputs and the formula speak of the first n variables only, and t is a later one. */
  ghost predicate Apart(f: Formula, bs: seq<int>, t: int, n: nat) {
    FormulaBelow(f, n) && RefsOk(bs, n) && n <= LitOf(t).v
  }

  /** An assignment of the old formula pins t to the disjunction exactly if at most one input is true in it. */
  ghost predicate PinsExactly(f: Formula, f': Formula, bs: seq<int>, t: int, n: nat) {
    forall a: Assignment :: SatAll(a, f) ==> (Pins(a, n, f', t, Or(a, bs)) <==> AtMostOne(a, bs))
  }

  lemma AgreeAmo(a: Assignment, a': Assignment, bs: seq<int>, nv: nat)
    requires Agree(a, a', nv) && RefsOk(bs, nv)
    ensures AtMostOne(a, bs) == AtMostOne(a', bs)
  {
    forall i | 0 <= i < |bs| ensures B(a, bs[i]) == B(a', bs[i]) { AgreeB(a, a', nv, bs[i]); }
  }

  lemma RefApart(t: int, n: nat, nv: nat)
    requires RefOk(t, nv) && n <= LitOf(t).v
    ensures n <= nv
  {}

  lemma ChainPins(f: Formula, nv: nat, f': Formula, bs: seq<int>, t: int, n: nat)
    requires Apart(f, bs, t, n) && RefOk(t, nv) && n <= nv && Step(f, nv, f', ChainPhi(bs, t))
    ensures PinsExactly(f, f', bs, t, n)
  {
    hide SatAll, Or, AtMostOne, FormulaBelow;
    forall a: Assignment | SatAll(a, f) ensures Pins(a, n, f', t, Or(a, bs)) <==> AtMostOne(a, bs) {
      forall a': Assignment | Agree(a, a', n) && SatAll(a', f') ensures AtMostOne(a, bs) ==> B(a', t) == Or(a, bs) {
        AgreeAmo(a, a', bs, n);
        AgreeOr(a, a', bs, n);
        assert ChainPhi(bs, t)(a');
      }
      if !AtMostOne(a, bs) { ChainLoose(f, nv, f', bs, t, n, a, !Or(a, bs)); }
    }
  }

  /** With two inputs true, t may have either value. */
  lemma ChainLoose(f: Formula, nv: nat, f': Formula, bs: seq<int>, t: int, n: nat, a: Assignment, v: bool)
    requires Apart(f, bs, t, n) && RefOk(t, nv) && n <= nv && Step(f, nv, f', ChainPhi(bs, t))
    requires SatAll(a, f) && !AtMostOne(a, bs)
    ensures Reaches(a, n, f', t, v)
  {
    hide SatAll, Or, AtMostOne, FormulaBelow;
    var c := Put(a, LitOf(t).v, v != LitOf(t).s);
    assert Agree(a, c, n) && B(c, t) == v;
    AgreeSat(f, n, a, c);
    AgreeAmo(a, c, bs, n);
    assert ChainPhi(bs, t)(c);
    var a': Assignment :| Agree(c, a', nv) && SatAll(a', f');
    AgreeB(c, a', nv, t);
    assert Agree(a, a', n);
  }

  /** The chain for three inputs that are all true: its clauses are satisfied with the output false. */
  lemma ThreeInputs(f1: Formula, f2: Formula, a: Assignment)
    requires Adds([], f1, OrReifPhi(1, 2, 5)) && Adds(f1, f2, OrReifPhi(3, 5, 4))
    requires forall v: nat :: a(v) <==> v != 3
    ensures Or(a, [1, 2, 3]) && SatAll(a, f2) && !B(a, 4)
  {
    Or3(a, 1, 2, 3);
    assert OrReifPhi(1, 2, 5)(a) && OrReifPhi(3, 5, 4)(a);
    assert SatAll(a, []);
  }

  lemma StepTop(f: Formula, nv: nat, f': Formula, nv': nat, f'': Formula)
    requires Step(f, nv, f', Top()) && Step(f', nv', f'', Top()) && nv <= nv'
    ensures Step(f, nv, f'', Top())
  {
    StepTrans(f, nv, f', nv', f'', Top(), Top(), Top());
  }

  lemma AgreeOr(a: Assignment, a': Assignment, bs: seq<int>, nv: nat)
    requires Agree(a, a', nv) && RefsOk(bs, nv)
    ensures Or(a, bs) == Or(a', bs)
  {
    forall i | 0 <= i < |bs| ensures B(a, bs[i]) == B(a', bs[i]) { AgreeB(a, a', nv, bs[i]); }
  }

  lemma AddsStronger(f0: Formula, f: Formula, f': Formula, phi: Assignment -> bool)
    requires Stronger(f0, f) && Adds(f, f', phi)
    ensures Stronger(f0, f')
  {}

  /** With a single input the chain leaves t free whenever the input holds. */
  lemma OrReifAlone(f: Formula, b: int, t: int)
    requires b != 0 && t != 0
    ensures forall f' :: Adds(f, f', OrReifPhi(b, b, t)) ==> Adds(f, f', (a: Assignment) => B(a, t) ==> B(a, b))
  {}

  // ---------------------------------------------------------------- integers and permutations

  /** The k references after the first nv. */
  function Run(nv: nat, k: nat): seq<int> { seq(k, (i: nat) => nv + 1 + i) }

  /** n runs of n references each. */
  function Grid(nv: nat, n: nat): (r: seq<seq<int>>)
    ensures SquareOf(r, n) && forall i, c :: 0 <= i < n && 0 <= c < n ==> r[i][c] == nv + 1 + Cell(i, c, n)
  {
    seq(n, (i: nat) => seq(n, (c: nat) => nv + 1 + Cell(i, c, n)))
  }

  lemma GridRow(nv: nat, n: nat, i: nat)
    requires i < n
    ensures Grid(nv, n)[i] == Run(nv + i * n, n) && nv + i * n + n == nv + (i + 1) * n
  {}

  lemma GridBelow(nv: nat, n: nat)
    ensures forall i, c :: 0 <= i < n && 0 <= c < n ==> nv < Grid(nv, n)[i][c] <= nv + n * n
    ensures RowsBelow(Grid(nv, n), n, nv + n * n)
  {
    forall i, c | 0 <= i < n && 0 <= c < n ensures nv < Grid(nv, n)[i][c] <= nv + n * n { CellBound(n, n, i, c); }
  }

  predicate RowsBelow(rows: seq<seq<int>>, n: nat, nv: nat) {
    SquareOf(rows, n) && forall i, c :: 0 <= i < n && 0 <= c < n ==> RefOk(rows[i][c], nv)
  }

  function Column(rows: seq<seq<int>>, n: nat, c: nat): (r: seq<int>)
    requires SquareOf(rows, n) && c < n
    ensures |r| == n && forall i :: 0 <= i < n ==> r[i] == rows[i][c]
  {
    seq(n, (i: nat) requires i < n => rows[i][c])
  }

  lemma ColumnBelow(rows: seq<seq<int>>, n: nat, c: nat, nv: nat)
    requires RowsBelow(rows, n, nv) && c < n
    ensures RefsOk(Column(rows, n, c), nv)
  {}

  ghost predicate RowsOn(a: Assignment, rows: seq<seq<int>>, k: nat) {
    forall i :: 0 <= i < k && i < |rows| ==> ExactlyOne(a, rows[i])
  }

  ghost predicate ColsOn(a: Assignment, rows: seq<seq<int>>, n: nat, k: nat) {
    SquareOf(rows, n) ==> forall c: nat :: c < k && c < n ==> ExactlyOne(a, Column(rows, n, c))
  }

  /** Every row and every column has exactly one true reference. */
  ghost function PermPhi(rows: seq<seq<int>>, n: nat): Assignment -> bool {
    (a: Assignment) => RowsOn(a, rows, n) && ColsOn(a, rows, n, n)
  }

  lemma RowsNext(f0: Formula, f: Formula, f': Formula, rows: seq<seq<int>>, i: nat)
    requires i < |rows| && Adds(f0, f, (a: Assignment) => RowsOn(a, rows, i)) && Adds(f, f', OnePhi(rows[i]))
    ensures Adds(f0, f', (a: Assignment) => RowsOn(a, rows, i + 1))
  {
    hide SatAll, ExactlyOne;
    forall a: Assignment ensures SatAll(a, f') <==> SatAll(a, f0) && RowsOn(a, rows, i + 1) {
      assert SatAll(a, f) <==> SatAll(a, f0) && RowsOn(a, rows, i);
    }
  }

  lemma ColsNext(f0: Formula, f: Formula, f': Formula, rows: seq<seq<int>>, n: nat, c: nat)
    requires SquareOf(rows, n) && c < n && Adds(f, f', OnePhi(Column(rows, n, c)))
    requires Adds(f0, f, (a: Assignment) => RowsOn(a, rows, n) && ColsOn(a, rows, n, c))
    ensures Adds(f0, f', (a: Assignment) => RowsOn(a, rows, n) && ColsOn(a, rows, n, c + 1))
  {
    hide SatAll, ExactlyOne, RowsOn;
    forall a: Assignment ensures SatAll(a, f') <==> SatAll(a, f0) && RowsOn(a, rows, n) && ColsOn(a, rows, n, c + 1) {
      assert SatAll(a, f) <==> SatAll(a, f0) && RowsOn(a, rows, n) && ColsOn(a, rows, n, c);
    }
  }

  // ---------------------------------------------------------------- adjacency matrices

  /** The pair x < y comes before row i, column j in a row-by-row pass above the diagonal. */
  predicate Before(x: nat, y: nat, i: nat, j: nat) { x < y && (x < i || (x == i && y < j)) }

  function SetAt<T>(m: seq<seq<T>>, i: nat, j: nat, v: T): seq<seq<T>>
    requires i < |m| && j < |m[i]|
  {
    m[i := m[i][j := v]]
  }

  /** Above the diagonal up to (i, j): own variables, numbered above lo up to hi, mirrored below the diagonal. */
  ghost predicate AdjUpTo(m: seq<seq<int>>, n: nat, lo: nat, hi: nat, i: nat, j: nat) {
    && SquareOf(m, n) && lo <= hi
    && (forall x: nat, y: nat :: x < n && y < n && Before(x, y, i, j) ==> lo < m[x][y] <= hi && m[y][x] == m[x][y])
    && (forall x: nat, y: nat, x': nat, y': nat ::
      x < n && y < n && x' < n && y' < n && Before(x, y, i, j) && Before(x', y', i, j) && m[x][y] == m[x'][y'] ==>
        x == x' && y == y')
  }

  predicate FalseDiagonal(m: seq<seq<int>>, k: nat) {
    forall x :: 0 <= x < k && x < |m| && x < |m[x]| ==> m[x][x] == -1
  }

  /** A symmetric matrix of own variables with a false diagonal. */
  ghost predicate AdjNamed(m: seq<seq<int>>, n: nat, lo: nat, hi: nat) {
    AdjUpTo(m, n, lo, hi, n, n) && FalseDiagonal(m, n)
  }

  lemma AdjSame(m: seq<seq<int>>, m': seq<seq<int>>, n: nat, i: nat, j: nat, lo: nat, hi: nat, hi': nat, j': nat)
    requires AdjUpTo(m, n, lo, hi, i, j) && SquareOf(m', n) && hi <= hi'
    requires forall x: nat, y: nat :: x < n && y < n && Before(x, y, i, j') ==> m'[y][x] == m'[x][y]
    requires forall x: nat, y: nat :: x < n && y < n && Before(x, y, i, j') ==>
      if Before(x, y, i, j) then m'[x][y] == m[x][y] else x == i && y == j && m'[x][y] == hi' == hi + 1
    ensures AdjUpTo(m', n, lo, hi', i, j')
  {
    forall x: nat, y: nat, x': nat, y': nat |
      x < n && y < n && x' < n && y' < n && Before(x, y, i, j') && Before(x', y', i, j') && m'[x][y] == m'[x'][y']
      ensures x == x' && y == y'
    {
      assert Before(x, y, i, j) ==> m[x][y] <= hi;
      assert Before(x', y', i, j) ==> m[x'][y'] <= hi;
    }
  }

  lemma AdjNext(m: seq<seq<int>>, n: nat, lo: nat, hi: nat, i: nat, j: nat)
    requires AdjUpTo(m, n, lo, hi, i, j) && i < j < n
    ensures var m' := SetAt(m, i, j, hi + 1);
      SquareOf(m', n) && AdjUpTo(SetAt(m', j, i, hi + 1), n, lo, hi + 1, i, j + 1)
  {
    var m' := SetAt(SetAt(m, i, j, hi + 1), j, i, hi + 1);
    forall x: nat, y: nat | x < n && y < n
      ensures m'[x][y] == if (x == i && y == j) || (x == j && y == i) then hi + 1 else m[x][y]
    {}
    AdjSame(m, m', n, i, j, lo, hi, hi + 1, j + 1);
  }

  lemma AdjRow(m: seq<seq<int>>, n: nat, lo: nat, hi: nat, i: nat, v: int)
    requires AdjUpTo(m, n, lo, hi, i, i) && i < n
    ensures AdjUpTo(SetAt(m, i, i, v), n, lo, hi, i, i + 1)
  {
    var m' := SetAt(m, i, i, v);
    forall x: nat, y: nat | x < n && y < n ensures m'[x][y] == if x == i && y == i then v else m[x][y] {}
    AdjSame(m, m', n, i, i, lo, hi, hi, i + 1);
  }

  lemma AdjRowEnd(m: seq<seq<int>>, n: nat, lo: nat, hi: nat, i: nat)
    requires AdjUpTo(m, n, lo, hi, i, n)
    ensures AdjUpTo(m, n, lo, hi, i + 1, i + 1)
  {
    var k := i + 1;
    forall x: nat, y: nat ensures x < n && y < n && Before(x, y, k, k) ==> Before(x, y, i, n) {}
    assert forall x: nat, y: nat :: x < n && y < n && Before(x, y, k, k) ==> lo < m[x][y] <= hi && m[y][x] == m[x][y];
  }

  lemma AdjStart(m: seq<seq<int>>, n: nat, lo: nat)
    requires SquareOf(m, n)
    ensures AdjUpTo(m, n, lo, lo, 0, 0) && FalseDiagonal(m, 0)
  {}

  lemma DiagonalNext(m: seq<seq<int>>, n: nat, i: nat)
    requires SquareOf(m, n) && i < n && FalseDiagonal(m, i)
    ensures FalseDiagonal(SetAt(m, i, i, -1), i + 1)
  {}

  lemma DiagonalKept(m: seq<seq<int>>, n: nat, i: nat, j: nat, v: int, k: nat)
    requires SquareOf(m, n) && i < n && j < n && i != j && FalseDiagonal(m, k)
    ensures FalseDiagonal(SetAt(SetAt(m, i, j, v), j, i, v), k)
  {}

  lemma AdjBelow(m: seq<seq<int>>, n: nat, lo: nat, hi: nat)
    requires AdjNamed(m, n, lo, hi) && hi >= 1
    ensures RowsBelow(m, n, hi)
  {
    forall x, y | 0 <= x < n && 0 <= y < n ensures RefOk(m[x][y], hi) {
      assert x < y ==> Before(x, y, n, n);
      assert y < x ==> Before(y, x, n, n);
    }
  }

  // ---------------------------------------------------------------- isomorphism

  /** Vertex i of the first graph is the image of k, j that of l, and the second graph has the edge kl. */
  predicate Term(a: Assignment, g2: seq<seq<int>>, rows: seq<seq<int>>, n: nat, k: nat, l: nat, i: nat, j: nat)
  {
    && SquareOf(g2, n) && SquareOf(rows, n) && k < n && l < n && i < n && j < n
    && B(a, rows[k][i]) && B(a, rows[l][j]) && B(a, g2[k][l])
  }

  ghost predicate IsoAt(a: Assignment, g1: seq<seq<int>>, g2: seq<seq<int>>, rows: seq<seq<int>>, n: nat, i: nat,
      j: nat)
  {
    SquareOf(g1, n) && i < n && j < n ==>
      (B(a, g1[i][j]) <==> exists k: nat, l: nat :: k != l && Term(a, g2, rows, n, k, l, i, j))
  }

  ghost predicate IsoUpTo(a: Assignment, g1: seq<seq<int>>, g2: seq<seq<int>>, rows: seq<seq<int>>, n: nat, i: nat,
      j: nat)
  {
    forall x: nat, y: nat :: y < n && Before(x, y, i, j) ==> IsoAt(a, g1, g2, rows, n, x, y)
  }

  ghost function IsoAtPhi(g1: seq<seq<int>>, g2: seq<seq<int>>, rows: seq<seq<int>>, n: nat, i: nat,
      j: nat): Assignment -> bool
  {
    (a: Assignment) => IsoAt(a, g1, g2, rows, n, i, j)
  }

  ghost function IsoUpToPhi(g1: seq<seq<int>>, g2: seq<seq<int>>, rows: seq<seq<int>>, n: nat, i: nat,
      j: nat): Assignment -> bool
  {
    (a: Assignment) => IsoUpTo(a, g1, g2, rows, n, i, j)
  }

  /** The second graph, renamed by the permutation, is the first. */
  ghost function IsoPhi(g1: seq<seq<int>>, g2: seq<seq<int>>, rows: seq<seq<int>>, n: nat): Assignment -> bool {
    IsoUpToPhi(g1, g2, rows, n, n, n)
  }

  ghost predicate IsTerm(f: Formula, t: int, g2: seq<seq<int>>, rows: seq<seq<int>>, n: nat, kl: (nat, nat), i: nat,
      j: nat)
  {
    forall a: Assignment :: SatAll(a, f) ==> (B(a, t) <==> Term(a, g2, rows, n, kl.0, kl.1, i, j))
  }

  /** The references stand for the terms of the given pairs. */
  ghost predicate Terms(f: Formula, ts: seq<int>, kls: seq<(nat, nat)>, g2: seq<seq<int>>, rows: seq<seq<int>>, n: nat,
      i: nat, j: nat)
  {
    |ts| == |kls| && forall m :: 0 <= m < |ts| ==> IsTerm(f, ts[m], g2, rows, n, kls[m], i, j)
  }

  /** All ordered pairs of distinct indices before (k, l), each once. */
  ghost predicate Listed(kls: seq<(nat, nat)>, n: nat, k: nat, l: nat) {
    && (forall m :: 0 <= m < |kls| ==>
      kls[m].0 < n && kls[m].1 < n && kls[m].0 != kls[m].1 && (kls[m].0 < k || (kls[m].0 == k && kls[m].1 < l)))
    && (forall m, m' :: 0 <= m < m' < |kls| ==> kls[m] != kls[m'])
    && (forall x: nat, y: nat :: x < n && y < n && x != y && (x < k || (x == k && y < l)) ==> (x, y) in kls)
  }

  lemma ListedNext(kls: seq<(nat, nat)>, n: nat, k: nat, l: nat)
    requires Listed(kls, n, k, l) && k < n && l < n
    ensures Listed(if k != l then kls + [(k, l)] else kls, n, k, l + 1)
  {}

  lemma ListedTwo(kls: seq<(nat, nat)>, n: nat)
    requires Listed(kls, n, n, 0) && n >= 2
    ensures |kls| >= 2
  {
    assert (0, 1) in kls && (1, 0) in kls;
  }

  lemma TermsMore(f: Formula, f': Formula, ts: seq<int>, kls: seq<(nat, nat)>, t: int, kl: (nat, nat),
                  g2: seq<seq<int>>, rows: seq<seq<int>>, n: nat, i: nat, j: nat)
    requires Terms(f, ts, kls, g2, rows, n, i, j) && Stronger(f, f') && IsTerm(f', t, g2, rows, n, kl, i, j)
    ensures Terms(f', ts + [t], kls + [kl], g2, rows, n, i, j)
  {
    hide SatAll, B, Term;
    forall m | 0 <= m < |ts| + 1 ensures IsTerm(f', (ts + [t])[m], g2, rows, n, (kls + [kl])[m], i, j) {
      if m < |ts| { assert IsTerm(f, ts[m], g2, rows, n, kls[m], i, j); }
    }
  }

  lemma StepStronger(f: Formula, nv: nat, f': Formula, phi: Assignment -> bool)
    requires Step(f, nv, f', phi)
    ensures Stronger(f, f')
  {}

  lemma TermDefined(f: Formula, nv: nat, f': Formula, g2: seq<seq<int>>, rows: seq<seq<int>>, n: nat, k: nat, l: nat,
      i: nat, j: nat)
    requires FormulaBelow(f, nv) && RowsBelow(g2, n, nv) && RowsBelow(rows, n, nv) && k < n && l < n && i < n && j < n
    requires Adds(f, f', And3Phi(rows[k][i], rows[l][j], g2[k][l], nv + 1))
    ensures Step(f, nv, f', Top()) && IsTerm(f', nv + 1, g2, rows, n, (k, l), i, j)
  {
    hide SatAll, FormulaBelow;
    var b1, b2, b3 := rows[k][i], rows[l][j], g2[k][l];
    var psi := (a: Assignment) => B(a, b1) && B(a, b2) && B(a, b3);
    assert Local(psi, nv);
    DefineRef(f, nv, f', psi, And3Phi(b1, b2, b3, nv + 1));
  }

  /** Every model of `f` makes the rows a permutation. */
  ghost predicate PermIn(f: Formula, rows: seq<seq<int>>, n: nat) {
    forall a: Assignment :: SatAll(a, f) ==> PermPhi(rows, n)(a)
  }

  lemma OneInColumn(a: Assignment, rows: seq<seq<int>>, n: nat, c: nat, k: nat, k': nat)
    requires SquareOf(rows, n) && c < n && k < n && k' < n && ColsOn(a, rows, n, n) && B(a, rows[k][c])
    requires B(a, rows[k'][c])
    ensures k == k'
  {
    var col := Column(rows, n, c);
    assert B(a, col[k]) && B(a, col[k']);
  }

  lemma TermsExclusive(f: Formula, ts: seq<int>, kls: seq<(nat, nat)>, g2: seq<seq<int>>, rows: seq<seq<int>>, n: nat,
      i: nat, j: nat)
    requires Terms(f, ts, kls, g2, rows, n, i, j) && Listed(kls, n, n, 0) && PermIn(f, rows, n) && SquareOf(rows, n)
    ensures Exclusive(f, ts)
  {
    hide SatAll;
    forall a: Assignment, x, y | SatAll(a, f) && 0 <= x < y < |ts| ensures !(B(a, ts[x]) && B(a, ts[y])) {
      assert IsTerm(f, ts[x], g2, rows, n, kls[x], i, j) && IsTerm(f, ts[y], g2, rows, n, kls[y], i, j);
      if B(a, ts[x]) && B(a, ts[y]) {
        assert PermPhi(rows, n)(a);
        OneInColumn(a, rows, n, i, kls[x].0, kls[y].0);
        OneInColumn(a, rows, n, j, kls[x].1, kls[y].1);
        assert false;
      }
    }
  }

  lemma TermsOr(f: Formula, a: Assignment, ts: seq<int>, kls: seq<(nat, nat)>, g2: seq<seq<int>>, rows: seq<seq<int>>,
      n: nat, i: nat, j: nat)
    requires Terms(f, ts, kls, g2, rows, n, i, j) && Listed(kls, n, n, 0) && SatAll(a, f)
    ensures Or(a, ts) <==> exists k: nat, l: nat :: k != l && Term(a, g2, rows, n, k, l, i, j)
  {
    hide SatAll;
    if Or(a, ts) {
      var m :| 0 <= m < |ts| && B(a, ts[m]);
      assert IsTerm(f, ts[m], g2, rows, n, kls[m], i, j);
      assert Term(a, g2, rows, n, kls[m].0, kls[m].1, i, j);
    }
    if k: nat, l: nat :| k != l && Term(a, g2, rows, n, k, l, i, j) {
      assert (k, l) in kls;
      var m :| 0 <= m < |kls| && kls[m] == (k, l);
      assert IsTerm(f, ts[m], g2, rows, n, kls[m], i, j);
      assert B(a, ts[m]);
    }
  }

  lemma LocalTerm(g2: seq<seq<int>>, rows: seq<seq<int>>, n: nat, i: nat, j: nat, nv: nat, a: Assignment,
      a': Assignment, k: nat, l: nat)
    requires RowsBelow(g2, n, nv) && RowsBelow(rows, n, nv) && Agree(a, a', nv)
    ensures Term(a, g2, rows, n, k, l, i, j) == Term(a', g2, rows, n, k, l, i, j)
  {
    if k < n && l < n && i < n && j < n {
      AgreeB(a, a', nv, rows[k][i]);
      AgreeB(a, a', nv, rows[l][j]);
      AgreeB(a, a', nv, g2[k][l]);
    }
  }

  lemma LocalIsoAt(g1: seq<seq<int>>, g2: seq<seq<int>>, rows: seq<seq<int>>, n: nat, i: nat, j: nat, nv: nat)
    requires RowsBelow(g1, n, nv) && RowsBelow(g2, n, nv) && RowsBelow(rows, n, nv)
    ensures Local(IsoAtPhi(g1, g2, rows, n, i, j), nv)
  {
    hide B, Term;
    forall a: Assignment, a': Assignment | Agree(a, a', nv)
      ensures IsoAt(a, g1, g2, rows, n, i, j) == IsoAt(a', g1, g2, rows, n, i, j)
    {
      forall k: nat, l: nat ensures Term(a, g2, rows, n, k, l, i, j) == Term(a', g2, rows, n, k, l, i, j) {
        LocalTerm(g2, rows, n, i, j, nv, a, a', k, l);
      }
      if i < n && j < n { AgreeB(a, a', nv, g1[i][j]); }
    }
  }

  /** One entry of the isomorphism: terms first, then their disjunction. */
  lemma IsoEntryStep(f0: Formula, nv0: nat, f: Formula, nv: nat, f': Formula, ts: seq<int>, kls: seq<(nat, nat)>,
                     g1: seq<seq<int>>, g2: seq<seq<int>>, rows: seq<seq<int>>, n: nat, i: nat, j: nat)
    requires RowsBelow(g1, n, nv0) && RowsBelow(g2, n, nv0) && RowsBelow(rows, n, nv0) && i < j < n && nv0 <= nv
    requires Step(f0, nv0, f, Top()) && Terms(f, ts, kls, g2, rows, n, i, j) && Listed(kls, n, n, 0)
    requires Step(f, nv, f', ArrayOrPhi(ts, g1[i][j]))
    ensures Step(f0, nv0, f', IsoAtPhi(g1, g2, rows, n, i, j))
  {
    hide SatAll, B, Term, Step, Listed, Terms, Local, Or;
    LocalIsoAt(g1, g2, rows, n, i, j, nv0);
    forall a: Assignment | SatAll(a, f) ensures ArrayOrPhi(ts, g1[i][j])(a) <==> IsoAtPhi(g1, g2, rows, n, i, j)(a) {
      TermsOr(f, a, ts, kls, g2, rows, n, i, j);
    }
    StepThen(f0, nv0, f, nv, f', ArrayOrPhi(ts, g1[i][j]), IsoAtPhi(g1, g2, rows, n, i, j));
  }

  lemma IsoNext(f0: Formula, nv0: nat, f: Formula, nv: nat, f': Formula,
                g1: seq<seq<int>>, g2: seq<seq<int>>, rows: seq<seq<int>>, n: nat, i: nat, j: nat)
    requires RowsBelow(g1, n, nv0) && RowsBelow(g2, n, nv0) && RowsBelow(rows, n, nv0) && i < j < n && nv0 <= nv
    requires Step(f0, nv0, f, IsoUpToPhi(g1, g2, rows, n, i, j)) && Step(f, nv, f', IsoAtPhi(g1, g2, rows, n, i, j))
    ensures Step(f0, nv0, f', IsoUpToPhi(g1, g2, rows, n, i, j + 1))
  {
    hide IsoAt, Step, Local;
    LocalIsoAt(g1, g2, rows, n, i, j, nv0);
    StepTrans(f0, nv0, f, nv, f', IsoUpToPhi(g1, g2, rows, n, i, j), IsoAtPhi(g1, g2, rows, n, i, j),
      IsoUpToPhi(g1, g2, rows, n, i, j + 1));
  }

  lemma IsoRowEnd(f0: Formula, nv0: nat, f: Formula, g1: seq<seq<int>>, g2: seq<seq<int>>, rows: seq<seq<int>>, n: nat,
      i: nat)
    requires Step(f0, nv0, f, IsoUpToPhi(g1, g2, rows, n, i, n))
    ensures Step(f0, nv0, f, IsoUpToPhi(g1, g2, rows, n, i + 1, i + 2))
  {
    StepSame(f0, nv0, f, IsoUpToPhi(g1, g2, rows, n, i, n), IsoUpToPhi(g1, g2, rows, n, i + 1, i + 2));
  }

  lemma StepSame(f: Formula, nv: nat, f': Formula, phi: Assignment -> bool, psi: Assignment -> bool)
    requires Step(f, nv, f', phi) && forall a: Assignment :: phi(a) <==> psi(a)
    ensures Step(f, nv, f', psi)
  {
    hide SatAll, ExtendsTo;
  }

  // ---------------------------------------------------------------- lexicographic order

  lemma LocalIff(b1: int, b2: int, nv: nat)
    requires RefOk(b1, nv) && RefOk(b2, nv)
    ensures Local((a: Assignment) => B(a, b1) == B(a, b2), nv)
  {}

  ghost function SamePhi(arr1: seq<int>, arr2: seq<int>, k: nat): Assignment -> bool {
    (a: Assignment) => Same(a, arr1, arr2, k)
  }

  ghost predicate Equated(f: Formula, b1: int, b2: int, t: int) {
    forall a: Assignment :: SatAll(a, f) ==> B(a, t) == (B(a, b1) == B(a, b2))
  }

  /** Forcing the equality of one more position. */
  lemma SameNext(f0: Formula, nv0: nat, f: Formula, nv: nat, f': Formula, nv': nat, f'': Formula, arr1: seq<int>,
      arr2: seq<int>, k: nat, t: int)
    requires k < |arr1| && k < |arr2| && RefOk(arr1[k], nv0) && RefOk(arr2[k], nv0) && nv0 <= nv <= nv'
    requires Step(f0, nv0, f, SamePhi(arr1, arr2, k)) && Step(f, nv, f', Top()) && Equated(f', arr1[k], arr2[k], t)
    requires Adds(f', f'', (a: Assignment) => B(a, t) == true)
    ensures Step(f0, nv0, f'', SamePhi(arr1, arr2, k + 1))
  {
    hide SatAll, B, Step, Local, Adds;
    var eq := (a: Assignment) => B(a, arr1[k]) == B(a, arr2[k]);
    var tt := (a: Assignment) => B(a, t) == true;
    LocalIff(arr1[k], arr2[k], nv);
    LocalIff(arr1[k], arr2[k], nv0);
    AddsStep(f', nv', f'', tt);
    StepThen(f, nv, f', nv', f'', tt, eq);
    SameMore(arr1, arr2, k);
    StepTrans(f0, nv0, f, nv, f'', SamePhi(arr1, arr2, k), eq, SamePhi(arr1, arr2, k + 1));
  }

  lemma SameMore(arr1: seq<int>, arr2: seq<int>, k: nat)
    requires k < |arr1| && k < |arr2|
    ensures forall a: Assignment :: Same(a, arr1, arr2, k + 1) <==>
      Same(a, arr1, arr2, k) && B(a, arr1[k]) == B(a, arr2[k])
  {
    hide B;
  }

  lemma SameNone(f: Formula, nv: nat, arr1: seq<int>, arr2: seq<int>)
    ensures Step(f, nv, f, SamePhi(arr1, arr2, 0))
  {
    StepRefl(f, nv);
    StepSame(f, nv, f, Top(), SamePhi(arr1, arr2, 0));
  }

  lemma LocalBit(b: int, val: bool, nv: nat)
    requires RefOk(b, nv)
    ensures Local((a: Assignment) => B(a, b) == val, nv)
  {}

  lemma LexLtEnd(f0: Formula, nv0: nat, f: Formula, nv: nat, f': Formula, f'': Formula, arr1: seq<int>, arr2: seq<int>,
      length: nat)
    requires 1 <= length <= |arr1| && length <= |arr2| && nv0 <= nv
    requires RefOk(arr1[length - 1], nv0) && RefOk(arr2[length - 1], nv0)
    requires Step(f0, nv0, f, SamePhi(arr1, arr2, length - 1))
    requires Adds(f, f', (a: Assignment) => B(a, arr1[length - 1]) == false)
    requires Adds(f', f'', (a: Assignment) => B(a, arr2[length - 1]) == true)
    ensures Step(f0, nv0, f'', LexLtPhi(arr1, arr2, length))
  {
    hide SatAll, B, Step, Local, Adds, Same;
    var lo := (a: Assignment) => B(a, arr1[length - 1]) == false;
    var hi := (a: Assignment) => B(a, arr2[length - 1]) == true;
    var mid := (a: Assignment) => Same(a, arr1, arr2, length - 1) && !B(a, arr1[length - 1]);
    LocalBit(arr1[length - 1], false, nv0);
    LocalBit(arr2[length - 1], true, nv0);
    AddsStep(f, nv, f', lo);
    AddsStep(f', nv, f'', hi);
    StepTrans(f0, nv0, f, nv, f', SamePhi(arr1, arr2, length - 1), lo, mid);
    StepTrans(f0, nv0, f', nv, f'', mid, hi, LexLtPhi(arr1, arr2, length));
  }

  /** The references say, in all models, that the arrays differ at each of the first |c| positions. */
  ghost predicate Differ(f: Formula, c: seq<int>, arr1: seq<int>, arr2: seq<int>) {
    |c| <= |arr1| && |c| <= |arr2| && forall k :: 0 <= k < |c| ==> c[k] != 0 && Equated(f, arr1[k], arr2[k], -c[k])
  }

  lemma DifferMore(f: Formula, f': Formula, c: seq<int>, arr1: seq<int>, arr2: seq<int>, t: int)
    requires Differ(f, c, arr1, arr2) && Stronger(f, f') && |c| < |arr1| && |c| < |arr2|
    requires t != 0 && Equated(f', arr1[|c|], arr2[|c|], t)
    ensures Differ(f', c + [-t], arr1, arr2)
  {
    hide SatAll, B;
    forall k | 0 <= k < |c| ensures Equated(f', arr1[k], arr2[k], -c[k]) { assert Equated(f, arr1[k], arr2[k], -c[k]); }
    assert -(-t) == t;
  }

  lemma LexImpClause(f: Formula, a: Assignment, c: seq<int>, arr1: seq<int>, arr2: seq<int>, length: nat)
    requires 1 <= length <= |arr1| && length <= |arr2| && |c| == length - 1 && Differ(f, c, arr1, arr2) && SatAll(a, f)
    requires arr1[length - 1] != 0
    ensures Or(a, c + [-arr1[length - 1]] + [arr2[length - 1]]) <==> LexImp(a, arr1, arr2, length)
  {
    hide SatAll, B;
    var d := c + [-arr1[length - 1]] + [arr2[length - 1]];
    NegB(a, arr1[length - 1]);
    forall k | 0 <= k < |c| ensures B(a, d[k]) <==> B(a, arr1[k]) != B(a, arr2[k]) {
      assert Equated(f, arr1[k], arr2[k], -c[k]);
      NegB(a, c[k]);
      assert d[k] == c[k];
    }
    assert d[length - 1] == -arr1[length - 1] && d[length] == arr2[length - 1];
    if Or(a, d) {
      var k :| 0 <= k < |d| && B(a, d[k]);
    }
    if LexImp(a, arr1, arr2, length) {
      if k :| 0 <= k < length - 1 && B(a, arr1[k]) != B(a, arr2[k]) {
        assert B(a, d[k]);
      } else {
        assert Same(a, arr1, arr2, length - 1);
        assert B(a, d[length - 1]) || B(a, d[length]);
      }
    }
  }

  lemma LocalLexImp(arr1: seq<int>, arr2: seq<int>, length: nat, nv: nat)
    requires RefsOk(arr1, nv) && RefsOk(arr2, nv)
    ensures Local(LexImpPhi(arr1, arr2, length), nv)
  {
    hide B;
    forall a: Assignment, a': Assignment | Agree(a, a', nv)
      ensures LexImp(a, arr1, arr2, length) == LexImp(a', arr1, arr2, length)
    {
      forall i | 0 <= i < |arr1| ensures B(a, arr1[i]) == B(a', arr1[i]) { AgreeB(a, a', nv, arr1[i]); }
      forall i | 0 <= i < |arr2| ensures B(a, arr2[i]) == B(a', arr2[i]) { AgreeB(a, a', nv, arr2[i]); }
    }
  }

  lemma LexImpEnd(f0: Formula, nv0: nat, f: Formula, nv: nat, f': Formula, c: seq<int>, arr1: seq<int>, arr2: seq<int>,
      length: nat)
    requires 1 <= length <= |arr1| && length <= |arr2| && |c| == length - 1 && nv0 <= nv && Differ(f, c, arr1, arr2)
    requires RefsOk(arr1, nv0) && RefsOk(arr2, nv0) && Step(f0, nv0, f, Top())
    requires Adds(f, f', OrPhi(c + [-arr1[length - 1]] + [arr2[length - 1]]))
    ensures Step(f0, nv0, f', LexImpPhi(arr1, arr2, length))
  {
    hide SatAll, B, Step, Local, Adds, Same, Or, LexImp, Differ;
    var d := c + [-arr1[length - 1]] + [arr2[length - 1]];
    LocalLexImp(arr1, arr2, length, nv0);
    AddsStep(f, nv, f', OrPhi(d));
    forall a: Assignment | SatAll(a, f) ensures OrPhi(d)(a) <==> LexImpPhi(arr1, arr2, length)(a) {
      LexImpClause(f, a, c, arr1, arr2, length);
    }
    StepThen(f0, nv0, f, nv, f', OrPhi(d), LexImpPhi(arr1, arr2, length));
  }

  // ---------------------------------------------------------------- small facts about conditions

  lemma StrongerTrans(f: Formula, f': Formula, f'': Formula)
    requires Stronger(f, f') && Stronger(f', f'')
    ensures Stronger(f, f'')
  {}

  lemma PermMore(f: Formula, f': Formula, rows: seq<seq<int>>, n: nat)
    requires PermIn(f, rows, n) && Stronger(f, f')
    ensures PermIn(f', rows, n)
  {}

  lemma RefMore(b: int, nv: nat, nv': nat)
    requires RefOk(b, nv) && nv <= nv'
    ensures RefOk(b, nv')
  {}

  lemma RowsMore(m: seq<seq<int>>, n: nat, nv: nat, nv': nat)
    requires RowsBelow(m, n, nv) && nv <= nv'
    ensures RowsBelow(m, n, nv')
  {}

  lemma EntryBelow(m: seq<seq<int>>, n: nat, nv: nat, i: nat, j: nat)
    requires RowsBelow(m, n, nv) && i < n && j < n
    ensures SquareOf(m, n) && RefOk(m[i][j], nv)
  {}

  lemma ListedStart(n: nat)
    ensures Listed([], n, 0, 0)
  {}

  lemma ListedRow(kls: seq<(nat, nat)>, n: nat, k: nat)
    requires Listed(kls, n, k, n)
    ensures Listed(kls, n, k + 1, 0)
  {}

  lemma IsoStart(f: Formula, nv: nat, g1: seq<seq<int>>, g2: seq<seq<int>>, rows: seq<seq<int>>, n: nat)
    ensures Step(f, nv, f, IsoUpToPhi(g1, g2, rows, n, 0, 1)) && Stronger(f, f)
  {
    StepRefl(f, nv);
    StepSame(f, nv, f, Top(), IsoUpToPhi(g1, g2, rows, n, 0, 1));
  }

  lemma IsoDone(f0: Formula, nv0: nat, f: Formula, g1: seq<seq<int>>, g2: seq<seq<int>>, rows: seq<seq<int>>, n: nat)
    requires Step(f0, nv0, f, IsoUpToPhi(g1, g2, rows, n, n, n + 1))
    ensures Step(f0, nv0, f, IsoPhi(g1, g2, rows, n))
  {
    StepSame(f0, nv0, f, IsoUpToPhi(g1, g2, rows, n, n, n + 1), IsoPhi(g1, g2, rows, n));
  }

  lemma ModelHolds(model: seq<LBool>, f: Formula, a: Assignment)
    requires ModelSat(model, f) && forall v: nat :: a(v) == (v < |model| && model[v] == True)
    requires forall v: nat :: v < |model| ==> model[v] != Undef
    ensures SatAll(a, f)
  {
    forall c | c in f ensures SatClause(a, c) {
      var q :| q in c && Val(model, q) == True;
      assert Holds(a, q);
    }
  }

  // ---------------------------------------------------------------- decoding

  /** The index of the first true reference, 0 if there is none. */
  function FirstTrue(a: Assignment, bs: seq<int>): nat {
    if forall k :: 0 <= k < |bs| ==> !B(a, bs[k]) then 0
    else if B(a, bs[0]) then 0 else 1 + FirstTrue(a, bs[1..])
  }

  lemma {:induction false} FirstTrueAt(a: Assignment, bs: seq<int>, i: nat)
    requires i < |bs| && B(a, bs[i]) && forall k :: 0 <= k < i ==> !B(a, bs[k])
    ensures FirstTrue(a, bs) == i
  {
    if i > 0 {
      assert bs[1..][i - 1] == bs[i];
      FirstTrueAt(a, bs[1..], i - 1);
    }
  }

  lemma FirstTrueNone(a: Assignment, bs: seq<int>)
    requires forall k :: 0 <= k < |bs| ==> !B(a, bs[k])
    ensures FirstTrue(a, bs) == 0
  {}

  function Decoded(a: Assignment, rows: seq<seq<int>>): seq<nat> {
    seq(|rows|, (i: nat) requires i < |rows| => FirstTrue(a, rows[i]))
  }
}
