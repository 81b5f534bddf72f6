/** Graphs as adjacency strings, permutations of their vertices, and the lexicographic order of the strings. */
module Graphs {

  type Graph = (nat, nat) -> bool

  datatype Indexing = UpperTriangleRows | UpperTriangleCols

  // ---------------------------------------------------------------- positions of a string

  /** Row i from column j on. */
  function RowRest(i: nat, j: nat, n: nat): seq<(nat, nat)>
    requires j <= n
  {
    seq(n - j, (k: nat) => (i, j + k))
  }

  function RowPairs(i: nat, n: nat): seq<(nat, nat)>
    requires i <= n
    decreases n - i
  {
    if i == n then [] else RowRest(i, i + 1, n) + RowPairs(i + 1, n)
  }

  function ColPairs(n: nat): seq<(nat, nat)> {
    if n == 0 then [] else ColPairs(n - 1) + seq(n - 1, (j: nat) => (n - 1, j))
  }

  /** The pair of vertices at each position of the string of an n-vertex graph. */
  function Pairs(n: nat, ix: Indexing): seq<(nat, nat)> {
    match ix
    case UpperTriangleRows => RowPairs(0, n)
    case UpperTriangleCols => ColPairs(n)
  }

  lemma {:induction false} RowPairsLength(i: nat, n: nat)
    requires i <= n
    ensures |RowPairs(i, n)| == (n - i) * (n - i - 1) / 2
    decreases n - i
  {
    if i < n {
      RowPairsLength(i + 1, n);
      var m := n - i - 1;
      assert (m + 1) * m == m * (m - 1) + 2 * m;
    }
  }

  lemma {:induction false} ColPairsLength(n: nat)
    ensures |ColPairs(n)| == n * (n - 1) / 2
  {
    if n > 0 {
      ColPairsLength(n - 1);
      assert n * (n - 1) == (n - 1) * (n - 2) + 2 * (n - 1);
    }
  }

  /** Every string has n(n-1)/2 positions. */
  lemma PairsLength(n: nat, ix: Indexing)
    ensures |Pairs(n, ix)| == n * (n - 1) / 2
  {
    RowPairsLength(0, n);
    ColPairsLength(n);
  }

  /** The position of the pair ij, j < i, when the columns are read one after the other from the top. */
  function ColAt(i: nat, j: nat): int { i * (i - 1) / 2 + j }

  /** The position of the pair ij, i < j < n, when the rows above the diagonal are read one after the other. */
  function RowAt(i: nat, j: nat, n: nat): int { i * n - i * (i + 1) / 2 + j - i - 1 }

  lemma {:induction false} ColPosition(n: nat, i: nat, j: nat)
    requires j < i < n
    ensures 0 <= ColAt(i, j) < |ColPairs(n)| && ColPairs(n)[ColAt(i, j)] == (i, j)
  {
    ColPairsLength(n - 1);
    if i < n - 1 { ColPosition(n - 1, i, j); }
  }

  /** How far a row starts behind the one before it. */
  lemma RowShift(lo: nat, i: nat, j: nat, n: nat)
    ensures RowAt(lo + 1, lo + 2, n) - RowAt(lo, lo + 1, n) == n - lo - 1
    ensures RowAt(i, j, n) - RowAt(i, i + 1, n) == j - i - 1
  {
    assert (lo + 1) * n == lo * n + n;
    assert (lo + 1) * (lo + 2) == lo * (lo + 1) + 2 * (lo + 1);
  }

  lemma {:induction false} RowPositionFrom(lo: nat, n: nat, i: nat, j: nat)
    requires lo <= i < j < n
    ensures 0 <= RowAt(i, j, n) - RowAt(lo, lo + 1, n) < |RowPairs(lo, n)|
    ensures RowPairs(lo, n)[RowAt(i, j, n) - RowAt(lo, lo + 1, n)] == (i, j)
    decreases i - lo
  {
    hide RowAt;
    RowShift(lo, i, j, n);
    if lo < i { RowPositionFrom(lo + 1, n, i, j); }
  }

  /** Which pair is at which position, in closed form. */
  lemma Position(n: nat, i: nat, j: nat)
    requires i < j < n
    ensures var ps := Pairs(n, UpperTriangleRows); 0 <= RowAt(i, j, n) < |ps| && ps[RowAt(i, j, n)] == (i, j)
    ensures var ps := Pairs(n, UpperTriangleCols); 0 <= ColAt(j, i) < |ps| && ps[ColAt(j, i)] == (j, i)
  {
    RowPositionFrom(0, n, i, j);
    ColPosition(n, j, i);
  }

  predicate SamePair(p: (nat, nat), i: nat, j: nat) {
    p == (i, j) || p == (j, i)
  }

  ghost predicate Covered(ps: seq<(nat, nat)>, i: nat, j: nat) {
    exists k :: 0 <= k < |ps| && SamePair(ps[k], i, j)
  }

  /** `ps` lists every unordered pair of distinct vertices from lo to n - 1 exactly once. */
  ghost predicate Pairing(ps: seq<(nat, nat)>, lo: nat, n: nat) {
    && (forall k :: 0 <= k < |ps| ==> lo <= ps[k].0 < n && lo <= ps[k].1 < n && ps[k].0 != ps[k].1)
    && (forall i: nat, j: nat :: lo <= i < n && lo <= j < n && i != j ==> Covered(ps, i, j))
    && (forall k, l :: 0 <= k < l < |ps| ==> !SamePair(ps[k], ps[l].0, ps[l].1))
  }

  lemma {:induction false} RowPairing(i: nat, n: nat)
    requires i <= n
    ensures Pairing(RowPairs(i, n), i, n)
    decreases n - i
  {
    hide Covered, SamePair;
    if i < n {
      RowPairing(i + 1, n);
      var row, rest := RowRest(i, i + 1, n), RowPairs(i + 1, n);
      var ps := RowPairs(i, n);
      assert ps == row + rest;
      forall x: nat, y: nat | i <= x < n && i <= y < n && x != y
        ensures Covered(ps, x, y)
      {
        RowCovers(i, n, rest, x, y);
      }
      RowApart(i, n, rest);
    }
  }

  lemma RowCovers(i: nat, n: nat, rest: seq<(nat, nat)>, x: nat, y: nat)
    requires i <= x < n && i <= y < n && x != y && (x > i && y > i ==> Covered(rest, x, y))
    ensures Covered(RowRest(i, i + 1, n) + rest, x, y)
  {
    var row := RowRest(i, i + 1, n);
    var ps := row + rest;
    if x == i || y == i {
      var z := if x == i then y else x;
      assert SamePair(ps[z - i - 1], x, y);
    } else {
      var k :| 0 <= k < |rest| && SamePair(rest[k], x, y);
      assert SamePair(ps[|row| + k], x, y);
    }
  }

  lemma RowApart(i: nat, n: nat, rest: seq<(nat, nat)>)
    requires i < n && Pairing(rest, i + 1, n)
    ensures var ps := RowRest(i, i + 1, n) + rest; forall k, l :: 0 <= k < l < |ps| ==>
      !SamePair(ps[k], ps[l].0, ps[l].1)
  {
    hide Covered;
    var row := RowRest(i, i + 1, n);
    var ps := row + rest;
    forall k, l | 0 <= k < l < |ps| ensures !SamePair(ps[k], ps[l].0, ps[l].1) {
      if k >= |row| { assert ps[k] == rest[k - |row|] && ps[l] == rest[l - |row|]; }
      else if l >= |row| { assert ps[l] == rest[l - |row|]; }
    }
  }

  lemma {:induction false} ColPairing(n: nat)
    ensures Pairing(ColPairs(n), 0, n)
  {
    hide Covered;
    if n > 0 {
      ColPairing(n - 1);
      ColPairingNext(ColPairs(n - 1), n);
      assert ColPairs(n) == ColPairs(n - 1) + LastColumn(n);
    } else {
      assert ColPairs(n) == [];
    }
  }

  lemma ColPairingNext(rest: seq<(nat, nat)>, n: nat)
    requires n > 0 && Pairing(rest, 0, n - 1)
    ensures Pairing(rest + LastColumn(n), 0, n)
  {
    hide Covered, SamePair;
    var ps := rest + LastColumn(n);
    forall x: nat, y: nat | x < n && y < n && x != y ensures Covered(ps, x, y) { ColCovered(rest, n, x, y); }
    ColApart(rest, n);
  }

  /** The pairs of the last column. */
  function LastColumn(n: nat): seq<(nat, nat)>
    requires n > 0
  {
    seq(n - 1, (j: nat) => (n - 1, j))
  }

  lemma ColCovered(rest: seq<(nat, nat)>, n: nat, x: nat, y: nat)
    requires n > 0 && Pairing(rest, 0, n - 1) && x < n && y < n && x != y
    ensures Covered(rest + LastColumn(n), x, y)
  {
    var ps := rest + LastColumn(n);
    if x == n - 1 || y == n - 1 {
      var z := if x == n - 1 then y else x;
      assert SamePair(ps[|rest| + z], x, y);
    } else {
      assert Covered(rest, x, y);
      var k :| 0 <= k < |rest| && SamePair(rest[k], x, y);
      assert SamePair(ps[k], x, y);
    }
  }

  lemma ColApart(rest: seq<(nat, nat)>, n: nat)
    requires n > 0 && Pairing(rest, 0, n - 1)
    ensures var ps := rest + LastColumn(n); forall k, l :: 0 <= k < l < |ps| ==> !SamePair(ps[k], ps[l].0, ps[l].1)
  {
    hide Covered;
    var ps := rest + LastColumn(n);
    forall k, l | 0 <= k < l < |ps| ensures !SamePair(ps[k], ps[l].0, ps[l].1) {
      if l < |rest| { assert ps[k] == rest[k] && ps[l] == rest[l]; }
      else if k < |rest| { assert ps[k] == rest[k]; }
    }
  }

  lemma PairsPairing(n: nat, ix: Indexing)
    ensures Pairing(Pairs(n, ix), 0, n)
  {
    RowPairing(0, n);
    ColPairing(n);
  }

  /** The string of a graph. */
  function Str(g: Graph, ps: seq<(nat, nat)>): (s: seq<bool>)
    ensures |s| == |ps| && forall k :: 0 <= k < |s| ==> s[k] == g(ps[k].0, ps[k].1)
  {
    seq(|ps|, (k: nat) requires k < |ps| => g(ps[k].0, ps[k].1))
  }

  // ---------------------------------------------------------------- permutations

  function At(p: seq<nat>, i: nat): nat { if i < |p| then p[i] else i }

  /** Renames the vertices; a permutation of fewer vertices is extended by the identity. */
  function Permute(g: Graph, p: seq<nat>): Graph {
    (i: nat, j: nat) => g(At(p, i), At(p, j))
  }

  ghost predicate IsPerm(p: seq<nat>, n: nat) {
    && |p| == n
    && (forall i :: 0 <= i < n ==> p[i] < n)
    && (forall i, j :: 0 <= i < j < n ==> p[i] != p[j])
  }

  ghost predicate Symmetric(g: Graph, n: nat) {
    forall i: nat, j: nat :: i < n && j < n ==> g(i, j) == g(j, i)
  }

  /** A permutation of m vertices, extended by the identity to n. */
  function Extended(p: seq<nat>, n: nat): seq<nat> {
    seq(n, (i: nat) => At(p, i))
  }

  lemma ExtendedPerm(p: seq<nat>, m: nat, n: nat, g: Graph, ps: seq<(nat, nat)>)
    requires IsPerm(p, m) && m <= n
    requires forall k :: 0 <= k < |ps| ==> ps[k].0 < n && ps[k].1 < n
    ensures IsPerm(Extended(p, n), n)
    ensures Str(Permute(g, p), ps) == Str(Permute(g, Extended(p, n)), ps)
  {
    var a, b := Str(Permute(g, p), ps), Str(Permute(g, Extended(p, n)), ps);
    forall k | 0 <= k < |a| ensures a[k] == b[k] {
      var i, j := ps[k].0, ps[k].1;
      assert At(Extended(p, n), i) == At(p, i) && At(Extended(p, n), j) == At(p, j);
      assert a[k] == Permute(g, p)(i, j) && b[k] == Permute(g, Extended(p, n))(i, j);
    }
  }

  // ---------------------------------------------------------------- lexicographic order

  predicate LexLe(s: seq<bool>, t: seq<bool>) {
    s == [] || t == [] || (!s[0] && t[0]) || (s[0] == t[0] && LexLe(s[1..], t[1..]))
  }

  /** The strings agree before position k, and s has a 1 there where t has a 0. */
  predicate DropsAt(s: seq<bool>, t: seq<bool>, k: nat)
    requires k < |s| && k < |t|
  {
    s[..k] == t[..k] && s[k] && !t[k]
  }

  lemma {:induction false} LexByPosition(s: seq<bool>, t: seq<bool>)
    requires |s| == |t|
    ensures LexLe(s, t) <==> forall k: nat :: k < |s| ==> !DropsAt(s, t, k)
  {
    if s != [] {
      LexByPosition(s[1..], t[1..]);
      if s[0] == t[0] {
        forall k: nat | k < |s| - 1 ensures DropsAt(s[1..], t[1..], k) <==> DropsAt(s, t, k + 1) {
          assert s[..k+1] == [s[0]] + s[1..][..k] && t[..k+1] == [t[0]] + t[1..][..k];
        }
        if !LexLe(s, t) {
          var k: nat :| k < |s| - 1 && DropsAt(s[1..], t[1..], k);
          assert DropsAt(s, t, k + 1);
        }
        if LexLe(s, t) {
          forall k: nat | k < |s| ensures !DropsAt(s, t, k) {
            if k > 0 { assert DropsAt(s[1..], t[1..], k - 1) <==> DropsAt(s, t, k); }
          }
        }
      } else if s[0] {
        assert DropsAt(s, t, 0);
      } else {
        forall k: nat | k < |s| ensures !DropsAt(s, t, k) {
          if k > 0 { assert s[..k][0] != t[..k][0]; }
        }
      }
    }
  }

  /** The graph's string is least among the strings of all its permuted copies. */
  ghost predicate Least(g: Graph, n: nat, ix: Indexing) {
    forall p :: IsPerm(p, n) ==> LexLe(Str(g, Pairs(n, ix)), Str(Permute(g, p), Pairs(n, ix)))
  }

  // ---------------------------------------------------------------- lex implications

  datatype LexImplication = LexImplication(perm: seq<nat>, length: nat)

  /**
   * If g agrees with its permuted copy on the first length - 1 positions, it is not above it at position length - 1.
   */
  ghost predicate SatImp(g: Graph, ps: seq<(nat, nat)>, imp: LexImplication) {
    1 <= imp.length <= |ps| ==> !DropsAt(Str(g, ps), Str(Permute(g, imp.perm), ps), imp.length - 1)
  }

  ghost predicate SatImps(g: Graph, ps: seq<(nat, nat)>, imps: seq<LexImplication>) {
    forall k :: 0 <= k < |imps| ==> SatImp(g, ps, imps[k])
  }

  /** No permuted copy of g first differs from it, downwards, at one of the first `len` positions. */
  ghost predicate LeastUpTo(g: Graph, n: nat, ix: Indexing, len: int) {
    forall p, l: nat :: IsPerm(p, n) && 1 <= l <= len && l <= |Pairs(n, ix)| ==>
      SatImp(g, Pairs(n, ix), LexImplication(p, l))
  }

  lemma LeastIsLeastUpTo(g: Graph, n: nat, ix: Indexing)
    ensures Least(g, n, ix) <==> LeastUpTo(g, n, ix, |Pairs(n, ix)|)
  {
    var ps := Pairs(n, ix);
    var s := Str(g, ps);
    forall p
      ensures LexLe(s, Str(Permute(g, p), ps)) <==> forall k: nat :: k < |s| ==> !DropsAt(s, Str(Permute(g, p), ps), k)
    {
      LexByPosition(s, Str(Permute(g, p), ps));
    }
    if LeastUpTo(g, n, ix, |ps|) {
      forall p, k: nat | IsPerm(p, n) && k < |s| ensures !DropsAt(s, Str(Permute(g, p), ps), k) {
        assert SatImp(g, ps, LexImplication(p, k + 1));
      }
    }
  }

  // ---------------------------------------------------------------- the last position never decides

  ghost function Trues(s: seq<bool>, b: bool): set<nat> {
    set k: nat | k < |s| && s[k] == b
  }

  /** A map that is one-to-one on s and lands in t shows that t is at least as large. */
  lemma {:induction false} InjectionCard(s: set<nat>, t: set<nat>, f: seq<nat>)
    requires forall x :: x in s ==> x < |f| && f[x] in t
    requires forall x, y :: x in s && y in s && x != y ==> f[x] != f[y]
    ensures |s| <= |t|
  {
    if s != {} {
      var x :| x in s;
      InjectionCard(s - {x}, t - {f[x]}, f);
    }
  }

  ghost function UpTo(n: nat): (s: set<nat>)
    ensures forall k: nat :: k in s <==> k < n
  {
    if n == 0 then {} else UpTo(n - 1) + {n - 1}
  }

  /** A one-to-one map of a finite set to itself takes every value. */
  lemma Surjective(all: set<nat>, p: seq<nat>, c: nat)
    requires c in all && forall x :: x in all ==> x < |p| && p[x] in all
    requires forall x, y :: x in all && y in all && x != y ==> p[x] != p[y]
    ensures exists k :: k in all && p[k] == c
  {
    if forall k :: k in all ==> p[k] != c {
      assert all == (all - {c}) + {c};
      InjectionCard(all, all - {c}, p);
    }
  }

  /** Every value is taken by a permutation. */
  lemma Onto(p: seq<nat>, n: nat, c: nat)
    requires IsPerm(p, n) && c < n
    ensures exists k: nat :: k < n && p[k] == c
  {
    hide UpTo;
    Surjective(UpTo(n), p, c);
  }

  lemma TruesLast(s: seq<bool>, b: bool)
    requires s != []
    ensures |Trues(s, b)| == |Trues(s[..|s| - 1], b)| + if s[|s| - 1] == b then 1 else 0
  {
    var m := |s| - 1;
    var r := s[..m];
    assert forall k :: 0 <= k < m ==> r[k] == s[k];
    assert Trues(s, b) == if s[m] == b then Trues(r, b) + {m} else Trues(r, b);
  }

  lemma {:induction false} TruesSplit(s: seq<bool>)
    ensures |Trues(s, true)| + |Trues(s, false)| == |s|
  {
    if s != [] {
      TruesLast(s, true);
      TruesLast(s, false);
      TruesSplit(s[..|s| - 1]);
    }
  }

  /** A rearrangement of positions keeps the number of ones. */
  lemma RearrangedCount(s: seq<bool>, t: seq<bool>, f: seq<nat>)
    requires |s| == |t| == |f|
    requires forall k :: 0 <= k < |f| ==> f[k] < |s| && t[k] == s[f[k]]
    requires forall k, l :: 0 <= k < l < |f| ==> f[k] != f[l]
    ensures |Trues(s, true)| == |Trues(t, true)|
  {
    InjectionCard(Trues(t, true), Trues(s, true), f);
    InjectionCard(Trues(t, false), Trues(s, false), f);
    TruesSplit(s);
    TruesSplit(t);
  }

  /** Where the pair at position k goes under p. */
  ghost function Moved(ps: seq<(nat, nat)>, n: nat, p: seq<nat>, k: nat): (l: nat)
    requires Pairing(ps, 0, n) && IsPerm(p, n) && k < |ps|
    ensures l < |ps| && SamePair(ps[l], p[ps[k].0], p[ps[k].1])
  {
    assert Covered(ps, p[ps[k].0], p[ps[k].1]);
    var l: nat :| l < |ps| && SamePair(ps[l], p[ps[k].0], p[ps[k].1]);
    l
  }

  lemma PermutedCount(g: Graph, n: nat, ps: seq<(nat, nat)>, p: seq<nat>)
    requires Pairing(ps, 0, n) && IsPerm(p, n) && Symmetric(g, n)
    ensures |Trues(Str(g, ps), true)| == |Trues(Str(Permute(g, p), ps), true)|
  {
    var f := seq(|ps|, (k: nat) requires k < |ps| => Moved(ps, n, p, k));
    forall k, l | 0 <= k < l < |f| ensures f[k] != f[l] {
      if f[k] == f[l] { assert SamePair(ps[k], ps[l].0, ps[l].1); }
    }
    var s, t := Str(g, ps), Str(Permute(g, p), ps);
    forall k | 0 <= k < |f| ensures f[k] < |s| && t[k] == s[f[k]] {
      var i, j := p[ps[k].0], p[ps[k].1];
      assert SamePair(ps[f[k]], i, j);
      assert At(p, ps[k].0) == i && At(p, ps[k].1) == j;
      assert t[k] == Permute(g, p)(ps[k].0, ps[k].1);
      assert s[f[k]] == g(ps[f[k]].0, ps[f[k]].1);
    }
    RearrangedCount(s, t, f);
  }

  /** Two copies of one graph never first differ at the last position, so implications of full length say nothing. */
  lemma LastNeverDecides(g: Graph, n: nat, ix: Indexing, p: seq<nat>)
    requires IsPerm(p, n) && Symmetric(g, n)
    ensures SatImp(g, Pairs(n, ix), LexImplication(p, |Pairs(n, ix)|))
  {
    var ps := Pairs(n, ix);
    PairsPairing(n, ix);
    PermutedCount(g, n, ps, p);
    var s, t := Str(g, ps), Str(Permute(g, p), ps);
    if |ps| > 0 {
      TruesLast(s, true);
      TruesLast(t, true);
    }
  }

  lemma LeastShort(g: Graph, n: nat, ix: Indexing)
    requires Symmetric(g, n)
    ensures Least(g, n, ix) <==> LeastUpTo(g, n, ix, |Pairs(n, ix)| - 1)
  {
    LeastIsLeastUpTo(g, n, ix);
    var ps := Pairs(n, ix);
    if LeastUpTo(g, n, ix, |ps| - 1) {
      forall p, l: nat | IsPerm(p, n) && 1 <= l <= |ps| ensures SatImp(g, ps, LexImplication(p, l)) {
        if l == |ps| { LastNeverDecides(g, n, ix, p); }
      }
    }
  }

  // ---------------------------------------------------------------- corner subgraphs

  lemma {:induction false} ColPairsPrefix(m: nat, n: nat)
    requires m <= n
    ensures ColPairs(m) <= ColPairs(n)
    decreases n
  {
    if m < n { ColPairsPrefix(m, n - 1); }
  }

  lemma StrPrefix(g: Graph, qs: seq<(nat, nat)>, ps: seq<(nat, nat)>, l: nat)
    requires qs <= ps && l <= |qs|
    ensures Str(g, qs)[..l] == Str(g, ps)[..l]
  {}

  /** An implication about a prefix of the string. */
  lemma SatImpPrefix(g: Graph, qs: seq<(nat, nat)>, ps: seq<(nat, nat)>, p: seq<nat>, q: seq<nat>, l: nat)
    requires qs <= ps && 1 <= l <= |qs| && Str(Permute(g, p), ps) == Str(Permute(g, q), ps)
    requires SatImp(g, ps, LexImplication(q, l))
    ensures SatImp(g, qs, LexImplication(p, l))
  {
    var s, t := Str(g, ps), Str(Permute(g, p), ps);
    var s', t' := Str(g, qs), Str(Permute(g, p), qs);
    StrPrefix(g, qs, ps, l);
    StrPrefix(Permute(g, p), qs, ps, l);
    assert s'[..l-1] == s'[..l][..l-1] && t'[..l-1] == t'[..l][..l-1];
    assert s[..l-1] == s[..l][..l-1] && t[..l-1] == t[..l][..l-1];
    assert s'[l-1] == s'[..l][l-1] && t'[l-1] == t'[..l][l-1] && s[l-1] == s[..l][l-1] && t[l-1] == t[..l][l-1];
  }

  /** Column by column, the subgraph on the first m vertices of a least graph is itself least. */
  lemma CornerLeast(g: Graph, m: nat, n: nat)
    requires m <= n && Least(g, n, UpperTriangleCols)
    ensures Least(g, m, UpperTriangleCols)
  {
    hide Least, SatImp, Extended;
    LeastIsLeastUpTo(g, n, UpperTriangleCols);
    LeastIsLeastUpTo(g, m, UpperTriangleCols);
    ColPairsPrefix(m, n);
    ColPairing(n);
    var ps, qs := ColPairs(n), ColPairs(m);
    forall p, l: nat | IsPerm(p, m) && 1 <= l <= |qs| ensures SatImp(g, qs, LexImplication(p, l)) {
      ExtendedPerm(p, m, n, g, ps);
      SatImpPrefix(g, qs, ps, p, Extended(p, n), l);
    }
  }
}
