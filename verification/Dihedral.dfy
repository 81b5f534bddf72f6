/** The symmetries of the base cycle, and the symmetry breaking that uses them. */
module Dihedral {
  import opened Graphs
  import opened Orbits
  import opened Hamilton

  /** Maps neighbours on the base cycle to neighbours, and nothing else. */
  ghost predicate Automorphism(p: seq<nat>, n: nat) {
    IsPerm(p, n) && forall i: nat, j: nat :: i < n && j < n ==> (Base(i, j, n) <==> Base(p[i], p[j], n))
  }

  function Turn(i: nat, j: nat, n: nat): int { if i + j < n then i + j else i + j - n }

  function Flip(i: nat, j: nat, n: nat): int { if i >= j then i - j else i - j + n }

  predicate IsTurn(p: seq<nat>, n: nat, i: nat) {
    |p| == n && i < n && forall j :: 0 <= j < n ==> p[j] == Turn(i, j, n)
  }

  predicate IsFlip(p: seq<nat>, n: nat, i: nat) {
    |p| == n && i < n && forall j :: 0 <= j < n ==> p[j] == Flip(i, j, n)
  }

  lemma TurnMod(i: nat, j: nat, n: nat)
    requires i < n && j < n
    ensures Mod(i + j, n) == Turn(i, j, n) && Mod(i - j, n) == Flip(i, j, n)
  {
    if i + j < n { ModSmall(i + j, n); } else {
      ModIs(i + j, n);
      ModUnique(i + j, n, 1, i + j - n);
    }
    if i >= j { ModSmall(i - j, n); } else { ModBelow(i - j, n); }
  }

  /** The 2n rotations and reflections. */
  method DihedralGroupPermutations(n: nat) returns (perms: seq<seq<nat>>)
    ensures |perms| == 2 * n
    ensures forall i: nat :: i < n ==> IsTurn(perms[2 * i], n, i) && IsFlip(perms[2 * i + 1], n, i)
  {
    perms := [];
    for i := 0 to n
      invariant |perms| == 2 * i
      invariant forall k: nat :: k < i ==> IsTurn(perms[2 * k], n, k) && IsFlip(perms[2 * k + 1], n, k)
    {
      var p1, p2 := RotationAndReflection(n, i);
      perms := perms + [p1, p2];
    }
  }

  method RotationAndReflection(n: nat, i: nat) returns (p1: seq<nat>, p2: seq<nat>)
    requires i < n
    ensures IsTurn(p1, n, i) && IsFlip(p2, n, i)
  {
    hide Mod;
    p1, p2 := [i], [i];
    for j := 1 to n
      invariant |p1| == |p2| == j
      invariant forall k :: 0 <= k < j ==> p1[k] == Turn(i, k, n) && p2[k] == Flip(i, k, n)
    {
      TurnMod(i, j, n);
      p1 := p1 + [Mod(i + j, n)];
      p2 := p2 + [Mod(i - j, n)];
    }
  }

  /** The group as a set. */
  ghost predicate InGroup(p: seq<nat>, n: nat) { exists i: nat :: i < n && (IsTurn(p, n, i) || IsFlip(p, n, i)) }

  lemma TurnAutomorphism(p: seq<nat>, n: nat, i: nat)
    requires n >= 3 && IsTurn(p, n, i)
    ensures Automorphism(p, n)
  {}

  lemma FlipAutomorphism(p: seq<nat>, n: nat, i: nat)
    requires n >= 3 && IsFlip(p, n, i)
    ensures Automorphism(p, n)
  {}

  lemma {:induction false} TurnDetermined(p: seq<nat>, n: nat, j: nat)
    requires n >= 3 && Automorphism(p, n) && p[1] == Turn(p[0], 1, n) && j < n
    ensures p[j] == Turn(p[0], j, n)
  {
    if j >= 2 {
      TurnDetermined(p, n, j - 1);
      TurnDetermined(p, n, j - 2);
      assert Base(j - 1, j, n);
      assert Base(p[j - 1], p[j], n);
    }
  }

  lemma {:induction false} FlipDetermined(p: seq<nat>, n: nat, j: nat)
    requires n >= 3 && Automorphism(p, n) && p[1] == Flip(p[0], 1, n) && j < n
    ensures p[j] == Flip(p[0], j, n)
  {
    if j >= 2 {
      FlipDetermined(p, n, j - 1);
      FlipDetermined(p, n, j - 2);
      assert Base(j - 1, j, n);
      assert Base(p[j - 1], p[j], n);
    }
  }

  /** For n >= 3 the rotations and reflections are exactly the automorphisms of the base cycle. */
  lemma GroupIsAutomorphisms(p: seq<nat>, n: nat)
    requires n >= 3
    ensures InGroup(p, n) <==> Automorphism(p, n)
  {
    if i: nat :| i < n && (IsTurn(p, n, i) || IsFlip(p, n, i)) {
      if IsTurn(p, n, i) { TurnAutomorphism(p, n, i); } else { FlipAutomorphism(p, n, i); }
    }
    if Automorphism(p, n) {
      assert Base(0, 1, n);
      assert Base(p[0], p[1], n);
      if p[1] == Turn(p[0], 1, n) {
        forall j | 0 <= j < n ensures p[j] == Turn(p[0], j, n) { TurnDetermined(p, n, j); }
        assert IsTurn(p, n, p[0]);
      } else {
        forall j | 0 <= j < n ensures p[j] == Flip(p[0], j, n) { FlipDetermined(p, n, j); }
        assert IsFlip(p, n, p[0]);
      }
    }
  }

  /** For n >= 3 the list holds every automorphism of the base cycle, each once. */
  lemma ListedOnce(perms: seq<seq<nat>>, n: nat)
    requires n >= 3 && |perms| == 2 * n
    requires forall i: nat :: i < n ==> IsTurn(perms[2 * i], n, i) && IsFlip(perms[2 * i + 1], n, i)
    ensures forall p :: p in perms <==> Automorphism(p, n)
    ensures forall a, b :: 0 <= a < b < 2 * n ==> perms[a] != perms[b]
  {
    forall p ensures p in perms <==> Automorphism(p, n) {
      GroupIsAutomorphisms(p, n);
      if p in perms {
        var k :| 0 <= k < |perms| && perms[k] == p;
        var i: nat := k / 2;
        assert k == 2 * i || k == 2 * i + 1;
        assert IsTurn(perms[2 * i], n, i) && IsFlip(perms[2 * i + 1], n, i);
      }
      if InGroup(p, n) {
        var i: nat :| i < n && (IsTurn(p, n, i) || IsFlip(p, n, i));
        assert IsTurn(perms[2 * i], n, i) && IsFlip(perms[2 * i + 1], n, i);
        assert p == perms[2 * i] || p == perms[2 * i + 1];
      }
    }
    forall a, b | 0 <= a < b < 2 * n ensures perms[a] != perms[b] {
      var i: nat, j: nat := a / 2, b / 2;
      assert IsTurn(perms[2 * i], n, i) && IsFlip(perms[2 * i + 1], n, i);
      assert IsTurn(perms[2 * j], n, j) && IsFlip(perms[2 * j + 1], n, j);
      assert perms[a][0] == i && perms[b][0] == j;
      assert a == 2 * i || a == 2 * i + 1;
      assert b == 2 * j || b == 2 * j + 1;
      assert perms[2 * i][1] == Turn(i, 1, n) && perms[2 * i + 1][1] == Flip(i, 1, n);
    }
  }

  // ---------------------------------------------------------------- symmetry breaking

  ghost predicate CycleOf(g: Graph, n: nat, c: seq<nat>) {
    IsPerm(c, n) && forall k :: 0 <= k < n ==> g(c[k], c[Next(k, n)])
  }

  /** The base cycle is the only Hamiltonian cycle. */
  ghost predicate UniquelyHamiltonian(g: Graph, n: nat) {
    && Symmetric(g, n) && (forall i: nat :: i < n ==> g(i, Next(i, n)))
    && forall c :: CycleOf(g, n, c) ==> !UsesChord(c, n)
  }

  /** A permutation that maps base edges to base edges is a symmetry of the base cycle. */
  lemma BasePreserved(q: seq<nat>, n: nat)
    requires n >= 3 && IsPerm(q, n) && forall i: nat :: i < n ==> Base(q[i], q[Next(i, n)], n)
    ensures Automorphism(q, n)
  {
    forall i: nat, j: nat | i < n && j < n ensures Base(i, j, n) <==> Base(q[i], q[j], n) {
      var k := if i == 0 then n - 1 else i - 1;
      assert Base(q[k], q[Next(k, n)], n) && Base(q[i], q[Next(i, n)], n) && Next(k, n) == i;
      assert Base(q[j], q[Next(j, n)], n);
      assert k != Next(i, n);
      assert q[k] != q[Next(i, n)];
    }
  }

  lemma CycleMapped(g: Graph, h: Graph, q: seq<nat>, n: nat)
    requires n >= 3 && IsPerm(q, n) && forall i: nat :: i < n ==> h(i, Next(i, n))
    requires forall i: nat, j: nat :: i < n && j < n ==> h(i, j) == g(q[i], q[j])
    ensures CycleOf(g, n, q)
  {}

  /** Two such graphs are isomorphic only by symmetries of the base cycle. */
  lemma IsomorphismIsAutomorphism(g: Graph, h: Graph, q: seq<nat>, n: nat)
    requires n >= 3 && UniquelyHamiltonian(g, n) && UniquelyHamiltonian(h, n) && IsPerm(q, n)
    requires forall i: nat, j: nat :: i < n && j < n ==> h(i, j) == g(q[i], q[j])
    ensures Automorphism(q, n)
  {
    hide Symmetric, CycleOf, Base, Automorphism, UsesChord;
    CycleMapped(g, h, q, n);
    forall i: nat | i < n ensures Base(q[i], q[Next(i, n)], n) {
      if !Base(q[i], q[Next(i, n)], n) { UseChord(q, n, i); }
    }
    BasePreserved(q, n);
  }

  /** The pairs of edge variables compared for one permutation, in the order of the loops. */
  method LexVectors(p: seq<nat>, n: nat) returns (vec1: seq<(nat, nat)>, vec2: seq<(nat, nat)>)
    requires |p| == n
    ensures Compares((vec1, vec2), p, n) && |vec1| == |vec2| == n * (n - 1) / 2
    ensures forall i: nat, j: nat :: i < j < n ==>
      0 <= RowAt(i, j, n) < |vec1| && vec1[RowAt(i, j, n)] == (i, j) && vec2[RowAt(i, j, n)] == (p[i], p[j])
  {
    hide Renamed, RowRest, RowAt;
    vec1, vec2 := [], [];
    ghost var all := Pairs(n, UpperTriangleRows);
    RenamedNone(p);
    for i := 0 to n
      invariant all == vec1 + RowPairs(i, n) && vec2 == Renamed(p, vec1)
    {
      var row1, row2 := RowVectors(p, n, i);
      assert all == (vec1 + row1) + RowPairs(i + 1, n);
      RenamedJoin(p, vec1, row1);
      vec1, vec2 := vec1 + row1, vec2 + row2;
    }
    assert all == vec1;
    VectorPositions(vec1, vec2, p, n);
  }

  lemma VectorPositions(vec1: seq<(nat, nat)>, vec2: seq<(nat, nat)>, p: seq<nat>, n: nat)
    requires |p| == n && Compares((vec1, vec2), p, n)
    ensures |vec1| == |vec2| == n * (n - 1) / 2
    ensures forall i: nat, j: nat :: i < j < n ==>
      0 <= RowAt(i, j, n) < |vec1| && vec1[RowAt(i, j, n)] == (i, j) && vec2[RowAt(i, j, n)] == (p[i], p[j])
  {
    hide Renamed, RowAt, Pairs;
    PairsLength(n, UpperTriangleRows);
    forall k | 0 <= k < |vec1| && vec1[k].0 < |p| && vec1[k].1 < |p|
      ensures |vec2| == |vec1| && vec2[k] == (p[vec1[k].0], p[vec1[k].1])
    {
      RenamedEntry(p, vec1, k);
    }
    RenamedLength(p, vec1);
    forall i: nat, j: nat | i < j < n
      ensures 0 <= RowAt(i, j, n) < |vec1| && vec1[RowAt(i, j, n)] == (i, j)
    {
      Position(n, i, j);
    }
  }

  lemma RenamedLength(p: seq<nat>, es: seq<(nat, nat)>)
    ensures |Renamed(p, es)| == |es|
  {}

  lemma RenamedEntry(p: seq<nat>, es: seq<(nat, nat)>, k: nat)
    requires k < |es| && es[k].0 < |p| && es[k].1 < |p|
    ensures |Renamed(p, es)| == |es| && Renamed(p, es)[k] == (p[es[k].0], p[es[k].1])
  {}

  lemma RenamedNone(p: seq<nat>)
    ensures Renamed(p, []) == []
  {}

  lemma RenamedJoin(p: seq<nat>, es: seq<(nat, nat)>, fs: seq<(nat, nat)>)
    ensures Renamed(p, es + fs) == Renamed(p, es) + Renamed(p, fs)
  {}

  method RowVectors(p: seq<nat>, n: nat, i: nat) returns (row1: seq<(nat, nat)>, row2: seq<(nat, nat)>)
    requires |p| == n && i < n
    ensures row1 == RowRest(i, i + 1, n) && row2 == Renamed(p, row1)
    ensures |row1| == |row2| == n - i - 1
    ensures forall k :: 0 <= k < n - i - 1 ==> row1[k] == (i, i + 1 + k) && row2[k] == (p[i], p[i + 1 + k])
  {
    row1, row2 := [], [];
    for j := i + 1 to n
      invariant |row1| == j - i - 1 && (forall k :: 0 <= k < |row1| ==> row1[k] == (i, i + 1 + k))
      invariant row2 == Renamed(p, row1)
    {
      row1 := row1 + [(i, j)];
      row2 := row2 + [(p[i], p[j])];
    }
  }

  function Renamed(p: seq<nat>, es: seq<(nat, nat)>): seq<(nat, nat)> {
    seq(|es|, (k: nat) requires k < |es| => (At(p, es[k].0), At(p, es[k].1)))
  }

  /** The value of a vector of edges in a graph. */
  function Vector(g: Graph, es: seq<(nat, nat)>): (s: seq<bool>)
    ensures |s| == |es|
  {
    seq(|es|, (k: nat) requires k < |es| => g(es[k].0, es[k].1))
  }

  /** One lexLessEq constraint per permutation. */
  method SymmetryBreaking(n: nat) returns (posted: seq<(seq<(nat, nat)>, seq<(nat, nat)>)>)
    requires n >= 3
    ensures forall g: Graph :: Posted(g, posted) <==> LeastUnderGroup(g, n)
  {
    hide Pairs, LexLe;
    var perms := DihedralGroupPermutations(n);
    ListedOnce(perms, n);
    posted := [];
    for k := 0 to |perms|
      invariant |posted| == k
      invariant forall j :: 0 <= j < k ==> Compares(posted[j], perms[j], n)
    {
      assert perms[k] in perms && Automorphism(perms[k], n);
      var vec1, vec2 := LexVectors(perms[k], n);
      posted := posted + [(vec1, vec2)];
    }
    forall g: Graph ensures Posted(g, posted) <==> LeastUnderGroup(g, n) { PostedMeaning(g, posted, perms, n); }
  }

  ghost predicate Compares(c: (seq<(nat, nat)>, seq<(nat, nat)>), p: seq<nat>, n: nat) {
    c.0 == Pairs(n, UpperTriangleRows) && c.1 == Renamed(p, c.0)
  }

  ghost predicate Posted(g: Graph, posted: seq<(seq<(nat, nat)>, seq<(nat, nat)>)>) {
    forall k :: 0 <= k < |posted| ==> LexLe(Vector(g, posted[k].0), Vector(g, posted[k].1))
  }

  ghost predicate LeastUnderGroup(g: Graph, n: nat) {
    forall p :: Automorphism(p, n) ==>
      LexLe(Str(g, Pairs(n, UpperTriangleRows)), Str(Permute(g, p), Pairs(n, UpperTriangleRows)))
  }

  lemma ComparesMeaning(g: Graph, c: (seq<(nat, nat)>, seq<(nat, nat)>), p: seq<nat>, n: nat)
    requires Compares(c, p, n)
    ensures Vector(g, c.0) == Str(g, Pairs(n, UpperTriangleRows))
    ensures Vector(g, c.1) == Str(Permute(g, p), Pairs(n, UpperTriangleRows))
  {}

  lemma PostedMeaning(g: Graph, posted: seq<(seq<(nat, nat)>, seq<(nat, nat)>)>, perms: seq<seq<nat>>, n: nat)
    requires |posted| == |perms| && (forall p :: p in perms <==> Automorphism(p, n))
    requires forall k :: 0 <= k < |perms| ==> Compares(posted[k], perms[k], n)
    ensures Posted(g, posted) <==> LeastUnderGroup(g, n)
  {
    hide LexLe, Automorphism, Compares, Str, Vector, Pairs;
    forall k | 0 <= k < |perms|
      ensures Vector(g, posted[k].0) == Str(g, Pairs(n, UpperTriangleRows))
      ensures Vector(g, posted[k].1) == Str(Permute(g, perms[k]), Pairs(n, UpperTriangleRows))
    {
      ComparesMeaning(g, posted[k], perms[k], n);
    }
    if Posted(g, posted) {
      forall p | Automorphism(p, n)
        ensures LexLe(Str(g, Pairs(n, UpperTriangleRows)), Str(Permute(g, p), Pairs(n, UpperTriangleRows)))
      {
        var k :| 0 <= k < |perms| && perms[k] == p;
        assert LexLe(Vector(g, posted[k].0), Vector(g, posted[k].1));
      }
    }
    if LeastUnderGroup(g, n) {
      forall k | 0 <= k < |perms| ensures LexLe(Vector(g, posted[k].0), Vector(g, posted[k].1)) {
        assert perms[k] in perms;
      }
    }
  }

  // ---------------------------------------------------------------- exactly one graph per class

  lemma GroupCompose(p: seq<nat>, q: seq<nat>, n: nat)
    requires Automorphism(p, n) && Automorphism(q, n)
    ensures Automorphism(Compose(p, q), n)
  {
    var r := Compose(p, q);
    ComposePerm(p, q, n);
    forall i: nat, j: nat | i < n && j < n ensures Base(i, j, n) <==> Base(r[i], r[j], n) {
      assert r[i] == p[q[i]] && r[j] == p[q[j]];
      assert Base(i, j, n) <==> Base(q[i], q[j], n);
    }
  }

  lemma GroupInverse(p: seq<nat>, n: nat)
    requires Automorphism(p, n)
    ensures Automorphism(Inverse(p, n), n)
  {
    InversePerm(p, n);
    var r := Inverse(p, n);
    forall i: nat, j: nat | i < n && j < n ensures Base(i, j, n) <==> Base(r[i], r[j], n) {
      assert Base(r[i], r[j], n) <==> Base(p[r[i]], p[r[j]], n);
    }
  }

  lemma RenamedAt(g: Graph, p: seq<nat>, n: nat, i: nat, j: nat)
    requires IsPerm(p, n) && i < n && j < n
    ensures Permute(g, p)(i, j) == g(p[i], p[j])
  {
    assert At(p, i) == p[i] && At(p, j) == p[j];
  }

  lemma RenamedBase(g: Graph, p: seq<nat>, n: nat, i: nat)
    requires UniquelyHamiltonian(g, n) && Automorphism(p, n) && i < n
    ensures Permute(g, p)(i, Next(i, n))
  {
    hide CycleOf, UsesChord, Permute;
    var j := Next(i, n);
    RenamedAt(g, p, n, i, j);
    assert Base(i, j, n) <==> Base(p[i], p[j], n);
    assert Base(i, j, n) && p[i] < n && p[j] < n;
    assert g(p[i], Next(p[i], n)) && g(p[j], Next(p[j], n));
    assert g(p[i], p[j]) == g(p[j], p[i]);
  }

  lemma RenamedCycle(g: Graph, p: seq<nat>, n: nat, c: seq<nat>)
    requires UniquelyHamiltonian(g, n) && Automorphism(p, n) && CycleOf(Permute(g, p), n, c)
    ensures !UsesChord(c, n)
  {
    hide Symmetric, Base, Permute;
    var d := Compose(p, c);
    ComposePerm(p, c, n);
    forall k | 0 <= k < n ensures d[k] == p[c[k]] && g(d[k], d[Next(k, n)]) { RenamedAt(g, p, n, c[k], c[Next(k, n)]); }
    assert CycleOf(g, n, d);
    forall k: nat | k < n ensures Base(c[k], c[Next(k, n)], n) {
      if !Base(d[k], d[Next(k, n)], n) { UseChord(d, n, k); }
      assert Base(c[k], c[Next(k, n)], n) <==> Base(p[c[k]], p[c[Next(k, n)]], n);
    }
  }

  lemma RenamedUnique(g: Graph, p: seq<nat>, n: nat)
    requires UniquelyHamiltonian(g, n) && Automorphism(p, n)
    ensures UniquelyHamiltonian(Permute(g, p), n)
  {
    hide CycleOf, UsesChord, Permute, Base;
    forall i: nat, j: nat | i < n && j < n ensures Permute(g, p)(i, j) == Permute(g, p)(j, i) {
      RenamedAt(g, p, n, i, j);
      RenamedAt(g, p, n, j, i);
    }
    forall i: nat | i < n ensures Permute(g, p)(i, Next(i, n)) { RenamedBase(g, p, n, i); }
    forall c | CycleOf(Permute(g, p), n, c) ensures !UsesChord(c, n) { RenamedCycle(g, p, n, c); }
  }

  ghost predicate Isomorphic(g: Graph, h: Graph, q: seq<nat>, n: nat) {
    IsPerm(q, n) && forall i: nat, j: nat :: i < n && j < n ==> h(i, j) == g(q[i], q[j])
  }

  /** Among the uniquely Hamiltonian graphs on the base cycle, the least one of each isomorphism class is kept. */
  lemma KeptExists(g: Graph, n: nat)
    requires n >= 3 && UniquelyHamiltonian(g, n)
    ensures exists p :: Automorphism(p, n) && UniquelyHamiltonian(Permute(g, p), n) && LeastUnderGroup(Permute(g, p), n)
  {
    hide UniquelyHamiltonian, Permute, LexLe, Automorphism, Str, Pairs;
    var ps := Pairs(n, UpperTriangleRows);
    PairsBelow(n);
    var p := LeastExists(g, ps, Group(n));
    RenamedUnique(g, p, n);
    forall q | Automorphism(q, n) ensures LexLe(Str(Permute(g, p), ps), Str(Permute(Permute(g, p), q), ps)) {
      AutomorphismPerm(p, n);
      AutomorphismPerm(q, n);
      GroupCompose(p, q, n);
      ComposeStr(g, p, q, n, ps);
      assert Compose(p, q) in Group(n);
    }
  }

  lemma AutomorphismPerm(p: seq<nat>, n: nat)
    requires Automorphism(p, n)
    ensures IsPerm(p, n)
  {}

  lemma PairsBelow(n: nat)
    ensures Within2(Pairs(n, UpperTriangleRows), n)
  {
    PairsPairing(n, UpperTriangleRows);
  }

  ghost function Group(n: nat): (s: set<seq<nat>>)
    requires n >= 3
    ensures s != {} && forall p :: p in s <==> Automorphism(p, n)
  {
    assert Automorphism(Identity(n), n);
    var s := set p | p in Perms(n) && Automorphism(p, n);
    assert Identity(n) in s;
    s
  }

  /** Two isomorphic graphs that are both kept have the same edges. */
  lemma KeptUnique(g: Graph, h: Graph, q: seq<nat>, n: nat)
    requires n >= 3 && UniquelyHamiltonian(g, n) && UniquelyHamiltonian(h, n) && Isomorphic(g, h, q, n)
    requires LeastUnderGroup(g, n) && LeastUnderGroup(h, n)
    ensures forall i: nat, j: nat :: i < n && j < n && i != j ==> g(i, j) == h(i, j)
  {
    hide LexLe, Permute, Automorphism, Pairs;
    var ps := Pairs(n, UpperTriangleRows);
    PairsBelow(n);
    IsomorphismIsAutomorphism(g, h, q, n);
    GroupInverse(q, n);
    SameStr(g, h, q, n, ps);
    InverseStr(g, h, q, n, ps);
    LexAntisymmetric(Str(g, ps), Str(h, ps));
    PairsPairing(n, UpperTriangleRows);
    forall i: nat, j: nat | i < n && j < n && i != j ensures g(i, j) == h(i, j) {
      assert Covered(ps, i, j);
      var k :| 0 <= k < |ps| && SamePair(ps[k], i, j);
      assert Str(g, ps)[k] == Str(h, ps)[k];
    }
  }
}
