/** Renamings of a graph as a group acting on its strings, and least strings within an orbit. */
module Orbits {
  import opened Graphs

  // ---------------------------------------------------------------- the order of strings is total

  lemma {:induction false} LexTotal(s: seq<bool>, t: seq<bool>)
    ensures LexLe(s, t) || LexLe(t, s)
  {
    if s != [] && t != [] && s[0] == t[0] { LexTotal(s[1..], t[1..]); }
  }

  lemma {:induction false} LexTrans(s: seq<bool>, t: seq<bool>, u: seq<bool>)
    requires |s| == |t| == |u| && LexLe(s, t) && LexLe(t, u)
    ensures LexLe(s, u)
  {
    if s != [] && s[0] == t[0] == u[0] { LexTrans(s[1..], t[1..], u[1..]); }
  }

  lemma {:induction false} LexAntisymmetric(s: seq<bool>, t: seq<bool>)
    requires |s| == |t| && LexLe(s, t) && LexLe(t, s)
    ensures s == t
  {
    if s != [] {
      LexAntisymmetric(s[1..], t[1..]);
      assert s == [s[0]] + s[1..] && t == [t[0]] + t[1..];
    }
  }

  // ---------------------------------------------------------------- composition and inverse

  /** Renaming by p, then by q. */
  function Compose(p: seq<nat>, q: seq<nat>): (r: seq<nat>)
    ensures |r| == |q| && forall i :: 0 <= i < |q| ==> r[i] == At(p, q[i])
  {
    seq(|q|, (i: nat) requires i < |q| => At(p, q[i]))
  }

  lemma ComposePerm(p: seq<nat>, q: seq<nat>, n: nat)
    requires IsPerm(p, n) && IsPerm(q, n)
    ensures IsPerm(Compose(p, q), n)
  {}

  ghost predicate Within2(ps: seq<(nat, nat)>, n: nat) {
    forall k :: 0 <= k < |ps| ==> ps[k].0 < n && ps[k].1 < n
  }

  lemma ComposeStr(g: Graph, p: seq<nat>, q: seq<nat>, n: nat, ps: seq<(nat, nat)>)
    requires IsPerm(p, n) && IsPerm(q, n) && Within2(ps, n)
    ensures Str(Permute(Permute(g, p), q), ps) == Str(Permute(g, Compose(p, q)), ps)
  {
    var s, t := Str(Permute(Permute(g, p), q), ps), Str(Permute(g, Compose(p, q)), ps);
    forall k | 0 <= k < |ps| ensures s[k] == t[k] {
      var i, j := ps[k].0, ps[k].1;
      assert At(q, i) == q[i] && At(q, j) == q[j];
      assert At(Compose(p, q), i) == At(p, q[i]) && At(Compose(p, q), j) == At(p, q[j]);
    }
  }

  /** Where p takes the value v. */
  ghost function Index(p: seq<nat>, n: nat, v: nat): (k: nat)
    requires IsPerm(p, n) && v < n
    ensures k < n && p[k] == v
  {
    Onto(p, n, v);
    var k: nat :| k < n && p[k] == v;
    k
  }

  ghost function Inverse(p: seq<nat>, n: nat): (r: seq<nat>)
    requires IsPerm(p, n)
    ensures |r| == n && forall v :: 0 <= v < n ==> r[v] < n && p[r[v]] == v
  {
    seq(n, (v: nat) requires v < n => Index(p, n, v))
  }

  lemma InversePerm(p: seq<nat>, n: nat)
    requires IsPerm(p, n)
    ensures IsPerm(Inverse(p, n), n) && forall k :: 0 <= k < n ==> Inverse(p, n)[p[k]] == k
  {}

  /** If h is g renamed by p, then g is h renamed by the inverse. */
  lemma InverseStr(g: Graph, h: Graph, p: seq<nat>, n: nat, ps: seq<(nat, nat)>)
    requires IsPerm(p, n) && Within2(ps, n) && forall i: nat, j: nat :: i < n && j < n ==> h(i, j) == g(p[i], p[j])
    ensures Str(Permute(h, Inverse(p, n)), ps) == Str(g, ps)
  {
    var r := Inverse(p, n);
    var s, t := Str(Permute(h, r), ps), Str(g, ps);
    forall k | 0 <= k < |ps| ensures s[k] == t[k] {
      var i, j := ps[k].0, ps[k].1;
      assert At(r, i) == r[i] && At(r, j) == r[j];
      assert h(r[i], r[j]) == g(p[r[i]], p[r[j]]);
    }
  }

  lemma SameStr(g: Graph, h: Graph, p: seq<nat>, n: nat, ps: seq<(nat, nat)>)
    requires IsPerm(p, n) && Within2(ps, n) && forall i: nat, j: nat :: i < n && j < n ==> h(i, j) == g(p[i], p[j])
    ensures Str(Permute(g, p), ps) == Str(h, ps)
  {
    var s, t := Str(Permute(g, p), ps), Str(h, ps);
    forall k | 0 <= k < |ps| ensures s[k] == t[k] {
      var i, j := ps[k].0, ps[k].1;
      assert At(p, i) == p[i] && At(p, j) == p[j];
      assert h(i, j) == g(p[i], p[j]);
    }
  }

  // ---------------------------------------------------------------- least elements

  ghost predicate LeastIn(g: Graph, ps: seq<(nat, nat)>, all: set<seq<nat>>, p: seq<nat>) {
    p in all && forall q :: q in all ==> LexLe(Str(Permute(g, p), ps), Str(Permute(g, q), ps))
  }

  /** Every finite set of renamings has one with a least string. */
  lemma {:induction false} LeastExists(g: Graph, ps: seq<(nat, nat)>, all: set<seq<nat>>) returns (p: seq<nat>)
    requires all != {}
    ensures LeastIn(g, ps, all, p)
  {
    var q :| q in all;
    var rest := all - {q};
    LexTotal(Str(Permute(g, q), ps), Str(Permute(g, q), ps));
    if rest == {} {
      p := q;
      assert all == {q};
    } else {
      var r := LeastExists(g, ps, rest);
      LexTotal(Str(Permute(g, q), ps), Str(Permute(g, r), ps));
      if LexLe(Str(Permute(g, r), ps), Str(Permute(g, q), ps)) {
        p := r;
      } else {
        p := q;
        forall x | x in all ensures LexLe(Str(Permute(g, q), ps), Str(Permute(g, x), ps)) {
          if x in rest { LexTrans(Str(Permute(g, q), ps), Str(Permute(g, r), ps), Str(Permute(g, x), ps)); }
        }
      }
    }
  }

  // ---------------------------------------------------------------- all permutations

  /** All words of length k over 0..n-1. */
  ghost function Words(k: nat, n: nat): set<seq<nat>> {
    if k == 0 then {[]} else set w, c | w in Words(k - 1, n) && c in UpTo(n) :: w + [c]
  }

  lemma {:induction false} WordIn(p: seq<nat>, n: nat)
    requires forall i :: 0 <= i < |p| ==> p[i] < n
    ensures p in Words(|p|, n)
  {
    if p != [] {
      var w := p[..|p| - 1];
      WordIn(w, n);
      assert p == w + [p[|p| - 1]];
    }
  }

  lemma PermWords(n: nat)
    ensures forall p :: IsPerm(p, n) ==> p in Words(n, n)
  {
    forall p | IsPerm(p, n) ensures p in Words(n, n) { WordIn(p, n); }
  }

  ghost function Perms(n: nat): (s: set<seq<nat>>)
    ensures forall p :: p in s <==> IsPerm(p, n)
  {
    PermWords(n);
    set p | p in Words(n, n) && IsPerm(p, n)
  }

  function Identity(n: nat): seq<nat> { seq(n, (i: nat) => i) }
}
