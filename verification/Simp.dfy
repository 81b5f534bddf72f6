/** The preprocessor: clause merging, subsumption, variable elimination with its log, model reconstruction. */
module Simp {
  import opened Cnf
  import opened SolverSpec
  import opened SimpSpec
  import Cdcl

  // ---------------------------------------------------------------- subsumption

  // No: neither; Subsumed: all literals occur; Strengthen(p): p occurs negated, all others occur.
  datatype Subsumption = No | Subsumed | Strengthen(p: Lit)

  /** The set of bits of a clause's 32-bit variable mask. */
  method CalcAbstraction(lits: seq<Lit>) returns (abstraction: set<nat>)
    ensures abstraction == Mask(lits)
  {
    abstraction := {};
    for i := 0 to |lits|
      invariant forall b :: b in abstraction <==> exists k :: 0 <= k < i && lits[k].v % 32 == b
    {
      abstraction := abstraction + {lits[i].v % 32};
    }
  }

  ghost predicate Subset(c: seq<Lit>, d: seq<Lit>) { forall l :: l in c ==> l in d }

  /** Flipping p makes c a subset of d. */
  ghost predicate FlipsInto(c: seq<Lit>, d: seq<Lit>, p: Lit) {
    p in c && Neg(p) in d && forall l :: l in c && l != p ==> l in d
  }

  /** Whether c can be used on d at all. */
  ghost predicate Applies(c: seq<Lit>, d: seq<Lit>) { Subset(c, d) || exists p :: FlipsInto(c, d, p) }

  /** Different variables that all occur in d are at most as many as its literals. */
  lemma {:induction false} ProperSize(c: seq<Lit>, d: seq<Lit>)
    requires Proper(c) && forall k :: 0 <= k < |c| ==> Mentions(d, c[k].v)
    ensures |c| <= |d|
  {
    if c != [] {
      var j :| 0 <= j < |d| && d[j].v == c[0].v;
      var d' := d[..j] + d[j + 1..];
      var c' := c[1..];
      forall k | 0 <= k < |c'| ensures Mentions(d', c'[k].v) {
        assert Mentions(d, c[k + 1].v);
        var x :| 0 <= x < |d| && d[x].v == c[k + 1].v;
        assert x != j;
        assert d'[if x < j then x else x - 1] == d[x];
      }
      ProperSize(c', d');
    }
  }

  /** The filter never rejects a pair that subsumption or strengthening applies to. */
  lemma FilterSafe(c: seq<Lit>, d: seq<Lit>)
    requires Proper(c) && forall l :: l in c ==> l in d || Neg(l) in d
    ensures |c| <= |d| && Mask(c) <= Mask(d)
  {
    forall k | 0 <= k < |c| ensures Mentions(d, c[k].v) {
      assert c[k] in c;
      var l := if c[k] in d then c[k] else Neg(c[k]);
      var j :| 0 <= j < |d| && d[j] == l;
    }
    ProperSize(c, d);
    forall b | b in Mask(c) ensures b in Mask(d) {
      var k :| 0 <= k < |c| && c[k].v % 32 == b;
      assert Mentions(d, c[k].v);
      var j :| 0 <= j < |d| && d[j].v == c[k].v;
      assert d[j].v % 32 == b;
    }
  }

  /** What the loop knows about the first i literals of c. */
  ghost predicate Scanned(c: seq<Lit>, d: seq<Lit>, i: nat, ret: Subsumption) {
    && i <= |c| && ret != No
    && (ret == Subsumed ==> forall k :: 0 <= k < i ==> c[k] in d)
    && (ret.Strengthen? ==> (exists k :: 0 <= k < i && c[k] == ret.p) && Neg(ret.p) in d)
    && (ret.Strengthen? ==> forall k :: 0 <= k < i && c[k] != ret.p ==> c[k] in d)
  }

  /** In a clause without duplicates or complements, at most one of a literal and its negation occurs. */
  lemma ProperOne(d: seq<Lit>, l: Lit)
    requires Proper(d)
    ensures !(l in d && Neg(l) in d)
  {
    if l in d {
      var i :| 0 <= i < |d| && d[i] == l;
      forall j | 0 <= j < |d| ensures d[j] != Neg(l) {
        if j < i { assert d[j].v != d[i].v; } else if i < j { assert d[i].v != d[j].v; }
      }
    }
  }

  /** Decides subsumption and strengthening exactly, with the size and mask filter first. */
  method Subsumes(c: SClause, other: SClause) returns (ret: Subsumption)
    requires Proper(c.lits) && Proper(other.lits) && c.abs == Mask(c.lits) && other.abs == Mask(other.lits)
    ensures ret == Subsumed <==> Subset(c.lits, other.lits)
    ensures forall p :: ret == Strengthen(p) <==> FlipsInto(c.lits, other.lits, p)
  {
    var x, d := c.lits, other.lits;
    if |d| < |x| || !(c.abs <= other.abs) {
      NoneApplies(x, d);
      return No;
    }
    ret := Subsumed;
    for i := 0 to |x|
      invariant Scanned(x, d, i, ret)
    {
      var found := false;
      var was := ret;
      for j := 0 to |d|
        invariant !found ==>
          ret == was && (forall k :: 0 <= k < j ==> d[k] != x[i])
          && (ret == Subsumed ==> forall k :: 0 <= k < j ==> d[k] != Neg(x[i]))
        invariant found ==> (ret == was && x[i] in d) || (was == Subsumed && ret == Strengthen(x[i]) && Neg(x[i]) in d)
      {
        if x[i] == d[j] {
          found := true;
          break;
        } else if ret == Subsumed && x[i] == Neg(d[j]) {
          ret := Strengthen(x[i]);
          found := true;
          break;
        }
      }
      if !found {
        NotFound(x, d, i, ret);
        return No;
      }
      ScannedNext(x, d, i, was, ret);
    }
    ScannedAll(x, d, ret);
  }

  lemma NoneApplies(x: seq<Lit>, d: seq<Lit>)
    requires Proper(x) && (|d| < |x| || !(Mask(x) <= Mask(d)))
    ensures !Subset(x, d) && forall p :: !FlipsInto(x, d, p)
  {
    if Subset(x, d) { FilterSafe(x, d); }
    forall p ensures !FlipsInto(x, d, p) {
      if FlipsInto(x, d, p) { FilterSafe(x, d); }
    }
  }

  lemma NotFound(x: seq<Lit>, d: seq<Lit>, i: nat, ret: Subsumption)
    requires Proper(x) && Proper(d) && i < |x| && Scanned(x, d, i, ret) && x[i] !in d
    requires (ret == Subsumed ==> Neg(x[i]) !in d)
    ensures !Subset(x, d) && forall p :: !FlipsInto(x, d, p)
  {
    assert x[i] in x;
    forall p ensures !FlipsInto(x, d, p) {
      if FlipsInto(x, d, p) {
        assert p == x[i];
        if ret.Strengthen? {
          var k :| 0 <= k < i && x[k] == ret.p;
          assert x[k] in x && x[k] != x[i];
          ProperOne(d, x[k]);
        }
      }
    }
  }

  lemma ScannedNext(x: seq<Lit>, d: seq<Lit>, i: nat, was: Subsumption, ret: Subsumption)
    requires Scanned(x, d, i, was) && i < |x|
    requires (ret == was && x[i] in d) || (was == Subsumed && ret == Strengthen(x[i]) && Neg(x[i]) in d)
    ensures Scanned(x, d, i + 1, ret)
  {}

  lemma ScannedAll(x: seq<Lit>, d: seq<Lit>, ret: Subsumption)
    requires Proper(x) && Proper(d) && Scanned(x, d, |x|, ret)
    ensures ret == Subsumed <==> Subset(x, d)
    ensures forall p :: ret == Strengthen(p) <==> FlipsInto(x, d, p)
  {
    forall l | l in x ensures exists k :: 0 <= k < |x| && x[k] == l {}
    if ret.Strengthen? { ProperOne(d, ret.p); }
    forall p | FlipsInto(x, d, p) ensures ret == Strengthen(p) {
      ProperOne(d, p);
    }
  }

  // ---------------------------------------------------------------- merging

  datatype Seen = Absent | Same | Opposite

  /** How the variable of l occurs in a clause. */
  method LookFor(ps: seq<Lit>, l: Lit) returns (r: Seen)
    requires Proper(ps)
    ensures r == Same <==> l in ps
    ensures r == Opposite <==> Neg(l) in ps
  {
    for j := 0 to |ps|
      invariant forall k :: 0 <= k < j ==> ps[k].v != l.v
    {
      if ps[j].v == l.v {
        ProperOne(ps, l);
        assert ps[j] in ps;
        return if ps[j] == Neg(l) then Opposite else Same;
      }
    }
    r := Absent;
  }

  /** The first i literals of qs, without v and without those that are also in ps. */
  ghost predicate MergedUpTo(ps: seq<Lit>, qs: seq<Lit>, v: nat, i: nat, out: seq<Lit>) {
    && i <= |qs| && Proper(out)
    && (forall l :: l in out <==> l in qs[..i] && l.v != v && l !in ps)
    && (forall l :: l in qs[..i] && l.v != v ==> Neg(l) !in ps)
  }

  lemma MergeNext(ps: seq<Lit>, qs: seq<Lit>, v: nat, i: nat, out: seq<Lit>)
    requires Proper(ps) && Proper(qs) && i < |qs| && MergedUpTo(ps, qs, v, i, out)
    requires (qs[i].v == v || Neg(qs[i]) !in ps)
    ensures MergedUpTo(ps, qs, v, i + 1, if qs[i].v != v && qs[i] !in ps then out + [qs[i]] else out)
  {
    assert qs[..i + 1] == qs[..i] + [qs[i]];
    var out' := if qs[i].v != v && qs[i] !in ps then out + [qs[i]] else out;
    forall k | 0 <= k < |out| ensures out[k].v != qs[i].v {
      assert out[k] in out;
      var j :| 0 <= j < i && qs[j] == out[k];
    }
  }

  lemma MergeClash(ps: seq<Lit>, qs: seq<Lit>, v: nat, i: nat)
    requires i < |qs| && qs[i].v != v && Neg(qs[i]) in ps
    ensures Clash(ps, qs, v) && Clash(qs, ps, v)
  {
    assert qs[i] in qs;
    assert Neg(Neg(qs[i])) == qs[i];
  }

  lemma ClashSym(p: seq<Lit>, q: seq<Lit>, v: nat)
    ensures Clash(p, q, v) <==> Clash(q, p, v)
  {
    if l :| l in p && l.v != v && Neg(l) in q { assert Neg(l) in q && Neg(Neg(l)) in p; }
    if l :| l in q && l.v != v && Neg(l) in p { assert Neg(l) in p && Neg(Neg(l)) in q; }
  }

  /** The literals of qs that are new, then those of ps, all without v. */
  lemma MergeEnd(ps: seq<Lit>, qs: seq<Lit>, v: nat, out: seq<Lit>)
    requires Proper(ps) && MergedUpTo(ps, qs, v, |qs|, out)
    ensures IsMerge(ps, qs, v, out + Without(ps, v)) && Proper(out + Without(ps, v)) && !Clash(ps, qs, v)
  {
    WithoutProper(ps, v);
    assert qs[..|qs|] == qs;
    var r := out + Without(ps, v);
    forall i, j | 0 <= i < j < |r| ensures r[i].v != r[j].v {
      if i < |out| <= j {
        assert r[i] in out && r[j] in Without(ps, v);
        assert r[i] in qs && r[i].v != v && r[i] !in ps && Neg(r[i]) !in ps;
        assert r[j] in ps;
        assert r[j] == r[i] || r[j] == Neg(r[i]) || r[j].v != r[i].v;
      } else if j >= |out| && i >= |out| {
        assert r[i] == Without(ps, v)[i - |out|] && r[j] == Without(ps, v)[j - |out|];
      }
    }
    ClashSym(ps, qs, v);
  }

  lemma {:induction false} WithoutProper(c: seq<Lit>, v: nat)
    requires Proper(c)
    ensures Proper(Without(c, v)) && |Without(c, v)| == |c| - if Mentions(c, v) then 1 else 0
  {
    if c != [] {
      WithoutProper(c[1..], v);
      var r := Without(c[1..], v);
      forall k | 0 <= k < |r| ensures r[k].v != c[0].v {
        assert r[k] in r;
        var j :| 0 <= j < |c[1..]| && c[1..][j] == r[k];
        assert c[j + 1] == r[k];
      }
      assert Mentions(c, v) <==> c[0].v == v || Mentions(c[1..], v) by { MentionsCons(c, v); }
      if c[0].v == v {
        forall k | 0 <= k < |c[1..]| ensures c[1..][k].v != v { assert c[k + 1].v != c[0].v; }
      }
    }
  }

  lemma MentionsCons(c: seq<Lit>, v: nat)
    requires c != []
    ensures Mentions(c, v) <==> c[0].v == v || Mentions(c[1..], v)
  {
    if Mentions(c, v) {
      var k :| 0 <= k < |c| && c[k].v == v;
      if k > 0 { assert c[1..][k - 1].v == v; }
    }
    if Mentions(c[1..], v) {
      var k :| 0 <= k < |c[1..]| && c[1..][k].v == v;
      assert c[k + 1].v == v;
    }
  }

  /** The resolvent on v; false if it is a tautology. The longer parent is scanned for each literal of the shorter. */
  method Merge(p: seq<Lit>, q: seq<Lit>, v: nat) returns (r: bool, outClause: seq<Lit>)
    requires Proper(p) && Proper(q)
    ensures r <==> !Clash(p, q, v)
    ensures r ==> IsMerge(p, q, v, outClause) && Proper(outClause)
  {
    hide Clash, IsMerge, MergedUpTo, Without, Proper;
    var psSmallest := |p| < |q|;
    var ps := if psSmallest then q else p;
    var qs := if psSmallest then p else q;
    MergeStart(ps, qs, v);
    MergeSwap(p, q, v);
    outClause := [];
    for i := 0 to |qs|
      invariant MergedUpTo(ps, qs, v, i, outClause)
    {
      if qs[i].v != v {
        var seen := LookFor(ps, qs[i]);
        if seen == Opposite {
          MergeClash(ps, qs, v, i);
          return false, outClause;
        }
        MergeNext(ps, qs, v, i, outClause);
        if seen == Absent { outClause := outClause + [qs[i]]; }
      } else {
        MergeNext(ps, qs, v, i, outClause);
      }
    }
    MergeEnd(ps, qs, v, outClause);
    ghost var merged := outClause;
    for i := 0 to |ps|
      invariant outClause == merged + Without(ps[..i], v)
    {
      WithoutSnoc(ps, v, i);
      if ps[i].v != v { outClause := outClause + [ps[i]]; }
    }
    assert ps[..|ps|] == ps;
    r := true;
  }

  lemma {:induction false} WithoutJoin(c: seq<Lit>, p: Lit, v: nat)
    ensures Without(c + [p], v) == Without(c, v) + if p.v != v then [p] else []
  {
    if c == [] {
      assert [p][1..] == [];
    } else {
      assert (c + [p])[1..] == c[1..] + [p];
      WithoutJoin(c[1..], p, v);
    }
  }

  lemma WithoutSnoc(c: seq<Lit>, v: nat, i: nat)
    requires i < |c|
    ensures Without(c[..i + 1], v) == Without(c[..i], v) + if c[i].v != v then [c[i]] else []
  {
    assert c[..i + 1] == c[..i] + [c[i]];
    WithoutJoin(c[..i], c[i], v);
  }

  lemma MergeStart(ps: seq<Lit>, qs: seq<Lit>, v: nat)
    ensures MergedUpTo(ps, qs, v, 0, []) && Without(ps[..0], v) == []
  {}

  lemma MergeSwap(p: seq<Lit>, q: seq<Lit>, v: nat)
    ensures Clash(p, q, v) <==> Clash(q, p, v)
    ensures forall r :: IsMerge(p, q, v, r) <==> IsMerge(q, p, v, r)
  {
    ClashSym(p, q, v);
  }

  /** Some proper clause with these literals has this length. */
  ghost predicate MergeLength(p: seq<Lit>, q: seq<Lit>, v: nat, size: int) {
    exists r :: IsMerge(p, q, v, r) && Proper(r) && |r| == size
  }

  /** The length of the resolvent alone. */
  method MergeSize(p: seq<Lit>, q: seq<Lit>, v: nat) returns (r: bool, size: int)
    requires Proper(p) && Proper(q) && Mentions(p, v) && Mentions(q, v)
    ensures r <==> !Clash(p, q, v)
    ensures r ==> MergeLength(p, q, v, size)
  {
    hide Clash, IsMerge, MergedUpTo, Mentions;
    var psSmallest := |p| < |q|;
    var ps := if psSmallest then q else p;
    var qs := if psSmallest then p else q;
    MergeStart(ps, qs, v);
    MergeSwap(p, q, v);
    WithoutProper(ps, v);
    size := |ps| - 1;
    ghost var out: seq<Lit> := [];
    for i := 0 to |qs|
      invariant MergedUpTo(ps, qs, v, i, out) && size == |out| + |Without(ps, v)|
    {
      if qs[i].v != v {
        var seen := LookFor(ps, qs[i]);
        if seen == Opposite {
          MergeClash(ps, qs, v, i);
          return false, size;
        }
        MergeNext(ps, qs, v, i, out);
        if seen == Absent { size, out := size + 1, out + [qs[i]]; }
      } else {
        MergeNext(ps, qs, v, i, out);
      }
    }
    MergeEnd(ps, qs, v, out);
    assert |out + Without(ps, v)| == size;
    r := true;
  }

  // ---------------------------------------------------------------- the preprocessor

  class SimpSolver {
    var ok: bool
    var ca: Db
    var trail: seq<Lit>
    var assigns: seq<LBool>
    var occurs: seq<seq<nat>>
    var subsumptionQueue: seq<nat>
    var bwdsubAssigns: nat
    var elimclauses: seq<nat>
    var eliminated: seq<bool>
    var decision: seq<bool>
    var model: seq<LBool>
    const grow: int
    const clauseLim: int
    const subsumptionLim: int

    ghost var es: seq<Elim>            // the eliminations so far
    ghost var added: seq<seq<Lit>>     // every clause ever added

    /** Clauses, occurrence lists and root facts fit together. */
    ghost predicate Db()
      reads `ca, `trail, `assigns, `occurs, `subsumptionQueue, `bwdsubAssigns
    {
      && AssignsOk(assigns, trail) && DbOk(ca, |assigns|) && |occurs| == |assigns| && OccursOk(occurs, ca)
      && (forall i :: 0 <= i < |subsumptionQueue| ==> subsumptionQueue[i] < |ca|) && bwdsubAssigns <= |trail|
    }

    /** The packed log is that of the eliminations so far. */
    ghost predicate Log()
      reads `assigns, `elimclauses, `eliminated, `es
    {
      && LogOk(es, |assigns|) && elimclauses == Pack(Entries(es)) && |eliminated| == |assigns|
      && forall v: nat :: v < |assigns| ==> (eliminated[v] <==> Eliminated(es, v))
    }

    // ---------------------------------------------------------------- root facts

    /** Makes an unassigned literal a root fact. */
    method UncheckedEnqueue(p: Lit)
      requires Db() && p.v < |assigns| && Val(assigns, p) == Undef
      modifies `assigns, `trail
      ensures Db() && trail == old(trail) + [p] && |assigns| == old(|assigns|)
    {
      AssignFact(assigns, trail, p);
      assigns := assigns[p.v := if p.s then False else True];
      trail := trail + [p];
    }

    /** How a clause stands at the root: satisfied, false, down to one literal, or open. */
    method Status(k: nat) returns (sat: bool, open: nat, p: Lit)
      requires Db() && k < |ca| && !ca[k].mark
      ensures sat ==> exists l :: l in ca[k].lits && l in trail
      ensures !sat && open == 0 ==> forall l :: l in ca[k].lits ==> Neg(l) in trail
      ensures !sat && open == 1 ==> p in ca[k].lits && p.v < |assigns| && Val(assigns, p) == Undef && forall l ::
        l in ca[k].lits && l != p ==> Neg(l) in trail
    {
      var c := ca[k].lits;
      assert ClauseOk(ca[k], |assigns|);
      sat, open, p := false, 0, c[0];
      for i := 0 to |c|
        invariant open == 0 ==> forall j :: 0 <= j < i ==> Neg(c[j]) in trail
        invariant open == 1 ==> p in c && Val(assigns, p) == Undef && forall j :: 0 <= j < i && c[j] != p ==>
          Neg(c[j]) in trail
      {
        assert c[i] in c;
        var val := Val(assigns, c[i]);
        if val == True {
          return true, open, p;
        } else if val == Undef {
          open, p := open + 1, c[i];
        } else {
          assert Val(assigns, Neg(c[i])) == True;
        }
      }
    }

    /** Root propagation by scanning the clauses; false reports a conflict. */
    method Propagate() returns (r: bool)
      requires Db()
      modifies `assigns, `trail
      ensures Db() && Grown(ca, old(trail), ca, trail) && |assigns| == old(|assigns|)
      ensures r ==> forall a: Assignment :: DbSat(a, ca, old(trail)) ==> DbSat(a, ca, trail)
      ensures !r ==> NoModels(ca, old(trail))
    {
      hide AssignsOk, DbOk, OccursOk, DbSat;
      for round := 0 to |assigns|
        invariant Db() && Grown(ca, old(trail), ca, trail) && |assigns| == old(|assigns|)
        invariant forall a: Assignment :: DbSat(a, ca, old(trail)) ==> DbSat(a, ca, trail)
      {
        r := PropagateRound();
        if !r { return; }
      }
      r := true;
    }

    method PropagateRound() returns (r: bool)
      requires Db()
      modifies `assigns, `trail
      ensures Db() && Grown(ca, old(trail), ca, trail) && |assigns| == old(|assigns|)
      ensures r ==> forall a: Assignment :: DbSat(a, ca, old(trail)) ==> DbSat(a, ca, trail)
      ensures !r ==> NoModels(ca, old(trail))
    {
      hide AssignsOk, DbOk, OccursOk, DbSat;
      for k := 0 to |ca|
        invariant Db() && Grown(ca, old(trail), ca, trail) && |assigns| == old(|assigns|)
        invariant forall a: Assignment :: DbSat(a, ca, old(trail)) ==> DbSat(a, ca, trail)
      {
        if !ca[k].mark {
          var sat, open, p := Status(k);
          if !sat && open == 0 {
            FalseClause(ca, trail, k);
            return false;
          }
          if !sat && open == 1 {
            forall a: Assignment | DbSat(a, ca, trail) ensures Holds(a, p) { UnitClause(a, ca, trail, k, p); }
            FactGrown(ca, trail, p);
            UncheckedEnqueue(p);
          }
        }
      }
      r := true;
    }
  
    // ---------------------------------------------------------------- adding and removing clauses

    /** Satisfied by a root fact or a stored clause, or always true. */
    ghost predicate Taken(ps: seq<Lit>)
      reads `ca, `trail
    {
      Covered(ps, ca, trail) || exists l :: l in ps && Neg(l) in ps
    }

    /** Adds a clause to the database, simplified at the root; false reports that no model is left. */
    method AddClauseInternal(ps: seq<Lit>) returns (r: bool)
      requires Db() && forall p :: p in ps ==> p.v < |assigns|
      modifies `assigns, `trail, `ca, `occurs, `subsumptionQueue
      ensures Db() && Grown(old(ca), old(trail), ca, trail) && |assigns| == old(|assigns|)
      ensures r ==> Taken(ps)
      ensures r ==> forall a: Assignment :: DbSat(a, old(ca), old(trail)) && SatClause(a, ps) ==> DbSat(a, ca, trail)
      ensures !r ==> forall a: Assignment :: !(DbSat(a, old(ca), old(trail)) && SatClause(a, ps))
      ensures NewWithin(old(ca), ca, ps)
    {
      hide AssignsOk, DbOk, OccursOk, SatClause, Taken;
      var taken, kept := Reduce(ps);
      if taken { return true; }
      if kept == [] {
        EmptyUnsat();
        return false;
      }
      if |kept| == 1 {
        r := AddUnit(ps, kept[0]);
      } else {
        StoreClause(ps, kept);
        r := true;
      }
    }

    /** The clause without root-false and repeated literals, unless it is satisfied or a tautology. */
    method Reduce(ps: seq<Lit>) returns (taken: bool, kept: seq<Lit>)
      requires Db() && forall p :: p in ps ==> p.v < |assigns|
      ensures taken ==> Taken(ps)
      ensures !taken ==> Proper(kept) && VarsBelow(kept, |assigns|) && forall l :: l in kept ==> l in ps
      ensures !taken && |kept| == 1 ==>
        kept == [kept[0]] && kept[0] in ps && kept[0].v < |assigns| && Val(assigns, kept[0]) == Undef
      ensures !taken ==> forall a: Assignment :: DbSat(a, ca, trail) && SatClause(a, ps) ==> SatClause(a, kept)
    {
      hide AssignsOk, DbOk, OccursOk, Covered, SatClause, KeptUpTo;
      kept := [];
      StartKeeping(assigns, trail, ps);
      for i := 0 to |ps|
        invariant KeptUpTo(assigns, trail, ps, i, kept)
      {
        assert ps[i] in ps;
        if Val(assigns, ps[i]) == True {
          TrueCovers(assigns, trail, ps, ca, ps[i]);
          return true, kept;
        }
        if Neg(ps[i]) in kept {
          KeptIn(assigns, trail, ps, i, kept, Neg(ps[i]));
          return true, kept;
        }
        KeepNext(assigns, trail, ps, i, kept);
        if Val(assigns, ps[i]) != False && ps[i] !in kept { kept := kept + [ps[i]]; }
      }
      forall a: Assignment | DbSat(a, ca, trail) && SatClause(a, ps)
        ensures SatClause(a, kept)
      {
        KeptSat(a, assigns, trail, ps, kept);
      }
      KeptFacts(assigns, trail, ps, kept);
      taken := false;
    }

    method AddUnit(ghost ps: seq<Lit>, p: Lit) returns (r: bool)
      requires Db() && p in ps && p.v < |assigns| && Val(assigns, p) == Undef
      requires forall a: Assignment :: DbSat(a, ca, trail) && SatClause(a, ps) ==> SatClause(a, [p])
      modifies `assigns, `trail
      ensures Db() && Grown(ca, old(trail), ca, trail) && |assigns| == old(|assigns|)
      ensures r ==> Taken(ps)
      ensures r ==> forall a: Assignment :: DbSat(a, ca, old(trail)) && SatClause(a, ps) ==> DbSat(a, ca, trail)
      ensures !r ==> forall a: Assignment :: !(DbSat(a, ca, old(trail)) && SatClause(a, ps))
    {
      hide AssignsOk, DbOk, OccursOk, LiveSat, SatClause;
      ghost var t0 := trail;
      forall a: Assignment | DbSat(a, ca, t0) && SatClause(a, ps) ensures DbSat(a, ca, t0 + [p]) { UnitHolds(a, p); }
      UncheckedEnqueue(p);
      ghost var t1 := trail;
      r := Propagate();
      LastInTrail(t0, p, trail);
    }

    method StoreClause(ghost ps: seq<Lit>, c: seq<Lit>)
      requires Db() && |c| >= 2 && Proper(c) && VarsBelow(c, |assigns|) && forall l :: l in c ==> l in ps
      requires forall a: Assignment :: DbSat(a, ca, trail) && SatClause(a, ps) ==> SatClause(a, c)
      modifies `ca, `occurs, `subsumptionQueue
      ensures Db() && Grown(old(ca), trail, ca, trail) && Taken(ps) && NewWithin(old(ca), ca, ps)
      ensures forall a: Assignment :: DbSat(a, old(ca), trail) && SatClause(a, ps) ==> DbSat(a, ca, trail)
    {
      hide AssignsOk, DbOk, OccursOk, Covered, DbSat, SatClause, Recorded;
      var abstraction := CalcAbstraction(c);
      var cl := SClause(c, abstraction, false);
      var cr := |ca|;
      ghost var occ := occurs;
      StoredOk(cl, |assigns|);
      DbOkAppend(ca, |assigns|, cl);
      AppendCovers(ps, ca, trail, cl);
      forall a: Assignment
        ensures DbSat(a, ca + [cl], trail) <==> DbSat(a, ca, trail) && SatClause(a, c)
      {
        AppendSat(a, ca, trail, cl);
      }
      Record(c, cr);
      RecordedOk(occ, occurs, ca, cl);
      ca := ca + [cl];
      subsumptionQueue := subsumptionQueue + [cr];
    }

    /** Enters a clause into the occurrence lists of its variables. */
    method Record(c: seq<Lit>, cr: nat)
      requires Proper(c) && VarsBelow(c, |occurs|)
      modifies `occurs
      ensures Recorded(old(occurs), occurs, c, cr)
    {
      for i := 0 to |c|
        invariant Recorded(old(occurs), occurs, c[..i], cr)
      {
        RecordNext(old(occurs), occurs, c, i, cr);
        occurs := occurs[c[i].v := occurs[c[i].v] + [cr]];
      }
      assert c[..|c|] == c;
    }

    /** Marks a clause deleted; its entries in the occurrence lists go when the lists are next looked up. */
    method RemoveClause(cr: nat)
      requires Db() && cr < |ca| && !ca[cr].mark
      modifies `ca
      ensures Db() && ca == old(ca)[cr := old(ca)[cr].(mark := true)]
    {
      ca := ca[cr := ca[cr].(mark := true)];
    }

    /** The occurrence list of v, rid of deleted clauses. */
    method Lookup(v: nat) returns (cs: seq<nat>)
      requires Db() && v < |occurs|
      modifies `occurs
      ensures Db() && cs == occurs[v] && |occurs| == old(|occurs|) && NoDup(cs)
      ensures forall k: nat :: k in cs <==> k < |ca| && !ca[k].mark && Mentions(ca[k].lits, v)
    {
      hide AssignsOk, DbOk;
      cs := [];
      for i := 0 to |occurs[v]|
        invariant Db() && occurs == old(occurs) && NoDup(cs)
        invariant forall k: nat :: k in cs <==> k in occurs[v][..i] && k < |ca| && !ca[k].mark
      {
        var k := occurs[v][i];
        NotYetListed(occurs, ca, v, i);
        if !ca[k].mark { cs := cs + [k]; }
      }
      LookupOk(occurs, ca, v, cs);
      occurs := occurs[v := cs];
    }
  
    // ---------------------------------------------------------------- strengthening

    /** Removes a literal that the clause can do without; false reports a conflict at the root. */
    method StrengthenClause(cr: nat, l: Lit) returns (r: bool)
      requires Db() && Clean(ca, es) && cr < |ca| && !ca[cr].mark && l in ca[cr].lits
      requires forall a: Assignment :: DbSat(a, ca, trail) ==> SatClause(a, Drop(ca[cr].lits, l))
      modifies `assigns, `trail, `ca, `occurs, `subsumptionQueue
      ensures Db() && Clean(ca, es) && |assigns| == old(|assigns|) && Total(ca) < old(Total(ca))
      ensures |ca| == old(|ca|) && forall k :: 0 <= k < |ca| && k != cr ==> ca[k] == old(ca[k])
      ensures old(trail) <= trail && subsumptionQueue == old(subsumptionQueue) + [cr]
      ensures ca[cr].mark || ca[cr].lits == Drop(old(ca[cr].lits), l)
      ensures Relisted(old(occurs), occurs, l.v, cr)
      ensures r ==> Simplifies(old(ca), old(trail), ca, trail, es)
      ensures !r ==> NoModels(old(ca), old(trail))
    {
      hide AssignsOk, DbOk, OccursOk, Clean, DbSat, SatClause, Simplifies, NoModels, ClauseOk, Total, Shortened;
      subsumptionQueue := subsumptionQueue + [cr];
      LiveOk(ca, |assigns|, cr);
      DropFacts(ca[cr].lits, l);
      var c := Drop(ca[cr].lits, l);
      if |ca[cr].lits| == 2 {
        r := ToUnit(cr, l, c[0]);
      } else {
        Shorten(cr, l, c);
        r := true;
      }
    }

    /** A binary clause becomes a root fact. */
    method ToUnit(cr: nat, ghost l: Lit, p: Lit) returns (r: bool)
      requires Db() && Clean(ca, es) && cr < |ca| && !ca[cr].mark && l in ca[cr].lits && Drop(ca[cr].lits, l) == [p]
      requires forall a: Assignment :: DbSat(a, ca, trail) ==> SatClause(a, [p])
      modifies `assigns, `trail, `ca
      ensures Db() && Clean(ca, es) && |assigns| == old(|assigns|) && Total(ca) < old(Total(ca))
      ensures |ca| == old(|ca|) && ca[cr].mark && forall k :: 0 <= k < |ca| && k != cr ==> ca[k] == old(ca[k])
      ensures old(trail) <= trail
      ensures r ==> Simplifies(old(ca), old(trail), ca, trail, es)
      ensures !r ==> NoModels(old(ca), old(trail))
    {
      hide AssignsOk, DbOk, OccursOk, Clean, DbSat, SatClause, Simplifies, NoModels, ClauseOk, Total;
      ghost var ca0, t0 := ca, trail;
      UnitFacts(ca0, t0, cr, l, p, |assigns|, es);
      DeleteOk(occurs, ca, |assigns|, cr, es);
      TotalUpdate(ca, cr, ca[cr].(mark := true));
      ghost var kept := ca[cr := ca[cr].(mark := true)];
      forall a: Assignment | DbSat(a, ca0, t0) ensures DbSat(a, kept, t0) && DbSat(a, kept, t0 + [p]) && Holds(a, p) {
        UnitHolds(a, p);
        DeleteSat(a, ca0, t0, cr);
        FactSat(a, kept, t0, p);
      }
      RemoveClause(cr);
      if Val(assigns, p) == False {
        FalseFact(assigns, ca0, t0, p);
        NoModelsIntro(ca0, t0);
        return false;
      }
      if Val(assigns, p) == Undef {
        UncheckedEnqueue(p);
        r := Propagate();
        LastInTrail(t0, p, trail);
        if !r { NoModelsBefore(ca0, t0, kept, t0 + [p]); return; }
      } else {
        TrueFact(assigns, trail, p);
        r := true;
      }
      UnitSimplifies(ca0, t0, cr, p, trail, es);
    }

    method Shorten(cr: nat, l: Lit, c: seq<Lit>)
      requires Db() && cr < |ca| && !ca[cr].mark && l in ca[cr].lits && c == Drop(ca[cr].lits, l) && |c| >= 2
      requires forall a: Assignment :: DbSat(a, ca, trail) ==> SatClause(a, c)
      modifies `ca, `occurs
      ensures Db() && (old(Clean(ca, es)) ==> Clean(ca, es)) && Total(ca) < old(Total(ca))
      ensures |ca| == old(|ca|) && ca[cr].lits == c && forall k :: 0 <= k < |ca| && k != cr ==> ca[k] == old(ca[k])
      ensures Shortened(old(occurs), occurs, l.v, cr)
      ensures Simplifies(old(ca), trail, ca, trail, es)
    {
      hide AssignsOk, DbOk, OccursOk, Clean, DbSat, SatClause, Simplifies, ClauseOk, Total;
      LiveOk(ca, |assigns|, cr);
      DropFacts(ca[cr].lits, l);
      ShortBelow(ca[cr], c, |assigns|);
      var abstraction := CalcAbstraction(c);
      var cl := SClause(c, abstraction, false);
      StoredOk(cl, |assigns|);
      LiteralBelow(ca[cr], l, |assigns|);
      TotalUpdate(ca, cr, cl);
      ShortenSimplifies(ca, trail, cr, cl, es);
      ghost var occ, ca0 := occurs, ca;
      InOccurs(occurs, ca, l, cr);
      Forget(l.v, cr);
      ShortenOk(occ, occurs, ca0, |assigns|, cr, cl, l, es);
      ca := ca[cr := cl];
    }

    /** Takes a reference out of an occurrence list. */
    method Forget(v: nat, cr: nat)
      requires v < |occurs| && cr in occurs[v]
      modifies `occurs
      ensures Shortened(old(occurs), occurs, v, cr)
    {
      var l, j := occurs[v], 0;
      while j < |l| && l[j] != cr
        invariant j <= |l| && forall i :: 0 <= i < j ==> l[i] != cr
      {
        j := j + 1;
      }
      var cs := l[..j] + l[j + 1..];
      assert Removed(l, cs, cr, j);
      occurs := occurs[v := cs];
      assert Removed(old(occurs)[v], occurs[v], cr, j);
    }
  
    // ---------------------------------------------------------------- backward subsumption

    /** Uses one clause on another: removes it if subsumed, strengthens it if all but a flipped literal occur. */
    method TryCandidate(c: SClause, unit: bool, cr: nat, dr: nat) returns (r: bool, sub: Subsumption)
      requires Db() && Clean(ca, es) && Scanning(c, unit, cr, ca, trail) && Proper(c.lits) && c.abs == Mask(c.lits)
      requires dr < |ca| && !ca[dr].mark && (unit || dr != cr) && Short(ca[dr].lits, subsumptionLim)
      modifies `assigns, `trail, `ca, `occurs, `subsumptionQueue
      ensures Db() && Clean(ca, es) && |assigns| == old(|assigns|) && Scanning(c, unit, cr, ca, trail)
      ensures sub != No ==> Total(ca) < old(Total(ca))
      ensures sub == No ==>
        ca == old(ca) && trail == old(trail) && occurs == old(occurs) && subsumptionQueue == old(subsumptionQueue)
      ensures r ==> Simplifies(old(ca), old(trail), ca, trail, es)
      ensures !r ==> NoModels(old(ca), old(trail))
      ensures old(trail) <= trail && |ca| == old(|ca|) && forall k :: 0 <= k < |ca| && k != dr ==> ca[k] == old(ca[k])
      ensures ca[dr].mark || !Applies(c.lits, ca[dr].lits)
      ensures Shrunk(old(ca), ca, old(subsumptionQueue), subsumptionQueue, subsumptionLim)
      ensures if sub.Strengthen? then Relisted(old(occurs), occurs, sub.p.v, dr) else occurs == old(occurs)
    {
      hide AssignsOk, DbOk, OccursOk, Clean, DbSat, SatClause, Simplifies, NoModels, Total, Proper, ClauseOk, Relisted;
      LiveOk(ca, |assigns|, dr);
      LiveMask(ca, |assigns|, dr);
      SimplifiesRefl(ca, trail, es);
      sub := Subsumes(c, ca[dr]);
      r := true;
      match sub
      case No =>
      case Subsumed =>
        forall a: Assignment | RestSat(a, ca[dr := ca[dr].(mark := true)], trail, es)
          ensures SatClause(a, ca[dr].lits)
        {
          SubsumedImplied(a, c, unit, cr, ca, trail, dr, es);
        }
        RemoveImplied(ca, trail, dr, |assigns|, occurs, es);
        RemoveClause(dr);
      case Strengthen(p) =>
        assert FlipsInto(c.lits, ca[dr].lits, p);
        forall a: Assignment | DbSat(a, ca, trail) ensures SatClause(a, Drop(ca[dr].lits, Neg(p))) {
          StrengthenImplied(a, c, unit, cr, ca, trail, dr, p);
        }
        ghost var t0 := trail;
        r := StrengthenClause(dr, Neg(p));
        ScanningKept(c, unit, cr, old(ca), ca, t0, trail);
        StrengthenedQuiet(c.lits, old(ca[dr].lits), p);
        DropWithin(old(ca[dr].lits), Neg(p));
    }

    /** The variable of the clause with the shortest occurrence list. */
    method BestVariable(c: seq<Lit>) returns (best: nat)
      requires |c| >= 1 && VarsBelow(c, |occurs|)
      ensures best < |occurs| && Mentions(c, best) && forall k :: 0 <= k < |c| ==> |occurs[best]| <= |occurs[c[k].v]|
    {
      best := c[0].v;
      for i := 1 to |c|
        invariant best < |occurs| && Mentions(c, best) && forall k :: 0 <= k < i ==> |occurs[best]| <= |occurs[c[k].v]|
      {
        if |occurs[c[i].v]| < |occurs[best]| { best := c[i].v; }
      }
    }

    /** Uses one clause on all clauses that share its rarest variable. */
    method ScanCandidates(c: SClause, unit: bool, cr: nat) returns (r: bool)
      requires Db() && Clean(ca, es) && Scanning(c, unit, cr, ca, trail) && Proper(c.lits) && c.abs == Mask(c.lits)
      requires |c.lits| >= 1 && VarsBelow(c.lits, |assigns|)
      modifies `assigns, `trail, `ca, `occurs, `subsumptionQueue
      ensures Db() && Clean(ca, es) && |assigns| == old(|assigns|)
      ensures Total(ca) < old(Total(ca))
        || (Total(ca) == old(Total(ca)) && trail == old(trail) && subsumptionQueue == old(subsumptionQueue))
      ensures r ==> Simplifies(old(ca), old(trail), ca, trail, es)
      ensures !r ==> NoModels(old(ca), old(trail))
      ensures old(trail) <= trail && Shrunk(old(ca), ca, old(subsumptionQueue), subsumptionQueue, subsumptionLim)
      ensures Scanning(c, unit, cr, ca, trail)
      ensures r ==> Quiet(c.lits, ca, if unit then -1 else cr, subsumptionLim)
    {
      hide AssignsOk, DbOk, OccursOk, Clean, DbSat, SatClause, Simplifies, NoModels, Total, Proper, ClauseOk, Scanning;
      hide Shrunk, Relisted, Applies, ClearedTo, Quiet;
      var best := BestVariable(c.lits);
      var cs := Lookup(best);
      SimplifiesRefl(ca, trail, es);
      ShrunkRefl(ca, subsumptionQueue, subsumptionLim);
      ClearedNone(c.lits, ca, if unit then -1 else cr, occurs[best], subsumptionLim);
      var j := 0;
      while j < |occurs[best]|
        invariant Db() && Clean(ca, es) && |assigns| == old(|assigns|) && best < |occurs|
        invariant Scanning(c, unit, cr, ca, trail)
        invariant Total(ca) < old(Total(ca))
          || (Total(ca) == old(Total(ca)) && trail == old(trail) && subsumptionQueue == old(subsumptionQueue))
        invariant Simplifies(old(ca), old(trail), ca, trail, es) && old(trail) <= trail
        invariant Shrunk(old(ca), ca, old(subsumptionQueue), subsumptionQueue, subsumptionLim) && j <= |occurs[best]|
        invariant ClearedTo(c.lits, ca, if unit then -1 else cr, occurs[best], j, subsumptionLim)
        decreases Total(ca), |occurs[best]| - j
      {
        var dr := occurs[best][j];
        OccursBelow(occurs, ca, best, j);
        if !ca[dr].mark && (unit || dr != cr) && (subsumptionLim == -1 || |ca[dr].lits| < subsumptionLim) {
          ghost var ca1, t1, q1, occ1 := ca, trail, subsumptionQueue, occurs;
          ListedOnce(occurs, ca, best);
          var sub;
          r, sub := TryCandidate(c, unit, cr, dr);
          ShrunkTrans(old(ca), ca1, ca, old(subsumptionQueue), q1, subsumptionQueue, subsumptionLim);
          if !r {
            NoModelsSimplified(old(ca), old(trail), ca1, t1, es);
            return;
          }
          SimplifiesTrans(old(ca), old(trail), ca1, t1, ca, trail, es);
          // A candidate that left the list is replaced by its successor.
          if sub.Strengthen? && sub.p.v == best {
            ClearedShift(c.lits, ca1, ca, if unit then -1 else cr, occ1, occurs, best, j, dr, subsumptionLim);
          } else {
            ClearedNext(c.lits, ca1, ca, if unit then -1 else cr, occ1, occurs, best, j, dr, sub, subsumptionLim);
            j := j + 1;
          }
        } else {
          ClearedSkip(c.lits, ca, if unit then -1 else cr, occurs[best], j, subsumptionLim);
          j := j + 1;
        }
      }
      r := true;
      ClearedAll(c.lits, ca, if unit then -1 else cr, occurs, best, subsumptionLim);
    }

    /** Empties the queue of clauses, and of new root facts, using each on the others; the models stay the same. */
    method BackwardSubsumptionCheck() returns (r: bool)
      requires Db() && Clean(ca, es)
      modifies `assigns, `trail, `ca, `occurs, `subsumptionQueue, `bwdsubAssigns
      ensures Db() && Clean(ca, es) && |assigns| == old(|assigns|)
      ensures r ==> Simplifies(old(ca), old(trail), ca, trail, es) && subsumptionQueue == [] && bwdsubAssigns == |trail|
      ensures r && old(Reduced(ca, trail, subsumptionQueue, bwdsubAssigns, subsumptionLim)) ==>
        Reduced(ca, trail, [], |trail|, subsumptionLim)
      ensures !r ==> NoModels(old(ca), old(trail))
    {
      hide AssignsOk, DbOk, OccursOk, Clean, DbSat, SatClause, Simplifies, NoModels, Total, Proper, ClauseOk, Reduced;
      hide Quiet, Shrunk;
      ghost var exact := Reduced(ca, trail, subsumptionQueue, bwdsubAssigns, subsumptionLim);
      SimplifiesRefl(ca, trail, es);
      while |subsumptionQueue| > 0 || bwdsubAssigns < |trail|
        invariant Db() && Clean(ca, es) && |assigns| == old(|assigns|)
        invariant Simplifies(old(ca), old(trail), ca, trail, es)
        invariant exact ==> Reduced(ca, trail, subsumptionQueue, bwdsubAssigns, subsumptionLim)
        decreases Total(ca), |trail| - bwdsubAssigns, |subsumptionQueue|
      {
        ghost var q0, used := subsumptionQueue, bwdsubAssigns;
        var c, unit, cr;
        if subsumptionQueue == [] {
          var l := trail[bwdsubAssigns];
          bwdsubAssigns := bwdsubAssigns + 1;
          var abstraction := CalcAbstraction([l]);
          c, unit, cr := SClause([l], abstraction, false), true, 0;
          UnitScanned(assigns, trail, l);
        } else {
          cr, unit := subsumptionQueue[0], false;
          subsumptionQueue := subsumptionQueue[1..];
          c := ca[cr];
          assert q0 == [cr] + subsumptionQueue;
          if c.mark {
            if exact { ReducedSkip(ca, trail, cr, subsumptionQueue, used, subsumptionLim); }
            continue;
          }
          LiveScanned(ca, |assigns|, cr);
        }
        ghost var ca1, t1, q1 := ca, trail, subsumptionQueue;
        r := ScanCandidates(c, unit, cr);
        if !r {
          NoModelsSimplified(old(ca), old(trail), ca1, t1, es);
          return;
        }
        SimplifiesTrans(old(ca), old(trail), ca1, t1, ca, trail, es);
        if exact {
          if unit { ReducedFact(ca1, t1, ca, trail, subsumptionQueue, used, subsumptionLim); }
            else { ReducedClause(ca1, t1, ca, trail, cr, q1, subsumptionQueue, used, subsumptionLim); }
        }
      }
      r := true;
    }
  
    // ---------------------------------------------------------------- variable elimination

    /** The occurrences of v, split by sign. */
    method Split(cls: seq<nat>, v: nat) returns (pos: seq<nat>, neg: seq<nat>)
      requires DbOk(ca, |assigns|) && forall k: nat :: k in cls <==> k < |ca| && !ca[k].mark && Mentions(ca[k].lits, v)
      requires NoDup(cls)
      ensures Lists(ca, Lit(v, false), pos) && Lists(ca, Lit(v, true), neg) && NoDup(pos) && NoDup(neg)
      ensures |pos| + |neg| == |cls|
    {
      hide DbOk, Mentions;
      pos, neg := [], [];
      for i := 0 to |cls|
        invariant NoDup(pos) && NoDup(neg) && |pos| + |neg| == i
        invariant forall k: nat :: k in pos <==> k in cls[..i] && k < |ca| && Lit(v, false) in ca[k].lits
        invariant forall k: nat :: k in neg <==> k in cls[..i] && k < |ca| && Lit(v, false) !in ca[k].lits
      {
        assert cls[i] in cls;
        if Lit(v, false) in ca[cls[i]].lits { pos := pos + [cls[i]]; } else { neg := neg + [cls[i]]; }
      }
      SplitSides(ca, |assigns|, cls, v, pos, neg);
    }

    /** Writes a unit entry to the log. */
    method MkElimUnit(x: Lit)
      modifies `elimclauses
      ensures elimclauses == old(elimclauses) + Codes([x]) + [1]
    {
      assert Codes([x]) == [ToInt(x)];
      elimclauses := elimclauses + [ToInt(x)];
      elimclauses := elimclauses + [1];
    }

    /** Writes a clause to the log, the literal on v first, the length last. */
    method MkElimClause(v: nat, c: seq<Lit>) returns (ghost d: seq<Lit>)
      requires Proper(c) && Mentions(c, v)
      ensures |d| == |c| && Proper(d) && SameLits(c, d) && d[0].v == v
      ensures elimclauses == old(elimclauses) + Codes(d) + [|d|]
      modifies `elimclauses
    {
      var first := |elimclauses|;
      var vPos := first;
      for i := 0 to |c|
        invariant elimclauses == old(elimclauses) + Codes(c[..i])
        invariant first <= vPos < first + |c| && (c[vPos - first].v == v || forall k :: 0 <= k < i ==> c[k].v != v)
      {
        assert Codes(c[..i + 1]) == Codes(c[..i]) + [ToInt(c[i])];
        elimclauses := elimclauses + [ToInt(c[i])];
        if c[i].v == v { vPos := i + first; }
      }
      assert c[..|c|] == c;
      d := Front(c, vPos - first);
      FrontFacts(c, vPos - first);
      FrontCodes(old(elimclauses), c, vPos - first);
      var tmp := elimclauses[vPos];
      elimclauses := elimclauses[vPos := elimclauses[first]];
      elimclauses := elimclauses[first := tmp];
      elimclauses := elimclauses + [|c|];
    }

    /** Writes one side of v to the log. */
    method StoreSide(cs: seq<nat>, p: Lit, ghost entries: seq<seq<Lit>>) returns (ghost stored: seq<seq<Lit>>)
      requires DbOk(ca, |assigns|) && Lists(ca, p, cs) && elimclauses == Pack(entries)
      modifies `elimclauses
      ensures StoredFrom(ca, cs, |cs|, p, stored) && elimclauses == Pack(entries + stored)
    {
      hide DbOk, Pack, Codes, SameLits, Proper;
      stored := [];
      assert entries + stored == entries;
      for i := 0 to |cs|
        invariant StoredFrom(ca, cs, i, p, stored) && elimclauses == Pack(entries + stored)
      {
        assert cs[i] in cs;
        LiveOk(ca, |assigns|, cs[i]);
        MentionedBy(ca[cs[i]].lits, p);
        ghost var d := MkElimClause(p.v, ca[cs[i]].lits);
        FirstIs(ca[cs[i]].lits, d, p);
        PackSnoc(entries + stored, d);
        assert entries + stored + [d] == entries + (stored + [d]);
        stored := stored + [d];
      }
    }

    /** Whether the resolvents are few and short enough. */
    method WithinLimits(pos: seq<nat>, neg: seq<nat>, v: nat, total: nat) returns (fits: bool)
      requires DbOk(ca, |assigns|) && Lists(ca, Lit(v, false), pos) && Lists(ca, Lit(v, true), neg)
      ensures fits <==>
        Few(Kept(ca, pos, neg, v, |pos|, 0), total + grow)
        && AllShort(ca, pos, neg, v, Kept(ca, pos, neg, v, |pos|, 0), clauseLim)
    {
      hide DbOk, Lists, MergeLength, AllShort, NotClashing, Few, Kept, Proper, Mentions;
      var cnt := 0;
      KeptNone(ca, pos, neg, v, total + grow, clauseLim);
      for i := 0 to |pos|
        invariant cnt == |Kept(ca, pos, neg, v, i, 0)| && Few(Kept(ca, pos, neg, v, i, 0), total + grow)
        invariant AllShort(ca, pos, neg, v, Kept(ca, pos, neg, v, i, 0), clauseLim)
      {
        for j := 0 to |neg|
          invariant cnt == |Kept(ca, pos, neg, v, i, j)| && Few(Kept(ca, pos, neg, v, i, j), total + grow)
          invariant AllShort(ca, pos, neg, v, Kept(ca, pos, neg, v, i, j), clauseLim)
        {
          SidesOk(ca, |assigns|, pos, neg, v, i, j);
          KeptNext(ca, pos, neg, v, i, j);
          ClashKnown(ca, pos[i], neg[j], v);
          var r, size := MergeSize(ca[pos[i]].lits, ca[neg[j]].lits, v);
          if r {
            cnt := cnt + 1;
            KeptJudged(ca, pos, neg, v, i, j, size, clauseLim, total + grow);
            if cnt > total + grow || (clauseLim != -1 && size > clauseLim) { return false; }
          }
        }
        KeptRow(ca, pos, neg, v, i);
      }
      fits := true;
    }

    /** Adds all resolvents on v. */
    method AddResolvents(pos: seq<nat>, neg: seq<nat>, v: nat, ghost es0: seq<Elim>) returns (r: bool)
      requires Db() && Clean(ca, es0) && Lists(ca, Lit(v, false), pos) && Lists(ca, Lit(v, true), neg)
      modifies `assigns, `trail, `ca, `occurs, `subsumptionQueue
      ensures Db() && Grown(old(ca), old(trail), ca, trail) && |assigns| == old(|assigns|)
      ensures r ==> PairsCovered(old(ca), pos, neg, v, |pos|, 0, ca, trail) && NewClean(old(ca), ca, es0, v)
      ensures r ==> Preserves(old(ca), old(trail), ca, trail)
      ensures !r ==> NoModels(old(ca), old(trail))
    {
      hide AssignsOk, DbOk, OccursOk, Clean, Preserves, PairsCovered, NewClean, NoModels, Lists;
      ghost var ca0, t0 := ca, trail;
      PairsStart(ca0, pos, neg, v, ca, trail);
      NothingNew(ca0, t0, es0, v);
      for i := 0 to |pos|
        invariant Db() && Grown(ca0, t0, ca, trail) && |assigns| == old(|assigns|)
        invariant PairsCovered(ca0, pos, neg, v, i, 0, ca, trail) && NewClean(ca0, ca, es0, v)
        invariant Preserves(ca0, t0, ca, trail)
      {
        for j := 0 to |neg|
          invariant Db() && Grown(ca0, t0, ca, trail) && |assigns| == old(|assigns|)
          invariant PairsCovered(ca0, pos, neg, v, i, j, ca, trail) && NewClean(ca0, ca, es0, v)
          invariant Preserves(ca0, t0, ca, trail)
        {
          r := AddResolvent(ca0, t0, pos, neg, v, i, j, es0);
          if !r { return; }
        }
        PairsRow(ca0, pos, neg, v, i, ca, trail);
      }
      r := true;
    }

    method AddResolvent(ghost ca0: Db, ghost t0: seq<Lit>, pos: seq<nat>, neg: seq<nat>, v: nat, i: nat, j: nat,
        ghost es0: seq<Elim>)
      returns (r: bool)
      requires Db() && Grown(ca0, t0, ca, trail) && DbOk(ca0, |assigns|) && Clean(ca0, es0) && i < |pos| && j < |neg|
      requires Lists(ca0, Lit(v, false), pos) && Lists(ca0, Lit(v, true), neg)
      requires PairsCovered(ca0, pos, neg, v, i, j, ca, trail) && NewClean(ca0, ca, es0, v)
      requires Preserves(ca0, t0, ca, trail)
      modifies `assigns, `trail, `ca, `occurs, `subsumptionQueue
      ensures Db() && Grown(ca0, t0, ca, trail) && |assigns| == old(|assigns|)
      ensures r ==>
        PairsCovered(ca0, pos, neg, v, i, j + 1, ca, trail) && NewClean(ca0, ca, es0, v)
        && Preserves(ca0, t0, ca, trail)
      ensures !r ==> NoModels(ca0, t0)
    {
      hide AssignsOk, DbOk, OccursOk, Clean, PairsCovered, NewClean, Clash, IsMerge, NoModels, Covered, SatClause;
      hide DbSat;
      SidesKept(ca0, ca, |assigns|, pos, neg, v, i, j);
      ghost var ca1, t1 := ca, trail;
      var ok1, resolvent := Merge(ca[pos[i]].lits, ca[neg[j]].lits, v);
      if !ok1 {
        PairsNext(ca0, pos, neg, v, i, j, ca, trail, ca, trail);
        return true;
      }
      ResolventFacts(ca0, |assigns|, pos, neg, v, i, j, resolvent, es0);
      forall a: Assignment | DbSat(a, ca0, t0)
        ensures SatClause(a, resolvent)
      {
        ResolventSat(a, ca0, t0, |assigns|, pos, neg, v, i, j, resolvent);
      }
      r := AddClauseInternal(resolvent);
      GrownTrans(ca0, t0, ca1, t1, ca, trail);
      if !r {
        NoModelsIntro(ca0, t0);
        return;
      }
      TakenCovered(resolvent, ca, trail);
      NewCleanMore(ca0, ca1, ca, es0, v, resolvent);
      PairsNext(ca0, pos, neg, v, i, j, ca1, t1, ca, trail);
    }

    /** Deletes the clauses listed. */
    method RemoveAll(cs: seq<nat>)
      requires Db() && forall k :: k in cs ==> k < |ca|
      modifies `ca
      ensures Db() && Deleted(old(ca), ca, cs)
    {
      hide AssignsOk, DbOk, OccursOk;
      for i := 0 to |cs|
        invariant Db() && Deleted(old(ca), ca, cs[..i])
      {
        assert cs[i] in cs;
        assert cs[..i + 1] == cs[..i] + [cs[i]];
        DeleteOk(occurs, ca, |assigns|, cs[i], []);
        if !ca[cs[i]].mark { RemoveClause(cs[i]); }
      }
      assert cs[..|cs|] == cs;
    }

    /** The invariant between calls. */
    ghost predicate Valid()
      reads this
    {
      && Db() && Log() && Clean(ca, es) && VarsBelowAll(added, |assigns|) && |decision| == |assigns|
      && if ok then Rebuilds(ca, trail, es, added) && Follows(ca, trail, added)
        else (forall a: Assignment :: !SatAll(a, added))
    }

    /**
     * Eliminates a variable, unless its resolvents exceed the limits. Models of what is left still rebuild to models of
     * all clauses added; false reports that these have none.
     */
    method EliminateVar(v: nat) returns (r: bool)
      requires Valid() && ok && v < |assigns| && !eliminated[v] && assigns[v] == Undef
      modifies this
      ensures added == old(added) && |assigns| == old(|assigns|)
      ensures r ==> Valid() && ok && ElimStep(old(es), es, v) && (eliminated[v] <==> es != old(es))
      ensures r && !eliminated[v] ==> ca == old(ca) && trail == old(trail)
      ensures r && old(Idle()) ==> Idle()
      ensures r ==> Decided(old(ca), v, grow, clauseLim, eliminated[v])
      ensures !r ==> forall a: Assignment :: !SatAll(a, added)
    {
      hide AssignsOk, DbOk, OccursOk, Clean, VarsBelowAll, Rebuilds, Follows, SatAll, LogOk, Pack, Entries, Eliminated;
      hide Lists, NoModels, ElimOk, StoresSide, AllShort, Few, Kept, NoDup, Decided;
      var cls := Lookup(v);
      var pos, neg := Split(cls, v);
      var fits := WithinLimits(pos, neg, v, |cls|);
      DecidedBy(ca, v, pos, neg, grow, clauseLim, fits);
      if !fits { return true; }
      ghost var es0 := es;
      LogElimination(v, pos, neg);
      r := ResolveAndSubsume(v, cls, pos, neg, es0, es[|es0|]);
    }

    method ResolveAndSubsume(v: nat, cls: seq<nat>, pos: seq<nat>, neg: seq<nat>, ghost es0: seq<Elim>, ghost e: Elim)
      returns (r: bool)
      requires Db() && v < |assigns| && assigns[v] == Undef && es == es0 + [e] && Clean(ca, es0) && e.v == v
      requires ElimOk(e) && StoresSide(e, ca)
      requires Rebuilds(ca, trail, es0, added) && Follows(ca, trail, added)
      requires Lists(ca, Lit(v, false), pos) && Lists(ca, Lit(v, true), neg)
      requires forall k: nat :: k in cls <==> k < |ca| && !ca[k].mark && Mentions(ca[k].lits, v)
      modifies `assigns, `trail, `ca, `occurs, `subsumptionQueue, `bwdsubAssigns
      ensures |assigns| == old(|assigns|) && (r ==> Idle())
      ensures r ==> Db() && Clean(ca, es) && Rebuilds(ca, trail, es, added) && Follows(ca, trail, added)
      ensures !r ==> forall a: Assignment :: !SatAll(a, added)
    {
      hide AssignsOk, DbOk, OccursOk, Clean, Rebuilds, Follows, SatAll, Lists, NoModels, ElimOk, StoresSide, Mentions;
      r := Resolve(v, cls, pos, neg, es0, e);
      if !r { return; }
      ghost var ca1, t1 := ca, trail;
      r := BackwardSubsumptionCheck();
      if r { SimplifiesKeeps(ca1, t1, ca, trail, es, added); } else { FollowsNone(ca1, t1, added); }
    }

    /** Marks the variable as eliminated and writes the smaller side, with the default for the other, to the log. */
    method LogElimination(v: nat, pos: seq<nat>, neg: seq<nat>)
      requires Log() && DbOk(ca, |assigns|) && Clean(ca, es) && v < |assigns| && |decision| == |assigns|
      requires !eliminated[v]
      requires Lists(ca, Lit(v, false), pos) && Lists(ca, Lit(v, true), neg)
      modifies `eliminated, `decision, `elimclauses, `es
      ensures Log() && |decision| == |assigns| && |es| == |old(es)| + 1 && es == old(es) + [es[|old(es)|]]
      ensures eliminated == old(eliminated)[v := true] && decision == old(decision)[v := false]
      ensures var e := es[|old(es)|]; e.v == v && ElimOk(e) && StoresSide(e, ca) && e.dflt.s == (|pos| <= |neg|)
    {
      hide DbOk, Clean, Lists, StoredFrom, LogOk, Pack, Entries, StoresSide, ElimOk;
      eliminated := eliminated[v := true];
      decision := decision[v := false];
      ghost var entries, stored := Entries(es), [];
      var x;
      if |pos| > |neg| {
        stored := StoreSide(neg, Lit(v, true), entries);
        x := Lit(v, false);
      } else {
        stored := StoreSide(pos, Lit(v, false), entries);
        x := Lit(v, true);
      }
      MkElimUnit(x);
      ghost var e := Elim(v, stored, x);
      PackSnoc(entries + stored, [x]);
      EntriesMore(es, e);
      StoredSide(ca, if |pos| > |neg| then neg else pos, Neg(x), e);
      LogMore(es, |assigns|, e, ca, if |pos| > |neg| then neg else pos, Neg(x));
      EliminatedMore(es, e);
      es := es + [e];
    }

    /** Adds the resolvents and deletes the clauses with the variable. */
    method Resolve(v: nat, cls: seq<nat>, pos: seq<nat>, neg: seq<nat>, ghost es0: seq<Elim>, ghost e: Elim)
      returns (r: bool)
      requires Db() && v < |assigns| && assigns[v] == Undef && es == es0 + [e] && Clean(ca, es0) && e.v == v
      requires ElimOk(e) && StoresSide(e, ca)
      requires Rebuilds(ca, trail, es0, added) && Follows(ca, trail, added)
      requires Lists(ca, Lit(v, false), pos) && Lists(ca, Lit(v, true), neg)
      requires forall k: nat :: k in cls <==> k < |ca| && !ca[k].mark && Mentions(ca[k].lits, v)
      modifies `assigns, `trail, `ca, `occurs, `subsumptionQueue
      ensures |assigns| == old(|assigns|)
      ensures r ==> Db() && Clean(ca, es) && Rebuilds(ca, trail, es, added) && Follows(ca, trail, added)
      ensures !r ==> forall a: Assignment :: !SatAll(a, added)
    {
      hide AssignsOk, DbOk, OccursOk, Clean, Rebuilds, Follows, SatAll, Lists, PairsCovered, NewClean, Preserves;
      hide NoModels, ElimOk, StoresSide, Eliminates, Deleted, Mentions;
      ghost var ca0, t0 := ca, trail;
      NoFact(assigns, trail, v);
      DbProper(ca, |assigns|);
      r := AddResolvents(pos, neg, v, es0);
      if !r {
        FollowsNone(ca0, t0, added);
        return;
      }
      ghost var ca1 := ca;
      RemoveAll(cls);
      RemovalEliminates(ca0, t0, ca1, trail, ca, pos, neg, cls, v, es0);
      RemovalClean(ca0, ca1, ca, cls, v, es0, e);
      RemovalPreserves(ca0, t0, ca1, trail, ca, cls);
      ElimKeeps(ca0, t0, ca, trail, es0, e, added);
      FollowsOn(ca0, t0, ca, trail, added);
      GoneClear(ca, es, e, v);
      ClearOk(occurs, ca, v);
      occurs := occurs[v := []];
    }

    // ---------------------------------------------------------------- the user's view

    constructor (grow: int, clauseLim: int, subsumptionLim: int)
      ensures Valid() && ok && added == [] && es == [] && |assigns| == 0
      ensures this.grow == grow && this.clauseLim == clauseLim && this.subsumptionLim == subsumptionLim
    {
      this.grow, this.clauseLim, this.subsumptionLim := grow, clauseLim, subsumptionLim;
      ok, ca, trail, assigns, occurs := true, [], [], [], [];
      subsumptionQueue, bwdsubAssigns, elimclauses, eliminated := [], 0, [], [];
      decision, model, es, added := [], [], [], [];
    }

    /** A fresh variable. */
    method NewVar() returns (v: nat)
      requires Valid()
      modifies this
      ensures Valid() && v == old(|assigns|) && |assigns| == v + 1 && added == old(added) && ok == old(ok)
      ensures !eliminated[v]
    {
      hide Clean, Rebuilds, Follows, SatAll, Pack, Entries;
      GrowOk(assigns, trail, ca, occurs, es, eliminated, added);
      v := |assigns|;
      assigns, occurs, eliminated, decision := assigns + [Undef], occurs + [[]], eliminated + [false],
        decision + [true];
    }

    /** Adds a clause over variables that have not been eliminated. */
    method AddClause(ps: seq<Lit>) returns (r: bool)
      requires Valid() && forall p :: p in ps ==> p.v < |assigns| && !eliminated[p.v]
      modifies this
      ensures Valid() && added == old(added) + [ps] && |assigns| == old(|assigns|) && r == ok
    {
      hide AssignsOk, DbOk, OccursOk, Clean, Rebuilds, Follows, SatAll, LogOk, Pack, Entries, Covered, DbSat, RestSat;
      AddedBelow(added, ps, |assigns|);
      if !ok {
        NoneMore(added, ps);
        added := added + [ps];
        return false;
      }
      ghost var ca0, t0 := ca, trail;
      r := AddClauseInternal(ps);
      if r {
        forall a: Assignment | RestSat(a, ca, trail, es) ensures RestSat(a, ca0, t0, es) && SatClause(a, ps) {
          GrownSat(a, ca0, t0, ca, trail, es);
          TakenSat(a, ps, ca, trail, es);
        }
        LogElims(es, |assigns|);
        AddKeeps(ca0, t0, ca, trail, es, added, ps);
        CleanMore(ca0, ca, es, ps);
      } else {
        AddedNone(ca0, t0, added, ps);
        ok := false;
      }
      added := added + [ps];
      if !ok { CleanMore(ca0, ca, es, ps); }
    }

    /** Queues the touched clauses, whichever they are, for the next check. */
    method GatherTouched(touched: seq<nat>)
      requires Db()
      modifies `subsumptionQueue
      ensures Db()
    {
      for i := 0 to |touched|
        invariant Db()
      {
        if touched[i] < |ca| && !ca[touched[i]].mark { subsumptionQueue := subsumptionQueue + [touched[i]]; }
      }
    }

    /**
     * Rounds of subsumption and elimination; which clauses are touched and in which order variables come is free.
     * False, and ok cleared, if the clauses have no model.
     */
    method Eliminate(rounds: seq<(seq<nat>, seq<nat>)>, frozen: set<nat>) returns (r: bool)
      requires Valid() && ok
      modifies this
      ensures |assigns| == old(|assigns|) && added == old(added)
      ensures r ==> Valid() && ok && forall v :: v in frozen && v < |assigns| ==>
        (Eliminated(es, v) <==> Eliminated(old(es), v))
      ensures r && |rounds| > 0 ==>
        Idle() && (rounds[|rounds| - 1].1 != [] ==> LastTried(rounds[|rounds| - 1].1, frozen))
      ensures !r ==> forall a: Assignment :: !SatAll(a, added)
    {
      hide Valid, SatAll, Eliminated, LastTried;
      for i := 0 to |rounds|
        invariant Valid() && ok && |assigns| == old(|assigns|) && added == old(added)
        invariant i > 0 ==> Idle() && (rounds[i - 1].1 != [] ==> LastTried(rounds[i - 1].1, frozen))
        invariant forall v :: v in frozen && v < |assigns| ==> (Eliminated(es, v) <==> Eliminated(old(es), v))
      {
        r := EliminateRound(rounds[i].0, rounds[i].1, frozen);
        if !r { return; }
      }
      r := true;
    }

    /** No clause or root fact waits to be used for subsumption. */
    ghost predicate Idle()
      reads `subsumptionQueue, `bwdsubAssigns, `trail
    {
      subsumptionQueue == [] && bwdsubAssigns == |trail|
    }

    /** The last variable of the order, if it is still there, exceeds the limits. */
    ghost predicate LastTried(order: seq<nat>, frozen: set<nat>)
      requires order != []
      reads this
    {
      var v := order[|order| - 1];
      v < |assigns| && |eliminated| == |assigns| && !eliminated[v] && assigns[v] == Undef && v !in frozen ==>
        Decided(ca, v, grow, clauseLim, false)
    }

    method EliminateRound(touched: seq<nat>, order: seq<nat>, frozen: set<nat>) returns (r: bool)
      requires Valid() && ok
      modifies this
      ensures |assigns| == old(|assigns|) && added == old(added)
      ensures r ==> Valid() && ok && forall v :: v in frozen && v < |assigns| ==>
        (Eliminated(es, v) <==> Eliminated(old(es), v))
      ensures r ==> Idle() && (order != [] ==> LastTried(order, frozen))
      ensures !r ==> forall a: Assignment :: !SatAll(a, added)
    {
      hide AssignsOk, DbOk, OccursOk, Clean, VarsBelowAll, Rebuilds, Follows, SatAll, LogOk, Pack, Entries, NoModels;
      hide Eliminated, Decided;
      ghost var ca1, t1 := ca, trail;
      GatherTouched(touched);
      r := BackwardSubsumptionCheck();
      if !r {
        FollowsNone(ca1, t1, added);
        ok := false;
        return;
      }
      SimplifiesKeeps(ca1, t1, ca, trail, es, added);
      for i := 0 to |order|
        invariant Valid() && ok && |assigns| == old(|assigns|) && added == old(added)
        invariant forall v :: v in frozen && v < |assigns| ==> (Eliminated(es, v) <==> Eliminated(old(es), v))
        invariant Idle() && (i > 0 ==> LastTried(order[..i], frozen))
      {
        assert order[..i + 1] == order[..i] + [order[i]];
        var v := order[i];
        if v < |assigns| && !eliminated[v] && assigns[v] == Undef && v !in frozen {
          ghost var es1 := es;
          r := EliminateVar(v);
          if !r {
            ok := false;
            return;
          }
          if es != es1 { EliminatedMore(es1, es[|es1|]); assert es == es1 + [es[|es1|]]; }
        }
      }
      assert order[..|order|] == order;
      r := true;
    }

    /** Reads the packed log backwards. */
    method ExtendModel()
      requires elimclauses == Pack(Entries(es)) && |model| == |assigns| && LogOk(es, |assigns|)
      modifies `model
      ensures model == ReadBack(old(model), Entries(es))
    {
      hide LogOk, Entries, Pack, ReadBack, ReadEntry, Codes;
      ghost var entries := Entries(es);
      EntriesShape(es, |assigns|);
      ghost var t: nat := |entries|;
      assert entries[..t] == entries;
      var i: int := |elimclauses| - 1;
      PackLength(entries, t);
      while i > 0
        invariant t <= |entries| && i == |Pack(entries[..t])| - 1 && |model| == |assigns| && (t > 0 ==> i > 0)
        invariant ReadBack(model, entries[..t]) == ReadBack(old(model), entries)
        decreases t
      {
        if t == 0 { PackNone(entries); }
        PackedEntry(entries, t);
        i := ReadEntryAt(i, |Pack(entries[..t - 1])|, entries[t - 1]);
        ReadBackLast(model, old(model), entries, t);
        t := t - 1;
        PackLength(entries, t);
      }
      ReadBackNone(model, entries);
    }

    /** Reads the entry that ends at index i0; returns the index before it. */
    method ReadEntryAt(i0: nat, ghost s: nat, ghost c: seq<Lit>) returns (i: int)
      requires PackedAt(elimclauses, s, c) && i0 == s + |c| && |c| >= 1 && c[0].v < |model|
      modifies `model
      ensures i == s - 1 && model == ReadEntry(old(model), c) && |model| == |old(model)|
    {
      i := i0;
      var j := elimclauses[i];
      i := i - 1;
      var skip := false;
      while j > 1 && !skip
        invariant 1 <= j <= |c| && i == s + j - 1 && model == old(model)
        invariant forall k :: j <= k < |c| ==> Val(model, c[k]) == False
        invariant skip ==> Held(model, c)
        decreases j, !skip
      {
        LitRoundTrip(c[j - 1], 0);
        assert elimclauses[s + (j - 1)] == ToInt(c[j - 1]);
        if Val(model, ToLit(elimclauses[i])) != False {
          skip := true;
        } else {
          j := j - 1;
          i := i - 1;
        }
      }
      if !skip {
        LitRoundTrip(c[0], 0);
        assert elimclauses[s + 0] == ToInt(c[0]);
        var x := ToLit(elimclauses[i]);
        model := model[x.v := if x.s then False else True];
      }
      i := i - j;
    }

    /** After a search that found a model of what is left, the extended model satisfies every clause added. */
    method ExtendFound()
      requires Valid() && ok && |model| == |assigns| && Known(model, es) && RestSat(ToA(model), ca, trail, es)
      modifies `model
      ensures Valid() && |model| == |assigns| && (forall v: nat :: v < |model| ==> model[v] != Undef)
      ensures SatAll(ToA(model), added)
    {
      hide AssignsOk, DbOk, OccursOk, Clean, VarsBelowAll, Rebuilds, Follows, SatAll, LogOk, Pack, Entries, ReadBack;
      hide RestSat, Known;
      ModelExtends(model, ca, trail, es, added, |assigns|);
      ExtendModel();
    }

    /** The search below: a solver for what is left, over the same variables; eliminated ones are not for decisions. */
    method Handover() returns (s: Cdcl.Solver)
      requires Valid()
      ensures fresh(s) && s.Valid() && |s.assigns| == |assigns| && Deciding(s.decision, eliminated)
      ensures forall a: Assignment :: SatAll(a, s.formula) <==> RestSat(a, ca, trail, es)
      ensures Spares(s.formula, eliminated)
    {
      hide AssignsOk, DbOk, OccursOk, Clean, VarsBelowAll, Rebuilds, Follows, SatAll, LogOk, Pack, Entries, RestPart;
      hide Cdcl.Solver.Valid, Spares, Deciding;
      s := HandVars();
      HandUnits(s);
      HandClauses(s);
      forall a: Assignment ensures RestPart(a, ca, trail, es, |ca|, |trail|) <==> RestSat(a, ca, trail, es) {
        RestFull(a, ca, trail, es);
      }
    }

    method HandVars() returns (s: Cdcl.Solver)
      requires Valid()
      ensures fresh(s) && s.Valid() && |s.assigns| == |assigns| && Deciding(s.decision, eliminated) && s.formula == []
    {
      hide AssignsOk, DbOk, OccursOk, Clean, VarsBelowAll, Rebuilds, Follows, SatAll, LogOk, Pack, Entries, RestPart;
      hide Cdcl.Solver.Valid, Spares;
      s := new Cdcl.Solver();
      for v := 0 to |assigns|
        invariant fresh(s) && s.Valid() && |s.assigns| == |s.decision| == v && s.formula == []
        invariant forall u: nat :: u < v ==> s.decision[u] == !eliminated[u]
      {
        var w := s.NewVar(true, !eliminated[v]);
      }
    }

    /** The root facts, but for those of eliminated variables. */
    method HandUnits(s: Cdcl.Solver)
      requires Valid() && s.Valid() && |s.assigns| == |assigns| && s.formula == []
      modifies s
      ensures s.Valid() && |s.assigns| == |assigns| && s.decision == old(s.decision)
      ensures forall a: Assignment :: SatAll(a, s.formula) <==> RestPart(a, ca, trail, es, 0, |trail|)
      ensures Spares(s.formula, eliminated)
    {
      hide AssignsOk, DbOk, OccursOk, Clean, VarsBelowAll, Rebuilds, Follows, SatAll, LogOk, Pack, Entries, RestPart;
      hide Cdcl.Solver.Valid, Spares, Deciding, Valid;
      RestNone(ca, trail, es);
      SparesNone(eliminated);
      for k := 0 to |trail|
        invariant s.Valid() && |s.assigns| == |assigns| && s.decision == old(s.decision)
        invariant forall a: Assignment :: SatAll(a, s.formula) <==> RestPart(a, ca, trail, es, 0, k)
        invariant Spares(s.formula, eliminated)
      {
        HandUnit(s, k);
      }
    }

    method HandUnit(s: Cdcl.Solver, k: nat)
      requires Valid() && s.Valid() && |s.assigns| == |assigns| && k < |trail| && Spares(s.formula, eliminated)
      requires forall a: Assignment :: SatAll(a, s.formula) <==> RestPart(a, ca, trail, es, 0, k)
      modifies s
      ensures s.Valid() && |s.assigns| == |assigns| && s.decision == old(s.decision)
      ensures forall a: Assignment :: SatAll(a, s.formula) <==> RestPart(a, ca, trail, es, 0, k + 1)
      ensures Spares(s.formula, eliminated)
    {
      hide AssignsOk, DbOk, OccursOk, Clean, VarsBelowAll, Rebuilds, Follows, SatAll, LogOk, Pack, Entries, RestPart;
      hide Cdcl.Solver.Valid, Spares, Deciding;
      TrailVar(assigns, trail, k);
      ghost var f := s.formula;
      if !eliminated[trail[k].v] {
        SparesMore(f, [trail[k]], eliminated);
        var r := s.AddClause([trail[k]]);
      }
      RestUnit(f, s.formula, ca, trail, es, k);
    }

    /** The live clauses. */
    method HandClauses(s: Cdcl.Solver)
      requires Valid() && s.Valid() && |s.assigns| == |assigns| && Spares(s.formula, eliminated)
      requires forall a: Assignment :: SatAll(a, s.formula) <==> RestPart(a, ca, trail, es, 0, |trail|)
      modifies s
      ensures s.Valid() && |s.assigns| == |assigns| && s.decision == old(s.decision)
      ensures forall a: Assignment :: SatAll(a, s.formula) <==> RestPart(a, ca, trail, es, |ca|, |trail|)
      ensures Spares(s.formula, eliminated)
    {
      hide AssignsOk, DbOk, OccursOk, Clean, VarsBelowAll, Rebuilds, Follows, SatAll, LogOk, Pack, Entries, RestPart;
      hide Cdcl.Solver.Valid, Spares, Deciding, Valid;
      for k := 0 to |ca|
        invariant s.Valid() && |s.assigns| == |assigns| && s.decision == old(s.decision)
        invariant forall a: Assignment :: SatAll(a, s.formula) <==> RestPart(a, ca, trail, es, k, |trail|)
        invariant Spares(s.formula, eliminated)
      {
        HandClause(s, k);
      }
    }

    method HandClause(s: Cdcl.Solver, k: nat)
      requires Valid() && s.Valid() && |s.assigns| == |assigns| && k < |ca| && Spares(s.formula, eliminated)
      requires forall a: Assignment :: SatAll(a, s.formula) <==> RestPart(a, ca, trail, es, k, |trail|)
      modifies s
      ensures s.Valid() && |s.assigns| == |assigns| && s.decision == old(s.decision)
      ensures forall a: Assignment :: SatAll(a, s.formula) <==> RestPart(a, ca, trail, es, k + 1, |trail|)
      ensures Spares(s.formula, eliminated)
    {
      hide AssignsOk, DbOk, OccursOk, Clean, VarsBelowAll, Rebuilds, Follows, SatAll, LogOk, Pack, Entries, RestPart;
      hide Cdcl.Solver.Valid, Spares, Deciding;
      ghost var f := s.formula;
      if !ca[k].mark {
        LiveVars(ca, k, |assigns|);
        CleanSpares(ca, es, k, eliminated);
        SparesMore(f, ca[k].lits, eliminated);
        var r := s.AddClause(ca[k].lits);
      }
      RestClause(f, s.formula, ca, trail, es, k);
    }

    /** Eliminates, searches what is left within a budget of conflicts, and extends the model found. */
    method Solve(rounds: seq<(seq<nat>, seq<nat>)>, frozen: set<nat>, budget: nat)
      returns (status: LBool, ghost below: Cdcl.Solver?)
      requires Valid()
      modifies this
      ensures |assigns| == old(|assigns|) && added == old(added)
      ensures status == False ==> forall a: Assignment :: !SatAll(a, added)
      ensures status == True ==>
        Valid() && |model| == |assigns| && (forall v: nat :: v < |model| ==> model[v] != Undef)
        && SatAll(ToA(model), added)
      ensures status == Undef ==> Valid() && ok && below != null && fresh(below) && below.conflicts >= budget
    {
      hide AssignsOk, DbOk, OccursOk, Clean, VarsBelowAll, Rebuilds, SatAll, LogOk, Pack, Entries, RestSat, Eliminated;
      hide Known, Cdcl.Solver.Valid, Mentioned;
      below := null;
      if !ok { return False, null; }
      var r := Eliminate(rounds, frozen);
      if !r { return False, null; }
      var s := Handover();
      below := s;
      status := s.Solve(budget);
      if status == False {
        forall a: Assignment ensures !SatAll(a, added) {
          if SatAll(a, added) { RestFollows(a, ca, trail, es); }
        }
        ok := false;
      } else if status == True {
        model := seq(|assigns|,
          (v: nat) requires v < |assigns| && |s.model| == |assigns| == |eliminated| reads this, s =>
            if eliminated[v] then Undef else s.model[v]);
        RestModel(s.model, model, s.formula, ca, trail, es);
        ExtendFound();
      }
    }
  }

  /** The variables not eliminated are those for decisions. */
  predicate Deciding(decision: seq<bool>, eliminated: seq<bool>) {
    |decision| == |eliminated| && forall v: nat :: v < |decision| ==> decision[v] == !eliminated[v]
  }

  /** No eliminated variable occurs. */
  ghost predicate Spares(f: seq<seq<Lit>>, eliminated: seq<bool>) {
    forall v: nat :: Mentioned(f, v) ==> v < |eliminated| && !eliminated[v]
  }

  lemma SparesNone(eliminated: seq<bool>)
    ensures Spares([], eliminated)
  {}

  lemma SparesMore(f: seq<seq<Lit>>, c: seq<Lit>, eliminated: seq<bool>)
    requires Spares(f, eliminated) && forall q :: q in c ==> q.v < |eliminated| && !eliminated[q.v]
    ensures Spares(f + [c], eliminated)
  {
    forall v: nat | Mentioned(f + [c], v) ensures v < |eliminated| && !eliminated[v] {
      var d, q :| d in f + [c] && q in d && q.v == v;
      assert d in f ==> Mentioned(f, v);
    }
  }

  lemma CleanSpares(ca: Db, es: seq<Elim>, k: nat, eliminated: seq<bool>)
    requires Clean(ca, es) && k < |ca| && !ca[k].mark && forall q :: q in ca[k].lits ==> q.v < |eliminated|
    requires forall v: nat :: v < |eliminated| ==> (eliminated[v] <==> Eliminated(es, v))
    ensures forall q :: q in ca[k].lits ==> !eliminated[q.v]
  {
    forall q | q in ca[k].lits ensures !eliminated[q.v] { NotEliminated(ca, es, k, q); }
  }

  /** Nothing, or one more elimination. */
  ghost predicate ElimStep(es: seq<Elim>, es': seq<Elim>, v: nat) {
    es' == es || (|es'| == |es| + 1 && es'[..|es|] == es && es'[|es|].v == v)
  }

  ghost predicate PackedAt(log: seq<nat>, s: nat, c: seq<Lit>) {
    s + |c| < |log| && log[s + |c|] == |c| && forall k :: 0 <= k < |c| ==> log[s + k] == ToInt(c[k])
  }

  lemma {:induction false} PackPrefix(entries: seq<seq<Lit>>, t: nat)
    requires t <= |entries|
    ensures Pack(entries[..t]) <= Pack(entries)
  {
    PackJoin(entries[..t], entries[t..]);
    assert entries[..t] + entries[t..] == entries;
  }

  lemma PackedEntry(entries: seq<seq<Lit>>, t: nat)
    requires 1 <= t <= |entries|
    ensures PackedAt(Pack(entries), |Pack(entries[..t - 1])|, entries[t - 1])
    ensures |Pack(entries[..t])| == |Pack(entries[..t - 1])| + |entries[t - 1]| + 1
  {
    PackPrefix(entries, t);
    var c := entries[t - 1];
    assert entries[..t] == entries[..t - 1] + [c];
    PackSnoc(entries[..t - 1], c);
    var log, s := Pack(entries[..t]), |Pack(entries[..t - 1])|;
    assert log[s + |c|] == |c|;
    forall k | 0 <= k < |c| ensures Pack(entries)[s + k] == ToInt(c[k]) { assert log[s + k] == Codes(c)[k]; }
  }

  lemma PackLength(entries: seq<seq<Lit>>, t: nat)
    requires t <= |entries| && forall k :: 0 <= k < |entries| ==> |entries[k]| >= 1
    ensures t > 0 ==> |Pack(entries[..t])| >= 2
  {
    if t > 0 { PackedEntry(entries, t); }
  }

  lemma PackNone(entries: seq<seq<Lit>>)
    ensures Pack(entries[..0]) == []
  {}

  lemma ReadBackLast(m': seq<LBool>, m: seq<LBool>, entries: seq<seq<Lit>>, t: nat)
    requires 1 <= t <= |entries|
    ensures forall m1 :: m' == ReadEntry(m1, entries[t - 1]) ==>
      ReadBack(m', entries[..t - 1]) == ReadBack(m1, entries[..t])
  {
    assert entries[..t][..t - 1] == entries[..t - 1];
  }

  lemma ReadBackNone(m: seq<LBool>, entries: seq<seq<Lit>>)
    ensures ReadBack(m, entries[..0]) == m
  {}

  lemma {:induction false} EntriesShape(es: seq<Elim>, n: nat)
    requires LogOk(es, n)
    ensures forall k :: 0 <= k < |Entries(es)| ==> |Entries(es)[k]| >= 1 && Entries(es)[k][0].v < n
  {
    if es != [] {
      var i := |es| - 1;
      LogPrefix(es, n, i);
      EntriesShape(es[..i], n);
      var f := Entries(es[..i]);
      forall k | 0 <= k < |Entries(es)| ensures |Entries(es)[k]| >= 1 && Entries(es)[k][0].v < n {
        if k < |f| {
          assert Entries(es)[k] == f[k];
        } else if k < |f| + |es[i].stored| {
          assert Entries(es)[k] == es[i].stored[k - |f|];
        } else {
          assert Entries(es)[k] == [es[i].dflt];
        }
      }
    }
  }

  // ---------------------------------------------------------------- facts used by the methods above

  lemma SplitSides(ca: Db, n: nat, cls: seq<nat>, v: nat, pos: seq<nat>, neg: seq<nat>)
    requires DbOk(ca, n) && forall k: nat :: k in cls <==> k < |ca| && !ca[k].mark && Mentions(ca[k].lits, v)
    requires forall k: nat :: k in pos <==> k in cls && k < |ca| && Lit(v, false) in ca[k].lits
    requires forall k: nat :: k in neg <==> k in cls && k < |ca| && Lit(v, false) !in ca[k].lits
    ensures Lists(ca, Lit(v, false), pos) && Lists(ca, Lit(v, true), neg)
  {
    forall k: nat | k < |ca| && !ca[k].mark
      ensures Lit(v, false) in ca[k].lits ==> Mentions(ca[k].lits, v)
      ensures Mentions(ca[k].lits, v) && Lit(v, false) !in ca[k].lits <==> Lit(v, true) in ca[k].lits
    {
      LiveOk(ca, n, k);
      ProperOne(ca[k].lits, Lit(v, false));
      if Mentions(ca[k].lits, v) && Lit(v, false) !in ca[k].lits { MentionedSign(ca[k].lits, v, Lit(v, false)); }
      if Lit(v, false) in ca[k].lits { MentionedBy(ca[k].lits, Lit(v, false)); }
      if Lit(v, true) in ca[k].lits { MentionedBy(ca[k].lits, Lit(v, true)); }
    }
  }

  lemma MentionedBy(c: seq<Lit>, p: Lit)
    requires p in c
    ensures Mentions(c, p.v)
  {}

  lemma FirstIs(c: seq<Lit>, d: seq<Lit>, p: Lit)
    requires Proper(c) && p in c && SameLits(c, d) && |d| >= 1 && d[0].v == p.v
    ensures d[0] == p
  {
    assert d[0] in d;
    OneSign(c, p.v, d[0], p);
  }

  lemma FrontCodes(log: seq<nat>, c: seq<Lit>, k: nat)
    requires k < |c|
    ensures var l := log + Codes(c);
      l[|log| + k := l[|log|]][|log| := l[|log| + k]] == log + Codes(Front(c, k))
  {
    var l := log + Codes(c);
    var m := l[|log| + k := l[|log|]][|log| := l[|log| + k]];
    var w := log + Codes(Front(c, k));
    forall i | 0 <= i < |m| ensures m[i] == w[i] {}
  }

  ghost predicate NotClashing(ca: Db, k: nat, l: nat, v: nat) {
    k < |ca| && l < |ca| && !Clash(ca[k].lits, ca[l].lits, v)
  }

  /** The pairs of clauses before (i, j) that have a resolvent. */
  ghost function Kept(ca: Db, pos: seq<nat>, neg: seq<nat>, v: nat, i: nat, j: nat): set<(nat, nat)> {
    set x: nat, y: nat | x < |pos| && y < |neg| && (x < i || (x == i && y < j))
      && NotClashing(ca, pos[x], neg[y], v) :: (x, y)
  }

  /** No more than the limit, or none at all. */
  ghost predicate Few(s: set<(nat, nat)>, lim: int) { |s| <= lim || s == {} }

  /** All of these resolvents are within the limit on their length; -1 is no limit. */
  ghost predicate AllShort(ca: Db, pos: seq<nat>, neg: seq<nat>, v: nat, s: set<(nat, nat)>, lim: int) {
    lim != -1 ==> forall x, y, size :: (x, y) in s && HasLength(ca, pos, neg, v, x, y, size) ==> size <= lim
  }

  ghost predicate HasLength(ca: Db, pos: seq<nat>, neg: seq<nat>, v: nat, x: nat, y: nat, size: int) {
    x < |pos| && y < |neg| && pos[x] < |ca| && neg[y] < |ca| && MergeLength(ca[pos[x]].lits, ca[neg[y]].lits, v, size)
  }

  /** The resolvents of the two sides stay within the limits. */
  ghost predicate Fits(ca: Db, v: nat, pos: seq<nat>, neg: seq<nat>, grow: int, lim: int) {
    Few(Kept(ca, pos, neg, v, |pos|, 0), |pos| + |neg| + grow)
      && AllShort(ca, pos, neg, v, Kept(ca, pos, neg, v, |pos|, 0), lim)
  }

  /**
   * The variable is eliminated exactly if the resolvents of its two sides, each clause taken once, stay within the
   * limits.
   */
  ghost predicate Decided(ca: Db, v: nat, grow: int, lim: int, taken: bool) {
    exists pos, neg :: Sides(ca, v, pos, neg) && (taken <==> Fits(ca, v, pos, neg, grow, lim))
  }

  ghost predicate Sides(ca: Db, v: nat, pos: seq<nat>, neg: seq<nat>) {
    NoDup(pos) && NoDup(neg) && Lists(ca, Lit(v, false), pos) && Lists(ca, Lit(v, true), neg)
  }

  lemma DecidedBy(ca: Db, v: nat, pos: seq<nat>, neg: seq<nat>, grow: int, lim: int, taken: bool)
    requires NoDup(pos) && NoDup(neg) && Lists(ca, Lit(v, false), pos) && Lists(ca, Lit(v, true), neg)
    requires taken <==>
      Few(Kept(ca, pos, neg, v, |pos|, 0), |pos| + |neg| + grow)
      && AllShort(ca, pos, neg, v, Kept(ca, pos, neg, v, |pos|, 0), lim)
    ensures Decided(ca, v, grow, lim, taken)
  {
    hide NoDup, Lists, Few, AllShort, Kept;
    assert Sides(ca, v, pos, neg);
  }

  /** The length of a resolvent does not depend on how it is written. */
  lemma OneLength(p: seq<Lit>, q: seq<Lit>, v: nat, size: int, size': int)
    requires MergeLength(p, q, v, size) && MergeLength(p, q, v, size')
    ensures size == size'
  {
    var r: seq<Lit> :| IsMerge(p, q, v, r) && Proper(r) && |r| == size;
    var r': seq<Lit> :| IsMerge(p, q, v, r') && Proper(r') && |r'| == size';
    forall k | 0 <= k < |r| ensures Mentions(r', r[k].v) {
      assert r[k] in r;
      MentionedBy(r', r[k]);
    }
    forall k | 0 <= k < |r'| ensures Mentions(r, r'[k].v) {
      assert r'[k] in r';
      MentionedBy(r, r'[k]);
    }
    ProperSize(r, r');
    ProperSize(r', r);
  }

  lemma KeptNone(ca: Db, pos: seq<nat>, neg: seq<nat>, v: nat, few: int, lim: int)
    ensures Kept(ca, pos, neg, v, 0, 0) == {} && Few({}, few) && AllShort(ca, pos, neg, v, {}, lim)
  {}

  lemma ClashKnown(ca: Db, k: nat, l: nat, v: nat)
    requires k < |ca| && l < |ca|
    ensures NotClashing(ca, k, l, v) <==> !Clash(ca[k].lits, ca[l].lits, v)
  {}

  /** What one more resolvent does to the limits; exceeding one is final. */
  lemma KeptJudged(ca: Db, pos: seq<nat>, neg: seq<nat>, v: nat, i: nat, j: nat, size: int, lim: int, few: int)
    requires i < |pos| && j < |neg| && pos[i] < |ca| && neg[j] < |ca| && NotClashing(ca, pos[i], neg[j], v)
    requires MergeLength(ca[pos[i]].lits, ca[neg[j]].lits, v, size)
    requires AllShort(ca, pos, neg, v, Kept(ca, pos, neg, v, i, j), lim)
    ensures var s := Kept(ca, pos, neg, v, i, j + 1);
      && Few(s, few) == (|s| <= few)
      && (AllShort(ca, pos, neg, v, s, lim) <==> lim == -1 || size <= lim)
    ensures |Kept(ca, pos, neg, v, i, j + 1)| > few ==> !Few(Kept(ca, pos, neg, v, |pos|, 0), few)
    ensures lim != -1 && size > lim ==> !AllShort(ca, pos, neg, v, Kept(ca, pos, neg, v, |pos|, 0), lim)
  {
    hide NotClashing, MergeLength;
    KeptNext(ca, pos, neg, v, i, j);
    KeptGrows(ca, pos, neg, v, i, j);
    var s := Kept(ca, pos, neg, v, i, j + 1);
    assert (i, j) in s;
    assert HasLength(ca, pos, neg, v, i, j, size);
    forall x, y, n | (x, y) in s && HasLength(ca, pos, neg, v, x, y, n) && (lim != -1 ==> size <= lim) && lim != -1
      ensures n <= lim
    {
      if (x, y) == (i, j) {
        OneLength(ca[pos[i]].lits, ca[neg[j]].lits, v, n, size);
      } else {
        assert (x, y) in Kept(ca, pos, neg, v, i, j);
      }
    }
  }

  lemma SidesOk(ca: Db, n: nat, pos: seq<nat>, neg: seq<nat>, v: nat, i: nat, j: nat)
    requires DbOk(ca, n) && Lists(ca, Lit(v, false), pos) && Lists(ca, Lit(v, true), neg) && i < |pos| && j < |neg|
    ensures pos[i] < |ca| && neg[j] < |ca| && Proper(ca[pos[i]].lits) && Proper(ca[neg[j]].lits)
    ensures Lit(v, false) in ca[pos[i]].lits && Lit(v, true) in ca[neg[j]].lits && !ca[pos[i]].mark && !ca[neg[j]].mark
    ensures Mentions(ca[pos[i]].lits, v) && Mentions(ca[neg[j]].lits, v)
  {
    assert pos[i] in pos && neg[j] in neg;
    LiveOk(ca, n, pos[i]);
    LiveOk(ca, n, neg[j]);
    MentionedBy(ca[pos[i]].lits, Lit(v, false));
    MentionedBy(ca[neg[j]].lits, Lit(v, true));
  }

  lemma KeptNext(ca: Db, pos: seq<nat>, neg: seq<nat>, v: nat, i: nat, j: nat)
    requires i < |pos| && j < |neg| && pos[i] < |ca| && neg[j] < |ca|
    ensures Kept(ca, pos, neg, v, i, j + 1) == if NotClashing(ca, pos[i], neg[j], v)
      then Kept(ca, pos, neg, v, i, j) + {(i, j)} else Kept(ca, pos, neg, v, i, j)
    ensures (i, j) !in Kept(ca, pos, neg, v, i, j)
    ensures NotClashing(ca, pos[i], neg[j], v) ==>
      |Kept(ca, pos, neg, v, i, j + 1)| == |Kept(ca, pos, neg, v, i, j)| + 1
  {
    hide NotClashing;
    var s, t := Kept(ca, pos, neg, v, i, j), Kept(ca, pos, neg, v, i, j + 1);
    assert t == if NotClashing(ca, pos[i], neg[j], v) then s + {(i, j)} else s;
  }

  lemma KeptRow(ca: Db, pos: seq<nat>, neg: seq<nat>, v: nat, i: nat)
    ensures Kept(ca, pos, neg, v, i, |neg|) == Kept(ca, pos, neg, v, i + 1, 0)
  {}

  lemma KeptGrows(ca: Db, pos: seq<nat>, neg: seq<nat>, v: nat, i: nat, j: nat)
    requires i < |pos| && j < |neg|
    ensures Kept(ca, pos, neg, v, i, j + 1) <= Kept(ca, pos, neg, v, |pos|, 0)
    ensures |Kept(ca, pos, neg, v, i, j + 1)| <= |Kept(ca, pos, neg, v, |pos|, 0)|
  {
    SubsetCard(Kept(ca, pos, neg, v, i, j + 1), Kept(ca, pos, neg, v, |pos|, 0));
  }

  lemma NothingNew(ca: Db, trail: seq<Lit>, es: seq<Elim>, v: nat)
    ensures NewClean(ca, ca, es, v) && Preserves(ca, trail, ca, trail)
  {}

  /** The models before are models afterwards. */
  ghost predicate Preserves(ca: Db, trail: seq<Lit>, ca': Db, trail': seq<Lit>) {
    forall a: Assignment :: DbSat(a, ca, trail) ==> DbSat(a, ca', trail')
  }

  lemma SidesKept(ca0: Db, ca: Db, n: nat, pos: seq<nat>, neg: seq<nat>, v: nat, i: nat, j: nat)
    requires DbOk(ca0, n) && Lists(ca0, Lit(v, false), pos) && Lists(ca0, Lit(v, true), neg) && i < |pos| && j < |neg|
    requires ca0 <= ca
    ensures pos[i] < |ca0| && neg[j] < |ca0| && ca[pos[i]] == ca0[pos[i]] && ca[neg[j]] == ca0[neg[j]]
    ensures Proper(ca0[pos[i]].lits) && Proper(ca0[neg[j]].lits)
  {
    SidesOk(ca0, n, pos, neg, v, i, j);
  }

  lemma ResolventFacts(ca0: Db, n: nat, pos: seq<nat>, neg: seq<nat>, v: nat, i: nat, j: nat, r: seq<Lit>,
      es: seq<Elim>)
    requires DbOk(ca0, n) && Lists(ca0, Lit(v, false), pos) && Lists(ca0, Lit(v, true), neg) && i < |pos| && j < |neg|
    requires Clean(ca0, es)
    requires pos[i] < |ca0| && neg[j] < |ca0| && IsMerge(ca0[pos[i]].lits, ca0[neg[j]].lits, v, r)
    ensures forall l :: l in r ==> l.v < n && l.v != v && !Eliminated(es, l.v)
  {
    SidesOk(ca0, n, pos, neg, v, i, j);
    forall l | l in r ensures l.v < n && l.v != v && !Eliminated(es, l.v) {
      var k := if l in ca0[pos[i]].lits then pos[i] else neg[j];
      LiveBelow(ca0, n, k, l);
      NotEliminated(ca0, es, k, l);
    }
  }

  lemma ResolventSat(a: Assignment, ca0: Db, t0: seq<Lit>, n: nat, pos: seq<nat>, neg: seq<nat>, v: nat, i: nat,
      j: nat, r: seq<Lit>)
    requires DbOk(ca0, n) && Lists(ca0, Lit(v, false), pos) && Lists(ca0, Lit(v, true), neg) && i < |pos| && j < |neg|
    requires DbSat(a, ca0, t0)
    requires pos[i] < |ca0| && neg[j] < |ca0| && IsMerge(ca0[pos[i]].lits, ca0[neg[j]].lits, v, r)
    ensures SatClause(a, r)
  {
    hide IsMerge, SatClause;
    SidesOk(ca0, n, pos, neg, v, i, j);
    MergeEntailed(a, ca0[pos[i]].lits, ca0[neg[j]].lits, v, r);
  }

  lemma TakenCovered(r: seq<Lit>, ca: Db, trail: seq<Lit>)
    requires Proper(r) && (Covered(r, ca, trail) || exists l :: l in r && Neg(l) in r)
    ensures Covered(r, ca, trail)
  {
    if l :| l in r && Neg(l) in r { ProperOne(r, l); }
  }

  lemma NoFact(assigns: seq<LBool>, trail: seq<Lit>, v: nat)
    requires AssignsOk(assigns, trail) && v < |assigns| && assigns[v] == Undef
    ensures forall p :: p in trail ==> p.v != v
  {
    forall p | p in trail ensures p.v != v { assert Val(assigns, p) == True; }
  }

  lemma DbProper(ca: Db, n: nat)
    requires DbOk(ca, n)
    ensures ProperDb(ca)
  {}

  lemma FollowsNone(ca: Db, trail: seq<Lit>, added: seq<seq<Lit>>)
    requires Follows(ca, trail, added) && NoModels(ca, trail)
    ensures forall a: Assignment :: !SatAll(a, added)
  {}

  lemma RemovalPreserves(ca0: Db, t0: seq<Lit>, ca: Db, trail: seq<Lit>, ca': Db, cs: seq<nat>)
    requires Preserves(ca0, t0, ca, trail) && Deleted(ca, ca', cs)
    ensures Preserves(ca0, t0, ca', trail)
  {
    hide DbSat;
    RemovalFollows(ca, trail, ca', cs);
  }

  lemma FollowsOn(ca: Db, trail: seq<Lit>, ca': Db, trail': seq<Lit>, added: seq<seq<Lit>>)
    requires Follows(ca, trail, added) && Preserves(ca, trail, ca', trail')
    ensures Follows(ca', trail', added)
  {
    hide DbSat, SatAll;
  }

  lemma GoneClear(ca: Db, es: seq<Elim>, e: Elim, v: nat)
    requires Clean(ca, es) && es != [] && es[|es| - 1] == e && e.v == v
    ensures forall k: nat :: k < |ca| && !ca[k].mark ==> !Mentions(ca[k].lits, v)
  {}

  lemma GrowOk(assigns: seq<LBool>, trail: seq<Lit>, ca: Db, occurs: seq<seq<nat>>, es: seq<Elim>,
      eliminated: seq<bool>, added: seq<seq<Lit>>)
    requires AssignsOk(assigns, trail) && DbOk(ca, |assigns|) && OccursOk(occurs, ca) && |occurs| == |assigns|
    requires LogOk(es, |assigns|)
    requires VarsBelowAll(added, |assigns|)
    ensures AssignsOk(assigns + [Undef], trail) && DbOk(ca, |assigns| + 1) && OccursOk(occurs + [[]], ca)
    ensures LogOk(es, |assigns| + 1)
    ensures VarsBelowAll(added, |assigns| + 1) && !Eliminated(es, |assigns|)
  {
    GrowAssigns(assigns, trail);
    GrowOccurs(occurs, ca, |assigns|);
    forall k | 0 <= k < |ca| && !ca[k].mark
      ensures ClauseOk(ca[k], |assigns| + 1)
    {
      assert ClauseOk(ca[k], |assigns|);
    }
  }

  lemma GrowAssigns(assigns: seq<LBool>, trail: seq<Lit>)
    requires AssignsOk(assigns, trail)
    ensures AssignsOk(assigns + [Undef], trail)
  {
    var b := assigns + [Undef];
    forall p: Lit | p.v < |b| ensures p in trail <==> Val(b, p) == True {
      if p.v < |assigns| { assert b[p.v] == assigns[p.v]; }
    }
  }

  lemma GrowOccurs(occurs: seq<seq<nat>>, ca: Db, n: nat)
    requires OccursOk(occurs, ca) && DbOk(ca, n) && |occurs| == n
    ensures OccursOk(occurs + [[]], ca)
  {
    hide Mentions;
    var o := occurs + [[]];
    forall v: nat, k: nat | v < |o| && k < |ca| && !ca[k].mark ensures k in o[v] <==> Mentions(ca[k].lits, v) {
      if v < n { assert o[v] == occurs[v]; } else { NotMentioned(ca, n, k); }
    }
    forall v, i | 0 <= v < |o| && 0 <= i < |o[v]| ensures o[v][i] < |ca| { assert o[v] == occurs[v]; }
  }

  lemma NotMentioned(ca: Db, n: nat, k: nat)
    requires DbOk(ca, n) && k < |ca| && !ca[k].mark
    ensures !Mentions(ca[k].lits, n)
  {
    assert ClauseOk(ca[k], n);
  }

  lemma AddedBelow(added: seq<seq<Lit>>, ps: seq<Lit>, n: nat)
    requires VarsBelowAll(added, n) && forall p :: p in ps ==> p.v < n
    ensures VarsBelowAll(added + [ps], n)
  {}

  lemma NoneMore(added: seq<seq<Lit>>, ps: seq<Lit>)
    requires forall a: Assignment :: !SatAll(a, added)
    ensures forall a: Assignment :: !SatAll(a, added + [ps])
  {
    hide SatAll;
    forall a: Assignment ensures !SatAll(a, added + [ps]) { SatMore(a, added, ps); }
  }

  lemma TakenSat(a: Assignment, ps: seq<Lit>, ca: Db, trail: seq<Lit>, es: seq<Elim>)
    requires (Covered(ps, ca, trail) || exists l :: l in ps && Neg(l) in ps) && RestSat(a, ca, trail, es)
    requires forall p :: p in ps ==> !Eliminated(es, p.v)
    ensures SatClause(a, ps)
  {
    hide RestSat;
    if l :| l in ps && Neg(l) in ps { assert Holds(a, l) || Holds(a, Neg(l)); }
      else { CoveredSat(a, ps, ca, trail, es); }
  }

  lemma LogElims(es: seq<Elim>, n: nat)
    requires LogOk(es, n)
    ensures forall i :: 0 <= i < |es| ==> ElimOk(es[i])
  {}

  lemma CleanMore(ca: Db, ca': Db, es: seq<Elim>, ps: seq<Lit>)
    requires Clean(ca, es) && ca <= ca' && NewWithin(ca, ca', ps) && forall p :: p in ps ==> !Eliminated(es, p.v)
    ensures Clean(ca', es)
  {
    forall k, i | 0 <= k < |ca'| && !ca'[k].mark && 0 <= i < |es| ensures !Mentions(ca'[k].lits, es[i].v) {
      if k < |ca| { assert ca'[k] == ca[k]; } else {
        forall j | 0 <= j < |ca'[k].lits| ensures ca'[k].lits[j].v != es[i].v { assert ca'[k].lits[j] in ca'[k].lits; }
      }
    }
  }

  lemma AddedNone(ca: Db, trail: seq<Lit>, added: seq<seq<Lit>>, ps: seq<Lit>)
    requires Follows(ca, trail, added) && forall a: Assignment :: !(DbSat(a, ca, trail) && SatClause(a, ps))
    ensures forall a: Assignment :: !SatAll(a, added + [ps])
  {
    hide DbSat, SatAll, SatClause;
    forall a: Assignment ensures !SatAll(a, added + [ps]) { SatMore(a, added, ps); }
  }

  lemma LiveMask(ca: Db, n: nat, k: nat)
    requires DbOk(ca, n) && k < |ca| && !ca[k].mark
    ensures ca[k].abs == Mask(ca[k].lits)
  {}

  lemma LiveScanned(ca: Db, n: nat, k: nat)
    requires DbOk(ca, n) && k < |ca| && !ca[k].mark
    ensures Proper(ca[k].lits) && |ca[k].lits| >= 1 && VarsBelow(ca[k].lits, n) && ca[k].abs == Mask(ca[k].lits)
  {}

  lemma UnitScanned(assigns: seq<LBool>, trail: seq<Lit>, l: Lit)
    requires AssignsOk(assigns, trail) && l in trail
    ensures Proper([l]) && VarsBelow([l], |assigns|)
  {}

  lemma OccursBelow(occurs: seq<seq<nat>>, ca: Db, v: nat, i: nat)
    requires OccursOk(occurs, ca) && v < |occurs| && i < |occurs[v]|
    ensures occurs[v][i] < |ca|
  {}

  /** The occurrence list of v may have lost the reference; the others are as they were. */
  ghost predicate Relisted(occurs: seq<seq<nat>>, occurs': seq<seq<nat>>, v: nat, cr: nat) {
    occurs' == occurs || Shortened(occurs, occurs', v, cr)
  }

  /** Within the limit on the size of candidates; -1 is none. */
  predicate Short(d: seq<Lit>, lim: int) { lim == -1 || |d| < lim }

  /** The clause c cannot be used on any live clause within the limit but the one exempt. */
  ghost predicate Quiet(c: seq<Lit>, ca: Db, but: int, lim: int) {
    forall k :: 0 <= k < |ca| && k != but ==> Cleared(c, ca, but, k, lim)
  }

  ghost predicate Cleared(c: seq<Lit>, ca: Db, but: int, k: int, lim: int) {
    0 <= k < |ca| && (ca[k].mark || k == but || (Short(ca[k].lits, lim) ==> !Applies(c, ca[k].lits)))
  }

  /** The first j clauses of a list are done. */
  ghost predicate ClearedTo(c: seq<Lit>, ca: Db, but: int, l: seq<nat>, j: nat, lim: int) {
    forall i :: 0 <= i < j && i < |l| ==> Cleared(c, ca, but, l[i], lim)
  }

  lemma ClearedNone(c: seq<Lit>, ca: Db, but: int, l: seq<nat>, lim: int)
    ensures ClearedTo(c, ca, but, l, 0, lim)
  {}

  lemma ClearedSkip(c: seq<Lit>, ca: Db, but: int, l: seq<nat>, j: nat, lim: int)
    requires ClearedTo(c, ca, but, l, j, lim)
    requires j < |l| && l[j] < |ca| && (ca[l[j]].mark || l[j] == but || !Short(ca[l[j]].lits, lim))
    ensures ClearedTo(c, ca, but, l, j + 1, lim)
  {
    hide Applies;
  }

  /** One clause dealt with; the others are as they were. */
  ghost predicate OneDone(c: seq<Lit>, ca: Db, ca': Db, dr: nat) {
    && |ca'| == |ca| && dr < |ca| && (forall k :: 0 <= k < |ca| && k != dr ==> ca'[k] == ca[k])
      && (ca'[dr].mark || !Applies(c, ca'[dr].lits))
  }

  lemma ClearedStays(c: seq<Lit>, ca: Db, ca': Db, but: int, l: seq<nat>, j: nat, dr: nat, lim: int)
    requires ClearedTo(c, ca, but, l, j, lim) && OneDone(c, ca, ca', dr)
    ensures ClearedTo(c, ca', but, l, j, lim)
  {
    hide Applies;
    forall i | 0 <= i < j && i < |l| ensures Cleared(c, ca', but, l[i], lim) { assert Cleared(c, ca, but, l[i], lim); }
  }

  lemma ClearedNext(c: seq<Lit>, ca: Db, ca': Db, but: int, occ: seq<seq<nat>>, occ': seq<seq<nat>>, best: nat, j: nat,
      dr: nat, sub: Subsumption, lim: int)
    requires best < |occ| && j < |occ[best]| && occ[best][j] == dr && OneDone(c, ca, ca', dr)
    requires if sub.Strengthen? then sub.p.v != best && Relisted(occ, occ', sub.p.v, dr) else occ' == occ
    requires ClearedTo(c, ca, but, occ[best], j, lim)
    ensures best < |occ'| && occ'[best] == occ[best] && ClearedTo(c, ca', but, occ'[best], j + 1, lim)
  {
    hide Applies;
    ClearedStays(c, ca, ca', but, occ[best], j, dr, lim);
  }

  /** The candidate left the list or is marked; the ones before it stay where they were. */
  lemma ClearedShift(c: seq<Lit>, ca: Db, ca': Db, but: int, occ: seq<seq<nat>>, occ': seq<seq<nat>>, best: nat,
      j: nat, dr: nat, lim: int)
    requires best < |occ| && j < |occ[best]| && occ[best][j] == dr && NoDup(occ[best]) && OneDone(c, ca, ca', dr)
    requires Relisted(occ, occ', best, dr) && ClearedTo(c, ca, but, occ[best], j, lim)
    ensures best < |occ'| && j <= |occ'[best]| && ClearedTo(c, ca', but, occ'[best], j, lim)
  {
    hide Applies;
    ClearedStays(c, ca, ca', but, occ[best], j, dr, lim);
    if occ' != occ {
      var i: nat :| Removed(occ[best], occ'[best], dr, i);
      assert i == j;
    }
  }

  /** Every clause that c applies to mentions each of its variables. */
  lemma AppliesMentions(c: seq<Lit>, d: seq<Lit>, v: nat)
    requires Applies(c, d) && Mentions(c, v)
    ensures Mentions(d, v)
  {
    var k :| 0 <= k < |c| && c[k].v == v;
    if Subset(c, d) {
      MentionedBy(d, c[k]);
    } else {
      var p :| FlipsInto(c, d, p);
      MentionedBy(d, if c[k] == p then Neg(p) else c[k]);
    }
  }

  lemma UnrelatedQuiet(c: seq<Lit>, d: seq<Lit>, v: nat)
    requires Mentions(c, v) && !Mentions(d, v)
    ensures !Applies(c, d)
  {
    hide Applies, Mentions;
    if Applies(c, d) { AppliesMentions(c, d, v); }
  }

  lemma ListedOnce(occurs: seq<seq<nat>>, ca: Db, v: nat)
    requires OccursOk(occurs, ca) && v < |occurs|
    ensures NoDup(occurs[v])
  {}

  lemma ClearedAll(c: seq<Lit>, ca: Db, but: int, occurs: seq<seq<nat>>, best: nat, lim: int)
    requires OccursOk(occurs, ca) && best < |occurs| && Mentions(c, best)
    requires ClearedTo(c, ca, but, occurs[best], |occurs[best]|, lim)
    ensures Quiet(c, ca, but, lim)
  {
    hide Applies, Mentions;
    forall k: nat | k < |ca| && k != but ensures Cleared(c, ca, but, k, lim) {
      if !ca[k].mark {
        if Mentions(ca[k].lits, best) {
          assert k in occurs[best];
          var i :| 0 <= i < |occurs[best]| && occurs[best][i] == k;
          assert Cleared(c, ca, but, occurs[best][i], lim);
        } else {
          UnrelatedQuiet(c, ca[k].lits, best);
        }
      }
    }
  }

  /** Shorter clauses give no new uses. */
  lemma QuietShrunk(c: seq<Lit>, ca: Db, ca': Db, q: seq<nat>, q': seq<nat>, but: int, lim: int)
    requires Quiet(c, ca, but, lim) && Shrunk(ca, ca', q, q', lim)
    ensures Quiet(c, ca', but, lim)
  {
    hide Applies, Subset;
    forall k | 0 <= k < |ca'| && k != but ensures Cleared(c, ca', but, k, lim) {
      assert Cleared(c, ca, but, k, lim);
      if !ca'[k].mark && ca'[k].lits != ca[k].lits
        && Applies(c, ca'[k].lits) { AppliesMore(c, ca[k].lits, ca'[k].lits); }
    }
  }

  /** Neither a clause outside the queue nor a root fact already used can be used on another clause within the limit. */
  ghost predicate Reduced(ca: Db, trail: seq<Lit>, queue: seq<nat>, used: nat, lim: int) {
    && (forall k :: 0 <= k < |ca| && !ca[k].mark && k !in queue ==> Quiet(ca[k].lits, ca, k, lim))
    && forall i :: 0 <= i < used && i < |trail| ==> Quiet([trail[i]], ca, -1, lim)
  }

  /** A clause from the queue has been used. */
  lemma ReducedClause(ca: Db, t: seq<Lit>, ca': Db, t': seq<Lit>, cr: nat, rest: seq<nat>, q': seq<nat>, used: nat,
      lim: int)
    requires Reduced(ca, t, [cr] + rest, used, lim) && Shrunk(ca, ca', rest, q', lim) && t <= t' && used <= |t|
    requires cr < |ca| && ca'[cr] == ca[cr] && Quiet(ca[cr].lits, ca', cr, lim)
    ensures Reduced(ca', t', q', used, lim)
  {
    hide Quiet;
    forall k: nat | k < |ca'| && !ca'[k].mark && k !in q' ensures Quiet(ca'[k].lits, ca', k, lim) {
      if k != cr {
        InQueue(rest, q', k);
        assert k !in [cr] + rest;
        QuietShrunk(ca[k].lits, ca, ca', rest, q', k, lim);
      }
    }
    forall i | 0 <= i < used ensures Quiet([t'[i]], ca', -1, lim) { QuietShrunk([t[i]], ca, ca', rest, q', -1, lim); }
  }

  lemma InQueue(q: seq<nat>, q': seq<nat>, k: nat)
    requires q <= q' && k !in q'
    ensures k !in q
  {
    forall i | 0 <= i < |q| ensures q[i] != k { assert q'[i] == q[i]; }
  }

  /** A root fact has been used. */
  lemma ReducedFact(ca: Db, t: seq<Lit>, ca': Db, t': seq<Lit>, q': seq<nat>, used: nat, lim: int)
    requires Reduced(ca, t, [], used, lim) && Shrunk(ca, ca', [], q', lim) && t <= t' && used < |t|
    requires Quiet([t[used]], ca', -1, lim)
    ensures Reduced(ca', t', q', used + 1, lim)
  {
    hide Quiet;
    forall k: nat | k < |ca'| && !ca'[k].mark && k !in q'
      ensures Quiet(ca'[k].lits, ca', k, lim)
    {
      QuietShrunk(ca[k].lits, ca, ca', [], q', k, lim);
    }
    forall i | 0 <= i < used + 1 ensures Quiet([t'[i]], ca', -1, lim) {
      assert t'[i] == t[i];
      if i < used { QuietShrunk([t[i]], ca, ca', [], q', -1, lim); }
    }
  }

  /** A deleted clause in the queue is passed over. */
  lemma ReducedSkip(ca: Db, t: seq<Lit>, cr: nat, rest: seq<nat>, used: nat, lim: int)
    requires Reduced(ca, t, [cr] + rest, used, lim) && cr < |ca| && ca[cr].mark
    ensures Reduced(ca, t, rest, used, lim)
  {
    hide Quiet;
    forall k: nat | k < |ca| && !ca[k].mark && k !in rest
      ensures Quiet(ca[k].lits, ca, k, lim)
    {
      assert k !in [cr] + rest;
    }
  }

  /** Clauses only went or, within the limit, got shorter, and the shortened ones are queued. */
  ghost predicate Shrunk(ca: Db, ca': Db, queue: seq<nat>, queue': seq<nat>, lim: int) {
    && |ca'| == |ca| && queue <= queue'
    && forall k :: 0 <= k < |ca| && !ca'[k].mark ==>
      !ca[k].mark && (ca'[k].lits == ca[k].lits
        || (k in queue' && Subset(ca'[k].lits, ca[k].lits) && Short(ca[k].lits, lim)))
  }

  lemma ShrunkRefl(ca: Db, queue: seq<nat>, lim: int)
    ensures Shrunk(ca, ca, queue, queue, lim)
  {}

  lemma ShrunkTrans(ca: Db, ca': Db, ca'': Db, q: seq<nat>, q': seq<nat>, q'': seq<nat>, lim: int)
    requires Shrunk(ca, ca', q, q', lim) && Shrunk(ca', ca'', q', q'', lim)
    ensures Shrunk(ca, ca'', q, q'', lim)
  {
    forall k: nat | k in q' ensures k in q'' { var i :| 0 <= i < |q'| && q'[i] == k; assert q''[i] == k; }
  }

  /** Without the flipped literal nothing is left to do. */
  lemma StrengthenedQuiet(c: seq<Lit>, d: seq<Lit>, p: Lit)
    requires Proper(d) && FlipsInto(c, d, p)
    ensures !Applies(c, Drop(d, Neg(p)))
  {
    DropFacts(d, Neg(p));
    ProperOne(d, p);
    assert p !in Drop(d, Neg(p)) && Neg(p) !in Drop(d, Neg(p));
  }

  lemma DropWithin(d: seq<Lit>, l: Lit)
    requires Proper(d) && l in d
    ensures Subset(Drop(d, l), d)
  {
    DropFacts(d, l);
  }

  lemma AppliesMore(c: seq<Lit>, d: seq<Lit>, d': seq<Lit>)
    requires Applies(c, d') && Subset(d', d)
    ensures Applies(c, d)
  {
    if !Subset(c, d') {
      var p :| FlipsInto(c, d', p);
      assert FlipsInto(c, d, p);
    }
  }

  lemma ScanningKept(c: SClause, unit: bool, cr: nat, ca: Db, ca': Db, trail: seq<Lit>, trail': seq<Lit>)
    requires Scanning(c, unit, cr, ca, trail) && trail <= trail' && |ca'| == |ca| && (unit || ca'[cr] == ca[cr])
    ensures Scanning(c, unit, cr, ca', trail')
  {
    if unit {
      var k :| 0 <= k < |trail| && trail[k] == c.lits[0];
      assert trail'[k] == c.lits[0];
    }
  }

  lemma RemoveImplied(ca: Db, trail: seq<Lit>, dr: nat, n: nat, occurs: seq<seq<nat>>, es: seq<Elim>)
    requires DbOk(ca, n) && OccursOk(occurs, ca) && Clean(ca, es) && dr < |ca| && !ca[dr].mark
    requires forall a: Assignment :: RestSat(a, ca[dr := ca[dr].(mark := true)], trail, es) ==>
      SatClause(a, ca[dr].lits)
    ensures Simplifies(ca, trail, ca[dr := ca[dr].(mark := true)], trail, es)
    ensures Clean(ca[dr := ca[dr].(mark := true)], es)
    ensures Total(ca[dr := ca[dr].(mark := true)]) < Total(ca)
  {
    hide SatClause;
    LiveOk(ca, n, dr);
    DeleteOk(occurs, ca, n, dr, es);
    DeleteSimplifies(ca, trail, dr, es, trail);
    TotalUpdate(ca, dr, ca[dr].(mark := true));
  }

  lemma NoModelsSimplified(ca: Db, trail: seq<Lit>, ca': Db, trail': seq<Lit>, es: seq<Elim>)
    requires Simplifies(ca, trail, ca', trail', es) && NoModels(ca', trail')
    ensures NoModels(ca, trail)
  {
    hide DbSat;
  }

  lemma LiveOk(ca: Db, n: nat, k: nat)
    requires DbOk(ca, n) && k < |ca| && !ca[k].mark
    ensures ClauseOk(ca[k], n) && Proper(ca[k].lits) && |ca[k].lits| >= 2
  {}

  lemma ShortBelow(c: SClause, d: seq<Lit>, n: nat)
    requires ClauseOk(c, n) && forall l :: l in d ==> l in c.lits
    ensures VarsBelow(d, n)
  {
    forall i | 0 <= i < |d| ensures d[i].v < n { assert d[i] in c.lits; }
  }

  lemma LiteralBelow(c: SClause, l: Lit, n: nat)
    requires ClauseOk(c, n) && l in c.lits
    ensures l.v < n
  {}

  lemma UnitFacts(ca: Db, trail: seq<Lit>, cr: nat, l: Lit, p: Lit, n: nat, es: seq<Elim>)
    requires DbOk(ca, n) && cr < |ca| && !ca[cr].mark && l in ca[cr].lits && Drop(ca[cr].lits, l) == [p]
    requires Clean(ca, es)
    ensures p in ca[cr].lits && p.v < n && !Eliminated(es, p.v)
  {
    LiveOk(ca, n, cr);
    DropFacts(ca[cr].lits, l);
    assert p in [p];
    LiteralBelow(ca[cr], p, n);
    NotEliminated(ca, es, cr, p);
  }

  lemma DeleteSat(a: Assignment, ca: Db, trail: seq<Lit>, cr: nat)
    requires cr < |ca| && DbSat(a, ca, trail)
    ensures DbSat(a, ca[cr := ca[cr].(mark := true)], trail)
  {
    var ca' := ca[cr := ca[cr].(mark := true)];
    forall k | 0 <= k < |ca'| && !ca'[k].mark ensures SatClause(a, ca'[k].lits) { assert ca'[k] == ca[k]; }
  }

  lemma FalseFact(assigns: seq<LBool>, ca: Db, trail: seq<Lit>, p: Lit)
    requires AssignsOk(assigns, trail) && p.v < |assigns| && Val(assigns, p) == False
    ensures forall a: Assignment :: DbSat(a, ca, trail) ==> !Holds(a, p)
  {
    assert Val(assigns, Neg(p)) == True;
    assert Neg(p) in trail;
    forall a: Assignment | DbSat(a, ca, trail) ensures !Holds(a, p) { FalseAtRoot(a, trail, p); }
  }

  lemma TrueFact(assigns: seq<LBool>, trail: seq<Lit>, p: Lit)
    requires AssignsOk(assigns, trail) && p.v < |assigns| && Val(assigns, p) == True
    ensures p in trail
  {}

  lemma NoModelsIntro(ca: Db, trail: seq<Lit>)
    requires forall a: Assignment :: !DbSat(a, ca, trail)
    ensures NoModels(ca, trail)
  {}

  lemma NoModelsBefore(ca: Db, trail: seq<Lit>, ca': Db, trail': seq<Lit>)
    requires NoModels(ca', trail') && forall a: Assignment :: DbSat(a, ca, trail) ==> DbSat(a, ca', trail')
    ensures NoModels(ca, trail)
  {}

  lemma FactSat(a: Assignment, ca: Db, trail: seq<Lit>, p: Lit)
    requires DbSat(a, ca, trail) && Holds(a, p)
    ensures DbSat(a, ca, trail + [p])
  {}

  /** The binary clause is replaced by the fact. */
  lemma UnitSimplifies(ca: Db, trail: seq<Lit>, cr: nat, p: Lit, trail': seq<Lit>, es: seq<Elim>)
    requires cr < |ca| && p in ca[cr].lits && !Eliminated(es, p.v) && p in trail' && trail <= trail'
    requires forall a: Assignment :: DbSat(a, ca, trail) ==> DbSat(a, ca[cr := ca[cr].(mark := true)], trail')
    ensures Simplifies(ca, trail, ca[cr := ca[cr].(mark := true)], trail', es)
  {
    DeleteSimplifies(ca, trail, cr, es, trail');
  }

  lemma StartKeeping(assigns: seq<LBool>, trail: seq<Lit>, ps: seq<Lit>)
    ensures KeptUpTo(assigns, trail, ps, 0, [])
  {}

  lemma TrueCovers(assigns: seq<LBool>, trail: seq<Lit>, ps: seq<Lit>, ca: Db, p: Lit)
    requires AssignsOk(assigns, trail) && p in ps && p.v < |assigns| && Val(assigns, p) == True
    ensures Covered(ps, ca, trail)
  {
    assert p in trail;
  }

  lemma KeptIn(assigns: seq<LBool>, trail: seq<Lit>, ps: seq<Lit>, i: nat, kept: seq<Lit>, l: Lit)
    requires KeptUpTo(assigns, trail, ps, i, kept) && l in kept
    ensures l in ps
  {}

  lemma KeptFacts(assigns: seq<LBool>, trail: seq<Lit>, ps: seq<Lit>, kept: seq<Lit>)
    requires KeptUpTo(assigns, trail, ps, |ps|, kept)
    ensures Proper(kept) && VarsBelow(kept, |assigns|) && forall l :: l in kept ==> l in ps && Val(assigns, l) == Undef
    ensures kept != [] ==> kept[0] in ps && kept[0].v < |assigns| && Val(assigns, kept[0]) == Undef
    ensures |kept| == 1 ==> kept == [kept[0]]
  {
    forall i | 0 <= i < |kept| ensures kept[i].v < |assigns| { assert kept[i] in kept; }
    if kept != [] { assert kept[0] in kept; }
  }

  lemma EmptyUnsat()
    ensures forall a: Assignment :: !SatClause(a, [])
  {}

  lemma UnitHolds(a: Assignment, p: Lit)
    requires SatClause(a, [p])
    ensures Holds(a, p)
  {}

  lemma LastInTrail(t0: seq<Lit>, p: Lit, trail: seq<Lit>)
    requires t0 + [p] <= trail
    ensures p in trail && t0 <= trail
  {
    assert trail[|t0|] == p;
  }

  lemma StoredOk(cl: SClause, n: nat)
    requires |cl.lits| >= 2 && Proper(cl.lits) && VarsBelow(cl.lits, n) && cl.abs == Mask(cl.lits)
    ensures ClauseOk(cl, n)
  {}

  lemma RecordNext(occ: seq<seq<nat>>, occurs: seq<seq<nat>>, c: seq<Lit>, i: nat, cr: nat)
    requires Proper(c) && VarsBelow(c, |occ|) && i < |c| && Recorded(occ, occurs, c[..i], cr)
    ensures c[i].v < |occurs| && Recorded(occ, occurs[c[i].v := occurs[c[i].v] + [cr]], c[..i + 1], cr)
  {
    var u := c[i].v;
    var occurs' := occurs[u := occurs[u] + [cr]];
    forall v: nat | v < |occ| ensures occurs'[v] == if Mentions(c[..i + 1], v) then occ[v] + [cr] else occ[v] {
      TakeMentions(c, i, v);
    }
  }

  lemma TakeMentions(c: seq<Lit>, i: nat, v: nat)
    requires Proper(c) && i < |c|
    ensures Mentions(c[..i + 1], v) <==> Mentions(c[..i], v) || c[i].v == v
    ensures !Mentions(c[..i], c[i].v)
  {
    if Mentions(c[..i], v) {
      var k :| 0 <= k < i && c[..i][k].v == v;
      assert c[..i + 1][k].v == v;
    }
    if c[i].v == v { assert c[..i + 1][i].v == v; }
    if Mentions(c[..i + 1], v) {
      var k :| 0 <= k < i + 1 && c[..i + 1][k].v == v;
      if k < i { assert c[..i][k].v == v; }
    }
  }

  lemma InOccurs(occurs: seq<seq<nat>>, ca: Db, l: Lit, cr: nat)
    requires OccursOk(occurs, ca) && l.v < |occurs| && cr < |ca| && !ca[cr].mark && l in ca[cr].lits
    ensures cr in occurs[l.v]
  {
    MentionedBy(ca[cr].lits, l);
  }

  lemma NotYetListed(occurs: seq<seq<nat>>, ca: Db, v: nat, i: nat)
    requires OccursOk(occurs, ca) && v < |occurs| && i < |occurs[v]|
    ensures occurs[v][i] !in occurs[v][..i]
  {
    assert NoDup(occurs[v]);
  }

  lemma LookupOk(occurs: seq<seq<nat>>, ca: Db, v: nat, cs: seq<nat>)
    requires OccursOk(occurs, ca) && v < |occurs| && NoDup(cs)
    requires forall k: nat :: k in cs <==> k in occurs[v] && k < |ca| && !ca[k].mark
    ensures OccursOk(occurs[v := cs], ca)
    ensures forall k: nat :: k in cs <==> k < |ca| && !ca[k].mark && Mentions(ca[k].lits, v)
  {
    hide Mentions;
    var o := occurs[v := cs];
    forall u, i | 0 <= u < |o| && 0 <= i < |o[u]| ensures o[u][i] < |ca| {
      if u == v { assert cs[i] in cs; } else { assert o[u][i] == occurs[u][i]; }
    }
  }
}
