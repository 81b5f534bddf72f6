/** Where resolution of a conflict ends: the first implication point of the current level. */
module ImplicationPoint {
  import opened Cnf
  import opened SolverSpec
  import opened Redundancy
  import opened Analysis

  /** v occurs in the reason of x, which is about another variable. */
  ghost predicate ReasonVar(s: State, x: nat, v: nat) {
    exists q :: InReason(s, x, q) && q.v == v
  }

  ghost predicate Current(t: Trail, v: nat) {
    t.Lev(v) == |t.lim|
  }

  /**
   * v, no root fact, occurs in the conflict clause or in the reason of a variable resolved on at trail position n or
   * later: a variable of the current level that was reached before.
   */
  ghost predicate Reached(s: State, confl: int, n: nat, v: nat)
    decreases |s.t.lits| - n
  {
    if n >= |s.t.lits| then
      s.t.Lev(v) > 0 && 0 <= confl < |s.ca| && InVars(s.ca[confl].lits, v)
    else
      || Reached(s, confl, n + 1, v)
      || (s.t.Lev(v) > 0 && ReachedAt(s, confl, n) && ReasonVar(s, s.t.lits[n].v, v))
  }

  /** The variable at trail position n belongs to the current level and was reached from later positions. */
  ghost predicate ReachedAt(s: State, confl: int, n: nat)
    requires n < |s.t.lits|
    decreases |s.t.lits| - n, 0
  {
    Current(s.t, s.t.lits[n].v) && Reached(s, confl, n + 1, s.t.lits[n].v)
  }

  ghost predicate Ahead(t: Trail, v: nat, n: nat) {
    !Current(t, v) || t.Pos(v) < n
  }

  /** The marks are what was reached from position n on, of the current level only what lies before n. */
  ghost predicate MarksReached(s: State, confl: int, seen: seq<bool>, m: nat, n: nat) {
    forall v: nat :: (v < |seen| && seen[v]) <==> Reached(s, confl, m, v) && Ahead(s.t, v, n)
  }

  /** A second variable of the current level, reached as well, lies before position j. */
  ghost predicate Another(s: State, confl: int, j: nat) {
    exists w: nat :: Reached(s, confl, j + 1, w) && Current(s.t, w) && s.t.Pos(w) < j
  }

  /** No implication point at position m or later. */
  ghost predicate NoneFrom(s: State, confl: int, m: nat) {
    forall j :: m <= j < |s.t.lits| && ReachedAt(s, confl, j) ==> Another(s, confl, j)
  }

  /** The walk down the trail is at p: reached itself, with every implication point before it. */
  ghost predicate AtPick(s: State, confl: int, seen: seq<bool>, p: Lit) {
    && Reached(s, confl, s.t.Pos(p.v) + 1, p.v)
    && MarksReached(s, confl, seen, s.t.Pos(p.v) + 1, s.t.Pos(p.v))
    && NoneFrom(s, confl, s.t.Pos(p.v) + 1)
  }

  /**
   * p is the first implication point: of what is reached from later positions it is the only variable of the current
   * level not resolved on, and no later literal of that level is one. The marks are the reached variables of lower
   * levels.
   */
  ghost predicate FirstPoint(s: State, confl: int, seen: seq<bool>, p: Lit) {
    && Picked(s.t, p) && AtPick(s, confl, seen, p)
    && !Another(s, confl, s.t.Pos(p.v))
    && forall v: nat :: (v < |seen| && seen[v]) <==> Reached(s, confl, s.t.Pos(p.v) + 1, v) && !Current(s.t, v)
  }

  /** Marking the variables of c and nothing else. */
  ghost predicate MarksOnly(t: Trail, seen: seq<bool>, seen': seq<bool>, c: seq<Lit>) {
    forall v: nat :: v < |seen'| && v < |seen| && seen'[v] && !seen[v] ==> t.Lev(v) > 0 && InVars(c, v)
  }

  lemma StartReached(s: State, confl: int, seen0: seq<bool>, seen: seq<bool>)
    requires s.t.Ok() && 0 <= confl < |s.ca| && s.t.AllFalse(s.ca[confl].lits)
    requires |seen0| == |seen| && MarksOnly(s.t, seen0, seen, s.ca[confl].lits)
    requires forall v: nat :: v < |seen0| ==> !seen0[v]
    requires Marked(s.t, seen, s.ca[confl].lits) && forall v: nat :: v < |seen| && seen[v] ==> s.t.Lev(v) > 0
    ensures MarksReached(s, confl, seen, |s.t.lits|, |s.t.lits|) && NoneFrom(s, confl, |s.t.lits|)
  {
    forall v: nat | Reached(s, confl, |s.t.lits|, v) ensures Ahead(s.t, v, |s.t.lits|) {
      var q :| q in s.ca[confl].lits && q.v == v;
      assert s.t.Assigned(v);
    }
  }

  lemma ConflictReached(s: State, confl: int, seen0: seq<bool>, seen: seq<bool>, out: seq<Lit>, pathC: int)
    requires s.t.Ok() && s.Conflict(confl) && |seen0| == |seen| && forall v: nat :: v < |seen0| ==> !seen0[v]
    requires MarksOnly(s.t, seen0, seen, s.ca[confl].lits) && Marked(s.t, seen, s.ca[confl].lits)
    requires Marks(s.t, seen, out, pathC)
    ensures MarksReached(s, confl, seen, |s.t.lits|, |s.t.lits|) && NoneFrom(s, confl, |s.t.lits|)
  {
    hide Trail.Ok;
    StartReached(s, confl, seen0, seen);
  }

  /** Nothing of the current level is marked between m and n: walking past these positions reaches nothing new. */
  lemma {:induction false} ReachedGap(s: State, confl: int, seen: seq<bool>, m: nat, n: nat, v: nat)
    requires s.t.Ok() && |seen| == |s.t.asg| && MarksReached(s, confl, seen, n, n) && Below(s.t, seen, m)
    requires m <= n <= |s.t.lits|
    ensures Reached(s, confl, m, v) == Reached(s, confl, n, v)
    ensures m < n ==> !ReachedAt(s, confl, m)
    decreases n - m
  {
    if m < n {
      ReachedGap(s, confl, seen, m + 1, n, v);
      var x := s.t.lits[m].v;
      ReachedGap(s, confl, seen, m + 1, n, x);
      assert s.t.Pos(x) == m;
      assert MarksReached(s, confl, seen, n, n) && Ahead(s.t, x, n);
    }
  }

  lemma PickReached(s: State, confl: int, seen: seq<bool>, p: Lit, n: nat)
    requires s.t.Ok() && |seen| == |s.t.asg| && MarksReached(s, confl, seen, n, n) && NoneFrom(s, confl, n)
    requires n <= |s.t.lits| && Picked(s.t, p) && seen[p.v] && Below(s.t, seen, s.t.Pos(p.v) + 1)
    requires Below(s.t, seen[p.v := false], s.t.Pos(p.v))
    ensures s.t.Pos(p.v) < n && AtPick(s, confl, seen[p.v := false], p)
  {
    hide Reached, ReachedAt, Trail.LevelsOk;
    var k, seen' := s.t.Pos(p.v), seen[p.v := false];
    assert Ahead(s.t, p.v, n);
    forall v: nat ensures (v < |seen'| && seen'[v]) <==> Reached(s, confl, k + 1, v) && Ahead(s.t, v, k) {
      ReachedGap(s, confl, seen, k + 1, n, v);
    }
    ReachedGap(s, confl, seen, k + 1, n, p.v);
    forall j | k + 1 <= j < |s.t.lits| && ReachedAt(s, confl, j) ensures Another(s, confl, j) {
      if j < n { ReachedGap(s, confl, seen, j, n, p.v); }
    }
  }

  /** Resolving on p reaches the other variables of its reason. */
  lemma ResolveReached(s: State, ca': Store, confl: int, seen: seq<bool>, seen': seq<bool>, p: Lit, cr: nat)
    requires s.t.Ok() && |seen| == |seen'| == |s.t.asg| && Picked(s.t, p) && AtPick(s, confl, seen, p)
    requires SameStore(s.ca, ca') && Fronted(s.(ca := ca'), p.v, cr) && s.t.Value(p) == True
    requires Grows(seen, seen') && MarkedFrom(s.t, seen', ca'[cr].lits, 1)
    requires MarksOnly(s.t, seen, seen', ca'[cr].lits[1..]) && CurSeen(s.t, seen) != {}
    ensures MarksReached(s, confl, seen', s.t.Pos(p.v), s.t.Pos(p.v)) && NoneFrom(s, confl, s.t.Pos(p.v))
  {
    hide Trail.LevelsOk, Reached, SameStore;
    var n, c := s.t.Pos(p.v), ca'[cr].lits;
    assert s.t.Assigned(p.v) && s.t.lits[n].v == p.v;
    forall v: nat ensures ReasonVar(s, p.v, v) <==> InVars(c[1..], v) { ReasonTail(s, ca', p.v, cr, v); }
    forall v: nat ensures (v < |seen'| && seen'[v]) <==> Reached(s, confl, n, v) && Ahead(s.t, v, n) {
      ReachedNext(s, confl, n, v);
      if InVars(c[1..], v) {
        var q :| q in c[1..] && q.v == v;
        ReasonFront(s.(ca := ca'), p, cr);
        assert s.t.Pos(v) < n;
      }
    }
    var w :| w in CurSeen(s.t, seen);
    assert Reached(s, confl, n + 1, w) && Current(s.t, w) && s.t.Pos(w) < n;
  }

  lemma ReachedNext(s: State, confl: int, n: nat, v: nat)
    requires n < |s.t.lits|
    ensures Reached(s, confl, n, v) <==>
      || Reached(s, confl, n + 1, v)
      || (s.t.Lev(v) > 0 && ReachedAt(s, confl, n) && ReasonVar(s, s.t.lits[n].v, v))
  {}

  lemma ReasonTail(s: State, ca': Store, x: nat, cr: nat, v: nat)
    requires SameStore(s.ca, ca') && Fronted(s.(ca := ca'), x, cr)
    ensures ReasonVar(s, x, v) <==> InVars(ca'[cr].lits[1..], v)
  {
    var c := ca'[cr].lits;
    assert SameClause(s.ca[cr], ca'[cr]);
    assert c == [c[0]] + c[1..];
    if InVars(c[1..], v) {
      var q :| q in c[1..] && q.v == v;
      var i :| 0 <= i < |c[1..]| && c[1..][i] == q;
      assert c[i + 1] == q;
      assert InReason(s, x, q);
    }
    if ReasonVar(s, x, v) {
      var q :| InReason(s, x, q) && q.v == v;
      assert q in c && q != c[0] && q in c[1..];
    }
  }

  /** No marked variable of the current level is left: p is the first implication point. */
  lemma PointFound(s: State, confl: int, seen: seq<bool>, out: seq<Lit>, p: Lit)
    requires s.t.Ok() && Picked(s.t, p) && AtPick(s, confl, seen, p) && Marks(s.t, seen, out, 0)
    ensures FirstPoint(s, confl, seen, p)
  {
    hide Reached;
    assert CurSeen(s.t, seen) == {};
    forall v: nat | v < |seen| && seen[v] ensures !Current(s.t, v) { assert v !in CurSeen(s.t, seen); }
    forall w: nat | Reached(s, confl, s.t.Pos(p.v) + 1, w) && s.t.Pos(w) < s.t.Pos(p.v) ensures !Current(s.t, w) {
      assert w < |seen| && seen[w];
    }
  }

  // ---------------------------------------------------------------- the clause that is learnt

  /** `out` lists the marked literals, negated, each once. */
  ghost predicate LitsOf(t: Trail, marks: seq<bool>, out: seq<Lit>) {
    && Proper(out) && |marks| == |t.asg|
    && forall q :: q in out <==> q.v < |marks| && marks[q.v] && q == Neg(t.On(q.v))
  }

  /** The clause: p negated in front, then `rest` in any order. */
  ghost predicate Arranged(p: Lit, rest: seq<Lit>, learnt: seq<Lit>) {
    && |learnt| == |rest| + 1 && learnt[0] == Neg(p)
    && forall q :: q in learnt <==> q == Neg(p) || q in rest
  }

  /** The reached literals of lower levels without the redundant ones, minimised with binary clauses. */
  ghost predicate LearntRest(s: State, p: Lit, marks: seq<bool>, out: seq<Lit>, rest: seq<Lit>) {
    LitsOf(s.t, marks, out) && BinReduced(s.t, s.wb, p, Irredundant(s, marks, LevelsOf(s.t, out), out), rest)
  }

  /** What the analysis of a conflict learns. */
  ghost predicate LearntFrom(s: State, confl: int, learnt: seq<Lit>) {
    exists p, marks, out, rest ::
      FirstPoint(s, confl, marks, p) && LearntRest(s, p, marks, out, rest) && Arranged(p, rest, learnt)
  }

  lemma UipLits(f: seq<seq<Lit>>, t: Trail, seen: seq<bool>, p: Lit, out: seq<Lit>)
    requires Uip(f, t, seen, p, out)
    ensures LitsOf(t, seen, out)
  {
    hide Entails;
  }

  lemma AnalysisDone(s: State, confl: int, p: Lit, marks: seq<bool>, out: seq<Lit>, kept: seq<Lit>, rest: seq<Lit>,
      learnt: seq<Lit>)
    requires FirstPoint(s, confl, marks, p) && LitsOf(s.t, marks, out) && Arranged(p, rest, learnt)
    requires kept == Irredundant(s, marks, LevelsOf(s.t, out), out) && BinReduced(s.t, s.wb, p, kept, rest)
    ensures LearntFrom(s, confl, learnt)
  {
    hide FirstPoint, Irredundant, BinReduced, LitsOf, Arranged;
    assert LearntRest(s, p, marks, out, rest);
  }

  // ---------------------------------------------------------------- it is determined by the conflict

  /** There is one first implication point. */
  lemma PointUnique(s: State, confl: int, marks: seq<bool>, p: Lit, marks': seq<bool>, p': Lit)
    requires s.t.Ok() && FirstPoint(s, confl, marks, p) && FirstPoint(s, confl, marks', p')
    ensures p == p'
  {
    hide Reached, Trail.LevelsOk;
    if s.t.Pos(p.v) > s.t.Pos(p'.v) {
      PointNotBefore(s, confl, marks, p, marks', p');
    } else if s.t.Pos(p.v) < s.t.Pos(p'.v) {
      PointNotBefore(s, confl, marks', p', marks, p);
    } else {
      assert s.t.Assigned(p.v) && s.t.Assigned(p'.v);
    }
  }

  lemma PointNotBefore(s: State, confl: int, marks: seq<bool>, p: Lit, marks': seq<bool>, p': Lit)
    requires s.t.Ok() && FirstPoint(s, confl, marks, p) && FirstPoint(s, confl, marks', p')
    ensures s.t.Pos(p.v) <= s.t.Pos(p'.v)
  {
    hide Reached, Trail.LevelsOk;
    var j := s.t.Pos(p.v);
    assert s.t.Assigned(p.v) && s.t.lits[j].v == p.v;
    assert ReachedAt(s, confl, j);
  }

  /** Clauses over the same literals lose the same ones to minimisation with binary clauses. */
  lemma ReducedUnique(t: Trail, wb: WatchLists, p: Lit, c: seq<Lit>, d: seq<Lit>, c': seq<Lit>, d': seq<Lit>)
    requires Proper(c) && Proper(d) && (forall q :: q in c <==> q in d)
    requires BinReduced(t, wb, p, c, c') && BinReduced(t, wb, p, d, d')
    ensures forall q :: q in c' <==> q in d'
  {
    hide BinRefuted;
    VarSetCard(c);
    VarSetCard(d);
    forall q | q in c ensures q in d {}
    assert VarSet(c) == VarSet(d) by { VarSetSame(c, d); VarSetSame(d, c); }
    LevelSetSame(t, [Neg(p)] + c, [Neg(p)] + d);
    LevelSetSame(t, [Neg(p)] + d, [Neg(p)] + c);
    assert LevelSet(t, [Neg(p)] + c) == LevelSet(t, [Neg(p)] + d);
  }

  lemma VarSetSame(c: seq<Lit>, d: seq<Lit>)
    requires forall q :: q in c ==> q in d
    ensures VarSet(c) <= VarSet(d)
  {
    forall v | v in VarSet(c) ensures v in VarSet(d) {
      var i :| 0 <= i < |c| && c[i].v == v;
      assert c[i] in d;
    }
  }

  lemma LevelSetSame(t: Trail, c: seq<Lit>, d: seq<Lit>)
    requires forall q :: q in c ==> q in d
    ensures LevelSet(t, c) <= LevelSet(t, d)
  {
    forall l | l in LevelSet(t, c) ensures l in LevelSet(t, d) {
      var i :| 0 <= i < |c| && t.Lev(c[i].v) == l;
      assert c[i] in d;
    }
  }

  lemma ModSetSame(t: Trail, c: seq<Lit>, d: seq<Lit>)
    requires forall q :: q in c ==> q in d
    ensures LevelsOf(t, c) <= LevelsOf(t, d)
  {
    forall l | l in LevelsOf(t, c) ensures l in LevelsOf(t, d) {
      var i :| 0 <= i < |c| && t.Lev(c[i].v) % 32 == l;
      assert c[i] in d;
    }
  }

  lemma {:induction false} IrredundantProper(s: State, seen: seq<bool>, levels: set<nat>, out: seq<Lit>)
    requires Proper(out)
    ensures Proper(Irredundant(s, seen, levels, out))
  {
    hide Redundant;
    if out != [] {
      var d, q := out[..|out| - 1], out[|out| - 1];
      IrredundantProper(s, seen, levels, d);
      var rest := Irredundant(s, seen, levels, d);
      forall i | 0 <= i < |rest| ensures rest[i].v != q.v {
        assert rest[i] in rest;
        IrredundantLits(s, seen, levels, d, rest[i]);
      }
    }
  }

  /** The literals of the learnt clause, and the one in front, follow from the conflict alone. */
  lemma LearntUnique(s: State, confl: int, learnt: seq<Lit>, learnt': seq<Lit>)
    requires s.t.Ok() && LearntFrom(s, confl, learnt) && LearntFrom(s, confl, learnt')
    ensures learnt[0] == learnt'[0] && forall q :: q in learnt <==> q in learnt'
  {
    hide FirstPoint, Irredundant, BinReduced, LitsOf, Trail.Ok;
    var p, marks, out, rest :|
      FirstPoint(s, confl, marks, p) && LearntRest(s, p, marks, out, rest) && Arranged(p, rest, learnt);
    var p', marks', out', rest' :|
      FirstPoint(s, confl, marks', p') && LearntRest(s, p', marks', out', rest') && Arranged(p', rest', learnt');
    PointUnique(s, confl, marks, p, marks', p');
    OutUnique(s, confl, marks, p, marks', out, out');
    var levels := LevelsOf(s.t, out);
    assert LevelsOf(s.t, out') == levels by { ModSetSame(s.t, out, out'); ModSetSame(s.t, out', out); }
    var kept, kept' := Irredundant(s, marks, levels, out), Irredundant(s, marks, levels, out');
    IrredundantProper(s, marks, levels, out);
    IrredundantProper(s, marks, levels, out');
    forall q ensures q in kept <==> q in kept' {
      IrredundantLits(s, marks, levels, out, q);
      IrredundantLits(s, marks, levels, out', q);
    }
    ReducedUnique(s.t, s.wb, p, kept, kept', rest, rest');
  }

  lemma OutUnique(s: State, confl: int, marks: seq<bool>, p: Lit, marks': seq<bool>, out: seq<Lit>, out': seq<Lit>)
    requires FirstPoint(s, confl, marks, p) && FirstPoint(s, confl, marks', p)
    requires LitsOf(s.t, marks, out) && LitsOf(s.t, marks', out')
    ensures marks == marks' && Proper(out) && Proper(out') && forall q :: q in out <==> q in out'
  {
    hide Reached;
  }
}
