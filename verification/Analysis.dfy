/** Conflict analysis on values: marks, resolution, minimisation. */
module Analysis {
  import opened Cnf
  import opened SolverSpec
  import opened Redundancy

  /** Marked variables of the current level. */
  ghost function CurSeen(t: Trail, seen: seq<bool>): set<nat> {
    set v: nat | v < |seen| && seen[v] && t.Lev(v) == |t.lim|
  }

  /** Marks during analysis: the marked variables below the current level are exactly those of `out`. */
  ghost predicate Marks(t: Trail, seen: seq<bool>, out: seq<Lit>, pathC: int) {
    && |seen| == |t.asg|
    && (forall v: nat :: v < |seen| && seen[v] ==> t.Assigned(v) && 0 < t.Lev(v) <= |t.lim|)
    && (forall q :: q in out ==> t.Value(q) == False && t.Lev(q.v) < |t.lim| && seen[q.v])
    && Proper(out)
    && (forall v: nat :: v < |seen| && seen[v] && t.Lev(v) < |t.lim| ==> Neg(t.On(v)) in out)
    && pathC == |CurSeen(t, seen)|
  }

  /** The marked variables of the current level all lie below position `bound` of the trail. */
  ghost predicate Below(t: Trail, seen: seq<bool>, bound: nat) {
    forall v: nat :: v < |seen| && seen[v] && t.Lev(v) == |t.lim| ==> t.Pos(v) < bound
  }

  /** The formula entails the clause that negates every marked trail literal, or else `extra`. */
  ghost predicate SeenEntailed(f: seq<seq<Lit>>, t: Trail, seen: seq<bool>, extra: seq<Lit>) {
    forall a: Assignment :: SatAll(a, f) ==> SatClause(a, extra) || SomeSeenFalse(a, t, seen)
  }

  ghost predicate SomeSeenFalse(a: Assignment, t: Trail, seen: seq<bool>) {
    exists v: nat :: v < |seen| && seen[v] && !Holds(a, t.On(v))
  }

  /** The literals of a clause from index `from` on are false and older than `bound`. */
  ghost predicate FalseFrom(t: Trail, c: seq<Lit>, from: nat, bound: nat) {
    from <= |c| && forall q :: q in c[from..] ==> t.Value(q) == False && t.Pos(q.v) < bound
  }

  ghost predicate MarkedFrom(t: Trail, seen: seq<bool>, c: seq<Lit>, from: nat) {
    from <= |c| && Marked(t, seen, c[from..])
  }

  /** Every literal of `c` is marked or a root fact. */
  ghost predicate Marked(t: Trail, seen: seq<bool>, c: seq<Lit>) {
    forall q :: q in c ==> q.v < |seen| && (seen[q.v] || t.Lev(q.v) == 0)
  }

  lemma MarksSize(t: Trail, seen: seq<bool>, out: seq<Lit>, pathC: int)
    requires Marks(t, seen, out, pathC)
    ensures |seen| == |t.asg|
  {}

  lemma MarkCurrent(t: Trail, seen: seq<bool>, out: seq<Lit>, pathC: int, q: Lit, bound: nat)
    requires t.Ok() && Marks(t, seen, out, pathC) && Below(t, seen, bound)
    requires t.Value(q) == False && t.Lev(q.v) > 0 && q.v < |seen| && !seen[q.v] && t.Pos(q.v) < bound
    requires t.Lev(q.v) >= |t.lim|
    ensures Marks(t, seen[q.v := true], out, pathC + 1) && Below(t, seen[q.v := true], bound)
  {
    assert t.Assigned(q.v);
    assert CurSeen(t, seen[q.v := true]) == CurSeen(t, seen) + {q.v};
  }

  lemma MarkLower(t: Trail, seen: seq<bool>, out: seq<Lit>, pathC: int, q: Lit, bound: nat)
    requires t.Ok() && Marks(t, seen, out, pathC) && Below(t, seen, bound)
    requires t.Value(q) == False && t.Lev(q.v) > 0 && q.v < |seen| && !seen[q.v]
    requires t.Lev(q.v) < |t.lim|
    ensures Marks(t, seen[q.v := true], out + [q], pathC) && Below(t, seen[q.v := true], bound)
  {
    hide Trail.StackOk, Trail.LevelsOk;
    var seen', out' := seen[q.v := true], out + [q];
    assert t.Assigned(q.v) && Neg(t.On(q.v)) == q;
    assert CurSeen(t, seen') == CurSeen(t, seen);
    assert forall x :: x in out' <==> x in out || x == q;
    forall i | 0 <= i < |out| ensures out[i].v != q.v { assert out[i] in out; }
  }

  /** Walking down the trail past unmarked literals. */
  lemma StepDown(t: Trail, seen: seq<bool>, v: nat, i: nat)
    requires t.Ok() && |seen| == |t.asg| && i < |t.lits| && Below(t, seen, i + 1)
    requires v in CurSeen(t, seen) && t.Assigned(v) && t.Pos(v) <= i
    requires forall x: nat :: x < |seen| && seen[x] ==> t.Assigned(x)
    requires t.lits[i].v < |seen| && !seen[t.lits[i].v]
    ensures i > 0 && t.Pos(v) <= i - 1 && Below(t, seen, i)
  {
    hide Trail.LevelsOk;
  }

  lemma PickTop(t: Trail, seen: seq<bool>, v: nat, i: nat)
    requires t.Ok() && |seen| == |t.asg| && i < |t.lits| && |t.lim| > 0
    requires v in CurSeen(t, seen) && t.Assigned(v) && t.Pos(v) <= i
    ensures var p := t.lits[i]; t.Value(p) == True && t.Lev(p.v) == |t.lim| && t.Pos(p.v) == i && p == t.On(p.v)
  {
    var p := t.lits[i];
    assert t.Value(p) == True && t.Assigned(p.v);
    assert t.Lev(v) > |t.lim| - 1;
    assert t.Pos(v) >= t.lim[|t.lim| - 1];
    assert t.Pos(p.v) >= t.lim[|t.lim| - 1];
  }

  /** Unmarking the literal picked last: everything still marked at the current level lies below it. */
  lemma BelowPick(t: Trail, seen: seq<bool>, p: Lit)
    requires t.Ok() && |seen| == |t.asg| && t.Assigned(p.v) && Below(t, seen, t.Pos(p.v) + 1)
    requires forall x: nat :: x < |seen| && seen[x] ==> t.Assigned(x)
    ensures Below(t, seen[p.v := false], t.Pos(p.v))
  {
    hide Trail.LevelsOk;
  }

  lemma MarkedPath(t: Trail, seen: seq<bool>, out: seq<Lit>, pathC: int, q: Lit)
    requires Marks(t, seen, out, pathC) && q.v < |seen| && seen[q.v] && t.Lev(q.v) == |t.lim|
    ensures pathC > 0
  {
    assert q.v in CurSeen(t, seen);
  }

  lemma NoMarks(t: Trail, seen: seq<bool>)
    requires |seen| == |t.asg| && forall v: nat :: v < |seen| ==> !seen[v]
    ensures Marks(t, seen, [], 0) && Below(t, seen, |t.lits|)
  {
    assert CurSeen(t, seen) == {};
  }

  lemma PathMarked(t: Trail, seen: seq<bool>, out: seq<Lit>, pathC: int, bound: nat)
    requires Marks(t, seen, out, pathC) && pathC > 0 && Below(t, seen, bound)
    ensures bound > 0 && CurSeen(t, seen) != {}
    ensures forall v: nat :: v < |seen| && seen[v] ==> t.Assigned(v)
  {
    var v :| v in CurSeen(t, seen);
  }

  lemma Unmark(t: Trail, seen: seq<bool>, out: seq<Lit>, pathC: int, p: Lit)
    requires t.Ok() && Marks(t, seen, out, pathC) && p.v < |seen| && seen[p.v] && t.Lev(p.v) == |t.lim|
    ensures Marks(t, seen[p.v := false], out, pathC - 1)
  {
    assert CurSeen(t, seen[p.v := false]) == CurSeen(t, seen) - {p.v};
    assert p.v in CurSeen(t, seen);
  }

  /** The conflict clause starts the resolution. */
  lemma ConflictEntailed(s: State, confl: int, seen: seq<bool>)
    requires s.Structure() && s.Meaning() && s.Conflict(confl) && Marked(s.t, seen, s.ca[confl].lits)
    ensures SeenEntailed(s.formula, s.t, seen, [])
  {
    hide LongInv, BinInv, LazyInv, DbImplies, ReasonInv, StoreOk;
    var c := s.ca[confl].lits;
    forall a: Assignment | SatAll(a, s.formula) ensures SomeSeenFalse(a, s.t, seen) {
      assert Entails(s.formula, c);
      var q :| q in c && Holds(a, q);
      assert s.t.Value(q) == False;
      if s.t.Lev(q.v) == 0 { RootFalse(s.t, a, q); }
      assert !Holds(a, s.t.On(q.v));
    }
  }

  /** Resolving with the reason of p: p is unmarked and the other literals of its reason are marked instead. */
  lemma ResolveEntailed(s: State, seen: seq<bool>, seen': seq<bool>, p: Lit, cr: nat)
    requires s.Structure() && s.Meaning() && SeenEntailed(s.formula, s.t, seen, [Neg(p)]) && cr < |s.ca|
    requires Grows(seen, seen')
    requires |s.ca[cr].lits| > 0 && s.ca[cr].lits[0] == p && MarkedFrom(s.t, seen', s.ca[cr].lits, 1)
    requires FalseFrom(s.t, s.ca[cr].lits, 1, s.t.Pos(p.v))
    ensures SeenEntailed(s.formula, s.t, seen', [])
  {
    hide LongInv, BinInv, LazyInv, DbImplies, ReasonInv, StoreOk;
    var c := s.ca[cr].lits;
    forall a: Assignment | SatAll(a, s.formula) ensures SomeSeenFalse(a, s.t, seen') {
      if SatClause(a, [Neg(p)]) {
        assert Entails(s.formula, c);
        var q :| q in c && Holds(a, q);
        assert c == [p] + c[1..];
        assert q in c[1..];
        if s.t.Lev(q.v) == 0 { RootFalse(s.t, a, q); }
        assert !Holds(a, s.t.On(q.v));
      } else {
        assert SomeSeenFalse(a, s.t, seen);
      }
    }
  }

  lemma PickEntailed(f: seq<seq<Lit>>, t: Trail, seen: seq<bool>, p: Lit)
    requires SeenEntailed(f, t, seen, []) && p.v < |seen| && t.On(p.v) == p
    ensures SeenEntailed(f, t, seen[p.v := false], [Neg(p)])
  {
    forall a: Assignment | SatAll(a, f) ensures SatClause(a, [Neg(p)]) || SomeSeenFalse(a, t, seen[p.v := false]) {
      assert SomeSeenFalse(a, t, seen);
      var v: nat :| v < |seen| && seen[v] && !Holds(a, t.On(v));
      if v == p.v {
        assert Neg(p) in [Neg(p)];
      } else {
        assert seen[p.v := false][v];
      }
    }
  }

  /** No marked variable of the current level is left: the learnt clause is entailed. */
  lemma LearntEntailed(s: State, seen: seq<bool>, out: seq<Lit>, p: Lit)
    requires s.t.Ok() && Marks(s.t, seen, out, 0) && SeenEntailed(s.formula, s.t, seen, [Neg(p)])
    ensures Entails(s.formula, [Neg(p)] + out)
    ensures forall v: nat :: v < |seen| && seen[v] ==> Neg(s.t.On(v)) in out
  {
    assert CurSeen(s.t, seen) == {};
    forall v: nat | v < |seen| && seen[v] ensures Neg(s.t.On(v)) in out {
      assert v !in CurSeen(s.t, seen);
    }
    forall a: Assignment | SatAll(a, s.formula) ensures SatClause(a, [Neg(p)] + out) {
      if SatClause(a, [Neg(p)]) {
        assert Neg(p) in [Neg(p)] + out;
      } else {
        var v: nat :| v < |seen| && seen[v] && !Holds(a, s.t.On(v));
        assert Neg(s.t.On(v)) in [Neg(p)] + out;
      }
    }
  }

  /** While a marked variable of the current level lies below p, p is no decision: it has a reason. */
  lemma HasReason(s: State, seen: seq<bool>, p: Lit)
    requires s.t.Ok() && ReasonInv(s.t, s.ca, s.reason) && |s.t.lim| > 0
    requires s.t.Value(p) == True && s.t.Lev(p.v) == |s.t.lim|
    requires CurSeen(s.t, seen) != {} && Below(s.t, seen, s.t.Pos(p.v))
    requires forall v: nat :: v < |seen| && seen[v] ==> s.t.Assigned(v)
    ensures p.v < |s.reason| && s.reason[p.v] != CREF_UNDEF && ReasonOk(s.t, s.ca, s.reason[p.v], p.v)
  {
    var v :| v in CurSeen(s.t, seen);
    assert s.t.Assigned(v) && s.t.Assigned(p.v);
    assert s.t.Lev(v) > |s.t.lim| - 1;
    assert s.t.Pos(v) >= s.t.lim[|s.t.lim| - 1];
  }

  // ---------------------------------------------------------------- minimisation

  /** Every literal of the reason of v other than v's own is marked or a root fact. */
  ghost predicate ReasonClosed(s: State, seen: seq<bool>, v: nat) {
    && v < |s.reason| && 0 <= s.reason[v] < |s.ca|
    && forall q :: q in s.ca[s.reason[v]].lits ==>
         q.v == v || s.t.Lev(q.v) == 0 || (q.v < |seen| && seen[q.v])
  }

  /** What the marks say during minimisation of `out` (without the asserting literal). */
  ghost predicate MarkedOrClosed(s: State, seen: seq<bool>, out: seq<Lit>) {
    && |seen| == |s.t.asg|
    && forall v: nat :: v < |seen| && seen[v] ==>
         s.t.Assigned(v) && s.t.Lev(v) > 0 && (Neg(s.t.On(v)) in out || ReasonClosed(s, seen, v))
  }

  lemma ClosedMono(s: State, seen: seq<bool>, seen': seq<bool>, v: nat)
    requires ReasonClosed(s, seen, v) && |seen| == |seen'|
    requires forall x: nat :: x < |seen| && seen[x] ==> seen'[x]
    ensures ReasonClosed(s, seen', v)
  {}

  lemma ClosedSame(s: State, ca': Store, seen: seq<bool>, v: nat)
    requires ReasonClosed(s, seen, v) && SameStore(s.ca, ca')
    ensures ReasonClosed(s.(ca := ca'), seen, v)
  {
    assert SameClause(s.ca[s.reason[v]], ca'[s.reason[v]]);
  }

  /**
   * All removed literals are implied at once: an assignment that satisfies the formula and falsifies what is
   * kept agrees with the trail on every marked variable, by induction on trail order.
   */
  lemma {:induction false} AgreesWithTrail(s: State, seen: seq<bool>, out: seq<Lit>, kept: seq<Lit>, a: Assignment,
      v: nat)
    requires s.Structure() && s.Meaning() && MarkedOrClosed(s, seen, out) && SatAll(a, s.formula)
    requires forall q :: q in out ==> q in kept || ReasonClosed(s, seen, q.v)
    requires forall q :: q in kept ==> !Holds(a, q)
    requires v < |seen| && seen[v]
    ensures Holds(a, s.t.On(v))
    decreases s.t.Pos(v)
  {
    hide LongInv, BinInv, LazyInv, DbImplies, StoreOk;
    if Neg(s.t.On(v)) !in kept {
      assert ReasonClosed(s, seen, v);
      assert s.t.Assigned(v) && 0 < s.t.Lev(v) <= |s.t.lim|;
      var cr := s.reason[v];
      assert ReasonOk(s.t, s.ca, cr, v);
      assert Entails(s.formula, s.ca[cr].lits);
      assert SatClause(a, s.ca[cr].lits);
      var q :| q in s.ca[cr].lits && Holds(a, q);
      if q.v != v {
        assert s.t.Value(q) == False && s.t.Pos(q.v) < s.t.Pos(v);
        if s.t.Lev(q.v) == 0 {
          RootFalse(s.t, a, q);
        } else {
          AgreesWithTrail(s, seen, out, kept, a, q.v);
        }
      }
    }
  }

  lemma MinimisedEntailed(s: State, seen: seq<bool>, out: seq<Lit>, kept: seq<Lit>, p: Lit)
    requires s.Structure() && s.Meaning() && MarkedOrClosed(s, seen, out) && Entails(s.formula, [Neg(p)] + out)
    requires forall q :: q in out ==> q in kept || ReasonClosed(s, seen, q.v)
    requires forall q :: q in out ==> q.v < |seen| && seen[q.v] && s.t.Value(q) == False
    ensures Entails(s.formula, [Neg(p)] + kept)
  {
    hide LongInv, BinInv, LazyInv, DbImplies, StoreOk, ReasonInv, State.Structure, State.Meaning;
    forall a: Assignment | SatAll(a, s.formula) ensures SatClause(a, [Neg(p)] + kept) {
      assert SatClause(a, [Neg(p)] + out);
      var q :| q in [Neg(p)] + out && Holds(a, q);
      if q == Neg(p) {
        assert Neg(p) in [Neg(p)] + kept;
      } else if x :| x in kept && Holds(a, x) {
        assert x in [Neg(p)] + kept;
      } else {
        assert q in out && q == Neg(s.t.On(q.v));
        AgreesWithTrail(s, seen, out, kept, a, q.v);
      }
    }
  }

  ghost predicate HasReasonOk(s: State, v: nat) {
    v < |s.reason| && s.reason[v] != CREF_UNDEF && ReasonOk(s.t, s.ca, s.reason[v], v)
  }

  /** `cr` is the reason of v, with v's literal in front. */
  ghost predicate Fronted(s: State, v: nat, cr: int) {
    && v < |s.reason| && cr == s.reason[v] && 0 <= cr < |s.ca| && |s.ca[cr].lits| >= 2
    && s.ca[cr].lits[0].v == v && ReasonOk(s.t, s.ca, cr, v)
    && Proper(s.ca[cr].lits) && VarsBelow(s.ca[cr].lits, |s.t.asg|)
  }

  /** The front literal of p's reason is p, the others are false and older. */
  lemma ReasonFront(s: State, p: Lit, cr: nat)
    requires Fronted(s, p.v, cr) && s.t.Value(p) == True
    ensures cr < |s.ca| && |s.ca[cr].lits| > 0 && s.ca[cr].lits[0] == p
    ensures FalseFrom(s.t, s.ca[cr].lits, 1, s.t.Pos(p.v))
  {
    var c := s.ca[cr].lits;
    assert c[0] in c;
    forall q | q in c[1..] ensures s.t.Value(q) == False && s.t.Pos(q.v) < s.t.Pos(p.v) {
      var i :| 0 <= i < |c[1..]| && c[1..][i] == q;
      assert c[i + 1] == q && q in c;
    }
  }

  /** The state of the analysis: marks, their count, and what the formula entails about them. */
  ghost predicate Analysing(s: State, seen: seq<bool>, out: seq<Lit>, pathC: int, bound: nat, extra: seq<Lit>) {
    && s.Sound() && |s.t.lim| > 0
    && Marks(s.t, seen, out, pathC) && Below(s.t, seen, bound) && SeenEntailed(s.formula, s.t, seen, extra)
  }

  /** p is a true literal of the current level. */
  ghost predicate Picked(t: Trail, p: Lit) {
    p.v < |t.asg| && t.Value(p) == True && t.Lev(p.v) == |t.lim|
  }

  lemma PickedReason(s: State, seen: seq<bool>, out: seq<Lit>, pathC: int, p: Lit)
    requires Analysing(s, seen, out, pathC, s.t.Pos(p.v), [Neg(p)]) && Picked(s.t, p) && pathC > 0
    ensures HasReasonOk(s, p.v)
  {
    hide State.Meaning, State.Done, SeenEntailed;
    StructureFacts(s);
    PathMarked(s.t, seen, out, pathC, s.t.Pos(p.v));
    HasReason(s, seen, p);
  }

  // ---------------------------------------------------------------- exploring the reasons of one literal

  ghost predicate InVars(qs: seq<Lit>, v: nat) {
    exists q :: q in qs && q.v == v
  }

  ghost predicate Explorable(s: State, v: nat) {
    s.t.Assigned(v) && 0 < s.t.Lev(v) <= |s.t.lim| && v < |s.reason| && s.reason[v] != CREF_UNDEF
  }

  /** `seen` is `seen0` plus the variables of `added`, which were not marked before. */
  ghost predicate Plus(seen0: seq<bool>, seen: seq<bool>, added: seq<Lit>) {
    && |seen| == |seen0|
    && (forall q :: q in added ==> q.v < |seen0| && !seen0[q.v])
    && (forall v: nat :: v < |seen| ==> (seen[v] <==> seen0[v] || InVars(added, v)))
  }

  /** v0 and everything marked on its behalf is closed, or waits on the stack, or is `open` (being expanded). */
  ghost predicate Explored(s: State, seen: seq<bool>, added: seq<Lit>, stack: seq<Lit>, v0: nat, open: int) {
    && (forall q :: q in stack ==> Explorable(s, q.v))
    && (forall q :: q in added ==> Explorable(s, q.v))
    && (forall x: nat :: (x == v0 || InVars(added, x)) && x != open ==> InVars(stack, x) || ReasonClosed(s, seen, x))
  }

  ghost function Unseen(seen: seq<bool>): set<nat> {
    set v: nat | v < |seen| && !seen[v]
  }

  lemma InVarsAppend(qs: seq<Lit>, q: Lit, v: nat)
    ensures InVars(qs + [q], v) <==> InVars(qs, v) || q.v == v
  {
    if InVars(qs, v) {
      var x :| x in qs && x.v == v;
      assert x in qs + [q];
    }
    if q.v == v { assert q in qs + [q]; }
  }

  lemma PopExplored(s: State, seen: seq<bool>, added: seq<Lit>, stack: seq<Lit>, v0: nat)
    requires Explored(s, seen, added, stack, v0, -1) && |stack| > 0
    ensures Explored(s, seen, added, stack[..|stack| - 1], v0, stack[|stack| - 1].v)
    ensures Explorable(s, stack[|stack| - 1].v)
  {
    var rest, q := stack[..|stack| - 1], stack[|stack| - 1];
    assert stack == rest + [q];
    forall x: nat | (x == v0 || InVars(added, x)) && x != q.v ensures InVars(rest, x) || ReasonClosed(s, seen, x) {
      InVarsAppend(rest, q, x);
    }
  }

  lemma PushExplored(s: State, seen0: seq<bool>, seen: seq<bool>, added: seq<Lit>, stack: seq<Lit>, v0: nat, open: nat,
      q: Lit)
    requires Plus(seen0, seen, added) && Explored(s, seen, added, stack, v0, open)
    requires q.v < |seen| && !seen[q.v] && Explorable(s, q.v)
    ensures Plus(seen0, seen[q.v := true], added + [q])
    ensures Explored(s, seen[q.v := true], added + [q], stack + [q], v0, open)
    ensures Grows(seen, seen[q.v := true]) && |Unseen(seen[q.v := true])| < |Unseen(seen)|
  {
    var seen' := seen[q.v := true];
    assert Unseen(seen') == Unseen(seen) - {q.v};
    forall v: nat ensures InVars(added + [q], v) <==> InVars(added, v) || q.v == v {
      InVarsAppend(added, q, v);
    }
    PlusPush(seen0, seen, added, q);
    forall x: nat | (x == v0 || InVars(added + [q], x)) && x != open
      ensures InVars(stack + [q], x) || ReasonClosed(s, seen', x)
    {
      InVarsAppend(stack, q, x);
      if ReasonClosed(s, seen, x) { ClosedMono(s, seen, seen', x); }
    }
  }

  lemma PlusPush(seen0: seq<bool>, seen: seq<bool>, added: seq<Lit>, q: Lit)
    requires Plus(seen0, seen, added) && q.v < |seen| && !seen[q.v]
    requires forall v: nat :: InVars(added + [q], v) <==> InVars(added, v) || q.v == v
    ensures Plus(seen0, seen[q.v := true], added + [q])
  {}

  lemma PlusSize(seen0: seq<bool>, seen: seq<bool>, added: seq<Lit>)
    requires Plus(seen0, seen, added)
    ensures |seen| == |seen0|
  {}

  lemma CloseExplored(s: State, seen: seq<bool>, added: seq<Lit>, stack: seq<Lit>, v0: nat, open: nat)
    requires Explored(s, seen, added, stack, v0, open) && ReasonClosed(s, seen, open)
    ensures Explored(s, seen, added, stack, v0, -1)
  {}

  lemma ExploredSame(s: State, ca': Store, seen: seq<bool>, added: seq<Lit>, stack: seq<Lit>, v0: nat, open: int)
    requires Explored(s, seen, added, stack, v0, open) && SameStore(s.ca, ca')
    ensures Explored(s.(ca := ca'), seen, added, stack, v0, open)
  {
    var s' := s.(ca := ca');
    forall x: nat | (x == v0 || InVars(added, x)) && x != open ensures InVars(stack, x) || ReasonClosed(s', seen, x) {
      if ReasonClosed(s, seen, x) { ClosedSame(s, ca', seen, x); }
    }
  }

  lemma MarkedOrClosedSame(s: State, ca': Store, seen: seq<bool>, out: seq<Lit>)
    requires MarkedOrClosed(s, seen, out) && SameStore(s.ca, ca')
    ensures MarkedOrClosed(s.(ca := ca'), seen, out)
  {
    forall v: nat | v < |seen| && seen[v] && ReasonClosed(s, seen, v) ensures ReasonClosed(s.(ca := ca'), seen, v) {
      ClosedSame(s, ca', seen, v);
    }
  }

  /** A literal is redundant once everything marked on its behalf is closed. */
  lemma RedundantClosed(s: State, seen0: seq<bool>, seen: seq<bool>, added: seq<Lit>, out: seq<Lit>, v0: nat)
    requires MarkedOrClosed(s, seen0, out) && Plus(seen0, seen, added) && Explored(s, seen, added, [], v0, -1)
    ensures MarkedOrClosed(s, seen, out) && ReasonClosed(s, seen, v0) && Grows(seen0, seen)
  {
    forall v: nat | v < |seen| && seen[v]
      ensures s.t.Assigned(v) && s.t.Lev(v) > 0 && (Neg(s.t.On(v)) in out || ReasonClosed(s, seen, v))
    {
      if seen0[v] {
        if ReasonClosed(s, seen0, v) { ClosedMono(s, seen0, seen, v); }
      } else {
        var q :| q in added && q.v == v;
        assert Explorable(s, q.v);
        assert !InVars([], v);
      }
    }
    assert !InVars([], v0);
  }

  lemma ReasonClosedFront(s: State, seen: seq<bool>, v: nat)
    requires v < |s.reason| && 0 <= s.reason[v] < |s.ca| && |s.ca[s.reason[v]].lits| > 0
    requires s.ca[s.reason[v]].lits[0].v == v && MarkedFrom(s.t, seen, s.ca[s.reason[v]].lits, 1)
    ensures ReasonClosed(s, seen, v)
  {
    var c := s.ca[s.reason[v]].lits;
    assert c == [c[0]] + c[1..];
  }

  lemma ConflictMarked(s: State, seen: seq<bool>, out: seq<Lit>, pathC: int, confl: int)
    requires s.Conflict(confl) && |s.t.lim| > 0 && Marks(s.t, seen, out, pathC) && Marked(s.t, seen, s.ca[confl].lits)
    ensures pathC > 0
  {
    var q :| q in s.ca[confl].lits && s.t.Lev(q.v) == |s.t.lim|;
    MarkedPath(s.t, seen, out, pathC, q);
  }

  lemma ConflictFalse(s: State, confl: int)
    requires s.t.Ok() && s.Conflict(confl)
    ensures 0 <= confl < |s.ca|
    ensures FalseFrom(s.t, s.ca[confl].lits, 0, |s.t.lits|) && s.ca[confl].lits[0..] == s.ca[confl].lits
    ensures |s.t.lits| > 0
  {
    var c := s.ca[confl].lits;
    assert c[0..] == c;
    forall q | q in c ensures s.t.Value(q) == False && s.t.Pos(q.v) < |s.t.lits| {
      assert s.t.Assigned(q.v);
    }
    var q :| q in c;
  }

  /** What the first unique implication point leaves behind. */
  ghost predicate Uip(f: seq<seq<Lit>>, t: Trail, seen: seq<bool>, p: Lit, out: seq<Lit>) {
    && Picked(t, p)
    && |seen| == |t.asg| && Proper(out)
    && (forall q :: q in out ==> t.Value(q) == False && 0 < t.Lev(q.v) < |t.lim| && q.v < |seen| && seen[q.v])
    && (forall v: nat :: v < |seen| && seen[v] ==> t.Assigned(v) && t.Lev(v) > 0 && Neg(t.On(v)) in out)
    && Entails(f, [Neg(p)] + out)
  }

  lemma UipReached(s: State, seen: seq<bool>, p: Lit, out: seq<Lit>)
    requires s.t.Ok() && Picked(s.t, p) && Marks(s.t, seen, out, 0) && SeenEntailed(s.formula, s.t, seen, [Neg(p)])
    ensures Uip(s.formula, s.t, seen, p, out)
  {
    LearntEntailed(s, seen, out, p);
  }

  lemma PickedBelow(t: Trail, p: Lit)
    requires t.Ok() && Picked(t, p)
    ensures t.Pos(p.v) < |t.lits|
  {
    assert t.Assigned(p.v);
  }

  /** Marks go to admitted variables only, and what waits on the stack is redundant if v0 is. */
  ghost predicate Wanted(s: State, levels: set<nat>, seen0: seq<bool>, added: seq<Lit>, stack: seq<Lit>, v0: nat,
      open: int)
  {
    && (forall q :: q in added ==> Admitted(s, levels, q.v))
    && (Redundant(s, seen0, levels, v0) ==>
      && (forall q :: q in stack ==> Redundant(s, seen0, levels, q.v))
      && (open >= 0 ==> Redundant(s, seen0, levels, open)))
  }

  /** The exploration facts together. */
  ghost predicate Exploring(s: State, levels: set<nat>, seen0: seq<bool>, seen: seq<bool>, added: seq<Lit>,
      stack: seq<Lit>, v0: nat, open: int)
  {
    && |seen0| == |s.t.asg| && Plus(seen0, seen, added) && Explored(s, seen, added, stack, v0, open)
    && Wanted(s, levels, seen0, added, stack, v0, open)
  }

  /** q is another literal of the reason of v. */
  ghost predicate InReason(s: State, v: nat, q: Lit) {
    v < |s.reason| && 0 <= s.reason[v] < |s.ca| && q in s.ca[s.reason[v]].lits && q.v != v
  }

  lemma PopWanted(s: State, levels: set<nat>, seen0: seq<bool>, added: seq<Lit>, stack: seq<Lit>, v0: nat)
    requires Wanted(s, levels, seen0, added, stack, v0, -1) && |stack| > 0
    ensures Wanted(s, levels, seen0, added, stack[..|stack| - 1], v0, stack[|stack| - 1].v)
  {
    hide Redundant, Admitted;
  }

  lemma PushWanted(s: State, levels: set<nat>, seen0: seq<bool>, seen: seq<bool>, added: seq<Lit>, stack: seq<Lit>,
      v0: nat, open: nat, q: Lit)
    requires Wanted(s, levels, seen0, added, stack, v0, open) && Plus(seen0, seen, added)
    requires InReason(s, open, q) && !MarkedOrRoot(s.t, seen, q.v) && q.v < |seen| && Admitted(s, levels, q.v)
    ensures Wanted(s, levels, seen0, added + [q], stack + [q], v0, open)
  {
    hide Admitted;
    assert Redundant(s, seen0, levels, open) ==> Redundant(s, seen0, levels, q.v);
  }

  /** A literal that is neither marked nor admitted: v0 is not redundant. */
  lemma FailWanted(s: State, levels: set<nat>, seen0: seq<bool>, seen: seq<bool>, added: seq<Lit>, stack: seq<Lit>,
      v0: nat, open: nat, q: Lit)
    requires Wanted(s, levels, seen0, added, stack, v0, open) && Plus(seen0, seen, added)
    requires InReason(s, open, q) && !MarkedOrRoot(s.t, seen, q.v) && q.v < |seen| && !Admitted(s, levels, q.v)
    ensures !Redundant(s, seen0, levels, v0)
  {
    hide Admitted;
  }

  lemma WantedSame(s: State, ca': Store, levels: set<nat>, seen0: seq<bool>, added: seq<Lit>, stack: seq<Lit>, v0: nat,
      open: int)
    requires Wanted(s, levels, seen0, added, stack, v0, open) && SameStore(s.ca, ca')
    ensures Wanted(s.(ca := ca'), levels, seen0, added, stack, v0, open)
  {
    hide Redundant, SameStore;
    RedundantSame(s, ca', seen0, levels, v0);
    forall q | q in stack
      ensures Redundant(s.(ca := ca'), seen0, levels, q.v) == Redundant(s, seen0, levels, q.v)
    {
      RedundantSame(s, ca', seen0, levels, q.v);
    }
    if open >= 0 { RedundantSame(s, ca', seen0, levels, open); }
  }

  /** At the end of the exploration v0 and everything marked on its behalf is redundant. */
  lemma {:induction false} AllRedundant(s: State, levels: set<nat>, seen0: seq<bool>, seen: seq<bool>, added: seq<Lit>,
      v0: nat, x: nat)
    requires s.Sound() && Exploring(s, levels, seen0, seen, added, [], v0, -1) && Explorable(s, v0)
    requires x == v0 || InVars(added, x)
    ensures Redundant(s, seen0, levels, x)
    decreases s.t.Pos(x)
  {
    hide State.Sound;
    assert Explorable(s, x);
    ExplorableReason(s, x);
    assert !InVars([], x) && ReasonClosed(s, seen, x);
    forall q | q in s.ca[s.reason[x]].lits && q.v != x
      ensures s.t.Pos(q.v) < s.t.Pos(x)
      ensures MarkedOrRoot(s.t, seen0, q.v) || (Admitted(s, levels, q.v) && Redundant(s, seen0, levels, q.v))
    {
      if !MarkedOrRoot(s.t, seen0, q.v) {
        assert InVars(added, q.v);
        AllRedundant(s, levels, seen0, seen, added, v0, q.v);
      }
    }
  }

  lemma ExploredMemo(s: State, levels: set<nat>, seen0: seq<bool>, seen: seq<bool>, added: seq<Lit>, v0: nat)
    requires s.Sound() && Exploring(s, levels, seen0, seen, added, [], v0, -1) && Explorable(s, v0)
    ensures Redundant(s, seen0, levels, v0) && Memo(s, seen0, seen, levels)
  {
    hide State.Sound, Redundant, Explored, Explorable;
    AllRedundant(s, levels, seen0, seen, added, v0, v0);
    forall v: nat | v < |seen| && seen[v] && !seen0[v]
      ensures Admitted(s, levels, v) && Redundant(s, seen0, levels, v)
    {
      AllRedundant(s, levels, seen0, seen, added, v0, v);
    }
  }

  lemma MemoFound(s: State, ca': Store, levels: set<nat>, seen0: seq<bool>, seen: seq<bool>, added: seq<Lit>, v0: nat)
    requires SameStore(s.ca, ca') && s.(ca := ca').Sound() && Explorable(s, v0)
    requires Exploring(s.(ca := ca'), levels, seen0, seen, added, [], v0, -1)
    ensures Redundant(s, seen0, levels, v0) && Memo(s, seen0, seen, levels)
  {
    hide Redundant, SameStore, Memo, State.Sound, Exploring;
    ExploredMemo(s.(ca := ca'), levels, seen0, seen, added, v0);
    RedundantSame(s, ca', seen0, levels, v0);
    SameStoreSym(s.ca, ca');
    MemoSame(s.(ca := ca'), s.ca, seen0, seen, levels);
    assert s.(ca := ca').(ca := s.ca) == s;
  }

  /** One more literal of the learnt clause. */
  lemma IrredundantNext(s: State, ca': Store, levels: set<nat>, seen0: seq<bool>, seen: seq<bool>, seen': seq<bool>,
      out: seq<Lit>, i: nat)
    requires SameStore(s.ca, ca') && Memo(s, seen0, seen, levels) && Memo(s.(ca := ca'), seen, seen', levels)
    requires i < |out|
    ensures Memo(s, seen0, seen', levels)
    ensures Irredundant(s, seen0, levels, out[..i + 1]) == Irredundant(s, seen0, levels, out[..i])
      + if Redundant(s.(ca := ca'), seen, levels, out[i].v) then [] else [out[i]]
  {
    hide Redundant, SameStore, Memo;
    RedundantSame(s, ca', seen, levels, out[i].v);
    RedundantMemo(s, seen0, seen, levels, out[i].v);
    SameStoreSym(s.ca, ca');
    MemoSame(s.(ca := ca'), s.ca, seen, seen', levels);
    assert s.(ca := ca').(ca := s.ca) == s;
    MemoMore(s, seen0, seen, seen', levels);
    assert out[..i + 1][..i] == out[..i];
  }

  lemma SameStoreSym(ca: Store, ca': Store)
    requires SameStore(ca, ca')
    ensures SameStore(ca', ca)
  {
    forall cr | 0 <= cr < |ca| ensures SameClause(ca'[cr], ca[cr]) { assert SameClause(ca[cr], ca'[cr]); }
  }

  lemma StartExploring(s: State, levels: set<nat>, seen: seq<bool>, p: Lit)
    requires |seen| == |s.t.asg| && Explorable(s, p.v)
    ensures Exploring(s, levels, seen, seen, [], [p], p.v, -1)
  {
    forall v: nat ensures !InVars([], v) {}
    assert p in [p];
    assert InVars([p], p.v);
  }

  lemma ExplorableReason(s: State, v: nat)
    requires s.Sound() && Explorable(s, v)
    ensures HasReasonOk(s, v)
  {
    hide State.Meaning, State.Done, LongInv, BinInv, LazyInv, StoreOk, Trail.Ok;
  }

  /** Literals 1 to i - 1 of a clause are marked or root facts. */
  ghost predicate MarkedUpTo(t: Trail, seen: seq<bool>, c: seq<Lit>, i: nat) {
    forall k :: 1 <= k < i && k < |c| ==> c[k].v < |seen| && (seen[c[k].v] || t.Lev(c[k].v) == 0)
  }

  lemma MarkedStart(t: Trail, seen: seq<bool>, c: seq<Lit>)
    ensures MarkedUpTo(t, seen, c, 1)
  {}

  lemma MarkedNext(t: Trail, seen: seq<bool>, seen': seq<bool>, c: seq<Lit>, i: nat)
    requires MarkedUpTo(t, seen, c, i) && Grows(seen, seen') && i < |c|
    requires c[i].v < |seen'| && (seen'[c[i].v] || t.Lev(c[i].v) == 0)
    ensures MarkedUpTo(t, seen', c, i + 1)
  {}

  lemma FrontedLits(s: State, v: nat, cr: nat)
    requires s.t.Ok() && Fronted(s, v, cr) && |s.reason| == |s.t.asg|
    ensures cr < |s.ca| && |s.ca[cr].lits| >= 2
    ensures forall i :: 1 <= i < |s.ca[cr].lits| ==>
      var q := s.ca[cr].lits[i]; InReason(s, v, q) && s.t.Assigned(q.v) && s.t.Lev(q.v) <= |s.t.lim|
  {
    var c := s.ca[cr].lits;
    forall i | 1 <= i < |c| ensures s.t.Assigned(c[i].v) && InReason(s, v, c[i]) {
      assert c[i] in c && c[i].v != v;
    }
  }

  /** Resetting the marks made for a literal that turned out not to be redundant. */
  lemma Unplus(seen0: seq<bool>, seen: seq<bool>, added: seq<Lit>, seen': seq<bool>)
    requires Plus(seen0, seen, added) && |seen'| == |seen|
    requires forall v: nat :: v < |seen| ==> seen'[v] == (if InVars(added, v) then false else seen[v])
    ensures seen' == seen0
  {
    forall v: nat | v < |seen| ensures seen'[v] == seen0[v] {
      if InVars(added, v) {
        var q :| q in added && q.v == v;
      }
    }
  }

  lemma ExpandedClosed(s: State, levels: set<nat>, seen0: seq<bool>, seen: seq<bool>, added: seq<Lit>,
      stack: seq<Lit>, v0: nat, v: nat, cr: nat)
    requires Exploring(s, levels, seen0, seen, added, stack, v0, v) && Fronted(s, v, cr)
    requires MarkedUpTo(s.t, seen, s.ca[cr].lits, |s.ca[cr].lits|)
    ensures Exploring(s, levels, seen0, seen, added, stack, v0, -1)
  {
    assert MarkedFrom(s.t, seen, s.ca[cr].lits, 1);
    ReasonClosedFront(s, seen, v);
    assert Wanted(s, levels, seen0, added, stack, v0, -1);
    CloseExplored(s, seen, added, stack, v0, v);
  }

  // ---------------------------------------------------------------- the minimised clause

  /** Progress of the minimisation loop: the first i literals of `out` are kept or closed. */
  ghost predicate Minimising(s: State, seen: seq<bool>, out: seq<Lit>, i: nat, kept: seq<Lit>) {
    && i <= |out| && MarkedOrClosed(s, seen, out)
    && (forall k :: 0 <= k < i ==> out[k] in kept || ReasonClosed(s, seen, out[k].v))
    && (forall q :: q in kept ==> q in out[..i])
    && Proper(kept)
    && (forall q :: q in out ==> q.v < |seen| && seen[q.v])
  }

  lemma UipFacts(f: seq<seq<Lit>>, t: Trail, seen: seq<bool>, p: Lit, out: seq<Lit>)
    requires Uip(f, t, seen, p, out)
    ensures |seen| == |t.asg| && Proper(out)
    ensures forall i :: 0 <= i < |out| ==> out[i].v < |t.asg| && t.Assigned(out[i].v) && 0 < t.Lev(out[i].v) <= |t.lim|
  {
    forall i | 0 <= i < |out| ensures t.Assigned(out[i].v) && 0 < t.Lev(out[i].v) <= |t.lim| {
      assert out[i] in out;
    }
  }

  lemma StartMinimising(s: State, seen: seq<bool>, p: Lit, out: seq<Lit>)
    requires Uip(s.formula, s.t, seen, p, out)
    ensures Minimising(s, seen, out, 0, [])
  {}

  lemma KeepLit(s: State, seen: seq<bool>, out: seq<Lit>, i: nat, kept: seq<Lit>)
    requires Minimising(s, seen, out, i, kept) && i < |out| && Proper(out)
    ensures Minimising(s, seen, out, i + 1, kept + [out[i]])
  {
    var kept' := kept + [out[i]];
    assert forall q :: q in kept' <==> q in kept || q == out[i];
    assert out[..i+1] == out[..i] + [out[i]];
    forall k | 0 <= k < |kept| ensures kept[k].v != out[i].v {
      assert kept[k] in out[..i];
      var m :| 0 <= m < |out[..i]| && out[..i][m] == kept[k];
      assert out[m] == kept[k];
    }
  }

  lemma DropLit(s: State, levels: set<nat>, seen: seq<bool>, seen': seq<bool>, added: seq<Lit>, out: seq<Lit>, i: nat,
      kept: seq<Lit>)
    requires Minimising(s, seen, out, i, kept) && i < |out|
    requires Exploring(s, levels, seen, seen', added, [], out[i].v, -1)
    ensures Minimising(s, seen', out, i + 1, kept)
  {
    hide State.Structure, State.Meaning, State.Sound, MarkedOrClosed, ReasonClosed, Explored, Proper, Wanted;
    RedundantClosed(s, seen, seen', added, out, out[i].v);
    forall k | 0 <= k < i && ReasonClosed(s, seen, out[k].v) ensures ReasonClosed(s, seen', out[k].v) {
      ClosedMono(s, seen, seen', out[k].v);
    }
    assert out[..i+1] == out[..i] + [out[i]];
  }

  lemma MinimisingSame(s: State, ca': Store, seen: seq<bool>, out: seq<Lit>, i: nat, kept: seq<Lit>)
    requires Minimising(s, seen, out, i, kept) && SameStore(s.ca, ca')
    ensures Minimising(s.(ca := ca'), seen, out, i, kept)
  {
    MarkedOrClosedSame(s, ca', seen, out);
    forall k | 0 <= k < i && ReasonClosed(s, seen, out[k].v) ensures ReasonClosed(s.(ca := ca'), seen, out[k].v) {
      ClosedSame(s, ca', seen, out[k].v);
    }
  }

  /** An entailed clause: p negated (of the current level), the rest false and of lower levels. */
  ghost predicate Learnt(f: seq<seq<Lit>>, t: Trail, p: Lit, rest: seq<Lit>) {
    && Picked(t, p) && Proper(rest)
    && (forall q :: q in rest ==> q.v < |t.asg| && t.Value(q) == False && 0 < t.Lev(q.v) < |t.lim|)
    && Entails(f, [Neg(p)] + rest)
  }

  lemma Minimised(s: State, seen0: seq<bool>, seen: seq<bool>, p: Lit, out: seq<Lit>, kept: seq<Lit>)
    requires s.Sound() && Uip(s.formula, s.t, seen0, p, out) && Minimising(s, seen, out, |out|, kept)
    ensures Learnt(s.formula, s.t, p, kept)
  {
    hide State.Structure, State.Meaning, State.Done, MarkedOrClosed, ReasonClosed;
    assert out[..|out|] == out;
    forall q | q in out ensures q in kept || ReasonClosed(s, seen, q.v) {
      var k :| 0 <= k < |out| && out[k] == q;
    }
    MinimisedEntailed(s, seen, out, kept, p);
  }

  // ---------------------------------------------------------------- clearing the marks

  /** Every mark is on the list of variables to clear. */
  ghost predicate Listed(seen: seq<bool>, toclear: seq<Lit>) {
    && (forall q :: q in toclear ==> q.v < |seen|)
    && forall v: nat :: v < |seen| && seen[v] ==> InVars(toclear, v)
  }

  lemma StartListed(f: seq<seq<Lit>>, t: Trail, seen: seq<bool>, p: Lit, out: seq<Lit>)
    requires Uip(f, t, seen, p, out)
    ensures Listed(seen, [Neg(p)] + out)
  {
    forall v: nat | v < |seen| && seen[v] ensures InVars([Neg(p)] + out, v) {
      assert Neg(t.On(v)) in [Neg(p)] + out;
    }
  }

  lemma MoreListed(seen0: seq<bool>, seen: seq<bool>, added: seq<Lit>, toclear: seq<Lit>)
    requires Listed(seen0, toclear) && Plus(seen0, seen, added)
    ensures Listed(seen, toclear + added)
  {
    forall v: nat | v < |seen| && seen[v] ensures InVars(toclear + added, v) {
      if seen0[v] {
        var q :| q in toclear && q.v == v;
        assert q in toclear + added;
      } else {
        var q :| q in added && q.v == v;
        assert q in toclear + added;
      }
    }
  }

  // ---------------------------------------------------------------- minimisation with binary clauses

  /** The formula entails: not p, or the negation of q. */
  ghost predicate BinImplied(f: seq<seq<Lit>>, p: Lit, q: Lit) {
    Entails(f, [Neg(p), Neg(q)])
  }

  lemma BinWatcherImplied(s: State, p: Lit, w: Watcher)
    requires s.Sound() && p in s.wb && w in s.wb[p]
    ensures w.blocker.v < |s.t.asg| && BinImplied(s.formula, p, Neg(w.blocker))
  {
    hide LongInv, LazyInv, ReasonInv, Trail.Ok, RootEntailed, DbImplies, State.Done, Covers;
    assert BinListOk(s.ca, p, s.wb[p]);
    assert BinFits(s.ca, p, w);
    var c := s.ca[w.cref].lits;
    assert Entails(s.formula, c) && VarsBelow(c, |s.t.asg|) && w.blocker in c;
    forall a: Assignment | SatAll(a, s.formula) ensures SatClause(a, [Neg(p), w.blocker]) {
      var x :| x in c && Holds(a, x);
      assert x in [Neg(p), w.blocker];
    }
  }

  /** Each literal of `rest` is still flagged or implied by a binary clause. */
  ghost predicate Flagging(f: seq<seq<Lit>>, p: Lit, rest: seq<Lit>, flagged: set<nat>) {
    forall q :: q in rest ==> q.v in flagged || BinImplied(f, p, q)
  }

  lemma Unflag(f: seq<seq<Lit>>, t: Trail, p: Lit, rest: seq<Lit>, flagged: set<nat>, imp: Lit)
    requires Flagging(f, p, rest, flagged) && BinImplied(f, p, Neg(imp)) && t.Value(imp) == True
    requires forall q :: q in rest ==> t.Value(q) == False
    ensures Flagging(f, p, rest, flagged - {imp.v})
  {
    forall q | q in rest && q.v == imp.v ensures q == Neg(imp) {}
  }

  const MIN_SIZE_MINIMIZING_CLAUSE: nat := 30
  const MIN_LBD_MINIMIZING_CLAUSE: nat := 6

  ghost function LevelSet(t: Trail, c: seq<Lit>): set<nat> {
    set i | 0 <= i < |c| :: t.Lev(c[i].v)
  }

  /** The number of distinct decision levels among the literals of a clause. */
  ghost function LbdOf(t: Trail, c: seq<Lit>): nat {
    |LevelSet(t, c)|
  }

  /** A binary watcher says that q is false. */
  predicate BinRefuted(ws: seq<Watcher>, q: Lit) {
    exists k :: 0 <= k < |ws| && ws[k].blocker == Neg(q)
  }

  /**
   * What minimisation with the binary clauses of p leaves: nothing is removed from a long clause or one of many levels.
   */
  ghost predicate BinReduced(t: Trail, wb: WatchLists, p: Lit, rest: seq<Lit>, rest': seq<Lit>) {
    if |rest| + 1 > MIN_SIZE_MINIMIZING_CLAUSE || LbdOf(t, [Neg(p)] + rest) > MIN_LBD_MINIMIZING_CLAUSE then
      rest' == rest
    else
      p in wb && Proper(rest') && forall q :: q in rest' <==> q in rest && !BinRefuted(wb[p], q)
  }

  /** Exactly the literals not refuted by the watchers are flagged. */
  ghost predicate FlagsExact(rest: seq<Lit>, flagged: set<nat>, ws: seq<Watcher>) {
    forall q :: q in rest ==> (q.v in flagged <==> !BinRefuted(ws, q))
  }

  lemma FlagNext(t: Trail, rest: seq<Lit>, flagged: set<nat>, ws: seq<Watcher>, w: Watcher)
    requires FlagsExact(rest, flagged, ws) && forall q :: q in rest ==> t.Value(q) == False
    ensures FlagsExact(rest,
      if w.blocker.v in flagged && t.Value(w.blocker) == True then flagged - {w.blocker.v} else flagged, ws + [w])
  {
    forall q | q in rest ensures BinRefuted(ws + [w], q) <==> BinRefuted(ws, q) || w.blocker == Neg(q) {
      if BinRefuted(ws, q) {
        var k :| 0 <= k < |ws| && ws[k].blocker == Neg(q);
        assert (ws + [w])[k].blocker == Neg(q);
      }
      if w.blocker == Neg(q) { assert (ws + [w])[|ws|].blocker == Neg(q); }
    }
  }

  lemma ProperTail(c: seq<Lit>)
    requires Proper(c) && |c| > 0
    ensures Proper(c[1..])
  {}

  lemma NoneRefuted(rest: seq<Lit>)
    ensures FlagsExact(rest, VarSet(rest), [])
  {}

  lemma FlagsReduced(t: Trail, wb: WatchLists, p: Lit, rest: seq<Lit>, flagged: set<nat>, rest': seq<Lit>)
    requires |rest| + 1 <= MIN_SIZE_MINIMIZING_CLAUSE && LbdOf(t, [Neg(p)] + rest) <= MIN_LBD_MINIMIZING_CLAUSE
    requires p in wb && FlagsExact(rest, flagged, wb[p]) && Proper(rest')
    requires forall q :: q in rest' <==> q in rest && q.v in flagged
    ensures BinReduced(t, wb, p, rest, rest')
  {}

  lemma BinMinimised(f: seq<seq<Lit>>, t: Trail, p: Lit, rest: seq<Lit>, flagged: set<nat>, rest': seq<Lit>)
    requires Learnt(f, t, p, rest) && Flagging(f, p, rest, flagged) && Proper(rest')
    requires forall q :: q in rest' ==> q in rest
    requires forall q :: q in rest && q.v in flagged ==> q in rest'
    ensures Learnt(f, t, p, rest')
  {
    forall a: Assignment | SatAll(a, f) ensures SatClause(a, [Neg(p)] + rest') {
      var q :| q in [Neg(p)] + rest && Holds(a, q);
      if q == Neg(p) || q in rest' {
        assert q in [Neg(p)] + rest';
      } else {
        assert BinImplied(f, p, q);
        var x :| x in [Neg(p), Neg(q)] && Holds(a, x);
        assert x == Neg(p) && x in [Neg(p)] + rest';
      }
    }
  }

  function VarSet(c: seq<Lit>): set<nat> {
    set i | 0 <= i < |c| :: c[i].v
  }

  lemma {:induction false} VarSetCard(c: seq<Lit>)
    requires Proper(c)
    ensures |VarSet(c)| == |c|
  {
    if c != [] {
      var d := c[..|c| - 1];
      VarSetCard(d);
      assert VarSet(c) == VarSet(d) + {c[|c| - 1].v} by {
        assert forall i :: 0 <= i < |d| ==> c[i] == d[i];
      }
      assert c[|c| - 1].v !in VarSet(d);
    }
  }

  /** At most |flagged| flagged and at most |s| - |flagged| unflagged variables fit in a duplicate-free clause. */
  lemma SliceCard(c: seq<Lit>, i: nat, j: nat, s: set<nat>)
    requires i <= j <= |c| && Proper(c) && forall k :: i <= k < j ==> c[k].v in s
    ensures j - i <= |s|
    ensures j - i == |s| ==> forall x :: x in s ==> exists k :: i <= k < j && c[k].v == x
  {
    var d := c[i..j];
    VarSetCard(d);
    assert VarSet(d) <= s;
    SubsetCard(VarSet(d), s);
    if j - i == |s| {
      forall x | x in s ensures exists k :: i <= k < j && c[k].v == x {
        var m :| 0 <= m < |d| && d[m].v == x;
        assert c[i + m].v == x;
      }
    }
  }

  // ---------------------------------------------------------------- the result of the analysis

  /**
   * An asserting clause: entailed, false, its first literal alone of the current level, its second of level bt, the
   * highest of the rest.
   */
  ghost predicate Asserting(f: seq<seq<Lit>>, t: Trail, learnt: seq<Lit>, bt: nat) {
    && |learnt| >= 1 && Proper(learnt) && VarsBelow(learnt, |t.asg|) && Entails(f, learnt) && t.AllFalse(learnt)
    && t.Lev(learnt[0].v) == |t.lim| && bt < |t.lim|
    && (|learnt| == 1 ==> bt == 0)
    && (|learnt| > 1 ==> t.Lev(learnt[1].v) == bt)
    && (forall i :: 1 <= i < |learnt| ==> 0 < t.Lev(learnt[i].v) <= bt)
  }

  lemma LearntLits(f: seq<seq<Lit>>, t: Trail, p: Lit, rest: seq<Lit>)
    requires t.Ok() && Learnt(f, t, p, rest)
    ensures Proper([Neg(p)] + rest) && VarsBelow([Neg(p)] + rest, |t.asg|)
    ensures forall i :: 0 <= i < |rest| ==> rest[i].v < |t.asg| && 0 < t.Lev(rest[i].v) < |t.lim|
    ensures t.AllFalse([Neg(p)] + rest)
  {
    var c := [Neg(p)] + rest;
    forall i | 0 <= i < |rest|
      ensures t.Value(rest[i]) == False && rest[i].v < |t.asg| && 0 < t.Lev(rest[i].v) < |t.lim|
    {
      assert rest[i] in rest;
    }
    forall i, j | 0 <= i < j < |c| ensures c[i].v != c[j].v {
      assert rest[j - 1] in rest;
    }
  }

  /** Rearranging a clause behind its first literal keeps what is entailed. */
  lemma EntailsSame(f: seq<seq<Lit>>, c: seq<Lit>, d: seq<Lit>)
    requires Entails(f, c) && forall q :: q in c ==> q in d
    ensures Entails(f, d)
  {
    forall a: Assignment | SatAll(a, f) ensures SatClause(a, d) {
      var q :| q in c && Holds(a, q);
      assert q in d;
    }
  }

  lemma AssertingUnit(f: seq<seq<Lit>>, t: Trail, p: Lit)
    requires t.Ok() && Learnt(f, t, p, []) && |t.lim| > 0
    ensures Asserting(f, t, [Neg(p)], 0)
  {
    LearntLits(f, t, p, []);
    assert [Neg(p)] + [] == [Neg(p)];
  }

  lemma AssertingMany(f: seq<seq<Lit>>, t: Trail, p: Lit, rest: seq<Lit>, m: nat)
    requires t.Ok() && Learnt(f, t, p, rest) && |t.lim| > 0 && m < |rest|
    requires forall i :: 0 <= i < |rest| && rest[i].v < |t.level| ==> t.Lev(rest[i].v) <= t.Lev(rest[m].v)
    ensures Asserting(f, t, Swap([Neg(p)] + rest, 1, m + 1), t.Lev(rest[m].v))
  {
    hide Entails;
    var c := [Neg(p)] + rest;
    var d := Swap(c, 1, m + 1);
    LearntLits(f, t, p, rest);
    SwapSame(c, 1, m + 1);
    EntailsSame(f, c, d);
    forall i | 1 <= i < |d| ensures 0 < t.Lev(d[i].v) <= t.Lev(rest[m].v) {
      assert d[i] == rest[if i == m + 1 then 0 else if i == 1 then m else i - 1];
    }
  }

  lemma LearntFacts(f: seq<seq<Lit>>, t: Trail, p: Lit, rest: seq<Lit>)
    requires Learnt(f, t, p, rest)
    ensures Proper(rest) && forall q :: q in rest ==> t.Value(q) == False
  {}

  lemma FlagAll(f: seq<seq<Lit>>, p: Lit, rest: seq<Lit>)
    ensures Flagging(f, p, rest, VarSet(rest))
  {}

  // ---------------------------------------------------------------- the in-place partition of the learnt clause

  /** `out` rearranges `learnt` behind index 0: flagged before i, unflagged after l. */
  ghost predicate Partitioning(learnt: seq<Lit>, out: seq<Lit>, flagged: set<nat>, i: int, l: int) {
    && |out| == |learnt| > 0 && out[0] == learnt[0] && Proper(out) && l < |out|
    && (forall q :: q in out <==> q in learnt)
    && (forall k :: 1 <= k < i && k < |out| ==> out[k].v in flagged)
    && (forall k :: l < k < |out| && 0 <= k ==> out[k].v !in flagged)
  }

  lemma PartitionStart(learnt: seq<Lit>, flagged: set<nat>, nb: nat)
    requires |learnt| > 0 && Proper(learnt)
    ensures Partitioning(learnt, learnt, flagged, 1, |learnt| - 1)
  {}

  lemma TailVars(learnt: seq<Lit>, out: seq<Lit>, k: nat)
    requires |out| == |learnt| > 0 && out[0] == learnt[0] && Proper(out) && Proper(learnt)
    requires forall q :: q in out <==> q in learnt
    requires 1 <= k < |out|
    ensures out[k].v in VarSet(learnt[1..])
  {
    assert out[k] in out;
    var m :| 0 <= m < |learnt| && learnt[m] == out[k];
    assert m != 0;
    assert learnt[1..][m - 1] == out[k];
  }

  /** The unflagged literals still to move leave room: i never passes l. */
  lemma PartitionBound(learnt: seq<Lit>, out: seq<Lit>, flagged: set<nat>, nb: nat, i: nat, l: nat)
    requires Partitioning(learnt, out, flagged, i, l) && 1 <= i < |out| - nb
    requires Proper(learnt) && flagged <= VarSet(learnt[1..]) && |flagged| + nb == |learnt| - 1
    ensures i <= l
  {
    var rejected := VarSet(learnt[1..]) - flagged;
    VarSetCard(learnt[1..]);
    assert |rejected| == nb by { assert VarSet(learnt[1..]) == flagged + rejected; }
    if l < i {
      forall k | i <= k < |out| ensures out[k].v in rejected { TailVars(learnt, out, k); }
      SliceCard(out, i, |out|, rejected);
    }
  }

  lemma PartitionSwap(learnt: seq<Lit>, out: seq<Lit>, flagged: set<nat>, i: nat, l: nat)
    requires Partitioning(learnt, out, flagged, i, l) && 1 <= i <= l && out[i].v !in flagged
    ensures Partitioning(learnt, Swap(out, i, l), flagged, i, l - 1)
  {
    SwapSame(out, i, l);
  }

  lemma PartitionDone(learnt: seq<Lit>, out: seq<Lit>, flagged: set<nat>, nb: nat, i: nat, l: nat)
    requires Partitioning(learnt, out, flagged, i, l) && 1 <= i && i >= |out| - nb
    requires Proper(learnt) && flagged <= VarSet(learnt[1..]) && |flagged| + nb == |learnt| - 1
    ensures Proper(out[..|learnt| - nb])
    ensures forall q :: q in out[..|learnt| - nb][1..] <==> q in learnt[1..] && q.v in flagged
  {
    var n := |learnt| - nb;
    var d := out[..n];
    SliceCard(out, 1, n, flagged);
    forall q | q in d[1..] ensures q in learnt[1..] && q.v in flagged {
      var k :| 0 <= k < |d[1..]| && d[1..][k] == q;
      assert out[k + 1] == q && q in out;
      var m :| 0 <= m < |learnt| && learnt[m] == q;
      assert m != 0;
      assert learnt[1..][m - 1] == q;
    }
    forall q | q in learnt[1..] && q.v in flagged ensures q in d[1..] {
      var m :| 0 <= m < |learnt[1..]| && learnt[1..][m] == q;
      assert learnt[m + 1] == q && q in out;
      var j :| 0 <= j < |out| && out[j] == q;
      var k :| 1 <= k < n && out[k].v == q.v;
      assert j == k;
      assert d[1..][k - 1] == q;
    }
  }

  lemma KeysAt(s: State, p: Lit)
    requires s.Sound() && p.v < |s.t.asg|
    ensures p in s.ws && p in s.wb
  {
    hide State.Meaning, State.Done, LazyInv, ReasonInv, Covers, LongListOk, BinListOk, StoreOk, Trail.Ok;
  }
}
