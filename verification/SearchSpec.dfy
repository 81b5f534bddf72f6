/** Backtracking, clause addition and removal, and what a finished search means, on values. */
module SearchSpec {
  import opened Cnf
  import opened SolverSpec
  import opened Analysis

  // ---------------------------------------------------------------- backtracking

  /** `t'` is `t` without everything above level l. */
  ghost predicate IsCut(t: Trail, t': Trail, l: nat) {
    && l < |t.lim| && t.lim[l] <= |t.lits|
    && t'.lits == t.lits[..t.lim[l]] && t'.lim == t.lim[..l]
    && |t'.asg| == |t.asg| && t'.level == t.level && t'.pos == t.pos
    && (forall v: nat :: v < |t.asg| ==>
          t'.asg[v] == (if t.Assigned(v) && t.Pos(v) < t.lim[l] then t.asg[v] else Undef))
  }

  lemma CutOk(t: Trail, t': Trail, l: nat)
    requires t.Ok() && IsCut(t, t', l)
    ensures t'.Ok()
    ensures forall v: nat :: t'.Assigned(v) <==> t.Assigned(v) && t.Lev(v) <= l
    ensures forall q: Lit :: t'.Value(q) != Undef ==> t'.Value(q) == t.Value(q)
  {
    forall v: nat | t.Assigned(v) ensures t.Pos(v) < t.lim[l] <==> t.Lev(v) <= l {}
  }

  lemma CutSatBy(t: Trail, t': Trail, l: nat, c: seq<Lit>, m: nat)
    requires t.Ok() && IsCut(t, t', l) && t.SatBy(c, m) && m <= l
    ensures t'.SatBy(c, m)
  {
    CutOk(t, t', l);
    var p :| p in c && t.Value(p) == True && t.Lev(p.v) <= m;
    assert t.Assigned(p.v);
    assert t'.Assigned(p.v);
  }

  lemma CutPropagated(t: Trail, t': Trail, l: nat, ca: Store, ws: WatchLists)
    requires t.Ok() && IsCut(t, t', l) && Propagated(t, ca, ws, t.lim[l])
    ensures Propagated(t', ca, ws, t.lim[l])
  {
    CutOk(t, t', l);
    forall j | 0 <= j < t.lim[l] && t'.lits[j] in ws
      ensures ListDone(t', ca, ws[t'.lits[j]], t'.Lev(t'.lits[j].v))
    {
      assert t.lits[j] == t'.lits[j];
      var v := t.lits[j].v;
      assert t.Value(t.lits[j]) == True && t.Assigned(v) && t.Pos(v) == j;
      assert t.Lev(v) <= l;
      forall k | 0 <= k < |ws[t.lits[j]]| && ws[t.lits[j]][k].cref < |ca|
        ensures t'.SatBy(ca[ws[t.lits[j]][k].cref].lits, t'.Lev(v))
      {
        CutSatBy(t, t', l, ca[ws[t.lits[j]][k].cref].lits, t.Lev(v));
      }
    }
  }

  lemma CutHeld(t: Trail, t': Trail, l: nat, ca: Store, reason: seq<int>)
    requires t.Ok() && IsCut(t, t', l) && HeldInv(t, ca, reason)
    ensures HeldInv(t', ca, reason)
  {
    hide Holding;
    CutOk(t, t', l);
    forall v: nat | t'.Assigned(v) ensures t.Assigned(v) && t'.On(v) == t.On(v) {}
  }

  lemma CutReason(t: Trail, t': Trail, l: nat, ca: Store, reason: seq<int>)
    requires t.Ok() && IsCut(t, t', l) && ReasonInv(t, ca, reason)
    ensures ReasonInv(t', ca, reason)
  {
    hide HeldInv;
    CutOk(t, t', l);
    CutHeld(t, t', l, ca, reason);
    forall v: nat | t'.Assigned(v) && 0 < t'.Lev(v) <= |t'.lim|
      ensures if reason[v] == CREF_UNDEF then t'.Pos(v) == t'.lim[t'.Lev(v) - 1] else ReasonOk(t', ca, reason[v], v)
    {
      assert t.Assigned(v);
      if reason[v] != CREF_UNDEF {
        assert ReasonOk(t, ca, reason[v], v);
        forall p | p in ca[reason[v]].lits
          ensures if p.v == v then t'.Value(p) == True else t'.Value(p) == False && t'.Pos(p.v) < t'.Pos(v)
        {
          assert t.Assigned(p.v);
          assert t.Pos(v) < t.lim[l] && t.Pos(p.v) <= t.Pos(v);
        }
      }
    }
  }

  lemma CutRoot(t: Trail, t': Trail, l: nat, a: Assignment)
    requires t.Ok() && IsCut(t, t', l)
    ensures t'.RootHolds(a) <==> t.RootHolds(a)
  {
    CutOk(t, t', l);
    forall v: nat | t.Assigned(v) && t.Lev(v) == 0 ensures t'.Assigned(v) && t'.On(v) == t.On(v) {
      assert t'.Assigned(v);
    }
    forall v: nat | t'.Assigned(v) ensures t.Assigned(v) && t'.On(v) == t.On(v) {}
  }

  /** The state after backtracking to level l: everything left is propagated. */
  lemma CutStep(s: State, t': Trail, l: nat)
    requires s.Sound() && IsCut(s.t, t', l)
    ensures var s' := s.(t := t', qhead := s.t.lim[l]);
      s'.Structure() && s'.Meaning() && s'.Done(s'.qhead) && s'.qhead == |s'.t.lits|
  {
    hide Trail.Ok, StoreOk, LongInv, BinInv, LazyInv, Propagated, ReasonInv, StoreEntailed, IsCut;
    SoundFacts(s);
    CutBounds(s.t, t', l);
    CutOk(s.t, t', l);
    CutReason(s.t, t', l, s.ca, s.reason);
    DoneLess(s, s.t.lim[l], s.t.Root());
    CutPropagated(s.t, t', l, s.ca, s.ws);
    CutPropagated(s.t, t', l, s.ca, s.wb);
    forall a: Assignment ensures t'.RootHolds(a) <==> s.t.RootHolds(a) { CutRoot(s.t, t', l, a); }
  }

  lemma CutBounds(t: Trail, t': Trail, l: nat)
    requires t.Ok() && IsCut(t, t', l)
    ensures l < |t.lim| && t.lim[l] == |t'.lits| <= |t.lits| && t.lim[l] <= t.Root() && |t'.asg| == |t.asg|
  {}

  // ---------------------------------------------------------------- adding a clause to the store

  function Attached(ws: WatchLists, c: seq<Lit>, cr: nat): WatchLists
    requires |c| >= 2 && Neg(c[0]) in ws && Neg(c[1]) in ws
  {
    var ws1 := ws[Neg(c[0]) := ws[Neg(c[0])] + [Watcher(cr, c[1])]];
    ws1[Neg(c[1]) := ws1[Neg(c[1])] + [Watcher(cr, c[0])]]
  }

  /** A watcher list after a new clause was allocated and one of its watchers appended. */
  lemma AppendLong(ca: Store, cl: Clause, p: Lit, ws: seq<Watcher>, b: Lit)
    requires LongListOk(ca, p, ws)
    requires |cl.lits| > 2 && (cl.lits[0] == Neg(p) || cl.lits[1] == Neg(p)) && b in cl.lits && b != Neg(p)
    ensures LongListOk(ca + [cl], p, ws + [Watcher(|ca|, b)])
  {
    var w, l := Watcher(|ca|, b), ws + [Watcher(|ca|, b)];
    forall k | 0 <= k < |l| ensures LongFits(ca + [cl], p, l[k]) {
      if k < |ws| { assert LongFits(ca, p, ws[k]); }
    }
    forall k | 0 <= k < |ws| ensures ws[k].cref != |ca| { assert LongFits(ca, p, ws[k]); }
  }

  lemma AppendBin(ca: Store, cl: Clause, p: Lit, wb: seq<Watcher>, b: Lit)
    requires BinListOk(ca, p, wb)
    requires cl.lits == [Neg(p), b] || cl.lits == [b, Neg(p)]
    ensures BinListOk(ca + [cl], p, wb + [Watcher(|ca|, b)])
  {
    var w, l := Watcher(|ca|, b), wb + [Watcher(|ca|, b)];
    forall k | 0 <= k < |l| ensures BinFits(ca + [cl], p, l[k]) {
      if k < |wb| { assert BinFits(ca, p, wb[k]); }
    }
    forall k | 0 <= k < |wb| ensures wb[k].cref != |ca| { assert BinFits(ca, p, wb[k]); }
  }

  lemma GrowLong(ca: Store, cl: Clause, p: Lit, ws: seq<Watcher>)
    requires LongListOk(ca, p, ws)
    ensures LongListOk(ca + [cl], p, ws)
  {
    forall k | 0 <= k < |ws| ensures LongFits(ca + [cl], p, ws[k]) { assert LongFits(ca, p, ws[k]); }
  }

  lemma GrowBin(ca: Store, cl: Clause, p: Lit, wb: seq<Watcher>)
    requires BinListOk(ca, p, wb)
    ensures BinListOk(ca + [cl], p, wb)
  {
    forall k | 0 <= k < |wb| ensures BinFits(ca + [cl], p, wb[k]) { assert BinFits(ca, p, wb[k]); }
  }

  lemma WatchedAppend(ws: seq<Watcher>, w: Watcher, x: nat)
    ensures Watched(ws + [w], x) <==> Watched(ws, x) || w.cref == x
  {
    if Watched(ws, x) {
      var k :| 0 <= k < |ws| && ws[k].cref == x;
      assert (ws + [w])[k].cref == x;
    }
    if w.cref == x { assert (ws + [w])[|ws|].cref == x; }
  }

  lemma AttachedCovers(ca: Store, ws: WatchLists, cl: Clause, long: bool)
    requires Covers(ca, ws, long) && |cl.lits| >= 2 && (|cl.lits| > 2) == long
    requires Neg(cl.lits[0]) in ws && Neg(cl.lits[1]) in ws && cl.lits[0].v != cl.lits[1].v
    ensures Covers(ca + [cl], Attached(ws, cl.lits, |ca|), long)
  {
    var c := cl.lits;
    var ca', ws' := ca + [cl], Attached(ws, c, |ca|);
    var q0, q1 := Neg(c[0]), Neg(c[1]);
    forall x, i | 0 <= x < |ca'| && !ca'[x].deleted && |ca'[x].lits| >= 2 && (|ca'[x].lits| > 2) == long && 0 <= i < 2
      ensures Neg(ca'[x].lits[i]) in ws' && Watched(ws'[Neg(ca'[x].lits[i])], x)
    {
      WatchedAppend(ws[q0], Watcher(|ca|, c[1]), x);
      WatchedAppend(ws[q1], Watcher(|ca|, c[0]), x);
      if x < |ca| { assert ca'[x] == ca[x]; }
    }
  }

  lemma GrowCovers(ca: Store, ws: WatchLists, cl: Clause, long: bool)
    requires Covers(ca, ws, long) && |cl.lits| >= 2 && (|cl.lits| > 2) != long
    ensures Covers(ca + [cl], ws, long)
  {
    forall x, i | 0 <= x < |ca + [cl]| && !(ca + [cl])[x].deleted && |(ca + [cl])[x].lits| >= 2
      && (|(ca + [cl])[x].lits| > 2) == long && 0 <= i < 2
      ensures Neg((ca + [cl])[x].lits[i]) in ws && Watched(ws[Neg((ca + [cl])[x].lits[i])], x)
    {
      assert (ca + [cl])[x] == ca[x];
    }
  }

  ghost predicate NewClauseOk(cl: Clause, nv: nat) {
    |cl.lits| >= 2 && Proper(cl.lits) && VarsBelow(cl.lits, nv) && !cl.deleted && AttributesOk(cl)
  }

  lemma AttachLong(ca: Store, ws: WatchLists, wb: WatchLists, cl: Clause, nv: nat)
    requires LongInv(ca, ws, nv) && BinInv(ca, wb, nv) && NewClauseOk(cl, nv) && |cl.lits| > 2
    ensures Neg(cl.lits[0]) in ws && Neg(cl.lits[1]) in ws
    ensures LongInv(ca + [cl], Attached(ws, cl.lits, |ca|), nv) && BinInv(ca + [cl], wb, nv)
  {
    hide Covers, LongListOk, BinListOk;
    var c := cl.lits;
    var ws' := Attached(ws, c, |ca|);
    AttachedCovers(ca, ws, cl, true);
    GrowCovers(ca, wb, cl, false);
    forall p | p in ws' ensures LongListOk(ca + [cl], p, ws'[p]) {
      if p == Neg(c[0]) { AppendLong(ca, cl, p, ws[p], c[1]); }
      else if p == Neg(c[1]) { AppendLong(ca, cl, p, ws[p], c[0]); }
      else { GrowLong(ca, cl, p, ws[p]); }
    }
    forall p | p in wb ensures BinListOk(ca + [cl], p, wb[p]) { GrowBin(ca, cl, p, wb[p]); }
  }

  lemma AttachBinary(ca: Store, ws: WatchLists, wb: WatchLists, cl: Clause, nv: nat)
    requires LongInv(ca, ws, nv) && BinInv(ca, wb, nv) && NewClauseOk(cl, nv) && |cl.lits| == 2
    ensures Neg(cl.lits[0]) in wb && Neg(cl.lits[1]) in wb
    ensures BinInv(ca + [cl], Attached(wb, cl.lits, |ca|), nv) && LongInv(ca + [cl], ws, nv)
  {
    hide Covers, LongListOk, BinListOk;
    var c := cl.lits;
    var wb' := Attached(wb, c, |ca|);
    AttachedCovers(ca, wb, cl, false);
    GrowCovers(ca, ws, cl, true);
    forall p | p in wb' ensures BinListOk(ca + [cl], p, wb'[p]) {
      if p == Neg(c[0]) { AppendBin(ca, cl, p, wb[p], c[1]); }
      else if p == Neg(c[1]) { AppendBin(ca, cl, p, wb[p], c[0]); }
      else { GrowBin(ca, cl, p, wb[p]); }
    }
    forall p | p in ws ensures LongListOk(ca + [cl], p, ws[p]) { GrowLong(ca, cl, p, ws[p]); }
  }

  lemma GrowLazy(ca: Store, ws: WatchLists, cl: Clause, dirty: set<Lit>, long: bool, nv: nat)
    requires LazyInv(ca, ws, dirty) && !cl.deleted
    requires if long then LongInv(ca, ws, nv) else BinInv(ca, ws, nv)
    ensures LazyInv(ca + [cl], ws, dirty)
    ensures |cl.lits| >= 2 && Neg(cl.lits[0]) in ws && Neg(cl.lits[1]) in ws ==>
      LazyInv(ca + [cl], Attached(ws, cl.lits, |ca|), dirty)
  {
    hide Covers;
    forall p, k | p in ws && 0 <= k < |ws[p]| ensures ws[p][k].cref < |ca| {
      if long { assert LongFits(ca, p, ws[p][k]); } else { assert BinFits(ca, p, ws[p][k]); }
    }
  }

  lemma GrowHeld(t: Trail, ca: Store, cl: Clause, reason: seq<int>)
    requires HeldInv(t, ca, reason)
    ensures HeldInv(t, ca + [cl], reason)
  {
    forall v: nat | t.Assigned(v) && v < |reason| && reason[v] != CREF_UNDEF
      ensures Holding(ca + [cl], reason[v], t.On(v))
    {
      assert Holding(ca, reason[v], t.On(v));
    }
  }

  lemma GrowReason(t: Trail, ca: Store, cl: Clause, reason: seq<int>)
    requires ReasonInv(t, ca, reason)
    ensures ReasonInv(t, ca + [cl], reason)
  {
    hide HeldInv;
    GrowHeld(t, ca, cl, reason);
    forall v: nat | t.Assigned(v) && 0 < t.Lev(v) <= |t.lim| && reason[v] != CREF_UNDEF
      ensures ReasonOk(t, ca + [cl], reason[v], v)
    {
      assert ReasonOk(t, ca, reason[v], v);
    }
  }

  function WithClause(s: State, cl: Clause): State
    requires |cl.lits| >= 2
    requires Neg(cl.lits[0]) in s.ws && Neg(cl.lits[1]) in s.ws && Neg(cl.lits[0]) in s.wb && Neg(cl.lits[1]) in s.wb
  {
    if |cl.lits| == 2
    then s.(ca := s.ca + [cl], wb := Attached(s.wb, cl.lits, |s.ca|))
    else s.(ca := s.ca + [cl], ws := Attached(s.ws, cl.lits, |s.ca|))
  }

  lemma AttachKeys(s: State, cl: Clause)
    requires s.Structure() && NewClauseOk(cl, |s.t.asg|)
    ensures Neg(cl.lits[0]) in s.ws && Neg(cl.lits[1]) in s.ws && Neg(cl.lits[0]) in s.wb && Neg(cl.lits[1]) in s.wb
  {
    hide Trail.Ok, StoreOk, LazyInv, ReasonInv, Covers, LongListOk, BinListOk;
    assert cl.lits[0].v < |s.t.asg| && cl.lits[1].v < |s.t.asg|;
  }

  lemma GrowStore(ca: Store, cl: Clause, nv: nat)
    requires StoreOk(ca, nv) && NewClauseOk(cl, nv)
    ensures StoreOk(ca + [cl], nv)
  {}

  lemma AttachStructure(s: State, cl: Clause)
    requires s.Structure() && NewClauseOk(cl, |s.t.asg|)
    ensures Neg(cl.lits[0]) in s.ws && Neg(cl.lits[1]) in s.ws && Neg(cl.lits[0]) in s.wb && Neg(cl.lits[1]) in s.wb
    ensures WithClause(s, cl).Structure()
  {
    hide Trail.Ok, StoreOk, LazyInv, ReasonInv, LongInv, BinInv;
    AttachKeys(s, cl);
    GrowStore(s.ca, cl, |s.t.asg|);
    GrowReason(s.t, s.ca, cl, s.reason);
    GrowLazy(s.ca, s.ws, cl, s.dirty, true, |s.t.asg|);
    GrowLazy(s.ca, s.wb, cl, s.dirtyBin, false, |s.t.asg|);
    if |cl.lits| == 2 {
      AttachBinary(s.ca, s.ws, s.wb, cl, |s.t.asg|);
    } else {
      AttachLong(s.ca, s.ws, s.wb, cl, |s.t.asg|);
    }
  }

  /** New clauses leave alone what is propagated, as long as their watchers sit on unpropagated literals. */
  lemma GrowPropagated(t: Trail, ca: Store, cl: Clause, ws: WatchLists, n: nat, long: bool, nv: nat)
    requires Propagated(t, ca, ws, n)
    requires if long then LongInv(ca, ws, nv) else BinInv(ca, ws, nv)
    ensures Propagated(t, ca + [cl], ws, n)
  {
    hide Covers;
    forall j | 0 <= j < n && j < |t.lits| && t.lits[j] in ws
      ensures ListDone(t, ca + [cl], ws[t.lits[j]], t.Lev(t.lits[j].v))
    {
      var l := ws[t.lits[j]];
      assert ListDone(t, ca, l, t.Lev(t.lits[j].v));
      forall k | 0 <= k < |l| ensures l[k].cref < |ca| {
        if long { assert LongFits(ca, t.lits[j], l[k]); } else { assert BinFits(ca, t.lits[j], l[k]); }
      }
    }
  }

  lemma AttachedPropagated(t: Trail, ca: Store, ws: WatchLists, c: seq<Lit>, cr: nat, n: nat)
    requires Propagated(t, ca, ws, n) && |c| >= 2 && Neg(c[0]) in ws && Neg(c[1]) in ws && cr < |ca| && ca[cr].lits == c
    requires forall i, j :: 0 <= i < 2 && 0 <= j < n && j < |t.lits| && t.lits[j] == Neg(c[i]) ==>
      t.SatBy(c, t.Lev(c[i].v))
    ensures Propagated(t, ca, Attached(ws, c, cr), n)
  {
    var ws' := Attached(ws, c, cr);
    forall j | 0 <= j < n && j < |t.lits| && t.lits[j] in ws'
      ensures ListDone(t, ca, ws'[t.lits[j]], t.Lev(t.lits[j].v))
    {
      var p := t.lits[j];
      assert ListDone(t, ca, ws[p], t.Lev(p.v));
      if p == Neg(c[0]) { assert t.SatBy(c, t.Lev(c[0].v)); }
      if p == Neg(c[1]) { assert t.SatBy(c, t.Lev(c[1].v)); }
    }
  }

  lemma WithClauseDone(s: State, cl: Clause, t': Trail, n: nat)
    requires s.Structure() && NewClauseOk(cl, |s.t.asg|) && n <= |s.t.lits|
    requires Propagated(t', s.ca, s.ws, n) && Propagated(t', s.ca, s.wb, n)
    requires forall i, j :: 0 <= i < 2 && 0 <= j < n && j < |t'.lits| && t'.lits[j] == Neg(cl.lits[i]) ==>
      t'.SatBy(cl.lits, t'.Lev(cl.lits[i].v))
    ensures Neg(cl.lits[0]) in s.ws && Neg(cl.lits[1]) in s.ws && Neg(cl.lits[0]) in s.wb && Neg(cl.lits[1]) in s.wb
    ensures var s' := WithClause(s, cl); Propagated(t', s'.ca, s'.ws, n) && Propagated(t', s'.ca, s'.wb, n)
  {
    hide Trail.Ok, StoreOk, LazyInv, ReasonInv, LongInv, BinInv, Propagated;
    AttachKeys(s, cl);
    GrowPropagated(t', s.ca, cl, s.ws, n, true, |s.t.asg|);
    GrowPropagated(t', s.ca, cl, s.wb, n, false, |s.t.asg|);
    if |cl.lits| == 2 {
      AttachedPropagated(t', s.ca + [cl], s.wb, cl.lits, |s.ca|, n);
    } else {
      AttachedPropagated(t', s.ca + [cl], s.ws, cl.lits, |s.ca|, n);
    }
  }

  lemma GrowMeaning(f: seq<seq<Lit>>, ca: Store, cl: Clause, cs: seq<nat>, t: Trail)
    requires StoreEntailed(f, ca) && Entails(f, cl.lits) && DbImplies(f, ca, cs, t)
    requires forall k :: 0 <= k < |cs| ==> cs[k] < |ca|
    ensures StoreEntailed(f, ca + [cl]) && DbImplies(f, ca + [cl], cs, t)
  {
    hide Mentioned;
    forall cr | 0 <= cr < |ca + [cl]| ensures Entails(f, (ca + [cl])[cr].lits) {
      if cr < |ca| { assert (ca + [cl])[cr] == ca[cr]; }
    }
    forall k, q | 0 <= k < |cs| && q in (ca + [cl])[cs[k]].lits ensures Mentioned(f, q.v) {
      assert (ca + [cl])[cs[k]] == ca[cs[k]];
    }
    forall a: Assignment | SatList(a, ca + [cl], cs) && t.RootHolds(a) ensures SatAll(a, f) {
      forall k | 0 <= k < |cs| ensures SatClause(a, ca[cs[k]].lits) {
        assert (ca + [cl])[cs[k]] == ca[cs[k]];
      }
    }
  }

  // ---------------------------------------------------------------- learning

  /** The learnt clause after backtracking: unit, its first literal free. */
  ghost predicate Unit(t: Trail, learnt: seq<Lit>) {
    && |learnt| >= 1 && Proper(learnt) && VarsBelow(learnt, |t.asg|)
    && t.Value(learnt[0]) == Undef
    && (forall i :: 1 <= i < |learnt| ==> t.Value(learnt[i]) == False)
    && (|learnt| == 1 ==> |t.lim| == 0)
    && (|learnt| > 1 ==> t.Lev(learnt[1].v) == |t.lim|)
  }

  /** A learnt unit is not stored; a longer clause is, at the end, and listed. */
  predicate LearntStored(ca: Store, ca': Store, ls: seq<nat>, ls': seq<nat>, learnt: seq<Lit>) {
    if |learnt| == 1 then ca' == ca && ls' == ls
    else
      && |ca'| == |ca| + 1 && ca'[..|ca|] == ca && ls' == ls + [|ca|]
      && ca'[|ca|].lits == learnt && ca'[|ca|].learnt && !ca'[|ca|].deleted
  }

  /** The same after literals may have moved within the old clauses. */
  ghost predicate LearntAdded(ca: Store, ca': Store, ls: seq<nat>, ls': seq<nat>, learnt: seq<Lit>) {
    if |learnt| == 1 then SameStore(ca, ca') && ls' == ls
    else
      && |ca'| == |ca| + 1 && SameStore(ca, ca'[..|ca|]) && ls' == ls + [|ca|]
      && ca'[|ca|].lits == learnt && ca'[|ca|].learnt && !ca'[|ca|].deleted
  }

  lemma LearntKept(ca: Store, ca1: Store, ca': Store, ls: seq<nat>, ls': seq<nat>, learnt: seq<Lit>)
    requires SameStore(ca, ca1) && LearntStored(ca1, ca', ls, ls', learnt)
    ensures LearntAdded(ca, ca', ls, ls', learnt)
  {}

  /** The trail of the levels up to l, with q behind it. */
  ghost predicate CutTo(t: Trail, t': Trail, l: nat, q: Lit) {
    && l < |t.lim| && t.lim[l] <= |t.lits|
    && t'.lits == t.lits[..t.lim[l]] + [q] && t'.lim == t.lim[..l] && t'.Lev(q.v) == l
  }

  lemma LearntCut(t: Trail, t1: Trail, learnt: seq<Lit>, l: nat)
    requires BackTo(t, t1, learnt, l)
    ensures CutTo(t, t1.Enqueue(learnt[0]), l, learnt[0])
  {
    hide Filled;
  }

  lemma AssertingSize(f: seq<seq<Lit>>, t: Trail, learnt: seq<Lit>, bt: nat)
    requires Asserting(f, t, learnt, bt)
    ensures |learnt| >= 1
  {}

  lemma AssertingUnitAfterCut(f: seq<seq<Lit>>, t: Trail, t': Trail, learnt: seq<Lit>, bt: nat)
    requires t.Ok() && Asserting(f, t, learnt, bt) && IsCut(t, t', bt)
    ensures Unit(t', learnt) && Entails(f, learnt)
  {
    hide Entails;
    CutOk(t, t', bt);
    assert learnt[0] in learnt;
    forall i | 1 <= i < |learnt| ensures t'.Value(learnt[i]) == False {
      assert learnt[i] in learnt;
      assert t.Assigned(learnt[i].v);
    }
  }

  lemma UnitForces(s: State, learnt: seq<Lit>, cl: Clause)
    requires s.Structure() && s.Meaning() && Unit(s.t, learnt) && |learnt| >= 2 && cl.lits == learnt && !cl.deleted
    requires Entails(s.formula, learnt)
    ensures Forces(s.t, s.ca + [cl], |s.ca|, learnt[0]) && s.RootFact(learnt[0])
  {
    hide StoreOk, LongInv, BinInv, LazyInv, ReasonInv, StoreEntailed, DbImplies;
    forall q | q in learnt && q != learnt[0] ensures s.t.Value(q) == False {}
    if |s.t.lim| == 0 { UnitEntailed(s.formula, s.t, learnt, learnt[0]); }
  }

  /** Attaching a learnt clause and enqueueing its first literal restores the watch invariant. */
  lemma LearnStep(s: State, learnt: seq<Lit>, cl: Clause)
    requires s.Structure() && s.Meaning() && s.Done(s.qhead) && s.qhead == |s.t.lits|
    requires Unit(s.t, learnt) && |learnt| >= 2 && cl.lits == learnt && !cl.deleted && AttributesOk(cl)
    requires Entails(s.formula, learnt)
    requires forall k :: 0 <= k < |s.clauses| ==> s.clauses[k] < |s.ca|
    ensures NewClauseOk(cl, |s.t.asg|)
    ensures Neg(cl.lits[0]) in s.ws && Neg(cl.lits[1]) in s.ws && Neg(cl.lits[0]) in s.wb && Neg(cl.lits[1]) in s.wb
    ensures s.t.Sizes() && |s.reason| == |s.t.asg|
    ensures var s' := WithClause(s, cl).Enqueue(learnt[0], |s.ca|);
      s'.Structure() && s'.Meaning() && s'.Done(s'.qhead)
  {
    hide State.Structure, StoreEntailed, RootEntailed, DbImplies, Forces, Entails, Propagated;
    StructureFacts(s);
    AttachStructure(s, cl);
    UnitForces(s, learnt, cl);
    GrowMeaning(s.formula, s.ca, cl, s.clauses, s.t);
    var s1 := WithClause(s, cl);
    EnqueueStructure(s1, learnt[0], |s.ca|);
    EnqueueRoot(s1.formula, s1.ca, s1.clauses, s1.t, learnt[0]);
    LearntDone(s, learnt, cl);
  }

  lemma LearntDone(s: State, learnt: seq<Lit>, cl: Clause)
    requires s.Structure() && s.Done(s.qhead) && s.qhead == |s.t.lits| && s.t.Sizes()
    requires Unit(s.t, learnt) && |learnt| >= 2 && cl.lits == learnt && NewClauseOk(cl, |s.t.asg|)
    ensures Neg(cl.lits[0]) in s.ws && Neg(cl.lits[1]) in s.ws && Neg(cl.lits[0]) in s.wb && Neg(cl.lits[1]) in s.wb
    ensures var s', t' := WithClause(s, cl), s.t.Enqueue(learnt[0]);
      Propagated(t', s'.ca, s'.ws, s.qhead) && Propagated(t', s'.ca, s'.wb, s.qhead)
  {
    hide StoreOk, LongInv, BinInv, LazyInv, ReasonInv, Propagated;
    var t' := s.t.Enqueue(learnt[0]);
    EnqueueOk(s.t, learnt[0]);
    ExtendsPropagated(s.t, t', s.ca, s.ws, s.qhead);
    ExtendsPropagated(s.t, t', s.ca, s.wb, s.qhead);
    assert learnt[0] in learnt;
    assert t'.SatBy(learnt, |s.t.lim|);
    forall i, j | 0 <= i < 2 && 0 <= j < s.qhead && t'.lits[j] == Neg(learnt[i])
      ensures t'.SatBy(learnt, t'.Lev(learnt[i].v))
    {
      assert s.t.lits[j] == t'.lits[j];
      assert s.t.Value(s.t.lits[j]) == True;
      assert s.t.Assigned(learnt[i].v);
    }
    WithClauseDone(s, cl, t', s.qhead);
  }

  /** A learnt unit is enqueued as a root fact. */
  lemma LearnUnitStep(s: State, learnt: seq<Lit>)
    requires s.Structure() && s.Meaning() && s.Done(s.qhead) && s.qhead == |s.t.lits|
    requires Unit(s.t, learnt) && |learnt| == 1 && Entails(s.formula, learnt)
    ensures s.t.Sizes() && |s.reason| == |s.t.asg|
    ensures var s' := s.Enqueue(learnt[0], CREF_UNDEF); s'.Structure() && s'.Meaning() && s'.Done(s'.qhead)
  {
    hide State.Structure, StoreEntailed, DbImplies, State.Done;
    StructureFacts(s);
    UnitEntailed(s.formula, s.t, learnt, learnt[0]);
    EnqueueStep(s, learnt[0], CREF_UNDEF, s.qhead);
  }

  /** A decision opens a level. */
  lemma DecideStep(s: State, p: Lit)
    requires s.Structure() && s.Meaning() && s.Done(s.qhead) && s.qhead == |s.t.lits|
    requires p.v < |s.t.asg| && s.t.Value(p) == Undef
    ensures var s1 := s.(t := s.t.(lim := s.t.lim + [|s.t.lits|]));
      && s1.t.Sizes() && |s1.reason| == |s1.t.asg|
      && var s' := s1.Enqueue(p, CREF_UNDEF);
      s'.Structure() && s'.Meaning() && s'.Done(s'.qhead) && s'.t.Root() <= s'.qhead
  {
    hide StoreOk, LongInv, BinInv, LazyInv, ReasonInv, StoreEntailed, Propagated, Trail.StackOk;
    var t1 := s.t.(lim := s.t.lim + [|s.t.lits|]);
    var s1 := s.(t := t1);
    LevelReason(s.t, s.ca, s.reason);
    LevelPropagated(s.t, s.ca, s.ws, s.qhead);
    LevelPropagated(s.t, s.ca, s.wb, s.qhead);
    LevelStack(s.t);
    forall a: Assignment ensures t1.RootHolds(a) <==> s.t.RootHolds(a) { LevelRoot(s.t, a); }
    EnqueueStep(s1, p, CREF_UNDEF, s.qhead);
  }

  lemma LevelStack(t: Trail)
    requires t.Ok()
    ensures t.(lim := t.lim + [|t.lits|]).Ok()
  {
    var t1 := t.(lim := t.lim + [|t.lits|]);
    forall v: nat ensures t1.Assigned(v) <==> t.Assigned(v) {}
    forall v: nat ensures t1.Pos(v) == t.Pos(v) && t1.Lev(v) == t.Lev(v) {}
  }

  lemma LevelRoot(t: Trail, a: Assignment)
    ensures t.(lim := t.lim + [|t.lits|]).RootHolds(a) <==> t.RootHolds(a)
  {
    var t1 := t.(lim := t.lim + [|t.lits|]);
    forall v: nat ensures t1.Assigned(v) == t.Assigned(v) && t1.On(v) == t.On(v) {}
    if t1.RootHolds(a) {
      forall v: nat | t.Assigned(v) && t.Lev(v) == 0
        ensures Holds(a, t.On(v))
      {
        assert t1.Assigned(v) && t1.Lev(v) == 0;
      }
    }
    if t.RootHolds(a) {
      forall v: nat | t1.Assigned(v) && t1.Lev(v) == 0
        ensures Holds(a, t1.On(v))
      {
        assert t.Assigned(v) && t.Lev(v) == 0;
      }
    }
  }

  lemma LevelHeld(t: Trail, ca: Store, reason: seq<int>)
    requires HeldInv(t, ca, reason)
    ensures HeldInv(t.(lim := t.lim + [|t.lits|]), ca, reason)
  {
    hide Holding;
    var t1 := t.(lim := t.lim + [|t.lits|]);
    forall v: nat | t1.Assigned(v) ensures t.Assigned(v) && t1.On(v) == t.On(v) {}
  }

  lemma LevelReason(t: Trail, ca: Store, reason: seq<int>)
    requires t.Ok() && ReasonInv(t, ca, reason)
    ensures ReasonInv(t.(lim := t.lim + [|t.lits|]), ca, reason)
  {
    hide HeldInv;
    var t1 := t.(lim := t.lim + [|t.lits|]);
    LevelHeld(t, ca, reason);
    forall v: nat | t1.Assigned(v) && 0 < t1.Lev(v) <= |t1.lim|
      ensures if reason[v] == CREF_UNDEF then t1.Pos(v) == t1.lim[t1.Lev(v) - 1] else ReasonOk(t1, ca, reason[v], v)
    {
      assert t.Assigned(v);
      if reason[v] != CREF_UNDEF {
        assert ReasonOk(t, ca, reason[v], v);
        forall p | p in ca[reason[v]].lits
          ensures if p.v == v then t1.Value(p) == True else t1.Value(p) == False && t1.Pos(p.v) < t1.Pos(v) {}
      }
    }
  }

  lemma LevelPropagated(t: Trail, ca: Store, ws: WatchLists, n: nat)
    requires Propagated(t, ca, ws, n)
    ensures Propagated(t.(lim := t.lim + [|t.lits|]), ca, ws, n)
  {
    var t1 := t.(lim := t.lim + [|t.lits|]);
    forall j | 0 <= j < n && j < |t1.lits| && t1.lits[j] in ws
      ensures ListDone(t1, ca, ws[t1.lits[j]], t1.Lev(t1.lits[j].v))
    {
      var l := ws[t.lits[j]];
      assert ListDone(t, ca, l, t.Lev(t.lits[j].v));
      forall k | 0 <= k < |l| && l[k].cref < |ca| ensures t1.SatBy(ca[l[k].cref].lits, t1.Lev(t.lits[j].v)) {
        var p :| p in ca[l[k].cref].lits && t.Value(p) == True && t.Lev(p.v) <= t.Lev(t.lits[j].v);
        assert t1.Value(p) == True;
      }
    }
  }

  // ---------------------------------------------------------------- adding a problem clause

  lemma EntailsMore(f: seq<seq<Lit>>, ps: seq<Lit>, c: seq<Lit>)
    requires Entails(f, c)
    ensures Entails(f + [ps], c)
  {
    forall a: Assignment | SatAll(a, f + [ps]) ensures SatAll(a, f) {
      forall d | d in f ensures SatClause(a, d) { assert d in f + [ps]; }
    }
  }

  lemma EntailedMore(s: State, ps: seq<Lit>)
    requires s.Meaning()
    ensures StoreEntailed(s.formula + [ps], s.ca) && RootEntailed(s.formula + [ps], s.t)
  {
    hide DbImplies;
    forall cr | 0 <= cr < |s.ca| ensures Entails(s.formula + [ps], s.ca[cr].lits) {
      EntailsMore(s.formula, ps, s.ca[cr].lits);
    }
    forall a: Assignment | SatAll(a, s.formula + [ps]) ensures s.t.RootHolds(a) { SatMore(a, s.formula, ps); }
  }

  /** Adding a clause that the root facts satisfy, or that is a tautology, changes nothing. */
  lemma AddSatisfied(s: State, ps: seq<Lit>)
    requires s.t.Ok() && s.Meaning() && |s.t.lim| == 0
    requires exists q :: q in ps && (s.t.Value(q) == True || Neg(q) in ps)
    ensures s.(formula := s.formula + [ps]).Meaning()
  {
    hide StoreEntailed, RootEntailed;
    EntailedMore(s, ps);
    var q :| q in ps && (s.t.Value(q) == True || Neg(q) in ps);
    forall a: Assignment | SatList(a, s.ca, s.clauses) && s.t.RootHolds(a) ensures SatAll(a, s.formula + [ps]) {
      SatMore(a, s.formula, ps);
      if s.t.Value(q) == True {
        assert s.t.Assigned(q.v) && s.t.Lev(q.v) == 0 && s.t.On(q.v) == q;
        assert Holds(a, q);
      } else {
        assert Holds(a, q) || Holds(a, Neg(q));
      }
    }
  }

  /** `kept` is `ps` without literals that are false at the root. */
  lemma ReducedIn(t: Trail, ps: seq<Lit>, kept: seq<Lit>, q: Lit)
    requires Reduced(t, ps, kept) && q in kept
    ensures q in ps
  {}

  ghost predicate Reduced(t: Trail, ps: seq<Lit>, kept: seq<Lit>) {
    && (forall q :: q in kept ==> q in ps)
    && (forall q :: q in ps ==> q in kept || t.Value(q) == False)
  }

  lemma ReducedEntailed(s: State, ps: seq<Lit>, kept: seq<Lit>)
    requires s.t.Ok() && s.Meaning() && |s.t.lim| == 0 && Reduced(s.t, ps, kept)
    ensures Entails(s.formula + [ps], kept)
  {
    hide StoreEntailed, DbImplies;
    forall a: Assignment | SatAll(a, s.formula + [ps]) ensures SatClause(a, kept) {
      SatMore(a, s.formula, ps);
      var q :| q in ps && Holds(a, q);
      if q !in kept {
        assert s.t.Assigned(q.v) && s.t.Lev(q.v) == 0;
        RootFalse(s.t, a, q);
      }
    }
  }

  lemma ReducedImplies(a: Assignment, t: Trail, ps: seq<Lit>, kept: seq<Lit>)
    requires Reduced(t, ps, kept) && SatClause(a, kept)
    ensures SatClause(a, ps)
  {
    var q :| q in kept && Holds(a, q);
    assert q in ps;
  }

  lemma AddEmpty(s: State, ps: seq<Lit>)
    requires s.t.Ok() && s.Meaning() && |s.t.lim| == 0 && Reduced(s.t, ps, [])
    ensures Unsat(s.formula + [ps])
  {
    hide StoreEntailed, RootEntailed, DbImplies;
    ReducedEntailed(s, ps, []);
    forall a: Assignment ensures !SatAll(a, s.formula + [ps]) {}
  }

  lemma UnsatMore(f: seq<seq<Lit>>, ps: seq<Lit>)
    requires Unsat(f)
    ensures Unsat(f + [ps])
  {
    forall a: Assignment ensures !SatAll(a, f + [ps]) { SatMore(a, f, ps); }
  }

  /** Adding a clause whose only remaining literal is p enqueues p as a root fact. */
  lemma AddUnit(s: State, ps: seq<Lit>, p: Lit)
    requires s.Structure() && s.Meaning() && s.Done(s.qhead) && |s.t.lim| == 0
    requires Reduced(s.t, ps, [p]) && p.v < |s.t.asg| && s.t.Value(p) == Undef
    ensures s.t.Sizes() && |s.reason| == |s.t.asg|
    ensures var s' := s.(formula := s.formula + [ps]).Enqueue(p, CREF_UNDEF);
      s'.Structure() && s'.Meaning() && s'.Done(s'.qhead) && s'.t.Root() <= s'.qhead
  {
    hide State.Structure, StoreEntailed, RootEntailed, DbImplies, State.Done, Reduced;
    StructureFacts(s);
    EntailedMore(s, ps);
    ReducedEntailed(s, ps, [p]);
    var f' := s.formula + [ps];
    FormulaFree(s, f');
    EnqueueStructure(s.(formula := f'), p, CREF_UNDEF);
    AddUnitMeaning(s, ps, p);
  }

  lemma FormulaFree(s: State, f': seq<seq<Lit>>)
    requires s.Structure()
    ensures s.(formula := f').Structure()
    ensures forall n: nat :: s.Done(n) ==> s.(formula := f').Done(n)
  {
    hide StoreOk, LongInv, BinInv, LazyInv, ReasonInv, Propagated, Trail.Ok;
  }

  lemma AddUnitMeaning(s: State, ps: seq<Lit>, p: Lit)
    requires s.t.Ok() && s.Meaning() && |s.t.lim| == 0 && Reduced(s.t, ps, [p]) && p.v < |s.t.asg|
    requires s.t.Value(p) == Undef
    requires StoreEntailed(s.formula + [ps], s.ca) && RootEntailed(s.formula + [ps], s.t)
    requires Entails(s.formula + [ps], [p])
    ensures RootEntailed(s.formula + [ps], s.t.Enqueue(p))
    ensures DbImplies(s.formula + [ps], s.ca, s.clauses, s.t.Enqueue(p))
  {
    hide StoreEntailed, Reduced, Mentioned;
    var t', f' := s.t.Enqueue(p), s.formula + [ps];
    MentionedMore(s.formula, ps);
    forall a: Assignment ensures t'.RootHolds(a) <==> s.t.RootHolds(a) && Holds(a, p) { EnqueueRootHolds(s.t, p, a); }
    forall a: Assignment | SatAll(a, f') ensures t'.RootHolds(a) {
      assert s.t.RootHolds(a);
      var q :| q in [p] && Holds(a, q);
    }
    forall a: Assignment | SatList(a, s.ca, s.clauses) && t'.RootHolds(a) ensures SatAll(a, f') {
      SatMore(a, s.formula, ps);
      assert p in [p];
      ReducedImplies(a, s.t, ps, [p]);
    }
  }

  lemma EnqueueRootHolds(t: Trail, p: Lit, a: Assignment)
    requires t.Ok() && p.v < |t.asg| && t.Value(p) == Undef && |t.lim| == 0
    ensures t.Enqueue(p).RootHolds(a) <==> t.RootHolds(a) && Holds(a, p)
  {
    hide Trail.Ok, Trail.StackOk, Trail.LevelsOk;
    OkSizes(t);
    var t' := t.Enqueue(p);
    assert t'.Assigned(p.v) && t'.Lev(p.v) == 0 && t'.On(p.v) == p;
    forall v: nat | v != p.v ensures t'.Assigned(v) == t.Assigned(v) && t'.Lev(v) == t.Lev(v) && t'.On(v) == t.On(v) {}
    if t'.RootHolds(a) {
      forall v: nat | t.Assigned(v) && t.Lev(v) == 0 ensures Holds(a, t.On(v)) { assert t'.Assigned(v); }
    }
    if t.RootHolds(a) && Holds(a, p) {
      forall v: nat | t'.Assigned(v) && t'.Lev(v) == 0 ensures Holds(a, t'.On(v)) {
        if v != p.v { assert t.Assigned(v) && t.Lev(v) == 0; }
      }
    }
  }

  /** Adding a clause with at least two remaining literals, all of them free. */
  lemma AddClauseStep(s: State, ps: seq<Lit>, cl: Clause)
    requires s.Structure() && s.Meaning() && s.Done(s.qhead) && |s.t.lim| == 0
    requires Reduced(s.t, ps, cl.lits) && NewClauseOk(cl, |s.t.asg|)
    requires forall q :: q in cl.lits ==> s.t.Value(q) == Undef
    requires forall k :: 0 <= k < |s.clauses| ==> s.clauses[k] < |s.ca|
    ensures Neg(cl.lits[0]) in s.ws && Neg(cl.lits[1]) in s.ws && Neg(cl.lits[0]) in s.wb && Neg(cl.lits[1]) in s.wb
    ensures var s' := WithClause(s.(clauses := s.clauses + [|s.ca|], formula := s.formula + [ps]), cl);
      s'.Structure() && s'.Meaning() && s'.Done(s'.qhead)
  {
    hide State.Structure, StoreEntailed, RootEntailed, DbImplies, Propagated, Reduced;
    StructureFacts(s);
    EntailedMore(s, ps);
    ReducedEntailed(s, ps, cl.lits);
    FormulaFree(s, s.formula + [ps]);
    ListFree(s.(formula := s.formula + [ps]), s.clauses + [|s.ca|]);
    AttachStructure(s, cl);
    AttachStructure(s.(clauses := s.clauses + [|s.ca|], formula := s.formula + [ps]), cl);
    FreeLits(s.t, cl.lits, s.qhead);
    WithClauseDone(s, cl, s.t, s.qhead);
    AddMeaning(s, ps, cl);
  }

  lemma FreeLits(t: Trail, c: seq<Lit>, n: nat)
    requires t.Ok() && |c| >= 2 && forall q :: q in c ==> t.Value(q) == Undef
    ensures forall i, j :: 0 <= i < 2 && 0 <= j < n && j < |t.lits| && t.lits[j] == Neg(c[i]) ==>
      t.SatBy(c, t.Lev(c[i].v))
  {
    forall i, j | 0 <= i < 2 && 0 <= j < n && j < |t.lits| ensures t.lits[j] != Neg(c[i]) {
      assert c[i] in c;
      assert t.Value(t.lits[j]) == True;
    }
  }

  lemma ListFree(s: State, cs: seq<nat>)
    requires s.Structure()
    ensures s.(clauses := cs).Structure()
    ensures forall n: nat :: s.Done(n) ==> s.(clauses := cs).Done(n)
  {
    hide StoreOk, LongInv, BinInv, LazyInv, ReasonInv, Propagated, Trail.Ok;
  }

  lemma AddWithin(s: State, ps: seq<Lit>, cl: Clause)
    requires ListWithin(s.formula, s.ca, s.clauses) && Reduced(s.t, ps, cl.lits)
    requires forall k :: 0 <= k < |s.clauses| ==> s.clauses[k] < |s.ca|
    ensures ListWithin(s.formula + [ps], s.ca + [cl], s.clauses + [|s.ca|])
  {
    hide Mentioned;
    MentionedMore(s.formula, ps);
    var ca', cs' := s.ca + [cl], s.clauses + [|s.ca|];
    forall k, q | 0 <= k < |cs'| && q in ca'[cs'[k]].lits ensures Mentioned(s.formula + [ps], q.v) {
      if k < |s.clauses| {
        assert ca'[cs'[k]] == s.ca[s.clauses[k]];
      } else {
        assert q in cl.lits;
        ReducedIn(s.t, ps, cl.lits, q);
      }
    }
  }

  lemma AddMeaning(s: State, ps: seq<Lit>, cl: Clause)
    requires s.Meaning() && Reduced(s.t, ps, cl.lits)
    requires forall k :: 0 <= k < |s.clauses| ==> s.clauses[k] < |s.ca|
    requires StoreEntailed(s.formula + [ps], s.ca) && Entails(s.formula + [ps], cl.lits)
    ensures StoreEntailed(s.formula + [ps], s.ca + [cl])
    ensures DbImplies(s.formula + [ps], s.ca + [cl], s.clauses + [|s.ca|], s.t)
  {
    hide RootEntailed, Reduced, Mentioned;
    var ca', cs' := s.ca + [cl], s.clauses + [|s.ca|];
    MentionedMore(s.formula, ps);
    AddWithin(s, ps, cl);
    forall cr | 0 <= cr < |ca'| ensures Entails(s.formula + [ps], ca'[cr].lits) {
      if cr < |s.ca| { assert ca'[cr] == s.ca[cr]; }
    }
    forall a: Assignment | SatList(a, ca', cs') && s.t.RootHolds(a) ensures SatAll(a, s.formula + [ps]) {
      forall k | 0 <= k < |s.clauses| ensures SatClause(a, s.ca[s.clauses[k]].lits) {
        assert cs'[k] == s.clauses[k] && ca'[cs'[k]] == s.ca[s.clauses[k]];
      }
      assert cs'[|s.clauses|] == |s.ca| && ca'[|s.ca|] == cl;
      ReducedImplies(a, s.t, ps, cl.lits);
      SatMore(a, s.formula, ps);
    }
  }

  // ---------------------------------------------------------------- removing a clause

  predicate ImpliedAt(t: Trail, ca: Store, reason: seq<int>, cr: nat, i: nat) {
    && cr < |ca| && i < |ca[cr].lits| && t.Value(ca[cr].lits[i]) == True
    && ca[cr].lits[i].v < |reason| && reason[ca[cr].lits[i].v] == cr
  }

  /** Some literal that the clause may have implied has it as its reason. */
  ghost predicate LockedBy(t: Trail, ca: Store, reason: seq<int>, cr: nat) {
    cr < |ca| && (ImpliedAt(t, ca, reason, cr, 0) || (|ca[cr].lits| == 2 && ImpliedAt(t, ca, reason, cr, 1)))
  }

  function Removed(s: State, cr: nat): State
    requires cr < |s.ca| && |s.ca[cr].lits| >= 2
  {
    var c := s.ca[cr].lits;
    var s1 := s.(ca := s.ca[cr := s.ca[cr].(deleted := true)]);
    if |c| == 2 then s1.(dirtyBin := s.dirtyBin + {Neg(c[0]), Neg(c[1])})
    else s1.(dirty := s.dirty + {Neg(c[0]), Neg(c[1])})
  }

  lemma RemoveLists(ca: Store, cr: nat, ws: WatchLists, wb: WatchLists, nv: nat)
    requires cr < |ca| && LongInv(ca, ws, nv) && BinInv(ca, wb, nv)
    ensures var ca' := ca[cr := ca[cr].(deleted := true)]; LongInv(ca', ws, nv) && BinInv(ca', wb, nv)
  {
    var ca' := ca[cr := ca[cr].(deleted := true)];
    forall p | p in ws ensures LongListOk(ca', p, ws[p]) {
      assert LongListOk(ca, p, ws[p]);
      forall k | 0 <= k < |ws[p]| ensures LongFits(ca', p, ws[p][k]) { assert LongFits(ca, p, ws[p][k]); }
    }
    forall p | p in wb ensures BinListOk(ca', p, wb[p]) {
      assert BinListOk(ca, p, wb[p]);
      forall k | 0 <= k < |wb[p]| ensures BinFits(ca', p, wb[p][k]) { assert BinFits(ca, p, wb[p][k]); }
    }
    forall x | 0 <= x < |ca'| && !ca'[x].deleted ensures ca'[x] == ca[x] {}
  }

  lemma RemoveLazyLong(ca: Store, cr: nat, ws: WatchLists, dirty: set<Lit>, nv: nat)
    requires cr < |ca| && |ca[cr].lits| >= 2 && LongInv(ca, ws, nv) && LazyInv(ca, ws, dirty)
    ensures var ca', c := ca[cr := ca[cr].(deleted := true)], ca[cr].lits;
      LazyInv(ca', ws, if |c| > 2 then dirty + {Neg(c[0]), Neg(c[1])} else dirty)
  {
    hide Covers;
    var ca', c := ca[cr := ca[cr].(deleted := true)], ca[cr].lits;
    forall p, k | p in ws && 0 <= k < |ws[p]| && ws[p][k].cref < |ca| && ca'[ws[p][k].cref].deleted
      ensures p in (if |c| > 2 then dirty + {Neg(c[0]), Neg(c[1])} else dirty)
    {
      assert LongFits(ca, p, ws[p][k]);
      if ws[p][k].cref == cr {
        assert p == Neg(c[0]) || p == Neg(c[1]);
      }
    }
  }

  lemma RemoveLazyBin(ca: Store, cr: nat, wb: WatchLists, dirty: set<Lit>, nv: nat)
    requires cr < |ca| && |ca[cr].lits| >= 2 && BinInv(ca, wb, nv) && LazyInv(ca, wb, dirty)
    ensures var ca', c := ca[cr := ca[cr].(deleted := true)], ca[cr].lits;
      LazyInv(ca', wb, if |c| > 2 then dirty else dirty + {Neg(c[0]), Neg(c[1])})
  {
    hide Covers;
    var ca', c := ca[cr := ca[cr].(deleted := true)], ca[cr].lits;
    forall p, k | p in wb && 0 <= k < |wb[p]| && wb[p][k].cref < |ca| && ca'[wb[p][k].cref].deleted
      ensures p in (if |c| > 2 then dirty else dirty + {Neg(c[0]), Neg(c[1])})
    {
      assert BinFits(ca, p, wb[p][k]);
      if wb[p][k].cref == cr {
        assert p == Neg(c[0]) || p == Neg(c[1]);
      }
    }
  }

  lemma RemoveHeld(t: Trail, ca: Store, cr: nat, reason: seq<int>, v0: nat, clear: bool)
    requires cr < |ca| && HeldInv(t, ca, reason) && v0 < |reason|
    ensures HeldInv(t, ca[cr := ca[cr].(deleted := true)], if clear then reason[v0 := CREF_UNDEF] else reason)
  {
    var ca', reason' := ca[cr := ca[cr].(deleted := true)], if clear then reason[v0 := CREF_UNDEF] else reason;
    forall v: nat | t.Assigned(v) && v < |reason'| && reason'[v] != CREF_UNDEF
      ensures Holding(ca', reason'[v], t.On(v))
    {
      assert Holding(ca, reason[v], t.On(v));
    }
  }

  lemma RemoveReason(t: Trail, ca: Store, cr: nat, reason: seq<int>, v0: nat, clear: bool)
    requires cr < |ca| && ReasonInv(t, ca, reason) && v0 < |reason|
    requires |t.lim| == 0 || (!LockedBy(t, ca, reason, cr) && !clear)
    ensures ReasonInv(t, ca[cr := ca[cr].(deleted := true)], if clear then reason[v0 := CREF_UNDEF] else reason)
  {
    hide HeldInv;
    var ca' := ca[cr := ca[cr].(deleted := true)];
    RemoveHeld(t, ca, cr, reason, v0, clear);
    if |t.lim| > 0 {
      forall v: nat | t.Assigned(v) && 0 < t.Lev(v) <= |t.lim| && reason[v] != CREF_UNDEF
        ensures ReasonOk(t, ca', reason[v], v)
      {
        assert ReasonOk(t, ca, reason[v], v);
      }
    }
  }

  lemma RemoveDone(t: Trail, ca: Store, cr: nat, ws: WatchLists, n: nat)
    requires cr < |ca| && Propagated(t, ca, ws, n)
    ensures Propagated(t, ca[cr := ca[cr].(deleted := true)], ws, n)
  {
    forall j | 0 <= j < n && j < |t.lits| && t.lits[j] in ws
      ensures ListDone(t, ca[cr := ca[cr].(deleted := true)], ws[t.lits[j]], t.Lev(t.lits[j].v))
    {
      assert ListDone(t, ca, ws[t.lits[j]], t.Lev(t.lits[j].v));
    }
  }

  /** Marking a clause deleted and its watcher lists dirty. */
  lemma RemoveStep(s: State, cr: nat, v0: nat, clear: bool)
    requires s.Structure() && cr < |s.ca| && v0 < |s.reason|
    requires |s.t.lim| == 0 || (!LockedBy(s.t, s.ca, s.reason, cr) && !clear)
    ensures |s.ca[cr].lits| >= 2
    ensures var s' := Removed(s, cr).(reason := if clear then s.reason[v0 := CREF_UNDEF] else s.reason);
      s'.Structure() && forall n: nat :: s.Done(n) ==> s'.Done(n)
  {
    hide Trail.Ok, LongInv, BinInv, LazyInv, ReasonInv, Propagated, LockedBy;
    RemoveLists(s.ca, cr, s.ws, s.wb, |s.t.asg|);
    RemoveLazyLong(s.ca, cr, s.ws, s.dirty, |s.t.asg|);
    RemoveLazyBin(s.ca, cr, s.wb, s.dirtyBin, |s.t.asg|);
    RemoveReason(s.t, s.ca, cr, s.reason, v0, clear);
    forall n: nat | s.Done(n)
      ensures Propagated(s.t, s.ca[cr := s.ca[cr].(deleted := true)], s.ws, n)
      ensures Propagated(s.t, s.ca[cr := s.ca[cr].(deleted := true)], s.wb, n)
    {
      RemoveDone(s.t, s.ca, cr, s.ws, n);
      RemoveDone(s.t, s.ca, cr, s.wb, n);
    }
  }

  /**
   * The reasons after a clause with the literals c is removed: that of its first literal is cleared if it is locked.
   */
  function Unlocked(reason: seq<int>, c: seq<Lit>, locked: bool): (r: seq<int>)
    ensures |r| == |reason|
  {
    if locked && |c| > 0 && c[0].v < |reason| then reason[c[0].v := CREF_UNDEF] else reason
  }

  /** A removed clause is still named as a reason exactly where, being binary, it implied its second literal. */
  lemma DanglingExact(t: Trail, ca: Store, reason: seq<int>, cr: nat, v: nat)
    requires ReasonInv(t, ca, reason) && cr < |ca| && |ca[cr].lits| >= 2 && Proper(ca[cr].lits)
    requires ca[cr].lits[0].v < |reason|
    requires t.Assigned(v)
    ensures var c := ca[cr].lits;
      Unlocked(reason, c, LockedBy(t, ca, reason, cr))[v] == cr <==>
        |c| == 2 && v == c[1].v && ImpliedAt(t, ca, reason, cr, 1)
  {
    var c := ca[cr].lits;
    assert c[0].v != c[1].v;
    if reason[v] == cr {
      assert Holding(ca, cr, t.On(v)) && t.Value(t.On(v)) == True;
      assert v == c[0].v ==> ImpliedAt(t, ca, reason, cr, 0);
    }
  }

  /** Deletion does not change what the stored clauses mean. */
  lemma RemoveMeaning(f: seq<seq<Lit>>, ca: Store, cr: nat, cs: seq<nat>, t: Trail)
    requires cr < |ca|
    ensures StoreEntailed(f, ca) ==> StoreEntailed(f, ca[cr := ca[cr].(deleted := true)])
    ensures DbImplies(f, ca, cs, t) ==> DbImplies(f, ca[cr := ca[cr].(deleted := true)], cs, t)
  {
    hide Mentioned;
    var ca' := ca[cr := ca[cr].(deleted := true)];
    forall x | 0 <= x < |ca| ensures ca'[x].lits == ca[x].lits {}
    if DbImplies(f, ca, cs, t) {
      forall a: Assignment | SatList(a, ca', cs) && t.RootHolds(a) ensures SatAll(a, f) {
        assert SatList(a, ca, cs);
      }
    }
  }

  /** A problem clause that a root fact satisfies may leave the list. */
  lemma DropSatisfied(f: seq<seq<Lit>>, ca: Store, done: seq<nat>, cr: nat, rest: seq<nat>, t: Trail)
    requires DbImplies(f, ca, done + [cr] + rest, t) && cr < |ca| && |t.lim| == 0 && t.Ok()
    requires exists q :: q in ca[cr].lits && t.Value(q) == True
    ensures DbImplies(f, ca, done + rest, t)
  {
    hide Mentioned;
    var q :| q in ca[cr].lits && t.Value(q) == True;
    var cs, cs' := done + [cr] + rest, done + rest;
    forall k, p | 0 <= k < |cs'| && cs'[k] < |ca| && p in ca[cs'[k]].lits ensures Mentioned(f, p.v) {
      assert cs'[k] == cs[if k < |done| then k else k + 1];
    }
    forall a: Assignment | SatList(a, ca, cs') && t.RootHolds(a) ensures SatAll(a, f) {
      assert t.Assigned(q.v) && t.Lev(q.v) == 0 && t.On(q.v) == q;
      assert Holds(a, q);
      forall k | 0 <= k < |cs| && cs[k] < |ca| ensures SatClause(a, ca[cs[k]].lits) {
        if k != |done| { assert cs[k] == cs'[if k < |done| then k else k - 1]; }
      }
    }
  }

  // ---------------------------------------------------------------- progress

  /** Every level has a literal of its own. */
  ghost predicate Filled(t: Trail) {
    && (forall d, e :: 0 <= d < e < |t.lim| ==> t.lim[d] < t.lim[e])
    && (forall d :: 0 <= d < |t.lim| ==> t.lim[d] < |t.lits|)
  }

  lemma FilledRoot(t: Trail)
    requires t.lim == []
    ensures Filled(t)
  {}

  lemma FilledExtends(t: Trail, t': Trail)
    requires Filled(t) && Extends(t, t')
    ensures Filled(t')
  {}

  lemma FilledCut(t: Trail, t': Trail, l: nat)
    requires Filled(t) && IsCut(t, t', l)
    ensures Filled(t')
  {}

  lemma FilledEnqueue(t: Trail, p: Lit)
    requires Filled(t) && p.v < |t.asg| && t.Sizes()
    ensures Filled(t.Enqueue(p))
  {}

  lemma FilledLevel(t: Trail, p: Lit)
    requires Filled(t) && p.v < |t.asg| && t.Sizes()
    ensures Filled(t.(lim := t.lim + [|t.lits|]).Enqueue(p))
  {}

  /** What is at a position of the trail: nothing, a decision, or a literal that others forced. */
  function Digit(t: Trail, j: nat): nat { if j >= |t.lits| then 0 else if j in t.lim then 1 else 2 }

  /** The first k positions read as a number to the base 3. */
  function Rank(t: Trail, k: nat): nat { if k == 0 then 0 else 3 * Rank(t, k - 1) + Digit(t, k - 1) }

  function Bound(k: nat): nat { if k == 0 then 1 else 3 * Bound(k - 1) }

  lemma {:induction false} RankBelow(t: Trail, k: nat)
    ensures Rank(t, k) < Bound(k)
  {
    if k > 0 { RankBelow(t, k - 1); }
  }

  lemma {:induction false} RankSame(t: Trail, t': Trail, k: nat)
    requires forall j :: 0 <= j < k ==> Digit(t, j) == Digit(t', j)
    ensures Rank(t, k) == Rank(t', k)
  {
    hide Digit;
    if k > 0 { RankSame(t, t', k - 1); }
  }

  /** The first position that differs decides. */
  lemma {:induction false} RankGrows(t: Trail, t': Trail, i: nat, k: nat)
    requires i < k && Digit(t, i) < Digit(t', i) && forall j :: 0 <= j < i ==> Digit(t, j) == Digit(t', j)
    ensures Rank(t, k) < Rank(t', k)
  {
    if k == i + 1 {
      RankSame(t, t', i);
    } else {
      RankGrows(t, t', i, k - 1);
    }
  }

  lemma RankExtends(t: Trail, t': Trail, k: nat)
    requires Extends(t, t')
    ensures Rank(t, k) <= Rank(t', k)
  {
    RankAtLeast(t, t', k);
  }

  lemma {:induction false} RankAtLeast(t: Trail, t': Trail, k: nat)
    requires forall j :: 0 <= j < k ==> Digit(t, j) <= Digit(t', j)
    ensures Rank(t, k) <= Rank(t', k)
  {
    hide Digit;
    if k > 0 { RankAtLeast(t, t', k - 1); }
  }

  /** A decision appends to the trail. */
  lemma RankDecide(t: Trail, p: Lit, k: nat)
    requires t.Ok() && p.v < |t.asg| && t.Value(p) == Undef && |t.asg| <= k
    ensures Rank(t, k) < Rank(t.(lim := t.lim + [|t.lits|]).Enqueue(p), k)
  {
    hide Trail.LevelsOk;
    var t' := t.(lim := t.lim + [|t.lits|]).Enqueue(p);
    FreeSlot(t, p);
    forall j | 0 <= j < |t.lits| ensures Digit(t, j) == Digit(t', j) {}
    assert t'.lim[|t.lim|] == |t.lits|;
    RankGrows(t, t', |t.lits|, k);
  }

  /** With a variable free, the trail is shorter than the number of variables. */
  lemma FreeSlot(t: Trail, p: Lit)
    requires t.Ok() && p.v < |t.asg| && t.Value(p) == Undef
    ensures |t.lits| < |t.asg|
  {
    EnqueueOk(t, p);
    TrailBound(t.Enqueue(p));
  }

  /** Learning turns the decision it goes back to into a forced literal. */
  lemma RankLearn(t: Trail, t1: Trail, l: nat, p: Lit, k: nat)
    requires Filled(t) && IsCut(t, t1, l) && t1.Sizes() && p.v < |t1.asg| && |t.lits| <= k
    ensures Rank(t, k) < Rank(t1.Enqueue(p), k)
  {
    var t' := t1.Enqueue(p);
    var i := t.lim[l];
    forall j | 0 <= j < i ensures Digit(t, j) == Digit(t', j) {
      if j in t.lim {
        var d :| 0 <= d < |t.lim| && t.lim[d] == j;
        assert d < l && t'.lim[d] == j;
      }
    }
    RankGrows(t, t', i, k);
  }

  /** The trail t1 is t without the levels above l, and the learnt clause is unit there. */
  ghost predicate BackTo(t: Trail, t1: Trail, learnt: seq<Lit>, l: nat) {
    Filled(t) && IsCut(t, t1, l) && t1.Sizes() && Unit(t1, learnt) && |t.lits| <= |t.asg|
  }

  lemma BackToRank(t: Trail, t1: Trail, learnt: seq<Lit>, l: nat)
    requires BackTo(t, t1, learnt, l)
    ensures |t1.asg| == |t.asg| && Rank(t, |t.asg|) < Rank(t1.Enqueue(learnt[0]), |t.asg|)
  {
    hide Filled, Rank;
    RankLearn(t, t1, l, learnt[0], |t.asg|);
  }

  // ---------------------------------------------------------------- a finished search

  /** After propagation without conflict no stored clause is false or an unpropagated unit. */
  lemma PropagationComplete(s: State, cr: nat)
    requires s.Structure() && s.Done(|s.t.lits|) && cr < |s.ca| && !s.ca[cr].deleted
    ensures (exists q :: q in s.ca[cr].lits && s.t.Value(q) == True)
         || (s.t.Value(s.ca[cr].lits[0]) == Undef && s.t.Value(s.ca[cr].lits[1]) == Undef)
  {
    hide LazyInv, ReasonInv;
    var c := s.ca[cr].lits;
    forall i | 0 <= i < 2 && s.t.Value(c[i]) == False ensures exists q :: q in c && s.t.Value(q) == True {
      var p := Neg(c[i]);
      assert s.t.Value(p) == True && s.t.Assigned(p.v);
      assert s.t.lits[s.t.Pos(p.v)] == p;
      var ws := if |c| > 2 then s.ws else s.wb;
      assert p in ws && Watched(ws[p], cr);
      assert ListDone(s.t, s.ca, ws[p], s.t.Lev(p.v));
      assert s.t.SatBy(c, s.t.Lev(p.v));
    }
    assert c[0] in c && c[1] in c;
  }

  ghost predicate ModelSat(model: seq<LBool>, f: seq<seq<Lit>>) {
    forall c :: c in f ==> exists q :: q in c && Val(model, q) == True
  }

  /** With everything propagated, the trail satisfies every stored clause whose variables are all assigned. */
  lemma StoredSat(s: State, cr: nat, a: Assignment)
    requires s.Structure() && s.Done(|s.t.lits|) && cr < |s.ca| && !s.ca[cr].deleted
    requires forall q :: q in s.ca[cr].lits ==> s.t.Value(q) != Undef
    requires forall q :: s.t.Value(q) == True ==> Holds(a, q)
    ensures SatClause(a, s.ca[cr].lits)
  {
    hide StoreOk, LongInv, BinInv, LazyInv, ReasonInv, Propagated, Trail.Ok;
    PropagationComplete(s, cr);
    var c := s.ca[cr].lits;
    StoredSize(s, cr);
    assert c[0] in c;
    var q :| q in c && s.t.Value(q) == True;
  }

  lemma StoredSize(s: State, cr: nat)
    requires s.Structure() && cr < |s.ca|
    ensures |s.ca[cr].lits| >= 2
  {
    hide LongInv, BinInv, LazyInv, ReasonInv, Trail.Ok;
  }

  /**
   * With every variable of the formula assigned and everything propagated, the trail is a model of all clauses added.
   */
  lemma FullModel(s: State)
    requires s.Structure() && s.Meaning() && s.Done(|s.t.lits|) && ListOk(s.ca, s.clauses, false)
    requires forall v: nat :: Mentioned(s.formula, v) ==> s.t.Assigned(v)
    ensures ModelSat(s.t.asg, s.formula)
  {
    hide State.Structure, State.Done, StoreEntailed, RootEntailed, Mentioned;
    var a: Assignment := (v: nat) => v < |s.t.asg| && s.t.asg[v] == True;
    forall k | 0 <= k < |s.clauses| ensures SatClause(a, s.ca[s.clauses[k]].lits) {
      forall q | q in s.ca[s.clauses[k]].lits ensures s.t.Value(q) != Undef {
        assert Mentioned(s.formula, q.v) && s.t.Assigned(q.v);
      }
      StoredSat(s, s.clauses[k], a);
    }
    assert s.t.RootHolds(a);
    assert SatAll(a, s.formula);
    forall c | c in s.formula ensures exists q :: q in c && Val(s.t.asg, q) == True {
      var q :| q in c && Holds(a, q);
      MentionedIn(s.formula, c, q);
      assert s.t.Assigned(q.v);
    }
  }

  lemma MentionedBelow(f: seq<seq<Lit>>, nv: nat, v: nat)
    requires FormulaBelow(f, nv) && Mentioned(f, v)
    ensures v < nv
  {}

  lemma MentionedIn(f: seq<seq<Lit>>, c: seq<Lit>, q: Lit)
    requires c in f && q in c
    ensures Mentioned(f, q.v)
  {}


  // ---------------------------------------------------------------- a new variable

  function WithVar(s: State): State {
    var p := Lit(|s.t.asg|, false);
    s.(t := s.t.(asg := s.t.asg + [Undef], level := s.t.level + [0], pos := s.t.pos + [0]),
       reason := s.reason + [CREF_UNDEF],
       ws := s.ws[p := []][Neg(p) := []], wb := s.wb[p := []][Neg(p) := []])
  }

  lemma WithVarIs(s: State, s': State)
    requires var p := Lit(|s.t.asg|, false);
      s' == State(s'.t, s.ca, s.clauses, s.ws[p := []][Neg(p) := []], s.wb[p := []][Neg(p) := []], s.dirty, s.dirtyBin,
                  s.reason + [CREF_UNDEF], s.qhead, s.formula)
    requires s'.t == Trail(s.t.lits, s.t.lim, s.t.asg + [Undef], s.t.level + [0], s.t.pos + [0])
    ensures s' == WithVar(s)
  {}

  lemma NewVarTrail(t: Trail)
    requires t.Ok()
    ensures t.(asg := t.asg + [Undef], level := t.level + [0], pos := t.pos + [0]).Ok()
  {
    var t' := t.(asg := t.asg + [Undef], level := t.level + [0], pos := t.pos + [0]);
    forall v: nat ensures t'.Assigned(v) <==> t.Assigned(v) {}
    forall v: nat | t.Assigned(v) ensures t'.Lev(v) == t.Lev(v) && t'.Pos(v) == t.Pos(v) {}
    forall j | 0 <= j < |t'.lits|
      ensures t'.lits[j].v < |t'.asg| && t'.Pos(t'.lits[j].v) == j && t'.Value(t'.lits[j]) == True
    {
      assert t.lits[j].v < |t.asg|;
    }
  }

  lemma NewVarLists(ca: Store, ws: WatchLists, nv: nat, wb: WatchLists)
    requires LongInv(ca, ws, nv) && BinInv(ca, wb, nv)
    ensures var p := Lit(nv, false);
      LongInv(ca, ws[p := []][Neg(p) := []], nv + 1) && BinInv(ca, wb[p := []][Neg(p) := []], nv + 1)
  {
    var p := Lit(nv, false);
    var ws', wb' := ws[p := []][Neg(p) := []], wb[p := []][Neg(p) := []];
    forall q: Lit | q.v == nv ensures q == p || q == Neg(p) {}
    forall cr, i | 0 <= cr < |ca| && !ca[cr].deleted && |ca[cr].lits| >= 2 && 0 <= i < 2
      ensures if |ca[cr].lits| > 2 then Neg(ca[cr].lits[i]) in ws' && Watched(ws'[Neg(ca[cr].lits[i])], cr)
              else Neg(ca[cr].lits[i]) in wb' && Watched(wb'[Neg(ca[cr].lits[i])], cr)
    {
      if |ca[cr].lits| > 2 { assert Watched(ws[Neg(ca[cr].lits[i])], cr); }
      else { assert Watched(wb[Neg(ca[cr].lits[i])], cr); }
    }
  }

  lemma NewVarHeld(t: Trail, ca: Store, reason: seq<int>)
    requires HeldInv(t, ca, reason) && |reason| == |t.asg|
    ensures HeldInv(t.(asg := t.asg + [Undef], level := t.level + [0], pos := t.pos + [0]), ca, reason + [CREF_UNDEF])
  {
    hide Holding;
    var t' := t.(asg := t.asg + [Undef], level := t.level + [0], pos := t.pos + [0]);
    forall v: nat | t'.Assigned(v) ensures t.Assigned(v) && t'.On(v) == t.On(v) {}
  }

  lemma NewVarReason(t: Trail, ca: Store, reason: seq<int>)
    requires t.Ok() && ReasonInv(t, ca, reason)
    ensures ReasonInv(t.(asg := t.asg + [Undef], level := t.level + [0], pos := t.pos + [0]), ca, reason + [CREF_UNDEF])
  {
    hide HeldInv;
    var t' := t.(asg := t.asg + [Undef], level := t.level + [0], pos := t.pos + [0]);
    NewVarHeld(t, ca, reason);
    forall v: nat | t'.Assigned(v) && 0 < t'.Lev(v) <= |t'.lim| && (reason + [CREF_UNDEF])[v] != CREF_UNDEF
      ensures ReasonOk(t', ca, (reason + [CREF_UNDEF])[v], v)
    {
      assert t.Assigned(v) && ReasonOk(t, ca, reason[v], v);
      forall p | p in ca[reason[v]].lits
        ensures if p.v == v then t'.Value(p) == True else t'.Value(p) == False && t'.Pos(p.v) < t'.Pos(v)
      {
        assert t.Assigned(p.v);
      }
    }
  }

  lemma NewVarPropagated(t: Trail, ca: Store, ws: WatchLists, n: nat)
    requires t.Ok() && Propagated(t, ca, ws, n)
    ensures var p := Lit(|t.asg|, false);
      Propagated(t.(asg := t.asg + [Undef], level := t.level + [0], pos := t.pos + [0]), ca, ws[p := []][Neg(p) := []],
        n)
  {
    var p, t' := Lit(|t.asg|, false), t.(asg := t.asg + [Undef], level := t.level + [0], pos := t.pos + [0]);
    forall j | 0 <= j < n && j < |t'.lits| && t'.lits[j] in ws[p := []][Neg(p) := []]
      ensures ListDone(t', ca, ws[p := []][Neg(p) := []][t'.lits[j]], t'.Lev(t'.lits[j].v))
    {
      var q := t.lits[j];
      assert q.v < |t.asg| && q in ws;
      var l := ws[q];
      assert ListDone(t, ca, l, t.Lev(q.v));
      forall k | 0 <= k < |l| && l[k].cref < |ca| ensures t'.SatBy(ca[l[k].cref].lits, t'.Lev(q.v)) {
        var x :| x in ca[l[k].cref].lits && t.Value(x) == True && t.Lev(x.v) <= t.Lev(q.v);
        assert t'.Value(x) == True;
      }
    }
  }

  lemma NewVarRoot(t: Trail, a: Assignment)
    requires t.Ok()
    ensures t.(asg := t.asg + [Undef], level := t.level + [0], pos := t.pos + [0]).RootHolds(a) <==> t.RootHolds(a)
  {
    var t' := t.(asg := t.asg + [Undef], level := t.level + [0], pos := t.pos + [0]);
    forall v: nat ensures t'.Assigned(v) <==> t.Assigned(v) {}
    forall v: nat | t.Assigned(v) ensures t'.Lev(v) == t.Lev(v) && t'.On(v) == t.On(v) {}
  }

  lemma NewVarStep(s: State)
    requires s.Structure()
    ensures WithVar(s).Structure()
    ensures s.Meaning() ==> WithVar(s).Meaning()
    ensures forall n: nat :: s.Done(n) ==> WithVar(s).Done(n)
  {
    hide Trail.Ok, LongInv, BinInv, ReasonInv, StoreEntailed, Propagated;
    NewVarTrail(s.t);
    NewVarLists(s.ca, s.ws, |s.t.asg|, s.wb);
    NewVarReason(s.t, s.ca, s.reason);
    forall a: Assignment ensures WithVar(s).t.RootHolds(a) <==> s.t.RootHolds(a) { NewVarRoot(s.t, a); }
    forall n: nat | s.Done(n) ensures WithVar(s).Done(n) {
      NewVarPropagated(s.t, s.ca, s.ws, n);
      NewVarPropagated(s.t, s.ca, s.wb, n);
    }
  }

  /** The empty solver. */
  lemma EmptyState(s: State)
    requires s == State(Trail([], [], [], [], []), [], [], map[], map[], {}, {}, [], 0, [])
    ensures s.Structure() && s.Meaning() && s.Done(0)
  {}

  // ---------------------------------------------------------------- the variable order

  /** Every unassigned decision variable is in the heap. */
  ghost predicate HeapOk(asg: seq<LBool>, decision: seq<bool>, heap: set<nat>) {
    && |decision| == |asg|
    && (forall v: nat :: v in heap ==> v < |asg|)
    && (forall v: nat :: v < |asg| && decision[v] && asg[v] == Undef ==> v in heap)
  }

  lemma HeapExtends(t: Trail, t': Trail, decision: seq<bool>, heap: set<nat>)
    requires HeapOk(t.asg, decision, heap) && Extends(t, t')
    ensures HeapOk(t'.asg, decision, heap)
  {
    forall v: nat | v < |t'.asg| && decision[v] && t'.asg[v] == Undef ensures v in heap {
      assert !t.Assigned(v);
    }
  }

  lemma ListGrow(ca: Store, cl: Clause, cs: seq<nat>, learnt: bool)
    requires ListOk(ca, cs, learnt)
    ensures ListOk(ca + [cl], cs, learnt)
    ensures !cl.deleted && cl.learnt == learnt ==> ListOk(ca + [cl], cs + [|ca|], learnt)
  {
    forall k | 0 <= k < |cs| ensures (ca + [cl])[cs[k]] == ca[cs[k]] {}
  }

  /** Deleting a clause of the list while it is rebuilt: the ones kept before and the ones still ahead stay listed. */
  lemma ListDelete(ca: Store, kept: seq<nat>, cr: nat, rest: seq<nat>, learnt: bool)
    requires ListOk(ca, kept + [cr] + rest, learnt)
    ensures cr < |ca| && ListOk(ca[cr := ca[cr].(deleted := true)], kept + rest, learnt)
  {
    var a, b := kept + [cr] + rest, kept + rest;
    assert a[|kept|] == cr;
    forall k | 0 <= k < |b| ensures b[k] == a[if k < |kept| then k else k + 1] && b[k] != cr {
      assert b[k] == a[if k < |kept| then k else k + 1];
    }
  }

  lemma ListOther(ca: Store, cr: nat, cs: seq<nat>, learnt: bool)
    requires ListOk(ca, cs, learnt) && cr < |ca| && ca[cr].learnt != learnt
    ensures ListOk(ca[cr := ca[cr].(deleted := true)], cs, learnt)
  {}

  lemma HeapEnqueue(t: Trail, p: Lit, decision: seq<bool>, heap: set<nat>)
    requires t.Sizes() && p.v < |t.asg| && HeapOk(t.asg, decision, heap)
    ensures HeapOk(t.Enqueue(p).asg, decision, heap)
  {}

  lemma ListsBelow(ca: Store, cs: seq<nat>, learnt: bool)
    requires ListOk(ca, cs, learnt)
    ensures forall k :: 0 <= k < |cs| ==> cs[k] < |ca|
  {}

  lemma RootBound(s: State)
    requires s.Structure()
    ensures s.t.Root() <= |s.t.lits|
  {
    hide StoreOk, LongInv, BinInv, LazyInv, ReasonInv;
  }

  lemma TrailFacts(t: Trail, l: nat)
    requires t.Ok() && l < |t.lim|
    ensures t.lim[l] <= |t.lits|
  {}

  lemma ClauseVars(ca: Store, cr: nat, nv: nat)
    requires StoreOk(ca, nv) && cr < |ca|
    ensures |ca[cr].lits| >= 2 && ca[cr].lits[0].v < nv && ca[cr].lits[1].v < nv
  {
    assert VarsBelow(ca[cr].lits, nv);
  }

  lemma ListAt(ca: Store, kept: seq<nat>, rest: seq<nat>, learnt: bool)
    requires ListOk(ca, kept + rest, learnt)
    ensures rest != [] ==> rest[0] < |ca| && ca[rest[0]].learnt == learnt && !ca[rest[0]].deleted
  {
    if rest != [] { assert (kept + rest)[|kept|] == rest[0]; }
  }

  lemma AssertingLevel(f: seq<seq<Lit>>, t: Trail, learnt: seq<Lit>, bt: nat)
    requires Asserting(f, t, learnt, bt)
    ensures bt < |t.lim| && Entails(f, learnt)
  {
    hide Entails;
  }

  lemma RootConflict(s: State, confl: int)
    requires s.Sound() && s.Conflict(confl) && |s.t.lim| == 0
    ensures Unsat(s.formula) && s.Structure()
  {
    hide State.Done, StoreOk, LongInv, BinInv, LazyInv, ReasonInv, DbImplies, Trail.Ok;
    AllFalseUnsat(s.formula, s.t, s.ca[confl].lits);
  }

  lemma HeapDecide(t: Trail, p: Lit, decision: seq<bool>, heap: set<nat>)
    requires t.Sizes() && p.v < |t.asg| && HeapOk(t.asg, decision, heap + {p.v})
    ensures HeapOk(t.(lim := t.lim + [|t.lits|]).Enqueue(p).asg, decision, heap)
  {}

  lemma DoneRoot(s: State)
    requires s.Structure() && s.Meaning() && s.Done(s.qhead) && s.t.Root() <= s.qhead
    ensures s.Sound()
  {
    hide State.Structure, State.Meaning, Propagated;
    DoneLess(s, s.t.Root(), s.qhead);
  }

  lemma CutNone(t: Trail, t': Trail)
    requires IsCut(t, t', 0)
    ensures t'.lim == []
  {}

  lemma HeapSize(asg: seq<LBool>, decision: seq<bool>, heap: set<nat>)
    requires HeapOk(asg, decision, heap)
    ensures |decision| == |asg|
  {}

  // ---------------------------------------------------------------- sorting and reducing an added clause

  ghost predicate Sorted(c: seq<Lit>) {
    forall i, j :: 0 <= i < j < |c| ==> ToInt(c[i]) <= ToInt(c[j])
  }

  /** Progress of the pass over a sorted clause: what is kept so far, strictly ordered by variable. */
  ghost predicate Reducing(t: Trail, c: seq<Lit>, i: nat, kept: seq<Lit>) {
    && i <= |c|
    && (forall q :: q in kept ==> q in c[..i] && t.Value(q) == Undef)
    && (forall k :: 0 <= k < i ==> c[k] in kept || t.Value(c[k]) == False)
    && (forall k, l :: 0 <= k < l < |kept| ==> kept[k].v < kept[l].v)
  }

  lemma ReduceKeep(t: Trail, c: seq<Lit>, i: nat, kept: seq<Lit>)
    requires Sorted(c) && Reducing(t, c, i, kept) && i < |c| && t.Value(c[i]) == Undef
    requires |kept| > 0 ==> c[i] != kept[|kept| - 1] && c[i] != Neg(kept[|kept| - 1])
    ensures Reducing(t, c, i + 1, kept + [c[i]])
  {
    assert c[..i+1] == c[..i] + [c[i]];
    if |kept| > 0 {
      var p := kept[|kept| - 1];
      assert p in c[..i];
      var k :| 0 <= k < i && c[k] == p;
      assert ToInt(p) <= ToInt(c[i]);
      assert p.v < c[i].v;
    }
  }

  lemma ReduceSkip(t: Trail, c: seq<Lit>, i: nat, kept: seq<Lit>)
    requires Reducing(t, c, i, kept) && i < |c| && (t.Value(c[i]) == False || c[i] in kept)
    ensures Reducing(t, c, i + 1, kept)
  {
    assert c[..i+1] == c[..i] + [c[i]];
  }

  lemma ReduceTautology(t: Trail, c: seq<Lit>, i: nat, kept: seq<Lit>)
    requires Reducing(t, c, i, kept) && i < |c| && |kept| > 0 && c[i] == Neg(kept[|kept| - 1])
    ensures c[i] in c && Neg(c[i]) in c
  {
    assert kept[|kept| - 1] in c[..i];
  }

  lemma ReduceDone(t: Trail, c: seq<Lit>, ps: seq<Lit>, kept: seq<Lit>)
    requires Reducing(t, c, |c|, kept) && forall q :: q in c <==> q in ps
    ensures Reduced(t, ps, kept) && Proper(kept) && forall q :: q in kept ==> t.Value(q) == Undef
  {
    assert c[..|c|] == c;
    forall q | q in ps ensures q in kept || t.Value(q) == False {
      var k :| 0 <= k < |c| && c[k] == q;
    }
  }

  lemma StartReducing(t: Trail, c: seq<Lit>)
    ensures Reducing(t, c, 0, [])
  {}

  lemma FormulaMore(f: seq<seq<Lit>>, ps: seq<Lit>, nv: nat)
    requires FormulaBelow(f, nv) && forall q :: q in ps ==> q.v < nv
    ensures FormulaBelow(f + [ps], nv)
  {}

  lemma ReducedBelow(t: Trail, ps: seq<Lit>, c: seq<Lit>, nv: nat)
    requires Reduced(t, ps, c) && forall q :: q in ps ==> q.v < nv
    ensures VarsBelow(c, nv)
  {
    forall i | 0 <= i < |c| ensures c[i].v < nv { assert c[i] in ps; }
  }

  lemma NewClause(cl: Clause, nv: nat)
    requires |cl.lits| >= 2 && Proper(cl.lits) && VarsBelow(cl.lits, nv) && !cl.deleted && AttributesOk(cl)
    ensures NewClauseOk(cl, nv)
  {}

  ghost predicate FormulaBelow(f: seq<seq<Lit>>, nv: nat) {
    forall c, q :: c in f && q in c ==> q.v < nv
  }

  ghost predicate AllClear(seen: seq<bool>) {
    forall v: nat :: v < |seen| ==> !seen[v]
  }

  lemma NeatMore(f: seq<seq<Lit>>, seen: seq<bool>, nv: nat)
    ensures FormulaBelow(f, nv) ==> FormulaBelow(f, nv + 1)
    ensures AllClear(seen) ==> AllClear(seen + [false])
  {}

  lemma HeapNewVar(asg: seq<LBool>, decision: seq<bool>, heap: set<nat>, dvar: bool)
    requires HeapOk(asg, decision, heap)
    ensures HeapOk(asg + [Undef], decision + [dvar], if dvar then heap + {|asg|} else heap)
  {}
}
