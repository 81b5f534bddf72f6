/** The conflict-driven clause-learning solver, one method per step of the source. */
module Cdcl {
  import opened Cnf
  import opened SolverSpec
  import opened Redundancy
  import opened Analysis
  import opened ImplicationPoint
  import opened Reloc
  import opened SearchSpec
  import opened Wrappers

  class Solver {
    var ok: bool
    var ca: Store
    var clauses: seq<nat>
    var learnts: seq<nat>
    var watches: WatchLists
    var watchesBin: WatchLists
    var dirty: set<Lit>
    var dirtyBin: set<Lit>
    var assigns: seq<LBool>
    var trail: seq<Lit>
    var trailLim: seq<nat>
    var reason: seq<int>
    var level: seq<nat>
    var qhead: nat
    var seen: seq<bool>
    var decision: seq<bool>
    var polarity: seq<bool>
    var orderHeap: set<nat>
    var model: seq<LBool>
    var conflicts: nat
    var lbdSize: nat    // how full the window is over which block distances are averaged for restarts

    const SIZE_LBD_QUEUE: nat := 50

    ghost var pos: seq<nat>
    ghost var formula: seq<seq<Lit>>  // every clause ever added

    ghost function T(): Trail
      reads `trail, `trailLim, `assigns, `level, `pos
    {
      Trail(trail, trailLim, assigns, level, pos)
    }

    ghost function S(): State
      reads `trail, `trailLim, `assigns, `level, `pos
      reads `ca, `clauses, `watches, `watchesBin, `dirty, `dirtyBin, `reason, `qhead, `formula
    {
      State(T(), ca, clauses, watches, watchesBin, dirty, dirtyBin, reason, qhead, formula)
    }

    // ---------------------------------------------------------------- propagation

    method UncheckedEnqueue(p: Lit, from: int)
      requires T().Sizes() && |reason| == |assigns| && p.v < |assigns| && T().Value(p) == Undef
      modifies `assigns, `reason, `level, `trail, `pos
      ensures S() == old(S()).Enqueue(p, from)
    {
      assigns := assigns[p.v := if p.s then False else True];
      reason := reason[p.v := from];
      level := level[p.v := |trailLim|];
      pos := pos[p.v := |trail|];
      trail := trail + [p];
    }

    method EnqueueImplied(ghost p: Lit, imp: Lit, cr: nat)
      requires S().Propagating(p) && S().MayEnqueue(imp, cr)
      modifies `assigns, `reason, `level, `trail, `pos
      ensures S().Propagating(p) && Extends(old(T()), T())
      ensures old(T().Sizes() && |reason| == |assigns|) && S() == old(S()).Enqueue(imp, cr)
    {
      hide State.Propagating, Extends;
      EnqueueHead(S(), p, imp, cr);
      UncheckedEnqueue(imp, cr);
    }

    method VisitBin(p: Lit, w: Watcher) returns (conflict: bool)
      requires S().Propagating(p) && p in watchesBin && w in watchesBin[p]
      modifies `assigns, `reason, `level, `trail, `pos
      ensures S().Propagating(p) && Extends(old(T()), T())
      ensures w.cref < |ca|
      ensures if conflict then S().Conflict(w.cref) && S().QueueLeft(w.cref) else T().SatBy(ca[w.cref].lits, |T().lim|)
    {
      hide State.Propagating, State.Conflict, State.MayEnqueue, State.QueueLeft, Extends, Trail.SatBy;
      BinWatcher(S(), p, w);
      var imp := w.blocker;
      ExtendsRefl(T());
      if Val(assigns, imp) == False {
        BinQueue(S(), p, w);
        return true;
      }
      if Val(assigns, imp) == Undef {
        EnqueueImplied(p, imp, w.cref);
        BinWatcher(S(), p, w);
      }
      return false;
    }

    method PropagateBin(p: Lit) returns (confl: int)
      requires S().Propagating(p) && p in watchesBin
      modifies `assigns, `reason, `level, `trail, `pos
      ensures S().Propagating(p) && Extends(old(T()), T())
      ensures confl != CREF_UNDEF ==> S().Conflict(confl) && S().QueueLeft(confl)
      ensures confl == CREF_UNDEF ==> ListDone(T(), ca, watchesBin[p], |T().lim|)
    {
      hide State.Propagating, State.Conflict, State.QueueLeft, Extends, Trail.SatBy, T, S;
      ExtendsRefl(T());
      var wbin := watchesBin[p];
      for k := 0 to |wbin|
        invariant S().Propagating(p) && Extends(old(T()), T())
        invariant ListDone(T(), ca, wbin[..k], |T().lim|)
      {
        ghost var t := T();
        var conflict := VisitBin(p, wbin[k]);
        ExtendsTrans(old(T()), t, T());
        if conflict { return wbin[k].cref; }
        ExtendsLim(t, T());
        DoneAppend(t, T(), ca, wbin[..k], wbin[k], |T().lim|);
        assert wbin[..k+1] == wbin[..k] + [wbin[k]];
      }
      assert wbin[..|wbin|] == wbin;
      return CREF_UNDEF;
    }

    /** Makes the false literal the second one of its clause. */
    method Normalise(p: Lit, ghost kept: seq<Watcher>, w: Watcher, ghost rest: seq<Watcher>)
      requires S().Propagating(p) && p in watches && watches[p] == kept + [w] + rest
      modifies `ca
      ensures S().Propagating(p) && SameStore(old(ca), ca)
      ensures w.cref < |ca| && |ca[w.cref].lits| > 2 && ca[w.cref].lits[1] == Neg(p)
    {
      hide State.Propagating, SameStore;
      LongWatcher(S(), p, kept, w, rest);
      SameStoreRefl(ca);
      if ca[w.cref].lits[0] == Neg(p) {
        NormaliseStep(S(), p, w.cref);
        ca := SwapIn(ca, w.cref, 0, 1);
      }
    }

    method FindWatch(cr: nat) returns (k: nat)
      requires cr < |ca| && |ca[cr].lits| >= 2
      ensures 2 <= k <= |ca[cr].lits|
      ensures k < |ca[cr].lits| ==> Val(assigns, ca[cr].lits[k]) != False
      ensures k == |ca[cr].lits| ==> forall i :: 2 <= i < k ==> Val(assigns, ca[cr].lits[i]) == False
    {
      k := 2;
      while k < |ca[cr].lits| && Val(assigns, ca[cr].lits[k]) == False
        invariant 2 <= k <= |ca[cr].lits|
        invariant forall i :: 2 <= i < k ==> Val(assigns, ca[cr].lits[i]) == False
      {
        k := k + 1;
      }
    }

    /** Keeps the watcher in the list of p, with `first` as its blocker. */
    method KeepWatcher(p: Lit, kept: seq<Watcher>, w0: Watcher, rest: seq<Watcher>)
      requires S().Propagating(p) && p in watches && watches[p] == kept + [w0] + rest
      requires w0.cref < |ca| && |ca[w0.cref].lits| > 2 && ca[w0.cref].lits[1] == Neg(p)
      modifies `watches
      ensures S().Propagating(p) && p in watches
      ensures watches[p] == kept + [Watcher(w0.cref, ca[w0.cref].lits[0])] + rest
    {
      hide State.Propagating;
      LongWatcher(S(), p, kept, w0, rest);
      var w := Watcher(w0.cref, ca[w0.cref].lits[0]);
      assert LongFits(ca, p, w) by { assert ca[w0.cref].lits[0] in ca[w0.cref].lits; }
      KeepStep(S(), p, kept, w0, rest, w);
      watches := watches[p := kept + [w] + rest];
    }

    /** Watches literal k of the clause instead of Neg(p). */
    method MoveWatcher(p: Lit, kept: seq<Watcher>, w0: Watcher, rest: seq<Watcher>, k: nat)
      requires S().Propagating(p) && p in watches && watches[p] == kept + [w0] + rest
      requires w0.cref < |ca| && 2 <= k < |ca[w0.cref].lits| && ca[w0.cref].lits[1] == Neg(p)
      requires Val(assigns, ca[w0.cref].lits[k]) != False
      modifies `ca, `watches
      ensures S().Propagating(p) && SameStore(old(ca), ca)
      ensures p in watches && watches[p] == kept + rest
    {
      hide State.Propagating, SameStore, SwapIn, Val;
      var w, q := Watcher(w0.cref, ca[w0.cref].lits[0]), Neg(ca[w0.cref].lits[k]);
      MoveStep(S(), p, kept, w0, rest, w, k);
      ca := SwapIn(ca, w0.cref, 1, k);
      watches := MoveWatch(watches, p, kept + rest, q, w);
    }

    /** One long clause watched by p: satisfied, re-watched, unit or false. Returns the watchers of p kept so far. */
    method VisitLong(p: Lit, kept: seq<Watcher>, w: Watcher, rest: seq<Watcher>)
      returns (kept': seq<Watcher>, conflict: bool)
      requires S().Propagating(p) && p in watches && watches[p] == kept + [w] + rest
      requires ListDone(T(), ca, kept, |T().lim|)
      modifies `ca, `watches, `assigns, `reason, `level, `trail, `pos
      ensures S().Propagating(p) && Extends(old(T()), T()) && SameStore(old(ca), ca)
      ensures p in watches && watches[p] == kept' + rest
      ensures if conflict then S().Conflict(w.cref) else ListDone(T(), ca, kept', |T().lim|)
    {
      hide State.Propagating, State.Conflict, State.MayEnqueue, Extends, Trail.SatBy, Trail.Ok, SameStore, ListDone;
      hide LongListOk;
      LongWatcher(S(), p, kept, w, rest);
      PropagatingOk(S(), p);
      ExtendsRefl(T());
      if Val(assigns, w.blocker) == True {
        SameStoreRefl(ca);
        TrueSatBy(T(), ca[w.cref].lits, w.blocker);
        DoneAppend(T(), T(), ca, kept, w, |T().lim|);
        assert kept + [w] + rest == (kept + [w]) + rest;
        return kept + [w], false;
      }
      Normalise(p, kept, w, rest);
      SameStoreDone(T(), old(ca), ca, kept, |T().lim|);
      ghost var ca1 := ca;
      kept', conflict := Rewatch(p, kept, w, rest);
      SameStoreTrans(old(ca), ca1, ca);
    }

    /** The clause is unsatisfied as far as its blocker goes and Neg(p) is its second literal. */
    method Rewatch(p: Lit, kept: seq<Watcher>, w: Watcher, rest: seq<Watcher>)
      returns (kept': seq<Watcher>, conflict: bool)
      requires S().Propagating(p) && p in watches && watches[p] == kept + [w] + rest
      requires w.cref < |ca| && |ca[w.cref].lits| > 2 && ca[w.cref].lits[1] == Neg(p)
      requires ListDone(T(), ca, kept, |T().lim|)
      modifies `ca, `watches, `assigns, `reason, `level, `trail, `pos
      ensures S().Propagating(p) && Extends(old(T()), T()) && SameStore(old(ca), ca)
      ensures p in watches && watches[p] == kept' + rest
      ensures if conflict then S().Conflict(w.cref) else ListDone(T(), ca, kept', |T().lim|)
    {
      hide State.Propagating, State.Conflict, State.MayEnqueue, Extends, Trail.SatBy, Trail.Ok, SameStore, ListDone;
      hide LongListOk;
      PropagatingOk(S(), p);
      ExtendsRefl(T());
      SameStoreRefl(ca);
      var cr := w.cref;
      var first := ca[cr].lits[0];
      if first != w.blocker && Val(assigns, first) == True {
        KeepWatcher(p, kept, w, rest);
        TrueSatBy(T(), ca[cr].lits, first);
        DoneAppend(T(), T(), ca, kept, Watcher(cr, first), |T().lim|);
        return kept + [Watcher(cr, first)], false;
      }
      kept', conflict := FindOrUnit(p, kept, w, rest);
    }

    /** The first literal is not true: another literal is watched, or the clause is unit or false. */
    method FindOrUnit(p: Lit, kept: seq<Watcher>, w: Watcher, rest: seq<Watcher>)
      returns (kept': seq<Watcher>, conflict: bool)
      requires S().Propagating(p) && p in watches && watches[p] == kept + [w] + rest
      requires w.cref < |ca| && |ca[w.cref].lits| > 2 && ca[w.cref].lits[1] == Neg(p)
      requires ListDone(T(), ca, kept, |T().lim|)
      modifies `ca, `watches, `assigns, `reason, `level, `trail, `pos
      ensures S().Propagating(p) && Extends(old(T()), T()) && SameStore(old(ca), ca)
      ensures p in watches && watches[p] == kept' + rest
      ensures if conflict then S().Conflict(w.cref) else ListDone(T(), ca, kept', |T().lim|)
    {
      hide State.Propagating, State.Conflict, Extends, SameStore, ListDone;
      ExtendsRefl(T());
      SameStoreRefl(ca);
      var cr := w.cref;
      var k := FindWatch(cr);
      if k < |ca[cr].lits| {
        MoveWatcher(p, kept, w, rest, k);
        SameStoreDone(T(), old(ca), ca, kept, |T().lim|);
        return kept, false;
      }
      var w' := Watcher(cr, ca[cr].lits[0]);
      KeepWatcher(p, kept, w, rest);
      kept' := kept + [w'];
      conflict := UnitClause(p, kept, w', rest);
    }

    /** No literal but the first is left: it is enqueued, or the clause is a conflict. */
    method UnitClause(p: Lit, kept: seq<Watcher>, w: Watcher, rest: seq<Watcher>) returns (conflict: bool)
      requires S().Propagating(p) && p in watches && watches[p] == kept + [w] + rest
      requires ListDone(T(), ca, kept, |T().lim|)
      requires w.cref < |ca| && |ca[w.cref].lits| > 2 && ca[w.cref].lits[1] == Neg(p)
      requires forall i :: 2 <= i < |ca[w.cref].lits| ==> Val(assigns, ca[w.cref].lits[i]) == False
      modifies `assigns, `reason, `level, `trail, `pos
      ensures S().Propagating(p) && Extends(old(T()), T())
      ensures if conflict then S().Conflict(w.cref) else ListDone(T(), ca, kept + [w], |T().lim|)
    {
      hide State.Propagating, State.Conflict, State.MayEnqueue, Extends, Trail.SatBy, ListDone;
      LongWatcher(S(), p, kept, w, rest);
      UnitOrConflict(S(), p, kept, w, rest);
      ExtendsRefl(T());
      ghost var t := T();
      var first := ca[w.cref].lits[0];
      if Val(assigns, first) == False { return true; }
      if Val(assigns, first) == Undef {
        EnqueueImplied(p, first, w.cref);
      }
      PropagatingOk(S(), p);
      TrueSatBy(T(), ca[w.cref].lits, first);
      ExtendsLim(t, T());
      DoneAppend(t, T(), ca, kept, w, |T().lim|);
      return false;
    }

    method PropagateLong(p: Lit) returns (confl: int)
      requires S().Propagating(p) && p in watches && p in watchesBin && ListDone(T(), ca, watchesBin[p], |T().lim|)
      modifies `ca, `watches, `assigns, `reason, `level, `trail, `pos
      ensures S().Propagating(p) && Extends(old(T()), T()) && SameStore(old(ca), ca)
      ensures confl != CREF_UNDEF ==> S().Conflict(confl) && 0 <= confl < |ca| && |ca[confl].lits| > 2
      ensures confl == CREF_UNDEF ==> S().Done(qhead)
    {
      hide State.Propagating, State.Conflict, Extends, Trail.SatBy, T, S, SameStore, ListDone;
      ExtendsRefl(T());
      SameStoreRefl(ca);
      var ws := watches[p];
      var kept: seq<Watcher> := [];
      DoneNil(T(), ca, |T().lim|);
      assert ws[0..] == ws;
      for i := 0 to |ws|
        invariant S().Propagating(p) && Extends(old(T()), T()) && SameStore(old(ca), ca)
        invariant p in watches && watches[p] == kept + ws[i..]
        invariant ListDone(T(), ca, kept, |T().lim|) && ListDone(T(), ca, watchesBin[p], |T().lim|)
      {
        ghost var t, ca0 := T(), ca;
        assert kept + ws[i..] == kept + [ws[i]] + ws[i+1..];
        LongSize(p, kept, ws[i], ws[i+1..]);
        var conflict;
        kept, conflict := VisitLong(p, kept, ws[i], ws[i+1..]);
        ExtendsTrans(old(T()), t, T());
        SameStoreTrans(old(ca), ca0, ca);
        if conflict {
          SameStoreSize(ca0, ca, ws[i].cref);
          return ws[i].cref;
        }
        ExtendsLim(t, T());
        ExtendsDone(t, T(), ca0, watchesBin[p], |T().lim|);
        SameStoreDone(T(), ca0, ca, watchesBin[p], |T().lim|);
      }
      assert kept + ws[|ws|..] == kept;
      HeadLists(p);
      return CREF_UNDEF;
    }

    lemma LongSize(p: Lit, kept: seq<Watcher>, w: Watcher, rest: seq<Watcher>)
      requires S().Propagating(p) && p in watches && watches[p] == kept + [w] + rest
      ensures w.cref < |ca| && |ca[w.cref].lits| > 2
    {
      hide State.Propagating;
      LongWatcher(S(), p, kept, w, rest);
    }

    lemma HeadLists(p: Lit)
      requires S().Propagating(p) && p in watches && p in watchesBin
      requires ListDone(T(), ca, watches[p], |T().lim|) && ListDone(T(), ca, watchesBin[p], |T().lim|)
      ensures S().Done(qhead)
    {
      hide State.Propagating, ListDone;
      HeadDone(S(), p);
    }

    // ---------------------------------------------------------------- lazy deletion

    method CleanAll(ghost n: nat)
      requires S().Structure() && S().Meaning() && S().Done(n)
      modifies `watches, `watchesBin, `dirty, `dirtyBin
      ensures S().Structure() && S().Meaning() && S().Done(n)
      ensures dirty == {} && dirtyBin == {}
      ensures Cleaned(ca, old(watches), watches, old(dirty)) && Cleaned(ca, old(watchesBin), watchesBin, old(dirtyBin))
    {
      hide State.Structure, State.Meaning, State.Done, Cleaned;
      CleanLong(n);
      CleanBin(n);
    }

    method CleanLong(ghost n: nat)
      requires S().Structure() && S().Meaning() && S().Done(n)
      modifies `watches, `dirty
      ensures S().Structure() && S().Meaning() && S().Done(n)
      ensures dirty == {} && Cleaned(ca, old(watches), watches, old(dirty))
    {
      hide State.Structure, State.Meaning, State.Done, Cleaned;
      CleanedStart(ca, watches, dirty);
      while dirty != {}
        invariant S().Structure() && S().Meaning() && S().Done(n)
        invariant dirty <= old(dirty) && Cleaned(ca, old(watches), watches, old(dirty) - dirty)
        decreases dirty
      {
        var p :| p in dirty;
        CleanStep(S(), p, n);
        CleanedNext(ca, old(watches), watches, old(dirty), dirty, p);
        if p in watches {
          var kept := Filter(watches[p]);
          watches := watches[p := kept];
        }
        dirty := dirty - {p};
      }
      assert old(dirty) - {} == old(dirty);
    }

    method CleanBin(ghost n: nat)
      requires S().Structure() && S().Meaning() && S().Done(n)
      modifies `watchesBin, `dirtyBin
      ensures S().Structure() && S().Meaning() && S().Done(n)
      ensures dirtyBin == {} && Cleaned(ca, old(watchesBin), watchesBin, old(dirtyBin))
    {
      hide State.Structure, State.Meaning, State.Done, Cleaned;
      CleanedStart(ca, watchesBin, dirtyBin);
      while dirtyBin != {}
        invariant S().Structure() && S().Meaning() && S().Done(n)
        invariant dirtyBin <= old(dirtyBin) && Cleaned(ca, old(watchesBin), watchesBin, old(dirtyBin) - dirtyBin)
        decreases dirtyBin
      {
        var p :| p in dirtyBin;
        CleanStep(S(), p, n);
        CleanedNext(ca, old(watchesBin), watchesBin, old(dirtyBin), dirtyBin, p);
        if p in watchesBin {
          var kept := Filter(watchesBin[p]);
          watchesBin := watchesBin[p := kept];
        }
        dirtyBin := dirtyBin - {p};
      }
      assert old(dirtyBin) - {} == old(dirtyBin);
    }

    method Filter(ws: seq<Watcher>) returns (kept: seq<Watcher>)
      ensures kept == Undeleted(ca, ws)
    {
      kept := [];
      for i := 0 to |ws|
        invariant kept == Undeleted(ca, ws[..i])
      {
        assert ws[..i+1][..i] == ws[..i];
        if !(ws[i].cref < |ca| && ca[ws[i].cref].deleted) { kept := kept + [ws[i]]; }
      }
      assert ws[..|ws|] == ws;
    }

    method Propagate() returns (confl: int)
      requires S().Structure() && S().Meaning() && S().Done(qhead) && T().Root() <= qhead
      modifies `ca, `watches, `watchesBin, `dirty, `dirtyBin, `assigns, `reason, `level, `trail, `pos, `qhead
      ensures S().Structure() && S().Meaning() && Extends(old(T()), T()) && SameStore(old(ca), ca)
      ensures dirty == {} && dirtyBin == {}
      ensures confl == CREF_UNDEF ==> S().Done(qhead) && qhead == |trail|
      ensures confl != CREF_UNDEF ==> S().Conflict(confl) && S().QueueLeft(confl) && S().Done(T().Root())
    {
      hide State.Structure, State.Meaning, State.Done, State.Conflict, State.QueueLeft, State.Propagating, Extends;
      hide SameStore;
      CleanAll(qhead);
      StructureFacts(S());
      ExtendsRefl(T());
      SameStoreRefl(ca);
      while qhead < |trail|
        invariant S().Structure() && S().Meaning() && S().Done(qhead) && Extends(old(T()), T())
        invariant SameStore(old(ca), ca)
        invariant dirty == {} && dirtyBin == {}
        invariant T().Root() <= qhead <= |trail| <= |assigns|
        decreases |assigns| - qhead
      {
        confl := PropagateHead(old(T()), old(ca));
        if confl != CREF_UNDEF { return; }
      }
      return CREF_UNDEF;
    }

    method PropagateHead(ghost t0: Trail, ghost ca0: Store) returns (confl: int)
      requires S().Structure() && S().Meaning() && S().Done(qhead) && Extends(t0, T()) && SameStore(ca0, ca)
      requires dirty == {} && dirtyBin == {} && T().Root() <= qhead < |trail|
      modifies `ca, `watches, `assigns, `reason, `level, `trail, `pos, `qhead
      ensures S().Structure() && S().Meaning() && Extends(t0, T()) && SameStore(ca0, ca)
      ensures |assigns| == old(|assigns|) && T().Root() <= qhead <= |trail| <= |assigns|
      ensures confl == CREF_UNDEF ==> S().Done(qhead) && qhead == old(qhead) + 1
      ensures confl != CREF_UNDEF ==> S().Conflict(confl) && S().QueueLeft(confl) && S().Done(T().Root())
    {
      hide State.Structure, State.Meaning, State.Done, State.Conflict, State.QueueLeft, State.Propagating, Extends;
      hide SameStore;
      NextHead(S());
      var p := trail[qhead];
      qhead := qhead + 1;
      HeadLevel(S(), p);
      ghost var t1 := T();
      confl := PropagateBin(p);
      ExtendsTrans(t0, t1, T());
      ExtendsLen(t1, T());
      if confl == CREF_UNDEF {
        HeadLevel(S(), p);
        ghost var t2 := T();
        ghost var ca2 := ca;
        confl := PropagateLong(p);
        ExtendsTrans(t0, t2, T());
        ExtendsLen(t2, T());
        SameStoreTrans(ca0, ca2, ca);
        HeadFacts(S(), p);
        if confl != CREF_UNDEF {
          QheadFree(S(), |trail|);
          qhead := |trail|;
          QueueEmptied(S(), confl);
        }
      } else {
        HeadFacts(S(), p);
      }
    }

    // ---------------------------------------------------------------- conflict analysis

    /** The reason of v, with v's own literal brought to the front of a binary clause. */
    method FrontReason(v: nat) returns (cr: nat)
      requires S().Sound() && HasReasonOk(S(), v)
      modifies `ca
      ensures S().Sound() && SameStore(old(ca), ca) && Fronted(S(), v, cr)
    {
      hide State.Structure, State.Meaning, State.Done, SameStore;
      StructureFacts(S());
      cr := reason[v];
      SameStoreRefl(ca);
      assert ca[cr].lits[0] in ca[cr].lits;
      if |ca[cr].lits| == 2 && Val(assigns, ca[cr].lits[0]) == False {
        SwapBinStep(S(), cr);
        SwapSame(ca[cr].lits, 0, 1);
        ca := SwapIn(ca, cr, 0, 1);
      }
    }

    /** Marks one literal of a clause that is resolved on. */
    method MarkLit(q: Lit, out: seq<Lit>, pathC: int, ghost bound: nat) returns (out': seq<Lit>, pathC': int)
      requires T().Ok() && Marks(T(), seen, out, pathC) && Below(T(), seen, bound)
      requires T().Value(q) == False && T().Pos(q.v) < bound
      modifies `seen
      ensures Marks(T(), seen, out', pathC') && Below(T(), seen, bound) && pathC' >= pathC
      ensures |seen| == |old(seen)| && forall v: nat :: v < |seen| && old(seen)[v] ==> seen[v]
      ensures q.v < |seen| && (seen[q.v] || T().Lev(q.v) == 0)
      ensures old(T().Lev(q.v) == |T().lim| > 0) && !old(seen[q.v]) ==> pathC' > pathC
      ensures seen == old(seen) || (seen == old(seen)[q.v := true] && T().Lev(q.v) > 0)
    {
      hide Trail.Ok, Marks, Below;
      MarksSize(T(), seen, out, pathC);
      OkSizes(T());
      out', pathC' := out, pathC;
      if !seen[q.v] && level[q.v] > 0 {
        if level[q.v] >= |trailLim| {
          MarkCurrent(T(), seen, out, pathC, q, bound);
          pathC' := pathC + 1;
        } else {
          MarkLower(T(), seen, out, pathC, q, bound);
          out' := out + [q];
        }
        seen := seen[q.v := true];
      }
    }

    /** Marks the literals of a clause from index `from` on; those below the current level go to `out`. */
    method MarkClause(cr: nat, from: nat, out: seq<Lit>, pathC: int, ghost bound: nat)
      returns (out': seq<Lit>, pathC': int)
      requires T().Ok() && cr < |ca| && FalseFrom(T(), ca[cr].lits, from, bound)
      requires Marks(T(), seen, out, pathC) && Below(T(), seen, bound)
      modifies `seen
      ensures Marks(T(), seen, out', pathC') && Below(T(), seen, bound) && pathC' >= pathC
      ensures Grows(old(seen), seen) && MarkedFrom(T(), seen, ca[cr].lits, from)
      ensures MarksOnly(T(), old(seen), seen, ca[cr].lits[from..])
    {
      hide Trail.Ok, Marks, Below;
      out', pathC' := out, pathC;
      var c := ca[cr].lits;
      for j := from to |c|
        invariant Marks(T(), seen, out', pathC') && Below(T(), seen, bound) && pathC' >= pathC
        invariant |seen| == |old(seen)| && forall v: nat :: v < |seen| && old(seen)[v] ==> seen[v]
        invariant forall i :: from <= i < j ==> c[i].v < |seen| && (seen[c[i].v] || T().Lev(c[i].v) == 0)
        invariant MarksOnly(T(), old(seen), seen, c[from..])
      {
        assert c[j] == c[from..][j - from];
        assert c[j] in c[from..] && InVars(c[from..], c[j].v);
        out', pathC' := MarkLit(c[j], out', pathC', bound);
      }
    }

    /** The last marked literal at or below `index` on the trail; it is of the current level. */
    method SelectNext(index: nat, ghost out: seq<Lit>, ghost pathC: int) returns (p: Lit, i: nat)
      requires T().Ok() && index < |trail| && |trailLim| > 0
      requires Marks(T(), seen, out, pathC) && Below(T(), seen, index + 1) && pathC > 0
      ensures T().Value(p) == True && T().Lev(p.v) == |T().lim| && i == T().Pos(p.v) <= index && p == T().On(p.v)
      ensures p.v < |seen| && seen[p.v] && p.v < |assigns|
      ensures Below(T(), seen, T().Pos(p.v) + 1)
    {
      hide Trail.Ok;
      OkSizes(T());
      ghost var v: nat :| v in CurSeen(T(), seen);
      i := index;
      while !seen[trail[i].v]
        invariant T().Pos(v) <= i <= index
        invariant Below(T(), seen, i + 1)
        decreases i
      {
        StepDown(T(), seen, v, i);
        i := i - 1;
      }
      PickTop(T(), seen, v, i);
      p := trail[i];
    }

    /** Picks the next literal to resolve on and takes its mark away. */
    method Pick(index: int, ghost out: seq<Lit>, pathC: int, ghost s0: State, ghost confl: int)
      returns (p: Lit, index': int, pathC': int)
      requires T().Ok() && -1 <= index < |trail| && |trailLim| > 0
      requires Marks(T(), seen, out, pathC) && Below(T(), seen, index + 1) && pathC > 0
      requires SeenEntailed(formula, T(), seen, [])
      requires s0.t == T() && MarksReached(s0, confl, seen, index + 1, index + 1) && NoneFrom(s0, confl, index + 1)
      modifies `seen
      ensures Picked(T(), p) && index' == T().Pos(p.v) - 1 < index
      ensures Marks(T(), seen, out, pathC') && pathC' == pathC - 1 && Below(T(), seen, T().Pos(p.v))
      ensures SeenEntailed(formula, T(), seen, [Neg(p)]) && AtPick(s0, confl, seen, p)
    {
      hide Trail.Ok, Marks, Below, SeenEntailed, AtPick, NoneFrom, MarksReached;
      PathMarked(T(), seen, out, pathC, index + 1);
      MarksSize(T(), seen, out, pathC);
      p, index' := SelectNext(index, out, pathC);
      index' := index' - 1;
      Unmark(T(), seen, out, pathC, p);
      BelowPick(T(), seen, p);
      PickEntailed(formula, T(), seen, p);
      PickReached(s0, confl, seen, p, index + 1);
      seen := seen[p.v := false];
      pathC' := pathC - 1;
    }

    /** The reason of a picked literal that is no decision; p is its first literal, the others are false and older. */
    method PickedFront(p: Lit, ghost out: seq<Lit>, ghost pathC: int) returns (cr: nat)
      requires Analysing(S(), seen, out, pathC, T().Pos(p.v), [Neg(p)]) && Picked(T(), p) && pathC > 0
      modifies `ca
      ensures Analysing(S(), seen, out, pathC, T().Pos(p.v), [Neg(p)]) && SameStore(old(ca), ca)
      ensures cr < |ca| && |ca[cr].lits| > 0 && ca[cr].lits[0] == p && FalseFrom(T(), ca[cr].lits, 1, T().Pos(p.v))
      ensures Fronted(S(), p.v, cr)
    {
      hide State.Sound, Marks, Below, SameStore, SeenEntailed, Fronted, FalseFrom, HasReasonOk;
      PickedReason(S(), seen, out, pathC, p);
      cr := FrontReason(p.v);
      ReasonFront(S(), p, cr);
    }

    /** Resolves on p: its reason's other literals are marked. */
    method Resolve(p: Lit, out: seq<Lit>, pathC: int, ghost s0: State, ghost confl: int)
      returns (out': seq<Lit>, pathC': int)
      requires Analysing(S(), seen, out, pathC, T().Pos(p.v), [Neg(p)]) && Picked(T(), p) && pathC > 0
      requires S() == s0.(ca := ca) && SameStore(s0.ca, ca) && AtPick(s0, confl, seen, p)
      modifies `ca, `seen
      ensures Analysing(S(), seen, out', pathC', T().Pos(p.v), []) && pathC' > 0
      ensures S() == s0.(ca := ca) && SameStore(s0.ca, ca)
      ensures MarksReached(s0, confl, seen, T().Pos(p.v), T().Pos(p.v)) && NoneFrom(s0, confl, T().Pos(p.v))
    {
      hide State.Sound, Marks, Below, SameStore, Trail.Ok, SeenEntailed, Fronted, AtPick, MarksReached, NoneFrom;
      hide StoreOk, ReasonInv, MarkedFrom, FalseFrom, Grows, MarksOnly;
      ghost var ca1 := ca;
      MarksSize(T(), seen, out, pathC);
      PathMarked(T(), seen, out, pathC, T().Pos(p.v));
      var cr := PickedFront(p, out, pathC);
      SameStoreTrans(s0.ca, ca1, ca);
      SoundFacts(S());
      ghost var seen0 := seen;
      out', pathC' := MarkClause(cr, 1, out, pathC, T().Pos(p.v));
      MarksSize(T(), seen, out', pathC');
      ResolveEntailed(S(), seen0, seen, p, cr);
      ResolveReached(s0, ca, confl, seen0, seen, p, cr);
    }

    /** Resolves the conflict back to its first unique implication point p. */
    method FirstUip(confl: int) returns (p: Lit, out: seq<Lit>)
      requires S().Sound() && S().Conflict(confl) && |trailLim| > 0
      requires |seen| == |assigns| && AllClear(seen)
      modifies `ca, `seen
      ensures S().Sound() && S() == old(S()).(ca := ca) && SameStore(old(ca), ca)
      ensures Uip(formula, T(), seen, p, out) && FirstPoint(old(S()), confl, seen, p)
    {
      hide State.Sound, Marks, Below, SameStore, Trail.Ok, SeenEntailed, State.Conflict;
      hide StoreOk, ReasonInv, FalseFrom, Grows, Uip, Marked, AtPick, FirstPoint, MarksOnly, MarksReached, NoneFrom;
      ghost var s0 := S();
      SoundFacts(S());
      ConflictFalse(S(), confl);
      NoMarks(T(), seen);
      SameStoreRefl(ca);
      ghost var seen0 := seen;
      var pathC;
      out, pathC := MarkClause(confl, 0, [], 0, |trail|);
      ConflictMarked(S(), seen, out, pathC, confl);
      ConflictEntailed(S(), confl, seen);
      MarksSize(T(), seen, out, pathC);
      ConflictReached(s0, confl, seen0, seen, out, pathC);
      var index;
      p, index, pathC := Pick(|trail| - 1, out, pathC, s0, confl);
      p, out := ResolveAll(p, out, index, pathC, s0, confl);
    }

    /** The resolution loop; `index` is where the walk down the trail has arrived. */
    method ResolveAll(p0: Lit, out0: seq<Lit>, index0: int, pathC0: int, ghost s0: State, ghost confl: int)
      returns (p: Lit, out: seq<Lit>)
      requires Analysing(S(), seen, out0, pathC0, T().Pos(p0.v), [Neg(p0)]) && Picked(T(), p0) && pathC0 >= 0
      requires S() == s0.(ca := ca) && SameStore(s0.ca, ca) && AtPick(s0, confl, seen, p0)
      requires index0 == T().Pos(p0.v) - 1
      modifies `ca, `seen
      ensures S().Sound() && S() == s0.(ca := ca) && SameStore(s0.ca, ca)
      ensures Uip(formula, T(), seen, p, out) && FirstPoint(s0, confl, seen, p)
    {
      hide State.Sound, Marks, Below, SameStore, Trail.Ok, SeenEntailed, Picked, Uip, AtPick, FirstPoint;
      p, out := p0, out0;
      var index, pathC := index0, pathC0;
      while pathC > 0
        invariant Analysing(S(), seen, out, pathC, T().Pos(p.v), [Neg(p)]) && Picked(T(), p) && pathC >= 0
        invariant S() == s0.(ca := ca) && SameStore(s0.ca, ca) && AtPick(s0, confl, seen, p)
        invariant index == T().Pos(p.v) - 1
        decreases index
      {
        p, out, index, pathC := ResolveNext(p, out, index, pathC, s0, confl);
      }
      SoundFacts(S());
      UipReached(S(), seen, p, out);
      PointFound(s0, confl, seen, out, p);
    }

    /** One resolution step, then back along the trail to the next marked literal. */
    method ResolveNext(p0: Lit, out0: seq<Lit>, index0: int, pathC0: int, ghost s0: State, ghost confl: int)
      returns (p: Lit, out: seq<Lit>, index: int, pathC: int)
      requires Analysing(S(), seen, out0, pathC0, T().Pos(p0.v), [Neg(p0)]) && Picked(T(), p0) && pathC0 > 0
      requires S() == s0.(ca := ca) && SameStore(s0.ca, ca) && AtPick(s0, confl, seen, p0)
      requires index0 == T().Pos(p0.v) - 1
      modifies `ca, `seen
      ensures Analysing(S(), seen, out, pathC, T().Pos(p.v), [Neg(p)]) && Picked(T(), p) && pathC >= 0
      ensures S() == s0.(ca := ca) && SameStore(s0.ca, ca) && AtPick(s0, confl, seen, p)
      ensures index == T().Pos(p.v) - 1 < index0
    {
      hide State.Sound, Marks, Below, SameStore, Trail.Ok, SeenEntailed, Picked, AtPick, MarksReached, NoneFrom;
      out, pathC := Resolve(p0, out0, pathC0, s0, confl);
      SoundFacts(S());
      PickedBelow(T(), p0);
      p, index, pathC := Pick(index0, out, pathC, s0, confl);
    }

    /** The reason of the variable being expanded. */
    method ExpandFront(v: nat, levels: set<nat>, ghost stack: seq<Lit>, ghost added: seq<Lit>, ghost v0: nat,
        ghost seen0: seq<bool>)
      returns (cr: nat)
      requires S().Sound() && HasReasonOk(S(), v) && Exploring(S(), levels, seen0, seen, added, stack, v0, v)
      modifies `ca
      ensures S().Sound() && SameStore(old(ca), ca) && Exploring(S(), levels, seen0, seen, added, stack, v0, v)
      ensures Fronted(S(), v, cr)
    {
      hide State.Sound, Explored, Plus, SameStore, Fronted, HasReasonOk, Wanted;
      ghost var s0 := S();
      cr := FrontReason(v);
      ExploredSame(s0, ca, seen, added, stack, v0, v);
      WantedSame(s0, ca, levels, seen0, added, stack, v0, v);
    }

    /** One literal of an expanded reason. */
    method ExpandLit(q: Lit, levels: set<nat>, stack0: seq<Lit>, added0: seq<Lit>, ghost v0: nat, ghost v: nat,
        ghost seen0: seq<bool>)
      returns (ok: bool, stack: seq<Lit>, added: seq<Lit>)
      requires Exploring(S(), levels, seen0, seen, added0, stack0, v0, v) && InReason(S(), v, q)
      requires |level| == |reason| == |assigns| && T().Assigned(q.v) && T().Lev(q.v) <= |T().lim|
      modifies `seen
      ensures Exploring(S(), levels, seen0, seen, added, stack, v0, v) && Grows(old(seen), seen)
      ensures ok ==> q.v < |seen| && (seen[q.v] || T().Lev(q.v) == 0)
      ensures !ok ==> !Redundant(S(), seen0, levels, v0)
      ensures |Unseen(seen)| < old(|Unseen(seen)|) || (stack == stack0 && seen == old(seen))
    {
      hide Explored, Plus, Unseen, Wanted, Redundant, InReason;
      PlusSize(seen0, seen, added0);
      ok, stack, added := true, stack0, added0;
      if !seen[q.v] && level[q.v] > 0 {
        if reason[q.v] != CREF_UNDEF && level[q.v] % 32 in levels {
          PushExplored(S(), seen0, seen, added, stack, v0, v, q);
          PushWanted(S(), levels, seen0, seen, added, stack, v0, v, q);
          seen := seen[q.v := true];
          stack, added := stack + [q], added + [q];
        } else {
          FailWanted(S(), levels, seen0, seen, added, stack, v0, v, q);
          ok := false;
        }
      }
    }

    /** Marks the literals of the reason of v and stacks them; fails on one that cannot be redundant. */
    method Expand(v: nat, levels: set<nat>, stack0: seq<Lit>, added0: seq<Lit>, ghost v0: nat, ghost seen0: seq<bool>)
      returns (ok: bool, stack: seq<Lit>, added: seq<Lit>)
      requires S().Sound() && HasReasonOk(S(), v) && Exploring(S(), levels, seen0, seen, added0, stack0, v0, v)
      modifies `ca, `seen
      ensures S().Sound() && SameStore(old(ca), ca) && Plus(seen0, seen, added)
      ensures ok ==> Exploring(S(), levels, seen0, seen, added, stack, v0, -1)
      ensures !ok ==> !Redundant(S(), seen0, levels, v0)
      ensures ok ==> |Unseen(seen)| < old(|Unseen(seen)|) || (stack == stack0 && seen == old(seen))
    {
      hide State.Sound, State.Structure, State.Meaning, Explored, Plus, SameStore, Trail.Ok, Unseen, Fronted;
      hide MarkedUpTo, Wanted, Redundant, InReason;
      var cr := ExpandFront(v, levels, stack0, added0, v0, seen0);
      SoundFacts(S());
      FrontedLits(S(), v, cr);
      ok, stack, added := ExpandLits(cr, levels, stack0, added0, v0, v, seen0);
      if ok { ExpandedClosed(S(), levels, seen0, seen, added, stack, v0, v, cr); }
    }

    method ExpandLits(cr: nat, levels: set<nat>, stack0: seq<Lit>, added0: seq<Lit>, ghost v0: nat, ghost v: nat,
        ghost seen0: seq<bool>)
      returns (ok: bool, stack: seq<Lit>, added: seq<Lit>)
      requires Exploring(S(), levels, seen0, seen, added0, stack0, v0, v)
      requires cr < |ca| && |ca[cr].lits| >= 2 && |level| == |reason| == |assigns|
      requires forall i :: 1 <= i < |ca[cr].lits| ==>
        && InReason(S(), v, ca[cr].lits[i])
        && T().Assigned(ca[cr].lits[i].v) && T().Lev(ca[cr].lits[i].v) <= |T().lim|
      modifies `seen
      ensures Exploring(S(), levels, seen0, seen, added, stack, v0, v)
      ensures ok ==> MarkedUpTo(T(), seen, ca[cr].lits, |ca[cr].lits|)
      ensures !ok ==> !Redundant(S(), seen0, levels, v0)
      ensures |Unseen(seen)| < old(|Unseen(seen)|) || (stack == stack0 && seen == old(seen))
    {
      hide Exploring, Unseen, MarkedUpTo, Grows, Val, Redundant, InReason;
      var c := ca[cr].lits;
      MarkedStart(T(), seen, c);
      ok, stack, added := true, stack0, added0;
      for i := 1 to |c|
        invariant Exploring(S(), levels, seen0, seen, added, stack, v0, v)
        invariant MarkedUpTo(T(), seen, c, i)
        invariant |Unseen(seen)| < old(|Unseen(seen)|) || (stack == stack0 && seen == old(seen))
      {
        ghost var seen1 := seen;
        ok, stack, added := ExpandLit(c[i], levels, stack, added, v0, v, seen0);
        if !ok { return; }
        MarkedNext(T(), seen1, seen, c, i);
      }
    }

    /**
     * Whether p is implied by marked literals through reasons of admitted levels; if so, the new marks stay as a memo,
     * otherwise they are taken back.
     */
    method LitRedundant(p: Lit, levels: set<nat>) returns (redundant: bool, added: seq<Lit>)
      requires S().Sound() && Explorable(S(), p.v) && |seen| == |assigns|
      modifies `ca, `seen
      ensures S().Sound() && SameStore(old(ca), ca)
      ensures redundant <==> Redundant(old(S()), old(seen), levels, p.v)
      ensures redundant ==> Exploring(S(), levels, old(seen), seen, added, [], p.v, -1)
      ensures !redundant ==> seen == old(seen)
      ensures Memo(old(S()), old(seen), seen, levels)
    {
      hide State.Sound, Explored, Plus, SameStore, Unseen, HasReasonOk, Explorable, Wanted, Redundant, Memo;
      ghost var s0 := S();
      StartExploring(S(), levels, seen, p);
      SameStoreRefl(ca);
      var stack, toclear := [p], [];
      while |stack| > 0
        invariant S().Sound() && SameStore(old(ca), ca) && S() == s0.(ca := ca)
        invariant Exploring(S(), levels, old(seen), seen, toclear, stack, p.v, -1)
        decreases |Unseen(seen)|, |stack|
      {
        var v := stack[|stack| - 1].v;
        PopExplored(S(), seen, toclear, stack, p.v);
        PopWanted(S(), levels, old(seen), toclear, stack, p.v);
        ExplorableReason(S(), v);
        stack := stack[..|stack| - 1];
        ghost var ca1 := ca;
        var ok;
        ok, stack, toclear := Expand(v, levels, stack, toclear, p.v, old(seen));
        SameStoreTrans(old(ca), ca1, ca);
        if !ok {
          RedundantSame(s0, ca, old(seen), levels, p.v);
          ClearMarks(toclear, old(seen));
          MemoNone(s0, seen, levels);
          return false, [];
        }
      }
      assert stack == [];
      MemoFound(s0, ca, levels, old(seen), seen, toclear, p.v);
      return true, toclear;
    }

    method ClearMarks(toclear: seq<Lit>, ghost seen0: seq<bool>)
      requires Plus(seen0, seen, toclear)
      modifies `seen
      ensures seen == seen0
    {
      ghost var seen1 := seen;
      forall q | q in toclear ensures q.v < |seen| {}
      for j := 0 to |toclear|
        invariant |seen| == |seen1|
        invariant forall v: nat :: v < |seen| ==> seen[v] == (if InVars(toclear[..j], v) then false else seen1[v])
      {
        assert toclear[..j+1] == toclear[..j] + [toclear[j]];
        assert toclear[j] in toclear;
        forall v: nat ensures InVars(toclear[..j+1], v) <==> InVars(toclear[..j], v) || v == toclear[j].v {
          InVarsAppend(toclear[..j], toclear[j], v);
        }
        seen := seen[toclear[j].v := false];
      }
      assert toclear[..|toclear|] == toclear;
      Unplus(seen0, seen1, toclear, seen);
    }

    /** The levels of the literals modulo 32: the set of bits of the source's 32-bit mask. */
    function AbstractLevels(out: seq<Lit>): set<nat>
      requires forall i :: 0 <= i < |out| ==> out[i].v < |level|
      reads this
    {
      set i | 0 <= i < |out| :: level[out[i].v] % 32
    }

    method MinimiseLit(i: nat, out: seq<Lit>, kept0: seq<Lit>, levels: set<nat>, toclear0: seq<Lit>)
      returns (kept: seq<Lit>, toclear: seq<Lit>)
      requires S().Sound() && |seen| == |assigns| == |reason| && i < |out| && Proper(out)
      requires Minimising(S(), seen, out, i, kept0) && Listed(seen, toclear0)
      requires T().Assigned(out[i].v) && 0 < T().Lev(out[i].v) <= |T().lim|
      modifies `ca, `seen
      ensures S().Sound() && SameStore(old(ca), ca) && Minimising(S(), seen, out, i + 1, kept) && |seen| == |assigns|
      ensures Listed(seen, toclear) && Memo(old(S()), old(seen), seen, levels)
      ensures kept == kept0 + if Redundant(old(S()), old(seen), levels, out[i].v) then [] else [out[i]]
    {
      hide State.Sound, Minimising, SameStore, Explored, Plus, Proper, Listed, Memo, Redundant, Wanted;
      SameStoreRefl(ca);
      MemoNone(S(), seen, levels);
      if reason[out[i].v] == CREF_UNDEF { NoReason(S(), seen, levels, out[i].v); }
      kept, toclear := kept0, toclear0;
      var redundant := false;
      if reason[out[i].v] != CREF_UNDEF {
        ghost var s0, seen0 := S(), seen;
        var added;
        redundant, added := LitRedundant(out[i], levels);
        MinimisingSame(s0, ca, seen0, out, i, kept0);
        if redundant {
          PlusSize(seen0, seen, added);
          DropLit(S(), levels, seen0, seen, added, out, i, kept0);
          MoreListed(seen0, seen, added, toclear0);
          toclear := toclear + added;
        }
      }
      if !redundant {
        KeepLit(S(), seen, out, i, kept0);
        kept := kept0 + [out[i]];
      }
    }

    /** Removes exactly the redundant literals, in order (minimisation mode 2). */
    method MinimiseDeep(p: Lit, out: seq<Lit>) returns (kept: seq<Lit>, toclear: seq<Lit>)
      requires S().Sound() && Uip(formula, T(), seen, p, out)
      modifies `ca, `seen
      ensures S().Sound() && SameStore(old(ca), ca) && Learnt(formula, T(), p, kept) && |seen| == |assigns|
      ensures Listed(seen, toclear)
      ensures kept == Irredundant(old(S()), old(seen), LevelsOf(T(), out), out)
    {
      hide State.Sound, Minimising, SameStore, Uip, Learnt, Explored, Plus, Explorable, Listed, Memo, Redundant;
      ghost var s0 := S();
      UipFacts(formula, T(), seen, p, out);
      SoundFacts(S());
      StartMinimising(S(), seen, p, out);
      StartListed(formula, T(), seen, p, out);
      SameStoreRefl(ca);
      ghost var seen0 := seen;
      var levels := AbstractLevels(out);
      assert levels == LevelsOf(T(), out);
      MemoNone(s0, seen, levels);
      kept, toclear := [], [Neg(p)] + out;
      for i := 0 to |out|
        invariant S() == s0.(ca := ca) && Memo(s0, seen0, seen, levels)
        invariant kept == Irredundant(s0, seen0, levels, out[..i])
        invariant S().Sound() && SameStore(old(ca), ca) && Minimising(S(), seen, out, i, kept) && |seen| == |assigns|
        invariant Uip(formula, T(), seen0, p, out) && Listed(seen, toclear)
      {
        ghost var ca1, seen1 := ca, seen;
        kept, toclear := MinimiseLit(i, out, kept, levels, toclear);
        SameStoreTrans(old(ca), ca1, ca);
        IrredundantNext(s0, ca1, levels, seen0, seen1, seen, out, i);
      }
      assert out[..|out|] == out;
      Minimised(S(), seen0, seen, p, out, kept);
    }

    /** The number of distinct decision levels among the literals of a clause. */
    function ComputeLbd(c: seq<Lit>): nat
      requires forall i :: 0 <= i < |c| ==> c[i].v < |level|
      reads this
    {
      |set i | 0 <= i < |c| :: level[c[i].v]|
    }

    /** Unflags the variables whose literal is implied to be false by a binary clause with not p. */
    method FlagKept(p: Lit, rest: seq<Lit>) returns (flagged: set<nat>, nb: nat)
      requires S().Sound() && Learnt(formula, T(), p, rest) && p in watchesBin
      ensures Flagging(formula, p, rest, flagged) && flagged <= VarSet(rest) && |flagged| + nb == |rest|
      ensures FlagsExact(rest, flagged, watchesBin[p])
    {
      hide State.Sound, Flagging, BinImplied, Learnt, FlagsExact;
      LearntFacts(formula, T(), p, rest);
      flagged, nb := VarSet(rest), 0;
      VarSetCard(rest);
      FlagAll(formula, p, rest);
      NoneRefuted(rest);
      var wbin := watchesBin[p];
      for k := 0 to |wbin|
        invariant Flagging(formula, p, rest, flagged) && flagged <= VarSet(rest) && |flagged| + nb == |rest|
        invariant FlagsExact(rest, flagged, wbin[..k])
      {
        FlagNext(T(), rest, flagged, wbin[..k], wbin[k]);
        assert wbin[..k + 1] == wbin[..k] + [wbin[k]];
        var imp := wbin[k].blocker;
        BinWatcherImplied(S(), p, wbin[k]);
        if imp.v in flagged && Val(assigns, imp) == True {
          Unflag(formula, T(), p, rest, flagged, imp);
          nb := nb + 1;
          flagged := flagged - {imp.v};
        }
      }
      assert wbin[..|wbin|] == wbin;
    }

    /** Moves the nb unflagged literals behind index 0 to the end, in place, and cuts them off. */
    method PartitionFlagged(learnt: seq<Lit>, flagged: set<nat>, nb: nat) returns (out: seq<Lit>)
      requires |learnt| > 0 && Proper(learnt) && flagged <= VarSet(learnt[1..]) && |flagged| + nb == |learnt| - 1
      ensures |out| > 0 && out[0] == learnt[0] && Proper(out) && |out| == |learnt| - nb
      ensures forall q :: q in out[1..] <==> q in learnt[1..] && q.v in flagged
    {
      out := learnt;
      PartitionStart(learnt, flagged, nb);
      var i, l := 1, |learnt| - 1;
      while i < |out| - nb
        invariant Partitioning(learnt, out, flagged, i, l) && 1 <= i && 0 <= l
        decreases |out| - i + l
      {
        PartitionBound(learnt, out, flagged, nb, i, l);
        if out[i].v !in flagged {
          PartitionSwap(learnt, out, flagged, i, l);
          out := Swap(out, i, l);
          l := l - 1;
        } else {
          i := i + 1;
        }
      }
      PartitionDone(learnt, out, flagged, nb, i, l);
      out := out[..|learnt| - nb];
    }

    /** Minimisation with the binary clauses of p, for short clauses of few levels. */
    method MinimiseBinary(p: Lit, rest: seq<Lit>) returns (rest': seq<Lit>)
      requires S().Sound() && Learnt(formula, T(), p, rest)
      ensures Learnt(formula, T(), p, rest') && BinReduced(T(), watchesBin, p, rest, rest')
    {
      hide State.Sound, Learnt, BinRefuted, Trail.Ok, LbdOf, Proper;
      SoundFacts(S());
      LearntLits(formula, T(), p, rest);
      var learnt := [Neg(p)] + rest;
      LbdIs(learnt);
      if |learnt| > MIN_SIZE_MINIMIZING_CLAUSE || ComputeLbd(learnt) > MIN_LBD_MINIMIZING_CLAUSE { return rest; }
      rest' := RemoveRefuted(p, rest);
    }

    lemma LbdIs(c: seq<Lit>)
      requires forall i :: 0 <= i < |c| ==> c[i].v < |level|
      ensures ComputeLbd(c) == LbdOf(T(), c)
    {
      assert (set i | 0 <= i < |c| :: level[c[i].v]) == LevelSet(T(), c);
    }

    /** Removes the literals that binary watchers of p refute. */
    method RemoveRefuted(p: Lit, rest: seq<Lit>) returns (rest': seq<Lit>)
      requires S().Sound() && Learnt(formula, T(), p, rest)
      requires |rest| + 1 <= MIN_SIZE_MINIMIZING_CLAUSE && LbdOf(T(), [Neg(p)] + rest) <= MIN_LBD_MINIMIZING_CLAUSE
      ensures Learnt(formula, T(), p, rest') && BinReduced(T(), watchesBin, p, rest, rest')
    {
      hide State.Sound, Flagging, Learnt, FlagsExact, BinRefuted, BinReduced, Trail.Ok, LbdOf, Proper, VarSet;
      SoundFacts(S());
      LearntLits(formula, T(), p, rest);
      var learnt := [Neg(p)] + rest;
      assert learnt[1..] == rest;
      assert learnt[0].v == p.v < |assigns|;
      KeysAt(S(), p);
      var flagged, nb := FlagKept(p, rest);
      var out := PartitionFlagged(learnt, flagged, nb);
      rest' := out[1..];
      ProperTail(out);
      BinMinimised(formula, T(), p, rest, flagged, rest');
      FlagsReduced(T(), watchesBin, p, rest, flagged, rest');
    }

    /** Brings a literal of the highest remaining level to index 1 and returns that level. */
    method BacktrackLevel(p: Lit, rest: seq<Lit>) returns (learnt: seq<Lit>, bt: nat)
      requires S().Sound() && Learnt(formula, T(), p, rest) && |trailLim| > 0
      ensures Asserting(formula, T(), learnt, bt) && Arranged(p, rest, learnt)
    {
      hide State.Sound, Learnt, Asserting, Trail.Ok;
      SoundFacts(S());
      learnt := [Neg(p)] + rest;
      LearntLits(formula, T(), p, rest);
      if |learnt| == 1 {
        assert rest == [] && learnt == [Neg(p)];
        AssertingUnit(formula, T(), p);
        return learnt, 0;
      }
      var maxI := 1;
      for i := 2 to |learnt|
        invariant 1 <= maxI < |learnt|
        invariant forall k :: 0 <= k < i - 1 ==> T().Lev(rest[k].v) <= T().Lev(rest[maxI - 1].v)
      {
        if level[learnt[i].v] > level[learnt[maxI].v] { maxI := i; }
      }
      AssertingMany(formula, T(), p, rest, maxI - 1);
      bt := level[learnt[maxI].v];
      SwapSame(learnt, 1, maxI);
      learnt := Swap(learnt, 1, maxI);
    }

    /** Conflict analysis: learns an asserting clause and the level to go back to. */
    method Analyze(confl: int) returns (learnt: seq<Lit>, bt: nat)
      requires S().Sound() && S().Conflict(confl) && |trailLim| > 0
      requires |seen| == |assigns| && AllClear(seen)
      modifies `ca, `seen
      ensures S().Sound() && SameStore(old(ca), ca) && Asserting(formula, T(), learnt, bt)
      ensures |seen| == |assigns| && AllClear(seen) && LearntFrom(old(S()), confl, learnt)
    {
      hide State.Sound, State.Conflict, SameStore, Learnt, Uip, Asserting, Listed, FirstPoint, Irredundant, BinReduced;
      hide Arranged, LearntFrom, LitsOf;
      ghost var s0 := S();
      var p, out := FirstUip(confl);
      ghost var ca1, seen1, out1 := ca, seen, out;
      UipLits(formula, T(), seen, p, out);
      var toclear;
      out, toclear := MinimiseDeep(p, out);
      IrredundantSame(s0, ca1, seen1, LevelsOf(T(), out1), out1);
      SameStoreTrans(old(ca), ca1, ca);
      ghost var kept := out;
      out := MinimiseBinary(p, out);
      learnt, bt := BacktrackLevel(p, out);
      AnalysisDone(s0, confl, p, seen1, out1, kept, out, learnt);
      ClearSeen(toclear);
    }

    method ClearSeen(toclear: seq<Lit>)
      requires Listed(seen, toclear)
      modifies `seen
      ensures |seen| == |old(seen)| && AllClear(seen)
    {
      forall j | 0 <= j < |toclear| ensures toclear[j].v < |seen| { assert toclear[j] in toclear; }
      for j := 0 to |toclear|
        invariant |seen| == |old(seen)|
        invariant forall v: nat :: v < |seen| && seen[v] ==> old(seen)[v] && forall k :: 0 <= k < j ==>
          toclear[k].v != v
      {
        seen := seen[toclear[j].v := false];
      }
    }

    // ---------------------------------------------------------------- backtracking

    method InsertVarOrder(x: nat)
      requires x < |decision|
      modifies `orderHeap
      ensures orderHeap == if decision[x] then old(orderHeap) + {x} else old(orderHeap)
    {
      if x !in orderHeap && decision[x] { orderHeap := orderHeap + {x}; }
    }

    /** Reverts to the state at level l, keeping everything assigned at that level. */
    method CancelUntil(l: nat)
      requires S().Sound() && HeapOk(assigns, decision, orderHeap) && |polarity| == |assigns|
      modifies `assigns, `polarity, `orderHeap, `qhead, `trail, `trailLim
      ensures HeapOk(assigns, decision, orderHeap) && |polarity| == |assigns|
      ensures l >= old(|trailLim|) ==> S() == old(S())
      ensures l < old(|trailLim|) ==>
        && S().Structure() && S().Meaning() && S().Done(qhead) && qhead == |trail|
        && IsCut(old(T()), T(), l)
    {
      hide State.Sound, State.Structure, State.Meaning, State.Done, IsCut, Trail.Ok, HeapOk;
      if |trailLim| > l { Cut(l); }
    }

    method Cut(l: nat)
      requires S().Sound() && HeapOk(assigns, decision, orderHeap) && |polarity| == |assigns| && l < |trailLim|
      modifies `assigns, `polarity, `orderHeap, `qhead, `trail, `trailLim
      ensures HeapOk(assigns, decision, orderHeap) && |polarity| == |assigns|
      ensures S().Structure() && S().Meaning() && S().Done(qhead) && qhead == |trail|
      ensures IsCut(old(T()), T(), l)
    {
      hide State.Sound, State.Structure, State.Meaning, State.Done, IsCut, Trail.Ok, HeapOk;
      SoundFacts(S());
      TrailFacts(T(), l);
      Unassign(l);
      CutStep(old(S()), old(T()).(lits := trail[..trailLim[l]], lim := trailLim[..l], asg := assigns), l);
      Shorten(l);
    }

    method Shorten(l: nat)
      requires l < |trailLim| && trailLim[l] <= |trail|
      modifies `qhead, `trail, `trailLim
      ensures qhead == old(trailLim[l]) && trail == old(trail[..trailLim[l]]) && trailLim == old(trailLim[..l])
    {
      qhead, trail, trailLim := trailLim[l], trail[..trailLim[l]], trailLim[..l];
    }

    method Unassign(l: nat)
      requires T().Ok() && l < |trailLim| && trailLim[l] <= |trail|
      requires HeapOk(assigns, decision, orderHeap) && |polarity| == |assigns|
      modifies `assigns, `polarity, `orderHeap
      ensures HeapOk(assigns, decision, orderHeap) && |polarity| == |assigns|
      ensures IsCut(old(T()), old(T()).(lits := trail[..trailLim[l]], lim := trailLim[..l], asg := assigns), l)
    {
      hide Trail.LevelsOk;
      ghost var t := T();
      OkSizes(t);
      var c := |trail|;
      while c > trailLim[l]
        invariant trailLim[l] <= c <= |trail|
        invariant HeapOk(assigns, decision, orderHeap) && |polarity| == |assigns| == |t.asg|
        invariant forall v: nat :: v < |t.asg| ==>
          assigns[v] == (if t.Assigned(v) && t.Pos(v) < c then t.asg[v] else Undef)
      {
        c := c - 1;
        var x := trail[c].v;
        assert t.lits[c].v == x && t.Pos(x) == c;
        assert forall v: nat :: t.Assigned(v) && t.Pos(v) == c ==> v == x;
        assigns := assigns[x := Undef];
        polarity := polarity[x := trail[c].s];
        InsertVarOrder(x);
      }
    }

    // ---------------------------------------------------------------- clauses

    method AttachClause(cr: nat)
      requires cr < |ca| && |ca[cr].lits| >= 2
      requires forall i :: 0 <= i < 2 ==> Neg(ca[cr].lits[i]) in watches && Neg(ca[cr].lits[i]) in watchesBin
      modifies `watches, `watchesBin
      ensures |ca[cr].lits| == 2 ==> watchesBin == Attached(old(watchesBin), ca[cr].lits, cr) && watches == old(watches)
      ensures |ca[cr].lits| != 2 ==> watches == Attached(old(watches), ca[cr].lits, cr) && watchesBin == old(watchesBin)
    {
      var c := ca[cr].lits;
      var q0, q1 := Neg(c[0]), Neg(c[1]);
      if |c| == 2 {
        watchesBin := watchesBin[q0 := watchesBin[q0] + [Watcher(cr, c[1])]];
        watchesBin := watchesBin[q1 := watchesBin[q1] + [Watcher(cr, c[0])]];
      } else {
        watches := watches[q0 := watches[q0] + [Watcher(cr, c[1])]];
        watches := watches[q1 := watches[q1] + [Watcher(cr, c[0])]];
      }
    }

    /** What holds beside the invariants of the search state, at every step. */
    ghost predicate Tidy()
      reads this
    {
      Neat() && HeapOk(assigns, decision, orderHeap)
    }

    ghost predicate Neat()
      reads this
    {
      && |seen| == |assigns| == |polarity| && AllClear(seen)
      && ListOk(ca, clauses, false) && ListOk(ca, learnts, true)
      && FormulaBelow(formula, |assigns|) && Filled(T())
    }

    /** Keeps a learnt unit as a root fact. */
    method LearnUnit(learnt: seq<Lit>)
      requires S().Structure() && S().Meaning() && S().Done(qhead) && qhead == |trail|
      requires Unit(T(), learnt) && Entails(formula, learnt) && |learnt| == 1 && HeapOk(assigns, decision, orderHeap)
      modifies `assigns, `reason, `level, `trail, `pos
      ensures S().Structure() && S().Meaning() && S().Done(qhead)
      ensures HeapOk(assigns, decision, orderHeap)
      ensures old(T().Sizes()) && T() == old(T()).Enqueue(learnt[0])
    {
      hide State.Structure, State.Meaning, State.Done, Entails, HeapOk;
      StructureFacts(S());
      LearnUnitStep(S(), learnt);
      HeapEnqueue(T(), learnt[0], decision, orderHeap);
      UncheckedEnqueue(learnt[0], CREF_UNDEF);
    }

    /** Allocates and attaches a learnt clause. */
    method StoreLearnt(cl: Clause)
      requires S().Structure() && NewClauseOk(cl, |assigns|)
      modifies `ca, `learnts, `watches, `watchesBin
      ensures old(Neg(cl.lits[0]) in watches && Neg(cl.lits[1]) in watches && Neg(cl.lits[0]) in watchesBin
        && Neg(cl.lits[1]) in watchesBin)
      ensures S() == WithClause(old(S()), cl) && learnts == old(learnts) + [old(|ca|)] && ca == old(ca) + [cl]
    {
      hide State.Structure, Proper, VarsBelow;
      AttachKeys(S(), cl);
      var cr := |ca|;
      ca := ca + [cl];
      learnts := learnts + [cr];
      AttachClause(cr);
    }

    /** Stores a learnt clause and enqueues its first literal. */
    method LearnClause(learnt: seq<Lit>)
      requires S().Structure() && S().Meaning() && S().Done(qhead) && qhead == |trail|
      requires Unit(T(), learnt) && Entails(formula, learnt) && |learnt| >= 2 && HeapOk(assigns, decision, orderHeap)
      requires ListOk(ca, clauses, false) && ListOk(ca, learnts, true)
      modifies `ca, `learnts, `watches, `watchesBin, `assigns, `reason, `level, `trail, `pos
      ensures S().Structure() && S().Meaning() && S().Done(qhead)
      ensures HeapOk(assigns, decision, orderHeap)
      ensures ListOk(ca, clauses, false) && ListOk(ca, learnts, true)
      ensures old(T().Sizes()) && T() == old(T()).Enqueue(learnt[0])
      ensures LearntStored(old(ca), ca, old(learnts), learnts, learnt)
    {
      hide State.Structure, State.Meaning, State.Done, Entails, HeapOk, ListOk, NewClauseOk, Proper;
      StructureFacts(S());
      var activity: real := *;
      var cl := Clause(learnt, true, false, Attributes(activity, ComputeLbd(learnt), |learnt|, true));
      ListsBelow(ca, clauses, false);
      LearnStep(S(), learnt, cl);
      HeapEnqueue(T(), learnt[0], decision, orderHeap);
      ListGrow(ca, cl, clauses, false);
      ListGrow(ca, cl, learnts, true);
      var cr := |ca|;
      StoreLearnt(cl);
      UncheckedEnqueue(learnt[0], cr);
    }

    method Learn(learnt: seq<Lit>)
      requires S().Structure() && S().Meaning() && S().Done(qhead) && qhead == |trail|
      requires Unit(T(), learnt) && Entails(formula, learnt) && Tidy()
      modifies `ca, `learnts, `watches, `watchesBin, `assigns, `reason, `level, `trail, `pos
      ensures S().Structure() && S().Meaning() && S().Done(qhead) && T().Root() <= qhead && Tidy()
      ensures old(T().Sizes()) && T() == old(T()).Enqueue(learnt[0])
      ensures LearntStored(old(ca), ca, old(learnts), learnts, learnt)
    {
      hide State.Structure, State.Meaning, State.Done, Entails, HeapOk, ListOk, Filled;
      RootBound(S());
      StructureFacts(S());
      FilledEnqueue(T(), learnt[0]);
      if |learnt| == 1 {
        LearnUnit(learnt);
      } else {
        LearnClause(learnt);
      }
    }

    // ---------------------------------------------------------------- garbage collection

    /** Collects if the heuristic about wasted space says so. */
    method CheckGarbage()
      requires S().Structure() && S().Meaning() && S().Done(qhead) && ListOk(ca, clauses, false)
      requires ListOk(ca, learnts, true)
      modifies `ca, `watches, `watchesBin, `dirty, `dirtyBin, `reason, `learnts, `clauses
      ensures S().Structure() && S().Meaning() && S().Done(qhead) && ListOk(ca, clauses, false)
      ensures ListOk(ca, learnts, true) && |learnts| == |old(learnts)| && |clauses| == |old(clauses)|
    {
      hide State.Structure, State.Meaning, State.Done, ListOk, T;
      var wasteful: bool := *;
      if wasteful {
        ghost var s, from := GarbageCollect(qhead);
      }
    }

    /** Moves the reachable clauses to a new region. s: the state after lazily deleted watchers are gone. */
    method GarbageCollect(ghost n: nat) returns (ghost s: State, ghost from: seq<Cell>)
      requires S().Structure() && S().Meaning() && S().Done(n) && ListOk(ca, clauses, false)
      requires ListOk(ca, learnts, true)
      modifies `ca, `watches, `watchesBin, `dirty, `dirtyBin, `reason, `learnts, `clauses
      ensures S().Structure() && S().Meaning() && S().Done(n) && ListOk(ca, clauses, false) && ListOk(ca, learnts, true)
      ensures s == old(S()).(ws := s.ws, wb := s.wb, dirty := {}, dirtyBin := {})
      ensures Cleaned(old(ca), old(watches), s.ws, old(dirty)) && Cleaned(old(ca), old(watchesBin), s.wb, old(dirtyBin))
      ensures Copied(old(ca), from, ca) && Collected(s, from, S()) && RefsMoved(from, old(learnts), learnts)
      ensures LiveMoved(old(ca), from)
    {
      hide State.Structure, State.Meaning, State.Done, ListOk, Copied, MapMoved, ReasonsMoved, RefsMoved, Cleaned;
      hide LiveMoved;
      StructurePlain(S());
      var to := new Collector(ca);
      s := RelocAll(to, n);
      from := to.from;
      ListFrom(to, s.clauses, old(learnts));
      ca := to.to;
      CollectedSound(s, from, S(), n);
    }

    lemma ListFrom(to: Collector, cs: seq<nat>, ls: seq<nat>)
      requires to.Valid() && to.ca == ca && ListOk(ca, cs, false) && ListOk(ca, ls, true)
      requires RefsMoved(to.from, cs, clauses) && RefsMoved(to.from, ls, learnts)
      ensures ListOk(to.to, clauses, false) && ListOk(to.to, learnts, true)
    {
      hide ListOk, RefsMoved, Copied;
      MovedListOk(ca, to.from, to.to, cs, clauses, false);
      MovedListOk(ca, to.from, to.to, ls, learnts, true);
    }

    /** Redirects all watchers, then the reasons still in use, then the clause lists. */
    method RelocAll(to: Collector, ghost n: nat) returns (ghost s: State)
      requires S().Structure() && S().Meaning() && S().Done(n) && ListOk(ca, clauses, false)
      requires ListOk(ca, learnts, true)
      requires to.Valid() && to.ca == ca
      modifies to, `watches, `watchesBin, `dirty, `dirtyBin, `reason, `learnts, `clauses
      ensures to.Valid() && dirty == {} && dirtyBin == {}
      ensures s == old(S()).(ws := s.ws, wb := s.wb, dirty := {}, dirtyBin := {}) && s.Structure() && s.Meaning()
      ensures s.Done(n)
      ensures Cleaned(ca, old(watches), s.ws, old(dirty)) && Cleaned(ca, old(watchesBin), s.wb, old(dirtyBin))
      ensures Collected(s, to.from, S().(ca := to.to)) && RefsMoved(to.from, old(learnts), learnts)
      ensures LiveMoved(ca, to.from)
    {
      hide State.Structure, State.Meaning, State.Done, ListOk, Copied, MapMoved, RefsMoved, Cleaned, ReasonsMoved;
      hide LiveMoved;
      CleanAll(n);
      s := S();
      RelocWatches(to, s);
      ghost var f1 := to.from;
      CopiedSize(ca, to);
      AllLiveMoved(s, f1, watches, watchesBin);
      RelocReasons(to, s);
      ghost var f2 := to.from;
      RelocClauses(to);
      KeptTrans(f1, f2, to.from);
      LiveKept(ca, f1, to.from);
      MapKept(f1, to.from, s.ws, watches);
      MapKept(f1, to.from, s.wb, watchesBin);
      ReasonsKept(ca, f2, to.from, T(), s.reason, reason);
    }

    /** Redirects the lists of learnt and of problem clauses. */
    method RelocClauses(to: Collector)
      requires to.Valid() && to.ca == ca && ListOk(ca, clauses, false) && ListOk(ca, learnts, true)
      modifies to, `learnts, `clauses
      ensures to.Valid() && Kept(old(to.from), to.from)
      ensures RefsMoved(to.from, old(learnts), learnts) && RefsMoved(to.from, old(clauses), clauses)
    {
      hide ListOk, Copied, RefsMoved, Kept;
      ghost var f2 := to.from;
      ListsBelow(ca, learnts, true);
      ListsBelow(ca, clauses, false);
      CopiedSize(ca, to);
      learnts := to.RelocRefs(learnts);
      ghost var f3 := to.from;
      CopiedSize(ca, to);
      clauses := to.RelocRefs(clauses);
      KeptTrans(f2, f3, to.from);
      RefsKept(f3, to.from, old(learnts), learnts);
    }

    lemma CopiedSize(store: Store, to: Collector)
      requires to.Valid() && to.ca == store
      ensures |to.from| == |store|
    {}

    method RelocWatches(to: Collector, ghost s: State)
      requires s == S() && s.Structure() && to.Valid() && to.ca == ca
      modifies to, `watches, `watchesBin
      ensures to.Valid() && MapMoved(to.from, s.ws, watches) && MapMoved(to.from, s.wb, watchesBin)
    {
      hide State.Structure, Copied, PartMoved, MapMoved, KeysOk;
      PartStart(to.from, watches);
      PartStart(to.from, watchesBin);
      StructureKeys(s);
      for v := 0 to |assigns|
        invariant to.Valid() && S() == s.(ws := watches, wb := watchesBin)
        invariant PartMoved(to.from, s.ws, watches, 2 * v) && PartMoved(to.from, s.wb, watchesBin, 2 * v)
      {
        RelocLists(to, s, Lit(v, false));
        RelocLists(to, s, Lit(v, true));
      }
      PartDone(to.from, s.ws, watches, |assigns|);
      PartDone(to.from, s.wb, watchesBin, |assigns|);
    }

    /** Redirects both watch lists of p. */
    method RelocLists(to: Collector, ghost s: State, p: Lit)
      requires s.Structure() && to.Valid() && to.ca == s.ca && p.v < |s.t.asg|
      requires PartMoved(to.from, s.ws, watches, ToInt(p)) && PartMoved(to.from, s.wb, watchesBin, ToInt(p))
      modifies to, `watches, `watchesBin
      ensures to.Valid() && PartMoved(to.from, s.ws, watches, ToInt(p) + 1)
      ensures PartMoved(to.from, s.wb, watchesBin, ToInt(p) + 1)
    {
      hide State.Structure, Copied, PartMoved, ListMoved;
      ListsToMove(s, p);
      CopiedSize(s.ca, to);
      PartAt(to.from, s.ws, watches, p);
      PartAt(to.from, s.wb, watchesBin, p);
      ghost var f0 := to.from;
      var ws := to.RelocWatchers(watches[p]);
      ghost var f1 := to.from;
      PartNext(f0, f1, s.ws, watches, p, ws);
      watches := watches[p := ws];
      CopiedSize(s.ca, to);
      PartKept(f0, f1, s.wb, watchesBin, ToInt(p));
      var ws2 := to.RelocWatchers(watchesBin[p]);
      PartNext(f1, to.from, s.wb, watchesBin, p, ws2);
      watchesBin := watchesBin[p := ws2];
      PartKept(f1, to.from, s.ws, watches, ToInt(p) + 1);
    }

    /** The reason of an assigned variable is a locked clause, even if it has been deleted since. */
    lemma ReasonLocked(v: nat)
      requires T().Assigned(v) && v < |reason| && reason[v] != CREF_UNDEF && Holding(ca, reason[v], T().On(v))
      ensures 0 <= reason[v] < |ca| && Locked(reason[v])
    {}

    /** Redirects the reason of every trail variable: each has moved or is locked. */
    method RelocReasons(to: Collector, ghost s: State)
      requires s.Structure() && s.t == T() && s.ca == ca && s.reason == reason
      requires to.Valid() && to.ca == ca
      modifies to, `reason
      ensures to.Valid() && Kept(old(to.from), to.from) && ReasonsMoved(ca, to.from, T(), s.reason, reason)
    {
      hide State.Structure, Copied, ReasonMoved, ReasonsPart, Kept, Trail.LevelsOk, Locked, Holding;
      StructureFacts(s);
      CopiedSize(ca, to);
      ReasonsStart(ca, to.from, T(), reason);
      KeptRefl(to.from);
      for i := 0 to |trail|
        invariant to.Valid() && Kept(old(to.from), to.from) && ReasonsPart(ca, to.from, s.t, s.reason, reason, i)
        invariant T() == s.t
      {
        var v := trail[i].v;
        ghost var f := to.from;
        CopiedSize(ca, to);
        ReasonsAt(ca, f, s.t, s.reason, reason, i);
        var r := reason[v];
        KeptRefl(f);
        ReasonHeld(s, v);
        ReasonUndef(ca, f);
        if r != CREF_UNDEF { ReasonLocked(v); }
        if r != CREF_UNDEF && (to.from[r].Moved? || Locked(r)) {
          r := to.Reloc(r);
          ReasonRelocated(ca, to.from, s.reason[v], r);
        }
        ReasonsNext(ca, f, to.from, s.t, s.reason, reason, i, r);
        KeptTrans(old(to.from), f, to.from);
        reason := reason[v := r];
      }
      ReasonsDone(ca, to.from, s.t, s.reason, reason);
    }

    // ---------------------------------------------------------------- removing clauses

    predicate Implied(cr: nat, i: nat)
      reads this
    {
      && cr < |ca| && i < |ca[cr].lits| && Val(assigns, ca[cr].lits[i]) == True
      && ca[cr].lits[i].v < |reason| && reason[ca[cr].lits[i].v] == cr
    }

    /** Whether the clause is the reason of its first literal (or, if binary, of its second). */
    predicate Locked(cr: nat)
      reads this
    {
      Implied(cr, 0) || (cr < |ca| && |ca[cr].lits| == 2 && Implied(cr, 1))
    }

    lemma Dangling(cr: nat)
      requires S().Structure() && cr < |ca| && |ca[cr].lits| >= 2
      ensures |reason| == |assigns|
      ensures forall v: nat :: T().Assigned(v) ==> (Unlocked(reason, ca[cr].lits, Locked(cr))[v] == cr <==>
        |ca[cr].lits| == 2 && v == ca[cr].lits[1].v && Implied(cr, 1))
    {
      hide State.Structure, Unlocked;
      StructureFacts(S());
      ClauseVars(ca, cr, |assigns|);
      forall v: nat | T().Assigned(v)
        ensures Unlocked(reason, ca[cr].lits, Locked(cr))[v] == cr <==>
          |ca[cr].lits| == 2 && v == ca[cr].lits[1].v && Implied(cr, 1)
      {
        DanglingExact(T(), ca, reason, cr, v);
      }
    }

    /** Marks a clause deleted; its watchers go when their lists are next cleaned. */
    method RemoveClause(cr: nat)
      requires S().Structure() && cr < |ca| && (|trailLim| == 0 || !Locked(cr))
      modifies `ca, `dirty, `dirtyBin, `reason
      ensures S().Structure() && ca == old(ca)[cr := old(ca)[cr].(deleted := true)]
      ensures forall n: nat :: old(S().Done(n)) ==> S().Done(n)
      ensures reason == Unlocked(old(reason), ca[cr].lits, old(Locked(cr)))
      ensures forall v: nat :: T().Assigned(v) && v < |reason| ==>
        (reason[v] == cr <==> |ca[cr].lits| == 2 && v == ca[cr].lits[1].v && old(Implied(cr, 1)))
    {
      hide State.Structure, State.Done;
      StructureFacts(S());
      ClauseVars(ca, cr, |assigns|);
      Dangling(cr);
      var locked := Locked(cr);
      RemoveStep(S(), cr, ca[cr].lits[0].v, locked);
      var c := ca[cr].lits;
      if |c| == 2 {
        dirtyBin := dirtyBin + {Neg(c[0]), Neg(c[1])};
      } else {
        dirty := dirty + {Neg(c[0]), Neg(c[1])};
      }
      if locked { reason := reason[c[0].v := CREF_UNDEF]; }
      ca := ca[cr := ca[cr].(deleted := true)];
    }

    /** The learnt clauses chosen by `drop`, other than binary and locked ones. */
    ghost function Droppable(drop: nat -> bool): set<nat>
      reads this
    {
      set i | 0 <= i < |learnts| && drop(learnts[i]) && LongUnlocked(learnts[i]) :: learnts[i]
    }

    predicate LongUnlocked(cr: nat)
      reads this
    {
      cr < |ca| && |ca[cr].lits| > 2 && !Locked(cr)
    }

    /** Removes the learnt clauses chosen by `drop`, other than binary and locked ones; the rest stay in order. */
    method DropLearnts(drop: nat -> bool)
      requires S().Structure() && S().Meaning() && S().Done(qhead) && ListOk(ca, clauses, false)
      requires ListOk(ca, learnts, true)
      modifies `ca, `dirty, `dirtyBin, `reason, `learnts
      ensures S().Structure() && S().Meaning() && S().Done(qhead) && ListOk(ca, clauses, false)
      ensures ListOk(ca, learnts, true)
      ensures learnts == Without(old(learnts), old(Droppable(drop))) && reason == old(reason)
    {
      hide State.Structure, State.Meaning, State.Done, ListOk, S, T, LongUnlocked;
      ghost var gone := Droppable(drop);
      var ls, kept := learnts, [];
      assert [] + ls[0..] == ls;
      for i := 0 to |ls|
        invariant S().Structure() && S().Meaning() && S().Done(qhead) && ListOk(ca, clauses, false)
        invariant ListOk(ca, kept + ls[i..], true)
        invariant kept == Without(ls[..i], gone) && reason == old(reason)
        invariant forall cr: nat :: LongUnlocked(cr) == old(LongUnlocked(cr))
      {
        ListAt(ca, kept, ls[i..], true);
        Shift(kept, ls, i);
        WithoutNext(ls, i, gone);
        if drop(ls[i]) && LongUnlocked(ls[i]) {
          DropUnlocked(kept, ls[i], ls[i+1..]);
        } else {
          kept := kept + [ls[i]];
        }
      }
      assert kept + ls[|ls|..] == kept && ls[..|ls|] == ls;
      learnts := kept;
    }

    method DropUnlocked(ghost kept: seq<nat>, cr: nat, ghost rest: seq<nat>)
      requires S().Structure() && S().Meaning() && S().Done(qhead) && ListOk(ca, clauses, false)
      requires ListOk(ca, kept + [cr] + rest, true) && cr < |ca| && ca[cr].learnt && LongUnlocked(cr)
      modifies `ca, `dirty, `dirtyBin, `reason
      ensures S().Structure() && S().Meaning() && S().Done(qhead) && ListOk(ca, clauses, false)
      ensures ListOk(ca, kept + rest, true) && reason == old(reason)
      ensures forall r: nat :: LongUnlocked(r) == old(LongUnlocked(r))
    {
      hide State.Structure, State.Meaning, State.Done, ListOk, S, T;
      DropLearnt(kept, cr, rest);
    }

    /** Drops learnt clauses (the source sorts them and drops about half), then perhaps collects. */
    method ReduceDb(drop: nat -> bool)
      requires S().Structure() && S().Meaning() && S().Done(qhead) && ListOk(ca, clauses, false)
      requires ListOk(ca, learnts, true)
      modifies `ca, `watches, `watchesBin, `dirty, `dirtyBin, `reason, `learnts, `clauses
      ensures S().Structure() && S().Meaning() && S().Done(qhead) && ListOk(ca, clauses, false)
      ensures ListOk(ca, learnts, true) && |learnts| == |Without(old(learnts), old(Droppable(drop)))|
    {
      hide State.Structure, State.Meaning, State.Done, ListOk, S, T, Droppable, Without;
      DropLearnts(drop);
      CheckGarbage();
    }

    method DropLearnt(ghost kept: seq<nat>, cr: nat, ghost rest: seq<nat>)
      requires S().Structure() && S().Meaning() && S().Done(qhead) && ListOk(ca, clauses, false)
      requires ListOk(ca, kept + [cr] + rest, true) && cr < |ca| && ca[cr].learnt && (|trailLim| == 0 || !Locked(cr))
      modifies `ca, `dirty, `dirtyBin, `reason
      ensures S().Structure() && S().Meaning() && S().Done(qhead) && ListOk(ca, clauses, false)
      ensures ListOk(ca, kept + rest, true) && ca == old(ca)[cr := old(ca)[cr].(deleted := true)]
      ensures !old(Locked(cr)) ==> reason == old(reason)
    {
      hide State.Structure, State.Done, ListOk, StoreEntailed, RootEntailed, DbImplies, Locked;
      ListDelete(ca, kept, cr, rest, true);
      ListOther(ca, cr, clauses, false);
      RemoveMeaning(formula, ca, cr, clauses, T());
      RemoveClause(cr);
    }

    predicate Satisfied(cr: nat)
      reads this
    {
      SatisfiedAt(ca, assigns, cr)
    }

    lemma SatisfiedLit(cr: nat)
      requires Satisfied(cr)
      ensures cr < |ca| && exists q :: q in ca[cr].lits && T().Value(q) == True
    {
      var i :| 0 <= i < |ca[cr].lits| && Val(assigns, ca[cr].lits[i]) == True;
      assert ca[cr].lits[i] in ca[cr].lits;
    }

    /** Removes the learnt clauses that the root facts satisfy. */
    method RemoveSatisfiedLearnts()
      requires S().Structure() && S().Meaning() && S().Done(qhead) && ListOk(ca, clauses, false)
      requires ListOk(ca, learnts, true)
      requires |trailLim| == 0
      modifies `ca, `dirty, `dirtyBin, `reason, `learnts
      ensures learnts == Unsatisfied(old(ca), assigns, old(learnts)) && SameLits(old(ca), ca)
      ensures S().Structure() && S().Meaning() && S().Done(qhead) && ListOk(ca, clauses, false)
      ensures ListOk(ca, learnts, true)
    {
      hide State.Structure, State.Meaning, State.Done, ListOk, SatisfiedAt, SameLits, Unsatisfied, S, T;
      var ls, kept := learnts, [];
      assert [] + ls[0..] == ls;
      UnsatisfiedNone(ca, assigns, ls);
      for i := 0 to |ls|
        invariant S().Structure() && S().Meaning() && S().Done(qhead) && ListOk(ca, clauses, false)
        invariant ListOk(ca, kept + ls[i..], true)
        invariant kept == Unsatisfied(old(ca), assigns, ls[..i]) && SameLits(old(ca), ca)
      {
        ListAt(ca, kept, ls[i..], true);
        Shift(kept, ls, i);
        UnsatisfiedNext(old(ca), ca, assigns, ls, i);
        if Satisfied(ls[i]) {
          SameMarked(old(ca), ca, ls[i]);
          DropLearnt(kept, ls[i], ls[i+1..]);
        } else {
          kept := kept + [ls[i]];
        }
      }
      assert kept + ls[|ls|..] == kept && ls[..|ls|] == ls;
      learnts := kept;
    }

    /** Removes the problem clauses that the root facts satisfy; the root facts take over what they said. */
    method RemoveSatisfiedClauses()
      requires S().Structure() && S().Meaning() && S().Done(qhead) && ListOk(ca, clauses, false)
      requires ListOk(ca, learnts, true)
      requires |trailLim| == 0
      modifies `ca, `dirty, `dirtyBin, `reason, `clauses
      ensures clauses == Unsatisfied(old(ca), assigns, old(clauses)) && SameLits(old(ca), ca)
      ensures S().Structure() && S().Meaning() && S().Done(qhead) && ListOk(ca, clauses, false)
      ensures ListOk(ca, learnts, true)
    {
      hide State.Structure, State.Meaning, State.Done, ListOk, SatisfiedAt, SameLits, Unsatisfied, S, T;
      var cs, kept := clauses, [];
      UnsatisfiedNone(ca, assigns, cs);
      for i := 0 to |cs|
        invariant clauses == kept + cs[i..]
        invariant S().Structure() && S().Meaning() && S().Done(qhead) && ListOk(ca, learnts, true)
        invariant ListOk(ca, clauses, false)
        invariant kept == Unsatisfied(old(ca), assigns, cs[..i]) && SameLits(old(ca), ca)
      {
        ListAt(ca, kept, cs[i..], false);
        Shift(kept, cs, i);
        UnsatisfiedNext(old(ca), ca, assigns, cs, i);
        if Satisfied(cs[i]) {
          SameMarked(old(ca), ca, cs[i]);
          DropClause(kept, cs[i], cs[i+1..]);
        } else {
          kept := kept + [cs[i]];
        }
      }
      assert kept + cs[|cs|..] == kept && cs[..|cs|] == cs;
    }

    method DropClause(kept: seq<nat>, cr: nat, rest: seq<nat>)
      requires S().Structure() && S().Meaning() && S().Done(qhead) && ListOk(ca, learnts, true)
      requires clauses == kept + [cr] + rest && ListOk(ca, clauses, false) && cr < |ca| && !ca[cr].learnt
      requires |trailLim| == 0 && Satisfied(cr)
      modifies `ca, `dirty, `dirtyBin, `reason, `clauses
      ensures S().Structure() && S().Meaning() && S().Done(qhead) && ListOk(ca, learnts, true)
      ensures clauses == kept + rest && ListOk(ca, clauses, false) && ca == old(ca)[cr := old(ca)[cr].(deleted := true)]
    {
      hide State.Structure, State.Done, ListOk, StoreEntailed, RootEntailed, DbImplies;
      StructureFacts(S());
      SatisfiedLit(cr);
      ListDelete(ca, kept, cr, rest, false);
      ListOther(ca, cr, learnts, true);
      DropSatisfied(formula, ca, kept, cr, rest, T());
      RemoveMeaning(formula, ca, cr, kept + rest, T());
      RemoveClause(cr);
      ListFree(S(), kept + rest);
      clauses := kept + rest;
    }

    // ---------------------------------------------------------------- search

    /** The state in which propagation may start: all invariants, everything below the queue head propagated. */
    ghost predicate Ready()
      reads this
    {
      S().Structure() && S().Meaning() && S().Done(qhead) && T().Root() <= qhead && Tidy()
    }

    /** The state after propagation without conflict. */
    ghost predicate Settled()
      reads this
    {
      Ready() && qhead == |trail|
    }

    /** Propagation inside the search. */
    method PropagateReady() returns (confl: int)
      requires Ready()
      modifies `ca, `watches, `watchesBin, `dirty, `dirtyBin, `assigns, `reason, `level, `trail, `pos, `qhead
      ensures confl == CREF_UNDEF ==> Settled()
      ensures confl != CREF_UNDEF ==> S().Sound() && S().Conflict(confl) && Tidy()
      ensures |assigns| == old(|assigns|) && Extends(old(T()), T())
    {
      hide State.Structure, State.Meaning, State.Done, State.Conflict, HeapOk, ListOk, SameStore, Extends, Filled;
      ghost var t, ca0 := T(), ca;
      confl := Propagate();
      ExtendsLen(t, T());
      FilledExtends(t, T());
      HeapExtends(t, T(), decision, orderHeap);
      SameStoreLists(ca0, ca, clauses, false);
      SameStoreLists(ca0, ca, learnts, true);
      RootBound(S());
    }

    /** A conflict below the root: learn, go back, and enqueue the asserted literal. */
    method HandleConflict(confl: int) returns (ghost learnt: seq<Lit>, ghost bt: nat)
      requires S().Sound() && S().Conflict(confl) && Tidy() && |trailLim| > 0
      modifies this
      ensures Ready() && decision == old(decision) && formula == old(formula) && ok == old(ok)
      ensures |assigns| == old(|assigns|) && old(Progress()) < Progress()
      ensures conflicts == old(conflicts) && lbdSize <= old(lbdSize) + 1
      ensures LearntFrom(old(S()), confl, learnt) && Asserting(formula, old(T()), learnt, bt)
      ensures LearntAdded(old(ca), ca, old(learnts), learnts, learnt)
      ensures CutTo(old(T()), T(), bt, learnt[0])
    {
      hide State.Sound, State.Structure, State.Meaning, State.Done, State.Conflict, HeapOk, ListOk, AllClear;
      hide FormulaBelow, Filled, Rank, S, T, LearntFrom, Asserting, LearntAdded, CutTo;
      BlockRestart();
      lbdSize := if lbdSize < SIZE_LBD_QUEUE then lbdSize + 1 else lbdSize;
      learnt, bt := LearnFrom(confl);
      AssertingSize(formula, old(T()), learnt, bt);
    }

    method LearnFrom(confl: int) returns (ghost learnt: seq<Lit>, ghost bt: nat)
      requires S().Sound() && S().Conflict(confl) && Tidy() && |trailLim| > 0
      modifies `ca, `seen, `assigns, `polarity, `orderHeap, `qhead, `trail, `trailLim, `learnts, `watches, `watchesBin,
        `reason, `level, `pos
      ensures Ready() && |assigns| == old(|assigns|) && old(Progress()) < Progress()
      ensures LearntFrom(old(S()), confl, learnt) && Asserting(formula, old(T()), learnt, bt)
      ensures LearntAdded(old(ca), ca, old(learnts), learnts, learnt)
      ensures CutTo(old(T()), T(), bt, learnt[0])
    {
      hide State.Sound, State.Structure, State.Meaning, State.Done, State.Conflict, HeapOk, ListOk, AllClear;
      hide FormulaBelow, Unit, Entails, S, T, Filled, Rank, LearntStored, BackTo, SameStore, LearntFrom, LearntAdded;
      hide Asserting, CutTo;
      ghost var t, ca0 := T(), ca;
      TrailSize();
      var clause;
      clause, bt := Backjump(confl);
      learnt := clause;
      AssertingSize(formula, t, learnt, bt);
      ghost var t1, ca1, ls := T(), ca, learnts;
      Learn(clause);
      LearntKept(ca0, ca1, ca, ls, learnts, learnt);
      LearnProgress(t, t1, bt, learnt);
      LearntCut(t, t1, learnt, bt);
    }

    lemma TrailSize()
      ensures |T().asg| == |assigns|
    {}

    /** On a long trail the window of block distances may be emptied, once it is full. */
    method BlockRestart()
      modifies `lbdSize
      ensures lbdSize == old(lbdSize) || (old(lbdSize) == SIZE_LBD_QUEUE && lbdSize == 0)
    {
      var longTrail: bool := *;
      if longTrail && lbdSize == SIZE_LBD_QUEUE { lbdSize := 0; }
    }

    /** The trail as a number that every round raises. */
    ghost function Progress(): nat
      reads `trail, `trailLim, `assigns, `level, `pos
    {
      Rank(T(), |assigns|)
    }

    lemma LearnProgress(t: Trail, t1: Trail, bt: nat, learnt: seq<Lit>)
      requires BackTo(t, t1, learnt, bt) && T() == t1.Enqueue(learnt[0])
      ensures Rank(t, |t.asg|) < Progress() && |t.asg| == |assigns|
    {
      hide Filled, Rank;
      BackToRank(t, t1, learnt, bt);
    }

    /** Analyses the conflict and goes back to the level where the learnt clause is unit. */
    method Backjump(confl: int) returns (learnt: seq<Lit>, ghost bt: nat)
      requires S().Sound() && S().Conflict(confl) && Tidy() && |trailLim| > 0
      modifies `ca, `seen, `assigns, `polarity, `orderHeap, `qhead, `trail, `trailLim
      ensures S().Structure() && S().Meaning() && S().Done(qhead) && qhead == |trail| && Tidy()
      ensures Unit(T(), learnt) && Entails(formula, learnt) && |assigns| == old(|assigns|)
      ensures BackTo(old(T()), T(), learnt, bt) && Asserting(formula, old(T()), learnt, bt)
      ensures LearntFrom(old(S()), confl, learnt) && SameStore(old(ca), ca)
    {
      hide State.Sound, State.Structure, State.Meaning, State.Done, State.Conflict, HeapOk, ListOk, AllClear;
      hide FormulaBelow, SameStore, Asserting, IsCut, Unit, Entails, Filled, LearntFrom, S, T, Tidy;
      var level;
      learnt, level := AnalyzeTidy(confl);
      bt := level;
      JumpBack(learnt, level);
    }

    method AnalyzeTidy(confl: int) returns (learnt: seq<Lit>, bt: nat)
      requires S().Sound() && S().Conflict(confl) && Tidy() && |trailLim| > 0
      modifies `ca, `seen
      ensures S().Sound() && Tidy() && T() == old(T()) && Asserting(formula, T(), learnt, bt)
      ensures LearntFrom(old(S()), confl, learnt) && SameStore(old(ca), ca)
    {
      hide State.Sound, State.Conflict, HeapOk, ListOk, AllClear, FormulaBelow, SameStore, Asserting, Filled;
      hide LearntFrom;
      ghost var ca0 := ca;
      learnt, bt := Analyze(confl);
      SameStoreLists(ca0, ca, clauses, false);
      SameStoreLists(ca0, ca, learnts, true);
    }

    method JumpBack(learnt: seq<Lit>, bt: nat)
      requires S().Sound() && Tidy() && Asserting(formula, T(), learnt, bt)
      modifies `assigns, `polarity, `orderHeap, `qhead, `trail, `trailLim
      ensures S().Structure() && S().Meaning() && S().Done(qhead) && qhead == |trail| && Tidy()
      ensures Unit(T(), learnt) && Entails(formula, learnt) && |assigns| == old(|assigns|)
      ensures BackTo(old(T()), T(), learnt, bt)
    {
      hide State.Sound, State.Structure, State.Meaning, State.Done, State.Conflict, HeapOk, ListOk, AllClear;
      hide FormulaBelow, Asserting, IsCut, Unit, Entails, Filled;
      ghost var t := T();
      AssertingLevel(formula, t, learnt, bt);
      SoundFacts(S());
      CancelUntil(bt);
      CutBounds(t, T(), bt);
      FilledCut(t, T(), bt);
      AssertingUnitAfterCut(formula, t, T(), learnt, bt);
      StructureFacts(S());
    }

    /** Simplifies the clause database at the root. Returns false if the clauses turn out unsatisfiable. */
    method Simplify(removeNow: bool, removeProblem: bool) returns (r: bool)
      requires |trailLim| == 0 && Ready() && ok
      modifies `ok, `ca, `watches, `watchesBin, `dirty, `dirtyBin, `assigns, `reason, `level, `trail, `pos, `qhead,
        `learnts, `clauses, `orderHeap
      ensures r == ok && |assigns| == old(|assigns|) && Extends(old(T()), T())
      ensures if ok then Settled() else S().Structure() && Tidy() && Unsat(formula)
    {
      hide State.Sound, State.Structure, State.Meaning, State.Done, State.Conflict, HeapOk, ListOk, Unsat;
      hide AllClear, FormulaBelow, Filled, Extends, S, T;
      var confl := PropagateReady();
      if confl != CREF_UNDEF {
        RootUnsat(confl);
        ok := false;
        return false;
      }
      if removeNow { RemoveSatisfied(removeProblem); }
      return true;
    }

    method RemoveSatisfied(removeProblem: bool)
      requires |trailLim| == 0 && Settled()
      modifies `ca, `watches, `watchesBin, `dirty, `dirtyBin, `reason, `learnts, `clauses, `orderHeap
      ensures Settled() && |learnts| == |Unsatisfied(old(ca), assigns, old(learnts))|
      ensures removeProblem ==> |clauses| == |Unsatisfied(old(ca), assigns, old(clauses))|
      ensures forall v: nat :: v in orderHeap <==> v < |assigns| && decision[v] && assigns[v] == Undef
    {
      hide State.Structure, State.Meaning, State.Done, HeapOk, ListOk, AllClear, FormulaBelow, S, T, Unsatisfied;
      HeapSize(assigns, decision, orderHeap);
      ShrinkStore(removeProblem);
      RebuildOrderHeap();
    }

    /** Removes satisfied clauses, then perhaps collects. */
    method ShrinkStore(removeProblem: bool)
      requires S().Structure() && S().Meaning() && S().Done(qhead) && ListOk(ca, clauses, false)
      requires ListOk(ca, learnts, true)
      requires |trailLim| == 0
      modifies `ca, `watches, `watchesBin, `dirty, `dirtyBin, `reason, `learnts, `clauses
      ensures S().Structure() && S().Meaning() && S().Done(qhead) && ListOk(ca, clauses, false)
      ensures ListOk(ca, learnts, true) && |learnts| == |Unsatisfied(old(ca), assigns, old(learnts))|
      ensures removeProblem ==> |clauses| == |Unsatisfied(old(ca), assigns, old(clauses))|
    {
      hide State.Structure, State.Meaning, State.Done, ListOk, SameLits, Unsatisfied, S, T;
      RemoveSatisfiedLearnts();
      UnsatisfiedSame(old(ca), ca, assigns, clauses);
      if removeProblem { RemoveSatisfiedClauses(); }
      CheckGarbage();
    }

    method RebuildOrderHeap()
      requires |decision| == |assigns|
      modifies `orderHeap
      ensures HeapOk(assigns, decision, orderHeap)
      ensures forall v: nat :: v in orderHeap <==> v < |assigns| && decision[v] && assigns[v] == Undef
    {
      orderHeap := {};
      for v := 0 to |assigns|
        invariant forall u: nat :: u in orderHeap <==> u < v && decision[u] && assigns[u] == Undef
      {
        if decision[v] && assigns[v] == Undef { orderHeap := orderHeap + {v}; }
      }
    }

    /**
     * Perhaps a random variable of the heap, which stays there; otherwise takes variables off until one is free to be
     * decided. None when the heap runs out.
     */
    method PickBranchLit() returns (next: Option<Lit>)
      requires HeapOk(assigns, decision, orderHeap) && |polarity| == |assigns|
      modifies `orderHeap
      ensures next == None ==> HeapOk(assigns, decision, orderHeap)
      ensures next == None ==> forall v: nat :: v < |assigns| && decision[v] ==> assigns[v] != Undef
      ensures next.Some? ==> next.value.v < |assigns| && assigns[next.value.v] == Undef
      ensures next.Some? ==> HeapOk(assigns, decision, orderHeap + {next.value.v})
    {
      var random: bool, sign: Option<bool> := *, *;
      if random && orderHeap != {} {
        var v :| v in orderHeap;
        if assigns[v] == Undef && decision[v] {
          assert orderHeap + {v} == orderHeap;
          return Some(Lit(v, if sign.Some? then sign.value else polarity[v]));
        }
      }
      while orderHeap != {}
        invariant HeapOk(assigns, decision, orderHeap)
        decreases orderHeap
      {
        var v :| v in orderHeap;
        orderHeap := orderHeap - {v};
        if assigns[v] == Undef && decision[v] { return Some(Lit(v, if sign.Some? then sign.value else polarity[v])); }
      }
      return None;
    }

    /** Opens a decision level with p. */
    method Decide(p: Lit)
      requires S().Structure() && S().Meaning() && S().Done(qhead) && qhead == |trail| && Neat()
      requires p.v < |assigns| && assigns[p.v] == Undef && HeapOk(assigns, decision, orderHeap + {p.v})
      modifies `assigns, `reason, `level, `trail, `pos, `trailLim
      ensures Ready() && |assigns| == old(|assigns|) && old(Progress()) < Progress()
      ensures trail == old(trail) + [p] && trailLim == old(trailLim) + [old(|trail|)]
    {
      hide State.Structure, State.Meaning, State.Done, ListOk, Filled, Rank;
      DecideStep(S(), p);
      StructureFacts(S());
      FilledLevel(T(), p);
      RankDecide(T(), p, |assigns|);
      HeapDecide(T(), p, decision, orderHeap);
      trailLim := trailLim + [|trail|];
      UncheckedEnqueue(p, CREF_UNDEF);
    }

    /**
     * One round of the search: propagate, then learn, or simplify and decide. It restarts only with a full window of
     * block distances; otherwise it makes progress, or ends the search.
     */
    method SearchStep(restart: bool, simplifyNow: bool, reduce: Option<nat -> bool>)
      returns (status: LBool, again: bool)
      requires Ready() && ok
      modifies this
      ensures decision == old(decision) && formula == old(formula) && |assigns| == old(|assigns|)
      ensures again ==> Ready() && ok && status == Undef && old(Progress()) < Progress()
      ensures !again ==> match status
        case True => Settled() && ok && forall v: nat :: v < |assigns| && decision[v] ==> assigns[v] != Undef
        case False => |trailLim| == 0 && S().Structure() && Tidy() && Unsat(formula)
        case Undef => Settled() && ok && |trailLim| == 0 && restart && old(lbdSize) == SIZE_LBD_QUEUE && lbdSize == 0
      ensures old(conflicts) <= conflicts <= old(conflicts) + 1
      ensures lbdSize as int - old(lbdSize) <= conflicts - old(conflicts)
    {
      hide State.Structure, State.Meaning, State.Done, State.Conflict, HeapOk, ListOk, State.Sound, Unsat;
      hide AllClear, FormulaBelow, Filled, Extends, Rank, S, T, Tidy;
      ghost var t := T();
      var confl := PropagateReady();
      ExtendsProgress(t);
      if confl != CREF_UNDEF {
        status, again := AfterConflict(confl);
      } else if restart && lbdSize == SIZE_LBD_QUEUE {
        Restart();
        return Undef, false;
      } else {
        status, again := SimplifyAndDecide(simplifyNow, reduce);
      }
    }

    /** Without a level to go back to, the clauses have no model; otherwise a clause is learnt. */
    method AfterConflict(confl: int) returns (status: LBool, again: bool)
      requires S().Sound() && S().Conflict(confl) && Tidy() && ok
      modifies this
      ensures decision == old(decision) && formula == old(formula) && |assigns| == old(|assigns|)
      ensures if again then Ready() && ok && status == Undef && old(Progress()) < Progress()
        else status == False && |trailLim| == 0 && S().Structure() && Tidy() && Unsat(formula)
      ensures conflicts == old(conflicts) + 1 && lbdSize <= old(lbdSize) + 1
    {
      hide State.Structure, State.Meaning, State.Done, State.Conflict, HeapOk, ListOk, State.Sound, Unsat;
      hide AllClear, FormulaBelow, Filled, Rank, S, T;
      conflicts := conflicts + 1;
      if |trailLim| == 0 {
        RootUnsat(confl);
        return False, false;
      }
      ghost var learnt, bt := HandleConflict(confl);
      return Undef, true;
    }

    method SimplifyAndDecide(simplifyNow: bool, reduce: Option<nat -> bool>) returns (status: LBool, again: bool)
      requires Settled() && ok
      modifies this
      ensures decision == old(decision) && formula == old(formula) && |assigns| == old(|assigns|)
      ensures again ==> Ready() && ok && status == Undef && old(Progress()) < Progress()
      ensures !again ==> match status
        case True => Settled() && ok && forall v: nat :: v < |assigns| && decision[v] ==> assigns[v] != Undef
        case False => |trailLim| == 0 && S().Structure() && Tidy() && Unsat(formula)
        case Undef => false
      ensures conflicts == old(conflicts) && lbdSize == old(lbdSize)
    {
      hide State.Structure, State.Meaning, State.Done, State.Conflict, HeapOk, ListOk, State.Sound, Unsat;
      hide AllClear, FormulaBelow, Filled, Extends, Rank, S, T;
      if |trailLim| == 0 {
        ghost var t := T();
        var fine := Simplify(simplifyNow, simplifyNow);
        if !fine { return False, false; }
        ExtendsProgress(t);
      }
      status, again := ReduceAndDecide(reduce);
    }

    lemma ExtendsProgress(t: Trail)
      requires Extends(t, T())
      ensures Rank(t, |t.asg|) <= Progress() && |t.asg| == |assigns|
    {
      hide Rank;
      RankExtends(t, T(), |t.asg|);
    }

    /** Back to the root with an empty window. */
    method Restart()
      requires Settled()
      modifies `lbdSize, `assigns, `polarity, `orderHeap, `qhead, `trail, `trailLim
      ensures Settled() && |trailLim| == 0 && |assigns| == old(|assigns|) && lbdSize == 0
    {
      hide State.Structure, State.Meaning, State.Done, HeapOk, ListOk, IsCut;
      lbdSize := 0;
      DoneRoot(S());
      StructureFacts(S());
      ghost var t := T();
      CancelUntil(0);
      if |t.lim| > 0 { CutBounds(t, T(), 0); CutNone(t, T()); }
    }

    method ReduceAndDecide(reduce: Option<nat -> bool>) returns (status: LBool, again: bool)
      requires Settled() && ok
      modifies this
      ensures decision == old(decision) && formula == old(formula) && |assigns| == old(|assigns|)
      ensures conflicts == old(conflicts) && lbdSize == old(lbdSize)
      ensures again ==> Ready() && ok && status == Undef && old(Progress()) < Progress()
      ensures !again ==> status == True && Settled() && ok && forall v: nat :: v < |assigns| && decision[v] ==>
        assigns[v] != Undef
    {
      hide State.Structure, State.Meaning, State.Done, HeapOk, ListOk, AllClear, FormulaBelow, Filled, Rank, S, T;
      hide Droppable, Without;
      if reduce.Some? { ReduceDb(reduce.value); }
      var next := PickBranchLit();
      if next == None { return True, false; }
      Decide(next.value);
      return Undef, true;
    }

    /** The search loop, up to its next restart; it ends because every round raises `Progress`. */
    method Search() returns (status: LBool)
      requires Ready() && ok
      modifies this
      ensures decision == old(decision) && formula == old(formula) && |assigns| == old(|assigns|)
      ensures match status
        case True => Settled() && ok && forall v: nat :: v < |assigns| && decision[v] ==> assigns[v] != Undef
        case False => |trailLim| == 0 && S().Structure() && Tidy() && Unsat(formula)
        case Undef => Settled() && ok && |trailLim| == 0 && lbdSize == 0
      ensures old(conflicts) <= conflicts
      ensures status == Undef ==> old(conflicts) + SIZE_LBD_QUEUE <= conflicts + old(lbdSize)
    {
      hide State.Structure, State.Meaning, State.Done, HeapOk, ListOk, AllClear, FormulaBelow, Filled, Unsat, S, T;
      hide Rank, Bound;
      while true
        invariant Ready() && ok
        invariant decision == old(decision) && formula == old(formula) && |assigns| == old(|assigns|)
        invariant old(conflicts) <= conflicts && lbdSize as int - old(lbdSize) <= conflicts - old(conflicts)
        decreases Bound(|assigns|) - Progress()
      {
        var restart: bool, simplifyNow: bool, reduceNow: bool := *, *, *;
        var drop: nat -> bool := *;
        ProgressBelow();
        var again;
        status, again := SearchStep(restart, simplifyNow, if reduceNow then Some(drop) else None);
        if !again { return; }
        ProgressBelow();
      }
    }

    lemma ProgressBelow()
      ensures Progress() < Bound(|assigns|)
    {
      RankBelow(T(), |assigns|);
    }

    // ---------------------------------------------------------------- the solver between calls

    /** The invariant between public calls: at the root, and either ready to propagate or known to be unsatisfiable. */
    ghost predicate Valid()
      reads this
    {
      AtRoot() && Tidy()
    }

    ghost predicate AtRoot()
      reads `trail, `trailLim, `assigns, `level, `pos, `ok
      reads `ca, `clauses, `watches, `watchesBin, `dirty, `dirtyBin, `reason, `qhead, `formula
    {
      && |trailLim| == 0 && S().Structure()
      && if ok then S().Meaning() && S().Done(qhead) && T().Root() <= qhead else Unsat(formula)
    }

    constructor ()
      ensures Valid() && ok && formula == [] && |assigns| == 0 && decision == [] && conflicts == 0
    {
      conflicts, lbdSize := 0, 0;
      ok, ca, clauses, learnts := true, [], [], [];
      watches, watchesBin, dirty, dirtyBin := map[], map[], {}, {};
      assigns, trail, trailLim, reason, level, qhead := [], [], [], [], [], 0;
      seen, decision, polarity, orderHeap, model := [], [], [], {}, [];
      pos, formula := [], [];
      new;
      EmptyState(S());
    }

    /** A new variable, the next in number; `dvar` makes it eligible for decisions. */
    method NewVar(sign: bool, dvar: bool) returns (v: nat)
      requires Valid()
      modifies this
      ensures Valid() && ok == old(ok) && formula == old(formula)
      ensures v == old(|assigns|) && |assigns| == v + 1 && decision == old(decision) + [dvar]
      ensures conflicts == old(conflicts)
    {
      hide AtRoot, ListOk, HeapOk, FormulaBelow, AllClear, Filled, S, T;
      NeatMore(formula, seen, |assigns|);
      v := |assigns|;
      GrowOrder(sign, dvar);
      GrowVars();
      RootFilled();
    }

    /** Grows the tables of the decision heuristic. */
    method GrowOrder(sign: bool, dvar: bool)
      requires HeapOk(assigns, decision, orderHeap)
      modifies `seen, `polarity, `decision, `orderHeap
      ensures seen == old(seen) + [false] && polarity == old(polarity) + [sign] && decision == old(decision) + [dvar]
      ensures HeapOk(assigns + [Undef], decision, orderHeap)
    {
      hide HeapOk;
      HeapSize(assigns, decision, orderHeap);
      HeapNewVar(assigns, decision, orderHeap, dvar);
      seen, polarity, decision := seen + [false], polarity + [sign], decision + [dvar];
      InsertVarOrder(|assigns|);
    }

    lemma RootFilled()
      requires AtRoot()
      ensures Filled(T())
    {
      hide State.Structure, State.Meaning, State.Done, Filled, Unsat;
      FilledRoot(T());
    }

    method GrowVars()
      requires AtRoot()
      modifies `assigns, `reason, `level, `pos, `watches, `watchesBin
      ensures AtRoot() && assigns == old(assigns) + [Undef]
    {
      hide Unsat, State.Structure, State.Meaning, State.Done, WithVar;
      NewVarStep(S());
      var p := Lit(|assigns|, false);
      GrowLists(p);
      GrowTables();
      WithVarIs(old(S()), S());
    }

    method GrowTables()
      modifies `assigns, `reason, `level, `pos
      ensures assigns == old(assigns) + [Undef] && reason == old(reason) + [CREF_UNDEF]
      ensures level == old(level) + [0] && pos == old(pos) + [0]
    {
      assigns, reason, level, pos := assigns + [Undef], reason + [CREF_UNDEF], level + [0], pos + [0];
    }

    /** Empty watch lists for both literals of a new variable. */
    method GrowLists(p: Lit)
      modifies `watches, `watchesBin
      ensures watches == old(watches)[p := []][Neg(p) := []] && watchesBin == old(watchesBin)[p := []][Neg(p) := []]
    {
      watches, watchesBin := watches[p := []][Neg(p) := []], watchesBin[p := []][Neg(p) := []];
    }

    /** Sorts literals by their integer value, by selection. */
    method Sort(ps: seq<Lit>) returns (c: seq<Lit>)
      ensures Sorted(c) && forall q :: q in c <==> q in ps
    {
      c := ps;
      for i := 0 to |c|
        invariant |c| == |ps| && forall q :: q in c <==> q in ps
        invariant forall k, l :: 0 <= k < i && k < l < |c| ==> ToInt(c[k]) <= ToInt(c[l])
      {
        var best := i;
        for j := i + 1 to |c|
          invariant i <= best < |c|
          invariant forall l :: i <= l < j ==> ToInt(c[best]) <= ToInt(c[l])
        {
          if ToInt(c[j]) < ToInt(c[best]) { best := j; }
        }
        SwapSame(c, i, best);
        c := Swap(c, i, best);
      }
    }

    /** The clause without root-false and repeated literals; None if it is satisfied or a tautology. */
    method Reduce(ps: seq<Lit>) returns (r: Option<seq<Lit>>)
      requires forall q :: q in ps ==> q.v < |assigns|
      ensures r == None ==> exists q :: q in ps && (T().Value(q) == True || Neg(q) in ps)
      ensures r.Some? ==> Reduced(T(), ps, r.value) && Proper(r.value)
      ensures r.Some? ==> forall q :: q in r.value ==> T().Value(q) == Undef
    {
      hide Sorted, Reducing, Proper, Reduced;
      var c := Sort(ps);
      var kept: seq<Lit> := [];
      StartReducing(T(), c);
      for i := 0 to |c|
        invariant Reducing(T(), c, i, kept)
      {
        assert c[i] in c;
        if Val(assigns, c[i]) == True { return None; }
        if |kept| > 0 && c[i] == Neg(kept[|kept| - 1]) {
          ReduceTautology(T(), c, i, kept);
          return None;
        }
        if Val(assigns, c[i]) != False && !(|kept| > 0 && c[i] == kept[|kept| - 1]) {
          ReduceKeep(T(), c, i, kept);
          kept := kept + [c[i]];
        } else {
          ReduceSkip(T(), c, i, kept);
        }
      }
      ReduceDone(T(), c, ps, kept);
      return Some(kept);
    }

    /** A satisfied or tautological clause needs no storing. */
    method AddNothing(ps: seq<Lit>)
      requires Valid() && ok && forall q :: q in ps ==> q.v < |assigns|
      requires exists q :: q in ps && (T().Value(q) == True || Neg(q) in ps)
      modifies `formula
      ensures Valid() && formula == old(formula) + [ps]
    {
      hide State.Structure, State.Meaning, State.Done, HeapOk, ListOk, Unsat;
      FormulaMore(formula, ps, |assigns|);
      StructureFacts(S());
      AddSatisfied(S(), ps);
      FormulaFree(S(), formula + [ps]);
      formula := formula + [ps];
    }

    method EnqueueUnit(ps: seq<Lit>, p: Lit)
      requires Valid() && ok && (forall q :: q in ps ==> q.v < |assigns|)
      requires Reduced(T(), ps, [p]) && T().Value(p) == Undef && p.v < |assigns|
      modifies `formula, `assigns, `reason, `level, `trail, `pos
      ensures Ready() && formula == old(formula) + [ps] && |assigns| == old(|assigns|)
    {
      hide State.Structure, State.Meaning, State.Done, HeapOk, ListOk, Unsat, Reduced;
      FormulaMore(formula, ps, |assigns|);
      StructureFacts(S());
      AddUnit(S(), ps, p);
      HeapEnqueue(T(), p, decision, orderHeap);
      formula := formula + [ps];
      UncheckedEnqueue(p, CREF_UNDEF);
    }

    method AddUnitClause(ps: seq<Lit>, p: Lit) returns (r: bool)
      requires Valid() && ok && (forall q :: q in ps ==> q.v < |assigns|)
      requires Reduced(T(), ps, [p]) && T().Value(p) == Undef && p.v < |assigns|
      modifies this
      ensures Valid() && formula == old(formula) + [ps] && |assigns| == old(|assigns|) && decision == old(decision)
      ensures r == ok && conflicts == old(conflicts) && (r ==> Settled())
    {
      hide State.Structure, State.Meaning, State.Done, State.Sound, State.Conflict, HeapOk, ListOk, Unsat, Reduced;
      hide AllClear, FormulaBelow, Filled, S, T;
      EnqueueUnit(ps, p);
      var confl := PropagateReady();
      ok := confl == CREF_UNDEF;
      if !ok { RootUnsat(confl); }
      return ok;
    }

    lemma RootUnsat(confl: int)
      requires S().Sound() && S().Conflict(confl) && |trailLim| == 0
      ensures Unsat(formula) && S().Structure()
    {
      hide State.Structure, State.Sound, State.Conflict, Unsat;
      RootConflict(S(), confl);
    }

    method StoreClause(ps: seq<Lit>, cl: Clause)
      requires S().Structure() && NewClauseOk(cl, |assigns|)
      modifies `formula, `ca, `clauses, `watches, `watchesBin
      ensures old(Neg(cl.lits[0]) in watches && Neg(cl.lits[1]) in watches && Neg(cl.lits[0]) in watchesBin
        && Neg(cl.lits[1]) in watchesBin)
      ensures S() == WithClause(old(S()).(clauses := old(clauses) + [old(|ca|)], formula := old(formula) + [ps]), cl)
      ensures ca == old(ca) + [cl] && clauses == old(clauses) + [old(|ca|)] && formula == old(formula) + [ps]
    {
      hide State.Structure, Proper, VarsBelow;
      AttachKeys(S(), cl);
      var cr := |ca|;
      formula := formula + [ps];
      ca := ca + [cl];
      clauses := clauses + [cr];
      AttachClause(cr);
    }

    method AddLongClause(ps: seq<Lit>, c: seq<Lit>)
      requires Valid() && ok && (forall q :: q in ps ==> q.v < |assigns|)
      requires Reduced(T(), ps, c) && Proper(c) && |c| >= 2 && forall q :: q in c ==> T().Value(q) == Undef
      modifies `formula, `ca, `clauses, `watches, `watchesBin
      ensures Valid() && formula == old(formula) + [ps]
    {
      hide State.Structure, State.Meaning, State.Done, HeapOk, ListOk, Unsat, Reduced, NewClauseOk, Proper, VarsBelow;
      FormulaMore(formula, ps, |assigns|);
      ReducedBelow(T(), ps, c, |assigns|);
      var cl := Clause(c, false, false, FRESH);
      NewClause(cl, |assigns|);
      ListsBelow(ca, clauses, false);
      AddClauseStep(S(), ps, cl);
      ListGrow(ca, cl, clauses, false);
      ListGrow(ca, cl, learnts, true);
      StoreClause(ps, cl);
    }

    /** Adds a clause; the result tells whether the solver still considers the clauses satisfiable. */
    method AddClause(ps: seq<Lit>) returns (r: bool)
      requires Valid() && forall q :: q in ps ==> q.v < |assigns|
      modifies this
      ensures Valid() && formula == old(formula) + [ps] && |assigns| == old(|assigns|) && decision == old(decision)
      ensures r == ok && conflicts == old(conflicts)
      ensures r && old(qhead == |trail|) ==> Settled()
    {
      hide State.Structure, State.Meaning, State.Done, HeapOk, ListOk, AllClear, FormulaBelow, Filled, Unsat, Reduced;
      hide Proper;
      FormulaMore(formula, ps, |assigns|);
      if !ok {
        UnsatMore(formula, ps);
        FormulaFree(S(), formula + [ps]);
        formula := formula + [ps];
        return false;
      }
      var c := Reduce(ps);
      if c == None {
        AddNothing(ps);
        return true;
      }
      if c.value == [] {
        StructureFacts(S());
        AddEmpty(S(), ps);
        FormulaFree(S(), formula + [ps]);
        formula := formula + [ps];
        ok := false;
        return false;
      }
      ReducedBelow(T(), ps, c.value, |assigns|);
      if |c.value| == 1 {
        assert c.value == [c.value[0]] && c.value[0] in c.value;
        r := AddUnitClause(ps, c.value[0]);
      } else {
        AddLongClause(ps, c.value);
        r := true;
      }
    }

    // ---------------------------------------------------------------- solving

    /**
     * Solves the clauses added so far, without assumptions, within a budget of conflicts. True comes with values for
     * all
     * decision variables, which satisfy all clauses if these have no other variables; False means that the clauses have
     * no model; Undef is returned only when the budget is used up.
     */
    method Solve(budget: nat) returns (status: LBool)
      requires Valid()
      modifies this
      ensures Valid() && formula == old(formula) && |assigns| == old(|assigns|) && decision == old(decision)
      ensures status == False ==> Unsat(formula)
      ensures status == True ==> |model| == |assigns| == |decision|
      ensures status == True ==> forall v: nat :: v < |model| && decision[v] ==> model[v] != Undef
      ensures status == True && (forall v: nat :: Mentioned(formula, v) ==> v < |decision| && decision[v]) ==>
        ModelSat(model, formula)
      ensures status == Undef ==> ok && conflicts >= old(conflicts) + budget
    {
      hide State.Structure, State.Meaning, State.Done, HeapOk, ListOk, AllClear, FormulaBelow, Unsat, ModelSat, S, T;
      hide Filled, Mentioned;
      model := [];
      if !ok { return False; }
      status := SearchAll(budget);
      if status == True {
        model := assigns;
        SettledModel();
      } else if status == False {
        ok := false;
      }
      if ok { BackToRoot(); }
    }

    lemma SettledModel()
      requires Settled()
      requires forall v: nat :: v < |assigns| && decision[v] ==> assigns[v] != Undef
      ensures |decision| == |assigns|
      ensures (forall v: nat :: Mentioned(formula, v) ==> v < |decision| && decision[v]) ==> ModelSat(assigns, formula)
    {
      hide State.Structure, State.Meaning, State.Done, HeapOk, ListOk, AllClear, FormulaBelow, ModelSat, Filled;
      hide Mentioned;
      HeapSize(assigns, decision, orderHeap);
      if forall v: nat :: Mentioned(formula, v) ==> v < |decision| && decision[v] { FullModel(S()); }
    }

    /** Restarts until there is an answer or the budget is used up. */
    method SearchAll(budget: nat) returns (status: LBool)
      requires Ready() && ok
      modifies this
      ensures decision == old(decision) && formula == old(formula) && |assigns| == old(|assigns|)
      ensures match status
        case True => Settled() && ok && forall v: nat :: v < |assigns| && decision[v] ==> assigns[v] != Undef
        case False => |trailLim| == 0 && S().Structure() && Tidy() && Unsat(formula)
        case Undef => Ready() && ok && conflicts >= old(conflicts) + budget
    {
      hide State.Structure, State.Meaning, State.Done, HeapOk, ListOk, AllClear, FormulaBelow, Filled, Unsat, S, T;
      var limit := conflicts + budget;
      while true
        invariant Ready() && ok && limit == old(conflicts) + budget
        invariant decision == old(decision) && formula == old(formula) && |assigns| == old(|assigns|)
        decreases limit - conflicts, lbdSize
      {
        status := Search();
        if status != Undef || conflicts >= limit { return; }
      }
    }

    method BackToRoot()
      requires Ready() && ok
      modifies `assigns, `polarity, `orderHeap, `qhead, `trail, `trailLim
      ensures Valid() && |assigns| == old(|assigns|)
    {
      hide State.Structure, State.Meaning, State.Done, HeapOk, ListOk, IsCut;
      DoneRoot(S());
      StructureFacts(S());
      ghost var t := T();
      CancelUntil(0);
      if |t.lim| > 0 { CutBounds(t, T(), 0); CutNone(t, T()); }
    }
  }

  /** The first element still to visit joins those kept. */
  lemma Shift(kept: seq<nat>, rest: seq<nat>, i: nat)
    requires i < |rest|
    ensures rest[i..] == [rest[i]] + rest[i+1..]
    ensures kept + rest[i..] == kept + [rest[i]] + rest[i+1..] == (kept + [rest[i]]) + rest[i+1..]
  {}

  predicate SatisfiedAt(ca: Store, asg: seq<LBool>, cr: nat) {
    cr < |ca| && exists i :: 0 <= i < |ca[cr].lits| && Val(asg, ca[cr].lits[i]) == True
  }

  /** The clauses of the list that have no true literal, in order. */
  function Unsatisfied(ca: Store, asg: seq<LBool>, cs: seq<nat>): seq<nat> {
    if cs == [] then [] else Unsatisfied(ca, asg, cs[..|cs| - 1]) + if SatisfiedAt(ca, asg, cs[|cs| - 1]) then []
      else [cs[|cs| - 1]]
  }

  /** The elements of the list that are not in `gone`, in order. */
  function Without(cs: seq<nat>, gone: set<nat>): seq<nat> {
    if cs == [] then [] else
      Without(cs[..|cs| - 1], gone) + if cs[|cs| - 1] in gone then [] else [cs[|cs| - 1]]
  }

  lemma WithoutNext(cs: seq<nat>, i: nat, gone: set<nat>)
    requires i < |cs|
    ensures Without(cs[..i + 1], gone) == Without(cs[..i], gone) + if cs[i] in gone then [] else [cs[i]]
  {
    assert cs[..i + 1][..i] == cs[..i];
  }

  ghost predicate SameLits(ca: Store, ca': Store) {
    |ca| == |ca'| && forall k :: 0 <= k < |ca| ==> ca'[k].lits == ca[k].lits
  }

  lemma UnsatisfiedNone(ca: Store, asg: seq<LBool>, cs: seq<nat>)
    ensures Unsatisfied(ca, asg, cs[..0]) == [] && SameLits(ca, ca)
  {}

  lemma UnsatisfiedNext(ca: Store, ca': Store, asg: seq<LBool>, cs: seq<nat>, i: nat)
    requires i < |cs| && SameLits(ca, ca')
    ensures Unsatisfied(ca, asg, cs[..i + 1]) == Unsatisfied(ca, asg, cs[..i]) + if SatisfiedAt(ca', asg, cs[i])
      then [] else [cs[i]]
  {
    assert cs[..i + 1][..i] == cs[..i];
    assert SatisfiedAt(ca', asg, cs[i]) <==> SatisfiedAt(ca, asg, cs[i]);
  }

  lemma {:induction false} UnsatisfiedSame(ca: Store, ca': Store, asg: seq<LBool>, cs: seq<nat>)
    requires SameLits(ca, ca')
    ensures Unsatisfied(ca', asg, cs) == Unsatisfied(ca, asg, cs)
  {
    if cs != [] {
      UnsatisfiedSame(ca, ca', asg, cs[..|cs| - 1]);
      UnsatisfiedNext(ca, ca', asg, cs, |cs| - 1);
      assert cs[..|cs| - 1 + 1] == cs;
    }
  }

  lemma SameMarked(ca: Store, ca': Store, cr: nat)
    requires SameLits(ca, ca') && cr < |ca'|
    ensures SameLits(ca, ca'[cr := ca'[cr].(deleted := true)])
  {}
}
