/**
 * The copying clause collector: clauses move to a new region once, and later references follow the forwarding left
 * behind.
 */
module Reloc {
  import opened Cnf
  import opened SolverSpec

  // A clause of the old region: still there, or overwritten by the reference of its copy.
  datatype Cell = Live(clause: Clause) | Moved(rel: nat)

  predicate Located(from: seq<Cell>, r: nat, r': nat) { r < |from| && from[r] == Moved(r') }

  ghost predicate HasOrigin(from: seq<Cell>, k: nat) { exists r: nat :: Located(from, r, k) }

  /**
   * What is left of `ca` and what was copied are the same clauses, each copied at most once, nothing else in the new
   * region.
   */
  ghost predicate Copied(ca: Store, from: seq<Cell>, to: Store) {
    && |from| == |ca|
    && (forall r :: 0 <= r < |from| && from[r].Live? ==> from[r].clause == ca[r])
    && (forall r :: 0 <= r < |from| && from[r].Moved? ==> from[r].rel < |to| && to[from[r].rel] == ca[r])
    && (forall r, s ::
      0 <= r < |from| && 0 <= s < |from| && from[r].Moved? && from[s].Moved? && from[r].rel == from[s].rel ==> r == s)
    && (forall k: nat :: k < |to| ==> HasOrigin(from, k))
  }

  /** Clauses that are not learnt have no attributes of their own. */
  ghost predicate PlainOk(ca: Store) { forall r :: 0 <= r < |ca| ==> AttributesOk(ca[r]) }

  lemma StructurePlain(s: State)
    requires s.Structure()
    ensures PlainOk(s.ca)
  {
    hide LongInv, BinInv, LazyInv, ReasonInv, Trail.Ok;
  }

  /** Forwarding, once left, stays. */
  ghost predicate Kept(from: seq<Cell>, from': seq<Cell>) {
    |from| == |from'| && forall r :: 0 <= r < |from| && from[r].Moved? ==> from'[r] == from[r]
  }

  ghost predicate ListMoved(from: seq<Cell>, ws: seq<Watcher>, ws': seq<Watcher>) {
    |ws| == |ws'| && forall k :: 0 <= k < |ws| ==>
      ws'[k].blocker == ws[k].blocker && Located(from, ws[k].cref, ws'[k].cref)
  }

  ghost predicate RefsMoved(from: seq<Cell>, cs: seq<nat>, cs': seq<nat>) {
    |cs| == |cs'| && forall k :: 0 <= k < |cs| ==> Located(from, cs[k], cs'[k])
  }

  /** The lists of the first k literals, in the order of their integers, are redirected; the others are as they were. */
  ghost predicate PartMoved(from: seq<Cell>, ws: WatchLists, ws': WatchLists, k: nat) {
    && ws'.Keys == ws.Keys
    && forall p :: p in ws ==> if ToInt(p) < k then ListMoved(from, ws[p], ws'[p]) else ws'[p] == ws[p]
  }

  ghost predicate MapMoved(from: seq<Cell>, ws: WatchLists, ws': WatchLists) {
    ws'.Keys == ws.Keys && forall p :: p in ws ==> ListMoved(from, ws[p], ws'[p])
  }

  ghost predicate LiveMoved(ca: Store, from: seq<Cell>) {
    |ca| == |from| && forall r :: 0 <= r < |ca| && !ca[r].deleted ==> from[r].Moved?
  }

  /** The reasons of all assigned variables are redirected, and no reason appears from nowhere. */
  ghost predicate ReasonsMoved(ca: Store, from: seq<Cell>, t: Trail, reason: seq<int>, reason': seq<int>) {
    && |reason'| == |reason| == |t.asg| && |from| == |ca|
    && forall v: nat :: t.Assigned(v) ==> ReasonMoved(ca, from, reason[v], reason'[v])
  }

  ghost predicate ReasonMoved(ca: Store, from: seq<Cell>, r: int, r': int) {
    |from| == |ca| && if r == CREF_UNDEF then r' == CREF_UNDEF else r >= 0 && r' >= 0 && Located(from, r, r')
  }

  /** The same state with every reference to a clause redirected. */
  ghost predicate Collected(s: State, from: seq<Cell>, s': State) {
    && s'.t == s.t && s'.qhead == s.qhead && s'.formula == s.formula && s'.dirty == {} && s'.dirtyBin == {}
    && MapMoved(from, s.ws, s'.ws) && MapMoved(from, s.wb, s'.wb)
    && RefsMoved(from, s.clauses, s'.clauses)
    && ReasonsMoved(s.ca, from, s.t, s.reason, s'.reason)
  }

  // ---------------------------------------------------------------- one reference at a time

  lemma CopiedStart(ca: Store)
    ensures Copied(ca, seq(|ca|, (r: nat) requires r < |ca| => Live(ca[r])), [])
  {}

  lemma CopyNext(ca: Store, from: seq<Cell>, to: Store, cr: nat)
    requires Copied(ca, from, to) && cr < |from| && from[cr].Live?
    ensures Copied(ca, from[cr := Moved(|to|)], to + [from[cr].clause]) && Kept(from, from[cr := Moved(|to|)])
  {
    var from', to' := from[cr := Moved(|to|)], to + [from[cr].clause];
    forall k: nat | k < |to'| ensures HasOrigin(from', k) {
      if k < |to| {
        assert HasOrigin(from, k);
        var r: nat :| Located(from, r, k);
        assert Located(from', r, k);
      } else {
        assert Located(from', cr, k);
      }
    }
  }

  lemma KeptTrans(f: seq<Cell>, g: seq<Cell>, h: seq<Cell>)
    requires Kept(f, g) && Kept(g, h)
    ensures Kept(f, h)
  {}

  lemma ListKept(from: seq<Cell>, from': seq<Cell>, ws: seq<Watcher>, ws': seq<Watcher>)
    requires ListMoved(from, ws, ws') && Kept(from, from')
    ensures ListMoved(from', ws, ws')
  {}

  lemma RefsKept(from: seq<Cell>, from': seq<Cell>, cs: seq<nat>, cs': seq<nat>)
    requires RefsMoved(from, cs, cs') && Kept(from, from')
    ensures RefsMoved(from', cs, cs')
  {}

  lemma PartKept(from: seq<Cell>, from': seq<Cell>, ws: WatchLists, ws': WatchLists, k: nat)
    requires PartMoved(from, ws, ws', k) && Kept(from, from')
    ensures PartMoved(from', ws, ws', k)
  {
    hide ListMoved, Kept;
    forall p | p in ws && ToInt(p) < k ensures ListMoved(from', ws[p], ws'[p]) { ListKept(from, from', ws[p], ws'[p]); }
  }

  lemma MapKept(from: seq<Cell>, from': seq<Cell>, ws: WatchLists, ws': WatchLists)
    requires MapMoved(from, ws, ws') && Kept(from, from')
    ensures MapMoved(from', ws, ws')
  {
    hide ListMoved, Kept;
    forall p | p in ws ensures ListMoved(from', ws[p], ws'[p]) { ListKept(from, from', ws[p], ws'[p]); }
  }

  lemma PartNext(from: seq<Cell>, from': seq<Cell>, ws: WatchLists, ws': WatchLists, p: Lit, l: seq<Watcher>)
    requires PartMoved(from, ws, ws', ToInt(p)) && Kept(from, from') && p in ws && ListMoved(from', ws[p], l)
    ensures PartMoved(from', ws, ws'[p := l], ToInt(p) + 1)
  {
    hide ListMoved, Kept;
    PartKept(from, from', ws, ws', ToInt(p));
    forall q | q in ws && q != p ensures ToInt(q) != ToInt(p) { LitRoundTrip(p, 0); LitRoundTrip(q, 0); }
  }

  lemma PartStart(from: seq<Cell>, ws: WatchLists)
    ensures PartMoved(from, ws, ws, 0)
  {}

  lemma PartDone(from: seq<Cell>, ws: WatchLists, ws': WatchLists, nv: nat)
    requires PartMoved(from, ws, ws', 2 * nv) && KeysOk(ws, nv)
    ensures MapMoved(from, ws, ws')
  {
    hide ListMoved;
    forall p | p in ws ensures ListMoved(from, ws[p], ws'[p]) { assert ToInt(p) < 2 * nv; }
  }

  // ---------------------------------------------------------------- what redirection keeps

  lemma MovedStoreOk(ca: Store, from: seq<Cell>, to: Store, nv: nat)
    requires Copied(ca, from, to) && StoreOk(ca, nv)
    ensures StoreOk(to, nv)
  {
    hide Proper, VarsBelow;
    forall k | 0 <= k < |to|
      ensures |to[k].lits| >= 2 && Proper(to[k].lits) && VarsBelow(to[k].lits, nv) && AttributesOk(to[k])
    {
      assert HasOrigin(from, k);
      var r: nat :| Located(from, r, k);
    }
  }

  lemma MovedLong(ca: Store, from: seq<Cell>, to: Store, p: Lit, ws: seq<Watcher>, ws': seq<Watcher>)
    requires Copied(ca, from, to) && ListMoved(from, ws, ws') && LongListOk(ca, p, ws)
    ensures LongListOk(to, p, ws')
  {
    hide LongFits;
    forall k | 0 <= k < |ws'| ensures LongFits(to, p, ws'[k]) { LongSame(ca, to, p, ws[k], ws'[k], from); }
    forall i, j | 0 <= i < j < |ws'| ensures ws'[i].cref != ws'[j].cref { assert ws[i].cref != ws[j].cref; }
  }

  lemma LongSame(ca: Store, to: Store, p: Lit, w: Watcher, w': Watcher, from: seq<Cell>)
    requires Copied(ca, from, to) && w'.blocker == w.blocker && Located(from, w.cref, w'.cref)
    ensures LongFits(ca, p, w) ==> LongFits(to, p, w')
    ensures BinFits(ca, p, w) ==> BinFits(to, p, w')
  {}

  lemma MovedBin(ca: Store, from: seq<Cell>, to: Store, p: Lit, ws: seq<Watcher>, ws': seq<Watcher>)
    requires Copied(ca, from, to) && ListMoved(from, ws, ws') && BinListOk(ca, p, ws)
    ensures BinListOk(to, p, ws')
  {
    hide BinFits;
    forall k | 0 <= k < |ws'| ensures BinFits(to, p, ws'[k]) { LongSame(ca, to, p, ws[k], ws'[k], from); }
    forall i, j | 0 <= i < j < |ws'| ensures ws'[i].cref != ws'[j].cref { assert ws[i].cref != ws[j].cref; }
  }

  lemma MovedWatched(from: seq<Cell>, ws: seq<Watcher>, ws': seq<Watcher>, r: nat, k: nat)
    requires ListMoved(from, ws, ws') && Watched(ws, r) && Located(from, r, k)
    ensures Watched(ws', k)
  {
    var i :| 0 <= i < |ws| && ws[i].cref == r;
    assert ws'[i].cref == k;
  }

  lemma MovedCovers(ca: Store, from: seq<Cell>, to: Store, ws: WatchLists, ws': WatchLists, long: bool)
    requires Copied(ca, from, to) && MapMoved(from, ws, ws') && Covers(ca, ws, long)
    ensures Covers(to, ws', long)
  {
    hide ListMoved, Watched;
    forall k | 0 <= k < |to| && !to[k].deleted && |to[k].lits| >= 2 && (|to[k].lits| > 2) == long
      ensures forall i :: 0 <= i < 2 ==> Neg(to[k].lits[i]) in ws' && Watched(ws'[Neg(to[k].lits[i])], k)
    {
      assert HasOrigin(from, k);
      var r: nat :| Located(from, r, k);
      forall i | 0 <= i < 2 ensures Neg(to[k].lits[i]) in ws' && Watched(ws'[Neg(to[k].lits[i])], k) {
        var q := Neg(ca[r].lits[i]);
        assert q in ws && Watched(ws[q], r);
        MovedWatched(from, ws[q], ws'[q], r, k);
      }
    }
  }

  lemma MovedLongInv(ca: Store, from: seq<Cell>, to: Store, ws: WatchLists, ws': WatchLists, nv: nat)
    requires Copied(ca, from, to) && MapMoved(from, ws, ws') && LongInv(ca, ws, nv)
    ensures LongInv(to, ws', nv)
  {
    hide ListMoved, Copied, LongListOk, Covers;
    forall p | p in ws' ensures LongListOk(to, p, ws'[p]) { MovedLong(ca, from, to, p, ws[p], ws'[p]); }
    MovedCovers(ca, from, to, ws, ws', true);
  }

  lemma MovedBinInv(ca: Store, from: seq<Cell>, to: Store, ws: WatchLists, ws': WatchLists, nv: nat)
    requires Copied(ca, from, to) && MapMoved(from, ws, ws') && BinInv(ca, ws, nv)
    ensures BinInv(to, ws', nv)
  {
    hide ListMoved, Copied, BinListOk, Covers;
    forall p | p in ws' ensures BinListOk(to, p, ws'[p]) { MovedBin(ca, from, to, p, ws[p], ws'[p]); }
    MovedCovers(ca, from, to, ws, ws', false);
  }

  lemma LiveWatcher(ca: Store, ws: WatchLists, p: Lit, k: nat)
    requires LazyInv(ca, ws, {}) && p in ws && k < |ws[p]| && ws[p][k].cref < |ca|
    ensures !ca[ws[p][k].cref].deleted
  {}

  lemma MovedLazy(ca: Store, from: seq<Cell>, to: Store, ws: WatchLists, ws': WatchLists)
    requires Copied(ca, from, to) && MapMoved(from, ws, ws') && LazyInv(ca, ws, {})
    ensures LazyInv(to, ws', {})
  {
    forall p, k | p in ws' && 0 <= k < |ws'[p]| ensures ws'[p][k].cref < |to| ==> !to[ws'[p][k].cref].deleted {
      assert ListMoved(from, ws[p], ws'[p]);
      assert Located(from, ws[p][k].cref, ws'[p][k].cref);
      LiveWatcher(ca, ws, p, k);
    }
  }

  lemma MovedDone(ca: Store, from: seq<Cell>, to: Store, t: Trail, ws: WatchLists, ws': WatchLists, n: nat)
    requires Copied(ca, from, to) && MapMoved(from, ws, ws') && Propagated(t, ca, ws, n)
    ensures Propagated(t, to, ws', n)
  {
    hide Trail.SatBy;
    forall j | 0 <= j < n && j < |t.lits| && t.lits[j] in ws'
      ensures ListDone(t, to, ws'[t.lits[j]], t.Lev(t.lits[j].v))
    {
      var l, l' := ws[t.lits[j]], ws'[t.lits[j]];
      assert ListMoved(from, l, l');
      forall k | 0 <= k < |l'| && l'[k].cref < |to| ensures t.SatBy(to[l'[k].cref].lits, t.Lev(t.lits[j].v)) {
        assert Located(from, l[k].cref, l'[k].cref);
      }
    }
  }

  lemma MovedHeld(ca: Store, from: seq<Cell>, to: Store, t: Trail, reason: seq<int>, reason': seq<int>)
    requires Copied(ca, from, to) && ReasonsMoved(ca, from, t, reason, reason') && HeldInv(t, ca, reason)
    ensures HeldInv(t, to, reason')
  {
    forall v: nat | t.Assigned(v) && v < |reason'| && reason'[v] != CREF_UNDEF
      ensures Holding(to, reason'[v], t.On(v))
    {
      assert ReasonMoved(ca, from, reason[v], reason'[v]);
      assert Holding(ca, reason[v], t.On(v));
    }
  }

  lemma MovedReasons(ca: Store, from: seq<Cell>, to: Store, t: Trail, reason: seq<int>, reason': seq<int>)
    requires Copied(ca, from, to) && ReasonsMoved(ca, from, t, reason, reason') && ReasonInv(t, ca, reason)
    ensures ReasonInv(t, to, reason')
  {
    hide HeldInv;
    MovedHeld(ca, from, to, t, reason, reason');
    forall v: nat | t.Assigned(v) && 0 < t.Lev(v) <= |t.lim|
      ensures if reason'[v] == CREF_UNDEF then t.Pos(v) == t.lim[t.Lev(v) - 1] else ReasonOk(t, to, reason'[v], v)
    {
      if reason[v] != CREF_UNDEF {
        assert ReasonOk(t, ca, reason[v], v);
        assert ReasonMoved(ca, from, reason[v], reason'[v]);
      }
    }
  }

  lemma MovedMeaning(f: seq<seq<Lit>>, ca: Store, from: seq<Cell>, to: Store, cs: seq<nat>, cs': seq<nat>, t: Trail)
    requires Copied(ca, from, to) && RefsMoved(from, cs, cs')
    ensures StoreEntailed(f, ca) ==> StoreEntailed(f, to)
    ensures DbImplies(f, ca, cs, t) ==> DbImplies(f, to, cs', t)
  {
    hide Entails, SatAll, SatClause, Trail.RootHolds, Mentioned;
    if ListWithin(f, ca, cs) {
      forall k, q | 0 <= k < |cs'| && cs'[k] < |to| && q in to[cs'[k]].lits ensures Mentioned(f, q.v) {
        assert Located(from, cs[k], cs'[k]);
      }
    }
    if StoreEntailed(f, ca) {
      forall k | 0 <= k < |to| ensures Entails(f, to[k].lits) {
        assert HasOrigin(from, k);
        var r: nat :| Located(from, r, k);
      }
    }
    forall a: Assignment | SatList(a, to, cs') ensures SatList(a, ca, cs) {
      forall k | 0 <= k < |cs| && cs[k] < |ca| ensures SatClause(a, ca[cs[k]].lits) {
        assert Located(from, cs[k], cs'[k]);
      }
    }
  }

  lemma MovedListOk(ca: Store, from: seq<Cell>, to: Store, cs: seq<nat>, cs': seq<nat>, learnt: bool)
    requires Copied(ca, from, to) && RefsMoved(from, cs, cs') && ListOk(ca, cs, learnt)
    ensures ListOk(to, cs', learnt)
  {
    forall k | 0 <= k < |cs'|
      ensures cs'[k] < |to| && !to[cs'[k]].deleted && to[cs'[k]].learnt == learnt
    {
      assert Located(from, cs[k], cs'[k]);
    }
    forall k, l | 0 <= k < l < |cs'| ensures cs'[k] != cs'[l] {
      assert Located(from, cs[k], cs'[k]) && Located(from, cs[l], cs'[l]);
    }
  }

  /**
   * Two references denote one clause after the collection exactly if they did before, and each denotes the clause it
   * did.
   */
  lemma Transparent(ca: Store, from: seq<Cell>, to: Store, r: nat, r': nat, s: nat, s': nat)
    requires Copied(ca, from, to) && Located(from, r, r') && Located(from, s, s')
    ensures r' < |to| && to[r'] == ca[r] && (r == s <==> r' == s')
  {}

  /** All invariants of the solver survive the collection. */
  lemma CollectedSound(s: State, from: seq<Cell>, s': State, n: nat)
    requires s.Structure() && s.Meaning() && s.Done(n) && s.dirty == {} && s.dirtyBin == {}
    requires Copied(s.ca, from, s'.ca) && Collected(s, from, s')
    ensures s'.Structure() && s'.Meaning() && s'.Done(n)
  {
    hide Copied, MapMoved, RefsMoved, ReasonsMoved, LongInv, BinInv, LazyInv, ReasonInv, StoreOk, Propagated;
    hide StoreEntailed, DbImplies, RootEntailed, Trail.Ok;
    MovedStoreOk(s.ca, from, s'.ca, |s.t.asg|);
    MovedLongInv(s.ca, from, s'.ca, s.ws, s'.ws, |s.t.asg|);
    MovedBinInv(s.ca, from, s'.ca, s.wb, s'.wb, |s.t.asg|);
    MovedLazy(s.ca, from, s'.ca, s.ws, s'.ws);
    MovedLazy(s.ca, from, s'.ca, s.wb, s'.wb);
    MovedReasons(s.ca, from, s'.ca, s.t, s.reason, s'.reason);
    MovedMeaning(s.formula, s.ca, from, s'.ca, s.clauses, s'.clauses, s.t);
    MovedDone(s.ca, from, s'.ca, s.t, s.ws, s'.ws, n);
    MovedDone(s.ca, from, s'.ca, s.t, s.wb, s'.wb, n);
  }

  // ---------------------------------------------------------------- reaching every stored clause

  lemma WatchedMoved(from: seq<Cell>, ws: seq<Watcher>, ws': seq<Watcher>, r: nat)
    requires ListMoved(from, ws, ws') && Watched(ws, r)
    ensures r < |from| && from[r].Moved?
  {
    var i :| 0 <= i < |ws| && ws[i].cref == r;
    assert Located(from, r, ws'[i].cref);
  }

  /** Every stored clause is watched, so redirecting the watchers moves them all. */
  lemma AllLiveMoved(s: State, from: seq<Cell>, ws': WatchLists, wb': WatchLists)
    requires s.Structure() && |from| == |s.ca| && MapMoved(from, s.ws, ws') && MapMoved(from, s.wb, wb')
    ensures LiveMoved(s.ca, from)
  {
    hide ListMoved, Watched, LongListOk, BinListOk, LazyInv, ReasonInv, Trail.Ok, Proper, VarsBelow, KeysOk;
    forall r: nat | r < |s.ca| && !s.ca[r].deleted ensures from[r].Moved? {
      var p := Neg(s.ca[r].lits[0]);
      if |s.ca[r].lits| > 2 {
        assert p in s.ws && Watched(s.ws[p], r);
        WatchedMoved(from, s.ws[p], ws'[p], r);
      } else {
        assert p in s.wb && Watched(s.wb[p], r);
        WatchedMoved(from, s.wb[p], wb'[p], r);
      }
    }
  }

  /** The reasons of the first i trail variables are done. */
  ghost predicate ReasonsPart(ca: Store, from: seq<Cell>, t: Trail, reason: seq<int>, reason': seq<int>, i: nat) {
    && |reason'| == |reason| == |t.asg| && |from| == |ca|
    && forall v: nat :: t.Assigned(v) ==> if t.Pos(v) < i then ReasonMoved(ca, from, reason[v], reason'[v])
      else reason'[v] == reason[v]
  }

  lemma ReasonKept(ca: Store, from: seq<Cell>, from': seq<Cell>, r: int, r': int)
    requires ReasonMoved(ca, from, r, r') && Kept(from, from')
    ensures ReasonMoved(ca, from', r, r')
  {}

  lemma ReasonsNext(ca: Store, from: seq<Cell>, from': seq<Cell>, t: Trail, reason: seq<int>, reason': seq<int>,
      i: nat, r': int)
    requires t.StackOk() && i < |t.lits| && ReasonsPart(ca, from, t, reason, reason', i) && Kept(from, from')
    requires t.lits[i].v < |reason| && ReasonMoved(ca, from', reason[t.lits[i].v], r')
    ensures ReasonsPart(ca, from', t, reason, reason'[t.lits[i].v := r'], i + 1)
  {
    hide ReasonMoved, Kept;
    var u := t.lits[i].v;
    assert |from'| == |ca| by { KeptSize(from, from'); }
    forall v: nat | t.Assigned(v)
      ensures if t.Pos(v) < i + 1 then ReasonMoved(ca, from', reason[v], reason'[u := r'][v])
        else reason'[u := r'][v] == reason[v]
    {
      if v == u {
        assert t.Pos(v) == i;
      } else if t.Pos(v) < i {
        ReasonKept(ca, from, from', reason[v], reason'[v]);
      } else {
        assert t.lits[t.Pos(v)].v == v;
      }
    }
  }

  lemma LiveKept(ca: Store, from: seq<Cell>, from': seq<Cell>)
    requires LiveMoved(ca, from) && Kept(from, from')
    ensures LiveMoved(ca, from')
  {}

  lemma ReasonHeld(s: State, v: nat)
    requires s.Structure() && s.t.Assigned(v) && v < |s.reason|
    ensures s.reason[v] != CREF_UNDEF ==> Holding(s.ca, s.reason[v], s.t.On(v))
  {
    hide Holding, StoreOk, LongInv, BinInv, LazyInv, Trail.Ok;
  }

  lemma ReasonUndef(ca: Store, from: seq<Cell>)
    requires |from| == |ca|
    ensures ReasonMoved(ca, from, CREF_UNDEF, CREF_UNDEF)
  {}

  lemma KeptSize(from: seq<Cell>, from': seq<Cell>)
    requires Kept(from, from')
    ensures |from'| == |from|
  {}

  lemma ReasonsDone(ca: Store, from: seq<Cell>, t: Trail, reason: seq<int>, reason': seq<int>)
    requires t.StackOk() && ReasonsPart(ca, from, t, reason, reason', |t.lits|)
    ensures ReasonsMoved(ca, from, t, reason, reason')
  {
    forall v: nat | t.Assigned(v) ensures ReasonMoved(ca, from, reason[v], reason'[v]) {}
  }

  lemma ReasonsKept(ca: Store, from: seq<Cell>, from': seq<Cell>, t: Trail, reason: seq<int>, reason': seq<int>)
    requires ReasonsMoved(ca, from, t, reason, reason') && Kept(from, from')
    ensures ReasonsMoved(ca, from', t, reason, reason')
  {}

  lemma ReasonsStart(ca: Store, from: seq<Cell>, t: Trail, reason: seq<int>)
    requires |reason| == |t.asg| && |from| == |ca|
    ensures ReasonsPart(ca, from, t, reason, reason, 0)
  {}

  lemma ReasonsAt(ca: Store, from: seq<Cell>, t: Trail, reason: seq<int>, reason': seq<int>, i: nat)
    requires t.StackOk() && i < |t.lits| && ReasonsPart(ca, from, t, reason, reason', i)
    ensures t.lits[i].v < |reason'| == |reason| && reason'[t.lits[i].v] == reason[t.lits[i].v]
  {
    assert t.Assigned(t.lits[i].v) && t.Pos(t.lits[i].v) == i;
  }

  lemma KeptRefl(from: seq<Cell>)
    ensures Kept(from, from)
  {}

  lemma ReasonRelocated(ca: Store, from: seq<Cell>, r: int, r': nat)
    requires |from| == |ca| && r >= 0 && Located(from, r, r')
    ensures ReasonMoved(ca, from, r, r')
  {}

  lemma StructureKeys(s: State)
    requires s.Structure()
    ensures KeysOk(s.ws, |s.t.asg|) && KeysOk(s.wb, |s.t.asg|)
  {}

  lemma ListsToMove(s: State, p: Lit)
    requires s.Structure() && p.v < |s.t.asg|
    ensures p in s.ws && forall k :: 0 <= k < |s.ws[p]| ==> s.ws[p][k].cref < |s.ca|
    ensures p in s.wb && forall k :: 0 <= k < |s.wb[p]| ==> s.wb[p][k].cref < |s.ca|
  {
    assert LongListOk(s.ca, p, s.ws[p]) && BinListOk(s.ca, p, s.wb[p]);
  }

  lemma PartAt(from: seq<Cell>, ws: WatchLists, ws': WatchLists, p: Lit)
    requires PartMoved(from, ws, ws', ToInt(p)) && p in ws
    ensures p in ws' && ws'[p] == ws[p]
  {}

  /** The lists of the literals in `dirty` have lost their deleted watchers; the others are as they were. */
  ghost predicate Cleaned(ca: Store, ws: WatchLists, ws': WatchLists, dirty: set<Lit>) {
    ws'.Keys == ws.Keys && forall p :: p in ws ==> ws'[p] == if p in dirty then Undeleted(ca, ws[p]) else ws[p]
  }

  lemma CleanedStart(ca: Store, ws: WatchLists, dirty: set<Lit>)
    ensures Cleaned(ca, ws, ws, dirty - dirty)
  {}

  lemma CleanedNext(ca: Store, ws: WatchLists, ws': WatchLists, dirty: set<Lit>, left: set<Lit>, p: Lit)
    requires Cleaned(ca, ws, ws', dirty - left) && p in left && left <= dirty
    ensures Cleaned(ca, ws, if p in ws' then ws'[p := Undeleted(ca, ws'[p])] else ws', dirty - (left - {p}))
  {}

  // ---------------------------------------------------------------- the collector

  /** Both regions during a collection. */
  class Collector {
    var from: seq<Cell>
    var to: Store
    ghost const ca: Store

    ghost predicate Valid()
      reads this
    {
      Copied(ca, from, to) && PlainOk(ca)
    }

    constructor (store: Store)
      requires PlainOk(store)
      ensures Valid() && ca == store && to == [] && |from| == |store|
    {
      ca := store;
      from := seq(|store|, (r: nat) requires r < |store| => Live(store[r]));
      to := [];
      new;
      CopiedStart(ca);
    }

    /** The clause's new reference; the first time it is asked for, the clause is copied and its old place forwards. */
    method Reloc(cr: nat) returns (r: nat)
      requires Valid() && cr < |from|
      modifies this
      ensures Valid() && Kept(old(from), from) && Located(from, cr, r)
      ensures to == old(to) || (to == old(to) + [ca[cr]] && !old(from)[cr].Moved?)
    {
      if from[cr].Moved? { return from[cr].rel; }
      CopyNext(ca, from, to, cr);
      r := |to|;
      var c := from[cr].clause;
      var copy := Clause(c.lits, c.learnt, false, FRESH);
      copy := copy.(deleted := c.deleted);
      if copy.learnt { copy := copy.(attr := c.attr); }
      to := to + [copy];
      from := from[cr := Moved(r)];
    }

    method RelocWatchers(ws: seq<Watcher>) returns (ws': seq<Watcher>)
      requires Valid() && forall k :: 0 <= k < |ws| ==> ws[k].cref < |from|
      modifies this
      ensures Valid() && Kept(old(from), from) && ListMoved(from, ws, ws')
    {
      ws' := [];
      for j := 0 to |ws|
        invariant Valid() && Kept(old(from), from) && ListMoved(from, ws[..j], ws')
      {
        ghost var f := from;
        var r := Reloc(ws[j].cref);
        ListKept(f, from, ws[..j], ws');
        ws' := ws' + [Watcher(r, ws[j].blocker)];
        assert ws[..j + 1] == ws[..j] + [ws[j]];
      }
      assert ws[..|ws|] == ws;
    }

    method RelocRefs(cs: seq<nat>) returns (cs': seq<nat>)
      requires Valid() && forall k :: 0 <= k < |cs| ==> cs[k] < |from|
      modifies this
      ensures Valid() && Kept(old(from), from) && RefsMoved(from, cs, cs')
    {
      cs' := [];
      for j := 0 to |cs|
        invariant Valid() && Kept(old(from), from) && RefsMoved(from, cs[..j], cs')
      {
        ghost var f := from;
        var r := Reloc(cs[j]);
        RefsKept(f, from, cs[..j], cs');
        cs' := cs' + [r];
        assert cs[..j + 1] == cs[..j] + [cs[j]];
      }
      assert cs[..|cs|] == cs;
    }
  }
}
