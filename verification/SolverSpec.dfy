/** The solver's data as values, the invariants that tie them together, and the lemmas about them. */
module SolverSpec {
  import opened Cnf

  const CREF_UNDEF: int := -1

  // What the heuristics note on a clause: activity, block distance, size without selectors, and whether it may go.
  datatype Attributes = Attributes(activity: real, lbd: nat, size: nat, canBeDel: bool)

  // As an allocation leaves them; only learnt clauses get others.
  const FRESH: Attributes := Attributes(0.0, 0, 0, true)

  // `deleted` is the source's mark() == 1; a CRef is an index into the clause store.
  datatype Clause = Clause(lits: seq<Lit>, learnt: bool, deleted: bool, attr: Attributes)
  type Store = seq<Clause>

  datatype Watcher = Watcher(cref: nat, blocker: Lit)
  type WatchLists = map<Lit, seq<Watcher>>

  function Val(asg: seq<LBool>, p: Lit): LBool {
    if p.v >= |asg| || asg[p.v] == Undef then Undef
    else if (asg[p.v] == True) != p.s then True else False
  }

  /** The assignment stack with everything indexed by it; `pos` is the inverse of `lits`. */
  datatype Trail = Trail(lits: seq<Lit>, lim: seq<nat>, asg: seq<LBool>, level: seq<nat>, pos: seq<nat>) {

    predicate Assigned(v: nat) { v < |asg| && asg[v] != Undef }

    function Value(p: Lit): LBool { Val(asg, p) }

    function Lev(v: nat): nat { if v < |level| then level[v] else 0 }

    function Pos(v: nat): nat { if v < |pos| then pos[v] else 0 }

    ghost predicate Sizes() { |asg| == |level| == |pos| }

    ghost predicate StackOk() {
      && Sizes()
      && (forall j {:trigger lits[j]} :: 0 <= j < |lits| ==>
            lits[j].v < |asg| && Pos(lits[j].v) == j && Value(lits[j]) == True)
      && (forall v: nat {:trigger Pos(v)} {:trigger Assigned(v)} :: Assigned(v) ==>
        Pos(v) < |lits| && lits[Pos(v)].v == v)
    }

    ghost predicate LevelsOk() {
      && (forall d :: 0 <= d < |lim| ==> lim[d] <= |lits|)
      && (forall d, e :: 0 <= d < e < |lim| ==> lim[d] <= lim[e])
      && (forall v: nat :: Assigned(v) ==> Lev(v) <= |lim|)
      && (forall v: nat, d :: Assigned(v) && 0 <= d < |lim| ==> (Lev(v) > d <==> Pos(v) >= lim[d]))
    }

    ghost predicate Ok() { StackOk() && LevelsOk() }

    /** Some literal of `c` is true, and was so at level `l` already. */
    ghost predicate SatBy(c: seq<Lit>, l: nat) {
      exists p :: p in c && Value(p) == True && Lev(p.v) <= l
    }

    ghost predicate AllFalse(c: seq<Lit>) {
      forall p :: p in c ==> Value(p) == False
    }

    /** The literal of `v` that is on the trail. */
    function On(v: nat): Lit { Lit(v, v < |asg| && asg[v] == False) }

    ghost predicate RootHolds(a: Assignment) {
      forall v: nat :: Assigned(v) && Lev(v) == 0 ==> Holds(a, On(v))
    }

    function Enqueue(p: Lit): Trail
      requires p.v < |asg| && p.v < |level| && p.v < |pos|
    {
      Trail(lits + [p], lim, asg[p.v := if p.s then False else True], level[p.v := |lim|], pos[p.v := |lits|])
    }

    function Root(): nat { if |lim| == 0 then 0 else lim[|lim| - 1] }
  }

  // ---------------------------------------------------------------- clause store

  ghost predicate StoreOk(ca: Store, nv: nat) {
    forall cr :: 0 <= cr < |ca| ==>
      |ca[cr].lits| >= 2 && Proper(ca[cr].lits) && VarsBelow(ca[cr].lits, nv) && AttributesOk(ca[cr])
  }

  predicate AttributesOk(c: Clause) { !c.learnt ==> c.attr == FRESH }

  /** Same clauses up to the order of the literals inside each. */
  ghost predicate SameClause(c: Clause, d: Clause) {
    && c.learnt == d.learnt && c.deleted == d.deleted && c.attr == d.attr
    && |c.lits| == |d.lits|
    && forall p :: p in c.lits <==> p in d.lits
  }

  ghost predicate SameStore(ca: Store, ca': Store) {
    |ca| == |ca'| && forall cr :: 0 <= cr < |ca| ==> SameClause(ca[cr], ca'[cr])
  }

  ghost predicate StoreEntailed(f: seq<seq<Lit>>, ca: Store) {
    forall cr :: 0 <= cr < |ca| ==> Entails(f, ca[cr].lits)
  }

  ghost predicate RootEntailed(f: seq<seq<Lit>>, t: Trail) {
    forall a: Assignment :: SatAll(a, f) ==> t.RootHolds(a)
  }

  ghost predicate SatList(a: Assignment, ca: Store, cs: seq<nat>) {
    forall k :: 0 <= k < |cs| && cs[k] < |ca| ==> SatClause(a, ca[cs[k]].lits)
  }

  /** The problem clauses still stored and the root facts are together as strong as everything added. */
  ghost predicate Recovers(f: seq<seq<Lit>>, ca: Store, cs: seq<nat>, t: Trail) {
    forall a: Assignment :: SatList(a, ca, cs) && t.RootHolds(a) ==> SatAll(a, f)
  }

  /** The variable occurs in some clause. */
  ghost predicate Mentioned(f: seq<seq<Lit>>, v: nat) { exists c, q :: c in f && q in c && q.v == v }

  /** The clauses listed have only variables of the formula. */
  ghost predicate ListWithin(f: seq<seq<Lit>>, ca: Store, cs: seq<nat>) {
    forall k, q :: 0 <= k < |cs| && cs[k] < |ca| && q in ca[cs[k]].lits ==> Mentioned(f, q.v)
  }

  ghost predicate DbImplies(f: seq<seq<Lit>>, ca: Store, cs: seq<nat>, t: Trail) {
    Recovers(f, ca, cs, t) && ListWithin(f, ca, cs)
  }

  lemma MentionedMore(f: seq<seq<Lit>>, c: seq<Lit>)
    ensures forall v: nat :: Mentioned(f, v) ==> Mentioned(f + [c], v)
    ensures forall q :: q in c ==> Mentioned(f + [c], q.v)
  {
    forall v: nat | Mentioned(f, v) ensures Mentioned(f + [c], v) {
      var d, q :| d in f && q in d && q.v == v;
      assert d in f + [c];
    }
    assert c in f + [c];
  }

  /** `cs` lists distinct stored clauses of the given kind. */
  ghost predicate ListOk(ca: Store, cs: seq<nat>, learnt: bool) {
    && (forall k :: 0 <= k < |cs| ==> cs[k] < |ca| && !ca[cs[k]].deleted && ca[cs[k]].learnt == learnt)
    && (forall k, l :: 0 <= k < l < |cs| ==> cs[k] != cs[l])
  }

  // ---------------------------------------------------------------- watches

  ghost predicate Watched(ws: seq<Watcher>, cr: nat) {
    exists k :: 0 <= k < |ws| && ws[k].cref == cr
  }

  predicate LongFits(ca: Store, p: Lit, w: Watcher) {
    && w.cref < |ca|
    && var c := ca[w.cref].lits;
    && |c| > 2 && (c[0] == Neg(p) || c[1] == Neg(p)) && w.blocker in c && w.blocker != Neg(p)
  }

  predicate BinFits(ca: Store, p: Lit, w: Watcher) {
    && w.cref < |ca|
    && var c := ca[w.cref].lits;
    && |c| == 2 && (c == [Neg(p), w.blocker] || c == [w.blocker, Neg(p)])
  }

  ghost predicate Distinct(ws: seq<Watcher>) {
    forall i, j :: 0 <= i < j < |ws| ==> ws[i].cref != ws[j].cref
  }

  ghost predicate LongListOk(ca: Store, p: Lit, ws: seq<Watcher>) {
    (forall k :: 0 <= k < |ws| ==> LongFits(ca, p, ws[k])) && Distinct(ws)
  }

  ghost predicate BinListOk(ca: Store, p: Lit, ws: seq<Watcher>) {
    (forall k :: 0 <= k < |ws| ==> BinFits(ca, p, ws[k])) && Distinct(ws)
  }

  ghost predicate KeysOk(ws: WatchLists, nv: nat) {
    forall p: Lit :: p in ws <==> p.v < nv
  }

  ghost predicate Covers(ca: Store, ws: WatchLists, long: bool) {
    forall cr :: 0 <= cr < |ca| && !ca[cr].deleted && |ca[cr].lits| >= 2 && (|ca[cr].lits| > 2) == long ==>
      forall i :: 0 <= i < 2 ==> Neg(ca[cr].lits[i]) in ws && Watched(ws[Neg(ca[cr].lits[i])], cr)
  }

  ghost predicate LongInv(ca: Store, ws: WatchLists, nv: nat) {
    KeysOk(ws, nv) && (forall p :: p in ws ==> LongListOk(ca, p, ws[p])) && Covers(ca, ws, true)
  }

  ghost predicate BinInv(ca: Store, wb: WatchLists, nv: nat) {
    KeysOk(wb, nv) && (forall p :: p in wb ==> BinListOk(ca, p, wb[p])) && Covers(ca, wb, false)
  }

  /** Watchers of deleted clauses are left only in lists that are marked dirty. */
  ghost predicate LazyInv(ca: Store, ws: WatchLists, dirty: set<Lit>) {
    forall p, k :: p in ws && 0 <= k < |ws[p]| && ws[p][k].cref < |ca| && ca[ws[p][k].cref].deleted ==> p in dirty
  }

  // ---------------------------------------------------------------- the watch invariant

  /** Every clause listed in `ws` has a literal that was true at level `l` already. */
  ghost predicate ListDone(t: Trail, ca: Store, ws: seq<Watcher>, l: nat) {
    forall k :: 0 <= k < |ws| && ws[k].cref < |ca| ==> t.SatBy(ca[ws[k].cref].lits, l)
  }

  /** The first `n` trail literals are propagated. */
  ghost predicate Propagated(t: Trail, ca: Store, ws: WatchLists, n: nat) {
    forall j :: 0 <= j < n && j < |t.lits| && t.lits[j] in ws ==>
      ListDone(t, ca, ws[t.lits[j]], t.Lev(t.lits[j].v))
  }

  // ---------------------------------------------------------------- reasons

  ghost predicate ReasonOk(t: Trail, ca: Store, cr: int, v: nat) {
    && 0 <= cr < |ca| && !ca[cr].deleted
    && var c := ca[cr].lits;
    && |c| >= 2
    && (c[0].v == v || (|c| == 2 && c[1].v == v))
    && (forall p :: p in c ==> if p.v == v then t.Value(p) == True else
          t.Value(p) == False && t.Pos(p.v) < t.Pos(v))
  }

  /** The clause has q where the clause that implied q has it. */
  predicate Holding(ca: Store, cr: int, q: Lit) {
    && 0 <= cr < |ca| && |ca[cr].lits| >= 2
    && (ca[cr].lits[0] == q || (|ca[cr].lits| == 2 && ca[cr].lits[1] == q))
  }

  /** At every level, also at the root and for deleted clauses: a reason is none, or a clause that holds the literal. */
  ghost predicate HeldInv(t: Trail, ca: Store, reason: seq<int>) {
    forall v: nat :: t.Assigned(v) && v < |reason| && reason[v] != CREF_UNDEF ==> Holding(ca, reason[v], t.On(v))
  }

  ghost predicate ReasonInv(t: Trail, ca: Store, reason: seq<int>) {
    && |reason| == |t.asg| && HeldInv(t, ca, reason)
    && (forall v: nat :: t.Assigned(v) && 0 < t.Lev(v) <= |t.lim| ==>
          if reason[v] == CREF_UNDEF then t.Pos(v) == t.lim[t.Lev(v) - 1] else ReasonOk(t, ca, reason[v], v))
  }

  // ---------------------------------------------------------------- the whole state

  datatype State = State(t: Trail, ca: Store, clauses: seq<nat>, ws: WatchLists, wb: WatchLists,
                         dirty: set<Lit>, dirtyBin: set<Lit>, reason: seq<int>, qhead: nat, formula: seq<seq<Lit>>) {

    ghost predicate Structure() {
      && t.Ok()
      && StoreOk(ca, |t.asg|)
      && LongInv(ca, ws, |t.asg|) && BinInv(ca, wb, |t.asg|)
      && LazyInv(ca, ws, dirty) && LazyInv(ca, wb, dirtyBin)
      && ReasonInv(t, ca, reason)
      && qhead <= |t.lits|
    }

    /** What is stored follows from the formula, and the formula from what is stored. */
    ghost predicate Meaning() {
      && StoreEntailed(formula, ca)
      && RootEntailed(formula, t)
      && DbImplies(formula, ca, clauses, t)
    }

    ghost predicate Done(n: nat) {
      Propagated(t, ca, ws, n) && Propagated(t, ca, wb, n)
    }

    /** All invariants, with at least the lower decision levels propagated. */
    ghost predicate Sound() {
      Structure() && Meaning() && Done(t.Root())
    }

    /** `p` is the literal at the head of the queue; everything before it is propagated. */
    ghost predicate Propagating(p: Lit) {
      && Structure() && Meaning()
      && dirty == {} && dirtyBin == {}
      && t.Root() < qhead && t.lits[qhead - 1] == p
      && Done(qhead - 1)
    }

    /** Every literal of the clause is false, one of them set at the current level. */
    ghost predicate Conflict(confl: int) {
      && 0 <= confl < |ca|
      && t.AllFalse(ca[confl].lits)
      && exists q :: q in ca[confl].lits && t.Lev(q.v) == |t.lim|
    }

    /**
     * What a conflict leaves in the queue: nothing after a long clause; after a binary one the head is just behind the
     * literal whose watchers conflict, with the other literal still waiting.
     */
    ghost predicate QueueLeft(confl: int) {
      && 0 <= confl < |ca|
      && (qhead == |t.lits| <==> |ca[confl].lits| > 2)
      && (|ca[confl].lits| <= 2 ==> 1 <= qhead < |t.lits| && Neg(t.lits[qhead - 1]) in ca[confl].lits)
    }

    ghost predicate RootFact(p: Lit) {
      |t.lim| == 0 ==> forall a: Assignment :: SatAll(a, formula) ==> Holds(a, p)
    }

    /** `p` may be enqueued with the given reason. */
    ghost predicate MayEnqueue(p: Lit, from: int) {
      p.v < |t.asg| && t.Value(p) == Undef && Forces(t, ca, from, p) && RootFact(p)
    }

    function Enqueue(p: Lit, from: int): State
      requires p.v < |t.asg| && t.Sizes() && |reason| == |t.asg|
    {
      this.(t := t.Enqueue(p), reason := reason[p.v := from])
    }
  }

  // ================================================================ lemmas

  /** Later assignments keep what earlier ones said. */
  ghost predicate Extends(t: Trail, t': Trail) {
    && |t.asg| == |t'.asg|
    && t.lits <= t'.lits && t.lim == t'.lim
    && (forall v: nat :: t.Assigned(v) ==> t'.asg[v] == t.asg[v] && t'.Lev(v) == t.Lev(v) && t'.Pos(v) == t.Pos(v))
  }

  lemma EnqueueOk(t: Trail, p: Lit)
    requires t.Ok() && p.v < |t.asg| && t.Value(p) == Undef
    ensures t.Enqueue(p).Ok() && Extends(t, t.Enqueue(p))
    ensures t.Enqueue(p).Value(p) == True && t.Enqueue(p).Lev(p.v) == |t.lim|
  {
    var t' := t.Enqueue(p);
    assert !t.Assigned(p.v);
    forall j | 0 <= j < |t'.lits|
      ensures t'.lits[j].v < |t'.asg| && t'.Pos(t'.lits[j].v) == j && t'.Value(t'.lits[j]) == True
    {
      if j < |t.lits| {
        assert t'.lits[j] == t.lits[j];
        assert t.Value(t.lits[j]) == True;
      }
    }
    forall v: nat | t'.Assigned(v) && v != p.v ensures t.Assigned(v) && t'.Pos(v) == t.Pos(v)
      && t'.Lev(v) == t.Lev(v) {}
    assert t'.StackOk();
  }

  lemma ExtendsSatBy(t: Trail, t': Trail, c: seq<Lit>, l: nat)
    requires Extends(t, t') && t.SatBy(c, l)
    ensures t'.SatBy(c, l)
  {
    var p :| p in c && t.Value(p) == True && t.Lev(p.v) <= l;
    assert t.Assigned(p.v);
    assert t'.Value(p) == True;
  }

  lemma ExtendsDone(t: Trail, t': Trail, ca: Store, ws: seq<Watcher>, l: nat)
    requires Extends(t, t') && ListDone(t, ca, ws, l)
    ensures ListDone(t', ca, ws, l)
  {
    forall k | 0 <= k < |ws| && ws[k].cref < |ca| ensures t'.SatBy(ca[ws[k].cref].lits, l) {
      ExtendsSatBy(t, t', ca[ws[k].cref].lits, l);
    }
  }

  lemma ExtendsPropagated(t: Trail, t': Trail, ca: Store, ws: WatchLists, n: nat)
    requires t.Ok() && t'.Ok() && Extends(t, t') && n <= |t.lits| && Propagated(t, ca, ws, n)
    ensures Propagated(t', ca, ws, n)
  {
    forall j | 0 <= j < n && t'.lits[j] in ws
      ensures ListDone(t', ca, ws[t'.lits[j]], t'.Lev(t'.lits[j].v))
    {
      assert t'.lits[j] == t.lits[j];
      assert t.Value(t.lits[j]) == True;
      ExtendsDone(t, t', ca, ws[t.lits[j]], t.Lev(t.lits[j].v));
    }
  }

  lemma ExtendsRefl(t: Trail)
    ensures Extends(t, t)
  {}

  lemma ExtendsLim(t: Trail, t': Trail)
    requires Extends(t, t')
    ensures t.lim == t'.lim
  {}

  lemma ExtendsTrans(t: Trail, t': Trail, t'': Trail)
    requires Extends(t, t') && Extends(t', t'')
    ensures Extends(t, t'')
  {
    forall v: nat | t.Assigned(v) ensures t''.asg[v] == t.asg[v] && t''.Lev(v) == t.Lev(v) && t''.Pos(v) == t.Pos(v) {
      assert t'.Assigned(v);
    }
  }

  lemma DoneNil(t: Trail, ca: Store, l: nat)
    ensures ListDone(t, ca, [], l)
  {}

  /** One more watcher of a scanned list is done. */
  lemma DoneAppend(t: Trail, t': Trail, ca: Store, ws: seq<Watcher>, w: Watcher, l: nat)
    requires ListDone(t, ca, ws, l) && Extends(t, t') && w.cref < |ca| && t'.SatBy(ca[w.cref].lits, l)
    ensures ListDone(t', ca, ws + [w], l)
  {
    ExtendsDone(t, t', ca, ws, l);
  }

  lemma SameStoreRefl(ca: Store)
    ensures SameStore(ca, ca)
  {}

  lemma SameStoreTrans(ca: Store, ca': Store, ca'': Store)
    requires SameStore(ca, ca') && SameStore(ca', ca'')
    ensures SameStore(ca, ca'')
  {
    forall cr | 0 <= cr < |ca| ensures SameClause(ca[cr], ca''[cr]) {
      assert SameClause(ca[cr], ca'[cr]) && SameClause(ca'[cr], ca''[cr]);
    }
  }

  lemma SameStoreDone(t: Trail, ca: Store, ca': Store, ws: seq<Watcher>, l: nat)
    requires SameStore(ca, ca') && ListDone(t, ca, ws, l)
    ensures ListDone(t, ca', ws, l)
  {
    forall k | 0 <= k < |ws| && ws[k].cref < |ca'| ensures t.SatBy(ca'[ws[k].cref].lits, l) {
      var cr := ws[k].cref;
      assert SameClause(ca[cr], ca'[cr]);
      var p :| p in ca[cr].lits && t.Value(p) == True && t.Lev(p.v) <= l;
      assert p in ca'[cr].lits;
    }
  }

  lemma SameStorePropagated(t: Trail, ca: Store, ca': Store, ws: WatchLists, n: nat)
    requires SameStore(ca, ca') && Propagated(t, ca, ws, n)
    ensures Propagated(t, ca', ws, n)
  {
    forall j | 0 <= j < n && j < |t.lits| && t.lits[j] in ws
      ensures ListDone(t, ca', ws[t.lits[j]], t.Lev(t.lits[j].v))
    {
      SameStoreDone(t, ca, ca', ws[t.lits[j]], t.Lev(t.lits[j].v));
    }
  }

  lemma SameStoreWithin(f: seq<seq<Lit>>, ca: Store, ca': Store, cs: seq<nat>)
    requires SameStore(ca, ca') && ListWithin(f, ca, cs)
    ensures ListWithin(f, ca', cs)
  {
    hide Mentioned;
    forall k, q | 0 <= k < |cs| && cs[k] < |ca'| && q in ca'[cs[k]].lits ensures Mentioned(f, q.v) {
      assert SameClause(ca[cs[k]], ca'[cs[k]]);
    }
  }

  lemma SameStoreMeaning(f: seq<seq<Lit>>, ca: Store, ca': Store, cs: seq<nat>, t: Trail)
    requires SameStore(ca, ca')
    ensures StoreEntailed(f, ca) ==> StoreEntailed(f, ca')
    ensures DbImplies(f, ca, cs, t) ==> DbImplies(f, ca', cs, t)
  {
    forall cr, a: Assignment | 0 <= cr < |ca|
      ensures SatClause(a, ca[cr].lits) <==> SatClause(a, ca'[cr].lits)
    {
      assert SameClause(ca[cr], ca'[cr]);
      if SatClause(a, ca[cr].lits) {
        var p :| p in ca[cr].lits && Holds(a, p);
        assert p in ca'[cr].lits;
      }
      if SatClause(a, ca'[cr].lits) {
        var p :| p in ca'[cr].lits && Holds(a, p);
        assert p in ca[cr].lits;
      }
    }
    if DbImplies(f, ca, cs, t) {
      forall a: Assignment | SatList(a, ca', cs) && t.RootHolds(a) ensures SatAll(a, f) {
        assert SatList(a, ca, cs);
      }
      SameStoreWithin(f, ca, ca', cs);
    }
  }

  lemma SameStoreLists(ca: Store, ca': Store, cs: seq<nat>, learnt: bool)
    requires SameStore(ca, ca') && ListOk(ca, cs, learnt)
    ensures ListOk(ca', cs, learnt)
  {
    forall k | 0 <= k < |cs| ensures cs[k] < |ca'| && !ca'[cs[k]].deleted && ca'[cs[k]].learnt == learnt {
      assert SameClause(ca[cs[k]], ca'[cs[k]]);
    }
  }

  lemma RootFalse(t: Trail, a: Assignment, q: Lit)
    requires t.RootHolds(a) && t.Value(q) == False && t.Lev(q.v) == 0
    ensures !Holds(a, q)
  {
    assert t.Assigned(q.v);
    assert Holds(a, t.On(q.v));
  }

  lemma UnitEntailed(f: seq<seq<Lit>>, t: Trail, c: seq<Lit>, p: Lit)
    requires t.Ok() && |t.lim| == 0 && RootEntailed(f, t) && Entails(f, c)
    requires forall q :: q in c && q != p ==> t.Value(q) == False
    ensures forall a: Assignment :: SatAll(a, f) ==> Holds(a, p)
  {
    forall a: Assignment | SatAll(a, f) ensures Holds(a, p) {
      assert SatClause(a, c);
      var q :| q in c && Holds(a, q);
      if q != p { RootFalse(t, a, q); }
    }
  }

  lemma AllFalseUnsat(f: seq<seq<Lit>>, t: Trail, c: seq<Lit>)
    requires t.Ok() && |t.lim| == 0 && RootEntailed(f, t) && Entails(f, c) && t.AllFalse(c)
    ensures Unsat(f)
  {
    forall a: Assignment ensures !SatAll(a, f) {
      if SatAll(a, f) {
        assert SatClause(a, c);
        var q :| q in c && Holds(a, q);
        RootFalse(t, a, q);
      }
    }
  }

  lemma EnqueueRoot(f: seq<seq<Lit>>, ca: Store, cs: seq<nat>, t: Trail, p: Lit)
    requires t.Ok() && p.v < |t.asg| && t.Value(p) == Undef
    requires RootEntailed(f, t) && DbImplies(f, ca, cs, t)
    requires |t.lim| == 0 ==> forall a: Assignment :: SatAll(a, f) ==> Holds(a, p)
    ensures RootEntailed(f, t.Enqueue(p)) && DbImplies(f, ca, cs, t.Enqueue(p))
  {
    var t' := t.Enqueue(p);
    forall a: Assignment | t'.RootHolds(a) ensures t.RootHolds(a) {
      forall v: nat | t.Assigned(v) && t.Lev(v) == 0 ensures Holds(a, t.On(v)) {
        assert t'.Assigned(v) && t'.Lev(v) == 0;
        assert t'.On(v) == t.On(v);
      }
    }
    forall a: Assignment | SatAll(a, f) ensures t'.RootHolds(a) {
      assert t.RootHolds(a);
      forall v: nat | t'.Assigned(v) && t'.Lev(v) == 0 ensures Holds(a, t'.On(v)) {
        if v == p.v {
          assert t'.On(v) == p;
        } else {
          assert t.Assigned(v) && t.Lev(v) == 0;
          assert t'.On(v) == t.On(v);
        }
      }
    }
  }

  /** What an enqueued literal must come with: the clause that forces it, or nothing for a decision or a root fact. */
  ghost predicate Forces(t: Trail, ca: Store, cr: int, p: Lit) {
    if cr == CREF_UNDEF then |t.lits| == t.Root() || |t.lim| == 0 else
    && 0 <= cr < |ca| && !ca[cr].deleted
    && var c := ca[cr].lits;
    && |c| >= 2
    && (c[0] == p || (|c| == 2 && c[1] == p))
    && (forall q :: q in c && q != p ==> t.Value(q) == False)
  }

  lemma ReasonExtends(t: Trail, t': Trail, ca: Store, cr: int, v: nat)
    requires Extends(t, t') && ReasonOk(t, ca, cr, v) && t.Assigned(v)
    ensures ReasonOk(t', ca, cr, v)
  {
    forall q | q in ca[cr].lits
      ensures if q.v == v then t'.Value(q) == True else t'.Value(q) == False && t'.Pos(q.v) < t'.Pos(v)
    {
      assert t.Assigned(q.v);
    }
  }

  lemma ForcedReason(t: Trail, ca: Store, cr: int, p: Lit)
    requires t.Ok() && p.v < |t.asg| && t.Value(p) == Undef
    requires Forces(t, ca, cr, p) && cr != CREF_UNDEF
    ensures ReasonOk(t.Enqueue(p), ca, cr, p.v)
  {
    var t' := t.Enqueue(p);
    forall q | q in ca[cr].lits
      ensures if q.v == p.v then t'.Value(q) == True else t'.Value(q) == False && t'.Pos(q.v) < t'.Pos(p.v)
    {
      if q != p {
        assert t.Value(q) == False;
        assert t.Assigned(q.v);
      }
    }
  }

  lemma EnqueueHeld(t: Trail, ca: Store, reason: seq<int>, p: Lit, from: int)
    requires t.Sizes() && p.v < |t.asg| == |reason| && t.Value(p) == Undef
    requires HeldInv(t, ca, reason) && Forces(t, ca, from, p)
    ensures HeldInv(t.Enqueue(p), ca, reason[p.v := from])
  {
    hide Holding;
    var t', reason' := t.Enqueue(p), reason[p.v := from];
    forall v: nat | t'.Assigned(v) && v < |reason'| && reason'[v] != CREF_UNDEF
      ensures Holding(ca, reason'[v], t'.On(v))
    {
      if v == p.v {
        ForcedHeld(t, ca, from, p);
        assert t'.On(v) == p;
      } else {
        assert t.Assigned(v) && t'.On(v) == t.On(v);
      }
    }
  }

  lemma ForcedHeld(t: Trail, ca: Store, from: int, p: Lit)
    requires Forces(t, ca, from, p) && from != CREF_UNDEF
    ensures Holding(ca, from, p)
  {}

  lemma EnqueueReason(t: Trail, ca: Store, reason: seq<int>, p: Lit, from: int)
    requires t.Ok() && p.v < |t.asg| && t.Value(p) == Undef
    requires ReasonInv(t, ca, reason) && Forces(t, ca, from, p)
    ensures ReasonInv(t.Enqueue(p), ca, reason[p.v := from])
  {
    hide HeldInv;
    var t' := t.Enqueue(p);
    var reason' := reason[p.v := from];
    EnqueueOk(t, p);
    EnqueueHeld(t, ca, reason, p, from);
    forall v: nat | t'.Assigned(v) && 0 < t'.Lev(v) <= |t'.lim|
      ensures if reason'[v] == CREF_UNDEF then t'.Pos(v) == t'.lim[t'.Lev(v) - 1]
              else ReasonOk(t', ca, reason'[v], v)
    {
      if v == p.v {
        if from != CREF_UNDEF { ForcedReason(t, ca, from, p); }
      } else {
        assert t.Assigned(v);
        if reason[v] != CREF_UNDEF { ReasonExtends(t, t', ca, reason[v], v); }
      }
    }
  }

  // ---------------------------------------------------------------- rearranging a clause

  function Swap(c: seq<Lit>, i: nat, j: nat): seq<Lit>
    requires i < |c| && j < |c|
  {
    c[i := c[j]][j := c[i]]
  }

  function SwapIn(ca: Store, cr: nat, i: nat, j: nat): Store
    requires cr < |ca| && i < |ca[cr].lits| && j < |ca[cr].lits|
  {
    ca[cr := ca[cr].(lits := Swap(ca[cr].lits, i, j))]
  }

  lemma SwapSame(c: seq<Lit>, i: nat, j: nat)
    requires i < |c| && j < |c|
    ensures |Swap(c, i, j)| == |c|
    ensures forall p :: p in c <==> p in Swap(c, i, j)
    ensures Proper(c) ==> Proper(Swap(c, i, j))
    ensures forall n: nat :: VarsBelow(c, n) ==> VarsBelow(Swap(c, i, j), n)
  {
    var d := Swap(c, i, j);
    forall p ensures p in c <==> p in d {
      if p in c {
        var k :| 0 <= k < |c| && c[k] == p;
        assert d[if k == i then j else if k == j then i else k] == p;
      }
      if p in d {
        var k :| 0 <= k < |d| && d[k] == p;
        assert c[if k == i then j else if k == j then i else k] == p;
      }
    }
  }

  lemma SwapStore(ca: Store, cr: nat, i: nat, j: nat, nv: nat)
    requires cr < |ca| && i < |ca[cr].lits| && j < |ca[cr].lits| && StoreOk(ca, nv)
    ensures SameStore(ca, SwapIn(ca, cr, i, j)) && StoreOk(SwapIn(ca, cr, i, j), nv)
  {
    SwapSame(ca[cr].lits, i, j);
  }

  lemma SwapHeld(t: Trail, ca: Store, reason: seq<int>, cr: nat, i: nat, j: nat)
    requires HeldInv(t, ca, reason) && cr < |ca| && i < |ca[cr].lits| && j < |ca[cr].lits|
    requires |ca[cr].lits| == 2 || t.Value(ca[cr].lits[0]) == False || (i > 0 && j > 0)
    ensures HeldInv(t, SwapIn(ca, cr, i, j), reason)
  {
    forall v: nat | t.Assigned(v) && v < |reason| && reason[v] != CREF_UNDEF
      ensures Holding(SwapIn(ca, cr, i, j), reason[v], t.On(v))
    {
      assert Holding(ca, reason[v], t.On(v)) && t.Value(t.On(v)) == True;
    }
  }

  /** A clause whose first literal is false is nobody's reason; otherwise the first literal stays in place. */
  lemma SwapReason(t: Trail, ca: Store, reason: seq<int>, cr: nat, i: nat, j: nat, nv: nat)
    requires StoreOk(ca, nv) && ReasonInv(t, ca, reason)
    requires cr < |ca| && i < |ca[cr].lits| && j < |ca[cr].lits|
    requires |ca[cr].lits| == 2 || t.Value(ca[cr].lits[0]) == False || (i > 0 && j > 0)
    ensures ReasonInv(t, SwapIn(ca, cr, i, j), reason)
  {
    hide HeldInv;
    SwapStore(ca, cr, i, j, nv);
    SwapHeld(t, ca, reason, cr, i, j);
    var ca' := SwapIn(ca, cr, i, j);
    forall v: nat | t.Assigned(v) && 0 < t.Lev(v) <= |t.lim| && reason[v] != CREF_UNDEF
      ensures ReasonOk(t, ca', reason[v], v)
    {
      assert ReasonOk(t, ca, reason[v], v);
      if reason[v] == cr {
        assert ca[cr].lits[0] in ca[cr].lits;
        assert SameClause(ca[cr], ca'[cr]);
      }
    }
  }

  lemma SwapLongLists(ca: Store, ws: WatchLists, nv: nat, cr: nat)
    requires StoreOk(ca, nv) && cr < |ca| && |ca[cr].lits| > 2 && LongInv(ca, ws, nv)
    ensures LongInv(SwapIn(ca, cr, 0, 1), ws, nv)
  {
    SwapStore(ca, cr, 0, 1, nv);
    var ca' := SwapIn(ca, cr, 0, 1);
    forall p | p in ws ensures LongListOk(ca', p, ws[p]) {
      forall k | 0 <= k < |ws[p]| ensures LongFits(ca', p, ws[p][k]) {
        assert LongFits(ca, p, ws[p][k]);
        assert SameClause(ca[cr], ca'[cr]);
      }
    }
    forall x, i | 0 <= x < |ca'| && !ca'[x].deleted && |ca'[x].lits| >= 2 && |ca'[x].lits| > 2 && 0 <= i < 2
      ensures Neg(ca'[x].lits[i]) in ws && Watched(ws[Neg(ca'[x].lits[i])], x)
    {
      assert SameClause(ca[x], ca'[x]);
      assert ca'[x].lits[i] == ca[x].lits[if x == cr then 1 - i else i];
    }
  }

  /** A long clause does not occur in the binary lists. */
  lemma LongSwapBin(ca: Store, wb: WatchLists, nv: nat, cr: nat, i: nat, j: nat)
    requires StoreOk(ca, nv) && cr < |ca| && |ca[cr].lits| > 2 && BinInv(ca, wb, nv)
    requires i < |ca[cr].lits| && j < |ca[cr].lits|
    ensures BinInv(SwapIn(ca, cr, i, j), wb, nv)
  {
    SwapStore(ca, cr, i, j, nv);
    var ca' := SwapIn(ca, cr, i, j);
    forall p | p in wb ensures BinListOk(ca', p, wb[p]) {
      forall k | 0 <= k < |wb[p]| ensures BinFits(ca', p, wb[p][k]) {
        assert BinFits(ca, p, wb[p][k]);
      }
    }
    forall x, i | 0 <= x < |ca'| && !ca'[x].deleted && |ca'[x].lits| >= 2 && !(|ca'[x].lits| > 2) && 0 <= i < 2
      ensures Neg(ca'[x].lits[i]) in wb && Watched(wb[Neg(ca'[x].lits[i])], x)
    {
      assert x != cr;
      assert ca'[x] == ca[x];
    }
  }

  // ---------------------------------------------------------------- moving a watch

  /** The watch lists after a clause left the list of p (now `l`) for the list of q. */
  function MoveWatch(ws: WatchLists, p: Lit, l: seq<Watcher>, q: Lit, w: Watcher): WatchLists
    requires q in ws
  {
    ws[p := l][q := ws[q] + [w]]
  }

  lemma DropMiddle(ca: Store, p: Lit, kept: seq<Watcher>, w: Watcher, rest: seq<Watcher>)
    requires LongListOk(ca, p, kept + [w] + rest)
    ensures LongListOk(ca, p, kept + rest)
    ensures forall x :: Watched(kept + [w] + rest, x) && x != w.cref ==> Watched(kept + rest, x)
    ensures !Watched(kept + rest, w.cref)
  {
    var a, b := kept + [w] + rest, kept + rest;
    assert forall k :: 0 <= k < |b| ==> b[k] == a[if k < |kept| then k else k + 1];
    assert a[|kept|] == w;
    forall x | Watched(a, x) && x != w.cref ensures Watched(b, x) {
      var k :| 0 <= k < |a| && a[k].cref == x;
      assert b[if k < |kept| then k else k - 1].cref == x;
    }
  }

  /** Trading literals 1 and k of `cr` leaves every watcher in place that does not sit on literal 1. */
  lemma SwapFits(ca: Store, cr: nat, k: nat, r: Lit, w: Watcher)
    requires cr < |ca| && 2 <= k < |ca[cr].lits| && LongFits(ca, r, w)
    requires w.cref == cr ==> ca[cr].lits[1] != Neg(r)
    ensures LongFits(SwapIn(ca, cr, 1, k), r, w)
  {
    SwapSame(ca[cr].lits, 1, k);
  }

  lemma SwapFitsList(ca: Store, cr: nat, k: nat, r: Lit, ws: seq<Watcher>)
    requires cr < |ca| && 2 <= k < |ca[cr].lits| && LongListOk(ca, r, ws)
    requires Watched(ws, cr) ==> ca[cr].lits[1] != Neg(r)
    ensures LongListOk(SwapIn(ca, cr, 1, k), r, ws)
  {
    forall i | 0 <= i < |ws| ensures LongFits(SwapIn(ca, cr, 1, k), r, ws[i]) {
      SwapFits(ca, cr, k, r, ws[i]);
    }
  }

  lemma NotWatched(ca: Store, r: Lit, ws: seq<Watcher>, cr: nat)
    requires LongListOk(ca, r, ws) && cr < |ca| && |ca[cr].lits| > 2
    requires ca[cr].lits[0] != Neg(r) && ca[cr].lits[1] != Neg(r)
    ensures !Watched(ws, cr)
  {
  }

  lemma AppendList(ca: Store, r: Lit, ws: seq<Watcher>, w: Watcher)
    requires LongListOk(ca, r, ws) && LongFits(ca, r, w) && !Watched(ws, w.cref)
    ensures LongListOk(ca, r, ws + [w]) && Watched(ws + [w], w.cref)
    ensures forall x :: Watched(ws, x) ==> Watched(ws + [w], x)
  {
    assert (ws + [w])[|ws|] == w;
    forall x | Watched(ws, x) ensures Watched(ws + [w], x) {
      var i :| 0 <= i < |ws| && ws[i].cref == x;
      assert (ws + [w])[i].cref == x;
    }
  }

  lemma MoveWatchLists(ca: Store, ws: WatchLists, nv: nat, p: Lit, kept: seq<Watcher>, w0: Watcher, rest: seq<Watcher>,
      w: Watcher, k: nat)
    requires StoreOk(ca, nv) && LongInv(ca, ws, nv)
    requires p in ws && ws[p] == kept + [w0] + rest && w.cref == w0.cref < |ca|
    requires 2 <= k < |ca[w.cref].lits| && ca[w.cref].lits[1] == Neg(p) && w.blocker == ca[w.cref].lits[0]
    ensures var ca', q := SwapIn(ca, w.cref, 1, k), Neg(ca[w.cref].lits[k]);
      && q in ws && q != p
      && LongListOk(ca', p, kept + rest)
      && LongListOk(ca', q, ws[q] + [w]) && Watched(ws[q] + [w], w.cref)
      && (forall x :: Watched(ws[p], x) && x != w.cref ==> Watched(kept + rest, x))
      && (forall x :: Watched(ws[q], x) ==> Watched(ws[q] + [w], x))
      && (forall r :: r in ws && r != p ==> LongListOk(ca', r, ws[r]))
  {
    var cr, c := w.cref, ca[w.cref].lits;
    var q := Neg(c[k]);
    assert Proper(c) && VarsBelow(c, nv);
    DropMiddle(ca, p, kept, w0, rest);
    SwapFitsList(ca, cr, k, p, kept + rest);
    forall r | r in ws && r != p ensures LongListOk(SwapIn(ca, cr, 1, k), r, ws[r]) {
      SwapFitsList(ca, cr, k, r, ws[r]);
    }
    NotWatched(ca, q, ws[q], cr);
    SwapSame(c, 1, k);
    AppendList(SwapIn(ca, cr, 1, k), q, ws[q], w);
  }

  lemma MoveWatchCovers(ca: Store, ca': Store, ws: WatchLists, p: Lit, l: seq<Watcher>, q: Lit, w: Watcher, k: nat)
    requires p in ws && q in ws && p != q && Covers(ca, ws, true)
    requires w.cref < |ca| && 2 <= k < |ca[w.cref].lits| && ca' == SwapIn(ca, w.cref, 1, k)
    requires ca[w.cref].lits[0] != Neg(p) && Neg(ca[w.cref].lits[k]) == q
    requires forall x :: Watched(ws[p], x) && x != w.cref ==> Watched(l, x)
    requires forall x :: Watched(ws[q], x) ==> Watched(ws[q] + [w], x)
    requires Watched(ws[q] + [w], w.cref)
    ensures Covers(ca', MoveWatch(ws, p, l, q, w), true)
  {
    var ws' := MoveWatch(ws, p, l, q, w);
    forall x, i | 0 <= x < |ca'| && !ca'[x].deleted && |ca'[x].lits| >= 2 && (|ca'[x].lits| > 2) == true && 0 <= i < 2
      ensures Neg(ca'[x].lits[i]) in ws' && Watched(ws'[Neg(ca'[x].lits[i])], x)
    {
      if !(x == w.cref && i == 1) {
        assert ca'[x].lits[i] == ca[x].lits[i];
        assert Watched(ws[Neg(ca[x].lits[i])], x);
      }
    }
  }

  lemma MoveWatchOk(ca: Store, ws: WatchLists, nv: nat, p: Lit, kept: seq<Watcher>, w0: Watcher, rest: seq<Watcher>,
      w: Watcher, k: nat)
    requires StoreOk(ca, nv) && LongInv(ca, ws, nv)
    requires p in ws && ws[p] == kept + [w0] + rest && w.cref == w0.cref < |ca|
    requires 2 <= k < |ca[w.cref].lits| && ca[w.cref].lits[1] == Neg(p) && w.blocker == ca[w.cref].lits[0]
    ensures Neg(ca[w.cref].lits[k]) in ws && Neg(ca[w.cref].lits[k]) != p
    ensures LongInv(SwapIn(ca, w.cref, 1, k), MoveWatch(ws, p, kept + rest, Neg(ca[w.cref].lits[k]), w), nv)
  {
    var q := Neg(ca[w.cref].lits[k]);
    assert Proper(ca[w.cref].lits);
    MoveWatchLists(ca, ws, nv, p, kept, w0, rest, w, k);
    MoveWatchCovers(ca, SwapIn(ca, w.cref, 1, k), ws, p, kept + rest, q, w, k);
  }

  /** The watcher that stays may get a new blocker, any literal of its clause but the watched one. */
  lemma KeepWatchOk(ca: Store, ws: WatchLists, nv: nat, p: Lit, kept: seq<Watcher>, w0: Watcher, rest: seq<Watcher>,
      w: Watcher)
    requires LongInv(ca, ws, nv)
    requires p in ws && ws[p] == kept + [w0] + rest && w.cref == w0.cref && LongFits(ca, p, w)
    ensures LongInv(ca, ws[p := kept + [w] + rest], nv)
  {
    var ws' := ws[p := kept + [w] + rest];
    var a, b := ws[p], ws'[p];
    forall i | 0 <= i < |b| ensures LongFits(ca, p, b[i]) && b[i].cref == a[i].cref {
      if i != |kept| { assert b[i] == a[i]; assert LongFits(ca, p, a[i]); }
    }
    forall x, i | 0 <= x < |ca| && !ca[x].deleted && |ca[x].lits| >= 2 && |ca[x].lits| > 2 && 0 <= i < 2
      ensures Neg(ca[x].lits[i]) in ws' && Watched(ws'[Neg(ca[x].lits[i])], x)
    {
      assert Watched(ws[Neg(ca[x].lits[i])], x);
      if Neg(ca[x].lits[i]) == p {
        var m :| 0 <= m < |a| && a[m].cref == x;
        assert b[m].cref == x;
      }
    }
  }

  // ---------------------------------------------------------------- the remaining invariants under these changes

  ghost predicate Live(ca: Store, ws: seq<Watcher>) {
    forall k :: 0 <= k < |ws| && ws[k].cref < |ca| ==> !ca[ws[k].cref].deleted
  }

  lemma CleanLive(ca: Store, ws: WatchLists, p: Lit)
    requires LazyInv(ca, ws, {}) && p in ws
    ensures Live(ca, ws[p])
  {}

  lemma LiveReplace(ca: Store, kept: seq<Watcher>, w0: Watcher, rest: seq<Watcher>, w: Watcher)
    requires Live(ca, kept + [w0] + rest) && w.cref == w0.cref < |ca|
    ensures Live(ca, kept + [w] + rest) && Live(ca, kept + rest) && !ca[w.cref].deleted
  {
    var a, b, c := kept + [w0] + rest, kept + [w] + rest, kept + rest;
    assert a[|kept|] == w0;
    forall k | 0 <= k < |b| && b[k].cref < |ca| ensures !ca[b[k].cref].deleted {
      assert b[k].cref == a[k].cref;
    }
    forall k | 0 <= k < |c| && c[k].cref < |ca| ensures !ca[c[k].cref].deleted {
      assert c[k] == a[if k < |kept| then k else k + 1];
    }
  }

  lemma UpdateClean(ca: Store, ws: WatchLists, p: Lit, l: seq<Watcher>)
    requires LazyInv(ca, ws, {}) && Live(ca, l)
    ensures LazyInv(ca, ws[p := l], {})
  {}

  lemma SameStoreLazy(ca: Store, ca': Store, ws: WatchLists, dirty: set<Lit>)
    requires SameStore(ca, ca') && LazyInv(ca, ws, dirty)
    ensures LazyInv(ca', ws, dirty)
  {
    forall p, k | p in ws && 0 <= k < |ws[p]| && ws[p][k].cref < |ca'| && ca'[ws[p][k].cref].deleted
      ensures p in dirty
    {
      assert SameClause(ca[ws[p][k].cref], ca'[ws[p][k].cref]);
    }
  }

  /** Lists that do not belong to propagated literals may change freely. */
  lemma PropagatedOther(t: Trail, ca: Store, ws: WatchLists, p: Lit, l: seq<Watcher>, n: nat)
    requires Propagated(t, ca, ws, n) && forall j :: 0 <= j < n && j < |t.lits| ==> t.lits[j] != p
    ensures Propagated(t, ca, ws[p := l], n)
  {
    forall j | 0 <= j < n && j < |t.lits| && t.lits[j] in ws[p := l]
      ensures ListDone(t, ca, ws[p := l][t.lits[j]], t.Lev(t.lits[j].v))
    {
      assert t.lits[j] in ws && ws[p := l][t.lits[j]] == ws[t.lits[j]];
    }
  }

  lemma NotBefore(t: Trail, p: Lit, n: nat)
    requires t.StackOk() && (t.Value(p) != True || t.Pos(p.v) >= n)
    ensures forall j :: 0 <= j < n && j < |t.lits| ==> t.lits[j] != p
  {}

  // ================================================================ steps of propagation

  lemma OkSizes(t: Trail)
    requires t.Ok()
    ensures t.Sizes() && forall j :: 0 <= j < |t.lits| ==> t.lits[j].v < |t.asg|
  {}

  lemma EnqueueStructure(s: State, p: Lit, from: int)
    requires s.Structure() && p.v < |s.t.asg| && s.t.Value(p) == Undef && Forces(s.t, s.ca, from, p)
    ensures s.t.Sizes() && |s.reason| == |s.t.asg|
    ensures s.Enqueue(p, from).Structure() && Extends(s.t, s.Enqueue(p, from).t)
    ensures forall n: nat :: n <= |s.t.lits| && s.Done(n) ==> s.Enqueue(p, from).Done(n)
  {
    hide LongInv, BinInv, LazyInv, StoreOk, Propagated, Forces, Extends, ReasonInv;
    StructureFacts(s);
    EnqueueOk(s.t, p);
    EnqueueReason(s.t, s.ca, s.reason, p, from);
    forall n: nat | n <= |s.t.lits| && s.Done(n) ensures s.Enqueue(p, from).Done(n) {
      ExtendsPropagated(s.t, s.t.Enqueue(p), s.ca, s.ws, n);
      ExtendsPropagated(s.t, s.t.Enqueue(p), s.ca, s.wb, n);
    }
  }

  lemma EnqueueStep(s: State, p: Lit, from: int, n: nat)
    requires s.Structure() && s.Meaning() && s.Done(n) && n <= |s.t.lits| && s.MayEnqueue(p, from)
    ensures s.t.Sizes() && |s.reason| == |s.t.asg|
    ensures s.Enqueue(p, from).Structure() && s.Enqueue(p, from).Meaning() && s.Enqueue(p, from).Done(n)
    ensures Extends(s.t, s.Enqueue(p, from).t)
  {
    hide State.Structure, State.Done, StoreEntailed, DbImplies, RootEntailed, Forces, Extends;
    StructureFacts(s);
    EnqueueStructure(s, p, from);
    EnqueueRoot(s.formula, s.ca, s.clauses, s.t, p);
  }

  lemma HeadLevel(s: State, p: Lit)
    requires s.Propagating(p)
    ensures p.v < |s.t.asg| && s.t.Value(p) == True && s.t.Lev(p.v) == |s.t.lim| && s.t.Pos(p.v) == s.qhead - 1
    ensures s.t.Value(Neg(p)) == False && Neg(Neg(p)) == p && p in s.ws && p in s.wb
  {
    hide StoreOk, Covers, LazyInv, StoreEntailed, DbImplies, RootEntailed, Propagated, ReasonInv;
    assert s.t.lits[s.qhead - 1] == p;
    assert s.t.Assigned(p.v);
  }

  lemma PropagatingOk(s: State, p: Lit)
    requires s.Propagating(p)
    ensures s.t.Ok()
  {}

  lemma EnqueueHead(s: State, p: Lit, imp: Lit, cr: nat)
    requires s.Propagating(p) && s.MayEnqueue(imp, cr)
    ensures s.t.Sizes() && |s.reason| == |s.t.asg|
    ensures s.Enqueue(imp, cr).Propagating(p) && Extends(s.t, s.Enqueue(imp, cr).t)
  {
    hide LongInv, BinInv, LazyInv, StoreOk, StoreEntailed, DbImplies, RootEntailed, Propagated, Forces;
    EnqueueStep(s, imp, cr, s.qhead - 1);
  }

  /** What a binary watcher says, by the value of its other literal. */
  lemma BinWatcher(s: State, p: Lit, w: Watcher)
    requires s.Propagating(p) && p in s.wb && w in s.wb[p]
    ensures w.cref < |s.ca| && w.blocker in s.ca[w.cref].lits && w.blocker.v < |s.t.asg|
    ensures s.t.Value(w.blocker) == False ==> s.Conflict(w.cref)
    ensures s.t.Value(w.blocker) == Undef ==> s.MayEnqueue(w.blocker, w.cref)
    ensures s.t.Value(w.blocker) == True ==> s.t.SatBy(s.ca[w.cref].lits, |s.t.lim|)
  {
    hide LongInv, DbImplies, RootEntailed, Propagated, ReasonInv;
    HeadLevel(s, p);
    var k :| 0 <= k < |s.wb[p]| && s.wb[p][k] == w;
    assert BinListOk(s.ca, p, s.wb[p]);
    assert BinFits(s.ca, p, w);
    var c := s.ca[w.cref].lits;
    assert Neg(p) in c && w.blocker in c && forall q :: q in c ==> q == w.blocker || q == Neg(p);
    assert VarsBelow(c, |s.t.asg|);
    if s.t.Value(w.blocker) == Undef && |s.t.lim| == 0 { UnitEntailed(s.formula, s.t, c, w.blocker); }
    if s.t.Value(w.blocker) == True { assert s.t.Assigned(w.blocker.v); }
  }

  /** What the watcher list of p says about one of its clauses. */
  lemma LongWatcher(s: State, p: Lit, kept: seq<Watcher>, w: Watcher, rest: seq<Watcher>)
    requires s.Propagating(p) && p in s.ws && s.ws[p] == kept + [w] + rest
    ensures LongFits(s.ca, p, w) && !s.ca[w.cref].deleted
    ensures Proper(s.ca[w.cref].lits) && VarsBelow(s.ca[w.cref].lits, |s.t.asg|)
    ensures forall q :: q in s.ca[w.cref].lits ==> q.v < |s.t.asg|
    ensures s.t.Value(Neg(p)) == False && s.t.Lev(p.v) == |s.t.lim|
    ensures Entails(s.formula, s.ca[w.cref].lits)
  {
    hide DbImplies, RootEntailed, Entails, Propagated, ReasonInv, BinInv;
    HeadLevel(s, p);
    assert s.ws[p][|kept|] == w;
    assert LongListOk(s.ca, p, s.ws[p]);
  }

  lemma SwapStep(s: State, p: Lit, cr: nat, i: nat, j: nat)
    requires s.Structure() && s.Meaning()
    requires cr < |s.ca| && i < |s.ca[cr].lits| && j < |s.ca[cr].lits| && |s.ca[cr].lits| > 2
    requires s.t.Value(s.ca[cr].lits[0]) == False || (i > 0 && j > 0)
    ensures var ca' := SwapIn(s.ca, cr, i, j);
      && SameStore(s.ca, ca') && StoreOk(ca', |s.t.asg|) && BinInv(ca', s.wb, |s.t.asg|)
      && LazyInv(ca', s.ws, s.dirty) && LazyInv(ca', s.wb, s.dirtyBin) && ReasonInv(s.t, ca', s.reason)
      && s.(ca := ca').Meaning()
      && forall n: nat :: s.Done(n) ==> s.(ca := ca').Done(n)
  {
    hide LongInv, BinInv, LazyInv, StoreEntailed, DbImplies, RootEntailed, Propagated, ReasonInv, LazyInv, StoreOk;
    hide Trail.StackOk, Trail.LevelsOk, SameStore;
    var ca' := SwapIn(s.ca, cr, i, j);
    SwapStore(s.ca, cr, i, j, |s.t.asg|);
    LongSwapBin(s.ca, s.wb, |s.t.asg|, cr, i, j);
    SwapReason(s.t, s.ca, s.reason, cr, i, j, |s.t.asg|);
    SameStoreLazy(s.ca, ca', s.ws, s.dirty);
    SameStoreLazy(s.ca, ca', s.wb, s.dirtyBin);
    SameStoreMeaning(s.formula, s.ca, ca', s.clauses, s.t);
    forall n: nat | s.Done(n) ensures s.(ca := ca').Done(n) {
      SameStorePropagated(s.t, s.ca, ca', s.ws, n);
      SameStorePropagated(s.t, s.ca, ca', s.wb, n);
    }
  }

  lemma NormaliseStep(s: State, p: Lit, cr: nat)
    requires s.Propagating(p)
    requires cr < |s.ca| && |s.ca[cr].lits| > 2 && s.ca[cr].lits[0] == Neg(p)
    ensures s.(ca := SwapIn(s.ca, cr, 0, 1)).Propagating(p)
    ensures SameStore(s.ca, SwapIn(s.ca, cr, 0, 1))
  {
    hide LongInv, BinInv, LazyInv, StoreEntailed, DbImplies, RootEntailed, Propagated, ReasonInv, LazyInv, StoreOk;
    hide SameStore, Trail.Ok;
    HeadLevel(s, p);
    SwapStep(s, p, cr, 0, 1);
    SwapLongLists(s.ca, s.ws, |s.t.asg|, cr);
  }

  /** The list of the literal being propagated may change: that literal is not yet counted as propagated. */
  lemma HeadListFree(s: State, p: Lit, l: seq<Watcher>)
    requires s.Propagating(p)
    ensures s.(ws := s.ws[p := l]).Done(s.qhead - 1)
  {
    hide LongInv, BinInv, LazyInv, StoreEntailed, DbImplies, RootEntailed, Propagated, ReasonInv, StoreOk;
    HeadLevel(s, p);
    NotBefore(s.t, p, s.qhead - 1);
    PropagatedOther(s.t, s.ca, s.ws, p, l, s.qhead - 1);
  }

  lemma KeepStep(s: State, p: Lit, kept: seq<Watcher>, w0: Watcher, rest: seq<Watcher>, w: Watcher)
    requires s.Propagating(p) && p in s.ws && s.ws[p] == kept + [w0] + rest
    requires w.cref == w0.cref && LongFits(s.ca, p, w)
    ensures s.(ws := s.ws[p := kept + [w] + rest]).Propagating(p)
  {
    hide BinInv, StoreEntailed, DbImplies, RootEntailed, Propagated, ReasonInv, LazyInv, StoreOk, Live, Trail.Ok;
    hide LongInv;
    var l := kept + [w] + rest;
    assert LongInv(s.ca, s.ws[p := l], |s.t.asg|) by {
      KeepWatchOk(s.ca, s.ws, |s.t.asg|, p, kept, w0, rest, w);
    }
    assert LazyInv(s.ca, s.ws[p := l], {}) by {
      CleanLive(s.ca, s.ws, p);
      LiveReplace(s.ca, kept, w0, rest, w);
      UpdateClean(s.ca, s.ws, p, l);
    }
    HeadListFree(s, p, l);
  }

  lemma MoveStep(s: State, p: Lit, kept: seq<Watcher>, w0: Watcher, rest: seq<Watcher>, w: Watcher, k: nat)
    requires s.Propagating(p) && p in s.ws && s.ws[p] == kept + [w0] + rest && w.cref == w0.cref < |s.ca|
    requires 2 <= k < |s.ca[w.cref].lits| && s.ca[w.cref].lits[1] == Neg(p) && w.blocker == s.ca[w.cref].lits[0]
    requires s.t.Value(s.ca[w.cref].lits[k]) != False
    ensures var q := Neg(s.ca[w.cref].lits[k]);
      && q in s.ws && q != p
      && s.(ca := SwapIn(s.ca, w.cref, 1, k), ws := MoveWatch(s.ws, p, kept + rest, q, w)).Propagating(p)
    ensures SameStore(s.ca, SwapIn(s.ca, w.cref, 1, k))
  {
    hide LongInv, BinInv, StoreEntailed, DbImplies, RootEntailed, Propagated, ReasonInv, LazyInv, StoreOk;
    hide Trail.LevelsOk, SameStore;
    HeadLevel(s, p);
    var q := Neg(s.ca[w.cref].lits[k]);
    var ca' := SwapIn(s.ca, w.cref, 1, k);
    assert ReasonInv(s.t, s.ca, s.reason);
    SwapStep(s, p, w.cref, 1, k);
    MoveWatchOk(s.ca, s.ws, |s.t.asg|, p, kept, w0, rest, w, k);
    CleanLive(s.ca, s.ws, p);
    CleanLive(s.ca, s.ws, q);
    LiveReplace(s.ca, kept, w0, rest, w);
    var l := kept + rest;
    assert Live(s.ca, s.ws[q] + [w]);
    UpdateClean(s.ca, s.ws, p, l);
    UpdateClean(s.ca, s.ws[p := l], q, s.ws[q] + [w]);
    SameStoreLazy(s.ca, ca', MoveWatch(s.ws, p, l, q, w), {});
    NotBefore(s.t, p, s.qhead - 1);
    NotBefore(s.t, q, s.qhead - 1);
    assert s.(ca := ca').Done(s.qhead - 1);
    PropagatedOther(s.t, ca', s.ws, p, l, s.qhead - 1);
    PropagatedOther(s.t, ca', s.ws[p := l], q, s.ws[q] + [w], s.qhead - 1);
  }

  /** No new watch was found: the first literal decides between satisfied, unit and conflict. */
  lemma UnitOrConflict(s: State, p: Lit, kept: seq<Watcher>, w: Watcher, rest: seq<Watcher>)
    requires s.Propagating(p) && p in s.ws && s.ws[p] == kept + [w] + rest
    requires w.cref < |s.ca| && |s.ca[w.cref].lits| > 2 && s.ca[w.cref].lits[1] == Neg(p)
    requires forall k :: 2 <= k < |s.ca[w.cref].lits| ==> s.t.Value(s.ca[w.cref].lits[k]) == False
    ensures var first := s.ca[w.cref].lits[0];
      && (s.t.Value(first) == False ==> s.Conflict(w.cref))
      && (s.t.Value(first) == Undef ==> s.MayEnqueue(first, w.cref))
  {
    hide LongInv, BinInv, LazyInv, StoreEntailed, DbImplies, RootEntailed, Propagated, ReasonInv, StoreOk, Entails;
    hide LongFits, Proper;
    LongWatcher(s, p, kept, w, rest);
    var c := s.ca[w.cref].lits;
    assert c[0] in c && c[1] in c;
    assert forall q :: q in c && q != c[0] ==> s.t.Value(q) == False;
    if s.t.Value(c[0]) == Undef && |s.t.lim| == 0 { UnitEntailed(s.formula, s.t, c, c[0]); }
  }

  /** A true literal of a clause makes it done at the current level. */
  lemma TrueSatBy(t: Trail, c: seq<Lit>, q: Lit)
    requires t.Ok() && q in c && t.Value(q) == True
    ensures t.SatBy(c, |t.lim|)
  {
    assert t.Assigned(q.v);
  }

  // ---------------------------------------------------------------- lazy deletion

  /** The watchers of a list whose clause is still there, in order. */
  function Undeleted(ca: Store, ws: seq<Watcher>): (r: seq<Watcher>)
    ensures forall w :: w in r <==> w in ws && !(w.cref < |ca| && ca[w.cref].deleted)
  {
    if ws == [] then [] else
      var r, w := Undeleted(ca, ws[..|ws| - 1]), ws[|ws| - 1];
      assert forall x :: x in ws <==> x in ws[..|ws| - 1] || x == w;
      if w.cref < |ca| && ca[w.cref].deleted then r else r + [w]
  }

  lemma {:induction false} UndeletedDistinct(ca: Store, ws: seq<Watcher>)
    requires Distinct(ws)
    ensures Distinct(Undeleted(ca, ws))
  {
    if ws != [] {
      UndeletedDistinct(ca, ws[..|ws| - 1]);
      var r := Undeleted(ca, ws[..|ws| - 1]);
      forall i | 0 <= i < |r| ensures r[i].cref != ws[|ws| - 1].cref {
        assert r[i] in ws[..|ws| - 1];
      }
    }
  }

  lemma UndeletedWatched(ca: Store, ws: seq<Watcher>, cr: nat)
    requires Watched(ws, cr) && cr < |ca| && !ca[cr].deleted
    ensures Watched(Undeleted(ca, ws), cr)
  {
    var k :| 0 <= k < |ws| && ws[k].cref == cr;
    assert ws[k] in Undeleted(ca, ws);
  }

  lemma UndeletedLists(ca: Store, p: Lit, ws: seq<Watcher>)
    ensures LongListOk(ca, p, ws) ==> LongListOk(ca, p, Undeleted(ca, ws))
    ensures BinListOk(ca, p, ws) ==> BinListOk(ca, p, Undeleted(ca, ws))
    ensures forall t, l: nat :: ListDone(t, ca, ws, l) ==> ListDone(t, ca, Undeleted(ca, ws), l)
  {
    var r := Undeleted(ca, ws);
    forall k | 0 <= k < |r| ensures exists i :: 0 <= i < |ws| && ws[i] == r[k] {
      assert r[k] in ws;
    }
    if Distinct(ws) { UndeletedDistinct(ca, ws); }
  }

  lemma CleanCovers(ca: Store, ws: WatchLists, p: Lit, long: bool)
    requires p in ws && Covers(ca, ws, long)
    ensures Covers(ca, ws[p := Undeleted(ca, ws[p])], long)
  {
    forall cr, i | 0 <= cr < |ca| && !ca[cr].deleted && |ca[cr].lits| >= 2 && (|ca[cr].lits| > 2) == long && 0 <= i < 2
      ensures Watched(ws[p := Undeleted(ca, ws[p])][Neg(ca[cr].lits[i])], cr)
    {
      if Neg(ca[cr].lits[i]) == p { UndeletedWatched(ca, ws[p], cr); }
    }
  }

  lemma CleanPropagated(t: Trail, ca: Store, ws: WatchLists, p: Lit, n: nat)
    requires p in ws && Propagated(t, ca, ws, n)
    ensures Propagated(t, ca, ws[p := Undeleted(ca, ws[p])], n)
  {
    UndeletedLists(ca, p, ws[p]);
    forall j | 0 <= j < n && j < |t.lits| && t.lits[j] in ws[p := Undeleted(ca, ws[p])]
      ensures ListDone(t, ca, ws[p := Undeleted(ca, ws[p])][t.lits[j]], t.Lev(t.lits[j].v))
    {
      assert t.lits[j] in ws;
      if t.lits[j] == p { assert ListDone(t, ca, ws[p], t.Lev(p.v)); }
    }
  }

  lemma CleanLazy(ca: Store, ws: WatchLists, p: Lit, dirty: set<Lit>)
    requires LazyInv(ca, ws, dirty)
    ensures p in ws ==> LazyInv(ca, ws[p := Undeleted(ca, ws[p])], dirty - {p})
    ensures p !in ws ==> LazyInv(ca, ws, dirty - {p})
  {
    if p in ws {
      var ws': WatchLists := ws[p := Undeleted(ca, ws[p])];
      forall q: Lit, k: int | q in ws' && 0 <= k < |ws'[q]| && ws'[q][k].cref < |ca| && ca[ws'[q][k].cref].deleted
        ensures q in dirty - {p}
      {}
    }
  }

  /** Cleaning the list of one dirty literal, in either kind of list. */
  lemma CleanStep(s: State, p: Lit, n: nat)
    requires s.Structure() && s.Meaning() && s.Done(n)
    ensures p in s.ws ==> var s' := s.(ws := s.ws[p := Undeleted(s.ca, s.ws[p])], dirty := s.dirty - {p});
      s'.Structure() && s'.Meaning() && s'.Done(n)
    ensures p !in s.ws ==> var s' := s.(dirty := s.dirty - {p}); s'.Structure() && s'.Meaning() && s'.Done(n)
    ensures p in s.wb ==> var s' := s.(wb := s.wb[p := Undeleted(s.ca, s.wb[p])], dirtyBin := s.dirtyBin - {p});
      s'.Structure() && s'.Meaning() && s'.Done(n)
    ensures p !in s.wb ==> var s' := s.(dirtyBin := s.dirtyBin - {p}); s'.Structure() && s'.Meaning() && s'.Done(n)
  {
    hide StoreEntailed, DbImplies, RootEntailed, Propagated, ReasonInv, LazyInv, StoreOk, Trail.Ok, Covers, ListDone;
    hide LongListOk, BinListOk;
    CleanLazy(s.ca, s.ws, p, s.dirty);
    CleanLazy(s.ca, s.wb, p, s.dirtyBin);
    if p in s.ws {
      UndeletedLists(s.ca, p, s.ws[p]);
      CleanCovers(s.ca, s.ws, p, true);
      CleanPropagated(s.t, s.ca, s.ws, p, n);
    }
    if p in s.wb {
      UndeletedLists(s.ca, p, s.wb[p]);
      CleanCovers(s.ca, s.wb, p, false);
      CleanPropagated(s.t, s.ca, s.wb, p, n);
    }
  }

  // ---------------------------------------------------------------- counting

  lemma SubsetCard<T>(s: set<T>, t: set<T>)
    requires s <= t
    ensures |s| <= |t| && (|s| == |t| ==> s == t)
  {
    assert t == s + (t - s);
  }

  lemma {:induction false} RangeCard(s: set<nat>, n: nat)
    requires forall x :: x in s ==> x < n
    ensures |s| <= n
  {
    if n == 0 {
      assert s == {};
    } else {
      RangeCard(s - {n - 1}, n - 1);
    }
  }

  lemma TrailBound(t: Trail)
    requires t.StackOk()
    ensures |t.lits| <= |t.asg|
  {
    var vs: set<nat> := {};
    for k := 0 to |t.lits|
      invariant |vs| == k
      invariant forall x :: x in vs ==> x < |t.asg| && t.Pos(x) < k
    {
      assert t.lits[k].v !in vs;
      vs := vs + {t.lits[k].v};
    }
    RangeCard(vs, |t.asg|);
  }

  lemma DoneLess(s: State, m: nat, n: nat)
    requires m <= n && s.Done(n)
    ensures s.Done(m)
  {}

  lemma PropagatedNext(t: Trail, ca: Store, ws: WatchLists, n: nat)
    requires Propagated(t, ca, ws, n) && n < |t.lits| && t.lits[n] in ws
    requires ListDone(t, ca, ws[t.lits[n]], t.Lev(t.lits[n].v))
    ensures Propagated(t, ca, ws, n + 1)
  {
    hide ListDone;
  }

  /** The head of the queue is done once both its lists are. */
  lemma HeadDone(s: State, p: Lit)
    requires s.Propagating(p) && p in s.ws && p in s.wb
    requires ListDone(s.t, s.ca, s.ws[p], |s.t.lim|) && ListDone(s.t, s.ca, s.wb[p], |s.t.lim|)
    ensures s.Done(s.qhead)
  {
    hide LongInv, BinInv, LazyInv, StoreEntailed, DbImplies, RootEntailed, ReasonInv, StoreOk, ListDone, Trail.Ok;
    hide Propagated;
    HeadLevel(s, p);
    PropagatedNext(s.t, s.ca, s.ws, s.qhead - 1);
    PropagatedNext(s.t, s.ca, s.wb, s.qhead - 1);
  }

  // ---------------------------------------------------------------- the start of one propagation round

  lemma NextHead(s: State)
    requires s.Structure() && s.Meaning() && s.Done(s.qhead) && s.dirty == {} && s.dirtyBin == {}
    requires s.t.Root() <= s.qhead < |s.t.lits|
    ensures s.(qhead := s.qhead + 1).Propagating(s.t.lits[s.qhead])
  {
    hide StoreOk, LongInv, BinInv, LazyInv, ReasonInv, StoreEntailed, RootEntailed, DbImplies, Propagated;
  }

  lemma HeadFacts(s: State, p: Lit)
    requires s.Propagating(p)
    ensures s.Structure() && s.Meaning() && s.dirty == {} && s.dirtyBin == {} && s.Done(s.t.Root())
    ensures s.t.Root() < s.qhead <= |s.t.lits| && |s.t.lits| <= |s.t.asg|
  {
    hide StoreOk, LongInv, BinInv, LazyInv, ReasonInv, StoreEntailed, RootEntailed, DbImplies, Propagated;
    DoneLess(s, s.t.Root(), s.qhead - 1);
    TrailBound(s.t);
  }

  /** With the other literal of a binary clause processed before, the clause is satisfied. */
  lemma BinEarly(s: State, p: Lit, w: Watcher, j: nat)
    requires s.Propagating(p) && p in s.wb && w in s.wb[p] && j < s.qhead - 1 && s.t.lits[j] == Neg(w.blocker)
    ensures w.cref < |s.ca| && exists q :: q in s.ca[w.cref].lits && s.t.Value(q) == True
  {
    hide LongInv, DbImplies, RootEntailed, ReasonInv, Trail.LevelsOk;
    var q := s.t.lits[j];
    var k :| 0 <= k < |s.wb[p]| && s.wb[p][k] == w;
    assert BinListOk(s.ca, p, s.wb[p]);
    assert BinFits(s.ca, p, w) && !s.ca[w.cref].deleted;
    var c := s.ca[w.cref].lits;
    var i: nat := if c[0] == w.blocker then 0 else 1;
    assert Neg(c[i]) == q && q in s.wb && Watched(s.wb[q], w.cref);
    var m :| 0 <= m < |s.wb[q]| && s.wb[q][m].cref == w.cref;
    assert ListDone(s.t, s.ca, s.wb[q], s.t.Lev(q.v));
  }

  lemma OnTrail(t: Trail, q: Lit)
    requires t.Ok() && t.Value(q) == True
    ensures t.Pos(q.v) < |t.lits| && t.lits[t.Pos(q.v)] == q
  {
    assert t.Assigned(q.v);
  }

  lemma BinQueue(s: State, p: Lit, w: Watcher)
    requires s.Propagating(p) && p in s.wb && w in s.wb[p] && s.t.Value(w.blocker) == False
    ensures s.QueueLeft(w.cref)
  {
    hide State.Structure, State.Meaning, State.Done, Trail.Ok;
    PropagatingOk(s, p);
    BinWatcher(s, p, w);
    BinPair(s, p, w);
    var q := Neg(w.blocker);
    OnTrail(s.t, q);
    if s.t.Pos(q.v) < s.qhead - 1 { BinEarly(s, p, w, s.t.Pos(q.v)); }
  }

  lemma QueueEmptied(s: State, confl: int)
    requires 0 <= confl < |s.ca| && |s.ca[confl].lits| > 2 && s.qhead == |s.t.lits|
    ensures s.QueueLeft(confl)
  {}

  lemma SameStoreSize(ca: Store, ca': Store, cr: nat)
    requires SameStore(ca, ca') && cr < |ca|
    ensures cr < |ca'| && |ca'[cr].lits| == |ca[cr].lits|
  {}

  lemma BinPair(s: State, p: Lit, w: Watcher)
    requires s.Propagating(p) && p in s.wb && w in s.wb[p]
    ensures w.cref < |s.ca| && |s.ca[w.cref].lits| == 2 && Neg(p) in s.ca[w.cref].lits && w.blocker.v != p.v
    ensures s.qhead <= |s.t.lits|
  {
    hide LongInv, DbImplies, RootEntailed, ReasonInv, Propagated, Trail.Ok;
    var k :| 0 <= k < |s.wb[p]| && s.wb[p][k] == w;
    assert BinListOk(s.ca, p, s.wb[p]);
    assert BinFits(s.ca, p, w);
    var c := s.ca[w.cref].lits;
    assert Proper(c) && c[0].v != c[1].v;
  }

  /** Swapping the two literals of a binary clause disturbs nothing. */
  lemma SwapBinStep(s: State, cr: nat)
    requires s.Structure() && s.Meaning() && cr < |s.ca| && |s.ca[cr].lits| == 2
    ensures var ca' := SwapIn(s.ca, cr, 0, 1);
      && s.(ca := ca').Structure() && s.(ca := ca').Meaning() && SameStore(s.ca, ca')
      && forall n: nat :: s.Done(n) ==> s.(ca := ca').Done(n)
  {
    hide Trail.Ok, StoreOk, LongInv, BinInv, LazyInv, ReasonInv, StoreEntailed, RootEntailed, DbImplies, Propagated;
    hide SameStore;
    var ca' := SwapIn(s.ca, cr, 0, 1);
    SwapStore(s.ca, cr, 0, 1, |s.t.asg|);
    SwapReason(s.t, s.ca, s.reason, cr, 0, 1, |s.t.asg|);
    BinSwapLong(s.ca, s.ws, |s.t.asg|, cr);
    BinSwapBin(s.ca, s.wb, |s.t.asg|, cr);
    SameStoreLazy(s.ca, ca', s.ws, s.dirty);
    SameStoreLazy(s.ca, ca', s.wb, s.dirtyBin);
    SameStoreMeaning(s.formula, s.ca, ca', s.clauses, s.t);
    forall n: nat | s.Done(n) ensures s.(ca := ca').Done(n) {
      SameStorePropagated(s.t, s.ca, ca', s.ws, n);
      SameStorePropagated(s.t, s.ca, ca', s.wb, n);
    }
  }

  lemma BinSwapLong(ca: Store, ws: WatchLists, nv: nat, cr: nat)
    requires StoreOk(ca, nv) && cr < |ca| && |ca[cr].lits| == 2 && LongInv(ca, ws, nv)
    ensures LongInv(SwapIn(ca, cr, 0, 1), ws, nv)
  {
    var ca' := SwapIn(ca, cr, 0, 1);
    forall p | p in ws ensures LongListOk(ca', p, ws[p]) {
      forall k | 0 <= k < |ws[p]| ensures LongFits(ca', p, ws[p][k]) {
        assert LongFits(ca, p, ws[p][k]);
      }
    }
    assert Covers(ca', ws, true);
  }

  lemma BinSwapBin(ca: Store, wb: WatchLists, nv: nat, cr: nat)
    requires StoreOk(ca, nv) && cr < |ca| && |ca[cr].lits| == 2 && BinInv(ca, wb, nv)
    ensures BinInv(SwapIn(ca, cr, 0, 1), wb, nv)
  {
    var ca' := SwapIn(ca, cr, 0, 1);
    forall p | p in wb ensures BinListOk(ca', p, wb[p]) {
      forall k | 0 <= k < |wb[p]| ensures BinFits(ca', p, wb[p][k]) {
        assert BinFits(ca, p, wb[p][k]);
      }
    }
    forall x, i | 0 <= x < |ca'| && !ca'[x].deleted && |ca'[x].lits| >= 2 && (|ca'[x].lits| > 2) == false && 0 <= i < 2
      ensures Neg(ca'[x].lits[i]) in wb && Watched(wb[Neg(ca'[x].lits[i])], x)
    {
      assert ca'[x].lits[i] == ca[x].lits[if x == cr then 1 - i else i];
    }
  }

  lemma QheadFree(s: State, q: nat)
    requires s.Structure() && s.Meaning() && q <= |s.t.lits|
    ensures s.(qhead := q).Structure() && s.(qhead := q).Meaning()
    ensures forall n: nat :: s.Done(n) ==> s.(qhead := q).Done(n)
    ensures forall c :: s.Conflict(c) ==> s.(qhead := q).Conflict(c)
  {
    hide StoreOk, LongInv, BinInv, LazyInv, ReasonInv, StoreEntailed, RootEntailed, DbImplies, Propagated, Trail.Ok;
    hide Trail.AllFalse;
  }

  lemma StructureFacts(s: State)
    requires s.Structure()
    ensures s.t.Ok() && s.t.Sizes() && s.qhead <= |s.t.lits| <= |s.t.asg| && |s.reason| == |s.t.asg|
    ensures StoreOk(s.ca, |s.t.asg|) && ReasonInv(s.t, s.ca, s.reason)
  {
    hide StoreOk, LongInv, BinInv, LazyInv, HeldInv;
    TrailBound(s.t);
  }

  lemma ExtendsLen(t: Trail, t': Trail)
    requires Extends(t, t')
    ensures |t.asg| == |t'.asg| && |t.lits| <= |t'.lits| && t.lim == t'.lim && t.Root() == t'.Root()
  {}

  lemma SoundFacts(s: State)
    requires s.Sound()
    ensures s.Structure() && s.Meaning()
    ensures s.t.Ok() && s.t.Sizes() && |s.t.lits| <= |s.t.asg| && |s.reason| == |s.t.asg|
  {
    StructureFacts(s);
  }
}
