/**
 * Concrete solver states, of two variables and at most two binary clauses, that show what the code does not promise.
 */
module SmallStates {
  import opened Cnf
  import opened SolverSpec
  import opened SearchSpec

  function P(): Lit { Lit(0, false) }

  function Q(): Lit { Lit(1, false) }

  /** Both variables are true, at the root or at the first level. */
  function Both(l: nat): Trail { Trail([P(), Q()], if l == 0 then [] else [0], [True, True], [l, l], [0, 1]) }

  function Implies(): Clause { Clause([Neg(P()), Q()], false, false, FRESH) }

  function Excludes(): Clause { Clause([Neg(P()), Neg(Q())], false, false, FRESH) }

  function NoLists(): WatchLists { map[P() := [], Neg(P()) := [], Q() := [], Neg(Q()) := []] }

  /** P implies Q by the first clause; the second is there to be violated. */
  function Lists(two: bool): WatchLists {
    map[P() := [Watcher(0, Q())] + if two then [Watcher(1, Neg(Q()))] else [], Neg(P()) := [],
        Q() := if two then [Watcher(1, Neg(P()))] else [], Neg(Q()) := [Watcher(0, Neg(P()))]]
  }

  function Stored(two: bool): Store { [Implies()] + if two then [Excludes()] else [] }

  /** At the root with the unit P added; at the first level P is a decision and a second clause excludes both. */
  function Fixed(two: bool): State {
    State(Both(if two then 1 else 0), Stored(two), if two then [0, 1] else [0], NoLists(), Lists(two), {}, {},
          [CREF_UNDEF, 0], if two then 1 else 2,
          if two then [Implies().lits, Excludes().lits] else [Implies().lits, [P()]])
  }

  lemma BothOk(l: nat)
    requires l <= 1
    ensures Both(l).Ok()
  {}

  lemma StoredOk(two: bool)
    ensures StoreOk(Stored(two), 2)
  {}

  lemma LongOk(two: bool)
    ensures LongInv(Stored(two), NoLists(), 2) && LazyInv(Stored(two), NoLists(), {})
  {}

  lemma BinCovers(two: bool)
    ensures Covers(Stored(two), Lists(two), false)
  {
    var ca, wb := Stored(two), Lists(two);
    forall cr, i | 0 <= cr < |ca| && 0 <= i < 2
      ensures Neg(ca[cr].lits[i]) in wb && Watched(wb[Neg(ca[cr].lits[i])], cr)
    {
      var l := wb[Neg(ca[cr].lits[i])];
      assert l[if i == 0 then cr else 0].cref == cr;
    }
  }

  lemma BinOk(two: bool)
    ensures BinInv(Stored(two), Lists(two), 2) && LazyInv(Stored(two), Lists(two), {})
  {
    hide Covers;
    BinCovers(two);
  }

  lemma ReasonsOk(two: bool)
    ensures ReasonInv(Both(if two then 1 else 0), Stored(two), [CREF_UNDEF, 0])
  {}

  lemma FixedStructure(two: bool)
    ensures Fixed(two).Structure()
  {
    hide Trail.Ok, StoreOk, LongInv, BinInv, LazyInv, ReasonInv;
    BothOk(if two then 1 else 0);
    StoredOk(two);
    LongOk(two);
    BinOk(two);
    ReasonsOk(two);
  }

  lemma FixedDone(two: bool)
    ensures two ==> Fixed(two).Done(0)
    ensures !two ==> Fixed(two).Done(2)
  {
    var t := Both(0);
    assert !two ==> Q() in Implies().lits && t.Value(Q()) == True && t.Lev(1) == 0;
  }

  lemma FixedMeaning(two: bool)
    ensures Fixed(two).Meaning()
  {
    var s := Fixed(two);
    forall a: Assignment | SatAll(a, s.formula) ensures s.t.RootHolds(a) {
      if !two { RootFacts(a); }
    }
    forall a: Assignment | SatList(a, s.ca, s.clauses) && s.t.RootHolds(a) ensures SatAll(a, s.formula) {
      assert s.clauses[0] == 0 && SatClause(a, Implies().lits);
      if two { assert s.clauses[1] == 1 && s.ca[1] == Excludes(); } else {
        assert s.t.Assigned(0) && s.t.On(0) == P() && P() in [P()];
      }
    }
  }

  lemma RootFacts(a: Assignment)
    requires SatAll(a, [Implies().lits, [P()]])
    ensures Both(0).RootHolds(a)
  {
    var f := [Implies().lits, [P()]];
    assert f[0] in f && f[1] in f;
    assert SatClause(a, [P()]) && SatClause(a, Implies().lits);
  }

  /** A binary conflict of the first trail literal while the second is still waiting in the queue. */
  lemma QueueNotEmpty()
    ensures var s := Fixed(true);
      s.Structure() && s.Meaning() && s.Done(s.t.Root()) && s.Conflict(1) && s.QueueLeft(1) && s.qhead < |s.t.lits|
  {
    hide State.Structure, State.Meaning, State.Done;
    FixedStructure(true);
    FixedMeaning(true);
    FixedDone(true);
    assert Neg(P()) in Excludes().lits;
  }

  /** Removing the clause, which a root fact satisfies, leaves the second fact with a deleted clause as its reason. */
  lemma DanglingReason()
    ensures var s := Fixed(false);
      s.Structure() && s.Meaning() && s.Done(s.qhead) && s.t.Value(s.ca[0].lits[1]) == True
    ensures var s := Fixed(false);
      var reason := Unlocked(s.reason, s.ca[0].lits, LockedBy(s.t, s.ca, s.reason, 0));
      Removed(s, 0).(reason := reason).Structure() && Removed(s, 0).ca[0].deleted && reason[1] == 0
  {
    hide State.Structure, State.Meaning, State.Done;
    var s := Fixed(false);
    FixedStructure(false);
    FixedMeaning(false);
    FixedDone(false);
    RemoveStep(s, 0, 0, true);
    assert ImpliedAt(s.t, s.ca, s.reason, 0, 1);
  }
}
