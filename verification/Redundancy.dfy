/** Which literals of a learnt clause recursive minimisation removes. */
module Redundancy {
  import opened Cnf
  import opened SolverSpec

  ghost predicate Grows(seen: seq<bool>, seen': seq<bool>) {
    |seen| == |seen'| && forall v: nat :: v < |seen| && seen[v] ==> seen'[v]
  }

  /** v was implied, at one of the given levels modulo 32. */
  ghost predicate Admitted(s: State, levels: set<nat>, v: nat) {
    v < |s.reason| && s.reason[v] != CREF_UNDEF && s.t.Lev(v) % 32 in levels
  }

  ghost predicate MarkedOrRoot(t: Trail, seen: seq<bool>, v: nat) {
    t.Lev(v) == 0 || (v < |seen| && seen[v])
  }

  /**
   * v was implied, and every other literal of its reason is a root fact, marked, or admitted and redundant itself, by
   * recursion on trail position.
   */
  ghost predicate Redundant(s: State, seen: seq<bool>, levels: set<nat>, v: nat)
    decreases s.t.Pos(v)
  {
    && v < |s.reason| && 0 <= s.reason[v] < |s.ca|
    && forall q :: q in s.ca[s.reason[v]].lits && q.v != v ==>
      && s.t.Pos(q.v) < s.t.Pos(v)
      && (MarkedOrRoot(s.t, seen, q.v) || (Admitted(s, levels, q.v) && Redundant(s, seen, levels, q.v)))
  }

  /** The literals that are not redundant, in order. */
  ghost function Irredundant(s: State, seen: seq<bool>, levels: set<nat>, out: seq<Lit>): seq<Lit> {
    if out == [] then [] else
      var rest, q := Irredundant(s, seen, levels, out[..|out| - 1]), out[|out| - 1];
      if Redundant(s, seen, levels, q.v) then rest else rest + [q]
  }

  /** The levels of the literals modulo 32. */
  ghost function LevelsOf(t: Trail, out: seq<Lit>): set<nat> {
    set i | 0 <= i < |out| :: t.Lev(out[i].v) % 32
  }

  lemma {:induction false} RedundantMore(s: State, seen: seq<bool>, seen': seq<bool>, levels: set<nat>, v: nat)
    requires Redundant(s, seen, levels, v) && Grows(seen, seen')
    ensures Redundant(s, seen', levels, v)
    decreases s.t.Pos(v)
  {
    forall q | q in s.ca[s.reason[v]].lits && q.v != v && !MarkedOrRoot(s.t, seen', q.v)
      ensures Redundant(s, seen', levels, q.v)
    {
      RedundantMore(s, seen, seen', levels, q.v);
    }
  }

  /** Moving literals within clauses changes nothing. */
  lemma {:induction false} RedundantSame(s: State, ca': Store, seen: seq<bool>, levels: set<nat>, v: nat)
    requires SameStore(s.ca, ca')
    ensures Redundant(s.(ca := ca'), seen, levels, v) == Redundant(s, seen, levels, v)
    decreases s.t.Pos(v)
  {
    if v < |s.reason| && 0 <= s.reason[v] < |s.ca| {
      assert SameClause(s.ca[s.reason[v]], ca'[s.reason[v]]);
      forall q | q in s.ca[s.reason[v]].lits && s.t.Pos(q.v) < s.t.Pos(v)
        ensures Redundant(s.(ca := ca'), seen, levels, q.v) == Redundant(s, seen, levels, q.v)
      {
        RedundantSame(s, ca', seen, levels, q.v);
      }
    }
  }

  lemma {:induction false} IrredundantSame(s: State, ca': Store, seen: seq<bool>, levels: set<nat>, out: seq<Lit>)
    requires SameStore(s.ca, ca')
    ensures Irredundant(s.(ca := ca'), seen, levels, out) == Irredundant(s, seen, levels, out)
  {
    hide SameStore, Redundant;
    if out != [] {
      IrredundantSame(s, ca', seen, levels, out[..|out| - 1]);
      RedundantSame(s, ca', seen, levels, out[|out| - 1].v);
    }
  }

  lemma {:induction false} IrredundantLits(s: State, seen: seq<bool>, levels: set<nat>, out: seq<Lit>, q: Lit)
    ensures q in Irredundant(s, seen, levels, out) <==> q in out && !Redundant(s, seen, levels, q.v)
  {
    hide Redundant;
    if out != [] {
      IrredundantLits(s, seen, levels, out[..|out| - 1], q);
      assert out == out[..|out| - 1] + [out[|out| - 1]];
    }
  }

  /** All marks made since `seen0` are on redundant variables of admitted levels. */
  ghost predicate Memo(s: State, seen0: seq<bool>, seen: seq<bool>, levels: set<nat>) {
    && Grows(seen0, seen)
    && forall v: nat :: v < |seen| && seen[v] && !seen0[v] ==>
      Admitted(s, levels, v) && Redundant(s, seen0, levels, v)
  }

  /** Marks kept as a memo change nothing about what is redundant. */
  lemma {:induction false} RedundantMemo(s: State, seen0: seq<bool>, seen: seq<bool>, levels: set<nat>, v: nat)
    requires Memo(s, seen0, seen, levels)
    ensures Redundant(s, seen, levels, v) == Redundant(s, seen0, levels, v)
    decreases s.t.Pos(v)
  {
    if Redundant(s, seen0, levels, v) { RedundantMore(s, seen0, seen, levels, v); }
    if Redundant(s, seen, levels, v) {
      forall q | q in s.ca[s.reason[v]].lits && q.v != v && !MarkedOrRoot(s.t, seen0, q.v)
        ensures Admitted(s, levels, q.v) && Redundant(s, seen0, levels, q.v)
      {
        RedundantMemo(s, seen0, seen, levels, q.v);
      }
    }
  }

  lemma MemoNone(s: State, seen: seq<bool>, levels: set<nat>)
    ensures Memo(s, seen, seen, levels)
  {}

  lemma NoReason(s: State, seen: seq<bool>, levels: set<nat>, v: nat)
    requires v < |s.reason| && s.reason[v] == CREF_UNDEF
    ensures !Redundant(s, seen, levels, v)
  {}

  lemma MemoMore(s: State, seen0: seq<bool>, seen: seq<bool>, seen': seq<bool>, levels: set<nat>)
    requires Memo(s, seen0, seen, levels) && Memo(s, seen, seen', levels)
    ensures Memo(s, seen0, seen', levels)
  {
    hide Redundant;
    forall v: nat | v < |seen'| && seen'[v] && !seen0[v]
      ensures Admitted(s, levels, v) && Redundant(s, seen0, levels, v)
    {
      if !seen[v] { RedundantMemo(s, seen0, seen, levels, v); }
    }
  }

  lemma MemoSame(s: State, ca': Store, seen0: seq<bool>, seen: seq<bool>, levels: set<nat>)
    requires Memo(s, seen0, seen, levels) && SameStore(s.ca, ca')
    ensures Memo(s.(ca := ca'), seen0, seen, levels)
  {
    hide Redundant, SameStore;
    forall v: nat | v < |seen| && seen[v] && !seen0[v] ensures Redundant(s.(ca := ca'), seen0, levels, v) {
      RedundantSame(s, ca', seen0, levels, v);
    }
  }
}
