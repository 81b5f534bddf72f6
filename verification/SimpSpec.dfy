/** Variable elimination, its log and model reconstruction; subsumption and strengthening. */
module SimpSpec {
  import opened Cnf
  import opened SolverSpec

  // A stored clause: its literals, the set bits of its variable mask, and whether it has been deleted.
  datatype SClause = SClause(lits: seq<Lit>, abs: set<nat>, mark: bool)

  type Db = seq<SClause>

  ghost predicate LiveSat(a: Assignment, ca: Db) {
    forall k :: 0 <= k < |ca| && !ca[k].mark ==> SatClause(a, ca[k].lits)
  }

  ghost predicate UnitsSat(a: Assignment, trail: seq<Lit>) { forall p :: p in trail ==> Holds(a, p) }

  /** The live clauses and the root facts. */
  ghost predicate DbSat(a: Assignment, ca: Db, trail: seq<Lit>) { LiveSat(a, ca) && UnitsSat(a, trail) }

  ghost predicate SameModels(ca: Db, trail: seq<Lit>, ca': Db, trail': seq<Lit>) {
    forall a: Assignment :: DbSat(a, ca, trail) <==> DbSat(a, ca', trail')
  }

  ghost predicate NoModels(ca: Db, trail: seq<Lit>) { forall a: Assignment :: !DbSat(a, ca, trail) }

  predicate Mentions(c: seq<Lit>, v: nat) { exists k :: 0 <= k < |c| && c[k].v == v }

  // ---------------------------------------------------------------- resolution on a variable

  /** `r` holds exactly the literals of p and q on variables other than v. */
  ghost predicate IsMerge(p: seq<Lit>, q: seq<Lit>, v: nat, r: seq<Lit>) {
    forall l :: l in r <==> (l in p || l in q) && l.v != v
  }

  /** Some variable other than v occurs with opposite signs. */
  ghost predicate Clash(p: seq<Lit>, q: seq<Lit>, v: nat) {
    exists l :: l in p && l.v != v && Neg(l) in q
  }

  /** A resolvent follows from its parents. */
  lemma MergeEntailed(a: Assignment, p: seq<Lit>, q: seq<Lit>, v: nat, r: seq<Lit>)
    requires Proper(p) && Proper(q) && Lit(v, false) in p && Lit(v, true) in q && IsMerge(p, q, v, r)
    requires SatClause(a, p) && SatClause(a, q)
    ensures SatClause(a, r)
  {
    var l :| l in p && Holds(a, l);
    var m :| m in q && Holds(a, m);
    if l.v != v {
      assert l in r;
    } else if m.v != v {
      assert m in r;
    } else {
      OneSign(p, v, l, Lit(v, false));
      OneSign(q, v, m, Lit(v, true));
      assert false;
    }
  }

  lemma OneSign(c: seq<Lit>, v: nat, l: Lit, m: Lit)
    requires Proper(c) && l in c && m in c && l.v == v && m.v == v
    ensures l == m
  {
    var i :| 0 <= i < |c| && c[i] == l;
    var j :| 0 <= j < |c| && c[j] == m;
  }

  // ---------------------------------------------------------------- what an elimination stores

  /**
   * One eliminated variable: the stored side of its clauses, each with its own literal first, and the literal that is
   * true by default.
   */
  datatype Elim = Elim(v: nat, stored: seq<seq<Lit>>, dflt: Lit)

  predicate ElimOk(e: Elim) {
    && e.dflt.v == e.v
    && forall k :: 0 <= k < |e.stored| ==> Proper(e.stored[k]) && |e.stored[k]| >= 1 && e.stored[k][0] == Neg(e.dflt)
  }

  /** All literals after the first are false. */
  predicate OthersFalse(a: Assignment, c: seq<Lit>) { forall k :: 1 <= k < |c| ==> !Holds(a, c[k]) }

  predicate Forces(a: Assignment, e: Elim) { exists k :: 0 <= k < |e.stored| && OthersFalse(a, e.stored[k]) }

  function Make(a: Assignment, p: Lit): Assignment { (x: nat) => if x == p.v then !p.s else a(x) }

  /** The default value, unless some stored clause needs the opposite. */
  function Rebuild(a: Assignment, e: Elim): Assignment {
    Make(a, if Forces(a, e) then Neg(e.dflt) else e.dflt)
  }

  /** The log is read backwards: the last elimination is undone first. */
  function RebuildAll(a: Assignment, es: seq<Elim>): Assignment {
    if es == [] then a else RebuildAll(Rebuild(a, es[|es| - 1]), es[..|es| - 1])
  }

  lemma RebuildSnoc(a: Assignment, es: seq<Elim>, e: Elim)
    ensures RebuildAll(a, es + [e]) == RebuildAll(Rebuild(a, e), es)
  {
    assert (es + [e])[..|es|] == es;
  }

  lemma MakeOther(a: Assignment, p: Lit, c: seq<Lit>)
    requires !Mentions(c, p.v)
    ensures SatClause(Make(a, p), c) <==> SatClause(a, c)
  {
    forall l | l in c ensures Holds(Make(a, p), l) <==> Holds(a, l) {
      var k :| 0 <= k < |c| && c[k] == l;
    }
  }

  // The clauses of a database that contain a literal.
  ghost predicate Side(ca: Db, p: Lit, c: seq<Lit>) {
    exists k :: 0 <= k < |ca| && !ca[k].mark && ca[k].lits == c && p in c
  }

  /** The same literals, in some order. */
  ghost predicate SameLits(c: seq<Lit>, d: seq<Lit>) { forall l :: l in c <==> l in d }

  /** The stored clauses are one whole side of v. */
  ghost predicate StoresSide(e: Elim, ca: Db) { StoredAreSide(e, ca) && SideIsStored(e, ca) }

  ghost predicate StoredAreSide(e: Elim, ca: Db) {
    forall k :: 0 <= k < |e.stored| ==> ComesFrom(e.stored[k], ca, Neg(e.dflt))
  }

  ghost predicate ComesFrom(d: seq<Lit>, ca: Db, p: Lit) { exists c :: Side(ca, p, c) && SameLits(c, d) }

  ghost predicate SideIsStored(e: Elim, ca: Db) {
    forall c :: Side(ca, Neg(e.dflt), c) ==> exists k :: 0 <= k < |e.stored| && SameLits(c, e.stored[k])
  }

  ghost predicate ProperDb(ca: Db) { forall k :: 0 <= k < |ca| && !ca[k].mark ==> Proper(ca[k].lits) }

  /** Every resolvent of the two sides is satisfied. */
  ghost predicate ResolventsSat(a: Assignment, ca: Db, v: nat) {
    forall p, q, r ::
      Side(ca, Lit(v, false), p) && Side(ca, Lit(v, true), q) && !Clash(p, q, v) && IsMerge(p, q, v, r) ==>
        SatClause(a, r)
  }

  /** Every clause without v is satisfied. */
  ghost predicate OthersSat(a: Assignment, ca: Db, v: nat) {
    forall k :: 0 <= k < |ca| && !ca[k].mark && !Mentions(ca[k].lits, v) ==> SatClause(a, ca[k].lits)
  }

  /** A stored clause all of whose other literals are false is a clause of that side with the same property. */
  lemma ForcedClause(a: Assignment, e: Elim, ca: Db) returns (c: seq<Lit>)
    requires ElimOk(e) && StoresSide(e, ca) && Forces(a, e)
    ensures Side(ca, Neg(e.dflt), c) && forall l :: l in c && l.v != e.v ==> !Holds(a, l)
  {
    hide SideIsStored;
    var k :| 0 <= k < |e.stored| && OthersFalse(a, e.stored[k]);
    c :| Side(ca, Neg(e.dflt), c) && SameLits(c, e.stored[k]);
    forall l | l in c && l.v != e.v ensures !Holds(a, l) {
      var d := e.stored[k];
      var j :| 0 <= j < |d| && d[j] == l;
    }
  }

  /** If no stored clause forces the opposite value, every clause of the stored side has another true literal. */
  lemma FreeClause(a: Assignment, e: Elim, ca: Db, c: seq<Lit>)
    requires ElimOk(e) && StoresSide(e, ca) && !Forces(a, e) && Side(ca, Neg(e.dflt), c)
    ensures exists l :: l in c && l.v != e.v && Holds(a, l)
  {
    hide StoredAreSide;
    var k :| 0 <= k < |e.stored| && SameLits(c, e.stored[k]);
    var d := e.stored[k];
    assert !OthersFalse(a, d);
    var j :| 1 <= j < |d| && Holds(a, d[j]);
    assert d[j].v != d[0].v;
    assert d[j] in c;
  }

  /**
   * Undoing an elimination: a model of the clauses without v and of all resolvents becomes a model of the clauses with
   * v as well, although only one side was stored.
   */
  lemma RebuildSat(a: Assignment, e: Elim, ca: Db, k: nat)
    requires ElimOk(e) && ProperDb(ca) && StoresSide(e, ca) && OthersSat(a, ca, e.v) && ResolventsSat(a, ca, e.v)
    requires k < |ca| && !ca[k].mark
    ensures SatClause(Rebuild(a, e), ca[k].lits)
  {
    hide IsMerge, Clash, ResolventsSat, StoresSide;
    var c := ca[k].lits;
    var b := Rebuild(a, e);
    var p := if Forces(a, e) then Neg(e.dflt) else e.dflt;
    if !Mentions(c, e.v) {
      MakeOther(a, p, c);
    } else if p in c {
      assert Holds(b, p);
    } else {
      MentionedSign(c, e.v, p);
      var l := OtherTrue(a, e, ca, k);
      assert Holds(b, l);
    }
  }

  lemma MentionedSign(c: seq<Lit>, v: nat, p: Lit)
    requires Mentions(c, v) && p.v == v && p !in c
    ensures Neg(p) in c
  {
    var k :| 0 <= k < |c| && c[k].v == v;
    assert c[k] == p || c[k] == Neg(p);
  }

  /** A clause on the side that the chosen value does not satisfy has another true literal. */
  lemma OtherTrue(a: Assignment, e: Elim, ca: Db, k: nat) returns (l: Lit)
    requires ElimOk(e) && ProperDb(ca) && StoresSide(e, ca) && ResolventsSat(a, ca, e.v) && k < |ca| && !ca[k].mark
    requires (if Forces(a, e) then e.dflt else Neg(e.dflt)) in ca[k].lits
    ensures l in ca[k].lits && l.v != e.v && Holds(a, l)
  {
    hide StoresSide, ResolventsSat;
    var c := ca[k].lits;
    if !Forces(a, e) {
      assert Side(ca, Neg(e.dflt), c);
      FreeClause(a, e, ca, c);
      l :| l in c && l.v != e.v && Holds(a, l);
    } else {
      var d := ForcedClause(a, e, ca);
      assert Side(ca, e.dflt, c);
      l := AcrossResolvent(a, ca, e.v, c, d, e.dflt);
    }
  }

  /** If d is false apart from v, its resolvent with c, or a clash, gives c a true literal. */
  lemma AcrossResolvent(a: Assignment, ca: Db, v: nat, c: seq<Lit>, d: seq<Lit>, p: Lit) returns (l: Lit)
    requires ResolventsSat(a, ca, v) && p.v == v && Side(ca, p, c) && Side(ca, Neg(p), d)
    requires forall x :: x in d && x.v != v ==> !Holds(a, x)
    ensures l in c && l.v != v && Holds(a, l)
  {
    var pos, neg := if p.s then d else c, if p.s then c else d;
    assert Side(ca, Lit(v, false), pos) && Side(ca, Lit(v, true), neg);
    if Clash(pos, neg, v) {
      var x :| x in pos && x.v != v && Neg(x) in neg;
      l := if p.s then Neg(x) else x;
    } else {
      var r := Without(pos, v) + Without(neg, v);
      assert IsMerge(pos, neg, v, r);
      l :| l in r && Holds(a, l);
    }
  }

  function Without(c: seq<Lit>, v: nat): (r: seq<Lit>)
    ensures forall l :: l in r <==> l in c && l.v != v
  {
    if c == [] then [] else if c[0].v == v then Without(c[1..], v) else [c[0]] + Without(c[1..], v)
  }

  // ---------------------------------------------------------------- the whole log

  ghost predicate Eliminated(es: seq<Elim>, v: nat) { exists i :: 0 <= i < |es| && es[i].v == v }

  /** The live clauses, and the root facts about variables that are still there. */
  ghost predicate RestSat(a: Assignment, ca: Db, trail: seq<Lit>, es: seq<Elim>) {
    LiveSat(a, ca) && forall p :: p in trail && !Eliminated(es, p.v) ==> Holds(a, p)
  }

  /** The first i clauses and the first k root facts of what is left. */
  ghost predicate RestPart(a: Assignment, ca: Db, trail: seq<Lit>, es: seq<Elim>, i: nat, k: nat) {
    && (forall j :: 0 <= j < i && j < |ca| && !ca[j].mark ==> SatClause(a, ca[j].lits))
    && (forall j :: 0 <= j < k && j < |trail| && !Eliminated(es, trail[j].v) ==> Holds(a, trail[j]))
  }

  lemma RestNone(ca: Db, trail: seq<Lit>, es: seq<Elim>)
    ensures forall a: Assignment :: SatAll(a, []) <==> RestPart(a, ca, trail, es, 0, 0)
  {}

  lemma RestFull(a: Assignment, ca: Db, trail: seq<Lit>, es: seq<Elim>)
    ensures RestPart(a, ca, trail, es, |ca|, |trail|) <==> RestSat(a, ca, trail, es)
  {
    if RestPart(a, ca, trail, es, |ca|, |trail|) {
      forall p | p in trail && !Eliminated(es, p.v) ensures Holds(a, p) {
        var j :| 0 <= j < |trail| && trail[j] == p;
      }
    }
  }

  lemma RestUnit(f: seq<seq<Lit>>, f': seq<seq<Lit>>, ca: Db, trail: seq<Lit>, es: seq<Elim>, k: nat)
    requires k < |trail| && f' == if Eliminated(es, trail[k].v) then f else f + [[trail[k]]]
    requires forall a: Assignment :: SatAll(a, f) <==> RestPart(a, ca, trail, es, 0, k)
    ensures forall a: Assignment :: SatAll(a, f') <==> RestPart(a, ca, trail, es, 0, k + 1)
  {
    hide SatAll, Eliminated;
    forall a: Assignment ensures SatAll(a, f') <==> RestPart(a, ca, trail, es, 0, k + 1) {
      SatMore(a, f, [trail[k]]);
      assert SatClause(a, [trail[k]]) <==> Holds(a, trail[k]) by { assert trail[k] in [trail[k]]; }
    }
  }

  lemma RestClause(f: seq<seq<Lit>>, f': seq<seq<Lit>>, ca: Db, trail: seq<Lit>, es: seq<Elim>, k: nat)
    requires k < |ca| && f' == if ca[k].mark then f else f + [ca[k].lits]
    requires forall a: Assignment :: SatAll(a, f) <==> RestPart(a, ca, trail, es, k, |trail|)
    ensures forall a: Assignment :: SatAll(a, f') <==> RestPart(a, ca, trail, es, k + 1, |trail|)
  {
    hide SatAll, Eliminated, SatClause;
    forall a: Assignment ensures SatAll(a, f') <==> RestPart(a, ca, trail, es, k + 1, |trail|) {
      SatMore(a, f, ca[k].lits);
    }
  }

  lemma TrailVar(asg: seq<LBool>, trail: seq<Lit>, k: nat)
    requires AssignsOk(asg, trail) && k < |trail|
    ensures trail[k].v < |asg|
  {
    assert trail[k] in trail;
  }

  lemma LiveVars(ca: Db, k: nat, n: nat)
    requires DbOk(ca, n) && k < |ca| && !ca[k].mark
    ensures forall q :: q in ca[k].lits ==> q.v < n
  {
    assert ClauseOk(ca[k], n);
  }

  lemma RestFollows(a: Assignment, ca: Db, trail: seq<Lit>, es: seq<Elim>)
    requires DbSat(a, ca, trail)
    ensures RestSat(a, ca, trail, es)
  {}

  /** Values of eliminated variables are of no concern to what is left. */
  lemma RestModel(m: seq<LBool>, m': seq<LBool>, f: seq<seq<Lit>>, ca: Db, trail: seq<Lit>, es: seq<Elim>)
    requires forall c :: c in f ==> exists q :: q in c && Val(m, q) == True
    requires |m'| == |m|
    requires forall v: nat :: v < |m| ==> m'[v] == if Eliminated(es, v) then Undef else m[v]
    requires forall v: nat :: v < |m| && !Eliminated(es, v) ==> m[v] != Undef
    requires Clean(ca, es) && forall a: Assignment :: SatAll(a, f) <==> RestSat(a, ca, trail, es)
    ensures RestSat(ToA(m'), ca, trail, es) && Known(m', es)
  {
    var a, a' := ToA(m), ToA(m');
    assert SatAll(a, f);
    forall p: Lit | !Eliminated(es, p.v) ensures Holds(a, p) == Holds(a', p) {}
    forall k | 0 <= k < |ca| && !ca[k].mark ensures SatClause(a', ca[k].lits) {
      var q :| q in ca[k].lits && Holds(a, q);
      assert Mentions(ca[k].lits, q.v);
    }
  }

  /** Every model of what is left rebuilds to a model of every clause ever added. */
  ghost predicate Rebuilds(ca: Db, trail: seq<Lit>, es: seq<Elim>, added: seq<seq<Lit>>) {
    forall a: Assignment :: RestSat(a, ca, trail, es) ==> SatAll(RebuildAll(a, es), added)
  }

  /** Everything that is left follows from the clauses added. */
  ghost predicate Follows(ca: Db, trail: seq<Lit>, added: seq<seq<Lit>>) {
    forall a: Assignment :: SatAll(a, added) ==> DbSat(a, ca, trail)
  }

  /** No live clause mentions an eliminated variable. */
  ghost predicate Clean(ca: Db, es: seq<Elim>) {
    forall k, i :: 0 <= k < |ca| && !ca[k].mark && 0 <= i < |es| ==> !Mentions(ca[k].lits, es[i].v)
  }

  /**
   * A change that only simplifies: the models stay the same, also when root facts about eliminated variables are left
   * out of account afterwards.
   */
  ghost predicate Simplifies(ca: Db, trail: seq<Lit>, ca': Db, trail': seq<Lit>, es: seq<Elim>) {
    && (forall a: Assignment :: RestSat(a, ca', trail', es) ==> RestSat(a, ca, trail, es))
    && SameModels(ca, trail, ca', trail')
  }

  lemma SimplifiesRefl(ca: Db, trail: seq<Lit>, es: seq<Elim>)
    ensures Simplifies(ca, trail, ca, trail, es)
  {}

  lemma SimplifiesTrans(ca: Db, trail: seq<Lit>, ca': Db, trail': seq<Lit>, ca'': Db, trail'': seq<Lit>, es: seq<Elim>)
    requires Simplifies(ca, trail, ca', trail', es) && Simplifies(ca', trail', ca'', trail'', es)
    ensures Simplifies(ca, trail, ca'', trail'', es)
  {
    hide DbSat, RestSat;
  }

  lemma SimplifiesKeeps(ca: Db, trail: seq<Lit>, ca': Db, trail': seq<Lit>, es: seq<Elim>, added: seq<seq<Lit>>)
    requires Simplifies(ca, trail, ca', trail', es) && Rebuilds(ca, trail, es, added) && Follows(ca, trail, added)
    ensures Rebuilds(ca', trail', es, added) && Follows(ca', trail', added)
  {
    hide DbSat, RestSat, SatAll;
  }

  /** The clauses added have a model exactly if what is left has one. */
  lemma SatisfiabilityKept(ca: Db, trail: seq<Lit>, es: seq<Elim>, added: seq<seq<Lit>>)
    requires Rebuilds(ca, trail, es, added) && Follows(ca, trail, added)
    ensures (exists a: Assignment :: SatAll(a, added)) <==> (exists a: Assignment :: RestSat(a, ca, trail, es))
  {
    hide SatAll, RebuildAll, LiveSat;
    if a: Assignment :| SatAll(a, added) { assert DbSat(a, ca, trail) && RestSat(a, ca, trail, es); }
    if a: Assignment :| RestSat(a, ca, trail, es) { assert SatAll(RebuildAll(a, es), added); }
  }

  lemma {:induction false} RebuildAllOther(a: Assignment, es: seq<Elim>, v: nat)
    requires !Eliminated(es, v) && forall i :: 0 <= i < |es| ==> ElimOk(es[i])
    ensures RebuildAll(a, es)(v) == a(v)
  {
    if es != [] {
      var e := es[|es| - 1];
      var rest := es[..|es| - 1];
      assert forall i :: 0 <= i < |rest| ==> rest[i] == es[i];
      RebuildAllOther(Rebuild(a, e), rest, v);
    }
  }

  lemma RebuildAllClause(a: Assignment, es: seq<Elim>, c: seq<Lit>)
    requires (forall i :: 0 <= i < |es| ==> ElimOk(es[i])) && forall p :: p in c ==> !Eliminated(es, p.v)
    ensures SatClause(RebuildAll(a, es), c) <==> SatClause(a, c)
  {
    hide RebuildAll;
    forall p | p in c ensures Holds(RebuildAll(a, es), p) <==> Holds(a, p) { RebuildAllOther(a, es, p.v); }
  }

  /** Adding a clause over variables that are still there. */
  lemma AddKeeps(ca: Db, trail: seq<Lit>, ca': Db, trail': seq<Lit>, es: seq<Elim>, added: seq<seq<Lit>>, c: seq<Lit>)
    requires Rebuilds(ca, trail, es, added) && Follows(ca, trail, added) && forall i :: 0 <= i < |es| ==> ElimOk(es[i])
    requires forall p :: p in c ==> !Eliminated(es, p.v)
    requires forall a: Assignment :: RestSat(a, ca', trail', es) ==> RestSat(a, ca, trail, es) && SatClause(a, c)
    requires forall a: Assignment :: DbSat(a, ca, trail) && SatClause(a, c) ==> DbSat(a, ca', trail')
    ensures Rebuilds(ca', trail', es, added + [c]) && Follows(ca', trail', added + [c])
  {
    hide DbSat, RestSat, SatAll, RebuildAll;
    forall a: Assignment | RestSat(a, ca', trail', es) ensures SatAll(RebuildAll(a, es), added + [c]) {
      RebuildAllClause(a, es, c);
      SatMore(RebuildAll(a, es), added, c);
    }
    forall a: Assignment | SatAll(a, added + [c]) ensures DbSat(a, ca', trail') { SatMore(a, added, c); }
  }

  // ---------------------------------------------------------------- eliminating a variable

  /** The clause is satisfied by a root fact, or contains a live clause. */
  ghost predicate Covered(r: seq<Lit>, ca: Db, trail: seq<Lit>) {
    (exists p :: p in r && p in trail) || exists k :: 0 <= k < |ca| && !ca[k].mark && Within(ca[k].lits, r)
  }

  ghost predicate Within(c: seq<Lit>, r: seq<Lit>) { forall l :: l in c ==> l in r }

  lemma CoveredSat(a: Assignment, r: seq<Lit>, ca: Db, trail: seq<Lit>, es: seq<Elim>)
    requires Covered(r, ca, trail) && RestSat(a, ca, trail, es) && forall p :: p in r ==> !Eliminated(es, p.v)
    ensures SatClause(a, r)
  {
    if p :| p in r && p in trail {
      assert Holds(a, p);
    } else {
      var k :| 0 <= k < |ca| && !ca[k].mark && Within(ca[k].lits, r);
      var l :| l in ca[k].lits && Holds(a, l);
    }
  }

  /** The clauses of `ca` without v are still there, those with v are gone; every resolvent is covered. */
  ghost predicate Eliminates(ca: Db, trail: seq<Lit>, ca': Db, trail': seq<Lit>, v: nat) {
    && |ca| <= |ca'| && trail <= trail'
    && (forall k :: 0 <= k < |ca| && !ca[k].mark && !Mentions(ca[k].lits, v) ==> ca'[k] == ca[k])
    && (forall p, q, r ::
      Side(ca, Lit(v, false), p) && Side(ca, Lit(v, true), q) && !Clash(p, q, v) && IsMerge(p, q, v, r) ==>
        Covered(r, ca', trail'))
  }

  lemma MergeMentions(ca: Db, p: seq<Lit>, q: seq<Lit>, v: nat, r: seq<Lit>, es: seq<Elim>, x: Lit, y: Lit)
    requires Side(ca, x, p) && Side(ca, y, q) && IsMerge(p, q, v, r) && Clean(ca, es)
    ensures forall l :: l in r ==> !Eliminated(es, l.v) && l.v != v
  {
    forall l | l in r ensures !Eliminated(es, l.v) && l.v != v {
      if l in p { SideClean(ca, x, p, es, l); } else { SideClean(ca, y, q, es, l); }
    }
  }

  lemma SideClean(ca: Db, x: Lit, p: seq<Lit>, es: seq<Elim>, l: Lit)
    requires Side(ca, x, p) && Clean(ca, es) && l in p
    ensures !Eliminated(es, l.v)
  {
    var k :| 0 <= k < |ca| && !ca[k].mark && ca[k].lits == p && x in p;
    assert Mentions(p, l.v);
  }

  lemma ResolventsCovered(a: Assignment, ca: Db, trail: seq<Lit>, ca': Db, trail': seq<Lit>, es: seq<Elim>, e: Elim)
    requires Eliminates(ca, trail, ca', trail', e.v) && Clean(ca, es) && RestSat(a, ca', trail', es + [e])
    ensures ResolventsSat(a, ca, e.v)
  {
    hide IsMerge, Clash, Side, Covered, RestSat;
    forall p, q, r | Side(ca, Lit(e.v, false), p) && Side(ca, Lit(e.v, true), q) && !Clash(p, q, e.v)
      && IsMerge(p, q, e.v, r)
      ensures SatClause(a, r)
    {
      MergeMentions(ca, p, q, e.v, r, es, Lit(e.v, false), Lit(e.v, true));
      assert forall l: Lit :: l in r ==> !Eliminated(es + [e], l.v);
      CoveredSat(a, r, ca', trail', es + [e]);
    }
  }

  lemma OthersKept(a: Assignment, ca: Db, trail: seq<Lit>, ca': Db, trail': seq<Lit>, es: seq<Elim>, e: Elim)
    requires Eliminates(ca, trail, ca', trail', e.v) && RestSat(a, ca', trail', es + [e])
    ensures OthersSat(a, ca, e.v)
  {}

  lemma RestUnits(a: Assignment, ca': Db, trail: seq<Lit>, trail': seq<Lit>, es: seq<Elim>, e: Elim)
    requires trail <= trail' && RestSat(a, ca', trail', es + [e]) && forall p :: p in trail ==> p.v != e.v
    requires e.dflt.v == e.v
    ensures forall p :: p in trail && !Eliminated(es, p.v) ==> Holds(Rebuild(a, e), p)
  {
    forall p | p in trail && !Eliminated(es, p.v) ensures Holds(Rebuild(a, e), p) {
      var k :| 0 <= k < |trail| && trail[k] == p;
      assert trail'[k] == p;
      assert !Eliminated(es + [e], p.v);
    }
  }

  /** One elimination keeps the promise of the log. */
  lemma ElimKeeps(ca: Db, trail: seq<Lit>, ca': Db, trail': seq<Lit>, es: seq<Elim>, e: Elim, added: seq<seq<Lit>>)
    requires ElimOk(e) && ProperDb(ca) && StoresSide(e, ca) && Clean(ca, es) && Rebuilds(ca, trail, es, added)
    requires (forall p :: p in trail ==> p.v != e.v) && Eliminates(ca, trail, ca', trail', e.v)
    ensures Rebuilds(ca', trail', es + [e], added)
  {
    hide Eliminates, StoresSide, ProperDb, ElimOk, Clean, SatAll, Rebuild, RebuildAll, OthersSat, ResolventsSat;
    hide RestSat;
    forall a: Assignment | RestSat(a, ca', trail', es + [e]) ensures SatAll(RebuildAll(a, es + [e]), added) {
      ElimRest(a, ca, trail, ca', trail', es, e);
      RebuildSnoc(a, es, e);
    }
  }

  lemma ElimRest(a: Assignment, ca: Db, trail: seq<Lit>, ca': Db, trail': seq<Lit>, es: seq<Elim>, e: Elim)
    requires ElimOk(e) && ProperDb(ca) && StoresSide(e, ca) && Clean(ca, es) && RestSat(a, ca', trail', es + [e])
    requires (forall p :: p in trail ==> p.v != e.v) && Eliminates(ca, trail, ca', trail', e.v)
    ensures RestSat(Rebuild(a, e), ca, trail, es)
  {
    hide StoresSide, ProperDb, Clean, SatClause, Rebuild, OthersSat, ResolventsSat;
    ResolventsCovered(a, ca, trail, ca', trail', es, e);
    OthersKept(a, ca, trail, ca', trail', es, e);
    RestUnits(a, ca', trail, trail', es, e);
    forall k | 0 <= k < |ca| && !ca[k].mark ensures SatClause(Rebuild(a, e), ca[k].lits) { RebuildSat(a, e, ca, k); }
  }

  // ---------------------------------------------------------------- the packed log

  function Codes(c: seq<Lit>): seq<nat> { seq(|c|, (k: nat) requires k < |c| => ToInt(c[k])) }

  /** Entries one after the other, each followed by its length. */
  function Pack(entries: seq<seq<Lit>>): seq<nat> {
    if entries == [] then [] else Pack(entries[..|entries| - 1]) + Written(entries[|entries| - 1])
  }

  function Written(c: seq<Lit>): seq<nat> { Codes(c) + [|c|] }

  /** What an elimination writes: the stored clauses, then the default as a unit. */
  function Entries(es: seq<Elim>): seq<seq<Lit>> {
    if es == [] then [] else Entries(es[..|es| - 1]) + es[|es| - 1].stored + [[es[|es| - 1].dflt]]
  }

  lemma {:induction false} PackJoin(s: seq<seq<Lit>>, t: seq<seq<Lit>>)
    ensures Pack(s + t) == Pack(s) + Pack(t)
  {
    hide Written;
    if t == [] {
      assert s + t == s;
    } else {
      var k := |t| - 1;
      assert (s + t)[..|s| + k] == s + t[..k] && (s + t)[|s| + k] == t[k];
      PackJoin(s, t[..k]);
    }
  }

  function SetTrue(model: seq<LBool>, p: Lit): seq<LBool> {
    if p.v < |model| then model[p.v := if p.s then False else True] else model
  }

  /** Some literal after the first is not false; an unassigned literal counts as well. */
  predicate Held(model: seq<LBool>, c: seq<Lit>) { exists k :: 1 <= k < |c| && Val(model, c[k]) != False }

  /** Reading one entry: unless another literal is not false, the first literal is made true. */
  function ReadEntry(model: seq<LBool>, c: seq<Lit>): seq<LBool> {
    if c == [] || Held(model, c) then model else SetTrue(model, c[0])
  }

  /** Reading the log backwards. */
  function ReadBack(model: seq<LBool>, entries: seq<seq<Lit>>): seq<LBool>
    decreases |entries|
  {
    if entries == [] then model else ReadBack(ReadEntry(model, entries[|entries| - 1]), entries[..|entries| - 1])
  }

  lemma {:induction false} ReadJoin(model: seq<LBool>, s: seq<seq<Lit>>, t: seq<seq<Lit>>)
    ensures ReadBack(model, s + t) == ReadBack(ReadBack(model, t), s)
    decreases |t|
  {
    if t == [] {
      assert s + t == s;
    } else {
      var k := |t| - 1;
      assert (s + t)[..|s| + k] == s + t[..k] && (s + t)[|s| + k] == t[k];
      ReadJoin(ReadEntry(model, t[k]), s, t[..k]);
    }
  }

  // ---------------------------------------------------------------- reading the log rebuilds a model

  function ToA(model: seq<LBool>): Assignment { (v: nat) => v < |model| && model[v] == True }

  /** All variables of the clause after the first literal have values. */
  predicate OthersKnown(model: seq<LBool>, c: seq<Lit>) {
    forall k :: 1 <= k < |c| ==> c[k].v < |model| && model[c[k].v] != Undef
  }

  lemma HeldIs(model: seq<LBool>, c: seq<Lit>)
    requires OthersKnown(model, c)
    ensures Held(model, c) <==> !OthersFalse(ToA(model), c)
  {
    forall k | 1 <= k < |c| ensures Val(model, c[k]) != False <==> Holds(ToA(model), c[k]) {}
  }

  predicate ForcesUpTo(a: Assignment, e: Elim, k: nat) {
    exists j :: 0 <= j < k && j < |e.stored| && OthersFalse(a, e.stored[j])
  }

  lemma OthersSame(a: Assignment, b: Assignment, v: nat, c: seq<Lit>)
    requires Proper(c) && |c| >= 1 && c[0].v == v && forall u: nat :: u != v ==> a(u) == b(u)
    ensures OthersFalse(a, c) <==> OthersFalse(b, c)
  {
    forall k | 1 <= k < |c| ensures Holds(a, c[k]) <==> Holds(b, c[k]) { assert c[0].v != c[k].v; }
  }

  /** One stored clause, read while only the eliminated variable has changed. */
  lemma ReadOne(m: seq<LBool>, m0: seq<LBool>, e: Elim, c: seq<Lit>)
    requires Proper(c) && |c| >= 1 && c[0] == Neg(e.dflt) && e.dflt.v == e.v < |m| == |m0|
    requires OthersKnown(m0[e.v := True], c) && forall u: nat :: u < |m| && u != e.v ==> m[u] == m0[u]
    ensures ReadEntry(m, c) == if OthersFalse(ToA(m0), c) then SetTrue(m, Neg(e.dflt)) else m
  {
    hide Held, OthersFalse;
    KnownOther(m0, m, e, c);
    HeldIs(m, c);
    OthersSame(ToA(m), ToA(m0), e.v, c);
  }

  lemma ForcesSnoc(a: Assignment, e: Elim, k: nat)
    requires 0 < k <= |e.stored|
    ensures ForcesUpTo(a, e, k) <==> ForcesUpTo(a, e, k - 1) || OthersFalse(a, e.stored[k - 1])
  {
    hide OthersFalse;
  }

  /** The stored clauses of one variable, read backwards: the opposite value is set if some clause forces it. */
  lemma {:induction false} ReadStored(m: seq<LBool>, m0: seq<LBool>, e: Elim, k: nat)
    requires ElimOk(e) && k <= |e.stored| && e.v < |m| == |m0|
    requires (forall u: nat :: u < |m| && u != e.v ==> m[u] == m0[u])
    requires forall j :: 0 <= j < k ==> OthersKnown(m0[e.v := True], e.stored[j])
    ensures ReadBack(m, e.stored[..k]) == if ForcesUpTo(ToA(m0), e, k) then SetTrue(m, Neg(e.dflt)) else m
    decreases k
  {
    hide ForcesUpTo, OthersFalse, OthersKnown, ReadEntry;
    if k > 0 {
      var c := e.stored[k - 1];
      assert e.stored[..k][..k - 1] == e.stored[..k - 1];
      ReadOne(m, m0, e, c);
      ReadStored(ReadEntry(m, c), m0, e, k - 1);
      ForcesSnoc(ToA(m0), e, k);
      assert SetTrue(SetTrue(m, Neg(e.dflt)), Neg(e.dflt)) == SetTrue(m, Neg(e.dflt));
    } else {
      assert e.stored[..0] == [];
      ForcesNone(ToA(m0), e);
    }
  }

  lemma ForcesNone(a: Assignment, e: Elim)
    ensures !ForcesUpTo(a, e, 0)
  {}

  lemma KnownOther(m0: seq<LBool>, m: seq<LBool>, e: Elim, c: seq<Lit>)
    requires Proper(c) && |c| >= 1 && c[0].v == e.v && e.v < |m| == |m0| && OthersKnown(m0[e.v := True], c)
    requires forall u: nat :: u < |m| && u != e.v ==> m[u] == m0[u]
    ensures OthersKnown(m, c)
  {
    forall k | 1 <= k < |c| ensures c[k].v < |m| && m[c[k].v] != Undef { assert c[0].v != c[k].v; }
  }

  /** Undoing one elimination on a model whose other variables have values. */
  lemma ReadElim(m: seq<LBool>, e: Elim)
    requires ElimOk(e) && e.v < |m| && forall j :: 0 <= j < |e.stored| ==> OthersKnown(m[e.v := True], e.stored[j])
    ensures ReadBack(m, e.stored + [[e.dflt]]) == SetTrue(m, if Forces(ToA(m), e) then Neg(e.dflt) else e.dflt)
  {
    hide ReadBack, ForcesUpTo, Forces, OthersKnown, OthersFalse, ReadEntry;
    var m1 := SetTrue(m, e.dflt);
    ReadJoin(m, e.stored, [[e.dflt]]);
    ReadUnit(m, e.dflt);
    ReadStored(m1, m, e, |e.stored|);
    assert e.stored[..|e.stored|] == e.stored;
    ForcesAll(ToA(m), e);
    SetTwice(m, e.dflt);
  }

  lemma ReadUnit(m: seq<LBool>, p: Lit)
    ensures ReadBack(m, [[p]]) == SetTrue(m, p)
  {
    assert [[p]][..0] == [];
    assert ReadBack(ReadEntry(m, [p]), []) == SetTrue(m, p);
  }

  lemma ForcesAll(a: Assignment, e: Elim)
    ensures ForcesUpTo(a, e, |e.stored|) <==> Forces(a, e)
  {
    hide OthersFalse;
  }

  lemma SetTwice(m: seq<LBool>, p: Lit)
    ensures SetTrue(SetTrue(m, p), Neg(p)) == SetTrue(m, Neg(p))
  {}

  /** The log in order: a stored clause mentions no variable that was eliminated before. */
  ghost predicate LogOk(es: seq<Elim>, n: nat) {
    && (forall i :: 0 <= i < |es| ==> ElimOk(es[i]) && es[i].v < n)
    && (forall i, j :: 0 <= i < j < |es| ==> es[i].v != es[j].v)
    && (forall i, k, l, j :: 0 <= j < i < |es| && 0 <= k < |es[i].stored| && 0 <= l < |es[i].stored[k]| ==>
      es[i].stored[k][l].v != es[j].v)
    && (forall i, k, l :: 0 <= i < |es| && 0 <= k < |es[i].stored| && 0 <= l < |es[i].stored[k]| ==>
      es[i].stored[k][l].v < n)
  }

  lemma LogPrefix(es: seq<Elim>, n: nat, k: nat)
    requires LogOk(es, n) && k <= |es|
    ensures LogOk(es[..k], n)
  {
    var f := es[..k];
    assert forall i :: 0 <= i < |f| ==> f[i] == es[i];
  }

  /** Every variable that was not eliminated has a value. */
  ghost predicate Known(m: seq<LBool>, es: seq<Elim>) {
    forall v: nat :: v < |m| && !Eliminated(es, v) ==> m[v] != Undef
  }

  lemma LastKnown(m: seq<LBool>, es: seq<Elim>, n: nat, j: nat)
    requires es != [] && LogOk(es, n) && |m| == n && Known(m, es) && j < |es[|es| - 1].stored|
    ensures OthersKnown(m[es[|es| - 1].v := True], es[|es| - 1].stored[j])
  {
    var i := |es| - 1;
    var e := es[i];
    var c := e.stored[j];
    forall l | 1 <= l < |c| ensures c[l].v < n && m[e.v := True][c[l].v] != Undef {
      assert c[0].v != c[l].v;
      assert es[i].stored[j][l].v < n;
      forall x | 0 <= x < |es| ensures es[x].v != c[l].v {
        if x < i { assert es[i].stored[j][l].v != es[x].v; }
      }
    }
  }

  lemma SetTrueIs(m: seq<LBool>, p: Lit, u: nat)
    requires p.v < |m| && u < |m|
    ensures ToA(SetTrue(m, p))(u) == Make(ToA(m), p)(u) && |SetTrue(m, p)| == |m|
  {}

  lemma {:induction false} RebuildAgree(a: Assignment, b: Assignment, es: seq<Elim>, n: nat)
    requires LogOk(es, n) && forall u: nat :: u < n ==> a(u) == b(u)
    ensures forall u: nat :: u < n ==> RebuildAll(a, es)(u) == RebuildAll(b, es)(u)
  {
    if es != [] {
      var i := |es| - 1;
      LogPrefix(es, n, i);
      ForcesAgree(a, b, es, n, i);
      RebuildAgree(Rebuild(a, es[i]), Rebuild(b, es[i]), es[..i], n);
    }
  }

  lemma ForcesAgree(a: Assignment, b: Assignment, es: seq<Elim>, n: nat, i: nat)
    requires LogOk(es, n) && i < |es| && forall u: nat :: u < n ==> a(u) == b(u)
    ensures Forces(a, es[i]) <==> Forces(b, es[i])
  {
    forall k | 0 <= k < |es[i].stored| ensures OthersFalse(a, es[i].stored[k]) <==> OthersFalse(b, es[i].stored[k]) {
      var c := es[i].stored[k];
      forall l | 0 <= l < |c| ensures Holds(a, c[l]) <==> Holds(b, c[l]) { assert es[i].stored[k][l].v < n; }
    }
  }

  /** The last elimination is undone first. */
  lemma ReadLast(m: seq<LBool>, es: seq<Elim>, n: nat) returns (m1: seq<LBool>)
    requires es != [] && LogOk(es, n) && |m| == n && Known(m, es)
    ensures |m1| == n && Known(m1, es[..|es| - 1]) && ReadBack(m, Entries(es)) == ReadBack(m1, Entries(es[..|es| - 1]))
    ensures forall u: nat :: u < n ==> ToA(m1)(u) == Rebuild(ToA(m), es[|es| - 1])(u)
  {
    hide Known, OthersKnown, Forces, ToA, Make;
    var i := |es| - 1;
    var e := es[i];
    forall j | 0 <= j < |e.stored| ensures OthersKnown(m[e.v := True], e.stored[j]) { LastKnown(m, es, n, j); }
    ReadElim(m, e);
    assert Entries(es) == Entries(es[..i]) + (e.stored + [[e.dflt]]);
    ReadJoin(m, Entries(es[..i]), e.stored + [[e.dflt]]);
    var p := if Forces(ToA(m), e) then Neg(e.dflt) else e.dflt;
    m1 := SetTrue(m, p);
    KnownMore(m, es, p, n);
    forall u: nat | u < n ensures ToA(m1)(u) == Rebuild(ToA(m), e)(u) { SetTrueIs(m, p, u); }
  }

  /** Reading the packed log backwards gives every variable a value and rebuilds the assignment. */
  lemma {:induction false} ReadAll(m: seq<LBool>, es: seq<Elim>, n: nat)
    requires LogOk(es, n) && |m| == n && Known(m, es)
    ensures var m' := ReadBack(m, Entries(es));
      && |m'| == n && (forall v: nat :: v < n ==> m'[v] != Undef)
      && forall v: nat :: v < n ==> ToA(m')(v) == RebuildAll(ToA(m), es)(v)
    decreases |es|
  {
    if es != [] {
      hide LogOk, ToA, Rebuild, Entries, ReadBack;
      var i := |es| - 1;
      var m1 := ReadLast(m, es, n);
      LogPrefix(es, n, i);
      ReadAll(m1, es[..i], n);
      RebuildAgree(ToA(m1), Rebuild(ToA(m), es[i]), es[..i], n);
    } else {
      assert forall v: nat :: !Eliminated(es, v);
    }
  }

  lemma KnownMore(m: seq<LBool>, es: seq<Elim>, p: Lit, n: nat)
    requires es != [] && Known(m, es) && |m| == n && p.v == es[|es| - 1].v && p.v < n
    ensures Known(SetTrue(m, p), es[..|es| - 1])
  {
    var f := es[..|es| - 1];
    forall v: nat | v < n && !Eliminated(f, v) && v != p.v ensures !Eliminated(es, v) {
      forall i | 0 <= i < |es| ensures es[i].v != v {
        if i < |f| { assert f[i] == es[i]; }
      }
    }
  }

  ghost predicate VarsBelowAll(f: seq<seq<Lit>>, n: nat) { forall c, p :: c in f && p in c ==> p.v < n }

  /** A model of what is left, extended through the log, is a model of every clause added. */
  lemma ModelExtends(m: seq<LBool>, ca: Db, trail: seq<Lit>, es: seq<Elim>, added: seq<seq<Lit>>, n: nat)
    requires LogOk(es, n) && |m| == n && Known(m, es) && Rebuilds(ca, trail, es, added) && VarsBelowAll(added, n)
    requires RestSat(ToA(m), ca, trail, es)
    ensures var m' := ReadBack(m, Entries(es));
      |m'| == n && (forall v: nat :: v < n ==> m'[v] != Undef) && SatAll(ToA(m'), added)
  {
    hide RestSat, Entries, ReadBack, RebuildAll, LogOk, Known;
    ReadAll(m, es, n);
    var m' := ReadBack(m, Entries(es));
    assert SatAll(RebuildAll(ToA(m), es), added);
    forall c | c in added ensures SatClause(ToA(m'), c) {
      var p :| p in c && Holds(RebuildAll(ToA(m), es), p);
      assert Holds(ToA(m'), p);
    }
  }

  // ---------------------------------------------------------------- the state of the preprocessor

  function Mask(lits: seq<Lit>): (m: set<nat>)
    ensures forall b :: b in m <==> exists k :: 0 <= k < |lits| && lits[k].v % 32 == b
  {
    set k | 0 <= k < |lits| :: lits[k].v % 32
  }


  /** The values are those of the root facts. */
  ghost predicate AssignsOk(assigns: seq<LBool>, trail: seq<Lit>) {
    && (forall p :: p in trail ==> p.v < |assigns|)
    && forall p: Lit :: p.v < |assigns| ==> (p in trail <==> Val(assigns, p) == True)
  }

  ghost predicate ClauseOk(c: SClause, n: nat) {
    Proper(c.lits) && |c.lits| >= 2 && VarsBelow(c.lits, n) && c.abs == Mask(c.lits)
  }

  ghost predicate DbOk(ca: Db, n: nat) { forall k :: 0 <= k < |ca| && !ca[k].mark ==> ClauseOk(ca[k], n) }

  ghost predicate NoDup(s: seq<nat>) { forall i, j :: 0 <= i < j < |s| ==> s[i] != s[j] }

  /** Among the live clauses, the list of v holds exactly those that mention it, once; deleted ones may linger. */
  ghost predicate OccursOk(occurs: seq<seq<nat>>, ca: Db) {
    && (forall v, i :: 0 <= v < |occurs| && 0 <= i < |occurs[v]| ==> occurs[v][i] < |ca|)
    && (forall v :: 0 <= v < |occurs| ==> NoDup(occurs[v]))
    && forall v: nat, k: nat :: v < |occurs| && k < |ca| && !ca[k].mark ==>
      (k in occurs[v] <==> Mentions(ca[k].lits, v))
  }

  /** Clauses are only appended, facts only added. */
  predicate Grown(ca: Db, trail: seq<Lit>, ca': Db, trail': seq<Lit>) { ca <= ca' && trail <= trail' }

  lemma GrownSat(a: Assignment, ca: Db, trail: seq<Lit>, ca': Db, trail': seq<Lit>, es: seq<Elim>)
    requires Grown(ca, trail, ca', trail')
    ensures DbSat(a, ca', trail') ==> DbSat(a, ca, trail)
    ensures RestSat(a, ca', trail', es) ==> RestSat(a, ca, trail, es)
  {
    if LiveSat(a, ca') {
      forall k | 0 <= k < |ca| && !ca[k].mark ensures SatClause(a, ca[k].lits) { assert ca'[k] == ca[k]; }
    }
    forall p | p in trail ensures p in trail' {
      var k :| 0 <= k < |trail| && trail[k] == p;
      assert trail'[k] == p;
    }
  }

  lemma GrownTrans(ca: Db, trail: seq<Lit>, ca': Db, trail': seq<Lit>, ca'': Db, trail'': seq<Lit>)
    requires Grown(ca, trail, ca', trail') && Grown(ca', trail', ca'', trail'')
    ensures Grown(ca, trail, ca'', trail'')
  {}

  lemma GrownCovered(r: seq<Lit>, ca: Db, trail: seq<Lit>, ca': Db, trail': seq<Lit>)
    requires Covered(r, ca, trail) && Grown(ca, trail, ca', trail')
    ensures Covered(r, ca', trail')
  {
    if p :| p in r && p in trail {
      var k :| 0 <= k < |trail| && trail[k] == p;
      assert trail'[k] == p;
    } else {
      var k :| 0 <= k < |ca| && !ca[k].mark && Within(ca[k].lits, r);
      assert ca'[k] == ca[k];
    }
  }

  /** A new fact that every model has. */
  lemma FactGrown(ca: Db, trail: seq<Lit>, p: Lit)
    requires forall a: Assignment :: DbSat(a, ca, trail) ==> Holds(a, p)
    ensures forall a: Assignment :: DbSat(a, ca, trail) ==> DbSat(a, ca, trail + [p])
  {
    forall a: Assignment | DbSat(a, ca, trail) ensures UnitsSat(a, trail + [p]) {}
  }

  lemma FalseAtRoot(a: Assignment, trail: seq<Lit>, l: Lit)
    requires UnitsSat(a, trail) && Neg(l) in trail
    ensures !Holds(a, l)
  {}

  /** All literals but p are false at the root, so every model has p. */
  lemma UnitClause(a: Assignment, ca: Db, trail: seq<Lit>, k: nat, p: Lit)
    requires DbSat(a, ca, trail) && k < |ca| && !ca[k].mark && forall l :: l in ca[k].lits && l != p ==> Neg(l) in trail
    ensures Holds(a, p)
  {
    var l :| l in ca[k].lits && Holds(a, l);
    if l != p { FalseAtRoot(a, trail, l); }
  }

  lemma FalseClause(ca: Db, trail: seq<Lit>, k: nat)
    requires k < |ca| && !ca[k].mark && forall l :: l in ca[k].lits ==> Neg(l) in trail
    ensures NoModels(ca, trail)
  {
    forall a: Assignment ensures !DbSat(a, ca, trail) {
      if DbSat(a, ca, trail) {
        var l :| l in ca[k].lits && Holds(a, l);
        FalseAtRoot(a, trail, l);
      }
    }
  }

  lemma AssignFact(assigns: seq<LBool>, trail: seq<Lit>, p: Lit)
    requires AssignsOk(assigns, trail) && p.v < |assigns| && Val(assigns, p) == Undef
    ensures AssignsOk(assigns[p.v := if p.s then False else True], trail + [p])
  {}

  // ---------------------------------------------------------------- adding a clause

  /** What reducing the first i literals of ps at the root leaves. */
  ghost predicate KeptUpTo(assigns: seq<LBool>, trail: seq<Lit>, ps: seq<Lit>, i: nat, kept: seq<Lit>) {
    && i <= |ps| && Proper(kept) && (forall l :: l in kept ==> l in ps && l.v < |assigns| && Val(assigns, l) == Undef)
    && forall k :: 0 <= k < i ==> ps[k] in kept || Neg(ps[k]) in trail
  }

  lemma KeepNext(assigns: seq<LBool>, trail: seq<Lit>, ps: seq<Lit>, i: nat, kept: seq<Lit>)
    requires AssignsOk(assigns, trail) && KeptUpTo(assigns, trail, ps, i, kept) && i < |ps| && ps[i].v < |assigns|
    requires Neg(ps[i]) !in kept && Val(assigns, ps[i]) != True
    ensures KeptUpTo(assigns, trail, ps, i + 1, if Val(assigns, ps[i]) == False || ps[i] in kept then kept
      else kept + [ps[i]])
  {
    hide Proper;
    var p := ps[i];
    if Val(assigns, p) == False {
      assert Val(assigns, Neg(p)) == True;
    } else if p !in kept {
      KeepProper(kept, p);
      assert p in ps;
    }
  }

  lemma KeepProper(kept: seq<Lit>, p: Lit)
    requires Proper(kept) && p !in kept && Neg(p) !in kept
    ensures Proper(kept + [p])
  {
    forall k | 0 <= k < |kept| ensures kept[k].v != p.v {
      assert kept[k] in kept;
      assert kept[k] == p || kept[k] == Neg(p) || kept[k].v != p.v;
    }
  }

  /** A model of the clause with the root facts has one of the literals kept. */
  lemma KeptSat(a: Assignment, assigns: seq<LBool>, trail: seq<Lit>, ps: seq<Lit>, kept: seq<Lit>)
    requires KeptUpTo(assigns, trail, ps, |ps|, kept) && UnitsSat(a, trail) && SatClause(a, ps)
    ensures SatClause(a, kept)
  {
    var l :| l in ps && Holds(a, l);
    var k :| 0 <= k < |ps| && ps[k] == l;
    if l !in kept { FalseAtRoot(a, trail, l); }
  }

  /** Appending a live clause. */
  lemma AppendSat(a: Assignment, ca: Db, trail: seq<Lit>, c: SClause)
    requires !c.mark
    ensures DbSat(a, ca + [c], trail) <==> DbSat(a, ca, trail) && SatClause(a, c.lits)
  {
    hide SatClause;
    var ca' := ca + [c];
    if LiveSat(a, ca') {
      assert ca'[|ca|] == c;
      forall k | 0 <= k < |ca| && !ca[k].mark ensures SatClause(a, ca[k].lits) { assert ca'[k] == ca[k]; }
    }
  }

  /** Every list of a variable of the new clause gets the new reference. */
  ghost predicate Recorded(occurs: seq<seq<nat>>, occurs': seq<seq<nat>>, c: seq<Lit>, cr: nat) {
    |occurs'| == |occurs| && forall v: nat :: v < |occurs| ==> occurs'[v] == if Mentions(c, v) then occurs[v] + [cr]
      else occurs[v]
  }

  lemma RecordedOk(occurs: seq<seq<nat>>, occurs': seq<seq<nat>>, ca: Db, c: SClause)
    requires OccursOk(occurs, ca) && Recorded(occurs, occurs', c.lits, |ca|)
    ensures OccursOk(occurs', ca + [c])
  {
    hide Mentions;
    var ca' := ca + [c];
    forall v, i | 0 <= v < |occurs'| && 0 <= i < |occurs'[v]| ensures occurs'[v][i] < |ca'| {
      if i < |occurs[v]| { assert occurs'[v][i] == occurs[v][i]; }
    }
    forall v: nat, k: nat | v < |occurs'| && k < |ca'| && !ca'[k].mark
      ensures k in occurs'[v] <==> Mentions(ca'[k].lits, v)
    {
      if k < |ca| {
        assert ca'[k] == ca[k];
        assert k in occurs[v] <==> Mentions(ca[k].lits, v);
      } else {
        forall i | 0 <= i < |occurs[v]| ensures occurs[v][i] != k {}
      }
    }
    forall v | 0 <= v < |occurs'| ensures NoDup(occurs'[v]) { assert NoDup(occurs[v]); }
  }

  lemma DbOkAppend(ca: Db, n: nat, c: SClause)
    requires DbOk(ca, n) && ClauseOk(c, n)
    ensures DbOk(ca + [c], n)
  {}

  lemma AppendCovers(ps: seq<Lit>, ca: Db, trail: seq<Lit>, c: SClause)
    requires !c.mark && forall l :: l in c.lits ==> l in ps
    ensures Covered(ps, ca + [c], trail)
  {
    var ca' := ca + [c];
    assert ca'[|ca|] == c && Within(ca'[|ca|].lits, ps);
  }

  // ---------------------------------------------------------------- removing and strengthening clauses

  /** The clause without its first occurrence of l. */
  function Drop(c: seq<Lit>, l: Lit): seq<Lit> {
    if c == [] then [] else if c[0] == l then c[1..] else [c[0]] + Drop(c[1..], l)
  }

  lemma {:induction false} DropFacts(c: seq<Lit>, l: Lit)
    requires Proper(c) && l in c
    ensures Proper(Drop(c, l)) && |Drop(c, l)| == |c| - 1
    ensures forall x :: x in Drop(c, l) <==> x in c && x != l
  {
    var rest := c[1..];
    forall x | x in rest ensures x.v != c[0].v {
      var k :| 0 <= k < |rest| && rest[k] == x;
      assert c[k + 1] == x;
    }
    if c[0] != l {
      DropFacts(rest, l);
      var d := Drop(rest, l);
      forall k | 0 <= k < |d| ensures d[k].v != c[0].v { assert d[k] in rest; }
    } else {
      assert l !in rest;
    }
  }

  function Total(ca: Db): nat {
    if ca == [] then 0 else Total(ca[..|ca| - 1]) + if ca[|ca| - 1].mark then 0 else |ca[|ca| - 1].lits|
  }

  lemma {:induction false} TotalUpdate(ca: Db, k: nat, c: SClause)
    requires k < |ca|
    ensures Total(ca[k := c]) + (if ca[k].mark then 0 else |ca[k].lits|) == Total(ca) + if c.mark then 0 else |c.lits|
  {
    var n := |ca| - 1;
    if k == n {
      assert ca[k := c][..n] == ca[..n];
    } else {
      assert ca[k := c][..n] == ca[..n][k := c];
      TotalUpdate(ca[..n], k, c);
    }
  }

  lemma DeleteOk(occurs: seq<seq<nat>>, ca: Db, n: nat, cr: nat, es: seq<Elim>)
    requires OccursOk(occurs, ca) && DbOk(ca, n) && cr < |ca|
    ensures OccursOk(occurs, ca[cr := ca[cr].(mark := true)]) && DbOk(ca[cr := ca[cr].(mark := true)], n)
    ensures Clean(ca, es) ==> Clean(ca[cr := ca[cr].(mark := true)], es)
  {}

  /** Deleting a clause that the rest implies. */
  lemma DeleteSimplifies(ca: Db, trail: seq<Lit>, cr: nat, es: seq<Elim>, trail': seq<Lit>)
    requires cr < |ca| && trail <= trail'
    requires forall a: Assignment :: RestSat(a, ca[cr := ca[cr].(mark := true)], trail', es) ==>
      SatClause(a, ca[cr].lits)
    requires forall a: Assignment :: DbSat(a, ca, trail) ==> UnitsSat(a, trail')
    ensures Simplifies(ca, trail, ca[cr := ca[cr].(mark := true)], trail', es)
  {
    hide SatClause;
    var ca' := ca[cr := ca[cr].(mark := true)];
    forall a: Assignment | RestSat(a, ca', trail', es) ensures RestSat(a, ca, trail, es) {
      forall k | 0 <= k < |ca| && !ca[k].mark ensures SatClause(a, ca[k].lits) {
        if k != cr { assert ca'[k] == ca[k]; }
      }
      RestTrail(a, ca', trail, trail', es);
    }
    forall a: Assignment ensures DbSat(a, ca, trail) <==> DbSat(a, ca', trail') {
      if DbSat(a, ca', trail') {
        assert RestSat(a, ca', trail', es);
        assert RestSat(a, ca, trail, es);
        RestTrail(a, ca', trail, trail', []);
      }
    }
  }

  lemma RestTrail(a: Assignment, ca: Db, trail: seq<Lit>, trail': seq<Lit>, es: seq<Elim>)
    requires trail <= trail' && RestSat(a, ca, trail', es)
    ensures forall p :: p in trail && !Eliminated(es, p.v) ==> Holds(a, p)
  {
    forall p | p in trail && !Eliminated(es, p.v) ensures Holds(a, p) {
      var k :| 0 <= k < |trail| && trail[k] == p;
      assert trail'[k] == p;
    }
  }

  /** Shortening a clause to one that all models satisfy. */
  lemma ShortenSimplifies(ca: Db, trail: seq<Lit>, cr: nat, c: SClause, es: seq<Elim>)
    requires cr < |ca| && !ca[cr].mark && !c.mark && forall l :: l in c.lits ==> l in ca[cr].lits
    requires forall a: Assignment :: DbSat(a, ca, trail) ==> SatClause(a, c.lits)
    ensures Simplifies(ca, trail, ca[cr := c], trail, es)
  {
    var ca' := ca[cr := c];
    forall a: Assignment | LiveSat(a, ca') ensures LiveSat(a, ca) {
      forall k | 0 <= k < |ca| && !ca[k].mark ensures SatClause(a, ca[k].lits) {
        if k != cr { assert ca'[k] == ca[k]; } else {
          assert ca'[cr] == c;
          var l :| l in c.lits && Holds(a, l);
        }
      }
    }
    forall a: Assignment | DbSat(a, ca, trail) ensures LiveSat(a, ca') {
      forall k | 0 <= k < |ca'| && !ca'[k].mark ensures SatClause(a, ca'[k].lits) {
        if k != cr { assert ca'[k] == ca[k]; }
      }
    }
  }

  ghost predicate Shortened(occurs: seq<seq<nat>>, occurs': seq<seq<nat>>, v: nat, cr: nat) {
    && |occurs'| == |occurs| && v < |occurs| && (forall u :: 0 <= u < |occurs| && u != v ==> occurs'[u] == occurs[u])
    && exists j: nat :: Removed(occurs[v], occurs'[v], cr, j)
  }

  ghost predicate Removed(s: seq<nat>, s': seq<nat>, x: nat, j: nat) {
    j < |s| && s[j] == x && s' == s[..j] + s[j + 1..]
  }

  lemma RemovedOk(s: seq<nat>, s': seq<nat>, x: nat, j: nat)
    requires Removed(s, s', x, j) && NoDup(s)
    ensures NoDup(s') && forall k :: k in s' <==> k in s && k != x
  {
    forall k ensures k in s' <==> k in s && k != x {
      if k in s && k != x {
        var i :| 0 <= i < |s| && s[i] == k;
        assert s'[if i < j then i else i - 1] == k;
      }
      if k in s' {
        var i :| 0 <= i < |s'| && s'[i] == k;
        assert k == s[if i < j then i else i + 1];
      }
    }
  }

  lemma ShortenOk(occurs: seq<seq<nat>>, occurs': seq<seq<nat>>, ca: Db, n: nat, cr: nat, c: SClause, l: Lit,
      es: seq<Elim>)
    requires OccursOk(occurs, ca) && DbOk(ca, n) && cr < |ca| && !ca[cr].mark && !c.mark && l in ca[cr].lits
    requires ClauseOk(c, n) && (forall x :: x in c.lits <==> x in ca[cr].lits && x != l)
    requires Shortened(occurs, occurs', l.v, cr)
    ensures OccursOk(occurs', ca[cr := c]) && DbOk(ca[cr := c], n) && (Clean(ca, es) ==> Clean(ca[cr := c], es))
  {
    hide Mentions, ClauseOk;
    var ca' := ca[cr := c];
    ShortMentions(ca[cr].lits, c.lits, l, n, ca[cr]);
    var j0: nat :| Removed(occurs[l.v], occurs'[l.v], cr, j0);
    RemovedOk(occurs[l.v], occurs'[l.v], cr, j0);
    forall v, i | 0 <= v < |occurs'| && 0 <= i < |occurs'[v]| ensures occurs'[v][i] < |ca'| {
      assert occurs'[v][i] in occurs'[v];
      assert occurs'[v][i] in occurs[v];
      var j :| 0 <= j < |occurs[v]| && occurs[v][j] == occurs'[v][i];
    }
    forall v: nat, k: nat | v < |occurs'| && k < |ca'| && !ca'[k].mark
      ensures k in occurs'[v] <==> Mentions(ca'[k].lits, v)
    {
      assert k in occurs[v] <==> Mentions(ca[k].lits, v);
    }
  }

  lemma OtherVariable(c: seq<Lit>, l: Lit, x: Lit)
    requires Proper(c) && l in c && x in c && x != l
    ensures x.v != l.v
  {
    var i :| 0 <= i < |c| && c[i] == l;
    var j :| 0 <= j < |c| && c[j] == x;
    assert i != j;
  }

  lemma ShortMentions(c: seq<Lit>, d: seq<Lit>, l: Lit, n: nat, cl: SClause)
    requires ClauseOk(cl, n) && cl.lits == c && l in c && forall x :: x in d <==> x in c && x != l
    ensures forall v: nat :: Mentions(d, v) <==> Mentions(c, v) && v != l.v
  {
    forall v: nat ensures Mentions(d, v) <==> Mentions(c, v) && v != l.v {
      if Mentions(d, v) {
        var k :| 0 <= k < |d| && d[k].v == v;
        assert d[k] in c;
        var j :| 0 <= j < |c| && c[j] == d[k];
        OtherVariable(c, l, d[k]);
      }
      if Mentions(c, v) && v != l.v {
        var k :| 0 <= k < |c| && c[k].v == v;
        assert c[k] in d;
        var j :| 0 <= j < |d| && d[j] == c[k];
      }
    }
  }

  // ---------------------------------------------------------------- backward subsumption

  /** A clause to scan with: a root fact as a unit, or a live clause. */
  ghost predicate Scanning(c: SClause, unit: bool, cr: nat, ca: Db, trail: seq<Lit>) {
    if unit then |c.lits| == 1 && c.lits[0] in trail else cr < |ca| && ca[cr] == c && !c.mark
  }

  lemma ScanningSat(a: Assignment, c: SClause, unit: bool, cr: nat, ca: Db, trail: seq<Lit>)
    requires Scanning(c, unit, cr, ca, trail) && DbSat(a, ca, trail)
    ensures SatClause(a, c.lits)
  {
    if unit { assert c.lits[0] in c.lits; }
  }

  /** A clause that contains another one may go. */
  lemma SubsumedImplied(a: Assignment, c: SClause, unit: bool, cr: nat, ca: Db, trail: seq<Lit>, dr: nat, es: seq<Elim>)
    requires Scanning(c, unit, cr, ca, trail) && dr < |ca| && !ca[dr].mark && (unit || dr != cr) && Clean(ca, es)
    requires forall l :: l in c.lits ==> l in ca[dr].lits
    requires RestSat(a, ca[dr := ca[dr].(mark := true)], trail, es)
    ensures SatClause(a, ca[dr].lits)
  {
    var d := ca[dr].lits;
    if unit {
      var l := c.lits[0];
      assert l in c.lits;
      NotEliminated(ca, es, dr, l);
    } else {
      assert ca[dr := ca[dr].(mark := true)][cr] == c;
      var l :| l in c.lits && Holds(a, l);
    }
  }

  lemma NotEliminated(ca: Db, es: seq<Elim>, k: nat, l: Lit)
    requires Clean(ca, es) && k < |ca| && !ca[k].mark && l in ca[k].lits
    ensures !Eliminated(es, l.v)
  {
    assert Mentions(ca[k].lits, l.v);
  }

  /** Resolving with the scanned clause removes the complement of p. */
  lemma StrengthenImplied(a: Assignment, c: SClause, unit: bool, cr: nat, ca: Db, trail: seq<Lit>, dr: nat, p: Lit)
    requires Scanning(c, unit, cr, ca, trail) && dr < |ca| && !ca[dr].mark && Proper(c.lits) && Proper(ca[dr].lits)
    requires p in c.lits && Neg(p) in ca[dr].lits && forall l :: l in c.lits && l != p ==> l in ca[dr].lits
    requires DbSat(a, ca, trail)
    ensures SatClause(a, Drop(ca[dr].lits, Neg(p)))
  {
    var d := ca[dr].lits;
    DropFacts(d, Neg(p));
    ScanningSat(a, c, unit, cr, ca, trail);
    if Holds(a, p) {
      var l :| l in d && Holds(a, l);
      assert l in Drop(d, Neg(p));
    } else {
      var l :| l in c.lits && Holds(a, l);
      if l == Neg(p) { OneSign(c.lits, p.v, p, Neg(p)); }
      assert l in Drop(d, Neg(p));
    }
  }

  // ---------------------------------------------------------------- steps of an elimination

  /** The literals of a clause with the one on v exchanged to the front. */
  function Front(c: seq<Lit>, k: nat): (r: seq<Lit>)
    requires k < |c|
    ensures |r| == |c| && r[0] == c[k]
  {
    c[k := c[0]][0 := c[k]]
  }

  lemma FrontFacts(c: seq<Lit>, k: nat)
    requires Proper(c) && k < |c|
    ensures Proper(Front(c, k)) && SameLits(c, Front(c, k))
  {
    var f := Front(c, k);
    forall l ensures l in c <==> l in f {
      if l in c {
        var i :| 0 <= i < |c| && c[i] == l;
        assert f[if i == k then 0 else if i == 0 then k else i] == l;
      }
    }
  }

  /** The clauses listed are live, contain p, and are all that do. */
  ghost predicate Lists(ca: Db, p: Lit, cs: seq<nat>) {
    forall k: nat :: k in cs <==> k < |ca| && !ca[k].mark && p in ca[k].lits
  }

  /** The stored clauses are those listed, each with its literal on v first. */
  ghost predicate StoredFrom(ca: Db, cs: seq<nat>, i: nat, p: Lit, stored: seq<seq<Lit>>) {
    && |stored| == i <= |cs|
    && forall k :: 0 <= k < i ==>
      cs[k] < |ca| && SameLits(ca[cs[k]].lits, stored[k]) && Proper(stored[k]) && |stored[k]| >= 1 && stored[k][0] == p
  }

  lemma StoredSide(ca: Db, cs: seq<nat>, p: Lit, e: Elim)
    requires Lists(ca, p, cs) && StoredFrom(ca, cs, |cs|, p, e.stored) && p == Neg(e.dflt) && e.dflt.v == e.v
    ensures ElimOk(e) && StoresSide(e, ca)
  {
    forall k | 0 <= k < |e.stored| ensures ComesFrom(e.stored[k], ca, p) {
      assert cs[k] in cs;
      assert Side(ca, p, ca[cs[k]].lits) && SameLits(ca[cs[k]].lits, e.stored[k]);
    }
    forall c | Side(ca, Neg(e.dflt), c) ensures exists k :: 0 <= k < |e.stored| && SameLits(c, e.stored[k]) {
      var j :| 0 <= j < |ca| && !ca[j].mark && ca[j].lits == c && p in c;
      assert j in cs;
      var k :| 0 <= k < |cs| && cs[k] == j;
      assert SameLits(c, e.stored[k]);
    }
  }

  lemma LogMore(es: seq<Elim>, n: nat, e: Elim, ca: Db, cs: seq<nat>, p: Lit)
    requires LogOk(es, n) && ElimOk(e) && e.v < n && !Eliminated(es, e.v) && DbOk(ca, n) && Clean(ca, es)
    requires Lists(ca, p, cs) && StoredFrom(ca, cs, |cs|, p, e.stored)
    ensures LogOk(es + [e], n)
  {
    var f := es + [e];
    forall k, l | 0 <= k < |e.stored| && 0 <= l < |e.stored[k]|
      ensures e.stored[k][l].v < n && !Eliminated(es, e.stored[k][l].v)
    {
      assert cs[k] in cs;
      var c := ca[cs[k]].lits;
      assert e.stored[k][l] in c;
      NotEliminated(ca, es, cs[k], e.stored[k][l]);
      LiveBelow(ca, n, cs[k], e.stored[k][l]);
    }
    forall i, j | 0 <= i < j < |f| ensures f[i].v != f[j].v {
      if j == |es| { assert es[i].v != e.v; }
    }
    forall i, k, l, j | 0 <= j < i < |f| && 0 <= k < |f[i].stored| && 0 <= l < |f[i].stored[k]|
      ensures f[i].stored[k][l].v != f[j].v
    {
      if i == |es| { assert !Eliminated(es, e.stored[k][l].v); }
    }
  }

  lemma LiveBelow(ca: Db, n: nat, k: nat, l: Lit)
    requires DbOk(ca, n) && k < |ca| && !ca[k].mark && l in ca[k].lits
    ensures l.v < n
  {
    assert ClauseOk(ca[k], n);
  }

  lemma EliminatedMore(es: seq<Elim>, e: Elim)
    ensures forall v: nat :: Eliminated(es + [e], v) <==> Eliminated(es, v) || v == e.v
  {
    var f := es + [e];
    forall v: nat ensures Eliminated(f, v) <==> Eliminated(es, v) || v == e.v {
      if Eliminated(es, v) {
        var i :| 0 <= i < |es| && es[i].v == v;
        assert f[i].v == v;
      }
      if v == e.v { assert f[|es|].v == v; }
    }
  }

  /** The entries of one more elimination, written one after the other. */
  lemma EntriesMore(es: seq<Elim>, e: Elim)
    ensures Entries(es + [e]) == Entries(es) + e.stored + [[e.dflt]]
  {
    assert (es + [e])[..|es|] == es;
  }

  lemma PackSnoc(entries: seq<seq<Lit>>, c: seq<Lit>)
    ensures Pack(entries + [c]) == Pack(entries) + Codes(c) + [|c|]
  {
    assert (entries + [c])[..|entries|] == entries;
  }

  /** New clauses contain only literals of the given clause. */
  ghost predicate NewWithin(ca: Db, ca': Db, ps: seq<Lit>) {
    forall k, l :: |ca| <= k < |ca'| && l in ca'[k].lits ==> l in ps
  }

  /** New clauses mention neither v nor any variable eliminated before. */
  ghost predicate NewClean(ca: Db, ca': Db, es: seq<Elim>, v: nat) {
    forall k, l :: |ca| <= k < |ca'| && l in ca'[k].lits ==> l.v != v && !Eliminated(es, l.v)
  }

  lemma NewCleanMore(ca0: Db, ca: Db, ca': Db, es: seq<Elim>, v: nat, ps: seq<Lit>)
    requires NewClean(ca0, ca, es, v) && ca <= ca' && |ca0| <= |ca| && NewWithin(ca, ca', ps)
    requires forall l :: l in ps ==> l.v != v && !Eliminated(es, l.v)
    ensures NewClean(ca0, ca', es, v)
  {
    forall k, l | |ca0| <= k < |ca'| && l in ca'[k].lits ensures l.v != v && !Eliminated(es, l.v) {
      if k < |ca| { assert ca'[k] == ca[k]; }
    }
  }

  lemma SameCovered(r: seq<Lit>, r': seq<Lit>, ca: Db, trail: seq<Lit>)
    requires Covered(r, ca, trail) && SameLits(r, r')
    ensures Covered(r', ca, trail)
  {
    if p :| p in r && p in trail {
      assert p in r';
    } else {
      var k :| 0 <= k < |ca| && !ca[k].mark && Within(ca[k].lits, r);
      assert Within(ca[k].lits, r');
    }
  }

  /** The resolvents of all pairs before (i, j) are covered. */
  ghost predicate PairsCovered(ca0: Db, pos: seq<nat>, neg: seq<nat>, v: nat, i: nat, j: nat, ca: Db, trail: seq<Lit>) {
    forall x, y, r ::
      0 <= x < |pos| && 0 <= y < |neg| && (x < i || (x == i && y < j)) && Resolves(ca0, pos[x], neg[y], v, r) ==>
        Covered(r, ca, trail)
  }

  ghost predicate Resolves(ca: Db, k: nat, l: nat, v: nat, r: seq<Lit>) {
    k < |ca| && l < |ca| && !Clash(ca[k].lits, ca[l].lits, v) && IsMerge(ca[k].lits, ca[l].lits, v, r)
  }

  lemma PairsNext(ca0: Db, pos: seq<nat>, neg: seq<nat>, v: nat, i: nat, j: nat, ca: Db, trail: seq<Lit>, ca': Db,
      trail': seq<Lit>)
    requires PairsCovered(ca0, pos, neg, v, i, j, ca, trail) && Grown(ca, trail, ca', trail') && i < |pos| && j < |neg|
    requires pos[i] < |ca0| && neg[j] < |ca0|
    requires Clash(ca0[pos[i]].lits, ca0[neg[j]].lits, v) || exists r ::
      IsMerge(ca0[pos[i]].lits, ca0[neg[j]].lits, v, r) && Covered(r, ca', trail')
    ensures PairsCovered(ca0, pos, neg, v, i, j + 1, ca', trail')
  {
    hide Clash, Covered;
    forall x, y, r | 0 <= x < |pos| && 0 <= y < |neg| && (x < i || (x == i && y < j + 1))
      && Resolves(ca0, pos[x], neg[y], v, r)
      ensures Covered(r, ca', trail')
    {
      if x == i && y == j {
        var r' :| IsMerge(ca0[pos[i]].lits, ca0[neg[j]].lits, v, r') && Covered(r', ca', trail');
        SameCovered(r', r, ca', trail');
      } else {
        assert Covered(r, ca, trail);
        GrownCovered(r, ca, trail, ca', trail');
      }
    }
  }

  lemma PairsRow(ca0: Db, pos: seq<nat>, neg: seq<nat>, v: nat, i: nat, ca: Db, trail: seq<Lit>)
    requires PairsCovered(ca0, pos, neg, v, i, |neg|, ca, trail)
    ensures PairsCovered(ca0, pos, neg, v, i + 1, 0, ca, trail)
  {
    hide Resolves, Covered;
  }

  lemma PairsStart(ca0: Db, pos: seq<nat>, neg: seq<nat>, v: nat, ca: Db, trail: seq<Lit>)
    ensures PairsCovered(ca0, pos, neg, v, 0, 0, ca, trail)
  {}

  /** The database after the clauses listed have been deleted. */
  ghost predicate Deleted(ca: Db, ca': Db, cs: seq<nat>) {
    |ca'| == |ca| && forall k :: 0 <= k < |ca| ==> ca'[k] == if k in cs then ca[k].(mark := true) else ca[k]
  }

  /** What the resolvents, and then the removal of the clauses with v, amount to. */
  lemma RemovalEliminates(ca0: Db, t0: seq<Lit>, ca: Db, trail: seq<Lit>, ca': Db, pos: seq<nat>, neg: seq<nat>,
      cs: seq<nat>, v: nat, es: seq<Elim>)
    requires Grown(ca0, t0, ca, trail) && Lists(ca0, Lit(v, false), pos) && Lists(ca0, Lit(v, true), neg)
    requires PairsCovered(ca0, pos, neg, v, |pos|, 0, ca, trail) && NewClean(ca0, ca, es, v)
    requires (forall k: nat :: k in cs <==> k < |ca0| && !ca0[k].mark && Mentions(ca0[k].lits, v))
    requires Deleted(ca, ca', cs)
    ensures Eliminates(ca0, t0, ca', trail, v)
  {
    hide Clash, IsMerge, Mentions;
    forall k | 0 <= k < |ca0| && !ca0[k].mark && !Mentions(ca0[k].lits, v)
      ensures ca'[k] == ca0[k]
    {
      assert ca[k] == ca0[k];
    }
    forall p, q, r | Side(ca0, Lit(v, false), p) && Side(ca0, Lit(v, true), q) && !Clash(p, q, v) && IsMerge(p, q, v, r)
      ensures Covered(r, ca', trail)
    {
      SidesCovered(ca0, ca, trail, pos, neg, v, p, q, r);
      CoveredStays(ca0, ca, trail, ca', cs, v, r, p, q, es);
    }
  }

  lemma SidesCovered(ca0: Db, ca: Db, trail: seq<Lit>, pos: seq<nat>, neg: seq<nat>, v: nat, p: seq<Lit>, q: seq<Lit>,
      r: seq<Lit>)
    requires Lists(ca0, Lit(v, false), pos) && Lists(ca0, Lit(v, true), neg)
    requires PairsCovered(ca0, pos, neg, v, |pos|, 0, ca, trail)
    requires Side(ca0, Lit(v, false), p) && Side(ca0, Lit(v, true), q) && !Clash(p, q, v) && IsMerge(p, q, v, r)
    ensures Covered(r, ca, trail)
  {
    hide Clash, IsMerge, Covered;
    var k :| 0 <= k < |ca0| && !ca0[k].mark && ca0[k].lits == p && Lit(v, false) in p;
    var l :| 0 <= l < |ca0| && !ca0[l].mark && ca0[l].lits == q && Lit(v, true) in q;
    assert k in pos && l in neg;
    var x :| 0 <= x < |pos| && pos[x] == k;
    var y :| 0 <= y < |neg| && neg[y] == l;
    assert Resolves(ca0, pos[x], neg[y], v, r);
  }

  lemma CoveredStays(ca0: Db, ca: Db, trail: seq<Lit>, ca': Db, cs: seq<nat>, v: nat, r: seq<Lit>, p: seq<Lit>,
      q: seq<Lit>, es: seq<Elim>)
    requires Covered(r, ca, trail) && IsMerge(p, q, v, r) && Deleted(ca, ca', cs) && ca0 <= ca
    requires forall k: nat :: k in cs <==> k < |ca0| && !ca0[k].mark && Mentions(ca0[k].lits, v)
    ensures Covered(r, ca', trail)
  {
    if !(exists p :: p in r && p in trail) {
      var k: nat :| k < |ca| && !ca[k].mark && Within(ca[k].lits, r);
      forall i | 0 <= i < |ca[k].lits| ensures ca[k].lits[i].v != v { assert ca[k].lits[i] in ca[k].lits; }
      assert k < |ca0| ==> ca[k] == ca0[k];
      assert ca'[k] == ca[k];
    }
  }

  /** Afterwards no live clause mentions v. */
  lemma RemovalClean(ca0: Db, ca: Db, ca': Db, cs: seq<nat>, v: nat, es: seq<Elim>, e: Elim)
    requires ca0 <= ca && Clean(ca0, es) && NewClean(ca0, ca, es, v) && Deleted(ca, ca', cs) && e.v == v
    requires forall k: nat :: k in cs <==> k < |ca0| && !ca0[k].mark && Mentions(ca0[k].lits, v)
    ensures Clean(ca', es + [e])
  {
    EliminatedMore(es, e);
    var f := es + [e];
    forall k: nat, i | k < |ca'| && !ca'[k].mark && 0 <= i < |f| ensures !Mentions(ca'[k].lits, f[i].v) {
      assert ca'[k] == ca[k];
      if k < |ca0| {
        assert ca[k] == ca0[k];
        if i < |es| { assert f[i] == es[i]; }
      } else {
        assert Eliminated(f, f[i].v);
        forall j | 0 <= j < |ca[k].lits| ensures ca[k].lits[j].v != f[i].v { assert ca[k].lits[j] in ca[k].lits; }
      }
    }
  }

  lemma RemovalFollows(ca: Db, trail: seq<Lit>, ca': Db, cs: seq<nat>)
    requires Deleted(ca, ca', cs)
    ensures forall a: Assignment :: DbSat(a, ca, trail) ==> DbSat(a, ca', trail)
  {
    hide SatClause;
    forall a: Assignment | DbSat(a, ca, trail) ensures LiveSat(a, ca') {
      forall k | 0 <= k < |ca'| && !ca'[k].mark ensures SatClause(a, ca'[k].lits) { assert ca'[k] == ca[k]; }
    }
  }

  lemma ClearOk(occurs: seq<seq<nat>>, ca: Db, v: nat)
    requires OccursOk(occurs, ca) && v < |occurs|
    requires forall k: nat :: k < |ca| && !ca[k].mark ==> !Mentions(ca[k].lits, v)
    ensures OccursOk(occurs[v := []], ca)
  {}
}
