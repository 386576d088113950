/** The same condition when a member is asked before its choice, and the smallest groups that fail. */
module ChoiceOrders {
  import T = Tristate
  import opened Options
  import opened Expr
  import opened ExprCompare
  import opened ChoiceSpec
  import opened ChoiceRun
  import opened ChoiceReach
  import opened ChoiceReads
  import opened ChoicePicked
  import S = SymbolSpec

  /** What a member that is asked first leaves: its choice is evaluated, then the member on top of that. */
  lemma MemberCalc(m: Model, c: Symbol, a: Symbol, st: St)
    requires m.Valid() && m.role(c).Choice? && m.IsMemberOf(a, c) && a !in st.valid
    ensures var r := CalcSym(m, c, st.Mark(a)); var l := CalcVisibility(m, a, r);
      var x := CalcTri(m, a, l.vis, l.sel, l.st.Put(a, Blank(a)));
      CalcSym(m, a, st) == x.st.Put(a, Cell(S.Raw("n", x.tri), None))
  {
    assert m.MemberFits(a);
    VisibilityAsksFirst(m, c, a, st.Mark(a));
    hide CalcVisibility, CalcTri;
  }

  /** The values as the choice leaves them: what is valid stays, everything else has the value of its step. */
  ghost function After(m: Model, rank: Symbol -> nat, r: St): World {
    Solve(m, rank, ValidNow(m, r), Now(m, r))
  }

  ghost function AfterPlan(m: Model, rank: Symbol -> nat, r: St): Plan {
    Plan(m, rank, ValidNow(m, r), After(m, rank, r))
  }

  lemma AfterIsSound(m: Model, c: Symbol, rank: Symbol -> nat, top: nat, r: St, n: nat)
    requires m.Valid() && RankedBut(m, c, rank, top) && IsValid(m, r, c)
    ensures Sound(AfterPlan(m, rank, r), n) && Holds(AfterPlan(m, rank, r), n, r)
  {
    var p := AfterPlan(m, rank, r);
    forall s: Symbol | s !in p.frozen ensures Solved(p, s) {
      assert s in m.table && s != c;
      SolvedIsStep(m, rank, p.frozen, Now(m, r), s);
      hide Step, ReadExprs;
    }
    forall s: Symbol | IsValid(m, r, s) ensures Done(p, r, s) {
      hide Done;
      FrozenIsDone(p, r, Now(m, r), s);
    }
    hide Done, Solved;
  }

  lemma AfterPick(m: Model, c: Symbol, rank: Symbol -> nat, r: St)
    requires m.Valid() && m.role(c).Choice? && c in r.valid
    ensures c in m.table && After(m, rank, r).At(c) == r.Held(c) == CellOf(m, r, c)
  {
    assert m.ChoiceFits(c);
    assert c in ValidNow(m, r);
  }

  lemma MemberIsBelow(m: Model, c: Symbol, rank: Symbol -> nat, top: nat, a: Symbol, p: Plan)
    requires m.Valid() && RankedBut(m, c, rank, top) && m.role(c).Choice? && m.IsMemberOf(a, c)
    requires p.m == m && p.rank == rank
    ensures Below(p, rank(a), ReadExprs(m, a))
  {
    MemberAboveChoice(m, c, rank, top, a);
    hide ReadExprs, Names;
  }

  lemma ChoiceIsValid(m: Model, c: Symbol, st: St)
    requires m.Valid() && m.role(c).Choice?
    ensures st.valid <= CalcSym(m, c, st).valid && c in CalcSym(m, c, st).valid
  {
    assert m.ChoiceFits(c);
    hide CalcSym;
  }

  /** The member that was asked first, once its choice is done. */
  lemma MemberRest(m: Model, c: Symbol, rank: Symbol -> nat, top: nat, a: Symbol, st: St)
    requires m.Valid() && m.role(c).Choice? && RankedBut(m, c, rank, top) && m.IsMemberOf(a, c) && a !in st.valid
    ensures var r, f := CalcSym(m, c, st.Mark(a)), CalcSym(m, a, st); var p := AfterPlan(m, rank, r);
      && Passed(p, a, r, f) && c in r.valid && a in r.valid
      && f.Held(a) == Cell(S.Raw("n", MemberTri(m, a, p.w.Values(), r.Held(c).pick)), None)
      && CalcVisibility(m, a, r).vis == S.Visible(m.g, a, p.w.Values())
  {
    hide CalcSym, CalcVisibility, CalcTri, RankedBut, After, S.Visible, Sound, Holds, Below, Model.Valid,
         Model.ChoiceFits, Passed, MemberTri, ReadExprs, VisibilityExprs, DefaultExprs, OptExprs;
    var r := CalcSym(m, c, st.Mark(a));
    var p, k := AfterPlan(m, rank, r), rank(a);
    var l := CalcVisibility(m, a, r);
    var x := CalcTri(m, a, l.vis, l.sel, l.st.Put(a, Blank(a)));
    ChoiceIsValid(m, c, st.Mark(a));
    MemberAboveChoice(m, c, rank, top, a);
    MemberCalc(m, c, a, st);
    AfterPick(m, c, rank, r);
    MemberIsBelow(m, c, rank, top, a, p);
    AfterIsSound(m, c, rank, top, r, k) by { assert IsValid(m, r, c); }
    ReadParts(p, k, a, p.w.Values());
    TriPasses(p, a, r);
    PutPassed(p, a, r, x.st, Cell(S.Raw("n", x.tri), None));
  }

  /** The values of the search, with the value that the member asked first has got by now. */
  function Renewed(v: Valuation, a: Symbol, cell: Cell): Valuation {
    (s: Symbol) => if s == a then S.View(a, cell.raw) else v(s)
  }

  lemma AfterIsKept(m: Model, rank: Symbol -> nat, r: St, t: Symbol)
    requires IsValid(m, r, t)
    ensures After(m, rank, r).At(t) == Now(m, r).At(t)
  {
    assert t in ValidNow(m, r);
  }

  /** A member that was tried is as visible as in the search once the choice is done. */
  lemma KeptVisible(m: Model, c: Symbol, rank: Symbol -> nat, top: nat, s: St, q: St, i: Symbol)
    requires m.Valid() && m.role(c).Choice? && RankedBut(m, c, rank, top) && Found(m, c, rank, top, s, q)
    requires m.IsMemberOf(i, c) && Picked(m, c, SearchValues(m, c, rank, s)) == Some(i)
    ensures var r := q.Put(c, Cell(ON.raw, Some(i)));
      S.Visible(m.g, i, After(m, rank, r).Values()) == S.Visible(m.g, i, SearchValues(m, c, rank, s))
  {
    hide Picked, OwnExprs, Names, SearchValues, S.Visible, Model.Valid, RankedBut, Found, After;
    var cell := Cell(ON.raw, Some(i));
    var r, v := q.Put(c, cell), SearchValues(m, c, rank, s);
    var x, es := After(m, rank, r), OwnExprs(m, i);
    forall t: Symbol | Names(es, t) ensures IsValid(m, q, t) { TriedAreValid(m, c, rank, top, s, q, i, t); }
    FoundIsKept(m, c, rank, top, s, q, cell, r, es) by { assert Grows(r, r); }
    forall t: Symbol | t == c || Names(es, t) ensures v(t) == x.Values()(t) {
      AfterIsKept(m, rank, r, t);
    }
    CandidateAgrees(m, i, v, x.Values());
  }

  lemma TriedAreValid(m: Model, c: Symbol, rank: Symbol -> nat, top: nat, s: St, q: St, i: Symbol, t: Symbol)
    requires m.role(c).Choice? && Found(m, c, rank, top, s, q)
    requires Picked(m, c, SearchValues(m, c, rank, s)) == Some(i) && Names(OwnExprs(m, i), t)
    ensures IsValid(m, q, t)
  {
    hide Holds, Picked, OwnExprs, Names, SearchValues, LeadsTo;
    PickedIsTried(m, c, SearchValues(m, c, rank, s), i, t);
  }

  /** The picked member was asked first: it is visible and y. */
  lemma FirstIsPicked(m: Model, c: Symbol, rank: Symbol -> nat, top: nat, a: Symbol, st: St, q: St)
    requires m.Valid() && m.role(c).Choice? && RankedBut(m, c, rank, top) && m.IsMemberOf(a, c) && a !in st.valid
    requires Found(m, c, rank, top, st.Mark(a), q) && Picked(m, c, SearchValues(m, c, rank, st.Mark(a))) == Some(a)
    requires CalcSym(m, c, st.Mark(a)) == q.Put(c, Cell(ON.raw, Some(a)))
    requires S.Visible(m.g, a, SearchValues(m, c, rank, st.Mark(a))) == T.Yes
    ensures CalcSym(m, a, st).Held(a).raw.tri == T.Yes
  {
    hide CalcSym, Picked, SearchValues, S.Visible, Model.Valid, RankedBut, Found, After;
    MemberRest(m, c, rank, top, a, st);
    KeptVisible(m, c, rank, top, st.Mark(a), q, a);
  }

  lemma PassedIsSolved(p: Plan, a: Symbol, r: St, f: St, i: Symbol)
    requires Passed(p, a, r, f) && Sound(p, p.rank(a)) && i in p.m.table && i !in p.frozen
    requires i in f.valid && i !in r.valid
    ensures p.rank(i) < p.rank(a) && f.Held(i) == Step(p.m, i, p.w)
  {
    hide Reach, Step;
    assert IsValid(p.m, f, i);
    assert Done(p, f, i) && Solved(p, i);
  }

  /** The picked member was evaluated on behalf of the member asked first, after the choice was done. */
  lemma PickedOnTheWay(m: Model, c: Symbol, rank: Symbol -> nat, top: nat, a: Symbol, st: St, q: St, i: Symbol)
    requires m.Valid() && m.role(c).Choice? && RankedBut(m, c, rank, top) && m.IsMemberOf(a, c) && a !in st.valid
    requires Found(m, c, rank, top, st.Mark(a), q) && Picked(m, c, SearchValues(m, c, rank, st.Mark(a))) == Some(i)
    requires CalcSym(m, c, st.Mark(a)) == q.Put(c, Cell(ON.raw, Some(i))) && m.IsMemberOf(i, c)
    requires S.Visible(m.g, i, SearchValues(m, c, rank, st.Mark(a))) == T.Yes
    requires i !in q.valid && i in CalcSym(m, a, st).valid
    ensures CalcSym(m, a, st).Held(i).raw.tri == T.Yes && rank(i) < rank(a)
  {
    var r, f := q.Put(c, Cell(ON.raw, Some(i))), CalcSym(m, a, st);
    var p := AfterPlan(m, rank, r);
    MemberAboveChoice(m, c, rank, top, i);
    hide CalcSym, Picked, SearchValues, S.Visible, Model.Valid, RankedBut, Found, After, Passed, Sound, Holds,
         MemberTri;
    MemberRest(m, c, rank, top, a, st);
    AfterIsSound(m, c, rank, top, r, rank(a));
    KeptVisible(m, c, rank, top, st.Mark(a), q, i);
    PassedIsSolved(p, a, r, f, i);
    AfterPick(m, c, rank, r);
    PickedMemberTri(m, i, c, p.w);
  }

  lemma PickedMemberTri(m: Model, i: Symbol, c: Symbol, w: World)
    requires m.IsMemberOf(i, c) && w.pick(c) == Some(i) && S.Visible(m.g, i, w.Values()) == T.Yes
    ensures Step(m, i, w).raw.tri == T.Yes
  {
    hide S.Visible;
  }

  lemma OwnIsBelow(m: Model, c: Symbol, rank: Symbol -> nat, top: nat, i: Symbol, t: Symbol)
    requires m.Valid() && m.role(c).Choice? && RankedBut(m, c, rank, top) && m.IsMemberOf(i, c)
    requires Names(OwnExprs(m, i), t) && t in m.table
    ensures rank(t) < rank(i)
  {
    MemberAboveChoice(m, c, rank, top, i);
    OwnIsRead(m, i, t);
    hide Reads, OwnExprs, Names;
  }

  lemma OwnIsRead(m: Model, i: Symbol, t: Symbol)
    requires m.role(i).Member? && Names(OwnExprs(m, i), t)
    ensures Reads(m, i, t)
  {
    var c := m.role(i).choice;
    NamesJoin([Sym(c)] + OwnExprs(m, i), DefaultExprs(m.g(i).defaults), t);
    NamesJoin([Sym(c)], OwnExprs(m, i), t);
  }

  /** Nothing that was valid has changed, but for one symbol. */
  predicate KeepsBut(r: St, f: St, a: Symbol) {
    r.valid <= f.valid && forall x :: x in r.valid && x != a ==> f.Held(x) == r.Held(x)
  }

  /** What the member asked first does after its choice changes no valid value but its own. */
  lemma RestKeeps(m: Model, c: Symbol, rank: Symbol -> nat, top: nat, a: Symbol, st: St)
    requires m.Valid() && m.role(c).Choice? && RankedBut(m, c, rank, top) && m.IsMemberOf(a, c) && a !in st.valid
    ensures var r, f := CalcSym(m, c, st.Mark(a)), CalcSym(m, a, st);
      && KeepsBut(r, f, a) && a in r.valid && c in r.valid && f.Held(c) == r.Held(c)
  {
    MemberAboveChoice(m, c, rank, top, a);
    hide CalcSym, After, RankedBut, Model.Valid, MemberTri, S.Visible, CalcVisibility, Passed, Reads;
    var r, f := CalcSym(m, c, st.Mark(a)), CalcSym(m, a, st);
    MemberRest(m, c, rank, top, a, st);
    PassedHolds(AfterPlan(m, rank, r), a, r, f);
    hide Holds;
  }

  lemma GrowsButOne(r: St, f: St, later: St, a: Symbol)
    requires KeepsBut(r, f, a) && Grows(f, later) && a in r.valid
    ensures Grows(r, later.Put(a, r.Held(a))) && a in later.valid && later.Held(a) == f.Held(a)
  {
  }

  lemma RenewedIsNow(m: Model, es: seq<Expr>, v: Valuation, a: Symbol, x: Cell, later: St)
    requires a in m.table && AgreeOn(es, v, Now(m, later.Put(a, x)).Values())
    ensures AgreeOn(es, Renewed(v, a, later.Held(a)), Now(m, later).Values())
  {
    var before, now := Now(m, later.Put(a, x)).Values(), Now(m, later).Values();
    assert forall t: Symbol :: t != a ==> before(t) == now(t);
    hide Names;
  }

  /** The picked member is asked when the member asked first has its value. */
  lemma PickedAfterwards(m: Model, c: Symbol, rank: Symbol -> nat, top: nat, a: Symbol, st: St, q: St, i: Symbol,
                         later: St)
    requires m.Valid() && m.role(c).Choice? && RankedBut(m, c, rank, top) && m.IsMemberOf(a, c) && a !in st.valid
    requires Found(m, c, rank, top, st.Mark(a), q) && Picked(m, c, SearchValues(m, c, rank, st.Mark(a))) == Some(i)
    requires CalcSym(m, c, st.Mark(a)) == q.Put(c, Cell(ON.raw, Some(i))) && m.IsMemberOf(i, c) && i != a
    requires Grows(CalcSym(m, a, st), later) && i !in later.valid
    ensures var u := Renewed(SearchValues(m, c, rank, st.Mark(a)), a, CalcSym(m, a, st).Held(a));
      && CalcVisibility(m, i, later.Mark(i)).vis == S.Visible(m.g, i, u)
      && (S.Visible(m.g, i, u) == T.Yes ==> CalcSym(m, i, later).Held(i).raw.tri == T.Yes)
  {
    hide Picked, OwnExprs, Names, SearchValues, S.Visible, Model.Valid, RankedBut, Found, CalcSym, CalcVisibility,
         Grows, AgreeOn;
    var s, cell, es := st.Mark(a), Cell(ON.raw, Some(i)), OwnExprs(m, i);
    var v, r := SearchValues(m, c, rank, s), q.Put(c, cell);
    var before := later.Put(a, r.Held(a));
    MemberAboveChoice(m, c, rank, top, a);
    RestKeeps(m, c, rank, top, a, st);
    GrowsButOne(r, CalcSym(m, a, st), later, a);
    forall t: Symbol | Names(es, t) ensures IsValid(m, q, t) { TriedAreValid(m, c, rank, top, s, q, i, t); }
    FoundIsKept(m, c, rank, top, s, q, cell, before, es);
    RenewedIsNow(m, es, v, a, r.Held(a), later);
    assert CellOf(m, later, c) == CellOf(m, before, c);
    assert forall t: Symbol :: IsValid(m, before, t) <==> IsValid(m, later, t);
    AskedLater(m, c, i, Renewed(v, a, later.Held(a)), later);
  }

  lemma ValidIsKept(m: Model, i: Symbol, f: St, later: St)
    requires m.Valid() && i in f.valid && Grows(f, later)
    ensures CalcSym(m, i, later).Held(i) == f.Held(i)
  {
    assert CalcSym(m, i, later) == later;
  }

  lemma OnTheWayIsVisible(m: Model, c: Symbol, rank: Symbol -> nat, top: nat, a: Symbol, i: Symbol, v: Valuation,
                          cell: Cell)
    requires m.Valid() && m.role(c).Choice? && RankedBut(m, c, rank, top) && m.IsMemberOf(a, c)
    requires m.IsMemberOf(i, c) && rank(i) < rank(a)
    ensures S.Visible(m.g, i, Renewed(v, a, cell)) == S.Visible(m.g, i, v)
  {
    var u := Renewed(v, a, cell);
    MemberAboveChoice(m, c, rank, top, a);
    forall t: Symbol | Names(OwnExprs(m, i), t) ensures u(t) == v(t) {
      if t == a { OwnIsBelow(m, c, rank, top, i, t); }
    }
    hide S.Visible, OwnExprs, Names, RankedBut;
    CandidateAgrees(m, i, v, u);
  }

  lemma BooleanVisible(m: Model, c: Symbol, i: Symbol, v: Valuation)
    requires m.Valid() && m.IsBoolean(c) && m.IsMemberOf(i, c)
    ensures S.Visible(m.g, i, v) in {T.No, T.Yes}
  {
    MemberVisibleBelow(m, c, i, v);
  }

  /** The search has evaluated the picked member, which is another one than the member asked first. */
  lemma OtherIsReached(m: Model, c: Symbol, rank: Symbol -> nat, top: nat, a: Symbol, st: St, q: St, i: Symbol,
                       later: St)
    requires m.Valid() && m.role(c).Choice? && RankedBut(m, c, rank, top) && m.IsMemberOf(a, c) && a !in st.valid
    requires Found(m, c, rank, top, st.Mark(a), q) && CalcSym(m, c, st.Mark(a)) == q.Put(c, Cell(ON.raw, Some(i)))
    requires S.Visible(m.g, i, SearchValues(m, c, rank, st.Mark(a))) == T.Yes && m.IsMemberOf(i, c) && i != a
    requires i !in st.valid && i in q.valid && Grows(CalcSym(m, a, st), later)
    ensures CalcSym(m, i, later).Held(i).raw.tri == T.No
  {
    hide Found, SearchValues, RankedBut, Model.Valid, S.Visible, CalcVisibility, CalcSym, Grows;
    MemberAboveChoice(m, c, rank, top, i);
    ReachedIsNo(m, c, rank, top, st.Mark(a), q, i);
    RestKeeps(m, c, rank, top, a, st);
    ValidIsKept(m, i, CalcSym(m, a, st), later);
  }

  /** It is not evaluated by the search, but on behalf of the member asked first. */
  lemma OtherIsOnTheWay(m: Model, c: Symbol, rank: Symbol -> nat, top: nat, a: Symbol, st: St, q: St, i: Symbol,
                        later: St)
    requires m.Valid() && m.role(c).Choice? && RankedBut(m, c, rank, top) && m.IsMemberOf(a, c) && a !in st.valid
    requires Found(m, c, rank, top, st.Mark(a), q) && Picked(m, c, SearchValues(m, c, rank, st.Mark(a))) == Some(i)
    requires CalcSym(m, c, st.Mark(a)) == q.Put(c, Cell(ON.raw, Some(i))) && m.IsMemberOf(i, c)
    requires S.Visible(m.g, i, SearchValues(m, c, rank, st.Mark(a))) == T.Yes
    requires i !in q.valid && i in CalcSym(m, a, st).valid && Grows(CalcSym(m, a, st), later)
    ensures CalcSym(m, i, later).Held(i).raw.tri == T.Yes
    ensures S.Visible(m.g, i, Renewed(SearchValues(m, c, rank, st.Mark(a)), a, CalcSym(m, a, st).Held(a))) == T.Yes
  {
    hide Found, Picked, SearchValues, RankedBut, Model.Valid, S.Visible, CalcSym, Renewed, Grows;
    PickedOnTheWay(m, c, rank, top, a, st, q, i);
    OnTheWayIsVisible(m, c, rank, top, a, i, SearchValues(m, c, rank, st.Mark(a)), CalcSym(m, a, st).Held(a));
    ValidIsKept(m, i, CalcSym(m, a, st), later);
  }

  /** A member is asked before its choice, which comes out as y, whatever was cached before. If it is the picked
      one, it is y. Otherwise the picked member is y if and only if no condition that was tried leads to it and
      it is still visible with the value that the member asked first has got. */
  lemma MemberAskedFirst(m: Model, c: Symbol, rank: Symbol -> nat, top: nat, a: Symbol, st: St, later: St)
    requires m.Valid() && m.role(c).Choice? && m.IsBoolean(c) && RankedBut(m, c, rank, top) && m.IsMemberOf(a, c)
    requires a !in st.valid && c !in st.valid
    requires CalcSym(m, a, st).Held(c).raw.tri == T.Yes && Grows(CalcSym(m, a, st), later)
    ensures var f, v := CalcSym(m, a, st), SearchValues(m, c, rank, st.Mark(a)); var p := Picked(m, c, v);
      && f.Held(c).pick == p && p.Some? && m.IsMemberOf(p.value, c)
      && (p.value == a ==> f.Held(a).raw.tri == T.Yes)
      && (p.value != a && p.value !in st.valid && (p.value in later.valid ==> p.value in f.valid) ==>
            var i, led := p.value, LeadsTo(m, c, rank, top, st.Mark(a), p.value);
            if led || S.Visible(m.g, i, Renewed(v, a, f.Held(a))) == T.Yes then
              CalcSym(m, i, later).Held(i).raw.tri == if led then T.No else T.Yes
            else i !in later.valid && CalcVisibility(m, i, later.Mark(i)).vis == T.No)
  {
    hide CalcSym, Found, Picked, SearchValues, RankedBut, Model.Valid, S.Visible, Model.IsBoolean, Grows,
         CalcVisibility, Renewed, LeadsTo;
    var f := CalcSym(m, a, st);
    MemberAboveChoice(m, c, rank, top, a);
    RestKeeps(m, c, rank, top, a, st);
    var q, i := ChoiceHasFound(m, c, rank, top, st.Mark(a));
    if i == a {
      FirstIsPicked(m, c, rank, top, a, st, q);
    } else if i !in st.valid && (i in later.valid ==> i in f.valid) {
      FoundReaches(m, c, rank, top, st.Mark(a), q, i);
      if i in q.valid {
        OtherIsReached(m, c, rank, top, a, st, q, i, later);
      } else if i in f.valid {
        OtherIsOnTheWay(m, c, rank, top, a, st, q, i, later);
      } else {
        PickedAfterwards(m, c, rank, top, a, st, q, i, later);
        BooleanVisible(m, c, i, Renewed(SearchValues(m, c, rank, st.Mark(a)), a, f.Held(a)));
      }
    }
  }

  // ----- two members, one depending on the other -----

  const CHOICE: Symbol := Config(0, Boolean)
  const B: Symbol := Config(1, Boolean)
  const A: Symbol := Config(2, Boolean)
  const X: Symbol := Config(3, Boolean)

  /** A boolean choice that the user has switched on, with the members B, which depends on own, and A; and beside
      it a boolean X without a prompt, with the given defaults. */
  function Pair(own: Expr, onX: seq<S.Default>): Model {
    Model((s: Symbol) => PairInfo(own, onX, s),
          (s: Symbol) => if s == CHOICE then S.Setting(T.Yes, "y", false) else S.Setting(T.No, "n", true),
          (s: Symbol) => PairRole(own, s), (s: Symbol) => None, {CHOICE, B, A, X})
  }

  function PairInfo(own: Expr, onX: seq<S.Default>, s: Symbol): S.Info {
    if s == B then S.Info("B", [Some(MemberPrompt(CHOICE, Some(own)))], [], None, None)
    else if s == A then S.Info("A", [Some(MemberPrompt(CHOICE, None))], [], None, None)
    else if s == X then S.Info("X", [], onX, None, None)
    else S.Info("", if s == CHOICE then [None] else [], [], None, None)
  }

  function PairRole(own: Expr, s: Symbol): Role {
    if s == CHOICE then Choice([], [B, A])
    else if s == B then Member(CHOICE, Some(own))
    else if s == A then Member(CHOICE, None)
    else Plain
  }

  function PairRank(s: Symbol): nat {
    if s == A then 1 else if s == X then 2 else if s == B then 3 else 0
  }

  /** B may depend on A and X, and X on A. */
  ghost predicate PairFits(own: Expr, onX: seq<S.Default>) {
    && (forall t: Symbol :: ContainsSymbol(own, t) ==> t in {A, X})
    && (forall t: Symbol :: Names(DefaultExprs(onX), t) ==> t == A || t.IsLiteral())
  }

  lemma PairIsValid(own: Expr, onX: seq<S.Default>)
    ensures Pair(own, onX).Valid() && Pair(own, onX).IsBoolean(CHOICE) && Pair(own, onX).role(CHOICE).Choice?
    ensures Pair(own, onX).IsMemberOf(A, CHOICE) && Pair(own, onX).IsMemberOf(B, CHOICE)
  {
    var m := Pair(own, onX);
    assert m.ChoiceFits(CHOICE) && m.MemberFits(A) && m.MemberFits(B);
  }

  lemma PairIsRanked(own: Expr, onX: seq<S.Default>)
    requires PairFits(own, onX)
    ensures RankedBut(Pair(own, onX), CHOICE, PairRank, 4)
  {
    var m := Pair(own, onX);
    var ps: seq<Option<Expr>> := [None];
    assert AllExprs(ps) == OptExprs(None) + AllExprs([]) == [] by { assert ps[1..] == []; }
    assert PromptExprs(m.g(CHOICE)) == [];
    forall s: Symbol, t: Symbol | s in m.table && t in m.table && s != CHOICE && Reads(m, s, t)
      ensures PairRank(t) < PairRank(s)
    {
      PairReads(own, onX, s, t);
    }
  }

  lemma PairReads(own: Expr, onX: seq<S.Default>, s: Symbol, t: Symbol)
    requires PairFits(own, onX) && s in {B, A, X} && t in {CHOICE, B, A, X} && Reads(Pair(own, onX), s, t)
    ensures PairRank(t) < PairRank(s)
  {
    var m := Pair(own, onX);
    if s == X {
      assert ReadExprs(m, X) == [] + [] + [] + DefaultExprs(onX) == DefaultExprs(onX);
    } else {
      var es := OwnExprs(m, s);
      assert ReadExprs(m, s) == [Sym(CHOICE)] + es + [] == [Sym(CHOICE)] + es;
      NamesJoin([Sym(CHOICE)], es, t);
      NamesOne(Sym(CHOICE), t);
      assert es == if s == B then [own] else [];
      if s == B { NamesOne(own, t); }
    }
  }

  /** What the search sees: A, unless it is being evaluated, is n for lack of a member; and B is visible, and
      then picked, exactly if its condition holds. */
  lemma PairSearch(own: Expr, onX: seq<S.Default>, st: St)
    requires PairFits(own, onX) && CHOICE !in st.valid
    ensures var m := Pair(own, onX);
      var w, v := Searched(m, CHOICE, PairRank, st), SearchValues(m, CHOICE, PairRank, st);
      && m.Valid() && RankedBut(m, CHOICE, PairRank, 4) && m.role(CHOICE).Choice?
      && w.raw(A).tri == (if A in st.valid then st.Held(A).raw.tri else T.No)
      && v(A) == w.Values()(A) && v(X) == w.Values()(X)
      && CalcSym(m, CHOICE, st).Held(CHOICE) == Cell(ON.raw, Some(if Eval(own, v) == T.No then A else B))
      && Picked(m, CHOICE, v) == Some(if Eval(own, v) == T.No then A else B)
      && Tried(m, CHOICE, v) == [own]
  {
    var m := Pair(own, onX);
    var w, v := Searched(m, CHOICE, PairRank, st), SearchValues(m, CHOICE, PairRank, st);
    PairIsValid(own, onX);
    PairIsRanked(own, onX);
    SearchedChoice(m, CHOICE, PairRank, st);
    PairOfA(own, onX, st);
    PairPicks(own, onX, v);
    PairBase(own, onX, w.Values());
    var q := ChoiceFinds(m, CHOICE, PairRank, 4, st);
    hide CalcSym, Searched, Picked, Base, RankedBut, Model.Valid;
  }

  lemma PairOfA(own: Expr, onX: seq<S.Default>, st: St)
    requires PairFits(own, onX) && CHOICE !in st.valid
    ensures Searched(Pair(own, onX), CHOICE, PairRank, st).raw(A).tri
         == if A in st.valid then st.Held(A).raw.tri else T.No
  {
    hide S.Visible, Sound, Model.Valid, RankedBut, PairFits, Model.IsBoolean, Searched, MemberTri;
    var m := Pair(own, onX);
    var p, w := SearchPlan(m, CHOICE, PairRank, st), Searched(m, CHOICE, PairRank, st);
    PairIsValid(own, onX);
    PairIsRanked(own, onX);
    if A in st.valid {
      FrozenIsKept(m, CHOICE, PairRank, st, A);
    } else {
      SearchIsSound(m, CHOICE, PairRank, 4, st, 4);
      SearchedChoice(m, CHOICE, PairRank, st);
      SearchSolves(p, A);
      assert Step(m, A, w) == Cell(S.Raw("n", MemberTri(m, A, w.Values(), w.pick(CHOICE))), None);
      PairTriOfA(own, onX, w);
    }
  }

  lemma FrozenIsKept(m: Model, c: Symbol, rank: Symbol -> nat, st: St, i: Symbol)
    requires i in st.valid && i in m.table && i != c
    ensures Searched(m, c, rank, st).raw(i) == st.Held(i).raw
  {
    assert i in Frozen(m, c, st);
    assert Searched(m, c, rank, st).At(i) == Now(m, st.Put(c, ON)).At(i);
  }

  lemma PairTriOfA(own: Expr, onX: seq<S.Default>, w: World)
    requires w.raw(CHOICE).tri == T.Yes && w.pick(CHOICE) == None
    ensures MemberTri(Pair(own, onX), A, w.Values(), w.pick(CHOICE)) == T.No
  {
    hide S.Visible, S.Deselected, S.AnyPrompt, Model.Valid;
    PairIsValid(own, onX);
    MemberVisibility(Pair(own, onX), A, w.Values());
    assert !S.Deselected(Pair(own, onX).g, A, w.Values()) by { NoInverse(own, onX, w.Values()); }
  }

  lemma NoInverse(own: Expr, onX: seq<S.Default>, v: Valuation)
    ensures !S.Deselected(Pair(own, onX).g, A, v)
  {
  }

  lemma PairPicks(own: Expr, onX: seq<S.Default>, v: Valuation)
    requires v(CHOICE).tri == T.Yes
    ensures var m := Pair(own, onX);
      && Picked(m, CHOICE, v) == Some(if Eval(own, v) == T.No then A else B)
      && Tried(m, CHOICE, v) == [own]
  {
    var m := Pair(own, onX);
    PairIsValid(own, onX);
    MemberVisibility(m, A, v);
    MemberVisibility(m, B, v);
    hide S.Visible, Eval, Model.Valid;
    assert FirstDefault(m, [], v) == None;
    assert [B, A][1..] == [A] && [A][1..] == [];
    assert OwnExprs(m, B) == [own] + [] == [own] && OwnExprs(m, A) == [];
    assert FirstMember(m, [A], v) == Some(A) && TriedMembers(m, [A], v) == [] + [] == [];
    assert TriedDefaults(m, CHOICE, [], v) == TriedMembers(m, [B, A], v);
  }

  lemma PairBase(own: Expr, onX: seq<S.Default>, v: Valuation)
    ensures Base(Pair(own, onX), CHOICE, v) == T.Yes
  {
    var m := Pair(own, onX);
    var ps: seq<Option<Expr>> := [None];
    assert m.g(CHOICE).prompts == ps && ps[..0] == [];
    assert S.AnyPrompt(ps, v) == T.Or(S.AnyPrompt(ps[..0], v), T.Yes);
  }

  /** A member without defaults that is not visible is n. */
  lemma InvisibleIsNo(m: Model, i: Symbol, st: St)
    requires m.Valid() && m.role(i).Member? && i !in st.valid && m.g(i).defaults == [] && m.g(i).revDepInv == None
    requires CalcVisibility(m, i, st.Mark(i)).vis == T.No
    ensures CalcSym(m, i, st).Held(i).raw.tri == T.No
  {
    assert m.MemberFits(i);
    var l := CalcVisibility(m, i, st.Mark(i));
    var t := l.st.Put(i, Blank(i));
    assert l.sel == T.No by { hide CalcPrompts, CalcOpt; }
    assert CalcOwnDefault(m, i, t) == Got(T.No, t);
    assert CalcTri(m, i, T.No, T.No, t) == Got(T.No, t);
    hide CalcVisibility, CalcTri;
    assert CalcSym(m, i, st) == t.Put(i, Cell(S.Raw("n", T.No), None));
  }

  lemma BVisibility(own: Expr, onX: seq<S.Default>, v: Valuation)
    requires v(CHOICE).tri == T.Yes && Eval(own, v) == T.No
    ensures S.Visible(Pair(own, onX).g, B, v) == T.No
  {
    var m := Pair(own, onX);
    PairIsValid(own, onX);
    MemberVisibility(m, B, v);
    hide S.Visible, Eval, Model.Valid;
  }

  lemma BIsSearched(own: Expr, onX: seq<S.Default>, st: St, q: St)
    requires PairFits(own, onX) && CHOICE !in st.valid && B !in st.valid && B in q.valid
    requires Eval(own, SearchValues(Pair(own, onX), CHOICE, PairRank, st)) == T.No
    requires Found(Pair(own, onX), CHOICE, PairRank, 4, st, q)
    ensures q.Held(B).raw.tri == T.No
  {
    hide Found, RankedBut, S.Visible, Model.Valid, SearchValues, Searched, Eval, Sound;
    var m := Pair(own, onX);
    var p, w, v := SearchPlan(m, CHOICE, PairRank, st), Searched(m, CHOICE, PairRank, st),
                   SearchValues(m, CHOICE, PairRank, st);
    PairIsValid(own, onX);
    PairIsRanked(own, onX);
    SearchedChoice(m, CHOICE, PairRank, st);
    S.EvalAgrees(own, w.Values(), v);
    BVisibility(own, onX, w.Values());
    FoundIsSearched(m, CHOICE, PairRank, 4, st, q, B);
    SearchIsSound(m, CHOICE, PairRank, 4, st, 4);
    SearchSolves(p, B);
    assert S.FirstDefault([], w.Values()) == None;
    assert w.At(B) == Cell(S.Raw("n", MemberTri(m, B, w.Values(), w.pick(CHOICE))), None);
  }

  lemma SearchSolves(p: Plan, i: Symbol)
    requires Sound(p, 4) && p.rank(i) < 4 && i !in p.frozen
    ensures p.w.At(i) == Step(p.m, i, p.w)
  {
    assert Solved(p, i);
    hide Step;
  }

  lemma PairOfB(own: Expr, onX: seq<S.Default>)
    ensures var m := Pair(own, onX);
      m.g(B).defaults == [] && m.g(B).revDepInv == None && OwnExprs(m, B) == [own] && m.role(CHOICE).Choice?
  {
  }

  lemma BIsAskedLater(own: Expr, onX: seq<S.Default>, st: St, q: St, i: Symbol)
    requires PairFits(own, onX) && CHOICE !in st.valid && B !in q.valid
    requires Eval(own, SearchValues(Pair(own, onX), CHOICE, PairRank, st)) == T.No
    requires Found(Pair(own, onX), CHOICE, PairRank, 4, st, q)
    requires Tried(Pair(own, onX), CHOICE, SearchValues(Pair(own, onX), CHOICE, PairRank, st)) == [own]
    ensures Pair(own, onX).Valid()
    ensures CalcSym(Pair(own, onX), B, q.Put(CHOICE, Cell(ON.raw, Some(i)))).Held(B).raw.tri == T.No
  {
    hide CalcSym, SearchValues, Eval, Found, RankedBut, S.Visible, Model.Valid, Tried, OwnExprs, Pair, Model.IsBoolean,
         PairFits, CalcVisibility;
    var m := Pair(own, onX);
    PairOfB(own, onX);
    var v, r := SearchValues(m, CHOICE, PairRank, st), q.Put(CHOICE, Cell(ON.raw, Some(i)));
    PairIsValid(own, onX);
    PairIsRanked(own, onX);
    FoundTried(m, CHOICE, PairRank, 4, st, q);
    FoundIsKept(m, CHOICE, PairRank, 4, st, q, Cell(ON.raw, Some(i)), r, [own]);
    SearchValuesOn(m, CHOICE, PairRank, st);
    BVisibility(own, onX, v);
    AskedLater(m, CHOICE, B, v, r);
    InvisibleIsNo(m, B, r);
  }

  /** Where A is picked, B is n: its condition does not hold. */
  lemma BIsNo(own: Expr, onX: seq<S.Default>, st: St)
    requires PairFits(own, onX) && CHOICE !in st.valid && B !in st.valid
    requires Eval(own, SearchValues(Pair(own, onX), CHOICE, PairRank, st)) == T.No
    ensures Pair(own, onX).Valid()
    ensures var m := Pair(own, onX); CalcSym(m, B, CalcSym(m, CHOICE, st)).Held(B).raw.tri == T.No
  {
    hide CalcSym, SearchValues, Picked, Eval, Found, RankedBut, S.Visible, Model.Valid, Tried, OwnExprs, Pair,
         Model.IsBoolean, PairFits;
    var m := Pair(own, onX);
    PairSearch(own, onX, st);
    PairIsValid(own, onX);
    var q, i := ChoiceHasFound(m, CHOICE, PairRank, 4, st);
    if B in q.valid {
      BIsSearched(own, onX, st, q);
      ValidIsKept(m, B, CalcSym(m, CHOICE, st), CalcSym(m, CHOICE, st));
    } else {
      BIsAskedLater(own, onX, st, q, i);
    }
  }

  lemma SearchValuesOn(m: Model, c: Symbol, rank: Symbol -> nat, st: St)
    ensures SearchValues(m, c, rank, st)(c).tri == T.Yes
  {
    hide Searched;
  }

  lemma FoundTried(m: Model, c: Symbol, rank: Symbol -> nat, top: nat, st: St, q: St)
    requires m.role(c).Choice? && Found(m, c, rank, top, st, q)
    ensures forall t: Symbol :: Names(Tried(m, c, SearchValues(m, c, rank, st)), t) ==> IsValid(m, q, t)
  {
    hide Holds, Names, LeadsTo, SearchValues, Tried;
  }

  // ----- the runs -----

  /** The choice is on and has picked A, and neither A nor B is y. */
  ghost predicate NobodyIsYes(m: Model, st: St) {
    m.Valid() &&
    var r := CalcSym(m, CHOICE, st);
    && r.Held(CHOICE) == Cell(ON.raw, Some(A))
    && CalcSym(m, A, r).Held(A).raw.tri == T.No && CalcSym(m, B, r).Held(B).raw.tri == T.No
  }

  /** If the condition of B is n when A is, and leads to A, then A is picked and stays n. */
  lemma LeadingConditionBreaks(own: Expr, onX: seq<S.Default>, st: St)
    requires PairFits(own, onX) && st.valid == {}
    requires Eval(own, SearchValues(Pair(own, onX), CHOICE, PairRank, st)) == T.No
    requires A in ReachExpr(SearchPlan(Pair(own, onX), CHOICE, PairRank, st), 4, own)
    ensures NobodyIsYes(Pair(own, onX), st)
  {
    hide CalcSym, SearchValues, Picked, Eval, RankedBut, Model.Valid, Tried, Pair, Model.IsBoolean;
    var m := Pair(own, onX);
    PairSearch(own, onX, st);
    PairIsValid(own, onX);
    var r := CalcSym(m, CHOICE, st);
    BIsNo(own, onX, st);
    ReachOne(SearchPlan(m, CHOICE, PairRank, st), 4, own);
    assert LeadsTo(m, CHOICE, PairRank, 4, st, A);
    hide LeadsTo, ReachAll;
    PickedIsYesIffNotReached(m, CHOICE, PairRank, 4, st, r) by { assert Grows(r, r); }
  }

  /** B depends on A and comes first: looking at B evaluates A, for which the choice has no member yet. The
      choice then picks A, and A stays n. */
  lemma SiblingConditionBreaks(st: St)
    requires st.valid == {}
    ensures NobodyIsYes(Pair(Sym(A), []), st)
  {
    PairSearch(Sym(A), [], st);
    var m := Pair(Sym(A), []);
    ReachNamed(SearchPlan(m, CHOICE, PairRank, st), 4, Sym(A), A);
    hide Searched, SearchValues;
    LeadingConditionBreaks(Sym(A), [], st);
  }

  /** B depends on X, which is y by default if A is: no condition of the group names one of its symbols, but
      looking at B evaluates X, and that evaluates A. The choice picks A, and A stays n. */
  lemma ConditionOutsideBreaks(st: St)
    requires st.valid == {}
    ensures NobodyIsYes(Pair(Sym(X), [S.Default(Some(Sym(A)), YES)]), st)
  {
    var onX := [S.Default(Some(Sym(A)), YES)];
    var m := Pair(Sym(X), onX);
    XFits();
    PairSearch(Sym(X), onX, st);
    XLeadsToA(st);
    XIsNo(st);
    hide Searched, SearchValues, ReachExpr;
    LeadingConditionBreaks(Sym(X), onX, st);
  }

  lemma XFits()
    ensures PairFits(Sym(X), [S.Default(Some(Sym(A)), YES)])
  {
    var onX := [S.Default(Some(Sym(A)), YES)];
    assert DefaultExprs(onX) == [Sym(A)] + [YES] + DefaultExprs([]) by { assert onX[1..] == []; }
    assert DefaultExprs(onX) == [Sym(A), YES];
    forall t: Symbol | Names(DefaultExprs(onX), t) ensures t == A || t.IsLiteral() {
      var k :| 0 <= k < 2 && ContainsSymbol([Sym(A), YES][k], t);
    }
  }

  /** X has no prompt and its default is not met, so it is n; and its condition is evaluated. */
  lemma XOfA(v: Valuation)
    requires v(A).tri == T.No
    ensures var m := Pair(Sym(X), [S.Default(Some(Sym(A)), YES)]);
      S.StepTri(m.g, m.u, X, v) == T.No && Evaluated(m, X, v) == [Sym(A)]
  {
    var onX := [S.Default(Some(Sym(A)), YES)];
    var m := Pair(Sym(X), onX);
    assert onX[1..] == [];
    assert S.FirstDefault(onX, v) == None && MetDefaults(onX, v) == [Sym(A)] + MetDefaults([], v) == [Sym(A)];
    assert S.AnyPrompt([], v) == T.No && AllExprs([]) == [];
    assert VisibilityExprs(m, X, v) == [] + [] + [] == [];
    assert TriExprs(m, X, v) == [] + [Sym(A)] == [Sym(A)];
    assert Completed(m, X, v) == [Sym(A)] + [] == [Sym(A)];
  }

  lemma XIsNo(st: St)
    requires st.valid == {}
    ensures Searched(Pair(Sym(X), [S.Default(Some(Sym(A)), YES)]), CHOICE, PairRank, st).raw(X).tri == T.No
  {
    hide Searched, Sound, RankedBut, Model.Valid, S.StepTri, Evaluated, PairFits, Model.IsBoolean;
    var onX := [S.Default(Some(Sym(A)), YES)];
    var m := Pair(Sym(X), onX);
    var p := SearchPlan(m, CHOICE, PairRank, st);
    XFits();
    PairIsValid(Sym(X), onX);
    PairIsRanked(Sym(X), onX);
    PairOfA(Sym(X), onX, st);
    SearchIsSound(m, CHOICE, PairRank, 4, st, 4);
    SearchSolves(p, X);
    XOfA(p.w.Values());
  }

  /** What a symbol evaluates, it reaches. */
  lemma ReachOf(p: Plan, n: nat, s: Symbol, t: Symbol)
    requires Names(Evaluated(p.m, s, p.w.Values()), t) && s !in p.frozen && t !in p.frozen
    requires p.rank(t) < p.rank(s) < n
    ensures t in ReachExpr(p, n, Sym(s))
  {
    ReachAllNamed(p, p.rank(s), Evaluated(p.m, s, p.w.Values()), t);
    assert t in Reach(p, s);
    hide Evaluated, Names;
  }

  lemma XLeadsToA(st: St)
    requires st.valid == {}
    ensures A in ReachExpr(SearchPlan(Pair(Sym(X), [S.Default(Some(Sym(A)), YES)]), CHOICE, PairRank, st), 4, Sym(X))
  {
    hide Searched, Evaluated, S.StepTri, Reach, PairFits;
    var onX := [S.Default(Some(Sym(A)), YES)];
    var p := SearchPlan(Pair(Sym(X), onX), CHOICE, PairRank, st);
    XFits();
    PairOfA(Sym(X), onX, st);
    XOfA(p.w.Values());
    NamesOne(Sym(A), A);
    ReachOf(p, 4, X, A);
  }

  /** B depends on "not A" and comes first, and A was y before. Asked for the choice, the program evaluates A
      anew on the way, finds it n and picks B; asked for A, it reads the old value of A and picks A. */
  lemma SiblingConditionDependsOnOrder(st: St)
    requires st.valid == {} && st.Held(A).raw.tri == T.Yes
    ensures var m := Pair(Not(Sym(A)), []);
      && m.Valid()
      && CalcSym(m, CHOICE, st).Held(CHOICE).pick == Some(B) && CalcSym(m, A, st).Held(CHOICE).pick == Some(A)
  {
    var m := Pair(Not(Sym(A)), []);
    assert forall t: Symbol :: ContainsSymbol(Not(Sym(A)), t) == ContainsSymbol(Sym(A), t);
    PairSearch(Not(Sym(A)), [], st);
    PairSearch(Not(Sym(A)), [], st.Mark(A));
    PairIsValid(Not(Sym(A)), []);
    hide Searched, CalcSym, RankedBut, Model.Valid, SearchValues;
    RestKeeps(m, CHOICE, PairRank, 4, A, st);
  }
}
