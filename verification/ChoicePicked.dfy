/** When the picked member of a choice is y: the exact condition, for conditions that lead back into the group. */
module ChoicePicked {
  import T = Tristate
  import opened Options
  import opened Expr
  import opened ExprCompare
  import opened ChoiceSpec
  import opened ChoiceRun
  import opened ChoiceReach
  import opened ChoiceReads
  import S = SymbolSpec

  /** No symbol depends on itself through any chain, if what choice c looks at to find its member is left aside. */
  ghost predicate RankedBut(m: Model, c: Symbol, rank: Symbol -> nat, top: nat) {
    && (forall s: Symbol :: s in m.table ==> rank(s) < top)
    && (forall s: Symbol, t: Symbol :: s in m.table && t in m.table && s != c && Reads(m, s, t) ==> rank(t) < rank(s))
    && (forall t: Symbol :: t in m.table && Names(PromptExprs(m.g(c)), t) ==> rank(t) < rank(c))
  }

  const ON: Cell := Cell(S.Raw("n", T.Yes), None)

  ghost function Frozen(m: Model, c: Symbol, st: St): iset<Symbol> {
    iset s: Symbol | s == c || IsValid(m, st, s)
  }

  /** The values while the choice is on and has no member, as they are found from a given state: what is valid
      stays, everything else has the value of its step. */
  ghost function Searched(m: Model, c: Symbol, rank: Symbol -> nat, st: St): World {
    Solve(m, rank, Frozen(m, c, st), Now(m, st.Put(c, ON)))
  }

  ghost function SearchValues(m: Model, c: Symbol, rank: Symbol -> nat, st: St): Valuation {
    Switched(Searched(m, c, rank, st).Values(), c)
  }

  ghost function SearchPlan(m: Model, c: Symbol, rank: Symbol -> nat, st: St): Plan {
    Plan(m, rank, Frozen(m, c, st), Searched(m, c, rank, st))
  }

  /** The conditions that are tried when the choice looks for its member lead to the symbol. */
  ghost predicate LeadsTo(m: Model, c: Symbol, rank: Symbol -> nat, top: nat, st: St, i: Symbol)
    requires m.role(c).Choice?
  {
    i in ReachAll(SearchPlan(m, c, rank, st), top, Tried(m, c, SearchValues(m, c, rank, st)))
  }

  lemma SearchIsSound(m: Model, c: Symbol, rank: Symbol -> nat, top: nat, st: St, n: nat)
    requires m.Valid() && RankedBut(m, c, rank, top)
    ensures Sound(SearchPlan(m, c, rank, st), n)
  {
    hide Step, ReadExprs, Names, Solve, Model.Valid;
    var p := SearchPlan(m, c, rank, st);
    forall s: Symbol | s !in p.frozen ensures Solved(p, s) {
      assert s in m.table && s != c;
      SolvedIsStep(m, rank, p.frozen, Now(m, st.Put(c, ON)), s);
    }
  }

  lemma FrozenIsDone(p: Plan, st: St, base: World, s: Symbol)
    requires p.w == Solve(p.m, p.rank, p.frozen, base) && s in p.frozen && CellOf(p.m, st, s) == base.At(s)
    ensures Done(p, st, s)
  {
  }

  /** While the prompt of the choice is computed its old value shows; that matters to nothing below it. */
  lemma SearchStarts(m: Model, c: Symbol, rank: Symbol -> nat, top: nat, st: St)
    requires m.Valid() && m.role(c).Choice? && RankedBut(m, c, rank, top) && c !in st.valid
    ensures Holds(SearchPlan(m, c, rank, st), rank(c), st.Mark(c))
  {
    assert m.ChoiceFits(c);
    var p, t, base := SearchPlan(m, c, rank, st), st.Mark(c), Now(m, st.Put(c, ON));
    forall s: Symbol | IsValid(m, t, s) && (s !in m.table || rank(s) < rank(c)) ensures Done(p, t, s) {
      hide Done;
      FrozenIsDone(p, t, base, s);
    }
    assert forall s: Symbol :: s in p.frozen ==> IsValid(m, t, s);
    hide Done;
  }

  /** Once the choice is on, everything that is valid has the value of the search. */
  lemma SearchGoesOn(m: Model, c: Symbol, rank: Symbol -> nat, top: nat, st: St, s: St, reached: set<Symbol>)
    requires m.Valid() && m.role(c).Choice? && RankedBut(m, c, rank, top) && c !in st.valid
    requires var p := SearchPlan(m, c, rank, st); Holds(p, rank(c), s) && Grows(st, s)
    requires s.valid == st.valid + {c} + reached && forall x :: x in reached ==> rank(x) < rank(c)
    ensures Holds(SearchPlan(m, c, rank, st), top, s.Put(c, ON))
  {
    assert m.ChoiceFits(c);
    var p, t, base := SearchPlan(m, c, rank, st), s.Put(c, ON), Now(m, st.Put(c, ON));
    HoldsPut(p, c, ON, s);
    forall x: Symbol | IsValid(m, t, x) && (x !in m.table || rank(x) < top) ensures Done(p, t, x) {
      hide Done;
      if x in reached || (x in m.table && rank(x) < rank(c)) || x !in m.table {
        assert IsValid(m, t, x) && (x in m.table ==> rank(x) < rank(c));
      } else {
        assert x in p.frozen;
        assert CellOf(m, t, x) == base.At(x);
        FrozenIsDone(p, t, base, x);
      }
    }
    assert forall x: Symbol :: x in p.frozen ==> IsValid(m, t, x);
    hide Done;
  }

  lemma ChoiceCalc(m: Model, c: Symbol, st: St)
    requires m.Valid() && m.role(c).Choice? && c !in st.valid
    ensures var l := CalcVisibility(m, c, st.Mark(c));
      var x := CalcTri(m, c, l.vis, l.sel, l.st.Put(c, Blank(c)));
      if x.tri != T.Yes then CalcSym(m, c, st) == x.st.Put(c, Cell(S.Raw("n", x.tri), None))
      else
        var r := CalcPick(m, c, x.st.Put(c, ON));
        CalcSym(m, c, st) == r.st.Put(c, Cell(S.Raw("n", if r.member.None? then T.No else T.Yes), r.member))
  {
    assert m.ChoiceFits(c);
    hide CalcVisibility, CalcTri, CalcPick;
  }

  /** What the search for a member leaves. */
  ghost predicate Found(m: Model, c: Symbol, rank: Symbol -> nat, top: nat, st: St, q: St)
    requires m.role(c).Choice?
  {
    && Holds(SearchPlan(m, c, rank, st), top, q) && Searching(m, c, q) && Grows(st, q)
    && (forall s: Symbol :: rank(c) < rank(s) && s !in st.valid ==> (s in q.valid <==> LeadsTo(m, c, rank, top, st, s)))
    && (forall t: Symbol :: Names(Tried(m, c, SearchValues(m, c, rank, st)), t) ==> IsValid(m, q, t))
  }

  lemma TriedIsValid(p: Plan, n: nat, es: seq<Expr>, s: St, t: St)
    requires Sound(p, n) && Holds(p, n, s) && Went(p, n, s, t, ReachAll(p, n, es))
    requires forall x: Symbol :: x in p.m.table ==> p.rank(x) < n
    ensures forall x: Symbol :: Names(es, x) ==> IsValid(p.m, t, x)
  {
    hide Sound, Holds, Went, ReachAll, Names;
    forall x: Symbol | Names(es, x) ensures IsValid(p.m, t, x) { NamedIsDone(p, n, es, x, s, t); }
  }

  lemma PickIsFound(p: Plan, top: nat, c: Symbol, t: St)
    requires Sound(p, top) && Holds(p, top, t) && Searching(p.m, c, t)
    requires forall x: Symbol :: x in p.m.table ==> p.rank(x) < top
    ensures var v := Switched(p.w.Values(), c); var r := CalcPick(p.m, c, t);
      && r.member == Picked(p.m, c, v) && Holds(p, top, r.st) && Searching(p.m, c, r.st) && Grows(t, r.st)
      && r.st.valid == t.valid + ReachAll(p, top, Tried(p.m, c, v))
      && forall x: Symbol :: Names(Tried(p.m, c, v), x) ==> IsValid(p.m, r.st, x)
  {
    var v := Switched(p.w.Values(), c);
    assert Below(p, top, LookExprs(p.m, c));
    assert p.m.Valid();
    hide Sound, Below, ReachAll, Picked, Tried, CalcPick, Names, Holds, Model.Valid, LookExprs, Switched;
    PickReads(p, top, c, t);
    var q := CalcPick(p.m, c, t).st;
    TriedIsValid(p, top, Tried(p.m, c, v), t, q);
    WentHolds(p, top, t, q, ReachAll(p, top, Tried(p.m, c, v)));
  }

  lemma SearchIsReady(m: Model, c: Symbol, rank: Symbol -> nat, top: nat, st: St, s: St)
    requires m.Valid() && m.role(c).Choice? && RankedBut(m, c, rank, top) && c !in st.valid
    requires Passed(SearchPlan(m, c, rank, st), c, st.Mark(c), s)
    ensures Sound(SearchPlan(m, c, rank, st), top) && Holds(SearchPlan(m, c, rank, st), top, s.Put(c, ON))
    ensures Searching(m, c, s.Put(c, ON)) && Grows(st, s.Put(c, ON))
    ensures forall x: Symbol :: x in m.table ==> rank(x) < top
    ensures forall x: Symbol :: x in s.valid && x !in st.valid ==> rank(x) <= rank(c)
  {
    hide Holds, Sound, Reads, Names, Model.Valid, Searched;
    SearchIsSound(m, c, rank, top, st, top);
    SearchGoesOn(m, c, rank, top, st, s, s.valid - st.valid - {c});
  }

  lemma MemberIsFound(m: Model, c: Symbol, rank: Symbol -> nat, top: nat, st: St, s: St)
    requires m.Valid() && m.role(c).Choice? && RankedBut(m, c, rank, top) && c !in st.valid
    requires Passed(SearchPlan(m, c, rank, st), c, st.Mark(c), s)
    ensures var r := CalcPick(m, c, s.Put(c, ON));
      r.member == Picked(m, c, SearchValues(m, c, rank, st)) && Found(m, c, rank, top, st, r.st)
  {
    hide Holds, Sound, Searched, Model.Valid, RankedBut, Passed, Searching, ReachAll, Names, Picked, Tried, CalcPick,
         Switched;
    SearchIsReady(m, c, rank, top, st, s);
    PickIsFound(SearchPlan(m, c, rank, st), top, c, s.Put(c, ON));
  }

  lemma SearchBegins(m: Model, c: Symbol, rank: Symbol -> nat, top: nat, st: St)
    requires m.Valid() && m.role(c).Choice? && RankedBut(m, c, rank, top) && c !in st.valid
    ensures var p := SearchPlan(m, c, rank, st);
      && Sound(p, rank(c)) && Holds(p, rank(c), st.Mark(c)) && c in m.table
      && Below(p, rank(c), VisibilityExprs(m, c, p.w.Values())) && Below(p, rank(c), OptExprs(m.g(c).revDepInv))
  {
    assert m.ChoiceFits(c);
    hide Holds, Sound, Reads, Names, Model.Valid, Searched, PromptExprs;
    SearchIsSound(m, c, rank, top, st, rank(c));
    SearchStarts(m, c, rank, top, st);
    var p := SearchPlan(m, c, rank, st);
    assert Below(p, rank(c), PromptExprs(m.g(c)));
    PromptParts(p, rank(c), c, p.w.Values());
  }

  /** The choice gets the cell of the definition under the values of the search. What lies above it is valid
      afterwards if it was before or if the tried conditions lead to it, and has the value of the search. */
  lemma ChoiceFinds(m: Model, c: Symbol, rank: Symbol -> nat, top: nat, st: St) returns (q: St)
    requires m.Valid() && m.role(c).Choice? && RankedBut(m, c, rank, top) && c !in st.valid
    ensures CalcSym(m, c, st) == q.Put(c, ChoiceCell(m, c, Searched(m, c, rank, st).Values())) && c in q.valid
    ensures Grows(st, q)
    ensures Base(m, c, Searched(m, c, rank, st).Values()) == T.Yes ==> Found(m, c, rank, top, st, q)
  {
    hide Holds, Sound, Searched, CalcVisibility, CalcTri, Base, Picked, CalcPick, Model.Valid, Found, RankedBut, Below,
         CalcSym, PromptExprs, Switched;
    var l := CalcVisibility(m, c, st.Mark(c));
    var x := CalcTri(m, c, l.vis, l.sel, l.st.Put(c, Blank(c)));
    SearchBegins(m, c, rank, top, st);
    ChoiceCalc(m, c, st);
    TriPasses(SearchPlan(m, c, rank, st), c, st.Mark(c));
    if x.tri == T.Yes {
      MemberIsFound(m, c, rank, top, st, x.st);
      q := CalcPick(m, c, x.st.Put(c, ON)).st;
      FoundHolds(m, c, rank, top, st, q);
    } else {
      q := x.st.Put(c, Cell(S.Raw("n", x.tri), None));
    }
  }

  lemma FoundHolds(m: Model, c: Symbol, rank: Symbol -> nat, top: nat, st: St, q: St)
    requires m.role(c).Choice? && Found(m, c, rank, top, st, q)
    ensures Searching(m, c, q) && Grows(st, q)
  {
    hide Holds, LeadsTo, Names;
  }

  // ----- the picked member -----

  lemma {:induction false} MemberIsTried(m: Model, members: seq<Symbol>, v: Valuation, i: Symbol, t: Symbol)
    requires FirstMember(m, members, v) == Some(i) && Names(OwnExprs(m, i), t)
    ensures Names(TriedMembers(m, members, v), t)
  {
    var rest := if Selectable(m, members[0], v) then [] else TriedMembers(m, members[1..], v);
    NamesJoin(OwnExprs(m, members[0]), rest, t);
    if !Selectable(m, members[0], v) { MemberIsTried(m, members[1..], v, i, t); }
  }

  lemma {:induction false} DefaultIsTried(m: Model, c: Symbol, ds: seq<Default>, v: Valuation, i: Symbol, t: Symbol)
    requires m.role(c).Choice? && Names(OwnExprs(m, i), t)
    requires Some(i) == (var d := FirstDefault(m, ds, v);
                         if d.Some? then d else FirstMember(m, m.role(c).members, v))
    ensures Names(TriedDefaults(m, c, ds, v), t)
  {
    hide S.Visible, OwnExprs, OptExprs, FirstMember, TriedMembers, Names, Eval;
    if ds == [] {
      MemberIsTried(m, m.role(c).members, v, i, t);
    } else {
      var d, first := ds[0], OptExprs(ds[0].cond);
      var later := TriedDefaults(m, c, ds[1..], v);
      var rest := if Selectable(m, d.member, v) then [] else later;
      NamesJoin(first, later, t);
      NamesJoin(first, OwnExprs(m, d.member) + rest, t);
      NamesJoin(OwnExprs(m, d.member), rest, t);
      if EvalOpt(d.cond, v) == T.No || !Selectable(m, d.member, v) { DefaultIsTried(m, c, ds[1..], v, i, t); }
    }
  }

  /** The conditions of the picked member are among those that are tried. */
  lemma PickedIsTried(m: Model, c: Symbol, v: Valuation, i: Symbol, t: Symbol)
    requires m.role(c).Choice? && Picked(m, c, v) == Some(i) && Names(OwnExprs(m, i), t)
    ensures Names(Tried(m, c, v), t)
  {
    var ds := m.role(c).defaults;
    hide S.Visible, OwnExprs, OptExprs, FirstMember, FirstDefault, TriedDefaults, Names, Eval;
    if m.userPick(c).None? {
      DefaultIsTried(m, c, ds, v, i, t);
    } else {
      var u := m.userPick(c).value;
      var rest := if Selectable(m, u, v) then [] else TriedDefaults(m, c, ds, v);
      NamesJoin(OwnExprs(m, u), rest, t);
      if !Selectable(m, u, v) { DefaultIsTried(m, c, ds, v, i, t); }
    }
  }

  /** The choice is y in the search, as it is once it has picked a member. */
  lemma SearchedChoice(m: Model, c: Symbol, rank: Symbol -> nat, st: St)
    requires m.Valid() && m.role(c).Choice?
    ensures Searched(m, c, rank, st).At(c) == ON
    ensures forall t: Symbol :: Searched(m, c, rank, st).Values()(t) == SearchValues(m, c, rank, st)(t)
  {
    assert m.ChoiceFits(c);
    assert c in Frozen(m, c, st);
    var w := Searched(m, c, rank, st);
    assert w.At(c) == Now(m, st.Put(c, ON)).At(c) == ON;
    hide Searched;
  }

  lemma MemberAboveChoice(m: Model, c: Symbol, rank: Symbol -> nat, top: nat, i: Symbol)
    requires m.Valid() && m.role(c).Choice? && RankedBut(m, c, rank, top) && m.IsMemberOf(i, c)
    ensures rank(c) < rank(i) && i != c && i in m.table
  {
    assert m.MemberFits(i) && m.ChoiceFits(c);
    ReadsItsChoice(m, i);
    hide Reads;
  }

  /** What is evaluated during the search, and visible at y, is n: there is no member yet. */
  lemma ReachedIsNo(m: Model, c: Symbol, rank: Symbol -> nat, top: nat, st: St, q: St, i: Symbol)
    requires m.Valid() && m.role(c).Choice? && RankedBut(m, c, rank, top) && m.IsMemberOf(i, c)
    requires Found(m, c, rank, top, st, q) && i in q.valid && i !in st.valid
    requires S.Visible(m.g, i, SearchValues(m, c, rank, st)) == T.Yes
    ensures q.Held(i).raw.tri == T.No
  {
    var p, w, v := SearchPlan(m, c, rank, st), Searched(m, c, rank, st), SearchValues(m, c, rank, st);
    MemberAboveChoice(m, c, rank, top, i);
    SearchedChoice(m, c, rank, st);
    SearchIsSound(m, c, rank, top, st, top);
    assert IsValid(m, q, i) && rank(i) < top && i !in p.frozen;
    assert Done(p, q, i) && Solved(p, i);
    hide Searched, SearchValues, Holds, Sound, RankedBut, S.Visible, Found, Reach, Model.Valid;
    assert w.At(i) == Cell(S.Raw("n", MemberTri(m, i, w.Values(), w.pick(c))), None);
    assert w.pick(c) == None;
    assert AgreeOn(OwnExprs(m, i), w.Values(), v);
    CandidateAgrees(m, i, w.Values(), v);
  }

  /** A member whose conditions are valid already, asked when the choice is done. */
  lemma AskedLater(m: Model, c: Symbol, i: Symbol, v: Valuation, later: St)
    requires m.Valid() && m.role(c).Choice? && m.IsMemberOf(i, c) && c in later.valid && i !in later.valid
    requires forall t: Symbol :: Names(OwnExprs(m, i), t) ==> IsValid(m, later, t)
    requires AgreeOn(OwnExprs(m, i), v, Now(m, later).Values()) && v(c) == Now(m, later).Values()(c)
    ensures CalcVisibility(m, i, later.Mark(i)).vis == S.Visible(m.g, i, v)
    ensures S.Visible(m.g, i, v) == T.Yes ==>
      CalcSym(m, i, later).Held(i).raw.tri == T.FromBool(later.Held(c).pick == Some(i))
  {
    var s := later.Mark(i);
    var x, y := Now(m, later).Values(), Now(m, s).Values();
    assert forall t: Symbol :: x(t) == y(t);
    assert AgreeOn(OwnExprs(m, i), v, y);
    CandidateAgrees(m, i, v, y);
    forall t: Symbol | Names(VisibilityExprs(m, i, y), t) ensures IsValid(m, s, t) {
      MemberVisibilityNames(m, i, y, t);
      assert IsValid(m, later, t);
    }
    hide Now, S.Visible, CalcVisibility, VisibilityExprs, OwnExprs, CalcSym, Model.Valid, Names, AgreeOn;
    RereadVisibility(m, i, s);
    if S.Visible(m.g, i, v) == T.Yes { MemberAtYes(m, i, later); }
  }

  /** What is valid when the search is over has the value of the search. */
  lemma FoundIsSearched(m: Model, c: Symbol, rank: Symbol -> nat, top: nat, st: St, q: St, t: Symbol)
    requires m.role(c).Choice? && RankedBut(m, c, rank, top) && Found(m, c, rank, top, st, q) && IsValid(m, q, t)
    ensures CellOf(m, q, t) == Searched(m, c, rank, st).At(t)
  {
    hide Names, Reads, Searched, Reach, LeadsTo;
    assert Done(SearchPlan(m, c, rank, st), q, t);
  }

  /** The choice with the member it found: nothing else has changed since the search. */
  lemma FoundIsKept(m: Model, c: Symbol, rank: Symbol -> nat, top: nat, st: St, q: St, cell: Cell, later: St,
                    es: seq<Expr>)
    requires m.Valid() && m.role(c).Choice? && RankedBut(m, c, rank, top) && Found(m, c, rank, top, st, q)
    requires cell.raw == ON.raw && Grows(q.Put(c, cell), later)
    requires forall t: Symbol :: Names(es, t) ==> IsValid(m, q, t)
    ensures c in later.valid && later.Held(c) == cell
    ensures forall t: Symbol :: Names(es, t) ==> IsValid(m, later, t)
    ensures var v, w := SearchValues(m, c, rank, st), Now(m, later).Values(); AgreeOn(es, v, w) && v(c) == w(c)
  {
    hide Names, Searched, SearchValues, Found, RankedBut, Model.Valid;
    var v, w, x := SearchValues(m, c, rank, st), Now(m, later).Values(), Searched(m, c, rank, st);
    SearchedChoice(m, c, rank, st);
    FoundHolds(m, c, rank, top, st, q);
    ChoiceInTable(m, c);
    forall t: Symbol | Names(es, t) ensures v(t) == w(t) {
      FoundIsSearched(m, c, rank, top, st, q, t);
      assert CellOf(m, later, t).raw == x.At(t).raw;
    }
  }

  lemma ChoiceInTable(m: Model, c: Symbol)
    requires m.Valid() && m.role(c).Choice?
    ensures c in m.table
  {
    assert m.ChoiceFits(c);
  }

  /** A boolean choice that comes out as y has the member of the search, which is visible at y. */
  lemma ChoiceHasFound(m: Model, c: Symbol, rank: Symbol -> nat, top: nat, st: St) returns (q: St, i: Symbol)
    requires m.Valid() && m.role(c).Choice? && m.IsBoolean(c) && RankedBut(m, c, rank, top) && c !in st.valid
    requires CalcSym(m, c, st).Held(c).raw.tri == T.Yes
    ensures CalcSym(m, c, st) == q.Put(c, Cell(ON.raw, Some(i))) && Found(m, c, rank, top, st, q)
    ensures Picked(m, c, SearchValues(m, c, rank, st)) == Some(i) && m.IsMemberOf(i, c) && i != c
    ensures S.Visible(m.g, i, SearchValues(m, c, rank, st)) == T.Yes
  {
    hide Base, Picked, CalcSym, Searched, S.Visible, Found, RankedBut, Model.Valid;
    var v := SearchValues(m, c, rank, st);
    q := ChoiceFinds(m, c, rank, top, st);
    var cell := ChoiceCell(m, c, Searched(m, c, rank, st).Values());
    assert CalcSym(m, c, st).Held(c) == cell;
    PickedIffSelectable(m, c, v);
    i := cell.pick.value;
    MemberVisibleBelow(m, c, i, v);
    MemberAboveChoice(m, c, rank, top, i);
  }

  lemma PickedGets(m: Model, c: Symbol, rank: Symbol -> nat, top: nat, st: St, q: St, i: Symbol, later: St)
    requires m.Valid() && m.role(c).Choice? && RankedBut(m, c, rank, top) && Found(m, c, rank, top, st, q)
    requires m.IsMemberOf(i, c) && Picked(m, c, SearchValues(m, c, rank, st)) == Some(i)
    requires S.Visible(m.g, i, SearchValues(m, c, rank, st)) == T.Yes
    requires Grows(q.Put(c, Cell(ON.raw, Some(i))), later) && i !in st.valid && (i in later.valid ==> i in q.valid)
    ensures CalcSym(m, i, later).Held(i).raw.tri == if i in q.valid then T.No else T.Yes
  {
    hide Picked, Base, S.Visible, SearchValues, Searched, RankedBut, Model.Valid, Holds, LeadsTo;
    MemberAboveChoice(m, c, rank, top, i);
    if i in q.valid {
      ReachedIsNo(m, c, rank, top, st, q, i);
      assert CalcSym(m, i, later) == later;
    } else {
      var v := SearchValues(m, c, rank, st);
      forall t: Symbol | Names(OwnExprs(m, i), t) ensures IsValid(m, q, t) { PickedIsTried(m, c, v, i, t); }
      hide Found, CalcSym;
      FoundIsKept(m, c, rank, top, st, q, Cell(ON.raw, Some(i)), later, OwnExprs(m, i));
      AskedLater(m, c, i, v, later);
    }
  }

  lemma FoundReaches(m: Model, c: Symbol, rank: Symbol -> nat, top: nat, st: St, q: St, i: Symbol)
    requires m.Valid() && m.role(c).Choice? && RankedBut(m, c, rank, top) && Found(m, c, rank, top, st, q)
    requires m.IsMemberOf(i, c) && i !in st.valid
    ensures i in q.valid <==> LeadsTo(m, c, rank, top, st, i)
  {
    hide LeadsTo, Holds, RankedBut, Model.Valid, Names;
    MemberAboveChoice(m, c, rank, top, i);
  }

  /** In a boolean choice that comes out as y, whatever was cached before: the picked member is y if and only if
      no condition that was tried leads to it, and n otherwise, whenever it is asked. */
  lemma PickedIsYesIffNotReached(m: Model, c: Symbol, rank: Symbol -> nat, top: nat, st: St, later: St)
    requires m.Valid() && m.role(c).Choice? && m.IsBoolean(c) && RankedBut(m, c, rank, top) && c !in st.valid
    requires CalcSym(m, c, st).Held(c).raw.tri == T.Yes && Grows(CalcSym(m, c, st), later)
    ensures var r, p := CalcSym(m, c, st), Picked(m, c, SearchValues(m, c, rank, st));
      && r.Held(c).pick == p && p.Some? && m.IsMemberOf(p.value, c)
      && (p.value !in st.valid && (p.value in later.valid ==> p.value in r.valid) ==>
            CalcSym(m, p.value, later).Held(p.value).raw.tri
            == if LeadsTo(m, c, rank, top, st, p.value) then T.No else T.Yes)
  {
    hide CalcSym, Found, Picked, SearchValues, RankedBut, Model.Valid, S.Visible, Grows;
    var q, i := ChoiceHasFound(m, c, rank, top, st);
    if i !in st.valid && (i in later.valid ==> i in CalcSym(m, c, st).valid) {
      PickedGets(m, c, rank, top, st, q, i, later);
      FoundReaches(m, c, rank, top, st, q, i);
    }
  }

  /** All other members are n at visibility y: those that were evaluated while there was no member, and those
      that are asked later. So without the picked one no visible member is y. */
  lemma OthersAreNo(m: Model, c: Symbol, rank: Symbol -> nat, top: nat, st: St, i: Symbol, later: St)
    requires m.Valid() && m.role(c).Choice? && m.IsBoolean(c) && RankedBut(m, c, rank, top) && c !in st.valid
    requires CalcSym(m, c, st).Held(c).raw.tri == T.Yes && CalcSym(m, c, st).Held(c).pick != Some(i)
    requires m.IsMemberOf(i, c) && Grows(CalcSym(m, c, st), later)
    ensures i in CalcSym(m, c, st).valid && i !in st.valid && S.Visible(m.g, i, SearchValues(m, c, rank, st)) == T.Yes
            ==> CalcSym(m, i, later).Held(i).raw.tri == T.No
    ensures i !in later.valid && CalcVisibility(m, i, later.Mark(i)).vis == T.Yes
            ==> CalcSym(m, i, later).Held(i).raw.tri == T.No
  {
    hide Found, Picked, SearchValues, RankedBut, S.Visible, CalcVisibility;
    var q, p := ChoiceHasFound(m, c, rank, top, st);
    MemberAboveChoice(m, c, rank, top, i);
    assert c in q.valid by { FoundHolds(m, c, rank, top, st, q); }
    if i in q.valid && i !in st.valid && S.Visible(m.g, i, SearchValues(m, c, rank, st)) == T.Yes {
      ReachedIsNo(m, c, rank, top, st, q, i);
      hide Model.Valid;
      assert CalcSym(m, i, later) == later;
    }
    hide CalcSym;
    if i !in later.valid && CalcVisibility(m, i, later.Mark(i)).vis == T.Yes { MemberAtYes(m, i, later); }
  }

  // ----- conditions that lead nowhere in the group -----

  lemma {:induction false} TriedMembersAreLooked(m: Model, members: seq<Symbol>, v: Valuation, t: Symbol)
    requires Names(TriedMembers(m, members, v), t)
    ensures Names(MembersExprs(m, members), t)
  {
    if members != [] {
      var first := OwnExprs(m, members[0]);
      var rest := if Selectable(m, members[0], v) then [] else TriedMembers(m, members[1..], v);
      NamesJoin(first, rest, t);
      NamesJoin(first, MembersExprs(m, members[1..]), t);
      hide OwnExprs, S.Visible;
      if !Names(first, t) { TriedMembersAreLooked(m, members[1..], v, t); }
    }
  }

  lemma OwnIsLooked(m: Model, c: Symbol, i: Symbol, t: Symbol)
    requires m.Valid() && m.role(c).Choice? && m.IsMemberOf(i, c) && Names(OwnExprs(m, i), t)
    ensures Names(MembersExprs(m, m.role(c).members), t)
  {
    assert m.MemberFits(i);
    var members := m.role(c).members;
    var k :| 0 <= k < |members| && members[k] == i;
    NamesMember(m, members, k, t);
  }

  lemma {:induction false} TriedDefaultsAreLooked(m: Model, c: Symbol, ds: seq<Default>, v: Valuation, t: Symbol)
    requires m.Valid() && m.role(c).Choice? && forall d :: d in ds ==> m.IsMemberOf(d.member, c)
    requires Names(TriedDefaults(m, c, ds, v), t)
    ensures Names(ConditionExprs(ds), t) || Names(MembersExprs(m, m.role(c).members), t)
  {
    hide S.Visible, OwnExprs, OptExprs, TriedMembers, MembersExprs, Names, Eval, Model.Valid;
    if ds == [] {
      TriedMembersAreLooked(m, m.role(c).members, v, t);
    } else {
      var d, first, later := ds[0], OptExprs(ds[0].cond), TriedDefaults(m, c, ds[1..], v);
      assert d in ds;
      var rest := if Selectable(m, d.member, v) then [] else later;
      NamesJoin(first, later, t);
      NamesJoin(first, OwnExprs(m, d.member) + rest, t);
      NamesJoin(OwnExprs(m, d.member), rest, t);
      NamesJoin(first, ConditionExprs(ds[1..]), t);
      if Names(OwnExprs(m, d.member), t) {
        OwnIsLooked(m, c, d.member, t);
      } else if !Names(first, t) {
        NamesNothing(t);
        TriedDefaultsAreLooked(m, c, ds[1..], v, t);
      }
    }
  }

  lemma NamesNothing(t: Symbol)
    ensures !Names([], t)
  {
  }

  /** What is tried is among what the choice may look at. */
  lemma TriedIsLooked(m: Model, c: Symbol, v: Valuation, t: Symbol)
    requires m.Valid() && m.role(c).Choice? && Names(Tried(m, c, v), t)
    ensures Names(LookExprs(m, c), t)
  {
    assert m.ChoiceFits(c);
    hide S.Visible, OwnExprs, TriedDefaults, MembersExprs, ConditionExprs, Names, Model.Valid, Model.ChoiceFits;
    var ds := m.role(c).defaults;
    NamesJoin(ConditionExprs(ds), MembersExprs(m, m.role(c).members), t);
    if m.userPick(c).None? {
      TriedDefaultsAreLooked(m, c, ds, v, t);
    } else {
      var i := m.userPick(c).value;
      var rest := if Selectable(m, i, v) then [] else TriedDefaults(m, c, ds, v);
      NamesJoin(OwnExprs(m, i), rest, t);
      if Names(OwnExprs(m, i), t) {
        OwnIsLooked(m, c, i, t);
      } else {
        NamesNothing(t);
        TriedDefaultsAreLooked(m, c, ds, v, t);
      }
    }
  }

  /** Where no symbol depends on itself, what the choice looks at included, no tried condition leads to a member. */
  lemma RankedLeadsNowhere(m: Model, c: Symbol, rank: Symbol -> nat, top: nat, st: St, i: Symbol)
    requires m.Valid() && m.role(c).Choice? && Ranked(m, rank) && m.IsMemberOf(i, c)
    ensures !LeadsTo(m, c, rank, top, st, i)
  {
    assert m.MemberFits(i) && m.ChoiceFits(c);
    ReadsItsChoice(m, i);
    assert rank(c) < rank(i);
    var p, tried := SearchPlan(m, c, rank, st), Tried(m, c, SearchValues(m, c, rank, st));
    hide Names, SearchValues, Searched, Tried, ReachAll, Model.Valid, LookExprs, PromptExprs;
    forall t: Symbol | Names(tried, t) && t !in p.frozen ensures rank(t) < rank(c) {
      TriedIsLooked(m, c, SearchValues(m, c, rank, st), t);
      NamesJoin(PromptExprs(m.g(c)), LookExprs(m, c), t);
      assert t in m.table && Reads(m, c, t);
    }
    ReachStaysBelow(p, top, rank(c), tried);
  }
}
