/** Cached values that are right, and setting a member to y. */
module ChoiceSet {
  import T = Tristate
  import opened Options
  import opened Expr
  import opened ExprCompare
  import opened ChoiceSpec
  import opened ChoiceRun
  import opened ChoiceReach
  import opened ChoiceReads
  import S = SymbolSpec

  // ----- a cache that is right -----

  /** A valid symbol has the value and the visibility of the solution. */
  predicate SymbolSettled(m: Model, w: World, st: St, s: Symbol) {
    && CellOf(m, st, s) == w.At(s)
    && (HasValue(s) ==> Steady(m, st, s) && st.VisOf(s) == S.Visible(m.g, s, w.Values()))
  }

  ghost predicate Settled(m: Model, w: World, st: St) {
    && Solution(m, w)
    && st.valid <= m.table
    && forall s :: s in st.valid ==> SymbolSettled(m, w, st, s)
  }

  /** The plan under which what is valid already is not evaluated. */
  ghost function ValidPlan(m: Model, rank: Symbol -> nat, w: World, st: St): Plan {
    Plan(m, rank, ValidNow(m, st), w)
  }

  lemma ValidPlanHolds(m: Model, rank: Symbol -> nat, w: World, st: St, n: nat)
    requires m.Valid() && Ranked(m, rank) && Settled(m, w, st)
    ensures Sound(ValidPlan(m, rank, w, st), n) && Holds(ValidPlan(m, rank, w, st), n, st)
  {
    hide Step, ReadExprs, Names, Model.Valid, S.Visible;
    var p := ValidPlan(m, rank, w, st);
    forall s: Symbol | s !in p.frozen ensures Solved(p, s) {
      assert w.At(s) == Step(m, s, w);
    }
    forall s: Symbol | IsValid(m, st, s) ensures Done(p, st, s) {
      assert s in p.frozen;
      if s in st.valid { assert SymbolSettled(m, w, st, s); } else { assert w.At(s) == Constant(m, s); }
    }
  }

  /** Asking any symbol keeps the cache right and gives the symbol its value. */
  lemma CalcKeepsSettled(m: Model, rank: Symbol -> nat, w: World, s: Symbol, st: St)
    requires m.Valid() && Ranked(m, rank) && Settled(m, w, st)
    ensures var r := CalcSym(m, s, st); Settled(m, w, r) && CellOf(m, r, s) == w.At(s) && IsValid(m, r, s)
  {
    hide CalcSym, Sound, Model.Valid, S.Visible, Ranked, Solution, ReachSym;
    var p, n, r := ValidPlan(m, rank, w, st), rank(s) + 1, CalcSym(m, s, st);
    ValidPlanHolds(m, rank, w, st, n);
    SymReads(p, n, s, st);
    ReachSymIsBelow(p, n, s);
    forall x | x in r.valid ensures SymbolSettled(m, w, r, x) && x in m.table {
      hide Reach;
      if x in st.valid {
        assert SymbolSettled(m, w, st, x);
      } else {
        assert p.rank(x) < n && x !in p.frozen;
        assert IsValid(m, r, x) && Done(p, r, x);
      }
    }
  }

  /** In a boolean choice that has been evaluated to y, a member that has been evaluated is visible and y exactly
      if it is the one that is picked, and there is one. */
  lemma ExactlyThePickedIsYes(m: Model, c: Symbol, i: Symbol, w: World, st: St)
    requires m.Valid() && m.role(c).Choice? && m.IsBoolean(c) && m.IsMemberOf(i, c)
    requires Settled(m, w, st) && c in st.valid && i in st.valid && st.Held(c).raw.tri == T.Yes
    ensures st.VisOf(i) != T.No && st.Held(i).raw.tri == T.Yes <==> st.Held(c).pick == Some(i)
    ensures st.Held(c).pick.Some? && m.IsMemberOf(st.Held(c).pick.value, c)
  {
    hide S.Visible, Solution;
    assert m.MemberFits(i) && m.ChoiceFits(c);
    hide Model.Valid, Model.MemberFits, Model.ChoiceFits, Model.IsBoolean;
    assert SymbolSettled(m, w, st, c) && SymbolSettled(m, w, st, i);
    ChoiceSpec.ExactlyThePickedIsYes(m, c, i, w);
  }

  /** In a choice that has been evaluated to anything else, none is picked and no visible member is y. */
  lemma NothingPickedOtherwise(m: Model, c: Symbol, i: Symbol, w: World, st: St)
    requires m.Valid() && m.role(c).Choice? && m.IsMemberOf(i, c)
    requires Settled(m, w, st) && c in st.valid && i in st.valid && st.Held(c).raw.tri != T.Yes
    ensures st.Held(c).pick == None && !(st.VisOf(i) != T.No && st.Held(i).raw.tri == T.Yes)
  {
    hide S.Visible, Solution;
    assert m.MemberFits(i) && m.ChoiceFits(c);
    hide Model.Valid, Model.MemberFits, Model.ChoiceFits, Model.IsBoolean;
    assert SymbolSettled(m, w, st, c) && SymbolSettled(m, w, st, i);
    ChoiceSpec.NothingPickedOtherwise(m, c, i, w);
  }

  // ----- setting a member -----

  /** Member i is the user's choice; the choice and the given members count as set. */
  function WithMember(m: Model, i: Symbol, shown: set<Symbol>): Model
    requires m.role(i).Member?
  {
    var c := m.role(i).choice;
    m.(u := (s: Symbol) => if s == i then S.Setting(T.Yes, m.u(i).text, false)
                           else if s == c || s in shown then m.u(s).(isNew := false)
                           else m.u(s),
       userPick := (s: Symbol) => if s == c then Some(i) else m.userPick(s))
  }

  /** The members that the cache shows as visible. */
  function ShownMembers(m: Model, c: Symbol, st: St): (r: set<Symbol>)
    requires m.role(c).Choice?
  {
    set s | s in m.role(c).members && st.VisOf(s) != T.No
  }

  /** Setting a member leaves everything alone but this: the member is y and no longer new, it is the user's choice,
      the choice is no longer new, and neither is any other member the cache shows. */
  lemma SetMemberTouches(m: Model, i: Symbol, st: St, x: Symbol)
    requires m.Valid() && m.role(i).Member?
    ensures var c := m.role(i).choice;
      var h := WithMember(m, i, ShownMembers(m, c, st));
      && h.g == m.g && h.role == m.role && h.table == m.table
      && h.userPick(x) == (if x == c then Some(i) else m.userPick(x))
      && h.u(x).text == m.u(x).text && h.u(x).tri == (if x == i then T.Yes else m.u(x).tri)
      && (h.u(x).isNew <==> m.u(x).isNew && x != i && x != c && !(m.IsMemberOf(x, c) && st.VisOf(x) != T.No))
  {
    assert m.MemberFits(i);
    var c := m.role(i).choice;
    assert m.ChoiceFits(c);
    if m.IsMemberOf(x, c) { assert m.MemberFits(x); }
  }

  ghost predicate AreMembers(m: Model, c: Symbol, shown: set<Symbol>) {
    forall s :: s in shown ==> m.IsMemberOf(s, c)
  }

  lemma WithMemberIsValid(m: Model, c: Symbol, i: Symbol, shown: set<Symbol>)
    requires m.Valid() && m.IsMemberOf(i, c)
    ensures var h := WithMember(m, i, shown);
      && h.Valid() && m.role(c).Choice? && (m.IsBoolean(c) ==> h.IsBoolean(c))
      && forall s: Symbol :: ReadExprs(h, s) == ReadExprs(m, s)
  {
    var h := WithMember(m, i, shown);
    assert m.MemberFits(i) && m.ChoiceFits(c);
    forall s: Symbol | h.role(s).Choice? ensures h.ChoiceFits(s) { assert m.ChoiceFits(s); }
    forall s: Symbol | h.role(s).Member? ensures h.MemberFits(s) { assert m.MemberFits(s); }
    forall s: Symbol ensures ReadExprs(h, s) == ReadExprs(m, s) {
      if m.role(s).Choice? { SameMembersExprs(m, h, m.role(s).members); }
    }
  }

  lemma {:induction false} SameMembersExprs(m: Model, h: Model, members: seq<Symbol>)
    requires h.role == m.role && h.g == m.g
    ensures MembersExprs(h, members) == MembersExprs(m, members)
  {
    if members != [] { SameMembersExprs(m, h, members[1..]); }
  }

  lemma {:induction false} SameFirstMember(m: Model, h: Model, members: seq<Symbol>, v: Valuation)
    requires h.g == m.g
    ensures FirstMember(h, members, v) == FirstMember(m, members, v)
  {
    if members != [] { SameFirstMember(m, h, members[1..], v); }
  }

  lemma {:induction false} SameFirstDefault(m: Model, h: Model, ds: seq<Default>, v: Valuation)
    requires h.g == m.g
    ensures FirstDefault(h, ds, v) == FirstDefault(m, ds, v)
  {
    if ds != [] { SameFirstDefault(m, h, ds[1..], v); }
  }

  /** A symbol about which the user has changed nothing takes the same step. */
  lemma SameStep(m: Model, h: Model, s: Symbol, w: World)
    requires h.g == m.g && h.role == m.role && h.u(s) == m.u(s) && h.userPick(s) == m.userPick(s)
    ensures Step(h, s, w) == Step(m, s, w)
  {
    hide S.AnyPrompt, S.FirstDefault, Eval;
    var v := w.Values();
    match m.role(s)
    case Plain =>
    case Member(_, _) =>
    case Choice(ds, members) =>
      SameFirstDefault(m, h, ds, Switched(v, s));
      SameFirstMember(m, h, members, Switched(v, s));
      hide S.Visible, Switched;
  }

  /** Below the choice nothing changes. */
  lemma {:induction false} SameBelow(m: Model, c: Symbol, i: Symbol, shown: set<Symbol>, rank: Symbol -> nat,
                                     w: World, x: World, t: Symbol)
    requires m.Valid() && Ranked(m, rank) && m.IsMemberOf(i, c) && AreMembers(m, c, shown)
    requires Solution(m, w) && Solution(WithMember(m, i, shown), x)
    requires t !in m.table || rank(t) < rank(c)
    ensures x.At(t) == w.At(t)
    decreases rank(t)
  {
    var h := WithMember(m, i, shown);
    if t in m.table {
      WithMemberIsValid(m, c, i, shown);
      NotAMember(m, c, i, shown, rank, t);
      forall y: Symbol | Reads(m, t, y) ensures x.At(y) == w.At(y) {
        if y in m.table { SameBelow(m, c, i, shown, rank, w, x, y); }
        else { assert w.At(y) == Constant(m, y) && x.At(y) == Constant(h, y); }
      }
      hide Reads, Step, ReadExprs, Constant;
      StepAgrees(m, t, x, w);
      SameStep(m, h, t, x);
    }
  }

  lemma NotAMember(m: Model, c: Symbol, i: Symbol, shown: set<Symbol>, rank: Symbol -> nat, t: Symbol)
    requires m.Valid() && Ranked(m, rank) && m.IsMemberOf(i, c) && AreMembers(m, c, shown)
    requires t in m.table && rank(t) < rank(c)
    ensures t != c && t != i && t !in shown
  {
    assert m.MemberFits(i) && m.ChoiceFits(c);
    ReadsItsChoice(m, i);
    if t in shown {
      assert m.MemberFits(t);
      ReadsItsChoice(m, t);
    }
    hide Reads;
  }

  /** What a member's visibility needs besides its choice lies below the choice. */
  lemma OwnBelowChoice(m: Model, c: Symbol, i: Symbol, rank: Symbol -> nat, t: Symbol)
    requires m.Valid() && Ranked(m, rank) && m.role(c).Choice? && m.IsMemberOf(i, c)
    requires Names(OwnExprs(m, i), t) && t in m.table
    ensures rank(t) < rank(c)
  {
    assert m.MemberFits(i) && m.ChoiceFits(c);
    var members := m.role(c).members;
    var k :| 0 <= k < |members| && members[k] == i;
    NamesMember(m, members, k, t);
    NamesJoin(ConditionExprs(m.role(c).defaults), MembersExprs(m, members), t);
    NamesJoin(PromptExprs(m.g(c)), LookExprs(m, c), t);
    assert Reads(m, c, t);
  }

  /** The tristate of the choice, and the visibility of its members for a given tristate, are as before. */
  lemma SameGroup(m: Model, c: Symbol, i: Symbol, shown: set<Symbol>, rank: Symbol -> nat, w: World, x: World)
    requires m.Valid() && Ranked(m, rank) && m.IsMemberOf(i, c) && AreMembers(m, c, shown) && m.PlainlySet(c)
    requires Solution(m, w) && Solution(WithMember(m, i, shown), x) && m.role(c).Choice?
    ensures Base(WithMember(m, i, shown), c, x.Values()) == Base(m, c, w.Values())
    ensures AgreeOn(OwnExprs(m, i), w.Values(), x.Values())
  {
    var v, y := w.Values(), x.Values();
    forall t: Symbol | t !in m.table || rank(t) < rank(c) ensures v(t) == y(t) {
      SameBelow(m, c, i, shown, rank, w, x, t);
      assert w.At(t) == x.At(t);
    }
    forall t: Symbol | Names(OwnExprs(m, i), t) ensures v(t) == y(t) {
      if t in m.table { OwnBelowChoice(m, c, i, rank, t); }
    }
    forall t: Symbol | Names(PromptExprs(m.g(c)), t) ensures v(t) == y(t) {
      assert m.ChoiceFits(c);
      NamesJoin(PromptExprs(m.g(c)), LookExprs(m, c), t);
      assert Reads(m, c, t);
    }
    hide Solution, Ranked, Names, Model.Valid;
    SelectionAgrees(m.g, c, v, y);
    NotItself(m, c, i);
    hide S.Visible, S.Selected, S.Deselected;
  }

  lemma NotItself(m: Model, c: Symbol, i: Symbol)
    requires m.role(c).Choice? && m.IsMemberOf(i, c)
    ensures i != c
  {
  }

  /** Setting a member that is visible at y leaves the tristate of the choice. The member is y if the choice
      is; under a choice that is m the setting is accepted and the member stays n. */
  lemma SetMemberGives(m: Model, c: Symbol, i: Symbol, shown: set<Symbol>, rank: Symbol -> nat, w: World, x: World)
    requires m.Valid() && Ranked(m, rank) && m.IsMemberOf(i, c) && AreMembers(m, c, shown) && m.PlainlySet(c)
    requires m.role(c).Choice? && Solution(m, w) && Solution(WithMember(m, i, shown), x)
    requires S.Visible(m.g, i, w.Values()) == T.Yes
    ensures x.raw(c).tri == w.raw(c).tri
    ensures x.raw(i).tri == T.Yes <==> x.raw(c).tri == T.Yes
    ensures x.raw(c).tri == T.Yes ==> x.pick(c) == Some(i)
  {
    hide Base, S.Visible, Picked, Ranked, Names, Model.Valid, Model.PlainlySet, Solution;
    var h, v, y := WithMember(m, i, shown), w.Values(), x.Values();
    WithMemberIsValid(m, c, i, shown);
    SameGroup(m, c, i, shown, rank, w, x);
    ChoiceHasCell(m, c, w);
    ChoiceHasCell(h, c, x);
    MemberVisibleBelow(m, c, i, v);
    if Base(m, c, v) == T.Yes {
      assert v(c).tri == T.Yes;
      OwnIsApart(m, c, i, rank);
      SettingIsPicked(m, c, i, shown, w, y);
    }
    assert v(c) == y(c);
    CandidateAgrees(m, i, v, y);
    MemberHasTri(h, i, x);
    PickedMember(h, c, i, x);
  }

  lemma OwnIsApart(m: Model, c: Symbol, i: Symbol, rank: Symbol -> nat)
    requires m.Valid() && Ranked(m, rank) && m.role(c).Choice? && m.IsMemberOf(i, c)
    ensures !Names(OwnExprs(m, i), c)
  {
    hide Ranked, Names;
    assert m.ChoiceFits(c);
    if Names(OwnExprs(m, i), c) { OwnBelowChoice(m, c, i, rank, c); }
  }

  lemma ChoiceHasCell(m: Model, c: Symbol, w: World)
    requires m.Valid() && m.role(c).Choice? && Solution(m, w)
    ensures w.At(c) == ChoiceCell(m, c, w.Values()) && S.IsTri(c)
  {
    assert m.ChoiceFits(c);
    hide ChoiceCell;
  }

  /** In a choice that is on, the user's member is picked if it is visible. */
  lemma SettingIsPicked(m: Model, c: Symbol, i: Symbol, shown: set<Symbol>, w: World, y: Valuation)
    requires m.Valid() && m.role(c).Choice? && m.IsMemberOf(i, c) && w.raw(c).tri == T.Yes && S.IsTri(c)
    requires S.Visible(m.g, i, w.Values()) == T.Yes && AgreeOn(OwnExprs(m, i), w.Values(), y)
    requires !Names(OwnExprs(m, i), c)
    ensures Picked(WithMember(m, i, shown), c, Switched(y, c)) == Some(i)
  {
    hide S.Visible, Names, Model.Valid;
    var v := w.Values();
    assert v(c) == Value(T.Yes, "y");
    assert AgreeOn(OwnExprs(m, i), v, Switched(y, c));
    CandidateAgrees(m, i, v, Switched(y, c));
  }

  lemma PickedMember(m: Model, c: Symbol, i: Symbol, w: World)
    requires m.IsMemberOf(i, c) && S.Visible(m.g, i, w.Values()) == T.Yes
    ensures MemberTri(m, i, w.Values(), w.pick(c)) == T.FromBool(w.pick(c) == Some(i))
  {
    hide S.Visible;
  }

  /** Setting the member that is y already changes no value: what was a solution still is one. */
  lemma ConfirmedKeepsSolution(m: Model, c: Symbol, i: Symbol, shown: set<Symbol>, rank: Symbol -> nat, w: World)
    requires m.Valid() && Ranked(m, rank) && m.IsMemberOf(i, c) && AreMembers(m, c, shown) && m.PlainlySet(c)
    requires m.role(c).Choice? && m.IsBoolean(c) && Solution(m, w)
    requires S.Visible(m.g, i, w.Values()) == T.Yes && w.raw(i).tri == T.Yes
    ensures Solution(WithMember(m, i, shown), w)
  {
    var h := WithMember(m, i, shown);
    forall s: Symbol ensures w.At(s) == if s in h.table then Step(h, s, w) else Constant(h, s) {
      assert w.At(s) == if s in m.table then Step(m, s, w) else Constant(m, s);
      hide Solution, Ranked, Step, Model.Valid, Model.PlainlySet, Model.IsBoolean;
      if s == c {
        ConfirmedChoice(m, c, i, shown, rank, w);
      } else if m.IsMemberOf(s, c) {
        ConfirmedMember(m, c, i, shown, s, w);
      } else {
        SameStep(m, h, s, w);
      }
    }
  }

  lemma ConfirmedChoice(m: Model, c: Symbol, i: Symbol, shown: set<Symbol>, rank: Symbol -> nat, w: World)
    requires m.Valid() && Ranked(m, rank) && m.IsMemberOf(i, c) && m.PlainlySet(c)
    requires m.role(c).Choice? && m.IsBoolean(c) && Solution(m, w)
    requires S.Visible(m.g, i, w.Values()) == T.Yes && w.raw(i).tri == T.Yes
    ensures Step(WithMember(m, i, shown), c, w) == Step(m, c, w) == w.At(c)
  {
    var h, v := WithMember(m, i, shown), w.Values();
    ChoiceHasCell(m, c, w);
    MemberVisibleBelow(m, c, i, v);
    assert Base(h, c, v) == Base(m, c, v) by { hide S.Visible, S.Selected, S.Deselected; }
    BaseIsBoolean(m, c, v);
    hide Base, Picked, S.Visible, Ranked, Model.Valid, Model.PlainlySet, Model.IsBoolean, Solution;
    assert w.raw(c).tri == T.Yes;
    AtMostThePickedIsYes(m, c, i, w);
    OwnIsApart(m, c, i, rank);
    SettingIsPicked(m, c, i, shown, w, v);
  }

  lemma BaseIsBoolean(m: Model, c: Symbol, v: Valuation)
    requires c.Type() == Boolean
    ensures Base(m, c, v) in {T.No, T.Yes}
  {
    hide S.Visible, S.Selected, S.Deselected;
  }

  lemma ConfirmedMember(m: Model, c: Symbol, i: Symbol, shown: set<Symbol>, s: Symbol, w: World)
    requires m.Valid() && m.IsMemberOf(i, c) && m.IsMemberOf(s, c) && m.IsBoolean(c)
    ensures Step(WithMember(m, i, shown), s, w) == Step(m, s, w)
  {
    MemberVisibleBelow(m, c, s, w.Values());
    assert s.Type() == Boolean;
    hide S.Visible, S.Deselected, S.DefaultTri, Model.Valid;
  }

  /** Setting the member that is y already leaves everything that is cached right. */
  lemma ConfirmedKeepsSettled(m: Model, c: Symbol, i: Symbol, shown: set<Symbol>, rank: Symbol -> nat, w: World, st: St)
    requires m.Valid() && Ranked(m, rank) && m.IsMemberOf(i, c) && AreMembers(m, c, shown) && m.PlainlySet(c)
    requires m.role(c).Choice? && m.IsBoolean(c) && Settled(m, w, st)
    requires i in st.valid && st.VisOf(i) == T.Yes && st.Held(i).raw.tri == T.Yes
    ensures Settled(WithMember(m, i, shown), w, st)
  {
    var h := WithMember(m, i, shown);
    assert m.MemberFits(i);
    hide S.Visible, Solution, Ranked, Model.Valid, Model.PlainlySet, Model.IsBoolean, Model.MemberFits;
    assert SymbolSettled(m, w, st, i);
    ConfirmedKeepsSolution(m, c, i, shown, rank, w);
    forall s | s in st.valid ensures SymbolSettled(h, w, st, s) {
      assert SymbolSettled(m, w, st, s);
    }
  }
}
