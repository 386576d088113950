/** The cached evaluation of a configuration with choices, with its deliberate cycle: a choice is computed when a
    member's visibility asks for it, and looks at the visibility of its members while it is being computed. */
module Choice {
  import T = Tristate
  import opened Options
  import opened Expr
  import opened ChoiceSpec
  import opened ChoiceRun
  import opened ChoiceSet
  import S = SymbolSpec

  class Cache {
    var m: Model
    var valid: set<Symbol>            // SYMBOL_VALID
    var curr: map<Symbol, Cell>
    var visible: map<Symbol, T.Tri>
    var selected: map<Symbol, T.Tri>  // rev_dep.tri

    /** Nothing is valid, but older values are still there. */
    constructor (model: Model, stale: St)
      requires model.Valid()
      ensures m == model && State() == stale.(valid := {})
    {
      m := model;
      valid, curr, visible, selected := {}, stale.curr, stale.vis, stale.sel;
    }

    function State(): St
      reads this
    {
      St(valid, curr, visible, selected)
    }

    function CurrOf(s: Symbol): Cell
      reads this
    {
      CellOf(m, State(), s)
    }

    function VisibleOf(s: Symbol): T.Tri
      reads this
    {
      State().VisOf(s)
    }

    function ValueOf(s: Symbol): (x: Value)
      reads this
      ensures x == Now(m, State()).Values()(s)
    {
      S.View(s, CurrOf(s).raw)
    }

    method SetCurr(s: Symbol, c: Cell)
      modifies this`curr
      ensures State() == old(State()).Put(s, c)
    {
      curr := curr[s := c];
    }

    /** sym_calc_value. */
    method CalcValue(s: Symbol)
      requires m.Valid()
      modifies this`valid, this`curr, this`visible, this`selected
      ensures State() == CalcSym(m, s, old(State()))
      decreases m.table - valid, 0, 0
    {
      hide CalcVisibility, Compute, Model.Valid;
      if IsValid(m, State(), s) {
        return;
      }
      valid := valid + {s};
      if !HasValue(s) {
        SetCurr(s, Cell(S.Raw(m.g(s).name, T.No), None));
      } else {
        var vis, sel := CalcSymVisibility(s);
        SetCurr(s, Blank(s));
        ComputeValue(s, vis, sel);
      }
    }

    method ComputeValue(s: Symbol, vis: T.Tri, sel: T.Tri)
      requires m.Valid() && s in valid
      modifies this`valid, this`curr, this`visible, this`selected
      ensures State() == Compute(m, s, vis, sel, old(State()))
      decreases m.table - valid, 8
    {
      hide CalcText, CalcTri, CalcPick;
      if !S.IsTri(s) {
        var text := CalcTextValue(s, vis);
        SetCurr(s, Cell(S.Raw(text, T.No), None));
        return;
      }
      var tri := CalcTriValue(s, vis, sel);
      SetCurr(s, Cell(S.Raw("n", tri), None));
      if m.role(s).Choice? && tri == T.Yes {
        var p := CalcChoiceMember(s);
        SetCurr(s, Cell(S.Raw("n", if p.None? then T.No else T.Yes), p));
      }
    }

    /** expr_calc_value. */
    method CalcExprValue(e: Expr) returns (t: T.Tri)
      requires m.Valid()
      modifies this`valid, this`curr, this`visible, this`selected
      ensures Got(t, State()) == CalcExpr(m, e, old(State()))
      decreases m.table - valid, 1, e
    {
      hide CalcSym, Model.Valid;
      match e
      case Sym(s) =>
        CalcValue(s);
        t := CurrOf(s).raw.tri;
      case Not(a) =>
        var x := CalcExprValue(a);
        t := T.Not(x);
      case And(l, r) =>
        var x, y := CalcOperands(e, l, r);
        t := T.And(x, y);
      case Or(l, r) =>
        var x, y := CalcOperands(e, l, r);
        t := T.Or(x, y);
      case Equal(a, b) =>
        var same := SameText(a, b);
        t := T.FromBool(same);
      case Unequal(a, b) =>
        var same := SameText(a, b);
        t := T.FromBool(!same);
    }

    method SameText(a: Symbol, b: Symbol) returns (same: bool)
      requires m.Valid()
      modifies this`valid, this`curr, this`visible, this`selected
      ensures State() == CalcSym(m, b, CalcSym(m, a, old(State())))
      ensures same <==> Now(m, State()).Values()(a).text == Now(m, State()).Values()(b).text
      decreases m.table - valid, 0, 1
    {
      hide CalcSym, Model.Valid;
      CalcValue(a);
      CalcValue(b);
      same := ValueOf(a).text == ValueOf(b).text;
    }

    method CalcOperands(ghost e: Expr, l: Expr, r: Expr) returns (x: T.Tri, y: T.Tri)
      requires m.Valid() && (e.And? || e.Or?) && e.left == l && e.right == r
      modifies this`valid, this`curr, this`visible, this`selected
      ensures var a := CalcExpr(m, l, old(State())); x == a.tri && Got(y, State()) == CalcExpr(m, r, a.st)
      decreases m.table - valid, 1, e, 0
    {
      hide CalcExpr, Model.Valid;
      x := CalcExprValue(l);
      y := CalcExprValue(r);
    }

    /** expr_calc_value, where a missing expression counts as none. */
    method CalcOptValue(e: Option<Expr>, none: T.Tri) returns (t: T.Tri)
      requires m.Valid()
      modifies this`valid, this`curr, this`visible, this`selected
      ensures Got(t, State()) == CalcOpt(m, e, none, old(State()))
      decreases m.table - valid, 2
    {
      t := none;
      if e.Some? {
        t := CalcExprValue(e.value);
      }
    }

    /** Is any prompt visible? */
    method CalcPromptTri(prompts: seq<Option<Expr>>) returns (tri: T.Tri)
      requires m.Valid()
      modifies this`valid, this`curr, this`visible, this`selected
      ensures Got(tri, State()) == CalcPrompts(m, prompts, old(State()))
      decreases m.table - valid, 3
    {
      hide CalcOpt, Model.Valid;
      tri := T.No;
      var i := 0;
      while i < |prompts|
        invariant i <= |prompts|
        invariant Got(tri, State()) == CalcPrompts(m, prompts[..i], old(State()))
        invariant Grows(old(State()), State())
      {
        var t := CalcOptValue(prompts[i], T.Yes);
        tri := T.Or(tri, t);
        assert prompts[..i + 1][..i] == prompts[..i];
        i := i + 1;
      }
      assert prompts[..i] == prompts;
    }

    /** sym_calc_visibility. */
    method CalcSymVisibility(s: Symbol) returns (vis: T.Tri, sel: T.Tri)
      requires m.Valid()
      modifies this`valid, this`curr, this`visible, this`selected
      ensures Look(vis, sel, State()) == CalcVisibility(m, s, old(State()))
      decreases m.table - valid, 4
    {
      hide CalcPrompts, CalcOpt, Model.Valid;
      vis := CalcPromptTri(m.g(s).prompts);
      var inv := CalcOptValue(m.g(s).revDepInv, T.No);
      if inv == T.Yes {
        vis := T.No;
      } else if vis == T.Mod && s.Type() != Tristate {
        vis := T.Yes;
      }
      visible := visible[s := vis];
      sel := T.No;
      if m.role(s).Member? {
        return;
      }
      if inv == T.Yes {
        return vis, State().SelOf(s);
      }
      sel := CalcOptValue(m.g(s).revDep, T.No);
      sel := S.Settle(s, sel);
      selected := selected[s := sel];
    }

    /** sym_get_default_prop, and the value of that default. */
    method CalcFirstDefault(defaults: seq<S.Default>) returns (t: T.Tri)
      requires m.Valid()
      modifies this`valid, this`curr, this`visible, this`selected
      ensures Got(t, State()) == CalcDefault(m, defaults, old(State()))
      decreases m.table - valid, 3
    {
      hide CalcOpt, CalcExpr, Model.Valid;
      var k := 0;
      while k < |defaults|
        invariant k <= |defaults|
        invariant CalcDefault(m, defaults, old(State())) == CalcDefault(m, defaults[k..], State())
        invariant Grows(old(State()), State())
      {
        var c := CalcOptValue(defaults[k].cond, T.Yes);
        if c != T.No {
          t := CalcExprValue(defaults[k].value);
          return;
        }
        assert defaults[k..][1..] == defaults[k + 1..];
        k := k + 1;
      }
      t := T.No;
    }

    method CalcFirstText(defaults: seq<S.Default>) returns (text: string)
      requires m.Valid()
      modifies this`valid, this`curr, this`visible, this`selected
      ensures Text(text, State()) == CalcTextDefault(m, defaults, old(State()))
      decreases m.table - valid, 3
    {
      hide CalcOpt, CalcSym, Model.Valid;
      var k := 0;
      while k < |defaults|
        invariant k <= |defaults|
        invariant CalcTextDefault(m, defaults, old(State())) == CalcTextDefault(m, defaults[k..], State())
        invariant Grows(old(State()), State())
      {
        var c := CalcOptValue(defaults[k].cond, T.Yes);
        if c != T.No {
          if !defaults[k].value.Sym? {
            return "";
          }
          CalcValue(defaults[k].value.sym);
          return S.RawText(defaults[k].value.sym, ValueOf(defaults[k].value.sym));
        }
        assert defaults[k..][1..] == defaults[k + 1..];
        k := k + 1;
      }
      text := "";
    }

    method CalcTextValue(s: Symbol, vis: T.Tri) returns (text: string)
      requires m.Valid()
      modifies this`valid, this`curr, this`visible, this`selected
      ensures Text(text, State()) == CalcText(m, s, vis, old(State()))
      decreases m.table - valid, 4
    {
      if vis != T.No && !m.u(s).isNew {
        return m.u(s).text;
      }
      text := CalcFirstText(m.g(s).defaults);
    }

    /** The bool and tristate case of sym_calc_value, after the visibility. */
    method CalcTriValue(s: Symbol, vis: T.Tri, sel: T.Tri) returns (t: T.Tri)
      requires m.Valid()
      modifies this`valid, this`curr, this`visible, this`selected
      ensures Got(t, State()) == CalcTri(m, s, vis, sel, old(State()))
      decreases m.table - valid, 4
    {
      hide CalcOpt, CalcDefault, Model.Valid;
      if m.role(s).Member? && vis == T.Yes {
        return T.FromBool(CurrOf(m.role(s).choice).pick == Some(s));
      }
      var inv := CalcOptValue(m.g(s).revDepInv, T.No);
      if inv == T.Yes {
        return T.No;
      }
      var shown := T.Or(vis, sel) != T.No;
      t := T.No;
      if shown && !m.u(s).isNew {
        t := m.u(s).tri;
      } else if !m.role(s).Choice? {
        t := CalcFirstDefault(m.g(s).defaults);
      }
      if shown {
        t := T.Or(T.And(t, vis), sel);
      }
      t := S.Settle(s, t);
    }

    /** sym_calc_choice: the user's member, the defaults, the members in order. */
    method CalcChoiceMember(c: Symbol) returns (p: Option<Symbol>)
      requires m.Valid() && m.role(c).Choice?
      modifies this`valid, this`curr, this`visible, this`selected
      ensures Pick(p, State()) == CalcPick(m, c, old(State()))
      decreases m.table - valid, 7
    {
      hide CalcVisibility, CalcOpt, Model.Valid;
      if m.userPick(c).Some? {
        var vis, _ := CalcSymVisibility(m.userPick(c).value);
        if vis != T.No {
          return m.userPick(c);
        }
      }
      p := CalcChoiceDefault(c);
    }

    method CalcChoiceDefault(c: Symbol) returns (p: Option<Symbol>)
      requires m.Valid() && m.role(c).Choice?
      modifies this`valid, this`curr, this`visible, this`selected
      ensures Pick(p, State()) == PickDefault(m, c, m.role(c).defaults, old(State()))
      decreases m.table - valid, 6
    {
      assert m.ChoiceFits(c);
      hide CalcVisibility, CalcOpt, PickMember, Model.Valid;
      var defaults := m.role(c).defaults;
      var k := 0;
      while k < |defaults|
        invariant k <= |defaults| && forall d :: d in defaults[k..] ==> m.IsMemberOf(d.member, c)
        invariant PickDefault(m, c, defaults, old(State())) == PickDefault(m, c, defaults[k..], State())
        invariant Grows(old(State()), State())
      {
        var cond := CalcOptValue(defaults[k].cond, T.Yes);
        if cond != T.No {
          var vis, _ := CalcSymVisibility(defaults[k].member);
          if vis != T.No {
            return Some(defaults[k].member);
          }
        }
        assert defaults[k..][1..] == defaults[k + 1..];
        k := k + 1;
      }
      p := CalcFirstMember(m.role(c).members);
    }

    method CalcFirstMember(members: seq<Symbol>) returns (p: Option<Symbol>)
      requires m.Valid()
      modifies this`valid, this`curr, this`visible, this`selected
      ensures Pick(p, State()) == PickMember(m, members, old(State()))
      decreases m.table - valid, 5
    {
      hide CalcVisibility, Model.Valid;
      var i := 0;
      while i < |members|
        invariant i <= |members|
        invariant PickMember(m, members, old(State())) == PickMember(m, members[i..], State())
        invariant Grows(old(State()), State())
      {
        var vis, _ := CalcSymVisibility(members[i]);
        if vis != T.No {
          return Some(members[i]);
        }
        assert members[i..][1..] == members[i + 1..];
        i := i + 1;
      }
      p := None;
    }

    method ClearAllValid()
      modifies this`valid
      ensures State() == old(State()).(valid := {})
    {
      valid := {};
    }

    /** The loop over the members that resets SYMBOL_NEW, by the visibility that is cached. */
    method FindShown(c: Symbol) returns (shown: set<Symbol>)
      requires m.role(c).Choice?
      ensures shown == ShownMembers(m, c, State())
    {
      var members := m.role(c).members;
      shown := {};
      var k := 0;
      while k < |members|
        invariant k <= |members|
        invariant forall s :: s in shown <==> s in members[..k] && VisibleOf(s) != T.No
      {
        if VisibleOf(members[k]) != T.No {
          shown := shown + {members[k]};
        }
        k := k + 1;
      }
      assert members[..k] == members;
    }

    /** sym_set_tristate_value(member, yes). Accepted if the member is y already or visible at y; then it is the
        user's choice, and the members whose cached visibility is not n are no longer new. */
    method SetMember(i: Symbol, ghost rank: Symbol -> nat, ghost w: World) returns (ok: bool)
      requires m.Valid() && m.role(i).Member?
      modifies this`m, this`valid
      ensures ok <==> old(CurrOf(i).raw.tri) == T.Yes || old(VisibleOf(i)) == T.Yes
      ensures m == if ok then WithMember(old(m), i, ShownMembers(old(m), old(m).role(i).choice, old(State())))
                   else old(m)
      ensures m.Valid() && (Ranked(old(m), rank) ==> Ranked(m, rank))
      ensures State() == if ok && old(CurrOf(i).raw.tri) != T.Yes then old(State()).(valid := {}) else old(State())
      ensures ok && old(CurrOf(i).raw.tri) == T.Yes && Ranked(old(m), rank) && Confirms(old(m), i, w, old(State()))
              ==> Settled(m, w, State())
      ensures Ranked(old(m), rank) && Settled(old(m), w, old(State())) && Settable(old(m), i, old(State()))
              ==> ok && MemberIsSet(old(m), m, i, rank, w)
    {
      ghost var before, st := m, State();
      var c := m.role(i).choice;
      assert m.role(c).Choice? by { assert m.MemberFits(i); }
      var oldval := CurrOf(i).raw.tri;
      if oldval != T.Yes && VisibleOf(i) != T.Yes {
        return false;
      }
      hide Model.Valid, Settled, Ranked, WithMember, ShownMembers, MemberIsSet, CellOf;
      var shown := FindShown(c);
      SetMemberFacts(m, c, i, rank, w, st);
      m := WithMember(m, i, shown);
      if oldval != T.Yes {
        ClearAllValid();
      }
      ok := true;
    }
  }

  /** The member is y already, and the cache is right. */
  ghost predicate Confirms(m: Model, i: Symbol, w: World, st: St)
    requires m.role(i).Member?
  {
    var c := m.role(i).choice;
    && Settled(m, w, st) && m.IsBoolean(c) && m.PlainlySet(c)
    && i in st.valid && st.VisOf(i) == T.Yes && st.Held(i).raw.tri == T.Yes
  }

  /** The member has been asked and was found visible at y. */
  predicate Settable(m: Model, i: Symbol, st: St)
    requires m.role(i).Member?
  {
    m.PlainlySet(m.role(i).choice) && i in st.valid && st.VisOf(i) == T.Yes
  }

  /** The new values: the choice is worth what it was, and has the member if it is y. */
  ghost predicate MemberIsSet(m: Model, h: Model, i: Symbol, rank: Symbol -> nat, w: World)
    requires m.role(i).Member?
  {
    var c, x := m.role(i).choice, Values(h, rank);
    && x.raw(c).tri == w.raw(c).tri
    && (x.raw(i).tri == T.Yes <==> x.raw(c).tri == T.Yes)
    && (x.raw(c).tri == T.Yes ==> x.pick(c) == Some(i))
  }

  /** What SetMember promises, on values. */
  lemma SetMemberFacts(m: Model, c: Symbol, i: Symbol, rank: Symbol -> nat, w: World, st: St)
    requires m.Valid() && m.role(c).Choice? && m.IsMemberOf(i, c)
    ensures var h := WithMember(m, i, ShownMembers(m, c, st));
      && h.Valid() && (Ranked(m, rank) ==> Ranked(h, rank))
      && (Ranked(m, rank) && Confirms(m, i, w, st) ==> Settled(h, w, st))
      && (Ranked(m, rank) && Settled(m, w, st) && Settable(m, i, st) ==> MemberIsSet(m, h, i, rank, w))
  {
    hide Model.Valid, WithMember, Solution, Model.PlainlySet, Model.IsBoolean, S.Visible, Values, Ranked, ShownMembers,
         SymbolSettled, ReadExprs;
    var shown := ShownMembers(m, c, st);
    var h := WithMember(m, i, shown);
    ShownAreMembers(m, c, st);
    WithMemberIsValid(m, c, i, shown);
    if Ranked(m, rank) {
      StillRanked(m, i, shown, rank);
      if Confirms(m, i, w, st) { ConfirmedKeepsSettled(m, c, i, shown, rank, w, st); }
      if Settled(m, w, st) && Settable(m, i, st) {
        SettledIsVisible(m, i, w, st);
        ValuesAreSolution(h, rank);
        SetMemberGives(m, c, i, shown, rank, w, Values(h, rank));
      }
    }
  }

  lemma ShownAreMembers(m: Model, c: Symbol, st: St)
    requires m.Valid() && m.role(c).Choice?
    ensures AreMembers(m, c, ShownMembers(m, c, st))
  {
    assert m.ChoiceFits(c);
  }

  lemma SettledIsVisible(m: Model, i: Symbol, w: World, st: St)
    requires m.Valid() && m.role(i).Member? && Settled(m, w, st) && i in st.valid
    ensures st.VisOf(i) == S.Visible(m.g, i, w.Values())
  {
    assert m.MemberFits(i) && SymbolSettled(m, w, st, i);
    hide S.Visible, Solution;
  }

  lemma StillRanked(m: Model, i: Symbol, shown: set<Symbol>, rank: Symbol -> nat)
    requires m.role(i).Member? && Ranked(m, rank)
    requires forall s: Symbol :: ReadExprs(WithMember(m, i, shown), s) == ReadExprs(m, s)
    ensures Ranked(WithMember(m, i, shown), rank)
  {
    WithMemberKeeps(m, i, shown);
    hide ReadExprs, WithMember, Names;
  }

  lemma WithMemberKeeps(m: Model, i: Symbol, shown: set<Symbol>)
    requires m.role(i).Member?
    ensures WithMember(m, i, shown).table == m.table && WithMember(m, i, shown).role == m.role
  {
  }

  /** Any sequence of requests, for choices, members and all other symbols, from whatever was cached before,
      gives every symbol that is asked its value in the one solution: it does not matter who is asked first. */
  method AskInOrder(m: Model, stale: St, order: seq<Symbol>, ghost rank: Symbol -> nat) returns (cells: seq<Cell>)
    requires m.Valid() && Ranked(m, rank)
    ensures |cells| == |order| && forall k :: 0 <= k < |cells| ==> cells[k] == Values(m, rank).At(order[k])
  {
    hide CalcSym, Values, Ranked, Model.Valid, Solution;
    ghost var w := Values(m, rank);
    ValuesAreSolution(m, rank);
    var c := new Cache(m, stale);
    cells := [];
    while |cells| < |order|
      invariant |cells| <= |order| && fresh(c) && c.m == m && Settled(m, w, c.State())
      invariant forall k :: 0 <= k < |cells| ==> cells[k] == w.At(order[k])
    {
      CalcKeepsSettled(m, rank, w, order[|cells|], c.State());
      c.CalcValue(order[|cells|]);
      cells := cells + [c.CurrOf(order[|cells|])];
    }
  }
}
