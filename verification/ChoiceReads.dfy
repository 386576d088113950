/** An evaluation without cycles reads off the values of a solved world and reaches what it must. */
module ChoiceReads {
  import T = Tristate
  import opened Options
  import opened Expr
  import opened ExprCompare
  import opened ChoiceSpec
  import opened ChoiceRun
  import opened ChoiceReach
  import S = SymbolSpec

  /** The symbols below n that are not frozen have the value of their step and depend on lower ones only. */
  ghost predicate Sound(p: Plan, n: nat) {
    && p.m.Valid()
    && (forall s: Symbol :: s !in p.m.table ==> s in p.frozen)
    && (forall s: Symbol :: s !in p.frozen && p.rank(s) < n ==> Solved(p, s))
  }

  ghost predicate Solved(p: Plan, s: Symbol) {
    p.w.At(s) == Step(p.m, s, p.w) && Below(p, p.rank(s), ReadExprs(p.m, s))
  }

  /** What the expressions name lies below n. */
  ghost predicate Below(p: Plan, n: nat, es: seq<Expr>) {
    forall t: Symbol :: t in p.m.table && Names(es, t) ==> p.rank(t) < n
  }

  ghost predicate ExprBelow(p: Plan, n: nat, e: Expr) {
    forall t: Symbol :: t in p.m.table && ContainsSymbol(e, t) ==> p.rank(t) < n
  }

  /** The symbol has its value, what it reaches is valid, and its visibility is noted. */
  ghost predicate Done(p: Plan, st: St, s: Symbol) {
    && CellOf(p.m, st, s) == p.w.At(s) && Reach(p, s) <= st.valid
    && (s !in p.frozen && HasValue(s) ==> Shown(p, st, s))
  }

  predicate Shown(p: Plan, st: St, s: Symbol) {
    Steady(p.m, st, s) && st.VisOf(s) == S.Visible(p.m.g, s, p.w.Values())
  }

  /** The frozen symbols are valid, and what is valid below n is done. */
  ghost predicate Holds(p: Plan, n: nat, st: St) {
    && (forall s: Symbol :: s in p.frozen ==> IsValid(p.m, st, s))
    && (forall s: Symbol :: IsValid(p.m, st, s) && (s !in p.m.table || p.rank(s) < n) ==> Done(p, st, s))
  }

  /** An evaluation below n has made valid what was to be reached, and nothing else. */
  ghost predicate Went(p: Plan, n: nat, s: St, t: St, reached: set<Symbol>) {
    Grows(s, t) && Holds(p, n, t) && t.valid == s.valid + reached
  }

  lemma BelowJoin(p: Plan, n: nat, a: seq<Expr>, b: seq<Expr>)
    ensures Below(p, n, a + b) <==> Below(p, n, a) && Below(p, n, b)
  {
    forall t: Symbol ensures Names(a + b, t) <==> Names(a, t) || Names(b, t) { NamesJoin(a, b, t); }
  }

  lemma BelowOne(p: Plan, n: nat, e: Expr)
    ensures Below(p, n, [e]) <==> ExprBelow(p, n, e)
  {
    forall t: Symbol ensures Names([e], t) <==> ContainsSymbol(e, t) { NamesOne(e, t); }
  }

  lemma WentTwice(p: Plan, n: nat, s: St, t: St, u: St, a: set<Symbol>, b: set<Symbol>)
    requires Went(p, n, s, t, a) && Went(p, n, t, u, b)
    ensures Went(p, n, s, u, a + b)
  {
    hide Holds;
  }

  // ----- expressions -----

  lemma ValidIsRead(p: Plan, n: nat, s: Symbol, st: St)
    requires Sound(p, n) && Holds(p, n, st) && IsValid(p.m, st, s) && (s in p.m.table ==> p.rank(s) < n)
    ensures Went(p, n, st, st, ReachSym(p, n, s)) && CellOf(p.m, st, s) == p.w.At(s)
  {
    hide Reach, Solved;
    assert Done(p, st, s);
  }

  lemma {:induction false} ExprReads(p: Plan, n: nat, e: Expr, st: St)
    requires Sound(p, n) && Holds(p, n, st) && ExprBelow(p, n, e)
    ensures var r := CalcExpr(p.m, e, st);
      r.tri == Eval(e, p.w.Values()) && Went(p, n, st, r.st, ReachExpr(p, n, e))
    decreases n, 1, e
  {
    assert p.m.Valid();
    hide Sound, Holds, Went, CalcSym;
    match e
    case Sym(s) =>
      assert ContainsSymbol(e, s);
      SymReads(p, n, s, st);
    case Not(a) =>
      assert forall t: Symbol :: ContainsSymbol(a, t) <==> ContainsSymbol(e, t);
      ExprReads(p, n, a, st);
    case And(l, r) => OperandsRead(p, n, e, l, r, st);
    case Or(l, r) => OperandsRead(p, n, e, l, r, st);
    case Equal(a, b) => TextsRead(p, n, e, a, b, st);
    case Unequal(a, b) => TextsRead(p, n, e, a, b, st);
  }

  lemma {:induction false} OperandsRead(p: Plan, n: nat, e: Expr, l: Expr, r: Expr, st: St)
    requires Sound(p, n) && Holds(p, n, st) && ExprBelow(p, n, e)
    requires (e.And? || e.Or?) && e.left == l && e.right == r
    ensures var x := CalcExpr(p.m, l, st); var y := CalcExpr(p.m, r, x.st);
      && x.tri == Eval(l, p.w.Values()) && y.tri == Eval(r, p.w.Values())
      && Went(p, n, st, y.st, ReachExpr(p, n, e))
    decreases n, 1, e, 0
  {
    assert forall t: Symbol :: ContainsSymbol(e, t) <==> ContainsSymbol(l, t) || ContainsSymbol(r, t);
    assert p.m.Valid();
    hide CalcExpr, Sound, Holds, ContainsSymbol, Eval;
    var x := CalcExpr(p.m, l, st);
    ExprReads(p, n, l, st);
    ExprReads(p, n, r, x.st);
    WentTwice(p, n, st, x.st, CalcExpr(p.m, r, x.st).st, ReachExpr(p, n, l), ReachExpr(p, n, r));
    hide Went;
  }

  lemma {:induction false} TextsRead(p: Plan, n: nat, e: Expr, a: Symbol, b: Symbol, st: St)
    requires Sound(p, n) && Holds(p, n, st) && ExprBelow(p, n, e)
    requires (e.Equal? || e.Unequal?) && e.lhs == a && e.rhs == b
    ensures var t := CalcSym(p.m, b, CalcSym(p.m, a, st));
      && CellOf(p.m, t, a) == p.w.At(a) && CellOf(p.m, t, b) == p.w.At(b)
      && Went(p, n, st, t, ReachExpr(p, n, e))
    decreases n, 1, e, 0
  {
    assert ContainsSymbol(e, a) && ContainsSymbol(e, b);
    assert p.m.Valid();
    hide CalcSym, Sound, ContainsSymbol;
    var x := CalcSym(p.m, a, st);
    SymReads(p, n, a, st);
    SymReads(p, n, b, x);
    WentTwice(p, n, st, x, CalcSym(p.m, b, x), ReachSym(p, n, a), ReachSym(p, n, b));
    hide Holds, ReachSym;
  }

  lemma {:induction false} OptReads(p: Plan, n: nat, e: Option<Expr>, none: T.Tri, st: St)
    requires Sound(p, n) && Holds(p, n, st) && Below(p, n, OptExprs(e))
    ensures var r := CalcOpt(p.m, e, none, st);
      && r.tri == (if e.None? then none else Eval(e.value, p.w.Values()))
      && Went(p, n, st, r.st, ReachAll(p, n, OptExprs(e)))
    decreases n, 2
  {
    assert p.m.Valid();
    hide Sound, Holds, Below, Eval;
    if e.Some? {
      BelowOne(p, n, e.value);
      ReachOne(p, n, e.value);
      ExprReads(p, n, e.value, st);
      hide Went, ReachExpr, ReachAll;
    }
  }

  lemma {:induction false} PromptsRead(p: Plan, n: nat, ps: seq<Option<Expr>>, st: St)
    requires Sound(p, n) && Holds(p, n, st) && Below(p, n, AllExprs(ps))
    ensures var r := CalcPrompts(p.m, ps, st);
      r.tri == S.AnyPrompt(ps, p.w.Values()) && Went(p, n, st, r.st, ReachAll(p, n, AllExprs(ps)))
    decreases n, 3, |ps|
  {
    assert p.m.Valid();
    hide Sound, Holds, Below, EvalOpt, CalcOpt;
    if ps != [] {
      var k := |ps| - 1;
      AllExprsJoin(ps[..k], ps[k]);
      assert ps[..k] + [ps[k]] == ps;
      BelowJoin(p, n, AllExprs(ps[..k]), OptExprs(ps[k]));
      ReachJoin(p, n, AllExprs(ps[..k]), OptExprs(ps[k]));
      var x := CalcPrompts(p.m, ps[..k], st);
      PromptsRead(p, n, ps[..k], st);
      OptReads(p, n, ps[k], T.Yes, x.st);
      var y := CalcOpt(p.m, ps[k], T.Yes, x.st);
      assert y.tri == EvalOpt(ps[k], p.w.Values());
      WentTwice(p, n, st, x.st, y.st, ReachAll(p, n, AllExprs(ps[..k])), ReachAll(p, n, OptExprs(ps[k])));
      hide Went, ReachAll, AllExprs;
    }
  }

  lemma {:induction false} AllExprsJoin(ps: seq<Option<Expr>>, e: Option<Expr>)
    ensures AllExprs(ps + [e]) == AllExprs(ps) + OptExprs(e)
  {
    if ps == [] {
      assert [e][1..] == [];
      assert ps + [e] == [e];
    } else {
      assert (ps + [e])[0] == ps[0] && (ps + [e])[1..] == ps[1..] + [e];
      AllExprsJoin(ps[1..], e);
    }
  }

  // ----- visibility and defaults -----

  /** Noting a visibility or a selection changes nothing else. */
  lemma WentSeen(p: Plan, n: nat, x: Symbol, vis: T.Tri, s: St, t: St, u: St, reached: set<Symbol>)
    requires Went(p, n, s, t, reached) && u == t.(vis := t.vis[x := vis], sel := u.sel)
    requires x !in p.frozen && (x !in p.m.table || p.rank(x) < n) ==> vis == S.Visible(p.m.g, x, p.w.Values())
    ensures Went(p, n, s, u, reached)
  {
    hide Reach, S.Visible;
    forall y: Symbol | IsValid(p.m, u, y) && (y !in p.m.table || p.rank(y) < n) ensures Done(p, u, y) {
      assert IsValid(p.m, t, y) && Done(p, t, y);
    }
    forall y: Symbol | y in p.frozen ensures IsValid(p.m, u, y) { assert IsValid(p.m, t, y); }
  }

  lemma WentSelected(p: Plan, n: nat, s: St, t: St, u: St, reached: set<Symbol>)
    requires Went(p, n, s, t, reached) && u == t.(sel := u.sel)
    ensures Went(p, n, s, u, reached)
  {
    hide Reach, S.Visible;
    forall y: Symbol | IsValid(p.m, u, y) && (y !in p.m.table || p.rank(y) < n) ensures Done(p, u, y) {
      assert IsValid(p.m, t, y) && Done(p, t, y);
      assert u.VisOf(y) == t.VisOf(y) && (Steady(p.m, t, y) ==> Steady(p.m, u, y));
    }
    forall y: Symbol | y in p.frozen ensures IsValid(p.m, u, y) { assert IsValid(p.m, t, y); }
  }

  /** The prompts and the reverse deselection. */
  lemma {:induction false} PromptReads(p: Plan, n: nat, s: Symbol, st: St)
    requires Sound(p, n) && Holds(p, n, st)
    requires Below(p, n, AllExprs(p.m.g(s).prompts) + OptExprs(p.m.g(s).revDepInv))
    ensures var i, v := p.m.g(s), p.w.Values(); var x := CalcPrompts(p.m, i.prompts, st);
      var d := CalcOpt(p.m, i.revDepInv, T.No, x.st);
      && x.tri == S.AnyPrompt(i.prompts, v) && (d.tri == T.Yes <==> S.Deselected(p.m.g, s, v))
      && Went(p, n, st, d.st, ReachAll(p, n, AllExprs(i.prompts) + OptExprs(i.revDepInv)))
    decreases n, 3
  {
    SoundIsValid(p, n);
    hide Sound, Holds, Below, AllExprs, OptExprs, ReachAll, CalcOpt, CalcPrompts, S.AnyPrompt, Eval, Went;
    var i := p.m.g(s);
    BelowJoin(p, n, AllExprs(i.prompts), OptExprs(i.revDepInv));
    ReachJoin(p, n, AllExprs(i.prompts), OptExprs(i.revDepInv));
    var x := CalcPrompts(p.m, i.prompts, st);
    PromptsRead(p, n, i.prompts, st);
    WentHolds(p, n, st, x.st, ReachAll(p, n, AllExprs(i.prompts)));
    OptReads(p, n, i.revDepInv, T.No, x.st);
    var d := CalcOpt(p.m, i.revDepInv, T.No, x.st);
    WentTwice(p, n, st, x.st, d.st, ReachAll(p, n, AllExprs(i.prompts)), ReachAll(p, n, OptExprs(i.revDepInv)));
  }

  lemma SoundIsValid(p: Plan, n: nat)
    requires Sound(p, n)
    ensures p.m.Valid()
  {
    hide Model.Valid, Solved;
  }

  lemma {:induction false} VisibilityReads(p: Plan, n: nat, s: Symbol, st: St)
    requires Sound(p, n) && Holds(p, n, st) && Below(p, n, VisibilityExprs(p.m, s, p.w.Values()))
    ensures var l, v := CalcVisibility(p.m, s, st), p.w.Values();
      && l.vis == S.Visible(p.m.g, s, v) && (!S.Deselected(p.m.g, s, v) ==> l.sel == Selection(p.m, s, v))
      && Went(p, n, st, l.st, ReachAll(p, n, VisibilityExprs(p.m, s, v)))
    decreases n, 4
  {
    hide Sound, Holds, Below, AllExprs, OptExprs, ReachAll, CalcOpt, CalcPrompts, S.AnyPrompt, Eval, Went,
         S.Deselected, Model.Valid;
    SoundIsValid(p, n);
    var i, v := p.m.g(s), p.w.Values();
    var before := AllExprs(i.prompts) + OptExprs(i.revDepInv);
    var es := if p.m.role(s).Member? || S.Deselected(p.m.g, s, v) then [] else OptExprs(i.revDep);
    BelowJoin(p, n, before, es);
    PromptReads(p, n, s, st);
    var d := CalcOpt(p.m, i.revDepInv, T.No, CalcPrompts(p.m, i.prompts, st).st);
    var t := d.st.(vis := d.st.vis[s := S.Visible(p.m.g, s, v)]);
    WentSeen(p, n, s, S.Visible(p.m.g, s, v), st, d.st, t, ReachAll(p, n, before));
    if p.m.role(s).Member? || S.Deselected(p.m.g, s, v) {
      assert before + es == before;
    } else {
      ReachJoin(p, n, before, es);
      WentHolds(p, n, st, t, ReachAll(p, n, before));
      OptReads(p, n, i.revDep, T.No, t);
      var y := CalcOpt(p.m, i.revDep, T.No, t);
      WentTwice(p, n, st, t, y.st, ReachAll(p, n, before), ReachAll(p, n, es));
      WentSelected(p, n, st, y.st, CalcVisibility(p.m, s, st).st, ReachAll(p, n, before + es));
    }
  }

  lemma WentHolds(p: Plan, n: nat, s: St, t: St, reached: set<Symbol>)
    requires Went(p, n, s, t, reached)
    ensures Grows(s, t) && Holds(p, n, t)
  {
    hide Holds, Grows;
  }

  lemma WentNowhere(p: Plan, n: nat, st: St)
    requires Holds(p, n, st)
    ensures Went(p, n, st, st, ReachAll(p, n, []))
  {
    hide Holds;
  }

  lemma {:induction false} DefaultReads(p: Plan, n: nat, ds: seq<S.Default>, st: St)
    requires Sound(p, n) && Holds(p, n, st) && Below(p, n, DefaultExprs(ds))
    ensures var r, v := CalcDefault(p.m, ds, st), p.w.Values(); var d := S.FirstDefault(ds, v);
      && r.tri == (if d.None? then T.No else Eval(d.value.value, v))
      && Went(p, n, st, r.st, ReachAll(p, n, MetDefaults(ds, v)))
    decreases n, 3, |ds|
  {
    assert p.m.Valid();
    hide Sound, Holds, Below, OptExprs, ReachAll, CalcOpt, CalcExpr, Eval, Went;
    if ds == [] {
      WentNowhere(p, n, st);
    } else {
      var v, c := p.w.Values(), CalcOpt(p.m, ds[0].cond, T.Yes, st);
      BelowDefault(p, n, ds);
      OptReads(p, n, ds[0].cond, T.Yes, st);
      assert c.tri == EvalOpt(ds[0].cond, v);
      WentHolds(p, n, st, c.st, ReachAll(p, n, OptExprs(ds[0].cond)));
      var r := CalcDefault(p.m, ds, st);
      if c.tri != T.No {
        ExprReads(p, n, ds[0].value, c.st);
        ReachOne(p, n, ds[0].value);
        ReachJoin(p, n, OptExprs(ds[0].cond), [ds[0].value]);
        WentTwice(p, n, st, c.st, r.st, ReachAll(p, n, OptExprs(ds[0].cond)), ReachExpr(p, n, ds[0].value));
      } else {
        DefaultReads(p, n, ds[1..], c.st);
        var rest := MetDefaults(ds[1..], v);
        ReachJoin(p, n, OptExprs(ds[0].cond), rest);
        WentTwice(p, n, st, c.st, r.st, ReachAll(p, n, OptExprs(ds[0].cond)), ReachAll(p, n, rest));
      }
    }
  }

  lemma BelowDefault(p: Plan, n: nat, ds: seq<S.Default>)
    requires ds != [] && Below(p, n, DefaultExprs(ds))
    ensures Below(p, n, OptExprs(ds[0].cond)) && ExprBelow(p, n, ds[0].value) && Below(p, n, DefaultExprs(ds[1..]))
  {
    BelowJoin(p, n, OptExprs(ds[0].cond) + [ds[0].value], DefaultExprs(ds[1..]));
    BelowJoin(p, n, OptExprs(ds[0].cond), [ds[0].value]);
    BelowOne(p, n, ds[0].value);
  }

  lemma {:induction false} TextDefaultReads(p: Plan, n: nat, ds: seq<S.Default>, st: St)
    requires Sound(p, n) && Holds(p, n, st) && Below(p, n, DefaultExprs(ds))
    ensures var r, v := CalcTextDefault(p.m, ds, st), p.w.Values(); var d := S.FirstDefault(ds, v);
      && r.text == (if d.None? || !d.value.value.Sym? then ""
                    else S.RawText(d.value.value.sym, v(d.value.value.sym)))
      && Went(p, n, st, r.st, ReachAll(p, n, MetTexts(ds, v)))
    decreases n, 3, |ds|
  {
    assert p.m.Valid();
    hide Sound, Holds, Below, OptExprs, ReachAll, CalcOpt, CalcSym, Eval, Went;
    if ds == [] {
      WentNowhere(p, n, st);
    } else {
      var v, c := p.w.Values(), CalcOpt(p.m, ds[0].cond, T.Yes, st);
      BelowDefault(p, n, ds);
      OptReads(p, n, ds[0].cond, T.Yes, st);
      assert c.tri == EvalOpt(ds[0].cond, v);
      var reached := ReachAll(p, n, OptExprs(ds[0].cond));
      WentHolds(p, n, st, c.st, reached);
      var r := CalcTextDefault(p.m, ds, st);
      if c.tri == T.No {
        TextDefaultReads(p, n, ds[1..], c.st);
        var rest := MetTexts(ds[1..], v);
        ReachJoin(p, n, OptExprs(ds[0].cond), rest);
        WentTwice(p, n, st, c.st, r.st, reached, ReachAll(p, n, rest));
      } else if ds[0].value.Sym? {
        var d := ds[0].value.sym;
        assert ContainsSymbol(ds[0].value, d);
        SymReads(p, n, d, c.st);
        ReachOne(p, n, ds[0].value);
        ReachJoin(p, n, OptExprs(ds[0].cond), [ds[0].value]);
        WentTwice(p, n, st, c.st, r.st, reached, ReachSym(p, n, d));
      } else {
        assert OptExprs(ds[0].cond) + [] == OptExprs(ds[0].cond);
      }
    }
  }

  lemma {:induction false} TextReads(p: Plan, n: nat, s: Symbol, st: St)
    requires Sound(p, n) && Holds(p, n, st) && Below(p, n, DefaultExprs(p.m.g(s).defaults))
    ensures var v := p.w.Values(); var r := CalcText(p.m, s, S.Visible(p.m.g, s, v), st);
      r.text == S.StepText(p.m.g, p.m.u, s, v) && Went(p, n, st, r.st, ReachAll(p, n, TextExprs(p.m, s, v)))
    decreases n, 4
  {
    assert p.m.Valid();
    hide Sound, Holds, Below, S.Visible, CalcTextDefault, Went, ReachAll, S.FirstDefault;
    WentNowhere(p, n, st);
    if S.Visible(p.m.g, s, p.w.Values()) == T.No || p.m.u(s).isNew {
      TextDefaultReads(p, n, p.m.g(s).defaults, st);
    }
  }

  /** The tristate by the role of the symbol. */
  function TriOf(m: Model, s: Symbol, w: World): T.Tri {
    match m.role(s)
    case Plain => S.StepTri(m.g, m.u, s, w.Values())
    case Member(c, _) => MemberTri(m, s, w.Values(), w.pick(c))
    case Choice(_, _) => Base(m, s, w.Values())
  }

  lemma {:induction false} OwnDefaultReads(p: Plan, n: nat, s: Symbol, st: St)
    requires Sound(p, n) && Holds(p, n, st)
    requires !p.m.role(s).Choice? ==> Below(p, n, DefaultExprs(p.m.g(s).defaults))
    ensures var r, v := CalcOwnDefault(p.m, s, st), p.w.Values();
      && r.tri == (if p.m.role(s).Choice? then T.No else S.DefaultTri(p.m.g, s, v))
      && Went(p, n, st, r.st, ReachAll(p, n, if p.m.role(s).Choice? then [] else MetDefaults(p.m.g(s).defaults, v)))
    decreases n, 3
  {
    assert p.m.Valid();
    hide Sound, Holds, Below, CalcDefault, Went, ReachAll, S.FirstDefault, MetDefaults, DefaultExprs, Eval;
    WentNowhere(p, n, st);
    if !p.m.role(s).Choice? { DefaultReads(p, n, p.m.g(s).defaults, st); }
  }

  lemma {:induction false} TriReads(p: Plan, n: nat, s: Symbol, sel: T.Tri, st: St)
    requires Sound(p, n) && Holds(p, n, st) && Below(p, n, OptExprs(p.m.g(s).revDepInv))
    requires !p.m.role(s).Choice? ==> Below(p, n, DefaultExprs(p.m.g(s).defaults))
    requires var v := p.w.Values(); !S.Deselected(p.m.g, s, v) ==> sel == Selection(p.m, s, v)
    requires p.m.role(s).Member? ==> CellOf(p.m, st, p.m.role(s).choice) == p.w.At(p.m.role(s).choice)
    ensures var v := p.w.Values(); var r := CalcTri(p.m, s, S.Visible(p.m.g, s, v), sel, st);
      r.tri == TriOf(p.m, s, p.w) && Went(p, n, st, r.st, ReachAll(p, n, TriExprs(p.m, s, v)))
    decreases n, 4
  {
    assert p.m.Valid();
    hide Sound, Holds, Below, S.Visible, S.Selected, CalcOwnDefault, CalcOpt, Went, ReachAll, MetDefaults,
         DefaultExprs, S.DefaultTri, Eval, OptExprs;
    var v, i := p.w.Values(), p.m.g(s);
    var vis := S.Visible(p.m.g, s, v);
    var r := CalcTri(p.m, s, vis, sel, st);
    if p.m.role(s).Member? && vis == T.Yes {
      WentNowhere(p, n, st);
    } else {
      var d := CalcOpt(p.m, i.revDepInv, T.No, st);
      var reached := ReachAll(p, n, OptExprs(i.revDepInv));
      OptReads(p, n, i.revDepInv, T.No, st);
      WentHolds(p, n, st, d.st, reached);
      assert OptExprs(i.revDepInv) + [] == OptExprs(i.revDepInv);
      if !S.Deselected(p.m.g, s, v) && !(T.Or(vis, sel) != T.No && !p.m.u(s).isNew) {
        OwnDefaultReads(p, n, s, d.st);
        var rest := if p.m.role(s).Choice? then [] else MetDefaults(i.defaults, v);
        ReachJoin(p, n, OptExprs(i.revDepInv), rest);
        WentTwice(p, n, st, d.st, r.st, reached, ReachAll(p, n, rest));
      }
    }
  }

  // ----- the search for a member -----

  /** The choice is on and has no member yet. */
  predicate Searching(m: Model, c: Symbol, st: St) {
    m.role(c).Choice? && c in st.valid && st.Held(c) == Cell(S.Raw("n", T.Yes), None)
  }

  /** What lies below n is worth the same while the choice is on. */
  lemma SwitchedAgrees(p: Plan, n: nat, c: Symbol, es: seq<Expr>, st: St)
    requires Sound(p, n) && Holds(p, n, st) && Searching(p.m, c, st) && Below(p, n, es)
    ensures AgreeOn(es, p.w.Values(), Switched(p.w.Values(), c))
  {
    assert p.m.ChoiceFits(c);
    if p.rank(c) < n {
      assert IsValid(p.m, st, c) && Done(p, st, c);
    }
    hide Reach, Solved;
  }

  /** A member that lies below n is as visible as in the search. */
  lemma CandidateIsShown(p: Plan, n: nat, c: Symbol, i: Symbol, st: St)
    requires Sound(p, n) && Holds(p, n, st) && Searching(p.m, c, st) && p.m.IsMemberOf(i, c)
    requires i !in p.frozen && p.rank(i) < n
    ensures S.Visible(p.m.g, i, p.w.Values()) == S.Visible(p.m.g, i, Switched(p.w.Values(), c))
  {
    hide S.Visible, Model.Valid, Reach, Step, OwnExprs, DefaultExprs, Names, Shown;
    assert p.m.Valid() && Solved(p, i) && Below(p, p.rank(i), ReadExprs(p.m, i));
    SearchedIsBelow(p, n, c, i, st);
    SwitchedAgrees(p, n, c, OwnExprs(p.m, i), st);
    CandidateAgrees(p.m, i, p.w.Values(), Switched(p.w.Values(), c));
  }

  lemma SearchedIsBelow(p: Plan, n: nat, c: Symbol, i: Symbol, st: St)
    requires Sound(p, n) && Holds(p, n, st) && Searching(p.m, c, st) && p.m.IsMemberOf(i, c)
    requires p.rank(i) < n && Below(p, p.rank(i), ReadExprs(p.m, i))
    ensures Below(p, n, OwnExprs(p.m, i)) && p.w.At(c) == Cell(S.Raw("n", T.Yes), None) && S.IsTri(c)
  {
    hide Reach, Solved, Shown;
    assert p.m.ChoiceFits(c);
    BelowJoin(p, p.rank(i), [Sym(c)] + OwnExprs(p.m, i), DefaultExprs(p.m.g(i).defaults));
    BelowJoin(p, p.rank(i), [Sym(c)], OwnExprs(p.m, i));
    BelowOne(p, p.rank(i), Sym(c));
    assert ContainsSymbol(Sym(c), c);
    assert p.rank(c) < n;
    assert IsValid(p.m, st, c) && Done(p, st, c);
  }

  lemma {:induction false} CandidateReads(p: Plan, n: nat, c: Symbol, i: Symbol, st: St)
    requires Sound(p, n) && Holds(p, n, st) && Searching(p.m, c, st) && p.m.IsMemberOf(i, c)
    requires Below(p, n, OwnExprs(p.m, i))
    ensures var l, v := CalcVisibility(p.m, i, st), Switched(p.w.Values(), c);
      && l.vis == S.Visible(p.m.g, i, v) && Searching(p.m, c, l.st)
      && Went(p, n, st, l.st, ReachAll(p, n, OwnExprs(p.m, i)))
    decreases n, 5
  {
    hide Sound, Holds, Below, Went, ReachAll, CalcOpt, CalcPrompts, Eval, OptExprs, S.AnyPrompt, AgreeOn, Model.Valid,
         S.Visible, S.Deselected;
    SoundIsValid(p, n);
    var own, inv := p.m.role(i).own, p.m.g(i).revDepInv;
    var v := Switched(p.w.Values(), c);
    BelowJoin(p, n, OptExprs(own), OptExprs(inv));
    ReachJoin(p, n, OptExprs(own), OptExprs(inv));
    MemberVisibility(p.m, i, v);
    MemberPromptCalc(p.m, c, i, st);
    OwnReads(p, n, c, i, st);
    var o := CalcOpt(p.m, own, T.Yes, st);
    var d := CalcOpt(p.m, inv, T.No, o.st);
    var l := CalcVisibility(p.m, i, st);
    MemberInTable(p.m, i);
    if i !in p.frozen && p.rank(i) < n { CandidateIsShown(p, n, c, i, st); }
    WentSeen(p, n, i, l.vis, st, d.st, l.st, ReachAll(p, n, OwnExprs(p.m, i)));
    WentHolds(p, n, st, l.st, ReachAll(p, n, OwnExprs(p.m, i)));
  }

  lemma MemberInTable(m: Model, i: Symbol)
    requires m.Valid() && m.role(i).Member?
    ensures i in m.table
  {
    assert m.MemberFits(i);
  }

  /** A member's own condition and its reverse deselection, while the choice is on. */
  lemma {:induction false} OwnReads(p: Plan, n: nat, c: Symbol, i: Symbol, st: St)
    requires Sound(p, n) && Holds(p, n, st) && Searching(p.m, c, st) && p.m.IsMemberOf(i, c)
    requires Below(p, n, OptExprs(p.m.role(i).own)) && Below(p, n, OptExprs(p.m.g(i).revDepInv))
    ensures var own, inv, v := p.m.role(i).own, p.m.g(i).revDepInv, Switched(p.w.Values(), c);
      var o := CalcOpt(p.m, own, T.Yes, st);
      var d := CalcOpt(p.m, inv, T.No, o.st);
      && o.tri == EvalOpt(own, v) && (d.tri == T.Yes <==> S.Deselected(p.m.g, i, v))
      && Went(p, n, st, d.st, ReachAll(p, n, OptExprs(own)) + ReachAll(p, n, OptExprs(inv)))
    decreases n, 3
  {
    hide Sound, Holds, Below, Went, ReachAll, CalcOpt, Eval, OptExprs, AgreeOn, Model.Valid, Switched;
    SoundIsValid(p, n);
    var own, inv, u, v := p.m.role(i).own, p.m.g(i).revDepInv, p.w.Values(), Switched(p.w.Values(), c);
    SwitchedAgrees(p, n, c, OptExprs(own), st);
    SwitchedAgrees(p, n, c, OptExprs(inv), st);
    OptAgrees(own, u, v);
    OptAgrees(inv, u, v);
    OptReads(p, n, own, T.Yes, st);
    var o := CalcOpt(p.m, own, T.Yes, st);
    WentHolds(p, n, st, o.st, ReachAll(p, n, OptExprs(own)));
    OptReads(p, n, inv, T.No, o.st);
    var d := CalcOpt(p.m, inv, T.No, o.st);
    WentTwice(p, n, st, o.st, d.st, ReachAll(p, n, OptExprs(own)), ReachAll(p, n, OptExprs(inv)));
  }

  /** The prompt of a member reads its choice and then the member's own condition. */
  lemma MemberPromptCalc(m: Model, c: Symbol, i: Symbol, st: St)
    requires m.Valid() && m.IsMemberOf(i, c) && Searching(m, c, st)
    ensures CalcPrompts(m, m.g(i).prompts, st) == CalcOpt(m, m.role(i).own, T.Yes, st)
  {
    assert m.MemberFits(i) && m.ChoiceFits(c);
    var own := m.role(i).own;
    var e := MemberPrompt(c, own);
    var ps := [Some(e)];
    assert ps[..|ps| - 1] == [] && ps[|ps| - 1] == Some(e);
    assert CalcPrompts(m, ps[..|ps| - 1], st) == Got(T.No, st);
    assert CalcSym(m, c, st) == st;
    assert CalcExpr(m, Sym(c), st) == Got(T.Yes, st);
    hide CalcSym, Model.Valid, Model.MemberFits, Model.ChoiceFits;
    if own.Some? {
      var x := CalcExpr(m, own.value, st);
      assert CalcExpr(m, e, st) == Got(T.And(T.Yes, x.tri), x.st);
    }
  }

  lemma {:induction false} TriedMembersRead(p: Plan, n: nat, c: Symbol, members: seq<Symbol>, st: St)
    requires Sound(p, n) && Holds(p, n, st) && Searching(p.m, c, st)
    requires (forall i :: i in members ==> p.m.IsMemberOf(i, c)) && Below(p, n, MembersExprs(p.m, members))
    ensures var r, v := PickMember(p.m, members, st), Switched(p.w.Values(), c);
      && r.member == FirstMember(p.m, members, v)
      && Went(p, n, st, r.st, ReachAll(p, n, TriedMembers(p.m, members, v)))
    decreases n, 6, |members|
  {
    assert p.m.Valid();
    hide Sound, Holds, Below, Went, ReachAll, CalcVisibility, S.Visible, Switched;
    WentNowhere(p, n, st);
    if members != [] {
      var i, v := members[0], Switched(p.w.Values(), c);
      assert i in members;
      BelowJoin(p, n, OwnExprs(p.m, i), MembersExprs(p.m, members[1..]));
      hide OwnExprs;
      CandidateReads(p, n, c, i, st);
      var l := CalcVisibility(p.m, i, st);
      var reached := ReachAll(p, n, OwnExprs(p.m, i));
      WentHolds(p, n, st, l.st, reached);
      if l.vis != T.No {
        assert OwnExprs(p.m, i) + [] == OwnExprs(p.m, i);
      } else {
        TriedMembersRead(p, n, c, members[1..], l.st);
        var rest := TriedMembers(p.m, members[1..], v);
        ReachJoin(p, n, OwnExprs(p.m, i), rest);
        WentTwice(p, n, st, l.st, PickMember(p.m, members, st).st, reached, ReachAll(p, n, rest));
      }
    }
  }

  lemma BelowMember(p: Plan, n: nat, c: Symbol, i: Symbol)
    requires p.m.Valid() && p.m.role(c).Choice? && p.m.IsMemberOf(i, c)
    requires Below(p, n, MembersExprs(p.m, p.m.role(c).members))
    ensures Below(p, n, OwnExprs(p.m, i))
  {
    assert p.m.MemberFits(i);
    var members := p.m.role(c).members;
    var k :| 0 <= k < |members| && members[k] == i;
    forall t: Symbol | t in p.m.table && Names(OwnExprs(p.m, i), t) ensures p.rank(t) < n {
      NamesMember(p.m, members, k, t);
    }
  }

  lemma {:induction false} TriedDefaultsRead(p: Plan, n: nat, c: Symbol, ds: seq<Default>, st: St)
    requires Sound(p, n) && Holds(p, n, st) && Searching(p.m, c, st)
    requires (forall d :: d in ds ==> p.m.IsMemberOf(d.member, c)) && Below(p, n, ConditionExprs(ds))
    requires Below(p, n, MembersExprs(p.m, p.m.role(c).members))
    ensures var r, v := PickDefault(p.m, c, ds, st), Switched(p.w.Values(), c);
      && r.member == (var d := FirstDefault(p.m, ds, v);
                      if d.Some? then d else FirstMember(p.m, p.m.role(c).members, v))
      && Went(p, n, st, r.st, ReachAll(p, n, TriedDefaults(p.m, c, ds, v)))
    decreases n, 7, |ds|
  {
    assert p.m.ChoiceFits(c);
    assert p.m.Valid();
    hide Sound, Holds, Below, Went, ReachAll, CalcVisibility, CalcOpt, S.Visible, Switched, Eval, Model.ChoiceFits;
    if ds == [] {
      TriedMembersRead(p, n, c, p.m.role(c).members, st);
    } else {
      var d, v := ds[0], Switched(p.w.Values(), c);
      assert d in ds && p.m.IsMemberOf(d.member, c);
      BelowJoin(p, n, OptExprs(d.cond), ConditionExprs(ds[1..]));
      ConditionReads(p, n, c, d.cond, st);
      var x := CalcOpt(p.m, d.cond, T.Yes, st);
      var r := PickDefault(p.m, c, ds, st);
      var first := ReachAll(p, n, OptExprs(d.cond));
      hide OptExprs, OwnExprs, PickMember;
      if x.tri == T.No {
        TriedDefaultsRead(p, n, c, ds[1..], x.st);
        var rest := TriedDefaults(p.m, c, ds[1..], v);
        ReachJoin(p, n, OptExprs(d.cond), rest);
        WentTwice(p, n, st, x.st, r.st, first, ReachAll(p, n, rest));
      } else {
        NamedMemberReads(p, n, c, ds, x.st);
        var rest := OwnExprs(p.m, d.member)
                    + if Selectable(p.m, d.member, v) then [] else TriedDefaults(p.m, c, ds[1..], v);
        ReachJoin(p, n, OptExprs(d.cond), rest);
        WentTwice(p, n, st, x.st, r.st, first, ReachAll(p, n, rest));
      }
    }
  }

  lemma {:induction false} ConditionReads(p: Plan, n: nat, c: Symbol, e: Option<Expr>, st: St)
    requires Sound(p, n) && Holds(p, n, st) && Searching(p.m, c, st) && Below(p, n, OptExprs(e))
    ensures var x := CalcOpt(p.m, e, T.Yes, st);
      && x.tri == EvalOpt(e, Switched(p.w.Values(), c)) && Searching(p.m, c, x.st) && Holds(p, n, x.st)
      && Went(p, n, st, x.st, ReachAll(p, n, OptExprs(e)))
    decreases n, 3
  {
    SwitchedAgrees(p, n, c, OptExprs(e), st);
    OptAgrees(e, p.w.Values(), Switched(p.w.Values(), c));
    OptReads(p, n, e, T.Yes, st);
    assert p.m.Valid();
    hide Holds, Sound, ReachAll, CalcOpt, Eval, OptExprs, AgreeOn, Below;
  }

  /** A default whose condition holds: its member, and what follows if that is not visible. */
  lemma {:induction false} NamedMemberReads(p: Plan, n: nat, c: Symbol, ds: seq<Default>, st: St)
    requires Sound(p, n) && Holds(p, n, st) && Searching(p.m, c, st) && ds != []
    requires (forall d :: d in ds ==> p.m.IsMemberOf(d.member, c)) && Below(p, n, ConditionExprs(ds[1..]))
    requires Below(p, n, MembersExprs(p.m, p.m.role(c).members))
    ensures var i, v := ds[0].member, Switched(p.w.Values(), c); var l := CalcVisibility(p.m, i, st);
      var r := if l.vis != T.No then Pick(Some(i), l.st) else PickDefault(p.m, c, ds[1..], l.st);
      && l.vis == S.Visible(p.m.g, i, v)
      && r.member == (if Selectable(p.m, i, v) then Some(i)
                      else var d := FirstDefault(p.m, ds[1..], v);
                           if d.Some? then d else FirstMember(p.m, p.m.role(c).members, v))
      && Went(p, n, st, r.st, ReachAll(p, n, OwnExprs(p.m, i)
              + if Selectable(p.m, i, v) then [] else TriedDefaults(p.m, c, ds[1..], v)))
    decreases n, 7, |ds|, 0
  {
    var i, v := ds[0].member, Switched(p.w.Values(), c);
    assert ds[0] in ds && p.m.IsMemberOf(i, c);
    BelowMember(p, n, c, i);
    assert p.m.Valid();
    hide Sound, Holds, Below, Went, ReachAll, CalcVisibility, S.Visible, Switched, PickDefault, OwnExprs,
         TriedDefaults, FirstDefault, FirstMember;
    CandidateReads(p, n, c, i, st);
    var l := CalcVisibility(p.m, i, st);
    var reached := ReachAll(p, n, OwnExprs(p.m, i));
    WentHolds(p, n, st, l.st, reached);
    if l.vis != T.No {
      assert OwnExprs(p.m, i) + [] == OwnExprs(p.m, i);
    } else {
      TriedDefaultsRead(p, n, c, ds[1..], l.st);
      var rest := TriedDefaults(p.m, c, ds[1..], v);
      ReachJoin(p, n, OwnExprs(p.m, i), rest);
      WentTwice(p, n, st, l.st, PickDefault(p.m, c, ds[1..], l.st).st, reached, ReachAll(p, n, rest));
    }
  }

  /** The search for a member finds the member of the solved world and reaches what is tried. */
  lemma {:induction false} PickReads(p: Plan, n: nat, c: Symbol, st: St)
    requires Sound(p, n) && Holds(p, n, st) && Searching(p.m, c, st) && Below(p, n, LookExprs(p.m, c))
    ensures var r, v := CalcPick(p.m, c, st), Switched(p.w.Values(), c);
      r.member == Picked(p.m, c, v) && Went(p, n, st, r.st, ReachAll(p, n, Tried(p.m, c, v)))
    decreases n, 8
  {
    assert p.m.ChoiceFits(c);
    var v, ds := Switched(p.w.Values(), c), p.m.role(c).defaults;
    BelowJoin(p, n, ConditionExprs(ds), MembersExprs(p.m, p.m.role(c).members));
    hide Holds, Below, Went, ReachAll, CalcVisibility, S.Visible, Switched, PickDefault, OwnExprs,
         TriedDefaults, FirstDefault, FirstMember, Model.ChoiceFits;
    if p.m.userPick(c).None? {
      assert p.m.Valid();
      hide Sound;
      TriedDefaultsRead(p, n, c, ds, st);
    } else {
      var i := p.m.userPick(c).value;
      BelowMember(p, n, c, i);
      assert p.m.Valid();
      hide Sound;
      CandidateReads(p, n, c, i, st);
      var l := CalcVisibility(p.m, i, st);
      var reached := ReachAll(p, n, OwnExprs(p.m, i));
      WentHolds(p, n, st, l.st, reached);
      if l.vis != T.No {
        assert OwnExprs(p.m, i) + [] == OwnExprs(p.m, i);
      } else {
        TriedDefaultsRead(p, n, c, ds, l.st);
        var rest := TriedDefaults(p.m, c, ds, v);
        ReachJoin(p, n, OwnExprs(p.m, i), rest);
        WentTwice(p, n, st, l.st, PickDefault(p.m, c, ds, l.st).st, reached, ReachAll(p, n, rest));
      }
    }
  }

  // ----- one symbol -----

  /** The symbol got its value, nothing else that was valid changed, and what was to be reached is valid. */
  ghost predicate Built(p: Plan, s: Symbol, st: St, r: St, reached: set<Symbol>) {
    && (forall x :: x in st.valid && x != s ==> r.Held(x) == st.Held(x))
    && Holds(p, p.rank(s), r) && r.valid == st.valid + reached && r.Held(s) == p.w.At(s)
  }

  /** Writing the value of a symbol does not matter below it. */
  lemma HoldsPut(p: Plan, s: Symbol, c: Cell, st: St)
    requires Holds(p, p.rank(s), st) && s in p.m.table
    ensures Holds(p, p.rank(s), st.Put(s, c))
  {
    hide Reach;
    var t := st.Put(s, c);
    forall x: Symbol | IsValid(p.m, t, x) && (x !in p.m.table || p.rank(x) < p.rank(s)) ensures Done(p, t, x) {
      assert IsValid(p.m, st, x) && Done(p, st, x);
    }
    forall x: Symbol | x in p.frozen ensures IsValid(p.m, t, x) { assert IsValid(p.m, st, x); }
  }

  lemma MarkHolds(p: Plan, n: nat, s: Symbol, st: St)
    requires Holds(p, n, st) && s in p.m.table && p.rank(s) < n
    ensures Holds(p, p.rank(s), st.Mark(s))
  {
    hide Reach;
    var t := st.Mark(s);
    forall x: Symbol | IsValid(p.m, t, x) && (x !in p.m.table || p.rank(x) < p.rank(s)) ensures Done(p, t, x) {
      assert IsValid(p.m, st, x) && Done(p, st, x);
    }
    forall x: Symbol | x in p.frozen ensures IsValid(p.m, t, x) { assert IsValid(p.m, st, x); }
  }

  lemma PromptParts(p: Plan, n: nat, s: Symbol, v: Valuation)
    requires Below(p, n, PromptExprs(p.m.g(s)))
    ensures Below(p, n, OptExprs(p.m.g(s).revDepInv)) && Below(p, n, VisibilityExprs(p.m, s, v))
  {
    var i := p.m.g(s);
    BelowJoin(p, n, AllExprs(i.prompts) + OptExprs(i.revDep), OptExprs(i.revDepInv));
    BelowJoin(p, n, AllExprs(i.prompts), OptExprs(i.revDep));
    BelowJoin(p, n, AllExprs(i.prompts), OptExprs(i.revDepInv));
    var es := if p.m.role(s).Member? || S.Deselected(p.m.g, s, v) then [] else OptExprs(i.revDep);
    BelowJoin(p, n, AllExprs(i.prompts) + OptExprs(i.revDepInv), es);
    assert Below(p, n, []);
    hide AllExprs, OptExprs, Below, S.Deselected;
  }

  /** The parts of what a symbol reads. */
  lemma ReadParts(p: Plan, n: nat, s: Symbol, v: Valuation)
    requires p.m.Valid() && Below(p, n, ReadExprs(p.m, s))
    ensures Below(p, n, VisibilityExprs(p.m, s, v)) && Below(p, n, OptExprs(p.m.g(s).revDepInv))
    ensures !p.m.role(s).Choice? ==> Below(p, n, DefaultExprs(p.m.g(s).defaults))
    ensures p.m.role(s).Choice? ==> Below(p, n, LookExprs(p.m, s))
    ensures p.m.role(s).Member? ==> Names(VisibilityExprs(p.m, s, v), p.m.role(s).choice)
  {
    if p.m.role(s).Member? {
      MemberReadParts(p, n, s, v);
    } else {
      var i := p.m.g(s);
      BelowJoin(p, n, PromptExprs(i), if p.m.role(s).Choice? then LookExprs(p.m, s) else DefaultExprs(i.defaults));
      hide Below, PromptExprs, LookExprs, DefaultExprs, VisibilityExprs;
      PromptParts(p, n, s, v);
    }
  }

  /** The visibility of a member is evaluated from its choice, its own condition and its deselection. */
  lemma MemberVisibilityNames(m: Model, i: Symbol, v: Valuation, t: Symbol)
    requires m.Valid() && m.role(i).Member?
    ensures Names(VisibilityExprs(m, i, v), t) <==> t == m.role(i).choice || Names(OwnExprs(m, i), t)
  {
    var c, own, inv := m.role(i).choice, m.role(i).own, OptExprs(m.g(i).revDepInv);
    var e := MemberPrompt(c, own);
    assert AllExprs([Some(e)]) == [e] by {
      assert [Some(e)][0] == Some(e) && [Some(e)][1..] == [];
    }
    assert m.MemberFits(i);
    assert VisibilityExprs(m, i, v) == [e] + inv + [] == [e] + inv;
    hide Model.Valid, Model.MemberFits;
    NamesJoin([e], inv, t);
    NamesOne(e, t);
    NamesJoin(OptExprs(own), inv, t);
    NamesOpt(own, t);
    assert ContainsSymbol(e, t) <==> t == c || S.OptContains(own, t);
    hide VisibilityExprs, OptExprs, ContainsSymbol;
  }

  lemma MemberReadParts(p: Plan, n: nat, i: Symbol, v: Valuation)
    requires p.m.Valid() && p.m.role(i).Member? && Below(p, n, ReadExprs(p.m, i))
    ensures Below(p, n, VisibilityExprs(p.m, i, v)) && Below(p, n, OptExprs(p.m.g(i).revDepInv))
    ensures Below(p, n, DefaultExprs(p.m.g(i).defaults))
    ensures Names(VisibilityExprs(p.m, i, v), p.m.role(i).choice)
  {
    var m, c := p.m, p.m.role(i).choice;
    BelowJoin(p, n, [Sym(c)] + OwnExprs(m, i), DefaultExprs(m.g(i).defaults));
    BelowJoin(p, n, [Sym(c)], OwnExprs(m, i));
    BelowJoin(p, n, OptExprs(m.role(i).own), OptExprs(m.g(i).revDepInv));
    NamesOne(Sym(c), c);
    forall t: Symbol ensures Names(VisibilityExprs(m, i, v), t) <==> t == c || Names(OwnExprs(m, i), t) {
      MemberVisibilityNames(m, i, v, t);
    }
    hide VisibilityExprs, OptExprs, OwnExprs, DefaultExprs, Names, Model.Valid;
  }

  /** The visibility and the selection of a symbol are known, and the choice of a member has its value. */
  ghost predicate Seen(p: Plan, s: Symbol, sel: T.Tri, st: St) {
    && Sound(p, p.rank(s)) && Holds(p, p.rank(s), st) && s in st.valid && s in p.m.table
    && p.w.At(s) == Step(p.m, s, p.w) && Below(p, p.rank(s), ReadExprs(p.m, s))
    && (!S.Deselected(p.m.g, s, p.w.Values()) ==> sel == Selection(p.m, s, p.w.Values()))
    && (p.m.role(s).Member? ==> CellOf(p.m, st, p.m.role(s).choice) == p.w.At(p.m.role(s).choice))
  }

  lemma {:induction false} TextBuilt(p: Plan, s: Symbol, sel: T.Tri, st: St)
    requires Seen(p, s, sel, st) && HasValue(s) && !S.IsTri(s)
    ensures var v := p.w.Values();
      Built(p, s, st, Compute(p.m, s, S.Visible(p.m.g, s, v), sel, st), ReachAll(p, p.rank(s), TextExprs(p.m, s, v)))
    decreases p.rank(s), 9
  {
    var k, v := p.rank(s), p.w.Values();
    ReadParts(p, k, s, v);
    assert p.m.Valid();
    assert p.m.role(s).Plain? && Step(p.m, s, p.w) == Cell(S.Raw(S.StepText(p.m.g, p.m.u, s, v), T.No), None) by {
      assert p.m.role(s).Choice? ==> p.m.ChoiceFits(s);
      assert p.m.role(s).Member? ==> p.m.MemberFits(s);
      hide S.StepText;
    }
    hide Sound, Holds, Below, S.Visible, CalcText, S.StepText, ReachAll, ReadExprs, Step, Model.Valid, TextExprs;
    TextReads(p, k, s, st);
    var x := CalcText(p.m, s, S.Visible(p.m.g, s, v), st);
    WentHolds(p, k, st, x.st, ReachAll(p, k, TextExprs(p.m, s, v)));
    HoldsPut(p, s, p.w.At(s), x.st);
  }

  lemma {:induction false} TriBuilt(p: Plan, s: Symbol, sel: T.Tri, st: St)
    requires Seen(p, s, sel, st) && S.IsTri(s)
    requires !(p.m.role(s).Choice? && Base(p.m, s, p.w.Values()) == T.Yes)
    ensures var v := p.w.Values();
      Built(p, s, st, Compute(p.m, s, S.Visible(p.m.g, s, v), sel, st), ReachAll(p, p.rank(s), TriExprs(p.m, s, v)))
    decreases p.rank(s), 9
  {
    var k, v := p.rank(s), p.w.Values();
    ReadParts(p, k, s, v);
    assert p.m.Valid() && s.Config?;
    StepByRole(p.m, s, p.w);
    assert p.m.role(s).Choice? ==> TriOf(p.m, s, p.w) == Base(p.m, s, v);
    hide Sound, Holds, Below, S.Visible, CalcTri, ReachAll, ReadExprs, Step, Model.Valid, TriExprs, TriOf, Base;
    TriReads(p, k, s, sel, st);
    var x := CalcTri(p.m, s, S.Visible(p.m.g, s, v), sel, st);
    WentHolds(p, k, st, x.st, ReachAll(p, k, TriExprs(p.m, s, v)));
    HoldsPut(p, s, p.w.At(s), x.st);
  }

  lemma ChoiceStep(m: Model, c: Symbol, w: World)
    requires m.role(c).Choice? && Base(m, c, w.Values()) == T.Yes
    ensures TriOf(m, c, w) == T.Yes
    ensures var pick := Picked(m, c, Switched(w.Values(), c));
      Step(m, c, w) == Cell(S.Raw("n", if pick.None? then T.No else T.Yes), pick)
  {
    hide Base, Picked;
  }

  lemma {:induction false} ChoiceBuilt(p: Plan, s: Symbol, sel: T.Tri, st: St)
    requires Seen(p, s, sel, st) && S.IsTri(s) && p.m.role(s).Choice? && Base(p.m, s, p.w.Values()) == T.Yes
    ensures var v := p.w.Values();
      Built(p, s, st, Compute(p.m, s, S.Visible(p.m.g, s, v), sel, st),
            ReachAll(p, p.rank(s), TriExprs(p.m, s, v) + Tried(p.m, s, Switched(v, s))))
    decreases p.rank(s), 9, 1
  {
    hide Sound, Holds, Below, S.Visible, CalcTri, CalcPick, ReachAll, ReadExprs, Step, Model.Valid, TriExprs, TriOf,
         Base, Tried, Picked, LookExprs, S.Deselected, Selection;
    var k, v := p.rank(s), p.w.Values();
    SoundIsValid(p, k);
    var x := CalcTri(p.m, s, S.Visible(p.m.g, s, v), sel, st);
    var on := Cell(S.Raw("n", T.Yes), None);
    var t := x.st.Put(s, on);
    ChoiceStep(p.m, s, p.w);
    ReadParts(p, k, s, v);
    ChoiceIsOn(p, s, sel, st);
    PickReads(p, k, s, t);
    var r := CalcPick(p.m, s, t);
    var tried := Tried(p.m, s, Switched(v, s));
    WentHolds(p, k, t, r.st, ReachAll(p, k, tried));
    HoldsPut(p, s, p.w.At(s), r.st);
    ReachJoin(p, k, TriExprs(p.m, s, v), tried);
  }

  lemma {:induction false} ChoiceIsOn(p: Plan, s: Symbol, sel: T.Tri, st: St)
    requires Seen(p, s, sel, st) && S.IsTri(s) && p.m.role(s).Choice? && TriOf(p.m, s, p.w) == T.Yes
    ensures var v, k := p.w.Values(), p.rank(s); var x := CalcTri(p.m, s, S.Visible(p.m.g, s, v), sel, st);
      var t := x.st.Put(s, Cell(S.Raw("n", T.Yes), None));
      && x.tri == T.Yes && Sound(p, k) && Holds(p, k, t) && Searching(p.m, s, t)
      && t.valid == st.valid + ReachAll(p, k, TriExprs(p.m, s, v)) && Grows(st, x.st)
    decreases p.rank(s), 9, 0
  {
    var k, v := p.rank(s), p.w.Values();
    ReadParts(p, k, s, v);
    var x := CalcTri(p.m, s, S.Visible(p.m.g, s, v), sel, st);
    TriReads(p, k, s, sel, st);
    hide Sound, Holds, Below, S.Visible, CalcTri, ReachAll, ReadExprs, Step, Model.Valid, TriExprs, TriOf;
    WentHolds(p, k, st, x.st, ReachAll(p, k, TriExprs(p.m, s, v)));
    HoldsPut(p, s, Cell(S.Raw("n", T.Yes), None), x.st);
  }

  lemma StepByRole(m: Model, s: Symbol, w: World)
    requires S.IsTri(s) && s.Config? && !(m.role(s).Choice? && Base(m, s, w.Values()) == T.Yes)
    ensures Step(m, s, w) == Cell(S.Raw("n", TriOf(m, s, w)), None)
  {
    hide S.StepTri, MemberTri, Base;
  }

  lemma {:induction false} ComputeReads(p: Plan, s: Symbol, sel: T.Tri, st: St)
    requires Seen(p, s, sel, st) && HasValue(s)
    ensures var v := p.w.Values();
      Built(p, s, st, Compute(p.m, s, S.Visible(p.m.g, s, v), sel, st), ReachAll(p, p.rank(s), Completed(p.m, s, v)))
    decreases p.rank(s), 10
  {
    assert p.m.Valid();
    hide Seen, S.Visible, TriExprs, Tried, TextExprs, Built, Compute, Base, ReachAll, Model.Valid;
    var v := p.w.Values();
    if !S.IsTri(s) {
      TextBuilt(p, s, sel, st);
    } else if p.m.role(s).Choice? && Base(p.m, s, v) == T.Yes {
      ChoiceBuilt(p, s, sel, st);
    } else {
      TriBuilt(p, s, sel, st);
      assert TriExprs(p.m, s, v) + [] == TriExprs(p.m, s, v);
    }
  }

  lemma {:induction false} SymBuilt(p: Plan, n: nat, s: Symbol, st: St)
    requires Sound(p, n) && Holds(p, n, st) && s in p.m.table && p.rank(s) < n && s !in st.valid
    ensures Built(p, s, st.Mark(s), CalcSym(p.m, s, st), ReachAll(p, p.rank(s), Evaluated(p.m, s, p.w.Values())))
    ensures HasValue(s) ==> Shown(p, CalcSym(p.m, s, st), s)
    decreases n, 0, 0
  {
    hide Sound, Holds, Below, CalcVisibility, S.Visible, ReachAll, ReadExprs, Compute, Step, VisibilityExprs,
         Completed, Model.Valid, Seen;
    var k, v, t := p.rank(s), p.w.Values(), st.Mark(s);
    MarkHolds(p, n, s, st);
    IsSolved(p, n, s, st);
    if HasValue(s) {
      var l := CalcVisibility(p.m, s, t);
      var seen, u := VisibilityExprs(p.m, s, v), l.st.Put(s, Blank(s));
      VisibilitySeen(p, s, t);
      ComputeReads(p, s, l.sel, u);
      ReachJoin(p, k, seen, Completed(p.m, s, v));
      OwnVisibility(p.m, s, st);
    } else {
      Valueless(p, s, t);
    }
  }

  lemma IsSolved(p: Plan, n: nat, s: Symbol, st: St)
    requires Sound(p, n) && Holds(p, n, st) && s in p.m.table && p.rank(s) < n && s !in st.valid
    ensures p.m.Valid() && Solved(p, s) && Sound(p, p.rank(s))
  {
    hide Done, Model.Valid, Solved;
    assert !IsValid(p.m, st, s);
  }

  lemma Valueless(p: Plan, s: Symbol, t: St)
    requires p.m.Valid() && s in p.m.table && !HasValue(s) && p.w.At(s) == Step(p.m, s, p.w)
    requires Holds(p, p.rank(s), t) && s in t.valid
    ensures Built(p, s, t, t.Put(s, Cell(S.Raw(p.m.g(s).name, T.No), None)),
                  ReachAll(p, p.rank(s), Evaluated(p.m, s, p.w.Values())))
  {
    assert p.m.role(s).Plain? by {
      assert p.m.role(s).Choice? ==> p.m.ChoiceFits(s);
      assert p.m.role(s).Member? ==> p.m.MemberFits(s);
    }
    HoldsPut(p, s, p.w.At(s), t);
    hide Holds, Model.Valid, Reach;
  }

  /** The first half of sym_calc_value. */
  lemma {:induction false} VisibilitySeen(p: Plan, s: Symbol, t: St)
    requires Sound(p, p.rank(s)) && Holds(p, p.rank(s), t) && s in p.m.table && s in t.valid && Solved(p, s)
    ensures var v := p.w.Values(); var l := CalcVisibility(p.m, s, t); var u := l.st.Put(s, Blank(s));
      && l.vis == S.Visible(p.m.g, s, v) && Seen(p, s, l.sel, u)
      && Grows(t, l.st) && l.st.valid == t.valid + ReachAll(p, p.rank(s), VisibilityExprs(p.m, s, v))
    decreases p.rank(s), 5
  {
    assert p.m.Valid();
    var k, v := p.rank(s), p.w.Values();
    ReadParts(p, k, s, v);
    var l := CalcVisibility(p.m, s, t);
    VisibilityReads(p, k, s, t);
    hide Sound, Holds, CalcVisibility, S.Visible, ReachAll, ReadExprs, Step, VisibilityExprs, Model.Valid;
    var seen := VisibilityExprs(p.m, s, v);
    WentHolds(p, k, t, l.st, ReachAll(p, k, seen));
    if p.m.role(s).Member? {
      assert Names(ReadExprs(p.m, s), p.m.role(s).choice) by { ReadsItsChoice(p.m, s); }
      NamedIsDone(p, k, seen, p.m.role(s).choice, t, l.st);
      OtherRole(p.m, s);
    }
    hide Below;
    HoldsPut(p, s, Blank(s), l.st);
  }

  lemma OtherRole(m: Model, i: Symbol)
    requires m.Valid() && m.role(i).Member?
    ensures m.role(i).choice != i
  {
    assert m.MemberFits(i);
  }

  /** What an evaluation has named is valid and has its value. */
  lemma NamedIsDone(p: Plan, n: nat, es: seq<Expr>, x: Symbol, s: St, t: St)
    requires Sound(p, n) && Went(p, n, s, t, ReachAll(p, n, es)) && Holds(p, n, s)
    requires Names(es, x) && (x in p.m.table ==> p.rank(x) < n)
    ensures IsValid(p.m, t, x) && CellOf(p.m, t, x) == p.w.At(x)
  {
    if x !in p.frozen { ReachAllNamed(p, n, es, x); }
    hide Reach, ReachAll, Solved;
    assert IsValid(p.m, t, x);
    assert Done(p, t, x);
  }

  lemma {:induction false} SymReads(p: Plan, n: nat, s: Symbol, st: St)
    requires Sound(p, n) && Holds(p, n, st) && (s in p.m.table ==> p.rank(s) < n)
    ensures var r := CalcSym(p.m, s, st); Went(p, n, st, r, ReachSym(p, n, s)) && CellOf(p.m, r, s) == p.w.At(s)
    decreases n, 0
  {
    if IsValid(p.m, st, s) {
      ValidIsRead(p, n, s, st);
      hide ReachSym, Went;
    } else {
      assert p.m.Valid();
      hide Sound, Holds, Went, CalcSym;
      SymBuilt(p, n, s, st);
      BuiltIsDone(p, n, s, st, CalcSym(p.m, s, st));
    }
  }

  lemma BuiltIsDone(p: Plan, n: nat, s: Symbol, st: St, r: St)
    requires Sound(p, n) && Holds(p, n, st) && s in p.m.table && p.rank(s) < n && s !in st.valid
    requires Built(p, s, st.Mark(s), r, ReachAll(p, p.rank(s), Evaluated(p.m, s, p.w.Values())))
    requires Grows(st, r) && Calm(p.m, st, r) && (HasValue(s) ==> Shown(p, r, s))
    ensures Went(p, n, st, r, ReachSym(p, n, s)) && CellOf(p.m, r, s) == p.w.At(s)
  {
    hide Evaluated, ReachAll, Sound, S.Visible;
    var k, es := p.rank(s), Evaluated(p.m, s, p.w.Values());
    ReachIsBelow(p, k, es);
    assert s !in p.frozen by { hide Done, Reach; assert !IsValid(p.m, st, s); }
    var reached := ReachAll(p, k, es);
    assert Reach(p, s) == {s} + reached;
    forall x: Symbol | IsValid(p.m, r, x) && (x !in p.m.table || p.rank(x) < n) ensures Done(p, r, x) {
      hide Reach;
      if x != s && x in p.m.table && p.rank(x) >= k {
        assert x in st.valid && Done(p, st, x);
        assert Shown(p, st, x) ==> Shown(p, r, x);
      } else if x != s {
        assert Done(p, r, x);
      }
    }
    forall x: Symbol | x in p.frozen ensures IsValid(p.m, r, x) {
      hide Reach;
      assert IsValid(p.m, st, x);
    }
    hide Reach;
  }

  // ----- evaluating again -----

  /** Looking again at what is valid reads what is there. */
  lemma RereadVisibility(m: Model, s: Symbol, st: St)
    requires m.Valid()
    requires forall t: Symbol :: Names(VisibilityExprs(m, s, Now(m, st).Values()), t) ==> IsValid(m, st, t)
    ensures CalcVisibility(m, s, st).vis == S.Visible(m.g, s, Now(m, st).Values())
  {
    var p := Plan(m, (x: Symbol) => if IsValid(m, st, x) then 0 else 1, ValidNow(m, st), Now(m, st));
    assert Sound(p, 1) by { hide Solved; }
    assert Holds(p, 1, st);
    assert Below(p, 1, VisibilityExprs(m, s, p.w.Values()));
    VisibilityReads(p, 1, s, st);
    hide Holds, Sound, Below, CalcVisibility, VisibilityExprs, Went, ReachAll;
  }

  // ----- a choice alone -----

  /** What an evaluation on behalf of s leaves, apart from the cell of s itself. */
  ghost predicate Passed(p: Plan, s: Symbol, st: St, t: St) {
    && Holds(p, p.rank(s), t) && st.valid <= t.valid
    && (forall x :: x in st.valid && x != s ==> t.Held(x) == st.Held(x))
    && (forall x :: x in t.valid && x !in st.valid ==> p.rank(x) < p.rank(s))
  }

  lemma WentPassed(p: Plan, s: Symbol, a: St, b: St, t: St, es: seq<Expr>)
    requires Passed(p, s, a, b) && Went(p, p.rank(s), b, t, ReachAll(p, p.rank(s), es))
    ensures Passed(p, s, a, t)
  {
    ReachIsBelow(p, p.rank(s), es);
    hide Holds, ReachAll;
  }

  lemma PutPassed(p: Plan, s: Symbol, a: St, t: St, c: Cell)
    requires Passed(p, s, a, t) && s in p.m.table
    ensures Passed(p, s, a, t.Put(s, c))
  {
    HoldsPut(p, s, c, t);
    hide Holds;
  }

  /** Visibility and tristate of a symbol that need not be solved itself: a choice before it looks for a member,
      or a member that was asked before its choice. */
  lemma TriPasses(p: Plan, s: Symbol, st: St)
    requires Sound(p, p.rank(s)) && Holds(p, p.rank(s), st) && s in p.m.table
    requires Below(p, p.rank(s), VisibilityExprs(p.m, s, p.w.Values()))
    requires Below(p, p.rank(s), OptExprs(p.m.g(s).revDepInv))
    requires !p.m.role(s).Choice? ==> Below(p, p.rank(s), DefaultExprs(p.m.g(s).defaults))
    requires p.m.role(s).Member? ==>
      var c := p.m.role(s).choice; c in st.valid && CellOf(p.m, st, c) == p.w.At(c) && c != s && c in p.m.table
    ensures var l := CalcVisibility(p.m, s, st); var x := CalcTri(p.m, s, l.vis, l.sel, l.st.Put(s, Blank(s)));
      && l.vis == S.Visible(p.m.g, s, p.w.Values())
      && x.tri == TriOf(p.m, s, p.w) && Passed(p, s, st, x.st) && Passed(p, s, st, l.st)
  {
    assert p.m.Valid();
    var k, v := p.rank(s), p.w.Values();
    assert Passed(p, s, st, st) by { hide Holds; }
    hide Holds, Sound, Below, ReachAll, CalcVisibility, CalcTri, S.Visible, VisibilityExprs, TriExprs, S.Selected,
         S.Deselected, TriOf, Passed, Model.Valid, Went, DefaultExprs, OptExprs;
    VisibilityReads(p, k, s, st);
    var l := CalcVisibility(p.m, s, st);
    WentPassed(p, s, st, st, l.st, VisibilityExprs(p.m, s, v));
    PutPassed(p, s, st, l.st, Blank(s));
    var u := l.st.Put(s, Blank(s));
    PassedHolds(p, s, st, u);
    TriReads(p, k, s, l.sel, u);
    WentPassed(p, s, st, u, CalcTri(p.m, s, l.vis, l.sel, u).st, TriExprs(p.m, s, v));
  }

  lemma PassedHolds(p: Plan, s: Symbol, a: St, t: St)
    requires Passed(p, s, a, t)
    ensures Holds(p, p.rank(s), t) && a.valid <= t.valid
    ensures forall x :: x in a.valid && x != s ==> t.Held(x) == a.Held(x)
  {
    hide Holds;
  }
}
