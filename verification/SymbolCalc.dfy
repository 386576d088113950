/** sym_calc_value and its helpers: a cache over the symbol graph, filled on demand. */
module SymbolCalc {
  import T = Tristate
  import opened Options
  import opened Expr
  import opened ExprCompare
  import opened SymbolSpec

  /** What the definition says about one symbol. */
  datatype Facts = Facts(raw: Raw, deselected: bool, visible: T.Tri, selected: T.Tri, saved: bool)

  function FactsOf(g: Graph, u: Settings, s: Symbol, v: Valuation): Facts {
    Facts(Step(g, u, s, v), Deselected(g, s, v), Visible(g, s, v), Selected(g, s, v), Writes(g, u, s, v))
  }

  /** Marks the symbol a step is about, so that the definition is unfolded for no other. */
  predicate About(s: Symbol) {
    true
  }

  class Evaluator {
    const g: Graph
    ghost const rank: Symbol -> nat

    var settings: Settings
    var valid: set<Symbol>            // SYMBOL_VALID
    var saved: set<Symbol>            // SYMBOL_WRITE
    var curr: map<Symbol, Raw>
    var visible: map<Symbol, T.Tri>
    var selected: map<Symbol, T.Tri>  // rev_dep.tri
    ghost var v: Valuation            // the values the plain recursive definition gives
    ghost var facts: Symbol -> Facts  // and the rest it says

    constructor (graph: Graph, start: Settings, ghost order: Symbol -> nat)
      requires Ranked(graph, order)
      ensures g == graph && rank == order && settings == start && valid == {} && Linked() && Inv({})
    {
      g, rank, settings := graph, order, start;
      valid, saved, curr, visible, selected := {}, {}, map[], map[], map[];
      v := Values(graph, start, order);
      var u := Values(graph, start, order);
      facts := (s: Symbol) => FactsOf(graph, start, s, u);
      ValuesAreSolution(graph, start, order);
    }

    predicate IsValid(s: Symbol)
      reads this
    {
      s.IsLiteral() || s in valid
    }

    function CurrOf(s: Symbol): Raw
      reads this
    {
      match s
      case ConstYes => Raw("y", T.Yes)
      case ConstMod => Raw("m", T.Mod)
      case ConstNo => Raw("n", T.No)
      case _ => if s in curr then curr[s] else Raw("", T.No)
    }

    function VisibleOf(s: Symbol): T.Tri
      reads this
    {
      if s in visible then visible[s] else T.No
    }

    function SelectedOf(s: Symbol): T.Tri
      reads this
    {
      if s in selected then selected[s] else T.No
    }

    function StringOf(s: Symbol): string
      reads this
    {
      View(s, CurrOf(s)).text
    }

    predicate HasValue(s: Symbol) {
      s.Type() !in {Unknown, Other}
    }

    ghost predicate VisibilitySettled(s: Symbol)
      reads this
    {
      && VisibleOf(s) == facts(s).visible
      && (!facts(s).deselected ==> SelectedOf(s) == facts(s).selected)
    }

    /** Everything cached for the symbol is what the definition says. */
    ghost predicate Settled(s: Symbol)
      reads this
    {
      && CurrOf(s) == facts(s).raw
      && (HasValue(s) ==> VisibilitySettled(s) && (s in saved <==> facts(s).saved))
    }

    /** The ghost fields are the definition's. */
    ghost predicate Linked()
      reads this`settings, this`v, this`facts
    {
      && Ranked(g, rank)
      && v == Values(g, settings, rank)
      && (forall s: Symbol {:trigger About(s)} :: About(s) ==>
            facts(s) == FactsOf(g, settings, s, v) && v(s) == View(s, facts(s).raw))
    }

    /** Valid symbols are settled, but for those whose computation is under way. */
    ghost predicate Inv(busy: set<Symbol>)
      reads this
    {
      && busy <= valid
      && forall s: Symbol :: s in valid && s !in busy ==> Settled(s)
    }

    /** The symbols under way all lie above the given rank. */
    ghost predicate Above(busy: set<Symbol>, n: nat) {
      forall b: Symbol :: b in busy ==> n <= rank(b)
    }

    twostate predicate Kept(s: Symbol)
      reads this
    {
      && CurrOf(s) == old(CurrOf(s))
      && VisibleOf(s) == old(VisibleOf(s))
      && SelectedOf(s) == old(SelectedOf(s))
      && (s in saved <==> old(s in saved))
    }

    /** The cache only grows: what was valid stays so, with the same contents. */
    twostate predicate Grew(but: set<Symbol>)
      reads this
    {
      && settings == old(settings) && v == old(v) && facts == old(facts)
      && old(valid) <= valid
      && forall s: Symbol :: s in old(valid) && s !in but ==> Kept(s)
    }

    method SetVisible(s: Symbol, t: T.Tri, ghost busy: set<Symbol>)
      requires Inv(busy) && s in busy
      modifies this`visible
      ensures Inv(busy) && Grew({s})
      ensures VisibleOf(s) == t && SelectedOf(s) == old(SelectedOf(s)) && CurrOf(s) == old(CurrOf(s))
    {
      visible := visible[s := t];
    }

    method SetSelected(s: Symbol, t: T.Tri, ghost busy: set<Symbol>)
      requires Inv(busy) && s in busy
      modifies this`selected
      ensures Inv(busy) && Grew({s})
      ensures SelectedOf(s) == t && VisibleOf(s) == old(VisibleOf(s)) && CurrOf(s) == old(CurrOf(s))
    {
      selected := selected[s := t];
    }

    method SetSaved(s: Symbol, b: bool, ghost busy: set<Symbol>)
      requires Inv(busy) && s in busy
      modifies this`saved
      ensures Inv(busy) && Grew({s})
      ensures (s in saved <==> b) && VisibleOf(s) == old(VisibleOf(s))
      ensures SelectedOf(s) == old(SelectedOf(s)) && CurrOf(s) == old(CurrOf(s))
    {
      saved := if b then saved + {s} else saved - {s};
    }

    method SetCurr(s: Symbol, r: Raw, ghost busy: set<Symbol>)
      requires Inv(busy) && s in busy && !s.IsLiteral()
      modifies this`curr
      ensures Inv(busy) && Grew({s})
      ensures CurrOf(s) == r && VisibleOf(s) == old(VisibleOf(s)) && SelectedOf(s) == old(SelectedOf(s))
    {
      curr := curr[s := r];
    }

    /** expr_calc_value */
    method CalcExpr(e: Expr, ghost busy: set<Symbol>, ghost bound: nat) returns (t: T.Tri)
      requires Linked() && Inv(busy) && Above(busy, bound)
      requires forall s: Symbol :: ContainsSymbol(e, s) ==> rank(s) < bound
      modifies this
      ensures Linked() && Inv(busy) && Grew({})
      ensures t == Eval(e, v)
      decreases bound, 1, e
    {
      match e {
        case Sym(s) =>
          assert ContainsSymbol(e, s);
          var x := CalcSymbol(s, busy);
          t := x.tri;
        case Not(a) =>
          assert forall s: Symbol :: ContainsSymbol(a, s) ==> ContainsSymbol(e, s);
          var x := CalcExpr(a, busy, bound);
          t := T.Not(x);
        case And(l, r) =>
          assert forall s: Symbol :: ContainsSymbol(l, s) || ContainsSymbol(r, s) ==> ContainsSymbol(e, s);
          var x := CalcExpr(l, busy, bound);
          var y := CalcExpr(r, busy, bound);
          t := T.And(x, y);
        case Or(l, r) =>
          assert forall s: Symbol :: ContainsSymbol(l, s) || ContainsSymbol(r, s) ==> ContainsSymbol(e, s);
          var x := CalcExpr(l, busy, bound);
          var y := CalcExpr(r, busy, bound);
          t := T.Or(x, y);
        case Equal(a, b) =>
          assert ContainsSymbol(e, a) && ContainsSymbol(e, b);
          var x := CalcSymbol(a, busy);
          var y := CalcSymbol(b, busy);
          t := T.FromBool(x.text == y.text);
        case Unequal(a, b) =>
          assert ContainsSymbol(e, a) && ContainsSymbol(e, b);
          var x := CalcSymbol(a, busy);
          var y := CalcSymbol(b, busy);
          t := T.FromBool(x.text != y.text);
      }
    }

    /** sym_calc_value, then the tristate and the string of the symbol. */
    method CalcSymbol(s: Symbol, ghost busy: set<Symbol>) returns (x: Value)
      requires Linked() && Inv(busy) && Above(busy, rank(s) + 1)
      modifies this
      ensures Linked() && Inv(busy) && Grew({})
      ensures x == v(s) && IsValid(s)
      decreases rank(s), 7
    {
      assert About(s);
      CalcValue(s, busy);
      x := Value(CurrOf(s).tri, StringOf(s));
    }

    method CalcOpt(e: Option<Expr>, ghost busy: set<Symbol>, ghost bound: nat) returns (t: T.Tri)
      requires Linked() && Inv(busy) && Above(busy, bound)
      requires forall s: Symbol :: OptContains(e, s) ==> rank(s) < bound
      modifies this
      ensures Linked() && Inv(busy) && Grew({})
      ensures t == EvalOpt(e, v)
      decreases bound, 2
    {
      t := T.Yes;
      if e.Some? {
        assert forall s: Symbol :: ContainsSymbol(e.value, s) ==> OptContains(e, s);
        t := CalcExpr(e.value, busy, bound);
      }
    }

    /** Is any prompt visible? */
    method CalcPrompts(s: Symbol, ghost busy: set<Symbol>) returns (tri: T.Tri)
      requires Linked() && Inv(busy) && Above(busy, rank(s))
      modifies this
      ensures Linked() && Inv(busy) && Grew({})
      ensures tri == AnyPrompt(g(s).prompts, v)
      decreases rank(s), 3
    {
      hide Values, FactsOf;
      var prompts := g(s).prompts;
      tri := T.No;
      var i := 0;
      while i < |prompts|
        invariant i <= |prompts|
        invariant Linked() && Inv(busy) && Grew({})
        invariant tri == AnyPrompt(prompts[..i], v)
      {
        assert forall t: Symbol :: OptContains(prompts[i], t) ==> DependsOn(g(s), t);
        var p := CalcOpt(prompts[i], busy, rank(s));
        tri := T.Or(tri, p);
        assert prompts[..i + 1][..i] == prompts[..i];
        i := i + 1;
      }
      assert prompts[..i] == prompts;
    }

    method CalcDeselected(s: Symbol, ghost busy: set<Symbol>) returns (d: bool)
      requires Linked() && Inv(busy) && Above(busy, rank(s))
      modifies this
      ensures Linked() && Inv(busy) && Grew({})
      ensures d == Deselected(g, s, v)
      decreases rank(s), 3
    {
      d := false;
      if g(s).revDepInv.Some? {
        assert forall t: Symbol :: OptContains(g(s).revDepInv, t) ==> DependsOn(g(s), t);
        var t := CalcOpt(g(s).revDepInv, busy, rank(s));
        d := t == T.Yes;
      }
    }

    method CalcSelected(s: Symbol, ghost busy: set<Symbol>) returns (tri: T.Tri)
      requires Linked() && Inv(busy) && Above(busy, rank(s))
      modifies this
      ensures Linked() && Inv(busy) && Grew({})
      ensures tri == Selected(g, s, v)
      decreases rank(s), 3
    {
      tri := T.No;
      if g(s).revDep.Some? {
        assert forall t: Symbol :: OptContains(g(s).revDep, t) ==> DependsOn(g(s), t);
        tri := CalcOpt(g(s).revDep, busy, rank(s));
      }
      if tri == T.Mod && s.Type() == Boolean {
        tri := T.Yes;
      }
    }

    /** The first half of sym_calc_visibility. */
    method CalcVisible(s: Symbol, ghost busy: set<Symbol>) returns (deselected: bool)
      requires Linked() && Inv(busy) && s in busy && Above(busy, rank(s))
      modifies this
      ensures Linked() && Inv(busy) && Grew({s})
      ensures CurrOf(s) == old(CurrOf(s)) && (s in saved <==> old(s in saved))
      ensures VisibleOf(s) == facts(s).visible && deselected == facts(s).deselected
      decreases rank(s), 4, 0
    {
      assert About(s);
      var tri := CalcPrompts(s, busy);
      deselected := CalcDeselected(s, busy);
      if deselected {
        tri := T.No;
      } else if tri == T.Mod && s.Type() != Tristate {
        tri := T.Yes;
      }
      assert About(s);
      SetVisible(s, tri, busy);
    }

    /** sym_calc_visibility */
    method CalcVisibility(s: Symbol, ghost busy: set<Symbol>)
      requires Linked() && Inv(busy) && s in busy && Above(busy, rank(s))
      modifies this
      ensures Linked() && Inv(busy) && Grew({s})
      ensures CurrOf(s) == old(CurrOf(s)) && (s in saved <==> old(s in saved))
      ensures VisibilitySettled(s)
      decreases rank(s), 4, 1
    {
      var deselected := CalcVisible(s, busy);
      if !deselected {
        label visibleSet:
        assert About(s);
        var sel := CalcSelected(s, busy);
        assert Kept@visibleSet(s);
        SetSelected(s, sel, busy);
      }
    }

    /** sym_get_default_prop */
    method DefaultProp(s: Symbol, ghost busy: set<Symbol>) returns (p: Option<Default>)
      requires Linked() && Inv(busy) && Above(busy, rank(s))
      modifies this
      ensures Linked() && Inv(busy) && Grew({})
      ensures p == FirstDefault(g(s).defaults, v)
      ensures p.Some? ==> forall t: Symbol :: ContainsSymbol(p.value.value, t) ==> rank(t) < rank(s)
      decreases rank(s), 3
    {
      var defaults := g(s).defaults;
      var i := 0;
      while i < |defaults|
        invariant i <= |defaults|
        invariant Linked() && Inv(busy) && Grew({})
        invariant FirstDefault(defaults, v) == FirstDefault(defaults[i..], v)
      {
        assert forall t: Symbol :: OptContains(defaults[i].cond, t) ==> DependsOn(g(s), t);
        var c := CalcOpt(defaults[i].cond, busy, rank(s));
        assert defaults[i..][0] == defaults[i] && defaults[i..][1..] == defaults[i + 1..];
        if c != T.No {
          assert forall t: Symbol :: ContainsSymbol(defaults[i].value, t) ==> DependsOn(g(s), t);
          return Some(defaults[i]);
        }
        i := i + 1;
      }
      p := None;
    }

    method CalcDefaultTri(s: Symbol, ghost busy: set<Symbol>) returns (found: bool, t: T.Tri)
      requires Linked() && Inv(busy) && Above(busy, rank(s))
      modifies this
      ensures Linked() && Inv(busy) && Grew({})
      ensures found == FirstDefault(g(s).defaults, v).Some? && t == DefaultTri(g, s, v)
      decreases rank(s), 4
    {
      var p := DefaultProp(s, busy);
      found, t := p.Some?, T.No;
      if found {
        t := CalcExpr(p.value.value, busy, rank(s));
      }
    }

    /** The bool and tristate case of sym_calc_value, after the visibility. */
    method CalcTri(s: Symbol, ghost busy: set<Symbol>) returns (t: T.Tri)
      requires Linked() && Inv(busy) && s in busy && Above(busy, rank(s))
      requires IsTri(s) && VisibilitySettled(s) && s !in saved
      modifies this
      ensures Linked() && Inv(busy) && Grew({s}) && VisibilitySettled(s)
      ensures t == StepTri(g, settings, s, v) && (s in saved <==> facts(s).saved)
      decreases rank(s), 5, 1
    {
      hide Ranked, Values, Visible, Selected, FirstDefault, AnyPrompt;
      assert About(s);
      var deselected := CalcDeselected(s, busy);
      if deselected {
        return T.No;
      }
      var found := false;
      if T.Or(VisibleOf(s), SelectedOf(s)) != T.No {
        SetSaved(s, true, busy);
        label savedSet:
        if !settings(s).isNew {
          t := settings(s).tri;
        } else {
          found, t := CalcDefaultTri(s, busy);
          assert Kept@savedSet(s);
        }
        t := T.Or(T.And(t, VisibleOf(s)), SelectedOf(s));
      } else {
        label before:
        found, t := CalcDefaultTri(s, busy);
        assert Kept@before(s);
        if found {
          SetSaved(s, true, busy);
        }
      }
      t := Settle(s, t);
    }

    /** The string, int and hex case of sym_calc_value. */
    method CalcText(s: Symbol, ghost busy: set<Symbol>) returns (t: string)
      requires Linked() && Inv(busy) && s in busy && Above(busy, rank(s))
      requires s.Type() in {String, Int, Hex} && VisibilitySettled(s) && s !in saved
      modifies this
      ensures Linked() && Inv(busy) && Grew({s}) && VisibilitySettled(s)
      ensures t == StepText(g, settings, s, v) && (s in saved <==> facts(s).saved)
      decreases rank(s), 5, 1
    {
      hide Ranked, Values, Visible, Selected, FirstDefault, AnyPrompt;
      assert About(s);
      if VisibleOf(s) != T.No {
        SetSaved(s, true, busy);
      }
      if VisibleOf(s) != T.No && !settings(s).isNew {
        t := settings(s).text;
      } else {
        label before:
        var p, d := CalcDefaultText(s, busy);
        assert Kept@before(s);
        t := d;
        if p {
          SetSaved(s, true, busy);
        }
      }
      assert About(s);
    }

    method CalcDefaultText(s: Symbol, ghost busy: set<Symbol>) returns (found: bool, t: string)
      requires Linked() && Inv(busy) && Above(busy, rank(s))
      modifies this
      ensures Linked() && Inv(busy) && Grew({})
      ensures var p := FirstDefault(g(s).defaults, v);
        && found == (p.Some? && p.value.value.Sym?)
        && t == (if found then RawText(p.value.value.sym, v(p.value.value.sym)) else "")
      decreases rank(s), 5, 0
    {
      hide Ranked, Values, Visible, Selected, Deselected, Writes, FirstDefault, AnyPrompt, StepTri, StepText;
      found, t := false, "";
      var p := DefaultProp(s, busy);
      if p.Some? && p.value.value.Sym? {
        var ds := p.value.value.sym;
        assert ContainsSymbol(p.value.value, ds);
        CalcValue(ds, busy);
        assert About(ds);
        found, t := true, CurrOf(ds).val;
      }
    }

    /** sym_calc_value: after it the symbol is valid and has the value of the definition. */
    method CalcValue(s: Symbol, ghost busy: set<Symbol>)
      requires Linked() && Inv(busy) && Above(busy, rank(s) + 1)
      modifies this
      ensures Linked() && Inv(busy) && Grew({})
      ensures IsValid(s) && CurrOf(s) == facts(s).raw
      decreases rank(s), 6, 1
    {
      assert About(s);
      if !IsValid(s) {
        CalcInvalid(s, busy);
      }
    }

    method CalcInvalid(s: Symbol, ghost busy: set<Symbol>)
      requires Linked() && Inv(busy) && Above(busy, rank(s) + 1) && !IsValid(s)
      modifies this
      ensures Linked() && Inv(busy) && Grew({})
      ensures s in valid && CurrOf(s) == facts(s).raw
      decreases rank(s), 6, 0
    {
      hide Ranked, Values, Visible, Selected, Deselected, Writes, FirstDefault, AnyPrompt, StepTri, StepText;
      ghost var inside := busy + {s};
      valid := valid + {s};
      if HasValue(s) {
        CalcContents(s, inside);
      } else {
        assert About(s);
        SetCurr(s, Raw(if s.Quoted? then s.text else g(s).name, T.No), inside);
      }
    }

    lemma StepOfKind(s: Symbol, u: Settings, w: Valuation)
      requires HasValue(s)
      ensures IsTri(s) || s.Type() in {String, Int, Hex}
      ensures Step(g, u, s, w) == if IsTri(s) then Raw("n", StepTri(g, u, s, w)) else Raw(StepText(g, u, s, w), T.No)
    {
      hide StepTri, StepText;
      match s.Type()
      case Boolean => assert IsTri(s);
      case Tristate => assert IsTri(s);
      case String => assert s.Type() in {String, Int, Hex};
      case Int => assert s.Type() in {String, Int, Hex};
      case Hex => assert s.Type() in {String, Int, Hex};
      case Unknown => assert false;
      case Other => assert false;
    }

    /** The switch over the type. */
    method CalcRaw(s: Symbol, ghost inside: set<Symbol>) returns (r: Raw)
      requires Linked() && Inv(inside) && s in inside && Above(inside, rank(s)) && HasValue(s)
      requires VisibilitySettled(s) && s !in saved
      modifies this
      ensures Linked() && Inv(inside) && Grew({s}) && VisibilitySettled(s)
      ensures r == Step(g, settings, s, v) && (s in saved <==> facts(s).saved)
      decreases rank(s), 5, 2
    {
      hide Ranked, Values, Visible, Selected, Deselected, Writes, FirstDefault, AnyPrompt, StepTri, StepText;
      StepOfKind(s, settings, v);
      hide Step;
      if IsTri(s) {
        var t := CalcTri(s, inside);
        r := Raw("n", t);
      } else {
        var t := CalcText(s, inside);
        r := Raw(t, T.No);
      }
    }

    method CalcContents(s: Symbol, ghost inside: set<Symbol>)
      requires Linked() && Inv(inside) && s in inside && Above(inside, rank(s)) && HasValue(s)
      modifies this
      ensures Linked() && Inv(inside) && Grew({s}) && Settled(s)
      decreases rank(s), 5, 3
    {
      hide Ranked, Values, Visible, Selected, Deselected, Writes, FirstDefault, AnyPrompt, StepTri, StepText, Step;
      SetSaved(s, false, inside);
      CalcVisibility(s, inside);
      // the value set first is what a cyclic request would see
      SetCurr(s, Raw(if IsTri(s) then "n" else "", T.No), inside);
      var r := CalcRaw(s, inside);
      assert About(s);
      SetCurr(s, r, inside);
    }

    /** Brings the ghost fields in line with settings that changed. */
    ghost method Relink()
      requires Ranked(g, rank)
      modifies this`v, this`facts
      ensures Linked() && v == Values(g, settings, rank)
    {
      var u := settings;
      v := Values(g, u, rank);
      var w := v;
      facts := (s: Symbol) => FactsOf(g, u, s, w);
      forall s: Symbol ensures About(s) ==> v(s) == View(s, facts(s).raw) {
        CalcIsStep(g, u, rank, s);
      }
    }

    /** sym_clear_all_valid: every cached value has to be computed anew. */
    method ClearAllValid()
      requires Ranked(g, rank)
      modifies this`valid, this`v, this`facts
      ensures valid == {} && Linked() && Inv({})
    {
      valid := {};
      Relink();
    }

    /** Whatever was asked before, a query answers the value of the definition. */
    method Query(s: Symbol) returns (x: Value)
      requires Linked() && Inv({})
      modifies this
      ensures Linked() && Inv({}) && settings == old(settings) && IsValid(s)
      ensures x == Values(g, settings, rank)(s)
    {
      x := CalcSymbol(s, {});
    }

    /** May the user give the symbol this value? Says what the definition says. */
    ghost predicate InRange(s: Symbol, val: T.Tri)
      requires Ranked(g, rank)
      reads this`settings
    {
      var x := Values(g, settings, rank);
      WithinRange(s, Visible(g, s, x), Selected(g, s, x), val)
    }

    /** sym_tristate_within_range, from what is cached. */
    method CheckRange(s: Symbol, val: T.Tri) returns (ok: bool)
      requires Linked() && Inv({}) && s in valid && IsTri(s)
      ensures ok == InRange(s, val)
    {
      assert About(s);
      ok := WithinRange(s, VisibleOf(s), SelectedOf(s), val);
    }

    /** sym_set_tristate_value, outside choices: the cache stays right for the new settings, and
        what was accepted is what the symbol then has. */
    method SetTristate(s: Symbol, val: T.Tri) returns (ok: bool)
      requires Linked() && Inv({}) && s in valid && IsTri(s)
      modifies this
      ensures Linked() && Inv({})
      ensures ok == (old(Values(g, settings, rank)(s).tri) == val || old(InRange(s, val)))
      ensures settings == if ok then WithSetting(old(settings), s, val) else old(settings)
      ensures ok ==> Values(g, settings, rank)(s).tri == val
    {
      assert About(s);
      var oldval := CurrOf(s).tri;
      ok := oldval == val;
      if ok {
        Confirm(s);
      } else {
        ok := CheckRange(s, val);
        if ok {
          Change(s, val);
        }
      }
    }

    method Change(s: Symbol, val: T.Tri)
      requires Linked() && InRange(s, val)
      modifies this
      ensures Linked() && Inv({}) && settings == WithSetting(old(settings), s, val)
      ensures Values(g, settings, rank)(s).tri == val
    {
      SettingInRangeTakesEffect(g, settings, rank, s, val);
      settings := WithSetting(settings, s, val);
      ClearAllValid();
    }

    method Confirm(s: Symbol)
      requires Linked() && Inv({}) && IsTri(s) && CurrOf(s).tri == v(s).tri
      modifies this
      ensures Linked() && Inv({}) && settings == WithSetting(old(settings), s, old(CurrOf(s).tri))
      ensures Values(g, settings, rank)(s).tri == old(CurrOf(s).tri)
    {
      hide Ranked, Values, Step, Visible, Selected, Deselected, Writes;
      ghost var was, u := v, settings;
      ConfirmedValue(g, u, rank, s);
      settings := WithSetting(settings, s, CurrOf(s).tri);
      forall x: Symbol ensures FactsOf(g, settings, x, Values(g, settings, rank)) == FactsOf(g, u, x, was) {
        ConfirmingKeepsFacts(g, u, rank, s, x);
      }
      Recheck(u, was);
    }

    /** The facts are the same under settings that confirm what is. */
    ghost method Recheck(u: Settings, was: Valuation)
      requires Ranked(g, rank) && Inv({})
      requires forall x: Symbol {:trigger About(x)} :: About(x) ==> facts(x) == FactsOf(g, u, x, was)
      requires forall x: Symbol {:trigger About(x)} :: About(x) ==>
        FactsOf(g, settings, x, Values(g, settings, rank)) == FactsOf(g, u, x, was)
      modifies this`v, this`facts
      ensures Linked() && Inv({}) && v == Values(g, settings, rank)
    {
      ghost var before := facts;
      Relink();
      forall x: Symbol ensures facts(x) == before(x) {
        assert About(x);
      }
    }
  }

  lemma ConfirmedValue(g: Graph, u: Settings, rank: Symbol -> nat, s: Symbol)
    requires Ranked(g, rank) && IsTri(s)
    ensures var val := Values(g, u, rank)(s).tri; Values(g, WithSetting(u, s, val), rank)(s).tri == val
  {
    ConfirmingChangesNothing(g, u, rank, s, s);
  }

  lemma ConfirmingKeepsFacts(g: Graph, u: Settings, rank: Symbol -> nat, s: Symbol, x: Symbol)
    requires Ranked(g, rank) && IsTri(s)
    ensures var v := Values(g, u, rank);
      var w := WithSetting(u, s, v(s).tri);
      FactsOf(g, w, x, Values(g, w, rank)) == FactsOf(g, u, x, v)
  {
    var v := Values(g, u, rank);
    var w := WithSetting(u, s, v(s).tri);
    ConfirmingChangesNothing(g, u, rank, s, x);
    CalcIsStep(g, u, rank, x);
    CalcIsStep(g, w, rank, x);
    forall t: Symbol ensures v(t) == Values(g, w, rank)(t) {
      ConfirmingChangesNothing(g, u, rank, s, t);
    }
    StepAgrees(g, u, x, v, Values(g, w, rank));
    StepAgrees(g, w, x, v, Values(g, w, rank));
    DeselectedAgrees(g, x, v, Values(g, w, rank));
  }

  lemma DeselectedAgrees(g: Graph, s: Symbol, v: Valuation, w: Valuation)
    requires forall t: Symbol :: v(t) == w(t)
    ensures Deselected(g, s, v) == Deselected(g, s, w)
  {
    EvalOptAgrees(g(s).revDepInv, v, w);
  }

  /** Any sequence of queries on a fresh cache gives every symbol its value by the definition. */
  method EvaluateInOrder(g: Graph, u: Settings, ghost rank: Symbol -> nat, order: seq<Symbol>) returns (xs: seq<Value>)
    requires Ranked(g, rank)
    ensures |xs| == |order|
    ensures forall i :: 0 <= i < |order| ==> xs[i] == Values(g, u, rank)(order[i])
  {
    var ev := new Evaluator(g, u, rank);
    xs := [];
    while |xs| < |order|
      invariant |xs| <= |order|
      invariant fresh(ev) && ev.g == g && ev.rank == rank && ev.settings == u
      invariant ev.Linked() && ev.Inv({})
      invariant forall i :: 0 <= i < |xs| ==> xs[i] == Values(g, u, rank)(order[i])
    {
      var x := ev.Query(order[|xs|]);
      xs := xs + [x];
    }
  }
}
