/** The value of a symbol, defined plainly: from its own settings and the values it depends on.
    Bool, tristate, string and number symbols outside choices. */
module SymbolSpec {
  import T = Tristate
  import opened Options
  import opened Expr
  import opened ExprTransform
  import opened ExprCompare

  datatype Default = Default(cond: Option<Expr>, value: Expr)

  /** The properties and reverse dependencies attached to a symbol. */
  datatype Info = Info(name: string, prompts: seq<Option<Expr>>, defaults: seq<Default>,
                       revDep: Option<Expr>, revDepInv: Option<Expr>)

  type Graph = Symbol -> Info

  /** What the user entered; isNew until something was. */
  datatype Setting = Setting(tri: T.Tri, text: string, isNew: bool)

  type Settings = Symbol -> Setting

  /** curr.val and curr.tri: the val of a bool or tristate stays "n" whatever its tri. */
  datatype Raw = Raw(val: string, tri: T.Tri)

  predicate IsTri(s: Symbol) {
    s.Type() in {Boolean, Tristate}
  }

  /** sym_get_string_value beside the tristate. */
  function View(s: Symbol, r: Raw): Value {
    Value(r.tri, if IsTri(s) then r.tri.Name() else r.val)
  }

  function RawText(s: Symbol, x: Value): string {
    if IsTri(s) then "n" else x.text
  }

  // ----- one step: from the values of the dependencies to the value of the symbol -----

  function AnyPrompt(prompts: seq<Option<Expr>>, v: Valuation): T.Tri {
    if prompts == [] then T.No
    else T.Or(AnyPrompt(prompts[..|prompts| - 1], v), EvalOpt(prompts[|prompts| - 1], v))
  }

  function FirstDefault(defaults: seq<Default>, v: Valuation): Option<Default> {
    if defaults == [] then None
    else if EvalOpt(defaults[0].cond, v) != T.No then Some(defaults[0])
    else FirstDefault(defaults[1..], v)
  }

  predicate Deselected(g: Graph, s: Symbol, v: Valuation) {
    g(s).revDepInv.Some? && Eval(g(s).revDepInv.value, v) == T.Yes
  }

  function Visible(g: Graph, s: Symbol, v: Valuation): T.Tri {
    var t := AnyPrompt(g(s).prompts, v);
    if Deselected(g, s, v) then T.No
    else if t == T.Mod && s.Type() != Tristate then T.Yes
    else t
  }

  function Selected(g: Graph, s: Symbol, v: Valuation): T.Tri {
    var t := if g(s).revDep.None? then T.No else Eval(g(s).revDep.value, v);
    if t == T.Mod && s.Type() == Boolean then T.Yes else t
  }

  function Settle(s: Symbol, t: T.Tri): T.Tri {
    if t == T.Mod && s.Type() == Boolean then T.Yes else t
  }

  function DefaultTri(g: Graph, s: Symbol, v: Valuation): T.Tri {
    var p := FirstDefault(g(s).defaults, v);
    if p.None? then T.No else Eval(p.value.value, v)
  }

  function WantedTri(g: Graph, u: Settings, s: Symbol, v: Valuation): T.Tri {
    if !u(s).isNew then u(s).tri else DefaultTri(g, s, v)
  }

  function StepTri(g: Graph, u: Settings, s: Symbol, v: Valuation): T.Tri {
    if Deselected(g, s, v) then T.No
    else if T.Or(Visible(g, s, v), Selected(g, s, v)) != T.No then
      Settle(s, T.Or(T.And(WantedTri(g, u, s, v), Visible(g, s, v)), Selected(g, s, v)))
    else Settle(s, DefaultTri(g, s, v))
  }

  function StepText(g: Graph, u: Settings, s: Symbol, v: Valuation): string {
    if Visible(g, s, v) != T.No && !u(s).isNew then u(s).text
    else
      var p := FirstDefault(g(s).defaults, v);
      if p.None? || !p.value.value.Sym? then "" else RawText(p.value.value.sym, v(p.value.value.sym))
  }

  /** SYMBOL_WRITE: is the symbol saved? */
  predicate Writes(g: Graph, u: Settings, s: Symbol, v: Valuation) {
    var p := FirstDefault(g(s).defaults, v);
    if IsTri(s) then
      !Deselected(g, s, v) && (T.Or(Visible(g, s, v), Selected(g, s, v)) != T.No || p.Some?)
    else if s.Type() in {String, Int, Hex} then
      Visible(g, s, v) != T.No || (p.Some? && p.value.value.Sym?)
    else false
  }

  function Step(g: Graph, u: Settings, s: Symbol, v: Valuation): Raw {
    match s
    case ConstYes => Raw("y", T.Yes)
    case ConstMod => Raw("m", T.Mod)
    case ConstNo => Raw("n", T.No)
    case Quoted(text) => Raw(text, T.No)
    case Config(_, ty) =>
      match ty
      case Boolean => Raw("n", StepTri(g, u, s, v))
      case Tristate => Raw("n", StepTri(g, u, s, v))
      case Unknown => Raw(g(s).name, T.No)
      case Other => Raw(g(s).name, T.No)
      case _ => Raw(StepText(g, u, s, v), T.No)
  }

  /** A valuation that gives every symbol what the step makes of the valuation itself. */
  ghost predicate Solution(g: Graph, u: Settings, v: Valuation) {
    forall s: Symbol :: v(s) == View(s, Step(g, u, s, v))
  }

  // ----- what a symbol depends on -----

  predicate OptContains(e: Option<Expr>, t: Symbol) {
    e.Some? && ContainsSymbol(e.value, t)
  }

  predicate DependsOn(i: Info, t: Symbol) {
    || OptContains(i.revDep, t)
    || OptContains(i.revDepInv, t)
    || (exists k :: 0 <= k < |i.prompts| && OptContains(i.prompts[k], t))
    || (exists k :: 0 <= k < |i.defaults|
          && (OptContains(i.defaults[k].cond, t) || ContainsSymbol(i.defaults[k].value, t)))
  }

  /** The dependencies are acyclic: each goes to a symbol of lower rank. */
  ghost predicate Ranked(g: Graph, rank: Symbol -> nat) {
    forall s: Symbol, t: Symbol :: DependsOn(g(s), t) ==> rank(t) < rank(s)
  }

  lemma {:induction false} EvalAgrees(e: Expr, v: Valuation, w: Valuation)
    requires forall t: Symbol :: ContainsSymbol(e, t) ==> v(t) == w(t)
    ensures Eval(e, v) == Eval(e, w)
  {
    match e
    case Sym(s) => assert ContainsSymbol(e, s);
    case Equal(a, b) => assert ContainsSymbol(e, a) && ContainsSymbol(e, b);
    case Unequal(a, b) => assert ContainsSymbol(e, a) && ContainsSymbol(e, b);
    case Not(a) =>
      assert forall t: Symbol :: ContainsSymbol(a, t) ==> ContainsSymbol(e, t);
      EvalAgrees(a, v, w);
    case And(l, r) =>
      assert forall t: Symbol :: ContainsSymbol(l, t) || ContainsSymbol(r, t) ==> ContainsSymbol(e, t);
      EvalAgrees(l, v, w); EvalAgrees(r, v, w);
    case Or(l, r) =>
      assert forall t: Symbol :: ContainsSymbol(l, t) || ContainsSymbol(r, t) ==> ContainsSymbol(e, t);
      EvalAgrees(l, v, w); EvalAgrees(r, v, w);
  }

  lemma EvalOptAgrees(e: Option<Expr>, v: Valuation, w: Valuation)
    requires forall t: Symbol :: OptContains(e, t) ==> v(t) == w(t)
    ensures EvalOpt(e, v) == EvalOpt(e, w)
  {
    if e.Some? {
      assert forall t: Symbol :: ContainsSymbol(e.value, t) ==> OptContains(e, t);
      EvalAgrees(e.value, v, w);
    }
  }

  lemma {:induction false} AnyPromptAgrees(prompts: seq<Option<Expr>>, v: Valuation, w: Valuation)
    requires forall k, t: Symbol :: 0 <= k < |prompts| && OptContains(prompts[k], t) ==> v(t) == w(t)
    ensures AnyPrompt(prompts, v) == AnyPrompt(prompts, w)
  {
    if prompts != [] {
      AnyPromptAgrees(prompts[..|prompts| - 1], v, w);
      EvalOptAgrees(prompts[|prompts| - 1], v, w);
    }
  }

  lemma {:induction false} FirstDefaultAgrees(defaults: seq<Default>, v: Valuation, w: Valuation)
    requires forall k, t: Symbol :: 0 <= k < |defaults| && OptContains(defaults[k].cond, t) ==> v(t) == w(t)
    ensures FirstDefault(defaults, v) == FirstDefault(defaults, w)
    ensures FirstDefault(defaults, v).Some? ==> FirstDefault(defaults, v).value in defaults
  {
    if defaults != [] {
      EvalOptAgrees(defaults[0].cond, v, w);
      FirstDefaultAgrees(defaults[1..], v, w);
    }
  }

  /** A step looks at nothing but the dependencies. */
  lemma StepAgrees(g: Graph, u: Settings, s: Symbol, v: Valuation, w: Valuation)
    requires forall t: Symbol :: DependsOn(g(s), t) ==> v(t) == w(t)
    ensures Step(g, u, s, v) == Step(g, u, s, w)
    ensures Visible(g, s, v) == Visible(g, s, w) && Selected(g, s, v) == Selected(g, s, w)
    ensures Writes(g, u, s, v) == Writes(g, u, s, w)
  {
    var i := g(s);
    AnyPromptAgrees(i.prompts, v, w);
    FirstDefaultAgrees(i.defaults, v, w);
    EvalOptAgrees(i.revDep, v, w);
    EvalOptAgrees(i.revDepInv, v, w);
    var p := FirstDefault(i.defaults, v);
    if p.Some? {
      var k :| 0 <= k < |i.defaults| && i.defaults[k] == p.value;
      assert forall t: Symbol :: ContainsSymbol(i.defaults[k].value, t) ==> DependsOn(i, t);
      EvalAgrees(p.value.value, v, w);
      if p.value.value.Sym? { assert ContainsSymbol(p.value.value, p.value.value.sym); }
    }
    hide AnyPrompt, FirstDefault, Eval;
    SameParts(g, g, u, s, v, w);
  }

  predicate SameDefault(p: Option<Default>, q: Option<Default>, v: Valuation, w: Valuation) {
    if p.None? then q.None?
    else
      && q.Some? && p.value.value == q.value.value
      && (p.value.value.Sym? ==> v(p.value.value.sym) == w(p.value.value.sym))
  }

  /** A step depends on what it is made of. */
  lemma SameParts(g: Graph, h: Graph, u: Settings, s: Symbol, v: Valuation, w: Valuation)
    requires AnyPrompt(g(s).prompts, v) == AnyPrompt(h(s).prompts, w)
    requires g(s).name == h(s).name
    requires Deselected(g, s, v) == Deselected(h, s, w) && Selected(g, s, v) == Selected(h, s, w)
    requires DefaultTri(g, s, v) == DefaultTri(h, s, w)
    requires SameDefault(FirstDefault(g(s).defaults, v), FirstDefault(h(s).defaults, w), v, w)
    ensures Step(g, u, s, v) == Step(h, u, s, w)
    ensures Visible(g, s, v) == Visible(h, s, w) && Writes(g, u, s, v) == Writes(h, u, s, w)
  {
    hide AnyPrompt, FirstDefault, Deselected, Selected, DefaultTri;
  }

  // ----- the plain recursive definition -----

  ghost function Calc(g: Graph, u: Settings, rank: Symbol -> nat, s: Symbol): Raw
    requires Ranked(g, rank)
    decreases rank(s)
  {
    Step(g, u, s, Below(g, u, rank, rank(s)))
  }

  ghost function Below(g: Graph, u: Settings, rank: Symbol -> nat, n: nat): Valuation
    requires Ranked(g, rank)
    decreases n, 0
  {
    (t: Symbol) => if rank(t) < n then View(t, Calc(g, u, rank, t)) else Value(T.No, "")
  }

  ghost function Values(g: Graph, u: Settings, rank: Symbol -> nat): Valuation
    requires Ranked(g, rank)
  {
    (t: Symbol) => View(t, Calc(g, u, rank, t))
  }

  /** The recursive definition gives every symbol what its step makes of the values of all. */
  lemma CalcIsStep(g: Graph, u: Settings, rank: Symbol -> nat, s: Symbol)
    requires Ranked(g, rank)
    ensures Calc(g, u, rank, s) == Step(g, u, s, Values(g, u, rank))
  {
    StepAgrees(g, u, s, Below(g, u, rank, rank(s)), Values(g, u, rank));
  }

  lemma ValuesAreSolution(g: Graph, u: Settings, rank: Symbol -> nat)
    requires Ranked(g, rank)
    ensures Solution(g, u, Values(g, u, rank))
  {
    forall s: Symbol { CalcIsStep(g, u, rank, s); }
  }

  /** There is no other solution, so no evaluation order can give other values. */
  lemma {:induction false} SolutionIsUnique(g: Graph, u: Settings, rank: Symbol -> nat, v: Valuation, s: Symbol)
    requires Ranked(g, rank) && Solution(g, u, v)
    ensures v(s) == Values(g, u, rank)(s)
    decreases rank(s)
  {
    forall t: Symbol | DependsOn(g(s), t) ensures v(t) == Values(g, u, rank)(t) {
      SolutionIsUnique(g, u, rank, v, t);
    }
    StepAgrees(g, u, s, v, Values(g, u, rank));
    CalcIsStep(g, u, rank, s);
  }

  // ----- what the values are like -----

  /** Symbols settle to legal values: a boolean is never m. */
  lemma SolutionIsLegal(g: Graph, u: Settings, v: Valuation)
    requires Solution(g, u, v)
    ensures Legal(v)
  {
    forall s: Symbol ensures LegalValue(s, v(s)) {
      assert v(s) == View(s, Step(g, u, s, v));
    }
  }

  /** Unless it is deselected, a bool or tristate is at least what selects it; and with a prompt or
      a selection at work it is at most the larger of the two. */
  lemma ValueBounds(g: Graph, u: Settings, s: Symbol, v: Valuation)
    requires Solution(g, u, v) && IsTri(s) && !Deselected(g, s, v)
    ensures Selected(g, s, v).AtMost(v(s).tri)
    ensures T.Or(Visible(g, s, v), Selected(g, s, v)) != T.No ==>
      v(s).tri.AtMost(T.Or(Visible(g, s, v), Selected(g, s, v)))
  {
    assert v(s) == View(s, Step(g, u, s, v));
  }

  /** sym_tristate_within_range, outside choices. */
  predicate WithinRange(s: Symbol, visible: T.Tri, selected: T.Tri, val: T.Tri) {
    && visible != T.No
    && IsTri(s)
    && !(s.Type() == Boolean && val == T.Mod)
    && !visible.AtMost(selected)
    && selected.AtMost(val) && val.AtMost(visible)
  }

  function WithSetting(u: Settings, s: Symbol, val: T.Tri): Settings {
    (t: Symbol) => if t == s then Setting(val, u(t).text, false) else u(t)
  }

  lemma NothingBelowDependsOn(g: Graph, rank: Symbol -> nat, s: Symbol, t: Symbol)
    requires Ranked(g, rank) && rank(t) <= rank(s)
    ensures !DependsOn(g(t), s)
  {
  }

  /** A setting matters to its own symbol and to symbols of higher rank only. */
  lemma {:induction false} SettingMattersAbove(g: Graph, u: Settings, w: Settings, rank: Symbol -> nat,
                                               s: Symbol, t: Symbol)
    requires Ranked(g, rank) && forall x: Symbol :: x != s ==> u(x) == w(x)
    requires t != s && rank(t) <= rank(s)
    ensures Calc(g, u, rank, t) == Calc(g, w, rank, t)
    decreases rank(t)
  {
    forall x: Symbol | DependsOn(g(t), x) ensures Values(g, u, rank)(x) == Values(g, w, rank)(x) {
      NothingBelowDependsOn(g, rank, s, t);
      SettingMattersAbove(g, u, w, rank, s, x);
    }
    CalcIsStep(g, u, rank, t);
    CalcIsStep(g, w, rank, t);
    StepAgrees(g, u, t, Values(g, u, rank), Values(g, w, rank));
    assert Step(g, u, t, Values(g, w, rank)) == Step(g, w, t, Values(g, w, rank));
  }

  lemma DependenciesUnmoved(g: Graph, u: Settings, w: Settings, rank: Symbol -> nat, s: Symbol)
    requires Ranked(g, rank) && forall x: Symbol :: x != s ==> u(x) == w(x)
    ensures forall t: Symbol :: DependsOn(g(s), t) ==> Values(g, u, rank)(t) == Values(g, w, rank)(t)
  {
    forall t: Symbol | DependsOn(g(s), t) ensures Values(g, u, rank)(t) == Values(g, w, rank)(t) {
      SettingMattersAbove(g, u, w, rank, s, t);
    }
  }

  /** What the user may set is what the symbol then has. */
  lemma SettingInRangeTakesEffect(g: Graph, u: Settings, rank: Symbol -> nat, s: Symbol, val: T.Tri)
    requires Ranked(g, rank)
    requires var v := Values(g, u, rank); WithinRange(s, Visible(g, s, v), Selected(g, s, v), val)
    ensures Values(g, WithSetting(u, s, val), rank)(s).tri == val
  {
    var w := WithSetting(u, s, val);
    DependenciesUnmoved(g, u, w, rank, s);
    StepAgrees(g, u, s, Values(g, u, rank), Values(g, w, rank));
    CalcIsStep(g, w, rank, s);
  }

  lemma ConfirmingKeepsStep(g: Graph, u: Settings, s: Symbol, v: Valuation, x: Symbol)
    requires Solution(g, u, v) && IsTri(s)
    ensures Step(g, WithSetting(u, s, v(s).tri), x, v) == Step(g, u, x, v)
  {
    assert v(s) == View(s, Step(g, u, s, v));
    var w := WithSetting(u, s, v(s).tri);
    if x == s {
      assert v(s).tri == StepTri(g, u, s, v);
      assert StepTri(g, w, s, v) == StepTri(g, u, s, v);
    } else {
      assert w(x) == u(x);
    }
  }

  lemma SolutionGivesCalc(g: Graph, u: Settings, rank: Symbol -> nat, v: Valuation, t: Symbol)
    requires Ranked(g, rank) && Solution(g, u, v)
    ensures Calc(g, u, rank, t) == Step(g, u, t, v)
  {
    forall x: Symbol ensures v(x) == Values(g, u, rank)(x) { SolutionIsUnique(g, u, rank, v, x); }
    CalcIsStep(g, u, rank, t);
    StepAgrees(g, u, t, v, Values(g, u, rank));
  }

  /** Confirming the value a symbol already has changes no value. */
  lemma ConfirmingChangesNothing(g: Graph, u: Settings, rank: Symbol -> nat, s: Symbol, t: Symbol)
    requires Ranked(g, rank) && IsTri(s)
    ensures var val := Values(g, u, rank)(s).tri;
      Calc(g, WithSetting(u, s, val), rank, t) == Calc(g, u, rank, t)
  {
    var v := Values(g, u, rank);
    var w := WithSetting(u, s, v(s).tri);
    ValuesAreSolution(g, u, rank);
    forall x: Symbol ensures v(x) == View(x, Step(g, w, x, v)) {
      ConfirmingKeepsStep(g, u, s, v, x);
      assert v(x) == View(x, Step(g, u, x, v));
    }
    ConfirmingKeepsStep(g, u, s, v, t);
    SolutionGivesCalc(g, w, rank, v, t);
    SolutionGivesCalc(g, u, rank, v, t);
  }

  // ----- rewriting the dependencies -----

  function TransformDefault(d: Default): Default {
    Default(TransformOpt(d.cond), d.value)
  }

  /** Every condition and reverse dependency run through expr_transform. */
  function TransformInfo(i: Info): Info {
    Info(i.name,
         seq(|i.prompts|, k requires 0 <= k < |i.prompts| => TransformOpt(i.prompts[k])),
         seq(|i.defaults|, k requires 0 <= k < |i.defaults| => TransformDefault(i.defaults[k])),
         TransformOpt(i.revDep), TransformOpt(i.revDepInv))
  }

  function TransformGraph(g: Graph): Graph {
    (s: Symbol) => TransformInfo(g(s))
  }

  lemma {:induction false} TransformContains(e: Expr, t: Symbol)
    requires ContainsSymbol(Transform(e), t)
    ensures ContainsSymbol(e, t) || t.IsLiteral()
    decreases Weight(e), 1
  {
    match e
    case And(l, r) =>
      if ContainsSymbol(Transform(l), t) { TransformContains(l, t); } else { TransformContains(r, t); }
    case Or(l, r) =>
      if ContainsSymbol(Transform(l), t) { TransformContains(l, t); } else { TransformContains(r, t); }
    case Not(a) =>
      TransformNotContains(Transform(a), t);
      if ContainsSymbol(Transform(a), t) { TransformContains(a, t); }
    case _ =>
  }

  lemma {:induction false} TransformNotContains(x: Expr, t: Symbol)
    requires ContainsSymbol(TransformNot(x), t)
    ensures ContainsSymbol(x, t) || t.IsLiteral()
    decreases 2 * Weight(x) + 1, 0
  {
    match x
    case Not(b) => TransformContains(b, t);
    case Or(_, _) => TransformContains(DeMorgan(x), t);
    case And(_, _) => TransformContains(DeMorgan(x), t);
    case _ =>
  }

  /** The three literals carry no properties. */
  ghost predicate PlainLiterals(g: Graph) {
    forall s: Symbol, t: Symbol :: s.IsLiteral() ==> !DependsOn(g(s), t)
  }

  function LiteralsFirst(rank: Symbol -> nat): Symbol -> nat {
    (s: Symbol) => if s.IsLiteral() then 0 else rank(s) + 1
  }

  lemma TransformOptContains(e: Option<Expr>, t: Symbol)
    requires OptContains(TransformOpt(e), t)
    ensures OptContains(e, t) || t.IsLiteral()
  {
    TransformContains(e.value, t);
  }

  lemma TransformedDependsOn(i: Info, t: Symbol)
    requires DependsOn(TransformInfo(i), t)
    ensures DependsOn(i, t) || t.IsLiteral()
  {
    var j := TransformInfo(i);
    if OptContains(j.revDep, t) {
      TransformOptContains(i.revDep, t);
    } else if OptContains(j.revDepInv, t) {
      TransformOptContains(i.revDepInv, t);
    } else if k :| 0 <= k < |j.prompts| && OptContains(j.prompts[k], t) {
      TransformOptContains(i.prompts[k], t);
    } else {
      var k :| 0 <= k < |j.defaults| && (OptContains(j.defaults[k].cond, t) || ContainsSymbol(j.defaults[k].value, t));
      if OptContains(j.defaults[k].cond, t) { TransformOptContains(i.defaults[k].cond, t); }
    }
  }

  /** A symbol without dependencies has none after the transformation either: it has no expressions. */
  lemma PlainStaysPlain(i: Info, t: Symbol)
    requires forall x: Symbol :: !DependsOn(i, x)
    ensures !DependsOn(TransformInfo(i), t)
  {
    assert i.revDep.None? by {
      if i.revDep.Some? { var x := SomeSymbol(i.revDep.value); assert DependsOn(i, x); }
    }
    assert i.revDepInv.None? by {
      if i.revDepInv.Some? { var x := SomeSymbol(i.revDepInv.value); assert DependsOn(i, x); }
    }
    forall k | 0 <= k < |i.prompts| ensures i.prompts[k].None? {
      if i.prompts[k].Some? {
        var x := SomeSymbol(i.prompts[k].value);
        assert OptContains(i.prompts[k], x);
        assert DependsOn(i, x);
      }
    }
    assert |i.defaults| == 0 by {
      if |i.defaults| > 0 {
        var x := SomeSymbol(i.defaults[0].value);
        assert OptContains(i.defaults[0].cond, x) || ContainsSymbol(i.defaults[0].value, x);
        assert DependsOn(i, x);
      }
    }
  }

  function SomeSymbol(e: Expr): (s: Symbol)
    ensures ContainsSymbol(e, s)
  {
    match e
    case Sym(s) => s
    case Equal(a, _) => a
    case Unequal(a, _) => a
    case Not(a) => SomeSymbol(a)
    case And(l, _) => SomeSymbol(l)
    case Or(l, _) => SomeSymbol(l)
  }

  lemma TransformedIsRanked(g: Graph, rank: Symbol -> nat)
    requires Ranked(g, rank) && PlainLiterals(g)
    ensures Ranked(g, LiteralsFirst(rank)) && Ranked(TransformGraph(g), LiteralsFirst(rank))
  {
    var r := LiteralsFirst(rank);
    forall s: Symbol, t: Symbol | DependsOn(TransformGraph(g)(s), t) ensures r(t) < r(s) {
      TransformedDependsOn(g(s), t);
      if s.IsLiteral() {
        PlainStaysPlain(g(s), t);
      }
    }
  }

  lemma {:induction false} AnyPromptTransformed(ps: seq<Option<Expr>>, qs: seq<Option<Expr>>, v: Valuation)
    requires Legal(v) && |ps| == |qs| && forall k :: 0 <= k < |ps| ==> qs[k] == TransformOpt(ps[k])
    ensures AnyPrompt(qs, v) == AnyPrompt(ps, v)
  {
    var n := |ps| - 1;
    if ps != [] {
      AnyPromptTransformed(ps[..n], qs[..n], v);
      if ps[n].Some? { TransformKeepsValue(ps[n].value, v); }
    }
  }

  lemma {:induction false} FirstDefaultTransformed(ps: seq<Default>, qs: seq<Default>, v: Valuation)
    requires Legal(v) && |ps| == |qs| && forall k :: 0 <= k < |ps| ==> qs[k] == TransformDefault(ps[k])
    ensures var p, q := FirstDefault(ps, v), FirstDefault(qs, v);
      p.Some? == q.Some? && (p.Some? ==> q.value.value == p.value.value)
  {
    if ps != [] {
      FirstDefaultTransformed(ps[1..], qs[1..], v);
      if ps[0].cond.Some? { TransformKeepsValue(ps[0].cond.value, v); }
    }
  }

  lemma StepTransformed(g: Graph, u: Settings, s: Symbol, v: Valuation)
    requires Legal(v)
    ensures Step(TransformGraph(g), u, s, v) == Step(g, u, s, v)
  {
    var i, j := g(s), TransformInfo(g(s));
    assert TransformGraph(g)(s) == j;
    AnyPromptTransformed(i.prompts, j.prompts, v);
    FirstDefaultTransformed(i.defaults, j.defaults, v);
    if i.revDep.Some? { TransformKeepsValue(i.revDep.value, v); }
    if i.revDepInv.Some? { TransformKeepsValue(i.revDepInv.value, v); }
    hide AnyPrompt, FirstDefault, Eval, Transform;
    SameParts(TransformGraph(g), g, u, s, v, v);
  }

  /** Transforming every dependency of an acyclic configuration changes the value of no symbol. */
  lemma TransformKeepsConfiguration(g: Graph, u: Settings, rank: Symbol -> nat, s: Symbol)
    requires Ranked(g, rank) && PlainLiterals(g)
    ensures Ranked(g, LiteralsFirst(rank)) && Ranked(TransformGraph(g), LiteralsFirst(rank))
    ensures Calc(TransformGraph(g), u, LiteralsFirst(rank), s) == Calc(g, u, LiteralsFirst(rank), s)
  {
    var h, r := TransformGraph(g), LiteralsFirst(rank);
    TransformedIsRanked(g, rank);
    var v := Values(g, u, r);
    ValuesAreSolution(g, u, r);
    SolutionIsLegal(g, u, v);
    forall x: Symbol ensures v(x) == View(x, Step(h, u, x, v)) {
      StepTransformed(g, u, x, v);
      assert v(x) == View(x, Step(g, u, x, v));
    }
    SolutionGivesCalc(h, u, r, v, s);
    SolutionGivesCalc(g, u, r, v, s);
    StepTransformed(g, u, s, v);
  }
}
