/** What a symbol gets from its prompts, selections, setting and defaults, told by their positions. */
module SymbolMeaning {
  import T = Tristate
  import opened Options
  import opened Expr
  import opened SymbolSpec

  /** The first default whose condition is not n. */
  ghost predicate IsFirst(ds: seq<Default>, v: Valuation, k: nat) {
    k < |ds| && EvalOpt(ds[k].cond, v) != T.No && forall j :: 0 <= j < k ==> EvalOpt(ds[j].cond, v) == T.No
  }

  ghost predicate NoneMet(ds: seq<Default>, v: Valuation) {
    forall j :: 0 <= j < |ds| ==> EvalOpt(ds[j].cond, v) == T.No
  }

  /** The largest value among the conditions; n if there are none. */
  ghost predicate IsTop(ps: seq<Option<Expr>>, v: Valuation, t: T.Tri) {
    && (forall k :: 0 <= k < |ps| ==> EvalOpt(ps[k], v).AtMost(t))
    && (t == T.No || exists k :: 0 <= k < |ps| && EvalOpt(ps[k], v) == t)
  }

  predicate Declares(s: Symbol, types: set<SymType>) {
    s.Config? && s.declared in types
  }

  predicate IsOff(i: Info, v: Valuation) {
    match i.revDepInv
    case Some(e) => Eval(e, v) == T.Yes
    case None => false
  }

  /** How visible a symbol is: n if it is deselected, otherwise its most visible prompt, and m only for tristates. */
  ghost predicate IsShown(g: Graph, s: Symbol, v: Valuation, t: T.Tri) {
    if IsOff(g(s), v) then t == T.No
    else if Declares(s, {Tristate}) then IsTop(g(s).prompts, v, t)
    else if t == T.Yes then IsTop(g(s).prompts, v, T.Yes) || IsTop(g(s).prompts, v, T.Mod)
    else t == T.No && IsTop(g(s).prompts, v, T.No)
  }

  /** What selects a symbol; a boolean takes m for y. */
  predicate IsForced(g: Graph, s: Symbol, v: Valuation, t: T.Tri) {
    match g(s).revDep
    case None => t == T.No
    case Some(e) => t == OnlyTristate(s, Eval(e, v))
  }

  function OnlyTristate(s: Symbol, t: T.Tri): T.Tri {
    if t == T.Mod && Declares(s, {Boolean}) then T.Yes else t
  }

  lemma {:induction false} AnyPromptIsTop(ps: seq<Option<Expr>>, v: Valuation)
    ensures IsTop(ps, v, AnyPrompt(ps, v))
  {
    if ps != [] {
      var n := |ps| - 1;
      var t := AnyPrompt(ps[..n], v);
      AnyPromptIsTop(ps[..n], v);
      assert forall k :: 0 <= k < n ==> ps[..n][k] == ps[k];
      if t != T.No && AnyPrompt(ps, v) == t {
        var k :| 0 <= k < n && EvalOpt(ps[..n][k], v) == t;
        assert EvalOpt(ps[k], v) == t;
      } else {
        assert AnyPrompt(ps, v) == T.No || EvalOpt(ps[n], v) == AnyPrompt(ps, v);
      }
    }
  }

  lemma TopIsUnique(ps: seq<Option<Expr>>, v: Valuation, a: T.Tri, b: T.Tri)
    requires IsTop(ps, v, a) && IsTop(ps, v, b)
    ensures a == b
  {
  }

  lemma {:induction false} FirstDefaultIs(ds: seq<Default>, v: Valuation)
    ensures FirstDefault(ds, v).None? <==> NoneMet(ds, v)
    ensures forall k: nat :: IsFirst(ds, v, k) ==> FirstDefault(ds, v) == Some(ds[k])
  {
    if ds != [] {
      FirstDefaultIs(ds[1..], v);
      assert forall j :: 0 <= j < |ds[1..]| ==> ds[1..][j] == ds[j + 1];
      assert NoneMet(ds, v) <==> EvalOpt(ds[0].cond, v) == T.No && NoneMet(ds[1..], v) by {
        assert forall j :: 0 < j < |ds| ==> ds[j] == ds[1..][j - 1];
      }
      forall k: nat | IsFirst(ds, v, k) ensures FirstDefault(ds, v) == Some(ds[k]) {
        if k > 0 {
          assert forall j :: 0 <= j < k - 1 ==> ds[1..][j] == ds[j + 1];
          assert IsFirst(ds[1..], v, k - 1);
        }
      }
    }
  }

  /** The visibility of the definition is this one, and no other value is. */
  lemma ShownIff(g: Graph, s: Symbol, v: Valuation, t: T.Tri)
    ensures IsShown(g, s, v, t) <==> t == Visible(g, s, v)
  {
    hide IsTop, AnyPrompt;
    var a := AnyPrompt(g(s).prompts, v);
    AnyPromptIsTop(g(s).prompts, v);
    forall b | IsTop(g(s).prompts, v, b) ensures b == a { TopIsUnique(g(s).prompts, v, a, b); }
  }

  lemma ForcedIff(g: Graph, s: Symbol, v: Valuation, t: T.Tri)
    ensures IsForced(g, s, v, t) <==> t == Selected(g, s, v)
  {
  }

  // ----- text and numbers -----

  /** What a default expression says as a text: a constant its text, another symbol the text it has, but n if that
      is a bool or tristate; an expression that is not a symbol says nothing. */
  predicate SaysText(e: Expr, v: Valuation, t: string) {
    match e
    case Sym(Quoted(text)) => t == text
    case Sym(ConstYes) => t == "y"
    case Sym(ConstMod) => t == "m"
    case Sym(ConstNo) => t == "n"
    case Sym(Config(_, declared)) => if declared in {Boolean, Tristate} then t == "n" else t == v(e.sym).text
    case _ => t == ""
  }

  /** A string or number has the text the user gave, while it is visible, and otherwise what its first default
      that is met says. */
  lemma TextMeans(g: Graph, u: Settings, v: Valuation, s: Symbol, shown: T.Tri)
    requires Solution(g, u, v) && Declares(s, {String, Int, Hex}) && IsShown(g, s, v, shown)
    ensures v(s).tri == T.No
    ensures shown != T.No && !u(s).isNew ==> v(s).text == u(s).text
    ensures shown == T.No || u(s).isNew ==>
      && (NoneMet(g(s).defaults, v) ==> v(s).text == "")
      && forall k: nat :: IsFirst(g(s).defaults, v, k) ==> SaysText(g(s).defaults[k].value, v, v(s).text)
  {
    hide IsShown, Visible, FirstDefault, NoneMet;
    ShownIff(g, s, v, shown);
    FirstDefaultIs(g(s).defaults, v);
    SolutionIsLegal(g, u, v);
    assert v(s) == View(s, Step(g, u, s, v));
    forall k: nat | IsFirst(g(s).defaults, v, k) && (shown == T.No || u(s).isNew)
      ensures SaysText(g(s).defaults[k].value, v, v(s).text)
    {
      var e := g(s).defaults[k].value;
      if e.Sym? { assert LegalValue(e.sym, v(e.sym)); }
    }
  }

  // ----- bools and tristates -----

  /** With a prompt or a selection at work: the setting, or for a new symbol its default, as far as the prompt
      lets it, but never below the selection. */
  lemma TriMeans(g: Graph, u: Settings, v: Valuation, s: Symbol, shown: T.Tri, forced: T.Tri)
    requires Solution(g, u, v) && Declares(s, {Boolean, Tristate})
    requires IsShown(g, s, v, shown) && IsForced(g, s, v, forced)
    ensures v(s).text == v(s).tri.Name()
    ensures IsOff(g(s), v) ==> v(s).tri == T.No
    ensures !IsOff(g(s), v) && T.Or(shown, forced) != T.No ==>
      && (!u(s).isNew ==> v(s).tri == OnlyTristate(s, T.Or(T.And(u(s).tri, shown), forced)))
      && (u(s).isNew && NoneMet(g(s).defaults, v) ==> v(s).tri == OnlyTristate(s, forced))
      && (u(s).isNew ==> forall k: nat :: IsFirst(g(s).defaults, v, k) ==>
            v(s).tri == OnlyTristate(s, T.Or(T.And(Eval(g(s).defaults[k].value, v), shown), forced)))
    ensures !IsOff(g(s), v) && T.Or(shown, forced) == T.No ==>
      && (NoneMet(g(s).defaults, v) ==> v(s).tri == T.No)
      && forall k: nat :: IsFirst(g(s).defaults, v, k) ==> v(s).tri == OnlyTristate(s, Eval(g(s).defaults[k].value, v))
  {
    hide IsShown, IsForced, Visible, Selected, FirstDefault, NoneMet, Eval;
    ShownIff(g, s, v, shown);
    ForcedIff(g, s, v, forced);
    FirstDefaultIs(g(s).defaults, v);
    assert v(s) == View(s, Step(g, u, s, v));
  }

  /** Constants are themselves, and a symbol without a type is its name. */
  lemma OtherMeans(g: Graph, u: Settings, v: Valuation, s: Symbol)
    requires Solution(g, u, v) && !Declares(s, {Boolean, Tristate, String, Int, Hex})
    ensures match s
      case ConstYes => v(s) == Value(T.Yes, "y")
      case ConstMod => v(s) == Value(T.Mod, "m")
      case ConstNo => v(s) == Value(T.No, "n")
      case Quoted(text) => v(s) == Value(T.No, text)
      case Config(_, _) => v(s) == Value(T.No, g(s).name)
  {
    assert v(s) == View(s, Step(g, u, s, v));
  }

  // ----- what is saved -----

  /** A symbol is saved if it is visible or selected, or a default gives it a value; never when deselected. */
  lemma SavedMeans(g: Graph, u: Settings, v: Valuation, s: Symbol, shown: T.Tri, forced: T.Tri)
    requires IsShown(g, s, v, shown) && IsForced(g, s, v, forced)
    ensures Declares(s, {Boolean, Tristate}) ==>
      (Writes(g, u, s, v) <==>
        !IsOff(g(s), v) && (shown != T.No || forced != T.No || !NoneMet(g(s).defaults, v)))
    ensures Declares(s, {String, Int, Hex}) ==>
      (Writes(g, u, s, v) <==>
        shown != T.No || exists k: nat :: IsFirst(g(s).defaults, v, k) && g(s).defaults[k].value.Sym?)
    ensures !Declares(s, {Boolean, Tristate, String, Int, Hex}) ==> !Writes(g, u, s, v)
  {
    hide IsShown, IsForced, Visible, Selected, FirstDefault;
    ShownIff(g, s, v, shown);
    ForcedIff(g, s, v, forced);
    FirstDefaultIs(g(s).defaults, v);
    if !NoneMet(g(s).defaults, v) {
      var k := FirstMet(g(s).defaults, v);
    }
  }

  lemma FirstMet(ds: seq<Default>, v: Valuation) returns (k: nat)
    requires !NoneMet(ds, v)
    ensures IsFirst(ds, v, k)
  {
    k := 0;
    while EvalOpt(ds[k].cond, v) == T.No
      invariant k < |ds| && forall j :: 0 <= j < k ==> EvalOpt(ds[j].cond, v) == T.No
      decreases |ds| - k
    {
      k := k + 1;
    }
  }

  // ----- what may be set -----

  /** The user may give a bool or tristate exactly those values that it then has, provided its prompt lets it above
      what selects it. */
  lemma AcceptedIffTakesEffect(g: Graph, u: Settings, rank: Symbol -> nat, s: Symbol, val: T.Tri)
    requires Ranked(g, rank) && Declares(s, {Boolean, Tristate})
    ensures var v := Values(g, u, rank);
      WithinRange(s, Visible(g, s, v), Selected(g, s, v), val) <==>
        && !Visible(g, s, v).AtMost(Selected(g, s, v))
        && Values(g, WithSetting(u, s, val), rank)(s).tri == val
  {
    hide Visible, Selected, Deselected;
    var v, w := Values(g, u, rank), WithSetting(u, s, val);
    DependenciesUnmoved(g, u, w, rank, s);
    CalcIsStep(g, w, rank, s);
    StepAgrees(g, w, s, v, Values(g, w, rank));
    assert w(s) == Setting(val, u(s).text, false);
    assert Values(g, w, rank)(s).tri == StepTri(g, w, s, v);
    if Deselected(g, s, v) { DeselectedIsHidden(g, s, v); }
    if s.declared == Boolean { BooleansAreDefinite(g, s, v); }
  }

  lemma BooleansAreDefinite(g: Graph, s: Symbol, v: Valuation)
    requires Declares(s, {Boolean})
    ensures Visible(g, s, v) != T.Mod && Selected(g, s, v) != T.Mod
  {
  }

  lemma DeselectedIsHidden(g: Graph, s: Symbol, v: Valuation)
    requires Deselected(g, s, v)
    ensures Visible(g, s, v) == T.No
  {
  }

  /** Otherwise its setting makes no difference. */
  lemma ForcedIgnoresSetting(g: Graph, u: Settings, rank: Symbol -> nat, s: Symbol, val: T.Tri)
    requires Ranked(g, rank) && Declares(s, {Boolean, Tristate})
    requires var v := Values(g, u, rank); Visible(g, s, v).AtMost(Selected(g, s, v))
    ensures Values(g, WithSetting(u, s, val), rank)(s) == Values(g, u, rank)(s)
  {
    hide Visible, Selected;
    var v, w := Values(g, u, rank), WithSetting(u, s, val);
    DependenciesUnmoved(g, u, w, rank, s);
    StepAgrees(g, w, s, v, Values(g, w, rank));
    CalcIsStep(g, u, rank, s);
    CalcIsStep(g, w, rank, s);
  }
}
