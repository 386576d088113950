/** The dependencies menu_finalize computes: a parent's condition and an entry's own, narrowed to one. */
module MenuDeps {
  import T = Tristate
  import opened Options
  import opened Expr
  import opened ExprTransform
  import opened ExprDups
  import opened ExprDupsBoundary
  import opened ExprCompare
  import opened ExprTests

  function Narrow(up: Option<Expr>, own: Option<Expr>): Option<Expr> {
    EliminateDupsOpt(AllocAnd(up, TransformOpt(own)))
  }

  function NarrowPrompt(s: Option<Symbol>, dep: Option<Expr>, visible: Option<Expr>): Option<Expr> {
    var d := Narrow(dep, visible);
    if s.Some? && s.value.Type() != Tristate && d.Some? then Some(TransBool(d.value)) else d
  }

  /** The narrowed condition is worth the conjunction of both wherever that is n or y, and also at m if nothing
      is cancelled. */
  lemma NarrowIsConjunction(up: Option<Expr>, own: Option<Expr>, v: Valuation)
    requires Legal(v)
    ensures var both := T.And(EvalOpt(up, v), EvalOpt(own, v));
      && T.Refines(both, EvalOpt(Narrow(up, own), v))
      && (OptNothingCancels(AllocAnd(up, TransformOpt(own))) ==> EvalOpt(Narrow(up, own), v) == both)
  {
    if own.Some? { TransformKeepsValue(own.value, v); }
    var e := AllocAnd(up, TransformOpt(own));
    if e.Some? {
      EliminateDupsRefines(e.value, v);
      if NothingCancels(e.value) { EliminateDupsIsExactIfNothingCancels(e.value, v); }
    }
  }

  predicate OptNothingCancels(e: Option<Expr>) {
    e.Some? ==> NothingCancels(e.value)
  }

  // ----- prompts -----

  predicate OptNoNegatedTest(e: Option<Expr>) {
    e.Some? ==> NoNegatedTest(e.value)
  }

  lemma NarrowHasNoNegatedTest(up: Option<Expr>, own: Option<Expr>)
    requires OptNoNegatedTest(up)
    ensures OptNoNegatedTest(Narrow(up, own))
  {
    hide EliminateDups, NoNegatedTest;
    if own.Some? {
      TransformIsNormal(own.value);
      NormalHasNoNegatedTest(Transform(own.value));
    }
    var e := AllocAnd(up, TransformOpt(own));
    if e.Some? {
      BothHaveNoNegatedTest(up, TransformOpt(own));
      EliminateDupsHasNoNegatedTest(e.value);
    }
  }

  lemma BothHaveNoNegatedTest(a: Option<Expr>, b: Option<Expr>)
    requires OptNoNegatedTest(a) && OptNoNegatedTest(b)
    ensures OptNoNegatedTest(AllocAnd(a, b))
  {
  }

  /** No test of a tristate against n is left at all. */
  predicate NoTest(e: Expr) {
    match e
    case Not(a) => NoTest(a)
    case And(l, r) => NoTest(l) && NoTest(r)
    case Or(l, r) => NoTest(l) && NoTest(r)
    case Unequal(a, b) => !(a.Type() == Tristate && b == ConstNo)
    case _ => true
  }

  lemma {:induction false} NoTestIffTransBoolKeeps(e: Expr)
    ensures NoTest(TransBool(e))
    ensures NoTest(e) <==> TransBool(e) == e
  {
    match e
    case Not(a) => NoTestIffTransBoolKeeps(a);
    case And(l, r) => NoTestIffTransBoolKeeps(l); NoTestIffTransBoolKeeps(r);
    case Or(l, r) => NoTestIffTransBoolKeeps(l); NoTestIffTransBoolKeeps(r);
    case _ =>
  }

  lemma {:induction false} NoTestHasNoNegatedTest(e: Expr)
    requires NoTest(e)
    ensures NoNegatedTest(e)
  {
    match e
    case Not(a) => NoTestIffTransBoolKeeps(a);
    case And(l, r) => NoTestHasNoNegatedTest(l); NoTestHasNoNegatedTest(r);
    case Or(l, r) => NoTestHasNoNegatedTest(l); NoTestHasNoNegatedTest(r);
    case _ =>
  }

  /** The prompt of this entry takes m for y. */
  predicate Promotes(s: Option<Symbol>) {
    s.Some? && s.value.Type() != Tristate
  }

  predicate OptNoTest(e: Option<Expr>) {
    e.Some? ==> NoTest(e.value)
  }

  lemma NarrowPromptHasNoNegatedTest(s: Option<Symbol>, dep: Option<Expr>, visible: Option<Expr>)
    requires OptNoNegatedTest(dep)
    ensures OptNoNegatedTest(NarrowPrompt(s, dep, visible))
    ensures Promotes(s) ==> OptNoTest(NarrowPrompt(s, dep, visible))
  {
    hide NoNegatedTest, Narrow;
    NarrowHasNoNegatedTest(dep, visible);
    var d := Narrow(dep, visible);
    if Promotes(s) && d.Some? {
      NoTestIffTransBoolKeeps(d.value);
      NoTestHasNoNegatedTest(TransBool(d.value));
    }
  }

  /** What a narrowed prompt is worth, next to the condition of its entry and its own. Where both together are n
      or y, it is that for a tristate, and for another symbol it is n in the one case and not in the other; if
      nothing cancels, also where they are m. */
  ghost predicate PromptIsWorth(s: Option<Symbol>, both: T.Tri, r: T.Tri, exact: bool) {
    if Promotes(s) then (both != T.Mod || exact ==> Promoted(r) == Promoted(both))
    else T.Refines(both, r) && (exact ==> r == both)
  }

  lemma NarrowPromptIsConjunction(s: Option<Symbol>, dep: Option<Expr>, visible: Option<Expr>, v: Valuation)
    requires Legal(v) && OptNoNegatedTest(dep)
    ensures PromptIsWorth(s, T.And(EvalOpt(dep, v), EvalOpt(visible, v)), EvalOpt(NarrowPrompt(s, dep, visible), v),
                          OptNothingCancels(AllocAnd(dep, TransformOpt(visible))))
    ensures Promotes(s) ==> OptNoTest(NarrowPrompt(s, dep, visible))
  {
    hide NoNegatedTest, NothingCancels, EliminateDups, NoTest;
    NarrowIsConjunction(dep, visible, v);
    NarrowHasNoNegatedTest(dep, visible);
    NarrowPromptHasNoNegatedTest(s, dep, visible);
    var d := Narrow(dep, visible);
    if Promotes(s) && d.Some? {
      TransBoolKeepsVisibility(d.value, v);
    }
  }

  // ----- above the parent -----

  /** A child is above its parent in one case only: the parent is m, and so is the conjunction, and the
      elimination has made y of it. A child whose parent's condition is n is itself n. */
  lemma NarrowedNeedsParent(up: Option<Expr>, own: Option<Expr>, v: Valuation)
    requires Legal(v)
    ensures EvalOpt(up, v) == T.No ==> EvalOpt(Narrow(up, own), v) == T.No
    ensures !EvalOpt(Narrow(up, own), v).AtMost(EvalOpt(up, v)) ==>
      EvalOpt(up, v) == T.Mod && EvalOpt(own, v) != T.No && !OptNothingCancels(AllocAnd(up, TransformOpt(own)))
  {
    NarrowIsConjunction(up, own, v);
  }

  /** That case exists: (a && b) || !a || !b is m for a = m and b = y, and a child without a condition of its
      own gets y. */
  lemma NarrowedAboveParent(a: Expr, b: Expr)
    requires Distinct(a, b)
    ensures var up, v := Some(Complementary(OpOr, a, b)), OneModule(a.sym, true);
      Legal(v) && EvalOpt(up, v) == T.Mod && EvalOpt(Narrow(up, None), v) == T.Yes
  {
    hide EliminateDups, OneModule, Complementary;
    ModulesCanBecomeYes(a, b);
  }
}
