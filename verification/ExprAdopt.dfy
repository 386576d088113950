/** Which entries the adoption test accepts, told by the operands of their conditions. */
module ExprAdopt {
  import T = Tristate
  import opened Options
  import opened Expr
  import opened ExprEq
  import opened ExprReduced
  import opened ExprTransform
  import opened ExprDups
  import opened ExprCompare

  /** The symbols that occur in an expression. */
  function Symbols(e: Expr): set<Symbol> {
    match e
    case Sym(x) => {x}
    case Not(a) => Symbols(a)
    case And(l, r) => Symbols(l) + Symbols(r)
    case Or(l, r) => Symbols(l) + Symbols(r)
    case Equal(a, b) => {a, b}
    case Unequal(a, b) => {a, b}
  }

  lemma {:induction false} ContainsIffOccurs(e: Expr, s: Symbol)
    ensures ContainsSymbol(e, s) <==> s in Symbols(e)
  {
    match e
    case Not(a) => ContainsIffOccurs(a, s);
    case And(l, r) => ContainsIffOccurs(l, s); ContainsIffOccurs(r, s);
    case Or(l, r) => ContainsIffOccurs(l, s); ContainsIffOccurs(r, s);
    case _ =>
  }

  /** An operand of the AND chain that asks for the symbol to be on. */
  predicate AsksFor(e: Expr, s: Symbol) {
    || Has(OpAnd, e, Sym(s)) || Has(OpAnd, e, Equal(s, ConstYes))
    || Has(OpAnd, e, Equal(s, ConstMod)) || Has(OpAnd, e, Unequal(s, ConstNo))
  }

  lemma {:induction false} DependsIffAsks(e: Expr, s: Symbol)
    ensures DependsSymbol(e, s) <==> AsksFor(e, s)
    ensures AsksFor(e, s) ==> s in Symbols(e)
  {
    match e
    case And(l, r) => DependsIffAsks(l, s); DependsIffAsks(r, s);
    case _ =>
  }

  // ----- what the conditions share -----

  lemma EqualsLeaf(x: Expr, y: Expr)
    requires IsLeaf(y)
    ensures Eq(x, y) <==> x == y
  {
  }

  /** A leaf that the elimination may take: not one of the constants it guards. */
  predicate IsFree(x: Expr) {
    x.Sym? ==> !x.sym.HasYesOrNoFlag()
  }

  /** All operands are leaves, and only the unit occurs more than once. */
  ghost predicate LeavesApart(op: Op, e: Expr) {
    if op.Is(e) then
      && LeavesApart(op, e.left) && LeavesApart(op, e.right)
      && forall x :: x != op.Unit() ==> !(Has(op, e.left, x) && Has(op, e.right, x))
    else IsLeaf(e)
  }

  lemma {:induction false} OperandStays(op: Op, x: Expr, b: Expr)
    requires !op.Is(x) && LeavesApart(op, b)
    ensures var y := EliminateEqIn(op, x, b).fst; !op.Is(y) && (y == x || (y == op.Unit() && Has(op, b, x)))
    decreases Size(b)
  {
    hide Eq;
    if op.Is(b) {
      var y := EliminateEqIn(op, x, b.left).fst;
      OperandStays(op, x, b.left);
      if y == x { OperandStays(op, x, b.right); } else { UnitStays(op, b.right); }
    } else {
      EqualsLeaf(x, b);
    }
  }

  lemma {:induction false} UnitStays(op: Op, b: Expr)
    ensures EliminateEqIn(op, op.Unit(), b) == Pair(op.Unit(), b)
    decreases Size(b)
  {
    if op.Is(b) {
      UnitStays(op, b.left);
      UnitStays(op, b.right);
    }
  }

  /** What is left of the second chain was there, and a free leaf that the operand is like is gone. */
  lemma {:induction false} OperandTakes(op: Op, x: Expr, b: Expr, z: Expr)
    requires !op.Is(x) && LeavesApart(op, b) && z != op.Unit()
    requires Has(op, EliminateEqIn(op, x, b).snd, z)
    ensures Has(op, b, z) && (x == z ==> !IsFree(z))
    decreases Size(b)
  {
    hide Eq, LeavesApart, EliminateEqIn;
    LeavesApartParts(op, b);
    if op.Is(b) {
      var a := EliminateEqIn(op, x, b.left);
      EliminateEqInOfSecond(op, x, b);
      OperandStays(op, x, b.left);
      if Has(op, a.snd, z) {
        OperandTakes(op, x, b.left, z);
      } else if a.fst == x {
        OperandTakes(op, x, b.right, z);
      } else {
        UnitStays(op, b.right);
      }
    } else {
      EliminateEqInOfOperands(op, x, b);
      EqualsLeaf(x, b);
    }
  }

  lemma LeavesApartParts(op: Op, b: Expr)
    requires LeavesApart(op, b)
    ensures op.Is(b) ==> LeavesApart(op, b.left) && LeavesApart(op, b.right)
    ensures op.Is(b) ==> forall x :: x != op.Unit() ==> !(Has(op, b.left, x) && Has(op, b.right, x))
    ensures !op.Is(b) ==> IsLeaf(b)
  {
  }

  lemma {:induction false} LeavesStayApart(op: Op, x: Expr, b: Expr)
    requires !op.Is(x) && LeavesApart(op, b)
    ensures LeavesApart(op, EliminateEqIn(op, x, b).snd)
    decreases Size(b)
  {
    hide Eq;
    if op.Is(b) {
      var a := EliminateEqIn(op, x, b.left);
      OperandStays(op, x, b.left);
      LeavesStayApart(op, x, b.left);
      LeavesStayApart(op, a.fst, b.right);
      var right := EliminateEqIn(op, a.fst, b.right).snd;
      forall z | z != op.Unit() && Has(op, a.snd, z) && Has(op, right, z) ensures false {
        OperandTakes(op, x, b.left, z);
        OperandTakes(op, a.fst, b.right, z);
      }
    }
  }

  /** Of a chain of leaves, what is left after elimination was there, and is not a free operand of the other chain. */
  lemma {:induction false} ChainTakes(op: Op, c: Expr, b: Expr, z: Expr)
    requires LeavesApart(op, b) && z != op.Unit()
    ensures LeavesApart(op, EliminateEqIn(op, c, b).snd)
    ensures Has(op, EliminateEqIn(op, c, b).snd, z) ==> Has(op, b, z) && (Has(op, c, z) ==> !IsFree(z))
    decreases Size(c)
  {
    hide Eq, LeavesApart, IsFree;
    if op.Is(c) {
      ChainTakes(op, c.left, b, z);
      ChainTakes(op, c.right, EliminateEqIn(op, c.left, b).snd, z);
    } else {
      LeavesStayApart(op, c, b);
      if Has(op, EliminateEqIn(op, c, b).snd, z) { OperandTakes(op, c, b, z); }
    }
  }

  lemma {:induction false} OnlyUnits(op: Op, e: Expr)
    requires forall z :: z != op.Unit() ==> !Has(op, e, z)
    ensures AllUnits(op, e)
  {
    if op.Is(e) {
      assert forall z :: Has(op, e.left, z) || Has(op, e.right, z) ==> Has(op, e, z);
      OnlyUnits(op, e.left);
      OnlyUnits(op, e.right);
    } else {
      assert Has(op, e, e);
    }
  }

  /** Two chains, the second of free leaves that are all operands of the first: nothing is left of the second. */
  lemma CoveredIsEliminated(c: Expr, b: Expr)
    requires c.And? && LeavesApart(OpAnd, b)
    requires forall z :: Has(OpAnd, b, z) ==> Has(OpAnd, c, z) && IsFree(z)
    ensures EliminateEq(c, b).snd == YES
  {
    hide Eq, LeavesApart, EliminateEqIn;
    var p := EliminateEqIn(OpAnd, c, b);
    forall z | z != YES ensures !Has(OpAnd, p.snd, z) {
      ChainTakes(OpAnd, c, b, z);
    }
    OnlyUnits(OpAnd, p.snd);
    UnitsCollapse(OpAnd, p.snd);
    assert EliminateEqFirst(c, b) == p;
    assert OpAnd.Is(p.fst) && (OpAnd.Is(b) ==> OpAnd.Is(p.snd));
    if !OpAnd.Is(p.snd) { assert p.snd == YES; }
  }

  // ----- the test -----

  /** The conditions are compared in reduced form. */
  lemma ConditionIsReduced(dep: Option<Expr>)
    ensures Reduced(Condition(dep))
  {
    hide Reduced, EliminateDups;
    DuplicatesAreGone(Transform(TransCompareOpt(dep, IsUnequal, ConstNo).value));
  }

  /** An entry is adopted if and only if its condition names the symbol, and asks for it to be on or, in reduced
      form, leaves nothing of the reduced condition of the prompt above. */
  lemma AdoptsIff(s: Symbol, base: Option<Expr>, dep: Option<Expr>)
    ensures Adopts(s, base, dep) <==>
      && dep.Some? && s in Symbols(dep.value)
      && (AsksFor(dep.value, s) || EliminateEq(Condition(dep), Condition(base)).snd == YES)
  {
    hide EliminateEq, EliminateDups;
    if dep.Some? {
      ContainsIffOccurs(dep.value, s);
      DependsIffAsks(dep.value, s);
    }
  }

  /** So it is adopted whenever its condition asks for the symbol. */
  lemma AskingIsAdopted(s: Symbol, base: Option<Expr>, dep: Expr)
    requires AsksFor(dep, s)
    ensures Adopts(s, base, Some(dep))
  {
    ContainsIffOccurs(dep, s);
    DependsIffAsks(dep, s);
  }

  /** It is adopted, too, if it names the symbol, and every operand of the condition above, in reduced form, is an
      operand of its own. */
  lemma CoveringIsAdopted(s: Symbol, base: Option<Expr>, dep: Expr)
    requires s in Symbols(dep) && Condition(Some(dep)).And? && LeavesApart(OpAnd, Condition(base))
    requires forall z :: Has(OpAnd, Condition(base), z) ==> Has(OpAnd, Condition(Some(dep)), z) && IsFree(z)
    ensures Adopts(s, base, Some(dep))
  {
    hide EliminateEq, EliminateDups;
    ContainsIffOccurs(dep, s);
    CoveredIsEliminated(Condition(Some(dep)), Condition(base));
  }

  /** Below a prompt that is always shown, naming the symbol is enough. */
  lemma NamingIsAdopted(s: Symbol, dep: Expr)
    requires s in Symbols(dep)
    ensures Condition(None) == YES && Adopts(s, None, Some(dep))
  {
    ContainsIffOccurs(dep, s);
    assert DupsRound(YES) == Counted(YES, 0);
    assert Condition(None) == YES;
    YesIsEliminated(Condition(Some(dep)));
  }

  lemma YesIsEliminated(c: Expr)
    ensures EliminateEq(c, YES).snd == YES
  {
    if c.And? || c.Or? { ConstantStays(OpOf(c), c, YES); }
  }

  lemma {:induction false} ConstantStays(op: Op, c: Expr, k: Expr)
    requires k.Sym? && k.sym.HasYesOrNoFlag()
    ensures EliminateEqIn(op, c, k).snd == k
    decreases Size(c)
  {
    if op.Is(c) {
      ConstantStays(op, c.left, k);
      ConstantStays(op, c.right, k);
    }
  }

  /** Two single tests are never compared: an entry with the very condition above it is not adopted, unless it asks
      for the symbol or that condition is y. */
  lemma SingleTestIsNotAdopted(s: Symbol, base: Option<Expr>, dep: Expr)
    requires IsLeaf(Condition(Some(dep))) && IsLeaf(Condition(base))
    ensures Adopts(s, base, Some(dep)) <==> s in Symbols(dep) && (AsksFor(dep, s) || Condition(base) == YES)
  {
    hide EliminateEq, Condition;
    AdoptsIff(s, base, Some(dep));
    LeavesStay(Condition(Some(dep)), Condition(base));
  }

  lemma LeavesStay(c: Expr, b: Expr)
    requires IsLeaf(c) && IsLeaf(b)
    ensures EliminateEq(c, b) == Pair(c, b)
  {
  }
}
