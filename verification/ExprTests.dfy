/** expr_eliminate_dups never puts a test of a tristate against n below a NOT. */
module ExprTests {
  import opened Options
  import opened Expr
  import opened ExprEq
  import opened ExprJoin
  import opened ExprSlots
  import opened ExprDups
  import opened ExprCompare

  lemma {:induction false} AtHasNoNegatedTest(op: Op, e: Expr, p: Slot)
    requires InChain(op, e, p) && NoNegatedTest(e)
    ensures NoNegatedTest(At(op, e, p))
  {
    if p != [] { AtHasNoNegatedTest(op, Child(e, p[0]), p[1..]); }
  }

  lemma {:induction false} PutHasNoNegatedTest(op: Op, e: Expr, p: Slot, x: Expr)
    requires InChain(op, e, p) && NoNegatedTest(e) && NoNegatedTest(x)
    ensures NoNegatedTest(Put(op, e, p, x))
  {
    if p != [] { PutHasNoNegatedTest(op, Child(e, p[0]), p[1..], x); }
  }

  lemma JoinHasNoNegatedTest(op: Op, x: Expr, y: Expr)
    requires NoNegatedTest(x) && Join(op, x, y).Some?
    ensures NoNegatedTest(Join(op, x, y).value)
  {
    hide Eq;
  }

  lemma JoinSlotsHasNoNegatedTest(op: Op, e: Expr, p1: Slot, p2: Slot)
    requires InChain(op, e, p1) && InChain(op, e, p2) && p1 != p2 && NoNegatedTest(e)
    requires !op.Is(At(op, e, p1)) && !op.Is(At(op, e, p2))
    ensures NoNegatedTest(JoinSlots(op, e, p1, p2).expr)
  {
    hide Join, Put;
    if Join(op, At(op, e, p1), At(op, e, p2)).Some? {
      var u := Put(op, e, p1, op.Unit());
      OperandsAreApart(op, e, p1, p2);
      PutKeepsApart(op, e, p1, p2, op.Unit());
      AtHasNoNegatedTest(op, e, p1);
      JoinHasNoNegatedTest(op, At(op, e, p1), At(op, e, p2));
      PutHasNoNegatedTest(op, e, p1, op.Unit());
      PutHasNoNegatedTest(op, u, p2, Join(op, At(op, e, p1), At(op, e, p2)).value);
    }
  }

  lemma {:induction false} Dups1HasNoNegatedTest(op: Op, e: Expr, p1: Slot, p2: Slot)
    requires InChain(op, e, p1) && InChain(op, e, p2) && NoNegatedTest(e)
    ensures NoNegatedTest(Dups1(op, e, p1, p2).expr)
    decreases Size(e), ChainSize(op, At(op, e, p1)) + ChainSize(op, At(op, e, p2)), 2
  {
    hide NoNegatedTest, JoinSlots;
    var e1, e2 := At(op, e, p1), At(op, e, p2);
    if op.Is(e1) {
      SlotExtends(op, e, p1, GoLeft);
      SlotExtends(op, e, p1, GoRight);
      var a := Dups1(op, e, p1 + [GoLeft], p2);
      SlotsAfter(op, e, a.expr, p1 + [GoRight], p2);
      Dups1HasNoNegatedTest(op, e, p1 + [GoLeft], p2);
      Dups1HasNoNegatedTest(op, a.expr, p1 + [GoRight], p2);
    } else if op.Is(e2) {
      SlotExtends(op, e, p2, GoLeft);
      SlotExtends(op, e, p2, GoRight);
      var a := Dups1(op, e, p1, p2 + [GoLeft]);
      SlotsAfter(op, e, a.expr, p1, p2 + [GoRight]);
      Dups1HasNoNegatedTest(op, e, p1, p2 + [GoLeft]);
      Dups1HasNoNegatedTest(op, a.expr, p1, p2 + [GoRight]);
    } else if p1 != p2 {
      var a := InnerDups1(op, e, p1);
      SlotsAfter(op, e, a.expr, p1, p2);
      if e1.And? || e1.Or? {
        AtHasNoNegatedTest(op, e, p1);
        Dups1HasNoNegatedTest(OpOf(e1), e1, [], []);
        PutHasNoNegatedTest(op, e, p1, Dups1(OpOf(e1), e1, [], []).expr);
      }
      JoinSlotsHasNoNegatedTest(op, a.expr, p1, p2);
    }
  }

  lemma CancelHasNoNegatedTest(op: Op, e: Expr, p1: Slot, p2: Slot)
    requires InChain(op, e, p1) && InChain(op, e, p2) && p1 != [] && !op.Is(At(op, e, p1)) && NoNegatedTest(e)
    ensures NoNegatedTest(CancelSlot(op, e, p1, p2).expr)
  {
    hide Cancels;
    PutHasNoNegatedTest(op, e, p1, op.Absorber());
  }

  lemma {:induction false} Dups2OperandHasNoNegatedTest(op: Op, e: Expr, p1: Slot, p2: Slot)
    requires InChain(op, e, p1) && InChain(op, e, p2) && p1 != [] && !op.Is(At(op, e, p1)) && NoNegatedTest(e)
    ensures NoNegatedTest(Dups2Operand(op, e, p1, p2).expr)
    decreases Size(e), 0, 0
  {
    hide NoNegatedTest, CancelSlot;
    var e1 := At(op, e, p1);
    if e1.And? || e1.Or? {
      AtHasNoNegatedTest(op, e, p1);
      var inner := Dups2(OpOf(e1), e1, [], []);
      Dups2HasNoNegatedTest(OpOf(e1), e1, [], []);
      PutHasNoNegatedTest(op, e, p1, inner.expr);
      var a := PutCounted(op, e, p1, inner);
      SlotsAfter(op, e, a.expr, p1, p2);
      CancelHasNoNegatedTest(op, a.expr, p1, p2);
    }
  }

  lemma {:induction false} Dups2HasNoNegatedTest(op: Op, e: Expr, p1: Slot, p2: Slot)
    requires InChain(op, e, p1) && InChain(op, e, p2) && NoNegatedTest(e)
    ensures NoNegatedTest(Dups2(op, e, p1, p2).expr)
    decreases Size(e), ChainSize(op, At(op, e, p1)) + ChainSize(op, At(op, e, p2)), 1
  {
    hide NoNegatedTest, Dups2Operand;
    var e1, e2 := At(op, e, p1), At(op, e, p2);
    if op.Is(e1) {
      SlotExtends(op, e, p1, GoLeft);
      SlotExtends(op, e, p1, GoRight);
      var a := Dups2(op, e, p1 + [GoLeft], p2);
      SlotsAfter(op, e, a.expr, p1 + [GoRight], p2);
      Dups2HasNoNegatedTest(op, e, p1 + [GoLeft], p2);
      Dups2HasNoNegatedTest(op, a.expr, p1 + [GoRight], p2);
    } else if op.Is(e2) {
      SlotExtends(op, e, p2, GoLeft);
      SlotExtends(op, e, p2, GoRight);
      var a := Dups2(op, e, p1, p2 + [GoLeft]);
      SlotsAfter(op, e, a.expr, p1, p2 + [GoRight]);
      var b := Dups2(op, a.expr, p1, p2 + [GoRight]);
      SlotsAfter(op, e, a.expr, p1, p2);
      SlotsAfter(op, a.expr, b.expr, p1, p2);
      Dups2HasNoNegatedTest(op, e, p1, p2 + [GoLeft]);
      Dups2HasNoNegatedTest(op, a.expr, p1, p2 + [GoRight]);
      Dups2OperandHasNoNegatedTest(op, b.expr, p1, p2);
    } else if p1 != p2 {
      Dups2OperandHasNoNegatedTest(op, e, p1, p2);
    }
  }

  lemma {:induction false} EliminateYnHasNoNegatedTest(e: Expr)
    requires NoNegatedTest(e)
    ensures NoNegatedTest(EliminateYn(e))
  {
    match e
    case And(l, r) => EliminateYnHasNoNegatedTest(l); EliminateYnHasNoNegatedTest(r);
    case Or(l, r) => EliminateYnHasNoNegatedTest(l); EliminateYnHasNoNegatedTest(r);
    case _ =>
  }

  /** Eliminating duplicates never goes below a NOT. */
  lemma {:induction false} EliminateDupsHasNoNegatedTest(e: Expr)
    requires NoNegatedTest(e)
    ensures NoNegatedTest(EliminateDups(e))
    decreases Size(e)
  {
    hide NoNegatedTest, Dups1, Dups2, EliminateYn;
    var r := DupsRound(e);
    if e.And? || e.Or? {
      var op := OpOf(e);
      Dups1HasNoNegatedTest(op, e, [], []);
      Dups2HasNoNegatedTest(op, Dups1(op, e, [], []).expr, [], []);
    }
    if r.count > 0 {
      EliminateYnShrinksIffNotFree(r.expr);
      EliminateYnHasNoNegatedTest(r.expr);
      EliminateDupsHasNoNegatedTest(EliminateYn(r.expr));
    }
  }
}
