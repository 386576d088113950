/** The in-place form of expr_eliminate_dups: slots are overwritten and trans_count is bumped. */
module DupEliminator {
  import opened Options
  import opened Expr
  import opened ExprEq
  import opened ExprJoin
  import opened ExprSlots
  import opened ExprDups

  class Rewriter {
    var root: Expr
    var transCount: nat

    constructor (e: Expr)
      ensures root == e && transCount == 0
    {
      root, transCount := e, 0;
    }

    /** Overwrites a slot. */
    method Store(op: Op, p: Slot, x: Expr)
      requires InChain(op, root, p)
      modifies this`root
      ensures root == Put(op, old(root), p, x)
    {
      root := Put(op, root, p, x);
    }

    method Pass1(op: Op, p1: Slot, p2: Slot)
      requires InChain(op, root, p1) && InChain(op, root, p2)
      modifies this
      ensures root == Dups1(op, old(root), p1, p2).expr
      ensures transCount == old(transCount) + Dups1(op, old(root), p1, p2).count
      decreases Size(root), ChainSize(op, At(op, root, p1)) + ChainSize(op, At(op, root, p2)), 1
    {
      hide Dups1Operand;
      ghost var e := root;
      if op.Is(At(op, root, p1)) {
        SlotExtends(op, root, p1, GoLeft);
        SlotExtends(op, root, p1, GoRight);
        Pass1(op, p1 + [GoLeft], p2);
        SlotsAfter(op, e, root, p1 + [GoRight], p2);
        Pass1(op, p1 + [GoRight], p2);
        return;
      }
      if op.Is(At(op, root, p2)) {
        SlotExtends(op, root, p2, GoLeft);
        SlotExtends(op, root, p2, GoRight);
        Pass1(op, p1, p2 + [GoLeft]);
        SlotsAfter(op, e, root, p1, p2 + [GoRight]);
        Pass1(op, p1, p2 + [GoRight]);
        return;
      }
      if p1 == p2 {
        return;
      }
      Pass1Operand(op, p1, p2);
    }

    method Pass1Operand(op: Op, p1: Slot, p2: Slot)
      requires InChain(op, root, p1) && InChain(op, root, p2) && p1 != p2 && p1 != []
      requires !op.Is(At(op, root, p1)) && !op.Is(At(op, root, p2))
      modifies this
      ensures root == Dups1Operand(op, old(root), p1, p2).expr
      ensures transCount == old(transCount) + Dups1Operand(op, old(root), p1, p2).count
      decreases Size(root), 0, 0
    {
      ghost var e := root;
      var e1 := At(op, root, p1);
      if e1.And? || e1.Or? {
        var whole := root;
        root := e1;                       // slots are now counted from this operand
        Pass1(OpOf(e1), [], []);
        var inner := root;
        root := whole;
        Store(op, p1, inner);
      }
      SlotsAfter(op, e, InnerDups1(op, e, p1).expr, p1, p2);
      assert root == InnerDups1(op, e, p1).expr;
      JoinPair(op, p1, p2);
    }

    /** Two operands that can be joined: the first becomes the unit, the second their join. */
    method JoinPair(op: Op, p1: Slot, p2: Slot)
      requires InChain(op, root, p1) && InChain(op, root, p2) && p1 != p2
      requires !op.Is(At(op, root, p1)) && !op.Is(At(op, root, p2))
      modifies this
      ensures root == JoinSlots(op, old(root), p1, p2).expr
      ensures transCount == old(transCount) + JoinSlots(op, old(root), p1, p2).count
    {
      var tmp := Join(op, At(op, root, p1), At(op, root, p2));
      if tmp.Some? {
        OperandsAreApart(op, root, p1, p2);
        PutKeepsApart(op, root, p1, p2, op.Unit());
        Store(op, p1, op.Unit());
        Store(op, p2, tmp.value);
        transCount := transCount + 1;
      }
    }

    method Pass2(op: Op, p1: Slot, p2: Slot)
      requires InChain(op, root, p1) && InChain(op, root, p2)
      modifies this
      ensures root == Dups2(op, old(root), p1, p2).expr
      ensures transCount == old(transCount) + Dups2(op, old(root), p1, p2).count
      decreases Size(root), ChainSize(op, At(op, root, p1)) + ChainSize(op, At(op, root, p2)), 1
    {
      hide Dups2Operand;
      ghost var e := root;
      if op.Is(At(op, root, p1)) {
        SlotExtends(op, root, p1, GoLeft);
        SlotExtends(op, root, p1, GoRight);
        Pass2(op, p1 + [GoLeft], p2);
        SlotsAfter(op, e, root, p1 + [GoRight], p2);
        Pass2(op, p1 + [GoRight], p2);
        return;
      }
      if op.Is(At(op, root, p2)) {
        SlotExtends(op, root, p2, GoLeft);
        SlotExtends(op, root, p2, GoRight);
        Pass2(op, p1, p2 + [GoLeft]);
        SlotsAfter(op, e, root, p1, p2 + [GoRight]);
        SlotsAfter(op, e, root, p1, p2);
        ghost var mid := root;
        Pass2(op, p1, p2 + [GoRight]);
        SlotsAfter(op, mid, root, p1, p2);
      }
      if p1 == p2 {
        return;
      }
      Pass2Operand(op, p1, p2);
    }

    method Pass2Operand(op: Op, p1: Slot, p2: Slot)
      requires InChain(op, root, p1) && InChain(op, root, p2) && p1 != []
      requires !op.Is(At(op, root, p1))
      modifies this
      ensures root == Dups2Operand(op, old(root), p1, p2).expr
      ensures transCount == old(transCount) + Dups2Operand(op, old(root), p1, p2).count
      decreases Size(root), 0, 0
    {
      ghost var e := root;
      var e1 := At(op, root, p1);
      if e1.And? || e1.Or? {
        var whole := root;
        root := e1;
        Pass2(OpOf(e1), [], []);
        var inner := root;
        root := whole;
        Store(op, p1, inner);
        SlotsAfter(op, e, PutCounted(op, e, p1, Dups2(OpOf(e1), e1, [], [])).expr, p1, p2);
        if Cancels(op, At(op, root, p1), At(op, root, p2)) {
          Store(op, p1, op.Absorber());
          transCount := transCount + 1;
        }
      }
    }

    /** expr_eliminate_dups; the counter is the caller's again at the end. */
    method Run()
      modifies this
      ensures root == EliminateDups(old(root))
      ensures transCount == old(transCount)
    {
      var oldcount := transCount;
      while true
        invariant EliminateDups(root) == EliminateDups(old(root))
        decreases Size(root)
      {
        ghost var e := root;
        transCount := 0;
        if root.And? || root.Or? {
          var op := OpOf(root);
          Pass1(op, [], []);
          Pass2(op, [], []);
        }
        assert root == DupsRound(e).expr && transCount == DupsRound(e).count;
        if transCount == 0 {
          break;
        }
        EliminateYnShrinksIffNotFree(root);
        root := EliminateYn(root);
      }
      transCount := oldcount;
    }
  }
}
