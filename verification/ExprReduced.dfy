/** What expr_eliminate_dups leaves no trace of, told by the shapes of the operands. */
module ExprReduced {
  import opened Options
  import opened Expr
  import opened ExprEq
  import opened ExprJoin
  import opened ExprSlots
  import opened ExprTransform
  import opened ExprDups

  // ----- the pairs that are joined -----

  predicate IsBool(s: Symbol) {
    s.Config? && s.declared == Boolean
  }

  predicate IsTristate(s: Symbol) {
    s.Config? && s.declared == Tristate
  }

  predicate TwoLiterals(b: Symbol, c: Symbol) {
    b != c && b in {ConstYes, ConstMod, ConstNo} && c in {ConstYes, ConstMod, ConstNo}
  }

  /** Under OR: two tests of one tristate, or a boolean and its negation. */
  predicate OrPair(x: Expr, y: Expr) {
    match (x, y)
    case (Equal(s, b), Equal(t, c)) => s == t && IsTristate(s) && TwoLiterals(b, c)
    case (Sym(s), Not(Sym(t))) => s == t && IsBool(s)
    case _ => false
  }

  /** Under AND: a symbol and a test that settles it, a test and an exclusion, or two exclusions. */
  predicate AndPair(x: Expr, y: Expr) {
    match (x, y)
    case (Sym(s), Equal(t, c)) => s == t && (IsBool(s) || IsTristate(s)) && c == ConstYes
    case (Sym(s), Unequal(t, c)) => s == t && (IsBool(s) || IsTristate(s)) && c in {ConstNo, ConstMod}
    case (Equal(s, b), Unequal(t, c)) => s == t && IsTristate(s) && !b.Config? && !c.Config?
    case (Unequal(s, b), Unequal(t, c)) => s == t && IsTristate(s) && TwoLiterals(b, c)
    case _ => false
  }

  predicate PairOf(op: Op, x: Expr, y: Expr) {
    if op == OpAnd then AndPair(x, y) || AndPair(y, x) else OrPair(x, y) || OrPair(y, x)
  }

  /** Exactly equal operands and these pairs have a join. */
  lemma JoinIff(op: Op, x: Expr, y: Expr)
    ensures Join(op, x, y).Some? <==> Eq(x, y) || PairOf(op, x, y)
  {
    hide Eq;
    if op == OpAnd { JoinAndIff(x, y); } else { JoinOrIff(x, y); }
  }

  lemma JoinAndIff(x: Expr, y: Expr)
    ensures JoinAnd(x, y).Some? <==> Eq(x, y) || AndPair(x, y) || AndPair(y, x)
  {
    hide Eq;
  }

  lemma JoinOrIff(x: Expr, y: Expr)
    ensures JoinOr(x, y).Some? <==> Eq(x, y) || OrPair(x, y) || OrPair(y, x)
  {
    hide Eq;
  }

  // ----- the operands that are cancelled -----

  /** A symbol, its negation or a comparison: equal to nothing but itself. */
  predicate IsLeaf(x: Expr) {
    x.Sym? || (x.Not? && x.arg.Sym?) || x.Equal? || x.Unequal?
  }

  lemma LeafEqualsItself(x: Expr, y: Expr)
    requires IsLeaf(x)
    ensures Eq(x, y) <==> x == y
  {
  }

  /** x is an operand of the chain. */
  predicate Has(op: Op, e: Expr, x: Expr) {
    if op.Is(e) then Has(op, e.left, x) || Has(op, e.right, x) else e == x
  }

  /** All operands are leaves, and no two are the same. */
  ghost predicate DifferentLeaves(op: Op, e: Expr) {
    if op.Is(e) then
      && DifferentLeaves(op, e.left) && DifferentLeaves(op, e.right)
      && forall x :: !(Has(op, e.left, x) && Has(op, e.right, x))
    else IsLeaf(e)
  }

  lemma {:induction false} UnitTakesNothing(op: Op, acc: Option<Expr>, e: Expr)
    ensures var x := ExtractEqIn(op, acc, op.Unit(), e);
      x.fst == op.Unit() && x.snd == e && (acc.Some? ==> x.common.Some?)
    decreases Size(e)
  {
    if op.Is(e) {
      var a := ExtractEqIn(op, acc, op.Unit(), e.left);
      UnitTakesNothing(op, acc, e.left);
      UnitTakesNothing(op, a.common, e.right);
    } else {
      LeafEqualsItself(op.Unit(), e);
    }
  }

  lemma {:induction false} AbsentStays(op: Op, acc: Option<Expr>, x: Expr, e: Expr)
    requires IsLeaf(x) && !Has(op, e, x)
    ensures ExtractEqIn(op, acc, x, e) == Extracted(acc, x, e)
    decreases Size(e)
  {
    hide Eq;
    if op.Is(e) {
      AbsentStays(op, acc, x, e.left);
      AbsentStays(op, acc, x, e.right);
    } else {
      LeafEqualsItself(x, e);
    }
  }

  /** A leaf takes its like out of a chain, and leaves the other operands there. */
  lemma {:induction false} LeafIsTaken(op: Op, acc: Option<Expr>, x: Expr, e: Expr)
    requires IsLeaf(x) && Has(op, e, x)
    ensures var t := ExtractEqIn(op, acc, x, e);
      t.fst == op.Unit() && t.common.Some? && forall z :: z != x && Has(op, e, z) ==> Has(op, t.snd, z)
    decreases Size(e)
  {
    hide Eq;
    if op.Is(e) {
      var a := ExtractEqIn(op, acc, x, e.left);
      if Has(op, e.left, x) {
        LeafIsTaken(op, acc, x, e.left);
        UnitTakesNothing(op, a.common, e.right);
      } else {
        AbsentStays(op, acc, x, e.left);
        LeafIsTaken(op, acc, x, e.right);
      }
    } else {
      LeafEqualsItself(x, e);
    }
  }

  predicate AllUnits(op: Op, e: Expr) {
    if op.Is(e) then AllUnits(op, e.left) && AllUnits(op, e.right) else e == op.Unit()
  }

  lemma {:induction false} LeavesAreTaken(op: Op, acc: Option<Expr>, n: Expr, e: Expr)
    requires DifferentLeaves(op, n) && forall x :: Has(op, n, x) ==> Has(op, e, x)
    ensures var t := ExtractEqIn(op, acc, n, e);
      && AllUnits(op, t.fst) && t.common.Some?
      && forall z :: !Has(op, n, z) && Has(op, e, z) ==> Has(op, t.snd, z)
    decreases Size(n)
  {
    hide Eq;
    if op.Is(n) {
      var a := ExtractEqIn(op, acc, n.left, e);
      LeavesAreTaken(op, acc, n.left, e);
      LeavesAreTaken(op, a.common, n.right, a.snd);
    } else {
      LeafIsTaken(op, acc, n, e);
    }
  }

  lemma {:induction false} UnitsCollapse(op: Op, e: Expr)
    requires AllUnits(op, e)
    ensures EliminateYn(e) == op.Unit()
  {
    if op.Is(e) {
      UnitsCollapse(op, e.left);
      UnitsCollapse(op, e.right);
    }
  }

  /** The negation of the operand o comes down to leaves that are all operands of e. */
  ghost predicate Complemented(op: Op, o: Expr, e: Expr) {
    var n := Transform(Not(o));
    DifferentLeaves(op, n) && forall x :: Has(op, n, x) ==> Has(op, e, x)
  }

  lemma ComplementedCancels(op: Op, o: Expr, e: Expr)
    requires Complemented(op, o, e)
    ensures Cancels(op, o, e)
  {
    hide Eq, ExtractEqIn, Transform;
    var n := Transform(Not(o));
    LeavesAreTaken(op, None, n, e);
    UnitsCollapse(op, ExtractEqIn(op, None, n, e).fst);
  }

  // ----- the result -----

  predicate IsOperand(op: Op, e: Expr, p: Slot) {
    InChain(op, e, p) && !op.Is(At(op, e, p))
  }

  /** In the chain at the top and in every chain below it outside negations: no two operands are equal, no two are
      joined by a rule, and no operand is cancelled by the leaves beside it. */
  ghost predicate Reduced(e: Expr)
    decreases Size(e), 1
  {
    e.And? || e.Or? ==>
      var op := OpOf(e);
      && (forall p, q :: IsOperand(op, e, p) && IsOperand(op, e, q) && p != q ==> NoPair(op, e, p, q))
      && (forall p :: IsOperand(op, e, p) ==> ReducedAt(op, e, p))
  }

  predicate NoPair(op: Op, e: Expr, p: Slot, q: Slot)
    requires IsOperand(op, e, p) && IsOperand(op, e, q)
  {
    var x, y := At(op, e, p), At(op, e, q);
    !Eq(x, y) && !PairOf(op, x, y)
  }

  ghost predicate ReducedAt(op: Op, e: Expr, p: Slot)
    requires op.Is(e) && IsOperand(op, e, p)
    decreases Size(At(op, e, p)), 2
  {
    var o := At(op, e, p);
    o.And? || o.Or? ==> !Complemented(op, o, e) && Reduced(o)
  }

  lemma {:induction false} AnOperand(op: Op, e: Expr) returns (p: Slot)
    ensures IsOperand(op, e, p)
  {
    p := [];
    if op.Is(e) {
      p := AnOperand(op, e.left);
      assert ([GoLeft] + p)[1..] == p;
      p := [GoLeft] + p;
    }
  }

  /** A chain has a second operand. */
  lemma OtherOperand(op: Op, e: Expr, p: Slot) returns (q: Slot)
    requires op.Is(e) && IsOperand(op, e, p)
    ensures IsOperand(op, e, q) && q != p
  {
    var s := if p[0] == GoLeft then GoRight else GoLeft;
    q := AnOperand(op, Child(e, s));
    assert ([s] + q)[1..] == q;
    q := [s] + q;
  }

  lemma QuietLeavesNoPair(op: Op, e: Expr, p: Slot, q: Slot)
    requires op.Is(e) && Dups1(op, e, [], []).count == 0
    requires IsOperand(op, e, p) && IsOperand(op, e, q) && p != q
    ensures NoPair(op, e, p, q)
    ensures var o := At(op, e, p); o.And? || o.Or? ==> Dups1(OpOf(o), o, [], []).count == 0
  {
    hide Eq, Join, PairOf, Dups1;
    Dups1LeavesNoJoin(op, e, [], [], p, q);
    JoinIff(op, At(op, e, p), At(op, e, q));
  }

  lemma {:induction false} QuietIsReduced(op: Op, e: Expr)
    requires op.Is(e) && Dups1(op, e, [], []).count == 0 && Dups2(op, e, [], []).count == 0
    ensures Reduced(e)
    decreases Size(e)
  {
    hide NoPair, Dups1, Dups2, Complemented;
    forall p, q | IsOperand(op, e, p) && IsOperand(op, e, q) && p != q ensures NoPair(op, e, p, q) {
      QuietLeavesNoPair(op, e, p, q);
    }
    forall p | IsOperand(op, e, p) ensures ReducedAt(op, e, p) {
      var o := At(op, e, p);
      var q := OtherOperand(op, e, p);
      QuietLeavesNoPair(op, e, p, q);
      Dups2LeavesNoCancelByWhole(op, e, [], p);
      if o.And? || o.Or? {
        if Complemented(op, o, e) { ComplementedCancels(op, o, e); }
        QuietIsReduced(OpOf(o), o);
      }
    }
  }

  /** Duplicates are gone: whatever the expression was, the result is reduced throughout. */
  lemma DuplicatesAreGone(e: Expr)
    ensures Reduced(EliminateDups(e))
  {
    hide Dups1, Dups2, EliminateDups, Reduced;
    var r := EliminateDups(e);
    EliminateDupsIsStable(e);
    if r.And? || r.Or? {
      QuietIsReduced(OpOf(r), r);
    } else {
      LeafIsReduced(r);
    }
  }

  lemma LeafIsReduced(e: Expr)
    requires !e.And? && !e.Or?
    ensures Reduced(e)
  {
  }

  /** Where a join lands: the second slot holds it, the first the unit, and every other operand stays. */
  lemma JoinLandsInSecond(op: Op, e: Expr, p1: Slot, p2: Slot, q: Slot)
    requires IsOperand(op, e, p1) && IsOperand(op, e, p2) && p1 != p2 && IsOperand(op, e, q)
    requires Join(op, At(op, e, p1), At(op, e, p2)).Some?
    ensures var r := JoinSlots(op, e, p1, p2).expr;
      InChain(op, r, q) && At(op, r, q) ==
        if q == p1 then op.Unit() else if q == p2 then Join(op, At(op, e, p1), At(op, e, p2)).value else At(op, e, q)
  {
    hide Join;
    var u := Put(op, e, p1, op.Unit());
    var j := Join(op, At(op, e, p1), At(op, e, p2)).value;
    OperandsAreApart(op, e, p1, p2);
    PutKeepsApart(op, e, p1, p2, op.Unit());
    PutAtSame(op, e, p1, op.Unit());
    PutAtSame(op, u, p2, j);
    ApartIsSymmetric(p1, p2);
    PutKeepsApart(op, u, p2, p1, j);
    if q != p1 && q != p2 {
      OperandsAreApart(op, e, p1, q);
      PutKeepsApart(op, e, p1, q, op.Unit());
      OperandsAreApart(op, e, p2, q);
      PutKeepsApart(op, u, p2, q, j);
    }
  }
}
