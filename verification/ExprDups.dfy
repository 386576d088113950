/** expr_eliminate_dups: joins operands of a chain and cancels complementary ones, until nothing changes. */
module ExprDups {
  import T = Tristate
  import opened Options
  import opened Expr
  import opened ExprEq
  import opened ExprJoin
  import opened ExprSlots
  import opened ExprTransform

  /** A rewritten expression and how many rewrites were counted in trans_count. */
  datatype Counted = Counted(expr: Expr, count: nat)

  // ----- expr_eliminate_dups1: joining pairs of operands -----

  /** The join of two operands: the first slot gets the unit, the second the joined expression. */
  function JoinSlots(op: Op, e: Expr, p1: Slot, p2: Slot): (r: Counted)
    requires InChain(op, e, p1) && InChain(op, e, p2) && p1 != p2
    requires !op.Is(At(op, e, p1)) && !op.Is(At(op, e, p2))
    ensures SameChain(op, e, r.expr) && Size(r.expr) <= Size(e)
    ensures r.count == 0 ==> r.expr == e
    ensures r.count > 0 ==> !YnFree(r.expr)
  {
    var j := Join(op, At(op, e, p1), At(op, e, p2));
    if j.None? then (SameChainReflexive(op, e); Counted(e, 0))
    else
      OperandsAreApart(op, e, p1, p2);
      var u := Put(op, e, p1, op.Unit());
      PutKeepsApart(op, e, p1, p2, op.Unit());
      PutAtSame(op, e, p1, op.Unit());
      PutKeepsChain(op, e, p1, op.Unit());
      JoinIsOperand(op, At(op, e, p1), At(op, e, p2));
      PutKeepsChain(op, u, p2, j.value);
      SameChainTransitive(op, e, u, Put(op, u, p2, j.value));
      ApartIsSymmetric(p1, p2);
      SlotsApartKeepYn(op, u, p2, p1, j.value);
      Counted(Put(op, u, p2, j.value), 1)
  }

  lemma {:induction false} ApartIsSymmetric(p: Slot, q: Slot)
    requires Apart(p, q)
    ensures Apart(q, p)
  {
    if p[0] == q[0] { ApartIsSymmetric(p[1..], q[1..]); }
  }

  /** Replacing one operand by its own rewritten form. */
  function PutCounted(op: Op, e: Expr, p: Slot, x: Counted): (r: Counted)
    requires InChain(op, e, p) && SameChain(op, At(op, e, p), x.expr)
    requires Size(x.expr) <= Size(At(op, e, p))
    requires x.count == 0 ==> x.expr == At(op, e, p)
    requires x.count > 0 ==> !YnFree(x.expr)
    ensures r.expr == Put(op, e, p, x.expr) && r.count == x.count
    ensures SameChain(op, e, r.expr) && Size(r.expr) <= Size(e)
    ensures r.count == 0 ==> r.expr == e
    ensures r.count > 0 ==> !YnFree(r.expr)
  {
    PutKeepsChain(op, e, p, x.expr);
    PutAtSame(op, e, p, x.expr);
    if x.count > 0 then (PutLeavesYn(op, e, p, x.expr); Counted(Put(op, e, p, x.expr), x.count))
    else Counted(Put(op, e, p, x.expr), x.count)
  }

  function Dups1(op: Op, e: Expr, p1: Slot, p2: Slot): (r: Counted)
    requires InChain(op, e, p1) && InChain(op, e, p2)
    ensures SameChain(op, e, r.expr) && Size(r.expr) <= Size(e)
    ensures r.count == 0 ==> r.expr == e
    ensures r.count > 0 ==> !YnFree(r.expr)
    decreases Size(e), ChainSize(op, At(op, e, p1)) + ChainSize(op, At(op, e, p2)), 2
  {
    var e1, e2 := At(op, e, p1), At(op, e, p2);
    if op.Is(e1) then
      SlotExtends(op, e, p1, GoLeft);
      SlotExtends(op, e, p1, GoRight);
      var a := Dups1(op, e, p1 + [GoLeft], p2);
      SlotsAfter(op, e, a.expr, p1 + [GoRight], p2);
      var b := Dups1(op, a.expr, p1 + [GoRight], p2);
      SameChainTransitive(op, e, a.expr, b.expr);
      Counted(b.expr, a.count + b.count)
    else if op.Is(e2) then
      SlotExtends(op, e, p2, GoLeft);
      SlotExtends(op, e, p2, GoRight);
      var a := Dups1(op, e, p1, p2 + [GoLeft]);
      SlotsAfter(op, e, a.expr, p1, p2 + [GoRight]);
      var b := Dups1(op, a.expr, p1, p2 + [GoRight]);
      SameChainTransitive(op, e, a.expr, b.expr);
      Counted(b.expr, a.count + b.count)
    else if p1 == p2 then (SameChainReflexive(op, e); Counted(e, 0))
    else Dups1Operand(op, e, p1, p2)
  }

  /** The part of expr_eliminate_dups1 after the walk over the two chains. */
  function Dups1Operand(op: Op, e: Expr, p1: Slot, p2: Slot): (r: Counted)
    requires InChain(op, e, p1) && InChain(op, e, p2) && p1 != p2 && p1 != []
    requires !op.Is(At(op, e, p1)) && !op.Is(At(op, e, p2))
    ensures SameChain(op, e, r.expr) && Size(r.expr) <= Size(e)
    ensures r.count == 0 ==> r.expr == e
    ensures r.count > 0 ==> !YnFree(r.expr)
    decreases Size(e), 0, 1
  {
    var a := InnerDups1(op, e, p1);
    SlotsAfter(op, e, a.expr, p1, p2);
    var b := JoinSlots(op, a.expr, p1, p2);
    SameChainTransitive(op, e, a.expr, b.expr);
    Counted(b.expr, a.count + b.count)
  }

  /** An operand that is itself a chain, of the other operator, is treated first. */
  function InnerDups1(op: Op, e: Expr, p: Slot): (r: Counted)
    requires InChain(op, e, p) && p != [] && !op.Is(At(op, e, p))
    ensures SameChain(op, e, r.expr) && Size(r.expr) <= Size(e)
    ensures r.count == 0 ==> r.expr == e
    ensures r.count > 0 ==> !YnFree(r.expr)
    decreases Size(e), 0, 0
  {
    var e1 := At(op, e, p);
    if e1.And? || e1.Or? then PutCounted(op, e, p, Dups1(OpOf(e1), e1, [], []))
    else (SameChainReflexive(op, e); Counted(e, 0))
  }

  /** After a rewriting that keeps the chain, two slots are still slots, with as much chain below. */
  lemma SlotsAfter(op: Op, e: Expr, e': Expr, p1: Slot, p2: Slot)
    requires SameChain(op, e, e') && InChain(op, e, p1) && InChain(op, e, p2)
    ensures InChain(op, e', p1) && InChain(op, e', p2)
    ensures op.Is(At(op, e', p1)) <==> op.Is(At(op, e, p1))
    ensures op.Is(At(op, e', p2)) <==> op.Is(At(op, e, p2))
    ensures ChainSize(op, At(op, e', p1)) == ChainSize(op, At(op, e, p1))
    ensures ChainSize(op, At(op, e', p2)) == ChainSize(op, At(op, e, p2))
  {
    SameChainSlots(op, e, e', p1);
    SameChainSlots(op, e, e', p2);
    SameChainSize(op, At(op, e, p1), At(op, e', p1));
    SameChainSize(op, At(op, e, p2), At(op, e', p2));
  }

  // ----- expr_eliminate_dups2: cancelling complementary operands -----

  /** Every operand of the transformed negation of e1 is found in e2. */
  predicate Cancels(op: Op, e1: Expr, e2: Expr) {
    ExtractEq(op, Transform(Not(e1)), e2).fst == op.Unit()
  }

  /** The operand in p1 is a chain of the other operator; the whole of p2 may decide it. */
  function CancelSlot(op: Op, e: Expr, p1: Slot, p2: Slot): (r: Counted)
    requires InChain(op, e, p1) && InChain(op, e, p2) && p1 != []
    requires !op.Is(At(op, e, p1))
    ensures SameChain(op, e, r.expr) && Size(r.expr) <= Size(e)
    ensures r.count == 0 ==> r.expr == e
    ensures r.count > 0 ==> !YnFree(r.expr)
  {
    if Cancels(op, At(op, e, p1), At(op, e, p2)) then
      PutKeepsChain(op, e, p1, op.Absorber());
      PutLeavesYn(op, e, p1, op.Absorber());
      Counted(Put(op, e, p1, op.Absorber()), 1)
    else (SameChainReflexive(op, e); Counted(e, 0))
  }

  /** When p2 holds a chain its operands are tried first, and then, as the original falls through,
      the chain as a whole. */
  function Dups2(op: Op, e: Expr, p1: Slot, p2: Slot): (r: Counted)
    requires InChain(op, e, p1) && InChain(op, e, p2)
    ensures SameChain(op, e, r.expr) && Size(r.expr) <= Size(e)
    ensures r.count == 0 ==> r.expr == e
    ensures r.count > 0 ==> !YnFree(r.expr)
    decreases Size(e), ChainSize(op, At(op, e, p1)) + ChainSize(op, At(op, e, p2)), 1
  {
    var e1, e2 := At(op, e, p1), At(op, e, p2);
    if op.Is(e1) then
      SlotExtends(op, e, p1, GoLeft);
      SlotExtends(op, e, p1, GoRight);
      var a := Dups2(op, e, p1 + [GoLeft], p2);
      SlotsAfter(op, e, a.expr, p1 + [GoRight], p2);
      var b := Dups2(op, a.expr, p1 + [GoRight], p2);
      SameChainTransitive(op, e, a.expr, b.expr);
      Counted(b.expr, a.count + b.count)
    else if op.Is(e2) then
      var b := Dups2Second(op, e, p1, p2);
      SlotsAfter(op, e, b.expr, p1, p2);
      var c := Dups2Operand(op, b.expr, p1, p2);
      SameChainTransitive(op, e, b.expr, c.expr);
      Counted(c.expr, b.count + c.count)
    else if p1 == p2 then (SameChainReflexive(op, e); Counted(e, 0))
    else Dups2Operand(op, e, p1, p2)
  }

  /** One operand against the two halves of a chain. */
  function Dups2Second(op: Op, e: Expr, p1: Slot, p2: Slot): (r: Counted)
    requires InChain(op, e, p1) && InChain(op, e, p2) && !op.Is(At(op, e, p1)) && op.Is(At(op, e, p2))
    ensures SameChain(op, e, r.expr) && Size(r.expr) <= Size(e)
    ensures r.count == 0 ==> r.expr == e
    ensures r.count > 0 ==> !YnFree(r.expr)
    decreases Size(e), ChainSize(op, At(op, e, p1)) + ChainSize(op, At(op, e, p2)), 0
  {
    SlotExtends(op, e, p2, GoLeft);
    SlotExtends(op, e, p2, GoRight);
    var a := Dups2(op, e, p1, p2 + [GoLeft]);
    SlotsAfter(op, e, a.expr, p1, p2 + [GoRight]);
    var b := Dups2(op, a.expr, p1, p2 + [GoRight]);
    SameChainTransitive(op, e, a.expr, b.expr);
    Counted(b.expr, a.count + b.count)
  }

  /** The part of expr_eliminate_dups2 after the walk over the chain. */
  function Dups2Operand(op: Op, e: Expr, p1: Slot, p2: Slot): (r: Counted)
    requires InChain(op, e, p1) && InChain(op, e, p2) && p1 != []
    requires !op.Is(At(op, e, p1))
    ensures SameChain(op, e, r.expr) && Size(r.expr) <= Size(e)
    ensures r.count == 0 ==> r.expr == e
    ensures r.count > 0 ==> !YnFree(r.expr)
    decreases Size(e), 0, 0
  {
    var e1 := At(op, e, p1);
    if e1.And? || e1.Or? then
      var a := PutCounted(op, e, p1, Dups2(OpOf(e1), e1, [], []));
      SlotsAfter(op, e, a.expr, p1, p2);
      var b := CancelSlot(op, a.expr, p1, p2);
      SameChainTransitive(op, e, a.expr, b.expr);
      Counted(b.expr, a.count + b.count)
    else (SameChainReflexive(op, e); Counted(e, 0))
  }

  // ----- expr_eliminate_dups: both passes until nothing is counted -----

  function DupsRound(e: Expr): (r: Counted)
    ensures Size(r.expr) <= Size(e)
    ensures r.count == 0 ==> r.expr == e
    ensures r.count > 0 ==> !YnFree(r.expr)
  {
    if e.And? || e.Or? then
      var op := OpOf(e);
      var a := Dups1(op, e, [], []);
      var b := Dups2(op, a.expr, [], []);
      Counted(b.expr, a.count + b.count)
    else Counted(e, 0)
  }

  /** Each counted rewrite leaves a y or n behind, so removing those makes the next round smaller. */
  function EliminateDups(e: Expr): (r: Expr)
    ensures Size(r) <= Size(e)
    decreases Size(e)
  {
    var r := DupsRound(e);
    if r.count == 0 then r.expr
    else
      EliminateYnShrinksIffNotFree(r.expr);
      EliminateDups(EliminateYn(r.expr))
  }

  function EliminateDupsOpt(e: Option<Expr>): Option<Expr> {
    if e.None? then None else Some(EliminateDups(e.value))
  }

  // ----- values -----

  lemma JoinSlotsKeepsValue(op: Op, e: Expr, p1: Slot, p2: Slot, v: Valuation)
    requires InChain(op, e, p1) && InChain(op, e, p2) && p1 != p2
    requires !op.Is(At(op, e, p1)) && !op.Is(At(op, e, p2)) && Legal(v)
    ensures Eval(JoinSlots(op, e, p1, p2).expr, v) == Eval(e, v)
  {
    var e1, e2 := At(op, e, p1), At(op, e, p2);
    if Join(op, e1, e2).Some? {
      OperandsAreApart(op, e, p1, p2);
      JoinKeepsValue(op, e1, e2, v);
      EvalPutBoth(op, e, p1, p2, Join(op, e1, e2).value, v);
    }
  }

  lemma PutSameValue(op: Op, e: Expr, p: Slot, x: Expr, v: Valuation)
    requires InChain(op, e, p) && Legal(v) && Eval(x, v) == Eval(At(op, e, p), v)
    ensures Eval(Put(op, e, p, x), v) == Eval(e, v)
  {
    EvalPut(op, e, p, x, v);
    EvalAt(op, e, p, v);
  }

  /** Joining keeps the value for all three values of every symbol. */
  lemma {:induction false} Dups1KeepsValue(op: Op, e: Expr, p1: Slot, p2: Slot, v: Valuation)
    requires InChain(op, e, p1) && InChain(op, e, p2) && Legal(v)
    ensures Eval(Dups1(op, e, p1, p2).expr, v) == Eval(e, v)
    decreases Size(e), ChainSize(op, At(op, e, p1)) + ChainSize(op, At(op, e, p2)), 2
  {
    hide Eval, Legal;
    var e1, e2 := At(op, e, p1), At(op, e, p2);
    if op.Is(e1) {
      SlotExtends(op, e, p1, GoLeft);
      SlotExtends(op, e, p1, GoRight);
      var a := Dups1(op, e, p1 + [GoLeft], p2);
      SlotsAfter(op, e, a.expr, p1 + [GoRight], p2);
      Dups1KeepsValue(op, e, p1 + [GoLeft], p2, v);
      Dups1KeepsValue(op, a.expr, p1 + [GoRight], p2, v);
    } else if op.Is(e2) {
      SlotExtends(op, e, p2, GoLeft);
      SlotExtends(op, e, p2, GoRight);
      var a := Dups1(op, e, p1, p2 + [GoLeft]);
      SlotsAfter(op, e, a.expr, p1, p2 + [GoRight]);
      Dups1KeepsValue(op, e, p1, p2 + [GoLeft], v);
      Dups1KeepsValue(op, a.expr, p1, p2 + [GoRight], v);
    } else if p1 != p2 {
      var a := InnerDups1(op, e, p1);
      SlotsAfter(op, e, a.expr, p1, p2);
      if e1.And? || e1.Or? {
        Dups1KeepsValue(OpOf(e1), e1, [], [], v);
        PutSameValue(op, e, p1, Dups1(OpOf(e1), e1, [], []).expr, v);
      }
      JoinSlotsKeepsValue(op, a.expr, p1, p2, v);
    }
  }

  /** A chain that holds both a and the negation of a is the absorbing value, or m. */
  lemma AbsorbedOrMod(op: Op, whole: T.Tri, k1: T.Tri, k2: T.Tri, a: T.Tri, b: T.Tri)
    requires whole == op.Apply(k1, a) && whole == op.Apply(k2, op.Apply(T.Not(a), b))
    ensures whole == T.Mod || whole == (if op.OpAnd? then T.No else T.Yes)
  {
  }

  /** A cancellation keeps the value of its chain exactly where that value is not m. */
  lemma CancelIsExactIffNotMod(op: Op, e: Expr, p1: Slot, p2: Slot, v: Valuation)
    requires InChain(op, e, p1) && InChain(op, e, p2) && p1 != []
    requires !op.Is(At(op, e, p1)) && Legal(v)
    requires Cancels(op, At(op, e, p1), At(op, e, p2))
    ensures Eval(CancelSlot(op, e, p1, p2).expr, v) == Eval(e, v) <==> Eval(e, v) != T.Mod
  {
    var e1, e2 := At(op, e, p1), At(op, e, p2);
    var neg := Transform(Not(e1));
    var x := ExtractEq(op, neg, e2);
    TransformKeepsValue(Not(e1), v);
    ExtractEqFactors(op, neg, e2, v);
    UnitIsNeutral(op, v);
    EvalAt(op, e, p1, v);
    EvalAt(op, e, p2, v);
    EvalPut(op, e, p1, op.Absorber(), v);
    assert Eval(e2, v) == op.Apply(T.Not(Eval(e1, v)), Eval(x.snd, v));
    AbsorbedOrMod(op, Eval(e, v), Around(op, e, p1, v), Around(op, e, p2, v), Eval(e1, v), Eval(x.snd, v));
    assert LegalValue(ConstYes, v(ConstYes)) && LegalValue(ConstNo, v(ConstNo));
  }

  lemma {:induction false} Dups2Refines(op: Op, e: Expr, p1: Slot, p2: Slot, v: Valuation)
    requires InChain(op, e, p1) && InChain(op, e, p2) && Legal(v)
    ensures T.Refines(Eval(e, v), Eval(Dups2(op, e, p1, p2).expr, v))
    decreases Size(e), ChainSize(op, At(op, e, p1)) + ChainSize(op, At(op, e, p2)), 1
  {
    hide Eval, Legal, Dups2Operand;
    var e1, e2 := At(op, e, p1), At(op, e, p2);
    if op.Is(e1) {
      SlotExtends(op, e, p1, GoLeft);
      SlotExtends(op, e, p1, GoRight);
      var a := Dups2(op, e, p1 + [GoLeft], p2);
      SlotsAfter(op, e, a.expr, p1 + [GoRight], p2);
      Dups2Refines(op, e, p1 + [GoLeft], p2, v);
      Dups2Refines(op, a.expr, p1 + [GoRight], p2, v);
    } else if op.Is(e2) {
      SlotExtends(op, e, p2, GoLeft);
      SlotExtends(op, e, p2, GoRight);
      var a := Dups2(op, e, p1, p2 + [GoLeft]);
      SlotsAfter(op, e, a.expr, p1, p2 + [GoRight]);
      var b := Dups2(op, a.expr, p1, p2 + [GoRight]);
      SlotsAfter(op, e, a.expr, p1, p2);
      SlotsAfter(op, a.expr, b.expr, p1, p2);
      Dups2Refines(op, e, p1, p2 + [GoLeft], v);
      Dups2Refines(op, a.expr, p1, p2 + [GoRight], v);
      Dups2OperandRefines(op, b.expr, p1, p2, v);
    } else if p1 != p2 {
      Dups2OperandRefines(op, e, p1, p2, v);
    }
  }

  lemma {:induction false} Dups2OperandRefines(op: Op, e: Expr, p1: Slot, p2: Slot, v: Valuation)
    requires InChain(op, e, p1) && InChain(op, e, p2) && p1 != []
    requires !op.Is(At(op, e, p1)) && Legal(v)
    ensures T.Refines(Eval(e, v), Eval(Dups2Operand(op, e, p1, p2).expr, v))
    decreases Size(e), 0, 0
  {
    var e1 := At(op, e, p1);
    if e1.And? || e1.Or? {
      var inner := Dups2(OpOf(e1), e1, [], []);
      Dups2Refines(OpOf(e1), e1, [], [], v);
      PutRefines(op, e, p1, inner.expr, v);
      var a := PutCounted(op, e, p1, inner);
      SlotsAfter(op, e, a.expr, p1, p2);
      if Cancels(op, At(op, a.expr, p1), At(op, a.expr, p2)) {
        CancelIsExactIffNotMod(op, a.expr, p1, p2, v);
      }
    }
  }

  lemma DupsRoundRefines(e: Expr, v: Valuation)
    requires Legal(v)
    ensures T.Refines(Eval(e, v), Eval(DupsRound(e).expr, v))
  {
    if e.And? || e.Or? {
      var op := OpOf(e);
      Dups1KeepsValue(op, e, [], [], v);
      Dups2Refines(op, Dups1(op, e, [], []).expr, [], [], v);
    }
  }

  /** Under every valuation, a value n or y is kept; only an m can change. */
  lemma {:induction false} EliminateDupsRefines(e: Expr, v: Valuation)
    requires Legal(v)
    ensures T.Refines(Eval(e, v), Eval(EliminateDups(e), v))
    decreases Size(e)
  {
    var r := DupsRound(e);
    DupsRoundRefines(e, v);
    if r.count > 0 {
      EliminateYnShrinksIffNotFree(r.expr);
      EliminateYnKeepsValue(r.expr, v);
      EliminateDupsRefines(EliminateYn(r.expr), v);
    }
  }

  /** Without modules the value is kept exactly. */
  lemma EliminateDupsIsExactWithoutModules(e: Expr, v: Valuation)
    requires Legal(v) && TwoValued(v) && NoModLiteral(e)
    ensures Eval(EliminateDups(e), v) == Eval(e, v)
  {
    TwoValuedIsDefinite(e, v);
    EliminateDupsRefines(e, v);
  }

  /** No round finds operands to cancel: whatever was rewritten was joined. */
  predicate NothingCancels(e: Expr)
    decreases Size(e)
  {
    !(e.And? || e.Or?) ||
    var op := OpOf(e);
    var a := Dups1(op, e, [], []);
    && Dups2(op, a.expr, [], []).count == 0
    && (a.count > 0 ==> (EliminateYnShrinksIffNotFree(a.expr); NothingCancels(EliminateYn(a.expr))))
  }

  /** Then the value is kept under every legal valuation, m included. */
  lemma {:induction false} EliminateDupsIsExactIfNothingCancels(e: Expr, v: Valuation)
    requires Legal(v) && NothingCancels(e)
    ensures Eval(EliminateDups(e), v) == Eval(e, v)
    decreases Size(e)
  {
    hide Legal, Eval;
    if e.And? || e.Or? {
      var op := OpOf(e);
      var a := Dups1(op, e, [], []);
      Dups1KeepsValue(op, e, [], [], v);
      if a.count > 0 {
        EliminateYnShrinksIffNotFree(a.expr);
        EliminateYnKeepsValue(a.expr, v);
        EliminateDupsIsExactIfNothingCancels(EliminateYn(a.expr), v);
      }
    }
  }

  // ----- nothing is left to do -----

  /** A second run finds nothing. */
  lemma {:induction false} EliminateDupsIsStable(e: Expr)
    ensures DupsRound(EliminateDups(e)) == Counted(EliminateDups(e), 0)
    ensures EliminateDups(EliminateDups(e)) == EliminateDups(e)
    decreases Size(e)
  {
    var r := DupsRound(e);
    if r.count > 0 {
      EliminateYnShrinksIffNotFree(r.expr);
      EliminateDupsIsStable(EliminateYn(r.expr));
    }
  }

  /** Either nothing was found, or the y and n left behind have been removed. */
  lemma {:induction false} EliminateDupsChangedIsYnFree(e: Expr)
    ensures EliminateDups(e) == e || YnFree(EliminateDups(e))
    decreases Size(e)
  {
    var r := DupsRound(e);
    if r.count > 0 {
      EliminateYnShrinksIffNotFree(r.expr);
      EliminateYnIsYnFree(r.expr);
      EliminateDupsChangedIsYnFree(EliminateYn(r.expr));
    }
  }

  predicate IsPrefix(p: Slot, q: Slot) {
    |p| <= |q| && q[..|p|] == p
  }

  lemma {:induction false} NextStep(op: Op, e: Expr, p: Slot, q: Slot)
    requires InChain(op, e, q) && IsPrefix(p, q) && !op.Is(At(op, e, q))
    ensures InChain(op, e, p)
    ensures op.Is(At(op, e, p)) ==> |p| < |q| && IsPrefix(p + [q[|p|]], q)
    ensures !op.Is(At(op, e, p)) ==> p == q
  {
    if p != [] {
      assert q[1..][..|p| - 1] == p[1..];
      NextStep(op, Child(e, q[0]), p[1..], q[1..]);
      assert q == [q[0]] + q[1..] && p == [p[0]] + p[1..];
    } else if op.Is(e) {
      assert q != [];
      assert q[..1] == [q[0]];
    }
  }

  /** A quiet pass over a chain is quiet on both sides of it. */
  lemma Dups1QuietFirst(op: Op, e: Expr, p1: Slot, p2: Slot, s: Step)
    requires InChain(op, e, p1) && InChain(op, e, p2) && op.Is(At(op, e, p1))
    requires Dups1(op, e, p1, p2).count == 0
    ensures InChain(op, e, p1 + [s]) && Dups1(op, e, p1 + [s], p2).count == 0
    ensures ChainSize(op, At(op, e, p1 + [s])) < ChainSize(op, At(op, e, p1))
  {
    SlotExtends(op, e, p1, GoLeft);
    SlotExtends(op, e, p1, GoRight);
  }

  lemma Dups1QuietSecond(op: Op, e: Expr, p1: Slot, p2: Slot, s: Step)
    requires InChain(op, e, p1) && InChain(op, e, p2) && !op.Is(At(op, e, p1)) && op.Is(At(op, e, p2))
    requires Dups1(op, e, p1, p2).count == 0
    ensures InChain(op, e, p2 + [s]) && Dups1(op, e, p1, p2 + [s]).count == 0
    ensures ChainSize(op, At(op, e, p2 + [s])) < ChainSize(op, At(op, e, p2))
  {
    SlotExtends(op, e, p2, GoLeft);
    SlotExtends(op, e, p2, GoRight);
  }

  lemma Dups2QuietFirst(op: Op, e: Expr, p1: Slot, p2: Slot, s: Step)
    requires InChain(op, e, p1) && InChain(op, e, p2) && op.Is(At(op, e, p1))
    requires Dups2(op, e, p1, p2).count == 0
    ensures InChain(op, e, p1 + [s]) && Dups2(op, e, p1 + [s], p2).count == 0
    ensures ChainSize(op, At(op, e, p1 + [s])) < ChainSize(op, At(op, e, p1))
  {
    SlotExtends(op, e, p1, GoLeft);
    SlotExtends(op, e, p1, GoRight);
  }

  lemma Dups2QuietSecond(op: Op, e: Expr, p1: Slot, p2: Slot, s: Step)
    requires InChain(op, e, p1) && InChain(op, e, p2) && !op.Is(At(op, e, p1)) && op.Is(At(op, e, p2))
    requires Dups2(op, e, p1, p2).count == 0
    ensures InChain(op, e, p2 + [s]) && Dups2(op, e, p1, p2 + [s]).count == 0
    ensures ChainSize(op, At(op, e, p2 + [s])) < ChainSize(op, At(op, e, p2))
  {
    SlotExtends(op, e, p2, GoLeft);
    SlotExtends(op, e, p2, GoRight);
  }

  /** A first pass that counted nothing has looked at every pair of operands below its slots. */
  lemma {:induction false} Dups1LeavesNoJoin(op: Op, e: Expr, p1: Slot, p2: Slot, q1: Slot, q2: Slot)
    requires InChain(op, e, q1) && InChain(op, e, q2) && q1 != q2
    requires !op.Is(At(op, e, q1)) && !op.Is(At(op, e, q2))
    requires IsPrefix(p1, q1) && IsPrefix(p2, q2)
    requires InChain(op, e, p1) && InChain(op, e, p2) && Dups1(op, e, p1, p2).count == 0
    ensures Join(op, At(op, e, q1), At(op, e, q2)).None?
    ensures var o := At(op, e, q1); o.And? || o.Or? ==> Dups1(OpOf(o), o, [], []).count == 0
    decreases ChainSize(op, At(op, e, p1)) + ChainSize(op, At(op, e, p2))
  {
    NextStep(op, e, p1, q1);
    NextStep(op, e, p2, q2);
    if op.Is(At(op, e, p1)) {
      Dups1QuietFirst(op, e, p1, p2, q1[|p1|]);
      Dups1LeavesNoJoin(op, e, p1 + [q1[|p1|]], p2, q1, q2);
    } else if op.Is(At(op, e, p2)) {
      Dups1QuietSecond(op, e, p1, p2, q2[|p2|]);
      Dups1LeavesNoJoin(op, e, p1, p2 + [q2[|p2|]], q1, q2);
    } else {
      Dups1OperandLeavesNoJoin(op, e, q1, q2);
    }
  }

  lemma Dups1OperandLeavesNoJoin(op: Op, e: Expr, p1: Slot, p2: Slot)
    requires InChain(op, e, p1) && InChain(op, e, p2) && p1 != p2 && p1 != []
    requires !op.Is(At(op, e, p1)) && !op.Is(At(op, e, p2))
    requires Dups1Operand(op, e, p1, p2).count == 0
    ensures Join(op, At(op, e, p1), At(op, e, p2)).None?
    ensures var o := At(op, e, p1); o.And? || o.Or? ==> Dups1(OpOf(o), o, [], []).count == 0
  {
    assert InnerDups1(op, e, p1).count == 0;
  }

  /** The same for the second pass and cancellations. */
  lemma {:induction false} Dups2LeavesNoCancel(op: Op, e: Expr, p1: Slot, p2: Slot, q1: Slot, q2: Slot)
    requires InChain(op, e, q1) && InChain(op, e, q2) && q1 != q2
    requires !op.Is(At(op, e, q1)) && !op.Is(At(op, e, q2))
    requires IsPrefix(p1, q1) && IsPrefix(p2, q2)
    requires InChain(op, e, p1) && InChain(op, e, p2) && Dups2(op, e, p1, p2).count == 0
    ensures var o := At(op, e, q1); o.And? || o.Or? ==> !Cancels(op, o, At(op, e, q2))
    decreases ChainSize(op, At(op, e, p1)) + ChainSize(op, At(op, e, p2))
  {
    NextStep(op, e, p1, q1);
    NextStep(op, e, p2, q2);
    if op.Is(At(op, e, p1)) {
      Dups2QuietFirst(op, e, p1, p2, q1[|p1|]);
      Dups2LeavesNoCancel(op, e, p1 + [q1[|p1|]], p2, q1, q2);
    } else if op.Is(At(op, e, p2)) {
      Dups2QuietSecond(op, e, p1, p2, q2[|p2|]);
      Dups2LeavesNoCancel(op, e, p1, p2 + [q2[|p2|]], q1, q2);
    } else {
      Dups2OperandLeavesNoCancel(op, e, q1, q2);
    }
  }

  lemma Dups2OperandLeavesNoCancel(op: Op, e: Expr, p1: Slot, p2: Slot)
    requires InChain(op, e, p1) && InChain(op, e, p2) && p1 != []
    requires !op.Is(At(op, e, p1)) && Dups2Operand(op, e, p1, p2).count == 0
    ensures var o := At(op, e, p1); o.And? || o.Or? ==> !Cancels(op, o, At(op, e, p2))
    ensures var o := At(op, e, p1); o.And? || o.Or? ==> Dups2(OpOf(o), o, [], []).count == 0
  {
  }

  /** Because of the fall-through, no operand is cancelled by its whole chain either. */
  lemma {:induction false} Dups2LeavesNoCancelByWhole(op: Op, e: Expr, p1: Slot, q1: Slot)
    requires op.Is(e) && InChain(op, e, q1) && !op.Is(At(op, e, q1))
    requires InChain(op, e, p1) && IsPrefix(p1, q1) && Dups2(op, e, p1, []).count == 0
    ensures var o := At(op, e, q1); o.And? || o.Or? ==> !Cancels(op, o, e) && Dups2(OpOf(o), o, [], []).count == 0
    decreases ChainSize(op, At(op, e, p1))
  {
    NextStep(op, e, p1, q1);
    if op.Is(At(op, e, p1)) {
      Dups2QuietFirst(op, e, p1, [], q1[|p1|]);
      Dups2LeavesNoCancelByWhole(op, e, p1 + [q1[|p1|]], q1);
    } else {
      SlotExtends(op, e, [], GoLeft);
      SlotExtends(op, e, [], GoRight);
      Dups2OperandLeavesNoCancel(op, e, q1, []);
    }
  }

  /** In the result no two operands of the top chain can be joined, and none is cancelled by another
      or by the whole. */
  lemma EliminateDupsIsReduced(e: Expr, q1: Slot, q2: Slot)
    requires var r := EliminateDups(e); r.And? || r.Or?
    requires var r := EliminateDups(e); var op := OpOf(r);
      InChain(op, r, q1) && InChain(op, r, q2) && q1 != q2 && !op.Is(At(op, r, q1)) && !op.Is(At(op, r, q2))
    ensures var r := EliminateDups(e); var op := OpOf(r);
      && Join(op, At(op, r, q1), At(op, r, q2)).None?
      && (At(op, r, q1).And? || At(op, r, q1).Or? ==>
            !Cancels(op, At(op, r, q1), At(op, r, q2)) && !Cancels(op, At(op, r, q1), r))
  {
    var r := EliminateDups(e);
    var op := OpOf(r);
    EliminateDupsIsStable(e);
    assert Dups1(op, r, [], []).count == 0 && Dups1(op, r, [], []).expr == r;
    Dups1LeavesNoJoin(op, r, [], [], q1, q2);
    Dups2LeavesNoCancel(op, r, [], [], q1, q2);
    Dups2LeavesNoCancelByWhole(op, r, [], q1);
  }
}
