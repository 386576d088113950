/** Where expr_eliminate_dups stops being exact: a run, for both operators, that settles an m. */
module ExprDupsBoundary {
  import T = Tristate
  import opened Options
  import opened Expr
  import opened ExprEq
  import opened ExprJoin
  import opened ExprSlots
  import opened ExprTransform
  import opened ExprDups

  function Dual(op: Op): Op {
    if op == OpAnd then OpOr else OpAnd
  }

  /** Two different tristate symbols. */
  predicate Distinct(a: Expr, b: Expr) {
    a.Sym? && b.Sym? && a.sym.Type() == Tristate && b.sym.Type() == Tristate && a != b
  }

  /** a || b under AND, a && b under OR. */
  function Either(op: Op, a: Expr, b: Expr): Expr {
    Dual(op).Make(a, b)
  }

  function Neither(op: Op, a: Expr, b: Expr): Expr {
    op.Make(Not(a), Not(b))
  }

  /** (a || b) && (!a && !b), or (a && b) || (!a || !b). */
  function Complementary(op: Op, a: Expr, b: Expr): Expr {
    op.Make(Either(op, a, b), Neither(op, a, b))
  }

  function Cancelled(op: Op, a: Expr, b: Expr): Expr {
    op.Make(op.Absorber(), Neither(op, a, b))
  }

  lemma ComplementaryOperands(op: Op, a: Expr, b: Expr)
    requires Distinct(a, b)
    ensures InChain(op, Complementary(op, a, b), [GoLeft])
    ensures At(op, Complementary(op, a, b), [GoLeft]) == Either(op, a, b)
    ensures InChain(op, Complementary(op, a, b), [GoRight])
    ensures At(op, Complementary(op, a, b), [GoRight]) == Neither(op, a, b)
    ensures InChain(op, Complementary(op, a, b), [GoRight, GoLeft])
    ensures At(op, Complementary(op, a, b), [GoRight, GoLeft]) == Not(a)
    ensures InChain(op, Complementary(op, a, b), [GoRight, GoRight])
    ensures At(op, Complementary(op, a, b), [GoRight, GoRight]) == Not(b)
  {
    SlotExtends(op, Complementary(op, a, b), [], GoLeft);
    SlotExtends(op, Complementary(op, a, b), [], GoRight);
    assert [] + [GoLeft] == [GoLeft] && [] + [GoRight] == [GoRight];
    SlotExtends(op, Complementary(op, a, b), [GoRight], GoLeft);
    SlotExtends(op, Complementary(op, a, b), [GoRight], GoRight);
    assert [GoRight] + [GoLeft] == [GoRight, GoLeft] && [GoRight] + [GoRight] == [GoRight, GoRight];
  }

  lemma ComplementaryJoins(op: Op, a: Expr, b: Expr)
    requires Distinct(a, b)
    ensures forall x, y :: x in {Either(op, a, b), Not(a), Not(b)} && y in {Either(op, a, b), Not(a), Not(b)} && x != y
              ==> Join(op, x, y).None?
    ensures Join(Dual(op), a, b).None? && Join(Dual(op), b, a).None?
  {
    assert !Eq(a, b) && !Eq(b, a);
    assert !Eq(Not(a), Not(b)) && !Eq(Not(b), Not(a));
  }

  /** In a chain whose operands cannot be joined, and are single, the first pass does nothing. */
  lemma QuietPair(op: Op, e: Expr, p1: Slot, p2: Slot)
    requires InChain(op, e, p1) && InChain(op, e, p2)
    requires !op.Is(At(op, e, p1)) && !op.Is(At(op, e, p2))
    requires var e1 := At(op, e, p1); e1.And? || e1.Or? ==> Dups1(OpOf(e1), e1, [], []).count == 0
    requires p1 != p2 ==> Join(op, At(op, e, p1), At(op, e, p2)).None?
    ensures Dups1(op, e, p1, p2) == Counted(e, 0)
  {
    if p1 != p2 {
      assert p1 != [];
      assert InnerDups1(op, e, p1) == Counted(e, 0);
      assert Dups1Operand(op, e, p1, p2) == Counted(e, 0);
    }
  }

  lemma QuietChain1(op: Op, e: Expr, p1: Slot, p2: Slot)
    requires InChain(op, e, p1) && InChain(op, e, p2) && op.Is(At(op, e, p1))
    requires InChain(op, e, p1 + [GoLeft]) && Dups1(op, e, p1 + [GoLeft], p2) == Counted(e, 0)
    requires InChain(op, e, p1 + [GoRight]) && Dups1(op, e, p1 + [GoRight], p2) == Counted(e, 0)
    ensures Dups1(op, e, p1, p2) == Counted(e, 0)
  {
  }

  lemma QuietChain2(op: Op, e: Expr, p1: Slot, p2: Slot)
    requires InChain(op, e, p1) && InChain(op, e, p2) && !op.Is(At(op, e, p1)) && op.Is(At(op, e, p2))
    requires InChain(op, e, p2 + [GoLeft]) && Dups1(op, e, p1, p2 + [GoLeft]) == Counted(e, 0)
    requires InChain(op, e, p2 + [GoRight]) && Dups1(op, e, p1, p2 + [GoRight]) == Counted(e, 0)
    ensures Dups1(op, e, p1, p2) == Counted(e, 0)
  {
  }

  lemma InnerQuiet(op: Op, a: Expr, b: Expr)
    requires Distinct(a, b)
    ensures Dups1(Dual(op), Either(op, a, b), [], []) == Counted(Either(op, a, b), 0)
    ensures Dups2(Dual(op), Either(op, a, b), [], []) == Counted(Either(op, a, b), 0)
  {
    ComplementaryJoins(op, a, b);
    var e := Either(op, a, b);
    SlotExtends(Dual(op), e, [], GoLeft);
    SlotExtends(Dual(op), e, [], GoRight);
    var l, r: Slot := [] + [GoLeft], [] + [GoRight];
    assert l != r by { assert l[0] != r[0]; }
    QuietPair(Dual(op), e, l, l);
    QuietPair(Dual(op), e, l, r);
    QuietPair(Dual(op), e, r, l);
    QuietPair(Dual(op), e, r, r);
    QuietChain2(Dual(op), e, l, []); QuietChain2(Dual(op), e, r, []);
    QuietChain1(Dual(op), e, [], []);
    hide Dups1, Dups2;
    QuietSingle2(Dual(op), e, l, []);
    QuietSingle2(Dual(op), e, r, []);
    QuietFirst2(Dual(op), e, [], []);
  }

  predicate IsOperandSlot(p: Slot) {
    p == [GoLeft] || p == [GoRight, GoLeft] || p == [GoRight, GoRight]
  }

  lemma FirstPassPair(op: Op, a: Expr, b: Expr, p: Slot, q: Slot)
    requires Distinct(a, b)
    requires IsOperandSlot(p) && IsOperandSlot(q)
    ensures InChain(op, Complementary(op, a, b), p) && InChain(op, Complementary(op, a, b), q)
    ensures !op.Is(At(op, Complementary(op, a, b), p))
    ensures Dups1(op, Complementary(op, a, b), p, q) == Counted(Complementary(op, a, b), 0)
  {
    ComplementaryJoins(op, a, b);
    ComplementaryOperands(op, a, b);
    InnerQuiet(op, a, b);
    QuietPair(op, Complementary(op, a, b), p, q);
  }

  lemma FirstPassAgainstRight(op: Op, a: Expr, b: Expr, p: Slot)
    requires Distinct(a, b)
    requires IsOperandSlot(p)
    ensures InChain(op, Complementary(op, a, b), p) && InChain(op, Complementary(op, a, b), [GoRight])
    ensures Dups1(op, Complementary(op, a, b), p, [GoRight]) == Counted(Complementary(op, a, b), 0)
  {
    ComplementaryOperands(op, a, b);
    var r: Slot := [GoRight];
    var rl, rr := r + [GoLeft], r + [GoRight];
    assert rl == [GoRight, GoLeft] && rr == [GoRight, GoRight];
    FirstPassPair(op, a, b, p, rl);
    FirstPassPair(op, a, b, p, rr);
    QuietChain2(op, Complementary(op, a, b), p, r);
  }

  lemma FirstPassOperand(op: Op, a: Expr, b: Expr, p: Slot)
    requires Distinct(a, b)
    requires IsOperandSlot(p)
    ensures InChain(op, Complementary(op, a, b), p)
    ensures Dups1(op, Complementary(op, a, b), p, []) == Counted(Complementary(op, a, b), 0)
  {
    var top: Slot := [];
    var l, r := top + [GoLeft], top + [GoRight];
    assert l == [GoLeft] && r == [GoRight];
    FirstPassPair(op, a, b, p, l);
    FirstPassAgainstRight(op, a, b, p);
    QuietChain2(op, Complementary(op, a, b), p, top);
  }

  lemma FirstPassRight(op: Op, a: Expr, b: Expr)
    requires Distinct(a, b)
    ensures InChain(op, Complementary(op, a, b), [GoRight])
    ensures Dups1(op, Complementary(op, a, b), [GoRight], []) == Counted(Complementary(op, a, b), 0)
  {
    ComplementaryOperands(op, a, b);
    var r: Slot := [GoRight];
    var rl, rr := r + [GoLeft], r + [GoRight];
    assert rl == [GoRight, GoLeft] && rr == [GoRight, GoRight];
    FirstPassOperand(op, a, b, rl);
    FirstPassOperand(op, a, b, rr);
    QuietChain1(op, Complementary(op, a, b), r, []);
  }

  lemma FirstPassIsQuiet(op: Op, a: Expr, b: Expr)
    requires Distinct(a, b)
    ensures Dups1(op, Complementary(op, a, b), [], []) == Counted(Complementary(op, a, b), 0)
  {
    var top: Slot := [];
    var l, r := top + [GoLeft], top + [GoRight];
    assert l == [GoLeft] && r == [GoRight];
    FirstPassOperand(op, a, b, l);
    FirstPassRight(op, a, b);
    QuietChain1(op, Complementary(op, a, b), top, top);
  }

  lemma ComplementTransforms(op: Op, a: Expr, b: Expr)
    requires Distinct(a, b)
    ensures Transform(Not(Either(op, a, b))) == Neither(op, a, b)
    ensures Transform(Not(Not(a))) == a && Transform(Not(Not(b))) == b
  {
    var e, n := Either(op, a, b), Neither(op, a, b);
    assert Transform(e) == e;
    assert DeMorgan(e) == n;
    assert Transform(Not(a)) == Not(a) && Transform(Not(b)) == Not(b);
    if op == OpAnd {
      assert Transform(And(Not(a), Not(b))) == And(Not(a), Not(b));
    } else {
      assert Transform(Or(Not(a), Not(b))) == Or(Not(a), Not(b));
    }
  }

  lemma ExtractHalves(op: Op, x: Expr, y: Expr)
    requires x.Not? && y.Not? && Eq(x, x) && Eq(y, y) && !Eq(x, y) && !Eq(y, x)
    ensures ExtractEqIn(op, None, op.Make(x, y), op.Make(x, y))
         == Extracted(Some(op.Make(x, y)), op.Make(op.Unit(), op.Unit()), op.Make(op.Unit(), op.Unit()))
    ensures ExtractEqIn(op, None, op.Make(x, y), x) == Extracted(Some(x), op.Make(op.Unit(), y), op.Unit())
    ensures ExtractEqIn(op, None, op.Make(x, y), y) == Extracted(Some(y), op.Make(x, op.Unit()), op.Unit())
  {
    var u := op.Unit();
    assert !Eq(u, x) && !Eq(u, y) && !Eq(x, u) && !Eq(y, u);
    assert ExtractEqIn(op, None, x, op.Make(x, y)) == Extracted(Some(x), u, op.Make(u, y));
    assert ExtractEqIn(op, Some(x), y, op.Make(u, y)) == Extracted(Some(op.Make(x, y)), u, op.Make(u, u));
    assert ExtractEqIn(op, None, op.Make(x, y), x) == Extracted(Some(x), op.Make(u, y), u);
    assert ExtractEqIn(op, None, op.Make(x, y), y) == Extracted(Some(y), op.Make(x, u), u);
  }

  lemma ComplementaryCancels(op: Op, a: Expr, b: Expr)
    requires Distinct(a, b)
    ensures Transform(Not(Either(op, a, b))) == Neither(op, a, b)
    ensures Cancels(op, Either(op, a, b), Neither(op, a, b))
    ensures !Cancels(op, Either(op, a, b), Not(a)) && !Cancels(op, Either(op, a, b), Not(b))
  {
    ComplementTransforms(op, a, b);
    hide Transform;
    var na, nb := Not(a), Not(b);
    assert Eq(na, na) && Eq(nb, nb) && !Eq(na, nb) && !Eq(nb, na);
    ExtractHalves(op, na, nb);
    hide Eq, ExtractEqIn;
    assert EliminateYn(op.Make(op.Unit(), op.Unit())) == op.Unit();
    assert EliminateYn(op.Make(op.Unit(), nb)) == nb && EliminateYn(op.Make(na, op.Unit())) == na;
  }

  lemma CancelledOperands(op: Op, a: Expr, b: Expr)
    requires Distinct(a, b)
    ensures InChain(op, Cancelled(op, a, b), [GoLeft]) && At(op, Cancelled(op, a, b), [GoLeft]) == op.Absorber()
    ensures InChain(op, Cancelled(op, a, b), [GoRight]) && At(op, Cancelled(op, a, b), [GoRight]) == Neither(op, a, b)
  {
    SlotExtends(op, Cancelled(op, a, b), [], GoLeft);
    SlotExtends(op, Cancelled(op, a, b), [], GoRight);
    assert [] + [GoLeft] == [GoLeft] && [] + [GoRight] == [GoRight];
  }

  lemma SecondPassOperand(op: Op, a: Expr, b: Expr, q: Slot)
    requires Distinct(a, b)
    requires q in {[GoRight, GoLeft], [GoRight, GoRight], [GoRight]}
    ensures InChain(op, Complementary(op, a, b), [GoLeft]) && !op.Is(At(op, Complementary(op, a, b), [GoLeft]))
    ensures InChain(op, Complementary(op, a, b), q)
    ensures Dups2Operand(op, Complementary(op, a, b), [GoLeft], q)
         == if q == [GoRight] then Counted(Cancelled(op, a, b), 1) else Counted(Complementary(op, a, b), 0)
  {
    ComplementaryOperands(op, a, b);
    SecondPassCancelSlot(op, a, b, q);
    InnerQuiet(op, a, b);
    QuietOperand(op, Complementary(op, a, b), [GoLeft], q);
  }

  lemma SecondPassCancelSlot(op: Op, a: Expr, b: Expr, q: Slot)
    requires Distinct(a, b)
    requires q in {[GoRight, GoLeft], [GoRight, GoRight], [GoRight]}
    ensures InChain(op, Complementary(op, a, b), [GoLeft]) && !op.Is(At(op, Complementary(op, a, b), [GoLeft]))
    ensures InChain(op, Complementary(op, a, b), q)
    ensures CancelSlot(op, Complementary(op, a, b), [GoLeft], q)
         == if q == [GoRight] then Counted(Cancelled(op, a, b), 1) else Counted(Complementary(op, a, b), 0)
  {
    ComplementaryOperands(op, a, b);
    ComplementaryCancels(op, a, b);
    assert Put(op, Complementary(op, a, b), [GoLeft], op.Absorber()) == Cancelled(op, a, b);
    assert [GoRight] != [GoRight, GoLeft] && [GoRight] != [GoRight, GoRight] by {
      assert |[GoRight]| == 1 && |[GoRight, GoLeft]| == 2 && |[GoRight, GoRight]| == 2;
    }
  }

  lemma QuietOperand(op: Op, e: Expr, p: Slot, q: Slot)
    requires InChain(op, e, p) && InChain(op, e, q) && p != [] && !op.Is(At(op, e, p))
    requires var e1 := At(op, e, p); (e1.And? || e1.Or?) && Dups2(OpOf(e1), e1, [], []) == Counted(e1, 0)
    ensures Dups2Operand(op, e, p, q) == CancelSlot(op, e, p, q)
  {
    PutAtSame(op, e, p, At(op, e, p));
  }

  lemma SecondPassRight(op: Op, a: Expr, b: Expr)
    requires Distinct(a, b)
    ensures InChain(op, Complementary(op, a, b), [GoLeft]) && InChain(op, Complementary(op, a, b), [GoRight])
    ensures Dups2(op, Complementary(op, a, b), [GoLeft], [GoRight]) == Counted(Cancelled(op, a, b), 1)
  {
    ComplementaryOperands(op, a, b);
    var l, r: Slot := [GoLeft], [GoRight];
    var rl, rr := r + [GoLeft], r + [GoRight];
    assert rl == [GoRight, GoLeft] && rr == [GoRight, GoRight];
    SecondPassOperand(op, a, b, rl);
    SecondPassOperand(op, a, b, rr);
    SecondPassOperand(op, a, b, r);
    assert l != rl && l != rr by { assert |l| == 1 && |rl| == 2; }
    assert Dups2(op, Complementary(op, a, b), l, rl) == Counted(Complementary(op, a, b), 0);
    assert Dups2(op, Complementary(op, a, b), l, rr) == Counted(Complementary(op, a, b), 0);
  }

  lemma SecondPassLeft(op: Op, a: Expr, b: Expr)
    requires Distinct(a, b)
    ensures InChain(op, Complementary(op, a, b), [GoLeft])
    ensures Dups2(op, Complementary(op, a, b), [GoLeft], []) == Counted(Cancelled(op, a, b), 1)
  {
    ComplementaryOperands(op, a, b);
    CancelledOperands(op, a, b);
    SecondPassRight(op, a, b);
    var top: Slot := [];
    var l, r := top + [GoLeft], top + [GoRight];
    assert l == [GoLeft] && r == [GoRight];
    assert Dups2(op, Complementary(op, a, b), l, l) == Counted(Complementary(op, a, b), 0);
    assert Dups2Operand(op, Cancelled(op, a, b), l, top) == Counted(Cancelled(op, a, b), 0);
  }

  lemma QuietFirst2(op: Op, e: Expr, p1: Slot, p2: Slot)
    requires InChain(op, e, p1) && InChain(op, e, p2) && op.Is(At(op, e, p1))
    requires InChain(op, e, p1 + [GoLeft]) && Dups2(op, e, p1 + [GoLeft], p2) == Counted(e, 0)
    requires InChain(op, e, p1 + [GoRight]) && Dups2(op, e, p1 + [GoRight], p2) == Counted(e, 0)
    ensures Dups2(op, e, p1, p2) == Counted(e, 0)
  {
  }

  /** The second pass does nothing for an operand that is no AND or OR. */
  lemma {:induction false} QuietSingle2(op: Op, e: Expr, p1: Slot, p2: Slot)
    requires InChain(op, e, p1) && InChain(op, e, p2) && p1 != []
    requires var e1 := At(op, e, p1); !e1.And? && !e1.Or?
    ensures Dups2(op, e, p1, p2) == Counted(e, 0)
    decreases ChainSize(op, At(op, e, p2))
  {
    if op.Is(At(op, e, p2)) {
      SlotExtends(op, e, p2, GoLeft);
      SlotExtends(op, e, p2, GoRight);
      QuietSingle2(op, e, p1, p2 + [GoLeft]);
      QuietSingle2(op, e, p1, p2 + [GoRight]);
    }
  }

  lemma SecondPassIsQuietOn(op: Op, a: Expr, b: Expr, q: Slot)
    requires Distinct(a, b) && InChain(op, Cancelled(op, a, b), q)
    ensures InChain(op, Cancelled(op, a, b), [GoRight])
    ensures Dups2(op, Cancelled(op, a, b), [GoRight], q) == Counted(Cancelled(op, a, b), 0)
  {
    var e := Cancelled(op, a, b);
    CancelledOperands(op, a, b);
    SlotExtends(op, e, [GoRight], GoLeft);
    SlotExtends(op, e, [GoRight], GoRight);
    hide Dups2;
    QuietSingle2(op, e, [GoRight] + [GoLeft], q);
    QuietSingle2(op, e, [GoRight] + [GoRight], q);
    QuietFirst2(op, e, [GoRight], q);
  }

  lemma SecondPassCancels(op: Op, a: Expr, b: Expr)
    requires Distinct(a, b)
    ensures Dups2(op, Complementary(op, a, b), [], []) == Counted(Cancelled(op, a, b), 1)
  {
    CancelledOperands(op, a, b);
    SecondPassLeft(op, a, b);
    var top: Slot := [];
    var l, r := top + [GoLeft], top + [GoRight];
    assert l == [GoLeft] && r == [GoRight];
    SlotsAfter(op, Complementary(op, a, b), Cancelled(op, a, b), r, top);
    SecondPassIsQuietOn(op, a, b, top);
  }

  lemma BothPasses(op: Op, a: Expr, b: Expr)
    requires Distinct(a, b)
    ensures DupsRound(Complementary(op, a, b)) == Counted(Cancelled(op, a, b), 1)
  {
    FirstPassIsQuiet(op, a, b);
    SecondPassCancels(op, a, b);
  }

  lemma ComplementaryIsEliminated(op: Op, a: Expr, b: Expr)
    requires Distinct(a, b)
    ensures EliminateDups(Complementary(op, a, b)) == op.Absorber()
  {
    BothPasses(op, a, b);
    assert EliminateYn(Cancelled(op, a, b)) == op.Absorber();
    assert EliminateDups(op.Absorber()) == op.Absorber() by {
      assert DupsRound(op.Absorber()) == Counted(op.Absorber(), 0);
    }
  }

  /** The whole expression is m exactly when the less settled half of it is. */
  lemma ComplementaryValue(op: Op, a: Expr, b: Expr, v: Valuation)
    requires Distinct(a, b) && Legal(v)
    ensures var x := Eval(Complementary(op, a, b), v);
      x == (if Dual(op).Apply(Eval(a, v), Eval(b, v)) == T.Mod then T.Mod else Eval(op.Absorber(), v))
  {
    assert LegalValue(ConstYes, v(ConstYes)) && LegalValue(ConstNo, v(ConstNo));
    EvalChain(Dual(op), Either(op, a, b), v);
    EvalChain(op, Neither(op, a, b), v);
    EvalChain(op, Complementary(op, a, b), v);
  }

  /** expr_eliminate_dups makes n of (a || b) && !a && !b, and y of (a && b) || !a || !b. For every legal
      valuation that is the right value if and only if the expression was not m. */
  lemma ModulesAreSettled(op: Op, a: Expr, b: Expr, v: Valuation)
    requires Distinct(a, b) && Legal(v)
    ensures EliminateDups(Complementary(op, a, b)) == op.Absorber()
    ensures Eval(EliminateDups(Complementary(op, a, b)), v) == Eval(Complementary(op, a, b), v)
       <==> Eval(Complementary(op, a, b), v) != T.Mod
  {
    assert LegalValue(ConstYes, v(ConstYes)) && LegalValue(ConstNo, v(ConstNo));
    ComplementaryIsEliminated(op, a, b);
    ComplementaryValue(op, a, b, v);
  }

  /** One symbol is m; every other bool or tristate is `rest`. */
  function OneModule(m: Symbol, rest: bool): Valuation {
    (s: Symbol) =>
      match s
      case ConstYes => Value(T.Yes, "y")
      case ConstMod => Value(T.Mod, "m")
      case ConstNo => Value(T.No, "n")
      case Quoted(text) => Value(T.No, text)
      case Config(id, ty) =>
        if ty != Boolean && ty != Tristate then Value(T.No, "")
        else if s == m then Value(T.Mod, "m")
        else if rest then Value(T.Yes, "y")
        else Value(T.No, "n")
  }

  lemma OneModuleIsLegal(m: Symbol, rest: bool)
    requires m.Type() == Tristate
    ensures Legal(OneModule(m, rest)) && OneModule(m, rest)(m).tri == T.Mod
    ensures forall s: Symbol :: s != m && s.Type() == Tristate ==> OneModule(m, rest)(s).tri == T.FromBool(rest)
  {
  }

  /** a = m, b = n: (a || b) && !a && !b is m and becomes n. */
  lemma ModulesCanBeLost(a: Expr, b: Expr)
    requires Distinct(a, b)
    ensures var e, v := Complementary(OpAnd, a, b), OneModule(a.sym, false);
      Legal(v) && Eval(e, v) == T.Mod && Eval(EliminateDups(e), v) == T.No
  {
    var v := OneModule(a.sym, false);
    OneModuleIsLegal(a.sym, false);
    hide OneModule, EliminateDups;
    ComplementaryIsEliminated(OpAnd, a, b);
    ComplementaryValue(OpAnd, a, b, v);
    assert LegalValue(ConstNo, v(ConstNo));
  }

  /** a = m, b = y: (a && b) || !a || !b is m and becomes y. */
  lemma ModulesCanBecomeYes(a: Expr, b: Expr)
    requires Distinct(a, b)
    ensures var e, v := Complementary(OpOr, a, b), OneModule(a.sym, true);
      Legal(v) && Eval(e, v) == T.Mod && Eval(EliminateDups(e), v) == T.Yes
  {
    var v := OneModule(a.sym, true);
    OneModuleIsLegal(a.sym, true);
    hide OneModule, EliminateDups;
    ComplementaryIsEliminated(OpOr, a, b);
    ComplementaryValue(OpOr, a, b, v);
    assert LegalValue(ConstYes, v(ConstYes));
  }
}
