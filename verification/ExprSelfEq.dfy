/** expr_eq on one expression: when it equals itself. */
module ExprSelfEq {
  import opened Expr
  import opened ExprEq

  // ----- the condition -----

  /** y, n and the quoted constants: SameGuardedConstant leaves them where they stand. */
  predicate IsGuarded(e: Expr) {
    e.Sym? && e.sym.HasYesOrNoFlag()
  }

  predicate IsQuoted(e: Expr) {
    e.Sym? && e.sym.Quoted?
  }

  /** What a chain keeps of itself: an operand that equals itself and is not guarded leaves a unit behind. */
  function Kept(op: Op, e: Expr): (k: Expr)
    decreases Size(e), if op.Is(e) then 0 else 2
  {
    if op.Is(e) then op.Make(Kept(op, e.left), Kept(op, e.right))
    else if !IsGuarded(e) && SelfEqual(e) then op.Unit()
    else e
  }

  /** A chain is to be equal to itself if what it keeps comes down to one symbol. */
  predicate SelfEqual(e: Expr)
    decreases Size(e), 1
  {
    match e
    case Not(a) => SelfEqual(a)
    case And(_, _) => EliminateYn(Kept(OpAnd, e)).Sym?
    case Or(_, _) => EliminateYn(Kept(OpOr, e)).Sym?
    case _ => true
  }

  /** No operand other than the literal itself comes down to what decides the chain: no `a && (n || n)`. */
  predicate NoHiddenAbsorber(e: Expr) {
    match e
    case Not(a) => NoHiddenAbsorber(a)
    case And(l, r) =>
      NoHiddenAbsorber(l) && NoHiddenAbsorber(r) && Overt(OpAnd, l) && Overt(OpAnd, r)
    case Or(l, r) =>
      NoHiddenAbsorber(l) && NoHiddenAbsorber(r) && Overt(OpOr, l) && Overt(OpOr, r)
    case _ => true
  }

  predicate Overt(op: Op, e: Expr) {
    op.Is(e) || e.Sym? || EliminateYn(e) != op.Absorber()
  }

  // ----- expressions that are equal to another one are equal to themselves -----

  /** p is e with some of its operands used up, each of them one that equals itself. */
  predicate WellUsed(op: Op, e: Expr, p: Expr) {
    if op.Is(e) then op.Is(p) && WellUsed(op, e.left, p.left) && WellUsed(op, e.right, p.right)
    else p == e || (p == op.Unit() && !IsGuarded(e) && SelfEqual(e))
  }

  lemma {:induction false} UnusedIsWellUsed(op: Op, e: Expr)
    ensures WellUsed(op, e, e)
  {
    if op.Is(e) {
      UnusedIsWellUsed(op, e.left);
      UnusedIsWellUsed(op, e.right);
    }
  }

  /** What a chain keeps comes down to a symbol if that is so after fewer operands are used up. */
  lemma {:induction false} KeptOfWellUsed(op: Op, e: Expr, p: Expr)
    requires WellUsed(op, e, p) && NoHiddenAbsorber(e) && Overt(op, e)
    ensures var a, b := EliminateYn(p), EliminateYn(Kept(op, e));
      a.Sym? ==> b == if a == op.Absorber() then a else if b == op.Unit() then b else a
  {
    if op.Is(e) {
      KeptOfWellUsed(op, e.left, p.left);
      KeptOfWellUsed(op, e.right, p.right);
    }
  }

  /** The elimination uses up operands that equal themselves only. */
  lemma {:induction false} EliminateEqInIsWellUsed(op: Op, x1: Expr, x2: Expr, e1: Expr, e2: Expr)
    requires WellUsed(op, x1, e1) && WellUsed(op, x2, e2) && NoHiddenAbsorber(x1) && NoHiddenAbsorber(x2)
    ensures var p := EliminateEqIn(op, e1, e2); WellUsed(op, x1, p.fst) && WellUsed(op, x2, p.snd)
    decreases Size(e1) + Size(e2), if op.Is(e1) || op.Is(e2) then 1 else 4
  {
    hide NoHiddenAbsorber, SelfEqual, Eq, EliminateEqIn, WellUsed;
    if op.Is(e1) {
      FirstChainIsWellUsed(op, x1, x2, e1, e2);
    } else if op.Is(e2) {
      SecondChainIsWellUsed(op, x1, x2, e1, e2);
    } else {
      EliminateEqInOfOperands(op, e1, e2);
      WellUsedOperand(op, x1, e1);
      WellUsedOperand(op, x2, e2);
      if Eq(e1, e2) && !SameGuardedConstant(e1, e2) {
        GuardedEqualsOnlyItself(e1, e2);
        EqualIsSelfEqual(e1, e2);
        WellUsedOperand(op, x1, op.Unit());
        WellUsedOperand(op, x2, op.Unit());
      }
    }
  }

  lemma {:induction false} FirstChainIsWellUsed(op: Op, x1: Expr, x2: Expr, e1: Expr, e2: Expr)
    requires WellUsed(op, x1, e1) && WellUsed(op, x2, e2) && NoHiddenAbsorber(x1) && NoHiddenAbsorber(x2) && op.Is(e1)
    ensures var p := EliminateEqIn(op, e1, e2); WellUsed(op, x1, p.fst) && WellUsed(op, x2, p.snd)
    decreases Size(e1) + Size(e2), 0
  {
    hide NoHiddenAbsorber, SelfEqual, Eq, EliminateEqIn, WellUsed;
    var a := EliminateEqIn(op, e1.left, e2);
    WellUsedHalves(op, x1, e1);
    HalvesOf(op, x1);
    EliminateEqInOfChain(op, e1, e2);
    EliminateEqInIsWellUsed(op, x1.left, x2, e1.left, e2);
    EliminateEqInIsWellUsed(op, x1.right, x2, e1.right, a.snd);
    WellUsedHalves(op, x1, EliminateEqIn(op, e1, e2).fst);
  }

  lemma {:induction false} SecondChainIsWellUsed(op: Op, x1: Expr, x2: Expr, e1: Expr, e2: Expr)
    requires WellUsed(op, x1, e1) && WellUsed(op, x2, e2) && NoHiddenAbsorber(x1) && NoHiddenAbsorber(x2)
    requires !op.Is(e1) && op.Is(e2)
    ensures var p := EliminateEqIn(op, e1, e2); WellUsed(op, x1, p.fst) && WellUsed(op, x2, p.snd)
    decreases Size(e1) + Size(e2), 0
  {
    hide NoHiddenAbsorber, SelfEqual, Eq, EliminateEqIn, WellUsed;
    var a := EliminateEqIn(op, e1, e2.left);
    WellUsedHalves(op, x2, e2);
    HalvesOf(op, x2);
    EliminateEqInOfSecond(op, e1, e2);
    EliminateEqInIsWellUsed(op, x1, x2.left, e1, e2.left);
    EliminateEqInIsWellUsed(op, x1, x2.right, a.fst, e2.right);
    WellUsedHalves(op, x2, EliminateEqIn(op, e1, e2).snd);
  }

  lemma WellUsedHalves(op: Op, x: Expr, e: Expr)
    requires op.Is(e)
    ensures WellUsed(op, x, e) <==> op.Is(x) && WellUsed(op, x.left, e.left) && WellUsed(op, x.right, e.right)
  {
  }

  lemma WellUsedOperand(op: Op, x: Expr, e: Expr)
    requires !op.Is(e)
    ensures WellUsed(op, x, e) <==> !op.Is(x) && (e == x || (e == op.Unit() && !IsGuarded(x) && SelfEqual(x)))
  {
  }

  lemma HalvesOf(op: Op, e: Expr)
    requires op.Is(e) && NoHiddenAbsorber(e)
    ensures NoHiddenAbsorber(e.left) && NoHiddenAbsorber(e.right) && Overt(op, e.left) && Overt(op, e.right)
  {
  }

  lemma GuardedEqualsOnlyItself(e1: Expr, e2: Expr)
    requires Eq(e1, e2)
    ensures IsGuarded(e1) || IsGuarded(e2) ==> SameGuardedConstant(e1, e2)
  {
  }

  lemma EqOfChains(op: Op, e1: Expr, e2: Expr)
    requires op.Is(e1) && op.Is(e2)
    ensures var p := EliminateEqIn(op, e1, e2); var a, b := EliminateYn(p.fst), EliminateYn(p.snd);
      Eq(e1, e2) <==> a.Sym? && b.Sym? && a.sym == b.sym
  {
    var p := EliminateEqIn(op, e1, e2);
    assert EliminateEqFirst(e1, e2) == p;
    assert EliminateEqSecond(p.fst, p.snd) == p;
  }

  lemma SelfEqualChain(op: Op, e: Expr)
    requires op.Is(e)
    ensures SelfEqual(e) <==> EliminateYn(Kept(op, e)).Sym?
  {
  }

  lemma {:induction false} EqualIsSelfEqual(x: Expr, y: Expr)
    requires Eq(x, y) && NoHiddenAbsorber(x) && NoHiddenAbsorber(y)
    ensures SelfEqual(x) && SelfEqual(y)
    decreases Size(x) + Size(y), 3
  {
    match x
    case Not(a) => EqualIsSelfEqual(a, y.arg);
    case And(_, _) => EqualChainsAreSelfEqual(OpAnd, x, y);
    case Or(_, _) => EqualChainsAreSelfEqual(OpOr, x, y);
    case _ =>
  }

  lemma {:induction false} EqualChainsAreSelfEqual(op: Op, x: Expr, y: Expr)
    requires op.Is(x) && op.Is(y) && Eq(x, y) && NoHiddenAbsorber(x) && NoHiddenAbsorber(y)
    ensures SelfEqual(x) && SelfEqual(y)
    decreases Size(x) + Size(y), 2
  {
    hide NoHiddenAbsorber, Kept, SelfEqual, Eq, EliminateEqIn, WellUsed, EliminateYn;
    var p := EliminateEqIn(op, x, y);
    UnusedIsWellUsed(op, x);
    UnusedIsWellUsed(op, y);
    EliminateEqInIsWellUsed(op, x, y, x, y);
    EqOfChains(op, x, y);
    KeptOfWellUsed(op, x, p.fst);
    KeptOfWellUsed(op, y, p.snd);
    SelfEqualChain(op, x);
    SelfEqualChain(op, y);
  }

  // ----- a chain meets itself -----

  function LeafCount(op: Op, e: Expr): (n: nat)
    ensures n >= 1
  {
    if op.Is(e) then LeafCount(op, e.left) + LeafCount(op, e.right) else 1
  }

  /** The i-th operand of a chain, from the left. */
  function Leaf(op: Op, e: Expr, i: nat): Expr
    requires i < LeafCount(op, e)
  {
    if !op.Is(e) then e
    else if i < LeafCount(op, e.left) then Leaf(op, e.left, i)
    else Leaf(op, e.right, i - LeafCount(op, e.left))
  }

  /** The chain after its first n operands have met it: those that find a partner are used up. */
  function Used(op: Op, e: Expr, n: nat): Expr
    requires n <= LeafCount(op, e)
  {
    if n == 0 then e
    else if !op.Is(e) then Kept(op, e)
    else
      var l := LeafCount(op, e.left);
      if n <= l then op.Make(Used(op, e.left, n), e.right)
      else op.Make(Used(op, e.left, l), Used(op, e.right, n - l))
  }

  lemma {:induction false} UsedWhole(op: Op, e: Expr)
    ensures Used(op, e, LeafCount(op, e)) == Kept(op, e)
  {
    if op.Is(e) {
      UsedWhole(op, e.left);
      UsedWhole(op, e.right);
    }
  }

  /** Operand x and those of e that are equal to it equal themselves. */
  predicate Apt(op: Op, x: Expr, e: Expr) {
    if op.Is(e) then Apt(op, x, e.left) && Apt(op, x, e.right)
    else Eq(x, e) ==> SelfEqual(x) && SelfEqual(e)
  }

  /** An operand that keeps itself matches nothing. */
  lemma {:induction false} KeptMatchesNothing(op: Op, x: Expr, e: Expr)
    requires !op.Is(x) && (IsGuarded(x) || !SelfEqual(x)) && (IsGuarded(x) || Apt(op, x, e))
    ensures EliminateEqIn(op, x, e) == Pair(x, e)
  {
    if op.Is(e) {
      KeptMatchesNothing(op, x, e.left);
      KeptMatchesNothing(op, x, e.right);
    } else if Eq(x, e) {
      GuardedEqualsOnlyItself(x, e);
    }
  }

  /** No operand matches anything in what a chain keeps. */
  lemma {:induction false} NothingMatchesKept(op: Op, x: Expr, e: Expr)
    requires !op.Is(x) && Apt(op, x, e)
    ensures EliminateEqIn(op, x, Kept(op, e)) == Pair(x, Kept(op, e))
  {
    if op.Is(e) {
      NothingMatchesKept(op, x, e.left);
      NothingMatchesKept(op, x, e.right);
    } else if Eq(x, Kept(op, e)) {
      GuardedEqualsOnlyItself(x, Kept(op, e));
    }
  }

  lemma KeptIsKept(op: Op, x: Expr)
    requires !op.Is(x)
    ensures var k := Kept(op, x); !op.Is(k) && (IsGuarded(k) || (k == x && !SelfEqual(x)))
  {
  }

  lemma UsedHalves(op: Op, e: Expr, n: nat)
    requires op.Is(e) && n <= LeafCount(op, e)
    ensures var l := LeafCount(op, e.left);
      Used(op, e, n) == if n <= l then op.Make(Used(op, e.left, n), e.right)
                        else op.Make(Used(op, e.left, l), Used(op, e.right, n - l))
  {
  }

  lemma UsedNone(op: Op, e: Expr)
    ensures Used(op, e, 0) == e
  {
  }

  lemma LeafOfHalf(op: Op, e: Expr, i: nat)
    requires op.Is(e) && i < LeafCount(op, e)
    ensures var l := LeafCount(op, e.left);
      Leaf(op, e, i) == if i < l then Leaf(op, e.left, i) else Leaf(op, e.right, i - l)
  {
  }

  lemma AptHalves(op: Op, x: Expr, e: Expr)
    requires op.Is(e)
    ensures Apt(op, x, e) <==> Apt(op, x, e.left) && Apt(op, x, e.right)
  {
  }

  /** What is known of an operand of e before the elimination. */
  predicate Ready(op: Op, x: Expr, e: Expr) {
    Apt(op, x, e) && (SelfEqual(x) ==> Eq(x, x))
  }

  lemma OperandFindsItself(op: Op, x: Expr)
    requires !op.Is(x) && Ready(op, x, x)
    ensures EliminateEqIn(op, x, x) == Pair(Kept(op, x), Kept(op, x))
  {
    hide Eq, SelfEqual;
  }

  /** One operand meets the chain it comes from, whose earlier operands have been through. */
  lemma {:induction false} LeafFindsItself(op: Op, e: Expr, i: nat)
    requires i < LeafCount(op, e) && Ready(op, Leaf(op, e, i), e)
    ensures !op.Is(Leaf(op, e, i))
    ensures EliminateEqIn(op, Leaf(op, e, i), Used(op, e, i)) == Pair(Kept(op, Leaf(op, e, i)), Used(op, e, i + 1))
  {
    if op.Is(e) {
      hide Eq, SelfEqual, Kept, EliminateEqIn, Apt, Leaf, Used;
      var x := Leaf(op, e, i);
      var l := LeafCount(op, e.left);
      LeafOfHalf(op, e, i);
      AptHalves(op, x, e);
      UsedHalves(op, e, i);
      UsedHalves(op, e, i + 1);
      if i < l {
        LeafFindsItself(op, e.left, i);
        EliminateEqInOfSecond(op, x, Used(op, e, i));
        KeptIsKept(op, x);
        KeptMatchesNothing(op, Kept(op, x), e.right);
      } else {
        LeafFindsItself(op, e.right, i - l);
        UsedNone(op, e.right);
        EliminateEqInOfSecond(op, x, Used(op, e, i));
        UsedWhole(op, e.left);
        NothingMatchesKept(op, x, e.left);
      }
    } else {
      OperandFindsItself(op, e);
    }
  }

  lemma KeptOfChain(op: Op, e: Expr)
    requires op.Is(e)
    ensures Kept(op, e) == op.Make(Kept(op, e.left), Kept(op, e.right))
  {
  }

  lemma LeavesOfHalves(op: Op, x: Expr)
    requires op.Is(x)
    ensures forall j: nat {:trigger Leaf(op, x.left, j)} ::
              j < LeafCount(op, x.left) ==> Leaf(op, x.left, j) == Leaf(op, x, j)
    ensures forall j: nat {:trigger Leaf(op, x.right, j)} ::
              j < LeafCount(op, x.right) ==> Leaf(op, x.right, j) == Leaf(op, x, LeafCount(op, x.left) + j)
  {
  }

  lemma LeafOfLeaf(op: Op, x: Expr)
    requires !op.Is(x)
    ensures Leaf(op, x, 0) == x
  {
  }

  /** A stretch x of the operands of e, starting at the i-th, uses up that stretch. */
  lemma {:induction false} StretchFindsItself(op: Op, x: Expr, e: Expr, i: nat)
    requires i + LeafCount(op, x) <= LeafCount(op, e)
    requires forall j: nat :: j < LeafCount(op, x) ==> Leaf(op, x, j) == Leaf(op, e, i + j)
    requires forall j: nat :: j < LeafCount(op, x) ==> Ready(op, Leaf(op, x, j), e)
    ensures EliminateEqIn(op, x, Used(op, e, i)) == Pair(Kept(op, x), Used(op, e, i + LeafCount(op, x)))
  {
    hide Eq, Leaf, Used, EliminateEqIn, Kept, SelfEqual, Apt;
    if op.Is(x) {
      var l := LeafCount(op, x.left);
      LeavesOfHalves(op, x);
      StretchFindsItself(op, x.left, e, i);
      StretchFindsItself(op, x.right, e, i + l);
      EliminateEqInOfChain(op, x, Used(op, e, i));
      KeptOfChain(op, x);
    } else {
      assert Leaf(op, x, 0) == Leaf(op, e, i + 0);
      LeafOfLeaf(op, x);
      LeafFindsItself(op, e, i);
    }
  }

  lemma ChainKeepsItself(op: Op, e: Expr)
    requires op.Is(e)
    requires forall j: nat :: j < LeafCount(op, e) ==> Ready(op, Leaf(op, e, j), e)
    ensures EliminateEqIn(op, e, e) == Pair(Kept(op, e), Kept(op, e))
    ensures Eq(e, e) <==> SelfEqual(e)
  {
    hide Eq, Used, EliminateEqIn, Leaf, Kept, SelfEqual, Ready, EliminateYn;
    UsedNone(op, e);
    StretchFindsItself(op, e, e, 0);
    UsedWhole(op, e);
    EqOfChains(op, e, e);
    SelfEqualChain(op, e);
  }

  // ----- the exact condition -----

  lemma {:induction false} LeafIsPart(op: Op, e: Expr, i: nat)
    requires i < LeafCount(op, e) && NoHiddenAbsorber(e)
    ensures NoHiddenAbsorber(Leaf(op, e, i)) && Size(Leaf(op, e, i)) <= Size(e)
    ensures op.Is(e) ==> Size(Leaf(op, e, i)) < Size(e)
  {
    if op.Is(e) {
      var l := LeafCount(op, e.left);
      if i < l { LeafIsPart(op, e.left, i); } else { LeafIsPart(op, e.right, i - l); }
    }
  }

  lemma {:induction false} OvertIsApt(op: Op, x: Expr, e: Expr)
    requires NoHiddenAbsorber(x) && NoHiddenAbsorber(e)
    ensures Apt(op, x, e)
  {
    if op.Is(e) {
      OvertIsApt(op, x, e.left);
      OvertIsApt(op, x, e.right);
    } else if Eq(x, e) {
      EqualIsSelfEqual(x, e);
    }
  }

  lemma {:induction false} LeavesAreReady(op: Op, e: Expr)
    requires op.Is(e) && NoHiddenAbsorber(e)
    ensures forall j: nat :: j < LeafCount(op, e) ==> Ready(op, Leaf(op, e, j), e)
    decreases Size(e), 0
  {
    hide NoHiddenAbsorber, Apt, SelfEqual, Eq, Leaf;
    forall j: nat | j < LeafCount(op, e) ensures Ready(op, Leaf(op, e, j), e) {
      LeafIsPart(op, e, j);
      OvertIsApt(op, Leaf(op, e, j), e);
      EqualsItselfIff(Leaf(op, e, j));
    }
  }

  lemma {:induction false} EqualsItselfIff(e: Expr)
    requires NoHiddenAbsorber(e)
    ensures Eq(e, e) <==> SelfEqual(e)
    decreases Size(e), 1
  {
    match e
    case Not(a) => EqualsItselfIff(a);
    case And(_, _) => LeavesAreReady(OpAnd, e); ChainKeepsItself(OpAnd, e);
    case Or(_, _) => LeavesAreReady(OpOr, e); ChainKeepsItself(OpOr, e);
    case _ =>
  }

  // ----- without quoted operands -----

  /** Quoted constants stand in comparisons only, not as operands of AND and OR. */
  predicate NoQuotedOperand(e: Expr) {
    match e
    case Not(a) => NoQuotedOperand(a)
    case And(l, r) => NoQuotedOperand(l) && NoQuotedOperand(r) && !IsQuoted(l) && !IsQuoted(r)
    case Or(l, r) => NoQuotedOperand(l) && NoQuotedOperand(r) && !IsQuoted(l) && !IsQuoted(r)
    case _ => true
  }

  lemma {:induction false} NoQuotedIsSelfEqual(e: Expr)
    requires NoQuotedOperand(e)
    ensures SelfEqual(e)
    decreases Size(e), 1
  {
    match e
    case Not(a) => NoQuotedIsSelfEqual(a);
    case And(_, _) => NoQuotedKeepsNothing(OpAnd, e);
    case Or(_, _) => NoQuotedKeepsNothing(OpOr, e);
    case _ =>
  }

  lemma {:induction false} NoQuotedKeepsNothing(op: Op, e: Expr)
    requires NoQuotedOperand(e) && !IsQuoted(e)
    ensures IsUnitOrAbsorber(EliminateYn(Kept(op, e)))
    decreases Size(e), if op.Is(e) then 0 else 2
  {
    if op.Is(e) {
      NoQuotedKeepsNothing(op, e.left);
      NoQuotedKeepsNothing(op, e.right);
    } else {
      NoQuotedIsSelfEqual(e);
    }
  }

  lemma {:induction false} NoQuotedIsApt(op: Op, x: Expr, e: Expr)
    requires NoQuotedOperand(x) && NoQuotedOperand(e)
    ensures Apt(op, x, e)
  {
    if op.Is(e) {
      NoQuotedIsApt(op, x, e.left);
      NoQuotedIsApt(op, x, e.right);
    } else {
      NoQuotedIsSelfEqual(x);
      NoQuotedIsSelfEqual(e);
    }
  }

  lemma {:induction false} LeafIsUnquoted(op: Op, e: Expr, i: nat)
    requires i < LeafCount(op, e) && NoQuotedOperand(e)
    ensures NoQuotedOperand(Leaf(op, e, i)) && Size(Leaf(op, e, i)) <= Size(e)
    ensures op.Is(e) ==> Size(Leaf(op, e, i)) < Size(e)
  {
    if op.Is(e) {
      var l := LeafCount(op, e.left);
      if i < l { LeafIsUnquoted(op, e.left, i); } else { LeafIsUnquoted(op, e.right, i - l); }
    }
  }

  lemma {:induction false} UnquotedChainEqualsItself(op: Op, e: Expr)
    requires op.Is(e) && NoQuotedOperand(e)
    ensures Eq(e, e)
    decreases Size(e), 0
  {
    hide NoQuotedOperand, Apt, SelfEqual, Eq, Leaf;
    forall j: nat | j < LeafCount(op, e) ensures Ready(op, Leaf(op, e, j), e) {
      LeafIsUnquoted(op, e, j);
      NoQuotedIsApt(op, Leaf(op, e, j), e);
      EqIsReflexive(Leaf(op, e, j));
    }
    ChainKeepsItself(op, e);
    NoQuotedIsSelfEqual(e);
  }

  /** Every expression without quoted operands equals itself, hidden absorbers or not. */
  lemma {:induction false} EqIsReflexive(e: Expr)
    requires NoQuotedOperand(e)
    ensures Eq(e, e)
    decreases Size(e), 1
  {
    match e
    case Not(a) => EqIsReflexive(a);
    case And(_, _) => UnquotedChainEqualsItself(OpAnd, e);
    case Or(_, _) => UnquotedChainEqualsItself(OpOr, e);
    case _ =>
  }

  // ----- without y and n operands -----

  /** Free of y and n as operands of AND and OR, below negations too. */
  predicate NoYnOperand(e: Expr) {
    match e
    case Not(a) => NoYnOperand(a)
    case And(l, r) => NoYnOperand(l) && NoYnOperand(r) && !IsUnitOrAbsorber(l) && !IsUnitOrAbsorber(r)
    case Or(l, r) => NoYnOperand(l) && NoYnOperand(r) && !IsUnitOrAbsorber(l) && !IsUnitOrAbsorber(r)
    case _ => true
  }

  function QuotedCount(op: Op, e: Expr): nat {
    if op.Is(e) then QuotedCount(op, e.left) + QuotedCount(op, e.right)
    else if IsQuoted(e) then 1 else 0
  }

  /** No chain has two quoted constants among its operands. */
  predicate OneQuotedPerChain(e: Expr) {
    match e
    case Not(a) => OneQuotedPerChain(a)
    case And(l, r) => OneQuotedPerChain(l) && OneQuotedPerChain(r) && QuotedCount(OpAnd, e) <= 1
    case Or(l, r) => OneQuotedPerChain(l) && OneQuotedPerChain(r) && QuotedCount(OpOr, e) <= 1
    case _ => true
  }

  lemma {:induction false} NoYnOperandIsYnFree(e: Expr)
    requires NoYnOperand(e)
    ensures EliminateYn(e) == e && NoHiddenAbsorber(e)
  {
    match e
    case Not(a) => NoYnOperandIsYnFree(a);
    case And(l, r) => NoYnOperandIsYnFree(l); NoYnOperandIsYnFree(r);
    case Or(l, r) => NoYnOperandIsYnFree(l); NoYnOperandIsYnFree(r);
    case _ =>
  }

  /** The operands of the chain that are no chain of the same operator are fine in themselves. */
  predicate FineOperands(op: Op, e: Expr) {
    if op.Is(e) then FineOperands(op, e.left) && FineOperands(op, e.right) else OneQuotedPerChain(e)
  }

  lemma {:induction false} OneQuotedOfChain(op: Op, e: Expr)
    requires op.Is(e)
    ensures OneQuotedPerChain(e) <==> FineOperands(op, e) && QuotedCount(op, e) <= 1
  {
    if op.Is(e.left) { OneQuotedOfChain(op, e.left); }
    if op.Is(e.right) { OneQuotedOfChain(op, e.right); }
  }

  lemma {:induction false} KeptOfYnFree(op: Op, e: Expr)
    requires NoYnOperand(e) && !IsUnitOrAbsorber(e)
    ensures var k := EliminateYn(Kept(op, e));
      && k != op.Absorber()
      && (k == op.Unit() <==> FineOperands(op, e) && QuotedCount(op, e) == 0)
      && (k.Sym? <==> FineOperands(op, e) && QuotedCount(op, e) <= 1)
    decreases Size(e), if op.Is(e) then 0 else 2
  {
    if op.Is(e) {
      KeptOfYnFree(op, e.left);
      KeptOfYnFree(op, e.right);
    } else {
      NoYnOperandIsYnFree(e);
      SelfEqualIffOneQuoted(e);
    }
  }

  lemma {:induction false} SelfEqualIffOneQuoted(e: Expr)
    requires NoYnOperand(e)
    ensures SelfEqual(e) <==> OneQuotedPerChain(e)
    decreases Size(e), 1
  {
    match e
    case Not(a) => SelfEqualIffOneQuoted(a);
    case And(_, _) => KeptOfYnFree(OpAnd, e); OneQuotedOfChain(OpAnd, e);
    case Or(_, _) => KeptOfYnFree(OpOr, e); OneQuotedOfChain(OpOr, e);
    case _ =>
  }

  /** Without y and n operands an expression equals itself if and only if no chain has two quoted operands. */
  lemma EqualsItselfIffOneQuoted(e: Expr)
    requires NoYnOperand(e)
    ensures Eq(e, e) <==> OneQuotedPerChain(e)
  {
    NoYnOperandIsYnFree(e);
    EqualsItselfIff(e);
    SelfEqualIffOneQuoted(e);
  }

  /** Two quoted constants in one chain are never matched, so such a chain does not equal itself. */
  lemma TwoQuotedOperandsAreNotMatched(a: Expr, b: Expr)
    requires IsQuoted(a) && IsQuoted(b)
    ensures !Eq(And(a, b), And(a, b)) && !Eq(Or(a, b), Or(a, b))
  {
    forall op: Op ensures QuotedCount(op, op.Make(a, b)) == 2 {
      assert QuotedCount(op, a) == 1 && QuotedCount(op, b) == 1;
    }
    assert QuotedCount(OpAnd, OpAnd.Make(a, b)) == 2 && QuotedCount(OpOr, OpOr.Make(a, b)) == 2;
    hide Eq, QuotedCount;
    EqualsItselfIffOneQuoted(And(a, b));
    EqualsItselfIffOneQuoted(Or(a, b));
  }

  // ----- a hidden absorber -----

  /** No operand of the one chain equals an operand of the other. */
  predicate Apart(op: Op, x: Expr, y: Expr) {
    if op.Is(x) then Apart(op, x.left, y) && Apart(op, x.right, y)
    else if op.Is(y) then Apart(op, x, y.left) && Apart(op, x, y.right)
    else !Eq(x, y)
  }

  lemma {:induction false} ApartStays(op: Op, x: Expr, y: Expr)
    requires Apart(op, x, y)
    ensures EliminateEqIn(op, x, y) == Pair(x, y)
    decreases Size(x) + Size(y)
  {
    if op.Is(x) {
      ApartStays(op, x.left, y);
      ApartStays(op, x.right, y);
    } else if op.Is(y) {
      ApartStays(op, x, y.left);
      ApartStays(op, x, y.right);
    }
  }

  lemma ApartOfChain(x: Expr, y: Expr)
    requires OpAnd.Is(x)
    ensures Apart(OpAnd, x, y) <==> Apart(OpAnd, x.left, y) && Apart(OpAnd, x.right, y)
  {
  }

  lemma ApartFromChain(x: Expr, y: Expr)
    requires !OpAnd.Is(x) && OpAnd.Is(y)
    ensures Apart(OpAnd, x, y) <==> Apart(OpAnd, x, y.left) && Apart(OpAnd, x, y.right)
  {
  }

  /** Two chains that come down to n on their own are equal, whatever else they hold. */
  lemma BothAbsorbed(x: Expr, y: Expr)
    requires OpAnd.Is(x) && OpAnd.Is(y) && Apart(OpAnd, x, y) && EliminateYn(x) == NO && EliminateYn(y) == NO
    ensures Eq(x, y)
  {
    ApartStays(OpAnd, x, y);
    hide Apart, EliminateYn;
    EqOfChains(OpAnd, x, y);
  }

  /** A chain that is n, and says so. */
  function Overtly(c: Expr): Expr {
    And(NO, c)
  }

  /** One whose n is hidden, beside two more operands. */
  function Hiding(a: Expr, b: Expr): Expr {
    And(Or(NO, NO), And(a, b))
  }

  lemma OperandsApart(x: Expr, y: Expr)
    requires x == Or(NO, NO) || IsQuoted(x)
    requires y == NO || (y.Sym? && y.sym.Config?)
    ensures Apart(OpAnd, x, y) && Apart(OpAnd, y, x)
  {
  }

  lemma HidingApart(a: Expr, b: Expr, c: Expr)
    requires IsQuoted(a) && IsQuoted(b) && c.Sym? && c.sym.Config?
    ensures Apart(OpAnd, Hiding(a, b), Overtly(c)) && Apart(OpAnd, Overtly(c), Hiding(a, b))
  {
    hide Eq, Apart;
    var h, o := Hiding(a, b), Overtly(c);
    forall x | x in [Or(NO, NO), a, b] ensures Apart(OpAnd, x, o) {
      OperandsApart(x, NO);
      OperandsApart(x, c);
      ApartFromChain(x, o);
    }
    assert Or(NO, NO) in [Or(NO, NO), a, b] && a in [Or(NO, NO), a, b] && b in [Or(NO, NO), a, b];
    ApartOfChain(h, o);
    ApartOfChain(h.right, o);
    forall y | y in [NO, c] ensures Apart(OpAnd, y, h) {
      OperandsApart(Or(NO, NO), y);
      OperandsApart(a, y);
      OperandsApart(b, y);
      ApartFromChain(y, h);
      ApartFromChain(y, h.right);
    }
    assert NO in [NO, c] && c in [NO, c];
    ApartOfChain(o, h);
  }

  lemma KeptOfOperand(op: Op, e: Expr)
    requires !op.Is(e)
    ensures Kept(op, e) == if !IsGuarded(e) && SelfEqual(e) then op.Unit() else e
  {
  }

  lemma HidingIsReady(a: Expr, b: Expr, x: Expr)
    requires IsQuoted(a) && IsQuoted(b) && (x == Or(NO, NO) || IsQuoted(x))
    ensures Ready(OpAnd, x, Hiding(a, b))
  {
    EqIsReflexive(Or(NO, NO));
    NoQuotedIsSelfEqual(Or(NO, NO));
    hide EliminateEq, Kept;
    assert Apt(OpAnd, x, Or(NO, NO));
    assert Apt(OpAnd, x, And(a, b)) by {
      assert Apt(OpAnd, x, a) && Apt(OpAnd, x, b);
    }
  }

  predicate AllReady(op: Op, x: Expr, e: Expr) {
    if op.Is(x) then AllReady(op, x.left, e) && AllReady(op, x.right, e) else Ready(op, x, e)
  }

  lemma {:induction false} LeavesOfReady(op: Op, x: Expr, e: Expr)
    requires AllReady(op, x, e)
    ensures forall j: nat :: j < LeafCount(op, x) ==> Ready(op, Leaf(op, x, j), e)
  {
    hide Ready;
    if op.Is(x) {
      LeavesOfReady(op, x.left, e);
      LeavesOfReady(op, x.right, e);
    }
  }

  lemma HidingDiffersFromItself(a: Expr, b: Expr)
    requires IsQuoted(a) && IsQuoted(b)
    ensures !Eq(Hiding(a, b), Hiding(a, b)) && !SelfEqual(Hiding(a, b))
  {
    var h := Hiding(a, b);
    NoQuotedIsSelfEqual(Or(NO, NO));
    hide Eq, SelfEqual, Apt, Leaf, Ready;
    HidingIsReady(a, b, Or(NO, NO));
    HidingIsReady(a, b, a);
    HidingIsReady(a, b, b);
    assert AllReady(OpAnd, Or(NO, NO), h) && AllReady(OpAnd, h.right, h);
    LeavesOfReady(OpAnd, h, h);
    KeptOfOperand(OpAnd, Or(NO, NO));
    KeptOfOperand(OpAnd, a);
    KeptOfOperand(OpAnd, b);
    KeptOfChain(OpAnd, h.right);
    KeptOfChain(OpAnd, h);
    assert EliminateYn(And(a, b)) == And(a, b);
    assert EliminateYn(And(YES, And(a, b))) == And(a, b);
    hide Kept;
    ChainKeepsItself(OpAnd, h);
    SelfEqualChain(OpAnd, h);
  }

  lemma OvertlyIsSelfEqual(c: Expr)
    requires c.Sym?
    ensures SelfEqual(Overtly(c))
  {
    KeptOfOperand(OpAnd, NO);
    KeptOfChain(OpAnd, Overtly(c));
  }

  /** With a hidden absorber an operand that differs from itself can still be matched, by another one. */
  lemma HiddenAbsorberMatches(a: Expr, b: Expr, c: Expr)
    requires IsQuoted(a) && IsQuoted(b) && c.Sym? && c.sym.Config?
    ensures var e := Or(Not(Hiding(a, b)), Not(Overtly(c))); Eq(e, e) && !SelfEqual(e) && !NoHiddenAbsorber(e)
  {
    hide Eq, SelfEqual, Apart;
    var h, o := Hiding(a, b), Overtly(c);
    HidingApart(a, b, c);
    BothAbsorbed(h, o);
    BothAbsorbed(o, h);
    HidingDiffersFromItself(a, b);
    OvertlyIsSelfEqual(c);
    CrossMatch(h, o);
    assert !NoHiddenAbsorber(h);
  }

  lemma MatchOfNots(x: Expr, y: Expr)
    ensures EliminateEqIn(OpOr, Not(x), Not(y)) == if Eq(x, y) then Pair(NO, NO) else Pair(Not(x), Not(y))
  {
  }

  /** Two operands that equal each other are both matched, even if the first differs from itself. */
  lemma CrossMatch(x: Expr, y: Expr)
    requires !Eq(x, x) && !SelfEqual(x) && SelfEqual(y) && Eq(x, y) && Eq(y, x)
    ensures var e := Or(Not(x), Not(y)); Eq(e, e) && !SelfEqual(e)
  {
    var e := Or(Not(x), Not(y));
    KeptOfOperand(OpOr, Not(x));
    KeptOfOperand(OpOr, Not(y));
    KeptOfChain(OpOr, e);
    SelfEqualChain(OpOr, e);
    MatchOfNots(x, x);
    MatchOfNots(x, y);
    MatchOfNots(y, x);
    KeptMatchesNothing(OpOr, NO, NO);
    EliminateEqInOfSecond(OpOr, Not(x), e);
    EliminateEqInOfSecond(OpOr, Not(y), Or(Not(x), NO));
    EliminateEqInOfChain(OpOr, e, e);
    EqOfChains(OpOr, e, e);
  }
}
