/** expr_eliminate_yn, expr_eq, expr_eliminate_eq and expr_extract_eq: what they keep. */
module ExprEq {
  import T = Tristate
  import opened Options
  import opened Expr

  // ----- expr_eliminate_yn -----

  /** What becomes of an AND or OR node whose operands are already simplified. */
  function Collapse(op: Op, l: Expr, r: Expr): (e: Expr)
    ensures Size(e) <= 1 + Size(l) + Size(r)
    ensures IsUnitOrAbsorber(l) || IsUnitOrAbsorber(r) ==> Size(e) < 1 + Size(l) + Size(r)
  {
    if l == op.Absorber() then op.Absorber()
    else if l == op.Unit() then r
    else if r == op.Absorber() then op.Absorber()
    else if r == op.Unit() then l
    else op.Make(l, r)
  }

  predicate IsUnitOrAbsorber(e: Expr) {
    e == YES || e == NO
  }

  function EliminateYn(e: Expr): (r: Expr)
    ensures Size(r) <= Size(e)
  {
    match e
    case And(l, r) => Collapse(OpAnd, EliminateYn(l), EliminateYn(r))
    case Or(l, r) => Collapse(OpOr, EliminateYn(l), EliminateYn(r))
    case _ => e
  }

  lemma {:induction false} EliminateYnKeepsValue(e: Expr, v: Valuation)
    requires Legal(v)
    ensures Eval(EliminateYn(e), v) == Eval(e, v)
  {
    assert LegalValue(ConstYes, v(ConstYes)) && LegalValue(ConstNo, v(ConstNo));
    match e
    case And(l, r) => EliminateYnKeepsValue(l, v); EliminateYnKeepsValue(r, v);
    case Or(l, r) => EliminateYnKeepsValue(l, v); EliminateYnKeepsValue(r, v);
    case _ =>
  }

  /** No AND or OR node, outside negations, has the literal y or n for an operand. */
  predicate YnFree(e: Expr) {
    match e
    case And(l, r) => !IsUnitOrAbsorber(l) && !IsUnitOrAbsorber(r) && YnFree(l) && YnFree(r)
    case Or(l, r) => !IsUnitOrAbsorber(l) && !IsUnitOrAbsorber(r) && YnFree(l) && YnFree(r)
    case _ => true
  }

  lemma {:induction false} EliminateYnIsYnFree(e: Expr)
    ensures YnFree(EliminateYn(e))
  {
    match e
    case And(l, r) => EliminateYnIsYnFree(l); EliminateYnIsYnFree(r);
    case Or(l, r) => EliminateYnIsYnFree(l); EliminateYnIsYnFree(r);
    case _ =>
  }

  /** It shrinks exactly the expressions that have something to remove, and leaves the others alone. */
  lemma {:induction false} EliminateYnShrinksIffNotFree(e: Expr)
    ensures YnFree(e) ==> EliminateYn(e) == e
    ensures !YnFree(e) ==> Size(EliminateYn(e)) < Size(e)
  {
    match e
    case And(l, r) => EliminateYnShrinksIffNotFree(l); EliminateYnShrinksIffNotFree(r);
    case Or(l, r) => EliminateYnShrinksIffNotFree(l); EliminateYnShrinksIffNotFree(r);
    case _ =>
  }

  // ----- expr_eq and expr_eliminate_eq -----

  datatype Pair = Pair(fst: Expr, snd: Expr)

  /** The same literal y or n, or the same quoted constant, on both sides is left in place. */
  predicate SameGuardedConstant(e1: Expr, e2: Expr) {
    e1.Sym? && e2.Sym? && e1.sym == e2.sym && e1.sym.HasYesOrNoFlag()
  }

  /** __expr_eliminate_eq: walks two chains of one operator; equal operands become units. */
  function EliminateEqIn(op: Op, e1: Expr, e2: Expr): (p: Pair)
    ensures Size(p.fst) <= Size(e1) && Size(p.snd) <= Size(e2)
    ensures op.Is(e1) ==> op.Is(p.fst)
    ensures op.Is(e2) ==> op.Is(p.snd)
    decreases Size(e1) + Size(e2), if op.Is(e1) || op.Is(e2) then 0 else 3
  {
    if op.Is(e1) then
      var a := EliminateEqIn(op, e1.left, e2);
      var b := EliminateEqIn(op, e1.right, a.snd);
      Pair(op.Make(a.fst, b.fst), b.snd)
    else if op.Is(e2) then
      var a := EliminateEqIn(op, e1, e2.left);
      var b := EliminateEqIn(op, a.fst, e2.right);
      Pair(b.fst, op.Make(a.snd, b.snd))
    else if SameGuardedConstant(e1, e2) || !Eq(e1, e2) then Pair(e1, e2)
    else Pair(op.Unit(), op.Unit())
  }

  function EliminateEqFirst(e1: Expr, e2: Expr): (p: Pair)
    ensures Size(p.fst) <= Size(e1) && Size(p.snd) <= Size(e2)
    ensures OpAnd.Is(e1) && OpAnd.Is(e2) ==> OpAnd.Is(p.fst) && OpAnd.Is(p.snd)
    ensures OpOr.Is(e1) && OpOr.Is(e2) ==> OpOr.Is(p.fst) && OpOr.Is(p.snd)
    decreases Size(e1) + Size(e2), 1, 0
  {
    if e1.And? || e1.Or? then EliminateEqIn(OpOf(e1), e1, e2) else Pair(e1, e2)
  }

  predicate SameKind(e1: Expr, e2: Expr) {
    match e1
    case Sym(_) => e2.Sym?
    case Not(_) => e2.Not?
    case And(_, _) => e2.And?
    case Or(_, _) => e2.Or?
    case Equal(_, _) => e2.Equal?
    case Unequal(_, _) => e2.Unequal?
  }

  function EliminateEqSecond(e1: Expr, e2: Expr): (p: Pair)
    ensures Size(p.fst) <= Size(e1) && Size(p.snd) <= Size(e2)
    decreases Size(e1) + Size(e2), 1, 0
  {
    if !SameKind(e1, e2) && (e2.And? || e2.Or?) then EliminateEqIn(OpOf(e2), e1, e2) else Pair(e1, e2)
  }

  /** expr_eliminate_eq */
  function EliminateEq(e1: Expr, e2: Expr): (p: Pair)
    ensures Size(p.fst) <= Size(e1) && Size(p.snd) <= Size(e2)
    decreases Size(e1) + Size(e2), 1, 1
  {
    var a := EliminateEqFirst(e1, e2);
    var b := EliminateEqSecond(a.fst, a.snd);
    Pair(EliminateYn(b.fst), EliminateYn(b.snd))
  }

  /** expr_eq */
  predicate Eq(e1: Expr, e2: Expr)
    decreases Size(e1) + Size(e2), 2, 0
  {
    SameKind(e1, e2) &&
    match e1
    case Sym(s) => s == e2.sym
    case Equal(a, b) => a == e2.lhs && b == e2.rhs
    case Unequal(a, b) => a == e2.lhs && b == e2.rhs
    case Not(a) => Eq(a, e2.arg)
    case _ =>
      var p := EliminateEq(e1, e2);
      p.fst.Sym? && p.snd.Sym? && p.fst.sym == p.snd.sym
  }

  // ----- one step of the elimination -----

  lemma EliminateEqInOfChain(op: Op, x: Expr, e: Expr)
    requires op.Is(x)
    ensures var a := EliminateEqIn(op, x.left, e); var b := EliminateEqIn(op, x.right, a.snd);
      EliminateEqIn(op, x, e) == Pair(op.Make(a.fst, b.fst), b.snd)
  {
  }

  lemma EliminateEqInOfSecond(op: Op, x: Expr, e: Expr)
    requires !op.Is(x) && op.Is(e)
    ensures var a := EliminateEqIn(op, x, e.left); var b := EliminateEqIn(op, a.fst, e.right);
      EliminateEqIn(op, x, e) == Pair(b.fst, op.Make(a.snd, b.snd))
  {
  }

  lemma EliminateEqInOfOperands(op: Op, x: Expr, y: Expr)
    requires !op.Is(x) && !op.Is(y)
    ensures EliminateEqIn(op, x, y) ==
      if SameGuardedConstant(x, y) || !Eq(x, y) then Pair(x, y) else Pair(op.Unit(), op.Unit())
  {
  }

  /** How many pairs of operands the elimination matches: what it adds to trans_count. */
  function EqMatches(op: Op, e1: Expr, e2: Expr): nat
    decreases Size(e1) + Size(e2)
  {
    if op.Is(e1) then EqMatches(op, e1.left, e2) + EqMatches(op, e1.right, EliminateEqIn(op, e1.left, e2).snd)
    else if op.Is(e2) then EqMatches(op, e1, e2.left) + EqMatches(op, EliminateEqIn(op, e1, e2.left).fst, e2.right)
    else if SameGuardedConstant(e1, e2) || !Eq(e1, e2) then 0 else 1
  }

  /** The operands of a chain that are not units. */
  function OpenCount(op: Op, e: Expr): nat {
    if op.Is(e) then OpenCount(op, e.left) + OpenCount(op, e.right)
    else if e == op.Unit() then 0 else 1
  }

  /** Every match uses up exactly one operand on each side. */
  lemma {:induction false} MatchesAreUsedUp(op: Op, e1: Expr, e2: Expr)
    ensures var p := EliminateEqIn(op, e1, e2);
      && OpenCount(op, p.fst) + EqMatches(op, e1, e2) == OpenCount(op, e1)
      && OpenCount(op, p.snd) + EqMatches(op, e1, e2) == OpenCount(op, e2)
    decreases Size(e1) + Size(e2)
  {
    hide Eq;
    if op.Is(e1) {
      MatchesAreUsedUp(op, e1.left, e2);
      MatchesAreUsedUp(op, e1.right, EliminateEqIn(op, e1.left, e2).snd);
    } else if op.Is(e2) {
      MatchesAreUsedUp(op, e1, e2.left);
      MatchesAreUsedUp(op, EliminateEqIn(op, e1, e2.left).fst, e2.right);
    } else if Eq(e1, e2) && !SameGuardedConstant(e1, e2) {
      UnitIsGuarded(op, e1, e2);
    }
  }

  lemma UnitIsGuarded(op: Op, e1: Expr, e2: Expr)
    requires Eq(e1, e2) && !SameGuardedConstant(e1, e2)
    ensures e1 != op.Unit() && e2 != op.Unit()
  {
  }

  // ----- soundness: a common chain is factored out -----

  /** One chain operator takes x1, x2 apart into a common part and y1, y2. */
  ghost predicate SharesPart(op: Op, k: T.Tri, x1: T.Tri, x2: T.Tri, y1: T.Tri, y2: T.Tri) {
    x1 == op.Apply(k, y1) && x2 == op.Apply(k, y2)
  }

  /** Two chain steps in a row: the common parts combine. */
  lemma SharesPartTwice(op: Op, k1: T.Tri, k2: T.Tri,
                        l: T.Tri, r: T.Tri, x: T.Tri, l': T.Tri, r': T.Tri, mid: T.Tri, y: T.Tri)
    requires SharesPart(op, k1, l, x, l', mid)
    requires SharesPart(op, k2, r, mid, r', y)
    ensures SharesPart(op, op.Apply(k1, k2), op.Apply(l, r), x, op.Apply(l', r'), y)
  {
    ApplyExchange(op, k1, k2, l', r');
    ApplyAssociates(op, k1, k2, y);
    hide Op.Apply;
  }

  lemma ApplyExchange(op: Op, a: T.Tri, b: T.Tri, c: T.Tri, d: T.Tri)
    ensures op.Apply(op.Apply(a, b), op.Apply(c, d)) == op.Apply(op.Apply(a, c), op.Apply(b, d))
  {
  }

  lemma EvalChain(op: Op, e: Expr, v: Valuation)
    requires op.Is(e)
    ensures Eval(e, v) == op.Apply(Eval(e.left, v), Eval(e.right, v))
  {
  }

  lemma UnitIsNeutral(op: Op, v: Valuation)
    requires Legal(v)
    ensures forall x :: op.Apply(Eval(op.Unit(), v), x) == x
    ensures forall x :: op.Apply(x, Eval(op.Unit(), v)) == x
  {
    assert LegalValue(ConstYes, v(ConstYes)) && LegalValue(ConstNo, v(ConstNo));
  }

  /** One common part accounts for what the chain step takes away on both sides. */
  lemma {:induction false} EliminateEqInFactors(op: Op, e1: Expr, e2: Expr, v: Valuation) returns (k: T.Tri)
    requires Legal(v)
    ensures var p := EliminateEqIn(op, e1, e2);
      SharesPart(op, k, Eval(e1, v), Eval(e2, v), Eval(p.fst, v), Eval(p.snd, v))
    decreases Size(e1) + Size(e2), if op.Is(e1) || op.Is(e2) then 0 else 3
  {
    hide SharesPart, Eval, Legal, SameGuardedConstant;
    if op.Is(e1) {
      k := FirstChainFactors(op, e1, e2, v);
    } else if op.Is(e2) {
      k := SecondChainFactors(op, e1, e2, v);
    } else if SameGuardedConstant(e1, e2) || !Eq(e1, e2) {
      k := NothingShared(op, e1, e2, v);
    } else {
      EqIsSound(e1, e2, v);
      k := AllShared(op, e1, e2, v);
    }
  }

  lemma NothingShared(op: Op, e1: Expr, e2: Expr, v: Valuation) returns (k: T.Tri)
    requires Legal(v)
    ensures SharesPart(op, k, Eval(e1, v), Eval(e2, v), Eval(e1, v), Eval(e2, v))
  {
    UnitIsNeutral(op, v);
    k := Eval(op.Unit(), v);
  }

  lemma AllShared(op: Op, e1: Expr, e2: Expr, v: Valuation) returns (k: T.Tri)
    requires Legal(v) && Eval(e1, v) == Eval(e2, v)
    ensures var unit := Eval(op.Unit(), v); SharesPart(op, k, Eval(e1, v), Eval(e2, v), unit, unit)
  {
    UnitIsNeutral(op, v);
    k := Eval(e1, v);
  }

  lemma {:induction false} FirstChainFactors(op: Op, e1: Expr, e2: Expr, v: Valuation) returns (k: T.Tri)
    requires Legal(v) && op.Is(e1)
    ensures var p := EliminateEqIn(op, e1, e2);
      SharesPart(op, k, Eval(e1, v), Eval(e2, v), Eval(p.fst, v), Eval(p.snd, v))
    decreases Size(e1) + Size(e2), 0, 0
  {
    hide SharesPart, Eval, Legal;
    var a := EliminateEqIn(op, e1.left, e2);
    var b := EliminateEqIn(op, e1.right, a.snd);
    var k1 := EliminateEqInFactors(op, e1.left, e2, v);
    var k2 := EliminateEqInFactors(op, e1.right, a.snd, v);
    k := op.Apply(k1, k2);
    EvalChain(op, e1, v);
    EvalChain(op, op.Make(a.fst, b.fst), v);
    SharesPartTwice(op, k1, k2, Eval(e1.left, v), Eval(e1.right, v), Eval(e2, v),
                    Eval(a.fst, v), Eval(b.fst, v), Eval(a.snd, v), Eval(b.snd, v));
  }

  lemma {:induction false} SecondChainFactors(op: Op, e1: Expr, e2: Expr, v: Valuation) returns (k: T.Tri)
    requires Legal(v) && !op.Is(e1) && op.Is(e2)
    ensures var p := EliminateEqIn(op, e1, e2);
      SharesPart(op, k, Eval(e1, v), Eval(e2, v), Eval(p.fst, v), Eval(p.snd, v))
    decreases Size(e1) + Size(e2), 0, 0
  {
    hide Eval, Legal;
    var a := EliminateEqIn(op, e1, e2.left);
    var b := EliminateEqIn(op, a.fst, e2.right);
    var k1 := EliminateEqInFactors(op, e1, e2.left, v);
    var k2 := EliminateEqInFactors(op, a.fst, e2.right, v);
    k := op.Apply(k1, k2);
    EvalChain(op, e2, v);
    EvalChain(op, op.Make(a.snd, b.snd), v);
    SharesPartTwice(op, k1, k2, Eval(e2.left, v), Eval(e2.right, v), Eval(e1, v),
                    Eval(a.snd, v), Eval(b.snd, v), Eval(a.fst, v), Eval(b.fst, v));
  }

  /** The value between two bounds: what expr_eliminate_eq leaves of a value, put back. */
  function Between(lo: T.Tri, hi: T.Tri, x: T.Tri): T.Tri {
    T.Or(lo, T.And(hi, x))
  }

  /** One chain operator's common part, read as a bound on the values. */
  lemma SharesPartIsBetween(op: Op, k: T.Tri, x1: T.Tri, x2: T.Tri, y1: T.Tri, y2: T.Tri)
    returns (lo: T.Tri, hi: T.Tri)
    requires SharesPart(op, k, x1, x2, y1, y2)
    ensures lo.AtMost(hi) && x1 == Between(lo, hi, y1) && x2 == Between(lo, hi, y2)
  {
    lo, hi := if op.OpOr? then k else T.No, if op.OpAnd? then k else T.Yes;
  }

  lemma BetweenTwice(lo1: T.Tri, hi1: T.Tri, lo2: T.Tri, hi2: T.Tri, x: T.Tri) returns (lo: T.Tri, hi: T.Tri)
    requires lo1.AtMost(hi1) && lo2.AtMost(hi2)
    ensures lo == Between(lo1, hi1, lo2) && hi == Between(lo1, hi1, hi2)
    ensures lo.AtMost(hi) && Between(lo1, hi1, Between(lo2, hi2, x)) == Between(lo, hi, x)
  {
    lo, hi := Between(lo1, hi1, lo2), Between(lo1, hi1, hi2);
  }

  lemma {:induction false} FirstFactors(e1: Expr, e2: Expr, v: Valuation) returns (lo: T.Tri, hi: T.Tri)
    requires Legal(v)
    ensures lo.AtMost(hi)
    ensures var p := EliminateEqFirst(e1, e2);
      Eval(e1, v) == Between(lo, hi, Eval(p.fst, v)) && Eval(e2, v) == Between(lo, hi, Eval(p.snd, v))
    decreases Size(e1) + Size(e2), 1, 0
  {
    var p := EliminateEqFirst(e1, e2);
    var op, k := OpAnd, T.Yes;
    if e1.And? || e1.Or? {
      op := OpOf(e1);
      k := EliminateEqInFactors(op, e1, e2, v);
    }
    lo, hi := SharesPartIsBetween(op, k, Eval(e1, v), Eval(e2, v), Eval(p.fst, v), Eval(p.snd, v));
  }

  lemma {:induction false} SecondFactors(e1: Expr, e2: Expr, v: Valuation) returns (lo: T.Tri, hi: T.Tri)
    requires Legal(v)
    ensures lo.AtMost(hi)
    ensures var p := EliminateEqSecond(e1, e2);
      Eval(e1, v) == Between(lo, hi, Eval(p.fst, v)) && Eval(e2, v) == Between(lo, hi, Eval(p.snd, v))
    decreases Size(e1) + Size(e2), 1, 0
  {
    var p := EliminateEqSecond(e1, e2);
    var op, k := OpAnd, T.Yes;
    if !SameKind(e1, e2) && (e2.And? || e2.Or?) {
      op := OpOf(e2);
      k := EliminateEqInFactors(op, e1, e2, v);
    }
    lo, hi := SharesPartIsBetween(op, k, Eval(e1, v), Eval(e2, v), Eval(p.fst, v), Eval(p.snd, v));
  }

  /** Both inputs are the outputs clipped to one common interval. */
  lemma {:induction false} EliminateEqFactors(e1: Expr, e2: Expr, v: Valuation) returns (lo: T.Tri, hi: T.Tri)
    requires Legal(v)
    ensures lo.AtMost(hi)
    ensures var p := EliminateEq(e1, e2);
      Eval(e1, v) == Between(lo, hi, Eval(p.fst, v)) && Eval(e2, v) == Between(lo, hi, Eval(p.snd, v))
    decreases Size(e1) + Size(e2), 1, 1
  {
    var a := EliminateEqFirst(e1, e2);
    var b := EliminateEqSecond(a.fst, a.snd);
    var lo1, hi1 := FirstFactors(e1, e2, v);
    var lo2, hi2 := SecondFactors(a.fst, a.snd, v);
    EliminateYnKeepsValue(b.fst, v);
    EliminateYnKeepsValue(b.snd, v);
    lo, hi := BetweenTwice(lo1, hi1, lo2, hi2, Eval(b.fst, v));
    var _, _ := BetweenTwice(lo1, hi1, lo2, hi2, Eval(b.snd, v));
  }

  /** expr_eq answers true only for expressions with the same value everywhere. */
  lemma {:induction false} EqIsSound(e1: Expr, e2: Expr, v: Valuation)
    requires Eq(e1, e2) && Legal(v)
    ensures Eval(e1, v) == Eval(e2, v)
    decreases Size(e1) + Size(e2), 2, 0
  {
    match e1
    case Not(a) => EqIsSound(a, e2.arg, v);
    case And(_, _) => var _, _ := EliminateEqFactors(e1, e2, v);
    case Or(_, _) => var _, _ := EliminateEqFactors(e1, e2, v);
    case _ =>
  }

  /** The test behind menu adoption: if nothing of the second is left, the first lies below it. */
  lemma EliminateEqToYes(e1: Expr, e2: Expr, v: Valuation)
    requires Legal(v)
    requires EliminateEq(e1, e2).snd == YES
    ensures Eval(e1, v).AtMost(Eval(e2, v))
  {
    assert LegalValue(ConstYes, v(ConstYes));
    var _, _ := EliminateEqFactors(e1, e2, v);
  }

  // ----- expr_extract_eq -----

  datatype Extracted = Extracted(common: Option<Expr>, fst: Expr, snd: Expr)

  function Conjoin(op: Op, acc: Option<Expr>, e: Expr): Option<Expr> {
    if acc.None? then Some(e) else Some(op.Make(acc.value, e))
  }

  /** expr_extract_eq: equal operands move to the common chain and leave units behind. */
  function ExtractEqIn(op: Op, acc: Option<Expr>, e1: Expr, e2: Expr): (x: Extracted)
    ensures Size(x.fst) <= Size(e1) && Size(x.snd) <= Size(e2)
    decreases Size(e1) + Size(e2)
  {
    if op.Is(e1) then
      var a := ExtractEqIn(op, acc, e1.left, e2);
      var b := ExtractEqIn(op, a.common, e1.right, a.snd);
      Extracted(b.common, op.Make(a.fst, b.fst), b.snd)
    else if op.Is(e2) then
      var a := ExtractEqIn(op, acc, e1, e2.left);
      var b := ExtractEqIn(op, a.common, a.fst, e2.right);
      Extracted(b.common, b.fst, op.Make(a.snd, b.snd))
    else if Eq(e1, e2) then Extracted(Conjoin(op, acc, e1), op.Unit(), op.Unit())
    else Extracted(acc, e1, e2)
  }

  /** expr_extract_eq_and and expr_extract_eq_or */
  function ExtractEq(op: Op, e1: Expr, e2: Expr): Extracted {
    var x := ExtractEqIn(op, None, e1, e2);
    if x.common.None? then x else Extracted(x.common, EliminateYn(x.fst), EliminateYn(x.snd))
  }

  function EvalChainOpt(op: Op, e: Option<Expr>, v: Valuation): T.Tri {
    if e.None? then Eval(op.Unit(), v) else Eval(e.value, v)
  }

  /** x is what extraction made of e1 and e2, and k the value of what it added to the common chain. */
  ghost predicate ExtractsPart(op: Op, k: T.Tri, acc: Option<Expr>, e1: Expr, e2: Expr, x: Extracted, v: Valuation) {
    && SharesPart(op, k, Eval(e1, v), Eval(e2, v), Eval(x.fst, v), Eval(x.snd, v))
    && EvalChainOpt(op, x.common, v) == op.Apply(EvalChainOpt(op, acc, v), k)
  }

  lemma ApplyAssociates(op: Op, a: T.Tri, b: T.Tri, c: T.Tri)
    ensures op.Apply(op.Apply(a, b), c) == op.Apply(a, op.Apply(b, c))
  {
  }

  lemma ExtractingPart(op: Op, acc: Option<Expr>, e1: Expr, e2: Expr, v: Valuation)
    requires Legal(v) && Eval(e1, v) == Eval(e2, v)
    ensures ExtractsPart(op, Eval(e1, v), acc, e1, e2, Extracted(Conjoin(op, acc, e1), op.Unit(), op.Unit()), v)
  {
    UnitIsNeutral(op, v);
    if acc.Some? { EvalChain(op, op.Make(acc.value, e1), v); }
  }

  lemma ExtractingNothing(op: Op, acc: Option<Expr>, e1: Expr, e2: Expr, v: Valuation)
    requires Legal(v)
    ensures ExtractsPart(op, Eval(op.Unit(), v), acc, e1, e2, Extracted(acc, e1, e2), v)
  {
    UnitIsNeutral(op, v);
  }

  lemma {:induction false} ExtractEqInFactors(op: Op, acc: Option<Expr>, e1: Expr, e2: Expr, v: Valuation)
    returns (k: T.Tri)
    requires Legal(v)
    ensures ExtractsPart(op, k, acc, e1, e2, ExtractEqIn(op, acc, e1, e2), v)
    decreases Size(e1) + Size(e2)
  {
    if op.Is(e1) {
      var a := ExtractEqIn(op, acc, e1.left, e2);
      var b := ExtractEqIn(op, a.common, e1.right, a.snd);
      var k1 := ExtractEqInFactors(op, acc, e1.left, e2, v);
      var k2 := ExtractEqInFactors(op, a.common, e1.right, a.snd, v);
      k := op.Apply(k1, k2);
      ApplyAssociates(op, EvalChainOpt(op, acc, v), k1, k2);
      EvalChain(op, e1, v);
      EvalChain(op, op.Make(a.fst, b.fst), v);
      SharesPartTwice(op, k1, k2, Eval(e1.left, v), Eval(e1.right, v), Eval(e2, v),
                      Eval(a.fst, v), Eval(b.fst, v), Eval(a.snd, v), Eval(b.snd, v));
    } else if op.Is(e2) {
      var a := ExtractEqIn(op, acc, e1, e2.left);
      var b := ExtractEqIn(op, a.common, a.fst, e2.right);
      var k1 := ExtractEqInFactors(op, acc, e1, e2.left, v);
      var k2 := ExtractEqInFactors(op, a.common, a.fst, e2.right, v);
      k := op.Apply(k1, k2);
      ApplyAssociates(op, EvalChainOpt(op, acc, v), k1, k2);
      EvalChain(op, e2, v);
      EvalChain(op, op.Make(a.snd, b.snd), v);
      SharesPartTwice(op, k1, k2, Eval(e2.left, v), Eval(e2.right, v), Eval(e1, v),
                      Eval(a.snd, v), Eval(b.snd, v), Eval(a.fst, v), Eval(b.fst, v));
    } else {
      if Eq(e1, e2) {
        EqIsSound(e1, e2, v);
        ExtractingPart(op, acc, e1, e2, v);
        k := Eval(e1, v);
      } else {
        ExtractingNothing(op, acc, e1, e2, v);
        k := Eval(op.Unit(), v);
      }
    }
  }

  /** The extracted chain is the part both inputs share, and nothing is lost of either. */
  lemma ExtractEqFactors(op: Op, e1: Expr, e2: Expr, v: Valuation)
    requires Legal(v)
    ensures var x := ExtractEq(op, e1, e2);
      && Eval(e1, v) == op.Apply(EvalChainOpt(op, x.common, v), Eval(x.fst, v))
      && Eval(e2, v) == op.Apply(EvalChainOpt(op, x.common, v), Eval(x.snd, v))
  {
    var x := ExtractEqIn(op, None, e1, e2);
    var k := ExtractEqInFactors(op, None, e1, e2, v);
    UnitIsNeutral(op, v);
    EliminateYnKeepsValue(x.fst, v);
    EliminateYnKeepsValue(x.snd, v);
  }
}
