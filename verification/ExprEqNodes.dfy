/** expr_eq and expr_eliminate_eq on nodes: the comparison works on copies, which it takes apart. */
module ExprEqNodes {
  import opened Expr
  import opened ExprEq
  import opened ExprNodes

  function KindOf(op: Op): Kind {
    if op == OpAnd then KAnd else KOr
  }

  /** expr_copy: a tree of new nodes. */
  method Copy(e: Node) returns (c: Node)
    requires e.Valid()
    ensures c.Valid() && fresh(c.repr) && c.Abs() == e.Abs()
    decreases e.repr
  {
    if e.kind == KAnd || e.kind == KOr {
      c := CopyChain(if e.kind == KAnd then OpAnd else OpOr, e);
    } else if e.kind == KNot {
      var a := Copy(e.left);
      c := new Node.Negation(a);
    } else {
      c := CopyLeaf(e);
    }
  }

  method CopyChain(op: Op, e: Node) returns (c: Node)
    requires e.Valid() && e.kind == KindOf(op)
    ensures c.Valid() && fresh(c.repr) && c.Abs() == e.Abs()
    decreases e.repr, 1
  {
    hide Size;
    var l, r := CopyTwo(e.left, e.right, e.repr);
    c := new Node.Two(op, l, r);
  }

  method CopyLeaf(e: Node) returns (c: Node)
    requires e.Valid() && !e.HasLeft()
    ensures c.Valid() && fresh(c.repr) && c.Abs() == e.Abs()
  {
    c := new Node.Symbol(e.leftSym);
    c.kind, c.rightSym := e.kind, e.rightSym;
  }

  /** Two copies, which share no node. */
  method CopyTwo(e1: Node, e2: Node, ghost whole: set<object>) returns (c1: Node, c2: Node)
    requires e1.Valid() && e2.Valid() && e1.repr < whole && e2.repr < whole
    ensures Unshared(c1, c2) && fresh(c1.repr) && fresh(c2.repr)
    ensures c1.Abs() == e1.Abs() && c2.Abs() == e2.Abs()
    decreases whole, 0
  {
    c1 := Copy(e1);
    ghost var done := c1.repr;
    assert c1 in done;
    c2 := Copy(e2);
    assert c1.repr == done;
  }

  method CopyBoth(e1: Node, e2: Node) returns (c1: Node, c2: Node)
    requires e1.Valid() && e2.Valid()
    ensures Unshared(c1, c2) && fresh(c1.repr) && fresh(c2.repr)
    ensures c1.Abs() == e1.Abs() && c2.Abs() == e2.Abs() && PairSize(c1, c2) == PairSize(e1, e2)
  {
    c1 := Copy(e1);
    ghost var done := c1.repr;
    assert c1 in done;
    c2 := Copy(e2);
    assert c1.repr == done;
  }

  /** Two trees that share no node. */
  ghost predicate Unshared(e1: Node, e2: Node)
    reads e1, e1.repr, e2, e2.repr
  {
    e1.Valid() && e2.Valid() && e1.repr !! e2.repr
  }

  ghost function AbsPair(e1: Node, e2: Node): Pair
    requires Unshared(e1, e2)
    reads e1, e1.repr, e2, e2.repr
  {
    Pair(e1.Abs(), e2.Abs())
  }

  ghost function PairSize(e1: Node, e2: Node): nat
    requires e1.Valid() && e2.Valid()
    reads e1, e1.repr, e2, e2.repr
  {
    Size(e1.Abs()) + Size(e2.Abs())
  }

  lemma ChainIsChain(op: Op, e: Node)
    requires e.Valid()
    ensures e.kind == KindOf(op) <==> op.Is(e.Abs())
  {
  }

  /** expr_eq. */
  method EqOfNodes(e1: Node, e2: Node) returns (res: bool)
    requires e1.Valid() && e2.Valid()
    ensures res == Eq(e1.Abs(), e2.Abs())
    decreases PairSize(e1, e2), 2
  {
    KindIsKind(e1, e2);
    if e1.kind != e2.kind { return false; }
    if e1.kind == KEqual || e1.kind == KUnequal {
      res := e1.leftSym == e2.leftSym && e1.rightSym == e2.rightSym;
    } else if e1.kind == KSymbol {
      res := e1.leftSym == e2.leftSym;
    } else if e1.kind == KNot {
      res := EqOfNodes(e1.left, e2.left);
    } else {
      res := EqOfChains(e1, e2);
    }
  }

  /** The copies are reduced against each other; the number of matches among them is forgotten. */
  method EqOfChains(e1: Node, e2: Node) returns (res: bool)
    requires e1.Valid() && e2.Valid() && SameKind(e1.Abs(), e2.Abs()) && (e1.Abs().And? || e1.Abs().Or?)
    ensures res == Eq(e1.Abs(), e2.Abs())
    decreases PairSize(e1, e2), 1, 2
  {
    hide *;
    ghost var x, y := e1.Abs(), e2.Abs();
    EqByElimination(e1.Abs(), e2.Abs());
    var c1, c2 := CopyBoth(e1, e2);
    var _ := EliminateEqPair(c1, c2);
    res := SameSymbol(c1, c2);
  }

  method SameSymbol(c1: Node, c2: Node) returns (same: bool)
    requires Unshared(c1, c2)
    ensures same <==> IsOneSymbol(AbsPair(c1, c2))
  {
    same := c1.kind == KSymbol && c2.kind == KSymbol && c1.leftSym == c2.leftSym;
  }

  predicate IsOneSymbol(p: Pair) {
    p.fst.Sym? && p.snd.Sym? && p.fst.sym == p.snd.sym
  }

  lemma EqByElimination(x: Expr, y: Expr)
    requires SameKind(x, y) && (x.And? || x.Or?)
    ensures Eq(x, y) <==> IsOneSymbol(EliminateEq(x, y))
  {
  }

  /** Two operands that are no chains of the operator: equal ones become units. */
  method MatchOperands(op: Op, e1: Node, e2: Node) returns (count: nat)
    requires Unshared(e1, e2) && e1.kind != KindOf(op) && e2.kind != KindOf(op)
    modifies e1, e2
    ensures Unshared(e1, e2) && e1.repr <= old(e1.repr) && e2.repr <= old(e2.repr)
    ensures AbsPair(e1, e2) == EliminateEqIn(op, old(e1.Abs()), old(e2.Abs()))
    ensures count == EqMatches(op, old(e1.Abs()), old(e2.Abs()))
    decreases PairSize(e1, e2), 3
  {
    hide EliminateEqIn, EqMatches, Eq;
    ChainIsChain(op, e1);
    ChainIsChain(op, e2);
    EliminateEqInOfOperands(op, e1.Abs(), e2.Abs());
    MatchesOfOperands(op, e1.Abs(), e2.Abs());
    count := 0;
    if e1.kind == KSymbol && e2.kind == KSymbol && e1.leftSym == e2.leftSym && e1.leftSym.HasYesOrNoFlag() {
      return;
    }
    var equal := EqOfNodes(e1, e2);
    if !equal { return; }
    count := 1;
    BecomeUnits(op, e1, e2);
  }

  method BecomeUnits(op: Op, e1: Node, e2: Node)
    requires e1 != e2
    modifies e1, e2
    ensures Unshared(e1, e2) && AbsPair(e1, e2) == Pair(op.Unit(), op.Unit())
    ensures e1.repr == {e1} && e2.repr == {e2}
  {
    e1.BecomeSymbol(op.Unit().sym);
    e2.BecomeSymbol(op.Unit().sym);
    assert e1.Valid() && e1.Abs() == op.Unit();
  }

  lemma MatchesOfOperands(op: Op, x: Expr, y: Expr)
    requires !op.Is(x) && !op.Is(y)
    ensures EqMatches(op, x, y) == if SameGuardedConstant(x, y) || !Eq(x, y) then 0 else 1
  {
  }

  lemma MatchesOfFirst(op: Op, x: Expr, e: Expr)
    requires op.Is(x)
    ensures EqMatches(op, x, e)
         == EqMatches(op, x.left, e) + EqMatches(op, x.right, EliminateEqIn(op, x.left, e).snd)
  {
  }

  lemma MatchesOfSecond(op: Op, x: Expr, e: Expr)
    requires !op.Is(x) && op.Is(e)
    ensures EqMatches(op, x, e)
         == EqMatches(op, x, e.left) + EqMatches(op, EliminateEqIn(op, x, e.left).fst, e.right)
  {
  }

  /** __expr_eliminate_eq; the result says how often trans_count was raised. */
  method EliminateEqInPlace(op: Op, e1: Node, e2: Node) returns (count: nat)
    requires Unshared(e1, e2)
    modifies e1.repr, e2.repr
    ensures Unshared(e1, e2) && e1.repr <= old(e1.repr) && e2.repr <= old(e2.repr)
    ensures AbsPair(e1, e2) == EliminateEqIn(op, old(e1.Abs()), old(e2.Abs()))
    ensures count == EqMatches(op, old(e1.Abs()), old(e2.Abs()))
    decreases PairSize(e1, e2), if e1.kind == KindOf(op) || e2.kind == KindOf(op) then 0 else 4, 1
  {
    if e1.kind == KindOf(op) {
      count := EliminateFirstChain(op, e1, e2);
    } else if e2.kind == KindOf(op) {
      count := EliminateSecondChain(op, e1, e2);
    } else {
      count := MatchOperands(op, e1, e2);
    }
  }

  lemma OperandsOfChain(op: Op, e: Node)
    requires e.Valid() && e.kind == KindOf(op)
    ensures e.left != null && e.right != null
    ensures op.Is(e.Abs()) && e.Abs().left == e.left.Abs() && e.Abs().right == e.right.Abs()
    ensures Size(e.Abs()) == 1 + Size(e.left.Abs()) + Size(e.right.Abs())
  {
  }

  /** The node above two operands that have changed. */
  method Rejoin(op: Op, e: Node, ghost l: Node, ghost r: Node)
    requires e.kind == KindOf(op) && e.left == l && e.right == r
    requires l.Valid() && r.Valid() && l.repr !! r.repr && e !in l.repr && e !in r.repr
    modifies e`repr
    ensures e.Valid() && e.repr == {e} + l.repr + r.repr && e.Abs() == op.Make(old(l.Abs()), old(r.Abs()))
  {
    e.repr := {e} + l.repr + r.repr;
  }

  /** The two operands of the first chain meet the second expression one after the other. */
  method BothAgainst(op: Op, l: Node, r: Node, e: Node, ghost bound: nat) returns (count: nat)
    requires Unshared(l, e) && Unshared(r, e) && l.repr !! r.repr
    requires PairSize(l, e) <= bound && PairSize(r, e) <= bound
    modifies l.repr, r.repr, e.repr
    ensures Unshared(l, e) && Unshared(r, e) && l.repr !! r.repr
    ensures l.repr <= old(l.repr) && r.repr <= old(r.repr) && e.repr <= old(e.repr)
    ensures var a := EliminateEqIn(op, old(l.Abs()), old(e.Abs())); var b := EliminateEqIn(op, old(r.Abs()), a.snd);
      l.Abs() == a.fst && r.Abs() == b.fst && e.Abs() == b.snd
    ensures count == EqMatches(op, old(l.Abs()), old(e.Abs()))
                  + EqMatches(op, old(r.Abs()), EliminateEqIn(op, old(l.Abs()), old(e.Abs())).snd)
    decreases bound, 5
  {
    hide EliminateEqIn, EqMatches, Size;
    ghost var rest := r.repr;
    assert r in rest;
    var n := EliminateEqInPlace(op, l, e);
    assert r.repr == rest && r.Valid() && r.Abs() == old(r.Abs());
    label first:
    ghost var done := l.repr;
    assert l in done && l.Valid();
    var m := EliminateEqInPlace(op, r, e);
    assert l.repr == done && l.Valid() && l.Abs() == old@first(l.Abs());
    count := n + m;
  }

  method EliminateFirstChain(op: Op, e1: Node, e2: Node) returns (count: nat)
    requires Unshared(e1, e2) && e1.kind == KindOf(op)
    modifies e1.repr, e2.repr
    ensures Unshared(e1, e2) && e1.repr <= old(e1.repr) && e2.repr <= old(e2.repr)
    ensures AbsPair(e1, e2) == EliminateEqIn(op, old(e1.Abs()), old(e2.Abs()))
    ensures count == EqMatches(op, old(e1.Abs()), old(e2.Abs()))
    decreases PairSize(e1, e2), 0, 0
  {
    hide EliminateEqIn, EqMatches, Size;
    OperandsOfChain(op, e1);
    var l, r := e1.left, e1.right;
    count := BothAgainst(op, l, r, e2, PairSize(e1, e2) - 1);
    Rejoin(op, e1, l, r);
    EliminateEqInOfChain(op, old(e1.Abs()), old(e2.Abs()));
    MatchesOfFirst(op, old(e1.Abs()), old(e2.Abs()));
  }

  /** The first expression meets the two operands of the second chain one after the other. */
  method AgainstBoth(op: Op, e: Node, l: Node, r: Node, ghost bound: nat) returns (count: nat)
    requires Unshared(e, l) && Unshared(e, r) && l.repr !! r.repr
    requires PairSize(e, l) <= bound && PairSize(e, r) <= bound
    modifies l.repr, r.repr, e.repr
    ensures Unshared(e, l) && Unshared(e, r) && l.repr !! r.repr
    ensures l.repr <= old(l.repr) && r.repr <= old(r.repr) && e.repr <= old(e.repr)
    ensures var a := EliminateEqIn(op, old(e.Abs()), old(l.Abs())); var b := EliminateEqIn(op, a.fst, old(r.Abs()));
      l.Abs() == a.snd && r.Abs() == b.snd && e.Abs() == b.fst
    ensures count == EqMatches(op, old(e.Abs()), old(l.Abs()))
                  + EqMatches(op, EliminateEqIn(op, old(e.Abs()), old(l.Abs())).fst, old(r.Abs()))
    decreases bound, 5
  {
    hide EliminateEqIn, EqMatches, Size;
    ghost var rest := r.repr;
    assert r in rest;
    var n := EliminateEqInPlace(op, e, l);
    assert r.repr == rest && r.Valid() && r.Abs() == old(r.Abs());
    label first:
    ghost var done := l.repr;
    assert l in done && l.Valid();
    var m := EliminateEqInPlace(op, e, r);
    assert l.repr == done && l.Valid() && l.Abs() == old@first(l.Abs());
    count := n + m;
  }

  method EliminateSecondChain(op: Op, e1: Node, e2: Node) returns (count: nat)
    requires Unshared(e1, e2) && e1.kind != KindOf(op) && e2.kind == KindOf(op)
    modifies e1.repr, e2.repr
    ensures Unshared(e1, e2) && e1.repr <= old(e1.repr) && e2.repr <= old(e2.repr)
    ensures AbsPair(e1, e2) == EliminateEqIn(op, old(e1.Abs()), old(e2.Abs()))
    ensures count == EqMatches(op, old(e1.Abs()), old(e2.Abs()))
    decreases PairSize(e1, e2), 0, 0
  {
    hide EliminateEqIn, EqMatches, Size;
    OperandsOfChain(op, e2);
    ChainIsChain(op, e1);
    var l, r := e2.left, e2.right;
    count := AgainstBoth(op, e1, l, r, PairSize(e1, e2) - 1);
    Rejoin(op, e2, l, r);
    EliminateEqInOfSecond(op, old(e1.Abs()), old(e2.Abs()));
    MatchesOfSecond(op, old(e1.Abs()), old(e2.Abs()));
  }

  lemma KindIsKind(e1: Node, e2: Node)
    requires e1.Valid() && e2.Valid()
    ensures e1.kind == e2.kind <==> SameKind(e1.Abs(), e2.Abs())
    ensures e1.kind == KAnd <==> e1.Abs().And?
    ensures e1.kind == KOr <==> e1.Abs().Or?
  {
  }

  /** The matches of the first switch of expr_eliminate_eq. */
  function FirstMatches(x: Expr, y: Expr): nat {
    if x.And? || x.Or? then EqMatches(OpOf(x), x, y) else 0
  }

  /** The matches of the second switch, when the types still differ. */
  function SecondMatches(x: Expr, y: Expr): nat {
    if !SameKind(x, y) && (y.And? || y.Or?) then EqMatches(OpOf(y), x, y) else 0
  }

  /** The first switch of expr_eliminate_eq. */
  method EliminateFirst(e1: Node, e2: Node) returns (count: nat)
    requires Unshared(e1, e2)
    modifies e1.repr, e2.repr
    ensures Unshared(e1, e2) && e1.repr <= old(e1.repr) && e2.repr <= old(e2.repr)
    ensures AbsPair(e1, e2) == EliminateEqFirst(old(e1.Abs()), old(e2.Abs()))
    ensures count == FirstMatches(old(e1.Abs()), old(e2.Abs()))
    decreases PairSize(e1, e2), 1, 0
  {
    hide EliminateEqIn, EqMatches;
    KindIsKind(e1, e2);
    count := 0;
    if e1.kind == KAnd || e1.kind == KOr {
      count := EliminateEqInPlace(if e1.kind == KAnd then OpAnd else OpOr, e1, e2);
    }
  }

  /** The second switch, when the types still differ. */
  method EliminateSecond(e1: Node, e2: Node) returns (count: nat)
    requires Unshared(e1, e2)
    modifies e1.repr, e2.repr
    ensures Unshared(e1, e2) && e1.repr <= old(e1.repr) && e2.repr <= old(e2.repr)
    ensures AbsPair(e1, e2) == EliminateEqSecond(old(e1.Abs()), old(e2.Abs()))
    ensures count == SecondMatches(old(e1.Abs()), old(e2.Abs()))
    decreases PairSize(e1, e2), 1, 0
  {
    hide EliminateEqIn, EqMatches;
    KindIsKind(e1, e2);
    KindIsKind(e2, e1);
    count := 0;
    if e1.kind != e2.kind && (e2.kind == KAnd || e2.kind == KOr) {
      count := EliminateEqInPlace(if e2.kind == KAnd then OpAnd else OpOr, e1, e2);
    }
  }

  /** The two calls of expr_eliminate_yn at the end. */
  method EliminateYnBoth(e1: Node, e2: Node)
    requires Unshared(e1, e2)
    modifies e1.repr, e2.repr
    ensures Unshared(e1, e2) && e1.repr <= old(e1.repr) && e2.repr <= old(e2.repr)
    ensures AbsPair(e1, e2) == Pair(EliminateYn(old(e1.Abs())), EliminateYn(old(e2.Abs())))
  {
    hide EliminateYn;
    ghost var second := e2.repr;
    assert e2 in second && e2.Valid();
    EliminateYnInPlace(e1);
    assert e2.repr == second && e2.Valid() && e2.Abs() == old(e2.Abs());
    label one:
    ghost var fst := e1.repr;
    assert e1 in fst && e1.Valid();
    EliminateYnInPlace(e2);
    assert e1.repr == fst && e1.Valid() && e1.Abs() == old@one(e1.Abs());
  }

  /** expr_eliminate_eq; the result says how often trans_count was raised. */
  method EliminateEqPair(e1: Node, e2: Node) returns (count: nat)
    requires Unshared(e1, e2)
    modifies e1.repr, e2.repr
    ensures Unshared(e1, e2) && e1.repr <= old(e1.repr) && e2.repr <= old(e2.repr)
    ensures AbsPair(e1, e2) == EliminateEq(old(e1.Abs()), old(e2.Abs()))
    ensures var a := EliminateEqFirst(old(e1.Abs()), old(e2.Abs()));
      count == FirstMatches(old(e1.Abs()), old(e2.Abs())) + SecondMatches(a.fst, a.snd)
    decreases PairSize(e1, e2), 1, 1
  {
    hide EliminateEqFirst, EliminateEqSecond, FirstMatches, SecondMatches, EliminateYn, Size;
    var n := EliminateFirst(e1, e2);
    var m := EliminateSecond(e1, e2);
    EliminateYnBoth(e1, e2);
    count := n + m;
  }
}
