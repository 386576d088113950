/** Expressions as the original stores them: mutable nodes, rewritten in place. */
module ExprNodes {
  import opened Expr
  import opened ExprEq
  import opened ExprTransform
  import opened ExprCompare

  datatype Kind = KOr | KAnd | KNot | KEqual | KUnequal | KSymbol

  class Node {
    var kind: Kind
    var left: Node?
    var right: Node?
    var leftSym: Symbol
    var rightSym: Symbol
    ghost var repr: set<object>

    predicate HasRight() reads this { kind == KAnd || kind == KOr }

    predicate HasLeft() reads this { kind == KNot || HasRight() }

    /** The node and what hangs below it is a tree; repr is the set of its nodes. */
    ghost predicate Valid()
      reads this, repr
      decreases repr
    {
      && this in repr
      && (HasLeft() ==>
            && left != null && left in repr && left.repr <= repr && this !in left.repr
            && left.Valid())
      && (HasRight() ==>
            && right != null && right in repr && right.repr <= repr && this !in right.repr
            && left.repr !! right.repr
            && right.Valid())
    }

    /** The expression the tree stands for. */
    ghost function Abs(): Expr
      requires Valid()
      reads this, repr
      decreases repr
    {
      assert HasLeft() ==> left.repr < repr;
      match kind
      case KSymbol => Sym(leftSym)
      case KNot => Not(left.Abs())
      case KAnd => And(left.Abs(), right.Abs())
      case KOr => Or(left.Abs(), right.Abs())
      case KEqual => Equal(leftSym, rightSym)
      case KUnequal => Unequal(leftSym, rightSym)
    }

    constructor Symbol(s: Symbol)
      ensures Valid() && fresh(repr) && Abs() == Sym(s)
    {
      kind, left, right, leftSym, rightSym := KSymbol, null, null, s, ConstNo;
      repr := {this};
    }

    constructor Negation(c: Node)
      requires c.Valid()
      ensures Valid() && fresh(repr - c.repr) && repr == {this} + c.repr && Abs() == Not(c.Abs())
    {
      kind, left, right, leftSym, rightSym := KNot, c, null, ConstNo, ConstNo;
      repr := {this} + c.repr;
    }

    constructor Two(op: Op, l: Node, r: Node)
      requires l.Valid() && r.Valid() && l.repr !! r.repr
      ensures Valid() && fresh(repr - l.repr - r.repr) && repr == {this} + l.repr + r.repr
      ensures Abs() == op.Make(l.Abs(), r.Abs())
    {
      kind, left, right, leftSym, rightSym := if op == OpAnd then KAnd else KOr, l, r, ConstNo, ConstNo;
      repr := {this} + l.repr + r.repr;
    }

    /** Becomes the literal; the operands are dropped. */
    method BecomeSymbol(s: Symbol)
      modifies this
      ensures Valid() && repr == {this} && Abs() == Sym(s)
    {
      kind, leftSym, left, right := KSymbol, s, null, null;
      repr := {this};
    }

    method BecomeNot(c: Node)
      requires c.Valid() && this !in c.repr
      modifies this
      ensures Valid() && repr == {this} + c.repr && Abs() == Not(old(c.Abs()))
    {
      kind, left, right := KNot, c, null;
      repr := {this} + c.repr;
    }

    method BecomeTwo(op: Op, l: Node, r: Node)
      requires l.Valid() && r.Valid() && l.repr !! r.repr && this !in l.repr + r.repr
      modifies this
      ensures Valid() && repr == {this} + l.repr + r.repr
      ensures Abs() == op.Make(old(l.Abs()), old(r.Abs()))
    {
      kind, left, right := if op == OpAnd then KAnd else KOr, l, r;
      repr := {this} + l.repr + r.repr;
    }

    /** *e = *c: takes over the contents of one of its operands. */
    method BecomeChild(c: Node)
      requires c.Valid() && this !in c.repr
      modifies this
      ensures Valid() && repr == {this} + c.repr && Abs() == old(c.Abs())
    {
      kind, left, right, leftSym, rightSym := c.kind, c.left, c.right, c.leftSym, c.rightSym;
      repr := {this} + c.repr;
    }
  }

  /** expr_eliminate_yn: the node stays, its contents change. */
  method EliminateYnInPlace(e: Node)
    requires e.Valid()
    modifies e.repr
    ensures e.Valid() && e.repr <= old(e.repr)
    ensures e.Abs() == EliminateYn(old(e.Abs()))
    decreases e.repr
  {
    hide Collapse;
    if e.kind == KAnd || e.kind == KOr {
      var op := if e.kind == KAnd then OpAnd else OpOr;
      var l, r := e.left, e.right;
      EliminateYnOperands(l, r, e.repr);
      e.repr := {e} + l.repr + r.repr;
      CollapseInPlace(e, op);
    }
  }

  method EliminateYnOperands(l: Node, r: Node, ghost whole: set<object>)
    requires l.Valid() && r.Valid() && l.repr !! r.repr && l.repr < whole && r.repr < whole
    modifies l.repr, r.repr
    ensures l.Valid() && l.repr <= old(l.repr) && l.Abs() == EliminateYn(old(l.Abs()))
    ensures r.Valid() && r.repr <= old(r.repr) && r.Abs() == EliminateYn(old(r.Abs()))
    decreases whole, 0
  {
    hide EliminateYn;
    ghost var second := r.repr;
    assert r in second;
    EliminateYnInPlace(l);
    assert r.repr == second && r.Valid() && r.Abs() == old(r.Abs());
    label one:
    ghost var done := l.repr;
    assert l in done && l.Valid();
    EliminateYnInPlace(r);
    assert l.repr == done && l.Valid() && l.Abs() == old@one(l.Abs());
  }

  /** The four cases of expr_eliminate_yn at a node whose operands are done. */
  method CollapseInPlace(e: Node, op: Op)
    requires e.Valid() && e.kind == (if op == OpAnd then KAnd else KOr)
    modifies e
    ensures e.Valid() && e.repr <= old(e.repr)
    ensures e.Abs() == Collapse(op, old(e.left.Abs()), old(e.right.Abs()))
  {
    var l, r := e.left, e.right;
    if l.kind == KSymbol && op.Absorber() == Sym(l.leftSym) {
      e.BecomeSymbol(op.Absorber().sym);
    } else if l.kind == KSymbol && op.Unit() == Sym(l.leftSym) {
      e.BecomeChild(r);
    } else if r.kind == KSymbol && op.Absorber() == Sym(r.leftSym) {
      e.BecomeSymbol(op.Absorber().sym);
    } else if r.kind == KSymbol && op.Unit() == Sym(r.leftSym) {
      e.BecomeChild(l);
    }
  }

  /** e == b and e != b of a boolean with a literal, rewritten where they stand. */
  method TransformTest(e: Node)
    requires e.Valid() && (e.kind == KEqual || e.kind == KUnequal)
    modifies e
    ensures e.Valid() && fresh(e.repr - old(e.repr))
    ensures e.Abs() == Transform(old(e.Abs()))
  {
    if e.leftSym.Type() != Boolean || !e.rightSym.IsLiteral() {
      return;
    }
    if e.rightSym == ConstMod {
      e.BecomeSymbol(if e.kind == KEqual then ConstNo else ConstYes);
    } else if (e.rightSym == ConstYes) == (e.kind == KEqual) {
      e.BecomeSymbol(e.leftSym);
    } else {
      var s := new Node.Symbol(e.leftSym);
      e.BecomeNot(s);
    }
  }

  /** !(a || b) and !(a && b): both nodes change kind and one new node is allocated. */
  method PushNot(e: Node)
    requires e.Valid() && e.kind == KNot && e.left.HasRight()
    modifies e, e.left
    ensures e.Valid() && fresh(e.repr - old(e.repr))
    ensures e.Abs() == DeMorgan(old(e.left.Abs()))
  {
    var tmp := e.left;
    var op := if tmp.kind == KOr then OpAnd else OpOr;
    var n := new Node.Negation(tmp.right);
    assert n.repr !! tmp.left.repr && tmp !in n.repr && tmp.left.Valid();
    ghost var x := n.Abs();
    tmp.BecomeNot(tmp.left);
    assert n.Valid() && n.Abs() == x && n.repr !! tmp.repr;
    e.BecomeTwo(op, tmp, n);
  }

  /** expr_transform: the result may be another node than the one handed in. */
  method TransformInPlace(e: Node) returns (r: Node)
    requires e.Valid()
    modifies e.repr
    ensures r.Valid() && fresh(r.repr - old(e.repr))
    ensures r.Abs() == Transform(old(e.Abs()))
    decreases Weight(e.Abs()), 1
  {
    r := e;
    if e.HasRight() {
      TransformOperands(e);
    } else if e.kind == KNot {
      var l := TransformInPlace(e.left);
      e.BecomeNot(l);
      r := TransformNegation(e);
    } else if e.kind != KSymbol {
      TransformTest(e);
    }
  }

  method TransformOperands(e: Node)
    requires e.Valid() && e.HasRight()
    modifies e.repr
    ensures e.Valid() && fresh(e.repr - old(e.repr))
    ensures e.Abs() == Transform(old(e.Abs()))
    decreases Weight(e.Abs()), 0
  {
    var l := TransformInPlace(e.left);
    var r := TransformInPlace(e.right);
    e.BecomeTwo(if e.kind == KAnd then OpAnd else OpOr, l, r);
  }

  /** The second half of expr_transform at a NOT whose operand has been transformed. */
  method TransformNegation(e: Node) returns (r: Node)
    requires e.Valid() && e.kind == KNot
    modifies e.repr
    ensures r.Valid() && fresh(r.repr - old(e.repr))
    ensures r.Abs() == TransformNot(old(e.left.Abs()))
    decreases 2 * Weight(e.left.Abs()) + 1, 0
  {
    r := e;
    var l := e.left;
    if l.HasRight() {
      PushNot(e);
      r := TransformInPlace(e);
    } else if l.kind == KNot {
      r := TransformInPlace(l.left);
    } else if l.kind == KEqual || l.kind == KUnequal {
      l.kind := if l.kind == KEqual then KUnequal else KEqual;
      r := l;
    } else if l.leftSym.IsLiteral() {
      l.leftSym := if l.leftSym == ConstYes then ConstNo else if l.leftSym == ConstNo then ConstYes else ConstMod;
      r := l;
    }
  }

  /** expr_trans_bool */
  method TransBoolInPlace(e: Node)
    requires e.Valid()
    modifies e.repr
    ensures e.Valid() && e.repr == old(e.repr)
    ensures e.Abs() == TransBool(old(e.Abs()))
    decreases e.repr
  {
    match e.kind {
      case KNot => TransBoolInPlace(e.left);
      case KAnd => TransBoolInPlace(e.left); TransBoolInPlace(e.right);
      case KOr => TransBoolInPlace(e.left); TransBoolInPlace(e.right);
      case KUnequal =>
        if e.leftSym.Type() == Tristate && e.rightSym == ConstNo {
          e.kind := KSymbol;
        }
      case _ =>
    }
  }
}
