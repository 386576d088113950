/** expr_transform: comparisons of booleans with literals become symbols, negations move inwards. */
module ExprTransform {
  import T = Tristate
  import opened Options
  import opened Expr

  /** A size under which pushing a negation through AND or OR is progress. */
  function Weight(e: Expr): (n: nat)
    ensures n >= 1
  {
    match e
    case Sym(_) => 1
    case Not(a) => 2 * Weight(a) + 1
    case And(l, r) => Weight(l) + Weight(r) + 2
    case Or(l, r) => Weight(l) + Weight(r) + 2
    case Equal(_, _) => 3
    case Unequal(_, _) => 3
  }

  function TransformEqual(a: Symbol, b: Symbol): (r: Expr)
    ensures Weight(r) <= 3
  {
    if a.Type() != Boolean then Equal(a, b)
    else if b == ConstNo then Not(Sym(a))
    else if b == ConstMod then NO
    else if b == ConstYes then Sym(a)
    else Equal(a, b)
  }

  function TransformUnequal(a: Symbol, b: Symbol): (r: Expr)
    ensures Weight(r) <= 3
  {
    if a.Type() != Boolean then Unequal(a, b)
    else if b == ConstNo then Sym(a)
    else if b == ConstMod then YES
    else if b == ConstYes then Not(Sym(a))
    else Unequal(a, b)
  }

  /** The negation of an AND or OR node, moved to its operands. */
  function DeMorgan(e: Expr): (r: Expr)
    requires e.And? || e.Or?
    ensures Weight(r) < Weight(Not(e))
  {
    var l, r := Not(e.left), Not(e.right);
    assert Weight(l) == 2 * Weight(e.left) + 1 && Weight(r) == 2 * Weight(e.right) + 1;
    if e.And? then Or(l, r) else And(l, r)
  }

  function Transform(e: Expr): (r: Expr)
    ensures Weight(r) <= Weight(e)
    decreases Weight(e), 1
  {
    match e
    case Sym(_) => e
    case Equal(a, b) => TransformEqual(a, b)
    case Unequal(a, b) => TransformUnequal(a, b)
    case And(l, r) => And(Transform(l), Transform(r))
    case Or(l, r) => Or(Transform(l), Transform(r))
    case Not(a) => TransformNot(Transform(a))
  }

  /** The negation of an operand that has been transformed; after De Morgan all of it is
      transformed again. */
  function TransformNot(t: Expr): (r: Expr)
    ensures Weight(r) <= Weight(Not(t))
    decreases 2 * Weight(t) + 1, 0
  {
    match t
    case Not(b) => Transform(b)
    case Equal(x, y) => Unequal(x, y)
    case Unequal(x, y) => Equal(x, y)
    case Or(_, _) => Transform(DeMorgan(t))
    case And(_, _) => Transform(DeMorgan(t))
    case Sym(s) =>
      if s == ConstYes then NO
      else if s == ConstMod then Sym(ConstMod)
      else if s == ConstNo then YES
      else Not(t)
  }

  function TransformOpt(e: Option<Expr>): Option<Expr> {
    if e.None? then None else Some(Transform(e.value))
  }

  lemma {:induction false} TransformKeepsValue(e: Expr, v: Valuation)
    requires Legal(v)
    ensures Eval(Transform(e), v) == Eval(e, v)
    decreases Weight(e), 1
  {
    match e
    case Sym(_) =>
    case Equal(a, b) => assert LegalValue(a, v(a)) && LegalValue(b, v(b));
    case Unequal(a, b) => assert LegalValue(a, v(a)) && LegalValue(b, v(b));
    case And(l, r) => TransformKeepsValue(l, v); TransformKeepsValue(r, v);
    case Or(l, r) => TransformKeepsValue(l, v); TransformKeepsValue(r, v);
    case Not(a) => TransformKeepsValue(a, v); TransformNotNegates(Transform(a), v);
  }

  lemma {:induction false} TransformNotNegates(t: Expr, v: Valuation)
    requires Legal(v)
    ensures Eval(TransformNot(t), v) == T.Not(Eval(t, v))
    decreases 2 * Weight(t) + 1, 0
  {
    match t
    case Not(b) => TransformKeepsValue(b, v);
    case Or(_, _) => TransformKeepsValue(DeMorgan(t), v);
    case And(_, _) => TransformKeepsValue(DeMorgan(t), v);
    case Sym(s) => assert LegalValue(s, v(s));
    case Equal(_, _) =>
    case Unequal(_, _) =>
  }

  /** The comparisons that are left: not of a boolean with y, m or n. */
  predicate PlainComparison(a: Symbol, b: Symbol) {
    a.Type() == Boolean ==> !b.IsLiteral()
  }

  /** NOT stands only on symbols other than the three literals. */
  predicate IsNormal(e: Expr) {
    match e
    case Sym(_) => true
    case Not(a) => a.Sym? && !a.sym.IsLiteral()
    case And(l, r) => IsNormal(l) && IsNormal(r)
    case Or(l, r) => IsNormal(l) && IsNormal(r)
    case Equal(a, b) => PlainComparison(a, b)
    case Unequal(a, b) => PlainComparison(a, b)
  }

  lemma {:induction false} TransformIsNormal(e: Expr)
    ensures IsNormal(Transform(e))
    decreases Weight(e), 1
  {
    match e
    case Sym(_) =>
    case Equal(_, _) =>
    case Unequal(_, _) =>
    case And(l, r) => TransformIsNormal(l); TransformIsNormal(r);
    case Or(l, r) => TransformIsNormal(l); TransformIsNormal(r);
    case Not(a) => TransformIsNormal(a); TransformNotIsNormal(Transform(a));
  }

  lemma {:induction false} TransformNotIsNormal(t: Expr)
    requires IsNormal(t)
    ensures IsNormal(TransformNot(t))
    decreases 2 * Weight(t) + 1, 0
  {
    match t
    case Not(b) => TransformIsNormal(b);
    case Or(_, _) => TransformIsNormal(DeMorgan(t));
    case And(_, _) => TransformIsNormal(DeMorgan(t));
    case _ =>
  }

  /** The normal forms are exactly the expressions the transformation leaves alone. */
  lemma {:induction false} NormalIffFixed(e: Expr)
    ensures IsNormal(e) <==> Transform(e) == e
  {
    if IsNormal(e) {
      NormalIsFixed(e);
    } else {
      TransformIsNormal(e);
    }
  }

  lemma {:induction false} NormalIsFixed(e: Expr)
    requires IsNormal(e)
    ensures Transform(e) == e
  {
    match e
    case And(l, r) => NormalIsFixed(l); NormalIsFixed(r);
    case Or(l, r) => NormalIsFixed(l); NormalIsFixed(r);
    case _ =>
  }

  lemma TransformIsIdempotent(e: Expr)
    ensures Transform(Transform(e)) == Transform(e)
  {
    TransformIsNormal(e);
    NormalIsFixed(Transform(e));
  }

  // ----- what stays where it is -----

  /** A leaf without its polarity: nothing for a literal and for a boolean compared with m, the symbol where it is
      tested by itself, and both sides of any other comparison. */
  datatype Atom = Constant | Test(a: Symbol) | Comparison(a: Symbol, b: Symbol)

  function AtomOf(a: Symbol, b: Symbol): Atom {
    if a.Type() != Boolean || !b.IsLiteral() then Comparison(a, b)
    else if b == ConstMod then Constant
    else Test(a)
  }

  /** The leaves from left to right. */
  function Atoms(e: Expr): seq<Atom> {
    match e
    case Sym(s) => [if s.IsLiteral() then Constant else Test(s)]
    case Not(a) => Atoms(a)
    case And(l, r) => Atoms(l) + Atoms(r)
    case Or(l, r) => Atoms(l) + Atoms(r)
    case Equal(a, b) => [AtomOf(a, b)]
    case Unequal(a, b) => [AtomOf(a, b)]
  }

  /** Every leaf stays, and in its place. */
  lemma {:induction false} TransformKeepsAtoms(e: Expr)
    ensures Atoms(Transform(e)) == Atoms(e)
    decreases Weight(e), 1
  {
    match e
    case And(l, r) => TransformKeepsAtoms(l); TransformKeepsAtoms(r);
    case Or(l, r) => TransformKeepsAtoms(l); TransformKeepsAtoms(r);
    case Not(a) => TransformKeepsAtoms(a); TransformNotKeepsAtoms(Transform(a));
    case _ =>
  }

  lemma {:induction false} TransformNotKeepsAtoms(t: Expr)
    ensures Atoms(TransformNot(t)) == Atoms(t)
    decreases 2 * Weight(t) + 1, 0
  {
    match t
    case Not(b) => TransformKeepsAtoms(b);
    case Or(_, _) => TransformKeepsAtoms(DeMorgan(t));
    case And(_, _) => TransformKeepsAtoms(DeMorgan(t));
    case _ =>
  }
}
