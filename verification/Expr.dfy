/** Symbols, dependency expressions and their value under a valuation. */
module Expr {
  import T = Tristate
  import opened Options

  datatype SymType = Unknown | Boolean | Tristate | Int | Hex | String | Other

  /** The three literals, quoted constants, and the symbols the configuration declares. */
  datatype RawSymbol =
    | ConstYes
    | ConstMod
    | ConstNo
    | Quoted(text: string)
    | Config(id: nat, declared: SymType)
  {
    function Type(): SymType {
      if Config? then declared else Unknown
    }

    /** flags & SYMBOL_CONST; a quoted constant carries all three literal bits. */
    predicate IsConst() {
      !Config?
    }

    /** flags & (SYMBOL_YES|SYMBOL_NO) */
    predicate HasYesOrNoFlag() {
      ConstYes? || ConstNo? || Quoted?
    }

    predicate IsLiteral() {
      ConstYes? || ConstMod? || ConstNo?
    }
  }

  /** Looking up the constant "y", "m" or "n" always answers the literal, never a quoted constant. */
  type Symbol = s: RawSymbol | s.Quoted? ==> s.text !in {"y", "m", "n"}
    witness ConstYes

  datatype Value = Value(tri: T.Tri, text: string)

  type Valuation = Symbol -> Value

  /** What the evaluator can give a symbol: a boolean is never m, a bool or tristate reads as its
      own letter, and every other symbol has the tristate n next to a free text. */
  predicate LegalValue(s: Symbol, x: Value) {
    match s
    case ConstYes => x == Value(T.Yes, "y")
    case ConstMod => x == Value(T.Mod, "m")
    case ConstNo => x == Value(T.No, "n")
    case Quoted(text) => x == Value(T.No, text)
    case Config(_, ty) =>
      match ty
      case Boolean => x.tri != T.Mod && x.text == x.tri.Name()
      case Tristate => x.text == x.tri.Name()
      case _ => x.tri == T.No
  }

  ghost predicate Legal(v: Valuation) {
    forall s: Symbol :: LegalValue(s, v(s))
  }

  /** Only n and y occur: no module is configured. */
  ghost predicate TwoValued(v: Valuation) {
    forall s: Symbol :: s != ConstMod ==> v(s).tri != T.Mod
  }

  datatype Expr =
    | Sym(sym: Symbol)
    | Not(arg: Expr)
    | And(left: Expr, right: Expr)
    | Or(left: Expr, right: Expr)
    | Equal(lhs: Symbol, rhs: Symbol)
    | Unequal(lhs: Symbol, rhs: Symbol)

  const YES: Expr := Sym(ConstYes)
  const NO: Expr := Sym(ConstNo)

  function Eval(e: Expr, v: Valuation): T.Tri {
    match e
    case Sym(s) => v(s).tri
    case Not(a) => T.Not(Eval(a, v))
    case And(l, r) => T.And(Eval(l, v), Eval(r, v))
    case Or(l, r) => T.Or(Eval(l, v), Eval(r, v))
    case Equal(a, b) => T.FromBool(v(a).text == v(b).text)
    case Unequal(a, b) => T.FromBool(v(a).text != v(b).text)
  }

  /** A missing expression counts as y. */
  function EvalOpt(e: Option<Expr>, v: Valuation): T.Tri {
    if e.None? then T.Yes else Eval(e.value, v)
  }

  function Size(e: Expr): (n: nat)
    ensures n >= 1
  {
    match e
    case Sym(_) => 1
    case Not(a) => 1 + Size(a)
    case And(l, r) => 1 + Size(l) + Size(r)
    case Or(l, r) => 1 + Size(l) + Size(r)
    case Equal(_, _) => 1
    case Unequal(_, _) => 1
  }

  /** No literal m stands as an operand of its own. */
  predicate NoModLiteral(e: Expr) {
    match e
    case Sym(s) => s != ConstMod
    case Not(a) => NoModLiteral(a)
    case And(l, r) => NoModLiteral(l) && NoModLiteral(r)
    case Or(l, r) => NoModLiteral(l) && NoModLiteral(r)
    case Equal(_, _) => true
    case Unequal(_, _) => true
  }

  lemma {:induction false} TwoValuedIsDefinite(e: Expr, v: Valuation)
    requires TwoValued(v) && NoModLiteral(e)
    ensures Eval(e, v) != T.Mod
  {
    match e
    case Sym(_) =>
    case Not(a) => TwoValuedIsDefinite(a, v);
    case And(l, r) => TwoValuedIsDefinite(l, v); TwoValuedIsDefinite(r, v);
    case Or(l, r) => TwoValuedIsDefinite(l, v); TwoValuedIsDefinite(r, v);
    case Equal(_, _) =>
    case Unequal(_, _) =>
  }

  /** The two chain operators, and the rewriting that is the same for both. */
  datatype Op = OpAnd | OpOr {
    /** The operand that changes nothing: y under AND, n under OR. */
    function Unit(): Expr {
      match this
      case OpAnd => YES
      case OpOr => NO
    }

    /** The operand that decides everything: n under AND, y under OR. */
    function Absorber(): Expr {
      match this
      case OpAnd => NO
      case OpOr => YES
    }

    predicate Is(e: Expr) {
      match this
      case OpAnd => e.And?
      case OpOr => e.Or?
    }

    function Make(l: Expr, r: Expr): (e: Expr)
      ensures Is(e) && e.left == l && e.right == r
    {
      match this
      case OpAnd => And(l, r)
      case OpOr => Or(l, r)
    }

    function Apply(a: T.Tri, b: T.Tri): T.Tri {
      match this
      case OpAnd => T.And(a, b)
      case OpOr => T.Or(a, b)
    }
  }

  function OpOf(e: Expr): Op
    requires e.And? || e.Or?
  {
    if e.And? then OpAnd else OpOr
  }

  function AllocAnd(e1: Option<Expr>, e2: Option<Expr>): Option<Expr> {
    if e1.None? then e2
    else if e2.None? then e1
    else Some(And(e1.value, e2.value))
  }
}
