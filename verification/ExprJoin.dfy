/** expr_join_or and expr_join_and: two operands of one chain that a single expression can replace. */
module ExprJoin {
  import T = Tristate
  import opened Options
  import opened Expr
  import opened ExprEq

  /** The kinds the joins look at, and the symbol each of them is about. */
  function SubjectOfFirst(e: Expr): Option<Symbol> {
    match e
    case Sym(s) => Some(s)
    case Equal(a, _) => Some(a)
    case Unequal(a, _) => Some(a)
    case Not(Sym(s)) => Some(s)
    case Not(Equal(a, _)) => Some(a)
    case Not(Unequal(a, _)) => Some(a)
    case _ => None
  }

  /** A negated comparison is accepted on the first side only. */
  function SubjectOfSecond(e: Expr): Option<Symbol> {
    if e.Not? && !e.arg.Sym? then None else SubjectOfFirst(e)
  }

  /** The symbol both operands are about, when it is a bool or tristate. */
  function Subject(e1: Expr, e2: Expr): (s: Option<Symbol>) {
    var s1, s2 := SubjectOfFirst(e1), SubjectOfSecond(e2);
    if s1.Some? && s1 == s2 && s1.value.Type() in {Boolean, Tristate} then s1 else None
  }

  predicate OneEach(a: Symbol, b: Symbol, x: Symbol, y: Symbol) {
    (a == x && b == y) || (a == y && b == x)
  }

  function JoinOrTristate(s: Symbol, a: Symbol, b: Symbol): Option<Expr> {
    if OneEach(a, b, ConstYes, ConstMod) then Some(Unequal(s, ConstNo))
    else if OneEach(a, b, ConstYes, ConstNo) then Some(Unequal(s, ConstMod))
    else if OneEach(a, b, ConstMod, ConstNo) then Some(Unequal(s, ConstYes))
    else None
  }

  function JoinOr(e1: Expr, e2: Expr): Option<Expr> {
    if Eq(e1, e2) then Some(e1)
    else
      var subject := Subject(e1, e2);
      if subject.None? then None
      else
        var s := subject.value;
        if s.Type() == Tristate && e1.Equal? && e2.Equal? then JoinOrTristate(s, e1.rhs, e2.rhs)
        else if s.Type() == Boolean &&
                ((e1.Not? && e1.arg.Sym? && e2.Sym?) || (e2.Not? && e2.arg.Sym? && e1.Sym?)) then Some(YES)
        else None
  }

  /** One side is the bare symbol, the other compares it as asked with the given literal. */
  predicate BareWithEqual(e1: Expr, e2: Expr, c: Symbol) {
    (e1.Sym? && e2.Equal? && e2.rhs == c) || (e2.Sym? && e1.Equal? && e1.rhs == c)
  }

  predicate BareWithUnequal(e1: Expr, e2: Expr, c: Symbol) {
    (e1.Sym? && e2.Unequal? && e2.rhs == c) || (e2.Sym? && e1.Unequal? && e1.rhs == c)
  }

  /** s='b' together with s!='c', both sides constants. */
  function JoinEqualUnequal(s: Symbol, b: Symbol, c: Symbol): Expr {
    if b != c then Equal(s, b) else NO
  }

  function JoinUnequals(s: Symbol, a: Symbol, b: Symbol): Option<Expr> {
    if OneEach(a, b, ConstYes, ConstNo) then Some(Equal(s, ConstMod))
    else if OneEach(a, b, ConstYes, ConstMod) then Some(Equal(s, ConstNo))
    else if OneEach(a, b, ConstMod, ConstNo) then Some(Equal(s, ConstYes))
    else None
  }

  function JoinAndTristate(s: Symbol, e1: Expr, e2: Expr): Option<Expr> {
    if e1.Equal? && e2.Unequal? && e1.rhs.IsConst() && e2.rhs.IsConst() then
      Some(JoinEqualUnequal(s, e1.rhs, e2.rhs))
    else if e1.Unequal? && e2.Equal? && e1.rhs.IsConst() && e2.rhs.IsConst() then
      Some(JoinEqualUnequal(s, e2.rhs, e1.rhs))
    else if e1.Unequal? && e2.Unequal? then JoinUnequals(s, e1.rhs, e2.rhs)
    else None
  }

  function JoinAnd(e1: Expr, e2: Expr): Option<Expr> {
    if Eq(e1, e2) then Some(e1)
    else
      var subject := Subject(e1, e2);
      if subject.None? then None
      else
        var s := subject.value;
        if BareWithEqual(e1, e2, ConstYes) then Some(Equal(s, ConstYes))
        else if BareWithUnequal(e1, e2, ConstNo) then Some(Sym(s))
        else if BareWithUnequal(e1, e2, ConstMod) then Some(Equal(s, ConstYes))
        else if s.Type() == Tristate then JoinAndTristate(s, e1, e2)
        else None
  }

  function Join(op: Op, e1: Expr, e2: Expr): Option<Expr> {
    match op
    case OpAnd => JoinAnd(e1, e2)
    case OpOr => JoinOr(e1, e2)
  }

  /** What a legal valuation can say about a bool or tristate symbol and two constants. */
  lemma SubjectValue(s: Symbol, v: Valuation)
    requires Legal(v) && s.Type() in {Boolean, Tristate}
    ensures v(s).text == v(s).tri.Name()
    ensures s.Type() == Boolean ==> v(s).tri != T.Mod
    ensures v(ConstYes).text == "y" && v(ConstMod).text == "m" && v(ConstNo).text == "n"
    ensures v(ConstYes).tri == T.Yes && v(ConstNo).tri == T.No
  {
    assert LegalValue(s, v(s)) && LegalValue(ConstYes, v(ConstYes));
    assert LegalValue(ConstMod, v(ConstMod)) && LegalValue(ConstNo, v(ConstNo));
  }

  lemma ConstantsDiffer(a: Symbol, b: Symbol, v: Valuation)
    requires Legal(v) && a.IsConst() && b.IsConst()
    ensures v(a).text == v(b).text <==> a == b
  {
    assert LegalValue(a, v(a)) && LegalValue(b, v(b));
  }

  lemma NamesDiffer()
    ensures forall a: T.Tri, b: T.Tri :: a.Name() == b.Name() <==> a == b
    ensures forall a: T.Tri ::
              && (a.Name() == "y" <==> a == T.Yes) && (a.Name() == "m" <==> a == T.Mod)
              && (a.Name() == "n" <==> a == T.No)
  {
    assert "y"[0] != "m"[0] && "m"[0] != "n"[0] && "y"[0] != "n"[0];
  }

  lemma JoinOrKeepsValue(e1: Expr, e2: Expr, v: Valuation)
    requires Legal(v) && JoinOr(e1, e2).Some?
    ensures Eval(JoinOr(e1, e2).value, v) == T.Or(Eval(e1, v), Eval(e2, v))
  {
    if Eq(e1, e2) {
      EqIsSound(e1, e2, v);
    } else {
      SubjectValue(Subject(e1, e2).value, v);
      NamesDiffer();
    }
  }

  lemma JoinAndTristateKeepsValue(s: Symbol, e1: Expr, e2: Expr, v: Valuation)
    requires Legal(v) && s.Type() == Tristate && JoinAndTristate(s, e1, e2).Some?
    requires e1.lhs == s && e2.lhs == s
    ensures Eval(JoinAndTristate(s, e1, e2).value, v) == T.And(Eval(e1, v), Eval(e2, v))
  {
    SubjectValue(s, v);
    NamesDiffer();
    if e1.rhs.IsConst() && e2.rhs.IsConst() {
      ConstantsDiffer(e1.rhs, e2.rhs, v);
    }
  }

  lemma JoinAndKeepsValue(e1: Expr, e2: Expr, v: Valuation)
    requires Legal(v) && JoinAnd(e1, e2).Some?
    ensures Eval(JoinAnd(e1, e2).value, v) == T.And(Eval(e1, v), Eval(e2, v))
  {
    if Eq(e1, e2) {
      EqIsSound(e1, e2, v);
    } else {
      var s := Subject(e1, e2).value;
      SubjectValue(s, v);
      NamesDiffer();
      if s.Type() == Tristate && JoinAndTristate(s, e1, e2).Some? {
        JoinAndTristateKeepsValue(s, e1, e2, v);
      }
    }
  }

  /** A join has the value of the two operands it replaces, for all three values of every symbol. */
  lemma JoinKeepsValue(op: Op, e1: Expr, e2: Expr, v: Valuation)
    requires Legal(v) && Join(op, e1, e2).Some?
    ensures Eval(Join(op, e1, e2).value, v) == op.Apply(Eval(e1, v), Eval(e2, v))
  {
    if op == OpAnd { JoinAndKeepsValue(e1, e2, v); } else { JoinOrKeepsValue(e1, e2, v); }
  }

  /** A join of two operands of a chain is again one operand of that chain, and no larger than both. */
  lemma JoinIsOperand(op: Op, e1: Expr, e2: Expr)
    requires !op.Is(e1) && Join(op, e1, e2).Some?
    ensures !op.Is(Join(op, e1, e2).value)
    ensures Size(Join(op, e1, e2).value) <= Size(e1)
  {
  }
}
