/** expr_trans_compare, expr_trans_bool and the symbol tests behind menu adoption. */
module ExprCompare {
  import T = Tristate
  import opened Options
  import opened Expr
  import opened ExprEq
  import opened ExprTransform
  import opened ExprDups

  // ----- expr_trans_compare -----

  datatype Relation = IsEqual | IsUnequal {
    function Flip(): Relation {
      if this == IsEqual then IsUnequal else IsEqual
    }
  }

  function NegateIf(rel: Relation, e: Expr): Expr {
    if rel == IsUnequal then Not(e) else e
  }

  /** The expression that says whether e is, or is not, the given literal; none for other symbols
      where a comparison is met. */
  function TransCompare(e: Expr, rel: Relation, c: Symbol): (r: Option<Expr>)
    ensures c.IsLiteral() ==> r.Some?
  {
    match e
    case And(l, r) =>
      if c == ConstYes then
        Some(NegateIf(rel, And(TransCompare(l, IsEqual, c).value, TransCompare(r, IsEqual, c).value)))
      else if c == ConstNo then
        Some(NegateIf(rel, Or(TransCompare(l, IsEqual, c).value, TransCompare(r, IsEqual, c).value)))
      else Some(NegateIf(rel, e))
    case Or(l, r) =>
      if c == ConstYes then
        Some(NegateIf(rel, Or(TransCompare(l, IsEqual, c).value, TransCompare(r, IsEqual, c).value)))
      else if c == ConstNo then
        Some(NegateIf(rel, And(TransCompare(l, IsEqual, c).value, TransCompare(r, IsEqual, c).value)))
      else Some(NegateIf(rel, e))
    case Not(a) => TransCompare(a, rel.Flip(), c)
    case Equal(_, _) => TransCompareTest(e, rel, c)
    case Unequal(_, _) => TransCompareTest(e, rel, c)
    case Sym(s) => Some(if rel == IsEqual then Equal(s, c) else Unequal(s, c))
  }

  function TransCompareTest(e: Expr, rel: Relation, c: Symbol): (r: Option<Expr>)
    ensures c.IsLiteral() ==> r.Some?
  {
    match c
    case ConstYes => Some(NegateIf(rel, e))
    case ConstMod => Some(if rel == IsEqual then NO else YES)
    case ConstNo => Some(NegateIf(rel.Flip(), e))
    case _ => None
  }

  function TransCompareOpt(e: Option<Expr>, rel: Relation, c: Symbol): (r: Option<Expr>)
    ensures c.IsLiteral() ==> r.Some?
  {
    if e.None? then Some(NegateIf(rel, Sym(c))) else TransCompare(e.value, rel, c)
  }

  /** The valuation that reads every symbol's text against the literal: y or n, never m. */
  function Reading(v: Valuation, c: Symbol): Valuation {
    (s: Symbol) => Value(T.FromBool(if c == ConstYes then v(s).text == "y" else v(s).text != "n"), v(s).text)
  }

  lemma {:induction false} ReadingIsDefinite(e: Expr, v: Valuation, c: Symbol)
    ensures Eval(e, Reading(v, c)) != T.Mod
  {
    match e
    case Not(a) => ReadingIsDefinite(a, v, c);
    case And(l, r) => ReadingIsDefinite(l, v, c); ReadingIsDefinite(r, v, c);
    case Or(l, r) => ReadingIsDefinite(l, v, c); ReadingIsDefinite(r, v, c);
    case _ =>
  }

  /** Comparing with y or n evaluates the expression in the two-valued reading of the symbols. */
  lemma {:induction false} TransCompareReads(e: Expr, rel: Relation, c: Symbol, v: Valuation)
    requires c in {ConstYes, ConstNo} && Legal(v)
    ensures Eval(TransCompare(e, rel, c).value, v)
         == (if (rel == IsEqual) == (c == ConstYes) then Eval(e, Reading(v, c)) else T.Not(Eval(e, Reading(v, c))))
  {
    assert LegalValue(ConstYes, v(ConstYes)) && LegalValue(ConstNo, v(ConstNo));
    ReadingIsDefinite(e, v, c);
    match e
    case Not(a) => TransCompareReads(a, rel.Flip(), c, v);
    case And(l, r) => TransCompareReads(l, IsEqual, c, v); TransCompareReads(r, IsEqual, c, v);
    case Or(l, r) => TransCompareReads(l, IsEqual, c, v); TransCompareReads(r, IsEqual, c, v);
    case _ =>
  }

  /** The symbols that are tested or stand on the left of a comparison, from left to right. */
  function Tested(e: Expr): seq<Symbol> {
    match e
    case Sym(s) => [s]
    case Not(a) => Tested(a)
    case And(l, r) => Tested(l) + Tested(r)
    case Or(l, r) => Tested(l) + Tested(r)
    case Equal(a, _) => [a]
    case Unequal(a, _) => [a]
  }

  lemma {:induction false} TransCompareKeepsOrder(e: Expr, rel: Relation, c: Symbol)
    requires c in {ConstYes, ConstNo}
    ensures Tested(TransCompare(e, rel, c).value) == Tested(e)
  {
    match e
    case Not(a) => TransCompareKeepsOrder(a, rel.Flip(), c);
    case And(l, r) => TransCompareKeepsOrder(l, IsEqual, c); TransCompareKeepsOrder(r, IsEqual, c);
    case Or(l, r) => TransCompareKeepsOrder(l, IsEqual, c); TransCompareKeepsOrder(r, IsEqual, c);
    case _ =>
  }

  lemma TransCompareIsDefinite(e: Expr, rel: Relation, c: Symbol, v: Valuation)
    requires c in {ConstYes, ConstNo} && Legal(v)
    ensures Eval(TransCompare(e, rel, c).value, v) != T.Mod
  {
    TransCompareReads(e, rel, c, v);
    ReadingIsDefinite(e, v, c);
  }

  /** Every bare operand is a bool, a tristate or one of y, m, n: its text says what its value is. */
  predicate TristateOperands(e: Expr) {
    match e
    case Sym(s) => s.IsLiteral() || s.Type() in {Boolean, Tristate}
    case Not(a) => TristateOperands(a)
    case And(l, r) => TristateOperands(l) && TristateOperands(r)
    case Or(l, r) => TristateOperands(l) && TristateOperands(r)
    case _ => true
  }

  /** Below every NOT the value is n or y. */
  predicate NotsAreDefinite(e: Expr, v: Valuation) {
    match e
    case Not(a) => Eval(a, v) != T.Mod && NotsAreDefinite(a, v)
    case And(l, r) => NotsAreDefinite(l, v) && NotsAreDefinite(r, v)
    case Or(l, r) => NotsAreDefinite(l, v) && NotsAreDefinite(r, v)
    case _ => true
  }

  predicate NoNot(e: Expr) {
    match e
    case Not(_) => false
    case And(l, r) => NoNot(l) && NoNot(r)
    case Or(l, r) => NoNot(l) && NoNot(r)
    case _ => true
  }

  lemma SymbolReads(s: Symbol, v: Valuation)
    requires Legal(v) && (s.IsLiteral() || s.Type() in {Boolean, Tristate})
    ensures v(s).text != "n" <==> v(s).tri != T.No
  {
    assert LegalValue(s, v(s));
    assert "y"[0] != "n"[0] && "m"[0] != "n"[0];
  }

  lemma {:induction false} ReadingSaysNotN(e: Expr, v: Valuation)
    requires Legal(v) && TristateOperands(e) && NotsAreDefinite(e, v)
    ensures Eval(e, Reading(v, ConstNo)) == T.Yes <==> Eval(e, v) != T.No
  {
    ReadingIsDefinite(e, v, ConstNo);
    match e
    case Sym(s) => SymbolReads(s, v);
    case Not(a) => ReadingSaysNotN(a, v); ReadingIsDefinite(a, v, ConstNo);
    case And(l, r) =>
      ReadingSaysNotN(l, v); ReadingSaysNotN(r, v);
      ReadingIsDefinite(l, v, ConstNo); ReadingIsDefinite(r, v, ConstNo);
    case Or(l, r) =>
      ReadingSaysNotN(l, v); ReadingSaysNotN(r, v);
      ReadingIsDefinite(l, v, ConstNo); ReadingIsDefinite(r, v, ConstNo);
    case _ =>
  }

  /** "e != n" is y exactly when e is not n, as long as no NOT stands above an m. */
  lemma TransCompareSaysNotN(e: Expr, v: Valuation)
    requires Legal(v) && TristateOperands(e) && NotsAreDefinite(e, v)
    ensures Eval(TransCompare(e, IsUnequal, ConstNo).value, v) == T.Yes <==> Eval(e, v) != T.No
  {
    TransCompareReads(e, IsUnequal, ConstNo, v);
    ReadingSaysNotN(e, v);
  }

  lemma {:induction false} NoNotIsDefinite(e: Expr, v: Valuation)
    requires NoNot(e)
    ensures NotsAreDefinite(e, v)
  {
    match e
    case And(l, r) => NoNotIsDefinite(l, v); NoNotIsDefinite(r, v);
    case Or(l, r) => NoNotIsDefinite(l, v); NoNotIsDefinite(r, v);
    case _ =>
  }

  lemma {:induction false} TwoValuedNotsAreDefinite(e: Expr, v: Valuation)
    requires TwoValued(v) && NoModLiteral(e)
    ensures NotsAreDefinite(e, v)
  {
    match e
    case Not(a) => TwoValuedNotsAreDefinite(a, v); TwoValuedIsDefinite(a, v);
    case And(l, r) => TwoValuedNotsAreDefinite(l, v); TwoValuedNotsAreDefinite(r, v);
    case Or(l, r) => TwoValuedNotsAreDefinite(l, v); TwoValuedNotsAreDefinite(r, v);
    case _ =>
  }

  /** For the negation of an expression that is itself read right, an m below is the one failure. */
  lemma NegatedCompareIffDefinite(a: Expr, v: Valuation)
    requires Legal(v) && TristateOperands(a) && NotsAreDefinite(a, v)
    ensures (Eval(TransCompare(Not(a), IsUnequal, ConstNo).value, v) == T.Yes <==> Eval(Not(a), v) != T.No)
       <==> Eval(a, v) != T.Mod
  {
    TransCompareReads(Not(a), IsUnequal, ConstNo, v);
    ReadingSaysNotN(a, v);
    ReadingIsDefinite(a, v, ConstNo);
  }

  /** A bare symbol of another type is read by its text, although its value is n. */
  lemma BareTextIsMisread(s: Symbol, v: Valuation)
    requires Legal(v) && !TristateOperands(Sym(s))
    ensures (Eval(TransCompare(Sym(s), IsUnequal, ConstNo).value, v) == T.Yes <==> Eval(Sym(s), v) != T.No)
       <==> v(s).text == "n"
  {
    assert LegalValue(s, v(s)) && LegalValue(ConstNo, v(ConstNo));
  }

  // ----- expr_trans_bool -----

  function TransBool(e: Expr): Expr {
    match e
    case And(l, r) => And(TransBool(l), TransBool(r))
    case Or(l, r) => Or(TransBool(l), TransBool(r))
    case Not(a) => Not(TransBool(a))
    case Unequal(a, b) => if a.Type() == Tristate && b == ConstNo then Sym(a) else e
    case _ => e
  }

  /** No test of a tristate against n stands below a NOT. */
  predicate NoNegatedTest(e: Expr) {
    match e
    case Not(a) => TransBool(a) == a
    case And(l, r) => NoNegatedTest(l) && NoNegatedTest(r)
    case Or(l, r) => NoNegatedTest(l) && NoNegatedTest(r)
    case _ => true
  }

  lemma {:induction false} NormalHasNoNegatedTest(e: Expr)
    requires IsNormal(e)
    ensures NoNegatedTest(e)
  {
    match e
    case And(l, r) => NormalHasNoNegatedTest(l); NormalHasNoNegatedTest(r);
    case Or(l, r) => NormalHasNoNegatedTest(l); NormalHasNoNegatedTest(r);
    case _ =>
  }

  /** How the prompt of a symbol that is not a tristate takes a condition: m counts as y. */
  function Promoted(t: T.Tri): T.Tri {
    if t == T.Mod then T.Yes else t
  }

  /** Replacing "S != n" by S keeps whether the condition is n, hence what a prompt makes of it. */
  lemma {:induction false} TransBoolKeepsVisibility(e: Expr, v: Valuation)
    requires Legal(v) && NoNegatedTest(e)
    ensures Eval(TransBool(e), v) == T.No <==> Eval(e, v) == T.No
    ensures Promoted(Eval(TransBool(e), v)) == Promoted(Eval(e, v))
  {
    match e
    case And(l, r) => TransBoolKeepsVisibility(l, v); TransBoolKeepsVisibility(r, v);
    case Or(l, r) => TransBoolKeepsVisibility(l, v); TransBoolKeepsVisibility(r, v);
    case Unequal(a, b) =>
      if a.Type() == Tristate && b == ConstNo {
        SymbolReads(a, v);
        assert LegalValue(ConstNo, v(ConstNo));
      }
    case _ =>
  }

  /** Under a NOT the replacement goes wrong exactly where the tristate is m. */
  lemma NegatedTestIffNotMod(s: Symbol, v: Valuation)
    requires Legal(v) && s.Type() == Tristate
    ensures var e := Not(Unequal(s, ConstNo));
      (Eval(TransBool(e), v) == T.No <==> Eval(e, v) == T.No) <==> v(s).tri != T.Mod
  {
    SymbolReads(s, v);
    assert LegalValue(ConstNo, v(ConstNo));
  }

  // ----- expr_contains_symbol, expr_depends_symbol -----

  predicate ContainsSymbol(e: Expr, s: Symbol) {
    match e
    case Sym(x) => x == s
    case Not(a) => ContainsSymbol(a, s)
    case And(l, r) => ContainsSymbol(l, s) || ContainsSymbol(r, s)
    case Or(l, r) => ContainsSymbol(l, s) || ContainsSymbol(r, s)
    case Equal(a, b) => a == s || b == s
    case Unequal(a, b) => a == s || b == s
  }

  lemma {:induction false} UncontainedDoesNotMatter(e: Expr, s: Symbol, v: Valuation, w: Valuation)
    requires !ContainsSymbol(e, s)
    requires forall x: Symbol :: x != s ==> v(x) == w(x)
    ensures Eval(e, v) == Eval(e, w)
  {
    match e
    case Not(a) => UncontainedDoesNotMatter(a, s, v, w);
    case And(l, r) => UncontainedDoesNotMatter(l, s, v, w); UncontainedDoesNotMatter(r, s, v, w);
    case Or(l, r) => UncontainedDoesNotMatter(l, s, v, w); UncontainedDoesNotMatter(r, s, v, w);
    case _ =>
  }

  predicate DependsSymbol(e: Expr, s: Symbol) {
    match e
    case And(l, r) => DependsSymbol(l, s) || DependsSymbol(r, s)
    case Sym(x) => x == s
    case Equal(a, b) => a == s && b in {ConstYes, ConstMod}
    case Unequal(a, b) => a == s && b == ConstNo
    case _ => false
  }

  /** An expression that depends on a symbol is n wherever the symbol is. */
  lemma {:induction false} DependsMeansNeeds(e: Expr, s: Symbol, v: Valuation)
    requires Legal(v) && DependsSymbol(e, s) && s.Type() in {Boolean, Tristate}
    requires Eval(e, v) != T.No
    ensures v(s).tri != T.No && ContainsSymbol(e, s)
  {
    match e
    case And(l, r) =>
      if DependsSymbol(l, s) { DependsMeansNeeds(l, s, v); } else { DependsMeansNeeds(r, s, v); }
    case Equal(_, b) => SymbolReads(s, v); assert LegalValue(b, v(b));
    case Unequal(_, b) => SymbolReads(s, v); assert LegalValue(b, v(b));
    case _ =>
  }

  // ----- the adoption test of menu_finalize -----

  /** The condition "dep != n" in reduced form; a missing condition counts as met. */
  function Condition(dep: Option<Expr>): Expr {
    EliminateDups(Transform(TransCompareOpt(dep, IsUnequal, ConstNo).value))
  }

  function ReadOpt(dep: Option<Expr>, v: Valuation): T.Tri {
    if dep.None? then T.Yes else Eval(dep.value, Reading(v, ConstNo))
  }

  lemma ConditionReads(dep: Option<Expr>, v: Valuation)
    requires Legal(v)
    ensures Eval(Condition(dep), v) == ReadOpt(dep, v)
  {
    var c := TransCompareOpt(dep, IsUnequal, ConstNo).value;
    if dep.None? {
      assert LegalValue(ConstNo, v(ConstNo));
    } else {
      TransCompareReads(dep.value, IsUnequal, ConstNo, v);
      ReadingIsDefinite(dep.value, v, ConstNo);
    }
    TransformKeepsValue(c, v);
    EliminateDupsRefines(Transform(c), v);
  }

  predicate ImpliesBase(dep: Expr, base: Option<Expr>) {
    EliminateEq(Condition(Some(dep)), Condition(base)).snd == YES
  }

  /** May the entry with condition dep become a child of the entry with symbol s and condition base? */
  predicate Adopts(s: Symbol, base: Option<Expr>, dep: Option<Expr>) {
    && dep.Some?
    && ContainsSymbol(dep.value, s)
    && (DependsSymbol(dep.value, s) || ImpliesBase(dep.value, base))
  }

  /** For every valuation, modules included: whenever the child's condition reads as met, so does the parent's. */
  lemma ImpliesBaseIsSound(dep: Expr, base: Option<Expr>, v: Valuation)
    requires Legal(v) && ImpliesBase(dep, base)
    requires Eval(dep, Reading(v, ConstNo)) == T.Yes
    ensures ReadOpt(base, v) == T.Yes
  {
    ConditionReads(Some(dep), v);
    ConditionReads(base, v);
    EliminateEqToYes(Condition(Some(dep)), Condition(base), v);
  }

  /** An adopted entry is visible only where its new parent's symbol is on or its prompt is visible. */
  lemma AdoptionKeepsVisibility(s: Symbol, base: Option<Expr>, dep: Option<Expr>, v: Valuation)
    requires Legal(v) && Adopts(s, base, dep) && s.Type() in {Boolean, Tristate}
    requires TristateOperands(dep.value) && NotsAreDefinite(dep.value, v)
    requires base.Some? ==> TristateOperands(base.value) && NotsAreDefinite(base.value, v)
    requires Eval(dep.value, v) != T.No
    ensures v(s).tri != T.No || EvalOpt(base, v) != T.No
  {
    if DependsSymbol(dep.value, s) {
      DependsMeansNeeds(dep.value, s, v);
    } else {
      ReadingSaysNotN(dep.value, v);
      ImpliesBaseIsSound(dep.value, base, v);
      if base.Some? { ReadingSaysNotN(base.value, v); }
    }
  }
}
