/** What an evaluation reaches: the symbols it evaluates that were not valid before. */
module ChoiceReach {
  import T = Tristate
  import opened Options
  import opened Expr
  import opened ExprCompare
  import opened ChoiceSpec
  import S = SymbolSpec

  // ----- the expressions that are evaluated -----

  /** The conditions up to the first that holds, and the value it guards. */
  function MetDefaults(ds: seq<S.Default>, v: Valuation): seq<Expr> {
    if ds == [] then []
    else OptExprs(ds[0].cond) + if EvalOpt(ds[0].cond, v) != T.No then [ds[0].value] else MetDefaults(ds[1..], v)
  }

  /** For texts only a value that is a symbol is looked at. */
  function MetTexts(ds: seq<S.Default>, v: Valuation): seq<Expr> {
    if ds == [] then []
    else
      OptExprs(ds[0].cond) + if EvalOpt(ds[0].cond, v) == T.No then MetTexts(ds[1..], v)
                             else if ds[0].value.Sym? then [ds[0].value] else []
  }

  function VisibilityExprs(m: Model, s: Symbol, v: Valuation): seq<Expr> {
    AllExprs(m.g(s).prompts) + OptExprs(m.g(s).revDepInv)
    + if m.role(s).Member? || S.Deselected(m.g, s, v) then [] else OptExprs(m.g(s).revDep)
  }

  function Selection(m: Model, s: Symbol, v: Valuation): T.Tri {
    if m.role(s).Member? then T.No else S.Selected(m.g, s, v)
  }

  function TextExprs(m: Model, s: Symbol, v: Valuation): seq<Expr> {
    if S.Visible(m.g, s, v) != T.No && !m.u(s).isNew then [] else MetTexts(m.g(s).defaults, v)
  }

  function TriExprs(m: Model, s: Symbol, v: Valuation): seq<Expr> {
    var vis := S.Visible(m.g, s, v);
    if m.role(s).Member? && vis == T.Yes then []
    else
      OptExprs(m.g(s).revDepInv)
      + if S.Deselected(m.g, s, v) || m.role(s).Choice? then []
        else if T.Or(vis, Selection(m, s, v)) != T.No && !m.u(s).isNew then []
        else MetDefaults(m.g(s).defaults, v)
  }

  /** The members up to the first visible one, by their conditions. */
  function TriedMembers(m: Model, members: seq<Symbol>, v: Valuation): seq<Expr> {
    if members == [] then []
    else
      OwnExprs(m, members[0]) + if Selectable(m, members[0], v) then [] else TriedMembers(m, members[1..], v)
  }

  function TriedDefaults(m: Model, c: Symbol, ds: seq<Default>, v: Valuation): seq<Expr>
    requires m.role(c).Choice?
  {
    if ds == [] then TriedMembers(m, m.role(c).members, v)
    else
      OptExprs(ds[0].cond)
      + if EvalOpt(ds[0].cond, v) == T.No then TriedDefaults(m, c, ds[1..], v)
        else OwnExprs(m, ds[0].member)
             + if Selectable(m, ds[0].member, v) then [] else TriedDefaults(m, c, ds[1..], v)
  }

  /** All conditions that are looked at to find the member of a choice: of the user's member, of the defaults in
      order and the members they name, and of the members in order. */
  function Tried(m: Model, c: Symbol, v: Valuation): seq<Expr>
    requires m.role(c).Choice?
  {
    var ds := m.role(c).defaults;
    if m.userPick(c).None? then TriedDefaults(m, c, ds, v)
    else
      OwnExprs(m, m.userPick(c).value)
      + if Selectable(m, m.userPick(c).value, v) then [] else TriedDefaults(m, c, ds, v)
  }

  /** What is evaluated once the visibility is known. */
  function Completed(m: Model, s: Symbol, v: Valuation): seq<Expr> {
    if !S.IsTri(s) then TextExprs(m, s, v)
    else
      TriExprs(m, s, v)
      + if m.role(s).Choice? && Base(m, s, v) == T.Yes then Tried(m, s, Switched(v, s)) else []
  }

  /** All expressions that sym_calc_value evaluates for one symbol. */
  function Evaluated(m: Model, s: Symbol, v: Valuation): seq<Expr> {
    if s.Type() in {Unknown, Other} then [] else VisibilityExprs(m, s, v) + Completed(m, s, v)
  }

  // ----- the symbols that are reached -----

  /** What symbols are worth: the frozen ones are not evaluated, whatever they are, the others have the value of
      their step. */
  datatype Plan = Plan(m: Model, rank: Symbol -> nat, frozen: iset<Symbol>, w: World)

  /** The symbol and all that is evaluated on its behalf. */
  ghost function Reach(p: Plan, s: Symbol): set<Symbol>
    decreases p.rank(s)
  {
    if s in p.frozen then {} else {s} + ReachAll(p, p.rank(s), Evaluated(p.m, s, p.w.Values()))
  }

  ghost function ReachSym(p: Plan, n: nat, s: Symbol): set<Symbol>
    decreases n, 0
  {
    if p.rank(s) < n then Reach(p, s) else {}
  }

  ghost function ReachExpr(p: Plan, n: nat, e: Expr): set<Symbol>
    decreases n, 1, e
  {
    match e
    case Sym(s) => ReachSym(p, n, s)
    case Not(a) => ReachExpr(p, n, a)
    case And(l, r) => ReachExpr(p, n, l) + ReachExpr(p, n, r)
    case Or(l, r) => ReachExpr(p, n, l) + ReachExpr(p, n, r)
    case Equal(a, b) => ReachSym(p, n, a) + ReachSym(p, n, b)
    case Unequal(a, b) => ReachSym(p, n, a) + ReachSym(p, n, b)
  }

  /** What the expressions reach among the symbols below n. */
  ghost function ReachAll(p: Plan, n: nat, es: seq<Expr>): set<Symbol>
    decreases n, 2, |es|
  {
    if es == [] then {} else ReachExpr(p, n, es[0]) + ReachAll(p, n, es[1..])
  }

  lemma {:induction false} ReachJoin(p: Plan, n: nat, a: seq<Expr>, b: seq<Expr>)
    ensures ReachAll(p, n, a + b) == ReachAll(p, n, a) + ReachAll(p, n, b)
  {
    if a == [] {
      assert a + b == b;
    } else {
      assert (a + b)[0] == a[0] && (a + b)[1..] == a[1..] + b;
      ReachJoin(p, n, a[1..], b);
    }
  }

  lemma ReachOne(p: Plan, n: nat, e: Expr)
    ensures ReachAll(p, n, [e]) == ReachExpr(p, n, e)
  {
    assert [e][1..] == [];
  }

  /** Whatever is named and can be evaluated is reached. */
  lemma {:induction false} ReachNamed(p: Plan, n: nat, e: Expr, t: Symbol)
    requires ContainsSymbol(e, t) && t !in p.frozen && p.rank(t) < n
    ensures t in ReachExpr(p, n, e)
  {
    match e
    case Sym(_) => assert t in ReachSym(p, n, t);
    case Equal(_, _) => assert t in ReachSym(p, n, t);
    case Unequal(_, _) => assert t in ReachSym(p, n, t);
    case Not(a) => ReachNamed(p, n, a, t);
    case And(l, r) => if ContainsSymbol(l, t) { ReachNamed(p, n, l, t); } else { ReachNamed(p, n, r, t); }
    case Or(l, r) => if ContainsSymbol(l, t) { ReachNamed(p, n, l, t); } else { ReachNamed(p, n, r, t); }
  }

  lemma {:induction false} ReachAllNamed(p: Plan, n: nat, es: seq<Expr>, t: Symbol)
    requires Names(es, t) && t !in p.frozen && p.rank(t) < n
    ensures t in ReachAll(p, n, es)
  {
    var k :| 0 <= k < |es| && ContainsSymbol(es[k], t);
    if k == 0 {
      ReachNamed(p, n, es[0], t);
    } else {
      assert es[1..][k - 1] == es[k];
      ReachAllNamed(p, n, es[1..], t);
    }
  }

  /** Only symbols below n are reached, and no frozen one. */
  lemma {:induction false} ReachIsBelow(p: Plan, n: nat, es: seq<Expr>)
    ensures forall x :: x in ReachAll(p, n, es) ==> p.rank(x) < n && x !in p.frozen
    decreases n, 2, |es|
  {
    if es != [] {
      ReachExprIsBelow(p, n, es[0]);
      ReachIsBelow(p, n, es[1..]);
    }
  }

  lemma {:induction false} ReachExprIsBelow(p: Plan, n: nat, e: Expr)
    ensures forall x :: x in ReachExpr(p, n, e) ==> p.rank(x) < n && x !in p.frozen
    decreases n, 1, e
  {
    match e
    case Sym(s) => ReachSymIsBelow(p, n, s);
    case Not(a) => ReachExprIsBelow(p, n, a);
    case And(l, r) => ReachExprIsBelow(p, n, l); ReachExprIsBelow(p, n, r);
    case Or(l, r) => ReachExprIsBelow(p, n, l); ReachExprIsBelow(p, n, r);
    case Equal(a, b) => ReachSymIsBelow(p, n, a); ReachSymIsBelow(p, n, b);
    case Unequal(a, b) => ReachSymIsBelow(p, n, a); ReachSymIsBelow(p, n, b);
  }

  lemma {:induction false} ReachSymIsBelow(p: Plan, n: nat, s: Symbol)
    ensures forall x :: x in ReachSym(p, n, s) ==> p.rank(x) < n && x !in p.frozen
    decreases n, 0
  {
    if p.rank(s) < n && s !in p.frozen {
      ReachIsBelow(p, p.rank(s), Evaluated(p.m, s, p.w.Values()));
      hide Evaluated;
    }
  }

  /** Nothing is reached above what is named. */
  lemma {:induction false} ReachStaysBelow(p: Plan, n: nat, k: nat, es: seq<Expr>)
    requires forall t: Symbol :: Names(es, t) && t !in p.frozen ==> p.rank(t) < k
    ensures forall x :: x in ReachAll(p, n, es) ==> p.rank(x) < k
  {
    if es != [] {
      assert [es[0]] + es[1..] == es;
      forall t: Symbol ensures Names(es, t) <==> ContainsSymbol(es[0], t) || Names(es[1..], t) {
        NamesJoin([es[0]], es[1..], t);
        NamesOne(es[0], t);
      }
      hide Names;
      ReachExprStaysBelow(p, n, k, es[0]);
      ReachStaysBelow(p, n, k, es[1..]);
    }
  }

  lemma {:induction false} ReachExprStaysBelow(p: Plan, n: nat, k: nat, e: Expr)
    requires forall t: Symbol :: ContainsSymbol(e, t) && t !in p.frozen ==> p.rank(t) < k
    ensures forall x :: x in ReachExpr(p, n, e) ==> p.rank(x) < k
  {
    match e
    case Sym(s) => assert ContainsSymbol(e, s); ReachSymStaysBelow(p, n, k, s);
    case Not(a) =>
      assert forall t: Symbol :: ContainsSymbol(a, t) <==> ContainsSymbol(e, t);
      ReachExprStaysBelow(p, n, k, a);
    case And(l, r) =>
      assert forall t: Symbol :: ContainsSymbol(e, t) <==> ContainsSymbol(l, t) || ContainsSymbol(r, t);
      ReachExprStaysBelow(p, n, k, l);
      ReachExprStaysBelow(p, n, k, r);
    case Or(l, r) =>
      assert forall t: Symbol :: ContainsSymbol(e, t) <==> ContainsSymbol(l, t) || ContainsSymbol(r, t);
      ReachExprStaysBelow(p, n, k, l);
      ReachExprStaysBelow(p, n, k, r);
    case Equal(a, b) =>
      assert ContainsSymbol(e, a) && ContainsSymbol(e, b);
      ReachSymStaysBelow(p, n, k, a);
      ReachSymStaysBelow(p, n, k, b);
    case Unequal(a, b) =>
      assert ContainsSymbol(e, a) && ContainsSymbol(e, b);
      ReachSymStaysBelow(p, n, k, a);
      ReachSymStaysBelow(p, n, k, b);
  }

  lemma ReachSymStaysBelow(p: Plan, n: nat, k: nat, s: Symbol)
    requires s !in p.frozen ==> p.rank(s) < k
    ensures forall x :: x in ReachSym(p, n, s) ==> p.rank(x) < k
  {
    if s !in p.frozen {
      ReachIsBelow(p, p.rank(s), Evaluated(p.m, s, p.w.Values()));
      hide Evaluated, ReachAll;
    }
  }
}
