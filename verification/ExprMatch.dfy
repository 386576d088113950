/** expr_eq on chains as a matching of their operands, taken from the left. */
module ExprMatch {
  import opened Options
  import opened Expr
  import opened ExprEq
  import opened ExprSelfEq

  /** The operands of a chain, from left to right. */
  function Operands(op: Op, e: Expr): seq<Expr> {
    if op.Is(e) then Operands(op, e.left) + Operands(op, e.right) else [e]
  }

  predicate Matches(x: Expr, y: Expr) {
    Eq(x, y) && !SameGuardedConstant(x, y)
  }

  datatype Met = Met(x: Expr, ys: seq<Expr>)

  /** An operand takes the first partner it finds; both become units. */
  function Meet(op: Op, x: Expr, ys: seq<Expr>): Met {
    if ys == [] then Met(x, [])
    else if Matches(x, ys[0]) then Met(op.Unit(), [op.Unit()] + ys[1..])
    else
      var m := Meet(op, x, ys[1..]);
      Met(m.x, [ys[0]] + m.ys)
  }

  datatype Matched = Matched(xs: seq<Expr>, ys: seq<Expr>)

  function MatchAll(op: Op, xs: seq<Expr>, ys: seq<Expr>): Matched {
    if xs == [] then Matched([], ys)
    else
      var m := Meet(op, xs[0], ys);
      var r := MatchAll(op, xs[1..], m.ys);
      Matched([m.x] + r.xs, r.ys)
  }

  /** What is left of the operands when y and n are dropped from each of them. */
  function Rest(op: Op, zs: seq<Expr>): seq<Expr> {
    if zs == [] then []
    else (if EliminateYn(zs[0]) == op.Unit() then [] else [EliminateYn(zs[0])]) + Rest(op, zs[1..])
  }

  /** The one symbol the operands come down to, if they do. */
  function Outcome(op: Op, zs: seq<Expr>): Option<Symbol> {
    var r := Rest(op, zs);
    if op.Absorber() in r then Some(op.Absorber().sym)
    else if r == [] then Some(op.Unit().sym)
    else if |r| == 1 && r[0].Sym? then Some(r[0].sym)
    else None
  }

  // ----- the elimination is this matching -----

  lemma UnitMeetsNothing(op: Op, ys: seq<Expr>)
    ensures Meet(op, op.Unit(), ys) == Met(op.Unit(), ys)
  {
  }

  lemma {:induction false} MeetJoin(op: Op, x: Expr, a: seq<Expr>, b: seq<Expr>)
    ensures var m := Meet(op, x, a); var n := Meet(op, m.x, b); Meet(op, x, a + b) == Met(n.x, m.ys + n.ys)
  {
    hide Matches, Meet;
    if a == [] {
      assert a + b == b;
      MeetNothing(op, x);
    } else {
      assert (a + b)[0] == a[0] && (a + b)[1..] == a[1..] + b;
      MeetFirst(op, x, a);
      MeetFirst(op, x, a + b);
      if Matches(x, a[0]) {
        UnitMeetsNothing(op, b);
        assert ([op.Unit()] + a[1..]) + b == [op.Unit()] + (a[1..] + b);
      } else {
        MeetJoin(op, x, a[1..], b);
        var m := Meet(op, x, a[1..]);
        assert ([a[0]] + m.ys) + Meet(op, m.x, b).ys == [a[0]] + (m.ys + Meet(op, m.x, b).ys);
      }
    }
  }

  lemma MeetNothing(op: Op, x: Expr)
    ensures Meet(op, x, []) == Met(x, [])
  {
  }

  lemma MeetFirst(op: Op, x: Expr, ys: seq<Expr>)
    requires ys != []
    ensures Meet(op, x, ys) == if Matches(x, ys[0]) then Met(op.Unit(), [op.Unit()] + ys[1..])
                               else Met(Meet(op, x, ys[1..]).x, [ys[0]] + Meet(op, x, ys[1..]).ys)
  {
    hide Matches;
  }

  lemma {:induction false} MatchJoin(op: Op, a: seq<Expr>, b: seq<Expr>, ys: seq<Expr>)
    ensures var m := MatchAll(op, a, ys); var n := MatchAll(op, b, m.ys);
      MatchAll(op, a + b, ys) == Matched(m.xs + n.xs, n.ys)
  {
    if a == [] {
      assert a + b == b;
    } else {
      assert (a + b)[0] == a[0] && (a + b)[1..] == a[1..] + b;
      MatchJoin(op, a[1..], b, Meet(op, a[0], ys).ys);
    }
  }

  lemma MatchOne(op: Op, x: Expr, ys: seq<Expr>)
    ensures var m := Meet(op, x, ys); MatchAll(op, [x], ys) == Matched([m.x], m.ys)
  {
    assert [x][1..] == [];
  }

  /** However the two chains are grouped, the elimination leaves what the matching leaves. */
  lemma {:induction false} EliminateIsMatching(op: Op, e1: Expr, e2: Expr)
    ensures var p := EliminateEqIn(op, e1, e2);
      MatchAll(op, Operands(op, e1), Operands(op, e2)) == Matched(Operands(op, p.fst), Operands(op, p.snd))
    decreases Size(e1) + Size(e2)
  {
    hide Eq, EliminateEqIn, Matches, Meet, MatchAll;
    var p := EliminateEqIn(op, e1, e2);
    if op.Is(e1) {
      var a := EliminateEqIn(op, e1.left, e2);
      EliminateEqInOfChain(op, e1, e2);
      EliminateIsMatching(op, e1.left, e2);
      EliminateIsMatching(op, e1.right, a.snd);
      MatchJoin(op, Operands(op, e1.left), Operands(op, e1.right), Operands(op, e2));
    } else if op.Is(e2) {
      var a := EliminateEqIn(op, e1, e2.left);
      EliminateEqInOfSecond(op, e1, e2);
      OperandStays(op, e1, e2.left);
      OperandStays(op, a.fst, e2.right);
      EliminateIsMatching(op, e1, e2.left);
      EliminateIsMatching(op, a.fst, e2.right);
      MatchOne(op, e1, Operands(op, e2.left));
      MatchOne(op, a.fst, Operands(op, e2.right));
      MatchOne(op, e1, Operands(op, e2));
      MeetJoin(op, e1, Operands(op, e2.left), Operands(op, e2.right));
    } else {
      EliminateEqInOfOperands(op, e1, e2);
      OperandsMeet(op, e1, e2);
    }
  }

  lemma OperandsMeet(op: Op, x: Expr, y: Expr)
    ensures MatchAll(op, [x], [y])
         == if SameGuardedConstant(x, y) || !Eq(x, y) then Matched([x], [y]) else Matched([op.Unit()], [op.Unit()])
  {
    hide Eq;
    MatchOne(op, x, [y]);
    assert [y][1..] == [];
  }

  lemma {:induction false} OperandStays(op: Op, x: Expr, e: Expr)
    requires !op.Is(x)
    ensures !op.Is(EliminateEqIn(op, x, e).fst)
    decreases e
  {
    hide Eq;
    if op.Is(e) {
      OperandStays(op, x, e.left);
      OperandStays(op, EliminateEqIn(op, x, e.left).fst, e.right);
    }
  }

  // ----- nothing in common is left -----

  predicate Meets(x: Expr, ys: seq<Expr>) {
    exists j :: 0 <= j < |ys| && Matches(x, ys[j])
  }

  /** x goes if and only if it has a partner, and then one partner goes with it. */
  lemma {:induction false} MeetIff(op: Op, x: Expr, ys: seq<Expr>)
    ensures var m := Meet(op, x, ys);
      && m.x == (if Meets(x, ys) then op.Unit() else x)
      && (!Meets(x, ys) ==> m.ys == ys)
      && |m.ys| == |ys| && forall j :: 0 <= j < |ys| ==> m.ys[j] in {ys[j], op.Unit()}
    decreases |ys|
  {
    hide Matches, Meet;
    if ys == [] {
      MeetNothing(op, x);
    } else {
      MeetFirst(op, x, ys);
      MeetIff(op, x, ys[1..]);
      assert forall j :: 0 <= j < |ys| - 1 ==> ys[1..][j] == ys[j + 1];
      assert Meets(x, ys) <==> Matches(x, ys[0]) || Meets(x, ys[1..]);
    }
  }

  lemma NothingMatchesUnit(op: Op, x: Expr)
    ensures !Matches(x, op.Unit()) && !Matches(op.Unit(), x)
  {
  }

  /** Of what the matching leaves, no operand of one side matches one of the other. */
  lemma {:induction false} NothingMatchesAfter(op: Op, xs: seq<Expr>, ys: seq<Expr>, x: Expr)
    requires x in MatchAll(op, xs, ys).xs
    ensures !Meets(x, MatchAll(op, xs, ys).ys)
    decreases |xs|
  {
    hide Matches, Meet;
    var m := Meet(op, xs[0], ys);
    var r := MatchAll(op, xs[1..], m.ys);
    MeetIff(op, xs[0], ys);
    if x in r.xs {
      NothingMatchesAfter(op, xs[1..], m.ys, x);
    } else {
      FewerLeft(op, xs[1..], m.ys, x);
      if m.x == op.Unit() { OnlyUnitMeetsNothing(op, r.ys); } else { assert !Meets(x, m.ys); }
    }
  }

  lemma OnlyUnitMeetsNothing(op: Op, ys: seq<Expr>)
    ensures !Meets(op.Unit(), ys)
  {
    hide Matches;
    forall j | 0 <= j < |ys| ensures !Matches(op.Unit(), ys[j]) { NothingMatchesUnit(op, ys[j]); }
  }

  /** The second side only loses operands. */
  lemma {:induction false} FewerLeft(op: Op, xs: seq<Expr>, ys: seq<Expr>, x: Expr)
    ensures Meets(x, MatchAll(op, xs, ys).ys) ==> Meets(x, ys)
    decreases |xs|
  {
    hide Matches, Meet;
    if xs != [] {
      var m := Meet(op, xs[0], ys);
      MeetIff(op, xs[0], ys);
      FewerLeft(op, xs[1..], m.ys, x);
      if j :| 0 <= j < |m.ys| && Matches(x, m.ys[j]) {
        NothingMatchesUnit(op, x);
        assert Matches(x, ys[j]);
      }
    }
  }

  /** After the elimination no operand of the first chain matches one of the second. */
  lemma NothingSharedIsLeft(op: Op, e1: Expr, e2: Expr, x: Expr, y: Expr)
    requires var p := EliminateEqIn(op, e1, e2); x in Operands(op, p.fst) && y in Operands(op, p.snd)
    ensures !Matches(x, y)
  {
    hide Matches, MatchAll, EliminateEqIn;
    EliminateIsMatching(op, e1, e2);
    NothingMatchesAfter(op, Operands(op, e1), Operands(op, e2), x);
  }

  /** expr_eliminate_eq also looks for a single operand in the second chain. */
  lemma OperandIsFound(op: Op, x: Expr, e: Expr)
    requires !x.And? && !x.Or? && op.Is(e)
    ensures EliminateEq(x, e).fst == if Meets(x, Operands(op, e)) then op.Unit() else x
  {
    hide Eq, Matches, Meet, MatchAll, EliminateEqIn;
    var p := EliminateEqIn(op, x, e);
    EliminateIsMatching(op, x, e);
    MatchOne(op, x, Operands(op, e));
    MeetIff(op, x, Operands(op, e));
    OperandStays(op, x, e);
    assert Operands(op, p.fst) == [p.fst];
  }

  // ----- what a chain comes down to -----

  lemma {:induction false} RestJoin(op: Op, a: seq<Expr>, b: seq<Expr>)
    ensures Rest(op, a + b) == Rest(op, a) + Rest(op, b)
  {
    if a == [] {
      assert a + b == b;
    } else {
      assert (a + b)[0] == a[0] && (a + b)[1..] == a[1..] + b;
      RestJoin(op, a[1..], b);
    }
  }

  /** Dropping y and n from a chain goes by what is left of its operands. */
  lemma {:induction false} RestDecides(op: Op, e: Expr)
    ensures var r, k := Rest(op, Operands(op, e)), EliminateYn(e);
      && (op.Absorber() in r <==> k == op.Absorber())
      && (op.Absorber() !in r ==> (r == [] <==> k == op.Unit()) && (|r| == 1 ==> k == r[0]) && (|r| > 1 ==> !k.Sym?))
  {
    if op.Is(e) {
      RestDecides(op, e.left);
      RestDecides(op, e.right);
      RestJoin(op, Operands(op, e.left), Operands(op, e.right));
      ChainCollapses(op, e);
    } else {
      assert [e][1..] == [];
    }
  }

  lemma ChainCollapses(op: Op, e: Expr)
    requires op.Is(e)
    ensures EliminateYn(e) == Collapse(op, EliminateYn(e.left), EliminateYn(e.right))
  {
  }

  lemma OutcomeIs(op: Op, e: Expr)
    ensures var o, k := Outcome(op, Operands(op, e)), EliminateYn(e);
      (k.Sym? <==> o.Some?) && (k.Sym? ==> o == Some(k.sym))
  {
    RestDecides(op, e);
  }

  // ----- the exact condition -----

  /** Two chains of one operator are found equal if and only if their operands, matched from the left, come down
      to the same symbol on both sides; hidden absorbers and quoted constants included. */
  lemma EqIffMatched(op: Op, e1: Expr, e2: Expr)
    requires op.Is(e1) && op.Is(e2)
    ensures var m := MatchAll(op, Operands(op, e1), Operands(op, e2));
      Eq(e1, e2) <==> Outcome(op, m.xs).Some? && Outcome(op, m.xs) == Outcome(op, m.ys)
  {
    hide Eq, EliminateEqIn, EliminateYn, Outcome, MatchAll, Operands;
    var p := EliminateEqIn(op, e1, e2);
    EqOfChains(op, e1, e2);
    EliminateIsMatching(op, e1, e2);
    OutcomeIs(op, p.fst);
    OutcomeIs(op, p.snd);
  }

  /** An expression equals itself: a recursion over the operands, for every expression. */
  predicate SelfMatched(e: Expr) {
    match e
    case Not(a) => SelfMatched(a)
    case And(_, _) => MatchesItself(OpAnd, Operands(OpAnd, e))
    case Or(_, _) => MatchesItself(OpOr, Operands(OpOr, e))
    case _ => true
  }

  predicate MatchesItself(op: Op, es: seq<Expr>) {
    var m := MatchAll(op, es, es);
    Outcome(op, m.xs).Some? && Outcome(op, m.xs) == Outcome(op, m.ys)
  }

  lemma {:induction false} EqualsItselfIffMatched(e: Expr)
    ensures Eq(e, e) <==> SelfMatched(e)
  {
    hide MatchAll, Outcome, Operands;
    match e
    case Not(a) => EqualsItselfIffMatched(a);
    case And(_, _) => hide Eq; EqIffMatched(OpAnd, e, e);
    case Or(_, _) => hide Eq; EqIffMatched(OpOr, e, e);
    case _ =>
  }

  /** How a chain is grouped makes no difference to what it is found equal to. */
  lemma EqIgnoresGrouping(op: Op, e: Expr, f: Expr, x: Expr)
    requires op.Is(e) && op.Is(f) && Operands(op, e) == Operands(op, f)
    ensures (Eq(e, x) <==> Eq(f, x)) && (Eq(x, e) <==> Eq(x, f))
  {
    if op.Is(x) {
      hide Eq, MatchAll, Outcome, Operands;
      EqIffMatched(op, e, x);
      EqIffMatched(op, f, x);
      EqIffMatched(op, x, e);
      EqIffMatched(op, x, f);
    } else {
      OtherKind(op, e, x);
      OtherKind(op, f, x);
    }
  }

  lemma OtherKind(op: Op, e: Expr, x: Expr)
    requires op.Is(e) && !op.Is(x)
    ensures !Eq(e, x) && !Eq(x, e)
  {
  }
}
