/** The two passes of expr_eliminate_dups as double loops over the operands of a chain, from left to right. */
module ExprVisit {
  import opened Expr
  import opened ExprSlots
  import opened ExprDups
  import opened ExprReduced

  /** The operands of a chain from left to right; for the second pass each chain node, too, behind what is in it. */
  function Places(op: Op, e: Expr, nodes: bool): seq<Slot> {
    if !op.Is(e) then [[]]
    else
      Below(GoLeft, Places(op, e.left, nodes)) + Below(GoRight, Places(op, e.right, nodes)) + if nodes then [[]] else []
  }

  function Below(s: Step, ps: seq<Slot>): (r: seq<Slot>)
    ensures |r| == |ps|
  {
    seq(|ps|, i requires 0 <= i < |ps| => [s] + ps[i])
  }

  function From(p: Slot, ps: seq<Slot>): (r: seq<Slot>)
    ensures |r| == |ps|
  {
    seq(|ps|, i requires 0 <= i < |ps| => p + ps[i])
  }

  predicate AllInChain(op: Op, e: Expr, qs: seq<Slot>) {
    forall i :: 0 <= i < |qs| ==> InChain(op, e, qs[i])
  }

  predicate AllOperands(op: Op, e: Expr, ps: seq<Slot>) {
    forall i :: 0 <= i < |ps| ==> IsOperand(op, e, ps[i])
  }

  /** What a pass does with one operand and one place. */
  function Treat(second: bool, op: Op, e: Expr, p: Slot, q: Slot): (r: Counted)
    requires IsOperand(op, e, p) && InChain(op, e, q) && (!second ==> IsOperand(op, e, q))
    ensures SameChain(op, e, r.expr)
  {
    if p == q then (SameChainReflexive(op, e); Counted(e, 0))
    else if second then Dups2Operand(op, e, p, q)
    else Dups1Operand(op, e, p, q)
  }

  /** The inner loop. */
  function Row(second: bool, op: Op, e: Expr, p: Slot, qs: seq<Slot>): (r: Counted)
    requires IsOperand(op, e, p) && AllInChain(op, e, qs) && (!second ==> AllOperands(op, e, qs))
    ensures SameChain(op, e, r.expr)
    decreases |qs|
  {
    if qs == [] then (SameChainReflexive(op, e); Counted(e, 0))
    else
      var a := Treat(second, op, e, p, qs[0]);
      PlacesStay(op, e, a.expr, [p], qs);
      assert IsOperand(op, a.expr, [p][0]);
      var b := Row(second, op, a.expr, p, qs[1..]);
      SameChainTransitive(op, e, a.expr, b.expr);
      Counted(b.expr, a.count + b.count)
  }

  /** The outer loop. */
  function Rows(second: bool, op: Op, e: Expr, ps: seq<Slot>, qs: seq<Slot>): (r: Counted)
    requires AllOperands(op, e, ps) && AllInChain(op, e, qs) && (!second ==> AllOperands(op, e, qs))
    ensures SameChain(op, e, r.expr)
    decreases |ps|
  {
    if ps == [] then (SameChainReflexive(op, e); Counted(e, 0))
    else
      var a := Row(second, op, e, ps[0], qs);
      PlacesStay(op, e, a.expr, ps, qs);
      var b := Rows(second, op, a.expr, ps[1..], qs);
      SameChainTransitive(op, e, a.expr, b.expr);
      Counted(b.expr, a.count + b.count)
  }

  lemma PlacesStay(op: Op, e: Expr, e': Expr, ps: seq<Slot>, qs: seq<Slot>)
    requires SameChain(op, e, e') && AllOperands(op, e, ps) && AllInChain(op, e, qs)
    ensures AllOperands(op, e', ps) && AllInChain(op, e', qs)
    ensures AllOperands(op, e, qs) ==> AllOperands(op, e', qs)
  {
    forall i | 0 <= i < |ps| ensures IsOperand(op, e', ps[i]) { SlotsAfter(op, e, e', ps[i], ps[i]); }
    forall i | 0 <= i < |qs| ensures InChain(op, e', qs[i]) && (IsOperand(op, e, qs[i]) ==> IsOperand(op, e', qs[i])) {
      SlotsAfter(op, e, e', qs[i], qs[i]);
    }
  }

  // ----- the places below a slot -----

  lemma FromChain(op: Op, e: Expr, p: Slot, nodes: bool)
    requires InChain(op, e, p) && op.Is(At(op, e, p))
    ensures InChain(op, e, p + [GoLeft]) && InChain(op, e, p + [GoRight])
    ensures ChainSize(op, At(op, e, p + [GoLeft])) < ChainSize(op, At(op, e, p))
    ensures ChainSize(op, At(op, e, p + [GoRight])) < ChainSize(op, At(op, e, p))
    ensures From(p, Places(op, At(op, e, p), nodes))
         == From(p + [GoLeft], Places(op, At(op, e, p + [GoLeft]), nodes))
          + From(p + [GoRight], Places(op, At(op, e, p + [GoRight]), nodes)) + if nodes then [p] else []
  {
    SlotExtends(op, e, p, GoLeft);
    SlotExtends(op, e, p, GoRight);
    var l, r := Places(op, At(op, e, p).left, nodes), Places(op, At(op, e, p).right, nodes);
    FromBelow(p, GoLeft, l);
    FromBelow(p, GoRight, r);
    FromJoin(p, Below(GoLeft, l) + Below(GoRight, r), if nodes then [[]] else []);
    FromJoin(p, Below(GoLeft, l), Below(GoRight, r));
    assert p + [] == p && From(p, [[]]) == [p];
    var none: seq<Slot> := [];
    assert From(p, none) == none;
  }

  lemma FromBelow(p: Slot, s: Step, ps: seq<Slot>)
    ensures From(p, Below(s, ps)) == From(p + [s], ps)
  {
    forall i | 0 <= i < |ps| ensures p + ([s] + ps[i]) == (p + [s]) + ps[i] { }
  }

  lemma FromJoin(p: Slot, ps: seq<Slot>, qs: seq<Slot>)
    ensures From(p, ps + qs) == From(p, ps) + From(p, qs)
  {
  }

  lemma FromSingle(op: Op, e: Expr, p: Slot, nodes: bool)
    requires InChain(op, e, p) && !op.Is(At(op, e, p))
    ensures From(p, Places(op, At(op, e, p), nodes)) == [p]
  {
    assert p + [] == p;
  }

  lemma OperandFits(op: Op, e: Expr, p: Slot)
    requires InChain(op, e, p)
    ensures AllInChain(op, e, [p]) && (!op.Is(At(op, e, p)) ==> AllOperands(op, e, [p]))
  {
  }

  /** They are all places of the chain, and without the nodes all operands. */
  lemma {:induction false} PlacesFit(op: Op, e: Expr, p: Slot, nodes: bool)
    requires InChain(op, e, p)
    ensures var ps := From(p, Places(op, At(op, e, p), nodes));
      AllInChain(op, e, ps) && (!nodes ==> AllOperands(op, e, ps))
    decreases ChainSize(op, At(op, e, p))
  {
    hide Places, From, InChain, At, ChainSize, IsOperand;
    if op.Is(At(op, e, p)) {
      FromChain(op, e, p, nodes);
      PlacesFit(op, e, p + [GoLeft], nodes);
      PlacesFit(op, e, p + [GoRight], nodes);
    } else {
      OperandFits(op, e, p);
      FromSingle(op, e, p, nodes);
    }
  }

  /** A rewriting that keeps the chain keeps its places. */
  lemma {:induction false} SamePlaces(op: Op, a: Expr, b: Expr, nodes: bool)
    requires SameChain(op, a, b)
    ensures Places(op, a, nodes) == Places(op, b, nodes)
  {
    if op.Is(a) {
      SamePlaces(op, a.left, b.left, nodes);
      SamePlaces(op, a.right, b.right, nodes);
    }
  }

  // ----- loops in two parts -----

  lemma {:induction false} RowJoin(second: bool, op: Op, e: Expr, p: Slot, qs: seq<Slot>, rs: seq<Slot>)
    requires IsOperand(op, e, p) && AllInChain(op, e, qs) && AllInChain(op, e, rs)
    requires !second ==> AllOperands(op, e, qs) && AllOperands(op, e, rs)
    ensures AllInChain(op, e, qs + rs) && (!second ==> AllOperands(op, e, qs + rs))
    ensures var a := Row(second, op, e, p, qs);
      && IsOperand(op, a.expr, p) && AllInChain(op, a.expr, rs) && (!second ==> AllOperands(op, a.expr, rs))
      && var b := Row(second, op, a.expr, p, rs);
      Row(second, op, e, p, qs + rs) == Counted(b.expr, a.count + b.count)
    decreases |qs|
  {
    hide Treat, InChain, At, SameChain, IsOperand;
    var a := Row(second, op, e, p, qs);
    PlacesStay(op, e, a.expr, [p], rs);
    assert IsOperand(op, a.expr, [p][0]);
    if qs == [] {
      assert qs + rs == rs;
    } else {
      var t := Treat(second, op, e, p, qs[0]);
      PlacesStay(op, e, t.expr, [p], qs + rs);
      assert IsOperand(op, t.expr, [p][0]);
      assert (qs + rs)[0] == qs[0] && (qs + rs)[1..] == qs[1..] + rs;
      PlacesStay(op, e, t.expr, [p], qs);
      PlacesStay(op, e, t.expr, [p], rs);
      RowJoin(second, op, t.expr, p, qs[1..], rs);
    }
  }

  lemma {:induction false} RowsJoin(second: bool, op: Op, e: Expr, ps: seq<Slot>, rs: seq<Slot>, qs: seq<Slot>)
    requires AllOperands(op, e, ps) && AllOperands(op, e, rs) && AllInChain(op, e, qs)
    requires !second ==> AllOperands(op, e, qs)
    ensures AllOperands(op, e, ps + rs)
    ensures var a := Rows(second, op, e, ps, qs);
      && AllOperands(op, a.expr, rs) && AllInChain(op, a.expr, qs) && (!second ==> AllOperands(op, a.expr, qs))
      && var b := Rows(second, op, a.expr, rs, qs);
      Rows(second, op, e, ps + rs, qs) == Counted(b.expr, a.count + b.count)
    decreases |ps|
  {
    hide Row, InChain, At, SameChain, IsOperand;
    var a := Rows(second, op, e, ps, qs);
    PlacesStay(op, e, a.expr, rs, qs);
    if ps == [] {
      assert ps + rs == rs;
    } else {
      var t := Row(second, op, e, ps[0], qs);
      PlacesStay(op, e, t.expr, ps, qs);
      PlacesStay(op, e, t.expr, rs, qs);
      assert (ps + rs)[0] == ps[0] && (ps + rs)[1..] == ps[1..] + rs;
      RowsJoin(second, op, t.expr, ps[1..], rs, qs);
    }
  }

  lemma RowsOfOne(second: bool, op: Op, e: Expr, p: Slot, qs: seq<Slot>)
    requires IsOperand(op, e, p) && AllInChain(op, e, qs) && (!second ==> AllOperands(op, e, qs))
    ensures AllOperands(op, e, [p]) && Rows(second, op, e, [p], qs) == Row(second, op, e, p, qs)
  {
    assert [p][1..] == [];
  }

  lemma RowOfOne(second: bool, op: Op, e: Expr, p: Slot, q: Slot)
    requires IsOperand(op, e, p) && InChain(op, e, q) && (!second ==> IsOperand(op, e, q))
    ensures AllInChain(op, e, [q]) && (!second ==> AllOperands(op, e, [q]))
    ensures Row(second, op, e, p, [q]) == Treat(second, op, e, p, q)
  {
    assert [q][1..] == [];
  }

  // ----- the first pass -----

  lemma {:induction false} Dups1IsRow(op: Op, e: Expr, p: Slot, q: Slot)
    requires IsOperand(op, e, p) && InChain(op, e, q)
    ensures var qs := From(q, Places(op, At(op, e, q), false));
      AllInChain(op, e, qs) && AllOperands(op, e, qs) && Dups1(op, e, p, q) == Row(false, op, e, p, qs)
    decreases ChainSize(op, At(op, e, q))
  {
    hide Row, Dups1Operand, From, Places, AllInChain, AllOperands, SameChain, InChain, At, ChainSize;
    PlacesFit(op, e, q, false);
    if op.Is(At(op, e, q)) {
      FromChain(op, e, q, false);
      SlotExtends(op, e, q, GoLeft);
      SlotExtends(op, e, q, GoRight);
      var a := Dups1(op, e, p, q + [GoLeft]);
      var ls, rs := From(q + [GoLeft], Places(op, At(op, e, q + [GoLeft]), false)),
                    From(q + [GoRight], Places(op, At(op, e, q + [GoRight]), false));
      SlotsAfter(op, e, a.expr, p, q + [GoRight]);
      SameChainSlots(op, e, a.expr, q + [GoRight]);
      SamePlaces(op, At(op, e, q + [GoRight]), At(op, a.expr, q + [GoRight]), false);
      PlacesFit(op, e, q + [GoLeft], false);
      PlacesFit(op, e, q + [GoRight], false);
      Dups1IsRow(op, e, p, q + [GoLeft]);
      Dups1IsRow(op, a.expr, p, q + [GoRight]);
      RowJoin(false, op, e, p, ls, rs);
      assert ls + rs + [] == ls + rs;
    } else {
      FromSingle(op, e, q, false);
      RowOfOne(false, op, e, p, q);
    }
  }

  lemma {:induction false} Dups1IsRows(op: Op, e: Expr, p: Slot, q: Slot)
    requires InChain(op, e, p) && InChain(op, e, q)
    ensures var ps, qs := From(p, Places(op, At(op, e, p), false)), From(q, Places(op, At(op, e, q), false));
      && AllOperands(op, e, ps) && AllInChain(op, e, qs) && AllOperands(op, e, qs)
      && Dups1(op, e, p, q) == Rows(false, op, e, ps, qs)
    decreases ChainSize(op, At(op, e, p))
  {
    hide Row, Rows, Dups1Operand, From, Places, AllInChain, AllOperands, SameChain, InChain, At, ChainSize;
    PlacesFit(op, e, p, false);
    PlacesFit(op, e, q, false);
    var qs := From(q, Places(op, At(op, e, q), false));
    if op.Is(At(op, e, p)) {
      FromChain(op, e, p, false);
      SlotExtends(op, e, p, GoLeft);
      SlotExtends(op, e, p, GoRight);
      var a := Dups1(op, e, p + [GoLeft], q);
      var ls, rs := From(p + [GoLeft], Places(op, At(op, e, p + [GoLeft]), false)),
                    From(p + [GoRight], Places(op, At(op, e, p + [GoRight]), false));
      SlotsAfter(op, e, a.expr, p + [GoRight], q);
      SameChainSlots(op, e, a.expr, p + [GoRight]);
      SameChainSlots(op, e, a.expr, q);
      SamePlaces(op, At(op, e, p + [GoRight]), At(op, a.expr, p + [GoRight]), false);
      SamePlaces(op, At(op, e, q), At(op, a.expr, q), false);
      PlacesFit(op, e, p + [GoLeft], false);
      PlacesFit(op, e, p + [GoRight], false);
      Dups1IsRows(op, e, p + [GoLeft], q);
      Dups1IsRows(op, a.expr, p + [GoRight], q);
      RowsJoin(false, op, e, ls, rs, qs);
      assert ls + rs + [] == ls + rs;
    } else {
      FromSingle(op, e, p, false);
      Dups1IsRow(op, e, p, q);
      RowsOfOne(false, op, e, p, qs);
    }
  }

  // ----- the second pass -----

  lemma {:induction false} Dups2IsRow(op: Op, e: Expr, p: Slot, q: Slot)
    requires IsOperand(op, e, p) && InChain(op, e, q)
    ensures var qs := From(q, Places(op, At(op, e, q), true));
      AllInChain(op, e, qs) && Dups2(op, e, p, q) == Row(true, op, e, p, qs)
    decreases ChainSize(op, At(op, e, q))
  {
    hide Row, Dups2Operand, From, Places, AllInChain, AllOperands, SameChain, InChain, At, ChainSize;
    PlacesFit(op, e, q, true);
    if op.Is(At(op, e, q)) {
      FromChain(op, e, q, true);
      SlotExtends(op, e, q, GoLeft);
      SlotExtends(op, e, q, GoRight);
      var a := Dups2(op, e, p, q + [GoLeft]);
      var ls, rs := From(q + [GoLeft], Places(op, At(op, e, q + [GoLeft]), true)),
                    From(q + [GoRight], Places(op, At(op, e, q + [GoRight]), true));
      SlotsAfter(op, e, a.expr, p, q + [GoRight]);
      SameChainSlots(op, e, a.expr, q + [GoRight]);
      SamePlaces(op, At(op, e, q + [GoRight]), At(op, a.expr, q + [GoRight]), true);
      PlacesFit(op, e, q + [GoLeft], true);
      PlacesFit(op, e, q + [GoRight], true);
      Dups2IsRow(op, e, p, q + [GoLeft]);
      Dups2IsRow(op, a.expr, p, q + [GoRight]);
      RowJoin(true, op, e, p, ls, rs);
      var b := Dups2Second(op, e, p, q);
      assert b == Row(true, op, e, p, ls + rs);
      SlotsAfter(op, e, b.expr, p, q);
      OperandFits(op, e, q);
      RowJoin(true, op, e, p, ls + rs, [q]);
      RowOfOne(true, op, b.expr, p, q);
      assert p != q;
    } else {
      FromSingle(op, e, q, true);
      RowOfOne(true, op, e, p, q);
    }
  }

  lemma {:induction false} Dups2IsRows(op: Op, e: Expr, p: Slot, q: Slot)
    requires InChain(op, e, p) && InChain(op, e, q)
    ensures var ps, qs := From(p, Places(op, At(op, e, p), false)), From(q, Places(op, At(op, e, q), true));
      && AllOperands(op, e, ps) && AllInChain(op, e, qs)
      && Dups2(op, e, p, q) == Rows(true, op, e, ps, qs)
    decreases ChainSize(op, At(op, e, p))
  {
    hide Row, Rows, Dups2Operand, Dups2Second, From, Places, AllInChain, AllOperands, SameChain, InChain, At, ChainSize;
    PlacesFit(op, e, p, false);
    PlacesFit(op, e, q, true);
    var qs := From(q, Places(op, At(op, e, q), true));
    if op.Is(At(op, e, p)) {
      FromChain(op, e, p, false);
      SlotExtends(op, e, p, GoLeft);
      SlotExtends(op, e, p, GoRight);
      var a := Dups2(op, e, p + [GoLeft], q);
      var ls, rs := From(p + [GoLeft], Places(op, At(op, e, p + [GoLeft]), false)),
                    From(p + [GoRight], Places(op, At(op, e, p + [GoRight]), false));
      SlotsAfter(op, e, a.expr, p + [GoRight], q);
      SameChainSlots(op, e, a.expr, p + [GoRight]);
      SameChainSlots(op, e, a.expr, q);
      SamePlaces(op, At(op, e, p + [GoRight]), At(op, a.expr, p + [GoRight]), false);
      SamePlaces(op, At(op, e, q), At(op, a.expr, q), true);
      PlacesFit(op, e, p + [GoLeft], false);
      PlacesFit(op, e, p + [GoRight], false);
      Dups2IsRows(op, e, p + [GoLeft], q);
      Dups2IsRows(op, a.expr, p + [GoRight], q);
      RowsJoin(true, op, e, ls, rs, qs);
      assert ls + rs + [] == ls + rs;
    } else {
      FromSingle(op, e, p, false);
      Dups2IsRow(op, e, p, q);
      RowsOfOne(true, op, e, p, qs);
    }
  }

  /** One round over a chain: every operand, from left to right, is joined with every other operand; then every
      operand that is a chain itself is tried against every other operand, and every group of them behind it. */
  lemma RoundIsTwoLoops(op: Op, e: Expr)
    requires op.Is(e)
    ensures var ps := Places(op, e, false);
      && AllOperands(op, e, ps) && AllInChain(op, e, ps)
      && var a := Rows(false, op, e, ps, ps);
      && AllOperands(op, a.expr, ps) && AllInChain(op, a.expr, Places(op, e, true))
      && var b := Rows(true, op, a.expr, ps, Places(op, e, true));
      DupsRound(e) == Counted(b.expr, a.count + b.count)
  {
    hide Rows, Dups1, Dups2, Places;
    FromTop(Places(op, e, false));
    FromTop(Places(op, e, true));
    Dups1IsRows(op, e, [], []);
    var a := Dups1(op, e, [], []);
    SamePlaces(op, e, a.expr, false);
    SamePlaces(op, e, a.expr, true);
    Dups2IsRows(op, a.expr, [], []);
  }

  lemma FromTop(ps: seq<Slot>)
    ensures From([], ps) == ps
  {
    forall i | 0 <= i < |ps| ensures [] + ps[i] == ps[i] { }
  }
}
