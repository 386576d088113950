/** Slots: the addresses of operands inside one expression, and what replacing an operand does. */
module ExprSlots {
  import T = Tristate
  import opened Expr
  import opened ExprEq

  datatype Step = GoLeft | GoRight

  /** A slot is named by the way from the root down to it. */
  type Slot = seq<Step>

  function Child(e: Expr, s: Step): Expr
    requires e.And? || e.Or?
  {
    if s == GoLeft then e.left else e.right
  }

  function WithChild(e: Expr, s: Step, c: Expr): Expr
    requires e.And? || e.Or?
  {
    if s == GoLeft then OpOf(e).Make(c, e.right) else OpOf(e).Make(e.left, c)
  }

  /** Every node above the slot belongs to the chain of op that starts at the root. */
  predicate InChain(op: Op, e: Expr, p: Slot) {
    p == [] || (op.Is(e) && InChain(op, Child(e, p[0]), p[1..]))
  }

  function At(op: Op, e: Expr, p: Slot): (r: Expr)
    requires InChain(op, e, p)
    ensures Size(r) <= Size(e)
    ensures p != [] ==> Size(r) < Size(e)
  {
    if p == [] then e else At(op, Child(e, p[0]), p[1..])
  }

  function Put(op: Op, e: Expr, p: Slot, x: Expr): (r: Expr)
    requires InChain(op, e, p)
    ensures Size(r) == Size(e) - Size(At(op, e, p)) + Size(x)
  {
    if p == [] then x else WithChild(e, p[0], Put(op, Child(e, p[0]), p[1..], x))
  }

  /** The nodes of the chain of op: what walking the chain runs out of. */
  function ChainSize(op: Op, e: Expr): nat {
    if op.Is(e) then 1 + ChainSize(op, e.left) + ChainSize(op, e.right) else 0
  }

  /** Same chain nodes at the same places; the operands may differ. */
  predicate SameChain(op: Op, a: Expr, b: Expr) {
    if op.Is(a) then op.Is(b) && SameChain(op, a.left, b.left) && SameChain(op, a.right, b.right)
    else !op.Is(b)
  }

  lemma {:induction false} SameChainReflexive(op: Op, a: Expr)
    ensures SameChain(op, a, a)
  {
    if op.Is(a) {
      SameChainReflexive(op, a.left);
      SameChainReflexive(op, a.right);
    }
  }

  lemma {:induction false} SameChainTransitive(op: Op, a: Expr, b: Expr, c: Expr)
    requires SameChain(op, a, b) && SameChain(op, b, c)
    ensures SameChain(op, a, c)
  {
    if op.Is(a) {
      SameChainTransitive(op, a.left, b.left, c.left);
      SameChainTransitive(op, a.right, b.right, c.right);
    }
  }

  /** A slot of one is a slot of the other, with the same chain below it. */
  lemma {:induction false} SameChainSlots(op: Op, a: Expr, b: Expr, p: Slot)
    requires SameChain(op, a, b) && InChain(op, a, p)
    ensures InChain(op, b, p)
    ensures SameChain(op, At(op, a, p), At(op, b, p))
  {
    if p != [] {
      SameChainSlots(op, Child(a, p[0]), Child(b, p[0]), p[1..]);
    }
  }

  lemma {:induction false} SameChainSize(op: Op, a: Expr, b: Expr)
    requires SameChain(op, a, b)
    ensures ChainSize(op, a) == ChainSize(op, b)
  {
    if op.Is(a) {
      SameChainSize(op, a.left, b.left);
      SameChainSize(op, a.right, b.right);
    }
  }

  lemma {:induction false} SlotExtends(op: Op, e: Expr, p: Slot, s: Step)
    requires InChain(op, e, p) && op.Is(At(op, e, p))
    ensures InChain(op, e, p + [s]) && At(op, e, p + [s]) == Child(At(op, e, p), s)
  {
    if p == [] {
      assert p + [s] == [s] && [s][1..] == [];
    } else {
      SlotExtends(op, Child(e, p[0]), p[1..], s);
      assert (p + [s])[1..] == p[1..] + [s];
    }
  }

  lemma {:induction false} PutAtSame(op: Op, e: Expr, p: Slot, x: Expr)
    requires InChain(op, e, p)
    ensures InChain(op, Put(op, e, p, x), p) && At(op, Put(op, e, p, x), p) == x
    ensures Put(op, e, p, At(op, e, p)) == e
  {
    if p != [] {
      PutAtSame(op, Child(e, p[0]), p[1..], x);
    }
  }

  /** Putting an operand for an operand keeps the chain. */
  lemma {:induction false} PutKeepsChain(op: Op, e: Expr, p: Slot, x: Expr)
    requires InChain(op, e, p) && SameChain(op, At(op, e, p), x)
    ensures SameChain(op, e, Put(op, e, p, x))
  {
    if p != [] {
      var s := p[0];
      PutKeepsChain(op, Child(e, s), p[1..], x);
      SameChainReflexive(op, e.left);
      SameChainReflexive(op, e.right);
    }
  }

  /** Neither slot lies inside the other. */
  predicate Apart(p: Slot, q: Slot) {
    p != [] && q != [] && (p[0] == q[0] ==> Apart(p[1..], q[1..]))
  }

  lemma {:induction false} OperandsAreApart(op: Op, e: Expr, p: Slot, q: Slot)
    requires InChain(op, e, p) && InChain(op, e, q) && p != q
    requires !op.Is(At(op, e, p)) && !op.Is(At(op, e, q))
    ensures Apart(p, q)
  {
    if p != [] && q != [] && p[0] == q[0] {
      assert p == [p[0]] + p[1..] && q == [q[0]] + q[1..];
      OperandsAreApart(op, Child(e, p[0]), p[1..], q[1..]);
    }
  }

  lemma {:induction false} PutKeepsApart(op: Op, e: Expr, p: Slot, q: Slot, x: Expr)
    requires InChain(op, e, p) && InChain(op, e, q) && Apart(p, q)
    ensures InChain(op, Put(op, e, p, x), q)
    ensures At(op, Put(op, e, p, x), q) == At(op, e, q)
  {
    if p[0] == q[0] {
      PutKeepsApart(op, Child(e, p[0]), p[1..], q[1..], x);
    }
  }

  // ----- values -----

  /** The value of a chain without the operand in slot p. */
  function Around(op: Op, e: Expr, p: Slot, v: Valuation): T.Tri
    requires InChain(op, e, p)
  {
    if p == [] then Eval(op.Unit(), v)
    else op.Apply(Eval(Child(e, if p[0] == GoLeft then GoRight else GoLeft), v), Around(op, Child(e, p[0]), p[1..], v))
  }

  lemma Rearrange(op: Op, a: T.Tri, b: T.Tri, c: T.Tri)
    ensures op.Apply(a, op.Apply(b, c)) == op.Apply(op.Apply(a, b), c)
    ensures op.Apply(op.Apply(b, c), a) == op.Apply(op.Apply(a, b), c)
  {
  }

  lemma {:induction false} EvalPut(op: Op, e: Expr, p: Slot, x: Expr, v: Valuation)
    requires InChain(op, e, p) && Legal(v)
    ensures Eval(Put(op, e, p, x), v) == op.Apply(Around(op, e, p, v), Eval(x, v))
  {
    if p == [] {
      UnitIsNeutral(op, v);
    } else {
      var rest := Child(e, p[0]);
      var other := Child(e, if p[0] == GoLeft then GoRight else GoLeft);
      EvalPut(op, rest, p[1..], x, v);
      EvalChain(op, Put(op, e, p, x), v);
      Rearrange(op, Eval(other, v), Around(op, rest, p[1..], v), Eval(x, v));
    }
  }

  lemma EvalAt(op: Op, e: Expr, p: Slot, v: Valuation)
    requires InChain(op, e, p) && Legal(v)
    ensures Eval(e, v) == op.Apply(Around(op, e, p, v), Eval(At(op, e, p), v))
  {
    PutAtSame(op, e, p, At(op, e, p));
    EvalPut(op, e, p, At(op, e, p), v);
  }

  /** Replacing an operand by one that refines it refines the whole. */
  lemma PutRefines(op: Op, e: Expr, p: Slot, x: Expr, v: Valuation)
    requires InChain(op, e, p) && Legal(v)
    requires T.Refines(Eval(At(op, e, p), v), Eval(x, v))
    ensures T.Refines(Eval(e, v), Eval(Put(op, e, p, x), v))
  {
    EvalPut(op, e, p, x, v);
    EvalAt(op, e, p, v);
  }

  /** Two operands of a chain trade places with the unit and their combination. */
  lemma {:induction false} EvalPutBoth(op: Op, e: Expr, p: Slot, q: Slot, x: Expr, v: Valuation)
    requires InChain(op, e, p) && InChain(op, e, q) && Apart(p, q) && Legal(v)
    requires Eval(x, v) == op.Apply(Eval(At(op, e, p), v), Eval(At(op, e, q), v))
    ensures InChain(op, Put(op, e, p, op.Unit()), q)
    ensures Eval(Put(op, Put(op, e, p, op.Unit()), q, x), v) == Eval(e, v)
  {
    var u := Put(op, e, p, op.Unit());
    PutKeepsApart(op, e, p, q, op.Unit());
    UnitIsNeutral(op, v);
    EvalAt(op, e, p, v);
    EvalPut(op, e, p, op.Unit(), v);
    EvalAt(op, u, q, v);
    EvalPut(op, u, q, x, v);
    Regroup(op, Around(op, e, p, v), Around(op, u, q, v), Eval(At(op, e, p), v), Eval(At(op, e, q), v));
  }

  lemma Regroup(op: Op, k: T.Tri, m: T.Tri, a: T.Tri, b: T.Tri)
    requires k == op.Apply(m, b)
    ensures op.Apply(m, op.Apply(a, b)) == op.Apply(k, a)
  {
  }

  // ----- units and absorbers left behind -----

  lemma {:induction false} PutLeavesYn(op: Op, e: Expr, p: Slot, x: Expr)
    requires InChain(op, e, p)
    requires (p != [] && IsUnitOrAbsorber(x)) || !YnFree(x)
    ensures !YnFree(Put(op, e, p, x))
  {
    if p != [] && (|p| > 1 || !YnFree(x)) {
      PutLeavesYn(op, Child(e, p[0]), p[1..], x);
    }
  }

  lemma {:induction false} SlotsApartKeepYn(op: Op, e: Expr, p: Slot, q: Slot, x: Expr)
    requires InChain(op, e, p) && InChain(op, e, q) && Apart(p, q)
    requires IsUnitOrAbsorber(At(op, e, q))
    ensures !YnFree(Put(op, e, p, x))
  {
    PutKeepsApart(op, e, p, q, x);
    var r := Put(op, e, p, x);
    PutAtSame(op, r, q, At(op, r, q));
    PutLeavesYn(op, r, q, At(op, r, q));
  }
}
