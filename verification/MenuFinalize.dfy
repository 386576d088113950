/** menu_finalize: narrows dependencies, adopts siblings, and lifts the children of entries without a
    prompt, all by changing next, list and parent. */
module MenuFinalize {
  import T = Tristate
  import opened Options
  import opened Expr
  import ExprAdopt
  import ExprEq
  import opened ExprCompare
  import opened MenuDeps
  import opened MenuPlan
  import opened MenuTree

  // ----- dependencies -----

  function DataOf(m: Entry): Data
    reads m`dep, m`prompt
  {
    Data(m.dep, m.prompt)
  }

  /** What an entry passes on to its children. */
  function ParentDep(p: Entry): Option<Expr>
    reads p`prompt, p`dep
  {
    PassedOn(p.sym, p.isChoice, DataOf(p))
  }

  predicate ShouldAdopt(p: Entry, m: Entry)
    requires p.sym.Some?
    reads p`prompt, m`prompt, m`dep
  {
    Adopts(p.sym.value, if p.prompt.Some? then p.prompt.value.visible else None, CondOf(DataOf(m)))
  }

  /** m is adopted by p if and only if the condition of its prompt, or without a prompt its own, names the symbol of
      p and asks for it to be on, or leaves nothing of the condition of p's prompt; no prompt counts as always shown. */
  lemma ShouldAdoptIff(p: Entry, m: Entry, dep: Option<Expr>, base: Option<Expr>)
    requires p.sym.Some?
    requires dep == match m.prompt { case Some(prompt) => prompt.visible case None => m.dep }
    requires base == match p.prompt { case Some(prompt) => prompt.visible case None => None }
    ensures ShouldAdopt(p, m) <==>
      && dep.Some? && p.sym.value in ExprAdopt.Symbols(dep.value)
      && (|| ExprAdopt.AsksFor(dep.value, p.sym.value)
          || ExprEq.EliminateEq(Condition(dep), Condition(base)).snd == YES)
  {
    hide Adopts, Condition, ExprEq.EliminateEq, ExprAdopt.AsksFor;
    ExprAdopt.AdoptsIff(p.sym.value, base, dep);
  }

  predicate HasText(m: Entry)
    reads m`prompt
  {
    m.prompt.Some? && m.prompt.value.hasText
  }

  method NarrowChild(menu: Entry, up: Option<Expr>)
    modifies menu`dep, menu`prompt
    ensures DataOf(menu) == Narrowed(menu.sym, up, old(DataOf(menu)))
  {
    hide Narrow, NarrowPrompt;
    menu.dep := Narrow(up, menu.dep);
    if menu.prompt.Some? {
      menu.prompt := Some(menu.prompt.value.(visible := NarrowPrompt(menu.sym, menu.dep, menu.prompt.value.visible)));
    }
  }

  /** The first loop of menu_finalize, over the children of p. */
  method NarrowChildren(p: Entry, ghost kids: Forest, ghost tops: set<Entry>)
    requires Chain(p.list, p, kids, null) && Distinct(kids) && p !in Elems(kids) && tops == Tops(kids)
    modifies tops`dep, tops`prompt
    ensures forall m :: m in tops ==> DataOf(m) == Narrowed(m.sym, ParentDep(p), old(DataOf(m)))
    ensures forall m, v: Valuation :: m in tops && Legal(v) && OptNoNegatedTest(ParentDep(p)) ==>
      IsNarrowed(m.sym, PassedOnValue(p.sym, p.isChoice, DataOf(p), v), old(DataOf(m)), DataOf(m), v)
  {
    hide Narrowed, ParentDep, IsNarrowed, Legal, PassedOnValue, NoNegatedTest;
    TopsAreElems(kids);
    var up := ParentDep(p);
    var menu := p.list;
    ghost var rest := kids;
    while menu != null
      invariant Chain(menu, p, rest, null) && Distinct(rest) && Tops(rest) <= tops
      invariant ParentDep(p) == up
      invariant forall m :: m in Tops(rest) && m in tops ==> DataOf(m) == old(DataOf(m))
      invariant forall m :: m in tops && m !in Tops(rest) ==> DataOf(m) == Narrowed(m.sym, up, old(DataOf(m)))
      decreases rest
    {
      TopsAreElems(rest.rest);
      ElemsAllocated(rest.rest);
      NarrowChild(menu, up);
      assert Chain(menu.next, p, rest.rest, null);
      rest := rest.rest;
      menu := menu.next;
    }
    forall m, v: Valuation | m in tops && Legal(v) && OptNoNegatedTest(ParentDep(p))
      ensures IsNarrowed(m.sym, PassedOnValue(p.sym, p.isChoice, DataOf(p), v), old(DataOf(m)), DataOf(m), v)
    {
      NarrowedIsWorth(m.sym, ParentDep(p), old(DataOf(m)), v);
      ParentDepIsWorth(p, v);
    }
  }

  lemma ParentDepIsWorth(p: Entry, v: Valuation)
    ensures EvalOpt(ParentDep(p), v) == PassedOnValue(p.sym, p.isChoice, DataOf(p), v)
  {
    PassedOnIsWorth(p.sym, p.isChoice, DataOf(p), v);
  }

  // ----- lifting the children of entries without a prompt -----

  /** Gives the siblings of k a new parent; answers the last of them. */
  method Reparent(p: Entry, first: Entry, ghost up: Entry, ghost k: Forest)
    returns (last: Entry, ghost init: Forest, ghost tail: Forest)
    requires Chain(first, up, k, null) && Distinct(k) && k != Nil
    modifies Elems(k)`parent
    ensures Chain(first, p, init, last) && last.parent == p && last.next == null && last in Elems(k)
    ensures Chain(last.list, last, tail, null)
    ensures k == Join(init, Cons(last, tail, Nil)) && Cut(init, Cons(last, tail, Nil))
  {
    last := first;
    init, tail := Nil, k.kids;
    ghost var todo := k.rest;
    SetParent(p, last, k.kids, k.rest, up);
    while last.next != null
      invariant last in Elems(k) && Elems(todo) <= Elems(k)
      invariant Chain(first, p, init, last) && last.parent == p
      invariant Chain(last.list, last, tail, null) && Chain(last.next, up, todo, null)
      invariant k == Join(init, Cons(last, tail, todo))
      invariant Cut(init, Cons(last, tail, todo))
      decreases todo
    {
      ChainExtend(first, p, init, last, tail);
      CutMoves(init, Cons(last, tail, todo), tail, todo);
      JoinAssociates(init, Cons(last, tail, Nil), todo);
      init := Join(init, Cons(last, tail, Nil));
      last := last.next;
      SetParentAfter(p, first, init, last, todo, up);
      tail, todo := todo.kids, todo.rest;
    }
  }

  method SetParent(p: Entry, m: Entry, ghost k: Forest, ghost r: Forest, ghost up: Entry?)
    requires Chain(m.list, m, k, null) && Chain(m.next, up, r, null) && Distinct(Cons(m, k, r))
    modifies m`parent
    ensures m.parent == p && Chain(m.list, m, k, null) && Chain(m.next, up, r, null)
  {
    m.parent := p;
  }

  method SetParentAfter(p: Entry, ghost first: Entry, ghost done: Forest, m: Entry, ghost todo: Forest, ghost up: Entry)
    requires Chain(first, p, done, m) && Chain(m, up, todo, null) && Cut(done, todo)
    modifies m`parent
    ensures m.parent == p && Chain(first, p, done, m)
    ensures Chain(m.list, m, todo.kids, null) && Chain(m.next, up, todo.rest, null)
  {
    ElemsAllocated(done);
    assert m !in Elems(done);
    SetParent(p, m, todo.kids, todo.rest, up);
  }

  /** The children of menu become its next siblings. */
  method Splice(p: Entry, menu: Entry, ghost k: Forest, ghost r: Forest)
    requires Chain(menu.list, menu, k, null) && Chain(menu.next, p, r, null) && menu.list != null
    requires Distinct(Cons(menu, k, r))
    modifies {menu}`next, {menu}`list, Elems(k)`parent, Elems(k)`next
    ensures menu.list == null && Chain(menu.next, p, Join(k, r), null)
  {
    JoinFacts(k, r);
    JoinKids(p, menu.list, menu, menu.next, k, r);
    assert menu !in Elems(Join(k, r));
    menu.next := menu.list;
    menu.list := null;
  }

  method JoinKids(p: Entry, first: Entry, ghost menu: Entry, next: Entry?, ghost k: Forest, ghost r: Forest)
    requires Chain(first, menu, k, null) && Chain(next, p, r, null)
    requires Distinct(k) && Elems(k) !! Elems(r)
    modifies Elems(k)`parent, Elems(k)`next
    ensures Chain(first, p, Join(k, r), null)
  {
    ElemsAllocated(r);
    var last, init, tail := Reparent(p, first, menu, k);
    JoinFacts(init, Cons(last, tail, Nil));
    Link(p, first, init, last, tail, next, r);
    ChainExtend(first, p, init, last, tail);
    ChainJoin(first, p, k, last.next, r, null);
  }

  method Link(ghost p: Entry, ghost first: Entry, ghost init: Forest, last: Entry, ghost tail: Forest,
              next: Entry?, ghost r: Forest)
    requires Chain(first, p, init, last) && Chain(last.list, last, tail, null) && Chain(next, p, r, null)
    requires last !in Elems(init) && last !in Elems(tail) && last !in Elems(r)
    modifies last`next
    ensures last.next == next
    ensures Chain(first, p, init, last) && Chain(last.list, last, tail, null) && Chain(next, p, r, null)
  {
    last.next := next;
  }

  /** done and todo are the siblings of kids, rearranged below, with the same reading order. */
  ghost predicate Parted(kids: Forest, done: Forest, todo: Forest) {
    && Cut(done, todo) && Preorder(done) + Preorder(todo) == Preorder(kids)
    && Elems(done) + Elems(todo) == Elems(kids)
  }

  lemma PartedStarts(kids: Forest)
    requires Distinct(kids)
    ensures Parted(kids, Nil, kids)
  {
    assert Preorder(Nil) + Preorder(kids) == Preorder(kids);
  }

  lemma PartedFacts(kids: Forest, done: Forest, todo: Forest)
    requires Parted(kids, done, todo)
    ensures Distinct(done) && Distinct(todo) && Elems(done) !! Elems(todo)
    ensures Elems(done) <= Elems(kids) && Elems(todo) <= Elems(kids)
    ensures todo == Nil ==> Preorder(done) == Preorder(kids) && Elems(done) == Elems(kids)
  {
    assert Preorder(done) + [] == Preorder(done);
  }

  lemma PartedMoves(kids: Forest, done: Forest, todo: Forest, k: Forest, r: Forest)
    requires Parted(kids, done, todo) && todo.Cons? && Distinct(Cons(todo.head, k, r))
    requires Preorder(k) + Preorder(r) == Preorder(todo.kids) + Preorder(todo.rest)
    requires Elems(k) + Elems(r) == Elems(todo.kids) + Elems(todo.rest)
    ensures Parted(kids, Join(done, Cons(todo.head, k, Nil)), r)
  {
    PreorderMoves(done, todo, k, r);
    CutMoves(done, todo, k, r);
  }

  /** The flattening loop of menu_finalize: afterwards every child of p that has children of its own
      has a prompt with a text. */
  method Flatten(p: Entry, ghost kids: Forest, ghost plan: Plan, ghost after: Option<Entry>)
    returns (ghost kids': Forest)
    requires Chain(p.list, p, kids, null) && Distinct(kids) && p !in Elems(kids)
    requires Final(plan, Elems(kids)) && LowerFit(plan, kids) && Settled(plan, kids, after)
    modifies Elems(kids)`next, Elems(kids)`list, Elems(kids)`parent
    ensures Chain(p.list, p, kids', null) && Preorder(kids') == Preorder(kids)
    ensures Distinct(kids') && Elems(kids') == Elems(kids)
    ensures Fit(plan, kids') && Settled(plan, kids', after)
  {
    hide Settled, Fit, LowerFit, Closed, Final, Text, Parted, Preorder, Distinct, Join, Count;
    FitNothing(plan, Next(kids, after));
    PartedStarts(kids);
    var menu := p.list;
    ghost var done, todo := Nil, kids;
    while menu != null
      invariant Chain(p.list, p, done, menu) && Chain(menu, p, todo, null) && Parted(kids, done, todo)
      invariant Final(plan, Elems(kids)) && Fit(plan, done) && LowerFit(plan, todo)
      invariant Settled(plan, done, Next(todo, after)) && Settled(plan, todo, after)
      decreases Count(todo)
    {
      PartedFacts(kids, done, todo);
      ElemsAllocated(done);
      ElemsAllocated(kids);
      FinalOfOne(plan, Elems(kids), menu);
      ghost var k, r := FlattenOne(p, menu, todo, plan, after);
      ChainExtend(p.list, p, done, menu, k);
      PartedMoves(kids, done, todo, k, r);
      ShapeMoves(plan, done, menu, k, r, after);
      done, todo := Join(done, Cons(menu, k, Nil)), r;
      menu := menu.next;
    }
    PartedFacts(kids, done, todo);
    kids' := done;
  }

  lemma FinalOfOne(plan: Plan, s: set<Entry>, m: Entry)
    requires Final(plan, s) && m in s
    ensures Final(plan, {m})
  {
  }

  lemma FitNothing(plan: Plan, after: Option<Entry>)
    ensures Fit(plan, Nil) && LowerFit(plan, Nil) && Settled(plan, Nil, after)
  {
  }

  /** The shape of what has been done grows by one sibling. */
  lemma ShapeMoves(plan: Plan, done: Forest, m: Entry, k: Forest, r: Forest, after: Option<Entry>)
    requires Settled(plan, done, Some(m))
    requires Text(plan, m) ==> Closed(plan, m, Next(r, after))
    requires Settled(plan, k, Next(r, after))
    ensures var done' := Join(done, Cons(m, k, Nil));
      && Settled(plan, done', Next(r, after))
      && (Fit(plan, done) && Fit(plan, k) && (k == Nil || Text(plan, m)) ==> Fit(plan, done'))
      && (LowerFit(plan, done) && Fit(plan, k) ==> LowerFit(plan, done'))
  {
    hide Closed, Text;
    SettledJoin(plan, done, Cons(m, k, Nil), Next(r, after));
    FitJoin(plan, done, Cons(m, k, Nil));
  }

  method FlattenOne(p: Entry, menu: Entry, ghost todo: Forest, ghost plan: Plan, ghost after: Option<Entry>)
    returns (ghost k: Forest, ghost r: Forest)
    requires Chain(menu, p, todo, null) && Distinct(todo) && p !in Elems(todo)
    requires Final(plan, {menu}) && LowerFit(plan, todo) && Settled(plan, todo, after)
    modifies Elems(todo)`next, Elems(todo)`list, Elems(todo)`parent
    ensures menu.parent == p && Chain(menu.list, menu, k, null) && Chain(menu.next, p, r, null)
    ensures Distinct(Cons(menu, k, r)) && Count(r) < Count(todo)
    ensures Preorder(k) + Preorder(r) == Preorder(todo.kids) + Preorder(todo.rest)
    ensures Elems(k) + Elems(r) == Elems(todo.kids) + Elems(todo.rest)
    ensures Fit(plan, k) && (k == Nil || Text(plan, menu)) && LowerFit(plan, r)
    ensures (Text(plan, menu) ==> Closed(plan, menu, Next(r, after)))
    ensures Settled(plan, k, Next(r, after)) && Settled(plan, r, after)
  {
    hide Closed, Fit, LowerFit, Settled;
    k, r := todo.kids, todo.rest;
    ShapeParts(plan, todo, after);
    if menu.list != null && !HasText(menu) {
      SpliceShape(plan, k, r, after);
      Splice(p, menu, k, r);
      JoinFacts(k, r);
      assert [] + Preorder(Join(k, r)) == Preorder(Join(k, r));
      k, r := Nil, Join(k, r);
    }
  }

  lemma ShapeParts(plan: Plan, todo: Forest, after: Option<Entry>)
    requires todo.Cons? && LowerFit(plan, todo) && Settled(plan, todo, after)
    ensures Fit(plan, todo.kids) && LowerFit(plan, todo.rest) && Fit(plan, Nil)
    ensures Text(plan, todo.head) ==> Closed(plan, todo.head, Next(todo.rest, after))
    ensures forall x :: Settled(plan, Nil, x)
    ensures Settled(plan, todo.kids, Next(todo.rest, after)) && Settled(plan, todo.rest, after)
  {
  }

  lemma SpliceShape(plan: Plan, k: Forest, r: Forest, after: Option<Entry>)
    requires Fit(plan, k) && LowerFit(plan, r) && Settled(plan, k, Next(r, after)) && Settled(plan, r, after)
    ensures LowerFit(plan, Join(k, r)) && Settled(plan, Join(k, r), after)
  {
    FitIsLowerFit(plan, k);
    FitJoin(plan, k, r);
    SettledJoin(plan, k, r, after);
  }

  // ----- the recursion -----

  /** Finalizes the children one after the other; a child may take its later siblings with it. */
  method FinalizeChildren(p: Entry, ghost kids: Forest, ghost plan: Plan) returns (ghost kids': Forest)
    requires Chain(p.list, p, kids, null) && Distinct(kids) && p !in Elems(kids)
    requires Begun(plan, kids) && Siblings(plan, Some(p), kids)
    modifies Elems(kids)
    ensures Chain(p.list, p, kids', null) && Distinct(kids')
    ensures Preorder(kids') == Preorder(kids) && Elems(kids') == Elems(kids)
    ensures Final(plan, Elems(kids')) && LowerFit(plan, kids') && Settled(plan, kids', None)
    decreases Count(kids), 2
  {
    hide Settled, Fit, LowerFit, Final, Begun, Siblings, Closed, Parted, Preorder, Distinct, Join, Suffix;
    FitNothing(plan, Next(kids, None));
    FinalOfNone(plan);
    PartedStarts(kids);
    var menu := p.list;
    ghost var done, todo := Nil, kids;
    while menu != null
      invariant Chain(p.list, p, done, menu) && Chain(menu, p, todo, null) && Parted(kids, done, todo)
      invariant Count(todo) <= Count(kids)
      invariant Final(plan, Elems(done)) && Begun(plan, todo) && Siblings(plan, Some(p), todo)
      invariant LowerFit(plan, done) && Settled(plan, done, Next(todo, None))
      decreases Count(todo)
    {
      PartedFacts(kids, done, todo);
      ElemsAllocated(done);
      ghost var k, r := FinalizeFirst(p, menu, todo, plan, Some(p));
      ChainExtend(p.list, p, done, menu, k);
      PartedMoves(kids, done, todo, k, r);
      ShapeMoves(plan, done, menu, k, r, None);
      FinalMoves(plan, done, menu, k);
      RestOfSiblings(plan, Some(p), r, todo);
      done, todo := Join(done, Cons(menu, k, Nil)), r;
      menu := menu.next;
    }
    PartedFacts(kids, done, todo);
    kids' := done;
  }

  lemma RestOfSiblings(plan: Plan, over: Option<Entry>, r: Forest, todo: Forest)
    requires todo.Cons? && Suffix(r, todo.rest) && Siblings(plan, over, todo)
    ensures Siblings(plan, over, r)
  {
    SiblingsOfSuffix(plan, over, r, todo.rest);
  }

  lemma FinalOfNone(plan: Plan)
    ensures Final(plan, {})
  {
  }

  lemma FinalMoves(plan: Plan, done: Forest, m: Entry, k: Forest)
    requires Final(plan, Elems(done)) && Final(plan, {m} + Elems(k))
    ensures Final(plan, Elems(Join(done, Cons(m, k, Nil))))
  {
    JoinSets(done, Cons(m, k, Nil));
  }

  /** One step along the siblings; the conditions of the siblings themselves stay as they are. */
  method FinalizeFirst(ghost up: Entry?, menu: Entry, ghost todo: Forest, ghost plan: Plan, ghost over: Option<Entry>)
    returns (ghost k: Forest, ghost r: Forest)
    requires Chain(menu, up, todo, null) && Distinct(todo)
    requires Begun(plan, todo) && Siblings(plan, over, todo) && Outside(over, todo)
    modifies Elems(todo)
    ensures menu.parent == up && Chain(menu.list, menu, k, null) && Chain(menu.next, up, r, null)
    ensures Distinct(Cons(menu, k, r)) && Count(r) < Count(todo) && Suffix(r, todo.rest)
    ensures Preorder(k) + Preorder(r) == Preorder(todo.kids) + Preorder(todo.rest)
    ensures Elems(k) + Elems(r) == Elems(todo.kids) + Elems(todo.rest)
    ensures Final(plan, {menu} + Elems(k)) && Begun(plan, r)
    ensures Fit(plan, k) && Settled(plan, k, Next(r, None)) && Closed(plan, menu, Next(r, None))
    decreases Count(todo), 0
  {
    hide Settled, Fit, Final, Begun, Siblings, Closed;
    k, r := Finalize(menu, todo.kids, todo.rest, plan, over);
    SameReading(menu, todo.kids, todo.rest, k, r);
    SuffixFacts(r, todo.rest);
  }

  lemma ReadingElems(k: Forest, r: Forest, s: seq<Entry>)
    requires s == Preorder(k) + Preorder(r)
    ensures SetOf(s) == Elems(k) + Elems(r)
    ensures |s| == Count(k) + Count(r)
  {
    SetOfTwo(Preorder(k), Preorder(r));
    ElemsAreSetOfPreorder(k);
    ElemsAreSetOfPreorder(r);
    ElemsArePreorder(k);
    ElemsArePreorder(r);
  }

  lemma SameElems(k: Forest, r: Forest, k': Forest, r': Forest, s: seq<Entry>)
    requires s == Preorder(k) + Preorder(r) && s == Preorder(k') + Preorder(r')
    ensures Elems(k') + Elems(r') == Elems(k) + Elems(r)
    ensures Count(k') + Count(r') == Count(k) + Count(r)
  {
    ReadingElems(k, r, s);
    ReadingElems(k', r', s);
  }

  lemma ReadingDistinct(m: Entry, k: Forest, r: Forest, s: seq<Entry>)
    requires s == Preorder(k) + Preorder(r)
    ensures Distinct(Cons(m, k, r)) <==> NoRepeats([m] + s)
  {
    hide Distinct, NoRepeats;
    DistinctIffNoRepeats(Cons(m, k, r));
    assert Preorder(Cons(m, k, r)) == [m] + Preorder(k) + Preorder(r) == [m] + s;
  }

  /** Two readings of the same entries: same elements, nothing lost, nothing twice. */
  lemma SameReading(m: Entry, k: Forest, r: Forest, k': Forest, r': Forest)
    requires Preorder(k') + Preorder(r') == Preorder(k) + Preorder(r)
    requires Distinct(Cons(m, k, r))
    ensures Elems(k') + Elems(r') == Elems(k) + Elems(r)
    ensures Distinct(Cons(m, k', r'))
    ensures Count(r') <= Count(k) + Count(r)
  {
    var s := Preorder(k) + Preorder(r);
    SameElems(k, r, k', r', s);
    ReadingDistinct(m, k, r, s);
    ReadingDistinct(m, k', r', s);
  }

  function Maybe(m: Entry?): set<Entry> {
    if m == null then {} else {m}
  }

  /** The siblings taken so far: init, then last with its children, up to menu. */
  ghost predicate Taken(p: Entry, first: Entry?, last: Entry?, menu: Entry?, init: Forest, tail: Forest)
    reads Elems(init)`next, Elems(init)`parent, Elems(init)`list
    reads Elems(tail)`next, Elems(tail)`parent, Elems(tail)`list
    reads Maybe(last)`next, Maybe(last)`parent, Maybe(last)`list
  {
    if last == null then init == Nil && tail == Nil && menu == first
    else
      && Chain(first, p, init, last) && last.parent == p
      && Chain(last.list, last, tail, null) && last.next == menu
  }

  function TakenForest(last: Entry?, init: Forest, tail: Forest): Forest {
    if last == null then Nil else Join(init, Cons(last, tail, Nil))
  }

  /** done and todo are the siblings of rest in two parts, with the same reading order. */
  ghost predicate Parts(done: Forest, todo: Forest, rest: Forest) {
    && Cut(done, todo) && Suffix(todo, rest)
    && Preorder(done) + Preorder(todo) == Preorder(rest)
    && Elems(done) + Elems(todo) == Elems(rest)
    && Tops(done) <= Tops(rest)
  }

  /** The loop of menu_finalize on its way: done has been taken, todo is still ahead. */
  ghost predicate Adopting(p: Entry, last: Entry?, menu: Entry?, init: Forest, tail: Forest,
                           done: Forest, todo: Forest, rest: Forest)
    reads {p}`next, {p}`parent
    reads Elems(init)`next, Elems(init)`parent, Elems(init)`list
    reads Elems(tail)`next, Elems(tail)`parent, Elems(tail)`list
    reads Elems(todo)`next, Elems(todo)`parent, Elems(todo)`list
    reads Maybe(last)`next, Maybe(last)`parent, Maybe(last)`list
  {
    && done == TakenForest(last, init, tail) && (last != null ==> last in Elems(rest))
    && Taken(p, p.next, last, menu, init, tail)
    && Chain(menu, p.parent, todo, null) && Parts(done, todo, rest)
  }

  lemma AdoptingStarts(p: Entry, rest: Forest)
    requires Chain(p.next, p.parent, rest, null) && Distinct(rest)
    ensures Adopting(p, null, p.next, Nil, Nil, Nil, rest, rest)
  {
  }

  lemma AdoptingHead(p: Entry, last: Entry?, menu: Entry?, init: Forest, tail: Forest,
                     done: Forest, todo: Forest, rest: Forest)
    requires Adopting(p, last, menu, init, tail, done, todo, rest)
    ensures menu == null <==> todo == Nil
    ensures todo.Cons? ==> todo.head == menu
    ensures last != null ==> last in Elems(rest)
  {
  }

  /** What has been adopted has its final conditions and shape; what is ahead is as it was. */
  ghost predicate Adopted(plan: Plan, p: Entry, over: Option<Entry>, done: Forest, todo: Forest)
    requires p.sym.Some?
    reads {p}`dep, {p}`prompt, Elems(done)`dep, Elems(done)`prompt
    reads Elems(todo)`dep, Elems(todo)`prompt, Tops(todo)`dep, Tops(todo)`prompt
  {
    && Final(plan, {p}) && Final(plan, Elems(done)) && Begun(plan, todo)
    && Siblings(plan, over, todo) && Outside(over, todo)
    && LowerFit(plan, done) && Settled(plan, done, Next(todo, None))
    && forall x :: x in Tops(done) ==> AdoptsBy(plan, p, x)
  }

  lemma TestReadsPlan(plan: Plan, p: Entry, m: Entry)
    requires p.sym.Some? && Final(plan, {p}) && Final(plan, {m})
    ensures ShouldAdopt(p, m) <==> AdoptsBy(plan, p, m)
  {
    hide Adopts;
    assert Of(plan, p).final == DataOf(p) && Of(plan, m).final == DataOf(m);
  }

  lemma FirstIsFinal(plan: Plan, todo: Forest)
    requires todo.Cons? && Begun(plan, todo)
    ensures Final(plan, {todo.head})
  {
  }

  lemma NothingAdopted(plan: Plan, p: Entry, over: Option<Entry>, rest: Forest)
    requires p.sym.Some? && Final(plan, {p}) && Begun(plan, rest) && Siblings(plan, over, rest) && Outside(over, rest)
    ensures Adopted(plan, p, over, Nil, rest)
  {
  }

  /** The adoption loop of menu_finalize: takes later siblings for as long as the test passes. */
  method AdoptWhile(p: Entry, ghost rest: Forest, ghost plan: Plan, ghost over: Option<Entry>)
    returns (last: Entry?, menu: Entry?, ghost init: Forest, ghost tail: Forest, ghost done: Forest, ghost todo: Forest)
    requires p.sym.Some? && p !in Elems(rest)
    requires Chain(p.next, p.parent, rest, null) && Distinct(rest)
    requires Final(plan, {p}) && Begun(plan, rest) && Siblings(plan, over, rest) && Outside(over, rest)
    modifies Elems(rest)
    ensures p.list == old(p.list) && p.next == old(p.next) && p.parent == old(p.parent)
    ensures Adopting(p, last, menu, init, tail, done, todo, rest) && Adopted(plan, p, over, done, todo)
    ensures menu == null || !AdoptsBy(plan, p, menu)
    decreases Count(rest), 3
  {
    menu, last := p.next, null;
    init, tail, done, todo := Nil, Nil, Nil, rest;
    AdoptingStarts(p, rest);
    NothingAdopted(plan, p, over, rest);
    hide Adopting, Adopted, Chain, Parts, Distinct, Tops, Join, Preorder, Elems, ShouldAdopt, AdoptsBy;
    AdoptionTest(p, last, menu, init, tail, done, todo, rest, plan, over);
    while menu != null && ShouldAdopt(p, menu)
      invariant p.list == old(p.list) && p.next == old(p.next) && p.parent == old(p.parent)
      invariant Adopting(p, last, menu, init, tail, done, todo, rest) && Count(todo) <= Count(rest)
      invariant Adopted(plan, p, over, done, todo)
      invariant menu != null ==> (ShouldAdopt(p, menu) <==> AdoptsBy(plan, p, menu))
      decreases Count(todo)
    {
      ghost var k, r := AdoptNext(p, last, menu, init, tail, done, todo, rest, plan, over);
      init, tail := done, k;
      done, todo := Join(done, Cons(menu, k, Nil)), r;
      last := menu;
      menu := menu.next;
      AdoptionTest(p, last, menu, init, tail, done, todo, rest, plan, over);
    }
  }

  /** The test at the head of the loop. */
  lemma AdoptionTest(p: Entry, last: Entry?, menu: Entry?, init: Forest, tail: Forest,
                     done: Forest, todo: Forest, rest: Forest, plan: Plan, over: Option<Entry>)
    requires p.sym.Some? && Adopted(plan, p, over, done, todo)
    requires Adopting(p, last, menu, init, tail, done, todo, rest)
    ensures menu != null ==> (ShouldAdopt(p, menu) <==> AdoptsBy(plan, p, menu))
  {
    hide ShouldAdopt, AdoptsBy, Settled, LowerFit, Siblings;
    AdoptingHead(p, last, menu, init, tail, done, todo, rest);
    if menu != null {
      FirstIsFinal(plan, todo);
      TestReadsPlan(plan, p, menu);
    }
  }

  /** The later siblings of an entry without children become its children as far as the test passes. */
  method AdoptSiblings(p: Entry, ghost rest: Forest, ghost plan: Plan, ghost over: Option<Entry>)
    returns (ghost kids: Forest, ghost left: Forest)
    requires p.sym.Some? && p.list == null
    requires Chain(p.next, p.parent, rest, null) && Distinct(Cons(p, Nil, rest))
    requires Final(plan, {p}) && Begun(plan, rest) && Siblings(plan, over, rest) && Outside(over, rest)
    modifies {p}`list, {p}`next, Elems(rest)
    ensures Chain(p.list, p, kids, null) && Chain(p.next, p.parent, left, null)
    ensures Preorder(kids) + Preorder(left) == Preorder(rest)
    ensures Suffix(left, rest)
    ensures left == Nil || !AdoptsBy(plan, p, left.head)
    ensures Adopted(plan, p, over, kids, left)
    decreases Count(rest), 4
  {
    hide Adopting, Adopted, Chain, Parts, Tops, Join, Preorder, ShouldAdopt, AdoptsBy;
    var last, menu;
    ghost var init, tail;
    last, menu, init, tail, kids, left := AdoptWhile(p, rest, plan, over);
    AdoptingHead(p, last, menu, init, tail, kids, left, rest);
    ElemsAllocated(kids);
    ElemsAllocated(left);
    TopsAreElems(left);
    EndAdoption(p, last, menu, init, tail, kids, left, rest);
  }

  method EndAdoption(p: Entry, last: Entry?, menu: Entry?, ghost init: Forest, ghost tail: Forest,
                     ghost done: Forest, ghost todo: Forest, ghost rest: Forest)
    requires Adopting(p, last, menu, init, tail, done, todo, rest) && p.list == null && p !in Elems(rest)
    modifies {p}`list, {p}`next, Maybe(last)`next
    ensures Chain(p.list, p, done, null) && Chain(p.next, p.parent, todo, null)
    ensures Preorder(done) + Preorder(todo) == Preorder(rest) && Suffix(todo, rest)
  {
    if last != null {
      TakeSiblings(p, last, init, tail, todo);
    }
  }

  /** One round of the adoption loop: the pointers. */
  method AdoptNext(p: Entry, ghost last: Entry?, menu: Entry, ghost init: Forest, ghost tail: Forest,
                   ghost done: Forest, ghost todo: Forest, ghost rest: Forest,
                   ghost plan: Plan, ghost over: Option<Entry>)
    returns (ghost k: Forest, ghost r: Forest)
    requires Adopting(p, last, menu, init, tail, done, todo, rest)
    requires p !in Elems(rest) && Distinct(rest) && p.sym.Some?
    requires Adopted(plan, p, over, done, todo) && AdoptsBy(plan, p, menu)
    modifies Elems(rest)
    ensures p.list == old(p.list) && p.next == old(p.next) && p.parent == old(p.parent)
    ensures var done' := Join(done, Cons(menu, k, Nil));
      && Adopting(p, menu, menu.next, done, k, done', r, rest) && Count(r) < Count(todo)
      && Adopted(plan, p, over, done', r)
    decreases Count(todo), 2, 0
  {
    PartsFacts(done, todo, rest);
    AdoptedParts(plan, p, over, done, todo);
    hide Preorder, Suffix, Distinct, Count, Parts, Adopted, Final, Begun, Siblings, Fit, LowerFit, Settled, Closed,
      AdoptsBy, Join, Outside, Next;
    if last != null {
      ChainExtend(p.next, p, init, last, tail);
    }
    ElemsAllocated(done);
    k, r := AdoptFirst(p, menu, todo, plan, over);
    PartsMove(done, todo, k, r, rest);
    AdoptedMoves(plan, p, over, done, todo, k, r);
  }

  lemma AdoptedParts(plan: Plan, p: Entry, over: Option<Entry>, done: Forest, todo: Forest)
    requires p.sym.Some? && Adopted(plan, p, over, done, todo)
    ensures Final(plan, {p}) && Final(plan, Elems(done)) && Begun(plan, todo)
    ensures Siblings(plan, over, todo) && Outside(over, todo)
    ensures LowerFit(plan, done) && Settled(plan, done, Next(todo, None))
    ensures forall x :: x in Tops(done) ==> AdoptsBy(plan, p, x)
  {
  }

  lemma AdoptedMoves(plan: Plan, p: Entry, over: Option<Entry>, done: Forest, todo: Forest, k: Forest, r: Forest)
    requires p.sym.Some? && todo.Cons? && AdoptsBy(plan, p, todo.head)
    requires Final(plan, {p}) && Final(plan, Elems(done)) && Final(plan, {todo.head} + Elems(k)) && Begun(plan, r)
    requires Siblings(plan, over, todo) && Outside(over, todo) && Suffix(r, todo.rest)
    requires LowerFit(plan, done) && Settled(plan, done, Next(todo, None))
    requires forall x :: x in Tops(done) ==> AdoptsBy(plan, p, x)
    requires Fit(plan, k) && Settled(plan, k, Next(r, None)) && Closed(plan, todo.head, Next(r, None))
    ensures Adopted(plan, p, over, Join(done, Cons(todo.head, k, Nil)), r)
  {
    hide Final, Begun, Siblings, Fit, LowerFit, Settled, Closed, AdoptsBy;
    RestOfSiblings(plan, over, r, todo);
    SuffixFacts(r, todo.rest);
    ShapeMoves(plan, done, todo.head, k, r, None);
    FinalMoves(plan, done, todo.head, k);
    JoinSets(done, Cons(todo.head, k, Nil));
  }

  lemma PartsFacts(done: Forest, todo: Forest, rest: Forest)
    requires Parts(done, todo, rest) && Distinct(rest)
    ensures Distinct(todo) && Elems(todo) <= Elems(rest) && Elems(done) !! Elems(todo)
  {
    SuffixFacts(todo, rest);
  }

  lemma PartsMove(done: Forest, todo: Forest, k: Forest, r: Forest, rest: Forest)
    requires todo.Cons? && Parts(done, todo, rest)
    requires Distinct(Cons(todo.head, k, r)) && Suffix(r, todo.rest)
    requires Preorder(k) + Preorder(r) == Preorder(todo.kids) + Preorder(todo.rest)
    requires Elems(k) + Elems(r) == Elems(todo.kids) + Elems(todo.rest)
    ensures Parts(Join(done, Cons(todo.head, k, Nil)), r, rest)
  {
    SuffixFacts(todo, rest);
    SuffixTransitive(todo.rest, todo, rest);
    SuffixTransitive(r, todo.rest, rest);
    PreorderMoves(done, todo, k, r);
    CutMoves(done, todo, k, r);
  }

  /** The siblings up to last move from behind p to below it. */
  method TakeSiblings(p: Entry, last: Entry, ghost init: Forest, ghost tail: Forest, ghost todo: Forest)
    requires Chain(p.next, p, init, last) && last.parent == p && Chain(last.list, last, tail, null)
    requires Chain(last.next, p.parent, todo, null)
    requires var done := Join(init, Cons(last, tail, Nil)); Cut(done, todo) && p !in Elems(done) && p !in Elems(todo)
    modifies {p}`list, {p}`next, last`next
    ensures Chain(p.list, p, Join(init, Cons(last, tail, Nil)), null) && Chain(p.next, p.parent, todo, null)
  {
    JoinSets(init, Cons(last, tail, Nil));
    JoinDistinct(init, Cons(last, tail, Nil));
    p.list := p.next;
    p.next := last.next;
    last.next := null;
    ChainExtend(p.list, p, init, last, tail);
  }

  method AdoptFirst(p: Entry, menu: Entry, ghost todo: Forest, ghost plan: Plan, ghost over: Option<Entry>)
    returns (ghost k: Forest, ghost r: Forest)
    requires Chain(menu, p.parent, todo, null) && Distinct(todo) && p !in Elems(todo)
    requires Begun(plan, todo) && Siblings(plan, over, todo) && Outside(over, todo)
    modifies Elems(todo)
    ensures menu.parent == p && Chain(menu.list, menu, k, null) && Chain(menu.next, p.parent, r, null)
    ensures Distinct(Cons(menu, k, r)) && Count(r) < Count(todo) && Suffix(r, todo.rest)
    ensures Preorder(k) + Preorder(r) == Preorder(todo.kids) + Preorder(todo.rest)
    ensures Elems(k) + Elems(r) == Elems(todo.kids) + Elems(todo.rest)
    ensures Final(plan, {menu} + Elems(k)) && Begun(plan, r)
    ensures Fit(plan, k) && Settled(plan, k, Next(r, None)) && Closed(plan, menu, Next(r, None))
    decreases Count(todo), 1
  {
    hide Settled, Fit, Siblings, Closed, Final, Begun, Preorder, Suffix;
    k, r := FinalizeFirst(p.parent, menu, todo, plan, over);
    ElemsAllocated(k);
    ElemsAllocated(r);
    TopsAreElems(r);
    SetParent(p, menu, k, r, p.parent);
  }

  /** menu_finalize. The reading order of the entries is what it was, and next, list and parent
      describe a forest again. Everything below p has its final condition, and p has taken the later siblings
      it could adopt, if it had no children; no entry without a prompt text has children, and no other one
      has let a sibling pass. */
  method Finalize(p: Entry, ghost kids: Forest, ghost rest: Forest, ghost plan: Plan, ghost over: Option<Entry>)
    returns (ghost kids': Forest, ghost rest': Forest)
    requires Chain(p.list, p, kids, null) && Chain(p.next, p.parent, rest, null)
    requires Distinct(Cons(p, kids, rest))
    requires var f := Cons(p, kids, rest); Begun(plan, f) && Siblings(plan, over, f) && Outside(over, f)
    modifies {p} + Elems(kids) + Elems(rest)
    ensures p.parent == old(p.parent)
    ensures Chain(p.list, p, kids', null) && Chain(p.next, p.parent, rest', null)
    ensures Preorder(kids') + Preorder(rest') == Preorder(kids) + Preorder(rest)
    ensures Suffix(rest', rest)
    ensures kids != Nil || p.sym.None? ==> rest' == rest
    ensures Final(plan, {p} + Elems(kids')) && Begun(plan, rest')
    ensures Fit(plan, kids') && Settled(plan, kids', Next(rest', None)) && Closed(plan, p, Next(rest', None))
    decreases Count(kids) + Count(rest), 6
  {
    hide Preorder, Chain, Siblings, Closed, Settled, Fit, LowerFit, Final, Begun;
    ghost var k: Forest;
    k, rest' := FinalizeOrAdopt(p, kids, rest, plan, over);
    SameReading(p, kids, rest, k, rest');
    ElemsAllocated(k);
    ElemsAllocated(rest');
    TopsAreElems(rest');
    FinalOfTwo(plan, p, Elems(k));
    kids' := Flatten(p, k, plan, Next(rest', None));
  }

  lemma FinalOfTwo(plan: Plan, m: Entry, s: set<Entry>)
    ensures Final(plan, {m} + s) <==> Final(plan, {m}) && Final(plan, s)
  {
  }

  /** The two branches of menu_finalize: with children, or possibly in want of them. */
  method FinalizeOrAdopt(p: Entry, ghost kids: Forest, ghost rest: Forest, ghost plan: Plan, ghost over: Option<Entry>)
    returns (ghost kids': Forest, ghost rest': Forest)
    requires Chain(p.list, p, kids, null) && Chain(p.next, p.parent, rest, null)
    requires Distinct(Cons(p, kids, rest))
    requires var f := Cons(p, kids, rest); Begun(plan, f) && Siblings(plan, over, f) && Outside(over, f)
    modifies {p} + Elems(kids) + Elems(rest)
    ensures p.parent == old(p.parent)
    ensures Chain(p.list, p, kids', null) && Chain(p.next, p.parent, rest', null)
    ensures Preorder(kids') + Preorder(rest') == Preorder(kids) + Preorder(rest)
    ensures Suffix(rest', rest)
    ensures kids != Nil || p.sym.None? ==> rest' == rest
    ensures Final(plan, {p} + Elems(kids')) && Begun(plan, rest')
    ensures LowerFit(plan, kids') && Settled(plan, kids', Next(rest', None)) && Closed(plan, p, Next(rest', None))
    decreases Count(kids) + Count(rest), 5
  {
    TopsAreElems(rest);
    ElemsAllocated(rest);
    BegunParts(plan, p, kids, rest);
    SiblingsParts(plan, over, p, kids, rest);
    FitNothing(plan, Next(rest, None));
    assert p.list == null <==> kids == Nil;
    hide Adopts, Begun, Siblings, Planned, LowerFit, Settled, Fit, AdoptsBy, Raw, Final, Closed, Suffix, Preorder,
      Adopted, Chain, Next, Outside;
    SuffixOfItself(rest);
    kids', rest' := kids, rest;
    if p.list != null {
      kids' := FinalizeBelow(p, kids, plan);
      SettledInside(plan, over, p, kids, kids', rest);
      ClosedUnlessLeaf(plan, p, Next(rest, None));
    } else if p.sym.Some? {
      kids', rest' := AdoptSiblings(p, rest, plan, over);
      AdoptedParts(plan, p, over, kids', rest');
      ClosedIfNot(plan, p, rest');
    } else {
      ClosedUnlessLeaf(plan, p, Next(rest, None));
    }
    FinalOfTwo(plan, p, Elems(kids'));
  }

  lemma SuffixOfItself(f: Forest)
    ensures Suffix(f, f) && Preorder(Nil) + Preorder(f) == Preorder(f)
  {
  }

  lemma ClosedUnlessLeaf(plan: Plan, p: Entry, next: Option<Entry>)
    requires p.sym.None? || !Of(plan, p).leaf
    ensures Closed(plan, p, next)
  {
  }

  lemma ClosedIfNot(plan: Plan, p: Entry, left: Forest)
    requires p.sym.Some? && (left == Nil || !AdoptsBy(plan, p, left.head))
    ensures Closed(plan, p, Next(left, None))
  {
    hide AdoptsBy;
  }

  lemma SiblingsParts(plan: Plan, over: Option<Entry>, p: Entry, kids: Forest, rest: Forest)
    requires Siblings(plan, over, Cons(p, kids, rest))
    ensures Of(plan, p).over == over && (Of(plan, p).leaf <==> kids == Nil) && Planned(plan, p, kids)
    ensures Siblings(plan, over, rest)
  {
  }

  /** The entries read below p have other parents than the siblings of p. */
  lemma SettledInside(plan: Plan, over: Option<Entry>, p: Entry, kids: Forest, kids': Forest, rest: Forest)
    requires Planned(plan, p, kids) && Elems(kids') == Elems(kids) && Outside(over, Cons(p, kids, rest))
    requires Siblings(plan, over, rest) && Settled(plan, kids', None)
    ensures Settled(plan, kids', Next(rest, None))
  {
    hide Settled, Planned;
    forall m | m in Elems(kids') ensures Of(plan, m).over.Some? && Of(plan, m).over != over {
      PlannedOver(plan, p, kids, m);
    }
    SettledBefore(plan, kids', Next(rest, None));
  }

  method FinalizeBelow(p: Entry, ghost kids: Forest, ghost plan: Plan) returns (ghost kids': Forest)
    requires Chain(p.list, p, kids, null) && Distinct(kids) && p !in Elems(kids)
    requires Final(plan, {p}) && Raw(plan, Elems(kids)) && Planned(plan, p, kids)
    modifies Elems(kids)
    ensures Chain(p.list, p, kids', null) && Distinct(kids')
    ensures Preorder(kids') == Preorder(kids) && Elems(kids') == Elems(kids)
    ensures Final(plan, Elems(kids')) && LowerFit(plan, kids') && Settled(plan, kids', None)
    decreases Count(kids), 3
  {
    TopsAreElems(kids);
    ElemsAllocated(kids);
    hide LowerFit, Settled, Narrowed, Planned, ParentDep;
    ghost var tops := Tops(kids);
    ghost var up := ParentDep(p);
    NarrowChildren(p, kids, tops);
    PassesOn(plan, p);
    PlannedTops(plan, p, kids);
    PlannedAreSiblings(plan, p, kids);
    kids' := FinalizeChildren(p, kids, plan);
  }

  lemma PassesOn(plan: Plan, p: Entry)
    requires Final(plan, {p})
    ensures Up(plan, p) == ParentDep(p)
  {
    assert Of(plan, p).final == DataOf(p);
  }

  lemma {:induction false} PlannedTops(plan: Plan, p: Entry, f: Forest)
    requires Planned(plan, p, f)
    ensures forall m :: m in Tops(f) ==> Follows(plan, p, m)
  {
    hide Follows;
    if f.Cons? { PlannedTops(plan, p, f.rest); }
  }

  /** What is known of the entries below the root before: their plan, as they were read. */
  ghost function PlanOf(root: Entry, f: Forest): Plan
    reads {root}`dep, {root}`prompt, Elems(f)`dep, Elems(f)`prompt
  {
    FateOf(root, DataOf(root), f) + map[root := Fate(DataOf(root), DataOf(root), None, f == Nil)]
  }

  lemma PlanIsPlanned(root: Entry, f: Forest)
    requires Distinct(Cons(root, f, Nil))
    ensures var plan := PlanOf(root, f);
      && Planned(plan, root, f) && Siblings(plan, None, Cons(root, f, Nil)) && Begun(plan, Cons(root, f, Nil))
      && Raw(plan, Elems(f)) && Of(plan, root).final == DataOf(root)
  {
    hide Narrowed, FateOf;
    var plan := PlanOf(root, f);
    FateIsPlanned(plan, root, DataOf(root), f);
    BegunParts(plan, root, f, Nil);
  }

  lemma FollowParents(plan: Plan, root: Entry, f: Forest)
    requires Planned(plan, root, f) && Chain(root.list, root, f, null)
    ensures forall m :: m in Elems(f) ==>
      m.parent != null && m.parent in {root} + Elems(f) && Follows(plan, m.parent, m)
  {
    hide Follows, Planned, Chain;
    forall m | m in Elems(f) ensures m.parent != null && m.parent in {root} + Elems(f) && Follows(plan, m.parent, m) {
      PlannedFollowsParent(plan, root.list, root, f, m);
    }
  }

  /** With the final conditions in place, every entry is narrowed by what its parent passes on. */
  lemma FinalFollows(plan: Plan, root: Entry, f: Forest, parents: map<Entry, Entry?>)
    requires Planned(plan, root, f) && Final(plan, {root} + Elems(f)) && parents.Keys == Elems(f)
    requires forall m :: m in Elems(f) ==>
      var u := parents[m]; u != null && u in {root} + Elems(f) && Follows(plan, u, m)
    ensures forall m :: m in Elems(f) ==>
      parents[m] != null && DataOf(m) == Narrowed(m.sym, ParentDep(parents[m]), Of(plan, m).raw)
    ensures forall m, v: Valuation :: m in Elems(f) && Legal(v) && OptNoNegatedTest(ParentDep(root)) ==>
      var u := parents[m];
      u != null && IsNarrowed(m.sym, PassedOnValue(u.sym, u.isChoice, DataOf(u), v), Of(plan, m).raw, DataOf(m), v)
  {
    hide Planned, Narrowed, ParentDep, IsNarrowed, Legal, PassedOnValue, NoNegatedTest, Up;
    forall u | u in {root} + Elems(f) ensures Up(plan, u) == ParentDep(u) { PassesOn(plan, u); }
    forall m, v: Valuation | m in Elems(f) && Legal(v) && OptNoNegatedTest(ParentDep(root))
      ensures var u := parents[m];
        IsNarrowed(m.sym, PassedOnValue(u.sym, u.isChoice, DataOf(u), v), Of(plan, m).raw, DataOf(m), v)
    {
      var u := parents[m];
      PlannedHasNoNegatedTest(plan, root, f, u);
      NarrowedIsWorth(m.sym, ParentDep(u), Of(plan, m).raw, v);
      ParentDepIsWorth(u, v);
    }
  }

  lemma RootIsFinal(plan: Plan, root: Entry)
    requires Final(plan, {root})
    ensures Of(plan, root).final == DataOf(root)
  {
  }

  lemma SameForest(tree: Forest, rest: Forest, f: Forest)
    requires Preorder(tree) + Preorder(rest) == Preorder(f) + Preorder(Nil) && rest == Nil
    ensures Preorder(tree) == Preorder(f) && Elems(tree) == Elems(f)
  {
    assert Preorder(tree) + [] == Preorder(tree) && Preorder(f) + [] == Preorder(f);
    ElemsAreSetOfPreorder(tree);
    ElemsAreSetOfPreorder(f);
  }

  /** menu_finalize(&rootmenu) followed by the walk of conf_write: the entries are visited in the
      order in which they were read, each of them once, and each has its final condition. */
  method FinalizeAndWalk(root: Entry, ghost f: Forest, ghost all: set<Entry>)
    returns (visited: seq<Entry>, ghost tree: Forest)
    requires all == Elems(f)
    requires root.parent == null && root.next == null && root.sym.None?
    requires Chain(root.list, root, f, null) && Distinct(Cons(root, f, Nil))
    modifies {root} + Elems(f)
    ensures visited == Preorder(f) && NoRepeats(visited)
    ensures root.parent == null && root.next == null && DataOf(root) == old(DataOf(root))
    ensures Chain(root.list, root, tree, null) && Preorder(tree) == Preorder(f)
    ensures forall m :: m in all ==>
      old(m.parent) != null && DataOf(m) == Narrowed(m.sym, ParentDep(old(m.parent)), old(DataOf(m)))
    ensures forall m, v: Valuation :: m in all && Legal(v) && OptNoNegatedTest(ParentDep(root)) ==>
      var u := old(m.parent);
      && u != null
      && IsNarrowed(m.sym, PassedOnValue(u.sym, u.isChoice, DataOf(u), v), old(DataOf(m)), DataOf(m), v)
    ensures Final(old(PlanOf(root, f)), Elems(f))
    ensures Fit(old(PlanOf(root, f)), tree) && Settled(old(PlanOf(root, f)), tree, None)
  {
    hide Siblings, Planned, FateOf, PlanOf, Settled, Fit, Final, Begun, Closed, Preorder, Follows, Narrowed, Legal,
      ParentDep, IsNarrowed, NoNegatedTest, PassedOnValue;
    PlanIsPlanned(root, f);
    FollowParents(PlanOf(root, f), root, f);
    ghost var plan := PlanOf(root, f);
    ghost var rest;
    ghost var parents := map m | m in Elems(f) :: m.parent;
    tree, rest := Finalize(root, f, Nil, plan, None);
    SameForest(tree, rest, f);
    FinalOfTwo(plan, root, Elems(tree));
    RootIsFinal(plan, root);
    FinalFollows(plan, root, f, parents);
    ElemsAllocated(tree);
    visited := Walk(root, tree);
    DistinctIffNoRepeats(f);
  }
}
