/** The menu entries and the forest their pointers stand for. */
module MenuTree {
  import opened Options
  import opened Expr

  /** A prompt: whether it has a text, and the condition under which it is visible. */
  datatype Prompt = Prompt(hasText: bool, visible: Option<Expr>)

  class Entry {
    const sym: Option<Symbol>
    const isChoice: bool
    var prompt: Option<Prompt>
    var dep: Option<Expr>
    var next: Entry?
    var parent: Entry?
    var list: Entry?

    constructor (s: Option<Symbol>, choice: bool, up: Entry?)
      ensures sym == s && isChoice == choice && parent == up
      ensures prompt == None && dep == None && next == null && list == null
    {
      sym, isChoice, parent := s, choice, up;
      prompt, dep, next, list := None, None, null, null;
    }
  }

  /** A list of siblings, each with its children. */
  datatype Forest = Nil | Cons(head: Entry, kids: Forest, rest: Forest)

  function Elems(f: Forest): set<Entry> {
    match f
    case Nil => {}
    case Cons(m, k, r) => {m} + Elems(k) + Elems(r)
  }

  /** The siblings themselves. */
  function Tops(f: Forest): set<Entry> {
    match f
    case Nil => {}
    case Cons(m, _, r) => {m} + Tops(r)
  }

  /** The entries in the order a reader meets them. */
  function Preorder(f: Forest): seq<Entry> {
    match f
    case Nil => []
    case Cons(m, k, r) => [m] + Preorder(k) + Preorder(r)
  }

  function Count(f: Forest): nat {
    match f
    case Nil => 0
    case Cons(_, k, r) => 1 + Count(k) + Count(r)
  }

  function Join(f: Forest, h: Forest): Forest {
    match f
    case Nil => h
    case Cons(m, k, r) => Cons(m, k, Join(r, h))
  }

  predicate Distinct(f: Forest) {
    match f
    case Nil => true
    case Cons(m, k, r) =>
      m !in Elems(k) && m !in Elems(r) && Elems(k) !! Elems(r) && Distinct(k) && Distinct(r)
  }

  /** The pointers from first up to end are the siblings of f, all with the given parent, each with
      its own children below it. */
  ghost predicate Chain(first: Entry?, up: Entry?, f: Forest, end: Entry?)
    reads Elems(f)`next, Elems(f)`parent, Elems(f)`list
    decreases f
  {
    match f
    case Nil => first == end
    case Cons(m, k, r) =>
      first == m && m.parent == up && Chain(m.list, m, k, null) && Chain(m.next, up, r, end)
  }

  /** What a forest holds exists already, so a call that does not touch it leaves its chain alone. */
  lemma {:induction false} ElemsAllocated(f: Forest)
    ensures forall m :: m in Elems(f) ==> allocated(m)
  {
    if f.Cons? {
      ElemsAllocated(f.kids);
      ElemsAllocated(f.rest);
    }
  }

  lemma {:induction false} TopsAreElems(f: Forest)
    ensures Tops(f) <= Elems(f)
  {
    if f.Cons? { TopsAreElems(f.rest); }
  }

  lemma {:induction false} JoinSets(f: Forest, h: Forest)
    ensures Elems(Join(f, h)) == Elems(f) + Elems(h)
    ensures Tops(Join(f, h)) == Tops(f) + Tops(h)
  {
    if f.Cons? { JoinSets(f.rest, h); }
  }

  lemma {:induction false} JoinOrder(f: Forest, h: Forest)
    ensures Preorder(Join(f, h)) == Preorder(f) + Preorder(h)
    ensures Count(Join(f, h)) == Count(f) + Count(h)
  {
    if f.Cons? {
      JoinOrder(f.rest, h);
      assert [f.head] + Preorder(f.kids) + (Preorder(f.rest) + Preorder(h))
          == ([f.head] + Preorder(f.kids) + Preorder(f.rest)) + Preorder(h);
    }
  }

  lemma {:induction false} JoinDistinct(f: Forest, h: Forest)
    ensures Distinct(Join(f, h)) <==> Distinct(f) && Distinct(h) && Elems(f) !! Elems(h)
  {
    if f.Cons? {
      JoinDistinct(f.rest, h);
      JoinSets(f.rest, h);
    }
  }

  lemma JoinFacts(f: Forest, h: Forest)
    ensures Elems(Join(f, h)) == Elems(f) + Elems(h)
    ensures Tops(Join(f, h)) == Tops(f) + Tops(h)
    ensures Preorder(Join(f, h)) == Preorder(f) + Preorder(h)
    ensures Count(Join(f, h)) == Count(f) + Count(h)
    ensures Distinct(Join(f, h)) <==> Distinct(f) && Distinct(h) && Elems(f) !! Elems(h)
  {
    JoinSets(f, h);
    JoinOrder(f, h);
    JoinDistinct(f, h);
  }

  lemma {:induction false} JoinAssociates(f: Forest, h: Forest, j: Forest)
    ensures Join(Join(f, h), j) == Join(f, Join(h, j))
    ensures Join(f, Nil) == f
  {
    if f.Cons? { JoinAssociates(f.rest, h, j); }
  }

  lemma {:induction false} ChainJoin(first: Entry?, up: Entry?, f: Forest, mid: Entry?, h: Forest, end: Entry?)
    requires Chain(first, up, f, mid) && Chain(mid, up, h, end)
    ensures Chain(first, up, Join(f, h), end)
  {
    if f.Cons? { ChainJoin(f.head.next, up, f.rest, mid, h, end); }
  }

  /** The walk along a chain takes one more sibling. */
  lemma ChainExtend(first: Entry?, up: Entry?, f: Forest, m: Entry, k: Forest)
    requires Chain(first, up, f, m) && m.parent == up && Chain(m.list, m, k, null)
    ensures Chain(first, up, Join(f, Cons(m, k, Nil)), m.next)
  {
    assert Chain(m, up, Cons(m, k, Nil), m.next);
    ChainJoin(first, up, f, m, Cons(m, k, Nil), m.next);
  }

  /** done and todo are a forest cut between two siblings; nothing occurs twice. */
  predicate Cut(done: Forest, todo: Forest) {
    Distinct(done) && Distinct(todo) && Elems(done) !! Elems(todo)
  }

  lemma PreorderMoves(done: Forest, todo: Forest, k: Forest, r: Forest)
    requires todo.Cons? && Preorder(k) + Preorder(r) == Preorder(todo.kids) + Preorder(todo.rest)
    ensures Preorder(Join(done, Cons(todo.head, k, Nil))) + Preorder(r) == Preorder(done) + Preorder(todo)
  {
    JoinOrder(done, Cons(todo.head, k, Nil));
    var d, m := Preorder(done), [todo.head];
    assert Preorder(Cons(todo.head, k, Nil)) == m + Preorder(k);
    assert m + (Preorder(todo.kids) + Preorder(todo.rest)) == Preorder(todo);
    hide Preorder, Join;
    Regroup(d, m, Preorder(k), Preorder(r));
  }

  lemma Regroup(a: seq<Entry>, b: seq<Entry>, c: seq<Entry>, d: seq<Entry>)
    ensures (a + (b + c)) + d == a + (b + (c + d))
  {
  }

  lemma OneOfTwo(m: Entry, k: Forest, r: Forest)
    requires Distinct(Cons(m, k, r))
    ensures Distinct(Cons(m, k, Nil)) && Distinct(r) && ({m} + Elems(k)) !! Elems(r)
  {
  }

  /** The cut moves past the first sibling of todo, which may have got other children and siblings. */
  lemma CutMoves(done: Forest, todo: Forest, k: Forest, r: Forest)
    requires Cut(done, todo) && todo.Cons?
    requires Distinct(Cons(todo.head, k, r))
    requires Elems(k) + Elems(r) == Elems(todo.kids) + Elems(todo.rest)
    ensures var done' := Join(done, Cons(todo.head, k, Nil));
      && Cut(done', r)
      && Elems(done') + Elems(r) == Elems(done) + Elems(todo)
      && Tops(done') == Tops(done) + {todo.head}
  {
    var one := Cons(todo.head, k, Nil);
    JoinSets(done, one);
    JoinDistinct(done, one);
    OneOfTwo(todo.head, k, r);
    hide Join, Distinct;
    assert Elems(one) == {todo.head} + Elems(k);
    assert Elems(todo) == {todo.head} + (Elems(todo.kids) + Elems(todo.rest));
    assert Elems(one) <= Elems(todo) && Elems(r) <= Elems(todo);
  }

  lemma {:induction false} ElemsArePreorder(f: Forest)
    ensures forall m :: m in Elems(f) <==> m in Preorder(f)
    ensures |Preorder(f)| == Count(f)
  {
    if f.Cons? {
      ElemsArePreorder(f.kids);
      ElemsArePreorder(f.rest);
    }
  }

  function SetOf(s: seq<Entry>): set<Entry> {
    if s == [] then {} else {s[0]} + SetOf(s[1..])
  }

  lemma {:induction false} SetOfTwo(a: seq<Entry>, b: seq<Entry>)
    ensures SetOf(a + b) == SetOf(a) + SetOf(b)
  {
    if a == [] {
      assert a + b == b;
    } else {
      assert (a + b)[1..] == a[1..] + b;
      SetOfTwo(a[1..], b);
    }
  }

  lemma {:induction false} ElemsAreSetOfPreorder(f: Forest)
    ensures Elems(f) == SetOf(Preorder(f))
  {
    if f.Cons? {
      ElemsAreSetOfPreorder(f.kids);
      ElemsAreSetOfPreorder(f.rest);
      SetOfTwo([f.head], Preorder(f.kids));
      SetOfTwo([f.head] + Preorder(f.kids), Preorder(f.rest));
    }
  }

  predicate NoRepeats(s: seq<Entry>) {
    s == [] || (s[0] !in s[1..] && NoRepeats(s[1..]))
  }

  lemma {:induction false} NoRepeatsOfTwo(a: seq<Entry>, b: seq<Entry>)
    ensures NoRepeats(a + b) <==> NoRepeats(a) && NoRepeats(b) && forall x :: x in a ==> x !in b
  {
    if a == [] {
      assert a + b == b;
    } else {
      assert (a + b)[1..] == a[1..] + b;
      NoRepeatsOfTwo(a[1..], b);
      assert forall x :: x in a <==> x == a[0] || x in a[1..];
    }
  }

  lemma NoRepeatsOfNode(m: Entry, a: seq<Entry>, b: seq<Entry>)
    ensures NoRepeats([m] + a + b) <==>
      m !in a && m !in b && NoRepeats(a) && NoRepeats(b) && forall x :: x in a ==> x !in b
  {
    NoRepeatsOfTwo(a, b);
    assert [m] + a + b == [m] + (a + b);
    assert ([m] + (a + b))[1..] == a + b;
  }

  lemma ElemsApart(f: Forest, h: Forest)
    ensures Elems(f) !! Elems(h) <==> forall x :: x in Preorder(f) ==> x !in Preorder(h)
  {
    ElemsArePreorder(f);
    ElemsArePreorder(h);
  }

  /** A forest is one of distinct entries exactly when its preorder repeats none. */
  lemma {:induction false} DistinctIffNoRepeats(f: Forest)
    ensures Distinct(f) <==> NoRepeats(Preorder(f))
  {
    if f.Cons? {
      DistinctIffNoRepeats(f.kids);
      DistinctIffNoRepeats(f.rest);
      ElemsArePreorder(f.kids);
      ElemsArePreorder(f.rest);
      ElemsApart(f.kids, f.rest);
      NoRepeatsOfNode(f.head, Preorder(f.kids), Preorder(f.rest));
    }
  }

  /** s is what is left of f after some of its first siblings. */
  predicate Suffix(s: Forest, f: Forest) {
    s == f || (f.Cons? && Suffix(s, f.rest))
  }

  lemma {:induction false} SuffixFacts(s: Forest, f: Forest)
    requires Suffix(s, f)
    ensures Tops(s) <= Tops(f) && Elems(s) <= Elems(f) && Count(s) <= Count(f)
    ensures Distinct(f) ==> Distinct(s) && Tops(f) * Elems(s) <= Tops(s)
  {
    TopsAreElems(f);
    if s != f {
      SuffixFacts(s, f.rest);
    }
  }

  lemma {:induction false} SuffixTransitive(s: Forest, f: Forest, h: Forest)
    requires Suffix(s, f) && Suffix(f, h)
    ensures Suffix(s, h)
  {
    if f != h { SuffixTransitive(s, f, h.rest); }
  }

  // ----- the walk of conf_write and zconfdump -----

  /** What is still to come after a subtree: the later siblings of it and of each entry above it. */
  datatype Level = Level(up: Entry, rest: Forest)

  function After(levels: seq<Level>): seq<Entry> {
    if levels == [] then [] else Preorder(levels[0].rest) + After(levels[1..])
  }

  function Fields(levels: seq<Level>): set<Entry> {
    if levels == [] then {} else {levels[0].up} + Elems(levels[0].rest) + Fields(levels[1..])
  }

  /** levels[0] holds the later siblings of m, whose parent is levels[0].up, and so on upwards to
      the root, which has neither siblings nor a parent. */
  ghost predicate Spine(m: Entry, levels: seq<Level>)
    reads m, Fields(levels)
    decreases |levels|
  {
    if levels == [] then m.next == null && m.parent == null
    else
      && m.parent == levels[0].up
      && Chain(m.next, levels[0].up, levels[0].rest, null)
      && Spine(levels[0].up, levels[1..])
  }

  /** Up, until an entry with a later sibling is found. */
  method Climb(m: Entry, ghost levels: seq<Level>) returns (n: Entry?, ghost above: seq<Level>, ghost kids: Forest)
    requires Spine(m, levels) && m.next == null
    ensures n == null ==> After(levels) == []
    ensures n != null ==> Spine(n, above) && Chain(n.list, n, kids, null)
    ensures n != null ==> [n] + Preorder(kids) + After(above) == After(levels)
    decreases |levels|
  {
    n, above, kids := m.parent, levels, Nil;
    if n != null {
      assert levels[0].rest == Nil;
      above := levels[1..];
      if n.next != null {
        n, above, kids := Sibling(n, above);
        assert After(levels) == [] + After(levels[1..]);
      } else {
        n, above, kids := Climb(n, above);
        assert After(levels) == [] + After(levels[1..]);
      }
    }
  }

  method Sibling(m: Entry, ghost levels: seq<Level>) returns (n: Entry, ghost above: seq<Level>, ghost kids: Forest)
    requires Spine(m, levels) && m.next != null
    ensures n == m.next
    ensures Spine(n, above) && Chain(n.list, n, kids, null)
    ensures [n] + Preorder(kids) + After(above) == After(levels)
  {
    n := m.next;
    ghost var f := levels[0].rest;
    above, kids := [Level(levels[0].up, f.rest)] + levels[1..], f.kids;
    assert above[1..] == levels[1..];
    assert [n] + Preorder(kids) + (Preorder(f.rest) + After(levels[1..]))
        == ([n] + Preorder(kids) + Preorder(f.rest)) + After(levels[1..]);
  }

  /** One move of the cursor: first child, else next sibling, else the next sibling of the nearest
      entry above that has one. */
  method Advance(m: Entry, ghost kids: Forest, ghost levels: seq<Level>)
    returns (n: Entry?, ghost kids': Forest, ghost levels': seq<Level>)
    requires Spine(m, levels) && Chain(m.list, m, kids, null)
    ensures n == null ==> Preorder(kids) + After(levels) == []
    ensures n != null ==> Spine(n, levels') && Chain(n.list, n, kids', null)
    ensures n != null ==> [n] + Preorder(kids') + After(levels') == Preorder(kids) + After(levels)
  {
    if m.list != null {
      n := m.list;
      kids', levels' := kids.kids, [Level(m, kids.rest)] + levels;
      assert levels'[1..] == levels;
      assert [n] + Preorder(kids.kids) + (Preorder(kids.rest) + After(levels))
          == ([n] + Preorder(kids.kids) + Preorder(kids.rest)) + After(levels);
    } else if m.next != null {
      n, levels', kids' := Sibling(m, levels);
      assert [] + After(levels) == After(levels);
    } else {
      n, levels', kids' := Climb(m, levels);
      assert [] + After(levels) == After(levels);
    }
  }

  /** The cursor loop ends, and visits every entry below the root once, in order. */
  method Walk(root: Entry, ghost f: Forest) returns (visited: seq<Entry>)
    requires root.next == null && root.parent == null
    requires Chain(root.list, root, f, null)
    ensures visited == Preorder(f)
  {
    var menu := root.list;
    ghost var kids, levels := Nil, [];
    visited := [];
    if menu != null {
      kids, levels := f.kids, [Level(root, f.rest)];
      assert levels[1..] == [] && After(levels) == Preorder(f.rest) + [];
    }
    while menu != null
      invariant menu == null ==> visited == Preorder(f)
      invariant menu != null ==> Spine(menu, levels) && Chain(menu.list, menu, kids, null)
      invariant menu != null ==> visited + ([menu] + Preorder(kids) + After(levels)) == Preorder(f)
      decreases |Preorder(f)| - |visited|
    {
      ghost var tail := Preorder(kids) + After(levels);
      assert [menu] + Preorder(kids) + After(levels) == [menu] + tail;
      assert visited + ([menu] + tail) == (visited + [menu]) + tail;
      visited := visited + [menu];
      menu, kids, levels := Advance(menu, kids, levels);
      assert menu == null ==> visited + tail == visited;
    }
  }
}
