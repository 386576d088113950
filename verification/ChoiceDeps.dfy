/** The search for recursive dependencies, where there are choices. */
module ChoiceDeps {
  import opened Options
  import opened Expr
  import opened ExprCompare
  import opened ChoiceSpec
  import opened ChoiceOrders
  import S = SymbolSpec
  import D = SymbolDeps

  // ----- the search over all that the evaluation reads -----

  /** One expression that contains what the given ones contain. */
  function Joined(es: seq<Expr>): Option<Expr> {
    if es == [] then None
    else
      var rest := Joined(es[1..]);
      if rest.None? then Some(es[0]) else Some(Or(es[0], rest.value))
  }

  lemma {:induction false} JoinedContains(es: seq<Expr>, t: Symbol)
    ensures D.OptContains(Joined(es), t) <==> Names(es, t)
  {
    if es != [] {
      JoinedContains(es[1..], t);
      assert [es[0]] + es[1..] == es;
      NamesJoin([es[0]], es[1..], t);
      NamesOne(es[0], t);
    }
  }

  function ReadGraph(m: Model): D.Graph {
    (s: Symbol) => D.Node(if s in m.table then Joined(ReadExprs(m, s)) else None, None, [], false)
  }

  lemma ReadEdge(m: Model, s: Symbol, t: Symbol)
    ensures D.Edge(ReadGraph(m), s, t) <==> s in m.table && Reads(m, s, t)
  {
    if s in m.table { JoinedContains(ReadExprs(m, s), t); }
    hide ReadExprs, Names, Joined;
  }

  function SymbolsOf(e: Expr): set<Symbol> {
    match e
    case Sym(s) => {s}
    case Equal(a, b) => {a, b}
    case Unequal(a, b) => {a, b}
    case Not(a) => SymbolsOf(a)
    case And(l, r) => SymbolsOf(l) + SymbolsOf(r)
    case Or(l, r) => SymbolsOf(l) + SymbolsOf(r)
  }

  lemma {:induction false} ContainedIsSymbol(e: Expr, t: Symbol)
    requires ContainsSymbol(e, t)
    ensures t in SymbolsOf(e)
  {
    match e
    case Sym(_) =>
    case Equal(_, _) =>
    case Unequal(_, _) =>
    case Not(a) => ContainedIsSymbol(a, t);
    case And(l, r) => if ContainsSymbol(l, t) { ContainedIsSymbol(l, t); } else { ContainedIsSymbol(r, t); }
    case Or(l, r) => if ContainsSymbol(l, t) { ContainedIsSymbol(l, t); } else { ContainedIsSymbol(r, t); }
  }

  /** The table and all that its symbols read. */
  function Known(m: Model): set<Symbol> {
    m.table + set s, k, t | s in m.table && 0 <= k < |ReadExprs(m, s)| && t in SymbolsOf(ReadExprs(m, s)[k]) :: t
  }

  lemma ReadIsKnown(m: Model, s: Symbol, t: Symbol)
    requires s in m.table && Reads(m, s, t)
    ensures t in Known(m)
  {
    var es := ReadExprs(m, s);
    var k :| 0 <= k < |es| && ContainsSymbol(es[k], t);
    ContainedIsSymbol(es[k], t);
    hide ReadExprs, SymbolsOf;
  }

  ghost predicate CanBeRanked(m: Model) {
    exists rank: Symbol -> nat :: Ranked(m, rank)
  }

  lemma {:induction false} WalkLowersRank(m: Model, rank: Symbol -> nat, p: seq<Symbol>, n: nat)
    requires Ranked(m, rank) && D.Walk(ReadGraph(m), p) && 0 < n < |p| && forall s :: s in p ==> s in m.table
    ensures rank(p[n]) < rank(p[0])
  {
    if n > 1 { WalkLowersRank(m, rank, p, n - 1); }
    assert D.Edge(ReadGraph(m), p[n - 1], p[n]);
    assert p[n - 1] in p && p[n] in p;
    ReadEdge(m, p[n - 1], p[n]);
    hide D.Edge, Reads;
  }

  lemma RankedIsNotRecursive(m: Model)
    requires CanBeRanked(m)
    ensures !D.Recursive(ReadGraph(m), Known(m))
  {
    hide ReadGraph, Known, D.Edge, Reads;
    var rank: Symbol -> nat :| Ranked(m, rank);
    forall p | D.Cycle(ReadGraph(m), p) ensures false {
      CycleIsInTable(m, p);
      WalkLowersRank(m, rank, p, |p| - 1);
    }
  }

  /** Every symbol of a cycle has an edge out of it. */
  lemma CycleIsInTable(m: Model, p: seq<Symbol>)
    requires D.Cycle(ReadGraph(m), p)
    ensures forall s :: s in p ==> s in m.table
  {
    hide ReadGraph, D.Edge, Reads;
    forall s | s in p ensures s in m.table {
      var i :| 0 <= i < |p| && p[i] == s;
      var k := if i == |p| - 1 then 0 else i;
      assert p[k] == s && D.Edge(ReadGraph(m), p[k], p[k + 1]);
      ReadEdge(m, p[k], p[k + 1]);
    }
  }

  lemma DescentIsRank(m: Model, time: map<Symbol, nat>)
    requires D.Descends(ReadGraph(m), time) && forall s :: s in m.table ==> s in time
    ensures CanBeRanked(m)
  {
    hide ReadGraph, D.Edge, Reads;
    var rank: Symbol -> nat := (s: Symbol) => if s in time then time[s] else 0;
    forall s: Symbol, t: Symbol | s in m.table && t in m.table && Reads(m, s, t) ensures rank(t) < rank(s) {
      ReadEdge(m, s, t);
    }
    assert Ranked(m, rank);
  }

  /** The search over all that the evaluation reads, choices and deselections included: it is silent if and only
      if the values have an order in which they can be computed. */
  method SweepReads(m: Model, order: seq<Symbol>) returns (reported: bool)
    requires forall s: Symbol :: s in order <==> s in m.table
    ensures reported <==> !CanBeRanked(m)
  {
    hide D.Recursive, CanBeRanked, D.Descends, D.Edge, Known, ReadGraph, Reads;
    ghost var g, all := ReadGraph(m), Known(m);
    KnownIsClosed(m);
    reported := D.Sweep(ReadGraph(m), order, all);
    if reported {
      if CanBeRanked(m) { RankedIsNotRecursive(m); }
    } else {
      ghost var time: map<Symbol, nat> :| D.Descends(g, time) && forall s: Symbol :: s in order ==> s in time;
      DescentIsRank(m, time);
    }
  }

  lemma KnownIsClosed(m: Model)
    ensures D.Closed(ReadGraph(m), Known(m)) && m.table <= Known(m)
    ensures forall a: Symbol, b: Symbol :: D.Edge(ReadGraph(m), a, b) ==> a in m.table
  {
    assert m.table <= Known(m);
    hide D.Edge, Known, ReadGraph, Reads;
    forall a: Symbol, b: Symbol | D.Edge(ReadGraph(m), a, b) ensures a in m.table && b in Known(m) {
      ReadEdge(m, a, b);
      ReadIsKnown(m, a, b);
    }
  }

  // ----- what the search of the program does not see -----

  /** The group of ConditionOutsideBreaks as the search of the program sees it. */
  function PairNodes(s: Symbol): D.Node {
    if s == CHOICE then
      D.Node(None, None, [D.Property(D.Prompt, None, None), D.Property(D.Choice, None, Some(Or(Sym(B), Sym(A))))], true)
    else if s == B then
      D.Node(None, None, [D.Property(D.Prompt, Some(MemberPrompt(CHOICE, Some(Sym(X)))), None),
                          D.Property(D.Choice, None, Some(Sym(CHOICE)))], false)
    else if s == A then
      D.Node(None, None, [D.Property(D.Prompt, Some(MemberPrompt(CHOICE, None)), None),
                          D.Property(D.Choice, None, Some(Sym(CHOICE)))], false)
    else if s == X then
      D.Node(None, None, [D.Property(D.DefaultValue, Some(Sym(A)), Some(YES))], false)
    else D.Node(None, None, [], false)
  }

  /** It has the same prompts and defaults, and the search finds no recursive dependency in it. */
  lemma ConditionOutsidePasses(all: set<Symbol>)
    ensures !D.Recursive(PairNodes, all)
    ensures forall s: Symbol :: s in {CHOICE, B, A, X} ==>
      var i := PairInfo(Sym(X), [S.Default(Some(Sym(A)), YES)], s);
      D.PromptsOf(PairNodes(s).props) == i.prompts && D.DefaultsOf(PairNodes(s).props) == i.defaults
  {
    var time: map<Symbol, nat> := map[YES.sym := 0, CHOICE := 0, A := 1, X := 2, B := 3];
    forall a: Symbol, b: Symbol | D.Edge(PairNodes, a, b) ensures a in time && b in time && time[b] < time[a] {
      PairEdge(a, b);
    }
    assert D.Descends(PairNodes, time);
    forall p | D.Cycle(PairNodes, p) ensures false {
      assert D.Edge(PairNodes, p[0], p[1]);
      D.DescentHasNoCycle(PairNodes, time, p);
    }
    forall s: Symbol | s in {CHOICE, B, A, X} ensures
      var i := PairInfo(Sym(X), [S.Default(Some(Sym(A)), YES)], s);
      D.PromptsOf(PairNodes(s).props) == i.prompts && D.DefaultsOf(PairNodes(s).props) == i.defaults
    {
      PairProps(s);
    }
  }

  lemma PairEdge(a: Symbol, b: Symbol)
    requires D.Edge(PairNodes, a, b)
    ensures (a == B && b in {CHOICE, X}) || (a == A && b == CHOICE) || (a == X && b in {A, YES.sym})
  {
    var n := PairNodes(a);
    var k :| 0 <= k < |n.props| && D.PropFollows(n, n.props[k], b);
    var e := And(Sym(CHOICE), Sym(X));
    assert MemberPrompt(CHOICE, Some(Sym(X))) == e && MemberPrompt(CHOICE, None) == Sym(CHOICE);
    assert ContainsSymbol(e, b) <==> ContainsSymbol(Sym(CHOICE), b) || ContainsSymbol(Sym(X), b);
  }

  lemma PairProps(s: Symbol)
    requires s in {CHOICE, B, A, X}
    ensures var i := PairInfo(Sym(X), [S.Default(Some(Sym(A)), YES)], s);
      D.PromptsOf(PairNodes(s).props) == i.prompts && D.DefaultsOf(PairNodes(s).props) == i.defaults
  {
    var ps := PairNodes(s).props;
    if s == X {
      assert ps[1..] == [];
    } else {
      var rest := ps[1..];
      assert rest == [ps[1]] && rest[1..] == [];
      assert D.PromptsOf(rest) == [] && D.DefaultsOf(rest) == [];
      assert D.PromptsOf(ps) == [ps[0].visible] + [] && D.DefaultsOf(ps) == D.DefaultsOf(rest);
    }
  }
}
