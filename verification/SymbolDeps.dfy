/** sym_check_deps: the depth-first search for recursive dependencies. */
module SymbolDeps {
  import opened Options
  import opened Expr
  import opened ExprCompare
  import A = ExprAdopt
  import S = SymbolSpec

  datatype PropKind = Prompt | Comment | Menu | DefaultValue | Choice | Deselect | Select | Range | Reset

  datatype Property = Property(kind: PropKind, visible: Option<Expr>, value: Option<Expr>)

  datatype Node = Node(revDep: Option<Expr>, revDepInv: Option<Expr>, props: seq<Property>, isChoice: bool)

  type Graph = Symbol -> Node

  predicate OptContains(e: Option<Expr>, t: Symbol) {
    e.Some? && ContainsSymbol(e.value, t)
  }

  /** The expressions of a property the search looks into. */
  predicate PropFollows(n: Node, p: Property, t: Symbol) {
    && p.kind !in {Choice, Select, Deselect}
    && (OptContains(p.visible, t) || (p.kind == DefaultValue && !n.isChoice && OptContains(p.value, t)))
  }

  predicate Edge(g: Graph, a: Symbol, b: Symbol) {
    OptContains(g(a).revDep, b) || exists k :: 0 <= k < |g(a).props| && PropFollows(g(a), g(a).props[k], b)
  }

  predicate Mentions(e: Option<Expr>, t: Symbol) {
    match e
    case None => false
    case Some(x) => t in A.Symbols(x)
  }

  /** The search goes from a to every symbol that occurs in what selects a, in a condition of a prompt, a comment, a
      menu, a default, a range or a reset, and, unless a is a choice, in the value of a default. */
  lemma EdgeIff(g: Graph, a: Symbol, b: Symbol)
    ensures Edge(g, a, b) <==>
      || Mentions(g(a).revDep, b)
      || exists k :: 0 <= k < |g(a).props| &&
           var p := g(a).props[k];
           || (p.kind in {Prompt, Comment, Menu, DefaultValue, Range, Reset} && Mentions(p.visible, b))
           || (p.kind == DefaultValue && !g(a).isChoice && Mentions(p.value, b))
  {
    forall e: Option<Expr> ensures OptContains(e, b) <==> Mentions(e, b) {
      if e.Some? { A.ContainsIffOccurs(e.value, b); }
    }
  }

  /** A walk along the dependencies. */
  ghost predicate Walk(g: Graph, p: seq<Symbol>) {
    forall i :: 0 < i < |p| ==> Edge(g, p[i - 1], p[i])
  }

  ghost predicate Cycle(g: Graph, p: seq<Symbol>) {
    |p| >= 2 && p[0] == p[|p| - 1] && Walk(g, p)
  }

  ghost predicate Recursive(g: Graph, all: set<Symbol>) {
    exists p :: Cycle(g, p) && forall s :: s in p ==> s in all
  }

  /** Every dependency of a symbol of the set lies in the set. */
  ghost predicate Closed(g: Graph, all: set<Symbol>) {
    forall a: Symbol, b: Symbol :: a in all && Edge(g, a, b) ==> b in all
  }

  /** A strict descent along every edge. */
  ghost predicate Descends(g: Graph, time: map<Symbol, nat>) {
    forall a: Symbol, b: Symbol :: a in time && Edge(g, a, b) ==> b in time && time[b] < time[a]
  }

  lemma {:induction false} WalkDescends(g: Graph, time: map<Symbol, nat>, p: seq<Symbol>, n: nat)
    requires Descends(g, time) && Walk(g, p) && 0 < n < |p| && p[0] in time
    ensures p[n] in time && time[p[n]] < time[p[0]]
  {
    if n > 1 { WalkDescends(g, time, p, n - 1); }
    assert Edge(g, p[n - 1], p[n]);
  }

  lemma DescentHasNoCycle(g: Graph, time: map<Symbol, nat>, p: seq<Symbol>)
    requires Descends(g, time) && Cycle(g, p)
    ensures p[0] !in time
  {
    if p[0] in time { WalkDescends(g, time, p, |p| - 1); }
  }

  class Checker {
    const g: Graph
    ghost const all: set<Symbol>
    var check: set<Symbol>        // SYMBOL_CHECK: on the way down
    var checked: set<Symbol>      // SYMBOL_CHECKED: visited
    var reported: bool            // a recursive dependency was printed
    ghost var stack: seq<Symbol>
    ghost var time: map<Symbol, nat>
    ghost var clock: nat

    constructor (graph: Graph, ghost symbols: set<Symbol>)
      requires Closed(graph, symbols)
      ensures g == graph && all == symbols && Valid() && stack == [] && checked == {} && !reported
    {
      g, all := graph, symbols;
      check, checked, reported := {}, {}, false;
      stack, time, clock := [], map[], 0;
    }

    /** The grey symbols form the current walk; until something is reported, the black ones have
        only black dependencies, finished before them. */
    ghost predicate Valid()
      reads this
    {
      && Closed(g, all)
      && check <= checked <= all
      && Walk(g, stack)
      && (forall s: Symbol :: s in stack <==> s in check)
      && (reported ==> Recursive(g, all))
      && (!reported ==> Finished())
    }

    ghost predicate Finished()
      reads this
    {
      && time.Keys == checked - check
      && Descends(g, time)
      && (forall s: Symbol :: s in time ==> time[s] < clock)
    }

    /** What a visit may do: the walk is as before, marks and reports only grow. */
    twostate predicate Went()
      reads this
    {
      && stack == old(stack) && check == old(check)
      && old(checked) <= checked
      && (old(reported) ==> reported)
      && (!reported ==> old(time.Keys) <= time.Keys)
    }

    /** The step to a symbol continues the walk. */
    ghost predicate Continues(s: Symbol)
      reads this
    {
      s in all && (stack != [] ==> Edge(g, stack[|stack| - 1], s))
    }

    /** A grey symbol was met: the walk from it back to it is a cycle. */
    lemma GreyIsCycle(s: Symbol)
      requires Valid() && s in check && Continues(s)
      ensures Recursive(g, all)
    {
      var k :| 0 <= k < |stack| && stack[k] == s;
      var p := stack[k..] + [s];
      forall i | 0 < i < |p| ensures Edge(g, p[i - 1], p[i]) {
        if i < |p| - 1 { assert Edge(g, stack[k + i - 1], stack[k + i]); }
      }
      assert Cycle(g, p);
    }

    /** sym_check_expr_deps */
    method CheckExpr(e: Expr, ghost from: Symbol) returns (r: Option<Symbol>)
      requires Valid() && stack != [] && stack[|stack| - 1] == from
      requires forall t: Symbol :: ContainsSymbol(e, t) ==> Edge(g, from, t)
      modifies this
      ensures Valid() && Went()
      ensures r.Some? ==> reported && r.value in check
      ensures !reported ==> forall t: Symbol :: ContainsSymbol(e, t) ==> t in time
      decreases all - checked, 1, e
    {
      match e {
        case Sym(s) =>
          assert ContainsSymbol(e, s);
          r := CheckSymbol(s);
        case Not(a) =>
          assert forall t: Symbol :: ContainsSymbol(a, t) ==> ContainsSymbol(e, t);
          r := CheckExpr(a, from);
        case And(x, y) => r := CheckBoth(e, x, y, from);
        case Or(x, y) => r := CheckBoth(e, x, y, from);
        case Equal(x, y) => r := CheckTest(e, x, y, from);
        case Unequal(x, y) => r := CheckTest(e, x, y, from);
      }
    }

    method CheckBoth(ghost e: Expr, x: Expr, y: Expr, ghost from: Symbol) returns (r: Option<Symbol>)
      requires Valid() && stack != [] && stack[|stack| - 1] == from
      requires (e.And? || e.Or?) && e.left == x && e.right == y
      requires forall t: Symbol :: ContainsSymbol(e, t) ==> Edge(g, from, t)
      modifies this
      ensures Valid() && Went()
      ensures r.Some? ==> reported && r.value in check
      ensures !reported ==> forall t: Symbol :: ContainsSymbol(e, t) ==> t in time
      decreases all - checked, 1, e, 0
    {
      assert forall t: Symbol :: ContainsSymbol(e, t) <==> ContainsSymbol(x, t) || ContainsSymbol(y, t);
      r := CheckExpr(x, from);
      if r.None? {
        r := CheckExpr(y, from);
      }
    }

    method CheckTest(ghost e: Expr, x: Symbol, y: Symbol, ghost from: Symbol) returns (r: Option<Symbol>)
      requires Valid() && stack != [] && stack[|stack| - 1] == from
      requires (e.Equal? || e.Unequal?) && e.lhs == x && e.rhs == y
      requires forall t: Symbol :: ContainsSymbol(e, t) ==> Edge(g, from, t)
      modifies this
      ensures Valid() && Went()
      ensures r.Some? ==> reported && r.value in check
      ensures !reported ==> forall t: Symbol :: ContainsSymbol(e, t) ==> t in time
      decreases all - checked, 1, e, 0
    {
      assert forall t: Symbol :: ContainsSymbol(e, t) <==> t == x || t == y;
      assert from in stack && Edge(g, from, x);
      r := CheckSymbol(x);
      if r.None? {
        r := CheckSymbol(y);
      }
    }

    method CheckOpt(e: Option<Expr>, ghost from: Symbol) returns (r: Option<Symbol>)
      requires Valid() && stack != [] && stack[|stack| - 1] == from
      requires forall t: Symbol :: OptContains(e, t) ==> Edge(g, from, t)
      modifies this
      ensures Valid() && Went()
      ensures r.Some? ==> reported && r.value in check
      ensures !reported ==> forall t: Symbol :: OptContains(e, t) ==> t in time
      decreases all - checked, 2
    {
      r := None;
      if e.Some? {
        assert forall t: Symbol :: ContainsSymbol(e.value, t) ==> OptContains(e, t);
        r := CheckExpr(e.value, from);
      }
    }

    method CheckProperty(n: Node, p: Property, ghost from: Symbol) returns (r: Option<Symbol>)
      requires Valid() && stack != [] && stack[|stack| - 1] == from
      requires forall t: Symbol :: PropFollows(n, p, t) ==> Edge(g, from, t)
      modifies this
      ensures Valid() && Went()
      ensures r.Some? ==> reported && r.value in check
      ensures !reported ==> forall t: Symbol :: PropFollows(n, p, t) ==> t in time
      decreases all - checked, 3
    {
      r := None;
      if p.kind in {Choice, Select, Deselect} {
        return;
      }
      r := CheckOpt(p.visible, from);
      if r.None? && p.kind == DefaultValue && !n.isChoice {
        r := CheckOpt(p.value, from);
      }
    }

    /** The outgoing edges of the symbol on top of the walk, until one of them hits. */
    method CheckNode(s: Symbol) returns (r: Option<Symbol>)
      requires Valid() && stack != [] && stack[|stack| - 1] == s
      modifies this
      ensures Valid() && Went()
      ensures r.Some? ==> reported && r.value in check
      ensures !reported ==> forall t: Symbol :: Edge(g, s, t) ==> t in time
      decreases all - checked, 4
    {
      var n := g(s);
      r := CheckOpt(n.revDep, s);
      if r.Some? {
        return;
      }
      var i := 0;
      while i < |n.props|
        invariant i <= |n.props| && r.None?
        invariant Valid() && Went()
        invariant !reported ==> forall t: Symbol :: OptContains(n.revDep, t) ==> t in time
        invariant !reported ==> forall k, t: Symbol :: 0 <= k < i && PropFollows(n, n.props[k], t) ==> t in time
      {
        assert forall t: Symbol :: PropFollows(n, n.props[i], t) ==> Edge(g, s, t);
        r := CheckProperty(n, n.props[i], s);
        if r.Some? {
          return;
        }
        i := i + 1;
      }
    }

    /** sym_check_deps */
    method CheckSymbol(s: Symbol) returns (r: Option<Symbol>)
      requires Valid() && Continues(s)
      modifies this
      ensures Valid() && Went()
      ensures r.Some? ==> reported && r.value in check
      ensures !reported ==> s in time
      decreases all - checked, 0
    {
      hide Recursive, Walk, Descends, Closed;
      if s in check {
        GreyIsCycle(s);
        reported := true;
        return Some(s);
      }
      if s in checked {
        return None;
      }
      Enter(s);
      r := CheckNode(s);
      if r == Some(s) {
        r := None;
      }
      Leave(s);
    }

    method Enter(s: Symbol)
      requires Valid() && Continues(s) && s !in checked
      modifies this`check, this`checked, this`stack
      ensures Valid() && stack == old(stack) + [s]
      ensures check == old(check) + {s} && checked == old(checked) + {s}
    {
      check, checked := check + {s}, checked + {s};
      stack := stack + [s];
    }

    method Leave(s: Symbol)
      requires Valid() && stack != [] && stack[|stack| - 1] == s && s !in stack[..|stack| - 1]
      requires !reported ==> forall t: Symbol :: Edge(g, s, t) ==> t in time
      modifies this`check, this`stack, this`time, this`clock
      ensures Valid() && stack == old(stack)[..|old(stack)| - 1] && check == old(check) - {s}
      ensures !reported ==> s in time
    {
      check := check - {s};
      stack := stack[..|stack| - 1];
      if !reported {
        time, clock := time[s := clock], clock + 1;
      }
    }
  }

  /** The sweep of conf_parse over all symbols: a recursive dependency is reported if and only if
      there is one, although a symbol's remaining edges are given up after a hit. */
  method Sweep(g: Graph, order: seq<Symbol>, ghost all: set<Symbol>) returns (reported: bool)
    requires Closed(g, all)
    requires forall s: Symbol :: s in order ==> s in all
    requires forall a: Symbol, b: Symbol :: a in all && Edge(g, a, b) ==> a in order
    ensures reported <==> Recursive(g, all)
    ensures !reported ==>
      exists time: map<Symbol, nat> :: Descends(g, time) && forall s: Symbol :: s in order ==> s in time
  {
    var c := new Checker(g, all);
    var i := 0;
    while i < |order|
      invariant i <= |order|
      invariant fresh(c) && c.g == g && c.all == all && c.Valid() && c.stack == []
      invariant !c.reported ==> forall k :: 0 <= k < i ==> order[k] in c.time
    {
      var r := c.CheckSymbol(order[i]);
      i := i + 1;
    }
    reported := c.reported;
    if !reported {
      forall p | Cycle(g, p) && (forall s :: s in p ==> s in all) ensures false {
        assert Edge(g, p[0], p[1]);
        var k :| 0 <= k < |order| && order[k] == p[0];
        DescentHasNoCycle(g, c.time, p);
      }
    }
  }

  // ----- what a clean sweep means for the evaluation -----

  /** The properties with a text, as sym_calc_visibility reads them. */
  function PromptsOf(props: seq<Property>): seq<Option<Expr>> {
    if props == [] then []
    else if props[0].kind in {Prompt, Comment, Menu} then [props[0].visible] + PromptsOf(props[1..])
    else PromptsOf(props[1..])
  }

  function DefaultsOf(props: seq<Property>): seq<S.Default> {
    if props == [] then []
    else if props[0].kind == DefaultValue && props[0].value.Some? then
      [S.Default(props[0].visible, props[0].value.value)] + DefaultsOf(props[1..])
    else DefaultsOf(props[1..])
  }

  function EvalGraph(g: Graph, name: Symbol -> string): S.Graph {
    (s: Symbol) => S.Info(name(s), PromptsOf(g(s).props), DefaultsOf(g(s).props), g(s).revDep, g(s).revDepInv)
  }

  lemma {:induction false} PromptIsFollowed(n: Node, props: seq<Property>, k: int, t: Symbol) returns (j: int)
    requires 0 <= k < |PromptsOf(props)| && OptContains(PromptsOf(props)[k], t)
    ensures 0 <= j < |props| && PropFollows(n, props[j], t)
  {
    if props[0].kind in {Prompt, Comment, Menu} && k == 0 {
      j := 0;
    } else {
      var i := PromptIsFollowed(n, props[1..], if props[0].kind in {Prompt, Comment, Menu} then k - 1 else k, t);
      j := i + 1;
    }
  }

  lemma {:induction false} DefaultIsFollowed(n: Node, props: seq<Property>, k: int, t: Symbol) returns (j: int)
    requires 0 <= k < |DefaultsOf(props)| && !n.isChoice
    requires OptContains(DefaultsOf(props)[k].cond, t) || ContainsSymbol(DefaultsOf(props)[k].value, t)
    ensures 0 <= j < |props| && PropFollows(n, props[j], t)
  {
    var here := props[0].kind == DefaultValue && props[0].value.Some?;
    if here && k == 0 {
      j := 0;
    } else {
      var i := DefaultIsFollowed(n, props[1..], if here then k - 1 else k, t);
      j := i + 1;
    }
  }

  /** Everything a symbol's value depends on is followed, deselections and choices aside. */
  lemma DependencyIsFollowed(g: Graph, name: Symbol -> string, s: Symbol, t: Symbol)
    requires S.DependsOn(EvalGraph(g, name)(s), t)
    requires g(s).revDepInv.None? && !g(s).isChoice
    ensures Edge(g, s, t)
  {
    var i := EvalGraph(g, name)(s);
    if OptContains(g(s).revDep, t) {
    } else if k :| 0 <= k < |i.prompts| && OptContains(i.prompts[k], t) {
      var _ := PromptIsFollowed(g(s), g(s).props, k, t);
    } else {
      assert AnyDefaultContains(i.defaults, t);
      var k :| 0 <= k < |i.defaults|
        && (S.OptContains(i.defaults[k].cond, t) || ContainsSymbol(i.defaults[k].value, t));
      var _ := DefaultIsFollowed(g(s), g(s).props, k, t);
    }
  }

  /** A configuration that passes the sweep, without deselections and choices, can be evaluated:
      its dependencies are ranked. */
  lemma CleanSweepIsRanked(g: Graph, name: Symbol -> string, time: map<Symbol, nat>) returns (rank: Symbol -> nat)
    requires Descends(g, time)
    requires forall s: Symbol, t: Symbol :: Edge(g, s, t) ==> s in time
    requires forall s: Symbol :: g(s).revDepInv.None? && !g(s).isChoice
    ensures S.Ranked(EvalGraph(g, name), rank)
  {
    rank := (s: Symbol) => if s in time then time[s] else 0;
    forall s: Symbol, t: Symbol | S.DependsOn(EvalGraph(g, name)(s), t) ensures rank(t) < rank(s) {
      DependencyIsFollowed(g, name, s, t);
    }
  }

  lemma SelfDependenceIsNotRanked(h: S.Graph, s: Symbol, rank: Symbol -> nat)
    requires S.DependsOn(h(s), s)
    ensures !S.Ranked(h, rank)
  {
    if S.Ranked(h, rank) {
      S.NothingBelowDependsOn(h, rank, s, s);
    }
  }

  /** With deselections it need not be: the search does not follow rev_dep_inv, so a symbol that
      deselects itself passes although no ranking of its dependencies exists. */
  lemma SelfDeselectionPasses(g: Graph, name: Symbol -> string, s: Symbol, rank: Symbol -> nat)
    requires g(s) == Node(None, Some(Sym(s)), [], false)
    requires forall t: Symbol :: t != s ==> g(t) == Node(None, None, [], false)
    ensures !Recursive(g, {s}) && !S.Ranked(EvalGraph(g, name), rank)
  {
    var h := EvalGraph(g, name);
    assert S.DependsOn(h(s), s) by {
      assert h(s).revDepInv == Some(Sym(s)) && ContainsSymbol(Sym(s), s);
      assert S.OptContains(h(s).revDepInv, s);
    }
    SelfDependenceIsNotRanked(h, s, rank);
    forall p ensures !Cycle(g, p) {
      if |p| >= 2 { assert !Edge(g, p[0], p[1]); }
    }
  }

  // ----- exactly when the evaluation has an order -----

  function Either(a: Option<Expr>, b: Option<Expr>): Option<Expr> {
    if a.None? then b else if b.None? then a else Some(Or(a.value, b.value))
  }

  /** Does sym_calc_value look at the expressions of this property? */
  predicate IsEvaluated(p: Property) {
    p.kind in {Prompt, Comment, Menu} || (p.kind == DefaultValue && p.value.Some?)
  }

  /** The graph as the evaluation uses it: deselections are followed, properties it does not read are not. */
  function Evaluated(g: Graph): Graph {
    (s: Symbol) => Node(Either(g(s).revDep, g(s).revDepInv), None, EvaluatedProps(g(s).props), g(s).isChoice)
  }

  function EvaluatedProps(props: seq<Property>): (r: seq<Property>)
    ensures |r| == |props|
  {
    seq(|props|, i requires 0 <= i < |props| =>
      if IsEvaluated(props[i]) then props[i] else Property(props[i].kind, None, None))
  }

  predicate PromptContains(p: Property, t: Symbol) {
    p.kind in {Prompt, Comment, Menu} && OptContains(p.visible, t)
  }

  predicate DefaultContains(p: Property, t: Symbol) {
    p.kind == DefaultValue && p.value.Some? && (OptContains(p.visible, t) || ContainsSymbol(p.value.value, t))
  }

  predicate AnyPromptContains(prompts: seq<Option<Expr>>, t: Symbol) {
    exists k :: 0 <= k < |prompts| && S.OptContains(prompts[k], t)
  }

  predicate AnyDefaultContains(defaults: seq<S.Default>, t: Symbol) {
    exists k :: 0 <= k < |defaults|
      && (S.OptContains(defaults[k].cond, t) || ContainsSymbol(defaults[k].value, t))
  }

  lemma {:induction false} PromptsContain(props: seq<Property>, t: Symbol)
    ensures AnyPromptContains(PromptsOf(props), t) <==> exists j :: 0 <= j < |props| && PromptContains(props[j], t)
  {
    if props != [] {
      var rest := props[1..];
      PromptsContain(rest, t);
      assert forall j :: 0 <= j < |rest| ==> rest[j] == props[j + 1];
      if props[0].kind in {Prompt, Comment, Menu} {
        var tail := PromptsOf(rest);
        var all := [props[0].visible] + tail;
        assert forall k :: 0 <= k < |tail| ==> all[k + 1] == tail[k];
        assert all[0] == props[0].visible;
      }
    }
  }

  lemma {:induction false} DefaultsContain(props: seq<Property>, t: Symbol)
    ensures AnyDefaultContains(DefaultsOf(props), t) <==> exists j :: 0 <= j < |props| && DefaultContains(props[j], t)
  {
    if props != [] {
      var rest := props[1..];
      DefaultsContain(rest, t);
      assert forall j :: 0 <= j < |rest| ==> rest[j] == props[j + 1];
      if props[0].kind == DefaultValue && props[0].value.Some? {
        var tail := DefaultsOf(rest);
        var all := [S.Default(props[0].visible, props[0].value.value)] + tail;
        assert forall k :: 0 <= k < |tail| ==> all[k + 1] == tail[k];
        assert all[0] == S.Default(props[0].visible, props[0].value.value);
      }
    }
  }

  lemma EvaluatedPropFollows(n: Node, p: Property, t: Symbol)
    requires !n.isChoice
    ensures PropFollows(n, if IsEvaluated(p) then p else Property(p.kind, None, None), t)
       <==> PromptContains(p, t) || DefaultContains(p, t)
  {
  }

  /** Without choices the evaluated graph has an edge exactly where the value of a symbol depends on another. */
  lemma EdgeIsDependence(g: Graph, name: Symbol -> string, s: Symbol, t: Symbol)
    requires !g(s).isChoice
    ensures Edge(Evaluated(g), s, t) <==> S.DependsOn(EvalGraph(g, name)(s), t)
  {
    var props := g(s).props;
    var i, n := EvalGraph(g, name)(s), Evaluated(g)(s);
    PromptsContain(props, t);
    DefaultsContain(props, t);
    assert forall k :: 0 <= k < |props| ==>
        (PropFollows(n, n.props[k], t) <==> PromptContains(props[k], t) || DefaultContains(props[k], t)) by {
      forall k | 0 <= k < |props|
        ensures PropFollows(n, n.props[k], t) <==> PromptContains(props[k], t) || DefaultContains(props[k], t)
      {
        EvaluatedPropFollows(n, props[k], t);
      }
    }
    RevDepEdges(g(s).revDep, g(s).revDepInv, t);
    DependsOnParts(i, t);
    hide PropFollows, PromptContains, DefaultContains, PromptsOf, DefaultsOf;
  }

  lemma RevDepEdges(a: Option<Expr>, b: Option<Expr>, t: Symbol)
    ensures OptContains(Either(a, b), t) <==> OptContains(a, t) || OptContains(b, t)
  {
  }

  lemma DependsOnParts(i: S.Info, t: Symbol)
    ensures S.DependsOn(i, t) <==> OptContains(i.revDep, t) || OptContains(i.revDepInv, t)
                                   || AnyPromptContains(i.prompts, t) || AnyDefaultContains(i.defaults, t)
  {
  }

  /** Only symbols of the finite set have dependencies, and those lie in the set. */
  ghost predicate Within(g: Graph, all: set<Symbol>) {
    Closed(g, all) && forall a: Symbol, b: Symbol :: Edge(g, a, b) ==> a in all
  }

  lemma {:induction false} WalkLowersRank(g: Graph, h: S.Graph, rank: Symbol -> nat, p: seq<Symbol>, n: nat)
    requires S.Ranked(h, rank) && Walk(g, p) && 0 < n < |p|
    requires forall s: Symbol, t: Symbol :: Edge(g, s, t) ==> S.DependsOn(h(s), t)
    ensures rank(p[n]) < rank(p[0])
  {
    if n > 1 { WalkLowersRank(g, h, rank, p, n - 1); }
    assert Edge(g, p[n - 1], p[n]);
  }

  ghost predicate CanBeRanked(h: S.Graph) {
    exists rank: Symbol -> nat :: S.Ranked(h, rank)
  }

  lemma RankedIsNotRecursive(g: Graph, name: Symbol -> string, all: set<Symbol>)
    requires forall s: Symbol :: !g(s).isChoice
    requires CanBeRanked(EvalGraph(g, name))
    ensures !Recursive(Evaluated(g), all)
  {
    var h, e := EvalGraph(g, name), Evaluated(g);
    var rank: Symbol -> nat :| S.Ranked(h, rank);
    forall s: Symbol, t: Symbol | Edge(e, s, t) ensures S.DependsOn(h(s), t) {
      EdgeIsDependence(g, name, s, t);
    }
    forall p | Cycle(e, p) ensures false {
      WalkLowersRank(e, h, rank, p, |p| - 1);
    }
  }

  lemma DescentIsRank(g: Graph, name: Symbol -> string, time: map<Symbol, nat>)
    requires forall s: Symbol :: !g(s).isChoice
    requires Descends(Evaluated(g), time)
    requires forall s: Symbol, t: Symbol :: Edge(Evaluated(g), s, t) ==> s in time
    ensures CanBeRanked(EvalGraph(g, name))
  {
    var rank: Symbol -> nat := (s: Symbol) => if s in time then time[s] else 0;
    forall s: Symbol, t: Symbol | S.DependsOn(EvalGraph(g, name)(s), t) ensures rank(t) < rank(s) {
      EdgeIsDependence(g, name, s, t);
    }
    assert S.Ranked(EvalGraph(g, name), rank);
  }

  /** The same sweep over the graph with the deselections decides whether the values can be computed: it is
      silent if and only if the dependencies are ranked. */
  method SweepEvaluated(g: Graph, name: Symbol -> string, order: seq<Symbol>, ghost all: set<Symbol>)
    returns (reported: bool)
    requires forall s: Symbol :: !g(s).isChoice
    requires Within(Evaluated(g), all)
    requires forall s: Symbol :: s in order ==> s in all
    requires forall a: Symbol, b: Symbol :: a in all && Edge(Evaluated(g), a, b) ==> a in order
    ensures reported <==> Recursive(Evaluated(g), all)
    ensures reported <==> !CanBeRanked(EvalGraph(g, name))
  {
    hide Recursive, CanBeRanked, Descends, Edge;
    reported := Sweep(Evaluated(g), order, all);
    if reported {
      if CanBeRanked(EvalGraph(g, name)) { RankedIsNotRecursive(g, name, all); }
    } else {
      ghost var time: map<Symbol, nat> :|
        Descends(Evaluated(g), time) && forall s: Symbol :: s in order ==> s in time;
      DescentIsRank(g, name, time);
    }
  }

  /** A cycle of the evaluation that the search of the program does not see leads through a deselection. */
  lemma UnreportedCycleDeselects(g: Graph, all: set<Symbol>, p: seq<Symbol>) returns (i: nat)
    requires !Recursive(g, all) && Cycle(Evaluated(g), p) && forall s :: s in p ==> s in all
    ensures 0 < i < |p| && OptContains(g(p[i - 1]).revDepInv, p[i])
  {
    if forall k :: 0 < k < |p| ==> Edge(g, p[k - 1], p[k]) {
      assert Cycle(g, p);
      assert false;
    }
    i :| 0 < i < |p| && !Edge(g, p[i - 1], p[i]);
    assert Edge(Evaluated(g), p[i - 1], p[i]);
    EvaluatedEdge(g, p[i - 1], p[i]);
  }

  lemma EvaluatedEdge(g: Graph, a: Symbol, b: Symbol)
    requires Edge(Evaluated(g), a, b)
    ensures Edge(g, a, b) || OptContains(g(a).revDepInv, b)
  {
    var n := Evaluated(g)(a);
    RevDepEdges(g(a).revDep, g(a).revDepInv, b);
    if !OptContains(n.revDep, b) {
      var k :| 0 <= k < |n.props| && PropFollows(n, n.props[k], b);
      assert PropFollows(g(a), g(a).props[k], b);
    }
  }
}
