/** Configurations with choices: what every symbol is worth, choices and members included, as values. */
module ChoiceSpec {
  import T = Tristate
  import opened Options
  import opened Expr
  import opened ExprCompare
  import S = SymbolSpec

  /** A default of a choice: its condition and the member it names. */
  datatype Default = Default(cond: Option<Expr>, member: Symbol)

  /** What a symbol is besides its type: a choice with its defaults and members, a member with its choice and its
      condition besides "the choice is on", or neither. */
  datatype Role =
    | Plain
    | Choice(defaults: seq<Default>, members: seq<Symbol>)
    | Member(choice: Symbol, own: Option<Expr>)

  /** The properties of all symbols, what the user entered for them, and the member the user picked for a choice.
      Symbols outside the table, all constants among them, are never computed. */
  datatype Model = Model(g: S.Graph, u: S.Settings, role: Symbol -> Role, userPick: Symbol -> Option<Symbol>,
                         table: set<Symbol>)
  {
    ghost predicate Valid() {
      && (forall s: Symbol :: s in table ==> s.Config?)
      && (forall s: Symbol :: role(s).Choice? ==> ChoiceFits(s))
      && (forall s: Symbol :: role(s).Member? ==> MemberFits(s))
    }

    ghost predicate ChoiceFits(c: Symbol)
      requires role(c).Choice?
    {
      && c in table && S.IsTri(c)
      && (forall i :: i in role(c).members ==> IsMemberOf(i, c))
      && (forall d :: d in role(c).defaults ==> IsMemberOf(d.member, c))
      && (userPick(c).Some? ==> IsMemberOf(userPick(c).value, c))
    }

    predicate IsMemberOf(i: Symbol, c: Symbol) {
      role(i).Member? && role(i).choice == c
    }

    /** A member has one prompt, whose condition menu_finalize has joined to "the choice is on". */
    ghost predicate MemberFits(i: Symbol)
      requires role(i).Member?
    {
      && i in table && S.IsTri(i)
      && role(role(i).choice).Choice? && i in role(role(i).choice).members
      && g(i).prompts == [Some(MemberPrompt(role(i).choice, role(i).own))]
    }

    /** A boolean choice has boolean members. */
    ghost predicate IsBoolean(c: Symbol) {
      c.Type() == Boolean && forall i: Symbol :: IsMemberOf(i, c) ==> i.Type() == Boolean
    }

    /** Reading a configuration takes the "new" mark off every choice; before that its value is n. */
    predicate PlainlySet(c: Symbol) {
      u(c).isNew ==> u(c).tri == T.No
    }
  }

  function MemberPrompt(choice: Symbol, own: Option<Expr>): Expr {
    if own.None? then Sym(choice) else And(Sym(choice), own.value)
  }

  // ----- one step -----

  /** What each symbol is worth, and the member each choice has. */
  datatype World = World(raw: Symbol -> S.Raw, pick: Symbol -> Option<Symbol>) {
    function Values(): Valuation {
      (s: Symbol) => S.View(s, raw(s))
    }

    function At(s: Symbol): Cell {
      Cell(raw(s), pick(s))
    }
  }

  datatype Cell = Cell(raw: S.Raw, pick: Option<Symbol>)

  /** The values while choice c is y. */
  function Switched(v: Valuation, c: Symbol): Valuation {
    (s: Symbol) => if s == c then Value(T.Yes, "y") else v(s)
  }

  predicate Selectable(m: Model, i: Symbol, v: Valuation) {
    S.Visible(m.g, i, v) != T.No
  }

  function FirstDefault(m: Model, ds: seq<Default>, v: Valuation): Option<Symbol> {
    if ds == [] then None
    else if EvalOpt(ds[0].cond, v) != T.No && Selectable(m, ds[0].member, v) then Some(ds[0].member)
    else FirstDefault(m, ds[1..], v)
  }

  function FirstMember(m: Model, members: seq<Symbol>, v: Valuation): Option<Symbol> {
    if members == [] then None
    else if Selectable(m, members[0], v) then Some(members[0])
    else FirstMember(m, members[1..], v)
  }

  /** The user's member if visible, else the first visible default, else the first visible member. */
  function Picked(m: Model, c: Symbol, v: Valuation): Option<Symbol>
    requires m.role(c).Choice?
  {
    if m.userPick(c).Some? && Selectable(m, m.userPick(c).value, v) then m.userPick(c)
    else
      var d := FirstDefault(m, m.role(c).defaults, v);
      if d.Some? then d else FirstMember(m, m.role(c).members, v)
  }

  /** The tristate of a choice before a member is looked for. */
  function Base(m: Model, c: Symbol, v: Valuation): T.Tri {
    var vis, sel := S.Visible(m.g, c, v), S.Selected(m.g, c, v);
    if S.Deselected(m.g, c, v) || T.Or(vis, sel) == T.No then T.No
    else S.Settle(c, T.Or(T.And(if m.u(c).isNew then T.No else m.u(c).tri, vis), sel))
  }

  /** A choice that is on but has no visible member is reset. */
  function ChoiceCell(m: Model, c: Symbol, v: Valuation): Cell
    requires m.role(c).Choice?
  {
    if Base(m, c, v) != T.Yes then Cell(S.Raw("n", Base(m, c, v)), None)
    else
      var p := Picked(m, c, Switched(v, c));
      Cell(S.Raw("n", if p.None? then T.No else T.Yes), p)
  }

  /** A member whose visibility is y is y or n as picked; otherwise it is a symbol like any other,
      only that selections do not reach it. */
  function MemberTri(m: Model, i: Symbol, v: Valuation, pick: Option<Symbol>): T.Tri {
    var vis := S.Visible(m.g, i, v);
    if vis == T.Yes then T.FromBool(pick == Some(i))
    else if S.Deselected(m.g, i, v) then T.No
    else if vis != T.No then S.Settle(i, T.And(S.WantedTri(m.g, m.u, i, v), vis))
    else S.Settle(i, S.DefaultTri(m.g, i, v))
  }

  function Step(m: Model, s: Symbol, w: World): Cell {
    match m.role(s)
    case Plain => Cell(S.Step(m.g, m.u, s, w.Values()), None)
    case Member(c, _) => Cell(S.Raw("n", MemberTri(m, s, w.Values(), w.pick(c))), None)
    case Choice(_, _) => ChoiceCell(m, s, w.Values())
  }

  // ----- what a symbol depends on -----

  function OptExprs(e: Option<Expr>): seq<Expr> {
    if e.None? then [] else [e.value]
  }

  function AllExprs(es: seq<Option<Expr>>): seq<Expr> {
    if es == [] then [] else OptExprs(es[0]) + AllExprs(es[1..])
  }

  function DefaultExprs(ds: seq<S.Default>): seq<Expr> {
    if ds == [] then [] else OptExprs(ds[0].cond) + [ds[0].value] + DefaultExprs(ds[1..])
  }

  /** The conditions of the prompts and of the selections. */
  function PromptExprs(i: S.Info): seq<Expr> {
    AllExprs(i.prompts) + OptExprs(i.revDep) + OptExprs(i.revDepInv)
  }

  function ConditionExprs(ds: seq<Default>): seq<Expr> {
    if ds == [] then [] else OptExprs(ds[0].cond) + ConditionExprs(ds[1..])
  }

  /** What the visibility of a member depends on besides the choice. */
  function OwnExprs(m: Model, i: Symbol): seq<Expr> {
    (if m.role(i).Member? then OptExprs(m.role(i).own) else []) + OptExprs(m.g(i).revDepInv)
  }

  function MembersExprs(m: Model, members: seq<Symbol>): seq<Expr> {
    if members == [] then [] else OwnExprs(m, members[0]) + MembersExprs(m, members[1..])
  }

  /** What a choice looks at to find its member. */
  function LookExprs(m: Model, c: Symbol): seq<Expr>
    requires m.role(c).Choice?
  {
    ConditionExprs(m.role(c).defaults) + MembersExprs(m, m.role(c).members)
  }

  /** All that the value of a symbol may depend on. */
  function ReadExprs(m: Model, s: Symbol): seq<Expr> {
    match m.role(s)
    case Plain => PromptExprs(m.g(s)) + DefaultExprs(m.g(s).defaults)
    case Member(c, _) => [Sym(c)] + OwnExprs(m, s) + DefaultExprs(m.g(s).defaults)
    case Choice(_, _) => PromptExprs(m.g(s)) + LookExprs(m, s)
  }

  predicate Names(es: seq<Expr>, t: Symbol) {
    exists k :: 0 <= k < |es| && ContainsSymbol(es[k], t)
  }

  predicate Reads(m: Model, s: Symbol, t: Symbol) {
    Names(ReadExprs(m, s), t)
  }

  /** No symbol of the table depends on itself through any chain of symbols: neither a member through its choice
      on itself, nor a choice on its members. */
  ghost predicate Ranked(m: Model, rank: Symbol -> nat) {
    forall s: Symbol, t: Symbol :: s in m.table && t in m.table && Reads(m, s, t) ==> rank(t) < rank(s)
  }

  lemma NamesJoin(a: seq<Expr>, b: seq<Expr>, t: Symbol)
    ensures Names(a + b, t) <==> Names(a, t) || Names(b, t)
  {
    assert forall k :: 0 <= k < |a| ==> (a + b)[k] == a[k];
    assert forall k :: 0 <= k < |b| ==> (a + b)[|a| + k] == b[k];
    if k :| 0 <= k < |a + b| && ContainsSymbol((a + b)[k], t) {
      if k >= |a| { assert ContainsSymbol(b[k - |a|], t); }
    }
  }

  lemma NamesOpt(e: Option<Expr>, t: Symbol)
    ensures Names(OptExprs(e), t) <==> S.OptContains(e, t)
  {
    if e.Some? { assert OptExprs(e)[0] == e.value; }
  }

  lemma NamesOne(e: Expr, t: Symbol)
    ensures Names([e], t) <==> ContainsSymbol(e, t)
  {
    assert [e][0] == e;
  }

  lemma {:induction false} NamesAll(es: seq<Option<Expr>>, k: nat, t: Symbol)
    requires k < |es| && S.OptContains(es[k], t)
    ensures Names(AllExprs(es), t)
  {
    NamesJoin(OptExprs(es[0]), AllExprs(es[1..]), t);
    if k == 0 { NamesOpt(es[0], t); } else { NamesAll(es[1..], k - 1, t); }
  }

  lemma {:induction false} NamesMember(m: Model, members: seq<Symbol>, k: nat, t: Symbol)
    requires k < |members| && Names(OwnExprs(m, members[k]), t)
    ensures Names(MembersExprs(m, members), t)
  {
    NamesJoin(OwnExprs(m, members[0]), MembersExprs(m, members[1..]), t);
    if k > 0 { NamesMember(m, members[1..], k - 1, t); }
  }

  // ----- a step looks at nothing but what it reads -----

  ghost predicate AgreeOn(es: seq<Expr>, v: Valuation, w: Valuation) {
    forall t: Symbol :: Names(es, t) ==> v(t) == w(t)
  }

  lemma AgreeJoin(a: seq<Expr>, b: seq<Expr>, v: Valuation, w: Valuation)
    ensures AgreeOn(a + b, v, w) <==> AgreeOn(a, v, w) && AgreeOn(b, v, w)
  {
    forall t: Symbol ensures Names(a + b, t) <==> Names(a, t) || Names(b, t) { NamesJoin(a, b, t); }
  }

  lemma OptAgrees(e: Option<Expr>, v: Valuation, w: Valuation)
    requires AgreeOn(OptExprs(e), v, w)
    ensures EvalOpt(e, v) == EvalOpt(e, w)
  {
    forall t: Symbol ensures S.OptContains(e, t) ==> v(t) == w(t) { NamesOpt(e, t); }
    S.EvalOptAgrees(e, v, w);
  }

  lemma OneAgrees(e: Expr, v: Valuation, w: Valuation)
    requires AgreeOn([e], v, w)
    ensures Eval(e, v) == Eval(e, w)
  {
    forall t: Symbol ensures ContainsSymbol(e, t) ==> v(t) == w(t) { NamesOne(e, t); }
    S.EvalAgrees(e, v, w);
  }

  lemma {:induction false} PromptsAgree(ps: seq<Option<Expr>>, v: Valuation, w: Valuation)
    requires AgreeOn(AllExprs(ps), v, w)
    ensures S.AnyPrompt(ps, v) == S.AnyPrompt(ps, w)
  {
    forall k, t: Symbol | 0 <= k < |ps| && S.OptContains(ps[k], t) ensures v(t) == w(t) { NamesAll(ps, k, t); }
    S.AnyPromptAgrees(ps, v, w);
  }

  lemma SelectionAgrees(g: S.Graph, s: Symbol, v: Valuation, w: Valuation)
    requires AgreeOn(PromptExprs(g(s)), v, w)
    ensures S.Visible(g, s, v) == S.Visible(g, s, w) && S.Selected(g, s, v) == S.Selected(g, s, w)
    ensures S.Deselected(g, s, v) == S.Deselected(g, s, w)
  {
    var i := g(s);
    AgreeJoin(AllExprs(i.prompts) + OptExprs(i.revDep), OptExprs(i.revDepInv), v, w);
    AgreeJoin(AllExprs(i.prompts), OptExprs(i.revDep), v, w);
    PromptsAgree(i.prompts, v, w);
    OptAgrees(i.revDep, v, w);
    OptAgrees(i.revDepInv, v, w);
    hide S.AnyPrompt, Eval;
  }

  lemma {:induction false} DefaultsAgree(ds: seq<S.Default>, v: Valuation, w: Valuation)
    requires AgreeOn(DefaultExprs(ds), v, w)
    ensures var p, q := S.FirstDefault(ds, v), S.FirstDefault(ds, w);
      && p == q && (p.Some? ==> Eval(p.value.value, v) == Eval(p.value.value, w))
      && (p.Some? && p.value.value.Sym? ==> v(p.value.value.sym) == w(p.value.value.sym))
  {
    if ds != [] {
      AgreeJoin(OptExprs(ds[0].cond) + [ds[0].value], DefaultExprs(ds[1..]), v, w);
      AgreeJoin(OptExprs(ds[0].cond), [ds[0].value], v, w);
      OptAgrees(ds[0].cond, v, w);
      OneAgrees(ds[0].value, v, w);
      if ds[0].value.Sym? { NamesOne(ds[0].value, ds[0].value.sym); }
      DefaultsAgree(ds[1..], v, w);
      hide Eval;
    }
  }

  lemma PlainAgrees(m: Model, s: Symbol, v: Valuation, w: Valuation)
    requires AgreeOn(PromptExprs(m.g(s)) + DefaultExprs(m.g(s).defaults), v, w)
    ensures S.Step(m.g, m.u, s, v) == S.Step(m.g, m.u, s, w)
  {
    AgreeJoin(PromptExprs(m.g(s)), DefaultExprs(m.g(s).defaults), v, w);
    SelectionAgrees(m.g, s, v, w);
    DefaultsAgree(m.g(s).defaults, v, w);
    hide S.AnyPrompt, S.FirstDefault, Eval, AgreeOn, S.Visible, S.Selected, S.Deselected;
  }

  /** The visibility of a member depends on its choice and on what it names itself. */
  lemma CandidateAgrees(m: Model, i: Symbol, v: Valuation, w: Valuation)
    requires m.Valid() && m.role(i).Member?
    requires AgreeOn(OwnExprs(m, i), v, w) && v(m.role(i).choice) == w(m.role(i).choice)
    ensures S.Visible(m.g, i, v) == S.Visible(m.g, i, w) && S.Deselected(m.g, i, v) == S.Deselected(m.g, i, w)
  {
    var c, own := m.role(i).choice, m.role(i).own;
    AgreeJoin(OptExprs(own), OptExprs(m.g(i).revDepInv), v, w);
    OptAgrees(own, v, w);
    OptAgrees(m.g(i).revDepInv, v, w);
    MemberVisibility(m, i, v);
    MemberVisibility(m, i, w);
    hide Eval, S.AnyPrompt, AgreeOn;
  }

  function Visibility(i: Symbol, choice: T.Tri, own: T.Tri, deselected: bool): T.Tri {
    if deselected then T.No
    else if T.And(choice, own) == T.Mod && i.Type() != Tristate then T.Yes
    else T.And(choice, own)
  }

  /** A member is visible while the choice is on and its own condition holds. */
  lemma MemberVisibility(m: Model, i: Symbol, v: Valuation)
    requires m.Valid() && m.role(i).Member?
    ensures S.Visible(m.g, i, v)
         == Visibility(i, v(m.role(i).choice).tri, EvalOpt(m.role(i).own, v), S.Deselected(m.g, i, v))
  {
    assert m.MemberFits(i);
    var e := MemberPrompt(m.role(i).choice, m.role(i).own);
    var t := T.And(v(m.role(i).choice).tri, EvalOpt(m.role(i).own, v));
    assert Eval(e, v) == t;
    OnePrompt(e, v);
    assert S.AnyPrompt(m.g(i).prompts, v) == t;
    hide Eval, S.AnyPrompt, Model.Valid, Model.MemberFits;
  }

  lemma OnePrompt(e: Expr, v: Valuation)
    ensures S.AnyPrompt([Some(e)], v) == Eval(e, v)
  {
    var ps := [Some(e)];
    assert ps[..|ps| - 1] == [];
    assert ps[|ps| - 1] == Some(e);
    assert S.AnyPrompt(ps, v) == T.Or(S.AnyPrompt(ps[..|ps| - 1], v), EvalOpt(ps[|ps| - 1], v));
  }

  lemma {:induction false} FirstMemberAgrees(m: Model, c: Symbol, members: seq<Symbol>, v: Valuation, w: Valuation)
    requires m.Valid() && m.role(c).Choice? && (forall i :: i in members ==> m.IsMemberOf(i, c)) && v(c) == w(c)
    requires AgreeOn(MembersExprs(m, members), v, w)
    ensures FirstMember(m, members, v) == FirstMember(m, members, w)
  {
    if members != [] {
      AgreeJoin(OwnExprs(m, members[0]), MembersExprs(m, members[1..]), v, w);
      assert members[0] in members;
      CandidateAgrees(m, members[0], v, w);
      FirstMemberAgrees(m, c, members[1..], v, w);
      hide S.Visible;
    }
  }

  /** One of the members agrees if all of them do. */
  lemma MemberAmong(m: Model, c: Symbol, i: Symbol, v: Valuation, w: Valuation)
    requires m.Valid() && m.role(c).Choice? && m.IsMemberOf(i, c)
    requires AgreeOn(MembersExprs(m, m.role(c).members), v, w)
    ensures AgreeOn(OwnExprs(m, i), v, w)
  {
    assert m.MemberFits(i);
    var members := m.role(c).members;
    var k :| 0 <= k < |members| && members[k] == i;
    forall t: Symbol | Names(OwnExprs(m, i), t) ensures v(t) == w(t) { NamesMember(m, members, k, t); }
  }

  lemma {:induction false} FirstDefaultAgrees(m: Model, c: Symbol, ds: seq<Default>, v: Valuation, w: Valuation)
    requires m.Valid() && m.role(c).Choice? && (forall d :: d in ds ==> m.IsMemberOf(d.member, c)) && v(c) == w(c)
    requires AgreeOn(ConditionExprs(ds), v, w) && AgreeOn(MembersExprs(m, m.role(c).members), v, w)
    ensures FirstDefault(m, ds, v) == FirstDefault(m, ds, w)
  {
    if ds != [] {
      AgreeJoin(OptExprs(ds[0].cond), ConditionExprs(ds[1..]), v, w);
      assert ds[0] in ds;
      OptAgrees(ds[0].cond, v, w);
      MemberAmong(m, c, ds[0].member, v, w);
      CandidateAgrees(m, ds[0].member, v, w);
      FirstDefaultAgrees(m, c, ds[1..], v, w);
      hide S.Visible, Eval;
    }
  }

  lemma PickedAgrees(m: Model, c: Symbol, v: Valuation, w: Valuation)
    requires m.Valid() && m.role(c).Choice? && AgreeOn(LookExprs(m, c), v, w) && v(c) == w(c)
    ensures Picked(m, c, v) == Picked(m, c, w)
  {
    assert m.ChoiceFits(c);
    AgreeJoin(ConditionExprs(m.role(c).defaults), MembersExprs(m, m.role(c).members), v, w);
    FirstDefaultAgrees(m, c, m.role(c).defaults, v, w);
    FirstMemberAgrees(m, c, m.role(c).members, v, w);
    if m.userPick(c).Some? {
      MemberAmong(m, c, m.userPick(c).value, v, w);
      CandidateAgrees(m, m.userPick(c).value, v, w);
    }
    hide S.Visible;
  }

  lemma ChoiceAgrees(m: Model, c: Symbol, v: Valuation, w: Valuation)
    requires m.Valid() && m.role(c).Choice? && AgreeOn(ReadExprs(m, c), v, w)
    ensures ChoiceCell(m, c, v) == ChoiceCell(m, c, w)
  {
    AgreeJoin(PromptExprs(m.g(c)), LookExprs(m, c), v, w);
    SelectionAgrees(m.g, c, v, w);
    assert AgreeOn(LookExprs(m, c), Switched(v, c), Switched(w, c));
    PickedAgrees(m, c, Switched(v, c), Switched(w, c));
    hide Picked, S.Visible, S.Selected, S.Deselected;
  }

  lemma MemberAgrees(m: Model, i: Symbol, v: Valuation, w: Valuation, pick: Option<Symbol>)
    requires m.Valid() && m.role(i).Member? && AgreeOn(ReadExprs(m, i), v, w)
    ensures MemberTri(m, i, v, pick) == MemberTri(m, i, w, pick)
  {
    var c := m.role(i).choice;
    AgreeJoin([Sym(c)] + OwnExprs(m, i), DefaultExprs(m.g(i).defaults), v, w);
    AgreeJoin([Sym(c)], OwnExprs(m, i), v, w);
    NamesOne(Sym(c), c);
    CandidateAgrees(m, i, v, w);
    DefaultsAgree(m.g(i).defaults, v, w);
    hide S.Visible, S.Deselected, S.FirstDefault, Eval;
  }

  /** A step is settled by the cells of the symbols that are read. */
  lemma StepAgrees(m: Model, s: Symbol, w: World, x: World)
    requires m.Valid() && forall t: Symbol :: Reads(m, s, t) ==> w.At(t) == x.At(t)
    ensures Step(m, s, w) == Step(m, s, x)
  {
    var v, v' := w.Values(), x.Values();
    forall t: Symbol | Reads(m, s, t) ensures v(t) == v'(t) { assert w.At(t) == x.At(t); }
    assert AgreeOn(ReadExprs(m, s), v, v');
    match m.role(s)
    case Plain => PlainAgrees(m, s, v, v');
    case Choice(_, _) => ChoiceAgrees(m, s, v, v');
    case Member(c, _) =>
      ReadsItsChoice(m, s);
      assert w.At(c) == x.At(c);
      MemberAgrees(m, s, v, v', w.pick(c));
  }

  lemma ReadsItsChoice(m: Model, i: Symbol)
    requires m.role(i).Member?
    ensures Reads(m, i, m.role(i).choice)
  {
    var c := m.role(i).choice;
    NamesJoin([Sym(c)] + OwnExprs(m, i), DefaultExprs(m.g(i).defaults), c);
    NamesJoin([Sym(c)], OwnExprs(m, i), c);
    NamesOne(Sym(c), c);
  }

  // ----- the values of all symbols -----

  /** Literals, quoted constants and names that are declared nowhere are not computed. */
  function Constant(m: Model, s: Symbol): Cell {
    match s
    case ConstYes => Cell(S.Raw("y", T.Yes), None)
    case ConstMod => Cell(S.Raw("m", T.Mod), None)
    case ConstNo => Cell(S.Raw("n", T.No), None)
    case Quoted(text) => Cell(S.Raw(text, T.No), None)
    case Config(_, _) => Cell(S.Raw(m.g(s).name, T.No), None)
  }

  function Constants(m: Model): World {
    World((s: Symbol) => Constant(m, s).raw, (s: Symbol) => Constant(m, s).pick)
  }

  ghost function Outside(m: Model): iset<Symbol> {
    iset s: Symbol | s !in m.table
  }

  /** Every symbol has what its step makes of the values of all. */
  ghost predicate Solution(m: Model, w: World) {
    forall s: Symbol :: w.At(s) == if s in m.table then Step(m, s, w) else Constant(m, s)
  }

  /** The world in which the frozen symbols are what base says and each other one is what its step makes of the
      symbols of lower rank. */
  ghost function Solve(m: Model, rank: Symbol -> nat, frozen: iset<Symbol>, base: World): World {
    World((s: Symbol) => SolvedCell(m, rank, frozen, base, s).raw,
          (s: Symbol) => SolvedCell(m, rank, frozen, base, s).pick)
  }

  ghost function SolvedCell(m: Model, rank: Symbol -> nat, frozen: iset<Symbol>, base: World, s: Symbol): Cell
    decreases rank(s)
  {
    if s in frozen then base.At(s) else Step(m, s, SolvedBelow(m, rank, frozen, base, rank(s)))
  }

  ghost function SolvedBelow(m: Model, rank: Symbol -> nat, frozen: iset<Symbol>, base: World, n: nat): World
    decreases n, 0
  {
    World((s: Symbol) => if rank(s) < n then SolvedCell(m, rank, frozen, base, s).raw else base.raw(s),
          (s: Symbol) => if rank(s) < n then SolvedCell(m, rank, frozen, base, s).pick else base.pick(s))
  }

  lemma SolvedIsStep(m: Model, rank: Symbol -> nat, frozen: iset<Symbol>, base: World, s: Symbol)
    requires m.Valid() && s !in frozen
    requires forall t: Symbol :: Reads(m, s, t) ==> t in frozen || rank(t) < rank(s)
    ensures var w := Solve(m, rank, frozen, base); w.At(s) == Step(m, s, w)
  {
    var w, x := Solve(m, rank, frozen, base), SolvedBelow(m, rank, frozen, base, rank(s));
    forall t: Symbol | Reads(m, s, t) ensures x.At(t) == w.At(t) {
      hide Step;
    }
    StepAgrees(m, s, x, w);
  }

  ghost function Values(m: Model, rank: Symbol -> nat): World {
    Solve(m, rank, Outside(m), Constants(m))
  }

  lemma ValuesAreSolution(m: Model, rank: Symbol -> nat)
    requires m.Valid() && Ranked(m, rank)
    ensures Solution(m, Values(m, rank))
  {
    var w := Values(m, rank);
    forall s: Symbol ensures w.At(s) == if s in m.table then Step(m, s, w) else Constant(m, s) {
      if s in m.table { SolvedIsStep(m, rank, Outside(m), Constants(m), s); }
    }
  }

  /** Without cycles there is one solution only. */
  lemma {:induction false} SolutionIsUnique(m: Model, rank: Symbol -> nat, w: World, s: Symbol)
    requires m.Valid() && Ranked(m, rank) && Solution(m, w)
    ensures w.At(s) == Values(m, rank).At(s)
    decreases rank(s)
  {
    var x := Values(m, rank);
    ValuesAreSolution(m, rank);
    if s in m.table {
      forall t: Symbol | Reads(m, s, t) ensures w.At(t) == x.At(t) {
        if t in m.table { SolutionIsUnique(m, rank, w, t); }
      }
      StepAgrees(m, s, w, x);
    }
  }

  // ----- what the values of a choice and its members are like -----

  lemma {:induction false} FirstMemberFinds(m: Model, members: seq<Symbol>, i: Symbol, v: Valuation)
    ensures i in members && Selectable(m, i, v) ==> FirstMember(m, members, v).Some?
    ensures var p := FirstMember(m, members, v); p.Some? ==> p.value in members && Selectable(m, p.value, v)
  {
    if members != [] { FirstMemberFinds(m, members[1..], i, v); }
  }

  lemma {:induction false} FirstDefaultIsSelectable(m: Model, ds: seq<Default>, v: Valuation)
    ensures var p := FirstDefault(m, ds, v);
      p.Some? ==> Selectable(m, p.value, v) && exists d :: d in ds && d.member == p.value
  {
    if ds != [] {
      FirstDefaultIsSelectable(m, ds[1..], v);
      assert ds[0] in ds;
    }
  }

  /** A member is picked exactly when some member can be, and the picked one can. */
  lemma PickedIffSelectable(m: Model, c: Symbol, v: Valuation)
    requires m.Valid() && m.role(c).Choice?
    ensures var p := Picked(m, c, v);
      && (p.Some? <==> exists i: Symbol :: m.IsMemberOf(i, c) && Selectable(m, i, v))
      && (p.Some? ==> m.IsMemberOf(p.value, c) && Selectable(m, p.value, v))
  {
    assert m.ChoiceFits(c);
    FirstDefaultIsSelectable(m, m.role(c).defaults, v);
    hide S.Visible;
    FirstMemberFinds(m, m.role(c).members, c, v);
    forall i: Symbol | m.IsMemberOf(i, c) && Selectable(m, i, v) ensures Picked(m, c, v).Some? {
      assert m.MemberFits(i);
      FirstMemberFinds(m, m.role(c).members, i, v);
    }
  }

  predicate VisibleAndYes(m: Model, i: Symbol, w: World) {
    S.Visible(m.g, i, w.Values()) != T.No && w.raw(i).tri == T.Yes
  }

  /** A choice that is y has picked a member under the values it has itself; no other choice has one. */
  lemma ChoiceHasPicked(m: Model, c: Symbol, w: World)
    requires m.Valid() && m.role(c).Choice? && Solution(m, w)
    ensures w.raw(c).tri == T.Yes ==> w.pick(c).Some? && w.pick(c) == Picked(m, c, w.Values())
    ensures w.raw(c).tri != T.Yes ==> w.pick(c) == None
  {
    var v := w.Values();
    assert m.ChoiceFits(c) && w.At(c) == ChoiceCell(m, c, v);
    hide Picked, Base;
    if w.raw(c).tri == T.Yes {
      assert Switched(v, c)(c) == v(c);
      PickedAgrees(m, c, Switched(v, c), v);
    }
  }

  lemma MemberHasTri(m: Model, i: Symbol, w: World)
    requires m.Valid() && m.role(i).Member? && Solution(m, w)
    ensures w.raw(i).tri == MemberTri(m, i, w.Values(), w.pick(m.role(i).choice))
  {
    assert m.MemberFits(i) && w.At(i) == Step(m, i, w);
    hide MemberTri;
  }

  /** A member is visible at most at the value of its choice, as its own type takes it. */
  lemma MemberVisibleBelow(m: Model, c: Symbol, i: Symbol, v: Valuation)
    requires m.Valid() && m.IsMemberOf(i, c)
    ensures v(c).tri == T.No ==> S.Visible(m.g, i, v) == T.No
    ensures i.Type() == Tristate ==> S.Visible(m.g, i, v).AtMost(v(c).tri)
    ensures i.Type() == Boolean ==> S.Visible(m.g, i, v) in {T.No, T.Yes}
  {
    MemberVisibility(m, i, v);
    hide S.Visible, S.Deselected, EvalOpt;
  }

  /** In a choice that is y, no visible member but the picked one is y. */
  lemma AtMostThePickedIsYes(m: Model, c: Symbol, i: Symbol, w: World)
    requires m.Valid() && m.role(c).Choice? && m.IsMemberOf(i, c) && Solution(m, w)
    requires w.raw(c).tri == T.Yes && VisibleAndYes(m, i, w)
    ensures w.pick(c) == Some(i)
  {
    MemberHasTri(m, i, w);
    MemberVisibleBelow(m, c, i, w.Values());
    assert m.MemberFits(i);
    hide S.Visible, S.Deselected, S.WantedTri, S.DefaultTri, Model.MemberFits;
  }

  /** The picked member is y exactly when its visibility is y. */
  lemma PickedIsYesIff(m: Model, c: Symbol, w: World)
    requires m.Valid() && m.role(c).Choice? && Solution(m, w) && w.raw(c).tri == T.Yes
    ensures w.pick(c).Some? && m.IsMemberOf(w.pick(c).value, c)
    ensures VisibleAndYes(m, w.pick(c).value, w) <==> S.Visible(m.g, w.pick(c).value, w.Values()) == T.Yes
  {
    ChoiceHasPicked(m, c, w);
    PickedIffSelectable(m, c, w.Values());
    var p := w.pick(c).value;
    MemberHasTri(m, p, w);
    MemberVisibleBelow(m, c, p, w.Values());
    assert m.MemberFits(p);
    hide S.Visible, S.Deselected, S.WantedTri, S.DefaultTri, Model.MemberFits, Picked;
  }

  /** Whenever a boolean choice is y, exactly one member is visible and y: the one that is picked. */
  lemma ExactlyThePickedIsYes(m: Model, c: Symbol, i: Symbol, w: World)
    requires m.Valid() && m.role(c).Choice? && m.IsBoolean(c) && m.IsMemberOf(i, c) && Solution(m, w)
    requires w.raw(c).tri == T.Yes
    ensures VisibleAndYes(m, i, w) <==> w.pick(c) == Some(i)
    ensures w.pick(c).Some? && m.IsMemberOf(w.pick(c).value, c) && VisibleAndYes(m, w.pick(c).value, w)
  {
    ChoiceHasPicked(m, c, w);
    PickedIffSelectable(m, c, w.Values());
    PickedIsYesIff(m, c, w);
    MemberVisibleBelow(m, c, w.pick(c).value, w.Values());
    hide VisibleAndYes, Picked, S.Visible, Solution;
    if VisibleAndYes(m, i, w) { AtMostThePickedIsYes(m, c, i, w); }
  }

  /** A choice that is not y picks nothing, and no visible member is y. */
  lemma NothingPickedOtherwise(m: Model, c: Symbol, i: Symbol, w: World)
    requires m.Valid() && m.role(c).Choice? && m.IsMemberOf(i, c) && Solution(m, w)
    requires w.raw(c).tri != T.Yes
    ensures w.pick(c) == None && !VisibleAndYes(m, i, w)
  {
    ChoiceHasPicked(m, c, w);
    MemberHasTri(m, i, w);
    assert m.ChoiceFits(c) && w.At(c) == ChoiceCell(m, c, w.Values());
    MemberVisibleBelow(m, c, i, w.Values());
    hide S.Visible, S.Deselected, S.WantedTri, S.DefaultTri, Picked;
  }
}
