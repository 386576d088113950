/** sym_calc_value over a configuration with choices, call by call: what is marked valid, what is still stale. */
module ChoiceRun {
  import T = Tristate
  import opened Options
  import opened Expr
  import opened ExprCompare
  import opened ChoiceSpec
  import S = SymbolSpec

  /** SYMBOL_VALID, curr, visible and rev_dep.tri of all symbols. What is not valid may hold anything from
      earlier evaluations. */
  datatype St = St(valid: set<Symbol>, curr: map<Symbol, Cell>, vis: map<Symbol, T.Tri>, sel: map<Symbol, T.Tri>)
  {
    function Held(s: Symbol): Cell {
      if s in curr then curr[s] else Cell(S.Raw("", T.No), None)
    }

    function VisOf(s: Symbol): T.Tri {
      if s in vis then vis[s] else T.No
    }

    function SelOf(s: Symbol): T.Tri {
      if s in sel then sel[s] else T.No
    }

    function Mark(s: Symbol): St {
      this.(valid := valid + {s})
    }

    function Put(s: Symbol, c: Cell): St {
      this.(curr := curr[s := c])
    }
  }

  predicate IsValid(m: Model, st: St, s: Symbol) {
    s !in m.table || s in st.valid
  }

  ghost function ValidNow(m: Model, st: St): iset<Symbol> {
    iset s: Symbol | IsValid(m, st, s)
  }

  function CellOf(m: Model, st: St, s: Symbol): Cell {
    if s in m.table then st.Held(s) else Constant(m, s)
  }

  /** What the symbols are worth at the moment. */
  function Now(m: Model, st: St): World {
    World((s: Symbol) => CellOf(m, st, s).raw, (s: Symbol) => CellOf(m, st, s).pick)
  }

  datatype Got = Got(tri: T.Tri, st: St)

  datatype Text = Text(text: string, st: St)

  datatype Look = Look(vis: T.Tri, sel: T.Tri, st: St)

  datatype Pick = Pick(member: Option<Symbol>, st: St)

  /** What is valid stays so and keeps its value. */
  predicate Grows(s: St, t: St) {
    s.valid <= t.valid && forall x :: x in s.valid ==> t.Held(x) == s.Held(x)
  }

  /** Nobody looks at the visibility of the symbol again: it is valid, and its choice as well if it has one. */
  predicate Steady(m: Model, st: St, x: Symbol) {
    x in st.valid && (m.role(x).Member? ==> m.role(x).choice in st.valid)
  }

  /** What is steady keeps its visibility. */
  ghost predicate Calm(m: Model, s: St, t: St) {
    forall x :: Steady(m, s, x) ==> t.VisOf(x) == s.VisOf(x)
  }

  predicate HasValue(s: Symbol) {
    s.Type() !in {Unknown, Other}
  }

  /** The value a cyclic request sees. */
  function Blank(s: Symbol): Cell {
    Cell(S.Raw(if S.IsTri(s) then "n" else "", T.No), None)
  }

  /** sym_calc_value: marked valid before anything is computed; the old value shows until the visibility is known. */
  function CalcSym(m: Model, s: Symbol, st: St): (r: St)
    requires m.Valid()
    ensures Grows(st, r) && Calm(m, st, r) && IsValid(m, r, s)
    decreases m.table - st.valid, 0
  {
    if IsValid(m, st, s) then st
    else if !HasValue(s) then st.Mark(s).Put(s, Cell(S.Raw(m.g(s).name, T.No), None))
    else
      var u := st.Mark(s);
      var l := CalcVisibility(m, s, u);
      var t := l.st.Put(s, Blank(s));
      assert forall x :: Steady(m, st, x) ==> x != s && Steady(m, u, x) && u.VisOf(x) == st.VisOf(x);
      assert forall x :: Steady(m, u, x) && x != s ==> Steady(m, t, x) && t.VisOf(x) == u.VisOf(x);
      var r := Compute(m, s, l.vis, l.sel, t);
      assert forall x :: Steady(m, st, x) ==> !m.IsMemberOf(x, s) && r.VisOf(x) == t.VisOf(x);
      r
  }

  /** The rest of sym_calc_value, by the type of the symbol and what it is. */
  function Compute(m: Model, s: Symbol, vis: T.Tri, sel: T.Tri, st: St): (r: St)
    requires m.Valid() && s in st.valid
    ensures st.valid <= r.valid && forall x :: x in st.valid && x != s ==> r.Held(x) == st.Held(x)
    ensures forall x :: Steady(m, st, x) && !m.IsMemberOf(x, s) ==> r.VisOf(x) == st.VisOf(x)
    decreases m.table - st.valid, 8
  {
    if !S.IsTri(s) then
      var x := CalcText(m, s, vis, st);
      x.st.Put(s, Cell(S.Raw(x.text, T.No), None))
    else
      var x := CalcTri(m, s, vis, sel, st);
      var t := x.st.Put(s, Cell(S.Raw("n", x.tri), None));
      if !m.role(s).Choice? || x.tri != T.Yes then t
      else
        var p := CalcPick(m, s, t);
        p.st.Put(s, Cell(S.Raw("n", if p.member.None? then T.No else T.Yes), p.member))
  }

  /** expr_calc_value: both operands are always evaluated. */
  function CalcExpr(m: Model, e: Expr, st: St): (r: Got)
    requires m.Valid()
    ensures Grows(st, r.st) && Calm(m, st, r.st)
    decreases m.table - st.valid, 1, e
  {
    match e
    case Sym(s) =>
      var t := CalcSym(m, s, st);
      Got(CellOf(m, t, s).raw.tri, t)
    case Not(a) =>
      var x := CalcExpr(m, a, st);
      Got(T.Not(x.tri), x.st)
    case And(l, r) =>
      var x := CalcExpr(m, l, st);
      var y := CalcExpr(m, r, x.st);
      Got(T.And(x.tri, y.tri), y.st)
    case Or(l, r) =>
      var x := CalcExpr(m, l, st);
      var y := CalcExpr(m, r, x.st);
      Got(T.Or(x.tri, y.tri), y.st)
    case Equal(a, b) =>
      var t := CalcSym(m, b, CalcSym(m, a, st));
      Got(T.FromBool(Now(m, t).Values()(a).text == Now(m, t).Values()(b).text), t)
    case Unequal(a, b) =>
      var t := CalcSym(m, b, CalcSym(m, a, st));
      Got(T.FromBool(Now(m, t).Values()(a).text != Now(m, t).Values()(b).text), t)
  }

  function CalcOpt(m: Model, e: Option<Expr>, none: T.Tri, st: St): (r: Got)
    requires m.Valid()
    ensures Grows(st, r.st) && Calm(m, st, r.st)
    decreases m.table - st.valid, 2
  {
    if e.None? then Got(none, st) else CalcExpr(m, e.value, st)
  }

  /** Is any prompt visible? */
  function CalcPrompts(m: Model, prompts: seq<Option<Expr>>, st: St): (r: Got)
    requires m.Valid()
    ensures Grows(st, r.st) && Calm(m, st, r.st)
    decreases m.table - st.valid, 3, |prompts|
  {
    if prompts == [] then Got(T.No, st)
    else
      var x := CalcPrompts(m, prompts[..|prompts| - 1], st);
      var y := CalcOpt(m, prompts[|prompts| - 1], T.Yes, x.st);
      Got(T.Or(x.tri, y.tri), y.st)
  }

  /** sym_calc_visibility: selections do not reach members, nor what is deselected. */
  function CalcVisibility(m: Model, s: Symbol, st: St): (r: Look)
    requires m.Valid()
    ensures Grows(st, r.st)
    ensures forall x :: Steady(m, st, x) && x != s ==> r.st.VisOf(x) == st.VisOf(x)
    decreases m.table - st.valid, 4
  {
    var p := CalcPrompts(m, m.g(s).prompts, st);
    var d := CalcOpt(m, m.g(s).revDepInv, T.No, p.st);
    var vis := if d.tri == T.Yes then T.No else if p.tri == T.Mod && s.Type() != Tristate then T.Yes else p.tri;
    var t := d.st.(vis := d.st.vis[s := vis]);
    if m.role(s).Member? then Look(vis, T.No, t)
    else if d.tri == T.Yes then Look(vis, t.SelOf(s), t)
    else
      assert forall y :: Steady(m, st, y) && y != s ==> Steady(m, t, y) && t.VisOf(y) == st.VisOf(y);
      var x := CalcOpt(m, m.g(s).revDep, T.No, t);
      var sel := S.Settle(s, x.tri);
      Look(vis, sel, x.st.(sel := x.st.sel[s := sel]))
  }

  /** sym_get_default_prop, and the value of that default. */
  function CalcDefault(m: Model, defaults: seq<S.Default>, st: St): (r: Got)
    requires m.Valid()
    ensures Grows(st, r.st) && Calm(m, st, r.st)
    decreases m.table - st.valid, 3, |defaults|
  {
    if defaults == [] then Got(T.No, st)
    else
      var c := CalcOpt(m, defaults[0].cond, T.Yes, st);
      if c.tri != T.No then CalcExpr(m, defaults[0].value, c.st) else CalcDefault(m, defaults[1..], c.st)
  }

  /** The same for texts, which take the text of the symbol that is the default. */
  function CalcTextDefault(m: Model, defaults: seq<S.Default>, st: St): (r: Text)
    requires m.Valid()
    ensures Grows(st, r.st) && Calm(m, st, r.st)
    decreases m.table - st.valid, 3, |defaults|
  {
    if defaults == [] then Text("", st)
    else
      var c := CalcOpt(m, defaults[0].cond, T.Yes, st);
      if c.tri == T.No then CalcTextDefault(m, defaults[1..], c.st)
      else if !defaults[0].value.Sym? then Text("", c.st)
      else
        var d := defaults[0].value.sym;
        var t := CalcSym(m, d, c.st);
        Text(S.RawText(d, Now(m, t).Values()(d)), t)
  }

  function CalcText(m: Model, s: Symbol, vis: T.Tri, st: St): (r: Text)
    requires m.Valid()
    ensures Grows(st, r.st) && Calm(m, st, r.st)
    decreases m.table - st.valid, 4
  {
    if vis != T.No && !m.u(s).isNew then Text(m.u(s).text, st) else CalcTextDefault(m, m.g(s).defaults, st)
  }

  /** The tristate of a symbol whose visibility and selection are known. */
  function CalcTri(m: Model, s: Symbol, vis: T.Tri, sel: T.Tri, st: St): (r: Got)
    requires m.Valid()
    ensures Grows(st, r.st) && Calm(m, st, r.st)
    decreases m.table - st.valid, 4
  {
    if m.role(s).Member? && vis == T.Yes then Got(T.FromBool(CellOf(m, st, m.role(s).choice).pick == Some(s)), st)
    else
      var d := CalcOpt(m, m.g(s).revDepInv, T.No, st);
      if d.tri == T.Yes then Got(T.No, d.st)
      else if T.Or(vis, sel) != T.No then
        var w := if !m.u(s).isNew then Got(m.u(s).tri, d.st) else CalcOwnDefault(m, s, d.st);
        Got(S.Settle(s, T.Or(T.And(w.tri, vis), sel)), w.st)
      else
        var w := CalcOwnDefault(m, s, d.st);
        Got(S.Settle(s, w.tri), w.st)
  }

  /** A choice has no default tristate. */
  function CalcOwnDefault(m: Model, s: Symbol, st: St): (r: Got)
    requires m.Valid()
    ensures Grows(st, r.st) && Calm(m, st, r.st)
    decreases m.table - st.valid, 3
  {
    if m.role(s).Choice? then Got(T.No, st) else CalcDefault(m, m.g(s).defaults, st)
  }

  /** sym_calc_choice: the user's member, then the defaults, then the members in order. */
  function CalcPick(m: Model, c: Symbol, st: St): (r: Pick)
    requires m.Valid() && m.role(c).Choice?
    ensures Grows(st, r.st)
    ensures forall x :: Steady(m, st, x) && !m.IsMemberOf(x, c) ==> r.st.VisOf(x) == st.VisOf(x)
    decreases m.table - st.valid, 7
  {
    assert m.ChoiceFits(c);
    if m.userPick(c).None? then PickDefault(m, c, m.role(c).defaults, st)
    else
      var l := CalcVisibility(m, m.userPick(c).value, st);
      if l.vis != T.No then Pick(m.userPick(c), l.st) else PickDefault(m, c, m.role(c).defaults, l.st)
  }

  function PickDefault(m: Model, c: Symbol, ds: seq<Default>, st: St): (r: Pick)
    requires m.Valid() && m.role(c).Choice? && forall d :: d in ds ==> m.IsMemberOf(d.member, c)
    ensures Grows(st, r.st)
    ensures forall x :: Steady(m, st, x) && !m.IsMemberOf(x, c) ==> r.st.VisOf(x) == st.VisOf(x)
    decreases m.table - st.valid, 6, |ds|
  {
    assert m.ChoiceFits(c);
    if ds == [] then PickMember(m, m.role(c).members, st)
    else
      assert ds[0] in ds;
      var x := CalcOpt(m, ds[0].cond, T.Yes, st);
      if x.tri == T.No then PickDefault(m, c, ds[1..], x.st)
      else
        var l := CalcVisibility(m, ds[0].member, x.st);
        if l.vis != T.No then Pick(Some(ds[0].member), l.st) else PickDefault(m, c, ds[1..], l.st)
  }

  function PickMember(m: Model, members: seq<Symbol>, st: St): (r: Pick)
    requires m.Valid()
    ensures Grows(st, r.st)
    ensures forall x :: Steady(m, st, x) && x !in members ==> r.st.VisOf(x) == st.VisOf(x)
    decreases m.table - st.valid, 5, |members|
  {
    if members == [] then Pick(None, st)
    else
      var l := CalcVisibility(m, members[0], st);
      if l.vis != T.No then Pick(Some(members[0]), l.st) else PickMember(m, members[1..], l.st)
  }

  // ----- any configuration at all -----

  /** Whoever is asked, and whatever refers to what: a member whose visibility comes out as y is y exactly if
      it is the member the choice has when the evaluation of the member is over. While the choice looks for a
      member it has none, so whoever is evaluated then stays n. */
  lemma MemberAtYes(m: Model, i: Symbol, st: St)
    requires m.Valid() && m.role(i).Member? && i !in st.valid
    requires CalcVisibility(m, i, st.Mark(i)).vis == T.Yes
    ensures var c, r := m.role(i).choice, CalcSym(m, i, st);
      && r.Held(i) == Cell(S.Raw("n", T.FromBool(r.Held(c).pick == Some(i))), None)
      && (c in st.valid ==> r.Held(c) == st.Held(c))
  {
    var c := m.role(i).choice;
    assert m.MemberFits(i) && c != i;
    var l := CalcVisibility(m, i, st.Mark(i));
    var t := l.st.Put(i, Blank(i));
    assert CalcTri(m, i, l.vis, l.sel, t) == Got(T.FromBool(t.Held(c).pick == Some(i)), t) by {
      assert m.ChoiceFits(c);
    }
    hide CalcVisibility, CalcTri;
    assert CalcSym(m, i, st) == t.Put(i, Cell(S.Raw("n", T.FromBool(t.Held(c).pick == Some(i))), None));
  }

  lemma {:induction false} PickMemberIsVisible(m: Model, members: seq<Symbol>, st: St)
    requires m.Valid() && forall i :: i in members ==> m.role(i).Member?
    ensures var p := PickMember(m, members, st);
      p.member.Some? ==> p.member.value in members && p.st.VisOf(p.member.value) != T.No
  {
    if members != [] {
      assert members[0] in members;
      PickMemberIsVisible(m, members[1..], CalcVisibility(m, members[0], st).st);
      hide CalcPrompts, CalcOpt;
    }
  }

  lemma {:induction false} PickDefaultIsVisible(m: Model, c: Symbol, ds: seq<Default>, st: St)
    requires m.Valid() && m.role(c).Choice? && forall d :: d in ds ==> m.IsMemberOf(d.member, c)
    ensures var p := PickDefault(m, c, ds, st);
      p.member.Some? ==> m.IsMemberOf(p.member.value, c) && p.st.VisOf(p.member.value) != T.No
  {
    assert m.ChoiceFits(c);
    if ds == [] {
      PickMemberIsVisible(m, m.role(c).members, st);
    } else {
      var x := CalcOpt(m, ds[0].cond, T.Yes, st);
      PickDefaultIsVisible(m, c, ds[1..], x.st);
      PickDefaultIsVisible(m, c, ds[1..], CalcVisibility(m, ds[0].member, x.st).st);
      assert ds[0] in ds;
      hide CalcPrompts, CalcOpt;
    }
  }

  lemma PickIsVisible(m: Model, c: Symbol, st: St)
    requires m.Valid() && m.role(c).Choice?
    ensures var p := CalcPick(m, c, st);
      p.member.Some? ==> m.IsMemberOf(p.member.value, c) && p.st.VisOf(p.member.value) != T.No
  {
    assert m.ChoiceFits(c);
    PickDefaultIsVisible(m, c, m.role(c).defaults, st);
    if m.userPick(c).Some? {
      PickDefaultIsVisible(m, c, m.role(c).defaults, CalcVisibility(m, m.userPick(c).value, st).st);
    }
    hide CalcPrompts, CalcOpt, PickDefault;
  }

  /** A choice that comes out as y has picked a member that was visible then; any other has none. */
  lemma ChoiceAtYes(m: Model, c: Symbol, st: St)
    requires m.Valid() && m.role(c).Choice? && c !in st.valid
    ensures var r := CalcSym(m, c, st); var p := r.Held(c).pick;
      && (r.Held(c).raw.tri == T.Yes <==> p.Some?)
      && (p.Some? ==> m.IsMemberOf(p.value, c) && r.VisOf(p.value) != T.No)
  {
    assert m.ChoiceFits(c);
    var l := CalcVisibility(m, c, st.Mark(c));
    var x := CalcTri(m, c, l.vis, l.sel, l.st.Put(c, Blank(c)));
    PickIsVisible(m, c, x.st.Put(c, Cell(S.Raw("n", x.tri), None)));
    hide CalcVisibility, CalcTri, CalcPick;
  }

  /** The first thing a member's visibility asks for is its choice. */
  lemma VisibilityAsksFirst(m: Model, c: Symbol, i: Symbol, st: St)
    requires m.Valid() && m.role(c).Choice? && m.IsMemberOf(i, c)
    ensures CalcVisibility(m, i, st) == CalcVisibility(m, i, CalcSym(m, c, st))
  {
    assert m.MemberFits(i) && m.ChoiceFits(c);
    var own, r := m.role(i).own, CalcSym(m, c, st);
    var e := MemberPrompt(c, own);
    var ps := [Some(e)];
    assert ps[..|ps| - 1] == [] && ps[|ps| - 1] == Some(e);
    assert CalcPrompts(m, ps[..|ps| - 1], st) == Got(T.No, st) && CalcPrompts(m, ps[..|ps| - 1], r) == Got(T.No, r);
    assert CalcSym(m, c, r) == r;
    assert CalcExpr(m, Sym(c), st) == CalcExpr(m, Sym(c), r);
    hide CalcSym, Model.Valid, Model.MemberFits, Model.ChoiceFits;
    assert CalcExpr(m, e, st) == CalcExpr(m, e, r);
    hide CalcExpr, MemberPrompt;
    assert CalcPrompts(m, ps, st) == CalcPrompts(m, ps, r);
    hide CalcPrompts;
  }

  /** The visibility of a symbol stays what it was found to be when the symbol was evaluated. */
  lemma OwnVisibility(m: Model, s: Symbol, st: St)
    requires m.Valid() && !IsValid(m, st, s) && HasValue(s)
    ensures var r := CalcSym(m, s, st); r.VisOf(s) == CalcVisibility(m, s, st.Mark(s)).vis && Steady(m, r, s)
  {
    var u := st.Mark(s);
    var l := CalcVisibility(m, s, u);
    var t := l.st.Put(s, Blank(s));
    assert l.st.VisOf(s) == l.vis by { VisibilityIsNoted(m, s, u); }
    if m.role(s).Member? {
      var c := m.role(s).choice;
      assert m.MemberFits(s) && m.ChoiceFits(c) && m.IsMemberOf(s, c);
      VisibilityAsksFirst(m, c, s, u);
      assert c in CalcSym(m, c, u).valid;
    }
    hide CalcVisibility, Compute, Model.Valid, Model.MemberFits, Model.ChoiceFits;
    assert Steady(m, t, s) && !m.IsMemberOf(s, s);
  }

  lemma VisibilityIsNoted(m: Model, s: Symbol, u: St)
    requires m.Valid() && s in u.valid
    ensures var l := CalcVisibility(m, s, u); l.st.VisOf(s) == l.vis
  {
    hide CalcPrompts, CalcOpt, Model.Valid;
    var p := CalcPrompts(m, m.g(s).prompts, u);
    var d := CalcOpt(m, m.g(s).revDepInv, T.No, p.st);
    var l := CalcVisibility(m, s, u);
    var t := d.st.(vis := d.st.vis[s := l.vis]);
    assert s in t.valid && t.VisOf(s) == l.vis;
    if !m.role(s).Member? { assert Steady(m, t, s); }
  }
}
