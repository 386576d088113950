/** What menu_finalize should make of a tree of entries: their final conditions, and the shape of the result. */
module MenuPlan {
  import T = Tristate
  import opened Options
  import opened Expr
  import opened ExprCompare
  import opened MenuDeps
  import opened MenuTree

  // ----- conditions -----

  datatype Data = Data(dep: Option<Expr>, prompt: Option<Prompt>)

  /** What an entry passes on to its children. */
  function PassedOn(s: Option<Symbol>, isChoice: bool, d: Data): Option<Expr> {
    if s.Some? && isChoice then Some(Sym(s.value))
    else if d.prompt.Some? then d.prompt.value.visible
    else d.dep
  }

  /** The condition the adoption test reads. */
  function CondOf(d: Data): Option<Expr> {
    if d.prompt.Some? then d.prompt.value.visible else d.dep
  }

  function NarrowOwn(s: Option<Symbol>, dep: Option<Expr>, prompt: Option<Prompt>): Option<Prompt> {
    if prompt.None? then None
    else Some(prompt.value.(visible := NarrowPrompt(s, dep, prompt.value.visible)))
  }

  function Narrowed(s: Option<Symbol>, up: Option<Expr>, d: Data): Data {
    var dep := Narrow(up, d.dep);
    Data(dep, NarrowOwn(s, dep, d.prompt))
  }

  /** An entry as it was read, as it will be, its parent, and whether it has no children of its own. */
  datatype Fate = Fate(raw: Data, final: Data, over: Option<Entry>, leaf: bool)

  type Plan = map<Entry, Fate>

  function Of(plan: Plan, m: Entry): Fate {
    if m in plan then plan[m] else Fate(Data(None, None), Data(None, None), None, false)
  }

  function Up(plan: Plan, p: Entry): Option<Expr> {
    PassedOn(p.sym, p.isChoice, Of(plan, p).final)
  }

  /** An entry with parent p is narrowed by what p passes on. */
  predicate Follows(plan: Plan, p: Entry, m: Entry) {
    Of(plan, m).over == Some(p) && Of(plan, m).final == Narrowed(m.sym, Up(plan, p), Of(plan, m).raw)
  }

  /** The plan is right for the entries of f below p. */
  predicate Planned(plan: Plan, p: Entry, f: Forest) {
    match f
    case Nil => true
    case Cons(m, k, r) =>
      Follows(plan, p, m) && (Of(plan, m).leaf <==> k == Nil) && Planned(plan, m, k) && Planned(plan, p, r)
  }

  ghost function FateOf(p: Entry, d: Data, f: Forest): (plan: Plan)
    reads Elems(f)`dep, Elems(f)`prompt
    ensures plan.Keys == Elems(f)
    decreases f
  {
    match f
    case Nil => map[]
    case Cons(m, k, r) =>
      var raw := Data(m.dep, m.prompt);
      var d' := Narrowed(m.sym, PassedOn(p.sym, p.isChoice, d), raw);
      FateOf(m, d', k) + FateOf(p, d, r) + map[m := Fate(raw, d', Some(p), k == Nil)]
  }

  lemma {:induction false} FateIsPlanned(plan: Plan, p: Entry, d: Data, f: Forest)
    requires Distinct(f) && Of(plan, p).final == d
    requires forall m :: m in Elems(f) ==> m in plan && plan[m] == FateOf(p, d, f)[m]
    ensures Planned(plan, p, f)
    ensures forall m :: m in Elems(f) ==> Of(plan, m).raw == Data(m.dep, m.prompt)
    decreases f
  {
    hide Narrowed;
    if f.Cons? {
      var m := f.head;
      var d' := Narrowed(m.sym, PassedOn(p.sym, p.isChoice, d), Data(m.dep, m.prompt));
      FateIsPlanned(plan, m, d', f.kids);
      FateIsPlanned(plan, p, d, f.rest);
    }
  }

  /** Every entry of a plan follows the parent it was read with. */
  lemma {:induction false} PlannedFollowsParent(plan: Plan, first: Entry?, p: Entry, f: Forest, m: Entry)
    requires Planned(plan, p, f) && Chain(first, p, f, null) && m in Elems(f)
    ensures m.parent != null && m.parent in {p} + Elems(f) && Follows(plan, m.parent, m)
    decreases f
  {
    hide Follows;
    if m != f.head {
      if m in Elems(f.kids) {
        PlannedFollowsParent(plan, f.head.list, f.head, f.kids, m);
      } else {
        PlannedFollowsParent(plan, f.head.next, p, f.rest, m);
      }
    }
  }

  /** Nothing passed on has a negated test, if what the root passes on has none. */
  lemma {:induction false} PlannedHasNoNegatedTest(plan: Plan, p: Entry, f: Forest, m: Entry)
    requires Planned(plan, p, f) && OptNoNegatedTest(Up(plan, p)) && m in {p} + Elems(f)
    ensures OptNoNegatedTest(Up(plan, m))
    decreases f
  {
    hide NoNegatedTest, Follows;
    if m != p {
      FinalHasNoNegatedTest(plan, p, f.head);
      if m in {f.head} + Elems(f.kids) {
        PlannedHasNoNegatedTest(plan, f.head, f.kids, m);
      } else {
        PlannedHasNoNegatedTest(plan, p, f.rest, m);
      }
    }
  }

  lemma FinalHasNoNegatedTest(plan: Plan, p: Entry, m: Entry)
    requires Follows(plan, p, m) && OptNoNegatedTest(Up(plan, p))
    ensures OptNoNegatedTest(Up(plan, m))
  {
    hide NoNegatedTest, NarrowPrompt, Narrow;
    var fate := Of(plan, m);
    NarrowHasNoNegatedTest(Up(plan, p), fate.raw.dep);
    if fate.raw.prompt.Some? {
      NarrowPromptHasNoNegatedTest(m.sym, fate.final.dep, fate.raw.prompt.value.visible);
    }
    SymHasNoNegatedTest(m.sym);
  }

  lemma SymHasNoNegatedTest(s: Option<Symbol>)
    ensures s.Some? ==> NoNegatedTest(Sym(s.value))
  {
  }

  /** What an entry passes on, as a value: the value of its symbol for a choice, otherwise what its prompt is worth,
      and without a prompt its own condition. */
  ghost function PassedOnValue(s: Option<Symbol>, isChoice: bool, d: Data, v: Valuation): T.Tri {
    if s.Some? && isChoice then v(s.value).tri
    else match d.prompt
      case Some(prompt) => EvalOpt(prompt.visible, v)
      case None => EvalOpt(d.dep, v)
  }

  /** Under v: the condition r has is the conjunction of what is passed on and its own, and its prompt is worth that
      together with its own condition. */
  ghost predicate IsNarrowed(s: Option<Symbol>, up: T.Tri, d: Data, r: Data, v: Valuation) {
    && T.Refines(T.And(up, EvalOpt(d.dep, v)), EvalOpt(r.dep, v))
    && (r.prompt.Some? <==> d.prompt.Some?)
    && (d.prompt.Some? ==>
      var before, after := d.prompt.value, r.prompt.value;
      && after.hasText == before.hasText
      && PromptIsWorth(s, T.And(EvalOpt(r.dep, v), EvalOpt(before.visible, v)), EvalOpt(after.visible, v), false)
      && (Promotes(s) ==> OptNoTest(after.visible)))
  }

  lemma NarrowedIsWorth(s: Option<Symbol>, up: Option<Expr>, d: Data, v: Valuation)
    requires OptNoNegatedTest(up) && Legal(v)
    ensures IsNarrowed(s, EvalOpt(up, v), d, Narrowed(s, up, d), v)
  {
    hide NoNegatedTest, NarrowPrompt, Narrow, Legal, NoTest, Eval;
    var dep := Narrow(up, d.dep);
    NarrowIsConjunction(up, d.dep, v);
    NarrowHasNoNegatedTest(up, d.dep);
    if d.prompt.Some? {
      NarrowPromptIsConjunction(s, dep, d.prompt.value.visible, v);
      NarrowPromptHasNoNegatedTest(s, dep, d.prompt.value.visible);
    }
  }

  lemma PassedOnIsWorth(s: Option<Symbol>, isChoice: bool, d: Data, v: Valuation)
    ensures EvalOpt(PassedOn(s, isChoice, d), v) == PassedOnValue(s, isChoice, d, v)
  {
  }

  // ----- shape -----

  predicate Text(plan: Plan, m: Entry) {
    Of(plan, m).final.prompt.Some? && Of(plan, m).final.prompt.value.hasText
  }

  /** Only entries with a prompt text have children. */
  predicate Fit(plan: Plan, f: Forest) {
    match f
    case Nil => true
    case Cons(m, k, r) => (k == Nil || Text(plan, m)) && Fit(plan, k) && Fit(plan, r)
  }

  /** The same below the siblings themselves. */
  predicate LowerFit(plan: Plan, f: Forest) {
    match f
    case Nil => true
    case Cons(_, k, r) => Fit(plan, k) && LowerFit(plan, r)
  }

  lemma {:induction false} FitJoin(plan: Plan, f: Forest, h: Forest)
    ensures Fit(plan, Join(f, h)) <==> Fit(plan, f) && Fit(plan, h)
    ensures LowerFit(plan, Join(f, h)) <==> LowerFit(plan, f) && LowerFit(plan, h)
  {
    if f.Cons? { FitJoin(plan, f.rest, h); }
  }

  lemma {:induction false} FitIsLowerFit(plan: Plan, f: Forest)
    requires Fit(plan, f)
    ensures LowerFit(plan, f)
  {
    if f.Cons? { FitIsLowerFit(plan, f.rest); }
  }

  predicate AdoptsBy(plan: Plan, p: Entry, m: Entry)
    requires p.sym.Some?
  {
    var prompt := Of(plan, p).final.prompt;
    Adopts(p.sym.value, if prompt.Some? then prompt.value.visible else None, CondOf(Of(plan, m).final))
  }

  function Next(f: Forest, after: Option<Entry>): Option<Entry> {
    if f == Nil then after else Some(f.head)
  }

  /** An entry read without children does not let a sibling pass that it could adopt. */
  predicate Closed(plan: Plan, m: Entry, next: Option<Entry>) {
    m.sym.Some? && Of(plan, m).leaf && next.Some? && Of(plan, m).over == Of(plan, next.value).over ==>
      !AdoptsBy(plan, m, next.value)
  }

  /** No entry with a prompt text, read without children, could have adopted the entry that comes behind it and all
      its children in the order of reading. */
  predicate Settled(plan: Plan, f: Forest, after: Option<Entry>) {
    match f
    case Nil => true
    case Cons(m, k, r) =>
      && (Text(plan, m) ==> Closed(plan, m, Next(r, after)))
      && Settled(plan, k, Next(r, after)) && Settled(plan, r, after)
  }

  lemma {:induction false} SettledJoin(plan: Plan, f: Forest, h: Forest, after: Option<Entry>)
    ensures Settled(plan, Join(f, h), after) <==> Settled(plan, f, Next(h, after)) && Settled(plan, h, after)
  {
    if f.Cons? { SettledJoin(plan, f.rest, h, after); }
  }

  /** Entries with other parents are settled against anything behind them. */
  lemma {:induction false} SettledBefore(plan: Plan, f: Forest, after: Option<Entry>)
    requires Settled(plan, f, None)
    requires after.Some? ==> forall m :: m in Elems(f) ==> Of(plan, m).over != Of(plan, after.value).over
    ensures Settled(plan, f, after)
    decreases f
  {
    hide AdoptsBy;
    if f.Cons? {
      if f.rest == Nil { SettledBefore(plan, f.kids, after); }
      SettledBefore(plan, f.rest, after);
    }
  }

  lemma {:induction false} PlannedOver(plan: Plan, p: Entry, f: Forest, m: Entry)
    requires Planned(plan, p, f) && m in Elems(f)
    ensures Of(plan, m).over.Some? && Of(plan, m).over.value in {p} + Elems(f)
    decreases f
  {
    hide Narrowed;
    if m in Elems(f.kids) {
      PlannedOver(plan, f.head, f.kids, m);
    } else if m in Elems(f.rest) {
      PlannedOver(plan, p, f.rest, m);
    }
  }

  // ----- siblings in a plan -----

  /** Siblings with the given parent, each planned with what is below it. */
  predicate Siblings(plan: Plan, over: Option<Entry>, f: Forest) {
    match f
    case Nil => true
    case Cons(m, k, r) =>
      Of(plan, m).over == over && (Of(plan, m).leaf <==> k == Nil) && Planned(plan, m, k) && Siblings(plan, over, r)
  }

  /** The parent is none of the entries itself. */
  predicate Outside(over: Option<Entry>, f: Forest) {
    over.Some? ==> over.value !in Elems(f)
  }

  lemma {:induction false} PlannedAreSiblings(plan: Plan, p: Entry, f: Forest)
    requires Planned(plan, p, f)
    ensures Siblings(plan, Some(p), f)
  {
    hide Narrowed;
    if f.Cons? { PlannedAreSiblings(plan, p, f.rest); }
  }

  lemma {:induction false} SiblingsOfSuffix(plan: Plan, over: Option<Entry>, s: Forest, f: Forest)
    requires Siblings(plan, over, f) && Suffix(s, f)
    ensures Siblings(plan, over, s)
  {
    if s != f { SiblingsOfSuffix(plan, over, s, f.rest); }
  }

  /** All these entries have their final conditions. */
  ghost predicate Final(plan: Plan, s: set<Entry>)
    reads s`dep, s`prompt
  {
    forall m :: m in s ==> Of(plan, m).final == Data(m.dep, m.prompt)
  }

  /** All these entries are as they were read. */
  ghost predicate Raw(plan: Plan, s: set<Entry>)
    reads s`dep, s`prompt
  {
    forall m :: m in s ==> Of(plan, m).raw == Data(m.dep, m.prompt)
  }

  /** The siblings have been narrowed, and nothing below them. */
  ghost predicate Begun(plan: Plan, f: Forest)
    reads Elems(f)`dep, Elems(f)`prompt, Tops(f)`dep, Tops(f)`prompt
  {
    Final(plan, Tops(f)) && Raw(plan, Elems(f) - Tops(f))
  }

  lemma BegunParts(plan: Plan, m: Entry, k: Forest, r: Forest)
    requires Distinct(Cons(m, k, r))
    ensures Begun(plan, Cons(m, k, r)) <==> Final(plan, {m}) && Raw(plan, Elems(k)) && Begun(plan, r)
  {
    TopsAreElems(r);
  }
}
