/** Saving a configuration and reading it back: the values come out as they were. */
module ConfRoundTrip {
  import T = Tristate
  import C = ConfText
  import opened Options
  import opened Expr
  import opened SymbolSpec

  // ----- settings that confirm what is there -----

  /** The types that have a line in the file. */
  predicate IsSaved(s: Symbol) {
    s.Type() in {Boolean, Tristate, String, Int, Hex}
  }

  /** Every visible symbol is set to the value it has. What is set where nothing is visible does not matter. */
  ghost predicate Confirms(g: Graph, w: Settings, v: Valuation) {
    forall s: Symbol :: IsSaved(s) && Visible(g, s, v) != T.No ==> ConfirmsOne(w(s), s, v)
  }

  predicate ConfirmsOne(x: Setting, s: Symbol, v: Valuation) {
    !x.isNew && if IsTri(s) then x.tri == v(s).tri else x.text == v(s).text
  }

  lemma ConfirmedStep(g: Graph, u: Settings, w: Settings, v: Valuation, s: Symbol)
    requires Solution(g, u, v) && Confirms(g, w, v)
    ensures Step(g, w, s, v) == Step(g, u, s, v)
  {
    assert v(s) == View(s, Step(g, u, s, v));
    if IsSaved(s) {
      if IsTri(s) { ConfirmedTri(g, u, w, v, s); } else { ConfirmedText(g, u, w, v, s); }
    }
  }

  lemma ConfirmedTri(g: Graph, u: Settings, w: Settings, v: Valuation, s: Symbol)
    requires Confirms(g, w, v) && IsTri(s) && v(s).tri == StepTri(g, u, s, v)
    ensures StepTri(g, w, s, v) == StepTri(g, u, s, v)
  {
    hide Deselected, Selected, DefaultTri, AnyPrompt;
    assert Visible(g, s, v) != T.No ==> ConfirmsOne(w(s), s, v);
  }

  lemma ConfirmedText(g: Graph, u: Settings, w: Settings, v: Valuation, s: Symbol)
    requires Confirms(g, w, v) && IsSaved(s) && !IsTri(s) && v(s).text == StepText(g, u, s, v)
    ensures StepText(g, w, s, v) == StepText(g, u, s, v)
  {
    hide Visible;
    assert Visible(g, s, v) != T.No ==> ConfirmsOne(w(s), s, v);
  }

  /** Such settings give every symbol the value it had. */
  lemma ConfirmedValues(g: Graph, u: Settings, w: Settings, rank: Symbol -> nat, s: Symbol)
    requires Ranked(g, rank) && Confirms(g, w, Values(g, u, rank))
    ensures Values(g, w, rank)(s) == Values(g, u, rank)(s)
  {
    var v := Values(g, u, rank);
    ValuesAreSolution(g, u, rank);
    forall x: Symbol ensures v(x) == View(x, Step(g, w, x, v)) {
      ConfirmedStep(g, u, w, v, x);
      assert v(x) == View(x, Step(g, u, x, v));
    }
    SolutionIsUnique(g, w, rank, v, s);
  }

  /** What is visible is saved. */
  lemma VisibleIsWritten(g: Graph, u: Settings, s: Symbol, v: Valuation)
    requires IsSaved(s) && Visible(g, s, v) != T.No
    ensures Writes(g, u, s, v)
  {
  }

  // ----- the file -----

  function KindOf(s: Symbol): C.Kind
    requires IsSaved(s)
  {
    match s.Type()
    case Boolean => C.BoolKind
    case Tristate => C.TriKind
    case String => C.StringKind
    case Int => C.IntKind
    case Hex => C.HexKind
  }

  function Saved(s: Symbol, v: Valuation): C.Value {
    if IsTri(s) then C.OfTri(v(s).tri) else C.Text(v(s).text)
  }

  /** The settings a table of symbols stands for. */
  function SettingsOf(g: Graph, table: C.Table): Settings {
    (s: Symbol) =>
      if g(s).name !in table then Setting(T.No, "", true)
      else
        var x := table[g(s).name];
        match x.user
        case OfTri(t) => Setting(t, "", x.isNew)
        case Text(text) => Setting(T.No, text, x.isNew)
  }

  /** No two symbols that can be saved have the same name. */
  ghost predicate OwnNames(g: Graph) {
    forall s: Symbol, t: Symbol :: IsSaved(s) && IsSaved(t) && g(s).name == g(t).name ==> s == t
  }

  predicate IsEntryOf(g: Graph, v: Valuation, x: C.Item, s: Symbol) {
    IsSaved(s) && x == C.Entry(g(s).name, KindOf(s), Saved(s, v))
  }

  /** The items of conf_write: a line holds a symbol with its value, and no visible symbol is missing. */
  ghost predicate Saves(g: Graph, v: Valuation, items: seq<C.Item>) {
    && (forall x :: x in items && x.Entry? ==> exists s: Symbol :: IsEntryOf(g, v, x, s))
    && (forall s: Symbol :: IsSaved(s) && Visible(g, s, v) != T.No ==>
          exists k :: 0 <= k < |items| && IsEntryOf(g, v, items[k], s))
  }

  /** The last line with the name of item k; its value is the same, because the name has one symbol. */
  lemma {:induction false} LastLine(g: Graph, v: Valuation, items: seq<C.Item>, k: nat, s: Symbol) returns (j: nat)
    requires OwnNames(g) && Saves(g, v, items) && k < |items| && IsEntryOf(g, v, items[k], s)
    ensures j < |items| && IsEntryOf(g, v, items[j], s)
    ensures forall i :: j < i < |items| && items[i].Entry? ==> items[i].name != items[j].name
    decreases |items| - k
  {
    hide KindOf, Saved;
    if i: nat :| k < i < |items| && items[i].Entry? && items[i].name == items[k].name {
      assert items[i] in items;
      var t: Symbol :| IsEntryOf(g, v, items[i], t);
      assert t == s;
      j := LastLine(g, v, items, i, s);
    } else {
      j := k;
    }
  }

  lemma RestoredConfirms(g: Graph, v: Valuation, table: C.Table, items: seq<C.Item>)
    requires OwnNames(g) && Saves(g, v, items) && C.AllWritable(table, items)
    ensures Confirms(g, SettingsOf(g, C.Restore(table, items)), v)
  {
    forall s: Symbol | IsSaved(s) && Visible(g, s, v) != T.No
      ensures ConfirmsOne(SettingsOf(g, C.Restore(table, items))(s), s, v)
    {
      hide Visible, KindOf;
      var k :| 0 <= k < |items| && IsEntryOf(g, v, items[k], s);
      var j := LastLine(g, v, items, k, s);
      assert C.Writable(table, items[j]);
      C.RestoreGives(table, items, j);
    }
  }

  /** A configuration that is written and read back evaluates to the same values: the file keeps what is
      visible, and the rest follows from it. */
  lemma ReadBackEvaluatesTheSame(g: Graph, u: Settings, rank: Symbol -> nat, table: C.Table, items: seq<C.Item>,
                                 s: Symbol)
    requires Ranked(g, rank) && OwnNames(g)
    requires Saves(g, Values(g, u, rank), items) && C.AllWritable(table, items)
    ensures Values(g, SettingsOf(g, C.ReadFile(table, C.File(items))), rank)(s) == Values(g, u, rank)(s)
  {
    hide Confirms, Values;
    C.FileReadsBack(table, items);
    RestoredConfirms(g, Values(g, u, rank), table, items);
    ConfirmedValues(g, u, SettingsOf(g, C.Restore(table, items)), rank, s);
  }
}
