/** expr_print, and the expression part of the grammar that reads its output back. */
module ExprPrint {
  import T = Tristate
  import opened Options
  import opened Expr

  datatype Token = Word(text: string) | TAnd | TOr | TNot | TOpen | TClose | TEqual | TUnequal

  /** The symbol table: what a symbol is called, and which symbol an unquoted word means. */
  datatype Dictionary = Dictionary(name: Symbol -> string, find: string -> Symbol)

  /** Literals and declared symbols are found under their names; a quoted constant is written
      without its quotes, and an unquoted word never means a quoted constant. */
  ghost predicate Consistent(d: Dictionary) {
    && (forall s: Symbol :: !s.Quoted? ==> d.find(d.name(s)) == s)
    && (forall s: Symbol :: s.Quoted? ==> d.name(s) == s.text)
    && (forall w :: !d.find(w).Quoted? && d.name(d.find(w)) == w)
  }

  // ----- expr_print -----

  datatype ExprType = ENone | EOr | EAnd | ENot | EEqual | EUnequal | EChoice | ESymbol

  function TypeOf(e: Expr): ExprType {
    match e
    case Sym(_) => ESymbol
    case Not(_) => ENot
    case And(_, _) => EAnd
    case Or(_, _) => EOr
    case Equal(_, _) => EEqual
    case Unequal(_, _) => EUnequal
  }

  /** expr_compare_type: each case of the switch runs on into the next. */
  function CompareType(t1: ExprType, t2: ExprType): int {
    if t1 == t2 then 0
    else
      match t1
      case EEqual => if t2 in {ENot, EAnd, EOr, EChoice, ENone} then 1 else -1
      case EUnequal => if t2 in {ENot, EAnd, EOr, EChoice, ENone} then 1 else -1
      case ENot => if t2 in {EAnd, EOr, EChoice, ENone} then 1 else -1
      case EAnd => if t2 in {EOr, EChoice, ENone} then 1 else -1
      case EOr => if t2 in {EChoice, ENone} then 1 else -1
      case EChoice => if t2 == ENone then 1 else -1
      case _ => -1
  }

  function PrintBare(d: Dictionary, e: Expr): seq<Token>
    decreases e, 0
  {
    match e
    case Sym(s) => [Word(d.name(s))]
    case Not(a) => [TNot] + Print(d, a, ENot)
    case And(l, r) => Print(d, l, EAnd) + ([TAnd] + Print(d, r, EAnd))
    case Or(l, r) => Print(d, l, EOr) + ([TOr] + Print(d, r, EOr))
    case Equal(a, b) => [Word(d.name(a)), TEqual, Word(d.name(b))]
    case Unequal(a, b) => [Word(d.name(a)), TUnequal, Word(d.name(b))]
  }

  function Print(d: Dictionary, e: Expr, prev: ExprType): seq<Token>
    decreases e, 1
  {
    if CompareType(prev, TypeOf(e)) > 0 then [TOpen] + PrintBare(d, e) + [TClose] else PrintBare(d, e)
  }

  // ----- the parser: a stack, shifts and reductions -----

  datatype Item = Operand(e: Expr) | Name(s: Symbol) | Mark(t: Token)

  function Weight(stack: seq<Item>): nat {
    if stack == [] then 0
    else Weight(stack[..|stack| - 1]) + if stack[|stack| - 1].Name? then 2 else 1
  }

  function Head(input: seq<Token>): Option<Token> {
    if input == [] then None else Some(input[0])
  }

  /** The item n places below the top. */
  function Nth(stack: seq<Item>, n: nat): Option<Item> {
    if n < |stack| then Some(stack[|stack| - 1 - n]) else None
  }

  predicate IsMark(i: Option<Item>, t: Token) {
    i == Some(Mark(t))
  }

  predicate IsOperand(i: Option<Item>) {
    i.Some? && i.value.Operand?
  }

  predicate IsName(i: Option<Item>) {
    i.Some? && i.value.Name?
  }

  /** The reduction the top of the stack is ready for, given the next token: AND binds tighter
      than OR, both group to the left, NOT binds tightest. */
  function Reduce(stack: seq<Item>, next: Option<Token>): Option<seq<Item>> {
    var n := |stack|;
    if IsName(Nth(stack, 0)) then
      if IsMark(Nth(stack, 1), TEqual) && IsName(Nth(stack, 2)) then
        Some(stack[..n - 3] + [Operand(Equal(stack[n - 3].s, stack[n - 1].s))])
      else if IsMark(Nth(stack, 1), TUnequal) && IsName(Nth(stack, 2)) then
        Some(stack[..n - 3] + [Operand(Unequal(stack[n - 3].s, stack[n - 1].s))])
      else if next == Some(TEqual) || next == Some(TUnequal) then None
      else Some(stack[..n - 1] + [Operand(Sym(stack[n - 1].s))])
    else if IsOperand(Nth(stack, 0)) then
      if IsMark(Nth(stack, 1), TNot) then
        Some(stack[..n - 2] + [Operand(Not(stack[n - 1].e))])
      else if IsMark(Nth(stack, 1), TAnd) && IsOperand(Nth(stack, 2)) then
        Some(stack[..n - 3] + [Operand(And(stack[n - 3].e, stack[n - 1].e))])
      else if IsMark(Nth(stack, 1), TOr) && IsOperand(Nth(stack, 2)) && next != Some(TAnd) then
        Some(stack[..n - 3] + [Operand(Or(stack[n - 3].e, stack[n - 1].e))])
      else None
    else if IsMark(Nth(stack, 0), TClose) && IsOperand(Nth(stack, 1)) && IsMark(Nth(stack, 2), TOpen) then
      Some(stack[..n - 3] + [Operand(stack[n - 2].e)])
    else None
  }

  function Shifted(d: Dictionary, t: Token): Item {
    if t.Word? then Name(d.find(t.text)) else Mark(t)
  }

  lemma WeightOfSnoc(stack: seq<Item>, i: Item)
    ensures Weight(stack + [i]) == Weight(stack) + if i.Name? then 2 else 1
  {
    assert (stack + [i])[..|stack|] == stack;
  }

  lemma {:induction false} WeightOfPrefix(stack: seq<Item>, n: nat)
    requires n <= |stack|
    ensures Weight(stack[..n]) + (|stack| - n) <= Weight(stack)
  {
    if n < |stack| {
      var init := stack[..|stack| - 1];
      WeightOfPrefix(init, n);
      assert init[..n] == stack[..n];
    } else {
      assert stack[..n] == stack;
    }
  }

  lemma ReduceIsProgress(stack: seq<Item>, next: Option<Token>)
    requires Reduce(stack, next).Some?
    ensures Weight(Reduce(stack, next).value) < Weight(stack)
  {
    hide Weight;
    var r := Reduce(stack, next).value;
    var k := |r| - 1;
    assert r == stack[..k] + [r[k]];
    WeightOfSnoc(stack[..k], r[k]);
    WeightOfPrefix(stack, k);
    if k == |stack| - 1 {
      assert stack == stack[..k] + [stack[k]];
      WeightOfSnoc(stack[..k], stack[k]);
    }
  }

  /** Reduce while possible, else shift; at the end one operand must be left. */
  function Run(d: Dictionary, stack: seq<Item>, input: seq<Token>): Option<Expr>
    decreases 3 * |input| + Weight(stack)
  {
    var r := Reduce(stack, Head(input));
    if r.Some? then
      ReduceIsProgress(stack, Head(input));
      Run(d, r.value, input)
    else if input != [] then
      WeightOfSnoc(stack, Shifted(d, input[0]));
      Run(d, stack + [Shifted(d, input[0])], input[1..])
    else if |stack| == 1 && stack[0].Operand? then Some(stack[0].e)
    else None
  }

  function Parse(d: Dictionary, input: seq<Token>): Option<Expr> {
    Run(d, [], input)
  }

  /** The parser loop over its value stack. */
  method ParseTokens(d: Dictionary, input: seq<Token>) returns (e: Option<Expr>)
    ensures e == Parse(d, input)
  {
    var stack: seq<Item> := [];
    var i := 0;
    while true
      invariant i <= |input|
      invariant Run(d, stack, input[i..]) == Parse(d, input)
      decreases 3 * (|input| - i) + Weight(stack)
    {
      var r := Reduce(stack, Head(input[i..]));
      if r.Some? {
        ReduceIsProgress(stack, Head(input[i..]));
        stack := r.value;
      } else if i < |input| {
        WeightOfSnoc(stack, Shifted(d, input[i]));
        stack := stack + [Shifted(d, input[i])];
        assert input[i..][1..] == input[i + 1..];
        i := i + 1;
      } else {
        return if |stack| == 1 && stack[0].Operand? then Some(stack[0].e) else None;
      }
    }
  }

  // ----- what comes back: chains grouped to the left, constants without quotes -----

  function Reread(d: Dictionary, s: Symbol): Symbol {
    d.find(d.name(s))
  }

  /** x && e, with the operands of the chain e added one by one. */
  function FoldAnd(d: Dictionary, x: Expr, e: Expr): (r: Expr)
    ensures r.And?
    decreases e, 1
  {
    if e.And? then FoldAnd(d, FoldAnd(d, x, e.left), e.right) else And(x, Regroup(d, e))
  }

  function FoldOr(d: Dictionary, x: Expr, e: Expr): (r: Expr)
    ensures r.Or?
    decreases e, 1
  {
    if e.Or? then FoldOr(d, FoldOr(d, x, e.left), e.right) else Or(x, Regroup(d, e))
  }

  function Regroup(d: Dictionary, e: Expr): Expr
    decreases e, 0
  {
    match e
    case Sym(s) => Sym(Reread(d, s))
    case Equal(a, b) => Equal(Reread(d, a), Reread(d, b))
    case Unequal(a, b) => Unequal(Reread(d, a), Reread(d, b))
    case Not(a) => Not(Regroup(d, a))
    case And(l, r) => FoldAnd(d, Regroup(d, l), r)
    case Or(l, r) => FoldOr(d, Regroup(d, l), r)
  }

  // ----- how single steps run -----

  /** The parser waits for an operand. */
  predicate Ready(stack: seq<Item>) {
    stack == [] || stack[|stack| - 1] in {Mark(TAnd), Mark(TOr), Mark(TNot), Mark(TOpen)}
  }

  predicate TopIs(stack: seq<Item>, t: Token) {
    stack != [] && stack[|stack| - 1] == Mark(t)
  }

  /** What may follow an operand. */
  predicate Stops(input: seq<Token>) {
    Head(input) in {None, Some(TClose), Some(TAnd), Some(TOr)}
  }

  lemma Shift(d: Dictionary, stack: seq<Item>, t: Token, rest: seq<Token>)
    requires Reduce(stack, Some(t)).None?
    ensures Run(d, stack, [t] + rest) == Run(d, stack + [Shifted(d, t)], rest)
  {
    assert ([t] + rest)[1..] == rest;
  }

  lemma ReduceTo(d: Dictionary, stack: seq<Item>, input: seq<Token>, r: seq<Item>)
    requires Reduce(stack, Head(input)) == Some(r)
    ensures Run(d, stack, input) == Run(d, r, input)
  {
  }

  /** The top three items, and what is below them. */
  lemma Three(s: seq<Item>, a: Item, b: Item, c: Item)
    ensures var t := s + [a, b, c];
      && |t| == |s| + 3 && t[..|s|] == s && t[|s|] == a && t[|s| + 1] == b && t[|s| + 2] == c
      && s + [a] + [b] + [c] == t
  {
  }

  lemma RunReduceAnd(d: Dictionary, s: seq<Item>, x: Expr, y: Expr, input: seq<Token>)
    ensures Run(d, s + [Operand(x), Mark(TAnd), Operand(y)], input) == Run(d, s + [Operand(And(x, y))], input)
  {
    Three(s, Operand(x), Mark(TAnd), Operand(y));
    ReduceTo(d, s + [Operand(x), Mark(TAnd), Operand(y)], input, s + [Operand(And(x, y))]);
  }

  lemma RunReduceOr(d: Dictionary, s: seq<Item>, x: Expr, y: Expr, input: seq<Token>)
    requires Head(input) != Some(TAnd)
    ensures Run(d, s + [Operand(x), Mark(TOr), Operand(y)], input) == Run(d, s + [Operand(Or(x, y))], input)
  {
    Three(s, Operand(x), Mark(TOr), Operand(y));
    ReduceTo(d, s + [Operand(x), Mark(TOr), Operand(y)], input, s + [Operand(Or(x, y))]);
  }

  lemma RunReduceNot(d: Dictionary, s: seq<Item>, x: Expr, input: seq<Token>)
    ensures Run(d, s + [Mark(TNot), Operand(x)], input) == Run(d, s + [Operand(Not(x))], input)
  {
    var t := s + [Mark(TNot), Operand(x)];
    assert t[..|s|] == s && t[|s|] == Mark(TNot) && t[|s| + 1] == Operand(x);
    ReduceTo(d, t, input, s + [Operand(Not(x))]);
  }

  lemma RunReduceClose(d: Dictionary, s: seq<Item>, x: Expr, rest: seq<Token>)
    ensures Run(d, s + [Mark(TOpen), Operand(x)], [TClose] + rest) == Run(d, s + [Operand(x)], rest)
  {
    var t := s + [Mark(TOpen), Operand(x)];
    assert t[|s|] == Mark(TOpen) && t[|s| + 1] == Operand(x);
    Shift(d, t, TClose, rest);
    Three(s, Mark(TOpen), Operand(x), Mark(TClose));
    assert t + [Mark(TClose)] == s + [Mark(TOpen), Operand(x), Mark(TClose)];
    ReduceTo(d, t + [Mark(TClose)], rest, s + [Operand(x)]);
  }

  lemma RunWord(d: Dictionary, s: seq<Item>, w: string, rest: seq<Token>)
    requires Ready(s) && Stops(rest)
    ensures Run(d, s, [Word(w)] + rest) == Run(d, s + [Operand(Sym(d.find(w)))], rest)
  {
    Shift(d, s, Word(w), rest);
    hide Run;
    var t := s + [Name(d.find(w))];
    assert t[..|s|] == s;
    assert IsName(Nth(t, 0)) && (s != [] ==> Nth(t, 1) == Some(s[|s| - 1]));
    ReduceTo(d, t, rest, s + [Operand(Sym(d.find(w)))]);
  }

  lemma RunReduceTest(d: Dictionary, s: seq<Item>, a: Symbol, op: Token, b: Symbol, rest: seq<Token>)
    requires op in {TEqual, TUnequal}
    ensures Run(d, s + [Name(a), Mark(op), Name(b)], rest)
      == Run(d, s + [Operand(if op == TEqual then Equal(a, b) else Unequal(a, b))], rest)
  {
    Three(s, Name(a), Mark(op), Name(b));
    ReduceTo(d, s + [Name(a), Mark(op), Name(b)], rest,
             s + [Operand(if op == TEqual then Equal(a, b) else Unequal(a, b))]);
  }

  lemma RunTest(d: Dictionary, s: seq<Item>, w1: string, op: Token, w2: string, rest: seq<Token>)
    requires Ready(s) && Stops(rest) && op in {TEqual, TUnequal}
    ensures var a, b := d.find(w1), d.find(w2);
      Run(d, s, [Word(w1), op, Word(w2)] + rest)
        == Run(d, s + [Operand(if op == TEqual then Equal(a, b) else Unequal(a, b))], rest)
  {
    hide Run, Weight;
    var a, b := d.find(w1), d.find(w2);
    assert [Word(w1), op, Word(w2)] + rest == [Word(w1)] + ([op] + ([Word(w2)] + rest));
    Shift(d, s, Word(w1), [op] + ([Word(w2)] + rest));
    var t := s + [Name(a)];
    assert IsName(Nth(t, 0)) && (s != [] ==> Nth(t, 1) == Some(s[|s| - 1]));
    Shift(d, t, op, [Word(w2)] + rest);
    Shift(d, t + [Mark(op)], Word(w2), rest);
    assert t + [Mark(op)] + [Name(b)] == s + [Name(a), Mark(op), Name(b)];
    RunReduceTest(d, s, a, op, b, rest);
  }

  lemma RunOperator(d: Dictionary, s: seq<Item>, x: Expr, op: Token, rest: seq<Token>)
    requires op in {TAnd, TOr} && Ready(s) && !TopIs(s, TNot) && !TopIs(s, TAnd)
    requires op == TOr ==> !TopIs(s, TOr)
    ensures Run(d, s + [Operand(x)], [op] + rest) == Run(d, s + [Operand(x), Mark(op)], rest)
  {
    var t := s + [Operand(x)];
    assert s != [] ==> Nth(t, 1) == Some(s[|s| - 1]);
    Shift(d, t, op, rest);
    assert t + [Mark(op)] == s + [Operand(x), Mark(op)];
  }

  // ----- reading back what was printed -----

  /** Where an unparenthesised expression may be read as one operand. */
  predicate Fits(s: seq<Item>, e: Expr, rest: seq<Token>) {
    && Ready(s) && Stops(rest)
    && (e.And? ==> !TopIs(s, TAnd) && !TopIs(s, TNot))
    && (e.Or? ==> !TopIs(s, TAnd) && !TopIs(s, TNot) && !TopIs(s, TOr) && Head(rest) != Some(TAnd))
  }

  predicate InParentheses(e: Expr, prev: ExprType) {
    CompareType(prev, TypeOf(e)) > 0
  }

  lemma {:induction false} RunPrint(d: Dictionary, s: seq<Item>, e: Expr, prev: ExprType, rest: seq<Token>)
    requires Ready(s) && Stops(rest)
    requires !InParentheses(e, prev) ==> Fits(s, e, rest)
    ensures Run(d, s, Print(d, e, prev) + rest) == Run(d, s + [Operand(Regroup(d, e))], rest)
    decreases e, 1
  {
    if InParentheses(e, prev) {
      var bare := PrintBare(d, e);
      assert Print(d, e, prev) + rest == [TOpen] + (bare + ([TClose] + rest));
      Shift(d, s, TOpen, bare + ([TClose] + rest));
      RunBare(d, s + [Mark(TOpen)], e, [TClose] + rest);
      assert s + [Mark(TOpen)] + [Operand(Regroup(d, e))] == s + [Mark(TOpen), Operand(Regroup(d, e))];
      RunReduceClose(d, s, Regroup(d, e), rest);
    } else {
      RunBare(d, s, e, rest);
    }
  }

  lemma {:induction false} RunBare(d: Dictionary, s: seq<Item>, e: Expr, rest: seq<Token>)
    requires Fits(s, e, rest)
    ensures Run(d, s, PrintBare(d, e) + rest) == Run(d, s + [Operand(Regroup(d, e))], rest)
    decreases e, 0
  {
    match e
    case Sym(x) => RunWord(d, s, d.name(x), rest);
    case Equal(a, b) => RunTest(d, s, d.name(a), TEqual, d.name(b), rest);
    case Unequal(a, b) => RunTest(d, s, d.name(a), TUnequal, d.name(b), rest);
    case Not(a) =>
      assert PrintBare(d, e) + rest == [TNot] + (Print(d, a, ENot) + rest);
      Shift(d, s, TNot, Print(d, a, ENot) + rest);
      RunPrint(d, s + [Mark(TNot)], a, ENot, rest);
      assert s + [Mark(TNot)] + [Operand(Regroup(d, a))] == s + [Mark(TNot), Operand(Regroup(d, a))];
      RunReduceNot(d, s, Regroup(d, a), rest);
    case And(l, r) =>
      var tail := [TAnd] + (Print(d, r, EAnd) + rest);
      assert PrintBare(d, e) + rest == Print(d, l, EAnd) + tail;
      RunPrint(d, s, l, EAnd, tail);
      RunOperator(d, s, Regroup(d, l), TAnd, Print(d, r, EAnd) + rest);
      RunAndTail(d, s, Regroup(d, l), r, rest);
    case Or(l, r) =>
      var tail := [TOr] + (Print(d, r, EOr) + rest);
      assert PrintBare(d, e) + rest == Print(d, l, EOr) + tail;
      RunPrint(d, s, l, EOr, tail);
      RunOperator(d, s, Regroup(d, l), TOr, Print(d, r, EOr) + rest);
      RunOrTail(d, s, Regroup(d, l), r, rest);
  }

  /** After "x &&" the operands of the next chain join x one by one. */
  lemma {:induction false} RunAndTail(d: Dictionary, s: seq<Item>, x: Expr, e: Expr, rest: seq<Token>)
    requires Ready(s) && Stops(rest) && !TopIs(s, TAnd) && !TopIs(s, TNot)
    ensures Run(d, s + [Operand(x), Mark(TAnd)], Print(d, e, EAnd) + rest)
         == Run(d, s + [Operand(FoldAnd(d, x, e))], rest)
    decreases e, 2
  {
    var t := s + [Operand(x), Mark(TAnd)];
    if e.And? {
      var tail := [TAnd] + (Print(d, e.right, EAnd) + rest);
      assert Print(d, e, EAnd) + rest == Print(d, e.left, EAnd) + tail;
      RunAndTail(d, s, x, e.left, tail);
      RunOperator(d, s, FoldAnd(d, x, e.left), TAnd, Print(d, e.right, EAnd) + rest);
      RunAndTail(d, s, FoldAnd(d, x, e.left), e.right, rest);
    } else {
      RunPrint(d, t, e, EAnd, rest);
      assert t + [Operand(Regroup(d, e))] == s + [Operand(x), Mark(TAnd), Operand(Regroup(d, e))];
      RunReduceAnd(d, s, x, Regroup(d, e), rest);
    }
  }

  lemma {:induction false} RunOrTail(d: Dictionary, s: seq<Item>, x: Expr, e: Expr, rest: seq<Token>)
    requires Ready(s) && Stops(rest) && Head(rest) != Some(TAnd)
    requires !TopIs(s, TAnd) && !TopIs(s, TNot) && !TopIs(s, TOr)
    ensures Run(d, s + [Operand(x), Mark(TOr)], Print(d, e, EOr) + rest) == Run(d, s + [Operand(FoldOr(d, x, e))], rest)
    decreases e, 2
  {
    var t := s + [Operand(x), Mark(TOr)];
    if e.Or? {
      var tail := [TOr] + (Print(d, e.right, EOr) + rest);
      assert Print(d, e, EOr) + rest == Print(d, e.left, EOr) + tail;
      RunOrTail(d, s, x, e.left, tail);
      RunOperator(d, s, FoldOr(d, x, e.left), TOr, Print(d, e.right, EOr) + rest);
      RunOrTail(d, s, FoldOr(d, x, e.left), e.right, rest);
    } else {
      RunPrint(d, t, e, EOr, rest);
      assert t + [Operand(Regroup(d, e))] == s + [Operand(x), Mark(TOr), Operand(Regroup(d, e))];
      RunReduceOr(d, s, x, Regroup(d, e), rest);
    }
  }

  /** Every printed expression parses, to itself with its chains grouped to the left. */
  lemma ParseOfPrint(d: Dictionary, e: Expr)
    ensures Parse(d, Print(d, e, ENone)) == Some(Regroup(d, e))
  {
    RunPrint(d, [], e, ENone, []);
    assert Print(d, e, ENone) + [] == Print(d, e, ENone);
    assert [] + [Operand(Regroup(d, e))] == [Operand(Regroup(d, e))];
    assert Nth([Operand(Regroup(d, e))], 1) == None;
  }

  /** No quoted constant occurs: the one kind of symbol that does not come back. */
  predicate NoQuoted(e: Expr) {
    match e
    case Sym(s) => !s.Quoted?
    case Not(a) => NoQuoted(a)
    case And(l, r) => NoQuoted(l) && NoQuoted(r)
    case Or(l, r) => NoQuoted(l) && NoQuoted(r)
    case Equal(a, b) => !a.Quoted? && !b.Quoted?
    case Unequal(a, b) => !a.Quoted? && !b.Quoted?
  }

  /** e with its chains grouped to the left, and its own symbols. */
  function Grouped(e: Expr): Expr
    decreases e, 0
  {
    match e
    case Not(a) => Not(Grouped(a))
    case And(l, r) => GroupedAnd(Grouped(l), r)
    case Or(l, r) => GroupedOr(Grouped(l), r)
    case _ => e
  }

  /** The operands of the chain e joined to x one by one. */
  function GroupedAnd(x: Expr, e: Expr): Expr
    decreases e, 1
  {
    if e.And? then GroupedAnd(GroupedAnd(x, e.left), e.right) else And(x, Grouped(e))
  }

  function GroupedOr(x: Expr, e: Expr): Expr
    decreases e, 1
  {
    if e.Or? then GroupedOr(GroupedOr(x, e.left), e.right) else Or(x, Grouped(e))
  }

  lemma AndAssociates(a: T.Tri, b: T.Tri, c: T.Tri)
    ensures T.And(T.And(a, b), c) == T.And(a, T.And(b, c))
    ensures T.Or(T.Or(a, b), c) == T.Or(a, T.Or(b, c))
  {
  }

  lemma {:induction false} GroupedChainKeepsValue(x: Expr, e: Expr, v: Valuation)
    ensures Eval(GroupedAnd(x, e), v) == T.And(Eval(x, v), Eval(e, v))
    ensures Eval(GroupedOr(x, e), v) == T.Or(Eval(x, v), Eval(e, v))
    decreases e, 1
  {
    GroupedKeepsValue(e, v);
    if e.And? {
      GroupedChainKeepsValue(x, e.left, v);
      GroupedChainKeepsValue(GroupedAnd(x, e.left), e.right, v);
      AndAssociates(Eval(x, v), Eval(e.left, v), Eval(e.right, v));
    } else if e.Or? {
      GroupedChainKeepsValue(x, e.left, v);
      GroupedChainKeepsValue(GroupedOr(x, e.left), e.right, v);
      AndAssociates(Eval(x, v), Eval(e.left, v), Eval(e.right, v));
    }
  }

  lemma {:induction false} GroupedKeepsValue(e: Expr, v: Valuation)
    ensures Eval(Grouped(e), v) == Eval(e, v)
    decreases e, 0
  {
    match e
    case Not(a) => GroupedKeepsValue(a, v);
    case And(l, r) => GroupedKeepsValue(l, v); GroupedChainKeepsValue(Grouped(l), r, v);
    case Or(l, r) => GroupedKeepsValue(l, v); GroupedChainKeepsValue(Grouped(l), r, v);
    case _ =>
  }

  lemma {:induction false} GroupedChainKeepsQuoted(x: Expr, e: Expr)
    ensures NoQuoted(GroupedAnd(x, e)) <==> NoQuoted(x) && NoQuoted(e)
    ensures NoQuoted(GroupedOr(x, e)) <==> NoQuoted(x) && NoQuoted(e)
    decreases e, 1
  {
    GroupedKeepsQuoted(e);
    if e.And? {
      GroupedChainKeepsQuoted(x, e.left);
      GroupedChainKeepsQuoted(GroupedAnd(x, e.left), e.right);
    } else if e.Or? {
      GroupedChainKeepsQuoted(x, e.left);
      GroupedChainKeepsQuoted(GroupedOr(x, e.left), e.right);
    }
  }

  lemma {:induction false} GroupedKeepsQuoted(e: Expr)
    ensures NoQuoted(Grouped(e)) <==> NoQuoted(e)
    decreases e, 0
  {
    match e
    case Not(a) => GroupedKeepsQuoted(a);
    case And(l, r) => GroupedKeepsQuoted(l); GroupedChainKeepsQuoted(Grouped(l), r);
    case Or(l, r) => GroupedKeepsQuoted(l); GroupedChainKeepsQuoted(Grouped(l), r);
    case _ =>
  }

  /** Nothing that was read is a quoted constant. */
  lemma {:induction false} FoldHasNoQuoted(d: Dictionary, x: Expr, e: Expr)
    requires Consistent(d) && NoQuoted(x)
    ensures NoQuoted(FoldAnd(d, x, e)) && NoQuoted(FoldOr(d, x, e))
    decreases e, 1
  {
    RegroupHasNoQuoted(d, e);
    if e.And? {
      FoldHasNoQuoted(d, x, e.left);
      FoldHasNoQuoted(d, FoldAnd(d, x, e.left), e.right);
    } else if e.Or? {
      FoldHasNoQuoted(d, x, e.left);
      FoldHasNoQuoted(d, FoldOr(d, x, e.left), e.right);
    }
  }

  lemma {:induction false} RegroupHasNoQuoted(d: Dictionary, e: Expr)
    requires Consistent(d)
    ensures NoQuoted(Regroup(d, e))
    decreases e, 0
  {
    match e
    case Not(a) => RegroupHasNoQuoted(d, a);
    case And(l, r) => RegroupHasNoQuoted(d, l); FoldHasNoQuoted(d, Regroup(d, l), r);
    case Or(l, r) => RegroupHasNoQuoted(d, l); FoldHasNoQuoted(d, Regroup(d, l), r);
    case _ =>
  }

  lemma {:induction false} FoldIsGrouped(d: Dictionary, x: Expr, e: Expr)
    requires Consistent(d) && NoQuoted(e)
    ensures FoldAnd(d, x, e) == GroupedAnd(x, e) && FoldOr(d, x, e) == GroupedOr(x, e)
    decreases e, 1
  {
    RegroupIsGrouped(d, e);
    if e.And? {
      FoldIsGrouped(d, x, e.left);
      FoldIsGrouped(d, FoldAnd(d, x, e.left), e.right);
    } else if e.Or? {
      FoldIsGrouped(d, x, e.left);
      FoldIsGrouped(d, FoldOr(d, x, e.left), e.right);
    }
  }

  lemma {:induction false} RegroupIsGrouped(d: Dictionary, e: Expr)
    requires Consistent(d) && NoQuoted(e)
    ensures Regroup(d, e) == Grouped(e)
    decreases e, 0
  {
    match e
    case Not(a) => RegroupIsGrouped(d, a);
    case And(l, r) => RegroupIsGrouped(d, l); FoldIsGrouped(d, Regroup(d, l), r);
    case Or(l, r) => RegroupIsGrouped(d, l); FoldIsGrouped(d, Regroup(d, l), r);
    case _ =>
  }

  /** An expression comes back with its own symbols, grouped to the left, exactly when none of them is a quoted
      constant. */
  lemma RereadIffNotQuoted(d: Dictionary, e: Expr)
    requires Consistent(d)
    ensures Parse(d, Print(d, e, ENone)) == Some(Grouped(e)) <==> NoQuoted(e)
  {
    ParseOfPrint(d, e);
    if NoQuoted(e) {
      RegroupIsGrouped(d, e);
    } else {
      RegroupHasNoQuoted(d, e);
      GroupedKeepsQuoted(e);
    }
  }

  /** Printed and parsed, an expression without quoted constants has the same value everywhere. */
  lemma ParseOfPrintKeepsValue(d: Dictionary, e: Expr, v: Valuation)
    requires Consistent(d) && NoQuoted(e)
    ensures var r := Parse(d, Print(d, e, ENone)); r.Some? && Eval(r.value, v) == Eval(e, v)
  {
    RereadIffNotQuoted(d, e);
    GroupedKeepsValue(e, v);
  }

  lemma TokensAssociate(a: seq<Token>, b: seq<Token>, c: seq<Token>, t: Token)
    ensures (a + ([t] + b)) + ([t] + c) == a + ([t] + (b + ([t] + c)))
  {
  }

  lemma {:induction false} PrintOfFoldAnd(d: Dictionary, x: Expr, e: Expr)
    requires Consistent(d)
    ensures PrintBare(d, FoldAnd(d, x, e)) == Print(d, x, EAnd) + ([TAnd] + Print(d, e, EAnd))
    decreases e, 1
  {
    if e.And? {
      PrintOfFoldAnd(d, x, e.left);
      PrintOfFoldAnd(d, FoldAnd(d, x, e.left), e.right);
      hide Regroup;
      var a, b, c := Print(d, x, EAnd), Print(d, e.left, EAnd), Print(d, e.right, EAnd);
      assert Print(d, FoldAnd(d, x, e.left), EAnd) == a + ([TAnd] + b);
      TokensAssociate(a, b, c, TAnd);
    } else {
      PrintOfRegroup(d, e, EAnd);
    }
  }

  lemma {:induction false} PrintOfFoldOr(d: Dictionary, x: Expr, e: Expr)
    requires Consistent(d)
    ensures PrintBare(d, FoldOr(d, x, e)) == Print(d, x, EOr) + ([TOr] + Print(d, e, EOr))
    decreases e, 1
  {
    if e.Or? {
      PrintOfFoldOr(d, x, e.left);
      PrintOfFoldOr(d, FoldOr(d, x, e.left), e.right);
      hide Regroup;
      var a, b, c := Print(d, x, EOr), Print(d, e.left, EOr), Print(d, e.right, EOr);
      assert Print(d, FoldOr(d, x, e.left), EOr) == a + ([TOr] + b);
      TokensAssociate(a, b, c, TOr);
    } else {
      PrintOfRegroup(d, e, EOr);
    }
  }

  lemma {:induction false} PrintOfRegroup(d: Dictionary, e: Expr, prev: ExprType)
    requires Consistent(d)
    ensures Print(d, Regroup(d, e), prev) == Print(d, e, prev)
    decreases e, 0
  {
    match e
    case Not(a) => PrintOfRegroup(d, a, ENot);
    case And(l, r) => PrintOfRegroup(d, l, EAnd); PrintOfFoldAnd(d, Regroup(d, l), r);
    case Or(l, r) => PrintOfRegroup(d, l, EOr); PrintOfFoldOr(d, Regroup(d, l), r);
    case _ =>
  }

  /** Printing what was read back gives the tokens it was read from. */
  lemma PrintParsePrint(d: Dictionary, e: Expr)
    requires Consistent(d)
    ensures var r := Parse(d, Print(d, e, ENone));
      r.Some? && Print(d, r.value, ENone) == Print(d, e, ENone)
  {
    ParseOfPrint(d, e);
    PrintOfRegroup(d, e, ENone);
  }
}
