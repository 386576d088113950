# Verified model of the configuration engine and the firmware tools

This project models two parts of the repository and proves what they promise.

**The configuration engine (`scripts/config`).** Dependencies are written in a three-valued language
(n < m < y). The model has the expressions and their evaluation, the rewriters that simplify them, the
printer and the parser, the cache of `sym_calc_value` over the symbol graph, choice groups, the search for
recursive dependencies, the menu tree that is built and then rearranged through pointers, and the
configuration file with its line buffer.

**The file transformers (`tools`).** ELF truncation, SHA-1 and MD5 in pieces of any length, the S-record
writer that fills in lengths afterwards, the ZyNOS checksum and image writer, the NAND error correcting
code and the PC1 cipher.

Code that works by updates is modelled by classes, arrays and loops, and each method is proved to compute a
function of its inputs or of the old state; the properties are lemmas about these functions. `Bytes`,
`Options` and `BlockHash` hold what several modules share.

What the proofs show about the code, beyond confirming it:

- `expr_eliminate_dups` is not exact when a symbol is m. Its second pass reads m as undecided: a value that
  is n or y is kept under every valuation, and an m may become n or y (`ExprDups.EliminateDupsRefines`,
  `ExprDupsBoundary.ModulesAreSettled`); one cancellation is exact if and only if the value is not m
  (`ExprDups.CancelIsExactIffNotMod`), and without cancellations the whole is exact. So a menu entry can be
  visible at y below a parent at m (`MenuDeps.NarrowedAboveParent`).
- `expr_trans_compare` flips = and != under a negation, which is right if and only if the negated value is
  not m (`ExprCompare.NegatedCompareIffDefinite`).
- `expr_eq` does not find a chain with two quoted constants equal to itself. It compares chains by matching their
  operands from the left, however the chains are grouped, and what is left over on both sides decides
  (`ExprMatch.EqIffMatched`); so an expression equals itself exactly by that rule (`ExprMatch.EqualsItselfIffMatched`).
  Unless an operand comes down to the n of an AND or the y of an OR without being that literal, as in `a && (n || n)`,
  a plainer recursion says the same (`ExprSelfEq.EqualsItselfIff`); there, an operand that differs from itself can be
  matched by another one (`ExprSelfEq.HiddenAbsorberMatches`). After expr_eliminate_yn, quoted constants are all that
  matters (`ExprSelfEq.EqualsItselfIffOneQuoted`).
- `menu_finalize` makes an entry a child of the one before it if its condition asks for that entry's symbol, or names it
  and leaves nothing of the condition above. Two single tests are never compared for that, so an entry with exactly
  the condition above it need not become a child (`ExprAdopt.SingleTestIsNotAdopted`).
- A quoted constant is printed without its quotes, so it is read back as another symbol
  (`ExprPrint.RereadIffNotQuoted`).
- The search for recursive dependencies does not look into reverse deselections, so a symbol that
  deselects itself passes it (`SymbolDeps.SelfDeselectionPasses`). The values can be computed in some order if and
  only if the same search is silent over all that the evaluation reads: deselections, and what a choice looks at to
  find its member (`SymbolDeps.SweepEvaluated`, `ChoiceDeps.SweepReads`).
- A choice asks its members while the members ask their choice. If no symbol depends on itself through any chain,
  counting what a choice looks at to find its member, every symbol gets its value in the one consistent solution,
  whoever is asked first (`Choice.AskInOrder`), and a boolean choice that is y has exactly one visible member at y
  (`ChoiceSet.ExactlyThePickedIsYes`). Otherwise a condition that the choice tries may lead back to a member, directly
  or through symbols outside the group: that member is evaluated before the choice has one and stays n. The picked
  member is y if and only if no condition that is tried leads to it (`ChoicePicked.PickedIsYesIffNotReached`); asked
  before its choice, a member is y if it is picked, and otherwise the same condition decides, as long as the picked
  one stays visible (`ChoiceOrders.MemberAskedFirst`). The smallest groups that end with a choice at y and no member
  at y are `ChoiceOrders.SiblingConditionBreaks` and `ChoiceOrders.ConditionOutsideBreaks`; the search for recursive
  dependencies does not report the second (`ChoiceDeps.ConditionOutsidePasses`).
- `srec2bin` begins with address 0xFFFFFFFF as the last one, so a file whose first byte goes to address 0
  has no first record and cannot be read back (`Srec.ReproducedIffNotAtZero`), and a byte right behind a
  program start is filed too low, so that the file gives back what was written if and only if there is no such
  byte (`Srec.ReproducedIffClean`). With bytes before the first record that fails: there is a run whose bytes happen
  to spell the header of a record for all of them, so that it is read back (`SrecWitness.UncleanIsReproduced`).
- `sstrip` reads the program headers from behind the ELF header and writes them to `e_phoff`. All segments are
  kept if and only if the two tables tell the same places and bytes (`Sstrip.SegmentsKeptIffTold`); a file that
  loses its segment is `Sstrip.TableElsewhere`.
- The ZyNOS fix word brings the sum to the wanted value except for a wanted value of zero, where a payload
  that is not all zero ends at 65535 (`ZynCsum.FixedSum`).

## Model

| member | source | states |
|---|---|---|
| ExprTransform.TransformKeepsValue | scripts/config/expr.c:640-775 | expr_transform keeps the value of every expression under every legal valuation, m included |
| ExprTransform.TransformNotNegates | scripts/config/expr.c:702-768 | pushing a negation into a transformed expression gives exactly its negation |
| ExprTransform.TransformIsNormal | scripts/config/expr.c:640-775 | afterwards NOT stands on symbols that are not constants only, and no boolean is compared with y, m or n |
| ExprTransform.NormalIffFixed | scripts/config/expr.c:640-775 | an expression is in that form if and only if the transformation leaves it alone |
| ExprTransform.TransformIsIdempotent | scripts/config/expr.c:640-775 | transforming twice is transforming once |
| ExprTransform.TransformKeepsAtoms | scripts/config/expr.c:640-775 | every leaf stays where it is, from left to right; only its polarity changes, and a boolean compared with m becomes a constant |
| ExprEq.EliminateYnKeepsValue | scripts/config/expr.c:235-316 | dropping y and n operands keeps the value under every legal valuation |
| ExprEq.EliminateYnIsYnFree | scripts/config/expr.c:235-316 | no AND or OR is left with the literal y or n as operand |
| ExprEq.EliminateYnShrinksIffNotFree | scripts/config/expr.c:235-316 | the expression gets smaller if and only if such an operand was there; otherwise it is unchanged |
| ExprEq.EliminateEqInFactors | scripts/config/expr.c:135-166 | the chain step splits both values into one common factor and what is left of each |
| ExprEq.MatchesAreUsedUp | scripts/config/expr.c:149-165 | trans_count grows by the operands used up, one on each side for every match |
| ExprEq.EliminateEqFactors | scripts/config/expr.c:168-191 | expr_eliminate_eq leaves two expressions from which both inputs are restored by the same two bounds |
| ExprEq.EqIsSound | scripts/config/expr.c:193-233 | expr_eq answers true only for expressions with equal values under every legal valuation |
| ExprEq.EliminateEqToYes | scripts/config/expr.c:168-191 | if the second output is y, the first input is at most the second: the implication menu_finalize relies on |
| ExprMatch.EliminateIsMatching | scripts/config/expr.c:135-166 | on the operands of two chains the recursion is a matching from the left: each operand takes the first partner it finds, however the chains are grouped |
| ExprMatch.EqIffMatched | scripts/config/expr.c:193-233 | two chains of one operator are found equal if and only if what the matching leaves comes down to the same symbol on both sides; for all operands |
| ExprMatch.EqualsItselfIffMatched | scripts/config/expr.c:193-233 | every expression, hidden absorbers and quoted constants included, equals itself if and only if that holds for its operands matched with themselves |
| ExprMatch.EqIgnoresGrouping | scripts/config/expr.c:135-233 | how a chain is grouped makes no difference to what it is found equal to |
| ExprMatch.NothingSharedIsLeft | scripts/config/expr.c:135-166 | after the elimination no operand of the first chain matches one of the second: nothing in common is overlooked |
| ExprMatch.OperandIsFound | scripts/config/expr.c:168-191 | a single operand on the first side is removed if and only if the chain on the second side has a match for it |
| ExprSelfEq.EqualsItselfIff | scripts/config/expr.c:135-233 | without hidden absorbers an expression equals itself if and only if each of its chains, less the operands that equal themselves and are not guarded, comes down to one symbol |
| ExprSelfEq.EqualsItselfIffOneQuoted | scripts/config/expr.c:135-233 | without y and n operands: if and only if no chain has two quoted constants among its operands |
| ExprSelfEq.EqIsReflexive | scripts/config/expr.c:193-233 | every expression without quoted operands in its chains equals itself, hidden absorbers or not |
| ExprSelfEq.EqualIsSelfEqual | scripts/config/expr.c:193-233 | two expressions without hidden absorbers that are found equal are each equal to themselves in that sense |
| ExprSelfEq.TwoQuotedOperandsAreNotMatched | scripts/config/expr.c:153-166 | a chain of any two quoted constants does not equal itself, under AND or OR |
| ExprSelfEq.HiddenAbsorberMatches | scripts/config/expr.c:149-165 | with a hidden absorber the rule fails: an operand that differs from itself is matched by another operand |
| ExprEq.ExtractEqInFactors | scripts/config/expr.c:852-879 | each step of the extraction moves an equal part into the common chain and accounts for it in both values |
| ExprEq.ExtractEqFactors | scripts/config/expr.c:830-879 | common part and remainders give back both inputs |
| ExprJoin.JoinOrKeepsValue | scripts/config/expr.c:350-412 | whenever two operands of an OR are joined, the joined one has the value of their OR, for all tristate values |
| ExprJoin.JoinAndKeepsValue | scripts/config/expr.c:414-506 | the same for AND |
| ExprJoin.JoinIsOperand | scripts/config/expr.c:350-506 | a join never yields the chain operator itself, so the chain keeps its shape |
| ExprSlots.EvalPut | scripts/config/expr.c:508-558 | a chain is worth its operand in a slot combined with everything around it, whatever is put there |
| ExprSlots.PutRefines | scripts/config/expr.c:560-614 | replacing an operand by one that settles more settles the chain no differently |
| ExprDups.Dups1KeepsValue | scripts/config/expr.c:508-558 | the first pass with both joins keeps the value under every tristate valuation |
| ExprDups.CancelIsExactIffNotMod | scripts/config/expr.c:581-609 | a cancellation keeps the value if and only if the value was not m |
| ExprDups.Dups2Refines | scripts/config/expr.c:560-614 | the second pass, falling through from its first branch, never changes an n or a y |
| ExprDups.EliminateDupsRefines | scripts/config/expr.c:616-638 | the whole loop never changes an n or a y, under any tristate valuation |
| ExprDups.EliminateDupsIsExactWithoutModules | scripts/config/expr.c:616-638 | without m-valued symbols and m literals it keeps the value |
| ExprDups.EliminateDupsIsExactIfNothingCancels | scripts/config/expr.c:616-638 | if no round cancels operands, it keeps the value under every legal valuation, m included |
| ExprDups.EliminateDupsIsStable | scripts/config/expr.c:616-638 | it ends where one more round counts no rewrite |
| ExprDups.EliminateDupsChangedIsYnFree | scripts/config/expr.c:628-635 | what it changed has no y or n operand left |
| ExprDups.Dups1LeavesNoJoin | scripts/config/expr.c:508-558 | a first pass that counts nothing has tried every pair of operands: none can be joined |
| ExprDups.Dups2LeavesNoCancel | scripts/config/expr.c:560-614 | a second pass that counts nothing leaves no pair of operands that cancels |
| ExprDups.Dups2LeavesNoCancelByWhole | scripts/config/expr.c:569-579 | nor one that cancels against the whole chain, because of the fall-through |
| ExprDups.EliminateDupsIsReduced | scripts/config/expr.c:616-638 | in the result no two operands of the top chain can be joined or cancelled |
| ExprReduced.JoinIff | scripts/config/expr.c:350-506 | two operands are joined if and only if they are equal or one of the pairs the rules name, written out by their forms: under OR two tests of a tristate or a boolean and its negation; under AND a symbol with a test that settles it, a test with an exclusion, two exclusions |
| ExprReduced.ComplementedCancels | scripts/config/expr.c:581-609 | an operand whose negation comes down to different leaves that are all operands of a chain is cancelled by it |
| ExprReduced.DuplicatesAreGone | scripts/config/expr.c:616-638 | in the result, in every chain outside negations: no two operands are equal, no two are such a pair, and no operand is complemented by the leaves beside it |
| ExprReduced.JoinLandsInSecond | scripts/config/expr.c:532-556 | the join stands in the place of the second operand, the unit in that of the first, and every other operand stays |
| ExprVisit.RoundIsTwoLoops | scripts/config/expr.c:508-638 | a round is two double loops over the operands from left to right: joining pairs, then trying each chain among them against every other operand and every group of operands |
| ExprDupsBoundary.ModulesAreSettled | scripts/config/expr.c:581-609 | for any two tristate symbols, (A OR B) AND NOT A AND NOT B becomes n, and its dual becomes y; that is the right value if and only if the expression was not m |
| ExprDupsBoundary.ModulesCanBeLost | scripts/config/expr.c:581-590 | with A = m and B = n the first goes from m to n |
| ExprDupsBoundary.ModulesCanBecomeYes | scripts/config/expr.c:592-604 | with A = m and B = y the second goes from m to y |
| DupEliminator.Rewriter.Pass1 | scripts/config/expr.c:508-558 | the pass that overwrites slots, two of which may lie in one chain, computes with its counter the function about which the lemmas speak |
| DupEliminator.Rewriter.Pass1Operand | scripts/config/expr.c:526-556 | the same for one pair of operands, whose own chain is rewritten first |
| DupEliminator.Rewriter.Pass2 | scripts/config/expr.c:560-614 | the second pass in place, including the missing return |
| DupEliminator.Rewriter.Pass2Operand | scripts/config/expr.c:574-612 | one pair of the second pass |
| DupEliminator.Rewriter.Run | scripts/config/expr.c:616-638 | the loop in place terminates, computes EliminateDups and gives the caller's counter back |
| ExprNodes.EliminateYnInPlace | scripts/config/expr.c:235-316 | on nodes that are overwritten, the tree afterwards is EliminateYn of the tree before |
| ExprNodes.TransformInPlace | scripts/config/expr.c:640-775 | the same for expr_transform, with its one new node |
| ExprNodes.TransformNegation | scripts/config/expr.c:702-768 | the negation cases on nodes |
| ExprNodes.TransBoolInPlace | scripts/config/expr.c:321-345 | the same for expr_trans_bool |
| ExprEqNodes.Copy | scripts/config/expr.c:67-102 | expr_copy gives a tree of new nodes for the same expression |
| ExprEqNodes.EqOfNodes | scripts/config/expr.c:193-233 | expr_eq on nodes takes copies apart and answers Eq; the trees it compares are left alone |
| ExprEqNodes.MatchOperands | scripts/config/expr.c:146-165 | two operands that are equal become units where they stand, others stay, and the count says which |
| ExprEqNodes.EliminateEqInPlace | scripts/config/expr.c:135-166 | the recursion over both trees leaves what EliminateEqIn says, counts its matches, and the trees still share no node |
| ExprEqNodes.EliminateEqPair | scripts/config/expr.c:168-191 | expr_eliminate_eq on nodes computes EliminateEq and counts the matches of both switches |
| ExprCompare.TransCompareReads | scripts/config/expr.c:881-940 | expr_trans_compare evaluates e with every symbol read as compared with the constant |
| ExprCompare.TransCompareIsDefinite | scripts/config/expr.c:881-940 | its result is y or n wherever it has no bare operand left |
| ExprCompare.TransCompareKeepsOrder | scripts/config/expr.c:881-940 | comparing with y or n tests the same symbols in the same order |
| ExprCompare.TransCompareSaysNotN | scripts/config/expr.c:881-940 | comparing with "!= n" is y exactly when e is not n, if negated parts are never m |
| ExprCompare.NoNotIsDefinite | scripts/config/expr.c:881-940 | expressions without NOT meet that condition for all tristate valuations |
| ExprCompare.TwoValuedNotsAreDefinite | scripts/config/expr.c:881-940 | two-valued valuations meet it for all expressions |
| ExprCompare.NegatedCompareIffDefinite | scripts/config/expr.c:910-913 | for a negation the result is right if and only if the negated value is not m |
| ExprCompare.BareTextIsMisread | scripts/config/expr.c:926-936 | a symbol that is neither boolean nor tristate is compared by its text |
| ExprCompare.TransBoolKeepsVisibility | scripts/config/expr.c:321-345 | on negation-normal input expr_trans_bool keeps "is n" and "is not n" under every tristate valuation |
| ExprCompare.NegatedTestIffNotMod | scripts/config/expr.c:321-345 | under a negation it does so if and only if the symbol is not m |
| ExprCompare.NormalHasNoNegatedTest | scripts/config/expr.c:640-775 | the output of expr_transform is such input |
| ExprCompare.UncontainedDoesNotMatter | scripts/config/expr.c:777-799 | a symbol that expr_contains_symbol does not find cannot influence the value |
| ExprCompare.DependsMeansNeeds | scripts/config/expr.c:801-828 | if expr_depends_symbol says yes, a symbol that is n makes the expression n |
| ExprCompare.ImpliesBaseIsSound | scripts/config/menu.c:267-275 | the adoption test of menu_finalize accepts only dependencies that are at most the base |
| ExprCompare.AdoptionKeepsVisibility | scripts/config/menu.c:256-275 | where all symbols are bool or tristate and negated parts are never m, an adopted entry is visible only where its new parent's symbol or the condition of its parent's prompt is not n |
| ExprAdopt.ContainsIffOccurs | scripts/config/expr.c:777-799 | expr_contains_symbol says yes exactly for the symbols that occur |
| ExprAdopt.DependsIffAsks | scripts/config/expr.c:801-828 | expr_depends_symbol says yes exactly if an operand of the AND chain is the symbol, a test for y or m, or a test against n |
| ExprAdopt.AdoptsIff | scripts/config/menu.c:260-278 | the adoption test passes exactly for conditions that name the symbol and ask for it, or leave nothing of the reduced condition above |
| ExprAdopt.AskingIsAdopted | scripts/config/menu.c:262-265 | a condition that asks for the symbol is always accepted |
| ExprAdopt.CoveringIsAdopted | scripts/config/menu.c:266-275 | so is one that names the symbol and has every operand of the condition above among its own |
| ExprAdopt.NamingIsAdopted | scripts/config/menu.c:256-275 | below a prompt without a condition, naming the symbol is enough |
| ExprAdopt.SingleTestIsNotAdopted | scripts/config/expr.c:168-191 | two single tests are not compared: the very condition above, alone, is not enough |
| ExprAdopt.ConditionIsReduced | scripts/config/menu.c:257-271 | both conditions are compared with their duplicates gone |
| ExprPrint.ParseTokens | scripts/config/zconf.tab.c:396-431 | the loop over one stack of states and values computes Parse, with the precedences of the tables written out as a reduction rule |
| ExprPrint.ParseOfPrint | scripts/config/zconf.tab.c:1667-1709 | what expr_print prints is read as the same expression with chains grouped to the left |
| ExprPrint.ParseOfPrintKeepsValue | scripts/config/expr.c:983-1079 | hence with the same value under every valuation, if no quoted constant occurs |
| ExprPrint.RereadIffNotQuoted | scripts/config/expr.c:1015-1079 | an expression is read back with its own symbols, grouped to the left, if and only if none of them is a quoted constant |
| ExprPrint.PrintParsePrint | scripts/config/expr.c:1015-1079 | printing what was read gives the same tokens again |
| SymbolSpec.SolutionIsUnique | scripts/config/symbol.c:270-380 | on a ranked graph only one valuation agrees with the rules of sym_calc_value everywhere |
| SymbolSpec.ValuesAreSolution | scripts/config/symbol.c:270-380 | the plain recursive definition is that valuation |
| SymbolSpec.SolutionIsLegal | scripts/config/symbol.c:333-335 | booleans never end at m |
| SymbolSpec.ValueBounds | scripts/config/symbol.c:308-335 | a value lies between what is selected and what is visible or selected |
| SymbolSpec.SettingInRangeTakesEffect | scripts/config/symbol.c:414-470 | a value within range that is set is the value the symbol then has |
| SymbolSpec.ConfirmingChangesNothing | scripts/config/symbol.c:433-470 | setting the value a symbol has changes no symbol of the configuration |
| SymbolSpec.TransformKeepsConfiguration | scripts/config/expr.c:640-775 | running all conditions and reverse dependencies through expr_transform changes the value of no symbol |
| SymbolMeaning.ShownIff | scripts/config/symbol.c:196-216 | a symbol is as visible as its most visible prompt, m counting as y unless it is a tristate, and not at all if it is deselected |
| SymbolMeaning.ForcedIff | scripts/config/symbol.c:219-228 | what selects a symbol, m counting as y for a boolean |
| SymbolMeaning.TextMeans | scripts/config/symbol.c:337-352 | a string or number has the text that was set while it is visible; otherwise what the first default that is met says: a constant its text, a symbol its text, a bool or tristate n, anything else nothing |
| SymbolMeaning.TriMeans | scripts/config/symbol.c:298-336 | a bool or tristate is n if deselected; visible or selected it is its setting or first default that is met, cut at its visibility and raised to its selection; otherwise its default alone; a boolean is never m |
| SymbolMeaning.OtherMeans | scripts/config/symbol.c:282-297 | constants are themselves, symbols without a type are their names |
| SymbolMeaning.SavedMeans | scripts/config/symbol.c:298-352 | SYMBOL_WRITE: what is visible or selected, or has a default that is met; for texts only a default that is a symbol; never a deselected bool or tristate |
| SymbolMeaning.AcceptedIffTakesEffect | scripts/config/symbol.c:414-470 | a value may be set if and only if the symbol then has it, provided its prompt lets it above its selection |
| SymbolMeaning.ForcedIgnoresSetting | scripts/config/symbol.c:414-431 | where the prompt does not, its setting makes no difference |
| SymbolCalc.Evaluator.CalcExpr | scripts/config/expr.c:942-981 | evaluates with the values of the definition and only adds to the cache |
| SymbolCalc.Evaluator.DefaultProp | scripts/config/symbol.c:123-133 | finds the first default whose condition is not n |
| SymbolCalc.Evaluator.CalcVisibility | scripts/config/symbol.c:196-229 | leaves visibility and selection as the definition has them |
| SymbolCalc.Evaluator.CalcTri | scripts/config/symbol.c:298-336 | the bool and tristate case |
| SymbolCalc.Evaluator.CalcText | scripts/config/symbol.c:337-352 | the string case |
| SymbolCalc.Evaluator.CalcValue | scripts/config/symbol.c:270-380 | afterwards the symbol is valid with the value of the definition, and valid entries have not changed |
| SymbolCalc.Evaluator.ClearAllValid | scripts/config/symbol.c:382-392 | starts over for the present settings |
| SymbolCalc.Evaluator.CheckRange | scripts/config/symbol.c:414-431 | answers from the cache what the definition says about the range |
| SymbolCalc.Evaluator.SetTristate | scripts/config/symbol.c:433-470 | accepts what is in range or already so; the cache stays right and the symbol then has that value |
| SymbolCalc.Evaluator.Query | scripts/config/symbol.c:270-380 | whatever was asked before, the answer is the value of the definition |
| SymbolCalc.EvaluateInOrder | scripts/config/symbol.c:270-392 | for every order of queries every symbol gets its value by the definition |
| SymbolDeps.Checker.CheckExpr | scripts/config/symbol.c:771-799 | goes on to every symbol of the expression until one hits |
| SymbolDeps.Checker.CheckSymbol | scripts/config/symbol.c:801-840 | grey symbols are the walk, black ones descend to earlier ones; a hit is a cycle |
| SymbolDeps.EdgeIff | scripts/config/symbol.c:814-828 | the search goes exactly to the symbols that occur in what selects a symbol, in the conditions of its prompts, comments, menus, defaults, ranges and resets, and in the values of the defaults of what is no choice |
| SymbolDeps.Sweep | scripts/config/zconf.tab.c:1964-1966 | a recursive dependency is reported if and only if the graph has a cycle, though edges are given up after a hit |
| SymbolDeps.CleanSweepIsRanked | scripts/config/symbol.c:801-840 | a sweep without report gives the rank that the evaluator needs, where nothing is deselected and there is no choice |
| SymbolDeps.EdgeIsDependence | scripts/config/symbol.c:196-229 | without choices, the edges of the graph with deselections are exactly the dependencies of the evaluation |
| SymbolDeps.SweepEvaluated | scripts/config/symbol.c:801-840 | the same search over that graph is silent if and only if the dependencies can be ranked |
| SymbolDeps.UnreportedCycleDeselects | scripts/config/symbol.c:810-828 | a cycle of the evaluation that the program's search does not report leads through a reverse deselection |
| SymbolDeps.SelfDeselectionPasses | scripts/config/symbol.c:810-828 | a symbol in its own reverse deselection has no rank and yet no reported cycle |
| ChoiceSpec.StepAgrees | scripts/config/symbol.c:196-380 | a symbol depends on what its expressions name and on nothing else: a choice on its prompts, selections, the conditions of its defaults and its members' own conditions, a member on its choice and its own |
| ChoiceSpec.ValuesAreSolution | scripts/config/symbol.c:231-380 | if no symbol depends on itself through any chain, the recursive definition gives all symbols, choices and members what the rules of sym_calc_value make of the values of all |
| ChoiceSpec.SolutionIsUnique | scripts/config/symbol.c:231-380 | no other values do |
| ChoiceSpec.PickedIffSelectable | scripts/config/symbol.c:231-268 | a member is picked if and only if some member is visible, and the picked one is |
| ChoiceSpec.AtMostThePickedIsYes | scripts/config/symbol.c:308-362 | in every solution, in a choice that is y no other visible member is y |
| ChoiceSpec.PickedIsYesIff | scripts/config/symbol.c:308-362 | the picked member is visible and y if and only if its visibility is y |
| ChoiceSpec.ExactlyThePickedIsYes | scripts/config/symbol.c:231-362 | in every solution, in a boolean choice that is y exactly the picked member is visible and y |
| ChoiceSpec.NothingPickedOtherwise | scripts/config/symbol.c:308-362 | a choice that is not y has no picked member and no visible member at y |
| ChoiceMeaning.PickedMeans | scripts/config/symbol.c:231-268 | the user's member if it can be seen; without it the first default that is met and can be seen; without any the first member that can be seen; otherwise none |
| ChoiceMeaning.ChoiceMeans | scripts/config/symbol.c:298-366 | a choice has the value of its setting, visibility and selection, but n if that is y and no member can be seen; it has the preferred member exactly if it is y |
| ChoiceMeaning.MemberMeans | scripts/config/symbol.c:300-336 | a member visible at y is y exactly if it is picked; visible at m it has its setting or default up to m, deselected n, otherwise its default |
| ChoiceRun.MemberAtYes | scripts/config/symbol.c:270-310 | in every configuration, and whatever is stale: a member whose visibility comes out as y is y exactly if the choice has it as its member when the member's evaluation ends |
| ChoiceRun.ChoiceAtYes | scripts/config/symbol.c:231-268 | in every configuration: a choice comes out as y if and only if it has found a member, which was visible then |
| ChoiceRun.VisibilityAsksFirst | scripts/config/symbol.c:203-207 | in every configuration: the visibility of a member asks for its choice before anything else |
| ChoiceRun.OwnVisibility | scripts/config/symbol.c:196-229 | in every configuration: the visibility a symbol is evaluated with is the one the cache shows for it afterwards |
| ChoiceReads.SymReads | scripts/config/symbol.c:270-380 | from any cache that agrees with a world solved below a bound, the evaluation of a symbol below it gives the value of that world and marks valid exactly what the evaluated expressions reach |
| ChoiceReads.PickReads | scripts/config/symbol.c:231-268 | while a choice is on and has no member, the search finds the member of the definition and evaluates exactly what the tried conditions reach |
| ChoiceSet.CalcKeepsSettled | scripts/config/symbol.c:270-380 | without cycles: asking any symbol gives it its value in the solution, and everything that is cached stays right, visibilities included |
| ChoiceSet.ExactlyThePickedIsYes | scripts/config/symbol.c:231-362 | in such a cache, in a boolean choice evaluated to y, a member that has been asked is visible and y if and only if it is the one picked, and there is one |
| ChoiceSet.NothingPickedOtherwise | scripts/config/symbol.c:231-362 | and if the choice is not y, none is picked and no visible member is y |
| ChoiceSet.SetMemberGives | scripts/config/symbol.c:433-470 | after a member visible at y has been set, the choice is worth what it was, and the member is y and picked if and only if the choice is y |
| ChoiceSet.SetMemberTouches | scripts/config/symbol.c:446-470 | setting a member changes the member, the user's pick of its choice, and the new marks of the choice and of the members the cache shows, and nothing else |
| ChoiceSet.ConfirmedKeepsSettled | scripts/config/symbol.c:444-465 | setting the member of a boolean choice that is y already leaves all that is cached right |
| ChoicePicked.ChoiceFinds | scripts/config/symbol.c:231-362 | from any cache, and with cycles through its own search allowed, a choice gets the cell of the definition under the values that hold while it has no member |
| ChoicePicked.PickedIsYesIffNotReached | scripts/config/symbol.c:231-380 | in a boolean choice that comes out as y, the picked member is y if and only if none of the conditions tried for the user's member, the defaults and the members leads to it, and n otherwise |
| ChoicePicked.OthersAreNo | scripts/config/symbol.c:231-380 | there, all other members are n at visibility y |
| ChoicePicked.RankedLeadsNowhere | scripts/config/symbol.c:231-268 | where no symbol depends on itself, no tried condition leads to a member |
| ChoiceOrders.MemberAskedFirst | scripts/config/symbol.c:231-380 | a member asked before its choice is y if it is the one picked; otherwise the picked one is y if and only if no tried condition leads to it and it is visible with the value the first one has got |
| ChoiceOrders.SiblingConditionBreaks | scripts/config/symbol.c:231-310 | B depends on A and comes first: the choice is y, it has picked A, and both are n |
| ChoiceOrders.ConditionOutsideBreaks | scripts/config/symbol.c:231-330 | B depends on X, a symbol outside the group that is y by default if A: the choice is y, it has picked A, and both members are n |
| ChoiceOrders.SiblingConditionDependsOnOrder | scripts/config/symbol.c:231-310 | B depends on NOT A: whether the choice or A is asked first decides which member is picked |
| ChoiceDeps.SweepReads | scripts/config/symbol.c:801-840 | the same search over all that the evaluation reads, choices included, is silent if and only if the values have an order in which they can be computed |
| ChoiceDeps.ConditionOutsidePasses | scripts/config/symbol.c:810-828 | the program's own search reports nothing for the group of ConditionOutsideBreaks |
| Choice.Cache.CalcValue | scripts/config/symbol.c:270-380 | marked valid before its visibility is computed; its old value shows meanwhile |
| Choice.Cache.ComputeValue | scripts/config/symbol.c:298-362 | by type and role; a choice has no member while one is looked for and is reset if none is found |
| Choice.Cache.CalcExprValue | scripts/config/expr.c:942-981 | evaluates operands in order through the cache |
| Choice.Cache.CalcSymVisibility | scripts/config/symbol.c:196-229 | prompts, reverse deselection, then the selection, which does not reach members |
| Choice.Cache.CalcTriValue | scripts/config/symbol.c:298-336 | picked or not for a member at visibility y, otherwise setting or default; choices have no default |
| Choice.Cache.CalcTextValue | scripts/config/symbol.c:337-352 | the string case |
| Choice.Cache.CalcChoiceMember | scripts/config/symbol.c:231-268 | the user's member, the defaults, the members in order |
| Choice.Cache.SetMember | scripts/config/symbol.c:433-470 | setting a member to y: accepted if it is y or visible at y; members that the cache shows as visible are no longer new; the member is then y if and only if the choice is y, and stays n under a choice at m |
| Choice.AskInOrder | scripts/config/symbol.c:231-380 | without cycles, whatever symbols are asked in whatever order and whatever is stale, each gets its value in the one solution |
| MenuTree.DistinctIffNoRepeats | scripts/config/confdata.c:505-518 | the pointers are a tree if and only if the reading order repeats no entry |
| MenuTree.Advance | scripts/config/confdata.c:505-518 | one step of the walk goes to the next entry in reading order, or ends |
| MenuTree.Walk | scripts/config/zconf.tab.c:2126-2165 | the walk over list, next and parent terminates and visits the entries in reading order |
| MenuBuilder.Append | scripts/config/menu.c:55-57 | writing through last_entry_ptr lengthens the list of the open menu by one |
| MenuBuilder.Builder.constructor | scripts/config/menu.c:38-42 | the invariant of the builder holds at the start |
| MenuBuilder.Builder.AddEntry | scripts/config/menu.c:44-58 | a new entry comes last in reading order; all pointers still describe the open menus |
| MenuBuilder.Builder.AddMenu | scripts/config/menu.c:64-69 | the entry added last becomes the open menu; nothing read so far moves |
| MenuBuilder.Builder.EndMenu | scripts/config/menu.c:71-75 | the open menu is finished and becomes the last child around it |
| MenuBuilder.AllClosed | scripts/config/menu.c:38-75 | after any balanced run the pointers are a tree of the entries in the order they were read |
| MenuDeps.NarrowIsConjunction | scripts/config/menu.c:220-222 | a narrowed dependency is worth the conjunction of the entry's and the parent's where that is n or y, and at m too if nothing is cancelled |
| MenuDeps.NarrowedNeedsParent | scripts/config/menu.c:220-222 | it is n where the parent's is; it is above the parent's only where the parent's and the conjunction are m and operands were cancelled |
| MenuDeps.NarrowedAboveParent | scripts/config/menu.c:220-222 | that happens: under a parent at m a child without a condition of its own gets y |
| ExprTests.EliminateDupsHasNoNegatedTest | scripts/config/expr.c:616-638 | eliminating duplicates puts no test against n below a NOT |
| MenuDeps.NarrowHasNoNegatedTest | scripts/config/menu.c:220-222 | so narrowed conditions have none, if what is passed on has none |
| MenuDeps.NarrowPromptIsConjunction | scripts/config/menu.c:232-237 | a narrowed prompt is worth the conjunction with the condition of its entry: for tristates it refines it, for other symbols it is n exactly where that is n, as far as that is n or y; everywhere if nothing cancels |
| MenuDeps.NarrowPromptHasNoNegatedTest | scripts/config/menu.c:232-237 | in the prompt of a symbol that is no tristate no test of a tristate against n is left |
| MenuPlan.NarrowedIsWorth | scripts/config/menu.c:217-237 | what narrowing makes of an entry, under every legal valuation |
| MenuFinalize.NarrowChildren | scripts/config/menu.c:197-237 | every child has the condition and the prompt that narrowing by its parent gives, and under every legal valuation they are worth the conjunctions with what the parent passes on: the value of a choice, the condition of its prompt, or without one its own |
| MenuFinalize.ShouldAdoptIff | scripts/config/menu.c:256-275 | which conditions the test reads: of the prompt of the entry, or without one its own, against the condition of the prompt above |
| MenuFinalize.AdoptSiblings | scripts/config/menu.c:256-296 | later siblings become children as far as the test allows, and the first that fails it stays; reading order is kept |
| MenuFinalize.Flatten | scripts/config/menu.c:303-319 | children of entries without prompt text move up behind them; reading order is kept |
| MenuFinalize.Finalize | scripts/config/menu.c:197-319 | list, next and parent describe a tree again with the same reading order; everything below has its final condition, only entries with a prompt text have children, and none of these has let a sibling pass that it could adopt |
| MenuFinalize.FinalizeAndWalk | scripts/config/menu.c:197-319 | for the whole menu: every entry is narrowed once, by the parent it was read below, and worth that conjunction under every legal valuation; the walk visits each entry once, in the order of reading |
| MenuRun.FinalizeAndWrite | scripts/config/confdata.c:436-518 | after any balanced reading, menu_finalize and the walk, the entries come in the order in which they were read |
| ConfText.UnescapeOfEscape | scripts/config/confdata.c:481-491 | unescaping an escaped text gives it back, whatever follows the closing quote |
| ConfText.LineReadsBack | scripts/config/confdata.c:120-214 | each value survives its own line format: tristates, text, decimal and hexadecimal numbers |
| ConfText.FileReadsBack | scripts/config/confdata.c:112-242 | reading a written file assigns exactly what was written, in that order, and skips comments |
| ConfText.RestoreGives | scripts/config/confdata.c:112-242 | a symbol ends with the value of its last line and is no longer new |
| ConfText.RestoreKeeps | scripts/config/confdata.c:112-242 | a symbol without a line keeps its state |
| ConfLines.ValidIntIff | scripts/config/symbol.c:502-514 | a decimal number has no leading zeros and at most a minus sign in front |
| ConfLines.ValidHexIff | scripts/config/symbol.c:515-523 | a hexadecimal number is hex digits with or without 0x |
| ConfLines.ProtectedIsRead | scripts/config/confdata.c:185-200 | a quoted text whose quotes and backslashes are protected is read without the protection, whatever else is protected |
| ConfLines.ReadIsProtected | scripts/config/confdata.c:185-200 | and only such texts are read |
| ConfLines.ValueMeans | scripts/config/confdata.c:163-211 | what a value says for each kind of symbol: the first letter y, m or n, a valid number, or nothing |
| ConfLines.QuotedMeans | scripts/config/confdata.c:185-200 | a string is what stands between the first quote and the next one that is not protected |
| ConfLines.SetLineMeans | scripts/config/confdata.c:147-214 | CONFIG_name=value asks for what the value says, if the name is known |
| ConfLines.UnsetLineMeans | scripts/config/confdata.c:121-146 | # CONFIG_name is not set asks for n, if the name is a known bool or tristate |
| ConfLines.OnlyTheseLines | scripts/config/confdata.c:112-242 | every other line asks for nothing |
| ConfLines.EntryForms | scripts/config/confdata.c:461-503 | the form of the line of a symbol for each value |
| ConfLines.EscapeProtects | scripts/config/confdata.c:481-491 | the writer protects quotes and backslashes and nothing else |
| ConfLines.ReadTakes | scripts/config/confdata.c:112-117 | one read takes a line, and never more than 1023 characters |
| ConfRoundTrip.ConfirmedValues | scripts/config/symbol.c:298-352 | settings that give every visible symbol the value it has change no value, whatever is set elsewhere |
| ConfRoundTrip.VisibleIsWritten | scripts/config/symbol.c:298-352 | what is visible is saved |
| ConfRoundTrip.ReadBackEvaluatesTheSame | scripts/config/confdata.c:112-242 | a configuration that is written and read back evaluates to the same values |
| ConfData.Reader.FGets | scripts/config/confdata.c:116-117 | one line, or as much of it as the buffer holds |
| ConfData.Reader.DropBackslash | scripts/config/confdata.c:195-195 | moving the rest of the line down by one drops the backslash and keeps the terminator in place |
| ConfData.Reader.UnescapeInPlace | scripts/config/confdata.c:188-200 | the loop over strpbrk and memmove leaves the unescaped text, or fails if and only if no quote closes it |
| ConfData.Reader.StringValid | scripts/config/symbol.c:495-536 | sym_string_valid for text and numbers |
| ConfData.Reader.ReadInto | scripts/config/confdata.c:163-211 | the switch over types assigns what the text stands for |
| ConfData.Reader.ProcessUnset | scripts/config/confdata.c:121-146 | lines that begin with a number sign |
| ConfData.Reader.ProcessSet | scripts/config/confdata.c:147-214 | lines that begin with a letter C |
| ConfData.Reader.ReadAll | scripts/config/confdata.c:112-242 | the loop over the file computes ReadFile |
| ConfData.Writer.PutEscaped | scripts/config/confdata.c:481-491 | the loop over strcspn writes the escaped text |
| ConfData.Writer.PutEntry | scripts/config/confdata.c:461-503 | the line of a symbol |
| ConfData.Writer.PutAll | scripts/config/confdata.c:437-503 | the lines of all entries, in order |
| Elf.Elf32IsValid | tools/sstrip/src/sstrip.c:89-127 | the 32-bit layout reads back what it writes, as the model asks of a layout |
| Elf.FieldsOf32 | tools/sstrip/src/sstrip.c:89-127 | where the fields lie, byte by byte |
| Elf.Format.ReadOfWriteTable | tools/sstrip/src/sstrip.c:170-187 | a program header table is read as it was written |
| Sstrip.GetMemorySize | tools/sstrip/src/sstrip.c:194-221 | computes the end of the last byte that a header or a segment refers to |
| SstripExact.ExtentIsReached | tools/sstrip/src/sstrip.c:207-216 | that end is the end of the table or of the ELF header, or p_offset + p_filesz of an entry in use |
| SstripExact.StrippedIff | tools/sstrip/src/sstrip.c:136-221 | a file is cut if and only if it begins with a known ELF header, has a program header table, and is long enough for the headers and every segment in use |
| SstripExact.StrippedIsCut | tools/sstrip/src/sstrip.c:194-305 | the new length is one past the last byte that is not zero in front of an end of something needed, and there is one such place, or the end of the table; every entry is cut there, the section table is dropped from the header exactly if it begins there or behind, and all else is unchanged |
| Sstrip.ScanWindow | tools/sstrip/src/sstrip.c:384-385 | the zeros at the end of one window |
| Sstrip.TruncateZeros | tools/sstrip/src/sstrip.c:371-396 | windows of 1024 bytes find exactly the last byte that is not zero; the loop ends unless only the first byte is not zero |
| Sstrip.SignatureStays | tools/sstrip/src/sstrip.c:320-327 | the ELF signature rules that case out |
| Sstrip.ModifyHeaders | tools/sstrip/src/sstrip.c:228-259 | every program header is cut to the new size in place |
| Sstrip.CommitChanges | tools/sstrip/src/sstrip.c:264-305 | two writes and a truncation that never cuts the table, when none of them fails |
| Sstrip.Strip | tools/sstrip/src/sstrip.c:434-443 | without failing writes, the file becomes the stripped one or stays as it was |
| Sstrip.StrippedParts | tools/sstrip/src/sstrip.c:264-305 | the table reads back as written, the ELF header too unless the table overlaps it, and all else is unchanged up to the new end |
| Sstrip.SegmentsAreKept | tools/sstrip/src/sstrip.c:194-305 | if the table at e_phoff has the bytes behind the ELF header, every segment has the same bytes in memory outside the headers and lies inside the new file |
| Sstrip.SegmentsKeptIffTold | tools/sstrip/src/sstrip.c:170-305 | for every file: all segments are kept if and only if the entries behind the ELF header tell the same places and bytes as the entries at e_phoff |
| Sstrip.SegmentIsLost | tools/sstrip/src/sstrip.c:170-187 | a 32-bit file with its table at 84 is accepted and loses its segment |
| Sstrip.PlacesKeptIffTablesAgree | tools/sstrip/src/sstrip.c:170-187 | segments keep their places if and only if the table behind the ELF header names the same places |
| Sha1.Context.Process | tools/firmware-utils/src/sha1.c:72-226 | the unrolled rounds on 64-bit lanes are the 80 rounds of section 7 of FIPS 180-1 modulo 2^32 |
| Sha1.StepIsRound | tools/firmware-utils/src/sha1.c:102-105 | one use of the macro P, in its rotated roles, is one round of the standard |
| Sha1.RenewKeepsCircle | tools/firmware-utils/src/sha1.c:95-100 | sixteen words in a circle always hold the words of the schedule that are still needed |
| Sha1.Context.Update | tools/firmware-utils/src/sha1.c:228-265 | the context depends on all bytes so far, not on how they were cut |
| Sha1.Context.Finish | tools/firmware-utils/src/sha1.c:275-299 | the digest is the fold over the message padded as section 4 of FIPS 180-1 says |
| Sha1.BitCount | tools/firmware-utils/src/sha1.c:281-286 | the two halves of the length, built by shifts, are the number of bits modulo 2^64 |
| Sha1.File | tools/firmware-utils/src/sha1.c:304-320 | a file read in pieces of 1024 bytes has the digest of its contents |
| Md5.Context.AddByte | tools/firmware-utils/src/md5.c:140-157 | one character goes into the buffer, and the block function runs exactly when it is full |
| Md5.Context.CountBits | tools/firmware-utils/src/md5.c:134-138 | the two words count the bits modulo 2^64, with carry |
| Md5.Context.Update | tools/firmware-utils/src/md5.c:122-158 | the context depends on all bytes so far, not on how they were cut |
| Md5.Context.LastBlock | tools/firmware-utils/src/md5.c:180-185 | fourteen words of the buffer and the saved length are the last block of the padded message |
| Md5.Context.Final | tools/firmware-utils/src/md5.c:160-199 | the digest is that of sections 3.1 to 3.5 of RFC 1321, for every block function |
| Md5.InitialBytes | tools/firmware-utils/src/md5.c:105-116 | the state begins with the bytes that section 3.3 of RFC 1321 lists |
| Srec.ParseOfEncodeAll | tools/firmware-utils/src/srec2bin.c:16-28 | records read back as they were written |
| Srec.CheckWordBalances | tools/firmware-utils/src/srec2bin.c:24-24 | fields and bytes of a record sum to zero modulo 2^32 |
| Srec.Output.FillInLength | tools/firmware-utils/src/srec2bin.c:175-189 | seeking back fills in the length and touches nothing else |
| Srec.Output.RecEnd | tools/firmware-utils/src/srec2bin.c:157-200 | afterwards the file is the complete records |
| Srec.Output.RecOutByte | tools/firmware-utils/src/srec2bin.c:210-224 | a byte goes to the open record or opens a new one |
| Srec.Output.RecOutProgramStart | tools/firmware-utils/src/srec2bin.c:201-209 | a program start opens a record unless its address comes next |
| Srec.CleanIsReproduced | tools/firmware-utils/src/srec2bin.c:110-224 | if no byte is written right behind a program start, reading the file gives back exactly the written bytes with their addresses |
| Srec.ReproducedIffClean | tools/firmware-utils/src/srec2bin.c:110-224 | as long as no byte precedes the first record, that holds if and only if no byte is written right behind a program start |
| Srec.RecordsFromStart | tools/firmware-utils/src/srec2bin.c:157-224 | no byte precedes the first record if the first call is not for address 0 |
| Srec.LagIsOffset | tools/firmware-utils/src/srec2bin.c:201-224 | each program start that the open record absorbs moves its next byte one address down |
| Srec.ReproducedIffNotAtZero | tools/firmware-utils/src/srec2bin.c:210-224 | without program starts that holds if and only if the first address is not zero |
| Srec.StartIsKept | tools/firmware-utils/src/srec2bin.c:201-209 | a final program start is a record of its own if and only if it is not the next address |
| Srec.ByteBehindStartMoves | tools/firmware-utils/src/srec2bin.c:201-224 | the smallest case: a byte right behind a program start is read back one address too low |
| Srec.Convert | tools/firmware-utils/src/srec2bin.c:434-500 | the whole run for the calls that the input lines lead to, with its tag, and when its output can be read back |
| SrecWitness.UncleanIsReproduced | tools/firmware-utils/src/srec2bin.c:157-224 | a run of program starts and bytes that begins at address 0, puts bytes right behind program starts and is read back exactly all the same, for any last 2024 bytes |
| SrecWitness.OneByteIsLost | tools/firmware-utils/src/srec2bin.c:157-224 | the usual case: one byte behind a program start at address 0 is not read back |
| ZynCsum.AddWordIsOnes | tools/firmware-utils/src/mkzynfw.c:446-452 | the end-around carry keeps the one's complement sum within 16 bits |
| ZynCsum.Csum.Update | tools/firmware-utils/src/mkzynfw.c:428-458 | the state depends on all bytes so far, not on how they were cut, odd lengths included |
| ZynCsum.Csum.Get | tools/firmware-utils/src/mkzynfw.c:460-467 | the checksum, a last single byte filled up with zero |
| ZynCsum.CsumBuf | tools/firmware-utils/src/mkzynfw.c:469-479 | the checksum of a buffer |
| ZynCsum.FixedSum | tools/firmware-utils/src/mkzynfw.c:814-833 | an even payload with its fix word sums to ocsum modulo 65535, and to ocsum itself if and only if ocsum is not zero or the payload is |
| ZynCsum.Image.WritePadding | tools/firmware-utils/src/mkzynfw.c:504-522 | padding through a buffer of 512 bytes |
| ZynCsum.Image.WriteFile | tools/firmware-utils/src/mkzynfw.c:665-706 | a file through a buffer of 16 KiB |
| ZynCsum.Image.Write | tools/firmware-utils/src/mkzynfw.c:729-839 | the payload has a length divisible by four, so that the image as a whole sums to ocsum |
| NandEcc.TableIsColumn | tools/firmware-utils/src/nand_ecc.c:43-60 | all 256 table entries are the exclusive or of one code for each set bit |
| NandEcc.FlipShifts | tools/firmware-utils/src/nand_ecc.c:75-88 | flipping bits of one byte shifts the registers independently of the rest of the block |
| NandEcc.UnpackOfPack | tools/firmware-utils/src/nand_ecc.c:90-119 | register differences can be read off the difference of two codes |
| NandEcc.OneFlipIsLocated | tools/firmware-utils/src/nand_ecc.c:67-119 | the code difference after one flipped bit names the byte and the bit |
| NandEcc.TwoFlipsAreSeen | tools/firmware-utils/src/nand_ecc.c:67-119 | two flipped bits change the code, in a way that no single flip does |
| NandEcc.LineParity | tools/firmware-utils/src/nand_ecc.c:90-107 | the sixteen shifts and masks interleave the two registers |
| NandEcc.CalculateEcc | tools/firmware-utils/src/nand_ecc.c:67-119 | the loop and the packing compute the code |
| NandParity.ColumnParities | tools/firmware-utils/src/nand_ecc.c:75-116 | the third code byte ends in two set bits, and each other bit is the complement of the parity of the bits of the block whose number has a binary digit, or has it not |
| NandParity.LineParities | tools/firmware-utils/src/nand_ecc.c:75-114 | each bit of the first two code bytes is the complement of the parity of the bytes whose number has a binary digit, or has it not |
| NandParity.ErasedCode | tools/firmware-utils/src/nand_ecc.c:67-119 | an erased block has the code ff ff ff |
| Pc1.DecryptUndoesEncrypt | tools/firmware-utils/src/pc1crypt.c:135-163 | from equal contexts a byte comes back and the contexts stay equal |
| Pc1.RunUndoesRun | tools/firmware-utils/src/pc1crypt.c:173-189 | so does a buffer of any length, and the contexts agree at the end |
| Pc1.RunInChunks | tools/firmware-utils/src/pc1crypt.c:173-189 | cutting the stream does not matter |
| Pc1.ChunksNeedNotMatch | tools/firmware-utils/src/pc1crypt.c:173-189 | encrypted in two pieces and decrypted in two others, every message comes back |
| Pc1.CodeMeans | tools/firmware-utils/src/pc1crypt.c:54-95 | one step of the generator in plain numbers modulo 2^16 |
| Pc1.RoundMeans | tools/firmware-utils/src/pc1crypt.c:97-133 | a round takes the next two key bytes, the first in front, combined with the word before, and combines its result with those before |
| Pc1.Context.Shuffle | tools/firmware-utils/src/pc1crypt.c:54-85 | what the exchanges of pc1_code leave in the registers |
| Pc1.Context.CodeStep | tools/firmware-utils/src/pc1crypt.c:54-95 | one step of the generator in place |
| Pc1.Context.AssembleKey | tools/firmware-utils/src/pc1crypt.c:97-133 | the eight rounds |
| Pc1.Context.EncryptByte | tools/firmware-utils/src/pc1crypt.c:150-163 | one byte encrypted, the plain one mixed into the key |
| Pc1.Context.DecryptByte | tools/firmware-utils/src/pc1crypt.c:135-148 | one byte decrypted, the plain one mixed into the key |
| Pc1.Context.EncryptBuf | tools/firmware-utils/src/pc1crypt.c:182-189 | a buffer rewritten in place |
| Pc1.Context.DecryptBuf | tools/firmware-utils/src/pc1crypt.c:173-180 | a buffer rewritten in place |

## Left out

- User interfaces, option parsing, file opening, renaming, environment and time stamps: files are sequences of bytes.
- The lexer and the parser tables: the grammar of expressions is modelled with the precedence the tables encode.
- Expressions: freeing of nodes. `expr_extract_eq` and the joins are modelled on values; the passes of
  `expr_eliminate_dups` overwrite slots of one value, given as paths, so that two pointers into the same chain
  alias as in the original; the nodes themselves, and trees that share nodes, are not modelled there.
- ExprPrint.ParseTokens: the generated tables are replaced by a reduction rule with the same precedences.
- ExprSelfEq.EqualsItselfIff: expressions with hidden absorbers, which ExprMatch.EqualsItselfIffMatched covers.
- ExprSelfEq.EqualsItselfIffOneQuoted: expressions that still hold y or n as operands, covered there as well.
- ExprCompare.AdoptionKeepsVisibility: symbols that are texts or numbers, and negated parts that are m.
- Symbols: ranges of numbers (`strtol`, P_RANGE, E_RANGE), the recalculation of `modules_sym`, SYMBOL_CHANGED,
  MENU_CHANGED and the display flags.
- SymbolSpec.TransformKeepsConfiguration: of the steps of `menu_finalize` only `expr_transform`; the conjunction
  with the parent is in MenuDeps, and `expr_eliminate_dups` may settle an m.
- SymbolCalc.EvaluateInOrder: symbols outside choices only, with the flag that says whether a symbol is saved;
  Choice.AskInOrder has choices and members, without that flag.
- SymbolDeps.CleanSweepIsRanked: needs graphs without choices and without reverse deselections, which the search
  does not follow; SymbolDeps.SweepEvaluated covers deselections, and ChoiceDeps.SweepReads choices as well.
- Choices: their defaults are taken to name their members. A choice has no name, so no text takes its value from
  one, though the model lets expressions name it. The write and changed flags that a choice hands to its members are
  not modelled.
- ChoicePicked.PickedIsYesIffNotReached: no symbol may depend on itself other than through what this one choice looks
  at; several choices whose searches lead into each other are not covered, nor is a picked member that was valid, or
  being evaluated, before the choice (MemberAskedFirst covers the member that asks for the choice).
- Choice.Cache.SetMember: when the member was y already the cache is not invalidated; it is proved right for
  boolean choices whose settings were made through the same function.
- ConfRoundTrip.ReadBackEvaluatesTheSame: symbols outside choices, with names of their own, whose lines fit.
- MenuDeps.NarrowPromptIsConjunction: where the conjunction is m and operands cancel, the prompt may be anything; that
  is what `expr_eliminate_dups` does to an m.
- MenuFinalize.Finalize: that no sibling passes is kept for entries with a prompt text; the children of the others
  move up behind them, so that what they could adopt may follow them.
- ExprReduced.DuplicatesAreGone: chains below a NOT are not looked at, as in the original.
- Menus: properties other than prompts, the type checks and warnings of `menu_finalize`, the building of choice
  lists and of reverse dependencies.
- ConfText.FileReadsBack: lines that fit the buffer of 1024 bytes; values of choice members do not update their
  choice; comments must not look like unset symbols.
- ConfData.Reader.ReadAll: files without NUL bytes; a last line that is a lone number sign without a newline is
  left open, because the original then looks at bytes of earlier lines.
- ConfData.Writer.PutAll: takes the lines as given; which entries of the walk get one (SYMBOL_WRITE and
  `menu_is_visible`) is not decided here.
- Elf.Elf32IsValid: one layout is written out, 32 bits with low bytes first; the others are covered as far as
  they read back what they write.
- Sstrip.SegmentsKeptIffTold: sums of offsets and sizes are taken not to overflow; failing writes are not modelled.
  A loader is taken to use the table at the original e_phoff; with e_phoff inside the ELF header the table
  overwrites part of that header, which is not pursued further.
- Sha1.Context.Process: the eighty unrolled uses of P are one loop over rounds with rotating roles; lanes have 64
  bits, in two halves.
- Md5.Context.Final: the block function is a parameter; its sixty-four steps are not modelled.
- Srec.ReproducedIffClean: fewer than 2^32 calls, so that no record length wraps around. It does not extend to bytes
  before the first record: they may spell records of their own, as in SrecWitness.UncleanIsReproduced.
- Srec.Convert: the parsing of S-record lines is not modelled.
- ZynCsum.Image.Write: alignments are powers of two; the memory map and the header fields are given bytes.
- NandEcc.CalculateEcc: the byte order of CONFIG_MTD_NAND_ECC_SMC is not modelled.
- Pc1.Context.CodeStep: products of two unsigned shorts are taken to wrap around at 16 bits.
- CRC tables, hash functions of the symbol table and firmware headers that only copy constants.
