# Verification of the OpenWrt build tools

A Dafny model, with proofs, of the parts of the OpenWrt build system where a wrong result is hard to see: the
Kconfig engine (`scripts/config`), the hashing tool (`scripts/mkhash.c`) and the image padder
(`tools/padjffs2/src/padjffs2.c`). `dafny verify dfyconfig.toml` checks everything.

**Expressions** (`Strings`, `Expressions`, `Values`, `Numerals`, `EqElimination`, `EqOrder`, `Joins`, `Chains`,
`DupElimination`, `EqCompleteness`, `Normalisation`, `Pipeline`, `PrintParse`). Dependency expressions over the tristate
values n, m and y, and the rewriting that Kconfig does on them: removal of constants, comparison by cancelling common
parts, joining of related operands, normalisation, printing. Rewriting is proved to keep the value under every
valuation, and equality is proved to be equality up to the order and grouping of operands. `Numerals` says what
comparisons mean for numbers written out in digits. A valuation is abstracted by an `Interp` (the value of a symbol, the
outcome of comparing two symbols); `Lawful` says what every stored configuration guarantees of it. In-place rewriting of
shared nodes is modelled on values, with a position in the tree (`Chains`) standing for a pointer to a slot.

**Symbol values** (`Config`, `Solutions`, `SolutionLaws`, `Evaluator`, `UserValues`, `DepChecker`, `CheckedConfig`).
`Config.Step` is the value of one symbol given the others, and a solution is a set of results in which every symbol has
the value that `Step` gives it. An acyclic configuration has exactly one solution, and the memoising evaluator leaves
every valid symbol with the value in it, whatever the order of the calls. `SolutionLaws` says what that value is in the
terms of the prompts, defaults, ranges, selects and implies alone. The cycle checker is the depth-first search of the
parser.

**Menus** (`MenuTree`, `MenuPlaces`, `MenuLinks`, `MenuWalk`). The parent, next and list pointers of menu entries while
`menu_finalize` moves entries about, and the pointer walks that write a configuration. `MenuPlaces` reads off the
original tree, in one pass with a stack, which entry takes in which and what parent each has in the end; the finished
tree has exactly these parents.

**Text** (`Escaping`, `Preprocess`, `MacroLaws`, `SelfReferences`). Escaping of strings in a configuration file, and
macro expansion, with laws for each kind of reference stated on the text.

**Hashes** (`Blocks`, `WordBits`, `Rounds`, `Sha256`, `Sha256Constants`, `Sha256Stream`, `Md5`, `Md5Constants`,
`Md5Answer`, `Md5Stream`). The block functions against FIPS 180-4 and RFC 1321, and the streaming contexts against the
padded message. `Rounds` proves the rotating indices correct for any word operations; `Sha256` supplies the real ones,
which `WordBits` describes bit by bit. The constants are derived from roots of primes and from the sine.

**Image padding** (`Padding`), and a fact about finite sets (`Sets`).

## Properties that turned out not to hold everywhere

Each is kept as the code has it, with an input that shows it and the exact condition.

- Joining `a = x` with `a != y` into `a = x` changes the value when the constants x and y can denote the same
  tristate value, as `n` and `0` do (`NumericConstantBreaksJoin`, `JoinEqualUnequalExact`).
- Storing a user value equal to the current value clears nothing, so results go stale exactly when the symbol is
  visible and the value exceeds both its visibility and what is selected (`SettingTheSameValueCanGoStale`,
  `SameValueExact`, `SetTristateValue`).
- A value accepted by `sym_tristate_within_range` does not stick exactly when a `select` overrides an unmet dependency
  (`AcceptedValueCanBeLost`, `AcceptedValueSticks`). A visible symbol with an unmet dependency comes from two
  definitions, one without a dependency and one under a dependency that is n: `expr_alloc_or` drops the missing one
  (`scripts/config/menu.c:483`, `scripts/config/expr.c:59-64`).
- Comparing an expression with n asks every symbol whether it compares equal to n. That is right exactly when the
  expression with the symbols read so is n where the expression is (`TransCompareExact`); over bool and tristate
  symbols it reads m as y (`SharpIsRounded`). It is wrong for a negated symbol that is m (`TransCompareNotExact`) and
  for a bare string symbol (`BareStringComparesWrong`).
- Rewriting `!(a != n)` to `!a` changes the rounded value exactly when a is m (`TransBoolUnderNot`); on negation normal
  expressions, which is all that the pipeline makes, the rewriting is right (`TransBoolRounded`).
- `expr_depends_symbol` forces n exactly for bool and tristate symbols (`DependsExact`).
- `expr_eq` finds exactly the reordered and regrouped expressions equal as long as no operand is y or n (`EqDecides`);
  with such operands it finds more (`ConstantsBlur`).
- Two tristate symbols compare as n < m < y, but a symbol and one of the constants y, m, n compare as text, which gives
  m < n < y (`LogicalCompare`, `ConstantCompare`).
- The cycle checker does not follow the end points of ranges, nor the use of the modules symbol, which the evaluator
  does (`RangeLoopIsNotFound`). After a clean sweep values can be calculated exactly when no cycle takes such a step
  (`CheckedExact`).
- The expansion counters report every endless expansion, and also some that would end (`EndingIsRefused`): exactly
  those that enter a variable without arguments inside its own expansion, or more than 1001 times (`RefusedExact`).
- The padder's alignment works in 32 bits, so padding across 4 GiB leaves block sizes without a marker exactly when the
  length rounded up to the largest does not fit (`PadAcrossLimit`, `PadImage`).

The comment at `scripts/config/expr.c:569` gives another result than the code below it; the code is followed.

## Model

| member | source | states |
|---|---|---|
| `Values.CompareWithConstant` | scripts/config/expr.c:1068-1102 | A bool or tristate symbol compares equal to the constant y, m or n exactly when it has that value, through the string comparison that the code makes |
| `Values.CompareConstants` | scripts/config/expr.c:998-1102 | Two of the constants compare equal exactly when they are the same |
| `Values.ConsistentIsLawful` | scripts/config/expr.c:1030-1102 | Every valuation in which bools are not m satisfies what the rewriting proofs use about comparisons |
| `Numerals.DigitsNumeral` | scripts/config/expr.c:998-1028 | Digits written out in any base up to 16, after any prefix, are read back as the number |
| `Numerals.ScanDecimal` | scripts/config/expr.c:1014-1022 | A decimal number is read whole, negative ones too, with base 10 and with the base left open |
| `Numerals.ScanHex` | scripts/config/expr.c:1018-1022 | After 0x hexadecimal digits are read whole, with base 16 and with the base left open |
| `Numerals.ScanPlainHex` | scripts/config/expr.c:1018 | With base 16 they are read without the prefix too |
| `Numerals.ParseDecimal` | scripts/config/expr.c:998-1028 | The text of a decimal number stands for it exactly when it fits in a signed 64-bit word, and is text otherwise |
| `Numerals.ParseHexadecimal` | scripts/config/expr.c:1017-1020 | The text of a hexadecimal number stands for it exactly when it fits in an unsigned 64-bit word |
| `Numerals.ComparisonMeans` | scripts/config/expr.c:1068-1102 | An int symbol holding a decimal number satisfies each of the six relations with another, or with a number in the configuration, exactly when the numbers do, on either side |
| `Numerals.HexComparisonMeans` | scripts/config/expr.c:1068-1102 | The same for two hex symbols, with and without prefix |
| `Numerals.MixedCompare` | scripts/config/expr.c:1080-1081 | Against a hex symbol an int symbol compares as an unsigned word: a negative number counts from 2^64 down |
| `Numerals.LogicalCompare` | scripts/config/expr.c:1068-1102 | Two bool or tristate symbols satisfy each relation exactly when their values do in the order n < m < y |
| `Numerals.ConstantCompare` | scripts/config/expr.c:1068-1102 | Against the constants y, m and n the order is that of the letters |
| `Numerals.StrCmpOrder` | scripts/config/expr.c:1078-1079 | The string comparison is dictionary order: the first differing character decides, and an end comes first |
| `Numerals.StringsCompare` | scripts/config/expr.c:1073-1079 | Two string symbols compare in dictionary order even if they look like numbers |
| `EqElimination.EliminateYn` | scripts/config/expr.c:316-397 | Never grows an expression, and leaves anything but a conjunction or disjunction alone |
| `EqElimination.EliminateYnSameValue` | scripts/config/expr.c:316-397 | Removing constant operands keeps the value under every valuation |
| `EqElimination.EliminateYnComplete` | scripts/config/expr.c:316-397 | The result has no y or n operand left, and an expression without them is unchanged |
| `EqElimination.UnitShrinks` | scripts/config/expr.c:316-397 | An expression with a neutral operand gets strictly smaller |
| `EqElimination.Walk` | scripts/config/expr.c:150-190 | The cancelling walk terminates on the sum of the sizes, grows neither side and keeps the operator at each root |
| `EqElimination.EliminateEq` | scripts/config/expr.c:221-241 | Cancelling common operands terminates, mutually recursive with equality, and grows neither side |
| `EqElimination.EqSound` | scripts/config/expr.c:252-303 | Expressions found equal have the same value under every valuation |
| `EqElimination.WalkFactors` | scripts/config/expr.c:150-190 | One cancelled context c: both old values are c combined by the operator with the new values |
| `EqElimination.WalkClamps` | scripts/config/expr.c:150-241 | A walk inside a clamping context yields a clamping context again |
| `EqElimination.EliminateEqFactors` | scripts/config/expr.c:221-241 | One monotone function, a clamp between two bounds, maps both new values to both old values |
| `EqElimination.ClampMonotone` | scripts/config/expr.c:221-241 | The function of the factorisation is monotone |
| `EqOrder.WalkTakesCommon` | scripts/config/expr.c:150-190 | The walk takes out of both chains exactly the multiset of operands that they have in common, up to order and grouping inside the operands |
| `EqOrder.EqDecides` | scripts/config/expr.c:252-303 | Expressions without y or n operands are found equal if and only if they differ in nothing but the order and grouping of operands at any depth |
| `EqOrder.Exchanged` | scripts/config/expr.c:252-303 | In particular with two operands exchanged, for any operands |
| `EqOrder.Regrouped` | scripts/config/expr.c:252-303 | And with three operands grouped the other way |
| `EqOrder.ConstantsBlur` | scripts/config/expr.c:252-303 | A && n and n && B are found equal |
| `EqOrder.SupersetExact` | scripts/config/menu.c:457-467 | A conjunction passes the superset test if and only if it has every operand of the other dependency |
| `EqOrder.SupersetOfYes` | scripts/config/menu.c:457-467 | Everything passes against y |
| `EqElimination.SupersetTest` | scripts/config/menu.c:459-470 | If cancelling leaves the base dependency y, the dependency is at most the base under every valuation |
| `EqCompleteness.EqReflexive` | scripts/config/expr.c:252-303 | Every expression is found equal to itself, although the test cancels operands in both copies as it goes |
| `EqCompleteness.DedupedOperandsDiffer` | scripts/config/expr.c:596-686 | After duplicate elimination no two operands of a chain are the same or found equal |
| `Joins.JoinOrSound` | scripts/config/expr.c:431-493 | A joined pair has the value of the disjunction |
| `Joins.JoinAndSound` | scripts/config/expr.c:495-587 | A joined pair has the value of the conjunction, if different constants are told apart |
| `Joins.EqualJoin` | scripts/config/expr.c:436-437 | Equal operands are joined into one |
| `Joins.TwoValuesJoin` | scripts/config/expr.c:459-571 | Two of the three values of a tristate, or the exclusion of two, become one test of the third |
| `Joins.ValueAndExclusionJoin` | scripts/config/expr.c:539-553 | A value and the exclusion of a constant become the value, or n if it is the same constant, in either order |
| `Joins.SymbolAndTestJoin` | scripts/config/expr.c:524-537 | A symbol and a test of it become the stronger of the two, in either order |
| `Joins.ExcludedMiddleJoins` | scripts/config/expr.c:479-483 | A bool symbol or its negation becomes y |
| `Joins.DifferentSymbolsStay` | scripts/config/expr.c:431-587 | Symbols and tests about different symbols are not joined |
| `Joins.JoinSound` | scripts/config/expr.c:431-587 | Both joins, as used by the walk |
| `Joins.JoinKeepsValueAt` | scripts/config/expr.c:540-553 | At one valuation the join of an equality and an inequality is right unless the value of the symbol is denoted by both constants |
| `Joins.JoinEqualUnequalExact` | scripts/config/expr.c:540-553 | That join is right under all consistent valuations if and only if the two constants denote no common tristate value |
| `Joins.NumericConstantBreaksJoin` | scripts/config/expr.c:540-553 | `a = n` joined with `a != 0` gives `a = n`, and both constants denote n |
| `Joins.DisjointConstantsSeparate` | scripts/config/expr.c:1068-1102 | Constants that denote no common value are told apart by every consistent valuation |
| `Joins.CompareWithConst` | scripts/config/expr.c:1068-1102 | A tristate symbol compares equal to an untyped constant exactly when its value is one the constant denotes |
| `DupElimination.WalkPairs` | scripts/config/expr.c:596-651 | The walk over pairs of operands, with the same root on both sides, keeps shape and value; a join leaves a neutral operand; nothing is joined, and nothing changed, if and only if no pair can be joined |
| `DupElimination.JoinSlots` | scripts/config/expr.c:617-648 | The same for one pair of slots, through the nested elimination below them |
| `DupElimination.WalkFirst` | scripts/config/expr.c:604-608 | The same for the two operands below the first slot |
| `DupElimination.WalkSecond` | scripts/config/expr.c:609-613 | The same for the two operands below the second slot |
| `DupElimination.EliminateDups` | scripts/config/expr.c:664-686 | The loop terminates, keeps the value under every lawful valuation that tells the constants apart, adds no right-hand sides but y, m and n, keeps negation normal form, leaves no pair that can be joined at any depth, and changes nothing if there was none |
| `DupElimination.JoinedRewrites` | scripts/config/expr.c:636-647 | Replacing one slot by the join and the other by the neutral constant keeps value and shape |
| `Normalisation.Transform` | scripts/config/expr.c:694-849 | Terminates on a weight in which a negation doubles; the result is normal (a negation only directly above a non-constant symbol) and weighs no more |
| `Normalisation.TransformNormal` | scripts/config/expr.c:694-849 | A normal expression is unchanged |
| `Normalisation.TransformIdempotent` | scripts/config/expr.c:694-849 | Transforming twice is transforming once |
| `Normalisation.TransformSameValue` | scripts/config/expr.c:694-849 | The value is kept under every lawful valuation |
| `Normalisation.TransformRights` | scripts/config/expr.c:694-849 | No new right-hand sides of comparisons appear |
| `Normalisation.RewriteMValue` | scripts/config/menu.c:83-106 | Rewriting gives the value that reading every literal m as m && MODULES gives |
| `Normalisation.TransBoolRounded` | scripts/config/expr.c:402-426 | On a negation normal expression the value rounded from m to y is kept |
| `Normalisation.TransBoolUnderNot` | scripts/config/expr.c:402-426 | Under a negation the rounded value is kept if and only if the symbol is not m |
| `Normalisation.TransBoolComplete` | scripts/config/expr.c:402-426 | No test of a tristate symbol against n is left at any depth, and an expression without one is unchanged |
| `Normalisation.TransCompareSharp` | scripts/config/expr.c:922-985 | For every expression and valuation: the comparison with y or n holds exactly when the expression does with each symbol only asked whether it compares equal to that constant |
| `Normalisation.TransCompareExact` | scripts/config/expr.c:922-985 | The comparison agrees with the value of the expression if and only if that reading does |
| `Normalisation.SharpIsRounded` | scripts/config/expr.c:922-985 | Over bool and tristate symbols that reading takes m for y when comparing with n, and for n when comparing with y |
| `Normalisation.TransCompareDepSharp` | scripts/config/expr.c:922-985 | The same for a dependency that may be missing, compared with n |
| `Normalisation.TransCompareValue` | scripts/config/expr.c:922-985 | A case of this: the comparison is right where only bool and tristate symbols stand for values and no negated value is m |
| `Normalisation.TransCompareNotExact` | scripts/config/expr.c:922-985 | For a negated symbol the comparison is right if and only if the symbol is not m |
| `Normalisation.ContainsIsSyms` | scripts/config/expr.c:851-906 | The containment test finds exactly the symbols of the expression, and a dependency implies containment |
| `Normalisation.DependsForcesNo` | scripts/config/expr.c:879-906 | If an expression depends on a logical symbol, that symbol at n forces n |
| `Pipeline.AllocAndValue` | scripts/config/expr.c:52-57 | The conjunction of two dependencies that may be missing is their minimum |
| `Pipeline.NormaliseValue` | scripts/config/menu.c:330-385 | Rewriting m and transforming gives the value with m read as m && MODULES |
| `Pipeline.NormaliseForm` | scripts/config/menu.c:330-385 | The result is in negation normal form and has no new right-hand sides |
| `Pipeline.Propagate` | scripts/config/menu.c:330-385 | A child's dependency is the minimum of the parent's and its own with m read as m && MODULES; it stays negation normal and has no joinable operands |
| `Pipeline.PropagatePath` | scripts/config/menu.c:330-385 | From the root down a path of entries, the dependency of the last is the minimum of the own dependencies of all, with m read as m && MODULES |
| `Pipeline.PropagateToProperty` | scripts/config/menu.c:330-385 | The condition of a property likewise, exactly for a tristate owner and rounded from m to y otherwise |
| `Pipeline.CompareWithNo` | scripts/config/menu.c:435-460 | What the prepared dependency computes under every admissible valuation, and that it is y exactly when the dependency is not n if and only if the comparison is right there; already reduced forms stay as they are |
| `Pipeline.GoesIntoSubmenu` | scripts/config/menu.c:435-475 | An entry goes into the submenu only if its dependency mentions the symbol and either the symbol at n forces n, or the dependency not being n, as compared, implies the same of the base; it does if the symbol at n forces n or the base has no condition; and when both forms are reduced and the entry's is a conjunction, exactly if that has every operand of the base's |
| `Pipeline.DocumentedExample` | scripts/config/menu.c:449-467 | (FOO \|\| Q) && R goes into the submenu of FOO, which depends on R, for all bool or tristate symbols |
| `Pipeline.DependsExact` | scripts/config/expr.c:879-906 | Depending on a symbol forces n for all valuations and expressions if and only if the symbol is bool or tristate |
| `Pipeline.DifferentFromNo` | scripts/config/expr.c:879-906 | A symbol that is not logical and not the text n is different from n although its tristate value is n |
| `Pipeline.BareStringComparesWrong` | scripts/config/expr.c:922-985 | A string symbol with a text other than n has the value n, and its comparison says that it is not n |
| `Pipeline.EliminateDupsDep` | scripts/config/expr.c:664-686 | Duplicate elimination on a dependency that may be missing |
| `PrintParse.RoundTrip` | scripts/config/expr.c:1104-1228 | Printing and then parsing gives the same tree up to left association of chains, the very tree if it was left associated, and always the same value |
| `PrintParse.LevelReads` | scripts/config/parser.tab.c:1665-1707 | A printed operand of a level is read back before whatever may follow it |
| `PrintParse.UnaryReads` | scripts/config/parser.tab.c:1665-1707 | A printed operand of a negation is read back, so the parentheses suffice |
| `PrintParse.LeftAssocNested` | scripts/config/parser.tab.c:1700-1707 | The trees that parsing gives are exactly those that re-association leaves alone |
| `PrintParse.LeftAssocValue` | scripts/config/expr.c:1030-1066 | Re-association keeps the value |
| `Solutions.StepLocal` | scripts/config/symbol.c:302-444 | The value of a symbol depends only on the symbols its properties mention |
| `Solutions.SolutionConsistent` | scripts/config/symbol.c:302-444 | In a solution no bool is m |
| `Solutions.Solution` | scripts/config/symbol.c:302-444 | An acyclic configuration has a solution |
| `Solutions.SolutionUnique` | scripts/config/symbol.c:302-444 | It has only one |
| `Evaluator.SymbolTable.constructor` | scripts/config/symbol.c:446-455 | A new table has no valid symbol |
| `Evaluator.SymbolTable.GetString` | scripts/config/symbol.c:746-768 | The string value read is the one of the solution |
| `Evaluator.SymbolTable.CalcExpr` | scripts/config/expr.c:1030-1066 | Evaluating an expression, which calculates symbols on the way, gives its value in the solution |
| `Evaluator.SymbolTable.CalcComparison` | scripts/config/expr.c:1068-1102 | The same for a comparison |
| `Evaluator.SymbolTable.GetDefault` | scripts/config/symbol.c:83-93 | The first default whose condition is not n in the solution |
| `Evaluator.SymbolTable.GetRange` | scripts/config/symbol.c:95-105 | The first range whose condition is not n in the solution |
| `Evaluator.SymbolTable.GetRangeEnd` | scripts/config/symbol.c:107-121 | The end point has its number and text in the solution |
| `Evaluator.SymbolTable.ValidateRange` | scripts/config/symbol.c:123-153 | A number outside the range becomes the nearer end point's text |
| `Evaluator.SymbolTable.CalcVisibility` | scripts/config/symbol.c:175-236 | Visibility and the three dependencies are those of the solution |
| `Evaluator.SymbolTable.CalcDefault` | scripts/config/symbol.c:367-382 | Default and implied value, and whether the symbol is written |
| `Evaluator.SymbolTable.CalcLogical` | scripts/config/symbol.c:350-391 | The value of a bool or tristate symbol is that of the solution |
| `Evaluator.SymbolTable.CalcText` | scripts/config/symbol.c:392-408 | The value of an int, hex or string symbol likewise |
| `Evaluator.SymbolTable.Calculate` | scripts/config/symbol.c:302-444 | All results of a symbol are those of the solution, and what is being calculated further out is left alone |
| `Evaluator.SymbolTable.CalcValue` | scripts/config/symbol.c:302-444 | Every valid symbol not under calculation holds its value in the solution, before and after; the symbol is then valid |
| `Evaluator.SymbolTable.CalcAtRest` | scripts/config/symbol.c:302-444 | The same for a call from outside |
| `Evaluator.SymbolTable.CalcAll` | scripts/config/symbol.c:302-455 | Any sequence of calls, in any order and with repetitions, leaves each symbol with its value in the one solution |
| `SolutionLaws.VisibilityLaw` | scripts/config/symbol.c:175-206 | The visibility of a symbol is the largest of its prompt conditions, with m read as y unless the symbol is a tristate and modules are enabled |
| `SolutionLaws.DependenciesLaw` | scripts/config/symbol.c:207-241 | Direct dependencies, selects and implies of a bool or tristate are their conditions, so rounded; a missing direct dependency is y, the others are n |
| `SolutionLaws.DefaultLaw` | scripts/config/symbol.c:363-376 | With no user value in force, not selected and not implied, the value is the smaller of value and condition of the first default whose condition is not n, and n if there is none, rounded |
| `SolutionLaws.ByDefaultTotal` | scripts/config/symbol.c:83-93 | There always is such a value: some default is the first whose condition is not n, or none is |
| `SolutionLaws.ImplyLaw` | scripts/config/symbol.c:363-382 | Implied and not selected, it is the larger of that and what is implied, within the direct dependencies |
| `SolutionLaws.UserLaw` | scripts/config/symbol.c:353-362 | A user value in force and not selected counts within the visibility, whatever the defaults |
| `SolutionLaws.UnmetLaw` | scripts/config/symbol.c:385-386 | Selected with the direct dependencies at n, the value is n |
| `SolutionLaws.SelectLaw` | scripts/config/symbol.c:385-392 | Otherwise a select raises the value that the symbol would have without it |
| `SolutionLaws.TextLaw` | scripts/config/symbol.c:395-411 | The text of an int, hex or string symbol without a range that counts: the user text if in force, else that of the symbol named by the first live default, else nothing |
| `SolutionLaws.RangeLaw` | scripts/config/symbol.c:107-153 | A number outside the first range whose condition is not n becomes the end it lies beyond, each end read in its own base |
| `SolutionLaws.ClampLaw` | scripts/config/symbol.c:107-153 | With decimal numbers throughout, the value is the number moved into the range |
| `SolutionLaws.WriteLaw` | scripts/config/symbol.c:344-435 | A symbol is written exactly if it may be and is visible, selected, implied or has a live default, the last only naming a symbol for texts |
| `SolutionLaws.UntypedLaw` | scripts/config/symbol.c:333-337 | A symbol without a type has its name as value |
| `Evaluator.SymbolTable.ClearAllValid` | scripts/config/symbol.c:446-455 | Clearing leaves only values of the configuration valid, with the modules symbol calculated again |
| `Evaluator.SymbolTable.SetTristateValue` | scripts/config/symbol.c:476-510 | Accepts exactly the stored value and values within range; a refusal changes nothing; an accepted different value leaves only values of the new configuration; an accepted equal one clears nothing, and for a calculated symbol the results are then right if and only if the value settles |
| `UserValues.SetUserAcyclic` | scripts/config/symbol.c:476-510 | Storing a user value creates no cycle |
| `UserValues.IndependentKeeps` | scripts/config/symbol.c:446-510 | A symbol that does not transitively depend on the changed one keeps its value |
| `UserValues.DependencyIndependent` | scripts/config/symbol.c:302-444 | What a symbol depends on does not depend on it |
| `UserValues.ChangedSymbol` | scripts/config/symbol.c:302-510 | What the changed symbol becomes: nothing changes if invisible, else the user value limited by visibility, raised by select or imply and rounded |
| `UserValues.RangeExact` | scripts/config/symbol.c:457-474 | Without an unmet dependency, exactly the values that the symbol would then have are within range, as long as a select does not fix it |
| `UserValues.AcceptedValueSticks` | scripts/config/symbol.c:457-510 | An accepted value is the new value if and only if no select overrides an unmet dependency |
| `UserValues.AcceptedValueCanBeLost` | scripts/config/symbol.c:457-510 | A visible tristate with dependency n, selected at m: y is within range, and the new value is n |
| `UserValues.SameValueExact` | scripts/config/symbol.c:476-510 | After storing the current value the old results solve the new configuration if and only if the symbol is invisible or the value does not exceed both visibility and what is selected |
| `UserValues.SettingTheSameValueCanGoStale` | scripts/config/symbol.c:476-510 | A symbol implied y but only visible as m: y does not settle, and with the user value y the symbol is m |
| `DepChecker.Checker.constructor` | scripts/config/symbol.c:1184-1216 | No flag is set and the stack is empty |
| `DepChecker.Checker.CheckDeps` | scripts/config/symbol.c:1184-1216 | The call restores the flags and the stack, a symbol returned lies on a cycle, and with errors on, nothing returned means that everything reachable is ordered; with errors off only a symbol on the stack is returned |
| `DepChecker.Checker.CheckSymDeps` | scripts/config/symbol.c:1099-1145 | The same for one symbol with its properties |
| `DepChecker.Checker.CheckExprDeps` | scripts/config/symbol.c:1064-1096 | The same for the symbols of an expression |
| `DepChecker.Checker.WalkExprs` | scripts/config/symbol.c:1099-1145 | The same for the expressions of a symbol in turn |
| `DepChecker.Checker.StackCycle` | scripts/config/symbol.c:1184-1216 | A symbol met again while on the stack lies on a cycle |
| `DepChecker.Checker.CheckAll` | scripts/config/parser.tab.c:1965-1968 | With errors on, the sweep counts none if and only if no symbol lies on a cycle; with errors off it counts none; no check flag stays set |
| `DepChecker.OrderedHasNoCycle` | scripts/config/symbol.c:1064-1216 | Symbols finished in an order that respects all edges lie on no cycle |
| `CheckedConfig.WalkCovers` | scripts/config/symbol.c:1099-1145 | The checker follows exactly the symbols that the properties mention, except end points of ranges |
| `CheckedConfig.FullWalksAreDeps` | scripts/config/symbol.c:302-444 | With the end points of ranges, and the modules symbol where a tristate takes part, the walks are what calculating a value reads |
| `CheckedConfig.AcyclicIffNoCycle` | scripts/config/symbol.c:302-444 | Values can be calculated in some order if and only if no symbol lies on a cycle of these full walks |
| `CheckedConfig.UnseenSteps` | scripts/config/symbol.c:1124-1139 | A step that the checker does not follow goes to an end point of a range or to the modules symbol |
| `CheckedConfig.CheckedExact` | scripts/config/symbol.c:1064-1216 | After a sweep without a finding, values can be calculated in some order if and only if no cycle takes such a step |
| `CheckedConfig.CheckedIsAcyclic` | scripts/config/symbol.c:1064-1216 | A case of this that can be read off the declarations, with the order: range ends without a type, and no tristate among what the modules symbol depends on |
| `CheckedConfig.RangeLoopIsNotFound` | scripts/config/symbol.c:1124-1139 | Two ints that bound each other pass the checker, but no order of evaluation exists |
| `MenuTree.FlattenKeepsOrder` | scripts/config/menu.c:485-564 | Flattening keeps the pre-order |
| `MenuTree.FinalizeKeepsOrder` | scripts/config/menu.c:285-592 | Finishing an entry, which may absorb entries after it, keeps the pre-order of all |
| `MenuTree.AbsorbKeepsOrder` | scripts/config/menu.c:439-481 | Absorbing siblings keeps the pre-order |
| `MenuTree.FinalizeAllKeepsOrder` | scripts/config/menu.c:410-412 | Finishing all children keeps the pre-order |
| `MenuTree.FinalizeShows` | scripts/config/menu.c:485-564 | Below a finished entry only entries with a prompt have children |
| `MenuLinks.Menus.AdoptChildren` | scripts/config/menu.c:555-559 | The inner loop gives the children of an entry another parent and finds the last; all links stay right and nothing else changes |
| `MenuLinks.Menus.FlattenOne` | scripts/config/menu.c:554-563 | The children of an entry are put behind it in the chain |
| `MenuLinks.Menus.FlattenChildren` | scripts/config/menu.c:485-564 | The loop turns the linked children into the flattened ones |
| `MenuLinks.Menus.FinalizeChildren` | scripts/config/menu.c:410-412 | The loop finishes every child exactly once, although children absorb those after them |
| `MenuLinks.Menus.AbsorbLoop` | scripts/config/menu.c:439-475 | The loop over following entries finishes and moves exactly those that the rule absorbs |
| `MenuLinks.Menus.AbsorbRelink` | scripts/config/menu.c:477-481 | The relinking makes them the children of the entry |
| `MenuLinks.Menus.AbsorbFollowing` | scripts/config/menu.c:439-481 | The automatic submenu as a whole |
| `MenuPlaces.ReachFirst` | scripts/config/menu.c:440-471 | Of the earlier siblings that may take in an entry, exactly those before the first that does are closed |
| `MenuPlaces.FinalizePlaces` | scripts/config/menu.c:285-592 | Finishing an entry and its followers yields the entries and parents that the one-pass reading of the original siblings gives, whatever is still open |
| `MenuPlaces.RootPlaces` | scripts/config/menu.c:285-592 | The finished root has exactly the entries, in order, and the parents of the one-pass reading of the original tree |
| `MenuPlaces.RootRight` | scripts/config/menu.c:285-592 | Every entry keeps its place in the order; it is taken in by its old parent, or by an earlier sibling with a symbol and without children that absorbs it; and its parent is the entry that takes it in if that has a prompt or is the root, and the parent of that entry otherwise |
| `MenuPlaces.TakesAll` | scripts/config/menu.c:440-475 | What an entry takes in is an unbroken run that ends only at a sibling it does not absorb |
| `MenuPlaces.OwnersPlaced` | scripts/config/menu.c:440-475 | The run speaks about the places of the siblings |
| `MenuPlaces.PlacesInside` | scripts/config/menu.c:408-411 | The children of every entry, however deep, are placed in the same way |
| `MenuLinks.RootParents` | scripts/config/menu.c:285-592 | The parent pointers of a finished root are those of the one-pass reading |
| `MenuLinks.Menus.FinalizeMenu` | scripts/config/menu.c:285-592 | The links afterwards are those of the finished tree, only entries of the given ones changed, and each entry of the result was finished once |
| `MenuLinks.Menus.FinalizeRoot` | scripts/config/parser.tab.c:1964 | From the root: the same pre-order, all links consistent, every entry finished exactly once, children only below prompts, and every entry below the root with the parent that the one-pass reading of the original tree gives it |
| `MenuWalk.WriteWalk` | scripts/config/confdata.c:958-1003 | The pointer walk is the recursive tour: each entry visited before and ended after all its descendants |
| `MenuWalk.Climb` | scripts/config/confdata.c:989-1002 | Climbing ends exactly the entries with nothing left below |
| `MenuWalk.DefconfigWalk` | scripts/config/confdata.c:854-909 | The second walk visits the entries below the root in pre-order |
| `MenuWalk.TourVisits` | scripts/config/confdata.c:958-1003 | The visits of a tour are the pre-order |
| `MenuWalk.TourEnds` | scripts/config/confdata.c:958-1003 | The ends of a tour are the post-order, so each entry ends once |
| `Escaping.EscapedSize` | scripts/config/confdata.c:655-666 | The first pass counts the length, two quotes, the terminator and one byte for every character to escape |
| `Escaping.EscapeStringValue` | scripts/config/confdata.c:649-689 | The second pass writes the escaped text and exactly as many bytes as counted |
| `Escaping.RoundTrip` | scripts/config/confdata.c:258-264 | Unescaping an escaped text gives it back, whatever follows |
| `Escaping.UnescapeInPlace` | scripts/config/confdata.c:258-268 | For every text: the loop with overlapping moves succeeds exactly when the quote is closed, then leaves the unescaped text in the buffer, and does not touch what is before |
| `Escaping.MoveDown` | scripts/config/confdata.c:263 | The overlapping move, after which the old terminator and all behind it is in place |
| `Preprocess.Preprocessor.constructor` | scripts/config/preprocess.c:251-277 | All expansion counts are zero |
| `Preprocess.Preprocessor.ExpandString` | scripts/config/preprocess.c:498-555 | Terminates for every variable table; the result is the meaning of the string under the counters, errors included; without an error all counters are back |
| `Preprocess.Preprocessor.ExpandDollar` | scripts/config/preprocess.c:456-491 | The text after a dollar sign expands to what the whole meaning says, and expansion goes on behind its closing parenthesis |
| `Preprocess.FindClosing` | scripts/config/preprocess.c:472-485 | The loop finds the matching parenthesis, or the end |
| `Preprocess.Preprocessor.EvalClause` | scripts/config/preprocess.c:346-442 | A clause means its argument, or the variable, built-in function or environment variable its first part names |
| `MacroLaws.PlainText` | scripts/config/preprocess.c:498-540 | Text without a reference stands for itself |
| `MacroLaws.ReferenceMeans` | scripts/config/preprocess.c:456-491 | A reference with balanced parentheses is replaced by the value of its clause, and the text after it goes on |
| `MacroLaws.NeverClosed` | scripts/config/preprocess.c:472-486 | A reference that is not closed is an error |
| `MacroLaws.SplitOfJoin` | scripts/config/preprocess.c:383-402 | Balanced arguments without a comma outside parentheses are found again in the joined text |
| `MacroLaws.NumberedArgument` | scripts/config/preprocess.c:357-366 | The number k names the k-th argument, for every k and every list of arguments |
| `MacroLaws.SimpleVariable` | scripts/config/preprocess.c:251-277 | A call of a simple variable gives the text it holds |
| `MacroLaws.RecursiveVariable` | scripts/config/preprocess.c:251-277 | A call of a recursive variable gives its text expanded with the expanded arguments |
| `MacroLaws.PicksArgument` | scripts/config/preprocess.c:346-442 | If the text of a variable is $(k), a call gives the expansion of its k-th argument |
| `MacroLaws.NoVariable` | scripts/config/preprocess.c:416-434 | Without a variable the built-in function of that name is called, without one and without arguments the environment is asked, and otherwise nothing is left |
| `MacroLaws.CallTooLong` | scripts/config/preprocess.c:383-402 | More than 16 parts are refused |
| `MacroLaws.CallFails` | scripts/config/preprocess.c:410-414 | The first argument whose expansion fails decides the error |
| `Preprocess.Preprocessor.SplitClause` | scripts/config/preprocess.c:369-402 | The parts between commas outside parentheses, refused exactly when there are more than sixteen |
| `Preprocess.SplitJoins` | scripts/config/preprocess.c:369-402 | The parts with commas between them are the text again |
| `Preprocess.SplitWhole` | scripts/config/preprocess.c:369-402 | No part has a comma outside parentheses |
| `Preprocess.Preprocessor.VariableLookup` | scripts/config/preprocess.c:239-249 | The first variable of that name |
| `Preprocess.Preprocessor.VariableExpand` | scripts/config/preprocess.c:251-277 | Refuses a self-reference without arguments and too deep a recursion, and restores the counter |
| `Preprocess.Enter` | scripts/config/preprocess.c:251-277 | Every expansion of a variable that is not refused lowers the sum over variables of 1001 minus the count |
| `Preprocess.ExpandAgrees` | scripts/config/preprocess.c:251-555 | A limit on recursion that is not hit does not influence the result |
| `Preprocess.CountersKeepMeaning` | scripts/config/preprocess.c:251-277 | What the counters let through is the result of unlimited expansion |
| `Preprocess.EndlessIsCut` | scripts/config/preprocess.c:251-277 | An expansion that would not end is reported |
| `SelfReferences.RefusedExact` | scripts/config/preprocess.c:251-277 | Of the expansions that end, the counters refuse exactly those that enter a variable without arguments inside its own expansion, or one already being expanded 1001 times |
| `SelfReferences.UnlimitedEnds` | scripts/config/preprocess.c:251-277 | With A defined as `$($(1))`, unlimited expansion of `$(A,A)` ends in the empty string |
| `SelfReferences.EndingIsRefused` | scripts/config/preprocess.c:251-277 | The counters refuse it as a self-reference |
| `Rounds.RoundMacro` | scripts/mkhash.c:490-493 | The two updates of the round macro are the two new registers of the standard's round |
| `Rounds.ViewShifts` | scripts/mkhash.c:496-501 | Writing two registers in place and turning the indices is shifting all eight registers |
| `Rounds.Rnd` | scripts/mkhash.c:490-501 | A round in place is a round of the standard, for every position of the first register |
| `Rounds.Msch` | scripts/mkhash.c:504-505 | One more word of the message schedule |
| `Rounds.Mix` | scripts/mkhash.c:514-551 | The loop of sixteen rounds and sixteen words, leaving at the last pass, makes all sixty-four rounds |
| `Rounds.Transform` | scripts/mkhash.c:459-562 | The whole block function is the standard's, for any sound word operations |
| `Sha256.OpsSound` | scripts/mkhash.c:450-452 | The forms of Ch and Maj in the program are those of FIPS 180-4, and 32-bit sums may be regrouped |
| `Sha256.Decode` | scripts/mkhash.c:118-132 | Words are read most significant byte first, through two half words |
| `WordBits.RotrBits` | scripts/mkhash.c:452 | Rotating right by any distance brings bit j plus the distance, modulo 32, to bit j |
| `WordBits.RotlBits` | scripts/mkhash.c:160-164 | Rotating left by any distance brings bit j to bit j plus the distance, modulo 32 |
| `WordBits.RotrNumbers` | scripts/mkhash.c:484-487 | As numbers, for each distance n that is used: the quotient by 2^n, plus 2^(32-n) times the remainder |
| `WordBits.Sum0Bits` | scripts/mkhash.c:484 | Bit j is the exclusive or of bits j + 2, j + 13 and j + 22, modulo 32 |
| `WordBits.Sum1Bits` | scripts/mkhash.c:485 | Bit j is the exclusive or of bits j + 6, j + 11 and j + 25, modulo 32 |
| `WordBits.Sigma0Bits` | scripts/mkhash.c:486 | Bit j is the exclusive or of bits j + 7 and j + 18, modulo 32, and bit j + 3 or zero |
| `WordBits.Sigma1Bits` | scripts/mkhash.c:487 | Bit j is the exclusive or of bits j + 17 and j + 19, modulo 32, and bit j + 10 or zero |
| `WordBits.ChChooses` | scripts/mkhash.c:450 | Ch has the bits of the second word under the ones of the first, and those of the third under its zeros |
| `WordBits.MajIsMajority` | scripts/mkhash.c:451 | Maj has the bits on which the first two words agree, and those of the third elsewhere |
| `Sha256.TransformBlock` | scripts/mkhash.c:459-562 | For every state and block, the state becomes that of section 6.2.2 of FIPS 180-4 |
| `Sha256Constants.ConstantsAreCubeRoots` | scripts/mkhash.c:462-479 | Every round constant is the first 32 bits of the fractional part of the cube root of its prime |
| `Sha256Constants.InitialState` | scripts/mkhash.c:609-617 | The initial state is the first 32 bits of the fractional parts of the square roots of the first eight primes |
| `Sha256Stream.Sha256Context.constructor` | scripts/mkhash.c:602-618 | The initial context holds the empty message |
| `Sha256Stream.Sha256Context.Update` | scripts/mkhash.c:621-658 | The message taken in grows by the data, for every state of the buffer and every length |
| `Sha256Stream.Sha256Context.Pad` | scripts/mkhash.c:573-599 | The blocks compressed are the message padded as in section 5.1.1 of FIPS 180-4, with the length in bits modulo 2^64 |
| `Sha256Stream.Sha256Context.Final` | scripts/mkhash.c:664-675 | The digest is the state written out |
| `Sha256Stream.CountUsed` | scripts/mkhash.c:578-579 | The bit count gives the fill of the buffer, also after it has wrapped |
| `Sha256Stream.CountAdd` | scripts/mkhash.c:631-635 | The bit count stays the length modulo 2^64 |
| `Sha256Stream.LengthBytes` | scripts/mkhash.c:110-116 | The count written as two words is the eight-byte length |
| `Sha256Stream.WordReads` | scripts/mkhash.c:98-108 | A word reads back from the bytes written for it |
| `Sha256Stream.Sha256Sum` | scripts/mkhash.c:715-729 | The digest depends only on the concatenation of the pieces read |
| `Md5.Step` | scripts/mkhash.c:160-163 | A step macro with the operands of place k makes step k of the standard |
| `Md5.AllSteps` | scripts/mkhash.c:211-281 | The sixty-four unrolled steps with renamed registers are those of section 3.4 of RFC 1321, with its tables, word order and rotations |
| `Md5.OpsSound` | scripts/mkhash.c:151-163 | The optimised forms of F, G and H and the order of sums in the macro compute the standard's step |
| `Md5.TransformBlock` | scripts/mkhash.c:205-289 | For every state and block, the state becomes that of section 3.4 of RFC 1321 |
| `Md5Constants.ConstantsAreSines` | scripts/mkhash.c:211-281 | The constant of step k is the integer part of 2^32 times the absolute value of the sine of k + 1, for any two functions with the values, addition formulas and alternating series of sine and cosine |
| `Md5Constants.ApproxClose` | scripts/mkhash.c:211-281 | The tabulated approximations of the sines and cosines of 1 to 64 are within the bound of the error |
| `Md5Answer.DigestOfAbc` | scripts/mkhash.c:205-289 | The digest of "abc" is that of appendix A.5 of RFC 1321, which fixes the rotations and the order of the words |
| `Md5Stream.CountsAdd` | scripts/mkhash.c:316-319 | The low 29 bits with the carry found by comparison, and the high word, give the number of bytes modulo 2^61 |
| `Md5Stream.Md5Context.constructor` | scripts/mkhash.c:299-308 | The initial context holds the empty message |
| `Md5Stream.Md5Context.Body` | scripts/mkhash.c:189-297 | Compresses all blocks given, in order |
| `Md5Stream.Md5Context.Hash` | scripts/mkhash.c:310-343 | The message taken in grows by the data, for every state of the buffer and every length |
| `Md5Stream.Md5Context.End` | scripts/mkhash.c:345-396 | The digest is that of the message padded as in sections 3.1 and 3.2 of RFC 1321 |
| `Md5Stream.LengthBytes` | scripts/mkhash.c:366-374 | The two counters written out are the length in bits modulo 2^64 |
| `Md5Stream.DigestReads` | scripts/mkhash.c:378-393 | The digest determines the four registers |
| `Md5Stream.Md5Sum` | scripts/mkhash.c:700-713 | The digest depends only on the concatenation of the pieces read |
| `Blocks.FoldAppend` | scripts/mkhash.c:648-654 | Compressing two runs of blocks one after the other is compressing them together |
| `Padding.AlignRoundsUp` | tools/padjffs2/src/padjffs2.c:45 | The alignment rounds up to the block size while that fits in 32 bits, and gives 0 otherwise |
| `Padding.LowestBit` | tools/padjffs2/src/padjffs2.c:87-91 | The smallest block size left |
| `Padding.ClearAligned` | tools/padjffs2/src/padjffs2.c:95-99 | Leaves exactly the block sizes that do not divide the length |
| `Padding.FillTo` | tools/padjffs2/src/padjffs2.c:103-117 | Writes 0xff up to the length, in pieces of at most one buffer |
| `Padding.PadRound` | tools/padjffs2/src/padjffs2.c:82-126 | One round writes one marker and finishes at least one block size |
| `Padding.PadImage` | tools/padjffs2/src/padjffs2.c:79-126 | Terminates; the output is 0xff and markers that do not overlap and lie in increasing order; below 4 GiB every block size has a marker at one of its multiples if and only if the length rounded up to the largest fits in 32 bits; from 4 GiB on the markers directly follow the image and one another |
| `Padding.ImageHolds` | tools/padjffs2/src/padjffs2.c:103-125 | Each marker stands in the output at its own offset |
| `Padding.PackedAt` | tools/padjffs2/src/padjffs2.c:93-125 | From 4 GiB on, marker j stands at the length plus j times the size of a marker |
| `Padding.PadAcrossLimit` | tools/padjffs2/src/padjffs2.c:93 | Padding 4095 MiB and one byte to 2 MiB marks no multiple of 2 MiB |

## Left out

- Choices: `sym_calc_choice`, `sym_check_choice_deps` and the choice cases of the other functions.
- Expression nodes for lists and ranges, and missing operands of `expr_eq`.
- Identity, sharing and freeing of expression nodes: rewriting is modelled on values, with positions for slots.
- `trans_count`, which nested eliminations save and restore; whether anything was joined is returned instead.
- Building of reverse dependencies from `select` and `imply`, and the checks and warnings of `sym_check_prop`.
- MenuLinks.Menus.FinalizeMenu: which entries are absorbed or have prompts is an arbitrary rule of the entries, because the dependencies that decide it are proved separately in `Pipeline`.
- Pipeline.PropagateToProperty: the dependency of the parent entry is required in negation normal form, which `Propagate` gives it.
- Evaluator.SymbolTable.SetTristateValue: the symbol is required to be bool or tristate; the flags for changed and writable symbols are not modelled.
- Evaluator.SymbolTable.CalcAll: the modules symbol is required to be calculated first, which `ClearAllValid` does.
- DepChecker.Checker.CheckAll: the expressions of a symbol are walked in the order visibility, prompts, defaults, ranges; the order in which the properties were declared is not modelled, nor is the report of a cycle.
- `sym_set_string_value`, `sym_string_within_range` and the other setters and printers of symbols.
- The lexer and the parser tables; the grammar is taken from its actions and precedences.
- Preprocess.Preprocessor.EvalClause: built-in functions and the environment are fixed functions of their arguments, so a shell command that answers differently each time is not covered.
- `variable_add`, `expand_one_token` and the list of environment variables written for the build.
- The texts of errors and warnings.
- Padding.PadImage: a 64-bit `ssize_t` is assumed.
- Failing reads and writes, option parsing and the hexadecimal output of the hashing tool.
- `conf_write_autoconf`, the front ends, firmware header scripts and everything else in the repository.
