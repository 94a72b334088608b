# Calculator expression engine

This is a Dafny model of the expression engine behind a browser calculator, with proofs about it. Keys and buttons build an
*expression*: a list of symbols, each a text value with a type, `number`, `operator` or `error`. The model covers:

- **Entry rules.** A digit key, an operator key or delete changes that list:
  - a second `.` is refused;
  - `00` is refused;
  - a `-` where a number is due starts a negative number;
  - the last operator typed wins;
  - a bare `-` blocks further operators.
- **Evaluation.** Equal evaluates the list in two passes:
  - Pass 1 multiplies and divides. Chains such as `6 / 2 / 3` run left to right. Each chain is spliced back as one number.
  - Pass 2 adds and subtracts, starting from 0.
  - The list then becomes one symbol: a number, or an error for `Infinity` or `NaN`.
- **Two engines.** There are two versions of the engine:
  - the current one (`src/scripts/calculator.js`, with the classes `MathSymbol` and `Expression` of `src/scripts/lib/`);
  - an earlier one over a plain list of records (`src/js/calculator.js`).

  They differ in four ways:
  - The earlier engine accepts any operator on an empty expression, as a number.
  - It reads a bare `-` after `x` or `/` as `Number("-")`, which is NaN. The current engine reads it as 1.
  - On an exception during pass 2, it keeps the list pass 1 built, because it has already stored that list.
  - Its keyboard mapping is smaller.

Modules:

| module | file | contents |
|---|---|---|
| `Numbers` | numbers.dfy | Numbers as exact reals plus `Infinity`, `-Infinity` and `NaN`, with IEEE-style `+ - x /`. `Parse` stands for `Number(text)` and `Show` for `String(number)`. |
| `Symbols` | symbols.dfy | `Kind`, the value type `Sym`, and the class `MathSymbol`, whose `value` the methods change in place. |
| `Expressions` | expression.dfy | The class `Expression`: a sequence of live `MathSymbol` objects that the methods push, pop and reassign. |
| `Keys` | keys.dfy | Keyboard normalisation and classification, for both engines. |
| `Evaluator` | evaluator.dfy | Both passes. The loops are methods, each proved equal to a function: the index scan, the mult/div loop and the splice loop. The `reduce` is a function. |
| `Wellformed` | wellformed.dfy | The shape of a typed expression (numbers and operators alternate), and the proof that evaluating such an expression never throws. |
| `Entry` | entry.dfy | What each key does, as functions of the expression's value for both engines, and the laws of entry. |
| `Calculator` | calculator.dfy | The current engine's handlers as methods on one `Expression`. Each is proved to match `Entry`. |
| `Legacy` | legacy.dfy | The earlier engine's handlers as methods on a `seq<Sym>` field. Each is proved to match `Entry`. |
| `Scenarios` | scenarios.dfy | Worked evaluations: `2 + 3 x 4`, `2 x 3 + 4`, `6 / 2 / 3`, `8 / 0`, `-5 / 0`, `5 x -` in both engines, and a leading `x` in the earlier engine; and the keys `1`, `+`, `2`, Enter typed one by one. |

The evaluator takes the two conversions as a parameter, `Host(number, str)`. `Js` is `Host(Parse, Show)`. Results that
depend only on the structure of the passes are proved for every host. `AlternatingEvaluates` asks only that `str`
never writes "", never writes a bare `-`, and never writes text containing `x`, `/` or `+`. A `-` inside the text, as in
`-5`, is allowed. `JsWritesNumberText` proves this of `Show`.

## Entry rules the code follows

- A `.` typed on an empty expression, or after an operator, starts a number holding just `.`. No `0` is put in front of
  it (src/scripts/calculator.js:93-101).
- A `.` typed after a bare `-` gives `-.`.
- A `0` followed by `5` gives `05`. Only a second `0` after a lone `0` is refused.
- In the earlier engine the test in front of pass 1 is the list of indexes itself, which is always truthy, so the splice
  always runs (src/js/calculator.js:174). `Legacy.LegacyPassOneIsPassOne` proves this gives the same list as skipping the
  splice when there is nothing to splice.

## Model

| member | source | states |
|---|---|---|
| Symbols.KindOf | src/scripts/lib/MathSymbol.js:4-17 | A type tag is accepted exactly when it is `number`, `operator` or `error`, and it names the kind whose tag it is. |
| Symbols.KindTagRoundTrip | src/scripts/lib/MathSymbol.js:4 | Every kind's tag is accepted and names that kind. |
| Symbols.MathSymbol.Create | src/scripts/lib/MathSymbol.js:11-17 | Construction fails with TypeError exactly when the tag is unknown. Otherwise the new symbol holds the given value and kind unchanged. |
| Symbols.MathSymbol.constructor | src/scripts/lib/MathSymbol.js:11-17 | A symbol of a known kind stores its value and kind. |
| Symbols.MathSymbol.Append | src/scripts/lib/MathSymbol.js:23-26 | The value becomes the old value followed by the digit, and the new value is returned. The kind is a constant, so it cannot change. |
| Symbols.MathSymbol.Pop | src/scripts/lib/MathSymbol.js:31-34 | The value loses exactly its last character; an empty value stays empty. The new value is returned. |
| Symbols.DropLast | src/scripts/lib/MathSymbol.js:32 | `slice(0, -1)`: the result followed by the removed character is the original; "" gives "". |
| Symbols.AppendThenDropLast | src/scripts/lib/MathSymbol.js:23-34 | Dropping the last character of `s + [c]` gives `s`. |
| Symbols.AppendThenPop | src/scripts/lib/MathSymbol.js:23-34 | Appending one character and popping it restores the symbol's value. |
| Symbols.MathSymbol.IsEmpty | src/scripts/lib/MathSymbol.js:39-41 | True exactly when the value is "". An empty value is one that popping leaves unchanged. |
| Symbols.SomeIsError | src/scripts/lib/Expression.js:53-55 | True exactly when some symbol of the list has kind error. |
| Expressions.Expression.constructor | src/scripts/lib/Expression.js:9-11 | A new expression is empty and has no error. |
| Expressions.Expression.Values | src/scripts/lib/Expression.js:16-18 | The getter returns the same symbols in the same order. Being a value, the returned sequence cannot be used to change the list. |
| Expressions.Expression.AddSymbol | src/scripts/lib/Expression.js:25-29 | Pushes one fresh symbol holding the given value and kind, returns it, and leaves the earlier entries as they were. |
| Expressions.Expression.Clear | src/scripts/lib/Expression.js:31-33 | The list becomes empty; afterwards `IsEmpty` holds and `HasError` does not. |
| Expressions.Expression.RemoveLastSymbol | src/scripts/lib/Expression.js:38-40 | On a non-empty list, removes and returns the last symbol and keeps the rest. On an empty list, returns nothing and changes nothing. |
| Expressions.AddThenRemove | src/scripts/lib/Expression.js:25-40 | `addSymbol` followed by `removeLastSymbol` restores the list and its values. |
| Expressions.Expression.LastSymbol | src/scripts/lib/Expression.js:45-48 | The live last object of the list, or nothing when the list is empty. |
| Expressions.Expression.HasError | src/scripts/lib/Expression.js:53-55 | True exactly when some symbol has kind error. |
| Expressions.Expression.IsEmpty | src/scripts/lib/Expression.js:60-62 | True exactly when the list is empty. |
| Keys.FirstClassHolding | src/scripts/calculator.js:82-90 | The scan of the table gives no class exactly when no entry holds the key. Otherwise it gives the class of the first entry that holds it. |
| Keys.ClassifyKeyExactly | src/scripts/calculator.js:16-20 | `0`-`9` and `.` are numbers, `/ x - +` operators, `equal` and `delete` actions, and every other key has no class. |
| Keys.PressedKeyClass | src/scripts/calculator.js:65-80 | After lower-casing and renaming (`*` to `x`, `,` to `.`, Enter to `equal`, Backspace to `delete`), digits, `.` and `,` are numbers. `/ x - + *` are operators; Enter, Backspace, `equal` and `delete` are actions. |
| Entry.RenamedKeysActAlike | src/scripts/calculator.js:65-80 | The current engine treats `,` exactly as `.`, `*` as `x`, Enter as `equal` and Backspace as `delete`. The earlier engine renames `*` to `x` (src/js/calculator.js:42). |
| Entry.KeyCaseIgnored | src/scripts/calculator.js:65-80 | In both engines a key acts exactly as its lower-cased form, so `ENTER` acts as `enter`. |
| Keys.NormalizedRenamings | src/scripts/calculator.js:65-80 | `getKeyValuePressed` turns `,` into `.`, `*` into `x`, Enter into `equal` and Backspace into `delete`, and leaves the target names as they are. The earlier engine turns `*` into `x` (src/js/calculator.js:42). |
| Keys.NormalizeIgnoresCase | src/scripts/calculator.js:65-80 | Both normalisations give the same value for a key and for its lower-cased form. |
| Keys.LegacyClassifyKeyExactly | src/js/calculator.js:71-85 | The earlier table: numbers and operators as before, and the actions `enter` and `backspace`. |
| Keys.LegacyPressedKeyClass | src/js/calculator.js:42-45 | In the earlier engine only `*` is renamed, so `,`, `equal` and `delete` are not handled. |
| Numbers.DivisionByZeroIsNotFinite | src/scripts/calculator.js:162 | Dividing by 0 gives Infinity for a positive dividend, -Infinity for a negative one and NaN for 0. |
| Numbers.ParseShowInteger | src/scripts/calculator.js:205-211 | An integer written by `Show`, the model's `String`, reads back through `Parse`, the model's `Number`, as the same integer, so a chained result is read back as it was written. |
| Numbers.ShowIsNumberText | src/scripts/calculator.js:297-301 | `Show`, the model's `String`, never writes "" or a bare `-`, and its text holds no `x`, `/` or `+`. `Show` writes no exponent form (see Left out), so this is not a claim about JavaScript's `String`, which writes `1e+21` for 10^21. |
| Numbers.ShowShape | src/scripts/calculator.js:297-301 | The text `Show` writes for any number holds at most one `.` and never starts with `00`. |
| Evaluator.JsWritesNumberText | src/scripts/calculator.js:208-212 | The pass-1 results, written by `Show`, never read as an operator or as the sign placeholder. |
| Evaluator.MultDivIndexesExactly | src/scripts/calculator.js:190-200 | The indexes increase strictly, and an index is present exactly when it is the position of an `x` or `/` value. |
| Evaluator.IndexesOfMultAndDivision | src/scripts/calculator.js:190-200 | The loop returns exactly the index list `MultDivIndexes` describes. |
| Evaluator.MultDivResultAt | src/scripts/calculator.js:220-241 | Result `i` belongs to operator `idx[i]`. When the previous operator is two positions back, its left operand is that operator's result (left-associative chains); otherwise it is the symbol before it. |
| Evaluator.CalculateMultAndDivision | src/scripts/calculator.js:202-244 | The loop builds exactly the results `MultDivResults` describes, one per index. |
| Evaluator.MultDivConsumed | src/scripts/calculator.js:208-212 | Every `x` or `/` position lies in the triple of some result. |
| Evaluator.ResultsAreNotMultDiv | src/scripts/calculator.js:261-263 | No result text spliced back reads as `x` or `/`. |
| Evaluator.ReplaceCalculatedOperationsByResult | src/scripts/calculator.js:246-277 | The nested loops build exactly the splice `Spliced`: each position contributes the chain results it starts, then itself unless a triple covers it. |
| Evaluator.ConsumedByExactly | src/scripts/calculator.js:266-268 | A position is dropped exactly when it lies in the triple of some result. |
| Evaluator.SplicedElements | src/scripts/calculator.js:246-277 | Every symbol of the splice is an original symbol no triple covers, or a number carrying the final result of a chain. |
| Evaluator.InsertedAreClosing | src/scripts/calculator.js:257-263 | The results pushed before a position are exactly final results of chains whose triple starts at that position. An intermediate result of a chain is never pushed. |
| Evaluator.SplicedKeeps | src/scripts/calculator.js:246-277 | Conversely, every uncovered symbol is kept, and the result closing each chain is inserted. |
| Evaluator.SplicedLength | src/scripts/calculator.js:246-277 | The splice's length is the number of uncovered positions plus one per chain whose triple starts inside the list. Exactly one result goes in per chain. |
| Evaluator.SplicedWithoutResults | src/scripts/calculator.js:246-277 | With no results the splice copies the list. |
| Evaluator.SplicedHasNoMultDiv | src/scripts/calculator.js:246-277 | Once every `x`/`/` is covered and no result reads as one, the splice holds no `x` or `/`. |
| Evaluator.PassOneRemovesMultDiv | src/scripts/calculator.js:166-183 | After pass 1 no `x` or `/` is left for pass 2. |
| Evaluator.SumFoldIsSignedTotal | src/scripts/calculator.js:285-296 | Suppose every counted number is finite and is preceded by `+`, `-`, an empty value or nothing. Then the fold never fails, and its total is the signed sum from 0: `-` negates the number after it, and operators and the bare `-` add nothing. |
| Evaluator.SumFoldFailsOnlyOnBadOperator | src/scripts/calculator.js:290-295 | The fold throws exactly when a counted number is preceded by a value other than `+`, `-`, "" or nothing. |
| Evaluator.ResultSymbol | src/scripts/calculator.js:297-301 | The result is an error exactly for Infinity and NaN (so -Infinity is a number), is never an operator, and holds `String` of the total. |
| Wellformed.ShowIsNumber | src/scripts/calculator.js:297-301 | The text `Show` writes for any number is number text, as typed numbers are. |
| Wellformed.AlternatingIndexesOdd | src/scripts/calculator.js:190-200 | On an alternating expression pass 1 picks only odd positions, in increasing order. |
| Wellformed.SplicedAlternates | src/scripts/calculator.js:246-277 | On alternating kinds with results at increasing odd positions, the splice still alternates. It ends with a number exactly when the next position is open. |
| Wellformed.PassOneAlternates | src/scripts/calculator.js:166-183 | After pass 1 on an alternating expression, kinds still alternate and every operator left is `+` or `-`. |
| Wellformed.AlternatingEvaluates | src/scripts/calculator.js:166-188 | On an alternating expression, evaluation never throws. |
| Entry.DigitEntry | src/scripts/calculator.js:92-115 | A digit changes at most the last symbol or adds one. An added symbol is exactly a new number holding the digit. |
| Entry.OperatorEntry | src/scripts/calculator.js:131-157 | An operator changes at most the last symbol or adds one; both engines. |
| Entry.DeleteEntry | src/scripts/calculator.js:304-321 | Delete clears an expression holding an error. Otherwise it removes at most one symbol and changes only the last one. |
| Entry.EvaluateEntry | src/scripts/calculator.js:166-188 | An empty expression is unchanged. Otherwise, unless pass 2 throws, the expression becomes exactly one symbol. On a throw the current engine keeps the expression as it was. |
| Entry.ErrorCleared | src/scripts/calculator.js:26-28 | An expression holding an error is emptied; any other is kept. |
| Entry.Press | src/scripts/calculator.js:44-63 | A key is handled exactly when its normalised value has a class, for each engine's own renaming and table. A key that is not handled changes nothing and does not throw. |
| Entry.PressDispatches | src/scripts/calculator.js:44-63 | A pressed key whose normalised value is a digit or point is stored as a digit, an operator as an operator, the equal key evaluates and the delete key deletes, each on the error-cleared expression, in both engines. |
| Entry.PressEqual | src/scripts/calculator.js:51-58 | A key that normalises to the engine's equal key evaluates the error-cleared expression. |
| Entry.ClassOfTag | src/scripts/calculator.js:6-14 | A button's type selects a class exactly when it is `number`, `operator` or `action`. |
| Entry.Click | src/scripts/calculator.js:22-38 | A click is always handled, on the error-cleared expression. A `number` button stores its value as a digit and an `operator` button as an operator. The actions `equal`, `delete` and `reset` evaluate, delete and empty the expression. An unknown button type, or an action other than those three, throws and leaves the error-cleared expression (names inherited from JavaScript's `Object` are the exception; see Left out). |
| Entry.NumberTextExtend | src/scripts/calculator.js:103-114 | A digit or point that `storageDigit` accepts keeps a number's text free of operators, of a second point and of a leading `00`. |
| Entry.NumberTextPrefix | src/scripts/calculator.js:317-320 | A non-empty shortened number is still number text. |
| Entry.DigitKeepsShape | src/scripts/calculator.js:92-115 | A digit key keeps an alternating expression alternating. |
| Entry.OperatorKeepsShape | src/scripts/calculator.js:131-157 | An operator key keeps it alternating, so entry never puts two operators side by side. |
| Entry.DeleteKeepsShape | src/scripts/calculator.js:304-321 | Delete keeps it alternating. |
| Entry.EvaluateKeepsShape | src/scripts/calculator.js:166-188 | Equal on an alternating expression never throws, and leaves one number or one error. |
| Entry.PressKeepsShape | src/scripts/calculator.js:44-63 | From a reachable expression, no key press throws, and every press leaves a reachable expression. |
| Entry.TypingNeverThrows | src/scripts/calculator.js:44-63 | Typing any sequence of keys from a reachable expression never throws, and ends reachable. |
| Entry.ClickKeepsShape | src/scripts/calculator.js:22-38 | No click on one of the page's buttons throws, and each click keeps the expression reachable. |
| Entry.PressClearsErrorFirst | src/scripts/calculator.js:51-53 | A handled key on an expression holding an error acts as on the empty expression. |
| Entry.ClickClearsErrorFirst | src/scripts/calculator.js:26-28 | Any click on an expression holding an error acts as on the empty expression. |
| Entry.DeleteUndoesDigit | src/scripts/calculator.js:304-321 | Delete undoes any accepted digit. |
| Entry.DeleteUndoesOperatorPush | src/scripts/calculator.js:304-321 | Delete undoes an operator key that added a symbol. |
| Entry.LastOperatorWins | src/scripts/calculator.js:146-154 | After a number, a second operator other than `-` replaces the first: the expression is the number's expression plus that one operator. |
| Entry.BareMinusBlocksOperators | src/scripts/calculator.js:139-144 | After a bare `-`, every operator is ignored, in both engines. |
| Entry.MinusStartsNegativeNumber | src/scripts/calculator.js:146-150 | A `-` typed where a number is due, followed by a digit, gives the number `-digit`. |
| Entry.DigitRefusedExactly | src/scripts/calculator.js:103-112 | On an expression built from keys, a digit or point is ignored exactly when the expression ends in a number and the key is a second `.` or a `0` after a lone `0`. |
| Entry.DigitStartsNumber | src/scripts/calculator.js:93-101 | On an empty expression, or after an operator, a digit or point is pushed as a new number holding just that key. |
| Entry.DigitExtendsNumber | src/scripts/calculator.js:103-114 | After a number, a digit or point that is not a second `.` or a `0` after a lone `0` is appended to that number's text, and nothing else changes. |
| Entry.TextAppend | src/scripts/calculator.js:123 | The displayed text, the values joined, of a list with one more symbol is the old text followed by that symbol's value. |
| Entry.DigitAppendsToText | src/scripts/calculator.js:92-115 | A digit or point that is not ignored appears at the end of the displayed text, whether it starts a number or extends one. |
| Entry.OperatorAfterNumber | src/scripts/calculator.js:156 | After a number other than a bare `-`, an operator is appended as an operator, in both engines, and appears at the end of the displayed text. |
| Entry.OperatorAfterOperator | src/scripts/calculator.js:146-154 | After an operator, `-` is added as a number, and any other operator takes the last operator's place and ends the displayed text. |
| Entry.OperatorOnEmpty | src/scripts/calculator.js:132-137 | On an empty expression the current engine stores `-` as a number and ignores every other operator. The earlier engine stores any operator as a number (src/js/calculator.js:131-136). |
| Calculator.Calculator.constructor | src/scripts/calculator.js:4 | The engine starts with a fresh, empty expression. |
| Calculator.Calculator.LastChanged | src/scripts/calculator.js:114 | Symbols are distinct objects, so changing the last symbol in place changes only the last entry of the value. |
| Calculator.Calculator.StorageDigit | src/scripts/calculator.js:92-115 | The expression's new value is `DigitEntry` of its old value. |
| Calculator.Calculator.StorageOperator | src/scripts/calculator.js:131-157 | The new value is `OperatorEntry(Current, …)` of the old one. |
| Calculator.Calculator.DeleteLastDigit | src/scripts/calculator.js:304-321 | The new value is `DeleteEntry` of the old one. |
| Calculator.Calculator.CalculateExpression | src/scripts/calculator.js:166-188 | The new value and the thrown flag are those of `EvaluateEntry(Current, …)`. |
| Calculator.Calculator.HandleKeyPress | src/scripts/calculator.js:44-63 | The new value, whether the key was handled, and whether it threw, are those of `Press(Current, …)`. |
| Calculator.Calculator.HandleKeyClick | src/scripts/calculator.js:22-38 | The new value and the thrown flag are those of `Click(Current, …)`. |
| Legacy.CreateValueForExpression | src/js/calculator.js:293-298 | A record holding the given text and type. |
| Legacy.LegacyPassOneIsPassOne | src/js/calculator.js:172-177 | Always running the splice gives the list that running it only when there is an `x` or `/` gives. |
| Legacy.LegacyCalculator.constructor | src/js/calculator.js:8 | The expression starts empty. |
| Legacy.LegacyCalculator.CheckIfExpressionHasError | src/js/calculator.js:330-332 | True exactly when some record has type error. |
| Legacy.LegacyCalculator.ClearAllExpression | src/js/calculator.js:334-336 | The expression becomes empty. |
| Legacy.LegacyCalculator.StorageDigit | src/js/calculator.js:87-115 | The new list is `DigitEntry` of the old one: the same rules as the current engine. |
| Legacy.LegacyCalculator.StorageOperator | src/js/calculator.js:130-160 | The new list is `OperatorEntry(Legacy, …)`, under which any operator starts an empty expression as a number. |
| Legacy.LegacyCalculator.DeleteLastDigit | src/js/calculator.js:300-320 | The new list is `DeleteEntry` of the old one. |
| Legacy.LegacyCalculator.CalculateExpression | src/js/calculator.js:169-181 | The new list and the thrown flag are those of `EvaluateEntry(Legacy, …)`. Here a bare `-` is not read as 1, and a throw leaves pass 1's list. |
| Legacy.LegacyCalculator.HandleKeyPress | src/js/calculator.js:41-69 | The new list, whether the key was handled, and whether it threw, are those of `Press(Legacy, …)`. |
| Legacy.LegacyCalculator.HandleKeyClick | src/js/calculator.js:10-35 | The new list and the thrown flag are those of `Click(Legacy, …)`. |
| Scenarios.MultiplicationFirst | src/scripts/calculator.js:166-188 | `2 + 3 x 4` evaluates to `14` in both engines. |
| Scenarios.LeadingProductBeforeSum | src/scripts/calculator.js:166-188 | `2 x 3 + 4` evaluates to `10` in both engines: the product's result takes the place of its triple at the front. |
| Scenarios.EvaluateAgainIsNoOp | src/scripts/calculator.js:166-188 | Equal on an expression holding only an integer result leaves it as it is and does not throw, in both engines. |
| Scenarios.TypingOnePlusTwo | src/scripts/calculator.js:44-63 | Pressing `1`, `+`, `2` and Enter on an empty expression leaves the number `3` and throws nothing. |
| Scenarios.DivisionChainsLeftToRight | src/scripts/calculator.js:224-226 | `6 / 2 / 3` evaluates to `1` in both engines. |
| Scenarios.DivisionByZeroIsError | src/scripts/calculator.js:297-299 | `8 / 0` evaluates to the error symbol `Infinity`. |
| Scenarios.NegativeDivisionByZeroIsNumber | src/scripts/calculator.js:297-301 | `-5 / 0` evaluates to the number symbol `-Infinity`. |
| Scenarios.CurrentIgnoresBareMinus | src/scripts/calculator.js:228-230 | In the current engine `5 x -` evaluates to `5`. |
| Scenarios.LegacyBareMinusIsNaN | src/js/calculator.js:216-233 | In the earlier engine `5 x -` evaluates to the error symbol `NaN`. |
| Scenarios.LegacyLeadingOperatorEntry | src/js/calculator.js:130-136 | In the earlier engine, typing `x + 3` on an empty expression gives the number `x`, the operator `+` and the number `3`. |
| Scenarios.LeadingProductDropped | src/js/calculator.js:238-265 | Pass 1 on `x + 3` drops the product's result, because its triple starts before position 0. |
| Scenarios.LegacyLeadingOperatorIsDropped | src/js/calculator.js:169-181 | In the earlier engine `x + 3` evaluates to `3`. |
| Scenarios.CurrentIgnoresLeadingOperator | src/scripts/calculator.js:132-137 | In the current engine, an operator other than `-` on an empty expression changes nothing. |
| Scenarios.DeletingBackToEmpty | src/scripts/calculator.js:304-321 | Delete takes `12 +` to `12`, then to `1`, then to empty. |

## Left out

- Rendering, scrolling and event wiring (`renderExpression`, `scrollDisplayToRight`, `addKeysEvent`, `preventDefault`) are browser I/O. The
  handlers are modelled without them. `Entry.Text` models the joined text `renderExpression` writes for an expression
  without an error. The message it writes for an error, and the page itself, are not modelled.
- src/js/theme.js and the two index.js files are theme storage and start-up wiring. They are not part of this model.
- Floating point: numbers are exact reals, and `Infinity`, `-Infinity` and `NaN` are kept apart from them.
  - There is no rounding and no overflow to Infinity.
  - There is no signed zero, so `1 / -0` gives Infinity here.
- `Numbers.Show`: it writes integers exactly, and other values with their fraction truncated to 16 digits. It does not write
  exponent forms such as `1e+21`, and it does not reproduce JavaScript's shortest round-trip digits.
- `Numbers.Parse`: it reads an optional sign, decimal digits with at most one point, and `Infinity`.
  - It does not read whitespace, exponents, hexadecimal or `undefined`.
  - Where these matter the model uses NaN explicitly: the missing left operand of a product at position 0.
- `Keys.Lower` lower-cases ASCII letters only.
- Button values that name a property of a JavaScript function are not modelled. A click calls `KEY_TYPES[type][value]` when
  it is truthy. For values such as `length` or `name` that lookup finds a property of the handler function, and calling it
  throws. The model treats every number and operator value as one to be stored.
- `Entry.Click`: button types and action values that name a member inherited from JavaScript's `Object` are not modelled.
  Examples are `constructor`, `toString`, `valueOf` and `hasOwnProperty`. The source finds them in the `KEY_TYPES` object
  literal and calls them, which throws nothing and leaves the error-cleared expression. The model says such a click throws.
  No button on the page carries these names, so `Entry.ClickKeepsShape` is unaffected.
- `Expressions.Expression.AddSymbol` takes a `Kind`, not a type tag. Rejecting an unknown tag is modelled once, by
  `Symbols.MathSymbol.Create`.
- `Calculator.Calculator.CalculateExpression`: the new result symbol is a fresh object. No proof is given that it is
  distinct from symbols the page may still hold.
- `Entry.TypingNeverThrows` and `Entry.ClickKeepsShape` are stated for the current engine only. The earlier engine accepts
  any operator on an empty expression, which leaves shapes such as `x x 3` outside the invariant.
