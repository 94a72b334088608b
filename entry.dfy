/**
 * What each key does to the expression, as functions of the expression's
 * value, for the current engine (src/scripts/calculator.js) and the earlier
 * one (src/js/calculator.js). The classes in calculator.dfy and legacy.dfy
 * are proved to change their state exactly as these functions say.
 */
module Entry {
  import opened Wrappers
  import opened Numbers
  import opened Symbols
  import opened Keys
  import opened Evaluator
  import opened Wellformed

  /** The current engine, or the earlier one. */
  datatype Engine = Current | Legacy

  /** Only the current engine reads a bare `-` right operand as 1. */
  function MinusAsOne(e: Engine): bool {
    e == Current
  }

  /** The key name that evaluates: `equal` after normalisation, or the raw `enter`. */
  function EqualKey(e: Engine): string {
    if e == Current then "equal" else "enter"
  }

  /** The action key that deletes: `delete` after normalisation, or the raw `backspace`. */
  function DeleteKey(e: Engine): string {
    if e == Current then "delete" else "backspace"
  }

  /** The value a pressed key is dispatched as, after the engine's renaming. */
  function PressedValue(e: Engine, raw: string): string {
    if e == Current then NormalizeKey(raw) else LegacyNormalizeKey(raw)
  }

  /** What a key event leaves: the expression, whether the key was handled, whether a TypeError escaped. */
  datatype Outcome = Outcome(buffer: seq<Sym>, handled: bool, threw: bool)

  function Last(xs: seq<Sym>): Sym
    requires xs != []
  {
    xs[|xs| - 1]
  }

  function Init(xs: seq<Sym>): seq<Sym>
    requires xs != []
  {
    xs[..|xs| - 1]
  }

  /** What the display shows: the values one after another, as `values.map(v => v.value).join('')`. */
  function Text(xs: seq<Sym>): string {
    if xs == [] then "" else Text(Init(xs)) + Last(xs).value
  }

  /**
   * `storageDigit`: a digit after an operator (or on an empty expression)
   * starts a number; otherwise it extends the last symbol, except a second
   * `.` and a `0` after a lone `0`, which are ignored.
   */
  function DigitEntry(xs: seq<Sym>, digit: string): (ys: seq<Sym>)
    ensures |xs| <= |ys| <= |xs| + 1
    ensures xs != [] ==> ys[..|xs| - 1] == Init(xs)
    ensures |ys| == |xs| + 1 ==> ys == xs + [Sym(digit, Number)]
  {
    if xs == [] then [Sym(digit, Number)]
    else
      var last := Last(xs);
      if last.kind == Operator then xs + [Sym(digit, Number)]
      else if (digit == "." && '.' in last.value) || (digit == "0" && last.value == "0") then xs
      else Init(xs) + [Sym(last.value + digit, last.kind)]
  }

  /**
   * `storageOperator`: on an empty expression the current engine accepts
   * only `-`, as the start of a negative number, while the earlier one
   * accepts any operator as a number; after a bare `-` nothing is accepted;
   * after an operator `-` starts a negative number and any other operator
   * replaces it; after a number the operator is appended.
   */
  function OperatorEntry(e: Engine, xs: seq<Sym>, op: string): (ys: seq<Sym>)
    ensures |xs| <= |ys| <= |xs| + 1
    ensures xs != [] ==> ys[..|xs| - 1] == Init(xs)
  {
    if xs == [] then
      if op == "-" || e == Legacy then [Sym(op, Number)] else []
    else
      var last := Last(xs);
      if last.kind == Number && last.value == "-" then xs
      else if last.kind == Operator then
        if op == "-" then xs + [Sym(op, Number)] else Init(xs) + [Sym(op, Operator)]
      else xs + [Sym(op, Operator)]
  }

  /**
   * `deleteLastDigit`: clears an expression holding an error, removes a
   * trailing operator, and otherwise removes the last character of the last
   * symbol, dropping the symbol when that empties it.
   */
  function DeleteEntry(xs: seq<Sym>): (ys: seq<Sym>)
    ensures |ys| <= |xs|
    ensures SomeIsError(xs) ==> ys == []
    ensures !SomeIsError(xs) ==> |xs| - 1 <= |ys|
    ensures !SomeIsError(xs) && xs != [] ==> ys[..|xs| - 1] == Init(xs)
  {
    if xs == [] then xs
    else if SomeIsError(xs) then []
    else
      var last := Last(xs);
      if last.kind == Operator then Init(xs)
      else
        var v := DropLast(last.value);
        if v == "" then Init(xs) else Init(xs) + [Sym(v, last.kind)]
  }

  /**
   * `calculateExpression`: an empty expression is left alone; otherwise it
   * becomes the one result symbol. When pass 2 throws, the current engine
   * keeps the expression, and the earlier one keeps the list pass 1 built,
   * which it has already stored.
   */
  function EvaluateEntry(e: Engine, xs: seq<Sym>): (o: Outcome)
    ensures o.handled
    ensures xs == [] ==> o == Outcome(xs, true, false)
    ensures !o.threw ==> |o.buffer| <= 1
    ensures xs != [] && !o.threw ==> |o.buffer| == 1
    ensures o.threw && e == Current ==> o.buffer == xs
  {
    if xs == [] then Outcome(xs, true, false)
    else match Evaluate(Js, xs, MinusAsOne(e))
      case Evaluated(s) => Outcome([s], true, false)
      case Threw(ys) => Outcome(if e == Current then xs else ys, true, true)
  }

  /** The expression as a handler finds it after its first step: cleared if it holds an error. */
  function ErrorCleared(xs: seq<Sym>): (ys: seq<Sym>)
    ensures SomeIsError(xs) ==> ys == []
    ensures !SomeIsError(xs) ==> ys == xs
  {
    if SomeIsError(xs) then [] else xs
  }

  /** The dispatch through `KEY_TYPES` for a key of a known class. */
  function Dispatch(e: Engine, xs: seq<Sym>, c: KeyClass, value: string): Outcome {
    match c
    case NumberClass => Outcome(DigitEntry(xs, value), true, false)
    case OperatorClass => Outcome(OperatorEntry(e, xs, value), true, false)
    case ActionClass =>
      if value == EqualKey(e) then EvaluateEntry(e, xs)
      else Outcome(DeleteEntry(xs), true, false)
  }

  /**
   * `handleKeyPress`: an unknown key is ignored; any other clears an error
   * and is dispatched by its class.
   */
  function Press(e: Engine, xs: seq<Sym>, raw: string): (o: Outcome)
    ensures o.handled <==>
      (if e == Current then ClassifyKey(NormalizeKey(raw)) else LegacyClassifyKey(LegacyNormalizeKey(raw))).Some?
    ensures !o.handled ==> o.buffer == xs && !o.threw
  {
    var key := if e == Current then NormalizeKey(raw) else LegacyNormalizeKey(raw);
    match (if e == Current then ClassifyKey(key) else LegacyClassifyKey(key))
    case None => Outcome(xs, false, false)
    case Some(c) => Dispatch(e, ErrorCleared(xs), c, key)
  }

  /** A press depends on the raw key only through the value the engine normalises it to. */
  lemma PressByNormalForm(e: Engine, xs: seq<Sym>, a: string, b: string)
    requires e == Current ==> NormalizeKey(a) == NormalizeKey(b)
    requires e == Legacy ==> LegacyNormalizeKey(a) == LegacyNormalizeKey(b)
    ensures Press(e, xs, a) == Press(e, xs, b)
  {
  }

  /**
   * The current engine dispatches `,` as `.`, `*` as `x`, Enter as equal and
   * Backspace as delete; the earlier one renames only `*`.
   */
  lemma RenamedKeysActAlike(xs: seq<Sym>)
    ensures Press(Current, xs, ",") == Press(Current, xs, ".")
    ensures Press(Current, xs, "*") == Press(Current, xs, "x")
    ensures Press(Current, xs, "Enter") == Press(Current, xs, "equal")
    ensures Press(Current, xs, "Backspace") == Press(Current, xs, "delete")
    ensures Press(Legacy, xs, "*") == Press(Legacy, xs, "x")
  {
    NormalizedRenamings();
    PressByNormalForm(Current, xs, ",", ".");
    PressByNormalForm(Current, xs, "*", "x");
    PressByNormalForm(Current, xs, "Enter", "equal");
    PressByNormalForm(Current, xs, "Backspace", "delete");
    PressByNormalForm(Legacy, xs, "*", "x");
  }

  /**
   * A handled key runs the handler of its class on the error-cleared
   * expression: digits and `.` store a digit, operators an operator, the
   * equal key evaluates and the delete key deletes.
   */
  lemma PressDispatches(e: Engine, xs: seq<Sym>, raw: string)
    ensures var k := PressedValue(e, raw);
      && (k in NumberKeys ==> Press(e, xs, raw) == Outcome(DigitEntry(ErrorCleared(xs), k), true, false))
      && (k in OperatorKeys ==> Press(e, xs, raw) == Outcome(OperatorEntry(e, ErrorCleared(xs), k), true, false))
      && (k == EqualKey(e) ==> Press(e, xs, raw) == EvaluateEntry(e, ErrorCleared(xs)))
      && (k == DeleteKey(e) ==> Press(e, xs, raw) == Outcome(DeleteEntry(ErrorCleared(xs)), true, false))
  {
    var k := PressedValue(e, raw);
    if e == Current {
      ClassifyKeyExactly(k);
    } else {
      LegacyClassifyKeyExactly(k);
    }
  }

  /** A key the engine reads as its equal key evaluates the (error-cleared) expression. */
  lemma PressEqual(e: Engine, xs: seq<Sym>, raw: string)
    requires PressedValue(e, raw) == EqualKey(e)
    ensures Press(e, xs, raw) == EvaluateEntry(e, ErrorCleared(xs))
  {
    PressDispatches(e, xs, raw);
  }

  /** Both engines ignore the case of a pressed key. */
  lemma KeyCaseIgnored(e: Engine, xs: seq<Sym>, raw: string)
    ensures Press(e, xs, raw) == Press(e, xs, Lower(raw))
  {
    NormalizeIgnoresCase(raw);
    PressByNormalForm(e, xs, raw, Lower(raw));
  }

  /** The `data-type` of a button. */
  function ClassOfTag(tag: string): (r: Option<KeyClass>)
    ensures r.Some? <==> tag in {"number", "operator", "action"}
  {
    if tag == "number" then Some(NumberClass)
    else if tag == "operator" then Some(OperatorClass)
    else if tag == "action" then Some(ActionClass)
    else None
  }

  /**
   * `handleKeyClick`: an error is cleared first, whatever was clicked; an
   * unknown type, or an action other than equal, delete and reset, then
   * throws a TypeError. Types and actions naming members inherited from
   * `Object` (`toString`, `constructor`, ...) are treated as unknown.
   */
  function Click(e: Engine, xs: seq<Sym>, tag: string, value: string): (o: Outcome)
    ensures o.handled
    ensures o.threw && value != "equal" ==> o.buffer == ErrorCleared(xs)
    ensures tag !in {"number", "operator", "action"} ==> o.threw && o.buffer == ErrorCleared(xs)
    ensures tag == "number" ==> o == Outcome(DigitEntry(ErrorCleared(xs), value), true, false)
    ensures tag == "operator" ==> o == Outcome(OperatorEntry(e, ErrorCleared(xs), value), true, false)
    ensures tag == "action" && value == "equal" ==> o == EvaluateEntry(e, ErrorCleared(xs))
    ensures tag == "action" && value == "delete" ==> o == Outcome(DeleteEntry(ErrorCleared(xs)), true, false)
    ensures tag == "action" && value == "reset" ==> o == Outcome([], true, false)
    ensures tag == "action" && value !in {"equal", "delete", "reset"} ==> o.threw && o.buffer == ErrorCleared(xs)
  {
    var ys := ErrorCleared(xs);
    match ClassOfTag(tag)
    case None => Outcome(ys, true, true)
    case Some(NumberClass) => Outcome(DigitEntry(ys, value), true, false)
    case Some(OperatorClass) => Outcome(OperatorEntry(e, ys, value), true, false)
    case Some(ActionClass) =>
      if value == "equal" then EvaluateEntry(e, ys)
      else if value == "delete" then Outcome(DeleteEntry(ys), true, false)
      else if value == "reset" then Outcome([], true, false)
      else Outcome(ys, true, true)
  }

  /** Keys pressed one after another: the final expression, and whether any of them threw. */
  function Typing(e: Engine, xs: seq<Sym>, keys: seq<string>): (seq<Sym>, bool)
    decreases |keys|
  {
    if keys == [] then (xs, false)
    else
      var o := Press(e, xs, keys[0]);
      var r := Typing(e, o.buffer, keys[1..]);
      (r.0, o.threw || r.1)
  }

  // ---------------------------------------------------------------- what the current engine keeps

  /** The expressions keyboard entry reaches: alternating, or one error symbol. */
  predicate Reachable(xs: seq<Sym>) {
    Alternating(xs) || (|xs| == 1 && xs[0].kind == Error)
  }

  lemma AlternatingHasNoError(xs: seq<Sym>)
    requires Alternating(xs)
    ensures !SomeIsError(xs)
  {
    forall i | 0 <= i < |xs|
      ensures xs[i].kind != Error
    {
    }
  }

  /** A shorter, non-empty prefix of number text is number text. */
  lemma NumberTextPrefix(v: string, k: nat)
    requires NumberText(v) && 1 <= k <= |v|
    ensures NumberText(v[..k])
  {
    var w := v[..k];
    assert forall i :: 0 <= i < k ==> w[i] == v[i];
    assert 'x' !in w && '/' !in w by {
      forall i | 0 <= i < k
        ensures w[i] != 'x' && w[i] != '/'
      {
        assert v[i] in v;
      }
    }
  }

  /** A digit or point that `storageDigit` accepts keeps number text number text. */
  lemma NumberTextExtend(v: string, d: string)
    requires NumberText(v) && d in NumberKeys
    requires !(d == "." && '.' in v) && !(d == "0" && v == "0")
    ensures NumberText(v + d)
  {
    var w := v + d;
    assert |d| == 1 && (IsDigit(d[0]) || d[0] == '.');
    assert w[|v|] == d[0];
    assert forall i :: 0 <= i < |v| ==> w[i] == v[i];
    assert AtMostOneDot(w) by {
      if d == "." {
        assert '.' !in v;
      }
    }
    forall i | 0 <= i < |w|
      ensures w[i] != 'x' && w[i] != '/'
    {
      if i < |v| {
        assert w[i] in v;
      }
    }
  }

  /** An alternating expression ending in a number keeps its shape when that number's text changes. */
  lemma LastNumberReplaced(xs: seq<Sym>, w: string)
    requires Alternating(xs) && xs != [] && Last(xs).kind == Number && NumberText(w)
    ensures Alternating(Init(xs) + [Sym(w, Number)])
  {
    var ys := Init(xs) + [Sym(w, Number)];
    assert |xs| % 2 == 1;
    assert forall i :: 0 <= i < |xs| - 1 ==> ys[i] == xs[i];
  }

  /** A prefix of an alternating expression is alternating. */
  lemma AlternatingPrefix(xs: seq<Sym>, k: nat)
    requires Alternating(xs) && k <= |xs|
    ensures Alternating(xs[..k])
  {
    assert forall i :: 0 <= i < k ==> xs[..k][i] == xs[i];
  }

  /** A digit key keeps the expression alternating, its numbers free of a second point and of a leading "00". */
  lemma DigitKeepsShape(xs: seq<Sym>, d: string)
    requires Alternating(xs) && d in NumberKeys
    ensures Alternating(DigitEntry(xs, d))
  {
    var ys := DigitEntry(xs, d);
    assert |d| == 1 && d != "" && 'x' !in d && '/' !in d;
    if xs == [] || Last(xs).kind == Operator {
      assert NumberText(d);
      assert |xs| % 2 == 0;
      var zs := xs + [Sym(d, Number)];
      assert forall i :: 0 <= i < |xs| ==> zs[i] == xs[i];
    } else if ys != xs {
      var v := Last(xs).value;
      assert NumberText(v);
      NumberTextExtend(v, d);
      LastNumberReplaced(xs, v + d);
    }
  }

  /** An operator key keeps the expression alternating. */
  lemma OperatorKeepsShape(xs: seq<Sym>, op: string)
    requires Alternating(xs) && op in OperatorKeys
    ensures Alternating(OperatorEntry(Current, xs, op))
  {
  }

  /** Delete keeps the expression alternating: a shorter number is still number text. */
  lemma DeleteKeepsShape(xs: seq<Sym>)
    requires Alternating(xs)
    ensures Alternating(DeleteEntry(xs))
  {
    AlternatingHasNoError(xs);
    if xs != [] {
      AlternatingPrefix(xs, |xs| - 1);
      if Last(xs).kind == Number {
        var v := Last(xs).value;
        var w := DropLast(v);
        assert NumberText(v);
        if w != "" {
          assert w == v[..|v| - 1];
          NumberTextPrefix(v, |v| - 1);
          LastNumberReplaced(xs, w);
        }
      }
    }
  }

  /** A result symbol alone is reachable: an error, or a number whose text is number text. */
  lemma ResultReachable(t: Num)
    ensures Reachable([ResultSymbol(Js, t)])
  {
    ShowIsNumber(t);
  }

  /** Equal on an alternating expression never throws, and leaves one number or one error. */
  lemma EvaluateKeepsShape(xs: seq<Sym>)
    requires Alternating(xs)
    ensures !EvaluateEntry(Current, xs).threw
    ensures Reachable(EvaluateEntry(Current, xs).buffer)
  {
    if xs != [] {
      JsWritesNumberText();
      AlternatingEvaluates(Js, xs, true);
      var ys := PassOne(Js, xs, true);
      var sum := SumFold(Js, ys, |ys|);
      assert sum.Total?;
      ResultReachable(sum.n);
      assert EvaluateEntry(Current, xs) == Outcome([ResultSymbol(Js, sum.n)], true, false);
    }
  }

  /** Every key press keeps the expression reachable, and none throws. */
  lemma PressKeepsShape(xs: seq<Sym>, raw: string)
    requires Reachable(xs)
    ensures !Press(Current, xs, raw).threw
    ensures Reachable(Press(Current, xs, raw).buffer)
  {
    var key := NormalizeKey(raw);
    var ys := ErrorCleared(xs);
    if Alternating(xs) {
      AlternatingHasNoError(xs);
    } else {
      assert SomeIsError(xs);
    }
    assert Alternating(ys);
    ClassifyKeyExactly(key);
    match ClassifyKey(key)
    case None =>
    case Some(NumberClass) => DigitKeepsShape(ys, key);
    case Some(OperatorClass) => OperatorKeepsShape(ys, key);
    case Some(ActionClass) =>
      if key == "equal" {
        EvaluateKeepsShape(ys);
      } else {
        DeleteKeepsShape(ys);
      }
  }

  /** Whatever keys are typed, starting from a reachable expression, no TypeError escapes. */
  lemma {:induction false} TypingNeverThrows(xs: seq<Sym>, keys: seq<string>)
    requires Reachable(xs)
    ensures !Typing(Current, xs, keys).1
    ensures Reachable(Typing(Current, xs, keys).0)
    decreases |keys|
  {
    if keys != [] {
      PressKeepsShape(xs, keys[0]);
      TypingNeverThrows(Press(Current, xs, keys[0]).buffer, keys[1..]);
    }
  }

  /** The buttons the page defines: a type and one of that type's values. */
  predicate PageButton(tag: string, value: string) {
    || (tag == "number" && value in NumberKeys)
    || (tag == "operator" && value in OperatorKeys)
    || (tag == "action" && value in {"equal", "delete", "reset"})
  }

  /** Every click on one of the page's buttons keeps the expression reachable, and none throws. */
  lemma ClickKeepsShape(xs: seq<Sym>, tag: string, value: string)
    requires Reachable(xs) && PageButton(tag, value)
    ensures !Click(Current, xs, tag, value).threw
    ensures Reachable(Click(Current, xs, tag, value).buffer)
  {
    var ys := ErrorCleared(xs);
    if Alternating(xs) {
      AlternatingHasNoError(xs);
    } else {
      assert SomeIsError(xs);
    }
    if tag == "number" {
      DigitKeepsShape(ys, value);
    } else if tag == "operator" {
      OperatorKeepsShape(ys, value);
    } else if value == "equal" {
      EvaluateKeepsShape(ys);
    } else if value == "delete" {
      DeleteKeepsShape(ys);
    }
  }

  // ---------------------------------------------------------------- the entry rules

  /** A handled key on an expression holding an error acts on the empty expression. */
  lemma PressClearsErrorFirst(e: Engine, xs: seq<Sym>, raw: string)
    requires SomeIsError(xs)
    ensures var o := Press(e, xs, raw);
      o.handled ==> o == Press(e, [], raw)
  {
  }

  /** Any click on an expression holding an error acts on the empty expression. */
  lemma ClickClearsErrorFirst(e: Engine, xs: seq<Sym>, tag: string, value: string)
    requires SomeIsError(xs)
    ensures Click(e, xs, tag, value) == Click(e, [], tag, value)
  {
  }

  /** A digit that starts a new number is taken off again by delete. */
  lemma DeleteUndoesNewNumber(xs: seq<Sym>, d: string)
    requires !SomeIsError(DigitEntry(xs, d)) && d in NumberKeys
    requires DigitEntry(xs, d) == xs + [Sym(d, Number)]
    ensures DeleteEntry(DigitEntry(xs, d)) == xs
  {
    var ys := xs + [Sym(d, Number)];
    assert DropLast(d) == "";
    assert Init(ys) == xs;
  }

  /** A digit appended to the last number is taken off again by delete. */
  lemma DeleteUndoesAppendedDigit(xs: seq<Sym>, d: string)
    requires xs != [] && !SomeIsError(DigitEntry(xs, d)) && d in NumberKeys
    requires DigitEntry(xs, d) == Init(xs) + [Sym(Last(xs).value + d, Number)]
    requires Last(xs).kind == Number && Last(xs).value != ""
    ensures DeleteEntry(DigitEntry(xs, d)) == xs
  {
    var v := Last(xs).value;
    var ys := Init(xs) + [Sym(v + d, Number)];
    AppendThenDropLast(v, d[0]);
    assert v + d == v + [d[0]];
    assert Last(ys) == Sym(v + d, Number);
    assert Init(ys) == Init(xs);
    assert DeleteEntry(ys) == Init(xs) + [Sym(v, Number)];
    assert Init(xs) + [Sym(v, Number)] == xs;
  }

  /** Delete undoes an accepted digit. */
  lemma DeleteUndoesDigit(xs: seq<Sym>, d: string)
    requires Alternating(xs) && d in NumberKeys && DigitEntry(xs, d) != xs
    ensures DeleteEntry(DigitEntry(xs, d)) == xs
  {
    var ys := DigitEntry(xs, d);
    DigitKeepsShape(xs, d);
    AlternatingHasNoError(ys);
    if xs == [] || Last(xs).kind == Operator {
      DeleteUndoesNewNumber(xs, d);
    } else {
      assert NumberText(xs[|xs| - 1].value);
      DeleteUndoesAppendedDigit(xs, d);
    }
  }

  /** Delete undoes an operator key that added a symbol: a new operator, or a `-` starting a number. */
  lemma DeleteUndoesOperatorPush(xs: seq<Sym>, op: string)
    requires Alternating(xs) && op in OperatorKeys
    requires |OperatorEntry(Current, xs, op)| == |xs| + 1
    ensures DeleteEntry(OperatorEntry(Current, xs, op)) == xs
  {
    var ys := OperatorEntry(Current, xs, op);
    OperatorKeepsShape(xs, op);
    AlternatingHasNoError(ys);
    assert Init(ys) == xs;
    assert DropLast("-") == "";
  }

  /** Of two operators typed after a number, the second wins, unless it is `-`. */
  lemma LastOperatorWins(xs: seq<Sym>, a: string, b: string)
    requires xs != [] && Last(xs).kind == Number && Last(xs).value != "-" && b != "-"
    ensures OperatorEntry(Current, OperatorEntry(Current, xs, a), b) == OperatorEntry(Current, xs, b)
    ensures OperatorEntry(Current, OperatorEntry(Current, xs, a), b) == xs + [Sym(b, Operator)]
  {
    var ys := OperatorEntry(Current, xs, a);
    assert ys == xs + [Sym(a, Operator)];
    assert Init(ys) == xs;
  }

  /** A bare `-` accepts no operator until a digit follows it. */
  lemma BareMinusBlocksOperators(e: Engine, xs: seq<Sym>, op: string)
    requires xs != [] && Last(xs) == Sym("-", Number)
    ensures OperatorEntry(e, xs, op) == xs
  {
  }

  /**
   * A `-` typed where a number is due starts a negative number: the digit
   * after it joins it.
   */
  lemma MinusStartsNegativeNumber(xs: seq<Sym>, d: string)
    requires Alternating(xs) && |xs| % 2 == 0
    ensures DigitEntry(OperatorEntry(Current, xs, "-"), d) == xs + [Sym("-" + d, Number)]
  {
    var ys := OperatorEntry(Current, xs, "-");
    assert ys == xs + [Sym("-", Number)];
    assert Init(ys) == xs;
  }

  /**
   * On an expression built from keys, a digit is refused exactly when the
   * expression ends in a number and the digit is a second `.` or a `0`
   * after a lone `0`.
   */
  lemma DigitRefusedExactly(xs: seq<Sym>, d: string)
    requires Alternating(xs) && d in NumberKeys
    ensures DigitEntry(xs, d) == xs <==>
      |xs| % 2 == 1 && ((d == "." && '.' in Last(xs).value) || (d == "0" && Last(xs).value == "0"))
  {
    if xs != [] && |xs| % 2 == 0 {
      assert Last(xs).kind == Operator;
    }
    if |xs| % 2 == 1 {
      assert Last(xs).kind == Number;
      var v := Last(xs).value;
      if !((d == "." && '.' in v) || (d == "0" && v == "0")) {
        var ys := DigitEntry(xs, d);
        assert Last(ys).value == v + d;
        assert |v + d| > |v|;
      }
    }
  }

  /** On an empty expression, or after an operator, a digit or point starts a new number. */
  lemma DigitStartsNumber(xs: seq<Sym>, d: string)
    requires xs == [] || Last(xs).kind == Operator
    ensures DigitEntry(xs, d) == xs + [Sym(d, Number)]
  {
  }

  /** A digit or point that is not refused is appended to the last number's text. */
  lemma DigitExtendsNumber(xs: seq<Sym>, d: string)
    requires xs != [] && Last(xs).kind == Number
    requires !((d == "." && '.' in Last(xs).value) || (d == "0" && Last(xs).value == "0"))
    ensures DigitEntry(xs, d) == Init(xs) + [Sym(Last(xs).value + d, Number)]
  {
  }

  /** One more symbol adds its value at the end of the displayed text. */
  lemma TextAppend(xs: seq<Sym>, s: Sym)
    ensures Text(xs + [s]) == Text(xs) + s.value
  {
    assert Init(xs + [s]) == xs;
  }

  /** A digit that is not refused appears at the end of the displayed text. */
  lemma DigitAppendsToText(xs: seq<Sym>, d: string)
    ensures DigitEntry(xs, d) != xs ==> Text(DigitEntry(xs, d)) == Text(xs) + d
  {
    if xs == [] || Last(xs).kind == Operator {
      TextAppend(xs, Sym(d, Number));
    } else if DigitEntry(xs, d) != xs {
      var last := Last(xs);
      TextAppend(Init(xs), Sym(last.value + d, last.kind));
      TextAppend(Init(xs), last);
      assert Init(xs) + [last] == xs;
    }
  }

  /** After a number other than a bare `-`, an operator is appended, in both engines. */
  lemma OperatorAfterNumber(e: Engine, xs: seq<Sym>, op: string)
    requires xs != [] && Last(xs).kind != Operator && Last(xs) != Sym("-", Number)
    ensures OperatorEntry(e, xs, op) == xs + [Sym(op, Operator)]
    ensures Text(OperatorEntry(e, xs, op)) == Text(xs) + op
  {
    TextAppend(xs, Sym(op, Operator));
  }

  /**
   * After an operator, `-` starts a negative number and any other operator
   * takes the last one's place, in both engines.
   */
  lemma OperatorAfterOperator(e: Engine, xs: seq<Sym>, op: string)
    requires xs != [] && Last(xs).kind == Operator
    ensures op == "-" ==> OperatorEntry(e, xs, op) == xs + [Sym("-", Number)]
    ensures op != "-" ==> OperatorEntry(e, xs, op) == Init(xs) + [Sym(op, Operator)]
    ensures op != "-" ==> Text(OperatorEntry(e, xs, op)) == Text(Init(xs)) + op
  {
    TextAppend(Init(xs), Sym(op, Operator));
  }

  /**
   * On an empty expression the current engine takes only `-`, as the start
   * of a negative number; the earlier one stores any operator as a number.
   */
  lemma OperatorOnEmpty(op: string)
    ensures OperatorEntry(Current, [], op) == (if op == "-" then [Sym("-", Number)] else [])
    ensures OperatorEntry(Legacy, [], op) == [Sym(op, Number)]
  {
  }
}
