/**
 * The earlier engine (src/js/calculator.js): the expression is a
 * module-level list of plain `{ value, type }` records, which the handlers
 * push to, pop from, change in place and reassign. No record is shared with
 * anything outside the list, so the list is modelled by the records' values.
 */
module Legacy {
  import opened Wrappers
  import opened Numbers
  import opened Symbols
  import opened Keys
  import opened Evaluator
  import opened Entry

  /** `createValueForExpression`: the record for a value already written as text. */
  function CreateValueForExpression(value: string, kind: Kind): (s: Sym)
    ensures s.value == value && s.kind == kind
  {
    Sym(value, kind)
  }

  /**
   * Pass 1 as the earlier engine runs it: its guard tests the list of
   * indexes itself, which is always truthy, so the splice always runs.
   */
  function LegacyPassOne(xs: seq<Sym>): seq<Sym> {
    Spliced(xs, MultDivResults(Js, xs, MultDivIndexes(xs), false), |xs|)
  }

  /** Always running the splice changes nothing: with no `x` or `/` it copies the list. */
  lemma LegacyPassOneIsPassOne(xs: seq<Sym>)
    ensures LegacyPassOne(xs) == PassOne(Js, xs, false)
  {
    if |MultDivIndexes(xs)| == 0 {
      SplicedWithoutResults(xs, |xs|);
      assert xs[..|xs|] == xs;
    }
  }

  class LegacyCalculator {
    var expression: seq<Sym>

    constructor ()
      ensures expression == []
    {
      expression := [];
    }

    function CheckIfExpressionHasError(): (b: bool)
      reads this
      ensures b <==> exists i :: 0 <= i < |expression| && expression[i].kind == Error
    {
      SomeIsError(expression)
    }

    method ClearAllExpression()
      modifies this
      ensures expression == []
    {
      expression := [];
    }

    /** `storageDigit` */
    method StorageDigit(digit: string)
      modifies this
      ensures expression == DigitEntry(old(expression), digit)
    {
      if |expression| == 0 {
        expression := expression + [CreateValueForExpression(digit, Number)];
        return;
      }
      var lastIndex := |expression| - 1;
      if expression[lastIndex].kind == Operator {
        expression := expression + [CreateValueForExpression(digit, Number)];
        return;
      }
      var valueOfTheLastIndex := expression[lastIndex].value;
      var numberAlreadyHasDecimalPoint := '.' in valueOfTheLastIndex;
      var hasOneZeroBeforeIntegerOrDecimalPlace := valueOfTheLastIndex == "0";
      if (digit == "." && numberAlreadyHasDecimalPoint) || (digit == "0" && hasOneZeroBeforeIntegerOrDecimalPlace) {
        return;
      }
      expression := expression[lastIndex := expression[lastIndex].(value := valueOfTheLastIndex + digit)];
    }

    /** `storageOperator` */
    method StorageOperator(op: string)
      modifies this
      ensures expression == OperatorEntry(Legacy, old(expression), op)
    {
      if |expression| == 0 {
        expression := expression + [CreateValueForExpression(op, Number)];
        return;
      }
      var lastIndex := |expression| - 1;
      if expression[lastIndex].kind == Number && expression[lastIndex].value == "-" {
        return;
      }
      if expression[lastIndex].kind == Operator {
        if op == "-" {
          expression := expression + [CreateValueForExpression(op, Number)];
          return;
        }
        expression := expression[lastIndex := expression[lastIndex].(value := op)];
        return;
      }
      expression := expression + [CreateValueForExpression(op, Operator)];
    }

    /** `deleteLastDigit` */
    method DeleteLastDigit()
      modifies this
      ensures expression == DeleteEntry(old(expression))
    {
      if |expression| == 0 {
        return;
      }
      var lastIndex := |expression| - 1;
      if CheckIfExpressionHasError() {
        ClearAllExpression();
        return;
      }
      if expression[lastIndex].kind == Operator {
        expression := expression[..lastIndex];
        return;
      }
      expression := expression[lastIndex := expression[lastIndex].(value := DropLast(expression[lastIndex].value))];
      if |expression[lastIndex].value| == 0 {
        expression := expression[..lastIndex];
      }
    }

    /**
     * `calculateExpression`: pass 1 is stored in the expression before pass 2
     * runs, so when pass 2 throws the expression keeps pass 1's list.
     */
    method CalculateExpression() returns (threw: bool)
      modifies this
      ensures expression == EvaluateEntry(Legacy, old(expression)).buffer
      ensures threw == EvaluateEntry(Legacy, old(expression)).threw
    {
      threw := false;
      if |expression| == 0 {
        return;
      }
      ghost var xs := expression;
      var indexes := IndexesOfMultAndDivision(expression);
      var results := CalculateMultAndDivision(Js, expression, indexes, false);
      expression := ReplaceCalculatedOperationsByResult(expression, results);
      LegacyPassOneIsPassOne(xs);
      match SumFold(Js, expression, |expression|)
      case NotAFunction =>
        threw := true;
      case Total(t) =>
        var r := ResultSymbol(Js, t);
        expression := [CreateValueForExpression(r.value, r.kind)];
    }

    /** `handleKeyPress`, apart from rendering and scrolling. */
    method HandleKeyPress(raw: string) returns (handled: bool, threw: bool)
      modifies this
      ensures var o := Press(Legacy, old(expression), raw);
        expression == o.buffer && handled == o.handled && threw == o.threw
    {
      var value := LegacyNormalizeKey(raw);
      var kind := LegacyClassifyKey(value);
      handled, threw := false, false;
      if kind == None {
        return;
      }
      handled := true;
      if CheckIfExpressionHasError() {
        ClearAllExpression();
      }
      LegacyClassifyKeyExactly(value);
      match kind.value
      case NumberClass =>
        StorageDigit(value);
      case OperatorClass =>
        StorageOperator(value);
      case ActionClass =>
        if value == "enter" {
          threw := CalculateExpression();
        } else {
          DeleteLastDigit();
        }
    }

    /** `handleKeyClick`, apart from rendering and scrolling. */
    method HandleKeyClick(tag: string, value: string) returns (threw: bool)
      modifies this
      ensures var o := Click(Legacy, old(expression), tag, value);
        expression == o.buffer && threw == o.threw
    {
      threw := false;
      if CheckIfExpressionHasError() {
        ClearAllExpression();
      }
      match ClassOfTag(tag)
      case None =>
        threw := true;
      case Some(NumberClass) =>
        StorageDigit(value);
      case Some(OperatorClass) =>
        StorageOperator(value);
      case Some(ActionClass) =>
        if value == "equal" {
          threw := CalculateExpression();
        } else if value == "delete" {
          DeleteLastDigit();
        } else if value == "reset" {
          ClearAllExpression();
        } else {
          threw := true;
        }
    }
  }
}
