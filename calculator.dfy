/**
 * The current engine (src/scripts/calculator.js): one `Expression` object,
 * changed in place by the key handlers. Each handler is proved to leave
 * the expression's value as the functions of module Entry say.
 */
module Calculator {
  import opened Wrappers
  import opened Numbers
  import opened Symbols
  import opened Expressions
  import opened Keys
  import opened Evaluator
  import opened Entry

  class Calculator {
    const expression: Expression

    ghost predicate Valid()
      reads this, expression
    {
      expression.Valid()
    }

    /** The value of the expression. */
    function Buffer(): seq<Sym>
      reads this, expression, expression.items
    {
      expression.Contents()
    }

    constructor ()
      ensures Valid() && fresh(expression) && Buffer() == []
    {
      expression := new Expression();
    }

    /** `storageDigit` */
    method StorageDigit(digit: string)
      requires Valid()
      modifies expression, expression.items
      ensures Valid()
      ensures Buffer() == DigitEntry(old(Buffer()), digit)
    {
      if expression.IsEmpty() {
        var _ := expression.AddSymbol(digit, Number);
        return;
      }
      var last := expression.LastSymbol().value;
      if last.kind == Operator {
        var _ := expression.AddSymbol(digit, Number);
        return;
      }
      var hasDecimalPoint := '.' in last.value;
      var hasZeroBeforeIntegerOrDecimalPlace := last.value == "0";
      if (digit == "." && hasDecimalPoint) || (digit == "0" && hasZeroBeforeIntegerOrDecimalPlace) {
        return;
      }
      ghost var before := Buffer();
      assert Last(before) == last.Snapshot();
      assert DigitEntry(before, digit) == Init(before) + [Sym(last.value + digit, last.kind)];
      var _ := last.Append(digit);
      LastChanged(before);
    }

    /** Changing the last symbol object alone changes only the last entry of the value. */
    lemma LastChanged(before: seq<Sym>)
      requires Valid() && expression.items != [] && |before| == |expression.items|
      requires forall i :: 0 <= i < |before| - 1 ==>
        before[i] == Sym(expression.items[i].value, expression.items[i].kind)
      ensures Buffer() == before[..|before| - 1] + [expression.items[|before| - 1].Snapshot()]
    {
    }

    /** `storageOperator` */
    method StorageOperator(op: string)
      requires Valid()
      modifies expression, expression.items
      ensures Valid()
      ensures Buffer() == OperatorEntry(Current, old(Buffer()), op)
    {
      if expression.IsEmpty() {
        if op == "-" {
          var _ := expression.AddSymbol(op, Number);
        }
        return;
      }
      var last := expression.LastSymbol().value;
      if last.kind == Number && last.value == "-" {
        return;
      }
      if last.kind == Operator {
        if op == "-" {
          var _ := expression.AddSymbol(op, Number);
          return;
        }
        ghost var before := Buffer();
        last.value := op;
        LastChanged(before);
        return;
      }
      var _ := expression.AddSymbol(op, Operator);
    }

    /** `deleteLastDigit` */
    method DeleteLastDigit()
      requires Valid()
      modifies expression, expression.items
      ensures Valid()
      ensures Buffer() == DeleteEntry(old(Buffer()))
    {
      if expression.IsEmpty() {
        return;
      }
      if expression.HasError() {
        expression.Clear();
        return;
      }
      var last := expression.LastSymbol().value;
      if last.kind == Operator {
        var _ := expression.RemoveLastSymbol();
        return;
      }
      ghost var before := Buffer();
      var _ := last.Pop();
      LastChanged(before);
      if last.IsEmpty() {
        var _ := expression.RemoveLastSymbol();
      }
    }

    /**
     * `calculateExpression`: both passes on the value of the expression; the
     * expression then holds only the result. When pass 2 throws, `threw` is
     * set and the expression is left as it was.
     */
    method CalculateExpression() returns (threw: bool)
      requires Valid()
      modifies expression
      ensures Valid()
      ensures Buffer() == EvaluateEntry(Current, old(Buffer())).buffer
      ensures threw == EvaluateEntry(Current, old(Buffer())).threw
    {
      threw := false;
      if expression.IsEmpty() {
        return;
      }
      var calculated := expression.Contents();
      var indexes := IndexesOfMultAndDivision(calculated);
      if |indexes| > 0 {
        var results := CalculateMultAndDivision(Js, calculated, indexes, true);
        calculated := ReplaceCalculatedOperationsByResult(calculated, results);
      }
      match SumFold(Js, calculated, |calculated|)
      case NotAFunction =>
        threw := true;
      case Total(t) =>
        var r := ResultSymbol(Js, t);
        var s := new MathSymbol(r.value, r.kind);
        expression.items := [s];
    }

    /** `handleKeyPress`, apart from rendering; `handled` says whether the key was taken. */
    method HandleKeyPress(raw: string) returns (handled: bool, threw: bool)
      requires Valid()
      modifies expression, expression.items
      ensures Valid()
      ensures var o := Press(Current, old(Buffer()), raw);
        Buffer() == o.buffer && handled == o.handled && threw == o.threw
    {
      var value := NormalizeKey(raw);
      var kind := ClassifyKey(value);
      handled, threw := false, false;
      if kind == None {
        return;
      }
      handled := true;
      if expression.HasError() {
        expression.Clear();
      }
      ClassifyKeyExactly(value);
      match kind.value
      case NumberClass =>
        StorageDigit(value);
      case OperatorClass =>
        StorageOperator(value);
      case ActionClass =>
        if value == "equal" {
          threw := CalculateExpression();
        } else {
          DeleteLastDigit();
        }
    }

    /** `handleKeyClick`, apart from rendering. */
    method HandleKeyClick(tag: string, value: string) returns (threw: bool)
      requires Valid()
      modifies expression, expression.items
      ensures Valid()
      ensures var o := Click(Current, old(Buffer()), tag, value);
        Buffer() == o.buffer && threw == o.threw
    {
      threw := false;
      if expression.HasError() {
        expression.Clear();
      }
      match ClassOfTag(tag)
      case None =>
        threw := true;
      case Some(NumberClass) =>
        StorageDigit(value);
      case Some(OperatorClass) =>
        StorageOperator(value);
      case Some(ActionClass) =>
        if value == "equal" {
          threw := CalculateExpression();
        } else if value == "delete" {
          DeleteLastDigit();
        } else if value == "reset" {
          expression.Clear();
        } else {
          threw := true;
        }
    }
  }
}
