/**
 * Worked evaluations: what the two engines make of a few concrete
 * expressions. The shape of each evaluation is proved for any host
 * conversions; the arithmetic is then done with `Number` and `String`.
 */
module Scenarios {
  import opened Wrappers
  import opened Numbers
  import opened Symbols
  import opened Keys
  import opened Evaluator
  import opened Entry

  function N(v: string): Sym { Sym(v, Number) }
  function O(v: string): Sym { Sym(v, Operator) }

  /** A whole number read and written back in decimal. */
  lemma Whole(n: nat, t: string)
    requires NatToDigits(n) == t
    ensures Show(Fin(n as real)) == t && Parse(t) == Fin(n as real)
  {
    assert ShowNonNegative(n as real) == NatToDigits(n);
    ParseShowInteger(n);
  }

  // ---------------------------------------------------------------- shapes

  /** What a position contributes to the splice when there is one result. */
  lemma EmittedWithOne(xs: seq<Sym>, r: Partial, e: int)
    requires 0 <= e < |xs|
    ensures Emitted(xs, [r], e) ==
      (if r.at - 1 == e then [N(r.result)] else []) + (if r.at - 1 <= e <= r.at + 1 then [] else [xs[e]])
  {
    var ins := if r.at - 1 == e then [N(r.result)] else [];
    assert InsertedAt([r], e, 0) == [];
    assert InsertedAt([r], e, 1) == ins;
    assert ConsumedBy([r], e, 1) <==> r.at - 1 <= e <= r.at + 1;
  }

  /** The same with two results, the second starting where the first ends. */
  lemma EmittedWithChain(xs: seq<Sym>, r: Partial, q: Partial, e: int)
    requires 0 <= e < |xs| && q.at == r.at + 2
    ensures Emitted(xs, [r, q], e) ==
      (if q.at - 1 == e then [N(q.result)] else []) + (if r.at - 1 <= e <= q.at + 1 then [] else [xs[e]])
  {
    var rs := [r, q];
    var ins := if q.at - 1 == e then [N(q.result)] else [];
    assert !ClosesChain(rs, 0) && ClosesChain(rs, 1);
    assert InsertedAt(rs, e, 0) == [];
    assert InsertedAt(rs, e, 1) == [];
    assert InsertedAt(rs, e, 2) == ins;
    assert ConsumedBy(rs, e, 1) <==> r.at - 1 <= e <= r.at + 1;
    assert ConsumedBy(rs, e, 2) <==> r.at - 1 <= e <= q.at + 1;
  }

  /** `a op b` with one `x` or `/`: pass 1 leaves the one result. */
  lemma OneOperation(h: Host, a: string, op: string, b: string, m: bool)
    requires !IsMultDiv(N(a)) && !IsMultDiv(N(b)) && IsMultDiv(O(op))
    ensures var xs := [N(a), O(op), N(b)];
      PassOne(h, xs, m) == [N(ResultText(h, xs, 1, h.number(a), m))]
  {
    var xs := [N(a), O(op), N(b)];
    assert xs[..2][..1] == xs[..1];
    assert xs[..1][..0] == [];
    assert MultDivIndexes(xs[..1]) == [];
    assert MultDivIndexes(xs) == [1];
    MultDivResultAt(h, xs, [1], m, 0);
    var rs := [Partial(1, ResultText(h, xs, 1, h.number(a), m))];
    assert MultDivResults(h, xs, [1], m) == rs;
    EmittedWithOne(xs, rs[0], 0);
    EmittedWithOne(xs, rs[0], 1);
    EmittedWithOne(xs, rs[0], 2);
    assert Spliced(xs, rs, 1) == [N(rs[0].result)];
    assert Spliced(xs, rs, 2) == [N(rs[0].result)];
    assert Spliced(xs, rs, 3) == [N(rs[0].result)];
  }

  /** Pass 1 on `a + b op c` picks the operator at 3 and computes one result. */
  lemma SumThenOperationResults(h: Host, a: string, b: string, op: string, c: string, m: bool)
    requires !IsMultDiv(N(a)) && !IsMultDiv(N(b)) && !IsMultDiv(N(c)) && IsMultDiv(O(op))
    ensures var xs := [N(a), O("+"), N(b), O(op), N(c)];
      && MultDivIndexes(xs) == [3]
      && MultDivResults(h, xs, [3], m) == [Partial(3, ResultText(h, xs, 3, h.number(b), m))]
  {
    var xs := [N(a), O("+"), N(b), O(op), N(c)];
    assert xs[..4][..3] == xs[..3];
    assert xs[..3][..2] == xs[..2];
    assert xs[..2][..1] == xs[..1];
    assert xs[..1][..0] == [];
    assert MultDivIndexes(xs[..1]) == [];
    assert MultDivIndexes(xs[..2]) == [];
    assert MultDivIndexes(xs[..3]) == [];
    assert MultDivIndexes(xs) == [3];
    MultDivResultAt(h, xs, [3], m, 0);
  }

  /** `a + b op c` with one `x` or `/`: pass 1 replaces `b op c` by its result. */
  lemma SumThenOperation(h: Host, a: string, b: string, op: string, c: string, m: bool)
    requires !IsMultDiv(N(a)) && !IsMultDiv(N(b)) && !IsMultDiv(N(c)) && IsMultDiv(O(op))
    ensures var xs := [N(a), O("+"), N(b), O(op), N(c)];
      PassOne(h, xs, m) == [N(a), O("+"), N(ResultText(h, xs, 3, h.number(b), m))]
  {
    var xs := [N(a), O("+"), N(b), O(op), N(c)];
    SumThenOperationResults(h, a, b, op, c, m);
    var rs := [Partial(3, ResultText(h, xs, 3, h.number(b), m))];
    EmittedWithOne(xs, rs[0], 0);
    EmittedWithOne(xs, rs[0], 1);
    EmittedWithOne(xs, rs[0], 2);
    EmittedWithOne(xs, rs[0], 3);
    EmittedWithOne(xs, rs[0], 4);
    assert Spliced(xs, rs, 1) == [xs[0]];
    assert Spliced(xs, rs, 2) == [xs[0], xs[1]];
    assert Spliced(xs, rs, 3) == [xs[0], xs[1], N(rs[0].result)];
    assert Spliced(xs, rs, 4) == [xs[0], xs[1], N(rs[0].result)];
    assert Spliced(xs, rs, 5) == [xs[0], xs[1], N(rs[0].result)];
  }

  /** Pass 1 on `a op b + c` picks the operator at 1 and computes one result. */
  lemma OperationThenSumResults(h: Host, a: string, op: string, b: string, c: string, m: bool)
    requires !IsMultDiv(N(a)) && !IsMultDiv(N(b)) && !IsMultDiv(N(c)) && IsMultDiv(O(op))
    ensures var xs := [N(a), O(op), N(b), O("+"), N(c)];
      && MultDivIndexes(xs) == [1]
      && MultDivResults(h, xs, [1], m) == [Partial(1, ResultText(h, xs, 1, h.number(a), m))]
  {
    var xs := [N(a), O(op), N(b), O("+"), N(c)];
    assert xs[..4][..3] == xs[..3];
    assert xs[..3][..2] == xs[..2];
    assert xs[..2][..1] == xs[..1];
    assert xs[..1][..0] == [];
    assert MultDivIndexes(xs[..1]) == [];
    assert MultDivIndexes(xs[..2]) == [1];
    assert MultDivIndexes(xs[..3]) == [1];
    assert MultDivIndexes(xs[..4]) == [1];
    assert MultDivIndexes(xs) == [1];
    MultDivResultAt(h, xs, [1], m, 0);
  }

  /** `a op b + c` with one `x` or `/` first: pass 1 puts the result where the product started. */
  lemma OperationThenSum(h: Host, a: string, op: string, b: string, c: string, m: bool)
    requires !IsMultDiv(N(a)) && !IsMultDiv(N(b)) && !IsMultDiv(N(c)) && IsMultDiv(O(op))
    ensures var xs := [N(a), O(op), N(b), O("+"), N(c)];
      PassOne(h, xs, m) == [N(ResultText(h, xs, 1, h.number(a), m)), O("+"), N(c)]
  {
    var xs := [N(a), O(op), N(b), O("+"), N(c)];
    OperationThenSumResults(h, a, op, b, c, m);
    var rs := [Partial(1, ResultText(h, xs, 1, h.number(a), m))];
    EmittedWithOne(xs, rs[0], 0);
    EmittedWithOne(xs, rs[0], 1);
    EmittedWithOne(xs, rs[0], 2);
    EmittedWithOne(xs, rs[0], 3);
    EmittedWithOne(xs, rs[0], 4);
    assert Spliced(xs, rs, 1) == [N(rs[0].result)];
    assert Spliced(xs, rs, 2) == [N(rs[0].result)];
    assert Spliced(xs, rs, 3) == [N(rs[0].result)];
    assert Spliced(xs, rs, 4) == [N(rs[0].result), xs[3]];
    assert Spliced(xs, rs, 5) == [N(rs[0].result), xs[3], xs[4]];
  }

  /** Pass 1 on `a op1 b op2 c` picks the operators at 1 and 3, and the second result builds on the first. */
  lemma TwoOperationsResults(h: Host, a: string, op1: string, b: string, op2: string, c: string, m: bool)
    requires !IsMultDiv(N(a)) && !IsMultDiv(N(b)) && !IsMultDiv(N(c)) && IsMultDiv(O(op1)) && IsMultDiv(O(op2))
    ensures var xs := [N(a), O(op1), N(b), O(op2), N(c)];
      var first := ResultText(h, xs, 1, h.number(a), m);
      && MultDivIndexes(xs) == [1, 3]
      && MultDivResults(h, xs, [1, 3], m) == [Partial(1, first), Partial(3, ResultText(h, xs, 3, h.number(first), m))]
  {
    var xs := [N(a), O(op1), N(b), O(op2), N(c)];
    assert xs[..4][..3] == xs[..3];
    assert xs[..3][..2] == xs[..2];
    assert xs[..2][..1] == xs[..1];
    assert xs[..1][..0] == [];
    assert MultDivIndexes(xs[..1]) == [];
    assert MultDivIndexes(xs[..2]) == [1];
    assert MultDivIndexes(xs[..3]) == [1];
    assert MultDivIndexes(xs) == [1, 3];
    MultDivResultAt(h, xs, [1, 3], m, 0);
    MultDivResultAt(h, xs, [1, 3], m, 1);
  }

  /** `a op1 b op2 c` with two: the second takes the first's result as its left operand. */
  lemma TwoOperations(h: Host, a: string, op1: string, b: string, op2: string, c: string, m: bool)
    requires !IsMultDiv(N(a)) && !IsMultDiv(N(b)) && !IsMultDiv(N(c)) && IsMultDiv(O(op1)) && IsMultDiv(O(op2))
    ensures var xs := [N(a), O(op1), N(b), O(op2), N(c)];
      var first := ResultText(h, xs, 1, h.number(a), m);
      PassOne(h, xs, m) == [N(ResultText(h, xs, 3, h.number(first), m))]
  {
    var xs := [N(a), O(op1), N(b), O(op2), N(c)];
    TwoOperationsResults(h, a, op1, b, op2, c, m);
    var first := ResultText(h, xs, 1, h.number(a), m);
    var rs := [Partial(1, first), Partial(3, ResultText(h, xs, 3, h.number(first), m))];
    EmittedWithChain(xs, rs[0], rs[1], 0);
    EmittedWithChain(xs, rs[0], rs[1], 1);
    EmittedWithChain(xs, rs[0], rs[1], 2);
    EmittedWithChain(xs, rs[0], rs[1], 3);
    EmittedWithChain(xs, rs[0], rs[1], 4);
    assert Spliced(xs, rs, 1) == [];
    assert Spliced(xs, rs, 2) == [];
    assert Spliced(xs, rs, 3) == [N(rs[1].result)];
    assert Spliced(xs, rs, 4) == [N(rs[1].result)];
    assert Spliced(xs, rs, 5) == [N(rs[1].result)];
  }

  /** Pass 2 over one number adds it to 0. */
  lemma SumOfOne(h: Host, t: string)
    requires t != "-"
    ensures SumFold(h, [N(t)], 1) == Total(Add(Fin(0.0), h.number(t)))
  {
  }

  /** Pass 2 over `a + b`. */
  lemma SumOfTwo(h: Host, a: string, b: string)
    requires a != "-" && b != "-" && b != ""
    ensures SumFold(h, [N(a), O("+"), N(b)], 3) == Total(Add(Add(Fin(0.0), h.number(a)), h.number(b)))
  {
    var ys := [N(a), O("+"), N(b)];
    assert PrecedingOperator(ys, 0) == "+";
    assert SumFold(h, ys, 1) == Total(Add(Fin(0.0), h.number(a)));
    assert SumFold(h, ys, 2) == SumFold(h, ys, 1);
    assert PrecedingOperator(ys, 2) == "+";
  }

  /** Both passes, from what pass 1 leaves and what pass 2 adds up. */
  lemma Evaluated(e: Engine, xs: seq<Sym>, ys: seq<Sym>, t: Num, s: Sym)
    requires xs != [] && PassOne(Js, xs, MinusAsOne(e)) == ys
    requires SumFold(Js, ys, |ys|) == Total(t) && ResultSymbol(Js, t) == s
    ensures EvaluateEntry(e, xs) == Outcome([s], true, false)
  {
  }

  // ---------------------------------------------------------------- 2 + 3 x 4

  lemma ThreeTimesFour(m: bool)
    ensures ResultText(Js, [N("2"), O("+"), N("3"), O("x"), N("4")], 3, Parse("3"), m) == "12"
  {
    var xs := [N("2"), O("+"), N("3"), O("x"), N("4")];
    Whole(3, "3"); Whole(4, "4"); Whole(12, "12");
    assert RightOperand(Js, xs, 3, m) == Fin(4.0);
    assert Apply("x", Fin(3.0), Fin(4.0)) == Fin(12.0);
  }

  lemma PrecedencePassOne(m: bool)
    ensures PassOne(Js, [N("2"), O("+"), N("3"), O("x"), N("4")], m) == [N("2"), O("+"), N("12")]
  {
    SumThenOperation(Js, "2", "3", "x", "4", m);
    ThreeTimesFour(m);
  }

  lemma Fourteen()
    ensures ResultSymbol(Js, Fin(14.0)) == N("14")
  {
    Whole(14, "14");
  }

  lemma TwoPlusTwelve()
    ensures SumFold(Js, [N("2"), O("+"), N("12")], 3) == Total(Fin(14.0))
  {
    Whole(2, "2"); Whole(12, "12");
    SumOfTwo(Js, "2", "12");
  }

  /** Multiplication binds tighter than addition: 2 + 3 x 4 is 14 in both engines. */
  lemma MultiplicationFirst(e: Engine)
    ensures EvaluateEntry(e, [N("2"), O("+"), N("3"), O("x"), N("4")]) == Outcome([N("14")], true, false)
  {
    PrecedencePassOne(MinusAsOne(e));
    TwoPlusTwelve();
    Fourteen();
    Evaluated(e, [N("2"), O("+"), N("3"), O("x"), N("4")], [N("2"), O("+"), N("12")], Fin(14.0), N("14"));
  }

  // ---------------------------------------------------------------- 2 x 3 + 4

  lemma TwoTimesThree(m: bool)
    ensures ResultText(Js, [N("2"), O("x"), N("3"), O("+"), N("4")], 1, Parse("2"), m) == "6"
  {
    var xs := [N("2"), O("x"), N("3"), O("+"), N("4")];
    Whole(2, "2"); Whole(3, "3"); Whole(6, "6");
    assert RightOperand(Js, xs, 1, m) == Fin(3.0);
    assert Apply("x", Fin(2.0), Fin(3.0)) == Fin(6.0);
  }

  lemma SixPlusFour()
    ensures SumFold(Js, [N("6"), O("+"), N("4")], 3) == Total(Fin(10.0))
    ensures ResultSymbol(Js, Fin(10.0)) == N("10")
  {
    Whole(6, "6"); Whole(4, "4"); Whole(10, "10");
    SumOfTwo(Js, "6", "4");
  }

  /** A product at the start is spliced back in front of the sum: 2 x 3 + 4 is 10 in both engines. */
  lemma LeadingProductBeforeSum(e: Engine)
    ensures EvaluateEntry(e, [N("2"), O("x"), N("3"), O("+"), N("4")]) == Outcome([N("10")], true, false)
  {
    var xs := [N("2"), O("x"), N("3"), O("+"), N("4")];
    var m := MinusAsOne(e);
    OperationThenSum(Js, "2", "x", "3", "4", m);
    TwoTimesThree(m);
    SixPlusFour();
    Evaluated(e, xs, [N("6"), O("+"), N("4")], Fin(10.0), N("10"));
  }

  // ---------------------------------------------------------------- evaluating a result again

  /** Pass 1 leaves a lone number without `x` or `/` as it is. */
  lemma LoneNumberPassOne(h: Host, t: string, m: bool)
    requires t != "x" && t != "/"
    ensures PassOne(h, [N(t)], m) == [N(t)]
  {
    assert [N(t)][..0] == [];
  }

  /** Equal on a whole-number result gives the same result back, in both engines. */
  lemma EvaluateAgainIsNoOp(e: Engine, n: int)
    ensures var r := [N(Show(Fin(n as real)))];
      EvaluateEntry(e, r) == Outcome(r, true, false)
  {
    var t := Show(Fin(n as real));
    ShowIsNumberText(Fin(n as real));
    ParseShowInteger(n);
    LoneNumberPassOne(Js, t, MinusAsOne(e));
    SumOfOne(Js, t);
    assert Add(Fin(0.0), Fin(n as real)) == Fin(n as real);
    Evaluated(e, [N(t)], [N(t)], Fin(n as real), N(t));
  }

  // ---------------------------------------------------------------- typing 1 + 2 Enter

  lemma OnePlusTwo()
    ensures EvaluateEntry(Current, [N("1"), O("+"), N("2")]) == Outcome([N("3")], true, false)
  {
    var xs := [N("1"), O("+"), N("2")];
    assert xs[..2][..1] == xs[..1];
    assert xs[..1][..0] == [];
    assert MultDivIndexes(xs[..1]) == [];
    assert MultDivIndexes(xs[..2]) == [];
    assert MultDivIndexes(xs) == [];
    Whole(1, "1"); Whole(2, "2"); Whole(3, "3");
    SumOfTwo(Js, "1", "2");
    Evaluated(Current, xs, xs, Fin(3.0), N("3"));
  }

  lemma PressOne()
    ensures Press(Current, [], "1") == Outcome([N("1")], true, false)
  {
    assert Lower("1") == "1";
    PressDispatches(Current, [], "1");
  }

  lemma PressPlus()
    ensures Press(Current, [N("1")], "+") == Outcome([N("1"), O("+")], true, false)
  {
    assert Lower("+") == "+";
    PressDispatches(Current, [N("1")], "+");
  }

  lemma PressTwo()
    ensures Press(Current, [N("1"), O("+")], "2") == Outcome([N("1"), O("+"), N("2")], true, false)
  {
    assert Lower("2") == "2";
    PressDispatches(Current, [N("1"), O("+")], "2");
  }

  lemma PressEnter()
    ensures Press(Current, [N("1"), O("+"), N("2")], "Enter") == Outcome([N("3")], true, false)
  {
    var xs := [N("1"), O("+"), N("2")];
    NormalizedRenamings();
    assert PressedValue(Current, "Enter") == EqualKey(Current);
    PressEqual(Current, xs, "Enter");
    assert !SomeIsError(xs[2..]) && !SomeIsError(xs[1..]);
    assert ErrorCleared(xs) == xs;
    OnePlusTwo();
  }

  /** A first key that is handled without throwing hands its buffer on to the rest of the keys. */
  lemma TypingStep(e: Engine, xs: seq<Sym>, keys: seq<string>, ys: seq<Sym>)
    requires keys != [] && Press(e, xs, keys[0]) == Outcome(ys, true, false)
    ensures Typing(e, xs, keys) == Typing(e, ys, keys[1..])
  {
  }

  lemma TypingEnter()
    ensures Typing(Current, [N("1"), O("+"), N("2")], ["Enter"]) == ([N("3")], false)
  {
    var keys := ["Enter"];
    PressEnter();
    TypingStep(Current, [N("1"), O("+"), N("2")], keys, [N("3")]);
    assert keys[1..] == [];
  }

  lemma TypingTwoEnter()
    ensures Typing(Current, [N("1"), O("+")], ["2", "Enter"]) == ([N("3")], false)
  {
    var keys := ["2", "Enter"];
    PressTwo();
    TypingEnter();
    TypingStep(Current, [N("1"), O("+")], keys, [N("1"), O("+"), N("2")]);
    assert keys[1..] == ["Enter"];
  }

  lemma TypingPlusTwoEnter()
    ensures Typing(Current, [N("1")], ["+", "2", "Enter"]) == ([N("3")], false)
  {
    var keys := ["+", "2", "Enter"];
    PressPlus();
    TypingTwoEnter();
    TypingStep(Current, [N("1")], keys, [N("1"), O("+")]);
    assert keys[1..] == ["2", "Enter"];
  }

  /** The keys `1`, `+`, `2`, Enter, pressed on an empty expression, leave `3` and throw nothing. */
  lemma TypingOnePlusTwo()
    ensures Typing(Current, [], ["1", "+", "2", "Enter"]) == ([N("3")], false)
  {
    var keys := ["1", "+", "2", "Enter"];
    PressOne();
    TypingPlusTwoEnter();
    TypingStep(Current, [], keys, [N("1")]);
    assert keys[1..] == ["+", "2", "Enter"];
  }

  // ---------------------------------------------------------------- 6 / 2 / 3

  lemma SixOverTwo(m: bool)
    ensures ResultText(Js, [N("6"), O("/"), N("2"), O("/"), N("3")], 1, Parse("6"), m) == "3"
  {
    var xs := [N("6"), O("/"), N("2"), O("/"), N("3")];
    Whole(6, "6"); Whole(2, "2"); Whole(3, "3");
    assert RightOperand(Js, xs, 1, m) == Fin(2.0);
    assert Apply("/", Fin(6.0), Fin(2.0)) == Fin(3.0);
  }

  lemma ThreeOverThree(m: bool)
    ensures ResultText(Js, [N("6"), O("/"), N("2"), O("/"), N("3")], 3, Parse("3"), m) == "1"
  {
    var xs := [N("6"), O("/"), N("2"), O("/"), N("3")];
    Whole(3, "3"); Whole(1, "1");
    assert RightOperand(Js, xs, 3, m) == Fin(3.0);
    assert Apply("/", Fin(3.0), Fin(3.0)) == Fin(1.0);
  }

  /** A chain of divisions runs left to right: 6 / 2 / 3 is 1, not 9. */
  lemma DivisionChainsLeftToRight(e: Engine)
    ensures EvaluateEntry(e, [N("6"), O("/"), N("2"), O("/"), N("3")]) == Outcome([N("1")], true, false)
  {
    var m := MinusAsOne(e);
    TwoOperations(Js, "6", "/", "2", "/", "3", m);
    SixOverTwo(m);
    ThreeOverThree(m);
    Whole(1, "1");
    SumOfOne(Js, "1");
    Evaluated(e, [N("6"), O("/"), N("2"), O("/"), N("3")], [N("1")], Fin(1.0), N("1"));
  }

  // ---------------------------------------------------------------- division by zero

  lemma EightOverZero(m: bool)
    ensures ResultText(Js, [N("8"), O("/"), N("0")], 1, Parse("8"), m) == "Infinity"
  {
    var xs := [N("8"), O("/"), N("0")];
    Whole(8, "8"); Whole(0, "0");
    assert RightOperand(Js, xs, 1, m) == Fin(0.0);
    assert Apply("/", Fin(8.0), Fin(0.0)) == PosInf;
  }

  /** 8 / 0 is the error symbol Infinity. */
  lemma DivisionByZeroIsError(e: Engine)
    ensures EvaluateEntry(e, [N("8"), O("/"), N("0")]) == Outcome([Sym("Infinity", Error)], true, false)
  {
    var xs := [N("8"), O("/"), N("0")];
    var m := MinusAsOne(e);
    OneOperation(Js, "8", "/", "0", m);
    EightOverZero(m);
    SumOfOne(Js, "Infinity");
    Evaluated(e, xs, [N("Infinity")], PosInf, Sym("Infinity", Error));
  }

  lemma MinusFiveOverZero(m: bool)
    ensures ResultText(Js, [N("-5"), O("/"), N("0")], 1, Parse("-5"), m) == "-Infinity"
  {
    var xs := [N("-5"), O("/"), N("0")];
    Whole(5, "5"); Whole(0, "0");
    assert "-5"[1..] == "5";
    assert Parse("-5") == Fin(-5.0);
    assert RightOperand(Js, xs, 1, m) == Fin(0.0);
    assert Apply("/", Fin(-5.0), Fin(0.0)) == NegInf;
  }

  /** -5 / 0 is -Infinity, which is not treated as an error. */
  lemma NegativeDivisionByZeroIsNumber(e: Engine)
    ensures EvaluateEntry(e, [N("-5"), O("/"), N("0")]) == Outcome([N("-Infinity")], true, false)
  {
    var xs := [N("-5"), O("/"), N("0")];
    var m := MinusAsOne(e);
    OneOperation(Js, "-5", "/", "0", m);
    MinusFiveOverZero(m);
    assert "-Infinity"[1..] == "Infinity";
    SumOfOne(Js, "-Infinity");
    Evaluated(e, xs, [N("-Infinity")], NegInf, N("-Infinity"));
  }

  // ---------------------------------------------------------------- a bare minus after x

  /** The current engine reads a bare `-` after `x` as 1: 5 x - is 5. */
  lemma CurrentIgnoresBareMinus()
    ensures EvaluateEntry(Current, [N("5"), O("x"), N("-")]) == Outcome([N("5")], true, false)
  {
    var xs := [N("5"), O("x"), N("-")];
    OneOperation(Js, "5", "x", "-", true);
    Whole(5, "5");
    assert RightOperand(Js, xs, 1, true) == Fin(1.0);
    assert Apply("x", Fin(5.0), Fin(1.0)) == Fin(5.0);
    assert ResultText(Js, xs, 1, Parse("5"), true) == "5";
    SumOfOne(Js, "5");
    Evaluated(Current, xs, [N("5")], Fin(5.0), N("5"));
  }

  lemma FiveTimesBareMinus()
    ensures ResultText(Js, [N("5"), O("x"), N("-")], 1, Parse("5"), false) == "NaN"
  {
    var xs := [N("5"), O("x"), N("-")];
    Whole(5, "5");
    assert "-"[1..] == "";
    assert ParseDecimal("") == None;
    assert Parse("-") == NaN;
    assert RightOperand(Js, xs, 1, false) == NaN;
    assert Apply("x", Fin(5.0), NaN) == NaN;
  }

  lemma ReadNaN()
    ensures Parse("NaN") == NaN && Add(Fin(0.0), NaN) == NaN
  {
    assert IndexOf("NaN", '.') == 3;
    assert "NaN"[..3] == "NaN";
    assert !AllDigits("NaN") by { assert !IsDigit("NaN"[0]); }
  }

  /** The earlier engine reads it as `Number("-")`, NaN: 5 x - is the error NaN. */
  lemma LegacyBareMinusIsNaN()
    ensures EvaluateEntry(Legacy, [N("5"), O("x"), N("-")]) == Outcome([Sym("NaN", Error)], true, false)
  {
    var xs := [N("5"), O("x"), N("-")];
    OneOperation(Js, "5", "x", "-", false);
    FiveTimesBareMinus();
    ReadNaN();
    SumOfOne(Js, "NaN");
    Evaluated(Legacy, xs, [N("NaN")], NaN, Sym("NaN", Error));
  }

  // ---------------------------------------------------------------- an operator typed first

  /** `x` typed first, then `+` and `3`, in the earlier engine. */
  lemma LegacyLeadingOperatorEntry()
    ensures DigitEntry(OperatorEntry(Legacy, OperatorEntry(Legacy, [], "x"), "+"), "3") == [N("x"), O("+"), N("3")]
  {
  }

  /** Pass 1 on `x + 3`: the product at position 0 has no left operand, so the splice never emits it. */
  lemma LeadingProductDropped(h: Host, m: bool)
    ensures PassOne(h, [N("x"), O("+"), N("3")], m) == [N("3")]
  {
    var xs := [N("x"), O("+"), N("3")];
    assert xs[..2][..1] == xs[..1];
    assert xs[..1][..0] == [];
    assert MultDivIndexes(xs[..1]) == [0];
    assert MultDivIndexes(xs) == [0];
    MultDivResultAt(h, xs, [0], m, 0);
    var rs := MultDivResults(h, xs, [0], m);
    assert rs == [rs[0]] && rs[0].at == 0;
    EmittedWithOne(xs, rs[0], 0);
    EmittedWithOne(xs, rs[0], 1);
    EmittedWithOne(xs, rs[0], 2);
    assert Spliced(xs, rs, 1) == [];
    assert Spliced(xs, rs, 2) == [];
    assert Spliced(xs, rs, 3) == [N("3")];
  }

  /**
   * The earlier engine takes `x` typed first as a number; the product it
   * starts is dropped, and `x + 3` evaluates to 3.
   */
  lemma LegacyLeadingOperatorIsDropped()
    ensures EvaluateEntry(Legacy, [N("x"), O("+"), N("3")]) == Outcome([N("3")], true, false)
  {
    LeadingProductDropped(Js, false);
    Whole(3, "3");
    SumOfOne(Js, "3");
    Evaluated(Legacy, [N("x"), O("+"), N("3")], [N("3")], Fin(3.0), N("3"));
  }

  /** The current engine ignores any operator but `-` on an empty expression. */
  lemma CurrentIgnoresLeadingOperator(op: string)
    requires op in OperatorKeys && op != "-"
    ensures OperatorEntry(Current, [], op) == []
  {
  }

  // ---------------------------------------------------------------- deleting

  /** Backspace removes an operator, then one character at a time. */
  lemma DeletingBackToEmpty()
    ensures DeleteEntry([N("12"), O("+")]) == [N("12")]
    ensures DeleteEntry([N("12")]) == [N("1")]
    ensures DeleteEntry([N("1")]) == []
  {
    assert DropLast("12") == "1";
  }
}
