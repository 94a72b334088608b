/**
 * The two-pass evaluator shared by both engines (src/scripts/calculator.js
 * and src/js/calculator.js): pass 1 folds every `x` and `/` with its
 * neighbours and splices one result per chain back into the list; pass 2
 * folds `+` and `-` left to right.
 */
module Evaluator {
  import opened Wrappers
  import opened Numbers
  import opened Symbols

  /**
   * The two conversions the evaluator makes between symbol text and numbers:
   * `Number(text)` and `String(n)`. The engines use `Numbers.Parse` and
   * `Numbers.Show` (see `Js`); the pass-1 and pass-2 lemmas hold for any pair.
   */
  datatype Host = Host(number: string -> Num, str: Num -> string)

  const Js: Host := Host(Parse, Show)

  /** `String` never yields text that reads as an operator or as the sign placeholder. */
  ghost predicate WritesNumberText(h: Host) {
    forall x :: h.str(x) != "" && h.str(x) != "-" && 'x' !in h.str(x) && '/' !in h.str(x) && '+' !in h.str(x)
  }

  lemma JsWritesNumberText()
    ensures WritesNumberText(Js)
  {
    forall x: Num
      ensures Js.str(x) != "" && Js.str(x) != "-" && 'x' !in Js.str(x) && '/' !in Js.str(x) && '+' !in Js.str(x)
    {
      ShowIsNumberText(x);
    }
  }

  /** Pass 1 picks symbols by their text alone, whatever their kind. */
  predicate IsMultDiv(s: Sym) {
    s.value == "x" || s.value == "/"
  }

  predicate StrictlyIncreasing(idx: seq<int>) {
    forall i, j :: 0 <= i < j < |idx| ==> idx[i] < idx[j]
  }

  predicate IndexesIn(xs: seq<Sym>, idx: seq<int>) {
    forall i :: 0 <= i < |idx| ==> 0 <= idx[i] < |xs|
  }

  // ---------------------------------------------------------------- pass 1: indexes

  /** The positions of the `x` and `/` symbols, left to right. */
  function MultDivIndexes(xs: seq<Sym>): (idx: seq<int>)
    ensures IndexesIn(xs, idx)
  {
    if xs == [] then []
    else MultDivIndexes(xs[..|xs| - 1]) + (if IsMultDiv(xs[|xs| - 1]) then [|xs| - 1] else [])
  }

  lemma {:induction false} MultDivIndexesExactly(xs: seq<Sym>)
    ensures StrictlyIncreasing(MultDivIndexes(xs))
    ensures forall k :: k in MultDivIndexes(xs) <==> 0 <= k < |xs| && IsMultDiv(xs[k])
  {
    if xs != [] {
      var p := xs[..|xs| - 1];
      MultDivIndexesExactly(p);
      assert forall k :: 0 <= k < |p| ==> p[k] == xs[k];
    }
  }

  /** `getIndexsOfMultAndDivision` */
  method IndexesOfMultAndDivision(xs: seq<Sym>) returns (idx: seq<int>)
    ensures idx == MultDivIndexes(xs)
  {
    idx := [];
    var i := 0;
    while i < |xs|
      invariant 0 <= i <= |xs|
      invariant idx == MultDivIndexes(xs[..i])
    {
      assert xs[..i + 1][..i] == xs[..i];
      if xs[i].value == "/" || xs[i].value == "x" {
        idx := idx + [i];
      }
      i := i + 1;
    }
    assert xs[..|xs|] == xs;
  }

  // ---------------------------------------------------------------- pass 1: results

  /** One entry of `results`: it consumed positions `at - 1`, `at` and `at + 1`. */
  datatype Partial = Partial(at: int, result: string)

  /** `operations.multiply` or `operations.divide`, chosen by the operator's text. */
  function Apply(op: string, a: Num, b: Num): Num {
    if op == "x" then Mul(a, b) else Div(a, b)
  }

  /**
   * The left operand of the `i`-th operator: the previous result when the
   * previous operator is two positions back, otherwise the symbol before it
   * (`Number(undefined)`, NaN, when there is none).
   */
  function LeftOperand(h: Host, xs: seq<Sym>, idx: seq<int>, i: int, prev: seq<Partial>): Num
    requires IndexesIn(xs, idx) && 0 <= i < |idx| && |prev| == i
  {
    if i > 0 && idx[i - 1] == idx[i] - 2 then h.number(prev[i - 1].result)
    else if idx[i] >= 1 then h.number(xs[idx[i] - 1].value)
    else NaN
  }

  /**
   * The right operand of the operator at `k`: 1 when the next symbol is
   * missing or empty, and also, when `minusAsOne` holds, when it is a bare `-`.
   */
  function RightOperand(h: Host, xs: seq<Sym>, k: int, minusAsOne: bool): Num
    requires 0 <= k < |xs|
  {
    if k + 1 >= |xs| || xs[k + 1].value == "" then Fin(1.0)
    else if minusAsOne && xs[k + 1].value == "-" then Fin(1.0)
    else h.number(xs[k + 1].value)
  }

  /** The text pushed for the operator at `k` with left operand `left`: `String(a op b)`. */
  function ResultText(h: Host, xs: seq<Sym>, k: int, left: Num, minusAsOne: bool): string
    requires 0 <= k < |xs|
  {
    h.str(Apply(xs[k].value, left, RightOperand(h, xs, k, minusAsOne)))
  }

  /** The list `calculateMultAndDivision` builds. */
  function MultDivResults(h: Host, xs: seq<Sym>, idx: seq<int>, minusAsOne: bool): (rs: seq<Partial>)
    requires IndexesIn(xs, idx)
    ensures |rs| == |idx|
    decreases |idx|
  {
    if idx == [] then []
    else
      var n := |idx| - 1;
      var prev := MultDivResults(h, xs, idx[..n], minusAsOne);
      var k := idx[n];
      prev + [Partial(k, ResultText(h, xs, k, LeftOperand(h, xs, idx, n, prev), minusAsOne))]
  }

  /**
   * Entry `i` of the results belongs to operator `idx[i]`; an operator two
   * positions after the previous one takes that one's result as its left
   * operand (left-associative chains); any other takes the symbol before it.
   */
  lemma {:induction false} MultDivResultAt(h: Host, xs: seq<Sym>, idx: seq<int>, minusAsOne: bool, i: int)
    requires IndexesIn(xs, idx) && 0 <= i < |idx|
    ensures var rs := MultDivResults(h, xs, idx, minusAsOne);
      var k := idx[i];
      && rs[i].at == k
      && (i > 0 && idx[i - 1] == k - 2 ==>
            rs[i].result == ResultText(h, xs, k, h.number(rs[i - 1].result), minusAsOne))
      && (!(i > 0 && idx[i - 1] == k - 2) ==>
            rs[i].result == ResultText(h, xs, k, if k >= 1 then h.number(xs[k - 1].value) else NaN, minusAsOne))
    decreases |idx|
  {
    var n := |idx| - 1;
    var p := idx[..n];
    var prev := MultDivResults(h, xs, p, minusAsOne);
    var rs := MultDivResults(h, xs, idx, minusAsOne);
    assert rs == prev + [Partial(idx[n], ResultText(h, xs, idx[n], LeftOperand(h, xs, idx, n, prev), minusAsOne))];
    if i < n {
      MultDivResultAt(h, xs, p, minusAsOne, i);
      assert p[i] == idx[i];
      assert rs[i] == prev[i];
      if i > 0 {
        assert p[i - 1] == idx[i - 1];
        assert rs[i - 1] == prev[i - 1];
      }
    }
  }

  /** The left operand at `i` looks only at indexes up to `i`. */
  lemma LeftOperandOfPrefix(h: Host, xs: seq<Sym>, idx: seq<int>, i: int, prev: seq<Partial>)
    requires IndexesIn(xs, idx) && 0 <= i < |idx| && |prev| == i
    ensures LeftOperand(h, xs, idx[..i + 1], i, prev) == LeftOperand(h, xs, idx, i, prev)
  {
    assert idx[..i + 1][i] == idx[i];
    assert i > 0 ==> idx[..i + 1][i - 1] == idx[i - 1];
  }

  /** One more index extends the results by the result for that index. */
  lemma MultDivResultsStep(h: Host, xs: seq<Sym>, idx: seq<int>, i: int, minusAsOne: bool)
    requires IndexesIn(xs, idx) && 0 <= i < |idx|
    ensures var prev := MultDivResults(h, xs, idx[..i], minusAsOne);
      MultDivResults(h, xs, idx[..i + 1], minusAsOne) ==
        prev + [Partial(idx[i], ResultText(h, xs, idx[i], LeftOperand(h, xs, idx[..i + 1], i, prev), minusAsOne))]
  {
    assert idx[..i + 1][..i] == idx[..i];
  }

  /** `calculateMultAndDivision` */
  method CalculateMultAndDivision(h: Host, xs: seq<Sym>, idx: seq<int>, minusAsOne: bool) returns (results: seq<Partial>)
    requires IndexesIn(xs, idx)
    ensures results == MultDivResults(h, xs, idx, minusAsOne)
  {
    results := [];
    var i := 0;
    while i < |idx|
      invariant 0 <= i <= |idx|
      invariant results == MultDivResults(h, xs, idx[..i], minusAsOne)
    {
      MultDivResultsStep(h, xs, idx, i, minusAsOne);
      var k := idx[i];
      var before := if k >= 1 then h.number(xs[k - 1].value) else NaN;
      var after: Option<string> := if k + 1 < |xs| && xs[k + 1].value != "" then Some(xs[k + 1].value) else None;
      if i > 0 && idx[i - 1] == k - 2 {
        before := h.number(results[i - 1].result);
      }
      var right := if after == None || (minusAsOne && after.value == "-") then Fin(1.0) else h.number(after.value);
      assert right == RightOperand(h, xs, k, minusAsOne);
      LeftOperandOfPrefix(h, xs, idx, i, results);
      assert before == LeftOperand(h, xs, idx, i, results);
      results := results + [Partial(k, ResultText(h, xs, k, before, minusAsOne))];
      i := i + 1;
    }
    assert idx[..|idx|] == idx;
  }

  // ---------------------------------------------------------------- pass 1: splice

  /** A result ends its chain unless the next result starts where it ends. */
  predicate ClosesChain(rs: seq<Partial>, j: int)
    requires 0 <= j < |rs|
  {
    j + 1 >= |rs| || rs[j].at + 1 != rs[j + 1].at - 1
  }

  /** The result symbols pushed at position `e` while scanning the first `n` results. */
  function InsertedAt(rs: seq<Partial>, e: int, n: nat): seq<Sym>
    requires n <= |rs|
  {
    if n == 0 then []
    else InsertedAt(rs, e, n - 1)
         + (if rs[n - 1].at - 1 == e && ClosesChain(rs, n - 1) then [Sym(rs[n - 1].result, Number)] else [])
  }

  /** Whether one of the first `n` results consumed position `e`. */
  function ConsumedBy(rs: seq<Partial>, e: int, n: nat): bool
    requires n <= |rs|
  {
    n > 0 && (ConsumedBy(rs, e, n - 1) || rs[n - 1].at - 1 <= e <= rs[n - 1].at + 1)
  }

  /** What position `e` contributes to the new list. */
  function Emitted(xs: seq<Sym>, rs: seq<Partial>, e: int): seq<Sym>
    requires 0 <= e < |xs|
  {
    InsertedAt(rs, e, |rs|) + (if ConsumedBy(rs, e, |rs|) then [] else [xs[e]])
  }

  /** The list `replaceCalculatedOperationsByResult` builds from the first `n` positions. */
  function Spliced(xs: seq<Sym>, rs: seq<Partial>, n: nat): seq<Sym>
    requires n <= |xs|
  {
    if n == 0 then [] else Spliced(xs, rs, n - 1) + Emitted(xs, rs, n - 1)
  }

  /** `replaceCalculatedOperationsByResult` */
  method ReplaceCalculatedOperationsByResult(xs: seq<Sym>, rs: seq<Partial>) returns (out: seq<Sym>)
    ensures out == Spliced(xs, rs, |xs|)
  {
    out := [];
    var e := 0;
    while e < |xs|
      invariant 0 <= e <= |xs|
      invariant out == Spliced(xs, rs, e)
    {
      var canPush := true;
      ghost var base := out;
      var j := 0;
      while j < |rs|
        invariant 0 <= j <= |rs|
        invariant out == base + InsertedAt(rs, e, j)
        invariant canPush == !ConsumedBy(rs, e, j)
      {
        if rs[j].at - 1 == e && (j + 1 >= |rs| || rs[j].at + 1 != rs[j + 1].at - 1) {
          out := out + [Sym(rs[j].result, Number)];
        }
        if rs[j].at - 1 <= e <= rs[j].at + 1 {
          canPush := false;
        }
        j := j + 1;
      }
      if canPush {
        out := out + [xs[e]];
      }
      e := e + 1;
    }
  }

  lemma {:induction false} ConsumedByExactly(rs: seq<Partial>, e: int, n: nat)
    requires n <= |rs|
    ensures ConsumedBy(rs, e, n) <==> exists j :: 0 <= j < n && rs[j].at - 1 <= e <= rs[j].at + 1
  {
    if n > 0 {
      ConsumedByExactly(rs, e, n - 1);
    }
  }

  /** The results pushed at position `e` are the closing results of the chains whose triple starts at `e`. */
  lemma {:induction false} InsertedAreClosing(rs: seq<Partial>, e: int, n: nat)
    requires n <= |rs|
    ensures forall s :: s in InsertedAt(rs, e, n) ==>
      s.kind == Number && exists j :: 0 <= j < n && ClosesChain(rs, j) && rs[j].at - 1 == e && s.value == rs[j].result
  {
    if n > 0 {
      InsertedAreClosing(rs, e, n - 1);
    }
  }

  /** With no results the splice copies the list. */
  lemma {:induction false} SplicedWithoutResults(xs: seq<Sym>, n: nat)
    requires n <= |xs|
    ensures Spliced(xs, [], n) == xs[..n]
  {
    if n > 0 {
      SplicedWithoutResults(xs, n - 1);
      assert xs[..n] == xs[..n - 1] + [xs[n - 1]];
    }
  }

  /** `s` is one of the first `n` original symbols that no result consumed. */
  predicate KeptSymbol(xs: seq<Sym>, rs: seq<Partial>, n: nat, s: Sym)
    requires n <= |xs|
  {
    exists e :: 0 <= e < n && s == xs[e] && !ConsumedBy(rs, e, |rs|)
  }

  /** `s` is a number symbol carrying the result that closes one of the chains. */
  predicate ResultCarrier(rs: seq<Partial>, s: Sym) {
    s.kind == Number && exists j :: 0 <= j < |rs| && ClosesChain(rs, j) && s.value == rs[j].result
  }

  /**
   * Every symbol of the spliced list is either a symbol of the original list
   * that no result consumed, or a number symbol carrying the final result
   * of a chain.
   */
  lemma SplicedElements(xs: seq<Sym>, rs: seq<Partial>, n: nat)
    requires n <= |xs|
    ensures forall s :: s in Spliced(xs, rs, n) ==> KeptSymbol(xs, rs, n, s) || ResultCarrier(rs, s)
  {
    forall s | s in Spliced(xs, rs, n)
      ensures KeptSymbol(xs, rs, n, s) || ResultCarrier(rs, s)
    {
      SplicedElement(xs, rs, n, s);
    }
  }

  lemma {:induction false} SplicedElement(xs: seq<Sym>, rs: seq<Partial>, n: nat, s: Sym)
    requires n <= |xs| && s in Spliced(xs, rs, n)
    ensures KeptSymbol(xs, rs, n, s) || ResultCarrier(rs, s)
  {
    if n > 0 {
      SplicedMember(xs, rs, n, s);
      if s in Spliced(xs, rs, n - 1) {
        SplicedElement(xs, rs, n - 1, s);
        KeptSymbolGrows(xs, rs, n - 1, s);
      } else {
        EmittedElement(xs, rs, n, s);
      }
    }
  }

  /** A symbol of the splice of `n` positions comes from the splice of `n - 1` or from position `n - 1`. */
  lemma SplicedMember(xs: seq<Sym>, rs: seq<Partial>, n: nat, s: Sym)
    requires 0 < n <= |xs| && s in Spliced(xs, rs, n)
    ensures s in Spliced(xs, rs, n - 1) || s in Emitted(xs, rs, n - 1)
  {
    assert Spliced(xs, rs, n) == Spliced(xs, rs, n - 1) + Emitted(xs, rs, n - 1);
  }

  /** A symbol that position `n - 1` contributes is kept from the first `n` positions, or a closing result. */
  lemma EmittedElement(xs: seq<Sym>, rs: seq<Partial>, n: nat, s: Sym)
    requires 0 < n <= |xs| && s in Emitted(xs, rs, n - 1)
    ensures KeptSymbol(xs, rs, n, s) || ResultCarrier(rs, s)
  {
    EmittedElements(xs, rs, n - 1);
    if s == xs[n - 1] && !ConsumedBy(rs, n - 1, |rs|) {
      assert 0 <= n - 1 < n;
    }
  }

  lemma KeptSymbolGrows(xs: seq<Sym>, rs: seq<Partial>, n: nat, s: Sym)
    requires n < |xs|
    ensures KeptSymbol(xs, rs, n, s) ==> KeptSymbol(xs, rs, n + 1, s)
  {
    if KeptSymbol(xs, rs, n, s) {
      var e :| 0 <= e < n && s == xs[e] && !ConsumedBy(rs, e, |rs|);
      assert 0 <= e < n + 1;
    }
  }

  /** What one position contributes: itself when no result consumed it, or closing results. */
  lemma EmittedElements(xs: seq<Sym>, rs: seq<Partial>, e: nat)
    requires e < |xs|
    ensures forall s :: s in Emitted(xs, rs, e) ==>
      (s == xs[e] && !ConsumedBy(rs, e, |rs|)) || ResultCarrier(rs, s)
  {
    InsertedAreClosing(rs, e, |rs|);
  }

  lemma {:induction false} InsertedAtHas(rs: seq<Partial>, e: int, n: nat, j: int)
    requires 0 <= j < n <= |rs| && rs[j].at - 1 == e && ClosesChain(rs, j)
    ensures Sym(rs[j].result, Number) in InsertedAt(rs, e, n)
  {
    if j < n - 1 {
      InsertedAtHas(rs, e, n - 1, j);
    }
  }

  /**
   * Conversely, the splice keeps every symbol no result consumed, and
   * inserts the result that closes each chain.
   */
  lemma {:induction false} SplicedKeeps(xs: seq<Sym>, rs: seq<Partial>, n: nat)
    requires n <= |xs|
    ensures forall e :: 0 <= e < n && !ConsumedBy(rs, e, |rs|) ==> xs[e] in Spliced(xs, rs, n)
    ensures forall j :: 0 <= j < |rs| && ClosesChain(rs, j) && 0 <= rs[j].at - 1 < n ==>
      Sym(rs[j].result, Number) in Spliced(xs, rs, n)
  {
    if n > 0 {
      SplicedKeeps(xs, rs, n - 1);
      var prev := Spliced(xs, rs, n - 1);
      var em := Emitted(xs, rs, n - 1);
      assert Spliced(xs, rs, n) == prev + em;
      forall j | 0 <= j < |rs| && ClosesChain(rs, j) && rs[j].at - 1 == n - 1
        ensures Sym(rs[j].result, Number) in em
      {
        InsertedAtHas(rs, n - 1, |rs|, j);
      }
    }
  }

  /** How many of the first `n` positions no triple covers. */
  function UncoveredCount(rs: seq<Partial>, n: nat): nat {
    if n == 0 then 0 else UncoveredCount(rs, n - 1) + (if ConsumedBy(rs, n - 1, |rs|) then 0 else 1)
  }

  /** How many of the first `m` results close a chain whose triple starts in `[0, n)`. */
  function ClosingCount(rs: seq<Partial>, n: int, m: nat): nat
    requires m <= |rs|
  {
    if m == 0 then 0
    else ClosingCount(rs, n, m - 1) + (if ClosesChain(rs, m - 1) && 0 <= rs[m - 1].at - 1 < n then 1 else 0)
  }

  lemma {:induction false} ClosingCountStep(rs: seq<Partial>, n: nat, m: nat)
    requires m <= |rs|
    ensures ClosingCount(rs, n + 1, m) == ClosingCount(rs, n, m) + |InsertedAt(rs, n, m)|
  {
    if m > 0 {
      ClosingCountStep(rs, n, m - 1);
    }
  }

  /**
   * The splice is exactly as long as the symbols it keeps plus one result
   * per chain: every uncovered position, and the closing result of every
   * chain whose triple starts inside the list.
   */
  lemma {:induction false} SplicedLength(xs: seq<Sym>, rs: seq<Partial>, n: nat)
    requires n <= |xs|
    ensures |Spliced(xs, rs, n)| == UncoveredCount(rs, n) + ClosingCount(rs, n, |rs|)
  {
    if n > 0 {
      SplicedLength(xs, rs, n - 1);
      ClosingCountStep(rs, n - 1, |rs|);
    } else {
      ClosingCountNone(rs, |rs|);
    }
  }

  lemma {:induction false} ClosingCountNone(rs: seq<Partial>, m: nat)
    requires m <= |rs|
    ensures ClosingCount(rs, 0, m) == 0
  {
    if m > 0 {
      ClosingCountNone(rs, m - 1);
    }
  }

  /**
   * Multiplication and division come first: once every `x` and `/` position
   * has been consumed by a result, and no result reads as an operator, the
   * spliced list holds no `x` or `/` at all.
   */
  lemma SplicedHasNoMultDiv(xs: seq<Sym>, rs: seq<Partial>)
    requires forall k :: 0 <= k < |xs| && IsMultDiv(xs[k]) ==> ConsumedBy(rs, k, |rs|)
    requires forall j :: 0 <= j < |rs| ==> rs[j].result != "x" && rs[j].result != "/"
    ensures forall s :: s in Spliced(xs, rs, |xs|) ==> !IsMultDiv(s)
  {
    SplicedElements(xs, rs, |xs|);
  }

  // ---------------------------------------------------------------- pass 2

  /** Pass 2 adds up number symbols other than the sign placeholder. */
  predicate Counted(s: Sym) {
    s.kind == Number && s.value != "-"
  }

  /** `arr[index - 1]?.value || '+'` */
  function PrecedingOperator(ys: seq<Sym>, p: int): string
    requires 0 <= p < |ys|
  {
    if p == 0 || ys[p - 1].value == "" then "+" else ys[p - 1].value
  }

  /** The outcome of the `reduce`: a total, or the TypeError of calling a missing operator function. */
  datatype Sum = Total(n: Num) | NotAFunction

  /** The `reduce` of `calculateSumAndSubtraction` over the first `n` symbols. */
  function SumFold(h: Host, ys: seq<Sym>, n: nat): Sum
    requires n <= |ys|
  {
    if n == 0 then Total(Fin(0.0))
    else match SumFold(h, ys, n - 1)
      case NotAFunction => NotAFunction
      case Total(acc) =>
        var s := ys[n - 1];
        if !Counted(s) then Total(acc)
        else
          var op := PrecedingOperator(ys, n - 1);
          if op == "+" then Total(Add(acc, h.number(s.value)))
          else if op == "-" then Total(Sub(acc, h.number(s.value)))
          else NotAFunction
  }

  /** A plain signed sum: each counted number, negated when a `-` precedes it. */
  function SignedTotal(h: Host, ys: seq<Sym>, n: nat): real
    requires n <= |ys|
    requires forall p :: 0 <= p < n && Counted(ys[p]) ==> h.number(ys[p].value).Fin?
  {
    if n == 0 then 0.0
    else
      var s := ys[n - 1];
      var v := if Counted(s) then h.number(s.value).r else 0.0;
      SignedTotal(h, ys, n - 1) + (if Counted(s) && PrecedingOperator(ys, n - 1) == "-" then -v else v)
  }

  /**
   * When every counted number is finite and is preceded by `+`, `-`, an
   * empty value or nothing, the fold never fails and its total is the plain
   * signed sum starting from 0.
   */
  lemma {:induction false} SumFoldIsSignedTotal(h: Host, ys: seq<Sym>, n: nat)
    requires n <= |ys|
    requires forall p :: 0 <= p < n && Counted(ys[p]) ==>
      h.number(ys[p].value).Fin? && PrecedingOperator(ys, p) in {"+", "-"}
    ensures SumFold(h, ys, n) == Total(Fin(SignedTotal(h, ys, n)))
  {
    if n > 0 {
      SumFoldIsSignedTotal(h, ys, n - 1);
      var acc := SignedTotal(h, ys, n - 1);
      var s := ys[n - 1];
      if Counted(s) {
        var v := h.number(s.value);
        assert v.Fin?;
        if PrecedingOperator(ys, n - 1) == "+" {
          assert Add(Fin(acc), v) == Fin(acc + v.r);
        } else {
          assert Sub(Fin(acc), v) == Fin(acc - v.r);
        }
      }
    }
  }

  /** Whatever the numbers are, the fold fails only on a counted number after some other operator. */
  lemma {:induction false} SumFoldFailsOnlyOnBadOperator(h: Host, ys: seq<Sym>, n: nat)
    requires n <= |ys|
    ensures SumFold(h, ys, n) == NotAFunction <==>
      exists p :: 0 <= p < n && Counted(ys[p]) && PrecedingOperator(ys, p) !in {"+", "-"}
  {
    if n > 0 {
      SumFoldFailsOnlyOnBadOperator(h, ys, n - 1);
    }
  }

  /** The symbol `calculateSumAndSubtraction` returns: an error for Infinity or NaN. */
  function ResultSymbol(h: Host, t: Num): (s: Sym)
    ensures s.kind == Error <==> t == PosInf || t == NaN
    ensures s.kind != Operator
    ensures s.value == h.str(t)
  {
    if t == PosInf || t == NaN then Sym(h.str(t), Error) else Sym(h.str(t), Number)
  }

  // ---------------------------------------------------------------- both passes

  /** The outcome of both passes: one symbol, or a TypeError thrown after the splice. */
  datatype Evaluation = Evaluated(sym: Sym) | Threw(spliced: seq<Sym>)

  /** Pass 1 (only when there is an `x` or `/`), then pass 2. */
  function PassOne(h: Host, xs: seq<Sym>, minusAsOne: bool): seq<Sym> {
    var idx := MultDivIndexes(xs);
    if |idx| > 0 then Spliced(xs, MultDivResults(h, xs, idx, minusAsOne), |xs|) else xs
  }

  function Evaluate(h: Host, xs: seq<Sym>, minusAsOne: bool): Evaluation {
    var ys := PassOne(h, xs, minusAsOne);
    match SumFold(h, ys, |ys|)
    case Total(t) => Evaluated(ResultSymbol(h, t))
    case NotAFunction => Threw(ys)
  }

  /** Every `x` and `/` position is consumed by some result of pass 1. */
  lemma MultDivConsumed(h: Host, xs: seq<Sym>, minusAsOne: bool)
    ensures var rs := MultDivResults(h, xs, MultDivIndexes(xs), minusAsOne);
      forall k :: 0 <= k < |xs| && IsMultDiv(xs[k]) ==> ConsumedBy(rs, k, |rs|)
  {
    var idx := MultDivIndexes(xs);
    var rs := MultDivResults(h, xs, idx, minusAsOne);
    MultDivIndexesExactly(xs);
    forall k | 0 <= k < |xs| && IsMultDiv(xs[k])
      ensures ConsumedBy(rs, k, |rs|)
    {
      var i :| 0 <= i < |idx| && idx[i] == k;
      MultDivResultAt(h, xs, idx, minusAsOne, i);
      ConsumedByExactly(rs, k, |rs|);
    }
  }

  /** A result of pass 1 is written by the host, so it never reads as `x` or `/`. */
  lemma ResultsAreNotMultDiv(h: Host, xs: seq<Sym>, idx: seq<int>, minusAsOne: bool)
    requires WritesNumberText(h) && IndexesIn(xs, idx)
    ensures var rs := MultDivResults(h, xs, idx, minusAsOne);
      forall j :: 0 <= j < |rs| ==> rs[j].result != "x" && rs[j].result != "/"
  {
    var rs := MultDivResults(h, xs, idx, minusAsOne);
    forall j | 0 <= j < |rs|
      ensures rs[j].result != "x" && rs[j].result != "/"
    {
      MultDivResultAt(h, xs, idx, minusAsOne, j);
      var k := idx[j];
      var left := if j > 0 && idx[j - 1] == k - 2 then h.number(rs[j - 1].result)
                  else if k >= 1 then h.number(xs[k - 1].value) else NaN;
      var x := Apply(xs[k].value, left, RightOperand(h, xs, k, minusAsOne));
      assert rs[j].result == h.str(x);
      assert 'x' !in h.str(x) && '/' !in h.str(x);
      assert 'x' in "x" && '/' in "/";
    }
  }

  /** After pass 1 no `x` or `/` is left for pass 2. */
  lemma PassOneRemovesMultDiv(h: Host, xs: seq<Sym>, minusAsOne: bool)
    requires WritesNumberText(h)
    ensures forall s :: s in PassOne(h, xs, minusAsOne) ==> !IsMultDiv(s)
  {
    var idx := MultDivIndexes(xs);
    MultDivIndexesExactly(xs);
    if |idx| > 0 {
      MultDivConsumed(h, xs, minusAsOne);
      ResultsAreNotMultDiv(h, xs, idx, minusAsOne);
      SplicedHasNoMultDiv(xs, MultDivResults(h, xs, idx, minusAsOne));
    } else {
      forall s | s in xs
        ensures !IsMultDiv(s)
      {
        var k :| 0 <= k < |xs| && xs[k] == s;
        assert k !in idx;
      }
    }
  }
}
