/**
 * The shape keyboard entry gives an expression: numbers and operators
 * alternate, starting with a number. On such an expression pass 1 replaces
 * each `x`/`/` chain, operands included, by one number, so numbers and
 * operators still alternate and every operator left is `+` or `-`; pass 2
 * therefore always finds an operator function, and evaluation always ends
 * with one symbol.
 */
module Wellformed {
  import opened Numbers
  import opened Symbols
  import opened Evaluator

  /** The text of a number symbol: never empty, and never holding an operator character. */
  predicate NumberText(v: string) {
    v != "" && 'x' !in v && '/' !in v && AtMostOneDot(v) && !LeadingDoubleZero(v)
  }

  /** What `String` writes is number text. */
  lemma ShowIsNumber(x: Num)
    ensures NumberText(Show(x))
  {
    ShowIsNumberText(x);
    ShowShape(x);
  }

  predicate OperatorText(v: string) {
    v == "+" || v == "-" || v == "x" || v == "/"
  }

  /** Kinds alternate: a number at every even position, an operator at every odd one. */
  predicate KindsAlternate(ys: seq<Sym>) {
    forall i :: 0 <= i < |ys| ==> ys[i].kind == (if i % 2 == 0 then Number else Operator)
  }

  /** The shape of an expression built from keys. */
  predicate Alternating(xs: seq<Sym>) {
    && KindsAlternate(xs)
    && forall i :: 0 <= i < |xs| ==>
         if i % 2 == 0 then NumberText(xs[i].value) else OperatorText(xs[i].value)
  }

  // ---------------------------------------------------------------- the splice, position by position

  /** The results of pass 1 belong to odd positions, left to right. */
  predicate OddIncreasing(rs: seq<Partial>) {
    && (forall j :: 0 <= j < |rs| ==> rs[j].at >= 1 && rs[j].at % 2 == 1)
    && (forall i, j :: 0 <= i < j < |rs| ==> rs[i].at < rs[j].at)
  }

  /** Position `n` lies just after the operator that closes a chain, or on it. */
  predicate AfterClose(rs: seq<Partial>, n: int) {
    exists j :: 0 <= j < |rs| && ClosesChain(rs, j) && rs[j].at <= n <= rs[j].at + 1
  }

  /**
   * Whether the list spliced from the positions before `n` ends with a
   * number: inside a chain, once its result has been pushed; elsewhere,
   * exactly at odd positions.
   */
  predicate Open(rs: seq<Partial>, n: int) {
    if ConsumedBy(rs, n, |rs|) then AfterClose(rs, n) else n % 2 == 1
  }

  lemma {:induction false} InsertedAtNone(rs: seq<Partial>, e: int, n: nat)
    requires n <= |rs|
    requires forall j :: 0 <= j < n ==> rs[j].at - 1 != e || !ClosesChain(rs, j)
    ensures InsertedAt(rs, e, n) == []
  {
    if n > 0 {
      InsertedAtNone(rs, e, n - 1);
    }
  }

  lemma {:induction false} InsertedAtOne(rs: seq<Partial>, e: int, n: nat, k: int)
    requires 0 <= k < n <= |rs|
    requires rs[k].at - 1 == e && ClosesChain(rs, k)
    requires forall j :: 0 <= j < n && j != k ==> rs[j].at - 1 != e
    ensures InsertedAt(rs, e, n) == [Sym(rs[k].result, Number)]
  {
    if n - 1 == k {
      InsertedAtNone(rs, e, n - 1);
    } else {
      InsertedAtOne(rs, e, n - 1, k);
    }
  }

  /** Odd, increasing positions are at least two apart per step. */
  lemma {:induction false} OddGaps(rs: seq<Partial>, a: int, b: int)
    requires OddIncreasing(rs) && 0 <= a <= b < |rs|
    ensures rs[a].at + 2 * (b - a) <= rs[b].at
    decreases b - a
  {
    if a < b {
      OddGaps(rs, a, b - 1);
      assert rs[b - 1].at < rs[b].at;
    }
  }

  /** Two results two positions apart are neighbours in the list of results. */
  lemma ChainNeighbours(rs: seq<Partial>, i: int, j: int)
    requires OddIncreasing(rs) && 0 <= i < |rs| && 0 <= j < |rs|
    requires rs[i].at == rs[j].at - 2
    ensures i == j - 1
  {
    if i <= j {
      OddGaps(rs, i, j);
    } else {
      OddGaps(rs, j, i);
    }
  }

  /** Position `n` emits nothing when `Open` does not change, and one symbol of the right kind when it does. */
  predicate StepFits(xs: seq<Sym>, rs: seq<Partial>, n: int)
    requires 0 <= n < |xs|
  {
    var em := Emitted(xs, rs, n);
    if Open(rs, n) == Open(rs, n + 1) then em == []
    else |em| == 1 && em[0].kind == (if Open(rs, n) then Operator else Number)
  }

  /** An uncovered position is copied, and flips `Open`. */
  lemma StepUncovered(xs: seq<Sym>, rs: seq<Partial>, n: int)
    requires 0 <= n < |xs| && KindsAlternate(xs) && OddIncreasing(rs)
    requires !ConsumedBy(rs, n, |rs|)
    ensures StepFits(xs, rs, n)
  {
    ConsumedByExactly(rs, n, |rs|);
    ConsumedByExactly(rs, n + 1, |rs|);
    InsertedAtNone(rs, n, |rs|);
    assert Emitted(xs, rs, n) == [xs[n]];
    if ConsumedBy(rs, n + 1, |rs|) {
      var j :| 0 <= j < |rs| && rs[j].at - 1 <= n + 1 <= rs[j].at + 1;
      assert n + 1 == rs[j].at - 1;
      forall c | 0 <= c < |rs|
        ensures !(rs[c].at <= n + 1 <= rs[c].at + 1)
      {
      }
    }
  }

  /** Just before a chain's last operator the chain's result is pushed; before an earlier one, nothing. */
  lemma StepBeforeOperator(xs: seq<Sym>, rs: seq<Partial>, n: int, j: int)
    requires 0 <= n < |xs| && KindsAlternate(xs) && OddIncreasing(rs)
    requires 0 <= j < |rs| && rs[j].at - 1 == n
    ensures StepFits(xs, rs, n)
  {
    assert ConsumedBy(rs, n, |rs|) && ConsumedBy(rs, n + 1, |rs|) by {
      ConsumedByExactly(rs, n, |rs|);
      ConsumedByExactly(rs, n + 1, |rs|);
    }
    NoCloseBeforeOperator(rs, n, j);
    if ClosesChain(rs, j) {
      BeforeClosingOperator(rs, n, j);
    } else {
      BeforeInnerOperator(rs, n, j);
    }
  }

  /** No chain has just closed at the position before an operator of pass 1. */
  lemma NoCloseBeforeOperator(rs: seq<Partial>, n: int, j: int)
    requires OddIncreasing(rs) && 0 <= j < |rs| && rs[j].at - 1 == n
    ensures !AfterClose(rs, n)
  {
    forall c | 0 <= c < |rs| && rs[c].at <= n <= rs[c].at + 1
      ensures !ClosesChain(rs, c)
    {
      ChainNeighbours(rs, c, j);
    }
  }

  /** Before the operator that closes a chain, the chain's result is pushed and a chain has closed. */
  lemma BeforeClosingOperator(rs: seq<Partial>, n: int, j: int)
    requires OddIncreasing(rs) && 0 <= j < |rs| && rs[j].at - 1 == n && ClosesChain(rs, j)
    ensures InsertedAt(rs, n, |rs|) == [Sym(rs[j].result, Number)]
    ensures AfterClose(rs, n + 1)
  {
    assert forall i :: 0 <= i < |rs| && i != j ==> rs[i].at != rs[j].at;
    InsertedAtOne(rs, n, |rs|, j);
  }

  /** Before an operator that does not close its chain, nothing is pushed and no chain has closed. */
  lemma BeforeInnerOperator(rs: seq<Partial>, n: int, j: int)
    requires OddIncreasing(rs) && 0 <= j < |rs| && rs[j].at - 1 == n && !ClosesChain(rs, j)
    ensures InsertedAt(rs, n, |rs|) == []
    ensures !AfterClose(rs, n + 1)
  {
    assert forall i :: 0 <= i < |rs| && i != j ==> rs[i].at != rs[j].at;
    InsertedAtNone(rs, n, |rs|);
    forall c | 0 <= c < |rs| && rs[c].at <= n + 1 <= rs[c].at + 1
      ensures c == j
    {
    }
  }

  /** On an operator of a chain the state is kept: open exactly when that operator closes the chain. */
  lemma StepOnOperator(xs: seq<Sym>, rs: seq<Partial>, n: int, j: int)
    requires 0 <= n < |xs| && KindsAlternate(xs) && OddIncreasing(rs)
    requires 0 <= j < |rs| && rs[j].at == n
    ensures StepFits(xs, rs, n)
  {
    assert ConsumedBy(rs, n, |rs|) && ConsumedBy(rs, n + 1, |rs|) by {
      ConsumedByExactly(rs, n, |rs|);
      ConsumedByExactly(rs, n + 1, |rs|);
    }
    assert Emitted(xs, rs, n) == [] by {
      InsertedAtNone(rs, n, |rs|);
    }
    forall c | 0 <= c < |rs| && c != j && ClosesChain(rs, c)
      ensures !(rs[c].at <= n + 1 <= rs[c].at + 1)
    {
      if rs[c].at == n - 1 {
        ChainNeighbours(rs, c, j);
      }
    }
    assert AfterClose(rs, n) == ClosesChain(rs, j);
    assert AfterClose(rs, n + 1) == ClosesChain(rs, j);
  }

  /** Just after a chain: nothing is emitted, and the next position is an uncovered operator. */
  lemma StepAfterChain(xs: seq<Sym>, rs: seq<Partial>, n: int, j: int)
    requires 0 <= n < |xs| && KindsAlternate(xs) && OddIncreasing(rs)
    requires 0 <= j < |rs| && rs[j].at + 1 == n
    requires forall i :: 0 <= i < |rs| ==> rs[i].at - 1 != n
    ensures StepFits(xs, rs, n)
  {
    ConsumedByExactly(rs, n, |rs|);
    ConsumedByExactly(rs, n + 1, |rs|);
    InsertedAtNone(rs, n, |rs|);
    assert ClosesChain(rs, j);
    assert AfterClose(rs, n);
    forall i | 0 <= i < |rs|
      ensures !(rs[i].at - 1 <= n + 1 <= rs[i].at + 1)
    {
    }
  }

  lemma Step(xs: seq<Sym>, rs: seq<Partial>, n: int)
    requires 0 <= n < |xs| && KindsAlternate(xs) && OddIncreasing(rs)
    ensures StepFits(xs, rs, n)
  {
    ConsumedByExactly(rs, n, |rs|);
    if !ConsumedBy(rs, n, |rs|) {
      StepUncovered(xs, rs, n);
    } else if j :| 0 <= j < |rs| && rs[j].at - 1 == n {
      StepBeforeOperator(xs, rs, n, j);
    } else {
      var j :| 0 <= j < |rs| && rs[j].at - 1 <= n <= rs[j].at + 1;
      if n == rs[j].at {
        StepOnOperator(xs, rs, n, j);
      } else {
        StepAfterChain(xs, rs, n, j);
      }
    }
  }

  /**
   * Appending nothing when the state is kept, or one symbol of the kind due
   * when it flips, keeps kinds alternating and tracks whether the list ends
   * with a number.
   */
  lemma AppendAlternates(ys: seq<Sym>, em: seq<Sym>, before: bool, after: bool)
    requires KindsAlternate(ys) && (|ys| % 2 == 1 <==> before)
    requires if before == after then em == []
             else |em| == 1 && em[0].kind == (if before then Operator else Number)
    ensures KindsAlternate(ys + em) && (|ys + em| % 2 == 1 <==> after)
  {
    if em == [] {
      assert ys + em == ys;
    }
  }

  /** The splice of the first `n` positions alternates, and ends with a number exactly when `Open`. */
  lemma {:induction false} SplicedAlternates(xs: seq<Sym>, rs: seq<Partial>, n: nat)
    requires n <= |xs| && KindsAlternate(xs) && OddIncreasing(rs)
    ensures KindsAlternate(Spliced(xs, rs, n))
    ensures |Spliced(xs, rs, n)| % 2 == 1 <==> Open(rs, n)
  {
    if n == 0 {
      assert !AfterClose(rs, 0);
    } else {
      SplicedAlternates(xs, rs, n - 1);
      SplicedStep(xs, rs, n - 1);
    }
  }

  /** One more position keeps the splice alternating and `Open` in step with its parity. */
  lemma SplicedStep(xs: seq<Sym>, rs: seq<Partial>, m: nat)
    requires m < |xs| && KindsAlternate(xs) && OddIncreasing(rs)
    requires KindsAlternate(Spliced(xs, rs, m)) && (|Spliced(xs, rs, m)| % 2 == 1 <==> Open(rs, m))
    ensures KindsAlternate(Spliced(xs, rs, m + 1)) && (|Spliced(xs, rs, m + 1)| % 2 == 1 <==> Open(rs, m + 1))
  {
    Step(xs, rs, m);
    var ys, em := Spliced(xs, rs, m), Emitted(xs, rs, m);
    assert Spliced(xs, rs, m + 1) == ys + em;
    AppendAlternates(ys, em, Open(rs, m), Open(rs, m + 1));
  }

  // ---------------------------------------------------------------- both passes on an alternating expression

  /** Only operators are picked by pass 1, so on an alternating expression it picks odd positions. */
  lemma AlternatingIndexesOdd(xs: seq<Sym>)
    requires Alternating(xs)
    ensures var idx := MultDivIndexes(xs);
      && StrictlyIncreasing(idx)
      && forall j :: 0 <= j < |idx| ==> idx[j] % 2 == 1
  {
    var idx := MultDivIndexes(xs);
    MultDivIndexesExactly(xs);
    forall j | 0 <= j < |idx|
      ensures idx[j] % 2 == 1
    {
      var k := idx[j];
      assert k in idx;
      assert 'x' in "x" && '/' in "/";
    }
  }

  /** Result `j` of pass 1 belongs to operator `idx[j]`. */
  lemma ResultsAt(h: Host, xs: seq<Sym>, idx: seq<int>, minusAsOne: bool)
    requires IndexesIn(xs, idx)
    ensures var rs := MultDivResults(h, xs, idx, minusAsOne);
      forall j :: 0 <= j < |rs| ==> rs[j].at == idx[j]
  {
    var rs := MultDivResults(h, xs, idx, minusAsOne);
    forall j | 0 <= j < |rs|
      ensures rs[j].at == idx[j]
    {
      MultDivResultAt(h, xs, idx, minusAsOne, j);
    }
  }

  /** Results placed at odd, increasing, non-negative positions are `OddIncreasing`. */
  lemma OddIncreasingAt(rs: seq<Partial>, idx: seq<int>)
    requires |rs| == |idx| && StrictlyIncreasing(idx)
    requires forall j :: 0 <= j < |idx| ==> 0 <= idx[j] && idx[j] % 2 == 1
    requires forall j :: 0 <= j < |rs| ==> rs[j].at == idx[j]
    ensures OddIncreasing(rs)
  {
    forall i, j | 0 <= i < j < |rs|
      ensures rs[i].at < rs[j].at
    {
      assert rs[i].at == idx[i] && rs[j].at == idx[j];
    }
  }

  lemma AlternatingResultsOdd(h: Host, xs: seq<Sym>, minusAsOne: bool)
    requires Alternating(xs)
    ensures OddIncreasing(MultDivResults(h, xs, MultDivIndexes(xs), minusAsOne))
  {
    var idx := MultDivIndexes(xs);
    var rs := MultDivResults(h, xs, idx, minusAsOne);
    AlternatingIndexesOdd(xs);
    ResultsAt(h, xs, idx, minusAsOne);
    OddIncreasingAt(rs, idx);
  }

  /** After pass 1 kinds still alternate, and every operator left is `+` or `-`. */
  lemma PassOneAlternates(h: Host, xs: seq<Sym>, minusAsOne: bool)
    requires WritesNumberText(h) && Alternating(xs)
    ensures var ys := PassOne(h, xs, minusAsOne);
      && KindsAlternate(ys)
      && forall p :: 0 <= p < |ys| && ys[p].kind == Operator ==> ys[p].value in {"+", "-"}
  {
    var ys := PassOne(h, xs, minusAsOne);
    var idx := MultDivIndexes(xs);
    PassOneRemovesMultDiv(h, xs, minusAsOne);
    if |idx| > 0 {
      var rs := MultDivResults(h, xs, idx, minusAsOne);
      AlternatingResultsOdd(h, xs, minusAsOne);
      SplicedAlternates(xs, rs, |xs|);
      SplicedElements(xs, rs, |xs|);
      forall p | 0 <= p < |ys| && ys[p].kind == Operator
        ensures ys[p].value in {"+", "-"}
      {
        assert ys[p] in ys;
        assert !IsMultDiv(ys[p]);
      }
    } else {
      forall p | 0 <= p < |ys| && ys[p].kind == Operator
        ensures ys[p].value in {"+", "-"}
      {
        assert ys[p] in ys;
      }
    }
  }

  /**
   * On an alternating expression evaluation never throws: every number
   * pass 2 adds is first or follows a `+` or `-`.
   */
  lemma AlternatingEvaluates(h: Host, xs: seq<Sym>, minusAsOne: bool)
    requires WritesNumberText(h) && Alternating(xs)
    ensures Evaluate(h, xs, minusAsOne).Evaluated?
  {
    PassOneAlternates(h, xs, minusAsOne);
    SumOfPlusMinusIsTotal(h, PassOne(h, xs, minusAsOne));
  }

  /** Pass 2 over alternating kinds whose operators are all `+` or `-` gives a total. */
  lemma SumOfPlusMinusIsTotal(h: Host, ys: seq<Sym>)
    requires KindsAlternate(ys)
    requires forall p :: 0 <= p < |ys| && ys[p].kind == Operator ==> ys[p].value in {"+", "-"}
    ensures SumFold(h, ys, |ys|).Total?
  {
    SumFoldFailsOnlyOnBadOperator(h, ys, |ys|);
    forall p | 0 <= p < |ys| && Counted(ys[p])
      ensures PrecedingOperator(ys, p) in {"+", "-"}
    {
      if p > 0 {
        assert ys[p - 1].kind == Operator;
      }
    }
  }
}
