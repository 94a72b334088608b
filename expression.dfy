/**
 * The token buffer (src/scripts/lib/Expression.js): an ordered list of live
 * MathSymbol objects. `LastSymbol` hands out the object itself, so a caller
 * that changes it changes the buffer.
 */
module Expressions {
  import opened Wrappers
  import opened Symbols

  class Expression {
    var items: seq<MathSymbol>

    /** No symbol object appears twice, so changing one entry changes only that entry. */
    ghost predicate Valid()
      reads this
    {
      forall i, j :: 0 <= i < j < |items| ==> items[i] != items[j]
    }

    /** The values of the symbols, in order. */
    function Contents(): (r: seq<Sym>)
      reads this, items
      ensures |r| == |items|
      ensures forall i :: 0 <= i < |items| ==> r[i] == Sym(items[i].value, items[i].kind)
    {
      seq(|items|, i requires 0 <= i < |items| reads this, items => items[i].Snapshot())
    }

    constructor ()
      ensures Valid() && items == [] && Contents() == []
      ensures !HasError() && IsEmpty()
    {
      items := [];
    }

    /**
     * The getter `values`. A Dafny sequence is a value: whatever a caller does
     * with the returned list leaves `items` as it was.
     */
    function Values(): (vs: seq<MathSymbol>)
      reads this
      ensures |vs| == |items| && forall i :: 0 <= i < |vs| ==> vs[i] == items[i]
    {
      items
    }

    method AddSymbol(value: string, kind: Kind) returns (s: MathSymbol)
      requires Valid()
      modifies this
      ensures Valid() && fresh(s)
      ensures s.value == value && s.kind == kind
      ensures items == old(items) + [s]
      ensures Contents() == old(Contents()) + [Sym(value, kind)]
    {
      s := new MathSymbol(value, kind);
      items := items + [s];
      assert forall i :: 0 <= i < |old(items)| ==> items[i] == old(items)[i];
    }

    method Clear()
      modifies this
      ensures Valid() && items == [] && Contents() == []
      ensures IsEmpty() && !HasError()
    {
      items := [];
    }

    /** `_values.pop()`: the last symbol, or None (undefined) on an empty list. */
    method RemoveLastSymbol() returns (r: Option<MathSymbol>)
      requires Valid()
      modifies this
      ensures Valid()
      ensures old(items) == [] ==> r == None && items == []
      ensures old(items) != [] ==>
        r == Some(old(items)[|old(items)| - 1]) && items == old(items)[..|old(items)| - 1]
      ensures Contents() == if old(Contents()) == [] then [] else old(Contents())[..|old(Contents())| - 1]
    {
      if items == [] {
        r := None;
      } else {
        r := Some(items[|items| - 1]);
        items := items[..|items| - 1];
      }
    }

    /** The getter `lastSymbol`: the live last object, or None (undefined). */
    function LastSymbol(): (r: Option<MathSymbol>)
      reads this
      ensures r.Some? <==> items != []
      ensures r.Some? ==> r.value == items[|items| - 1] && r.value in items
    {
      if items == [] then None else Some(items[|items| - 1])
    }

    function HasError(): (b: bool)
      reads this, items
      ensures b <==> exists i :: 0 <= i < |items| && items[i].kind == Error
    {
      SomeIsError(Contents())
    }

    function IsEmpty(): (b: bool)
      reads this
      ensures b <==> items == []
    {
      |items| == 0
    }
  }

  /** Adding a symbol and removing the last one gives back the original list. */
  method AddThenRemove(e: Expression, value: string, kind: Kind)
    requires e.Valid()
    modifies e
    ensures e.Valid() && e.items == old(e.items) && e.Contents() == old(e.Contents())
  {
    var s := e.AddSymbol(value, kind);
    var r := e.RemoveLastSymbol();
    assert r == Some(s);
  }
}
