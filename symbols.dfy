/**
 * One token of an expression (src/scripts/lib/MathSymbol.js): a text value
 * that changes while a number is typed, and a kind fixed at construction.
 */
module Symbols {
  import opened Wrappers

  /** The closed set of symbol types. */
  datatype Kind = Number | Operator | Error

  /** The value of a symbol at one moment. */
  datatype Sym = Sym(value: string, kind: Kind)

  /** The text tag JavaScript callers use for a kind. */
  function TagOf(k: Kind): string {
    match k
    case Number => "number"
    case Operator => "operator"
    case Error => "error"
  }

  /** The kind a tag names, or None for a tag the constructor rejects. */
  function KindOf(tag: string): (r: Option<Kind>)
    ensures r.Some? <==> tag in {"number", "operator", "error"}
    ensures r.Some? ==> TagOf(r.value) == tag
  {
    if tag == "number" then Some(Number)
    else if tag == "operator" then Some(Operator)
    else if tag == "error" then Some(Error)
    else None
  }

  lemma KindTagRoundTrip(k: Kind)
    ensures KindOf(TagOf(k)) == Some(k)
  {
  }

  /** `value.slice(0, -1)`: everything but the last character; "" stays "". */
  function DropLast(s: string): (r: string)
    ensures |s| == 0 ==> r == ""
    ensures |s| > 0 ==> r + [s[|s| - 1]] == s
  {
    if |s| == 0 then s else s[..|s| - 1]
  }

  lemma AppendThenDropLast(s: string, c: char)
    ensures DropLast(s + [c]) == s
  {
    assert (s + [c])[..|s|] == s;
  }

  /** `values.some(v => v.type === 'error')` */
  function SomeIsError(xs: seq<Sym>): (b: bool)
    ensures b <==> exists i :: 0 <= i < |xs| && xs[i].kind == Error
  {
    if xs == [] then false
    else if xs[0].kind == Error then true
    else
      var rest := SomeIsError(xs[1..]);
      assert forall i :: 1 <= i < |xs| ==> xs[i] == xs[1..][i - 1];
      rest
  }

  class MathSymbol {
    var value: string
    const kind: Kind

    constructor (value: string, kind: Kind)
      ensures this.value == value && this.kind == kind
    {
      this.value := value;
      this.kind := kind;
    }

    /** `new MathSymbol(value, type)`, which throws TypeError on an unknown type. */
    static method Create(value: string, tag: string) returns (r: Result<MathSymbol, string>)
      ensures r.Failure? <==> KindOf(tag).None?
      ensures r.Failure? ==> r.error == "TypeError"
      ensures r.Ok? ==> fresh(r.value) && r.value.value == value && r.value.kind == KindOf(tag).value
    {
      match KindOf(tag)
      case None =>
        r := Failure("TypeError");
      case Some(k) =>
        var s := new MathSymbol(value, k);
        r := Ok(s);
    }

    function Snapshot(): Sym
      reads this
    {
      Sym(value, kind)
    }

    /** Adds `digit` at the end of the value and returns the new value. */
    method Append(digit: string) returns (v: string)
      modifies this
      ensures value == old(value) + digit
      ensures v == value
    {
      value := value + digit;
      v := value;
    }

    /** Removes the last character of the value, if any, and returns the new value. */
    method Pop() returns (v: string)
      modifies this
      ensures value == DropLast(old(value))
      ensures old(value) != "" ==> value + [old(value)[|old(value)| - 1]] == old(value)
      ensures v == value
    {
      value := DropLast(value);
      v := value;
    }

    /** Whether the value has no characters left, as after popping its last one. */
    predicate IsEmpty(): (b: bool)
      reads this
      ensures b <==> value == ""
      ensures b ==> DropLast(value) == value
    {
      |value| == 0
    }
  }

  /** Appending one character and popping it again restores the value. */
  method AppendThenPop(s: MathSymbol, c: char)
    modifies s
    ensures s.value == old(s.value)
  {
    var _ := s.Append([c]);
    var _ := s.Pop();
    AppendThenDropLast(old(s.value), c);
  }
}
