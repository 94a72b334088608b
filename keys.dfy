/**
 * Keyboard normalisation and key classification, for the current engine
 * (src/scripts/calculator.js) and the earlier one (src/js/calculator.js).
 */
module Keys {
  import opened Wrappers

  /** The three entries of the `VALUE_TYPES` table. */
  datatype KeyClass = NumberClass | OperatorClass | ActionClass

  const NumberKeys: seq<string> := ["0", "1", "2", "3", "4", "5", "6", "7", "8", "9", "."]
  const OperatorKeys: seq<string> := ["/", "x", "-", "+"]
  /** Action names after normalisation in the current engine. */
  const ActionKeys: seq<string> := ["equal", "delete"]
  /** Action names of the earlier engine, which keeps the raw key names. */
  const LegacyActionKeys: seq<string> := ["enter", "backspace"]

  /** `VALUE_TYPES`, in its declaration order. */
  const ValueTypes: seq<(KeyClass, seq<string>)> :=
    [(NumberClass, NumberKeys), (OperatorClass, OperatorKeys), (ActionClass, ActionKeys)]
  const LegacyValueTypes: seq<(KeyClass, seq<string>)> :=
    [(NumberClass, NumberKeys), (OperatorClass, OperatorKeys), (ActionClass, LegacyActionKeys)]

  /** `toLowerCase` on the ASCII letters. */
  function LowerChar(c: char): char {
    if 'A' <= c <= 'Z' then (c as int + 32) as char else c
  }

  function Lower(s: string): string {
    seq(|s|, i requires 0 <= i < |s| => LowerChar(s[i]))
  }

  /** Lower-casing twice is lower-casing once. */
  lemma LowerIdempotent(s: string)
    ensures Lower(Lower(s)) == Lower(s)
  {
    assert forall i :: 0 <= i < |s| ==> Lower(Lower(s))[i] == Lower(s)[i];
  }

  /** Only `*` lower-cases to `*`. */
  lemma LowerIsStar(s: string)
    ensures Lower(s) == "*" <==> s == "*"
  {
    if Lower(s) == "*" {
      assert |s| == 1 && Lower(s)[0] == LowerChar(s[0]) == '*';
    }
    if s == "*" {
      assert Lower(s)[0] == '*';
    }
  }

  /** The scan of `Object.entries(VALUE_TYPES)`: the class of the first list holding `key`. */
  function FirstClassHolding(table: seq<(KeyClass, seq<string>)>, key: string): (r: Option<KeyClass>)
    ensures r.None? <==> forall i :: 0 <= i < |table| ==> key !in table[i].1
    ensures r.Some? ==> exists i :: 0 <= i < |table| && table[i].0 == r.value && key in table[i].1
                          && forall j :: 0 <= j < i ==> key !in table[j].1
  {
    if table == [] then None
    else if key in table[0].1 then Some(table[0].0)
    else
      var r := FirstClassHolding(table[1..], key);
      assert forall i :: 1 <= i < |table| ==> table[i] == table[1..][i - 1];
      if r.Some? then
        var i :| 0 <= i < |table[1..]| && table[1..][i].0 == r.value && key in table[1..][i].1
                 && forall j :: 0 <= j < i ==> key !in table[1..][j].1;
        assert table[i + 1].0 == r.value && key in table[i + 1].1;
        r
      else r
  }

  /** `getKeyValuePressed` */
  function NormalizeKey(raw: string): string {
    var key := Lower(raw);
    if key == "*" then "x"
    else if key == "," then "."
    else if key == "enter" then "equal"
    else if key == "backspace" then "delete"
    else key
  }

  /** The renamings of `getKeyValuePressed`, and the one of the earlier engine. */
  lemma NormalizedRenamings()
    ensures NormalizeKey(",") == NormalizeKey(".") == "."
    ensures NormalizeKey("*") == NormalizeKey("x") == "x"
    ensures NormalizeKey("Enter") == NormalizeKey("equal") == "equal"
    ensures NormalizeKey("Backspace") == NormalizeKey("delete") == "delete"
    ensures LegacyNormalizeKey("*") == LegacyNormalizeKey("x") == "x"
  {
    assert Lower(",") == ",";
    assert Lower(".") == ".";
    assert Lower("*") == "*";
    assert Lower("x") == "x";
    assert Lower("Enter") == "enter";
    assert Lower("equal") == "equal";
    assert Lower("Backspace") == "backspace";
    assert Lower("delete") == "delete";
  }

  /** Both normalisations see a key only after lower-casing it. */
  lemma NormalizeIgnoresCase(raw: string)
    ensures NormalizeKey(Lower(raw)) == NormalizeKey(raw)
    ensures LegacyNormalizeKey(Lower(raw)) == LegacyNormalizeKey(raw)
  {
    LowerIdempotent(raw);
    LowerIsStar(raw);
    LowerIsStar(Lower(raw));
  }

  /** `getKeyTypePressed` */
  function ClassifyKey(key: string): Option<KeyClass> {
    FirstClassHolding(ValueTypes, key)
  }

  /** The key handling of the earlier engine: only `*` is renamed. */
  function LegacyNormalizeKey(raw: string): string {
    if raw == "*" then "x" else Lower(raw)
  }

  function LegacyClassifyKey(key: string): Option<KeyClass> {
    FirstClassHolding(LegacyValueTypes, key)
  }

  /** The scan of a three-entry table tries the entries in order. */
  lemma FirstClassOfThree(table: seq<(KeyClass, seq<string>)>, key: string)
    requires |table| == 3
    ensures FirstClassHolding(table, key) ==
      if key in table[0].1 then Some(table[0].0)
      else if key in table[1].1 then Some(table[1].0)
      else if key in table[2].1 then Some(table[2].0)
      else None
  {
    assert table[1..][1..][1..] == [];
  }

  /** Each class is exactly its own key list; every other key has no class. */
  lemma ClassifyKeyExactly(key: string)
    ensures ClassifyKey(key) == Some(NumberClass) <==> key in NumberKeys
    ensures ClassifyKey(key) == Some(OperatorClass) <==> key in OperatorKeys
    ensures ClassifyKey(key) == Some(ActionClass) <==> key in ActionKeys
    ensures ClassifyKey(key) == None <==> key !in NumberKeys + OperatorKeys + ActionKeys
  {
    FirstClassOfThree(ValueTypes, key);
  }

  lemma LegacyClassifyKeyExactly(key: string)
    ensures LegacyClassifyKey(key) == Some(NumberClass) <==> key in NumberKeys
    ensures LegacyClassifyKey(key) == Some(OperatorClass) <==> key in OperatorKeys
    ensures LegacyClassifyKey(key) == Some(ActionClass) <==> key in LegacyActionKeys
    ensures LegacyClassifyKey(key) == None <==> key !in NumberKeys + OperatorKeys + LegacyActionKeys
  {
    FirstClassOfThree(LegacyValueTypes, key);
  }

  /**
   * What a pressed key becomes in the current engine: digits, `.` and `,` are
   * numbers; `/ x - + *` operators; Enter and Backspace (or the names equal and
   * delete) actions; everything else is not handled. Letters match in any case.
   */
  lemma PressedKeyClass(raw: string)
    ensures var k := Lower(raw);
      && (ClassifyKey(NormalizeKey(raw)) == Some(NumberClass) <==> k in NumberKeys || k == ",")
      && (ClassifyKey(NormalizeKey(raw)) == Some(OperatorClass) <==> k in OperatorKeys || k == "*")
      && (ClassifyKey(NormalizeKey(raw)) == Some(ActionClass) <==> k in ["equal", "delete", "enter", "backspace"])
  {
    ClassifyKeyExactly(NormalizeKey(raw));
  }

  /**
   * The earlier engine: `*` is `x`, a key is otherwise only lower-cased, and
   * `,`, `equal` and `delete` are not handled.
   */
  lemma LegacyPressedKeyClass(raw: string)
    ensures var k := LegacyNormalizeKey(raw);
      && (LegacyClassifyKey(k) == Some(NumberClass) <==> Lower(raw) in NumberKeys)
      && (LegacyClassifyKey(k) == Some(OperatorClass) <==> Lower(raw) in OperatorKeys || raw == "*")
      && (LegacyClassifyKey(k) == Some(ActionClass) <==> Lower(raw) in LegacyActionKeys)
  {
    LegacyClassifyKeyExactly(LegacyNormalizeKey(raw));
    if raw == "*" {
      assert Lower(raw) == "*" by { assert Lower(raw)[0] == LowerChar('*'); }
    }
  }
}
