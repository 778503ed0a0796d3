/** The parts of JavaScript's plain objects the generators depend on: the
    properties every object inherits from `Object.prototype`, and which
    property keys are array indices, the keys `Object.entries` lists
    before all others (section 10.1.11.1 of ECMA-262, OrdinaryOwnPropertyKeys:
    array indices in ascending numeric order, then the other string keys
    in the order they were created). */
module JsObject {
  import opened JsString

  /** The properties every plain object inherits. Looking one of them up
      on an object that never set it finds a truthy value: a function, or
      for `__proto__` the prototype object itself. None of them is an
      array, so none has a `push` method. */
  const ObjectPrototypeKeys: set<string> := {
    "constructor", "__proto__", "toString", "toLocaleString", "valueOf",
    "hasOwnProperty", "isPrototypeOf", "propertyIsEnumerable",
    "__defineGetter__", "__defineSetter__", "__lookupGetter__", "__lookupSetter__"
  }

  /** Array indices are below 2^32 - 1. */
  const ArrayIndexBound: nat := 4294967295

  /** An array index: decimal digits without a leading zero, of a value
      below 2^32 - 1. */
  predicate IsArrayIndex(key: string) {
    IsCanonicalDecimal(key) && IndexValue(key) < ArrayIndexBound
  }

  /** The number an array-index key stands for. */
  function IndexValue(key: string): nat {
    DigitsValue(key, 10)
  }

  /** The definition of section 6.1.7 of ECMA-262: a key `P` is an array
      index when `ToString(ToUint32(P))` is `P` and the number is not
      2^32 - 1, that is, when `P` is the decimal form of a number below
      the bound. */
  lemma ArrayIndexIsDecimal(key: string)
    ensures IsArrayIndex(key) <==>
      && |key| > 0
      && (forall k :: 0 <= k < |key| ==> IsDigit(key[k]))
      && IndexValue(key) < ArrayIndexBound
      && Decimal(IndexValue(key)) == key
  {
    CanonicalIsDecimal(key);
  }

  /** Two array indices with the same number are the same key, so the
      numeric order of array indices is a strict order on keys. */
  lemma ArrayIndexInjective(a: string, b: string)
    requires IsArrayIndex(a) && IsArrayIndex(b) && a != b
    ensures IndexValue(a) != IndexValue(b)
  {
    DecimalOfValue(a);
    DecimalOfValue(b);
  }

  /** A key that starts with a letter is never an array index. */
  lemma LetterKeyNotIndex(key: string)
    requires |key| > 0 && (IsUpper(key[0]) || IsLower(key[0]))
    ensures !IsArrayIndex(key)
  {
  }

  /** `"1"` and `"42"` are array indices; `"01"` and `"4294967295"` are not. */
  lemma ArrayIndexExamples()
    ensures IsArrayIndex("1") && IndexValue("1") == 1
    ensures IsArrayIndex("42") && IndexValue("42") == 42
    ensures !IsArrayIndex("01")
    ensures !IsArrayIndex("4294967295")
  {
    assert DigitsValue("4", 10) == 4;
    assert "42"[..1] == "4";
    assert IndexValue("42") == 42;
    assert "01"[0] == '0';
    var big := "4294967295";
    assert IndexValue(big) == 4294967295 by {
      assert DigitsValue("4", 10) == 4;
      assert "42"[..1] == "4";
      assert DigitsValue("42", 10) == 42;
      assert "429"[..2] == "42";
      assert DigitsValue("429", 10) == 429;
      assert "4294"[..3] == "429";
      assert DigitsValue("4294", 10) == 4294;
      assert "42949"[..4] == "4294";
      assert DigitsValue("42949", 10) == 42949;
      assert "429496"[..5] == "42949";
      assert DigitsValue("429496", 10) == 429496;
      assert "4294967"[..6] == "429496";
      assert DigitsValue("4294967", 10) == 4294967;
      assert "42949672"[..7] == "4294967";
      assert DigitsValue("42949672", 10) == 42949672;
      assert "429496729"[..8] == "42949672";
      assert DigitsValue("429496729", 10) == 429496729;
      assert "4294967295"[..9] == "429496729";
      assert DigitsValue("4294967295", 10) == 4294967295;
    }
  }
}
