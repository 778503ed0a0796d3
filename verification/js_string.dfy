/** String operations with the meaning of the JavaScript `String` methods the
    code generators call (`startsWith`, `endsWith`, `includes`, `indexOf`,
    `replace` with a string pattern, `split` on one character, `join`,
    `toUpperCase`/`toLowerCase`, `charAt(0)...slice(1)`). Case mapping is
    ASCII-only. */
module JsString {

  predicate IsUpper(c: char) { 'A' <= c <= 'Z' }
  predicate IsLower(c: char) { 'a' <= c <= 'z' }
  predicate IsDigit(c: char) { '0' <= c <= '9' }
  predicate IsAlnum(c: char) { IsUpper(c) || IsLower(c) || IsDigit(c) }

  /** `toUpperCase` of one character. */
  function UpperChar(c: char): char {
    if IsLower(c) then (c as int - 32) as char else c
  }

  /** `toLowerCase` of one character. */
  function LowerChar(c: char): char {
    if IsUpper(c) then (c as int + 32) as char else c
  }

  /** `s.toUpperCase()` */
  function ToUpper(s: string): (r: string)
    ensures |r| == |s|
    ensures forall i :: 0 <= i < |s| ==> !IsLower(r[i])
  {
    seq(|s|, i requires 0 <= i < |s| => UpperChar(s[i]))
  }

  /** `s.toLowerCase()` */
  function ToLower(s: string): (r: string)
    ensures |r| == |s|
    ensures forall i :: 0 <= i < |s| ==> !IsUpper(r[i])
  {
    seq(|s|, i requires 0 <= i < |s| => LowerChar(s[i]))
  }

  /** `s.charAt(0).toUpperCase() + s.slice(1)` */
  function Capitalize(s: string): string {
    if |s| == 0 then "" else [UpperChar(s[0])] + s[1..]
  }

  /** `s.charAt(0).toLowerCase() + s.slice(1)` */
  function LowercaseFirst(s: string): string {
    if |s| == 0 then "" else [LowerChar(s[0])] + s[1..]
  }

  /** Capitalize and LowercaseFirst touch the first character only, and
      undo each other on a name that starts with a letter of the right case. */
  lemma CaseFirstInverse(s: string)
    ensures |Capitalize(s)| == |s| && |LowercaseFirst(s)| == |s|
    ensures |s| > 0 ==> Capitalize(s)[1..] == s[1..] && LowercaseFirst(s)[1..] == s[1..]
    ensures |s| > 0 && IsUpper(s[0]) ==> Capitalize(LowercaseFirst(s)) == s
    ensures |s| > 0 && IsLower(s[0]) ==> LowercaseFirst(Capitalize(s)) == s
    ensures |s| > 0 && IsLower(s[0]) ==> IsUpper(Capitalize(s)[0])
    ensures |s| > 0 && IsUpper(s[0]) ==> IsLower(LowercaseFirst(s)[0])
  {
    if |s| > 0 {
      assert Capitalize(LowercaseFirst(s))[1..] == LowercaseFirst(s)[1..];
      assert LowercaseFirst(Capitalize(s))[1..] == Capitalize(s)[1..];
    }
  }

  /** `s.startsWith(p)` */
  predicate StartsWith(s: string, p: string) {
    |p| <= |s| && s[..|p|] == p
  }

  /** `s.endsWith(p)` */
  predicate EndsWith(s: string, p: string) {
    |p| <= |s| && s[|s| - |p|..] == p
  }

  /** A text starts with what it was built from, and with nothing whose
      first character differs from its own. */
  lemma StartsWithPrepended(p: string, x: string, q: string)
    ensures StartsWith(p + x, p)
    ensures |p| > 0 && |q| > 0 && p[0] != q[0] ==> !StartsWith(p + x, q)
  {
    assert (p + x)[..|p|] == p;
    if |p| > 0 && |q| > 0 && |q| <= |p + x| {
      assert (p + x)[..|q|][0] == p[0];
    }
  }

  /** Ending with a one-character text is a test of the last character. */
  lemma EndsWithChar(s: string, c: char)
    ensures EndsWith(s, [c]) <==> |s| > 0 && s[|s| - 1] == c
  {
    if |s| > 0 {
      assert s[|s| - 1..] == [s[|s| - 1]];
    }
  }

  /** A text ends with what was appended to it, and with nothing whose
      last character differs from its own. */
  lemma EndsWithAppended(a: string, p: string, q: string)
    ensures EndsWith(a + p, p)
    ensures |a + p| > 0 && |q| > 0 && (a + p)[|a + p| - 1] != q[|q| - 1] ==> !EndsWith(a + p, q)
  {
    assert (a + p)[|a|..] == p;
    if |q| > 0 && |q| <= |a + p| {
      assert (a + p)[|a + p| - |q|..][|q| - 1] == (a + p)[|a + p| - 1];
    }
  }

  /** `s.indexOf(p)`: the first position where `p` occurs, or -1. */
  function IndexOf(s: string, p: string): (i: int)
    ensures i == -1 || 0 <= i <= |s| - |p|
    decreases |s|
  {
    if StartsWith(s, p) then 0
    else if |s| == 0 then -1
    else
      var k := IndexOf(s[1..], p);
      if k < 0 then -1 else k + 1
  }

  /** IndexOf finds an occurrence, and no earlier one exists. */
  lemma {:induction false} IndexOfFirst(s: string, p: string)
    ensures var i := IndexOf(s, p);
      && (i >= 0 ==> StartsWith(s[i..], p))
      && (forall j :: 0 <= j <= |s| && (i == -1 || j < i) ==> !StartsWith(s[j..], p))
    decreases |s|
  {
    if !StartsWith(s, p) && |s| > 0 {
      IndexOfFirst(s[1..], p);
      assert forall j :: 1 <= j <= |s| ==> s[j..] == s[1..][j - 1..];
    }
  }

  /** When no occurrence of `p` starts inside `x`, searching `x + y`
      finds the first occurrence in `y`, shifted past `x`. */
  lemma {:induction false} IndexOfAfter(x: string, y: string, p: string)
    requires forall j :: 0 <= j < |x| ==> !StartsWith((x + y)[j..], p)
    ensures IndexOf(x + y, p) == if IndexOf(y, p) < 0 then -1 else |x| + IndexOf(y, p)
    decreases |x|
  {
    if |x| == 0 {
      assert x + y == y;
    } else {
      assert (x + y)[0..] == x + y;
      assert (x + y)[1..] == x[1..] + y;
      forall j | 0 <= j < |x[1..]|
        ensures !StartsWith((x[1..] + y)[j..], p)
      {
        assert (x[1..] + y)[j..] == (x + y)[j + 1..];
      }
      IndexOfAfter(x[1..], y, p);
    }
  }

  /** `s.includes(p)` */
  predicate Includes(s: string, p: string) {
    IndexOf(s, p) >= 0
  }

  /** An occurrence anywhere makes `includes` true. */
  lemma IncludesAt(s: string, p: string, j: nat)
    requires j <= |s| && StartsWith(s[j..], p)
    ensures Includes(s, p)
  {
    IndexOfFirst(s, p);
  }

  /** When the character `p[k]` occurs in `s` only where `p` cannot fit
      around it, `s` does not include `p`. */
  lemma NotIncludesByChar(s: string, p: string, k: nat)
    requires k < |p|
    requires forall i :: 0 <= i < |s| && s[i] == p[k] ==> i < k || |s| < i - k + |p|
    ensures !Includes(s, p)
  {
    IndexOfFirst(s, p);
    forall j | 0 <= j <= |s|
      ensures !StartsWith(s[j..], p)
    {
      if j + |p| <= |s| {
        assert s[j..][..|p|][k] == s[j + k];
      }
    }
  }

  /** `s.replace(p, rep)` with a string pattern: only the first occurrence
      of `p` is replaced. */
  function ReplaceFirst(s: string, p: string, rep: string): string {
    var i := IndexOf(s, p);
    if i < 0 then s else s[..i] + rep + s[i + |p|..]
  }

  /** Replacing a prefix by nothing strips it. */
  lemma ReplaceFirstPrefix(p: string, x: string)
    ensures ReplaceFirst(p + x, p, "") == x
  {
    StartsWithPrepended(p, x, p);
    assert IndexOf(p + x, p) == 0;
    assert (p + x)[|p|..] == x;
  }

  /** Removing the first occurrence of `p` from `a + p + b`, where `p` does
      not occur earlier, leaves `a + b`. */
  lemma ReplaceFirstRemoves(a: string, p: string, b: string)
    requires forall j :: 0 <= j < |a| ==> !StartsWith((a + p + b)[j..], p)
    ensures ReplaceFirst(a + p + b, p, "") == a + b
  {
    var s := a + p + b;
    assert s[|a|..] == p + b;
    assert StartsWith(s[|a|..], p);
    IndexOfFirst(s, p);
    var i := IndexOf(s, p);
    assert i >= 0;
    assert StartsWith(s[i..], p);
    assert i == |a|;
    assert s[..i] == a;
    assert s[i + |p|..] == b;
  }

  /** Removing the first occurrence of `p` from `a + p`, where `a` does not
      contain the first character of `p`, leaves `a`. */
  lemma ReplaceFirstRemovesSuffix(a: string, p: string)
    requires |p| > 0 && p[0] !in a
    ensures ReplaceFirst(a + p, p, "") == a
  {
    forall j | 0 <= j < |a|
      ensures !StartsWith((a + p + "")[j..], p)
    {
      assert (a + p + "")[j..][0] == a[j];
    }
    ReplaceFirstRemoves(a, p, "");
    assert a + "" == a;
    assert a + p + "" == a + p;
  }

  /** `s.split(c)` for a one-character separator: the pieces between the
      occurrences of `c`; never empty (the empty string splits to `[""]`). */
  function Split(s: string, c: char): (parts: seq<string>)
    ensures |parts| >= 1
    ensures forall i :: 0 <= i < |parts| ==> c !in parts[i]
    decreases |s|
  {
    if |s| == 0 then [""]
    else
      var rest := Split(s[1..], c);
      if s[0] == c then [""] + rest
      else [[s[0]] + rest[0]] + rest[1..]
  }

  /** `parts.join(sep)` */
  function Join(parts: seq<string>, sep: string): string
    decreases |parts|
  {
    if |parts| == 0 then ""
    else if |parts| == 1 then parts[0]
    else parts[0] + sep + Join(parts[1..], sep)
  }

  /** JavaScript's `xs[i]` used inside a template literal: past the end it
      reads `undefined`, which renders as the text "undefined". */
  function At(xs: seq<string>, i: nat): string {
    if i < |xs| then xs[i] else "undefined"
  }

  /** The text before the first `c` (all of `s` when there is none). */
  function Head(s: string, c: char): string {
    Split(s, c)[0]
  }

  lemma HeadUnfold(s: string, c: char)
    ensures |s| == 0 ==> Head(s, c) == ""
    ensures |s| > 0 && s[0] == c ==> Head(s, c) == ""
    ensures |s| > 0 && s[0] != c ==> Head(s, c) == [s[0]] + Head(s[1..], c)
  {
  }

  /** Cutting at the first `a` and then at the first `b` is the same as
      cutting in the other order: both stop at the first `a` or `b`. */
  lemma {:induction false} HeadCommute(s: string, a: char, b: char)
    ensures Head(Head(s, a), b) == Head(Head(s, b), a)
    decreases |s|
  {
    HeadUnfold(s, a);
    HeadUnfold(s, b);
    if |s| == 0 {
      HeadUnfold("", a);
      HeadUnfold("", b);
    } else if s[0] == a || s[0] == b {
      var x, y := Head(s, a), Head(s, b);
      HeadUnfold(x, b);
      HeadUnfold(y, a);
      HeadUnfold("", a);
      HeadUnfold("", b);
    } else {
      var x, y := Head(s, a), Head(s, b);
      HeadUnfold(x, b);
      HeadUnfold(y, a);
      assert x[1..] == Head(s[1..], a);
      assert y[1..] == Head(s[1..], b);
      HeadCommute(s[1..], a, b);
    }
  }

  /** A string without the separator splits to itself. */
  lemma {:induction false} SplitNoSeparator(s: string, c: char)
    requires c !in s
    ensures Split(s, c) == [s]
    decreases |s|
  {
    if |s| > 0 {
      assert c !in s[1..];
      SplitNoSeparator(s[1..], c);
      assert [s[0]] + s[1..] == s;
    }
  }

  /** A prefix free of the separator is glued to the first piece. */
  lemma {:induction false} SplitGluedPrefix(a: string, b: string, c: char)
    requires c !in a
    ensures Split(a + b, c) == [a + Split(b, c)[0]] + Split(b, c)[1..]
    decreases |a|
  {
    if |a| > 0 {
      assert (a + b)[1..] == a[1..] + b;
      assert c !in a[1..];
      SplitGluedPrefix(a[1..], b, c);
      assert [a[0]] + (a[1..] + Split(b, c)[0]) == a + Split(b, c)[0];
    } else {
      var parts := Split(b, c);
      assert a + b == b;
      assert a + parts[0] == parts[0];
      assert [parts[0]] + parts[1..] == parts;
    }
  }

  /** The first occurrence of the separator closes the first piece. */
  lemma SplitAtSeparator(a: string, b: string, c: char)
    requires c !in a
    ensures Split(a + [c] + b, c) == [a] + Split(b, c)
  {
    assert a + [c] + b == a + ([c] + b);
    SplitGluedPrefix(a, [c] + b, c);
    assert ([c] + b)[1..] == b;
    assert Split([c] + b, c) == [""] + Split(b, c);
    assert a + "" == a;
  }

  /** Splitting and joining back with the same separator is the identity. */
  lemma {:induction false} JoinSplit(s: string, c: char)
    ensures Join(Split(s, c), [c]) == s
    decreases |s|
  {
    if |s| > 0 {
      var rest := Split(s[1..], c);
      JoinSplit(s[1..], c);
      if s[0] == c {
        assert ([""] + rest)[1..] == rest;
        assert s == [c] + s[1..];
      } else if |rest| == 1 {
        assert s == [s[0]] + s[1..];
      } else {
        var parts := [[s[0]] + rest[0]] + rest[1..];
        assert parts[1..] == rest[1..];
        assert Join(rest, [c]) == rest[0] + [c] + Join(rest[1..], [c]);
        assert s == [s[0]] + s[1..];
      }
    }
  }

  /** Joining separator-free pieces and splitting again gives the pieces
      back: the converse of JoinSplit. */
  lemma {:induction false} SplitJoin(parts: seq<string>, c: char)
    requires |parts| >= 1
    requires forall i :: 0 <= i < |parts| ==> c !in parts[i]
    ensures Split(Join(parts, [c]), c) == parts
    decreases |parts|
  {
    if |parts| == 1 {
      SplitNoSeparator(parts[0], c);
    } else {
      SplitJoin(parts[1..], c);
      SplitAtSeparator(parts[0], Join(parts[1..], [c]), c);
      assert [parts[0]] + parts[1..] == parts;
    }
  }

  /** A character in none of the pieces and different from the separator is
      not in their join. */
  lemma {:induction false} JoinAvoids(parts: seq<string>, sep: string, d: char)
    requires d !in sep
    requires forall i :: 0 <= i < |parts| ==> d !in parts[i]
    ensures d !in Join(parts, sep)
    decreases |parts|
  {
    if |parts| > 1 {
      JoinAvoids(parts[1..], sep, d);
    }
  }

  /** The text of a generated file: each line followed by a newline. */
  function Text(lines: seq<string>): string
    decreases |lines|
  {
    if |lines| == 0 then "" else lines[0] + "\n" + Text(lines[1..])
  }

  lemma {:induction false} TextAppend(a: seq<string>, b: seq<string>)
    ensures Text(a + b) == Text(a) + Text(b)
    decreases |a|
  {
    if |a| == 0 {
      assert a + b == b;
    } else {
      assert (a + b)[1..] == a[1..] + b;
      TextAppend(a[1..], b);
    }
  }

  /** A generated text ends in a newline unless it is empty. */
  lemma {:induction false} TextEndsWithNewline(lines: seq<string>)
    requires |lines| > 0
    ensures EndsWith(Text(lines), "\n")
    decreases |lines|
  {
    if |lines| > 1 {
      TextEndsWithNewline(lines[1..]);
    }
  }

  /** `parts.join('')` */
  function Concat(parts: seq<string>): string
    decreases |parts|
  {
    if |parts| == 0 then "" else parts[0] + Concat(parts[1..])
  }

  // ---------------------------------------------------------------------
  // Numbers and their decimal digits

  function DigitValue(c: char): nat {
    if IsDigit(c) then c as int - '0' as int
    else if 'a' <= c <= 'f' then c as int - 'a' as int + 10
    else if 'A' <= c <= 'F' then c as int - 'A' as int + 10
    else 0
  }

  /** The value of a digit string, most significant digit first. */
  function DigitsValue(ds: string, radix: nat): nat
    decreases |ds|
  {
    if |ds| == 0 then 0 else DigitsValue(ds[..|ds| - 1], radix) * radix + DigitValue(ds[|ds| - 1])
  }

  /** `String(n)` for a natural number: its decimal digits, with no
      leading zero. */
  function Decimal(n: nat): (r: string)
    ensures |r| > 0
    ensures forall k :: 0 <= k < |r| ==> IsDigit(r[k])
    decreases n
  {
    if n < 10 then [('0' as int + n) as char]
    else Decimal(n / 10) + [('0' as int + n % 10) as char]
  }

  lemma DigitOf(k: nat)
    requires k < 10
    ensures IsDigit(('0' as int + k) as char)
    ensures DigitValue(('0' as int + k) as char) == k
  {
  }

  /** A number's decimal digits read back as the number. */
  lemma {:induction false} DecimalValue(n: nat)
    ensures DigitsValue(Decimal(n), 10) == n
    ensures n > 0 ==> Decimal(n)[0] != '0'
    decreases n
  {
    if n < 10 {
      DigitOf(n);
    } else {
      var s := Decimal(n / 10);
      var r := Decimal(n);
      DigitOf(n % 10);
      DecimalValue(n / 10);
      assert r == s + [('0' as int + n % 10) as char];
      assert r[..|r| - 1] == s;
      assert r[0] == s[0];
    }
  }

  /** Decimal digits without a leading zero. */
  predicate IsCanonicalDecimal(ds: string) {
    && |ds| > 0
    && (forall k :: 0 <= k < |ds| ==> IsDigit(ds[k]))
    && (ds[0] != '0' || |ds| == 1)
  }

  /** A digit string that does not start with `0` has a positive value. */
  lemma {:induction false} LeadingDigitPositive(ds: string)
    requires |ds| > 0 && ds[0] != '0'
    requires forall k :: 0 <= k < |ds| ==> IsDigit(ds[k])
    ensures DigitsValue(ds, 10) > 0
    decreases |ds|
  {
    if |ds| > 1 {
      LeadingDigitPositive(ds[..|ds| - 1]);
    }
  }

  /** The other direction of `DecimalValue`: writing the value of decimal
      digits without a leading zero gives the same digits back. */
  lemma {:induction false} DecimalOfValue(ds: string)
    requires IsCanonicalDecimal(ds)
    ensures Decimal(DigitsValue(ds, 10)) == ds
    decreases |ds|
  {
    var n := DigitsValue(ds, 10);
    var d := ds[|ds| - 1];
    assert DigitValue(d) == d as int - '0' as int < 10;
    if |ds| == 1 {
      assert ds[..|ds| - 1] == [];
      assert DigitsValue(ds, 10) == DigitsValue(ds[..|ds| - 1], 10) * 10 + DigitValue(d);
      assert ('0' as int + n) as char == d;
    } else {
      var init := ds[..|ds| - 1];
      assert init[0] == ds[0];
      LeadingDigitPositive(init);
      DecimalOfValue(init);
      var v := DigitsValue(init, 10);
      assert n == v * 10 + DigitValue(d);
      assert n / 10 == v && n % 10 == DigitValue(d);
      assert ('0' as int + n % 10) as char == d;
      assert ds == init + [d];
    }
  }

  /** Exactly the canonical digit strings are the decimal form of a
      number. */
  lemma CanonicalIsDecimal(ds: string)
    ensures IsCanonicalDecimal(ds) <==> Decimal(DigitsValue(ds, 10)) == ds
  {
    if IsCanonicalDecimal(ds) {
      DecimalOfValue(ds);
    } else if Decimal(DigitsValue(ds, 10)) == ds {
      DecimalValue(DigitsValue(ds, 10));
    }
  }
}
