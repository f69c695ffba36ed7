/**
  The JavaScript string built-ins the core relies on, written as functions on
  `string`: `trim`, `split` on one character, `includes`, `substring(0, k)`,
  `String(n)` for integers, and the integer part of `parseFloat` and `Number`.
 */
module JsText {
  import opened Wrappers

  /** The white space and line terminators that `String.prototype.trim` strips
      (the WhiteSpace and LineTerminator productions of ECMAScript). */
  predicate IsSpace(c: char) {
    var n := c as int;
    n == 0x09 || n == 0x0A || n == 0x0B || n == 0x0C || n == 0x0D || n == 0x20 ||
    n == 0xA0 || n == 0x1680 || (0x2000 <= n <= 0x200A) || n == 0x2028 ||
    n == 0x2029 || n == 0x202F || n == 0x205F || n == 0x3000 || n == 0xFEFF
  }

  predicate AllSpace(s: string) {
    forall k :: 0 <= k < |s| ==> IsSpace(s[k])
  }

  /** `s.trimStart()`: the suffix left after removing leading white space. */
  function TrimStart(s: string): (r: string)
    ensures |r| <= |s|
  {
    if |s| > 0 && IsSpace(s[0]) then TrimStart(s[1..]) else s
  }

  /** `trimStart` removes exactly the leading white space. */
  lemma {:induction false} TrimStartSpec(s: string)
    ensures var r := TrimStart(s);
      && r == s[|s| - |r|..]
      && AllSpace(s[..|s| - |r|])
      && (r != [] ==> !IsSpace(r[0]))
  {
    if |s| > 0 && IsSpace(s[0]) {
      TrimStartSpec(s[1..]);
      var r := TrimStart(s);
      assert s[..|s| - |r|] == [s[0]] + s[1..][..|s| - 1 - |r|];
    }
  }

  /** `s.trimEnd()`: the prefix left after removing trailing white space. */
  function TrimEnd(s: string): (r: string)
    ensures |r| <= |s|
  {
    if |s| > 0 && IsSpace(s[|s| - 1]) then TrimEnd(s[..|s| - 1]) else s
  }

  /** `trimEnd` removes exactly the trailing white space. */
  lemma {:induction false} TrimEndSpec(s: string)
    ensures var r := TrimEnd(s);
      && r == s[..|r|]
      && AllSpace(s[|r|..])
      && (r != [] ==> !IsSpace(r[|r| - 1]))
  {
    if |s| > 0 && IsSpace(s[|s| - 1]) {
      TrimEndSpec(s[..|s| - 1]);
      var r := TrimEnd(s);
      assert s[|r|..] == s[..|s| - 1][|r|..] + [s[|s| - 1]];
    }
  }

  /** `s.trim()`. */
  function Trim(s: string): string {
    TrimEnd(TrimStart(s))
  }

  /** `s.trim()` cuts `s` into white space, the result, and white space, and the
      result neither starts nor ends with white space. */
  lemma TrimSplitsInput(s: string)
    ensures exists i, j :: 0 <= i <= j <= |s| && Trim(s) == s[i..j] && AllSpace(s[..i]) && AllSpace(s[j..])
    ensures Trim(s) != [] ==> !IsSpace(Trim(s)[0]) && !IsSpace(Trim(s)[|Trim(s)| - 1])
  {
    var t := TrimStart(s);
    TrimStartSpec(s);
    TrimEndSpec(t);
    var i := |s| - |t|;
    var u := TrimEnd(t);
    var j := i + |u|;
    assert t == s[i..];
    assert u == t[..|u|];
    assert t[..|u|] == s[i..j];
    assert Trim(s) == s[i..j];
    assert s[j..] == t[|TrimEnd(t)|..];
    assert AllSpace(s[..i]) && AllSpace(s[j..]);
  }

  lemma {:induction false} TrimStartOfTrimmed(s: string)
    requires s == [] || !IsSpace(s[0])
    ensures TrimStart(s) == s
  {
  }

  lemma {:induction false} TrimEndOfTrimmed(s: string)
    requires s == [] || !IsSpace(s[|s| - 1])
    ensures TrimEnd(s) == s
  {
  }

  /** Trimming twice is trimming once. */
  lemma TrimIdempotent(s: string)
    ensures Trim(Trim(s)) == Trim(s)
  {
    var t := Trim(s);
    TrimSplitsInput(s);
    TrimStartOfTrimmed(t);
    TrimEndOfTrimmed(t);
  }

  /** The inverse of `Split`: the pieces glued back together with `sep`. */
  function Join(parts: seq<string>, sep: char): string
  {
    if parts == [] then ""
    else if |parts| == 1 then parts[0]
    else parts[0] + [sep] + Join(parts[1..], sep)
  }

  /** `s.split(sep)` for a one-character separator; `SplitJoin` states what the
      pieces are. */
  function Split(s: string, sep: char): (parts: seq<string>)
    ensures |parts| >= 1
  {
    if |s| == 0 then [""]
    else
      var rest := Split(s[1..], sep);
      if s[0] == sep then [""] + rest
      else [[s[0]] + rest[0]] + rest[1..]
  }

  /** `split` cuts `s` at every separator: no piece contains it, and joining
      the pieces with it gives `s` back. */
  lemma {:induction false} SplitJoin(s: string, sep: char)
    ensures forall k :: 0 <= k < |Split(s, sep)| ==> sep !in Split(s, sep)[k]
    ensures Join(Split(s, sep), sep) == s
  {
    if |s| > 0 {
      var rest := Split(s[1..], sep);
      SplitJoin(s[1..], sep);
      var parts := Split(s, sep);
      if s[0] == sep {
        assert parts[1..] == rest;
      } else {
        assert parts == [[s[0]] + rest[0]] + rest[1..];
        assert parts[1..] == rest[1..];
        assert sep !in parts[0];
        assert |rest| > 1 ==> Join(rest, sep) == rest[0] + [sep] + Join(rest[1..], sep);
        assert s == [s[0]] + s[1..];
      }
    }
  }

  /** A text without the separator is one piece. */
  lemma {:induction false} SplitWithoutSeparator(s: string, sep: char)
    requires sep !in s
    ensures Split(s, sep) == [s]
  {
    if s != [] {
      SplitWithoutSeparator(s[1..], sep);
      assert s == [s[0]] + s[1..];
    }
  }

  /** A separator after a piece without one starts the next piece. */
  lemma {:induction false} SplitAtSeparator(a: string, b: string, sep: char)
    requires sep !in a
    ensures Split(a + [sep] + b, sep) == [a] + Split(b, sep)
  {
    if a == [] {
      assert a + [sep] + b == [sep] + b;
      assert ([sep] + b)[1..] == b;
    } else {
      SplitAtSeparator(a[1..], b, sep);
      assert (a + [sep] + b)[1..] == a[1..] + [sep] + b;
      assert a == [a[0]] + a[1..];
    }
  }

  /** A text splits into two or more pieces exactly when it contains the separator. */
  lemma SplitHasSeveralPieces(s: string, sep: char)
    ensures |Split(s, sep)| >= 2 <==> sep in s
  {
    var parts := Split(s, sep);
    SplitJoin(s, sep);
    if |parts| >= 2 {
      assert s == parts[0] + [sep] + Join(parts[1..], sep);
      assert s[|parts[0]|] == sep;
    } else {
      assert s == parts[0];
    }
  }

  /** `part` occurs in `s` starting at position `i`. */
  predicate OccursAt(s: string, part: string, i: int) {
    0 <= i <= |s| - |part| && s[i..i + |part|] == part
  }

  /** `s.includes(part)`. */
  predicate Contains(s: string, part: string)
    decreases |s|
  {
    part <= s || (|s| > 0 && Contains(s[1..], part))
  }

  /** `includes` finds `part` exactly when it occurs at some position of `s`. */
  lemma {:induction false} ContainsAt(s: string, part: string)
    ensures Contains(s, part) <==> exists i :: OccursAt(s, part, i)
  {
    if part <= s {
      assert OccursAt(s, part, 0);
    } else if |s| == 0 {
    } else {
      ContainsAt(s[1..], part);
      if Contains(s[1..], part) {
        var i :| OccursAt(s[1..], part, i);
        assert s[i + 1..i + 1 + |part|] == s[1..][i..i + |part|];
        assert OccursAt(s, part, i + 1);
      }
      if exists i :: OccursAt(s, part, i) {
        var i :| OccursAt(s, part, i);
        assert i != 0;
        assert s[1..][i - 1..i - 1 + |part|] == s[i..i + |part|];
        assert OccursAt(s[1..], part, i - 1);
      }
    }
  }

  /** Whatever surrounds `part`, the text includes it. */
  lemma ContainsInfix(a: string, part: string, b: string)
    ensures Contains(a + part + b, part)
  {
    var s := a + part + b;
    assert s[|a|..|a| + |part|] == part;
    assert OccursAt(s, part, |a|);
    ContainsAt(s, part);
  }

  /** `s.substring(0, k)`: the first `k` characters, or all of `s` when it is shorter. */
  function Prefix(s: string, k: nat): (r: string)
    ensures r <= s
    ensures |r| == if |s| < k then |s| else k
  {
    if |s| <= k then s else s[..k]
  }

  predicate IsDigit(c: char) {
    '0' <= c <= '9'
  }

  predicate AllDigits(s: string) {
    forall k :: 0 <= k < |s| ==> IsDigit(s[k])
  }

  function DigitValue(c: char): (v: nat)
    requires IsDigit(c)
    ensures v < 10
  {
    c as int - '0' as int
  }

  function DigitChar(v: nat): (c: char)
    requires v < 10
    ensures IsDigit(c) && DigitValue(c) == v
  {
    ('0' as int + v) as char
  }

  /** The value of a string of decimal digits, most significant first. */
  function DigitsValue(d: string): nat
    requires AllDigits(d)
  {
    if d == [] then 0 else DigitsValue(d[..|d| - 1]) * 10 + DigitValue(d[|d| - 1])
  }

  /** The decimal digits of `n` without leading zeros; their value is `n`. */
  function NatDigits(n: nat): (d: string)
    ensures |d| >= 1 && AllDigits(d) && DigitsValue(d) == n
    ensures d[0] != '0' || n == 0
  {
    if n < 10 then [DigitChar(n)]
    else
      var d := NatDigits(n / 10) + [DigitChar(n % 10)];
      assert d[..|d| - 1] == NatDigits(n / 10);
      d
  }

  /** `String(n)` for an integer `n`. */
  function IntToString(n: int): string {
    if n < 0 then "-" + NatDigits(-n) else NatDigits(n)
  }

  /** The longest prefix of `s` made of decimal digits. */
  function LeadingDigits(s: string): (d: string)
    ensures d <= s && AllDigits(d)
    ensures |d| < |s| ==> !IsDigit(s[|d|])
  {
    if s != [] && IsDigit(s[0]) then [s[0]] + LeadingDigits(s[1..]) else []
  }

  lemma {:induction false} LeadingDigitsOf(d: string, rest: string)
    requires AllDigits(d)
    requires rest == [] || !IsDigit(rest[0])
    ensures LeadingDigits(d + rest) == d
  {
    if d != [] {
      assert (d + rest)[1..] == d[1..] + rest;
      LeadingDigitsOf(d[1..], rest);
    } else {
      assert d + rest == rest;
    }
  }

  /** The integer value of an optional sign followed by digits, or `None` when
      there is no digit after the sign. */
  function SignedDigits(t: string): Option<int> {
    if t != [] && (t[0] == '+' || t[0] == '-') then
      var d := LeadingDigits(t[1..]);
      var v: int := if d == [] then 0 else DigitsValue(d);
      if d == [] then None else Some(if t[0] == '-' then -v else v)
    else
      var d := LeadingDigits(t);
      if d == [] then None else Some(DigitsValue(d))
  }

  /** `t` starts with a digit, or with a sign followed by a digit. */
  predicate StartsNumber(t: string) {
    t != [] && (IsDigit(t[0]) || (|t| > 1 && (t[0] == '+' || t[0] == '-') && IsDigit(t[1])))
  }

  /** `Number.parseFloat(s)` restricted to integers: leading white space is
      skipped, then an optional sign and the longest run of digits give the
      value; anything after them is ignored. `None` stands for `NaN`. */
  function ParseNumberPrefix(s: string): Option<int> {
    SignedDigits(TrimStart(s))
  }

  /** `parseFloat` finds a number exactly when, after the leading white space,
      the text starts with a digit or with a sign and a digit. */
  lemma ParseNumberPrefixFinds(s: string)
    ensures ParseNumberPrefix(s).Some? <==> StartsNumber(TrimStart(s))
  {
    var t := TrimStart(s);
    if t != [] && (t[0] == '+' || t[0] == '-') && |t| > 1 {
      assert t[1..][0] == t[1];
    }
  }

  /** Digits followed by text that does not continue them read back as their
      value, with or without a minus sign in front. */
  lemma UnsignedDigitsRead(d: string, rest: string)
    requires d != [] && AllDigits(d)
    requires rest == [] || !IsDigit(rest[0])
    ensures SignedDigits(d + rest) == Some(DigitsValue(d) as int)
  {
    LeadingDigitsOf(d, rest);
    assert (d + rest)[0] == d[0];
  }

  lemma NegatedDigitsRead(d: string, rest: string)
    requires d != [] && AllDigits(d)
    requires rest == [] || !IsDigit(rest[0])
    ensures SignedDigits(['-'] + (d + rest)) == Some(-(DigitsValue(d) as int))
  {
    var t := ['-'] + (d + rest);
    assert t != [] && t[0] == '-';
    assert t[1..] == d + rest;
    LeadingDigitsOf(d, rest);
    assert LeadingDigits(t[1..]) == d;
  }

  lemma SignedDigitsOfIntToString(n: int, rest: string)
    requires rest == [] || !IsDigit(rest[0])
    ensures SignedDigits(IntToString(n) + rest) == Some(n)
  {
    if n < 0 {
      var d := NatDigits(-n);
      assert IntToString(n) == ['-'] + d;
      assert IntToString(n) + rest == ['-'] + (d + rest);
      NegatedDigitsRead(d, rest);
      assert -(DigitsValue(d) as int) == n;
    } else {
      assert IntToString(n) == NatDigits(n);
      UnsignedDigitsRead(NatDigits(n), rest);
    }
  }

  /** `parseFloat` reads back what `String` wrote, whatever follows the number
      as long as it does not start with a digit. */
  lemma ParseNumberPrefixOfIntToString(n: int, rest: string)
    requires rest == [] || !IsDigit(rest[0])
    ensures ParseNumberPrefix(IntToString(n) + rest) == Some(n)
  {
    var s := IntToString(n) + rest;
    assert s[0] == '-' || IsDigit(s[0]);
    TrimStartOfTrimmed(s);
    SignedDigitsOfIntToString(n, rest);
  }

  /** An optional sign followed by one or more decimal digits. */
  predicate IntegerLiteral(t: string) {
    var body := if t != [] && (t[0] == '+' || t[0] == '-') then t[1..] else t;
    body != [] && AllDigits(body)
  }

  /** `Number(s)` restricted to integers: the trimmed text must be empty (giving
      0) or consist of an optional sign and one or more digits. `None` stands
      for `NaN`. */
  function StringToNumber(s: string): (r: Option<int>)
    ensures Trim(s) == [] ==> r == Some(0)
  {
    var t := Trim(s);
    if t == [] then Some(0)
    else
      var body := if t[0] == '+' || t[0] == '-' then t[1..] else t;
      if body != [] && AllDigits(body) then
        var v: int := DigitsValue(body);
        Some(if t[0] == '-' then -v else v)
      else None
  }

  /** `Number` reads back what `String` wrote. */
  lemma StringToNumberOfIntToString(n: int)
    ensures StringToNumber(IntToString(n)) == Some(n)
  {
    var s := IntToString(n);
    var d := NatDigits(if n < 0 then -n else n);
    assert s == if n < 0 then ['-'] + d else d;
    assert IsDigit(s[|s| - 1]);
    assert !IsSpace(s[0]) && !IsSpace(s[|s| - 1]);
    TrimStartOfTrimmed(s);
    TrimEndOfTrimmed(s);
    assert Trim(s) == s;
    if n < 0 {
      assert s[1..] == d;
    }
  }

  /** `Number` is defined (not `NaN`) exactly when the trimmed text is empty or
      an integer literal. */
  lemma StringToNumberDefined(s: string)
    ensures StringToNumber(s).Some? <==> Trim(s) == [] || IntegerLiteral(Trim(s))
  {
  }

  /** An integer `String` wrote, followed by text that does not end in white
      space, is already trimmed. */
  lemma IntToStringTrimmed(n: int, rest: string)
    requires rest == [] || !IsSpace(rest[|rest| - 1])
    ensures Trim(IntToString(n) + rest) == IntToString(n) + rest
  {
    var s := IntToString(n) + rest;
    var d := NatDigits(if n < 0 then -n else n);
    assert IsDigit(d[|d| - 1]);
    assert s[0] == '-' || IsDigit(s[0]);
    assert rest == [] ==> s[|s| - 1] == d[|d| - 1];
    TrimStartOfTrimmed(s);
    TrimEndOfTrimmed(s);
  }

  /** Digits followed by a text that starts with a non-digit are not all
      digits. */
  lemma DigitsThenNonDigit(d: string, rest: string)
    requires rest != [] && !IsDigit(rest[0])
    ensures !AllDigits(d + rest)
  {
    assert (d + rest)[|d|] == rest[0];
  }

  /** An integer `String` wrote, followed by text that starts with a
      non-digit, is not an integer literal. */
  lemma IntToStringNotLiteral(n: int, rest: string)
    requires rest != [] && !IsDigit(rest[0])
    ensures !IntegerLiteral(IntToString(n) + rest)
  {
    var s := IntToString(n) + rest;
    var d := NatDigits(if n < 0 then -n else n);
    var body := if s != [] && (s[0] == '+' || s[0] == '-') then s[1..] else s;
    assert body == d + rest by {
      if n < 0 {
        assert s == ['-'] + (d + rest);
      } else {
        assert s == d + rest && IsDigit(s[0]);
      }
    }
    DigitsThenNonDigit(d, rest);
  }

  /** Unlike `parseFloat`, `Number` rejects an integer followed by text that
      does not continue its digits: `Number("12abc")` is `NaN` while
      `parseFloat("12abc")` is 12. */
  lemma StringToNumberRejectsTrailing(n: int, rest: string)
    requires rest != [] && !IsDigit(rest[0]) && !IsSpace(rest[|rest| - 1])
    ensures StringToNumber(IntToString(n) + rest) == None
    ensures ParseNumberPrefix(IntToString(n) + rest) == Some(n)
  {
    IntToStringNotLiteral(n, rest);
    IntToStringTrimmed(n, rest);
    StringToNumberDefined(IntToString(n) + rest);
    ParseNumberPrefixOfIntToString(n, rest);
  }
}
