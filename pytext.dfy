/** The pieces of Python's built-in string handling that the scripts rely on:
    `str.strip()` with no argument, `str.split(sep)` with a one-character
    separator, `int(text)` in base 10 and `str(n)` for an integer. */
module PyText {
  import opened Common

  /** `str.isspace()` for one character: the characters `str.strip()` removes. */
  predicate IsSpace(c: char) {
    c == ' ' || ('\t' <= c <= '\r') || ('\U{1C}' <= c <= '\U{1F}') ||
    c == '\U{85}' || c == '\U{A0}' || c == '\U{1680}' || ('\U{2000}' <= c <= '\U{200A}') ||
    c == '\U{2028}' || c == '\U{2029}' || c == '\U{202F}' || c == '\U{205F}' || c == '\U{3000}'
  }

  /** Number of occurrences of `c` in `s`. */
  function Count(s: string, c: char): (n: nat)
    ensures n <= |s|
    ensures n == 0 <==> c !in s
  {
    if s == [] then 0 else (if s[0] == c then 1 else 0) + Count(s[1..], c)
  }

  lemma {:induction false} CountAppend(a: string, b: string, c: char)
    ensures Count(a + b, c) == Count(a, c) + Count(b, c)
  {
    if a != [] {
      assert (a + b)[1..] == a[1..] + b;
      CountAppend(a[1..], b, c);
    } else {
      assert a + b == b;
    }
  }

  /** Which characters count as surrounding whitespace: `str.strip()` removes every
      `str.isspace()` character, while `int()` skips the ASCII ones among space and
      `\t\n\v\f\r` and the non-ASCII ones, but not the separators U+001C..U+001F. */
  datatype Whitespace = StripSpace | IntSpace

  predicate Blank(ws: Whitespace, c: char) {
    IsSpace(c) && (ws == StripSpace || !('\U{1C}' <= c <= '\U{1F}'))
  }

  /** The position of the first non-whitespace character at or after `i` (`|s|` if none). */
  function SkipSpaces(ws: Whitespace, s: string, i: nat): (r: nat)
    requires i <= |s|
    ensures i <= r <= |s|
    ensures forall k :: i <= k < r ==> Blank(ws, s[k])
    ensures r == |s| || !Blank(ws, s[r])
    decreases |s| - i
  {
    if i < |s| && Blank(ws, s[i]) then SkipSpaces(ws, s, i + 1) else i
  }

  /** The end of `s[lo..j]` once its trailing whitespace is dropped. */
  function DropSpaces(ws: Whitespace, s: string, lo: nat, j: nat): (r: nat)
    requires lo <= j <= |s|
    ensures lo <= r <= j
    ensures forall k :: r <= k < j ==> Blank(ws, s[k])
    ensures r == lo || !Blank(ws, s[r - 1])
  {
    if lo < j && Blank(ws, s[j - 1]) then DropSpaces(ws, s, lo, j - 1) else j
  }

  /** `s` without its leading and trailing whitespace; what is left neither starts
      nor ends with whitespace. */
  function Trim(ws: Whitespace, s: string): (r: string)
    ensures |r| <= |s|
    ensures r == [] || (!Blank(ws, r[0]) && !Blank(ws, r[|r| - 1]))
  {
    var a := SkipSpaces(ws, s, 0);
    s[a..DropSpaces(ws, s, a, |s|)]
  }

  /** `s.strip()`: `s` without its leading and trailing `str.isspace()` characters. */
  function Strip(s: string): (r: string)
    ensures |r| <= |s|
    ensures r == [] || (!IsSpace(r[0]) && !IsSpace(r[|r| - 1]))
  {
    Trim(StripSpace, s)
  }

  /** Trimming removes only surrounding whitespace: the result is the slice of `s` left
      between a whitespace prefix and a whitespace suffix. With the ends of the result
      being non-whitespace, this pins the result down. */
  lemma TrimSlice(ws: Whitespace, s: string)
    ensures exists a, b ::
              (0 <= a <= b <= |s| && Trim(ws, s) == s[a..b]
               && (forall k :: 0 <= k < a ==> Blank(ws, s[k]))
               && (forall k :: b <= k < |s| ==> Blank(ws, s[k])))
  {
    var a := SkipSpaces(ws, s, 0);
    var b := DropSpaces(ws, s, a, |s|);
    assert Trim(ws, s) == s[a..b];
  }

  /** The same for `str.strip()`. */
  lemma StripSlice(s: string)
    ensures exists a, b ::
              (0 <= a <= b <= |s| && Strip(s) == s[a..b]
               && (forall k :: 0 <= k < a ==> IsSpace(s[k]))
               && (forall k :: b <= k < |s| ==> IsSpace(s[k])))
  {
    TrimSlice(StripSpace, s);
  }

  lemma TrimUnchanged(ws: Whitespace, s: string)
    requires s == [] || (!Blank(ws, s[0]) && !Blank(ws, s[|s| - 1]))
    ensures Trim(ws, s) == s
  {
    assert SkipSpaces(ws, s, 0) == 0;
    assert DropSpaces(ws, s, 0, |s|) == |s|;
    assert s[0..|s|] == s;
  }

  /** Stripping removes whitespace only, so it keeps every other character. */
  lemma CountStrip(s: string, c: char)
    requires !IsSpace(c)
    ensures Count(Strip(s), c) == Count(s, c)
  {
    var a := SkipSpaces(StripSpace, s, 0);
    var b := DropSpaces(StripSpace, s, a, |s|);
    CountThree(s, a, b, c);
    CountNone(s[..a], c);
    CountNone(s[b..], c);
  }

  lemma CountThree(s: string, a: nat, b: nat, c: char)
    requires a <= b <= |s|
    ensures Count(s, c) == Count(s[..a], c) + Count(s[a..b], c) + Count(s[b..], c)
  {
    assert s == s[..a] + s[a..b] + s[b..];
    CountAppend(s[..a] + s[a..b], s[b..], c);
    CountAppend(s[..a], s[a..b], c);
  }

  lemma CountNone(s: string, c: char)
    requires !IsSpace(c)
    requires forall k :: 0 <= k < |s| ==> IsSpace(s[k])
    ensures Count(s, c) == 0
  {
    assert c !in s;
  }

  /** `s.split(sep)`: the pieces between the separators, empty pieces included,
      one more piece than there are separators, no piece holding the separator. */
  function Split(s: string, sep: char): (parts: seq<string>)
    ensures |parts| == Count(s, sep) + 1
    ensures forall k :: 0 <= k < |parts| ==> sep !in parts[k]
  {
    if s == [] then [""]
    else
      var rest := Split(s[1..], sep);
      if s[0] == sep then [""] + rest
      else [[s[0]] + rest[0]] + rest[1..]
  }

  /** `sep.join(parts)`. */
  function Join(parts: seq<string>, sep: char): string
  {
    if parts == [] then ""
    else if |parts| == 1 then parts[0]
    else parts[0] + [sep] + Join(parts[1..], sep)
  }

  /** Joining the pieces back with the separator gives the original text. */
  lemma {:induction false} JoinSplit(s: string, sep: char)
    ensures Join(Split(s, sep), sep) == s
  {
    if s != [] {
      var rest := Split(s[1..], sep);
      JoinSplit(s[1..], sep);
      if s[0] == sep {
        JoinEmptyFirst(rest, sep);
      } else {
        JoinExtendFirst(s[0], rest, sep);
      }
      assert s == [s[0]] + s[1..];
    }
  }

  lemma JoinEmptyFirst(parts: seq<string>, sep: char)
    requires parts != []
    ensures Join([""] + parts, sep) == [sep] + Join(parts, sep)
  {
    assert ([""] + parts)[1..] == parts;
  }

  lemma JoinExtendFirst(c: char, parts: seq<string>, sep: char)
    requires parts != []
    ensures Join([[c] + parts[0]] + parts[1..], sep) == [c] + Join(parts, sep)
  {
    var longer := [[c] + parts[0]] + parts[1..];
    assert longer[1..] == parts[1..];
    if |parts| > 1 {
      assert Join(longer, sep) == [c] + parts[0] + [sep] + Join(parts[1..], sep);
    }
  }

  /** Text without the separator splits into itself alone. */
  lemma SplitNoSeparator(s: string, sep: char)
    requires sep !in s
    ensures Split(s, sep) == [s]
  {
    assert |Split(s, sep)| == 1;
    JoinSplit(s, sep);
  }

  /** Splitting `a + [sep] + b` where `a` has no separator: `a` comes first, then the pieces of `b`. */
  lemma {:induction false} SplitAtFirst(a: string, b: string, sep: char)
    requires sep !in a
    ensures Split(a + [sep] + b, sep) == [a] + Split(b, sep)
  {
    if a == [] {
      assert a + [sep] + b == [sep] + b;
      assert ([sep] + b)[1..] == b;
    } else {
      assert (a + [sep] + b)[1..] == a[1..] + [sep] + b;
      SplitAtFirst(a[1..], b, sep);
      assert [a[0]] + a[1..] == a;
    }
  }

  predicate IsDigit(c: char) {
    '0' <= c <= '9'
  }

  /** The digits of a Python decimal integer: `digit ('_'? digit)*`, so at least one
      digit and underscores only singly between two digits (`1_000`). */
  predicate DigitGroups(d: string) {
    |d| > 0 && IsDigit(d[0]) &&
    (|d| == 1 || DigitGroups(d[1..]) || (d[1] == '_' && DigitGroups(d[2..])))
  }

  lemma {:induction false} AllDigitsAreGroups(d: string)
    requires |d| > 0
    requires forall k :: 0 <= k < |d| ==> IsDigit(d[k])
    ensures DigitGroups(d)
  {
    if |d| > 1 {
      AllDigitsAreGroups(d[1..]);
    }
  }

  /** The value of a digit string, underscores skipped. */
  function DigitsValue(d: string): nat
  {
    if d == [] then 0
    else if IsDigit(d[|d| - 1]) then 10 * DigitsValue(d[..|d| - 1]) + (d[|d| - 1] - '0') as nat
    else DigitsValue(d[..|d| - 1])
  }

  /** `int(text)` in base 10: surrounding whitespace allowed, an optional sign,
      then digit groups; anything else raises ValueError (None here). */
  function ParseInt(text: string): Option<int>
  {
    ParseSigned(Trim(IntSpace, text))
  }

  /** `int()` on text already stripped. */
  function ParseSigned(t: string): Option<int>
  {
    if t != [] && (t[0] == '+' || t[0] == '-') then
      if DigitGroups(t[1..]) then
        Some(if t[0] == '-' then -(DigitsValue(t[1..]) as int) else DigitsValue(t[1..]) as int)
      else None
    else if DigitGroups(t) then Some(DigitsValue(t) as int)
    else None
  }

  /** The text `int()` accepts once the surrounding whitespace is gone: digit groups,
      optionally behind one sign. */
  predicate SignedDigits(t: string) {
    DigitGroups(t) || (|t| > 0 && (t[0] == '+' || t[0] == '-') && DigitGroups(t[1..]))
  }

  /** `s[a..b]` with only whitespace around it. */
  predicate Surrounded(ws: Whitespace, s: string, a: int, b: int) {
    0 <= a <= b <= |s|
    && (forall k :: 0 <= k < a ==> Blank(ws, s[k]))
    && (forall k :: b <= k < |s| ==> Blank(ws, s[k]))
  }

  /** `int(text)` succeeds exactly on a signed digit string with only `int()`'s whitespace
      around it. */
  lemma ParseIntAccepts(text: string)
    ensures ParseInt(text).Some? <==>
      exists a, b :: Surrounded(IntSpace, text, a, b) && SignedDigits(text[a..b])
  {
    if ParseInt(text).Some? {
      var a := SkipSpaces(IntSpace, text, 0);
      var b := DropSpaces(IntSpace, text, a, |text|);
      assert Trim(IntSpace, text) == text[a..b];
      assert Surrounded(IntSpace, text, a, b);
    }
    if a, b :| Surrounded(IntSpace, text, a, b) && SignedDigits(text[a..b]) {
      ParseIntSurrounded(text, a, b);
    }
  }

  lemma ParseIntSurrounded(text: string, a: int, b: int)
    requires Surrounded(IntSpace, text, a, b) && SignedDigits(text[a..b])
    ensures ParseInt(text).Some?
  {
    var t := text[a..b];
    SignedDigitsEnds(t);
    assert text[a] == t[0] && text[b - 1] == t[|t| - 1];
    assert !Blank(IntSpace, text[a]) && !Blank(IntSpace, text[b - 1]);
    TrimBounds(IntSpace, text, a, b);
  }

  /** Text that neither starts nor ends with whitespace, with only whitespace around it,
      is what trimming leaves. */
  lemma TrimBounds(ws: Whitespace, s: string, a: int, b: int)
    requires Surrounded(ws, s, a, b) && a < b
    requires !Blank(ws, s[a]) && !Blank(ws, s[b - 1])
    ensures Trim(ws, s) == s[a..b]
  {
    var a' := SkipSpaces(ws, s, 0);
    assert a' == a;
    assert DropSpaces(ws, s, a, |s|) == b;
  }

  /** A signed digit string starts with a sign or a digit and ends with a digit. */
  lemma SignedDigitsEnds(t: string)
    requires SignedDigits(t)
    ensures |t| > 0 && (IsDigit(t[0]) || t[0] == '+' || t[0] == '-') && IsDigit(t[|t| - 1])
  {
    if DigitGroups(t) {
      DigitGroupsEnds(t);
    } else {
      DigitGroupsEnds(t[1..]);
    }
  }

  function DigitChar(d: nat): char
    requires d < 10
  {
    ('0' as int + d) as char
  }

  /** `str(n)` for n >= 0: decimal digits, no leading zero, no underscore. */
  function NatToString(n: nat): string
  {
    if n < 10 then [DigitChar(n)] else NatToString(n / 10) + [DigitChar(n % 10)]
  }

  /** `str(n)` for any integer. */
  function IntToString(n: int): string
  {
    if n < 0 then "-" + NatToString(-n) else NatToString(n)
  }

  /** The decimal text of `n` is a digit string whose value is `n`. */
  lemma {:induction false} NatToStringDigits(n: nat)
    ensures |NatToString(n)| > 0
    ensures forall k :: 0 <= k < |NatToString(n)| ==> IsDigit(NatToString(n)[k])
    ensures DigitsValue(NatToString(n)) == n
  {
    if n >= 10 {
      NatToStringDigits(n / 10);
      var s := NatToString(n);
      assert s[..|s| - 1] == NatToString(n / 10);
    }
  }

  /** Digit text reads as its value. */
  lemma ParseIntDigits(d: string)
    requires DigitGroups(d)
    ensures ParseInt(d) == Some(DigitsValue(d) as int)
  {
    DigitGroupsEnds(d);
    TrimUnchanged(IntSpace, d);
  }

  /** Digit text after a minus sign reads as the negated value. */
  lemma ParseIntNegative(d: string)
    requires DigitGroups(d)
    ensures ParseInt("-" + d) == Some(-(DigitsValue(d) as int))
  {
    DigitGroupsEnds(d);
    var s := "-" + d;
    assert s[1..] == d;
    assert s[0] == '-' && s[|s| - 1] == d[|d| - 1];
    TrimUnchanged(IntSpace, s);
    assert ParseSigned(s) == Some(-(DigitsValue(d) as int));
  }

  lemma {:induction false} DigitGroupsEnds(d: string)
    requires DigitGroups(d)
    ensures IsDigit(d[0]) && IsDigit(d[|d| - 1])
  {
    if |d| > 1 {
      if DigitGroups(d[1..]) {
        DigitGroupsEnds(d[1..]);
      } else {
        DigitGroupsEnds(d[2..]);
      }
    }
  }

  /** Every character of a digit string is a digit or an underscore. */
  lemma {:induction false} DigitGroupsChars(d: string)
    requires DigitGroups(d)
    ensures forall k :: 0 <= k < |d| ==> IsDigit(d[k]) || d[k] == '_'
  {
    if |d| > 1 {
      if DigitGroups(d[1..]) {
        DigitGroupsChars(d[1..]);
      } else {
        DigitGroupsChars(d[2..]);
      }
    }
  }

  /** An information separator (U+001C..U+001F) in front of digits: `str.strip()` removes it,
      `int()` does not skip it and rejects the text. */
  lemma SeparatorBeforeDigits(c: char, d: string)
    requires '\U{1C}' <= c <= '\U{1F}' && DigitGroups(d)
    ensures Strip([c] + d) == d
    ensures ParseInt([c] + d) == None
  {
    DigitGroupsEnds(d);
    StripLeadingSpace(c, d);
    var s := [c] + d;
    assert s[|s| - 1] == d[|d| - 1];
    TrimUnchanged(IntSpace, s);
  }

  /** One whitespace character in front of text that neither starts nor ends with whitespace. */
  lemma StripLeadingSpace(c: char, d: string)
    requires IsSpace(c) && d != [] && !IsSpace(d[0]) && !IsSpace(d[|d| - 1])
    ensures Strip([c] + d) == d
  {
    var s := [c] + d;
    assert s[1] == d[0] && s[|s| - 1] == d[|d| - 1];
    assert SkipSpaces(StripSpace, s, 0) == 1;
    assert DropSpaces(StripSpace, s, 1, |s|) == |s|;
    assert s[1..] == d;
  }

  /** `str(n)` is digits, behind a minus sign when n is negative. */
  lemma IntToStringChars(n: int)
    ensures |IntToString(n)| > 0 && IsDigit(IntToString(n)[|IntToString(n)| - 1])
    ensures forall k :: 0 <= k < |IntToString(n)| ==> IntToString(n)[k] == '-' || IsDigit(IntToString(n)[k])
  {
    var d := NatToString(if n < 0 then -n else n);
    NatToStringDigits(if n < 0 then -n else n);
    if n < 0 {
      assert forall k :: 1 <= k < |IntToString(n)| ==> IntToString(n)[k] == d[k - 1];
    }
  }

  /** `int(str(n)) == n`: the parser reads back what `str` writes. */
  lemma ParseIntToString(n: int)
    ensures ParseInt(IntToString(n)) == Some(n)
  {
    var m := if n < 0 then -n else n;
    NatToStringDigits(m);
    var d := NatToString(m);
    AllDigitsAreGroups(d);
    if n < 0 {
      ParseIntNegative(d);
    } else {
      ParseIntDigits(d);
    }
  }
}
