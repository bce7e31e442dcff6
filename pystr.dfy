/** The parts of Python's `str` behaviour that the modelled code relies on:
    `strip()`, `lstrip(chars)`, `split(sep)`, `sep.join(...)`, `"".join(...)`,
    `replace(old, "")`, `lower()` on ASCII letters, `str(int)` and `int(str)`. */
module PyStr {
  import opened Wrappers

  /** The characters for which Python's `str.isspace()` holds; `strip()` with
      no argument removes exactly these from both ends. */
  predicate IsSpace(c: char) {
    || c == ' '
    || ('\t' <= c <= '\r')
    || ('\U{1C}' <= c <= '\U{1F}')
    || c == '\U{85}' || c == '\U{A0}' || c == '\U{1680}'
    || ('\U{2000}' <= c <= '\U{200A}')
    || c == '\U{2028}' || c == '\U{2029}' || c == '\U{202F}' || c == '\U{205F}' || c == '\U{3000}'
  }

  predicate IsAsciiDigit(c: char) {
    '0' <= c <= '9'
  }

  predicate AllDigits(s: string) {
    forall i :: 0 <= i < |s| ==> IsAsciiDigit(s[i])
  }

  /** The index of the first character at or after `i` that is not whitespace. */
  function SkipSpaces(s: string, i: nat): (j: nat)
    requires i <= |s|
    ensures i <= j <= |s|
    decreases |s| - i
  {
    if i < |s| && IsSpace(s[i]) then SkipSpaces(s, i + 1) else i
  }

  lemma {:induction false} SkipSpacesSpec(s: string, i: nat)
    requires i <= |s|
    ensures var j := SkipSpaces(s, i);
      && (j == |s| || !IsSpace(s[j]))
      && (forall k :: i <= k < j ==> IsSpace(s[k]))
    decreases |s| - i
  {
    if i < |s| && IsSpace(s[i]) {
      SkipSpacesSpec(s, i + 1);
    }
  }

  /** The length of `s[..n]` once trailing whitespace is removed. */
  function SkipSpacesBack(s: string, n: nat): (j: nat)
    requires n <= |s|
    ensures j <= n
  {
    if n > 0 && IsSpace(s[n - 1]) then SkipSpacesBack(s, n - 1) else n
  }

  lemma {:induction false} SkipSpacesBackSpec(s: string, n: nat)
    requires n <= |s|
    ensures var j := SkipSpacesBack(s, n);
      && (j == 0 || !IsSpace(s[j - 1]))
      && (forall k :: j <= k < n ==> IsSpace(s[k]))
  {
    if n > 0 && IsSpace(s[n - 1]) {
      SkipSpacesBackSpec(s, n - 1);
    }
  }

  /** Python `s.strip()`. */
  function Strip(s: string): (r: string)
    ensures |r| <= |s|
  {
    var b := SkipSpaces(s, 0);
    var e := SkipSpacesBack(s, |s|);
    if e <= b then [] else s[b..e]
  }

  /** `r` is `s` with the first `b` characters and some trailing
      characters removed, all of them whitespace. */
  ghost predicate TrimmedAt(s: string, r: string, b: int) {
    && 0 <= b && b + |r| <= |s| && r == s[b..b + |r|]
    && (forall k :: 0 <= k < b ==> IsSpace(s[k]))
    && (forall k :: b + |r| <= k < |s| ==> IsSpace(s[k]))
  }

  /** `strip()` removes whitespace, and only whitespace, from both ends, and
      what it leaves neither begins nor ends with whitespace. */
  lemma StripSpec(s: string)
    ensures var r := Strip(s);
      && (r == [] || (!IsSpace(r[0]) && !IsSpace(r[|r| - 1])))
      && exists b :: TrimmedAt(s, r, b)
  {
    var b := SkipSpaces(s, 0);
    var e := SkipSpacesBack(s, |s|);
    SkipSpacesSpec(s, 0);
    SkipSpacesBackSpec(s, |s|);
    if e <= b {
      assert TrimmedAt(s, Strip(s), 0);
    } else {
      assert TrimmedAt(s, Strip(s), b);
    }
  }

  /** The index of the first character at or after `i` that is not in `chars`. */
  function SkipChars(s: string, chars: string, i: nat): (j: nat)
    requires i <= |s|
    ensures i <= j <= |s|
    decreases |s| - i
  {
    if i < |s| && s[i] in chars then SkipChars(s, chars, i + 1) else i
  }

  lemma {:induction false} SkipCharsSpec(s: string, chars: string, i: nat)
    requires i <= |s|
    ensures var j := SkipChars(s, chars, i);
      && (j == |s| || s[j] !in chars)
      && (forall k :: i <= k < j ==> s[k] in chars)
    decreases |s| - i
  {
    if i < |s| && s[i] in chars {
      SkipCharsSpec(s, chars, i + 1);
    }
  }

  /** Python `s.lstrip(chars)`: `chars` is read as a set of characters. */
  function LStripChars(s: string, chars: string): (r: string)
    ensures |r| <= |s|
  {
    s[SkipChars(s, chars, 0)..]
  }

  /** `lstrip(chars)` removes the longest prefix made of characters of `chars`. */
  lemma LStripCharsSpec(s: string, chars: string)
    ensures var r := LStripChars(s, chars);
      && r == s[|s| - |r|..]
      && (r == [] || r[0] !in chars)
      && (forall k :: 0 <= k < |s| - |r| ==> s[k] in chars)
  {
    SkipCharsSpec(s, chars, 0);
  }

  lemma StripKeeps(s: string)
    requires s == [] || (!IsSpace(s[0]) && !IsSpace(s[|s| - 1]))
    ensures Strip(s) == s
  {
    assert SkipSpaces(s, 0) == 0;
    assert SkipSpacesBack(s, |s|) == |s|;
  }

  /** Python `s.split(sep)` for a one-character separator. */
  function Split(s: string, sep: char): (r: seq<string>)
    ensures |r| >= 1
  {
    if s == [] then [[]]
    else
      var rest := Split(s[1..], sep);
      if s[0] == sep then [[]] + rest
      else [[s[0]] + rest[0]] + rest[1..]
  }

  /** Python `sep.join(xs)`. */
  function Join(xs: seq<string>, sep: string): string {
    if |xs| == 0 then []
    else if |xs| == 1 then xs[0]
    else xs[0] + sep + Join(xs[1..], sep)
  }

  /** Python `"".join(xs)`. */
  function Concat(xs: seq<string>): string {
    if xs == [] then [] else xs[0] + Concat(xs[1..])
  }

  /** Joining the pieces of a split with the same separator gives the text back. */
  lemma {:induction false} JoinSplit(s: string, sep: char)
    ensures Join(Split(s, sep), [sep]) == s
  {
    if s != [] {
      var rest := Split(s[1..], sep);
      JoinSplit(s[1..], sep);
      if s[0] == sep {
        assert ([[]] + rest)[1..] == rest;
      } else if |rest| > 1 {
        var head := [s[0]] + rest[0];
        assert ([head] + rest[1..])[1..] == rest[1..];
      }
    }
  }

  lemma {:induction false} JoinSnoc(xs: seq<string>, a: string, sep: string)
    requires |xs| >= 1
    ensures Join(xs + [a], sep) == Join(xs, sep) + sep + a
  {
    if |xs| == 1 {
      assert (xs + [a])[1..] == [a];
    } else {
      assert (xs + [a])[1..] == xs[1..] + [a];
      JoinSnoc(xs[1..], a, sep);
    }
  }

  /** Joining two non-empty lists is joining their joins. */
  lemma {:induction false} JoinAppend(xs: seq<string>, ys: seq<string>, sep: string)
    requires |xs| >= 1 && |ys| >= 1
    ensures Join(xs + ys, sep) == Join(xs, sep) + sep + Join(ys, sep)
  {
    if |xs| == 1 {
      assert (xs + ys)[1..] == ys;
    } else {
      assert (xs + ys)[1..] == xs[1..] + ys;
      JoinAppend(xs[1..], ys, sep);
    }
  }

  /** Extending the last piece of a join by `sep + b` extends the join the same way. */
  lemma JoinExtendLast(xs: seq<string>, a: string, b: string, sep: string)
    ensures Join(xs + [a + sep + b], sep) == Join(xs + [a], sep) + sep + b
  {
    if |xs| == 0 {
      assert xs + [a + sep + b] == [a + sep + b];
      assert xs + [a] == [a];
    } else {
      JoinSnoc(xs, a + sep + b, sep);
      JoinSnoc(xs, a, sep);
    }
  }

  /** A text without the separator splits into itself. */
  lemma {:induction false} SplitNoSep(a: string, sep: char)
    requires sep !in a
    ensures Split(a, sep) == [a]
  {
    if a != [] {
      SplitNoSep(a[1..], sep);
      assert [a[0]] + a[1..] == a;
    }
  }

  /** The first separator ends the first piece; the rest splits on its own. */
  lemma {:induction false} SplitAtFirst(a: string, sep: char, b: string)
    requires sep !in a
    ensures Split(a + [sep] + b, sep) == [a] + Split(b, sep)
  {
    var s := a + [sep] + b;
    if a == [] {
      assert s[1..] == b;
    } else {
      assert s[1..] == a[1..] + [sep] + b;
      SplitAtFirst(a[1..], sep, b);
      assert [a[0]] + a[1..] == a;
    }
  }

  lemma {:induction false} ConcatSnoc(xs: seq<string>, x: string)
    ensures Concat(xs + [x]) == Concat(xs) + x
  {
    if xs != [] {
      assert (xs + [x])[1..] == xs[1..] + [x];
      ConcatSnoc(xs[1..], x);
    }
  }

  function LowerChar(c: char): char {
    if 'A' <= c <= 'Z' then (c as int + 32) as char else c
  }

  /** Python `s.lower()`, restricted to ASCII letters. */
  function LowerAscii(s: string): (r: string)
    ensures |r| == |s|
    ensures forall i :: 0 <= i < |s| ==> r[i] == LowerChar(s[i])
  {
    seq(|s|, i requires 0 <= i < |s| => LowerChar(s[i]))
  }

  /** Python `s.replace(pat, "")`: every non-overlapping occurrence of `pat`,
      found from left to right, is removed. */
  function RemoveAll(s: string, pat: string): string
    requires |pat| > 0
    decreases |s|
  {
    if |s| >= |pat| && s[..|pat|] == pat then RemoveAll(s[|pat|..], pat)
    else if s == [] then []
    else [s[0]] + RemoveAll(s[1..], pat)
  }

  lemma {:induction false} RemoveAllAbsent(s: string, pat: string)
    requires |pat| > 0 && pat[0] !in s
    ensures RemoveAll(s, pat) == s
    decreases |s|
  {
    if s != [] {
      assert s[0] != pat[0];
      RemoveAllAbsent(s[1..], pat);
      assert [s[0]] + s[1..] == s;
    }
  }

  function DigitChar(d: nat): (c: char)
    requires d < 10
    ensures IsAsciiDigit(c)
  {
    ('0' as int + d) as char
  }

  function DigitValue(c: char): nat
    requires IsAsciiDigit(c)
  {
    c as int - '0' as int
  }

  /** Python `str(n)` for a non-negative integer: decimal, no leading zeros. */
  function NatToString(n: nat): (r: string)
    ensures |r| >= 1 && AllDigits(r)
  {
    if n < 10 then [DigitChar(n)] else NatToString(n / 10) + [DigitChar(n % 10)]
  }

  /** Python `str(n)`. */
  function IntToString(n: int): string {
    if n < 0 then "-" + NatToString(-n) else NatToString(n)
  }

  /** The value of a string of decimal digits, most significant first. */
  function DigitsValue(s: string): nat
    requires AllDigits(s)
  {
    if s == [] then 0 else DigitsValue(s[..|s| - 1]) * 10 + DigitValue(s[|s| - 1])
  }

  /** Python `int(s)` on an optionally signed run of ASCII digits, with
      surrounding whitespace allowed; `None` where Python raises ValueError. */
  function ParseInt(s: string): Option<int> {
    var t := Strip(s);
    if |t| >= 1 && (t[0] == '-' || t[0] == '+') then
      var d := t[1..];
      if d != [] && AllDigits(d) then
        var v: int := DigitsValue(d);
        Some(if t[0] == '-' then -v else v)
      else None
    else if t != [] && AllDigits(t) then Some(DigitsValue(t))
    else None
  }

  lemma {:induction false} DigitsValueOfNatToString(n: nat)
    ensures DigitsValue(NatToString(n)) == n
  {
    if n >= 10 {
      var s := NatToString(n);
      var p := NatToString(n / 10);
      assert s[..|s| - 1] == p;
      DigitsValueOfNatToString(n / 10);
    }
  }

  lemma IntToStringNoSpace(n: int)
    ensures var s := IntToString(n); |s| >= 1 && !IsSpace(s[0]) && !IsSpace(s[|s| - 1])
    ensures forall i :: 0 <= i < |IntToString(n)| ==> IntToString(n)[i] == '-' || IsAsciiDigit(IntToString(n)[i])
  {
  }

  /** `int(str(n)) == n` for every integer. */
  lemma ParseIntToString(n: int)
    ensures ParseInt(IntToString(n)) == Some(n)
  {
    var s := IntToString(n);
    IntToStringNoSpace(n);
    StripKeeps(s);
    assert Strip(s) == s;
    if n < 0 {
      var d := NatToString(-n);
      assert s == "-" + d;
      assert s[1..] == d;
      DigitsValueOfNatToString(-n);
      assert ParseInt(s) == Some(-(DigitsValue(d) as int));
    } else {
      var d := NatToString(n);
      assert s == d && s[0] != '-' && s[0] != '+';
      DigitsValueOfNatToString(n);
    }
  }
}
