/**
 * The parts of Python's `str` behaviour the application relies on:
 * `str.strip()`, `str.split(sep)`, `int()` on decimal text, and the
 * zero-padded decimal numbers `strftime` writes.
 */
module Text {
  import opened Wrappers

  /** Python's `str.isspace()`: the characters `strip()` discards. */
  predicate IsSpace(c: char) {
    || ('\t' <= c <= '\r')
    || ('\U{1C}' <= c <= '\U{1F}')
    || c == ' '
    || c == '\U{85}'
    || c == '\U{A0}'
    || c == '\U{1680}'
    || ('\U{2000}' <= c <= '\U{200A}')
    || c == '\U{2028}'
    || c == '\U{2029}'
    || c == '\U{202F}'
    || c == '\U{205F}'
    || c == '\U{3000}'
  }

  predicate AllSpace(s: string) {
    forall i :: 0 <= i < |s| ==> IsSpace(s[i])
  }

  /** `s.lstrip()` */
  function TrimStart(s: string): (r: string)
    ensures |r| <= |s| && r == s[|s| - |r|..]
    ensures AllSpace(s[..|s| - |r|])
    ensures |r| > 0 ==> !IsSpace(r[0])
  {
    if |s| > 0 && IsSpace(s[0]) then TrimStart(s[1..]) else s
  }

  /** `s.rstrip()` */
  function TrimEnd(s: string): (r: string)
    ensures |r| <= |s| && r == s[..|r|]
    ensures AllSpace(s[|r|..])
    ensures |r| > 0 ==> !IsSpace(r[|r| - 1])
  {
    if |s| > 0 && IsSpace(s[|s| - 1]) then TrimEnd(s[..|s| - 1]) else s
  }

  /** `s.strip()`: the text between the leading and the trailing whitespace. */
  function Strip(s: string): (r: string)
    ensures |r| <= |s|
    ensures |r| > 0 ==> !IsSpace(r[0]) && !IsSpace(r[|r| - 1])
  {
    TrimEnd(TrimStart(s))
  }

  /** A stripped value is empty exactly when the input held only whitespace. */
  lemma {:induction false} StripEmptyIffBlank(s: string)
    ensures Strip(s) == [] <==> AllSpace(s)
  {
    var t := TrimStart(s);
    if !AllSpace(s) {
      var i :| 0 <= i < |s| && !IsSpace(s[i]);
      LeadingBlank(s, i);
      assert t[i - (|s| - |t|)] == s[i];
    }
  }

  /** Characters before what `lstrip()` keeps are whitespace. */
  lemma {:induction false} LeadingBlank(s: string, i: int)
    requires 0 <= i < |s|
    ensures IsSpace(s[i]) || i >= |s| - |TrimStart(s)|
  {
    var t := TrimStart(s);
    if i < |s| - |t| {
      assert s[..|s| - |t|][i] == s[i];
    }
  }

  /** `strip()` keeps one contiguous slice and drops only whitespace around it. */
  lemma {:induction false} StripIsTrimmedSlice(s: string)
    ensures exists k :: (0 <= k <= |s| - |Strip(s)| && s[k..k + |Strip(s)|] == Strip(s)
                         && AllSpace(s[..k]) && AllSpace(s[k + |Strip(s)|..]))
  {
    var t := TrimStart(s);
    var r := TrimEnd(t);
    var k := |s| - |t|;
    assert r == s[k..k + |r|] by {
      assert t == s[k..];
      assert r == t[..|r|];
    }
    assert AllSpace(s[k + |r|..]) by {
      assert t == s[k..];
      assert t[|r|..] == s[k + |r|..];
    }
  }

  /** Stripping twice is stripping once. */
  lemma {:induction false} StripIdempotent(s: string)
    ensures Strip(Strip(s)) == Strip(s)
  {
    var r := Strip(s);
    if |r| > 0 {
      assert TrimStart(r) == r;
      assert TrimEnd(r) == r;
    }
  }

  /** `s.split(sep)`: the pieces between occurrences of `sep`, always at least one. */
  function Split(s: string, sep: char): (parts: seq<string>)
    ensures |parts| >= 1
    ensures forall i :: 0 <= i < |parts| ==> sep !in parts[i]
  {
    if |s| == 0 then [""]
    else
      var rest := Split(s[1..], sep);
      if s[0] == sep then [""] + rest
      else [[s[0]] + rest[0]] + rest[1..]
  }

  /** `sep.join(parts)` */
  function Join(parts: seq<string>, sep: char): string
    requires |parts| >= 1
  {
    if |parts| == 1 then parts[0] else parts[0] + [sep] + Join(parts[1..], sep)
  }

  /** Joining the pieces of a split gives back the original text. */
  lemma {:induction false} JoinSplit(s: string, sep: char)
    ensures Join(Split(s, sep), sep) == s
  {
    if |s| > 0 {
      JoinSplit(s[1..], sep);
      var rest := Split(s[1..], sep);
      if s[0] != sep {
        if |rest| == 1 {
        } else {
          assert ([[s[0]] + rest[0]] + rest[1..])[1..] == rest[1..];
        }
      } else {
        assert ([""] + rest)[1..] == rest;
      }
    }
  }

  /** Splitting a join of separator-free pieces gives back the pieces. */
  lemma {:induction false} SplitJoin(parts: seq<string>, sep: char)
    requires |parts| >= 1
    requires forall i :: 0 <= i < |parts| ==> sep !in parts[i]
    ensures Split(Join(parts, sep), sep) == parts
  {
    if |parts| == 1 {
      SplitPiece(parts[0], sep);
    } else {
      SplitJoin(parts[1..], sep);
      SplitPrefix(parts[0], Join(parts[1..], sep), sep);
      assert parts == [parts[0]] + parts[1..];
    }
  }

  /** A separator-free piece splits into itself. */
  lemma {:induction false} SplitPiece(p: string, sep: char)
    requires sep !in p
    ensures Split(p, sep) == [p]
  {
    if |p| > 0 {
      SplitPiece(p[1..], sep);
      assert [p[0]] + p[1..] == p;
    }
  }

  /** Splitting `p + sep + rest` yields `p` followed by the pieces of `rest`. */
  lemma {:induction false} SplitPrefix(p: string, rest: string, sep: char)
    requires sep !in p
    ensures Split(p + [sep] + rest, sep) == [p] + Split(rest, sep)
  {
    if |p| == 0 {
      assert p + [sep] + rest == [sep] + rest;
      assert ([sep] + rest)[1..] == rest;
    } else {
      SplitPrefix(p[1..], rest, sep);
      assert (p + [sep] + rest)[1..] == p[1..] + [sep] + rest;
      assert [p[0]] + p[1..] == p;
    }
  }

  predicate IsDigit(c: char) {
    '0' <= c <= '9'
  }

  function DigitValue(c: char): nat
    requires IsDigit(c)
  {
    c as int - '0' as int
  }

  function DigitChar(d: nat): (c: char)
    requires d < 10
    ensures IsDigit(c) && DigitValue(c) == d
  {
    ('0' as int + d) as char
  }

  predicate AllDigits(s: string) {
    forall i :: 0 <= i < |s| ==> IsDigit(s[i])
  }

  /**
   * The digit part `int()` accepts: ASCII digits, with single underscores
   * allowed between two digits (`1_000`), built from the right as a run
   * followed by a digit or by an underscore and a digit.
   */
  predicate DigitRun(s: string) {
    && |s| > 0
    && IsDigit(s[|s| - 1])
    && (|| |s| == 1
        || DigitRun(s[..|s| - 1])
        || (|s| > 2 && s[|s| - 2] == '_' && DigitRun(s[..|s| - 2])))
  }

  /** A digit run starts with a digit, so it has neither sign nor space. */
  lemma {:induction false} DigitRunStartsWithDigit(s: string)
    requires DigitRun(s)
    ensures IsDigit(s[0])
  {
    if |s| > 1 {
      if DigitRun(s[..|s| - 1]) {
        DigitRunStartsWithDigit(s[..|s| - 1]);
      } else {
        DigitRunStartsWithDigit(s[..|s| - 2]);
      }
    }
  }

  /** The decimal value of the digits of `s`, underscores ignored. */
  function DigitsValue(s: string): nat {
    if |s| == 0 then 0
    else
      var last := s[|s| - 1];
      if IsDigit(last) then DigitsValue(s[..|s| - 1]) * 10 + DigitValue(last)
      else DigitsValue(s[..|s| - 1])
  }

  /**
   * The whitespace `int()` skips. Characters above U+007F that `str.isspace()`
   * accepts become spaces first; below that only `\t`, `\n`, `\v`, `\f`, `\r`
   * and the space are skipped, so the separators U+001C to U+001F are not.
   */
  predicate IntSpace(c: char) {
    IsSpace(c) && !('\U{1C}' <= c <= '\U{1F}')
  }

  /** Leading whitespace that `int()` skips, removed. */
  function IntTrimStart(s: string): (r: string)
    ensures |r| <= |s| && r == s[|s| - |r|..]
    ensures |r| > 0 ==> !IntSpace(r[0])
  {
    if |s| > 0 && IntSpace(s[0]) then IntTrimStart(s[1..]) else s
  }

  /** Trailing whitespace that `int()` skips, removed. */
  function IntTrimEnd(s: string): (r: string)
    ensures |r| <= |s| && r == s[..|r|]
    ensures |r| > 0 ==> !IntSpace(r[|r| - 1])
  {
    if |s| > 0 && IntSpace(s[|s| - 1]) then IntTrimEnd(s[..|s| - 1]) else s
  }

  /** The text `int()` reads once its surrounding whitespace is skipped. */
  function IntStrip(s: string): (r: string)
    ensures |r| <= |s|
    ensures |r| > 0 ==> !IntSpace(r[0]) && !IntSpace(r[|r| - 1])
  {
    IntTrimEnd(IntTrimStart(s))
  }

  /**
   * Python's `int(s)` for base 10: surrounding whitespace is ignored, an
   * optional sign, then a digit run. `None` is the `ValueError`.
   */
  function ParseInt(s: string): (r: Option<int>)
    ensures r.Some? ==> var t := IntStrip(s); |t| > 0 && IsDigit(t[|t| - 1])
  {
    var t := IntStrip(s);
    ParseSigned(t)
  }

  /** Empty or whitespace-only text never reads as an integer. */
  lemma {:induction false} BlankNeverParses(s: string)
    requires AllSpace(s)
    ensures ParseInt(s).None?
  {
    var t := IntTrimStart(s);
    var r := IntTrimEnd(t);
    if |r| > 0 {
      assert r[|r| - 1] == s[|s| - |t| + |r| - 1];
    }
  }

  /** `str.strip()` removes the separator U+001C ... */
  lemma {:induction false} StripDropsSeparator()
    ensures Strip("\U{1C}5") == "5"
  {
    var s := "\U{1C}5";
    assert IsSpace(s[0]) && s[1..] == "5";
    assert TrimStart("5") == "5";
    assert TrimEnd("5") == "5";
  }

  /** ... but `int()` rejects text that starts with it. */
  lemma {:induction false} SeparatorBlocksInt()
    ensures ParseInt("\U{1C}5").None?
  {
    var s := "\U{1C}5";
    assert !IntSpace(s[0]) && !IntSpace(s[1]);
    assert IntTrimStart(s) == s;
    assert IntTrimEnd(s) == s;
  }

  /** An optional sign followed by a digit run, with nothing around it. */
  function ParseSigned(t: string): (r: Option<int>)
    ensures r.Some? ==> |t| > 0 && IsDigit(t[|t| - 1])
  {
    if |t| > 0 && t[0] == '-' then
      match ParseDigits(t[1..])
      case Some(m) => Some(-m)
      case None => None
    else if |t| > 0 && t[0] == '+' then ParseDigits(t[1..])
    else ParseDigits(t)
  }

  /** An unsigned digit run and its value. */
  function ParseDigits(b: string): (r: Option<int>)
    ensures r.Some? ==> |b| > 0 && IsDigit(b[|b| - 1])
  {
    if DigitRun(b) then Some(DigitsValue(b)) else None
  }

  function Pow10(n: nat): (p: nat)
    ensures p >= 1
  {
    if n == 0 then 1 else 10 * Pow10(n - 1)
  }

  /** `n` written with exactly `width` decimal digits, zero-padded (`%04d`). */
  function Padded(n: nat, width: nat): (r: string)
    requires n < Pow10(width)
    ensures |r| == width && AllDigits(r)
  {
    if width == 0 then []
    else Padded(n / 10, width - 1) + [DigitChar(n % 10)]
  }

  /** Reading back a zero-padded number gives the number. */
  lemma {:induction false} PaddedValue(n: nat, width: nat)
    requires n < Pow10(width)
    ensures DigitsValue(Padded(n, width)) == n
  {
    if width > 0 {
      PaddedValue(n / 10, width - 1);
      var r := Padded(n, width);
      assert r[..|r| - 1] == Padded(n / 10, width - 1);
    }
  }

  /** A zero-padded number of positive width is a digit run. */
  lemma {:induction false} PaddedIsDigitRun(n: nat, width: nat)
    requires n < Pow10(width) && width > 0
    ensures DigitRun(Padded(n, width))
  {
    if width > 1 {
      PaddedIsDigitRun(n / 10, width - 1);
      var p := Padded(n, width);
      assert p[..|p| - 1] == Padded(n / 10, width - 1);
    }
  }

  lemma {:induction false} DigitIsNotSpace(c: char)
    requires IsDigit(c)
    ensures !IntSpace(c)
  {
  }

  /** Digits have no whitespace to skip. */
  lemma {:induction false} StripDigits(s: string)
    requires |s| > 0 && IsDigit(s[0]) && IsDigit(s[|s| - 1])
    ensures IntStrip(s) == s
  {
    DigitIsNotSpace(s[0]);
    DigitIsNotSpace(s[|s| - 1]);
    assert IntTrimStart(s) == s;
    assert IntTrimEnd(s) == s;
  }

  /** `int()` reads back what `Padded` writes. */
  lemma {:induction false} ParsePadded(n: nat, width: nat)
    requires n < Pow10(width) && width > 0
    ensures ParseInt(Padded(n, width)) == Some(n)
  {
    var p := Padded(n, width);
    PaddedIsDigitRun(n, width);
    PaddedValue(n, width);
    ParseDigitRun(p);
  }

  /** An unsigned digit run parses to its value. */
  lemma {:induction false} ParseDigitRun(s: string)
    requires DigitRun(s)
    ensures ParseInt(s) == Some(DigitsValue(s))
  {
    DigitRunStartsWithDigit(s);
    StripDigits(s);
    DigitIsNotSign(s[0]);
    Unsigned(s);
  }

  /** Without a leading sign the whole text is the digit part. */
  lemma {:induction false} Unsigned(t: string)
    requires |t| > 0 && t[0] != '-' && t[0] != '+'
    ensures ParseSigned(t) == ParseDigits(t)
  {
  }

  lemma {:induction false} DigitIsNotSign(c: char)
    requires IsDigit(c)
    ensures c != '+' && c != '-'
  {
  }
}
