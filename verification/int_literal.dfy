/** Decimal integer literals as Python's `int(text)` reads them and `str(n)`
    writes them: surrounding whitespace, an optional sign, and ASCII digits
    that may be grouped by single underscores (`"1_000"`). */
module IntLiteral {
  import opened Wrappers

  /** Whitespace that `int()` strips, among ASCII and Latin-1: the C-locale
      space characters (space, tab, line feed, vertical tab, form feed,
      carriage return) and the two Latin-1 spaces U+0085 and U+00A0, which
      Python maps to a plain space before parsing. The ASCII separators
      U+001C to U+001F, although `str.isspace()` holds for them, are not
      stripped and make `int()` raise. */
  predicate IsSpace(c: char)
  {
    var n := c as int;
    n == 32 || 9 <= n <= 13 || n == 0x85 || n == 0xA0
  }

  predicate IsDigit(c: char)
  {
    '0' <= c <= '9'
  }

  function DigitValue(c: char): (d: nat)
    requires IsDigit(c)
    ensures d < 10
  {
    (c as int) - ('0' as int)
  }

  function DigitChar(d: nat): (c: char)
    requires d < 10
    ensures IsDigit(c) && DigitValue(c) == d
  {
    (d + '0' as int) as char
  }

  /** `s` without its leading whitespace. */
  function TrimStart(s: string): string
  {
    if |s| > 0 && IsSpace(s[0]) then TrimStart(s[1..]) else s
  }

  /** `s` without its trailing whitespace. */
  function TrimEnd(s: string): string
  {
    if |s| > 0 && IsSpace(s[|s| - 1]) then TrimEnd(s[..|s| - 1]) else s
  }

  /** `TrimStart` drops exactly the leading whitespace. */
  lemma {:induction false} TrimStartDropsLeadingSpace(s: string)
    ensures var r := TrimStart(s);
            && |r| <= |s| && r == s[|s| - |r|..]
            && (forall i :: 0 <= i < |s| - |r| ==> IsSpace(s[i]))
            && (|r| > 0 ==> !IsSpace(r[0]))
    decreases |s|
  {
    if |s| > 0 && IsSpace(s[0]) {
      TrimStartDropsLeadingSpace(s[1..]);
    }
  }

  /** `TrimEnd` drops exactly the trailing whitespace. */
  lemma {:induction false} TrimEndDropsTrailingSpace(s: string)
    ensures var r := TrimEnd(s);
            && |r| <= |s| && r == s[..|r|]
            && (forall i :: |r| <= i < |s| ==> IsSpace(s[i]))
            && (|r| > 0 ==> !IsSpace(r[|r| - 1]))
    decreases |s|
  {
    if |s| > 0 && IsSpace(s[|s| - 1]) {
      TrimEndDropsTrailingSpace(s[..|s| - 1]);
    }
  }

  /** Python's `s.strip()` restricted to the whitespace above. */
  function Strip(s: string): string
  {
    TrimEnd(TrimStart(s))
  }

  /** The digit part of a literal: digits, with underscores only singly and
      only between two digits. */
  predicate IsDigitGroup(b: string)
  {
    |b| > 0 && IsDigit(b[0]) && IsGroupTail(b[1..])
  }

  /** What may follow a digit inside a digit group. */
  predicate IsGroupTail(b: string)
    decreases |b|
  {
    if |b| == 0 then true
    else if IsDigit(b[0]) then IsGroupTail(b[1..])
    else b[0] == '_' && |b| >= 2 && IsDigit(b[1]) && IsGroupTail(b[2..])
  }

  /** The number the digits of `b` spell, other characters (underscores, in
      a digit group) ignored. */
  function GroupValue(b: string): nat
  {
    if |b| == 0 then 0
    else if !IsDigit(b[|b| - 1]) then GroupValue(b[..|b| - 1])
    else GroupValue(b[..|b| - 1]) * 10 + DigitValue(b[|b| - 1])
  }

  /** Characters that may appear in a literal `int()` accepts. */
  predicate IsLiteralChar(c: char)
  {
    IsSpace(c) || IsDigit(c) || c == '_' || c == '+' || c == '-'
  }

  /** `int(s)`: `None` where Python raises `ValueError`. */
  function ParseInt(s: string): Option<int>
  {
    var t := Strip(s);
    if |t| == 0 then None
    else
      var body := if t[0] == '-' || t[0] == '+' then t[1..] else t;
      if !IsDigitGroup(body) then None
      else
        var v: int := GroupValue(body);
        Some(if t[0] == '-' then -v else v)
  }

  /** A digit group holds only digits and underscores. */
  lemma {:induction false} GroupTailChars(b: string)
    requires IsGroupTail(b)
    ensures forall i :: 0 <= i < |b| ==> IsDigit(b[i]) || b[i] == '_'
    decreases |b|
  {
    if |b| > 0 {
      if IsDigit(b[0]) {
        GroupTailChars(b[1..]);
        assert forall i :: 1 <= i < |b| ==> b[i] == b[1..][i - 1];
      } else {
        GroupTailChars(b[2..]);
        assert forall i :: 2 <= i < |b| ==> b[i] == b[2..][i - 2];
      }
    }
  }

  /** A string of digits is a valid continuation of a digit group. */
  lemma {:induction false} DigitsAreGroupTail(b: string)
    requires forall i :: 0 <= i < |b| ==> IsDigit(b[i])
    ensures IsGroupTail(b)
    decreases |b|
  {
    if |b| > 0 {
      DigitsAreGroupTail(b[1..]);
    }
  }

  /** `Strip(s)` is a slice of `s` that neither starts with whitespace nor
      has anything but whitespace around it. */
  lemma StripIsSlice(s: string)
    ensures |TrimStart(s)| <= |s|
    ensures var k := |s| - |TrimStart(s)|;
            && k + |Strip(s)| <= |s|
            && Strip(s) == s[k..k + |Strip(s)|]
            && forall i :: 0 <= i < |s| && !(k <= i < k + |Strip(s)|) ==> IsSpace(s[i])
    ensures |Strip(s)| > 0 ==> !IsSpace(Strip(s)[0])
  {
    var u := TrimStart(s);
    TrimStartDropsLeadingSpace(s);
    TrimEndDropsTrailingSpace(u);
    var k := |s| - |u|;
    var t := Strip(s);
    assert u == s[k..];
    assert t == u[..|t|];
    assert u[..|t|] == s[k..k + |t|];
    forall i | k + |t| <= i < |s|
      ensures IsSpace(s[i])
    {
      assert s[i] == u[i - k];
    }
    if |t| > 0 {
      assert t[0] == u[0];
    }
  }

  /** Blank text is refused. */
  lemma ParseIntRefusesBlank(s: string)
    requires forall i :: 0 <= i < |s| ==> IsSpace(s[i])
    ensures ParseInt(s).None?
  {
    StripIsSlice(s);
  }

  /** What `int()` accepts: text made only of whitespace, digits,
      underscores and signs, holding at least one digit. */
  lemma ParseIntAccepts(s: string)
    requires ParseInt(s).Some?
    ensures forall i :: 0 <= i < |s| ==> IsLiteralChar(s[i])
    ensures exists i :: 0 <= i < |s| && IsDigit(s[i])
  {
    StripIsSlice(s);
    var t := Strip(s);
    var k := |s| - |TrimStart(s)|;
    var off := if t[0] == '-' || t[0] == '+' then 1 else 0;
    var body := t[off..];
    BodyChars(body);
    forall i | 0 <= i < |s|
      ensures IsLiteralChar(s[i])
    {
      if k <= i < k + |t| {
        assert s[i] == t[i - k];
        if i - k >= off {
          assert t[i - k] == body[i - k - off];
        }
      }
    }
    assert s[k + off] == body[0];
  }

  lemma BodyChars(body: string)
    requires IsDigitGroup(body)
    ensures forall i :: 0 <= i < |body| ==> IsDigit(body[i]) || body[i] == '_'
  {
    GroupTailChars(body[1..]);
    assert forall i :: 1 <= i < |body| ==> body[i] == body[1..][i - 1];
  }

  /** Decimal digits of `n` without leading zeros, as `str(n)` writes them. */
  function NatDigits(n: nat): (ds: string)
    ensures |ds| > 0
    ensures forall i :: 0 <= i < |ds| ==> IsDigit(ds[i])
  {
    if n < 10 then [DigitChar(n)] else NatDigits(n / 10) + [DigitChar(n % 10)]
  }

  /** `str(n)` for an integer `n`. */
  function FormatInt(n: int): (s: string)
    ensures |s| > 0
    ensures forall i :: 0 <= i < |s| ==> IsDigit(s[i]) || s[i] == '-'
  {
    if n < 0 then "-" + NatDigits(-n) else NatDigits(n)
  }

  /** The digits of `n` read back as `n`. */
  lemma {:induction false} NatDigitsValue(n: nat)
    ensures GroupValue(NatDigits(n)) == n
    decreases n
  {
    var ds := NatDigits(n);
    if n >= 10 {
      NatDigitsValue(n / 10);
      assert ds[..|ds| - 1] == NatDigits(n / 10);
    }
  }

  /** `int(str(n)) == n`. */
  lemma ParseFormatInt(n: int)
    ensures ParseInt(FormatInt(n)) == Some(n)
  {
    var s := FormatInt(n);
    var m: nat := if n < 0 then -n else n;
    var ds := NatDigits(m);
    FormatIntStrips(n);
    NatDigitsValue(m);
    NatDigitsGroup(m);
    if n < 0 {
      assert s[1..] == ds;
    }
  }

  lemma FormatIntStrips(n: int)
    ensures Strip(FormatInt(n)) == FormatInt(n)
  {
    var s := FormatInt(n);
    assert !IsSpace(s[0]) && !IsSpace(s[|s| - 1]);
    assert TrimStart(s) == s;
  }

  lemma NatDigitsGroup(n: nat)
    ensures IsDigitGroup(NatDigits(n))
  {
    var ds := NatDigits(n);
    DigitsAreGroupTail(ds[1..]);
  }

  /** `int()` accepts padding, a sign and digit grouping. */
  lemma PaddedGroupedLiteral()
    ensures ParseInt(" -1_0\n") == Some(-10)
  {
    StripPadded();
    GroupedTen();
    assert "-1_0"[1..] == "1_0";
    assert IsDigitGroup("1_0");
  }

  lemma StripPadded()
    ensures Strip(" -1_0\n") == "-1_0"
  {
    assert TrimStart(" -1_0\n") == "-1_0\n";
    assert TrimEnd("-1_0\n") == "-1_0";
  }

  lemma GroupedTen()
    ensures GroupValue("1_0") == 10
  {
    assert "1_0"[..2] == "1_";
    assert "1_"[..1] == "1";
    assert "1"[..0] == "";
  }

  /** `int()` refuses doubled underscores. */
  lemma DoubleUnderscoreRefused()
    ensures ParseInt("1__0") == None
  {
    assert Strip("1__0") == "1__0";
    assert !IsDigitGroup("1__0") by { assert "1__0"[1] == '_' && "1__0"[2] == '_'; }
  }

  /** `int()` refuses a sign without digits. */
  lemma BareSignRefused()
    ensures ParseInt("-") == None
  {
    assert Strip("-") == "-";
    assert "-"[1..] == "";
  }

  /** `int()` does not strip the ASCII file separator U+001C: it is not a
      digit, a sign or an underscore, so the text is refused. */
  lemma FileSeparatorRefused()
    ensures ParseInt("\U{1c}1") == None
  {
    var s := "\U{1c}1";
    if ParseInt(s).Some? {
      ParseIntAccepts(s);
    }
  }
}
