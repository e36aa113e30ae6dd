/**
 * Int32.Parse(string) with the default number style (leading and trailing white space and a
 * leading sign allowed, invariant-culture signs, NUL characters accepted at the very end) and
 * Int32.ToString(), as the proxy uses them for the port of a CONNECT target.
 */
module Int32Text {
  import opened Wrappers

  const Int32Min: int := -0x8000_0000
  const Int32Max: int := 0x7FFF_FFFF

  /** FormatException and OverflowException. */
  datatype ParseError = Format | Overflow

  /** The white space Int32.Parse skips: U+0009 to U+000D and the space. */
  predicate IsWhite(c: char)
  {
    c == ' ' || '\t' <= c <= '\r'
  }

  predicate IsDigit(c: char)
  {
    '0' <= c <= '9'
  }

  predicate AllDigits(s: string)
  {
    forall i :: 0 <= i < |s| ==> IsDigit(s[i])
  }

  /** The text without its leading white space. */
  function TrimStart(s: string): (t: string)
    ensures |t| <= |s| && t == s[|s| - |t|..]
    ensures forall i :: 0 <= i < |s| - |t| ==> IsWhite(s[i])
    ensures |t| == 0 || !IsWhite(t[0])
  {
    if |s| > 0 && IsWhite(s[0]) then TrimStart(s[1..]) else s
  }

  /** The text without its trailing white space. */
  function TrimEnd(s: string): (t: string)
    ensures |t| <= |s| && t == s[..|t|]
    ensures forall i :: |t| <= i < |s| ==> IsWhite(s[i])
    ensures |t| == 0 || !IsWhite(t[|t| - 1])
  {
    if |s| > 0 && IsWhite(s[|s| - 1]) then TrimEnd(s[..|s| - 1]) else s
  }

  /** The text without the NUL characters at its very end, which Int32.Parse ignores. */
  function TrimTrailingNuls(s: string): (t: string)
    ensures |t| <= |s| && t == s[..|t|]
    ensures forall i :: |t| <= i < |s| ==> s[i] == '\0'
    ensures |t| == 0 || t[|t| - 1] != '\0'
  {
    if |s| > 0 && s[|s| - 1] == '\0' then TrimTrailingNuls(s[..|s| - 1]) else s
  }

  function DigitValue(c: char): nat
    requires IsDigit(c)
  {
    c as int - '0' as int
  }

  function DigitChar(d: nat): (c: char)
    requires d < 10
    ensures IsDigit(c) && DigitValue(c) == d
  {
    ('0' as int + d) as char
  }

  /** The value of a run of decimal digits, most significant first. */
  function DigitsValue(s: string): nat
    requires AllDigits(s)
  {
    if |s| == 0 then 0 else 10 * DigitsValue(s[..|s| - 1]) + DigitValue(s[|s| - 1])
  }

  /** The decimal digits of n, without leading zeros. */
  function Decimal(n: nat): (s: string)
    ensures |s| >= 1 && AllDigits(s)
    ensures |s| > 1 ==> s[0] != '0'
  {
    if n < 10 then [DigitChar(n)] else Decimal(n / 10) + [DigitChar(n % 10)]
  }

  /** Int32.ToString(): a minus sign for negative numbers, then the digits. */
  function Render(n: int): (s: string)
    ensures |s| >= 1 && !IsWhite(s[0]) && IsDigit(s[|s| - 1])
  {
    if n < 0 then "-" + Decimal(-n) else Decimal(n)
  }

  /** An optional '+' or '-' and at least one digit, read as a 32-bit number. */
  function ParseSigned(t: string): (r: Result<int, ParseError>)
    ensures r.Ok? ==> Int32Min <= r.value <= Int32Max
  {
    var negative := |t| > 0 && t[0] == '-';
    var digits := if |t| > 0 && (t[0] == '-' || t[0] == '+') then t[1..] else t;
    if |digits| == 0 || !AllDigits(digits) then Err(Format)
    else
      var magnitude: int := DigitsValue(digits);
      var v := if negative then -magnitude else magnitude;
      if v < Int32Min || Int32Max < v then Err(Overflow) else Ok(v)
  }

  /**
   * Int32.Parse: leading white space, an optional '+' or '-', at least one digit, trailing white
   * space and trailing NUL characters, in that order, and nothing else (Format otherwise); a
   * value outside the 32-bit range is Overflow.
   */
  function ParseInt(s: string): (r: Result<int, ParseError>)
    ensures r.Ok? ==> Int32Min <= r.value <= Int32Max
  {
    ParseSigned(Core(s))
  }

  /** The text between the leading white space and the trailing white space and NULs. */
  function Core(s: string): string
  {
    TrimEnd(TrimTrailingNuls(TrimStart(s)))
  }

  /** A rendered number reads back as itself, in or out of the 32-bit range. */
  lemma ParseSignedRender(n: int)
    ensures ParseSigned(Render(n)) == if Int32Min <= n <= Int32Max then Ok(n) else Err(Overflow)
  {
    if n < 0 {
      DigitsOfDecimal(-n);
      assert Render(n)[1..] == Decimal(-n);
    } else {
      DigitsOfDecimal(n);
    }
  }

  /** The digits of a number read back as that number. */
  lemma {:induction false} DigitsOfDecimal(n: nat)
    ensures DigitsValue(Decimal(n)) == n
  {
    if n >= 10 {
      var x := Decimal(n / 10);
      var s := x + [DigitChar(n % 10)];
      assert s[..|s| - 1] == x;
      DigitsOfDecimal(n / 10);
    }
  }

  /** Text that neither starts nor ends with white space or a NUL is not trimmed. */
  lemma TrimNothing(s: string)
    requires |s| >= 1 && !IsWhite(s[0]) && !IsWhite(s[|s| - 1]) && s[|s| - 1] != '\0'
    ensures Core(s) == s
  {
  }

  /** Every 32-bit number survives rendering and parsing. */
  lemma ParseRender(n: int)
    requires Int32Min <= n <= Int32Max
    ensures ParseInt(Render(n)) == Ok(n)
  {
    TrimNothing(Render(n));
    ParseSignedRender(n);
  }

  /** A number outside the 32-bit range is refused as an overflow, not misread. */
  lemma ParseRenderOverflow(n: int)
    requires n < Int32Min || Int32Max < n
    ensures ParseInt(Render(n)) == Err(Overflow)
  {
    TrimNothing(Render(n));
    ParseSignedRender(n);
  }

  /** White space around the text does not change what it parses to. */
  lemma ParseSkipsWhite(w: string, s: string, v: string)
    requires forall i :: 0 <= i < |w| ==> IsWhite(w[i])
    requires forall i :: 0 <= i < |v| ==> IsWhite(v[i])
    requires |s| >= 1 && !IsWhite(s[0]) && !IsWhite(s[|s| - 1]) && s[|s| - 1] != '\0'
    ensures ParseInt(w + s + v) == ParseInt(s)
  {
    CorePadded(w, s, v);
    TrimNothing(s);
  }

  /** The core of white-padded text is the text itself. */
  lemma CorePadded(w: string, s: string, v: string)
    requires forall i :: 0 <= i < |w| ==> IsWhite(w[i])
    requires forall i :: 0 <= i < |v| ==> IsWhite(v[i])
    requires |s| >= 1 && !IsWhite(s[0]) && !IsWhite(s[|s| - 1]) && s[|s| - 1] != '\0'
    ensures Core(w + s + v) == s
  {
    var x := s + v;
    assert x[|x| - 1] != '\0' by {
      if |v| > 0 { assert x[|x| - 1] == v[|v| - 1]; } else { assert x == s; }
    }
    assert w + s + v == w + x;
    TrimStartWhite(w, x);
    assert TrimTrailingNuls(x) == x;
    TrimEndWhite(s, v);
  }

  /** Leading white space is dropped up to the first other character. */
  lemma {:induction false} TrimStartWhite(w: string, s: string)
    requires forall i :: 0 <= i < |w| ==> IsWhite(w[i])
    requires |s| >= 1 && !IsWhite(s[0])
    ensures TrimStart(w + s) == s
    decreases |w|
  {
    if |w| > 0 {
      assert (w + s)[1..] == w[1..] + s;
      TrimStartWhite(w[1..], s);
    } else {
      assert w + s == s;
    }
  }

  /** Trailing white space is dropped back to the last other character. */
  lemma {:induction false} TrimEndWhite(s: string, v: string)
    requires forall i :: 0 <= i < |v| ==> IsWhite(v[i])
    requires |s| >= 1 && !IsWhite(s[|s| - 1])
    ensures TrimEnd(s + v) == s
    decreases |v|
  {
    if |v| > 0 {
      assert (s + v)[..|s + v| - 1] == s + v[..|v| - 1];
      TrimEndWhite(s, v[..|v| - 1]);
    } else {
      assert s + v == s;
    }
  }

  /**
   * Text with a character that is no digit, sign or white space is a format error, unless that
   * character is a NUL followed by nothing but NULs.
   */
  lemma ParseRejectsStrayCharacter(s: string, i: nat)
    requires i < |s| && !IsDigit(s[i]) && !IsWhite(s[i]) && s[i] != '-' && s[i] != '+'
    requires s[i] != '\0' || exists j :: i < j < |s| && s[j] != '\0'
    ensures ParseInt(s) == Err(Format)
  {
    var j := i;
    if s[i] == '\0' {
      j :| i < j < |s| && s[j] != '\0';
    }
    var k := KeptByTrimming(s, i, j);
    StrayCharacterInNumber(Core(s), k);
  }

  /** Where a character that is not white space, and that a non-NUL follows, ends up after trimming. */
  lemma KeptByTrimming(s: string, i: nat, j: nat) returns (k: nat)
    requires i <= j < |s| && !IsWhite(s[i]) && s[j] != '\0'
    ensures k < |Core(s)| && Core(s)[k] == s[i]
  {
    var head := TrimStart(s);
    var m;
    k, m := KeptByStartTrim(s, i, j);
    KeptByNulTrim(head, k, m);
    KeptByEndTrim(TrimTrailingNuls(head), k);
  }

  /** Trimming the leading white space moves a non-white character and any later one alike. */
  lemma KeptByStartTrim(s: string, i: nat, j: nat) returns (k: nat, m: nat)
    requires i <= j < |s| && !IsWhite(s[i])
    ensures k <= m < |TrimStart(s)| && TrimStart(s)[k] == s[i] && TrimStart(s)[m] == s[j]
  {
    var head := TrimStart(s);
    var offset := |s| - |head|;
    assert head == s[offset..];
    assert offset <= i;
    k, m := i - offset, j - offset;
    assert head[k] == s[i];
    assert head[m] == s[j];
  }

  /** A character before a non-NUL one survives trimming the final NULs. */
  lemma KeptByNulTrim(head: string, k: nat, j: nat)
    requires k <= j < |head| && head[j] != '\0'
    ensures k < |TrimTrailingNuls(head)| && TrimTrailingNuls(head)[k] == head[k]
  {
  }

  /** A character that is not white space survives trimming the final white space. */
  lemma KeptByEndTrim(body: string, k: nat)
    requires k < |body| && !IsWhite(body[k])
    ensures k < |TrimEnd(body)| && TrimEnd(body)[k] == body[k]
  {
  }

  /** A number text holding a character that is no digit and no sign is a format error. */
  lemma StrayCharacterInNumber(t: string, k: nat)
    requires k < |t| && !IsDigit(t[k]) && t[k] != '-' && t[k] != '+'
    ensures ParseSigned(t) == Err(Format)
  {
    if |t| > 0 && (t[0] == '-' || t[0] == '+') {
      assert t[1..][k - 1] == t[k];
    }
  }

  /** Leading white space is trimmed the same way when text not starting with white space follows. */
  lemma {:induction false} TrimStartAppend(s: string, z: string)
    requires |z| == 0 || !IsWhite(z[0])
    ensures TrimStart(s + z) == TrimStart(s) + z
    decreases |s|
  {
    if |s| > 0 && IsWhite(s[0]) {
      assert (s + z)[1..] == s[1..] + z;
      TrimStartAppend(s[1..], z);
    } else if |s| == 0 {
      assert s + z == z;
    }
  }

  /** Appended NULs are trimmed away again. */
  lemma {:induction false} TrimTrailingNulsAppend(s: string, z: string)
    requires forall i :: 0 <= i < |z| ==> z[i] == '\0'
    ensures TrimTrailingNuls(s + z) == TrimTrailingNuls(s)
    decreases |z|
  {
    if |z| > 0 {
      assert (s + z)[..|s + z| - 1] == s + z[..|z| - 1];
      TrimTrailingNulsAppend(s, z[..|z| - 1]);
    } else {
      assert s + z == s;
    }
  }

  /** NUL characters appended to the text do not change what it parses to. */
  lemma ParseSkipsTrailingNuls(s: string, z: string)
    requires forall i :: 0 <= i < |z| ==> z[i] == '\0'
    ensures ParseInt(s + z) == ParseInt(s)
  {
    CoreIgnoresNuls(s, z);
  }

  /** Appended NULs leave the core unchanged. */
  lemma CoreIgnoresNuls(s: string, z: string)
    requires forall i :: 0 <= i < |z| ==> z[i] == '\0'
    ensures Core(s + z) == Core(s)
  {
    TrimStartAppend(s, z);
    TrimTrailingNulsAppend(TrimStart(s), z);
  }

  /** A 32-bit number followed by white space and then NULs reads back as itself. */
  lemma ParseRenderWhiteNuls(n: int, v: string, z: string)
    requires Int32Min <= n <= Int32Max
    requires forall i :: 0 <= i < |v| ==> IsWhite(v[i])
    requires forall i :: 0 <= i < |z| ==> z[i] == '\0'
    ensures ParseInt(Render(n) + v + z) == Ok(n)
  {
    ParseSkipsTrailingNuls(Render(n) + v, z);
    ParseRenderWhite(n, v);
  }

  /** A 32-bit number followed by white space reads back as itself. */
  lemma ParseRenderWhite(n: int, v: string)
    requires Int32Min <= n <= Int32Max
    requires forall i :: 0 <= i < |v| ==> IsWhite(v[i])
    ensures ParseInt(Render(n) + v) == Ok(n)
  {
    var r := Render(n);
    assert [] + r + v == r + v;
    ParseSkipsWhite([], r, v);
    ParseRender(n);
  }

  /** A NUL that white space follows is not a trailing NUL: the text is a format error. */
  lemma ParseNulBeforeWhite(n: int, v: string)
    requires |v| > 0 && forall i :: 0 <= i < |v| ==> IsWhite(v[i])
    ensures ParseInt(Render(n) + ['\0'] + v) == Err(Format)
  {
    var s := Render(n) + ['\0'] + v;
    var i := |Render(n)|;
    assert s[i] == '\0' && s[i + 1] == v[0];
    ParseRejectsStrayCharacter(s, i);
  }
}
