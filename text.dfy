/**
 * Models of the Go standard-library string helpers the package calls:
 * strconv.FormatUint, strconv.ParseFloat (on plain decimals), strings.Split
 * on a single space and strings.TrimSpace.
 */
module Text {
  import opened Wrappers

  predicate IsDigit(c: char) { '0' <= c <= '9' }

  predicate AllDigits(t: string) { forall i :: 0 <= i < |t| ==> IsDigit(t[i]) }

  function DigitValue(c: char): nat
    requires IsDigit(c)
  {
    c as int - '0' as int
  }

  function DigitChar(n: nat): (c: char)
    requires n < 10
    ensures IsDigit(c) && DigitValue(c) == n
  {
    ('0' as int + n) as char
  }

  /** The number that a run of decimal digits spells, most significant digit first. */
  function DigitsValue(t: string): nat
    requires AllDigits(t)
  {
    if t == [] then 0 else DigitsValue(t[..|t| - 1]) * 10 + DigitValue(t[|t| - 1])
  }

  /** strconv.FormatUint(n, 10): the decimal digits of n, without leading zeros. */
  function FormatUint(n: nat): (s: string)
    ensures |s| > 0 && AllDigits(s)
    ensures DigitsValue(s) == n
    ensures s[0] == '0' ==> s == "0"
  {
    if n < 10 then [DigitChar(n)]
    else
      var s := FormatUint(n / 10) + [DigitChar(n % 10)];
      assert s[..|s| - 1] == FormatUint(n / 10);
      s
  }

  /** A slice of the back part of a concatenation is a slice of that part. */
  lemma ConcatSlice(p: string, r: string, i: nat, j: nat)
    requires i <= j <= |r|
    ensures (p + r)[|p| + i..|p| + j] == r[i..j]
  {
    assert forall k :: 0 <= k < j - i ==> (p + r)[|p| + i..|p| + j][k] == r[i..j][k];
  }

  /** The position of the first `ch` in `t`, or |t| when there is none. */
  function IndexOf(t: string, ch: char): (k: nat)
    ensures k <= |t|
    ensures k < |t| ==> t[k] == ch
  {
    if t == [] then 0
    else if t[0] == ch then 0
    else 1 + IndexOf(t[1..], ch)
  }

  /** IndexOf finds the first `ch`: it is at k exactly when k holds `ch` and no position before it does. */
  lemma {:induction false} IndexOfFirst(t: string, ch: char, k: nat)
    requires k <= |t|
    ensures IndexOf(t, ch) == k <==> (k < |t| ==> t[k] == ch) && forall i :: 0 <= i < k ==> t[i] != ch
  {
    if t != [] && t[0] != ch && k > 0 {
      IndexOfFirst(t[1..], ch, k - 1);
      assert forall i :: 1 <= i < k ==> t[i] == t[1..][i - 1];
    }
  }

  /** An exact decimal number: (-1 if negative) * mantissa / 10^scale. */
  datatype Decimal = Decimal(negative: bool, mantissa: nat, scale: nat)

  /** The decimal is below zero (a negative zero is not). */
  predicate IsNegative(c: Decimal) { c.negative && c.mantissa > 0 }

  /** The characters of a decimal literal, digits and '.'; ParseDuration's scanner calls them numeric and all others unit characters. */
  predicate IsNumeric(c: char) { IsDigit(c) || c == '.' }

  /**
   * What a left-to-right reading of a decimal literal has seen so far: the
   * digits as one number, how many of them follow the point, whether the
   * point was seen and whether any digit was.
   */
  datatype Literal = Literal(mantissa: nat, scale: nat, point: bool, digit: bool)

  /** Reads digits and at most one '.'; any other character, or a second '.', rejects the literal. */
  function ScanLiteral(t: string): Option<Literal>
    decreases |t|
  {
    if t == [] then Some(Literal(0, 0, false, false))
    else
      match ScanLiteral(t[..|t| - 1])
      case None => None
      case Some(l) =>
        var c := t[|t| - 1];
        if IsDigit(c) then
          Some(Literal(l.mantissa * 10 + DigitValue(c), if l.point then l.scale + 1 else l.scale, l.point, true))
        else if c == '.' && !l.point then Some(l.(point := true))
        else None
  }

  /**
   * An unsigned decimal literal: digits with at most one decimal point and at
   * least one digit ("12", "1.5", ".5", "5.").
   */
  function ParseUnsignedDecimal(t: string): (r: Option<Decimal>)
    ensures r.Some? ==> !r.value.negative
  {
    match ScanLiteral(t)
    case Some(l) => if l.digit then Some(Decimal(false, l.mantissa, l.scale)) else None
    case None => None
  }

  /** ScanLiteral accepts exactly the texts of digits and '.' with at most one '.', and notes whether a digit and a point occur. */
  lemma {:induction false} ScanLiteralAccepts(t: string)
    ensures ScanLiteral(t).Some? <==>
      (forall i :: 0 <= i < |t| ==> IsNumeric(t[i])) &&
      (forall i, j :: 0 <= i < j < |t| ==> !(t[i] == '.' && t[j] == '.'))
    ensures ScanLiteral(t).Some? ==> (ScanLiteral(t).value.digit <==> exists i :: 0 <= i < |t| && IsDigit(t[i]))
    ensures ScanLiteral(t).Some? ==> (ScanLiteral(t).value.point <==> exists i :: 0 <= i < |t| && t[i] == '.')
    decreases |t|
  {
    if t != [] {
      var init := t[..|t| - 1];
      ScanLiteralAccepts(init);
      assert forall i :: 0 <= i < |init| ==> init[i] == t[i];
    }
  }

  /** The literals ParseUnsignedDecimal accepts are exactly the digit strings with at most one '.' and some digit. */
  lemma ParseUnsignedDecimalAccepts(t: string)
    ensures ParseUnsignedDecimal(t).Some? <==>
      (forall i :: 0 <= i < |t| ==> IsNumeric(t[i])) &&
      (forall i, j :: 0 <= i < j < |t| ==> !(t[i] == '.' && t[j] == '.')) &&
      (exists i :: 0 <= i < |t| && IsDigit(t[i]))
  {
    ScanLiteralAccepts(t);
  }

  /** A run of digits reads as the number it spells, with no point. */
  lemma {:induction false} ScanDigits(w: string)
    requires AllDigits(w)
    ensures ScanLiteral(w) == Some(Literal(DigitsValue(w), 0, false, w != []))
    decreases |w|
  {
    if w != [] {
      ScanDigits(w[..|w| - 1]);
    }
  }

  /**
   * The meaning of a literal with a point: whole.frac reads as the number
   * spelt by all its digits, scaled down by the number of digits after the point.
   */
  lemma {:induction false} ScanFraction(whole: string, frac: string)
    requires AllDigits(whole) && AllDigits(frac)
    ensures AllDigits(whole + frac)
    ensures ScanLiteral(whole + "." + frac) ==
      Some(Literal(DigitsValue(whole + frac), |frac|, true, whole != [] || frac != []))
    decreases |frac|
  {
    var t := whole + "." + frac;
    if frac == [] {
      ScanDigits(whole);
      assert t[..|t| - 1] == whole;
      assert whole + frac == whole;
    } else {
      var init := frac[..|frac| - 1];
      ScanFraction(whole, init);
      assert t[..|t| - 1] == whole + "." + init;
      assert (whole + frac)[..|whole + frac| - 1] == whole + init;
    }
  }

  /**
   * strconv.ParseFloat(t, 64) on plain decimal literals with an optional sign,
   * as an exact value. Exponents, "inf", "nan", hexadecimal forms and range
   * errors are not modelled.
   */
  function ParseFloat(t: string): Option<Decimal> {
    if |t| > 0 && (t[0] == '+' || t[0] == '-') then
      match ParseUnsignedDecimal(t[1..])
      case None => None
      case Some(c) => Some(c.(negative := t[0] == '-'))
    else
      ParseUnsignedDecimal(t)
  }

  /** The digits of any number read back as that number, with no fractional part. */
  lemma ParseFloatFormatUint(n: nat)
    ensures ParseFloat(FormatUint(n)) == Some(Decimal(false, n, 0))
  {
    ScanDigits(FormatUint(n));
  }

  /** strings.Join(ts, " "). */
  function JoinSpaces(ts: seq<string>): string {
    if |ts| == 0 then ""
    else if |ts| == 1 then ts[0]
    else ts[0] + " " + JoinSpaces(ts[1..])
  }

  /** strings.Split(s, " "): the pieces between single spaces, empty pieces included. */
  function Split(s: string): (r: seq<string>)
    ensures |r| > 0
    decreases |s|
  {
    var k := IndexOf(s, ' ');
    if k == |s| then [s] else [s[..k]] + Split(s[k + 1..])
  }

  /** Split cuts at every space and at nothing else: its pieces hold no space and join back into the text. */
  lemma {:induction false} SplitPieces(s: string)
    ensures forall i :: 0 <= i < |Split(s)| ==> ' ' !in Split(s)[i]
    ensures JoinSpaces(Split(s)) == s
    decreases |s|
  {
    var k := IndexOf(s, ' ');
    IndexOfFirst(s, ' ', k);
    if k == |s| {
      assert s[..k] == s;
    } else {
      var rest := Split(s[k + 1..]);
      SplitPieces(s[k + 1..]);
      var r := [s[..k]] + rest;
      assert r[1..] == rest;
      assert s == s[..k] + " " + s[k + 1..];
    }
  }

  /** Split undoes Join on a non-empty list of space-free pieces. */
  lemma {:induction false} SplitJoinSpaces(ts: seq<string>)
    requires |ts| > 0
    requires forall i :: 0 <= i < |ts| ==> ' ' !in ts[i]
    ensures Split(JoinSpaces(ts)) == ts
  {
    var s := JoinSpaces(ts);
    if |ts| == 1 {
      IndexOfFirst(s, ' ', |s|);
    } else {
      var t0, rest := ts[0], JoinSpaces(ts[1..]);
      assert s == t0 + " " + rest;
      assert IndexOf(s, ' ') == |t0| by {
        assert s[|t0|] == ' ';
        assert forall i :: 0 <= i < |t0| ==> s[i] == t0[i];
        IndexOfFirst(s, ' ', |t0|);
      }
      assert s[..|t0|] == t0;
      assert s[|t0| + 1..] == rest;
      SplitJoinSpaces(ts[1..]);
    }
  }

  /** The characters that Go's unicode.IsSpace accepts, which strings.TrimSpace removes. */
  predicate IsSpace(c: char) {
    c == ' ' || c == '\t' || c == '\n' || c == '\r' ||
    c as int == 0x0B || c as int == 0x0C || c as int == 0x85 || c as int == 0xA0 ||
    c as int == 0x1680 || (0x2000 <= c as int <= 0x200A) ||
    c as int == 0x2028 || c as int == 0x2029 || c as int == 0x202F ||
    c as int == 0x205F || c as int == 0x3000
  }

  /** The number of white-space characters that `s` begins with. */
  function LeadingSpaces(s: string): (n: nat)
    ensures n <= |s|
    ensures forall k :: 0 <= k < n ==> IsSpace(s[k])
    ensures n == |s| || !IsSpace(s[n])
  {
    if s != [] && IsSpace(s[0]) then 1 + LeadingSpaces(s[1..]) else 0
  }

  /** The number of white-space characters that `s` ends with. */
  function TrailingSpaces(s: string): (n: nat)
    ensures n <= |s|
    ensures forall k :: |s| - n <= k < |s| ==> IsSpace(s[k])
    ensures n == |s| || !IsSpace(s[|s| - n - 1])
  {
    if s != [] && IsSpace(s[|s| - 1]) then 1 + TrailingSpaces(s[..|s| - 1]) else 0
  }

  /** strings.TrimSpace: `s` without its leading and trailing white space. */
  function TrimSpace(s: string): string {
    var left := s[LeadingSpaces(s)..];
    left[..|left| - TrailingSpaces(left)]
  }

  /**
   * The trim is a slice of `s` after its leading white space and before
   * trailing white space only; it is empty or begins and ends with a
   * non-space character.
   */
  lemma TrimSpaceTrims(s: string)
    ensures var r, lead := TrimSpace(s), LeadingSpaces(s);
      lead + |r| <= |s| && r == s[lead..lead + |r|] &&
      (forall k :: lead + |r| <= k < |s| ==> IsSpace(s[k])) &&
      (r != [] ==> !IsSpace(r[0]) && !IsSpace(r[|r| - 1]))
  {
    var lead := LeadingSpaces(s);
    var left := s[lead..];
    var t := TrailingSpaces(left);
    var r := left[..|left| - t];
    assert r == TrimSpace(s);
    assert r == s[lead..lead + |r|];
    forall k | lead + |r| <= k < |s|
      ensures IsSpace(s[k])
    {
      assert s[k] == left[k - lead];
    }
    if r != [] {
      assert r[0] == s[lead];
      assert r[|r| - 1] == left[|left| - t - 1];
    }
  }

  /** A text that begins and ends with a non-space character is its own trim. */
  lemma TrimSpaceKeeps(s: string)
    requires s != [] && !IsSpace(s[0]) && !IsSpace(s[|s| - 1])
    ensures TrimSpace(s) == s
  {
    assert LeadingSpaces(s) == 0;
    assert s[0..] == s;
  }
}
