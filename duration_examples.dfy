/**
 * The cases of TestParseDuration and TestDuration_String
 * (duration_test.go:15-23, 40-45). A case with numbers in it is first
 * stated for every choice of those numbers, and the test's own text is the
 * instance with the numbers it writes ("1m1s" is m = 1, s = 1 of
 * ParseMinutesSeconds). The String cases and the failing texts are proved
 * as the test writes them.
 */
module DurationExamples {
  import opened Wrappers
  import opened Text
  import opened Duration
  import opened DurationFacts
  import opened Format

  /** The digits of a number make a coefficient. */
  lemma WholeIsNumeric(n: nat)
    ensures |FormatUint(n)| > 0 && forall k :: 0 <= k < |FormatUint(n)| ==> IsNumeric(FormatUint(n)[k])
  {
  }

  /** A coefficient with one digit after the point, "w.f". */
  function Tenths(w: nat, f: nat): (t: string)
    requires f < 10
    ensures |t| > 0 && forall k :: 0 <= k < |t| ==> IsNumeric(t[k])
  {
    FormatUint(w) + "." + [DigitChar(f)]
  }

  /** "w.f" reads as the exact decimal (10 w + f) / 10. */
  lemma ParseTenths(w: nat, f: nat)
    requires f < 10
    ensures ParseFloat(Tenths(w, f)) == Some(Decimal(false, 10 * w + f, 1))
  {
    var whole, frac := FormatUint(w), [DigitChar(f)];
    ScanFraction(whole, frac);
    assert (whole + frac)[..|whole + frac| - 1] == whole;
    assert DigitsValue(whole + frac) == 10 * w + f;
    assert Tenths(w, f)[0] == whole[0];
  }

  /** "w.f" of a unit is (10 w + f) tenths of its multiplier, truncated to whole seconds. */
  lemma TermOfTenths(w: nat, f: nat, i: nat)
    requires f < 10 && i < |UNITS|
    ensures Term(Tenths(w, f), UNITS[i].symbol) == Ok((10 * w + f) * Multiplier(i) / 10)
  {
    ParseTenths(w, f);
    var c := Decimal(false, 10 * w + f, 1);
    TermOfRow(Tenths(w, f), c, i);
    var x := (10 * w + f) * Multiplier(i);
    assert Truncated(c, Multiplier(i)) == DropDigits(x, 1) == DropDigits(x / 10, 0) == x / 10;
  }

  /** A whole number of the unit written `symbol`. */
  lemma WholeTerm(n: nat, i: nat, symbol: string, multiplier: nat)
    requires i < |UNITS| && UNITS[i] == Unit(symbol, multiplier)
    ensures Term(FormatUint(n), symbol) == Ok(n * multiplier)
  {
    TermOfPiece(n, i);
  }

  /** Tenths of the unit written `symbol`. */
  lemma TenthsTerm(w: nat, f: nat, i: nat, symbol: string, multiplier: nat)
    requires f < 10 && i < |UNITS| && UNITS[i] == Unit(symbol, multiplier)
    ensures Term(Tenths(w, f), symbol) == Ok((10 * w + f) * multiplier / 10)
  {
    TermOfTenths(w, f, i);
  }

  /** The value of "<m>m<s>s" through its two tokens. */
  lemma MinutesSecondsTokens(m: nat, s: nat)
    ensures ValueFrom(FormatUint(m) + "m" + FormatUint(s) + "s", 0, Term) == Add(Term(FormatUint(m), "m"), Term(FormatUint(s), "s"))
  {
    WholeIsNumeric(m);
    WholeIsNumeric(s);
    OneToken(FormatUint(m), "m", Term);
    AppendToken(FormatUint(m) + "m", FormatUint(s), "s", Term);
  }

  lemma MinutesSecondsTerms(m: nat, s: nat)
    ensures Add(Term(FormatUint(m), "m"), Term(FormatUint(s), "s")) == Ok(m * 60 + s)
  {
    WholeTerm(m, 1, "m", 60);
    WholeTerm(s, 0, "s", 1);
  }

  /** "1m" is 60 seconds: n minutes. */
  lemma ParseMinutes(n: nat)
    ensures DurationValue(FormatUint(n) + "m") == Ok(n * 60)
  {
    WholeTerm(n, 1, "m", 60);
    WholeIsNumeric(n);
    OneToken(FormatUint(n), "m", Term);
  }

  /** "1m1s" is 61 seconds: m minutes and s seconds. */
  lemma ParseMinutesSeconds(m: nat, s: nat)
    ensures DurationValue(FormatUint(m) + "m" + FormatUint(s) + "s") == Ok(m * 60 + s)
  {
    MinutesSecondsTokens(m, s);
    MinutesSecondsTerms(m, s);
  }

  /** "1.5m" is 90 seconds: w.f minutes. */
  lemma ParseTenthsOfMinutes(w: nat, f: nat)
    requires f < 10
    ensures DurationValue(Tenths(w, f) + "m") == Ok((10 * w + f) * 60 / 10)
  {
    TenthsTerm(w, f, 1, "m", 60);
    OneToken(Tenths(w, f), "m", Term);
  }

  /** "double token": "1m1s" is 61 seconds. */
  lemma OneMinuteOneSecond()
    ensures DurationValue("1m1s") == Ok(61)
  {
    ParseMinutesSeconds(1, 1);
    assert FormatUint(1) + "m" + FormatUint(1) + "s" == "1m1s";
  }

  /** "decimal": "1.5m" is 90 seconds. */
  lemma OneAndAHalfMinutes()
    ensures DurationValue("1.5m") == Ok(90)
  {
    ParseTenthsOfMinutes(1, 5);
    assert Tenths(1, 5) + "m" == "1.5m";
  }

  lemma WeeksHoursTokens(a: nat, b: nat, c: nat, d: nat)
    requires b < 10 && d < 10
    ensures ValueFrom(Tenths(a, b) + "w" + Tenths(c, d) + "h", 0, Term) == Add(Term(Tenths(a, b), "w"), Term(Tenths(c, d), "h"))
  {
    OneToken(Tenths(a, b), "w", Term);
    AppendToken(Tenths(a, b) + "w", Tenths(c, d), "h", Term);
  }

  lemma WeeksHoursTerms(a: nat, b: nat, c: nat, d: nat)
    requires b < 10 && d < 10
    ensures Add(Term(Tenths(a, b), "w"), Term(Tenths(c, d), "h")) == Ok((10 * a + b) * 604800 / 10 + (10 * c + d) * 3600 / 10)
  {
    TenthsTerm(a, b, 4, "w", 604800);
    TenthsTerm(c, d, 2, "h", 3600);
  }

  /** "1.5w1.5h" is 1.5 weeks and 1.5 hours, 912600 seconds: a.b weeks and c.d hours. */
  lemma ParseTenthsOfWeeksHours(a: nat, b: nat, c: nat, d: nat)
    requires b < 10 && d < 10
    ensures DurationValue(Tenths(a, b) + "w" + Tenths(c, d) + "h") == Ok((10 * a + b) * 604800 / 10 + (10 * c + d) * 3600 / 10)
  {
    WeeksHoursTokens(a, b, c, d);
    WeeksHoursTerms(a, b, c, d);
  }

  /** One and a half is written "1.5". */
  lemma OneAndAHalf()
    ensures Tenths(1, 5) == "1.5"
  {
    assert FormatUint(1) == "1" && DigitChar(5) == '5';
  }

  /** "double decimal": "1.5w1.5h" is 7 * 1.5 * 86400 + 3600 * 1.5 = 912600 seconds. */
  lemma OneAndAHalfWeeksHours()
    ensures DurationValue("1.5w1.5h") == Ok(912600)
  {
    ParseTenthsOfWeeksHours(1, 5, 1, 5);
    OneAndAHalf();
    assert (10 * 1 + 5) * 604800 / 10 + (10 * 1 + 5) * 3600 / 10 == 912600;
    var t := "1.5";
    assert t + "w" + t + "h" == "1.5w1.5h";
  }

  /** n of the unit in row i of the table: n times its multiplier. */
  lemma ParseWholeUnits(n: nat, i: nat)
    requires i < |UNITS|
    ensures DurationValue(FormatUint(n) + UNITS[i].symbol) == Ok(n * Multiplier(i))
  {
    SymbolsDistinct();
    WholeTerm(n, i, UNITS[i].symbol, Multiplier(i));
    WholeIsNumeric(n);
    OneToken(FormatUint(n), UNITS[i].symbol, Term);
  }

  /** "1x" is an error: a number followed by a symbol outside the table is an unknown unit. */
  lemma ParseUnknownUnit(n: nat, x: string)
    requires |x| > 0 && (forall k :: 0 <= k < |x| ==> !IsNumeric(x[k]))
    requires forall i :: 0 <= i < |UNITS| ==> UNITS[i].symbol != x
    ensures DurationValue(FormatUint(n) + x) == Err(UnknownUnit(x))
  {
    WholeIsNumeric(n);
    OneToken(FormatUint(n), x, Term);
    ParseFloatFormatUint(n);
    LookupUnitFinds(x);
  }

  /** "bad unit": "1x" names no unit of the table. */
  lemma BadUnit()
    ensures DurationValue("1x") == Err(UnknownUnit("x"))
  {
    ParseUnknownUnit(1, "x");
    assert FormatUint(1) + "x" == "1x";
  }

  /**
   * A coefficient with two decimal points is no number: a numeric run holding
   * '.' at two places, followed by a unit, fails on that coefficient.
   */
  lemma ParseTwoPoints(t: string, x: string, i: nat, j: nat)
    requires |t| > 0 && (forall k :: 0 <= k < |t| ==> IsNumeric(t[k]))
    requires |x| > 0 && (forall k :: 0 <= k < |x| ==> !IsNumeric(x[k]))
    requires i < j < |t| && t[i] == '.' && t[j] == '.'
    ensures DurationValue(t + x) == Err(BadCoefficient(t))
  {
    OneToken(t, x, Term);
    ScanLiteralAccepts(t);
    assert ParseFloat(t) == None;
  }

  /** "bad number": the coefficient "1..3" of "1..3m" is no decimal number. */
  lemma BadNumber()
    ensures DurationValue("1..3m") == Err(BadCoefficient("1..3"))
  {
    ParseTwoPoints("1..3", "m", 1, 2);
    assert "1..3" + "m" == "1..3m";
  }

  /** "bad negative number": the "-" of "-1.3m" is a unit with an empty coefficient before it. */
  lemma BadNegativeNumber()
    ensures DurationValue("-1.3m") == Err(BadCoefficient(""))
  {
    ValueLeadingUnit("-1.3m", 1);
  }

  /** A text that renders canonical counts of total d parses to d and is how d is written. */
  lemma {:induction false} CanonicalText(c: seq<nat>, d: nat, text: string)
    requires IsCanonical(c) && Total(c) == d && d > 0 && Render(c) == text
    ensures DurationValue(text) == Ok(d) && Canonical(d) == text
  {
    RenderRoundTrip(c);
  }

  /** 1 minute is written "1m". */
  lemma {:induction false} OneMinuteRender(c: seq<nat>)
    requires c == [0, 1, 0, 0, 0, 0, 0]
    ensures Render(c) == "1m"
  {
    RenderSkipsZeros(c, 2, 7);
    assert RenderBelow(c, 1) == Piece(c, 0) + RenderBelow(c, 0) == "";
    assert Piece(c, 1) == "1m";
    assert RenderBelow(c, 2) == Piece(c, 1) + RenderBelow(c, 1);
    AppendEmpty(Piece(c, 1));
  }

  /** "1m" is read as 60 seconds and 60 seconds is written "1m". */
  lemma StringOneMinute()
    ensures DurationValue("1m") == Ok(60) && Canonical(60) == "1m"
  {
    var c := [0, 1, 0, 0, 0, 0, 0];
    CanonicalWrittenOut(c);
    TotalWrittenOut(c);
    OneMinuteRender(c);
    CanonicalText(c, 60, "1m");
  }

  /** The four pieces of 1 year, 3 months, 1 hour and 10 seconds. */
  lemma {:induction false} MixedPieces(c: seq<nat>)
    requires c == [10, 0, 1, 0, 0, 3, 1]
    ensures RenderBelow(c, 1) == "10s" && Piece(c, 2) == "1h" && Piece(c, 5) == "3mo" && Piece(c, 6) == "1y"
  {
    assert FormatUint(10) == "10";
  }

  /** The counts of 1 year, 3 months, 1 hour and 10 seconds are written "1y3mo1h10s". */
  lemma {:induction false} MixedRender(c: seq<nat>)
    requires c == [10, 0, 1, 0, 0, 3, 1]
    ensures Render(c) == "1y3mo1h10s"
  {
    MixedPieces(c);
    RenderSkipsZeros(c, 1, 2);
    RenderSkipsZeros(c, 3, 5);
    assert RenderBelow(c, 3) == Piece(c, 2) + RenderBelow(c, 1);
    assert RenderBelow(c, 6) == Piece(c, 5) + RenderBelow(c, 3);
    assert Render(c) == Piece(c, 6) + RenderBelow(c, 6);
    var y, mo, h, s := Piece(c, 6), Piece(c, 5), Piece(c, 2), RenderBelow(c, 1);
    assert y + (mo + (h + s)) == "1y3mo1h10s" by {
      assert y == "1y" && mo == "3mo" && h == "1h" && s == "10s";
    }
  }

  /** "1y3mo1h10s" is read as 272163610 seconds, which is written "1y3mo1h10s". */
  lemma StringMixed()
    ensures DurationValue("1y3mo1h10s") == Ok(272163610) && Canonical(272163610) == "1y3mo1h10s"
  {
    var c := [10, 0, 1, 0, 0, 3, 1];
    CanonicalWrittenOut(c);
    TotalWrittenOut(c);
    MixedRender(c);
    CanonicalText(c, 272163610, "1y3mo1h10s");
  }

  /** 1 hour is written "1h". */
  lemma {:induction false} OneHourRender(c: seq<nat>)
    requires c == [0, 0, 1, 0, 0, 0, 0]
    ensures Render(c) == "1h"
  {
    RenderSkipsZeros(c, 3, 7);
    RenderSkipsZeros(c, 0, 2);
    assert RenderBelow(c, 0) == "";
    assert Piece(c, 2) == "1h";
    assert RenderBelow(c, 3) == Piece(c, 2) + RenderBelow(c, 2);
    AppendEmpty(Piece(c, 2));
  }

  /** "1h" is read as 3600 seconds and 3600 seconds is written "1h". */
  lemma StringOneHour()
    ensures DurationValue("1h") == Ok(3600) && Canonical(3600) == "1h"
  {
    var c := [0, 0, 1, 0, 0, 0, 0];
    CanonicalWrittenOut(c);
    TotalWrittenOut(c);
    OneHourRender(c);
    CanonicalText(c, 3600, "1h");
  }

  /** "1m30s" is read as 90 seconds and 90 seconds is written "1m30s". */
  lemma StringMinuteThirty()
    ensures DurationValue("1m30s") == Ok(90) && Canonical(90) == "1m30s"
  {
    var c := [30, 1, 0, 0, 0, 0, 0];
    CanonicalWrittenOut(c);
    TotalWrittenOut(c);
    RenderSkipsZeros(c, 2, 7);
    assert FormatUint(30) == "30";
    assert Piece(c, 0) == "30s" && Piece(c, 1) == "1m";
    assert RenderBelow(c, 2) == "1m" + ("30s" + "");
    assert Render(c) == "1m30s";
    CanonicalText(c, 90, "1m30s");
  }

  /** The six pieces of one of each unit but the hour. */
  lemma {:induction false} MaximalPieces(c: seq<nat>)
    requires c == [1, 1, 0, 1, 1, 1, 1]
    ensures Piece(c, 0) == "1s" && Piece(c, 1) == "1m" && Piece(c, 3) == "1d"
    ensures Piece(c, 4) == "1w" && Piece(c, 5) == "1mo" && Piece(c, 6) == "1y"
  {
  }

  /** One of each unit but the hour is written "1y1mo1w1d1m1s". */
  lemma {:induction false} MaximalRender(c: seq<nat>)
    requires c == [1, 1, 0, 1, 1, 1, 1]
    ensures Render(c) == "1y1mo1w1d1m1s"
  {
    MaximalPieces(c);
    RenderSkipsZeros(c, 2, 3);
    assert RenderBelow(c, 1) == Piece(c, 0) + RenderBelow(c, 0);
    assert RenderBelow(c, 2) == Piece(c, 1) + RenderBelow(c, 1);
    assert RenderBelow(c, 4) == Piece(c, 3) + RenderBelow(c, 2);
    assert RenderBelow(c, 5) == Piece(c, 4) + RenderBelow(c, 4);
    assert RenderBelow(c, 6) == Piece(c, 5) + RenderBelow(c, 5);
    assert Render(c) == Piece(c, 6) + RenderBelow(c, 6);
    assert RenderBelow(c, 0) == "";
    var y, mo, w, d, m, s := Piece(c, 6), Piece(c, 5), Piece(c, 4), Piece(c, 3), Piece(c, 1), Piece(c, 0);
    assert y + (mo + (w + (d + (m + (s + ""))))) == "1y1mo1w1d1m1s" by {
      assert y == "1y" && mo == "1mo" && w == "1w" && d == "1d" && m == "1m" && s == "1s";
    }
  }

  /**
   * "maximal": "1y1mo1w1d1m1s" is one of each unit but the hour,
   * 1 + 60 + 86400 + 86400 * 7 + 86400 * 7 * 30 + 86400 * 7 * 30 * 12 seconds,
   * and that duration is written back the same way.
   */
  lemma ParseMaximal()
    ensures DurationValue("1y1mo1w1d1m1s") == Ok(236563261) && Canonical(236563261) == "1y1mo1w1d1m1s"
  {
    var c := [1, 1, 0, 1, 1, 1, 1];
    CanonicalWrittenOut(c);
    TotalWrittenOut(c);
    MaximalRender(c);
    CanonicalText(c, 236563261, "1y1mo1w1d1m1s");
  }
}
