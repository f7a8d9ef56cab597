/**
 * Duration.String: a duration written back as text, from the largest unit
 * down, each unit with a non-zero count as the count's decimal digits and the
 * unit symbol ("1y3mo1h10s"); zero is "0s".
 */
module Format {
  import opened Wrappers
  import opened Text
  import opened Duration
  import Arith
  import opened DurationFacts

  /** What is left of d once the units from index j up are taken out: d itself, or d modulo the j-th multiplier. */
  function RestBelow(d: nat, j: nat): nat
    requires j <= |UNITS|
  {
    if j == |UNITS| then d else d % Multiplier(j)
  }

  /** How many of unit i the breakdown of d holds. */
  function Count(d: nat, i: nat): nat
    requires i < |UNITS|
  {
    RestBelow(d, i + 1) / Multiplier(i)
  }

  /** The counts of every unit in d, smallest unit first. */
  function Breakdown(d: nat): (c: seq<nat>)
    ensures |c| == |UNITS|
    ensures forall i :: 0 <= i < |UNITS| ==> c[i] == Count(d, i)
  {
    seq(|UNITS|, i requires 0 <= i < |UNITS| => Count(d, i))
  }

  /** The seconds that counts c[0..k) of the smallest units make up. */
  function Subtotal(c: seq<nat>, k: nat): nat
    requires k <= |c| && k <= |UNITS|
  {
    if k == 0 then 0 else Subtotal(c, k - 1) + c[k - 1] * Multiplier(k - 1)
  }

  /** The seconds that a vector of unit counts stands for. */
  function Total(c: seq<nat>): nat
    requires |c| == |UNITS|
  {
    Subtotal(c, |UNITS|)
  }

  /** A count vector is canonical when no count below the largest unit makes up a whole next unit. */
  predicate IsCanonical(c: seq<nat>) {
    |c| == |UNITS| && forall i :: 0 <= i < |UNITS| - 1 ==> c[i] * Multiplier(i) < Multiplier(i + 1)
  }

  /** The text of unit i: its count and symbol, or nothing when the count is 0. */
  function Piece(c: seq<nat>, i: nat): string
    requires i < |c| && i < |UNITS|
  {
    if c[i] == 0 then "" else FormatUint(c[i]) + UNITS[i].symbol
  }

  /** The pieces of units k - 1 down to 0, largest first. */
  function RenderBelow(c: seq<nat>, k: nat): string
    requires k <= |c| && k <= |UNITS|
  {
    if k == 0 then "" else Piece(c, k - 1) + RenderBelow(c, k - 1)
  }

  function Render(c: seq<nat>): string
    requires |c| == |UNITS|
  {
    RenderBelow(c, |UNITS|)
  }

  /** The text Duration.String gives for d. */
  function Canonical(d: nat): string {
    if d == 0 then "0s" else Render(Breakdown(d))
  }

  /** One step of the breakdown: unit i takes its count's worth out of the rest, leaving less than one unit i. */
  lemma RestStep(d: nat, i: nat)
    requires i < |UNITS|
    ensures RestBelow(d, i + 1) == Count(d, i) * Multiplier(i) + RestBelow(d, i)
    ensures RestBelow(d, i) < Multiplier(i)
  {
    var x := RestBelow(d, i + 1);
    var m := Multiplier(i);
    assert x == (x / m) * m + x % m;
    if i + 1 < |UNITS| {
      UnitLadder();
      var ratio := Multiplier(i + 1) / m;
      assert Multiplier(i + 1) == m * ratio;
      Arith.ModMod(d, m, ratio);
    }
  }

  /** The counts of the breakdown add back up to d. */
  lemma {:induction false} SubtotalOfBreakdown(d: nat, k: nat)
    requires k <= |UNITS|
    ensures Subtotal(Breakdown(d), k) == RestBelow(d, k)
  {
    if k > 0 {
      SubtotalOfBreakdown(d, k - 1);
      RestStep(d, k - 1);
    }
  }

  /** The breakdown of any duration is canonical and stands for that duration. */
  lemma BreakdownIsCanonical(d: nat)
    ensures IsCanonical(Breakdown(d))
    ensures Total(Breakdown(d)) == d
  {
    SubtotalOfBreakdown(d, |UNITS|);
    forall i | 0 <= i < |UNITS| - 1
      ensures Breakdown(d)[i] * Multiplier(i) < Multiplier(i + 1)
    {
      RestStep(d, i);
      RestStep(d, i + 1);
    }
  }

  /** Canonical counts below unit k make up less than one unit k. */
  lemma {:induction false} SubtotalBound(c: seq<nat>, k: nat)
    requires IsCanonical(c) && k < |UNITS|
    ensures Subtotal(c, k) < Multiplier(k)
  {
    if k > 0 {
      SubtotalBound(c, k - 1);
      UnitLadder();
      Arith.StepBound(Subtotal(c, k - 1), c[k - 1], Multiplier(k - 1), Multiplier(k));
    }
  }

  /** The breakdown of a canonical vector's total gives the vector back, unit by unit from the top. */
  lemma {:induction false} BreakdownOfTotalFrom(c: seq<nat>, k: nat)
    requires IsCanonical(c) && k <= |UNITS|
    ensures RestBelow(Total(c), k) == Subtotal(c, k)
    ensures forall i :: k <= i < |UNITS| ==> Count(Total(c), i) == c[i]
    decreases |UNITS| - k
  {
    if k < |UNITS| {
      BreakdownOfTotalFrom(c, k + 1);
      var t := Total(c);
      RestStep(t, k);
      SubtotalBound(c, k);
      Arith.DivModUnique(Subtotal(c, k + 1), Multiplier(k), c[k], Subtotal(c, k));
      Arith.DivModUnique(RestBelow(t, k + 1), Multiplier(k), Count(t, k), RestBelow(t, k));
    }
  }

  /** Breakdown and Total are inverse: every canonical vector is the breakdown of its total. */
  lemma BreakdownOfTotal(c: seq<nat>)
    requires IsCanonical(c)
    ensures Breakdown(Total(c)) == c
  {
    BreakdownOfTotalFrom(c, 0);
  }

  /** A coefficient that reads as a non-negative decimal, with a unit of the table, is worth the truncated product. */
  lemma TermOfRow(coefficient: string, c: Decimal, i: nat)
    requires i < |UNITS| && ParseFloat(coefficient) == Some(c) && !IsNegative(c)
    ensures Term(coefficient, UNITS[i].symbol) == Ok(Truncated(c, Multiplier(i)))
  {
    LookupUnitRow(i);
  }

  /** A unit's piece reads back as its count of that unit. */
  lemma TermOfPiece(n: nat, i: nat)
    requires i < |UNITS|
    ensures Term(FormatUint(n), UNITS[i].symbol) == Ok(n * Multiplier(i))
  {
    ParseFloatFormatUint(n);
    LookupUnitRow(i);
  }

  /** A rendering is empty or starts with a digit. */
  lemma {:induction false} RenderStart(c: seq<nat>, k: nat)
    requires k <= |c| && k <= |UNITS|
    ensures RenderBelow(c, k) == [] || IsDigit(RenderBelow(c, k)[0])
  {
    if k > 0 && c[k - 1] == 0 {
      RenderStart(c, k - 1);
    }
  }

  /** A unit's piece holds no space: digits, then a symbol of the table. */
  lemma PieceHasNoSpace(c: seq<nat>, i: nat)
    requires i < |c| && i < |UNITS|
    ensures ' ' !in Piece(c, i)
  {
    if c[i] != 0 {
      SymbolsDistinct();
      var digits, symbol := FormatUint(c[i]), UNITS[i].symbol;
      assert ' ' !in digits by {
        assert forall j :: 0 <= j < |digits| ==> IsDigit(digits[j]);
      }
      assert ' ' !in symbol by {
        assert forall j :: 0 <= j < |symbol| ==> symbol[j] != ' ';
      }
    }
  }

  /** A rendering holds no space: its digits and unit symbols have none. */
  lemma {:induction false} RenderHasNoSpace(c: seq<nat>, k: nat)
    requires k <= |c| && k <= |UNITS|
    ensures ' ' !in RenderBelow(c, k)
  {
    if k > 0 {
      RenderHasNoSpace(c, k - 1);
      PieceHasNoSpace(c, k - 1);
    }
  }

  /** A term rule that values every piece as Term does: count times the unit's multiplier. */
  ghost predicate ValuesPieces(term: TermRule) {
    forall n: nat, i: nat {:trigger term(FormatUint(n), UNITS[i].symbol)} :: i < |UNITS| ==> term(FormatUint(n), UNITS[i].symbol) == Ok(n * Multiplier(i))
  }

  lemma TermValuesPieces()
    ensures ValuesPieces(Term)
  {
    forall n: nat, i: nat | i < |UNITS|
      ensures Term(FormatUint(n), UNITS[i].symbol) == Ok(n * Multiplier(i))
    {
      TermOfPiece(n, i);
    }
  }

  /** The tokens of a rendering: one per non-zero count, largest unit first. */
  function Tokens(c: seq<nat>, k: nat): seq<Token>
    requires k <= |c| && k <= |UNITS|
  {
    if k == 0 then []
    else (if c[k - 1] == 0 then [] else [Token(FormatUint(c[k - 1]), UNITS[k - 1].symbol)]) + Tokens(c, k - 1)
  }

  /** The token of n of unit i reads back as a token. */
  lemma PieceIsToken(n: nat, i: nat)
    requires i < |UNITS|
    ensures IsToken(Token(FormatUint(n), UNITS[i].symbol))
  {
    SymbolsDistinct();
    assert AllDigits(FormatUint(n));
  }

  /** Well-formed tokens with a well-formed token in front. */
  lemma AllTokensCons(t: Token, ts: seq<Token>)
    requires IsToken(t) && forall j :: 0 <= j < |ts| ==> IsToken(ts[j])
    ensures forall j :: 0 <= j < |[t] + ts| ==> IsToken(([t] + ts)[j])
  {
    forall j | 0 <= j < |[t] + ts|
      ensures IsToken(([t] + ts)[j])
    {
      if j > 0 {
        assert ([t] + ts)[j] == ts[j - 1];
      }
    }
  }

  /** A rendering's tokens all read back as tokens. */
  lemma {:induction false} TokensWellFormed(c: seq<nat>, k: nat)
    requires k <= |c| && k <= |UNITS|
    ensures forall j :: 0 <= j < |Tokens(c, k)| ==> IsToken(Tokens(c, k)[j])
  {
    if k > 0 {
      TokensWellFormed(c, k - 1);
      if c[k - 1] != 0 {
        var t := Token(FormatUint(c[k - 1]), UNITS[k - 1].symbol);
        PieceIsToken(c[k - 1], k - 1);
        AllTokensCons(t, Tokens(c, k - 1));
      } else {
        assert Tokens(c, k) == Tokens(c, k - 1);
      }
    }
  }

  /** A rendering is the text of its tokens, and each of them reads back as a token. */
  lemma {:induction false} RenderTokens(c: seq<nat>, k: nat)
    requires k <= |c| && k <= |UNITS|
    ensures RenderBelow(c, k) == Spell(Tokens(c, k))
    ensures forall j :: 0 <= j < |Tokens(c, k)| ==> IsToken(Tokens(c, k)[j])
  {
    TokensWellFormed(c, k);
    if k > 0 {
      RenderTokens(c, k - 1);
      var rest := Tokens(c, k - 1);
      if c[k - 1] != 0 {
        var t := Token(FormatUint(c[k - 1]), UNITS[k - 1].symbol);
        SpellCons(t, rest, Term);
      } else {
        assert Tokens(c, k) == rest;
      }
    }
  }

  /** The terms of a rendering's tokens add up to the seconds its counts stand for. */
  lemma {:induction false} SumTokens(c: seq<nat>, k: nat, term: TermRule)
    requires k <= |c| && k <= |UNITS| && ValuesPieces(term)
    ensures SumTerms(Tokens(c, k), term) == Ok(Subtotal(c, k))
  {
    if k > 0 {
      SumTokens(c, k - 1, term);
      var rest := Tokens(c, k - 1);
      if c[k - 1] != 0 {
        var t := Token(FormatUint(c[k - 1]), UNITS[k - 1].symbol);
        assert term(t.coefficient, t.symbol) == Ok(c[k - 1] * Multiplier(k - 1));
        SumTermsCons(t, rest, c[k - 1] * Multiplier(k - 1), Subtotal(c, k - 1), term);
      } else {
        assert Tokens(c, k) == [] + rest;
        assert [] + rest == rest;
      }
    }
  }

  /** Any count vector, rendered, reads back as the seconds it stands for. */
  lemma RenderValue(c: seq<nat>, k: nat, term: TermRule)
    requires k <= |c| && k <= |UNITS| && ValuesPieces(term)
    ensures ValueFrom(RenderBelow(c, k), 0, term) == Ok(Subtotal(c, k))
  {
    RenderTokens(c, k);
    SpellValue(Tokens(c, k), term);
    SumTokens(c, k, term);
  }

  /** String's text for zero, "0s", reads back as zero. */
  lemma ZeroValue()
    ensures DurationValue("0s") == Ok(0)
  {
    var zero := FormatUint(0);
    assert zero == "0";
    TermOfPiece(0, 0);
    assert UNITS[0].symbol == "s";
    OneToken(zero, "s", Term);
    assert zero + "s" == "0s";
  }

  /** The rendering of a duration's breakdown reads back as the duration. */
  lemma BreakdownValue(d: nat)
    ensures DurationValue(Render(Breakdown(d))) == Ok(d)
  {
    TermValuesPieces();
    RenderValue(Breakdown(d), |UNITS|, Term);
    SubtotalOfBreakdown(d, |UNITS|);
  }

  /** Duration.String then ParseDuration gives the duration back. */
  lemma CanonicalValue(d: nat)
    ensures DurationValue(Canonical(d)) == Ok(d)
  {
    if d == 0 {
      ZeroValue();
    } else {
      BreakdownValue(d);
    }
  }

  /** What Duration.String writes is a non-empty text of no spaces that starts with a digit. */
  lemma CanonicalShape(d: nat)
    ensures |Canonical(d)| > 0 && IsDigit(Canonical(d)[0])
    ensures ' ' !in Canonical(d)
  {
    if d > 0 {
      var c := Breakdown(d);
      BreakdownValue(d);
      RenderHasNoSpace(c, |UNITS|);
      RenderStart(c, |UNITS|);
      if Render(c) == [] {
        assert DurationValue(Render(c)) == Ok(0);
      }
    }
  }

  /**
   * The other way round: a text that renders a canonical, non-zero count
   * vector parses to a duration that String writes as the same text.
   */
  lemma RenderRoundTrip(c: seq<nat>)
    requires IsCanonical(c) && Total(c) > 0
    ensures DurationValue(Render(c)) == Ok(Total(c))
    ensures Canonical(Total(c)) == Render(c)
  {
    TermValuesPieces();
    RenderValue(c, |UNITS|, Term);
    BreakdownOfTotal(c);
  }

  /** Once the rest is used up, the smaller units add no text. */
  lemma {:induction false} RenderBelowUsedUp(d: nat, k: nat)
    requires k <= |UNITS| && RestBelow(d, k) == 0
    ensures RenderBelow(Breakdown(d), k) == ""
  {
    if k > 0 {
      RestStep(d, k - 1);
      RenderBelowUsedUp(d, k - 1);
    }
  }

  /** One step of Duration.String's loop at unit i - 1: the piece it writes and the rest it leaves. */
  lemma StringStep(d: nat, i: nat)
    requires 0 < i <= |UNITS|
    ensures var rest, m := RestBelow(d, i), Multiplier(i - 1);
      if rest >= m then
        Piece(Breakdown(d), i - 1) == FormatUint(rest / m) + UNITS[i - 1].symbol && rest - rest / m * m == RestBelow(d, i - 1)
      else
        Piece(Breakdown(d), i - 1) == "" && rest == RestBelow(d, i - 1)
  {
    var rest, m := RestBelow(d, i), Multiplier(i - 1);
    RestStep(d, i - 1);
    if rest < m {
      Arith.DivModUnique(rest, m, 0, rest);
    }
  }

  /** Writing a piece moves it from the text still to come to the text written so far. */
  lemma MovePiece(out: string, piece: string, below: string, whole: string)
    requires out + (piece + below) == whole
    ensures (out + piece) + below == whole
  {
  }

  /** The empty text is a unit of concatenation. */
  lemma AppendEmpty(t: string)
    ensures t + "" == t && "" + t == t
  {
  }

  /** An empty piece adds nothing. */
  lemma SkipPiece(out: string, below: string, whole: string)
    requires out + ("" + below) == whole
    ensures out + below == whole
  {
    assert "" + below == below;
  }

  /**
   * Duration.String (duration.go:82-104): from the largest unit down, while
   * anything is left, writes the count of each unit that fits at least once
   * and takes it off the rest.
   */
  method DurationString(d: nat) returns (s: string)
    ensures s == Canonical(d)
  {
    if d == 0 {
      return "0s";
    }
    ghost var c := Breakdown(d);
    var out := "";
    var rest := d;
    var i := |UNITS|;
    AppendEmpty(Render(c));
    while i > 0 && rest > 0
      invariant 0 <= i <= |UNITS|
      invariant rest == RestBelow(d, i)
      invariant out + RenderBelow(c, i) == Render(c)
    {
      var unit := UNITS[i - 1];
      StringStep(d, i);
      ghost var below := RenderBelow(c, i - 1);
      if rest >= unit.multiplier {
        var co := rest / unit.multiplier;
        var piece := FormatUint(co) + unit.symbol;
        MovePiece(out, piece, below, Render(c));
        out := out + piece;
        rest := rest - co * unit.multiplier;
      } else {
        SkipPiece(out, below, Render(c));
      }
      i := i - 1;
    }
    if rest == 0 {
      RenderBelowUsedUp(d, i);
    }
    AppendEmpty(out);
    s := out;
  }

  /** The total of seven counts, written out with the table's multipliers. */
  lemma TotalWrittenOut(c: seq<nat>)
    requires |c| == |UNITS|
    ensures Total(c) == c[0] + c[1] * 60 + c[2] * 3600 + c[3] * 86400 + c[4] * 604800 + c[5] * 18144000 + c[6] * 217728000
  {
    assert Subtotal(c, 1) == c[0];
    assert Subtotal(c, 2) == c[0] + c[1] * 60;
    assert Subtotal(c, 3) == Subtotal(c, 2) + c[2] * 3600;
    assert Subtotal(c, 4) == Subtotal(c, 3) + c[3] * 86400;
    assert Subtotal(c, 5) == Subtotal(c, 4) + c[4] * 604800;
    assert Subtotal(c, 6) == Subtotal(c, 5) + c[5] * 18144000;
  }

  /** Canonical counts, written out with the table's multipliers. */
  lemma CanonicalWrittenOut(c: seq<nat>)
    requires |c| == |UNITS|
    requires c[0] < 60 && c[1] < 60 && c[2] < 24 && c[3] < 7 && c[4] < 30 && c[5] < 12
    ensures IsCanonical(c)
  {
    UnitLadder();
    forall i | 0 <= i < |UNITS| - 1
      ensures c[i] * Multiplier(i) < Multiplier(i + 1)
    {
      var m := Multiplier(i);
      var bound := Multiplier(i + 1) / m;
      assert Multiplier(i + 1) == bound * m;
      assert c[i] < bound;
      Arith.MulLe(c[i] + 1, bound, m);
    }
  }

  /** Zero counts add no text. */
  lemma {:induction false} RenderSkipsZeros(c: seq<nat>, low: nat, k: nat)
    requires low <= k <= |c| && k <= |UNITS|
    requires forall j :: low <= j < k ==> c[j] == 0
    ensures RenderBelow(c, k) == RenderBelow(c, low)
    decreases k
  {
    if low < k {
      RenderSkipsZeros(c, low, k - 1);
      AppendEmpty(RenderBelow(c, k - 1));
    }
  }
}
