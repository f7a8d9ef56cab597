/**
 * The duration text format: a run of `<number><unit>` tokens such as
 * "1y1mo1w1d1m1s", read into a whole number of seconds.
 */
module Duration {
  import opened Wrappers
  import opened Text
  import Arith

  /** One row of the unit table: a symbol and its length in seconds. */
  datatype Unit = Unit(symbol: string, multiplier: nat)

  /**
   * The unit table, in order of increasing multiplier. The multipliers are
   * written out; UnitLadder shows they are the products of the source
   * (a month is 30 weeks and a year 12 such months).
   */
  const UNITS: seq<Unit> := [
    Unit("s", 1),
    Unit("m", 60),
    Unit("h", 3600),
    Unit("d", 86400),
    Unit("w", 604800),
    Unit("mo", 18144000),
    Unit("y", 217728000)
  ]

  function Multiplier(i: nat): (m: nat)
    requires i < |UNITS|
    ensures m > 0
  {
    UNITS[i].multiplier
  }

  /** Each multiplier is a proper multiple of the one before it, starting from one second. */
  lemma UnitLadder()
    ensures Multiplier(0) == 1 && Multiplier(1) == 60 && Multiplier(2) == 60 * 60
    ensures Multiplier(3) == 60 * 60 * 24 && Multiplier(4) == 60 * 60 * 24 * 7
    ensures Multiplier(5) == 60 * 60 * 24 * 7 * 30 && Multiplier(6) == 60 * 60 * 24 * 7 * 30 * 12
    ensures forall i :: 0 <= i < |UNITS| - 1 ==>
      Multiplier(i) < Multiplier(i + 1) && Multiplier(i + 1) % Multiplier(i) == 0
  {
  }

  /** No two rows of the table share a symbol, and no symbol is empty or holds a digit, '.' or ' '. */
  lemma SymbolsDistinct()
    ensures forall i, j :: 0 <= i < |UNITS| && 0 <= j < |UNITS| && UNITS[i].symbol == UNITS[j].symbol ==> i == j
    ensures forall i :: 0 <= i < |UNITS| ==> |UNITS[i].symbol| > 0
    ensures forall i, k :: 0 <= i < |UNITS| && 0 <= k < |UNITS[i].symbol| ==>
      !IsNumeric(UNITS[i].symbol[k]) && UNITS[i].symbol[k] != ' '
  {
  }

  /** The search of the unit table from row `from` on. */
  function FindUnit(symbol: string, from: nat): Option<Unit>
    requires from <= |UNITS|
    decreases |UNITS| - from
  {
    if from == |UNITS| then None
    else if UNITS[from].symbol == symbol then Some(UNITS[from])
    else FindUnit(symbol, from + 1)
  }

  /** parseDurationUnit: the table row whose symbol is exactly `symbol`. */
  function LookupUnit(symbol: string): Option<Unit> {
    FindUnit(symbol, 0)
  }

  /** The search from row `from` finds the first row there with the symbol, and fails only when there is none. */
  lemma {:induction false} FindUnitFinds(symbol: string, from: nat)
    requires from <= |UNITS|
    ensures FindUnit(symbol, from).Some? ==>
      exists i :: from <= i < |UNITS| && UNITS[i] == FindUnit(symbol, from).value && UNITS[i].symbol == symbol &&
        forall j :: from <= j < i ==> UNITS[j].symbol != symbol
    ensures FindUnit(symbol, from).None? <==> forall i :: from <= i < |UNITS| ==> UNITS[i].symbol != symbol
    decreases |UNITS| - from
  {
    if from < |UNITS| && UNITS[from].symbol != symbol {
      FindUnitFinds(symbol, from + 1);
    }
  }

  /** parseDurationUnit succeeds exactly on the table's symbols, and then returns that symbol's row. */
  lemma LookupUnitFinds(symbol: string)
    ensures LookupUnit(symbol).Some? ==> LookupUnit(symbol).value in UNITS && LookupUnit(symbol).value.symbol == symbol
    ensures LookupUnit(symbol).None? <==> forall i :: 0 <= i < |UNITS| ==> UNITS[i].symbol != symbol
  {
    FindUnitFinds(symbol, 0);
  }

  /** Every row of the table is found by its own symbol. */
  lemma LookupUnitRow(i: nat)
    requires i < |UNITS|
    ensures LookupUnit(UNITS[i].symbol) == Some(UNITS[i])
  {
    LookupUnitFinds(UNITS[i].symbol);
    SymbolsDistinct();
    var j :| 0 <= j < |UNITS| && UNITS[j] == LookupUnit(UNITS[i].symbol).value;
  }

  /** The failures of ParseDuration; each names the offending text. */
  datatype DurationError =
    | BadCoefficient(coefficient: string)
    | NegativeCoefficient(coefficient: string)
    | UnknownUnit(symbol: string)

  /** The end of the maximal run of numeric characters (or, if `numeric` is false, of unit characters) that starts at `from`. */
  function RunEnd(s: string, from: nat, numeric: bool): (e: nat)
    requires from <= |s|
    ensures from <= e <= |s|
    decreases |s| - from
  {
    if from < |s| && IsNumeric(s[from]) == numeric then RunEnd(s, from + 1, numeric) else from
  }

  /** A run ends exactly where the text ends or a character of the other class begins. */
  lemma {:induction false} RunEndIs(s: string, from: nat, numeric: bool, e: nat)
    requires from <= e <= |s|
    requires forall k :: from <= k < e ==> IsNumeric(s[k]) == numeric
    requires e == |s| || IsNumeric(s[e]) != numeric
    ensures RunEnd(s, from, numeric) == e
    decreases e - from
  {
    if from < e {
      RunEndIs(s, from + 1, numeric, e);
    }
  }

  /** Drops the last k decimal digits of x, one at a time. */
  function DropDigits(x: nat, k: nat): nat {
    if k == 0 then x else DropDigits(x / 10, k - 1)
  }

  /** 10^k. */
  function Pow10(k: nat): (p: nat)
    ensures p > 0
  {
    if k == 0 then 1 else 10 * Pow10(k - 1)
  }

  /** Dropping k digits is dividing by 10^k, rounding down. */
  lemma {:induction false} DropDigitsDivides(x: nat, k: nat)
    ensures DropDigits(x, k) == x / Pow10(k)
  {
    if k > 0 {
      DropDigitsDivides(x / 10, k - 1);
      Arith.DivDiv(x, 10, Pow10(k - 1));
    }
  }

  /** The conversion `Duration(c * float64(multiplier))`, on the exact decimal: the product truncated toward zero. */
  function Truncated(c: Decimal, multiplier: nat): nat {
    DropDigits(c.mantissa * multiplier, c.scale)
  }

  /**
   * The finishPart operation of ParseDuration: the seconds that one token contributes. The coefficient is read
   * first, then the unit, and the product is truncated to whole seconds.
   */
  function Term(coefficient: string, symbol: string): Result<nat, DurationError> {
    match ParseFloat(coefficient)
    case None => Err(BadCoefficient(coefficient))
    case Some(c) =>
      if IsNegative(c) then Err(NegativeCoefficient(coefficient))
      else
        match LookupUnit(symbol)
        case None => Err(UnknownUnit(symbol))
        case Some(u) => Ok(Truncated(c, u.multiplier))
  }

  /** Adds two partial totals; the first error wins. */
  function Add(a: Result<nat, DurationError>, b: Result<nat, DurationError>): Result<nat, DurationError> {
    match a
    case Err(e) => Err(e)
    case Ok(x) =>
      match b
      case Err(e) => Err(e)
      case Ok(y) => Ok(x + y)
  }

  /** How a token's coefficient and unit are turned into seconds; the format's own choice is Term. */
  type TermRule = (string, string) -> Result<nat, DurationError>

  /**
   * The seconds that s[from..] adds up to, or the error of its first failing
   * token, when each token is worth `term` of its coefficient and unit. The
   * text splits into a maximal numeric run, a maximal unit run and the rest;
   * each unit run closes a token with the numeric run before it (empty at the
   * very start of the text). A numeric run with no unit run after it adds
   * nothing, and neither does a text made only of unit characters.
   */
  function ValueFrom(s: string, from: nat, term: TermRule): Result<nat, DurationError>
    requires from <= |s|
    decreases |s| - from
  {
    var n := RunEnd(s, from, true);
    var u := RunEnd(s, n, false);
    if u == n then Ok(0)
    else if n == from && u == |s| then Ok(0)
    else Add(term(s[from..n], s[n..u]), ValueFrom(s, u, term))
  }

  /** What a duration text means. */
  function DurationValue(s: string): Result<nat, DurationError> {
    ValueFrom(s, 0, Term)
  }

  /** A run that reaches past i and continues at i reaches past i + 1. */
  lemma {:induction false} RunEndGrows(s: string, from: nat, numeric: bool, i: nat)
    requires from <= i < |s|
    requires RunEnd(s, from, numeric) >= i && IsNumeric(s[i]) == numeric
    ensures RunEnd(s, from, numeric) >= i + 1
    decreases i - from
  {
    if from < i {
      RunEndGrows(s, from + 1, numeric, i);
    }
  }

  /** A run that reaches past i and is broken at i ends at i. */
  lemma {:induction false} RunEndStops(s: string, from: nat, numeric: bool, i: nat)
    requires from <= i <= |s|
    requires RunEnd(s, from, numeric) >= i && (i == |s| || IsNumeric(s[i]) != numeric)
    ensures RunEnd(s, from, numeric) == i
    decreases i - from
  {
    if from < i {
      RunEndStops(s, from + 1, numeric, i);
    }
  }

  /** The scanner's running total: dur seconds are closed and s[from..] is still to be read. */
  predicate Accounts(s: string, dur: nat, from: nat)
    requires from <= |s|
  {
    DurationValue(s) == Add(Ok(dur), ValueFrom(s, from, Term))
  }

  /** Moving a term from the rest into the running total. */
  lemma AddShift(total: Result<nat, DurationError>, dur: nat, t: Result<nat, DurationError>, rest: Result<nat, DurationError>)
    requires total == Add(Ok(dur), Add(t, rest))
    ensures t.Err? ==> total == t
    ensures t.Ok? ==> total == Add(Ok(dur + t.value), rest)
  {
  }

  /** The scanner's step that closes the token s[from..u): its error is the text's, or its term joins the total. */
  lemma CloseToken(s: string, dur: nat, from: nat, n: nat, u: nat)
    requires from <= n < u <= |s|
    requires RunEnd(s, from, true) == n && RunEnd(s, n, false) == u
    requires n > from || u < |s|
    requires Accounts(s, dur, from)
    ensures Term(s[from..n], s[n..u]).Err? ==> DurationValue(s) == Term(s[from..n], s[n..u])
    ensures Term(s[from..n], s[n..u]).Ok? ==> Accounts(s, dur + Term(s[from..n], s[n..u]).value, u)
  {
    var t := Term(s[from..n], s[n..u]);
    assert ValueFrom(s, from, Term) == Add(t, ValueFrom(s, u, Term));
    AddShift(DurationValue(s), dur, t, ValueFrom(s, u, Term));
    if t.Ok? {
      assert DurationValue(s) == Add(Ok(dur + t.value), ValueFrom(s, u, Term));
    }
  }

  /** The scanner's end: when the rest adds nothing, the total is the text's value. */
  lemma Finish(s: string, dur: nat, from: nat)
    requires from <= |s|
    requires Accounts(s, dur, from) && ValueFrom(s, from, Term) == Ok(0)
    ensures DurationValue(s) == Ok(dur)
  {
  }

  /**
   * The closure finishPart of ParseDuration (duration.go:23-41): reads the
   * token s[numStart..i) whose unit starts at numEnd and adds its term to the
   * total, or reports the token's error and leaves the total as it was; that
   * error is then the text's error.
   */
  method FinishPart(s: string, dur: nat, numStart: nat, numEnd: nat, i: nat) returns (total: nat, err: Option<DurationError>)
    requires numStart <= numEnd < i <= |s|
    requires RunEnd(s, numStart, true) == numEnd && RunEnd(s, numEnd, false) == i
    requires numEnd > numStart || i < |s|
    requires Accounts(s, dur, numStart)
    ensures var t := Term(s[numStart..numEnd], s[numEnd..i]);
      err == (if t.Err? then Some(t.error) else None) && total == (if t.Ok? then dur + t.value else dur)
    ensures err.Some? ==> DurationValue(s) == Err(err.value)
    ensures err.None? ==> Accounts(s, total, i)
  {
    CloseToken(s, dur, numStart, numEnd, i);
    var part := Term(s[numStart..numEnd], s[numEnd..i]);
    if part.Err? {
      return dur, Some(part.error);
    }
    return dur + part.value, None;
  }

  /**
   * ParseDuration (duration.go:14-70): one pass over the characters with the
   * state `parsingNum`, numStart and numEnd of the source; the closure
   * finishPart is the method FinishPart, which reads each token with Term.
   * On failure the duration returned is 0.
   */
  method ParseDuration(s: string) returns (dur: nat, err: Option<DurationError>)
    ensures err.None? ==> DurationValue(s) == Ok(dur)
    ensures err.Some? ==> DurationValue(s) == Err(err.value) && dur == 0
  {
    var parsingNum := true;
    var numStart, numEnd := 0, 0;
    dur := 0;
    var i := 0;
    while i < |s|
      invariant 0 <= numStart <= numEnd <= i <= |s|
      invariant parsingNum ==> numEnd == numStart && RunEnd(s, numStart, true) >= i
      invariant !parsingNum ==> numEnd < i && RunEnd(s, numStart, true) == numEnd && RunEnd(s, numEnd, false) >= i
      invariant Accounts(s, dur, numStart)
    {
      if IsNumeric(s[i]) {
        if !parsingNum {
          RunEndStops(s, numEnd, false, i);
          var failure;
          dur, failure := FinishPart(s, dur, numStart, numEnd, i);
          if failure.Some? {
            return 0, failure;
          }
          numStart, numEnd := i, i;
        } else {
          RunEndGrows(s, numStart, true, i);
        }
        parsingNum := true;
      } else if parsingNum {
        RunEndStops(s, numStart, true, i);
        numEnd := i;
        parsingNum := false;
      } else {
        RunEndGrows(s, numEnd, false, i);
      }
      i := i + 1;
    }
    if parsingNum {
      RunEndStops(s, numStart, true, |s|);
      Finish(s, dur, numStart);
    } else {
      RunEndStops(s, numEnd, false, |s|);
      if numEnd == numStart {
        Finish(s, dur, numStart);
      } else {
        var failure;
        dur, failure := FinishPart(s, dur, numStart, numEnd, |s|);
        if failure.Some? {
          return 0, failure;
        }
        Finish(s, dur, |s|);
      }
    }
    err := None;
  }

  /** MustParseDuration: for texts known to parse; the panic on failure is this precondition. */
  method MustParseDuration(s: string) returns (d: nat)
    requires DurationValue(s).Ok?
    ensures DurationValue(s) == Ok(d)
  {
    var err;
    d, err := ParseDuration(s);
  }
}
