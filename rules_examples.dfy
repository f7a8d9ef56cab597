/**
 * The cases of TestParseRule and TestParse (rules_test.go:20-22, 48-65),
 * and fixed illustrations of RuleSet.Validate (ValidateCases). A rule line
 * with numbers in it is first stated for every choice of those numbers; the
 * files of TestParse and the validation cases are proved as they stand.
 */
module RulesExamples {
  import opened Wrappers
  import opened Text
  import opened Duration
  import opened DurationExamples
  import opened Rules

  /** The word "<n><unit>": digits, then a table symbol; it holds no space and starts with a digit. */
  lemma UnitWord(n: nat, i: nat)
    requires i < |UNITS|
    ensures var w := FormatUint(n) + UNITS[i].symbol;
      |w| > 0 && IsDigit(w[0]) && ' ' !in w && !IsSpace(w[|w| - 1])
  {
    SymbolsDistinct();
    var w := FormatUint(n) + UNITS[i].symbol;
    assert forall k :: 0 <= k < |UNITS| ==> ' ' !in UNITS[k].symbol && !IsSpace(UNITS[k].symbol[|UNITS[k].symbol| - 1]);
    assert w[0] == FormatUint(n)[0];
    assert w[|w| - 1] == UNITS[i].symbol[|UNITS[i].symbol| - 1];
    forall k | 0 <= k < |w|
      ensures w[k] != ' '
    {
      if k < |FormatUint(n)| {
        assert w[k] == FormatUint(n)[k];
      } else {
        assert w[k] == UNITS[i].symbol[k - |FormatUint(n)|];
      }
    }
  }

  /** A line setting two different fields, each to a whole number of some unit. */
  function UnitLine(f: Field, n: nat, i: nat, g: Field, m: nat, j: nat): string
    requires i < |UNITS| && j < |UNITS|
  {
    Keyword(f) + " " + (FormatUint(n) + UNITS[i].symbol) + " " + Keyword(g) + " " + (FormatUint(m) + UNITS[j].symbol)
  }

  /** "interval 6h keep 1w", in any order of the keywords and with any counts and units. */
  lemma ParseUnitLine(f: Field, n: nat, i: nat, g: Field, m: nat, j: nat)
    requires f != g && i < |UNITS| && j < |UNITS|
    ensures RuleOf(UnitLine(f, n, i, g, m, j)) == Parsed(With(With(Rule(0, 0), f, n * Multiplier(i)), g, m * Multiplier(j)), None)
  {
    var a, b := FormatUint(n) + UNITS[i].symbol, FormatUint(m) + UNITS[j].symbol;
    UnitWord(n, i);
    UnitWord(m, j);
    WordsOfLine(Keyword(f), a, Keyword(g), b);
    DigitIsNoKeyword(a);
    ParseWholeUnits(n, i);
    ParseWholeUnits(m, j);
    TwoSetters(f, a, g, b, DurationValue);
  }

  /** A unit line is already trimmed and is no comment. */
  lemma UnitLineKept(f: Field, n: nat, i: nat, g: Field, m: nat, j: nat)
    requires i < |UNITS| && j < |UNITS|
    ensures TrimSpace(UnitLine(f, n, i, g, m, j)) == UnitLine(f, n, i, g, m, j)
    ensures IsRuleLine(UnitLine(f, n, i, g, m, j))
  {
    var line := UnitLine(f, n, i, g, m, j);
    UnitWord(m, j);
    var b := FormatUint(m) + UNITS[j].symbol;
    assert line[|line| - 1] == b[|b| - 1];
    assert line[0] == Keyword(f)[0];
    TrimSpaceKeeps(line);
  }

  /** "simple": "interval 6h keep 1w" sets 6 hours and 1 week. */
  lemma SimpleRule()
    ensures RuleOf("interval 6h keep 1w") == Parsed(Rule(21600, 604800), None)
  {
    ParseUnitLine(IntervalField, 6, 2, KeepField, 1, 4);
    assert UnitLine(IntervalField, 6, 2, KeepField, 1, 4) == "interval 6h keep 1w";
  }

  /** "ordering": "keep 3w interval 3h" sets 3 hours and 3 weeks. */
  lemma OrderingRule()
    ensures RuleOf("keep 3w interval 3h") == Parsed(Rule(10800, 1814400), None)
  {
    ParseUnitLine(KeepField, 3, 4, IntervalField, 3, 2);
    assert UnitLine(KeepField, 3, 4, IntervalField, 3, 2) == "keep 3w interval 3h";
  }

  /** "<n>x" for a space-free x: a word that starts with a digit. */
  lemma NumberWord(n: nat, x: string)
    requires ' ' !in x
    ensures var w := FormatUint(n) + x; |w| > 0 && IsDigit(w[0]) && ' ' !in w
  {
    var w := FormatUint(n) + x;
    assert w[0] == FormatUint(n)[0];
    forall k | 0 <= k < |w|
      ensures w[k] != ' '
    {
      if k < |FormatUint(n)| {
        assert w[k] == FormatUint(n)[k];
      } else {
        assert w[k] == x[k - |FormatUint(n)|];
      }
    }
  }

  /**
   * A line whose first value has a symbol outside the table fails on that
   * field, with the empty rule, whatever the rest of the line holds.
   */
  lemma ParseBadUnitLine(f: Field, n: nat, x: string, g: Field, b: string)
    requires f != g && ' ' !in b
    requires |x| > 0 && (forall k :: 0 <= k < |x| ==> !IsNumeric(x[k]) && x[k] != ' ')
    requires forall i :: 0 <= i < |UNITS| ==> UNITS[i].symbol != x
    ensures RuleOf(Keyword(f) + " " + (FormatUint(n) + x) + " " + Keyword(g) + " " + b) ==
      Parsed(Rule(0, 0), Some(RuleError(f, UnknownUnit(x))))
  {
    var a := FormatUint(n) + x;
    NumberWord(n, x);
    WordsOfLine(Keyword(f), a, Keyword(g), b);
    DigitIsNoKeyword(a);
    ParseUnknownUnit(n, x);
    TwoSetters(f, a, g, b, DurationValue);
  }

  /** "bad duration": "keep 3wt interval 3h" fails on the keep value, with the empty rule. */
  lemma BadDurationRule()
    ensures RuleOf("keep 3wt interval 3h") == Parsed(Rule(0, 0), Some(RuleError(KeepField, UnknownUnit("wt"))))
  {
    ParseBadUnitLine(KeepField, 3, "wt", IntervalField, "3h");
    assert Keyword(KeepField) + " " + (FormatUint(3) + "wt") + " " + Keyword(IntervalField) + " " + "3h" == "keep 3wt interval 3h";
  }

  /** Two trimmed rule lines after blank or comment lines are the rule lines of the file. */
  lemma {:induction false} KeptAfterSkipped(skipped: seq<string>, a: string, b: string)
    requires forall k :: 0 <= k < |skipped| ==> !IsRuleLine(TrimSpace(skipped[k]))
    requires TrimSpace(a) == a && IsRuleLine(a) && TrimSpace(b) == b && IsRuleLine(b)
    ensures KeptLines(skipped + [a, b]) == [a, b]
  {
    KeptLinesSkip(skipped, [a, b]);
    KeptLinesAll([a, b]);
  }

  /** Two lines that both parse hold no bad line. */
  lemma {:induction false} NoBadLine(a: string, b: string, parse: LineReader)
    requires parse(a).err.None? && parse(b).err.None?
    ensures FirstBadLine([a, b], parse).None?
    ensures RulesOf([a, b], parse) == [parse(a).rule, parse(b).rule]
  {
    var ks := [a, b];
    assert ks[0] == a && ks[1] == b;
  }

  /** A file whose rule lines all parse gives their rules. */
  lemma {:induction false} AllLinesGood(lines: seq<string>, parse: LineReader)
    requires FirstBadLine(KeptLines(lines), parse).None?
    ensures LoadLines(lines, [], parse) == Loaded(RulesOf(KeptLines(lines), parse), None)
  {
    LoadLinesMeaning(lines, [], parse);
    assert [] + RulesOf(KeptLines(lines), parse) == RulesOf(KeptLines(lines), parse);
  }

  /** Two trimmed rule lines after blank or comment lines: both rules, in order, when both parse. */
  lemma {:induction false} TwoRuleFile(skipped: seq<string>, a: string, b: string, parse: LineReader)
    requires forall k :: 0 <= k < |skipped| ==> !IsRuleLine(TrimSpace(skipped[k]))
    requires TrimSpace(a) == a && IsRuleLine(a) && TrimSpace(b) == b && IsRuleLine(b)
    requires parse(a).err.None? && parse(b).err.None?
    ensures LoadLines(skipped + [a, b], [], parse) == Loaded([parse(a).rule, parse(b).rule], None)
  {
    KeptAfterSkipped(skipped, a, b);
    NoBadLine(a, b, parse);
    AllLinesGood(skipped + [a, b], parse);
  }

  /** The two rule lines of TestParse. */
  const SIX_HOURS_SEVEN_WEEKS: string := "interval 6h keep 7w"
  const TEN_HOURS_TEN_WEEKS: string := "interval 10h keep 10w"

  /** "interval 6h keep 7w" is a kept line with 6 hours and 7 weeks. */
  lemma SixHoursSevenWeeks()
    ensures TrimSpace(SIX_HOURS_SEVEN_WEEKS) == SIX_HOURS_SEVEN_WEEKS && IsRuleLine(SIX_HOURS_SEVEN_WEEKS)
    ensures RuleOf(SIX_HOURS_SEVEN_WEEKS) == Parsed(Rule(21600, 4233600), None)
  {
    assert UnitLine(IntervalField, 6, 2, KeepField, 7, 4) == SIX_HOURS_SEVEN_WEEKS;
    ParseUnitLine(IntervalField, 6, 2, KeepField, 7, 4);
    UnitLineKept(IntervalField, 6, 2, KeepField, 7, 4);
  }

  /** "interval 10h keep 10w" is a kept line with 10 hours and 10 weeks. */
  lemma TenHoursTenWeeks()
    ensures TrimSpace(TEN_HOURS_TEN_WEEKS) == TEN_HOURS_TEN_WEEKS && IsRuleLine(TEN_HOURS_TEN_WEEKS)
    ensures RuleOf(TEN_HOURS_TEN_WEEKS) == Parsed(Rule(36000, 6048000), None)
  {
    assert UnitLine(IntervalField, 10, 2, KeepField, 10, 4) == TEN_HOURS_TEN_WEEKS;
    ParseUnitLine(IntervalField, 10, 2, KeepField, 10, 4);
    UnitLineKept(IntervalField, 10, 2, KeepField, 10, 4);
  }

  /**
   * "simple", "comment" and "empty lines": the two rule lines after any
   * number of blank or comment lines give their two rules, in order.
   */
  lemma {:induction false} SimpleFile(skipped: seq<string>)
    requires forall k :: 0 <= k < |skipped| ==> !IsRuleLine(TrimSpace(skipped[k]))
    ensures LoadLines(skipped + [SIX_HOURS_SEVEN_WEEKS, TEN_HOURS_TEN_WEEKS], [], RuleOf) ==
      Loaded([Rule(21600, 4233600), Rule(36000, 6048000)], None)
  {
    SixHoursSevenWeeks();
    TenHoursTenWeeks();
    TwoRuleFile(skipped, SIX_HOURS_SEVEN_WEEKS, TEN_HOURS_TEN_WEEKS, RuleOf);
  }

  /** TestParse "simple": the two rule lines alone. */
  lemma {:induction false} SimpleFileCase()
    ensures LoadLines([SIX_HOURS_SEVEN_WEEKS, TEN_HOURS_TEN_WEEKS], [], RuleOf) ==
      Loaded([Rule(21600, 4233600), Rule(36000, 6048000)], None)
  {
    var lines := [SIX_HOURS_SEVEN_WEEKS, TEN_HOURS_TEN_WEEKS];
    SimpleFile([]);
    assert [] + lines == lines;
  }

  /** TestParse "comment": a comment line first. */
  lemma {:induction false} CommentFileCase()
    ensures LoadLines(["# hello", SIX_HOURS_SEVEN_WEEKS, TEN_HOURS_TEN_WEEKS], [], RuleOf) ==
      Loaded([Rule(21600, 4233600), Rule(36000, 6048000)], None)
  {
    var skipped := ["# hello"];
    TrimSpaceKeeps(skipped[0]);
    SimpleFile(skipped);
    assert skipped + [SIX_HOURS_SEVEN_WEEKS, TEN_HOURS_TEN_WEEKS] == ["# hello", SIX_HOURS_SEVEN_WEEKS, TEN_HOURS_TEN_WEEKS];
  }

  /** TestParse "empty lines": three empty lines first. */
  lemma {:induction false} EmptyLinesFileCase()
    ensures LoadLines(["", "", "", SIX_HOURS_SEVEN_WEEKS, TEN_HOURS_TEN_WEEKS], [], RuleOf) ==
      Loaded([Rule(21600, 4233600), Rule(36000, 6048000)], None)
  {
    var skipped := ["", "", ""];
    assert TrimSpace("") == "";
    SimpleFile(skipped);
    assert skipped + [SIX_HOURS_SEVEN_WEEKS, TEN_HOURS_TEN_WEEKS] == ["", "", "", SIX_HOURS_SEVEN_WEEKS, TEN_HOURS_TEN_WEEKS];
  }

  /**
   * The validation cases: 2d2m is no multiple of the lowest interval 6h; 6h
   * and 1d form a ladder; a rule keeping 6h of a weekly interval keeps too
   * little, even beside an interval off the ladder; the empty set is valid.
   */
  lemma ValidateCases()
    ensures Validity([Rule(21600, 4233600), Rule(172920, 6048000)]) == Some(NotMultiple(172920, 21600))
    ensures Validity([Rule(21600, 4233600), Rule(86400, 6048000)]) == None
    ensures Validity([Rule(172920, 6048000), Rule(604800, 21600)]) == Some(KeepBelowInterval(Rule(604800, 21600)))
    ensures Validity([]) == None
  {
  }
}
