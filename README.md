# Retention rules and their duration format, in Dafny

This project models the `rules` package: the compact duration format
(`"1y1mo1w1d1m1s"`, read into whole seconds and written back in canonical
form) and the retention rules built on it (`interval <duration> keep
<duration>` lines, gathered from a rule file and checked for a consistent
ladder of intervals).

Modules:

- `Wrappers`: `Option` and `Result`, the model of Go's `(value, error)` pairs.
- `Arith`: facts about natural-number division that the canonical breakdown uses.
- `Text`: the standard-library helpers the package calls, stated exactly on
  the inputs it gives them: `strconv.FormatUint`, `strconv.ParseFloat` on
  plain decimal literals (as an exact decimal), `strings.Split` on one space
  and `strings.TrimSpace`.
- `Duration`: the unit table, `parseDurationUnit`, the run-based meaning of
  a duration text (`ValueFrom`/`DurationValue`), the scanner `ParseDuration`
  with its `finishPart` step, and `MustParseDuration`.
- `DurationFacts`: what a duration text is worth token by token, and its
  edge cases (no digits, a trailing number, a leading unit character, the
  unreachable negative check).
- `Format`: `Duration.String`, specified by the greedy breakdown of a
  duration into unit counts and proved to round-trip with the parser in
  both directions.
- `Rules`: `Rule`, `ParseRule`, `Rule.String`, `RuleSet.Validate` and `Parse`
  over the lines of a rule file.
- `DurationExamples`, `RulesExamples`: the cases of the package's tests.
  Where a case has numbers in it (minutes and seconds, tenths of a unit,
  the two fields of a rule line), a lemma first proves it for every choice
  of those numbers and the case itself follows; the other cases are proved
  as they stand. `ValidateCases` is no case of the tests: it holds fixed
  illustrations of `RuleSet.Validate`.

Durations are `nat` seconds. Each imperative operation of the package
(`ParseDuration`, `Duration.String`, `ParseRule`, `RuleSet.Validate`,
`Parse`) is a method with the loop of the source. Each method is proved
equal to a specification function, and the lemmas state what that function
promises.

Division by zero in `RuleSet.Validate`: the second pass computes
`Interval % lowest`. Go panics there when every rule passes the keep check
and some interval is 0. That happens, for example, for a rule read from the
line `keep 1w`. `Validate` and `Validity` therefore require `NoZeroDivisor`.
That predicate says the keep check fails or every interval is positive. The
panic is never reported as a validation error.

## Model

| member | source | states |
|---|---|---|
| Duration.UnitLadder | duration.go:113-121 | the multipliers are 1, 60, 60·60, …, 60·60·24·7·30·12, strictly increasing, each dividing the next |
| Duration.SymbolsDistinct | duration.go:113-121 | the unit symbols are distinct, non-empty and free of digits, '.' and spaces |
| Duration.FindUnitFinds | duration.go:125-130 | the table search from a row returns a row with exactly that symbol, and fails iff no later row has it |
| Duration.LookupUnitFinds | duration.go:124-131 | parseDurationUnit succeeds exactly on the table's symbols (exact match, so "mo" and "m" differ) and returns that row |
| Duration.LookupUnitRow | duration.go:124-131 | every row is found by its own symbol |
| Duration.LookupUnit | duration.go:124-131 | the unit table searched for the exact symbol; its contract is stated by LookupUnitFinds and LookupUnitRow |
| Duration.Term | duration.go:23-41 | one token's seconds: the coefficient read as a number, rejected when negative, times the unit's multiplier and truncated; TermNotNegative and the cases of DurationExamples state it |
| Duration.DropDigitsDivides | duration.go:37 | the truncation of a token's exact product drops its fractional digits: it is the product divided by 10^k, rounded down |
| Duration.RunEndIs | duration.go:46-59 | a run ends exactly at the end of the text or at the first character of the other class |
| Duration.CloseToken | duration.go:23-41 | closing a token either makes its error the text's error or adds its term to the running total |
| Duration.FinishPart | duration.go:23-41 | the error returned is exactly the token's own (Term's) error, or none when its term is defined; the total is dur plus the term, unchanged on error; an error is then the whole text's error, and otherwise the scanner's running total still accounts for the text |
| Duration.ParseDuration | duration.go:14-70 | the character scanner returns the text's meaning: the value on success, and on failure the first failing token's error with duration 0 |
| Duration.DurationValue | duration.go:14-70 | what a duration text means: the sum of its tokens' terms, or the first failing token's error; ParseDuration is proved equal to it and SpellValue, ValueWithoutNumber, ValueLeadingUnit and ValueTrailingNumber state its cases |
| Duration.MustParseDuration | duration.go:73-79 | for a text that parses, returns its value; the panic is the precondition |
| DurationFacts.RunEndRun | duration.go:46-59 | a run covers only characters of its class and stops at the end or at a character of the other class |
| DurationFacts.ValueOfToken | duration.go:23-41 | a `<number><unit>` token in front of a text adds its term, and the first error wins |
| DurationFacts.ValueConcat | duration.go:43-69 | a text of whole tokens followed by a text that starts with a number adds the two values |
| DurationFacts.SpellValue | duration.go:43-69 | a text written as well-formed tokens is worth the sum of their terms, or fails with the first failing token's error |
| DurationFacts.ValueWithoutNumber | duration.go:62-69 | a text with no digit and no '.' (the empty text included) is worth 0 with no error |
| DurationFacts.ValueLeadingUnit | duration.go:23-27 | a text that starts with a unit character and holds a number later fails on the empty coefficient ("-1.3m") |
| DurationFacts.ValueTrailingNumber | duration.go:62-69 | a number with no unit at the end of a text that is empty or already holds a number changes nothing (after a text of unit characters only, it makes the empty coefficient fail, as ValueLeadingUnit states) |
| DurationFacts.TermNotNegative | duration.go:28-30 | a coefficient of digits and '.' never takes the negative-coefficient branch |
| DurationFacts.NeverNegative | duration.go:28-30 | no text fails with the negative-coefficient error: that branch is unreachable |
| Text.FormatUint | duration.go:97 | the decimal digits of n, non-empty, reading back as n, with no leading zero |
| Text.IndexOfFirst | rules.go:22 | the index search finds the first space and only it |
| Text.ScanLiteralAccepts | duration.go:24 | the literal scan accepts exactly digits and '.' with at most one '.', and records whether a digit and a point occur |
| Text.ParseUnsignedDecimalAccepts | duration.go:24 | a coefficient parses iff it has only digits and '.', at most one '.', and at least one digit |
| Text.ScanFraction | duration.go:24 | "w.f" reads as the number spelled by all its digits over 10^|f| |
| Text.ParseFloatFormatUint | duration.go:24 | the digits of any n read back as exactly n |
| Text.ParseFloat | duration.go:24 | an optional sign and a decimal literal with at most one '.' as an exact value; ParseFloatFormatUint and ScanLiteralAccepts state what it accepts |
| Text.SplitPieces | rules.go:22 | the pieces of a split hold no space and join back with single spaces into the line |
| Text.SplitJoinSpaces | rules.go:22 | splitting space-free words joined by single spaces gives the words back |
| Text.Split | rules.go:22 | splitting on single spaces always gives at least one piece (the line itself when it holds no space); SplitPieces and SplitJoinSpaces state the rest |
| Text.TrimSpaceTrims | rules.go:87 | the trim is the slice after the leading white space, followed only by white space, and begins and ends with a non-space |
| Text.TrimSpaceKeeps | rules.go:87 | a text that begins and ends with a non-space is its own trim |
| Text.TrimSpace | rules.go:87 | the line without its leading and trailing white space; TrimSpaceTrims and TrimSpaceKeeps state it |
| Format.RestStep | duration.go:95-99 | one step of the breakdown takes count × multiplier out of the rest and leaves less than one unit |
| Format.SubtotalOfBreakdown | duration.go:93-101 | the counts of the units below row k, those String has not yet written when it reaches row k, times their multipliers add up to the rest left at row k |
| Format.BreakdownIsCanonical | duration.go:93-101 | the breakdown of any d is canonical (no count makes a whole next unit) and totals d |
| Format.SubtotalBound | duration.go:93-101 | canonical counts below unit k make up less than one unit k |
| Format.BreakdownOfTotal | duration.go:93-101 | every canonical count vector is the breakdown of its total (the greedy breakdown is unique) |
| Format.RenderHasNoSpace | duration.go:96-98 | a rendering holds no space |
| Format.RenderTokens | duration.go:96-98 | a rendering is the text of one well-formed token per non-zero count, largest unit first |
| Format.RenderValue | duration.go:96-98 | any rendered count vector reads back as the seconds it stands for |
| Format.ZeroValue | duration.go:89-91 | "0s", the text for zero, reads back as 0 |
| Format.CanonicalValue | duration.go:82-104 | parsing the String of any d gives d |
| Format.CanonicalShape | duration.go:82-104 | the String of any d is non-empty, starts with a digit and holds no space |
| Format.RenderRoundTrip | duration.go:82-104 | a canonical text parses to a duration whose String is the same text |
| Format.RenderBelowUsedUp | duration.go:93 | once the rest is 0, the smaller units add no text, so stopping the loop early is right |
| Format.StringStep | duration.go:95-100 | the loop step at a unit writes its count and symbol when the rest holds one, and leaves the rest below that unit |
| Format.DurationString | duration.go:82-104 | Duration.String's loop writes the canonical text: "0s" for zero, else the non-zero counts largest unit first |
| Format.Canonical | duration.go:82-104 | the text String gives: "0s" for zero, else the rendered breakdown; CanonicalValue, CanonicalShape and RenderRoundTrip state it |
| Format.RenderSkipsZeros | duration.go:95 | units with a zero count add no text |
| Rules.FieldOf | rules.go:31-45 | a token names a field exactly when it is "interval" or "keep" |
| Rules.With | rules.go:34-41 | setting a field sets it and leaves the other one unchanged |
| Rules.FirstFailure | rules.go:30-47 | the first keyword with a following value token that does not parse |
| Rules.LastSetter | rules.go:30-47 | the last token in a range that sets a field |
| Rules.SetterField | rules.go:31-45 | a keyword sets its own field and no other |
| Rules.ParseTokensMeaning | rules.go:30-47 | the token loop fails exactly at the first keyword whose value fails, with that field's error and that field 0; otherwise each field holds its last setter's value or stays 0 |
| Rules.FieldValueShift | rules.go:30-47 | reading one token and then the rest leaves each field as reading the whole range does |
| Rules.LastSetterStep | rules.go:30-47 | the last setter of a range is the last setter after its first token, or that token |
| Rules.DigitIsNoKeyword | rules.go:31-45 | a word that starts with a digit is no keyword |
| Rules.WordsOfLine | rules.go:22 | "k1 a k2 b" splits into its four words |
| Rules.TwoSetters | rules.go:22-47 | a line with two keywords for different fields sets both, in either order, and the first failing value stops it |
| Rules.ParseRule | rules.go:21-49 | the token loop over the split line equals the specification RuleOf |
| Rules.RuleOf | rules.go:21-49 | what ParseRule returns for a line: the line's tokens read from a zero rule; ParseTokensMeaning states it |
| Rules.RuleStringRoundTrip | rules.go:52-54 | ParseRule reads back what Rule.String writes |
| Rules.RuleString | rules.go:52-54 | the "interval <i> keep <k>" text of a rule reads back, through RuleOf, as that rule with no error |
| Rules.FirstShortKeep | rules.go:62-65 | the first rule that keeps for less than its interval, or none |
| Rules.LowestFrom | rules.go:61-69 | the running minimum is at most every interval and is its start value or one of the intervals |
| Rules.FirstNotMultiple | rules.go:71-75 | the first interval that is not a multiple of the lowest, or none |
| Rules.Validate | rules.go:60-78 | the two passes return the first short keep, else the first interval off the lowest, else success |
| Rules.Validity | rules.go:60-78 | what Validate returns; ValidityMeaning, ShortKeepFirst and NotMultipleMeaning state it |
| Rules.LowestIsSmallest | rules.go:61-69 | for uint64 intervals, pass 1's lowest is the smallest interval of a non-empty set |
| Rules.ValidityMeaning | rules.go:60-78 | for positive intervals, Validate succeeds iff every keep ≥ interval and every interval is a multiple of the smallest; the empty set succeeds |
| Rules.ShortKeepFirst | rules.go:62-65 | a short keep is reported, naming the first such rule, before any divisibility failure |
| Rules.NotMultipleMeaning | rules.go:71-75 | a divisibility failure comes after every keep passed, and names the first interval off the smallest one and that smallest interval |
| Rules.KeptLines | rules.go:87-94 | at most as many rule lines as lines |
| Rules.RulesOf | rules.go:95-99 | one rule per rule line |
| Rules.FirstBadLine | rules.go:95-98 | the first rule line that does not parse, or none |
| Rules.LoadLinesMeaning | rules.go:86-101 | the line loop returns every rule line's rule in order, or stops at the first bad one with the rules before it and its error |
| Rules.LinesMeaning | rules.go:86-101 | Parse succeeds iff every rule line parses, and then returns their rules in order; otherwise the first bad line's error and the rules before it |
| Rules.ParseMeaning | rules.go:83-102 | LinesMeaning for ParseRule as the line reader |
| Rules.Parse | rules.go:83-102 | the line loop over the file's lines equals the specification LoadLines |
| Rules.LoadLines | rules.go:83-102 | the line loop of Parse; LoadLinesMeaning, LinesMeaning and ParseMeaning state it |
| Rules.KeptLinesSkip | rules.go:88-94 | blank lines and comment lines add no rule line |
| Rules.KeptLinesAll | rules.go:86-99 | lines that are trimmed rule lines are all kept, unchanged |
| DurationExamples.ParseTenths | duration.go:24 | "w.f" reads as the decimal (10w+f)/10 |
| DurationExamples.TermOfTenths | duration.go:37 | w.f of a unit is (10w+f) tenths of its multiplier, truncated |
| DurationExamples.ParseMinutes | duration_test.go:15 | "<n>m" is n·60 seconds ("1m" = 60) |
| DurationExamples.ParseMinutesSeconds | duration_test.go:16 | "<m>m<s>s" is 60m+s seconds ("1m1s" = 61) |
| DurationExamples.ParseTenthsOfMinutes | duration_test.go:17 | "w.fm" is (10w+f)·60/10 seconds ("1.5m" = 90) |
| DurationExamples.ParseTenthsOfWeeksHours | duration_test.go:18 | "a.bwc.dh" is the two truncated terms ("1.5w1.5h" = 912600) |
| DurationExamples.OneMinuteOneSecond | duration_test.go:16 | "1m1s" is 61 seconds |
| DurationExamples.OneAndAHalfMinutes | duration_test.go:17 | "1.5m" is 90 seconds |
| DurationExamples.OneAndAHalfWeeksHours | duration_test.go:18 | "1.5w1.5h" is 7·1.5·86400 + 3600·1.5 = 912600 seconds |
| DurationExamples.ParseMaximal | duration_test.go:19 | "1y1mo1w1d1m1s" is the sum of six multipliers and is written back the same |
| DurationExamples.ParseWholeUnits | duration.go:113-131 | n of any unit of the table is n times its multiplier ("1mo" is a month, not a minute) |
| DurationExamples.ParseUnknownUnit | duration_test.go:21 | a number followed by a symbol outside the table fails with that unknown unit |
| DurationExamples.BadUnit | duration_test.go:21 | "1x" fails with unknown unit "x" |
| DurationExamples.ParseTwoPoints | duration.go:23-27 | a coefficient with two '.' before a unit fails on that coefficient, whatever its digits and unit |
| DurationExamples.BadNumber | duration_test.go:22 | "1..3m" fails on the coefficient "1..3" |
| DurationExamples.BadNegativeNumber | duration_test.go:23 | "-1.3m" fails on the empty coefficient before the unit "-" |
| DurationExamples.StringOneMinute | duration_test.go:41 | "1m" parses to 60, which String writes as "1m" |
| DurationExamples.StringOneHour | duration_test.go:42 | "1h" parses to 3600, which String writes as "1h" |
| DurationExamples.StringMinuteThirty | duration_test.go:43 | "1m30s" parses to 90, which String writes as "1m30s" |
| DurationExamples.StringMixed | duration_test.go:44 | "1y3mo1h10s" parses to 272163610, which String writes as "1y3mo1h10s" |
| RulesExamples.ParseUnitLine | rules_test.go:20-21 | "<k1> <n><u> <k2> <m><v>" sets both fields, in either keyword order |
| RulesExamples.SimpleRule | rules_test.go:20 | "interval 6h keep 1w" gives {6h, 1w} |
| RulesExamples.OrderingRule | rules_test.go:21 | "keep 3w interval 3h" gives {3h, 3w} |
| RulesExamples.ParseBadUnitLine | rules_test.go:22 | a first value with an unknown unit fails on its field, with the empty rule |
| RulesExamples.BadDurationRule | rules_test.go:22 | "keep 3wt interval 3h" fails on keep with unknown unit "wt", returning the empty rule |
| RulesExamples.TwoRuleFile | rules.go:86-101 | two good rule lines after blank or comment lines give both rules, in order |
| RulesExamples.SimpleFile | rules_test.go:48-65 | the two rule lines of the file after any blank or comment lines give {6h,7w} and {10h,10w} |
| RulesExamples.SimpleFileCase | rules_test.go:48-53 | the "simple" file gives its two rules |
| RulesExamples.CommentFileCase | rules_test.go:54-59 | a leading "# hello" line is skipped |
| RulesExamples.EmptyLinesFileCase | rules_test.go:60-65 | three leading empty lines are skipped |
| RulesExamples.ValidateCases | rules.go:60-78 | 2d2m against a lowest 6h fails divisibility; 6h with 1d passes; a short keep is reported first; the empty set passes |

## Left out

- Reading the rule file: `bufio.Scanner` over an `io.Reader`, its line-size limit and the unchecked `sc.Err()`. `Parse` takes the file's lines as a sequence of strings.
- Floating point: `strconv.ParseFloat` is modelled as an exact decimal for the literals the scanner can hand it (digits with at most one '.'). A token's contribution is the exact product truncated to whole seconds. Rounding of binary floats, out-of-range literals and precision loss on huge values are not modelled.
- uint64 arithmetic: durations are unbounded `nat`, so the wrap-around of `dur += …` in `ParseDuration` is not modelled. `Validate` starts its minimum at 2^64-1 as the source does, and `ValidityMeaning` assumes intervals of at most that size.
- Error messages: errors are tagged values (the bad coefficient, the bad unit, the failing field, the failing rule), not the wrapped message strings.
- Rune decoding: a string is a sequence of characters and indices count characters, not bytes. Any non-ASCII character is a unit character in either reading.
- The panic of `MustParseDuration` is its precondition. The division-by-zero panic of `Validate` is the precondition `NoZeroDivisor`.
- Benchmarks: the benchmark code of the test file is not part of this model.
