/**
 * Retention rules: lines of the form "interval <duration> keep <duration>",
 * read into (interval, keep) pairs, gathered from a rule file and checked
 * for a consistent ladder of intervals.
 */
module Rules {
  import opened Wrappers
  import opened Text
  import opened Duration
  import opened Format

  /** A retention tier: take a snapshot every `interval` seconds and keep it for `keep` seconds. */
  datatype Rule = Rule(interval: nat, keep: nat)

  /** The two fields a rule line can set. */
  datatype Field = IntervalField | KeepField

  /** A value token that failed to parse as a duration, tagged with the field it was for. */
  datatype RuleError = RuleError(field: Field, cause: DurationError)

  /**
   * How a value token is read into seconds. ParseRule reads with
   * DurationValue; the facts about the token loop hold for any reader.
   */
  type Reader = string -> Result<nat, DurationError>

  /** What ParseRule returns: the rule as far as it got, and the error that stopped it, if any. */
  datatype Parsed = Parsed(rule: Rule, err: Option<RuleError>)

  /** The keyword that introduces each field. */
  function Keyword(f: Field): string {
    match f
    case IntervalField => "interval"
    case KeepField => "keep"
  }

  /** The field a token names, if it is one of the two keywords. */
  function FieldOf(token: string): (f: Option<Field>)
    ensures f.Some? <==> token == "interval" || token == "keep"
    ensures f.Some? ==> Keyword(f.value) == token
  {
    if token == "interval" then Some(IntervalField)
    else if token == "keep" then Some(KeepField)
    else None
  }

  function Get(r: Rule, f: Field): nat {
    match f
    case IntervalField => r.interval
    case KeepField => r.keep
  }

  /** r with field f set to v. */
  function With(r: Rule, f: Field, v: nat): (q: Rule)
    ensures Get(q, f) == v
    ensures forall g :: g != f ==> Get(q, g) == Get(r, g)
  {
    match f
    case IntervalField => r.(interval := v)
    case KeepField => r.(keep := v)
  }

  /** Token k is the keyword of field f and has a token after it, so it sets f. */
  predicate Sets(tokens: seq<string>, k: nat, f: Field) {
    k + 1 < |tokens| && tokens[k] == Keyword(f)
  }

  /** Token k sets some field. */
  predicate IsSetter(tokens: seq<string>, k: nat) {
    k + 1 < |tokens| && FieldOf(tokens[k]).Some?
  }

  /**
   * The token loop of ParseRule from token i on, with the rule built so far:
   * a keyword with a token after it parses that token into its field; a
   * failure stops the loop with the field set to the 0 that ParseDuration
   * returns on error. Every other token, including the value just read, is
   * looked at in turn.
   */
  function ParseTokens(tokens: seq<string>, i: nat, r: Rule, read: Reader): Parsed
    requires i <= |tokens|
    decreases |tokens| - i
  {
    if i == |tokens| then Parsed(r, None)
    else if IsSetter(tokens, i) then
      var f := FieldOf(tokens[i]).value;
      match read(tokens[i + 1])
      case Err(e) => Parsed(With(r, f, 0), Some(RuleError(f, e)))
      case Ok(v) => ParseTokens(tokens, i + 1, With(r, f, v), read)
    else ParseTokens(tokens, i + 1, r, read)
  }

  /** ParseRule's result for a line: its space-separated tokens read from a zero rule. */
  function RuleOf(line: string): Parsed {
    ParseTokens(Split(line), 0, Rule(0, 0), DurationValue)
  }

  /** ParseRule: the token loop over the line split on single spaces. */
  method ParseRule(line: string) returns (r: Rule, err: Option<RuleError>)
    ensures Parsed(r, err) == RuleOf(line)
  {
    var tokens := Split(line);
    r := Rule(0, 0);
    var i := 0;
    while i < |tokens|
      invariant i <= |tokens|
      invariant ParseTokens(tokens, i, r, DurationValue) == RuleOf(line)
    {
      var token := tokens[i];
      if token == "interval" {
        if i + 1 < |tokens| {
          var d, e := ParseDuration(tokens[i + 1]);
          r := r.(interval := d);
          if e.Some? {
            return r, Some(RuleError(IntervalField, e.value));
          }
        }
      } else if token == "keep" {
        if i + 1 < |tokens| {
          var d, e := ParseDuration(tokens[i + 1]);
          r := r.(keep := d);
          if e.Some? {
            return r, Some(RuleError(KeepField, e.value));
          }
        }
      }
      i := i + 1;
    }
    return r, None;
  }

  /** The first setter from token i on whose value token does not parse. */
  function FirstFailure(tokens: seq<string>, i: nat, read: Reader): (k: Option<nat>)
    requires i <= |tokens|
    ensures k.Some? ==> i <= k.value && IsSetter(tokens, k.value) && read(tokens[k.value + 1]).Err?
    ensures k.Some? ==> forall j :: i <= j < k.value && IsSetter(tokens, j) ==> read(tokens[j + 1]).Ok?
    ensures k.None? <==> forall j :: i <= j < |tokens| && IsSetter(tokens, j) ==> read(tokens[j + 1]).Ok?
    decreases |tokens| - i
  {
    if i == |tokens| then None
    else if IsSetter(tokens, i) && read(tokens[i + 1]).Err? then Some(i)
    else FirstFailure(tokens, i + 1, read)
  }

  /** The last token in [i, n) that sets field f. */
  function LastSetter(tokens: seq<string>, f: Field, i: nat, n: nat): (k: Option<nat>)
    requires i <= n <= |tokens|
    ensures k.Some? ==> i <= k.value < n && Sets(tokens, k.value, f)
    ensures k.Some? ==> forall j :: k.value < j < n ==> !Sets(tokens, j, f)
    ensures k.None? <==> forall j :: i <= j < n ==> !Sets(tokens, j, f)
    decreases n - i
  {
    if i == n then None
    else match LastSetter(tokens, f, i + 1, n)
      case Some(k) => Some(k)
      case None => if Sets(tokens, i, f) then Some(i) else None
  }

  /** The value field f ends up with when [i, n) is read from a rule whose f is `start`. */
  function FieldValue(tokens: seq<string>, f: Field, i: nat, n: nat, start: nat, read: Reader): nat
    requires i <= n <= |tokens|
  {
    match LastSetter(tokens, f, i, n)
    case None => start
    case Some(k) => match read(tokens[k + 1]) case Ok(v) => v case Err(_) => 0
  }

  /** A setter of field f sets no other field. */
  lemma SetterField(tokens: seq<string>, k: nat)
    requires IsSetter(tokens, k)
    ensures Sets(tokens, k, FieldOf(tokens[k]).value)
    ensures forall g :: Sets(tokens, k, g) <==> g == FieldOf(tokens[k]).value
  {
  }

  /**
   * The meaning of the token loop: it fails exactly at the first setter whose
   * value does not parse, with that field's error and that field 0, and after
   * a failure or at the end each field holds the value of its last setter
   * before that point (or what it held before).
   */
  lemma {:induction false} ParseTokensMeaning(tokens: seq<string>, i: nat, r: Rule, read: Reader)
    requires i <= |tokens|
    ensures var p := ParseTokens(tokens, i, r, read);
      match FirstFailure(tokens, i, read)
      case None =>
        p.err.None? && forall f :: Get(p.rule, f) == FieldValue(tokens, f, i, |tokens|, Get(r, f), read)
      case Some(k) =>
        var f := FieldOf(tokens[k]).value;
        p.err == Some(RuleError(f, read(tokens[k + 1]).error)) &&
        Get(p.rule, f) == 0 &&
        forall g :: g != f ==> Get(p.rule, g) == FieldValue(tokens, g, i, k, Get(r, g), read)
    decreases |tokens| - i
  {
    if i < |tokens| {
      if IsSetter(tokens, i) && read(tokens[i + 1]).Err? {
        SetterField(tokens, i);
        assert FirstFailure(tokens, i, read) == Some(i);
        LastSetterEmpty(tokens, i);
      } else {
        var q := if IsSetter(tokens, i) then With(r, FieldOf(tokens[i]).value, read(tokens[i + 1]).value) else r;
        assert ParseTokens(tokens, i, r, read) == ParseTokens(tokens, i + 1, q, read);
        ParseTokensMeaning(tokens, i + 1, q, read);
        assert FirstFailure(tokens, i, read) == FirstFailure(tokens, i + 1, read);
        FieldValueShift(tokens, i, |tokens|, r, q, read);
        if FirstFailure(tokens, i, read).Some? {
          FieldValueShift(tokens, i, FirstFailure(tokens, i, read).value, r, q, read);
        }
      }
    }
  }

  /** An empty range sets nothing. */
  lemma LastSetterEmpty(tokens: seq<string>, i: nat)
    requires i <= |tokens|
    ensures forall g :: LastSetter(tokens, g, i, i) == None
  {
  }

  /** Reading token i into the rule first, and the rest of [i, n) after, leaves each field as reading all of [i, n) does. */
  lemma FieldValueShift(tokens: seq<string>, i: nat, n: nat, r: Rule, q: Rule, read: Reader)
    requires i < n <= |tokens|
    requires IsSetter(tokens, i) ==> read(tokens[i + 1]).Ok? && q == With(r, FieldOf(tokens[i]).value, read(tokens[i + 1]).value)
    requires !IsSetter(tokens, i) ==> q == r
    ensures forall g :: FieldValue(tokens, g, i + 1, n, Get(q, g), read) == FieldValue(tokens, g, i, n, Get(r, g), read)
  {
    forall g
      ensures FieldValue(tokens, g, i + 1, n, Get(q, g), read) == FieldValue(tokens, g, i, n, Get(r, g), read)
    {
      LastSetterStep(tokens, g, i, n);
      if IsSetter(tokens, i) {
        SetterField(tokens, i);
      }
    }
  }

  /** Dropping token i from the front of the range leaves the last setter alone, unless token i was the only one. */
  lemma LastSetterStep(tokens: seq<string>, g: Field, i: nat, n: nat)
    requires i < n <= |tokens|
    ensures LastSetter(tokens, g, i, n) ==
      if LastSetter(tokens, g, i + 1, n).Some? then LastSetter(tokens, g, i + 1, n)
      else if Sets(tokens, i, g) then Some(i) else None
  {
  }

  /** A token that starts with a digit is no keyword. */
  lemma DigitIsNoKeyword(t: string)
    requires |t| > 0 && IsDigit(t[0])
    ensures FieldOf(t).None?
  {
    assert "interval"[0] == 'i' && "keep"[0] == 'k';
  }

  /** Joining a token in front of others puts one space between it and their join. */
  lemma JoinCons(t: string, ts: seq<string>)
    requires |ts| > 0
    ensures JoinSpaces([t] + ts) == t + " " + JoinSpaces(ts)
  {
    assert ([t] + ts)[1..] == ts;
  }

  /** The words of "<k1> a <k2> b", for space-free a and b. */
  lemma WordsOfLine(k1: string, a: string, k2: string, b: string)
    requires k1 == "interval" || k1 == "keep"
    requires k2 == "interval" || k2 == "keep"
    requires ' ' !in a && ' ' !in b
    ensures Split(k1 + " " + a + " " + k2 + " " + b) == [k1, a, k2, b]
  {
    JoinFour(k1, a, k2, b);
    SplitJoinSpaces([k1, a, k2, b]);
  }

  lemma JoinFour(t0: string, t1: string, t2: string, t3: string)
    ensures t0 + " " + t1 + " " + t2 + " " + t3 == JoinSpaces([t0, t1, t2, t3])
  {
    JoinCons(t2, [t3]);
    JoinCons(t1, [t2, t3]);
    JoinCons(t0, [t1, t2, t3]);
    assert [t2] + [t3] == [t2, t3] && [t1] + [t2, t3] == [t1, t2, t3] && [t0] + [t1, t2, t3] == [t0, t1, t2, t3];
    assert t0 + " " + t1 + " " + t2 + " " + t3 == t0 + " " + (t1 + " " + (t2 + " " + t3));
  }

  /**
   * A line "<keyword of f> a <keyword of g> b" for two different fields, where
   * a is no keyword: a sets f, then b sets g, and the first failure stops the line.
   */
  lemma TwoSetters(f: Field, a: string, g: Field, b: string, read: Reader)
    requires f != g && FieldOf(a).None?
    ensures var p := ParseTokens([Keyword(f), a, Keyword(g), b], 0, Rule(0, 0), read);
      match read(a)
      case Err(e) => p == Parsed(Rule(0, 0), Some(RuleError(f, e)))
      case Ok(x) =>
        match read(b)
        case Err(e) => p == Parsed(With(With(Rule(0, 0), f, x), g, 0), Some(RuleError(g, e)))
        case Ok(y) => p == Parsed(With(With(Rule(0, 0), f, x), g, y), None)
  {
    var tokens := [Keyword(f), a, Keyword(g), b];
    assert FieldOf(tokens[0]) == Some(f) && FieldOf(tokens[2]) == Some(g);
    assert IsSetter(tokens, 0) && !IsSetter(tokens, 1) && IsSetter(tokens, 2) && !IsSetter(tokens, 3);
    assert With(Rule(0, 0), f, 0) == Rule(0, 0);
    if read(a).Ok? {
      var q := With(Rule(0, 0), f, read(a).value);
      assert ParseTokens(tokens, 0, Rule(0, 0), read) == ParseTokens(tokens, 2, q, read);
      if read(b).Ok? {
        var q2 := With(q, g, read(b).value);
        assert ParseTokens(tokens, 2, q, read) == ParseTokens(tokens, 4, q2, read);
      }
    }
  }

  /** Rule.String: "interval <interval> keep <keep>", each duration as Duration.String writes it. */
  function RuleString(r: Rule): string {
    "interval" + " " + Canonical(r.interval) + " " + "keep" + " " + Canonical(r.keep)
  }

  /** ParseRule reads back what Rule.String writes. */
  lemma RuleStringRoundTrip(r: Rule)
    ensures RuleOf(RuleString(r)) == Parsed(r, None)
  {
    var a, b := Canonical(r.interval), Canonical(r.keep);
    CanonicalShape(r.interval);
    CanonicalShape(r.keep);
    WordsOfLine("interval", a, "keep", b);
    DigitIsNoKeyword(a);
    CanonicalValue(r.interval);
    CanonicalValue(r.keep);
    TwoSetters(IntervalField, a, KeepField, b, DurationValue);
  }

  /** math.MaxUint64, where Validate starts its search for the lowest interval. */
  const MAX_UINT64: nat := 0xFFFF_FFFF_FFFF_FFFF

  /** Why Validate rejects a rule set. */
  datatype ValidateError =
    | KeepBelowInterval(rule: Rule)
    | NotMultiple(interval: nat, lowest: nat)

  /** The first rule from i on that keeps for less than its interval. */
  function FirstShortKeep(rs: seq<Rule>, i: nat): (k: Option<nat>)
    requires i <= |rs|
    ensures k.Some? ==> i <= k.value < |rs| && rs[k.value].keep < rs[k.value].interval
    ensures k.Some? ==> forall j :: i <= j < k.value ==> rs[j].keep >= rs[j].interval
    ensures k.None? <==> forall j :: i <= j < |rs| ==> rs[j].keep >= rs[j].interval
    decreases |rs| - i
  {
    if i == |rs| then None
    else if rs[i].keep < rs[i].interval then Some(i)
    else FirstShortKeep(rs, i + 1)
  }

  /** The running minimum of pass 1: `lowest` lowered by every interval from i on. */
  function LowestFrom(rs: seq<Rule>, i: nat, lowest: nat): (m: nat)
    requires i <= |rs|
    ensures m <= lowest && forall j :: i <= j < |rs| ==> m <= rs[j].interval
    ensures m == lowest || exists j :: i <= j < |rs| && m == rs[j].interval
    decreases |rs| - i
  {
    if i == |rs| then lowest
    else LowestFrom(rs, i + 1, if rs[i].interval < lowest then rs[i].interval else lowest)
  }

  /** The first rule from i on whose interval is not a multiple of `lowest`. */
  function FirstNotMultiple(rs: seq<Rule>, i: nat, lowest: nat): (k: Option<nat>)
    requires i <= |rs| && lowest > 0
    ensures k.Some? ==> i <= k.value < |rs| && rs[k.value].interval % lowest != 0
    ensures k.Some? ==> forall j :: i <= j < k.value ==> rs[j].interval % lowest == 0
    ensures k.None? <==> forall j :: i <= j < |rs| ==> rs[j].interval % lowest == 0
    decreases |rs| - i
  {
    if i == |rs| then None
    else if rs[i].interval % lowest != 0 then Some(i)
    else FirstNotMultiple(rs, i + 1, lowest)
  }

  /**
   * Validate's second pass divides by the lowest interval: Go panics when that
   * is 0, which happens exactly when pass 1 lets every rule through and some
   * interval is 0. Validate is defined on the other rule sets.
   */
  predicate NoZeroDivisor(rs: seq<Rule>) {
    (forall j :: 0 <= j < |rs| ==> rs[j].keep >= rs[j].interval) ==> forall j :: 0 <= j < |rs| ==> rs[j].interval > 0
  }

  /** What Validate returns: pass 1's first short keep, else pass 2's first interval off the lowest one. */
  function Validity(rs: seq<Rule>): Option<ValidateError>
    requires NoZeroDivisor(rs)
  {
    match FirstShortKeep(rs, 0)
    case Some(k) => Some(KeepBelowInterval(rs[k]))
    case None =>
      var low := LowestFrom(rs, 0, MAX_UINT64);
      match FirstNotMultiple(rs, 0, low)
      case Some(k) => Some(NotMultiple(rs[k].interval, low))
      case None => None
  }

  /** RuleSet.Validate: the two passes over the rules. */
  method Validate(rs: seq<Rule>) returns (err: Option<ValidateError>)
    requires NoZeroDivisor(rs)
    ensures err == Validity(rs)
  {
    var lowest := MAX_UINT64;
    var i := 0;
    while i < |rs|
      invariant i <= |rs|
      invariant FirstShortKeep(rs, 0) == FirstShortKeep(rs, i)
      invariant LowestFrom(rs, 0, MAX_UINT64) == LowestFrom(rs, i, lowest)
    {
      var rule := rs[i];
      if rule.keep < rule.interval {
        return Some(KeepBelowInterval(rule));
      }
      if rule.interval < lowest {
        lowest := rule.interval;
      }
      i := i + 1;
    }
    i := 0;
    while i < |rs|
      invariant i <= |rs|
      invariant FirstNotMultiple(rs, 0, lowest) == FirstNotMultiple(rs, i, lowest)
    {
      var rule := rs[i];
      if rule.interval % lowest != 0 {
        return Some(NotMultiple(rule.interval, lowest));
      }
      i := i + 1;
    }
    return None;
  }

  /** Rule j has the smallest interval of the set. */
  predicate IsLowest(rs: seq<Rule>, j: int) {
    0 <= j < |rs| && forall k :: 0 <= k < |rs| ==> rs[j].interval <= rs[k].interval
  }

  /** With every interval a uint64, pass 1's lowest is the smallest interval of a non-empty set. */
  lemma LowestIsSmallest(rs: seq<Rule>)
    requires |rs| > 0 && forall j :: 0 <= j < |rs| ==> rs[j].interval <= MAX_UINT64
    ensures exists j :: IsLowest(rs, j) && rs[j].interval == LowestFrom(rs, 0, MAX_UINT64)
  {
    var m := LowestFrom(rs, 0, MAX_UINT64);
    if m == MAX_UINT64 {
      assert IsLowest(rs, 0) && rs[0].interval == m;
    } else {
      var j :| 0 <= j < |rs| && m == rs[j].interval;
      assert IsLowest(rs, j);
    }
  }

  /**
   * For positive uint64 intervals, Validate accepts exactly the sets where
   * every rule keeps at least its interval and every interval is a multiple
   * of the smallest one.
   */
  lemma ValidityMeaning(rs: seq<Rule>)
    requires forall j :: 0 <= j < |rs| ==> 0 < rs[j].interval <= MAX_UINT64
    ensures Validity(rs).None? <==>
      (forall j :: 0 <= j < |rs| ==> rs[j].keep >= rs[j].interval) &&
      (forall i, j :: 0 <= i < |rs| && IsLowest(rs, j) ==> rs[i].interval % rs[j].interval == 0)
  {
    if |rs| > 0 && FirstShortKeep(rs, 0).None? {
      LowestIsSmallest(rs);
      var low := LowestFrom(rs, 0, MAX_UINT64);
      forall j | IsLowest(rs, j)
        ensures rs[j].interval == low
      {
        var w :| IsLowest(rs, w) && rs[w].interval == low;
        assert rs[j].interval <= rs[w].interval && rs[w].interval <= rs[j].interval;
      }
    }
  }

  /** A short keep is reported before any interval that is off the lowest one: the first short rule is named. */
  lemma ShortKeepFirst(rs: seq<Rule>, k: nat)
    requires NoZeroDivisor(rs)
    requires k < |rs| && rs[k].keep < rs[k].interval
    requires forall j :: 0 <= j < k ==> rs[j].keep >= rs[j].interval
    ensures Validity(rs) == Some(KeepBelowInterval(rs[k]))
  {
    assert FirstShortKeep(rs, 0) == Some(k);
  }

  /**
   * A divisibility failure names the first interval that is not a multiple
   * of the lowest interval, and that lowest interval, after every rule passed
   * the keep check.
   */
  lemma NotMultipleMeaning(rs: seq<Rule>, interval: nat, lowest: nat)
    requires forall j :: 0 <= j < |rs| ==> 0 < rs[j].interval <= MAX_UINT64
    requires Validity(rs) == Some(NotMultiple(interval, lowest))
    ensures forall j :: 0 <= j < |rs| ==> rs[j].keep >= rs[j].interval
    ensures exists j :: IsLowest(rs, j) && rs[j].interval == lowest
    ensures exists k :: 0 <= k < |rs| && rs[k].interval == interval && interval % lowest != 0 &&
                        (forall j :: 0 <= j < k ==> rs[j].interval % lowest == 0)
  {
    LowestIsSmallest(rs);
    var k := FirstNotMultiple(rs, 0, lowest).value;
    assert rs[k].interval == interval;
  }

  /** A trimmed line that Parse reads as a rule: not empty and not a `#` comment. */
  predicate IsRuleLine(txt: string) {
    txt != [] && txt[0] != '#'
  }

  /** The rule lines of a file, trimmed, in input order. */
  function KeptLines(lines: seq<string>): (ks: seq<string>)
    ensures |ks| <= |lines|
  {
    if lines == [] then []
    else
      var txt := TrimSpace(lines[0]);
      (if IsRuleLine(txt) then [txt] else []) + KeptLines(lines[1..])
  }

  /** What Parse returns: the rules read so far, and the error that stopped it, if any. */
  datatype Loaded = Loaded(rules: seq<Rule>, err: Option<RuleError>)

  /**
   * How a rule line is read. Parse reads with RuleOf; the facts about the
   * line loop hold for any line reader.
   */
  type LineReader = string -> Parsed

  /** The line loop of Parse over the remaining lines, with the rules gathered so far. */
  function LoadLines(lines: seq<string>, rs: seq<Rule>, parse: LineReader): Loaded
    decreases |lines|
  {
    if lines == [] then Loaded(rs, None)
    else
      var txt := TrimSpace(lines[0]);
      if !IsRuleLine(txt) then LoadLines(lines[1..], rs, parse)
      else
        var p := parse(txt);
        if p.err.Some? then Loaded(rs, p.err) else LoadLines(lines[1..], rs + [p.rule], parse)
  }

  /** Parse, over the lines of the file: trim, skip blanks and comments, append each rule. */
  method Parse(lines: seq<string>) returns (rs: seq<Rule>, err: Option<RuleError>)
    ensures Loaded(rs, err) == LoadLines(lines, [], RuleOf)
  {
    rs := [];
    var i := 0;
    while i < |lines|
      invariant i <= |lines|
      invariant LoadLines(lines[i..], rs, RuleOf) == LoadLines(lines, [], RuleOf)
    {
      assert lines[i..][1..] == lines[i + 1..];
      var txt := TrimSpace(lines[i]);
      if |txt| == 0 {
        i := i + 1;
        continue;
      }
      if txt[0] == '#' {
        i := i + 1;
        continue;
      }
      var rule, e := ParseRule(txt);
      if e.Some? {
        return rs, e;
      }
      rs := rs + [rule];
      i := i + 1;
    }
    return rs, None;
  }

  /** The rule each line gives. */
  function RulesOf(ks: seq<string>, parse: LineReader): (r: seq<Rule>)
    ensures |r| == |ks|
  {
    seq(|ks|, k requires 0 <= k < |ks| => parse(ks[k]).rule)
  }

  /** The first line that does not parse. */
  function FirstBadLine(ks: seq<string>, parse: LineReader): (k: Option<nat>)
    ensures k.Some? ==> k.value < |ks| && parse(ks[k.value]).err.Some?
    ensures k.Some? ==> forall j :: 0 <= j < k.value ==> parse(ks[j]).err.None?
    ensures k.None? <==> forall j :: 0 <= j < |ks| ==> parse(ks[j]).err.None?
  {
    if ks == [] then None
    else if parse(ks[0]).err.Some? then Some(0)
    else match FirstBadLine(ks[1..], parse)
      case None => None
      case Some(k) => Some(k + 1)
  }

  lemma RulesOfCons(t: string, ks: seq<string>, parse: LineReader)
    ensures RulesOf([t] + ks, parse) == [parse(t).rule] + RulesOf(ks, parse)
  {
  }

  lemma FirstBadLineCons(t: string, ks: seq<string>, parse: LineReader)
    requires parse(t).err.None?
    ensures FirstBadLine([t] + ks, parse) == match FirstBadLine(ks, parse) case None => None case Some(k) => Some(k + 1)
  {
    assert ([t] + ks)[1..] == ks;
  }

  /** A good rule line in front of lines that all parse. */
  lemma GoodLineAllGood(t: string, ks: seq<string>, rs: seq<Rule>, parse: LineReader)
    requires parse(t).err.None? && FirstBadLine(ks, parse).None?
    ensures FirstBadLine([t] + ks, parse).None?
    ensures rs + [parse(t).rule] + RulesOf(ks, parse) == rs + RulesOf([t] + ks, parse)
  {
    FirstBadLineCons(t, ks, parse);
    RulesOfCons(t, ks, parse);
  }

  /** A good rule line in front of lines whose k-th is the first bad one. */
  lemma GoodLineThenBad(t: string, ks: seq<string>, rs: seq<Rule>, parse: LineReader, k: nat)
    requires parse(t).err.None? && FirstBadLine(ks, parse) == Some(k)
    ensures FirstBadLine([t] + ks, parse) == Some(k + 1)
    ensures rs + [parse(t).rule] + RulesOf(ks[..k], parse) == rs + RulesOf(([t] + ks)[..k + 1], parse)
    ensures ([t] + ks)[k + 1] == ks[k]
  {
    FirstBadLineCons(t, ks, parse);
    assert ([t] + ks)[..k + 1] == [t] + ks[..k];
    RulesOfCons(t, ks[..k], parse);
  }

  /**
   * The line loop reads every rule line in turn and stops at the first that
   * does not parse, with the rules before it.
   */
  lemma {:induction false} LoadLinesMeaning(lines: seq<string>, rs: seq<Rule>, parse: LineReader)
    ensures var ks := KeptLines(lines);
      match FirstBadLine(ks, parse)
      case None => LoadLines(lines, rs, parse) == Loaded(rs + RulesOf(ks, parse), None)
      case Some(k) => LoadLines(lines, rs, parse) == Loaded(rs + RulesOf(ks[..k], parse), parse(ks[k]).err)
    decreases |lines|
  {
    if lines != [] {
      var txt := TrimSpace(lines[0]);
      var rest := KeptLines(lines[1..]);
      if !IsRuleLine(txt) {
        LoadLinesMeaning(lines[1..], rs, parse);
        assert KeptLines(lines) == rest;
      } else {
        assert KeptLines(lines) == [txt] + rest;
        if parse(txt).err.Some? {
          assert FirstBadLine([txt] + rest, parse) == Some(0);
          assert ([txt] + rest)[..0] == [];
        } else {
          LoadLinesMeaning(lines[1..], rs + [parse(txt).rule], parse);
          match FirstBadLine(rest, parse)
          case None => GoodLineAllGood(txt, rest, rs, parse);
          case Some(k) => GoodLineThenBad(txt, rest, rs, parse, k);
        }
      }
    }
  }

  /**
   * Parse succeeds exactly when every rule line parses, and then gives their
   * rules in order; otherwise it reports the first line's error with the rules
   * read before it.
   */
  lemma LinesMeaning(lines: seq<string>, parse: LineReader)
    ensures var ks := KeptLines(lines);
      (LoadLines(lines, [], parse).err.None? <==> forall k :: 0 <= k < |ks| ==> parse(ks[k]).err.None?) &&
      (LoadLines(lines, [], parse).err.None? ==> LoadLines(lines, [], parse).rules == RulesOf(ks, parse))
    ensures var ks := KeptLines(lines);
      forall k :: 0 <= k < |ks| && parse(ks[k]).err.Some? && (forall j :: 0 <= j < k ==> parse(ks[j]).err.None?) ==>
        LoadLines(lines, [], parse) == Loaded(RulesOf(ks[..k], parse), parse(ks[k]).err)
  {
    LoadLinesMeaning(lines, [], parse);
    var ks := KeptLines(lines);
    match FirstBadLine(ks, parse)
    case None =>
      assert [] + RulesOf(ks, parse) == RulesOf(ks, parse);
    case Some(b) =>
      assert [] + RulesOf(ks[..b], parse) == RulesOf(ks[..b], parse);
      forall k | 0 <= k < |ks| && parse(ks[k]).err.Some? && (forall j :: 0 <= j < k ==> parse(ks[j]).err.None?)
        ensures k == b
      {
      }
  }

  /** LinesMeaning for Parse's own reader, RuleOf. */
  lemma ParseMeaning(lines: seq<string>)
    ensures var ks := KeptLines(lines);
      (LoadLines(lines, [], RuleOf).err.None? <==> forall k :: 0 <= k < |ks| ==> RuleOf(ks[k]).err.None?) &&
      (LoadLines(lines, [], RuleOf).err.None? ==> LoadLines(lines, [], RuleOf).rules == RulesOf(ks, RuleOf))
    ensures var ks := KeptLines(lines);
      forall k :: 0 <= k < |ks| && RuleOf(ks[k]).err.Some? && (forall j :: 0 <= j < k ==> RuleOf(ks[j]).err.None?) ==>
        LoadLines(lines, [], RuleOf) == Loaded(RulesOf(ks[..k], RuleOf), RuleOf(ks[k]).err)
  {
    LinesMeaning(lines, RuleOf);
  }

  /** Blank lines and comment lines add nothing to the rule lines. */
  lemma {:induction false} KeptLinesSkip(skipped: seq<string>, lines: seq<string>)
    requires forall k :: 0 <= k < |skipped| ==> !IsRuleLine(TrimSpace(skipped[k]))
    ensures KeptLines(skipped + lines) == KeptLines(lines)
    decreases |skipped|
  {
    if skipped != [] {
      var all := skipped + lines;
      assert all[0] == skipped[0] && !IsRuleLine(TrimSpace(all[0]));
      assert all[1..] == skipped[1..] + lines;
      assert KeptLines(all) == [] + KeptLines(all[1..]);
      KeptLinesSkip(skipped[1..], lines);
    } else {
      assert skipped + lines == lines;
    }
  }

  /** Lines that are trimmed rule lines are all kept, as they are. */
  lemma {:induction false} KeptLinesAll(lines: seq<string>)
    requires forall k :: 0 <= k < |lines| ==> TrimSpace(lines[k]) == lines[k] && IsRuleLine(lines[k])
    ensures KeptLines(lines) == lines
    decreases |lines|
  {
    if lines != [] {
      KeptLinesAll(lines[1..]);
      assert [lines[0]] + lines[1..] == lines;
    }
  }
}
