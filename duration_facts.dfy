/**
 * Properties of the duration text format: how the value of a text is built
 * from its tokens, and which texts fail and how.
 */
module DurationFacts {
  import opened Wrappers
  import opened Text
  import opened Duration

  /** A run covers only characters of its class and stops at the end or at a character of the other class. */
  lemma {:induction false} RunEndRun(s: string, from: nat, numeric: bool)
    requires from <= |s|
    ensures forall k :: from <= k < RunEnd(s, from, numeric) ==> IsNumeric(s[k]) == numeric
    ensures RunEnd(s, from, numeric) == |s| || IsNumeric(s[RunEnd(s, from, numeric)]) != numeric
    decreases |s| - from
  {
    if from < |s| && IsNumeric(s[from]) == numeric {
      RunEndRun(s, from + 1, numeric);
    }
  }

  /** A run stops no later than the first character of the other class. */
  lemma {:induction false} RunEndBefore(s: string, from: nat, numeric: bool, k: nat)
    requires from <= k < |s| && IsNumeric(s[k]) != numeric
    ensures RunEnd(s, from, numeric) <= k
    decreases k - from
  {
    if from < k && IsNumeric(s[from]) == numeric {
      RunEndBefore(s, from + 1, numeric, k);
    }
  }

  /** Runs are found the same way after a prefix is put in front of the text. */
  lemma {:induction false} RunEndShift(p: string, r: string, j: nat, numeric: bool)
    requires j <= |r|
    ensures RunEnd(p + r, |p| + j, numeric) == |p| + RunEnd(r, j, numeric)
    decreases |r| - j
  {
    if j < |r| {
      assert (p + r)[|p| + j] == r[j];
      if IsNumeric(r[j]) == numeric {
        RunEndShift(p, r, j + 1, numeric);
      }
    }
  }

  /** The value of a text's rest does not depend on what comes before it. */
  lemma {:induction false} ValueFromShift(p: string, r: string, j: nat, term: TermRule)
    requires j <= |r|
    ensures ValueFrom(p + r, |p| + j, term) == ValueFrom(r, j, term)
    decreases |r| - j
  {
    var n := RunEnd(r, j, true);
    var u := RunEnd(r, n, false);
    RunEndShift(p, r, j, true);
    RunEndShift(p, r, n, false);
    if u != n && !(n == j && u == |r|) {
      ConcatSlice(p, r, j, n);
      ConcatSlice(p, r, n, u);
      ValueFromShift(p, r, u, term);
    }
  }

  /** ValueFrom unfolded at a token whose runs are known. */
  lemma ValueAtRuns(s: string, from: nat, n: nat, u: nat, term: TermRule)
    requires from < n <= u <= |s| && RunEnd(s, from, true) == n && RunEnd(s, n, false) == u && n < u
    ensures ValueFrom(s, from, term) == Add(term(s[from..n], s[n..u]), ValueFrom(s, u, term))
  {
  }

  /** A run inside a is found the same in a + b when b starts with a character of the other class. */
  lemma {:induction false} RunEndPrefix(a: string, b: string, j: nat, numeric: bool)
    requires j <= |a|
    requires b == [] || IsNumeric(b[0]) != numeric
    ensures RunEnd(a + b, j, numeric) == RunEnd(a, j, numeric)
    decreases |a| - j
  {
    if j < |a| {
      assert (a + b)[j] == a[j];
      if IsNumeric(a[j]) == numeric {
        RunEndPrefix(a, b, j + 1, numeric);
      }
    } else if b != [] {
      assert (a + b)[|a|] == b[0];
    }
  }

  /** A run that ends inside a is found the same in a + b. */
  lemma {:induction false} RunEndWithin(a: string, b: string, j: nat, numeric: bool)
    requires j <= |a| && RunEnd(a, j, numeric) < |a|
    ensures RunEnd(a + b, j, numeric) == RunEnd(a, j, numeric)
    decreases |a| - j
  {
    assert (a + b)[j] == a[j];
    if IsNumeric(a[j]) == numeric {
      RunEndWithin(a, b, j + 1, numeric);
    }
  }

  /** The coefficient and the unit of a token, cut back out of the text. */
  lemma TokenSlices(num: string, symbol: string, rest: string)
    ensures (num + symbol + rest)[..|num|] == num
    ensures (num + symbol + rest)[|num|..|num| + |symbol|] == symbol
  {
    var s := num + symbol + rest;
    assert forall k :: 0 <= k < |num| ==> s[..|num|][k] == num[k];
    assert forall k :: 0 <= k < |symbol| ==> s[|num|..|num| + |symbol|][k] == symbol[k];
  }

  /** The runs of a token at the front of a text: its coefficient, then its unit. */
  lemma TokenRuns(num: string, symbol: string, rest: string)
    requires |num| > 0 && RunEnd(num, 0, true) == |num|
    requires |symbol| > 0 && RunEnd(symbol, 0, false) == |symbol|
    requires rest == [] || IsNumeric(rest[0])
    ensures RunEnd(num + symbol + rest, 0, true) == |num|
    ensures RunEnd(num + symbol + rest, |num|, false) == |num| + |symbol|
  {
    var a := num + symbol;
    assert a[|num|] == symbol[0];
    RunEndPrefix(num, symbol, 0, true);
    RunEndWithin(a, rest, 0, true);
    RunEndShift(num, symbol, 0, false);
    RunEndPrefix(a, rest, |num|, false);
  }

  /** ValueOfToken, with the classes of the number and the unit given as runs. */
  lemma ValueOfTokenRuns(num: string, symbol: string, rest: string, term: TermRule)
    requires |num| > 0 && RunEnd(num, 0, true) == |num|
    requires |symbol| > 0 && RunEnd(symbol, 0, false) == |symbol|
    requires rest == [] || IsNumeric(rest[0])
    ensures ValueFrom(num + symbol + rest, 0, term) == Add(term(num, symbol), ValueFrom(rest, 0, term))
  {
    var s := num + symbol + rest;
    TokenRuns(num, symbol, rest);
    TokenSlices(num, symbol, rest);
    ValueAtRuns(s, 0, |num|, |num| + |symbol|, term);
    ValueFromShift(num + symbol, rest, 0, term);
  }

  /**
   * A token in front of a text adds its term: the value of number + unit +
   * rest is the token's term and then the value of the rest, when the rest is
   * empty or starts with a number.
   */
  lemma ValueOfToken(num: string, symbol: string, rest: string, term: TermRule)
    requires |num| > 0 && forall k :: 0 <= k < |num| ==> IsNumeric(num[k])
    requires |symbol| > 0 && forall k :: 0 <= k < |symbol| ==> !IsNumeric(symbol[k])
    requires rest == [] || IsNumeric(rest[0])
    ensures ValueFrom(num + symbol + rest, 0, term) == Add(term(num, symbol), ValueFrom(rest, 0, term))
  {
    RunEndIs(num, 0, true, |num|);
    RunEndIs(symbol, 0, false, |symbol|);
    ValueOfTokenRuns(num, symbol, rest, term);
  }

  /** A slice of the front part of a concatenation is a slice of that part. */
  lemma FrontSlice(p: string, q: string, i: nat, j: nat)
    requires i <= j <= |p|
    ensures (p + q)[i..j] == p[i..j]
  {
    assert forall k :: 0 <= k < j - i ==> (p + q)[i..j][k] == p[i..j][k];
  }

  /** The token of p that starts at `from` is found the same in p + q; after it comes q or another token of p. */
  lemma ConcatRuns(p: string, q: string, from: nat) returns (n: nat, u: nat)
    requires p != [] && !IsNumeric(p[|p| - 1])
    requires from < |p| && IsNumeric(p[from])
    requires q != [] && IsNumeric(q[0])
    ensures from < n < u <= |p|
    ensures RunEnd(p, from, true) == n && RunEnd(p, n, false) == u
    ensures RunEnd(p + q, from, true) == n && RunEnd(p + q, n, false) == u
    ensures u < |p| ==> IsNumeric(p[u])
    ensures (p + q)[from..n] == p[from..n] && (p + q)[n..u] == p[n..u]
  {
    n := RunEnd(p, from, true);
    RunEndBefore(p, from, true, |p| - 1);
    RunEndRun(p, from, true);
    RunEndWithin(p, q, from, true);
    u := RunEnd(p, n, false);
    RunEndRun(p, n, false);
    if u < |p| {
      RunEndWithin(p, q, n, false);
    } else {
      RunEndPrefix(p, q, n, false);
    }
    FrontSlice(p, q, from, n);
    FrontSlice(p, q, n, u);
  }

  /** ValueConcat at a token of p that another token of p follows, from ValueConcat after it. */
  lemma ConcatStep(p: string, q: string, from: nat, n: nat, u: nat, term: TermRule)
    requires from < n < u < |p|
    requires RunEnd(p, from, true) == n && RunEnd(p, n, false) == u
    requires RunEnd(p + q, from, true) == n && RunEnd(p + q, n, false) == u
    requires (p + q)[from..n] == p[from..n] && (p + q)[n..u] == p[n..u]
    requires ValueFrom(p + q, u, term) == Add(ValueFrom(p, u, term), ValueFrom(q, 0, term))
    ensures ValueFrom(p + q, from, term) == Add(ValueFrom(p, from, term), ValueFrom(q, 0, term))
  {
    ValueAtRuns(p, from, n, u, term);
    ValueAtRuns(p + q, from, n, u, term);
    AddAssoc(term(p[from..n], p[n..u]), ValueFrom(p, u, term), ValueFrom(q, 0, term));
  }

  /** ValueConcat at the last token of p: after it, p + q goes on with q. */
  lemma ConcatLast(p: string, q: string, from: nat, n: nat, term: TermRule)
    requires from < n < |p|
    requires RunEnd(p, from, true) == n && RunEnd(p, n, false) == |p|
    requires RunEnd(p + q, from, true) == n && RunEnd(p + q, n, false) == |p|
    requires (p + q)[from..n] == p[from..n] && (p + q)[n..|p|] == p[n..|p|]
    ensures ValueFrom(p + q, from, term) == Add(ValueFrom(p, from, term), ValueFrom(q, 0, term))
  {
    ValueAtRuns(p, from, n, |p|, term);
    ValueAtRuns(p + q, from, n, |p|, term);
    ValueFromShift(p, q, 0, term);
    ValueAtEnd(p, term);
    AddEnd(term(p[from..n], p[n..|p|]), ValueFrom(p, |p|, term), ValueFrom(q, 0, term));
  }

  /** Nothing follows the end of a text. */
  lemma ValueAtEnd(s: string, term: TermRule)
    ensures ValueFrom(s, |s|, term) == Ok(0)
  {
  }

  /** A term added to the value of an empty rest, then to v, is the term added to v. */
  lemma AddEnd(t: Result<nat, DurationError>, end: Result<nat, DurationError>, v: Result<nat, DurationError>)
    requires end == Ok(0)
    ensures Add(Add(t, end), v) == Add(t, v)
  {
    AddAssoc(t, end, v);
    AddZero(end, v);
  }

  /** ValueConcat from the token of p that starts at `from`. */
  lemma {:induction false} ValueConcatFrom(p: string, q: string, from: nat, term: TermRule)
    requires p != [] && !IsNumeric(p[|p| - 1])
    requires from < |p| && IsNumeric(p[from])
    requires q != [] && IsNumeric(q[0])
    ensures ValueFrom(p + q, from, term) == Add(ValueFrom(p, from, term), ValueFrom(q, 0, term))
    decreases |p| - from
  {
    var n, u := ConcatRuns(p, q, from);
    if u < |p| {
      ValueConcatFrom(p, q, u, term);
      ConcatStep(p, q, from, n, u, term);
    } else {
      ConcatLast(p, q, from, n, term);
    }
  }

  /**
   * A text that starts with a number and ends with a unit splits into whole
   * tokens: written before a text that starts with a number, it adds its
   * value, and the first error wins.
   */
  lemma ValueConcat(p: string, q: string, term: TermRule)
    requires p != [] && IsNumeric(p[0]) && !IsNumeric(p[|p| - 1])
    requires q != [] && IsNumeric(q[0])
    ensures ValueFrom(p + q, 0, term) == Add(ValueFrom(p, 0, term), ValueFrom(q, 0, term))
  {
    ValueConcatFrom(p, q, 0, term);
  }

  /** A text of one token is worth its term. */
  lemma {:induction false} OneToken(a: string, x: string, term: TermRule)
    requires |a| > 0 && (forall k :: 0 <= k < |a| ==> IsNumeric(a[k]))
    requires |x| > 0 && (forall k :: 0 <= k < |x| ==> !IsNumeric(x[k]))
    ensures a + x != [] && IsNumeric((a + x)[0]) && !IsNumeric((a + x)[|a + x| - 1])
    ensures ValueFrom(a + x, 0, term) == term(a, x)
  {
    ValueOfToken(a, x, "", term);
    assert a + x + "" == a + x;
    AddZero(ValueFrom("", 0, term), term(a, x));
  }

  /** The token a + x written after p, grouped to the right. */
  lemma {:induction false} AppendTokenRight(p: string, a: string, x: string, term: TermRule)
    requires p != [] && IsNumeric(p[0]) && !IsNumeric(p[|p| - 1])
    requires |a| > 0 && (forall k :: 0 <= k < |a| ==> IsNumeric(a[k]))
    requires |x| > 0 && (forall k :: 0 <= k < |x| ==> !IsNumeric(x[k]))
    ensures ValueFrom(p + (a + x), 0, term) == Add(ValueFrom(p, 0, term), term(a, x))
    ensures p + (a + x) != [] && IsNumeric((p + (a + x))[0]) && !IsNumeric((p + (a + x))[|p + (a + x)| - 1])
  {
    var q := a + x;
    OneToken(a, x, term);
    ValueConcat(p, q, term);
    assert (p + q)[0] == p[0] && (p + q)[|p + q| - 1] == q[|q| - 1];
  }

  /** A token written after a text of whole tokens adds its term last. */
  lemma {:induction false} AppendToken(p: string, a: string, x: string, term: TermRule)
    requires p != [] && IsNumeric(p[0]) && !IsNumeric(p[|p| - 1])
    requires |a| > 0 && (forall k :: 0 <= k < |a| ==> IsNumeric(a[k]))
    requires |x| > 0 && (forall k :: 0 <= k < |x| ==> !IsNumeric(x[k]))
    ensures p + a + x != [] && IsNumeric((p + a + x)[0]) && !IsNumeric((p + a + x)[|p + a + x| - 1])
    ensures ValueFrom(p + a + x, 0, term) == Add(ValueFrom(p, 0, term), term(a, x))
  {
    assert p + (a + x) == p + a + x;
    AppendTokenRight(p, a, x, term);
  }

  /** A token of the format: a coefficient and the unit symbol after it. */
  datatype Token = Token(coefficient: string, symbol: string)

  /** A token that the scanner reads back as itself: a non-empty numeric run, then a non-empty unit run. */
  predicate IsToken(t: Token) {
    |t.coefficient| > 0 && (forall k :: 0 <= k < |t.coefficient| ==> IsNumeric(t.coefficient[k])) &&
    |t.symbol| > 0 && (forall k :: 0 <= k < |t.symbol| ==> !IsNumeric(t.symbol[k]))
  }

  /** The text of a sequence of tokens, written one after the other. */
  function Spell(ts: seq<Token>): string {
    if ts == [] then "" else ts[0].coefficient + ts[0].symbol + Spell(ts[1..])
  }

  /** The tokens' terms added up; the first failing token's error wins. */
  function SumTerms(ts: seq<Token>, term: TermRule): Result<nat, DurationError> {
    if ts == [] then Ok(0) else Add(term(ts[0].coefficient, ts[0].symbol), SumTerms(ts[1..], term))
  }

  /** Spell and SumTerms of a token in front of others. */
  lemma SpellCons(t: Token, ts: seq<Token>, term: TermRule)
    ensures Spell([t] + ts) == t.coefficient + t.symbol + Spell(ts)
    ensures SumTerms([t] + ts, term) == Add(term(t.coefficient, t.symbol), SumTerms(ts, term))
  {
    assert ([t] + ts)[0] == t && ([t] + ts)[1..] == ts;
  }

  /** A token worth w in front of tokens worth v makes w + v. */
  lemma SumTermsCons(t: Token, ts: seq<Token>, w: nat, v: nat, term: TermRule)
    requires term(t.coefficient, t.symbol) == Ok(w) && SumTerms(ts, term) == Ok(v)
    ensures SumTerms([t] + ts, term) == Ok(w + v)
  {
    SpellCons(t, ts, term);
  }

  /** Adding is associative, errors included: in either grouping the first error wins. */
  lemma AddAssoc(a: Result<nat, DurationError>, b: Result<nat, DurationError>, c: Result<nat, DurationError>)
    ensures Add(a, Add(b, c)) == Add(Add(a, b), c)
  {
  }

  /** A total of nothing is the unit of Add on either side. */
  lemma AddZero(z: Result<nat, DurationError>, t: Result<nat, DurationError>)
    requires z == Ok(0)
    ensures Add(z, t) == t && Add(t, z) == t
  {
  }

  /** The text of tokens is empty or starts with a numeric character. */
  lemma SpellStart(ts: seq<Token>)
    requires forall i :: 0 <= i < |ts| ==> IsToken(ts[i])
    ensures Spell(ts) == [] || IsNumeric(Spell(ts)[0])
  {
    if ts != [] {
      assert IsToken(ts[0]);
    }
  }

  /** A text written as well-formed tokens is worth the sum of their terms: the scanner finds exactly those tokens. */
  lemma {:induction false} SpellValue(ts: seq<Token>, term: TermRule)
    requires forall i :: 0 <= i < |ts| ==> IsToken(ts[i])
    ensures ValueFrom(Spell(ts), 0, term) == SumTerms(ts, term)
  {
    if ts == [] {
      assert ValueFrom("", 0, term) == Ok(0);
    } else {
      var t, rest := ts[0], ts[1..];
      assert IsToken(t);
      SpellValue(rest, term);
      SpellStart(rest);
      ValueOfToken(t.coefficient, t.symbol, Spell(rest), term);
    }
  }

  /** A text with no digit and no '.' has no token and is worth 0 seconds. */
  lemma ValueWithoutNumber(s: string)
    requires forall k :: 0 <= k < |s| ==> !IsNumeric(s[k])
    ensures DurationValue(s) == Ok(0)
  {
    RunEndIs(s, 0, true, 0);
    RunEndIs(s, 0, false, |s|);
  }

  /**
   * A text that starts with a unit and holds a number later fails on the
   * empty coefficient before the first unit.
   */
  lemma ValueLeadingUnit(s: string, k: nat)
    requires 0 < k < |s| && !IsNumeric(s[0]) && IsNumeric(s[k])
    ensures DurationValue(s) == Err(BadCoefficient(""))
  {
    RunEndIs(s, 0, true, 0);
    RunEndBefore(s, 0, false, k);
    RunEndRun(s, 0, false);
    assert ParseFloat("") == None;
  }

  /** Appending digits keeps unit runs as they are and lengthens a run of digits that reached the end. */
  lemma {:induction false} RunEndAppendNumber(s: string, num: string, x: nat, numeric: bool)
    requires x <= |s| && |num| > 0
    requires forall k :: 0 <= k < |num| ==> IsNumeric(num[k])
    ensures !numeric ==> RunEnd(s + num, x, numeric) == RunEnd(s, x, numeric)
    ensures numeric ==>
      RunEnd(s + num, x, numeric) == (if RunEnd(s, x, numeric) == |s| then |s + num| else RunEnd(s, x, numeric))
    decreases |s| - x
  {
    var t := s + num;
    if x < |s| {
      assert t[x] == s[x];
      if IsNumeric(s[x]) == numeric {
        RunEndAppendNumber(s, num, x + 1, numeric);
      }
    } else {
      assert t[|s|] == num[0];
      if numeric {
        forall k | |s| <= k < |t|
          ensures IsNumeric(t[k])
        {
          assert t[k] == num[k - |s|];
        }
        RunEndIs(t, |s|, true, |t|);
      }
    }
  }

  lemma {:induction false} ValueFromAppendNumber(s: string, num: string, from: nat, term: TermRule)
    requires from <= |s| && |num| > 0
    requires forall k :: 0 <= k < |num| ==> IsNumeric(num[k])
    requires from == |s| || IsNumeric(s[from]) || RunEnd(s, from, false) < |s|
    ensures ValueFrom(s + num, from, term) == ValueFrom(s, from, term)
    decreases |s| - from
  {
    var t := s + num;
    var n := RunEnd(s, from, true);
    RunEndAppendNumber(s, num, from, true);
    RunEndRun(s, from, true);
    if n == |s| {
      RunEndAppendNumber(s, num, n, false);
      assert RunEnd(t, |t|, false) == |t|;
    } else {
      var u := RunEnd(s, n, false);
      RunEndAppendNumber(s, num, n, false);
      RunEndRun(s, n, false);
      assert t[from..n] == s[from..n];
      assert t[n..u] == s[n..u];
      ValueFromAppendNumber(s, num, u, term);
    }
  }

  /**
   * A number without a unit at the end of a text is ignored (duration.go:62:
   * the final token is read only when a unit follows its number), unless the
   * text so far had no number at all.
   */
  lemma ValueTrailingNumber(s: string, num: string)
    requires forall k :: 0 <= k < |num| ==> IsNumeric(num[k])
    requires s == [] || exists k :: 0 <= k < |s| && IsNumeric(s[k])
    ensures DurationValue(s + num) == DurationValue(s)
  {
    if num == [] {
      assert s + num == s;
    } else if s != [] && !IsNumeric(s[0]) {
      var k :| 0 <= k < |s| && IsNumeric(s[k]);
      RunEndBefore(s, 0, false, k);
      ValueFromAppendNumber(s, num, 0, Term);
    } else {
      ValueFromAppendNumber(s, num, 0, Term);
    }
  }

  /** A coefficient made of digits and '.' carries no sign, so its term is never the negative-coefficient error. */
  lemma TermNotNegative(coefficient: string, symbol: string)
    requires forall k :: 0 <= k < |coefficient| ==> IsNumeric(coefficient[k])
    ensures Term(coefficient, symbol) != Err(NegativeCoefficient(coefficient))
  {
  }

  /**
   * The check `c < 0` of finishPart (duration.go:28-30) never fires: a
   * coefficient is a run of digits and '.', so the text "-1.3m" fails on the
   * empty coefficient before the unit "-" instead.
   */
  lemma {:induction false} NeverNegative(s: string, from: nat)
    requires from <= |s|
    ensures !ValueFrom(s, from, Term).Err? || !ValueFrom(s, from, Term).error.NegativeCoefficient?
    decreases |s| - from
  {
    var n := RunEnd(s, from, true);
    var u := RunEnd(s, n, false);
    RunEndRun(s, from, true);
    if u != n && !(n == from && u == |s|) {
      var c := s[from..n];
      assert forall k :: 0 <= k < |c| ==> c[k] == s[from + k];
      TermNotNegative(c, s[n..u]);
      NeverNegative(s, u);
    }
  }
}
