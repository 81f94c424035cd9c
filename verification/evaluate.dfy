/** Evaluation of one line against a prepared matcher (bundleparty.py,
    `run_analysis`, the body of `for line in f`): the terms are tried in
    order and the first hit wins; a line whose `matched_term` is missing or
    empty is dropped; a matched line containing an ignore term is
    suppressed; a surviving line becomes one record. */
module Evaluate {
  import opened Seqs
  import opened Text
  import opened Terms

  /** Prepared term `t` hits `line`: `t in line.lower()` in literal mode,
      `pattern.search(line)` in regex mode. */
  predicate Hits(m: Matcher, engine: RegexEngine, t: string, line: string) {
    match m.mode
    case Literal => Contains(t, Lower(line))
    case Regex => engine.search(t, line)
  }

  /** `k` is the position of the first term of `m` that hits `line`. */
  predicate IsFirstHit(m: Matcher, engine: RegexEngine, line: string, k: int) {
    && 0 <= k < |m.terms|
    && Hits(m, engine, m.terms[k], line)
    && forall j :: 0 <= j < k ==> !Hits(m, engine, m.terms[j], line)
  }

  /** The term loop, resumed at position `from`: the first position from
      `from` on whose term hits, or `None` when the loop runs out. */
  function FirstHitFrom(m: Matcher, engine: RegexEngine, line: string, from: nat): (r: Option<nat>)
    requires from <= |m.terms|
    ensures r.Some? ==>
      && from <= r.value < |m.terms|
      && Hits(m, engine, m.terms[r.value], line)
      && forall j :: from <= j < r.value ==> !Hits(m, engine, m.terms[j], line)
    ensures r.None? ==> forall j :: from <= j < |m.terms| ==> !Hits(m, engine, m.terms[j], line)
    decreases |m.terms| - from
  {
    if from == |m.terms| then None
    else if Hits(m, engine, m.terms[from], line) then Some(from)
    else FirstHitFrom(m, engine, line, from + 1)
  }

  /** The position whose term ends the loop with `break`, if any. */
  function FirstHit(m: Matcher, engine: RegexEngine, line: string): (r: Option<nat>)
    ensures r.Some? ==> IsFirstHit(m, engine, line, r.value)
    ensures r.None? <==> forall j :: 0 <= j < |m.terms| ==> !Hits(m, engine, m.terms[j], line)
  {
    FirstHitFrom(m, engine, line, 0)
  }

  /** `matched_term` after the loop: `None`, or the text of the winning term
      (already lowercased in literal mode, `pattern.pattern` in regex mode). */
  function MatchedTerm(m: Matcher, engine: RegexEngine, line: string): Option<string>
  {
    match FirstHit(m, engine, line)
    case None => None
    case Some(k) => Some(m.terms[k])
  }

  /** A matched term is the term of the first hit, and there is none exactly
      when no term hits the line. */
  lemma MatchedTermIsFirstHit(m: Matcher, engine: RegexEngine, line: string)
    ensures MatchedTerm(m, engine, line).Some? ==>
      exists k :: IsFirstHit(m, engine, line, k) && MatchedTerm(m, engine, line).value == m.terms[k]
    ensures MatchedTerm(m, engine, line).None? <==>
      forall j :: 0 <= j < |m.terms| ==> !Hits(m, engine, m.terms[j], line)
  {
  }

  /** The text the ignore terms are tested against: the raw line in regex
      mode, the lowercased line in literal mode. */
  function CheckedText(m: Matcher, line: string): string {
    if m.mode == Regex then line else Lower(line)
  }

  /** `any(ignore in line_to_check for ignore in ignore_terms)`. */
  predicate Suppressed(m: Matcher, line: string) {
    exists k :: 0 <= k < |m.ignoreTerms| && Contains(m.ignoreTerms[k], CheckedText(m, line))
  }

  /** The term reported for `line`, or `None` when the line yields no record. */
  function EvaluateLine(m: Matcher, engine: RegexEngine, line: string): (r: Option<string>)
    ensures r.Some? ==> r.value != "" && !Suppressed(m, line)
    ensures r.Some? ==> exists k :: IsFirstHit(m, engine, line, k) && r.value == m.terms[k]
  {
    match MatchedTerm(m, engine, line)
    case None => None
    case Some(t) => if t == "" || Suppressed(m, line) then None else Some(t)
  }

  /** The first term hitting a line is reported unless it is empty or an
      ignore term is found. */
  lemma FirstTermReported(m: Matcher, engine: RegexEngine, line: string, k: nat)
    requires IsFirstHit(m, engine, line, k) && m.terms[k] != "" && !Suppressed(m, line)
    ensures EvaluateLine(m, engine, line) == Some(m.terms[k])
  {
    var r := FirstHit(m, engine, line);
    var v := r.value;
    assert IsFirstHit(m, engine, line, v);
  }

  // ---------------------------------------------------------------------
  // Output records

  const RecordOpen: string := "["
  const RecordMiddle: string := "] [Matched: '"
  const RecordClose: string := "'] "

  /** `f"[{file_path}] [Matched: '{matched_term}'] {line}"`; the line keeps
      its own terminator. */
  function Record(path: string, term: string, line: string): (r: string)
    ensures |r| == |path| + |term| + |line| + 17
    ensures r[..|path| + 14] == "[" + path + "] [Matched: '"
    ensures r[|r| - |line| - 3..] == "'] " + line
  {
    RecordOpen + path + RecordMiddle + term + RecordClose + line
  }

  /** Reads the term back out of a record, knowing its path and line. */
  function RecordTerm(path: string, line: string, r: string): string
    requires |r| >= |path| + |line| + 17
  {
    r[|path| + 14..|r| - |line| - 3]
  }

  /** A record determines its term once its path and line are known. */
  lemma RecordTermRoundTrip(path: string, term: string, line: string)
    ensures RecordTerm(path, line, Record(path, term, line)) == term
  {
    var r := Record(path, term, line);
    assert r == "[" + path + "] [Matched: '" + term + "'] " + line;
    assert r[|path| + 14..|path| + 14 + |term|] == term;
  }

  /** The text of the output file: the records written one after another.
      A record adds no line terminator of its own; it ends with the line's. */
  function OutputText(records: seq<string>): string {
    if |records| == 0 then "" else OutputText(records[..|records| - 1]) + records[|records| - 1]
  }

  /** A record holds as many line terminators as its path, term and line
      together: the fixed parts of the format hold none. */
  lemma RecordNewlines(path: string, term: string, line: string)
    ensures multiset(Record(path, term, line))['\n']
         == multiset(path)['\n'] + multiset(term)['\n'] + multiset(line)['\n']
  {
    assert '\n' !in RecordOpen && '\n' !in RecordMiddle && '\n' !in RecordClose;
    assert Record(path, term, line) == RecordOpen + path + RecordMiddle + term + RecordClose + line;
  }

  /** Records are not lines. When the last line of a file has no terminator,
      its record runs into the next one: two records, each for a line
      holding no other terminator, make a single line of output. */
  lemma UnterminatedLineJoinsNextRecord(p1: string, t1: string, l1: string, p2: string, t2: string, l2: string)
    requires '\n' !in p1 && '\n' !in t1 && '\n' !in l1
    requires '\n' !in p2 && '\n' !in t2 && multiset(l2)['\n'] == 1
    ensures multiset(OutputText([Record(p1, t1, l1), Record(p2, t2, l2)]))['\n'] == 1
  {
    var r1 := Record(p1, t1, l1);
    var r2 := Record(p2, t2, l2);
    RecordNewlines(p1, t1, l1);
    RecordNewlines(p2, t2, l2);
    OutputTextOfTwo(r1, r2);
    assert multiset(r1 + r2) == multiset(r1) + multiset(r2);
  }

  lemma OutputTextOfTwo(r1: string, r2: string)
    ensures OutputText([r1, r2]) == r1 + r2
  {
    var rs := [r1, r2];
    assert rs[..1] == [r1] && rs[1] == r2;
    assert [r1][..0] == [] && [r1][0] == r1;
    assert OutputText([r1]) == OutputText([]) + r1;
    assert OutputText([]) + r1 == r1;
    assert OutputText(rs) == OutputText(rs[..1]) + rs[1];
  }

  // ---------------------------------------------------------------------
  // Properties, stated against the caller's analysis before preparation

  /** Case-insensitive literal match: in literal mode the term loop hits
      iff the lowercase form of some search term is a substring of the
      lowercased line. */
  lemma LiteralMatchIff(a: Analysis, engine: RegexEngine, line: string)
    requires a.mode == Literal
    ensures MatchedTerm(Prepare(a, engine).matcher, engine, line).Some?
        <==> exists k :: 0 <= k < |a.terms| && Contains(Lower(a.terms[k]), Lower(line))
  {
    var m := Prepare(a, engine).matcher;
    if exists k :: 0 <= k < |a.terms| && Contains(Lower(a.terms[k]), Lower(line)) {
      var k :| 0 <= k < |a.terms| && Contains(Lower(a.terms[k]), Lower(line));
      assert Hits(m, engine, m.terms[k], line);
    }
  }

  /** First match wins, literal mode: the reported term is the lowercase
      form of the first search term found in the line, in list order. */
  lemma LiteralFirstMatchWins(a: Analysis, engine: RegexEngine, line: string, k: nat)
    requires a.mode == Literal
    requires k < |a.terms| && Contains(Lower(a.terms[k]), Lower(line))
    requires forall j :: 0 <= j < k ==> !Contains(Lower(a.terms[j]), Lower(line))
    ensures MatchedTerm(Prepare(a, engine).matcher, engine, line) == Some(Lower(a.terms[k]))
  {
    var m := Prepare(a, engine).matcher;
    var r := FirstHit(m, engine, line);
    assert Hits(m, engine, m.terms[k], line);
    var v := r.value;
    assert Contains(Lower(a.terms[v]), Lower(line));
  }

  /** First match wins, regex mode: among the patterns that compiled, the
      first whose search succeeds is reported by its pattern text. */
  lemma RegexFirstMatchWins(a: Analysis, engine: RegexEngine, line: string, k: nat)
    requires a.mode == Regex
    requires k < |Prepare(a, engine).matcher.terms|
    requires engine.search(Prepare(a, engine).matcher.terms[k], line)
    requires forall j :: 0 <= j < k ==> !engine.search(Prepare(a, engine).matcher.terms[j], line)
    ensures MatchedTerm(Prepare(a, engine).matcher, engine, line)
         == Some(Prepare(a, engine).matcher.terms[k])
  {
    var m := Prepare(a, engine).matcher;
    var r := FirstHit(m, engine, line);
    assert Hits(m, engine, m.terms[k], line);
    var v := r.value;
    assert engine.search(m.terms[v], line);
  }

  /** Regex mode matches a line iff some search term both compiles and
      finds a match in it; a term that does not compile never matches. */
  lemma RegexMatchIff(a: Analysis, engine: RegexEngine, line: string)
    requires a.mode == Regex
    ensures MatchedTerm(Prepare(a, engine).matcher, engine, line).Some?
        <==> exists k :: 0 <= k < |a.terms| && engine.compiles(a.terms[k]) && engine.search(a.terms[k], line)
  {
    if exists k :: 0 <= k < |a.terms| && engine.compiles(a.terms[k]) && engine.search(a.terms[k], line) {
      var k :| 0 <= k < |a.terms| && engine.compiles(a.terms[k]) && engine.search(a.terms[k], line);
      CompilingTermMatches(a, engine, line, k);
    }
    if MatchedTerm(Prepare(a, engine).matcher, engine, line).Some? {
      MatchedPatternIsTerm(a, engine, line);
    }
  }

  lemma CompilingTermMatches(a: Analysis, engine: RegexEngine, line: string, k: nat)
    requires a.mode == Regex
    requires k < |a.terms| && engine.compiles(a.terms[k]) && engine.search(a.terms[k], line)
    ensures MatchedTerm(Prepare(a, engine).matcher, engine, line).Some?
  {
    var m := Prepare(a, engine).matcher;
    CompiledPatternsAreOrderedSubsequence(a, engine);
    var t := a.terms[k];
    assert t in multiset(a.terms);
    assert t in multiset(m.terms);
    var j :| 0 <= j < |m.terms| && m.terms[j] == t;
    assert Hits(m, engine, m.terms[j], line);
  }

  lemma MatchedPatternIsTerm(a: Analysis, engine: RegexEngine, line: string)
    requires a.mode == Regex
    requires MatchedTerm(Prepare(a, engine).matcher, engine, line).Some?
    ensures exists k :: 0 <= k < |a.terms| && engine.compiles(a.terms[k]) && engine.search(a.terms[k], line)
  {
    var m := Prepare(a, engine).matcher;
    CompiledPatternsAreOrderedSubsequence(a, engine);
    var j := FirstHit(m, engine, line).value;
    var t := m.terms[j];
    assert engine.compiles(t) && engine.search(t, line);
    assert t in multiset(m.terms);
    assert t in multiset(a.terms);
    var k :| 0 <= k < |a.terms| && a.terms[k] == t;
  }

  /** Ignore terms suppress matched lines. In literal mode a lowercased
      ignore term is looked for in the lowercased line; in regex mode the
      ignore term is looked for, case-sensitively, in the raw line. */
  lemma IgnoreSuppresses(a: Analysis, engine: RegexEngine, line: string, ignore: string)
    requires ignore in IgnoreList(a)
    requires a.mode == Literal ==> Contains(Lower(ignore), Lower(line))
    requires a.mode == Regex ==> Contains(ignore, line)
    ensures EvaluateLine(Prepare(a, engine).matcher, engine, line) == None
  {
    var m := Prepare(a, engine).matcher;
    var k :| 0 <= k < |IgnoreList(a)| && IgnoreList(a)[k] == ignore;
    assert Contains(m.ignoreTerms[k], CheckedText(m, line));
  }

  /** A matched line survives exactly when its matched term is non-empty
      and no ignore term is found in the checked text. */
  lemma EvaluateIff(m: Matcher, engine: RegexEngine, line: string)
    ensures EvaluateLine(m, engine, line).Some?
        <==> exists k :: IsFirstHit(m, engine, line, k) && m.terms[k] != "" && !Suppressed(m, line)
  {
    if exists k :: IsFirstHit(m, engine, line, k) && m.terms[k] != "" && !Suppressed(m, line) {
      var k :| IsFirstHit(m, engine, line, k) && m.terms[k] != "" && !Suppressed(m, line);
      FirstHitUnique(m, engine, line, k, FirstHit(m, engine, line).value);
    }
  }

  lemma FirstHitUnique(m: Matcher, engine: RegexEngine, line: string, k: int, k': int)
    requires IsFirstHit(m, engine, line, k) && IsFirstHit(m, engine, line, k')
    ensures k == k'
  {
  }

  /** Ignore terms never create matches: a line no term hits is dropped
      whatever its content, and a line whose first hit is the empty term
      (a falsy `matched_term`) is dropped even when a later term would hit. */
  lemma IgnoreNeverCreatesMatches(m: Matcher, engine: RegexEngine, line: string)
    ensures MatchedTerm(m, engine, line).None? ==> EvaluateLine(m, engine, line).None?
    ensures MatchedTerm(m, engine, line) == Some("") ==> EvaluateLine(m, engine, line).None?
    ensures EvaluateLine(m, engine, line).Some? ==>
      EvaluateLine(m, engine, line) == MatchedTerm(m.(ignoreTerms := []), engine, line)
  {
  }

  /** Adding ignore terms can only remove records, never add or change one. */
  lemma MoreIgnoreTermsOnlyRemove(m: Matcher, engine: RegexEngine, line: string, extra: seq<string>)
    ensures EvaluateLine(m.(ignoreTerms := m.ignoreTerms + extra), engine, line).Some? ==>
      EvaluateLine(m.(ignoreTerms := m.ignoreTerms + extra), engine, line) == EvaluateLine(m, engine, line)
  {
    var m' := m.(ignoreTerms := m.ignoreTerms + extra);
    assert FirstHit(m', engine, line) == FirstHit(m, engine, line) by {
      FirstHitIgnoresIgnoreTerms(m, m', engine, line, 0);
    }
    if Suppressed(m, line) {
      var k :| 0 <= k < |m.ignoreTerms| && Contains(m.ignoreTerms[k], CheckedText(m, line));
      assert m'.ignoreTerms[k] == m.ignoreTerms[k];
    }
  }

  lemma {:induction false} FirstHitIgnoresIgnoreTerms(m: Matcher, m': Matcher, engine: RegexEngine, line: string, from: nat)
    requires m.mode == m'.mode && m.terms == m'.terms && from <= |m.terms|
    ensures FirstHitFrom(m, engine, line, from) == FirstHitFrom(m', engine, line, from)
    decreases |m.terms| - from
  {
    if from < |m.terms| {
      FirstHitIgnoresIgnoreTerms(m, m', engine, line, from + 1);
    }
  }

  /** Literal mode is case-insensitive end to end: two lines that agree
      after lowercasing get the same verdict and the same reported term. */
  lemma {:induction false} LiteralCaseInsensitive(m: Matcher, engine: RegexEngine, line1: string, line2: string)
    requires m.mode == Literal
    requires Lower(line1) == Lower(line2)
    ensures EvaluateLine(m, engine, line1) == EvaluateLine(m, engine, line2)
  {
    FirstHitSameLower(m, engine, line1, line2, 0);
  }

  lemma {:induction false} FirstHitSameLower(m: Matcher, engine: RegexEngine, line1: string, line2: string, from: nat)
    requires m.mode == Literal && Lower(line1) == Lower(line2) && from <= |m.terms|
    ensures FirstHitFrom(m, engine, line1, from) == FirstHitFrom(m, engine, line2, from)
    decreases |m.terms| - from
  {
    if from < |m.terms| {
      FirstHitSameLower(m, engine, line1, line2, from + 1);
    }
  }

  /** A literal term that contains an earlier term (after lowercasing) is
      never the one reported: whenever it occurs, the earlier one does too. */
  lemma LiteralShadowedTermNeverReported(a: Analysis, engine: RegexEngine, line: string, i: nat, j: nat)
    requires a.mode == Literal
    requires i < j < |a.terms|
    requires Contains(Lower(a.terms[i]), Lower(a.terms[j]))
    ensures FirstHit(Prepare(a, engine).matcher, engine, line) != Some(j)
  {
    var m := Prepare(a, engine).matcher;
    if Hits(m, engine, m.terms[j], line) {
      ContainsTransitive(m.terms[i], m.terms[j], Lower(line));
      assert Hits(m, engine, m.terms[i], line);
    }
  }
}
