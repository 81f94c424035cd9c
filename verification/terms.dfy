/** An analysis request and the one-time preparation of its terms
    (bundleparty.py, `run_analysis`, step 3): literal terms and ignore terms
    are lowercased once; regex terms are compiled once and a term that does
    not compile is skipped with a warning. */
module Terms {
  import opened Seqs
  import opened Text

  datatype Mode = Literal | Regex

  /** The regular-expression library, which this model does not implement:
      whether `re.compile(p, re.IGNORECASE)` succeeds for a pattern, and
      whether the compiled pattern's `search` finds a match anywhere in a
      line (case-insensitively, as the flag asks). */
  datatype RegexEngine = RegexEngine(compiles: string -> bool, search: (string, string) -> bool)

  /** One call of `run_analysis`: the search terms, the output file name,
      the mode, and the optional ignore terms (`None` when the caller
      passed none). */
  datatype Analysis = Analysis(
    terms: seq<string>,
    outputFile: string,
    mode: Mode,
    ignoreTerms: Option<seq<string>>)

  /** The prepared terms the per-line loop works with. In literal mode both
      lists are lowercased; in regex mode `terms` holds the text
      (`pattern.pattern`) of each pattern that compiled. */
  datatype Matcher = Matcher(mode: Mode, terms: seq<string>, ignoreTerms: seq<string>)

  /** The matcher, and the patterns reported as invalid, in order. */
  datatype Prepared = Prepared(matcher: Matcher, skipped: seq<string>)

  /** `ignore_terms = []` when the caller passed `None`. */
  function IgnoreList(a: Analysis): (r: seq<string>)
    ensures a.ignoreTerms.None? ==> r == []
    ensures a.ignoreTerms.Some? ==> r == a.ignoreTerms.value
  {
    match a.ignoreTerms
    case None => []
    case Some(ts) => ts
  }

  function Prepare(a: Analysis, engine: RegexEngine): (p: Prepared)
    ensures p.matcher.mode == a.mode
    // literal mode: every term and every ignore term lowercased, nothing skipped
    ensures a.mode == Literal ==>
      && |p.matcher.terms| == |a.terms|
      && (forall k :: 0 <= k < |a.terms| ==> p.matcher.terms[k] == Lower(a.terms[k]))
      && (forall k :: 0 <= k < |p.matcher.terms| ==> IsLower(p.matcher.terms[k]))
      && |p.matcher.ignoreTerms| == |IgnoreList(a)|
      && (forall k :: 0 <= k < |IgnoreList(a)| ==> p.matcher.ignoreTerms[k] == Lower(IgnoreList(a)[k]))
      && p.skipped == []
    // regex mode: the terms split into those that compile and those skipped,
    // and ignore terms are left exactly as given
    ensures a.mode == Regex ==>
      && (forall k :: 0 <= k < |p.matcher.terms| ==> engine.compiles(p.matcher.terms[k]))
      && (forall k :: 0 <= k < |p.skipped| ==> !engine.compiles(p.skipped[k]))
      && |p.matcher.terms| + |p.skipped| == |a.terms|
      && p.matcher.ignoreTerms == IgnoreList(a)
  {
    match a.mode
    case Literal =>
      Prepared(Matcher(Literal, Map(Lower, a.terms), Map(Lower, IgnoreList(a))), [])
    case Regex =>
      var kept := Filter(engine.compiles, a.terms);
      var skipped := Filter((t: string) => !engine.compiles(t), a.terms);
      FilterSplits(engine.compiles, a.terms);
      Prepared(Matcher(Regex, kept, IgnoreList(a)), skipped)
  }

  lemma {:induction false} FilterSplits(p: string -> bool, s: seq<string>)
    ensures |Filter(p, s)| + |Filter((t: string) => !p(t), s)| == |s|
  {
    if |s| > 0 {
      FilterSplits(p, s[1..]);
    }
  }

  /** Invalid patterns are dropped, not fatal: the compiled list is exactly
      the subsequence of the search terms that compile, in their original
      order. It is a subsequence of the terms, each of its patterns
      compiles, and every compiling term keeps all of its occurrences. */
  lemma CompiledPatternsAreOrderedSubsequence(a: Analysis, engine: RegexEngine)
    requires a.mode == Regex
    ensures IsSubsequence(Prepare(a, engine).matcher.terms, a.terms)
    ensures forall t :: engine.compiles(t) ==>
      multiset(Prepare(a, engine).matcher.terms)[t] == multiset(a.terms)[t]
    ensures forall t :: !engine.compiles(t) ==> t !in Prepare(a, engine).matcher.terms
  {
    FilterIsSubsequence(engine.compiles, a.terms);
    forall t | engine.compiles(t)
      ensures multiset(Prepare(a, engine).matcher.terms)[t] == multiset(a.terms)[t]
    {
      FilterCounts(engine.compiles, a.terms, t);
    }
  }

  /** The skipped patterns are the terms that do not compile, in order, so
      no term is lost: each appears either in the matcher or in a warning. */
  lemma SkippedPatternsAreTheRest(a: Analysis, engine: RegexEngine)
    requires a.mode == Regex
    ensures IsSubsequence(Prepare(a, engine).skipped, a.terms)
    ensures multiset(Prepare(a, engine).matcher.terms) + multiset(Prepare(a, engine).skipped)
         == multiset(a.terms)
  {
    var notP := (t: string) => !engine.compiles(t);
    FilterIsSubsequence(notP, a.terms);
    var p := Prepare(a, engine);
    forall t
      ensures (multiset(p.matcher.terms) + multiset(p.skipped))[t] == multiset(a.terms)[t]
    {
      FilterCounts(engine.compiles, a.terms, t);
      FilterCounts(notP, a.terms, t);
    }
  }

  /** When every pattern compiles, the matcher keeps the term list as is. */
  lemma AllValidPatternsKept(a: Analysis, engine: RegexEngine)
    requires a.mode == Regex
    requires forall k :: 0 <= k < |a.terms| ==> engine.compiles(a.terms[k])
    ensures Prepare(a, engine).matcher.terms == a.terms
    ensures Prepare(a, engine).skipped == []
  {
    FilterKeepsAll(engine.compiles, a.terms);
    FilterDropsAll((t: string) => !engine.compiles(t), a.terms);
  }
}
