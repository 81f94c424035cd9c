/** The free-form search of the menu (bundleparty.py, `main`): a choice
    that is not a menu key is read as comma-separated literal terms and run
    as a literal-mode analysis without ignore terms. */
module Custom {
  import opened Seqs
  import opened Text
  import opened Terms
  import opened Evaluate

  const CustomOutputFile: string := "custom_search_results.txt"

  predicate NonEmpty(s: string) {
    s != ""
  }

  /** `[term.strip() for term in choice.split(',') if term.strip()]`. */
  function ParseCustomTerms(choice: string): (r: seq<string>)
    ensures forall k :: 0 <= k < |r| ==> r[k] != "" && ',' !in r[k] && IsStripped(r[k])
  {
    var pieces := Split(choice, ',');
    var stripped := Map(Strip, pieces);
    assert forall k :: 0 <= k < |stripped| ==> ',' !in stripped[k] by {
      forall k | 0 <= k < |stripped| ensures ',' !in stripped[k] {
        StripKeepsOut(pieces[k], ',');
      }
    }
    assert forall k :: 0 <= k < |stripped| ==> IsStripped(stripped[k]) by {
      forall k | 0 <= k < |stripped| ensures IsStripped(stripped[k]) {
        StripSpec(pieces[k]);
      }
    }
    Filter(NonEmpty, stripped)
  }

  /** A character absent from a string is absent from its stripped form. */
  lemma StripKeepsOut(s: string, c: char)
    requires c !in s
    ensures c !in Strip(s)
  {
    var r := Strip(s);
    StripSpec(s);
    var i :| OccursAt(r, s, i) && AllSpace(s[..i]) && AllSpace(s[i + |r|..]);
    assert forall k :: 0 <= k < |r| ==> r[k] == s[i + k];
  }

  /** Custom-term order: the terms are the stripped pieces of the input in
      their original order, with exactly the blank ones left out. */
  lemma CustomTermsKeepOrder(choice: string)
    ensures IsSubsequence(ParseCustomTerms(choice), Map(Strip, Split(choice, ',')))
    ensures forall t :: t != "" ==>
      multiset(ParseCustomTerms(choice))[t] == multiset(Map(Strip, Split(choice, ',')))[t]
    ensures "" !in ParseCustomTerms(choice)
  {
    var stripped := Map(Strip, Split(choice, ','));
    FilterIsSubsequence(NonEmpty, stripped);
    forall t | t != "" ensures multiset(ParseCustomTerms(choice))[t] == multiset(stripped)[t] {
      FilterCounts(NonEmpty, stripped, t);
    }
  }

  lemma ParseCustomTermsIs(choice: string)
    ensures ParseCustomTerms(choice) == Filter(NonEmpty, Map(Strip, Split(choice, ',')))
  {
  }

  lemma StripStripped(t: string)
    requires IsStripped(t)
    ensures Strip(t) == t
  {
    StripPadded("", t, "");
    assert "" + t + "" == t;
  }

  lemma MapStripStripped(terms: seq<string>)
    requires forall k :: 0 <= k < |terms| ==> IsStripped(terms[k])
    ensures Map(Strip, terms) == terms
  {
    forall k | 0 <= k < |terms| ensures Map(Strip, terms)[k] == terms[k] {
      StripStripped(terms[k]);
    }
  }

  /** Joining non-empty, comma-free, already stripped terms with commas and
      parsing the result gives the same terms back. */
  lemma ParseJoinRoundTrip(terms: seq<string>)
    requires forall k :: 0 <= k < |terms| ==> terms[k] != "" && ',' !in terms[k] && IsStripped(terms[k])
    ensures ParseCustomTerms(Join(terms, ',')) == terms
  {
    if |terms| == 0 {
      EmptyInputNoTerms();
    } else {
      SplitJoin(terms, ',');
      MapStripStripped(terms);
      FilterKeepsAll(NonEmpty, terms);
      ParseCustomTermsIs(Join(terms, ','));
    }
  }

  /** An empty input parses to no terms: `"".split(",")` is `[""]`, whose
      one piece is blank. */
  lemma EmptyInputNoTerms()
    ensures ParseCustomTerms("") == []
  {
    assert Split("", ',') == [""];
    assert Strip("") == "";
    assert Map(Strip, [""]) == [""];
    ParseCustomTermsIs("");
  }

  /** A trailing blank piece vanishes: appending a comma and whitespace to
      the input does not change what is parsed. */
  lemma TrailingBlankPieceIgnored(terms: seq<string>, pad: string)
    requires AllSpace(pad) && ',' !in pad
    requires forall k :: 0 <= k < |terms| ==> terms[k] != "" && ',' !in terms[k] && IsStripped(terms[k])
    ensures ParseCustomTerms(Join(terms + [pad], ',')) == terms
  {
    var all := terms + [pad];
    CommaFreeSplit(terms, pad);
    StripPaddedList(terms, pad);
    DropTrailingBlank(terms);
    ParseCustomTermsIs(Join(all, ','));
  }

  lemma CommaFreeSplit(terms: seq<string>, pad: string)
    requires ',' !in pad
    requires forall k :: 0 <= k < |terms| ==> ',' !in terms[k]
    ensures Split(Join(terms + [pad], ','), ',') == terms + [pad]
  {
    var all := terms + [pad];
    assert forall k :: 0 <= k < |all| ==> ',' !in all[k] by {
      forall k | 0 <= k < |all| ensures ',' !in all[k] {
        if k < |terms| {
          assert all[k] == terms[k];
        }
      }
    }
    SplitJoin(all, ',');
  }

  lemma DropTrailingBlank(terms: seq<string>)
    requires forall k :: 0 <= k < |terms| ==> terms[k] != ""
    ensures Filter(NonEmpty, terms + [""]) == terms
  {
    FilterAppend(NonEmpty, terms, [""]);
    FilterKeepsAll(NonEmpty, terms);
    assert Filter(NonEmpty, [""]) == [];
    assert terms + [] == terms;
  }

  lemma StripPaddedList(terms: seq<string>, pad: string)
    requires AllSpace(pad)
    requires forall k :: 0 <= k < |terms| ==> IsStripped(terms[k])
    ensures Map(Strip, terms + [pad]) == terms + [""]
  {
    var all := terms + [pad];
    var st := Map(Strip, all);
    forall k | 0 <= k < |all| ensures st[k] == (terms + [""])[k] {
      if k < |terms| {
        StripStripped(terms[k]);
      }
    }
  }

  /** The run a custom choice starts: `None` ("No valid custom search terms
      were entered.") when no term survives parsing, otherwise a literal-mode
      analysis of the parsed terms, without ignore terms, written to
      `custom_search_results.txt`. The menu reaches this branch only for a
      stripped, non-empty choice that is neither `q` nor `a` in any case
      nor a key of the catalog; the function describes that branch and is
      not meant for the other choices. */
  function CustomAnalysis(choice: string): (r: Option<Analysis>)
    ensures r.None? <==> ParseCustomTerms(choice) == []
    ensures r.Some? ==>
      && r.value.mode == Literal
      && r.value.ignoreTerms == None
      && r.value.outputFile == CustomOutputFile
      && r.value.terms == ParseCustomTerms(choice)
  {
    var terms := ParseCustomTerms(choice);
    if terms == [] then None else Some(Analysis(terms, CustomOutputFile, Literal, None))
  }

  /** A custom search reports every line one of its terms occurs in, in any
      case: custom terms are never empty and a custom run has no ignore
      terms, so no line a term hits is dropped. */
  lemma CustomRunReportsEveryHit(choice: string, engine: RegexEngine, line: string)
    requires CustomAnalysis(choice).Some?
    ensures EvaluateLine(Prepare(CustomAnalysis(choice).value, engine).matcher, engine, line).Some?
        <==> exists k :: 0 <= k < |ParseCustomTerms(choice)| && Contains(Lower(ParseCustomTerms(choice)[k]), Lower(line))
  {
    var a := CustomAnalysis(choice).value;
    var m := Prepare(a, engine).matcher;
    LiteralMatchIff(a, engine, line);
    assert forall k :: 0 <= k < |m.terms| ==> |m.terms[k]| == |a.terms[k]| > 0;
    NothingDroppedWithoutIgnoreTerms(m, engine, line);
  }

  /** With no ignore terms and no empty term, every hit is reported. */
  lemma NothingDroppedWithoutIgnoreTerms(m: Matcher, engine: RegexEngine, line: string)
    requires m.ignoreTerms == []
    requires forall k :: 0 <= k < |m.terms| ==> m.terms[k] != ""
    ensures EvaluateLine(m, engine, line).Some? <==> MatchedTerm(m, engine, line).Some?
  {
    assert !Suppressed(m, line);
  }
}
