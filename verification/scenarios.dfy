/** Worked examples of whole-line evaluation and of a whole run, on small
    concrete inputs. */
module Scenarios {
  import opened Seqs
  import opened Text
  import opened Terms
  import opened Evaluate
  import opened Scan
  import Catalog

  // ---------------------------------------------------------------------
  // The ignore-term asymmetry

  const KnownErrorLine: string := "a knownerror occurred"

  /** Search term "error" with ignore term "KnownError", in either mode. */
  function ErrorAnalysis(mode: Mode): Analysis {
    Analysis(["error"], "out.txt", mode, Some(["KnownError"]))
  }

  lemma KnownErrorLineIsLower()
    ensures Lower(KnownErrorLine) == KnownErrorLine
  {
    assert IsLower(KnownErrorLine);
    LowerIsIdempotent(KnownErrorLine);
  }

  lemma LowerKnownError(s: string)
    requires s == "KnownError"
    ensures Lower(s) == "knownerror"
  {
    assert LowerChar('K') == 'k' && LowerChar('E') == 'e';
    assert Lower(s) == [LowerChar(s[0])] + s[1..5] + [LowerChar(s[5])] + s[6..];
  }

  lemma LoweredIgnoreInKnownErrorLine()
    ensures Contains(Lower("KnownError"), KnownErrorLine)
  {
    LowerKnownError("KnownError");
    assert KnownErrorLine == "a " + "knownerror" + " occurred";
    ContainsMiddle("a ", "knownerror", " occurred");
  }

  lemma RawIgnoreNotInKnownErrorLine()
    ensures !Contains("KnownError", KnownErrorLine)
  {
    assert 'K' in "KnownError" && 'K' !in KnownErrorLine;
    ContainedCharsOccur("KnownError", KnownErrorLine);
  }

  /** The ignore-term asymmetry, literal half: with the term "error" and the
      ignore term "KnownError", the line "a knownerror occurred" is
      suppressed, because both sides are lowercased. */
  lemma LiteralIgnoreIsCaseInsensitive(engine: RegexEngine)
    ensures EvaluateLine(Prepare(ErrorAnalysis(Literal), engine).matcher, engine, KnownErrorLine) == None
  {
    KnownErrorLineIsLower();
    LoweredIgnoreInKnownErrorLine();
    IgnoreSuppresses(ErrorAnalysis(Literal), engine, KnownErrorLine, "KnownError");
  }

  /** A regex-mode matcher with one pattern and one ignore term reports the
      pattern for a line it finds a match in, unless the ignore term occurs
      in the raw line. */
  lemma SinglePatternReported(m: Matcher, engine: RegexEngine, line: string)
    requires m.mode == Regex && |m.terms| == 1 && |m.ignoreTerms| == 1
    requires engine.search(m.terms[0], line) && m.terms[0] != ""
    requires !Contains(m.ignoreTerms[0], line)
    ensures EvaluateLine(m, engine, line) == Some(m.terms[0])
  {
    assert IsFirstHit(m, engine, line, 0);
    FirstTermReported(m, engine, line, 0);
  }

  /** The ignore-term asymmetry, regex half: with an engine that finds
      "error" in the line, the same line is reported, because the ignore term
      is looked for case-sensitively in the raw line. */
  lemma RegexIgnoreIsCaseSensitive(engine: RegexEngine)
    requires engine.compiles("error") && engine.search("error", KnownErrorLine)
    ensures EvaluateLine(Prepare(ErrorAnalysis(Regex), engine).matcher, engine, KnownErrorLine) == Some("error")
  {
    var a := ErrorAnalysis(Regex);
    AllValidPatternsKept(a, engine);
    var m := Prepare(a, engine).matcher;
    RawIgnoreNotInKnownErrorLine();
    SinglePatternReported(m, engine, KnownErrorLine);
  }

  // ---------------------------------------------------------------------
  // A whole run of "Connection Errors"

  const ConnectTerm: string := "failed to connect to"
  const LineA: string := "2024 ERROR: failed to connect to db\n"
  const LineB: string := "{\"status\":\"unrelated\"}\n"

  /** Two files in the working directory: `a.log` with a connection error
      and `b.json` with an unrelated line. */
  const ScenarioWalk: seq<WalkEntry> := [
    WalkEntry(".", [SourceFile("a.log", Read([LineA])), SourceFile("b.json", Read([LineB]))])
  ]

  lemma ConnectionTermsAreLower()
    ensures forall k :: 0 <= k < |Catalog.ConnectionErrors.terms| ==> IsLower(Catalog.ConnectionErrors.terms[k])
  {
  }

  lemma ConnectionMatcher(engine: RegexEngine)
    ensures Prepare(Catalog.ConnectionErrors, engine).matcher == Matcher(Literal, Catalog.ConnectionErrors.terms, [])
  {
    var t := Catalog.ConnectionErrors.terms;
    ConnectionTermsAreLower();
    LowerIsIdempotent(t[0]);
    LowerIsIdempotent(t[1]);
    LowerIsIdempotent(t[2]);
    var m := Prepare(Catalog.ConnectionErrors, engine).matcher;
    assert m.terms == t;
  }

  lemma LineASplit()
    ensures LineA == "2024 ERROR: " + ConnectTerm + " db\n"
  {
  }

  lemma ConnectTermIsLower()
    ensures Lower(ConnectTerm) == ConnectTerm
  {
    assert IsLower(ConnectTerm);
    LowerIsIdempotent(ConnectTerm);
  }

  lemma LineAHit()
    ensures Contains(ConnectTerm, Lower(LineA))
  {
    LineASplit();
    ConnectTermIsLower();
    LowerTermInLoweredLine(ConnectTerm, LineA, "2024 ERROR: ", " db\n");
  }

  lemma LineAReported(m: Matcher, engine: RegexEngine)
    requires m == Matcher(Literal, Catalog.ConnectionErrors.terms, [])
    ensures EvaluateLine(m, engine, LineA) == Some(ConnectTerm)
  {
    LineAHit();
    assert m.terms[0] == ConnectTerm;
    assert IsFirstHit(m, engine, LineA, 0);
    FirstTermReported(m, engine, LineA, 0);
  }

  lemma LineBIsLower()
    ensures Lower(LineB) == LineB
  {
    assert IsLower(LineB);
    LowerIsIdempotent(LineB);
  }

  lemma LineBMissesTerm0()
    ensures !Contains(Catalog.ConnectionErrors.terms[0], LineB)
  {
    assert 'f' in Catalog.ConnectionErrors.terms[0] && 'f' !in LineB;
    MissingCharNotContained(Catalog.ConnectionErrors.terms[0], LineB, 'f');
  }

  lemma LineBMissesTerm1()
    ensures !Contains(Catalog.ConnectionErrors.terms[1], LineB)
  {
    assert 'c' in Catalog.ConnectionErrors.terms[1] && 'c' !in LineB;
    MissingCharNotContained(Catalog.ConnectionErrors.terms[1], LineB, 'c');
  }

  lemma LineBMissesTerm2()
    ensures !Contains(Catalog.ConnectionErrors.terms[2], LineB)
  {
    assert 'o' in Catalog.ConnectionErrors.terms[2] && 'o' !in LineB;
    MissingCharNotContained(Catalog.ConnectionErrors.terms[2], LineB, 'o');
  }

  lemma LineBMissesConnectionTerms()
    ensures forall j :: 0 <= j < |Catalog.ConnectionErrors.terms| ==> !Contains(Catalog.ConnectionErrors.terms[j], LineB)
  {
    LineBMissesTerm0();
    LineBMissesTerm1();
    LineBMissesTerm2();
  }

  lemma LineBDropped(m: Matcher, engine: RegexEngine)
    requires m == Matcher(Literal, Catalog.ConnectionErrors.terms, [])
    ensures EvaluateLine(m, engine, LineB) == None
  {
    LineBIsLower();
    LineBMissesConnectionTerms();
    assert forall j :: 0 <= j < |m.terms| ==> !Hits(m, engine, m.terms[j], LineB);
  }

  /** Running "Connection Errors" over the two files writes exactly one
      record, for `a.log` under the term "failed to connect to", and
      reports one match, whatever the output file held before. */
  lemma ConnectionErrorsScenario(engine: RegexEngine, previous: Option<seq<string>>)
    ensures Run(Catalog.ConnectionErrors, engine, Environment(true, true, previous, ScenarioWalk))
         == RunResult(Completed, 1, Some([Record("a.log", ConnectTerm, LineA)]), [])
  {
    ConnectionMatcher(engine);
    ScenarioWalkTally(Matcher(Literal, Catalog.ConnectionErrors.terms, []), engine);
  }

  lemma ScenarioWalkTally(m: Matcher, engine: RegexEngine)
    requires m == Matcher(Literal, Catalog.ConnectionErrors.terms, [])
    ensures ScanWalk(m, engine, ScenarioWalk) == Tally(1, [Record("a.log", ConnectTerm, LineA)])
  {
    var rec := Record("a.log", ConnectTerm, LineA);
    var e := ScenarioWalk[0];
    ScenarioFiles(m, engine, e.files);
    CurrentDirNotExcluded();
    assert ScanEntry(m, engine, e) == Tally(1, [rec]);
    assert ScenarioWalk[..0] == [];
    CombineEmpty(Tally(1, [rec]));
  }

  lemma CurrentDirNotExcluded()
    ensures !DirExcluded(".")
  {
  }

  lemma ScenarioFiles(m: Matcher, engine: RegexEngine, files: seq<SourceFile>)
    requires m == Matcher(Literal, Catalog.ConnectionErrors.terms, [])
    requires files == [SourceFile("a.log", Read([LineA])), SourceFile("b.json", Read([LineB]))]
    ensures ScanFiles(m, engine, ".", files) == Tally(1, [Record("a.log", ConnectTerm, LineA)])
  {
    ScenarioFileA(m, engine, files[0]);
    ScenarioFileB(m, engine, files[1]);
    SecondFileAddsNothing(m, engine, ".", files, Tally(1, [Record("a.log", ConnectTerm, LineA)]));
  }

  /** Two files of which only the first contributes. */
  lemma SecondFileAddsNothing(m: Matcher, engine: RegexEngine, dirpath: string, files: seq<SourceFile>, t: Tally)
    requires |files| == 2
    requires ScanFile(m, engine, dirpath, files[0]) == t
    requires ScanFile(m, engine, dirpath, files[1]) == Empty
    ensures ScanFiles(m, engine, dirpath, files) == t
  {
    var one := files[..1];
    assert one[..0] == [] && one[0] == files[0];
    assert ScanFiles(m, engine, dirpath, one) == Combine(Empty, t);
    assert files[..|files| - 1] == one;
    assert ScanFiles(m, engine, dirpath, files) == Combine(Combine(Empty, t), Empty);
    CombineEmpty(t);
  }

  lemma ScenarioFileA(m: Matcher, engine: RegexEngine, fa: SourceFile)
    requires m == Matcher(Literal, Catalog.ConnectionErrors.terms, [])
    requires fa == SourceFile("a.log", Read([LineA]))
    ensures ScanFile(m, engine, ".", fa) == Tally(1, [Record("a.log", ConnectTerm, LineA)])
  {
    LineAReported(m, engine);
    LogNameScanned(fa.name);
    SingleLineFile(m, engine, ".", fa, LineA, ConnectTerm);
  }

  lemma LogNameScanned(name: string)
    requires name == "a.log"
    ensures HasScannedExtension(name) && JoinPath(".", name) == name
  {
    assert name[|name| - 4..] == ".log";
  }

  /** A scanned file of one line that yields a record contributes exactly
      that record. */
  lemma SingleLineFile(m: Matcher, engine: RegexEngine, dirpath: string, f: SourceFile, line: string, term: string)
    requires HasScannedExtension(f.name) && f.content == Read([line])
    requires EvaluateLine(m, engine, line) == Some(term)
    ensures ScanFile(m, engine, dirpath, f) == Tally(1, [Record(JoinPath(dirpath, f.name), term, line)])
  {
    var t := Tally(1, [Record(JoinPath(dirpath, f.name), term, line)]);
    assert [line][..0] == [] && [line][0] == line;
    assert LineTally(m, engine, JoinPath(dirpath, f.name), line) == t;
    CombineEmpty(t);
  }

  lemma ScenarioFileB(m: Matcher, engine: RegexEngine, fb: SourceFile)
    requires m == Matcher(Literal, Catalog.ConnectionErrors.terms, [])
    requires fb == SourceFile("b.json", Read([LineB]))
    ensures ScanFile(m, engine, ".", fb) == Empty
  {
    LineBDropped(m, engine);
    assert HasScannedExtension("b.json");
    assert [LineB][..0] == [];
  }
}
