/** The scan of `run_analysis` (bundleparty.py, steps 1, 2 and 4): which
    files are read, how lines become records and the match counter, and
    how the run's fatal and recoverable failures shape its result. The
    file system is given as data: the sequence `os.walk` yields, each file
    with what reading it produced, and whether the two fallible file-system
    calls of the run succeed. */
module Scan {
  import opened Seqs
  import opened Text
  import opened Terms
  import opened Evaluate

  /** `OUTPUT_DIR_NAME`. */
  const OutputDirName: string := "analysis_results"

  /** What `for line in open(path, errors='ignore')` produced: every line
      (terminators kept), an `open` that failed, or a read that failed
      after yielding some lines. */
  datatype ReadOutcome = Read(lines: seq<string>) | OpenFailed | ReadFailed(before: seq<string>)

  datatype SourceFile = SourceFile(name: string, content: ReadOutcome)

  /** One `(dirpath, _, filenames)` triple of `os.walk('.')`. */
  datatype WalkEntry = WalkEntry(dirpath: string, files: seq<SourceFile>)

  /** `found_matches` together with the records written, in write order. */
  datatype Tally = Tally(count: nat, records: seq<string>)

  /** The file system as the run sees it. */
  datatype Environment = Environment(
    mkdirSucceeds: bool,          // `output_path.mkdir(exist_ok=True)`
    sinkOpens: bool,              // `open(output_file_path, "a")`
    previous: Option<seq<string>>, // records already in the output file, if it exists
    walk: seq<WalkEntry>)

  datatype Outcome = DirFailed | SinkFailed | Completed

  /** What a run leaves behind: how it ended, the final `found_matches`,
      the output file's records (`None` when the file does not exist), and
      the patterns reported as invalid. */
  datatype RunResult = RunResult(outcome: Outcome, found: nat, output: Option<seq<string>>, skipped: seq<string>)

  // ---------------------------------------------------------------------
  // Which files are read

  /** `OUTPUT_DIR_NAME in dirpath`: a substring test on the whole path. */
  predicate DirExcluded(dirpath: string) {
    Contains(OutputDirName, dirpath)
  }

  /** `filename.endswith((".log", ".json"))`. */
  predicate HasScannedExtension(name: string) {
    EndsWith(name, ".log") || EndsWith(name, ".json")
  }

  /** The file is opened by the scan. */
  predicate Eligible(dirpath: string, name: string) {
    !DirExcluded(dirpath) && HasScannedExtension(name)
  }

  /** `str(pathlib.Path(dirpath) / filename)` for the directory paths that
      `os.walk('.')` yields: `"."` itself and paths that start with `"./"`,
      whose leading `"."` component pathlib drops. */
  function JoinPath(dirpath: string, name: string): string {
    if dirpath == "." then name
    else if |dirpath| >= 2 && dirpath[..2] == "./" then dirpath[2..] + "/" + name
    else dirpath + "/" + name
  }

  /** The displayed path ends with the file name: it is the name itself, or
      some directory part, a `/`, and the name. */
  lemma JoinPathKeepsName(dirpath: string, name: string)
    ensures EndsWith(JoinPath(dirpath, name), name)
    ensures JoinPath(dirpath, name) == name || EndsWith(JoinPath(dirpath, name), "/" + name)
  {
    EndsWithIff(dirpath + "/" + name, "/" + name);
    EndsWithIff(dirpath + "/" + name, name);
    assert dirpath + "/" + name == (dirpath + "/") + name;
    assert dirpath + "/" + name == dirpath + ("/" + name);
    if |dirpath| >= 2 {
      var d := dirpath[2..];
      EndsWithIff(d + "/" + name, "/" + name);
      EndsWithIff(d + "/" + name, name);
      assert d + "/" + name == (d + "/") + name;
      assert d + "/" + name == d + ("/" + name);
    }
    assert name[|name| - |name|..] == name;
  }

  /** The lines the `for line in f` loop sees before it ends or fails. */
  function LinesSeen(c: ReadOutcome): seq<string> {
    match c
    case Read(lines) => lines
    case OpenFailed => []
    case ReadFailed(before) => before
  }

  // ---------------------------------------------------------------------
  // The scan as a fold, in the order the loops run

  function Combine(x: Tally, y: Tally): Tally {
    Tally(x.count + y.count, x.records + y.records)
  }

  const Empty: Tally := Tally(0, [])

  /** The effect of one line: nothing, or one more match and one record. */
  function LineTally(m: Matcher, engine: RegexEngine, path: string, line: string): (t: Tally)
    ensures t.count == |t.records| <= 1
    ensures t.count == 1 <==> EvaluateLine(m, engine, line).Some?
    ensures t.count == 1 ==> t.records == [Record(path, EvaluateLine(m, engine, line).value, line)]
  {
    match EvaluateLine(m, engine, line)
    case None => Empty
    case Some(term) => Tally(1, [Record(path, term, line)])
  }

  function ScanLines(m: Matcher, engine: RegexEngine, path: string, lines: seq<string>): (t: Tally)
    ensures t.count == |t.records| <= |lines|
  {
    if |lines| == 0 then Empty
    else Combine(ScanLines(m, engine, path, lines[..|lines| - 1]),
                 LineTally(m, engine, path, lines[|lines| - 1]))
  }

  function ScanFile(m: Matcher, engine: RegexEngine, dirpath: string, f: SourceFile): (t: Tally)
    ensures t.count == |t.records|
    ensures !HasScannedExtension(f.name) || f.content.OpenFailed? ==> t == Empty
  {
    if HasScannedExtension(f.name) then ScanLines(m, engine, JoinPath(dirpath, f.name), LinesSeen(f.content))
    else Empty
  }

  function ScanFiles(m: Matcher, engine: RegexEngine, dirpath: string, files: seq<SourceFile>): (t: Tally)
    ensures t.count == |t.records|
  {
    if |files| == 0 then Empty
    else Combine(ScanFiles(m, engine, dirpath, files[..|files| - 1]),
                 ScanFile(m, engine, dirpath, files[|files| - 1]))
  }

  function ScanEntry(m: Matcher, engine: RegexEngine, e: WalkEntry): (t: Tally)
    ensures t.count == |t.records|
    ensures DirExcluded(e.dirpath) ==> t == Empty
  {
    if DirExcluded(e.dirpath) then Empty else ScanFiles(m, engine, e.dirpath, e.files)
  }

  function ScanWalk(m: Matcher, engine: RegexEngine, walk: seq<WalkEntry>): (t: Tally)
    ensures t.count == |t.records|
  {
    if |walk| == 0 then Empty
    else Combine(ScanWalk(m, engine, walk[..|walk| - 1]), ScanEntry(m, engine, walk[|walk| - 1]))
  }

  /** One call of `run_analysis`. A failing `mkdir` returns before the old
      output file is removed; a failing `open` of the output file comes
      after the removal, so no output file is left; otherwise the output
      holds exactly this run's records. */
  function Run(a: Analysis, engine: RegexEngine, env: Environment): (r: RunResult)
    ensures r.outcome == DirFailed <==> !env.mkdirSucceeds
    ensures r.outcome == SinkFailed <==> env.mkdirSucceeds && !env.sinkOpens
    ensures r.outcome == Completed <==> env.mkdirSucceeds && env.sinkOpens
    ensures r.outcome == DirFailed ==> r.output == env.previous && r.found == 0 && r.skipped == []
    ensures r.outcome == SinkFailed ==> r.output == None && r.found == 0
    ensures r.outcome == Completed ==> r.output.Some? && r.found == |r.output.value|
  {
    if !env.mkdirSucceeds then RunResult(DirFailed, 0, env.previous, [])
    else
      var p := Prepare(a, engine);
      if !env.sinkOpens then RunResult(SinkFailed, 0, None, p.skipped)
      else
        var t := ScanWalk(p.matcher, engine, env.walk);
        RunResult(Completed, t.count, Some(t.records), p.skipped)
  }

  // ---------------------------------------------------------------------
  // The loops as written

  /** `run_analysis`'s nested loops with a counter and an append-only
      output, as the source writes them; the result agrees with `Run`. */
  method RunAnalysis(a: Analysis, engine: RegexEngine, env: Environment) returns (r: RunResult)
    ensures r == Run(a, engine, env)
  {
    if !env.mkdirSucceeds {
      return RunResult(DirFailed, 0, env.previous, []);
    }
    var p := Prepare(a, engine);
    if !env.sinkOpens {
      return RunResult(SinkFailed, 0, None, p.skipped);
    }
    var found := 0;
    var out: seq<string> := [];
    var d := 0;
    while d < |env.walk|
      invariant d <= |env.walk|
      invariant Tally(found, out) == ScanWalk(p.matcher, engine, env.walk[..d])
    {
      assert env.walk[..d + 1][..d] == env.walk[..d];
      if !DirExcluded(env.walk[d].dirpath) {
        found, out := ScanDirectory(p.matcher, engine, env.walk[d], found, out);
      }
      d := d + 1;
    }
    assert env.walk[..d] == env.walk;
    return RunResult(Completed, found, Some(out), p.skipped);
  }

  /** `for filename in filenames` for one directory, continuing from the
      counter and output so far. */
  method ScanDirectory(m: Matcher, engine: RegexEngine, entry: WalkEntry, found0: nat, out0: seq<string>)
    returns (found: nat, out: seq<string>)
    ensures Tally(found, out) == Combine(Tally(found0, out0), ScanFiles(m, engine, entry.dirpath, entry.files))
  {
    found, out := found0, out0;
    var f := 0;
    while f < |entry.files|
      invariant f <= |entry.files|
      invariant Tally(found, out) == Combine(Tally(found0, out0), ScanFiles(m, engine, entry.dirpath, entry.files[..f]))
    {
      var file := entry.files[f];
      ScanFilesSnoc(m, engine, entry.dirpath, entry.files, f);
      ghost var step := ScanFile(m, engine, entry.dirpath, file);
      if HasScannedExtension(file.name) {
        found, out := ScanOneFile(m, engine, JoinPath(entry.dirpath, file.name), LinesSeen(file.content), found, out);
      } else {
        CombineEmpty(Tally(found, out));
      }
      CombineAssoc(Tally(found0, out0), ScanFiles(m, engine, entry.dirpath, entry.files[..f]), step);
      f := f + 1;
    }
    assert entry.files[..f] == entry.files;
  }

  /** `for line in f` for one file: evaluate each line, and for a
      surviving one bump the counter and write its record. */
  method ScanOneFile(m: Matcher, engine: RegexEngine, path: string, lines: seq<string>, found0: nat, out0: seq<string>)
    returns (found: nat, out: seq<string>)
    ensures Tally(found, out) == Combine(Tally(found0, out0), ScanLines(m, engine, path, lines))
  {
    found, out := found0, out0;
    var i := 0;
    while i < |lines|
      invariant i <= |lines|
      invariant Tally(found, out) == Combine(Tally(found0, out0), ScanLines(m, engine, path, lines[..i]))
    {
      ScanLinesSnoc(m, engine, path, lines, i);
      ghost var step := LineTally(m, engine, path, lines[i]);
      var term := EvaluateLine(m, engine, lines[i]);
      if term.Some? {
        LineStepWrites(m, engine, path, lines[i], Tally(found, out));
        found := found + 1;
        out := out + [Record(path, term.value, lines[i])];
      } else {
        LineStepSkips(m, engine, path, lines[i], Tally(found, out));
      }
      CombineAssoc(Tally(found0, out0), ScanLines(m, engine, path, lines[..i]), step);
      i := i + 1;
    }
    assert lines[..i] == lines;
  }

  lemma CombineAssoc(x: Tally, y: Tally, z: Tally)
    ensures Combine(Combine(x, y), z) == Combine(x, Combine(y, z))
  {
    assert (x.records + y.records) + z.records == x.records + (y.records + z.records);
  }

  lemma LineStepWrites(m: Matcher, engine: RegexEngine, path: string, line: string, x: Tally)
    requires EvaluateLine(m, engine, line).Some?
    ensures Combine(x, LineTally(m, engine, path, line))
         == Tally(x.count + 1, x.records + [Record(path, EvaluateLine(m, engine, line).value, line)])
  {
  }

  lemma LineStepSkips(m: Matcher, engine: RegexEngine, path: string, line: string, x: Tally)
    requires EvaluateLine(m, engine, line).None?
    ensures Combine(x, LineTally(m, engine, path, line)) == x
  {
    assert x.records + [] == x.records;
  }

  lemma ScanLinesSnoc(m: Matcher, engine: RegexEngine, path: string, lines: seq<string>, i: nat)
    requires i < |lines|
    ensures ScanLines(m, engine, path, lines[..i + 1])
         == Combine(ScanLines(m, engine, path, lines[..i]), LineTally(m, engine, path, lines[i]))
  {
    assert lines[..i + 1][..i] == lines[..i];
  }

  lemma ScanFilesSnoc(m: Matcher, engine: RegexEngine, dirpath: string, files: seq<SourceFile>, f: nat)
    requires f < |files|
    ensures ScanFiles(m, engine, dirpath, files[..f + 1])
         == Combine(ScanFiles(m, engine, dirpath, files[..f]), ScanFile(m, engine, dirpath, files[f]))
  {
    assert files[..f + 1][..f] == files[..f];
  }

  // ---------------------------------------------------------------------
  // Properties of the scan

  /** The line fold streams: scanning `a + b` is scanning `a`, then `b`. */
  lemma {:induction false} ScanLinesAppend(m: Matcher, engine: RegexEngine, path: string, a: seq<string>, b: seq<string>)
    ensures ScanLines(m, engine, path, a + b) == Combine(ScanLines(m, engine, path, a), ScanLines(m, engine, path, b))
    decreases |b|
  {
    if |b| == 0 {
      assert a + b == a;
    } else {
      var b' := b[..|b| - 1];
      assert (a + b)[..|a + b| - 1] == a + b';
      assert (a + b)[|a + b| - 1] == b[|b| - 1];
      ScanLinesAppend(m, engine, path, a, b');
    }
  }

  /** At most one record per line: line `i` of a file contributes, between
      the records of the lines before it and those after it, nothing or
      exactly the record `[path] [Matched: 'term'] line` with the term
      `EvaluateLine` reports. */
  lemma LineContributesInPlace(m: Matcher, engine: RegexEngine, path: string, lines: seq<string>, i: nat)
    requires i < |lines|
    ensures ScanLines(m, engine, path, lines) ==
      Combine(Combine(ScanLines(m, engine, path, lines[..i]), LineTally(m, engine, path, lines[i])),
              ScanLines(m, engine, path, lines[i + 1..]))
  {
    var upto := lines[..i + 1];
    assert lines == upto + lines[i + 1..];
    ScanLinesAppend(m, engine, path, upto, lines[i + 1..]);
    assert upto[..i] == lines[..i];
  }

  /** A line yields a record. */
  function Yields(m: Matcher, engine: RegexEngine): string -> bool {
    (l: string) => EvaluateLine(m, engine, l).Some?
  }

  /** The match count of a file is the number of its lines that yield a
      record. */
  lemma {:induction false} ScanLinesCount(m: Matcher, engine: RegexEngine, path: string, lines: seq<string>)
    ensures ScanLines(m, engine, path, lines).count == |Filter(Yields(m, engine), lines)|
  {
    if |lines| > 0 {
      var front := lines[..|lines| - 1];
      var last := lines[|lines| - 1];
      ScanLinesCount(m, engine, path, front);
      assert lines == front + [last];
      FilterAppend(Yields(m, engine), front, [last]);
      assert [last][1..] == [];
    }
  }

  /** A file read fails part-way: the records of the lines read before the
      failure stay in the output, and nothing follows them from that file. */
  lemma ReadFailureKeepsEarlierRecords(m: Matcher, engine: RegexEngine, dirpath: string, name: string, before: seq<string>, after: seq<string>)
    requires HasScannedExtension(name)
    ensures ScanFile(m, engine, dirpath, SourceFile(name, ReadFailed(before)))
         == ScanFile(m, engine, dirpath, SourceFile(name, Read(before)))
    ensures Combine(ScanFile(m, engine, dirpath, SourceFile(name, ReadFailed(before))),
                    ScanLines(m, engine, JoinPath(dirpath, name), after))
         == ScanFile(m, engine, dirpath, SourceFile(name, Read(before + after)))
  {
    ScanLinesAppend(m, engine, JoinPath(dirpath, name), before, after);
  }

  lemma {:induction false} ScanFilesAppend(m: Matcher, engine: RegexEngine, dirpath: string, a: seq<SourceFile>, b: seq<SourceFile>)
    ensures ScanFiles(m, engine, dirpath, a + b) == Combine(ScanFiles(m, engine, dirpath, a), ScanFiles(m, engine, dirpath, b))
    decreases |b|
  {
    if |b| == 0 {
      assert a + b == a;
    } else {
      var b', t := b[..|b| - 1], ScanFile(m, engine, dirpath, b[|b| - 1]);
      assert (a + b)[..|a + b| - 1] == a + b';
      assert (a + b)[|a + b| - 1] == b[|b| - 1];
      assert ScanFiles(m, engine, dirpath, a + b) == Combine(ScanFiles(m, engine, dirpath, a + b'), t);
      ScanFilesAppend(m, engine, dirpath, a, b');
      CombineAssoc(ScanFiles(m, engine, dirpath, a), ScanFiles(m, engine, dirpath, b'), t);
    }
  }

  lemma {:induction false} ScanWalkAppend(m: Matcher, engine: RegexEngine, a: seq<WalkEntry>, b: seq<WalkEntry>)
    ensures ScanWalk(m, engine, a + b) == Combine(ScanWalk(m, engine, a), ScanWalk(m, engine, b))
    decreases |b|
  {
    if |b| == 0 {
      assert a + b == a;
    } else {
      var b', t := b[..|b| - 1], ScanEntry(m, engine, b[|b| - 1]);
      assert (a + b)[..|a + b| - 1] == a + b';
      assert (a + b)[|a + b| - 1] == b[|b| - 1];
      assert ScanWalk(m, engine, a + b) == Combine(ScanWalk(m, engine, a + b'), t);
      ScanWalkAppend(m, engine, a, b');
      CombineAssoc(ScanWalk(m, engine, a), ScanWalk(m, engine, b'), t);
    }
  }

  lemma CombineEmpty(t: Tally)
    ensures Combine(t, Empty) == t && Combine(Empty, t) == t
  {
    assert t.records + [] == t.records;
    assert [] + t.records == t.records;
  }

  /** File eligibility, extension half: a file whose name ends in neither
      `.log` nor `.json` is never read, so adding one anywhere in a
      directory changes nothing, whatever its contents. */
  lemma UnscannedExtensionIgnored(m: Matcher, engine: RegexEngine, dirpath: string, front: seq<SourceFile>, f: SourceFile, back: seq<SourceFile>)
    requires !HasScannedExtension(f.name)
    ensures ScanFiles(m, engine, dirpath, front + [f] + back) == ScanFiles(m, engine, dirpath, front + back)
  {
    var x := front + [f];
    ScanFilesAppend(m, engine, dirpath, x, back);
    assert x[..|x| - 1] == front && x[|x| - 1] == f;
    CombineEmpty(ScanFiles(m, engine, dirpath, front));
    assert ScanFiles(m, engine, dirpath, x) == ScanFiles(m, engine, dirpath, front);
    ScanFilesAppend(m, engine, dirpath, front, back);
  }

  /** File eligibility, directory half: no file under a directory path that
      contains `analysis_results` is read, so adding such an entry anywhere
      in the walk changes nothing. */
  lemma ExcludedDirectoryIgnored(m: Matcher, engine: RegexEngine, front: seq<WalkEntry>, e: WalkEntry, back: seq<WalkEntry>)
    requires DirExcluded(e.dirpath)
    ensures ScanWalk(m, engine, front + [e] + back) == ScanWalk(m, engine, front + back)
  {
    var x := front + [e];
    ScanWalkAppend(m, engine, x, back);
    assert x[..|x| - 1] == front && x[|x| - 1] == e;
    CombineEmpty(ScanWalk(m, engine, front));
    assert ScanWalk(m, engine, x) == ScanWalk(m, engine, front);
    ScanWalkAppend(m, engine, front, back);
  }

  /** A file contributes records only when it is eligible: its directory
      path avoids `analysis_results` and its name ends in `.log` or `.json`;
      then it contributes the scan of the lines read from it. */
  lemma EligibleFileScanned(m: Matcher, engine: RegexEngine, dirpath: string, f: SourceFile)
    ensures ScanEntry(m, engine, WalkEntry(dirpath, [f]))
         == if Eligible(dirpath, f.name)
            then ScanLines(m, engine, JoinPath(dirpath, f.name), LinesSeen(f.content))
            else Empty
  {
    var t := ScanFile(m, engine, dirpath, f);
    assert [f][..0] == [] && [f][0] == f;
    assert ScanFiles(m, engine, dirpath, [f]) == Combine(Empty, t);
    CombineEmpty(t);
  }

  /** Clearing old results: once the output directory exists, what a run
      leaves in the output file does not depend on what was there before,
      so running twice keeps only the second run's records. */
  lemma OutputReplacedNotAppended(a: Analysis, engine: RegexEngine, env: Environment, earlier: Option<seq<string>>)
    requires env.mkdirSucceeds
    ensures Run(a, engine, env.(previous := earlier)) == Run(a, engine, env)
  {
  }

  // ---------------------------------------------------------------------
  // The count of a whole run

  /** The lines the scan reads from one file: those seen in it when its
      name ends in `.log` or `.json`, none otherwise. */
  function FileLines(f: SourceFile): seq<string> {
    if HasScannedExtension(f.name) then LinesSeen(f.content) else []
  }

  /** The lines read from a directory's files, in order. */
  function FilesLines(files: seq<SourceFile>): seq<string> {
    if |files| == 0 then []
    else FilesLines(files[..|files| - 1]) + FileLines(files[|files| - 1])
  }

  /** Every line the run reads, in walk order; excluded directories add none. */
  function WalkLines(walk: seq<WalkEntry>): seq<string> {
    if |walk| == 0 then []
    else
      var e := walk[|walk| - 1];
      WalkLines(walk[..|walk| - 1]) + (if DirExcluded(e.dirpath) then [] else FilesLines(e.files))
  }

  lemma {:induction false} ScanFilesCount(m: Matcher, engine: RegexEngine, dirpath: string, files: seq<SourceFile>)
    ensures ScanFiles(m, engine, dirpath, files).count == |Filter(Yields(m, engine), FilesLines(files))|
  {
    if |files| > 0 {
      var front := files[..|files| - 1];
      var f := files[|files| - 1];
      ScanFilesCount(m, engine, dirpath, front);
      FilterAppend(Yields(m, engine), FilesLines(front), FileLines(f));
      if HasScannedExtension(f.name) {
        ScanLinesCount(m, engine, JoinPath(dirpath, f.name), LinesSeen(f.content));
      }
    }
  }

  lemma {:induction false} ScanWalkCount(m: Matcher, engine: RegexEngine, walk: seq<WalkEntry>)
    ensures ScanWalk(m, engine, walk).count == |Filter(Yields(m, engine), WalkLines(walk))|
  {
    if |walk| > 0 {
      var front := walk[..|walk| - 1];
      var e := walk[|walk| - 1];
      ScanWalkCount(m, engine, front);
      if DirExcluded(e.dirpath) {
        assert WalkLines(walk) == WalkLines(front) + [];
        assert WalkLines(front) + [] == WalkLines(front);
      } else {
        ScanFilesCount(m, engine, e.dirpath, e.files);
        FilterAppend(Yields(m, engine), WalkLines(front), FilesLines(e.files));
      }
    }
  }

  /** The count a completed run reports is the number of lines it read,
      over every eligible file of the walk, that yield a record. */
  lemma RunCountsMatchingLines(a: Analysis, engine: RegexEngine, env: Environment)
    requires env.mkdirSucceeds && env.sinkOpens
    ensures Run(a, engine, env).found == |Filter(Yields(Prepare(a, engine).matcher, engine), WalkLines(env.walk))|
  {
    ScanWalkCount(Prepare(a, engine).matcher, engine, env.walk);
  }
}
