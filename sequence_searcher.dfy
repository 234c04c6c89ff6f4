/**
 * search_sequence_across_genome: normalise a DNA fragment, warn about its
 * length, and list every (overlapping) exact occurrence of it in each
 * chromosome file of a directory, file by file.
 *
 * The directory listing and the loading of each .mat file are inputs: a
 * file either loaded into a chromosome record or failed to load.
 */
module SequenceSearcher {
  import opened Types
  import opened Text
  import opened Utils
  import opened Matching

  /** The default thresholds of the two length warnings. */
  const DefaultMinLength: int := 50
  const DefaultMaxLength: int := 5000

  /** A directory entry: a file that loaded into a chromosome record, or one that raised on loading. */
  datatype ChromosomeFile = Loaded(file: string, record: SequenceRecord) | Unreadable(file: string)

  /** One row of matched_results.csv. */
  datatype FragmentMatch = FragmentMatch(gene: string, chromosome: string, start: int, end: int,
                                         matchedSeq: string, sourceFile: string)

  /** The per-file progress line: the number of matches of a searched file, or that it was skipped. */
  datatype FileSummary = Searched(file: string, matchCount: nat) | Skipped(file: string)

  datatype SearchReport = SearchReport(query: string, tooShort: bool, tooLong: bool,
                                       summaries: seq<FileSummary>, results: seq<FragmentMatch>)

  // ---------------------------------------------------------------------
  // Specification
  // ---------------------------------------------------------------------

  /** The query stripped and upper-cased, then with every space and newline removed. */
  function NormalizeQuery(q: string): (r: string)
    ensures ' ' !in r && '\n' !in r
    ensures IsStripped(r) && HasNoLowercase(r)
  {
    var u := Upper(Strip(q));
    StripFacts(q);
    UpperKeepsStripped(Strip(q));
    UpperHasNoLowercase(Strip(q));
    var r := Remove(Remove(u, ' '), '\n');
    forall i | 0 <= i < |r| ensures !IsLower(r[i]) {
      assert r[i] in r;
    }
    r
  }

  /** The entries whose name ends with ".mat", in listing order. */
  function MatFiles(entries: seq<ChromosomeFile>): seq<ChromosomeFile>
  {
    if entries == [] then []
    else
      var e := entries[|entries| - 1];
      MatFiles(entries[..|entries| - 1]) + (if EndsWith(e.file, ".mat") then [e] else [])
  }

  /** The rows for the 0-based match positions ps of q in chromosome chrname from file. */
  function MatchesAt(file: string, chrname: string, q: string, ps: seq<nat>): seq<FragmentMatch>
  {
    if ps == [] then []
    else
      var p := ps[|ps| - 1];
      MatchesAt(file, chrname, q, ps[..|ps| - 1]) + [FragmentMatch("-", chrname, p + 1, p + |q|, q, file)]
  }

  /** The rows one file contributes: none when it could not be loaded. */
  function FileMatches(f: ChromosomeFile, q: string): seq<FragmentMatch>
  {
    match f
    case Unreadable(_) => []
    case Loaded(file, rec) => MatchesAt(file, rec.name, q, Occurrences(rec.sequence, q, 0))
  }

  /** The rows of all files, file after file in the order given. */
  function AllMatches(files: seq<ChromosomeFile>, q: string): seq<FragmentMatch>
  {
    if files == [] then []
    else AllMatches(files[..|files| - 1], q) + FileMatches(files[|files| - 1], q)
  }

  function Summary(f: ChromosomeFile, q: string): FileSummary
  {
    match f
    case Unreadable(file) => Skipped(file)
    case Loaded(file, rec) => Searched(file, |Occurrences(rec.sequence, q, 0)|)
  }

  function Summaries(files: seq<ChromosomeFile>, q: string): seq<FileSummary>
  {
    if files == [] then []
    else Summaries(files[..|files| - 1], q) + [Summary(files[|files| - 1], q)]
  }

  // ---------------------------------------------------------------------
  // The search
  // ---------------------------------------------------------------------

  /** The state of the scan of one file: one row and one count per position visited. */
  ghost predicate FileLoop(file: string, rec: SequenceRecord, q: string, before: seq<FragmentMatch>,
                           visited: seq<nat>, idx: int, results: seq<FragmentMatch>, matchCount: nat)
  {
    && ScanState(rec.sequence, q, visited, idx)
    && results == before + MatchesAt(file, rec.name, q, visited)
    && matchCount == |visited|
  }

  lemma FileLoopNext(file: string, rec: SequenceRecord, q: string, before: seq<FragmentMatch>,
                     visited: seq<nat>, idx: int, results: seq<FragmentMatch>, matchCount: nat)
    requires idx != -1 && FileLoop(file, rec, q, before, visited, idx, results, matchCount)
    ensures FileLoop(file, rec, q, before, visited + [idx], Find(rec.sequence, q, idx + 1),
                     results + [FragmentMatch("-", rec.name, idx + 1, idx + |q|, q, file)], matchCount + 1)
  {
    ScanNext(rec.sequence, q, visited, idx);
    MatchesAtSnoc(file, rec.name, q, visited, idx);
    Assoc(before, MatchesAt(file, rec.name, q, visited), [FragmentMatch("-", rec.name, idx + 1, idx + |q|, q, file)]);
  }

  lemma MatchesAtSnoc(file: string, chrname: string, q: string, ps: seq<nat>, p: nat)
    ensures MatchesAt(file, chrname, q, ps + [p]) ==
            MatchesAt(file, chrname, q, ps) + [FragmentMatch("-", chrname, p + 1, p + |q|, q, file)]
  {
    assert (ps + [p])[..|ps|] == ps;
  }

  /**
   * The `while idx != -1` loop over one loaded chromosome: each match found
   * by find / find(idx + 1) is appended to results and counted once.
   */
  method ScanFile(file: string, rec: SequenceRecord, q: string, before: seq<FragmentMatch>)
    returns (results: seq<FragmentMatch>, matchCount: nat)
    ensures results == before + MatchesAt(file, rec.name, q, Occurrences(rec.sequence, q, 0))
    ensures matchCount == |Occurrences(rec.sequence, q, 0)|
  {
    var chrname, chrseq := rec.name, rec.sequence;
    results, matchCount := before, 0;
    ghost var visited: seq<nat> := [];
    var idx := Find(chrseq, q, 0);
    ScanStart(chrseq, q);
    assert before + [] == before;
    while idx != -1
      invariant FileLoop(file, rec, q, before, visited, idx, results, matchCount)
      decreases if idx == -1 then 0 else |chrseq| + 1 - idx
    {
      FileLoopNext(file, rec, q, before, visited, idx, results, matchCount);
      results := results + [FragmentMatch("-", chrname, idx + 1, idx + |q|, q, file)];
      matchCount := matchCount + 1;
      visited := visited + [idx];
      idx := Find(chrseq, q, idx + 1);
    }
  }

  /** Searching one more file extends the rows and the summaries by that file's. */
  lemma PrefixStep(files: seq<ChromosomeFile>, i: nat, q: string)
    requires i < |files|
    ensures AllMatches(files[..i + 1], q) == AllMatches(files[..i], q) + FileMatches(files[i], q)
    ensures Summaries(files[..i + 1], q) == Summaries(files[..i], q) + [Summary(files[i], q)]
  {
    assert files[..i + 1][..i] == files[..i];
  }

  /**
   * search_sequence_across_genome with the directory listing given as
   * entries. The query is normalised, the two warnings are raised on its
   * length without stopping the search, the .mat files are searched in
   * listing order, and a file that fails to load is skipped.
   */
  method SearchSequenceAcrossGenome(entries: seq<ChromosomeFile>, querySeq: string,
                                    minLen: int := DefaultMinLength, maxLen: int := DefaultMaxLength)
    returns (report: SearchReport)
    ensures report.query == NormalizeQuery(querySeq)
    ensures report.tooShort <==> |report.query| < minLen
    ensures report.tooLong <==> |report.query| > maxLen
    ensures report.summaries == Summaries(MatFiles(entries), report.query)
    ensures report.results == AllMatches(MatFiles(entries), report.query)
  {
    var query := Upper(Strip(querySeq));
    query := Remove(Remove(query, ' '), '\n');
    var tooShort := |query| < minLen;
    var tooLong := |query| > maxLen;
    var matFiles := MatFiles(entries);
    var results: seq<FragmentMatch> := [];
    var summaries: seq<FileSummary> := [];
    for i := 0 to |matFiles|
      invariant results == AllMatches(matFiles[..i], query)
      invariant summaries == Summaries(matFiles[..i], query)
    {
      PrefixStep(matFiles, i, query);
      var entry := matFiles[i];
      if entry.Unreadable? {
        assert results + [] == results;
        summaries := summaries + [Skipped(entry.file)];
        continue;
      }
      var matchCount;
      results, matchCount := ScanFile(entry.file, entry.record, query, results);
      summaries := summaries + [Searched(entry.file, matchCount)];
    }
    assert matFiles[..|matFiles|] == matFiles;
    return SearchReport(query, tooShort, tooLong, summaries, results);
  }

  // ---------------------------------------------------------------------
  // Properties
  // ---------------------------------------------------------------------

  /** Normalising in this order gives the same string as clean_sequence. */
  lemma NormalizeIsClean(q: string)
    ensures NormalizeQuery(q) == CleanSequence(q)
  {
    var s := Strip(q);
    RemoveUpper(s, ' ');
    RemoveUpper(Remove(s, ' '), '\n');
  }

  /** Exactly the .mat entries are searched. */
  lemma {:induction false} MatFilesMeaning(entries: seq<ChromosomeFile>, e: ChromosomeFile)
    ensures e in MatFiles(entries) <==> e in entries && EndsWith(e.file, ".mat")
  {
    if entries != [] {
      var init := entries[..|entries| - 1];
      MatFilesMeaning(init, e);
      assert entries == init + [entries[|entries| - 1]];
    }
  }

  lemma {:induction false} MatchesAtLength(file: string, chrname: string, q: string, ps: seq<nat>)
    ensures |MatchesAt(file, chrname, q, ps)| == |ps|
  {
    if ps != [] {
      MatchesAtLength(file, chrname, q, ps[..|ps| - 1]);
    }
  }

  /** The j-th row is built from the j-th position. */
  lemma {:induction false} MatchesAtIndex(file: string, chrname: string, q: string, ps: seq<nat>, j: nat)
    requires j < |ps|
    ensures |MatchesAt(file, chrname, q, ps)| == |ps|
    ensures MatchesAt(file, chrname, q, ps)[j] == FragmentMatch("-", chrname, ps[j] + 1, ps[j] + |q|, q, file)
  {
    var init := ps[..|ps| - 1];
    MatchesAtLength(file, chrname, q, ps);
    MatchesAtLength(file, chrname, q, init);
    if j < |init| {
      MatchesAtIndex(file, chrname, q, init, j);
    }
  }

  /**
   * Every row of a file is a real occurrence of the query in that file's
   * chromosome: Gene is '-', Start is 1-based, End - Start + 1 is the
   * query's length, chrseq[Start-1 .. End] is the query, and MatchedSeq is
   * the query itself (never its reverse complement).
   */
  lemma FileMatchSound(f: ChromosomeFile, q: string, m: FragmentMatch)
    requires m in FileMatches(f, q)
    ensures f.Loaded? && m.sourceFile == f.file && m.chromosome == f.record.name
    ensures m.gene == "-" && m.matchedSeq == q
    ensures m.start >= 1 && m.end - m.start + 1 == |q|
    ensures m.end <= |f.record.sequence| && f.record.sequence[m.start - 1..m.end] == q
  {
    var h := f.record.sequence;
    var ps := Occurrences(h, q, 0);
    var ms := MatchesAt(f.file, f.record.name, q, ps);
    MatchesAtLength(f.file, f.record.name, q, ps);
    var j :| 0 <= j < |ms| && ms[j] == m;
    MatchesAtIndex(f.file, f.record.name, q, ps, j);
    OccurrencesSound(h, q, 0);
    var p := ps[j];
    assert OccursAt(h, q, p);
    assert m.start - 1 == p && m.end == p + |q|;
  }

  /** Each match of the query in a loaded file is reported, overlapping ones included. */
  lemma FileMatchComplete(f: ChromosomeFile, q: string, i: nat)
    requires f.Loaded? && OccursAt(f.record.sequence, q, i)
    ensures FragmentMatch("-", f.record.name, i + 1, i + |q|, q, f.file) in FileMatches(f, q)
  {
    var ps := Occurrences(f.record.sequence, q, 0);
    OccurrencesComplete(f.record.sequence, q, 0, i);
    var j :| 0 <= j < |ps| && ps[j] == i;
    MatchesAtIndex(f.file, f.record.name, q, ps, j);
  }

  /** Within one file the rows ascend strictly by Start. */
  lemma FileMatchesAscending(f: ChromosomeFile, q: string, j: nat, k: nat)
    requires j < k < |FileMatches(f, q)|
    ensures FileMatches(f, q)[j].start < FileMatches(f, q)[k].start
  {
    var ps := Occurrences(f.record.sequence, q, 0);
    MatchesAtLength(f.file, f.record.name, q, ps);
    MatchesAtIndex(f.file, f.record.name, q, ps, j);
    MatchesAtIndex(f.file, f.record.name, q, ps, k);
    OccurrencesFacts(f.record.sequence, q, 0);
  }

  /** match_count of a searched file is the number of rows appended for it. */
  lemma MatchCountIsRows(f: ChromosomeFile, q: string)
    ensures Summary(f, q).Searched? <==> f.Loaded?
    ensures f.Loaded? ==> Summary(f, q).matchCount == |FileMatches(f, q)|
  {
    if f.Loaded? {
      MatchesAtLength(f.file, f.record.name, q, Occurrences(f.record.sequence, q, 0));
    }
  }

  /** Files are processed in order: the rows of a + b are a's rows, then b's. */
  lemma {:induction false} AllMatchesAppend(a: seq<ChromosomeFile>, b: seq<ChromosomeFile>, q: string)
    ensures AllMatches(a + b, q) == AllMatches(a, q) + AllMatches(b, q)
    decreases |b|
  {
    if b == [] {
      assert a + b == a;
      assert AllMatches(a, q) + [] == AllMatches(a, q);
    } else {
      var b' := b[..|b| - 1];
      assert (a + b)[..|a + b| - 1] == a + b';
      assert (a + b)[|a + b| - 1] == b[|b| - 1];
      AllMatchesAppend(a, b', q);
      Assoc(AllMatches(a, q), AllMatches(b', q), FileMatches(b[|b| - 1], q));
    }
  }

  /** A file that fails to load contributes nothing; the files after it are still searched. */
  lemma SkipUnreadable(a: seq<ChromosomeFile>, file: string, b: seq<ChromosomeFile>, q: string)
    ensures AllMatches(a + [Unreadable(file)] + b, q) == AllMatches(a + b, q)
  {
    AllMatchesAppend(a + [Unreadable(file)], b, q);
    AllMatchesAppend(a, [Unreadable(file)], q);
    AllMatchesAppend(a, b, q);
    assert AllMatches([Unreadable(file)], q) == [] by {
      assert [Unreadable(file)][..0] == [];
    }
    assert AllMatches(a, q) + [] == AllMatches(a, q);
  }

  /** Every row of the report comes from a loaded file of the listing and is a real occurrence. */
  lemma {:induction false} AllMatchesSound(files: seq<ChromosomeFile>, q: string, m: FragmentMatch)
    requires m in AllMatches(files, q)
    ensures exists f :: f in files && m in FileMatches(f, q)
  {
    var init := files[..|files| - 1];
    var last := files[|files| - 1];
    if m in AllMatches(init, q) {
      AllMatchesSound(init, q, m);
      var f :| f in init && m in FileMatches(f, q);
      assert f in files;
    } else {
      assert m in FileMatches(last, q);
    }
  }

  /** Every row of every file of the listing is in the report. */
  lemma {:induction false} AllMatchesComplete(files: seq<ChromosomeFile>, q: string, f: ChromosomeFile, m: FragmentMatch)
    requires f in files && m in FileMatches(f, q)
    ensures m in AllMatches(files, q)
  {
    var init := files[..|files| - 1];
    if f != files[|files| - 1] {
      assert f in init;
      AllMatchesComplete(init, q, f, m);
    }
  }

  /** A concrete search: "ATA" occurs twice, overlapping, in "ATATA". */
  lemma OverlappingFragmentExample()
    ensures AllMatches([Loaded("chr1.mat", SequenceRecord("chr1", "ATATA"))], "ATA") ==
            [FragmentMatch("-", "chr1", 1, 3, "ATA", "chr1.mat"), FragmentMatch("-", "chr1", 3, 5, "ATA", "chr1.mat")]
  {
    SpacedOverlapExample();
    var f := Loaded("chr1.mat", SequenceRecord("chr1", "ATATA"));
    var fs := [f];
    var ps: seq<nat> := [0, 2];
    assert ps[..1] == [0];
    assert [0][..0] == [];
    assert MatchesAt("chr1.mat", "chr1", "ATA", [0]) == [FragmentMatch("-", "chr1", 1, 3, "ATA", "chr1.mat")];
    assert fs[..0] == [];
  }
}
