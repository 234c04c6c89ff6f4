/**
 * split_fasta_to_mat: cut a FASTA text into one record per header, each
 * saved under its chromosome name.
 *
 * The lines of the input file are a parameter, and the output directory is
 * a map from chromosome name to saved sequence (one .mat file per name).
 */
module FastaSplitter {
  import opened Types
  import opened Text

  /** A stripped line that starts with '>' is a header. */
  predicate IsHeader(line: string)
  {
    |line| > 0 && line[0] == '>'
  }

  /** IsHeader agrees with the prefix test StartsWith(line, ">"). */
  lemma IsHeaderStartsWith(line: string)
    ensures IsHeader(line) <==> StartsWith(line, ">")
  {
    if |line| > 0 {
      assert line[..1] == [line[0]];
    }
  }

  /** The chromosome name: a header without its '>' and stripped. */
  function HeaderName(line: string): string
    requires IsHeader(line)
  {
    Strip(line[1..])
  }

  /** Each line stripped, in order: what the loop tests and accumulates. */
  function StripAll(lines: seq<string>): (r: seq<string>)
    ensures |r| == |lines|
  {
    seq(|lines|, i requires 0 <= i < |lines| => Strip(lines[i]))
  }

  /** A header's name with the lines that follow it. */
  datatype Block = Block(name: string, body: seq<string>)

  // ---------------------------------------------------------------------
  // Reference grouping of the stripped lines
  // ---------------------------------------------------------------------

  /** The lines before the first header. */
  function Body(lines: seq<string>): seq<string>
  {
    if lines == [] || IsHeader(lines[0]) then [] else [lines[0]] + Body(lines[1..])
  }

  /** What follows Body(lines): empty, or starting with a header. */
  function Rest(lines: seq<string>): (r: seq<string>)
    ensures |r| <= |lines|
    ensures r == [] || IsHeader(r[0])
  {
    if lines == [] || IsHeader(lines[0]) then lines else Rest(lines[1..])
  }

  /**
   * The lines grouped by header: a first block named `name` holding the
   * lines before the first header, then one block per header with the
   * lines up to the next header.
   */
  function Blocks(name: string, lines: seq<string>): (bs: seq<Block>)
    ensures bs != [] && bs[0] == Block(name, Body(lines))
    decreases |lines|
  {
    var r := Rest(lines);
    [Block(name, Body(lines))] + (if r == [] then [] else Blocks(HeaderName(r[0]), r[1..]))
  }

  /** The record a block is saved as: its lines joined and uppercased. */
  function RecordOf(b: Block): SequenceRecord
  {
    SequenceRecord(b.name, Upper(Concat(b.body)))
  }

  /** The records saved for the blocks: one for each block with at least one line. */
  function Emit(bs: seq<Block>): seq<SequenceRecord>
  {
    if bs == [] then []
    else
      var b := bs[|bs| - 1];
      Emit(bs[..|bs| - 1]) + (if b.body != [] then [RecordOf(b)] else [])
  }

  /** The records saved for stripped lines, in order. */
  function Split(lines: seq<string>): seq<SequenceRecord>
  {
    Emit(Blocks("", lines))
  }

  /** The records the splitter saves for the lines of a file, in order. */
  function Records(raw: seq<string>): seq<SequenceRecord>
  {
    Split(StripAll(raw))
  }

  /** The output directory: savemat to "<name>.mat" overwrites, so the last record of each name wins. */
  function LastWins(records: seq<SequenceRecord>): map<string, string>
  {
    if records == [] then map[]
    else
      var r := records[|records| - 1];
      LastWins(records[..|records| - 1])[r.name := r.sequence]
  }

  // ---------------------------------------------------------------------
  // The grouping extended by one line
  // ---------------------------------------------------------------------

  lemma {:induction false} BodyRestSnoc(lines: seq<string>, l: string)
    ensures Rest(lines) == [] && IsHeader(l) ==>
              Body(lines + [l]) == Body(lines) && Rest(lines + [l]) == [l]
    ensures Rest(lines) == [] && !IsHeader(l) ==>
              Body(lines + [l]) == Body(lines) + [l] && Rest(lines + [l]) == []
    ensures Rest(lines) != [] ==>
              Body(lines + [l]) == Body(lines) && Rest(lines + [l]) == Rest(lines) + [l]
  {
    if lines == [] {
      assert [] + [l] == [l];
    } else if IsHeader(lines[0]) {
      assert (lines + [l])[0] == lines[0];
    } else {
      assert (lines + [l])[0] == lines[0];
      assert (lines + [l])[1..] == lines[1..] + [l];
      BodyRestSnoc(lines[1..], l);
    }
  }

  /** One more line that is a header opens a new, empty block. */
  lemma {:induction false} BlocksSnocHeader(name: string, lines: seq<string>, l: string)
    requires IsHeader(l)
    ensures Blocks(name, lines + [l]) == Blocks(name, lines) + [Block(HeaderName(l), [])]
    decreases |lines|
  {
    var r := Rest(lines);
    BodyRestSnoc(lines, l);
    var first := Block(name, Body(lines));
    if r == [] {
      assert Blocks(name, lines) == [first];
      assert Blocks(HeaderName(l), []) == [Block(HeaderName(l), [])];
      assert Blocks(name, lines + [l]) == [first] + Blocks(HeaderName(l), []);
    } else {
      var tail := Blocks(HeaderName(r[0]), r[1..]);
      assert Blocks(name, lines) == [first] + tail;
      assert (r + [l])[0] == r[0];
      assert (r + [l])[1..] == r[1..] + [l];
      assert Blocks(name, lines + [l]) == [first] + Blocks(HeaderName(r[0]), r[1..] + [l]);
      BlocksSnocHeader(HeaderName(r[0]), r[1..], l);
      Assoc([first], tail, [Block(HeaderName(l), [])]);
    }
  }

  /** One more line that is not a header joins the last block. */
  lemma {:induction false} BlocksSnocLine(name: string, lines: seq<string>, l: string)
    requires !IsHeader(l)
    ensures var bs := Blocks(name, lines);
            Blocks(name, lines + [l]) == bs[..|bs| - 1] + [Block(bs[|bs| - 1].name, bs[|bs| - 1].body + [l])]
    decreases |lines|
  {
    var r := Rest(lines);
    BodyRestSnoc(lines, l);
    var first := Block(name, Body(lines));
    if r == [] {
      assert Blocks(name, lines) == [first];
      assert Blocks(name, lines + [l]) == [Block(name, Body(lines) + [l])];
    } else {
      var tail := Blocks(HeaderName(r[0]), r[1..]);
      assert Blocks(name, lines) == [first] + tail;
      assert (r + [l])[0] == r[0];
      assert (r + [l])[1..] == r[1..] + [l];
      assert Blocks(name, lines + [l]) == [first] + Blocks(HeaderName(r[0]), r[1..] + [l]);
      BlocksSnocLine(HeaderName(r[0]), r[1..], l);
      var last := tail[|tail| - 1];
      var ext := [Block(last.name, last.body + [l])];
      assert ([first] + tail)[|tail|] == last;
      assert ([first] + tail)[..|tail|] == [first] + tail[..|tail| - 1];
      Assoc([first], tail[..|tail| - 1], ext);
    }
  }

  // ---------------------------------------------------------------------
  // The splitter
  // ---------------------------------------------------------------------

  /**
   * After the first i lines: the blocks closed so far are `done`, the open
   * block is chrname with seqLines, and every closed block with lines has
   * been saved.
   */
  ghost predicate SplitLoop(lines: seq<string>, i: nat, done: seq<Block>, chrname: string, seqLines: seq<string>,
                            records: seq<SequenceRecord>, saved: map<string, string>)
  {
    && i <= |lines|
    && Blocks("", StripAll(lines)[..i]) == done + [Block(chrname, seqLines)]
    && records == Emit(done)
    && saved == LastWins(records)
  }

  /** A header closes the open block (saving it when it has lines) and opens a new one. */
  lemma SplitHeaderStep(lines: seq<string>, i: nat, done: seq<Block>, chrname: string, seqLines: seq<string>,
                        records: seq<SequenceRecord>, saved: map<string, string>)
    requires i < |lines| && IsHeader(Strip(lines[i]))
    requires SplitLoop(lines, i, done, chrname, seqLines, records, saved)
    ensures var rs := records + (if seqLines != [] then [RecordOf(Block(chrname, seqLines))] else []);
            SplitLoop(lines, i + 1, done + [Block(chrname, seqLines)], HeaderName(Strip(lines[i])), [], rs, LastWins(rs))
  {
    var ls := StripAll(lines);
    assert ls[..i + 1] == ls[..i] + [Strip(lines[i])];
    BlocksSnocHeader("", ls[..i], Strip(lines[i]));
    var done' := done + [Block(chrname, seqLines)];
    assert done'[..|done|] == done;
  }

  /** Any other line joins the open block. */
  lemma SplitLineStep(lines: seq<string>, i: nat, done: seq<Block>, chrname: string, seqLines: seq<string>,
                      records: seq<SequenceRecord>, saved: map<string, string>)
    requires i < |lines| && !IsHeader(Strip(lines[i]))
    requires SplitLoop(lines, i, done, chrname, seqLines, records, saved)
    ensures SplitLoop(lines, i + 1, done, chrname, seqLines + [Strip(lines[i])], records, saved)
  {
    var ls := StripAll(lines);
    assert ls[..i + 1] == ls[..i] + [Strip(lines[i])];
    BlocksSnocLine("", ls[..i], Strip(lines[i]));
    var bs := done + [Block(chrname, seqLines)];
    assert bs[..|bs| - 1] == done;
  }

  /**
   * split_fasta_to_mat over the lines of the input file: returns the saves
   * in the order they happen and the resulting directory contents.
   */
  method SplitFastaToMat(lines: seq<string>) returns (records: seq<SequenceRecord>, saved: map<string, string>)
    ensures records == Records(lines)
    ensures saved == LastWins(records)
  {
    var chrname := "";
    var seqLines: seq<string> := [];
    records, saved := [], map[];
    ghost var done: seq<Block> := [];
    assert StripAll(lines)[..0] == [];
    for i := 0 to |lines|
      invariant SplitLoop(lines, i, done, chrname, seqLines, records, saved)
    {
      var line := Strip(lines[i]);
      if IsHeader(line) {
        SplitHeaderStep(lines, i, done, chrname, seqLines, records, saved);
        if seqLines != [] {
          var sequence := Upper(Concat(seqLines));
          records := records + [SequenceRecord(chrname, sequence)];
          saved := saved[chrname := sequence];
        }
        done := done + [Block(chrname, seqLines)];
        chrname := Strip(line[1..]);
        seqLines := [];
      } else {
        SplitLineStep(lines, i, done, chrname, seqLines, records, saved);
        seqLines := seqLines + [line];
      }
    }
    assert StripAll(lines)[..|lines|] == StripAll(lines);
    ghost var all := done + [Block(chrname, seqLines)];
    assert all[..|done|] == done;
    if seqLines != [] {
      var sequence := Upper(Concat(seqLines));
      records := records + [SequenceRecord(chrname, sequence)];
      saved := saved[chrname := sequence];
    }
  }

  // ---------------------------------------------------------------------
  // Properties
  // ---------------------------------------------------------------------

  lemma {:induction false} EmitAppend(a: seq<Block>, b: seq<Block>)
    ensures Emit(a + b) == Emit(a) + Emit(b)
    decreases |b|
  {
    if b == [] {
      assert a + b == a;
      assert Emit(a) + [] == Emit(a);
    } else {
      var b' := b[..|b| - 1];
      assert (a + b)[..|a + b| - 1] == a + b';
      assert (a + b)[|a + b| - 1] == b[|b| - 1];
      EmitAppend(a, b');
      var e := if b[|b| - 1].body != [] then [RecordOf(b[|b| - 1])] else [];
      Assoc(Emit(a), Emit(b'), e);
    }
  }

  /** A record is saved exactly for each block with at least one line, whatever those lines hold. */
  lemma {:induction false} EmitMeaning(bs: seq<Block>, r: SequenceRecord)
    ensures r in Emit(bs) <==> exists b :: b in bs && b.body != [] && r == RecordOf(b)
  {
    if bs != [] {
      var init := bs[..|bs| - 1];
      EmitMeaning(init, r);
      assert bs == init + [bs[|bs| - 1]];
    }
  }

  /** Non-header lines followed by the end or by a header make one block body. */
  lemma {:induction false} BodyOfSegment(b: seq<string>, rest: seq<string>)
    requires forall j :: 0 <= j < |b| ==> !IsHeader(b[j])
    requires rest == [] || IsHeader(rest[0])
    ensures Body(b + rest) == b && Rest(b + rest) == rest
  {
    if b != [] {
      assert (b + rest)[0] == b[0];
      assert (b + rest)[1..] == b[1..] + rest;
      BodyOfSegment(b[1..], rest);
      assert [b[0]] + b[1..] == b;
    } else {
      assert b + rest == rest;
    }
  }

  lemma SplitEmpty()
    ensures Split([]) == []
  {
    assert Blocks("", []) == [Block("", [])];
    assert [Block("", [])][..0] == [];
  }

  /** The records of lines that start with a header are those of the blocks after it. */
  lemma SplitAfterHeader(h: string, t: seq<string>)
    requires IsHeader(h)
    ensures Split([h] + t) == Emit(Blocks(HeaderName(h), t))
  {
    assert ([h] + t)[0] == h && ([h] + t)[1..] == t;
    assert Blocks("", [h] + t) == [Block("", [])] + Blocks(HeaderName(h), t);
    EmitAppend([Block("", [])], Blocks(HeaderName(h), t));
    assert Emit([Block("", [])]) == [] by {
      assert [Block("", [])][..0] == [];
    }
  }

  /** The first block, saved when it has a line, followed by the records of the rest. */
  lemma LeadingBlock(name: string, b: seq<string>, rest: seq<string>)
    requires forall j :: 0 <= j < |b| ==> !IsHeader(b[j])
    requires rest == [] || IsHeader(rest[0])
    ensures Emit(Blocks(name, b + rest)) ==
            (if b == [] then [] else [RecordOf(Block(name, b))]) + Split(rest)
  {
    BodyOfSegment(b, rest);
    var first := Block(name, b);
    var tail := if rest == [] then [] else Blocks(HeaderName(rest[0]), rest[1..]);
    assert Blocks(name, b + rest) == [first] + tail;
    EmitAppend([first], tail);
    assert [first][..0] == [];
    if rest == [] {
      SplitEmpty();
    } else {
      assert [rest[0]] + rest[1..] == rest;
      SplitAfterHeader(rest[0], rest[1..]);
    }
  }

  /**
   * A header, its lines and then the end or the next header: the record
   * saved is the header's name with its lines joined and uppercased,
   * provided there is at least one line (a blank one counts); the rest of
   * the input is split independently. With rest empty this is the flush
   * of the last record at end of input.
   */
  lemma HeaderRecord(h: string, b: seq<string>, rest: seq<string>)
    requires IsHeader(h)
    requires forall j :: 0 <= j < |b| ==> !IsHeader(b[j])
    requires rest == [] || IsHeader(rest[0])
    ensures Split([h] + b + rest) ==
            (if b == [] then [] else [SequenceRecord(HeaderName(h), Upper(Concat(b)))]) + Split(rest)
  {
    Assoc([h], b, rest);
    SplitAfterHeader(h, b + rest);
    LeadingBlock(HeaderName(h), b, rest);
  }

  /** Lines before the first header form a record named "". */
  lemma LeadingLines(b: seq<string>, rest: seq<string>)
    requires b != [] && forall j :: 0 <= j < |b| ==> !IsHeader(b[j])
    requires rest == [] || IsHeader(rest[0])
    ensures Split(b + rest) == [SequenceRecord("", Upper(Concat(b)))] + Split(rest)
  {
    LeadingBlock("", b, rest);
  }

  /** A header directly followed by another header saves nothing. */
  lemma AdjacentHeaders(h1: string, h2: string, t: seq<string>)
    requires IsHeader(h1) && IsHeader(h2)
    ensures Split([h1, h2] + t) == Split([h2] + t)
  {
    assert [h1, h2] + t == [h1] + [] + ([h2] + t);
    HeaderRecord(h1, [], [h2] + t);
  }

  /** A name's file holds the sequence of the last record of that name. */
  lemma {:induction false} LastWinsMeaning(records: seq<SequenceRecord>, i: nat)
    requires i < |records|
    requires forall j :: i < j < |records| ==> records[j].name != records[i].name
    ensures records[i].name in LastWins(records)
    ensures LastWins(records)[records[i].name] == records[i].sequence
  {
    var init := records[..|records| - 1];
    if i < |init| {
      LastWinsMeaning(init, i);
    }
  }

  /** The directory holds exactly the saved names. */
  lemma {:induction false} LastWinsKeys(records: seq<SequenceRecord>, n: string)
    ensures n in LastWins(records) <==> exists j :: 0 <= j < |records| && records[j].name == n
  {
    if records != [] {
      var init := records[..|records| - 1];
      LastWinsKeys(init, n);
      if exists j :: 0 <= j < |init| && init[j].name == n {
        var j :| 0 <= j < |init| && init[j].name == n;
        assert records[j].name == n;
      }
      if exists j :: 0 <= j < |records| && records[j].name == n {
        var j :| 0 <= j < |records| && records[j].name == n;
        if j < |init| {
          assert init[j].name == n;
        }
      }
    }
  }

  /** A concrete split: a header with two lines, stripped and uppercased, then a header with one blank line. */
  lemma SplitExample()
    ensures Records([">chr1 ", "acg\n", "TT", "> chr2", "  "]) ==
            [SequenceRecord("chr1", "ACGTT"), SequenceRecord("chr2", "")]
  {
    StripAllExample();
    SplitStrippedExample();
  }

  lemma StripAllExample()
    ensures StripAll([">chr1 ", "acg\n", "TT", "> chr2", "  "]) == [">chr1", "acg", "TT", "> chr2", ""]
  {
    StripExamples();
  }

  lemma SplitStrippedExample()
    ensures Split([">chr1", "acg", "TT", "> chr2", ""]) ==
            [SequenceRecord("chr1", "ACGTT"), SequenceRecord("chr2", "")]
  {
    var ls := [">chr1", "acg", "TT", "> chr2", ""];
    assert ls == [">chr1"] + ["acg", "TT"] + ["> chr2", ""];
    HeaderRecord(">chr1", ["acg", "TT"], ["> chr2", ""]);
    NameExamples();
    JoinExample();
    BlankLineExample();
  }

  /** A header followed by one blank line saves an empty sequence. */
  lemma BlankLineExample()
    ensures Split(["> chr2", ""]) == [SequenceRecord("chr2", "")]
  {
    assert ["> chr2", ""] == ["> chr2"] + [""] + [];
    HeaderRecord("> chr2", [""], []);
    SplitEmpty();
    NameExamples();
    assert Concat([""]) == "" by {
      assert [""][..0] == [];
    }
  }

  lemma JoinExample()
    ensures Upper(Concat(["acg", "TT"])) == "ACGTT"
  {
    assert ["acg", "TT"][..1] == ["acg"];
    assert ["acg"][..0] == [];
    assert Concat(["acg"]) == "acg";
    assert "acg" + "TT" == "acgTT";
    var u := Upper("acgTT");
    assert u[0] == 'A' && u[1] == 'C' && u[2] == 'G' && u[3] == 'T' && u[4] == 'T';
    assert u == "ACGTT";
  }

  lemma NameExamples()
    ensures HeaderName(">chr1") == "chr1" && HeaderName("> chr2") == "chr2"
  {
    assert ">chr1"[1..] == "chr1";
    assert "> chr2"[1..] == " chr2";
    assert IsStripped("chr1") && IsStripped("chr2");
    StripFacts("chr1");
    assert TrimStart(" chr2") == "chr2" by {
      assert " chr2"[1..] == "chr2";
    }
    assert TrimEnd("chr2") == "chr2";
  }

  lemma StripExamples()
    ensures Strip(">chr1 ") == ">chr1" && Strip("acg\n") == "acg" && Strip("TT") == "TT"
    ensures Strip("> chr2") == "> chr2" && Strip("  ") == ""
  {
    assert IsStripped("TT") && IsStripped("> chr2");
    StripFacts("TT");
    StripFacts("> chr2");
    assert TrimStart(">chr1 ") == ">chr1 ";
    assert TrimEnd(">chr1 ") == ">chr1" by {
      assert ">chr1 "[..5] == ">chr1";
    }
    assert TrimStart("acg\n") == "acg\n";
    assert TrimEnd("acg\n") == "acg" by {
      assert "acg\n"[..3] == "acg";
    }
    assert TrimStart("  ") == "" by {
      assert "  "[1..] == " ";
      assert " "[1..] == "";
    }
  }
}
