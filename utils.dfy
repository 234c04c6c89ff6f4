/**
 * General nucleotide utilities: reverse complement, cleaning and validation
 * of a sequence, and the parsing half of loading a primer list from a text
 * or CSV file.
 */
module Utils {
  import opened Types
  import opened Text

  // ---------------------------------------------------------------------
  // Reverse complement
  // ---------------------------------------------------------------------

  /** The translation table 'ATCGatcg' -> 'TAGCtagc'; any other character is unmapped. */
  function Complement(c: char): char
  {
    match c
    case 'A' => 'T'
    case 'T' => 'A'
    case 'C' => 'G'
    case 'G' => 'C'
    case 'a' => 't'
    case 't' => 'a'
    case 'c' => 'g'
    case 'g' => 'c'
    case _ => c
  }

  predicate IsMappedBase(c: char)
  {
    c in "ATCGatcg"
  }

  /** seq.translate(table): every character replaced through the table. */
  function Translate(s: string): string
  {
    seq(|s|, i requires 0 <= i < |s| => Complement(s[i]))
  }

  /** The string read backwards. */
  function Reverse(s: string): string
  {
    seq(|s|, i requires 0 <= i < |s| => s[|s| - 1 - i])
  }

  function ReverseComplement(s: string): string
  {
    Reverse(Translate(s))
  }

  /** Position i of the reverse complement is the complement of the mirrored position. */
  lemma ReverseComplementAt(s: string, i: int)
    requires 0 <= i < |s|
    ensures |ReverseComplement(s)| == |s|
    ensures ReverseComplement(s)[i] == Complement(s[|s| - 1 - i])
  {
  }

  lemma ReverseComplementExample()
    ensures ReverseComplement("ATGC") == "GCAT"
  {
    var r := ReverseComplement("ATGC");
    assert r[0] == 'G' && r[1] == 'C' && r[2] == 'A' && r[3] == 'T';
  }

  lemma ComplementInvolution(c: char)
    ensures Complement(Complement(c)) == c
  {
  }

  /** Complementing keeps a letter's case; A<->T and C<->G in either case. */
  lemma ComplementKeepsCase(c: char)
    ensures IsUpper(Complement(c)) <==> IsUpper(c)
    ensures IsLower(Complement(c)) <==> IsLower(c)
    ensures IsMappedBase(Complement(c)) <==> IsMappedBase(c)
    ensures !IsMappedBase(c) ==> Complement(c) == c
  {
  }

  /**
   * Applying reverse_complement twice gives back the input. Since the table
   * is a set of swaps and every other character is left alone, this holds
   * for every string, not only for strings over ACGTacgt.
   */
  lemma ReverseComplementInvolution(s: string)
    ensures ReverseComplement(ReverseComplement(s)) == s
  {
    var r := ReverseComplement(s);
    forall i | 0 <= i < |s| ensures ReverseComplement(r)[i] == s[i] {
      ReverseComplementAt(r, i);
      ReverseComplementAt(s, |s| - 1 - i);
      ComplementInvolution(s[i]);
    }
  }

  /** Case is preserved position by position, and unmapped characters pass through. */
  lemma ReverseComplementKeepsCase(s: string, i: int)
    requires 0 <= i < |s|
    ensures IsUpper(ReverseComplement(s)[i]) <==> IsUpper(s[|s| - 1 - i])
    ensures IsLower(ReverseComplement(s)[i]) <==> IsLower(s[|s| - 1 - i])
    ensures !IsMappedBase(s[|s| - 1 - i]) ==> ReverseComplement(s)[i] == s[|s| - 1 - i]
  {
    ComplementKeepsCase(s[|s| - 1 - i]);
  }

  // ---------------------------------------------------------------------
  // Cleaning and validation
  // ---------------------------------------------------------------------

  /** Strips the ends, drops every space and newline, then upper-cases. */
  function CleanSequence(s: string): (r: string)
    ensures ' ' !in r && '\n' !in r
    ensures HasNoLowercase(r)
    ensures IsStripped(r)
  {
    var t := Remove(Remove(Strip(s), ' '), '\n');
    StripFacts(s);
    UpperHasNoLowercase(t);
    UpperKeepsStripped(t);
    RemoveUpper(Remove(Strip(s), ' '), '\n');
    RemoveUpper(Strip(s), ' ');
    Upper(t)
  }

  lemma CleanSequenceIdempotent(s: string)
    ensures CleanSequence(CleanSequence(s)) == CleanSequence(s)
  {
    var t := CleanSequence(s);
    assert Strip(t) == t;
    assert Remove(Remove(t, ' '), '\n') == t;
    UpperIdentity(t);
  }

  predicate IsBase(c: char)
  {
    c == 'A' || c == 'T' || c == 'C' || c == 'G'
  }

  /** Every character is one of A, T, C, G. */
  predicate IsDna(s: string)
  {
    forall i :: 0 <= i < |s| ==> IsBase(s[i])
  }

  datatype ValidationError = InvalidCharacter(c: char)

  /**
   * validate_sequence: walks seq.upper() and raises at the first character
   * outside {A, T, C, G}.
   */
  method ValidateSequence(s: string) returns (r: Outcome<ValidationError>)
    ensures r.Pass? <==> IsDna(Upper(s))
    ensures r.Fail? ==> exists i :: 0 <= i < |s| && !IsBase(Upper(s)[i])
                          && IsDna(Upper(s)[..i]) && r.error == InvalidCharacter(Upper(s)[i])
  {
    var u := Upper(s);
    for i := 0 to |u|
      invariant IsDna(u[..i])
    {
      if !IsBase(u[i]) {
        assert IsDna(u[..i]);
        return Fail(InvalidCharacter(u[i]));
      }
      assert u[..i + 1] == u[..i] + [u[i]];
    }
    assert u[..|u|] == u;
    return Pass;
  }

  /** Validation is case-insensitive: lower-case acgt is accepted. */
  lemma ValidIgnoresCase(s: string)
    ensures IsDna(Upper(s)) <==> forall i :: 0 <= i < |s| ==> IsMappedBase(s[i])
  {
    forall i | 0 <= i < |s| ensures IsBase(Upper(s)[i]) <==> IsMappedBase(s[i]) {
      var c := s[i];
      if IsLower(c) {
        assert UpperChar(c) as int == c as int - 32;
      }
    }
  }

  // ---------------------------------------------------------------------
  // Loading primers
  // ---------------------------------------------------------------------

  /** A primer as handed to the checker: its sequence and its direction word. */
  datatype Primer = Primer(sequence: string, direction: string)

  datatype LoadError =
    | UnknownDirectionLabel(given: string)
    | MissingColumns
    | UnsupportedFormat

  /** What the CSV reader yields: the header columns and one cell map per row. */
  datatype CsvTable = CsvTable(columns: seq<string>, rows: seq<map<string, string>>)

  /** Every row has a cell for every column. */
  predicate WellFormed(t: CsvTable)
  {
    forall i :: 0 <= i < |t.rows| ==> forall c :: c in t.columns ==> c in t.rows[i]
  }

  predicate HasPrimerColumns(t: CsvTable)
  {
    "Direction" in t.columns && "Sequence" in t.columns
  }

  predicate HasPrimerCells(rows: seq<map<string, string>>)
  {
    forall i :: 0 <= i < |rows| ==> "Direction" in rows[i] && "Sequence" in rows[i]
  }

  /** The primers of a plain text file: each non-blank stripped line, direction unknown. */
  function TextPrimers(lines: seq<string>): seq<Primer>
  {
    if lines == [] then []
    else
      var line := Strip(lines[|lines| - 1]);
      TextPrimers(lines[..|lines| - 1]) + (if line != [] then [Primer(line, "unknown")] else [])
  }

  /** The text-file loop: each stripped line that is not empty becomes a primer of unknown direction. */
  method ParseTextLines(lines: seq<string>) returns (primers: seq<Primer>)
    ensures primers == TextPrimers(lines)
  {
    primers := [];
    for i := 0 to |lines|
      invariant primers == TextPrimers(lines[..i])
    {
      var s := Strip(lines[i]);
      if s != [] {
        primers := primers + [Primer(s, "unknown")];
      }
      assert lines[..i + 1][..i] == lines[..i];
    }
    assert lines[..|lines|] == lines;
  }

  lemma {:induction false} TextPrimersAppend(a: seq<string>, b: seq<string>)
    ensures TextPrimers(a + b) == TextPrimers(a) + TextPrimers(b)
    decreases |b|
  {
    if b == [] {
      assert a + b == a;
    } else {
      var b' := b[..|b| - 1];
      assert (a + b)[..|a + b| - 1] == a + b';
      TextPrimersAppend(a, b');
    }
  }

  /** A blank line contributes nothing. */
  lemma TextPrimersSkipBlank(a: seq<string>, line: string, b: seq<string>)
    requires Strip(line) == []
    ensures TextPrimers(a + [line] + b) == TextPrimers(a + b)
  {
    TextPrimersAppend(a + [line], b);
    TextPrimersAppend(a, b);
    var withLine := a + [line];
    assert withLine[..|withLine| - 1] == a;
    assert TextPrimers(withLine) == TextPrimers(a);
  }

  /** Every loaded primer is a non-empty stripped line of the file, with direction unknown. */
  lemma {:induction false} TextPrimersShape(lines: seq<string>)
    ensures |TextPrimers(lines)| <= |lines|
    ensures forall p :: p in TextPrimers(lines) ==>
              p.direction == "unknown" && p.sequence != [] && exists l :: l in lines && p.sequence == Strip(l)
  {
    if lines != [] {
      var init := lines[..|lines| - 1];
      TextPrimersShape(init);
      forall l | l in init ensures l in lines { }
    }
  }

  /** Without blank lines, the i-th primer is the i-th line, stripped. */
  lemma {:induction false} TextPrimersNoBlanks(lines: seq<string>)
    requires forall i :: 0 <= i < |lines| ==> Strip(lines[i]) != []
    ensures |TextPrimers(lines)| == |lines|
    ensures forall i :: 0 <= i < |lines| ==> TextPrimers(lines)[i] == Primer(Strip(lines[i]), "unknown")
  {
    if lines != [] {
      var init := lines[..|lines| - 1];
      TextPrimersNoBlanks(init);
      assert TextPrimers(lines) == TextPrimers(init) + [Primer(Strip(lines[|lines| - 1]), "unknown")];
      forall i | 0 <= i < |lines| ensures TextPrimers(lines)[i] == Primer(Strip(lines[i]), "unknown") {
        if i < |init| {
          assert init[i] == lines[i];
        }
      }
    }
  }

  function CsvLabel(row: map<string, string>): string
    requires "Direction" in row
  {
    Lower(Strip(row["Direction"]))
  }

  predicate IsCsvLabel(word: string)
  {
    word == "forward" || word == "reverse"
  }

  function CsvPrimer(row: map<string, string>): Primer
    requires "Direction" in row && "Sequence" in row
  {
    Primer(Strip(row["Sequence"]), CsvLabel(row))
  }

  /**
   * The outcome of reading the rows of a CSV file: all rows become primers,
   * in order, when every direction label is forward or reverse; otherwise the
   * first row with another label raises, naming that label.
   */
  ghost predicate IsCsvParse(rows: seq<map<string, string>>, r: Result<seq<Primer>, LoadError>)
    requires HasPrimerCells(rows)
  {
    && (r.Ok? <==> forall i :: 0 <= i < |rows| ==> IsCsvLabel(CsvLabel(rows[i])))
    && (r.Ok? ==> |r.value| == |rows| && forall i :: 0 <= i < |rows| ==> r.value[i] == CsvPrimer(rows[i]))
    && (r.Err? ==>
          exists i :: && 0 <= i < |rows|
                      && !IsCsvLabel(CsvLabel(rows[i]))
                      && (forall j :: 0 <= j < i ==> IsCsvLabel(CsvLabel(rows[j])))
                      && r.error == UnknownDirectionLabel(CsvLabel(rows[i])))
  }

  /** The CSV row loop: fails at the first row whose label is neither forward nor reverse. */
  method ParseCsvRows(rows: seq<map<string, string>>) returns (r: Result<seq<Primer>, LoadError>)
    requires HasPrimerCells(rows)
    ensures IsCsvParse(rows, r)
  {
    var primers := [];
    for i := 0 to |rows|
      invariant |primers| == i
      invariant forall j :: 0 <= j < i ==> IsCsvLabel(CsvLabel(rows[j])) && primers[j] == CsvPrimer(rows[j])
    {
      var direction := Lower(Strip(rows[i]["Direction"]));
      var s := Strip(rows[i]["Sequence"]);
      if direction != "forward" && direction != "reverse" {
        return Err(UnknownDirectionLabel(direction));
      }
      primers := primers + [Primer(s, direction)];
    }
    return Ok(primers);
  }

  /**
   * load_primers_from_file, with the file's contents already read: the lines
   * of a text file and the table of a CSV file. Which of the two is consulted
   * is decided by the lower-cased file name's extension.
   */
  method LoadPrimersFromFile(filepath: string, lines: seq<string>, table: CsvTable)
    returns (r: Result<seq<Primer>, LoadError>)
    requires WellFormed(table)
    ensures EndsWith(Lower(filepath), ".txt") ==> r == Ok(TextPrimers(lines))
    ensures !EndsWith(Lower(filepath), ".txt") && EndsWith(Lower(filepath), ".csv") ==>
              if HasPrimerColumns(table) then HasPrimerCells(table.rows) && IsCsvParse(table.rows, r)
              else r == Err(MissingColumns)
    ensures !EndsWith(Lower(filepath), ".txt") && !EndsWith(Lower(filepath), ".csv") ==>
              r == Err(UnsupportedFormat)
    ensures r.Ok? ==> forall p :: p in r.value ==> p.direction in ["forward", "reverse", "unknown"]
  {
    var lowered := Lower(filepath);
    if EndsWith(lowered, ".txt") {
      var primers := ParseTextLines(lines);
      TextPrimersShape(lines);
      return Ok(primers);
    } else if EndsWith(lowered, ".csv") {
      if "Direction" !in table.columns || "Sequence" !in table.columns {
        return Err(MissingColumns);
      }
      r := ParseCsvRows(table.rows);
    } else {
      return Err(UnsupportedFormat);
    }
  }
}
