# PrimSeqTools core, modelled in Dafny

PrimSeqTools is a set of command-line helpers for working with a genome. It
splits a FASTA file into one file per chromosome. It can then check whether
primers are specific, meaning no (pattern, orientation) key's hit count
exceeds 1. A key with no hit counts as specific. A key listed k times is
counted k times per occurrence, so a repeated primer found once is flagged. It can also search the genome for a long DNA
fragment. All of its searching is exact, overlapping substring search
(`str.find` called repeatedly from `idx + 1`) over named nucleotide sequences.

This project models four parts of it and proves their properties:

- `check_primers` (module `PrimerChecker`). Each `(primer, direction)` is
  expanded into the patterns that are searched. Every chromosome is scanned
  for every pattern. A hit counter is kept per `(pattern, label)` key, and
  every key counted more than once is flagged.
- `search_sequence_across_genome` (module `SequenceSearcher`). The query is
  normalised and its length checked against two advisory thresholds. Each
  loadable `.mat` chromosome file is then scanned, and each hit becomes a
  row of the results table.
- `split_fasta_to_mat` (module `FastaSplitter`). The line-oriented state
  machine that groups FASTA lines into `(name, UPPERCASE sequence)` records
  and saves one file per name.
- From `utils.py` (module `Utils`): `reverse_complement`, `clean_sequence`,
  `validate_sequence`, and the line and row parsing of
  `load_primers_from_file`.

Three helper modules support these:

- `Types` holds `Result`, `Outcome`, `Option` and the chromosome record.
- `Text` holds the Python string operations used: `str.isspace`, `strip`,
  `upper`, `lower`, `replace(c, "")` and `"".join`.
- `Matching` holds `str.find` as a specification function (`Find`) and the
  list of all overlapping occurrences that the `find(idx + 1)` loops visit
  (`Occurrences`).

The source's loops are methods with loop invariants. The hit counter is a
`map` that the methods update. Each method is proved against a
specification function, and the properties are proved about those
functions as lemmas.

File and library I/O are parameters:

- A chromosome file is given as its already-loaded record. In the fragment
  search it may instead be marked as a file that failed to load.
- A primer file is given as its lines (`.txt`) or as its header columns plus
  one cell map per row (`.csv`).
- A FASTA file is given as its lines.
- Outputs are returned values: hit lists per chromosome, the counter,
  warning lines, result rows, per-file summaries, and the saved records
  with the resulting name-to-sequence directory.

Two behaviours of the code are worth stating because one might expect
otherwise:

- An empty search pattern is not rejected. `find("", k)` is `k` for every
  `k <= |h|`, so the scan yields `|h| + 1` hits (`Matching.EmptyNeedleEverywhere`).
  The type of `search_sequence_across_genome`'s query allows an empty
  string, and the search then runs with it.
- Reverse complement keeps case (`a` becomes `t`, not `T`) and passes every
  other character through unchanged.

## Model

| member | source | states |
|---|---|---|
| Utils.ReverseComplementAt | genome_tools/utils.py:22-23 | the result has the input's length, and position i holds the complement of the input's mirrored position |
| Utils.ReverseComplementExample | genome_tools/utils.py:17-23 | reverse_complement("ATGC") is "GCAT" |
| Utils.ComplementInvolution | genome_tools/utils.py:22 | the translation table is a set of swaps, so translating twice gives back the character |
| Utils.ComplementKeepsCase | genome_tools/utils.py:22 | complementing keeps upper and lower case, maps ATCGatcg into itself, and leaves every other character unchanged |
| Utils.ReverseComplementInvolution | genome_tools/utils.py:22-23 | reverse_complement applied twice gives back any string, so in particular any string over ACGTacgt |
| Utils.ReverseComplementKeepsCase | genome_tools/utils.py:22-23 | position by position the result has the mirrored input character's case, and a character outside ATCGatcg appears unchanged at the mirrored position |
| Utils.CleanSequence | genome_tools/utils.py:64-68 | the cleaned sequence contains no ' ' and no '\n', no lowercase letter, and no whitespace at either end |
| Utils.CleanSequenceIdempotent | genome_tools/utils.py:64-68 | cleaning a cleaned sequence changes nothing |
| Utils.ValidateSequence | genome_tools/utils.py:70-76 | passes exactly when every character of seq.upper() is A, T, C or G; otherwise it fails naming the first offending character of seq.upper() |
| Utils.ValidIgnoresCase | genome_tools/utils.py:74-75 | seq.upper() is all A/T/C/G exactly when every character of seq is one of ATCGatcg, so lowercase acgt is accepted |
| Utils.ParseTextLines | genome_tools/utils.py:38-44 | the line loop returns TextPrimers(lines): each non-blank stripped line as (line, "unknown"), in order |
| Utils.TextPrimersAppend | genome_tools/utils.py:40-43 | the text primers of two consecutive parts of a file are those of the first part followed by those of the second |
| Utils.TextPrimersSkipBlank | genome_tools/utils.py:41-42 | a line that strips to nothing contributes no primer wherever it is |
| Utils.TextPrimersShape | genome_tools/utils.py:40-43 | there are at most as many primers as lines, and each has direction "unknown" and a non-empty sequence equal to some stripped line |
| Utils.TextPrimersNoBlanks | genome_tools/utils.py:40-43 | without blank lines the i-th primer is (strip(line i), "unknown") |
| Utils.ParseCsvRows | genome_tools/utils.py:52-59 | succeeds exactly when every row's label strip().lower() is forward or reverse, and then yields (strip(Sequence), label) per row in order; otherwise fails naming the first bad label |
| Utils.LoadPrimersFromFile | genome_tools/utils.py:34-62 | the lower-cased name picks the format: .txt gives the text primers; .csv without both Direction and Sequence columns fails, and otherwise gives the row parse; any other extension fails; every loaded direction is forward, reverse or unknown |
| Text.TrimStartFacts | genome_tools/utils.py:68 | dropping leading whitespace leaves a suffix that starts with a non-space, preceded only by whitespace |
| Text.TrimEndFacts | genome_tools/utils.py:68 | dropping trailing whitespace leaves a prefix that ends with a non-space, followed only by whitespace |
| Text.StripFacts | genome_tools/utils.py:68 | strip() leaves no whitespace at either end, changes nothing that has none, and never lengthens |
| Text.Remove | genome_tools/utils.py:68 | replace(x, "") leaves no x, never lengthens, keeps only characters of the input, and keeps a first or last character that is not x |
| Text.UpperCharFacts | genome_tools/utils.py:68 | upper-casing a character never yields a lowercase letter, keeps whitespace, and changes exactly the lowercase letters |
| Text.UpperKeepsStripped | genome_tools/utils.py:68 | upper() keeps a stripped string stripped |
| Text.UpperHasNoLowercase | genome_tools/utils.py:68 | upper() leaves no lowercase letter |
| Text.UpperIdentity | genome_tools/utils.py:68 | upper() changes nothing in a string without lowercase letters |
| Text.RemoveUpper | genome_tools/utils.py:68 | removing a non-letter commutes with upper(), so the order of replace and upper does not matter |
| Text.UpperAppend | genome_tools/utils.py:68 | upper() works character by character: upper(a + b) is upper(a) + upper(b) |
| Text.LowerCharFacts | genome_tools/primer_checker.py:44-51 | lower() on a character is idempotent and keeps whitespace |
| Text.LowerIdempotent | genome_tools/primer_checker.py:44-51 | lower() applied twice is lower() once |
| Text.UpperStripIdempotent | genome_tools/primer_checker.py:43 | seq.strip().upper() is unchanged by a second strip().upper() |
| Matching.Find | genome_tools/primer_checker.py:70 | find(n, start) is -1 or an index at least start where n occurs |
| Matching.FindFirst | genome_tools/primer_checker.py:70 | when n occurs at some i >= start, find(n, start) is not -1 and is at most i, so it is the first occurrence |
| Matching.OccurrencesSound | genome_tools/primer_checker.py:70-79 | every position the find(idx + 1) loop visits is an occurrence of the needle |
| Matching.OccurrencesComplete | genome_tools/primer_checker.py:70-79 | every occurrence at or after the start is visited, overlapping ones included |
| Matching.OccurrencesAscending | genome_tools/primer_checker.py:70-79 | the visited positions ascend strictly, so none is visited twice |
| Matching.OccurrencesFacts | genome_tools/primer_checker.py:70-79 | soundness, completeness and strict ascent together |
| Matching.ScanStart | genome_tools/primer_checker.py:70 | after idx = find(n) nothing has been visited and the positions still to visit are all the occurrences |
| Matching.ScanNext | genome_tools/primer_checker.py:79 | idx = find(n, idx + 1) moves exactly one occurrence from still-to-visit to visited |
| Matching.OverlapExample | genome_tools/primer_checker.py:70-79 | "AA" occurs in "AAAA" at 0, 1 and 2 |
| Matching.SpacedOverlapExample | genome_tools/sequence_searcher.py:55-67 | "ATA" occurs in "ATATA" at 0 and 2 |
| Matching.EmptyNeedleEverywhere | genome_tools/primer_checker.py:70-79 | searched from `from`, an empty needle is found at every index from `from` to the length of h, one hit per index |
| Matching.LongNeedle | genome_tools/primer_checker.py:70 | a needle longer than the chromosome has no occurrence, and no error is raised |
| PrimerChecker.OrientationsOf | genome_tools/primer_checker.py:43-58 | the if/elif chain for one primer yields exactly Orientations(p) |
| PrimerChecker.DedupFacts | genome_tools/primer_checker.py:46-56 | the counter's key order lists each expanded key once and nothing else |
| PrimerChecker.ExpandErrorPersists | genome_tools/primer_checker.py:57-58 | once a prefix of the list has raised, the whole list raises the same error |
| PrimerChecker.Register | genome_tools/primer_checker.py:44-56 | search_primers becomes search + keys; appending sets each one's counter entry to 0 and adds keys met for the first time at the end of the dict order |
| PrimerChecker.RegisterStep | genome_tools/primer_checker.py:45-46 | one append plus hit_counter[key] = 0 keeps the counter and order equal to those of the appended list |
| PrimerChecker.ExpandStep | genome_tools/primer_checker.py:42-58 | the expansion of one more primer is the old one followed by its orientations, or that primer's error |
| PrimerChecker.ExpandPrimers | genome_tools/primer_checker.py:38-58 | the loop succeeds exactly when Expand does, with the same error otherwise; on success search_primers is Expand's list, every key counts 0, and the key order is first insertion |
| PrimerChecker.AllDirectionsStep | genome_tools/primer_checker.py:42-58 | all directions are recognised exactly when those before the last are and the last is |
| PrimerChecker.OrientationsOkIff | genome_tools/primer_checker.py:44-58 | one primer expands exactly when its direction is forward, reverse or unknown, in any case |
| PrimerChecker.ExpandOkStep | genome_tools/primer_checker.py:42-58 | the list expands exactly when the list without its last primer expands and the last direction is recognised |
| PrimerChecker.ExpandSucceedsIff | genome_tools/primer_checker.py:42-58 | expansion succeeds exactly when every direction is recognised |
| PrimerChecker.ExpandFailsAtFirst | genome_tools/primer_checker.py:57-58 | a failed expansion names the first unrecognised direction, as given, all directions before it being recognised |
| PrimerChecker.ExpandSnoc | genome_tools/primer_checker.py:42-56 | one more recognised primer appends its orientations at the end |
| PrimerChecker.ExpandAppend | genome_tools/primer_checker.py:42-56 | list order is preserved: the expansion of a + b is a's followed by b's |
| PrimerChecker.OrientationsMeaning | genome_tools/primer_checker.py:43-56 | forward gives (seq, forward), reverse gives (rc(seq), reverse_complement), unknown gives both with forward first; seq is the stripped upper-cased primer |
| PrimerChecker.OrientationsNormalized | genome_tools/primer_checker.py:43-51 | the direction match ignores case, and the primer's surrounding whitespace and case are normalised away |
| PrimerChecker.LoadedPrimersExpand | genome_tools/utils.py:43 | primers as the loader returns them (forward, reverse or unknown) always expand without error |
| PrimerChecker.DirectionWords | genome_tools/primer_checker.py:44-51 | the three words forward, reverse and unknown are recognised |
| PrimerChecker.UnknownExpansionExample | genome_tools/primer_checker.py:51-56 | (" aaa\n", "Unknown") expands to ("AAA", forward) then ("TTT", reverse_complement) |
| PrimerChecker.InvalidDirectionExample | genome_tools/primer_checker.py:57-58 | a "sideways" direction after a valid primer fails the whole expansion with that word |
| PrimerChecker.HitsAtLength | genome_tools/primer_checker.py:71-77 | one hit record per visited position |
| PrimerChecker.HitsAtIndex | genome_tools/primer_checker.py:72-77 | the j-th record has the chromosome name, Position j-th index + 1, the pattern and its label |
| PrimerChecker.CountKeyAppend | genome_tools/primer_checker.py:78 | counting a key over two hit lists adds up |
| PrimerChecker.CountHitsAt | genome_tools/primer_checker.py:78 | the hits of one pattern carry its key, one per position, and no other key |
| PrimerChecker.HitsAtSnoc | genome_tools/primer_checker.py:72-77 | one more position appends its one record |
| PrimerChecker.ScanLoopNext | genome_tools/primer_checker.py:72-78 | one loop iteration appends one record and adds 1 to exactly the pattern's counter entry |
| PrimerChecker.ScanLoopStart | genome_tools/primer_checker.py:70 | before the first hit nothing is recorded and the counter is unchanged |
| PrimerChecker.ScanLoopDone | genome_tools/primer_checker.py:71 | when find returns -1 the records are those of all occurrences and the entry has grown by their number |
| PrimerChecker.BumpStep | genome_tools/primer_checker.py:78 | += 1 on an entry holding c makes it c + 1 |
| PrimerChecker.ScanOccurrences | genome_tools/primer_checker.py:70-79 | the while loop appends a record for each occurrence, in order, and increases the pattern's entry by the number of records |
| PrimerChecker.TallyNone | genome_tools/primer_checker.py:68 | no hits leave the counter as it was |
| PrimerChecker.TallyAppend | genome_tools/primer_checker.py:69-79 | counts of consecutive hit lists compose |
| PrimerChecker.TallyHits | genome_tools/primer_checker.py:70-79 | the scan of one pattern grows each key's entry by the number of its hits, keys unchanged |
| PrimerChecker.ScanChromosome | genome_tools/primer_checker.py:68-79 | the hits of a chromosome are ChromosomeHits, pattern by pattern, and the counter grows by exactly the number of hits per key |
| PrimerChecker.AllLoopNext | genome_tools/primer_checker.py:63-87 | one more chromosome extends the outputs, the hits and the counter by its own |
| PrimerChecker.ScanAll | genome_tools/primer_checker.py:63-87 | starting from zeros, each counter value is the number of hit records that carry its key over all chromosomes, and each chromosome gets its own output in order |
| PrimerChecker.MultipleMatchWarnings | genome_tools/primer_checker.py:92-97 | the warnings are those of the keys with a count above 1, in dict order, and the flag is set exactly when one exists |
| PrimerChecker.WarningsIff | genome_tools/primer_checker.py:94-96 | a warning is printed for a key exactly when its count exceeds 1, with that count |
| PrimerChecker.NoWarningsIff | genome_tools/primer_checker.py:99-100 | there is no warning exactly when no count exceeds 1 |
| PrimerChecker.CheckPrimers | genome_tools/primer_checker.py:38-100 | fails exactly when the expansion does, before anything is scanned, with its error; otherwise returns the outputs, counter, order and warnings, and "all primers are specific" exactly when no count exceeds 1 |
| PrimerChecker.ReportIntro | genome_tools/primer_checker.py:92-100 | the pieces computed by the scan and the warning loop make up a report, with specificity decided over all counter keys |
| PrimerChecker.ChromosomeHitsSound | genome_tools/primer_checker.py:69-79 | every record names the chromosome, has Position >= 1 and an occurrence of its primer at Position - 1, and carries a searched key |
| PrimerChecker.OccurrenceAt | genome_tools/primer_checker.py:70-79 | the i-th visited position is an occurrence |
| PrimerChecker.ChromosomeHitsComplete | genome_tools/primer_checker.py:69-79 | every occurrence of every searched pattern is reported with its 1-based position |
| PrimerChecker.PatternHitsAscending | genome_tools/primer_checker.py:70-79 | the hits of one pattern ascend strictly by Position, so each occurrence is reported once |
| PrimerChecker.OutputIffHit | genome_tools/primer_checker.py:81-87 | a results file is written for a chromosome exactly when some searched pattern occurs in it |
| PrimerChecker.ChromosomeCount | genome_tools/primer_checker.py:69-78 | in one chromosome a key is counted once per listing of it per occurrence |
| PrimerChecker.CounterSum | genome_tools/primer_checker.py:63-78 | over all chromosomes a key is counted once per listing per occurrence |
| PrimerChecker.CounterValue | genome_tools/primer_checker.py:42-78 | the count of a key is (number of times it is listed) x (total occurrences), so a primer listed twice is counted twice per occurrence |
| PrimerChecker.DuplicateExpansionExample | genome_tools/primer_checker.py:42-46 | ("ACG", forward) and ("acg", forward) expand to the same key twice |
| PrimerChecker.DuplicateCountExample | genome_tools/primer_checker.py:63-78 | a key listed twice is counted 2 on a chromosome "ACG" where it occurs once |
| PrimerChecker.DuplicateListingExample | genome_tools/primer_checker.py:42-78 | ("ACG", forward) and ("acg", forward) expand to the same key twice, and on a chromosome "ACG" that key is counted 2 though it occurs once |
| SequenceSearcher.NormalizeQuery | genome_tools/sequence_searcher.py:32-33 | the normalised query has no ' ' and no '\n', no whitespace at either end and no lowercase letter |
| SequenceSearcher.FileLoopNext | genome_tools/sequence_searcher.py:57-67 | one iteration appends one row for the current position and adds 1 to match_count |
| SequenceSearcher.MatchesAtSnoc | genome_tools/sequence_searcher.py:58-65 | one more position appends its one row |
| SequenceSearcher.ScanFile | genome_tools/sequence_searcher.py:55-67 | the while loop appends one row per occurrence, in order, and match_count is the number of occurrences |
| SequenceSearcher.PrefixStep | genome_tools/sequence_searcher.py:45-69 | searching one more file extends the rows and summaries by that file's |
| SequenceSearcher.SearchSequenceAcrossGenome | genome_tools/sequence_searcher.py:19-69 | the query is normalised; the short warning fires exactly when its length is below min_len (default 50), the long one exactly above max_len (default 5000), and neither stops the search; the rows and summaries are those of the .mat files in listing order |
| SequenceSearcher.NormalizeIsClean | genome_tools/sequence_searcher.py:32-33 | the query normalisation gives the same string as clean_sequence |
| SequenceSearcher.MatFilesMeaning | genome_tools/sequence_searcher.py:41 | exactly the entries whose name ends with .mat are searched |
| SequenceSearcher.MatchesAtLength | genome_tools/sequence_searcher.py:57-66 | one row per occurrence |
| SequenceSearcher.MatchesAtIndex | genome_tools/sequence_searcher.py:58-65 | the j-th row has Gene '-', the chromosome name, Start position + 1, End position + len(query), the query and the file |
| SequenceSearcher.FileMatchSound | genome_tools/sequence_searcher.py:55-65 | every row has Gene '-', the file's name and chromosome, MatchedSeq equal to the query, Start >= 1, End - Start + 1 = len(query), and chrseq[Start-1 .. End] equal to the query |
| SequenceSearcher.FileMatchComplete | genome_tools/sequence_searcher.py:55-67 | every occurrence of the query in a loaded file is reported, overlapping ones included |
| SequenceSearcher.FileMatchesAscending | genome_tools/sequence_searcher.py:55-67 | within a file the rows ascend strictly by Start |
| SequenceSearcher.MatchCountIsRows | genome_tools/sequence_searcher.py:56-69 | a file is reported as searched exactly when it loaded, and its match_count is the number of rows it contributed |
| SequenceSearcher.AllMatchesAppend | genome_tools/sequence_searcher.py:44-45 | files are processed in order: the rows of a + b are a's followed by b's |
| SequenceSearcher.SkipUnreadable | genome_tools/sequence_searcher.py:47-53 | a file that fails to load adds no rows, and the files after it are still searched |
| SequenceSearcher.AllMatchesSound | genome_tools/sequence_searcher.py:44-67 | every row of the report comes from one listed file |
| SequenceSearcher.AllMatchesComplete | genome_tools/sequence_searcher.py:44-67 | every row of every listed file is in the report |
| SequenceSearcher.OverlappingFragmentExample | genome_tools/sequence_searcher.py:55-67 | "ATA" in a chromosome "ATATA" gives the rows (Start 1, End 3) and (Start 3, End 5) |
| FastaSplitter.IsHeaderStartsWith | genome_tools/fasta_splitter.py:39 | a stripped line is a header exactly when it starts with ">" |
| FastaSplitter.StripAll | genome_tools/fasta_splitter.py:35-36 | one stripped line per input line |
| FastaSplitter.Rest | genome_tools/fasta_splitter.py:39-50 | what follows a block's lines is empty or starts with a header |
| FastaSplitter.Blocks | genome_tools/fasta_splitter.py:31-50 | the first block carries the initial name and the lines before the first header |
| FastaSplitter.BodyRestSnoc | genome_tools/fasta_splitter.py:39-50 | one more line joins the lines before the first header, or the part after them |
| FastaSplitter.BlocksSnocHeader | genome_tools/fasta_splitter.py:47-48 | a header line opens a new empty block named after it |
| FastaSplitter.BlocksSnocLine | genome_tools/fasta_splitter.py:50 | any other line is appended to the open block |
| FastaSplitter.SplitHeaderStep | genome_tools/fasta_splitter.py:39-48 | a header saves the open block when it has lines, then opens a new one named line[1:].strip() |
| FastaSplitter.SplitLineStep | genome_tools/fasta_splitter.py:49-50 | a non-header line joins the open block and saves nothing |
| FastaSplitter.SplitFastaToMat | genome_tools/fasta_splitter.py:30-61 | the saves, in order, are Records(lines), and the output directory maps each name to the sequence of its last save |
| FastaSplitter.EmitAppend | genome_tools/fasta_splitter.py:35-61 | records are saved in input order: those of consecutive block lists concatenate |
| FastaSplitter.EmitMeaning | genome_tools/fasta_splitter.py:41-57 | a record is saved exactly for a block with at least one line, whatever those lines hold |
| FastaSplitter.BodyOfSegment | genome_tools/fasta_splitter.py:39-50 | non-header lines followed by the end or a header are exactly one block's lines |
| FastaSplitter.SplitEmpty | genome_tools/fasta_splitter.py:57 | an empty file saves nothing |
| FastaSplitter.SplitAfterHeader | genome_tools/fasta_splitter.py:31-41 | a file starting with a header saves nothing for the empty initial block |
| FastaSplitter.LeadingBlock | genome_tools/fasta_splitter.py:41-50 | the first block is saved when it has lines, followed by the saves of the rest |
| FastaSplitter.HeaderRecord | genome_tools/fasta_splitter.py:41-60 | a header and its lines save (name, joined lines uppercased) when there is at least one line, even blank; with nothing after them this is the flush at end of input |
| FastaSplitter.LeadingLines | genome_tools/fasta_splitter.py:31-44 | non-header lines before the first header are saved under the name "" |
| FastaSplitter.AdjacentHeaders | genome_tools/fasta_splitter.py:41 | a header directly followed by another header saves nothing |
| FastaSplitter.LastWinsMeaning | genome_tools/fasta_splitter.py:43-59 | a name's file holds the sequence of its last save |
| FastaSplitter.LastWinsKeys | genome_tools/fasta_splitter.py:43-59 | the directory holds exactly the saved names |
| FastaSplitter.SplitExample | genome_tools/fasta_splitter.py:35-61 | [">chr1 ", "acg\n", "TT", "> chr2", "  "] saves ("chr1", "ACGTT") then ("chr2", "") |
| FastaSplitter.StripAllExample | genome_tools/fasta_splitter.py:36 | the lines of that file, stripped |
| FastaSplitter.SplitStrippedExample | genome_tools/fasta_splitter.py:39-61 | the stripped lines of that file save ("chr1", "ACGTT") then ("chr2", "") |
| FastaSplitter.BlankLineExample | genome_tools/fasta_splitter.py:50-60 | a header followed by one blank line saves an empty sequence |
| FastaSplitter.JoinExample | genome_tools/fasta_splitter.py:42 | "".join(["acg", "TT"]).upper() is "ACGTT" |
| FastaSplitter.NameExamples | genome_tools/fasta_splitter.py:47 | the names of ">chr1" and "> chr2" are "chr1" and "chr2" |
| FastaSplitter.StripExamples | genome_tools/fasta_splitter.py:36 | strip() of the example lines |

## Left out

- File and library I/O is not modelled: `loadmat`/`savemat`, `os.listdir`,
  `os.makedirs`, `open`, `pd.read_csv` and `DataFrame.to_csv`. Their inputs
  and outputs are parameters and returned values. The order of
  `os.listdir` is unspecified, so the listing is taken as given.
- Console output is not modelled. This covers the emoji progress lines and
  the 50000-line progress counter in genome_tools/fasta_splitter.py:33, 37,
  53-54. The warnings are returned as lists and booleans instead.
- PrimerChecker.CheckPrimers takes the loaded chromosome records, so the
  `.mat` filter of the directory listing (genome_tools/primer_checker.py:60)
  and the per-chromosome CSV file name are not modelled. Each chromosome's
  output is returned in order, so two chromosomes with the same name get two
  outputs where the second file would overwrite the first.
- The GUI entry point `user_gui_input_and_search`
  (genome_tools/sequence_searcher.py:79-105), main_controller.py and the two
  example scripts hold no logic to verify. `mkdir_if_not_exists` is
  directory I/O.
- Exception types and messages become error values (`LoadError`,
  `PrimerError`, `ValidationError`). Which exception a failed `loadmat`
  raises becomes one `Unreadable` case.
- A CSV cell that pandas reads as NaN (an empty cell) would make
  `.strip()` raise. The CSV table holds strings, so this case is not
  represented.
- Text upper() and lower() map only the ASCII letters. Python also maps
  other Unicode letters. `strip()` uses Python's full `isspace` set.
- Utils.CleanSequence: "no lowercase letter" means no ASCII lowercase
  letter, because upper-casing is modelled on ASCII only, as above.
