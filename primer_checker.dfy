/**
 * check_primers: expands each (primer, direction) into the patterns that are
 * searched, scans every chromosome for every pattern with an overlapping
 * find loop, counts the hits per (pattern, label) key and flags the keys
 * that matched more than once.
 */
module PrimerChecker {
  import opened Types
  import opened Text
  import opened Utils
  import opened Matching

  /** A pattern that is searched for, with its orientation label; also a hit-counter key. */
  datatype SearchPrimer = SearchPrimer(pattern: string, orientation: string)

  datatype PrimerError = UnknownPrimerDirection(direction: string)

  /** One reported match: 1-based position of the pattern in the chromosome. */
  datatype PrimerHit = PrimerHit(chromosome: string, position: nat, primer: string, direction: string)

  /** What happens for one chromosome: a results file is written, or "no match" is reported. */
  datatype ChromosomeOutput = Saved(chromosome: string, hits: seq<PrimerHit>) | NoMatch(chromosome: string)

  /** One line of the multiple-match warning. */
  datatype Warning = Warning(primer: string, direction: string, count: nat)

  /** The state built while expanding: the patterns, the hit counter and its key order. */
  datatype Expansion = Expansion(searchPrimers: seq<SearchPrimer>, counter: map<SearchPrimer, nat>, order: seq<SearchPrimer>)

  datatype PrimerReport = PrimerReport(
    searchPrimers: seq<SearchPrimer>,
    outputs: seq<ChromosomeOutput>,
    counter: map<SearchPrimer, nat>,
    order: seq<SearchPrimer>,
    warnings: seq<Warning>,
    allSpecific: bool)

  // ---------------------------------------------------------------------
  // Orientation expansion
  // ---------------------------------------------------------------------

  function NormalizePrimer(s: string): string
  {
    Upper(Strip(s))
  }

  datatype Direction = Forward | Reverse | Unknown

  /** The lower-cased direction compared with forward, reverse and unknown, in that order. */
  function ParseDirection(d: string): Option<Direction>
  {
    var l := Lower(d);
    if l == "forward" then Some(Forward)
    else if l == "reverse" then Some(Reverse)
    else if l == "unknown" then Some(Unknown)
    else None
  }

  /** The direction word is one of the three recognised ones, in any case. */
  predicate IsDirection(d: string)
  {
    ParseDirection(d).Some?
  }

  /** The patterns one listed primer expands into, or the error its direction raises. */
  function Orientations(p: Primer): Result<seq<SearchPrimer>, PrimerError>
  {
    var s := NormalizePrimer(p.sequence);
    match ParseDirection(p.direction)
    case Some(Forward) => Ok([SearchPrimer(s, "forward")])
    case Some(Reverse) => Ok([SearchPrimer(ReverseComplement(s), "reverse_complement")])
    case Some(Unknown) => Ok([SearchPrimer(s, "forward"), SearchPrimer(ReverseComplement(s), "reverse_complement")])
    case None => Err(UnknownPrimerDirection(p.direction))
  }

  /** The expansion of a whole primer list, in list order; the first bad direction aborts it. */
  function Expand(primers: seq<Primer>): Result<seq<SearchPrimer>, PrimerError>
  {
    if primers == [] then Ok([])
    else
      match Expand(primers[..|primers| - 1])
      case Err(e) => Err(e)
      case Ok(done) =>
        match Orientations(primers[|primers| - 1])
        case Err(e) => Err(e)
        case Ok(more) => Ok(done + more)
  }

  /** The keys in first-insertion order, as a Python dict keeps them. */
  function Dedup(ks: seq<SearchPrimer>): seq<SearchPrimer>
  {
    if ks == [] then []
    else
      var order := Dedup(ks[..|ks| - 1]);
      if ks[|ks| - 1] in order then order else order + [ks[|ks| - 1]]
  }

  /** Dedup lists each key of ks once and nothing else. */
  lemma {:induction false} DedupFacts(ks: seq<SearchPrimer>)
    ensures forall k :: k in Dedup(ks) <==> k in ks
    ensures forall i, j :: 0 <= i < j < |Dedup(ks)| ==> Dedup(ks)[i] != Dedup(ks)[j]
  {
    if ks != [] {
      var init, last := ks[..|ks| - 1], ks[|ks| - 1];
      DedupFacts(init);
      assert forall k :: k in ks <==> k in init || k == last;
    }
  }

  /** A counter holding 0 for every key of ks. */
  function ZeroCounter(ks: seq<SearchPrimer>): map<SearchPrimer, nat>
  {
    map k | k in ks :: 0
  }

  lemma {:induction false} ExpandErrorPersists(primers: seq<Primer>, i: nat)
    requires i <= |primers| && Expand(primers[..i]).Err?
    ensures Expand(primers) == Expand(primers[..i])
    decreases |primers|
  {
    if i < |primers| {
      var init := primers[..|primers| - 1];
      assert init[..i] == primers[..i];
      ExpandErrorPersists(init, i);
    } else {
      assert primers[..i] == primers;
    }
  }

  /** The imperative rendering of Orientations: the if/elif chain of the expansion loop for one listed primer. */
  method OrientationsOf(p: Primer) returns (r: Result<seq<SearchPrimer>, PrimerError>)
    ensures r == Orientations(p)
  {
    var s := Upper(Strip(p.sequence));
    var d := Lower(p.direction);
    if d == "forward" {
      r := Ok([SearchPrimer(s, "forward")]);
    } else if d == "reverse" {
      var rc := ReverseComplement(s);
      r := Ok([SearchPrimer(rc, "reverse_complement")]);
    } else if d == "unknown" {
      r := Ok([SearchPrimer(s, "forward"), SearchPrimer(ReverseComplement(s), "reverse_complement")]);
    } else {
      r := Err(UnknownPrimerDirection(p.direction));
    }
  }

  /**
   * Appends keys to the search list and sets the counter entry of each to 0;
   * a key met for the first time is added at the end of the dict's order.
   */
  method Register(search: seq<SearchPrimer>, counter: map<SearchPrimer, nat>, order: seq<SearchPrimer>,
                  keys: seq<SearchPrimer>)
    returns (search': seq<SearchPrimer>, counter': map<SearchPrimer, nat>, order': seq<SearchPrimer>)
    requires counter == ZeroCounter(search) && order == Dedup(search)
    ensures search' == search + keys
    ensures counter' == ZeroCounter(search') && order' == Dedup(search')
  {
    search', counter', order' := search, counter, order;
    for j := 0 to |keys|
      invariant search' == search + keys[..j]
      invariant Registered(search', counter', order')
    {
      var key := keys[j];
      assert keys[..j + 1] == keys[..j] + [key];
      Assoc(search, keys[..j], [key]);
      RegisterStep(search', counter', order', key);
      var nextOrder := if key in counter' then order' else order' + [key];
      search', counter', order' := search' + [key], counter'[key := 0], nextOrder;
    }
    assert keys[..|keys|] == keys;
  }

  /** The counter and the key order are those of the keys registered so far. */
  ghost predicate Registered(search: seq<SearchPrimer>, counter: map<SearchPrimer, nat>, order: seq<SearchPrimer>)
  {
    counter == ZeroCounter(search) && order == Dedup(search)
  }

  lemma RegisterStep(search: seq<SearchPrimer>, counter: map<SearchPrimer, nat>, order: seq<SearchPrimer>,
                     key: SearchPrimer)
    requires Registered(search, counter, order)
    ensures Registered(search + [key], counter[key := 0], if key in counter then order else order + [key])
  {
    var s' := search + [key];
    DedupFacts(search);
    assert s'[..|s'| - 1] == search;
    assert forall k :: k in s' <==> k in search || k == key;
  }

  /** The expansion step for one more primer, in terms of the expansion of those before it. */
  lemma ExpandStep(primers: seq<Primer>, i: nat, search: seq<SearchPrimer>)
    requires i < |primers| && Expand(primers[..i]) == Ok(search)
    ensures Orientations(primers[i]).Ok? ==> Expand(primers[..i + 1]) == Ok(search + Orientations(primers[i]).value)
    ensures Orientations(primers[i]).Err? ==> Expand(primers[..i + 1]) == Err(Orientations(primers[i]).error)
  {
    assert primers[..i + 1][..i] == primers[..i];
  }

  /**
   * The expansion loop: builds search_primers by appending and inserts every
   * key into hit_counter with value 0; a direction outside forward, reverse
   * and unknown raises before any chromosome is looked at.
   */
  method ExpandPrimers(primers: seq<Primer>) returns (r: Result<Expansion, PrimerError>)
    ensures r.Ok? <==> Expand(primers).Ok?
    ensures r.Err? ==> r.error == Expand(primers).error
    ensures r.Ok? ==> r.value == Expansion(Expand(primers).value, ZeroCounter(Expand(primers).value),
                                           Dedup(Expand(primers).value))
  {
    var search: seq<SearchPrimer> := [];
    var counter: map<SearchPrimer, nat> := map[];
    var order: seq<SearchPrimer> := [];
    for i := 0 to |primers|
      invariant Expand(primers[..i]) == Ok(search)
      invariant counter == ZeroCounter(search)
      invariant order == Dedup(search)
    {
      var keys := OrientationsOf(primers[i]);
      ExpandStep(primers, i, search);
      if keys.Err? {
        ExpandErrorPersists(primers, i + 1);
        return Err(keys.error);
      }
      search, counter, order := Register(search, counter, order, keys.value);
    }
    assert primers[..|primers|] == primers;
    return Ok(Expansion(search, counter, order));
  }

  /** Every listed primer has a recognised direction word. */
  predicate AllDirections(primers: seq<Primer>)
  {
    forall i :: 0 <= i < |primers| ==> IsDirection(primers[i].direction)
  }

  lemma AllDirectionsStep(primers: seq<Primer>)
    requires primers != []
    ensures AllDirections(primers) <==>
              AllDirections(primers[..|primers| - 1]) && IsDirection(primers[|primers| - 1].direction)
  {
    var init := primers[..|primers| - 1];
    assert forall i :: 0 <= i < |init| ==> init[i] == primers[i];
  }

  lemma OrientationsOkIff(p: Primer)
    ensures Orientations(p).Ok? <==> IsDirection(p.direction)
  {
  }

  lemma ExpandOkStep(primers: seq<Primer>)
    requires primers != []
    ensures Expand(primers).Ok? <==>
              Expand(primers[..|primers| - 1]).Ok? && IsDirection(primers[|primers| - 1].direction)
  {
    OrientationsOkIff(primers[|primers| - 1]);
  }

  /** The expansion succeeds exactly when every direction word is recognised. */
  lemma {:induction false} ExpandSucceedsIff(primers: seq<Primer>)
    ensures Expand(primers).Ok? <==> AllDirections(primers)
  {
    if primers != [] {
      ExpandSucceedsIff(primers[..|primers| - 1]);
      ExpandOkStep(primers);
      AllDirectionsStep(primers);
    }
  }

  /** When it fails, the error names the first unrecognised direction, as given. */
  lemma {:induction false} ExpandFailsAtFirst(primers: seq<Primer>)
    requires Expand(primers).Err?
    ensures exists i :: && 0 <= i < |primers|
                        && AllDirections(primers[..i])
                        && !IsDirection(primers[i].direction)
                        && Expand(primers).error == UnknownPrimerDirection(primers[i].direction)
  {
    var init := primers[..|primers| - 1];
    var last := |primers| - 1;
    if Expand(init).Err? {
      ExpandFailsAtFirst(init);
      var i :| && 0 <= i < |init| && AllDirections(init[..i]) && !IsDirection(init[i].direction)
               && Expand(init).error == UnknownPrimerDirection(init[i].direction);
      assert init[..i] == primers[..i];
      assert init[i] == primers[i];
    } else {
      ExpandSucceedsIff(init);
      assert init == primers[..last];
    }
  }

  lemma ExpandSnoc(primers: seq<Primer>, last: Primer)
    requires Expand(primers).Ok? && Orientations(last).Ok?
    ensures Expand(primers + [last]) == Ok(Expand(primers).value + Orientations(last).value)
  {
    var ps := primers + [last];
    assert ps[..|ps| - 1] == primers;
  }

  /** Expansion preserves list order: the expansion of a + b is a's followed by b's. */
  lemma {:induction false} ExpandAppend(a: seq<Primer>, b: seq<Primer>)
    requires Expand(a).Ok? && Expand(b).Ok?
    ensures Expand(a + b) == Ok(Expand(a).value + Expand(b).value)
    decreases |b|
  {
    if b == [] {
      assert a + b == a;
      assert Expand(a).value + Expand(b).value == Expand(a).value;
    } else {
      var b' := b[..|b| - 1];
      var last := b[|b| - 1];
      assert b == b' + [last];
      assert a + b == (a + b') + [last];
      ExpandOkStep(b);
      OrientationsOkIff(last);
      ExpandAppend(a, b');
      ExpandSnoc(a + b', last);
      ExpandSnoc(b', last);
      Assoc(Expand(a).value, Expand(b').value, Orientations(last).value);
    }
  }

  /**
   * What one listed primer contributes: a forward entry (the normalised
   * primer itself) exactly when the direction is forward or unknown, and a
   * reverse-complement entry (whose reverse complement is the normalised
   * primer) exactly when it is reverse or unknown; forward comes first.
   */
  lemma OrientationsMeaning(p: Primer)
    requires IsDirection(p.direction)
    ensures Orientations(p).Ok?
    ensures var ks := Orientations(p).value;
            var s := NormalizePrimer(p.sequence);
            && 1 <= |ks| <= 2
            && (|ks| == 2 <==> Lower(p.direction) == "unknown")
            && (SearchPrimer(s, "forward") in ks <==> Lower(p.direction) != "reverse")
            && (SearchPrimer(ReverseComplement(s), "reverse_complement") in ks <==> Lower(p.direction) != "forward")
            && (forall k :: k in ks ==> k.orientation == "reverse_complement" ==> ReverseComplement(k.pattern) == s)
            && (|ks| == 2 ==> ks[0].orientation == "forward")
  {
    ReverseComplementInvolution(NormalizePrimer(p.sequence));
  }

  /**
   * Matching is case-insensitive in the direction and insensitive to the
   * primer's surrounding whitespace and case: an already normalised entry
   * expands to the same patterns.
   */
  lemma OrientationsNormalized(p: Primer)
    requires IsDirection(p.direction)
    ensures Orientations(Primer(NormalizePrimer(p.sequence), Lower(p.direction))) == Orientations(p)
  {
    UpperStripIdempotent(p.sequence);
    LowerIdempotent(p.direction);
  }

  /** Primers loaded from a file (directions forward, reverse or unknown) always expand. */
  lemma LoadedPrimersExpand(primers: seq<Primer>)
    requires forall p :: p in primers ==> p.direction in ["forward", "reverse", "unknown"]
    ensures Expand(primers).Ok?
  {
    DirectionWords();
    forall i | 0 <= i < |primers| ensures IsDirection(primers[i].direction) {
      assert primers[i] in primers;
    }
    ExpandSucceedsIff(primers);
  }

  /** The three words the loader writes are recognised. */
  lemma DirectionWords()
    ensures IsDirection("forward") && IsDirection("reverse") && IsDirection("unknown")
  {
    assert Lower("forward") == "forward";
    assert Lower("reverse") == "reverse";
    assert Lower("unknown") == "unknown";
  }

  lemma UnknownExpansionExample()
    ensures Expand([Primer(" aaa\n", "Unknown")]) ==
            Ok([SearchPrimer("AAA", "forward"), SearchPrimer("TTT", "reverse_complement")])
  {
    var p := Primer(" aaa\n", "Unknown");
    assert [p][..0] == [];
    assert Lower("Unknown") == "unknown";
    assert "unknown"[0] != "forward"[0] && "unknown"[0] != "reverse"[0];
    assert ParseDirection("Unknown") == Some(Unknown);
    assert Strip(" aaa\n") == "aaa" by {
      assert " aaa\n"[1..] == "aaa\n";
      assert TrimStart(" aaa\n") == "aaa\n";
      assert "aaa\n"[..3] == "aaa";
      assert TrimEnd("aaa\n") == "aaa";
    }
    assert Upper("aaa") == "AAA";
    assert ReverseComplement("AAA") == "TTT";
    assert NormalizePrimer(p.sequence) == "AAA";
    var ks := [SearchPrimer("AAA", "forward"), SearchPrimer("TTT", "reverse_complement")];
    assert Orientations(p) == Ok(ks);
    assert Expand([p][..0]) == Ok([]);
    assert [] + ks == ks;
  }

  lemma InvalidDirectionExample()
    ensures Expand([Primer("ACGT", "forward"), Primer("ACGT", "sideways")]) ==
            Err(UnknownPrimerDirection("sideways"))
  {
    var ps := [Primer("ACGT", "forward"), Primer("ACGT", "sideways")];
    assert ps[..1] == [Primer("ACGT", "forward")];
    assert [Primer("ACGT", "forward")][..0] == [];
    assert Lower("forward") == "forward";
    assert Lower("sideways") == "sideways";
  }

  // ---------------------------------------------------------------------
  // Scanning
  // ---------------------------------------------------------------------

  /** The records for the 0-based positions ps of pattern k in chromosome `name`. */
  function HitsAt(name: string, k: SearchPrimer, ps: seq<nat>): seq<PrimerHit>
  {
    if ps == [] then []
    else HitsAt(name, k, ps[..|ps| - 1]) + [PrimerHit(name, ps[|ps| - 1] + 1, k.pattern, k.orientation)]
  }

  lemma {:induction false} HitsAtLength(name: string, k: SearchPrimer, ps: seq<nat>)
    ensures |HitsAt(name, k, ps)| == |ps|
    decreases |ps|
  {
    if ps != [] {
      HitsAtLength(name, k, ps[..|ps| - 1]);
    }
  }

  /** The j-th record is the j-th position, made 1-based. */
  lemma {:induction false} HitsAtIndex(name: string, k: SearchPrimer, ps: seq<nat>, j: nat)
    requires j < |ps|
    ensures |HitsAt(name, k, ps)| == |ps|
    ensures HitsAt(name, k, ps)[j] == PrimerHit(name, ps[j] + 1, k.pattern, k.orientation)
    decreases |ps|
  {
    var init := ps[..|ps| - 1];
    HitsAtLength(name, k, ps);
    HitsAtLength(name, k, init);
    if j < |init| {
      HitsAtIndex(name, k, init, j);
    }
  }

  /** All hits in one chromosome: pattern by pattern in expansion order, positions ascending. */
  function ChromosomeHits(rec: SequenceRecord, sp: seq<SearchPrimer>): seq<PrimerHit>
  {
    if sp == [] then []
    else
      var k := sp[|sp| - 1];
      ChromosomeHits(rec, sp[..|sp| - 1]) + HitsAt(rec.name, k, Occurrences(rec.sequence, k.pattern, 0))
  }

  /** The hits of all chromosomes, in the order the chromosomes are given. */
  function AllHits(chromosomes: seq<SequenceRecord>, sp: seq<SearchPrimer>): seq<PrimerHit>
  {
    if chromosomes == [] then []
    else AllHits(chromosomes[..|chromosomes| - 1], sp) + ChromosomeHits(chromosomes[|chromosomes| - 1], sp)
  }

  function KeyOf(h: PrimerHit): SearchPrimer
  {
    SearchPrimer(h.primer, h.direction)
  }

  /** How many of the hits carry key k. */
  function CountKey(hs: seq<PrimerHit>, k: SearchPrimer): nat
  {
    if hs == [] then 0
    else CountKey(hs[..|hs| - 1], k) + (if KeyOf(hs[|hs| - 1]) == k then 1 else 0)
  }

  function OutputFor(rec: SequenceRecord, sp: seq<SearchPrimer>): ChromosomeOutput
  {
    var hits := ChromosomeHits(rec, sp);
    if hits == [] then NoMatch(rec.name) else Saved(rec.name, hits)
  }

  lemma {:induction false} CountKeyAppend(a: seq<PrimerHit>, b: seq<PrimerHit>, k: SearchPrimer)
    ensures CountKey(a + b, k) == CountKey(a, k) + CountKey(b, k)
    decreases |b|
  {
    if b == [] {
      assert a + b == a;
    } else {
      var b' := b[..|b| - 1];
      assert (a + b)[..|a + b| - 1] == a + b';
      CountKeyAppend(a, b', k);
    }
  }

  lemma {:induction false} CountHitsAt(name: string, k0: SearchPrimer, ps: seq<nat>, k: SearchPrimer)
    ensures CountKey(HitsAt(name, k0, ps), k) == if k == k0 then |ps| else 0
    decreases |ps|
  {
    if ps != [] {
      var init := ps[..|ps| - 1];
      CountHitsAt(name, k0, init, k);
      var hs := HitsAt(name, k0, ps);
      assert hs == HitsAt(name, k0, init) + [hs[|hs| - 1]];
      assert hs[..|hs| - 1] == HitsAt(name, k0, init);
    }
  }

  lemma HitsAtSnoc(name: string, k: SearchPrimer, ps: seq<nat>, p: nat)
    ensures HitsAt(name, k, ps + [p]) == HitsAt(name, k, ps) + [PrimerHit(name, p + 1, k.pattern, k.orientation)]
  {
    assert (ps + [p])[..|ps|] == ps;
  }

  /**
   * The state of the inner scan for pattern k: the positions visited so
   * far, one hit record and one count per visited position.
   */
  ghost predicate ScanLoop(rec: SequenceRecord, k: SearchPrimer, counter: map<SearchPrimer, nat>,
                           visited: seq<nat>, hits: seq<PrimerHit>, counter': map<SearchPrimer, nat>)
  {
    && k in counter
    && hits == HitsAt(rec.name, k, visited)
    && |hits| == |visited|
    && counter' == counter[k := counter[k] + |visited|]
  }

  lemma ScanLoopNext(rec: SequenceRecord, k: SearchPrimer, counter: map<SearchPrimer, nat>,
                     visited: seq<nat>, idx: nat, hits: seq<PrimerHit>, counter': map<SearchPrimer, nat>)
    requires ScanLoop(rec, k, counter, visited, hits, counter')
    ensures ScanLoop(rec, k, counter, visited + [idx],
                     hits + [PrimerHit(rec.name, idx + 1, k.pattern, k.orientation)],
                     counter'[k := counter'[k] + 1])
  {
    HitsAtSnoc(rec.name, k, visited, idx);
    BumpStep(counter, k, counter[k] + |visited|);
  }

  lemma ScanLoopStart(rec: SequenceRecord, k: SearchPrimer, counter: map<SearchPrimer, nat>)
    requires k in counter
    ensures ScanLoop(rec, k, counter, [], [], counter)
  {
    assert counter == counter[k := counter[k] + 0];
  }

  /** Once find returns -1 the visited positions are all the occurrences. */
  lemma ScanLoopDone(rec: SequenceRecord, k: SearchPrimer, counter: map<SearchPrimer, nat>,
                     visited: seq<nat>, hits: seq<PrimerHit>, counter': map<SearchPrimer, nat>)
    requires ScanState(rec.sequence, k.pattern, visited, -1)
    requires ScanLoop(rec, k, counter, visited, hits, counter')
    ensures hits == HitsAt(rec.name, k, Occurrences(rec.sequence, k.pattern, 0))
    ensures counter' == counter[k := counter[k] + |hits|]
  {
  }

  /** Incrementing an entry that holds c makes it c + 1. */
  lemma BumpStep(m: map<SearchPrimer, nat>, k: SearchPrimer, c: nat)
    ensures m[k := c][k := m[k := c][k] + 1] == m[k := c + 1]
  {
  }

  /**
   * The inner `while idx != -1` loop for one pattern: each hit found by
   * find / find(idx + 1) is appended and bumps the pattern's counter once.
   */
  method ScanOccurrences(rec: SequenceRecord, k: SearchPrimer, counter: map<SearchPrimer, nat>)
    returns (hits: seq<PrimerHit>, counter': map<SearchPrimer, nat>)
    requires k in counter
    ensures hits == HitsAt(rec.name, k, Occurrences(rec.sequence, k.pattern, 0))
    ensures counter' == counter[k := counter[k] + |hits|]
  {
    var chrseq := rec.sequence;
    hits, counter' := [], counter;
    ghost var visited: seq<nat> := [];
    var idx := Find(chrseq, k.pattern, 0);
    ScanStart(chrseq, k.pattern);
    ScanLoopStart(rec, k, counter);
    while idx != -1
      invariant ScanState(chrseq, k.pattern, visited, idx)
      invariant ScanLoop(rec, k, counter, visited, hits, counter')
      decreases if idx == -1 then 0 else |chrseq| + 1 - idx
    {
      ScanNext(chrseq, k.pattern, visited, idx);
      ScanLoopNext(rec, k, counter, visited, idx, hits, counter');
      hits := hits + [PrimerHit(rec.name, idx + 1, k.pattern, k.orientation)];
      counter' := counter'[k := counter'[k] + 1];
      visited := visited + [idx];
      idx := Find(chrseq, k.pattern, idx + 1);
    }
    ScanLoopDone(rec, k, counter, visited, hits, counter');
  }

  /**
   * now is base after counting the hits hs: the same keys, and each key's
   * entry grown by the number of hits that carry it.
   */
  ghost predicate Tally(base: map<SearchPrimer, nat>, now: map<SearchPrimer, nat>, hs: seq<PrimerHit>)
  {
    && now.Keys == base.Keys
    && forall k :: k in base ==> now[k] == base[k] + CountKey(hs, k)
  }

  lemma TallyNone(m: map<SearchPrimer, nat>)
    ensures Tally(m, m, [])
  {
  }

  lemma TallyAppend(base: map<SearchPrimer, nat>, mid: map<SearchPrimer, nat>, now: map<SearchPrimer, nat>,
                    a: seq<PrimerHit>, b: seq<PrimerHit>)
    requires Tally(base, mid, a) && Tally(mid, now, b)
    ensures Tally(base, now, a + b)
  {
    forall k | k in base ensures now[k] == base[k] + CountKey(a + b, k) {
      CountKeyAppend(a, b, k);
    }
  }

  /** The counter after the scan of one pattern has counted exactly its hits. */
  lemma TallyHits(m: map<SearchPrimer, nat>, name: string, key: SearchPrimer, ps: seq<nat>)
    requires key in m
    ensures Tally(m, m[key := m[key] + |HitsAt(name, key, ps)|], HitsAt(name, key, ps))
  {
    var hs := HitsAt(name, key, ps);
    HitsAtLength(name, key, ps);
    var m' := m[key := m[key] + |ps|];
    assert m'.Keys == m.Keys;
    forall k | k in m ensures m'[k] == m[k] + CountKey(hs, k) {
      CountHitsAt(name, key, ps, k);
      if k == key {
        assert m'[k] == m[k] + |ps|;
      } else {
        assert m'[k] == m[k];
      }
    }
  }

  /** The loop over search_primers for one chromosome. */
  method ScanChromosome(rec: SequenceRecord, sp: seq<SearchPrimer>, counter: map<SearchPrimer, nat>)
    returns (results: seq<PrimerHit>, counter': map<SearchPrimer, nat>)
    requires forall k :: k in sp ==> k in counter
    ensures results == ChromosomeHits(rec, sp)
    ensures Tally(counter, counter', results)
  {
    results, counter' := [], counter;
    TallyNone(counter);
    for j := 0 to |sp|
      invariant results == ChromosomeHits(rec, sp[..j])
      invariant Tally(counter, counter', results)
    {
      var key := sp[j];
      var hits, next := ScanOccurrences(rec, key, counter');
      TallyHits(counter', rec.name, key, Occurrences(rec.sequence, key.pattern, 0));
      TallyAppend(counter, counter', next, results, hits);
      assert sp[..j + 1][..j] == sp[..j];
      results, counter' := results + hits, next;
    }
    assert sp[..|sp|] == sp;
  }

  /** What the chromosome loop has produced after the first i records. */
  ghost predicate AllLoop(chromosomes: seq<SequenceRecord>, sp: seq<SearchPrimer>, counter0: map<SearchPrimer, nat>,
                          i: nat, outputs: seq<ChromosomeOutput>, counter: map<SearchPrimer, nat>, allHits: seq<PrimerHit>)
  {
    && i <= |chromosomes|
    && allHits == AllHits(chromosomes[..i], sp)
    && Tally(counter0, counter, allHits)
    && |outputs| == i
    && forall j :: 0 <= j < i ==> outputs[j] == OutputFor(chromosomes[j], sp)
  }

  lemma AllLoopNext(chromosomes: seq<SequenceRecord>, sp: seq<SearchPrimer>, counter0: map<SearchPrimer, nat>,
                    i: nat, outputs: seq<ChromosomeOutput>, counter: map<SearchPrimer, nat>, allHits: seq<PrimerHit>,
                    out: ChromosomeOutput, results: seq<PrimerHit>, next: map<SearchPrimer, nat>)
    requires i < |chromosomes| && AllLoop(chromosomes, sp, counter0, i, outputs, counter, allHits)
    requires results == ChromosomeHits(chromosomes[i], sp) && Tally(counter, next, results)
    requires out == OutputFor(chromosomes[i], sp)
    ensures AllLoop(chromosomes, sp, counter0, i + 1, outputs + [out], next, allHits + results)
  {
    TallyAppend(counter0, counter, next, allHits, results);
    assert chromosomes[..i + 1][..i] == chromosomes[..i];
  }

  /**
   * The loop over the chromosome records: each is scanned for every
   * pattern and gets a results file when it has a hit, a "no match" line
   * otherwise; the counter accumulates over all of them.
   */
  method ScanAll(chromosomes: seq<SequenceRecord>, sp: seq<SearchPrimer>, counter0: map<SearchPrimer, nat>)
    returns (outputs: seq<ChromosomeOutput>, counter: map<SearchPrimer, nat>)
    requires forall k :: k in counter0 <==> k in sp
    requires forall k :: k in counter0 ==> counter0[k] == 0
    ensures forall k :: k in counter <==> k in sp
    ensures forall k :: k in counter ==> counter[k] == CountKey(AllHits(chromosomes, sp), k)
    ensures |outputs| == |chromosomes|
    ensures forall j :: 0 <= j < |chromosomes| ==> outputs[j] == OutputFor(chromosomes[j], sp)
  {
    outputs, counter := [], counter0;
    ghost var allHits: seq<PrimerHit> := [];
    TallyNone(counter0);
    for i := 0 to |chromosomes|
      invariant AllLoop(chromosomes, sp, counter0, i, outputs, counter, allHits)
      invariant forall k :: k in counter <==> k in sp
    {
      var results, next := ScanChromosome(chromosomes[i], sp, counter);
      var out: ChromosomeOutput;
      if results != [] {
        out := Saved(chromosomes[i].name, results);
      } else {
        out := NoMatch(chromosomes[i].name);
      }
      AllLoopNext(chromosomes, sp, counter0, i, outputs, counter, allHits, out, results, next);
      outputs := outputs + [out];
      allHits := allHits + results;
      counter := next;
    }
    assert chromosomes[..|chromosomes|] == chromosomes;
  }

  // ---------------------------------------------------------------------
  // Multiple-match warning
  // ---------------------------------------------------------------------

  /** The warning lines: the keys with a count above 1, in counter order. */
  function Warnings(order: seq<SearchPrimer>, counter: map<SearchPrimer, nat>): seq<Warning>
    requires forall k :: k in order ==> k in counter
  {
    if order == [] then []
    else
      var k := order[|order| - 1];
      Warnings(order[..|order| - 1], counter)
      + (if counter[k] > 1 then [Warning(k.pattern, k.orientation, counter[k])] else [])
  }

  /** The warning loop over the counter in insertion order: one warning per count above 1. */
  method MultipleMatchWarnings(order: seq<SearchPrimer>, counter: map<SearchPrimer, nat>)
    returns (warnings: seq<Warning>, multiMatchFound: bool)
    requires forall k :: k in order ==> k in counter
    ensures warnings == Warnings(order, counter)
    ensures multiMatchFound <==> exists i :: 0 <= i < |order| && counter[order[i]] > 1
  {
    warnings, multiMatchFound := [], false;
    for i := 0 to |order|
      invariant warnings == Warnings(order[..i], counter)
      invariant multiMatchFound <==> exists j :: 0 <= j < i && counter[order[j]] > 1
    {
      var key := order[i];
      if counter[key] > 1 {
        warnings := warnings + [Warning(key.pattern, key.orientation, counter[key])];
        multiMatchFound := true;
      }
      assert order[..i + 1][..i] == order[..i];
    }
    assert order[..|order|] == order;
  }

  /** A key is warned about exactly when its count exceeds 1; a count of 0 or 1 never is. */
  lemma {:induction false} WarningsIff(order: seq<SearchPrimer>, counter: map<SearchPrimer, nat>, w: Warning)
    requires forall k :: k in order ==> k in counter
    ensures w in Warnings(order, counter) <==>
              var k := SearchPrimer(w.primer, w.direction);
              k in order && counter[k] == w.count && w.count > 1
  {
    if order != [] {
      var init := order[..|order| - 1];
      WarningsIff(init, counter, w);
      assert order == init + [order[|order| - 1]];
    }
  }

  /** "All primers are specific" exactly when no key's count exceeds 1. */
  lemma {:induction false} NoWarningsIff(order: seq<SearchPrimer>, counter: map<SearchPrimer, nat>)
    requires forall k :: k in order ==> k in counter
    ensures Warnings(order, counter) == [] <==> forall k :: k in order ==> counter[k] <= 1
  {
    if order != [] {
      var init := order[..|order| - 1];
      NoWarningsIff(init, counter);
      assert order == init + [order[|order| - 1]];
    }
  }

  // ---------------------------------------------------------------------
  // The whole check
  // ---------------------------------------------------------------------

  /** rep is what check_primers produces for these chromosomes and expanded patterns. */
  ghost predicate IsReport(rep: PrimerReport, chromosomes: seq<SequenceRecord>, sp: seq<SearchPrimer>)
  {
    && rep.searchPrimers == sp
    && |rep.outputs| == |chromosomes|
    && (forall i :: 0 <= i < |chromosomes| ==> rep.outputs[i] == OutputFor(chromosomes[i], sp))
    && (forall k :: k in rep.counter <==> k in sp)
    && (forall k :: k in rep.counter ==> rep.counter[k] == CountKey(AllHits(chromosomes, sp), k))
    && rep.order == Dedup(sp)
    && (forall k :: k in rep.order ==> k in rep.counter)
    && rep.warnings == Warnings(rep.order, rep.counter)
    && (rep.allSpecific <==> forall k :: k in rep.counter ==> rep.counter[k] <= 1)
  }

  /**
   * check_primers over chromosome records already loaded, in the given
   * order. Either the expansion fails and nothing is scanned, or every
   * chromosome is scanned for every pattern and the counter and warnings
   * are derived from the hits.
   */
  method CheckPrimers(chromosomes: seq<SequenceRecord>, primers: seq<Primer>)
    returns (r: Result<PrimerReport, PrimerError>)
    ensures r.Err? <==> Expand(primers).Err?
    ensures r.Err? ==> r.error == Expand(primers).error
    ensures r.Ok? ==> Expand(primers).Ok? && IsReport(r.value, chromosomes, Expand(primers).value)
  {
    var expansion := ExpandPrimers(primers);
    if expansion.Err? {
      return Err(expansion.error);
    }
    var sp := expansion.value.searchPrimers;
    var order := expansion.value.order;
    var outputs, counter := ScanAll(chromosomes, sp, expansion.value.counter);
    DedupFacts(sp);
    var warnings, multiMatchFound := MultipleMatchWarnings(order, counter);
    ReportIntro(chromosomes, sp, outputs, counter, order, warnings, multiMatchFound);
    return Ok(PrimerReport(sp, outputs, counter, order, warnings, !multiMatchFound));
  }

  /** The pieces CheckPrimers computes make up a report. */
  lemma ReportIntro(chromosomes: seq<SequenceRecord>, sp: seq<SearchPrimer>, outputs: seq<ChromosomeOutput>,
                    counter: map<SearchPrimer, nat>, order: seq<SearchPrimer>, warnings: seq<Warning>,
                    multiMatchFound: bool)
    requires forall k :: k in counter <==> k in sp
    requires forall k :: k in counter ==> counter[k] == CountKey(AllHits(chromosomes, sp), k)
    requires |outputs| == |chromosomes|
    requires forall j :: 0 <= j < |chromosomes| ==> outputs[j] == OutputFor(chromosomes[j], sp)
    requires order == Dedup(sp) && forall k :: k in order ==> k in counter
    requires warnings == Warnings(order, counter)
    requires multiMatchFound <==> exists i :: 0 <= i < |order| && counter[order[i]] > 1
    ensures IsReport(PrimerReport(sp, outputs, counter, order, warnings, !multiMatchFound), chromosomes, sp)
  {
    DedupFacts(sp);
  }

  // ---------------------------------------------------------------------
  // Properties of the reported hits
  // ---------------------------------------------------------------------

  /** Every hit is a real occurrence: chrseq[Position-1 .. Position-1+|primer|] is the primer. */
  lemma {:induction false} ChromosomeHitsSound(rec: SequenceRecord, sp: seq<SearchPrimer>, h: PrimerHit)
    requires h in ChromosomeHits(rec, sp)
    ensures h.chromosome == rec.name && h.position >= 1
    ensures OccursAt(rec.sequence, h.primer, h.position - 1)
    ensures KeyOf(h) in sp
  {
    var init := sp[..|sp| - 1];
    var k := sp[|sp| - 1];
    if h in ChromosomeHits(rec, init) {
      ChromosomeHitsSound(rec, init, h);
    } else {
      var ps := Occurrences(rec.sequence, k.pattern, 0);
      OccurrencesFacts(rec.sequence, k.pattern, 0);
      var hs := HitsAt(rec.name, k, ps);
      assert ChromosomeHits(rec, sp) == ChromosomeHits(rec, init) + hs;
      assert h in hs;
      var i :| 0 <= i < |hs| && hs[i] == h;
      HitsAtLength(rec.name, k, ps);
      HitsAtIndex(rec.name, k, ps, i);
      assert h == PrimerHit(rec.name, ps[i] + 1, k.pattern, k.orientation);
      OccurrenceAt(rec.sequence, k.pattern, i);
      assert h.position - 1 == ps[i];
    }
  }

  lemma OccurrenceAt(h: string, n: string, i: nat)
    requires i < |Occurrences(h, n, 0)|
    ensures OccursAt(h, n, Occurrences(h, n, 0)[i])
  {
    OccurrencesFacts(h, n, 0);
  }

  /** Every occurrence of every searched pattern is reported. */
  lemma {:induction false} ChromosomeHitsComplete(rec: SequenceRecord, sp: seq<SearchPrimer>, k: SearchPrimer, i: nat)
    requires k in sp && OccursAt(rec.sequence, k.pattern, i)
    ensures PrimerHit(rec.name, i + 1, k.pattern, k.orientation) in ChromosomeHits(rec, sp)
  {
    var init := sp[..|sp| - 1];
    var last := sp[|sp| - 1];
    if k == last {
      var ps := Occurrences(rec.sequence, k.pattern, 0);
      OccurrencesFacts(rec.sequence, k.pattern, 0);
      assert i in ps;
      var j :| 0 <= j < |ps| && ps[j] == i;
      HitsAtIndex(rec.name, k, ps, j);
      assert HitsAt(rec.name, k, ps)[j] == PrimerHit(rec.name, i + 1, k.pattern, k.orientation);
      assert ChromosomeHits(rec, sp) == ChromosomeHits(rec, init) + HitsAt(rec.name, k, ps);
    } else {
      assert k in init;
      ChromosomeHitsComplete(rec, init, k, i);
    }
  }

  /** The hits of one pattern in one chromosome ascend strictly by position, so none is repeated. */
  lemma PatternHitsAscending(rec: SequenceRecord, k: SearchPrimer, j1: nat, j2: nat)
    requires j1 < j2 < |HitsAt(rec.name, k, Occurrences(rec.sequence, k.pattern, 0))|
    ensures HitsAt(rec.name, k, Occurrences(rec.sequence, k.pattern, 0))[j1].position
            < HitsAt(rec.name, k, Occurrences(rec.sequence, k.pattern, 0))[j2].position
  {
    var ps := Occurrences(rec.sequence, k.pattern, 0);
    HitsAtLength(rec.name, k, ps);
    HitsAtIndex(rec.name, k, ps, j1);
    HitsAtIndex(rec.name, k, ps, j2);
    OccurrencesAscending(rec.sequence, k.pattern, 0);
  }

  /** A results file is written for a chromosome exactly when some pattern occurs in it. */
  lemma OutputIffHit(rec: SequenceRecord, sp: seq<SearchPrimer>)
    ensures OutputFor(rec, sp).Saved? <==> exists k, i :: k in sp && OccursAt(rec.sequence, k.pattern, i)
  {
    if OutputFor(rec, sp).Saved? {
      var h := ChromosomeHits(rec, sp)[0];
      ChromosomeHitsSound(rec, sp, h);
      assert KeyOf(h) in sp && OccursAt(rec.sequence, KeyOf(h).pattern, h.position - 1);
    }
    if exists k, i :: k in sp && OccursAt(rec.sequence, k.pattern, i) {
      var k, i :| k in sp && OccursAt(rec.sequence, k.pattern, i);
      ChromosomeHitsComplete(rec, sp, k, i);
    }
  }

  /** How many times key k is listed among the search patterns. */
  function Listings(sp: seq<SearchPrimer>, k: SearchPrimer): nat
  {
    if sp == [] then 0 else Listings(sp[..|sp| - 1], k) + (if sp[|sp| - 1] == k then 1 else 0)
  }

  /** The occurrences of a pattern summed over all chromosomes. */
  function TotalOccurrences(chromosomes: seq<SequenceRecord>, pattern: string): nat
  {
    if chromosomes == [] then 0
    else TotalOccurrences(chromosomes[..|chromosomes| - 1], pattern)
         + |Occurrences(chromosomes[|chromosomes| - 1].sequence, pattern, 0)|
  }

  /** m copies of n added up, that is m * n (TimesIsProduct). */
  function Times(m: nat, n: nat): nat
  {
    if m == 0 then 0 else Times(m - 1, n) + n
  }

  lemma {:induction false} TimesIsProduct(m: nat, n: nat)
    ensures Times(m, n) == m * n
  {
    if m > 0 {
      TimesIsProduct(m - 1, n);
      assert (m - 1) * n + n == m * n;
    }
  }

  lemma {:induction false} TimesZero(m: nat)
    ensures Times(m, 0) == 0
  {
    if m > 0 {
      TimesZero(m - 1);
    }
  }

  lemma {:induction false} TimesAdd(m: nat, a: nat, b: nat)
    ensures Times(m, a) + Times(m, b) == Times(m, a + b)
  {
    if m > 0 {
      TimesAdd(m - 1, a, b);
    }
  }

  lemma {:induction false} ChromosomeCount(rec: SequenceRecord, sp: seq<SearchPrimer>, k: SearchPrimer)
    ensures CountKey(ChromosomeHits(rec, sp), k) == Times(Listings(sp, k), |Occurrences(rec.sequence, k.pattern, 0)|)
  {
    if sp != [] {
      var init := sp[..|sp| - 1];
      var last := sp[|sp| - 1];
      var ps := Occurrences(rec.sequence, last.pattern, 0);
      var before, hs := ChromosomeHits(rec, init), HitsAt(rec.name, last, ps);
      var m, n := Listings(init, k), |Occurrences(rec.sequence, k.pattern, 0)|;
      calc {
        CountKey(ChromosomeHits(rec, sp), k);
        { assert ChromosomeHits(rec, sp) == before + hs; }
        CountKey(before + hs, k);
        { CountKeyAppend(before, hs, k); }
        CountKey(before, k) + CountKey(hs, k);
        { ChromosomeCount(rec, init, k); CountHitsAt(rec.name, last, ps, k); }
        Times(m, n) + (if k == last then n else 0);
        { assert Listings(sp, k) == m + (if k == last then 1 else 0); }
        Times(Listings(sp, k), n);
      }
    }
  }

  lemma {:induction false} CounterSum(chromosomes: seq<SequenceRecord>, sp: seq<SearchPrimer>, k: SearchPrimer)
    ensures CountKey(AllHits(chromosomes, sp), k) == Times(Listings(sp, k), TotalOccurrences(chromosomes, k.pattern))
  {
    if chromosomes == [] {
      TimesZero(Listings(sp, k));
    } else {
      var init := chromosomes[..|chromosomes| - 1];
      var last := chromosomes[|chromosomes| - 1];
      var m, a, b := Listings(sp, k), TotalOccurrences(init, k.pattern), |Occurrences(last.sequence, k.pattern, 0)|;
      var before, now := AllHits(init, sp), ChromosomeHits(last, sp);
      calc {
        CountKey(AllHits(chromosomes, sp), k);
        { assert AllHits(chromosomes, sp) == before + now; }
        CountKey(before + now, k);
        { CountKeyAppend(before, now, k); }
        CountKey(before, k) + CountKey(now, k);
        { CounterSum(init, sp, k); ChromosomeCount(last, sp, k); }
        Times(m, a) + Times(m, b);
        { TimesAdd(m, a, b); }
        Times(m, a + b);
        { assert TotalOccurrences(chromosomes, k.pattern) == a + b; }
        Times(m, TotalOccurrences(chromosomes, k.pattern));
      }
    }
  }

  /**
   * The final counter value of a key: its number of listings among the
   * expanded patterns times its number of occurrences over all chromosomes.
   * A primer listed twice is therefore counted twice per occurrence.
   */
  lemma CounterValue(chromosomes: seq<SequenceRecord>, sp: seq<SearchPrimer>, k: SearchPrimer)
    ensures CountKey(AllHits(chromosomes, sp), k) == Listings(sp, k) * TotalOccurrences(chromosomes, k.pattern)
  {
    CounterSum(chromosomes, sp, k);
    TimesIsProduct(Listings(sp, k), TotalOccurrences(chromosomes, k.pattern));
  }

  /** Two listings of one primer, in either case, expand to the same key twice. */
  lemma DuplicateExpansionExample()
    ensures Expand([Primer("ACG", "forward"), Primer("acg", "forward")]) ==
            Ok([SearchPrimer("ACG", "forward"), SearchPrimer("ACG", "forward")])
  {
    var k := SearchPrimer("ACG", "forward");
    var p1, p2 := Primer("ACG", "forward"), Primer("acg", "forward");
    assert Lower("forward") == "forward";
    assert Strip("ACG") == "ACG" && Strip("acg") == "acg" by {
      assert IsStripped("ACG") && IsStripped("acg");
      StripFacts("ACG");
      StripFacts("acg");
    }
    assert Upper("acg") == "ACG" && Upper("ACG") == "ACG";
    assert Orientations(p1) == Ok([k]);
    assert Orientations(p2) == Ok([k]);
    assert Expand([p1]) == Ok([k]) by {
      assert [p1][..0] == [];
      assert Expand([p1][..0]) == Ok([]);
      assert [] + [k] == [k];
    }
    assert [p1, p2] == [p1] + [p2];
    ExpandSnoc([p1], p2);
    assert [k] + [k] == [k, k];
  }

  /** A key listed twice is counted twice for its one occurrence. */
  lemma DuplicateCountExample()
    ensures CountKey(AllHits([SequenceRecord("c", "ACG")],
                             [SearchPrimer("ACG", "forward"), SearchPrimer("ACG", "forward")]),
                     SearchPrimer("ACG", "forward")) == 2
  {
    var k := SearchPrimer("ACG", "forward");
    var rec := SequenceRecord("c", "ACG");
    assert Occurrences("ACG", "ACG", 0) == [0] by {
      assert OccursAt("ACG", "ACG", 0);
      assert Find("ACG", "ACG", 0) == 0;
      assert Find("ACG", "ACG", 1) == -1;
    }
    assert Listings([k, k], k) == 2 by {
      assert [k, k][..1] == [k] && [k][..0] == [];
      assert Listings([k], k) == 1;
    }
    assert TotalOccurrences([rec], k.pattern) == 1 by { assert [rec][..0] == []; }
    CounterValue([rec], [k, k], k);
  }

  /**
   * A primer listed twice is flagged even when it occurs once: both
   * listings share one counter key, and each scans the genome.
   */
  lemma DuplicateListingExample()
    ensures var sp := [SearchPrimer("ACG", "forward"), SearchPrimer("ACG", "forward")];
            && Expand([Primer("ACG", "forward"), Primer("acg", "forward")]) == Ok(sp)
            && CountKey(AllHits([SequenceRecord("c", "ACG")], sp), SearchPrimer("ACG", "forward")) == 2
  {
    DuplicateExpansionExample();
    DuplicateCountExample();
  }
}
