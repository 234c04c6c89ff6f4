/**
 * Exact substring search as the tools do it: Python's str.find, and the
 * positions an overlapping `find` / `find(idx + 1)` scan visits.
 */
module Matching {

  /** The needle n occurs in the haystack h starting at 0-based index i. */
  predicate OccursAt(h: string, n: string, i: int)
  {
    0 <= i && i + |n| <= |h| && h[i..i + |n|] == n
  }

  /**
   * Python's h.find(n, start): the smallest index i >= start at which n
   * occurs, or -1 when there is none (see FindFirst). An empty needle occurs
   * at every index up to |h|, so find("", k) is k for k <= |h| and -1 beyond.
   */
  function Find(h: string, n: string, start: nat): (r: int)
    ensures r == -1 || (start <= r && OccursAt(h, n, r))
    decreases |h| - start
  {
    if start + |n| > |h| then -1
    else if OccursAt(h, n, start) then start
    else Find(h, n, start + 1)
  }

  /**
   * find returns the first occurrence: whenever n occurs at some i >= start,
   * find(n, start) is not -1 and is at most i.
   */
  lemma {:induction false} FindFirst(h: string, n: string, start: nat, i: nat)
    requires start <= i && OccursAt(h, n, i)
    ensures Find(h, n, start) != -1 && Find(h, n, start) <= i
    decreases |h| - start
  {
    if start < i && !OccursAt(h, n, start) {
      FindFirst(h, n, start + 1, i);
    }
  }

  /**
   * Every index at or after `from` where n occurs, in the order a scan that
   * restarts `find` one past each hit visits them (see OccurrencesFacts).
   */
  function Occurrences(h: string, n: string, from: nat): seq<nat>
    decreases |h| + 1 - from
  {
    var f := Find(h, n, from);
    if f == -1 then [] else [f] + Occurrences(h, n, f + 1)
  }

  /** Each listed index is a match at or after `from`. */
  lemma {:induction false} OccurrencesSound(h: string, n: string, from: nat)
    ensures forall k :: 0 <= k < |Occurrences(h, n, from)| ==>
              from <= Occurrences(h, n, from)[k] && OccursAt(h, n, Occurrences(h, n, from)[k])
    decreases |h| + 1 - from
  {
    var f := Find(h, n, from);
    if f != -1 {
      OccurrencesSound(h, n, f + 1);
      assert Occurrences(h, n, from) == [f] + Occurrences(h, n, f + 1);
    }
  }

  /** Every match at or after `from` is listed. */
  lemma {:induction false} OccurrencesComplete(h: string, n: string, from: nat, i: nat)
    requires from <= i && OccursAt(h, n, i)
    ensures i in Occurrences(h, n, from)
    decreases |h| + 1 - from
  {
    var f := Find(h, n, from);
    FindFirst(h, n, from, i);
    assert Occurrences(h, n, from) == [f] + Occurrences(h, n, f + 1);
    if i != f {
      OccurrencesComplete(h, n, f + 1, i);
    }
  }

  /** The listed indices strictly ascend, so none is listed twice. */
  lemma {:induction false} OccurrencesAscending(h: string, n: string, from: nat)
    ensures forall j, k :: 0 <= j < k < |Occurrences(h, n, from)| ==>
              Occurrences(h, n, from)[j] < Occurrences(h, n, from)[k]
    decreases |h| + 1 - from
  {
    var f := Find(h, n, from);
    if f != -1 {
      OccurrencesSound(h, n, f + 1);
      OccurrencesAscending(h, n, f + 1);
      assert Occurrences(h, n, from) == [f] + Occurrences(h, n, f + 1);
    }
  }

  /**
   * The occurrences are sound (each is a match at or after `from`),
   * exhaustive (every such match is listed) and strictly ascending, so each
   * occurrence appears exactly once, overlapping ones included.
   */
  lemma OccurrencesFacts(h: string, n: string, from: nat)
    ensures var ps := Occurrences(h, n, from);
            && (forall k :: 0 <= k < |ps| ==> from <= ps[k] && OccursAt(h, n, ps[k]))
            && (forall i :: from <= i && OccursAt(h, n, i) ==> i in ps)
            && (forall j, k :: 0 <= j < k < |ps| ==> ps[j] < ps[k])
  {
    OccurrencesSound(h, n, from);
    OccurrencesAscending(h, n, from);
    forall i | from <= i && OccursAt(h, n, i) ensures i in Occurrences(h, n, from) {
      OccurrencesComplete(h, n, from, i);
    }
  }

  /**
   * The invariant of the `while idx != -1` scan: the positions visited so
   * far, then idx, then the occurrences after idx, are all the occurrences.
   */
  ghost predicate ScanState(h: string, n: string, visited: seq<nat>, idx: int)
  {
    if idx == -1 then visited == Occurrences(h, n, 0)
    else 0 <= idx <= |h| && visited + [idx] + Occurrences(h, n, idx + 1) == Occurrences(h, n, 0)
  }

  lemma ScanStart(h: string, n: string)
    ensures ScanState(h, n, [], Find(h, n, 0))
  {
    if Find(h, n, 0) != -1 {
      assert [] + [Find(h, n, 0)] == [Find(h, n, 0)];
    }
  }

  /** Searching again from the position after the current hit keeps the scan invariant. */
  lemma ScanNext(h: string, n: string, visited: seq<nat>, idx: int)
    requires idx != -1 && ScanState(h, n, visited, idx)
    ensures ScanState(h, n, visited + [idx], Find(h, n, idx + 1))
  {
    var next := Find(h, n, idx + 1);
    if next != -1 {
      assert visited + [idx] + ([next] + Occurrences(h, n, next + 1))
          == visited + [idx] + [next] + Occurrences(h, n, next + 1);
    } else {
      assert visited + [idx] + [] == visited + [idx];
    }
  }

  /** Overlapping matches are all found: "AA" occurs in "AAAA" at 0, 1 and 2. */
  lemma OverlapExample()
    ensures Occurrences("AAAA", "AA", 0) == [0, 1, 2]
  {
    var h := "AAAA";
    assert OccursAt(h, "AA", 0) && OccursAt(h, "AA", 1) && OccursAt(h, "AA", 2);
    assert Find(h, "AA", 3) == -1;
    assert Occurrences(h, "AA", 3) == [];
    assert Occurrences(h, "AA", 2) == [2];
    assert Occurrences(h, "AA", 1) == [1, 2];
  }

  /** Overlapping occurrences that are not adjacent: "ATA" in "ATATA" at 0 and 2. */
  lemma SpacedOverlapExample()
    ensures Occurrences("ATATA", "ATA", 0) == [0, 2]
  {
    var h := "ATATA";
    assert OccursAt(h, "ATA", 0) && OccursAt(h, "ATA", 2);
    assert !OccursAt(h, "ATA", 1) by {
      assert h[1..4][0] == 'T' != "ATA"[0];
    }
    assert Find(h, "ATA", 3) == -1;
    assert Occurrences(h, "ATA", 3) == [];
    assert Find(h, "ATA", 1) == 2;
    assert Occurrences(h, "ATA", 1) == [2];
  }

  /** The empty needle is not rejected: it matches at each of the |h| + 1 indices. */
  lemma {:induction false} EmptyNeedleEverywhere(h: string, from: nat)
    requires from <= |h| + 1
    ensures |Occurrences(h, "", from)| == |h| + 1 - from
    ensures forall k :: 0 <= k < |h| + 1 - from ==> Occurrences(h, "", from)[k] == from + k
    decreases |h| - from
  {
    if from <= |h| {
      assert OccursAt(h, "", from);
      EmptyNeedleEverywhere(h, from + 1);
    }
  }

  /** A needle longer than the haystack yields no occurrence, not an error. */
  lemma LongNeedle(h: string, n: string)
    requires |n| > |h|
    ensures Occurrences(h, n, 0) == []
  {
  }
}
