/**
  Redelivery of a log of overwrites.

  Entry `i` of a log overwrites the cells in `writes[i]`.  A delivery visits the
  entries in any order a resumable stream allows: it may fall back to any earlier
  entry as often as it likes, but never skips one it has not reached.  The module
  shows that such a delivery, once it ends on the last entry, leaves exactly what
  one pass over the log leaves.
*/
module Overlay {

  /** A delivery starts at entry 0 and moves forward by at most one entry at a time. */
  ghost predicate GapFree(visits: seq<nat>, entries: nat) {
    && (forall i :: 0 <= i < |visits| ==> visits[i] < entries)
    && (|visits| > 0 ==> visits[0] == 0)
    && (forall i :: 0 < i < |visits| ==> visits[i] <= visits[i - 1] + 1)
  }

  ghost predicate Complete(visits: seq<nat>, entries: nat) {
    && GapFree(visits, entries)
    && (entries > 0 ==> |visits| > 0 && visits[|visits| - 1] == entries - 1)
  }

  /** The cells written by entries `lo..hi`, later entries winning. */
  ghost function Composite<K, V>(writes: seq<map<K, V>>, lo: nat, hi: nat): map<K, V>
    requires lo <= hi <= |writes|
    decreases hi
  {
    if lo == hi then map[] else Composite(writes, lo, hi - 1) + writes[hi - 1]
  }

  /** The state after one pass over the first `n` entries. */
  ghost function Once<K, V>(start: map<K, V>, writes: seq<map<K, V>>, n: nat): map<K, V>
    requires n <= |writes|
  {
    start + Composite(writes, 0, n)
  }

  /** The state after a delivery, where every visit overwrites the entry's cells. */
  ghost function Visited<K, V>(start: map<K, V>, writes: seq<map<K, V>>, visits: seq<nat>): map<K, V>
    requires forall i :: 0 <= i < |visits| ==> visits[i] < |writes|
    decreases |visits|
  {
    if visits == [] then start
    else Visited(start, writes, visits[..|visits| - 1]) + writes[visits[|visits| - 1]]
  }

  /** One more than the furthest entry visited. */
  ghost function Furthest(visits: seq<nat>): (n: nat)
    decreases |visits|
  {
    if visits == [] then 0
    else
      var before := Furthest(visits[..|visits| - 1]);
      if before <= visits[|visits| - 1] then visits[|visits| - 1] + 1 else before
  }

  /** The entry a delivery would visit next if it simply went on. */
  ghost function Next(visits: seq<nat>): nat {
    if visits == [] then 0 else visits[|visits| - 1] + 1
  }

  lemma {:induction false} CompositeSplits<K, V>(writes: seq<map<K, V>>, lo: nat, mid: nat, hi: nat)
    requires lo <= mid <= hi <= |writes|
    ensures Composite(writes, lo, hi) == Composite(writes, lo, mid) + Composite(writes, mid, hi)
    decreases hi
  {
    if mid < hi {
      CompositeSplits(writes, lo, mid, hi - 1);
    }
  }

  lemma GapFreePrefix(visits: seq<nat>, entries: nat, k: nat)
    requires GapFree(visits, entries) && k <= |visits|
    ensures GapFree(visits[..k], entries)
  {
  }

  lemma LastVisit(visits: seq<nat>, entries: nat)
    requires GapFree(visits, entries) && visits != []
    ensures visits[|visits| - 1] <= Next(visits[..|visits| - 1]) && visits[|visits| - 1] < entries
  {
  }

  /** Falling back only revisits: a delivery never outruns the furthest entry by a gap. */
  lemma {:induction false} NextWithinReach(visits: seq<nat>, entries: nat)
    requires GapFree(visits, entries)
    ensures Next(visits) <= Furthest(visits) <= entries
    ensures forall e: nat :: e < Furthest(visits) ==> e in visits
    decreases |visits|
  {
    if visits != [] {
      hide GapFree;
      var front := visits[..|visits| - 1];
      GapFreePrefix(visits, entries, |front|);
      NextWithinReach(front, entries);
      LastVisit(visits, entries);
      assert visits == front + [visits[|visits| - 1]];
    }
  }

  /** Cell by cell: writing again what a pass wrote last changes nothing. */
  lemma RewriteAbsorbed<K, V>(
      start: map<K, V>, state: map<K, V>, early: map<K, V>, middle: map<K, V>, late: map<K, V>)
    requires state + late == start + (early + (middle + late))
    ensures state + (middle + late) == start + (early + (middle + late))
  {
    var target, rewritten := start + (early + (middle + late)), state + (middle + late);
    assert rewritten.Keys == target.Keys;
    forall k | k in target ensures rewritten[k] == target[k] {
      assert (state + late)[k] == target[k];
    }
  }

  lemma OverlayAssociates<K, V>(a: map<K, V>, b: map<K, V>, c: map<K, V>)
    ensures (a + b) + c == a + (b + c)
  {
  }

  /** One more visit, to an entry already reached or to the next one, keeps the invariant below. */
  lemma VisitKeepsInvariant<K, V>(
      start: map<K, V>, writes: seq<map<K, V>>, state: map<K, V>, q: nat, p: nat, h: nat)
    requires q <= p <= h <= |writes| && q < |writes|
    requires state + Composite(writes, p, h) == Once(start, writes, h)
    ensures q < h ==> state + writes[q] + Composite(writes, q + 1, h) == Once(start, writes, h)
    ensures q == h ==> state + writes[q] == Once(start, writes, h + 1)
  {
    if q < h {
      CompositeSplits(writes, q, p, h);
      CompositeSplits(writes, 0, q, h);
      RewriteAbsorbed(start, state, Composite(writes, 0, q), Composite(writes, q, p), Composite(writes, p, h));
      CompositeSplits(writes, q, q + 1, h);
      assert Composite(writes, q, q + 1) == writes[q];
      OverlayAssociates(state, writes[q], Composite(writes, q + 1, h));
    } else {
      assert state + Composite(writes, p, h) == state;
      OverlayAssociates(start, Composite(writes, 0, h), writes[h]);
    }
  }

  /**
    Invariant of every delivery: going on from the current position to the furthest
    entry reached would restore the state of one pass up to that entry.
  */
  lemma {:induction false} CatchingUpRestores<K, V>(start: map<K, V>, writes: seq<map<K, V>>, visits: seq<nat>)
    requires GapFree(visits, |writes|)
    ensures Next(visits) <= Furthest(visits) <= |writes|
    ensures Visited(start, writes, visits) + Composite(writes, Next(visits), Furthest(visits))
         == Once(start, writes, Furthest(visits))
    decreases |visits|
  {
    NextWithinReach(visits, |writes|);
    if visits != [] {
      var front, q := visits[..|visits| - 1], visits[|visits| - 1];
      GapFreePrefix(visits, |writes|, |front|);
      CatchingUpRestores(start, writes, front);
      VisitKeepsInvariant(start, writes, Visited(start, writes, front), q, Next(front), Furthest(front));
    }
  }

  lemma CompleteReachesAll(visits: seq<nat>, entries: nat)
    requires Complete(visits, entries)
    ensures Next(visits) == Furthest(visits) == entries
  {
    NextWithinReach(visits, entries);
  }

  /** A delivery that ends on the last entry is as good as one pass over the log. */
  lemma CompleteDeliveryConverges<K, V>(start: map<K, V>, writes: seq<map<K, V>>, visits: seq<nat>)
    requires Complete(visits, |writes|)
    ensures Visited(start, writes, visits) == Once(start, writes, |writes|)
  {
    CatchingUpRestores(start, writes, visits);
    CompleteReachesAll(visits, |writes|);
  }

  // --- cells where the first write wins --------------------------------------

  ghost function FirstComposite<K, V>(writes: seq<map<K, V>>, n: nat): map<K, V>
    requires n <= |writes|
  {
    if n == 0 then map[] else writes[n - 1] + FirstComposite(writes, n - 1)
  }

  ghost function FirstOnce<K, V>(start: map<K, V>, writes: seq<map<K, V>>, n: nat): map<K, V>
    requires n <= |writes|
  {
    FirstComposite(writes, n) + start
  }

  ghost function FirstVisited<K, V>(start: map<K, V>, writes: seq<map<K, V>>, visits: seq<nat>): map<K, V>
    requires forall i :: 0 <= i < |visits| ==> visits[i] < |writes|
    decreases |visits|
  {
    if visits == [] then start
    else writes[visits[|visits| - 1]] + FirstVisited(start, writes, visits[..|visits| - 1])
  }

  lemma {:induction false} FirstCompositeHolds<K, V>(writes: seq<map<K, V>>, q: nat, n: nat)
    requires q < n <= |writes|
    ensures writes[q].Keys <= FirstComposite(writes, n).Keys
    decreases n
  {
    if q < n - 1 {
      FirstCompositeHolds(writes, q, n - 1);
    }
  }

  lemma FirstVisitKeepsInvariant<K, V>(start: map<K, V>, writes: seq<map<K, V>>, q: nat, h: nat)
    requires q <= h <= |writes| && q < |writes|
    ensures writes[q] + FirstOnce(start, writes, h) == FirstOnce(start, writes, if q < h then h else h + 1)
  {
    if q < h {
      FirstCompositeHolds(writes, q, h);
    }
  }

  lemma {:induction false} FirstWriteConverges<K, V>(start: map<K, V>, writes: seq<map<K, V>>, visits: seq<nat>)
    requires GapFree(visits, |writes|)
    ensures Furthest(visits) <= |writes|
    ensures FirstVisited(start, writes, visits) == FirstOnce(start, writes, Furthest(visits))
    decreases |visits|
  {
    NextWithinReach(visits, |writes|);
    if visits != [] {
      var front, q := visits[..|visits| - 1], visits[|visits| - 1];
      GapFreePrefix(visits, |writes|, |front|);
      NextWithinReach(front, |writes|);
      FirstWriteConverges(start, writes, front);
      FirstVisitKeepsInvariant(start, writes, q, Furthest(front));
    }
  }
}
