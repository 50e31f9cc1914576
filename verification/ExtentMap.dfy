/** The extent map cache of one file (extent_map.c, extent_map.h): ranges of file offsets and where they are on disk.
    The red-black tree is kept as the sequence of its nodes in order; searches take its shape as a parameter. */
module ExtentMap {
  import opened Basics

  const LAST_BYTE: u64 := 0xFFFF_FFFF_FFFF_FFFC
  const HOLE: u64 := 0xFFFF_FFFF_FFFF_FFFD
  const INLINE: u64 := 0xFFFF_FFFF_FFFF_FFFE
  const DELALLOC: u64 := 0xFFFF_FFFF_FFFF_FFFF

  /** `flags` are the bits other than the two named ones. */
  datatype Extent = Extent(start: u64, len: u64, blockStart: u64, blockLen: u64, pinned: bool, compressed: bool,
                           flags: nat, bdev: nat)

  /** start + len, stopping at the largest u64: extent_map_end, extent_map_block_end and range_end. */
  function Saturated(start: u64, len: u64): (r: u64)
    ensures r >= start
  {
    if Wrap(start + len) < start then 0xFFFF_FFFF_FFFF_FFFF else start + len
  }

  function End(e: Extent): u64 { Saturated(e.start, e.len) }

  /** The code's overflow test is right: the sum is either exact or cut off at the largest u64. */
  lemma {:induction false} SaturatedIs(start: u64, len: u64)
    ensures Saturated(start, len) == if start + len < 0x1_0000_0000_0000_0000 then start + len
            else 0xFFFF_FFFF_FFFF_FFFF
  {
  }

  // ---------- where a file offset is ----------

  /** `place` is a disk address, or one of the markers; the rest must not change by merging either. */
  datatype Location = Location(place: int, compressed: bool, flags: nat, bdev: nat)

  predicate Real(e: Extent) { e.blockStart < LAST_BYTE - 1 }

  predicate Holds(e: Extent, x: u64) { e.start <= x < End(e) }

  function LocationIn(e: Extent, x: u64): Location
    requires Holds(e, x)
  {
    Location(if Real(e) then e.blockStart + (x - e.start) else e.blockStart, e.compressed, e.flags, e.bdev)
  }

  function Where(maps: seq<Extent>, x: u64): Option<Location> {
    if maps == [] then None
    else if Holds(maps[0], x) then Some(LocationIn(maps[0], x))
    else Where(maps[1..], x)
  }

  lemma {:induction false} WhereConcat(a: seq<Extent>, b: seq<Extent>, x: u64)
    ensures Where(a + b, x) == if Where(a, x).Some? then Where(a, x) else Where(b, x)
  {
    if a == [] {
      assert a + b == b;
    } else {
      assert (a + b)[1..] == a[1..] + b;
      WhereConcat(a[1..], b, x);
    }
  }

  lemma {:induction false} WhereNot(maps: seq<Extent>, x: u64)
    requires forall i | 0 <= i < |maps| :: !Holds(maps[i], x)
    ensures Where(maps, x) == None
  {
    if maps != [] {
      WhereNot(maps[1..], x);
    }
  }

  /** Ascending, without overlap; and disk lengths that match, where merging relies on it. */
  ghost predicate Ordered(maps: seq<Extent>) {
    forall i, j | 0 <= i < j < |maps| :: End(maps[i]) <= maps[j].start
  }

  predicate LengthsMatch(e: Extent) { Real(e) && !e.compressed ==> e.blockLen == e.len }

  ghost predicate Valid(maps: seq<Extent>) {
    Ordered(maps) && forall i | 0 <= i < |maps| :: LengthsMatch(maps[i])
  }

  // ---------- merging two neighbours ----------

  /** mergable_maps. */
  predicate Mergable(prev: Extent, next: Extent) {
    && !prev.pinned && !prev.compressed
    && End(prev) == next.start
    && prev.pinned == next.pinned && prev.compressed == next.compressed && prev.flags == next.flags
    && prev.bdev == next.bdev
    && ((next.blockStart == HOLE && prev.blockStart == HOLE)
        || (next.blockStart == INLINE && prev.blockStart == INLINE)
        || (next.blockStart == DELALLOC && prev.blockStart == DELALLOC)
        || (next.blockStart < LAST_BYTE - 1 && next.blockStart == Saturated(prev.blockStart, prev.blockLen)))
  }

  predicate Marked(e: Extent) { e.blockStart == HOLE || e.blockStart == INLINE || e.blockStart == DELALLOC }

  /** Where an offset would be if the extent went on that far. */
  function WouldBe(e: Extent, x: u64): Location {
    Location(if Real(e) then e.blockStart + (x - e.start) else e.blockStart, e.compressed, e.flags, e.bdev)
  }

  /** Two extents are merged if and only if they are adjacent, neither pinned nor compressed, and the later one is where
      the earlier one would be if it went on. */
  lemma {:induction false} MergableExactly(prev: Extent, next: Extent)
    requires LengthsMatch(prev) && LengthsMatch(next) && (Real(prev) || Marked(prev)) && (Real(next) || Marked(next))
    requires prev.start + prev.len < 0x1_0000_0000_0000_0000
    ensures Mergable(prev, next) <==>
              && !prev.pinned && !next.pinned && !prev.compressed && !next.compressed
              && End(prev) == next.start && WouldBe(prev, next.start) == WouldBe(next, next.start)
              && (Real(prev) <==> Real(next))
  {
  }

  /** What the earlier of two extents becomes when the later one is merged into it, and the other way round: the same,
      as long as the later one's two lengths agree. */
  function Joined(prev: Extent, next: Extent, blockLen: u64): Extent {
    prev.(len := Wrap(prev.len + next.len), blockLen := Wrap(prev.blockLen + blockLen))
  }

  /** The lengths add up to a u64, or the sum wraps so late that the end stays cut off at the largest u64. */
  predicate JoinFits(prev: Extent, next: Extent) {
    prev.len + next.len < 0x1_0000_0000_0000_0000 || prev.start + prev.len + next.len >= 0x1_FFFF_FFFF_FFFF_FFFF
  }

  /** The joined extent ends where the later one did exactly then; otherwise it ends before the earlier one's end. */
  lemma {:induction false} JoinExactly(prev: Extent, next: Extent, blockLen: u64)
    requires Mergable(prev, next)
    ensures var j := Joined(prev, next, blockLen);
            && (End(j) == End(next) <==> JoinFits(prev, next)) && j.start == prev.start <= next.start
            && (!JoinFits(prev, next) ==> End(j) < End(prev)) && End(prev) <= End(next)
  {
    hide Saturated;
    var sum: int := prev.len + next.len;
    assert Wrap(sum) == if sum < 0x1_0000_0000_0000_0000 then sum else sum - 0x1_0000_0000_0000_0000;
    SaturatedIs(prev.start, prev.len);
    SaturatedIs(next.start, next.len);
    SaturatedIs(prev.start, Wrap(sum));
  }

  /** Then merging two neighbours changes nothing about where any offset is. */
  lemma {:induction false} JoinKeepsPlaces(prev: Extent, next: Extent, blockLen: u64, x: u64)
    requires Mergable(prev, next) && LengthsMatch(prev) && LengthsMatch(next) && JoinFits(prev, next)
    ensures Where([Joined(prev, next, blockLen)], x) == Where([prev, next], x)
  {
    hide Saturated;
    JoinExactly(prev, next, blockLen);
    SaturatedIs(prev.start, prev.len);
    SaturatedIs(prev.blockStart, prev.blockLen);
    WhereOne(Joined(prev, next, blockLen), x);
    WhereTwo(prev, next, x);
  }

  /** Otherwise the last offset of the earlier one is lost. */
  lemma {:induction false} JoinLosesLast(prev: Extent, next: Extent, blockLen: u64)
    requires Mergable(prev, next) && !JoinFits(prev, next)
    ensures End(prev) > prev.start && Holds(prev, End(prev) - 1) && !Holds(next, End(prev) - 1)
    ensures !Holds(Joined(prev, next, blockLen), End(prev) - 1)
  {
    hide Saturated;
    JoinExactly(prev, next, blockLen);
  }

  lemma {:induction false} WhereOne(e: Extent, x: u64)
    ensures Where([e], x) == if Holds(e, x) then Some(LocationIn(e, x)) else None
  {
    assert [e][1..] == [];
  }

  lemma {:induction false} WhereTwo(a: Extent, b: Extent, x: u64)
    ensures Where([a, b], x) == if Holds(a, x) then Some(LocationIn(a, x)) else if Holds(b, x)
            then Some(LocationIn(b, x)) else None
  {
    assert [a, b][1..] == [b];
    WhereOne(b, x);
  }

  /** As with a hole over the lower half of the range and one over the upper half. */
  lemma {:induction false} JoinLosesOffsets()
    ensures var a := Extent(0, 0x8000_0000_0000_0000, HOLE, 0, false, false, 0, 0);
            var b := Extent(0x8000_0000_0000_0000, 0x8000_0000_0000_0000, HOLE, 0, false, false, 0, 0);
            && Mergable(a, b) && !JoinFits(a, b)
            && Where([a, b], 5).Some? && Where([Joined(a, b, 0)], 5) == None
  {
    var a := Extent(0, 0x8000_0000_0000_0000, HOLE, 0, false, false, 0, 0);
    var b := Extent(0x8000_0000_0000_0000, 0x8000_0000_0000_0000, HOLE, 0, false, false, 0, 0);
    assert Holds(a, 5);
    assert Joined(a, b, 0).len == 0;
    WhereNot([Joined(a, b, 0)], 5);
  }

  // ---------- searching ----------

  predicate Intersects(e: Extent, start: u64, end: u64) { end > e.start && start < End(e) }

  /** An extent in the way of a new one. */
  predicate Conflicts(e: Extent, em: Extent) { Intersects(e, em.start, End(em)) || Holds(e, em.start) }

  /** __tree_search: the extent that holds the offset; or the first one that ends after it (`prev`) and the last one
      that starts at or before it (`next`). */
  method TreeSearch(maps: seq<Extent>, offset: u64, probe: (nat, nat) -> nat)
    returns (node: Option<nat>, prev: Option<nat>, next: Option<nat>)
    requires Ordered(maps)
    ensures node.Some? ==> node.value < |maps| && Holds(maps[node.value], offset)
    ensures node.None? ==> forall i | 0 <= i < |maps| :: !Holds(maps[i], offset)
    ensures node.None? ==>
              match prev
              case None => forall i | 0 <= i < |maps| :: End(maps[i]) <= offset
              case Some(p) => p < |maps| && offset < maps[p].start && forall i | 0 <= i < p :: End(maps[i]) <= offset
    ensures node.None? ==>
              match next
              case None => forall i | 0 <= i < |maps| :: offset < maps[i].start
              case Some(p) => p < |maps| && maps[p].start <= offset && forall i | p < i < |maps| ::
                  offset < maps[i].start
  {
    hide Saturated;
    var lo, hi, last := 0, |maps|, -1;
    while lo < hi
      invariant 0 <= lo <= hi <= |maps|
      invariant forall i | 0 <= i < lo :: maps[i].start <= offset && End(maps[i]) <= offset
      invariant forall i | hi <= i < |maps| :: offset < maps[i].start
      invariant if last == -1 then lo == 0 && hi == |maps| else 0 <= last < |maps| && (last == lo - 1 || last == hi)
    {
      var m := lo + probe(lo, hi) % (hi - lo);
      last := m;
      if offset < maps[m].start {
        StartsAscend(maps, m);
        hi := m;
      } else if offset >= End(maps[m]) {
        EndsAscend(maps, m);
        lo := m + 1;
      } else {
        return Some(m), None, None;
      }
    }
    var p := last;
    while 0 <= p < |maps| && offset >= End(maps[p])
      invariant last == -1 ==> p == -1
      invariant last != -1 ==> last <= p <= lo
      decreases lo - p
    {
      p := p + 1;
    }
    var q := last;
    while q >= 0 && offset < maps[q].start
      invariant last == -1 ==> q == -1
      invariant last != -1 ==> lo - 1 <= q <= last
    {
      q := q - 1;
    }
    node, prev, next := None, if 0 <= p < |maps| then Some(p) else None, if q >= 0 then Some(q) else None;
  }

  lemma {:induction false} StartsAscend(maps: seq<Extent>, m: nat)
    requires Ordered(maps) && m < |maps|
    ensures forall i | m <= i < |maps| :: maps[m].start <= maps[i].start
  {
  }

  lemma {:induction false} EndsAscend(maps: seq<Extent>, m: nat)
    requires Ordered(maps) && m < |maps|
    ensures forall i | 0 <= i <= m :: maps[i].start <= End(maps[i]) <= End(maps[m])
  {
  }

  /** lookup_extent_mapping: the lowest extent that intersects the range, saturated ends included. */
  method LookupExtent(maps: seq<Extent>, start: u64, len: u64, probe: (nat, nat) -> nat) returns (r: Option<nat>)
    requires Ordered(maps)
    ensures r.Some? ==>
              && r.value < |maps| && Intersects(maps[r.value], start, Saturated(start, len))
              && forall i | 0 <= i < r.value :: !Intersects(maps[i], start, Saturated(start, len))
    ensures r.None? ==> forall i | 0 <= i < |maps| :: !Intersects(maps[i], start, Saturated(start, len))
  {
    hide Saturated;
    var end := Saturated(start, len);
    var node, prev, next := TreeSearch(maps, start, probe);
    if node.None? {
      if prev.Some? {
        StartsAscend(maps, prev.value);
        if Intersects(maps[prev.value], start, end) {
          return prev;
        }
      }
      if next.Some? && Intersects(maps[next.value], start, end) {
        return next;
      }
      return None;
    }
    StartsAscend(maps, node.value);
    EndsAscend(maps, node.value);
    if Intersects(maps[node.value], start, end) {
      return node;
    }
    r := None;
  }

  /** tree_insert's descent: where an extent that starts at `offset` belongs, unless an extent holds the offset. */
  method InsertPlace(maps: seq<Extent>, offset: u64, probe: (nat, nat) -> nat) returns (k: nat, taken: bool)
    requires Ordered(maps)
    ensures taken ==> k < |maps| && Holds(maps[k], offset)
    ensures !taken ==>
              && k <= |maps| && (forall i | 0 <= i < k :: End(maps[i]) <= offset)
              && (forall i | k <= i < |maps| :: offset < maps[i].start) && forall i | 0 <= i < |maps| ::
                  !Holds(maps[i], offset)
  {
    hide Saturated;
    var lo, hi := 0, |maps|;
    while lo < hi
      invariant 0 <= lo <= hi <= |maps|
      invariant forall i | 0 <= i < lo :: End(maps[i]) <= offset
      invariant forall i | hi <= i < |maps| :: offset < maps[i].start
    {
      var m := lo + probe(lo, hi) % (hi - lo);
      if offset < maps[m].start {
        StartsAscend(maps, m);
        hi := m;
      } else if offset >= End(maps[m]) {
        EndsAscend(maps, m);
        lo := m + 1;
      } else {
        return m, true;
      }
    }
    k, taken := lo, false;
  }

  // ---------- changing the tree ----------

  /** Neighbours k and k + 1 made one. */
  function JoinedAt(maps: seq<Extent>, k: nat, blockLen: u64): seq<Extent>
    requires k + 1 < |maps|
  {
    maps[..k] + [Joined(maps[k], maps[k + 1], blockLen)] + maps[k + 2..]
  }

  ghost predicate Joinable(maps: seq<Extent>, k: nat, blockLen: u64) {
    && k + 1 < |maps| && Mergable(maps[k], maps[k + 1])
    && (blockLen == maps[k + 1].len || blockLen == maps[k + 1].blockLen)
  }

  /** The tree stays in order, whether lengths wrap or not. */
  lemma {:induction false} JoinStaysValid(maps: seq<Extent>, k: nat, blockLen: u64)
    requires Valid(maps) && Joinable(maps, k, blockLen)
    ensures Valid(JoinedAt(maps, k, blockLen))
  {
    hide Saturated, Wrap;
    var t, j := JoinedAt(maps, k, blockLen), Joined(maps[k], maps[k + 1], blockLen);
    JoinExactly(maps[k], maps[k + 1], blockLen);
    JoinedLengths(maps[k], maps[k + 1], blockLen);
    forall a, b | 0 <= a < b < |t|
      ensures End(t[a]) <= t[b].start
    {
      assert t[a] == if a < k then maps[a] else if a == k then j else maps[a + 1];
      assert t[b] == if b < k then maps[b] else if b == k then j else maps[b + 1];
    }
    forall a | 0 <= a < |t|
      ensures LengthsMatch(t[a])
    {
      assert t[a] == if a < k then maps[a] else if a == k then j else maps[a + 1];
    }
  }

  lemma {:induction false} JoinedLengths(prev: Extent, next: Extent, blockLen: u64)
    requires Mergable(prev, next) && LengthsMatch(prev) && LengthsMatch(next)
    requires blockLen == next.len || blockLen == next.blockLen
    ensures LengthsMatch(Joined(prev, next, blockLen))
  {
  }

  /** What the two parts of a cut tree say of an offset. */
  lemma {:induction false} WhereAround(maps: seq<Extent>, k: nat, blockLen: u64, x: u64)
    requires k + 1 < |maps|
    ensures var a, b, j := maps[..k], maps[k + 2..], Joined(maps[k], maps[k + 1], blockLen);
            && Where(maps, x) == (if Where(a, x).Some? then Where(a, x)
                                  else if Where([maps[k], maps[k + 1]], x).Some? then Where([maps[k], maps[k + 1]], x)
                                  else Where(b, x))
            && Where(JoinedAt(maps, k, blockLen), x) == (if Where(a, x).Some? then Where(a, x)
                                                         else if Where([j], x).Some? then Where([j], x)
                                                         else Where(b, x))
  {
    hide Where, Joined;
    var a, b, j := maps[..k], maps[k + 2..], Joined(maps[k], maps[k + 1], blockLen);
    assert maps == a + ([maps[k], maps[k + 1]] + b);
    assert JoinedAt(maps, k, blockLen) == a + ([j] + b);
    WhereConcat(a, [maps[k], maps[k + 1]] + b, x);
    WhereConcat([maps[k], maps[k + 1]], b, x);
    WhereConcat(a, [j] + b, x);
    WhereConcat([j], b, x);
  }

  lemma {:induction false} JoinStaysPut(maps: seq<Extent>, k: nat, blockLen: u64, x: u64)
    requires Valid(maps) && Joinable(maps, k, blockLen) && JoinFits(maps[k], maps[k + 1])
    ensures Where(JoinedAt(maps, k, blockLen), x) == Where(maps, x)
  {
    hide Where, Joined, Mergable, Holds, LengthsMatch, Ordered, JoinFits;
    WhereAround(maps, k, blockLen, x);
    JoinKeepsPlaces(maps[k], maps[k + 1], blockLen, x);
  }

  /** An offset that only extent k holds is lost with it. */
  lemma {:induction false} JoinGoesMissing(maps: seq<Extent>, k: nat, blockLen: u64) returns (x: u64)
    requires Valid(maps) && Joinable(maps, k, blockLen) && !JoinFits(maps[k], maps[k + 1])
    ensures End(maps[k]) > maps[k].start && x == End(maps[k]) - 1
    ensures Where(JoinedAt(maps, k, blockLen), x) == None && Where(maps, x).Some?
  {
    hide Where, Joined, Mergable, JoinFits, Saturated;
    JoinLosesLast(maps[k], maps[k + 1], blockLen);
    x := End(maps[k]) - 1;
    WhereAround(maps, k, blockLen, x);
    WhereNot(maps[..k], x);
    var after := maps[k + 2..];
    forall i | 0 <= i < |after|
      ensures !Holds(after[i], x)
    {
      assert after[i] == maps[k + 2 + i];
    }
    WhereNot(after, x);
    WhereOne(Joined(maps[k], maps[k + 1], blockLen), x);
    WhereTwo(maps[k], maps[k + 1], x);
  }

  lemma {:induction false} InsertStaysValid(maps: seq<Extent>, k: nat, em: Extent)
    requires Valid(maps) && k <= |maps| && LengthsMatch(em)
    requires (forall i | 0 <= i < k :: End(maps[i]) <= em.start)
             && (forall i | k <= i < |maps| :: End(em) <= maps[i].start)
    ensures Valid(maps[..k] + [em] + maps[k..])
  {
    hide Saturated;
    var t := maps[..k] + [em] + maps[k..];
    forall a, b | 0 <= a < b < |t|
      ensures End(t[a]) <= t[b].start
    {
      assert t[a] == if a < k then maps[a] else if a == k then em else maps[a - 1];
      assert t[b] == if b < k then maps[b] else if b == k then em else maps[b - 1];
    }
    forall a | 0 <= a < |t|
      ensures LengthsMatch(t[a])
    {
      assert t[a] == if a < k then maps[a] else if a == k then em else maps[a - 1];
    }
  }

  lemma {:induction false} InsertAddsPlaces(maps: seq<Extent>, k: nat, em: Extent, x: u64)
    requires k <= |maps| && forall i | 0 <= i < k :: End(maps[i]) <= em.start
    ensures Where(maps[..k] + [em] + maps[k..], x) == if Holds(em, x) then Some(LocationIn(em, x)) else Where(maps, x)
  {
    hide Where, Saturated;
    var a, b := maps[..k], maps[k..];
    assert maps == a + b;
    WhereConcat(a + [em], b, x);
    WhereConcat(a, [em], x);
    WhereConcat(a, b, x);
    WhereOne(em, x);
    if Holds(em, x) {
      WhereNot(a, x);
    }
  }

  /** em put at place k. */
  function Inserted(maps: seq<Extent>, k: nat, em: Extent): seq<Extent>
    requires k <= |maps|
  {
    maps[..k] + [em] + maps[k..]
  }

  function Unpinned(maps: seq<Extent>, k: nat): seq<Extent>
    requires k < |maps|
  {
    maps[k := maps[k].(pinned := false)]
  }

  /** Extent k is merged with the one before, unless its file offset is 0. */
  predicate MergesBefore(maps: seq<Extent>, k: nat)
    requires k < |maps|
  {
    maps[k].start != 0 && k > 0 && Mergable(maps[k - 1], maps[k])
  }

  predicate MergesAfter(maps: seq<Extent>, k: nat)
    requires k < |maps|
  {
    k + 1 < |maps| && Mergable(maps[k], maps[k + 1])
  }

  function FirstMerged(maps: seq<Extent>, k: nat): (r: (seq<Extent>, nat))
    requires k < |maps|
    ensures r.1 < |r.0|
  {
    if MergesBefore(maps, k) then (JoinedAt(maps, k - 1, maps[k].blockLen), k - 1) else (maps, k)
  }

  function SecondMerged(maps: seq<Extent>, k: nat): seq<Extent>
    requires k < |maps|
  {
    if MergesAfter(maps, k) then JoinedAt(maps, k, maps[k + 1].len) else maps
  }

  /** The tree once extent k has been merged with its neighbours, first the one before, then the one after. */
  function MergedAround(maps: seq<Extent>, k: nat): seq<Extent>
    requires k < |maps|
  {
    var (first, j) := FirstMerged(maps, k);
    SecondMerged(first, j)
  }

  /** No merge loses an offset. */
  predicate MergesFit(maps: seq<Extent>, k: nat)
    requires k < |maps|
  {
    && (MergesBefore(maps, k) ==> JoinFits(maps[k - 1], maps[k]))
    && var (first, j) := FirstMerged(maps, k);
       MergesAfter(first, j) ==> JoinFits(first[j], first[j + 1])
  }

  ghost predicate SamePlaces(maps: seq<Extent>, maps': seq<Extent>) {
    forall x :: Where(maps, x) == Where(maps', x)
  }

  /** The first merge, and whether it keeps all places. */
  lemma {:induction false} FirstExactly(maps: seq<Extent>, k: nat)
    requires Valid(maps) && k < |maps|
    ensures var (first, j) := FirstMerged(maps, k);
            && Valid(first) && first[j].pinned == maps[k].pinned && first[j].start <= maps[k].start
            && (if MergesBefore(maps, k) && !JoinFits(maps[k - 1], maps[k])
                then !MergesAfter(first, j) && exists x :: Where(maps, x).Some? && Where(first, x) == None
                else SamePlaces(first, maps) && End(first[j]) == End(maps[k]))
  {
    hide Where, Joined, Mergable, JoinFits, Saturated, Valid;
    if MergesBefore(maps, k) {
      JoinStaysValid(maps, k - 1, maps[k].blockLen);
      JoinExactly(maps[k - 1], maps[k], maps[k].blockLen);
      JoinedPinned(maps[k - 1], maps[k], maps[k].blockLen);
      if JoinFits(maps[k - 1], maps[k]) {
        forall x
          ensures Where(JoinedAt(maps, k - 1, maps[k].blockLen), x) == Where(maps, x)
        {
          JoinStaysPut(maps, k - 1, maps[k].blockLen, x);
        }
      } else {
        var x := JoinGoesMissing(maps, k - 1, maps[k].blockLen);
        if k + 1 < |maps| {
          NotNext(maps, k);
        }
      }
    }
  }

  lemma {:induction false} JoinedPinned(prev: Extent, next: Extent, blockLen: u64)
    requires Mergable(prev, next)
    ensures Joined(prev, next, blockLen).pinned == next.pinned
  {
  }

  /** An extent that lost offsets does not reach up to the one after. */
  lemma {:induction false} NotNext(maps: seq<Extent>, k: nat)
    requires Valid(maps) && 0 < k && k + 1 < |maps| && Mergable(maps[k - 1], maps[k])
    requires !JoinFits(maps[k - 1], maps[k])
    ensures !Mergable(Joined(maps[k - 1], maps[k], maps[k].blockLen), maps[k + 1])
  {
    hide Saturated, Joined, JoinFits;
    JoinExactly(maps[k - 1], maps[k], maps[k].blockLen);
  }

  /** Merging around an extent keeps the tree in order, and every place exactly if no merge loses an offset; then the
      extent is part of one that is as pinned as it was. */
  lemma {:induction false} MergedExactly(maps: seq<Extent>, k: nat)
    requires Valid(maps) && k < |maps|
    ensures Valid(MergedAround(maps, k)) && (SamePlaces(MergedAround(maps, k), maps) <==> MergesFit(maps, k))
    ensures MergesFit(maps, k) ==>
              exists j :: 0 <= j < |MergedAround(maps, k)| && Covers(MergedAround(maps, k)[j], maps[k])
  {
    hide Where, Joined, Mergable, JoinFits, Saturated, Valid;
    FirstExactly(maps, k);
    var (first, j) := FirstMerged(maps, k);
    var m := SecondMerged(first, j);
    if MergesAfter(first, j) {
      JoinStaysValid(first, j, first[j + 1].len);
      JoinExactly(first[j], first[j + 1], first[j + 1].len);
      JoinedPinned(first[j], first[j + 1], first[j + 1].len);
      MergablePinned(first[j], first[j + 1]);
      if JoinFits(first[j], first[j + 1]) {
        forall x
          ensures Where(m, x) == Where(first, x)
        {
          JoinStaysPut(first, j, first[j + 1].len, x);
        }
        assert Covers(m[j], maps[k]);
      } else {
        var x := JoinGoesMissing(first, j, first[j + 1].len);
        assert Where(m, x) != Where(maps, x);
      }
    } else if MergesBefore(maps, k) && !JoinFits(maps[k - 1], maps[k]) {
      var x :| Where(maps, x).Some? && Where(first, x) == None;
      assert Where(m, x) != Where(maps, x);
    } else {
      assert Covers(m[j], maps[k]);
    }
  }

  lemma {:induction false} MergablePinned(prev: Extent, next: Extent)
    requires Mergable(prev, next)
    ensures prev.pinned == next.pinned
  {
  }

  /** All of e's range, as pinned as e. */
  ghost predicate Covers(whole: Extent, e: Extent) {
    whole.start <= e.start && End(e) <= End(whole) && whole.pinned == e.pinned
  }

  class Tree {
    var maps: seq<Extent>

    constructor ()
      ensures maps == []
    {
      maps := [];
    }

    /** The two merges that follow an insertion or an unpinning, around extent k. */
    method MergeAround(k: nat)
      requires Valid(maps) && k < |maps|
      modifies this
      ensures maps == MergedAround(old(maps), k) && Valid(maps)
      ensures SamePlaces(maps, old(maps)) <==> MergesFit(old(maps), k)
    {
      hide Valid, Where, Mergable, Saturated;
      MergedExactly(maps, k);
      var at, em := k, maps[k];
      if em.start != 0 && at > 0 && Mergable(maps[at - 1], em) {
        var merge := maps[at - 1];
        SameAsJoined(merge, em);
        em := em.(start := merge.start, len := Wrap(em.len + merge.len), blockLen := Wrap(em.blockLen + merge.blockLen),
                  blockStart := merge.blockStart);
        maps := maps[..at - 1] + [em] + maps[at + 1..];
        at := at - 1;
      }
      if at + 1 < |maps| && Mergable(em, maps[at + 1]) {
        var merge := maps[at + 1];
        em := em.(len := Wrap(em.len + merge.len), blockLen := Wrap(em.blockLen + merge.len));
        maps := maps[..at] + [em] + maps[at + 2..];
      }
    }

    /** add_extent_mapping: refused exactly if the extent overlaps what is there; otherwise it is put where it belongs
        and merged with its neighbours.  The tree stays in order; the new places are added and the others stay, exactly
        if no merge loses an offset. */
    method Add(em: Extent, probe: (nat, nat) -> nat) returns (ret: int, ghost k: nat)
      requires Valid(maps) && LengthsMatch(em)
      modifies this
      ensures Valid(maps) && (ret == 0 || ret == EEXIST)
      ensures ret == EEXIST <==> exists i :: 0 <= i < |old(maps)| && Conflicts(old(maps[i]), em)
      ensures ret == EEXIST ==> maps == old(maps)
      ensures ret == 0 ==>
                && k <= |old(maps)| && Valid(Inserted(old(maps), k, em))
                && maps == MergedAround(Inserted(old(maps), k, em), k)
                && (Added(maps, old(maps), em) <==> MergesFit(Inserted(old(maps), k, em), k))
    {
      hide Where, Saturated, Mergable, MergedAround, MergesFit;
      k := 0;
      var exist := LookupExtent(maps, em.start, em.len, probe);
      if exist.Some? {
        return EEXIST, k;
      }
      var place, taken := InsertPlace(maps, em.start, probe);
      if taken {
        return EEXIST, k;
      }
      InsertStaysValid(maps, place, em);
      forall x
        ensures Where(Inserted(maps, place, em), x) == if Holds(em, x) then Some(LocationIn(em, x)) else Where(maps, x)
      {
        InsertAddsPlaces(maps, place, em, x);
      }
      maps := maps[..place] + [em] + maps[place..];
      MergeAround(place);
      ret, k := 0, place;
    }

    /** unpin_extent_cache: the lowest extent in the range, k, may be merged from now on, and is.  The tree stays in
        order; no place changes, exactly if no merge loses an offset. */
    method Unpin(start: u64, len: u64, probe: (nat, nat) -> nat) returns (ghost k: Option<nat>)
      requires Valid(maps)
      modifies this
      ensures Valid(maps)
      ensures k.None? ==>
                && maps == old(maps)
                && forall i | 0 <= i < |maps| :: !Intersects(maps[i], start, Saturated(start, len))
      ensures k.Some? ==>
                && k.value < |old(maps)| && Intersects(old(maps[k.value]), start, Saturated(start, len))
                && (forall i | 0 <= i < k.value :: !Intersects(old(maps[i]), start, Saturated(start, len)))
                && maps == MergedAround(Unpinned(old(maps), k.value), k.value)
                && (SamePlaces(maps, old(maps)) <==> MergesFit(Unpinned(old(maps), k.value), k.value))
    {
      hide Where, Saturated, Valid, Mergable, MergedAround, MergesFit;
      ValidOrdered(maps);
      var em := LookupExtent(maps, start, len, probe);
      if em.None? {
        return None;
      }
      var i := em.value;
      forall x
        ensures Where(Unpinned(maps, i), x) == Where(maps, x)
      {
        UnpinStaysPut(maps, i, x);
      }
      UnpinStaysValid(maps, i);
      maps := maps[i := maps[i].(pinned := false)];
      MergeAround(i);
      k := Some(i);
    }
  }

  /** The offsets of em are where em says, all others where they were. */
  ghost predicate Added(maps: seq<Extent>, old': seq<Extent>, em: Extent) {
    forall x :: Where(maps, x) == if Holds(em, x) then Some(LocationIn(em, x)) else Where(old', x)
  }

  lemma {:induction false} ValidOrdered(maps: seq<Extent>)
    requires Valid(maps)
    ensures Ordered(maps)
  {
  }

  lemma {:induction false} UnpinStaysValid(maps: seq<Extent>, k: nat)
    requires Valid(maps) && k < |maps|
    ensures Valid(maps[k := maps[k].(pinned := false)])
  {
    hide Saturated;
  }

  /** The pinned bit says nothing about places. */
  lemma {:induction false} UnpinStaysPut(maps: seq<Extent>, k: nat, x: u64)
    requires k < |maps|
    ensures Where(maps[k := maps[k].(pinned := false)], x) == Where(maps, x)
  {
    if k > 0 {
      UnpinStaysPut(maps[1..], k - 1, x);
      assert maps[k := maps[k].(pinned := false)][1..] == maps[1..][k - 1 := maps[k].(pinned := false)];
    } else {
      assert maps[k := maps[k].(pinned := false)][1..] == maps[1..];
    }
  }

  lemma {:induction false} SameAsJoined(prev: Extent, em: Extent)
    requires Mergable(prev, em)
    ensures em.(start := prev.start, len := Wrap(em.len + prev.len), blockLen := Wrap(em.blockLen + prev.blockLen),
                blockStart := prev.blockStart)
         == Joined(prev, em, em.blockLen)
  {
  }
}
