/** short_sort and the hole-based partition (ada_log.c), on any indices and any keys: what the loops do to the array
    as functions, and what that means for a stretch of the ring. */
module SortSteps {
  import opened LogEntry
  import opened LogRing

  // ---------- short_sort ----------

  /** The inner loop of short_sort, from index i on. */
  function Greatest(s: seq<Entry>, i: int, pos: int, max: int): int
    requires |s| == LOG_LEN
    decreases pos - i
  {
    if i >= pos then max
    else Greatest(s, i + 1, pos, if Compare(Cell(s, i), Cell(s, max)) > 0 then i else max)
  }

  /** SWAP_ENTRY(entry(i), entry(j)) */
  function Exchanged(s: seq<Entry>, i: int, j: int): (t: seq<Entry>)
    requires |s| == LOG_LEN
    ensures |t| == LOG_LEN
  {
    Stored(Stored(s, i, Cell(s, j)), j, Cell(s, i))
  }

  /** The outer loop: the greatest entry goes to the end, from pos down. */
  function Selected(s: seq<Entry>, l: int, pos: int): (t: seq<Entry>)
    requires |s| == LOG_LEN
    ensures |t| == LOG_LEN
    decreases pos - l
  {
    if pos <= l then s else Selected(Exchanged(s, Greatest(s, l, pos, pos), pos), l, pos - 1)
  }

  lemma {:induction false} SelectedStep(s: seq<Entry>, l: int, pos: int)
    requires |s| == LOG_LEN
    ensures pos > l ==> Selected(s, l, pos) == Selected(Exchanged(s, Greatest(s, l, pos, pos), pos), l, pos - 1)
    ensures pos <= l ==> Selected(s, l, pos) == s
  {
  }

  lemma {:induction false} GreatestIn(s: seq<Entry>, i: int, pos: int, max: int)
    requires |s| == LOG_LEN && i <= pos
    ensures Greatest(s, i, pos, max) == max || i <= Greatest(s, i, pos, max) < pos
    decreases pos - i
  {
    if i < pos {
      GreatestIn(s, i + 1, pos, if Compare(Cell(s, i), Cell(s, max)) > 0 then i else max);
    }
  }

  /** Where le_cmp can be trusted, it is a greatest one. */
  lemma {:induction false} GreatestIs(s: seq<Entry>, base: int, l: int, i: int, pos: int, max: int)
    requires |s| == LOG_LEN && base <= l <= i <= pos < base + LOG_LEN && l <= max <= pos
    requires Trusted(Ring(s, base), l - base, pos - base + 1)
    requires AtMost(Cell(s, pos), Cell(s, max)) && forall k | l <= k < i :: AtMost(Cell(s, k), Cell(s, max))
    ensures var g := Greatest(s, i, pos, max);
            && l <= g <= pos && AtMost(Cell(s, pos), Cell(s, g))
            && forall k | l <= k < pos :: AtMost(Cell(s, k), Cell(s, g))
    decreases pos - i
  {
    hide Cell, Compare, Ring;
    if i < pos {
      RingCell(s, base, i);
      RingCell(s, base, max);
      var r := Ring(s, base);
      assert Agrees(r[i - base], r[max - base]) && Agrees(r[max - base], r[i - base]);
      var max' := if Compare(Cell(s, i), Cell(s, max)) > 0 then i else max;
      GreatestIs(s, base, l, i + 1, pos, max');
    }
  }

  lemma {:induction false} RingExchanged(s: seq<Entry>, base: int, i: int, j: int)
    requires |s| == LOG_LEN && base <= i < base + LOG_LEN && base <= j < base + LOG_LEN
    ensures Ring(Exchanged(s, i, j), base) == Swapped(Ring(s, base), i - base, j - base)
  {
    hide Cell, Stored, Ring;
    RingCell(s, base, i);
    RingCell(s, base, j);
    RingStored(s, base, i, Cell(s, j));
    RingStored(Stored(s, i, Cell(s, j)), base, j, Cell(s, i));
  }

  /** Whatever the keys, short_sort permutes the range. */
  lemma {:induction false} SelectedShuffles(s: seq<Entry>, base: int, l: int, pos: int)
    requires |s| == LOG_LEN && base <= l <= pos + 1 && pos < base + LOG_LEN
    ensures Shuffled(Ring(s, base), Ring(Selected(s, l, pos), base), l - base, pos - base + 1)
    decreases pos - l
  {
    hide Ring, Shuffled, Swapped, Greatest, Exchanged, Selected;
    var lo, hi, r := l - base, pos - base + 1, Ring(s, base);
    SelectedStep(s, l, pos);
    if pos <= l {
      ShuffledSame(r, lo, hi);
    } else {
      var max := Greatest(s, l, pos, pos);
      GreatestIn(s, l, pos, pos);
      var s1 := Exchanged(s, max, pos);
      RingExchanged(s, base, max, pos);
      SwapShuffles(r, lo, hi, max - base, pos - base);
      SelectedShuffles(s1, base, l, pos - 1);
      var r1, r2 := Ring(s1, base), Ring(Selected(s1, l, pos - 1), base);
      ShuffledWiden(r1, r2, lo, hi - 1, lo, hi);
      ShuffledTrans(r, r1, r2, lo, hi);
    }
  }

  /** Everything up to p is at most everything after it. */
  ghost predicate Divided(r: seq<Entry>, lo: int, p: int, hi: int)
    requires 0 <= lo && hi <= |r|
  {
    forall i, j | lo <= i <= p < j < hi :: AtMost(r[i], r[j])
  }

  /** One round of short_sort grows the sorted tail by one. */
  lemma {:induction false} MaxPlaced(r1: seq<Entry>, r2: seq<Entry>, lo: int, hi: int, max: int, p: int)
    requires 0 <= lo <= max <= p < hi <= |r1| && r2 == Swapped(r1, max, p)
    requires Sorted(r1, p + 1, hi) && Divided(r1, lo, p, hi)
    requires forall k | lo <= k <= p :: AtMost(r1[k], r1[max])
    ensures Sorted(r2, p, hi) && Divided(r2, lo, p - 1, hi)
  {
    hide AtMost;
  }

  lemma {:induction false} OneLeft(r: seq<Entry>, lo: int, hi: int)
    requires 0 <= lo < hi <= |r| && Sorted(r, lo + 1, hi) && Divided(r, lo, lo, hi)
    ensures Sorted(r, lo, hi)
  {
    hide AtMost;
  }

  /** Where le_cmp can be trusted, it sorts. */
  lemma {:induction false} SelectedSorts(s: seq<Entry>, base: int, l: int, pos: int, hi: int)
    requires |s| == LOG_LEN && base <= l <= pos < base + hi && hi <= LOG_LEN
    requires Trusted(Ring(s, base), l - base, hi)
    requires Sorted(Ring(s, base), pos - base + 1, hi) && Divided(Ring(s, base), l - base, pos - base, hi)
    ensures Sorted(Ring(Selected(s, l, pos), base), l - base, hi)
    decreases pos - l
  {
    hide Ring, Shuffled, Swapped, Greatest, Exchanged, Selected, Sorted, Divided, Trusted, AtMost;
    var lo, p, r := l - base, pos - base, Ring(s, base);
    SelectedStep(s, l, pos);
    if pos > l {
      var max := Greatest(s, l, pos, pos);
      TrustedIn(r, lo, hi, lo, p + 1);
      MaxOfRing(s, base, l, pos);
      RingExchanged(s, base, max, pos);
      var s1 := Exchanged(s, max, pos);
      SwapShuffles(r, lo, hi, max - base, p);
      ShuffledTrusted(r, Ring(s1, base), lo, hi);
      MaxPlaced(r, Ring(s1, base), lo, hi, max - base, p);
      SelectedSorts(s1, base, l, pos - 1, hi);
    } else {
      OneLeft(r, lo, hi);
    }
  }

  lemma {:induction false} MaxOfRing(s: seq<Entry>, base: int, l: int, pos: int)
    requires |s| == LOG_LEN && base <= l <= pos < base + LOG_LEN
    requires Trusted(Ring(s, base), l - base, pos - base + 1)
    ensures var max, r := Greatest(s, l, pos, pos), Ring(s, base);
            l <= max <= pos && forall k | l - base <= k <= pos - base :: AtMost(r[k], r[max - base])
  {
    hide Ring, Cell, AtMost, Trusted, Greatest;
    AtMostSelf(Cell(s, pos));
    GreatestIs(s, base, l, l, pos, pos);
    var max, r := Greatest(s, l, pos, pos), Ring(s, base);
    RingCell(s, base, max);
    forall k | l - base <= k <= pos - base
      ensures AtMost(r[k], r[max - base])
    {
      RingCell(s, base, base + k);
    }
  }

  /** short_sort: as the functions above; so it permutes the range whatever the keys, touches nothing else, and
      sorts it if le_cmp can be trusted there. */
  method ShortSort(entries: array<Entry>, l: int, r: int)
    requires entries.Length == LOG_LEN
    modifies entries
    ensures entries[..] == Selected(old(entries[..]), l, r)
    ensures l <= r + 1 && r < l + LOG_LEN ==>
              var before, after, n := old(Ring(entries[..], l)), Ring(entries[..], l), r - l + 1;
              Shuffled(before, after, 0, n) && (Trusted(before, 0, n) ==> Sorted(after, 0, n))
  {
    hide Ring, Shuffled, Sorted, Trusted, Divided;
    ghost var s := entries[..];
    SortedOutright(s, l, r);
    if l >= r {
      return;
    }
    var pos := r;
    while pos > l
      invariant l <= pos && Selected(entries[..], l, pos) == Selected(s, l, r)
    {
      ghost var t := entries[..];
      var max, i := pos, l;
      while i < pos
        invariant i <= pos && Greatest(t, i, pos, max) == Greatest(t, l, pos, pos)
      {
        if Compare(entries[i % 32768], entries[max % 32768]) > 0 {
          max := i;
        }
        i := i + 1;
      }
      var tmp := entries[max % 32768];
      entries[max % 32768] := entries[pos % 32768];
      entries[pos % 32768] := tmp;
      assert entries[..] == Exchanged(t, max, pos);
      pos := pos - 1;
    }
  }

  lemma {:induction false} SortedOutright(s: seq<Entry>, l: int, r: int)
    requires |s| == LOG_LEN
    ensures l <= r + 1 && r < l + LOG_LEN ==>
              var before, after, n := Ring(s, l), Ring(Selected(s, l, r), l), r - l + 1;
              Shuffled(before, after, 0, n) && (Trusted(before, 0, n) ==> Sorted(after, 0, n))
  {
    hide Ring, Shuffled, Trusted;
    if l <= r + 1 && r < l + LOG_LEN {
      SelectedShuffles(s, l, l, r);
      if Trusted(Ring(s, l), 0, r - l + 1) && l <= r {
        SelectedSorts(s, l, l, r, r - l + 1);
      }
    }
  }

  // ---------- partition ----------

  /** The inner loops of partition: down from r past entries not below the pivot, up from l past entries not above
      it. */
  function Down(s: seq<Entry>, m: Entry, l: int, r: int): (q: int)
    requires |s| == LOG_LEN
    ensures q <= r && (l <= r ==> l <= q)
    decreases r - l
  {
    if l < r && Compare(Cell(s, r), m) >= 0 then Down(s, m, l, r - 1) else r
  }

  function Up(s: seq<Entry>, m: Entry, l: int, r: int): (q: int)
    requires |s| == LOG_LEN
    ensures l <= q && (l <= r ==> q <= r)
    decreases r - l
  {
    if l < r && Compare(Cell(s, l), m) <= 0 then Up(s, m, l + 1, r) else l
  }

  /** The array and both ends of the loop of partition; the hole is at l. */
  datatype Parting = Parting(entries: seq<Entry>, l: int, r: int)

  function Round(s: seq<Entry>, m: Entry, l: int, r: int): (t: Parting)
    requires |s| == LOG_LEN
    ensures |t.entries| == LOG_LEN && (l < r ==> l <= t.l <= t.r <= r && t.r - t.l < r - l)
  {
    var r' := Down(s, m, l, r);
    var s' := Stored(s, l, Cell(s, r'));
    var l' := Up(s', m, l, r');
    Parting(Stored(s', r', Cell(s', l')), l', r')
  }

  /** The loop of partition, and the pivot put into the hole. */
  function Parted(s: seq<Entry>, m: Entry, l: int, r: int): (res: (seq<Entry>, int))
    requires |s| == LOG_LEN
    ensures |res.0| == LOG_LEN && (if l < r then l <= res.1 <= r else res.1 == l)
    decreases r - l
  {
    if l >= r then (Stored(s, l, m), l)
    else
      var t := Round(s, m, l, r);
      Parted(t.entries, m, t.l, t.r)
  }

  /** partition: around the entry in the middle; l + r may wrap. */
  function Partitioned(s: seq<Entry>, l: int, r: int): (res: (seq<Entry>, int))
    requires |s| == LOG_LEN
    ensures |res.0| == LOG_LEN && (if l < r then l <= res.1 <= r else res.1 == l)
  {
    var mi := Truncated(l + r) / 2;
    Parted(Exchanged(s, mi, l), Cell(s, mi), l, r)
  }

  /** (l + r) >> 1 in wrapping ints: the sum may overflow, but 2^31 is a multiple of the ring's length, so the
      slot is the one halfway between. */
  lemma {:induction false} MidSlot(l: int, r: int)
    ensures Truncated(l + r) / 2 % 32768 == (l + r) / 2 % 32768
  {
    var x := l + r;
    var k := if Unsigned(x) >= 0x8000_0000 then x / 0x1_0000_0000 + 1 else x / 0x1_0000_0000;
    assert Truncated(x) == x - 0x1_0000_0000 * k;
    assert Truncated(x) / 2 == x / 2 - 0x8000_0000 * k;
    var y := x / 2;
    assert 0x8000_0000 * k == 32768 * (0x1_0000 * k);
    RingMultiple(y, 0 - 0x1_0000 * k);
  }

  lemma {:induction false} HoleSwap(r: seq<Entry>, hole: int, to: int, m: Entry)
    requires 0 <= hole < |r| && 0 <= to < |r|
    ensures r[hole := r[to]][to := m] == Swapped(r[hole := m], hole, to)
  {
  }

  /** One round of the loop moves the hole from a to b and on to c; with the pivot in the hole that is a
      permutation. */
  lemma {:induction false} HoleMoves(r: seq<Entry>, lo: int, hi: int, a: int, b: int, c: int, m: Entry)
    requires 0 <= lo <= a < hi <= |r| && lo <= b < hi && lo <= c < hi
    ensures var r' := r[a := r[b]]; Shuffled(r[a := m], r'[b := r'[c]][c := m], lo, hi)
  {
    hide Shuffled, Swapped;
    var r' := r[a := r[b]];
    var v := r[a := m];
    HoleSwap(r, a, b, m);
    HoleSwap(r', b, c, m);
    SwapShuffles(v, lo, hi, a, b);
    SwapShuffles(r'[b := m], lo, hi, b, c);
    ShuffledTrans(v, r'[b := m], r'[b := r'[c]][c := m], lo, hi);
  }

  /** The state after one round, seen as a ring. */
  lemma {:induction false} RingRound(s: seq<Entry>, base: int, m: Entry, l: int, r: int)
    requires |s| == LOG_LEN && base <= l < r < base + LOG_LEN
    ensures var R, t := Ring(s, base), Round(s, m, l, r);
            var R' := R[l - base := R[t.r - base]];
            Ring(t.entries, base) == R'[t.r - base := R'[t.l - base]]
  {
    hide Ring, Cell, Stored, Compare, Up, Down;
    var t := Round(s, m, l, r);
    var s' := Stored(s, l, Cell(s, t.r));
    RingCell(s, base, t.r);
    RingStored(s, base, l, Cell(s, t.r));
    RingCell(s', base, t.l);
    RingStored(s', base, t.r, Cell(s', t.l));
  }

  /** The ring with the pivot put into the hole. */
  ghost function Filled(s: seq<Entry>, base: int, l: int, m: Entry): (v: seq<Entry>)
    requires |s| == LOG_LEN && base <= l < base + LOG_LEN
    ensures |v| == LOG_LEN
  {
    Ring(s, base)[l - base := m]
  }

  /** A round permutes the range, whatever the keys, the pivot counted at the hole. */
  lemma {:induction false} RoundShuffles(s: seq<Entry>, base: int, m: Entry, l: int, r: int)
    requires |s| == LOG_LEN && base <= l < r < base + LOG_LEN
    ensures var t := Round(s, m, l, r);
            Shuffled(Filled(s, base, l, m), Filled(t.entries, base, t.l, m), l - base, r - base + 1)
  {
    hide Ring, Round, Shuffled;
    var t := Round(s, m, l, r);
    RingRound(s, base, m, l, r);
    HoleMoves(Ring(s, base), l - base, r - base + 1, l - base, t.r - base, t.l - base, m);
  }

  lemma {:induction false} PartedStep(s: seq<Entry>, m: Entry, l: int, r: int)
    requires |s| == LOG_LEN
    ensures l >= r ==> Parted(s, m, l, r) == (Stored(s, l, m), l)
    ensures l < r ==> var t := Round(s, m, l, r); Parted(s, m, l, r) == Parted(t.entries, m, t.l, t.r)
  {
  }

  /** So does the loop. */
  lemma {:induction false} PartedShuffles(s: seq<Entry>, base: int, m: Entry, l: int, r: int)
    requires |s| == LOG_LEN && base <= l <= r < base + LOG_LEN
    ensures Shuffled(Filled(s, base, l, m), Ring(Parted(s, m, l, r).0, base), l - base, r - base + 1)
    decreases r - l
  {
    hide Ring, Shuffled, Stored, Round, Parted, Filled;
    PartedStep(s, m, l, r);
    if l == r {
      FilledIs(s, base, l, m);
      ShuffledSame(Filled(s, base, l, m), l - base, r - base + 1);
    } else {
      var t := Round(s, m, l, r);
      RoundShuffles(s, base, m, l, r);
      PartedShuffles(t.entries, base, m, t.l, t.r);
      var z := Ring(Parted(t.entries, m, t.l, t.r).0, base);
      ShuffledChain(Filled(s, base, l, m), Filled(t.entries, base, t.l, m), z, l - base, r - base + 1, t.l - base,
                    t.r - base + 1);
    }
  }

  lemma {:induction false} FilledIs(s: seq<Entry>, base: int, l: int, m: Entry)
    requires |s| == LOG_LEN && base <= l < base + LOG_LEN
    ensures Ring(Stored(s, l, m), base) == Filled(s, base, l, m)
  {
    hide Ring, Stored;
    RingStored(s, base, l, m);
  }

  /** What the inner loops pass over is on its side of the pivot. */
  lemma {:induction false} DownPasses(s: seq<Entry>, m: Entry, l: int, r: int, k: int)
    requires |s| == LOG_LEN && Down(s, m, l, r) < k <= r
    ensures Compare(Cell(s, k), m) >= 0
    decreases r - l
  {
    if k < r {
      DownPasses(s, m, l, r - 1, k);
    }
  }

  lemma {:induction false} UpPasses(s: seq<Entry>, m: Entry, l: int, r: int, k: int)
    requires |s| == LOG_LEN && l <= k < Up(s, m, l, r)
    ensures Compare(Cell(s, k), m) <= 0
    decreases r - l
  {
    if l < k {
      UpPasses(s, m, l + 1, r, k);
    }
  }

  /** Left of the new l a round leaves entries at most the pivot, right of the new r at least, where le_cmp can be
      trusted. */
  lemma {:induction false} RoundLow(s: seq<Entry>, base: int, m: Entry, l: int, r: int, k: int)
    requires |s| == LOG_LEN && base <= l < r < base + LOG_LEN
    requires Trusted(Filled(s, base, l, m), l - base, r - base + 1)
    requires base + k < Round(s, m, l, r).l && l <= base + k
    ensures AtMost(Ring(Round(s, m, l, r).entries, base)[k], m)
  {
    hide Ring, Cell, Stored, Compare, Up, Down;
    var t, R := Round(s, m, l, r), Ring(s, base);
    var s', V := Stored(s, l, Cell(s, t.r)), R[l - base := m];
    RingRound(s, base, m, l, r);
    RingCell(s, base, t.r);
    RingStored(s, base, l, Cell(s, t.r));
    UpPasses(s', m, l, t.r, base + k);
    RingCell(s', base, base + k);
    assert Agrees(V[if base + k == l then t.r - base else k], V[l - base]);
  }

  lemma {:induction false} RoundHigh(s: seq<Entry>, base: int, m: Entry, l: int, r: int, k: int)
    requires |s| == LOG_LEN && base <= l < r < base + LOG_LEN
    requires Trusted(Filled(s, base, l, m), l - base, r - base + 1)
    requires Round(s, m, l, r).r < base + k <= r
    ensures AtMost(m, Ring(Round(s, m, l, r).entries, base)[k])
  {
    hide Ring, Cell, Stored, Compare, Up, Down;
    var V := Ring(s, base)[l - base := m];
    RingRound(s, base, m, l, r);
    DownPasses(s, m, l, r, base + k);
    RingCell(s, base, base + k);
    assert Agrees(V[k], V[l - base]);
  }

  /** Everything left of p is at most the entry there, everything right of it at least. */
  ghost predicate Around(r: seq<Entry>, lo: int, p: int, hi: int)
    requires 0 <= lo <= p < hi <= |r|
  {
    && (forall k | lo <= k < p :: AtMost(r[k], r[p]))
    && forall k | p < k < hi :: AtMost(r[p], r[k])
  }

  /** Where le_cmp can be trusted, the loop divides the range around the pivot. */
  lemma {:induction false} PartedDivides(s: seq<Entry>, base: int, m: Entry, l: int, r: int)
    requires |s| == LOG_LEN && base <= l <= r < base + LOG_LEN
    requires Trusted(Filled(s, base, l, m), l - base, r - base + 1)
    ensures var (t, p) := Parted(s, m, l, r);
            l <= p <= r && Ring(t, base)[p - base] == m && Around(Ring(t, base), l - base, p - base, r - base + 1)
    decreases r - l
  {
    hide Ring, Stored, Round, Trusted, AtMost, Shuffled, Around;
    if l == r {
      RingStored(s, base, l, m);
      AroundOne(Ring(Stored(s, l, m), base), l - base);
    } else {
      var t, v := Round(s, m, l, r), Filled(s, base, l, m);
      var v', lo, hi := Filled(t.entries, base, t.l, m), l - base, r - base + 1;
      RoundShuffles(s, base, m, l, r);
      RoundSides(s, base, m, l, r);
      ShuffledTrusted(v, v', lo, hi);
      TrustedIn(v', lo, hi, t.l - base, t.r - base + 1);
      PartedDivides(t.entries, base, m, t.l, t.r);
      PartedShuffles(t.entries, base, m, t.l, t.r);
      var (z, p) := Parted(s, m, l, r);
      AroundWiden(v', Ring(z, base), lo, t.l - base, p - base, t.r - base + 1, hi);
    }
  }

  lemma {:induction false} RoundSides(s: seq<Entry>, base: int, m: Entry, l: int, r: int)
    requires |s| == LOG_LEN && base <= l < r < base + LOG_LEN
    requires Trusted(Filled(s, base, l, m), l - base, r - base + 1)
    ensures var t := Round(s, m, l, r);
            var v' := Filled(t.entries, base, t.l, m);
            && (forall k | l - base <= k < t.l - base :: AtMost(v'[k], m))
            && forall k | t.r - base < k < r - base + 1 :: AtMost(m, v'[k])
  {
    hide Ring, Round, Trusted, AtMost;
    var t := Round(s, m, l, r);
    var v' := Filled(t.entries, base, t.l, m);
    forall k | l - base <= k < t.l - base
      ensures AtMost(v'[k], m)
    {
      RoundLow(s, base, m, l, r, k);
    }
    forall k | t.r - base < k < r - base + 1
      ensures AtMost(m, v'[k])
    {
      RoundHigh(s, base, m, l, r, k);
    }
  }

  lemma {:induction false} AroundOne(r: seq<Entry>, p: int)
    requires 0 <= p < |r|
    ensures Around(r, p, p, p + 1)
  {
  }

  lemma {:induction false} AroundWiden(v: seq<Entry>, z: seq<Entry>, lo: int, lo': int, p: int, hi': int, hi: int)
    requires 0 <= lo <= lo' <= p < hi' <= hi <= |v| == |z| && Shuffled(v, z, lo', hi') && Around(z, lo', p, hi')
    requires (forall k | lo <= k < lo' :: AtMost(v[k], z[p])) && forall k | hi' - 1 < k < hi :: AtMost(z[p], v[k])
    ensures Around(z, lo, p, hi)
  {
    hide AtMost, Shuffled;
    Outside(v, z, lo', hi');
  }

  lemma {:induction false} Outside(r: seq<Entry>, r': seq<Entry>, lo: int, hi: int)
    requires Shuffled(r, r', lo, hi)
    ensures |r| == |r'| && forall k | 0 <= k < |r| && !(lo <= k < hi) :: r'[k] == r[k]
  {
    forall k | 0 <= k < |r| && !(lo <= k < hi)
      ensures r'[k] == r[k]
    {
      var k' := Source(r, r', lo, hi, k);
    }
  }

  lemma {:induction false} RingMid(s: seq<Entry>, base: int, l: int, r: int)
    requires |s| == LOG_LEN && base <= l <= r < base + LOG_LEN
    ensures var mi, mid := Truncated(l + r) / 2, (l + r) / 2;
            && Cell(s, mi) == Ring(s, base)[mid - base] && Exchanged(s, mi, l) == Exchanged(s, mid, l)
            && Ring(Exchanged(s, mi, l), base) == Swapped(Ring(s, base), mid - base, l - base)
            && Swapped(Ring(s, base), mid - base, l - base)[l - base] == Cell(s, mi)
  {
    hide Ring, Truncated;
    MidSlot(l, r);
    RingCell(s, base, (l + r) / 2);
    RingExchanged(s, base, (l + r) / 2, l);
  }

  /** The range permuted, around the entry that was in the middle. */
  lemma {:induction false} PartitionedIs(s: seq<Entry>, base: int, l: int, r: int)
    requires |s| == LOG_LEN && base <= l < r < base + LOG_LEN
    ensures var (t, p) := Partitioned(s, l, r);
            && Shuffled(Ring(s, base), Ring(t, base), l - base, r - base + 1)
            && (Trusted(Ring(s, base), l - base, r - base + 1) ==>
                  && Ring(t, base)[p - base] == Ring(s, base)[(l + r) / 2 - base]
                  && Around(Ring(t, base), l - base, p - base, r - base + 1))
  {
    hide Ring, Cell, Stored, Shuffled, Parted, Exchanged, Trusted, Swapped, Around;
    var lo, hi, R := l - base, r - base + 1, Ring(s, base);
    var mi, mid := Truncated(l + r) / 2, (l + r) / 2;
    RingMid(s, base, l, r);
    var s1, m := Exchanged(s, mi, l), Cell(s, mi);
    SwapShuffles(R, lo, hi, mid - base, lo);
    PartedShuffles(s1, base, m, l, r);
    RingStored(s1, base, l, m);
    var R1 := Ring(s1, base);
    assert R1[lo := m] == R1;
    ShuffledTrans(R, R1, Ring(Parted(s1, m, l, r).0, base), lo, hi);
    if Trusted(R, lo, hi) {
      ShuffledTrusted(R, R1, lo, hi);
      PartedDivides(s1, base, m, l, r);
    }
  }

  method ScanDown(entries: array<Entry>, m: Entry, l: int, r: int) returns (q: int)
    requires entries.Length == LOG_LEN
    ensures q == Down(entries[..], m, l, r)
  {
    hide Compare;
    q := r;
    while l < q && Compare(entries[q % 32768], m) >= 0
      invariant Down(entries[..], m, l, q) == Down(entries[..], m, l, r)
      decreases q - l
    {
      q := q - 1;
    }
  }

  method ScanUp(entries: array<Entry>, m: Entry, l: int, r: int) returns (q: int)
    requires entries.Length == LOG_LEN
    ensures q == Up(entries[..], m, l, r)
  {
    hide Compare;
    q := l;
    while q < r && Compare(entries[q % 32768], m) <= 0
      invariant Up(entries[..], m, q, r) == Up(entries[..], m, l, r)
      decreases r - q
    {
      q := q + 1;
    }
  }

  /** entry(i) = e */
  method Store(entries: array<Entry>, i: int, e: Entry)
    requires entries.Length == LOG_LEN
    modifies entries
    ensures entries[..] == Stored(old(entries[..]), i, e)
  {
    entries[i % 32768] := e;
  }

  /** partition: as the functions above; so it permutes the range whatever the keys, touches nothing else, and, if
      le_cmp can be trusted there, divides it around the entry that was in the middle. */
  method Partition(entries: array<Entry>, l0: int, r0: int) returns (p: int)
    requires entries.Length == LOG_LEN
    modifies entries
    ensures (entries[..], p) == Partitioned(old(entries[..]), l0, r0)
    ensures l0 < r0 < l0 + LOG_LEN ==>
              var before, after, n := old(Ring(entries[..], l0)), Ring(entries[..], l0), r0 - l0 + 1;
              && l0 <= p <= r0 && Shuffled(before, after, 0, n)
              && (Trusted(before, 0, n) ==> after[p - l0] == before[(l0 + r0) / 2 - l0] && Around(after, 0, p - l0, n))
  {
    hide Ring, Shuffled, Trusted, Around, Up, Down, Stored, Truncated;
    ghost var s := entries[..];
    if l0 < r0 < l0 + LOG_LEN {
      PartitionedIs(s, l0, l0, r0);
    }
    var l, r := l0, r0;
    var mi := Truncated(l + r) / 2;
    var m := entries[mi % 32768];
    Store(entries, mi, entries[l % 32768]);
    Store(entries, l, m);
    while l < r
      invariant Parted(entries[..], m, l, r) == Partitioned(s, l0, r0)
      decreases r - l
    {
      ghost var t := Round(entries[..], m, l, r);
      r := ScanDown(entries, m, l, r);
      Store(entries, l, entries[r % 32768]);
      l := ScanUp(entries, m, l, r);
      Store(entries, r, entries[l % 32768]);
      assert t == Parting(entries[..], l, r);
    }
    Store(entries, l, m);
    p := l;
  }

  // ---------- the worst case ----------

  /** A range whose middle entry is not above any other: the pivot goes to the front and only swaps places. */
  lemma {:induction false} PartedLeast(s: seq<Entry>, m: Entry, l: int, r: int)
    requires |s| == LOG_LEN && forall k | l < k <= r :: Compare(Cell(s, k), m) >= 0
    ensures Parted(s, m, l, r) == (Stored(s, l, m), l)
  {
    hide Compare;
    if l < r {
      DownAll(s, m, l, r);
      assert Stored(s, l, Cell(s, l)) == s;
    }
  }

  lemma {:induction false} DownAll(s: seq<Entry>, m: Entry, l: int, r: int)
    requires |s| == LOG_LEN && l <= r && forall k | l < k <= r :: Compare(Cell(s, k), m) >= 0
    ensures Down(s, m, l, r) == l
    decreases r - l
  {
    hide Compare;
    if l < r {
      DownAll(s, m, l, r - 1);
    }
  }

  /** A range whose middle entry is above all others: it goes to the end. */
  lemma {:induction false} PartedGreatest(s: seq<Entry>, m: Entry, l: int, r: int)
    requires |s| == LOG_LEN && l < r < l + LOG_LEN && forall k | l < k <= r :: Compare(Cell(s, k), m) < 0
    ensures Parted(s, m, l, r).1 == r
  {
    hide Compare;
    assert Compare(Cell(s, r), m) < 0;
    var s' := Stored(s, l, Cell(s, r));
    forall k | l <= k < r
      ensures Compare(Cell(s', k), m) <= 0
    {
      SlotsDiffer(l, k - l, 0);
      assert l + (k - l) == k;
      assert Cell(s', k) == Cell(s, if k == l then r else k);
    }
    UpAll(s', m, l, r);
    var t := Round(s, m, l, r);
    assert t.l == t.r == r;
  }

  lemma {:induction false} UpAll(s: seq<Entry>, m: Entry, l: int, r: int)
    requires |s| == LOG_LEN && l <= r && forall k | l <= k < r :: Compare(Cell(s, k), m) <= 0
    ensures Up(s, m, l, r) == r
    decreases r - l
  {
    hide Compare;
    if l < r {
      UpAll(s, m, l + 1, r);
    }
  }
}
