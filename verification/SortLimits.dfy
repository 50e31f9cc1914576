/** Where __log_sort goes wrong: from 36 entries on there are some that overflow its stack, and ranges at 2^31 are
    sorted wrongly or ruin what lies around them.  Together with LogSort this makes the conditions exact. */
module SortLimits {
  import opened Basics
  import opened LogEntry
  import opened LogRing
  import opened SortSteps
  import opened LogSort

  // ---------- arrays from rings ----------

  /** The array that reads r from index `base` on. */
  function Laid(r: seq<Entry>, base: int): (s: seq<Entry>)
    requires |r| == LOG_LEN
    ensures |s| == LOG_LEN
  {
    seq(LOG_LEN, i requires 0 <= i < LOG_LEN => r[(i - base) % 32768])
  }

  lemma {:induction false} RingLaid(r: seq<Entry>, base: int)
    requires |r| == LOG_LEN
    ensures Ring(Laid(r, base), base) == r
  {
    var a := Ring(Laid(r, base), base);
    forall k | 0 <= k < |a|
      ensures a[k] == r[k]
    {
      var q := (base + k) / 32768;
      assert (base + k) % 32768 - base == k + 32768 * (-q);
      RingMultiple(k, -q);
    }
  }

  // ---------- overflow ----------

  /** k rounds in a row, from the range [lo, n) on, find no entry below the one in the middle: the pivot goes to the
      front and the rest of the range is next. */
  ghost predicate LeastInMiddle(r: seq<Entry>, lo: nat, n: nat, k: nat)
    requires lo + k <= n <= |r|
    decreases k
  {
    k == 0
    || var mid := (lo + n - 1) / 2;
       (forall j | lo <= j < n :: Compare(r[j], r[mid]) >= 0) && LeastInMiddle(Swapped(r, mid, lo), lo + 1, n, k - 1)
  }

  /** One such round, wherever the window lies. */
  lemma {:induction false} LeastPartitioned(s: seq<Entry>, base: int, rest: seq<StackElem>, lo: nat, n: nat)
    requires |s| == LOG_LEN && lo + CUT_OFF < n <= LOG_LEN
    requires forall j | lo <= j < n :: Compare(Ring(s, base)[j], Ring(s, base)[(lo + n - 1) / 2]) >= 0
    ensures var o := Next(s, rest, ElemOf(base, Span(lo, n - 1)));
            && Ring(o.entries, base) == Swapped(Ring(s, base), (lo + n - 1) / 2, lo)
            && o.stack == rest + [ElemOf(base, Span(lo, lo - 1)), ElemOf(base, Span(lo + 1, n - 1))]
  {
    hide Ring, Partitioned, Unsigned, Swapped, Compare;
    var t := Span(lo, n - 1);
    var e := ElemOf(base, t);
    SpanReads(base, t);
    var l, r := Signed(e.left), Signed(e.right);
    var base' := l - lo;
    SameBase(base, lo, l);
    RingSame(s, base, base');
    RingSame(Partitioned(s, l, r).0, base, base');
    if r - l + 1 == n - lo {
      LeastGoesFirst(s, base', l, r);
    } else {
      StraddlePartitioned(s, base', l, r + 0x1_0000_0000);
    }
    var p := PivotPlace(s, base, rest, t);
    assert p == lo;
    Halfway(lo, n, base', l);
  }

  lemma {:induction false} Halfway(lo: int, n: int, base: int, l: int)
    requires l == base + lo
    ensures (l + (base + n - 1)) / 2 - base == (lo + n - 1) / 2
  {
    assert l + (base + n - 1) == lo + n - 1 + 2 * base;
  }

  lemma {:induction false} LeastGoesFirst(s: seq<Entry>, base: int, l: int, r: int)
    requires |s| == LOG_LEN && base <= l < r < base + LOG_LEN
    requires forall j | l - base <= j <= r - base :: Compare(Ring(s, base)[j], Ring(s, base)[(l + r) / 2 - base]) >= 0
    ensures var o := Partitioned(s, l, r);
            o.1 == l && Ring(o.0, base) == Swapped(Ring(s, base), (l + r) / 2 - base, l - base)
  {
    hide Ring, Compare, Truncated;
    RingMid(s, base, l, r);
    var mi, s1, R := Truncated(l + r) / 2, Exchanged(s, Truncated(l + r) / 2, l), Ring(s, base);
    var m := Cell(s, mi);
    forall k | l < k <= r
      ensures Compare(Cell(s1, k), m) >= 0
    {
      RingCell(s1, base, k);
      assert Ring(s1, base)[k - base] == if k == (l + r) / 2 then R[l - base] else R[k - base];
    }
    PartedLeast(s1, m, l, r);
    RingStored(s1, base, l, m);
  }

  /** A stack of one range per round, the last of them from lo on, with such rounds up to the 31st to come. */
  lemma {:induction false} Piles(s: seq<Entry>, base: int, n: nat, lo: nat, rest: seq<StackElem>)
    requires |s| == LOG_LEN && 36 <= n <= LOG_LEN && lo == |rest| <= 31 && LeastInMiddle(Ring(s, base), lo, n, 31 - lo)
    ensures SortRun(s, rest + [ElemOf(base, Span(lo, n - 1))]).ret == EOVERFLOW
    decreases 31 - lo
  {
    hide Ring, SortRun, Next, Compare, ElemLen, Swapped, ElemOf;
    var e := ElemOf(base, Span(lo, n - 1));
    SpanReads(base, Span(lo, n - 1));
    OneRound(s, rest, e);
    if lo < 31 {
      LeastPartitioned(s, base, rest, lo, n);
      var o := Next(s, rest, e);
      var rest' := rest + [ElemOf(base, Span(lo, lo - 1))];
      assert o.stack == rest' + [ElemOf(base, Span(lo + 1, n - 1))];
      Piles(o.entries, base, n, lo + 1, rest');
    }
  }

  /** Pages of one file. */
  function PageEntry(k: nat): Entry
    requires k < LOG_LEN
  {
    Entry(1, 256 * k + 1, 0, 0)
  }

  /** n pages of a file in the order that makes rounds l to 30 find the least of what is left in the middle. */
  ghost function Worst(n: nat, l: nat): (r: seq<Entry>)
    requires 36 <= n <= LOG_LEN && l <= 31
    ensures |r| == LOG_LEN
    decreases 31 - l
  {
    if l == 31 then seq(LOG_LEN, k requires 0 <= k < LOG_LEN => PageEntry(k))
    else Swapped(Worst(n, l + 1), (l + n - 1) / 2, l)
  }

  /** The pages before l are in place, those from l on still to be placed. */
  ghost predicate Placed(r: seq<Entry>, n: nat, l: nat)
    requires n <= |r| == LOG_LEN
  {
    && (forall j | 0 <= j < l && j < n :: r[j] == PageEntry(j))
    && forall j | l <= j < n :: r[j].ino == 1 && 256 * l + 1 <= r[j].pgi <= 256 * n
  }

  lemma {:induction false} WorstPlaced(n: nat, l: nat)
    requires 36 <= n <= LOG_LEN && l <= 31
    ensures Placed(Worst(n, l), n, l)
    decreases 31 - l
  {
    if l < 31 {
      WorstPlaced(n, l + 1);
    }
  }

  lemma {:induction false} SwapBack(r: seq<Entry>, i: int, j: int)
    requires 0 <= i < |r| && 0 <= j < |r|
    ensures Swapped(Swapped(r, i, j), i, j) == r && Swapped(r, i, j)[i] == r[j]
  {
  }

  lemma {:induction false} LeastPlaced(r: seq<Entry>, n: nat, l: nat, mid: nat)
    requires l < n <= |r| == LOG_LEN && mid < n && Placed(r, n, l) && r[mid] == PageEntry(l)
    ensures forall j | l <= j < n :: Compare(r[j], r[mid]) >= 0
  {
  }

  lemma {:induction false} WorstPiles(n: nat, l: nat)
    requires 36 <= n <= LOG_LEN && l <= 31
    ensures LeastInMiddle(Worst(n, l), l, n, 31 - l)
    decreases 31 - l
  {
    hide Swapped, Compare;
    if l < 31 {
      var r, r', mid := Worst(n, l), Worst(n, l + 1), (l + n - 1) / 2;
      WorstPlaced(n, l);
      WorstPlaced(n, l + 1);
      SwapBack(r', mid, l);
      LeastPlaced(r, n, l, mid);
      WorstPiles(n, l + 1);
    }
  }

  /** From 36 entries on, wherever they lie, the pages of one file can be such that the stack overflows. */
  lemma {:induction false} SomeOverflow(begin: u32, end: u32) returns (s: seq<Entry>)
    requires 36 <= SeqDist(begin, end) <= LOG_LEN
    ensures |s| == LOG_LEN && SortRun(s, [Target(begin, end)]).ret == EOVERFLOW
    ensures forall k | 0 <= k < SeqDist(begin, end) :: Ring(s, begin)[k].ino == 1 && Ring(s, begin)[k].pgi < 0x8000_0000
  {
    hide Ring, SortRun, LeastInMiddle, Target, Worst, Unsigned, SeqDist;
    var n: nat := SeqDist(begin, end);
    TargetIs(begin, end, n);
    var b := Unwrapped(begin, end).0;
    s := Laid(Worst(n, 0), b);
    RingLaid(Worst(n, 0), b);
    RingSame(s, begin, b);
    WorstPlaced(n, 0);
    WorstPiles(n, 0);
    Piles(s, b, n, 0, []);
    assert [] + [Target(begin, end)] == [Target(begin, end)];
  }

  // ---------- ranges at 2^31 ----------

  const SMALL: Entry := Entry(1, 0, 0, 0)
  const OURS: Entry := Entry(5, 0, 0, 0)
  const LARGE: Entry := Entry(9, 0, 0, 0)

  /** A range of n entries, all alike but the one in the middle, and around it larger and smaller ones. */
  ghost function Probe(n: nat, pivot: Entry): (r: seq<Entry>)
    requires n <= 35
    ensures |r| == LOG_LEN
  {
    seq(LOG_LEN, k requires 0 <= k < LOG_LEN =>
      if k < n then if k == (n - 1) / 2 then pivot else OURS else if k < LOG_LEN - 100 then LARGE else SMALL)
  }

  ghost predicate Tame(e: Entry) { e == SMALL || e == LARGE || (SMALL.ino < e.ino < LARGE.ino && e.pgi == 0) }

  /** Enough of the smaller and of the larger entries to fill any place the range could take. */
  ghost predicate Mixed(r: seq<Entry>) {
    |r| == LOG_LEN && multiset(r)[SMALL] >= 35 && multiset(r)[LARGE] >= 35 && forall i | 0 <= i < LOG_LEN :: Tame(r[i])
  }

  lemma {:induction false} MixedTrusted(r: seq<Entry>)
    requires Mixed(r)
    ensures Trusted(r, 0, LOG_LEN)
  {
    forall i, j | 0 <= i < LOG_LEN && 0 <= j < LOG_LEN
      ensures Agrees(r[i], r[j])
    {
      assert Tame(r[i]) && Tame(r[j]);
      NearKeysAgree(r[i], r[j]);
    }
  }

  /** Nothing of the range is where it was: its place is taken by entries from around it. */
  ghost predicate Ruined(r: seq<Entry>, n: nat)
    requires n <= |r|
  {
    forall k | 0 <= k < n :: r[k] == SMALL || r[k] == LARGE
  }

  lemma {:induction false} CountAll(q: seq<Entry>, e: Entry)
    requires forall i | 0 <= i < |q| :: q[i] == e
    ensures multiset(q)[e] == |q|
  {
    if q != [] {
      assert q == q[..|q| - 1] + [q[|q| - 1]];
      CountAll(q[..|q| - 1], e);
    }
  }

  lemma {:induction false} CountIn(r: seq<Entry>, lo: nat, hi: nat, e: Entry)
    requires lo <= hi <= |r| && forall i | lo <= i < hi :: r[i] == e
    ensures multiset(r)[e] >= hi - lo
  {
    assert r == r[..lo] + r[lo..hi] + r[hi..];
    CountAll(r[lo..hi], e);
  }

  lemma {:induction false} ProbeMixed(n: nat, pivot: Entry)
    requires n <= 35 && Tame(pivot)
    ensures Mixed(Probe(n, pivot))
  {
    var r := Probe(n, pivot);
    CountIn(r, 100, 200, LARGE);
    CountIn(r, LOG_LEN - 100, LOG_LEN, SMALL);
  }

  lemma {:induction false} Rotated(s: seq<Entry>, base: int)
    requires |s| == LOG_LEN
    ensures multiset(Ring(s, base)) == multiset(s)
  {
    var q := base % 32768;
    var r := Ring(s, base);
    forall k | 0 <= k < LOG_LEN
      ensures r[k] == (s[q..] + s[..q])[k]
    {
      RingMultiple(q + k, base / 32768);
      assert base + k == q + k + 32768 * (base / 32768);
    }
    assert r == s[q..] + s[..q] && s == s[..q] + s[q..];
  }

  lemma {:induction false} SameEntries(r: seq<Entry>, r': seq<Entry>)
    requires Mixed(r) && multiset(r) == multiset(r') && |r'| == |r|
    ensures Mixed(r')
  {
    hide Tame;
    forall i | 0 <= i < LOG_LEN
      ensures Tame(r'[i])
    {
      assert r'[i] in multiset(r') && r'[i] in r;
    }
  }

  lemma {:induction false} Sized(r: seq<Entry>)
    requires Mixed(r)
    ensures |r| == LOG_LEN
  {
  }

  lemma {:induction false} ExchangedSame(s: seq<Entry>, i: int, j: int)
    requires |s| == LOG_LEN
    ensures multiset(Exchanged(s, i, j)) == multiset(s)
  {
    var a, b := i % 32768, j % 32768;
    SwapShuffles(s, 0, LOG_LEN, a, b);
    assert s[0..LOG_LEN] == s && Swapped(s, a, b)[0..LOG_LEN] == Swapped(s, a, b) == Exchanged(s, i, j);
  }

  /** Once around the ring or more often, short_sort sorts all of it. */
  lemma {:induction false} SelectedAll(s: seq<Entry>, l: int, pos: int)
    requires Mixed(s) && pos - l >= LOG_LEN - 1 && l % 32768 == 0
    ensures var z := Selected(s, l, pos); multiset(z) == multiset(s) && Sorted(z, 0, LOG_LEN)
    decreases pos - l
  {
    hide Ring, Trusted, Sorted, Selected, Greatest, Exchanged, Mixed;
    Sized(s);
    if pos - l == LOG_LEN - 1 {
      RingZero(s, l);
      RingZero(Selected(s, l, pos), l);
      MixedTrusted(s);
      SelectedShuffles(s, l, l, pos);
      SortsSpan(s, l, l, pos);
      assert s[0..LOG_LEN] == s && Selected(s, l, pos)[0..LOG_LEN] == Selected(s, l, pos);
    } else {
      var s1 := Exchanged(s, Greatest(s, l, pos, pos), pos);
      ExchangedSame(s, Greatest(s, l, pos, pos), pos);
      SameEntries(s, s1);
      SelectedAll(s1, l, pos - 1);
      SelectedStep(s, l, pos);
    }
  }

  lemma {:induction false} RingZero(s: seq<Entry>, l: int)
    requires |s| == LOG_LEN && l % 32768 == 0
    ensures Ring(s, l) == s
  {
    RingSame(s, l, 0);
    assert Ring(s, 0) == s;
  }

  /** In a sorted ring the smaller entries come first and the larger last. */
  lemma {:induction false} FrontFilled(z: seq<Entry>, k: nat)
    requires Mixed(z) && Sorted(z, 0, LOG_LEN) && k < 35
    ensures z[k] == SMALL
  {
    if z[k] != SMALL {
      forall j | k <= j < LOG_LEN
        ensures z[j] != SMALL
      {
        assert Tame(z[k]) && (k < j ==> AtMost(z[k], z[j]));
      }
      CountOutside(z, k, LOG_LEN, SMALL);
    }
  }

  lemma {:induction false} BackFilled(z: seq<Entry>, k: nat)
    requires Mixed(z) && Sorted(z, 0, LOG_LEN) && LOG_LEN - 35 <= k < LOG_LEN
    ensures z[k] == LARGE
  {
    if z[k] != LARGE {
      forall j | 0 <= j <= k
        ensures z[j] != LARGE
      {
        assert Tame(z[k]) && (j < k ==> AtMost(z[j], z[k]));
      }
      CountOutside(z, 0, k + 1, LARGE);
    }
  }

  lemma {:induction false} CountOutside(z: seq<Entry>, lo: nat, hi: nat, e: Entry)
    requires lo <= hi <= |z| && forall j | lo <= j < hi :: z[j] != e
    ensures multiset(z)[e] <= |z| - (hi - lo)
  {
    assert z == z[..lo] + z[lo..hi] + z[hi..];
    assert e !in z[lo..hi];
    CountLess(z[..lo], e);
    CountLess(z[hi..], e);
  }

  lemma {:induction false} CountLess(q: seq<Entry>, e: Entry)
    ensures multiset(q)[e] <= |q|
  {
    if q != [] {
      assert q == q[..|q| - 1] + [q[|q| - 1]];
      CountLess(q[..|q| - 1], e);
    }
  }

  /** The window [b, b + n) of at most 35 places has 2^31 in it or at an end. */
  predicate AtMiddle(b: u32, n: nat) { n <= 35 && b <= 0x8000_0000 <= b + n }

  lemma {:induction false} Ruin(s: seq<Entry>, b: u32, n: nat)
    requires |s| == LOG_LEN && AtMiddle(b, n) && Mixed(Ring(s, b))
    ensures var r := Ring(Everything(s), b); Mixed(r) && Ruined(r, n) && Sorted(Everything(s), 0, LOG_LEN)
  {
    hide Mixed, Selected, Sorted;
    var z := Everything(s);
    Rotated(s, b);
    SameEntries(Ring(s, b), s);
    SelectedAll(s, -0x8000_0000, 0x7FFF_FFFF);
    SameEntries(s, z);
    Rotated(z, b);
    SameEntries(z, Ring(z, b));
    forall k | 0 <= k < n
      ensures Ring(z, b)[k] == SMALL || Ring(z, b)[k] == LARGE
    {
      var d := b + k - 0x8000_0000;
      if d >= 0 {
        RingMultiple(d, 65536);
        FrontFilled(z, d);
      } else {
        RingMultiple(d + LOG_LEN, 65535);
        BackFilled(z, d + LOG_LEN);
      }
    }
  }

  /** A round leaves the ring mixed, and the window shuffled within the span taken, or ruined. */
  lemma {:induction false} MixedStep(s: seq<Entry>, b: u32, n: nat, rest: seq<StackElem>, t: Span)
    requires |s| == LOG_LEN && AtMiddle(b, n) && Mixed(Ring(s, b)) && 0 <= t.first <= t.last + 1 <= n
    ensures var r, r' := Ring(s, b), Ring(Next(s, rest, ElemOf(b, t)).entries, b);
            && Mixed(r') && (Ruined(r, n) ==> Ruined(r', n))
            && (Shuffled(r, r', t.first, t.last + 1)
                || (Ruined(r', n) && t.last < t.first && ElemOf(b, t).left == 0x8000_0000))
  {
    hide Ring, Mixed, Next, ElemOf, Everything;
    StepShuffles(s, b, rest, t);
    Ruin(s, b, n);
    var r, r' := Ring(s, b), Ring(Next(s, rest, ElemOf(b, t)).entries, b);
    if Shuffled(r, r', t.first, t.last + 1) {
      ShuffledWiden(r, r', t.first, t.last + 1, 0, LOG_LEN);
      assert r[0..LOG_LEN] == r && r'[0..LOG_LEN] == r';
      SameEntries(r, r');
      if Ruined(r, n) {
        forall k | 0 <= k < n
          ensures r'[k] == SMALL || r'[k] == LARGE
        {
          var k' := Source(r, r', t.first, t.last + 1, k);
        }
      }
    }
  }

  /** Once ruined, the range stays so. */
  lemma {:induction false} StaysRuined(s: seq<Entry>, b: u32, n: nat, stack: seq<StackElem>, spans: seq<Span>)
    requires |s| == LOG_LEN && AtMiddle(b, n) && Mixed(Ring(s, b)) && Ruined(Ring(s, b), n)
    requires Holds(stack, spans, b) && Spaced(spans, n)
    ensures Ruined(Ring(SortRun(s, stack).entries, b), n)
    decreases Work(stack)
  {
    hide Ring, Mixed, Ruined, Next, ElemOf, SortRun, Spaced, ElemLen, Work;
    if stack == [] {
      NothingToSort(s);
    } else {
      var rest, rs, t := stack[..|stack| - 1], spans[..|spans| - 1], spans[|spans| - 1];
      assert stack == rest + [ElemOf(b, t)] && spans == rs + [t];
      SpanBounds(spans, n, |rs|);
      OneRound(s, rest, ElemOf(b, t));
      MixedStep(s, b, n, rest, t);
      var o := Next(s, rest, ElemOf(b, t));
      if !(ElemLen(ElemOf(b, t)) > CUT_OFF && |rest| > STACK_SIZE - 2) {
        var spans', p := StepSpaced(s, b, n, rest, rs, t);
        StaysRuined(o.entries, b, n, o.stack, spans');
      }
    }
  }

  /** An empty range at 2^31 below everything else on the stack ruins the range in the end. */
  lemma {:induction false} BottomRuins(s: seq<Entry>, b: u32, n: nat, stack: seq<StackElem>, spans: seq<Span>)
    requires |s| == LOG_LEN && AtMiddle(b, n) && b == 0x8000_0000 && Mixed(Ring(s, b)) && Holds(stack, spans, b)
             && Spaced(spans, n)
    requires spans != [] && spans[0] == Span(0, -1) && SortRun(s, stack).ret == 0
    ensures Ruined(Ring(SortRun(s, stack).entries, b), n)
    decreases Work(stack)
  {
    hide Ring, Mixed, Ruined, Next, ElemOf, SortRun, Spaced, ElemLen, Work;
    var rest, rs, t := stack[..|stack| - 1], spans[..|spans| - 1], spans[|spans| - 1];
    assert stack == rest + [ElemOf(b, t)] && spans == rs + [t];
    SpanBounds(spans, n, |rs|);
    OneRound(s, rest, ElemOf(b, t));
    var o := Next(s, rest, ElemOf(b, t));
    if |stack| == 1 {
      EmptyAtMiddle(s, b, t, rest);
      Ruin(s, b, n);
      assert rest == [];
      NothingToSort(o.entries);
    } else {
      MixedStep(s, b, n, rest, t);
      var spans', p := StepSpaced(s, b, n, rest, rs, t);
      assert spans'[0] == rs[0] == Span(0, -1);
      BottomRuins(o.entries, b, n, o.stack, spans');
    }
  }

  lemma {:induction false} MiddleElem(base: int, t: Span)
    requires base + t.first == 0x8000_0000 && t.last == t.first - 1
    ensures ElemOf(base, t) == StackElem(0x8000_0000, 0x7FFF_FFFF) && ElemLen(ElemOf(base, t)) == 0
    ensures Signed(0x8000_0000) == -0x8000_0000 && Signed(0x7FFF_FFFF) == 0x7FFF_FFFF
  {
  }

  lemma {:induction false} EmptyAtMiddle(s: seq<Entry>, base: int, t: Span, rest: seq<StackElem>)
    requires |s| == LOG_LEN && base + t.first == 0x8000_0000 && t.last == t.first - 1
    ensures Next(s, rest, ElemOf(base, t)) == Outcome(0, Everything(s), rest)
    ensures SortRun(s, [ElemOf(base, t)]) == Outcome(0, Everything(s), [])
  {
    hide SortRun, Selected, Partitioned, ElemOf, ElemLen, Signed;
    var e := ElemOf(base, t);
    MiddleElem(base, t);
    assert [] + [e] == [e];
    OneRound(s, [], e);
    NothingToSort(Everything(s));
  }

  /** A straddling range keeps its first entry, wrongly, once its first round has been: unless it is ruined. */
  ghost predicate FrontWrong(r: seq<Entry>, n: nat)
    requires n <= |r|
  {
    n >= 2 && r[0].ino == 6 && forall k | 1 <= k < n :: r[k] == OURS
  }

  lemma {:induction false} FrontStays(s: seq<Entry>, b: u32, n: nat, stack: seq<StackElem>, spans: seq<Span>)
    requires |s| == LOG_LEN && AtMiddle(b, n) && b < 0x8000_0000 && Mixed(Ring(s, b)) && FrontWrong(Ring(s, b), n)
    requires Holds(stack, spans, b) && Spaced(spans, n)
    requires forall k | 0 <= k < |spans| :: spans[k].first >= 1 || spans[k] == Span(0, -1)
    ensures var r := Ring(SortRun(s, stack).entries, b); FrontWrong(r, n) || Ruined(r, n)
    decreases Work(stack)
  {
    hide Ring, Mixed, Ruined, FrontWrong, Next, ElemOf, SortRun, Spaced, ElemLen, Work, Shuffled;
    if stack == [] {
      NothingToSort(s);
    } else {
      var rest, rs, t := stack[..|stack| - 1], spans[..|spans| - 1], spans[|spans| - 1];
      assert stack == rest + [ElemOf(b, t)] && spans == rs + [t];
      SpanBounds(spans, n, |rs|);
      OneRound(s, rest, ElemOf(b, t));
      MixedStep(s, b, n, rest, t);
      var o := Next(s, rest, ElemOf(b, t));
      var r, r' := Ring(s, b), Ring(o.entries, b);
      if t == Span(0, -1) {
        FirstElem(b, t);
      }
      if Shuffled(r, r', t.first, t.last + 1) {
        FrontKept(r, r', n, t);
      }
      if !(ElemLen(ElemOf(b, t)) > CUT_OFF && |rest| > STACK_SIZE - 2) {
        var spans', p := StepSpaced(s, b, n, rest, rs, t);
        if Ruined(r', n) {
          StaysRuined(o.entries, b, n, o.stack, spans');
        } else {
          FrontStays(o.entries, b, n, o.stack, spans');
        }
      }
    }
  }

  lemma {:induction false} FirstElem(b: u32, t: Span)
    requires b < 0x8000_0000 && t == Span(0, -1)
    ensures ElemOf(b, t).left != 0x8000_0000
  {
  }

  lemma {:induction false} FrontKept(r: seq<Entry>, r': seq<Entry>, n: nat, t: Span)
    requires n <= |r| && FrontWrong(r, n) && Shuffled(r, r', t.first, t.last + 1) && t.last < n
    requires t.first >= 1 || t == Span(0, -1)
    ensures |r'| == |r| && FrontWrong(r', n)
  {
    hide Shuffled;
    SameLength(r, r', t.first, t.last + 1);
    forall k | 0 <= k < n
      ensures r'[k] == if k == 0 then r[0] else OURS
    {
      var k' := Source(r, r', t.first, t.last + 1, k);
    }
  }

  // ---------- the exact conditions ----------

  /** The probe laid out at b, and what it shows. */
  lemma {:induction false} ProbeLaid(b: u32, n: nat, pivot: Entry)
    requires n <= 35 && 1 < pivot.ino < 9 && pivot.pgi == 0
    ensures var s := Laid(Probe(n, pivot), b);
            Ring(s, b) == Probe(n, pivot) && Mixed(Ring(s, b)) && Trusted(Ring(s, b), 0, n)
  {
    RingLaid(Probe(n, pivot), b);
    ProbeMixed(n, pivot);
    MixedTrusted(Probe(n, pivot));
    TrustedIn(Probe(n, pivot), 0, LOG_LEN, 0, n);
  }

  lemma {:induction false} RuinedNotShuffled(r': seq<Entry>, n: nat, pivot: Entry)
    requires 0 < n <= 35 && 1 < pivot.ino < 9 && |r'| == LOG_LEN && Ruined(r', n)
    ensures !Shuffled(Probe(n, pivot), r', 0, n)
  {
    if Shuffled(Probe(n, pivot), r', 0, n) {
      var k := FromShuffled(Probe(n, pivot), r', 0, n, 0);
    }
  }

  /** A straddling range of two entries or more: some stay unsorted. */
  lemma {:induction false} Straddling(b: u32, n: nat) returns (s: seq<Entry>)
    requires 2 <= n <= 35 && b < 0x8000_0000 < b + n
    ensures |s| == LOG_LEN && Trusted(Ring(s, b), 0, n)
    ensures var r, r' := Ring(s, b), Ring(SortRun(s, [ElemOf(b, Span(0, n - 1))]).entries, b);
            !Shuffled(r, r', 0, n) || !Sorted(r', 0, n)
  {
    hide Ring, SortRun, Shuffled, Mixed, Trusted, Probe;
    var pivot := Entry(6, 0, 0, 0);
    s := Laid(Probe(n, pivot), b);
    ProbeLaid(b, n, pivot);
    if n <= CUT_OFF {
      StraddlingUntouched(s, b, n);
      ProbeShort(n);
    } else {
      StraddlingLong(s, b, n);
    }
  }

  /** Up to four entries that straddle 2^31 are not touched at all. */
  lemma {:induction false} StraddlingUntouched(s: seq<Entry>, b: u32, n: nat)
    requires 2 <= n <= CUT_OFF && b < 0x8000_0000 < b + n && |s| == LOG_LEN
    ensures SortRun(s, [ElemOf(b, Span(0, n - 1))]) == Outcome(0, s, [])
  {
    hide SortRun, ElemLen, Partitioned, Selected, ElemOf;
    var e := ElemOf(b, Span(0, n - 1));
    assert [] + [e] == [e];
    OneRound(s, [], e);
    SpanReads(b, Span(0, n - 1));
    StraddlingEnds(b, n);
    NotSelected(s, Signed(e.left), Signed(e.right));
    NothingToSort(s);
  }

  /** Two entries out of order at 0x7FFF_FFFF and 0x8000_0000: 0 is returned and they stay as they are. */
  lemma {:induction false} TwoStayUnsorted(s: seq<Entry>)
    requires |s| == LOG_LEN && !AtMost(Cell(s, 0x7FFF_FFFF), Cell(s, 0x8000_0000))
    ensures SortRun(s, [Target(0x7FFF_FFFF, 0x8000_0001)]) == Outcome(0, s, []) && !Sorted(Ring(s, 0x7FFF_FFFF), 0, 2)
  {
    hide SortRun, Target, ElemOf, Ring, Cell;
    TargetIs(0x7FFF_FFFF, 0x8000_0001, 2);
    StraddlingUntouched(s, 0x7FFF_FFFF, 2);
    RingCell(s, 0x7FFF_FFFF, 0x7FFF_FFFF);
    RingCell(s, 0x7FFF_FFFF, 0x8000_0000);
    assert !AtMost(Ring(s, 0x7FFF_FFFF)[0], Ring(s, 0x7FFF_FFFF)[1]);
  }

  lemma {:induction false} ProbeShort(n: nat)
    requires 2 <= n <= CUT_OFF
    ensures !Sorted(Probe(n, Entry(6, 0, 0, 0)), 0, n)
  {
    assert !AtMost(Probe(n, Entry(6, 0, 0, 0))[(n - 1) / 2], Probe(n, Entry(6, 0, 0, 0))[n - 1]);
  }

  lemma {:induction false} StraddlingLong(s: seq<Entry>, b: u32, n: nat)
    requires CUT_OFF < n <= 35 && b < 0x8000_0000 < b + n && |s| == LOG_LEN
    requires Ring(s, b) == Probe(n, Entry(6, 0, 0, 0)) && Mixed(Ring(s, b))
    ensures var r, r' := Ring(s, b), Ring(SortRun(s, [ElemOf(b, Span(0, n - 1))]).entries, b);
            !Shuffled(r, r', 0, n) || !Sorted(r', 0, n)
  {
    hide Ring, SortRun, Shuffled, Mixed, ElemLen, Partitioned, Selected, ElemOf, Probe, Swapped, FrontWrong, Ruined,
         Spaced;
    var t, e := Span(0, n - 1), ElemOf(b, Span(0, n - 1));
    assert [] + [e] == [e] && [] + [t] == [t];
    OneRound(s, [], e);
    SpanReads(b, t);
    StraddlingEnds(b, n);
    var o := Next(s, [], e);
    StraddlePartitioned(s, b, b, b + n - 1);
    Halfway(0, n, b, b);
    ProbeFront(n);
    MixedStep(s, b, n, [], t);
    WindowStart(Ring(s, b), n, [t]);
    var spans', p := StepSpaced(s, b, n, [], [], t);
    FrontStays(o.entries, b, n, o.stack, spans');
    var r' := Ring(SortRun(s, [e]).entries, b);
    if Ruined(r', n) {
      RuinedNotShuffled(r', n, Entry(6, 0, 0, 0));
    } else {
      FrontUnsorted(r', n);
    }
  }

  lemma {:induction false} ProbeFront(n: nat)
    requires CUT_OFF < n <= 35
    ensures FrontWrong(Swapped(Probe(n, Entry(6, 0, 0, 0)), (0 + n - 1) / 2, 0), n)
  {
  }

  lemma {:induction false} FrontUnsorted(r: seq<Entry>, n: nat)
    requires n <= |r| && FrontWrong(r, n)
    ensures !Sorted(r, 0, n)
  {
    assert !AtMost(r[0], r[1]);
  }

  lemma {:induction false} StraddlingEnds(b: u32, n: nat)
    requires 2 <= n <= 35 && b < 0x8000_0000 < b + n
    ensures var e := ElemOf(b, Span(0, n - 1)); Signed(e.left) == b && Signed(e.right) == b + n - 1 - 0x1_0000_0000
  {
  }

  /** A range of five entries or more that starts at 2^31: the empty range left of a pivot at the front is taken for
      everything. */
  lemma {:induction false} Starting(n: nat) returns (s: seq<Entry>)
    requires 5 <= n <= 35
    ensures |s| == LOG_LEN
    ensures var r, r' := Ring(s, 0x8000_0000),
            Ring(SortRun(s, [ElemOf(0x8000_0000, Span(0, n - 1))]).entries, 0x8000_0000);
            !Shuffled(r, r', 0, n)
  {
    hide Ring, SortRun, Shuffled, Mixed, Trusted, ElemLen, Partitioned, Selected, ElemOf, Spaced, Compare, Probe,
         Ruined, Swapped, Laid;
    var b: u32, pivot, t := 0x8000_0000, Entry(4, 0, 0, 0), Span(0, n - 1);
    s := Laid(Probe(n, pivot), b);
    ProbeLaid(b, n, pivot);
    var e := ElemOf(b, t);
    assert [] + [e] == [e] && [] + [t] == [t];
    OneRound(s, [], e);
    SpanReads(b, t);
    ProbeLeast(n, pivot);
    LeastPartitioned(s, b, [], 0, n);
    MixedStep(s, b, n, [], t);
    var o, spans := Next(s, [], e), [Span(0, -1), Span(1, n - 1)];
    WindowStart(Ring(s, b), n, [t]);
    SpacedSplit([], t, 0, n);
    assert [] + [Span(0, 0 - 1), Span(0 + 1, t.last)] == spans;
    FewFit(s, [e], n);
    BottomRuins(o.entries, b, n, o.stack, spans);
    RuinedNotShuffled(Ring(SortRun(s, [e]).entries, b), n, pivot);
  }

  lemma {:induction false} ProbeLeast(n: nat, pivot: Entry)
    requires 0 < n <= 35 && pivot == Entry(4, 0, 0, 0)
    ensures forall j | 0 <= j < n :: Compare(Probe(n, pivot)[j], Probe(n, pivot)[(0 + n - 1) / 2]) >= 0
  {
  }

  /** One that ends before 2^31: the empty range right of a pivot at the end is. */
  lemma {:induction false} Ending(b: u32, n: nat) returns (s: seq<Entry>)
    requires 5 <= n <= 35 && b + n == 0x8000_0000
    ensures |s| == LOG_LEN
    ensures var r, r' := Ring(s, b), Ring(SortRun(s, [ElemOf(b, Span(0, n - 1))]).entries, b); !Shuffled(r, r', 0, n)
  {
    hide Ring, SortRun, Shuffled, Mixed, Trusted, ElemLen, Partitioned, Selected, ElemOf, Spaced, Compare, Probe,
         Ruined, Swapped, Laid;
    var pivot, t := Entry(6, 0, 0, 0), Span(0, n - 1);
    s := Laid(Probe(n, pivot), b);
    ProbeLaid(b, n, pivot);
    var e, rest := ElemOf(b, t), [ElemOf(b, Span(0, n - 2))];
    assert [] + [e] == [e] && [] + [t] == [t];
    OneRound(s, [], e);
    SpanReads(b, t);
    MixedStep(s, b, n, [], t);
    WindowStart(Ring(s, b), n, [t]);
    var spans, p := StepSpaced(s, b, n, [], [], t);
    ProbeGreatest(s, b, n, pivot);
    var o := Next(s, [], e);
    assert o.stack == rest + [ElemOf(b, Span(n, n - 1))] && spans == [Span(0, n - 2)] + [Span(n, n - 1)];
    OneRound(o.entries, rest, ElemOf(b, Span(n, n - 1)));
    EmptyAtMiddle(o.entries, b, Span(n, n - 1), rest);
    SpanReads(b, Span(n, n - 1));
    Ruin(o.entries, b, n);
    SpacedLess([Span(0, n - 2)], Span(n, n - 1), n);
    StaysRuined(Everything(o.entries), b, n, rest, [Span(0, n - 2)]);
    RuinedNotShuffled(Ring(SortRun(s, [e]).entries, b), n, pivot);
  }

  lemma {:induction false} ProbeGreatest(s: seq<Entry>, b: u32, n: nat, pivot: Entry)
    requires 5 <= n <= 35 && b + n == 0x8000_0000 && |s| == LOG_LEN && Ring(s, b) == Probe(n, pivot)
             && pivot == Entry(6, 0, 0, 0)
    ensures var e := ElemOf(b, Span(0, n - 1));
            Partitioned(s, Signed(e.left), Signed(e.right)).1 == Signed(e.left) + (n - 1)
  {
    hide Ring, Truncated, Parted;
    var l, r := b, b + n - 1;
    RingMid(s, b, l, r);
    Halfway(0, n, b, b);
    var s1, m := Exchanged(s, Truncated(l + r) / 2, l), Cell(s, Truncated(l + r) / 2);
    forall k | l < k <= r
      ensures Compare(Cell(s1, k), m) < 0
    {
      RingCell(s1, b, k);
    }
    PartedGreatest(s1, m, l, r);
  }

  /** Whatever the entries, the sort from an empty stack gets through and is right. */
  ghost predicate AlwaysRight(begin: u32, end: u32)
    requires SeqDist(begin, end) <= LOG_LEN
  {
    forall s | |s| == LOG_LEN :: GetsThrough(s, begin, end)
  }

  ghost predicate GetsThrough(s: seq<Entry>, begin: u32, end: u32)
    requires |s| == LOG_LEN && SeqDist(begin, end) <= LOG_LEN
  {
    var o := SortRun(s, [Target(begin, end)]);
    o.ret == 0 && SortedRight(s, begin, end, o)
  }

  /** __log_sort can be relied on exactly for ranges of at most 35 entries clear of 2^31. */
  lemma {:induction false} SortExactly(begin: u32, end: u32)
    requires SeqDist(begin, end) <= LOG_LEN
    ensures AlwaysRight(begin, end) <==> SeqDist(begin, end) <= 35 && Clear(begin, end)
  {
    hide SortRun, SortedRight, SeqDist, Clear, Target, Unwrapped;
    if SeqDist(begin, end) > 35 {
      var s := SomeOverflow(begin, end);
      assert !GetsThrough(s, begin, end);
    } else if !Clear(begin, end) {
      var s := SomeWrong(begin, end);
      assert !GetsThrough(s, begin, end);
    } else {
      forall s: seq<Entry> | |s| == LOG_LEN
        ensures GetsThrough(s, begin, end)
      {
        FromEmpty(s, begin, end);
      }
    }
  }

  lemma {:induction false} SomeWrong(begin: u32, end: u32) returns (s: seq<Entry>)
    requires SeqDist(begin, end) <= 35 && !Clear(begin, end)
    ensures |s| == LOG_LEN && !SortedRight(s, begin, end, SortRun(s, [Target(begin, end)]))
  {
    hide SortRun, SeqDist, Target, Ring, Shuffled, Sorted, Trusted, Unwrapped, ElemOf, Signed;
    var n: nat := SeqDist(begin, end);
    TargetIs(begin, end, n);
    UnwrappedIs(begin, end, n);
    var b := Unwrapped(begin, end).0;
    if n == 0 {
      s := Laid(Probe(0, OURS), b);
      EmptyWrong(s, b);
    } else if b == 0x8000_0000 {
      s := Starting(n);
    } else if b + n == 0x8000_0000 {
      s := Ending(b, n);
    } else {
      s := Straddling(b, n);
    }
    FromEmpty(s, begin, end);
    var o := SortRun(s, [Target(begin, end)]);
    RingSame(s, begin, b);
    RingSame(o.entries, begin, b);
  }

  lemma {:induction false} EmptyWrong(s: seq<Entry>, b: u32)
    requires b == 0x8000_0000 && s == Laid(Probe(0, OURS), b)
    ensures !Shuffled(Ring(s, b), Ring(SortRun(s, [ElemOf(b, Span(0, -1))]).entries, b), 0, 0)
  {
    hide SortRun, Mixed, Trusted, ElemOf, Selected, Ring, Probe, Shuffled, Laid, Sorted;
    ProbeLaid(b, 0, OURS);
    EmptyAtMiddle(s, b, Span(0, -1), []);
    Ruin(s, b, 0);
    RingZero(s, b);
    RingZero(Everything(s), b);
    ProbeUnsorted();
    ShuffledNone(s, Everything(s));
  }

  lemma {:induction false} ProbeUnsorted()
    ensures !Sorted(Probe(0, OURS), 0, LOG_LEN)
  {
    assert !AtMost(Probe(0, OURS)[0], Probe(0, OURS)[LOG_LEN - 1]);
  }

  lemma {:induction false} ShuffledNone(r: seq<Entry>, r': seq<Entry>)
    ensures Shuffled(r, r', 0, 0) ==> r == r'
  {
    assert r[0..] == r && r'[0..] == r';
  }
}
