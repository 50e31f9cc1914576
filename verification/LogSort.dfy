/** __log_sort: quicksort of a stretch of the circular log with an explicit stack (ada_log.c).  What the loop does to
    array and stack is a function of them; that it sorts, and that the stack is deep enough, are properties of that
    function, with the exact conditions. */
module LogSort {
  import opened Basics
  import opened LogEntry
  import opened LogRing
  import opened SortSteps

  const CUT_OFF: nat := 4
  const STACK_SIZE: nat := 32

  datatype StackElem = StackElem(left: u32, right: u32)

  function ElemLen(e: StackElem): u32 { Unsigned(e.right - e.left + 1) }

  /** What is left of a range on both sides of its pivot. */
  function Halves(e: StackElem, p: int): (h: seq<StackElem>)
    ensures |h| == 2
  {
    [StackElem(e.left, Unsigned(p - 1)), StackElem(Unsigned(p + 1), e.right)]
  }

  /** Work left: each range counts for a little more than its entries. */
  function Work(stack: seq<StackElem>): nat {
    if stack == [] then 0
    else
      var n := ElemLen(stack[|stack| - 1]);
      Work(stack[..|stack| - 1]) + if n == 0 then 1 else 2 * n + 1
  }

  lemma {:induction false} WorkLast(rest: seq<StackElem>, e: StackElem)
    ensures Work(rest + [e]) == Work(rest) + (if ElemLen(e) == 0 then 1 else 2 * ElemLen(e) + 1)
  {
    assert (rest + [e])[..|rest|] == rest;
  }

  lemma {:induction false} LenOf(a: int, b: int)
    ensures ElemLen(StackElem(Unsigned(a), Unsigned(b))) == Unsigned(b - a + 1)
  {
    var k := b / 0x1_0000_0000 - a / 0x1_0000_0000;
    assert b - a + 1 == Unsigned(b) - Unsigned(a) + 1 + 0x1_0000_0000 * k;
    WrappedMultiple(Unsigned(b) - Unsigned(a) + 1, k);
  }

  lemma {:induction false} SignedUnsigned(b: u32)
    ensures Unsigned(Signed(b)) == b
  {
  }

  /** Where partition can put the pivot of a range, as ints; a range whose ends are out of order as ints keeps it at
      the left end. */
  predicate PivotOf(e: StackElem, p: int) {
    if Signed(e.left) < Signed(e.right) then Signed(e.left) <= p <= Signed(e.right) else p == Signed(e.left)
  }

  /** Only the pivot is missing from the halves. */
  lemma {:induction false} HalvesLens(e: StackElem, p: int)
    requires ElemLen(e) > 0 && PivotOf(e, p)
    ensures ElemLen(Halves(e, p)[0]) + ElemLen(Halves(e, p)[1]) == ElemLen(e) - 1
  {
    hide Unsigned;
    var l, r := Signed(e.left), Signed(e.right);
    SignedUnsigned(e.left);
    SignedUnsigned(e.right);
    LenOf(l, r);
    LenOf(l, p - 1);
    LenOf(p + 1, r);
    SmallWraps(r - l + 1, p - l);
  }

  lemma {:induction false} SmallWraps(n: int, d: int)
    requires Unsigned(n) > 0 && -0x1_0000_0000 < n <= 0x1_0000_0000 && if n > 1 then 0 <= d < n else d == 0
    ensures Unsigned(d) + Unsigned(n - 1 - d) == Unsigned(n) - 1
  {
  }

  lemma {:induction false} WorkSplit(rest: seq<StackElem>, e: StackElem, p: int)
    requires ElemLen(e) > 0 && PivotOf(e, p)
    ensures Work(rest + Halves(e, p)) < Work(rest + [e])
  {
    hide Work, ElemLen;
    var a, b := Halves(e, p)[0], Halves(e, p)[1];
    assert rest + Halves(e, p) == (rest + [a]) + [b];
    HalvesLens(e, p);
    WorkLast(rest, e);
    WorkLast(rest, a);
    WorkLast(rest + [a], b);
  }

  // ---------- the loop ----------

  datatype Outcome = Outcome(ret: int, entries: seq<Entry>, stack: seq<StackElem>)

  /** What __log_sort's loop makes of array and stack: any array, any ranges on the stack. */
  function SortRun(s: seq<Entry>, stack: seq<StackElem>): (o: Outcome)
    requires |s| == LOG_LEN
    ensures |o.entries| == LOG_LEN
    decreases Work(stack)
  {
    if stack == [] then Outcome(0, s, stack)
    else
      var rest, e := stack[..|stack| - 1], stack[|stack| - 1];
      assert stack == rest + [e];
      WorkLast(rest, e);
      var l, r := Signed(e.left), Signed(e.right);
      if ElemLen(e) > CUT_OFF then
        var (s', p) := Partitioned(s, l, r);
        if STACK_SIZE - |rest| < 2 then Outcome(EOVERFLOW, s', rest)
        else
          WorkSplit(rest, e, p);
          SortRun(s', rest + Halves(e, p))
      else SortRun(Selected(s, l, r), rest)
  }

  /** One round of the loop that does not overflow. */
  function Next(s: seq<Entry>, rest: seq<StackElem>, e: StackElem): (o: Outcome)
    requires |s| == LOG_LEN
    ensures |o.entries| == LOG_LEN
  {
    var l, r := Signed(e.left), Signed(e.right);
    if ElemLen(e) > CUT_OFF then
      var (s', p) := Partitioned(s, l, r);
      Outcome(0, s', rest + Halves(e, p))
    else Outcome(0, Selected(s, l, r), rest)
  }

  lemma {:induction false} OneRound(s: seq<Entry>, rest: seq<StackElem>, e: StackElem)
    requires |s| == LOG_LEN
    ensures var o := Next(s, rest, e);
            if ElemLen(e) > CUT_OFF && |rest| > STACK_SIZE - 2
            then SortRun(s, rest + [e]) == Outcome(EOVERFLOW, o.entries, rest)
            else SortRun(s, rest + [e]) == SortRun(o.entries, o.stack) && Work(o.stack) < Work(rest + [e])
    ensures ElemLen(e) > CUT_OFF ==> var p := Partitioned(s, Signed(e.left), Signed(e.right)).1;
              PivotOf(e, p) && ElemLen(Halves(e, p)[0]) + ElemLen(Halves(e, p)[1]) == ElemLen(e) - 1
  {
    hide Partitioned, Selected, Halves, ElemLen, Work;
    var stack := rest + [e];
    assert stack[..|stack| - 1] == rest && stack[|stack| - 1] == e;
    WorkLast(rest, e);
    if ElemLen(e) > CUT_OFF {
      var p := Partitioned(s, Signed(e.left), Signed(e.right)).1;
      WorkSplit(rest, e, p);
      HalvesLens(e, p);
    }
  }

  /** It ends with an empty stack and 0, or with 31 ranges and -EOVERFLOW. */
  lemma {:induction false} RunEnds(s: seq<Entry>, stack: seq<StackElem>)
    requires |s| == LOG_LEN && |stack| <= STACK_SIZE
    ensures var o := SortRun(s, stack);
            (o.ret == 0 && o.stack == []) || (o.ret == EOVERFLOW && |o.stack| == STACK_SIZE - 1)
    decreases Work(stack)
  {
    hide ElemLen, Work, Partitioned, Selected, Halves;
    if stack != [] {
      var rest, e := stack[..|stack| - 1], stack[|stack| - 1];
      assert stack == rest + [e];
      OneRound(s, rest, e);
      if !(ElemLen(e) > CUT_OFF && |rest| > STACK_SIZE - 2) {
        RunEnds(Next(s, rest, e).entries, Next(s, rest, e).stack);
      }
    }
  }

  // ---------- how deep the stack gets ----------

  /** A range k places up the stack is shorter by k than what the whole stack came from: a pivot lies between any
      two. */
  ghost predicate Bounded(stack: seq<StackElem>, n: nat) {
    forall k | 0 <= k < |stack| :: k + ElemLen(stack[k]) <= n
  }

  /** So 35 entries never overflow the stack, whatever they are and wherever they lie. */
  lemma {:induction false} FewFit(s: seq<Entry>, stack: seq<StackElem>, n: nat)
    requires |s| == LOG_LEN && Bounded(stack, n) && n <= 35
    ensures SortRun(s, stack).ret == 0
    decreases Work(stack)
  {
    hide ElemLen, Work, Partitioned, Selected, SortRun, Halves;
    if stack == [] {
      NothingToSort(s);
    } else {
      var rest, e := stack[..|stack| - 1], stack[|stack| - 1];
      assert stack == rest + [e];
      OneRound(s, rest, e);
      var stack' := Next(s, rest, e).stack;
      assert |rest| + ElemLen(e) <= n;
      FewFit(Next(s, rest, e).entries, stack', n);
    }
  }

  lemma {:induction false} NothingToSort(s: seq<Entry>)
    requires |s| == LOG_LEN
    ensures SortRun(s, []) == Outcome(0, s, [])
  {
  }

  // ---------- the spans of a window ----------

  /** A stretch [first, last] of the window still to be sorted, possibly empty. */
  datatype Span = Span(first: int, last: int)

  /** The spans lie in the window, in ascending order, apart from each other. */
  ghost predicate Spaced(spans: seq<Span>, n: int) {
    && (forall k | 0 <= k < |spans| :: 0 <= spans[k].first <= spans[k].last + 1 <= n)
    && forall j, k | 0 <= j < k < |spans| :: spans[j].last < spans[k].first
  }

  ghost predicate InOneSpan(spans: seq<Span>, i: int, j: int) {
    exists k :: 0 <= k < |spans| && spans[k].first <= i && j <= spans[k].last
  }

  /** Any two entries are in order unless one span still holds them both. */
  ghost predicate Settled(r: seq<Entry>, n: int, spans: seq<Span>)
    requires n <= |r|
  {
    forall i, j | 0 <= i < j < n :: InOneSpan(spans, i, j) || AtMost(r[i], r[j])
  }

  /** A span and an outsider: in order before and, the span being permuted, in order after. */
  lemma {:induction false} OutsiderOrdered(r: seq<Entry>, r': seq<Entry>, n: int, rest: seq<Span>, t: Span, i: int,
                                           j: int)
    requires 0 <= n <= |r| && Spaced(rest + [t], n) && Settled(r, n, rest + [t])
    requires Shuffled(r, r', t.first, t.last + 1)
    requires 0 <= i < j < n && (i < t.first || t.last < j)
    ensures InOneSpan(rest, i, j) || AtMost(r'[i], r'[j])
  {
    hide AtMost, Shuffled;
    var spans := rest + [t];
    assert spans[|rest|] == t;
    var i0 := Source(r, r', t.first, t.last + 1, i);
    var j0 := Source(r, r', t.first, t.last + 1, j);
    if !AtMost(r[i0], r[j0]) {
      assert InOneSpan(spans, i0, j0);
      var k :| 0 <= k < |spans| && spans[k].first <= i0 && j0 <= spans[k].last;
      assert spans[k] == rest[k];
      assert spans[k].last < spans[|rest|].first;
    }
  }

  /** Partitioning a span settles its pivot and leaves two smaller spans. */
  lemma {:induction false} SettledSplit(r: seq<Entry>, r': seq<Entry>, n: int, rest: seq<Span>, t: Span, p: int)
    requires 0 <= n <= |r| && Spaced(rest + [t], n) && Settled(r, n, rest + [t])
    requires Shuffled(r, r', t.first, t.last + 1) && t.first <= p <= t.last
    requires |r'| == |r| && Around(r', t.first, p, t.last + 1)
    ensures var spans := rest + [Span(t.first, p - 1), Span(p + 1, t.last)];
            |r'| == |r| && Spaced(spans, n) && Settled(r', n, spans)
  {
    hide AtMost, Shuffled;
    var a, b := Span(t.first, p - 1), Span(p + 1, t.last);
    var spans := rest + [a, b];
    SpacedSplit(rest, t, p, n);
    forall i, j | 0 <= i < j < n
      ensures InOneSpan(spans, i, j) || AtMost(r'[i], r'[j])
    {
      if i < t.first || t.last < j {
        OutsiderOrdered(r, r', n, rest, t, i, j);
        SpanKept(rest, [a, b], i, j);
      } else if j < p {
        assert spans[|rest|] == a;
      } else if p < i {
        assert spans[|rest| + 1] == b;
      } else {
        AtMostTrans(r'[i], r'[p], r'[j]);
        AtMostSelf(r'[p]);
      }
    }
  }

  lemma {:induction false} SpanKept(rest: seq<Span>, more: seq<Span>, i: int, j: int)
    ensures InOneSpan(rest, i, j) ==> InOneSpan(rest + more, i, j)
  {
    if InOneSpan(rest, i, j) {
      var k :| 0 <= k < |rest| && rest[k].first <= i && j <= rest[k].last;
      assert (rest + more)[k] == rest[k];
    }
  }

  lemma {:induction false} SpacedSplit(rest: seq<Span>, t: Span, p: int, n: int)
    requires Spaced(rest + [t], n) && t.first <= p <= t.last
    ensures Spaced(rest + [Span(t.first, p - 1), Span(p + 1, t.last)], n)
  {
    var old', spans := rest + [t], rest + [Span(t.first, p - 1), Span(p + 1, t.last)];
    var m := |rest|;
    assert old'[m] == t && old'[..m] == rest;
    forall k | 0 <= k < |spans|
      ensures 0 <= spans[k].first <= spans[k].last + 1 <= n
    {
      if k < m {
        assert spans[k] == old'[k];
      }
    }
    forall j, k | 0 <= j < k < |spans|
      ensures spans[j].last < spans[k].first
    {
      if j < m {
        assert spans[j] == old'[j];
        if k < m {
          assert spans[k] == old'[k];
        } else {
          assert old'[j].last < old'[m].first;
        }
      }
    }
  }

  /** Sorting a span settles it. */
  lemma {:induction false} SettledSorted(r: seq<Entry>, r': seq<Entry>, n: int, rest: seq<Span>, t: Span)
    requires 0 <= n <= |r| && Spaced(rest + [t], n) && Settled(r, n, rest + [t])
    requires Shuffled(r, r', t.first, t.last + 1) && |r'| == |r| && Sorted(r', t.first, t.last + 1)
    ensures Spaced(rest, n) && Settled(r', n, rest)
  {
    hide AtMost, Shuffled;
    var spans := rest + [t];
    assert spans[..|rest|] == rest;
    assert forall k | 0 <= k < |rest| :: rest[k] == spans[k];
    forall i, j | 0 <= i < j < n
      ensures InOneSpan(rest, i, j) || AtMost(r'[i], r'[j])
    {
      if i < t.first || t.last < j {
        OutsiderOrdered(r, r', n, rest, t, i, j);
      }
    }
  }

  lemma {:induction false} WindowStart(r: seq<Entry>, n: int, spans: seq<Span>)
    requires 0 <= n <= |r| && spans == [Span(0, n - 1)]
    ensures Spaced(spans, n) && Settled(r, n, spans) && Shuffled(r, r, 0, n)
  {
    forall i, j | 0 <= i < j < n
      ensures InOneSpan(spans, i, j)
    {
      assert spans[0].first <= i && j <= spans[0].last;
    }
  }

  lemma {:induction false} SpanBounds(spans: seq<Span>, n: int, k: nat)
    requires Spaced(spans, n) && k < |spans|
    ensures 0 <= spans[k].first <= spans[k].last + 1 <= n
  {
  }

  lemma {:induction false} AllSettled(r: seq<Entry>, n: int, spans: seq<Span>)
    requires 0 <= n <= |r| && spans == [] && Settled(r, n, spans)
    ensures Sorted(r, 0, n)
  {
    hide AtMost;
  }

  // ---------- a range on the stack as a span of a window ----------

  ghost function ElemOf(base: int, t: Span): StackElem { StackElem(Unsigned(base + t.first), Unsigned(base + t.last)) }

  /** The stack holds the spans of a window that starts at `base`. */
  ghost predicate Holds(stack: seq<StackElem>, spans: seq<Span>, base: int) {
    |stack| == |spans| && forall k | 0 <= k < |spans| :: stack[k] == ElemOf(base, spans[k])
  }

  /** A span of the window, as its ends are read by the code: the length is right; as ints, the ends are as far
      apart as they should be, or the span straddles 2^31 and they are in the wrong order, or it is empty, at 2^31,
      and they look like all the ints there are. */
  lemma {:induction false} SpanReads(base: int, t: Span)
    requires t.first <= t.last + 1 <= t.first + LOG_LEN
    ensures var e, n := ElemOf(base, t), t.last - t.first + 1;
            var l, r := Signed(e.left), Signed(e.right);
            && ElemLen(e) == n && l % 32768 == (base + t.first) % 32768
            && (r - l + 1 == n || (n > 0 && r - l + 1 == n - 0x1_0000_0000)
                || (n == 0 && l == -0x8000_0000 && r == 0x7FFF_FFFF))
  {
    hide Unsigned, Signed;
    var n := t.last - t.first + 1;
    LenOf(base + t.first, base + t.last);
    SmallLength(n);
    var j := SignedIs(base + t.first);
    var k := SignedIs(base + t.last);
    var l, r := Signed(Unsigned(base + t.first)), Signed(Unsigned(base + t.last));
    assert r - l + 1 == n - 0x1_0000_0000 * (k - j);
    assert -1 <= k - j <= 1;
  }

  lemma {:induction false} SmallLength(n: int)
    requires 0 <= n <= LOG_LEN
    ensures Unsigned(n) == n
  {
  }

  lemma {:induction false} SignedIs(x: int) returns (k: int)
    ensures var y := Signed(Unsigned(x));
            -0x8000_0000 <= y < 0x8000_0000 && y % 32768 == x % 32768 && x == y + 0x1_0000_0000 * k
  {
    k := if Unsigned(x) >= 0x8000_0000 then x / 0x1_0000_0000 + 1 else x / 0x1_0000_0000;
    var y := Signed(Unsigned(x));
    assert x == y + 0x1_0000_0000 * k;
    RingMultiple(y, 131072 * k);
  }

  // ---------- one round on a window ----------

  /** What short_sort makes of the whole array when an empty range at 2^31 looks like all the ints there are. */
  function Everything(s: seq<Entry>): (t: seq<Entry>)
    requires |s| == LOG_LEN
    ensures |t| == LOG_LEN
  {
    Selected(s, -0x8000_0000, 0x7FFF_FFFF)
  }

  /** A range that straddles 2^31 is not partitioned: its first and its middle entry trade places. */
  lemma {:induction false} StraddlePartitioned(s: seq<Entry>, base: int, l: int, r: int)
    requires |s| == LOG_LEN && base <= l <= r < base + LOG_LEN
    ensures var o := Partitioned(s, l, r - 0x1_0000_0000);
            o.1 == l && Ring(o.0, base) == Swapped(Ring(s, base), (l + r) / 2 - base, l - base)
  {
    hide Ring, Swapped, Truncated;
    var r' := r - 0x1_0000_0000;
    var mi, mid := Truncated(l + r') / 2, (l + r) / 2;
    MidSlot(l, r');
    assert (l + r') / 2 == mid + 32768 * (-65536);
    RingMultiple(mid, -65536);
    assert Exchanged(s, mi, l) == Exchanged(s, mid, l);
    RingExchanged(s, base, mid, l);
    assert Stored(Exchanged(s, mi, l), l, Cell(s, mi)) == Exchanged(s, mi, l);
  }

  /** One round permutes the span it takes, whatever the keys and wherever the window lies, unless the span is empty
      and at 2^31. */
  lemma {:induction false} StepShuffles(s: seq<Entry>, base: int, rest: seq<StackElem>, t: Span)
    requires |s| == LOG_LEN && 0 <= t.first <= t.last + 1 <= LOG_LEN
    ensures var e, r := ElemOf(base, t), Next(s, rest, ElemOf(base, t)).entries;
            || Shuffled(Ring(s, base), Ring(r, base), t.first, t.last + 1)
            || (t.last < t.first && e.left == 0x8000_0000 && r == Everything(s))
  {
    hide Ring, Shuffled, Partitioned, Selected, Unsigned, Swapped;
    var e, n := ElemOf(base, t), t.last - t.first + 1;
    SpanReads(base, t);
    SignedUnsigned(e.left);
    var l, r := Signed(e.left), Signed(e.right);
    var base' := l - t.first;
    SameBase(base, t.first, l);
    var s' := Next(s, rest, e).entries;
    RingSame(s, base, base');
    RingSame(s', base, base');
    if n > CUT_OFF {
      if r - l + 1 == n {
        PartitionedIs(s, base', l, r);
      } else {
        StraddlePartitioned(s, base', l, r + 0x1_0000_0000);
        SwapShuffles(Ring(s, base), t.first, t.last + 1, (l + r + 0x1_0000_0000) / 2 - base', t.first);
      }
    } else if r - l + 1 == n {
      SelectedShuffles(s, base', l, r);
    } else if n > 0 {
      NotSelected(s, l, r);
      ShuffledSame(Ring(s, base), t.first, t.last + 1);
    } else {
      LowestInt(e.left);
    }
  }

  lemma {:induction false} SameBase(base: int, k: int, l: int)
    requires l % 32768 == (base + k) % 32768
    ensures base % 32768 == (l - k) % 32768
  {
    var q := l / 32768 - (base + k) / 32768;
    assert l - k == base + 32768 * q;
    RingMultiple(base, q);
  }

  lemma {:induction false} NotSelected(s: seq<Entry>, l: int, r: int)
    requires |s| == LOG_LEN && r <= l
    ensures Selected(s, l, r) == s
  {
  }

  lemma {:induction false} LowestInt(x: u32)
    ensures Signed(x) == -0x8000_0000 ==> x == 0x8000_0000
  {
  }

  /** The spans after a round: the halves of a partitioned one lie around its pivot. */
  lemma {:induction false} PivotPlace(s: seq<Entry>, base: int, rest: seq<StackElem>, t: Span) returns (p: int)
    requires |s| == LOG_LEN && 0 <= t.first <= t.last + 1 <= LOG_LEN && t.last - t.first + 1 > CUT_OFF
    ensures t.first <= p <= t.last
    ensures Next(s, rest, ElemOf(base, t)).stack
            == rest + [ElemOf(base, Span(t.first, p - 1)), ElemOf(base, Span(p + 1, t.last))]
    ensures Partitioned(s, Signed(ElemOf(base, t).left), Signed(ElemOf(base, t).right)).1
            == Signed(ElemOf(base, t).left) + (p - t.first)
  {
    hide Partitioned, Unsigned;
    SpanReads(base, t);
    var e := ElemOf(base, t);
    var l, r := Signed(e.left), Signed(e.right);
    var q := Partitioned(s, l, r).1;
    p := t.first + (q - l);
    SignedShift(base + t.first, q - l - 1);
    SignedShift(base + t.first, q - l + 1);
  }

  lemma {:induction false} SignedShift(x: int, d: int)
    ensures Unsigned(Signed(Unsigned(x)) + d) == Unsigned(x + d)
  {
    var k := SignedIs(x);
    WrappedMultiple(Signed(Unsigned(x)) + d, k);
  }

  /** The spans on the stack after a round are again spans of the window, apart from each other. */
  lemma {:induction false} StepSpaced(s: seq<Entry>, base: int, n: int, rest: seq<StackElem>, rs: seq<Span>, t: Span)
    returns (spans: seq<Span>, p: int)
    requires |s| == LOG_LEN && n <= LOG_LEN && Holds(rest, rs, base) && Spaced(rs + [t], n)
    ensures Holds(Next(s, rest, ElemOf(base, t)).stack, spans, base) && Spaced(spans, n)
    ensures if t.last - t.first + 1 <= CUT_OFF then spans == rs
            else t.first <= p <= t.last && spans == rs + [Span(t.first, p - 1), Span(p + 1, t.last)]
                 && Partitioned(s, Signed(ElemOf(base, t).left), Signed(ElemOf(base, t).right)).1
                    == Signed(ElemOf(base, t).left) + (p - t.first)
  {
    hide Partitioned, Selected, ElemOf, Spaced;
    SpanBounds(rs + [t], n, |rs|);
    SpanReads(base, t);
    p := t.first;
    if t.last - t.first + 1 > CUT_OFF {
      p := PivotPlace(s, base, rest, t);
      spans := rs + [Span(t.first, p - 1), Span(p + 1, t.last)];
      SpacedSplit(rs, t, p, n);
    } else {
      spans := rs;
      SpacedLess(rs, t, n);
    }
  }

  lemma {:induction false} SpacedLess(rest: seq<Span>, t: Span, n: int)
    requires Spaced(rest + [t], n)
    ensures Spaced(rest, n)
  {
    var spans := rest + [t];
    assert forall k | 0 <= k < |rest| :: rest[k] == spans[k];
  }

  /** A window between two neighbouring multiples of 2^31: its spans, and the places next to it, keep their order as
      ints. */
  predicate WithinInts(base: int, n: int) { -0x8000_0000 < base && base + n < 0x8000_0000 }

  lemma {:induction false} ReadsAsIs(base: int, n: int, t: Span)
    requires WithinInts(base, n) && 0 <= t.first <= t.last + 1 <= n <= LOG_LEN
    ensures var e := ElemOf(base, t);
            && Signed(e.left) == base + t.first && Signed(e.right) == base + t.last
            && ElemLen(e) == t.last - t.first + 1
            && e.left != 0x8000_0000
  {
    SpanReads(base, t);
    SignedBack(base + t.first);
    SignedBack(base + t.last);
  }

  lemma {:induction false} SignedBack(x: int)
    requires -0x8000_0000 <= x < 0x8000_0000
    ensures Signed(Unsigned(x)) == x
  {
  }

  /** There, if le_cmp can be trusted, a round leaves in order whatever two entries no span holds together. */
  lemma {:induction false} StepSettles(s: seq<Entry>, base: int, n: int, rest: seq<StackElem>, rs: seq<Span>, t: Span,
                                       spans: seq<Span>,
                                       p: int)
    requires |s| == LOG_LEN && n <= LOG_LEN && WithinInts(base, n) && Spaced(rs + [t], n)
    requires Trusted(Ring(s, base), 0, n) && Settled(Ring(s, base), n, rs + [t])
    requires if t.last - t.first + 1 <= CUT_OFF then spans == rs
             else t.first <= p <= t.last && spans == rs + [Span(t.first, p - 1), Span(p + 1, t.last)]
                  && Partitioned(s, Signed(ElemOf(base, t).left), Signed(ElemOf(base, t).right)).1 == base + p
    ensures Settled(Ring(Next(s, rest, ElemOf(base, t)).entries, base), n, spans)
  {
    hide Partitioned, Selected, ElemOf, Spaced, Ring, Trusted, Settled, Shuffled, Around, Sorted;
    SpanBounds(rs + [t], n, |rs|);
    ReadsAsIs(base, n, t);
    var l, r := base + t.first, base + t.last;
    TrustedIn(Ring(s, base), 0, n, t.first, t.last + 1);
    if t.last - t.first + 1 > CUT_OFF {
      PartitionedIs(s, base, l, r);
      SettledSplit(Ring(s, base), Ring(Partitioned(s, l, r).0, base), n, rs, t, p);
    } else {
      SelectedShuffles(s, base, l, r);
      var r' := Ring(Selected(s, l, r), base);
      SortsSpan(s, base, l, r);
      SettledSorted(Ring(s, base), r', n, rs, t);
    }
  }

  lemma {:induction false} SortsSpan(s: seq<Entry>, base: int, l: int, r: int)
    requires |s| == LOG_LEN && base <= l <= r + 1 && r < base + LOG_LEN
             && Trusted(Ring(s, base), l - base, r - base + 1)
    ensures Sorted(Ring(Selected(s, l, r), base), l - base, r - base + 1)
  {
    hide Ring, Trusted;
    if l <= r {
      SelectedSorts(s, base, l, r, r - base + 1);
    }
  }

  /** Within the ints, the loop permutes the window whatever it returns; 0 means sorted, if le_cmp can be trusted. */
  lemma {:induction false} SortsWindow(s: seq<Entry>, stack: seq<StackElem>, base: int, n: int, spans: seq<Span>)
    requires |s| == LOG_LEN && 0 <= n <= LOG_LEN && WithinInts(base, n) && Holds(stack, spans, base) && Spaced(spans, n)
    ensures var o := SortRun(s, stack);
            && Shuffled(Ring(s, base), Ring(o.entries, base), 0, n)
            && (Trusted(Ring(s, base), 0, n) && Settled(Ring(s, base), n, spans) && o.ret == 0 ==>
                  Sorted(Ring(o.entries, base), 0, n))
    decreases Work(stack)
  {
    hide SortRun, Next, ElemOf, Ring, Shuffled, Trusted, Settled, Sorted, Spaced, Work, Partitioned, ElemLen;
    var r := Ring(s, base);
    if stack == [] {
      NothingToSort(s);
      ShuffledSame(r, 0, n);
      if Settled(r, n, spans) {
        AllSettled(r, n, spans);
      }
    } else {
      var rest, rs, t := stack[..|stack| - 1], spans[..|spans| - 1], spans[|spans| - 1];
      assert stack == rest + [ElemOf(base, t)] && spans == rs + [t];
      SpanBounds(spans, n, |rs|);
      ReadsAsIs(base, n, t);
      OneRound(s, rest, ElemOf(base, t));
      StepShuffles(s, base, rest, t);
      var o := Next(s, rest, ElemOf(base, t));
      var r' := Ring(o.entries, base);
      ShuffledWiden(r, r', t.first, t.last + 1, 0, n);
      if !(ElemLen(ElemOf(base, t)) > CUT_OFF && |rest| > STACK_SIZE - 2) {
        var spans', p := StepSpaced(s, base, n, rest, rs, t);
        SortsWindow(o.entries, o.stack, base, n, spans');
        ShuffledTrans(r, r', Ring(SortRun(s, stack).entries, base), 0, n);
        if Trusted(r, 0, n) && Settled(r, n, spans) {
          StepSettles(s, base, n, rest, rs, t, spans', p);
          ShuffledTrusted(r, r', 0, n);
        }
      } else {
        Overflows(s, rest, ElemOf(base, t));
      }
    }
  }

  lemma {:induction false} Overflows(s: seq<Entry>, rest: seq<StackElem>, e: StackElem)
    requires |s| == LOG_LEN && ElemLen(e) > CUT_OFF && |rest| > STACK_SIZE - 2
    ensures SortRun(s, rest + [e]).ret == EOVERFLOW != 0
  {
    hide ElemLen, Partitioned;
    OneRound(s, rest, e);
  }

  // ---------- __log_sort ----------

  /** __log_sort moves a range that wraps around 2^32 back by one ring. */
  function Unwrapped(begin: u32, end: u32): (r: (u32, u32)) {
    if begin > end then (Unsigned(begin - LOG_LEN), Unsigned(end - LOG_LEN)) else (begin, end)
  }

  /** The first range on the stack. */
  function Target(begin: u32, end: u32): StackElem {
    var (b, e) := Unwrapped(begin, end);
    StackElem(b, Unsigned(e - 1))
  }

  /** The indices of the range, and the one before and the one after it, keep their order as signed ints. */
  predicate SafeRange(begin: u32, end: u32) {
    var (b, e) := Unwrapped(begin, end);
    e < 0x8000_0000 || b > 0x8000_0000
  }

  /** Either that, or the range is so short that no empty one is cut from it, and does not straddle 2^31. */
  predicate Clear(begin: u32, end: u32) {
    var (b, e) := Unwrapped(begin, end);
    SafeRange(begin, end) || (b < e <= b + CUT_OFF && (b == 0x8000_0000 || e == 0x8000_0000))
  }

  /** The sort of a range from an empty stack does what it is for, as far as it gets. */
  ghost predicate SortedRight(s: seq<Entry>, begin: u32, end: u32, o: Outcome)
    requires |s| == LOG_LEN == |o.entries| && SeqDist(begin, end) <= LOG_LEN
  {
    var before, after, n := Ring(s, begin), Ring(o.entries, begin), SeqDist(begin, end);
    Shuffled(before, after, 0, n) && (Trusted(before, 0, n) && o.ret == 0 ==> Sorted(after, 0, n))
  }

  lemma {:induction false} UnwrappedIs(begin: u32, end: u32, n: int)
    requires n == SeqDist(begin, end) <= LOG_LEN
    ensures var (b, e) := Unwrapped(begin, end); b % 32768 == begin % 32768 && e == b + n
  {
    assert n == if begin > end then end - begin + 0x1_0000_0000 else end - begin;
    if begin > end {
      RingMultiple(begin, -1);
    }
  }

  lemma {:induction false} TargetIs(begin: u32, end: u32, n: int)
    requires n == SeqDist(begin, end) <= LOG_LEN
    ensures var b := Unwrapped(begin, end).0;
            && b % 32768 == Signed(b) % 32768 == begin % 32768
            && Target(begin, end) == ElemOf(b, Span(0, n - 1)) == ElemOf(Signed(b), Span(0, n - 1))
            && ElemLen(Target(begin, end)) == n
            && (SafeRange(begin, end) ==> WithinInts(Signed(b), n))
  {
    hide Unwrapped, Unsigned, SeqDist, ElemLen;
    UnwrappedIs(begin, end, n);
    var b := Unwrapped(begin, end).0;
    SignedUnsigned(b);
    var k := SignedIs(b);
    UnsignedSelf(b);
    SignedShift(b, 0);
    SignedShift(b, n - 1);
    SpanReads(b, Span(0, n - 1));
  }

  lemma {:induction false} UnsignedSelf(x: u32)
    ensures Unsigned(x) == x
  {
  }

  /** The stack of ada_log.c is static: it outlives the calls. */
  class Sorter {
    var stack: seq<StackElem>

    constructor ()
      ensures stack == []
    {
      stack := [];
    }

    /** __log_sort, on any array, any range and whatever the stack still holds: SortRun says what comes out.  So,
        from an empty stack: at most 35 entries always get through; a range clear of 2^31 is permuted and nothing
        else touched, whatever is returned; 0 then means sorted, if le_cmp can be trusted there; and -EOVERFLOW
        leaves 31 ranges behind for the next call to find. */
    method LogSort(entries: array<Entry>, begin: u32, end: u32) returns (ret: int)
      requires entries.Length == LOG_LEN && |stack| < STACK_SIZE
      modifies this, entries
      ensures Outcome(ret, entries[..], stack) == SortRun(old(entries[..]), old(stack) + [Target(begin, end)])
      ensures (ret == 0 && stack == []) || (ret == EOVERFLOW && |stack| == STACK_SIZE - 1)
      ensures old(stack) == [] && SeqDist(begin, end) <= 35 ==> ret == 0
      ensures old(stack) == [] && SeqDist(begin, end) <= LOG_LEN && Clear(begin, end) ==>
                SortedRight(old(entries[..]), begin, end, Outcome(ret, entries[..], stack))
    {
      hide SortedRight, Work, SeqDist, Clear, ElemLen, Target, SortRun, Partitioned, Selected;
      ghost var s, all := entries[..], stack + [Target(begin, end)];
      assert stack == [] ==> all == [Target(begin, end)];
      RunEnds(s, all);
      FromEmpty(s, begin, end);
      var (b, e) := Unwrapped(begin, end);
      stack := stack + [StackElem(b, Unsigned(e - 1))];
      TargetDefined(begin, end);
      while stack != []
        invariant SortRun(entries[..], stack) == SortRun(s, all)
        decreases Work(stack)
      {
        var rest, elem := stack[..|stack| - 1], stack[|stack| - 1];
        assert stack == rest + [elem];
        OneRound(entries[..], rest, elem);
        stack := rest;
        if ElemLen(elem) > CUT_OFF {
          var p := Partition(entries, Signed(elem.left), Signed(elem.right));
          if STACK_SIZE - |stack| < 2 {
            return EOVERFLOW;
          }
          stack := stack + [StackElem(elem.left, Unsigned(p - 1)), StackElem(Unsigned(p + 1), elem.right)];
        } else {
          ShortSort(entries, Signed(elem.left), Signed(elem.right));
        }
      }
      NothingToSort(entries[..]);
      ret := 0;
    }
  }

  lemma {:induction false} TargetDefined(begin: u32, end: u32)
    ensures var (b, e) := Unwrapped(begin, end); Target(begin, end) == StackElem(b, Unsigned(e - 1))
  {
  }

  /** What the sort of one range comes to, from an empty stack. */
  lemma {:induction false} FromEmpty(s: seq<Entry>, begin: u32, end: u32)
    requires |s| == LOG_LEN
    ensures var o := SortRun(s, [Target(begin, end)]);
            && (SeqDist(begin, end) <= 35 ==> o.ret == 0)
            && (SeqDist(begin, end) <= LOG_LEN && Clear(begin, end) ==> SortedRight(s, begin, end, o))
  {
    hide Ring, Shuffled, Trusted, Sorted, SortRun, ElemLen, Target, SeqDist, Unwrapped, SafeRange, Clear, Signed,
         ElemOf, Settled, Spaced;
    var n: int := SeqDist(begin, end);
    if n <= LOG_LEN {
      TargetIs(begin, end, n);
      if n <= 35 {
        FewFit(s, [Target(begin, end)], n);
      }
      if SafeRange(begin, end) {
        var base, o := Signed(Unwrapped(begin, end).0), SortRun(s, [Target(begin, end)]);
        RingSame(s, begin, base);
        RingSame(o.entries, begin, base);
        var spans := [Span(0, n - 1)];
        WindowStart(Ring(s, base), n, spans);
        SortsWindow(s, [Target(begin, end)], base, n, spans);
      } else if Clear(begin, end) {
        ShortClear(s, begin, end, n);
      }
    }
  }

  lemma {:induction false} ShortClear(s: seq<Entry>, begin: u32, end: u32, n: int)
    requires |s| == LOG_LEN && n == SeqDist(begin, end) <= LOG_LEN && Clear(begin, end) && !SafeRange(begin, end)
    ensures SortedRight(s, begin, end, SortRun(s, [Target(begin, end)]))
  {
    hide Ring, Shuffled, Trusted, Sorted, SortRun, Unsigned, SeqDist, Unwrapped, Selected, Partitioned, ElemLen;
    TargetIs(begin, end, n);
    UnwrappedIs(begin, end, n);
    var b, e := Unwrapped(begin, end).0, Target(begin, end);
    SpanReads(b, Span(0, n - 1));
    UnsignedSelf(b);
    EndOf(b, n);
    var l, r, s' := Signed(e.left), Signed(e.right), Selected(s, Signed(e.left), Signed(e.right));
    assert [] + [e] == [e];
    OneRound(s, [], e);
    NothingToSort(s');
    RingSame(s, begin, l);
    RingSame(s', begin, l);
    SelectedShuffles(s, l, l, r);
    if Trusted(Ring(s, l), 0, n) {
      SortsSpan(s, l, l, r);
    }
  }

  lemma {:induction false} EndOf(b: u32, n: int)
    requires 0 < n <= CUT_OFF && (b == 0x8000_0000 || b + n == 0x8000_0000)
    ensures Signed(b) + n - 1 == Signed(Unsigned(b + n - 1))
  {
  }
}
