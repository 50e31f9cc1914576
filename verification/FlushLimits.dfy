/** What becomes of the disk when __log_sort overflows its stack and log_flush merges what it finds all the same. */
module FlushLimits {
  import opened Basics
  import opened LogEntry
  import opened LogRing
  import opened SortSteps
  import opened LogSort
  import opened SortLimits
  import opened MergeFlush
  import opened LogImage
  import opened LogView
  import opened LogKinds
  import opened AdaLog

  // ---------- the last round before the overflow ----------

  /** A range whose last entry alone is below the one in the middle: the last entry comes first, the pivot second, and
      the second entry last. */
  lemma {:induction false} TailGoesFirst(s: seq<Entry>, base: int, l: int, r: int)
    requires |s| == LOG_LEN && base <= l && l + 4 <= r < base + LOG_LEN
    requires var R, mid := Ring(s, base), (l + r) / 2 - base;
             && Compare(R[r - base], R[mid]) < 0 && Compare(R[l + 1 - base], R[mid]) > 0
             && forall j | l - base <= j < r - base :: Compare(R[j], R[mid]) >= 0
    ensures var R, mid := Ring(s, base), (l + r) / 2 - base;
            Ring(Partitioned(s, l, r).0, base)
            == R[mid := R[l - base]][l - base := R[r - base]][l + 1 - base := R[mid]][r - base := R[l + 1 - base]]
  {
    hide Ring, Compare, Truncated, Parted;
    RingMid(s, base, l, r);
    var R, mid := Ring(s, base), (l + r) / 2 - base;
    var mi := Truncated(l + r) / 2;
    var s1, m := Exchanged(s, mi, l), Cell(s, mi);
    var R1 := Ring(s1, base);
    assert R1 == R[mid := R[l - base]][l - base := m];
    RingCell(s1, base, r);
    RingCell(s1, base, l);
    RingCell(s1, base, l + 1);
    FirstRound(s1, base, m, l, r);
    var t := Round(s1, m, l, r);
    var R2 := Ring(t.entries, base);
    assert R2 == R1[l - base := R1[r - base]][r - base := R1[l + 1 - base]];
    PartedStep(s1, m, l, r);
    forall k | l + 1 < k <= r
      ensures Compare(Cell(t.entries, k), m) >= 0
    {
      RingCell(t.entries, base, k);
      assert R2[k - base] == if k == r then R[l + 1 - base] else if k - base == mid then R[l - base] else R[k - base];
    }
    PartedLeast(t.entries, m, l + 1, r);
    RingStored(t.entries, base, l + 1, m);
  }

  lemma {:induction false} FirstRound(s: seq<Entry>, base: int, m: Entry, l: int, r: int)
    requires |s| == LOG_LEN && base <= l && l + 1 < r < base + LOG_LEN
    requires Compare(Cell(s, r), m) < 0 && Compare(Cell(s, l + 1), m) > 0
    ensures var t, R := Round(s, m, l, r), Ring(s, base);
            && t.l == l + 1 && t.r == r
            && Ring(t.entries, base) == R[l - base := R[r - base]][r - base := R[l + 1 - base]]
  {
    hide Compare, Ring;
    var s' := Stored(s, l, Cell(s, r));
    SlotsDiffer(l, 1, 0);
    assert Cell(s', l) == Cell(s, r) && Cell(s', l + 1) == Cell(s, l + 1);
    assert Down(s, m, l, r) == r;
    assert Up(s', m, l, r) == Up(s', m, l + 1, r) == l + 1;
    RingRound(s, base, m, l, r);
  }

  /** The window after the rounds from lo to 30 that find the least entry in the middle. */
  ghost function Rounds(r: seq<Entry>, lo: nat, n: nat): (q: seq<Entry>)
    requires lo <= 31 && 36 <= n <= |r|
    ensures |q| == |r|
    decreases 31 - lo
  {
    if lo == 31 then r else Rounds(Swapped(r, (lo + n - 1) / 2, lo), lo + 1, n)
  }

  /** What the 32nd round finds: of the entries from 31 on, the last one alone is below the one in the middle. */
  ghost predicate TailLow(r: seq<Entry>, n: nat)
    requires 36 <= n <= |r|
  {
    var mid := (n + 30) / 2;
    && Compare(r[n - 1], r[mid]) < 0 && Compare(r[32], r[mid]) > 0
    && forall j | 31 <= j < n - 1 :: Compare(r[j], r[mid]) >= 0
  }

  /** And what it makes of them. */
  ghost function Tailed(r: seq<Entry>, n: nat): (q: seq<Entry>)
    requires 36 <= n <= |r|
    ensures |q| == |r|
  {
    var mid := (n + 30) / 2;
    r[mid := r[31]][31 := r[n - 1]][32 := r[mid]][n - 1 := r[32]]
  }

  /** The sort of such a window: 31 rounds pile up on the stack, and the 32nd overflows it. */
  lemma {:induction false} Overflowing(s: seq<Entry>, base: int, n: nat, lo: nat, rest: seq<StackElem>)
    requires |s| == LOG_LEN && 36 <= n <= LOG_LEN && WithinInts(base, n) && lo == |rest| <= 31
    requires LeastInMiddle(Ring(s, base), lo, n, 31 - lo) && TailLow(Rounds(Ring(s, base), lo, n), n)
    ensures var o := SortRun(s, rest + [ElemOf(base, Span(lo, n - 1))]);
            o.ret == EOVERFLOW && Ring(o.entries, base) == Tailed(Rounds(Ring(s, base), lo, n), n)
    decreases 31 - lo
  {
    hide Ring, SortRun, Next, Compare, ElemLen, Swapped, ElemOf, TailLow, Tailed, LeastInMiddle, Rounds;
    var e := ElemOf(base, Span(lo, n - 1));
    SpanReads(base, Span(lo, n - 1));
    OneRound(s, rest, e);
    RoundsStep(Ring(s, base), lo, n);
    if lo < 31 {
      LeastPartitioned(s, base, rest, lo, n);
      var o := Next(s, rest, e);
      var rest' := rest + [ElemOf(base, Span(lo, lo - 1))];
      assert o.stack == rest' + [ElemOf(base, Span(lo + 1, n - 1))];
      Overflowing(o.entries, base, n, lo + 1, rest');
    } else {
      TailRound(s, base, n, rest);
    }
  }

  lemma {:induction false} RoundsStep(r: seq<Entry>, lo: nat, n: nat)
    requires lo <= 31 && 36 <= n <= |r|
    ensures var mid := (lo + n - 1) / 2;
            if lo == 31 then Rounds(r, lo, n) == r
            else
              && Rounds(r, lo, n) == Rounds(Swapped(r, mid, lo), lo + 1, n)
              && (LeastInMiddle(r, lo, n, 31 - lo) ==>
                    && (forall j | lo <= j < n :: Compare(r[j], r[mid]) >= 0)
                    && LeastInMiddle(Swapped(r, mid, lo), lo + 1, n, 31 - (lo + 1)))
  {
    hide Swapped, Compare;
  }

  lemma {:induction false} TailRound(s: seq<Entry>, base: int, n: nat, rest: seq<StackElem>)
    requires |s| == LOG_LEN && 36 <= n <= LOG_LEN && WithinInts(base, n) && TailLow(Ring(s, base), n)
    ensures Ring(Next(s, rest, ElemOf(base, Span(31, n - 1))).entries, base) == Tailed(Ring(s, base), n)
  {
    hide Ring, Compare, Partitioned, ElemOf;
    ReadsAsIs(base, n, Span(31, n - 1));
    Halfway(31, n, base, base + 31);
    TailGoesFirst(s, base, base + 31, base + n - 1);
  }

  // ---------- what is merged then ----------

  /** A window the sort overflows on, leaving an old version of a page right behind the new one. */
  ghost predicate Spoiling(r: seq<Entry>, n: nat) {
    && 36 <= n <= |r| && LeastInMiddle(r, 0, n, 31) && TailLow(Rounds(r, 0, n), n)
    && (forall j | 0 <= j < n :: Data(r[j]))
    && var q := Rounds(r, 0, n);
       SamePage(q[32], q[n - 2]) && q[32].pgi < q[n - 2].pgi && KeyOf(q[n - 1]) != KeyOf(q[n - 2])
  }

  /** The old version. */
  ghost function Stale(r: seq<Entry>, n: nat): Entry
    requires 36 <= n <= |r|
  {
    Rounds(r, 0, n)[32]
  }

  /** The rounds leave the last two entries alone. */
  lemma {:induction false} RoundsKeep(r: seq<Entry>, lo: nat, n: nat)
    requires lo <= 31 && 36 <= n <= |r|
    ensures Rounds(r, lo, n)[n - 2] == r[n - 2] && Rounds(r, lo, n)[n - 1] == r[n - 1]
    decreases 31 - lo
  {
    if lo < 31 {
      RoundsKeep(Swapped(r, (lo + n - 1) / 2, lo), lo + 1, n);
    }
  }

  /** What they move comes from the window. */
  lemma {:induction false} RoundsFrom(r: seq<Entry>, lo: nat, n: nat, j: nat) returns (i: nat)
    requires lo <= 31 && 36 <= n <= |r| && j < n
    ensures i < n && r[i] == Rounds(r, lo, n)[j]
    decreases 31 - lo
  {
    hide Rounds, Swapped;
    RoundsStep(r, lo, n);
    i := j;
    if lo < 31 {
      var mid := (lo + n - 1) / 2;
      i := RoundsFrom(Swapped(r, mid, lo), lo + 1, n, j);
      SwapAt(r, mid, lo, i);
      i := if i == mid then lo else if i == lo then mid else i;
    }
  }

  lemma {:induction false} SwapAt(r: seq<Entry>, i: nat, j: nat, k: nat)
    requires i < |r| && j < |r| && k < |r|
    ensures Swapped(r, i, j)[k] == r[if k == i then j else if k == j then i else k]
  {
  }

  lemma {:induction false} TailedAt(q: seq<Entry>, n: nat, j: nat) returns (k: nat)
    requires 36 <= n <= |q| && j < n
    ensures k < n && Tailed(q, n)[j] == q[k]
    ensures Tailed(q, n)[31] == q[n - 1] && Tailed(q, n)[n - 1] == q[32] && Tailed(q, n)[n - 2] == q[n - 2]
  {
    var mid := (n + 30) / 2;
    k := if j == n - 1 then 32 else if j == 32 then mid else if j == 31 then n - 1 else if j == mid then 31 else j;
  }

  lemma {:induction false} SpoilingData(r: seq<Entry>, n: nat, j: nat)
    requires Spoiling(r, n)
    ensures 36 <= n <= |r| && (j < n ==> Data(r[j]))
  {
  }

  /** The window as the sort leaves it: all data, the two versions the wrong way round at its end. */
  lemma {:induction false} LeftWrong(r: seq<Entry>, n: nat)
    requires Spoiling(r, n)
    ensures 36 <= n <= |r|
    ensures var w := Tailed(Rounds(r, 0, n), n)[..n];
            && (forall j | 0 <= j < n :: Data(w[j])) && w[n - 2] == r[n - 2] && w[n - 1] == Stale(r, n)
            && w[31] == r[n - 1]
  {
    hide Data, Tailed, Rounds, Spoiling;
    SpoilingData(r, n, 0);
    RoundsKeep(r, 0, n);
    var q := Rounds(r, 0, n);
    var k0 := TailedAt(q, n, 0);
    forall j | 0 <= j < n
      ensures Data(Tailed(q, n)[j])
    {
      var k := TailedAt(q, n, j);
      var i := RoundsFrom(r, 0, n, k);
      SpoilingData(r, n, i);
    }
  }

  /** All data can be walked, and the last entry is submitted, as the last one. */
  lemma {:induction false} LastSubmitted(w: seq<Entry>)
    requires w != [] && forall j | 0 <= j < |w| :: Data(w[j])
    ensures Walkable(w) && Submitted(w, 0, |w|) != []
    ensures var sub := Submitted(w, 0, |w|);
            KeyOf(sub[|sub| - 1]) == KeyOf(w[|w| - 1]) && sub[|sub| - 1].page == w[|w| - 1].page
  {
    hide Merged;
    var n := |w|;
    LastSurvives(w, n);
    SubmittedStep(w, 0, n);
    MergedFields(w, n - 1);
  }

  /** Every entry's page reaches the disk in some version. */
  lemma {:induction false} SomeVersion(w: seq<Entry>, i: nat)
    requires i < |w| && forall j | 0 <= j < |w| :: Data(w[j])
    ensures exists m :: 0 <= m < |Submitted(w, 0, |w|)| && KeyOf(Submitted(w, 0, |w|)[m]) == KeyOf(w[i])
    decreases |w| - i
  {
    hide Submitted, Merged;
    if Survives(w, i) {
      SurvivorSubmitted(w, |w|, i);
      MergedFields(w, i);
    } else {
      SomeVersion(w, i + 1);
    }
  }

  lemma {:induction false} ApplyKeeps(disk: Image, sub: seq<Entry>, content: map<nat, Page>, m: nat)
    requires m < |sub|
    ensures KeyOf(sub[m]) in Apply(disk, sub, content)
  {
    if m < |sub| - 1 {
      ApplyKeeps(disk, sub[..|sub| - 1], content, m);
    }
  }

  /** The merge of such a window puts the old version on the disk, next to the page written last of all. */
  lemma {:induction false} MergesStale(disk: Image, r: seq<Entry>, n: nat, content: map<nat, Page>)
    requires Spoiling(r, n)
    ensures var w := Tailed(Rounds(r, 0, n), n)[..n];
            var image := Apply(disk, Submitted(w, 0, n), content);
            && Walkable(w) && KeyOf(Stale(r, n)) == KeyOf(r[n - 2]) && KeyOf(r[n - 2]) in image
            && image[KeyOf(r[n - 2])] == PageOf(content, Stale(r, n).page) && KeyOf(r[n - 1]) in image
  {
    hide LeastInMiddle, TailLow, Tailed, Rounds, Data, Submitted, Walkable, Apply, Stale;
    LeftWrong(r, n);
    StaleKey(r, n);
    var w := Tailed(Rounds(r, 0, n), n)[..n];
    LastSubmitted(w);
    var sub := Submitted(w, 0, n);
    ApplyHits(disk, sub, content, |sub| - 1);
    SomeVersion(w, 31);
    var m :| 0 <= m < |sub| && KeyOf(sub[m]) == KeyOf(w[31]);
    ApplyKeeps(disk, sub, content, m);
  }

  lemma {:induction false} StaleKey(r: seq<Entry>, n: nat)
    requires Spoiling(r, n)
    ensures KeyOf(Stale(r, n)) == KeyOf(r[n - 2]) && KeyOf(r[n - 1]) != KeyOf(r[n - 2])
    ensures Stale(r, n).pgi < r[n - 2].pgi
  {
    hide LeastInMiddle, TailLow, Data, Rounds;
    RoundsKeep(r, 0, n);
  }

  /** Replaying the stretch in log order has the new version there: the two differ where the versions do. */
  lemma {:induction false} NotTheReplay(disk: Image, r: seq<Entry>, n: nat, content: map<nat, Page>)
    requires Spoiling(r, n) && PageOf(content, Stale(r, n).page) != PageOf(content, r[n - 2].page)
    ensures Apply(disk, Submitted(Tailed(Rounds(r, 0, n), n)[..n], 0, n), content)
            != Replay(disk, r[..n], content, n)
  {
    hide LeastInMiddle, TailLow, Tailed, Rounds, Submitted, Walkable, Apply, Stale, Replay, PageOf;
    MergesStale(disk, r, n, content);
    StaleKey(r, n);
    SpoilingData(r, n, n - 2);
    ReplayHits(disk, r[..n], content, n, n - 2);
  }

  // ---------- a log with such entries ----------

  /** The sort of a range that reads r. */
  lemma {:induction false} SpoiledSort(s: seq<Entry>, b: u32, e: u32, n: nat)
    requires |s| == LOG_LEN && b + n < 0x8000_0000 && e == b + n && Spoiling(Ring(s, b), n)
    ensures 36 <= n <= LOG_LEN
    ensures var o := SortRun(s, [Target(b, e)]);
            o.ret == EOVERFLOW && Window(o.entries, b, e) == Tailed(Rounds(Ring(s, b), 0, n), n)[..n]
  {
    hide Ring, SortRun, Target, ElemOf, Tailed, TailLow, Rounds, LeastInMiddle, Data;
    EarlyRange(b, e, n);
    TargetIs(b, e, n);
    assert [] + [Target(b, e)] == [Target(b, e)];
    Overflowing(s, b, n, 0, []);
  }

  lemma {:induction false} EarlyRange(b: u32, e: u32, n: nat)
    requires b + n < 0x8000_0000 && e == b + n
    ensures SeqDist(b, e) == n && Unwrapped(b, e) == (b, e) && WithinInts(b, n)
  {
  }

  /** A log whose next t transactions hold such entries: the sort overflows, the merge walks what is left, and what it
      submits is not what the files were at the last of the seals. */
  lemma {:induction false} FlushSpoils(log: Log, t: nat, n: nat)
    requires log.Valid() && 0 < t < |log.trans| && log.entries.Length == LOG_LEN
    requires |log.ends| > t && log.ends[t] == log.ends[0] + n < 0x8000_0000
    requires Spoiling(Ring(log.entries[..], log.ends[0]), n)
    ensures n <= |log.log| && 36 <= n <= LOG_LEN && !log.GetsThrough(t) && log.CanWalk(t)
    ensures var r := Ring(log.entries[..], log.ends[0]);
            && r[..n] == log.log[..n] && log.LeftBySort(t) == Tailed(Rounds(r, 0, n), n)[..n]
            && t <= |log.images|
            && (PageOf(log.content, Stale(r, n).page) != PageOf(log.content, r[n - 2].page) ==>
                  Apply(log.disk, Submitted(log.LeftBySort(t), 0, n), log.content) != log.images[t - 1])
  {
    hide Ring, SortRun, Target, Tailed, Rounds, Spoiling, Stale, Chain, Ok, Imaged, Below, Window, Walkable, Submitted,
         Apply, Replay, PageOf, Unsigned;
    ChainFacts(log.lBegin, log.lHead, log.lEnd, log.trans, log.begin, log.ends, |log.log|);
    var n' := TakenLength(log.lBegin, log.lHead, log.lEnd, log.trans, log.begin, log.ends, |log.log|, t);
    TakenEnds(log.lBegin, log.lHead, log.lEnd, log.trans, log.begin, log.ends, |log.log|, t);
    var r, b: u32, e: u32 := Ring(log.entries[..], log.ends[0]), log.ends[0], log.ends[t];
    UnsignedSelf(b);
    UnsignedSelf(e);
    SpoiledSort(log.entries[..], b, e, n);
    assert r[..n] == r[..|log.log|][..n] == log.log[..n];
    MergesStale(log.disk, r, n, log.content);
    SealedImage(log.Now(), log.ends, log.images, t, n, r);
    if PageOf(log.content, Stale(r, n).page) != PageOf(log.content, r[n - 2].page) {
      NotTheReplay(log.disk, r, n, log.content);
    }
  }

  /** The image at the seal of transaction t - 1 is the replay of the entries up to it. */
  lemma {:induction false} SealedImage(v: View, ends: seq<nat>, images: seq<Image>, t: nat, n: nat, r: seq<Entry>)
    requires Imaged(v, ends, images) && 0 < t < |ends| && ends[t] == v.first + n && n <= |v.log| && n <= |r|
    requires r[..n] == v.log[..n]
    ensures t <= |images| && images[t - 1] == Replay(v.disk, r[..n], v.content, n)
  {
    hide Replay;
    assert ImageOk(v, ends[t - 1 + 1], images[t - 1]);
    assert forall k | 0 <= k < n :: r[..n][k] == v.log[..n][k] == v.log[k];
    ReplaySame(v.disk, v.log, v.content, r[..n], v.content, n);
  }
}
