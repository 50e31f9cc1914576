/** __merge_flush: walk a sorted stretch of the log, coalesce the versions of each page, and submit what is
    left, one transaction per inode. */
module MergeFlush {
  import opened Basics
  import opened LogEntry
  import opened LogRing

  // ---------- the intended result ----------

  predicate Data(e: Entry) { e.Valid() && !e.Meta() }

  predicate SamePage(a: Entry, b: Entry) { a.ino == b.ino && a.PageIndex() == b.PageIndex() }

  /** The length entry k ends up with: the maximum over the versions of its page up to k. */
  function MergedLength(w: seq<Entry>, k: nat): nat
    requires k < |w|
  {
    if k > 0 && Data(w[k - 1]) && SamePage(w[k - 1], w[k]) && MergedLength(w, k - 1) > w[k].Length()
    then MergedLength(w, k - 1) else w[k].Length()
  }

  function Merged(w: seq<Entry>, k: nat): Entry
    requires k < |w|
  {
    if MergedLength(w, k) == w[k].Length() then w[k] else w[k].SetLength(MergedLength(w, k))
  }

  /** No later version of the page follows. */
  predicate Survives(w: seq<Entry>, k: nat)
    requires k < |w|
  {
    Data(w[k]) && !(k + 1 < |w| && SamePage(w[k], w[k + 1]))
  }

  /** What is to be submitted of the entries [lo, hi). */
  function Submitted(w: seq<Entry>, lo: nat, hi: nat): seq<Entry>
    requires lo <= hi <= |w|
  {
    if lo == hi then []
    else Submitted(w, lo, hi - 1) + (if Survives(w, hi - 1) then [Merged(w, hi - 1)] else [])
  }

  lemma {:induction false} SubmittedConcat(w: seq<Entry>, lo: nat, mid: nat, hi: nat)
    requires lo <= mid <= hi <= |w|
    ensures Submitted(w, lo, hi) == Submitted(w, lo, mid) + Submitted(w, mid, hi)
  {
    if mid < hi {
      SubmittedConcat(w, lo, mid, hi - 1);
    }
  }

  /** What the appending hooks guarantee: a meta entry has page key 0, a data entry a version of at least 1. */
  ghost predicate WellFormed(w: seq<Entry>) {
    forall k | 0 <= k < |w| :: w[k].Valid() ==> if w[k].Meta() then w[k].pgi == 0 else w[k].Version() >= 1
  }

  ghost predicate InOrder(w: seq<Entry>) {
    forall i, j | 0 <= i < j < |w| :: AtMost(w[i], w[j])
  }

  /** All the walk relies on, sorted or not: behind a data entry no other one of its inode is a meta entry, and
      behind an invalid entry there are only invalid ones. */
  ghost predicate Walkable(w: seq<Entry>) {
    && (forall k | 0 <= k < |w| - 1 :: Data(w[k]) && w[k + 1].ino == w[k].ino ==> Data(w[k + 1]))
    && forall k, j | 0 <= k < j < |w| :: !w[k].Valid() ==> !w[j].Valid()
  }

  lemma {:induction false} SortedWalkable(w: seq<Entry>)
    requires InOrder(w) && WellFormed(w)
    ensures Walkable(w)
  {
    hide InOrder, WellFormed, Data;
    forall k | 0 <= k < |w| - 1 && Data(w[k]) && w[k + 1].ino == w[k].ino
      ensures Data(w[k + 1])
    {
      MetaFirst(w, k);
    }
    forall k, j | 0 <= k < j < |w| && !w[k].Valid()
      ensures !w[j].Valid()
    {
      InvalidLast(w, k, j);
    }
  }

  lemma {:induction false} NextIsData(w: seq<Entry>, k: nat)
    requires Walkable(w) && k + 1 < |w| && Data(w[k]) && w[k + 1].ino == w[k].ino
    ensures Data(w[k + 1])
  {
  }

  // ---------- what that result means ----------

  /** Every submission is the last version of its page. */
  lemma {:induction false} SubmittedAre(w: seq<Entry>, hi: nat, s: Entry) returns (k: nat)
    requires hi <= |w| && s in Submitted(w, 0, hi)
    ensures k < hi && Survives(w, k) && s == Merged(w, k)
  {
    var prev := Submitted(w, 0, hi - 1);
    if s in prev {
      k := SubmittedAre(w, hi - 1, s);
    } else {
      k := hi - 1;
    }
  }

  lemma {:induction false} SurvivorSubmitted(w: seq<Entry>, hi: nat, k: nat)
    requires k < hi <= |w| && Survives(w, k)
    ensures Merged(w, k) in Submitted(w, 0, hi)
  {
    if k < hi - 1 {
      SurvivorSubmitted(w, hi - 1, k);
    }
  }

  /** The last version of an entry's page: at or after it, no older, and at least as long once merged. */
  lemma {:induction false} LastVersion(w: seq<Entry>, i: nat) returns (k: nat)
    requires i < |w| && InOrder(w) && WellFormed(w) && Data(w[i])
    ensures i <= k < |w| && Survives(w, k) && SamePage(w[i], w[k])
    ensures w[i].pgi <= w[k].pgi && MergedLength(w, i) <= MergedLength(w, k)
    decreases |w| - i
  {
    if i + 1 < |w| && SamePage(w[i], w[i + 1]) {
      assert AtMost(w[i], w[i + 1]);
      MetaFirst(w, i);
      k := LastVersion(w, i + 1);
    } else {
      k := i;
    }
  }

  /** After a data entry of an inode come no meta entries of it. */
  lemma {:induction false} MetaFirst(w: seq<Entry>, i: nat)
    requires i + 1 < |w| && InOrder(w) && WellFormed(w) && Data(w[i]) && w[i + 1].ino == w[i].ino
    ensures Data(w[i + 1])
  {
    assert AtMost(w[i], w[i + 1]);
    assert w[i].Version() >= 1;
  }

  /** Submissions are of pairwise different pages, in ascending order. */
  lemma {:induction false} SubmittedDistinct(w: seq<Entry>, hi: nat, i: nat, j: nat)
    requires hi <= |w| && InOrder(w) && WellFormed(w) && i < j < |Submitted(w, 0, hi)|
    ensures !SamePage(Submitted(w, 0, hi)[i], Submitted(w, 0, hi)[j])
    ensures AtMost(Submitted(w, 0, hi)[i], Submitted(w, 0, hi)[j])
  {
    hide Merged, Survives;
    var prev := Submitted(w, 0, hi - 1);
    if j < |prev| {
      SubmittedDistinct(w, hi - 1, i, j);
    } else {
      assert prev[i] in prev;
      var k := SubmittedAre(w, hi - 1, prev[i]);
      MergedFields(w, k);
      MergedFields(w, hi - 1);
      SurvivorApart(w, k, hi - 1);
    }
  }

  lemma {:induction false} MergedFields(w: seq<Entry>, k: nat)
    requires k < |w|
    ensures Merged(w, k).ino == w[k].ino && Merged(w, k).pgi == w[k].pgi && Merged(w, k).page == w[k].page
  {
  }

  /** A surviving entry is of another page than anything after it. */
  lemma {:induction false} SurvivorApart(w: seq<Entry>, k: nat, m: nat)
    requires k < m < |w| && InOrder(w) && Survives(w, k)
    ensures !SamePage(w[k], w[m]) && AtMost(w[k], w[m])
  {
    if m > k + 1 {
      assert AtMost(w[k], w[k + 1]) && AtMost(w[k + 1], w[m]);
    }
  }

  /** Merging: the length is reached by a version of the page, and none of them is longer. */
  lemma {:induction false} MergedLengthIsMax(w: seq<Entry>, k: nat, i: nat)
    requires i <= k < |w| && InOrder(w) && WellFormed(w) && Data(w[i]) && SamePage(w[i], w[k])
    ensures w[i].Length() <= MergedLength(w, k)
  {
    if i < k {
      assert AtMost(w[i], w[k - 1]) && AtMost(w[k - 1], w[k]);
      DataBetween(w, i, k - 1);
      MergedLengthIsMax(w, k - 1, i);
    }
  }

  lemma {:induction false} DataBetween(w: seq<Entry>, i: nat, k: nat)
    requires i <= k < |w| && InOrder(w) && WellFormed(w) && Data(w[i]) && w[i].ino == w[k].ino
    ensures Data(w[k])
  {
    if i < k {
      assert AtMost(w[i], w[k]);
      assert w[i].Version() >= 1;
    }
  }

  lemma {:induction false} MergedLengthReached(w: seq<Entry>, k: nat) returns (i: nat)
    requires k < |w| && Data(w[k])
    ensures i <= k && Data(w[i]) && SamePage(w[i], w[k]) && MergedLength(w, k) == w[i].Length()
  {
    if MergedLength(w, k) == w[k].Length() {
      i := k;
    } else {
      i := MergedLengthReached(w, k - 1);
    }
  }

  lemma {:induction false} MergedHasLength(w: seq<Entry>, k: nat)
    requires k < |w|
    ensures Merged(w, k).Length() == MergedLength(w, k) < 0x1_0000
    ensures Merged(w, k).Meta() <==> w[k].Meta()
  {
    if k > 0 {
      MergedHasLength(w, k - 1);
    }
    LengthFits(w[k], MergedLength(w, k));
  }

  /** Coalescing, as a whole: among the submissions of a sorted stretch there is exactly one for each page with a
      data entry; it carries the highest version and the greatest length among the page's entries. */
  lemma {:induction false} OneSubmissionPerPage(w: seq<Entry>, i: nat) returns (m: nat)
    requires i < |w| && InOrder(w) && WellFormed(w) && Data(w[i])
    ensures m < |Submitted(w, 0, |w|)| && SamePage(Submitted(w, 0, |w|)[m], w[i])
    ensures forall m' | 0 <= m' < |Submitted(w, 0, |w|)| && m' != m :: !SamePage(Submitted(w, 0, |w|)[m'], w[i])
    ensures forall j | 0 <= j < |w| && Data(w[j]) && SamePage(w[j], w[i]) ::
              w[j].pgi <= Submitted(w, 0, |w|)[m].pgi && w[j].Length() <= Submitted(w, 0, |w|)[m].Length()
    ensures exists j ::
              0 <= j < |w| && Data(w[j]) && SamePage(w[j], w[i]) && w[j].Length() == Submitted(w, 0, |w|)[m].Length()
  {
    hide Submitted, Merged, MergedLength, Survives;
    var n, sub := |w|, Submitted(w, 0, |w|);
    var k := LastVersion(w, i);
    SurvivorSubmitted(w, n, k);
    m :| 0 <= m < |sub| && sub[m] == Merged(w, k);
    MergedFields(w, k);
    MergedHasLength(w, k);
    SurvivesData(w, k);
    forall m' | 0 <= m' < |sub| && m' != m
      ensures !SamePage(sub[m'], w[i])
    {
      if m' < m {
        SubmittedDistinct(w, n, m', m);
      } else {
        SubmittedDistinct(w, n, m, m');
      }
    }
    forall j | 0 <= j < |w| && Data(w[j]) && SamePage(w[j], w[i])
      ensures w[j].pgi <= sub[m].pgi && w[j].Length() <= sub[m].Length()
    {
      if j > k {
        SurvivorApart(w, k, j);
      }
      assert j < k ==> AtMost(w[j], w[k]);
      MergedLengthIsMax(w, k, j);
    }
    var j := MergedLengthReached(w, k);
  }

  lemma {:induction false} SurvivesData(w: seq<Entry>, k: nat)
    requires k < |w| && Survives(w, k)
    ensures Data(w[k])
  {
  }

  // ---------- the code ----------

  /** The u32 index of the k-th entry of the stretch, and the entry there. */
  function EntryAt(entries: array<Entry>, i: u32, ghost begin: u32, ghost k: nat): (e: Entry)
    requires entries.Length == LOG_LEN && k < LOG_LEN && i == Unsigned(begin + k)
    reads entries
    ensures e == Ring(entries[..], begin)[k]
  {
    SlotOf(begin, k);
    entries[i % 32768]
  }

  lemma {:induction false} SlotOf(begin: u32, k: nat)
    ensures Unsigned(begin + k) % 32768 == (begin + k) % 32768
  {
    var q := (begin + k) / 0x1_0000_0000;
    RingMultiple(Unsigned(begin + k), 131072 * q);
    assert begin + k == Unsigned(begin + k) + 0x1_0000_0000 * q;
  }

  method SetEntry(entries: array<Entry>, i: u32, e: Entry, ghost begin: u32, ghost k: nat)
    requires entries.Length == LOG_LEN && k < LOG_LEN && i == Unsigned(begin + k)
    modifies entries
    ensures Ring(entries[..], begin) == old(Ring(entries[..], begin))[k := e]
  {
    SlotOf(begin, k);
    ghost var s := entries[..];
    entries[i % 32768] := e;
    RingUpdate(s, begin, k, e);
  }

  /** seq_less(i, end) says whether the k-th index is still inside. */
  lemma {:induction false} InsideStretch(begin: u32, end: u32, n: int, k: nat)
    requires n == SeqDist(begin, end) <= LOG_LEN && k <= LOG_LEN
    ensures SeqLess(Unsigned(begin + k), end) <==> k < n
    ensures Unsigned(Unsigned(begin + k) + 1) == Unsigned(begin + k + 1)
  {
    hide Unsigned, SeqLess;
    EndIndex(begin, end);
    SeqOrder(begin + k, begin + n);
    NextIndex(begin + k);
  }

  /** What has become of entry k once its group is coalesced. */
  function Coalesced(w: seq<Entry>, k: nat): Entry
    requires k < |w|
  {
    if Survives(w, k) then Merged(w, k) else Merged(w, k).Invalidated()
  }

  /** The ring while a group from kb on is scanned up to, not including, k. */
  ghost predicate Scanned(r: seq<Entry>, w: seq<Entry>, kb: nat, k: nat) {
    && kb < k <= |w| <= |r|
    && (forall j | kb <= j < k - 1 :: r[j] == Coalesced(w, j))
    && r[k - 1] == Merged(w, k - 1)
    && forall j | k <= j < |w| :: r[j] == w[j]
  }

  ghost predicate SameBut(r: seq<Entry>, r': seq<Entry>, lo: nat, hi: nat) {
    |r| == |r'| && forall j | 0 <= j < |r| && !(lo <= j < hi) :: r'[j] == r[j]
  }

  /** The pages of the superseded, or of the surviving, entries of [lo, hi). */
  ghost function Pages(w: seq<Entry>, lo: nat, hi: nat, surviving: bool): set<nat>
    requires lo <= hi <= |w|
  {
    set k | lo <= k < hi && Survives(w, k) == surviving :: w[k].page
  }

  /** One step of the scan, on the ring: entry k - 1 is superseded by entry k, or survives. */
  lemma {:induction false} ScanStep(r: seq<Entry>, r': seq<Entry>, w: seq<Entry>, kb: nat, k: nat)
    requires Scanned(r, w, kb, k) && k < |w| && Data(w[k - 1]) && w[k].ino == w[k - 1].ino
    requires if SamePage(w[k - 1], w[k])
             then r' == r[k - 1 := r[k - 1].Invalidated()]
                        [k := if w[k].Length() < r[k - 1].Length() then w[k].SetLength(r[k - 1].Length()) else w[k]]
             else r' == r
    ensures Scanned(r', w, kb, k + 1)
  {
    MergedFields(w, k - 1);
    MergedHasLength(w, k - 1);
  }

  method ScanGroup(entries: array<Entry>, b: u32, end: u32, ghost begin: u32, ghost w: seq<Entry>, ghost kb: nat)
    returns (e: u32, nles: nat, evicted: set<nat>, ghost ke: nat)
    requires entries.Length == LOG_LEN && |w| == SeqDist(begin, end) <= LOG_LEN
    requires kb < |w| && b == Unsigned(begin + kb) && Walkable(w) && Data(w[kb])
    requires kb == 0 || !Data(w[kb - 1]) || w[kb - 1].ino != w[kb].ino
    requires forall j | kb <= j < |w| :: Ring(entries[..], begin)[j] == w[j]
    modifies entries
    ensures kb < ke <= |w| && e == Unsigned(begin + ke) && Scanned(Ring(entries[..], begin), w, kb, ke)
    ensures forall j | kb <= j < ke :: Data(w[j]) && w[j].ino == w[kb].ino
    ensures ke == |w| || w[ke].ino != w[kb].ino
    ensures nles == |Submitted(w, kb, ke)|
    ensures evicted == Pages(w, kb, ke, false)
    ensures SameBut(old(Ring(entries[..], begin)), Ring(entries[..], begin), kb, ke)
  {
    hide Ring, Merged, MergedLength, Survives, Submitted, SeqLess, Unsigned, SeqDist, Walkable, Scanned, Coalesced,
         Pages;
    var ino := EntryAt(entries, b, begin, kb).ino;
    nles, evicted := 1, {};
    InsideStretch(begin, end, |w|, kb);
    var i: int := Unsigned(b + 1);
    ghost var k := kb + 1;
    ScanStart(Ring(entries[..], begin), w, kb);
    while true
      invariant kb < k <= |w| && i == Unsigned(begin + k)
      invariant Scanned(Ring(entries[..], begin), w, kb, k)
      invariant forall j | kb <= j < k :: Data(w[j]) && w[j].ino == w[kb].ino && ino == w[kb].ino
      invariant nles == |Submitted(w, kb, k - 1)| + 1 && evicted == Pages(w, kb, k - 1, false)
      invariant SameBut(old(Ring(entries[..], begin)), Ring(entries[..], begin), kb, k)
      decreases |w| - k
    {
      InsideStretch(begin, end, |w|, k);
      if !SeqLess(i, end) {
        break;
      }
      ScannedReads(Ring(entries[..], begin), w, kb, k);
      var le := EntryAt(entries, i, begin, k);
      if le.ino != ino {
        break;
      }
      ghost var r := Ring(entries[..], begin);
      NextIsData(w, k - 1);
      PreviousIndex(begin, k);
      var prev := EntryAt(entries, Unsigned(i - 1), begin, k - 1);
      if prev.PageIndex() == le.PageIndex() {
        SetEntry(entries, Unsigned(i - 1), prev.Invalidated(), begin, k - 1);
        evicted := evicted + {prev.page};
        if le.Length() < prev.Length() {
          SetEntry(entries, i, le.SetLength(prev.Length()), begin, k);
        }
      } else {
        nles := nles + 1;
      }
      ScanStepUpdates(r, Ring(entries[..], begin), w, kb, k, prev, le);
      ScanStep(r, Ring(entries[..], begin), w, kb, k);
      ScanCounts(w, kb, k);
      i, k := Unsigned(i + 1), k + 1;
    }
    GroupEnds(w, kb, k, ino);
    e, ke := i, k;
  }

  lemma {:induction false} ScanStart(r: seq<Entry>, w: seq<Entry>, kb: nat)
    requires kb < |w| <= |r| && forall j | kb <= j < |w| :: r[j] == w[j]
    requires kb == 0 || !Data(w[kb - 1]) || w[kb - 1].ino != w[kb].ino
    ensures Scanned(r, w, kb, kb + 1) && Submitted(w, kb, kb) == [] && Pages(w, kb, kb, false) == {}
  {
  }

  lemma {:induction false} ScannedReads(r: seq<Entry>, w: seq<Entry>, kb: nat, k: nat)
    requires Scanned(r, w, kb, k) && k < |w|
    ensures r[k] == w[k] && r[k - 1] == Merged(w, k - 1)
    ensures r[k - 1].ino == w[k - 1].ino && r[k - 1].pgi == w[k - 1].pgi && r[k - 1].page == w[k - 1].page
  {
  }

  lemma {:induction false} PreviousIndex(begin: u32, k: nat)
    requires k > 0
    ensures Unsigned(Unsigned(begin + k) - 1) == Unsigned(begin + (k - 1))
  {
    var q := (begin + k) / 0x1_0000_0000;
    assert begin + k - 1 == Unsigned(begin + k) - 1 + 0x1_0000_0000 * q;
    WrappedMultiple(Unsigned(begin + k) - 1, q);
  }

  lemma {:induction false} ScanStepUpdates(r: seq<Entry>, r': seq<Entry>, w: seq<Entry>, kb: nat, k: nat, prev: Entry,
                                           le: Entry)
    requires Scanned(r, w, kb, k) && k < |w| && prev == r[k - 1] && le == w[k] && w[k].ino == w[k - 1].ino
    requires if prev.PageIndex() == le.PageIndex()
             then if le.Length() < prev.Length()
                  then r' == r[k - 1 := prev.Invalidated()][k := le.SetLength(prev.Length())]
                  else r' == r[k - 1 := prev.Invalidated()]
             else r' == r
    ensures if SamePage(w[k - 1], w[k])
            then r' == r[k - 1 := r[k - 1].Invalidated()]
                       [k := if w[k].Length() < r[k - 1].Length() then w[k].SetLength(r[k - 1].Length()) else w[k]]
            else r' == r
  {
    hide Merged, Coalesced;
    MergedFields(w, k - 1);
    assert r[k] == w[k];
  }

  /** The counter of pages and the evicted pages keep up with the scan. */
  lemma {:induction false} ScanCounts(w: seq<Entry>, kb: nat, k: nat)
    requires kb < k < |w| && Data(w[k - 1]) && w[k - 1].ino == w[k].ino
    ensures |Submitted(w, kb, k)| == |Submitted(w, kb, k - 1)| + (if SamePage(w[k - 1], w[k]) then 0 else 1)
    ensures Pages(w, kb, k, false) == Pages(w, kb, k - 1, false) + (if SamePage(w[k - 1], w[k]) then {w[k - 1].page}
                                                                    else {})
  {
    hide Submitted;
    assert Survives(w, k - 1) <==> !SamePage(w[k - 1], w[k]);
    SubmittedStep(w, kb, k);
  }

  lemma {:induction false} SubmittedStep(w: seq<Entry>, lo: nat, hi: nat)
    requires lo < hi <= |w|
    ensures Submitted(w, lo, hi) == Submitted(w, lo, hi - 1) + (if Survives(w, hi - 1) then [Merged(w, hi - 1)] else [])
  {
  }

  lemma {:induction false} GroupEnds(w: seq<Entry>, kb: nat, k: nat, ino: u64)
    requires kb < k <= |w| && Data(w[k - 1]) && w[k - 1].ino == ino && (k == |w| || w[k].ino != ino)
    ensures Survives(w, k - 1) && |Submitted(w, kb, k)| == |Submitted(w, kb, k - 1)| + 1
    ensures Pages(w, kb, k, false) == Pages(w, kb, k - 1, false)
  {
    hide Submitted;
    assert Survives(w, k - 1);
    SubmittedStep(w, kb, k);
  }

  /** What has become of entry j of a group whose entries before k have been handed to the file system. */
  ghost function Handed(w: seq<Entry>, j: nat, k: nat, fails: Entry -> bool): Entry
    requires j < |w|
  {
    if Survives(w, j) && !(j < k && fails(Merged(w, j))) then Merged(w, j) else Merged(w, j).Invalidated()
  }

  ghost predicate Flushing(r: seq<Entry>, w: seq<Entry>, kb: nat, ke: nat, k: nat, fails: Entry -> bool) {
    && kb <= k <= ke <= |w| <= |r|
    && (forall j | kb <= j < ke :: r[j] == Handed(w, j, k, fails))
    && forall j | ke <= j < |w| :: r[j] == w[j]
  }

  /** The pages of the surviving entries of [lo, hi) whose flush failed, or did not. */
  ghost function HandedPages(w: seq<Entry>, lo: nat, hi: nat, fails: Entry -> bool, failed: bool): set<nat>
    requires lo <= hi <= |w|
  {
    set k | lo <= k < hi && Survives(w, k) && fails(Merged(w, k)) == failed :: w[k].page
  }

  lemma {:induction false} FlushStart(r: seq<Entry>, w: seq<Entry>, kb: nat, ke: nat, fails: Entry -> bool)
    requires Scanned(r, w, kb, ke) && Survives(w, ke - 1)
    ensures Flushing(r, w, kb, ke, kb, fails)
  {
  }

  lemma {:induction false} FlushStep(r: seq<Entry>, r': seq<Entry>, w: seq<Entry>, kb: nat, ke: nat, k: nat,
                                     fails: Entry -> bool)
    requires Flushing(r, w, kb, ke, k, fails) && k < ke && Data(w[k])
    requires r' == if r[k].Valid() && fails(r[k]) then r[k := r[k].Invalidated()] else r
    ensures Flushing(r', w, kb, ke, k + 1, fails)
    ensures r[k].Valid() <==> Survives(w, k)
    ensures Survives(w, k) ==> r[k] == Merged(w, k) && r[k].page == w[k].page
    ensures HandedPages(w, kb, k + 1, fails, true)
         == HandedPages(w, kb, k, fails, true) + (if Survives(w, k) && fails(Merged(w, k)) then {w[k].page} else {})
  {
    hide Survives, Merged;
    MergedFields(w, k);
  }

  /** The second pass over a group: hand what is still valid to the file system; invalidate and evict on failure. */
  method FlushGroup(entries: array<Entry>, b: u32, e: u32, fails: Entry -> bool,
                    ghost begin: u32, ghost w: seq<Entry>, ghost kb: nat, ghost ke: nat)
    returns (flushed: seq<Entry>, evicted: set<nat>)
    requires entries.Length == LOG_LEN && kb < ke <= |w| <= LOG_LEN
    requires b == Unsigned(begin + kb) && e == Unsigned(begin + ke)
    requires forall j | kb <= j < ke :: Data(w[j])
    requires Flushing(Ring(entries[..], begin), w, kb, ke, kb, fails)
    modifies entries
    ensures Flushing(Ring(entries[..], begin), w, kb, ke, ke, fails)
    ensures flushed == Submitted(w, kb, ke) && evicted == HandedPages(w, kb, ke, fails, true)
    ensures SameBut(old(Ring(entries[..], begin)), Ring(entries[..], begin), kb, ke)
  {
    hide Ring, Survives, Merged, Submitted, SeqLess, Unsigned, Flushing, Handed, HandedPages;
    flushed, evicted := [], {};
    var i: int := b;
    ghost var k := kb;
    FlushNothing(w, kb, fails);
    while true
      invariant kb <= k <= ke && i == Unsigned(begin + k)
      invariant Flushing(Ring(entries[..], begin), w, kb, ke, k, fails)
      invariant flushed == Submitted(w, kb, k) && evicted == HandedPages(w, kb, k, fails, true)
      invariant SameBut(old(Ring(entries[..], begin)), Ring(entries[..], begin), kb, ke)
      decreases ke - k
    {
      InsideGroup(begin, ke, k);
      if !SeqLess(i, e) {
        break;
      }
      ghost var r := Ring(entries[..], begin);
      var le := EntryAt(entries, i, begin, k);
      if le.Valid() {
        flushed := flushed + [le];
        if fails(le) {
          SetEntry(entries, i, le.Invalidated(), begin, k);
          evicted := evicted + {le.page};
        }
      }
      FlushStep(r, Ring(entries[..], begin), w, kb, ke, k, fails);
      SubmittedStep(w, kb, k + 1);
      i, k := Unsigned(i + 1), k + 1;
    }
  }

  lemma {:induction false} FlushNothing(w: seq<Entry>, kb: nat, fails: Entry -> bool)
    requires kb <= |w|
    ensures Submitted(w, kb, kb) == []
    ensures forall failed :: HandedPages(w, kb, kb, fails, failed) == {}
  {
  }

  lemma {:induction false} InsideGroup(begin: u32, ke: nat, k: nat)
    requires k <= LOG_LEN && ke <= LOG_LEN
    ensures SeqLess(Unsigned(begin + k), Unsigned(begin + ke)) <==> k < ke
    ensures Unsigned(Unsigned(begin + k) + 1) == Unsigned(begin + k + 1)
  {
    hide Unsigned, SeqLess;
    SeqOrder(begin + k, begin + ke);
    NextIndex(begin + k);
  }

  lemma {:induction false} EvictStep(r: seq<Entry>, w: seq<Entry>, kb: nat, ke: nat, k: nat, fails: Entry -> bool)
    requires Flushing(r, w, kb, ke, ke, fails) && kb <= k < ke && Data(w[k])
    ensures r[k].Valid() <==> Survives(w, k) && !fails(Merged(w, k))
    ensures r[k].Valid() ==> r[k].page == w[k].page
    ensures HandedPages(w, kb, k + 1, fails, false)
         == HandedPages(w, kb, k, fails, false) + (if r[k].Valid() then {w[k].page} else {})
  {
    hide Survives, Merged;
    MergedFields(w, k);
  }

  /** The third pass: evict the pages that were written. */
  method EvictGroup(entries: array<Entry>, b: u32, e: u32,
                    ghost begin: u32, ghost w: seq<Entry>, ghost kb: nat, ghost ke: nat, ghost fails: Entry -> bool)
    returns (evicted: set<nat>)
    requires entries.Length == LOG_LEN && kb < ke <= |w| <= LOG_LEN
    requires b == Unsigned(begin + kb) && e == Unsigned(begin + ke)
    requires forall j | kb <= j < ke :: Data(w[j])
    requires Flushing(Ring(entries[..], begin), w, kb, ke, ke, fails)
    ensures evicted == HandedPages(w, kb, ke, fails, false)
  {
    hide Ring, Survives, Merged, Submitted, SeqLess, Unsigned, Flushing, Handed, HandedPages;
    evicted := {};
    var i: int := b;
    ghost var k := kb;
    FlushNothing(w, kb, fails);
    while true
      invariant kb <= k <= ke && i == Unsigned(begin + k)
      invariant evicted == HandedPages(w, kb, k, fails, false)
      decreases ke - k
    {
      InsideGroup(begin, ke, k);
      if !SeqLess(i, e) {
        break;
      }
      EvictStep(Ring(entries[..], begin), w, kb, ke, k, fails);
      var le := EntryAt(entries, i, begin, k);
      if le.Valid() {
        evicted := evicted + {le.page};
      }
      i, k := Unsigned(i + 1), k + 1;
    }
  }

  // ---------- the whole walk ----------

  /** One do_trans_begin .. do_trans_end: the inode, the credits asked for, and the entries handed over. */
  datatype Batch = Batch(ino: u64, credits: nat, flushed: seq<Entry>)

  function Handover(batches: seq<Batch>): seq<Entry> {
    if batches == [] then [] else Handover(batches[..|batches| - 1]) + batches[|batches| - 1].flushed
  }

  ghost function DataPages(w: seq<Entry>, lo: nat, hi: nat): set<nat>
    requires lo <= hi <= |w|
  {
    set k | lo <= k < hi && Data(w[k]) :: w[k].page
  }

  /** Invalid entries sort behind everything else. */
  lemma {:induction false} InvalidLast(w: seq<Entry>, k: nat, j: nat)
    requires k <= j < |w| && InOrder(w) && !w[k].Valid()
    ensures !w[j].Valid()
  {
    if k < j {
      assert AtMost(w[k], w[j]);
    }
  }

  lemma {:induction false} NoneSubmitted(w: seq<Entry>, lo: nat, hi: nat)
    requires lo <= hi <= |w| && forall j | lo <= j < hi :: !Data(w[j])
    ensures Submitted(w, lo, hi) == [] && DataPages(w, lo, hi) == {}
  {
    if lo < hi {
      NoneSubmitted(w, lo, hi - 1);
    }
  }

  lemma {:induction false} GroupPages(w: seq<Entry>, kb: nat, ke: nat, fails: Entry -> bool)
    requires kb <= ke <= |w| && forall j | kb <= j < ke :: Data(w[j])
    ensures Pages(w, kb, ke, false) + HandedPages(w, kb, ke, fails, true) + HandedPages(w, kb, ke, fails, false)
         == DataPages(w, kb, ke)
  {
    hide Survives, Merged;
  }

  lemma {:induction false} PagesConcat(w: seq<Entry>, lo: nat, mid: nat, hi: nat)
    requires lo <= mid <= hi <= |w|
    ensures DataPages(w, lo, hi) == DataPages(w, lo, mid) + DataPages(w, mid, hi)
  {
  }

  lemma {:induction false} HandoverMore(batches: seq<Batch>, b: Batch)
    ensures Handover(batches + [b]) == Handover(batches) + b.flushed
  {
    assert (batches + [b])[..|batches|] == batches;
  }

  ghost predicate BatchOk(b: Batch) {
    && b.credits == |b.flushed| > 0
    && forall j | 0 <= j < |b.flushed| :: b.flushed[j].ino == b.ino
  }

  ghost predicate BatchesOk(batches: seq<Batch>) {
    forall i | 0 <= i < |batches| :: BatchOk(batches[i])
  }

  /** Batches in ascending order of inode, all of them before inode `top`. */
  ghost predicate Ascend(batches: seq<Batch>, top: int) {
    && (forall i | 0 <= i < |batches| :: batches[i].ino < top)
    && forall i, j | 0 <= i < j < |batches| :: batches[i].ino < batches[j].ino
  }

  lemma {:induction false} SubmittedInode(w: seq<Entry>, lo: nat, hi: nat, ino: u64)
    requires lo <= hi <= |w| && forall j | lo <= j < hi :: w[j].ino == ino
    ensures forall j | 0 <= j < |Submitted(w, lo, hi)| :: Submitted(w, lo, hi)[j].ino == ino
  {
    if lo < hi {
      SubmittedInode(w, lo, hi - 1, ino);
      MergedFields(w, hi - 1);
    }
  }

  /** The least inode from entry k on. */
  ghost function Top(w: seq<Entry>, k: nat): int
    requires k <= |w|
  {
    if k < |w| then w[k].ino else 0x1_0000_0000_0000_0000
  }

  lemma {:induction false} BatchAdded(batches: seq<Batch>, b: Batch, w: seq<Entry>, kb: nat, ke: nat)
    requires kb < ke <= |w| && InOrder(w) && Ascend(batches, Top(w, kb)) && b.ino == w[kb].ino
    requires ke == |w| || w[ke].ino != w[kb].ino
    ensures Ascend(batches + [b], Top(w, ke))
  {
    assert ke < |w| ==> AtMost(w[kb], w[ke]);
  }

  lemma {:induction false} TopGrows(batches: seq<Batch>, w: seq<Entry>, k: nat)
    requires k < |w| && InOrder(w) && Ascend(batches, Top(w, k))
    ensures Ascend(batches, Top(w, k + 1))
  {
    assert k + 1 < |w| ==> AtMost(w[k], w[k + 1]);
  }

  /** What one group adds to the account of the walk. */
  lemma {:induction false} GroupDone(batches: seq<Batch>, b: Batch, w: seq<Entry>, kb: nat, ke: nat)
    requires kb < ke <= |w| && BatchesOk(batches) && Handover(batches) == Submitted(w, 0, kb)
    requires b == Batch(w[kb].ino, |Submitted(w, kb, ke)|, Submitted(w, kb, ke))
    requires forall j | kb <= j < ke :: Data(w[j]) && w[j].ino == w[kb].ino
    requires ke == |w| || w[ke].ino != w[kb].ino
    ensures BatchesOk(batches + [b]) && Handover(batches + [b]) == Submitted(w, 0, ke)
    ensures InOrder(w) && Ascend(batches, Top(w, kb)) ==> Ascend(batches + [b], Top(w, ke))
    ensures DataPages(w, 0, ke) == DataPages(w, 0, kb) + DataPages(w, kb, ke)
  {
    hide Submitted, Handover, DataPages, Survives, InOrder, Ascend;
    SubmittedInode(w, kb, ke, w[kb].ino);
    LastSurvives(w, ke);
    SubmittedStep(w, kb, ke);
    if InOrder(w) && Ascend(batches, Top(w, kb)) {
      BatchAdded(batches, b, w, kb, ke);
    }
    HandoverMore(batches, b);
    SubmittedConcat(w, 0, kb, ke);
    PagesConcat(w, 0, kb, ke);
  }

  lemma {:induction false} LastSurvives(w: seq<Entry>, k: nat)
    requires 0 < k <= |w| && Data(w[k - 1]) && (k == |w| || w[k].ino != w[k - 1].ino)
    ensures Survives(w, k - 1)
  {
  }

  lemma {:induction false} SkipEntry(w: seq<Entry>, k: nat)
    requires k < |w| && !Data(w[k])
    ensures Submitted(w, 0, k + 1) == Submitted(w, 0, k) && DataPages(w, 0, k + 1) == DataPages(w, 0, k)
  {
    hide Submitted, DataPages;
    NoneSubmitted(w, k, k + 1);
    SubmittedConcat(w, 0, k, k + 1);
    PagesConcat(w, 0, k, k + 1);
  }

  lemma {:induction false} SkipRest(w: seq<Entry>, k: nat)
    requires k < |w| && Walkable(w) && !w[k].Valid()
    ensures Submitted(w, 0, |w|) == Submitted(w, 0, k) && DataPages(w, 0, |w|) == DataPages(w, 0, k)
    ensures forall j | k <= j < |w| :: !Data(w[j])
  {
    hide Submitted, DataPages;
    forall j | k <= j < |w|
      ensures !Data(w[j])
    {
      assert k < j ==> !w[j].Valid();
    }
    NoneSubmitted(w, k, |w|);
    SubmittedConcat(w, 0, k, |w|);
    PagesConcat(w, 0, k, |w|);
  }

  /** One group, three passes. */
  method MergeGroup(entries: array<Entry>, b: u32, end: u32, fails: Entry -> bool, ghost begin: u32,
                    ghost w: seq<Entry>, ghost kb: nat)
    returns (e: u32, batch: Batch, evicted: set<nat>, ghost ke: nat)
    requires entries.Length == LOG_LEN && |w| == SeqDist(begin, end) <= LOG_LEN
    requires kb < |w| && b == Unsigned(begin + kb) && Walkable(w) && Data(w[kb])
    requires kb == 0 || !Data(w[kb - 1]) || w[kb - 1].ino != w[kb].ino
    requires forall j | kb <= j < |w| :: Ring(entries[..], begin)[j] == w[j]
    modifies entries
    ensures kb < ke <= |w| && e == Unsigned(begin + ke)
    ensures forall j | kb <= j < ke :: Data(w[j]) && w[j].ino == w[kb].ino
    ensures ke == |w| || w[ke].ino != w[kb].ino
    ensures batch == Batch(w[kb].ino, |Submitted(w, kb, ke)|, Submitted(w, kb, ke)) && evicted == DataPages(w, kb, ke)
    ensures SameBut(old(Ring(entries[..], begin)), Ring(entries[..], begin), kb, ke)
  {
    hide Ring, Merged, Survives, Submitted, SeqLess, Unsigned, SeqDist, Walkable, Scanned, Flushing, Pages, HandedPages,
         DataPages;
    var ino := EntryAt(entries, b, begin, kb).ino;
    var nles, superseded, failed, written, flushed;
    e, nles, superseded, ke := ScanGroup(entries, b, end, begin, w, kb);
    LastSurvives(w, ke);
    FlushStart(Ring(entries[..], begin), w, kb, ke, fails);
    flushed, failed := FlushGroup(entries, b, e, fails, begin, w, kb, ke);
    written := EvictGroup(entries, b, e, begin, w, kb, ke, fails);
    GroupPages(w, kb, ke, fails);
    batch, evicted := Batch(ino, nles, flushed), superseded + failed + written;
  }

  /** __merge_flush, on any stretch it can walk: what is handed over is what the entries and their neighbours in the
      stretch call for.  In a sorted stretch the transactions come in ascending order of inode. */
  method MergeFlush(entries: array<Entry>, lBegin: u32, begin: u32, end: u32, fails: Entry -> bool, endings: nat -> int,
                    ghost w: seq<Entry>)
    returns (err: int, lBegin': u32, batches: seq<Batch>, evicted: set<nat>, ghost kl: nat)
    requires entries.Length == LOG_LEN && |w| == SeqDist(begin, end) <= LOG_LEN
    requires Walkable(w) && Ring(entries[..], begin)[..|w|] == w
    modifies entries
    ensures BatchesOk(batches) && Handover(batches) == Submitted(w, 0, |w|)
    ensures InOrder(w) ==> Ascend(batches, 0x1_0000_0000_0000_0000)
    ensures evicted == DataPages(w, 0, |w|)
    ensures kl <= |w| && lBegin' == (if batches == [] then lBegin else Unsigned(begin + kl))
    ensures (batches == [] <==> kl == 0) && (kl > 0 ==> Data(w[kl - 1])) && forall j | kl <= j < |w| :: !Data(w[j])
    ensures err == if batches == [] then 0 else endings(|batches| - 1)
    ensures SameBut(old(Ring(entries[..], begin)), Ring(entries[..], begin), 0, |w|)
  {
    hide Ring, Merged, Survives, Submitted, SeqLess, Unsigned, SeqDist, InOrder, Walkable, BatchesOk, Ascend, Handover,
         DataPages;
    err, lBegin', batches, evicted, kl := 0, lBegin, [], {}, 0;
    var b: int := begin;
    ghost var k := 0;
    WalkStart(w, begin);
    ghost var r := Ring(entries[..], begin);
    while true
      invariant k <= |w| && b == Unsigned(begin + k)
      invariant k == 0 || k == |w| || !Data(w[k - 1]) || w[k - 1].ino != w[k].ino
      invariant forall j | k <= j < |w| :: Ring(entries[..], begin)[j] == w[j]
      invariant SameBut(old(Ring(entries[..], begin)), Ring(entries[..], begin), 0, |w|)
      invariant InOrder(w) ==> Ascend(batches, Top(w, k))
      invariant BatchesOk(batches) && Handover(batches) == Submitted(w, 0, k)
                && evicted == DataPages(w, 0, k)
      invariant kl <= k && lBegin' == (if batches == [] then lBegin else Unsigned(begin + kl))
      invariant (batches == [] <==> kl == 0) && (kl > 0 ==> Data(w[kl - 1])) && forall j | kl <= j < k :: !Data(w[j])
      invariant err == if batches == [] then 0 else endings(|batches| - 1)
      decreases |w| - k
    {
      InsideStretch(begin, end, |w|, k);
      if !SeqLess(b, end) {
        break;
      }
      var le := EntryAt(entries, b, begin, k);
      if !le.Valid() {
        SkipRest(w, k);
        TopAtMost(batches, w, k);
        return;
      } else if le.Meta() {
        SkipEntry(w, k);
        if InOrder(w) {
          TopGrows(batches, w, k);
        }
        b, k := Unsigned(b + 1), k + 1;
      } else {
        var e, batch, pages;
        ghost var ke;
        e, batch, pages, ke := MergeGroup(entries, b, end, fails, begin, w, k);
        GroupDone(batches, batch, w, k, ke);
        err := endings(|batches|);
        batches, evicted := batches + [batch], evicted + pages;
        b, k, kl, lBegin' := e, ke, ke, e;
      }
    }
  }

  lemma {:induction false} WalkStart(w: seq<Entry>, begin: u32)
    ensures BatchesOk([]) && Ascend([], Top(w, 0)) && Handover([]) == Submitted(w, 0, 0) && DataPages(w, 0, 0) == {}
    ensures Unsigned(begin + 0) == begin
  {
  }

  lemma {:induction false} TopAtMost(batches: seq<Batch>, w: seq<Entry>, k: nat)
    requires k <= |w|
    ensures Ascend(batches, Top(w, k)) ==> Ascend(batches, 0x1_0000_0000_0000_0000)
  {
  }
}
