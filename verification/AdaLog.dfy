/** The RAM log at work: appending, sealing, writing through the two hooks, flushing (ada_log.h, ada_log.c,
    ada_fs.h, ada_rlog.h).  Whatever the run, the disk holds the files as they were at the last flushed seal. */
module AdaLog {
  import opened Basics
  import opened LogEntry
  import opened LogRing
  import opened LogSort
  import opened MergeFlush
  import opened LogImage
  import opened LogView
  import opened LogKinds
  import opened LogLengths

  datatype Tran = Tran(begin: u32, end: u32) {
    predicate IsOpen() { begin == end }
  }

  // ---------- the chain of transactions ----------

  ghost predicate Link(trans: seq<Tran>, ends: seq<nat>, i: nat)
    requires i + 1 < |ends| == |trans|
  {
    trans[i] == Tran(Unsigned(ends[i]), Unsigned(ends[i + 1])) && ends[i] < ends[i + 1]
  }

  /** Unbounded counters behind the 32-bit ones: the slots from `begin` on are taken, the unflushed ones start at
      ends[0], the sealed transactions end at ends[1], ends[2], .., and `total` entries are unflushed. */
  ghost predicate Chain(lBegin: u32, lHead: u32, lEnd: u32, trans: seq<Tran>, begin: nat, ends: seq<nat>, total: nat) {
    && |ends| == |trans| > 0
    && begin <= ends[0] <= ends[|ends| - 1] <= ends[0] + total <= begin + LOG_LEN
    && lBegin == Unsigned(begin) && lHead == Unsigned(ends[|ends| - 1]) && lEnd == Unsigned(ends[0] + total)
    && trans[|trans| - 1] == Tran(0, 0)
    && forall i | 0 <= i < |trans| - 1 :: Link(trans, ends, i)
  }

  ghost function FirstOf(ends: seq<nat>): nat { if |ends| > 0 then ends[0] else 0 }

  ghost function SealedOf(ends: seq<nat>): nat {
    if |ends| > 0 && ends[0] <= ends[|ends| - 1] then ends[|ends| - 1] - ends[0] else 0
  }

  lemma {:induction false} EndsAscend(trans: seq<Tran>, ends: seq<nat>, i: nat, j: nat)
    requires |ends| == |trans| && (forall i | 0 <= i < |trans| - 1 :: Link(trans, ends, i)) && i <= j < |ends|
    ensures ends[i] + (j - i) <= ends[j]
  {
    if i < j {
      EndsAscend(trans, ends, i, j - 1);
      assert Link(trans, ends, j - 1);
    }
  }

  lemma {:induction false} Slot(x: nat)
    ensures Unsigned(x) % 32768 == x % 32768
  {
    SlotOf(0, x);
  }

  /** A sealed transaction is not taken for the open one. */
  lemma {:induction false} SealedNotOpen(a: nat, b: nat)
    requires a < b <= a + LOG_LEN
    ensures Unsigned(a) != Unsigned(b)
  {
    PositionOf(a, b - a);
    PositionOf(a, 0);
  }

  /** A writer whose wait is interrupted leaves L_NULL in the record of its page.  The next write to the page finds
      a record, and takes it for that of a sealed entry, the one in the last slot, exactly while l_head is below
      2^31. */
  lemma {:induction false} InterruptedLooksSealed(head: u32)
    ensures SeqLess(L_NULL, head) <==> head < 0x8000_0000
  {
  }

  /** The bytes [offset, offset + |data|) of a page replaced. */
  function Patched(page: Page, offset: nat, data: seq<int>): Page
    requires offset + |data| <= 4096
  {
    page[..offset] + data + page[offset + |data|..]
  }

  /** images[i] is the image at the seal of transaction i. */
  ghost predicate Imaged(v: View, ends: seq<nat>, images: seq<Image>) {
    && v.sealed <= |v.log| && |images| == |ends| - 1
    && forall i | 0 <= i < |images| :: ImageOk(v, ends[i + 1], images[i])
  }

  ghost predicate ImageOk(v: View, end: nat, image: Image)
    requires v.sealed <= |v.log|
  {
    v.first <= end <= v.first + v.sealed && image == Upto(v, end - v.first)
  }

  lemma {:induction false} ImagesKept(v: View, v': View, ends: seq<nat>, images: seq<Image>)
    requires Imaged(v, ends, images) && SealedKept(v, v') && v'.first == v.first && v.sealed <= v'.sealed <= |v'.log|
    ensures Imaged(v', ends, images)
  {
    hide Upto;
    forall i | 0 <= i < |images|
      ensures ImageOk(v', ends[i + 1], images[i])
    {
      assert ImageOk(v, ends[i + 1], images[i]);
    }
  }

  lemma {:induction false} ImageAdded(v: View, pend: Pending, ends: seq<nat>, images: seq<Image>)
    requires Ok(v, pend) && Imaged(v, ends, images)
    ensures Imaged(v.(sealed := |v.log|), ends + [v.first + |v.log|], images + [v.file])
  {
    hide Structure, Replay;
    var v', ends', images' := v.(sealed := |v.log|), ends + [v.first + |v.log|], images + [v.file];
    forall i | 0 <= i < |images'|
      ensures ImageOk(v', ends'[i + 1], images'[i])
    {
      assert i < |images| ==> ImageOk(v, ends[i + 1], images[i]);
    }
  }

  lemma {:induction false} ChainSealed(lBegin: u32, lHead: u32, lEnd: u32, trans: seq<Tran>, begin: nat, ends: seq<nat>,
                                       total: nat)
    requires Chain(lBegin, lHead, lEnd, trans, begin, ends, total)
    ensures lHead == lEnd <==> ends[|ends| - 1] == ends[0] + total
    ensures lHead != lEnd ==>
              Chain(lBegin, lEnd, lEnd, trans[..|trans| - 1] + [Tran(lHead, lEnd), Tran(0, 0)], begin,
                    ends + [ends[0] + total], total)
  {
    hide Unsigned;
    var n := |trans| - 1;
    if ends[n] < ends[0] + total {
      SealedNotOpen(ends[n], ends[0] + total);
      var trans', ends' := trans[..n] + [Tran(lHead, lEnd), Tran(0, 0)], ends + [ends[0] + total];
      forall i | 0 <= i < |trans'| - 1
        ensures Link(trans', ends', i)
      {
        assert i < n ==> Link(trans, ends, i);
      }
    }
  }

  /** What a write may find in the reverse log once its first hook has run. */
  ghost predicate Found(v: View, key: Key, p: nat, pend: Pending) {
    && key in v.cache && v.cache[key] == p && p in v.rlog && p in v.content && v.content[p] == ImagePage(v.file, key)
    && var k := SeqDist(Unsigned(v.first), v.rlog[p]);
       match pend
       case Idle => v.sealed <= k < |v.log| && KeyOf(v.log[k]) == key && v.log[k].page == p
           && v.rlog[p] == Unsigned(v.first + k) != L_NULL
       case Writing(key', page, pgi) =>
         && key' == key && page == p
         && (v.rlog[p] == L_NULL ==> pgi == key.index * 256 + 1)
         && (v.rlog[p] != L_NULL ==>
               k < v.sealed <= |v.log| && KeyOf(v.log[k]) == key && v.log[k].pgi + 1 == pgi
                   && v.rlog[p] == Unsigned(v.first + k))
  }

  /** Pages in use lie below the next one to be allocated. */
  ghost predicate Below(content: map<nat, Page>, next: nat) {
    forall p | p in content :: p < next
  }

  lemma {:induction false} BelowMore(content: map<nat, Page>, next: nat, p: nat, page: Page)
    requires Below(content, next)
    ensures Below(content[p := page], if p < next then next else p + 1)
    ensures next !in content && (p in content ==> p < next)
  {
  }

  lemma {:induction false} NextFresh(v: View, next: nat)
    requires Ok(v, Idle) && Below(v.content, next)
    ensures next !in v.content && next !in v.rlog
  {
    hide Ok;
    CachedPage(v, Key(0, 0));
  }

  lemma {:induction false} Recorded(v: View, key: Key, p: nat, page: Page, ends: seq<nat>, images: seq<Image>)
    requires Ok(v, Idle) && Imaged(v, ends, images) && p !in v.rlog
    requires if key in v.cache then p == v.cache[key] && page == v.content[p]
             else p !in v.content && page == ImagePage(v.disk, key)
    ensures var v', pend := Associated(v, key, p, page), Writing(key, p, key.index * 256 + 1);
            Ok(v', pend) && Imaged(v', ends, images) && Found(v', key, p, pend)
  {
    hide Unsigned, Ok, Imaged, SeqDist, SealedKept, ImagePage;
    CachedPage(v, key);
    OkBounds(v, Idle);
    AssocStep(v, key, p, page, key.index * 256 + 1);
    ImagesKept(v, Associated(v, key, p, page), ends, images);
  }

  lemma {:induction false} Turned(v: View, key: Key, k: nat, cpage: nat, ends: seq<nat>, images: seq<Image>)
    requires Ok(v, Idle) && Imaged(v, ends, images) && key in v.cache && v.cache[key] in v.rlog && cpage !in v.content
    requires k == SeqDist(Unsigned(v.first), v.rlog[v.cache[key]]) < v.sealed
    ensures k < |v.log| && v.log[k].page == v.cache[key] && v.rlog[v.cache[key]] == Unsigned(v.first + k)
    ensures var v', pend := Copied(v, k, cpage), Writing(key, v.cache[key], v.log[k].pgi + 1);
            Ok(v', pend) && Imaged(v', ends, images) && Found(v', key, v.cache[key], pend)
  {
    hide Unsigned, Ok, Imaged, SeqDist, SealedKept, ImagePage, KeyOf, Entry.SetCow;
    CachedPage(v, key);
    OkBounds(v, Idle);
    OkStructure(v, Idle);
    LastEntry(v, key, k);
    CowKeeps(v.log[k], cpage);
    CowStep(v, key, k, cpage);
    ImagesKept(v, Copied(v, k, cpage), ends, images);
  }

  /** The hook's comparison with l_head tells a sealed page from an active one. */
  lemma {:induction false} SealedOrActive(v: View, key: Key, k: nat)
    requires Ok(v, Idle) && key in v.cache && v.cache[key] in v.rlog
             && k == SeqDist(Unsigned(v.first), v.rlog[v.cache[key]])
    ensures k < |v.log| && v.rlog[v.cache[key]] == Unsigned(v.first + k)
    ensures SeqLess(v.rlog[v.cache[key]], Unsigned(v.first + v.sealed)) <==> k < v.sealed
    ensures v.sealed <= k ==> Found(v, key, v.cache[key], Idle)
  {
    hide Unsigned, SeqDist, SeqLess, Ok, ImagePage;
    CachedPage(v, key);
    OkBounds(v, Idle);
    OkStructure(v, Idle);
    LastEntry(v, key, k);
    SeqOrder(v.first + k, v.first + v.sealed);
  }

  /** adafs_try_append_log's test for an active page comes out as the first hook left it. */
  lemma {:induction false} ActiveTest(v: View, key: Key, p: nat, pend: Pending)
    requires Found(v, key, p, pend) && v.sealed <= |v.log| <= LOG_LEN
    ensures v.rlog[p] != L_NULL && SeqNotGreater(Unsigned(v.first + v.sealed), v.rlog[p]) <==> pend.Idle?
  {
    hide Unsigned, SeqDist, SeqNotGreater, ImagePage, KeyOf;
    var k := SeqDist(Unsigned(v.first), v.rlog[p]);
    if v.rlog[p] != L_NULL {
      SeqOrder(v.first + v.sealed, v.first + k);
    }
  }

  lemma {:induction false} Rewriting(v: View, key: Key, k: nat, l: nat, page: Page, ends: seq<nat>, images: seq<Image>)
    requires Ok(v, Idle) && Imaged(v, ends, images) && key in v.cache && Found(v, key, v.cache[key], Idle)
             && l < 0x1_0000
    requires k == SeqDist(Unsigned(v.first), v.rlog[v.cache[key]])
    ensures v.sealed <= k < |v.log| && v.log[k].page == v.cache[key] && v.rlog[v.cache[key]] == Unsigned(v.first + k)
            && KeyOf(v.log[k]) == key
    ensures Ok(Rewritten(v, k, l, page), Idle) && Imaged(Rewritten(v, k, l, page), ends, images)
  {
    hide Unsigned, SeqDist, Ok, Imaged, SealedKept, ImagePage, Entry.SetLength;
    OkBounds(v, Idle);
    ActiveStep(v, key, k, l, page);
    ImagesKept(v, Rewritten(v, k, l, page), ends, images);
  }

  lemma {:induction false} Copying(v: View, key: Key, p: nat, pend: Pending, page: Page, ends: seq<nat>,
                                   images: seq<Image>)
    requires Ok(v, pend) && Imaged(v, ends, images) && Found(v, key, p, pend) && pend.Writing?
    ensures var v' := v.(content := v.content[p := page]); Ok(v', pend) && Imaged(v', ends, images)
    ensures Found(v.(content := map[p := ImagePage(v.file, key)]), key, p, pend)
  {
    hide Unsigned, SeqDist, Ok, Imaged, SealedKept, ImagePage;
    OkBounds(v, pend);
    CopyStep(v, pend, page);
    ImagesKept(v, v.(content := v.content[p := page]), ends, images);
  }

  /** The entry adafs_try_append_log builds, given the sequence number recorded for the page and the entry there. */
  function BuiltEntry(key: Key, l: nat, p: nat, enti: u32, prev: Entry): Entry
    requires l <= 4096
  {
    var le := Entry(key.ino, 0, l, p).InitPage(key.index);
    if enti != L_NULL then le.SetVersion(prev.Version() + 1) else le
  }

  /** It outranks the entry it supersedes exactly when the version has room and the recorded number is not the one
      that means none: the entry with sequence number 2^32 - 1 is taken for no entry, and its successor starts
      again at version 1. */
  lemma {:induction false} OutranksExactly(key: Key, l: nat, p: nat, enti: u32, prev: Entry)
    requires l <= 4096 && KeyOf(prev) == key && prev.Version() >= 1 && key.index < 0xFF_FFFF_FFFF_FFFF
    ensures var e := BuiltEntry(key, l, p, enti, prev);
            KeyOf(e) == key && prev.pgi < e.pgi <==> prev.Version() < 255 && enti != L_NULL
  {
    VersionOverflow(Entry(key.ino, 0, l, p), key.index, prev.Version() + 1);
    if prev.Version() < 255 {
      NextVersion(prev, key, l, p);
    }
  }

  lemma {:induction false} BuiltFits(key: Key, l: nat, p: nat, enti: u32, prev: Entry, pgi: int)
    requires l <= 4096 && key.ino != INVAL_INO && key.index < 0x100_0000_0000_0000
    requires if enti == L_NULL then pgi == key.index * 256 + 1
             else KeyOf(prev) == key && prev.pgi + 1 == pgi && pgi % 256 != 0
    ensures var le := BuiltEntry(key, l, p, enti, prev);
            && le.Valid() && !le.Meta() && le.Version() >= 1 && le.Length() == l
            && KeyOf(le) == key && le.page == p && le.pgi == pgi
  {
    if enti == L_NULL {
      VersionFits(Entry(key.ino, 0, l, p), key.index, 1);
    } else {
      assert prev.Version() < 255;
      NextVersion(prev, key, l, p);
    }
  }

  /** One version more, same page. */
  lemma {:induction false} NextVersion(prev: Entry, key: Key, l: nat, p: nat)
    requires KeyOf(prev) == key && key.index < 0x100_0000_0000_0000 && prev.Version() < 255 && l <= 4096
    ensures var e := Entry(key.ino, 0, l, p).InitPage(key.index).SetVersion(prev.Version() + 1);
            e.pgi == prev.pgi + 1 && KeyOf(e) == key && e.Version() == prev.Version() + 1
  {
    VersionFits(Entry(key.ino, 0, l, p), key.index, prev.Version() + 1);
  }

  lemma {:induction false} Entering(v: View, pend: Pending, e: Entry, ends: seq<nat>, images: seq<Image>)
    requires Ok(v, pend) && Imaged(v, ends, images) && Entered(v, pend, e) && |v.log| < LOG_LEN
    ensures e.page in v.content && PageOf(v.content, e.page) == v.content[e.page]
    ensures Ok(Appended(v, pend.key, e), Idle) && Imaged(Appended(v, pend.key, e), ends, images)
  {
    hide Unsigned, Ok, Imaged, SealedKept, KeyOf;
    OkBounds(v, pend);
    OkStructure(v, pend);
    assert CacheOk(v, pend, pend.key);
    AppendStep(v, pend, e);
    ImagesKept(v, Appended(v, pend.key, e), ends, images);
  }

  lemma {:induction false} Creating(v: View, pend: Pending, e: Entry, ends: seq<nat>, images: seq<Image>)
    requires Ok(v, pend) && Imaged(v, ends, images) && e.Valid() && e.Meta() && e.pgi == 0 && |v.log| < LOG_LEN
    ensures Ok(v.(log := v.log + [e]), pend) && Imaged(v.(log := v.log + [e]), ends, images)
  {
    hide Ok, Imaged, SealedKept;
    OkBounds(v, pend);
    MetaStep(v, pend, e);
    ImagesKept(v, v.(log := v.log + [e]), ends, images);
  }

  /** A transaction is open only at the end of the chain. */
  lemma {:induction false} OpenOnlyLast(trans: seq<Tran>, ends: seq<nat>, t: nat)
    requires |ends| == |trans| && t < |trans| && trans[|trans| - 1] == Tran(0, 0)
    requires forall i | 0 <= i < |trans| - 1 :: Link(trans, ends, i)
    requires ends[0] <= ends[|ends| - 1] <= ends[0] + LOG_LEN
    ensures trans[t].IsOpen() <==> t == |trans| - 1
  {
    hide Unsigned;
    if t < |trans| - 1 {
      assert Link(trans, ends, t);
      EndsAscend(trans, ends, 0, t);
      EndsAscend(trans, ends, t + 1, |ends| - 1);
      SealedNotOpen(ends[t], ends[t + 1]);
    }
  }

  lemma {:induction false} TakenLength(lBegin: u32, lHead: u32, lEnd: u32, trans: seq<Tran>, begin: nat, ends: seq<nat>,
                                       total: nat, t: nat)
    returns (n: nat)
    requires Chain(lBegin, lHead, lEnd, trans, begin, ends, total) && 0 < t < |ends|
    ensures ends[0] + n == ends[t] <= ends[|ends| - 1] <= ends[0] + total
            && n == SeqDist(Unsigned(ends[0]), Unsigned(ends[t]))
    ensures forall i | t <= i < |ends| :: ends[t] <= ends[i]
  {
    hide Unsigned, SeqDist;
    forall i | t <= i < |ends|
      ensures ends[t] <= ends[i]
    {
      EndsAscend(trans, ends, t, i);
    }
    EndsAscend(trans, ends, 0, t);
    n := ends[t] - ends[0];
    PositionOf(ends[0], n);
  }

  lemma {:induction false} TakenEnds(lBegin: u32, lHead: u32, lEnd: u32, trans: seq<Tran>, begin: nat, ends: seq<nat>,
                                     total: nat, t: nat)
    requires Chain(lBegin, lHead, lEnd, trans, begin, ends, total) && 0 < t < |ends|
    ensures trans[0].begin == Unsigned(ends[0]) && trans[t - 1].end == Unsigned(ends[t])
  {
    assert Link(trans, ends, 0) && Link(trans, ends, t - 1);
  }

  lemma {:induction false} ChainTaken(lBegin: u32, lHead: u32, lEnd: u32, trans: seq<Tran>, begin: nat, ends: seq<nat>,
                                      total: nat, t: nat, lBegin': u32, begin': nat)
    requires Chain(lBegin, lHead, lEnd, trans, begin, ends, total) && 0 < t < |ends|
    requires lBegin' == Unsigned(begin') && begin <= begin' <= ends[t]
    ensures ends[0] <= ends[t] <= ends[|ends| - 1]
            && Chain(lBegin', lHead, lEnd, trans[t..], begin', ends[t..], total - (ends[t] - ends[0]))
  {
    hide Unsigned;
    EndsAscend(trans, ends, 0, t);
    EndsAscend(trans, ends, t, |ends| - 1);
    var trans', ends' := trans[t..], ends[t..];
    forall i | 0 <= i < |trans'| - 1
      ensures Link(trans', ends', i)
    {
      assert Link(trans, ends, t + i);
    }
  }

  lemma {:induction false} EarlyIsClear(a: nat, b: nat)
    requires a <= b < 0x8000_0000
    ensures Unsigned(a) == a && Unsigned(b) == b && Clear(Unsigned(a), Unsigned(b))
  {
  }

  lemma {:induction false} UnsignedSum(a: nat, k: nat)
    ensures Unsigned(Unsigned(a) + k) == Unsigned(a + k)
  {
    var q := a / 0x1_0000_0000;
    assert a + k == Unsigned(a) + k + 0x1_0000_0000 * q;
    WrappedMultiple(Unsigned(a) + k, q);
  }

  function SlotAt(entries: array<Entry>, b: u32, i: nat): Entry
    requires entries.Length == LOG_LEN
    reads entries
  {
    entries[(b + i) % 32768]
  }

  /** le_cmp orders the n entries from b on by inode, page and version. */
  predicate Comparable(entries: array<Entry>, b: u32, n: nat)
    requires entries.Length == LOG_LEN
    reads entries
  {
    forall i, j | 0 <= i < n && 0 <= j < n :: Agrees(SlotAt(entries, b, i), SlotAt(entries, b, j))
  }

  /** Two keys that le_cmp compares as it should: other inodes, or a difference that keeps its sign when truncated. */
  predicate Near(ino: int, pgi: int, ino': int, pgi': int) {
    || ino != ino' || pgi == pgi' || (pgi > pgi' && 0 < (pgi - pgi') % 0x1_0000_0000 < 0x8000_0000)
    || (pgi < pgi' && 0x8000_0000 <= (pgi - pgi') % 0x1_0000_0000)
  }

  predicate KeysAgree(kinds: seq<Kind>, pgis: seq<int>, n: int)
    requires n <= |kinds| == |pgis|
  {
    forall i, j | 0 <= i < n && 0 <= j < n :: Near(kinds[i].Ino(), pgis[i], kinds[j].Ino(), pgis[j])
  }

  lemma {:induction false} NearExactly(log: seq<Entry>, i: nat, j: nat)
    requires i < |log| && j < |log|
    ensures Agrees(log[i], log[j]) <==> Near(Kinds(log)[i].Ino(), Pgis(log)[i], Kinds(log)[j].Ino(), Pgis(log)[j])
  {
    AgreesExactly(log[i], log[j]);
  }

  lemma {:induction false} RingFrom(s: seq<Entry>, first: nat, b: u32, log: seq<Entry>, k: nat)
    requires |s| == LOG_LEN && |log| <= LOG_LEN && Ring(s, first)[..|log|] == log && k < |log| && b == Unsigned(first)
    ensures s[(b + k) % 32768] == log[k]
  {
    hide Unsigned;
    Slot(first);
    RingSame(s, first, b);
    assert Ring(s, b)[..|log|][k] == log[k];
  }

  lemma {:induction false} ComparableTrusted(entries: array<Entry>, b: u32, n: nat)
    requires entries.Length == LOG_LEN && n <= LOG_LEN && Comparable(entries, b, n)
    ensures Trusted(Ring(entries[..], b), 0, n)
  {
    hide Agrees;
    var r := Ring(entries[..], b);
    assert forall i | 0 <= i < n :: r[i] == SlotAt(entries, b, i);
  }

  /** The entries of a range. */
  ghost function Window(s: seq<Entry>, b: u32, e: u32): (w: seq<Entry>)
    requires |s| == LOG_LEN
    ensures SeqDist(b, e) <= LOG_LEN ==> |w| == SeqDist(b, e)
  {
    if SeqDist(b, e) <= LOG_LEN then Ring(s, b)[..SeqDist(b, e)] else []
  }

  lemma {:induction false} SortedWindow(r: seq<Entry>, r': seq<Entry>, log: seq<Entry>, n: nat)
    requires n <= |log| <= |r| && r[..|log|] == log && Shuffled(r, r', 0, n) && Sorted(r', 0, n)
    ensures InOrder(r'[..n]) && Reordered(log[..n], r'[..n]) && r'[n..|log|] == log[n..]
  {
    hide AtMost;
    var a, w := log[..n], r'[..n];
    assert r[0..n] == a && r'[0..n] == w;
    forall e
      ensures e in a <==> e in w
    {
      assert e in a <==> e in multiset(a);
      assert e in w <==> e in multiset(w);
    }
    assert r'[n..|log|] == r'[n..][..|log| - n] == r[n..][..|log| - n] == log[n..];
  }

  /** The range holds the first n entries of the log, in order, and the others follow as they were. */
  ghost predicate SortedStretch(s: seq<Entry>, b: u32, e: u32, log: seq<Entry>, n: int)
    requires |s| == LOG_LEN && 0 <= n <= |log| <= LOG_LEN
  {
    && n == SeqDist(b, e) && InOrder(Window(s, b, e)) && Reordered(log[..n], Window(s, b, e))
    && Ring(s, b)[n..|log|] == log[n..]
  }

  lemma {:induction false} SortsStretch(s: seq<Entry>, b: u32, e: u32, first: nat, log: seq<Entry>, n: nat)
    requires |s| == LOG_LEN && b == Unsigned(first) && n == SeqDist(b, e) <= |log| <= LOG_LEN
    requires Ring(s, first)[..|log|] == log && Clear(b, e) && Trusted(Ring(s, b), 0, n)
    requires SortRun(s, [Target(b, e)]).ret == 0
    ensures SortedStretch(SortRun(s, [Target(b, e)]).entries, b, e, log, n)
  {
    hide Ring, Unsigned, SeqDist, SortRun, Target, Clear, Trusted, Shuffled, Sorted, InOrder, Reordered;
    Slot(first);
    RingSame(s, first, b);
    FromEmpty(s, b, e);
    SortedWindow(Ring(s, b), Ring(SortRun(s, [Target(b, e)]).entries, b), log, n);
  }

  lemma {:induction false} StretchFacts(s: seq<Entry>, b: u32, e: u32, log: seq<Entry>, n: nat)
    requires |s| == LOG_LEN && n <= |log| <= LOG_LEN && SortedStretch(s, b, e, log, n)
    ensures |Window(s, b, e)| == n && InOrder(Window(s, b, e)) && Reordered(log[..n], Window(s, b, e))
    ensures Ring(s, b)[n..|log|] == log[n..]
  {
  }

  lemma {:induction false} WindowIs(s: seq<Entry>, b: u32, e: u32)
    requires |s| == LOG_LEN && SeqDist(b, e) <= LOG_LEN
    ensures Window(s, b, e) == Ring(s, b)[..SeqDist(b, e)] && |Window(s, b, e)| == SeqDist(b, e)
  {
  }

  /** The data entries of the stretch end at place kl. */
  ghost predicate DataEndsAt(w: seq<Entry>, kl: nat) {
    kl <= |w| && (kl > 0 ==> Data(w[kl - 1])) && forall j | kl <= j < |w| :: !Data(w[j])
  }

  /** Every page is as in the image, unless its entry failed: then it is as it was. */
  ghost predicate UnlessLost(disk: Image, was: Image, image: Image, sub: seq<Entry>, fails: Entry -> bool) {
    forall key :: if Lost(sub, fails, key) then SameFor(key, disk, was) else SameFor(key, disk, image)
  }

  /** What reaches the disk of a sorted stretch. */
  lemma {:induction false} Reaches(disk: Image, w: seq<Entry>, content: map<nat, Page>, fails: Entry -> bool,
                                   image: Image)
    requires InOrder(w) && WellFormed(w) && Apply(disk, Submitted(w, 0, |w|), content) == image
    ensures var sub := Submitted(w, 0, |w|);
            UnlessLost(Apply(disk, Passed(sub, fails), content), disk, image, sub, fails)
    ensures (forall e :: !fails(e)) ==> Passed(Submitted(w, 0, |w|), fails) == Submitted(w, 0, |w|)
  {
    hide InOrder, WellFormed, Submitted, Apply, Passed, OnePerPage;
    var sub := Submitted(w, 0, |w|);
    var got := Apply(disk, Passed(sub, fails), content);
    SubmittedOnce(w);
    forall key
      ensures if Lost(sub, fails, key) then SameFor(key, got, disk) else SameFor(key, got, image)
    {
      ApplyPassed(disk, sub, content, fails, key);
    }
    if forall e :: !fails(e) {
      PassedAll(sub, fails);
    }
  }

  lemma {:induction false} StretchWalks(v: View, pend: Pending, s: seq<Entry>, b: u32, e: u32, n: nat)
    requires Structure(v, pend) && |s| == LOG_LEN && n <= |v.log| <= LOG_LEN && SortedStretch(s, b, e, v.log, n)
    ensures WellFormed(Window(s, b, e)) && Walkable(Window(s, b, e)) && |Window(s, b, e)| == n
  {
    hide Structure, Ring, InOrder, Reordered, WellFormed, Walkable;
    WellFormedLog(v, pend, n, Window(s, b, e));
    SortedWalkable(Window(s, b, e));
  }

  lemma {:induction false} RestKept(r: seq<Entry>, s: seq<Entry>, b: u32, first: nat, log: seq<Entry>, n: nat)
    requires |s| == LOG_LEN && n <= |log| <= LOG_LEN == |r| && b == Unsigned(first)
    requires r[n..|log|] == log[n..] && SameBut(r, Ring(s, b), 0, n)
    ensures Ring(s, first + n)[..|log| - n] == log[n..]
  {
    hide Unsigned, Ring;
    Slot(first);
    RingSame(s, first, b);
    var a, c := Ring(s, first + n)[..|log| - n], log[n..];
    forall j | 0 <= j < |a|
      ensures a[j] == c[j]
    {
      RingShift(s, first, n, j);
      assert r[n..|log|][j] == r[n + j];
    }
  }

  lemma {:induction false} RingShift(s: seq<Entry>, first: nat, n: nat, j: nat)
    requires |s| == LOG_LEN && n + j < LOG_LEN
    ensures Ring(s, first + n)[j] == Ring(s, first)[n + j]
  {
    assert first + n + j == first + (n + j);
  }

  /** Flushing the reordered stretch is the flush of the view. */
  lemma {:induction false} FlushedView(v: View, pend: Pending, n: nat, w: seq<Entry>)
    requires Ok(v, pend) && n <= v.sealed <= |v.log| && Reordered(v.log[..n], w) && InOrder(w)
    ensures |w| == n && WellFormed(w)
    ensures Flushed(v, n).disk == Apply(v.disk, Submitted(w, 0, n), v.content)
            && Flushed(v, n).rlog == v.rlog - DataPages(w, 0, n)
  {
    hide Ok, InOrder, Replay, Submitted, Apply, Structure, DataPages;
    OkStructure(v, pend);
    var log := v.log[..n];
    WellFormedLog(v, pend, n, w);
    AscendingLog(v, pend, n);
    FlushIsReplay(v.disk, log, w, v.content);
    ReplaySame(v.disk, log, v.content, v.log, v.content, n);
    SamePages(v.log, n, w);
  }

  /** The view once the books are closed on the t transactions taken. */
  ghost function Closed(v: View, n: nat, w: seq<Entry>, ends: seq<nat>, t: nat): View
    requires n <= |v.log| && n <= |w| && t <= |ends|
  {
    View(FirstOf(ends[t..]), SealedOf(ends[t..]), v.log[n..], v.rlog - DataPages(w, 0, n), v.content, v.cache,
         Apply(v.disk, Submitted(w, 0, n), v.content), v.file)
  }

  lemma {:induction false} ClosedIs(v: View, n: nat, w: seq<Entry>, ends: seq<nat>, t: nat)
    requires n <= |v.log| && n <= |w| && t <= |ends|
    ensures Closed(v, n, w, ends, t)
            == View(FirstOf(ends[t..]), SealedOf(ends[t..]), v.log[n..], v.rlog - DataPages(w, 0, n), v.content,
                    v.cache, Apply(v.disk, Submitted(w, 0, n), v.content), v.file)
  {
  }

  lemma {:induction false} ClosedOk(v: View, pend: Pending, n: nat, w: seq<Entry>, ends: seq<nat>, images: seq<Image>,
                                    t: nat)
    requires Ok(v, pend) && n <= |v.log| && Reordered(v.log[..n], w) && InOrder(w) && Imaged(v, ends, images)
    requires 0 < t < |ends| && ends[t] == v.first + n && forall i | t <= i < |ends| :: ends[t] <= ends[i]
    requires ends[0] == v.first && ends[|ends| - 1] == v.first + v.sealed && n <= v.sealed <= |v.log|
    ensures |w| == n && WellFormed(w) && t <= |images|
    ensures var v' := Closed(v, n, w, ends, t);
            Ok(v', pend) && Imaged(v', ends[t..], images[t..]) && v'.disk == images[t - 1] && |v'.log| == |v.log| - n
  {
    hide Ok, InOrder, Submitted, Apply, DataPages, Imaged, Reordered, WellFormed, Upto;
    FlushedView(v, pend, n, w);
    ImagesFlushed(v, pend, n, ends, images, t);
    FlushKeeps(v, pend, n);
    assert Closed(v, n, w, ends, t) == Flushed(v, n);
  }

  /** The chain and the ring once the first t transactions are off the books. */
  lemma {:induction false} ChainFlushed(was: u32, lHead: u32, lEnd: u32, chain: seq<Tran>, begin: nat, ends: seq<nat>,
                                        log: seq<Entry>, t: nat, s: seq<Entry>, s': seq<Entry>, b: u32, e: u32, kl: nat,
                                        lBegin: u32)
    requires Chain(was, lHead, lEnd, chain, begin, ends, |log|) && 0 < t < |ends|
    requires |s| == |s'| == LOG_LEN && |log| <= LOG_LEN && b == Unsigned(ends[0]) && ends[t] == ends[0] + SeqDist(b, e)
    requires SeqDist(b, e) <= |log| && SortedStretch(s, b, e, log, SeqDist(b, e)) && kl <= SeqDist(b, e)
    requires SameBut(Ring(s, b), Ring(s', b), 0, SeqDist(b, e))
    requires lBegin == if kl == 0 then was else Unsigned(b + kl)
    ensures |ends| == |chain| && ends[0] <= ends[|ends| - 1] <= ends[0] + |log|
            && forall i | t <= i < |ends| :: ends[t] <= ends[i]
    ensures Chain(lBegin, lHead, lEnd, chain[t..], if kl == 0 then begin else ends[0] + kl, ends[t..],
                  |log| - SeqDist(b, e))
    ensures Ring(s', ends[t])[..|log| - SeqDist(b, e)] == log[SeqDist(b, e)..]
  {
    hide Unsigned, Ring, SeqDist, Chain, SameBut, SortedStretch, Window;
    ChainFacts(was, lHead, lEnd, chain, begin, ends, |log|);
    var n := TakenLength(was, lHead, lEnd, chain, begin, ends, |log|, t);
    StretchFacts(s, b, e, log, n);
    RestKept(Ring(s, b), s', b, ends[0], log, n);
    UnsignedSum(ends[0], kl);
    ChainTaken(was, lHead, lEnd, chain, begin, ends, |log|, t, lBegin, if kl == 0 then begin else ends[0] + kl);
  }

  /** What the flush of a sorted stretch comes to. */
  lemma {:induction false} StretchFlushed(v: View, pend: Pending, s: seq<Entry>, b: u32, e: u32, n: nat, ends: seq<nat>,
                                          images: seq<Image>, t: nat, kl: nat, begin: nat, fails: Entry -> bool)
    requires Ok(v, pend) && |s| == LOG_LEN && n <= |v.log| <= LOG_LEN && SortedStretch(s, b, e, v.log, n)
    requires Imaged(v, ends, images) && 0 < t < |ends| && ends[t] == v.first + n
    requires (forall i | t <= i < |ends| :: ends[t] <= ends[i])
    requires ends[0] == v.first && ends[|ends| - 1] == v.first + v.sealed && n <= v.sealed <= |v.log|
    requires |Window(s, b, e)| == n && DataEndsAt(Window(s, b, e), kl)
    ensures var w := Window(s, b, e);
            && t <= |images|
            && Closed(v, n, w, ends, t)
               == View(FirstOf(ends[t..]), SealedOf(ends[t..]), v.log[n..], v.rlog - DataPages(w, 0, n), v.content,
                       v.cache, images[t - 1], v.file)
            && Apply(v.disk, Submitted(w, 0, n), v.content) == images[t - 1]
            && Ok(Closed(v, n, w, ends, t), pend) && Imaged(Closed(v, n, w, ends, t), ends[t..], images[t..])
            && BeginAfter(begin, ends[0], Kinds(v.log[..n])) == (if kl == 0 then begin else ends[0] + kl)
            && Lengths(Submitted(w, 0, n)) == Greatest(Kinds(v.log[..n]), Lens(v.log[..n]))
            && UnlessLost(Apply(v.disk, Passed(Submitted(w, 0, n), fails), v.content), v.disk, images[t - 1],
                          Submitted(w, 0, n), fails)
            && ((forall e :: !fails(e)) ==> Passed(Submitted(w, 0, n), fails) == Submitted(w, 0, n))
  {
    hide Ok, InOrder, Submitted, Apply, DataPages, Imaged, Reordered, WellFormed, Closed, Kinds, BeginAfter, Passed,
         UnlessLost, Data, SortedStretch, Window, Lengths, Greatest, Lens;
    var w := Window(s, b, e);
    StretchFacts(s, b, e, v.log, n);
    ClosedOk(v, pend, n, w, ends, images, t);
    ClosedIs(v, n, w, ends, t);
    AllValid(v, pend, n);
    BeginIs(v.log[..n], w, kl, begin, ends[0]);
    Reaches(v.disk, w, v.content, fails, images[t - 1]);
    HandedLengths(v.log[..n], w);
  }

  lemma {:induction false} WellFormedLog(v: View, pend: Pending, n: nat, w: seq<Entry>)
    requires Structure(v, pend) && n <= |v.log| && Reordered(v.log[..n], w)
    ensures WellFormed(w)
  {
    forall k | 0 <= k < |w|
      ensures w[k].Valid() ==> if w[k].Meta() then w[k].pgi == 0 else w[k].Version() >= 1
    {
      assert w[k] in w;
      var j :| 0 <= j < n && v.log[..n][j] == w[k];
      assert EntryOk(v, pend, j);
    }
  }

  lemma {:induction false} AscendingLog(v: View, pend: Pending, n: nat)
    requires Structure(v, pend) && n <= |v.log|
    ensures Ascending(v.log[..n], n)
  {
    hide KeyOf, Data;
    var log := v.log[..n];
    forall i, j | 0 <= i < j < n && Data(log[i]) && Data(log[j]) && KeyOf(log[i]) == KeyOf(log[j])
      ensures log[i].pgi < log[j].pgi
    {
      assert Followed(v, i, j);
    }
  }

  lemma {:induction false} AllValid(v: View, pend: Pending, n: nat)
    requires Ok(v, pend) && n <= |v.log|
    ensures forall k | 0 <= k < n :: v.log[..n][k].Valid()
  {
    forall k | 0 <= k < n
      ensures v.log[..n][k].Valid()
    {
      assert EntryOk(v, pend, k);
    }
  }

  /** A flush of the first t transactions takes their entries off the log and moves l_begin as far as it should. */
  ghost predicate FlushedLog(log: seq<Entry>, log': seq<Entry>, begin: nat, begin': nat, ends: seq<nat>, t: nat,
                             handed: seq<Entry>) {
    && t < |ends| && ends[0] <= ends[t] <= ends[0] + |log|
    && var n := ends[t] - ends[0];
       && log' == log[n..] && begin' == BeginAfter(begin, ends[0], Kinds(log[..n]))
       && Lengths(handed) == Greatest(Kinds(log[..n]), Lens(log[..n]))
  }

  lemma {:induction false} SamePages(log: seq<Entry>, n: nat, w: seq<Entry>)
    requires n <= |log| && Reordered(log[..n], w)
    ensures DataPages(log, 0, n) == DataPages(w, 0, |w|)
  {
    hide Data;
    forall p | p in DataPages(log, 0, n)
      ensures p in DataPages(w, 0, |w|)
    {
      var i :| 0 <= i < n && Data(log[i]) && log[i].page == p;
      assert log[..n][i] in w;
    }
    forall p | p in DataPages(w, 0, |w|)
      ensures p in DataPages(log, 0, n)
    {
      var i :| 0 <= i < |w| && Data(w[i]) && w[i].page == p;
      assert w[i] in log[..n];
    }
  }

  lemma {:induction false} ImagesFlushed(v: View, pend: Pending, n: nat, ends: seq<nat>, images: seq<Image>, t: nat)
    requires Ok(v, pend) && Imaged(v, ends, images) && 0 < t < |ends| && ends[t] == v.first + n && n <= v.sealed
    requires forall i | t <= i < |ends| :: ends[t] <= ends[i]
    ensures t <= |images| && Flushed(v, n).disk == images[t - 1] && Imaged(Flushed(v, n), ends[t..], images[t..])
  {
    hide Ok, Upto;
    var v', ends', images' := Flushed(v, n), ends[t..], images[t..];
    FlushKeeps(v, pend, n);
    assert ImageOk(v, ends[t - 1 + 1], images[t - 1]);
    forall i | 0 <= i < |images'|
      ensures ImageOk(v', ends'[i + 1], images'[i])
    {
      assert ImageOk(v, ends[t + i + 1], images[t + i]);
      assert ends[t] <= ends[t + i + 1];
      assert Upto(v', ends'[i + 1] - v'.first) == Upto(v, n + (ends'[i + 1] - v'.first));
    }
  }

  /** A page is active exactly if its record leads to an entry that is not sealed. */
  lemma {:induction false} ActiveKind(v: View, key: Key)
    requires Ok(v, Idle)
    ensures v.sealed <= |v.log|
    ensures OfPage(key) in Kinds(v.log)[v.sealed..] <==>
              key in v.cache && v.cache[key] in v.rlog && SeqDist(Unsigned(v.first), v.rlog[v.cache[key]]) >= v.sealed
  {
    hide Unsigned, SeqDist, KeyOf, Replay;
    if key in v.cache && v.cache[key] in v.rlog {
      var k: nat := SeqDist(Unsigned(v.first), v.rlog[v.cache[key]]);
      LastEntry(v, key, k);
      if v.sealed <= k {
        assert Kinds(v.log)[v.sealed..][k - v.sealed] == OfPage(key);
      }
    }
    if OfPage(key) in Kinds(v.log)[v.sealed..] {
      var j :| v.sealed <= j < |v.log| && Kinds(v.log)[j] == OfPage(key);
      DataOrMeta(v, Idle, j);
      if !(key in v.cache && v.cache[key] in v.rlog) {
        NoEntry(v, key, j);
      }
    }
  }

  /** The last entry of a page is the one its record leads to. */
  lemma {:induction false} LastPlace(v: View, key: Key)
    requires Ok(v, Idle)
    ensures if key in v.cache && v.cache[key] in v.rlog
            then LastAt(Kinds(v.log), key) == SeqDist(Unsigned(v.first), v.rlog[v.cache[key]]) < |v.log|
            else LastAt(Kinds(v.log), key) == -1
  {
    hide Unsigned, SeqDist, KeyOf, Replay, LastAt;
    var kinds := Kinds(v.log);
    forall j | 0 <= j < |v.log|
      ensures kinds[j] == OfPage(key) <==> Data(v.log[j]) && KeyOf(v.log[j]) == key
    {
      DataOrMeta(v, Idle, j);
    }
    if key in v.cache && v.cache[key] in v.rlog {
      LastEntry(v, key, SeqDist(Unsigned(v.first), v.rlog[v.cache[key]]));
    } else {
      forall j | 0 <= j < |v.log|
        ensures kinds[j] != OfPage(key)
      {
        if Data(v.log[j]) {
          NoEntry(v, key, j);
        }
      }
    }
  }

  lemma {:induction false} LastKey(v: View, key: Key)
    requires Ok(v, Idle)
    ensures LastPgi(Kinds(v.log), Pgis(v.log), key)
            == if key in v.cache && v.cache[key] in v.rlog
               then var k := SeqDist(Unsigned(v.first), v.rlog[v.cache[key]]); if k < |v.log| then v.log[k].pgi else 0
               else key.index * 256
  {
    hide Unsigned, SeqDist, Ok, LastPgi, LastAt, Kinds;
    LastPlace(v, key);
    var k := LastAt(Kinds(v.log), key);
    if k >= 0 {
      LastPgiAt(Kinds(v.log), Pgis(v.log), key, k);
    } else {
      LastPgiNone(Kinds(v.log), Pgis(v.log), key);
    }
  }

  /** The log once the last entry of a page has been turned to a copy, or has got a new length. */
  ghost function TurnedTo(log: seq<Entry>, key: Key, cpage: nat): seq<Entry> {
    var k := LastAt(Kinds(log), key); if k < 0 then log else log[k := log[k].(page := cpage).SetCow()]
  }

  ghost function Relengthed(log: seq<Entry>, key: Key, l: nat): seq<Entry> {
    var k := LastAt(Kinds(log), key); if k < 0 then log else log[k := log[k].SetLength(l)]
  }

  /** Turning an entry changes nothing that entries are known by. */
  lemma {:induction false} TurnedKind(log: seq<Entry>, key: Key, cpage: nat)
    ensures var log' := TurnedTo(log, key, cpage);
            Kinds(log') == Kinds(log) && Pgis(log') == Pgis(log) && Lens(log') == Lens(log)
  {
    hide Kinds, Pgis, Lens, LastAt;
    var k := LastAt(Kinds(log), key);
    if k >= 0 {
      var e := log[k].(page := cpage).SetCow();
      CowKeeps(log[k], cpage);
      KindsKept(log, k, e);
      PgisKept(log, k, e);
      LensSet(log, k, e);
      SameLength(log, k, e);
    }
  }

  /** A write to an active page: the page's entry, which is not sealed, has the write's length. */
  ghost predicate InPlace(log: seq<Entry>, log': seq<Entry>, ends: seq<nat>, key: Key, l: nat) {
    var k := LastAt(Kinds(log), key);
    && SealedOf(ends) <= k < |log| && k >= 0 && log' == log[k := log[k].SetLength(l)]
    && Kinds(log') == Kinds(log) && Pgis(log') == Pgis(log) && Lens(log') == Lens(log)[k := l]
  }

  lemma {:induction false} SameLength(log: seq<Entry>, k: nat, e: Entry)
    requires k < |log| && e.Length() == log[k].Length()
    ensures Lens(log)[k := e.Length()] == Lens(log)
  {
  }

  /** A new length changes that length only. */
  lemma {:induction false} ResizedKind(log: seq<Entry>, key: Key, l: nat)
    requires LastAt(Kinds(log), key) >= 0 && l < 0x1_0000
    ensures var log', k := Relengthed(log, key, l), LastAt(Kinds(log), key);
            Kinds(log') == Kinds(log) && Pgis(log') == Pgis(log) && Lens(log') == Lens(log)[k := l]
  {
    hide Kinds, Pgis, Lens, LastAt;
    var k := LastAt(Kinds(log), key);
    LengthKeeps(log[k], l);
    LengthFits(log[k], l);
    KindsKept(log, k, log[k].SetLength(l));
    PgisKept(log, k, log[k].SetLength(l));
    LensSet(log, k, log[k].SetLength(l));
  }

  lemma {:induction false} FoundPage(v: View, key: Key, p: nat, pend: Pending)
    requires Found(v, key, p, pend)
    ensures key in v.cache && v.cache[key] == p && p in v.rlog && p in v.content
            && v.content[p] == ImagePage(v.file, key)
    ensures pend.Writing? ==> pend.key == key && pend.page == p
  {
  }

  lemma {:induction false} OkBounds(v: View, pend: Pending)
    requires Ok(v, pend)
    ensures v.sealed <= |v.log| <= LOG_LEN
  {
  }

  class Log {
    const entries: array<Entry>
    const sorter: Sorter
    var lBegin: u32
    var lHead: u32
    var lEnd: u32
    var trans: seq<Tran>
    /** page_rlog */
    var rlog: map<nat, u32>
    var content: map<nat, Page>
    var nextPage: nat
    /** The page cache: file page to page. */
    var cache: map<Key, nat>
    var disk: Image
    /** The entry a writer is trying to append. */
    var waiting: Option<Entry>

    ghost var begin: nat
    ghost var ends: seq<nat>
    ghost var log: seq<Entry>
    ghost var file: Image
    /** The files as they were at each seal not flushed yet. */
    ghost var images: seq<Image>

    /** The circular buffer and its counters. */
    ghost predicate Shape()
      reads this, entries
    {
      && Chain(lBegin, lHead, lEnd, trans, begin, ends, |log|)
      && entries.Length == LOG_LEN && Ring(entries[..], ends[0])[..|log|] == log
    }

    ghost function Now(): View
      reads this
    {
      View(FirstOf(ends), SealedOf(ends), log, rlog, content, cache, disk, file)
    }

    /** What the entries not sealed yet are about. */
    ghost function ActiveKinds(): seq<Kind>
      reads this
    {
      if SealedOf(ends) <= |log| then Kinds(log)[SealedOf(ends)..] else []
    }

    /** The write under way, if its entry is still to be appended. */
    ghost function Pend(): Pending
      reads this
    {
      if waiting.Some? then Writing(KeyOf(waiting.value), waiting.value.page, waiting.value.pgi) else Idle
    }

    ghost predicate ValidWith(pend: Pending)
      reads this, entries, sorter
    {
      && Shape() && Ok(Now(), pend) && Imaged(Now(), ends, images) && sorter.stack == []
      && Below(content, nextPage)
    }

    ghost predicate Valid()
      reads this, entries, sorter
    {
      && ValidWith(Pend())
      && (waiting.Some? ==> waiting.value.Valid() && !waiting.value.Meta() && waiting.value.Version() >= 1)
    }

    constructor (onDisk: Image)
      ensures Valid() && disk == file == onDisk && images == [] && waiting.None? && log == [] && ends == [0]
              && begin == 0
      ensures fresh(entries) && fresh(sorter)
    {
      entries := new Entry[LOG_LEN](_ => Entry(0, 0, 0, 0));
      sorter := new Sorter();
      lBegin, lHead, lEnd, trans := 0, 0, 0, [Tran(0, 0)];
      rlog, content, nextPage, cache, disk, waiting := map[], map[], 0, map[], onDisk, None;
      begin, ends, log, file, images := 0, [0], [], onDisk, [];
    }

    /** log_append: only a slot that is not taken is written. */
    method Append(e: Entry) returns (ret: int, ei: u32)
      requires Shape()
      modifies entries, `lEnd, `log
      ensures Shape()
      ensures ret == 0 || ret == EAGAIN
      ensures ret == EAGAIN <==> old(ends[0] + |log|) == begin + LOG_LEN
      ensures ret == 0 ==> log == old(log) + [e] && ei == Unsigned(old(ends[0] + |log|))
      ensures ret == EAGAIN ==> log == old(log) && lEnd == old(lEnd) && ei == L_NULL
      ensures entries.Length == LOG_LEN && SlotsKept(old(entries[..]), entries[..], begin, old(ends[0] + |log|))
    {
      hide Unsigned, SeqDist, Ring;
      ghost var n := |log|;
      SeqOrder(begin, ends[0] + n);
      if SeqDist(lBegin, lEnd) < LOG_LEN {
        ghost var s := entries[..];
        Slot(ends[0] + n);
        entries[lEnd % 32768] := e;
        assert entries[..] == s[(ends[0] + n) % 32768 := e];
        RingUpdate(s, ends[0], n, e);
        OtherSlots(s, begin, ends[0] + n, e);
        ret, ei := 0, lEnd;
        NextIndex(ends[0] + n);
        lEnd := Unsigned(lEnd as int + 1);
        log := log + [e];
        Extended(Ring(s, ends[0]), old(log), e);
      } else {
        ret, ei := EAGAIN, L_NULL;
      }
    }

    /** log_seal: the active entries become a transaction; what they amount to is the image to be kept. */
    method Seal() returns (ret: int)
      requires Valid()
      modifies `lHead, `trans, `ends, `images
      ensures Valid()
      ensures ret == if old(ends[|ends| - 1]) == ends[0] + |log| then ENODATA else 0
      ensures ret == 0 ==> images == old(images) + [file] && ends == old(ends) + [ends[0] + |log|]
      ensures ret == ENODATA ==> unchanged(this)
    {
      hide Unsigned, Ok, Ring, Chain, Imaged, SealedKept;
      ChainFacts(lBegin, lHead, lEnd, trans, begin, ends, |log|);
      ChainSealed(lBegin, lHead, lEnd, trans, begin, ends, |log|);
      if lHead == lEnd {
        return ENODATA;
      }
      SealStep(Now(), Pend());
      ImageAdded(Now(), Pend(), ends, images);
      trans, lHead := trans[..|trans| - 1] + [Tran(lHead, lEnd), Tran(0, 0)], lEnd;
      ends, images := ends + [ends[0] + |log|], images + [file];
      ret := 0;
    }

    /** The 8 bits of the version have room for one more, if the write is going to need one. */
    predicate Room(key: Key)
      requires entries.Length == LOG_LEN
      reads this, entries
    {
      key in cache && cache[key] in rlog && SeqLess(rlog[cache[key]], lHead) ==>
          entries[rlog[cache[key]] % 32768].Version() < 255
    }

    lemma {:induction false} EntryWith(k: nat)
      requires Shape() && k < |log|
      ensures entries[Unsigned(ends[0] + k) % 32768] == log[k]
    {
      hide Ring, Unsigned;
      Slot(ends[0] + k);
      RingHas(entries[..], ends[0], log, k);
    }

    /** Exactly when there is room: the page is active, or the last version of it in the log, if any, is not 255. */
    lemma {:induction false} RoomExactly(key: Key)
      requires Valid() && waiting.None?
      ensures entries.Length == LOG_LEN
      ensures Room(key) <==> OfPage(key) in ActiveKinds() || (LastPgi(Kinds(log), Pgis(log), key) + 1) % 256 != 0
    {
      hide Unsigned, Ok, Ring, Chain, Imaged, SeqDist, SeqLess, Below, Kinds, Pgis, LastPgi;
      ChainFacts(lBegin, lHead, lEnd, trans, begin, ends, |log|);
      ActiveKind(Now(), key);
      LastKey(Now(), key);
      if key in cache && cache[key] in rlog {
        var k: nat := SeqDist(Unsigned(ends[0]), rlog[cache[key]]);
        SealedOrActive(Now(), key, k);
        EntryWith(k);
      }
    }

    /** The page cache's lookup and adafs_try_assoc_rlog: a page not in the log gets an empty record, a sealed one
        is copied and its entry turned to the copy, an active one is left alone. */
    method Assoc(key: Key) returns (p: nat, ghost pend: Pending)
      requires Valid() && waiting.None?
      modifies `rlog, `content, `nextPage, `cache, `log, entries
      ensures ValidWith(pend) && Found(Now(), key, p, pend)
      ensures pend.Idle? <==> OfPage(key) in old(ActiveKinds())
      ensures log == if pend.Idle? then old(log) else TurnedTo(old(log), key, old(nextPage))
      ensures pend.Writing? ==> pend.pgi == LastPgi(old(Kinds(log)), old(Pgis(log)), key) + 1
      ensures pend.Writing? && old(Room(key)) ==> pend.pgi % 256 != 0
    {
      hide Unsigned, Ok, Ring, Chain, Imaged, SeqDist, SeqLess, ImagePage, Below, Found, Kinds, Pgis, LastPgi, LastAt;
      ChainFacts(lBegin, lHead, lEnd, trans, begin, ends, |log|);
      CachedPage(Now(), key);
      ActiveKind(Now(), key);
      LastKey(Now(), key);
      LastPlace(Now(), key);
      if key in cache {
        p := cache[key];
      } else {
        p := nextPage;
      }
      NextFresh(Now(), nextPage);
      if p !in rlog {
        pend := NewRecord(key, p);
      } else {
        ghost var k: nat := SeqDist(Unsigned(ends[0]), rlog[p]);
        SealedOrActive(Now(), key, k);
        if SeqLess(rlog[p], lHead) {
          EntryWith(k);
          pend := CopyOnWrite(key, p, k);
        } else {
          pend := Idle;
        }
      }
    }

    method NewRecord(key: Key, p: nat) returns (ghost pend: Pending)
      requires Valid() && waiting.None? && p !in rlog && p == if key in cache then cache[key] else nextPage
      modifies `rlog, `content, `nextPage, `cache
      ensures ValidWith(pend) && Found(Now(), key, p, pend) && pend == Writing(key, p, key.index * 256 + 1)
    {
      hide Unsigned, Ok, Ring, Chain, Imaged, SeqDist, ImagePage, Below, Found;
      ChainFacts(lBegin, lHead, lEnd, trans, begin, ends, |log|);
      CachedPage(Now(), key);
      var page := if key in cache then content[p] else ImagePage(disk, key);
      pend := Writing(key, p, key.index * 256 + 1);
      BelowMore(content, nextPage, p, page);
      Recorded(Now(), key, p, page, ends, images);
      nextPage := if key in cache then nextPage else nextPage + 1;
      cache, content, rlog := cache[key := p], content[p := page], rlog[p := L_NULL];
    }

    method CopyOnWrite(key: Key, p: nat, ghost k: nat) returns (ghost pend: Pending)
      requires Valid() && waiting.None? && key in cache && p == cache[key] && p in rlog
      requires k == SeqDist(Unsigned(ends[0]), rlog[p]) < ends[|ends| - 1] - ends[0]
      modifies `rlog, `content, `nextPage, `log, entries
      ensures k < old(|log|) && log == old(log)[k := old(log[k]).(page := old(nextPage)).SetCow()]
      ensures ValidWith(pend) && Found(Now(), key, p, pend) && pend == Writing(key, p, old(log[k]).pgi + 1)
    {
      hide Unsigned, Ok, Ring, Chain, Imaged, SeqDist, ImagePage, Below, Found, Entry.SetCow, Kinds, Pgis;
      ChainFacts(lBegin, lHead, lEnd, trans, begin, ends, |log|);
      CachedPage(Now(), key);
      var cpage := nextPage;
      BelowMore(content, nextPage, cpage, content[p]);
      Turned(Now(), key, k, cpage, ends, images);
      pend := Writing(key, p, log[k].pgi + 1);
      TurnEntry(rlog[p], cpage, k);
      nextPage := nextPage + 1;
      content, rlog := content[cpage := content[p]], rlog[cpage := rlog[p]];
    }

    /** A write of `data` at `offset` into one page: adafs_try_assoc_rlog, the copy, and adafs_try_append_log up to
        its loop.  An active page is written in place and the write is done; otherwise its entry is ready to be
        appended, and until that happens the files are as they were. */
    method StartWrite(ino: u64, index: u64, offset: nat, data: seq<int>) returns (done: bool)
      requires Valid() && waiting.None? && Room(Key(ino, index))
      requires ino != INVAL_INO && index < 0x100_0000_0000_0000 && offset + |data| <= 4096
      modifies `rlog, `content, `nextPage, `cache, `log, `file, `waiting, entries
      ensures Valid() && Kinds(log) == old(Kinds(log)) && (done <==> OfPage(Key(ino, index)) in old(ActiveKinds()))
      ensures Pgis(log) == old(Pgis(log))
      ensures var key, k := Key(ino, index), LastAt(old(Kinds(log)), Key(ino, index));
              && (done ==> 0 <= k < |old(log)| && SealedOf(ends) <= k)
              && log == (if done then old(log)[k := old(log)[k].SetLength(offset + |data|)]
                         else TurnedTo(old(log), key, old(nextPage)))
              && Lens(log) == if done then old(Lens(log))[k := offset + |data|] else old(Lens(log))
      ensures var key, page := Key(ino, index), Patched(ImagePage(old(file), Key(ino, index)), offset, data);
              && (done ==> waiting.None? && file == old(file)[key := page])
              && (!done ==>
                    && waiting.Some? && file == old(file) && KeyOf(waiting.value) == key
                    && waiting.value.Length() == offset + |data|
                    && waiting.value.pgi == LastPgi(Kinds(log), Pgis(log), key) + 1
                    && waiting.value.page in content && content[waiting.value.page] == page)
    {
      hide Ok, Chain, Imaged, ImagePage, Patched, Shape, Below, Room, Kinds, Pgis, LastPgi, Lens, LastAt, TurnedTo;
      var key := Key(ino, index);
      TurnedKind(log, key, nextPage);
      var p;
      ghost var pend;
      p, pend := Assoc(key);
      FoundPage(Now(), key, p, pend);
      done := Store(key, p, offset + |data|, Patched(content[p], offset, data), pend);
    }

    /** The copy, and adafs_try_append_log up to its loop. */
    method Store(key: Key, p: nat, l: nat, page: Page, ghost pend: Pending) returns (done: bool)
      requires ValidWith(pend) && waiting.None? && Found(Now(), key, p, pend)
      requires key.ino != INVAL_INO && key.index < 0x100_0000_0000_0000 && l <= 4096
      requires pend.Writing? ==> pend.pgi % 256 != 0
      modifies `content, `log, `file, `waiting, entries
      ensures Valid() && (done <==> pend.Idle?)
      ensures done ==> waiting.None? && file == old(file)[key := page] && InPlace(old(log), log, ends, key, l)
      ensures !done ==>
                && log == old(log)
                && waiting.Some? && file == old(file) && KeyOf(waiting.value) == key && waiting.value.Length() == l
                && waiting.value.pgi == pend.pgi && waiting.value.page in content && content[waiting.value.page] == page
    {
      hide Unsigned, Ok, Ring, Chain, Imaged, SeqDist, SeqNotGreater, ImagePage, Below, Found, KeyOf, Kinds, Pgis;
      ChainFacts(lBegin, lHead, lEnd, trans, begin, ends, |log|);
      FoundPage(Now(), key, p, pend);
      OkBounds(Now(), pend);
      ActiveTest(Now(), key, p, pend);
      if rlog[p] != L_NULL && SeqNotGreater(lHead, rlog[p]) {
        StoreInPlace(key, p, l, page);
        done := true;
      } else {
        StoreForLater(key, p, l, page, pend);
        done := false;
      }
    }

    /** An active page: the entry gets its new length, and the files have the write. */
    method StoreInPlace(key: Key, p: nat, l: nat, page: Page)
      requires ValidWith(Idle) && waiting.None? && Found(Now(), key, p, Idle) && l <= 4096
      modifies `content, `log, `file, entries
      ensures Valid() && file == old(file)[key := page] && InPlace(old(log), log, ends, key, l)
    {
      hide Unsigned, Ok, Ring, Chain, Imaged, SeqDist, ImagePage, Below, Found, KeyOf, Kinds, Pgis, Lens, LastAt;
      ChainFacts(lBegin, lHead, lEnd, trans, begin, ends, |log|);
      ghost var v := Now();
      FoundPage(v, key, p, Idle);
      BelowMore(content, nextPage, p, page);
      ghost var k: nat := SeqDist(Unsigned(ends[0]), rlog[p]);
      Rewriting(v, key, k, l, page, ends, images);
      LastPlace(v, key);
      ResizedKind(log, key, l);
      content := content[p := page];
      Resize(rlog[p], l, k);
      file := file[key := page];
    }

    /** Any other page: the entry is built, and waits. */
    method StoreForLater(key: Key, p: nat, l: nat, page: Page, ghost pend: Pending)
      requires ValidWith(pend) && waiting.None? && Found(Now(), key, p, pend) && pend.Writing? && pend.pgi % 256 != 0
      requires key.ino != INVAL_INO && key.index < 0x100_0000_0000_0000 && l <= 4096
      modifies `content, `waiting
      ensures Valid() && waiting.Some? && KeyOf(waiting.value) == key && waiting.value.Length() == l
      ensures waiting.value.pgi == pend.pgi && waiting.value.page in content && content[waiting.value.page] == page
    {
      hide Unsigned, Ok, Ring, Chain, Imaged, SeqDist, ImagePage, Below, Found, KeyOf, Entry.Meta, Entry.Version,
           Entry.Length;
      ghost var v := Now();
      FoundPage(v, key, p, pend);
      BelowMore(content, nextPage, p, page);
      Copying(v, key, p, pend, page, ends, images);
      content := content[p := page];
      var le := NewEntry(key, p, l, pend);
      waiting := Some(le);
    }

    /** One round of adafs_try_append_log's loop: append the waiting entry, or seal so that the flusher can make
        room. */
    method TryAppend() returns (ret: int, sealed: bool)
      requires Valid() && waiting.Some? && lEnd != L_NULL
      modifies `rlog, `log, `file, `waiting, `lEnd, `lHead, `trans, `ends, `images, entries
      ensures Valid() && (ret == 0 || ret == EAGAIN)
      ensures ret == EAGAIN <==> old(ends[0] + |log|) == begin + LOG_LEN
      ensures var e := old(waiting.value);
              && (ret == 0 ==>
                    && waiting.None? && e.page in content && file == old(file)[KeyOf(e) := content[e.page]]
                    && log == old(log) + [e]
                    && images == old(images) && ends == old(ends))
              && (ret == EAGAIN ==>
                    && waiting == old(waiting) && file == old(file) && log == old(log)
                    && (sealed <==> old(ends[|ends| - 1]) < old(ends[0]) + |log|)
                    && images == (if sealed then old(images) + [file] else old(images))
                    && ends == if sealed then old(ends) + [old(ends[0]) + |log|] else old(ends))
    {
      hide Unsigned, Ok, Ring, Chain, Imaged, Below, KeyOf, Entry.Valid, Entry.Meta, Entry.Version;
      ChainFacts(lBegin, lHead, lEnd, trans, begin, ends, |log|);
      ret := AppendWaiting();
      sealed := false;
      if ret == EAGAIN {
        var err := Seal();
        sealed := err == 0;
      }
    }

    method AppendWaiting() returns (ret: int)
      requires Valid() && waiting.Some? && lEnd != L_NULL
      modifies `rlog, `log, `file, `waiting, `lEnd, entries
      ensures Valid() && (ret == 0 || ret == EAGAIN)
      ensures ret == EAGAIN <==> old(ends[0] + |log|) == begin + LOG_LEN
      ensures var e := old(waiting.value);
              && (ret == 0 ==>
                    && waiting.None? && e.page in content && file == old(file)[KeyOf(e) := content[e.page]]
                    && log == old(log) + [e])
              && (ret == EAGAIN ==> waiting == old(waiting) && file == old(file) && log == old(log))
    {
      hide Unsigned, Ok, Ring, Chain, Imaged, Below, KeyOf, PageOf, SlotsKept, Entry.Valid, Entry.Meta, Entry.Version;
      ChainFacts(lBegin, lHead, lEnd, trans, begin, ends, |log|);
      ghost var v, pend := Now(), Pend();
      var le := waiting.value;
      var ei;
      ret, ei := Append(le);
      if ret == 0 {
        Entering(v, pend, le, ends, images);
        rlog, file, waiting := rlog[le.page := ei], file[KeyOf(le) := content[le.page]], None;
        assert Now() == Appended(v, pend.key, le);
      }
    }

    /** One round of adafs_new_inode_hook's loop: append the entry that says an inode was made, or seal. */
    method TryCreate(ino: u64) returns (ret: int, sealed: bool)
      requires Valid() && ino != INVAL_INO
      modifies `log, `lEnd, `lHead, `trans, `ends, `images, entries
      ensures Valid() && (ret == 0 || ret == EAGAIN)
      ensures ret == EAGAIN <==> old(ends[0] + |log|) == begin + LOG_LEN
      ensures ret == 0 ==> log == old(log) + [Entry(ino, 0, 0x1_0000, 0)] && images == old(images) && ends == old(ends)
      ensures ret == EAGAIN ==>
                && log == old(log) && (sealed <==> old(ends[|ends| - 1]) < old(ends[0]) + |log|)
                && images == (if sealed then old(images) + [file] else old(images))
                && ends == if sealed then old(ends) + [old(ends[0]) + |log|] else old(ends)
    {
      hide Unsigned, Ok, Ring, Chain, Imaged, Below, KeyOf;
      ChainFacts(lBegin, lHead, lEnd, trans, begin, ends, |log|);
      ret := AppendInode(ino);
      sealed := false;
      if ret == EAGAIN {
        var err := Seal();
        sealed := err == 0;
      }
    }

    method AppendInode(ino: u64) returns (ret: int)
      requires Valid() && ino != INVAL_INO
      modifies `log, `lEnd, entries
      ensures Valid() && (ret == 0 || ret == EAGAIN)
      ensures ret == EAGAIN <==> old(ends[0] + |log|) == begin + LOG_LEN
      ensures log == if ret == 0 then old(log) + [Entry(ino, 0, 0x1_0000, 0)] else old(log)
    {
      hide Unsigned, Ok, Ring, Chain, Imaged, Below, KeyOf, SlotsKept;
      ChainFacts(lBegin, lHead, lEnd, trans, begin, ends, |log|);
      ghost var v, pend := Now(), Pend();
      var ei;
      var e := Entry(ino, 0, 0x1_0000, 0);
      ret, ei := Append(e);
      if ret == 0 {
        Creating(v, pend, e, ends, images);
      }
    }

    /** The page cache may drop a page the log does not hold on to. */
    method Reclaim(key: Key) returns (ok: bool)
      requires Valid()
      modifies `cache
      ensures Valid() && (ok <==> key in old(cache) && old(cache)[key] !in rlog)
      ensures cache == if ok then old(cache) - {key} else old(cache)
    {
      hide Unsigned, Ok, Ring, Chain, Imaged, Below, SealedKept;
      ok := key in cache && cache[key] !in rlog;
      if ok {
        ghost var v, pend := Now(), Pend();
        OkBounds(v, pend);
        ReclaimStep(v, pend, key);
        ImagesKept(v, v.(cache := v.cache - {key}), ends, images);
        cache := cache - {key};
      }
    }

    /** How many transactions log_flush(nr) takes. */
    function Taken(nr: nat): nat
      requires |trans| > 0
      reads this
    {
      if nr < |trans| then nr else |trans| - 1
    }

    /** log_flush's loop: take up to nr sealed transactions off the list.  Each starts where the one before it
        ended. */
    method TakeTrans(nr: u32) returns (b: u32, e: u32, ghost t: nat)
      requires Shape()
      modifies `trans
      ensures t == old(Taken(nr)) < |ends| && trans == old(trans)[t..]
      ensures t == 0 <==> b == e
      ensures t > 0 ==> b == Unsigned(ends[0]) && e == Unsigned(ends[t])
    {
      hide Unsigned, Ring;
      var left := nr;
      var tran := trans[0];
      b, e, t := tran.begin, tran.begin, 0;
      while left > 0
        invariant t + left == nr && t < |ends| == |old(trans)| && trans == old(trans)[t..] && tran == trans[0]
        invariant b == old(trans)[0].begin && e == if t == 0 then b else Unsigned(ends[t])
      {
        OpenOnlyLast(old(trans), ends, t);
        if tran.IsOpen() {
          break;
        }
        assert Link(old(trans), ends, t) && (t > 0 ==> Link(old(trans), ends, t - 1));
        assert tran.begin == e;  // the BUG_ON
        e, trans, left, t := tran.end, trans[1..], left - 1, t + 1;
        tran := trans[0];
      }
      EndsAscend(old(trans), ends, 0, t);
      EndsAscend(old(trans), ends, t, |ends| - 1);
      if t > 0 {
        assert Link(old(trans), ends, 0);
        SealedNotOpen(ends[0], ends[t]);
      }
    }

    /** What log_flush can rely on: positions that keep their order as ints, and keys that le_cmp tells apart. */
    predicate Sortable(t: nat)
      requires t < |trans| && entries.Length == LOG_LEN
      reads this, entries
    {
      t > 0 ==>
        && Clear(trans[0].begin, trans[t - 1].end)
        && Comparable(entries, trans[0].begin, SeqDist(trans[0].begin, trans[t - 1].end))
    }

    /** The sort of the entries of the first t transactions does not overflow its stack. */
    predicate GetsThrough(t: nat)
      requires t < |trans| && entries.Length == LOG_LEN
      reads this, entries
    {
      t > 0 ==> SortRun(entries[..], [Target(trans[0].begin, trans[t - 1].end)]).ret == 0
    }

    /** That is so for up to 35 entries, whatever they are. */
    lemma {:induction false} FewGetThrough(t: nat)
      requires Shape() && t < |trans| && ends[t] <= ends[0] + 35
      ensures GetsThrough(t)
    {
      hide Ring, Chain, Unsigned, SeqDist, SortRun, Target;
      ChainFacts(lBegin, lHead, lEnd, trans, begin, ends, |log|);
      if t > 0 {
        var n := TakenLength(lBegin, lHead, lEnd, trans, begin, ends, |log|, t);
        TakenEnds(lBegin, lHead, lEnd, trans, begin, ends, |log|, t);
        FromEmpty(entries[..], trans[0].begin, trans[t - 1].end);
      }
    }

    /** Exactly when the sort can be relied on, as far as the keys go: they agree two by two. */
    lemma {:induction false} SortableExactly(t: nat)
      requires Shape() && 0 < t < |trans|
      ensures 0 <= ends[t] - ends[0] <= |log|
      ensures Sortable(t) <==>
                && Clear(Unsigned(ends[0]), Unsigned(ends[t]))
                && KeysAgree(Kinds(log), Pgis(log), ends[t] - ends[0])
    {
      hide Agrees, Ring, Chain, Unsigned, Clear, SeqDist, Kinds, Pgis, Near;
      ChainFacts(lBegin, lHead, lEnd, trans, begin, ends, |log|);
      var n := TakenLength(lBegin, lHead, lEnd, trans, begin, ends, |log|, t);
      TakenEnds(lBegin, lHead, lEnd, trans, begin, ends, |log|, t);
      var b, kinds, pgis := trans[0].begin, Kinds(log), Pgis(log);
      forall i, j | 0 <= i < n && 0 <= j < n
        ensures Agrees(SlotAt(entries, b, i), SlotAt(entries, b, j))
                <==> Near(kinds[i].Ino(), pgis[i], kinds[j].Ino(), pgis[j])
      {
        RingFrom(entries[..], ends[0], b, log, i);
        RingFrom(entries[..], ends[0], b, log, j);
        NearExactly(log, i, j);
      }
    }

    /** The entries of the first t transactions as the sort leaves them. */
    ghost function LeftBySort(t: nat): seq<Entry>
      requires 0 < t < |trans| && entries.Length == LOG_LEN
      reads this, entries
    {
      var b, e := trans[0].begin, trans[t - 1].end;
      Window(SortRun(entries[..], [Target(b, e)]).entries, b, e)
    }

    /** The merge can walk what the sort leaves. */
    ghost predicate CanWalk(t: nat)
      requires t < |trans| && entries.Length == LOG_LEN
      reads this, entries
    {
      t > 0 ==> Walkable(LeftBySort(t))
    }

    /** If the sort can be relied on and gets through, it leaves the entries taken, in order, and the others alone. */
    lemma {:induction false} SortedTaken(t: nat)
      requires Valid() && 0 < t < |trans| && Sortable(t) && GetsThrough(t)
      ensures CanWalk(t) && ends[0] <= ends[t] <= ends[0] + |log| <= ends[0] + LOG_LEN
      ensures var b, e := trans[0].begin, trans[t - 1].end;
              SortedStretch(SortRun(entries[..], [Target(b, e)]).entries, b, e, log, ends[t] - ends[0])
    {
      hide Ok, Ring, Chain, Unsigned, SeqDist, SortRun, Target, Clear, Comparable, Imaged, Below, Walkable,
           Trusted, SortedStretch, Window;
      ChainFacts(lBegin, lHead, lEnd, trans, begin, ends, |log|);
      var n := TakenLength(lBegin, lHead, lEnd, trans, begin, ends, |log|, t);
      TakenEnds(lBegin, lHead, lEnd, trans, begin, ends, |log|, t);
      ComparableTrusted(entries, trans[0].begin, n);
      SortsStretch(entries[..], trans[0].begin, trans[t - 1].end, ends[0], log, n);
      OkStructure(Now(), Pend());
      StretchWalks(Now(), Pend(), SortRun(entries[..], [Target(trans[0].begin, trans[t - 1].end)]).entries,
                   trans[0].begin, trans[t - 1].end, n);
    }

    /** log_flush, whatever the sort comes to: the merge submits what the stretch it finds calls for, and what does not
        fail reaches the disk.  If the sort can be relied on and got through, that is the files as they were when the
        last of the transactions taken was sealed, but for the pages that failed, which stay as they were on the disk;
        every later seal still stands for the image it stood for. */
    method Flush(nr: u32, fails: Entry -> bool) returns (ret: int, sorted: bool, handed: seq<Entry>)
      requires Valid() && CanWalk(Taken(nr))
      modifies this, entries, sorter
      ensures ret == ENODATA <==> old(Taken(nr)) == 0
      ensures old(Taken(nr)) == 0 ==> sorted && handed == [] && unchanged(this) && Valid()
      ensures sorted <==> old(GetsThrough(Taken(nr)))
      ensures file == old(file) && waiting == old(waiting) && cache == old(cache) && content == old(content)
      ensures old(Taken(nr)) > 0 ==>
                var w := old(LeftBySort(Taken(nr)));
                && handed == Submitted(w, 0, |w|)
                && disk == Apply(old(disk), Passed(handed, fails), content)
                && rlog == old(rlog) - DataPages(w, 0, |w|)
      ensures old(Taken(nr)) > 0 && sorted && old(Sortable(Taken(nr))) ==>
                var t := old(Taken(nr));
                && t <= |old(images)| && images == old(images)[t..] && ends == old(ends)[t..]
                && FlushedLog(old(log), log, old(begin), begin, old(ends), t, handed)
                && UnlessLost(disk, old(disk), old(images)[t - 1], handed, fails)
                && ((forall e :: !fails(e)) ==> Valid() && disk == old(images)[t - 1])
    {
      hide Unsigned, Ok, Ring, Imaged, Below, SeqDist, Clear, Comparable, Chain, SortRun, Target, FlushedLog, Walkable,
           Apply, Passed, Submitted, DataPages, Lost, SameFor, Link, SortedStretch, Window;
      ghost var good := Taken(nr) > 0 && GetsThrough(Taken(nr)) && Sortable(Taken(nr));
      if good {
        SortedTaken(Taken(nr));
      }
      ghost var chain := trans;
      ChainFacts(lBegin, lHead, lEnd, trans, begin, ends, |log|);
      ghost var t;
      var b, e;
      b, e, t := TakeTrans(nr);
      if b == e {
        return ENODATA, true, [];
      }
      TakenEnds(lBegin, lHead, lEnd, chain, begin, ends, |log|, t);
      sorted, handed := FlushRange(b, e, fails, good, t, chain);
      ret := 0;
    }

    /** The sort and the merge of the t transactions taken. */
    method FlushRange(b: u32, e: u32, fails: Entry -> bool, ghost good: bool, ghost t: nat, ghost chain: seq<Tran>)
      returns (sorted: bool, handed: seq<Entry>)
      requires Chain(lBegin, lHead, lEnd, chain, begin, ends, |log|) && 0 < t < |ends| && trans == chain[t..]
      requires Ok(Now(), Pend()) && Imaged(Now(), ends, images) && sorter.stack == [] && Below(content, nextPage)
      requires waiting.Some? ==> waiting.value.Valid() && !waiting.value.Meta() && waiting.value.Version() >= 1
      requires entries.Length == LOG_LEN && |log| <= LOG_LEN && b == Unsigned(ends[0]) && e == Unsigned(ends[t])
      requires var s := SortRun(entries[..], [Target(b, e)]).entries;
               && Walkable(Window(s, b, e))
               && (good ==> 0 <= ends[t] - ends[0] <= |log| && SortedStretch(s, b, e, log, ends[t] - ends[0]))
      modifies `disk, `rlog, `lBegin, `begin, `ends, `log, `images, entries, sorter
      ensures sorted <==> old(SortRun(entries[..], [Target(b, e)]).ret == 0)
      ensures var w := old(Window(SortRun(entries[..], [Target(b, e)]).entries, b, e));
              && handed == Submitted(w, 0, |w|)
              && disk == Apply(old(disk), Passed(handed, fails), content)
              && rlog == old(rlog) - DataPages(w, 0, |w|)
              && (good && sorted ==>
                    && t <= |old(images)| && images == old(images)[t..] && ends == old(ends)[t..]
                    && FlushedLog(old(log), log, old(begin), begin, old(ends), t, handed)
                    && UnlessLost(disk, old(disk), old(images)[t - 1], handed, fails)
                    && ((forall e :: !fails(e)) ==> Valid() && disk == old(images)[t - 1]))
    {
      hide Unsigned, Ok, Ring, Imaged, Below, SeqDist, Chain, SortRun, Target, FlushedLog, Walkable, Apply, Passed,
           Submitted, DataPages, UnlessLost, SortedStretch, Window, SameBut, DataEndsAt;
      ghost var v, was := Now(), lBegin;
      ghost var n := TakenLength(lBegin, lHead, lEnd, chain, begin, ends, |log|, t);
      assert [] + [Target(b, e)] == [Target(b, e)];
      var err := sorter.LogSort(entries, b, e);
      sorted := err == 0;
      ghost var s := entries[..];
      WindowIs(s, b, e);
      ghost var kl;
      handed, kl := MergeOut(b, e, fails, Window(s, b, e));
      if good && sorted {
        Settle(v, was, b, e, n, t, chain, s, kl, fails);
      }
    }

    /** The merge, and what it does to disk, reverse log and l_begin. */
    method MergeOut(b: u32, e: u32, fails: Entry -> bool, ghost w: seq<Entry>)
      returns (handed: seq<Entry>, ghost kl: nat)
      requires entries.Length == LOG_LEN && |w| == SeqDist(b, e) <= LOG_LEN && Ring(entries[..], b)[..|w|] == w
               && Walkable(w)
      modifies `disk, `rlog, `lBegin, entries
      ensures handed == Submitted(w, 0, |w|) && disk == Apply(old(disk), Passed(handed, fails), content)
              && rlog == old(rlog) - DataPages(w, 0, |w|)
      ensures kl <= |w| && DataEndsAt(w, kl) && lBegin == (if kl == 0 then old(lBegin) else Unsigned(b + kl))
      ensures SameBut(old(Ring(entries[..], b)), Ring(entries[..], b), 0, |w|)
    {
      hide Unsigned, Ring, SeqDist, Walkable, Apply, Submitted, DataPages, Handover, BatchesOk, SameBut, Data, Passed,
           InOrder, Ascend;
      var err, lb, batches, evicted;
      err, lb, batches, evicted, kl := MergeFlush.MergeFlush(entries, lBegin, b, e, fails, _ => 0, w);
      handed := Handover(batches);
      disk, rlog, lBegin := Apply(disk, Passed(handed, fails), content), rlog - evicted, lb;
    }

    /** The books once the t transactions taken are flushed; v is the view, s the array before the merge. */
    ghost method Settle(v: View, was: u32, b: u32, e: u32, n: nat, t: nat, chain: seq<Tran>, s: seq<Entry>, kl: nat,
                        fails: Entry -> bool)
      requires Chain(was, lHead, lEnd, chain, begin, ends, |log|) && 0 < t < |ends| && trans == chain[t..]
      requires Ok(v, Pend()) && Imaged(v, ends, images) && v == Now().(disk := v.disk, rlog := v.rlog)
      requires entries.Length == LOG_LEN == |s| && b == Unsigned(ends[0]) && ends[t] == ends[0] + n
               && n == SeqDist(b, e) <= |log| <= LOG_LEN
      requires SortedStretch(s, b, e, log, n) && SameBut(Ring(s, b), Ring(entries[..], b), 0, n)
      requires var w := Window(s, b, e);
               && disk == Apply(v.disk, Passed(Submitted(w, 0, n), fails), content)
               && rlog == v.rlog - DataPages(w, 0, n)
               && DataEndsAt(w, kl) && kl <= n && lBegin == (if kl == 0 then was else Unsigned(b + kl))
      modifies `begin, `ends, `log, `images
      ensures t <= |old(images)| && images == old(images)[t..] && ends == old(ends)[t..]
      ensures FlushedLog(old(log), log, old(begin), begin, old(ends), t, Submitted(Window(s, b, e), 0, n))
      ensures UnlessLost(disk, v.disk, old(images)[t - 1], Submitted(Window(s, b, e), 0, n), fails)
      ensures Shape()
      ensures (forall e :: !fails(e)) ==>
                Ok(Now(), Pend()) && Imaged(Now(), ends, images) && disk == old(images)[t - 1]
    {
      hide Unsigned, Ok, Ring, Imaged, SeqDist, Apply, DataPages, Submitted, Chain, KeyOf, Closed, Kinds, Lengths,
           Greatest, Lens,
           BeginAfter, Passed, UnlessLost, SameBut, DataEndsAt, SortedStretch, Window, Entry.Valid, Entry.Meta,
           Entry.Version;
      var w, begin' := Window(s, b, e), if kl == 0 then begin else ends[0] + kl;
      ChainFlushed(was, lHead, lEnd, chain, begin, ends, log, t, s, entries[..], b, e, kl, lBegin);
      StretchFlushed(v, Pend(), s, b, e, n, ends, images, t, kl, begin, fails);
      begin, ends, log, images := begin', ends[t..], log[n..], images[t..];
      if forall e :: !fails(e) {
        assert Now() == Closed(v, n, w, old(ends), t);
      }
    }

    /** The entry built for a new version of the page. */
    method NewEntry(key: Key, p: nat, l: nat, ghost pend: Pending) returns (le: Entry)
      requires Shape() && Found(Now().(content := map[p := ImagePage(file, key)]), key, p, pend) && pend.Writing?
      requires key.ino != INVAL_INO && key.index < 0x100_0000_0000_0000 && l <= 4096 && pend.pgi % 256 != 0
      ensures le.Valid() && !le.Meta() && le.Version() >= 1 && le.Length() == l
      ensures KeyOf(le) == key && le.page == p && le.pgi == pend.pgi
    {
      hide Unsigned, Ring, Chain, SeqDist, BuiltEntry, KeyOf, Entry.Valid, Entry.Meta, Entry.Version, Entry.Length,
           ImagePage;
      ChainFacts(lBegin, lHead, lEnd, trans, begin, ends, |log|);
      if rlog[p] != L_NULL {
        ghost var k: nat := SeqDist(Unsigned(ends[0]), rlog[p]);
        EntryWith(k);
      }
      BuiltFits(key, l, p, rlog[p], entries[rlog[p] % 32768], pend.pgi);
      le := BuiltEntry(key, l, p, rlog[p], entries[rlog[p] % 32768]);
    }

    method Resize(i: u32, l: nat, ghost k: nat)
      requires Shape() && k < |log| && i == Unsigned(ends[0] + k)
      modifies entries, `log
      ensures Shape() && log == old(log)[k := old(log[k]).SetLength(l)]
    {
      hide Unsigned, Ring, Chain, Entry.SetLength;
      ChainFacts(lBegin, lHead, lEnd, trans, begin, ends, |log|);
      Slot(ends[0] + k);
      RingHas(entries[..], ends[0], log, k);
      var e := entries[i % 32768].SetLength(l);
      ghost var s := entries[..];
      entries[i % 32768] := e;
      RingUpdate(s, ends[0], k, e);
      log := log[k := e];
    }

    /** The entry with sequence number `i` is turned to another page and marked as copied. */
    method TurnEntry(i: u32, cpage: nat, ghost k: nat)
      requires Shape() && k < |log| && i == Unsigned(ends[0] + k)
      modifies entries, `log
      ensures Shape() && log == old(log)[k := old(log[k]).(page := cpage).SetCow()]
    {
      hide Unsigned, Ring, Chain, Entry.SetCow;
      ChainFacts(lBegin, lHead, lEnd, trans, begin, ends, |log|);
      Slot(ends[0] + k);
      RingHas(entries[..], ends[0], log, k);
      var e := entries[i % 32768].(page := cpage).SetCow();
      ghost var s := entries[..];
      entries[i % 32768] := e;
      RingUpdate(s, ends[0], k, e);
      log := log[k := e];
    }
  }

  lemma {:induction false} OkStructure(v: View, pend: Pending)
    requires Ok(v, pend)
    ensures Structure(v, pend)
  {
  }

  lemma {:induction false} RingHas(s: seq<Entry>, first: nat, log: seq<Entry>, k: nat)
    requires |s| == LOG_LEN && |log| <= LOG_LEN && Ring(s, first)[..|log|] == log && k < |log|
    ensures s[(first + k) % 32768] == log[k]
  {
    assert Ring(s, first)[..|log|][k] == log[k];
  }

  /** Without a record the cached page, or failing that the disk's, is the file's. */
  lemma {:induction false} CachedPage(v: View, key: Key)
    requires Ok(v, Idle)
    ensures key in v.cache ==> v.cache[key] in v.content && v.content[v.cache[key]] == ImagePage(v.file, key)
    ensures key !in v.cache ==> ImagePage(v.disk, key) == ImagePage(v.file, key)
    ensures forall p | p in v.rlog :: p in v.content
  {
    hide Replay, KeyOf, Data, Unsigned, SeqDist;
    if key in v.cache {
      assert CacheOk(v, Idle, key);
    } else {
      forall j | 0 <= j < |v.log| && Data(v.log[j])
        ensures KeyOf(v.log[j]) != key
      {
        NoEntry(v, key, j);
      }
      ReplayMisses(v.disk, v.log, v.content, |v.log|, key);
    }
    forall p | p in v.rlog
      ensures p in v.content
    {
      assert RecordOk(v, Idle, p);
      var k := SeqDist(Unsigned(v.first), v.rlog[p]);
      DataOrMeta(v, Idle, k);
      assert EntryOk(v, Idle, k);
    }
  }

  lemma {:induction false} ChainFacts(lBegin: u32, lHead: u32, lEnd: u32, trans: seq<Tran>, begin: nat, ends: seq<nat>,
                                      total: nat)
    requires Chain(lBegin, lHead, lEnd, trans, begin, ends, total)
    ensures |ends| == |trans| > 0 && begin <= ends[0] <= ends[|ends| - 1] <= ends[0] + total <= begin + LOG_LEN
    ensures lBegin == Unsigned(begin) && lHead == Unsigned(ends[|ends| - 1]) && lEnd == Unsigned(ends[0] + total)
  {
  }

  lemma {:induction false} Extended(r: seq<Entry>, log: seq<Entry>, e: Entry)
    requires |log| < |r| && r[..|log|] == log
    ensures r[|log| := e][..|log| + 1] == log + [e]
  {
  }

  /** The slots of the sequence numbers [begin, end) are as they were. */
  ghost predicate SlotsKept(s: seq<Entry>, s': seq<Entry>, begin: nat, end: nat)
    requires |s| == |s'| == LOG_LEN
  {
    forall x | begin <= x < end :: s'[x % 32768] == s[x % 32768]
  }

  lemma {:induction false} OtherSlots(s: seq<Entry>, begin: nat, end: nat, e: Entry)
    requires |s| == LOG_LEN && begin <= end < begin + LOG_LEN
    ensures SlotsKept(s, s[end % 32768 := e], begin, end)
  {
    forall x | begin <= x < end
      ensures s[end % 32768 := e][x % 32768] == s[x % 32768]
    {
      SlotsDiffer(begin, x - begin, end - begin);
    }
  }
}
