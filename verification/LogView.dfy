/** The invariant of the logged file system, on values: log entries, reverse-log records, page cache, page
    contents, disk and files; and why each step of the hooks and of the flusher keeps it. */
module LogView {
  import opened Basics
  import opened LogEntry
  import opened MergeFlush
  import opened LogImage

  /** `log` holds the unflushed entries, the first `sealed` of them in sealed transactions; entry k has sequence
      number `first + k`.  `rlog` maps a page to the sequence number recorded for it, `cache` a page of a file to
      the page that holds it, `file` is what the applications have written. */
  datatype View = View(first: nat, sealed: nat, log: seq<Entry>, rlog: map<nat, u32>, content: map<nat, Page>,
                       cache: map<Key, nat>, disk: Image, file: Image)

  /** A write between its two hooks: its page may already differ from the file, its entry is still to come and
      will carry page key `pgi`. */
  datatype Pending = Idle | Writing(key: Key, page: nat, pgi: int)

  predicate Covers(pend: Pending, key: Key) { pend.Writing? && pend.key == key }

  ghost predicate EntryOk(v: View, pend: Pending, k: nat)
    requires k < |v.log|
  {
    var e := v.log[k];
    && e.Valid()
    && (e.Meta() ==> e.pgi == 0)
    && (!e.Meta() ==>
          && e.Version() >= 1 && e.page in v.content && KeyOf(e) in v.cache
          && e.page in v.rlog && v.rlog[e.page] == Unsigned(v.first + k) != L_NULL
          && if Covers(pend, KeyOf(e)) then k < v.sealed && e.page != pend.page && e.pgi < pend.pgi
             else v.cache[KeyOf(e)] in v.rlog)
  }

  /** A record leads to the entry of its page. */
  ghost predicate RecordOk(v: View, pend: Pending, p: nat)
    requires p in v.rlog
  {
    (pend.Writing? && pend.page == p)
    || var k := SeqDist(Unsigned(v.first), v.rlog[p]); k < |v.log| && Data(v.log[k]) && v.log[k].page == p
  }

  ghost predicate CacheOk(v: View, pend: Pending, key: Key)
    requires key in v.cache
  {
    && v.cache[key] in v.content
    && (Covers(pend, key) ==> v.cache[key] == pend.page)
    && (!Covers(pend, key) ==> key in v.file && v.file[key] == v.content[v.cache[key]])
  }

  /** Cached pages are apart from each other, and from the pages of other files' entries. */
  ghost predicate Apart(v: View, key: Key, key': Key)
    requires key in v.cache && key' in v.cache
  {
    v.cache[key] == v.cache[key'] ==> key == key'
  }

  ghost predicate Owned(v: View, k: nat, key: Key)
    requires k < |v.log| && key in v.cache
  {
    Data(v.log[k]) && v.log[k].page == v.cache[key] ==> KeyOf(v.log[k]) == key
  }

  /** An entry followed by another one of its page is sealed, has been given a page of its own, and a lower key. */
  ghost predicate Followed(v: View, i: nat, j: nat)
    requires i < j < |v.log|
  {
    Data(v.log[i]) && Data(v.log[j]) && KeyOf(v.log[i]) == KeyOf(v.log[j]) ==>
      && i < v.sealed && v.log[i].pgi < v.log[j].pgi
      && (KeyOf(v.log[i]) in v.cache ==> v.log[i].page != v.cache[KeyOf(v.log[i])])
  }

  ghost predicate Structure(v: View, pend: Pending) {
    && v.sealed <= |v.log| <= LOG_LEN
    && (pend.Writing? ==> pend.key in v.cache && pend.page in v.rlog)
    && (forall k | 0 <= k < |v.log| :: EntryOk(v, pend, k))
    && Links(v, pend)
  }

  ghost predicate Links(v: View, pend: Pending) {
    && (forall p | p in v.rlog :: RecordOk(v, pend, p))
    && (forall key | key in v.cache :: CacheOk(v, pend, key))
    && (forall key, key' | key in v.cache && key' in v.cache :: Apart(v, key, key'))
    && (forall k, key | 0 <= k < |v.log| && key in v.cache :: Owned(v, k, key))
    && (forall i, j | 0 <= i < j < |v.log| :: Followed(v, i, j))
  }

  /** The image the first n entries amount to. */
  ghost function Upto(v: View, n: nat): Image
    requires n <= |v.log|
  {
    Replay(v.disk, v.log, v.content, n)
  }

  ghost predicate Ok(v: View, pend: Pending) {
    Structure(v, pend) && v.file == Upto(v, |v.log|)
  }

  /** What is sealed keeps its meaning. */
  ghost predicate SealedKept(v: View, v': View) {
    && v.sealed <= |v.log| && v.sealed <= |v'.log|
    && forall n | 0 <= n <= v.sealed :: Upto(v', n) == Upto(v, n)
  }

  // ---------- positions and sequence numbers ----------

  lemma {:induction false} PositionOf(first: nat, k: nat)
    requires k <= LOG_LEN
    ensures SeqDist(Unsigned(first), Unsigned(first + k)) == k
  {
    hide Unsigned, SeqDist;
    SeqOrder(first, first + k);
  }

  /** The record of a page leads to its one entry. */
  lemma {:induction false} OneEntry(v: View, pend: Pending, k: nat, j: nat)
    requires Structure(v, pend) && k < |v.log| && j < |v.log| && Data(v.log[k]) && Data(v.log[j])
             && v.log[k].page == v.log[j].page
    ensures k == j
  {
    hide Unsigned, SeqDist;
    assert EntryOk(v, pend, k) && EntryOk(v, pend, j);
    PositionOf(v.first, k);
    PositionOf(v.first, j);
  }

  /** The entry a recorded cached page leads to: the last one of its page of the file. */
  lemma {:induction false} LastEntry(v: View, key: Key, k: nat)
    requires Structure(v, Idle) && key in v.cache && v.cache[key] in v.rlog
    requires k == SeqDist(Unsigned(v.first), v.rlog[v.cache[key]])
    ensures k < |v.log| && Data(v.log[k]) && v.log[k].page == v.cache[key] && KeyOf(v.log[k]) == key
    ensures v.rlog[v.cache[key]] == Unsigned(v.first + k) != L_NULL
    ensures forall j | k < j < |v.log| && Data(v.log[j]) :: KeyOf(v.log[j]) != key
    ensures forall j | 0 <= j < k && Data(v.log[j]) && KeyOf(v.log[j]) == key ::
              v.log[j].pgi < v.log[k].pgi && j < v.sealed
  {
    hide Unsigned, SeqDist;
    assert RecordOk(v, Idle, v.cache[key]);
    assert Owned(v, k, key) && EntryOk(v, Idle, k);
    forall j | k < j < |v.log| && Data(v.log[j])
      ensures KeyOf(v.log[j]) != key
    {
      assert Followed(v, k, j);
    }
    forall j | 0 <= j < k && Data(v.log[j]) && KeyOf(v.log[j]) == key
      ensures v.log[j].pgi < v.log[k].pgi && j < v.sealed
    {
      assert Followed(v, j, k);
    }
  }

  /** No record, no entry. */
  lemma {:induction false} NoEntry(v: View, key: Key, j: nat)
    requires Structure(v, Idle) && (key in v.cache ==> v.cache[key] !in v.rlog) && j < |v.log| && Data(v.log[j])
    ensures KeyOf(v.log[j]) != key
  {
    assert EntryOk(v, Idle, j);
  }

  /** Entries that keep their meaning keep every image. */
  lemma {:induction false} UptoSame(v: View, v': View, n: nat)
    requires n <= |v.log| && n <= |v'.log| && v.disk == v'.disk
    requires forall k | 0 <= k < n :: SameMeaning(v.log[k], v.content, v'.log[k], v'.content)
    ensures forall m | 0 <= m <= n :: Upto(v', m) == Upto(v, m)
  {
    hide SameMeaning, Replay;
    forall m | 0 <= m <= n
      ensures Upto(v', m) == Upto(v, m)
    {
      ReplaySame(v.disk, v.log, v.content, v'.log, v'.content, m);
    }
  }

  // ---------- adafs_try_assoc_rlog ----------

  /** A page without a record gets an empty one. */
  ghost function Associated(v: View, key: Key, p: nat, page: Page): View {
    v.(cache := v.cache[key := p], content := v.content[p := page], rlog := v.rlog[p := L_NULL])
  }

  lemma {:induction false} AssocStep(v: View, key: Key, p: nat, page: Page, pgi: int)
    requires Ok(v, Idle) && p !in v.rlog
    requires if key in v.cache then p == v.cache[key] && page == v.content[p] else p !in v.content
    ensures Ok(Associated(v, key, p, page), Writing(key, p, pgi)) && SealedKept(v, Associated(v, key, p, page))
  {
    hide Data, KeyOf, Replay, Unsigned, SeqDist;
    var v', pend := Associated(v, key, p, page), Writing(key, p, pgi);
    forall k | 0 <= k < |v.log|
      ensures EntryOk(v', pend, k) && SameMeaning(v.log[k], v.content, v'.log[k], v'.content)
    {
      assert EntryOk(v, Idle, k);
      OtherKey(v, key, k);
    }
    UptoSame(v, v', |v.log|);
    AssocRest(v, key, p, page, pgi);
  }

  lemma {:induction false} OtherKey(v: View, key: Key, k: nat)
    requires Structure(v, Idle) && (key in v.cache ==> v.cache[key] !in v.rlog) && k < |v.log|
    ensures Data(v.log[k]) <==> !v.log[k].Meta()
    ensures Data(v.log[k]) ==> KeyOf(v.log[k]) != key
  {
    assert EntryOk(v, Idle, k);
  }

  lemma {:induction false} AssocRest(v: View, key: Key, p: nat, page: Page, pgi: int)
    requires Structure(v, Idle) && p !in v.rlog
    requires if key in v.cache then p == v.cache[key] && page == v.content[p] else p !in v.content
    ensures var v', pend := Associated(v, key, p, page), Writing(key, p, pgi); Links(v', pend)
  {
    hide Data, KeyOf, Unsigned, SeqDist;
    var v', pend := Associated(v, key, p, page), Writing(key, p, pgi);
    forall q | q in v'.rlog
      ensures RecordOk(v', pend, q)
    {
      assert q != p ==> RecordOk(v, Idle, q);
    }
    forall a | a in v'.cache
      ensures CacheOk(v', pend, a)
    {
      if a != key {
        assert CacheOk(v, Idle, a);
        assert key in v.cache ==> Apart(v, key, a);
      }
    }
    forall a, b | a in v'.cache && b in v'.cache
      ensures Apart(v', a, b)
    {
      assert a in v.cache ==> CacheOk(v, Idle, a);
      assert b in v.cache ==> CacheOk(v, Idle, b);
      assert a in v.cache && b in v.cache ==> Apart(v, a, b);
    }
    forall k, a | 0 <= k < |v'.log| && a in v'.cache
      ensures Owned(v', k, a)
    {
      assert EntryOk(v, Idle, k);
      OtherKey(v, key, k);
      assert a in v.cache ==> Owned(v, k, a);
    }
    forall i, j | 0 <= i < j < |v'.log|
      ensures Followed(v', i, j)
    {
      assert Followed(v, i, j);
      OtherKey(v, key, i);
    }
  }

  /** A sealed page is copied; its entry gets the copy. */
  ghost function Copied(v: View, k: nat, cpage: nat): View
    requires k < |v.log|
  {
    v.(log := v.log[k := v.log[k].(page := cpage).SetCow()],
       rlog := v.rlog[cpage := Unsigned(v.first + k)],
       content := v.content[cpage := PageOf(v.content, v.log[k].page)])
  }

  lemma {:induction false} CowKeeps(e: Entry, q: nat)
    ensures var c := e.(page := q).SetCow();
            c.page == q && c.ino == e.ino && c.pgi == e.pgi && (c.Meta() <==> e.Meta())
            && KeyOf(c) == KeyOf(e) && (Data(c) <==> Data(e)) && c.Length() == e.Length()
  {
    if !e.Cow() {
      CowBit(e.flags);
    }
  }

  /** Setting bit 17 where it is clear carries nowhere. */
  lemma {:induction false} CowBit(flags: u64)
    requires flags / 0x2_0000 % 2 == 0
    ensures var f := (flags + 0x2_0000) % 0x1_0000_0000_0000_0000;
            f == flags + 0x2_0000 && f % 0x1_0000 == flags % 0x1_0000 && f / 0x1_0000 % 2 == flags / 0x1_0000 % 2
  {
    var q, r := flags / 0x2_0000, flags % 0x2_0000;
    BelowTop(flags, q, r);
    HighAndLow(q, r);
    HighAndLow(q + 1, r);
    Parity(q, r / 0x1_0000);
    Parity(q + 1, r / 0x1_0000);
  }

  lemma {:induction false} BelowTop(flags: u64, q: int, r: int)
    requires q == flags / 0x2_0000 && r == flags % 0x2_0000 && q % 2 == 0
    ensures flags == q * 0x2_0000 + r && flags + 0x2_0000 == (q + 1) * 0x2_0000 + r
    ensures (flags + 0x2_0000) % 0x1_0000_0000_0000_0000 == flags + 0x2_0000
  {
    assert q < 0x8000_0000_0000;
    assert q + 1 < 0x8000_0000_0000;
    assert (q + 1) * 0x2_0000 <= 0x7FFF_FFFF_FFFF * 0x2_0000;
  }

  lemma {:induction false} Parity(q: int, h: int)
    ensures (2 * q + h) % 2 == h % 2
  {
  }

  lemma {:induction false} HighAndLow(q: int, r: int)
    requires 0 <= r < 0x2_0000
    ensures (q * 0x2_0000 + r) % 0x1_0000 == r % 0x1_0000 && (q * 0x2_0000 + r) / 0x1_0000 == 2 * q + r / 0x1_0000
  {
    var h, l := r / 0x1_0000, r % 0x1_0000;
    assert q * 0x2_0000 + r == (2 * q + h) * 0x1_0000 + l;
    DivMod(2 * q + h, l);
  }

  lemma {:induction false} DivMod(q: int, r: int)
    requires 0 <= r < 0x1_0000
    ensures (q * 0x1_0000 + r) / 0x1_0000 == q && (q * 0x1_0000 + r) % 0x1_0000 == r
  {
  }

  lemma {:induction false} CowStep(v: View, key: Key, k: nat, cpage: nat)
    requires Ok(v, Idle) && key in v.cache && v.cache[key] in v.rlog && cpage !in v.content
    requires k == SeqDist(Unsigned(v.first), v.rlog[v.cache[key]]) < v.sealed
    ensures Ok(Copied(v, k, cpage), Writing(key, v.cache[key], v.log[k].pgi + 1)) && SealedKept(v, Copied(v, k, cpage))
  {
    hide Data, KeyOf, Replay, Unsigned, SeqDist, Entry.SetCow, Entry.Meta;
    var v', pend := Copied(v, k, cpage), Writing(key, v.cache[key], v.log[k].pgi + 1);
    LastEntry(v, key, k);
    CowKeeps(v.log[k], cpage);
    forall j | 0 <= j < |v.log|
      ensures EntryOk(v', pend, j) && SameMeaning(v.log[j], v.content, v'.log[j], v'.content)
    {
      assert EntryOk(v, Idle, j);
      DataOrMeta(v, Idle, j);
      if Data(v.log[j]) && v.log[j].page == v.log[k].page {
        OneEntry(v, Idle, k, j);
      }
    }
    UptoSame(v, v', |v.log|);
    CowRest(v, key, k, cpage);
  }

  lemma {:induction false} DataOrMeta(v: View, pend: Pending, k: nat)
    requires Structure(v, pend) && k < |v.log|
    ensures Data(v.log[k]) <==> !v.log[k].Meta()
  {
    assert EntryOk(v, pend, k);
  }

  lemma {:induction false} CowRest(v: View, key: Key, k: nat, cpage: nat)
    requires Structure(v, Idle) && key in v.cache && v.cache[key] in v.rlog && cpage !in v.content
    requires k == SeqDist(Unsigned(v.first), v.rlog[v.cache[key]]) < v.sealed
    ensures k < |v.log|
    ensures var v', pend := Copied(v, k, cpage), Writing(key, v.cache[key], v.log[k].pgi + 1); Links(v', pend)
  {
    hide Data, KeyOf, Unsigned, SeqDist, Entry.SetCow, Entry.Meta;
    var v', pend := Copied(v, k, cpage), Writing(key, v.cache[key], v.log[k].pgi + 1);
    LastEntry(v, key, k);
    CowKeeps(v.log[k], cpage);
    PositionOf(v.first, k);
    forall q | q in v'.rlog
      ensures RecordOk(v', pend, q)
    {
      assert q != cpage ==> RecordOk(v, Idle, q);
    }
    forall a | a in v'.cache
      ensures CacheOk(v', pend, a)
    {
      assert CacheOk(v, Idle, a);
    }
    forall a, b | a in v'.cache && b in v'.cache
      ensures Apart(v', a, b)
    {
      assert Apart(v, a, b);
    }
    forall j, a | 0 <= j < |v'.log| && a in v'.cache
      ensures Owned(v', j, a)
    {
      assert Owned(v, j, a) && CacheOk(v, Idle, a);
    }
    forall i, j | 0 <= i < j < |v'.log|
      ensures Followed(v', i, j)
    {
      assert Followed(v, i, j);
    }
  }

  // ---------- copying the data in ----------

  lemma {:induction false} PendingApart(v: View, pend: Pending, j: nat)
    requires Structure(v, pend) && pend.Writing? && j < |v.log| && Data(v.log[j])
    ensures v.log[j].page != pend.page
  {
    hide KeyOf;
    assert EntryOk(v, pend, j);
    assert CacheOk(v, pend, pend.key);
    assert Owned(v, j, pend.key);
  }

  lemma {:induction false} CopyStep(v: View, pend: Pending, page: Page)
    requires Ok(v, pend) && pend.Writing?
    ensures Ok(v.(content := v.content[pend.page := page]), pend)
    ensures SealedKept(v, v.(content := v.content[pend.page := page]))
  {
    hide Data, KeyOf, Replay, Unsigned, SeqDist;
    var v' := v.(content := v.content[pend.page := page]);
    forall j | 0 <= j < |v.log|
      ensures EntryOk(v', pend, j) && SameMeaning(v.log[j], v.content, v'.log[j], v'.content)
    {
      assert EntryOk(v, pend, j);
      if Data(v.log[j]) {
        PendingApart(v, pend, j);
      }
    }
    UptoSame(v, v', |v.log|);
    forall q | q in v'.rlog
      ensures RecordOk(v', pend, q)
    {
      assert RecordOk(v, pend, q);
    }
    assert CacheOk(v, pend, pend.key);
    forall a | a in v'.cache
      ensures CacheOk(v', pend, a)
    {
      assert CacheOk(v, pend, a) && Apart(v, a, pend.key);
    }
    SameCache(v, v');
  }

  /** Steps that touch neither log nor cache keep what is said of the two alone. */
  lemma {:induction false} SameCache(v: View, v': View)
    requires v'.cache == v.cache && v'.log == v.log && v.sealed <= v'.sealed
    requires forall key, key' | key in v.cache && key' in v.cache :: Apart(v, key, key')
    requires forall k, key | 0 <= k < |v.log| && key in v.cache :: Owned(v, k, key)
    requires forall i, j | 0 <= i < j < |v.log| :: Followed(v, i, j)
    ensures forall key, key' | key in v'.cache && key' in v'.cache :: Apart(v', key, key')
    ensures forall k, key | 0 <= k < |v'.log| && key in v'.cache :: Owned(v', k, key)
    ensures forall i, j | 0 <= i < j < |v'.log| :: Followed(v', i, j)
  {
    hide Data, KeyOf;
    forall a, b | a in v'.cache && b in v'.cache
      ensures Apart(v', a, b)
    {
      assert Apart(v, a, b);
    }
    forall j, a | 0 <= j < |v'.log| && a in v'.cache
      ensures Owned(v', j, a)
    {
      assert Owned(v, j, a);
    }
    forall i, j | 0 <= i < j < |v'.log|
      ensures Followed(v', i, j)
    {
      assert Followed(v, i, j);
    }
  }

  // ---------- adafs_try_append_log ----------

  ghost function Appended(v: View, key: Key, e: Entry): View {
    v.(log := v.log + [e], rlog := v.rlog[e.page := Unsigned(v.first + |v.log|)],
       file := v.file[key := PageOf(v.content, e.page)])
  }

  /** The entry of the pending write. */
  ghost predicate Entered(v: View, pend: Pending, e: Entry) {
    && pend.Writing? && e.Valid() && !e.Meta() && KeyOf(e) == pend.key && e.page == pend.page
    && e.pgi >= pend.pgi && e.Version() >= 1 && Unsigned(v.first + |v.log|) != L_NULL
  }

  lemma {:induction false} AppendStep(v: View, pend: Pending, e: Entry)
    requires Ok(v, pend) && Entered(v, pend, e) && |v.log| < LOG_LEN
    ensures Ok(Appended(v, pend.key, e), Idle) && SealedKept(v, Appended(v, pend.key, e))
  {
    hide Data, KeyOf, Replay, Unsigned, SeqDist;
    hide EntryOk, Links;
    var v' := Appended(v, pend.key, e);
    AppendedEntry(v, pend, e);
    forall j | 0 <= j < |v'.log|
      ensures EntryOk(v', Idle, j)
      ensures j < |v.log| ==> SameMeaning(v.log[j], v.content, v'.log[j], v'.content)
    {
      if j < |v.log| {
        AppendKeeps(v, pend, e, j);
      }
    }
    UptoSame(v, v', |v.log|);
    AppendRest(v, pend, e);
    UptoStep(v', |v.log|);
  }

  lemma {:induction false} AppendedEntry(v: View, pend: Pending, e: Entry)
    requires Structure(v, pend) && Entered(v, pend, e)
    ensures EntryOk(Appended(v, pend.key, e), Idle, |v.log|) && Data(e) && KeyOf(e) == pend.key
  {
    hide Unsigned;
    assert CacheOk(v, pend, pend.key);
  }

  lemma {:induction false} AppendKeeps(v: View, pend: Pending, e: Entry, j: nat)
    requires Structure(v, pend) && Entered(v, pend, e) && j < |v.log|
    ensures EntryOk(Appended(v, pend.key, e), Idle, j)
    ensures var v' := Appended(v, pend.key, e); SameMeaning(v.log[j], v.content, v'.log[j], v'.content)
  {
    hide Data, KeyOf, Unsigned, SeqDist;
    assert EntryOk(v, pend, j);
    assert CacheOk(v, pend, pend.key);
    DataOrMeta(v, pend, j);
    if Data(v.log[j]) {
      PendingApart(v, pend, j);
    }
  }

  lemma {:induction false} UptoStep(v: View, n: nat)
    requires n < |v.log| && Data(v.log[n])
    ensures Upto(v, n + 1) == Upto(v, n)[KeyOf(v.log[n]) := PageOf(v.content, v.log[n].page)]
  {
  }

  lemma {:induction false} IsData(e: Entry)
    ensures Data(e) <==> e.Valid() && !e.Meta()
  {
  }

  lemma {:induction false} AppendRest(v: View, pend: Pending, e: Entry)
    requires Structure(v, pend) && Entered(v, pend, e) && |v.log| < LOG_LEN
    ensures var v' := Appended(v, pend.key, e); Links(v', Idle)
  {
    hide Data, KeyOf, Unsigned, SeqDist;
    var v', n := Appended(v, pend.key, e), |v.log|;
    PositionOf(v.first, n);
    IsData(e);
    assert CacheOk(v, pend, pend.key);
    forall q | q in v'.rlog
      ensures RecordOk(v', Idle, q)
    {
      assert q != e.page ==> RecordOk(v, pend, q);
    }
    forall a | a in v'.cache
      ensures CacheOk(v', Idle, a)
    {
      assert CacheOk(v, pend, a);
    }
    forall a, b | a in v'.cache && b in v'.cache
      ensures Apart(v', a, b)
    {
      assert Apart(v, a, b);
    }
    forall j, a | 0 <= j < |v'.log| && a in v'.cache
      ensures Owned(v', j, a)
    {
      assert Apart(v, a, pend.key);
      assert j < n ==> Owned(v, j, a);
    }
    forall i, j | 0 <= i < j < |v'.log|
      ensures Followed(v', i, j)
    {
      assert j < n ==> Followed(v, i, j);
      assert EntryOk(v, pend, i);
      DataOrMeta(v, pend, i);
    }
  }

  /** A write to a page whose entry is not sealed yet: in place. */
  ghost function Rewritten(v: View, k: nat, l: nat, page: Page): View
    requires k < |v.log|
  {
    v.(log := v.log[k := v.log[k].SetLength(l)], content := v.content[v.log[k].page := page],
       file := v.file[KeyOf(v.log[k]) := page])
  }

  lemma {:induction false} LengthKeeps(e: Entry, l: nat)
    requires l < 0x1_0000
    ensures var c := e.SetLength(l);
            c.page == e.page && c.ino == e.ino && c.pgi == e.pgi && (c.Meta() <==> e.Meta())
                && c.Version() == e.Version()
            && c.Length() == l && KeyOf(c) == KeyOf(e) && (Data(c) <==> Data(e)) && (c.Valid() <==> e.Valid())
  {
    LengthFits(e, l);
  }

  lemma {:induction false} ActiveStep(v: View, key: Key, k: nat, l: nat, page: Page)
    requires Ok(v, Idle) && key in v.cache && v.cache[key] in v.rlog && l < 0x1_0000
    requires k == SeqDist(Unsigned(v.first), v.rlog[v.cache[key]]) && v.sealed <= k
    ensures k < |v.log| && KeyOf(v.log[k]) == key && Ok(Rewritten(v, k, l, page), Idle)
            && SealedKept(v, Rewritten(v, k, l, page))
  {
    hide Data, KeyOf, Replay, Unsigned, SeqDist, Entry.SetLength, Entry.Meta, Entry.Version, Entry.Valid;
    LastEntry(v, key, k);
    LengthKeeps(v.log[k], l);
    var v' := Rewritten(v, k, l, page);
    forall j | 0 <= j < |v.log|
      ensures EntryOk(v', Idle, j)
      ensures j != k ==> SameMeaning(v.log[j], v.content, v'.log[j], v'.content)
    {
      assert EntryOk(v, Idle, j);
      if Data(v.log[j]) && v.log[j].page == v.log[k].page {
        OneEntry(v, Idle, k, j);
      }
    }
    ReplayPatched(v.disk, v.log, v.content, v'.log, v'.content, |v.log|, k);
    UptoSame(v, v', v.sealed);
    ActiveRest(v, key, k, l, page);
  }

  lemma {:induction false} ActiveRest(v: View, key: Key, k: nat, l: nat, page: Page)
    requires Structure(v, Idle) && key in v.cache && v.cache[key] in v.rlog && l < 0x1_0000
    requires k == SeqDist(Unsigned(v.first), v.rlog[v.cache[key]]) && v.sealed <= k < |v.log|
    ensures var v' := Rewritten(v, k, l, page); Links(v', Idle)
  {
    hide Data, KeyOf, Unsigned, SeqDist, Entry.SetLength, Entry.Meta, Entry.Version, Entry.Valid;
    LastEntry(v, key, k);
    LengthKeeps(v.log[k], l);
    var v' := Rewritten(v, k, l, page);
    forall q | q in v'.rlog
      ensures RecordOk(v', Idle, q)
    {
      assert RecordOk(v, Idle, q);
    }
    forall a | a in v'.cache
      ensures CacheOk(v', Idle, a)
    {
      assert CacheOk(v, Idle, a) && Apart(v, a, key);
    }
    forall a, b | a in v'.cache && b in v'.cache
      ensures Apart(v', a, b)
    {
      assert Apart(v, a, b);
    }
    forall j, a | 0 <= j < |v'.log| && a in v'.cache
      ensures Owned(v', j, a)
    {
      assert Owned(v, j, a);
    }
    forall i, j | 0 <= i < j < |v'.log|
      ensures Followed(v', i, j)
    {
      assert Followed(v, i, j);
    }
  }

  /** An entry about an inode's creation changes no image. */
  lemma {:induction false} MetaStep(v: View, pend: Pending, e: Entry)
    requires Ok(v, pend) && e.Valid() && e.Meta() && e.pgi == 0 && |v.log| < LOG_LEN
    ensures Ok(v.(log := v.log + [e]), pend) && SealedKept(v, v.(log := v.log + [e]))
  {
    hide Data, KeyOf, Replay, Unsigned, SeqDist;
    var v', n := v.(log := v.log + [e]), |v.log|;
    IsData(e);
    forall j | 0 <= j < |v'.log|
      ensures EntryOk(v', pend, j)
      ensures j < n ==> SameMeaning(v.log[j], v.content, v'.log[j], v'.content)
    {
      assert j < n ==> EntryOk(v, pend, j);
    }
    UptoSame(v, v', n);
    UptoSkip(v', n);
    MetaRest(v, pend, e);
  }

  lemma {:induction false} UptoSkip(v: View, n: nat)
    requires n < |v.log| && !Data(v.log[n])
    ensures Upto(v, n + 1) == Upto(v, n)
  {
  }

  lemma {:induction false} MetaRest(v: View, pend: Pending, e: Entry)
    requires Structure(v, pend) && !Data(e)
    ensures var v' := v.(log := v.log + [e]); Links(v', pend)
  {
    hide Data, KeyOf, Unsigned, SeqDist;
    var v', n := v.(log := v.log + [e]), |v.log|;
    forall q | q in v'.rlog
      ensures RecordOk(v', pend, q)
    {
      assert RecordOk(v, pend, q);
    }
    forall a | a in v'.cache
      ensures CacheOk(v', pend, a)
    {
      assert CacheOk(v, pend, a);
    }
    forall a, b | a in v'.cache && b in v'.cache
      ensures Apart(v', a, b)
    {
      assert Apart(v, a, b);
    }
    forall j, a | 0 <= j < |v'.log| && a in v'.cache
      ensures Owned(v', j, a)
    {
      assert j < n ==> Owned(v, j, a);
    }
    forall i, j | 0 <= i < j < |v'.log|
      ensures Followed(v', i, j)
    {
      assert j < n ==> Followed(v, i, j);
    }
  }

  // ---------- log_seal ----------

  lemma {:induction false} SealStep(v: View, pend: Pending)
    requires Ok(v, pend)
    ensures Ok(v.(sealed := |v.log|), pend) && SealedKept(v, v.(sealed := |v.log|))
  {
    hide Data, KeyOf, Replay, Unsigned, SeqDist;
    var v' := v.(sealed := |v.log|);
    forall j | 0 <= j < |v'.log|
      ensures EntryOk(v', pend, j)
    {
      assert EntryOk(v, pend, j);
    }
    forall q | q in v'.rlog
      ensures RecordOk(v', pend, q)
    {
      assert RecordOk(v, pend, q);
    }
    forall a | a in v'.cache
      ensures CacheOk(v', pend, a)
    {
      assert CacheOk(v, pend, a);
    }
    SameCache(v, v');
    assert forall n | 0 <= n <= v.sealed :: Upto(v', n) == Upto(v, n);
  }

  // ---------- log_flush ----------

  /** The first n entries reach the disk and leave the log, and their pages the reverse log. */
  ghost function Flushed(v: View, n: nat): View
    requires n <= v.sealed <= |v.log|
  {
    v.(first := v.first + n, sealed := v.sealed - n, log := v.log[n..], rlog := v.rlog - DataPages(v.log, 0, n),
       disk := Upto(v, n))
  }

  lemma {:induction false} GonePage(v: View, n: nat, p: nat) returns (i: nat)
    requires n <= |v.log| && p in DataPages(v.log, 0, n)
    ensures i < n && Data(v.log[i]) && v.log[i].page == p
  {
    i :| 0 <= i < n && Data(v.log[i]) && v.log[i].page == p;
  }

  lemma {:induction false} NotCached(v: View, pend: Pending, i: nat, k: nat)
    requires Structure(v, pend) && i < k < |v.log| && Data(v.log[i]) && Data(v.log[k]) && KeyOf(v.log[k]) in v.cache
    ensures v.log[i].page != v.cache[KeyOf(v.log[k])]
  {
    hide KeyOf, Data;
    assert Owned(v, i, KeyOf(v.log[k]));
    assert Followed(v, i, k);
  }

  /** The page of an entry that stays is not among those that go. */
  lemma {:induction false} StaysRecorded(v: View, pend: Pending, n: nat, k: nat)
    requires Structure(v, pend) && n <= k < |v.log| && Data(v.log[k])
    ensures v.log[k].page !in DataPages(v.log, 0, n)
    ensures KeyOf(v.log[k]) in v.cache && !Covers(pend, KeyOf(v.log[k])) ==>
            v.cache[KeyOf(v.log[k])] !in DataPages(v.log, 0, n)
  {
    hide KeyOf, Data, DataPages;
    if v.log[k].page in DataPages(v.log, 0, n) {
      var i := GonePage(v, n, v.log[k].page);
      OneEntry(v, pend, i, k);
    }
    var key := KeyOf(v.log[k]);
    if key in v.cache && !Covers(pend, key) && v.cache[key] in DataPages(v.log, 0, n) {
      var i := GonePage(v, n, v.cache[key]);
      NotCached(v, pend, i, k);
    }
  }

  lemma {:induction false} LaterIndex(first: nat, n: nat, k: nat)
    requires n <= k <= LOG_LEN
    ensures SeqDist(Unsigned(first + n), Unsigned(first + k)) == k - n
  {
    PositionOf(first + n, k - n);
  }

  lemma {:induction false} FlushEntries(v: View, pend: Pending, n: nat, k: nat)
    requires Structure(v, pend) && n <= v.sealed && k < |v.log| - n
    ensures EntryOk(Flushed(v, n), pend, k)
  {
    hide KeyOf, Data, DataPages, Unsigned, SeqDist, Replay;
    var v' := Flushed(v, n);
    assert EntryOk(v, pend, n + k) && v'.log[k] == v.log[n + k];
    DataOrMeta(v, pend, n + k);
    if Data(v.log[n + k]) {
      StaysRecorded(v, pend, n, n + k);
    }
  }

  lemma {:induction false} FlushRecords(v: View, pend: Pending, n: nat, p: nat)
    requires Structure(v, pend) && n <= v.sealed && p in Flushed(v, n).rlog
    ensures RecordOk(Flushed(v, n), pend, p)
  {
    hide KeyOf, Data, Unsigned, SeqDist, Replay;
    assert RecordOk(v, pend, p);
    if !(pend.Writing? && pend.page == p) {
      var k := SeqDist(Unsigned(v.first), v.rlog[p]);
      assert EntryOk(v, pend, k);
      DataOrMeta(v, pend, k);
      LaterIndex(v.first, n, k);
    }
  }

  lemma {:induction false} FlushLinks(v: View, pend: Pending, n: nat)
    requires Structure(v, pend) && n <= v.sealed
    ensures Links(Flushed(v, n), pend)
  {
    hide KeyOf, Data, DataPages, Unsigned, SeqDist, Replay, RecordOk;
    var v' := Flushed(v, n);
    forall p | p in v'.rlog
      ensures RecordOk(v', pend, p)
    {
      FlushRecords(v, pend, n, p);
    }
    forall a | a in v'.cache
      ensures CacheOk(v', pend, a)
    {
      assert CacheOk(v, pend, a);
    }
    forall a, b | a in v'.cache && b in v'.cache
      ensures Apart(v', a, b)
    {
      assert Apart(v, a, b);
    }
    forall j, a | 0 <= j < |v'.log| && a in v'.cache
      ensures Owned(v', j, a)
    {
      assert Owned(v, n + j, a);
    }
    forall i, j | 0 <= i < j < |v'.log|
      ensures Followed(v', i, j)
    {
      assert Followed(v, n + i, n + j);
    }
  }

  /** The disk takes the image the n entries amount to; what remains amounts to the same images as before. */
  lemma {:induction false} FlushKeeps(v: View, pend: Pending, n: nat)
    requires Ok(v, pend) && n <= v.sealed
    ensures Ok(Flushed(v, n), pend)
    ensures forall m | 0 <= m <= |v.log| - n :: Upto(Flushed(v, n), m) == Upto(v, n + m)
  {
    hide EntryOk, DataPages, Replay, Links;
    var v' := Flushed(v, n);
    forall k | 0 <= k < |v'.log|
      ensures EntryOk(v', pend, k)
    {
      FlushEntries(v, pend, n, k);
    }
    FlushLinks(v, pend, n);
    if pend.Writing? && pend.page in DataPages(v.log, 0, n) {
      var i := GonePage(v, n, pend.page);
      PendingApart(v, pend, i);
    }
    forall m | 0 <= m <= |v.log| - n
      ensures Upto(v', m) == Upto(v, n + m)
    {
      ReplaySplit(v.disk, v.log, v.content, n, m);
    }
    assert Upto(v', |v.log| - n) == Upto(v, n + (|v.log| - n));
  }

  // ---------- the page cache drops a page ----------

  /** Only pages without a record can go; the file does not change. */
  lemma {:induction false} ReclaimStep(v: View, pend: Pending, key: Key)
    requires Ok(v, pend) && key in v.cache && v.cache[key] !in v.rlog
    ensures Ok(v.(cache := v.cache - {key}), pend) && SealedKept(v, v.(cache := v.cache - {key}))
  {
    hide Data, KeyOf, Replay, Unsigned, SeqDist;
    var v' := v.(cache := v.cache - {key});
    assert pend.Writing? ==> CacheOk(v, pend, pend.key);
    forall j | 0 <= j < |v'.log|
      ensures EntryOk(v', pend, j)
    {
      assert EntryOk(v, pend, j);
      DataOrMeta(v, pend, j);
    }
    forall q | q in v'.rlog
      ensures RecordOk(v', pend, q)
    {
      assert RecordOk(v, pend, q);
    }
    forall a | a in v'.cache
      ensures CacheOk(v', pend, a)
    {
      assert CacheOk(v, pend, a);
    }
    forall a, b | a in v'.cache && b in v'.cache
      ensures Apart(v', a, b)
    {
      assert Apart(v, a, b);
    }
    forall j, a | 0 <= j < |v'.log| && a in v'.cache
      ensures Owned(v', j, a)
    {
      assert Owned(v, j, a);
    }
    forall i, j | 0 <= i < j < |v'.log|
      ensures Followed(v', i, j)
    {
      assert Followed(v, i, j);
    }
    assert forall n | 0 <= n <= |v.log| :: Upto(v', n) == Upto(v, n);
  }
}
