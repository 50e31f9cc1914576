/** A run after which the disk holds a state the files never were in: n writes to pages of one file, the last two of
    them after a seal, another seal, and a flush of both.  From 36 writes on there are such runs of any length. */
module SpoiledRun {
  import opened Basics
  import opened LogEntry
  import opened LogRing
  import opened SortLimits
  import opened MergeFlush
  import opened LogImage
  import opened LogView
  import opened LogKinds
  import opened AdaLog
  import opened AdaRun
  import opened FlushLimits

  // ---------- the pages, in the order they are written ----------

  function SwapPages(p: seq<u64>, i: nat, j: nat): (q: seq<u64>)
    requires i < |p| && j < |p|
    ensures |q| == |p|
  {
    p[i := p[j]][j := p[i]]
  }

  /** The pages as the 32nd round of the sort is to find them: 34 both at 32 and last but one, 31 last of all. */
  function LastPages(n: nat): (p: seq<u64>)
    requires 36 <= n <= LOG_LEN
    ensures |p| == n
  {
    seq(n, k requires 0 <= k < n =>
      if k < 31 then k
      else if k == n - 1 then 31 else if k == (n + 30) / 2 then 32 else if k == n - 2 then 34 else k + 2)
  }

  /** As round l finds them. */
  function Pages(n: nat, l: nat): (p: seq<u64>)
    requires 36 <= n <= LOG_LEN && l <= 31
    ensures |p| == n
    decreases 31 - l
  {
    if l == 31 then LastPages(n) else SwapPages(Pages(n, l + 1), (l + n - 1) / 2, l)
  }

  /** Those before l in place; no page twice but 34, whose second time is last but one; 31 last. */
  ghost predicate Arranged(p: seq<u64>, l: nat) {
    && |p| >= 36 && l <= 31
    && (forall j | 0 <= j < l :: p[j] == j) && (forall j | l <= j < |p| :: l <= p[j] < |p|)
    && p[|p| - 2] == 34 && p[|p| - 1] == 31
    && forall i, j | 0 <= i < j < |p| && i != |p| - 2 && j != |p| - 2 :: p[i] != p[j]
  }

  lemma {:induction false} PagesArranged(n: nat, l: nat)
    requires 36 <= n <= LOG_LEN && l <= 31
    ensures Arranged(Pages(n, l), l)
    decreases 31 - l
  {
    hide Pages, SwapPages;
    PagesStep(n, l);
    if l == 31 {
      LastArranged(n);
    } else {
      PagesArranged(n, l + 1);
      SwapArranged(Pages(n, l + 1), (l + n - 1) / 2, l);
    }
  }

  lemma {:induction false} LastArranged(n: nat)
    requires 36 <= n <= LOG_LEN
    ensures Arranged(LastPages(n), 31)
  {
  }

  lemma {:induction false} SwapArranged(p: seq<u64>, mid: nat, l: nat)
    requires Arranged(p, l + 1) && l < mid < |p| - 2
    ensures Arranged(SwapPages(p, mid, l), l)
  {
    var q := SwapPages(p, mid, l);
    forall i, j | 0 <= i < j < |q| && i != |q| - 2 && j != |q| - 2
      ensures q[i] != q[j]
    {
      var i' := if i == mid then l else if i == l then mid else i;
      var j' := if j == mid then l else if j == l then mid else j;
      assert q[i] == p[i'] && q[j] == p[j'] && i' != j';
    }
  }

  /** Page 34 is written before it is written last but one. */
  lemma {:induction false} Before(n: nat, l: nat) returns (c: nat)
    requires 36 <= n <= LOG_LEN && l <= 31
    ensures c < n - 2 && Pages(n, l)[c] == 34
    decreases 31 - l
  {
    hide Pages, SwapPages;
    PagesStep(n, l);
    if l == 31 {
      c := 32;
      LastTwo(n);
    } else {
      c := Before(n, l + 1);
      c := SwapFinds(Pages(n, l + 1), (l + n - 1) / 2, l, c);
    }
  }

  lemma {:induction false} PagesStep(n: nat, l: nat)
    requires 36 <= n <= LOG_LEN && l <= 31
    ensures Pages(n, l) == if l == 31 then LastPages(n) else SwapPages(Pages(n, l + 1), (l + n - 1) / 2, l)
  {
  }

  lemma {:induction false} SwapPagesBack(p: seq<u64>, i: nat, j: nat)
    requires i < |p| && j < |p|
    ensures SwapPages(SwapPages(p, i, j), i, j) == p && SwapPages(p, i, j)[i] == p[j]
  {
  }

  lemma {:induction false} LastTwo(n: nat)
    requires 36 <= n <= LOG_LEN
    ensures LastPages(n)[32] == 34 && LastPages(n)[n - 2] == 34
  {
  }

  lemma {:induction false} SwapFinds(p: seq<u64>, i: nat, j: nat, c: nat) returns (c': nat)
    requires i < |p| - 2 && j < |p| - 2 && c < |p| - 2
    ensures c' < |p| - 2 && SwapPages(p, i, j)[c'] == p[c]
  {
    c' := if c == i then j else if c == j then i else c;
  }

  // ---------- entries with such keys ----------

  function PgiOf(p: seq<u64>, j: nat): int
    requires j < |p|
  {
    256 * (p[j] as int) + if j == |p| - 2 then 2 else 1
  }

  /** Entries of the pages, all in their first version but the last but one. */
  ghost predicate Keyed(r: seq<Entry>, p: seq<u64>) {
    && |p| <= |r|
    && forall j | 0 <= j < |p| :: r[j].ino == 1 && r[j].pgi == PgiOf(p, j)
  }

  lemma {:induction false} SwapKeyed(r: seq<Entry>, p: seq<u64>, i: nat, j: nat)
    requires Keyed(r, p) && i < |p| - 2 && j < |p| - 2
    ensures Keyed(Swapped(r, i, j), SwapPages(p, i, j))
  {
  }

  lemma {:induction false} CompareLow(a: Entry, b: Entry)
    requires a.ino == b.ino && -0x8000_0000 <= a.pgi - b.pgi < 0x8000_0000
    ensures Compare(a, b) == a.pgi - b.pgi
  {
  }

  /** Each round finds the least of the pages left in the middle. */
  lemma {:induction false} KeyedRounds(r: seq<Entry>, n: nat, l: nat)
    requires 36 <= n <= LOG_LEN && l <= 31 && Keyed(r, Pages(n, l))
    ensures LeastInMiddle(r, l, n, 31 - l) && Keyed(Rounds(r, l, n), Pages(n, 31))
    decreases 31 - l
  {
    hide Keyed, Compare, Swapped, Arranged, Pages, SwapPages;
    KeyedSize(r, Pages(n, l));
    if l < 31 {
      var mid := (l + n - 1) / 2;
      forall j | l <= j < n
        ensures Compare(r[j], r[mid]) >= 0
      {
        LeastOf(r, n, l, j);
      }
      SwapKeyed(r, Pages(n, l), mid, l);
      PagesStep(n, l);
      SwapPagesBack(Pages(n, l + 1), mid, l);
      KeyedRounds(Swapped(r, mid, l), n, l + 1);
    }
  }

  lemma {:induction false} KeyedSize(r: seq<Entry>, p: seq<u64>)
    requires Keyed(r, p)
    ensures |p| <= |r|
  {
  }

  lemma {:induction false} LeastOf(r: seq<Entry>, n: nat, l: nat, j: nat)
    requires 36 <= n <= LOG_LEN && l < 31 && Keyed(r, Pages(n, l)) && l <= j < n
    ensures Compare(r[j], r[(l + n - 1) / 2]) >= 0
  {
    hide Compare, Pages, SwapPages;
    PagesArranged(n, l);
    PagesArranged(n, l + 1);
    PagesStep(n, l);
    SwapPagesBack(Pages(n, l + 1), (l + n - 1) / 2, l);
    CompareLow(r[j], r[(l + n - 1) / 2]);
  }

  lemma {:induction false} FoundTail(r: seq<Entry>, n: nat)
    requires 36 <= n <= LOG_LEN && Keyed(r, LastPages(n))
    ensures TailLow(r, n) && SamePage(r[32], r[n - 2]) && r[32].pgi < r[n - 2].pgi && KeyOf(r[n - 1]) != KeyOf(r[n - 2])
  {
    hide Compare;
    var mid := (n + 30) / 2;
    forall j | 31 <= j < n
      ensures Compare(r[j], r[mid]) == r[j].pgi - r[mid].pgi
    {
      CompareLow(r[j], r[mid]);
    }
  }

  /** So the sort overflows on them, and leaves page 34 the wrong way round. */
  lemma {:induction false} KeyedSpoils(r: seq<Entry>, n: nat)
    requires 36 <= n <= LOG_LEN && Keyed(r, Pages(n, 0)) && forall j | 0 <= j < n :: Data(r[j])
    ensures Spoiling(r, n)
  {
    hide Keyed, Data, LeastInMiddle, TailLow, Rounds, Pages;
    KeyedSize(r, Pages(n, 0));
    KeyedRounds(r, n, 0);
    PagesStep(n, 31);
    FoundTail(Rounds(r, 0, n), n);
  }

  // ---------- the run ----------

  function Page1(page: u64): Key { Key(1, page) }

  function WriteTo(page: u64, byte: int): Op { Write(1, page, 0, [byte]) }

  function WroteTo(page: u64, byte: int): Event { Wrote(Page1(page), 0, [byte]) }

  /** The first k writes, each with its round. */
  function Opening(n: nat, k: nat): seq<Op>
    requires 36 <= n <= LOG_LEN && k <= n - 2
  {
    if k == 0 then [] else Opening(n, k - 1) + [WriteTo(Pages(n, 0)[k - 1], 1)] + [Round]
  }

  function Ops(n: nat): seq<Op>
    requires 36 <= n <= LOG_LEN
  {
    Opening(n, n - 2) + [Seal] + [WriteTo(34, 2)] + [Round] + [WriteTo(31, 1)] + [Round] + [Seal]
  }

  /** What the first k writes are about, and their events. */
  function KindsTo(p: seq<u64>, k: nat): (kinds: seq<Kind>)
    requires k <= |p|
    ensures |kinds| == k
  {
    seq(k, j requires 0 <= j < k => OfPage(Page1(p[j])))
  }

  function PgisTo(p: seq<u64>, k: nat): (pgis: seq<int>)
    requires k <= |p|
    ensures |pgis| == k
  {
    seq(k, j requires 0 <= j < k => PgiOf(p, j))
  }

  /** Each writes one byte. */
  function Ones(k: nat): (lens: seq<int>)
    ensures |lens| == k
  {
    seq(k, _ => 1)
  }

  function Wrotes(p: seq<u64>, k: nat): (events: seq<Event>)
    requires k <= |p|
    ensures |events| == k
  {
    seq(k, j requires 0 <= j < k => WroteTo(p[j], 1))
  }

  lemma {:induction false} OneKind(p: seq<u64>, k: nat)
    requires k < |p|
    ensures KindsTo(p, k + 1) == KindsTo(p, k) + [OfPage(Page1(p[k]))]
    ensures PgisTo(p, k + 1) == PgisTo(p, k) + [PgiOf(p, k)] && Wrotes(p, k + 1) == Wrotes(p, k) + [WroteTo(p[k], 1)]
    ensures Ones(k + 1) == Ones(k) + [1]
  {
  }

  ghost predicate AllFit(ops: seq<Op>) {
    forall i | 0 <= i < |ops| :: Fits(TraceOf(ops[..i]), ops[i])
  }

  lemma {:induction false} FitMore(ops: seq<Op>, op: Op)
    requires AllFit(ops) && Fits(TraceOf(ops), op)
    ensures AllFit(ops + [op]) && TraceOf(ops + [op]) == Step(TraceOf(ops), op)
  {
    hide TraceOf, Fits, Step;
    var more := ops + [op];
    TraceMore(ops, op);
    forall i | 0 <= i < |more|
      ensures Fits(TraceOf(more[..i]), more[i])
    {
      assert more[..i] == ops[..i];
      assert ops[..|ops|] == ops;
    }
  }

  /** A state of the run: nobody waits, nothing is flushed, the log has room. */
  ghost predicate Early(t: Trace, n: nat) {
    && t.waiting.None? && t.books.Ok() && t.books.begin == 0 == t.books.ends[0] && |t.books.entries| < n <= LOG_LEN
  }

  /** A write to a page that is not active, and its round. */
  lemma {:induction false} OneWrite(ops: seq<Op>, n: nat, page: u64, byte: int)
    requires AllFit(ops) && Early(TraceOf(ops), n) && page < 0x8000
    requires OfPage(Page1(page)) !in TraceOf(ops).books.Active()
    requires TraceOf(ops).books.NextPgi(Page1(page)) % 256 != 0
    ensures var t, t', b := TraceOf(ops), TraceOf(ops + [WriteTo(page, byte)] + [Round]), TraceOf(ops).books;
            && AllFit(ops + [WriteTo(page, byte)] + [Round])
            && t'.events == t.events + [WroteTo(page, byte)] && t'.waiting.None?
            && t'.books == b.With(OfPage(Page1(page)), b.NextPgi(Page1(page)), 1)
  {
    hide TraceOf, AllFit, Fits, Step, Early, Books.With, Books.NextPgi, Books.Active;
    var t, op := TraceOf(ops), WriteTo(page, byte);
    WritePair(t, n, page, byte);
    FitMore(ops, op);
    FitMore(ops + [op], Round);
  }

  /** The same on traces. */
  lemma {:induction false} WritePair(t: Trace, n: nat, page: u64, byte: int)
    requires Early(t, n) && page < 0x8000 && OfPage(Page1(page)) !in t.books.Active()
    requires t.books.NextPgi(Page1(page)) % 256 != 0
    ensures var op, b := WriteTo(page, byte), t.books;
            var t' := Step(Step(t, op), Round);
            && Fits(t, op) && Fits(Step(t, op), Round) && t'.events == t.events + [WroteTo(page, byte)]
            && t'.waiting.None? && t'.books == b.With(OfPage(Page1(page)), b.NextPgi(Page1(page)), 1)
  {
    hide Step, Books.Active, Books.NextPgi, Books.With, Books.Full, Fits;
    var op, e := WriteTo(page, byte), WroteTo(page, byte);
    WriteIs(t, op, e);
    var u := Step(t, op);
    PairFits(t, u, n, page, byte);
    RoundIs(u, e);
  }

  lemma {:induction false} PairFits(t: Trace, u: Trace, n: nat, page: u64, byte: int)
    requires Early(t, n) && page < 0x8000 && t.books.NextPgi(Page1(page)) % 256 != 0 && u.books == t.books
    ensures Fits(t, WriteTo(page, byte)) && Fits(u, Round) && !t.books.Full()
  {
    hide LastPgi, Books.NextPgi, Books.Active;
  }

  /** A seal of something active. */
  lemma {:induction false} OneSeal(ops: seq<Op>)
    requires AllFit(ops) && TraceOf(ops).waiting.None? && TraceOf(ops).books.Ok() && TraceOf(ops).books.Active() != []
    ensures var t, t', b := TraceOf(ops), TraceOf(ops + [Seal]), TraceOf(ops).books;
            && AllFit(ops + [Seal]) && t'.events == t.events + [Sealed] && t'.waiting.None?
            && t'.books == b.(ends := b.ends + [b.ends[0] + |b.entries|])
  {
    hide TraceOf, AllFit;
    FitMore(ops, Seal);
  }

  /** The books of the run after k writes, with the seals so far. */
  ghost predicate After(t: Trace, p: seq<u64>, k: nat, ends: seq<nat>) {
    && k <= |p| && t.waiting.None? && t.books == Books(KindsTo(p, k), PgisTo(p, k), Ones(k), ends, 0)
  }

  lemma {:induction false} Opens(n: nat, k: nat)
    requires 36 <= n <= LOG_LEN && k <= n - 2
    ensures AllFit(Opening(n, k)) && After(TraceOf(Opening(n, k)), Pages(n, 0), k, [0])
            && TraceOf(Opening(n, k)).events == Wrotes(Pages(n, 0), k)
  {
    hide TraceOf, AllFit, Pages, After, Wrotes;
    if k == 0 {
      Opened(Pages(n, 0));
    } else {
      Opens(n, k - 1);
      OneOpens(n, k - 1, Opening(n, k - 1));
    }
  }

  lemma {:induction false} Opened(p: seq<u64>)
    ensures AllFit([]) && After(TraceOf([]), p, 0, [0]) && TraceOf([]).events == Wrotes(p, 0)
  {
  }

  lemma {:induction false} OneOpens(n: nat, k: nat, ops: seq<Op>)
    requires 36 <= n <= LOG_LEN && k < n - 2 && AllFit(ops)
    requires After(TraceOf(ops), Pages(n, 0), k, [0]) && TraceOf(ops).events == Wrotes(Pages(n, 0), k)
    ensures var p, ops' := Pages(n, 0), ops + [WriteTo(Pages(n, 0)[k], 1)] + [Round];
            AllFit(ops') && After(TraceOf(ops'), p, k + 1, [0]) && TraceOf(ops').events == Wrotes(p, k + 1)
  {
    hide TraceOf, AllFit, Pages, LastPgi, KindsTo, PgisTo, Wrotes;
    var p := Pages(n, 0);
    FirstTime(n, k);
    assert TraceOf(ops).books.Active() == KindsTo(p, k);
    OneWrite(ops, n, p[k], 1);
    OneKind(p, k);
  }

  /** Each of these pages is new to the log. */
  lemma {:induction false} FirstTime(n: nat, k: nat)
    requires 36 <= n <= LOG_LEN && k < n - 2
    ensures var p := Pages(n, 0);
            && p[k] < 0x8000 && OfPage(Page1(p[k])) !in KindsTo(p, k)
            && LastPgi(KindsTo(p, k), PgisTo(p, k), Page1(p[k])) + 1 == PgiOf(p, k) && PgiOf(p, k) % 256 == 1
  {
    hide Pages;
    PagesArranged(n, 0);
    var p := Pages(n, 0);
    forall j | 0 <= j < k
      ensures KindsTo(p, k)[j] != OfPage(Page1(p[k]))
    {
      assert p[j] != p[k];
    }
    LastPgiNone(KindsTo(p, k), PgisTo(p, k), Page1(p[k]));
  }

  /** What the run did. */
  function History(n: nat): seq<Event>
    requires 36 <= n <= LOG_LEN
  {
    Wrotes(Pages(n, 0), n - 2) + [Sealed] + [WroteTo(34, 2)] + [WroteTo(31, 1)] + [Sealed]
  }

  lemma {:induction false} Closes(n: nat)
    requires 36 <= n <= LOG_LEN
    ensures AllFit(Ops(n)) && After(TraceOf(Ops(n)), Pages(n, 0), n, [0, n - 2, n])
            && TraceOf(Ops(n)).events == History(n)
  {
    hide TraceOf, AllFit, Pages, After, Wrotes, Opening;
    var ops := Opening(n, n - 2);
    Opens(n, n - 2);
    var p := Pages(n, 0);
    Seals(p, n - 2, [0], ops);
    assert [0] + [n - 2] == [0, n - 2] && [0, n - 2] + [n] == [0, n - 2, n];
    Rewrites(n, ops + [Seal]);
    WritesLast(n, ops + [Seal] + [WriteTo(34, 2)] + [Round]);
    Seals(p, n, [0, n - 2], ops + [Seal] + [WriteTo(34, 2)] + [Round] + [WriteTo(31, 1)] + [Round]);
  }

  lemma {:induction false} Seals(p: seq<u64>, k: nat, ends: seq<nat>, ops: seq<Op>)
    requires AllFit(ops) && After(TraceOf(ops), p, k, ends) && |ends| > 0 && ends[0] == 0 && ends[|ends| - 1] < k
    ensures var ops' := ops + [Seal];
            && AllFit(ops') && After(TraceOf(ops'), p, k, ends + [k])
            && TraceOf(ops').events == TraceOf(ops).events + [Sealed]
  {
    hide TraceOf, AllFit, KindsTo, PgisTo, Step, Fits;
    assert TraceOf(ops).books.Active() == KindsTo(p, k)[ends[|ends| - 1]..];
    OneSeal(ops);
  }

  lemma {:induction false} Rewrites(n: nat, ops: seq<Op>)
    requires 36 <= n <= LOG_LEN && AllFit(ops) && After(TraceOf(ops), Pages(n, 0), n - 2, [0, n - 2])
    ensures var ops' := ops + [WriteTo(34, 2)] + [Round];
            && AllFit(ops') && After(TraceOf(ops'), Pages(n, 0), n - 1, [0, n - 2])
            && TraceOf(ops').events == TraceOf(ops).events + [WroteTo(34, 2)]
  {
    hide TraceOf, AllFit, Pages, KindsTo, PgisTo, LastPgi, Step, Fits, PgiOf;
    SecondTime(n);
    assert TraceOf(ops).books.Active() == [];
    OneWrite(ops, n, 34, 2);
    OneKind(Pages(n, 0), n - 2);
  }

  lemma {:induction false} WritesLast(n: nat, ops: seq<Op>)
    requires 36 <= n <= LOG_LEN && AllFit(ops) && After(TraceOf(ops), Pages(n, 0), n - 1, [0, n - 2])
    ensures var ops' := ops + [WriteTo(31, 1)] + [Round];
            && AllFit(ops') && After(TraceOf(ops'), Pages(n, 0), n, [0, n - 2])
            && TraceOf(ops').events == TraceOf(ops).events + [WroteTo(31, 1)]
  {
    hide TraceOf, AllFit, Pages, KindsTo, PgisTo, LastPgi, Step, Fits, PgiOf;
    LastTime(n);
    assert TraceOf(ops).books.Active() == [OfPage(Page1(34))];
    OneWrite(ops, n, 31, 1);
    OneKind(Pages(n, 0), n - 1);
  }

  /** Page 34 gets its second version. */
  lemma {:induction false} SecondTime(n: nat)
    requires 36 <= n <= LOG_LEN
    ensures var p := Pages(n, 0);
            && p[n - 2] == 34 && PgiOf(p, n - 2) % 256 == 2
            && LastPgi(KindsTo(p, n - 2), PgisTo(p, n - 2), Page1(34)) + 1 == PgiOf(p, n - 2)
  {
    hide Pages;
    PagesArranged(n, 0);
    var p := Pages(n, 0);
    var c := Before(n, 0);
    var kinds := KindsTo(p, n - 2);
    forall j | c < j < n - 2
      ensures kinds[j] != OfPage(Page1(34))
    {
      assert p[c] != p[j];
    }
    LastPgiAt(kinds, PgisTo(p, n - 2), Page1(34), c);
  }

  /** Page 31 is new, and 34 the only active one. */
  lemma {:induction false} LastTime(n: nat)
    requires 36 <= n <= LOG_LEN
    ensures var p := Pages(n, 0);
            && p[n - 1] == 31 && PgiOf(p, n - 1) % 256 == 1 && KindsTo(p, n - 1)[n - 2..] == [OfPage(Page1(34))]
            && LastPgi(KindsTo(p, n - 1), PgisTo(p, n - 1), Page1(31)) + 1 == PgiOf(p, n - 1)
  {
    hide Pages;
    PagesArranged(n, 0);
    var p := Pages(n, 0);
    var kinds := KindsTo(p, n - 1);
    forall j | 0 <= j < n - 1
      ensures kinds[j] != OfPage(Page1(31))
    {
      assert j != n - 2 ==> p[j] != p[n - 1];
    }
    LastPgiNone(kinds, PgisTo(p, n - 1), Page1(31));
  }

  // ---------- the files along the run ----------

  /** A page whose first byte is `byte`, over nothing. */
  ghost function Byte(byte: int): Page { Patched(Zeros(4096), 0, [byte]) }

  lemma {:induction false} Untouched(events: seq<Event>, key: Key)
    requires forall i | 0 <= i < |events| && events[i].Wrote? :: events[i].key != key
    ensures key !in FilesAfter(map[], events)
  {
    hide Patched;
    if events != [] {
      Untouched(events[..|events| - 1], key);
    }
  }

  /** The first version of page 34, in the files at the first seal. */
  lemma {:induction false} FirstVersions(n: nat, k: nat, c: nat)
    requires 36 <= n <= LOG_LEN && c < k <= n - 2
    ensures var files, key := FilesAfter(map[], Wrotes(Pages(n, 0), k)), Page1(Pages(n, 0)[c]);
            key in files && files[key] == Byte(1)
    decreases k
  {
    hide Pages, FilesAfter, Patched, Wrotes, ImagePage;
    var p := Pages(n, 0);
    PagesArranged(n, 0);
    OneKind(p, k - 1);
    OneMore(map[], Wrotes(p, k - 1), WroteTo(p[k - 1], 1));
    if c < k - 1 {
      FirstVersions(n, k - 1, c);
      assert p[c] != p[k - 1];
    } else {
      NotYet(n, k - 1);
      NoPage(FilesAfter(map[], Wrotes(p, k - 1)), Page1(p[c]));
    }
  }

  lemma {:induction false} NoPage(files: Image, key: Key)
    requires key !in files
    ensures ImagePage(files, key) == Zeros(4096)
  {
  }

  lemma {:induction false} NotYet(n: nat, k: nat)
    requires 36 <= n <= LOG_LEN && k < n - 2
    ensures Page1(Pages(n, 0)[k]) !in FilesAfter(map[], Wrotes(Pages(n, 0), k))
  {
    hide Pages, FilesAfter;
    var p := Pages(n, 0);
    PagesArranged(n, 0);
    forall i | 0 <= i < k
      ensures Wrotes(p, k)[i].key != Page1(p[k])
    {
      assert p[i] != p[k];
    }
    Untouched(Wrotes(p, k), Page1(p[k]));
  }

  /** From the write of page 31 on the files have the second version of page 34. */
  lemma {:induction false} SecondVersion(n: nat, k: nat)
    requires 36 <= n <= LOG_LEN && n + 1 <= k <= n + 2
    ensures var files := FilesAfter(map[], History(n)[..k]); Page1(34) in files && files[Page1(34)][0] == 2
  {
    hide Pages, FilesAfter, Wrotes, ImagePage;
    var a := Wrotes(Pages(n, 0), n - 2) + [Sealed];
    var b := a + [WroteTo(34, 2)];
    var c := b + [WroteTo(31, 1)];
    assert History(n)[..n + 1] == c && History(n)[..n + 2] == c + [Sealed];
    OneMore(map[], a, WroteTo(34, 2));
    OneMore(map[], b, WroteTo(31, 1));
    OneMore(map[], c, Sealed);
  }

  /** Before it they have no page 31. */
  lemma {:induction false} NoLastPage(n: nat, k: nat)
    requires 36 <= n <= LOG_LEN && k <= n
    ensures Page1(31) !in FilesAfter(map[], History(n)[..k])
  {
    hide Pages, FilesAfter;
    var p := Pages(n, 0);
    PagesArranged(n, 0);
    var events := History(n)[..k];
    forall i | 0 <= i < |events| && events[i].Wrote?
      ensures events[i].key != Page1(31)
    {
      if i < n - 2 {
        assert events[i] == WroteTo(p[i], 1) && p[i] != p[n - 1];
      }
    }
    Untouched(events, Page1(31));
  }

  /** A disk with page 31 and the first version of page 34 is none of the states the files were in. */
  lemma {:induction false} NeverWas(n: nat, disk: Image, k: nat)
    requires 36 <= n <= LOG_LEN && k <= |History(n)|
    requires Page1(31) in disk && Page1(34) in disk && disk[Page1(34)] == Byte(1)
    ensures disk != FilesAfter(map[], History(n)[..k])
  {
    hide FilesAfter, Pages;
    if k <= n {
      NoLastPage(n, k);
    } else {
      SecondVersion(n, k);
      assert Byte(1)[0] == 1;
    }
  }

  // ---------- the log after the run, and the flush ----------

  /** The log holds the writes of the run, in two sealed transactions. */
  ghost predicate Written(log: Log, n: nat)
    requires 36 <= n <= LOG_LEN
    reads log, log.entries, log.sorter
  {
    && log.Valid() && BooksFor(log) == LastBooks(n) && log.disk == map[] && log.file == FilesAfter(map[], History(n))
    && log.images == [FilesAfter(map[], FirstWrites(n)), log.file]
  }

  ghost function LastBooks(n: nat): Books
    requires 36 <= n <= LOG_LEN
  {
    Books(KindsTo(Pages(n, 0), n), PgisTo(Pages(n, 0), n), Ones(n), [0, n - 2, n], 0)
  }

  ghost function FirstWrites(n: nat): seq<Event>
    requires 36 <= n <= LOG_LEN
  {
    Wrotes(Pages(n, 0), n - 2)
  }

  lemma {:induction false} AfterRun(log: Log, n: nat)
    requires 36 <= n <= LOG_LEN && Agree(log, map[], TraceOf(Ops(n)))
    ensures Written(log, n)
  {
    hide TraceOf, FilesAfter, SealsOf, FlushedOf, Pages, KindsTo, PgisTo, Wrotes, Log.Valid, Ops;
    Closes(n);
    NoSeals(n, n - 2);
    var a := Wrotes(Pages(n, 0), n - 2);
    var b := a + [Sealed];
    var c := b + [WroteTo(34, 2)];
    var d := c + [WroteTo(31, 1)];
    OneMore(map[], a, Sealed);
    OneMore(map[], b, WroteTo(34, 2));
    OneMore(map[], c, WroteTo(31, 1));
    OneMore(map[], d, Sealed);
  }

  lemma {:induction false} NoSeals(n: nat, k: nat)
    requires 36 <= n <= LOG_LEN && k <= n - 2
    ensures var events := Wrotes(Pages(n, 0), k); FlushedOf(events) == 0 && SealsOf(map[], events) == []
  {
    hide Pages;
    if k > 0 {
      hide FilesAfter, Wrotes, FlushedOf, SealsOf;
      NoSeals(n, k - 1);
      OneKind(Pages(n, 0), k - 1);
      OneMore(map[], Wrotes(Pages(n, 0), k - 1), WroteTo(Pages(n, 0)[k - 1], 1));
    }
  }

  /** Its entries are the ones the sort overflows on. */
  lemma {:induction false} WrittenSpoils(log: Log, n: nat)
    requires 36 <= n <= LOG_LEN && Written(log, n)
    ensures log.entries.Length == LOG_LEN && |log.log| == n && Ring(log.entries[..], 0)[..n] == log.log
    ensures Spoiling(Ring(log.entries[..], 0), n) && Keyed(Ring(log.entries[..], 0), Pages(n, 0))
  {
    hide Pages, Spoiling, Ring, FilesAfter, Wrotes, Chain, Imaged, Below, Replay;
    ChainFacts(log.lBegin, log.lHead, log.lEnd, log.trans, log.begin, log.ends, |log.log|);
    var r, p := Ring(log.entries[..], 0), Pages(n, 0);
    assert |Kinds(log.log)| == n;
    forall j | 0 <= j < n
      ensures r[j].ino == 1 && r[j].pgi == PgiOf(p, j) && Data(r[j])
    {
      assert r[j] == r[..n][j] == log.log[j];
      EntryKeyed(log, n, j);
    }
    KeyedSpoils(r, n);
  }

  lemma {:induction false} EntryKeyed(log: Log, n: nat, j: nat)
    requires 36 <= n <= LOG_LEN && Written(log, n) && j < n
    ensures |log.log| == n && log.log[j].ino == 1 && log.log[j].pgi == PgiOf(Pages(n, 0), j) && Data(log.log[j])
            && KeyOf(log.log[j]) == Page1(Pages(n, 0)[j])
  {
    hide Pages, Ring, FilesAfter, Wrotes, Chain, Imaged, Below, Replay;
    assert |Kinds(log.log)| == n;
    assert Kinds(log.log)[j] == KindsTo(Pages(n, 0), n)[j] && Pgis(log.log)[j] == PgisTo(Pages(n, 0), n)[j];
    assert EntryOk(log.Now(), log.Pend(), j);
  }

  /** The page of the old version holds what the first seal had of page 34. */
  lemma {:induction false} StaleByte(log: Log, n: nat)
    requires 36 <= n <= LOG_LEN && Written(log, n)
    ensures log.entries.Length == LOG_LEN
    ensures var r := Ring(log.entries[..], 0);
            Spoiling(r, n) && KeyOf(r[n - 2]) == Page1(34) && PageOf(log.content, Stale(r, n).page) == Byte(1)
  {
    hide Pages, Spoiling, Ring, FilesAfter, Wrotes, Log.Valid, Replay, Stale, PageOf, KeyOf, Data, Byte, Keyed;
    WrittenSpoils(log, n);
    var r, p := Ring(log.entries[..], 0), Pages(n, 0);
    PagesArranged(n, 0);
    StaleKey(r, n);
    var c := StaleFrom(r, n);
    forall j | 0 <= j < n
      ensures r[j] == log.log[j] && Data(r[j]) && KeyOf(r[j]) == Page1(p[j])
    {
      assert r[j] == r[..n][j];
      EntryKeyed(log, n, j);
    }
    FirstSeal(log, n, r);
    ReplayHits(log.disk, r[..n - 2], log.content, n - 2, c);
    FirstVersions(n, n - 2, c);
  }

  lemma {:induction false} StaleFrom(r: seq<Entry>, n: nat) returns (c: nat)
    requires Spoiling(r, n)
    ensures 36 <= n <= |r| && c < n - 2 && r[c] == Stale(r, n)
  {
    hide LeastInMiddle, TailLow, Data, Rounds, KeyOf, SamePage;
    StaleKey(r, n);
    RoundsKeep(r, 0, n);
    c := RoundsFrom(r, 0, n, 32);
  }

  lemma {:induction false} FirstSeal(log: Log, n: nat, r: seq<Entry>)
    requires 36 <= n <= LOG_LEN && Written(log, n) && |log.log| == n <= |r| && r[..n] == log.log
    ensures Replay(log.disk, r[..n - 2], log.content, n - 2) == FilesAfter(map[], Wrotes(Pages(n, 0), n - 2))
  {
    hide Pages, Ring, FilesAfter, Wrotes, Replay, Chain, Ok, Below, Imaged, Kinds, Pgis, KindsTo, PgisTo;
    assert r[..n - 2] == r[..n][..n - 2] == log.log[..n - 2];
    SealedImage(log.Now(), log.ends, log.images, 1, n - 2, r);
  }

  /** From a new log and an empty disk, n writes that fit all along, and a flush: the files are right, but the disk is
      not what they were at the last seal, nor at any other moment of the run. */
  method Spoil(n: nat) returns (log: Log)
    requires 36 <= n <= LOG_LEN
    ensures TraceOf(Ops(n)).events == History(n) && log.file == FilesAfter(map[], History(n))
    ensures forall k | 0 <= k <= |History(n)| :: log.disk != FilesAfter(map[], History(n)[..k])
    ensures !Durable(log.disk, map[], History(n) + [AdaRun.Flushed(2)])
  {
    hide TraceOf, Pages, FilesAfter, History, Agree, Written, Ops, AllFit, Fits, Log.Valid, Spoiling, Stale, Durable,
         Log.CanWalk, Log.GetsThrough, Log.LeftBySort, Tailed, Rounds, Submitted, Apply, Passed, PageOf, Ring, CanDo,
         Byte, DataPages, Walkable;
    var done, before;
    log, done, before := Run(map[], Ops(n));
    Closes(n);
    FitsAll(Ops(n), done);
    AfterRun(log, n);
    Ready(log, n);
    var ret, sorted, handed := log.Flush(2, _ => false);
    ghost var disk := log.disk;
    forall k | 0 <= k <= |History(n)|
      ensures disk != FilesAfter(map[], History(n)[..k])
    {
      NeverWas(n, disk, k);
    }
    NotDurable(n, disk);
  }

  lemma {:induction false} FitsAll(ops: seq<Op>, done: nat)
    requires AllFit(ops) && done <= |ops| && (done < |ops| ==> !Fits(TraceOf(ops[..done]), ops[done]))
    ensures done == |ops| && ops[..done] == ops
  {
  }

  /** The flush of such a log can be walked, and puts the old version of page 34 next to page 31. */
  lemma {:induction false} Ready(log: Log, n: nat)
    requires 36 <= n <= LOG_LEN && Written(log, n)
    ensures log.Valid() && log.entries.Length == LOG_LEN && |log.trans| > 0 && log.Taken(2) == 2 < |log.trans|
            && log.CanWalk(2) && !log.GetsThrough(2)
    ensures var w := log.LeftBySort(2);
            var disk := Apply(log.disk, Passed(Submitted(w, 0, |w|), _ => false), log.content);
            Page1(31) in disk && Page1(34) in disk && disk[Page1(34)] == Byte(1)
  {
    hide Pages, FilesAfter, Spoiling, Stale, Log.CanWalk, Log.GetsThrough, Log.LeftBySort, Tailed, Rounds, Submitted,
         Apply, Passed, PageOf, Ring, Byte, Walkable, Kinds, Pgis, KindsTo, PgisTo, KeyOf, Chain, Ok, Imaged, Below,
         Wrotes, Keyed, Data;
    ChainFacts(log.lBegin, log.lHead, log.lEnd, log.trans, log.begin, log.ends, |log.log|);
    WrittenSpoils(log, n);
    StaleByte(log, n);
    FlushSpoils(log, 2, n);
    var r := Ring(log.entries[..], 0);
    MergesStale(log.disk, r, n, log.content);
    PagesArranged(n, 0);
    EntryKeyed(log, n, n - 1);
    assert r[n - 1] == r[..n][n - 1] == log.log[n - 1];
    PassedAll(Submitted(log.LeftBySort(2), 0, n), _ => false);
  }

  lemma {:induction false} NotDurable(n: nat, disk: Image)
    requires 36 <= n <= LOG_LEN && forall k | 0 <= k <= |History(n)| :: disk != FilesAfter(map[], History(n)[..k])
    ensures !Durable(disk, map[], History(n) + [AdaRun.Flushed(2)])
  {
    hide Pages, FilesAfter, FlushedOf, SealsOf, Wrotes;
    var a := Wrotes(Pages(n, 0), n - 2);
    var b := a + [Sealed];
    var c := b + [WroteTo(34, 2)];
    var d := c + [WroteTo(31, 1)];
    NoSeals(n, n - 2);
    OneMore(map[], a, Sealed);
    OneMore(map[], b, WroteTo(34, 2));
    OneMore(map[], c, WroteTo(31, 1));
    OneMore(map[], d, Sealed);
    OneMore(map[], History(n), AdaRun.Flushed(2));
    assert History(n)[..n + 1] == d;
  }
}
