/** What log entries are about, and how far a flush moves l_begin, which depends on nothing else. */
module LogKinds {
  import opened Basics
  import opened LogEntry
  import opened MergeFlush
  import opened LogImage

  /** A page of a file, or the making of an inode. */
  datatype Kind = OfPage(key: Key) | OfInode(made: u64) {
    function Ino(): u64 { if OfPage? then key.ino else made }
  }

  function KindOf(e: Entry): Kind { if e.Meta() then OfInode(e.ino) else OfPage(KeyOf(e)) }

  function Kinds(log: seq<Entry>): (kinds: seq<Kind>)
    ensures |kinds| == |log|
  {
    seq(|log|, i requires 0 <= i < |log| => KindOf(log[i]))
  }

  /** The greatest inode number with a page among the kinds, or -1. */
  function TopPage(kinds: seq<Kind>): int {
    if kinds == [] then -1
    else
      var top, k := TopPage(kinds[..|kinds| - 1]), kinds[|kinds| - 1];
      if k.OfPage? && k.Ino() > top then k.Ino() else top
  }

  /** How many are of inodes up to `top`. */
  function CountUpTo(kinds: seq<Kind>, top: int): (n: nat)
    ensures n <= |kinds|
  {
    if kinds == [] then 0
    else CountUpTo(kinds[..|kinds| - 1], top) + if kinds[|kinds| - 1].Ino() <= top then 1 else 0
  }

  /** Where l_begin is after a flush of the entries `taken`, the first of which has sequence number `first`: past
      those of inodes up to the last one with a page; with no page among them it stays. */
  function BeginAfter(begin: nat, first: nat, taken: seq<Kind>): nat {
    if TopPage(taken) < 0 then begin else first + CountUpTo(taken, TopPage(taken))
  }

  // ---------- why ----------

  lemma {:induction false} TopPageIs(kinds: seq<Kind>, top: int)
    requires forall k | k in kinds && k.OfPage? :: k.Ino() <= top
    requires if top == -1 then forall k | k in kinds :: k.OfInode?
             else exists k :: k in kinds && k.OfPage? && k.Ino() == top
    ensures TopPage(kinds) == top
  {
    TopPageBounds(kinds);
  }

  lemma {:induction false} TopPageBounds(kinds: seq<Kind>)
    ensures forall k | k in kinds && k.OfPage? :: k.Ino() <= TopPage(kinds)
    ensures TopPage(kinds) == -1 || exists k :: k in kinds && k.OfPage? && k.Ino() == TopPage(kinds)
  {
    if kinds != [] {
      TopPageBounds(kinds[..|kinds| - 1]);
      assert kinds == kinds[..|kinds| - 1] + [kinds[|kinds| - 1]];
    }
  }

  /** The count over entries. */
  function EntriesUpTo(log: seq<Entry>, top: int): nat {
    if log == [] then 0 else EntriesUpTo(log[..|log| - 1], top) + if log[|log| - 1].ino <= top then 1 else 0
  }

  lemma {:induction false} CountKinds(log: seq<Entry>, top: int)
    ensures CountUpTo(Kinds(log), top) == EntriesUpTo(log, top)
  {
    if log != [] {
      var n := |log| - 1;
      assert Kinds(log)[..n] == Kinds(log[..n]);
      CountKinds(log[..n], top);
    }
  }

  lemma {:induction false} CountConcat(a: seq<Entry>, b: seq<Entry>, top: int)
    ensures EntriesUpTo(a + b, top) == EntriesUpTo(a, top) + EntriesUpTo(b, top)
  {
    if b == [] {
      assert a + b == a;
    } else {
      var n := |b| - 1;
      assert (a + b)[..|a + b| - 1] == a + b[..n];
      CountConcat(a, b[..n], top);
    }
  }

  lemma {:induction false} CountSame(a: seq<Entry>, b: seq<Entry>, top: int)
    requires multiset(a) == multiset(b)
    ensures EntriesUpTo(a, top) == EntriesUpTo(b, top)
  {
    hide EntriesUpTo;
    if a == [] {
      assert |multiset(b)| == 0;
    } else {
      var n := |a| - 1;
      assert a[n] in multiset(b);
      var i :| 0 <= i < |b| && b[i] == a[n];
      CountWithout(a, n, top);
      CountWithout(b, i, top);
      assert a[..n] + a[n + 1..] == a[..n];
      CountSame(a[..n], b[..i] + b[i + 1..], top);
    }
  }

  lemma {:induction false} CountWithout(a: seq<Entry>, i: nat, top: int)
    requires i < |a|
    ensures EntriesUpTo(a, top) == EntriesUpTo(a[..i] + a[i + 1..], top) + if a[i].ino <= top then 1 else 0
    ensures multiset(a[..i] + a[i + 1..]) == multiset(a) - multiset{a[i]}
  {
    hide EntriesUpTo;
    assert a == a[..i] + [a[i]] + a[i + 1..];
    CountConcat(a[..i] + [a[i]], a[i + 1..], top);
    CountConcat(a[..i], [a[i]], top);
    CountConcat(a[..i], a[i + 1..], top);
    CountOne(a[i], top);
  }

  lemma {:induction false} CountOne(e: Entry, top: int)
    ensures EntriesUpTo([e], top) == if e.ino <= top then 1 else 0
  {
    assert [e][..0] == [];
  }

  /** In a sorted stretch the entries up to the inode of the last data entry are those up to that entry. */
  lemma {:induction false} CountSorted(w: seq<Entry>, kl: nat, n: nat)
    requires InOrder(w) && WellFormed(w) && 0 < kl <= n <= |w| && Data(w[kl - 1]) && forall j | kl <= j < |w| ::
             !Data(w[j])
    ensures EntriesUpTo(w[..n], w[kl - 1].ino) == kl
    decreases n
  {
    if n == kl {
      AllBelow(w, kl, kl);
    } else {
      assert w[..n][..n - 1] == w[..n - 1];
      AfterLast(w, kl, n - 1);
      CountSorted(w, kl, n - 1);
    }
  }

  lemma {:induction false} AllBelow(w: seq<Entry>, kl: nat, n: nat)
    requires InOrder(w) && n <= kl <= |w| && kl > 0
    ensures EntriesUpTo(w[..n], w[kl - 1].ino) == n
  {
    if n > 0 {
      assert w[..n][..n - 1] == w[..n - 1];
      assert n < kl ==> AtMost(w[n - 1], w[kl - 1]);
      AllBelow(w, kl, n - 1);
    }
  }

  lemma {:induction false} AfterLast(w: seq<Entry>, kl: nat, j: nat)
    requires InOrder(w) && WellFormed(w) && 0 < kl <= j < |w| && Data(w[kl - 1]) && !Data(w[j])
    ensures w[j].ino > w[kl - 1].ino
  {
    assert AtMost(w[kl - 1], w[j]);
    assert w[kl - 1].Version() >= 1;
  }

  /** So what the merge reports of a sorted stretch is what BeginAfter says of the log. */
  lemma {:induction false} BeginIs(log: seq<Entry>, w: seq<Entry>, kl: nat, begin: nat, first: nat)
    requires Reordered(log, w) && InOrder(w) && WellFormed(w) && kl <= |w| && (kl > 0 ==> Data(w[kl - 1]))
    requires forall k | 0 <= k < |log| :: log[k].Valid()
    requires forall j | kl <= j < |w| :: !Data(w[j])
    ensures BeginAfter(begin, first, Kinds(log)) == if kl == 0 then begin else first + kl
  {
    hide InOrder, WellFormed, Entry.Meta;
    var kinds := Kinds(log);
    var top: int := if kl == 0 then -1 else w[kl - 1].ino;
    forall k | k in kinds && k.OfPage?
      ensures 0 < kl && k.Ino() <= top
    {
      var i :| 0 <= i < |kinds| && kinds[i] == k;
      assert log[i] in log;
      var j :| 0 <= j < |w| && w[j] == log[i];
      assert Data(w[j]);
      NotAfter(w, j, kl);
    }
    if kl > 0 {
      assert w[kl - 1] in w;
      var i :| 0 <= i < |log| && log[i] == w[kl - 1];
      assert kinds[i] in kinds && kinds[i].OfPage?;
      CountKinds(log, top);
      CountSame(log, w, top);
      assert w[..|w|] == w;
      CountSorted(w, kl, |w|);
    }
    TopPageIs(kinds, top);
  }

  lemma {:induction false} NotAfter(w: seq<Entry>, j: nat, kl: nat)
    requires InOrder(w) && j < |w| && Data(w[j]) && kl <= |w| && forall i | kl <= i < |w| :: !Data(w[i])
    ensures j < kl && w[j].ino <= w[kl - 1].ino
  {
    assert j < kl - 1 ==> AtMost(w[j], w[kl - 1]);
  }

  // ---------- entries that keep their kind ----------

  lemma {:induction false} KindsSlice(log: seq<Entry>, n: nat)
    requires n <= |log|
    ensures Kinds(log)[..n] == Kinds(log[..n]) && Kinds(log)[n..] == Kinds(log[n..])
  {
  }

  lemma {:induction false} KindsMore(log: seq<Entry>, e: Entry)
    ensures Kinds(log + [e]) == Kinds(log) + [KindOf(e)]
  {
  }

  lemma {:induction false} KindsKept(log: seq<Entry>, k: nat, e: Entry)
    requires k < |log| && KindOf(e) == KindOf(log[k])
    ensures Kinds(log[k := e]) == Kinds(log)
  {
  }

  // ---------- page keys ----------

  function Pgis(log: seq<Entry>): (pgis: seq<int>)
    ensures |pgis| == |log|
  {
    seq(|log|, i requires 0 <= i < |log| => log[i].pgi)
  }

  lemma {:induction false} PgisKept(log: seq<Entry>, k: nat, e: Entry)
    requires k < |log| && e.pgi == log[k].pgi
    ensures Pgis(log[k := e]) == Pgis(log)
  {
  }

  lemma {:induction false} PgisSlice(log: seq<Entry>, n: nat)
    requires n <= |log|
    ensures Pgis(log)[n..] == Pgis(log[n..])
  {
  }

  lemma {:induction false} PgisMore(log: seq<Entry>, e: Entry)
    ensures Pgis(log + [e]) == Pgis(log) + [e.pgi]
  {
  }

  /** The page key of the last entry about a page of a file; without one, that of version 0. */
  function LastPgi(kinds: seq<Kind>, pgis: seq<int>, key: Key): int
    requires |kinds| == |pgis|
  {
    if kinds == [] then key.index * 256
    else
      var n := |kinds| - 1;
      if kinds[n] == OfPage(key) then pgis[n] else LastPgi(kinds[..n], pgis[..n], key)
  }

  lemma {:induction false} LastPgiNone(kinds: seq<Kind>, pgis: seq<int>, key: Key)
    requires |kinds| == |pgis| && forall j | 0 <= j < |kinds| :: kinds[j] != OfPage(key)
    ensures LastPgi(kinds, pgis, key) == key.index * 256
  {
    if kinds != [] {
      LastPgiNone(kinds[..|kinds| - 1], pgis[..|kinds| - 1], key);
    }
  }

  lemma {:induction false} LastPgiAt(kinds: seq<Kind>, pgis: seq<int>, key: Key, k: nat)
    requires k < |kinds| == |pgis| && kinds[k] == OfPage(key) && forall j | k < j < |kinds| :: kinds[j] != OfPage(key)
    ensures LastPgi(kinds, pgis, key) == pgis[k]
  {
    if k < |kinds| - 1 {
      LastPgiAt(kinds[..|kinds| - 1], pgis[..|kinds| - 1], key, k);
    }
  }

  // ---------- lengths ----------

  function Lens(log: seq<Entry>): (lens: seq<int>)
    ensures |lens| == |log|
  {
    seq(|log|, i requires 0 <= i < |log| => log[i].Length())
  }

  lemma {:induction false} LensSet(log: seq<Entry>, k: nat, e: Entry)
    requires k < |log|
    ensures Lens(log[k := e]) == Lens(log)[k := e.Length()]
  {
  }

  lemma {:induction false} LensSlice(log: seq<Entry>, n: nat)
    requires n <= |log|
    ensures Lens(log)[..n] == Lens(log[..n]) && Lens(log)[n..] == Lens(log[n..])
  {
  }

  lemma {:induction false} LensMore(log: seq<Entry>, e: Entry)
    ensures Lens(log + [e]) == Lens(log) + [e.Length()]
  {
  }

  /** Where the last entry about a page is, or -1. */
  function LastAt(kinds: seq<Kind>, key: Key): (k: int)
    ensures -1 <= k < |kinds| && (k >= 0 ==> kinds[k] == OfPage(key))
    ensures forall j | k < j < |kinds| :: kinds[j] != OfPage(key)
  {
    if kinds == [] then -1
    else if kinds[|kinds| - 1] == OfPage(key) then |kinds| - 1
    else LastAt(kinds[..|kinds| - 1], key)
  }
}
