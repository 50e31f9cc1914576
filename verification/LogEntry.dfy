/** Log entries: the packed fields of struct log_entry, sequence numbers, and the comparison the flusher
    sorts by. */
module LogEntry {
  import opened Basics

  const LOG_LEN: int := 32768
  const L_NULL: u32 := 0xFFFF_FFFF
  const INVAL_INO: u64 := 0xFFFF_FFFF_FFFF_FFFF

  /** le_pgi holds the page index above 8 bits of version, le_flags the flags above 16 bits of length; `page`
      stands for the pointer le_ref. */
  datatype Entry = Entry(ino: u64, pgi: u64, flags: u64, page: nat) {
    predicate Valid() { ino != INVAL_INO }
    function PageIndex(): u64 { pgi / 256 }
    function Version(): int { pgi % 256 }
    function Length(): int { flags % 0x1_0000 }
    predicate Meta() { flags / 0x1_0000 % 2 == 1 }
    predicate Cow() { flags / 0x2_0000 % 2 == 1 }

    /** le_init_pgi: version 1. */
    function InitPage(index: u64): Entry { this.(pgi := (index * 256 + 1) % 0x1_0000_0000_0000_0000) }

    /** le_set_ver */
    function SetVersion(v: nat): Entry { this.(pgi := (pgi + v - Version()) % 0x1_0000_0000_0000_0000) }

    /** le_set_len */
    function SetLength(l: nat): Entry { this.(flags := (flags - Length() + l) % 0x1_0000_0000_0000_0000) }

    function SetCow(): Entry {
      if Cow() then this else this.(flags := (flags + 0x2_0000) % 0x1_0000_0000_0000_0000)
    }

    function Invalidated(): Entry { this.(ino := INVAL_INO) }
  }

  // ---------- packed fields ----------

  /** A version that fits its 8 bits lands next to an intact page index. */
  lemma {:induction false} VersionFits(e: Entry, index: u64, v: nat)
    requires index < 0x100_0000_0000_0000 && v < 256
    ensures var f := e.InitPage(index).SetVersion(v);
            f.PageIndex() == index && f.Version() == v && f.pgi == index * 256 + v
  {
    FirstVersion(e, index);
    Split256(index, v);
  }

  lemma {:induction false} FirstVersion(e: Entry, index: u64)
    requires index < 0x100_0000_0000_0000
    ensures e.InitPage(index).pgi == index * 256 + 1 && e.InitPage(index).Version() == 1
  {
    Split256(index, 1);
  }

  lemma {:induction false} Split256(q: int, r: int)
    requires 0 <= r < 256
    ensures (q * 256 + r) / 256 == q && (q * 256 + r) % 256 == r
  {
  }

  /** The version after 255 turns into version 0 of the next page: le_set_ver keeps the page exactly as long as
      the version fits. */
  lemma {:induction false} VersionOverflow(e: Entry, index: u64, v: nat)
    requires index < 0xFF_FFFF_FFFF_FFFF && v <= 256
    ensures e.InitPage(index).SetVersion(v).PageIndex() == index <==> v < 256
    ensures v == 256 ==> e.InitPage(index).SetVersion(v).PageIndex() == index + 1
  {
    FirstVersion(e, index);
    if v < 256 {
      Split256(index, v);
    } else {
      Split256(index + 1, 0);
    }
  }

  /** Setting the length touches neither flag. */
  lemma {:induction false} LengthFits(e: Entry, l: nat)
    requires l < 0x1_0000
    ensures e.SetLength(l).Length() == l && (e.SetLength(l).Meta() <==> e.Meta()) && (e.SetLength(l).Cow() <==> e.Cow())
  {
    var q := e.flags / 0x1_0000;
    assert e.SetLength(l).flags / 0x1_0000 == q;
    assert e.flags / 0x2_0000 == q / 2 && e.SetLength(l).flags / 0x2_0000 == q / 2;
  }

  // ---------- C integers ----------

  /** The value of an unsigned int converted to int. */
  function Signed(x: u32): int { if x >= 0x8000_0000 then x - 0x1_0000_0000 else x }

  /** Anything converted to unsigned int. */
  function Unsigned(x: int): u32 { x % 0x1_0000_0000 }

  /** Anything truncated to int. */
  function Truncated(x: int): int { Signed(Unsigned(x)) }

  // ---------- sequence numbers ----------

  predicate SeqLess(a: u32, b: u32) { Truncated(a - b) < 0 }
  predicate SeqNotGreater(a: u32, b: u32) { Truncated(a - b) <= 0 }
  function SeqDist(a: u32, b: u32): u32 { Unsigned(b - a) }

  /** On numbers less than 2^31 apart the wrapped comparisons order the unbounded ones. */
  lemma {:induction false} SeqOrder(a: nat, b: nat)
    requires -0x8000_0000 < a - b < 0x8000_0000
    ensures SeqLess(Unsigned(a), Unsigned(b)) <==> a < b
    ensures SeqNotGreater(Unsigned(a), Unsigned(b)) <==> a <= b
    ensures a <= b ==> SeqDist(Unsigned(a), Unsigned(b)) == b - a
  {
    WrappedDifference(a, b);
    WrappedDifference(b, a);
  }

  lemma {:induction false} WrappedDifference(a: int, b: int)
    ensures Unsigned(Unsigned(a) - Unsigned(b)) == Unsigned(a - b)
  {
    var k := a / 0x1_0000_0000 - b / 0x1_0000_0000;
    assert a - b == Unsigned(a) - Unsigned(b) + 0x1_0000_0000 * k;
    WrappedMultiple(Unsigned(a) - Unsigned(b), k);
  }

  lemma {:induction false} EndIndex(begin: u32, end: u32)
    ensures Unsigned(begin + SeqDist(begin, end)) == end
  {
  }

  lemma {:induction false} NextIndex(x: int)
    ensures Unsigned(Unsigned(x) + 1) == Unsigned(x + 1)
  {
    var q := x / 0x1_0000_0000;
    assert x + 1 == Unsigned(x) + 1 + 0x1_0000_0000 * q;
    WrappedMultiple(Unsigned(x) + 1, q);
  }

  lemma {:induction false} WrappedMultiple(x: int, k: int)
    ensures Unsigned(x + 0x1_0000_0000 * k) == Unsigned(x)
  {
  }

  // ---------- the order of entries ----------

  /** le_cmp: the difference of two le_pgi is truncated to int. */
  function Compare(a: Entry, b: Entry): int {
    if a.ino < b.ino then -1
    else if a.ino == b.ino then Truncated(a.pgi - b.pgi)
    else 1
  }

  /** The intended order: inode, then page, then version. */
  predicate AtMost(a: Entry, b: Entry) {
    a.ino < b.ino || (a.ino == b.ino && a.pgi <= b.pgi)
  }

  /** le_cmp agrees with the intended order on two entries. */
  predicate Agrees(a: Entry, b: Entry) {
    (Compare(a, b) <= 0 <==> AtMost(a, b)) && (Compare(a, b) >= 0 <==> AtMost(b, a))
  }

  /** Exactly when it does: the difference must survive the truncation with its sign. */
  lemma {:induction false} AgreesExactly(a: Entry, b: Entry)
    ensures Agrees(a, b) <==>
              a.ino != b.ino || a.pgi == b.pgi
              || (a.pgi > b.pgi && 0 < (a.pgi - b.pgi) % 0x1_0000_0000 < 0x8000_0000)
              || (a.pgi < b.pgi && 0x8000_0000 <= (a.pgi - b.pgi) % 0x1_0000_0000)
  {
  }

  /** In particular page keys of one inode less than 2^31 apart. */
  lemma {:induction false} NearKeysAgree(a: Entry, b: Entry)
    requires a.ino == b.ino ==> -0x8000_0000 < a.pgi - b.pgi < 0x8000_0000
    ensures Agrees(a, b)
  {
  }

  /** But not in general: two pages of one file 2^23 pages apart compare the wrong way round. */
  lemma {:induction false} FarKeysDisagree(e: Entry)
    ensures var a, b := e.InitPage(0), e.InitPage(0x80_0000);
            AtMost(a, b) && a != b && Compare(b, a) < 0 && !Agrees(b, a)
  {
  }
}
