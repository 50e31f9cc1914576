/** check_leaf of disk-io.c, the test every leaf read from disk goes through, and its relation to the
    representation the edits keep. */
module CheckLeaf {
  import opened Basics
  import opened Regions
  import opened LeafFormat
  import opened LeafEdit
  import opened LeafHeaders

  /** btrfs_item_end: a 32-bit sum. */
  function EndAt(s: seq<byte>, i: nat): u32
    requires 25 * i + 25 <= |s|
  {
    (OffsetAt(s, i) + SizeAt(s, i)) % 0x1_0000_0000
  }

  predicate SortedKeys(items: seq<Item>) {
    forall i | 0 < i < |items| :: KeyLess(items[i - 1].key, items[i].key)
  }

  /** What check_leaf compares between slots i and i + 1. */
  predicate LinkOk(s: seq<byte>, i: nat)
    requires 25 * i + 50 <= |s|
  {
    && KeyLess(KeyAt(s, i), KeyAt(s, i + 1))
    && OffsetAt(s, i) == EndAt(s, i + 1)
    && EndAt(s, i) <= |s|
  }

  /** check_leaf accepts a leaf of n items. */
  predicate Accepted(s: seq<byte>, n: nat)
    requires 25 * n <= |s|
  {
    n == 0 || (EndAt(s, 0) == |s| && forall i | 0 <= i < n - 1 :: LinkOk(s, i))
  }

  method Check(buf: array<byte>, nritems: nat) returns (ok: bool)
    requires 25 * nritems <= buf.Length
    ensures ok <==> Accepted(buf[..], nritems)
  {
    hide KeyAt, OffsetAt, SizeAt, CompareKeys;
    if nritems == 0 {
      return true;
    }
    if (OffsetAt(buf[..], 0) + SizeAt(buf[..], 0)) % 0x1_0000_0000 != buf.Length {
      return false;
    }
    var slot := 0;
    while slot < nritems - 1
      invariant 0 <= slot <= nritems - 1
      invariant forall i | 0 <= i < slot :: LinkOk(buf[..], i)
    {
      var leafKey, key := KeyAt(buf[..], slot), KeyAt(buf[..], slot + 1);
      if CompareKeys(leafKey, key) >= 0 {
        assert !LinkOk(buf[..], slot);
        return false;
      }
      if OffsetAt(buf[..], slot) != EndAt(buf[..], slot + 1) {
        assert !LinkOk(buf[..], slot);
        return false;
      }
      if EndAt(buf[..], slot) > buf.Length {
        assert !LinkOk(buf[..], slot);
        return false;
      }
      slot := slot + 1;
    }
    return true;
  }

  /** The headers do not run into the data, and no item's end wraps around 32 bits: what check_leaf does
      not look at. */
  predicate Inside(s: seq<byte>, n: nat)
    requires 25 * n <= |s|
  {
    && (n > 0 ==> 25 * n <= OffsetAt(s, n - 1))
    && forall i | 0 <= i < n :: OffsetAt(s, i) + SizeAt(s, i) <= |s|
  }

  /** Every represented list with ascending keys passes check_leaf, and its items are inside the leaf. */
  lemma {:induction false} RepAccepted(s: seq<byte>, items: seq<Item>)
    requires Rep(s, items) && SortedKeys(items)
    ensures 25 * |items| <= |s| && Accepted(s, |items|) && Inside(s, |items|)
  {
    hide At, DataLength, OffsetAt, SizeAt, KeyAt, HeadersAt, DataAt, CompareKeys;
    var n := |items|;
    NoLength();
    forall i | 0 <= i < n
      ensures 25 * i + 25 <= |s| && OffsetAt(s, i) + SizeAt(s, i) <= |s| && EndAt(s, i) <= |s|
    {
      RepReads(s, items, i);
    }
    if n > 0 {
      RepReads(s, items, 0);
      assert items[..0] == [];
      RepReads(s, items, n - 1);
      LengthLast(items);
    }
    forall i | 0 <= i < n - 1
      ensures LinkOk(s, i)
    {
      RepReads(s, items, i);
      RepReads(s, items, i + 1);
      assert items[..i + 1][..i] == items[..i];
      LengthLast(items[..i + 1]);
      assert KeyLess(items[i + 1 - 1].key, items[i + 1].key);
    }
  }

  /** The list a buffer that passes the test stands for. */
  ghost function ItemsOf(s: seq<byte>, n: nat): (items: seq<Item>)
    requires 25 * n <= |s| && Inside(s, n)
    ensures |items| == n
  {
    seq(n, i requires 0 <= i < n => Item(KeyAt(s, i), s[OffsetAt(s, i)..OffsetAt(s, i) + SizeAt(s, i)]))
  }

  /** The converse: a leaf that check_leaf accepts and whose items are inside is a represented list with
      ascending keys. */
  lemma {:induction false} AcceptedRep(s: seq<byte>, n: nat)
    requires 25 * n <= |s| < 0x8000_0000 && Accepted(s, n) && Inside(s, n)
    ensures Rep(s, ItemsOf(s, n)) && SortedKeys(ItemsOf(s, n))
  {
    hide HeadersAt, DataAt, DataLength, OffsetAt, SizeAt, KeyAt, Accepted, Inside, ItemsOf, SortedKeys;
    var items := ItemsOf(s, n);
    AcceptedKeys(s, n);
    AcceptedPrefix(s, n, n);
    assert items[..n] == items;
    AboveHeaders(s, n);
  }

  lemma {:induction false} AcceptedKeys(s: seq<byte>, n: nat)
    requires 25 * n <= |s| && Accepted(s, n) && Inside(s, n)
    ensures SortedKeys(ItemsOf(s, n))
  {
    hide OffsetAt, SizeAt, KeyAt, CompareKeys;
    var items := ItemsOf(s, n);
    forall i | 0 < i < n
      ensures KeyLess(items[i - 1].key, items[i].key)
    {
      assert LinkOk(s, i - 1);
    }
  }

  lemma {:induction false} AboveHeaders(s: seq<byte>, n: nat)
    requires 25 * n <= |s| && Inside(s, n)
    ensures 25 * n <= if n == 0 then |s| else OffsetAt(s, n - 1)
  {
  }

  lemma {:induction false} AcceptedPrefix(s: seq<byte>, n: nat, k: nat)
    requires 25 * n <= |s| < 0x8000_0000 && Accepted(s, n) && Inside(s, n) && k <= n
    ensures var items := ItemsOf(s, n)[..k];
            && HeadersAt(s, 0, items, |s|) && DataAt(s, items, |s|)
            && |s| - DataLength(items) == if k == 0 then |s| else OffsetAt(s, k - 1)
  {
    hide At, OffsetAt, SizeAt, KeyAt, Table, Layout, DataLength, CompareKeys, ToLittleEndian, KeyBytes;
    var all := ItemsOf(s, n);
    if k == 0 {
      NoHeaders(s, 0, |s|);
      EmptyAt(s, |s|);
    } else {
      AcceptedPrefix(s, n, k - 1);
      var a, x := all[..k - 1], all[k - 1];
      assert all[..k] == a + [x];
      assert k > 1 ==> LinkOk(s, k - 2);
      assert OffsetAt(s, k - 1) + SizeAt(s, k - 1) == |s| - DataLength(a);
      HeaderWrites(s, k - 1, x);
      OneHeader(s, k - 1, x, |s| - DataLength(a));
      HeadersLast(s, 0, a, x, |s|);
      SliceAt(s, OffsetAt(s, k - 1), OffsetAt(s, k - 1) + SizeAt(s, k - 1));
      LengthOne(x);
      DataSplit(s, a, [x], |s|);
    }
  }

  /** The header bytes are the encoding of what the accessors read. */
  lemma {:induction false} HeaderWrites(s: seq<byte>, i: nat, x: Item)
    requires 25 * i + 25 <= |s| && KeyAt(s, i) == x.key && SizeAt(s, i) == |x.data|
    ensures At(s, 25 * i, KeyBytes(x.key))
    ensures At(s, 25 * i + 17, ToLittleEndian(OffsetAt(s, i), 4))
    ensures At(s, 25 * i + 21, ToLittleEndian(|x.data|, 4))
  {
    hide At, ToLittleEndian, FromLittleEndian;
    var o := 25 * i;
    SliceAt(s, o, o + 8);
    SliceAt(s, o + 8, o + 9);
    SliceAt(s, o + 9, o + 17);
    SliceAt(s, o + 17, o + 21);
    SliceAt(s, o + 21, o + 25);
    LittleEndianInverse(s[o..o + 8]);
    LittleEndianInverse(s[o + 9..o + 17]);
    LittleEndianInverse(s[o + 17..o + 21]);
    LittleEndianInverse(s[o + 21..o + 25]);
    assert s[o + 8..o + 9] == [x.key.kind];
    AtJoin(s, o + 8, [x.key.kind], ToLittleEndian(x.key.offset, 8));
    AtJoin(s, o, ToLittleEndian(x.key.objectid, 8), [x.key.kind] + ToLittleEndian(x.key.offset, 8));
  }

  lemma {:induction false} LittleEndianInverse(s: seq<byte>)
    ensures ToLittleEndian(FromLittleEndian(s), |s|) == s
  {
    hide FromLittleEndian, ToLittleEndian;
    if s == [] {
      NoDigits();
    } else {
      LittleEndianInverse(s[1..]);
      OneDigit(s[0], FromLittleEndian(s[1..]), |s| - 1);
      FirstDigit(s);
      assert s == [s[0]] + s[1..];
    }
  }

  lemma {:induction false} NoDigits()
    ensures ToLittleEndian(FromLittleEndian([]), 0) == []
  {
  }

  lemma {:induction false} OneDigit(b: byte, v: nat, w: nat)
    ensures ToLittleEndian(b + 256 * v, w + 1) == [b] + ToLittleEndian(v, w)
  {
    hide ToLittleEndian;
    assert (b + 256 * v) % 256 == b && (b + 256 * v) / 256 == v;
    Digits(b + 256 * v, w + 1);
  }

  lemma {:induction false} Digits(v: nat, w: nat)
    requires w > 0
    ensures ToLittleEndian(v, w) == [v % 256] + ToLittleEndian(v / 256, w - 1)
  {
  }

  lemma {:induction false} FirstDigit(s: seq<byte>)
    requires s != []
    ensures FromLittleEndian(s) == s[0] + 256 * FromLittleEndian(s[1..])
  {
  }

  /** check_leaf is exact up to what it does not look at. */
  lemma {:induction false} CheckExact(s: seq<byte>, n: nat)
    requires 25 * n <= |s| < 0x8000_0000
    ensures Accepted(s, n) && Inside(s, n) <==> exists items :: |items| == n && Rep(s, items) && SortedKeys(items)
  {
    hide Rep, SortedKeys, Accepted, Inside;
    if Accepted(s, n) && Inside(s, n) {
      AcceptedRep(s, n);
    }
    if items :| |items| == n && Rep(s, items) && SortedKeys(items) {
      RepAccepted(s, items);
    }
  }

  /** And both conditions are needed, whatever the leaf size.  A header whose offset and size wrap around passes
      check_leaf on a leaf that represents no item at all. */
  lemma {:induction false} CheckMissesWrap(s: seq<byte>, key: Key)
    requires 25 <= |s| < 0x8000_0000 && At(s, 0, HeaderBytes(Header(key, 0xFFFF_FFFF, |s| + 1)))
    ensures Accepted(s, 1) && !exists items :: |items| == 1 && Rep(s, items)
  {
    hide HeaderBytes, OffsetAt, SizeAt, KeyAt, Rep;
    HeaderReads(s, 0, Header(key, 0xFFFF_FFFF, |s| + 1));
    forall items | |items| == 1 && Rep(s, items)
      ensures false
    {
      RepReads(s, items, 0);
    }
  }

  /** So do two items in order whose data reaches down into their headers. */
  lemma {:induction false} CheckMissesOverlap(s: seq<byte>, first: Key, second: Key, offset: u32, low: u32)
    requires 50 <= |s| < 0x8000_0000 && low < 50 && low <= offset <= |s| && KeyLess(first, second)
    requires At(s, 0, HeaderBytes(Header(first, offset, |s| - offset)))
             && At(s, 25, HeaderBytes(Header(second, low, offset - low)))
    ensures Accepted(s, 2) && !exists items :: |items| == 2 && Rep(s, items)
  {
    hide HeaderBytes, OffsetAt, SizeAt, KeyAt, Rep, CompareKeys;
    HeaderReads(s, 0, Header(first, offset, |s| - offset));
    HeaderReads(s, 1, Header(second, low, offset - low));
    assert LinkOk(s, 0);
    forall items | |items| == 2 && Rep(s, items)
      ensures false
    {
      RepAbove(s, items);
    }
  }

  /** The last item of a represented list lies above the headers. */
  lemma {:induction false} RepAbove(s: seq<byte>, items: seq<Item>)
    requires Rep(s, items) && items != []
    ensures 25 * |items| <= |s| && 25 * |items| <= OffsetAt(s, |items| - 1)
  {
    hide At, DataLength, OffsetAt, SizeAt, KeyAt, HeadersAt, DataAt;
    RepReads(s, items, |items| - 1);
    LengthLast(items);
  }
}
