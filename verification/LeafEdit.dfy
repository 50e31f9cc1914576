/** The edits of one leaf in ctree.c, on the bytes.  Each method moves bytes and rewrites header fields in
    the order the C code does, and is proved to perform the corresponding edit of the item list. */
module LeafEdit {
  import opened Basics
  import opened Regions
  import opened LeafFormat
  import opened LeafHeaders

  const EXTENT_DATA_KEY: byte := 108
  const FILE_EXTENT_INLINE: byte := 0
  /** Offset of the type byte, and of disk_bytenr, in struct btrfs_file_extent_item. */
  const FILE_EXTENT_TYPE_AT: nat := 20
  const FILE_EXTENT_INLINE_START: nat := 21

  class Leaf {
    /** The BTRFS_LEAF_DATA_SIZE bytes after the block header. */
    const buf: array<byte>
    var nritems: nat
    /** The list the bytes stand for; `Rep` makes it a function of buf and nritems. */
    ghost var items: seq<Item>

    ghost predicate Valid()
      reads this, buf
    {
      nritems == |items| && Rep(buf[..], items)
    }

    /** A freshly allocated leaf block: no items, arbitrary bytes. */
    constructor (size: nat)
      requires size < 0x8000_0000
      ensures Valid() && items == [] && buf.Length == size && fresh(buf)
    {
      buf := new byte[size];
      nritems, items := 0, [];
      new;
      EmptyRep(buf[..]);
    }

    /** leaf_data_end: where the data stack stops. */
    method DataEnd() returns (end: nat)
      requires Valid()
      ensures end == buf.Length - DataLength(items)
    {
      if nritems == 0 {
        assert DataLength([]) == 0;
        end := buf.Length;
      } else {
        RepReads(buf[..], items, nritems - 1);
        LengthLast(items);
        end := OffsetAt(buf[..], nritems - 1);
      }
    }

    /** btrfs_item_end_nr */
    method ItemEnd(slot: nat) returns (end: nat)
      requires Valid() && slot < nritems
      ensures end == buf.Length - DataLength(items[..slot])
    {
      RepReads(buf[..], items, slot);
      end := OffsetAt(buf[..], slot) + SizeAt(buf[..], slot);
    }

    /** leaf_space_used: header and data bytes of `nr` items from `start` on. */
    method SpaceUsedBy(start: nat, nr: nat) returns (used: nat)
      requires Valid() && start + nr <= nritems
      ensures used == SpaceUsed(items[start..start + nr])
    {
      hide Rep, DataLength, OffsetAt, SizeAt;
      if nr == 0 {
        assert items[start..start] == [];
        NoLength();
        return 0;
      }
      SpanReads(buf[..], items, start, start + nr);
      var dataLen := OffsetAt(buf[..], start) + SizeAt(buf[..], start) - OffsetAt(buf[..], start + nr - 1);
      used := dataLen + 25 * nr;
    }

    /** btrfs_leaf_free_space */
    method FreeSpace() returns (free: nat)
      requires Valid()
      ensures free == buf.Length - SpaceUsed(items)
    {
      var used := SpaceUsedBy(0, nritems);
      assert items[0..nritems] == items;
      free := buf.Length - used;
    }

    /** The part of setup_items_for_insert that makes room: correct the data pointers of the items from
        `slot` on, shift their headers up by `nr` slots and their data down by `total` bytes. */
    method OpenGap(slot: nat, nr: nat, total: nat) returns (end: nat)
      requires Valid() && slot <= nritems
      requires SpaceUsed(items) + 25 * nr + total <= buf.Length
      modifies buf
      ensures end == buf.Length - DataLength(items[..slot])
      ensures Gapped(buf[..], items[..slot], items[slot..], nr, total)
    {
      hide Rep, HeadersAt, DataAt, DataLength, At, Moved, SameOutside;
      ghost var a, b := items[..slot], items[slot..];
      assert items == a + b;
      LengthConcat(a, b);
      GapBefore(buf[..], a, b);
      var n := nritems;
      var dataEnd := DataEnd();
      if slot == n {
        assert b == [] && a == items;
        GapAtEnd(buf[..], a, nr, total);
        return dataEnd;
      }
      end := ItemEnd(slot);
      ghost var s := buf[..];
      ShiftOffsets(buf, slot, n - slot, 0 - total, b, end);
      ghost var s1 := buf[..];
      MoveWithin(buf, 25 * (slot + nr), 25 * slot, 25 * (n - slot));
      ghost var s2 := buf[..];
      MoveWithin(buf, dataEnd - total, dataEnd, end - dataEnd);
      GapSteps(s, s1, s2, buf[..], a, b, nr, total);
    }

    /** setup_items_for_insert: room for new items, with their headers; the bytes of the new items are
        whatever the buffer holds there. */
    method InsertItems(slot: nat, keys: seq<Key>, sizes: seq<nat>) returns (ghost m: seq<Item>)
      requires Valid() && slot <= nritems && |keys| == |sizes|
      requires SpaceUsed(items) + 25 * |keys| + Sum(sizes) <= buf.Length
      modifies this, buf
      ensures Valid()
      ensures items == old(items)[..slot] + (m + old(items)[slot..])
      ensures |m| == |keys| && forall i | 0 <= i < |m| :: m[i].key == keys[i] && |m[i].data| == sizes[i]
    {
      hide Rep, HeadersAt, DataAt, DataLength, At, SameOutside, Carve;
      ghost var a, b := items[..slot], items[slot..];
      var end := OpenGap(slot, |keys|, Sum(sizes));
      ghost var s := buf[..];
      GapRoom(s, a, b, |keys|, Sum(sizes));
      m := Carve(s, keys, sizes, end);
      CarveData(s, keys, sizes, end);
      WriteHeaders(buf, slot, keys, sizes, end, m);
      FillGap(s, buf[..], a, m, b);
      items := a + (m + b);
      nritems := nritems + |keys|;
    }

    /** write_extent_buffer over one item's data. */
    method WriteItem(slot: nat, data: seq<byte>)
      requires Valid() && slot < nritems && |data| == |items[slot].data|
      modifies this, buf
      ensures Valid()
      ensures items == old(items)[slot := Item(old(items)[slot].key, data)]
    {
      hide Rep, OffsetAt, SizeAt, KeyAt, At, Written, SameOutside, DataLength;
      RepReads(buf[..], items, slot);
      ghost var s := buf[..];
      AtBounds(s, OffsetAt(s, slot), items[slot].data);
      Write(buf, OffsetAt(buf[..], slot), data);
      Overwritten(s, buf[..], items, slot, data);
      items := items[slot := Item(items[slot].key, data)];
    }

    /** btrfs_insert_item, once the path leads to `slot` of a leaf with room. */
    method InsertItem(slot: nat, key: Key, data: seq<byte>)
      requires Valid() && slot <= nritems && SpaceUsed(items) + 25 + |data| <= buf.Length
      modifies this, buf
      ensures Valid()
      ensures items == old(items)[..slot] + ([Item(key, data)] + old(items)[slot..])
    {
      hide Rep;
      assert Sum([|data|]) == |data|;
      ghost var m := InsertItems(slot, [key], [|data|]);
      WriteItem(slot, data);
    }

    /** btrfs_del_items, the part that edits the leaf. */
    method DeleteItems(slot: nat, nr: nat)
      requires Valid() && nr > 0 && slot + nr <= nritems
      modifies this, buf
      ensures Valid()
      ensures items == old(items)[..slot] + old(items)[slot + nr..]
    {
      hide Rep, HeadersAt, DataAt, DataLength, At, SameOutside, Moved;
      ghost var a, d, b := items[..slot], items[slot..slot + nr], items[slot + nr..];
      assert items == a + (d + b);
      RepLengths(buf[..], a, d, b);
      var n := nritems;
      var lastOff, dsize := DeletedSpan(slot, nr);
      ghost var s := buf[..];
      if slot + nr != n {
        var dataEnd := DataEnd();
        RepParts(s, a, d, b);
        ghost var endB := |s| - DataLength(a) - DataLength(d);
        MoveWithin(buf, dataEnd + dsize, dataEnd, lastOff - dataEnd);
        ghost var s1 := buf[..];
        HeadersKeep(s, s1, dataEnd + dsize, lastOff + dsize, slot + nr, b, endB);
        ShiftOffsets(buf, slot + nr, n - slot - nr, dsize, b, endB);
        ghost var s2 := buf[..];
        MoveWithin(buf, 25 * slot, 25 * (slot + nr), 25 * (n - slot - nr));
        DeleteSteps(s, s1, s2, buf[..], a, d, b);
      } else {
        assert b == [] && a + b == a && items == a + d;
        GapBefore(s, a, d);
        DropLast(s, a, d);
      }
      items := a + b;
      nritems := n - nr;
    }

    /** The first two loops of btrfs_del_items: where the deleted run's data starts and how long it is. */
    method DeletedSpan(slot: nat, nr: nat) returns (lastOff: nat, dsize: nat)
      requires Valid() && nr > 0 && slot + nr <= nritems
      ensures lastOff == buf.Length - DataLength(items[..slot]) - DataLength(items[slot..slot + nr])
      ensures dsize == DataLength(items[slot..slot + nr])
    {
      hide Rep, DataLength, OffsetAt, SizeAt, KeyAt, At;
      RepReads(buf[..], items, slot + nr - 1);
      lastOff := OffsetAt(buf[..], slot + nr - 1);
      LengthBetween(items, slot, slot + nr);
      NoLength();
      assert items[slot..slot] == [];
      dsize := 0;
      var i := 0;
      while i < nr
        invariant 0 <= i <= nr && dsize == DataLength(items[slot..slot + i])
      {
        RepReads(buf[..], items, slot + i);
        LengthLast(items[slot..slot + i + 1]);
        assert items[slot..slot + i + 1][..i] == items[slot..slot + i];
        dsize := dsize + SizeAt(buf[..], slot + i);
        i := i + 1;
      }
    }

    /** split_item: one more header; the two parts together are the old bytes, the first part under the
        old key. */
    method SplitItem(slot: nat, newKey: Key, splitOffset: nat)
      requires Valid() && slot < nritems && splitOffset <= |items[slot].data|
      requires SpaceUsed(items) + 25 <= buf.Length
      modifies this, buf
      ensures Valid()
      ensures var x := old(items)[slot];
              items == old(items)[..slot] + ([Item(x.key, x.data[..splitOffset]), Item(newKey, x.data[splitOffset..])]
                                             + old(items)[slot + 1..])
    {
      hide Rep, DataLength, SpaceUsed, At, Moved, Written, SameOutside, ToLittleEndian, KeyBytes, SizeAt, OffsetAt,
           KeyAt, Splitting, HeadersAt, DataAt;
      ghost var s, a, x, b := buf[..], items[..slot], items[slot], items[slot + 1..];
      SplitPlace(s, items, slot);
      var origOffset, itemSize := OffsetAt(buf[..], slot), SizeAt(buf[..], slot);
      var data := buf[origOffset..origOffset + itemSize];
      assert data == x.data;
      ghost var end := origOffset + itemSize;
      if slot + 1 != nritems {
        MoveWithin(buf, 25 * (slot + 2), 25 * (slot + 1), 25 * (nritems - slot - 1));
      } else {
        MoveNothing(s, 25 * (slot + 2), 25 * (slot + 1));
      }
      ghost var s1 := buf[..];
      SplitShift(s, s1, items, slot);
      ghost var p, z := Item(x.key, data[..splitOffset]), Item(newKey, data[splitOffset..]);
      WriteHeader(buf, slot + 1, newKey, origOffset, itemSize - splitOffset, z);
      ghost var s4 := buf[..];
      SplitNew(s1, s4, a, x, b);
      Write(buf, 25 * slot + 17, ToLittleEndian(origOffset + itemSize - splitOffset, 4));
      ghost var s5 := buf[..];
      Write(buf, 25 * slot + 21, ToLittleEndian(splitOffset, 4));
      ghost var s6 := buf[..];
      SplitOld(s4, s5, s6, a, x, p, z, b);
      Write(buf, origOffset + itemSize - splitOffset, data[..splitOffset]);
      ghost var s7 := buf[..];
      Write(buf, origOffset, data[splitOffset..]);
      SplitData(s6, s7, buf[..], a, p, z, b);
      nritems := nritems + 1;
      items := a + ([p, z] + b);
    }

    /** The loop both resizing operations start with: re-base every header from `slot` on. */
    method RebaseFrom(slot: nat, delta: int)
      requires Valid() && slot < nritems
      requires SpaceUsed(items) - buf.Length <= delta <= buf.Length
      modifies buf
      ensures Shifted(buf[..], items[..slot], items[slot], items[slot + 1..], delta)
    {
      hide Rep, HeadersAt, DataLength, At, SameOutside, Shifted;
      ghost var s, a, x, b := buf[..], items[..slot], items[slot], items[slot + 1..];
      assert items == a + ([x] + b);
      RepLengths(s, a, [x], b);
      LengthConcat([x], b);
      GapBefore(s, a, [x] + b);
      GapHeaders(s, a, [x] + b);
      ShiftOffsets(buf, slot, nritems - slot, delta, [x] + b, |s| - DataLength(a));
      AfterShift(s, buf[..], a, x, b, delta);
    }

    /** btrfs_extend_item: the item keeps its bytes as a prefix and grows by `more` bytes. */
    method ExtendItem(slot: nat, more: nat) returns (ghost tail: seq<byte>)
      requires Valid() && slot < nritems && SpaceUsed(items) + more <= buf.Length
      modifies this, buf
      ensures Valid() && |tail| == more
      ensures var x := old(items)[slot]; items == old(items)[slot := Item(x.key, x.data + tail)]
    {
      hide Rep, DataLength, SpaceUsed, Moved, Written, SameOutside, ToLittleEndian, SizeAt, Shifted, Resizing;
      ghost var a, x, b := items[..slot], items[slot], items[slot + 1..];
      ItemLengths(items, slot);
      ItemSpaces(items, slot);
      RepRoom(buf[..], items);
      var dataEnd := DataEnd();
      var end := ItemEnd(slot);
      RebaseFrom(slot, 0 - more);
      ghost var s1 := buf[..];
      MoveWithin(buf, dataEnd - more, dataEnd, end - dataEnd);
      ghost var s2 := buf[..];
      tail := s2[end - more..end];
      ghost var y := Item(x.key, x.data + tail);
      ExtendMove(s1, s2, a, x, b, more);
      ResizingReads(s2, a, x, y, b);
      Write(buf, 25 * slot + 21, ToLittleEndian(SizeAt(buf[..], slot) + more, 4));
      Resized(s2, buf[..], a, x, y, b);
      ReplaceAt(items, slot, y);
      items := a + ([y] + b);
    }

    /** The branch of btrfs_truncate_item that chops at the front. */
    method ChopFront(slot: nat, newSize: nat, diff: nat, oldStart: nat, dataEnd: nat,
                     ghost a: seq<Item>, ghost x: Item, ghost b: seq<Item>)
      requires slot == |a| && newSize + diff == |x.data| && diff > 0
      requires Shifted(buf[..], a, x, b, diff)
      requires x.key.kind == EXTENT_DATA_KEY ==> newSize >= FILE_EXTENT_INLINE_START
      requires oldStart == buf.Length - DataLength(a) - |x.data| && dataEnd == oldStart - DataLength(b)
      modifies buf
      ensures var y := Truncated(x, newSize, false); Resizing(buf[..], a, Item(y.key, x.data), y, b)
    {
      hide Shifted, Resizing, DataLength, At, Moved, Written, SameOutside, KeyAt, KeyBytes, Truncated;
      ghost var s := buf[..];
      ShiftedReads(s, a, x, b, diff);
      AtBounds(s, oldStart, x.data);
      ShiftedRoom(s, a, x, b, diff);
      var key := KeyAt(buf[..], slot);
      if key.kind == EXTENT_DATA_KEY {
        assert s[oldStart + FILE_EXTENT_TYPE_AT] == s[oldStart..oldStart + |x.data|][FILE_EXTENT_TYPE_AT];
        if buf[oldStart + FILE_EXTENT_TYPE_AT] == FILE_EXTENT_INLINE {
          MoveWithin(buf, oldStart + diff, oldStart, FILE_EXTENT_INLINE_START);
        }
      }
      ghost var s2 := buf[..];
      MoveWithin(buf, dataEnd + diff, dataEnd, oldStart - dataEnd);
      TruncateFront(s, s2, buf[..], a, x, b, newSize);
      ghost var s3 := buf[..];
      TruncatedShape(x, newSize, false);
      Write(buf, 25 * slot, KeyBytes(key.(offset := (key.offset + diff) % 0x1_0000_0000_0000_0000)));
      Rekeyed(s3, buf[..], a, x, Truncated(x, newSize, false), b);
    }

    /** btrfs_truncate_item: chop bytes off the end, or off the front with the key moved along.  An inline
        file extent keeps its fixed head when chopped at the front. */
    method TruncateItem(slot: nat, newSize: nat, fromEnd: bool)
      requires Valid() && slot < nritems && newSize <= |items[slot].data|
      requires !fromEnd && items[slot].key.kind == EXTENT_DATA_KEY ==> newSize >= FILE_EXTENT_INLINE_START
      modifies this, buf
      ensures Valid()
      ensures items == old(items)[slot := Truncated(old(items)[slot], newSize, fromEnd)]
    {
      hide Rep, DataLength, SpaceUsed, At, Moved, Written, SameOutside, ToLittleEndian, SizeAt, OffsetAt, KeyAt,
           Truncated, Shifted, Resizing;
      RepRoom(buf[..], items);
      ghost var a, x, b := items[..slot], items[slot], items[slot + 1..];
      RepReads(buf[..], items, slot);
      var oldSize := SizeAt(buf[..], slot);
      if oldSize == newSize {
        TruncatedSame(x, fromEnd);
        return;
      }
      ghost var y := Truncated(x, newSize, fromEnd);
      TruncatedShape(x, newSize, fromEnd);
      ItemLengths(items, slot);
      var dataEnd := DataEnd();
      var oldStart, diff := OffsetAt(buf[..], slot), oldSize - newSize;
      RebaseFrom(slot, diff);
      ShiftedRoom(buf[..], a, x, b, diff);
      if fromEnd {
        ghost var s1 := buf[..];
        MoveWithin(buf, dataEnd + diff, dataEnd, oldStart + newSize - dataEnd);
        TruncateTail(s1, buf[..], a, x, b, newSize);
        TruncatedEnd(x, newSize);
      } else {
        ChopFront(slot, newSize, diff, oldStart, dataEnd, a, x, b);
      }
      ghost var s2 := buf[..];
      Write(buf, 25 * slot + 21, ToLittleEndian(newSize, 4));
      Resized(s2, buf[..], a, Item(y.key, x.data), y, b);
      ReplaceAt(items, slot, y);
      items := a + ([y] + b);
    }
  }

  lemma {:induction false} RepRoom(s: seq<byte>, items: seq<Item>)
    requires Rep(s, items)
    ensures DataLength(items) <= SpaceUsed(items) <= |s| < 0x8000_0000
  {
  }

  lemma {:induction false} ReplaceAt(items: seq<Item>, slot: nat, y: Item)
    requires slot < |items|
    ensures items[..slot] + ([y] + items[slot + 1..]) == items[slot := y]
  {
  }

  lemma {:induction false} ItemSpaces(items: seq<Item>, slot: nat)
    requires slot < |items|
    ensures SpaceUsed(items) == SpaceUsed(items[..slot]) + 25 + |items[slot].data| + SpaceUsed(items[slot + 1..])
    ensures DataLength(items[..slot]) <= SpaceUsed(items[..slot])
  {
    hide DataLength;
    ItemLengths(items, slot);
  }

  /** The data lengths before, at and after a slot. */
  lemma {:induction false} ItemLengths(items: seq<Item>, slot: nat)
    requires slot < |items|
    ensures DataLength(items) == DataLength(items[..slot]) + |items[slot].data| + DataLength(items[slot + 1..])
  {
    hide DataLength;
    var a, x, b := items[..slot], items[slot], items[slot + 1..];
    assert items == a + ([x] + b);
    LengthConcat(a, [x] + b);
    LengthConcat([x], b);
    LengthOne(x);
  }

  /** What truncating makes of an item. */
  function Truncated(x: Item, newSize: nat, fromEnd: bool): Item
    requires newSize <= |x.data|
    requires !fromEnd && x.key.kind == EXTENT_DATA_KEY ==> newSize >= FILE_EXTENT_INLINE_START
  {
    var diff := |x.data| - newSize;
    if diff == 0 then x
    else if fromEnd then Item(x.key, x.data[..newSize])
    else
      var key := x.key.(offset := (x.key.offset + diff) % 0x1_0000_0000_0000_0000);
      if x.key.kind == EXTENT_DATA_KEY && x.data[FILE_EXTENT_TYPE_AT] == FILE_EXTENT_INLINE then
        Item(key, x.data[..FILE_EXTENT_INLINE_START] + x.data[FILE_EXTENT_INLINE_START + diff..])
      else Item(key, x.data[diff..])
  }

  lemma {:induction false} TruncatedSame(x: Item, fromEnd: bool)
    requires !fromEnd && x.key.kind == EXTENT_DATA_KEY ==> |x.data| >= FILE_EXTENT_INLINE_START
    ensures Truncated(x, |x.data|, fromEnd) == x
  {
  }

  lemma {:induction false} TruncatedShape(x: Item, newSize: nat, fromEnd: bool)
    requires newSize < |x.data|
    requires !fromEnd && x.key.kind == EXTENT_DATA_KEY ==> newSize >= FILE_EXTENT_INLINE_START
    ensures |Truncated(x, newSize, fromEnd).data| == newSize
    ensures Truncated(x, newSize, fromEnd).key ==
            if fromEnd then x.key
            else x.key.(offset := (x.key.offset + |x.data| - newSize) % 0x1_0000_0000_0000_0000)
  {
  }

  /** The end of item lo minus the start of item hi - 1 is what the items between take up. */
  lemma {:induction false} SpanReads(s: seq<byte>, items: seq<Item>, lo: nat, hi: nat)
    requires Rep(s, items) && lo < hi <= |items|
    ensures 25 * hi <= |s|
    ensures OffsetAt(s, lo) + SizeAt(s, lo) - OffsetAt(s, hi - 1) == DataLength(items[lo..hi])
  {
    hide Rep, DataLength, OffsetAt, SizeAt, KeyAt, At;
    RepReads(s, items, lo);
    RepReads(s, items, hi - 1);
    LengthBetween(items, lo, hi);
  }

  /** The buffer between making room and writing the new headers: `a` in place, `b` moved out of the way. */
  ghost predicate Gapped(s: seq<byte>, a: seq<Item>, b: seq<Item>, nr: nat, total: nat) {
    var end := |s| - DataLength(a);
    && SpaceUsed(a) + SpaceUsed(b) + 25 * nr + total <= |s| < 0x8000_0000
    && HeadersAt(s, 0, a, |s|) && HeadersAt(s, |a| + nr, b, end - total)
    && DataAt(s, a, |s|) && DataAt(s, b, end - total)
  }

  lemma {:induction false} GapBefore(s: seq<byte>, a: seq<Item>, b: seq<Item>)
    requires Rep(s, a + b)
    ensures Gapped(s, a, b, 0, 0)
  {
    hide HeadersAt, DataAt, At, DataLength;
    LengthConcat(a, b);
    HeadersSplit(s, 0, a, b, |s|);
    DataSplit(s, a, b, |s|);
  }

  lemma {:induction false} GapAtEnd(s: seq<byte>, a: seq<Item>, nr: nat, total: nat)
    requires Gapped(s, a, [], 0, 0) && SpaceUsed(a) + 25 * nr + total <= |s|
    ensures Gapped(s, a, [], nr, total)
  {
    assert DataLength([]) == 0 && DataBytes([]) == [];
    NoHeaders(s, |a| + nr, |s| - DataLength(a) - total);
    EmptyAt(s, |s| - DataLength(a) - total);
  }

  lemma {:induction false} GapRoom(s: seq<byte>, a: seq<Item>, b: seq<Item>, nr: nat, total: nat)
    requires Gapped(s, a, b, nr, total)
    ensures total <= |s| - DataLength(a) <= |s| < 0x8000_0000
    ensures 25 * (|a| + nr) <= |s| - DataLength(a) - total - DataLength(b)
  {
  }

  /** The three steps of OpenGap. */
  lemma {:induction false} GapSteps(s: seq<byte>, s1: seq<byte>, s2: seq<byte>, s3: seq<byte>,
                                    a: seq<Item>, b: seq<Item>, nr: nat, total: nat)
    requires Gapped(s, a, b, 0, 0) && SpaceUsed(a) + SpaceUsed(b) + 25 * nr + total <= |s|
    requires var end, n := |s| - DataLength(a), |b|;
             && HeadersAt(s1, |a|, b, end - total) && SameOutside(s, s1, 25 * |a|, 25 * (|a| + n))
             && s2 == Moved(s1, 25 * (|a| + nr), 25 * |a|, 25 * n)
             && s3 == Moved(s2, end - DataLength(b) - total, end - DataLength(b), DataLength(b))
    ensures Gapped(s3, a, b, nr, total)
  {
    hide HeadersAt, DataAt, At, DataLength, SameOutside, Moved;
    var end, n, room := |s| - DataLength(a), |b|, |s| - DataLength(a) - DataLength(b);
    SameSize(s, s1, 25 * |a|, 25 * (|a| + n));
    HeadersKeep(s, s1, 25 * |a|, 25 * (|a| + n), 0, a, |s|);
    DataKeep(s, s1, 25 * |a|, 25 * (|a| + n), a, |s|);
    DataKeep(s, s1, 25 * |a|, 25 * (|a| + n), b, end);
    var lo, hi := 25 * (|a| + nr), 25 * (|a| + nr) + 25 * n;
    SameSize(s1, s2, lo, hi);
    HeadersKeep(s1, s2, lo, hi, 0, a, |s|);
    DataKeep(s1, s2, lo, hi, a, |s|);
    DataKeep(s1, s2, lo, hi, b, end);
    HeadersMove(s1, |a| + nr, |a|, n, b, end - total);
    lo, hi := room - total, end - total;
    SameSize(s2, s3, lo, hi);
    HeadersKeep(s2, s3, lo, hi, 0, a, |s|);
    HeadersKeep(s2, s3, lo, hi, |a| + nr, b, end - total);
    DataKeep(s2, s3, lo, hi, a, |s|);
    DataMove(s2, room - total, room, DataLength(b), b, end);
  }

  lemma {:induction false} SameSize(s: seq<byte>, t: seq<byte>, lo: int, hi: int)
    requires SameOutside(s, t, lo, hi)
    ensures |s| == |t|
  {
  }

  /** Writing the headers of `m` into the gap completes the list. */
  lemma {:induction false} FillGap(s: seq<byte>, t: seq<byte>, a: seq<Item>, m: seq<Item>, b: seq<Item>)
    requires Gapped(s, a, b, |m|, DataLength(m)) && DataAt(s, m, |s| - DataLength(a))
    requires SameOutside(s, t, 25 * |a|, 25 * (|a| + |m|)) && HeadersAt(t, |a|, m, |s| - DataLength(a))
    ensures Rep(t, a + (m + b))
  {
    hide Rep, HeadersAt, DataAt, At, DataLength, SameOutside;
    var lo, hi, end := 25 * |a|, 25 * (|a| + |m|), |s| - DataLength(a);
    SameSize(s, t, lo, hi);
    HeadersKeep(s, t, lo, hi, 0, a, |s|);
    HeadersKeep(s, t, lo, hi, |a| + |m|, b, end - DataLength(m));
    DataKeep(s, t, lo, hi, a, |s|);
    DataKeep(s, t, lo, hi, m, end);
    DataKeep(s, t, lo, hi, b, end - DataLength(m));
    RepJoin(t, a, m, b);
  }

  lemma {:induction false} EmptyRep(s: seq<byte>)
    requires |s| < 0x8000_0000
    ensures Rep(s, [])
  {
    NoHeaders(s, 0, |s|);
    EmptyAt(s, |s|);
  }

  lemma {:induction false} LengthLast(items: seq<Item>)
    requires items != []
    ensures DataLength(items) == DataLength(items[..|items| - 1]) + |items[|items| - 1].data|
  {
    var k := |items| - 1;
    assert items == items[..k] + [items[k]];
    LengthConcat(items[..k], [items[k]]);
    assert DataLength([items[k]]) == |items[k].data|;
  }

  lemma {:induction false} LengthBetween(items: seq<Item>, lo: nat, hi: nat)
    requires lo < hi <= |items|
    ensures DataLength(items[..hi - 1]) + |items[hi - 1].data| == DataLength(items[..lo]) + DataLength(items[lo..hi])
  {
    assert items[..hi] == items[..lo] + items[lo..hi];
    LengthConcat(items[..lo], items[lo..hi]);
    assert items[..hi][..hi - 1] == items[..hi - 1];
    LengthLast(items[..hi]);
  }

  lemma {:induction false} NoLength()
    ensures DataLength([]) == 0
  {
  }

  lemma {:induction false} RepLengths(s: seq<byte>, a: seq<Item>, m: seq<Item>, b: seq<Item>)
    requires Rep(s, a + (m + b))
    ensures DataLength(a + (m + b)) == DataLength(a) + DataLength(m) + DataLength(b)
    ensures SpaceUsed(a) + SpaceUsed(m) + SpaceUsed(b) <= |s| < 0x8000_0000
  {
    hide DataLength, HeadersAt, DataAt;
    LengthConcat(a, m + b);
    LengthConcat(m, b);
  }

  lemma {:induction false} DropLast(s: seq<byte>, a: seq<Item>, d: seq<Item>)
    requires Gapped(s, a, d, 0, 0)
    ensures Rep(s, a)
  {
    hide HeadersAt, DataAt, DataLength;
  }

  /** The three steps of DeleteItems. */
  lemma {:induction false} DeleteSteps(s: seq<byte>, s1: seq<byte>, s2: seq<byte>, s3: seq<byte>,
                                       a: seq<Item>, d: seq<Item>, b: seq<Item>)
    requires Rep(s, a + (d + b)) && SpaceUsed(a) + SpaceUsed(d) + SpaceUsed(b) <= |s|
    requires var end, gone := |s| - DataLength(a) - DataLength(d), DataLength(d);
             && s1 == Moved(s, end - DataLength(b) + gone, end - DataLength(b), DataLength(b))
             && HeadersAt(s2, |a| + |d|, b, end + gone)
             && SameOutside(s1, s2, 25 * (|a| + |d|), 25 * (|a| + |d| + |b|))
             && s3 == Moved(s2, 25 * |a|, 25 * (|a| + |d|), 25 * |b|)
    ensures Rep(s3, a + b)
  {
    hide Rep, HeadersAt, DataAt, At, DataLength, SameOutside, Moved;
    RepParts(s, a, d, b);
    RepLengths(s, a, d, b);
    var end, gone := |s| - DataLength(a) - DataLength(d), DataLength(d);
    var lo, hi := end - DataLength(b) + gone, end + gone;
    SameSize(s, s1, lo, hi);
    HeadersKeep(s, s1, lo, hi, 0, a, |s|);
    DataKeep(s, s1, lo, hi, a, |s|);
    DataMove(s, lo, end - DataLength(b), DataLength(b), b, end);
    lo, hi := 25 * (|a| + |d|), 25 * (|a| + |d| + |b|);
    SameSize(s1, s2, lo, hi);
    HeadersKeep(s1, s2, lo, hi, 0, a, |s|);
    DataKeep(s1, s2, lo, hi, a, |s|);
    DataKeep(s1, s2, lo, hi, b, end + gone);
    lo, hi := 25 * |a|, 25 * |a| + 25 * |b|;
    SameSize(s2, s3, lo, hi);
    HeadersKeep(s2, s3, lo, hi, 0, a, |s|);
    DataKeep(s2, s3, lo, hi, a, |s|);
    DataKeep(s2, s3, lo, hi, b, end + gone);
    HeadersMove(s2, |a|, |a| + |d|, |b|, b, end + gone);
    PairJoin(s3, a, b);
  }

  lemma {:induction false} PairJoin(s: seq<byte>, a: seq<Item>, b: seq<Item>)
    requires SpaceUsed(a) + SpaceUsed(b) <= |s| < 0x8000_0000
    requires HeadersAt(s, 0, a, |s|) && HeadersAt(s, |a|, b, |s| - DataLength(a))
    requires DataAt(s, a, |s|) && DataAt(s, b, |s| - DataLength(a))
    ensures Rep(s, a + b)
  {
    hide HeadersAt, DataAt, At, DataLength;
    LengthConcat(a, b);
    HeadersSplit(s, 0, a, b, |s|);
    DataSplit(s, a, b, |s|);
  }

  lemma {:induction false} LengthOne(x: Item)
    ensures DataLength([x]) == |x.data| && DataBytes([x]) == x.data
  {
    assert DataBytes([x]) == DataBytes([]) + x.data;
  }

  lemma {:induction false} GapHeaders(s: seq<byte>, a: seq<Item>, b: seq<Item>)
    requires Gapped(s, a, b, 0, 0)
    ensures HeadersAt(s, |a|, b, |s| - DataLength(a))
  {
    hide HeadersAt;
  }

  /** One item between an old and a new length: the header of slot |a| still has x's size but already the
      offset that y will have; the data are y's. */
  ghost predicate Resizing(s: seq<byte>, a: seq<Item>, x: Item, y: Item, b: seq<Item>) {
    var end := |s| - DataLength(a);
    && SpaceUsed(a) + 25 + |y.data| + SpaceUsed(b) <= |s| < 0x8000_0000
    && HeadersAt(s, 0, a, |s|) && HeadersAt(s, |a|, [x], end - |y.data| + |x.data|)
    && HeadersAt(s, |a| + 1, b, end - |y.data|)
    && DataAt(s, a, |s|) && DataAt(s, [y], end) && DataAt(s, b, end - |y.data|)
  }

  /** Writing y's size completes the change of length. */
  lemma {:induction false} Resized(s: seq<byte>, t: seq<byte>, a: seq<Item>, x: Item, y: Item, b: seq<Item>)
    requires Resizing(s, a, x, y, b) && x.key == y.key
    requires 25 * |a| + 25 <= |s| && t == Written(s, 25 * |a| + 21, ToLittleEndian(|y.data|, 4))
    ensures Rep(t, a + ([y] + b))
  {
    hide Rep, HeadersAt, DataAt, At, DataLength, SameOutside, Written, ToLittleEndian;
    var at, end := 25 * |a| + 21, |s| - DataLength(a);
    SameSize(s, t, at, at + 4);
    LengthOne(y);
    HeadersKeep(s, t, at, at + 4, 0, a, |s|);
    ResizeOne(s, |a|, x, end - |y.data| + |x.data|, y, end);
    HeadersKeep(s, t, at, at + 4, |a| + 1, b, end - |y.data|);
    DataKeep(s, t, at, at + 4, a, |s|);
    DataKeep(s, t, at, at + 4, [y], end);
    DataKeep(s, t, at, at + 4, b, end - |y.data|);
    RepJoin(t, a, [y], b);
  }

  /** A buffer whose headers from slot |a| on have been re-based by `diff`, with the data still in place. */
  ghost predicate Shifted(s: seq<byte>, a: seq<Item>, x: Item, b: seq<Item>, diff: int) {
    var end := |s| - DataLength(a);
    && SpaceUsed(a) + 25 + |x.data| + SpaceUsed(b) <= |s| < 0x8000_0000
    && HeadersAt(s, 0, a, |s|) && HeadersAt(s, |a|, [x], end + diff)
    && HeadersAt(s, |a| + 1, b, end + diff - |x.data|)
    && DataAt(s, a, |s|) && DataAt(s, [x], end) && DataAt(s, b, end - |x.data|)
  }

  lemma {:induction false} AfterShift(s: seq<byte>, s1: seq<byte>, a: seq<Item>, x: Item, b: seq<Item>, diff: int)
    requires Rep(s, a + ([x] + b))
    requires HeadersAt(s1, |a|, [x] + b, |s| - DataLength(a) + diff)
    requires SameOutside(s, s1, 25 * |a|, 25 * (|a| + 1 + |b|))
    requires |s| - DataLength(a) + diff < 0x1_0000_0000
    ensures Shifted(s1, a, x, b, diff)
  {
    hide Rep, HeadersAt, DataAt, At, DataLength, SameOutside;
    var lo, hi, end := 25 * |a|, 25 * (|a| + 1 + |b|), |s| - DataLength(a);
    RepLengths(s, a, [x], b);
    RepParts(s, a, [x], b);
    LengthOne(x);
    SameSize(s, s1, lo, hi);
    HeadersKeep(s, s1, lo, hi, 0, a, |s|);
    HeadersSplit(s1, |a|, [x], b, end + diff);
    DataKeep(s, s1, lo, hi, a, |s|);
    DataKeep(s, s1, lo, hi, [x], end);
    DataKeep(s, s1, lo, hi, b, end - |x.data|);
  }

  /** A change within the old data of x and b, after which y and b sit where the new offsets say. */
  lemma {:induction false} ShiftedToResizing(s: seq<byte>, t: seq<byte>, a: seq<Item>, x: Item, y: Item, b: seq<Item>,
                                             diff: int, lo: int, hi: int)
    requires Shifted(s, a, x, b, diff) && |y.data| == |x.data| - diff
    requires SpaceUsed(a) + 25 + |y.data| + SpaceUsed(b) <= |s|
    requires SameOutside(s, t, lo, hi)
    requires 25 * (|a| + 1 + |b|) <= lo && hi <= |s| - DataLength(a)
    requires DataAt(t, [y], |s| - DataLength(a)) && DataAt(t, b, |s| - DataLength(a) - |y.data|)
    ensures Resizing(t, a, x, y, b)
  {
    hide Rep, HeadersAt, DataAt, At, DataLength, SameOutside;
    var end := |s| - DataLength(a);
    SameSize(s, t, lo, hi);
    HeadersKeep(s, t, lo, hi, 0, a, |s|);
    HeadersKeep(s, t, lo, hi, |a|, [x], end + diff);
    HeadersKeep(s, t, lo, hi, |a| + 1, b, end + diff - |x.data|);
    DataKeep(s, t, lo, hi, a, |s|);
  }

  /** The move of ExtendItem. */
  lemma {:induction false} ExtendMove(s: seq<byte>, t: seq<byte>, a: seq<Item>, x: Item, b: seq<Item>, more: nat)
    requires Shifted(s, a, x, b, 0 - more) && SpaceUsed(a) + 25 + |x.data| + more + SpaceUsed(b) <= |s|
    requires var end, room := |s| - DataLength(a), |s| - DataLength(a) - |x.data| - DataLength(b);
             t == Moved(s, room - more, room, end - room)
    ensures var end := |s| - DataLength(a);
            |t| == |s| && Resizing(t, a, x, Item(x.key, x.data + t[end - more..end]), b)
  {
    hide HeadersAt, DataAt, At, DataLength, SameOutside, Moved;
    var end, room := |s| - DataLength(a), |s| - DataLength(a) - |x.data| - DataLength(b);
    SameSize(s, t, room - more, end - more);
    var y := Item(x.key, x.data + t[end - more..end]);
    LengthOne(x);
    DataMove(s, room - more, room, end - room, [x], end);
    DataMove(s, room - more, room, end - room, b, end - |x.data|);
    GrownAt(t, x, y, t[end - more..end], end);
    ShiftedToResizing(s, t, a, x, y, b, 0 - more, room - more, end - more);
  }

  lemma {:induction false} GrownAt(t: seq<byte>, x: Item, y: Item, tail: seq<byte>, end: int)
    requires |tail| <= end <= |t| && tail == t[end - |tail|..end]
    requires y.data == x.data + tail && DataAt(t, [x], end - |tail|)
    ensures DataAt(t, [y], end)
  {
    hide At;
    LengthOne(x);
    LengthOne(y);
    SliceAt(t, end - |tail|, end);
    AtJoin(t, end - |tail| - |x.data|, x.data, tail);
  }

  /** The move of TruncateItem from the end: b and the kept head of x go up together. */
  lemma {:induction false} TruncateTail(s: seq<byte>, t: seq<byte>, a: seq<Item>, x: Item, b: seq<Item>, newSize: nat)
    requires newSize < |x.data| && Shifted(s, a, x, b, |x.data| - newSize)
    requires var start, room := |s| - DataLength(a) - |x.data|, |s| - DataLength(a) - |x.data| - DataLength(b);
             t == Moved(s, room + |x.data| - newSize, room, start + newSize - room)
    ensures Resizing(t, a, x, Item(x.key, x.data[..newSize]), b)
  {
    hide HeadersAt, At, DataLength, DataBytes, SameOutside, Moved;
    var diff := |x.data| - newSize;
    var end, start, room := |s| - DataLength(a), |s| - DataLength(a) - |x.data|,
        |s| - DataLength(a) - |x.data| - DataLength(b);
    var y := Item(x.key, x.data[..newSize]);
    LengthOne(x);
    LengthOne(y);
    assert x.data == x.data[..newSize] + x.data[newSize..];
    AtSplit(s, start, x.data[..newSize], x.data[newSize..]);
    MovedBrings(s, room + diff, room, start + newSize - room, start, y.data);
    DataMove(s, room + diff, room, start + newSize - room, b, start);
    ShiftedToResizing(s, t, a, x, y, b, diff, room + diff, end);
  }

  /** The moves of TruncateItem from the front: b goes up; an inline extent's head goes up first. */
  lemma {:induction false} TruncateFront(s: seq<byte>, s2: seq<byte>, t: seq<byte>, a: seq<Item>, x: Item, b: seq<Item>,
                                         newSize: nat)
    requires newSize < |x.data| && Shifted(s, a, x, b, |x.data| - newSize)
    requires x.key.kind == EXTENT_DATA_KEY ==> newSize >= FILE_EXTENT_INLINE_START
    requires var diff := |x.data| - newSize;
             var start, room := |s| - DataLength(a) - |x.data|, |s| - DataLength(a) - |x.data| - DataLength(b);
             && (if x.key.kind == EXTENT_DATA_KEY && x.data[FILE_EXTENT_TYPE_AT] == FILE_EXTENT_INLINE
                 then s2 == Moved(s, start + diff, start, FILE_EXTENT_INLINE_START) else s2 == s)
             && t == Moved(s2, room + diff, room, DataLength(b))
    ensures Resizing(t, a, x, Item(x.key, Truncated(x, newSize, false).data), b)
  {
    hide HeadersAt, At, DataLength, DataBytes, SameOutside, Moved;
    var diff := |x.data| - newSize;
    var end, start, room := |s| - DataLength(a), |s| - DataLength(a) - |x.data|,
        |s| - DataLength(a) - |x.data| - DataLength(b);
    var y := Item(x.key, Truncated(x, newSize, false).data);
    LengthOne(x);
    LengthOne(y);
    TruncatedShape(x, newSize, false);
    FrontHead(s, s2, x, newSize, start);
    SameOutsideSelf(s, start, end);
    SameSize(s, s2, start, end);
    DataKeep(s, s2, start, end, b, start);
    DataMove(s2, room + diff, room, DataLength(b), b, start);
    KeepsOutside(s2, t, room + diff, start + diff, start + diff, y.data);
    SameOutsideTrans(s, s2, t, start, end, room + diff, start + diff, room, end);
    ShiftedToResizing(s, t, a, x, y, b, diff, room, end);
  }

  lemma {:induction false} SameOutsideSelf(s: seq<byte>, lo: int, hi: int)
    requires 0 <= lo <= hi <= |s|
    ensures SameOutside(s, s, lo, hi)
  {
  }

  lemma {:induction false} TruncatedIs(x: Item, newSize: nat)
    requires newSize < |x.data| && (x.key.kind == EXTENT_DATA_KEY ==> newSize >= FILE_EXTENT_INLINE_START)
    ensures var diff, head := |x.data| - newSize, FILE_EXTENT_INLINE_START;
            Truncated(x, newSize, false).data
            == if x.key.kind == EXTENT_DATA_KEY && x.data[FILE_EXTENT_TYPE_AT] == FILE_EXTENT_INLINE
               then x.data[..head] + x.data[head + diff..] else x.data[diff..]
  {
  }

  /** Where the bytes of the truncated item are once an inline head has been moved up. */
  lemma {:induction false} FrontHead(s: seq<byte>, s2: seq<byte>, x: Item, newSize: nat, start: int)
    requires newSize < |x.data| && At(s, start, x.data)
    requires x.key.kind == EXTENT_DATA_KEY ==> newSize >= FILE_EXTENT_INLINE_START
    requires if x.key.kind == EXTENT_DATA_KEY && x.data[FILE_EXTENT_TYPE_AT] == FILE_EXTENT_INLINE
             then s2 == Moved(s, start + |x.data| - newSize, start, FILE_EXTENT_INLINE_START) else s2 == s
    ensures At(s2, start + |x.data| - newSize, Truncated(x, newSize, false).data)
    ensures SameOutside(s, s2, start, start + |x.data|)
  {
    hide At, Moved, SameOutside, Truncated;
    var diff, head := |x.data| - newSize, FILE_EXTENT_INLINE_START;
    AtInside(s, start, x.data);
    TruncatedIs(x, newSize);
    if x.key.kind == EXTENT_DATA_KEY && x.data[FILE_EXTENT_TYPE_AT] == FILE_EXTENT_INLINE {
      HeadMoves(s, s2, x.data, diff, start);
      SameOutsideSelf(s, start, start + |x.data|);
      SameOutsideTrans(s, s, s2, start, start + |x.data|, start + diff, start + diff + head, start, start + |x.data|);
    } else {
      assert x.data == x.data[..diff] + x.data[diff..];
      AtSplit(s, start, x.data[..diff], x.data[diff..]);
      SameOutsideSelf(s, start, start + |x.data|);
    }
  }

  /** The head of an inline extent moved up over the bytes cut off: it meets the tail that stayed. */
  lemma {:induction false} HeadMoves(s: seq<byte>, s2: seq<byte>, data: seq<byte>, diff: nat, start: int)
    requires FILE_EXTENT_INLINE_START + diff <= |data| && At(s, start, data)
             && 0 <= start && start + |data| <= |s|
    requires s2 == Moved(s, start + diff, start, FILE_EXTENT_INLINE_START)
    ensures var head := FILE_EXTENT_INLINE_START;
            && At(s2, start + diff, data[..head] + data[head + diff..])
            && SameOutside(s, s2, start + diff, start + diff + head)
  {
    hide At, Moved, SameOutside;
    var head := FILE_EXTENT_INLINE_START;
    var most, rest := data[..head + diff], data[head + diff..];
    assert data == data[..head] + data[head..];
    AtSplit(s, start, data[..head], data[head..]);
    MovedBrings(s, start + diff, start, head, start, data[..head]);
    assert data == most + rest;
    AtSplit(s, start, most, rest);
    KeepsOutside(s, s2, start + diff, start + diff + head, start + diff + head, rest);
    AtJoin(s2, start + diff, data[..head], rest);
  }

  lemma {:induction false} AtInside(s: seq<byte>, i: int, part: seq<byte>)
    requires At(s, i, part)
    ensures 0 <= i && i + |part| <= |s|
  {
    AtBounds(s, i, part);
  }

  lemma {:induction false} AtBounds(s: seq<byte>, i: int, part: seq<byte>)
    requires At(s, i, part)
    ensures 0 <= i && i + |part| <= |s| && s[i..i + |part|] == part
  {
  }

  lemma {:induction false} ResizingReads(s: seq<byte>, a: seq<Item>, x: Item, y: Item, b: seq<Item>)
    requires Resizing(s, a, x, y, b)
    ensures 25 * |a| + 25 <= |s| && SizeAt(s, |a|) == |x.data|
  {
    hide HeadersAt, DataAt, SizeAt;
    OneReads(s, |a|, x, |s| - DataLength(a) - |y.data| + |x.data|);
  }

  lemma {:induction false} ShiftedRoom(s: seq<byte>, a: seq<Item>, x: Item, b: seq<Item>, diff: int)
    requires Shifted(s, a, x, b, diff)
    ensures DataLength(a) + |x.data| + DataLength(b) + 25 * (|a| + 1) <= |s|
  {
  }

  lemma {:induction false} TruncatedEnd(x: Item, newSize: nat)
    requires newSize < |x.data|
    ensures Truncated(x, newSize, true) == Item(x.key, x.data[..newSize])
  {
  }

  lemma {:induction false} ShiftedReads(s: seq<byte>, a: seq<Item>, x: Item, b: seq<Item>, diff: int)
    requires Shifted(s, a, x, b, diff)
    ensures 25 * |a| + 25 <= |s| && KeyAt(s, |a|) == x.key
    ensures At(s, |s| - DataLength(a) - |x.data|, x.data)
  {
    hide HeadersAt, SizeAt, OffsetAt, KeyAt, At;
    OneReads(s, |a|, x, |s| - DataLength(a) + diff);
    LengthOne(x);
  }

  /** Writing a new key into the slot being resized. */
  lemma {:induction false} Rekeyed(s: seq<byte>, t: seq<byte>, a: seq<Item>, x: Item, y: Item, b: seq<Item>)
    requires Resizing(s, a, x, Item(x.key, y.data), b) && 25 * |a| + 25 <= |s|
    requires t == Written(s, 25 * |a|, KeyBytes(y.key))
    ensures Resizing(t, a, Item(y.key, x.data), y, b)
  {
    hide HeadersAt, At, DataLength, DataBytes, SameOutside, Written, KeyBytes;
    var at, end := 25 * |a|, |s| - DataLength(a);
    SameSize(s, t, at, at + 17);
    LengthOne(y);
    LengthOne(Item(x.key, y.data));
    HeadersKeep(s, t, at, at + 17, 0, a, |s|);
    RekeyOne(s, |a|, x, end - |y.data| + |x.data|, Item(y.key, x.data));
    HeadersKeep(s, t, at, at + 17, |a| + 1, b, end - |y.data|);
    DataKeep(s, t, at, at + 17, a, |s|);
    DataKeep(s, t, at, at + 17, [Item(x.key, y.data)], end);
    DataKeep(s, t, at, at + 17, b, end - |y.data|);
  }

  lemma {:induction false} SpaceLengths(items: seq<Item>)
    ensures SpaceUsed(items) == 25 * |items| + DataLength(items)
  {
  }

  /** A buffer during a split, data aside: `head` is the header at slot |a|, then (if any) the header of the
      new item, then b's headers one slot further than before. */
  ghost predicate Splitting(s: seq<byte>, a: seq<Item>, head: Item, headEnd: int, len: int, b: seq<Item>) {
    var end := |s| - DataLength(a);
    && len >= 0 && SpaceUsed(a) + 50 + len + SpaceUsed(b) <= |s| < 0x8000_0000
    && HeadersAt(s, 0, a, |s|) && HeadersAt(s, |a|, [head], headEnd) && HeadersAt(s, |a| + 2, b, end - len)
    && DataAt(s, a, |s|) && DataAt(s, b, end - len)
  }

  /** Where the item to be split lies, and the room for one header more. */
  lemma {:induction false} SplitPlace(s: seq<byte>, items: seq<Item>, slot: nat)
    requires Rep(s, items) && slot < |items| && SpaceUsed(items) + 25 <= |s|
    ensures 25 * |items| + 25 <= |s| < 0x8000_0000
    ensures var x, at := items[slot], OffsetAt(s, slot);
            && SizeAt(s, slot) == |x.data| && at + |x.data| == |s| - DataLength(items[..slot])
            && 0 <= at && at + |x.data| <= |s| && s[at..at + |x.data|] == x.data
  {
    hide Rep, At, DataLength, SpaceUsed, SizeAt, OffsetAt, KeyAt;
    RepRoom(s, items);
    RepReads(s, items, slot);
    SpaceLengths(items);
    AtBounds(s, OffsetAt(s, slot), items[slot].data);
  }

  /** A change of one of the two headers in the middle, or of the data between b and a. */
  lemma {:induction false} SplittingStep(s: seq<byte>, t: seq<byte>, a: seq<Item>, head: Item, headEnd: int,
                                         head': Item, headEnd': int, len: int, b: seq<Item>, lo: int, hi: int)
    requires Splitting(s, a, head, headEnd, len, b) && SameOutside(s, t, lo, hi)
    requires || (25 * |a| <= lo && hi <= 25 * (|a| + 2))
             || (|s| - DataLength(a) - len <= lo && hi <= |s| - DataLength(a))
    requires HeadersAt(t, |a|, [head'], headEnd')
    ensures Splitting(t, a, head', headEnd', len, b)
  {
    hide HeadersAt, DataAt, At, DataLength, SameOutside;
    SameSize(s, t, lo, hi);
    HeadersKeep(s, t, lo, hi, 0, a, |s|);
    HeadersKeep(s, t, lo, hi, |a| + 2, b, |s| - DataLength(a) - len);
    DataKeep(s, t, lo, hi, a, |s|);
    DataKeep(s, t, lo, hi, b, |s| - DataLength(a) - len);
  }

  lemma {:induction false} SplitShift(s: seq<byte>, t: seq<byte>, items: seq<Item>, slot: nat)
    requires Rep(s, items) && slot < |items| && SpaceUsed(items) + 25 <= |s|
    requires t == Moved(s, 25 * (slot + 2), 25 * (slot + 1), 25 * (|items| - slot - 1))
    ensures var a, x, b := items[..slot], items[slot], items[slot + 1..];
            Splitting(t, a, x, |t| - DataLength(a), |x.data|, b)
  {
    hide HeadersAt, DataAt, At, DataLength, SameOutside, Moved;
    var a, x, b := items[..slot], items[slot], items[slot + 1..];
    assert items == a + ([x] + b);
    RepParts(s, a, [x], b);
    LengthOne(x);
    ItemLengths(items, slot);
    var lo, hi, end := 25 * (slot + 2), 25 * (slot + 2) + 25 * |b|, |s| - DataLength(a);
    SameSize(s, t, lo, hi);
    HeadersKeep(s, t, lo, hi, 0, a, |s|);
    HeadersKeep(s, t, lo, hi, |a|, [x], end);
    HeadersMove(s, slot + 2, slot + 1, |b|, b, end - |x.data|);
    DataKeep(s, t, lo, hi, a, |s|);
    DataKeep(s, t, lo, hi, b, end - |x.data|);
  }

  lemma {:induction false} SplitNew(s: seq<byte>, t: seq<byte>, a: seq<Item>, x: Item, b: seq<Item>)
    requires Splitting(s, a, x, |s| - DataLength(a), |x.data|, b)
    requires SameOutside(s, t, 25 * (|a| + 1), 25 * (|a| + 1) + 25)
    ensures |s| == |t| && Splitting(t, a, x, |s| - DataLength(a), |x.data|, b)
  {
    hide HeadersAt, DataAt, At, DataLength, SameOutside;
    var lo := 25 * (|a| + 1);
    SameSize(s, t, lo, lo + 25);
    HeadersKeep(s, t, lo, lo + 25, |a|, [x], |s| - DataLength(a));
    SplittingStep(s, t, a, x, |s| - DataLength(a), x, |s| - DataLength(a), |x.data|, b, lo, lo + 25);
  }

  lemma {:induction false} SplitOld(s: seq<byte>, s1: seq<byte>, t: seq<byte>, a: seq<Item>, x: Item, p: Item, z: Item,
                                    b: seq<Item>)
    requires Splitting(s, a, x, |s| - DataLength(a), |x.data|, b)
    requires x.data == p.data + z.data && p.key == x.key
    requires HeadersAt(s, |a| + 1, [z], |s| - DataLength(a) - |p.data|)
    requires 25 * |a| + 50 <= |s|
    requires s1 == Written(s, 25 * |a| + 17, ToLittleEndian(|s| - DataLength(a) - |p.data|, 4))
    requires t == Written(s1, 25 * |a| + 21, ToLittleEndian(|p.data|, 4))
    ensures |t| == |s| && Splitting(t, a, p, |s| - DataLength(a), |x.data|, b)
    ensures HeadersAt(t, |a| + 1, [z], |s| - DataLength(a) - |p.data|)
  {
    hide HeadersAt, DataAt, At, DataLength, SameOutside, Written, ToLittleEndian;
    var at, end := 25 * |a|, |s| - DataLength(a);
    SameSize(s, s1, at + 17, at + 21);
    SameSize(s1, t, at + 21, at + 25);
    RebaseOne(s, |a|, x, end, end + |z.data|);
    SplittingStep(s, s1, a, x, end, x, end + |z.data|, |x.data|, b, at + 17, at + 21);
    ResizeOne(s1, |a|, x, end + |z.data|, p, end);
    SplittingStep(s1, t, a, x, end + |z.data|, p, end, |x.data|, b, at + 21, at + 25);
    HeadersKeep(s, s1, at + 17, at + 21, |a| + 1, [z], end - |p.data|);
    HeadersKeep(s1, t, at + 21, at + 25, |a| + 1, [z], end - |p.data|);
  }

  lemma {:induction false} SplitData(s: seq<byte>, s1: seq<byte>, t: seq<byte>, a: seq<Item>, p: Item, z: Item,
                                     b: seq<Item>)
    requires Splitting(s, a, p, |s| - DataLength(a), |p.data| + |z.data|, b)
    requires HeadersAt(s, |a| + 1, [z], |s| - DataLength(a) - |p.data|)
    requires var end := |s| - DataLength(a);
             && |p.data| + |z.data| <= end
             && s1 == Written(s, end - |p.data|, p.data) && t == Written(s1, end - |p.data| - |z.data|, z.data)
    ensures Rep(t, a + ([p, z] + b))
  {
    hide Rep, HeadersAt, At, DataLength, DataBytes, SameOutside, Written;
    var end, mid, low := |s| - DataLength(a), |s| - DataLength(a) - |p.data|, |s| - DataLength(a) - |p.data| - |z.data|;
    SameSize(s, s1, mid, end);
    SameSize(s1, t, low, mid);
    SameOutsideTrans(s, s1, t, mid, end, low, mid, low, end);
    HeadersKeep(s, t, low, end, |a|, [p], end);
    HeadersKeep(s, t, low, end, |a| + 1, [z], mid);
    SplittingStep(s, t, a, p, end, p, end, |p.data| + |z.data|, b, low, end);
    WrittenHas(s, mid, p.data);
    KeepsOutside(s1, t, low, mid, mid, p.data);
    WrittenHas(s1, low, z.data);
    LengthOne(p);
    LengthOne(z);
    assert [p, z] == [p] + [z];
    HeadersSplit(t, |a|, [p], [z], end);
    DataSplit(t, [p], [z], end);
    RepJoin(t, a, [p, z], b);
  }

  lemma {:induction false} MoveNothing(s: seq<byte>, dst: nat, src: nat)
    requires dst <= |s| && src <= |s|
    ensures Moved(s, dst, src, 0) == s
  {
  }

  /** Writing over the data of one item changes that item only. */
  lemma {:induction false} Overwritten(s: seq<byte>, t: seq<byte>, items: seq<Item>, slot: nat, data: seq<byte>)
    requires Rep(s, items) && slot < |items| && |data| == |items[slot].data|
    requires 25 * slot + 25 <= |s| && OffsetAt(s, slot) + |data| <= |s|
    requires t == Written(s, OffsetAt(s, slot), data)
    ensures Rep(t, items[slot := Item(items[slot].key, data)])
  {
    hide Rep, HeadersAt, At, DataLength, DataBytes, Layout, Table, SameOutside, Written, OffsetAt, SizeAt, KeyAt;
    var a, x, b := items[..slot], items[slot], items[slot + 1..];
    var y := Item(x.key, data);
    assert items == a + ([x] + b);
    RepReads(s, items, slot);
    RepParts(s, a, [x], b);
    RepLengths(s, a, [x], b);
    LengthOne(x);
    LengthOne(y);
    var lo := OffsetAt(s, slot);
    var end := lo + |data|;
    SameSize(s, t, lo, end);
    HeadersKeep(s, t, lo, end, 0, a, |s|);
    HeadersKeep(s, t, lo, end, slot, [x], end);
    SameHeader(t, slot, x, y, end);
    HeadersKeep(s, t, lo, end, slot + 1, b, lo);
    DataKeep(s, t, lo, end, a, |s|);
    WrittenHas(s, lo, data);
    DataKeep(s, t, lo, end, b, lo);
    RepJoin(t, a, [y], b);
    ReplaceAt(items, slot, y);
  }

  lemma {:induction false} SameHeader(s: seq<byte>, slot: nat, x: Item, y: Item, end: int)
    requires HeadersAt(s, slot, [x], end) && x.key == y.key && |x.data| == |y.data|
    ensures HeadersAt(s, slot, [y], end)
  {
    hide At, Table;
    LengthOne(x);
    LengthOne(y);
    assert Layout([x], end) == Layout([y], end);
  }
}
