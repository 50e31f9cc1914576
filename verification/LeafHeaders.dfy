/** How moves of bytes and rewrites of header fields act on represented items: the steps that every leaf
    edit of ctree.c is put together from. */
module LeafHeaders {
  import opened Basics
  import opened Regions
  import opened LeafFormat

  // ---------- how header rewrites act on represented headers ----------

  /** A change elsewhere leaves a run of headers, or a run of data, alone. */
  lemma {:induction false} HeadersKeep(s: seq<byte>, t: seq<byte>, lo: int, hi: int, slot: int, items: seq<Item>,
                                       end: int)
    requires SameOutside(s, t, lo, hi) && HeadersAt(s, slot, items, end)
    requires 25 * (slot + |items|) <= lo || hi <= 25 * slot
    ensures HeadersAt(t, slot, items, end)
  {
    hide At, Table, Layout, DataLength, SameOutside;
    KeepsOutside(s, t, lo, hi, 25 * slot, Table(Layout(items, end)));
  }

  lemma {:induction false} DataKeep(s: seq<byte>, t: seq<byte>, lo: int, hi: int, items: seq<Item>, end: int)
    requires SameOutside(s, t, lo, hi) && DataAt(s, items, end)
    requires end <= lo || hi <= end - DataLength(items)
    ensures DataAt(t, items, end)
  {
    hide At, DataBytes, DataLength, SameOutside;
    KeepsOutside(s, t, lo, hi, end - DataLength(items), DataBytes(items));
  }

  /** Moving a whole run of headers, or a whole run of data, re-bases it. */
  lemma {:induction false} HeadersMove(s: seq<byte>, dst: nat, src: nat, n: nat, items: seq<Item>, end: int)
    requires 25 * (dst + n) <= |s| && 25 * (src + n) <= |s|
    requires HeadersAt(s, src, items, end) && |items| == n
    ensures HeadersAt(Moved(s, 25 * dst, 25 * src, 25 * n), dst, items, end)
  {
    hide At, Table, Layout, DataLength, Moved;
    MovedBrings(s, 25 * dst, 25 * src, 25 * n, 25 * src, Table(Layout(items, end)));
  }

  lemma {:induction false} DataMove(s: seq<byte>, dst: nat, src: nat, n: nat, items: seq<Item>, end: int)
    requires dst + n <= |s| && src + n <= |s|
    requires DataAt(s, items, end) && src <= end - DataLength(items) && end <= src + n
    ensures DataAt(Moved(s, dst, src, n), items, end - src + dst)
  {
    hide At, DataBytes, DataLength, Moved;
    MovedBrings(s, dst, src, n, end - DataLength(items), DataBytes(items));
  }

  /** The header of one item, written field by field. */
  lemma {:induction false} OneHeader(s: seq<byte>, slot: nat, x: Item, end: int)
    requires |x.data| <= end < 0x1_0000_0000
    requires At(s, 25 * slot, KeyBytes(x.key))
    requires At(s, 25 * slot + 17, ToLittleEndian(end - |x.data|, 4))
    requires At(s, 25 * slot + 21, ToLittleEndian(|x.data|, 4))
    ensures HeadersAt(s, slot, [x], end)
  {
    hide At, Table, ToLittleEndian;
    var h := Header(x.key, end - |x.data|, |x.data|);
    AtJoin(s, 25 * slot + 17, ToLittleEndian(h.offset, 4), ToLittleEndian(h.size, 4));
    AtJoin(s, 25 * slot, KeyBytes(x.key), ToLittleEndian(h.offset, 4) + ToLittleEndian(h.size, 4));
    TableOne(h);
    assert DataLength([x]) == |x.data|;
    assert Layout([x], end) == [h];
  }

  lemma {:induction false} OneHeaderFields(s: seq<byte>, slot: nat, x: Item, end: int)
    requires HeadersAt(s, slot, [x], end)
    ensures |x.data| <= end < 0x1_0000_0000
    ensures At(s, 25 * slot, KeyBytes(x.key))
    ensures At(s, 25 * slot + 17, ToLittleEndian(end - |x.data|, 4))
    ensures At(s, 25 * slot + 21, ToLittleEndian(|x.data|, 4))
  {
    hide At, Table, ToLittleEndian;
    assert DataLength([x]) == |x.data|;
    var h := Header(x.key, end - |x.data|, |x.data|);
    assert Layout([x], end) == [h];
    TableOne(h);
    HeaderFields(s, 25 * slot, h);
  }

  /** Rewriting the offset field of the first header of a run re-bases that header only. */
  lemma {:induction false} RebaseOne(s: seq<byte>, slot: nat, x: Item, end: int, newEnd: int)
    requires HeadersAt(s, slot, [x], end) && |x.data| <= newEnd < 0x1_0000_0000
    ensures 25 * slot + 25 <= |s|
    ensures HeadersAt(Written(s, 25 * slot + 17, ToLittleEndian(newEnd - |x.data|, 4)), slot, [x], newEnd)
  {
    OneReads(s, slot, x, end);
    OneHeaderFields(s, slot, x, end);
    hide *;
    var w := ToLittleEndian(newEnd - |x.data|, 4);
    var t := Written(s, 25 * slot + 17, w);
    KeepsOutside(s, t, 25 * slot + 17, 25 * slot + 21, 25 * slot, KeyBytes(x.key));
    KeepsOutside(s, t, 25 * slot + 17, 25 * slot + 21, 25 * slot + 21, ToLittleEndian(|x.data|, 4));
    WrittenHas(s, 25 * slot + 17, w);
    OneHeader(t, slot, x, newEnd);
  }

  /** Rewriting the size field of a header: the same place, another length. */
  lemma {:induction false} ResizeOne(s: seq<byte>, slot: nat, x: Item, end: int, y: Item, newEnd: int)
    requires HeadersAt(s, slot, [x], end) && y.key == x.key
    requires end - |x.data| == newEnd - |y.data| && newEnd < 0x1_0000_0000
    ensures 25 * slot + 25 <= |s|
    ensures HeadersAt(Written(s, 25 * slot + 21, ToLittleEndian(|y.data|, 4)), slot, [y], newEnd)
  {
    OneReads(s, slot, x, end);
    OneHeaderFields(s, slot, x, end);
    hide *;
    var w := ToLittleEndian(|y.data|, 4);
    var t := Written(s, 25 * slot + 21, w);
    KeepsOutside(s, t, 25 * slot + 21, 25 * slot + 25, 25 * slot, KeyBytes(x.key));
    KeepsOutside(s, t, 25 * slot + 21, 25 * slot + 25, 25 * slot + 17, ToLittleEndian(end - |x.data|, 4));
    WrittenHas(s, 25 * slot + 21, w);
    OneHeader(t, slot, y, newEnd);
  }

  /** Rewriting the key of a header. */
  lemma {:induction false} RekeyOne(s: seq<byte>, slot: nat, x: Item, end: int, y: Item)
    requires HeadersAt(s, slot, [x], end) && |y.data| == |x.data|
    ensures 25 * slot + 25 <= |s|
    ensures HeadersAt(Written(s, 25 * slot, KeyBytes(y.key)), slot, [y], end)
  {
    OneReads(s, slot, x, end);
    OneHeaderFields(s, slot, x, end);
    hide *;
    var w := KeyBytes(y.key);
    var t := Written(s, 25 * slot, w);
    KeepsOutside(s, t, 25 * slot, 25 * slot + 17, 25 * slot + 17, ToLittleEndian(end - |x.data|, 4));
    KeepsOutside(s, t, 25 * slot, 25 * slot + 17, 25 * slot + 21, ToLittleEndian(|x.data|, 4));
    WrittenHas(s, 25 * slot, w);
    OneHeader(t, slot, y, end);
  }

  /** Splits the first item off a run of headers. */
  lemma {:induction false} HeadersFirst(s: seq<byte>, slot: nat, items: seq<Item>, end: int)
    requires HeadersAt(s, slot, items, end) && items != []
    ensures HeadersAt(s, slot, [items[0]], end)
    ensures HeadersAt(s, slot + 1, items[1..], end - |items[0].data|)
  {
    assert items == [items[0]] + items[1..];
    assert DataLength([items[0]]) == |items[0].data|;
    HeadersSplit(s, slot, [items[0]], items[1..], end);
  }

  lemma {:induction false} HeadersLast(s: seq<byte>, slot: nat, a: seq<Item>, x: Item, end: int)
    requires HeadersAt(s, slot, a, end) && HeadersAt(s, slot + |a|, [x], end - DataLength(a))
    ensures HeadersAt(s, slot, a + [x], end)
    ensures DataLength(a + [x]) == DataLength(a) + |x.data|
  {
    assert DataLength([x]) == |x.data|;
    LengthConcat(a, [x]);
    HeadersSplit(s, slot, a, [x], end);
  }

  /** The loop that corrects the data pointers of n headers from `slot` on by `delta`
      (ctree.c runs it in insert, delete, extend, truncate, push left and leaf split). */
  method ShiftOffsets(buf: array<byte>, slot: nat, n: nat, delta: int, ghost items: seq<Item>, ghost end: int)
    requires |items| == n && HeadersAt(buf[..], slot, items, end)
    requires DataLength(items) <= end + delta < 0x1_0000_0000
    modifies buf
    ensures HeadersAt(buf[..], slot, items, end + delta)
    ensures SameOutside(old(buf[..]), buf[..], 25 * slot, 25 * (slot + n))
  {
    hide At, Table, Layout, DataLength, DataBytes, OffsetAt, KeyAt, SizeAt, ToLittleEndian, Written;
    var i := slot;
    ghost var done, rest := [], items;
    EmptyHeaders(buf[..], slot, items, end, end + delta);
    while i < slot + n
      invariant slot <= i <= slot + n
      invariant items == done + rest && |done| == i - slot
      invariant DataLength(items) == DataLength(done) + DataLength(rest)
      invariant HeadersAt(buf[..], slot, done, end + delta)
      invariant HeadersAt(buf[..], i, rest, end - DataLength(done))
      invariant SameOutside(old(buf[..]), buf[..], 25 * slot, 25 * (slot + n))
    {
      ghost var s, x := buf[..], rest[0];
      ghost var e := end - DataLength(done);
      HeadersFirst(s, i, rest, e);
      OneReads(s, i, x, e);
      LengthFirst(rest);
      RebaseOne(s, i, x, e, e + delta);
      var ioff := OffsetAt(buf[..], i);
      Write(buf, 25 * i + 17, ToLittleEndian(ioff + delta, 4));
      HeadersKeep(s, buf[..], 25 * i + 17, 25 * i + 21, slot, done, end + delta);
      HeadersKeep(s, buf[..], 25 * i + 17, 25 * i + 21, i + 1, rest[1..], e - |x.data|);
      HeadersLast(buf[..], slot, done, x, end + delta);
      done, rest := done + [x], rest[1..];
      i := i + 1;
    }
    assert done == items;
  }

  lemma {:induction false} EmptyHeaders(s: seq<byte>, slot: nat, items: seq<Item>, end: int, end': int)
    requires HeadersAt(s, slot, items, end) && 0 <= end' < 0x1_0000_0000
    ensures DataLength([]) == 0
    ensures HeadersAt(s, slot, [], end')
    ensures SameOutside(s, s, 25 * slot, 25 * (slot + |items|))
  {
  }

  lemma {:induction false} LengthFirst(items: seq<Item>)
    requires items != []
    ensures DataLength(items) == |items[0].data| + DataLength(items[1..])
  {
  }

  // ---------- new items ----------

  function Sum(sizes: seq<nat>): nat {
    if sizes == [] then 0 else sizes[0] + Sum(sizes[1..])
  }

  /** The items that headers for `keys` and `sizes` make of the bytes below `end`: btrfs reserves the room
      and leaves the bytes as they are. */
  ghost function Carve(s: seq<byte>, keys: seq<Key>, sizes: seq<nat>, end: int): (m: seq<Item>)
    requires |keys| == |sizes| && Sum(sizes) <= end <= |s|
    ensures |m| == |keys|
    ensures forall i | 0 <= i < |keys| :: m[i].key == keys[i] && |m[i].data| == sizes[i]
    decreases |keys|
  {
    if keys == [] then []
    else [Item(keys[0], s[end - sizes[0]..end])] + Carve(s, keys[1..], sizes[1..], end - sizes[0])
  }

  lemma {:induction false} CarveData(s: seq<byte>, keys: seq<Key>, sizes: seq<nat>, end: int)
    requires |keys| == |sizes| && Sum(sizes) <= end <= |s|
    ensures DataLength(Carve(s, keys, sizes, end)) == Sum(sizes)
    ensures DataAt(s, Carve(s, keys, sizes, end), end)
    decreases |keys|
  {
    hide At;
    var m := Carve(s, keys, sizes, end);
    if keys == [] {
      EmptyAt(s, end);
    } else {
      CarveData(s, keys[1..], sizes[1..], end - sizes[0]);
      assert m[1..] == Carve(s, keys[1..], sizes[1..], end - sizes[0]);
      SliceAt(s, end - sizes[0], end);
      AtJoin(s, end - Sum(sizes), DataBytes(m[1..]), m[0].data);
    }
  }

  lemma {:induction false} EmptyAt(s: seq<byte>, end: int)
    requires 0 <= end <= |s|
    ensures At(s, end, [])
  {
  }

  lemma {:induction false} SliceAt(s: seq<byte>, lo: int, hi: int)
    requires 0 <= lo <= hi <= |s|
    ensures At(s, lo, s[lo..hi])
  {
  }

  /** btrfs_set_item_key, btrfs_set_item_offset and btrfs_set_item_size on one header. */
  method WriteHeader(buf: array<byte>, slot: nat, key: Key, offset: nat, size: nat, ghost x: Item)
    requires x.key == key && |x.data| == size && offset + size < 0x1_0000_0000 && 25 * slot + 25 <= buf.Length
    modifies buf
    ensures HeadersAt(buf[..], slot, [x], offset + size)
    ensures SameOutside(old(buf[..]), buf[..], 25 * slot, 25 * slot + 25)
  {
    hide At, HeadersAt, ToLittleEndian, Written, KeyBytes, SameOutside;
    ghost var s := buf[..];
    Write(buf, 25 * slot, KeyBytes(key));
    ghost var s1 := buf[..];
    Write(buf, 25 * slot + 17, ToLittleEndian(offset, 4));
    ghost var s2 := buf[..];
    Write(buf, 25 * slot + 21, ToLittleEndian(size, 4));
    FreshHeader(s, s1, s2, buf[..], slot, x, offset + size);
  }

  /** The loop of setup_items_for_insert that fills in the new headers. */
  method WriteHeaders(buf: array<byte>, slot: nat, keys: seq<Key>, sizes: seq<nat>, end: nat, ghost m: seq<Item>)
    requires |keys| == |sizes| == |m|
    requires forall i | 0 <= i < |m| :: m[i].key == keys[i] && |m[i].data| == sizes[i]
    requires DataLength(m) <= end < 0x1_0000_0000 && 25 * (slot + |m|) <= buf.Length
    modifies buf
    ensures HeadersAt(buf[..], slot, m, end)
    ensures SameOutside(old(buf[..]), buf[..], 25 * slot, 25 * (slot + |m|))
  {
    hide At, Table, Layout, DataLength, DataBytes, ToLittleEndian, Written, KeyBytes;
    var dataEnd := end;
    ghost var done, rest := [], m;
    NoHeaders(buf[..], slot, end);
    var i := 0;
    while i < |keys|
      invariant 0 <= i <= |keys| && m == done + rest && |done| == i
      invariant dataEnd == end - DataLength(done) && DataLength(m) == DataLength(done) + DataLength(rest)
      invariant HeadersAt(buf[..], slot, done, end)
      invariant SameOutside(old(buf[..]), buf[..], 25 * slot, 25 * (slot + |m|))
    {
      ghost var s, x := buf[..], rest[0];
      LengthFirst(rest);
      assert x == m[i];
      WriteHeader(buf, slot + i, keys[i], dataEnd - sizes[i], sizes[i], x);
      HeadersKeep(s, buf[..], 25 * (slot + i), 25 * (slot + i) + 25, slot, done, end);
      HeadersLast(buf[..], slot, done, x, end);
      SameOutsideTrans(old(buf[..]), s, buf[..], 25 * slot, 25 * (slot + |m|), 25 * (slot + i), 25 * (slot + i) + 25,
                       25 * slot, 25 * (slot + |m|));
      dataEnd := dataEnd - sizes[i];
      done, rest := done + [x], rest[1..];
      i := i + 1;
    }
    assert done == m;
  }

  lemma {:induction false} NoHeaders(s: seq<byte>, slot: nat, end: int)
    requires 0 <= end < 0x1_0000_0000 && 25 * slot <= |s|
    ensures DataLength([]) == 0
    ensures HeadersAt(s, slot, [], end)
    ensures forall hi :: 25 * slot <= hi <= |s| ==> SameOutside(s, s, 25 * slot, hi)
  {
  }

  /** Key, offset and size written one after the other make one header. */
  lemma {:induction false} FreshHeader(s: seq<byte>, s1: seq<byte>, s2: seq<byte>, s3: seq<byte>, slot: nat, x: Item,
                                       end: int)
    requires |x.data| <= end < 0x1_0000_0000 && 25 * slot + 25 <= |s|
    requires s1 == Written(s, 25 * slot, KeyBytes(x.key))
    requires |s1| == |s| && s2 == Written(s1, 25 * slot + 17, ToLittleEndian(end - |x.data|, 4))
    requires |s2| == |s| && s3 == Written(s2, 25 * slot + 21, ToLittleEndian(|x.data|, 4))
    ensures HeadersAt(s3, slot, [x], end)
    ensures SameOutside(s, s3, 25 * slot, 25 * slot + 25)
  {
    hide At, ToLittleEndian, KeyBytes, Written, HeadersAt;
    var at := 25 * slot;
    WrittenHas(s, at, KeyBytes(x.key));
    KeepsOutside(s1, s2, at + 17, at + 21, at, KeyBytes(x.key));
    KeepsOutside(s2, s3, at + 21, at + 25, at, KeyBytes(x.key));
    WrittenHas(s1, at + 17, ToLittleEndian(end - |x.data|, 4));
    KeepsOutside(s2, s3, at + 21, at + 25, at + 17, ToLittleEndian(end - |x.data|, 4));
    WrittenHas(s2, at + 21, ToLittleEndian(|x.data|, 4));
    OneHeader(s3, slot, x, end);
    SameOutsideTrans(s, s1, s2, at, at + 17, at + 17, at + 21, at, at + 25);
    SameOutsideTrans(s, s2, s3, at, at + 25, at + 21, at + 25, at, at + 25);
  }
}
