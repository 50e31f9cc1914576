/** The on-disk leaf: one byte buffer shared by two stacks.  Item headers grow from the front, item
    data grows from the back.

    `Rep` ties the bytes to a list of (key, bytes) items; the accessors read header fields back out of
    the bytes exactly where the C struct layout puts them. */
module LeafFormat {
  import opened Basics
  import opened Regions

  /** struct btrfs_disk_key: 8 + 1 + 8 bytes, packed. */
  datatype Key = Key(objectid: u64, kind: byte, offset: u64)

  /** struct btrfs_item, 25 bytes: a key, then the offset and size of the item's data. */
  datatype Header = Header(key: Key, offset: u32, size: u32)

  datatype Item = Item(key: Key, data: seq<byte>)

  /** btrfs_comp_cpu_keys: lexicographic on (objectid, type, offset). */
  function CompareKeys(a: Key, b: Key): int {
    if a.objectid > b.objectid then 1
    else if a.objectid < b.objectid then -1
    else if a.kind > b.kind then 1
    else if a.kind < b.kind then -1
    else if a.offset > b.offset then 1
    else if a.offset < b.offset then -1
    else 0
  }

  predicate KeyLess(a: Key, b: Key) { CompareKeys(a, b) < 0 }

  // ---------- little-endian integers ----------

  function PowerOf256(w: nat): (p: nat)
    ensures p > 0
  {
    if w == 0 then 1 else 256 * PowerOf256(w - 1)
  }

  function ToLittleEndian(v: nat, w: nat): (s: seq<byte>)
    ensures |s| == w
  {
    if w == 0 then [] else [v % 256] + ToLittleEndian(v / 256, w - 1)
  }

  function FromLittleEndian(s: seq<byte>): (v: nat)
    ensures v < PowerOf256(|s|)
  {
    if s == [] then 0 else s[0] + 256 * FromLittleEndian(s[1..])
  }

  lemma {:induction false} LittleEndianRoundTrip(v: nat, w: nat)
    requires v < PowerOf256(w)
    ensures FromLittleEndian(ToLittleEndian(v, w)) == v
  {
    if w != 0 {
      var s := ToLittleEndian(v, w);
      assert s[1..] == ToLittleEndian(v / 256, w - 1);
      LittleEndianRoundTrip(v / 256, w - 1);
    }
  }

  lemma {:induction false} Powers()
    ensures PowerOf256(4) == 0x1_0000_0000
    ensures PowerOf256(8) == 0x1_0000_0000_0000_0000
  {
    assert PowerOf256(2) == 0x1_0000;
    assert PowerOf256(4) == 0x1_0000 * PowerOf256(2);
    assert PowerOf256(6) == 0x1_0000 * PowerOf256(4);
    assert PowerOf256(8) == 0x1_0000 * PowerOf256(6);
  }

  // ---------- one header ----------

  function KeyBytes(k: Key): (s: seq<byte>)
    ensures |s| == 17
  {
    ToLittleEndian(k.objectid, 8) + ([k.kind] + ToLittleEndian(k.offset, 8))
  }

  function HeaderBytes(h: Header): (s: seq<byte>)
    ensures |s| == 25
  {
    KeyBytes(h.key) + (ToLittleEndian(h.offset, 4) + ToLittleEndian(h.size, 4))
  }

  // The accessors of ctree.h on header i: they read at fixed positions of the buffer.

  function Unsigned32(s: seq<byte>): u32
    requires |s| == 4
  {
    Powers(); FromLittleEndian(s)
  }

  function Unsigned64(s: seq<byte>): u64
    requires |s| == 8
  {
    Powers(); FromLittleEndian(s)
  }

  function KeyAt(s: seq<byte>, i: nat): Key
    requires 25 * i + 25 <= |s|
  {
    Key(Unsigned64(s[25 * i..25 * i + 8]), s[25 * i + 8], Unsigned64(s[25 * i + 9..25 * i + 17]))
  }

  function OffsetAt(s: seq<byte>, i: nat): u32
    requires 25 * i + 25 <= |s|
  {
    Unsigned32(s[25 * i + 17..25 * i + 21])
  }

  function SizeAt(s: seq<byte>, i: nat): u32
    requires 25 * i + 25 <= |s|
  {
    Unsigned32(s[25 * i + 21..25 * i + 25])
  }

  /** Where the fields of an encoded header sit. */
  lemma {:induction false} HeaderFields(s: seq<byte>, at: int, h: Header)
    requires At(s, at, HeaderBytes(h))
    ensures At(s, at, KeyBytes(h.key))
    ensures At(s, at + 17, ToLittleEndian(h.offset, 4)) && At(s, at + 21, ToLittleEndian(h.size, 4))
  {
    AtSplit(s, at, KeyBytes(h.key), ToLittleEndian(h.offset, 4) + ToLittleEndian(h.size, 4));
    AtSplit(s, at + 17, ToLittleEndian(h.offset, 4), ToLittleEndian(h.size, 4));
  }

  lemma {:induction false} KeyReads(s: seq<byte>, i: nat, k: Key)
    requires At(s, 25 * i, KeyBytes(k)) && 25 * i + 25 <= |s|
    ensures KeyAt(s, i) == k
  {
    AtSplit(s, 25 * i, ToLittleEndian(k.objectid, 8), [k.kind] + ToLittleEndian(k.offset, 8));
    AtSplit(s, 25 * i + 8, [k.kind], ToLittleEndian(k.offset, 8));
    assert s[25 * i + 8] == s[25 * i + 8..25 * i + 9][0];
    Powers();
    LittleEndianRoundTrip(k.objectid, 8);
    LittleEndianRoundTrip(k.offset, 8);
  }

  /** Reading back the three fields of an encoded header gives the header. */
  lemma {:induction false} HeaderReads(s: seq<byte>, i: nat, h: Header)
    requires At(s, 25 * i, HeaderBytes(h))
    ensures KeyAt(s, i) == h.key && OffsetAt(s, i) == h.offset && SizeAt(s, i) == h.size
  {
    HeaderFields(s, 25 * i, h);
    KeyReads(s, i, h.key);
    Powers();
    LittleEndianRoundTrip(h.offset, 4);
    LittleEndianRoundTrip(h.size, 4);
  }

  // ---------- a table of headers ----------

  function Table(hs: seq<Header>): (s: seq<byte>)
    ensures |s| == 25 * |hs|
  {
    if hs == [] then [] else HeaderBytes(hs[0]) + Table(hs[1..])
  }

  lemma {:induction false} TableConcat(a: seq<Header>, b: seq<Header>)
    ensures Table(a + b) == Table(a) + Table(b)
  {
    if a == [] {
      assert a + b == b;
    } else {
      assert (a + b)[1..] == a[1..] + b;
      TableConcat(a[1..], b);
    }
  }

  /** A table sits in the buffer iff its two parts sit one after the other. */
  lemma {:induction false} TableAt(s: seq<byte>, at: int, a: seq<Header>, b: seq<Header>)
    ensures At(s, at, Table(a + b)) <==> At(s, at, Table(a)) && At(s, at + 25 * |a|, Table(b))
  {
    hide *;
    TableConcat(a, b);
    if At(s, at, Table(a + b)) {
      AtSplit(s, at, Table(a), Table(b));
    } else if At(s, at, Table(a)) && At(s, at + 25 * |a|, Table(b)) {
      AtJoin(s, at, Table(a), Table(b));
    }
  }

  lemma {:induction false} TableOne(h: Header)
    ensures Table([h]) == HeaderBytes(h)
  {
    assert [h][1..] == [];
    assert Table([]) == [];
  }

  // ---------- items ----------

  function DataLength(items: seq<Item>): nat {
    if items == [] then 0 else |items[0].data| + DataLength(items[1..])
  }

  /** The bytes an item list takes up: leaf_space_used over all of it. */
  function SpaceUsed(items: seq<Item>): nat {
    25 * |items| + DataLength(items)
  }

  /** The headers of items whose data stack starts (at its high end) at `end`. */
  function Layout(items: seq<Item>, end: int): (hs: seq<Header>)
    requires DataLength(items) <= end < 0x1_0000_0000
    ensures |hs| == |items|
  {
    if items == [] then []
    else
      var start := end - |items[0].data|;
      [Header(items[0].key, start, |items[0].data|)] + Layout(items[1..], start)
  }

  /** The data area, low address first: the last item comes first. */
  function DataBytes(items: seq<Item>): (s: seq<byte>)
    ensures |s| == DataLength(items)
  {
    if items == [] then [] else DataBytes(items[1..]) + items[0].data
  }

  lemma {:induction false} LengthConcat(a: seq<Item>, b: seq<Item>)
    ensures DataLength(a + b) == DataLength(a) + DataLength(b)
    ensures SpaceUsed(a + b) == SpaceUsed(a) + SpaceUsed(b)
  {
    if a == [] {
      assert a + b == b;
    } else {
      assert (a + b)[1..] == a[1..] + b;
      LengthConcat(a[1..], b);
    }
  }

  lemma {:induction false} DataConcat(a: seq<Item>, b: seq<Item>)
    ensures DataBytes(a + b) == DataBytes(b) + DataBytes(a)
  {
    if a == [] {
      assert a + b == b;
    } else {
      assert (a + b)[1..] == a[1..] + b;
      DataConcat(a[1..], b);
    }
  }

  lemma {:induction false} LayoutFirst(items: seq<Item>, end: int)
    requires items != [] && DataLength(items) <= end < 0x1_0000_0000
    ensures DataLength(items) == |items[0].data| + DataLength(items[1..])
    ensures var start := end - |items[0].data|;
            Layout(items, end) == [Header(items[0].key, start, |items[0].data|)] + Layout(items[1..], start)
  {
  }

  lemma {:induction false} NoLayout(end: int)
    requires 0 <= end < 0x1_0000_0000
    ensures DataLength([]) == 0 && Layout([], end) == []
  {
  }

  lemma {:induction false} LayoutConcat(a: seq<Item>, b: seq<Item>, end: int)
    requires DataLength(a) + DataLength(b) <= end < 0x1_0000_0000
    ensures DataLength(a + b) == DataLength(a) + DataLength(b)
    ensures Layout(a + b, end) == Layout(a, end) + Layout(b, end - DataLength(a))
  {
    hide Layout;
    LengthConcat(a, b);
    if a == [] {
      assert a + b == b;
      NoLayout(end);
    } else {
      assert (a + b)[1..] == a[1..] + b;
      LayoutFirst(a, end);
      LayoutFirst(a + b, end);
      LayoutConcat(a[1..], b, end - |a[0].data|);
    }
  }

  // ---------- the representation ----------

  /** The headers of `items`, for a data stack starting at `end`, sit from slot `slot` on. */
  ghost predicate HeadersAt(s: seq<byte>, slot: int, items: seq<Item>, end: int) {
    && DataLength(items) <= end < 0x1_0000_0000
    && At(s, 25 * slot, Table(Layout(items, end)))
  }

  /** The data of `items` sits in the buffer, ending at `end`. */
  ghost predicate DataAt(s: seq<byte>, items: seq<Item>, end: int) {
    At(s, end - DataLength(items), DataBytes(items))
  }

  /** The buffer `s` (BTRFS_LEAF_DATA_SIZE bytes) holds exactly `items`: headers in front, data behind,
      the two not overlapping. */
  ghost predicate Rep(s: seq<byte>, items: seq<Item>) {
    && SpaceUsed(items) <= |s| < 0x8000_0000
    && HeadersAt(s, 0, items, |s|)
    && DataAt(s, items, |s|)
  }

  lemma {:induction false} HeadersSplit(s: seq<byte>, slot: int, a: seq<Item>, b: seq<Item>, end: int)
    requires end < 0x1_0000_0000
    ensures HeadersAt(s, slot, a + b, end)
       <==> HeadersAt(s, slot, a, end) && HeadersAt(s, slot + |a|, b, end - DataLength(a))
  {
    hide At, Table, Layout, DataLength;
    LengthConcat(a, b);
    if DataLength(a + b) <= end {
      LayoutConcat(a, b, end);
      var hs, gs := Layout(a, end), Layout(b, end - DataLength(a));
      assert 25 * slot + 25 * |hs| == 25 * (slot + |a|);
      TableAt(s, 25 * slot, hs, gs);
    }
  }

  lemma {:induction false} DataSplit(s: seq<byte>, a: seq<Item>, b: seq<Item>, end: int)
    ensures DataLength(a + b) == DataLength(a) + DataLength(b)
    ensures DataAt(s, a + b, end) <==> DataAt(s, a, end) && DataAt(s, b, end - DataLength(a))
  {
    hide At, DataBytes, DataLength;
    LengthConcat(a, b);
    DataConcat(a, b);
    var at := end - DataLength(a + b);
    if At(s, at, DataBytes(a + b)) {
      AtSplit(s, at, DataBytes(b), DataBytes(a));
    } else if At(s, at, DataBytes(b)) && At(s, at + DataLength(b), DataBytes(a)) {
      AtJoin(s, at, DataBytes(b), DataBytes(a));
    }
  }

  /** What the accessors see of one represented item. */
  lemma {:induction false} OneReads(s: seq<byte>, slot: nat, x: Item, end: int)
    requires HeadersAt(s, slot, [x], end)
    ensures 25 * slot + 25 <= |s|
    ensures KeyAt(s, slot) == x.key && SizeAt(s, slot) == |x.data| && OffsetAt(s, slot) == end - |x.data|
  {
    assert DataLength([x]) == |x.data| + DataLength([]);
    var h := Header(x.key, end - |x.data|, |x.data|);
    assert Layout([x], end) == [h];
    TableOne(h);
    HeaderReads(s, slot, h);
  }

  /** What the accessors see of item i of a represented list: its key, its size, where its data sits and
      the data itself. */
  lemma {:induction false} RepReads(s: seq<byte>, items: seq<Item>, i: nat)
    requires Rep(s, items) && i < |items|
    ensures 25 * i + 25 <= |s|
    ensures KeyAt(s, i) == items[i].key && SizeAt(s, i) == |items[i].data|
    ensures OffsetAt(s, i) + SizeAt(s, i) == |s| - DataLength(items[..i])
    ensures At(s, OffsetAt(s, i), items[i].data)
  {
    hide At, Table, Layout, DataLength, DataBytes, HeadersAt, SpaceUsed, KeyAt, SizeAt, OffsetAt;
    var a, x, b := items[..i], items[i], items[i + 1..];
    assert items == a + ([x] + b);
    RepParts(s, a, [x], b);
    OneReads(s, i, x, |s| - DataLength(a));
    OneData(x);
  }

  lemma {:induction false} OneData(x: Item)
    ensures DataBytes([x]) == x.data && DataLength([x]) == |x.data|
  {
    assert DataBytes([x]) == DataBytes([]) + x.data == x.data;
  }

  /** Where a middle run of a represented list sits. */
  lemma {:induction false} RepParts(s: seq<byte>, a: seq<Item>, m: seq<Item>, b: seq<Item>)
    requires Rep(s, a + (m + b))
    ensures DataLength(a + (m + b)) == DataLength(a) + DataLength(m) + DataLength(b)
    ensures HeadersAt(s, 0, a, |s|)
    ensures HeadersAt(s, |a|, m, |s| - DataLength(a))
    ensures HeadersAt(s, |a| + |m|, b, |s| - DataLength(a) - DataLength(m))
    ensures DataAt(s, a, |s|)
    ensures DataAt(s, m, |s| - DataLength(a))
    ensures DataAt(s, b, |s| - DataLength(a) - DataLength(m))
  {
    hide At, Table, Layout, DataLength, DataBytes, HeadersAt, DataAt;
    DataSplit(s, a, m + b, |s|);
    DataSplit(s, m, b, |s| - DataLength(a));
    HeadersSplit(s, 0, a, m + b, |s|);
    HeadersSplit(s, |a|, m, b, |s| - DataLength(a));
  }

  /** The converse: runs that sit in their places make up a represented list. */
  lemma {:induction false} RepJoin(s: seq<byte>, a: seq<Item>, m: seq<Item>, b: seq<Item>)
    requires SpaceUsed(a) + SpaceUsed(m) + SpaceUsed(b) <= |s| < 0x8000_0000
    requires HeadersAt(s, 0, a, |s|)
    requires HeadersAt(s, |a|, m, |s| - DataLength(a))
    requires HeadersAt(s, |a| + |m|, b, |s| - DataLength(a) - DataLength(m))
    requires DataAt(s, a, |s|)
    requires DataAt(s, m, |s| - DataLength(a))
    requires DataAt(s, b, |s| - DataLength(a) - DataLength(m))
    ensures Rep(s, a + (m + b))
  {
    hide At, Table, Layout, DataLength, DataBytes, HeadersAt, DataAt;
    DataSplit(s, a, m + b, |s|);
    DataSplit(s, m, b, |s| - DataLength(a));
    HeadersSplit(s, 0, a, m + b, |s|);
    HeadersSplit(s, |a|, m, b, |s| - DataLength(a));
  }

  /** The bytes determine the list: two lists of one length represented by one buffer are equal. */
  lemma {:induction false} RepUnique(s: seq<byte>, xs: seq<Item>, ys: seq<Item>)
    requires Rep(s, xs) && Rep(s, ys) && |xs| == |ys|
    ensures xs == ys
  {
    forall i | 0 <= i < |xs|
      ensures xs[i] == ys[i]
    {
      RepReads(s, xs, i);
      RepReads(s, ys, i);
    }
  }
}
