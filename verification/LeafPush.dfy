/** Moving items between two leaves, on the bytes: the copying halves of __push_leaf_right,
    __push_leaf_left and copy_for_split.  Both leaves have BTRFS_LEAF_DATA_SIZE bytes. */
module LeafPush {
  import opened Basics
  import opened Regions
  import opened LeafFormat
  import opened LeafHeaders
  import opened LeafEdit

  // ---------- copying between buffers ----------

  /** copy_extent_buffer brings a run of headers, or of data, over from another buffer. */
  lemma {:induction false} HeadersCopy(src: seq<byte>, t: seq<byte>, dst: nat, from: nat, items: seq<Item>, end: int,
                                       u: seq<byte>)
    requires 25 * (from + |items|) <= |src| && 25 * (dst + |items|) <= |t|
    requires HeadersAt(src, from, items, end)
    requires u == Written(t, 25 * dst, src[25 * from..25 * (from + |items|)])
    ensures HeadersAt(u, dst, items, end)
  {
    hide Table, Layout, DataLength, Written;
    WrittenHas(t, 25 * dst, src[25 * from..25 * (from + |items|)]);
    assert Table(Layout(items, end)) == src[25 * from..25 * (from + |items|)];
  }

  lemma {:induction false} DataCopy(src: seq<byte>, t: seq<byte>, end: nat, srcEnd: nat, items: seq<Item>, u: seq<byte>)
    requires DataAt(src, items, srcEnd) && DataLength(items) <= srcEnd <= |src| && DataLength(items) <= end <= |t|
    requires u == Written(t, end - DataLength(items), src[srcEnd - DataLength(items)..srcEnd])
    ensures DataAt(u, items, end)
  {
    hide DataBytes, DataLength, Written;
    WrittenHas(t, end - DataLength(items), src[srcEnd - DataLength(items)..srcEnd]);
    assert DataBytes(items) == src[srcEnd - DataLength(items)..srcEnd];
  }

  // ---------- recomputing all offsets ----------

  /** The key and the size of x are in header i; the offset may be anything. */
  ghost predicate KeyAndSize(s: seq<byte>, i: nat, x: Item) {
    && 25 * i + 25 <= |s| && |x.data| < 0x1_0000_0000
    && At(s, 25 * i, KeyBytes(x.key))
    && At(s, 25 * i + 21, ToLittleEndian(|x.data|, 4))
  }

  ghost predicate KeysAndSizes(s: seq<byte>, slot: nat, items: seq<Item>) {
    forall i | 0 <= i < |items| :: KeyAndSize(s, slot + i, items[i])
  }

  lemma {:induction false} HeadersLoose(s: seq<byte>, slot: nat, items: seq<Item>, end: int)
    requires HeadersAt(s, slot, items, end)
    ensures KeysAndSizes(s, slot, items)
  {
    hide At, HeadersAt, DataLength, ToLittleEndian, KeyBytes, KeyAt, OffsetAt, SizeAt;
    HeadersBound(s, slot, items, end);
    forall i | 0 <= i < |items|
      ensures KeyAndSize(s, slot + i, items[i])
    {
      var a, x, b := items[..i], items[i], items[i + 1..];
      assert items == a + ([x] + b);
      HeadersSplit(s, slot, a, [x] + b, end);
      HeadersSplit(s, slot + i, [x], b, end - DataLength(a));
      OneHeaderFields(s, slot + i, x, end - DataLength(a));
      OneReads(s, slot + i, x, end - DataLength(a));
    }
  }

  lemma {:induction false} HeadersBound(s: seq<byte>, slot: nat, items: seq<Item>, end: int)
    requires HeadersAt(s, slot, items, end)
    ensures end < 0x1_0000_0000
  {
  }

  lemma {:induction false} LooseJoin(s: seq<byte>, slot: nat, a: seq<Item>, b: seq<Item>)
    requires KeysAndSizes(s, slot, a) && KeysAndSizes(s, slot + |a|, b)
    ensures KeysAndSizes(s, slot, a + b)
  {
    hide KeyAndSize;
    forall i | 0 <= i < |a + b|
      ensures KeyAndSize(s, slot + i, (a + b)[i])
    {
      if i < |a| {
        assert KeyAndSize(s, slot + i, a[i]);
      } else {
        assert KeyAndSize(s, slot + |a| + (i - |a|), b[i - |a|]);
      }
    }
  }

  /** The loop that gives the n headers of a leaf their offsets from scratch, counting down from the end of the
      leaf. */
  method RecomputeOffsets(buf: array<byte>, n: nat, ghost items: seq<Item>)
    requires |items| == n && KeysAndSizes(buf[..], 0, items)
    requires SpaceUsed(items) <= buf.Length < 0x8000_0000
    modifies buf
    ensures HeadersAt(buf[..], 0, items, buf.Length)
    ensures SameOutside(old(buf[..]), buf[..], 0, 25 * n)
  {
    hide At, Table, Layout, DataLength, ToLittleEndian, KeyBytes, Written, SizeAt, HeadersAt, SameOutside,
         KeysAndSizes;
    ghost var done, rest := [], items;
    NoHeaders(buf[..], 0, buf.Length);
    assert SameOutside(buf[..], buf[..], 25 * 0, 25 * n);
    var space, i := buf.Length, 0;
    while i < n
      invariant 0 <= i <= n && items == done + rest && |done| == i
      invariant space == buf.Length - DataLength(done) && DataLength(items) == DataLength(done) + DataLength(rest)
      invariant HeadersAt(buf[..], 0, done, buf.Length)
      invariant KeysAndSizes(buf[..], 0, items)
      invariant SameOutside(old(buf[..]), buf[..], 0, 25 * n)
    {
      ghost var s, x := buf[..], rest[0];
      assert x == items[i];
      LengthFirst(rest);
      LooseReads(s, items, i);
      space := space - SizeAt(buf[..], i);
      Write(buf, 25 * i + 17, ToLittleEndian(space, 4));
      LooseKeeps(s, buf[..], items, i);
      LooseHeader(s, buf[..], items, i, space);
      HeadersKeep(s, buf[..], 25 * i + 17, 25 * i + 21, 0, done, buf.Length);
      HeadersLast(buf[..], 0, done, x, buf.Length);
      SameOutsideTrans(old(buf[..]), s, buf[..], 0, 25 * n, 25 * i + 17, 25 * i + 21, 0, 25 * n);
      done, rest := done + [x], rest[1..];
      i := i + 1;
    }
    assert done == items;
  }

  lemma {:induction false} LooseReads(s: seq<byte>, items: seq<Item>, i: nat)
    requires KeysAndSizes(s, 0, items) && i < |items|
    ensures 25 * i + 25 <= |s| && SizeAt(s, i) == |items[i].data|
  {
    hide ToLittleEndian, KeyBytes;
    assert KeyAndSize(s, 0 + i, items[i]);
    Powers();
    LittleEndianRoundTrip(|items[i].data|, 4);
  }

  lemma {:induction false} LooseKeeps(s: seq<byte>, t: seq<byte>, items: seq<Item>, i: nat)
    requires KeysAndSizes(s, 0, items) && i < |items| && SameOutside(s, t, 25 * i + 17, 25 * i + 21)
    ensures KeysAndSizes(t, 0, items)
  {
    hide At, ToLittleEndian, KeyBytes, SameOutside;
    SameSize(s, t, 25 * i + 17, 25 * i + 21);
    forall j | 0 <= j < |items|
      ensures KeyAndSize(t, 0 + j, items[j])
    {
      assert KeyAndSize(s, 0 + j, items[j]);
      KeepsOutside(s, t, 25 * i + 17, 25 * i + 21, 25 * j, KeyBytes(items[j].key));
      KeepsOutside(s, t, 25 * i + 17, 25 * i + 21, 25 * j + 21, ToLittleEndian(|items[j].data|, 4));
    }
  }

  lemma {:induction false} LooseHeader(s: seq<byte>, t: seq<byte>, items: seq<Item>, i: nat, offset: nat)
    requires i < |items| && KeysAndSizes(t, 0, items) && 25 * i + 25 <= |s|
    requires offset + |items[i].data| < 0x1_0000_0000
    requires t == Written(s, 25 * i + 17, ToLittleEndian(offset, 4))
    ensures HeadersAt(t, i, [items[i]], offset + |items[i].data|)
  {
    hide At, ToLittleEndian, KeyBytes, Written, HeadersAt;
    assert KeyAndSize(t, 0 + i, items[i]);
    WrittenHas(s, 25 * i + 17, ToLittleEndian(offset, 4));
    OneHeader(t, i, items[i], offset + |items[i].data|);
  }

  // ---------- the moves ----------

  /** Two leaves that may be edited together. */
  ghost predicate Pair(left: Leaf, right: Leaf)
    reads left, left.buf, right, right.buf
  {
    && left != right && left.buf != right.buf && left.buf.Length == right.buf.Length
    && left.Valid() && right.Valid()
  }

  /** The second half of __push_leaf_right: the last k items of left go to the front of right. */
  method PushRight(left: Leaf, right: Leaf, k: nat)
    requires Pair(left, right) && 0 < k <= left.nritems
    requires SpaceUsed(left.items[left.nritems - k..]) + SpaceUsed(right.items) <= right.buf.Length
    modifies left`nritems, left`items, right, right.buf
    ensures Pair(left, right)
    ensures left.items == old(left.items)[..old(left.nritems) - k]
    ensures right.items == old(left.items)[old(left.nritems) - k..] + old(right.items)
  {
    hide Rep, HeadersAt, DataAt, DataLength, At, Moved, Written, SameOutside, Layout, Table, DataBytes, SpaceUsed;
    ghost var a, m, r := left.items[..left.nritems - k], left.items[left.nritems - k..], right.items;
    ghost var l, s := left.buf[..], right.buf[..];
    assert left.items == a + m;
    var keep, rightNr, cap := left.nritems - k, right.nritems, right.buf.Length;
    PairParts(l, a, m);
    RepRoom(s, r);
    SpaceLengths(a);
    SpaceLengths(m);
    SpaceLengths(r);
    var leftEnd := left.ItemEnd(keep);
    var leftDataEnd := left.DataEnd();
    var pushSpace := leftEnd - leftDataEnd;
    var dataEnd := right.DataEnd();
    MoveWithin(right.buf, dataEnd - pushSpace, dataEnd, cap - dataEnd);
    ghost var s1 := right.buf[..];
    Write(right.buf, cap - pushSpace, left.buf[leftDataEnd..leftDataEnd + pushSpace]);
    ghost var s2 := right.buf[..];
    PushRightData(l, s, s1, s2, a, m, r);
    MoveWithin(right.buf, 25 * k, 0, 25 * rightNr);
    ghost var s3 := right.buf[..];
    Write(right.buf, 0, left.buf[25 * keep..25 * (keep + k)]);
    PushRightHeaders(l, s2, s3, right.buf[..], a, m, r);
    ghost var s4 := right.buf[..];
    RecomputeOffsets(right.buf, rightNr + k, m + r);
    Recomputed(s4, right.buf[..], m, r);
    right.nritems, right.items := rightNr + k, m + r;
    left.nritems, left.items := keep, a;
  }

  lemma {:induction false} PairParts(l: seq<byte>, a: seq<Item>, m: seq<Item>)
    requires Rep(l, a + m)
    ensures DataLength(a + m) == DataLength(a) + DataLength(m) && SpaceUsed(a + m) == SpaceUsed(a) + SpaceUsed(m)
    ensures SpaceUsed(a + m) <= |l| < 0x8000_0000
    ensures Rep(l, a)
    ensures HeadersAt(l, |a|, m, |l| - DataLength(a)) && DataAt(l, m, |l| - DataLength(a))
  {
    hide HeadersAt, DataAt, DataLength;
    LengthConcat(a, m);
    HeadersSplit(l, 0, a, m, |l|);
    DataSplit(l, a, m, |l|);
  }

  lemma {:induction false} PushRightData(l: seq<byte>, s: seq<byte>, s1: seq<byte>, s2: seq<byte>,
                                         a: seq<Item>, m: seq<Item>, r: seq<Item>)
    requires |l| == |s| && Rep(s, r) && DataAt(l, m, |l| - DataLength(a))
    requires DataLength(a) + DataLength(m) <= |l| && SpaceUsed(m) + SpaceUsed(r) <= |s|
    requires var room, push := |s| - DataLength(r), DataLength(m);
             && s1 == Moved(s, room - push, room, DataLength(r))
             && s2 == Written(s1, |s| - push, l[|l| - DataLength(a) - push..|l| - DataLength(a)])
    ensures |s2| == |s| && HeadersAt(s2, 0, r, |s|) && DataAt(s2, m, |s|) && DataAt(s2, r, |s| - DataLength(m))
  {
    hide HeadersAt, DataAt, DataLength, At, Moved, Written, SameOutside;
    var room, push := |s| - DataLength(r), DataLength(m);
    SameSize(s, s1, room - push, |s| - push);
    HeadersKeep(s, s1, room - push, |s| - push, 0, r, |s|);
    DataMove(s, room - push, room, DataLength(r), r, |s|);
    SameSize(s1, s2, |s| - push, |s|);
    HeadersKeep(s1, s2, |s| - push, |s|, 0, r, |s|);
    DataKeep(s1, s2, |s| - push, |s|, r, |s| - push);
    DataCopy(l, s1, |s|, |l| - DataLength(a), m, s2);
  }

  lemma {:induction false} PushRightHeaders(l: seq<byte>, s2: seq<byte>, s3: seq<byte>, s4: seq<byte>,
                                            a: seq<Item>, m: seq<Item>, r: seq<Item>)
    requires |l| == |s2| && HeadersAt(l, |a|, m, |l| - DataLength(a)) && 25 * (|a| + |m|) <= |l|
    requires HeadersAt(s2, 0, r, |s2|) && DataAt(s2, m, |s2|) && DataAt(s2, r, |s2| - DataLength(m))
    requires SpaceUsed(m) + SpaceUsed(r) <= |s2| < 0x8000_0000
    requires s3 == Moved(s2, 25 * |m|, 0, 25 * |r|)
    requires s4 == Written(s3, 0, l[25 * |a|..25 * (|a| + |m|)])
    ensures Rearranged(s4, m, r)
    ensures |s4| == |s2|
  {
    hide HeadersAt, DataAt, DataLength, At, Moved, Written, SameOutside, KeysAndSizes;
    var n, lo, hi := |s2|, 25 * |m|, 25 * |m| + 25 * |r|;
    SameSize(s2, s3, lo, hi);
    HeadersMove(s2, |m|, 0, |r|, r, n);
    DataKeep(s2, s3, lo, hi, m, n);
    DataKeep(s2, s3, lo, hi, r, n - DataLength(m));
    SameSize(s3, s4, 0, lo);
    HeadersCopy(l, s3, 0, |a|, m, |l| - DataLength(a), s4);
    HeadersKeep(s3, s4, 0, lo, |m|, r, n);
    DataKeep(s3, s4, 0, lo, m, n);
    DataKeep(s3, s4, 0, lo, r, n - DataLength(m));
    HeadersLoose(s4, 0, m, |l| - DataLength(a));
    HeadersLoose(s4, |m|, r, n);
    LooseJoin(s4, 0, m, r);
    LengthConcat(m, r);
  }

  /** Data in place, headers in place but for their offsets. */
  ghost predicate Rearranged(s: seq<byte>, m: seq<Item>, r: seq<Item>) {
    && SpaceUsed(m) + SpaceUsed(r) <= |s| < 0x8000_0000
    && SpaceUsed(m + r) <= |s|
    && KeysAndSizes(s, 0, m + r) && DataAt(s, m, |s|) && DataAt(s, r, |s| - DataLength(m))
  }

  lemma {:induction false} Recomputed(s: seq<byte>, t: seq<byte>, m: seq<Item>, r: seq<Item>)
    requires Rearranged(s, m, r) && HeadersAt(t, 0, m + r, |t|) && SameOutside(s, t, 0, 25 * |m + r|)
    ensures Rep(t, m + r)
  {
    hide HeadersAt, DataAt, DataLength, KeysAndSizes, SameOutside;
    var hi := 25 * |m + r|;
    SameSize(s, t, 0, hi);
    LengthConcat(m, r);
    DataKeep(s, t, 0, hi, m, |s|);
    DataKeep(s, t, 0, hi, r, |s| - DataLength(m));
    DataSplit(t, m, r, |t|);
  }

  /** The second half of __push_leaf_left: the first k items of right go to the end of left. */
  method PushLeft(left: Leaf, right: Leaf, k: nat)
    requires Pair(left, right) && 0 < k <= right.nritems
    requires left.nritems > 0
    requires SpaceUsed(left.items) + SpaceUsed(right.items[..k]) <= left.buf.Length
    modifies left, left.buf, right, right.buf
    ensures Pair(left, right)
    ensures left.items == old(left.items) + old(right.items)[..k]
    ensures right.items == old(right.items)[k..]
  {
    hide Rep, DataLength, SpaceUsed;
    AppendFrom(left, right, k);
    CloseFront(right, k);
  }

  /** The part of __push_leaf_left that fills up the left leaf. */
  method AppendFrom(left: Leaf, right: Leaf, k: nat)
    requires Pair(left, right) && 0 < k <= right.nritems && left.nritems > 0
    requires SpaceUsed(left.items) + SpaceUsed(right.items[..k]) <= left.buf.Length
    modifies left, left.buf
    ensures Pair(left, right)
    ensures left.items == old(left.items) + right.items[..k]
  {
    hide Rep, HeadersAt, DataAt, DataLength, At, Written, SameOutside, Layout, Table, DataBytes, SpaceUsed, OffsetAt,
         SizeAt, KeyAt;
    ghost var a, m, r := left.items, right.items[..k], right.items[k..];
    ghost var s, t := left.buf[..], right.buf[..];
    assert right.items == m + r;
    PairParts(t, m, r);
    RepRoom(s, a);
    SpaceLengths(a);
    SpaceLengths(m);
    SpaceLengths(r);
    var leftNr, cap := left.nritems, left.buf.Length;
    FirstOffset(t, right.items, k);
    var pushFrom := OffsetAt(right.buf[..], k - 1);
    var dataEnd := left.DataEnd();
    Write(left.buf, 25 * leftNr, right.buf[0..25 * k]);
    ghost var s1 := left.buf[..];
    Write(left.buf, dataEnd - (cap - pushFrom), right.buf[pushFrom..cap]);
    ghost var s2 := left.buf[..];
    AppendCopies(s, s1, s2, t, a, m);
    ShiftOffsets(left.buf, leftNr, k, 0 - (cap - dataEnd), m, cap);
    AppendDone(s2, left.buf[..], a, m);
    left.nritems, left.items := leftNr + k, a + m;
  }

  /** The start of item k - 1 is where the data of the first k items starts. */
  lemma {:induction false} FirstOffset(t: seq<byte>, items: seq<Item>, k: nat)
    requires Rep(t, items) && 0 < k <= |items|
    ensures 25 * k <= |t| && OffsetAt(t, k - 1) == |t| - DataLength(items[..k])
  {
    hide Rep, DataLength, OffsetAt, SizeAt, KeyAt, At;
    RepReads(t, items, k - 1);
    LengthLast(items[..k]);
    assert items[..k][..k - 1] == items[..k - 1];
  }

  lemma {:induction false} AppendCopies(s: seq<byte>, s1: seq<byte>, s2: seq<byte>, t: seq<byte>, a: seq<Item>,
                                        m: seq<Item>)
    requires |s| == |t| && Rep(s, a) && Rep(t, m) && SpaceUsed(a) + SpaceUsed(m) <= |s|
    requires s1 == Written(s, 25 * |a|, t[0..25 * |m|])
    requires s2 == Written(s1, |s| - DataLength(a) - DataLength(m), t[|t| - DataLength(m)..|t|])
    ensures |s2| == |s| && Rep(s2, a)
    ensures HeadersAt(s2, |a|, m, |s|) && DataAt(s2, m, |s| - DataLength(a))
  {
    hide HeadersAt, DataAt, DataLength, At, Written, SameOutside;
    var n, lo, hi := |s|, |s| - DataLength(a) - DataLength(m), |s| - DataLength(a);
    SameSize(s, s1, 25 * |a|, 25 * |a| + 25 * |m|);
    HeadersKeep(s, s1, 25 * |a|, 25 * |a| + 25 * |m|, 0, a, n);
    DataKeep(s, s1, 25 * |a|, 25 * |a| + 25 * |m|, a, n);
    HeadersCopy(t, s, |a|, 0, m, n, s1);
    SameSize(s1, s2, lo, hi);
    HeadersKeep(s1, s2, lo, hi, 0, a, n);
    HeadersKeep(s1, s2, lo, hi, |a|, m, n);
    DataKeep(s1, s2, lo, hi, a, n);
    DataCopy(t, s1, hi, n, m, s2);
  }

  lemma {:induction false} AppendDone(s: seq<byte>, t: seq<byte>, a: seq<Item>, m: seq<Item>)
    requires Rep(s, a) && DataAt(s, m, |s| - DataLength(a)) && SpaceUsed(a) + SpaceUsed(m) <= |s|
    requires SameOutside(s, t, 25 * |a|, 25 * (|a| + |m|)) && HeadersAt(t, |a|, m, |s| - DataLength(a))
    ensures Rep(t, a + m)
  {
    hide HeadersAt, DataAt, DataLength, At, SameOutside;
    var lo, hi := 25 * |a|, 25 * (|a| + |m|);
    SameSize(s, t, lo, hi);
    HeadersKeep(s, t, lo, hi, 0, a, |s|);
    DataKeep(s, t, lo, hi, a, |s|);
    DataKeep(s, t, lo, hi, m, |s| - DataLength(a));
    PairJoin(t, a, m);
  }

  /** The part of __push_leaf_left that closes up the right leaf. */
  method CloseFront(right: Leaf, k: nat)
    requires right.Valid() && 0 < k <= right.nritems
    modifies right, right.buf
    ensures right.Valid() && right.items == old(right.items)[k..]
  {
    hide Rep, HeadersAt, DataAt, DataLength, At, Moved, SameOutside, Layout, Table, DataBytes, SpaceUsed, OffsetAt,
         SizeAt, KeyAt;
    ghost var m, r, t := right.items[..k], right.items[k..], right.buf[..];
    assert right.items == m + r;
    PairParts(t, m, r);
    SpaceLengths(m);
    SpaceLengths(r);
    FirstOffset(t, right.items, k);
    var n, cap := right.nritems, right.buf.Length;
    if k < n {
      var dataEnd := right.DataEnd();
      var space := OffsetAt(right.buf[..], k - 1) - dataEnd;
      MoveWithin(right.buf, cap - space, dataEnd, space);
      ghost var t1 := right.buf[..];
      MoveWithin(right.buf, 0, 25 * k, 25 * (n - k));
      CloseMoves(t, t1, right.buf[..], m, r);
    } else {
      assert r == [];
      NothingLeft(t);
    }
    ghost var t2 := right.buf[..];
    assert r + [] == r;
    RecomputeOffsets(right.buf, n - k, r);
    Recomputed(t2, right.buf[..], r, []);
    right.nritems, right.items := n - k, r;
  }

  lemma {:induction false} NothingLeft(t: seq<byte>)
    requires |t| < 0x8000_0000
    ensures Rearranged(t, [], [])
  {
    NoLength();
    EmptyAt(t, |t|);
  }

  lemma {:induction false} CloseMoves(t: seq<byte>, t1: seq<byte>, t2: seq<byte>, m: seq<Item>, r: seq<Item>)
    requires SpaceUsed(m) + SpaceUsed(r) <= |t| < 0x8000_0000
    requires HeadersAt(t, |m|, r, |t| - DataLength(m)) && DataAt(t, r, |t| - DataLength(m))
    requires t1 == Moved(t, |t| - DataLength(r), |t| - DataLength(m) - DataLength(r), DataLength(r))
    requires t2 == Moved(t1, 0, 25 * |m|, 25 * |r|)
    ensures |t2| == |t| && Rearranged(t2, r, [])
  {
    hide HeadersAt, DataAt, DataLength, At, Moved, SameOutside, KeysAndSizes, DataBytes;
    var n := |t|;
    SameSize(t, t1, n - DataLength(r), n);
    HeadersKeep(t, t1, n - DataLength(r), n, |m|, r, n - DataLength(m));
    DataMove(t, n - DataLength(r), n - DataLength(m) - DataLength(r), DataLength(r), r, n - DataLength(m));
    SameSize(t1, t2, 0, 25 * |r|);
    HeadersMove(t1, 0, |m|, |r|, r, n - DataLength(m));
    DataKeep(t1, t2, 0, 25 * |r|, r, n);
    HeadersLoose(t2, 0, r, n - DataLength(m));
    assert r + [] == r;
    NoData(t2, n - DataLength(r));
  }

  lemma {:induction false} NoData(t: seq<byte>, end: int)
    requires 0 <= end <= |t|
    ensures DataAt(t, [], end) && DataLength([]) == 0 && SpaceUsed([]) == 0
  {
    NoLength();
    EmptyAt(t, end);
  }

  /** copy_for_split: everything from `mid` on goes to an empty leaf. */
  method CopyForSplit(l: Leaf, right: Leaf, mid: nat)
    requires Pair(l, right) && mid < l.nritems && right.nritems == 0
    modifies l`nritems, l`items, right, right.buf
    ensures Pair(l, right)
    ensures l.items == old(l.items)[..mid] && right.items == old(l.items)[mid..]
  {
    hide Rep, HeadersAt, DataAt, DataLength, At, Written, SameOutside, Layout, Table, DataBytes, SpaceUsed;
    ghost var a, m := l.items[..mid], l.items[mid..];
    ghost var s, t := l.buf[..], right.buf[..];
    assert l.items == a + m;
    PairParts(s, a, m);
    SpaceLengths(a);
    SpaceLengths(m);
    var nr, cap := l.nritems - mid, l.buf.Length;
    var midEnd := l.ItemEnd(mid);
    var dataEnd := l.DataEnd();
    Write(right.buf, 0, l.buf[25 * mid..25 * (mid + nr)]);
    ghost var t1 := right.buf[..];
    Write(right.buf, cap - (midEnd - dataEnd), l.buf[dataEnd..midEnd]);
    ghost var t2 := right.buf[..];
    SplitCopies(s, t, t1, t2, a, m);
    ShiftOffsets(right.buf, 0, nr, cap - midEnd, m, midEnd);
    SplitDone(t2, right.buf[..], m);
    right.nritems, right.items := nr, m;
    l.nritems, l.items := mid, a;
  }

  lemma {:induction false} SplitCopies(s: seq<byte>, t: seq<byte>, t1: seq<byte>, t2: seq<byte>, a: seq<Item>,
                                       m: seq<Item>)
    requires |s| == |t| < 0x8000_0000 && SpaceUsed(a) + SpaceUsed(m) <= |s|
    requires HeadersAt(s, |a|, m, |s| - DataLength(a)) && DataAt(s, m, |s| - DataLength(a))
    requires t1 == Written(t, 0, s[25 * |a|..25 * (|a| + |m|)])
    requires t2 == Written(t1, |s| - DataLength(m), s[|s| - DataLength(a) - DataLength(m)..|s| - DataLength(a)])
    ensures |t2| == |s| && HeadersAt(t2, 0, m, |s| - DataLength(a)) && DataAt(t2, m, |s|)
  {
    hide HeadersAt, DataAt, DataLength, At, Written, SameOutside;
    var n := |s|;
    SameSize(t, t1, 0, 25 * |m|);
    HeadersCopy(s, t, 0, |a|, m, n - DataLength(a), t1);
    SameSize(t1, t2, n - DataLength(m), n);
    HeadersKeep(t1, t2, n - DataLength(m), n, 0, m, n - DataLength(a));
    DataCopy(s, t1, n, n - DataLength(a), m, t2);
  }

  lemma {:induction false} SplitDone(s: seq<byte>, t: seq<byte>, m: seq<Item>)
    requires DataAt(s, m, |s|) && SpaceUsed(m) <= |s| < 0x8000_0000
    requires SameOutside(s, t, 25 * 0, 25 * (0 + |m|)) && HeadersAt(t, 0, m, |s|)
    ensures Rep(t, m)
  {
    hide HeadersAt, DataAt, DataLength, SameOutside;
    SameSize(s, t, 0, 25 * |m|);
    DataKeep(s, t, 0, 25 * |m|, m, |s|);
  }
}
