/** Copying decompressed data into the pages of a read (compression.c): the data comes in chunks of at most one page,
    the pages are an ascending list that may have gaps. */
module Decompress {
  import opened Basics

  /** Pages do not overlap. */
  ghost predicate Ascending(starts: seq<nat>) {
    forall i, j | 0 <= i < j < |starts| :: starts[i] + 4096 <= starts[j]
  }

  class Reader {
    const pages: array2<int>
    /** page_offset - disk_start: where in the decompressed stream each page begins. */
    const starts: seq<nat>
    var pgIndex: nat
    var pgOffset: nat
    /** All that has been decompressed so far. */
    ghost var stream: seq<int>

    ghost predicate Shape() {
      pages.Length0 == |starts| && pages.Length1 == 4096 && Ascending(starts)
    }

    /** Byte j of page i is what the stream s says. */
    ghost predicate ByteOk(s: seq<int>, i: nat, j: nat)
      requires Shape() && i < |starts| && j < 4096
      reads pages
    {
      starts[i] + j < |s| && pages[i, j] == s[starts[i] + j]
    }

    /** So are the first n bytes. */
    ghost predicate Filled(s: seq<int>, i: nat, n: nat)
      requires Shape() && i < |starts| && n <= 4096
      reads pages
    {
      forall j | 0 <= j < n :: ByteOk(s, i, j)
    }

    /** The first k pages are full. */
    ghost predicate Full(s: seq<int>, k: nat)
      requires Shape() && k <= |starts|
      reads pages
    {
      forall i | 0 <= i < k :: Filled(s, i, 4096)
    }

    /** The pages before the current one are full; the current one has all of the stream that belongs into it. */
    ghost predicate Valid()
      reads this, pages
    {
      && Shape() && pgIndex <= |starts|
      && Full(stream, pgIndex)
      && (pgIndex < |starts| ==>
            && pgOffset == (if |stream| <= starts[pgIndex] then 0 else |stream| - starts[pgIndex])
            && pgOffset < 4096 && Filled(stream, pgIndex, pgOffset))
    }

    constructor (starts: seq<nat>)
      requires Ascending(starts)
      ensures Valid() && fresh(pages) && this.starts == starts && stream == [] && pgIndex == 0
    {
      this.pages := new int[|starts|, 4096]((_, _) => 0);
      this.starts := starts;
      pgIndex, pgOffset, stream := 0, 0, [];
    }

    /** memcpy into page i: the next n bytes of the stream s. */
    method CopyBytes(i: nat, at: nat, buf: seq<int>, from: nat, n: nat, ghost s: seq<int>)
      requires Shape() && i < |starts| && at + n <= 4096 && from + n <= |buf|
      requires starts[i] + at + n <= |s| && s[starts[i] + at..starts[i] + at + n] == buf[from..from + n]
      requires Full(s, i) && Filled(s, i, at)
      modifies pages
      ensures Full(s, i) && Filled(s, i, at + n) && (at + n == 4096 ==> Full(s, i + 1))
    {
      var k := 0;
      while k < n
        invariant 0 <= k <= n
        invariant Full(s, i) && Filled(s, i, at + k)
      {
        assert s[starts[i] + at..starts[i] + at + n][k] == buf[from..from + n][k];
        label before:
        pages[i, at + k] := buf[from + k];
        forall p | 0 <= p < i
          ensures Filled(s, p, 4096)
        {
          assert old@before(Filled(s, p, 4096));
          forall j | 0 <= j < 4096
            ensures ByteOk(s, p, j)
          {
            assert old@before(ByteOk(s, p, j));
          }
        }
        forall j | 0 <= j < at + k
          ensures ByteOk(s, i, j)
        {
          assert old@before(ByteOk(s, i, j));
        }
        k := k + 1;
      }
    }

    /** btrfs_decompress_buf2page: `buf` holds the bytes [bufStart, totalOut) of the stream. */
    method Buf2Page(buf: seq<int>, bufStart: nat, totalOut: nat) returns (ret: int)
      requires Valid() && pgIndex < |starts| && |buf| <= 4096
      requires bufStart == |stream| && totalOut == bufStart + |buf|
      modifies this, pages
      ensures Valid() && stream == old(stream) + buf && ret == (if pgIndex == |starts| then 0 else 1)
      ensures pgIndex >= old(pgIndex)
    {
      hide Filled, Ascending, ByteOk, Full;
      var startByte := starts[pgIndex];
      var working := totalOut - bufStart;
      ghost var was := stream;
      stream := stream + buf;
      StillFilled(was, buf, pgIndex, pgOffset);
      if totalOut <= startByte {
        return 1;
      }
      var bufOffset := 0;
      if bufStart < startByte {
        bufOffset := startByte - bufStart;
        working := working - bufOffset;
      }
      var current := bufStart;
      while working > 0
        invariant pgIndex < |starts| && startByte == starts[pgIndex] && pgOffset < 4096 && Shape()
        invariant bufOffset <= |buf| && working == totalOut - (bufStart + bufOffset)
                  && bufStart + bufOffset == startByte + pgOffset
        invariant current <= bufStart + bufOffset && pgIndex >= old(pgIndex) && stream == was + buf && |was| == bufStart
        invariant Full(stream, pgIndex) && Filled(stream, pgIndex, pgOffset)
      {
        var bytes := Min(4096 - pgOffset, 4096 - bufOffset);
        bytes := Min(bytes, working);
        SameBytes(was, buf, bufOffset, bytes);
        CopyBytes(pgIndex, pgOffset, buf, bufOffset, bytes, stream);
        pgOffset, bufOffset, working, current := pgOffset + bytes, bufOffset + bytes, working - bytes, current + bytes;
        if pgOffset == 4096 {
          pgIndex := pgIndex + 1;
          if pgIndex >= |starts| {
            return 0;
          }
          NextStart(starts, pgIndex);
          pgOffset, startByte := 0, starts[pgIndex];
          NothingFilled(stream, pgIndex);
          if totalOut <= startByte {
            return 1;
          }
          if current < startByte {
            bufOffset := startByte - bufStart;
            working := totalOut - startByte;
            current := bufStart + bufOffset;
          }
        }
      }
      ret := 1;
    }

    lemma {:induction false} NothingFilled(s: seq<int>, i: nat)
      requires Shape() && i < |starts|
      ensures Filled(s, i, 0)
    {
    }

    /** More stream takes nothing away. */
    lemma {:induction false} StillFilled(s: seq<int>, t: seq<int>, k: nat, m: nat)
      requires Shape() && k < |starts| && m <= 4096 && Full(s, k) && Filled(s, k, m)
      ensures Full(s + t, k) && Filled(s + t, k, m)
    {
      forall i, n | 0 <= i < |starts| && 0 <= n <= 4096 && Filled(s, i, n)
        ensures Filled(s + t, i, n)
      {
        forall j | 0 <= j < n
          ensures ByteOk(s + t, i, j)
        {
          assert ByteOk(s, i, j);
        }
      }
    }
  }

  lemma {:induction false} SameBytes(was: seq<int>, buf: seq<int>, from: nat, n: nat)
    requires from + n <= |buf|
    ensures (was + buf)[|was| + from..|was| + from + n] == buf[from..from + n]
  {
  }

  lemma {:induction false} NextStart(starts: seq<nat>, i: nat)
    requires Ascending(starts) && 0 < i < |starts|
    ensures starts[i - 1] + 4096 <= starts[i]
  {
  }

  /** A whole read: chunk after chunk until the pages are full.  Each page that is done holds exactly its stretch of
      the stream, whatever the chunks' sizes and the gaps between the pages. */
  method ReadAll(r: Reader, chunks: seq<seq<int>>) returns (used: nat, ret: int)
    requires r.Valid() && r.stream == [] && forall k | 0 <= k < |chunks| :: |chunks[k]| <= 4096
    modifies r, r.pages
    ensures r.Valid() && used <= |chunks| && r.stream == Joined(chunks, used)
    ensures ret == 0 <==> r.pgIndex == |r.starts|
    ensures ret == 0 ==> forall i | 0 <= i < |r.starts| :: r.Filled(Joined(chunks, used), i, 4096)
    ensures ret != 0 ==> used == |chunks|
  {
    used, ret := 0, 1;
    var at := 0;
    while used < |chunks| && r.pgIndex < |r.starts|
      invariant 0 <= used <= |chunks| && r.Valid() && r.stream == Joined(chunks, used) && at == |r.stream|
      invariant ret == 0 ==> r.pgIndex == |r.starts|
    {
      var next := at + |chunks[used]|;
      ret := r.Buf2Page(chunks[used], at, next);
      at, used := next, used + 1;
    }
    ret := if r.pgIndex == |r.starts| then 0 else 1;
  }

  ghost function Joined(chunks: seq<seq<int>>, n: nat): seq<int>
    requires n <= |chunks|
  {
    if n == 0 then [] else Joined(chunks, n - 1) + chunks[n - 1]
  }
}
