/** Deleting a range of checksums (file-item.c).  The checksum tree is a sequence of runs, one item each: checksums of
    consecutive sectors from the item's key on.  Addresses count sectors. */
module Csums {
  import opened Basics
  import opened Sequences

  /** The checksum of sector offset + i is sums[i]. */
  datatype Run = Run(offset: nat, sums: seq<int>)

  function End(r: Run): nat { r.offset + |r.sums| }

  ghost predicate Valid(runs: seq<Run>) {
    && (forall i | 0 <= i < |runs| :: runs[i].sums != [])
    && (forall i, j | 0 <= i < j < |runs| :: End(runs[i]) <= runs[j].offset)
  }

  // ---------- the map behind the runs ----------

  function InRun(r: Run, x: nat): Option<int> {
    if r.offset <= x < End(r) then Some(r.sums[x - r.offset]) else None
  }

  /** The checksum of a sector. */
  function SumAt(runs: seq<Run>, x: nat): Option<int> {
    if runs == [] then None
    else if InRun(runs[0], x).Some? then InRun(runs[0], x)
    else SumAt(runs[1..], x)
  }

  lemma {:induction false} SumAtConcat(a: seq<Run>, b: seq<Run>, x: nat)
    ensures SumAt(a + b, x) == if SumAt(a, x).Some? then SumAt(a, x) else SumAt(b, x)
  {
    if a == [] {
      assert a + b == b;
    } else {
      assert (a + b)[1..] == a[1..] + b;
      SumAtConcat(a[1..], b, x);
    }
  }

  lemma {:induction false} SumAtNone(runs: seq<Run>, x: nat)
    requires forall i | 0 <= i < |runs| :: InRun(runs[i], x).None?
    ensures SumAt(runs, x) == None
  {
    if runs != [] {
      SumAtNone(runs[1..], x);
    }
  }

  /** Outside [b, e) the two say the same. */
  ghost predicate SameOutside(s: seq<Run>, t: seq<Run>, b: nat, e: nat) {
    forall x: nat | !(b <= x < e) :: SumAt(t, x) == SumAt(s, x)
  }

  // ---------- replacing one run ----------

  function Replaced(runs: seq<Run>, k: nat, by': seq<Run>): seq<Run>
    requires k < |runs|
  {
    runs[..k] + by' + runs[k + 1..]
  }

  lemma {:induction false} ReplaceKeeps(runs: seq<Run>, k: nat, by': seq<Run>, b: nat, e: nat)
    requires k < |runs| && SameOutside([runs[k]], by', b, e)
    ensures SameOutside(runs, Replaced(runs, k, by'), b, e)
  {
    hide SumAt;
    var p, q := runs[..k], runs[k + 1..];
    assert runs == p + ([runs[k]] + q) && Replaced(runs, k, by') == p + (by' + q);
    forall x: nat | !(b <= x < e)
      ensures SumAt(Replaced(runs, k, by'), x) == SumAt(runs, x)
    {
      SumAtConcat(p, [runs[k]] + q, x);
      SumAtConcat([runs[k]], q, x);
      SumAtConcat(p, by' + q, x);
      SumAtConcat(by', q, x);
    }
  }

  /** Runs that stay inside the old one's bounds keep the order. */
  lemma {:induction false} ReplaceValid(runs: seq<Run>, k: nat, by': seq<Run>)
    requires Valid(runs) && k < |runs| && Valid(by')
    requires forall i | 0 <= i < |by'| :: runs[k].offset <= by'[i].offset && End(by'[i]) <= End(runs[k])
    ensures Valid(Replaced(runs, k, by'))
  {
    hide End;
    var t, n := Replaced(runs, k, by'), |by'|;
    forall i | 0 <= i < |t|
      ensures t[i].sums != []
    {
      assert t[i] == if i < k then runs[i] else if i < k + n then by'[i - k] else runs[i - n + 1];
    }
    forall i, j | 0 <= i < j < |t|
      ensures End(t[i]) <= t[j].offset
    {
      assert t[i] == if i < k then runs[i] else if i < k + n then by'[i - k] else runs[i - n + 1];
      assert t[j] == if j < k then runs[j] else if j < k + n then by'[j - k] else runs[j - n + 1];
      EndAfter(runs[k]);
      assert j >= k + n ==> End(runs[k]) <= t[j].offset;
      assert i < k ==> End(t[i]) <= runs[k].offset;
    }
  }

  lemma {:induction false} EndAfter(r: Run)
    ensures r.offset <= End(r)
  {
  }

  // ---------- what is still to do ----------

  /** A run over the range weighs 1, one that sticks out on both sides 3. */
  function Weight(b: nat, e: nat): Run -> int {
    (r: Run) => if r.offset < e && End(r) > b then (if r.offset < b && End(r) > e then 3 else 1)
                else if r.offset < b && End(r) > e then 3 else 0
  }

  lemma {:induction false} WeightReplaced(runs: seq<Run>, k: nat, by': seq<Run>, f: Run -> int)
    requires k < |runs|
    ensures Sum(Replaced(runs, k, by'), f) == Sum(runs, f) - f(runs[k]) + Sum(by', f)
  {
    hide Sum;
    var p, q := runs[..k], runs[k + 1..];
    assert runs == p + [runs[k]] + q;
    SumConcat(p + [runs[k]], q, f);
    SumConcat(p, [runs[k]], f);
    SumOne(runs[k], f);
    SumConcat(p + by', q, f);
    SumConcat(p, by', f);
  }

  lemma {:induction false} WeightNotNegative(runs: seq<Run>, b: nat, e: nat)
    ensures Sum(runs, Weight(b, e)) >= 0
  {
    if runs != [] {
      WeightNotNegative(runs[..|runs| - 1], b, e);
    }
  }

  // ---------- the cuts ----------

  /** truncate_one_csum: cut off the end, or the front; None stands for its BUG(). */
  function TruncateOne(r: Run, b: nat, e: nat): Option<Run>
    requires End(r) > b
  {
    if r.offset < b && End(r) <= e then Some(Run(r.offset, r.sums[..b - r.offset]))
    else if r.offset >= b && End(r) > e > r.offset then Some(Run(e, r.sums[e - r.offset..]))
    else None
  }

  lemma {:induction false} InOne(r: Run, x: nat)
    ensures SumAt([r], x) == InRun(r, x)
  {
    assert [r][1..] == [];
  }

  lemma {:induction false} InTwo(r: Run, q: Run, x: nat)
    ensures SumAt([r, q], x) == if InRun(r, x).Some? then InRun(r, x) else InRun(q, x)
  {
    assert [r, q][1..] == [q];
    InOne(q, x);
  }

  lemma {:induction false} WholeGone(r: Run, b: nat, e: nat)
    requires b <= r.offset && End(r) <= e
    ensures SameOutside([r], [], b, e)
  {
    forall x: nat | !(b <= x < e)
      ensures SumAt([], x) == SumAt([r], x)
    {
      InOne(r, x);
    }
  }

  lemma {:induction false} Truncated(r: Run, b: nat, e: nat)
    requires End(r) > b && TruncateOne(r, b, e).Some?
    ensures SameOutside([r], [TruncateOne(r, b, e).value], b, e)
  {
    var q := TruncateOne(r, b, e).value;
    forall x: nat | !(b <= x < e)
      ensures SumAt([q], x) == SumAt([r], x)
    {
      InOne(r, x);
      InOne(q, x);
    }
  }

  /** memset_extent_buffer: the checksums of [b, e) cleared. */
  function Cleared(r: Run, b: nat, e: nat): Run
    requires r.offset <= b <= e <= End(r)
  {
    Run(r.offset, r.sums[..b - r.offset] + seq(e - b, _ => 0) + r.sums[e - r.offset..])
  }

  lemma {:induction false} ClearedOutside(r: Run, b: nat, e: nat)
    requires r.offset <= b <= e <= End(r)
    ensures End(Cleared(r, b, e)) == End(r) && SameOutside([r], [Cleared(r, b, e)], b, e)
  {
    var q := Cleared(r, b, e);
    forall x: nat | !(b <= x < e)
      ensures SumAt([q], x) == SumAt([r], x)
    {
      InOne(r, x);
      InOne(q, x);
    }
  }

  /** btrfs_split_item: the run becomes two at b. */
  function Split(r: Run, b: nat): seq<Run>
    requires r.offset < b < End(r)
  {
    [Run(r.offset, r.sums[..b - r.offset]), Run(b, r.sums[b - r.offset..])]
  }

  lemma {:induction false} SplitSame(r: Run, b: nat, lo: nat, hi: nat)
    requires r.offset < b < End(r)
    ensures SameOutside([r], Split(r, b), lo, hi)
  {
    forall x: nat | !(lo <= x < hi)
      ensures SumAt(Split(r, b), x) == SumAt([r], x)
    {
      InOne(r, x);
      InTwo(Split(r, b)[0], Split(r, b)[1], x);
    }
  }

  lemma {:induction false} SameTrans(s: seq<Run>, t: seq<Run>, u: seq<Run>, b: nat, e: nat)
    requires SameOutside(s, t, b, e) && SameOutside(t, u, b, e)
    ensures SameOutside(s, u, b, e)
  {
  }

  /** No run reaches into [b, e). */
  ghost predicate Clear(runs: seq<Run>, b: nat, e: nat) {
    forall i | 0 <= i < |runs| :: End(runs[i]) <= b || e <= runs[i].offset
  }

  lemma {:induction false} ClearMeansNone(runs: seq<Run>, b: nat, e: nat, x: nat)
    requires Clear(runs, b, e) && b <= x < e
    ensures SumAt(runs, x) == None
  {
    SumAtNone(runs, x);
  }

  /** The search: the last run that starts before `end`, or -1. */
  method LastBefore(runs: seq<Run>, end: nat) returns (k: int)
    requires Valid(runs)
    ensures -1 <= k < |runs|
    ensures forall i | 0 <= i <= k :: runs[i].offset < end
    ensures forall i | k < i < |runs| :: end <= runs[i].offset
  {
    hide End;
    var lo, hi := 0, |runs|;
    while lo < hi
      invariant 0 <= lo <= hi <= |runs|
      invariant forall i | 0 <= i < lo :: runs[i].offset < end
      invariant forall i | hi <= i < |runs| :: end <= runs[i].offset
    {
      var mid := (lo + hi) / 2;
      OffsetsAscend(runs, mid);
      if runs[mid].offset < end {
        lo := mid + 1;
      } else {
        hi := mid;
      }
    }
    k := lo - 1;
  }

  lemma {:induction false} OffsetsAscend(runs: seq<Run>, k: nat)
    requires Valid(runs) && k < |runs|
    ensures forall i | 0 <= i < k :: runs[i].offset < End(runs[i]) <= runs[k].offset
    ensures forall i | k < i < |runs| :: runs[k].offset < End(runs[k]) <= runs[i].offset
  {
    assert |runs[k].sums| > 0;
    assert runs[k].offset < End(runs[k]);
    forall i | 0 <= i < k
      ensures runs[i].offset < End(runs[i]) <= runs[k].offset
    {
      assert |runs[i].sums| > 0;
    }
    forall i | k < i < |runs|
      ensures runs[k].offset < End(runs[k]) <= runs[i].offset
    {
      assert End(runs[k]) <= runs[i].offset;
    }
  }

  class CsumTree {
    var runs: seq<Run>

    constructor ()
      ensures runs == []
    {
      runs := [];
    }

    /** btrfs_del_csums.  `again` says for each attempt to split whether btrfs_split_item asks to start over.
        Afterwards no sector of the range has a checksum, and all others have the one they had. */
    method DelCsums(b: nat, len: nat, again: seq<bool>)
      requires Valid(runs)
      modifies this
      ensures Valid(runs)
      ensures forall x: nat :: SumAt(runs, x) == if b <= x < b + len then None else SumAt(old(runs), x)
    {
      hide SumAt, Valid, Sum, Weight, SameOutside, Replaced, Clear, Split, Cleared;
      var e, tries := b + len, 0;
      SameStart(runs, b, e);
      while true
        invariant Valid(runs) && SameOutside(old(runs), runs, b, e) && 0 <= tries <= |again|
        decreases Sum(runs, Weight(b, e)), |again| - tries
      {
        ghost var was := runs;
        var k := LastBefore(runs, e);
        if k < 0 {
          ClearBelow(runs, k, b, e);
          break;
        }
        var r := runs[k];
        if End(r) <= b {
          ClearBelow(runs, k, b, e);
          break;
        }
        WeightNotNegative(runs, b, e);
        if b <= r.offset && End(r) <= e {
          WholeCase(runs, k, b, e);
          runs := Replaced(runs, k, []);
          SameTrans(old(runs), was, runs, b, e);
          if r.offset == b {
            break;
          }
        } else if r.offset < b && End(r) > e {
          MiddleCase(runs, k, b, e);
          if tries < |again| && again[tries] {
            runs, tries := Replaced(runs, k, [Cleared(r, b, e)]), tries + 1;
          } else {
            runs := Replaced(runs, k, Split(Cleared(r, b, e), b));
          }
          SameTrans(old(runs), was, runs, b, e);
        } else {
          var q := TruncateOne(r, b, e);
          TruncateCase(runs, k, b, e);
          runs := Replaced(runs, k, [q.value]);
          SameTrans(old(runs), was, runs, b, e);
          if q.value.offset < b {
            break;
          }
        }
      }
      AllClear(old(runs), runs, b, e);
    }
  }

  // ---------- the cases of the loop ----------

  ghost predicate Found(runs: seq<Run>, k: nat, b: nat, e: nat) {
    && Valid(runs) && k < |runs| && runs[k].offset < e && End(runs[k]) > b
    && forall i | k < i < |runs| :: e <= runs[i].offset
  }

  /** A replacement within bounds: order, map and weight. */
  lemma {:induction false} Replacing(runs: seq<Run>, k: nat, by': seq<Run>, b: nat, e: nat)
    requires Valid(runs) && k < |runs| && Valid(by') && SameOutside([runs[k]], by', b, e)
    requires forall i | 0 <= i < |by'| :: runs[k].offset <= by'[i].offset && End(by'[i]) <= End(runs[k])
    ensures Valid(Replaced(runs, k, by')) && SameOutside(runs, Replaced(runs, k, by'), b, e)
    ensures Sum(Replaced(runs, k, by'), Weight(b, e))
            == Sum(runs, Weight(b, e)) - Weight(b, e)(runs[k]) + Sum(by', Weight(b, e))
  {
    ReplaceKeeps(runs, k, by', b, e);
    ReplaceValid(runs, k, by');
    WeightReplaced(runs, k, by', Weight(b, e));
  }

  lemma {:induction false} WholeCase(runs: seq<Run>, k: nat, b: nat, e: nat)
    requires Found(runs, k, b, e) && b <= runs[k].offset && End(runs[k]) <= e
    ensures var t := Replaced(runs, k, []);
            && Valid(t) && SameOutside(runs, t, b, e) && Sum(t, Weight(b, e)) < Sum(runs, Weight(b, e))
            && (runs[k].offset == b ==> Clear(t, b, e))
  {
    hide SameOutside, SumAt;
    WholeGone(runs[k], b, e);
    Replacing(runs, k, [], b, e);
    OffsetsAscend(runs, k);
    var t := Replaced(runs, k, []);
    if runs[k].offset == b {
      forall i | 0 <= i < |t|
        ensures End(t[i]) <= b || e <= t[i].offset
      {
        assert t[i] == if i < k then runs[i] else runs[i + 1];
      }
    }
  }

  lemma {:induction false} TruncateCase(runs: seq<Run>, k: nat, b: nat, e: nat)
    requires Found(runs, k, b, e) && !(b <= runs[k].offset && End(runs[k]) <= e)
             && !(runs[k].offset < b && End(runs[k]) > e)
    ensures TruncateOne(runs[k], b, e).Some?
    ensures var q := TruncateOne(runs[k], b, e).value;
            var t := Replaced(runs, k, [q]);
            && Valid(t) && SameOutside(runs, t, b, e)
            && (if q.offset < b then Clear(t, b, e) else Sum(t, Weight(b, e)) < Sum(runs, Weight(b, e)))
  {
    hide SameOutside, SumAt;
    var q := TruncateOne(runs[k], b, e).value;
    Truncated(runs[k], b, e);
    Replacing(runs, k, [q], b, e);
    SumOne(q, Weight(b, e));
    OffsetsAscend(runs, k);
    var t := Replaced(runs, k, [q]);
    if q.offset < b {
      forall i | 0 <= i < |t|
        ensures End(t[i]) <= b || e <= t[i].offset
      {
        assert t[i] == if i == k then q else runs[i];
      }
    }
  }

  lemma {:induction false} MiddleCase(runs: seq<Run>, k: nat, b: nat, e: nat)
    requires Found(runs, k, b, e) && runs[k].offset < b <= e < End(runs[k])
    ensures var c := Cleared(runs[k], b, e);
            && c.offset == runs[k].offset && End(c) == End(runs[k])
            && Valid(Replaced(runs, k, [c])) && SameOutside(runs, Replaced(runs, k, [c]), b, e)
            && Sum(Replaced(runs, k, [c]), Weight(b, e)) == Sum(runs, Weight(b, e))
            && Valid(Replaced(runs, k, Split(c, b))) && SameOutside(runs, Replaced(runs, k, Split(c, b)), b, e)
            && Sum(Replaced(runs, k, Split(c, b)), Weight(b, e)) < Sum(runs, Weight(b, e))
  {
    hide SameOutside, SumAt, Sum, Cleared;
    var c := Cleared(runs[k], b, e);
    ClearedOutside(runs[k], b, e);
    assert c.offset == runs[k].offset by { ClearedStart(runs[k], b, e); }
    Replacing(runs, k, [c], b, e);
    SumOne(c, Weight(b, e));
    SplitSame(c, b, b, e);
    SameTrans([runs[k]], [c], Split(c, b), b, e);
    Replacing(runs, k, Split(c, b), b, e);
    var p, q := Split(c, b)[0], Split(c, b)[1];
    assert Split(c, b) == [p] + [q];
    SumConcat([p], [q], Weight(b, e));
    SumOne(p, Weight(b, e));
    SumOne(q, Weight(b, e));
  }

  lemma {:induction false} ClearedStart(r: Run, b: nat, e: nat)
    requires r.offset <= b <= e <= End(r)
    ensures Cleared(r, b, e).offset == r.offset
  {
  }

  lemma {:induction false} SameStart(runs: seq<Run>, b: nat, e: nat)
    ensures SameOutside(runs, runs, b, e)
  {
  }

  lemma {:induction false} ClearBelow(runs: seq<Run>, k: int, b: nat, e: nat)
    requires Valid(runs) && -1 <= k < |runs| && (forall i | k < i < |runs| :: e <= runs[i].offset)
             && (k >= 0 ==> End(runs[k]) <= b)
    ensures Clear(runs, b, e)
  {
    forall i | 0 <= i < |runs|
      ensures End(runs[i]) <= b || e <= runs[i].offset
    {
      if i < k {
        OffsetsAscend(runs, k);
      }
    }
  }

  lemma {:induction false} AllClear(was: seq<Run>, runs: seq<Run>, b: nat, e: nat)
    requires SameOutside(was, runs, b, e) && Clear(runs, b, e)
    ensures forall x: nat :: SumAt(runs, x) == if b <= x < e then None else SumAt(was, x)
  {
    forall x: nat
      ensures SumAt(runs, x) == if b <= x < e then None else SumAt(was, x)
    {
      if b <= x < e {
        ClearMeansNone(runs, b, e, x);
      }
    }
  }
}
