/** Space accounting of one space_info: block reservations, block groups, and the counters that sum them up
    (extent-tree.c). */
module SpaceInfo {
  import opened Basics
  import opened Sequences

  /** struct btrfs_block_rsv. */
  datatype Rsv = Rsv(size: u64, reserved: int, freed0: int, freed1: int, full: bool, durable: bool, usage: nat)

  /** struct btrfs_block_group_cache: [start, start + size). */
  datatype Group = Group(start: nat, size: nat, used: int, reserved: int, pinned: int, reservedPinned: int, super: int,
                         ro: bool, lastUnpin: nat)

  /** Where the bytes for a block come from. */
  datatype Source = FromOwn | FromSpace | FromGlobal | FromNone

  /** A reservation after n bytes have been used. */
  function Drawn(r: Rsv, n: nat): Rsv {
    r.(reserved := r.reserved - n, full := r.full && r.reserved - n >= r.size)
  }

  /** A reservation after n bytes have come to it. */
  function Filled(r: Rsv, n: nat, updateSize: bool): Rsv {
    if updateSize then r.(reserved := r.reserved + n, size := Wrap(r.size + n))
    else r.(reserved := r.reserved + n, full := r.full || r.reserved + n >= r.size)
  }

  /** What block_rsv_release_bytes takes out of a reservation, and how the reservation is left. */
  function Released(r: Rsv, n: u64): (int, Rsv) {
    var n' := if n == 0xFFFF_FFFF_FFFF_FFFF then r.size else n;
    var size := Wrap(r.size - n');
    if r.reserved >= size then (r.reserved - size, r.(size := size, reserved := size, full := true))
    else (0, r.(size := size))
  }

  /** What of that another reservation takes, dest->size - dest->reserved being unsigned, and how it is left. */
  function Taken(d: Rsv, n: nat): nat { if d.full then 0 else Min(n, Wrap(d.size - d.reserved)) }

  function Topped(d: Rsv, n: nat): Rsv {
    if n == 0 then d
    else d.(reserved := d.reserved + Taken(d, n), full := d.full || d.reserved + Taken(d, n) >= d.size)
  }

  /** The reservations after a release, and what goes back to the space. */
  function ReleasedTo(rsvs: seq<Rsv>, i: nat, dest: int, n: u64): seq<Rsv>
    requires i < |rsvs| && (dest == -1 || 0 <= dest < |rsvs|)
  {
    var (excess, r) := Released(rsvs[i], n);
    if dest == -1 then rsvs[i := r] else rsvs[i := r][dest := Topped(rsvs[dest], excess)]
  }

  function GoesBack(rsvs: seq<Rsv>, i: nat, dest: int, n: u64): int
    requires i < |rsvs| && (dest == -1 || 0 <= dest < |rsvs|)
  {
    var excess := Released(rsvs[i], n).0;
    if dest == -1 then excess else excess - Taken(rsvs[dest], excess)
  }

  /** The reservation btrfs_block_rsv_release fills up first: the global one, number 0, unless it is full or the one
      that is released. */
  function FirstFilled(rsvs: seq<Rsv>, i: nat): int
    requires i < |rsvs|
  {
    if rsvs[0].full || i == 0 then -1 else 0
  }

  /** The reservations once one of them, or the space, has paid for a block. */
  function PaidBy(rsvs: seq<Rsv>, i: nat, n: nat, source: Source): seq<Rsv>
    requires i < |rsvs|
  {
    match source
    case FromOwn => rsvs[i := Drawn(rsvs[i], n)]
    case FromSpace => if rsvs[i].size == 0 then rsvs else rsvs[i := rsvs[i].(size := Wrap(rsvs[i].size + n))]
    case FromGlobal => rsvs[0 := Drawn(rsvs[0], n)]
    case FromNone => rsvs
  }

  /** Which reservation that is charged to. */
  function ChargedTo(i: nat, source: Source): nat { if source.FromGlobal? then 0 else i }

  /** What is paid for a block that is not made after all is kept by the reservation that was charged, up to its
      size. */
  function PaidBack(rsvs: seq<Rsv>, i: nat, n: nat): seq<Rsv>
    requires i < |rsvs|
  {
    ReleasedTo(rsvs[i := Filled(rsvs[i], n, false)], i, -1, 0)
  }

  /** A failed allocation gives a reservation that was no larger than its size exactly what it paid; what the space
      paid goes back to it if the reservation has no size, and else stays with the reservation, grown by as much. */
  lemma {:induction false} FailureUndone(rsvs: seq<Rsv>, i: nat, n: nat, source: Source)
    requires i < |rsvs| && !source.FromNone?
    requires var r := rsvs[ChargedTo(i, source)];
             r.reserved <= r.size && r.size + n < 0x1_0000_0000_0000_0000 && (source.FromSpace? ==> r.reserved >= 0)
    ensures var j, r := ChargedTo(i, source), rsvs[ChargedTo(i, source)];
            PaidBack(PaidBy(rsvs, i, n, source), j, n)
            == rsvs[j := if source.FromSpace? && r.size > 0
                         then r.(size := r.size + n, reserved := r.reserved + n, full := r.full || r.reserved == r.size)
                         else r.(full := r.reserved == r.size)]
  {
    var j, r := ChargedTo(i, source), rsvs[ChargedTo(i, source)];
    assert Wrap(r.size + n) == r.size + n && Wrap(r.size) == r.size;
  }

  /** A reservation that gets what was freed for it. */
  function Refilled(r: Rsv, odd: bool): Rsv {
    var freed := if odd then r.freed1 else r.freed0;
    if freed <= 0 then r
    else if odd then Filled(r, freed, false).(freed1 := 0) else Filled(r, freed, false).(freed0 := 0)
  }

  /** A reservation nobody uses, and that is to get nothing, leaves the list. */
  function Dismissed(r: Rsv): Rsv {
    if r.usage == 0 && r.freed0 == 0 && r.freed1 == 0 then r.(durable := false) else r
  }

  /** One durable reservation at the end of a commit: it gets what was freed for it, and then gives up what it has too
      much, all of it if nobody uses it any more. */
  function GivenBack(rsvs: seq<Rsv>, j: nat, odd: bool): (after: seq<Rsv>)
    requires j < |rsvs|
    ensures |after| == |rsvs|
  {
    var rs := rsvs[j := Refilled(rsvs[j], odd)];
    var t := ReleasedTo(rs, j, FirstFilled(rs, j), if rs[j].usage == 0 then 0xFFFF_FFFF_FFFF_FFFF else 0);
    t[j := Dismissed(t[j])]
  }

  /** The first k reservations at the end of a commit. */
  function Committed(rsvs: seq<Rsv>, odd: bool, k: nat): (after: seq<Rsv>)
    requires k <= |rsvs|
    ensures |after| == |rsvs|
  {
    if k == 0 then rsvs
    else
      var t := Committed(rsvs, odd, k - 1);
      if t[k - 1].durable then GivenBack(t, k - 1, odd) else t
  }

  lemma {:induction false} ReleaseKeepsFreed(rsvs: seq<Rsv>, i: nat, dest: int, n: u64, j: nat)
    requires i < |rsvs| && (dest == -1 || 0 <= dest < |rsvs|) && j < |rsvs| && dest != i
    ensures SameFreed(ReleasedTo(rsvs, i, dest, n)[j], rsvs[j])
  {
  }

  predicate SameFreed(a: Rsv, b: Rsv) { a.freed0 == b.freed0 && a.freed1 == b.freed1 && (a.durable <==> b.durable) }

  /** What was freed for durable reservations in the transaction committed is theirs again, and others keep what they
      are to get. */
  lemma {:induction false} GivenBackOnce(rsvs: seq<Rsv>, j: nat, odd: bool, i: nat)
    requires j < |rsvs| && i < |rsvs|
    ensures var t := GivenBack(rsvs, j, odd);
            if i != j then SameFreed(t[i], rsvs[i])
            else t[j].durable ==> (if odd then t[j].freed1 else t[j].freed0) <= 0
  {
    var rs := rsvs[j := Refilled(rsvs[j], odd)];
    ReleaseKeepsFreed(rs, j, FirstFilled(rs, j), if rs[j].usage == 0 then 0xFFFF_FFFF_FFFF_FFFF else 0, i);
  }

  lemma {:induction false} NothingOwed(rsvs: seq<Rsv>, odd: bool, k: nat, i: nat)
    requires i < k <= |rsvs|
    ensures var t := Committed(rsvs, odd, k); t[i].durable ==> (if odd then t[i].freed1 else t[i].freed0) <= 0
  {
    hide GivenBack;
    var t := Committed(rsvs, odd, k - 1);
    if i < k - 1 {
      NothingOwed(rsvs, odd, k - 1, i);
    }
    if t[k - 1].durable {
      GivenBackOnce(t, k - 1, odd, i);
    }
  }

  predicate Contains(g: Group, x: nat) { g.start <= x < g.start + g.size }

  /** How much of [b, b + n) lies in the group. */
  function Overlap(g: Group, b: nat, n: nat): nat {
    var lo, hi := Max(g.start, b), Min(g.start + g.size, b + n);
    if lo < hi then hi - lo else 0
  }

  predicate Separate(g: Group, h: Group) { g.start + g.size <= h.start || h.start + h.size <= g.start }

  lemma {:induction false} OverlapSplits(g: Group, b: nat, n: nat, m: nat)
    ensures Overlap(g, b, n + m) == Overlap(g, b, n) + Overlap(g, b + n, m)
  {
  }

  /** A stretch inside one group overlaps no other. */
  lemma {:induction false} OverlapInside(g: Group, h: Group, b: nat, m: nat)
    requires g.start <= b && b + m <= g.start + g.size
    ensures Overlap(g, b, m) == m && (Separate(g, h) ==> Overlap(h, b, m) == 0)
  {
  }

  /** What a read-only group holds that nobody can use. */
  function Unused(g: Group): int { g.size - g.reserved - g.pinned - g.super - g.used }

  function Held(): Rsv -> int { (r: Rsv) => r.reserved + r.freed0 + r.freed1 }
  function Claimed(): Group -> int { (g: Group) => g.reserved - g.reservedPinned }
  function Pinned(): Group -> int { (g: Group) => g.pinned }
  function Used(): Group -> int { (g: Group) => g.used }
  function Size(): Group -> int { (g: Group) => g.size }
  function ReadOnly(): Group -> int { (g: Group) => g.super + if g.ro then Unused(g) else 0 }

  /** One group changes: what that does to the sums. */
  lemma {:induction false} GroupChanged(gs: seq<Group>, i: nat, g: Group)
    requires i < |gs|
    ensures var gs' := gs[i := g];
            && Sum(gs', Claimed()) == Sum(gs, Claimed()) - Claimed()(gs[i]) + Claimed()(g)
            && Sum(gs', Pinned()) == Sum(gs, Pinned()) - gs[i].pinned + g.pinned
            && Sum(gs', Used()) == Sum(gs, Used()) - gs[i].used + g.used
            && Sum(gs', Size()) == Sum(gs, Size()) - gs[i].size + g.size
            && Sum(gs', ReadOnly()) == Sum(gs, ReadOnly()) - ReadOnly()(gs[i]) + ReadOnly()(g)
  {
    hide Sum;
    SumUpdate(gs, i, g, Claimed());
    SumUpdate(gs, i, g, Pinned());
    SumUpdate(gs, i, g, Used());
    SumUpdate(gs, i, g, Size());
    SumUpdate(gs, i, g, ReadOnly());
  }

  lemma {:induction false} GroupMade(gs: seq<Group>, g: Group)
    ensures var gs' := gs + [g];
            && Sum(gs', Claimed()) == Sum(gs, Claimed()) + Claimed()(g)
            && Sum(gs', Pinned()) == Sum(gs, Pinned()) + g.pinned
            && Sum(gs', Used()) == Sum(gs, Used()) + g.used
            && Sum(gs', Size()) == Sum(gs, Size()) + g.size
            && Sum(gs', ReadOnly()) == Sum(gs, ReadOnly()) + ReadOnly()(g)
  {
    assert (gs + [g])[..|gs|] == gs;
  }

  lemma {:induction false} GroupGone(gs: seq<Group>, i: nat, f: Group -> int)
    requires i < |gs|
    ensures Sum(gs[..i] + gs[i + 1..], f) == Sum(gs, f) - f(gs[i])
  {
    hide Sum;
    assert gs == gs[..i] + [gs[i]] + gs[i + 1..];
    SumConcat(gs[..i] + [gs[i]], gs[i + 1..], f);
    SumConcat(gs[..i], [gs[i]], f);
    SumOne(gs[i], f);
    SumConcat(gs[..i], gs[i + 1..], f);
  }

  // ---------- reserve_metadata_bytes ----------

  /** The counters as somebody else leaves them, without our own reservation. */
  datatype Others = Others(used: int, reserved: int, pinned: int, readonly: int, mayUse: int, total: int)

  function InUse(o: Others, own: int): int { o.used + o.reserved + own + o.pinned + o.readonly + o.mayUse }

  /** The request fits on top of what everybody uses in pass k. */
  predicate FitsIn(others: nat -> Others, orig: nat, k: nat) { InUse(others(k), orig) <= others(k).total }

  /** How much is to be reclaimed: what is needed, and if more is in use than there is, the excess and what is needed
      once for every time so far. */
  function Missing(o: Others, orig: nat, reserved: bool, retries: nat): int {
    var inUse := InUse(o, if reserved then orig else 0);
    if inUse <= o.total then orig else inUse - o.total + orig * (retries + 1)
  }

  /** What shrink_delalloc is asked for in pass k. */
  function Asked(others: nat -> Others, orig: nat, k: nat): int { Missing(others(k), orig, k > 0, Min(k, 2)) }

  /** There is a pass k: every pass before it neither found room nor reclaimed anything nor failed, and the last one
      comes after a transaction of our own has been committed. */
  predicate Reaches(orig: nat, flush: bool, hasTrans: bool, others: nat -> Others, pinned: nat -> int,
                    shrink: (nat, int) -> int,
                    join: int, commit: int, k: nat) {
    && k <= 3 && (k > 0 ==> flush)
    && (forall i: nat | i < k :: !FitsIn(others, orig, i) && shrink(i, Asked(others, orig, i)) == 0)
    && (k == 3 ==> pinned(3) >= orig && !hasTrans && join == 0 && commit == 0)
  }

  /** Why the last pass k gives up. */
  function GivesUp(orig: nat, flush: bool, hasTrans: bool, others: nat -> Others, pinned: nat -> int,
                   shrink: (nat, int) -> int, join: int, commit: int, k: nat): int {
    if !flush then ENOSPC
    else if shrink(k, Asked(others, orig, k)) < 0 then shrink(k, Asked(others, orig, k))
    else if pinned(k + 1) < orig then ENOSPC
    else if hasTrans || k == 3 then EAGAIN
    else if join != 0 then ENOSPC
    else commit
  }

  /** What becomes of the request from pass k on: a pass that finds room or reclaims some ends well; a failure to
      reclaim ends it; two more passes are free, and one more costs a commit, if pinned bytes promise enough. */
  function Verdict(orig: nat, flush: bool, hasTrans: bool, others: nat -> Others, pinned: nat -> int,
                   shrink: (nat, int) -> int, join: int, commit: int, k: nat): int
    requires k <= 3
    decreases 3 - k
  {
    if FitsIn(others, orig, k) then 0
    else if !flush then ENOSPC
    else if shrink(k, Asked(others, orig, k)) > 0 then 0
    else if shrink(k, Asked(others, orig, k)) < 0 then shrink(k, Asked(others, orig, k))
    else if k < 2 then Verdict(orig, flush, hasTrans, others, pinned, shrink, join, commit, k + 1)
    else if pinned(k + 1) < orig then ENOSPC
    else if hasTrans || k == 3 then EAGAIN
    else if join != 0 then ENOSPC
    else if commit != 0 then commit
    else Verdict(orig, flush, hasTrans, others, pinned, shrink, join, commit, 3)
  }

  /** The part of reserve_metadata_bytes under the lock: the reservation is made, or its place saved, and how much is to
      be reclaimed. */
  method Look(o: Others, orig: nat, reserved: bool, retries: nat) returns (ret: int, own: int, numBytes: int)
    ensures ret == (if InUse(o, orig) <= o.total then 0 else ENOSPC) && own == orig
    ensures ret != 0 ==> numBytes == Missing(o, orig, reserved, retries)
  {
    ret, own := ENOSPC, if reserved then orig else 0;
    numBytes := if reserved then 0 else orig;
    var unused := InUse(o, own);
    if unused <= o.total {
      unused := o.total - unused;
      if unused >= numBytes {
        if !reserved {
          own := own + orig;
        }
        ret := 0;
      } else {
        numBytes := orig;
      }
    } else {
      numBytes := unused - o.total + orig * (retries + 1);
    }
    if ret != 0 && !reserved {
      own := own + orig;
    }
  }

  /** reserve_metadata_bytes: others(k) is what everybody else has done by the time the lock is taken for the k-th
      time, shrink(k, n) what shrink_delalloc returns if then asked for n, pinned(k) bytes_pinned after that, join and
      commit what the transaction calls return.  The reservation is ours in full on success and not at all on failure,
      whatever happens in between, after at most four passes; it succeeds exactly in a pass that finds room or reclaims
      some. */
  method ReserveMetadataBytes(orig: nat, flush: bool, hasTrans: bool, others: nat -> Others, pinned: nat -> int,
                              shrink: (nat, int) -> int,
                              join: int, commit: int)
    returns (ret: int, own: int, passes: nat)
    ensures own == if ret == 0 then orig else 0
    ensures 1 <= passes <= 4 && Reaches(orig, flush, hasTrans, others, pinned, shrink, join, commit, passes - 1)
    ensures ret == 0 <==> || FitsIn(others, orig, passes - 1)
                          || (flush && shrink(passes - 1, Asked(others, orig, passes - 1)) > 0)
    ensures ret != 0 ==>
              && ret == GivesUp(orig, flush, hasTrans, others, pinned, shrink, join, commit, passes - 1)
              && (flush && shrink(passes - 1, Asked(others, orig, passes - 1)) == 0 ==> passes >= 3)
    ensures FitsIn(others, orig, 0) ==> ret == 0 && passes == 1
    ensures ret == Verdict(orig, flush, hasTrans, others, pinned, shrink, join, commit, 0)
  {
    hide Missing;
    var retries, reserved, committed, trans := 0, false, false, hasTrans;
    own, passes := 0, 0;
    while true
      invariant passes == retries + (if committed then 1 else 0) && retries <= 2 && (committed ==> retries == 2)
      invariant own == if reserved then orig else 0
      invariant (reserved <==> passes > 0) && (passes > 0 ==> flush)
      invariant trans ==> !committed
      invariant if committed then !hasTrans else trans == hasTrans
      invariant Reaches(orig, flush, hasTrans, others, pinned, shrink, join, commit, passes)
      invariant Verdict(orig, flush, hasTrans, others, pinned, shrink, join, commit, passes)
             == Verdict(orig, flush, hasTrans, others, pinned, shrink, join, commit, 0)
      decreases 3 - passes
    {
      var numBytes;
      ret, own, numBytes := Look(others(passes), orig, reserved, retries);
      reserved := reserved || ret != 0;
      passes := passes + 1;
      if ret == 0 {
        return;
      }
      if !flush {
        break;
      }
      assert retries == Min(passes - 1, 2) && numBytes == Asked(others, orig, passes - 1);
      ret := shrink(passes - 1, numBytes);
      if ret > 0 {
        ret := 0;
        return;
      } else if ret < 0 {
        break;
      }
      if retries < 2 {
        retries := retries + 1;
        continue;
      }
      if pinned(passes) < orig {
        ret := ENOSPC;
        break;
      }
      ret := EAGAIN;
      if trans || committed {
        break;
      }
      if join != 0 {
        ret := ENOSPC;
        break;
      }
      ret := commit;
      if ret != 0 {
        break;
      }
      trans, committed := false, true;
    }
    if reserved {
      own := own - orig;
    }
  }

  // ---------- the space_info ----------

  ghost predicate Apart(gs: seq<Group>) {
    forall i, j | 0 <= i < j < |gs| :: Separate(gs[i], gs[j])
  }

  /** The group after k of its bytes are allocated, or freed. */
  function Charged(g: Group, k: nat, alloc: bool): Group {
    if alloc then g.(used := g.used + k, reserved := g.reserved - k) else g.(used := g.used - k, pinned := g.pinned + k)
  }

  /** The group after k of its pinned bytes are free again. */
  function Unpinned(g: Group, k: nat): Group {
    if g.ro || g.reservedPinned <= 0 then g.(pinned := g.pinned - k)
    else g.(pinned := g.pinned - k, reservedPinned := g.reservedPinned - Min(k, g.reservedPinned))
  }

  lemma {:induction false} ChargedMore(g: Group, k: nat, m: nat, alloc: bool)
    ensures Charged(Charged(g, k, alloc), m, alloc) == Charged(g, k + m, alloc)
            && Unpinned(Unpinned(g, k), m) == Unpinned(g, k + m)
  {
  }

  /** Every group has been charged for its share of [b, b + n). */
  ghost predicate AllCharged(gs: seq<Group>, gs': seq<Group>, b: nat, n: nat, alloc: bool) {
    |gs| == |gs'| && forall i | 0 <= i < |gs| :: gs'[i] == Charged(gs[i], Overlap(gs[i], b, n), alloc)
  }

  ghost predicate AllUnpinned(gs: seq<Group>, gs': seq<Group>, b: nat, n: nat) {
    |gs| == |gs'| && forall i | 0 <= i < |gs| :: gs'[i] == Unpinned(gs[i], Overlap(gs[i], b, n))
  }

  lemma {:induction false} ChargedStep(gs: seq<Group>, gs': seq<Group>, b: nat, n: nat, m: nat, alloc: bool, k: nat)
    requires Apart(gs) && AllCharged(gs, gs', b, n, alloc) && k < |gs| && gs[k].start <= b + n
             && b + n + m <= gs[k].start + gs[k].size
    ensures AllCharged(gs, gs'[k := Charged(gs'[k], m, alloc)], b, n + m, alloc)
  {
    hide Overlap, Charged, Separate;
    var t := gs'[k := Charged(gs'[k], m, alloc)];
    forall i | 0 <= i < |gs|
      ensures t[i] == Charged(gs[i], Overlap(gs[i], b, n + m), alloc)
    {
      OverlapSplits(gs[i], b, n, m);
      OverlapInside(gs[k], gs[i], b + n, m);
      ChargedMore(gs[i], Overlap(gs[i], b, n), m, alloc);
      assert i != k ==> Separate(gs[k], gs[i]) by { SeparateBoth(gs, k, i); }
    }
  }

  lemma {:induction false} UnpinnedStep(gs: seq<Group>, gs': seq<Group>, b: nat, n: nat, m: nat, k: nat)
    requires Apart(gs) && AllUnpinned(gs, gs', b, n) && k < |gs| && gs[k].start <= b + n
             && b + n + m <= gs[k].start + gs[k].size
    ensures AllUnpinned(gs, gs'[k := Unpinned(gs'[k], m)], b, n + m)
  {
    hide Overlap, Unpinned, Charged, Separate;
    var t := gs'[k := Unpinned(gs'[k], m)];
    forall i | 0 <= i < |gs|
      ensures t[i] == Unpinned(gs[i], Overlap(gs[i], b, n + m))
    {
      OverlapSplits(gs[i], b, n, m);
      OverlapInside(gs[k], gs[i], b + n, m);
      ChargedMore(gs[i], Overlap(gs[i], b, n), m, true);
      assert i != k ==> Separate(gs[k], gs[i]) by { SeparateBoth(gs, k, i); }
    }
  }

  lemma {:induction false} SeparateBoth(gs: seq<Group>, i: nat, j: nat)
    requires Apart(gs) && i < |gs| && j < |gs|
    ensures i != j ==> Separate(gs[i], gs[j])
  {
    assert i < j ==> Separate(gs[i], gs[j]);
    assert j < i ==> Separate(gs[j], gs[i]);
  }

  lemma {:induction false} NothingCharged(gs: seq<Group>, b: nat, alloc: bool)
    ensures AllCharged(gs, gs, b, 0, alloc) && AllUnpinned(gs, gs, b, 0)
  {
    forall i | 0 <= i < |gs|
      ensures Overlap(gs[i], b, 0) == 0
    {
    }
  }

  ghost predicate Mapped(gs: seq<Group>, x: nat) { exists i :: 0 <= i < |gs| && Contains(gs[i], x) }

  /** The byte lies before its group's last_byte_to_unpin: where the caching thread has been, free space is added. */
  ghost predicate Scanned(gs: seq<Group>, x: nat) {
    exists i :: 0 <= i < |gs| && Contains(gs[i], x) && x < gs[i].lastUnpin
  }

  /** btrfs_add_free_space was called for a stretch with the byte. */
  ghost predicate Added(freed: seq<(nat, nat)>, x: nat) {
    exists i :: 0 <= i < |freed| && freed[i].0 <= x < freed[i].0 + freed[i].1
  }

  lemma {:induction false} NoneAdded()
    ensures forall x: nat :: !Added([], x)
  {
  }

  lemma {:induction false} AddedMore(freed: seq<(nat, nat)>, at: nat, len: nat)
    ensures forall x: nat :: Added(freed + [(at, len)], x) <==> Added(freed, x) || at <= x < at + len
  {
    var more := freed + [(at, len)];
    forall x: nat
      ensures Added(more, x) <==> Added(freed, x) || at <= x < at + len
    {
      if i :| 0 <= i < |freed| && freed[i].0 <= x < freed[i].0 + freed[i].1 {
        assert more[i] == freed[i];
      }
      assert more[|freed|] == (at, len);
    }
  }

  lemma {:induction false} ScannedPart(gs: seq<Group>, k: nat, at: nat, len: nat)
    requires Apart(gs) && k < |gs| && gs[k].start <= at && at + len <= gs[k].start + gs[k].size
    requires at < gs[k].lastUnpin ==> at + len <= gs[k].lastUnpin
    ensures forall x | at <= x < at + len :: Scanned(gs, x) <==> at < gs[k].lastUnpin
  {
    forall i, x | 0 <= i < |gs| && i != k && at <= x < at + len
      ensures !Contains(gs[i], x)
    {
      assert if i < k then Separate(gs[i], gs[k]) else Separate(gs[k], gs[i]);
    }
    forall x | at <= x < at + len
      ensures Scanned(gs, x) <==> at < gs[k].lastUnpin
    {
      assert Contains(gs[k], x);
    }
  }

  ghost predicate Covered(gs: seq<Group>, b: nat, n: nat) { forall x | b <= x < b + n :: Mapped(gs, x) }

  lemma {:induction false} CoveredMore(gs: seq<Group>, b: nat, n: nat, m: nat, k: nat)
    requires Covered(gs, b, n) && k < |gs| && gs[k].start <= b + n && b + n + m <= gs[k].start + gs[k].size
    ensures Covered(gs, b, n + m)
  {
    forall x | b <= x < b + n + m
      ensures Mapped(gs, x)
    {
      assert x >= b + n ==> Contains(gs[k], x);
    }
  }

  lemma {:induction false} ChargedPlaces(gs: seq<Group>, gs': seq<Group>, b: nat, n: nat, alloc: bool)
    requires AllCharged(gs, gs', b, n, alloc)
    ensures |gs| == |gs'| && forall i | 0 <= i < |gs| :: gs'[i].start == gs[i].start && gs'[i].size == gs[i].size
    ensures forall x :: Mapped(gs', x) == Mapped(gs, x)
  {
    hide Overlap;
    SamePlaces(gs, gs');
  }

  lemma {:induction false} UnpinnedPlaces(gs: seq<Group>, gs': seq<Group>, b: nat, n: nat)
    requires AllUnpinned(gs, gs', b, n)
    ensures |gs| == |gs'| && forall i | 0 <= i < |gs| :: gs'[i].start == gs[i].start && gs'[i].size == gs[i].size
    ensures forall i | 0 <= i < |gs| :: gs'[i].lastUnpin == gs[i].lastUnpin
    ensures forall x :: Mapped(gs', x) == Mapped(gs, x)
  {
    hide Overlap;
    SamePlaces(gs, gs');
  }

  lemma {:induction false} SamePlaces(gs: seq<Group>, gs': seq<Group>)
    requires |gs| == |gs'| && forall i | 0 <= i < |gs| :: gs'[i].start == gs[i].start && gs'[i].size == gs[i].size
    ensures forall x :: Mapped(gs', x) == Mapped(gs, x)
  {
    forall x
      ensures Mapped(gs', x) == Mapped(gs, x)
    {
      if i :| 0 <= i < |gs| && Contains(gs[i], x) {
        assert Contains(gs'[i], x);
      }
      if i :| 0 <= i < |gs'| && Contains(gs'[i], x) {
        assert Contains(gs[i], x);
      }
    }
  }

  /** btrfs_lookup_block_group. */
  method LookupGroup(gs: seq<Group>, x: nat) returns (k: int)
    ensures -1 <= k < |gs|
    ensures k >= 0 ==> Contains(gs[k], x)
    ensures k == -1 <==> !Mapped(gs, x)
  {
    k := 0;
    while k < |gs|
      invariant 0 <= k <= |gs|
      invariant forall i | 0 <= i < k :: !Contains(gs[i], x)
    {
      if Contains(gs[k], x) {
        return;
      }
      k := k + 1;
    }
    k := -1;
  }

  class Space {
    var rsvs: seq<Rsv>
    var groups: seq<Group>
    var bytesUsed: int
    var bytesReserved: int
    var bytesPinned: int
    var bytesReadonly: int
    var bytesMayUse: int
    var totalBytes: int
    /** Reserved bytes on their way from a reservation to a block group. */
    ghost var transit: int

    /** Every reserved byte is held by one reservation or claimed by one group, or on its way; the other counters are
        the sums over the groups. */
    ghost predicate Valid()
      reads this
    {
      ValidBut(0)
    }

    /** Everything adds up, except that bytesReadonly is too large by `excess`. */
    ghost predicate ValidBut(excess: int)
      reads this
    {
      && bytesReserved == Sum(rsvs, Held()) + Sum(groups, Claimed()) + transit
      && bytesPinned == Sum(groups, Pinned())
      && bytesUsed == Sum(groups, Used())
      && totalBytes == Sum(groups, Size())
      && bytesReadonly == Sum(groups, ReadOnly()) + excess
      && Apart(groups)
    }

    /** Nothing there but n empty reservations. */
    constructor (n: nat)
      ensures Valid() && transit == 0 && groups == [] && |rsvs| == n && bytesReserved == 0 && totalBytes == 0
      ensures bytesUsed == 0 && bytesPinned == 0 && bytesReadonly == 0 && bytesMayUse == 0
    {
      rsvs := seq(n, _ => Rsv(0, 0, 0, 0, false, false, 1));
      groups := [];
      bytesUsed, bytesReserved, bytesPinned, bytesReadonly, bytesMayUse, totalBytes, transit := 0, 0, 0, 0, 0, 0, 0;
      new;
      SumZero(rsvs, Held());
    }

    // ---------- block reservations ----------

    /** block_rsv_use_bytes: the bytes leave the reservation. */
    method UseBytes(i: nat, n: nat) returns (ret: int)
      requires Valid() && i < |rsvs|
      modifies `rsvs, `transit
      ensures Valid() && ret == (if old(rsvs[i].reserved) >= n then 0 else ENOSPC)
      ensures ret == 0 ==>
                var r := old(rsvs[i]);
                transit == old(transit) + n
                && rsvs == old(rsvs)[i := Drawn(r, n)]
      ensures ret != 0 ==> rsvs == old(rsvs) && transit == old(transit)
    {
      hide Sum;
      ret := ENOSPC;
      if rsvs[i].reserved >= n {
        var r := rsvs[i].(reserved := rsvs[i].reserved - n);
        if r.reserved < r.size {
          r := r.(full := false);
        }
        SumUpdate(rsvs, i, r, Held());
        rsvs, transit := rsvs[i := r], transit + n;
        ret := 0;
      }
    }

    /** block_rsv_add_bytes: bytes on their way come to rest. */
    method AddBytes(i: nat, n: nat, updateSize: bool)
      requires Valid() && i < |rsvs|
      modifies `rsvs, `transit
      ensures Valid() && transit == old(transit) - n
      ensures rsvs == old(rsvs)[i := Filled(old(rsvs[i]), n, updateSize)]
    {
      hide Sum;
      var r := rsvs[i].(reserved := rsvs[i].reserved + n);
      if updateSize {
        r := r.(size := Wrap(r.size + n));
      } else if r.reserved >= r.size {
        r := r.(full := true);
      }
      SumUpdate(rsvs, i, r, Held());
      rsvs, transit := rsvs[i := r], transit - n;
    }

    /** block_rsv_migrate_bytes. */
    method Migrate(src: nat, dst: nat, n: nat) returns (ret: int)
      requires Valid() && src < |rsvs| && dst < |rsvs|
      modifies `rsvs, `transit
      ensures Valid() && transit == old(transit) && |rsvs| == |old(rsvs)|
      ensures ret == (if old(rsvs[src].reserved) >= n then 0 else ENOSPC)
      ensures ret != 0 ==> rsvs == old(rsvs)
      ensures ret == 0 ==>
                var drawn := old(rsvs)[src := Drawn(old(rsvs[src]), n)];
                rsvs == drawn[dst := Filled(drawn[dst], n, true)]
    {
      ret := UseBytes(src, n);
      if ret == 0 {
        AddBytes(dst, n, true);
      }
    }

    /** block_rsv_release_bytes: what a reservation has too much goes to another one that has room, and the rest back
        to the space. */
    method ReleaseBytes(i: nat, dest: int, n: u64)
      requires Valid() && i < |rsvs| && (dest == -1 || (0 <= dest < |rsvs| && dest != i))
      modifies `rsvs, `bytesReserved
      ensures Valid() && rsvs == ReleasedTo(old(rsvs), i, dest, n)
      ensures bytesReserved == old(bytesReserved) - GoesBack(old(rsvs), i, dest, n)
    {
      hide Sum, Wrap;
      var (num, r) := Released(rsvs[i], n);
      SumUpdate(rsvs, i, r, Held());
      rsvs := rsvs[i := r];
      if num > 0 {
        if dest != -1 {
          var d := rsvs[dest];
          if !d.full {
            var add := Min(num, Wrap(d.size - d.reserved));
            d := d.(reserved := d.reserved + add);
            if d.reserved >= d.size {
              d := d.(full := true);
            }
            SumUpdate(rsvs, dest, d, Held());
            rsvs := rsvs[dest := d];
            num := num - add;
          }
        }
        if num > 0 {
          bytesReserved := bytesReserved - num;
        }
      }
    }

    /** btrfs_block_rsv_release: the global reservation, number 0, is filled up first. */
    method Release(i: nat, n: u64)
      requires Valid() && i < |rsvs|
      modifies `rsvs, `bytesReserved
      ensures Valid() && rsvs == ReleasedTo(old(rsvs), i, FirstFilled(old(rsvs), i), n)
      ensures bytesReserved == old(bytesReserved) - GoesBack(old(rsvs), i, FirstFilled(old(rsvs), i), n)
    {
      if rsvs[0].full || i == 0 {
        ReleaseBytes(i, -1, n);
      } else {
        ReleaseBytes(i, 0, n);
      }
    }

    // ---------- block groups ----------

    /** One group is changed: what the counters have to follow. */
    lemma {:induction false} Sums(i: nat, g: Group)
      requires Valid() && i < |groups| && g.start == groups[i].start && g.size == groups[i].size
      ensures var gs, h := groups[i := g], groups[i];
              && Sum(rsvs, Held()) + Sum(gs, Claimed()) + transit
                  == bytesReserved + (g.reserved - g.reservedPinned) - (h.reserved - h.reservedPinned)
              && Sum(gs, Pinned()) == bytesPinned + g.pinned - h.pinned
              && Sum(gs, Used()) == bytesUsed + g.used - h.used
              && Sum(gs, Size()) == totalBytes
              && Sum(gs, ReadOnly()) == bytesReadonly + ReadOnly()(g) - ReadOnly()(h)
              && Apart(gs)
    {
      hide Sum;
      GroupChanged(groups, i, g);
      var gs := groups[i := g];
      forall a, b | 0 <= a < b < |gs|
        ensures Separate(gs[a], gs[b])
      {
        assert Separate(groups[a], groups[b]);
      }
    }

    lemma {:induction false} ValidApart()
      requires Valid()
      ensures Apart(groups)
    {
    }

    /** update_block_group: each group the extent touches is charged for its share, up to the first byte that has no
        group. */
    method UpdateBlockGroup(bytenr: nat, n: nat, alloc: bool) returns (ret: int, ghost done: nat)
      requires Valid()
      modifies `groups, `bytesUsed, `bytesReserved, `bytesPinned
      ensures Valid() && ret == (if Covered(old(groups), bytenr, n) then 0 else -1)
      ensures done <= n && Covered(old(groups), bytenr, done)
              && (if ret == 0 then done == n else done < n && !Mapped(old(groups), bytenr + done))
      ensures AllCharged(old(groups), groups, bytenr, done, alloc)
      ensures bytesUsed == (if alloc then old(bytesUsed) + done else old(bytesUsed) - done)
      ensures bytesReserved == old(bytesReserved) - (if alloc then done else 0)
      ensures bytesPinned == old(bytesPinned) + (if alloc then 0 else done)
    {
      hide Valid, Overlap, Charged, AllCharged, Mapped, Apart;
      var total, at := n, bytenr;
      NothingCharged(groups, bytenr, alloc);
      ValidApart();
      while total > 0
        invariant 0 <= total <= n && at == bytenr + (n - total) && Valid()
        invariant AllCharged(old(groups), groups, bytenr, n - total, alloc) && Covered(old(groups), bytenr, n - total)
        invariant bytesUsed == (if alloc then old(bytesUsed) + (n - total) else old(bytesUsed) - (n - total))
        invariant bytesReserved == old(bytesReserved) - (if alloc then n - total else 0)
        invariant bytesPinned == old(bytesPinned) + (if alloc then 0 else n - total)
      {
        ChargedPlaces(old(groups), groups, bytenr, n - total, alloc);
        var k := LookupGroup(groups, at);
        if k < 0 {
          return -1, n - total;
        }
        var num := Min(total, groups[k].start + groups[k].size - at);
        ChargedStep(old(groups), groups, bytenr, n - total, num, alloc, k);
        CoveredMore(old(groups), bytenr, n - total, num, k);
        ChargeGroup(k, num, alloc);
        total, at := total - num, at + num;
      }
      ret, done := 0, n;
    }

    method ChargeGroup(k: nat, n: nat, alloc: bool)
      requires Valid() && k < |groups|
      modifies `groups, `bytesUsed, `bytesReserved, `bytesPinned
      ensures Valid() && groups == old(groups)[k := Charged(old(groups[k]), n, alloc)]
      ensures bytesUsed == (if alloc then old(bytesUsed) + n else old(bytesUsed) - n)
      ensures bytesReserved == old(bytesReserved) - (if alloc then n else 0)
      ensures bytesPinned == old(bytesPinned) + (if alloc then 0 else n)
    {
      hide Sum, ReadOnly, Apart;
      var g := groups[k];
      Sums(k, Charged(g, n, alloc));
      ChargeIsNeutral(g, n, alloc);
      if alloc {
        groups := groups[k := g.(used := g.used + n, reserved := g.reserved - n)];
        bytesReserved, bytesUsed := bytesReserved - n, bytesUsed + n;
      } else {
        groups := groups[k := g.(used := g.used - n, pinned := g.pinned + n)];
        bytesPinned, bytesUsed := bytesPinned + n, bytesUsed - n;
      }
    }

    /** unpin_extent_range: at the end of a commit, pinned bytes become free, or reserved again, or stay unusable in a
        read-only group. */
    method UnpinRange(start: nat, n: nat) returns (freed: seq<(nat, nat)>)
      requires Valid() && Covered(groups, start, n)
      modifies `groups, `bytesPinned, `bytesReserved, `bytesReadonly
      ensures Valid() && AllUnpinned(old(groups), groups, start, n) && bytesPinned == old(bytesPinned) - n
      ensures forall x: nat :: Added(freed, x) <==> start <= x < start + n && Scanned(old(groups), x)
    {
      hide Valid, Overlap, Unpinned, AllUnpinned, Mapped, Apart, Scanned, Added;
      NoneAdded();
      freed := [];
      var at := start;
      NothingCharged(groups, start, true);
      ValidApart();
      while at < start + n
        invariant start <= at <= start + n && Valid()
        invariant AllUnpinned(old(groups), groups, start, at - start) && bytesPinned == old(bytesPinned) - (at - start)
        invariant forall x: nat :: Added(freed, x) <==> start <= x < at && Scanned(old(groups), x)
      {
        UnpinnedPlaces(old(groups), groups, start, at - start);
        assert Mapped(old(groups), at);
        var k := LookupGroup(groups, at);
        var len := Min(groups[k].start + groups[k].size - at, start + n - at);
        if at < groups[k].lastUnpin {
          len := Min(len, groups[k].lastUnpin - at);
          AddedMore(freed, at, len);
          freed := freed + [(at, len)];
        }
        ScannedPart(old(groups), k, at, len);
        UnpinnedStep(old(groups), groups, start, at - start, len, k);
        UnpinGroup(k, len);
        at := at + len;
      }
    }

    method UnpinGroup(k: nat, len: nat)
      requires Valid() && k < |groups|
      modifies `groups, `bytesPinned, `bytesReserved, `bytesReadonly
      ensures Valid() && groups == old(groups)[k := Unpinned(old(groups[k]), len)]
              && bytesPinned == old(bytesPinned) - len
    {
      hide Sum, Apart;
      var g := groups[k];
      Sums(k, Unpinned(g, len));
      bytesPinned, g := bytesPinned - len, g.(pinned := g.pinned - len);
      if g.ro {
        bytesReadonly := bytesReadonly + len;
      } else if g.reservedPinned > 0 {
        var d := Min(len, g.reservedPinned);
        bytesReserved, g := bytesReserved + d, g.(reservedPinned := g.reservedPinned - d);
      }
      groups := groups[k := g];
    }

    /** pin_down_extent.  Pinning bytes that were not reserved in a read-only group leaves bytesReadonly too large by
        as much: the books still add up exactly when the bytes were reserved, or the group can be written. */
    method PinDown(k: nat, n: nat, reserved: bool)
      requires Valid() && k < |groups|
      modifies `groups, `bytesPinned, `bytesReserved
      ensures ValidBut(if reserved || !old(groups[k]).ro then 0 else n)
      ensures bytesPinned == old(bytesPinned) + n && bytesReserved == old(bytesReserved) - (if reserved then n else 0)
      ensures Valid() <==> reserved || !old(groups[k]).ro || n == 0
      ensures var g := old(groups[k]);
              groups == old(groups)[k := g.(pinned := g.pinned + n, reserved := if reserved then g.reserved - n
                                            else g.reserved)]
    {
      hide Sum, Apart;
      var g := groups[k].(pinned := groups[k].pinned + n);
      Sums(k, if reserved then g.(reserved := g.reserved - n) else g);
      bytesPinned := bytesPinned + n;
      if reserved {
        bytesReserved, g := bytesReserved - n, g.(reserved := g.reserved - n);
      }
      groups := groups[k := g];
    }

    /** btrfs_update_reserved_bytes.  Without `sinfo`, the bytes come from, or go back to, a reservation. */
    method UpdateReservedBytes(k: nat, n: nat, reserve: bool, sinfo: bool) returns (ret: int)
      requires Valid() && k < |groups|
      modifies `groups, `bytesReserved, `bytesReadonly, `transit
      ensures Valid() && ret == (if old(groups[k]).ro && (reserve || !sinfo) then EAGAIN else 0)
      ensures ret != 0 ==> groups == old(groups) && bytesReserved == old(bytesReserved) && transit == old(transit)
      ensures ret == 0 ==>
                var g, d := old(groups[k]), if reserve then n else -(n as int);
                && groups == old(groups)[k := g.(reserved := g.reserved + d)]
                && (if sinfo then bytesReserved == old(bytesReserved) + d && transit == old(transit)
                    else bytesReserved == old(bytesReserved) && transit == old(transit) - d)
    {
      hide Sum, Apart;
      var g := groups[k];
      ret := 0;
      if sinfo {
        if reserve {
          if g.ro {
            ret := EAGAIN;
          } else {
            Sums(k, g.(reserved := g.reserved + n));
            groups, bytesReserved := groups[k := g.(reserved := g.reserved + n)], bytesReserved + n;
          }
        } else {
          Sums(k, g.(reserved := g.reserved - n));
          if g.ro {
            bytesReadonly := bytesReadonly + n;
          }
          groups, bytesReserved := groups[k := g.(reserved := g.reserved - n)], bytesReserved - n;
        }
      } else if g.ro {
        ret := EAGAIN;
      } else if reserve {
        Sums(k, g.(reserved := g.reserved + n));
        groups, transit := groups[k := g.(reserved := g.reserved + n)], transit - n;
      } else {
        Sums(k, g.(reserved := g.reserved - n));
        groups, transit := groups[k := g.(reserved := g.reserved - n)], transit + n;
      }
    }

    /** set_block_group_ro: only if everything else still fits. */
    method SetReadOnly(k: nat) returns (ret: int)
      requires Valid() && k < |groups|
      modifies `groups, `bytesReserved, `bytesReadonly
      ensures Valid()
      ensures var g := old(groups[k]);
              var inUse := old(bytesUsed + bytesReserved + bytesPinned + bytesMayUse + bytesReadonly);
              && ret == (if g.ro || inUse + g.reservedPinned + Unused(g) <= totalBytes then 0 else ENOSPC)
              && groups == (if ret == 0 && !g.ro then old(groups)[k := g.(ro := true, reservedPinned := 0)]
                            else old(groups))
    {
      hide Sum, Apart;
      var g := groups[k];
      if g.ro {
        return 0;
      }
      ret := ENOSPC;
      var num := g.size - g.reserved - g.pinned - g.super - g.used;
      if bytesUsed + bytesReserved + bytesPinned + bytesMayUse + bytesReadonly + g.reservedPinned + num <= totalBytes {
        Sums(k, g.(reservedPinned := 0, ro := true));
        bytesReadonly, bytesReserved := bytesReadonly + num, bytesReserved + g.reservedPinned;
        groups := groups[k := g.(reservedPinned := 0, ro := true)];
        ret := 0;
      }
    }

    /** btrfs_set_block_group_rw: what is subtracted is exactly what the group had put in. */
    method SetReadWrite(k: nat)
      requires Valid() && k < |groups| && groups[k].ro
      modifies `groups, `bytesReadonly
      ensures Valid() && groups == old(groups)[k := old(groups[k]).(ro := false)]
    {
      hide Sum, Apart;
      var g := groups[k];
      Sums(k, g.(ro := false));
      bytesReadonly := bytesReadonly - (g.size - g.reserved - g.pinned - g.super - g.used);
      groups := groups[k := g.(ro := false)];
    }

    /** btrfs_make_block_group, with update_space_info. */
    method MakeGroup(start: nat, size: nat, used: nat, super: nat)
      requires Valid()
      requires forall i | 0 <= i < |groups| ::
                 groups[i].start + groups[i].size <= start || start + size <= groups[i].start
      modifies `groups, `bytesUsed, `totalBytes, `bytesReadonly
      ensures Valid() && groups == old(groups) + [Group(start, size, used, 0, 0, 0, super, false,
                                                        0xFFFF_FFFF_FFFF_FFFF)]
    {
      hide Sum;
      var g := Group(start, size, used, 0, 0, 0, super, false, 0xFFFF_FFFF_FFFF_FFFF);
      GroupMade(groups, g);
      groups, totalBytes, bytesUsed, bytesReadonly := groups + [g], totalBytes + size, bytesUsed + used,
          bytesReadonly + super;
    }

    /** btrfs_remove_block_group, on a read-only group: taking its whole size off bytesReadonly is right exactly when
        the group is empty. */
    method RemoveGroup(k: nat)
      requires Valid() && k < |groups| && groups[k].ro
      modifies `groups, `totalBytes, `bytesReadonly
      ensures groups == old(groups)[..k] + old(groups)[k + 1..]
      ensures totalBytes == old(totalBytes - groups[k].size) && bytesReadonly == old(bytesReadonly - groups[k].size)
      ensures var g := old(groups[k]);
              Valid() <==> g.used == 0 && g.reserved == 0 && g.pinned == 0 && g.reservedPinned == 0
    {
      hide Sum;
      var g := groups[k];
      GroupGone(groups, k, Claimed());
      GroupGone(groups, k, Pinned());
      GroupGone(groups, k, Used());
      GroupGone(groups, k, Size());
      GroupGone(groups, k, ReadOnly());
      ApartWithout(groups, k);
      totalBytes, bytesReadonly := totalBytes - g.size, bytesReadonly - g.size;
      groups := groups[..k] + groups[k + 1..];
    }

    // ---------- whole operations ----------

    /** What the counters leave of the space, less than 0 if they exceed it. */
    function Left(): int
      reads this
    {
      totalBytes - (bytesUsed + bytesPinned + bytesReserved + bytesReadonly + bytesMayUse)
    }

    function Now(): Others
      reads this
    {
      Others(bytesUsed, bytesReserved, bytesPinned, bytesReadonly, bytesMayUse, totalBytes)
    }

    /** What becomes of a request with nobody else at work. */
    function Alone(n: nat, flush: bool, hasTrans: bool, shrink: (nat, int) -> int, join: int, commit: int): int
      reads this
    {
      var now, pinned := Now(), bytesPinned;
      Verdict(n, flush, hasTrans, _ => now, _ => pinned, shrink, join, commit, 0)
    }

    /** reserve_metadata_bytes with nobody else at work; what shrink_delalloc and the
        transaction calls return as it comes. */
    method Reserve(n: nat, flush: bool, hasTrans: bool, shrink: (nat, int) -> int, join: int, commit: int)
      returns (ret: int)
      requires Valid()
      modifies `bytesReserved, `transit
      ensures Valid() && transit == old(transit) + (if ret == 0 then n else 0)
      ensures bytesReserved == old(bytesReserved) + (if ret == 0 then n else 0)
      ensures (old(Left()) >= n ==> ret == 0) && (!flush ==> ret == if old(Left()) >= n then 0 else ENOSPC)
      ensures ret == old(Alone(n, flush, hasTrans, shrink, join, commit))
    {
      var now, pinned := Now(), bytesPinned;
      var own, passes;
      ret, own, passes := ReserveMetadataBytes(n, flush, hasTrans, _ => now, _ => pinned, shrink, join, commit);
      bytesReserved, transit := bytesReserved + own, transit + own;
    }

    /** btrfs_block_rsv_add. */
    method RsvAdd(i: nat, n: nat, hasTrans: bool, shrink: (nat, int) -> int, join: int, commit: int) returns (ret: int)
      requires Valid() && i < |rsvs|
      modifies `rsvs, `bytesReserved, `transit
      ensures Valid() && transit == old(transit) && |rsvs| == |old(rsvs)|
      ensures ret == if n == 0 then 0 else old(Alone(n, true, hasTrans, shrink, join, commit))
      ensures ret != 0 || n == 0 ==> rsvs == old(rsvs) && bytesReserved == old(bytesReserved)
      ensures ret == 0 && n > 0 ==>
                rsvs == old(rsvs)[i := Filled(old(rsvs[i]), n, true)] && bytesReserved == old(bytesReserved) + n
    {
      hide ValidBut, Wrap;
      if n == 0 {
        return 0;
      }
      ret := Reserve(n, true, hasTrans, shrink, join, commit);
      if ret == 0 {
        AddBytes(i, n, true);
      }
    }

    /** update_global_block_rsv, once the new size is known: take all that is left, give back what is too much. */
    method UpdateGlobal(size: u64)
      requires Valid() && |rsvs| > 0
      modifies `rsvs, `bytesReserved
      ensures Valid()
      ensures var r := old(rsvs[0]);
              var reserved := Min(size, r.reserved + Max(0, old(Left())));
              && rsvs == old(rsvs)[0 := r.(size := size, reserved := reserved, full := r.full || reserved == size)]
              && bytesReserved == old(bytesReserved) + reserved - r.reserved
      ensures rsvs[0].reserved < size ==> Left() <= 0
    {
      hide Sum, Apart;
      var r := rsvs[0].(size := size);
      var num := bytesUsed + bytesPinned + bytesReserved + bytesReadonly + bytesMayUse;
      if totalBytes > num {
        num := totalBytes - num;
        r, bytesReserved := r.(reserved := r.reserved + num), bytesReserved + num;
      }
      if r.reserved >= r.size {
        bytesReserved := bytesReserved - (r.reserved - r.size);
        r := r.(reserved := r.size, full := true);
      }
      SumUpdate(rsvs, 0, r, Held());
      rsvs := rsvs[0 := r];
    }

    /** Who pays for a block: the reservation itself, unless its size is 0; else the space; else the global
        reservation, if it is another one. */
    function SourceFor(i: nat, n: nat): Source
      requires 0 <= i < |rsvs|
      reads this
    {
      if rsvs[i].size != 0 && rsvs[i].reserved >= n then FromOwn
      else if Left() >= n then FromSpace
      else if i != 0 && rsvs[0].reserved >= n then FromGlobal
      else FromNone
    }

    /** use_block_rsv: the bytes for one block, from the reservation, from the space, or from the global reservation,
        number 0.  Returns the reservation they are charged to, or -1. */
    method UseBlockRsv(i: nat, n: nat) returns (j: int)
      requires Valid() && i < |rsvs|
      modifies `rsvs, `bytesReserved, `transit
      ensures Valid() && |rsvs| == |old(rsvs)|
      ensures var source := old(SourceFor(i, n));
              && j == (if source.FromNone? then -1 else if source.FromGlobal? then 0 else i)
              && transit == old(transit) + (if j == -1 then 0 else n)
              && bytesReserved == old(bytesReserved) + (if source.FromSpace? then n else 0)
              && rsvs == PaidBy(old(rsvs), i, n, source)
    {
      hide Sum, Wrap, Apart;
      var ret;
      if rsvs[i].size == 0 {
        ret := Reserve(n, false, true, (_, _) => 0, 0, 0);
        if ret == 0 {
          return i;
        }
      } else {
        ret := UseBytes(i, n);
        if ret == 0 {
          return i;
        }
        ret := Reserve(n, false, true, (_, _) => 0, 0, 0);
        if ret == 0 {
          var r := rsvs[i].(size := Wrap(rsvs[i].size + n));
          SumUpdate(rsvs, i, r, Held());
          rsvs := rsvs[i := r];
          return i;
        }
      }
      if i == 0 {
        return -1;
      }
      ret := UseBytes(0, n);
      j := if ret == 0 then 0 else -1;
    }

    /** unuse_block_rsv. */
    method UnuseBlockRsv(i: nat, n: nat)
      requires Valid() && i < |rsvs|
      modifies `rsvs, `bytesReserved, `transit
      ensures Valid() && transit == old(transit) - n && rsvs == PaidBack(old(rsvs), i, n)
    {
      hide ValidBut, Released, Taken;
      AddBytes(i, n, false);
      ReleaseBytes(i, -1, 0);
    }

    /** btrfs_alloc_free_block's accounting: block group k, or none if k is -1, is where the search ended. */
    method AllocBlock(i: nat, k: int, n: nat) returns (ret: int)
      requires Valid() && i < |rsvs| && -1 <= k < |groups|
      modifies `rsvs, `groups, `bytesReserved, `bytesReadonly, `transit
      ensures Valid() && transit == old(transit)
      ensures var source := old(SourceFor(i, n));
              && ret == (if source.FromNone? || k < 0 then ENOSPC else if old(groups[k]).ro then EAGAIN else 0)
              && groups == (if ret == 0 then old(groups)[k := old(groups[k]).(reserved := old(groups[k]).reserved + n)]
                            else old(groups))
              && var paid := PaidBy(old(rsvs), i, n, source);
                 rsvs == if ret == 0 || source.FromNone? then paid else PaidBack(paid, ChargedTo(i, source), n)
    {
      hide ValidBut, PaidBy, PaidBack;
      var j := UseBlockRsv(i, n);
      if j == -1 {
        return ENOSPC;
      }
      ret := ENOSPC;
      if k >= 0 {
        ret := UpdateReservedBytes(k, n, true, false);
      }
      if ret != 0 {
        UnuseBlockRsv(j, n);
      }
    }

    /** btrfs_free_tree_block, for the last reference: `fresh` says the block was made in this transaction, `cleaned`
        that its delayed refs are gone, `written` that it has been written out; `odd` is the parity of the
        transaction. */
    method FreeTreeBlock(i: nat, k: nat, n: nat, fresh': bool, cleaned: bool, written: bool, odd: bool)
      requires Valid() && i < |rsvs| && k < |groups|
      modifies `rsvs, `groups, `bytesReserved, `bytesPinned, `bytesReadonly, `transit
      ensures Valid() && transit == old(transit)
      ensures bytesPinned == old(bytesPinned) + (if fresh' && cleaned && written then n else 0)
      ensures var g, r := old(groups[k]), old(rsvs[i]);
              if fresh' && cleaned && !written then
                && groups == old(groups)[k := g.(reserved := g.reserved - n)]
                && rsvs == (if !g.ro && r.reserved < r.size then old(rsvs)[i := r.(reserved := r.reserved + n)]
                            else old(rsvs))
              else
                var promised := if r.durable && !g.ro then n else 0;
                var g' := if fresh' && cleaned then g.(reserved := g.reserved - n, pinned := g.pinned + n) else g;
                && groups == old(groups)[k := g'.(reservedPinned := g.reservedPinned + promised)]
                && rsvs == old(rsvs)[i := if odd then r.(freed1 := r.freed1 + promised)
                                          else r.(freed0 := r.freed0 + promised)]
    {
      hide Sum, Apart;
      if fresh' && cleaned {
        if !written {
          FreeUnwritten(i, k, n);
          return;
        }
        PinDown(k, n, true);
      }
      if rsvs[i].durable && !groups[k].ro {
        var g, r := groups[k].(reservedPinned := groups[k].reservedPinned + n), rsvs[i];
        r := if odd then r.(freed1 := r.freed1 + n) else r.(freed0 := r.freed0 + n);
        Sums(k, g);
        SumUpdate(rsvs, i, r, Held());
        groups, rsvs := groups[k := g], rsvs[i := r];
      }
    }

    /** A block that never reached the disk: its bytes go back to the reservation, or to the space. */
    method FreeUnwritten(i: nat, k: nat, n: nat)
      requires Valid() && i < |rsvs| && k < |groups|
      modifies `rsvs, `groups, `bytesReserved, `bytesReadonly, `transit
      ensures Valid() && transit == old(transit) && |rsvs| == |old(rsvs)|
      ensures groups == old(groups)[k := old(groups[k]).(reserved := old(groups[k]).reserved - n)]
      ensures var kept := !old(groups[k].ro) && old(rsvs[i].reserved < rsvs[i].size);
              && bytesReserved == old(bytesReserved) - (if kept then 0 else n)
              && rsvs == if kept then old(rsvs)[i := old(rsvs[i]).(reserved := old(rsvs[i]).reserved + n)]
                         else old(rsvs)
    {
      hide Sum, Apart;
      var ret := UpdateReservedBytes(k, n, false, false);
      if ret == EAGAIN {
        ret := UpdateReservedBytes(k, n, false, true);
        return;
      }
      if rsvs[i].reserved < rsvs[i].size {
        var r := rsvs[i].(reserved := rsvs[i].reserved + n);
        SumUpdate(rsvs, i, r, Held());
        rsvs, transit := rsvs[i := r], transit - n;
      } else {
        bytesReserved, transit := bytesReserved - n, transit - n;
      }
    }

    /** btrfs_finish_extent_commit, after the unpinning: what durable reservations were to get back from the
        transaction that has just been committed. */
    method FinishCommit(odd: bool)
      requires Valid() && |rsvs| > 0
      modifies `rsvs, `bytesReserved, `transit
      ensures Valid() && transit == old(transit) && rsvs == Committed(old(rsvs), odd, |old(rsvs)|)
      ensures forall j | 0 <= j < |rsvs| && rsvs[j].durable :: (if odd then rsvs[j].freed1 else rsvs[j].freed0) <= 0
    {
      hide ValidBut, GivenBack;
      var j := 0;
      while j < |rsvs|
        invariant 0 <= j <= |rsvs| == |old(rsvs)| && Valid() && transit == old(transit)
        invariant rsvs == Committed(old(rsvs), odd, j)
      {
        if rsvs[j].durable {
          GiveBack(j, odd);
        }
        j := j + 1;
      }
      forall i | 0 <= i < |rsvs| && rsvs[i].durable
        ensures (if odd then rsvs[i].freed1 else rsvs[i].freed0) <= 0
      {
        NothingOwed(old(rsvs), odd, |rsvs|, i);
      }
    }

    method GiveBack(j: nat, odd: bool)
      requires Valid() && j < |rsvs| && rsvs[j].durable
      modifies `rsvs, `bytesReserved, `transit
      ensures Valid() && transit == old(transit) && rsvs == GivenBack(old(rsvs), j, odd)
    {
      hide ValidBut, Released, Topped;
      GetFreed(j, odd);
      Release(j, if rsvs[j].usage == 0 then 0xFFFF_FFFF_FFFF_FFFF else 0);
      LeaveList(j);
    }

    method GetFreed(j: nat, odd: bool)
      requires Valid() && j < |rsvs|
      modifies `rsvs
      ensures Valid() && rsvs == old(rsvs)[j := Refilled(old(rsvs[j]), odd)]
    {
      hide Sum, Wrap, Apart;
      var r := rsvs[j];
      var freed := if odd then r.freed1 else r.freed0;
      if freed > 0 {
        r := r.(reserved := r.reserved + freed);
        r := if r.reserved >= r.size then r.(full := true) else r;
        r := if odd then r.(freed1 := 0) else r.(freed0 := 0);
        SumUpdate(rsvs, j, r, Held());
        rsvs := rsvs[j := r];
      }
    }

    method LeaveList(j: nat)
      requires Valid() && j < |rsvs|
      modifies `rsvs
      ensures Valid() && rsvs == old(rsvs)[j := Dismissed(old(rsvs[j]))]
    {
      hide Sum, Apart;
      if rsvs[j].usage == 0 && rsvs[j].freed0 == 0 && rsvs[j].freed1 == 0 {
        var gone := rsvs[j].(durable := false);
        SumUpdate(rsvs, j, gone, Held());
        rsvs := rsvs[j := gone];
      }
    }
  }

  /** As replaying the tree log does: a block pinned without having been reserved, in a group that is read-only. */
  method UnreservedPinBreaksBooks() returns (s: Space)
    ensures !s.Valid() && s.ValidBut(4096)
  {
    s := new Space(1);
    s.MakeGroup(0, 0x10_0000, 0, 0);
    var ret := s.SetReadOnly(0);
    s.PinDown(0, 4096, false);
  }

  lemma {:induction false} ApartWithout(gs: seq<Group>, k: nat)
    requires Apart(gs) && k < |gs|
    ensures Apart(gs[..k] + gs[k + 1..])
  {
    var t := gs[..k] + gs[k + 1..];
    forall i, j | 0 <= i < j < |t|
      ensures Separate(t[i], t[j])
    {
      assert t[i] == gs[if i < k then i else i + 1] && t[j] == gs[if j < k then j else j + 1];
    }
  }

  lemma {:induction false} ChargeIsNeutral(g: Group, k: nat, alloc: bool)
    ensures ReadOnly()(Charged(g, k, alloc)) == ReadOnly()(g)
  {
  }
}
