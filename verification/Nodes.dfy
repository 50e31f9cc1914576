/** Interior nodes of the tree: arrays of key pointers that are pushed left, balanced right and split. */
module Nodes {
  import opened Basics
  import opened Regions
  import opened LeafFormat

  /** struct btrfs_key_ptr */
  datatype KeyPtr = KeyPtr(key: Key, blockptr: u64, generation: u64)

  /** How many pointers push_node_left moves; Refuse when it returns 1 and moves nothing. */
  datatype Count = Refuse | Move(n: nat)

  function PushLeftCount(cap: nat, srcNr: nat, dstNr: nat, empty: bool): Count {
    var room := cap - dstNr;
    if !empty && srcNr <= 8 then Refuse
    else if room <= 0 then Refuse
    else if empty then
      var push := if srcNr < room then srcNr else room;
      if push < srcNr && srcNr - push < 8 then
        if push <= 8 then Refuse else Move(push - 8)
      else Move(push)
    else Move(if srcNr - 8 < room then srcNr - 8 else room)
  }

  /** How many pointers balance_node_right moves. */
  function BalanceRightCount(cap: nat, srcNr: nat, dstNr: nat): Count {
    var room := cap - dstNr;
    var maxPush := srcNr / 2 + 1;
    if room <= 0 || srcNr < 4 || maxPush >= srcNr then Refuse
    else Move(if maxPush < room then maxPush else room)
  }

  /** push_node_left fits its destination and leaves its source empty or with at least 8 pointers. */
  lemma {:induction false} PushLeftLeaves(cap: nat, srcNr: nat, dstNr: nat, empty: bool)
    requires PushLeftCount(cap, srcNr, dstNr, empty).Move?
    ensures var k := PushLeftCount(cap, srcNr, dstNr, empty).n;
            && k <= srcNr && dstNr + k <= cap
            && (srcNr - k == 0 || srcNr - k >= 8)
            && (!empty ==> k > 0 && srcNr - k >= 8)
            && (srcNr > 0 ==> k > 0)
  {
  }

  /** balance_node_right moves some but not all, at most a little over half, and what it moves fits. */
  lemma {:induction false} BalanceRightLeaves(cap: nat, srcNr: nat, dstNr: nat)
    requires BalanceRightCount(cap, srcNr, dstNr).Move?
    ensures var k := BalanceRightCount(cap, srcNr, dstNr).n;
            0 < k < srcNr && dstNr + k <= cap && k <= srcNr / 2 + 1
  {
  }

  /** m pointers fit, and leave the source empty, if that is wanted, or with at least 8. */
  predicate MayMove(cap: nat, srcNr: nat, dstNr: nat, empty: bool, m: nat) {
    m <= srcNr && dstNr + m <= cap && (srcNr - m >= 8 || (empty && m == srcNr))
  }

  /** push_node_left moves as many as may be moved, except that where filling up the destination would leave between 1
      and 7 it moves 8 fewer than that.  It refuses a full destination, a source of at most 8 that is not to be emptied,
      and one of which filling up 8 or fewer places would leave between 1 and 7. */
  lemma {:induction false} PushLeftMost(cap: nat, srcNr: nat, dstNr: nat, empty: bool)
    ensures var count, room := PushLeftCount(cap, srcNr, dstNr, empty), cap - dstNr;
            var short := empty && room < srcNr < room + 8;
            && (count == Refuse <==> room <= 0 || (!empty && srcNr <= 8) || (short && room <= 8))
            && (count.Move? ==> MayMove(cap, srcNr, dstNr, empty, count.n))
            && (count.Move? && short ==> count.n == room - 8)
            && (count.Move? && !short ==> forall m: nat | MayMove(cap, srcNr, dstNr, empty, m) :: m <= count.n)
  {
  }

  /** balance_node_right moves half of the pointers and one, or what fits; it refuses a full destination and a source of
      fewer than 4. */
  lemma {:induction false} BalanceRightMost(cap: nat, srcNr: nat, dstNr: nat)
    ensures BalanceRightCount(cap, srcNr, dstNr) == Refuse <==> dstNr >= cap || srcNr < 4
    ensures BalanceRightCount(cap, srcNr, dstNr).Move? ==>
              var k := BalanceRightCount(cap, srcNr, dstNr).n;
              k <= srcNr / 2 + 1 && dstNr + k <= cap && (k == srcNr / 2 + 1 || dstNr + k == cap)
  {
  }

  class Node {
    const ptrs: array<KeyPtr>
    var nritems: nat

    ghost predicate Valid()
      reads this
    {
      nritems <= ptrs.Length
    }

    ghost function Contents(): seq<KeyPtr>
      requires Valid()
      reads this, ptrs
    {
      ptrs[..nritems]
    }

    /** insert_ptr; its BUG() on a full node is a precondition. */
    method InsertPtr(slot: nat, p: KeyPtr)
      requires Valid() && slot <= nritems < ptrs.Length
      modifies this, ptrs
      ensures Valid() && Contents() == old(Contents())[..slot] + [p] + old(Contents())[slot..]
    {
      ghost var s := ptrs[..];
      if slot != nritems {
        MoveWithin(ptrs, slot + 1, slot, nritems - slot);
      }
      ptrs[slot] := p;
      nritems := nritems + 1;
    }

    /** del_ptr, without the key fix-up above. */
    method DelPtr(slot: nat)
      requires Valid() && slot < nritems
      modifies this, ptrs
      ensures Valid() && Contents() == old(Contents())[..slot] + old(Contents())[slot + 1..]
    {
      if slot != nritems - 1 {
        MoveWithin(ptrs, slot, slot + 1, nritems - slot - 1);
      }
      nritems := nritems - 1;
    }
  }

  /** What the two copies of a push left behind. */
  lemma {:induction false} PushedLeft(d: seq<KeyPtr>, m: nat, s: seq<KeyPtr>, n: nat, k: nat)
    requires m + k <= |d| && k <= n <= |s|
    ensures Written(d, m, s[..k])[..m + k] == d[..m] + s[..n][..k]
    ensures Moved(s, 0, k, n - k)[..n - k] == s[..n][k..]
  {
  }

  lemma {:induction false} BalancedRight(d: seq<KeyPtr>, m: nat, s: seq<KeyPtr>, n: nat, k: nat)
    requires m + k <= |d| && k <= n <= |s|
    ensures Written(Moved(d, k, 0, m), 0, s[n - k..n])[..m + k] == s[..n][n - k..] + d[..m]
    ensures s[..n - k] == s[..n][..n - k]
  {
    var d1 := Moved(d, k, 0, m);
    assert d1[k..m + k] == d[..m];
  }

  /** push_node_left */
  method PushNodeLeft(cap: nat, dst: Node, src: Node, empty: bool) returns (ret: int)
    requires dst != src && dst.ptrs != src.ptrs && dst.ptrs.Length == src.ptrs.Length == cap
    requires dst.Valid() && src.Valid()
    modifies dst, dst.ptrs, src, src.ptrs
    ensures dst.Valid() && src.Valid()
    ensures match PushLeftCount(cap, old(src.nritems), old(dst.nritems), empty)
            case Refuse => ret == 1 && dst.Contents() == old(dst.Contents()) && src.Contents() == old(src.Contents())
            case Move(k) =>
              && ret == 0 && k <= |old(src.Contents())|
              && dst.Contents() == old(dst.Contents()) + old(src.Contents())[..k]
              && src.Contents() == old(src.Contents())[k..]
  {
    hide Written, Moved, PushLeftCount, SameOutside;
    var count := PushLeftCount(cap, src.nritems, dst.nritems, empty);
    if count == Refuse {
      return 1;
    }
    PushLeftLeaves(cap, src.nritems, dst.nritems, empty);
    var k := count.n;
    PushedLeft(dst.ptrs[..], dst.nritems, src.ptrs[..], src.nritems, k);
    Write(dst.ptrs, dst.nritems, src.ptrs[..k]);
    if k < src.nritems {
      MoveWithin(src.ptrs, 0, k, src.nritems - k);
    }
    src.nritems, dst.nritems := src.nritems - k, dst.nritems + k;
    ret := 0;
  }

  /** balance_node_right */
  method BalanceNodeRight(cap: nat, dst: Node, src: Node) returns (ret: int)
    requires dst != src && dst.ptrs != src.ptrs && dst.ptrs.Length == src.ptrs.Length == cap
    requires dst.Valid() && src.Valid()
    modifies dst, dst.ptrs, src, src.ptrs
    ensures dst.Valid() && src.Valid()
    ensures match BalanceRightCount(cap, old(src.nritems), old(dst.nritems))
            case Refuse => ret == 1 && dst.Contents() == old(dst.Contents()) && src.Contents() == old(src.Contents())
            case Move(k) =>
              && ret == 0 && k <= |old(src.Contents())|
              && dst.Contents() == old(src.Contents())[|old(src.Contents())| - k..] + old(dst.Contents())
              && src.Contents() == old(src.Contents())[..|old(src.Contents())| - k]
  {
    hide Written, Moved, BalanceRightCount, SameOutside;
    var count := BalanceRightCount(cap, src.nritems, dst.nritems);
    if count == Refuse {
      return 1;
    }
    BalanceRightLeaves(cap, src.nritems, dst.nritems);
    var k := count.n;
    BalancedRight(dst.ptrs[..], dst.nritems, src.ptrs[..], src.nritems, k);
    MoveWithin(dst.ptrs, k, 0, dst.nritems);
    Write(dst.ptrs, 0, src.ptrs[src.nritems - k..src.nritems]);
    src.nritems, dst.nritems := src.nritems - k, dst.nritems + k;
    ret := 0;
  }

  /** The copy in split_node: the upper half goes to a new node. */
  method SplitCopy(c: Node, split: Node) returns (mid: nat)
    requires c != split && c.ptrs != split.ptrs && c.ptrs.Length == split.ptrs.Length
    requires c.Valid() && c.nritems >= 2
    modifies c, split, split.ptrs
    ensures c.Valid() && split.Valid() && 0 < mid < |old(c.Contents())| && mid == (|old(c.Contents())| + 1) / 2
    ensures c.Contents() == old(c.Contents())[..mid] && split.Contents() == old(c.Contents())[mid..]
  {
    mid := (c.nritems + 1) / 2;
    Write(split.ptrs, 0, c.ptrs[mid..c.nritems]);
    split.nritems := c.nritems - mid;
    c.nritems := mid;
  }
}
