/** push_leaf_right and push_leaf_left on the bytes of two neighbouring leaves: the counting loops read item
    headers, the moves are those of LeafPush, and together they do to the item lists what SplitLeaf says of a level.
    One pass of split_leaf likewise. */
module LeafBalance {
  import opened LeafFormat
  import opened LeafEdit
  import opened LeafPush
  import opened SplitLeaf

  /** btrfs_item_size_nr */
  method ItemSize(leaf: Leaf, i: nat) returns (size: nat)
    requires leaf.Valid() && i < leaf.nritems
    ensures size == |leaf.items[i].data|
  {
    hide Rep;
    RepReads(leaf.buf[..], leaf.items, i);
    size := SizeAt(leaf.buf[..], i);
  }

  /** The loop of __push_leaf_right that counts the items to push. */
  method CountRightItems(left: Leaf, slot: nat, dataSize: nat, freeSpace: int, minSlot: nat, empty: bool)
    returns (pushItems: nat)
    requires left.Valid() && left.nritems > 0
    ensures pushItems <= left.nritems
    ensures pushItems == RightCount(left.buf.Length, left.items, slot, dataSize, freeSpace, minSlot, empty, 0)
    ensures pushItems > 0 ==> RightSpace(left.items, slot, dataSize, pushItems) <= freeSpace
  {
    hide RightSpace, RightCount, StopsRight, SpaceUsed, Rep;
    var n := left.nritems;
    var nr := LowestRight(minSlot, empty);
    var pushSpace := if slot >= n then dataSize else 0;
    pushItems := 0;
    var i := n - 1;
    NoneRight(left.items, slot, dataSize);
    while i >= nr
      invariant i == n - 1 - pushItems >= -1
      invariant pushSpace == RightSpace(left.items, slot, dataSize, pushItems)
      invariant pushItems > 0 ==> pushSpace <= freeSpace
      invariant RightCount(left.buf.Length, left.items, slot, dataSize, freeSpace, minSlot, empty, pushItems)
             == RightCount(left.buf.Length, left.items, slot, dataSize, freeSpace, minSlot, empty, 0)
      decreases i
    {
      RightStep(left.buf.Length, left.items, slot, dataSize, freeSpace, minSlot, empty, pushItems);
      if !empty && pushItems > 0 {
        if slot > i {
          return;
        }
        if slot == i {
          var space := left.FreeSpace();
          if space + pushSpace * 2 > freeSpace {
            return;
          }
        }
      }
      var withData := if slot == i then pushSpace + dataSize else pushSpace;
      var size := ItemSize(left, i);
      if size + 25 + withData > freeSpace {
        return;
      }
      pushItems := pushItems + 1;
      pushSpace := withData + size + 25;
      i := i - 1;
    }
    RightEnds(left.buf.Length, left.items, slot, dataSize, freeSpace, minSlot, empty, pushItems);
  }

  /** The loop of __push_leaf_left that counts the items to push. */
  method CountLeftItems(right: Leaf, slot: nat, dataSize: nat, freeSpace: int, maxSlot: nat, empty: bool)
    returns (pushItems: nat)
    requires right.Valid() && right.nritems > 0
    ensures pushItems <= right.nritems
    ensures pushItems == LeftCount(right.buf.Length, right.items, slot, dataSize, freeSpace, maxSlot, empty, 0)
    ensures pushItems > 0 ==> LeftSpace(right.items, slot, dataSize, pushItems) <= freeSpace
  {
    hide LeftSpace, LeftCount, StopsLeft, SpaceUsed, Rep;
    var nr := HighestLeft(right.nritems, maxSlot, empty);
    var pushSpace := 0;
    pushItems := 0;
    NoneLeft(right.items, slot, dataSize);
    var i := 0;
    while i < nr
      invariant i == pushItems <= nr
      invariant pushSpace == LeftSpace(right.items, slot, dataSize, pushItems)
      invariant pushItems > 0 ==> pushSpace <= freeSpace
      invariant LeftCount(right.buf.Length, right.items, slot, dataSize, freeSpace, maxSlot, empty, pushItems)
             == LeftCount(right.buf.Length, right.items, slot, dataSize, freeSpace, maxSlot, empty, 0)
    {
      LeftStep(right.buf.Length, right.items, slot, dataSize, freeSpace, maxSlot, empty, pushItems);
      if !empty && pushItems > 0 {
        if slot < i {
          return;
        }
        if slot == i {
          var space := right.FreeSpace();
          if space + pushSpace * 2 > freeSpace {
            return;
          }
        }
      }
      var withData := if slot == i then pushSpace + dataSize else pushSpace;
      var size := ItemSize(right, i);
      if size + 25 + withData > freeSpace {
        return;
      }
      pushItems := pushItems + 1;
      pushSpace := withData + size + 25;
      i := i + 1;
    }
    LeftEnds(right.buf.Length, right.items, slot, dataSize, freeSpace, maxSlot, empty, pushItems);
  }

  /** push_leaf_right with the path in the left leaf: bytes and path end up as the list operation has it. */
  method PushLeafRight(left: Leaf, right: Leaf, slot: nat, minDataSize: nat, dataSize: nat, empty: bool, minSlot: nat)
    returns (ret: int, slot1: nat, slot0: nat)
    requires Pair(left, right) && slot <= left.nritems
    modifies left`nritems, left`items, right, right.buf
    ensures Pair(left, right)
    ensures var w, cap := Place([old(left.items), old(right.items)], 0, slot), left.buf.Length;
            var k := RightMoves(cap, true, w, minDataSize, dataSize, empty, minSlot);
            ret == (if k > 0 then 0 else 1) && Place([left.items, right.items], slot1, slot0) == GoneRight(w, k)
  {
    hide DataLength, SpaceUsed, Rep, RightCount;
    slot1, slot0 := 0, slot;
    var freeSpace := right.FreeSpace();
    if freeSpace < dataSize || left.nritems == 0 {
      return 1, slot1, slot0;
    }
    var k := CountRightItems(left, slot, minDataSize, freeSpace, minSlot, empty);
    if k == 0 {
      return 1, slot1, slot0;
    }
    PushRight(left, right, k);
    if slot0 >= left.nritems {
      slot0, slot1 := slot0 - left.nritems, 1;
    }
    ret := 0;
  }

  /** push_leaf_left with the path in the right leaf. */
  method PushLeafLeft(left: Leaf, right: Leaf, slot: nat, minDataSize: nat, dataSize: nat, empty: bool, maxSlot: nat)
    returns (ret: int, slot1: nat, slot0: nat)
    requires Pair(left, right) && slot <= right.nritems && left.nritems > 0
    modifies left, left.buf, right, right.buf
    ensures Pair(left, right)
    ensures var w, cap := Place([old(left.items), old(right.items)], 1, slot), left.buf.Length;
            var k := LeftMoves(cap, true, w, minDataSize, dataSize, empty, maxSlot);
            ret == (if k > 0 then 0 else 1) && Place([left.items, right.items], slot1, slot0) == GoneLeft(w, k)
  {
    hide DataLength, SpaceUsed, Rep, LeftCount;
    slot1, slot0 := 1, slot;
    if right.nritems == 0 {
      return 1, slot1, slot0;
    }
    var freeSpace := left.FreeSpace();
    if freeSpace < dataSize {
      return 1, slot1, slot0;
    }
    var k := CountLeftItems(right, slot, minDataSize, freeSpace, maxSlot, empty);
    if k == 0 {
      return 1, slot1, slot0;
    }
    var oldLeftNritems := left.nritems;
    PushLeft(left, right, k);
    if slot0 < k {
      slot0, slot1 := slot0 + oldLeftNritems, 0;
    } else {
      slot0 := slot0 - k;
    }
    ret := 0;
  }

  /** The decision at label `again` of split_leaf, read off the headers. */
  method ChoosePlan(l: Leaf, slot: nat, dataSize: nat, extend: bool, tried: bool) returns (plan: Plan)
    requires l.Valid() && slot <= l.nritems && l.nritems > 0
    ensures plan == PlanFor(l.buf.Length, l.items, slot, dataSize, extend, tried)
  {
    hide DataLength, SpaceUsed, Rep;
    var n, cap := l.nritems, l.buf.Length;
    var mid := (n + 1) / 2;
    var used;
    if mid <= slot {
      used := l.SpaceUsedBy(mid, n - mid);
      assert l.items[mid..n] == l.items[mid..];
      if n != 1 && used + dataSize <= cap {
        return Split(mid);
      }
      if slot >= n {
        return NewLeaf(true);
      }
    } else {
      used := l.SpaceUsedBy(0, mid);
      assert l.items[0..mid] == l.items[..mid];
      if used + dataSize <= cap {
        return Split(mid);
      }
      if slot == 0 {
        return if !extend && dataSize != 0 then NewLeaf(false) else Split(1);
      }
    }
    used := l.SpaceUsedBy(slot, n - slot);
    assert l.items[slot..n] == l.items[slot..];
    plan := if used + dataSize <= cap then Split(slot)
            else if dataSize != 0 && !tried then AvoidDouble else DoubleSplit(slot);
  }

  /** Where the path is and what the two leaves hold once the plan has been carried out. */
  ghost predicate CarriedOut(plan: Plan, was: seq<Item>, slot: nat, l: seq<Item>, right: seq<Item>, onRight: bool,
                             slot0: nat) {
    match plan
    case NewLeaf(_) => l == was && right == [] && onRight && slot0 == 0
    case AvoidDouble => l == was && right == [] && !onRight && slot0 == slot
    case _ =>
      && 0 < plan.mid < |was| && l == was[..plan.mid] && right == was[plan.mid..]
      && onRight == (plan.mid <= slot) && slot0 == if onRight then slot - plan.mid else slot
  }

  /** One pass of split_leaf from label `again` on, with an empty leaf at hand: the plan is the one for the items, it is
      carried out on the bytes, and unless a second pass follows the path's leaf has the room asked for. */
  method SplitPass(l: Leaf, right: Leaf, slot: nat, dataSize: nat, extend: bool, tried: bool)
    returns (plan: Plan, onRight: bool, slot0: nat)
    requires Pair(l, right) && right.nritems == 0 && slot <= l.nritems && l.nritems > 0
    requires Free(l.buf.Length, l.items) < dataSize && (extend ==> Extendable(l.buf.Length, l.items, slot, dataSize))
    modifies l`nritems, l`items, right, right.buf
    ensures Pair(l, right) && plan == PlanFor(l.buf.Length, old(l.items), slot, dataSize, extend, tried)
    ensures CarriedOut(plan, old(l.items), slot, l.items, right.items, onRight, slot0)
    ensures plan.Split? || (plan.NewLeaf? && dataSize <= l.buf.Length) ==>
              Free(l.buf.Length, if onRight then right.items else l.items) >= dataSize
    ensures plan.DoubleSplit? ==> tried && onRight && slot0 == 0 && right.items != []
  {
    hide DataLength, SpaceUsed, Rep, PlanFor;
    ghost var cap := l.buf.Length;
    LeafFits(l);
    plan := ChoosePlan(l, slot, dataSize, extend, tried);
    PlanSafe(cap, l.items, slot, dataSize, extend, tried);
    onRight, slot0 := false, slot;
    if plan.NewLeaf? {
      NoSpace([]);
      onRight, slot0 := true, 0;
    } else if !plan.AvoidDouble? {
      if plan.Split? {
        PlanRoom(cap, l.items, slot, dataSize, extend, tried);
      }
      CopyForSplit(l, right, plan.mid);
      if plan.mid <= slot {
        onRight, slot0 := true, slot - plan.mid;
      }
    }
  }

  lemma {:induction false} LeafFits(l: Leaf)
    requires l.Valid()
    ensures SpaceUsed(l.items) <= l.buf.Length
  {
    RepRoom(l.buf[..], l.items);
  }
}
