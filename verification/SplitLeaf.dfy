/** Making room in a leaf: push_leaf_right, push_leaf_left, push_for_double_split and split_leaf, over the
    leaves below one level-1 node and a path into them. */
module SplitLeaf {
  import opened Basics
  import opened Sequences
  import opened LeafFormat
  import opened LeafEdit

  // ---------- how much to push ----------

  function Free(cap: nat, items: seq<Item>): int { cap - SpaceUsed(items) }

  /** What pushing the last p items takes, with dataSize if the path's slot goes along. */
  function RightSpace(left: seq<Item>, slot: nat, dataSize: nat, p: nat): int
    requires p <= |left|
  {
    SpaceUsed(left[|left| - p..]) + if slot >= |left| - p then dataSize else 0
  }

  /** How far pushing right goes at most: with `empty` all items, without it never item 0, and none below minSlot. */
  function LowestRight(minSlot: nat, empty: bool): nat { if empty then 0 else if minSlot > 1 then minSlot else 1 }

  /** Pushing right stops after p items: there is no further one to push, or the next one does not fit, or, unless the
      leaf may be emptied, the path's slot would be passed, or would come along at the price of less balance. */
  predicate StopsRight(cap: nat, left: seq<Item>, slot: nat, dataSize: nat, freeSpace: int, minSlot: nat, empty: bool,
                       p: nat)
    requires p <= |left|
  {
    if |left| <= p + LowestRight(minSlot, empty) then true
    else
      var i, space := |left| - 1 - p, RightSpace(left, slot, dataSize, p);
      || (!empty && p > 0 && (slot > i || (slot == i && Free(cap, left) + space * 2 > freeSpace)))
      || |left[i].data| + 25 + space + (if slot == i then dataSize else 0) > freeSpace
  }

  /** How many items are pushed right: the least number from p on at which that is so. */
  function RightCount(cap: nat, left: seq<Item>, slot: nat, dataSize: nat, freeSpace: int, minSlot: nat, empty: bool,
                      p: nat): nat
    requires p <= |left|
    decreases |left| - p
  {
    if StopsRight(cap, left, slot, dataSize, freeSpace, minSlot, empty, p) then p
    else RightCount(cap, left, slot, dataSize, freeSpace, minSlot, empty, p + 1)
  }

  /** The loop of __push_leaf_right that counts the items to push: as many as can be, and what it picks fits. */
  method CountRight(cap: nat, left: seq<Item>, slot: nat, dataSize: nat, freeSpace: int, minSlot: nat, empty: bool)
    returns (pushItems: nat)
    requires left != []
    ensures pushItems == RightCount(cap, left, slot, dataSize, freeSpace, minSlot, empty, 0)
    ensures pushItems == 0 || pushItems + LowestRight(minSlot, empty) <= |left|
    ensures pushItems <= |left| && (pushItems > 0 ==> RightSpace(left, slot, dataSize, pushItems) <= freeSpace)
  {
    hide RightSpace, RightCount, StopsRight;
    var n := |left|;
    var nr := LowestRight(minSlot, empty);
    var pushSpace := if slot >= n then dataSize else 0;
    pushItems := 0;
    var i := n - 1;
    NoneRight(left, slot, dataSize);
    while i >= nr
      invariant i == n - 1 - pushItems >= -1
      invariant pushItems == 0 || pushItems + nr <= n
      invariant pushSpace == RightSpace(left, slot, dataSize, pushItems)
      invariant pushItems > 0 ==> pushSpace <= freeSpace
      invariant RightCount(cap, left, slot, dataSize, freeSpace, minSlot, empty, pushItems)
             == RightCount(cap, left, slot, dataSize, freeSpace, minSlot, empty, 0)
      decreases i
    {
      RightStep(cap, left, slot, dataSize, freeSpace, minSlot, empty, pushItems);
      if !empty && pushItems > 0 {
        if slot > i {
          return;
        }
        if slot == i && Free(cap, left) + pushSpace * 2 > freeSpace {
          return;
        }
      }
      var withData := if slot == i then pushSpace + dataSize else pushSpace;
      if |left[i].data| + 25 + withData > freeSpace {
        return;
      }
      pushItems := pushItems + 1;
      pushSpace := withData + |left[i].data| + 25;
      i := i - 1;
    }
    RightEnds(cap, left, slot, dataSize, freeSpace, minSlot, empty, pushItems);
  }

  lemma {:induction false} NoneRight(left: seq<Item>, slot: nat, dataSize: nat)
    ensures RightSpace(left, slot, dataSize, 0) == if slot >= |left| then dataSize else 0
  {
    NoSpace(left);
  }

  /** One item more, or the reason why not. */
  lemma {:induction false} RightStep(cap: nat, left: seq<Item>, slot: nat, dataSize: nat, freeSpace: int, minSlot: nat,
                                     empty: bool, p: nat)
    requires p + LowestRight(minSlot, empty) < |left|
    ensures var i, space := |left| - 1 - p, RightSpace(left, slot, dataSize, p);
            var withData := if slot == i then space + dataSize else space;
            && RightSpace(left, slot, dataSize, p + 1) == withData + |left[i].data| + 25
            && RightCount(cap, left, slot, dataSize, freeSpace, minSlot, empty, p)
               == if (!empty && p > 0 && (slot > i || (slot == i && Free(cap, left) + space * 2 > freeSpace)))
                     || |left[i].data| + 25 + withData > freeSpace
                  then p
                  else RightCount(cap, left, slot, dataSize, freeSpace, minSlot, empty, p + 1)
  {
    hide SpaceUsed;
    SpaceFrom(left, |left| - 1 - p);
  }

  lemma {:induction false} RightEnds(cap: nat, left: seq<Item>, slot: nat, dataSize: nat, freeSpace: int, minSlot: nat,
                                     empty: bool, p: nat)
    requires |left| <= p + LowestRight(minSlot, empty) && p <= |left|
    ensures RightCount(cap, left, slot, dataSize, freeSpace, minSlot, empty, p) == p
  {
  }

  function LeftSpace(right: seq<Item>, slot: nat, dataSize: nat, p: nat): int
    requires p <= |right|
  {
    SpaceUsed(right[..p]) + if slot < p then dataSize else 0
  }

  /** How far pushing left goes at most: none at or above maxSlot, and the last item only with `empty`. */
  function HighestLeft(n: nat, maxSlot: nat, empty: bool): nat {
    var all := if empty || n == 0 then n else n - 1;
    if all < maxSlot then all else maxSlot
  }

  /** Pushing left stops after p items. */
  predicate StopsLeft(cap: nat, right: seq<Item>, slot: nat, dataSize: nat, freeSpace: int, maxSlot: nat, empty: bool,
                      p: nat)
    requires p <= |right|
  {
    if p >= HighestLeft(|right|, maxSlot, empty) then true
    else
      var space := LeftSpace(right, slot, dataSize, p);
      || (!empty && p > 0 && (slot < p || (slot == p && Free(cap, right) + space * 2 > freeSpace)))
      || |right[p].data| + 25 + space + (if slot == p then dataSize else 0) > freeSpace
  }

  function LeftCount(cap: nat, right: seq<Item>, slot: nat, dataSize: nat, freeSpace: int, maxSlot: nat, empty: bool,
                     p: nat): nat
    requires p <= |right|
    decreases |right| - p
  {
    if StopsLeft(cap, right, slot, dataSize, freeSpace, maxSlot, empty, p) then p
    else LeftCount(cap, right, slot, dataSize, freeSpace, maxSlot, empty, p + 1)
  }

  /** The loop of __push_leaf_left that counts the items to push. */
  method CountLeft(cap: nat, right: seq<Item>, slot: nat, dataSize: nat, freeSpace: int, maxSlot: nat, empty: bool)
    returns (pushItems: nat)
    requires right != []
    ensures pushItems == LeftCount(cap, right, slot, dataSize, freeSpace, maxSlot, empty, 0)
    ensures pushItems <= HighestLeft(|right|, maxSlot, empty)
    ensures pushItems <= |right| && (pushItems > 0 ==> LeftSpace(right, slot, dataSize, pushItems) <= freeSpace)
  {
    hide LeftSpace, LeftCount, StopsLeft;
    var nr := HighestLeft(|right|, maxSlot, empty);
    var pushSpace := 0;
    pushItems := 0;
    NoneLeft(right, slot, dataSize);
    var i := 0;
    while i < nr
      invariant i == pushItems <= nr
      invariant pushSpace == LeftSpace(right, slot, dataSize, pushItems)
      invariant pushItems > 0 ==> pushSpace <= freeSpace
      invariant LeftCount(cap, right, slot, dataSize, freeSpace, maxSlot, empty, pushItems)
             == LeftCount(cap, right, slot, dataSize, freeSpace, maxSlot, empty, 0)
    {
      LeftStep(cap, right, slot, dataSize, freeSpace, maxSlot, empty, pushItems);
      if !empty && pushItems > 0 {
        if slot < i {
          return;
        }
        if slot == i && Free(cap, right) + pushSpace * 2 > freeSpace {
          return;
        }
      }
      var withData := if slot == i then pushSpace + dataSize else pushSpace;
      if |right[i].data| + 25 + withData > freeSpace {
        return;
      }
      pushItems := pushItems + 1;
      pushSpace := withData + |right[i].data| + 25;
      i := i + 1;
    }
    LeftEnds(cap, right, slot, dataSize, freeSpace, maxSlot, empty, pushItems);
  }

  lemma {:induction false} NoneLeft(right: seq<Item>, slot: nat, dataSize: nat)
    ensures LeftSpace(right, slot, dataSize, 0) == 0
  {
    NoSpace(right);
  }

  lemma {:induction false} LeftStep(cap: nat, right: seq<Item>, slot: nat, dataSize: nat, freeSpace: int, maxSlot: nat,
                                    empty: bool, p: nat)
    requires p < HighestLeft(|right|, maxSlot, empty)
    ensures p < |right|
    ensures var space := LeftSpace(right, slot, dataSize, p);
            var withData := if slot == p then space + dataSize else space;
            && LeftSpace(right, slot, dataSize, p + 1) == withData + |right[p].data| + 25
            && LeftCount(cap, right, slot, dataSize, freeSpace, maxSlot, empty, p)
               == if (!empty && p > 0 && (slot < p || (slot == p && Free(cap, right) + space * 2 > freeSpace)))
                     || |right[p].data| + 25 + withData > freeSpace
                  then p
                  else LeftCount(cap, right, slot, dataSize, freeSpace, maxSlot, empty, p + 1)
  {
    hide SpaceUsed;
    SpaceTo(right, p);
  }

  lemma {:induction false} LeftEnds(cap: nat, right: seq<Item>, slot: nat, dataSize: nat, freeSpace: int, maxSlot: nat,
                                    empty: bool, p: nat)
    requires HighestLeft(|right|, maxSlot, empty) <= p <= |right|
    ensures LeftCount(cap, right, slot, dataSize, freeSpace, maxSlot, empty, p) == p
  {
  }

  lemma {:induction false} NoSpace(items: seq<Item>)
    ensures SpaceUsed(items[|items|..]) == 0 && SpaceUsed(items[..0]) == 0
  {
    NoLength();
  }

  lemma {:induction false} SpaceFrom(items: seq<Item>, i: nat)
    requires i < |items|
    ensures SpaceUsed(items[i..]) == 25 + |items[i].data| + SpaceUsed(items[i + 1..])
  {
    assert items[i..][1..] == items[i + 1..];
  }

  lemma {:induction false} SpaceTo(items: seq<Item>, i: nat)
    requires i < |items|
    ensures SpaceUsed(items[..i + 1]) == SpaceUsed(items[..i]) + 25 + |items[i].data|
  {
    LengthLast(items[..i + 1]);
    assert items[..i + 1][..i] == items[..i];
  }

  lemma {:induction false} SpaceSplit(items: seq<Item>, i: nat)
    requires i <= |items|
    ensures SpaceUsed(items) == SpaceUsed(items[..i]) + SpaceUsed(items[i..])
  {
    assert items == items[..i] + items[i..];
    LengthConcat(items[..i], items[i..]);
  }

  // ---------- the level ----------

  /** The leaves below path->nodes[1], and the path: slots[1] and slots[0]. */
  datatype Place = Place(leaves: seq<seq<Item>>, slot1: nat, slot0: nat)

  /** How many items push_leaf_right moves: none without a right neighbour, with too little room there or from an
      empty leaf. */
  function RightMoves(cap: nat, hasParent: bool, w: Place, minDataSize: nat, dataSize: nat, empty: bool,
                      minSlot: nat): nat
    requires w.slot1 < |w.leaves|
  {
    if !hasParent || w.slot1 + 1 >= |w.leaves| || w.leaves[w.slot1] == [] || Free(cap, w.leaves[w.slot1 + 1]) < dataSize
        then 0
    else RightCount(cap, w.leaves[w.slot1], w.slot0, minDataSize, Free(cap, w.leaves[w.slot1 + 1]), minSlot, empty, 0)
  }

  function LeftMoves(cap: nat, hasParent: bool, w: Place, minDataSize: nat, dataSize: nat, empty: bool,
                     maxSlot: nat): nat
    requires w.slot1 < |w.leaves|
  {
    if !hasParent || w.slot1 == 0 || w.leaves[w.slot1] == [] || Free(cap, w.leaves[w.slot1 - 1]) < dataSize then 0
    else LeftCount(cap, w.leaves[w.slot1], w.slot0, minDataSize, Free(cap, w.leaves[w.slot1 - 1]), maxSlot, empty, 0)
  }

  /** The last k items of the path's leaf put before the next leaf's, and the path gone along if its slot is among
      them. */
  ghost function GoneRight(w: Place, k: nat): Place
    requires w.slot1 < |w.leaves|
  {
    var left := w.leaves[w.slot1];
    if 0 < k <= |left| && w.slot1 + 1 < |w.leaves| then
      var keep := |left| - k;
      var leaves := w.leaves[w.slot1 := left[..keep]][w.slot1 + 1 := left[keep..] + w.leaves[w.slot1 + 1]];
      if w.slot0 >= keep then Place(leaves, w.slot1 + 1, w.slot0 - keep) else Place(leaves, w.slot1, w.slot0)
    else w
  }

  ghost function GoneLeft(w: Place, k: nat): Place
    requires w.slot1 < |w.leaves|
  {
    var right := w.leaves[w.slot1];
    if 0 < k <= |right| && w.slot1 > 0 then
      var left := w.leaves[w.slot1 - 1];
      var leaves := w.leaves[w.slot1 - 1 := left + right[..k]][w.slot1 := right[k..]];
      if w.slot0 < k then Place(leaves, w.slot1 - 1, |left| + w.slot0) else Place(leaves, w.slot1, w.slot0 - k)
    else w
  }

  /** The path's place among all items. */
  ghost function PlaceOf(w: Place): nat
    requires w.slot1 < |w.leaves|
  {
    |Flatten(w.leaves[..w.slot1])| + w.slot0
  }

  /** All items stay in order, the path stays at its place, and at its item. */
  ghost predicate SamePlace(w: Place, u: Place)
    requires w.slot1 < |w.leaves|
  {
    && |u.leaves| == |w.leaves| && u.slot1 < |u.leaves| && u.slot0 <= |u.leaves[u.slot1]|
    && Flatten(u.leaves) == Flatten(w.leaves) && PlaceOf(u) == PlaceOf(w)
    && (w.slot0 < |w.leaves[w.slot1]| ==>
          u.slot0 < |u.leaves[u.slot1]| && u.leaves[u.slot1][u.slot0] == w.leaves[w.slot1][w.slot0])
  }

  lemma {:induction false} Stays(w: Place)
    requires w.slot1 < |w.leaves| && w.slot0 <= |w.leaves[w.slot1]|
    ensures SamePlace(w, w)
  {
  }

  lemma {:induction false} GoneRightKeeps(w: Place, k: nat)
    requires w.slot1 < |w.leaves| && w.slot0 <= |w.leaves[w.slot1]|
    ensures SamePlace(w, GoneRight(w, k))
  {
    hide Flatten;
    var left, u := w.leaves[w.slot1], GoneRight(w, k);
    if 0 < k <= |left| && w.slot1 + 1 < |w.leaves| {
      assert left == left[..|left| - k] + left[|left| - k..];
      BorderMoved(w.leaves, u.leaves, w.slot1);
    }
  }

  lemma {:induction false} GoneLeftKeeps(w: Place, k: nat)
    requires w.slot1 < |w.leaves| && w.slot0 <= |w.leaves[w.slot1]|
    ensures SamePlace(w, GoneLeft(w, k))
  {
    hide Flatten;
    var right, u := w.leaves[w.slot1], GoneLeft(w, k);
    if 0 < k <= |right| && w.slot1 > 0 {
      assert right == right[..k] + right[k..];
      BorderMoved(w.leaves, u.leaves, w.slot1 - 1);
    }
  }

  /** What push_for_double_split does. */
  ghost function PushedForDouble(cap: nat, hasParent: bool, w: Place, dataSize: nat): Place
    requires w.slot1 < |w.leaves|
  {
    var u := GoneRight(w, RightMoves(cap, hasParent, w, 1, dataSize, false, w.slot0));
    var l := u.leaves[u.slot1];
    if u.slot0 == 0 || u.slot0 == |l| || Free(cap, l) >= dataSize then u
    else GoneLeft(u, LeftMoves(cap, hasParent, u, 1, dataSize, false, u.slot0))
  }

  /** The pushes split_leaf begins with: to the right, or else to the left. */
  ghost function PushedFirst(cap: nat, hasParent: bool, w: Place, dataSize: nat): Place
    requires w.slot1 < |w.leaves|
  {
    var k := RightMoves(cap, hasParent, w, dataSize, dataSize, false, 0);
    if k > 0 then GoneRight(w, k) else GoneLeft(w, LeftMoves(cap, hasParent, w, dataSize, dataSize, false, 0xFFFF_FFFF))
  }

  /** The path's leaf cut in two at mid, with the path on the side of its slot. */
  function CutAt(w: Place, mid: nat): Place
    requires w.slot1 < |w.leaves| && mid <= |w.leaves[w.slot1]|
  {
    var l := w.leaves[w.slot1];
    var leaves := w.leaves[..w.slot1] + [l[..mid], l[mid..]] + w.leaves[w.slot1 + 1..];
    if mid <= w.slot0 then Place(leaves, w.slot1 + 1, w.slot0 - mid) else Place(leaves, w.slot1, w.slot0)
  }

  /** An empty leaf next to the path's, and the path in it. */
  function EmptyAt(w: Place, after: bool): Place
    requires w.slot1 < |w.leaves|
  {
    var at := if after then w.slot1 + 1 else w.slot1;
    Place(w.leaves[..at] + [[]] + w.leaves[at..], at, 0)
  }

  /** What split_leaf does from label `again` on, below a node: `tried` and `doubled` say that push_for_double_split
      has been called and a double split begun. */
  ghost function SplitFrom(cap: nat, w: Place, dataSize: nat, extend: bool, tried: bool, doubled: bool): Place
    requires w.slot1 < |w.leaves| && w.slot0 <= |w.leaves[w.slot1]|
    decreases !tried, !doubled
  {
    var l := w.leaves[w.slot1];
    if l == [] then w
    else
      match PlanFor(cap, l, w.slot0, dataSize, extend, tried)
      case NewLeaf(after) => EmptyAt(w, after)
      case Split(mid) => CutAt(w, mid)
      case DoubleSplit(mid) =>
        if doubled then w else SplitFrom(cap, CutAt(w, mid), dataSize, extend, tried, true)
      case AvoidDouble =>
        var u := PushedForDouble(cap, true, w, dataSize);
        if u.slot1 >= |u.leaves| || u.slot0 > |u.leaves[u.slot1]| || Free(cap, u.leaves[u.slot1]) >= dataSize then u
        else SplitFrom(cap, u, dataSize, extend, true, doubled)
  }

  /** What split_leaf does: nothing but push if that gives the room. */
  ghost function SplitOf(cap: nat, hasParent: bool, w: Place, dataSize: nat, extend: bool): Place
    requires w.slot1 < |w.leaves| && w.slot0 <= |w.leaves[w.slot1]|
  {
    var u := PushedFirst(cap, hasParent, w, dataSize);
    if u.slot1 >= |u.leaves| || u.slot0 > |u.leaves[u.slot1]| || Free(cap, u.leaves[u.slot1]) >= dataSize then u
    else SplitFrom(cap, u, dataSize, extend, false, false)
  }

  ghost predicate Stuck(cap: nat, hasParent: bool, w: Place, dataSize: nat)
    requires w.slot1 < |w.leaves|
  {
    var u := PushedFirst(cap, hasParent, w, dataSize); u.slot1 < |u.leaves| && Free(cap, u.leaves[u.slot1]) < dataSize
  }

  /** Pushing changes neither how many leaves there are nor where in the items the path is. */
  lemma {:induction false} PushesKeep(cap: nat, hasParent: bool, w: Place, dataSize: nat)
    requires w.slot1 < |w.leaves| && w.slot0 <= |w.leaves[w.slot1]|
    ensures SamePlace(w, PushedFirst(cap, hasParent, w, dataSize))
    ensures SamePlace(w, PushedForDouble(cap, hasParent, w, dataSize))
  {
    hide Flatten, RightCount, LeftCount, SpaceUsed;
    Stays(w);
    GoneRightKeeps(w, RightMoves(cap, hasParent, w, dataSize, dataSize, false, 0));
    GoneLeftKeeps(w, LeftMoves(cap, hasParent, w, dataSize, dataSize, false, 0xFFFF_FFFF));
    var k := RightMoves(cap, hasParent, w, 1, dataSize, false, w.slot0);
    GoneRightKeeps(w, k);
    var u := GoneRight(w, k);
    GoneLeftKeeps(u, LeftMoves(cap, hasParent, u, 1, dataSize, false, u.slot0));
  }

  /** split_leaf adds a leaf if and only if neither the pushes it begins with nor, where a double split is in sight,
      those of push_for_double_split give the path's leaf the room. */
  lemma {:induction false} AddsOnlyIfStuck(cap: nat, hasParent: bool, w: Place, dataSize: nat, extend: bool)
    requires w.slot1 < |w.leaves| && w.slot0 <= |w.leaves[w.slot1]|
    ensures var u := PushedFirst(cap, hasParent, w, dataSize);
            && u.slot1 < |u.leaves| && u.slot0 <= |u.leaves[u.slot1]|
            && var l, d := u.leaves[u.slot1], PushedForDouble(cap, true, u, dataSize);
               && d.slot1 < |d.leaves|
               && (|SplitOf(cap, hasParent, w, dataSize, extend).leaves| == |w.leaves| <==>
                     || Free(cap, l) >= dataSize || l == []
                     || (PlanFor(cap, l, u.slot0, dataSize, extend, false).AvoidDouble?
                         && (Free(cap, d.leaves[d.slot1]) >= dataSize || d.leaves[d.slot1] == [])))
  {
    hide Flatten, SpaceUsed, PushedForDouble, PushedFirst, SamePlace, PlanFor;
    PushesKeep(cap, hasParent, w, dataSize);
    var u := PushedFirst(cap, hasParent, w, dataSize);
    SameLeaves(w, u);
    PushesKeep(cap, true, u, dataSize);
    var d := PushedForDouble(cap, true, u, dataSize);
    SameLeaves(u, d);
    if Free(cap, u.leaves[u.slot1]) < dataSize {
      MoreLeaves(cap, u, dataSize, extend, false, false);
      if Free(cap, d.leaves[d.slot1]) < dataSize {
        MoreLeaves(cap, d, dataSize, extend, true, false);
      }
    }
  }

  /** One pass. */
  lemma {:induction false} SplitStep(cap: nat, w: Place, dataSize: nat, extend: bool, tried: bool, doubled: bool)
    requires w.slot1 < |w.leaves| && w.slot0 <= |w.leaves[w.slot1]| && w.leaves[w.slot1] != []
    ensures var r, l := SplitFrom(cap, w, dataSize, extend, tried, doubled), w.leaves[w.slot1];
            match PlanFor(cap, l, w.slot0, dataSize, extend, tried)
            case NewLeaf(after) => r == EmptyAt(w, after)
            case Split(mid) => mid <= |l| && r == CutAt(w, mid)
            case DoubleSplit(mid) =>
              mid == w.slot0 < |l|
              && (!doubled ==> r == SplitFrom(cap, CutAt(w, mid), dataSize, extend, tried, true))
            case AvoidDouble =>
              var u := PushedForDouble(cap, true, w, dataSize);
              && u.slot1 < |u.leaves| && u.slot0 <= |u.leaves[u.slot1]|
              && r == if Free(cap, u.leaves[u.slot1]) >= dataSize then u
                      else SplitFrom(cap, u, dataSize, extend, true, doubled)
  {
    hide SpaceUsed, Flatten, PushedForDouble, SamePlace;
    PushesKeep(cap, true, w, dataSize);
    SameLeaves(w, PushedForDouble(cap, true, w, dataSize));
  }

  lemma {:induction false} SameLeaves(w: Place, u: Place)
    requires w.slot1 < |w.leaves| && SamePlace(w, u)
    ensures |u.leaves| == |w.leaves| && u.slot1 < |u.leaves| && u.slot0 <= |u.leaves[u.slot1]|
  {
  }

  /** Past push_for_double_split every plan adds a leaf. */
  lemma {:induction false} MoreLeaves(cap: nat, w: Place, dataSize: nat, extend: bool, tried: bool, doubled: bool)
    requires w.slot1 < |w.leaves| && w.slot0 <= |w.leaves[w.slot1]|
    ensures |SplitFrom(cap, w, dataSize, extend, tried, doubled).leaves| >= |w.leaves|
    ensures w.leaves[w.slot1] != [] && !doubled
            && (tried || !PlanFor(cap, w.leaves[w.slot1], w.slot0, dataSize, extend, tried).AvoidDouble?) ==>
              |SplitFrom(cap, w, dataSize, extend, tried, doubled).leaves| > |w.leaves|
    decreases !tried, !doubled
  {
    hide Flatten, SpaceUsed, PushedForDouble, SamePlace;
    var l := w.leaves[w.slot1];
    if l != [] {
      match PlanFor(cap, l, w.slot0, dataSize, extend, tried)
      case DoubleSplit(mid) =>
        if !doubled {
          MoreLeaves(cap, CutAt(w, mid), dataSize, extend, tried, true);
        }
      case AvoidDouble =>
        PushesKeep(cap, true, w, dataSize);
        var u := PushedForDouble(cap, true, w, dataSize);
        SameLeaves(w, u);
        MoreLeaves(cap, u, dataSize, extend, true, doubled);
      case _ =>
    }
  }

  /** The slot is inside a leaf without room, and neither side takes anything. */
  ghost predicate DoubleStuck(cap: nat, hasParent: bool, w: Place, dataSize: nat)
    requires w.slot1 < |w.leaves|
  {
    && w.slot0 != 0 && w.slot0 != |w.leaves[w.slot1]| && Free(cap, w.leaves[w.slot1]) < dataSize
    && RightMoves(cap, hasParent, w, 1, dataSize, false, w.slot0) == 0
    && LeftMoves(cap, hasParent, w, 1, dataSize, false, w.slot0) == 0
  }

  /** The pushes of btrfs_del_items: a leaf less than a third full gives to the left, and if it is still on the path
      and has something left, to the right. */
  ghost function Settled(cap: nat, hasParent: bool, w: Place): Place
    requires w.slot1 < |w.leaves|
  {
    var l := w.leaves[w.slot1];
    if l == [] || SpaceUsed(l) >= cap / 3 then w
    else
      var u := GoneLeft(w, LeftMoves(cap, hasParent, w, 1, 1, true, 0xFFFF_FFFF));
      if u.slot1 == w.slot1 && u.leaves[u.slot1] != [] then GoneRight(u, RightMoves(cap, hasParent, u, 1, 1, true, 0))
          else u
  }

  /** One leaf of a level: it fits, and unless it is empty the node's key is its first key. */
  predicate LeafOk(cap: nat, l: seq<Item>, key: Key, mayBeEmpty: bool, hasParent: bool) {
    && SpaceUsed(l) <= cap
    && (l == [] ==> mayBeEmpty)
    && (hasParent && l != [] ==> key == l[0].key)
  }

  /** All leaves, with leaf `but` perhaps empty. */
  ghost predicate LeavesOk(cap: nat, v: seq<seq<Item>>, ks: seq<Key>, but: int, hasParent: bool) {
    |ks| == |v| && forall i | 0 <= i < |v| :: LeafOk(cap, v[i], ks[i], i == but, hasParent)
  }

  lemma {:induction false} LeafOf(cap: nat, v: seq<seq<Item>>, ks: seq<Key>, but: int, hasParent: bool, i: nat)
    requires LeavesOk(cap, v, ks, but, hasParent) && i < |v|
    ensures |ks| == |v| && SpaceUsed(v[i]) <= cap && (i != but ==> v[i] != [])
            && (hasParent && v[i] != [] ==> ks[i] == v[i][0].key)
  {
  }

  /** A leaf replaced, under its key or another; no other leaf was empty. */
  lemma {:induction false} LeafReplaced(cap: nat, v: seq<seq<Item>>, ks: seq<Key>, i: nat, l: seq<Item>, key: Key,
                                        but: int, but': int,
                                        hasParent: bool)
    requires LeavesOk(cap, v, ks, but, hasParent) && i < |v| && LeafOk(cap, l, key, i == but', hasParent)
    requires but == but' || but == i || !(0 <= but < |v|) || v[but] != []
    ensures LeavesOk(cap, v[i := l], ks[i := key], but', hasParent)
  {
    hide SpaceUsed;
  }

  /** Leaves i to j - 1 replaced by others. */
  lemma {:induction false} LeavesReplaced(cap: nat, v: seq<seq<Item>>, ks: seq<Key>, i: nat, j: nat,
                                          mid: seq<seq<Item>>, js: seq<Key>,
                                          but: int, but': int, hasParent: bool)
    requires LeavesOk(cap, v, ks, but, hasParent) && i <= j <= |v| && |mid| == |js|
    requires forall k | 0 <= k < |mid| :: LeafOk(cap, mid[k], js[k], i + k == but', hasParent)
    requires i <= but < j || !(0 <= but < |v|) || v[but] != []
    ensures |ks| == |v|
    ensures LeavesOk(cap, v[..i] + mid + v[j..], ks[..i] + js + ks[j..], but', hasParent)
  {
    hide SpaceUsed, LeafOk;
    var w, qs := v[..i] + mid + v[j..], ks[..i] + js + ks[j..];
    forall k | 0 <= k < |w|
      ensures LeafOk(cap, w[k], qs[k], k == but', hasParent)
    {
      if i <= k < i + |mid| {
        assert w[k] == mid[k - i] && qs[k] == js[k - i];
      } else {
        var k' := if k < i then k else k - i - |mid| + j;
        assert w[k] == v[k'] && qs[k] == ks[k'] && LeafOk(cap, v[k'], ks[k'], k' == but, hasParent);
        NotEmpty(cap, v[k'], ks[k'], k' == but, k == but', hasParent);
      }
    }
  }

  lemma {:induction false} NotEmpty(cap: nat, l: seq<Item>, key: Key, mayBe: bool, mayBe': bool, hasParent: bool)
    requires LeafOk(cap, l, key, mayBe, hasParent) && (mayBe ==> l != [])
    ensures LeafOk(cap, l, key, mayBe', hasParent)
  {
  }

  /** The leaves below path->nodes[1] (as item lists: LeafPush moves the bytes), their keys in that node,
      and the path: slots[1] and slots[0]. */
  class LeafLevel {
    const cap: nat
    const maxPtrs: nat
    var hasParent: bool
    var leaves: seq<seq<Item>>
    var keys: seq<Key>
    var slot1: nat
    var slot0: nat

    /** The path's place among all items of the level. */
    ghost function Cursor(): nat
      requires slot1 < |leaves|
      reads this
    {
      PlaceOf(Here())
    }

    ghost function Here(): Place
      reads this
    {
      Place(leaves, slot1, slot0)
    }

    /** The level, with leaf `but` perhaps empty. */
    ghost predicate LevelOk(but: int)
      reads this
    {
      (!hasParent ==> |leaves| == 1) && LeavesOk(cap, leaves, keys, but, hasParent)
    }

    ghost predicate OnPath()
      reads this
    {
      slot1 < |leaves| && slot0 <= |leaves[slot1]|
    }

    /** Only the path's leaf may be empty. */
    ghost predicate Valid()
      reads this
    {
      OnPath() && LevelOk(slot1)
    }

    /** What pushing items around keeps: all items in order, the path's place and the item there, the number of
        leaves. */
    twostate predicate Kept()
      requires slot1 < |leaves| && old(slot1 < |leaves|)
      reads this
    {
      hasParent == old(hasParent) && SamePlace(old(Here()), Here())
    }

    /** push_leaf_right.  Without `empty` no leaf is emptied; with it the path's may be, and the path has gone
        right. */
    method PushLeafRight(minDataSize: nat, dataSize: nat, empty: bool, minSlot: nat) returns (ret: int)
      requires Valid()
      modifies `leaves, `keys, `slot1, `slot0
      ensures OnPath() && Kept() && LevelOk(old(slot1)) && (!empty ==> Valid())
      ensures !empty && old(leaves[slot1]) != [] ==> leaves[slot1] != []
      ensures var k := RightMoves(cap, hasParent, old(Here()), minDataSize, dataSize, empty, minSlot);
              ret == (if k > 0 then 0 else 1) && Here() == GoneRight(old(Here()), k)
      ensures ret == 0 ==> leaves[old(slot1)] < old(leaves)[old(slot1)]
      ensures ret == 0 && slot1 == old(slot1) + 1 ==> Free(cap, leaves[slot1]) >= minDataSize
    {
      hide DataLength, SpaceUsed, Flatten, RightCount, LeavesOk, SamePlace, PlaceOf, GoneRight;
      NoMoves(Here());
      Stays(Here());
      if slot1 + 1 < |leaves| {
        LeafOf(cap, leaves, keys, slot1, hasParent, slot1 + 1);
      }
      LeafOf(cap, leaves, keys, slot1, hasParent, slot1);
      if !hasParent || slot1 >= |leaves| - 1 {
        return 1;
      }
      var left, right := leaves[slot1], leaves[slot1 + 1];
      var freeSpace := Free(cap, right);
      if freeSpace < dataSize || left == [] {
        return 1;
      }
      var k := CountRight(cap, left, slot0, minDataSize, freeSpace, minSlot, empty);
      if k == 0 {
        return 1;
      }
      MoveRight(k);
      ret := 0;
    }

    /** The second half of __push_leaf_right: k items go right, and the path with its own. */
    method MoveRight(k: nat)
      requires Valid() && hasParent && slot1 + 1 < |leaves| && 0 < k <= |leaves[slot1]|
      requires SpaceUsed(leaves[slot1][|leaves[slot1]| - k..]) <= Free(cap, leaves[slot1 + 1])
      modifies `leaves, `keys, `slot1, `slot0
      ensures OnPath() && Kept() && Here() == GoneRight(old(Here()), k)
      ensures LevelOk(old(slot1)) && (k < old(|leaves[slot1]|) ==> Valid() && leaves[slot1] != [])
      ensures leaves[old(slot1)] < old(leaves)[old(slot1)]
      ensures slot1 == old(slot1) + 1 <==> old(slot0) >= old(|leaves[slot1]|) - k
      ensures slot1 == old(slot1) + 1 ==>
                Free(cap, leaves[slot1])
                == old(Free(cap, leaves[slot1 + 1]) - SpaceUsed(leaves[slot1][|leaves[slot1]| - k..]))
    {
      hide DataLength, SpaceUsed, Flatten, LeavesOk, SamePlace, PlaceOf;
      GoneRightKeeps(Here(), k);
      var left, right := leaves[slot1], leaves[slot1 + 1];
      var keep := |left| - k;
      MovedRight(cap, leaves, keys, slot1, keep, if slot0 >= keep then slot1 + 1 else slot1, hasParent);
      assert left[..keep] < left;
      ghost var leaves' := leaves[slot1 := left[..keep]][slot1 + 1 := left[keep..] + right];
      assert leaves'[slot1] == left[..keep] && leaves'[slot1 + 1] == left[keep..] + right;
      leaves := leaves[slot1 := left[..keep]][slot1 + 1 := left[keep..] + right];
      keys := keys[slot1 + 1 := left[keep].key];
      if slot0 >= keep {
        slot0, slot1 := slot0 - keep, slot1 + 1;
      }
    }

    /** push_leaf_left.  With `empty` the path's leaf may be emptied, and its key in the node is what it was; the
        path has gone left with its item, or stays where there is none. */
    method PushLeafLeft(minDataSize: nat, dataSize: nat, empty: bool, maxSlot: nat) returns (ret: int)
      requires Valid()
      modifies `leaves, `keys, `slot1, `slot0
      ensures OnPath() && Kept() && LevelOk(old(slot1)) && (!empty ==> Valid())
      ensures !empty && old(leaves[slot1]) != [] ==> leaves[slot1] != []
      ensures var k := LeftMoves(cap, hasParent, old(Here()), minDataSize, dataSize, empty, maxSlot);
              ret == (if k > 0 then 0 else 1) && Here() == GoneLeft(old(Here()), k)
      ensures ret == 0 ==> old(slot1) > 0 && old(leaves)[old(slot1) - 1] < leaves[old(slot1) - 1]
      ensures ret == 0 && slot1 == old(slot1) - 1 ==> Free(cap, leaves[slot1]) >= minDataSize
    {
      hide DataLength, SpaceUsed, Flatten, LeftCount, LeavesOk, SamePlace, PlaceOf, GoneLeft;
      NoMoves(Here());
      Stays(Here());
      LeafOf(cap, leaves, keys, slot1, hasParent, slot1);
      if slot1 > 0 {
        LeafOf(cap, leaves, keys, slot1, hasParent, slot1 - 1);
      }
      if slot1 == 0 || !hasParent || leaves[slot1] == [] {
        return 1;
      }
      var left, right := leaves[slot1 - 1], leaves[slot1];
      var freeSpace := Free(cap, left);
      if freeSpace < dataSize {
        return 1;
      }
      var k := CountLeft(cap, right, slot0, minDataSize, freeSpace, maxSlot, empty);
      if k == 0 {
        return 1;
      }
      assert left != [];  // the BUG_ON
      MoveLeft(k);
      ret := 0;
    }

    /** The second half of __push_leaf_left. */
    method MoveLeft(k: nat)
      requires Valid() && hasParent && slot1 > 0 && 0 < k <= |leaves[slot1]|
      requires SpaceUsed(leaves[slot1][..k]) <= Free(cap, leaves[slot1 - 1])
      modifies `leaves, `keys, `slot1, `slot0
      ensures OnPath() && Kept() && Here() == GoneLeft(old(Here()), k)
      ensures LevelOk(old(slot1)) && (k < old(|leaves[slot1]|) ==> Valid() && leaves[slot1] != [])
      ensures old(leaves)[old(slot1) - 1] < leaves[old(slot1) - 1]
      ensures slot1 == old(slot1) - 1 <==> old(slot0) < k
      ensures slot1 == old(slot1) - 1 ==>
                Free(cap, leaves[slot1]) == old(Free(cap, leaves[slot1 - 1]) - SpaceUsed(leaves[slot1][..k]))
    {
      hide DataLength, SpaceUsed, Flatten, LeavesOk, SamePlace, PlaceOf;
      GoneLeftKeeps(Here(), k);
      var left, right := leaves[slot1 - 1], leaves[slot1];
      MovedLeft(cap, leaves, keys, slot1, k, if slot0 < k then slot1 - 1 else slot1, hasParent);
      leaves := leaves[slot1 - 1 := left + right[..k]][slot1 := right[k..]];
      if k < |right| {
        keys := keys[slot1 := right[k].key];
      }
      if slot0 < k {
        slot0, slot1 := slot0 + |left|, slot1 - 1;
      } else {
        slot0 := slot0 - k;
      }
    }

    /** btrfs_del_items: nr items are deleted from the path's leaf at `slot`; a leaf left less than a third full
        gives what it can to its neighbours, and a leaf left empty goes, unless it is the root.  The other items
        stay in order, no leaf below a node is left empty, the node's keys are first keys again, and the path keeps
        its place as long as its leaf is there. */
    method DelItems(slot: nat, nr: nat) returns (gone: bool)
      requires Valid() && nr > 0 && slot + nr <= |leaves[slot1]| && slot0 + nr <= |leaves[slot1]|
      modifies `leaves, `keys, `slot1, `slot0
      ensures old(|Flatten(leaves[..slot1])| + slot + nr <= |Flatten(leaves)|)
      ensures Flatten(leaves) == Cut(old(Flatten(leaves)), old(|Flatten(leaves[..slot1])|) + slot, nr)
      ensures LevelOk(if hasParent then -1 else slot1)
      ensures !gone ==> OnPath() && Cursor() == old(Cursor())
      ensures var w := Settled(cap, hasParent,
                               Place(old(leaves)[old(slot1) := Cut(old(leaves[slot1]), slot, nr)], old(slot1),
                                     old(slot0)));
              && old(slot1) < |w.leaves| && (gone <==> hasParent && w.leaves[old(slot1)] == [])
              && Here() == if gone then Place(w.leaves[..old(slot1)] + w.leaves[old(slot1) + 1..], old(slot1), w.slot0)
                  else w
    {
      hide DataLength, SpaceUsed, Flatten, RightMoves, LeftMoves, GoneRight, GoneLeft, LeavesOk;
      var s, l := slot1, leaves[slot1];
      var l' := Cut(l, slot, nr);
      PartShrunk(leaves, s, slot, nr);
      ShrunkLeaf(cap, leaves, keys, s, slot, nr, hasParent);
      leaves := leaves[s := l'];
      assert leaves[..s] == old(leaves)[..s];
      gone := false;
      if l' == [] {
        if hasParent {
          RemoveLeaf(s);
          gone := true;
        }
      } else {
        if slot == 0 {
          keys := keys[s := l'[0].key];
        }
        NoneEmpty(cap, leaves, keys, s, -1, hasParent);
        if SpaceUsed(l') < cap / 3 {
          if !hasParent {
            AloneStays(cap, Here());
          }
          var wret := PushLeafLeft(1, 1, true, 0xFFFF_FFFF);
          if slot1 == s && leaves[s] != [] {
            wret := PushLeafRight(1, 1, true, 0);
          }
          if leaves[s] == [] {
            RemoveLeaf(s);
            gone := true;
          } else {
            NoneEmpty(cap, leaves, keys, s, -1, hasParent);
          }
        }
      }
    }

    /** btrfs_del_leaf, as far as the node above goes. */
    method RemoveLeaf(s: nat)
      requires LevelOk(s) && hasParent && s < |leaves| && leaves[s] == []
      modifies `leaves, `keys, `slot1
      ensures LevelOk(-1) && leaves == old(leaves)[..s] + old(leaves)[s + 1..] && slot1 == s
              && Flatten(leaves) == old(Flatten(leaves))
    {
      hide DataLength, SpaceUsed, Flatten, LeavesOk;
      LeavesReplaced(cap, leaves, keys, s, s + 1, [], [], s, -1, hasParent);
      assert leaves[..s] + [] == leaves[..s] && keys[..s] + [] == keys[..s];
      leaves, keys, slot1 := leaves[..s] + leaves[s + 1..], keys[..s] + keys[s + 1..], s;
      PartAdded(leaves, old(leaves), s);
    }

    /** Everything stays in order and the path stays at its place, in perhaps more leaves. */
    twostate predicate Ordered()
      requires slot1 < |leaves| && old(slot1 < |leaves|)
      reads this
    {
      Flatten(leaves) == old(Flatten(leaves)) && Cursor() == old(Cursor())
    }

    /** copy_for_split with its insert_ptr: the path's leaf is cut at mid. */
    method SplitAt(mid: nat)
      requires Valid() && hasParent && 0 < mid < |leaves[slot1]| && |leaves| < maxPtrs
      modifies `leaves, `keys, `slot1, `slot0
      ensures Valid() && Ordered() && Here() == CutAt(old(Here()), mid)
    {
      hide DataLength, SpaceUsed, Flatten, LeavesOk;
      var l := leaves[slot1];
      CutLeaf(cap, leaves, keys, slot1, mid, if mid <= slot0 then slot1 + 1 else slot1, hasParent);
      leaves := leaves[..slot1] + [l[..mid], l[mid..]] + leaves[slot1 + 1..];
      keys := keys[..slot1] + [keys[slot1], l[mid].key] + keys[slot1 + 1..];
      PartCut(old(leaves), leaves, slot1);
      if mid <= slot0 {
        slot0, slot1 := slot0 - mid, slot1 + 1;
      }
    }

    /** The split == 0 case: a new empty leaf next to the path's leaf, under the key to be inserted. */
    method NewLeafAt(insKey: Key, after: bool)
      requires Valid() && hasParent && |leaves| < maxPtrs && leaves[slot1] != []
      requires if after then slot0 == |leaves[slot1]| else slot0 == 0
      modifies `leaves, `keys, `slot1, `slot0
      ensures Valid() && Ordered() && Here() == EmptyAt(old(Here()), after) && keys[slot1] == insKey
    {
      hide DataLength, SpaceUsed, Flatten, LeavesOk;
      var at := if after then slot1 + 1 else slot1;
      NoSpace([]);
      LeavesReplaced(cap, leaves, keys, at, at, [[]], [insKey], slot1, at, hasParent);
      leaves := leaves[..at] + [[]] + leaves[at..];
      keys := keys[..at] + [insKey] + keys[at..];
      PartAdded(old(leaves), leaves, at);
      if after {
        BeforeNext(old(leaves), slot1);
      }
      slot0, slot1 := 0, at;
    }

    /** insert_new_root above a leaf that was the root. */
    method InsertNewRoot()
      requires Valid() && !hasParent && leaves[slot1] != []
      modifies `hasParent, `keys
      ensures Valid() && hasParent && keys == [leaves[0][0].key]
    {
      hide SpaceUsed, Flatten;
      assert LeafOk(cap, leaves[0], keys[0], true, hasParent);
      hasParent, keys := true, [leaves[0][0].key];
    }

    /** push_for_double_split: get the path's slot to an end of a leaf by pushing what follows it right, and if it
        is still inside a leaf without room, what precedes it left.  1 means that neither worked and the slot is not
        at an end. */
    method PushForDoubleSplit(dataSize: nat) returns (ret: int)
      requires Valid()
      modifies `leaves, `keys, `slot1, `slot0
      ensures Valid() && Kept() && (old(leaves[slot1]) != [] ==> leaves[slot1] != [])
      ensures Here() == PushedForDouble(cap, hasParent, old(Here()), dataSize)
      ensures ret == if DoubleStuck(cap, hasParent, old(Here()), dataSize) then 1 else 0
    {
      hide DataLength, SpaceUsed, Flatten, RightMoves, LeftMoves, GoneRight, GoneLeft, LeafOk;
      NoMoves(Here());
      var progress := 0;
      ret := PushLeafRight(1, dataSize, false, slot0);
      if ret == 0 {
        progress := progress + 1;
      }
      if slot0 == 0 || slot0 == |leaves[slot1]| {
        return 0;
      }
      if Free(cap, leaves[slot1]) >= dataSize {
        return 0;
      }
      ret := PushLeafLeft(1, dataSize, false, slot0);
      if ret == 0 {
        progress := progress + 1;
      }
      ret := if progress > 0 then 0 else 1;
    }

    /** split_leaf: -EOVERFLOW exactly when an item cannot be extended that far within one leaf; otherwise the
        path's leaf ends up with dataSize bytes free, by pushing if that does it, else in at most three passes and
        with at most two new leaves.  Called, as in the source, on a leaf without that room. */
    method SplitLeaf(insKey: Key, dataSize: nat, extend: bool) returns (ret: int, ghost passes: nat)
      requires Valid() && |leaves| + 2 <= maxPtrs
      requires Free(cap, leaves[slot1]) < dataSize && leaves[slot1] != []
      requires extend ==> slot0 < |leaves[slot1]|
      modifies `leaves, `keys, `slot1, `slot0, `hasParent
      ensures Valid() && Ordered() && passes <= 3 && |leaves| <= |old(leaves)| + 2
      ensures ret == if extend && dataSize + old(|leaves[slot1][slot0].data|) + 25 > cap then EOVERFLOW else 0
      ensures ret == 0 ==> (Free(cap, leaves[slot1]) >= dataSize <==> extend || dataSize <= cap)
      ensures ret != 0 ==> leaves == old(leaves) && slot0 == old(slot0) && slot1 == old(slot1)
      ensures extend && ret == 0 ==> slot0 < |leaves[slot1]| && leaves[slot1][slot0] == old(leaves[slot1][slot0])
      ensures ret == 0 ==>
                && Here() == SplitOf(cap, old(hasParent), old(Here()), dataSize, extend)
                && (passes > 0 <==> Stuck(cap, old(hasParent), old(Here()), dataSize))
                && hasParent == (old(hasParent) || passes > 0)
                && (leaves[slot1] == [] ==> keys[slot1] == insKey)
      ensures ret != 0 ==> passes == 0 && hasParent == old(hasParent) && keys == old(keys)
    {
      hide DataLength, SpaceUsed, Flatten, LeafOk, RightMoves, LeftMoves, GoneRight, GoneLeft, SplitFrom;
      passes := 0;
      if extend && dataSize + |leaves[slot1][slot0].data| + 25 > cap {
        return EOVERFLOW, passes;
      }
      ret := 0;
      NoMoves(Here());
      var wret := PushLeafRight(dataSize, dataSize, false, 0);
      if wret != 0 {
        wret := PushLeafLeft(dataSize, dataSize, false, 0xFFFF_FFFF);
      }
      if Free(cap, leaves[slot1]) >= dataSize {
        FreeFits(cap, leaves[slot1], dataSize);
        return;
      }
      if !hasParent {
        InsertNewRoot();
      }
      passes := SplitPasses(insKey, dataSize, extend);
    }

    /** setup_items_for_insert, with the node's key set anew when the items come first. */
    method InsertHere(items: seq<Item>)
      requires Valid() && items != [] && SpaceUsed(items) <= Free(cap, leaves[slot1])
      modifies `leaves, `keys
      ensures Valid() && |leaves| == |old(leaves)| && Cursor() == old(Cursor()) && old(Cursor() <= |Flatten(leaves)|)
      ensures Flatten(leaves) == old(Flatten(leaves)[..Cursor()]) + items + old(Flatten(leaves)[Cursor()..])
      ensures slot0 + |items| <= |leaves[slot1]| && leaves[slot1][slot0..slot0 + |items|] == items
      ensures leaves == old(leaves)[slot1 := Grown(old(leaves)[slot1], slot0, items)]
    {
      hide DataLength, SpaceUsed, Flatten, LeavesOk, PlaceOf, Grown;
      GrownLevel(Here(), items);
      GrownLeaf(cap, leaves, keys, slot1, slot0, items, hasParent);
      leaves := leaves[slot1 := Grown(leaves[slot1], slot0, items)];
      if slot0 == 0 {
        keys := keys[slot1 := items[0].key];
      }
    }

    /** btrfs_insert_empty_items at this level: room is made if need be, and the items go in at the path's place,
        which stays; all others stay in order around them. */
    method InsertEmpty(items: seq<Item>)
      requires Valid() && |leaves| + 2 <= maxPtrs && items != [] && SpaceUsed(items) <= cap
      modifies `leaves, `keys, `slot1, `slot0, `hasParent
      ensures Valid() && |leaves| <= |old(leaves)| + 2 && Cursor() == old(Cursor())
              && old(Cursor() <= |Flatten(leaves)|)
      ensures Flatten(leaves) == old(Flatten(leaves)[..Cursor()]) + items + old(Flatten(leaves)[Cursor()..])
      ensures slot0 + |items| <= |leaves[slot1]| && leaves[slot1][slot0..slot0 + |items|] == items
      ensures var w := old(Here());
              var u := if Free(cap, w.leaves[w.slot1]) >= SpaceUsed(items) then w
                       else SplitOf(cap, old(hasParent), w, SpaceUsed(items), false);
              && slot1 == u.slot1 < |u.leaves| && slot0 == u.slot0 <= |u.leaves[slot1]|
              && leaves == u.leaves[slot1 := Grown(u.leaves[slot1], slot0, items)]
    {
      hide DataLength, SpaceUsed, Flatten, LeafOk, SplitOf, Stuck, Grown;
      if Free(cap, leaves[slot1]) < SpaceUsed(items) {
        if leaves[slot1] == [] {
          NoSpace([]);
        }
        var ret, passes := SplitLeaf(items[0].key, SpaceUsed(items), false);
      }
      InsertHere(items);
    }

    /** split_leaf from label `again` on. */
    method SplitPasses(insKey: Key, dataSize: nat, extend: bool) returns (ghost passes: nat)
      requires Valid() && hasParent && |leaves| + 2 <= maxPtrs
      requires Free(cap, leaves[slot1]) < dataSize && leaves[slot1] != []
      requires extend ==> Extendable(cap, leaves[slot1], slot0, dataSize)
      modifies `leaves, `keys, `slot1, `slot0
      ensures Valid() && Ordered() && passes <= 3 && |leaves| <= |old(leaves)| + 2
      ensures Free(cap, leaves[slot1]) >= dataSize <==> extend || dataSize <= cap
      ensures extend ==> slot0 < |leaves[slot1]| && leaves[slot1][slot0] == old(leaves[slot1][slot0])
      ensures passes > 0 && Here() == SplitFrom(cap, old(Here()), dataSize, extend, false, false)
      ensures leaves[slot1] == [] ==> keys[slot1] == insKey
    {
      hide DataLength, SpaceUsed, Flatten, PlanFor, LeafOk, SplitFrom, PushedForDouble, DoubleStuck;
      passes := 0;
      var numDoubles, triedAvoidDouble := 0, false;
      while true
        invariant Valid() && Ordered() && hasParent && leaves[slot1] != []
        invariant Free(cap, leaves[slot1]) < dataSize
        invariant extend ==> Extendable(cap, leaves[slot1], slot0, dataSize)
                             && leaves[slot1][slot0] == old(leaves[slot1][slot0])
        invariant passes == numDoubles + (if triedAvoidDouble then 1 else 0)
        invariant 0 <= numDoubles <= 1 && |leaves| == |old(leaves)| + numDoubles
        invariant numDoubles == 1 ==> slot0 == 0
        invariant SplitFrom(cap, Here(), dataSize, extend, triedAvoidDouble, numDoubles == 1)
               == SplitFrom(cap, old(Here()), dataSize, extend, false, false)
        decreases 3 - passes
      {
        passes := passes + 1;
        var l := leaves[slot1];
        FitsOf(cap, l, keys[slot1], true, hasParent);
        PlanSafe(cap, l, slot0, dataSize, extend, triedAvoidDouble);
        SplitStep(cap, Here(), dataSize, extend, triedAvoidDouble, numDoubles == 1);
        match PlanFor(cap, l, slot0, dataSize, extend, triedAvoidDouble)
        case NewLeaf(after) =>
          NewLeafAt(insKey, after);
          NoSpace([]);
          return;
        case Split(mid) =>
          PlanRoom(cap, l, slot0, dataSize, extend, triedAvoidDouble);
          SplitAt(mid);
          FreeFits(cap, leaves[slot1], dataSize);
          return;
        case DoubleSplit(mid) =>
          SplitAt(mid);
          // BUG_ON(num_doubles != 0)
          assert numDoubles == 0;
          numDoubles := numDoubles + 1;
        case AvoidDouble =>
          var pushed := PushForDoubleSplit(dataSize);
          triedAvoidDouble := true;
          if Free(cap, leaves[slot1]) >= dataSize {
            FreeFits(cap, leaves[slot1], dataSize);
            return;
          }
      }
    }
  }

  /** The level after the last items of leaf i, from `keep` on, have gone to the next leaf. */
  lemma {:induction false} MovedRight(cap: nat, v: seq<seq<Item>>, ks: seq<Key>, i: nat, keep: nat, but: int,
                                      hasParent: bool)
    requires LeavesOk(cap, v, ks, i, hasParent) && i + 1 < |v| && keep < |v[i]|
    requires SpaceUsed(v[i][keep..]) <= Free(cap, v[i + 1])
    ensures |ks| == |v|
    ensures var a, b := v[i][..keep], v[i][keep..] + v[i + 1];
            var w, qs := v[i := a][i + 1 := b], ks[i + 1 := v[i][keep].key];
            && SpaceUsed(b) == SpaceUsed(v[i][keep..]) + SpaceUsed(v[i + 1])
            && LeavesOk(cap, w, qs, i, hasParent) && (keep > 0 ==> LeavesOk(cap, w, qs, but, hasParent))
  {
    hide DataLength, SpaceUsed, LeavesOk;
    var a, b := v[i][..keep], v[i][keep..] + v[i + 1];
    LeafOf(cap, v, ks, i, hasParent, i);
    LeafOf(cap, v, ks, i, hasParent, i + 1);
    SpaceSplit(v[i], keep);
    LengthConcat(v[i][keep..], v[i + 1]);
    SpaceNonNegative(v[i][keep..]);
    LeafReplaced(cap, v, ks, i, a, ks[i], i, i, hasParent);
    assert ks[i := ks[i]] == ks;
    LeafReplaced(cap, v[i := a], ks, i + 1, b, v[i][keep].key, i, i, hasParent);
    if keep > 0 {
      NoneEmpty(cap, v[i := a][i + 1 := b], ks[i + 1 := v[i][keep].key], i, but, hasParent);
    }
  }

  lemma {:induction false} CutLeaf(cap: nat, v: seq<seq<Item>>, ks: seq<Key>, i: nat, mid: nat, but: int,
                                   hasParent: bool)
    requires LeavesOk(cap, v, ks, i, hasParent) && i < |v| && 0 < mid < |v[i]|
    ensures |ks| == |v|
    ensures LeavesOk(cap, v[..i] + [v[i][..mid], v[i][mid..]] + v[i + 1..],
                     ks[..i] + [ks[i], v[i][mid].key] + ks[i + 1..], but, hasParent)
  {
    hide DataLength, SpaceUsed, LeavesOk;
    LeafOf(cap, v, ks, i, hasParent, i);
    SpaceSplit(v[i], mid);
    SpaceNonNegative(v[i][..mid]);
    SpaceNonNegative(v[i][mid..]);
    LeavesReplaced(cap, v, ks, i, i + 1, [v[i][..mid], v[i][mid..]], [ks[i], v[i][mid].key], i, but, hasParent);
  }

  lemma {:induction false} NoneEmpty(cap: nat, v: seq<seq<Item>>, ks: seq<Key>, but: int, but': int, hasParent: bool)
    requires LeavesOk(cap, v, ks, but, hasParent) && (0 <= but < |v| ==> v[but] != [])
    ensures LeavesOk(cap, v, ks, but', hasParent)
  {
    hide SpaceUsed;
  }

  /** The level after the first k items of leaf i have gone to the leaf before. */
  lemma {:induction false} MovedLeft(cap: nat, v: seq<seq<Item>>, ks: seq<Key>, i: nat, k: nat, but: int,
                                     hasParent: bool)
    requires LeavesOk(cap, v, ks, i, hasParent) && 0 < i < |v| && 0 < k <= |v[i]|
    requires SpaceUsed(v[i][..k]) <= Free(cap, v[i - 1])
    ensures |ks| == |v|
    ensures var a, b := v[i - 1] + v[i][..k], v[i][k..];
            var w, qs := v[i - 1 := a][i := b], if k < |v[i]| then ks[i := v[i][k].key] else ks;
            && SpaceUsed(a) == SpaceUsed(v[i - 1]) + SpaceUsed(v[i][..k])
            && LeavesOk(cap, w, qs, i, hasParent) && (k < |v[i]| ==> LeavesOk(cap, w, qs, but, hasParent))
  {
    hide DataLength, SpaceUsed, LeavesOk;
    var a, b := v[i - 1] + v[i][..k], v[i][k..];
    LeafOf(cap, v, ks, i, hasParent, i);
    var key := if k < |v[i]| then v[i][k].key else ks[i];
    LeafOf(cap, v, ks, i, hasParent, i - 1);
    SpaceSplit(v[i], k);
    LengthConcat(v[i - 1], v[i][..k]);
    SpaceNonNegative(v[i][..k]);
    LeafReplaced(cap, v, ks, i - 1, a, ks[i - 1], i, i, hasParent);
    assert ks[i - 1 := ks[i - 1]] == ks && ks[i := ks[i]] == ks;
    LeafReplaced(cap, v[i - 1 := a], ks, i, b, key, i, i, hasParent);
    if k < |v[i]| {
      NoneEmpty(cap, v[i - 1 := a][i := b], ks[i := key], i, but, hasParent);
    }
  }

  function Grown(l: seq<Item>, at: nat, items: seq<Item>): seq<Item>
    requires at <= |l|
  {
    l[..at] + items + l[at..]
  }

  /** Items put into the path's leaf are put into the level, and the path stays before them. */
  lemma {:induction false} GrownLevel(w: Place, items: seq<Item>)
    requires w.slot1 < |w.leaves| && w.slot0 <= |w.leaves[w.slot1]|
    ensures PlaceOf(w) <= |Flatten(w.leaves)|
    ensures var l := Grown(w.leaves[w.slot1], w.slot0, items);
            var u := w.(leaves := w.leaves[w.slot1 := l]);
            && PlaceOf(u) == PlaceOf(w) && |l| == |w.leaves[w.slot1]| + |items|
            && l[w.slot0..w.slot0 + |items|] == items
            && Flatten(u.leaves) == Flatten(w.leaves)[..PlaceOf(w)] + items + Flatten(w.leaves)[PlaceOf(w)..]
  {
    hide Flatten;
    PartGrown(w.leaves, w.slot1, w.slot0, items);
    var u := w.(leaves := w.leaves[w.slot1 := Grown(w.leaves[w.slot1], w.slot0, items)]);
    assert u.leaves[..w.slot1] == w.leaves[..w.slot1];
  }

  lemma {:induction false} GrownLeaf(cap: nat, v: seq<seq<Item>>, ks: seq<Key>, i: nat, at: nat, items: seq<Item>,
                                     hasParent: bool)
    requires LeavesOk(cap, v, ks, i, hasParent) && i < |v| && at <= |v[i]| && items != []
    requires SpaceUsed(items) <= Free(cap, v[i])
    ensures |ks| == |v|
    ensures LeavesOk(cap, v[i := Grown(v[i], at, items)], if at == 0 then ks[i := items[0].key] else ks, i, hasParent)
  {
    hide SpaceUsed, LeavesOk;
    GrownFits(v[i], at, items);
    LeafOf(cap, v, ks, i, hasParent, i);
    LeafReplaced(cap, v, ks, i, Grown(v[i], at, items), if at == 0 then items[0].key else ks[i], i, i, hasParent);
    assert ks[i := ks[i]] == ks;
  }

  lemma {:induction false} GrownFits(l: seq<Item>, at: nat, items: seq<Item>)
    requires at <= |l|
    ensures SpaceUsed(Grown(l, at, items)) == SpaceUsed(l) + SpaceUsed(items)
  {
    hide SpaceUsed, DataLength;
    var w := l[..at] + items + l[at..];
    SpaceSplit(l, at);
    SpaceSplit(w, at);
    SpaceSplit(w[at..], |items|);
    assert w[..at] == l[..at] && w[at..][..|items|] == items && w[at..][|items|..] == l[at..];
  }

  lemma {:induction false} ShrunkLeaf(cap: nat, v: seq<seq<Item>>, ks: seq<Key>, i: nat, at: nat, n: nat,
                                      hasParent: bool)
    requires LeavesOk(cap, v, ks, i, hasParent) && i < |v| && at + n <= |v[i]|
    ensures |ks| == |v|
    ensures var l := Cut(v[i], at, n);
            LeavesOk(cap, v[i := l], if l != [] && at == 0 then ks[i := l[0].key] else ks, i, hasParent)
  {
    hide SpaceUsed, LeavesOk;
    var l := Cut(v[i], at, n);
    LeafOf(cap, v, ks, i, hasParent, i);
    ShrunkFits(v[i], at, n);
    LeafReplaced(cap, v, ks, i, l, if l != [] && at == 0 then l[0].key else ks[i], i, i, hasParent);
    assert ks[i := ks[i]] == ks;
  }

  lemma {:induction false} ShrunkFits(l: seq<Item>, at: nat, n: nat)
    requires at + n <= |l|
    ensures SpaceUsed(Cut(l, at, n)) <= SpaceUsed(l)
  {
    hide SpaceUsed, DataLength;
    SpaceSplit(l, at);
    SpaceSplit(l[at..], n);
    assert l[at..][n..] == l[at + n..];
    SpaceNonNegative(l[at..][..n]);
    var w := Cut(l, at, n);
    SpaceSplit(w, at);
    assert w[..at] == l[..at] && w[at..] == l[at + n..];
  }

  /** A leaf without a parent gives nothing. */
  lemma {:induction false} AloneStays(cap: nat, w: Place)
    requires w.slot1 < |w.leaves|
    ensures GoneLeft(w, LeftMoves(cap, false, w, 1, 1, true, 0xFFFF_FFFF)) == w
    ensures GoneRight(w, RightMoves(cap, false, w, 1, 1, true, 0)) == w
  {
  }

  lemma {:induction false} NoMoves(w: Place)
    requires w.slot1 < |w.leaves|
    ensures GoneRight(w, 0) == w == GoneLeft(w, 0)
  {
  }

  lemma {:induction false} FreeFits(cap: nat, l: seq<Item>, dataSize: nat)
    requires Free(cap, l) >= dataSize
    ensures dataSize <= cap
  {
  }

  lemma {:induction false} FitsOf(cap: nat, l: seq<Item>, key: Key, mayBeEmpty: bool, hasParent: bool)
    requires LeafOk(cap, l, key, mayBeEmpty, hasParent)
    ensures SpaceUsed(l) <= cap
  {
  }

  lemma {:induction false} SpaceNonNegative(items: seq<Item>)
    ensures SpaceUsed(items) >= 0
  {
  }

  // ---------- where to split ----------

  datatype Plan = NewLeaf(after: bool) | Split(mid: nat) | DoubleSplit(mid: nat) | AvoidDouble

  /** The decision at label `again` of split_leaf. */
  function PlanFor(cap: nat, l: seq<Item>, slot: nat, dataSize: nat, extend: bool, tried: bool): Plan
    requires l != [] && slot <= |l|
  {
    var n := |l|;
    var mid := (n + 1) / 2;
    if mid <= slot then
      if n == 1 || SpaceUsed(l[mid..]) + dataSize > cap then
        if slot >= n then NewLeaf(true)
        else if SpaceUsed(l[slot..]) + dataSize > cap then
          if dataSize != 0 && !tried then AvoidDouble else DoubleSplit(slot)
        else Split(slot)
      else Split(mid)
    else
      if SpaceUsed(l[..mid]) + dataSize > cap then
        if !extend && dataSize != 0 && slot == 0 then NewLeaf(false)
        else if slot == 0 then Split(1)
        else if SpaceUsed(l[slot..]) + dataSize > cap then
          if dataSize != 0 && !tried then AvoidDouble else DoubleSplit(slot)
        else Split(slot)
      else Split(mid)
  }

  /** The item at `slot` can take dataSize more bytes in a leaf of its own: what split_leaf checks first. */
  predicate Extendable(cap: nat, l: seq<Item>, slot: nat, dataSize: nat) {
    slot < |l| && dataSize + |l[slot].data| + 25 <= cap
  }

  /** Every split point is a proper one, so no item past the last is read; a double split is never planned
      for slot 0, and leaves a leaf without room. */
  lemma {:induction false} PlanSafe(cap: nat, l: seq<Item>, slot: nat, dataSize: nat, extend: bool, tried: bool)
    requires l != [] && slot <= |l| && SpaceUsed(l) <= cap && Free(cap, l) < dataSize
    requires extend ==> Extendable(cap, l, slot, dataSize)
    ensures match PlanFor(cap, l, slot, dataSize, extend, tried)
            case NewLeaf(after) => !extend && (if after then slot == |l| else slot == 0)
            case Split(mid) => 0 < mid < |l|
            case DoubleSplit(mid) => tried && mid == slot && 0 < mid < |l| && Free(cap, l[mid..]) < dataSize
            case AvoidDouble => !tried && slot > 0
  {
    hide SpaceUsed, DataLength;
    SpaceNonNegative(l);
    if |l| == 1 {
      assert l[..1] == l;
      if slot == 0 {
        NoSpace(l);
        SpaceTo(l, 0);
      }
    }
  }

  /** A single split gives the path's side the room asked for. */
  lemma {:induction false} PlanRoom(cap: nat, l: seq<Item>, slot: nat, dataSize: nat, extend: bool, tried: bool)
    requires l != [] && slot <= |l| && SpaceUsed(l) <= cap && Free(cap, l) < dataSize
    requires extend ==> Extendable(cap, l, slot, dataSize)
    requires PlanFor(cap, l, slot, dataSize, extend, tried).Split?
    ensures var mid := PlanFor(cap, l, slot, dataSize, extend, tried).mid;
            mid <= |l| && Free(cap, if mid <= slot then l[mid..] else l[..mid]) >= dataSize
  {
    hide SpaceUsed, DataLength;
    if slot == 0 {
      NoSpace(l);
      SpaceTo(l, 0);
    }
  }
}
