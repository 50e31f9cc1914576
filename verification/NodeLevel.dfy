/** Rebalancing and splitting interior nodes next to each other under one parent: balance_level,
    push_nodes_for_insert and split_node, with the path through them. */
module NodeLevel {
  import opened Basics
  import opened Sequences
  import opened LeafFormat
  import opened Nodes

  // ---------- a node and its neighbours ----------

  /** The node on the path with its neighbours; a missing neighbour is an empty list with its flag off. */
  datatype Trio = Trio(hasLeft: bool, left: seq<KeyPtr>, mid: seq<KeyPtr>, hasRight: bool, right: seq<KeyPtr>) {
    function All(): seq<KeyPtr> { left + mid + right }

    /** Neighbours exist iff flagged; nobody is over capacity, nobody present is empty. */
    predicate Ok(cap: nat) {
      && (hasLeft <==> left != []) && (hasRight <==> right != []) && mid != []
      && |left| <= cap && |mid| <= cap && |right| <= cap
    }
  }

  /** push_node_left(left, mid, 1), if there is a left node. */
  function PullLeft(cap: nat, t: Trio): Trio {
    if !t.hasLeft then t
    else match PushLeftCount(cap, |t.mid|, |t.left|, true)
      case Refuse => t
      case Move(k) =>
        PushLeftLeaves(cap, |t.mid|, |t.left|, true);
        t.(left := t.left + t.mid[..k], mid := t.mid[k..])
  }

  /** push_node_left(mid, right, 1), if there is a right node. */
  function PullRight(cap: nat, t: Trio): Trio {
    if !t.hasRight then t
    else match PushLeftCount(cap, |t.right|, |t.mid|, true)
      case Refuse => t
      case Move(k) =>
        PushLeftLeaves(cap, |t.right|, |t.mid|, true);
        t.(mid := t.mid + t.right[..k], right := t.right[k..])
  }

  datatype Outcome = Balanced(t: Trio) | Bug

  /** What balance_level does about a single remaining pointer: pull some from the left node, or push the one
      into it. */
  function FixSingle(cap: nat, t: Trio): Outcome {
    if |t.mid| != 1 then Balanced(t)
    else if !t.hasLeft then Bug
    else match BalanceRightCount(cap, |t.left|, 1)
      case Move(k) =>
        BalanceRightLeaves(cap, |t.left|, 1);
        var keep := |t.left| - k;
        Balanced(t.(left := t.left[..keep], mid := t.left[keep..] + t.mid))
      case Refuse =>
        match PushLeftCount(cap, 1, |t.left|, true)
        case Refuse => Bug
        case Move(k) => Balanced(PullLeft(cap, t))
  }

  /** The three steps of balance_level. */
  function Rebalance(cap: nat, t: Trio): Outcome {
    FixSingle(cap, PullRight(cap, PullLeft(cap, t)))
  }

  /** A node with `had` pointers has `has` after push_node_left from one with srcNr. */
  predicate Took(cap: nat, srcNr: nat, had: nat, has: nat) {
    match PushLeftCount(cap, srcNr, had, true)
    case Refuse => has == had
    case Move(k) => has == had + k
  }

  /** After pulling left: the middle is empty, untouched, or keeps at least 8 pointers. */
  lemma {:induction false} PullLeftShape(cap: nat, t: Trio)
    requires t.Ok(cap)
    ensures var u := PullLeft(cap, t);
            && u.All() == t.All() && u.right == t.right && u.hasLeft == t.hasLeft && u.hasRight == t.hasRight
            && |u.left| <= cap && |t.left| <= |u.left| && (!t.hasLeft ==> u == t)
            && (u.mid == [] || (u.mid == t.mid && u.left == t.left) || |u.mid| >= 8)
            && (u.mid == [] ==> |u.left| == |t.left| + |t.mid| && t.hasLeft)
            && (t.mid != [] && u.mid == t.mid && t.hasLeft && |t.mid| == 1 ==> |t.left| == cap)
            && (t.hasLeft ==> Took(cap, |t.mid|, |t.left|, |u.left|) && (|t.left| + |t.mid| <= cap ==> u.mid == []))
            && (u.mid == [] ==> |t.left| + |t.mid| <= cap)
  {
    if t.hasLeft && PushLeftCount(cap, |t.mid|, |t.left|, true).Move? {
      PushLeftLeaves(cap, |t.mid|, |t.left|, true);
      var k := PushLeftCount(cap, |t.mid|, |t.left|, true).n;
      assert t.mid == t.mid[..k] + t.mid[k..];
    }
  }

  /** After pulling right: with at least 10 pointers to a node, a middle with one pointer or none has taken
      something from its right neighbour. */
  lemma {:induction false} PullRightShape(cap: nat, u: Trio)
    requires cap >= 10 && |u.right| <= cap && |u.mid| <= cap && (u.hasRight <==> u.right != [])
    ensures var w := PullRight(cap, u);
            && w.All() == u.All() && w.left == u.left && w.hasLeft == u.hasLeft && w.hasRight == u.hasRight
            && |w.mid| <= cap && |w.right| <= cap
            && (u.hasRight && |u.mid| <= 1 ==> |w.mid| > |u.mid|) && (!u.hasRight ==> w == u)
            && u.mid <= w.mid
            && (u.hasRight ==>
                  Took(cap, |u.right|, |u.mid|, |w.mid|) && (w.right == [] <==> |u.mid| + |u.right| <= cap))
  {
    if u.hasRight && PushLeftCount(cap, |u.right|, |u.mid|, true).Move? {
      PushLeftLeaves(cap, |u.right|, |u.mid|, true);
      var k := PushLeftCount(cap, |u.right|, |u.mid|, true).n;
      assert u.right == u.right[..k] + u.right[k..];
    }
  }

  /** Fixing a single pointer keeps everything in order and never leaves one pointer behind in the middle. */
  lemma {:induction false} FixSingleShape(cap: nat, w: Trio)
    requires cap >= 10 && |w.left| <= cap && |w.mid| <= cap && (w.hasLeft <==> w.left != [])
    ensures FixSingle(cap, w) == Bug <==> |w.mid| == 1 && !w.hasLeft
    ensures FixSingle(cap, w).Balanced? ==>
              var x := FixSingle(cap, w).t;
              && x.All() == w.All() && |x.mid| != 1 && x.right == w.right
              && x.hasLeft == w.hasLeft && x.hasRight == w.hasRight
              && |x.left| <= cap && |x.mid| <= cap && (x.hasLeft <==> x.left != [])
              && (x.mid == [] ==> w.mid == [] || x.hasLeft)
              && (w.left <= x.left || (x.left <= w.left && |x.left| >= 1 && |x.mid| >= 2))
              && (|w.mid| != 1 ==> x == w)
              && (|w.mid| == 1 ==> |x.mid| == if |w.left| < 4 then 0 else 1 + Min(|w.left| / 2 + 1, cap - 1))
  {
    if |w.mid| == 1 && w.hasLeft {
      match BalanceRightCount(cap, |w.left|, 1) {
        case Move(k) =>
          BalanceRightLeaves(cap, |w.left|, 1);
          var keep := |w.left| - k;
          assert w.left == w.left[..keep] + w.left[keep..];
        case Refuse =>
          PushLeftLeaves(cap, 1, |w.left|, true);
          var k := PushLeftCount(cap, 1, |w.left|, true).n;
          assert w.mid == w.mid[..k] + w.mid[k..];
      }
    }
  }

  /** balance_level on an underfull node: its BUG()s are reached exactly when the node has one pointer and no
      neighbour; otherwise all pointers stay in order and the node does not end with one pointer. */
  lemma {:induction false} RebalanceSafe(cap: nat, t: Trio)
    requires cap >= 10 && t.Ok(cap)
    ensures Rebalance(cap, t) == Bug <==> |t.mid| == 1 && !t.hasLeft && !t.hasRight
    ensures Rebalance(cap, t).Balanced? ==>
              var x := Rebalance(cap, t).t;
              && x.All() == t.All() && |x.mid| != 1
              && |x.left| <= cap && |x.mid| <= cap && |x.right| <= |t.right|
              && (t.hasLeft <==> x.left != []) && (x.mid == [] ==> t.hasLeft)
              && x.hasLeft == t.hasLeft && x.hasRight == t.hasRight
              && (t.hasLeft ==> x.left[0] == t.left[0])
              && (!t.hasLeft ==> x.mid != [] && x.mid[0] == t.mid[0])
  {
    hide FixSingle, PullLeft, PullRight, PushLeftCount, BalanceRightCount;
    var u := PullLeft(cap, t);
    PullLeftShape(cap, t);
    PullRightShape(cap, u);
    var w := PullRight(cap, u);
    FixSingleShape(cap, w);
    FirstOf(t);
    FirstOf(w);
    if FixSingle(cap, w).Balanced? {
      FirstOf(FixSingle(cap, w).t);
      AllLengths(u, w);
      AllLengths(w, FixSingle(cap, w).t);
    }
  }

  /** balance_level saves a node if and only if the left neighbour has room for all of the middle, or the middle, once
      it has given the left what it takes, has room for all of the right; and in the first case the middle goes into
      the left and the right takes its place, but for what a single pointer needs. */
  lemma {:induction false} NodeSaved(cap: nat, t: Trio)
    requires cap >= 10 && t.Ok(cap) && Rebalance(cap, t).Balanced?
    ensures var x := Rebalance(cap, t).t;
            && (x.mid == [] || (t.hasRight && x.right == []) <==>
                  || (t.hasLeft && |t.left| + |t.mid| <= cap)
                  || (t.hasRight && |PullLeft(cap, t).mid| + |t.right| <= cap))
            && (t.hasLeft && |t.left| + |t.mid| <= cap && |t.right| != 1 ==>
                  x.left == t.left + t.mid && x.mid == t.right && x.right == [])
            && (!t.hasLeft && t.hasRight && |t.mid| + |t.right| <= cap ==> x.mid == t.mid + t.right && x.right == [])
  {
    hide FixSingle, PullLeft, PullRight, PushLeftCount, BalanceRightCount;
    var u := PullLeft(cap, t);
    PullLeftShape(cap, t);
    PullRightShape(cap, u);
    var w := PullRight(cap, u);
    FixSingleShape(cap, w);
    var x := FixSingle(cap, w).t;
    AllLengths(t, u);
    AllLengths(u, w);
    AllLengths(w, x);
    if t.hasLeft && |t.left| + |t.mid| <= cap {
      LeftTakesAll(t, u);
      RightMovesUp(u, w);
    }
    if !t.hasLeft && t.hasRight && |t.mid| + |t.right| <= cap {
      RightMovesUp(u, w);
    }
  }

  lemma {:induction false} LeftTakesAll(t: Trio, u: Trio)
    requires u.All() == t.All() && u.right == t.right && u.mid == []
    ensures u.left == t.left + t.mid
  {
    var a := t.left + t.mid;
    assert u.left + u.right == a + t.right;
    assert |u.left| == |a|;
    assert u.left == (u.left + u.right)[..|a|] == (a + t.right)[..|a|] == a;
  }

  lemma {:induction false} RightMovesUp(u: Trio, w: Trio)
    requires w.All() == u.All() && w.left == u.left && (w.right == [] || u.right == w.right)
    ensures w.right == [] ==> w.mid == u.mid + u.right
  {
    if w.right == [] {
      var n := |u.left|;
      assert w.mid == w.All()[n..] == u.All()[n..] == u.mid + u.right;
    }
  }

  /** The first pointer of all is the first of the first nonempty list. */
  lemma {:induction false} FirstOf(t: Trio)
    ensures t.left != [] ==> t.All() != [] && t.All()[0] == t.left[0]
    ensures t.left == [] && t.mid != [] ==> t.All() != [] && t.All()[0] == t.mid[0]
  {
  }

  lemma {:induction false} AllLengths(t: Trio, u: Trio)
    requires t.All() == u.All()
    ensures |t.left| + |t.mid| + |t.right| == |u.left| + |u.mid| + |u.right|
  {
    assert |t.All()| == |t.left| + |t.mid| + |t.right|;
    assert |u.All()| == |u.left| + |u.mid| + |u.right|;
  }

  /** Ten is the least capacity for that: from 4 to 9 pointers to a node, a full right neighbour refuses to
      give any and the node with one pointer hits BUG_ON(!left). */
  lemma {:induction false} SmallCapacityBug(cap: nat, p: KeyPtr)
    requires 4 <= cap <= 9
    ensures var t := Trio(false, [], [p], true, seq(cap, _ => p));
            t.Ok(cap) && |t.mid| <= cap / 4 && Rebalance(cap, t) == Bug
  {
    var t := Trio(false, [], [p], true, seq(cap, _ => p));
    assert PushLeftCount(cap, cap, 1, true) == Refuse;
  }

  // ---------- relief for a full node ----------

  /** What push_nodes_for_insert does about a full node: the left neighbour takes pointers if it has room for two
      and the node more than 8 to give; failing that the right neighbour does if it has room for two; failing that,
      nothing. */
  datatype Relief = ToLeft(n: nat) | ToRight(n: nat) | Stuck

  function ReliefOf(cap: nat, v: seq<seq<KeyPtr>>, pslot: nat): Relief
    requires pslot < |v|
  {
    var nr := |v[pslot]|;
    if pslot > 0 && |v[pslot - 1]| < cap - 1 && PushLeftCount(cap, nr, |v[pslot - 1]|, false).Move? then
      ToLeft(PushLeftCount(cap, nr, |v[pslot - 1]|, false).n)
    else if pslot + 1 < |v| && |v[pslot + 1]| < cap - 1 && BalanceRightCount(cap, nr, |v[pslot + 1]|).Move? then
      ToRight(BalanceRightCount(cap, nr, |v[pslot + 1]|).n)
    else Stuck
  }

  /** The level after the border to that neighbour has moved. */
  function Relieved(v: seq<seq<KeyPtr>>, pslot: nat, relief: Relief): seq<seq<KeyPtr>>
    requires pslot < |v|
  {
    var mid := v[pslot];
    match relief
    case ToLeft(n) =>
      if n <= |mid| && pslot > 0 then v[pslot - 1 := v[pslot - 1] + mid[..n]][pslot := mid[n..]] else v
    case ToRight(n) =>
      if n <= |mid| && pslot + 1 < |v| then v[pslot := mid[..|mid| - n]][pslot + 1 := mid[|mid| - n..] + v[pslot + 1]]
          else v
    case Stuck => v
  }

  /** Which node the path's pointer is in then. */
  function FollowedTo(v: seq<seq<KeyPtr>>, pslot: nat, slot: nat, relief: Relief): int
    requires pslot < |v|
  {
    match relief
    case ToLeft(n) => if slot < n then pslot - 1 else pslot
    case ToRight(n) => if slot >= |v[pslot]| - n then pslot + 1 else pslot
    case Stuck => pslot
  }

  /** A node cut in two in the middle. */
  function Halved(v: seq<seq<KeyPtr>>, p: nat): seq<seq<KeyPtr>>
    requires p < |v|
  {
    var mid := (|v[p]| + 1) / 2; v[..p] + [v[p][..mid], v[p][mid..]] + v[p + 1..]
  }

  lemma {:induction false} HalvedIs(v: seq<seq<KeyPtr>>, p: nat)
    requires p < |v|
    ensures var c, mid := v[p], (|v[p]| + 1) / 2; Halved(v, p) == v[..p] + [c[..mid], c[mid..]] + v[p + 1..]
  {
  }

  /** What split_node does: nothing but push if that leaves the path's node with room for more than three. */
  function SplitOf(cap: nat, v: seq<seq<KeyPtr>>, pslot: nat, slot: nat): seq<seq<KeyPtr>>
    requires pslot < |v|
  {
    var relief := ReliefOf(cap, v, pslot);
    var u, p := Relieved(v, pslot, relief), FollowedTo(v, pslot, slot, relief);
    if !(0 <= p < |u|) || (relief != Stuck && |u[p]| < cap - 3) then u else Halved(u, p)
  }

  lemma {:induction false} StuckStays(v: seq<seq<KeyPtr>>, pslot: nat, slot: nat)
    requires pslot < |v|
    ensures Relieved(v, pslot, Stuck) == v && FollowedTo(v, pslot, slot, Stuck) == pslot
  {
  }

  /** It is stuck exactly if no neighbour has room for two and takes from a node with enough to give. */
  lemma {:induction false} StuckExactly(cap: nat, v: seq<seq<KeyPtr>>, pslot: nat)
    requires pslot < |v|
    ensures ReliefOf(cap, v, pslot) == Stuck <==>
              && (pslot > 0 ==> |v[pslot]| <= 8 || |v[pslot - 1]| + 1 >= cap)
              && (pslot + 1 < |v| ==> |v[pslot]| < 4 || |v[pslot + 1]| + 1 >= cap)
  {
  }

  // ---------- the level ----------

  /** One node of a level: not empty, not over capacity, and its parent's key is its first key. */
  predicate ChildOk(cap: nat, c: seq<KeyPtr>, key: Key) {
    0 < |c| <= cap && key == c[0].key
  }

  ghost predicate ChildrenOk(cap: nat, v: seq<seq<KeyPtr>>, ks: seq<Key>) {
    |ks| == |v| && forall i | 0 <= i < |v| :: ChildOk(cap, v[i], ks[i])
  }

  /** The nodes below path->nodes[level + 1] (as pointer lists: Nodes moves the pointers), their keys in that
      node, and the path: slots[level + 1] and slots[level]. */
  class Level {
    const cap: nat
    var children: seq<seq<KeyPtr>>
    var keys: seq<Key>
    var pslot: nat
    var slot: nat

    ghost predicate Valid()
      reads this
    {
      ChildrenOk(cap, children, keys) && pslot < |children| && slot < |children[pslot]|
    }

    /** The path's place among all pointers of the level. */
    ghost function Cursor(): nat
      requires pslot < |children|
      reads this
    {
      |Flatten(children[..pslot])| + slot
    }

    /** All pointers stay in order, and the path names the same one. */
    twostate predicate Ordered()
      requires pslot < |children| && slot < |children[pslot]| && old(pslot < |children| && slot < |children[pslot]|)
      reads this
    {
      && Flatten(children) == old(Flatten(children)) && Cursor() == old(Cursor())
      && children[pslot][slot] == old(children[pslot][slot])
    }

    /** The path's node with its neighbours. */
    function Around(): (t: Trio)
      requires pslot < |children|
      reads this
    {
      Trio(pslot > 0, if pslot > 0 then children[pslot - 1] else [], children[pslot],
           pslot + 1 < |children|, if pslot + 1 < |children| then children[pslot + 1] else [])
    }

    /** balance_level, below an existing parent.  Returns false where the C code would hit a BUG(). */
    method BalanceLevel() returns (ok: bool)
      requires Valid() && cap >= 10
      modifies `children, `keys, `pslot, `slot
      ensures ok <==> old(|children| > 1 || |children[pslot]| > 1)
      ensures ok ==> Valid() && Ordered() && |children[pslot]| != 1 && |children| <= |old(children)|
      ensures old(|children[pslot]|) > cap / 4 ==> children == old(children)
      ensures ok && old(|children[pslot]|) <= cap / 4 ==>
                var outcome := Rebalance(cap, old(Around()));
                outcome.Balanced? && children == Spliced(old(children), old(pslot), outcome.t)
    {
      hide Flatten, Rebalance;
      if |children[pslot]| > cap / 4 {
        return true;
      }
      var t := Around();
      AroundOk(cap, children, keys, pslot, t);
      RebalanceSafe(cap, t);
      var outcome := Rebalance(cap, t);
      if outcome == Bug {
        return false;
      }
      AllLengths(t, outcome.t);
      PutBack(t, outcome.t);
      ok := true;
    }

    /** The bookkeeping at the end of balance_level: emptied nodes leave the parent, the others give it their
        first keys, and the path follows its pointer. */
    method PutBack(t: Trio, x: Trio)
      requires Valid() && t == Around() && t.Ok(cap)
      requires x.All() == t.All() && (t.hasLeft <==> x.left != []) && |x.mid| != 1
      requires |x.left| <= cap && |x.mid| <= cap && |x.right| <= cap
      requires |t.left| + |t.mid| <= |x.left| + |x.mid|
      modifies `children, `keys, `pslot, `slot
      ensures Valid() && Ordered() && |children[pslot]| != 1
      ensures |children| <= |old(children)| && children == Spliced(old(children), old(pslot), x)
    {
      hide Flatten, ChildrenOk, Present, FirstKeys, Trio.All, Trio.Ok;
      var lo := if pslot > 0 then pslot - 1 else pslot;
      var hi := if pslot + 1 < |children| then pslot + 2 else pslot + 1;
      PresentOk(cap, t, x);
      ChildBounds(cap, children, keys, pslot);
      WindowOk(cap, children, keys, Present(x), lo, hi);
      var w := children[..lo] + Present(x) + children[hi..];
      var ks := keys[..lo] + FirstKeys(Present(x)) + keys[hi..];
      var origSlot := slot + |t.left|;
      Followed(children, w, lo, hi, pslot, slot, t, x);
      children, keys := w, ks;
      if |x.left| > origSlot {
        pslot, slot := lo, origSlot;
      } else {
        slot := origSlot - |x.left|;
      }
    }

    /** push_nodes_for_insert: 0 if one of the neighbours took pointers, 1 with no change if neither does. */
    method PushNodesForInsert() returns (ret: int)
      requires Valid()
      modifies `children, `keys, `pslot, `slot
      ensures Valid() && Ordered() && |children| == |old(children)|
      ensures var relief := ReliefOf(cap, old(children), old(pslot));
              ret == (if relief == Stuck then 1 else 0) && children == Relieved(old(children), old(pslot), relief)
      ensures ret == 1 ==> children == old(children) && pslot == old(pslot) && slot == old(slot)
      ensures pslot == FollowedTo(old(children), old(pslot), old(slot), ReliefOf(cap, old(children), old(pslot)))
    {
      hide Flatten, PushLeftCount, BalanceRightCount, Relieved, FollowedTo;
      StuckStays(children, pslot, slot);
      if pslot > 0 {
        var left, mid := children[pslot - 1], children[pslot];
        if |left| < cap - 1 {
          var count := PushLeftCount(cap, |mid|, |left|, false);
          if count.Move? {
            PushLeftLeaves(cap, |mid|, |left|, false);
            GiveLeft(count.n);
            return 0;
          }
        }
      }
      if pslot + 1 < |children| {
        var mid, right := children[pslot], children[pslot + 1];
        if |right| < cap - 1 {
          var count := BalanceRightCount(cap, |mid|, |right|);
          if count.Move? {
            BalanceRightLeaves(cap, |mid|, |right|);
            GiveRight(count.n);
            return 0;
          }
        }
      }
      ret := 1;
    }

    method GiveLeft(n: nat)
      requires Valid() && pslot > 0 && 0 < n < |children[pslot]| && |children[pslot - 1]| + n <= cap
      modifies `children, `keys, `pslot, `slot
      ensures Valid() && Ordered() && children == Relieved(old(children), old(pslot), ToLeft(n))
      ensures pslot == FollowedTo(old(children), old(pslot), old(slot), ToLeft(n)) && |children| == |old(children)|
    {
      hide Flatten;
      var left, mid := children[pslot - 1], children[pslot];
      MoveBorder(pslot - 1, left + mid[..n], mid[n..]);
    }

    method GiveRight(n: nat)
      requires Valid() && pslot + 1 < |children| && 0 < n < |children[pslot]| && |children[pslot + 1]| + n <= cap
      modifies `children, `keys, `pslot, `slot
      ensures Valid() && Ordered() && children == Relieved(old(children), old(pslot), ToRight(n))
      ensures pslot == FollowedTo(old(children), old(pslot), old(slot), ToRight(n)) && |children| == |old(children)|
    {
      hide Flatten;
      var mid, right := children[pslot], children[pslot + 1];
      MoveBorder(pslot, mid[..|mid| - n], mid[|mid| - n..] + right);
    }

    /** Pointers moved over the border between nodes i and i + 1, one of them the path's: the parent's key for
        the right one is set anew and the path follows its pointer. */
    method MoveBorder(i: nat, a: seq<KeyPtr>, b: seq<KeyPtr>)
      requires Valid() && i + 1 < |children| && i <= pslot <= i + 1
      requires 0 < |a| <= cap && 0 < |b| <= cap && a + b == children[i] + children[i + 1]
      modifies `children, `keys, `pslot, `slot
      ensures Valid() && Ordered() && children == old(children)[i := a][i + 1 := b]
      ensures pslot == if |a| > old(slot) + (if old(pslot) == i then 0 else old(|children[i]|)) then i else i + 1
    {
      hide Flatten;
      var place := if pslot == i then slot else slot + |children[i]|;
      PartElement(children, pslot, slot);
      FirstTwo(a, b, children[i], children[i + 1]);
      assert ChildOk(cap, children[i], keys[i]) && ChildOk(cap, children[i + 1], keys[i + 1]);
      var w := children[i := a][i + 1 := b];
      BorderMoved(children, w, i);
      children, keys := w, keys[i + 1 := b[0].key];
      if |a| > place {
        pslot, slot := i, place;
      } else {
        pslot, slot := i + 1, place - |a|;
      }
      PartElement(children, pslot, slot);
    }

    /** split_node: first try the neighbours; otherwise cut the path's node in two.  Either way the path's node
        ends up with fewer than cap - 3 pointers, so that the levels below can add theirs without hitting the
        BUG() of insert_ptr. */
    method SplitNode()
      requires Valid() && cap >= 8 && |children[pslot]| >= cap - 3
      modifies `children, `keys, `pslot, `slot
      ensures Valid() && Ordered() && |children| <= |old(children)| + 1
      ensures |children[pslot]| < cap - 3
      ensures children == SplitOf(cap, old(children), old(pslot), old(slot))
    {
      hide Flatten, ReliefOf, Relieved, FollowedTo;
      var ret := PushNodesForInsert();
      if ret == 0 && |children[pslot]| < cap - 3 {
        return;
      }
      CutInTwo();
    }

    method CutInTwo()
      requires Valid() && cap >= 8 && |children[pslot]| >= cap - 3
      modifies `children, `keys, `pslot, `slot
      ensures Valid() && Ordered() && |children| == |old(children)| + 1
      ensures |children[pslot]| < cap - 3
      ensures children == Halved(old(children), old(pslot))
    {
      hide Flatten, ChildrenOk, FirstKeys, Halved;
      HalvedIs(children, pslot);
      var c := children[pslot];
      ChildBounds(cap, children, keys, pslot);
      var mid := (|c| + 1) / 2;
      var nodes := [c[..mid], c[mid..]];
      WindowOk(cap, children, keys, nodes, pslot, pslot + 1);
      CutFollowed(children, pslot, slot, mid);
      var w := children[..pslot] + nodes + children[pslot + 1..];
      var ks := keys[..pslot] + FirstKeys(nodes) + keys[pslot + 1..];
      children, keys := w, ks;
      if slot >= mid {
        slot, pslot := slot - mid, pslot + 1;
      }
    }
  }

  /** The path after the window has been replaced; the final BUG() check of balance_level holds: it names the same
      pointer. */
  lemma {:induction false} Followed(v: seq<seq<KeyPtr>>, w: seq<seq<KeyPtr>>, lo: nat, hi: nat, pslot: nat, slot: nat,
                                    t: Trio, x: Trio)
    requires lo <= pslot < hi <= |v| && pslot == lo + (if t.hasLeft then 1 else 0) && slot < |v[pslot]|
    requires hi == pslot + (if t.hasRight then 2 else 1)
    requires t.hasLeft ==> v[lo] == t.left
    requires v[pslot] == t.mid && (t.hasRight ==> v[pslot + 1] == t.right)
    requires t.mid != [] && (t.hasLeft <==> t.left != []) && (t.hasRight <==> t.right != [])
    requires x.All() == t.All() && (t.hasLeft <==> x.left != []) && |t.left| + |t.mid| <= |x.left| + |x.mid|
    requires w == v[..lo] + Present(x) + v[hi..]
    ensures Flatten(w) == Flatten(v)
    ensures var orig := slot + |t.left|;
            var p, s := if |x.left| > orig then lo else pslot, if |x.left| > orig then orig else orig - |x.left|;
            && p < |w| && 0 <= s < |w[p]| && |Flatten(w[..p])| + s == |Flatten(v[..pslot])| + slot
            && w[p][s] == v[pslot][slot] && w[p] == if |x.left| > orig then x.left else x.mid
  {
    hide Flatten, Present, Trio.All;
    WindowReplaced(v, w, lo, hi, pslot, t, x);
    PartElement(v, pslot, slot);
    var orig := slot + |t.left|;
    var p, s := if |x.left| > orig then lo else pslot, if |x.left| > orig then orig else orig - |x.left|;
    PartElement(w, p, s);
  }

  lemma {:induction false} ChildBounds(cap: nat, v: seq<seq<KeyPtr>>, ks: seq<Key>, i: nat)
    requires ChildrenOk(cap, v, ks) && i < |v|
    ensures |ks| == |v| && 0 < |v[i]| <= cap
  {
  }

  /** The path after its node has been cut at mid. */
  lemma {:induction false} CutFollowed(v: seq<seq<KeyPtr>>, pslot: nat, slot: nat, mid: nat)
    requires pslot < |v| && slot < |v[pslot]| && 0 < mid < |v[pslot]|
    ensures var c := v[pslot];
            var w := v[..pslot] + [c[..mid], c[mid..]] + v[pslot + 1..];
            var p, s := if slot >= mid then pslot + 1 else pslot, if slot >= mid then slot - mid else slot;
            && |w| == |v| + 1 && Flatten(w) == Flatten(v) && w[p] == (if slot >= mid then c[mid..] else c[..mid])
            && |Flatten(w[..p])| + s == |Flatten(v[..pslot])| + slot && w[p][s] == v[pslot][slot]
  {
    hide Flatten;
    var c := v[pslot];
    var w := v[..pslot] + [c[..mid], c[mid..]] + v[pslot + 1..];
    assert c == c[..mid] + c[mid..];
    PartCut(v, w, pslot);
    assert w[..pslot] == v[..pslot];
  }

  lemma {:induction false} FirstTwo(a: seq<KeyPtr>, b: seq<KeyPtr>, c: seq<KeyPtr>, d: seq<KeyPtr>)
    requires a + b == c + d && a != [] && c != []
    ensures a[0] == c[0] && |a| + |b| == |c| + |d|
  {
    assert (a + b)[0] == a[0] && (c + d)[0] == c[0];
    assert |a + b| == |a| + |b| && |c + d| == |c| + |d|;
  }

  lemma {:induction false} PresentOk(cap: nat, t: Trio, x: Trio)
    requires t.Ok(cap) && (t.hasLeft <==> x.left != []) && x.All() == t.All()
    requires |x.left| <= cap && |x.mid| <= cap && |x.right| <= cap
    requires |t.left| + |t.mid| <= |x.left| + |x.mid|
    ensures forall i | 0 <= i < |Present(x)| :: 0 < |Present(x)[i]| <= cap
    ensures |Present(x)| <= (if t.hasLeft then 1 else 0) + 1 + (if t.hasRight then 1 else 0)
    ensures t.mid != [] && (t.hasLeft <==> t.left != []) && (t.hasRight <==> t.right != [])
  {
    AllLengths(t, x);
  }

  lemma {:induction false} AroundOk(cap: nat, v: seq<seq<KeyPtr>>, ks: seq<Key>, pslot: nat, t: Trio)
    requires ChildrenOk(cap, v, ks) && pslot < |v|
    requires t.hasLeft == (pslot > 0) && t.hasRight == (pslot + 1 < |v|) && t.mid == v[pslot]
    requires t.left == if pslot > 0 then v[pslot - 1] else []
    requires t.right == if pslot + 1 < |v| then v[pslot + 1] else []
    ensures t.Ok(cap)
  {
  }

  lemma {:induction false} WindowOk(cap: nat, v: seq<seq<KeyPtr>>, ks: seq<Key>, nodes: seq<seq<KeyPtr>>, lo: nat,
                                    hi: nat)
    requires ChildrenOk(cap, v, ks) && lo <= hi <= |v|
    requires forall i | 0 <= i < |nodes| :: 0 < |nodes[i]| <= cap
    ensures |ks| == |v|
    ensures ChildrenOk(cap, v[..lo] + nodes + v[hi..], ks[..lo] + FirstKeys(nodes) + ks[hi..])
  {
    var w, js := v[..lo] + nodes + v[hi..], ks[..lo] + FirstKeys(nodes) + ks[hi..];
    var n := |nodes|;
    forall i | 0 <= i < |w|
      ensures ChildOk(cap, w[i], js[i])
    {
      if i < lo {
        assert ChildOk(cap, v[i], ks[i]);
      } else if i < lo + n {
        assert w[i] == nodes[i - lo];
      } else {
        assert ChildOk(cap, v[i - lo - n + hi], ks[i - lo - n + hi]);
      }
    }
  }

  /** The nodes of a trio that stay in the tree: emptied ones are deleted. */
  function Present(t: Trio): seq<seq<KeyPtr>> {
    (if t.left == [] then [] else [t.left]) + (if t.mid == [] then [] else [t.mid])
    + (if t.right == [] then [] else [t.right])
  }

  /** The level with the node at pslot and its neighbours replaced by what is left of a trio. */
  function Spliced(v: seq<seq<KeyPtr>>, pslot: nat, x: Trio): seq<seq<KeyPtr>>
    requires pslot < |v|
  {
    v[..if pslot > 0 then pslot - 1 else pslot] + Present(x) + v[if pslot + 1 < |v| then pslot + 2 else pslot + 1..]
  }

  function FirstKeys(nodes: seq<seq<KeyPtr>>): (ks: seq<Key>)
    requires forall i | 0 <= i < |nodes| :: nodes[i] != []
    ensures |ks| == |nodes| && forall i | 0 <= i < |nodes| :: ks[i] == nodes[i][0].key
  {
    seq(|nodes|, i requires 0 <= i < |nodes| => nodes[i][0].key)
  }

  lemma {:induction false} TrioFlatten(t: Trio)
    ensures Flatten(Present(t)) == t.All()
  {
    hide Flatten;
    var a := if t.left == [] then [] else [t.left];
    var b := if t.mid == [] then [] else [t.mid];
    var c := if t.right == [] then [] else [t.right];
    FlattenConcat(a + b, c);
    FlattenConcat(a, b);
    FlattenMaybe(t.left);
    FlattenMaybe(t.mid);
    FlattenMaybe(t.right);
  }

  lemma {:induction false} FlattenMaybe(x: seq<KeyPtr>)
    ensures Flatten(if x == [] then [] else [x]) == x
  {
    FlattenOne(x);
  }

  /** Replacing the trio's window by what rebalancing made of it. */
  lemma {:induction false} WindowReplaced(v: seq<seq<KeyPtr>>, w: seq<seq<KeyPtr>>, lo: nat, hi: nat, pslot: nat,
                                          t: Trio, x: Trio)
    requires lo <= pslot < hi <= |v| && pslot == lo + (if t.hasLeft then 1 else 0)
    requires hi == pslot + (if t.hasRight then 2 else 1)
    requires t.hasLeft ==> v[lo] == t.left
    requires v[pslot] == t.mid && (t.hasRight ==> v[pslot + 1] == t.right)
    requires t.mid != [] && (t.hasLeft <==> t.left != []) && (t.hasRight <==> t.right != [])
    requires x.All() == t.All() && (t.hasLeft <==> x.left != [])
    requires w == v[..lo] + Present(x) + v[hi..]
    ensures Flatten(v) == Flatten(w)
    ensures |Flatten(v[..pslot])| == |Flatten(v[..lo])| + |t.left|
    ensures |w| >= lo && |Flatten(w[..lo])| == |Flatten(v[..lo])|
    ensures x.mid != [] ==> |w| > pslot && w[pslot] == x.mid && |Flatten(w[..pslot])| == |Flatten(v[..lo])| + |x.left|
    ensures x.left != [] ==> |w| > lo && w[lo] == x.left
  {
    hide Flatten;
    var n := |Present(x)|;
    assert v[lo..hi] == Present(t);
    assert w[..lo] == v[..lo] && w[lo + n..] == v[hi..] && w[lo..lo + n] == Present(x);
    TrioFlatten(t);
    TrioFlatten(x);
    FlattenReplace(v, w, lo, hi, lo + n);
    if t.hasLeft {
      BeforeNext(v, lo);
      BeforeNext(w, lo);
    }
  }
}
