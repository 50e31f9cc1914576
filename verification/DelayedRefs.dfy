/** The delayed-ref tree at work: queueing (delayed-ref.c), picking a cluster of heads, running their refs against the
    extent tree and predicting reference counts (extent-tree.c). */
module DelayedRefs {
  import opened Basics
  import opened Sequences
  import opened RefOrder
  import opened RefRuns

  function Count<K>(m: map<K, int>, k: K): int { if k in m then m[k] else 0 }

  // ---------- the books ----------

  ghost predicate NetOk(nodes: seq<Node>, net: map<Rank, int>, r: Rank) { Sum(nodes, OfRank(r)) == Count(net, r) }

  ghost predicate TruthOk(nodes: seq<Node>, disk: map<u64, int>, truth: map<u64, int>, b: u64) {
    Count(disk, b) + Sum(nodes, OfExtent(b)) == Count(truth, b)
  }

  /** The head of extent b is ahead of its refs by `ahead`. */
  ghost predicate HeadSums(nodes: seq<Node>, b: u64, ahead: int) {
    Sum(nodes, OfHead(b)) == Sum(nodes, OfExtent(b)) + ahead
  }

  /** `net` is what is queued for each back reference, `truth` the count each extent should come to.  Heads are
      exact except while their refs are being run, and except for `ahead` on extent `b0`. */
  ghost predicate Books(nodes: seq<Node>, net: map<Rank, int>, disk: map<u64, int>, truth: map<u64, int>,
                        running: set<u64>, b0: u64, ahead: int) {
    && (forall r :: NetOk(nodes, net, r))
    && (forall b :: TruthOk(nodes, disk, truth, b))
    && (forall b | b !in running :: HeadSums(nodes, b, if b == b0 then ahead else 0))
  }

  ghost predicate HasHead(nodes: seq<Node>, b: u64) {
    exists j :: 0 <= j < |nodes| && nodes[j].Head? && nodes[j].bytenr == b
  }

  /** Queued refs are positive and have a head. */
  ghost predicate RefOk(nodes: seq<Node>, i: nat)
    requires i < |nodes|
  {
    nodes[i].Ref? ==> nodes[i].refMod > 0 && HasHead(nodes, nodes[i].bytenr)
  }

  /** A running extent has its head in the tree, marked as picked. */
  ghost predicate RunningOk(nodes: seq<Node>, b: u64) {
    exists j :: 0 <= j < |nodes| && nodes[j].Head? && nodes[j].bytenr == b && nodes[j].clustered
  }

  ghost predicate TreeOk(nodes: seq<Node>, running: set<u64>) {
    && Ordered(nodes)
    && (forall i | 0 <= i < |nodes| :: RefOk(nodes, i))
    && (forall b | b in running :: RunningOk(nodes, b))
  }

  // ---------- edits and the books ----------

  /** What an edit does to the sums: `d` to back reference r of extent b, or to the head of b. */
  ghost predicate RefEffect(s: seq<Node>, e: Edit, r: Rank, b: u64, d: int) {
    && Fits(s, e)
    && (forall r' :: Delta(s, e, OfRank(r')) == if r' == r then d else 0)
    && (forall b' :: Delta(s, e, OfExtent(b')) == if b' == b then d else 0)
    && (forall b' :: Delta(s, e, OfHead(b')) == 0)
    && Delta(s, e, ReadyHead()) == 0
  }

  ghost predicate HeadEffect(s: seq<Node>, e: Edit, b: u64, d: int, ready: int) {
    && Fits(s, e)
    && (forall r' :: Delta(s, e, OfRank(r')) == 0)
    && (forall b' :: Delta(s, e, OfExtent(b')) == 0)
    && (forall b' :: Delta(s, e, OfHead(b')) == if b' == b then d else 0)
    && Delta(s, e, ReadyHead()) == ready
  }

  lemma {:induction false} BooksHead(s: seq<Node>, e: Edit, b: u64, d: int, ready: int,
                                     net: map<Rank, int>, disk: map<u64, int>, truth: map<u64, int>, running: set<u64>)
    requires Books(s, net, disk, truth, running, b, 0) && HeadEffect(s, e, b, d, ready)
    ensures Books(Edited(s, e), net, disk, truth, running, b, d)
    ensures Sum(Edited(s, e), ReadyHead()) == Sum(s, ReadyHead()) + ready
  {
    hide Sum, Edited, Delta, OfRank, OfExtent, OfHead, ReadyHead, Count;
    var t := Edited(s, e);
    forall r
      ensures NetOk(t, net, r)
    {
      assert NetOk(s, net, r);
      SumEdited(s, e, OfRank(r));
    }
    forall b'
      ensures TruthOk(t, disk, truth, b')
    {
      assert TruthOk(s, disk, truth, b');
      SumEdited(s, e, OfExtent(b'));
    }
    forall b' | b' !in running
      ensures HeadSums(t, b', if b' == b then d else 0)
    {
      assert HeadSums(s, b', 0);
      SumEdited(s, e, OfExtent(b'));
      SumEdited(s, e, OfHead(b'));
    }
    SumEdited(s, e, ReadyHead());
  }

  /** A ref edit by d, matched by d in what is owed. */
  lemma {:induction false} BooksRef(s: seq<Node>, e: Edit, r: Rank, b: u64, d: int,
                                    net: map<Rank, int>, disk: map<u64, int>, truth: map<u64, int>, running: set<u64>)
    requires Books(s, net, disk, truth, running, b, d) && RefEffect(s, e, r, b, d)
    ensures Books(Edited(s, e), net[r := Count(net, r) + d], disk, truth[b := Count(truth, b) + d], running, b, 0)
    ensures Sum(Edited(s, e), ReadyHead()) == Sum(s, ReadyHead())
  {
    hide Sum, Edited, Delta, OfRank, OfExtent, OfHead, ReadyHead;
    var t, net', truth' := Edited(s, e), net[r := Count(net, r) + d], truth[b := Count(truth, b) + d];
    forall r'
      ensures NetOk(t, net', r')
    {
      assert NetOk(s, net, r');
      SumEdited(s, e, OfRank(r'));
    }
    forall b'
      ensures TruthOk(t, disk, truth', b')
    {
      assert TruthOk(s, disk, truth, b');
      SumEdited(s, e, OfExtent(b'));
    }
    forall b' | b' !in running
      ensures HeadSums(t, b', 0)
    {
      assert HeadSums(s, b', if b' == b then d else 0);
      SumEdited(s, e, OfExtent(b'));
      SumEdited(s, e, OfHead(b'));
    }
    SumEdited(s, e, ReadyHead());
  }

  /** Running a ref: what was queued moves to the disk; the head of b is not touched, so b must be running. */
  lemma {:induction false} BooksRun(s: seq<Node>, e: Edit, r: Rank, b: u64, d: int,
                                    net: map<Rank, int>, disk: map<u64, int>, truth: map<u64, int>, running: set<u64>,
                                        b0: u64)
    requires Books(s, net, disk, truth, running, b0, 0) && RefEffect(s, e, r, b, -d) && b in running
    ensures Books(Edited(s, e), net[r := Count(net, r) - d], disk[b := Count(disk, b) + d], truth, running, b0, 0)
    ensures Sum(Edited(s, e), ReadyHead()) == Sum(s, ReadyHead())
  {
    hide Sum, Edited, Delta, OfRank, OfExtent, OfHead, ReadyHead;
    var t, net', disk' := Edited(s, e), net[r := Count(net, r) - d], disk[b := Count(disk, b) + d];
    forall r'
      ensures NetOk(t, net', r')
    {
      assert NetOk(s, net, r');
      SumEdited(s, e, OfRank(r'));
    }
    forall b'
      ensures TruthOk(t, disk', truth, b')
    {
      assert TruthOk(s, disk, truth, b');
      SumEdited(s, e, OfExtent(b'));
    }
    forall b' | b' !in running
      ensures HeadSums(t, b', 0)
    {
      assert HeadSums(s, b', 0);
      SumEdited(s, e, OfExtent(b'));
      SumEdited(s, e, OfHead(b'));
    }
    SumEdited(s, e, ReadyHead());
  }

  // ---------- the tree under edits ----------

  ghost predicate EditOk(s: seq<Node>, e: Edit, running: set<u64>) {
    && Orderly(s, e)
    && match e
       case Insert(_, n) => n.Ref? ==> n.refMod > 0 && HasHead(s, n.bytenr)
       case Update(k, n) => (n.Ref? ==> n.refMod > 0) && (n.Head? && s[k].Head? && s[k].clustered ==> n.clustered)
       case Delete(k) => s[k].Head? ==> s[k].bytenr !in running && NoRefs(s, s[k].bytenr)
  }

  ghost predicate NoRefs(s: seq<Node>, b: u64) {
    forall i | 0 <= i < |s| && s[i].Ref? :: s[i].bytenr != b
  }

  /** Where a node of the old tree is in the new one. */
  function Moved(e: Edit, j: nat): int {
    match e
    case Insert(k, _) => if j < k then j else j + 1
    case Update(_, _) => j
    case Delete(k) => if j < k then j else j - 1
  }

  lemma {:induction false} MovedTo(s: seq<Node>, e: Edit, j: nat)
    requires Fits(s, e) && j < |s| && !(e.Delete? && j == e.k)
    ensures 0 <= Moved(e, j) < |Edited(s, e)|
    ensures Edited(s, e)[Moved(e, j)] == if e.Update? && j == e.k then e.n else s[j]
  {
  }

  /** Where a node of the new tree came from, unless it is the new one. */
  lemma {:induction false} MovedFrom(s: seq<Node>, e: Edit, i: nat) returns (j: nat)
    requires Fits(s, e) && i < |Edited(s, e)| && !(!e.Delete? && i == e.k)
    ensures j < |s| && !(e.Delete? && j == e.k) && Edited(s, e)[i] == s[j]
  {
    j := match e case Insert(k, _) => if i < k then i else i - 1 case Update(_, _) => i case Delete(k) => if i < k
        then i else i + 1;
  }

  lemma {:induction false} HeadStays(s: seq<Node>, e: Edit, running: set<u64>, b: u64)
    requires EditOk(s, e, running)
    ensures HasHead(s, b) && !(e.Delete? && s[e.k].Head? && s[e.k].bytenr == b) ==> HasHead(Edited(s, e), b)
    ensures RunningOk(s, b) && b in running ==> RunningOk(Edited(s, e), b)
  {
    hide Edited, Moved, Before;
    if HasHead(s, b) && !(e.Delete? && s[e.k].Head? && s[e.k].bytenr == b) {
      var j :| 0 <= j < |s| && s[j].Head? && s[j].bytenr == b;
      MovedTo(s, e, j);
    }
    if RunningOk(s, b) && b in running {
      var j :| 0 <= j < |s| && s[j].Head? && s[j].bytenr == b && s[j].clustered;
      MovedTo(s, e, j);
    }
  }

  lemma {:induction false} NewRefOk(s: seq<Node>, e: Edit, running: set<u64>, i: nat)
    requires TreeOk(s, running) && EditOk(s, e, running) && i < |Edited(s, e)|
    ensures RefOk(Edited(s, e), i)
  {
    hide Edited, Before, HasHead, RunningOk;
    var t := Edited(s, e);
    HeadStays(s, e, running, t[i].bytenr);
    if !e.Delete? && i == e.k {
      NewNode(s, e);
      if e.Update? {
        assert RefOk(s, e.k);
      }
    } else {
      var j := MovedFrom(s, e, i);
      assert RefOk(s, j);
    }
  }

  lemma {:induction false} NewNode(s: seq<Node>, e: Edit)
    requires Fits(s, e) && !e.Delete?
    ensures e.k < |Edited(s, e)| && Edited(s, e)[e.k] == e.n
  {
  }

  lemma {:induction false} TreeEdited(s: seq<Node>, e: Edit, running: set<u64>)
    requires TreeOk(s, running) && EditOk(s, e, running)
    ensures TreeOk(Edited(s, e), running)
  {
    hide Edited, EditOk, Orderly, Before, RefOk, RunningOk;
    OrderlyOf(s, e, running);
    OrderKept(s, e);
    var t := Edited(s, e);
    forall i | 0 <= i < |t|
      ensures RefOk(t, i)
    {
      NewRefOk(s, e, running, i);
    }
    forall b | b in running
      ensures RunningOk(t, b)
    {
      HeadStays(s, e, running, b);
    }
  }

  lemma {:induction false} OrderlyOf(s: seq<Node>, e: Edit, running: set<u64>)
    requires EditOk(s, e, running)
    ensures Orderly(s, e) && Fits(s, e)
  {
  }

  // ---------- the two nodes a request makes ----------

  /** The edit for a head with change d: a new head, or the old one updated (update_existing_head_ref). */
  function HeadUpdated(was: Node, d: int, must: bool, op: bool): Node
    requires was.Head?
  {
    was.(refMod := was.refMod + d, mustInsert := was.mustInsert || must, hasOp := was.hasOp || op)
  }

  /** The head of an extent, if it had one, after add_delayed_ref_head. */
  function HeadAfter(h: seq<Node>, b: u64, d: int, must: bool, op: bool): Node {
    if h == [] || !h[0].Head? then Head(b, d, must, op, false) else HeadUpdated(h[0], d, must, op)
  }

  lemma {:induction false} HeadInserted(s: seq<Node>, k: nat, b: u64, d: int, must: bool, op: bool)
    requires k <= |s|
    ensures HeadEffect(s, Insert(k, Head(b, d, must, op, false)), b, d, 1)
  {
  }

  lemma {:induction false} HeadChanged(s: seq<Node>, k: nat, n: Node, d: int)
    requires k < |s| && s[k].Head? && n.Head? && n.bytenr == s[k].bytenr && n.refMod == s[k].refMod + d
    ensures HeadEffect(s, Update(k, n), n.bytenr, d,
                       (if n.clustered then 0 else 1) - (if s[k].clustered then 0 else 1))
  {
  }

  lemma {:induction false} RefInserted(s: seq<Node>, k: nat, n: Node)
    requires k <= |s| && n.Ref?
    ensures RefEffect(s, Insert(k, n), RankOf(n), n.bytenr, Signed(n))
  {
  }

  lemma {:induction false} RefChanged(s: seq<Node>, k: nat, n: Node)
    requires k < |s| && s[k].Ref? && n.Ref? && RankOf(n) == RankOf(s[k])
    ensures RefEffect(s, Update(k, n), RankOf(n), n.bytenr, Signed(n) - Signed(s[k]))
  {
    SameRankSameExtent(n, s[k]);
  }

  lemma {:induction false} RefGone(s: seq<Node>, k: nat)
    requires k < |s| && s[k].Ref?
    ensures RefEffect(s, Delete(k), RankOf(s[k]), s[k].bytenr, -Signed(s[k]))
  {
  }

  lemma {:induction false} HeadGone(s: seq<Node>, k: nat)
    requires k < |s| && s[k].Head?
    ensures HeadEffect(s, Delete(k), s[k].bytenr, -s[k].refMod, if s[k].clustered then 0 else -1)
  {
  }

  lemma {:induction false} SameRankSameExtent(a: Node, b: Node)
    requires RankOf(a) == RankOf(b)
    ensures a.bytenr == b.bytenr && (a.Head? <==> b.Head?)
  {
  }

  /** What update_existing_ref leaves of a queued ref: nothing, if the two cancel out. */
  function RefUpdated(was: Node, action: Action): Option<Node>
    requires was.Ref?
  {
    if action != was.action then
      if was.refMod == 1 then None else Some(was.(refMod := was.refMod - 1))
    else Some(was.(refMod := was.refMod + 1))
  }

  /** By that the back reference moves by exactly one in the direction asked for. */
  lemma {:induction false} RefMovesByOne(was: Node, action: Action)
    requires was.Ref? && was.refMod > 0
    ensures var d := if action.Add? then 1 else -1;
            match RefUpdated(was, action)
            case None => Signed(was) + d == 0
            case Some(n) => n.Ref? && n.refMod > 0 && RankOf(n) == RankOf(was) && Signed(n) == Signed(was) + d
  {
  }

  // ---------- what the books say about single nodes ----------

  lemma {:induction false} OneOfRank(s: seq<Node>, i: nat, j: nat)
    requires Ordered(s) && i < |s| && j < |s| && RankOf(s[i]) == RankOf(s[j])
    ensures i == j
  {
  }

  /** The tree holds one positive entry for each back reference whose requests do not cancel out, with exactly their
      net; and none for the others. */
  lemma {:induction false} EntryIsNet(s: seq<Node>, running: set<u64>, net: map<Rank, int>, r: Rank)
    requires TreeOk(s, running) && NetOk(s, net, r)
    ensures Count(net, r) == 0 <==> forall i | 0 <= i < |s| && s[i].Ref? :: RankOf(s[i]) != r
    ensures forall i | 0 <= i < |s| && s[i].Ref? && RankOf(s[i]) == r ::
              Signed(s[i]) == Count(net, r) && s[i].refMod > 0
    ensures forall i, j | 0 <= i < |s| && 0 <= j < |s| && RankOf(s[i]) == r && RankOf(s[j]) == r :: i == j
  {
    hide Before, RankOf, Sum;
    forall i, j | 0 <= i < |s| && 0 <= j < |s| && RankOf(s[i]) == r && RankOf(s[j]) == r
      ensures i == j
    {
      OneOfRank(s, i, j);
    }
    if i :| 0 <= i < |s| && s[i].Ref? && RankOf(s[i]) == r {
      Positive(s, running, i);
      SumSingle(s, i, OfRank(r));
    } else {
      SumZero(s, OfRank(r));
    }
  }

  lemma {:induction false} HeadMod(s: seq<Node>, k: nat)
    requires Ordered(s) && k < |s| && s[k].Head?
    ensures Sum(s, OfHead(s[k].bytenr)) == s[k].refMod
  {
    hide Before, Sum;
    forall j | 0 <= j < |s| && j != k
      ensures OfHead(s[k].bytenr)(s[j]) == 0
    {
      if s[j].Head? && s[j].bytenr == s[k].bytenr {
        SameHead(s[j], s[k]);
        OneOfRank(s, j, k);
      }
    }
    SumSingle(s, k, OfHead(s[k].bytenr));
  }

  lemma {:induction false} NoHead(s: seq<Node>, b: u64)
    requires !HasHead(s, b)
    ensures Sum(s, OfHead(b)) == 0
  {
    SumZero(s, OfHead(b));
  }

  lemma {:induction false} NothingQueued(s: seq<Node>, b: u64)
    requires NoRefs(s, b)
    ensures Sum(s, OfExtent(b)) == 0
  {
    SumZero(s, OfExtent(b));
  }

  // ---------- tree_insert ----------

  /** The descent of tree_insert: `probe` stands for the shape of the red-black tree and picks the node to compare
      with next from those still in question. */
  method Descend(nodes: seq<Node>, ins: Node, probe: (nat, nat) -> nat) returns (k: nat, found: bool)
    requires Ordered(nodes)
    ensures found ==> k < |nodes| && RankOf(nodes[k]) == RankOf(ins)
    ensures !found ==> Orderly(nodes, Insert(k, ins))
  {
    hide RankOf, Before, Compare;
    var lo, hi := 0, |nodes|;
    while lo < hi
      invariant 0 <= lo <= hi <= |nodes|
      invariant forall i | 0 <= i < lo :: Before(RankOf(nodes[i]), RankOf(ins))
      invariant forall i | hi <= i < |nodes| :: Before(RankOf(ins), RankOf(nodes[i]))
    {
      var m := lo + probe(lo, hi) % (hi - lo);
      CompareIsRank(ins, nodes[m]);
      var cmp := Compare(ins, nodes[m]);
      if cmp < 0 {
        AllAfter(nodes, m, RankOf(ins));
        hi := m;
      } else if cmp > 0 {
        AllBefore(nodes, m, RankOf(ins));
        lo := m + 1;
      } else {
        return m, true;
      }
    }
    k, found := lo, false;
  }

  lemma {:induction false} AllAfter(s: seq<Node>, m: nat, r: Rank)
    requires Ordered(s) && m < |s| && Before(r, RankOf(s[m]))
    ensures forall i | m <= i < |s| :: Before(r, RankOf(s[i]))
  {
    hide RankOf, Before;
    forall i | m <= i < |s|
      ensures Before(r, RankOf(s[i]))
    {
      if i > m {
        BeforeTransitive(r, RankOf(s[m]), RankOf(s[i]));
      }
    }
  }

  lemma {:induction false} AllBefore(s: seq<Node>, m: nat, r: Rank)
    requires Ordered(s) && m < |s| && Before(RankOf(s[m]), r)
    ensures forall i | 0 <= i <= m :: Before(RankOf(s[i]), r)
  {
    hide RankOf, Before;
    forall i | 0 <= i <= m
      ensures Before(RankOf(s[i]), r)
    {
      if i < m {
        BeforeTransitive(RankOf(s[i]), RankOf(s[m]), r);
      }
    }
  }

  /** What can be asked for one back reference. */
  datatype Request = AddRef | DropRef | AddExtent

  function ActionOf(q: Request): Action { if q.DropRef? then Drop else Add }

  function Amount(a: Action): int { if a.Add? then 1 else -1 }

  /** One call of btrfs_add_delayed_tree_ref or btrfs_add_delayed_data_ref. */
  datatype Ask = Ask(bytenr: u64, kind: Kind, request: Request, op: bool)

  /** Adds less drops among the requests that count. */
  function Net(asks: seq<Ask>, counts: Ask -> bool): int {
    if asks == [] then 0
    else
      var a := asks[|asks| - 1];
      Net(asks[..|asks| - 1], counts) + if counts(a) then Amount(ActionOf(a.request)) else 0
  }

  function ToRank(r: Rank): Ask -> bool { (a: Ask) => RankOf(Ref(a.bytenr, a.kind, ActionOf(a.request), 1)) == r }

  function ToExtent(b: u64): Ask -> bool { (a: Ask) => a.bytenr == b }

  function NewExtent(b: u64): Ask -> bool { (a: Ask) => a.bytenr == b && a.request.AddExtent? }

  function WithOp(b: u64): Ask -> bool { (a: Ask) => a.bytenr == b && a.op }

  ghost predicate Any(asks: seq<Ask>, p: Ask -> bool) { exists i :: 0 <= i < |asks| && p(asks[i]) }

  lemma {:induction false} AnyMore(asks: seq<Ask>, a: Ask, p: Ask -> bool)
    ensures Any(asks + [a], p) <==> Any(asks, p) || p(a)
  {
    var more := asks + [a];
    if i :| 0 <= i < |asks| && p(asks[i]) {
      assert p(more[i]);
    }
    if p(a) {
      assert p(more[|asks|]);
    }
    if i :| 0 <= i < |more| && p(more[i]) {
      assert i < |asks| ==> p(asks[i]);
    }
  }

  /** The extent has a head if it had one or something was asked for it; it must be inserted if it had to be or was
      asked to be, and has an extent op if it had one or was given one; nobody picks it on the way. */
  ghost predicate HeadAsAsked(h0: seq<Node>, h: seq<Node>, asks: seq<Ask>, b: u64) {
    && (h != [] <==> h0 != [] || Any(asks, ToExtent(b)))
    && (h != [] ==> |h| == 1 && h[0].Head? && h[0].bytenr == b)
    && (h0 != [] ==> h0[0].Head?)
    && (h != [] ==>
          && (h[0].mustInsert <==> (h0 != [] && h0[0].mustInsert) || Any(asks, NewExtent(b)))
          && (h[0].hasOp <==> (h0 != [] && h0[0].hasOp) || Any(asks, WithOp(b)))
          && (h[0].clustered <==> h0 != [] && h0[0].clustered))
  }

  lemma {:induction false} AskedOnce(h0: seq<Node>, h: seq<Node>, asks: seq<Ask>, b: u64, a: Ask)
    requires HeadAsAsked(h0, h, asks, b)
    ensures var h' := [HeadAfter(h, b, Amount(ActionOf(a.request)), a.request.AddExtent?, a.op)];
            HeadAsAsked(h0, if a.bytenr == b then h' else h, asks + [a], b)
  {
    AnyMore(asks, a, ToExtent(b));
    AnyMore(asks, a, NewExtent(b));
    AnyMore(asks, a, WithOp(b));
  }

  lemma {:induction false} OneMoreAsked(before: seq<Node>, s: seq<Node>, t: seq<Node>, asks: seq<Ask>, a: Ask)
    requires forall b :: HeadAsAsked(HeadOf(before, b), HeadOf(s, b), asks, b)
    requires var d := Amount(ActionOf(a.request));
             HeadOf(t, a.bytenr) == [HeadAfter(HeadOf(s, a.bytenr), a.bytenr, d, a.request.AddExtent?, a.op)]
    requires Without(t, a.bytenr) == Without(s, a.bytenr)
    ensures forall b :: HeadAsAsked(HeadOf(before, b), HeadOf(t, b), asks + [a], b)
  {
    hide HeadAsAsked, HeadOf, HeadAfter, Without;
    forall b
      ensures HeadAsAsked(HeadOf(before, b), HeadOf(t, b), asks + [a], b)
    {
      AskedOnce(HeadOf(before, b), HeadOf(s, b), asks, b, a);
      if b != a.bytenr {
        HeadElsewhere(s, t, a.bytenr, b);
      }
    }
  }

  lemma {:induction false} NothingAsked(s: seq<Node>, running: set<u64>, b: u64)
    requires TreeOk(s, running)
    ensures HeadAsAsked(HeadOf(s, b), HeadOf(s, b), [], b)
  {
    hide Chosen, TreeOk, Before, RankOf;
    OrderOf(s, running);
    if HasHead(s, b) {
      var k :| 0 <= k < |s| && s[k].Head? && s[k].bytenr == b;
      HeadIs(s, k);
    } else {
      NothingOwed(s, b);
    }
  }

  class Root {
    var nodes: seq<Node>
    var numEntries: int
    var numHeadsReady: int
    var runStart: u64
    /** Extents whose head mutex a runner holds. */
    var running: set<u64>
    /** The extent tree: reference counts on disk. */
    var disk: map<u64, int>
    /** What is queued for each back reference. */
    ghost var net: map<Rank, int>
    /** The count each extent comes to once everything asked for is done. */
    ghost var truth: map<u64, int>

    ghost predicate Counted()
      reads this
    {
      TreeOk(nodes, running) && numEntries == |nodes| && numHeadsReady == Sum(nodes, ReadyHead())
    }

    ghost predicate Valid()
      reads this
    {
      Counted() && Books(nodes, net, disk, truth, running, 0, 0)
    }

    constructor (onDisk: map<u64, int>)
      ensures Valid() && nodes == [] && disk == onDisk && running == {} && net == map[] && truth == onDisk
    {
      nodes, numEntries, numHeadsReady, runStart, running, disk := [], 0, 0, 0, {}, onDisk;
      net, truth := map[], onDisk;
      new;
      assert forall b :: TruthOk(nodes, disk, truth, b);
    }

    /** add_delayed_ref_head, with count_mod `d`. */
    method AddHead(b: u64, d: int, must: bool, op: bool, probe: (nat, nat) -> nat) returns (ghost e: Edit)
      requires Valid()
      modifies `nodes, `numEntries, `numHeadsReady
      ensures Fits(old(nodes), e) && nodes == Edited(old(nodes), e)
      ensures match e
              case Insert(_, n) => n == Head(b, d, must, op, false)
              case Update(k, n) => old(nodes[k]).Head? && n == HeadUpdated(old(nodes[k]), d, must, op)
              case Delete(_) => false
      ensures HeadOf(nodes, b) == [HeadAfter(HeadOf(old(nodes), b), b, d, must, op)]
              && Without(nodes, b) == Without(old(nodes), b)
      ensures Counted() && HasHead(nodes, b) && Books(nodes, net, disk, truth, running, b, d)
    {
      hide Sum, Edited, Delta, OfRank, OfExtent, OfHead, ReadyHead, TreeOk, Books, RankOf, HeadEffect, Before, HeadOf,
           Without;
      BooksAnywhere(nodes, net, disk, truth, running, 0, b);
      OrderOf(nodes, running);
      var head := Head(b, d, must, op, false);
      var k, found := Descend(nodes, head, probe);
      if found {
        SameRankSameExtent(nodes[k], head);
        e := Update(k, HeadUpdated(nodes[k], d, must, op));
        HeadChanged(nodes, k, HeadUpdated(nodes[k], d, must, op), d);
        SameHead(nodes[k], HeadUpdated(nodes[k], d, must, op));
        BooksHead(nodes, e, b, d, 0, net, disk, truth, running);
        TreeEdited(nodes, e, running);
        NewHead(nodes, e, b);
        HeadReplaced(nodes, k, HeadUpdated(nodes[k], d, must, op), running);
        WithoutEdited(nodes, e, b);
        SplicedUpdate(nodes, k, HeadUpdated(nodes[k], d, must, op));
        nodes := nodes[..k] + [HeadUpdated(nodes[k], d, must, op)] + nodes[k + 1..];
      } else {
        e := Insert(k, head);
        HeadInserted(nodes, k, b, d, must, op);
        BooksHead(nodes, e, b, d, 1, net, disk, truth, running);
        TreeEdited(nodes, e, running);
        NewHead(nodes, e, b);
        HeadAdded(nodes, k, head, running);
        WithoutEdited(nodes, e, b);
        SplicedInsert(nodes, k, head);
        nodes, numEntries, numHeadsReady := nodes[..k] + [head] + nodes[k..], numEntries + 1, numHeadsReady + 1;
      }
    }

    /** add_delayed_tree_ref and add_delayed_data_ref, with update_existing_ref. */
    method AddRefNode(b: u64, kind: Kind, action: Action, probe: (nat, nat) -> nat)
      requires Counted() && HasHead(nodes, b) && Books(nodes, net, disk, truth, running, b, Amount(action))
      modifies `nodes, `numEntries, `net, `truth
      ensures Valid()
      ensures net == old(net)[RankOf(Ref(b, kind, action, 1)) := Count(old(net),
              RankOf(Ref(b, kind, action, 1))) + Amount(action)]
      ensures truth == old(truth)[b := Count(old(truth), b) + Amount(action)]
      ensures HeadOf(nodes, b) == HeadOf(old(nodes), b) && Without(nodes, b) == Without(old(nodes), b)
    {
      hide Sum, Edited, Delta, OfRank, OfExtent, OfHead, ReadyHead, TreeOk, Books, RankOf, RefEffect, Before, HasHead,
           Count, HeadOf, Without;
      OrderOf(nodes, running);
      var ref := Ref(b, kind, action, 1);
      var k, found := Descend(nodes, ref, probe);
      ghost var e;
      if found {
        SameRankSameExtent(nodes[k], ref);
        Positive(nodes, running, k);
        RefMovesByOne(nodes[k], action);
        match RefUpdated(nodes[k], action)
        case None =>
          e := Delete(k);
          RefGone(nodes, k);
          SplicedDelete(nodes, k);
          TreeEdited(nodes, e, running);
          BooksRef(nodes, e, RankOf(ref), b, Amount(action), net, disk, truth, running);
          HeadsKept(nodes, e, b);
          nodes, numEntries := nodes[..k] + nodes[k + 1..], numEntries - 1;
        case Some(n) =>
          e := Update(k, n);
          RefChanged(nodes, k, n);
          SplicedUpdate(nodes, k, n);
          TreeEdited(nodes, e, running);
          BooksRef(nodes, e, RankOf(ref), b, Amount(action), net, disk, truth, running);
          HeadsKept(nodes, e, b);
          nodes := nodes[..k] + [n] + nodes[k + 1..];
      } else {
        e := Insert(k, ref);
        RefInserted(nodes, k, ref);
        SplicedInsert(nodes, k, ref);
        TreeEdited(nodes, e, running);
        BooksRef(nodes, e, RankOf(ref), b, Amount(action), net, disk, truth, running);
        HeadsKept(nodes, e, b);
        nodes, numEntries := nodes[..k] + [ref] + nodes[k..], numEntries + 1;
      }
      net, truth := net[RankOf(ref) := Count(net, RankOf(ref)) + Amount(action)],
          truth[b := Count(truth, b) + Amount(action)];
      BooksAnywhere(nodes, net, disk, truth, running, b, 0);
    }

    /** btrfs_add_delayed_tree_ref and btrfs_add_delayed_data_ref. */
    method Queue(b: u64, kind: Kind, q: Request, op: bool, probe: (nat, nat) -> nat)
      requires Valid()
      modifies `nodes, `numEntries, `numHeadsReady, `net, `truth
      ensures Valid()
      ensures var r, d := RankOf(Ref(b, kind, ActionOf(q), 1)), Amount(ActionOf(q));
              net == old(net)[r := Count(old(net), r) + d] && truth == old(truth)[b := Count(old(truth), b) + d]
      ensures HeadOf(nodes, b) == [HeadAfter(HeadOf(old(nodes), b), b, Amount(ActionOf(q)), q.AddExtent?, op)]
              && Without(nodes, b) == Without(old(nodes), b)
    {
      hide HeadOf, Without, Books, TreeOk, HasHead;
      ghost var e := AddHead(b, Amount(ActionOf(q)), q.AddExtent?, op, probe);
      AddRefNode(b, kind, ActionOf(q), probe);
    }

    /** Any sequence of requests: each back reference is queued with the net of its requests, and each extent is to
        come to what it was and the net of all of its. */
    method QueueAll(asks: seq<Ask>, probe: (nat, nat) -> nat)
      requires Valid()
      modifies `nodes, `numEntries, `numHeadsReady, `net, `truth
      ensures Valid()
      ensures forall r :: Count(net, r) == old(Count(net, r)) + Net(asks, ToRank(r))
      ensures forall b :: Count(truth, b) == old(Count(truth, b)) + Net(asks, ToExtent(b))
      ensures forall b :: HeadAsAsked(HeadOf(old(nodes), b), HeadOf(nodes, b), asks, b)
    {
      hide Valid, RankOf, HeadOf, HeadAsAsked, HeadAfter, Without;
      var i := 0;
      assert asks[..0] == [];
      UntouchedHeads();
      while i < |asks|
        invariant 0 <= i <= |asks| && Valid()
        invariant forall b :: HeadAsAsked(HeadOf(old(nodes), b), HeadOf(nodes, b), asks[..i], b)
        invariant forall r :: Count(net, r) == old(Count(net, r)) + Net(asks[..i], ToRank(r))
        invariant forall b :: Count(truth, b) == old(Count(truth, b)) + Net(asks[..i], ToExtent(b))
      {
        ghost var was := nodes;
        Queue(asks[i].bytenr, asks[i].kind, asks[i].request, asks[i].op, probe);
        assert asks[..i + 1][..i] == asks[..i];
        assert asks[..i + 1] == asks[..i] + [asks[i]];
        OneMoreAsked(old(nodes), was, nodes, asks[..i], asks[i]);
        i := i + 1;
      }
      assert asks[..|asks|] == asks;
    }

    lemma {:induction false} UntouchedHeads()
      requires Valid()
      ensures forall b :: HeadAsAsked(HeadOf(nodes, b), HeadOf(nodes, b), [], b)
    {
      hide HeadOf, HeadAsAsked;
      forall b
        ensures HeadAsAsked(HeadOf(nodes, b), HeadOf(nodes, b), [], b)
      {
        NothingAsked(nodes, running, b);
      }
    }

    /** btrfs_add_delayed_extent_op: nothing is added or dropped. */
    method QueueOp(b: u64, probe: (nat, nat) -> nat)
      requires Valid()
      modifies `nodes, `numEntries, `numHeadsReady
      ensures Valid() && HasHead(nodes, b)
      ensures HeadOf(nodes, b) == [HeadAfter(HeadOf(old(nodes), b), b, 0, false, true)]
              && Without(nodes, b) == Without(old(nodes), b)
    {
      hide Counted, Books, HasHead, HeadOf, Without;
      ghost var e := AddHead(b, 0, false, true, probe);
      BooksAnywhere(nodes, net, disk, truth, running, b, 0);
    }

    /** btrfs_lookup_extent_info, once it has the head's mutex: what is on disk and what the head says is still to
        come make the count everything asked for amounts to. */
    method LookupRefs(b: u64, probe: (nat, nat) -> nat) returns (refs: int)
      requires Valid() && b !in running
      ensures refs == Count(truth, b)
    {
      hide Sum, OfExtent, OfHead, OfRank, Before, ReadyHead, RefOk, RunningOk;
      refs := Count(disk, b);
      assert TruthOk(nodes, disk, truth, b) && HeadSums(nodes, b, 0);
      var k, found, last := FindRefHead(nodes, b, probe);
      if found {
        HeadMod(nodes, k);
        refs := refs + nodes[k].refMod;
      } else {
        NoHead(nodes, b);
      }
    }

    /** run_clustered_refs takes a head's mutex: from here on until its refs are run, it no longer says what is
        queued. */
    method BeginRun(b: u64)
      requires Valid() && RunningOk(nodes, b)
      modifies `running
      ensures Valid() && running == old(running) + {b}
    {
      running := running + {b};
    }

    /** The head's flags are taken and cleared. */
    method TakeHead(b: u64, probe: (nat, nat) -> nat) returns (k: nat, must: bool, op: bool)
      requires Valid() && b in running
      modifies `nodes
      ensures Valid() && k < |nodes| == |old(nodes)| && old(nodes[k]).Head? && nodes[k].Head? && nodes[k].bytenr == b
      ensures nodes[k].clustered && must == old(nodes[k]).mustInsert && op == old(nodes[k]).hasOp
      ensures nodes == old(nodes)[k := old(nodes[k]).(mustInsert := false, hasOp := false)]
      ensures Without(nodes, b) == Without(old(nodes), b) && Picks(nodes, b) == Picks(old(nodes), b)
      ensures HeadOf(old(nodes), b) == [old(nodes)[k]] && HeadOf(nodes, b) == [nodes[k]]
    {
      hide Sum, Edited, Delta, OfRank, OfExtent, OfHead, ReadyHead, TreeOk, Books, RankOf, HeadEffect, Before, HasHead,
           Without, HeadOf, Picks;
      OrderOf(nodes, running);
      RunningHead(nodes, running, b);
      var found, last;
      k, found, last := FindRefHead(nodes, b, probe);
      RunningClustered(nodes, running, k);
      must, op := nodes[k].mustInsert, nodes[k].hasOp;
      var n := nodes[k].(mustInsert := false, hasOp := false);
      ghost var e := Update(k, n);
      HeadChanged(nodes, k, n, 0);
      SameHead(nodes[k], n);
      BooksAnywhere(nodes, net, disk, truth, running, 0, b);
      BooksHead(nodes, e, b, 0, 0, net, disk, truth, running);
      TreeEdited(nodes, e, running);
      SplicedUpdate(nodes, k, n);
      BooksAnywhere(Edited(nodes, e), net, disk, truth, running, b, 0);
      WithoutEdited(nodes, e, b);
      HeadReplaced(nodes, k, n, running);
      PicksKept(nodes, e, b);
      nodes := nodes[..k] + [n] + nodes[k + 1..];
    }

    /** A ref leaves the tree for the extent tree. */
    method RunRef(b: u64, i: nat)
      requires Valid() && b in running && i < |nodes| && nodes[i].Ref? && nodes[i].bytenr == b
      requires nodes[i].action.Drop? ==> forall j | 0 <= j < |nodes| :: !IsQueued(nodes, j, b, Add)
      requires forall j | i < j < |nodes| :: !IsQueued(nodes, j, b, nodes[i].action)
      modifies `nodes, `numEntries, `disk, `net
      ensures Valid() && |nodes| == |old(nodes)| - 1 && Without(nodes, b) == Without(old(nodes), b)
      ensures Picks(old(nodes), b) == [old(nodes)[i]] + Picks(nodes, b) && HeadOf(nodes, b) == HeadOf(old(nodes), b)
      ensures var n := old(nodes[i]);
              && disk == old(disk)[b := Count(old(disk), b) + Signed(n)]
              && net == old(net)[RankOf(n) := Count(old(net), RankOf(n)) - Signed(n)]
              && (n.action.Drop? && Count(disk, b) == 0 && Count(truth, b) >= 0 ==> NoRefs(nodes, b))
    {
      hide Sum, Edited, Delta, OfRank, OfExtent, OfHead, ReadyHead, TreeOk, Books, RankOf, RefEffect, Before, HasHead,
           NoRefs, IsQueued, Without, Picks, HeadOf;
      ghost var e, n := Delete(i), nodes[i];
      PickedNext(nodes, i, b);
      RefGone(nodes, i);
      BooksRun(nodes, e, RankOf(n), b, Signed(n), net, disk, truth, running, 0);
      TreeEdited(nodes, e, running);
      SplicedDelete(nodes, i);
      WithoutEdited(nodes, e, b);
      if n.action.Drop? {
        StillNoAdds(nodes, i, b);
        DropsOnly(Edited(nodes, e), running, b);
      }
      disk, net := disk[b := Count(disk, b) + Signed(nodes[i])], net[RankOf(n) := Count(net, RankOf(n)) - Signed(n)];
      nodes, numEntries := nodes[..i] + nodes[i + 1..], numEntries - 1;
      TruthOf(nodes, net, disk, truth, running, b);
    }

    /** One round of run_clustered_refs on a head whose mutex is held: run one ref, adds first; or, with none left,
        run the extent op, if there is one and the extent exists; or else drop the head.  What the head carries goes
        along.  A drop can take the count to zero only when nothing at all is queued any more. */
    method RunOne(b: u64, probe: (nat, nat) -> nat) returns (work: Work)
      requires Valid() && b in running
      modifies `nodes, `numEntries, `running, `disk, `net
      ensures Valid() && running == if work.OnHead? then old(running) - {b} else old(running)
      ensures Without(nodes, b) == Without(old(nodes), b) && (work.OnHead? ==> |nodes| < |old(nodes)|)
      ensures !work.OnHead? ==>
                |nodes| < |old(nodes)| || (|nodes| == |old(nodes)| && OpsOn(nodes, b) < OpsOn(old(nodes), b))
      ensures work.OnHead? ==> NoRefs(nodes, b) && !HasHead(nodes, b) && Count(disk, b) == Count(truth, b)
      ensures !work.OnRef? ==> disk == old(disk) && net == old(net)
      ensures work.OnRef? ==>
                && work.ref in old(nodes) && work.ref.Ref? && work.ref.bytenr == b
                && disk == old(disk)[b := Count(old(disk), b) + Signed(work.ref)]
                && net == old(net)[RankOf(work.ref) := Count(old(net), RankOf(work.ref)) - Signed(work.ref)]
      ensures work.OnRef? && work.ref.action.Drop? && Count(disk, b) == 0 && Count(truth, b) >= 0 ==> NoRefs(nodes, b)
      ensures Owed(old(nodes), b) == [work] + Owed(nodes, b)
    {
      hide Sum, Edited, Delta, OfRank, OfExtent, OfHead, ReadyHead, TreeOk, Books, RankOf, HeadEffect, RefEffect,
           Before, Deliver, Owed, Picks, HeadOf;
      hide HasHead, Count, NoRefs, OpsOn, Without;
      OrderOf(nodes, running);
      var k, must, op := TakeHead(b, probe);
      OrderOf(nodes, running);
      OpTaken(old(nodes), nodes, k);
      var sel := SelectRef(nodes, k);
      if sel.Some? {
        work := OnRef(nodes[sel.value], must, op);
        RunRef(b, sel.value);
      } else {
        NothingPicked(nodes, b);
        if op && !must {
          work := OnOp;
        } else {
          BooksFinish(nodes, k, net, disk, truth, running);
          SplicedDelete(nodes, k);
          HeadlessNow(nodes, k);
          WithoutEdited(nodes, Delete(k), b);
          work := OnHead(must);
          nodes, numEntries, running := nodes[..k] + nodes[k + 1..], numEntries - 1, running - {b};
          HeadDone(nodes, b);
        }
      }
      OwedNext(old(nodes), nodes, b, old(nodes)[k], work);
    }

    /** run_clustered_refs on one head, start to end: everything owed for the extent is done, it comes to exactly the
        count LookupRefs gives for it beforehand, and other extents are left alone. */
    method RunHead(b: u64, probe: (nat, nat) -> nat) returns (work: seq<Work>)
      requires Valid() && RunningOk(nodes, b) && b !in running
      modifies `nodes, `numEntries, `running, `disk, `net
      ensures Valid() && running == old(running)
      ensures Count(disk, b) == Count(truth, b) && NoRefs(nodes, b) && !HasHead(nodes, b)
      ensures Without(nodes, b) == Without(old(nodes), b) && |nodes| < |old(nodes)|
      ensures forall b' | b' != b :: Count(disk, b') == old(Count(disk, b'))
      ensures work == Owed(old(nodes), b) && work != [] && Owed(nodes, b) == []
    {
      hide Valid, NoRefs, HasHead, OpsOn, RankOf, Without, Owed;
      BeginRun(b);
      var one := RunOne(b, probe);
      work := [one];
      while !one.OnHead?
        invariant Valid() && running == if one.OnHead? then old(running) else old(running) + {b}
        invariant one.OnHead? ==> Count(disk, b) == Count(truth, b) && NoRefs(nodes, b) && !HasHead(nodes, b)
        invariant Without(nodes, b) == Without(old(nodes), b) && |nodes| <= |old(nodes)|
                  && (one.OnHead? ==> |nodes| < |old(nodes)|)
        invariant forall b' | b' != b :: Count(disk, b') == old(Count(disk, b'))
        invariant work + Owed(nodes, b) == Owed(old(nodes), b) && work != []
        decreases !one.OnHead?, |nodes|, OpsOn(nodes, b)
      {
        one := RunOne(b, probe);
        work := work + [one];
      }
      HeadDone(nodes, b);
    }

    /** The scan of btrfs_find_ref_cluster from one node on: up to 32 heads nobody has picked, stopping at one
        somebody has. */
    method Scan(start: nat) returns (cluster: seq<u64>)
      requires Valid() && start <= |nodes|
      modifies `nodes, `numHeadsReady, `runStart
      ensures Valid() && Picked(old(nodes), nodes, cluster) && Ascending(cluster) && |cluster| <= 32
      ensures numHeadsReady == old(numHeadsReady) - |cluster|
      ensures cluster == [] ==> nodes == old(nodes) && forall i | start <= i < |nodes| :: !IsReady(nodes[i])
      ensures cluster == ScanFrom(old(nodes), start, 0)
              && runStart == if cluster == [] then old(runStart) else cluster[|cluster| - 1]
    {
      hide Valid, Scanned, Picked, Ascending, Ordered, ScanFrom;
      ValidOrder();
      cluster := [];
      var i := start;
      NothingScanned(nodes, start);
      while i < |nodes| && |cluster| < 32
        invariant start <= i <= |nodes| && Valid() && Scanned(old(nodes), nodes, start, i, cluster) && |cluster| <= 32
        invariant numHeadsReady == old(numHeadsReady) - |cluster|
        invariant runStart == if cluster == [] then old(runStart) else cluster[|cluster| - 1]
      {
        ValidOrder();
        if nodes[i].Head? && nodes[i].clustered && cluster != [] {
          break;
        }
        if IsReady(nodes[i]) {
          ScannedPick(old(nodes), nodes, start, i, cluster);
          cluster := cluster + [nodes[i].bytenr];
          Pick(i);
        } else {
          ScannedSkip(old(nodes), nodes, start, i, cluster);
        }
        i := i + 1;
      }
      ScannedAll(old(nodes), nodes, start, i, cluster);
    }

    /** One head is picked. */
    method Pick(k: nat)
      requires Valid() && k < |nodes| && IsReady(nodes[k])
      modifies `nodes, `numHeadsReady, `runStart
      ensures Valid() && nodes == old(nodes)[k := old(nodes[k]).(clustered := true)]
              && numHeadsReady == old(numHeadsReady) - 1 && runStart == old(nodes[k]).bytenr
    {
      hide Sum, Edited, Delta, OfRank, OfExtent, OfHead, ReadyHead, TreeOk, Books, RankOf, HeadEffect, Before, HasHead;
      var n := nodes[k].(clustered := true);
      ghost var e, b := Update(k, n), nodes[k].bytenr;
      HeadChanged(nodes, k, n, 0);
      SameHead(nodes[k], n);
      BooksAnywhere(nodes, net, disk, truth, running, 0, b);
      BooksHead(nodes, e, b, 0, -1, net, disk, truth, running);
      TreeEdited(nodes, e, running);
      SplicedUpdate(nodes, k, n);
      BooksAnywhere(Edited(nodes, e), net, disk, truth, running, b, 0);
      runStart := nodes[k].bytenr;
      nodes, numHeadsReady := nodes[..k] + [n] + nodes[k + 1..], numHeadsReady - 1;
    }

    lemma {:induction false} ValidOrder()
      requires Valid()
      ensures Ordered(nodes)
    {
    }

    /** btrfs_find_ref_cluster: 0 and a cluster of heads nobody else runs, or 1 and there is none. */
    method FindCluster(start: u64, probe: (nat, nat) -> nat) returns (cluster: seq<u64>, ret: int, ghost first: nat)
      requires Valid()
      modifies `nodes, `numHeadsReady, `runStart
      ensures Valid() && Picked(old(nodes), nodes, cluster) && Ascending(cluster) && |cluster| <= 32
      ensures numHeadsReady == old(numHeadsReady) - |cluster|
      ensures ret == if old(numHeadsReady) > 0 then 0 else 1
      ensures ret == 0 <==> cluster != []
      ensures StartsAt(old(nodes), first, start) && first <= |old(nodes)|
      ensures var near := ScanFrom(old(nodes), first, 0);
              cluster == if near == [] then ScanFrom(old(nodes), 0, 0) else near
      ensures runStart == if cluster == [] then old(runStart) else cluster[|cluster| - 1]
    {
      hide RankOf, Before, Valid, Picked, ScanFrom;
      ValidOrder();
      ReadyCount();
      var at := StartPlace(nodes, start, probe);
      first := at;
      cluster := Scan(at);
      if cluster == [] && start != 0 {
        cluster := Scan(0);
      }
      ReadyCount();
      ret := if cluster != [] then 0 else 1;
    }

    /** btrfs_run_delayed_refs for everything, with nobody else at work: cluster after cluster, until the tree is
        empty and every extent has the count everything asked for amounts to. */
    method RunAll(probe: (nat, nat) -> nat) returns (work: map<u64, seq<Work>>)
      requires Valid() && running == {} && ClusteredIn(nodes, [])
      modifies this
      ensures Valid() && nodes == [] && truth == old(truth) && forall b :: Count(disk, b) == Count(truth, b)
      ensures forall b :: DoneFor(work, b) == Owed(old(nodes), b)
    {
      hide Valid, NoRefs, HasHead, RankOf, Without, Picked, RunningOk, ClusteredIn, Owed;
      var ret := 0;
      work := map[];
      while ret == 0
        invariant forall b :: Owed(old(nodes), b) == if b in work then work[b] else Owed(nodes, b)
        invariant forall b | b in work :: Owed(nodes, b) == []
        invariant Valid() && running == {} && ClusteredIn(nodes, []) && truth == old(truth)
        invariant ret != 0 ==> numHeadsReady == 0
        decreases ret == 0, |nodes|
      {
        ghost var was := nodes;
        ReadyCount();
        var cluster;
        ghost var first;
        cluster, ret, first := FindCluster(runStart, probe);
        PickedIn(was, nodes, cluster);
        PickedOwes(was, nodes, cluster);
        var j := 0;
        while j < |cluster|
          invariant forall b :: Owed(old(nodes), b) == if b in work then work[b] else Owed(nodes, b)
          invariant forall b | b in work :: Owed(nodes, b) == []
          invariant 0 <= j <= |cluster| && Valid() && running == {} && truth == old(truth)
                    && ClusteredIn(nodes, cluster[j..])
          invariant forall i | j <= i < |cluster| :: RunningOk(nodes, cluster[i])
          invariant |nodes| <= |was| && (j > 0 ==> |nodes| < |was|)
          invariant ret != 0 ==> cluster == [] && numHeadsReady == 0
        {
          ghost var before := nodes;
          var b := cluster[j];
          var done := RunHead(b, probe);
          OwedStill(before, nodes, b);
          StillClustered(before, nodes, cluster, j);
          work := work[b := done];
          j := j + 1;
        }
        assert cluster[j..] == [];
      }
      ReadyCount();
      Emptied();
      forall b
        ensures DoneFor(work, b) == Owed(old(nodes), b)
      {
        NothingOwed(nodes, b);
      }
    }

    /** With no head ready, picked or running, the tree is empty. */
    lemma {:induction false} Emptied()
      requires Valid() && ClusteredIn(nodes, []) && forall i | 0 <= i < |nodes| :: !IsReady(nodes[i])
      ensures nodes == [] && forall b :: Count(disk, b) == Count(truth, b)
    {
      hide Ordered, RunningOk;
      assert nodes == [] || nodes[0].Head? || nodes[0].Ref?;
      forall i | 0 <= i < |nodes|
        ensures !nodes[i].Head?
      {
        assert nodes[i] in nodes;
      }
      forall i | 0 <= i < |nodes|
        ensures !nodes[i].Ref?
      {
        assert RefOk(nodes, i);
      }
      forall b
        ensures Count(disk, b) == Count(truth, b)
      {
        assert TruthOk(nodes, disk, truth, b);
      }
    }

    /** check_ref_cleanup: a head with nothing queued before it goes, unless somebody holds it, or an extent op for an
        existing extent hangs on it, or it is the very first node. */
    method Cleanup(b: u64, probe: (nat, nat) -> nat) returns (ret: int)
      requires Valid()
      modifies `nodes, `numEntries, `numHeadsReady
      ensures Valid()
      ensures (|nodes| == |old(nodes)| - 1 && NoRefs(nodes, b) && !HasHead(nodes, b)
               && Count(disk, b) == Count(truth, b))
              || (ret == 0 && |nodes| == |old(nodes)|)
      ensures !HasHead(old(nodes), b) ==> ret == 0 && nodes == old(nodes)
      ensures forall k | 0 <= k < |old(nodes)| && IsHeadOf(old(nodes)[k], b) ::
              CleanedAt(old(nodes), nodes, k, running, ret)
    {
      hide Sum, Edited, Delta, OfRank, OfExtent, OfHead, ReadyHead, TreeOk, Books, RankOf, Before, HasHead, NoRefs,
           Count;
      OrderOf(nodes, running);
      var k, found, last := FindRefHead(nodes, b, probe);
      if found {
        OnlyHead(nodes, k);
      } else {
        Headless(nodes, b);
      }
      if !found || k == 0 || nodes[k - 1].bytenr == b {
        return 0;
      }
      if nodes[k].hasOp && !nodes[k].mustInsert {
        return 0;
      }
      if b in running {
        DropOp(k);
        return 0;
      }
      NoneBefore(nodes, k);
      BooksFinish(nodes, k, net, disk, truth, running);
      SplicedDelete(nodes, k);
      HeadlessNow(nodes, k);
      assert running - {b} == running;
      ret := if nodes[k].mustInsert then 1 else 0;
      numHeadsReady := if nodes[k].clustered then numHeadsReady else numHeadsReady - 1;
      nodes, numEntries := nodes[..k] + nodes[k + 1..], numEntries - 1;
    }

    /** The extent op of a head that goes anyway is thrown away. */
    method DropOp(k: nat)
      requires Valid() && k < |nodes| && nodes[k].Head?
      modifies `nodes
      ensures Valid() && nodes == old(nodes)[k := old(nodes)[k].(hasOp := false)]
    {
      hide Sum, Edited, Delta, OfRank, OfExtent, OfHead, ReadyHead, TreeOk, Books, RankOf, HeadEffect, Before, HasHead;
      var n := nodes[k].(hasOp := false);
      ghost var e, b := Update(k, n), nodes[k].bytenr;
      HeadChanged(nodes, k, n, 0);
      SameHead(nodes[k], n);
      BooksAnywhere(nodes, net, disk, truth, running, 0, b);
      BooksHead(nodes, e, b, 0, 0, net, disk, truth, running);
      TreeEdited(nodes, e, running);
      SplicedUpdate(nodes, k, n);
      BooksAnywhere(Edited(nodes, e), net, disk, truth, running, b, 0);
      nodes := nodes[..k] + [n] + nodes[k + 1..];
    }

    lemma {:induction false} ReadyCount()
      requires Valid()
      ensures numHeadsReady >= 0 && (numHeadsReady == 0 <==> forall i | 0 <= i < |nodes| :: !IsReady(nodes[i]))
    {
      SumReady(nodes);
    }
  }

  lemma {:induction false} HeadIs(s: seq<Node>, k: nat)
    requires Ordered(s) && k < |s| && s[k].Head?
    ensures HeadOf(s, s[k].bytenr) == [s[k]]
  {
    hide Before, Chosen;
    OnlyHead(s, k);
    ChosenOnly(s, k, HeadFor(s[k].bytenr));
  }

  lemma {:induction false} HeadReplaced(s: seq<Node>, k: nat, n: Node, running: set<u64>)
    requires TreeOk(s, running) && k < |s| && s[k].Head? && n.Head? && n.bytenr == s[k].bytenr
    requires TreeOk(Edited(s, Update(k, n)), running)
    ensures HeadOf(s, n.bytenr) == [s[k]] && HeadOf(Edited(s, Update(k, n)), n.bytenr) == [n]
  {
    hide Edited, HeadOf, TreeOk, Before;
    OrderOf(s, running);
    OrderOf(Edited(s, Update(k, n)), running);
    HeadIs(s, k);
    NewNode(s, Update(k, n));
    HeadIs(Edited(s, Update(k, n)), k);
  }

  lemma {:induction false} HeadAdded(s: seq<Node>, k: nat, n: Node, running: set<u64>)
    requires k <= |s| && n.Head? && TreeOk(Edited(s, Insert(k, n)), running)
    ensures HeadOf(s, n.bytenr) == [] && HeadOf(Edited(s, Insert(k, n)), n.bytenr) == [n]
  {
    hide TreeOk, Before, Chosen, RankOf;
    var t, p := Edited(s, Insert(k, n)), HeadFor(n.bytenr);
    OrderOf(t, running);
    HeadIs(t, k);
    ChosenAround(t, k, p);
    assert t[..k] == s[..k] && t[k + 1..] == s[k..] && s == s[..k] + s[k..];
    ChosenConcat(s[..k], s[k..], p);
    assert |Chosen(s[..k], p)| == 0 && |Chosen(s[k..], p)| == 0;
  }

  /** Edits of refs leave the heads. */
  lemma {:induction false} HeadsKept(s: seq<Node>, e: Edit, b: u64)
    requires Fits(s, e)
    requires !e.Insert? ==> s[e.k].Ref? && s[e.k].bytenr == b
    requires !e.Delete? ==> e.n.Ref? && e.n.bytenr == b
    ensures HeadOf(Edited(s, e), b) == HeadOf(s, b) && Without(Edited(s, e), b) == Without(s, b)
  {
    ChosenKept(s, e, HeadFor(b));
    WithoutEdited(s, e, b);
  }

  lemma {:induction false} PicksKept(s: seq<Node>, e: Edit, b: u64)
    requires Fits(s, e) && (!e.Insert? ==> s[e.k].Head?) && (!e.Delete? ==> e.n.Head?)
    ensures Picks(Edited(s, e), b) == Picks(s, b)
  {
    hide Chosen, Edited, Backwards;
    ChosenKept(s, e, RefFor(b, Add));
    ChosenKept(s, e, RefFor(b, Drop));
  }

  lemma {:induction false} PickedNext(s: seq<Node>, i: nat, b: u64)
    requires i < |s| && s[i].Ref? && s[i].bytenr == b && forall j | i < j < |s| :: !IsQueued(s, j, b, s[i].action)
    requires s[i].action.Drop? ==> forall j | 0 <= j < |s| :: !IsQueued(s, j, b, Add)
    ensures Picks(s, b) == [s[i]] + Picks(Edited(s, Delete(i)), b)
    ensures HeadOf(Edited(s, Delete(i)), b) == HeadOf(s, b)
  {
    hide Edited, Picks, HeadOf;
    forall j | i < j < |s|
      ensures !RefFor(b, s[i].action)(s[j])
    {
      assert !IsQueued(s, j, b, s[i].action);
    }
    if s[i].action.Drop? {
      forall j | 0 <= j < |s|
        ensures !RefFor(b, Add)(s[j])
      {
        assert !IsQueued(s, j, b, Add);
      }
    }
    PickTaken(s, i, b);
  }

  lemma {:induction false} NothingPicked(s: seq<Node>, b: u64)
    requires NoRefs(s, b)
    ensures Picks(s, b) == []
  {
    NonePicked(s, b);
  }

  lemma {:induction false} HeadDone(s: seq<Node>, b: u64)
    requires !HasHead(s, b)
    ensures HeadOf(s, b) == [] && Owed(s, b) == []
  {
    NothingOwed(s, b);
  }

  /** One thing owed has been done. */
  lemma {:induction false} OwedNext(s: seq<Node>, t: seq<Node>, b: u64, h: Node, work: Work)
    requires HeadOf(s, b) == [h] && h.Head? && work == Next(Picks(s, b), h.mustInsert, h.hasOp)
    requires if work.OnHead? then Owed(t, b) == []
             else HeadOf(t, b) == [h.(mustInsert := false, hasOp := false)]
                  && Picks(t, b) == if work.OnRef? then Picks(s, b)[1..] else []
    ensures Owed(s, b) == [work] + Owed(t, b)
  {
    hide Chosen, Picks, HeadOf;
  }

  function DoneFor(work: map<u64, seq<Work>>, b: u64): seq<Work> { if b in work then work[b] else [] }

  lemma {:induction false} PickedOwes(s: seq<Node>, t: seq<Node>, cluster: seq<u64>)
    requires Picked(s, t, cluster)
    ensures forall b :: Owed(s, b) == Owed(t, b)
  {
    hide Owed;
    forall b
      ensures Owed(s, b) == Owed(t, b)
    {
      OwedPicked(s, t, b);
    }
  }

  lemma {:induction false} OwedStill(s: seq<Node>, t: seq<Node>, b: u64)
    requires Without(t, b) == Without(s, b)
    ensures forall c | c != b :: Owed(s, c) == Owed(t, c)
  {
    hide Owed, Without;
    forall c | c != b
      ensures Owed(s, c) == Owed(t, c)
    {
      OwedElsewhere(s, t, b, c);
    }
  }

  lemma {:induction false} HeadElsewhere(s: seq<Node>, t: seq<Node>, b: u64, c: u64)
    requires Without(s, b) == Without(t, b) && c != b
    ensures HeadOf(s, c) == HeadOf(t, c)
  {
    hide Chosen, Without;
    ChosenElsewhere(s, b, HeadFor(c));
    ChosenElsewhere(t, b, HeadFor(c));
  }

  /** An edit of one extent's node is none for the others. */
  lemma {:induction false} WithoutEdited(s: seq<Node>, e: Edit, b: u64)
    requires Fits(s, e) && (!e.Insert? ==> s[e.k].bytenr == b) && (!e.Delete? ==> e.n.bytenr == b)
    ensures Without(Edited(s, e), b) == Without(s, b)
  {
    ChosenKept(s, e, Elsewhere(b));
  }

  /** Heads that are picked are those of `cluster`. */
  ghost predicate ClusteredIn(s: seq<Node>, cluster: seq<u64>) {
    forall n | n in s && n.Head? && n.clustered :: n.bytenr in cluster
  }

  lemma {:induction false} PickedIn(s: seq<Node>, t: seq<Node>, cluster: seq<u64>)
    requires Picked(s, t, cluster) && ClusteredIn(s, [])
    ensures |s| == |t| && ClusteredIn(t, cluster) && cluster[0..] == cluster && forall i | 0 <= i < |cluster| ::
            RunningOk(t, cluster[i])
  {
    forall n | n in t && n.Head? && n.clustered
      ensures n.bytenr in cluster
    {
      var i :| 0 <= i < |t| && t[i] == n;
      assert s[i] in s;
    }
    forall i | 0 <= i < |cluster|
      ensures RunningOk(t, cluster[i])
    {
      assert cluster[i] in cluster;
      var k :| 0 <= k < |s| && IsReady(s[k]) && s[k].bytenr == cluster[i];
      assert t[k].Head? && t[k].bytenr == cluster[i] && t[k].clustered;
    }
  }

  /** Running one head of the cluster leaves the others as they are. */
  lemma {:induction false} StillClustered(s: seq<Node>, t: seq<Node>, cluster: seq<u64>, j: nat)
    requires j < |cluster| && Ascending(cluster) && ClusteredIn(s, cluster[j..])
    requires forall i | j <= i < |cluster| :: RunningOk(s, cluster[i])
    requires Without(t, cluster[j]) == Without(s, cluster[j]) && NoRefs(t, cluster[j]) && !HasHead(t, cluster[j])
    ensures ClusteredIn(t, cluster[j + 1..]) && forall i | j + 1 <= i < |cluster| :: RunningOk(t, cluster[i])
  {
    hide Without, NoRefs;
    var b := cluster[j];
    forall n | n in t && n.Head? && n.clustered
      ensures n.bytenr in cluster[j + 1..]
    {
      var i :| 0 <= i < |t| && t[i] == n;
      WithoutHas(s, b, n);
      WithoutHas(t, b, n);
      assert cluster[j..] == [b] + cluster[j + 1..];
    }
    forall i | j + 1 <= i < |cluster|
      ensures RunningOk(t, cluster[i])
    {
      assert RunningOk(s, cluster[i]);
      var k :| 0 <= k < |s| && s[k].Head? && s[k].bytenr == cluster[i] && s[k].clustered;
      assert s[k] in s;
      WithoutHas(s, b, s[k]);
      WithoutHas(t, b, s[k]);
      var k' :| 0 <= k' < |t| && t[k'] == s[k];
    }
  }

  /** `cluster` names the heads picked: nothing else about the tree changes. */
  ghost predicate Picked(s: seq<Node>, t: seq<Node>, cluster: seq<u64>) {
    && |s| == |t|
    && (forall i | 0 <= i < |s| :: t[i] == if IsReady(s[i]) && s[i].bytenr in cluster then s[i].(clustered := true)
        else s[i])
    && (forall b | b in cluster :: exists i :: 0 <= i < |s| && IsReady(s[i]) && s[i].bytenr == b)
  }

  predicate IsReady(n: Node) { n.Head? && !n.clustered }

  /** The heads picked from node i on, with `count` picked already: those nobody has, up to 32, and no further than a
      head that somebody has once there are any. */
  function ScanFrom(s: seq<Node>, i: nat, count: nat): seq<u64>
    requires i <= |s|
    decreases |s| - i
  {
    if i == |s| || count >= 32 then []
    else if !s[i].Head? then ScanFrom(s, i + 1, count)
    else if !s[i].clustered then [s[i].bytenr] + ScanFrom(s, i + 1, count + 1)
    else if count > 0 then []
    else ScanFrom(s, i + 1, count)
  }

  /** The scan is at node i and has picked `cluster`. */
  ghost predicate Scanned(was: seq<Node>, s: seq<Node>, start: nat, i: nat, cluster: seq<u64>) {
    && Picked(was, s, cluster) && Ascending(cluster) && Ordered(was) && start <= i <= |s| == |was|
    && (forall j | i <= j < |s| :: s[j] == was[j])
    && (forall j, b | i <= j < |s| && s[j].Head? && b in cluster :: b < s[j].bytenr)
    && (cluster == [] ==> s == was && forall j | start <= j < i :: !IsReady(s[j]))
    && cluster + ScanFrom(was, i, |cluster|) == ScanFrom(was, start, 0)
  }

  lemma {:induction false} NothingScanned(s: seq<Node>, start: nat)
    requires Ordered(s) && start <= |s|
    ensures Scanned(s, s, start, start, [])
  {
    hide Ordered;
  }

  lemma {:induction false} ScannedSkip(was: seq<Node>, s: seq<Node>, start: nat, i: nat, cluster: seq<u64>)
    requires Scanned(was, s, start, i, cluster) && i < |s| && |cluster| < 32
    requires !IsReady(s[i]) && !(s[i].Head? && cluster != [])
    ensures Scanned(was, s, start, i + 1, cluster)
  {
    hide Ordered, Picked, Ascending;
  }

  lemma {:induction false} ScannedPick(was: seq<Node>, s: seq<Node>, start: nat, i: nat, cluster: seq<u64>)
    requires Scanned(was, s, start, i, cluster) && Ordered(s) && i < |s| && |cluster| < 32 && IsReady(s[i])
    ensures Scanned(was, s[i := s[i].(clustered := true)], start, i + 1, cluster + [s[i].bytenr])
  {
    hide Ordered, Picked, Ascending;
    var b := s[i].bytenr;
    LaterHeads(s, i);
    PickOne(was, s, cluster, i);
    AscendingMore(cluster, b);
    assert cluster + [b] + ScanFrom(was, i + 1, |cluster| + 1) == cluster + ScanFrom(was, i, |cluster|);
  }

  lemma {:induction false} ScannedAll(was: seq<Node>, s: seq<Node>, start: nat, i: nat, cluster: seq<u64>)
    requires Scanned(was, s, start, i, cluster)
    requires i < |s| ==> |cluster| >= 32 || (s[i].Head? && s[i].clustered && cluster != [])
    ensures Picked(was, s, cluster) && Ascending(cluster) && start <= |was| && cluster == ScanFrom(was, start, 0)
    ensures cluster == [] ==> s == was && forall j | start <= j < |s| :: !IsReady(s[j])
  {
    hide Ordered, Picked, Ascending;
  }

  /** The node btrfs_find_ref_cluster starts from: the one looked at last in the search for the head of `start`, or the
      first of those before it that are of no earlier extent. */
  method StartPlace(nodes: seq<Node>, start: u64, probe: (nat, nat) -> nat) returns (first: nat)
    requires Ordered(nodes)
    ensures first <= |nodes| && StartsAt(nodes, first, start) && (start == 0 ==> first == 0)
  {
    hide RankOf, Before, Ordered;
    first := 0;
    if start != 0 {
      var k, found, last := FindRefHead(nodes, start, probe);
      if last.Some? {
        first := last.value;
        while first > 0 && nodes[first - 1].bytenr >= start
          invariant 0 <= first < |nodes|
          invariant forall j | first < j < |nodes| :: nodes[j].bytenr >= start
        {
          Together(nodes, first - 1, first);
          first := first - 1;
        }
      }
    }
    StartFound(nodes, first, start);
  }

  /** All nodes before are of extents before `start`, and all behind are not. */
  ghost predicate StartsAt(s: seq<Node>, first: nat, start: u64) {
    && (forall i | 0 <= i < first && i < |s| :: s[i].bytenr < start)
    && (forall j | first < j < |s| :: s[j].bytenr >= start)
  }

  lemma {:induction false} StartFound(s: seq<Node>, first: nat, start: u64)
    requires Ordered(s) && first <= |s| && (first > 0 ==> s[first - 1].bytenr < start)
    requires forall j | first < j < |s| :: s[j].bytenr >= start
    ensures StartsAt(s, first, start)
  {
    hide Before, RankOf, Ordered;
    forall i | 0 <= i < first
      ensures s[i].bytenr < start
    {
      Together(s, i, first - 1);
    }
  }

  ghost predicate Ascending(cluster: seq<u64>) { forall i, j | 0 <= i < j < |cluster| :: cluster[i] < cluster[j] }

  lemma {:induction false} LaterHeads(s: seq<Node>, k: nat)
    requires Ordered(s) && k < |s| && s[k].Head?
    ensures forall j | k < j < |s| :: s[k].bytenr < s[j].bytenr
  {
    hide Before, RankOf;
    forall j | k < j < |s|
      ensures s[k].bytenr < s[j].bytenr
    {
      AroundHead(s, k, j);
    }
  }

  lemma {:induction false} AscendingMore(cluster: seq<u64>, b: u64)
    requires Ascending(cluster) && forall c | c in cluster :: c < b
    ensures Ascending(cluster + [b])
  {
    assert forall i | 0 <= i < |cluster| :: cluster[i] in cluster;
  }

  lemma {:induction false} PickOne(s: seq<Node>, t: seq<Node>, cluster: seq<u64>, k: nat)
    requires Ordered(s) && Picked(s, t, cluster) && k < |t| && IsReady(t[k]) && t[k].bytenr !in cluster
    ensures Picked(s, t[k := t[k].(clustered := true)], cluster + [t[k].bytenr])
  {
    hide Before, RankOf;
    var t', cluster', b := t[k := t[k].(clustered := true)], cluster + [t[k].bytenr], t[k].bytenr;
    assert s[k] == t[k];
    forall i | 0 <= i < |s|
      ensures t'[i] == if IsReady(s[i]) && s[i].bytenr in cluster' then s[i].(clustered := true) else s[i]
    {
      if i != k && s[i].Head? && s[i].bytenr == b {
        SameHead(s[i], s[k]);
        OneOfRank(s, i, k);
      }
    }
    forall b' | b' in cluster'
      ensures exists i :: 0 <= i < |s| && IsReady(s[i]) && s[i].bytenr == b'
    {
      assert b' == b ==> IsReady(s[k]) && s[k].bytenr == b';
    }
  }

  lemma {:induction false} SumReady(s: seq<Node>)
    ensures Sum(s, ReadyHead()) >= 0
    ensures Sum(s, ReadyHead()) == 0 <==> forall i | 0 <= i < |s| :: !IsReady(s[i])
  {
    if s != [] {
      var t := s[..|s| - 1];
      SumReady(t);
      assert forall i | 0 <= i < |t| :: t[i] == s[i];
      assert s[|s| - 1] == s[|s| - 1];
    }
  }

  predicate IsHeadOf(n: Node, b: u64) { n.Head? && n.bytenr == b }

  /** check_ref_cleanup removes the head at k: it is not the first node, no ref of its extent is before it, it has
      no extent op for an extent that exists, and nobody runs it. */
  predicate Removable(s: seq<Node>, k: nat, running: set<u64>)
    requires k < |s|
  {
    s[k].Head? && k > 0 && s[k - 1].bytenr != s[k].bytenr && (s[k].hasOp ==> s[k].mustInsert) && s[k].bytenr !in running
  }

  /** What check_ref_cleanup makes of a tree with the extent's head at k: the head goes if and only if it can, and 1
      says that the extent was never on disk; a head that only runs loses its extent op. */
  ghost predicate CleanedAt(s: seq<Node>, s': seq<Node>, k: nat, running: set<u64>, ret: int)
    requires k < |s| && s[k].Head?
  {
    if Removable(s, k, running) then s' == s[..k] + s[k + 1..] && ret == if s[k].mustInsert then 1 else 0
    else if Removable(s, k, {}) then s' == s[k := s[k].(hasOp := false)] && ret == 0
    else s' == s && ret == 0
  }

  lemma {:induction false} OnlyHead(s: seq<Node>, k: nat)
    requires Ordered(s) && k < |s| && s[k].Head?
    ensures forall j | 0 <= j < |s| && IsHeadOf(s[j], s[k].bytenr) :: j == k
    ensures HasHead(s, s[k].bytenr)
  {
    hide Before;
    forall j | 0 <= j < |s| && IsHeadOf(s[j], s[k].bytenr)
      ensures j == k
    {
      SameHead(s[j], s[k]);
      OneOfRank(s, j, k);
    }
  }

  lemma {:induction false} Headless(s: seq<Node>, b: u64)
    requires !HasHead(s, b)
    ensures forall j | 0 <= j < |s| :: !IsHeadOf(s[j], b)
  {
  }

  lemma {:induction false} NoneBefore(s: seq<Node>, k: nat)
    requires Ordered(s) && 0 < k < |s| && s[k].Head? && s[k - 1].bytenr != s[k].bytenr
    ensures NoRefs(s, s[k].bytenr)
  {
    hide Before, RankOf;
    AroundHead(s, k, k - 1);
    forall i | 0 <= i < |s| && s[i].Ref?
      ensures s[i].bytenr != s[k].bytenr
    {
      if i > k {
        AroundHead(s, k, i);
      } else if i < k {
        Together(s, i, k - 1);
      }
    }
  }

  lemma {:induction false} RunningHead(s: seq<Node>, running: set<u64>, b: u64)
    requires TreeOk(s, running) && b in running
    ensures HasHead(s, b)
  {
    assert RunningOk(s, b);
  }

  lemma {:induction false} RunningClustered(s: seq<Node>, running: set<u64>, k: nat)
    requires TreeOk(s, running) && k < |s| && s[k].Head? && s[k].bytenr in running
    ensures s[k].clustered
  {
    hide Before, RankOf;
    assert RunningOk(s, s[k].bytenr);
    var j :| 0 <= j < |s| && s[j].Head? && s[j].bytenr == s[k].bytenr && s[j].clustered;
    SameHead(s[j], s[k]);
    OneOfRank(s, j, k);
  }

  lemma {:induction false} StillNoAdds(s: seq<Node>, i: nat, b: u64)
    requires i < |s| && forall j | 0 <= j < |s| :: !IsQueued(s, j, b, Add)
    ensures forall j | 0 <= j < |Edited(s, Delete(i))| :: !IsQueued(Edited(s, Delete(i)), j, b, Add)
  {
    hide Edited;
    var t := Edited(s, Delete(i));
    forall j | 0 <= j < |t|
      ensures !IsQueued(t, j, b, Add)
    {
      var j' := MovedFrom(s, Delete(i), j);
      assert !IsQueued(s, j', b, Add);
    }
  }

  lemma {:induction false} TruthOf(nodes: seq<Node>, net: map<Rank, int>, disk: map<u64, int>, truth: map<u64, int>,
                                   running: set<u64>, b: u64)
    requires Books(nodes, net, disk, truth, running, 0, 0)
    ensures Count(disk, b) + Sum(nodes, OfExtent(b)) == Count(truth, b)
  {
    assert TruthOk(nodes, disk, truth, b);
  }

  lemma {:induction false} OpTaken(s: seq<Node>, t: seq<Node>, k: nat)
    requires Ordered(s) && k < |s| && s[k].Head? && t == s[k := s[k].(mustInsert := false, hasOp := false)]
    ensures OpsOn(t, s[k].bytenr) == 0 && (s[k].hasOp ==> OpsOn(s, s[k].bytenr) == 1)
  {
    hide Before, RankOf;
    forall j | 0 <= j < |t| && t[j].Head? && t[j].bytenr == s[k].bytenr
      ensures !t[j].hasOp
    {
      if j != k {
        SameHead(s[j], s[k]);
        OneOfRank(s, j, k);
      }
    }
  }

  /** Whether an extent op hangs on the head of b. */
  ghost function OpsOn(s: seq<Node>, b: u64): nat {
    if exists j :: 0 <= j < |s| && s[j].Head? && s[j].bytenr == b && s[j].hasOp then 1 else 0
  }

  lemma {:induction false} HeadlessNow(s: seq<Node>, k: nat)
    requires Ordered(s) && k < |s| && s[k].Head? && NoRefs(s, s[k].bytenr)
    ensures !HasHead(Edited(s, Delete(k)), s[k].bytenr) && NoRefs(Edited(s, Delete(k)), s[k].bytenr)
  {
    hide Edited, Before, RankOf;
    var t, b := Edited(s, Delete(k)), s[k].bytenr;
    forall i | 0 <= i < |t|
      ensures t[i].bytenr != b
    {
      var j := MovedFrom(s, Delete(k), i);
      AroundHead(s, k, j);
    }
  }

  // ---------- select_delayed_ref ----------

  /** Nodes after a head belong to later extents, and those of its own extent lie together right before it. */
  lemma {:induction false} AroundHead(s: seq<Node>, k: nat, i: nat)
    requires Ordered(s) && k < |s| && s[k].Head? && i < |s| && i != k
    ensures i > k ==> s[i].bytenr > s[k].bytenr
    ensures i < k ==> s[i].bytenr < s[k].bytenr || (s[i].bytenr == s[k].bytenr && s[i].Ref?)
  {
  }

  lemma {:induction false} Together(s: seq<Node>, i: nat, j: nat)
    requires Ordered(s) && i <= j < |s|
    ensures s[i].bytenr <= s[j].bytenr
  {
  }

  /** One walk back from the head for refs of one action. */
  method WalkBack(nodes: seq<Node>, k: nat, action: Action) returns (sel: Option<nat>)
    requires Ordered(nodes) && k < |nodes| && nodes[k].Head?
    ensures sel.Some? ==>
              && sel.value < |nodes| && IsQueued(nodes, sel.value, nodes[k].bytenr, action)
              && forall j | sel.value < j < |nodes| :: !IsQueued(nodes, j, nodes[k].bytenr, action)
    ensures sel.None? ==> forall i | 0 <= i < |nodes| :: !IsQueued(nodes, i, nodes[k].bytenr, action)
  {
    hide Before, RankOf;
    forall j | k <= j < |nodes|
      ensures !IsQueued(nodes, j, nodes[k].bytenr, action)
    {
      if j > k {
        AroundHead(nodes, k, j);
      }
    }
    var i := k;
    while i > 0
      invariant 0 <= i <= k
      invariant forall j | i <= j < |nodes| :: !IsQueued(nodes, j, nodes[k].bytenr, action)
    {
      AroundHead(nodes, k, i - 1);
      if nodes[i - 1].bytenr != nodes[k].bytenr {
        forall j | 0 <= j < i
          ensures !IsQueued(nodes, j, nodes[k].bytenr, action)
        {
          Together(nodes, j, i - 1);
        }
        return None;
      }
      if nodes[i - 1].action == action {
        return Some(i - 1);
      }
      i := i - 1;
    }
    sel := None;
  }

  ghost predicate IsQueued(nodes: seq<Node>, i: nat, b: u64, action: Action)
    requires i < |nodes|
  {
    nodes[i].Ref? && nodes[i].bytenr == b && nodes[i].action == action
  }

  /** select_delayed_ref: adds before drops. */
  method SelectRef(nodes: seq<Node>, k: nat) returns (sel: Option<nat>)
    requires Ordered(nodes) && k < |nodes| && nodes[k].Head?
    ensures sel.None? <==> NoRefs(nodes, nodes[k].bytenr)
    ensures sel.Some? ==> sel.value < |nodes| && nodes[sel.value].Ref? && nodes[sel.value].bytenr == nodes[k].bytenr
    ensures sel.Some? && nodes[sel.value].action.Drop? ==>
            forall i | 0 <= i < |nodes| :: !IsQueued(nodes, i, nodes[k].bytenr, Add)
    ensures sel.Some? ==>
            forall j | sel.value < j < |nodes| :: !IsQueued(nodes, j, nodes[k].bytenr, nodes[sel.value].action)
  {
    hide Before, RankOf, Ordered;
    sel := WalkBack(nodes, k, Add);
    if sel.None? {
      ghost var b := nodes[k].bytenr;
      sel := WalkBack(nodes, k, Drop);
      if sel.None? {
        forall i | 0 <= i < |nodes| && nodes[i].Ref?
          ensures nodes[i].bytenr != b
        {
          assert !IsQueued(nodes, i, b, Add) && !IsQueued(nodes, i, b, Drop);
        }
      }
    }
  }

  /** Drops only: what is queued is not positive, and nothing is queued if it comes to zero. */
  lemma {:induction false} DropsOnly(s: seq<Node>, running: set<u64>, b: u64)
    requires TreeOk(s, running) && forall i | 0 <= i < |s| :: !IsQueued(s, i, b, Add)
    ensures Sum(s, OfExtent(b)) <= 0 && (Sum(s, OfExtent(b)) == 0 <==> NoRefs(s, b))
  {
    hide Ordered, RunningOk;
    forall i | 0 <= i < |s|
      ensures OfExtent(b)(s[i]) <= 0 && (OfExtent(b)(s[i]) == 0 <==> !(s[i].Ref? && s[i].bytenr == b))
    {
      assert RefOk(s, i) && !IsQueued(s, i, b, Add);
    }
    SumNegative(s, OfExtent(b));
    if NoRefs(s, b) {
      SumZero(s, OfExtent(b));
    }
  }

  // ---------- running a head ----------

  /** No refs left: with the head gone, the extent is no longer running and its count is settled. */
  lemma {:induction false} BooksFinish(s: seq<Node>, k: nat, net: map<Rank, int>, disk: map<u64, int>, truth: map<u64,
                                       int>, running: set<u64>)
    requires Books(s, net, disk, truth, running, 0, 0) && TreeOk(s, running) && k < |s| && s[k].Head?
             && NoRefs(s, s[k].bytenr)
    ensures Books(Edited(s, Delete(k)), net, disk, truth, running - {s[k].bytenr}, 0, 0)
    ensures TreeOk(Edited(s, Delete(k)), running - {s[k].bytenr})
    ensures Sum(Edited(s, Delete(k)), ReadyHead()) == Sum(s, ReadyHead()) - if s[k].clustered then 0 else 1
    ensures Count(disk, s[k].bytenr) == Count(truth, s[k].bytenr)
  {
    hide Edited, Before, Sum, Delta, OfRank, OfExtent, OfHead, ReadyHead, Count, TreeOk, EditOk, HeadEffect, NoRefs;
    var b, e, running' := s[k].bytenr, Delete(k), running - {s[k].bytenr};
    OrderOf(s, running);
    NothingQueued(s, b);
    HeadMod(s, k);
    HeadGone(s, k);
    FinishTree(s, k, running);
    assert TruthOk(s, disk, truth, b);
    var d := -s[k].refMod;
    BooksAnywhere(s, net, disk, truth, running, 0, b);
    BooksHead(s, e, b, d, if s[k].clustered then 0 else -1, net, disk, truth, running);
    var t := Edited(s, e);
    SumEdited(s, e, OfExtent(b));
    SumEdited(s, e, OfHead(b));
    HeadDeltas(s, e, b, d, if s[k].clustered then 0 else -1);
    forall b' | b' !in running'
      ensures HeadSums(t, b', 0)
    {
      assert b' != b ==> HeadSums(t, b', if b' == b then d else 0);
    }
  }

  lemma {:induction false} HeadDeltas(s: seq<Node>, e: Edit, b: u64, d: int, ready: int)
    requires HeadEffect(s, e, b, d, ready)
    ensures Fits(s, e) && Delta(s, e, OfExtent(b)) == 0 && Delta(s, e, OfHead(b)) == d
  {
  }

  lemma {:induction false} FinishTree(s: seq<Node>, k: nat, running: set<u64>)
    requires TreeOk(s, running) && k < |s| && s[k].Head? && NoRefs(s, s[k].bytenr)
    ensures TreeOk(Edited(s, Delete(k)), running - {s[k].bytenr})
  {
    hide Edited, Before, RunningOk, RefOk;
    TreeEdited(s, Delete(k), running - {s[k].bytenr});
  }

  /** find_ref_head: the head of an extent; `last` is the node looked at last. */
  method FindRefHead(nodes: seq<Node>, b: u64, probe: (nat, nat) -> nat)
    returns (k: nat, found: bool, last: Option<nat>)
    requires Ordered(nodes)
    ensures found ==> k < |nodes| && nodes[k].Head? && nodes[k].bytenr == b
    ensures !found ==> !HasHead(nodes, b)
    ensures nodes != [] ==>
              && last.Some? && last.value < |nodes|
              && (forall i | 0 <= i < last.value :: nodes[i].bytenr <= b)
              && (forall i | last.value < i < |nodes| :: nodes[i].bytenr > b)
    ensures nodes == [] ==> last.None?
  {
    hide RankOf, Before;
    ghost var r := RankOf(Head(b, 0, false, false, false));
    var lo, hi := 0, |nodes|;
    last := None;
    while lo < hi
      invariant 0 <= lo <= hi <= |nodes|
      invariant forall i | 0 <= i < lo :: Before(RankOf(nodes[i]), r)
      invariant forall i | hi <= i < |nodes| :: Before(r, RankOf(nodes[i]))
      invariant if last.None? then lo == 0 && hi == |nodes|
                else last.value < |nodes| && (last.value + 1 == lo || last.value == hi)
    {
      var m := lo + probe(lo, hi) % (hi - lo);
      var entry := nodes[m];
      HeadRank(entry, b);
      last := Some(m);
      if b < entry.bytenr {
        AllAfter(nodes, m, r);
        hi := m;
      } else if b > entry.bytenr || !entry.Head? {
        AllBefore(nodes, m, r);
        lo := m + 1;
      } else {
        forall i | 0 <= i < |nodes| && i != m
          ensures if i < m then nodes[i].bytenr <= b else nodes[i].bytenr > b
        {
          AroundHead(nodes, m, i);
        }
        return m, true, last;
      }
    }
    k, found := 0, false;
    forall i | 0 <= i < |nodes|
      ensures if i < lo then nodes[i].bytenr <= b else nodes[i].bytenr > b
    {
      SideOfHead(nodes[i], b);
    }
    if j :| 0 <= j < |nodes| && nodes[j].Head? && nodes[j].bytenr == b {
      SameHead(nodes[j], Head(b, 0, false, false, false));
      NotBeforeItself(r);
    }
  }

  lemma {:induction false} NotBeforeItself(r: Rank)
    ensures !Before(r, r)
  {
  }

  lemma {:induction false} SideOfHead(n: Node, b: u64)
    ensures var r := RankOf(Head(b, 0, false, false, false));
            (Before(RankOf(n), r) ==> n.bytenr <= b) && (Before(r, RankOf(n)) ==> n.bytenr > b)
  {
  }

  lemma {:induction false} HeadRank(n: Node, b: u64)
    ensures var r := RankOf(Head(b, 0, false, false, false));
            && (b < n.bytenr ==> Before(r, RankOf(n)))
            && (b > n.bytenr || (b == n.bytenr && n.Ref?) ==> Before(RankOf(n), r))
  {
  }

  lemma {:induction false} Positive(nodes: seq<Node>, running: set<u64>, k: nat)
    requires TreeOk(nodes, running) && k < |nodes| && nodes[k].Ref?
    ensures nodes[k].refMod > 0
  {
    assert RefOk(nodes, k);
  }

  lemma {:induction false} BooksAnywhere(nodes: seq<Node>, net: map<Rank, int>, disk: map<u64, int>, truth: map<u64,
                                         int>,
                                         running: set<u64>, b0: u64, b1: u64)
    requires Books(nodes, net, disk, truth, running, b0, 0)
    ensures Books(nodes, net, disk, truth, running, b1, 0)
  {
    forall b | b !in running
      ensures HeadSums(nodes, b, 0)
    {
      assert HeadSums(nodes, b, if b == b0 then 0 else 0);
    }
  }

  lemma {:induction false} OrderOf(nodes: seq<Node>, running: set<u64>)
    requires TreeOk(nodes, running)
    ensures Ordered(nodes)
  {
  }

  lemma {:induction false} SameHead(a: Node, b: Node)
    requires a.Head? && b.Head? && a.bytenr == b.bytenr
    ensures RankOf(a) == RankOf(b)
  {
  }

  lemma {:induction false} NewHead(s: seq<Node>, e: Edit, b: u64)
    requires Fits(s, e) && !e.Delete? && e.n.Head? && e.n.bytenr == b
    ensures HasHead(Edited(s, e), b)
  {
    NewNode(s, e);
  }

  lemma {:induction false} SplicedUpdate(s: seq<Node>, k: nat, n: Node)
    requires k < |s|
    ensures s[..k] + [n] + s[k + 1..] == Edited(s, Update(k, n)) && |Edited(s, Update(k, n))| == |s|
  {
  }

  lemma {:induction false} SplicedInsert(s: seq<Node>, k: nat, n: Node)
    requires k <= |s|
    ensures s[..k] + [n] + s[k..] == Edited(s, Insert(k, n)) && |Edited(s, Insert(k, n))| == |s| + 1
  {
  }

  lemma {:induction false} SplicedDelete(s: seq<Node>, k: nat)
    requires k < |s|
    ensures s[..k] + s[k + 1..] == Edited(s, Delete(k)) && |Edited(s, Delete(k))| == |s| - 1
  {
  }
}
