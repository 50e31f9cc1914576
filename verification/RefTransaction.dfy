/** A transaction's delayed references from the first request to the last ref run: what is done for each extent, told
    from the requests alone. */
module RefTransaction {
  import opened Basics
  import opened Sequences
  import opened RefOrder
  import opened RefRuns
  import opened DelayedRefs

  /** No two nodes stand for the same back reference. */
  ghost predicate AllDifferent(s: seq<Node>) {
    forall i, j | 0 <= i < j < |s| :: RankOf(s[i]) != RankOf(s[j])
  }

  /** The refs run for an extent: for each back reference whose requests do not cancel out, one, with their net. */
  ghost predicate NetRefs(refs: seq<Node>, asks: seq<Ask>, b: u64) {
    && AllDifferent(refs)
    && (forall n | n in refs :: n.Ref? && n.bytenr == b && n.refMod > 0 && Signed(n) == Net(asks, ToRank(RankOf(n))))
    && (forall r: Rank | r.bytenr == b && !r.head && Net(asks, ToRank(r)) != 0 :: Represented(refs, r))
  }

  ghost predicate Represented(refs: seq<Node>, r: Rank) { exists n :: n in refs && RankOf(n) == r }

  /** What was done for an extent: something exactly if it was asked for; its refs with their net; the extent inserted
      as reserved, once and first, exactly if that was asked; the extent op run, once and first, if one was given,
      unless the extent was made and nothing is left of it. */
  ghost predicate WorkAsAsked(work: seq<Work>, asks: seq<Ask>, b: u64) {
    && (work != [] <==> Any(asks, ToExtent(b)))
    && NetRefs(RefsIn(work), asks, b)
    && (forall i | 0 <= i < |work| :: work[i].OnHead? <==> i == |work| - 1)
    && (forall i | 0 <= i < |work| :: Reserves(work[i]) <==> i == 0 && Any(asks, NewExtent(b)))
    && (forall i | 0 <= i < |work| ::
          Operates(work[i]) <==> i == 0 && Any(asks, WithOp(b)) && (Any(asks, NewExtent(b)) ==> RefsIn(work) != []))
  }

  /** Any requests, queued and run: every extent comes to its count on disk and the net of its requests, and what is
      done for it on the way is what was asked. */
  method CarryOut(onDisk: map<u64, int>, asks: seq<Ask>, probe: (nat, nat) -> nat)
    returns (root: Root, work: map<u64, seq<Work>>)
    ensures root.nodes == [] && forall b :: Count(root.disk, b) == Count(onDisk, b) + Net(asks, ToExtent(b))
    ensures forall b :: WorkAsAsked(DoneFor(work, b), asks, b)
  {
    hide TreeOk, Books, HeadAsAsked, Owed, WorkAsAsked, Net, ClusteredIn, HeadOf;
    root := new Root(onDisk);
    forall b
      ensures HeadOf(root.nodes, b) == []
    {
      NothingOwed(root.nodes, b);
    }
    root.QueueAll(asks, probe);
    ghost var nodes := root.nodes;
    NobodyPicked(nodes, root.running, asks);
    forall b
      ensures WorkAsAsked(Owed(nodes, b), asks, b)
    {
      OwedAsAsked(nodes, root.running, root.net, root.disk, root.truth, asks, b);
    }
    work := root.RunAll(probe);
  }

  lemma {:induction false} NobodyPicked(s: seq<Node>, running: set<u64>, asks: seq<Ask>)
    requires TreeOk(s, running) && forall b :: HeadAsAsked([], HeadOf(s, b), asks, b)
    ensures ClusteredIn(s, [])
  {
    hide TreeOk, HeadOf, Any, Ordered;
    OrderOf(s, running);
    forall n | n in s && n.Head?
      ensures !n.clustered
    {
      var k :| 0 <= k < |s| && s[k] == n;
      HeadIs(s, k);
      assert HeadAsAsked([], HeadOf(s, n.bytenr), asks, n.bytenr);
    }
  }

  /** What is owed for an extent is what was asked for it. */
  lemma {:induction false} OwedAsAsked(s: seq<Node>, running: set<u64>, net: map<Rank, int>, disk: map<u64, int>,
                                       truth: map<u64, int>, asks: seq<Ask>, b: u64)
    requires TreeOk(s, running) && Books(s, net, disk, truth, running, 0, 0)
    requires HeadAsAsked([], HeadOf(s, b), asks, b) && forall r :: Count(net, r) == Net(asks, ToRank(r))
    ensures WorkAsAsked(Owed(s, b), asks, b)
  {
    hide TreeOk, Books, HeadOf, Picks, Net, NetRefs, Deliver, Any;
    PicksNet(s, running, net, disk, truth, asks, b);
    var h := HeadOf(s, b);
    if h == [] {
      Orphanless(s, running, b);
    } else {
      DeliveredOnce(Picks(s, b), h[0].mustInsert, h[0].hasOp);
    }
  }

  /** An extent without a head has no refs. */
  lemma {:induction false} Orphanless(s: seq<Node>, running: set<u64>, b: u64)
    requires TreeOk(s, running) && HeadOf(s, b) == []
    ensures Picks(s, b) == []
  {
    hide Ordered, Chosen, RunningOk, Picks;
    forall i | 0 <= i < |s| && s[i].Ref?
      ensures s[i].bytenr != b
    {
      assert RefOk(s, i);
      if j :| 0 <= j < |s| && s[j].Head? && s[j].bytenr == b {
        ChosenHas(s, HeadFor(b), s[j]);
      }
    }
    NonePicked(s, b);
  }

  // ---------- the refs picked ----------

  lemma {:induction false} BackwardsHas(s: seq<Node>, n: Node)
    ensures n in Backwards(s) <==> n in s
  {
    if s != [] {
      BackwardsHas(s[..|s| - 1], n);
      assert s == s[..|s| - 1] + [s[|s| - 1]];
    }
  }

  lemma {:induction false} BackwardsDiffer(s: seq<Node>)
    requires AllDifferent(s)
    ensures AllDifferent(Backwards(s))
  {
    hide RankOf;
    if s != [] {
      var t, n := s[..|s| - 1], s[|s| - 1];
      BackwardsDiffer(t);
      forall m | m in Backwards(t)
        ensures RankOf(m) != RankOf(n)
      {
        BackwardsHas(t, m);
      }
      var u := Backwards(t);
      assert forall i | 0 <= i < |u| :: u[i] in u;
    }
  }

  lemma {:induction false} ChosenDiffer(s: seq<Node>, p: Node -> bool)
    requires AllDifferent(s)
    ensures AllDifferent(Chosen(s, p))
  {
    hide RankOf;
    if s != [] {
      var t, n := s[..|s| - 1], s[|s| - 1];
      ChosenDiffer(t, p);
      var u := Chosen(t, p);
      forall i | 0 <= i < |u|
        ensures RankOf(u[i]) != RankOf(n)
      {
        ChosenHas(t, p, u[i]);
      }
    }
  }

  lemma {:induction false} OrderedDiffer(s: seq<Node>)
    requires Ordered(s)
    ensures AllDifferent(s)
  {
    hide RankOf, Before;
    forall i, j | 0 <= i < j < |s|
      ensures RankOf(s[i]) != RankOf(s[j])
    {
      NotBeforeItself(RankOf(s[i]));
    }
  }

  lemma {:induction false} PicksHas(s: seq<Node>, b: u64, n: Node)
    ensures n in Picks(s, b) <==> n in s && n.Ref? && n.bytenr == b
  {
    hide Chosen, Backwards;
    BackwardsHas(Chosen(s, RefFor(b, Add)), n);
    BackwardsHas(Chosen(s, RefFor(b, Drop)), n);
    ChosenHas(s, RefFor(b, Add), n);
    ChosenHas(s, RefFor(b, Drop), n);
  }

  lemma {:induction false} PicksDiffer(s: seq<Node>, b: u64)
    requires AllDifferent(s)
    ensures AllDifferent(Picks(s, b))
  {
    hide Chosen, Backwards, RankOf;
    var adds, drops := Chosen(s, RefFor(b, Add)), Chosen(s, RefFor(b, Drop));
    ChosenDiffer(s, RefFor(b, Add));
    ChosenDiffer(s, RefFor(b, Drop));
    BackwardsDiffer(adds);
    BackwardsDiffer(drops);
    forall n, m | n in Backwards(adds) && m in Backwards(drops)
      ensures RankOf(n) != RankOf(m)
    {
      BackwardsHas(adds, n);
      BackwardsHas(drops, m);
      ChosenHas(s, RefFor(b, Add), n);
      ChosenHas(s, RefFor(b, Drop), m);
      var i :| 0 <= i < |s| && s[i] == n;
      var j :| 0 <= j < |s| && s[j] == m;
    }
    Joined(Backwards(adds), Backwards(drops));
  }

  lemma {:induction false} Joined(s: seq<Node>, t: seq<Node>)
    requires AllDifferent(s) && AllDifferent(t) && forall n, m | n in s && m in t :: RankOf(n) != RankOf(m)
    ensures AllDifferent(s + t)
  {
    hide RankOf;
  }

  lemma {:induction false} PicksNet(s: seq<Node>, running: set<u64>, net: map<Rank, int>, disk: map<u64, int>,
                                    truth: map<u64, int>, asks: seq<Ask>, b: u64)
    requires TreeOk(s, running) && Books(s, net, disk, truth, running, 0, 0)
    requires forall r :: Count(net, r) == Net(asks, ToRank(r))
    ensures NetRefs(Picks(s, b), asks, b)
  {
    hide TreeOk, Picks, AllDifferent, Sum, Net, RankOf, TruthOk, HeadSums;
    OrderOf(s, running);
    OrderedDiffer(s);
    PicksDiffer(s, b);
    forall n | n in Picks(s, b)
      ensures n.Ref? && n.bytenr == b && n.refMod > 0 && Signed(n) == Net(asks, ToRank(RankOf(n)))
    {
      PicksHas(s, b, n);
      assert NetOk(s, net, RankOf(n));
      EntryIsNet(s, running, net, RankOf(n));
    }
    forall r: Rank | r.bytenr == b && !r.head && Net(asks, ToRank(r)) != 0
      ensures Represented(Picks(s, b), r)
    {
      assert NetOk(s, net, r);
      EntryIsNet(s, running, net, r);
      var i :| 0 <= i < |s| && s[i].Ref? && RankOf(s[i]) == r;
      RankNames(s[i]);
      PicksHas(s, b, s[i]);
    }
  }

  lemma {:induction false} RankNames(n: Node)
    ensures RankOf(n).bytenr == n.bytenr
  {
  }
}
