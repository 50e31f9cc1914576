/** What is to be done for each extent of a delayed-ref tree: its refs in the order select_delayed_ref takes them, and
    with them, once, what its head carries. */
module RefRuns {
  import opened Basics
  import opened RefOrder

  // ---------- nodes of one kind ----------

  function Chosen(s: seq<Node>, p: Node -> bool): seq<Node> {
    if s == [] then [] else Chosen(s[..|s| - 1], p) + if p(s[|s| - 1]) then [s[|s| - 1]] else []
  }

  lemma {:induction false} ChosenConcat(s: seq<Node>, t: seq<Node>, p: Node -> bool)
    ensures Chosen(s + t, p) == Chosen(s, p) + Chosen(t, p)
  {
    if t == [] {
      assert s + t == s;
    } else {
      assert (s + t)[..|s + t| - 1] == s + t[..|t| - 1];
      ChosenConcat(s, t[..|t| - 1], p);
    }
  }

  lemma {:induction false} ChosenOne(n: Node, p: Node -> bool)
    ensures Chosen([n], p) == if p(n) then [n] else []
  {
    assert [n][..0] == [];
  }

  lemma {:induction false} ChosenNone(s: seq<Node>, p: Node -> bool)
    requires forall i | 0 <= i < |s| :: !p(s[i])
    ensures Chosen(s, p) == []
  {
    if s != [] {
      ChosenNone(s[..|s| - 1], p);
    }
  }

  lemma {:induction false} ChosenHas(s: seq<Node>, p: Node -> bool, n: Node)
    ensures n in Chosen(s, p) <==> n in s && p(n)
  {
    if s != [] {
      ChosenHas(s[..|s| - 1], p, n);
      assert s == s[..|s| - 1] + [s[|s| - 1]];
    }
  }

  /** The nodes around one place. */
  lemma {:induction false} ChosenAround(s: seq<Node>, k: nat, p: Node -> bool)
    requires k < |s|
    ensures Chosen(s, p) == Chosen(s[..k], p) + (if p(s[k]) then [s[k]] else []) + Chosen(s[k + 1..], p)
  {
    hide Chosen;
    assert s == s[..k] + ([s[k]] + s[k + 1..]);
    ChosenConcat(s[..k], [s[k]] + s[k + 1..], p);
    ChosenConcat([s[k]], s[k + 1..], p);
    ChosenOne(s[k], p);
  }

  /** An edit that neither takes nor brings such a node. */
  lemma {:induction false} ChosenKept(s: seq<Node>, e: Edit, p: Node -> bool)
    requires Fits(s, e) && (!e.Insert? ==> !p(s[e.k])) && (!e.Delete? ==> !p(e.n))
    ensures Chosen(Edited(s, e), p) == Chosen(s, p)
  {
    hide Chosen;
    match e
    case Insert(k, n) =>
      assert s == s[..k] + s[k..];
      ChosenConcat(s[..k], s[k..], p);
      ChosenConcat(s[..k] + [n], s[k..], p);
      ChosenConcat(s[..k], [n], p);
      ChosenOne(n, p);
    case Update(k, n) =>
      ChosenAround(s, k, p);
      ChosenConcat(s[..k] + [n], s[k + 1..], p);
      ChosenConcat(s[..k], [n], p);
      ChosenOne(n, p);
    case Delete(k) =>
      ChosenAround(s, k, p);
      ChosenConcat(s[..k], s[k + 1..], p);
  }

  /** The only such node. */
  lemma {:induction false} ChosenOnly(s: seq<Node>, k: nat, p: Node -> bool)
    requires k < |s| && p(s[k]) && forall j | 0 <= j < |s| && j != k :: !p(s[j])
    ensures Chosen(s, p) == [s[k]]
  {
    hide Chosen;
    ChosenAround(s, k, p);
    ChosenNone(s[..k], p);
    ChosenNone(s[k + 1..], p);
  }

  /** The last such node is taken away. */
  lemma {:induction false} ChosenLast(s: seq<Node>, k: nat, p: Node -> bool)
    requires k < |s| && p(s[k]) && forall j | k < j < |s| :: !p(s[j])
    ensures Chosen(s, p) == Chosen(Edited(s, Delete(k)), p) + [s[k]]
  {
    hide Chosen;
    ChosenAround(s, k, p);
    ChosenNone(s[k + 1..], p);
    ChosenConcat(s[..k], s[k + 1..], p);
  }

  /** The nodes of other extents. */
  function Elsewhere(b: u64): Node -> bool { (n: Node) => n.bytenr != b }

  ghost function Without(s: seq<Node>, b: u64): seq<Node> { Chosen(s, Elsewhere(b)) }

  lemma {:induction false} WithoutHas(s: seq<Node>, b: u64, n: Node)
    requires n.bytenr != b
    ensures n in Without(s, b) <==> n in s
  {
    ChosenHas(s, Elsewhere(b), n);
  }

  lemma {:induction false} ChosenElsewhere(s: seq<Node>, b: u64, p: Node -> bool)
    requires forall n | p(n) :: n.bytenr != b
    ensures Chosen(Without(s, b), p) == Chosen(s, p)
  {
    if s != [] {
      var t, n := s[..|s| - 1], s[|s| - 1];
      ChosenElsewhere(t, b, p);
      if n.bytenr != b {
        assert (Without(t, b) + [n])[..|Without(t, b)|] == Without(t, b);
      } else {
        assert Without(s, b) == Without(t, b) && !p(n);
      }
    }
  }

  // ---------- what is to be done ----------

  function HeadFor(b: u64): Node -> bool { (n: Node) => n.Head? && n.bytenr == b }

  function RefFor(b: u64, action: Action): Node -> bool {
    (n: Node) => n.Ref? && n.bytenr == b && n.action == action
  }

  /** The head of an extent, if it has one. */
  function HeadOf(s: seq<Node>, b: u64): seq<Node> { Chosen(s, HeadFor(b)) }

  function Backwards(s: seq<Node>): seq<Node> {
    if s == [] then [] else [s[|s| - 1]] + Backwards(s[..|s| - 1])
  }

  /** Adds before drops, and each from the head backwards. */
  function Picks(s: seq<Node>, b: u64): seq<Node> {
    Backwards(Chosen(s, RefFor(b, Add))) + Backwards(Chosen(s, RefFor(b, Drop)))
  }

  /** What is handed on for an extent: a ref, with what the head carried; its extent op alone; or, at the end, the
      head itself. */
  datatype Work = OnRef(ref: Node, insertReserved: bool, extentOp: bool) | OnOp | OnHead(insertReserved: bool)

  function Next(picks: seq<Node>, must: bool, op: bool): Work {
    if picks != [] then OnRef(picks[0], must, op) else if op && !must then OnOp else OnHead(must)
  }

  function Deliver(picks: seq<Node>, must: bool, op: bool): seq<Work>
    decreases |picks|, op
  {
    var w := Next(picks, must, op);
    if w.OnHead? then [w] else [w] + Deliver(if picks != [] then picks[1..] else [], false, false)
  }

  /** All that is to be done for an extent. */
  function Owed(s: seq<Node>, b: u64): seq<Work> {
    var h := HeadOf(s, b);
    if h == [] || !h[0].Head? then [] else Deliver(Picks(s, b), h[0].mustInsert, h[0].hasOp)
  }

  function Reserves(w: Work): bool { !w.OnOp? && w.insertReserved }

  function Operates(w: Work): bool { w.OnOp? || (w.OnRef? && w.extentOp) }

  function RefsIn(work: seq<Work>): seq<Node> {
    if work == [] then [] else (if work[0].OnRef? then [work[0].ref] else []) + RefsIn(work[1..])
  }

  /** Every ref is handed on once, in order; the head comes last and only there; what it carries goes along once, with
      whatever comes first: must_insert_reserved always, the extent op unless the extent never was and nothing is
      left of it. */
  ghost predicate Delivered(work: seq<Work>, picks: seq<Node>, must: bool, op: bool) {
    && work != [] && RefsIn(work) == picks
    && (forall i | 0 <= i < |work| :: work[i].OnHead? <==> i == |work| - 1)
    && (forall i | 0 <= i < |work| :: Reserves(work[i]) <==> i == 0 && must)
    && (forall i | 0 <= i < |work| :: Operates(work[i]) <==> i == 0 && op && (must ==> picks != []))
  }

  lemma {:induction false} DeliveredOnce(picks: seq<Node>, must: bool, op: bool)
    ensures Delivered(Deliver(picks, must, op), picks, must, op)
    decreases |picks|, op
  {
    hide Delivered;
    var w := Next(picks, must, op);
    var rest := if picks != [] then picks[1..] else [];
    if w.OnHead? {
      LastDelivered(must, op);
    } else {
      DeliveredOnce(rest, false, false);
      OneDelivered(w, Deliver(rest, false, false), picks, must, op);
    }
  }

  lemma {:induction false} LastDelivered(must: bool, op: bool)
    requires op ==> must
    ensures Delivered([OnHead(must)], [], must, op)
  {
  }

  lemma {:induction false} OneDelivered(w: Work, rest: seq<Work>, picks: seq<Node>, must: bool, op: bool)
    requires w == Next(picks, must, op) && !w.OnHead?
    requires Delivered(rest, if picks != [] then picks[1..] else [], false, false)
    ensures Delivered([w] + rest, picks, must, op)
  {
    var work := [w] + rest;
    assert work[1..] == rest;
    assert forall i | 0 < i < |work| :: work[i] == rest[i - 1];
  }

  /** One ref is taken: the last of its kind, and a drop only if there are no adds. */
  lemma {:induction false} PickTaken(s: seq<Node>, i: nat, b: u64)
    requires i < |s| && s[i].Ref? && s[i].bytenr == b
    requires forall j | i < j < |s| :: !RefFor(b, s[i].action)(s[j])
    requires s[i].action.Drop? ==> forall j | 0 <= j < |s| :: !RefFor(b, Add)(s[j])
    ensures Picks(s, b) == [s[i]] + Picks(Edited(s, Delete(i)), b)
    ensures HeadOf(Edited(s, Delete(i)), b) == HeadOf(s, b)
  {
    hide Chosen, Edited;
    var t, a := Edited(s, Delete(i)), s[i].action;
    ChosenLast(s, i, RefFor(b, a));
    ChosenKept(s, Delete(i), RefFor(b, if a.Add? then Drop else Add));
    ChosenKept(s, Delete(i), HeadFor(b));
    var c := Chosen(t, RefFor(b, a));
    assert (c + [s[i]])[..|c|] == c;
    if a.Drop? {
      ChosenNone(s, RefFor(b, Add));
    }
  }

  lemma {:induction false} NonePicked(s: seq<Node>, b: u64)
    requires forall i | 0 <= i < |s| && s[i].Ref? :: s[i].bytenr != b
    ensures Picks(s, b) == []
  {
    hide Chosen;
    ChosenNone(s, RefFor(b, Add));
    ChosenNone(s, RefFor(b, Drop));
  }

  /** What is to be done for an extent does not depend on others. */
  lemma {:induction false} OwedElsewhere(s: seq<Node>, t: seq<Node>, b: u64, c: u64)
    requires Without(s, b) == Without(t, b) && c != b
    ensures Owed(s, c) == Owed(t, c)
  {
    hide Chosen, Without, Deliver, Backwards;
    ChosenElsewhere(s, b, HeadFor(c));
    ChosenElsewhere(t, b, HeadFor(c));
    ChosenElsewhere(s, b, RefFor(c, Add));
    ChosenElsewhere(t, b, RefFor(c, Add));
    ChosenElsewhere(s, b, RefFor(c, Drop));
    ChosenElsewhere(t, b, RefFor(c, Drop));
  }

  /** Nodes are as they were, except that heads may have been picked. */
  ghost predicate SameButPicked(s: seq<Node>, t: seq<Node>) {
    |s| == |t| && forall i | 0 <= i < |s| :: t[i] == s[i] || (s[i].Head? && t[i] == s[i].(clustered := true))
  }

  lemma {:induction false} ChosenPicked(s: seq<Node>, t: seq<Node>, p: Node -> bool)
    requires SameButPicked(s, t) && forall i | 0 <= i < |s| :: p(s[i]) == p(t[i])
    ensures SameButPicked(Chosen(s, p), Chosen(t, p))
  {
    if s != [] {
      ChosenPicked(s[..|s| - 1], t[..|t| - 1], p);
    }
  }

  lemma {:induction false} RefsPicked(s: seq<Node>, t: seq<Node>, b: u64, action: Action)
    requires SameButPicked(s, t)
    ensures Chosen(t, RefFor(b, action)) == Chosen(s, RefFor(b, action))
  {
    if s != [] {
      RefsPicked(s[..|s| - 1], t[..|t| - 1], b, action);
    }
  }

  lemma {:induction false} OwedPicked(s: seq<Node>, t: seq<Node>, b: u64)
    requires SameButPicked(s, t)
    ensures Owed(s, b) == Owed(t, b)
  {
    hide Chosen, Deliver, Backwards;
    ChosenPicked(s, t, HeadFor(b));
    RefsPicked(s, t, b, Add);
    RefsPicked(s, t, b, Drop);
  }

  lemma {:induction false} NothingOwed(s: seq<Node>, b: u64)
    requires forall i | 0 <= i < |s| :: !HeadFor(b)(s[i])
    ensures HeadOf(s, b) == [] && Owed(s, b) == []
  {
    hide Chosen;
    ChosenNone(s, HeadFor(b));
  }
}
