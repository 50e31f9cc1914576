/** Delayed back references: the nodes of the delayed-ref tree and the order comp_entry puts them in
    (delayed-ref.c). */
module RefOrder {
  import opened Basics
  import opened Sequences

  datatype Kind =
    | TreeBlock(root: u64)
    | SharedBlock(parent: u64)
    | ExtentData(root: u64, objectid: u64, offset: u64)
    | SharedData(parent: u64, objectid: u64, offset: u64)

  datatype Action = Add | Drop

  /** A head sums up what is queued for its extent; `clustered` says it has been picked for running, `hasOp` that an
      extent op hangs on it. */
  datatype Node =
    | Head(bytenr: u64, refMod: int, mustInsert: bool, hasOp: bool, clustered: bool)
    | Ref(bytenr: u64, kind: Kind, action: Action, refMod: int)

  /** The BTRFS_*_REF_KEY numbers. */
  function TypeOf(k: Kind): int {
    match k
    case TreeBlock(_) => 176
    case ExtentData(_, _, _) => 178
    case SharedBlock(_) => 182
    case SharedData(_, _, _) => 184
  }

  function CompareNumbers(a: u64, b: u64): int { if a < b then -1 else if a > b then 1 else 0 }

  /** comp_tree_refs and comp_data_refs, on two refs of the same type; of shared data refs only the parent counts. */
  function CompareKinds(a: Kind, b: Kind): int
    requires TypeOf(a) == TypeOf(b)
  {
    match a
    case TreeBlock(root) => CompareNumbers(root, b.root)
    case SharedBlock(parent) => CompareNumbers(parent, b.parent)
    case SharedData(parent, _, _) => CompareNumbers(parent, b.parent)
    case ExtentData(root, objectid, offset) =>
      if root != b.root then CompareNumbers(root, b.root)
      else if objectid != b.objectid then CompareNumbers(objectid, b.objectid)
      else CompareNumbers(offset, b.offset)
  }

  /** comp_entry(b, a): negative if a comes first. */
  function Compare(a: Node, b: Node): int {
    if a.bytenr < b.bytenr then -1
    else if a.bytenr > b.bytenr then 1
    else if a.Head? && b.Head? then 0
    else if b.Head? then -1
    else if a.Head? then 1
    else if TypeOf(a.kind) < TypeOf(b.kind) then -1
    else if TypeOf(a.kind) > TypeOf(b.kind) then 1
    else CompareKinds(a.kind, b.kind)
  }

  // ---------- the order behind it ----------

  /** What identifies a node; refs of one extent come before its head. */
  datatype Rank = Rank(bytenr: u64, head: bool, kind: int, first: u64, second: u64, third: u64)

  function RankOf(n: Node): Rank {
    match n
    case Head(b, _, _, _, _) => Rank(b, true, 0, 0, 0, 0)
    case Ref(b, k, _, _) =>
      match k
      case TreeBlock(root) => Rank(b, false, 176, root, 0, 0)
      case ExtentData(root, objectid, offset) => Rank(b, false, 178, root, objectid, offset)
      case SharedBlock(parent) => Rank(b, false, 182, parent, 0, 0)
      case SharedData(parent, _, _) => Rank(b, false, 184, parent, 0, 0)
  }

  predicate Before(a: Rank, b: Rank) {
    if a.bytenr != b.bytenr then a.bytenr < b.bytenr
    else if a.head != b.head then b.head
    else if a.kind != b.kind then a.kind < b.kind
    else if a.first != b.first then a.first < b.first
    else if a.second != b.second then a.second < b.second
    else a.third < b.third
  }

  /** comp_entry is a strict total order, with equality exactly on nodes of the same back reference. */
  lemma {:induction false} CompareIsRank(a: Node, b: Node)
    ensures Compare(a, b) < 0 <==> Before(RankOf(a), RankOf(b))
    ensures Compare(a, b) > 0 <==> Before(RankOf(b), RankOf(a))
    ensures Compare(a, b) == 0 <==> RankOf(a) == RankOf(b)
  {
    if a.Ref? && b.Ref? && TypeOf(a.kind) == TypeOf(b.kind) {
      match a.kind
      case TreeBlock(_) =>
      case SharedBlock(_) =>
      case SharedData(_, _, _) =>
      case ExtentData(_, _, _) =>
    }
  }

  lemma {:induction false} BeforeTransitive(a: Rank, b: Rank, c: Rank)
    requires Before(a, b) && Before(b, c)
    ensures Before(a, c) && !Before(b, a)
  {
  }

  ghost predicate Ordered(s: seq<Node>) {
    forall i, j | 0 <= i < j < |s| :: Before(RankOf(s[i]), RankOf(s[j]))
  }

  // ---------- changes of one node ----------

  /** A change of one node. */
  datatype Edit = Insert(k: nat, n: Node) | Update(k: nat, n: Node) | Delete(k: nat)

  predicate Fits(s: seq<Node>, e: Edit) { if e.Insert? then e.k <= |s| else e.k < |s| }

  function Edited(s: seq<Node>, e: Edit): seq<Node>
    requires Fits(s, e)
  {
    match e
    case Insert(k, n) => s[..k] + [n] + s[k..]
    case Update(k, n) => s[..k] + [n] + s[k + 1..]
    case Delete(k) => s[..k] + s[k + 1..]
  }

  function Delta(s: seq<Node>, e: Edit, f: Node -> int): int
    requires Fits(s, e)
  {
    match e
    case Insert(_, n) => f(n)
    case Update(k, n) => f(n) - f(s[k])
    case Delete(k) => -f(s[k])
  }

  lemma {:induction false} SumEdited(s: seq<Node>, e: Edit, f: Node -> int)
    requires Fits(s, e)
    ensures Sum(Edited(s, e), f) == Sum(s, f) + Delta(s, e, f)
  {
    hide Sum;
    var k := e.k;
    if e.Insert? {
      assert s == s[..k] + s[k..];
      SumConcat(s[..k], s[k..], f);
      SumConcat(s[..k] + [e.n], s[k..], f);
      SumConcat(s[..k], [e.n], f);
      SumOne(e.n, f);
    } else {
      assert s == s[..k] + [s[k]] + s[k + 1..];
      SumConcat(s[..k] + [s[k]], s[k + 1..], f);
      SumConcat(s[..k], [s[k]], f);
      SumOne(s[k], f);
      SumConcat(s[..k], s[k + 1..], f);
      if e.Update? {
        SumConcat(s[..k] + [e.n], s[k + 1..], f);
        SumConcat(s[..k], [e.n], f);
        SumOne(e.n, f);
      }
    }
  }

  /** The edits that keep the order: in its place, of the same rank, or away. */
  ghost predicate Orderly(s: seq<Node>, e: Edit) {
    && Fits(s, e)
    && match e
       case Insert(k, n) =>
         && (forall i | 0 <= i < k :: Before(RankOf(s[i]), RankOf(n)))
         && (forall i | k <= i < |s| :: Before(RankOf(n), RankOf(s[i])))
       case Update(k, n) => RankOf(n) == RankOf(s[k])
       case Delete(_) => true
  }

  lemma {:induction false} OrderKept(s: seq<Node>, e: Edit)
    requires Ordered(s) && Orderly(s, e)
    ensures Ordered(Edited(s, e))
  {
    hide RankOf, Before;
    var t := Edited(s, e);
    forall i, j | 0 <= i < j < |t|
      ensures Before(RankOf(t[i]), RankOf(t[j]))
    {
      match e
      case Insert(k, n) =>
        assert t[i] == if i < k then s[i] else if i == k then n else s[i - 1];
        assert t[j] == if j < k then s[j] else if j == k then n else s[j - 1];
      case Update(k, n) =>
        assert t[i] == if i == k then n else s[i];
        assert t[j] == if j == k then n else s[j];
      case Delete(k) =>
        assert t[i] == if i < k then s[i] else s[i + 1];
        assert t[j] == if j < k then s[j] else s[j + 1];
    }
  }

  // ---------- what is summed ----------

  function Signed(n: Node): int {
    if n.Head? then 0 else if n.action.Add? then n.refMod else -n.refMod
  }

  /** What is queued for one back reference. */
  function OfRank(r: Rank): Node -> int { (n: Node) => if n.Ref? && RankOf(n) == r then Signed(n) else 0 }

  /** What is queued for one extent. */
  function OfExtent(b: u64): Node -> int { (n: Node) => if n.Ref? && n.bytenr == b then Signed(n) else 0 }

  /** What the head of an extent says is queued for it. */
  function OfHead(b: u64): Node -> int { (n: Node) => if n.Head? && n.bytenr == b then n.refMod else 0 }

  /** Heads not picked for running. */
  function ReadyHead(): Node -> int { (n: Node) => if n.Head? && !n.clustered then 1 else 0 }
}
