/** The length an entry carries is that of the last write to its page, not of the one that reached furthest: when the
    two agree, and what is handed over when they do not. */
module ShortWrites {
  import opened Basics
  import opened LogEntry
  import opened LogImage
  import opened LogView
  import opened LogKinds
  import opened LogLengths
  import opened AdaLog
  import opened AdaRun

  /** How far each unflushed entry's page has been written since the entry was made, after one more event. */
  function ReachedBy(b: Books, r: seq<int>, e: Event): seq<int> {
    match e
    case Wrote(key, offset, data) =>
      var k := LastAt(b.entries, key);
      if OfPage(key) !in b.Active() then r + [offset + |data|]
      else if 0 <= k < |r| then r[k := Max(r[k], offset + |data|)] else r
    case Made(_) => r + [0]
    case Sealed => r
    case Flushed(t) =>
      if b.Ok() && t < |b.ends| && b.ends[0] <= b.ends[t] <= b.ends[0] + |r| then r[b.ends[t] - b.ends[0]..] else r
  }

  function Reached(t: Trace, r: seq<int>, op: Op): seq<int> {
    var events := Step(t, op).events;
    if |events| > |t.events| then ReachedBy(t.books, r, events[|events| - 1]) else r
  }

  function Reach(ops: seq<Op>): seq<int> {
    if ops == [] then [] else Reached(TraceOf(ops[..|ops| - 1]), Reach(ops[..|ops| - 1]), ops[|ops| - 1])
  }

  /** A write to an active page that ends before the page's entry does. */
  predicate Shrinks(b: Books, e: Event) {
    && e.Wrote? && OfPage(e.key) in b.Active()
    && var k := LastAt(b.entries, e.key); 0 <= k < |b.lens| && e.offset + |e.data| < b.lens[k]
  }

  predicate ShrinksNow(t: Trace, op: Op) {
    var events := Step(t, op).events; |events| > |t.events| && Shrinks(t.books, events[|events| - 1])
  }

  /** One event: the lengths stay what was reached exactly if it does not shrink one. */
  lemma {:induction false} ReachedExactly(b: Books, e: Event, pgi: int)
    requires b.Ok()
    ensures Booked(b, e, pgi).lens == ReachedBy(b, b.lens, e) <==> !Shrinks(b, e)
  {
    hide BeginAfter;
    if e.Wrote? && OfPage(e.key) in b.Active() {
      var k := LastAt(b.entries, e.key);
      assert k >= 0 by {
        var n := b.ends[|b.ends| - 1] - b.ends[0];
        var j :| 0 <= j < |b.entries| - n && b.entries[n..][j] == OfPage(e.key);
        assert b.entries[n + j] == OfPage(e.key);
      }
      var l := e.offset + |e.data|;
      assert b.lens[k := l][k] == l && b.lens[k := Max(b.lens[k], l)][k] == Max(b.lens[k], l);
    }
  }

  lemma {:induction false} StepExactly(t: Trace, op: Op)
    requires t.books.Ok()
    ensures Step(t, op).books.lens == Reached(t, t.books.lens, op) <==> !ShrinksNow(t, op)
  {
    hide Booked, ReachedBy, Shrinks, Books.Active, Books.NextPgi, Books.Handed;
    var t' := Step(t, op);
    if |t'.events| > |t.events| {
      ReachedExactly(t.books, t'.events[|t'.events| - 1], t.pgi);
    }
  }

  /** Throughout a run every entry's length is as far as its page has been written, if and only if no write to an active
      page ends before an earlier one. */
  lemma {:induction false} LengthsReach(ops: seq<Op>)
    ensures (forall k | 0 <= k <= |ops| :: TraceOf(ops[..k]).books.lens == Reach(ops[..k])) <==>
            (forall k | 0 <= k < |ops| :: !ShrinksNow(TraceOf(ops[..k]), ops[k]))
  {
    hide TraceOf, Step, Reached, ShrinksNow;
    if forall k | 0 <= k <= |ops| :: TraceOf(ops[..k]).books.lens == Reach(ops[..k]) {
      forall k | 0 <= k < |ops|
        ensures !ShrinksNow(TraceOf(ops[..k]), ops[k])
      {
        ReachStep(ops, k);
      }
    }
    if forall k | 0 <= k < |ops| :: !ShrinksNow(TraceOf(ops[..k]), ops[k]) {
      forall k | 0 <= k <= |ops|
        ensures TraceOf(ops[..k]).books.lens == Reach(ops[..k])
      {
        ReachAll(ops, k);
      }
    }
  }

  lemma {:induction false} ReachStep(ops: seq<Op>, k: nat)
    requires k < |ops| && TraceOf(ops[..k]).books.lens == Reach(ops[..k])
    ensures TraceOf(ops[..k + 1]).books.lens == Reach(ops[..k + 1]) <==> !ShrinksNow(TraceOf(ops[..k]), ops[k])
  {
    hide TraceOf, Step, Reached, ShrinksNow, Counted;
    assert ops[..k + 1][..k] == ops[..k];
    NextTrace(ops, k);
    TraceCounted(ops[..k], map[]);
    CountedOk(TraceOf(ops[..k]), map[]);
    StepExactly(TraceOf(ops[..k]), ops[k]);
  }

  lemma {:induction false} ReachAll(ops: seq<Op>, k: nat)
    requires k <= |ops| && forall j | 0 <= j < |ops| :: !ShrinksNow(TraceOf(ops[..j]), ops[j])
    ensures TraceOf(ops[..k]).books.lens == Reach(ops[..k])
  {
    hide TraceOf, Step, Reached, ShrinksNow;
    if k == 0 {
      NothingReached(ops);
    } else {
      ReachAll(ops, k - 1);
      ReachStep(ops, k - 1);
    }
  }

  lemma {:induction false} NothingReached(ops: seq<Op>)
    ensures TraceOf(ops[..0]).books.lens == Reach(ops[..0])
  {
    assert ops[..0] == [];
  }

  // ---------- what is handed over then ----------

  function Rewrite(ino: u64, index: u64, o1: nat, d1: seq<int>, o2: nat, d2: seq<int>): seq<Op> {
    [Write(ino, index, o1, d1)] + [Round] + [Write(ino, index, o2, d2)] + [Seal] + [Flush(1)]
  }

  /** A page written and written again before it is sealed is handed over with the length of the second write, however
      far the first one reached. */
  lemma {:induction false} SecondWriteCounts(ino: u64, index: u64, o1: nat, d1: seq<int>, o2: nat, d2: seq<int>)
    ensures TraceOf(Rewrite(ino, index, o1, d1, o2, d2)).handed == [map[Key(ino, index) := o2 + |d2|]]
  {
    hide TraceOf, Step;
    var w1, w2, key := Write(ino, index, o1, d1), Write(ino, index, o2, d2), Key(ino, index);
    TraceMore([], w1);
    assert [] + [w1] == [w1];
    TraceMore([w1], Round);
    TraceMore([w1] + [Round], w2);
    TraceMore([w1] + [Round] + [w2], Seal);
    TraceMore([w1] + [Round] + [w2] + [Seal], Flush(1));
    NothingMild();
    FirstWrite(NOTHING, w1, key);
    var t := Step(Step(NOTHING, w1), Round);
    SecondWrite(t, w2, key);
    SealedAndFlushed(Step(t, w2), key, o2 + |d2|);
  }

  /** One entry, about the page, in a log that nothing has been sealed in. */
  predicate OnlyPage(b: Books, key: Key) {
    && |b.entries| == |b.pgis| == |b.lens| == |b.ends| == 1 && b.entries[0] == OfPage(key) && b.ends[0] == 0
  }

  lemma {:induction false} OnlyIsActive(b: Books, key: Key)
    requires OnlyPage(b, key)
    ensures b.Ok() && OfPage(key) in b.Active() && LastAt(b.entries, key) == 0
  {
    assert b.Active()[0] == OfPage(key);
  }

  /** In a log without entries. */
  lemma {:induction false} FirstWrite(t: Trace, op: Op, key: Key)
    requires op.Write? && key == Key(op.ino, op.index) && t.handed == [] && t.waiting.None?
    requires var b := t.books; |b.entries| == |b.pgis| == |b.lens| == 0 && |b.ends| == 1 && b.ends[0] == 0 == b.begin
    ensures var u := Step(Step(t, op), Round); u.handed == [] && OnlyPage(u.books, key)
  {
    hide Step, LastPgi, Books.Active, Books.Full;
    var e := Wrote(key, op.offset, op.data);
    NoneActive(t.books, key);
    WriteIs(t, op, e);
    RoundIs(Step(t, op), e);
  }

  lemma {:induction false} NoneActive(b: Books, key: Key)
    requires |b.entries| == |b.pgis| == |b.lens| == 0 && |b.ends| == 1 && b.ends[0] == 0 == b.begin
    ensures b.Ok() && OfPage(key) !in b.Active() && !b.Full()
  {
  }

  lemma {:induction false} SecondWrite(t: Trace, op: Op, key: Key)
    requires op.Write? && key == Key(op.ino, op.index) && t.handed == [] && OnlyPage(t.books, key)
    ensures var u := Step(t, op); u.handed == [] && OnlyPage(u.books, key) && u.books.lens[0] == op.offset + |op.data|
  {
    hide Step, LastPgi, Books.Active;
    OnlyIsActive(t.books, key);
    WriteIs(t, op, Wrote(key, op.offset, op.data));
  }

  lemma {:induction false} SealedAndFlushed(t: Trace, key: Key, len: int)
    requires OnlyPage(t.books, key) && t.books.lens[0] == len && t.handed == []
    ensures Step(Step(t, Seal), Flush(1)).handed == [map[key := len]]
  {
    hide Step, Booked, Books.Active, Books.Handed;
    OnlyIsActive(t.books, key);
    SealIs(t);
    FlushIs(Step(t, Seal));
    HandsOne(Step(t, Seal).books, key, len);
  }

  lemma {:induction false} SealIs(t: Trace)
    requires t.books.Ok() && t.books.Active() != []
    ensures Step(t, Seal).handed == t.handed
            && Step(t, Seal).books == t.books.(ends := t.books.ends + [t.books.ends[0] + |t.books.entries|])
  {
  }

  lemma {:induction false} FlushIs(t: Trace)
    requires |t.books.ends| == 2
    ensures Step(t, Flush(1)).handed == t.handed + [t.books.Handed(1)]
  {
  }

  lemma {:induction false} HandsOne(b: Books, key: Key, len: int)
    requires |b.entries| == |b.pgis| == |b.lens| == 1 && |b.ends| == 2 && b.ends[0] == 0 && b.ends[1] == 1
    requires b.entries[0] == OfPage(key) && b.lens[0] == len
    ensures b.Handed(1) == map[key := len]
  {
    hide Greatest;
    assert b.entries[..1] == b.entries && b.lens[..1] == b.lens;
    OnePage(b.entries, b.lens, key);
  }

  lemma {:induction false} OnePage(kinds: seq<Kind>, lens: seq<int>, key: Key)
    requires |kinds| == |lens| == 1 && kinds[0] == OfPage(key)
    ensures Greatest(kinds, lens) == map[key := lens[0]]
  {
  }
}
