/** Ordered work queues (async-thread.c): any number of workers finish items in any order and then run the items'
    ordered functions, dropping the lock while they do.  A state machine whose steps are what happens between two
    changes of lock ownership. */
module OrderedWork {
  import opened Sequences

  /** One order list, with what was ever put on it and what ordered functions were started from it, for the
      statements only. */
  datatype Lane = Lane(list: seq<nat>, enqueued: seq<nat>, started: seq<nat>)

  /** A worker runs an item's func, is about to look at the lists, or runs an ordered_func. */
  datatype Worker = Idle | Working(item: nat) | Entering | InFunc(item: nat)

  /** `queued` are the items with WORK_QUEUED_BIT ever set, `pending` those no worker has taken yet, `done` and
      `orderDone` the WORK_DONE_BIT and WORK_ORDER_DONE_BIT of the items. */
  datatype State = State(prio: Lane, normal: Lane, queued: set<nat>, pending: set<nat>, done: set<nat>,
                         orderDone: set<nat>, workers: seq<Worker>)

  datatype Action = Queue(item: nat, high: bool) | Take(w: nat, item: nat) | Finish(w: nat) | Enter(w: nat)
    | Return(w: nat)

  function Init(n: nat): State {
    State(Lane([], [], []), Lane([], [], []), {}, {}, {}, {}, seq(n, _ => Idle))
  }

  // ---------- the steps ----------

  function Enqueued(l: Lane, item: nat): Lane { l.(list := l.list + [item], enqueued := l.enqueued + [item]) }

  /** btrfs_queue_worker: nothing happens to an item already queued. */
  function QueueItem(s: State, item: nat, high: bool): State {
    if item in s.queued then s
    else
      var s' := s.(queued := s.queued + {item}, pending := s.pending + {item});
      if high then s'.(prio := Enqueued(s.prio, item)) else s'.(normal := Enqueued(s.normal, item))
  }

  /** The lists are looked at under the lock: the item due, if it is done and nobody has started it, is started and
      the lock dropped; else the worker leaves the loop. */
  function Look(s: State, w: nat): State
    requires w < |s.workers|
  {
    if s.prio.list != [] then
      var x := s.prio.list[0];
      if x !in s.done || x in s.orderDone then s.(workers := s.workers[w := Idle])
      else s.(orderDone := s.orderDone + {x}, workers := s.workers[w := InFunc(x)],
              prio := s.prio.(started := s.prio.started + [x]))
    else if s.normal.list != [] then
      var x := s.normal.list[0];
      if x !in s.done || x in s.orderDone then s.(workers := s.workers[w := Idle])
      else s.(orderDone := s.orderDone + {x}, workers := s.workers[w := InFunc(x)],
              normal := s.normal.(started := s.normal.started + [x]))
    else s.(workers := s.workers[w := Idle])
  }

  function Removed(list: seq<nat>, x: nat): seq<nat> {
    if list == [] then [] else if list[0] == x then list[1..] else [list[0]] + Removed(list[1..], x)
  }

  /** list_del, wherever the item is. */
  function Dropped(s: State, x: nat): State {
    s.(prio := s.prio.(list := Removed(s.prio.list, x)), normal := s.normal.(list := Removed(s.normal.list, x)))
  }

  function Step(s: State, a: Action): State {
    match a
    case Queue(item, high) => QueueItem(s, item, high)
    case Take(w, item) =>
      if w < |s.workers| && s.workers[w].Idle? && item in s.pending
      then s.(pending := s.pending - {item}, workers := s.workers[w := Working(item)]) else s
    case Finish(w) =>
      if w < |s.workers| && s.workers[w].Working?
      then s.(done := s.done + {s.workers[w].item}, workers := s.workers[w := Entering]) else s
    case Enter(w) => if w < |s.workers| && s.workers[w].Entering? then Look(s, w) else s
    case Return(w) =>
      if w < |s.workers| && s.workers[w].InFunc?
      then Dropped(s, s.workers[w].item).(workers := s.workers[w := Entering]) else s
  }

  function Run(s: State, actions: seq<Action>): State {
    if actions == [] then s else Step(Run(s, actions[..|actions| - 1]), actions[|actions| - 1])
  }

  // ---------- the invariant ----------

  predicate Busy(l: Lane, orderDone: set<nat>) { l.list != [] && l.list[0] in orderDone }

  /** The list is what is left of the items enqueued; what has been started is what is gone, and the head if it is
      being run; nothing behind the head has been started. */
  ghost predicate LaneOk(l: Lane, orderDone: set<nat>) {
    && |l.list| <= |l.enqueued|
    && var gone := |l.enqueued| - |l.list|;
       && l.list == l.enqueued[gone..]
       && l.started == l.enqueued[..if Busy(l, orderDone) then gone + 1 else gone]
       && (forall i | 0 < i < |l.list| :: l.list[i] !in orderDone)
       && (forall i, j | 0 <= i < j < |l.enqueued| :: l.enqueued[i] != l.enqueued[j])
  }

  ghost predicate Known(l: Lane, queued: set<nat>) { forall i | 0 <= i < |l.enqueued| :: l.enqueued[i] in queued }

  ghost predicate NothingShared(a: Lane, b: Lane) {
    forall i, j | 0 <= i < |a.enqueued| && 0 <= j < |b.enqueued| :: a.enqueued[i] != b.enqueued[j]
  }

  predicate IsHead(l: Lane, x: nat) { l.list != [] && l.list[0] == x }

  /** What each worker is at. */
  ghost predicate WorkerOk(s: State, w: nat)
    requires w < |s.workers|
  {
    match s.workers[w]
    case Idle => true
    case Entering => true
    case Working(x) => x in s.queued && x !in s.done && x !in s.pending
    case InFunc(x) => x in s.orderDone && (IsHead(s.prio, x) || IsHead(s.normal, x))
  }

  ghost predicate Different(s: State, w: nat, v: nat)
    requires w < |s.workers| && v < |s.workers|
  {
    (s.workers[w].InFunc? && s.workers[v].InFunc? ==> s.workers[w].item != s.workers[v].item)
    && (s.workers[w].Working? && s.workers[v].Working? ==> s.workers[w].item != s.workers[v].item)
  }

  ghost predicate Runs(s: State, x: nat) { exists w :: 0 <= w < |s.workers| && s.workers[w] == InFunc(x) }

  predicate Inside(w: Worker) { w.Entering? || w.InFunc? }

  ghost predicate SomeoneInside(s: State) { exists w :: 0 <= w < |s.workers| && Inside(s.workers[w]) }

  /** The item whose turn it is. */
  function Due(s: State): seq<nat> {
    if s.prio.list != [] then [s.prio.list[0]] else if s.normal.list != [] then [s.normal.list[0]] else []
  }

  /** The next item due can be run: then somebody is there to run it. */
  ghost predicate Attended(s: State) {
    Due(s) != [] && Due(s)[0] in s.done && Due(s)[0] !in s.orderDone ==> SomeoneInside(s)
  }

  ghost predicate WorkedOn(s: State, x: nat) { exists w :: 0 <= w < |s.workers| && s.workers[w] == Working(x) }

  /** Every item queued waits for a worker, is being worked on, or is done. */
  ghost predicate Accounted(s: State) {
    forall x | x in s.queued :: x in s.pending || x in s.done || WorkedOn(s, x)
  }

  /** Only items marked as such have been started. */
  ghost predicate AfterFunc(l: Lane, orderDone: set<nat>) { forall x | x in l.started :: x in orderDone }

  ghost predicate Inv(s: State) {
    && LaneOk(s.prio, s.orderDone) && LaneOk(s.normal, s.orderDone)
    && Known(s.prio, s.queued) && Known(s.normal, s.queued) && NothingShared(s.prio, s.normal)
    && s.orderDone <= s.done <= s.queued && s.pending <= s.queued && s.pending !! s.done
    && (forall w | 0 <= w < |s.workers| :: WorkerOk(s, w))
    && (forall w, v | 0 <= w < v < |s.workers| :: Different(s, w, v))
    && (Busy(s.prio, s.orderDone) ==> Runs(s, s.prio.list[0]))
    && (Busy(s.normal, s.orderDone) ==> Runs(s, s.normal.list[0]))
    && Attended(s) && Accounted(s) && AfterFunc(s.prio, s.orderDone) && AfterFunc(s.normal, s.orderDone)
  }

  // ---------- every step keeps it ----------

  lemma {:induction false} LaneEnqueued(l: Lane, orderDone: set<nat>, queued: set<nat>, item: nat)
    requires LaneOk(l, orderDone) && Known(l, queued) && orderDone <= queued && item !in queued
    ensures LaneOk(Enqueued(l, item), orderDone) && Known(Enqueued(l, item), queued + {item})
    ensures Busy(Enqueued(l, item), orderDone) <==> Busy(l, orderDone)
    ensures Enqueued(l, item).list == l.list + [item] && Enqueued(l, item).started == l.started
  {
    var m := Enqueued(l, item);
    var gone := |l.enqueued| - |l.list|;
    assert m.list == m.enqueued[gone..];
  }

  lemma {:induction false} SharedEnqueued(a: Lane, b: Lane, queued: set<nat>, item: nat)
    requires NothingShared(a, b) && Known(a, queued) && Known(b, queued) && item !in queued
    ensures NothingShared(Enqueued(a, item), b) && NothingShared(a, Enqueued(b, item))
    ensures Known(a, queued + {item}) && Known(b, queued + {item})
  {
  }

  lemma {:induction false} QueueKeeps(s: State, item: nat, high: bool)
    requires Inv(s)
    ensures Inv(QueueItem(s, item, high))
  {
    hide LaneOk, NothingShared, Known, Enqueued;
    var t := QueueItem(s, item, high);
    if item !in s.queued {
      SharedEnqueued(s.prio, s.normal, s.queued, item);
      if high {
        LaneEnqueued(s.prio, s.orderDone, s.queued, item);
      } else {
        LaneEnqueued(s.normal, s.orderDone, s.queued, item);
      }
      forall w | 0 <= w < |t.workers|
        ensures WorkerOk(t, w)
      {
        assert WorkerOk(s, w);
      }
      forall w, v | 0 <= w < v < |t.workers|
        ensures Different(t, w, v)
      {
        assert Different(s, w, v);
      }
      SameRuns(s, t);
    }
  }

  lemma {:induction false} SameRuns(s: State, t: State)
    requires s.workers == t.workers
    ensures forall x :: Runs(s, x) == Runs(t, x) && WorkedOn(s, x) == WorkedOn(t, x)
    ensures SomeoneInside(s) == SomeoneInside(t)
  {
  }

  /** A worker changes: nobody else's item is affected. */
  lemma {:induction false} WorkOthers(s: State, t: State, w: nat)
    requires w < |s.workers| == |t.workers| && t.workers == s.workers[w := t.workers[w]]
    ensures forall x | WorkedOn(s, x) && s.workers[w] != Working(x) :: WorkedOn(t, x)
    ensures t.workers[w].Working? ==> WorkedOn(t, t.workers[w].item)
  {
    forall x | WorkedOn(s, x) && s.workers[w] != Working(x)
      ensures WorkedOn(t, x)
    {
      var v :| 0 <= v < |s.workers| && s.workers[v] == Working(x);
      assert t.workers[v] == Working(x);
    }
  }

  /** A worker that was not inside an ordered_func, and will not be, changes: nobody else's running is affected. */
  lemma {:induction false} RunsOthers(s: State, t: State, w: nat, x: nat)
    requires w < |s.workers| == |t.workers| && t.workers == s.workers[w := t.workers[w]] && s.workers[w] != InFunc(x)
    ensures Runs(s, x) ==> Runs(t, x)
  {
    if Runs(s, x) {
      var v :| 0 <= v < |s.workers| && s.workers[v] == InFunc(x);
      assert t.workers[v] == InFunc(x);
    }
  }

  lemma {:induction false} InsideOthers(s: State, t: State, w: nat)
    requires w < |s.workers| == |t.workers| && t.workers == s.workers[w := t.workers[w]]
             && (Inside(s.workers[w]) ==> Inside(t.workers[w]))
    ensures SomeoneInside(s) ==> SomeoneInside(t)
  {
    if SomeoneInside(s) {
      var v :| 0 <= v < |s.workers| && Inside(s.workers[v]);
      assert Inside(t.workers[v]);
    }
  }

  lemma {:induction false} TakeKeeps(s: State, w: nat, item: nat)
    requires Inv(s) && w < |s.workers| && s.workers[w].Idle? && item in s.pending && forall v | 0 <= v < |s.workers| ::
             s.workers[v] != Working(item)
    ensures Inv(Step(s, Take(w, item)))
  {
    hide LaneOk;
    var t := Step(s, Take(w, item));
    forall v | 0 <= v < |t.workers|
      ensures WorkerOk(t, v)
    {
      assert WorkerOk(s, v);
    }
    forall u, v | 0 <= u < v < |t.workers|
      ensures Different(t, u, v)
    {
      assert Different(s, u, v);
    }
    forall x
      ensures Runs(s, x) ==> Runs(t, x)
    {
      RunsOthers(s, t, w, x);
    }
    InsideOthers(s, t, w);
    WorkOthers(s, t, w);
  }

  lemma {:induction false} NobodyWorksOn(s: State, item: nat, v: nat)
    requires Inv(s) && item in s.pending && v < |s.workers|
    ensures s.workers[v] != Working(item)
  {
    assert WorkerOk(s, v);
  }

  lemma {:induction false} FinishKeeps(s: State, w: nat)
    requires Inv(s) && w < |s.workers| && s.workers[w].Working?
    ensures Inv(Step(s, Finish(w)))
  {
    hide LaneOk;
    var t := Step(s, Finish(w));
    assert WorkerOk(s, w);
    forall v | 0 <= v < |t.workers|
      ensures WorkerOk(t, v)
    {
      assert WorkerOk(s, v);
      assert v < w ==> Different(s, v, w);
      assert w < v ==> Different(s, w, v);
    }
    forall u, v | 0 <= u < v < |t.workers|
      ensures Different(t, u, v)
    {
      assert Different(s, u, v);
    }
    forall x
      ensures Runs(s, x) ==> Runs(t, x)
    {
      RunsOthers(s, t, w, x);
    }
    assert Inside(t.workers[w]);
    WorkOthers(s, t, w);
  }

  /** Starting the head of a lane. */
  lemma {:induction false} LaneStarted(l: Lane, orderDone: set<nat>)
    requires LaneOk(l, orderDone) && l.list != [] && l.list[0] !in orderDone
    ensures LaneOk(l.(started := l.started + [l.list[0]]), orderDone + {l.list[0]})
  {
    var gone := |l.enqueued| - |l.list|;
    assert l.list[0] == l.enqueued[gone];
    assert l.enqueued[..gone + 1] == l.enqueued[..gone] + [l.enqueued[gone]];
    forall i | 0 < i < |l.list|
      ensures l.list[i] != l.list[0]
    {
      assert l.list[i] == l.enqueued[gone + i];
    }
  }

  /** Starting an item of the other lane does not concern this one. */
  lemma {:induction false} LaneUnconcerned(l: Lane, orderDone: set<nat>, x: nat)
    requires LaneOk(l, orderDone) && forall i | 0 <= i < |l.enqueued| :: l.enqueued[i] != x
    ensures LaneOk(l, orderDone + {x}) && (Busy(l, orderDone + {x}) <==> Busy(l, orderDone))
  {
    var gone := |l.enqueued| - |l.list|;
    forall i | 0 <= i < |l.list|
      ensures l.list[i] != x
    {
      assert l.list[i] == l.enqueued[gone + i];
    }
  }

  lemma {:induction false} OnLane(l: Lane, orderDone: set<nat>, i: nat) returns (j: nat)
    requires LaneOk(l, orderDone) && i < |l.list|
    ensures j < |l.enqueued| && l.enqueued[j] == l.list[i]
  {
    j := |l.enqueued| - |l.list| + i;
  }

  /** Whoever looks and finds the due item startable starts it. */
  lemma {:induction false} StartKeeps(s: State, t: State, w: nat, x: nat, high: bool)
    requires Inv(s) && w < |s.workers| && s.workers[w].Entering? && x in s.done && x !in s.orderDone
    requires if high then IsHead(s.prio, x) else s.prio.list == [] && IsHead(s.normal, x)
    requires t == Look(s, w)
    ensures Inv(t)
  {
    hide LaneOk, NothingShared, Known;
    assert t.workers[w] == InFunc(x);
    if high {
      LaneStarted(s.prio, s.orderDone);
      OtherLane(s.prio, s.normal, s.orderDone);
    } else {
      LaneStarted(s.normal, s.orderDone);
      OtherLane(s.normal, s.prio, s.orderDone);
    }
    NamesStay(s, t);
    forall v | 0 <= v < |t.workers|
      ensures WorkerOk(t, v)
    {
      assert WorkerOk(s, v);
    }
    forall u, v | 0 <= u < v < |t.workers|
      ensures Different(t, u, v)
    {
      assert Different(s, u, v) && WorkerOk(s, u) && WorkerOk(s, v);
    }
    forall y
      ensures Runs(s, y) || y == x ==> Runs(t, y)
    {
      RunsOthers(s, t, w, y);
    }
    assert Inside(t.workers[w]);
    WorkOthers(s, t, w);
  }

  lemma {:induction false} OtherLane(a: Lane, b: Lane, orderDone: set<nat>)
    requires LaneOk(a, orderDone) && LaneOk(b, orderDone) && a.list != []
             && (NothingShared(a, b) || NothingShared(b, a))
    ensures LaneOk(b, orderDone + {a.list[0]}) && (Busy(b, orderDone + {a.list[0]}) <==> Busy(b, orderDone))
  {
    hide LaneOk;
    var j := OnLane(a, orderDone, 0);
    LaneUnconcerned(b, orderDone, a.list[0]);
  }

  lemma {:induction false} NamesStay(s: State, t: State)
    requires Known(s.prio, s.queued) && Known(s.normal, s.queued) && NothingShared(s.prio, s.normal)
    requires t.prio.enqueued == s.prio.enqueued && t.normal.enqueued == s.normal.enqueued && s.queued <= t.queued
    ensures Known(t.prio, t.queued) && Known(t.normal, t.queued) && NothingShared(t.prio, t.normal)
  {
  }

  /** Whoever looks and finds nothing to start may go: either nothing startable is due, or somebody is at it. */
  lemma {:induction false} LeaveKeeps(s: State, w: nat)
    requires Inv(s) && w < |s.workers| && s.workers[w].Entering?
    requires Due(s) == [] || Due(s)[0] !in s.done || Due(s)[0] in s.orderDone
    ensures Look(s, w) == s.(workers := s.workers[w := Idle]) && Inv(Look(s, w))
  {
    hide LaneOk, NothingShared, Known;
    var t := Look(s, w);
    forall v | 0 <= v < |t.workers|
      ensures WorkerOk(t, v)
    {
      assert WorkerOk(s, v);
    }
    forall u, v | 0 <= u < v < |t.workers|
      ensures Different(t, u, v)
    {
      assert Different(s, u, v);
    }
    forall x
      ensures Runs(s, x) ==> Runs(t, x)
    {
      RunsOthers(s, t, w, x);
    }
    WorkOthers(s, t, w);
  }

  lemma {:induction false} LookKeeps(s: State, w: nat)
    requires Inv(s) && w < |s.workers| && s.workers[w].Entering?
    ensures Inv(Look(s, w))
  {
    hide Inv;
    if Due(s) == [] || Due(s)[0] !in s.done || Due(s)[0] in s.orderDone {
      LeaveKeeps(s, w);
    } else {
      StartKeeps(s, Look(s, w), w, Due(s)[0], s.prio.list != []);
    }
  }

  /** The head of a lane is removed once its function has returned. */
  lemma {:induction false} LaneFinished(l: Lane, orderDone: set<nat>)
    requires LaneOk(l, orderDone) && Busy(l, orderDone)
    ensures LaneOk(l.(list := l.list[1..]), orderDone) && !Busy(l.(list := l.list[1..]), orderDone)
    ensures Removed(l.list, l.list[0]) == l.list[1..]
  {
    var gone := |l.enqueued| - |l.list|;
    assert l.list[1..] == l.enqueued[gone + 1..];
  }

  lemma {:induction false} RemovedNothing(list: seq<nat>, x: nat)
    requires x !in list
    ensures Removed(list, x) == list
  {
    if list != [] {
      RemovedNothing(list[1..], x);
    }
  }

  lemma {:induction false} NotOnOther(a: Lane, b: Lane, orderDone: set<nat>)
    requires LaneOk(a, orderDone) && LaneOk(b, orderDone) && a.list != []
             && (NothingShared(a, b) || NothingShared(b, a))
    ensures a.list[0] !in b.list
  {
    hide LaneOk;
    var i := OnLane(a, orderDone, 0);
    forall k | 0 <= k < |b.list|
      ensures b.list[k] != a.list[0]
    {
      var j := OnLane(b, orderDone, k);
    }
  }

  lemma {:induction false} ReturnKeeps(s: State, w: nat)
    requires Inv(s) && w < |s.workers| && s.workers[w].InFunc?
    ensures Inv(Step(s, Return(w)))
  {
    hide LaneOk, NothingShared, Known, Removed;
    var t, x := Step(s, Return(w)), s.workers[w].item;
    assert WorkerOk(s, w);
    if IsHead(s.prio, x) {
      LaneFinished(s.prio, s.orderDone);
      NotOnOther(s.prio, s.normal, s.orderDone);
      RemovedNothing(s.normal.list, x);
    } else {
      LaneFinished(s.normal, s.orderDone);
      NotOnOther(s.normal, s.prio, s.orderDone);
      RemovedNothing(s.prio.list, x);
    }
    NamesStay(s, t);
    forall v | 0 <= v < |t.workers|
      ensures WorkerOk(t, v)
    {
      assert WorkerOk(s, v);
      assert v < w ==> Different(s, v, w);
      assert w < v ==> Different(s, w, v);
    }
    forall u, v | 0 <= u < v < |t.workers|
      ensures Different(t, u, v)
    {
      assert Different(s, u, v);
    }
    forall y | y != x
      ensures Runs(s, y) ==> Runs(t, y)
    {
      RunsOthers(s, t, w, y);
    }
    assert Inside(t.workers[w]);
    WorkOthers(s, t, w);
  }

  lemma {:induction false} StepKeeps(s: State, a: Action)
    requires Inv(s)
    ensures Inv(Step(s, a))
  {
    hide Inv;
    match a
    case Queue(item, high) =>
      QueueKeeps(s, item, high);
    case Take(w, item) =>
      if w < |s.workers| && s.workers[w].Idle? && item in s.pending {
        forall v | 0 <= v < |s.workers|
          ensures s.workers[v] != Working(item)
        {
          NobodyWorksOn(s, item, v);
        }
        TakeKeeps(s, w, item);
      }
    case Finish(w) =>
      if w < |s.workers| && s.workers[w].Working? {
        FinishKeeps(s, w);
      }
    case Enter(w) =>
      if w < |s.workers| && s.workers[w].Entering? {
        LookKeeps(s, w);
      }
    case Return(w) =>
      if w < |s.workers| && s.workers[w].InFunc? {
        ReturnKeeps(s, w);
      }
  }

  lemma {:induction false} RunKeeps(n: nat, actions: seq<Action>)
    ensures Inv(Run(Init(n), actions))
  {
    hide Inv, Step;
    if actions == [] {
      InitOk(n);
    } else {
      RunKeeps(n, actions[..|actions| - 1]);
      StepKeeps(Run(Init(n), actions[..|actions| - 1]), actions[|actions| - 1]);
    }
  }

  lemma {:induction false} InitOk(n: nat)
    ensures Inv(Init(n))
  {
    hide LaneOk, Known, NothingShared, Busy, WorkerOk, Different, Runs, Attended, WorkedOn;
    var s, l := Init(n), Lane([], [], []);
    NoLane(l);
    NobodyAtWork(s);
    assert s.prio == l && s.normal == l;
  }

  lemma {:induction false} NoLane(l: Lane)
    requires l == Lane([], [], [])
    ensures LaneOk(l, {}) && Known(l, {}) && NothingShared(l, l) && !Busy(l, {})
  {
    assert |l.list| == 0 && |l.enqueued| == 0 && |l.started| == 0;
    assert !Busy(l, {});
    assert Known(l, {});
    assert NothingShared(l, l);
    assert l.enqueued[0..] == [] && l.enqueued[..0] == [];
    assert LaneOk(l, {}) by {
      hide Known, NothingShared, Busy;
    }
  }

  lemma {:induction false} NobodyAtWork(s: State)
    requires (forall w | 0 <= w < |s.workers| :: s.workers[w] == Idle) && s.prio.list == [] && s.normal.list == []
    ensures forall w | 0 <= w < |s.workers| :: WorkerOk(s, w)
    ensures forall w, v | 0 <= w < v < |s.workers| :: Different(s, w, v)
    ensures Attended(s)
  {
  }

  // ---------- what it means ----------

  /** Whatever the workers do: from each list ordered functions are started in the order the items were enqueued, each
      at most once. */
  lemma {:induction false} StartedInOrder(n: nat, actions: seq<Action>)
    ensures var s := Run(Init(n), actions);
            && s.prio.started <= s.prio.enqueued && s.normal.started <= s.normal.enqueued
            && (forall i, j | 0 <= i < j < |s.prio.started| :: s.prio.started[i] != s.prio.started[j])
            && (forall i, j | 0 <= i < j < |s.normal.started| :: s.normal.started[i] != s.normal.started[j])
  {
    hide Run, Init;
    RunKeeps(n, actions);
  }

  /** Two ordered functions run at the same time only if one item is of high priority and the other is not. */
  lemma {:induction false} NoOverlap(n: nat, actions: seq<Action>, w: nat, v: nat)
    requires var s := Run(Init(n), actions);
             w < v < |s.workers| && s.workers[w].InFunc? && s.workers[v].InFunc?
    ensures var s := Run(Init(n), actions);
            IsHead(s.prio, s.workers[w].item) != IsHead(s.prio, s.workers[v].item)
  {
    hide Run, Init, LaneOk, NothingShared, Known;
    RunKeeps(n, actions);
    var s := Run(Init(n), actions);
    assert WorkerOk(s, w) && WorkerOk(s, v) && Different(s, w, v);
  }

  /** With nobody inside the completion loop, the item due is not done: nothing is left behind. */
  lemma {:induction false} NothingStuck(n: nat, actions: seq<Action>)
    requires !SomeoneInside(Run(Init(n), actions))
    ensures var s := Run(Init(n), actions); Due(s) == [] || Due(s)[0] !in s.done
  {
    hide Run, Init, LaneOk, NothingShared, Known;
    RunKeeps(n, actions);
    var s := Run(Init(n), actions);
    assert forall w | 0 <= w < |s.workers| :: !Inside(s.workers[w]);
  }

  /** Only the item due is ever started, and only once its func is done: a normal item never while one of high priority
      is on its list. */
  lemma {:induction false} StartsWhatIsDue(n: nat, actions: seq<Action>, a: Action)
    ensures var s, t := Run(Init(n), actions), Run(Init(n), actions + [a]);
            && t.prio.started in {s.prio.started, s.prio.started + Due(s)}
            && (t.normal.started != s.normal.started ==>
                  && t.prio.started == s.prio.started && s.prio.list == []
                  && t.normal.started == s.normal.started + Due(s))
            && (forall x | x in t.prio.started + t.normal.started :: x in t.done)
  {
    hide Inv;
    var s := Run(Init(n), actions);
    assert (actions + [a])[..|actions|] == actions;
    RunKeeps(n, actions + [a]);
    OrderedAreDone(Run(Init(n), actions + [a]));
  }

  lemma {:induction false} OrderedAreDone(s: State)
    requires Inv(s)
    ensures forall x | x in s.prio.started + s.normal.started :: x in s.done
  {
    hide LaneOk, Known, NothingShared, WorkerOk, Different, Runs, Attended, Accounted;
  }

  // ---------- what was asked for ----------

  function Asked(actions: seq<Action>): set<nat> {
    if actions == [] then {}
    else Asked(actions[..|actions| - 1])
         + (match actions[|actions| - 1] case Queue(item, _) => {item} case _ => {})
  }

  /** The items in the order in which they were first queued, if that was with the given priority. */
  function FirstAsked(actions: seq<Action>, high: bool): seq<nat> {
    if actions == [] then []
    else
      var before := actions[..|actions| - 1];
      FirstAsked(before, high)
      + match actions[|actions| - 1]
        case Queue(item, h) => if h == high && item !in Asked(before) then [item] else []
        case _ => []
  }

  /** Every item asked for is on the list of the priority it was first queued with, behind those first queued before,
      and nothing else is. */
  lemma {:induction false} QueuedAsAsked(n: nat, actions: seq<Action>)
    ensures var s := Run(Init(n), actions);
            && s.queued == Asked(actions)
            && s.prio.enqueued == FirstAsked(actions, true) && s.normal.enqueued == FirstAsked(actions, false)
  {
    hide Step, Init;
    if actions != [] {
      var before, a := actions[..|actions| - 1], actions[|actions| - 1];
      QueuedAsAsked(n, before);
      StepQueues(Run(Init(n), before), a);
    } else {
      NothingQueued(n);
    }
  }

  lemma {:induction false} NothingQueued(n: nat)
    ensures Init(n).queued == {} && Init(n).prio.enqueued == [] && Init(n).normal.enqueued == []
  {
  }

  lemma {:induction false} StepQueues(s: State, a: Action)
    ensures var t, first := Step(s, a), a.Queue? && a.item !in s.queued;
            && t.queued == s.queued + (if a.Queue? then {a.item} else {})
            && t.prio.enqueued == s.prio.enqueued + (if first && a.high then [a.item] else [])
            && t.normal.enqueued == s.normal.enqueued + (if first && !a.high then [a.item] else [])
  {
  }

  lemma {:induction false} AskedFirst(actions: seq<Action>)
    ensures forall x :: x in Asked(actions) <==> x in FirstAsked(actions, true) || x in FirstAsked(actions, false)
  {
    if actions != [] {
      AskedFirst(actions[..|actions| - 1]);
    }
  }

  /** Once every item asked for is done and everybody is idle, every ordered function has run, in the order of the
      first asks. */
  lemma {:induction false} AllRun(n: nat, actions: seq<Action>)
    requires var s := Run(Init(n), actions); Asked(actions) <= s.done && !SomeoneInside(s)
    ensures var s := Run(Init(n), actions);
            && s.prio.list == [] && s.normal.list == []
            && s.prio.started == FirstAsked(actions, true) && s.normal.started == FirstAsked(actions, false)
            && forall x :: x in Asked(actions) <==> x in s.prio.started || x in s.normal.started
  {
    hide Run, Init, Asked, FirstAsked;
    RunKeeps(n, actions);
    NothingStuck(n, actions);
    QueuedAsAsked(n, actions);
    AskedFirst(actions);
    var s := Run(Init(n), actions);
    if Due(s) != [] {
      if s.prio.list != [] {
        var j := OnLane(s.prio, s.orderDone, 0);
      } else {
        var j := OnLane(s.normal, s.orderDone, 0);
      }
    }
  }

  // ---------- it always can be finished ----------

  function Weight(w: Worker): int {
    match w
    case Idle => 0
    case Entering => 1
    case _ => 2
  }

  /** What is left to do. */
  function Left(s: State): int {
    3 * |s.pending| + 4 * (|s.prio.enqueued| - |s.prio.started| + |s.normal.enqueued| - |s.normal.started|)
    + Sum(s.workers, Weight)
  }

  lemma {:induction false} WeightsAdd(workers: seq<Worker>)
    ensures Sum(workers, Weight) >= 0
  {
    if workers != [] {
      WeightsAdd(workers[..|workers| - 1]);
    }
  }

  lemma {:induction false} LeftNonNegative(s: State)
    requires Inv(s)
    ensures Left(s) >= 0
  {
    WeightsAdd(s.workers);
  }

  /** As long as a worker is at something or an item waits for one, some step makes what is left less. */
  lemma {:induction false} Progress(s: State) returns (a: Action)
    requires |s.workers| > 0 && (s.pending != {} || exists w :: 0 <= w < |s.workers| && !s.workers[w].Idle?)
    ensures !a.Queue? && Left(Step(s, a)) < Left(s)
  {
    if w :| 0 <= w < |s.workers| && !s.workers[w].Idle? {
      a := if s.workers[w].Working? then Finish(w) else if s.workers[w].Entering? then Enter(w) else Return(w);
      SumUpdate(s.workers, w, Step(s, a).workers[w], Weight);
    } else {
      var item :| item in s.pending;
      a := Take(0, item);
      SumUpdate(s.workers, 0, Working(item), Weight);
    }
  }

  lemma {:induction false} NothingLeft(s: State)
    requires Inv(s) && s.pending == {} && forall w | 0 <= w < |s.workers| :: s.workers[w].Idle?
    ensures s.queued <= s.done && !SomeoneInside(s)
  {
    hide LaneOk, Known, NothingShared, WorkerOk, Different, Runs, Attended;
  }

  /** Whatever has happened, the workers can go on to a state where every ordered function has run: there is no
      deadlock, and no item is lost. */
  lemma {:induction false} CanFinish(n: nat, actions: seq<Action>) returns (more: seq<Action>)
    requires n > 0
    ensures forall i | 0 <= i < |more| :: !more[i].Queue?
    ensures var s := Run(Init(n), actions + more);
            && s.prio.started == FirstAsked(actions, true) && s.normal.started == FirstAsked(actions, false)
            && s.prio.list == [] && s.normal.list == []
    decreases Left(Run(Init(n), actions))
  {
    hide Inv, Step, Left, FirstAsked, Asked, Init;
    var s := Run(Init(n), actions);
    RunKeeps(n, actions);
    SameWorkers(n, actions);
    if s.pending != {} || exists w :: 0 <= w < |s.workers| && !s.workers[w].Idle? {
      var a := Progress(s);
      assert (actions + [a])[..|actions|] == actions;
      LeftNonNegative(s);
      var rest := CanFinish(n, actions + [a]);
      more := [a] + rest;
      assert actions + more == actions + [a] + rest;
      NotAsked(actions, a);
    } else {
      more := [];
      assert actions + more == actions;
      NothingLeft(s);
      QueuedAsAsked(n, actions);
      AllRun(n, actions);
    }
  }

  lemma {:induction false} NotAsked(actions: seq<Action>, a: Action)
    requires !a.Queue?
    ensures FirstAsked(actions + [a], true) == FirstAsked(actions, true)
    ensures FirstAsked(actions + [a], false) == FirstAsked(actions, false)
  {
    assert (actions + [a])[..|actions|] == actions;
  }

  lemma {:induction false} SameWorkers(n: nat, actions: seq<Action>)
    ensures |Run(Init(n), actions).workers| == n
  {
    if actions != [] {
      SameWorkers(n, actions[..|actions| - 1]);
    }
  }
}
