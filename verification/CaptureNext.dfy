/**
 * Next as interleaved steps (capture.go): a call registers its waiter together with a search snapshot,
 * searches, parks, and is woken by an append or leaves by cancellation. Every section under the capture
 * mutex is one step; appends, prunes, clears and other calls come between them in any order.
 */
module CaptureNext {
  import opened Wrappers
  import opened Frames
  import opened CaptureChunk
  import opened CaptureStore
  import opened CaptureSearch

  type Arrival = (FrameEvent, Cursor)

  datatype Waiter = Waiter(key: FrameKey, count: nat, ready: Option<Arrival>)

  datatype Outcome = Rejected | Found(arrival: Arrival) | Woken(arrival: Arrival) | Cancelled

  // Leaving: the outcome is settled and removeWaiter is still to run.
  datatype Phase = Searching | Parked | Leaving(outcome: Outcome) | Done(outcome: Outcome)

  datatype Call = Call(key: FrameKey, cursor: Cursor, snapshot: Store, waiter: nat, registeredAt: nat, phase: Phase)

  // `memory` holds every waiter ever made; `waiters` is the map of the capture. `arrivals` lists every
  // frame appended since the start of the run, over prunes and clears.
  datatype State = State(store: Store, waiters: map<FrameKey, nat>, memory: seq<Waiter>, calls: map<nat, Call>, arrivals: seq<Arrival>)

  // ---- Steps -----------------------------------------------------------------------------

  /** addWaiter: the waiter and the snapshot in one critical section. */
  ghost function Register(s: State, id: nat, key: FrameKey, cursor: Cursor): State
    requires |s.store.chunks| > 0 && id !in s.calls
  {
    if Locate(s.store, cursor).Err? then
      s.(calls := s.calls[id := Call(key, cursor, s.store, 0, |s.arrivals|, Done(Rejected))])
    else if key in s.waiters && s.waiters[key] < |s.memory| then
      var w := s.waiters[key];
      s.(memory := s.memory[w := s.memory[w].(count := s.memory[w].count + 1)],
         calls := s.calls[id := Call(key, cursor, s.store, w, |s.arrivals|, Searching)])
    else
      s.(memory := s.memory + [Waiter(key, 1, None)], waiters := s.waiters[key := |s.memory|],
         calls := s.calls[id := Call(key, cursor, s.store, |s.memory|, |s.arrivals|, Searching)])
  }

  ghost function Moved(s: State, id: nat, phase: Phase): State
    requires id in s.calls
  {
    s.(calls := s.calls[id := s.calls[id].(phase := phase)])
  }

  /** The search of the snapshot, outside the mutex; it is what CaptureSearch.Find returns. */
  ghost predicate Searches(s: State, t: State, id: nat) {
    && id in s.calls && s.calls[id].phase == Searching
    && var call := s.calls[id];
    && ValidStore(call.snapshot) && Locate(call.snapshot, call.cursor).Ok?
    && if SeriesAfter(call.snapshot, call.cursor, FrameSeries(call.key)) == [] then t == Moved(s, id, Parked)
       else exists event, next :: IsFirstAfter(call.snapshot, call.cursor, call.key, event, next) &&
              t == Moved(s, id, Leaving(Found((event, next))))
  }

  ghost predicate Wakes(s: State, t: State, id: nat) {
    && id in s.calls && s.calls[id].phase == Parked && s.calls[id].waiter < |s.memory|
    && s.memory[s.calls[id].waiter].ready.Some?
    && t == Moved(s, id, Done(Woken(s.memory[s.calls[id].waiter].ready.value)))
  }

  // The context may end at any time, also when the waiter is ready already.
  ghost predicate Cancels(s: State, t: State, id: nat) {
    id in s.calls && s.calls[id].phase == Parked && t == Moved(s, id, Leaving(Cancelled))
  }

  /** removeWaiter: nothing to do once the map no longer holds this very waiter. */
  ghost function Removed(s: State, key: FrameKey, w: nat): State
    requires w < |s.memory|
  {
    if key !in s.waiters || s.waiters[key] != w then s
    else
      var count: nat := if s.memory[w].count > 0 then s.memory[w].count - 1 else 0;
      s.(memory := s.memory[w := s.memory[w].(count := count)],
         waiters := if count == 0 then s.waiters - {key} else s.waiters)
  }

  ghost predicate Leaves(s: State, t: State, id: nat) {
    && id in s.calls && s.calls[id].phase.Leaving? && s.calls[id].waiter < |s.memory|
    && t == Removed(Moved(s, id, Done(s.calls[id].phase.outcome)), s.calls[id].key, s.calls[id].waiter)
  }

  /** wakeWaitersLocked, inside the append. */
  ghost function WakeAll(s: State, arrival: Arrival): State {
    var key := arrival.0.Key();
    var t := s.(arrivals := s.arrivals + [arrival]);
    if key in s.waiters && s.waiters[key] < |s.memory| then
      var w := s.waiters[key];
      t.(waiters := s.waiters - {key}, memory := s.memory[w := s.memory[w].(ready := Some(arrival))])
    else t
  }

  ghost predicate AppendsFrame(s: State, t: State, event: FrameEvent) {
    && ValidStore(s.store) && event.Valid()
    && AppendStep(s.store, t.store, FrameItem(event), End(t.store))
    && t == WakeAll(s, (event, End(t.store))).(store := t.store)
  }

  ghost predicate AppendsEvent(s: State, t: State, event: Event) {
    && ValidStore(s.store) && event.Valid()
    && AppendStep(s.store, t.store, EventItem(event), End(t.store))
    && t == s.(store := t.store)
  }

  ghost predicate Prunes(s: State, t: State, cursors: seq<Cursor>) {
    && ValidStore(s.store)
    && t == (match Pruned(s.store, cursors) case Ok(store) => s.(store := store) case Err(_) => s)
  }

  ghost predicate Clears(s: State, t: State, epoch: nat) {
    && epoch > s.store.generation && ClearStep(s.store, t.store, epoch)
    && t == s.(store := t.store)
  }

  ghost predicate Registers(s: State, t: State, id: nat, key: FrameKey, cursor: Cursor) {
    |s.store.chunks| > 0 && id !in s.calls && t == Register(s, id, key, cursor)
  }

  ghost predicate CallStep(s: State, t: State, id: nat) {
    Searches(s, t, id) || Wakes(s, t, id) || Cancels(s, t, id) || Leaves(s, t, id)
  }

  ghost predicate CaptureStep(s: State, t: State) {
    || (exists event :: AppendsFrame(s, t, event))
    || (exists event :: AppendsEvent(s, t, event))
    || (exists cursors :: Prunes(s, t, cursors))
    || (exists epoch :: Clears(s, t, epoch))
  }

  ghost predicate Next(s: State, t: State) {
    || (exists id, key, cursor :: Registers(s, t, id, key, cursor))
    || (exists id :: CallStep(s, t, id))
    || CaptureStep(s, t)
  }

  ghost predicate Init(s: State) {
    ValidStore(s.store) && s.waiters == map[] && s.memory == [] && s.calls == map[] && s.arrivals == []
  }

  // ---- Invariant -------------------------------------------------------------------------

  /** The first frame of the key to arrive at or after position `from`. */
  ghost function FirstArrival(arrivals: seq<Arrival>, key: FrameKey, from: nat): Option<Arrival>
    requires from <= |arrivals|
    decreases |arrivals| - from
  {
    if from == |arrivals| then None
    else if arrivals[from].0.Key() == key then Some(arrivals[from])
    else FirstArrival(arrivals, key, from + 1)
  }

  lemma {:induction false} ArrivalAppended(arrivals: seq<Arrival>, arrival: Arrival, key: FrameKey, from: nat)
    requires from <= |arrivals|
    ensures FirstArrival(arrivals + [arrival], key, from) ==
      if FirstArrival(arrivals, key, from).Some? then FirstArrival(arrivals, key, from)
      else if arrival.0.Key() == key then Some(arrival) else None
    decreases |arrivals| - from
  {
    if from < |arrivals| {
      ArrivalAppended(arrivals, arrival, key, from + 1);
    } else {
      assert FirstArrival(arrivals + [arrival], key, |arrivals| + 1) == None;
    }
  }

  predicate Attached(call: Call) {
    call.phase.Searching? || call.phase.Parked? || call.phase.Leaving?
  }

  ghost function AttachedTo(calls: map<nat, Call>, w: nat): set<nat> {
    set id | id in calls && calls[id].waiter == w && Attached(calls[id])
  }

  ghost predicate ValidWaiter(s: State, key: FrameKey)
    requires key in s.waiters
  {
    var w := s.waiters[key];
    && w < |s.memory| && s.memory[w].key == key && s.memory[w].ready == None
    && s.memory[w].count == |AttachedTo(s.calls, w)| > 0
  }

  ghost predicate Waiting(s: State, call: Call) {
    && call.waiter < |s.memory| && s.memory[call.waiter].key == call.key
    && call.registeredAt <= |s.arrivals|
    && s.memory[call.waiter].ready == FirstArrival(s.arrivals, call.key, call.registeredAt)
    && (s.memory[call.waiter].ready == None ==> call.key in s.waiters && s.waiters[call.key] == call.waiter)
  }

  /** What a settled outcome must be, given the snapshot and the arrivals since registration. */
  ghost predicate Right(arrivals: seq<Arrival>, call: Call, outcome: Outcome) {
    && call.registeredAt <= |arrivals| && ValidStore(call.snapshot)
    && (outcome.Rejected? <==> Locate(call.snapshot, call.cursor).Err?)
    && match outcome
       case Found(arrival) => IsFirstAfter(call.snapshot, call.cursor, call.key, arrival.0, arrival.1)
       case Woken(arrival) =>
         && SeriesAfter(call.snapshot, call.cursor, FrameSeries(call.key)) == []
         && FirstArrival(arrivals, call.key, call.registeredAt) == Some(arrival)
       case Cancelled => SeriesAfter(call.snapshot, call.cursor, FrameSeries(call.key)) == []
       case Rejected => true
  }

  ghost predicate Placed(call: Call) {
    ValidStore(call.snapshot) && Locate(call.snapshot, call.cursor).Ok?
  }

  ghost predicate ValidCall(s: State, call: Call) {
    && (Attached(call) ==> Waiting(s, call) && Placed(call))
    && match call.phase
       case Searching => true
       case Parked => SeriesAfter(call.snapshot, call.cursor, FrameSeries(call.key)) == []
       case Leaving(outcome) => !outcome.Rejected? && !outcome.Woken? && Right(s.arrivals, call, outcome)
       case Done(outcome) => Right(s.arrivals, call, outcome)
  }

  ghost predicate Inv(s: State) {
    && ValidStore(s.store)
    && (forall key :: key in s.waiters ==> ValidWaiter(s, key))
    && (forall id :: id in s.calls ==> ValidCall(s, s.calls[id]))
  }

  // ---- Every step keeps it ---------------------------------------------------------------

  lemma StoreKeeps(s: State, t: State)
    requires Inv(s) && ValidStore(t.store) && t == s.(store := t.store)
    ensures Inv(t)
  {
    hide ValidStore;
    hide Right;
    hide Placed;
    forall key | key in t.waiters
      ensures ValidWaiter(t, key)
    {
      assert ValidWaiter(s, key);
    }
    forall id | id in t.calls
      ensures ValidCall(t, t.calls[id])
    {
      assert ValidCall(s, s.calls[id]);
    }
  }

  // A call that stays attached, or was attached to no registered waiter, leaves every count right.
  lemma MoveKeepsWaiters(s: State, id: nat, phase: Phase)
    requires Inv(s) && id in s.calls
    requires Attached(s.calls[id]) == Attached(s.calls[id].(phase := phase)) ||
             (s.calls[id].waiter < |s.memory| && s.memory[s.calls[id].waiter].ready.Some?)
    ensures forall key :: key in s.waiters ==> ValidWaiter(Moved(s, id, phase), key)
  {
    hide ValidStore;
    hide ValidCall;
    forall key | key in s.waiters
      ensures ValidWaiter(Moved(s, id, phase), key)
    {
      assert ValidWaiter(s, key);
      assert AttachedTo(Moved(s, id, phase).calls, s.waiters[key]) == AttachedTo(s.calls, s.waiters[key]);
    }
  }

  lemma MoveKeeps(s: State, id: nat, phase: Phase)
    requires Inv(s) && id in s.calls
    requires forall key :: key in s.waiters ==> ValidWaiter(Moved(s, id, phase), key)
    requires ValidCall(s, s.calls[id].(phase := phase))
    ensures Inv(Moved(s, id, phase))
  {
    hide ValidStore;
    hide Right;
    hide Placed;
    hide ValidWaiter;
    var t := Moved(s, id, phase);
    forall other | other in t.calls
      ensures ValidCall(t, t.calls[other])
    {
      assert ValidCall(s, s.calls[other]);
    }
  }

  lemma SearchKeeps(s: State, t: State, id: nat)
    requires Inv(s) && Searches(s, t, id)
    ensures Inv(t)
  {
    hide ValidStore;
    hide IsFirstAfter;
    hide SeriesAfter;
    hide LocateCursor;
    var call := s.calls[id];
    assert ValidCall(s, call);
    if SeriesAfter(call.snapshot, call.cursor, FrameSeries(call.key)) == [] {
      MoveKeepsWaiters(s, id, Parked);
      MoveKeeps(s, id, Parked);
    } else {
      var event, next :| IsFirstAfter(call.snapshot, call.cursor, call.key, event, next) &&
        t == Moved(s, id, Leaving(Found((event, next))));
      MoveKeepsWaiters(s, id, Leaving(Found((event, next))));
      MoveKeeps(s, id, Leaving(Found((event, next))));
    }
  }

  lemma WakeKeeps(s: State, t: State, id: nat)
    requires Inv(s) && (Wakes(s, t, id) || Cancels(s, t, id))
    ensures Inv(t)
  {
    hide ValidStore;
    hide IsFirstAfter;
    hide SeriesAfter;
    hide LocateCursor;
    assert ValidCall(s, s.calls[id]);
    MoveKeepsWaiters(s, id, t.calls[id].phase);
    MoveKeeps(s, id, t.calls[id].phase);
  }

  // A settled outcome does not depend on the phase.
  lemma LeftIsRight(s: State, call: Call)
    requires ValidCall(s, call) && call.phase.Leaving?
    ensures ValidCall(s, call.(phase := Done(call.phase.outcome)))
  {
    hide ValidStore;
    hide IsFirstAfter;
    hide SeriesAfter;
    hide LocateCursor;
  }

  lemma LeaveKeepsWaiters(s: State, t: State, id: nat)
    requires Inv(s) && Leaves(s, t, id) && ValidCall(s, s.calls[id]) && s.memory[s.calls[id].waiter].ready.None?
    ensures forall key :: key in t.waiters ==> ValidWaiter(t, key)
  {
    hide ValidStore;
    hide Right;
    hide Placed;
    var (call, w) := (s.calls[id], s.calls[id].waiter);
    assert id in AttachedTo(s.calls, w);
    assert AttachedTo(t.calls, w) == AttachedTo(s.calls, w) - {id};
    assert ValidWaiter(s, call.key);
    forall key | key in t.waiters
      ensures ValidWaiter(t, key)
    {
      assert ValidWaiter(s, key);
      if key != call.key {
        assert AttachedTo(t.calls, s.waiters[key]) == AttachedTo(s.calls, s.waiters[key]);
      }
    }
  }

  lemma LeaveKeepsCall(s: State, t: State, id: nat, other: nat)
    requires Inv(s) && Leaves(s, t, id) && other in s.calls && other != id
    requires s.memory[s.calls[id].waiter].ready.None? && s.calls[id].key in s.waiters
    requires s.waiters[s.calls[id].key] == s.calls[id].waiter
    ensures ValidCall(t, t.calls[other])
  {
    hide ValidStore;
    hide Right;
    hide Placed;
    var w := s.calls[id].waiter;
    assert ValidCall(s, s.calls[other]);
    assert ValidWaiter(s, s.calls[id].key);
    if Attached(s.calls[other]) && s.calls[other].waiter == w {
      assert {id, other} <= AttachedTo(s.calls, w);
      assert |{id, other}| == 2;
      SubsetCount({id, other}, AttachedTo(s.calls, w));
    }
  }

  lemma {:induction false} SubsetCount(small: set<nat>, large: set<nat>)
    requires small <= large
    ensures |small| <= |large|
  {
    if small != {} {
      var x :| x in small;
      SubsetCount(small - {x}, large - {x});
    }
  }

  lemma LeaveKeeps(s: State, t: State, id: nat)
    requires Inv(s) && Leaves(s, t, id)
    ensures Inv(t)
  {
    hide ValidStore;
    hide Right;
    hide Placed;
    hide AttachedTo;
    var call := s.calls[id];
    assert ValidCall(s, call);
    LeftIsRight(s, call);
    if s.memory[call.waiter].ready.Some? {
      assert call.key in s.waiters ==> ValidWaiter(s, call.key);
      MoveKeepsWaiters(s, id, Done(call.phase.outcome));
      MoveKeeps(s, id, Done(call.phase.outcome));
    } else {
      LeaveKeepsWaiters(s, t, id);
      forall other | other in t.calls
        ensures ValidCall(t, t.calls[other])
      {
        if other != id {
          LeaveKeepsCall(s, t, id, other);
        }
      }
    }
  }

  lemma RegisterKeepsWaiters(s: State, t: State, id: nat, key: FrameKey, cursor: Cursor)
    requires Inv(s) && Registers(s, t, id, key, cursor)
    ensures forall other :: other in t.waiters ==> ValidWaiter(t, other)
  {
    hide ValidStore;
    hide ValidCall;
    hide LocateCursor;
    assert key in s.waiters ==> ValidWaiter(s, key);
    var w := t.calls[id].waiter;
    if Attached(t.calls[id]) {
      assert AttachedTo(t.calls, w) == AttachedTo(s.calls, w) + {id};
      if key !in s.waiters {
        NoneAttached(s);
      }
    }
    forall other | other in t.waiters
      ensures ValidWaiter(t, other)
    {
      assert other in s.waiters ==> ValidWaiter(s, other);
      if other in s.waiters && (other != key || !Attached(t.calls[id])) {
        assert AttachedTo(t.calls, s.waiters[other]) == AttachedTo(s.calls, s.waiters[other]);
      }
    }
  }

  lemma RegisterKeepsCall(s: State, t: State, id: nat, key: FrameKey, cursor: Cursor, other: nat)
    requires Inv(s) && Registers(s, t, id, key, cursor) && other in s.calls
    ensures ValidCall(t, t.calls[other])
  {
    hide ValidStore;
    hide Right;
    hide Placed;
    hide LocateCursor;
    assert key in s.waiters ==> ValidWaiter(s, key);
    assert ValidCall(s, s.calls[other]);
  }

  lemma RegisteredIsValid(s: State, t: State, id: nat, key: FrameKey, cursor: Cursor)
    requires Inv(s) && Registers(s, t, id, key, cursor)
    ensures ValidCall(t, t.calls[id])
  {
    hide ValidStore;
    hide IsFirstAfter;
    hide SeriesAfter;
    hide LocateCursor;
    hide AttachedTo;
    assert key in s.waiters ==> ValidWaiter(s, key);
  }

  lemma RegisterKeeps(s: State, t: State, id: nat, key: FrameKey, cursor: Cursor)
    requires Inv(s) && Registers(s, t, id, key, cursor)
    ensures Inv(t)
  {
    hide ValidWaiter;
    hide ValidCall;
    RegisterKeepsWaiters(s, t, id, key, cursor);
    assert ValidStore(t.store);
    hide ValidStore;
    forall other | other in t.calls
      ensures ValidCall(t, t.calls[other])
    {
      hide Inv;
      if other == id {
        RegisteredIsValid(s, t, id, key, cursor);
      } else {
        RegisterKeepsCall(s, t, id, key, cursor, other);
      }
    }
    hide Registers;
  }

  lemma NoneAttached(s: State)
    requires Inv(s)
    ensures AttachedTo(s.calls, |s.memory|) == {}
  {
    hide ValidStore;
    hide Right;
    hide Placed;
    hide ValidWaiter;
    forall id | id in s.calls
      ensures s.calls[id].waiter == |s.memory| ==> !Attached(s.calls[id])
    {
      assert ValidCall(s, s.calls[id]);
    }
  }

  lemma ArrivalKeepsCall(s: State, arrival: Arrival, id: nat)
    requires Inv(s) && id in s.calls
    ensures ValidCall(WakeAll(s, arrival), s.calls[id])
  {
    hide ValidStore;
    hide Placed;
    hide IsFirstAfter;
    hide SeriesAfter;
    hide LocateCursor;
    hide AttachedTo;
    var call := s.calls[id];
    assert arrival.0.Key() in s.waiters ==> ValidWaiter(s, arrival.0.Key());
    assert ValidCall(s, call);
    if call.registeredAt <= |s.arrivals| {
      ArrivalAppended(s.arrivals, arrival, call.key, call.registeredAt);
    }
  }

  lemma ArrivalKeeps(s: State, arrival: Arrival)
    requires Inv(s)
    ensures Inv(WakeAll(s, arrival))
  {
    hide ValidStore;
    hide ValidCall;
    hide AttachedTo;
    var t := WakeAll(s, arrival);
    assert arrival.0.Key() in s.waiters ==> ValidWaiter(s, arrival.0.Key());
    forall other | other in t.waiters
      ensures ValidWaiter(t, other)
    {
      assert ValidWaiter(s, other);
    }
    forall id | id in t.calls
      ensures ValidCall(t, t.calls[id])
    {
      ArrivalKeepsCall(s, arrival, id);
    }
  }

  lemma CaptureStepKeeps(s: State, t: State)
    requires Inv(s) && CaptureStep(s, t)
    ensures Inv(t)
  {
    hide ValidStore;
    hide AppendStep;
    hide Pruned;
    hide ClearStep;
    hide Right;
    hide Placed;
    if event :| AppendsFrame(s, t, event) {
      AppendKeeps(s.store, t.store, FrameItem(event), End(t.store));
      ArrivalKeeps(s, (event, End(t.store)));
      StoreKeeps(WakeAll(s, (event, End(t.store))), t);
    } else if event :| AppendsEvent(s, t, event) {
      AppendKeeps(s.store, t.store, EventItem(event), End(t.store));
      StoreKeeps(s, t);
    } else if cursors :| Prunes(s, t, cursors) {
      PruneIsSafe(s.store, cursors);
      StoreKeeps(s, t);
    } else {
      var epoch :| Clears(s, t, epoch);
      ClearKeeps(s.store, t.store, epoch);
      StoreKeeps(s, t);
    }
  }

  lemma NextKeeps(s: State, t: State)
    requires Inv(s) && Next(s, t)
    ensures Inv(t)
  {
    hide Inv;
    hide Registers;
    hide Searches;
    hide Wakes;
    hide Cancels;
    hide Leaves;
    hide CaptureStep;
    if id, key, cursor :| Registers(s, t, id, key, cursor) {
      RegisterKeeps(s, t, id, key, cursor);
    } else if id :| CallStep(s, t, id) {
      if Searches(s, t, id) {
        SearchKeeps(s, t, id);
      } else if Leaves(s, t, id) {
        LeaveKeeps(s, t, id);
      } else {
        WakeKeeps(s, t, id);
      }
    } else {
      CaptureStepKeeps(s, t);
    }
  }

  // ---- Runs ------------------------------------------------------------------------------

  ghost predicate Run(run: seq<State>) {
    && |run| > 0 && Init(run[0])
    && forall i :: 0 <= i < |run| - 1 ==> Next(run[i], run[i + 1])
  }

  lemma {:induction false} RunKeeps(run: seq<State>, k: nat)
    requires Run(run) && k < |run|
    ensures Inv(run[k])
  {
    hide Inv;
    hide Next;
    if k > 0 {
      RunKeeps(run, k - 1);
      assert Next(run[k - 1], run[k - 1 + 1]);
      NextKeeps(run[k - 1], run[k]);
    } else {
      InitIsValid(run[0]);
    }
  }

  lemma InitIsValid(s: State)
    requires Init(s)
    ensures Inv(s)
  {
  }

  /**
   * No lost wake-up, on every run: a parked call whose frame has arrived since its registration can be
   * woken at once, and with the first such frame, whatever appends, prunes, clears, cancellations and
   * calls sharing the waiter came in between; if it cannot be woken, no such frame has arrived.
   */
  lemma NoLostWakeup(run: seq<State>, id: nat)
    requires Run(run) && id in run[|run| - 1].calls && run[|run| - 1].calls[id].phase.Parked?
    ensures var s := run[|run| - 1]; var call := s.calls[id];
      && call.registeredAt <= |s.arrivals|
      && (FirstArrival(s.arrivals, call.key, call.registeredAt).None? ==> forall t :: !Wakes(s, t, id))
      && (FirstArrival(s.arrivals, call.key, call.registeredAt).Some? ==>
            Wakes(s, Moved(s, id, Done(Woken(FirstArrival(s.arrivals, call.key, call.registeredAt).value))), id))
  {
    hide ValidStore;
    hide Right;
    hide Placed;
    var s := run[|run| - 1];
    RunKeeps(run, |run| - 1);
    assert ValidCall(s, s.calls[id]);
  }

  /**
   * On every run, a call that is done was rejected exactly for a cursor that does not place, or returned
   * the first matching frame after its cursor in its snapshot, or, that snapshot having none, the first
   * matching frame to arrive after its registration, or was cancelled.
   */
  lemma OutcomeIsRight(run: seq<State>, id: nat)
    requires Run(run) && id in run[|run| - 1].calls && run[|run| - 1].calls[id].phase.Done?
    ensures Right(run[|run| - 1].arrivals, run[|run| - 1].calls[id], run[|run| - 1].calls[id].phase.outcome)
  {
    hide Right;
    hide ValidStore;
    RunKeeps(run, |run| - 1);
    assert ValidCall(run[|run| - 1], run[|run| - 1].calls[id]);
  }

  /** On every run, a registered waiter counts exactly the calls still attached to it, and there is one. */
  lemma CountsAreExact(run: seq<State>, key: FrameKey)
    requires Run(run) && key in run[|run| - 1].waiters
    ensures var s := run[|run| - 1]; var w := s.waiters[key];
      && w < |s.memory| && s.memory[w].count > 0
      && s.memory[w].count == |AttachedTo(s.calls, w)|
      && forall id :: id in AttachedTo(s.calls, w) ==> s.calls[id].key == key
  {
    hide ValidStore;
    hide Right;
    hide Placed;
    var s := run[|run| - 1];
    RunKeeps(run, |run| - 1);
    assert ValidWaiter(s, key);
    forall id | id in AttachedTo(s.calls, s.waiters[key])
      ensures s.calls[id].key == key
    {
      assert ValidCall(s, s.calls[id]);
    }
  }
}
