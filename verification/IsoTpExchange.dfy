/**
 * Operations of one ISO-TP link beside a running capture (isotp/isotp.go, isotp/transmit.go,
 * internal/transport/cursor.go): the two tokens, the receive position, and the retention policy. Calls,
 * captured traffic, prunes and clears interleave in any order; every section under a lock is one step.
 */
module IsoTpExchange {
  import opened Wrappers
  import opened Frames
  import opened CaptureChunk
  import opened CaptureStore
  import opened CaptureHistory
  import opened CaptureCursors
  import opened CaptureSearch

  // The frames the link sends and the frames it listens to, as its own capture records them.
  datatype Keys = Keys(tx: FrameKey, rx: FrameKey)

  ghost predicate ValidKeys(keys: Keys) {
    keys.tx.direction == DirectionTransmit && keys.rx.direction == DirectionReceive
  }

  // Single is a Send of one frame; Begin lasts until its exchange is closed.
  datatype Kind = Begin | Segmented | Single | Receiving | Reset

  /**
   * Sending: holds the sending token. Entered: holds every token it needs. Running: between
   * startReception and finishReception. Stopped: no longer retaining, the receiving token still held.
   * Released: only the sending token still held.
   */
  datatype Stage = Wanting | Sending | Entered | Running | Stopped | Released | Over

  datatype Op = Op(kind: Kind, stage: Stage)

  // The reception that the receiving token's holder runs: the place it started from, the place of its
  // accepted first frame, whether the receive position has been moved there, and the places of the frames
  // it has read. A place is the number of items appended so far in the generation, the frame included.
  datatype Session = Session(
    owner: nat,
    kind: Kind,
    generation: nat,
    start: nat,
    accepted: Option<nat>,
    positioned: bool,
    consumed: seq<nat>,
    lost: bool)

  // `sending` and `receiving` count the tokens in the two channels of capacity one. `snapshots` holds
  // everything RetentionCursor has ever returned.
  datatype State = State(
    h: History,
    cursor: Cursor,
    retaining: bool,
    sending: nat,
    receiving: nat,
    ops: map<nat, Op>,
    session: Session,
    snapshots: set<Cursor>)

  predicate Repositions(kind: Kind) {
    kind in {Begin, Segmented, Reset}
  }

  predicate NeedsSending(kind: Kind) {
    kind in {Begin, Segmented, Single}
  }

  predicate NeedsReceiving(kind: Kind) {
    kind != Single
  }

  predicate HoldsSending(op: Op) {
    NeedsSending(op.kind) && op.stage in {Sending, Entered, Running, Stopped, Released}
  }

  predicate HoldsReceiving(op: Op) {
    NeedsReceiving(op.kind) && op.stage in {Entered, Running, Stopped}
  }

  // ---- Tokens ------------------------------------------------------------------------------

  ghost function Moved(s: State, id: nat, stage: Stage): State
    requires id in s.ops
  {
    s.(ops := s.ops[id := s.ops[id].(stage := stage)])
  }

  ghost predicate At(s: State, id: nat, stage: Stage) {
    id in s.ops && s.ops[id].stage == stage
  }

  ghost predicate Calls(s: State, t: State, id: nat, kind: Kind) {
    id !in s.ops && t == s.(ops := s.ops[id := Op(kind, Wanting)])
  }

  /** acquire(link.sending) */
  ghost predicate TakesSending(s: State, t: State, id: nat) {
    && At(s, id, Wanting) && NeedsSending(s.ops[id].kind) && s.sending > 0
    && t == Moved(s, id, Sending).(sending := s.sending - 1)
  }

  /** acquire(link.receiving); Begin and a segmented Send take the sending token first. */
  ghost predicate TakesReceiving(s: State, t: State, id: nat) {
    && id in s.ops && NeedsReceiving(s.ops[id].kind) && s.receiving > 0
    && s.ops[id].stage == (if NeedsSending(s.ops[id].kind) then Sending else Wanting)
    && t == Moved(s, id, Entered).(receiving := s.receiving - 1)
  }

  /** An acquire that ends first, or the check that Reset makes behind it. */
  ghost predicate GivesUp(s: State, t: State, id: nat) {
    && id in s.ops
    && (s.ops[id].stage == Wanting
        || (s.ops[id].stage == Entered && s.ops[id].kind == Reset))
    && t == Moved(s, id, Over).(receiving := s.receiving + if s.ops[id].stage == Entered then 1 else 0)
  }

  /** release(link.receiving), the second half of finishReception. */
  ghost predicate ReleasesReceiving(s: State, t: State, id: nat) {
    && At(s, id, Stopped)
    && t == Moved(s, id, if NeedsSending(s.ops[id].kind) then Released else Over).(receiving := s.receiving + 1)
  }

  /** release(link.sending): after everything else, or when the receiving token was not to be had. */
  ghost predicate ReleasesSending(s: State, t: State, id: nat) {
    && id in s.ops && NeedsSending(s.ops[id].kind) && s.ops[id].stage in {Sending, Released}
    && t == Moved(s, id, Over).(sending := s.sending + 1)
  }

  ghost predicate TokenStep(s: State, t: State) {
    || (exists id, kind :: Calls(s, t, id, kind))
    || (exists id :: TakesSending(s, t, id) || TakesReceiving(s, t, id) || GivesUp(s, t, id)
                     || ReleasesReceiving(s, t, id) || ReleasesSending(s, t, id))
  }

  // ---- The receive position ----------------------------------------------------------------

  // The zero cursor stands before the oldest retained item.
  ghost function Place(h: History, cursor: Cursor): nat
    requires Known(h, cursor)
  {
    if cursor == ZERO_CURSOR then h.base else h.issued[cursor]
  }

  // The history once its end has been read off.
  ghost function Ended(h: History): History
    requires ValidStore(h.store)
  {
    EndIsBehindAll(h.store);
    Observed(h, End(h.store))
  }

  ghost predicate Known(h: History, cursor: Cursor) {
    cursor == ZERO_CURSOR || cursor in h.issued
  }

  /** startReception: repositioning and activation are one section. */
  ghost predicate Starts(s: State, t: State, id: nat) {
    && At(s, id, Entered) && NeedsReceiving(s.ops[id].kind) && ValidStore(s.h.store)
    && var kind := s.ops[id].kind;
       var cursor := if Repositions(kind) then End(s.h.store) else s.cursor;
       var h := if Repositions(kind) then Ended(s.h) else s.h;
    && t == Moved(s, id, Running).(
         h := h, cursor := cursor, retaining := true,
         session := Session(id, kind, s.h.store.generation, |s.h.all|, None, false, [], false))
  }

  /** The first half of finishReception. */
  ghost predicate Stops(s: State, t: State, id: nat) {
    At(s, id, Running) && t == Moved(s, id, Stopped).(retaining := false)
  }

  ghost predicate AppendsFrame(h: History, k: History, key: FrameKey) {
    exists frame: FrameEvent :: frame.Key() == key && Appends(h, k, FrameItem(frame))
  }

  // The program order of a transmission: its first frame, then SentCursor, then everything else.
  predicate MayTransmit(s: State, id: nat) {
    && id in s.ops
    && match s.ops[id].kind
       case Single => s.ops[id].stage == Sending
       case Receiving => s.ops[id].stage == Running
       case Reset => false
       case _ => s.ops[id].stage == Running && (s.session.accepted.None? || s.session.positioned)
  }

  /** The bus accepts a frame of the link; Single and Receiving run no session of their own here. */
  ghost predicate Transmits(keys: Keys, s: State, t: State, id: nat) {
    && MayTransmit(s, id) && AppendsFrame(s.h, t.h, keys.tx)
    && t == s.(h := t.h, session :=
         if s.ops[id].kind in {Begin, Segmented} && s.session.accepted.None?
         then s.session.(accepted := Some(|t.h.all|)) else s.session)
  }

  ghost predicate Lost(s: State, t: State) {
    t == s.(cursor := ZERO_CURSOR, session := s.session.(lost := true))
  }

  /** The position moves behind the first retained frame of a series after it. */
  ghost predicate Advances(s: State, t: State, key: FrameKey, session: Session) {
    && ValidStore(s.h.store) && Locate(s.h.store, s.cursor).Ok?
    && exists event :: IsFirstAfter(s.h.store, s.cursor, key, event, t.cursor)
         && t == s.(h := Observed(s.h, t.cursor), cursor := t.cursor, session := session)
  }

  /** SentCursor never waits: a position or a transmission that is gone is a lost cursor. */
  ghost predicate Positions(keys: Keys, s: State, t: State, id: nat) {
    && At(s, id, Running) && s.ops[id].kind in {Begin, Segmented} && !s.session.lost
    && s.session.accepted.Some? && !s.session.positioned && ValidStore(s.h.store)
    && if Locate(s.h.store, s.cursor).Err? || SeriesAfter(s.h.store, s.cursor, FrameSeries(keys.tx)) == [] then Lost(s, t)
       else Advances(s, t, keys.tx, s.session.(positioned := true))
  }

  /** nextFrame */
  ghost predicate Reads(keys: Keys, s: State, t: State, id: nat) {
    && At(s, id, Running) && s.ops[id].kind != Reset && !s.session.lost
    && (s.ops[id].kind == Receiving || s.session.positioned) && ValidStore(s.h.store)
    && if Locate(s.h.store, s.cursor).Err? then Lost(s, t)
       else
         && Known(t.h, t.cursor)
         && Advances(s, t, keys.rx, s.session.(consumed := s.session.consumed + [Place(t.h, t.cursor)]))
  }

  /** RetentionCursor */
  ghost predicate Snapshots(s: State, t: State) {
    && ValidStore(s.h.store)
    && if s.retaining then t == s.(snapshots := s.snapshots + {s.cursor})
       else t == s.(h := Ended(s.h), snapshots := s.snapshots + {End(s.h.store)})
  }

  ghost predicate LinkStep(keys: Keys, s: State, t: State) {
    || (exists id :: Starts(s, t, id) || Stops(s, t, id) || Transmits(keys, s, t, id)
                     || Positions(keys, s, t, id) || Reads(keys, s, t, id))
    || Snapshots(s, t)
  }

  // ---- Everything else on the bus ------------------------------------------------------------

  /** Exclusive use of the transmit identifier: nothing else is ever captured under its key. */
  ghost predicate Arrives(keys: Keys, s: State, t: State) {
    && t == s.(h := t.h)
    && exists item :: SeriesOf(item) != FrameSeries(keys.tx) && Appends(s.h, t.h, item)
  }

  /** A prune that is given a retention cursor of this link, whenever it was taken, among other cursors. */
  ghost predicate PrunesRetaining(s: State, t: State) {
    && t == s.(h := t.h)
    && exists cursors, i :: PrunesWith(s, t, cursors, i)
  }

  ghost predicate PrunesWith(s: State, t: State, cursors: seq<Cursor>, i: nat) {
    i < |cursors| && cursors[i] in s.snapshots && Prunes(s.h, t.h, cursors)
  }

  ghost predicate ClearsAll(s: State, t: State) {
    t == s.(h := t.h) && exists epoch :: Clears(s.h, t.h, epoch)
  }

  ghost predicate Step(keys: Keys, s: State, t: State) {
    TokenStep(s, t) || LinkStep(keys, s, t) || Arrives(keys, s, t) || PrunesRetaining(s, t) || ClearsAll(s, t)
  }

  ghost predicate Init(s: State) {
    && Inv(s.h) && s.cursor == End(s.h.store) && Known(s.h, s.cursor) && !s.retaining
    && s.sending == 1 && s.receiving == 1 && s.ops == map[] && s.snapshots == {}
    && s.session.generation <= s.h.store.generation
  }

  ghost predicate Run(keys: Keys, run: seq<State>) {
    && ValidKeys(keys) && |run| > 0 && Init(run[0])
    && forall i :: 0 <= i < |run| - 1 ==> Step(keys, run[i], run[i + 1])
  }

  // ---- Invariants ----------------------------------------------------------------------------

  predicate ValidOp(op: Op) {
    match op.kind
    case Single => op.stage in {Wanting, Sending, Over}
    case Receiving => op.stage in {Wanting, Entered, Running, Stopped, Over}
    case Reset => op.stage in {Wanting, Entered, Running, Stopped, Over}
    case _ => true
  }

  ghost predicate SendingHeld(ops: map<nat, Op>, free: nat) {
    && free <= 1
    && (forall a, b :: a in ops && b in ops && HoldsSending(ops[a]) && HoldsSending(ops[b]) ==> a == b)
    && (forall a :: a in ops && HoldsSending(ops[a]) ==> free == 0)
  }

  ghost predicate ReceivingHeld(ops: map<nat, Op>, free: nat) {
    && free <= 1
    && (forall a, b :: a in ops && b in ops && HoldsReceiving(ops[a]) && HoldsReceiving(ops[b]) ==> a == b)
    && (forall a :: a in ops && HoldsReceiving(ops[a]) ==> free == 0)
  }

  ghost predicate OneRuns(s: State) {
    && (forall a :: a in s.ops ==> ValidOp(s.ops[a]))
    && (forall a :: At(s, a, Running) ==> s.retaining && s.ops[a].kind == s.session.kind)
    && (s.retaining ==> At(s, s.session.owner, Running))
  }

  /** Each token is either in its channel or with exactly one operation. */
  ghost predicate TokenInv(s: State) {
    SendingHeld(s.ops, s.sending) && ReceivingHeld(s.ops, s.receiving) && OneRuns(s)
  }

  ghost predicate Traced(h: History, cursor: Cursor) {
    Known(h, cursor) || cursor in h.expired
  }

  ghost predicate CaptureInv(s: State) {
    && Inv(s.h) && Traced(s.h, s.cursor)
    && (forall c :: c in s.snapshots ==> Traced(s.h, c))
    && s.session.generation <= s.h.store.generation
  }

  // A running exchange or segmented Send, in a capture that has not been cleared since it started.
  predicate Scoped(s: State) {
    s.retaining && s.session.kind in {Begin, Segmented} && s.session.generation == s.h.store.generation
  }

  /** The receive position is retained, and no retention cursor was ever ahead of it. */
  ghost predicate Safe(s: State) {
    && !s.session.lost && Known(s.h, s.cursor)
    && s.h.base <= Place(s.h, s.cursor) <= |s.h.all| && s.session.start <= Place(s.h, s.cursor)
    && forall c :: c in s.snapshots ==>
         c == ZERO_CURSOR || c in s.h.expired || (c in s.h.issued && s.h.issued[c] <= Place(s.h, s.cursor))
  }

  // Before SentCursor: the operation's own first frame is the only one captured under the transmit key.
  ghost predicate Unpositioned(keys: Keys, s: State)
    requires Known(s.h, s.cursor)
  {
    && Place(s.h, s.cursor) == s.session.start && s.session.consumed == []
    && (s.session.accepted.Some? ==> s.session.start < s.session.accepted.value <= |s.h.all|)
    && forall i :: s.session.start <= i < |s.h.all| ==>
         (SeriesOf(s.h.all[i]) == FrameSeries(keys.tx) <==> s.session.accepted == Some(i + 1))
  }

  /** What has been read is every frame of a series between two places, in order. */
  ghost predicate ReadsExactly(all: seq<Item>, series: Series, from: nat, to: nat, consumed: seq<nat>)
    requires from <= to <= |all|
  {
    && (forall i, j :: 0 <= i < j < |consumed| ==> consumed[i] < consumed[j])
    && (forall p :: p in consumed ==> from < p <= to && SeriesOf(all[p - 1]) == series)
    && (forall i :: from <= i < to && SeriesOf(all[i]) == series ==> i + 1 in consumed)
  }

  ghost predicate Positioned(keys: Keys, s: State)
    requires Known(s.h, s.cursor)
  {
    && s.session.accepted.Some? && s.session.start < s.session.accepted.value
    && s.session.accepted.value <= Place(s.h, s.cursor) <= |s.h.all|
    && SeriesOf(s.h.all[s.session.accepted.value - 1]) == FrameSeries(keys.tx)
    && ReadsExactly(s.h.all, FrameSeries(keys.rx), s.session.accepted.value, Place(s.h, s.cursor), s.session.consumed)
  }

  ghost predicate SessionInv(keys: Keys, s: State) {
    Scoped(s) ==> Safe(s) && if s.session.positioned then Positioned(keys, s) else Unpositioned(keys, s)
  }

  ghost predicate Valid(keys: Keys, s: State) {
    TokenInv(s) && CaptureInv(s) && SessionInv(keys, s)
  }

  // ---- Token steps ---------------------------------------------------------------------------

  function One(yes: bool): nat {
    if yes then 1 else 0
  }

  // An operation that changes what it holds changes the channel the other way.
  lemma KeepSendingHeld(ops: map<nat, Op>, free: nat, id: nat, op: Op, free': nat)
    requires SendingHeld(ops, free)
    requires free + One(id in ops && HoldsSending(ops[id])) == free' + One(HoldsSending(op))
    ensures SendingHeld(ops[id := op], free')
  {
    hide HoldsSending;
  }

  lemma KeepReceivingHeld(ops: map<nat, Op>, free: nat, id: nat, op: Op, free': nat)
    requires ReceivingHeld(ops, free)
    requires free + One(id in ops && HoldsReceiving(ops[id])) == free' + One(HoldsReceiving(op))
    ensures ReceivingHeld(ops[id := op], free')
  {
    hide HoldsReceiving;
  }

  lemma CallKeeps(s: State, t: State, id: nat, kind: Kind)
    requires TokenInv(s) && Calls(s, t, id, kind)
    ensures TokenInv(t)
  {
    KeepSendingHeld(s.ops, s.sending, id, t.ops[id], t.sending);
    KeepReceivingHeld(s.ops, s.receiving, id, t.ops[id], t.receiving);
  }

  lemma TakeSendingKeeps(s: State, t: State, id: nat)
    requires TokenInv(s) && TakesSending(s, t, id)
    ensures TokenInv(t)
  {
    KeepSendingHeld(s.ops, s.sending, id, t.ops[id], t.sending);
    KeepReceivingHeld(s.ops, s.receiving, id, t.ops[id], t.receiving);
  }

  lemma TakeReceivingKeeps(s: State, t: State, id: nat)
    requires TokenInv(s) && TakesReceiving(s, t, id)
    ensures TokenInv(t)
  {
    KeepSendingHeld(s.ops, s.sending, id, t.ops[id], t.sending);
    KeepReceivingHeld(s.ops, s.receiving, id, t.ops[id], t.receiving);
  }

  lemma GiveUpKeeps(s: State, t: State, id: nat)
    requires TokenInv(s) && GivesUp(s, t, id)
    ensures TokenInv(t)
  {
    KeepSendingHeld(s.ops, s.sending, id, t.ops[id], t.sending);
    KeepReceivingHeld(s.ops, s.receiving, id, t.ops[id], t.receiving);
  }

  lemma ReleaseReceivingKeeps(s: State, t: State, id: nat)
    requires TokenInv(s) && ReleasesReceiving(s, t, id)
    ensures TokenInv(t)
  {
    KeepSendingHeld(s.ops, s.sending, id, t.ops[id], t.sending);
    KeepReceivingHeld(s.ops, s.receiving, id, t.ops[id], t.receiving);
  }

  lemma ReleaseSendingKeeps(s: State, t: State, id: nat)
    requires TokenInv(s) && ReleasesSending(s, t, id)
    ensures TokenInv(t)
  {
    KeepSendingHeld(s.ops, s.sending, id, t.ops[id], t.sending);
    KeepReceivingHeld(s.ops, s.receiving, id, t.ops[id], t.receiving);
  }

  lemma TokenStepKeeps(keys: Keys, s: State, t: State)
    requires Valid(keys, s) && TokenStep(s, t)
    ensures Valid(keys, t)
  {
    hide TokenInv;
    hide CaptureInv;
    SameCaptureKeeps(keys, s, t);
    if id, kind :| Calls(s, t, id, kind) {
      CallKeeps(s, t, id, kind);
    } else if id :| TakesSending(s, t, id) {
      TakeSendingKeeps(s, t, id);
    } else if id :| TakesReceiving(s, t, id) {
      TakeReceivingKeeps(s, t, id);
    } else if id :| GivesUp(s, t, id) {
      GiveUpKeeps(s, t, id);
    } else if id :| ReleasesReceiving(s, t, id) {
      ReleaseReceivingKeeps(s, t, id);
    } else {
      var id :| ReleasesSending(s, t, id);
      ReleaseSendingKeeps(s, t, id);
    }
  }

  lemma SameCaptureKeeps(keys: Keys, s: State, t: State)
    requires Valid(keys, s) && TokenStep(s, t)
    ensures CaptureInv(t) && SessionInv(keys, t)
  {
    hide Inv;
    hide TokenInv;
    hide ReadsExactly;
    assert t == s.(ops := t.ops, sending := t.sending, receiving := t.receiving);
  }

  /** Whoever is about to give a token back finds its channel empty: a release never blocks. */
  lemma ReleaseNeverBlocks(keys: Keys, s: State, id: nat)
    requires Valid(keys, s) && id in s.ops
    ensures HoldsSending(s.ops[id]) ==> s.sending == 0
    ensures HoldsReceiving(s.ops[id]) ==> s.receiving == 0
  {
  }

  /** While an exchange or a segmented Send runs, no other operation of the link can transmit. */
  lemma OnlyTheOwnerTransmits(keys: Keys, s: State, id: nat, other: nat)
    requires Valid(keys, s) && At(s, id, Running) && s.ops[id].kind in {Begin, Segmented}
    requires MayTransmit(s, other)
    ensures other == id
  {
    var (owner, sender) := (s.ops[id], s.ops[other]);
    assert HoldsSending(owner) && HoldsReceiving(owner);
    assert HoldsSending(sender) || HoldsReceiving(sender);
  }

  // ---- Cursors that are read off the capture ---------------------------------------------------

  lemma EndNamesRecord(s: Store)
    requires ValidStore(s)
    ensures Locate(s, End(s)).Ok? && Behind(s, End(s)) == |Log(s.chunks)|
    ensures End(s) == ZERO_CURSOR || NamesRecord(s, End(s))
  {
    hide ValidChunk;
    hide Log;
    EndIsBehindAll(s);
    LogLength(s.chunks);
    var n := |s.chunks|;
    if |s.chunks[n - 1].records| == 0 {
      assert n == 1;
      assert s.chunks[..0] == [];
      assert NewestCursor(ZERO_CURSOR, s.generation, s.chunks) == NewestCursor(ZERO_CURSOR, s.generation, s.chunks[..0]);
    }
  }

  lemma ObservedKeeps(h: History, cursor: Cursor)
    requires Inv(h) && Locate(h.store, cursor).Ok? && (cursor == ZERO_CURSOR || NamesRecord(h.store, cursor))
    ensures var k := Observed(h, cursor);
      && Inv(k) && k.store == h.store && k.all == h.all && k.base == h.base && k.expired == h.expired
      && Known(k, cursor) && Place(k, cursor) == h.base + Behind(h.store, cursor) <= |h.all|
      && forall c :: c in h.issued ==> c in k.issued && k.issued[c] == h.issued[c]
  {
    hide NamesRecord;
    StoreIsValid(h);
    if cursor == ZERO_CURSOR {
      ZeroLocates(h.store);
      BaseIsInside(h);
    } else {
      ObservedIsPlaced(h, cursor);
    }
    hide Inv;
  }

  lemma BaseIsInside(h: History)
    requires Inv(h)
    ensures h.base <= |h.all|
  {
  }

  lemma EndedKeeps(h: History)
    requires Inv(h)
    ensures ValidStore(h.store)
    ensures var (k, end) := (Ended(h), End(h.store));
      && Inv(k) && k.store == h.store && k.all == h.all && k.base == h.base && k.expired == h.expired
      && Known(k, end) && Place(k, end) == |h.all| && h.base <= |h.all|
      && forall c :: c in h.issued ==> c in k.issued && k.issued[c] == h.issued[c]
  {
    EndNamesRecord(h.store);
    ObservedKeeps(h, End(h.store));
    EndOfLog(h);
    LogLength(h.store.chunks);
  }

  lemma {:induction false} FilterIsSeries(items: seq<Item>, series: Series)
    ensures forall x :: x in Filter(items, series) ==> SeriesOf(x) == series
    ensures Filter(items, series) == [] ==> forall x :: x in items ==> SeriesOf(x) != series
  {
    if items != [] {
      FilterIsSeries(items[..|items| - 1], series);
      assert items == items[..|items| - 1] + [items[|items| - 1]];
    }
  }

  lemma {:induction false} OnlyTheLast(items: seq<Item>, series: Series)
    requires items != [] && Filter(items, series) == [items[|items| - 1]]
    ensures SeriesOf(items[|items| - 1]) == series
    ensures forall i :: 0 <= i < |items| - 1 ==> SeriesOf(items[i]) != series
  {
    var before := items[..|items| - 1];
    FilterIsSeries(items, series);
    FilterIsSeries(before, series);
    assert SeriesOf(items[|items| - 1]) == series by {
      assert items[|items| - 1] in Filter(items, series);
    }
    assert Filter(items, series) == Filter(before, series) + [items[|items| - 1]];
    assert |Filter(before, series)| == 0;
    forall i | 0 <= i < |items| - 1
      ensures SeriesOf(items[i]) != series
    {
      assert items[i] == before[i] && before[i] in before;
    }
  }

  // The record that a search finds, in terms of everything appended.
  lemma FoundIsNext(h: History, cursor: Cursor, key: FrameKey, event: FrameEvent, next: Cursor)
    requires Inv(h) && ValidStore(h.store) && Known(h, cursor) && Locate(h.store, cursor).Ok?
    requires IsFirstAfter(h.store, cursor, key, event, next)
    ensures NamesRecord(h.store, next) && Locate(h.store, next).Ok?
    ensures var (from, to) := (Place(h, cursor), h.base + Behind(h.store, next));
      && from < to <= |h.all| && SeriesOf(h.all[to - 1]) == FrameSeries(key)
      && forall i :: from <= i < to - 1 ==> SeriesOf(h.all[i]) != FrameSeries(key)
  {
    hide ValidChunk;
    hide Filter;
    PlaceIsBehind(h, cursor);
    LogIsTail(h);
    hide Inv;
    hide ValidStore;
    hide NamesRecord;
    hide Locate;
    hide Log;
    FoundInTail(h.all, h.base, Behind(h.store, cursor), Behind(h.store, next), event, FrameSeries(key));
  }

  lemma {:induction false} FoundInTail(all: seq<Item>, base: nat, from: nat, to: nat, event: FrameEvent, series: Series)
    requires base + from < base + to <= |all| && all[base..][to - 1] == FrameItem(event)
    requires Filter(all[base..][from..to], series) == [FrameItem(event)]
    ensures SeriesOf(all[base + to - 1]) == series
    ensures forall i :: base + from <= i < base + to - 1 ==> SeriesOf(all[i]) != series
  {
    hide Filter;
    var found := all[base..][from..to];
    assert found[|found| - 1] == all[base + to - 1];
    OnlyTheLast(found, series);
    forall i | base + from <= i < base + to - 1
      ensures SeriesOf(all[i]) != series
    {
      assert all[i] == found[i - base - from];
    }
  }

  lemma LogIsTail(h: History)
    requires Inv(h)
    ensures ValidStore(h.store) && h.base <= |h.all| && Log(h.store.chunks) == h.all[h.base..]
  {
  }

  lemma PlaceIsBehind(h: History, cursor: Cursor)
    requires Inv(h) && Known(h, cursor)
    ensures ValidStore(h.store) && (Locate(h.store, cursor).Ok? <==> Place(h, cursor) >= h.base)
    ensures Locate(h.store, cursor).Ok? ==> Place(h, cursor) == h.base + Behind(h.store, cursor)
  {
    ZeroLocates(h.store);
    if cursor != ZERO_CURSOR {
      PlacedLocates(h, cursor);
    }
  }

  // ---- Link steps ------------------------------------------------------------------------------

  // The capture part of a step that reads a cursor off the capture.
  ghost predicate Reread(h: History, k: History) {
    && Inv(k) && k.store == h.store && k.all == h.all && k.base == h.base && k.expired == h.expired
    && forall c :: c in h.issued ==> c in k.issued && k.issued[c] == h.issued[c]
  }

  lemma RereadKeepsTraces(s: State, k: History)
    requires CaptureInv(s) && Reread(s.h, k)
    ensures Traced(k, s.cursor) && forall c :: c in s.snapshots ==> Traced(k, c)
  {
    hide Inv;
  }

  lemma StartKeeps(keys: Keys, s: State, t: State, id: nat)
    requires Valid(keys, s) && Starts(s, t, id)
    ensures Valid(keys, t)
  {
    EndedKeeps(s.h);
    IssuedIsInside(s.h);
    hide Inv;
    hide ValidStore;
    StartKeepsTokens(s, t, id);
    assert Reread(s.h, t.h);
    RereadKeepsTraces(s, t.h);
    if Scoped(t) {
      assert Place(t.h, t.cursor) == |t.h.all|;
    }
  }

  lemma SameTokens(s: State, t: State)
    requires TokenInv(s) && t.ops == s.ops && t.sending == s.sending && t.receiving == s.receiving
    requires t.retaining == s.retaining && t.session.owner == s.session.owner && t.session.kind == s.session.kind
    ensures TokenInv(t)
  {
  }

  lemma IssuedIsInside(h: History)
    requires Inv(h)
    ensures ValidStore(h.store) && h.base <= |h.all|
    ensures forall c :: c in h.issued ==> c != ZERO_CURSOR && h.issued[c] <= |h.all|
  {
    forall c | c in h.issued
      ensures c != ZERO_CURSOR && h.issued[c] <= |h.all|
    {
      assert Placed(h, c, h.issued[c]);
    }
  }

  lemma StartKeepsTokens(s: State, t: State, id: nat)
    requires TokenInv(s) && Starts(s, t, id)
    ensures TokenInv(t)
  {
    hide Ended;
    hide ValidStore;
    hide End;
    assert HoldsReceiving(s.ops[id]);
    StartedTokens(s, t, id);
  }

  lemma StartedTokens(s: State, t: State, id: nat)
    requires TokenInv(s) && At(s, id, Entered) && NeedsReceiving(s.ops[id].kind)
    requires t.ops == s.ops[id := s.ops[id].(stage := Running)] && t.sending == s.sending && t.receiving == s.receiving
    requires t.retaining && t.session.owner == id && t.session.kind == s.ops[id].kind
    ensures TokenInv(t)
  {
    forall a | At(t, a, Running)
      ensures a == id
    {
      assert a != id ==> HoldsReceiving(s.ops[a]);
    }
  }

  lemma StopKeeps(keys: Keys, s: State, t: State, id: nat)
    requires Valid(keys, s) && Stops(s, t, id)
    ensures Valid(keys, t)
  {
    hide Inv;
    StopKeepsTokens(s, t, id);
  }

  lemma StopKeepsTokens(s: State, t: State, id: nat)
    requires TokenInv(s) && Stops(s, t, id)
    ensures TokenInv(t)
  {
    assert ValidOp(s.ops[id]);
    assert NeedsReceiving(s.ops[id].kind);
    assert HoldsReceiving(s.ops[id]);
    forall a | a in t.ops
      ensures !At(t, a, Running)
    {
      assert At(s, a, Running) ==> HoldsReceiving(s.ops[a]);
    }
  }

  // What growing the log does to everything that is known of it.
  ghost predicate Grown(h: History, k: History, item: Item) {
    && Inv(k) && k.all == h.all + [item] && k.base == h.base && k.expired == h.expired
    && k.store.generation == h.store.generation
    && forall c :: c in h.issued ==> c in k.issued && k.issued[c] == h.issued[c]
  }

  lemma AppendGrowsHistory(h: History, k: History, item: Item)
    requires Inv(h) && Appends(h, k, item)
    ensures Grown(h, k, item)
  {
    HistoryKeeps(h, k);
    forall c | c in h.issued
      ensures c in k.issued && k.issued[c] == h.issued[c]
    {
      GrowthKeepsIssued(h, k, c);
    }
    AppendFacts(h, k, item);
  }

  lemma AppendFacts(h: History, k: History, item: Item)
    requires Inv(h) && Appends(h, k, item)
    ensures k.all == h.all + [item] && k.base == h.base && k.expired == h.expired
    ensures k.store.generation == h.store.generation
  {
    hide ValidStore;
    var cursor :| AppendsAs(h, k, item, cursor);
    StoreIsValid(h);
    AppendKeepsFirst(h.store, k.store, item, cursor);
  }

  lemma GrownKeepsSafe(s: State, t: State, item: Item)
    requires Safe(s) && Grown(s.h, t.h, item) && t.cursor == s.cursor && t.snapshots == s.snapshots
    requires t.session.lost == s.session.lost && t.session.start == s.session.start
    ensures Safe(t) && Place(t.h, t.cursor) == Place(s.h, s.cursor)
  {
    hide Inv;
  }

  lemma GrownKeepsReads(all: seq<Item>, item: Item, series: Series, from: nat, to: nat, consumed: seq<nat>)
    requires from <= to <= |all| && ReadsExactly(all, series, from, to, consumed)
    ensures ReadsExactly(all + [item], series, from, to, consumed)
  {
  }

  lemma GrownKeepsCapture(s: State, t: State, item: Item)
    requires CaptureInv(s) && Grown(s.h, t.h, item) && t.cursor == s.cursor && t.snapshots == s.snapshots
    requires t.session.generation == s.session.generation
    ensures CaptureInv(t)
  {
    hide Inv;
  }

  lemma TransmitKeeps(keys: Keys, s: State, t: State, id: nat)
    requires ValidKeys(keys) && Valid(keys, s) && Transmits(keys, s, t, id)
    ensures Valid(keys, t)
  {
    hide Inv;
    hide Appends;
    var frame: FrameEvent :| frame.Key() == keys.tx && Appends(s.h, t.h, FrameItem(frame));
    AppendGrowsHistory(s.h, t.h, FrameItem(frame));
    GrownKeepsCapture(s, t, FrameItem(frame));
    TransmitKeepsTokens(keys, s, t, id);
    if Scoped(s) {
      TransmitterRuns(keys, s, id);
      TransmitKeepsSession(keys, s, t, id, FrameItem(frame));
    }
  }

  lemma TransmitKeepsTokens(keys: Keys, s: State, t: State, id: nat)
    requires TokenInv(s) && Transmits(keys, s, t, id)
    ensures TokenInv(t)
  {
    hide AppendsFrame;
    assert t.ops == s.ops && t.session.kind == s.session.kind;
  }

  lemma TransmitterRuns(keys: Keys, s: State, id: nat)
    requires Valid(keys, s) && Scoped(s) && MayTransmit(s, id)
    ensures At(s, id, Running) && s.ops[id].kind in {Begin, Segmented}
  {
    hide Inv;
    hide SessionInv;
    OnlyTheOwnerTransmits(keys, s, s.session.owner, id);
  }

  lemma TransmitKeepsSession(keys: Keys, s: State, t: State, id: nat, item: Item)
    requires SessionInv(keys, s) && Scoped(s) && Grown(s.h, t.h, item) && SeriesOf(item) == FrameSeries(keys.tx)
    requires id in s.ops && s.ops[id].kind in {Begin, Segmented} && MayTransmit(s, id)
    requires t == s.(h := t.h, session :=
               if s.session.accepted.None? then s.session.(accepted := Some(|t.h.all|)) else s.session)
    ensures SessionInv(keys, t)
  {
    hide Inv;
    GrownKeepsSafe(s, t, item);
    hide Safe;
    if s.session.positioned {
      GrownKeepsReads(s.h.all, item, FrameSeries(keys.rx), s.session.accepted.value, Place(s.h, s.cursor), s.session.consumed);
      hide ReadsExactly;
    }
  }

  lemma ArriveKeeps(keys: Keys, s: State, t: State)
    requires Valid(keys, s) && Arrives(keys, s, t)
    ensures Valid(keys, t)
  {
    hide Inv;
    hide Appends;
    var item :| SeriesOf(item) != FrameSeries(keys.tx) && Appends(s.h, t.h, item);
    AppendGrowsHistory(s.h, t.h, item);
    GrownKeepsCapture(s, t, item);
    hide TokenInv;
    SameTokens(s, t);
    hide CaptureInv;
    if Scoped(s) {
      GrownKeepsSafe(s, t, item);
      hide Safe;
      if s.session.positioned {
        GrownKeepsReads(s.h.all, item, FrameSeries(keys.rx), s.session.accepted.value, Place(s.h, s.cursor), s.session.consumed);
        hide ReadsExactly;
      }
    }
  }

  // ---- Positioning and reading -------------------------------------------------------------------

  lemma AdvanceFacts(s: State, t: State, key: FrameKey, session: Session)
    requires CaptureInv(s) && Known(s.h, s.cursor) && Advances(s, t, key, session)
    ensures Reread(s.h, t.h) && Known(t.h, t.cursor) && t.cursor != ZERO_CURSOR
    ensures t == s.(h := t.h, cursor := t.cursor, session := session)
    ensures var (from, to) := (Place(s.h, s.cursor), Place(t.h, t.cursor));
      && from < to <= |s.h.all| && SeriesOf(s.h.all[to - 1]) == FrameSeries(key)
      && forall i :: from <= i < to - 1 ==> SeriesOf(s.h.all[i]) != FrameSeries(key)
  {
    hide ValidChunk;
    hide Log;
    hide Filter;
    StoreIsValid(s.h);
    hide Inv;
    var event :| IsFirstAfter(s.h.store, s.cursor, key, event, t.cursor)
      && t == s.(h := Observed(s.h, t.cursor), cursor := t.cursor, session := session);
    FoundIsNext(s.h, s.cursor, key, event, t.cursor);
    ObservedKeeps(s.h, t.cursor);
  }

  lemma RereadKeepsCapture(s: State, t: State)
    requires CaptureInv(s) && Reread(s.h, t.h) && t.snapshots == s.snapshots && Traced(t.h, t.cursor)
    requires t.session.generation == s.session.generation
    ensures CaptureInv(t)
  {
    hide Inv;
    RereadKeepsTraces(s, t.h);
  }

  lemma AdvanceKeepsSafe(s: State, t: State)
    requires Safe(s) && Reread(s.h, t.h) && t.snapshots == s.snapshots && Known(t.h, t.cursor)
    requires t.session.lost == s.session.lost && t.session.start == s.session.start
    requires Place(s.h, s.cursor) <= Place(t.h, t.cursor) <= |s.h.all|
    ensures Safe(t)
  {
    hide Inv;
  }

  // SentCursor finds exactly the operation's own first frame.
  lemma PositionedAtFirstFrame(keys: Keys, s: State, to: nat)
    requires Known(s.h, s.cursor) && Unpositioned(keys, s) && s.session.accepted.Some?
    requires s.session.start < to <= |s.h.all| && SeriesOf(s.h.all[to - 1]) == FrameSeries(keys.tx)
    ensures s.session.accepted == Some(to)
  {
    hide Place;
  }

  lemma ReadNext(all: seq<Item>, series: Series, from: nat, to: nat, consumed: seq<nat>, next: nat)
    requires from <= to < next <= |all| && ReadsExactly(all, series, from, to, consumed)
    requires SeriesOf(all[next - 1]) == series && forall i :: to <= i < next - 1 ==> SeriesOf(all[i]) != series
    ensures ReadsExactly(all, series, from, next, consumed + [next])
  {
    var longer := consumed + [next];
    forall i | from <= i < next && SeriesOf(all[i]) == series
      ensures i + 1 in longer
    {
      if i < to {
        assert i + 1 in consumed;
      } else {
        assert longer[|consumed|] == i + 1;
      }
    }
    forall p | p in longer
      ensures from < p <= next && SeriesOf(all[p - 1]) == series
    {
    }
    forall i, j | 0 <= i < j < |longer|
      ensures longer[i] < longer[j]
    {
      assert consumed[i] in consumed;
    }
  }

  /** While the capture is not cleared, SentCursor always finds the accepted first frame. */
  lemma FirstFrameIsFound(keys: Keys, s: State)
    requires Valid(keys, s) && Scoped(s) && !s.session.positioned && s.session.accepted.Some?
    ensures ValidStore(s.h.store) && Locate(s.h.store, s.cursor).Ok?
    ensures SeriesAfter(s.h.store, s.cursor, FrameSeries(keys.tx)) != []
  {
    PlaceIsBehind(s.h, s.cursor);
    LogIsTail(s.h);
    hide Inv;
    hide ValidStore;
    hide Log;
    hide Filter;
    hide Locate;
    hide TokenInv;
    hide ReadsExactly;
    assert SeriesOf(s.h.all[s.session.accepted.value - 1]) == FrameSeries(keys.tx);
    StillInTail(s.h.all, s.h.base, Behind(s.h.store, s.cursor), s.session.accepted.value, FrameSeries(keys.tx));
  }

  lemma {:induction false} StillInTail(all: seq<Item>, base: nat, from: nat, place: nat, series: Series)
    requires base + from < place <= |all| && SeriesOf(all[place - 1]) == series
    ensures Filter(all[base..][from..], series) != []
  {
    var rest := all[base..][from..];
    assert rest[place - 1 - from - base] == all[place - 1];
    FilterIsSeries(rest, series);
  }

  lemma PositionKeeps(keys: Keys, s: State, t: State, id: nat)
    requires Valid(keys, s) && Positions(keys, s, t, id)
    ensures Valid(keys, t)
  {
    hide Inv;
    hide ValidChunk;
    hide Log;
    hide SeriesAfter;
    assert t.ops == s.ops;
    if Locate(s.h.store, s.cursor).Err? || SeriesAfter(s.h.store, s.cursor, FrameSeries(keys.tx)) == [] {
      if Scoped(s) {
        FirstFrameIsFound(keys, s);
      }
    } else {
      PositionAdvances(keys, s, t);
    }
  }

  lemma PositionAdvances(keys: Keys, s: State, t: State)
    requires Valid(keys, s) && s.session.accepted.Some? && !s.session.positioned
    requires Advances(s, t, keys.tx, s.session.(positioned := true))
    ensures Valid(keys, t)
  {
    hide ValidChunk;
    hide Log;
    hide IsFirstAfter;
    hide Observed;
    hide Positioned;
    LocatedIsKnown(s);
    hide Advances;
    hide Inv;
    AdvanceFacts(s, t, keys.tx, s.session.(positioned := true));
    RereadKeepsCapture(s, t);
    assert TokenInv(t);
    hide TokenInv;
    hide CaptureInv;
    hide Reread;
    if Scoped(s) {
      AdvanceKeepsSafe(s, t);
      hide Safe;
      FirstFramePositions(keys, s, t);
    }
  }

  lemma FirstFramePositions(keys: Keys, s: State, t: State)
    requires Known(s.h, s.cursor) && Unpositioned(keys, s) && s.session.accepted.Some?
    requires Known(t.h, t.cursor) && t.h.all == s.h.all && t.session == s.session.(positioned := true)
    requires Place(s.h, s.cursor) < Place(t.h, t.cursor) <= |s.h.all|
    requires SeriesOf(s.h.all[Place(t.h, t.cursor) - 1]) == FrameSeries(keys.tx)
    ensures Positioned(keys, t)
  {
    PositionedAtFirstFrame(keys, s, Place(t.h, t.cursor));
    ReadsNothing(t.h.all, FrameSeries(keys.rx), Place(t.h, t.cursor));
    hide ReadsExactly;
  }

  lemma ReadsNothing(all: seq<Item>, series: Series, at: nat)
    requires at <= |all|
    ensures ReadsExactly(all, series, at, at, [])
  {
  }

  lemma LocatedIsKnown(s: State)
    requires CaptureInv(s) && ValidStore(s.h.store) && Locate(s.h.store, s.cursor).Ok?
    ensures Known(s.h, s.cursor)
  {
    if s.cursor in s.h.expired {
      ExpiredIsNotIssued(s.h, s.cursor);
    }
  }

  lemma ReadKeeps(keys: Keys, s: State, t: State, id: nat)
    requires Valid(keys, s) && Reads(keys, s, t, id)
    ensures Valid(keys, t)
  {
    hide Inv;
    hide ValidChunk;
    hide Log;
    hide Advances;
    hide ReadsExactly;
    if Scoped(s) {
      RunnerReads(keys, s, id);
    }
    hide TokenInv;
    if Locate(s.h.store, s.cursor).Err? {
      if Scoped(s) {
        PlaceIsBehind(s.h, s.cursor);
      }
    } else {
      var session := s.session.(consumed := s.session.consumed + [Place(t.h, t.cursor)]);
      LocatedIsKnown(s);
      AdvanceFacts(s, t, keys.rx, session);
      RereadKeepsCapture(s, t);
      if Scoped(s) {
        AdvanceKeepsSafe(s, t);
        hide Safe;
        ReadNext(s.h.all, FrameSeries(keys.rx), s.session.accepted.value, Place(s.h, s.cursor), s.session.consumed,
                 Place(t.h, t.cursor));
      }
    }
  }

  lemma RunnerReads(keys: Keys, s: State, id: nat)
    requires TokenInv(s) && Scoped(s) && At(s, id, Running) && (s.ops[id].kind == Receiving || s.session.positioned)
    ensures s.session.positioned
  {
  }

  // ---- Retention, prunes and clears --------------------------------------------------------------

  lemma SnapshotKeeps(keys: Keys, s: State, t: State)
    requires Valid(keys, s) && Snapshots(s, t)
    ensures Valid(keys, t)
  {
    hide Inv;
    hide ValidStore;
    hide Ended;
    hide End;
    hide TokenInv;
    hide ReadsExactly;
    EndedKeeps(s.h);
    IssuedIsInside(s.h);
    SnapshotFacts(s, t);
    assert Reread(s.h, t.h);
    RereadKeepsTraces(s, t.h);
  }

  lemma SnapshotFacts(s: State, t: State)
    requires TokenInv(s) && Snapshots(s, t)
    ensures TokenInv(t) && t.ops == s.ops && t.cursor == s.cursor && t.session == s.session && t.retaining == s.retaining
  {
    hide Ended;
    hide ValidStore;
  }

  /** A prune that was given any retention cursor of the link leaves the running reception its position. */
  lemma PruneKeeps(keys: Keys, s: State, t: State)
    requires Valid(keys, s) && PrunesRetaining(s, t)
    ensures Valid(keys, t)
  {
    hide Inv;
    hide Prunes;
    hide TokenInv;
    hide SessionInv;
    var cursors, i :| PrunesWith(s, t, cursors, i);
    PruneHistory(s.h, t.h, cursors);
    PruneStaysBehindTraced(s.h, t.h, cursors, i);
    hide PrunesWith;
    SameTokens(s, t);
    if Scoped(s) {
      IssuedIsInside(s.h);
      PrunedKeepsSession(keys, s, t, cursors[i]);
    } else {
      NotScopedKeeps(keys, t);
    }
  }

  lemma NotScopedKeeps(keys: Keys, t: State)
    requires !Scoped(t)
    ensures SessionInv(keys, t)
  {
  }

  lemma PrunedKeepsSession(keys: Keys, s: State, t: State, given: Cursor)
    requires SessionInv(keys, s) && Scoped(s) && t == s.(h := t.h)
    requires t.h.issued == s.h.issued && t.h.expired == s.h.expired && t.h.all == s.h.all && s.h.base <= t.h.base
    requires t.h.store.generation == s.h.store.generation
    requires given in s.snapshots
    requires t.h.base == s.h.base
          || (given != ZERO_CURSOR && given !in s.h.expired && given in s.h.issued && t.h.base <= s.h.issued[given])
    ensures SessionInv(keys, t)
  {
    hide ReadsExactly;
    assert Place(t.h, t.cursor) == Place(s.h, s.cursor);
  }

  lemma PruneHistory(h: History, k: History, cursors: seq<Cursor>)
    requires Inv(h) && Prunes(h, k, cursors)
    ensures Inv(k) && k.store.generation == h.store.generation
  {
    PrunesKeeps(h, k, cursors);
    PruneIsSafe(h.store, cursors);
  }

  lemma PruneStaysBehindTraced(h: History, k: History, cursors: seq<Cursor>, i: nat)
    requires Inv(h) && Prunes(h, k, cursors) && i < |cursors| && Traced(h, cursors[i])
    ensures k.issued == h.issued && k.expired == h.expired && k.all == h.all && h.base <= k.base
    ensures k.base == h.base
         || (cursors[i] != ZERO_CURSOR && cursors[i] !in h.expired && cursors[i] in h.issued && k.base <= h.issued[cursors[i]])
  {
    PruneStaysBehind(h, k, cursors, i);
    if cursors[i] in h.expired {
      ExpiredIsNotIssued(h, cursors[i]);
    }
  }

  lemma ClearKeepsLink(keys: Keys, s: State, t: State)
    requires Valid(keys, s) && ClearsAll(s, t)
    ensures Valid(keys, t) && !Scoped(t)
  {
    hide Inv;
    hide ClearStep;
    var epoch :| Clears(s.h, t.h, epoch);
    ClearsKeeps(s.h, t.h, epoch);
    ClearedGeneration(s.h, t.h, epoch);
  }

  lemma ClearedGeneration(h: History, k: History, epoch: nat)
    requires Clears(h, k, epoch)
    ensures k.store.generation == epoch > h.store.generation
  {
  }

  // ---- Runs --------------------------------------------------------------------------------------

  lemma InitIsValid(keys: Keys, s: State)
    requires Init(s)
    ensures Valid(keys, s)
  {
    hide Inv;
  }

  lemma StepKeeps(keys: Keys, s: State, t: State)
    requires ValidKeys(keys) && Valid(keys, s) && Step(keys, s, t)
    ensures Valid(keys, t)
  {
    hide Valid;
    if TokenStep(s, t) {
      hide TokenStep;
      TokenStepKeeps(keys, s, t);
    } else if LinkStep(keys, s, t) {
      LinkStepKeeps(keys, s, t);
    } else if Arrives(keys, s, t) {
      hide Arrives;
      ArriveKeeps(keys, s, t);
    } else if PrunesRetaining(s, t) {
      hide PrunesRetaining;
      PruneKeeps(keys, s, t);
    } else {
      hide ClearsAll;
      ClearKeepsLink(keys, s, t);
    }
  }

  lemma LinkStepKeeps(keys: Keys, s: State, t: State)
    requires ValidKeys(keys) && Valid(keys, s) && LinkStep(keys, s, t)
    ensures Valid(keys, t)
  {
    hide Valid;
    hide Starts;
    hide Stops;
    hide Transmits;
    hide Positions;
    hide Reads;
    hide Snapshots;
    if Snapshots(s, t) {
      SnapshotKeeps(keys, s, t);
    } else {
      var id :| Starts(s, t, id) || Stops(s, t, id) || Transmits(keys, s, t, id)
                || Positions(keys, s, t, id) || Reads(keys, s, t, id);
      if Starts(s, t, id) {
        StartKeeps(keys, s, t, id);
      } else if Stops(s, t, id) {
        StopKeeps(keys, s, t, id);
      } else if Transmits(keys, s, t, id) {
        TransmitKeeps(keys, s, t, id);
      } else if Positions(keys, s, t, id) {
        PositionKeeps(keys, s, t, id);
      } else {
        ReadKeeps(keys, s, t, id);
      }
    }
  }

  lemma {:induction false} RunIsValid(keys: Keys, run: seq<State>, k: nat)
    requires Run(keys, run) && k < |run|
    ensures Valid(keys, run[k])
  {
    hide Valid;
    hide Step;
    if k == 0 {
      InitIsValid(keys, run[0]);
    } else {
      RunIsValid(keys, run, k - 1);
      assert Step(keys, run[k - 1], run[k - 1 + 1]);
      StepKeeps(keys, run[k - 1], run[k]);
    }
  }

  /**
   * On every run: as long as the capture has not been cleared since an exchange or a segmented Send
   * started, it never finds its receive position lost, however often the capture is pruned with retention
   * cursors of the link, taken before or during the operation.
   */
  lemma RetentionIsSafe(keys: Keys, run: seq<State>)
    requires Run(keys, run) && Scoped(run[|run| - 1])
    ensures var s := run[|run| - 1];
      && !s.session.lost && ValidStore(s.h.store) && Locate(s.h.store, s.cursor).Ok?
      && (!s.session.positioned && s.session.accepted.Some? ==>
            SeriesAfter(s.h.store, s.cursor, FrameSeries(keys.tx)) != [])
  {
    var s := run[|run| - 1];
    RunIsValid(keys, run, |run| - 1);
    PlaceIsBehind(s.h, s.cursor);
    if !s.session.positioned && s.session.accepted.Some? {
      FirstFrameIsFound(keys, s);
    }
  }

  /**
   * On every run: what an exchange or a segmented Send has read is exactly what was captured under the
   * receive key from its own accepted first frame up to its receive position, each frame once and in order.
   */
  lemma ExchangeIsIsolated(keys: Keys, run: seq<State>)
    requires Run(keys, run) && Scoped(run[|run| - 1])
    ensures var s := run[|run| - 1];
      && (s.session.consumed != [] ==> s.session.positioned)
      && (s.session.positioned ==>
            && Known(s.h, s.cursor) && s.session.accepted.Some?
            && var (first, at) := (s.session.accepted.value, Place(s.h, s.cursor));
            && s.session.start < first <= at <= |s.h.all|
            && SeriesOf(s.h.all[first - 1]) == FrameSeries(keys.tx)
            && ReadsExactly(s.h.all, FrameSeries(keys.rx), first, at, s.session.consumed))
  {
    hide Inv;
    RunIsValid(keys, run, |run| - 1);
  }

  /** On every run each token is with at most one operation, and giving it back never blocks. */
  lemma TokensAreExclusive(keys: Keys, run: seq<State>, a: nat, b: nat)
    requires Run(keys, run) && a in run[|run| - 1].ops && b in run[|run| - 1].ops
    ensures var s := run[|run| - 1];
      && (HoldsSending(s.ops[a]) && HoldsSending(s.ops[b]) ==> a == b)
      && (HoldsReceiving(s.ops[a]) && HoldsReceiving(s.ops[b]) ==> a == b)
      && (HoldsSending(s.ops[a]) ==> s.sending == 0)
      && (HoldsReceiving(s.ops[a]) ==> s.receiving == 0)
  {
    hide Inv;
    RunIsValid(keys, run, |run| - 1);
    ReleaseNeverBlocks(keys, run[|run| - 1], a);
  }
}
