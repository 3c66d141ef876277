/**
 * An originator and a passive decoder watching the same bus (j1939/client_transport.go, j1939/decoder.go;
 * section 5.10 of SAE J1939-21). The peer may hold, grant windows of any size and ask for packets again;
 * the decoder reconstructs the payload sent if and only if no grant skips past the end of the one before it.
 */
module J1939Agreement {
  import opened Wrappers
  import opened Frames
  import opened J1939Transport
  import opened J1939Decoder
  import opened J1939Sessions

  // Who takes part in the transfer, and what is sent.
  datatype Transfer = Transfer(key: SessionKey, priority: byte, pgn: nat, payload: seq<byte>, startedAt: int) {

    predicate Valid() {
      && 8 < |payload| <= MAXIMUM_PAYLOAD && ActivePGN(pgn)
      && key.source < NULL_ADDRESS && key.destination != NULL_ADDRESS && key.destination != key.source
    }
  }

  // `granted` is the end of the last grant, `skipped` whether a grant has skipped past it before every packet
  // was sent once, `failed` whether the originator has given up; `emitted` are the transported messages decoded
  // for the transfer.
  datatype System = System(tx: Option<Transmission>, sessions: Sessions, granted: nat, skipped: bool, failed: bool, emitted: seq<Message>)

  function OtherKey(f: Transfer): SessionKey {
    f.key.(direction := Opposite(f.key.direction))
  }

  /**
   * The transport frames that matter to the transfer: what its originator sends its destination other than
   * answers, and the answers and aborts that name its group. A second transfer, the other way round, has none.
   */
  predicate Concerns(f: Transfer, event: Event) {
    && event.bus == f.key.bus
    && if event.source == f.key.source && event.destination == f.key.destination then
         event.pgn == TRANSPORT_DATA_PGN || (event.pgn == TRANSPORT_CONTROL_PGN && (Opening(event.data) || Names(f, event.data, {ABORT})))
       else if event.source == f.key.destination && event.destination == f.key.source then
         event.pgn == TRANSPORT_CONTROL_PGN && (|event.data| != 8 || Names(f, event.data, {CTS, EOMA, ABORT}))
       else false
  }

  // An announcement, or a control frame of the wrong size: either ends the transfer its sender had open.
  predicate Opening(data: seq<byte>) {
    |data| != 8 || data[0] == RTS || data[0] == BAM
  }

  predicate Names(f: Transfer, data: seq<byte>, kinds: set<byte>) {
    |data| == 8 && data[0] in kinds && ControlPGN(data) == Ok(f.pgn)
  }

  function OwnFrame(f: Transfer, pgn: nat, data: seq<byte>, time: int): Event {
    Event(f.key.bus, f.key.direction, time, f.priority, pgn, f.key.source, f.key.destination, data)
  }

  // A control frame of the destination.
  function Reply(f: Transfer, data: seq<byte>): Event {
    Event(f.key.bus, f.key.direction, f.startedAt, 7, TRANSPORT_CONTROL_PGN, f.key.destination, f.key.source, data)
  }

  // The frames of the transfer arrive before its deadline, and time does not go backwards.
  predicate InTime(sessions: Sessions, f: Transfer, event: Event) {
    f.key in sessions ==> !Expires(f.key, sessions[f.key], event)
  }

  function Emits(f: Transfer, outcome: Outcome): seq<Message> {
    if outcome.message.Some? && outcome.message.value.key == f.key && |outcome.message.value.payload| > 8 then [outcome.message.value] else []
  }

  function Decoded(s: System, f: Transfer, event: Event): System {
    var outcome := Pushed(s.sessions, event);
    s.(sessions := outcome.sessions, emitted := s.emitted + Emits(f, outcome))
  }

  // ---- Steps -----------------------------------------------------------------------------

  ghost predicate Starts(f: Transfer, s: System, t: System) {
    && f.Valid() && OtherKey(f) !in s.sessions
    && var broadcast := f.key.destination == GLOBAL_ADDRESS;
    t == Decoded(System(Some(NewTransmission(f.priority, f.pgn, f.key.destination, f.payload)), s.sessions, 0, false, false, []), f,
                 OwnFrame(f, TRANSPORT_CONTROL_PGN, Announce(f.pgn, |f.payload|, broadcast), f.startedAt))
  }

  /** A data frame goes out, and the decoder sees it. */
  ghost predicate SendsData(f: Transfer, s: System, t: System, time: int) {
    && s.tx.Some? && ValidTransmission(s.tx.value) && Sending(s.tx.value)
    && var frame := OwnFrame(f, TRANSPORT_DATA_PGN, DataBytes(s.tx.value.payload, s.tx.value.next), time);
    && InTime(s.sessions, f, frame)
    && t == Decoded(s.(tx := AfterData(s.tx.value, 0)), f, frame)
  }

  // A grant that starts further on than right behind the one before it.
  predicate Skips(granted: nat, data: seq<byte>)
    requires |data| == 8
  {
    data[1] != 0 && data[2] as nat > granted + 1
  }

  // A control frame of the peer that the originator accepts; it may be captured in either direction.
  ghost predicate Answers(f: Transfer, s: System, t: System, event: Event) {
    && f.key.destination != GLOBAL_ADDRESS
    && s.tx.Some? && event.bus == f.key.bus && event.pgn == TRANSPORT_CONTROL_PGN
    && event.source == f.key.destination && event.destination == f.key.source
    && |event.data| == 8 && InTime(s.sessions, f, event)
    && match OnControl(s.tx.value, event, s.tx.value.barrier)
       case Continues(u) =>
         && event.data[0] == CTS
         && t == Decoded(s.(tx := Some(u), granted := if event.data[1] == 0 then s.granted else u.end,
                            skipped := s.skipped || (s.tx.value.sent < Packets(|f.payload|) && Skips(s.granted, event.data))), f, event)
       case Completes => t == Decoded(s.(tx := None), f, event)
       case _ => false
  }

  /** Any other traffic, a transfer from the destination to the originator included. */
  ghost predicate Elsewhere(f: Transfer, s: System, t: System, event: Event) {
    !Concerns(f, event) && |event.data| <= 8 && (s.failed || InTime(s.sessions, f, event)) && t == Decoded(s, f, event)
  }

  /** The originator fails the transfer: a deadline, its context, an abort or an answer it does not accept. */
  ghost predicate GivesUp(f: Transfer, s: System, t: System) {
    s.tx.Some? && t == s.(tx := None, failed := true)
  }

  // What the two peers may still say about the transfer then, the answer that ended it included.
  ghost predicate Winds(f: Transfer, s: System, t: System, event: Event) {
    s.failed && event.pgn == TRANSPORT_CONTROL_PGN && !Opening(event.data) && t == Decoded(s, f, event)
  }

  ghost predicate Step(f: Transfer, s: System, t: System) {
    || (exists time :: SendsData(f, s, t, time))
    || (exists event :: Answers(f, s, t, event))
    || (exists event :: Elsewhere(f, s, t, event))
    || GivesUp(f, s, t)
    || (exists event :: Winds(f, s, t, event))
  }

  // ---- Invariant -------------------------------------------------------------------------

  // The decoder is in the middle of the transfer, in step with the originator.
  ghost predicate Reading(f: Transfer, t: Transmission, r: Session, granted: nat) {
    && ValidSession(r) && r.priority == f.priority && r.pgn == f.pgn && r.startedAt == f.startedAt
    && r.size == |f.payload| && r.payload == f.payload[..Least(7 * (r.next - 1), |f.payload|)]
    && t.sent < Packets(|f.payload|)
    && if f.key.destination == GLOBAL_ADDRESS then r.next == t.next && r.windowEnd == r.packets && t.end == 0
       else
         && r.maxWindow == Packets(|f.payload|)
         && (t.end != 0 ==> r.next == t.next && r.windowEnd == t.end == granted)
         && (t.end == 0 ==> r.windowEnd < r.next && r.next == granted + 1)
  }

  ghost predicate IsMessage(f: Transfer, m: Message) {
    m.key == f.key && m.priority == f.priority && m.pgn == f.pgn && m.payload == f.payload && m.startedAt == f.startedAt
  }

  ghost predicate Agree(f: Transfer, s: System) {
    && f.Valid() && OtherKey(f) !in s.sessions && ValidSessions(s.sessions)
    && (s.tx.Some? ==>
          && ValidTransmission(s.tx.value) && s.tx.value.destination == f.key.destination
          && s.tx.value.payload == f.payload && s.tx.value.pgn == f.pgn)
    && if s.failed then s.tx == None && |s.emitted| <= 1 && forall m :: m in s.emitted ==> IsMessage(f, m)
       else if s.skipped then f.key !in s.sessions && s.emitted == []
       else if f.key in s.sessions then s.emitted == [] && s.tx.Some? && Reading(f, s.tx.value, s.sessions[f.key], s.granted)
       else
         && |s.emitted| == 1 && IsMessage(f, s.emitted[0])
         && (s.tx.Some? ==> f.key.destination != GLOBAL_ADDRESS && s.tx.value.sent == Packets(|f.payload|))
  }

  // ---- Proofs ----------------------------------------------------------------------------

  lemma LiveSession(f: Transfer, sessions: Sessions, event: Event)
    requires InTime(sessions, f, event) && OtherKey(f) !in sessions
    ensures var live := Unexpired(sessions, event);
      && (f.key in live <==> f.key in sessions) && (f.key in live ==> live[f.key] == sessions[f.key])
      && OtherKey(f) !in live
  {
  }

  lemma StartAgrees(f: Transfer, s: System, t: System)
    requires Starts(f, s, t) && ValidSessions(s.sessions)
    ensures Agree(f, t)
  {
    hide ControlPGN;
    hide TransportSize;
    hide Announce;
    var broadcast := f.key.destination == GLOBAL_ADDRESS;
    var event := OwnFrame(f, TRANSPORT_CONTROL_PGN, Announce(f.pgn, |f.payload|, broadcast), f.startedAt);
    AnnounceRoundTrip(f.pgn, |f.payload|, broadcast);
    PushKeepsValid(s.sessions, event);
    AnnounceWindow(f.pgn, |f.payload|);
  }

  lemma AnnounceWindow(pgn: nat, size: nat)
    requires ActivePGN(pgn) && 8 < size <= MAXIMUM_PAYLOAD
    ensures Announce(pgn, size, false)[4] as nat == Packets(size)
  {
  }

  // The bytes of a data frame are the next seven of the payload, or the rest of it.
  lemma DataContinues(payload: seq<byte>, next: nat)
    requires 8 < |payload| <= MAXIMUM_PAYLOAD && 1 <= next <= Packets(|payload|)
    ensures var data := DataBytes(payload, next); var kept := 7 * (next - 1);
      && kept < |payload| && data[0] as nat == next
      && var remaining := |payload| - kept;
      var piece := if 7 > remaining then data[1..1 + remaining] else data[1..];
      payload[..kept] + piece == payload[..Least(7 * next, |payload|)]
  {
    var data := DataBytes(payload, next);
    var kept := 7 * (next - 1);
    var remaining := |payload| - kept;
    if remaining >= 7 {
      assert data[1..] == payload[kept..kept + 7];
    } else {
      assert data[1..1 + remaining] == payload[kept..];
    }
  }

  lemma DataAgreesOn(f: Transfer, sessions: Sessions, t: Transmission, granted: nat, event: Event)
    requires f.Valid() && f.key in sessions && ValidTransmission(t) && Sending(t) && t.payload == f.payload
    requires t.destination == f.key.destination && Reading(f, t, sessions[f.key], granted)
    requires 1 <= t.next <= Packets(|f.payload|)
    requires KeyOf(event) == f.key && event.data == DataBytes(f.payload, t.next)
    ensures var outcome := PushData(sessions, event); var after := AfterData(t, 0);
      if f.key in outcome.sessions then
        outcome.message == None && after.Some? && Reading(f, after.value, outcome.sessions[f.key], granted)
      else
        && outcome.message.Some? && IsMessage(f, outcome.message.value)
        && (after.Some? ==> f.key.destination != GLOBAL_ADDRESS && after.value.sent == Packets(|f.payload|))
  {
    hide ActivePGN;
    hide DataBytes;
    DataContinues(f.payload, t.next);
  }

  lemma DataTouchesOwnKey(f: Transfer, sessions: Sessions, event: Event)
    requires KeyOf(event) == f.key && OtherKey(f) !in sessions
    ensures OtherKey(f) !in PushData(sessions, event).sessions
    ensures f.key !in sessions ==> PushData(sessions, event).sessions.Keys <= sessions.Keys && PushData(sessions, event).message == None
  {
  }

  lemma DataAgrees(f: Transfer, s: System, t: System, time: int)
    requires Agree(f, s) && SendsData(f, s, t, time)
    ensures Agree(f, t)
  {
    hide Reading;
    hide ActivePGN;
    hide ValidSession;
    hide DataBytes;
    hide PushData;
    var tx := s.tx.value;
    J1939Sessions.DataKeepsValid(tx, 0);
    var event := OwnFrame(f, TRANSPORT_DATA_PGN, DataBytes(f.payload, tx.next), time);
    LiveSession(f, s.sessions, event);
    PushKeepsValid(s.sessions, event);
    var live := Unexpired(s.sessions, event);
    DataTouchesOwnKey(f, live, event);
    if f.key in live {
      assert s.emitted == [];
      DataAgreesOn(f, live, tx, s.granted, event);
    }
    hide ValidTransmission;
  }

  lemma ReverseIsOwn(f: Transfer, sessions: Sessions, event: Event, pgn: nat)
    requires event.bus == f.key.bus && event.source == f.key.destination && event.destination == f.key.source
    requires OtherKey(f) !in sessions
    ensures ReverseSession(sessions, event, pgn) ==
      if f.key in sessions && sessions[f.key].pgn == pgn then Matched(f.key) else Unmatched
  {
  }

  lemma GrantAgreesOn(f: Transfer, sessions: Sessions, t: Transmission, granted: nat, event: Event)
    requires f.Valid() && f.key in sessions && OtherKey(f) !in sessions && t.payload == f.payload && t.pgn == f.pgn
    requires f.key.destination != GLOBAL_ADDRESS && Reading(f, t, sessions[f.key], granted)
    requires |event.data| == 8 && event.bus == f.key.bus && event.source == f.key.destination && event.destination == f.key.source
    requires ControlPGN(event.data) == Ok(f.pgn)
    requires OnGrant(t, event.data[1], event.data[2]).Continues? && !Skips(granted, event.data)
    ensures var outcome := PushClearToSend(sessions, event); var u := OnGrant(t, event.data[1], event.data[2]).t;
      && outcome.sessions.Keys == sessions.Keys && outcome.message == None
      && Reading(f, u, outcome.sessions[f.key], if event.data[1] == 0 then granted else u.end)
  {
    hide ControlPGN;
    hide ActivePGN;
    ReverseIsOwn(f, sessions, event, f.pgn);
    var next: nat := event.data[2];
    if event.data[1] != 0 {
      assert f.payload[..Least(7 * (sessions[f.key].next - 1), |f.payload|)][..7 * (next - 1)] == f.payload[..7 * (next - 1)];
    }
  }

  /**
   * The decoder does not follow a grant that skips: it drops the transfer with an error, while the originator
   * goes on sending.
   */
  lemma SkippingGrantIsDropped(f: Transfer, sessions: Sessions, t: Transmission, granted: nat, event: Event)
    requires f.Valid() && f.key in sessions && OtherKey(f) !in sessions && t.payload == f.payload && t.pgn == f.pgn
    requires f.key.destination != GLOBAL_ADDRESS && Reading(f, t, sessions[f.key], granted)
    requires |event.data| == 8 && event.bus == f.key.bus && event.source == f.key.destination && event.destination == f.key.source
    requires ControlPGN(event.data) == Ok(f.pgn) && OnGrant(t, event.data[1], event.data[2]).Continues?
    requires Skips(granted, event.data)
    ensures PushClearToSend(sessions, event) == Failed(sessions - {f.key}, Protocol)
  {
    hide ControlPGN;
    hide ActivePGN;
    ReverseIsOwn(f, sessions, event, f.pgn);
  }

  // A control frame of a transfer the decoder has finished finds no session, and changes nothing.
  lemma LateControl(f: Transfer, sessions: Sessions, event: Event)
    requires f.key !in sessions && OtherKey(f) !in sessions
    requires |event.data| == 8 && event.bus == f.key.bus && event.source == f.key.destination && event.destination == f.key.source
    requires event.pgn == TRANSPORT_CONTROL_PGN && (event.data[0] == CTS || event.data[0] == EOMA)
    ensures PushFrame(sessions, event).sessions == sessions && PushFrame(sessions, event).message == None
  {
    hide ControlPGN;
    hide TransportSize;
    match ControlPGN(event.data)
    case Err(_) =>
    case Ok(pgn) => ReverseIsOwn(f, sessions, event, pgn);
  }

  lemma AnswerAgrees(f: Transfer, s: System, t: System, event: Event)
    requires Agree(f, s) && Answers(f, s, t, event)
    ensures Agree(f, t)
    ensures t.tx == None ==> f.key !in t.sessions
  {
    hide Reading;
    hide ActivePGN;
    hide ValidSession;
    hide ControlPGN;
    hide PushClearToSend;
    var tx := s.tx.value;
    LiveSession(f, s.sessions, event);
    PushKeepsValid(s.sessions, event);
    ControlKeepsValid(tx, event, tx.barrier);
    var live := Unexpired(s.sessions, event);
    match OnControl(tx, event, tx.barrier)
    case Continues(u) =>
      if f.key in live {
        ReadingIsIncomplete(f, tx, live[f.key], s.granted);
        if Skips(s.granted, event.data) {
          SkippingGrantIsDropped(f, live, tx, s.granted, event);
        } else {
          GrantAgreesOn(f, live, tx, s.granted, event);
        }
      } else {
        LateControl(f, live, event);
      }
    case Completes =>
      if f.key in live {
        ReadingIsIncomplete(f, tx, live[f.key], s.granted);
      } else {
        LateControl(f, live, event);
      }
  }

  lemma ReadingIsIncomplete(f: Transfer, t: Transmission, r: Session, granted: nat)
    requires Reading(f, t, r, granted)
    ensures t.sent < Packets(|f.payload|)
  {
  }

  lemma ReadingNamesGroup(f: Transfer, t: Transmission, r: Session, granted: nat)
    requires Reading(f, t, r, granted)
    ensures r.pgn == f.pgn
  {
  }

  ghost predicate Spares(f: Transfer, sessions: Sessions, outcome: Outcome) {
    && (f.key in outcome.sessions <==> f.key in sessions) && (f.key in sessions ==> outcome.sessions[f.key] == sessions[f.key])
    && OtherKey(f) !in outcome.sessions
    && Emits(f, outcome) == []
  }

  lemma AnswerSpares(f: Transfer, sessions: Sessions, event: Event)
    requires f.Valid() && !Concerns(f, event) && OtherKey(f) !in sessions
    requires event.pgn == TRANSPORT_CONTROL_PGN && |event.data| == 8
    requires f.key in sessions ==> sessions[f.key].pgn == f.pgn
    ensures event.data[0] == CTS ==> Spares(f, sessions, PushClearToSend(sessions, event))
    ensures event.data[0] == EOMA ==> Spares(f, sessions, PushAcknowledge(sessions, event))
    ensures event.data[0] == ABORT ==> Spares(f, sessions, PushAbort(sessions, event))
  {
    hide ControlPGN;
    hide TransportSize;
    hide ActivePGN;
  }

  // Traffic that does not concern the transfer does not reach its session.
  lemma ElsewhereLeavesAlone(f: Transfer, sessions: Sessions, event: Event)
    requires f.Valid() && !Concerns(f, event) && |event.data| <= 8 && OtherKey(f) !in sessions && ValidSessions(sessions)
    requires f.key in sessions ==> sessions[f.key].pgn == f.pgn
    ensures Spares(f, sessions, PushFrame(sessions, event))
  {
    hide ControlPGN;
    hide TransportSize;
    hide ActivePGN;
    hide ValidSession;
    hide PushClearToSend;
    hide PushAcknowledge;
    hide PushAbort;
    if event.pgn == TRANSPORT_CONTROL_PGN && |event.data| == 8 {
      AnswerSpares(f, sessions, event);
    }
  }

  /** The originator ignores it as well. */
  lemma ElsewhereIsIgnored(f: Transfer, t: Transmission, event: Event, observed: nat)
    requires f.Valid() && !Concerns(f, event) && event.bus == f.key.bus && event.pgn == TRANSPORT_CONTROL_PGN
    requires t.destination == f.key.destination && t.pgn == f.pgn && event.destination == f.key.source
    ensures OnControl(t, event, observed) == Ignored
  {
    hide ControlPGN;
    hide ActivePGN;
  }

  // Only a data frame of the originator can complete a message of the transfer.
  lemma NothingEmitted(f: Transfer, sessions: Sessions, event: Event)
    requires f.Valid() && |event.data| <= 8 && ValidSessions(sessions) && OtherKey(f) !in sessions
    requires event.pgn == TRANSPORT_DATA_PGN ==> KeyOf(event) != f.key
    requires event.pgn == TRANSPORT_CONTROL_PGN && KeyOf(event) == OtherKey(f) ==> !Opening(event.data)
    ensures Emits(f, PushFrame(sessions, event)) == [] && OtherKey(f) !in PushFrame(sessions, event).sessions
  {
    hide ControlPGN;
    hide TransportSize;
    hide ActivePGN;
    hide ValidSession;
  }

  lemma FailedAgrees(f: Transfer, s: System, t: System, event: Event)
    requires Agree(f, s) && s.failed && (Elsewhere(f, s, t, event) || Winds(f, s, t, event)) && |event.data| <= 8
    ensures Agree(f, t)
  {
    hide Reading;
    hide ActivePGN;
    hide ValidSession;
    hide PushFrame;
    PushKeepsValid(s.sessions, event);
    assert ValidSessions(Unexpired(s.sessions, event));
    NothingEmitted(f, Unexpired(s.sessions, event), event);
    assert s.emitted + [] == s.emitted;
  }

  lemma ElsewhereAgrees(f: Transfer, s: System, t: System, event: Event)
    requires Agree(f, s) && !s.failed && Elsewhere(f, s, t, event)
    ensures Agree(f, t)
  {
    hide Reading;
    hide ActivePGN;
    hide ValidSession;
    hide PushFrame;
    hide Concerns;
    LiveSession(f, s.sessions, event);
    PushKeepsValid(s.sessions, event);
    assert ValidSessions(Unexpired(s.sessions, event));
    if f.key in s.sessions {
      ReadingNamesGroup(f, s.tx.value, s.sessions[f.key], s.granted);
    }
    ElsewhereLeavesAlone(f, Unexpired(s.sessions, event), event);
    assert s.emitted + [] == s.emitted;
  }

  ghost predicate Run(f: Transfer, run: seq<System>) {
    && |run| > 1 && ValidSessions(run[0].sessions) && Starts(f, run[0], run[1])
    && forall i :: 1 <= i < |run| - 1 ==> Step(f, run[i], run[i + 1])
  }

  lemma GivingUpAgrees(f: Transfer, s: System, t: System)
    requires Agree(f, s) && GivesUp(f, s, t)
    ensures Agree(f, t)
  {
    hide Reading;
  }

  lemma OtherAgrees(f: Transfer, s: System, t: System, event: Event)
    requires Agree(f, s) && (Elsewhere(f, s, t, event) || Winds(f, s, t, event))
    ensures Agree(f, t)
  {
    hide Agree;
    hide Concerns;
    if s.failed {
      FailedAgrees(f, s, t, event);
    } else {
      ElsewhereAgrees(f, s, t, event);
    }
  }

  lemma {:induction false} RunAgrees(f: Transfer, run: seq<System>, k: nat)
    requires Run(f, run) && 1 <= k < |run|
    ensures Agree(f, run[k])
  {
    hide Agree;
    hide Starts;
    hide SendsData;
    hide Answers;
    hide Elsewhere;
    hide GivesUp;
    hide Winds;
    if k == 1 {
      StartAgrees(f, run[0], run[1]);
    } else {
      RunAgrees(f, run, k - 1);
      var (s, t) := (run[k - 1], run[k - 1 + 1]);
      assert Step(f, s, t);
      if time :| SendsData(f, s, t, time) {
        DataAgrees(f, s, t, time);
      } else if event :| Answers(f, s, t, event) {
        AnswerAgrees(f, s, t, event);
      } else if GivesUp(f, s, t) {
        GivingUpAgrees(f, s, t);
      } else {
        var event :| Elsewhere(f, s, t, event) || Winds(f, s, t, event);
        OtherAgrees(f, s, t, event);
      }
    }
  }

  /**
   * For every payload and every run of grants, holds, retransmissions, failures and other traffic: the decoder
   * never emits more than one message for the transfer, and what it emits is exactly what was sent. Once the
   * originator has succeeded, by acknowledgement or at the end of a broadcast, the decoder has emitted it if
   * and only if no grant has skipped.
   */
  lemma DecoderAgrees(f: Transfer, run: seq<System>)
    requires Run(f, run)
    ensures var s := run[|run| - 1];
      && |s.emitted| <= 1 && (|s.emitted| == 1 ==> IsMessage(f, s.emitted[0]))
      && (s.tx == None && !s.failed ==> (|s.emitted| == 1 <==> !s.skipped))
  {
    RunAgrees(f, run, |run| - 1);
  }

  // ---- A grant that skips ----------------------------------------------------------------

  // Every frame of the transfer so far was seen at the same instant.
  ghost predicate Prompt(f: Transfer, s: System) {
    f.key in s.sessions && s.sessions[f.key].lastAt == f.startedAt <= s.sessions[f.key].deadline
  }

  lemma GrantGoesThrough(f: Transfer, s: System, count: byte, next: byte) returns (t: System)
    requires Agree(f, s) && Prompt(f, s) && f.key.destination != GLOBAL_ADDRESS
    requires s.tx.Some? && s.tx.value.end == 0 == s.tx.value.barrier
    requires 1 <= next <= s.tx.value.sent + 1 && next <= s.granted + 1 && 1 <= count && next + count - 1 <= Packets(|f.payload|)
    ensures Step(f, s, t) && Agree(f, t) && Prompt(f, t)
    ensures t.tx == Some(s.tx.value.(next := next, end := next + count - 1)) && t.granted == next + count - 1
  {
    assert f.pgn < 0x20000;
    hide ControlPGN;
    hide ActivePGN;
    hide ValidSession;
    var tx := s.tx.value;
    var event := Reply(f, ClearToSend(f.pgn, count, next));
    ControlPGNRoundTripOf(f, count, next);
    var u := tx.(next := next, end := next + count - 1);
    assert OnControl(tx, event, tx.barrier) == Continues(u);
    t := Decoded(s.(tx := Some(u), granted := u.end), f, event);
    LiveSession(f, s.sessions, event);
    var live := Unexpired(s.sessions, event);
    GrantAgreesOn(f, live, tx, s.granted, event);
    ReverseIsOwn(f, live, event, f.pgn);
    assert Answers(f, s, t, event);
    AnswerAgrees(f, s, t, event);
  }

  lemma ControlPGNRoundTripOf(f: Transfer, count: byte, next: byte)
    requires f.Valid()
    ensures ControlPGN(ClearToSend(f.pgn, count, next)) == Ok(f.pgn)
  {
    ControlPGNRoundTrip(CTS, count, next, 0xff, 0xff, f.pgn);
  }

  lemma DataGoesThrough(f: Transfer, s: System) returns (t: System)
    requires Agree(f, s) && Prompt(f, s) && f.key.destination != GLOBAL_ADDRESS
    requires s.tx.Some? && s.tx.value.end != 0 && s.tx.value.next < Packets(|f.payload|)
    ensures Step(f, s, t) && Agree(f, t) && Prompt(f, t)
    ensures t.tx == AfterData(s.tx.value, 0) && t.granted == s.granted
  {
    hide ActivePGN;
    hide DataBytes;
    var tx := s.tx.value;
    var event := OwnFrame(f, TRANSPORT_DATA_PGN, DataBytes(f.payload, tx.next), f.startedAt);
    t := Decoded(s.(tx := AfterData(tx, 0)), f, event);
    LiveSession(f, s.sessions, event);
    DataContinues(f.payload, tx.next);
    assert SendsData(f, s, t, f.startedAt);
    DataAgrees(f, s, t, f.startedAt);
  }

  lemma StartGoesThrough(f: Transfer, s: System) returns (t: System)
    requires f.Valid() && f.key.destination != GLOBAL_ADDRESS && s.sessions == map[]
    ensures Starts(f, s, t) && Agree(f, t) && Prompt(f, t)
    ensures t.tx == Some(NewTransmission(f.priority, f.pgn, f.key.destination, f.payload)) && t.granted == 0
  {
    hide ControlPGN;
    hide TransportSize;
    hide Announce;
    var event := OwnFrame(f, TRANSPORT_CONTROL_PGN, Announce(f.pgn, |f.payload|, false), f.startedAt);
    AnnounceRoundTrip(f.pgn, |f.payload|, false);
    t := Decoded(System(Some(NewTransmission(f.priority, f.pgn, f.key.destination, f.payload)), s.sessions, 0, false, false, []), f, event);
    StartAgrees(f, s, t);
  }

  lemma SkippingGrant(f: Transfer, s: System, event: Event)
    requires Agree(f, s) && Prompt(f, s) && f.key.destination != GLOBAL_ADDRESS && Packets(|f.payload|) >= 3
    requires s.tx.Some? && s.tx.value.end == 0 && s.tx.value.sent == 2 && s.tx.value.barrier == 0 && s.granted == 1
    requires event == Reply(f, ClearToSend(f.pgn, 1, 3))
    ensures !s.skipped && InTime(s.sessions, f, event) && OnControl(s.tx.value, event, s.tx.value.barrier).Continues?
    ensures f.key !in Pushed(s.sessions, event).sessions && Pushed(s.sessions, event).error == Some(Protocol)
  {
    hide ControlPGN;
    hide ActivePGN;
    hide ValidSession;
    ControlPGNRoundTripOf(f, 1, 3);
    LiveSession(f, s.sessions, event);
    ReverseIsOwn(f, Unexpired(s.sessions, event), event, f.pgn);
  }

  /**
   * Skipping is possible. In every transfer of three or more packets to one peer, the peer can grant two
   * packets, ask for the first again, and then grant the third: the originator goes on, the decoder gives up.
   */
  lemma SkippingGrantLosesTheDecoder(f: Transfer) returns (run: seq<System>, event: Event)
    requires f.Valid() && f.key.destination != GLOBAL_ADDRESS && Packets(|f.payload|) >= 3
    ensures Run(f, run) && var s := run[|run| - 1];
      && !s.skipped && s.granted == 1 && s.tx.Some? && f.key in s.sessions && InTime(s.sessions, f, event)
      && event == Reply(f, ClearToSend(f.pgn, 1, 3)) && OnControl(s.tx.value, event, s.tx.value.barrier).Continues?
      && f.key !in Pushed(s.sessions, event).sessions && Pushed(s.sessions, event).error == Some(Protocol)
  {
    hide Step;
    hide Agree;
    hide ValidSession;
    var before := System(None, map[], 0, false, false, []);
    var s := StartGoesThrough(f, before);
    var granted := GrantGoesThrough(f, s, 2, 1);
    var first := DataGoesThrough(f, granted);
    var second := DataGoesThrough(f, first);
    var again := GrantGoesThrough(f, second, 1, 1);
    var last := DataGoesThrough(f, again);
    run := [before, s, granted, first, second, again, last];
    event := Reply(f, ClearToSend(f.pgn, 1, 3));
    SkippingGrant(f, last, event);
  }

  // ---- Two clients of this package -------------------------------------------------------

  ghost predicate InStep(f: Transfer, t: Transmission, r: Reception) {
    && ValidTransmission(t) && ValidReception(r) && t.payload == f.payload && t.pgn == f.pgn == r.pgn
    && r.size == |f.payload| && t.next == r.next && t.end == r.end && t.sent + 1 == t.next
    && t.destination == f.key.destination && r.source == f.key.source
  }

  // The originator has sent what was granted, the responder grants what comes next.
  ghost predicate Pausing(f: Transfer, t: Transmission, r: Reception) {
    && ValidTransmission(t) && ValidReception(r) && t.payload == f.payload && t.pgn == f.pgn == r.pgn
    && r.size == |f.payload| && t.end == 0 && t.sent + 1 == r.next && t.destination == f.key.destination && r.source == f.key.source
  }

  function GrantOf(r: Reception): Outgoing
    requires r.pgn <= 0x3ffff && 1 <= r.next <= r.end < 256
  {
    Outgoing(TRANSPORT_CONTROL_PGN, r.source, ClearToSend(r.pgn, r.end - r.next + 1, r.next))
  }

  lemma GrantArrives(f: Transfer, t: Transmission, r: Reception, sent: nat, observed: nat)
    requires f.Valid() && f.key.destination != GLOBAL_ADDRESS && Pausing(f, t, r) && t.barrier <= observed
    ensures var event := Reply(f, GrantOf(r).data); var u := t.(next := r.next, end := r.end);
      && OnTransport(Some(t), None, sent, observed, event) == (Slots(Some(u), None, sent, []), None)
      && InStep(f, u, r)
  {
    ControlPGNRoundTrip(CTS, r.end - r.next + 1, r.next, 0xff, 0xff, r.pgn);
    hide ControlPGN;
    hide ActivePGN;
    OnlySending(Some(t), None, sent, observed, Reply(f, GrantOf(r).data));
  }

  lemma OpensFor(f: Transfer, sent: nat, observed: nat)
    requires f.Valid() && f.pgn != ADDRESS_CLAIM_PGN && f.pgn != REQUEST_PGN && f.key.destination != GLOBAL_ADDRESS
    ensures var event := OwnFrame(f, TRANSPORT_CONTROL_PGN, Announce(f.pgn, |f.payload|, false), f.startedAt);
      var (after, finished) := OnTransport(None, None, sent, observed, event);
      && finished == None && after.sent == sent + 1 && after.rx.Some? && after.tx == None && after.rx.value.barrier == sent + 1
      && var r := after.rx.value;
      && ValidReception(r) && r.pgn == f.pgn && r.size == |f.payload| && r.next == 1 && r.source == f.key.source
      && after.replies == [GrantOf(r)]
  {
    var event := OwnFrame(f, TRANSPORT_CONTROL_PGN, Announce(f.pgn, |f.payload|, false), f.startedAt);
    AnnounceRoundTrip(f.pgn, |f.payload|, false);
    AnnounceWindow(f.pgn, |f.payload|);
    OpenedIsValid(event);
    OnlyReceiving(None, None, sent, observed, event);
    hide ControlPGN;
    hide ActivePGN;
  }

  /** What the responder makes of the next data frame, and where both are then. */
  lemma DataArrives(f: Transfer, t: Transmission, r: Reception, barrier: nat, sent: nat, observed: nat)
    requires f.Valid() && InStep(f, t, r) && r.barrier <= observed && f.key.destination != GLOBAL_ADDRESS
    ensures 1 <= t.next <= Packets(|f.payload|) && AfterData(t, barrier).Some?
    ensures var event := OwnFrame(f, TRANSPORT_DATA_PGN, DataBytes(f.payload, t.next), f.startedAt);
      var u := AfterData(t, barrier).value; var (after, finished) := OnTransport(None, Some(r), sent, observed, event);
      && u.sent == t.next && u.barrier == barrier && finished == None && after.tx == None
      && if t.next == Packets(|f.payload|) then
           && u.end == 0 && u.payload == f.payload && u.pgn == f.pgn && u.destination == t.destination
           && after.rx == None && after.sent == sent + 1
           && after.replies == [Outgoing(TRANSPORT_CONTROL_PGN, f.key.source, Acknowledge(f.pgn, |f.payload|))]
         else
           && after.rx.Some? && after.rx.value.next == t.next + 1
           && if t.next == t.end then
                && Pausing(f, u, after.rx.value) && after.rx.value.barrier == sent + 1 == after.sent
                && after.replies == [GrantOf(after.rx.value)]
              else
                && InStep(f, u, after.rx.value) && after.rx.value.barrier == r.barrier && after.sent == sent && after.replies == []
  {
    hide ActivePGN;
    OnDataKeepsValid(r, DataBytes(f.payload, t.next), observed);
    J1939Sessions.DataKeepsValid(t, barrier);
  }

  lemma AcknowledgementArrives(f: Transfer, t: Transmission, sent: nat, observed: nat)
    requires f.Valid() && ValidTransmission(t) && t.payload == f.payload && t.pgn == f.pgn && t.end == 0
    requires t.sent == Packets(|f.payload|) && t.barrier <= observed
    requires t.destination == f.key.destination != GLOBAL_ADDRESS
    ensures OnTransport(Some(t), None, sent, observed, Reply(f, Acknowledge(f.pgn, |f.payload|)))
         == (Slots(None, None, sent, []), Some(true))
  {
    AcknowledgeRoundTrip(f.pgn, |f.payload|);
    hide ControlPGN;
    hide ActivePGN;
    OnlySending(Some(t), None, sent, observed, Reply(f, Acknowledge(f.pgn, |f.payload|)));
  }

  // A client that has claimed its address, takes part in no transfer and has seen all its own frames.
  ghost predicate Idle(c: TransportClient)
    reads c
  {
    c.Valid() && c.tx == None && c.rx == None && c.observed == c.sent
  }

  lemma StartPauses(f: Transfer, t: Transmission, r: Reception)
    requires f.Valid() && f.key.destination != GLOBAL_ADDRESS && ValidReception(r) && ValidTransmission(t)
    requires t == NewTransmission(f.priority, f.pgn, f.key.destination, f.payload).(barrier := t.barrier)
    requires r.pgn == f.pgn && r.size == |f.payload| && r.next == 1 && r.source == f.key.source
    ensures Pausing(f, t, r)
  {
  }

  lemma InStepSends(f: Transfer, t: Transmission, r: Reception)
    requires InStep(f, t, r)
    ensures t.end != 0 && t.payload == f.payload && t.destination == f.key.destination
    ensures 1 <= t.next == r.next <= Packets(|f.payload|)
  {
  }

  ghost predicate Transferring(f: Transfer, a: TransportClient, b: TransportClient)
    reads a, b
  {
    && f.Valid() && f.key.destination != GLOBAL_ADDRESS
    && a.Valid() && b.Valid() && a.tx.Some? && a.rx == None && b.tx == None && b.rx.Some? && InStep(f, a.tx.value, b.rx.value)
    && a.tx.value.barrier <= a.observed == a.sent && b.rx.value.barrier <= b.observed == b.sent
  }

  // The announcement and the first grant.
  method Establish(f: Transfer, a: TransportClient, b: TransportClient)
    requires f.Valid() && f.pgn != ADDRESS_CLAIM_PGN && f.pgn != REQUEST_PGN && f.key.destination != GLOBAL_ADDRESS
    requires a != b && Idle(a) && Idle(b) && a.claimed
    modifies a, b
    ensures Transferring(f, a, b) && a.tx.value.next == 1
  {
    hide OnTransport;
    hide Pausing;
    hide InStep;
    var result, frame := a.StartSend(f.priority, f.pgn, f.key.destination, f.payload);
    a.Observe();
    OpensFor(f, b.sent, b.observed);
    var replies, silent := b.HandleTransport(OwnFrame(f, TRANSPORT_CONTROL_PGN, frame.value.data, f.startedAt));
    b.Observe();
    StartPauses(f, a.tx.value, b.rx.value);
    GrantArrives(f, a.tx.value, b.rx.value, a.sent, a.observed);
    var nothing, finished := a.HandleTransport(Reply(f, replies[0].data));
    InStepSends(f, a.tx.value, b.rx.value);
  }

  // One data frame, and the grant or acknowledgement it is answered with.
  method SendPacket(f: Transfer, a: TransportClient, b: TransportClient)
    returns (packet: seq<byte>, replies: seq<Outgoing>, finished: Option<bool>)
    requires a != b && Transferring(f, a, b)
    modifies a, b
    ensures 1 <= old(a.tx.value.next) <= Packets(|f.payload|) && packet == DataBytes(f.payload, old(a.tx.value.next))
    ensures old(a.tx.value.next) < Packets(|f.payload|) ==>
      Transferring(f, a, b) && a.tx.value.next == old(a.tx.value.next) + 1 && finished == None
    ensures old(a.tx.value.next) == Packets(|f.payload|) ==>
      && Idle(a) && Idle(b) && finished == Some(true)
      && replies == [Outgoing(TRANSPORT_CONTROL_PGN, f.key.source, Acknowledge(f.pgn, |f.payload|))]
  {
    hide OnTransport;
    hide AfterData;
    hide Pausing;
    hide InStep;
    InStepSends(f, a.tx.value, b.rx.value);
    DataArrives(f, a.tx.value, b.rx.value, a.sent + 1, b.sent, b.observed);
    var data := a.Tick(true);
    a.Observe();
    packet, finished := data.data, None;
    var silent;
    replies, silent := b.HandleTransport(OwnFrame(f, TRANSPORT_DATA_PGN, packet, f.startedAt));
    if replies != [] {
      b.Observe();
      finished := TakeReply(f, a, b, replies[0]);
    }
    if finished.None? {
      InStepSends(f, a.tx.value, b.rx.value);
    }
  }

  // A grant while the responder waits for more, the acknowledgement when it is done.
  method TakeReply(f: Transfer, a: TransportClient, b: TransportClient, reply: Outgoing) returns (finished: Option<bool>)
    requires f.Valid() && f.key.destination != GLOBAL_ADDRESS && a.Valid() && a.tx.Some? && a.rx == None
    requires a.tx.value.barrier <= a.observed
    requires b.rx.Some? ==> Pausing(f, a.tx.value, b.rx.value) && reply == GrantOf(b.rx.value)
    requires b.rx == None ==> a.tx.value.payload == f.payload && a.tx.value.pgn == f.pgn && a.tx.value.destination == f.key.destination
    requires b.rx == None ==> a.tx.value.sent == Packets(|f.payload|) && a.tx.value.end == 0
    requires b.rx == None ==> reply.data == Acknowledge(f.pgn, |f.payload|)
    requires a != b
    modifies a`tx, a`rx, a`sent
    ensures a.Valid() && a.rx == None && a.sent == old(a.sent)
    ensures b.rx == None ==> a.tx == None && finished == Some(true)
    ensures b.rx.Some? ==> finished == None && a.tx.Some? && InStep(f, a.tx.value, b.rx.value) && a.tx.value.barrier == old(a.tx.value.barrier)
  {
    hide OnTransport;
    hide Pausing;
    hide InStep;
    if b.rx.Some? {
      GrantArrives(f, a.tx.value, b.rx.value, a.sent, a.observed);
    } else {
      AcknowledgementArrives(f, a.tx.value, a.sent, a.observed);
    }
    var nothing;
    nothing, finished := a.HandleTransport(Reply(f, reply.data));
  }

  /**
   * Two clients of this package, over a bus that loses nothing: the transfer never stalls or fails, every packet
   * goes out once and in order, and the sender is told of success when the responder has acknowledged them all.
   */
  method RunTransfer(f: Transfer, a: TransportClient, b: TransportClient)
    returns (packets: seq<seq<byte>>, answer: seq<Outgoing>, finished: Option<bool>)
    requires f.Valid() && f.pgn != ADDRESS_CLAIM_PGN && f.pgn != REQUEST_PGN && f.key.destination != GLOBAL_ADDRESS
    requires a != b && Idle(a) && Idle(b) && a.claimed
    modifies a, b
    ensures Idle(a) && Idle(b) && finished == Some(true)
    ensures |packets| == Packets(|f.payload|)
    ensures forall i :: 0 <= i < |packets| ==> packets[i] == DataBytes(f.payload, i + 1)
    ensures answer == [Outgoing(TRANSPORT_CONTROL_PGN, f.key.source, Acknowledge(f.pgn, |f.payload|))]
  {
    hide InStep;
    Establish(f, a, b);
    var packet;
    packet, answer, finished := SendPacket(f, a, b);
    packets := [packet];
    while finished.None?
      invariant 1 <= |packets| <= Packets(|f.payload|)
      invariant forall i :: 0 <= i < |packets| ==> packets[i] == DataBytes(f.payload, i + 1)
      invariant if |packets| < Packets(|f.payload|) then finished == None && Transferring(f, a, b) && a.tx.value.next == |packets| + 1
                else
                  && Idle(a) && Idle(b) && finished == Some(true)
                  && answer == [Outgoing(TRANSPORT_CONTROL_PGN, f.key.source, Acknowledge(f.pgn, |f.payload|))]
      decreases Packets(|f.payload|) - |packets|
    {
      packet, answer, finished := SendPacket(f, a, b);
      packets := packets + [packet];
    }
  }
}
