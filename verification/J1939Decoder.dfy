/** The passive decoder of transport transfers (j1939/decoder.go). */
module J1939Decoder {
  import opened Wrappers
  import opened Frames
  import opened J1939Transport

  const CONSECUTIVE_TIMEOUT: nat := 750
  const RESPONSE_TIMEOUT: nat := 1250
  const HOLD_TIMEOUT: nat := 1050

  datatype SessionKey = SessionKey(bus: nat, direction: Direction, source: byte, destination: byte)

  datatype Message = Message(key: SessionKey, priority: byte, pgn: nat, payload: seq<byte>, startedAt: int, completedAt: int)

  datatype Session = Session(priority: byte, pgn: nat, startedAt: int, payload: seq<byte>, size: nat, packets: nat, next: nat,
                             lastAt: int, deadline: int, windowEnd: nat, maxWindow: nat)

  type Sessions = map<SessionKey, Session>

  datatype Outcome = Outcome(sessions: Sessions, message: Option<Message>, error: Option<Error>)

  function KeyOf(event: Event): SessionKey {
    SessionKey(event.bus, event.direction, event.source, event.destination)
  }

  function Opposite(direction: Direction): Direction {
    match direction
    case DirectionReceive => DirectionTransmit
    case DirectionTransmit => DirectionReceive
  }

  function Failed(sessions: Sessions, error: Error): Outcome {
    Outcome(sessions, None, Some(error))
  }

  // ---- Expiry ----------------------------------------------------------------------------

  predicate Expires(key: SessionKey, session: Session, event: Event) {
    key.bus == event.bus && (event.time > session.deadline || event.time < session.lastAt)
  }

  function Unexpired(sessions: Sessions, event: Event): Sessions {
    map key | key in sessions && !Expires(key, sessions[key], event) :: sessions[key]
  }

  // ---- One frame -------------------------------------------------------------------------

  /** startSession: a replacement, even a malformed one, ends what it incomplete. */
  function StartSession(sessions: Sessions, event: Event): Outcome
    requires |event.data| == 8
  {
    var key := KeyOf(event);
    var rest := sessions - {key};
    var broadcast := event.data[0] == BAM;
    if event.source >= NULL_ADDRESS || event.destination == NULL_ADDRESS then Failed(rest, Protocol)
    else if broadcast && event.destination != GLOBAL_ADDRESS then Failed(rest, Protocol)
    else if !broadcast && (event.destination == GLOBAL_ADDRESS || event.data[4] == 0) then Failed(rest, Protocol)
    else
      match TransportSize(event.data)
      case Err(error) => Failed(rest, error)
      case Ok((size, packets)) =>
        match ControlPGN(event.data)
        case Err(error) => Failed(rest, error)
        case Ok(pgn) =>
          var session := Session(event.priority, pgn, event.time, [], size, packets, 1, event.time,
                                 event.time + (if broadcast then CONSECUTIVE_TIMEOUT else RESPONSE_TIMEOUT),
                                 if broadcast then packets else 0, event.data[4]);
          Outcome(rest[key := session], None, if key in sessions then Some(Protocol) else None)
  }

  /** pushData. */
  function PushData(sessions: Sessions, event: Event): Outcome {
    var key := KeyOf(event);
    if |event.data| != 8 then Failed(sessions - {key}, Protocol)
    else if key !in sessions then Failed(sessions, Protocol)
    else
      var active := sessions[key];
      var sequence: nat := event.data[0];
      if sequence != active.next || sequence > active.windowEnd then Failed(sessions - {key}, Protocol)
      else
        var remaining := active.size - |active.payload|;
        var piece := if remaining < 0 then [] else if 7 > remaining then event.data[1..1 + remaining] else event.data[1..];
        var payload := active.payload + piece;
        if |payload| < active.size then
          var timeout := if event.destination != GLOBAL_ADDRESS && sequence == active.windowEnd then RESPONSE_TIMEOUT else CONSECUTIVE_TIMEOUT;
          Outcome(sessions[key := active.(payload := payload, next := active.next + 1, lastAt := event.time, deadline := event.time + timeout)],
                  None, None)
        else
          Outcome(sessions - {key}, Some(Message(key, active.priority, active.pgn, payload, active.startedAt, event.time)), None)
  }

  datatype Reverse = Ambiguous(first: SessionKey, second: SessionKey) | Matched(key: SessionKey) | Unmatched

  /** reverseSession: control frames travel against the data, in either capture direction. */
  function ReverseSession(sessions: Sessions, event: Event, pgn: nat): Reverse {
    var key := SessionKey(event.bus, event.direction, event.destination, event.source);
    var other := key.(direction := Opposite(key.direction));
    var first := key in sessions && sessions[key].pgn == pgn;
    var second := other in sessions && sessions[other].pgn == pgn;
    if first && second then Ambiguous(key, other)
    else if first then Matched(key)
    else if second then Matched(other)
    else Unmatched
  }

  /** clearToSend: a grant may go back over packets already seen, whose bytes are then dropped. */
  function PushClearToSend(sessions: Sessions, event: Event): Outcome
    requires |event.data| == 8
  {
    match ControlPGN(event.data)
    case Err(error) => Failed(sessions, error)
    case Ok(pgn) =>
      match ReverseSession(sessions, event, pgn)
      case Ambiguous(first, second) => Failed(sessions - {first, second}, Protocol)
      case Unmatched => Failed(sessions, Protocol)
      case Matched(key) =>
        if key !in sessions then Failed(sessions, Protocol)
        else
          var active := sessions[key];
          var count: nat := event.data[1];
          var next: nat := event.data[2];
          if active.next <= active.windowEnd then Failed(sessions - {key}, Protocol)
          else if key.destination == GLOBAL_ADDRESS || count > active.maxWindow
               || (count != 0 && (next < 1 || next > active.next || next + count - 1 > active.packets)) then Failed(sessions - {key}, Protocol)
          else if count == 0 then
            Outcome(sessions[key := active.(lastAt := event.time, windowEnd := 0, deadline := event.time + HOLD_TIMEOUT)], None, None)
          else
            var kept := 7 * (next - 1);
            Outcome(sessions[key := active.(payload := if kept <= |active.payload| then active.payload[..kept] else active.payload,
                                            next := next, windowEnd := next + count - 1,
                                            lastAt := event.time, deadline := event.time + RESPONSE_TIMEOUT)], None, None)
  }

  function PushAcknowledge(sessions: Sessions, event: Event): Outcome
    requires |event.data| == 8
  {
    match TransportSize(event.data)
    case Err(error) => Failed(sessions, error)
    case Ok(_) =>
      if event.source >= NULL_ADDRESS || event.destination >= NULL_ADDRESS then Failed(sessions, Protocol)
      else
        match ControlPGN(event.data)
        case Err(error) => Failed(sessions, error)
        case Ok(pgn) =>
          match ReverseSession(sessions, event, pgn)
          case Ambiguous(first, second) => Failed(sessions - {first, second}, Protocol)
          case Unmatched => Outcome(sessions, None, None)
          case Matched(key) => Failed(sessions - {key}, Protocol)
  }

  /** abortSession: either peer, seen in either capture direction. */
  function PushAbort(sessions: Sessions, event: Event): Outcome
    requires |event.data| == 8
  {
    if event.source >= NULL_ADDRESS || event.destination >= NULL_ADDRESS then Failed(sessions, Protocol)
    else
      match ControlPGN(event.data)
      case Err(error) => Failed(sessions, error)
      case Ok(pgn) =>
        var reverse := SessionKey(event.bus, event.direction, event.destination, event.source);
        var candidates := {KeyOf(event), reverse, reverse.(direction := Opposite(event.direction))};
        var aborted := set key | key in candidates && key in sessions && sessions[key].pgn == pgn;
        Outcome(sessions - aborted, None, if aborted == {} then None else Some(Protocol))
  }

  function PushControl(sessions: Sessions, event: Event): Outcome {
    if |event.data| != 8 then Failed(sessions - {KeyOf(event)}, Protocol)
    else if event.data[0] == BAM || event.data[0] == RTS then StartSession(sessions, event)
    else if event.data[0] == ABORT then PushAbort(sessions, event)
    else if event.data[0] == CTS then PushClearToSend(sessions, event)
    else if event.data[0] == EOMA then PushAcknowledge(sessions, event)
    else Failed(sessions, Protocol)
  }

  function PushFrame(sessions: Sessions, event: Event): Outcome {
    if event.pgn >= 0x20000 || event.pgn == EXTENDED_DATA_PGN || event.pgn == EXTENDED_CONTROL_PGN then Failed(sessions, Unsupported)
    else if event.pgn == TRANSPORT_CONTROL_PGN then PushControl(sessions, event)
    else if event.pgn == TRANSPORT_DATA_PGN then PushData(sessions, event)
    else Outcome(sessions, Some(Message(KeyOf(event), event.priority, event.pgn, event.data, event.time, event.time)), None)
  }

  /** Push: sessions past their deadline go first. */
  function Pushed(sessions: Sessions, event: Event): Outcome {
    PushFrame(Unexpired(sessions, event), event)
  }

  // ---- Invariant -------------------------------------------------------------------------

  function Least(a: int, b: int): int {
    if a < b then a else b
  }

  /** What every open session keeps: its payload is exactly as long as its packet counter says. */
  ghost predicate ValidSession(s: Session) {
    && 8 < s.size <= MAXIMUM_PAYLOAD && s.packets == Packets(s.size)
    && 1 <= s.next <= s.packets && s.windowEnd <= s.packets
    && |s.payload| == Least(7 * (s.next - 1), s.size) < s.size
  }

  ghost predicate ValidSessions(sessions: Sessions) {
    forall key :: key in sessions ==> ValidSession(sessions[key])
  }

  lemma DataKeepsValid(sessions: Sessions, event: Event)
    requires ValidSessions(sessions)
    ensures ValidSessions(PushData(sessions, event).sessions)
    ensures PushData(sessions, event).message.Some? ==>
      KeyOf(event) in sessions && |PushData(sessions, event).message.value.payload| == sessions[KeyOf(event)].size
  {
    if KeyOf(event) in sessions {
      assert ValidSession(sessions[KeyOf(event)]);
    }
  }

  lemma ClearToSendKeepsValid(sessions: Sessions, event: Event)
    requires ValidSessions(sessions) && |event.data| == 8
    ensures ValidSessions(PushClearToSend(sessions, event).sessions)
  {
    hide ControlPGN;
    match ControlPGN(event.data)
    case Err(_) =>
    case Ok(pgn) =>
      match ReverseSession(sessions, event, pgn)
      case Ambiguous(_, _) =>
      case Unmatched =>
      case Matched(key) =>
        assert ValidSession(sessions[key]);
  }

  lemma StartKeepsValid(sessions: Sessions, event: Event)
    requires ValidSessions(sessions) && |event.data| == 8
    ensures ValidSessions(StartSession(sessions, event).sessions)
  {
    hide ControlPGN;
  }

  /**
   * On any traffic whatsoever, every session keeps as many payload bytes as its counter accounts for, so the
   * bytes a retransmission grant keeps are always there, and a completed message has the announced size.
   */
  lemma PushKeepsValid(sessions: Sessions, event: Event)
    requires ValidSessions(sessions)
    ensures ValidSessions(Pushed(sessions, event).sessions)
    ensures Pushed(sessions, event).message.Some? && event.pgn == TRANSPORT_DATA_PGN ==>
      KeyOf(event) in sessions && |Pushed(sessions, event).message.value.payload| == sessions[KeyOf(event)].size
  {
    hide StartSession;
    hide PushData;
    hide PushClearToSend;
    hide ControlPGN;
    hide TransportSize;
    hide ValidSession;
    var live := Unexpired(sessions, event);
    assert ValidSessions(live);
    DataKeepsValid(live, event);
    if |event.data| == 8 {
      StartKeepsValid(live, event);
      ClearToSendKeepsValid(live, event);
    }
  }

  // The bytes that clearToSend keeps for a retransmission are there; it slices without looking.
  lemma RetransmissionIsInBounds(s: Session, next: nat)
    requires ValidSession(s) && 1 <= next <= s.next
    ensures 7 * (next - 1) <= |s.payload|
  {
  }

  // The sessions a frame can concern: the transfer it belongs to, or one that it answers, in either capture direction.
  predicate Concerns(event: Event, key: SessionKey) {
    || key == KeyOf(event)
    || (key.bus == event.bus && key.source == event.destination && key.destination == event.source)
  }

  /** A frame leaves every session of other peers alone, unless its time shows that the session has expired. */
  lemma PushTouchesOnlyItsPeers(sessions: Sessions, event: Event, key: SessionKey)
    requires !Concerns(event, key)
    requires key in sessions ==> !Expires(key, sessions[key], event)
    ensures var after := Pushed(sessions, event).sessions;
      && (key in after <==> key in sessions) && (key in sessions ==> after[key] == sessions[key])
  {
    hide ControlPGN;
    hide TransportSize;
  }

  // ---- What a frame means ----------------------------------------------------------------

  /** A parameter group carried by one frame: neither transported nor reserved for an extended transport. */
  predicate Ordinary(event: Event) {
    && event.pgn < 0x20000
    && event.pgn !in {TRANSPORT_CONTROL_PGN, TRANSPORT_DATA_PGN, EXTENDED_DATA_PGN, EXTENDED_CONTROL_PGN}
  }

  /** The message of an ordinary frame is the frame. */
  function Whole(event: Event): Message {
    Message(SessionKey(event.bus, event.direction, event.source, event.destination), event.priority, event.pgn,
            event.data, event.time, event.time)
  }

  // Silence after which a session is given up, or time that runs backwards.
  predicate Stale(session: Session, time: int) {
    time > session.deadline || time < session.lastAt
  }

  /** The sessions a frame finds: those of other buses, and those of its bus it is in time for. */
  ghost predicate Survive(sessions: Sessions, event: Event, after: Sessions) {
    && (forall key :: key in after <==> key in sessions && !(key.bus == event.bus && Stale(sessions[key], event.time)))
    && (forall key :: key in after ==> after[key] == sessions[key])
  }

  /** What an announcement asks for, each side of a transfer being usable and the sizes agreeing. */
  ghost predicate Announces(event: Event, pgn: nat, size: nat) {
    && |event.data| == 8 && (event.data[0] == BAM || event.data[0] == RTS)
    && event.source < 0xfe && event.destination != 0xfe
    && (event.data[0] == BAM <==> event.destination == 0xff) && (event.data[0] == RTS ==> event.data[4] > 0)
    && 9 <= size <= 1785 && event.data[1] as nat + 256 * event.data[2] as nat == size
    && 7 * (event.data[3] as nat - 1) < size <= 7 * event.data[3] as nat
    && ControlPGN(event.data) == Ok(pgn)
  }

  /** An announcement opens a session exactly if it is well formed; whatever it is, it ends the one before. */
  lemma StartsExactly(sessions: Sessions, event: Event)
    requires event.pgn == TRANSPORT_CONTROL_PGN && |event.data| == 8 && (event.data[0] == BAM || event.data[0] == RTS)
    ensures var o := Pushed(sessions, event);
      && o.message == None
      && (KeyOf(event) in o.sessions <==> exists pgn: nat, size: nat :: Announces(event, pgn, size))
      && (KeyOf(event) in o.sessions ==>
            var s := o.sessions[KeyOf(event)];
            && Announces(event, s.pgn, s.size) && s.payload == [] && s.next == 1
            && s.priority == event.priority && s.startedAt == s.lastAt == event.time
            && s.packets == event.data[3] as nat && s.maxWindow == event.data[4] as nat
            && s.windowEnd == (if event.destination == 0xff then s.packets else 0)
            && s.deadline == event.time + (if event.destination == 0xff then 750 else 1250))
  {
    hide ControlPGN;
    var live := Unexpired(sessions, event);
    var o := StartSession(live, event);
    if KeyOf(event) in o.sessions {
      PacketsIsLeast(o.sessions[KeyOf(event)].size, event.data[3]);
      assert Announces(event, o.sessions[KeyOf(event)].pgn, o.sessions[KeyOf(event)].size);
    }
    if pgn: nat, size: nat :| Announces(event, pgn, size) {
      PacketsIsLeast(size, event.data[3]);
      assert TransportSize(event.data) == Ok((size, event.data[3] as nat));
    }
  }

  lemma PacketsIsLeast(size: nat, n: nat)
    ensures Packets(size) == n <==> 7 * (n - 1) < size <= 7 * n
  {
    var spare := size + 6 - 7 * Packets(size);
    assert 0 <= spare < 7;
  }

  /** A data frame goes into its session exactly if it is the packet awaited inside the window. */
  lemma DataExactly(sessions: Sessions, event: Event)
    requires ValidSessions(sessions) && event.pgn == TRANSPORT_DATA_PGN && |event.data| == 8
    requires KeyOf(event) in sessions && !Stale(sessions[KeyOf(event)], event.time)
    ensures var (o, key, s) := (Pushed(sessions, event), KeyOf(event), sessions[KeyOf(event)]);
      var taken := Least(7, s.size - |s.payload|);
      var payload := s.payload + event.data[1..1 + taken];
      if event.data[0] as nat != s.next || s.next > s.windowEnd then
        key !in o.sessions && o.message == None && o.error.Some?
      else if |payload| == s.size then
        && key !in o.sessions && o.error == None
        && o.message == Some(Message(key, s.priority, s.pgn, payload, s.startedAt, event.time))
      else
        && o.message == None && o.error == None && key in o.sessions
        && o.sessions[key] == s.(payload := payload, next := s.next + 1, lastAt := event.time,
             deadline := event.time + (if event.destination != 0xff && s.next == s.windowEnd then 1250 else 750))
  {
    var s := sessions[KeyOf(event)];
    assert ValidSession(s);
    assert Unexpired(sessions, event)[KeyOf(event)] == s;
    assert s.size - |s.payload| >= 7 ==> event.data[1..1 + 7] == event.data[1..];
  }

  // The transfers between two peers, seen in the direction of the frame or answered in either.
  predicate Between(event: Event, key: SessionKey) {
    && key.bus == event.bus
    && (|| (key.source == event.source && key.destination == event.destination && key.direction == event.direction)
        || (key.source == event.destination && key.destination == event.source))
  }

  /** An abort ends every transfer of the group between the two peers, and no other. */
  lemma AbortEnds(sessions: Sessions, event: Event, pgn: nat, key: SessionKey)
    requires event.pgn == TRANSPORT_CONTROL_PGN && |event.data| == 8 && event.data[0] == ABORT
    requires ControlPGN(event.data) == Ok(pgn) && event.source < 0xfe && event.destination < 0xfe
    requires key in sessions && !(key.bus == event.bus && Stale(sessions[key], event.time))
    ensures var o := Pushed(sessions, event);
      if Between(event, key) && sessions[key].pgn == pgn then key !in o.sessions && o.error.Some?
      else key in o.sessions && o.sessions[key] == sessions[key]
  {
    hide ControlPGN;
    var live := Unexpired(sessions, event);
    var reverse := SessionKey(event.bus, event.direction, event.destination, event.source);
    var candidates := {KeyOf(event), reverse, reverse.(direction := Opposite(event.direction))};
    assert key == SessionKey(key.bus, key.direction, key.source, key.destination);
    assert key.direction == event.direction || key.direction == Opposite(event.direction);
    assert Between(event, key) <==> key in candidates;
    var aborted := set k | k in candidates && k in live && live[k].pgn == pgn;
    assert key in aborted <==> Between(event, key) && sessions[key].pgn == pgn;
  }

  // The live session of the group whose peer sent the frame, in one capture direction only.
  ghost predicate Answered(sessions: Sessions, event: Event, pgn: nat, key: SessionKey) {
    && key.bus == event.bus && key.source == event.destination && key.destination == event.source
    && key in sessions && sessions[key].pgn == pgn && !Stale(sessions[key], event.time)
    && var other := key.(direction := Opposite(key.direction));
    !(other in sessions && sessions[other].pgn == pgn && !Stale(sessions[other], event.time))
  }

  lemma AnsweredIsMatched(sessions: Sessions, event: Event, pgn: nat, key: SessionKey)
    requires Answered(sessions, event, pgn, key)
    ensures ReverseSession(Unexpired(sessions, event), event, pgn) == Matched(key)
    ensures Unexpired(sessions, event)[key] == sessions[key]
  {
    var first := SessionKey(event.bus, event.direction, event.destination, event.source);
    assert key == SessionKey(key.bus, key.direction, key.source, key.destination);
    assert key.direction == event.direction || key.direction == Opposite(event.direction);
    assert key == first || key == first.(direction := Opposite(first.direction));
  }

  /**
   * A grant or hold moves the session it answers, back over packets already seen if it asks for them again; one that
   * comes inside a window or asks for more than was announced ends the session.
   */
  lemma GrantExactly(sessions: Sessions, event: Event, pgn: nat, key: SessionKey)
    requires ValidSessions(sessions) && event.pgn == TRANSPORT_CONTROL_PGN && |event.data| == 8 && event.data[0] == CTS
    requires ControlPGN(event.data) == Ok(pgn) && Answered(sessions, event, pgn, key) && event.source != 0xff
    ensures var (o, s) := (Pushed(sessions, event), sessions[key]);
      var (count, next) := (event.data[1] as nat, event.data[2] as nat);
      && o.message == None
      && if s.next <= s.windowEnd || count > s.maxWindow || (count > 0 && !(1 <= next <= s.next && next + count <= s.packets + 1)) then
           key !in o.sessions && o.error.Some?
         else
           && key in o.sessions && o.error == None
           && (count == 0 ==> o.sessions[key] == s.(lastAt := event.time, windowEnd := 0, deadline := event.time + 1050))
           && (count > 0 ==> 7 * (next - 1) <= |s.payload| && o.sessions[key] == s.(payload := s.payload[..7 * (next - 1)],
                 next := next, windowEnd := next + count - 1, lastAt := event.time, deadline := event.time + 1250))
  {
    hide ControlPGN;
    AnsweredIsMatched(sessions, event, pgn, key);
    var next: nat := event.data[2];
    assert ValidSession(sessions[key]);
    if 1 <= next <= sessions[key].next {
      RetransmissionIsInBounds(sessions[key], next);
    }
  }

  /** An acknowledgement for a session still open comes before all its bytes were seen, and ends it. */
  lemma EarlyAcknowledgementEnds(sessions: Sessions, event: Event, pgn: nat, key: SessionKey)
    requires event.pgn == TRANSPORT_CONTROL_PGN && |event.data| == 8 && event.data[0] == EOMA
    requires ControlPGN(event.data) == Ok(pgn) && TransportSize(event.data).Ok? && Answered(sessions, event, pgn, key)
    requires event.source < 0xfe && event.destination < 0xfe
    ensures var o := Pushed(sessions, event);
      key !in o.sessions && o.message == None && o.error.Some?
  {
    hide ControlPGN;
    hide TransportSize;
    AnsweredIsMatched(sessions, event, pgn, key);
  }

  /** An ordinary frame is passed on as a message, and disturbs no session. */
  lemma OrdinaryIsPassedOn(sessions: Sessions, event: Event)
    ensures var o := Pushed(sessions, event);
      && (Ordinary(event) ==> o.message == Some(Whole(event)) && o.error == None && Survive(sessions, event, o.sessions))
      && (o.message.Some? ==> Ordinary(event) || event.pgn == TRANSPORT_DATA_PGN)
  {
    hide ControlPGN;
    hide TransportSize;
  }

  // The same transfer, further on or further back.
  predicate SameTransfer(left: Session, right: Session) {
    && left.pgn == right.pgn && left.size == right.size && left.priority == right.priority && left.startedAt == right.startedAt
  }

  /** No transfer is lost in silence: what does not go on has completed, or is reported. */
  lemma LossIsReported(sessions: Sessions, event: Event, key: SessionKey)
    requires key in sessions
    ensures var o := Pushed(sessions, event);
      || (key in o.sessions && SameTransfer(o.sessions[key], sessions[key]))
      || (o.message.Some? && o.message.value.key == key && |o.message.value.payload| >= sessions[key].size)
      || o.error.Some? || (key.bus == event.bus && Stale(sessions[key], event.time))
  {
    hide ControlPGN;
    hide TransportSize;
  }

  // ---- The decoder -----------------------------------------------------------------------

  class Decoder {
    var sessions: Sessions

    constructor ()
      ensures sessions == map[]
    {
      sessions := map[];
    }

    /** Push */
    method Push(event: Event) returns (message: Option<Message>, error: Option<Error>)
      requires ValidSessions(sessions)
      modifies this
      ensures ValidSessions(sessions)
      ensures var outcome := Pushed(old(sessions), event);
        && sessions == outcome.sessions && message == outcome.message
        && (error.Some? <==> outcome.error.Some? || Unexpired(old(sessions), event) != old(sessions))
      ensures Ordinary(event) ==> message == Some(Whole(event)) && Survive(old(sessions), event, sessions)
      ensures Ordinary(event) ==>
        (error.Some? <==> exists key :: key in old(sessions) && key.bus == event.bus && Stale(old(sessions)[key], event.time))
      ensures message.Some? ==> Ordinary(event) || event.pgn == TRANSPORT_DATA_PGN
      ensures forall key :: key in old(sessions) && key !in sessions ==>
        (message.Some? && message.value.key == key) || error.Some?
    {
      OrdinaryIsPassedOn(sessions, event);
      forall key | key in sessions
        ensures var o := Pushed(sessions, event);
          key in o.sessions || (o.message.Some? && o.message.value.key == key) || o.error.Some? || Expires(key, sessions[key], event)
      {
        LossIsReported(sessions, event, key);
      }
      hide PushFrame;
      PushKeepsValid(sessions, event);
      ghost var before := sessions;
      var expired := None;
      var remaining := sessions.Keys;
      while remaining != {}
        invariant remaining <= before.Keys
        invariant forall key :: key in remaining ==> key in sessions
        invariant forall key :: key in sessions ==> key in before && sessions[key] == before[key]
        invariant forall key :: key in before && key !in remaining ==> (key in sessions <==> !Expires(key, before[key], event))
        invariant expired.Some? <==> sessions != before
        decreases remaining
      {
        var key :| key in remaining;
        remaining := remaining - {key};
        if Expires(key, sessions[key], event) {
          sessions := sessions - {key};
          expired := Some(Protocol);
        }
      }
      assert sessions == Unexpired(before, event);
      message, error := PushCurrent(event);
      if error.None? {
        error := expired;
      }
    }

    // The part of Push behind the expiry of sessions.
    method PushCurrent(event: Event) returns (message: Option<Message>, error: Option<Error>)
      requires ValidSessions(sessions)
      modifies this
      ensures Outcome(sessions, message, error) == PushFrame(old(sessions), event)
    {
      message, error := None, None;
      if event.pgn >= 0x20000 || event.pgn == EXTENDED_DATA_PGN || event.pgn == EXTENDED_CONTROL_PGN {
        error := Some(Unsupported);
      } else if event.pgn == TRANSPORT_CONTROL_PGN {
        error := PushControlFrame(event);
      } else if event.pgn == TRANSPORT_DATA_PGN {
        message, error := PushDataFrame(event);
      } else {
        message := Some(Message(KeyOf(event), event.priority, event.pgn, event.data, event.time, event.time));
      }
    }

    /** pushControl */
    method PushControlFrame(event: Event) returns (error: Option<Error>)
      requires ValidSessions(sessions)
      modifies this
      ensures Outcome(sessions, None, error) == PushControl(old(sessions), event)
    {
      hide StartSession;
      hide PushAbort;
      hide PushClearToSend;
      hide ValidSessions;
      if |event.data| != 8 {
        sessions := sessions - {KeyOf(event)};
        return Some(Protocol);
      }
      var control := event.data[0];
      if control == BAM || control == RTS {
        error := Start(event);
      } else if control == ABORT {
        error := Abort(event);
      } else if control == CTS {
        error := ClearToSend(event);
      } else if control == EOMA {
        error := AcknowledgeEarly(event);
      } else {
        error := Some(Protocol);
      }
    }

    /** startSession */
    method Start(event: Event) returns (error: Option<Error>)
      requires |event.data| == 8
      modifies this
      ensures Outcome(sessions, None, error) == StartSession(old(sessions), event)
    {
      var key := KeyOf(event);
      var incomplete := key in sessions;
      sessions := sessions - {key};
      var broadcast := event.data[0] == BAM;
      if event.source >= NULL_ADDRESS || event.destination == NULL_ADDRESS {
        return Some(Protocol);
      }
      if broadcast && event.destination != GLOBAL_ADDRESS {
        return Some(Protocol);
      }
      if !broadcast && (event.destination == GLOBAL_ADDRESS || event.data[4] == 0) {
        return Some(Protocol);
      }
      var size := TransportSize(event.data);
      if size.Err? {
        return Some(size.error);
      }
      var pgn := ControlPGN(event.data);
      if pgn.Err? {
        return Some(pgn.error);
      }
      var session := Session(event.priority, pgn.value, event.time, [], size.value.0, size.value.1, 1,
                             event.time, event.time + RESPONSE_TIMEOUT, 0, event.data[4]);
      sessions := sessions[key := session];
      if broadcast {
        sessions := sessions[key := sessions[key].(windowEnd := size.value.1)];
        sessions := sessions[key := sessions[key].(deadline := event.time + CONSECUTIVE_TIMEOUT)];
      }
      error := if incomplete then Some(Protocol) else None;
    }

    /** pushData */
    method PushDataFrame(event: Event) returns (message: Option<Message>, error: Option<Error>)
      requires ValidSessions(sessions)
      modifies this
      ensures Outcome(sessions, message, error) == PushData(old(sessions), event)
    {
      var key := KeyOf(event);
      message, error := None, None;
      if |event.data| != 8 {
        sessions := sessions - {key};
        return None, Some(Protocol);
      }
      if key !in sessions {
        return None, Some(Protocol);
      }
      var active := sessions[key];
      assert ValidSession(active);
      var sequence: nat := event.data[0];
      if sequence != active.next || sequence > active.windowEnd {
        sessions := sessions - {key};
        return None, Some(Protocol);
      }
      var remaining := active.size - |active.payload|;
      var data := event.data[1..];
      if |data| > remaining {
        data := data[..remaining];
      }
      assert data == if 7 > remaining then event.data[1..1 + remaining] else event.data[1..];
      active := active.(payload := active.payload + data, next := active.next + 1, lastAt := event.time);
      active := active.(deadline := event.time + CONSECUTIVE_TIMEOUT);
      if event.destination != GLOBAL_ADDRESS && sequence == active.windowEnd {
        active := active.(deadline := event.time + RESPONSE_TIMEOUT);
      }
      sessions := sessions[key := active];
      if |active.payload| < active.size {
        return;
      }
      sessions := sessions - {key};
      message := Some(Message(key, active.priority, active.pgn, active.payload, active.startedAt, event.time));
    }

    /** reverseSession: two matches cancel each other. */
    method Reverse(event: Event, pgn: nat) returns (key: SessionKey, found: bool, error: Option<Error>)
      modifies this
      ensures match ReverseSession(old(sessions), event, pgn)
              case Ambiguous(first, second) => !found && error == Some(Protocol) && sessions == old(sessions) - {first, second}
              case Matched(k) => found && key == k && key in sessions && error == None && sessions == old(sessions)
              case Unmatched => !found && error == None && sessions == old(sessions)
    {
      key := SessionKey(event.bus, event.direction, event.destination, event.source);
      var other := key.(direction := Opposite(key.direction));
      var first := key in sessions && sessions[key].pgn == pgn;
      var second := other in sessions && sessions[other].pgn == pgn;
      if first && second {
        sessions := sessions - {key};
        sessions := sessions - {other};
        return key, false, Some(Protocol);
      }
      if first {
        return key, true, None;
      }
      return other, second, None;
    }

    /** clearToSend */
    method ClearToSend(event: Event) returns (error: Option<Error>)
      requires |event.data| == 8 && ValidSessions(sessions)
      modifies this
      ensures Outcome(sessions, None, error) == PushClearToSend(old(sessions), event)
    {
      var pgn := ControlPGN(event.data);
      if pgn.Err? {
        return Some(pgn.error);
      }
      var key, found, problem := Reverse(event, pgn.value);
      if problem.Some? {
        return problem;
      }
      if !found {
        return Some(Protocol);
      }
      var active := sessions[key];
      var count: nat := event.data[1];
      var next: nat := event.data[2];
      if active.next <= active.windowEnd {
        sessions := sessions - {key};
        return Some(Protocol);
      }
      if key.destination == GLOBAL_ADDRESS || count > active.maxWindow
         || (count != 0 && (next < 1 || next > active.next || next + count - 1 > active.packets)) {
        sessions := sessions - {key};
        return Some(Protocol);
      }
      active := active.(lastAt := event.time);
      if count == 0 {
        sessions := sessions[key := active.(windowEnd := 0, deadline := event.time + HOLD_TIMEOUT)];
        return None;
      }
      RetransmissionIsInBounds(sessions[key], next);
      active := active.(payload := active.payload[..(next - 1) * 7]);
      sessions := sessions[key := active.(next := next, windowEnd := next + count - 1, deadline := event.time + RESPONSE_TIMEOUT)];
      return None;
    }

    // The acknowledgement of a transfer whose bytes have not all been seen.
    method AcknowledgeEarly(event: Event) returns (error: Option<Error>)
      requires |event.data| == 8
      modifies this
      ensures Outcome(sessions, None, error) == PushAcknowledge(old(sessions), event)
    {
      var size := TransportSize(event.data);
      if size.Err? {
        return Some(size.error);
      }
      if event.source >= NULL_ADDRESS || event.destination >= NULL_ADDRESS {
        return Some(Protocol);
      }
      var pgn := ControlPGN(event.data);
      if pgn.Err? {
        return Some(pgn.error);
      }
      var key, found, problem := Reverse(event, pgn.value);
      error := problem;
      if found {
        sessions := sessions - {key};
        error := Some(Protocol);
      }
    }

    /** abortSession: the three keys under which either peer's transfer can be held. */
    method Abort(event: Event) returns (error: Option<Error>)
      requires |event.data| == 8
      modifies this
      ensures Outcome(sessions, None, error) == PushAbort(old(sessions), event)
    {
      if event.source >= NULL_ADDRESS || event.destination >= NULL_ADDRESS {
        return Some(Protocol);
      }
      var pgn := ControlPGN(event.data);
      if pgn.Err? {
        return Some(pgn.error);
      }
      var reverse := SessionKey(event.bus, event.direction, event.destination, event.source);
      var candidates := [KeyOf(event), reverse, reverse.(direction := Opposite(event.direction))];
      ghost var before := sessions;
      ghost var aborted: set<SessionKey> := {};
      error := None;
      var i := 0;
      while i < |candidates|
        invariant 0 <= i <= |candidates|
        invariant forall key :: key in aborted <==> key in candidates[..i] && key in before && before[key].pgn == pgn.value
        invariant sessions == before - aborted
        invariant error == if aborted == {} then None else Some(Protocol)
      {
        var key := candidates[i];
        if key in sessions && sessions[key].pgn == pgn.value {
          sessions := sessions - {key};
          aborted := aborted + {key};
          error := Some(Protocol);
        }
        i := i + 1;
      }
      assert candidates[..i] == candidates;
      assert aborted == (set key | key in {candidates[0], candidates[1], candidates[2]}
                                   && key in before && before[key].pgn == pgn.value);
    }

    /** Flush reports and discards every session left incomplete. */
    method Flush() returns (incomplete: set<SessionKey>)
      modifies this
      ensures sessions == map[] && incomplete == old(sessions).Keys
    {
      incomplete := sessions.Keys;
      sessions := map[];
    }
  }
}
