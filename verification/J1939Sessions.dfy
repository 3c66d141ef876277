/**
 * The active side of transport transfers (j1939/client_transport.go): the originator that sends data
 * inside the windows its peer grants, and the responder that grants them.
 */
module J1939Sessions {
  import opened Wrappers
  import opened Frames
  import opened J1939Transport

  // `sent` is the highest packet accepted so far, `end` the last packet of the open window or zero.
  datatype Transmission = Transmission(priority: byte, pgn: nat, destination: byte, payload: seq<byte>,
                                       next: nat, sent: nat, end: nat, barrier: nat)

  datatype Reception = Reception(source: byte, pgn: nat, size: nat, packets: nat, next: nat, end: nat, window: nat, barrier: nat)

  ghost predicate ValidTransmission(t: Transmission) {
    var packets := Packets(|t.payload|);
    && 8 < |t.payload| <= MAXIMUM_PAYLOAD && ActivePGN(t.pgn)
    && t.sent <= packets && t.end <= packets
    && (t.destination == GLOBAL_ADDRESS ==> t.end == 0 && 1 <= t.next <= packets)
    && (t.end != 0 ==> 1 <= t.next <= t.end && t.next <= t.sent + 1)
  }

  predicate Sending(t: Transmission) {
    t.destination == GLOBAL_ADDRESS || t.end != 0
  }

  function NewTransmission(priority: byte, pgn: nat, destination: byte, payload: seq<byte>): Transmission {
    Transmission(priority, pgn, destination, payload, 1, 0, 0, 0)
  }

  datatype Handled = Ignored | Continues(t: Transmission) | Fails(reason: byte) | PeerAborted | Completes

  /** What a control frame from the peer does to a transmission; `observed` counts own frames seen captured. */
  function OnControl(t: Transmission, event: Event, observed: nat): (h: Handled) {
    if event.source != t.destination then Ignored
    else if |event.data| != 8 then Fails(2)
    else
      match ControlPGN(event.data)
      case Err(_) => Ignored
      case Ok(pgn) =>
        if pgn != t.pgn then Ignored
        else if event.data[0] == ABORT then PeerAborted
        else if event.data[0] == EOMA then
          var packets := Packets(|t.payload|);
          if observed < t.barrier then Fails(4)
          else if t.sent != packets || t.end != 0 || Size(event.data) != |t.payload| || event.data[3] as nat != packets then Fails(2)
          else Completes
        else if event.data[0] == CTS then
          if observed < t.barrier then Fails(4) else OnGrant(t, event.data[1], event.data[2])
        else Ignored
  }

  /** A grant of `count` packets from `next` on, or a hold. */
  function OnGrant(t: Transmission, count: nat, next: nat): (h: Handled) {
    var packets := Packets(|t.payload|);
    if t.end != 0 then Fails(4)
    else if count > packets || (count != 0 && (next < 1 || next > t.sent + 1 || next + count - 1 > packets)) then Fails(2)
    else if count == 0 then Continues(t)
    else Continues(t.(next := next, end := next + count - 1))
  }

  /** After the bus has accepted the data frame of packet t.next; None when a broadcast is complete. */
  function AfterData(t: Transmission, barrier: nat): Option<Transmission> {
    var sent := if t.sent > t.next then t.sent else t.next;
    var u := t.(next := t.next + 1, sent := sent, barrier := barrier);
    if t.destination == GLOBAL_ADDRESS then
      if u.next > Packets(|t.payload|) then None else Some(u)
    else Some(if u.next > t.end then u.(end := 0) else u)
  }

  lemma ControlKeepsValid(t: Transmission, event: Event, observed: nat)
    requires ValidTransmission(t) && t.destination != GLOBAL_ADDRESS
    ensures OnControl(t, event, observed).Continues? ==> ValidTransmission(OnControl(t, event, observed).t)
  {
    hide ControlPGN;
    hide ActivePGN;
  }

  lemma DataKeepsValid(t: Transmission, barrier: nat)
    requires ValidTransmission(t) && Sending(t)
    ensures 1 <= t.next <= Packets(|t.payload|)
    ensures AfterData(t, barrier).Some? ==> ValidTransmission(AfterData(t, barrier).value)
  {
  }

  // ---- The responder ---------------------------------------------------------------------

  ghost predicate ValidReception(r: Reception) {
    && 8 < r.size <= MAXIMUM_PAYLOAD && r.packets == Packets(r.size) && r.pgn < 0x20000
    && 1 <= r.window < 256 && 1 <= r.next <= r.packets
    && r.next <= r.end <= r.packets && r.end < r.next + r.window
  }

  function GrantCount(r: Reception): nat {
    if r.window < r.packets - r.next + 1 then r.window
    else if r.next <= r.packets then r.packets - r.next + 1
    else 0
  }

  /** grant: the next window starts where the last one ended. */
  function Granted(r: Reception): Reception
    requires r.next >= 1
  {
    r.(end := r.next + GrantCount(r) - 1)
  }

  datatype Received = Refused | Waiting(r: Reception) | Grants(r: Reception) | Acknowledges

  /** The receiving half of handleTransport for a data frame from the session's peer. */
  function OnData(r: Reception, data: seq<byte>, observed: nat): Received {
    if observed < r.barrier || |data| != 8 || data[0] as nat != r.next || r.next > r.end then Refused
    else
      var u := r.(next := r.next + 1);
      if u.next > u.packets then Acknowledges
      else if u.next > u.end then Grants(Granted(u))
      else Waiting(u)
  }

  /** An RTS the responder takes up: its first session state, with the first window granted. */
  function Opened(event: Event): Option<Reception>
    requires |event.data| == 8
  {
    match ControlPGN(event.data)
    case Err(_) => None
    case Ok(pgn) =>
      match TransportSize(event.data)
      case Err(_) => None
      case Ok((size, packets)) =>
        if event.data[4] == 0 || !ActivePGN(pgn) || pgn == ADDRESS_CLAIM_PGN || pgn == REQUEST_PGN then None
        else Some(Granted(Reception(event.source, pgn, size, packets, 1, 0, event.data[4], 0)))
  }

  lemma OpenedIsValid(event: Event)
    requires |event.data| == 8
    ensures Opened(event).Some? ==> ValidReception(Opened(event).value)
  {
  }

  lemma OnDataKeepsValid(r: Reception, data: seq<byte>, observed: nat)
    requires ValidReception(r)
    ensures match OnData(r, data, observed)
      case Waiting(u) => ValidReception(u) && u.end == r.end
      case Grants(u) => ValidReception(u) && u.next == r.end + 1
      case _ => true
  {
  }

  /**
   * A session that ends in an acknowledgement has taken exactly the packets it was waiting for, in order, once each.
   * `states` are the sessions before each of the data frames, grants included.
   */
  lemma {:induction false} AcknowledgedIsComplete(states: seq<Reception>, frames: seq<seq<byte>>)
    requires |states| == |frames| > 0 && ValidReception(states[0])
    requires forall i :: 0 <= i < |frames| - 1 ==> Follows(OnData(states[i], frames[i], states[i].barrier), states[i + 1])
    requires OnData(states[|states| - 1], frames[|frames| - 1], states[|states| - 1].barrier) == Acknowledges
    ensures |frames| == states[0].packets - states[0].next + 1
    ensures forall i :: 0 <= i < |frames| ==> |frames[i]| == 8 && frames[i][0] as nat == states[0].next + i
  {
    OnDataKeepsValid(states[0], frames[0], states[0].barrier);
    if |frames| > 1 {
      assert Follows(OnData(states[0], frames[0], states[0].barrier), states[0 + 1]);
      var (later, rest) := (states[1..], frames[1..]);
      forall i | 0 <= i < |rest| - 1
        ensures Follows(OnData(later[i], rest[i], later[i].barrier), later[i + 1])
      {
        assert Follows(OnData(states[i + 1], frames[i + 1], states[i + 1].barrier), states[i + 1 + 1]);
      }
      AcknowledgedIsComplete(later, rest);
      forall i | 0 <= i < |frames|
        ensures |frames[i]| == 8 && frames[i][0] as nat == states[0].next + i
      {
        if i > 0 {
          assert frames[i] == rest[i - 1];
        }
      }
    }
  }

  // A grant is sent before the session goes on, which raises the barrier.
  ghost predicate Follows(received: Received, r: Reception) {
    match received
    case Waiting(u) => r == u
    case Grants(u) => r == u.(barrier := r.barrier)
    case _ => false
  }

  // ---- The two session slots of a client -------------------------------------------------

  // A frame to send: its destination and eight data bytes.
  datatype Outgoing = Outgoing(pgn: nat, destination: byte, data: seq<byte>)

  function AbortFrame(destination: byte, pgn: nat, reason: byte): Outgoing
    requires pgn <= 0x3ffff
  {
    Outgoing(TRANSPORT_CONTROL_PGN, destination, Control(ABORT, reason, 0xff, 0xff, 0xff, pgn))
  }

  // A reception that may be granted its next window.
  ghost predicate ValidNext(r: Reception) {
    && 8 < r.size <= MAXIMUM_PAYLOAD && r.packets == Packets(r.size) && r.pgn < 0x20000
    && 1 <= r.window < 256 && 1 <= r.next <= r.packets
  }

  ghost predicate ValidSlots(tx: Option<Transmission>, rx: Option<Reception>) {
    && (tx.Some? ==> ValidTransmission(tx.value))
    && (rx.Some? ==> ValidReception(rx.value))
    && (tx.Some? && rx.Some? ==> tx.value.destination != rx.value.source)
  }

  // The two slots, the count of frames sent, and the frames sent in answer.
  datatype Slots = Slots(tx: Option<Transmission>, rx: Option<Reception>, sent: nat, replies: seq<Outgoing>)

  // ---- What a transport frame does to the two slots, slot by slot ----------------------------

  ghost function Granting(tx: Option<Transmission>, r: Reception, sent: nat): Slots
    requires ValidNext(r)
  {
    var u := Granted(r);
    Slots(tx, Some(u.(barrier := sent + 1)), sent + 1,
          [Outgoing(TRANSPORT_CONTROL_PGN, u.source, ClearToSend(u.pgn, GrantCount(u), u.next))])
  }

  ghost function OnDataFrame(tx: Option<Transmission>, rx: Option<Reception>, sent: nat, observed: nat, event: Event): Slots
    requires ValidSlots(tx, rx)
  {
    if rx.None? || rx.value.source != event.source then Slots(tx, rx, sent, [])
    else
      var r := rx.value;
      OnDataKeepsValid(r, event.data, observed);
      match OnData(r, event.data, observed)
      case Refused => Slots(tx, None, sent + 1, [AbortFrame(r.source, r.pgn, 7)])
      case Waiting(u) => Slots(tx, Some(u), sent, [])
      case Grants(u) => Granting(tx, u, sent)
      case Acknowledges => Slots(tx, None, sent + 1, [Outgoing(TRANSPORT_CONTROL_PGN, r.source, Acknowledge(r.pgn, r.size))])
  }

  ghost function OnRequest(tx: Option<Transmission>, rx: Option<Reception>, sent: nat, event: Event, pgn: nat): Slots
    requires ValidSlots(tx, rx) && |event.data| == 8 && ControlPGN(event.data) == Ok(pgn)
  {
    if rx.Some? || (tx.Some? && tx.value.destination == event.source) then
      Slots(tx, if rx.Some? && rx.value.source == event.source then None else rx, sent + 1, [AbortFrame(event.source, pgn, 1)])
    else if Opened(event).None? then Slots(tx, rx, sent + 1, [AbortFrame(event.source, pgn, 2)])
    else
      OpenedIsValid(event);
      Granting(tx, Opened(event).value, sent)
  }

  /** The reception and a control frame. */
  ghost function OnReceiving(tx: Option<Transmission>, rx: Option<Reception>, sent: nat, event: Event): Slots
    requires ValidSlots(tx, rx)
  {
    var own := rx.Some? && rx.value.source == event.source;
    if |event.data| == 8 && ControlPGN(event.data).Ok? && event.data[0] == RTS then
      OnRequest(tx, rx, sent, event, ControlPGN(event.data).value)
    else if !own then Slots(tx, rx, sent, [])
    else if |event.data| != 8 || event.data[0] == BAM || event.data[0] == RTS then
      Slots(tx, None, sent + 1, [AbortFrame(rx.value.source, rx.value.pgn, 2)])
    else if event.data[0] == ABORT && ControlPGN(event.data) == Ok(rx.value.pgn) then Slots(tx, None, sent, [])
    else Slots(tx, rx, sent, [])
  }

  /** The transmission and a control frame; `finished` is what the sender is told. */
  ghost function OnSending(tx: Option<Transmission>, rx: Option<Reception>, sent: nat, observed: nat, event: Event)
    : (Slots, Option<bool>)
    requires tx.Some? ==> ValidTransmission(tx.value)
  {
    if tx.None? then (Slots(tx, rx, sent, []), None)
    else
      var t := tx.value;
      match OnControl(t, event, observed)
      case Ignored => (Slots(tx, rx, sent, []), None)
      case Continues(u) => (Slots(Some(u), rx, sent, []), None)
      case Fails(reason) => (Slots(None, rx, sent + 1, [AbortFrame(t.destination, t.pgn, reason)]), Some(false))
      case PeerAborted => (Slots(None, rx, sent, []), Some(false))
      case Completes => (Slots(None, rx, sent, []), Some(true))
  }

  /** A control frame reaches one slot at most, so the order of the two does not matter. */
  ghost function OnTransport(tx: Option<Transmission>, rx: Option<Reception>, sent: nat, observed: nat, event: Event)
    : (Slots, Option<bool>)
    requires ValidSlots(tx, rx)
  {
    if event.pgn == TRANSPORT_DATA_PGN then (OnDataFrame(tx, rx, sent, observed, event), None)
    else if event.pgn != TRANSPORT_CONTROL_PGN then (Slots(tx, rx, sent, []), None)
    else
      var received := OnReceiving(tx, rx, sent, event);
      var (after, finished) := OnSending(tx, received.rx, received.sent, observed, event);
      (after.(replies := received.replies + after.replies), finished)
  }

  lemma OnlyReceiving(tx: Option<Transmission>, rx: Option<Reception>, sent: nat, observed: nat, event: Event)
    requires ValidSlots(tx, rx) && event.pgn == TRANSPORT_CONTROL_PGN
    requires tx.None? || (rx.Some? && rx.value.source == event.source) || (|event.data| == 8 && event.data[0] == RTS)
    ensures OnTransport(tx, rx, sent, observed, event) == (OnReceiving(tx, rx, sent, event), None)
  {
    var received := OnReceiving(tx, rx, sent, event);
    assert received.replies + [] == received.replies && received.tx == tx;
    assert OnSending(tx, received.rx, received.sent, observed, event) == (Slots(tx, received.rx, received.sent, []), None);
  }

  lemma OnlySending(tx: Option<Transmission>, rx: Option<Reception>, sent: nat, observed: nat, event: Event)
    requires ValidSlots(tx, rx) && event.pgn == TRANSPORT_CONTROL_PGN
    requires !(rx.Some? && rx.value.source == event.source) && !(|event.data| == 8 && event.data[0] == RTS)
    ensures OnTransport(tx, rx, sent, observed, event) == OnSending(tx, rx, sent, observed, event)
    ensures OnReceiving(tx, rx, sent, event) == Slots(tx, rx, sent, [])
  {
    var after := OnSending(tx, rx, sent, observed, event).0;
    assert [] + after.replies == after.replies;
  }

  /** Frames of controllers that neither slot deals with change nothing but, with an RTS, a free reception slot. */
  lemma StrangersChangeNothing(
      tx: Option<Transmission>, rx: Option<Reception>, sent: nat, observed: nat, event: Event)
    requires ValidSlots(tx, rx)
    requires tx.Some? ==> tx.value.destination != event.source
    requires rx.Some? ==> rx.value.source != event.source
    ensures var (after, finished) := OnTransport(tx, rx, sent, observed, event);
      && after.tx == tx && finished == None && (rx.Some? ==> after.rx == rx)
      && (after.rx != rx ==> event.pgn == TRANSPORT_CONTROL_PGN && |event.data| == 8 && event.data[0] == RTS)
  {
    hide Opened;
    if event.pgn == TRANSPORT_CONTROL_PGN {
      if |event.data| == 8 && event.data[0] == RTS {
        OnlyReceivingFrom(tx, rx, sent, observed, event);
      } else {
        OnlySending(tx, rx, sent, observed, event);
      }
    }
  }

  // ---- What each frame is taken for ------------------------------------------------------

  // An answer of the peer about the group that is being sent.
  predicate AnswersTo(t: Transmission, event: Event) {
    event.source == t.destination && |event.data| == 8 && ControlPGN(event.data) == Ok(t.pgn)
  }

  /**
   * A grant is taken exactly between two windows, once the frames sent were seen on the bus, if it starts no later than
   * behind the last packet sent and ends inside the payload; a hold leaves the transmission as it is.
   */
  lemma GrantIsTaken(t: Transmission, event: Event, observed: nat)
    requires ValidTransmission(t) && AnswersTo(t, event) && event.data[0] == CTS
    ensures var (h, count, next) := (OnControl(t, event, observed), event.data[1] as nat, event.data[2] as nat);
      && (h.Continues? || h.Fails?)
      && (h.Continues? <==>
            && observed >= t.barrier && t.end == 0
            && (count == 0 || (1 <= next <= t.sent + 1 && 7 * (next + count - 2) < |t.payload|)))
      && (h.Continues? ==> h.t == if count == 0 then t else t.(next := next, end := next + count - 1))
  {
    hide ControlPGN;
    hide ActivePGN;
    var last: int := event.data[2] as int + event.data[1] as int - 1;
    assert last <= Packets(|t.payload|) <==> 7 * (last - 1) < |t.payload|;
  }

  /** An acknowledgement is taken exactly if every packet was sent, was seen on the bus, and the size is right. */
  lemma AcknowledgementIsTaken(t: Transmission, event: Event, observed: nat)
    requires ValidTransmission(t) && AnswersTo(t, event) && event.data[0] == EOMA
    ensures var h := OnControl(t, event, observed);
      && (h == Completes || h.Fails?)
      && (h == Completes <==>
            && observed >= t.barrier && t.end == 0 && 7 * t.sent >= |t.payload|
            && event.data[1] as nat + 256 * event.data[2] as nat == |t.payload|
            && 7 * (event.data[3] as nat - 1) < |t.payload| <= 7 * event.data[3] as nat)
  {
    hide ControlPGN;
    hide ActivePGN;
    var packets := Packets(|t.payload|);
    assert 7 * (packets - 1) < |t.payload| <= 7 * packets;
  }

  /** A data frame is taken exactly if it is the packet awaited, inside the window, behind the grant seen on the bus. */
  lemma PacketIsTaken(r: Reception, data: seq<byte>, observed: nat)
    requires ValidReception(r)
    ensures OnData(r, data, observed) != Refused <==> observed >= r.barrier && |data| == 8 && data[0] as nat == r.next
    ensures match OnData(r, data, observed)
      case Refused => true
      case Waiting(u) => r.next < r.end && u == r.(next := r.next + 1)
      case Grants(u) =>
        && r.next == r.end && 7 * r.next < r.size && u.next == r.next + 1 && u.end == Last(u)
        && u == r.(next := u.next, end := u.end)
      case Acknowledges => 7 * r.next >= r.size > 7 * (r.next - 1)
  {
    assert 7 * (r.packets - 1) < r.size <= 7 * r.packets;
  }

  // The last packet of the window that begins with the next one: as many as the peer allows, up to the end.
  function Last(r: Reception): int {
    if r.next + r.window - 1 < r.packets then r.next + r.window - 1 else r.packets
  }

  /** A request is taken up exactly into a free slot, from a peer nothing is being sent to, if it is well formed. */
  lemma RequestIsTaken(tx: Option<Transmission>, rx: Option<Reception>, sent: nat, event: Event, pgn: nat)
    requires ValidSlots(tx, rx) && |event.data| == 8 && event.data[0] == RTS && ControlPGN(event.data) == Ok(pgn)
    ensures var after := OnRequest(tx, rx, sent, event, pgn); var size := event.data[1] as nat + 256 * event.data[2] as nat;
      if && rx == None && !(tx.Some? && tx.value.destination == event.source)
         && 9 <= size <= 1785 && 7 * (event.data[3] as nat - 1) < size <= 7 * event.data[3] as nat && event.data[4] > 0
         && ActivePGN(pgn) && pgn != ADDRESS_CLAIM_PGN && pgn != REQUEST_PGN then
        && after.tx == tx && after.rx.Some? && after.sent == sent + 1
        && var r := after.rx.value;
        && r == Reception(event.source, pgn, size, event.data[3] as nat, 1, Last(r), event.data[4] as nat, sent + 1)
        && r.end < 256 && after.replies == [Outgoing(TRANSPORT_CONTROL_PGN, event.source, ClearToSend(pgn, r.end, 1))]
      else
        && after.tx == tx && after.sent == sent + 1 && |after.replies| == 1
        && after.replies[0].destination == event.source && after.replies[0].data[0] == ABORT
        && after.rx == (if rx.Some? && rx.value.source == event.source then None else rx)
  {
    hide ControlPGN;
    hide ActivePGN;
    var size := Size(event.data);
    assert event.data[3] as nat == Packets(size) <==> 7 * (event.data[3] as nat - 1) < size <= 7 * event.data[3] as nat;
  }

  // An abort to the peer is among the frames sent.
  ghost predicate Aborts(replies: seq<Outgoing>, peer: byte, pgn: nat) {
    pgn <= 0x3ffff && exists reason: byte :: AbortFrame(peer, pgn, reason) in replies
  }

  /** No transmission ends in silence: the sender is told, and the peer too unless it ended the transfer itself. */
  lemma SenderIsTold(tx: Option<Transmission>, rx: Option<Reception>, sent: nat, observed: nat, event: Event)
    requires ValidSlots(tx, rx)
    ensures var (after, finished) := OnTransport(tx, rx, sent, observed, event);
      && (finished.Some? <==> tx.Some? && after.tx == None)
      && (tx == None ==> after.tx == None)
      && (finished == Some(false) ==>
            || Aborts(after.replies, tx.value.destination, tx.value.pgn)
            || (AnswersTo(tx.value, event) && event.data[0] == ABORT))
      && (finished == Some(true) ==> AnswersTo(tx.value, event) && event.data[0] == EOMA && 7 * tx.value.sent >= |tx.value.payload|)
  {
    hide ControlPGN;
    hide ActivePGN;
    hide Opened;
    if tx.Some? && event.pgn == TRANSPORT_CONTROL_PGN {
      if (rx.Some? && rx.value.source == event.source) || (|event.data| == 8 && event.data[0] == RTS) {
        OnlyReceiving(tx, rx, sent, observed, event);
      } else {
        OnlySending(tx, rx, sent, observed, event);
        FailureAborts(tx.value, rx, sent, observed, event);
      }
    }
  }

  lemma FailureAborts(t: Transmission, rx: Option<Reception>, sent: nat, observed: nat, event: Event)
    requires ValidTransmission(t)
    ensures var (after, finished) := OnSending(Some(t), rx, sent, observed, event);
      finished == Some(false) ==> Aborts(after.replies, t.destination, t.pgn) || (AnswersTo(t, event) && event.data[0] == ABORT)
  {
    hide ControlPGN;
    match OnControl(t, event, observed)
    case Fails(reason) =>
      assert AbortFrame(t.destination, t.pgn, reason) in OnSending(Some(t), rx, sent, observed, event).0.replies;
    case _ =>
  }

  lemma OnlyReceivingFrom(tx: Option<Transmission>, rx: Option<Reception>, sent: nat, observed: nat, event: Event)
    requires ValidSlots(tx, rx) && event.pgn == TRANSPORT_CONTROL_PGN && |event.data| == 8 && event.data[0] == RTS
    ensures OnTransport(tx, rx, sent, observed, event) == (OnReceiving(tx, rx, sent, event), None)
    ensures OnReceiving(tx, rx, sent, event).tx == tx
  {
    OnlyReceiving(tx, rx, sent, observed, event);
  }

  /**
   * What keeps a payload from being sent now: a broadcast transfer, and for one that needs a transfer any transfer of
   * this client or one from its destination.
   */
  predicate Occupied(tx: Option<Transmission>, rx: Option<Reception>, destination: byte, length: nat) {
    || (tx.Some? && tx.value.destination == 0xff)
    || (length > 8 && (tx.Some? || (rx.Some? && rx.value.source == destination)))
  }

  datatype SendResult = Started | AddressLost | Busy | SingleFrame

  class TransportClient {
    var claimed: bool
    var tx: Option<Transmission>
    var rx: Option<Reception>
    var sent: nat
    var observed: nat

    constructor ()
      ensures Valid() && tx == None && rx == None && !claimed && sent == 0 == observed
    {
      claimed, tx, rx, sent, observed := false, None, None, 0, 0;
    }

    ghost predicate Valid()
      reads this
    {
      ValidSlots(tx, rx)
    }

    /** startSend, up to the announcement, which the bus accepts. */
    method StartSend(priority: byte, pgn: nat, destination: byte, payload: seq<byte>) returns (result: SendResult, frame: Option<Outgoing>)
      requires Valid() && ActivePGN(pgn) && |payload| <= MAXIMUM_PAYLOAD
      modifies this`tx, this`sent
      ensures Valid()
      ensures result == AddressLost <==> !claimed
      ensures result == Busy <==> claimed && Occupied(old(tx), rx, destination, |payload|)
      ensures result == SingleFrame <==> claimed && |payload| <= 8 && !Occupied(old(tx), rx, destination, |payload|)
      ensures result == AddressLost || result == Busy ==> tx == old(tx) && sent == old(sent) && frame == None
      ensures result == SingleFrame ==> tx == old(tx) && sent == old(sent) + 1 && frame == Some(Outgoing(pgn, destination, payload))
      ensures result == Started ==>
        && tx == Some(NewTransmission(priority, pgn, destination, payload).(barrier := sent)) && sent == old(sent) + 1
        && frame == Some(Outgoing(TRANSPORT_CONTROL_PGN, destination, Announce(pgn, |payload|, destination == GLOBAL_ADDRESS)))
    {
      frame := None;
      if !claimed {
        return AddressLost, frame;
      }
      if tx.Some? && tx.value.destination == GLOBAL_ADDRESS {
        return Busy, frame;
      }
      if |payload| <= 8 {
        frame := Some(Outgoing(pgn, destination, payload));
        sent := sent + 1;
        return SingleFrame, frame;
      }
      if tx.Some? || (rx.Some? && rx.value.source == destination) {
        return Busy, frame;
      }
      tx := Some(NewTransmission(priority, pgn, destination, payload));
      frame := Some(Outgoing(TRANSPORT_CONTROL_PGN, destination, Announce(pgn, |payload|, destination == GLOBAL_ADDRESS)));
      sent := sent + 1;
      tx := Some(tx.value.(barrier := sent));
      result := Started;
    }

    /** poll: the capture shows a frame that this client sent. */
    method Observe()
      modifies this`observed
      ensures observed == old(observed) + 1
    {
      observed := observed + 1;
    }

    /** tickTransport with a window open: the next data frame; a full transmit queue leaves everything as it is. */
    method Tick(accepted: bool) returns (frame: Outgoing)
      requires Valid() && tx.Some? && Sending(tx.value)
      modifies this`tx, this`sent
      ensures Valid() && 1 <= old(tx).value.next <= Packets(|old(tx).value.payload|)
      ensures var t := old(tx).value;
        && frame == Outgoing(TRANSPORT_DATA_PGN, t.destination, DataBytes(t.payload, t.next))
        && if accepted then sent == old(sent) + 1 && tx == AfterData(t, sent) else sent == old(sent) && tx == old(tx)
      // a broadcast ends with its last packet; anything else waits behind the frame just sent, for a grant where a window ends
      ensures accepted ==> (tx == None <==> old(tx).value.destination == 0xff && 7 * old(tx).value.next >= |old(tx).value.payload|)
      ensures accepted && tx.Some? ==> var (t, u) := (old(tx).value, tx.value);
        && u == t.(next := t.next + 1, sent := u.sent, barrier := sent, end := u.end)
        && u.sent >= t.sent && u.sent >= t.next && (u.sent == t.sent || u.sent == t.next)
        && (t.destination != 0xff ==> u.end == if t.next == t.end then 0 else t.end)
    {
      var t := tx.value;
      DataKeepsValid(t, sent + 1);
      frame := Outgoing(TRANSPORT_DATA_PGN, t.destination, DataBytes(t.payload, t.next));
      if !accepted {
        return;
      }
      sent := sent + 1;
      var u := t.(barrier := sent, sent := if t.sent > t.next then t.sent else t.next, next := t.next + 1);
      if t.destination == GLOBAL_ADDRESS {
        tx := if u.next > Packets(|t.payload|) then None else Some(u);
      } else if u.next > u.end {
        tx := Some(u.(end := 0));
      } else {
        tx := Some(u);
      }
    }

    /** failReceive */
    method FailReceive(reason: byte) returns (replies: seq<Outgoing>)
      requires rx.Some? && rx.value.pgn < 0x20000
      modifies this`rx, this`sent
      ensures rx == None && sent == old(sent) + 1
      ensures replies == [AbortFrame(old(rx).value.source, old(rx).value.pgn, reason)]
    {
      replies := [AbortFrame(rx.value.source, rx.value.pgn, reason)];
      rx := None;
      sent := sent + 1;
    }

    /** failSend, for a transfer to one peer. */
    method FailSend(reason: byte) returns (replies: seq<Outgoing>, finished: Option<bool>)
      requires tx.Some? && tx.value.pgn < 0x20000
      modifies this`tx, this`sent
      ensures tx == None && sent == old(sent) + 1 && finished == Some(false)
      ensures replies == [AbortFrame(old(tx).value.destination, old(tx).value.pgn, reason)]
    {
      replies := [AbortFrame(tx.value.destination, tx.value.pgn, reason)];
      sent := sent + 1;
      finished := Some(false);
      tx := None;
    }

    /** grant */
    method Grant() returns (replies: seq<Outgoing>)
      requires rx.Some? && ValidNext(rx.value)
      modifies this`rx, this`sent
      ensures var r := Granted(old(rx).value);
        && sent == old(sent) + 1 && rx == Some(r.(barrier := sent)) && GrantCount(r) < 256
        && replies == [Outgoing(TRANSPORT_CONTROL_PGN, r.source, ClearToSend(r.pgn, GrantCount(r), r.next))]
    {
      var r := rx.value;
      var count := if r.window < r.packets - r.next + 1 then r.window else r.packets - r.next + 1;
      replies := [Outgoing(TRANSPORT_CONTROL_PGN, r.source, ClearToSend(r.pgn, count, r.next))];
      sent := sent + 1;
      rx := Some(r.(end := r.next + count - 1, barrier := sent));
    }

    /** A data frame, for the open reception if it comes from its peer. */
    method HandleData(event: Event) returns (replies: seq<Outgoing>)
      requires Valid()
      modifies this`rx, this`sent
      ensures Valid()
      ensures Slots(tx, rx, sent, replies) == OnDataFrame(old(tx), old(rx), old(sent), observed, event)
    {
      if rx.None? || rx.value.source != event.source {
        return [];
      }
      var r := rx.value;
      OnDataKeepsValid(r, event.data, observed);
      if observed < r.barrier || |event.data| != 8 || event.data[0] as nat != r.next || r.next > r.end {
        replies := FailReceive(7);
        return;
      }
      rx := Some(r.(next := r.next + 1));
      if r.next + 1 > r.packets {
        rx := None;
        replies := [Outgoing(TRANSPORT_CONTROL_PGN, r.source, Acknowledge(r.pgn, r.size))];
        sent := sent + 1;
        return;
      }
      if r.next + 1 > r.end {
        replies := Grant();
        return;
      }
      return [];
    }

    /** An RTS: a transfer is taken up only into free slots. */
    method HandleRequest(event: Event, pgn: nat) returns (replies: seq<Outgoing>)
      requires Valid() && |event.data| == 8 && ControlPGN(event.data) == Ok(pgn)
      modifies this`rx, this`sent
      ensures Valid()
      ensures Slots(tx, rx, sent, replies) == OnRequest(old(tx), old(rx), old(sent), event, pgn)
    {
      OpenedIsValid(event);
      if rx.Some? && rx.value.source == event.source {
        rx := None;
        sent := sent + 1;
        return [AbortFrame(event.source, pgn, 1)];
      }
      if rx.Some? || (tx.Some? && tx.value.destination == event.source) {
        sent := sent + 1;
        return [AbortFrame(event.source, pgn, 1)];
      }
      var size := TransportSize(event.data);
      if size.Err? || event.data[4] == 0 || !ActivePGN(pgn) || pgn == ADDRESS_CLAIM_PGN || pgn == REQUEST_PGN {
        sent := sent + 1;
        return [AbortFrame(event.source, pgn, 2)];
      }
      rx := Some(Reception(event.source, pgn, size.value.0, size.value.1, 1, 0, event.data[4], 0));
      replies := Grant();
    }

    /** A CTS or EOMA for the open transmission. */
    method HandleReply(event: Event, pgn: nat) returns (replies: seq<Outgoing>, finished: Option<bool>)
      requires Valid() && event.source < NULL_ADDRESS
      requires |event.data| == 8 && ControlPGN(event.data) == Ok(pgn) && event.data[0] in {CTS, EOMA}
      modifies this`tx, this`sent
      ensures Valid()
      ensures (Slots(tx, rx, sent, replies), finished) == OnSending(old(tx), rx, old(sent), observed, event)
    {
      replies, finished := [], None;
      if tx.None? || tx.value.destination != event.source || tx.value.pgn != pgn {
        return;
      }
      var t := tx.value;
      ControlKeepsValid(t, event, observed);
      if observed < t.barrier {
        replies, finished := FailSend(4);
        return;
      }
      var packets := (|t.payload| + 6) / 7;
      if event.data[0] == EOMA {
        if t.sent != packets || t.end != 0 || Size(event.data) != |t.payload| || event.data[3] as nat != packets {
          replies, finished := FailSend(2);
          return;
        }
        tx, finished := None, Some(true);
        return;
      }
      var count: nat := event.data[1];
      var next: nat := event.data[2];
      if t.end != 0 {
        replies, finished := FailSend(4);
        return;
      }
      if count > packets || (count != 0 && (next < 1 || next > t.sent + 1 || next + count - 1 > packets)) {
        replies, finished := FailSend(2);
        return;
      }
      if count == 0 {
        return;
      }
      tx := Some(t.(next := next, end := next + count - 1));
    }

    /** An abort from the peer of either slot. */
    method HandleAbort(event: Event, pgn: nat) returns (finished: Option<bool>)
      requires Valid() && event.source < NULL_ADDRESS
      requires |event.data| == 8 && ControlPGN(event.data) == Ok(pgn) && event.data[0] == ABORT
      modifies this`tx, this`rx
      ensures Valid()
      ensures rx == OnReceiving(old(tx), old(rx), sent, event).rx
      ensures (Slots(tx, rx, sent, []), finished) == OnSending(old(tx), rx, sent, observed, event)
    {
      finished := None;
      if rx.Some? && rx.value.source == event.source && rx.value.pgn == pgn {
        rx := None;
      }
      if tx.Some? && tx.value.destination == event.source && tx.value.pgn == pgn {
        tx, finished := None, Some(false);
      }
    }

    /** handleTransport: a transport frame that another controller sent to this one. */
    method HandleTransport(event: Event) returns (replies: seq<Outgoing>, finished: Option<bool>)
      requires Valid() && event.source < NULL_ADDRESS
      modifies this`tx, this`rx, this`sent
      ensures Valid()
      ensures (Slots(tx, rx, sent, replies), finished) == OnTransport(old(tx), old(rx), old(sent), observed, event)
    {
      replies, finished := [], None;
      if event.pgn == TRANSPORT_DATA_PGN {
        replies := HandleData(event);
        return;
      }
      if event.pgn != TRANSPORT_CONTROL_PGN {
        return;
      }
      replies, finished := HandleControl(event);
    }

    method HandleControl(event: Event) returns (replies: seq<Outgoing>, finished: Option<bool>)
      requires Valid() && event.source < NULL_ADDRESS && event.pgn == TRANSPORT_CONTROL_PGN
      modifies this`tx, this`rx, this`sent
      ensures Valid()
      ensures (Slots(tx, rx, sent, replies), finished) == OnTransport(old(tx), old(rx), old(sent), observed, event)
    {
      hide OnTransport;
      hide OnRequest;
      replies, finished := [], None;
      var data := event.data;
      var own := rx.Some? && rx.value.source == event.source;
      if own || (|data| == 8 && data[0] == RTS) || tx.None? {
        OnlyReceiving(tx, rx, sent, observed, event);
      } else {
        OnlySending(tx, rx, sent, observed, event);
      }
      if |data| > 0 && data[0] == BAM && own {
        replies := FailReceive(2);
        return;
      }
      if |data| != 8 {
        if own {
          replies := FailReceive(2);
        } else if tx.Some? && tx.value.destination == event.source {
          replies, finished := FailSend(2);
        }
        return;
      }
      var pgn := ControlPGN(data);
      if pgn.Err? {
        if own && data[0] == RTS {
          replies := FailReceive(2);
        }
        return;
      }
      if data[0] == RTS {
        replies := HandleRequest(event, pgn.value);
      } else if data[0] == ABORT {
        finished := HandleAbort(event, pgn.value);
      } else if data[0] == CTS || data[0] == EOMA {
        replies, finished := HandleReply(event, pgn.value);
      }
    }
  }
}
