/**
 * The in-process CAN network as interleaved steps (drivers/virtual/virtual.go). Every bus has its own
 * goroutine. Each channel operation, each section under a bus's state lock and each capture record is one
 * step; a broadcast holds the network for reading while it visits one destination after the other, so buses
 * neither join nor leave during it, but everything else may happen between any two of its steps.
 */
module VirtualNetwork {
  import opened Wrappers
  import opened Frames

  const RECEIVE_QUEUE_CAPACITY: nat := 1024

  // The number-th frame accepted by a bus.
  datatype Packet = Packet(source: nat, number: nat, frame: Frame)

  /**
   * Admitted: the request has passed the state check. Recorded: the transmission is in the capture, the
   * broadcast has not started. `refused` is the destination whose full queue has just refused the packet,
   * and which is still to be failed.
   */
  datatype Sending =
    | Idle
    | Admitted(frame: Frame)
    | Recorded(packet: Packet)
    | Broadcasting(packet: Packet, remaining: set<nat>, refused: Option<nat>)

  // `held` is the packet the goroutine has taken from its queue and not yet recorded; `recorded` lists what
  // the bus put into the capture, `broadcasts` what it sent, and `since` how much each source had sent when
  // it opened.
  datatype Bus = Bus(
    ownMessages: bool, open: bool, running: bool, closing: bool, terminal: bool, sending: Sending,
    queue: seq<Packet>, held: Option<Packet>,
    recorded: seq<Packet>, broadcasts: seq<Packet>, since: map<nat, nat>)

  datatype Record = Transmitted(packet: Packet) | Received(destination: nat, packet: Packet)

  // Buses by the order they were opened in, and the capture they share.
  datatype Network = Network(buses: seq<Bus>, log: seq<Record>)

  predicate Broadcasts(n: Network, i: nat) {
    i < |n.buses| && n.buses[i].sending.Broadcasting?
  }

  predicate Stopped(b: Bus) {
    b.terminal || b.closing
  }

  // The goroutine waits in its select.
  predicate Waiting(b: Bus) {
    b.running && b.sending.Idle? && b.held.None?
  }

  function With(n: Network, i: nat, b: Bus): Network
    requires i < |n.buses|
  {
    n.(buses := n.buses[i := b])
  }

  // ---- Steps of a sender -----------------------------------------------------------------

  ghost predicate Quiet(n: Network) {
    forall i :: 0 <= i < |n.buses| ==> !n.buses[i].sending.Broadcasting?
  }

  /** Open joins the network, under its write lock. */
  ghost predicate Opens(n: Network, m: Network, own: bool) {
    && Quiet(n)
    && m == n.(buses := n.buses + [Bus(own, true, true, false, false, Idle, [], None, [], [], SentSoFar(n.buses))])
  }

  function SentSoFar(buses: seq<Bus>): (since: map<nat, nat>)
    ensures forall i: nat :: i in since <==> i < |buses|
    ensures forall i: nat :: i < |buses| ==> since[i] == |buses[i].broadcasts|
  {
    map i: nat | i < |buses| :: |buses[i].broadcasts|
  }

  /** A send request passes the state check. */
  ghost predicate Admits(n: Network, m: Network, i: nat, frame: Frame) {
    && i < |n.buses| && Waiting(n.buses[i]) && !Stopped(n.buses[i])
    && m == With(n, i, n.buses[i].(sending := Admitted(frame)))
  }

  /** Its transmission is recorded before anything is delivered. */
  ghost predicate Transmits(n: Network, m: Network, i: nat) {
    && i < |n.buses| && n.buses[i].sending.Admitted?
    && var packet := Packet(i, |n.buses[i].broadcasts|, n.buses[i].sending.frame);
    m == With(n, i, n.buses[i].(sending := Recorded(packet))).(log := n.log + [Transmitted(packet)])
  }

  ghost predicate Target(n: Network, i: nat, d: nat) {
    i < |n.buses| && d < |n.buses| && n.buses[d].open && (d != i || n.buses[i].ownMessages)
  }

  /** broadcast takes the read lock: its destinations are the buses open now. */
  ghost predicate StartsBroadcast(n: Network, m: Network, i: nat, targets: set<nat>) {
    && i < |n.buses| && n.buses[i].sending.Recorded?
    && (forall d: nat :: d in targets <==> Target(n, i, d))
    && var packet := n.buses[i].sending.packet;
    m == With(n, i, n.buses[i].(sending := Broadcasting(packet, targets, None), broadcasts := n.buses[i].broadcasts + [packet]))
  }

  // A broadcast about to visit destination d.
  ghost predicate Visits(n: Network, i: nat, d: nat) {
    && Broadcasts(n, i) && n.buses[i].sending.refused.None?
    && d < |n.buses| && d in n.buses[i].sending.remaining
  }

  function Visited(b: Bus, d: nat, refused: Option<nat>): Bus
    requires b.sending.Broadcasting?
  {
    b.(sending := Broadcasting(b.sending.packet, b.sending.remaining - {d}, refused))
  }

  /** The destination's queue has room. */
  ghost predicate Queues(n: Network, m: Network, i: nat, d: nat) {
    && Visits(n, i, d) && |n.buses[d].queue| < RECEIVE_QUEUE_CAPACITY
    && var visited := With(n, i, Visited(n.buses[i], d, None));
    var b := visited.buses[d];
    m == With(visited, d, b.(queue := b.queue + [n.buses[i].sending.packet]))
  }

  /** The destination's queue is full; failing the destination is a step of its own. */
  ghost predicate Refuses(n: Network, m: Network, i: nat, d: nat) {
    && Visits(n, i, d) && |n.buses[d].queue| >= RECEIVE_QUEUE_CAPACITY
    && m == With(n, i, Visited(n.buses[i], d, Some(d)))
  }

  /** fail, under the destination's state lock: the first failure stays, and none is set on a closing bus. */
  ghost predicate Fails(n: Network, m: Network, i: nat) {
    && Broadcasts(n, i) && n.buses[i].sending.refused.Some? && n.buses[i].sending.refused.value < |n.buses|
    && var d := n.buses[i].sending.refused.value;
    var settled := With(n, i, n.buses[i].(sending := n.buses[i].sending.(refused := None)));
    var b := settled.buses[d];
    m == With(settled, d, b.(terminal := b.terminal || !b.closing))
  }

  ghost predicate EndsBroadcast(n: Network, m: Network, i: nat) {
    && Broadcasts(n, i) && n.buses[i].sending.remaining == {} && n.buses[i].sending.refused.None?
    && m == With(n, i, n.buses[i].(sending := Idle))
  }

  // ---- Steps of a receiver ---------------------------------------------------------------

  /** The goroutine takes the oldest incoming packet. */
  ghost predicate Takes(n: Network, m: Network, d: nat) {
    && d < |n.buses| && Waiting(n.buses[d]) && n.buses[d].queue != []
    && m == With(n, d, n.buses[d].(queue := n.buses[d].queue[1..], held := Some(n.buses[d].queue[0])))
  }

  /** Later, under the state lock, the packet is recorded. */
  ghost predicate Records(n: Network, m: Network, d: nat) {
    && d < |n.buses| && n.buses[d].held.Some? && !Stopped(n.buses[d])
    && var b := n.buses[d];
    m == With(n, d, b.(held := None, recorded := b.recorded + [b.held.value])).(log := n.log + [Received(d, b.held.value)])
  }

  /** A bus that has failed or is closing drops it. */
  ghost predicate Drops(n: Network, m: Network, d: nat) {
    && d < |n.buses| && n.buses[d].held.Some? && Stopped(n.buses[d])
    && m == With(n, d, n.buses[d].(held := None))
  }

  ghost predicate Closes(n: Network, m: Network, d: nat) {
    d < |n.buses| && m == With(n, d, n.buses[d].(closing := true))
  }

  // The goroutine returns after a failure or Close.
  ghost predicate Finishes(n: Network, m: Network, d: nat) {
    && d < |n.buses| && Waiting(n.buses[d]) && Stopped(n.buses[d])
    && m == With(n, d, n.buses[d].(running := false))
  }

  /** remove, under the write lock. */
  ghost predicate Leaves(n: Network, m: Network, d: nat) {
    && d < |n.buses| && !n.buses[d].running && Quiet(n)
    && m == With(n, d, n.buses[d].(open := false))
  }

  ghost predicate SendStep(n: Network, m: Network, i: nat) {
    || (exists frame :: Admits(n, m, i, frame))
    || Transmits(n, m, i)
    || (exists targets :: StartsBroadcast(n, m, i, targets))
    || (exists d :: Queues(n, m, i, d))
    || (exists d :: Refuses(n, m, i, d))
    || Fails(n, m, i)
    || EndsBroadcast(n, m, i)
  }

  ghost predicate BusStep(n: Network, m: Network, d: nat) {
    || Takes(n, m, d) || Records(n, m, d) || Drops(n, m, d)
    || Closes(n, m, d) || Finishes(n, m, d) || Leaves(n, m, d)
  }

  ghost predicate Step(n: Network, m: Network) {
    || (exists own :: Opens(n, m, own))
    || (exists i :: SendStep(n, m, i))
    || (exists d :: BusStep(n, m, d))
  }

  // ---- Packets of one source -------------------------------------------------------------

  function From(packets: seq<Packet>, source: nat): seq<Packet> {
    if packets == [] then []
    else (if packets[0].source == source then [packets[0]] else []) + From(packets[1..], source)
  }

  lemma {:induction false} FromConcat(left: seq<Packet>, right: seq<Packet>, source: nat)
    ensures From(left + right, source) == From(left, source) + From(right, source)
  {
    if left == [] {
      assert left + right == right;
    } else {
      var first := if left[0].source == source then [left[0]] else [];
      assert (left + right)[1..] == left[1..] + right;
      FromConcat(left[1..], right, source);
      assert (first + From(left[1..], source)) + From(right, source) == first + (From(left[1..], source) + From(right, source));
    }
  }

  lemma {:induction false} FromOne(packet: Packet, source: nat)
    ensures From([packet], source) == if packet.source == source then [packet] else []
  {
    assert [packet][1..] == [];
  }

  lemma {:induction false} FromMore(packets: seq<Packet>, packet: Packet, source: nat)
    ensures From(packets + [packet], source) == From(packets, source) + if packet.source == source then [packet] else []
  {
    FromConcat(packets, [packet], source);
    FromOne(packet, source);
  }

  lemma {:induction false} FromNobody(packets: seq<Packet>, source: nat)
    requires SourcesKnown(packets, source)
    ensures From(packets, source) == []
  {
    if packets != [] {
      assert packets[0].source < source;
      FromNobody(packets[1..], source);
    }
  }

  ghost predicate SourcesKnown(packets: seq<Packet>, count: nat) {
    forall k :: 0 <= k < |packets| ==> packets[k].source < count
  }

  // ---- Invariant -------------------------------------------------------------------------

  function Since(b: Bus, source: nat): nat {
    if source in b.since then b.since[source] else 0
  }

  function HeldPackets(b: Bus): seq<Packet> {
    if b.held.Some? then [b.held.value] else []
  }

  /** What a destination has of a source: recorded, then held, then queued. */
  function Kept(b: Bus, source: nat): seq<Packet> {
    From(b.recorded, source) + (From(HeldPackets(b), source) + From(b.queue, source))
  }

  /** The packet a source is broadcasting, as long as destination d has neither been offered it nor been failed for it. */
  function Pending(b: Bus, d: nat): seq<Packet> {
    if b.sending.Broadcasting? && (d in b.sending.remaining || b.sending.refused == Some(d)) then [b.sending.packet] else []
  }

  /**
   * While the destination has not stopped, what it keeps of the source and what is pending make up all that the
   * source broadcast; afterwards, what it recorded is a prefix of that.
   */
  ghost predicate Flows(source: Bus, i: nat, b: Bus, d: nat) {
    && Since(b, i) <= |source.broadcasts|
    && (d == i && !source.ownMessages ==> Kept(b, i) == [])
    && (d != i || source.ownMessages ==>
          if Stopped(b) then From(b.recorded, i) <= source.broadcasts[Since(b, i)..]
          else Kept(b, i) + Pending(source, d) == source.broadcasts[Since(b, i)..])
  }

  ghost predicate FlowsInOrder(n: Network, i: nat, d: nat)
    requires i < |n.buses| && d < |n.buses|
  {
    Flows(n.buses[i], i, n.buses[d], d)
  }

  ghost predicate Known(n: Network, packets: seq<Packet>) {
    forall k :: 0 <= k < |packets| ==> Transmitted(packets[k]) in n.log
  }

  ghost predicate Reaches(n: Network, d: nat, t: nat)
    requires d < |n.buses|
  {
    t < |n.buses| && n.buses[t].open && (t != d || n.buses[d].ownMessages)
  }

  ghost predicate ValidSending(n: Network, d: nat)
    requires d < |n.buses|
  {
    match n.buses[d].sending
    case Idle => true
    case Admitted(_) => true
    case Recorded(packet) => packet.source == d && Transmitted(packet) in n.log
    case Broadcasting(packet, remaining, refused) =>
      && packet.source == d && Transmitted(packet) in n.log
      && (forall t :: t in remaining ==> Reaches(n, d, t))
      && (refused.Some? ==> Reaches(n, d, refused.value) && refused.value !in remaining)
  }

  ghost predicate ValidBus(n: Network, d: nat)
    requires d < |n.buses|
  {
    ValidKeeping(n, d) && ValidSending(n, d)
  }

  ghost predicate ValidKeeping(n: Network, d: nat)
    requires d < |n.buses|
  {
    var b := n.buses[d];
    && (!b.running ==> Stopped(b) && b.held.None?) && (!b.open ==> !b.running)
    && Known(n, b.queue) && Known(n, HeldPackets(b))
    && (forall source :: source in b.since ==> source < |n.buses|)
    && SourcesKnown(b.recorded, |n.buses|) && SourcesKnown(HeldPackets(b), |n.buses|) && SourcesKnown(b.queue, |n.buses|)
  }

  // Every receive record stands behind the transmit record of its packet.
  ghost predicate LogInOrder(log: seq<Record>) {
    forall k :: 0 <= k < |log| && log[k].Received? ==> Transmitted(log[k].packet) in log[..k]
  }

  ghost predicate Inv(n: Network) {
    && LogInOrder(n.log)
    && (forall d :: 0 <= d < |n.buses| ==> ValidBus(n, d))
    && (forall i, d :: 0 <= i < |n.buses| && 0 <= d < |n.buses| ==> FlowsInOrder(n, i, d))
  }

  // ---- Flows under the steps ---------------------------------------------------------------

  // Nothing between the two changes.
  lemma {:induction false} FlowsStay(source: Bus, later: Bus, i: nat, b: Bus, c: Bus, d: nat)
    requires Flows(source, i, b, d)
    requires later.ownMessages == source.ownMessages && later.broadcasts == source.broadcasts && Pending(later, d) == Pending(source, d)
    requires c.since == b.since && Kept(c, i) == Kept(b, i) && Stopped(c) == Stopped(b)
    requires Stopped(b) ==> From(c.recorded, i) == From(b.recorded, i)
    ensures Flows(later, i, c, d)
  {
    hide From;
    hide Kept;
    hide Pending;
  }

  // Once the destination has stopped, only what it recorded counts.
  lemma StoppedFlows(source: Bus, later: Bus, i: nat, b: Bus, c: Bus, d: nat)
    requires Flows(source, i, b, d) && Stopped(c) && c.recorded == b.recorded && c.since == b.since
    requires later.ownMessages == source.ownMessages && later.broadcasts == source.broadcasts
    requires d == i && !source.ownMessages ==> Kept(c, i) == []
    ensures Flows(later, i, c, d)
  {
    hide From;
    hide Pending;
    if (d != i || source.ownMessages) && !Stopped(b) {
      var all := Kept(b, i) + Pending(source, d);
      assert From(b.recorded, i) <= Kept(b, i) <= all;
    }
  }

  lemma SameKept(b: Bus, c: Bus, source: nat)
    requires c.recorded == b.recorded && c.held == b.held && c.queue == b.queue
    ensures Kept(c, source) == Kept(b, source)
  {
    hide From;
  }

  // ---- Every step keeps it ---------------------------------------------------------------

  // Steps of one bus that leave its packets and its pending broadcast alone.
  ghost predicate SameTraffic(b: Bus, c: Bus) {
    && c.ownMessages == b.ownMessages && c.broadcasts == b.broadcasts && c.since == b.since
    && c.recorded == b.recorded && c.held == b.held && c.queue == b.queue && Stopped(c) == Stopped(b)
    && (forall d: nat :: Pending(c, d) == Pending(b, d))
  }

  lemma SameTrafficFlows(n: Network, m: Network, d: nat, b: Bus)
    requires Inv(n) && d < |n.buses| && SameTraffic(n.buses[d], b) && m.buses == n.buses[d := b]
    ensures forall i, j :: 0 <= i < |m.buses| && 0 <= j < |m.buses| ==> FlowsInOrder(m, i, j)
  {
    hide ValidBus;
    hide Pending;
    hide Kept;
    hide Flows;
    forall i, j | 0 <= i < |m.buses| && 0 <= j < |m.buses|
      ensures FlowsInOrder(m, i, j)
    {
      assert FlowsInOrder(n, i, j);
      SameKept(n.buses[j], m.buses[j], i);
      FlowsStay(n.buses[i], m.buses[i], i, n.buses[j], m.buses[j], j);
    }
  }

  lemma OthersStayValid(n: Network, m: Network, d: nat)
    requires Inv(n) && |m.buses| == |n.buses| && d < |n.buses| && (forall r :: r in n.log ==> r in m.log)
    requires forall j :: 0 <= j < |n.buses| && j != d ==> m.buses[j] == n.buses[j]
    requires m.buses[d].open == n.buses[d].open
    ensures forall j :: 0 <= j < |m.buses| && j != d ==> ValidBus(m, j)
  {
    forall j | 0 <= j < |m.buses| && j != d
      ensures ValidBus(m, j)
    {
      assert ValidBus(n, j);
    }
  }

  // Nobody joins or leaves, and nothing is taken from the log.
  ghost predicate SameMembers(n: Network, m: Network) {
    && |m.buses| == |n.buses| && (forall r :: r in n.log ==> r in m.log)
    && forall k :: 0 <= k < |n.buses| ==> m.buses[k].open == n.buses[k].open && m.buses[k].ownMessages == n.buses[k].ownMessages
  }

  // The visits still to make become fewer, or one of them turns into a refusal.
  ghost predicate Narrows(sending: Sending, later: Sending) {
    || later == sending
    || (&& sending.Broadcasting? && later.Broadcasting? && later.packet == sending.packet && later.remaining <= sending.remaining
        && (later.refused.Some? ==> later.refused.value in sending.remaining && later.refused.value !in later.remaining))
  }

  lemma SendingStaysValid(n: Network, m: Network, j: nat)
    requires j < |n.buses| && ValidSending(n, j) && SameMembers(n, m) && Narrows(n.buses[j].sending, m.buses[j].sending)
    ensures ValidSending(m, j)
  {
    forall t | Reaches(n, j, t)
      ensures Reaches(m, j, t)
    {
    }
  }

  lemma LogGrows(log: seq<Record>, record: Record)
    requires LogInOrder(log) && (record.Received? ==> Transmitted(record.packet) in log)
    ensures LogInOrder(log + [record])
  {
    var more := log + [record];
    forall k | 0 <= k < |more| && more[k].Received?
      ensures Transmitted(more[k].packet) in more[..k]
    {
      if k < |log| {
        assert more[..k] == log[..k];
      } else {
        assert more[..k] == log;
      }
    }
  }

  lemma AdmitKeeps(n: Network, m: Network, i: nat, frame: Frame)
    requires Inv(n) && Admits(n, m, i, frame)
    ensures Inv(m)
  {
    assert ValidBus(n, i);
    SameTrafficFlows(n, m, i, m.buses[i]);
    OthersStayValid(n, m, i);
    hide FlowsInOrder;
    assert ValidBus(m, i);
  }

  lemma TransmitKeeps(n: Network, m: Network, i: nat)
    requires Inv(n) && Transmits(n, m, i)
    ensures Inv(m)
  {
    assert ValidBus(n, i);
    LogGrows(n.log, m.log[|n.log|]);
    SameTrafficFlows(n, m, i, m.buses[i]);
    OthersStayValid(n, m, i);
    hide FlowsInOrder;
    hide LogInOrder;
    assert Transmitted(m.buses[i].sending.packet) == m.log[|n.log|];
    assert ValidBus(m, i);
  }

  lemma StartKeeps(n: Network, m: Network, i: nat, targets: set<nat>)
    requires Inv(n) && StartsBroadcast(n, m, i, targets)
    ensures Inv(m)
  {
    OthersStayValid(n, m, i);
    BroadcasterIsValid(n, m, i, targets);
    hide ValidBus;
    forall s, d | 0 <= s < |m.buses| && 0 <= d < |m.buses|
      ensures FlowsInOrder(m, s, d)
    {
      StartFlows(n, m, i, targets, s, d);
    }
  }

  lemma StartFlows(n: Network, m: Network, i: nat, targets: set<nat>, s: nat, d: nat)
    requires Inv(n) && StartsBroadcast(n, m, i, targets) && s < |n.buses| && d < |n.buses|
    ensures FlowsInOrder(m, s, d)
  {
    assert FlowsInOrder(n, s, d) && ValidBus(n, d);
    hide ValidSending;
    hide Known;
    hide SourcesKnown;
    SameKept(n.buses[d], m.buses[d], s);
    hide Kept;
    hide From;
    if s == i {
      assert d in targets <==> Target(n, i, d);
      LongerSuffix(n.buses[i].broadcasts, n.buses[i].sending.packet, Since(n.buses[d], i));
    } else {
      FlowsStay(n.buses[s], m.buses[s], s, n.buses[d], m.buses[d], d);
    }
  }

  lemma LongerSuffix(packets: seq<Packet>, packet: Packet, from: nat)
    requires from <= |packets|
    ensures (packets + [packet])[from..] == packets[from..] + [packet]
  {
  }

  lemma BroadcasterIsValid(n: Network, m: Network, i: nat, targets: set<nat>)
    requires Inv(n) && StartsBroadcast(n, m, i, targets)
    ensures ValidBus(m, i)
  {
    hide FlowsInOrder;
    assert ValidBus(n, i);
  }

  // Visiting destination d moves the pending packet into its queue.
  lemma QueueFlows(n: Network, m: Network, i: nat, d: nat, s: nat, t: nat)
    requires Inv(n) && Queues(n, m, i, d) && s < |n.buses| && t < |n.buses|
    ensures FlowsInOrder(m, s, t)
  {
    assert FlowsInOrder(n, s, t) && ValidBus(n, i);
    var packet := n.buses[i].sending.packet;
    assert packet.source == i && Reaches(n, i, d);
    hide ValidBus;
    var (b, c) := (n.buses[t], m.buses[t]);
    if t == d {
      QueuedKept(b, c, packet, s);
    } else {
      SameKept(b, c, s);
    }
    hide Kept;
    hide From;
    hide Flows;
    if s == i && t == d {
      OneMoreFlows(n.buses[s], m.buses[s], s, b, c, t, packet);
    } else {
      assert t == d ==> Kept(b, s) + [] == Kept(b, s);
      FlowsStay(n.buses[s], m.buses[s], s, b, c, t);
    }
  }

  lemma QueuedKept(b: Bus, c: Bus, packet: Packet, source: nat)
    requires c.recorded == b.recorded && c.held == b.held && c.queue == b.queue + [packet]
    ensures Kept(c, source) == Kept(b, source) + if packet.source == source then [packet] else []
  {
    FromMore(b.queue, packet, source);
  }

  lemma OneMoreFlows(source: Bus, later: Bus, i: nat, b: Bus, c: Bus, d: nat, packet: Packet)
    requires Flows(source, i, b, d) && (d != i || source.ownMessages)
    requires later.ownMessages == source.ownMessages && later.broadcasts == source.broadcasts
    requires Pending(source, d) == [packet] && Pending(later, d) == []
    requires c.since == b.since && Stopped(c) == Stopped(b) && c.recorded == b.recorded && Kept(c, i) == Kept(b, i) + [packet]
    ensures Flows(later, i, c, d)
  {
    hide From;
    hide Kept;
    hide Pending;
  }

  lemma QueuersAreValid(n: Network, m: Network, i: nat, d: nat, j: nat)
    requires Inv(n) && Queues(n, m, i, d) && j < |n.buses|
    ensures ValidBus(m, j)
  {
    hide FlowsInOrder;
    assert ValidBus(n, i) && ValidBus(n, d) && ValidBus(n, j);
    assert SameMembers(n, m) && Narrows(n.buses[j].sending, m.buses[j].sending);
    SendingStaysValid(n, m, j);
    var packet := n.buses[i].sending.packet;
    assert packet.source < |n.buses| && Transmitted(packet) in n.log;
    hide ValidSending;
  }

  lemma QueueKeeps(n: Network, m: Network, i: nat, d: nat)
    requires Inv(n) && Queues(n, m, i, d)
    ensures Inv(m)
  {
    assert m.log == n.log && |m.buses| == |n.buses|;
    hide ValidBus;
    hide FlowsInOrder;
    hide Queues;
    forall s, t | 0 <= s < |m.buses| && 0 <= t < |m.buses|
      ensures FlowsInOrder(m, s, t)
    {
      QueueFlows(n, m, i, d, s, t);
    }
    forall j | 0 <= j < |m.buses|
      ensures ValidBus(m, j)
    {
      QueuersAreValid(n, m, i, d, j);
    }
  }

  lemma RefuseKeeps(n: Network, m: Network, i: nat, d: nat)
    requires Inv(n) && Refuses(n, m, i, d)
    ensures Inv(m)
  {
    assert ValidBus(n, i);
    SameTrafficFlows(n, m, i, m.buses[i]);
    OthersStayValid(n, m, i);
    hide FlowsInOrder;
    assert ValidBus(m, i);
  }

  // The destination of a refused packet stops, so the packet is no longer missed.
  lemma FailFlows(n: Network, m: Network, i: nat, s: nat, t: nat)
    requires Inv(n) && Fails(n, m, i) && s < |n.buses| && t < |n.buses|
    ensures FlowsInOrder(m, s, t)
  {
    assert FlowsInOrder(n, s, t);
    hide ValidBus;
    var d := n.buses[i].sending.refused.value;
    var (b, c) := (n.buses[t], m.buses[t]);
    SameKept(b, c, s);
    hide Kept;
    hide From;
    if t == d {
      StoppedFlows(n.buses[s], m.buses[s], s, b, c, t);
    } else {
      FlowsStay(n.buses[s], m.buses[s], s, b, c, t);
    }
  }

  lemma FailersAreValid(n: Network, m: Network, i: nat, j: nat)
    requires Inv(n) && Fails(n, m, i) && j < |n.buses|
    ensures ValidBus(m, j)
  {
    hide FlowsInOrder;
    hide SourcesKnown;
    assert ValidBus(n, i) && ValidBus(n, j);
    assert SameMembers(n, m) && Narrows(n.buses[j].sending, m.buses[j].sending);
    SendingStaysValid(n, m, j);
    hide ValidSending;
  }

  lemma FailKeeps(n: Network, m: Network, i: nat)
    requires Inv(n) && Fails(n, m, i)
    ensures Inv(m)
  {
    assert m.log == n.log && |m.buses| == |n.buses|;
    hide ValidBus;
    hide FlowsInOrder;
    hide Fails;
    forall s, t | 0 <= s < |m.buses| && 0 <= t < |m.buses|
      ensures FlowsInOrder(m, s, t)
    {
      FailFlows(n, m, i, s, t);
    }
    forall j | 0 <= j < |m.buses|
      ensures ValidBus(m, j)
    {
      FailersAreValid(n, m, i, j);
    }
  }

  lemma EndKeeps(n: Network, m: Network, i: nat)
    requires Inv(n) && EndsBroadcast(n, m, i)
    ensures Inv(m)
  {
    assert ValidBus(n, i);
    SameTrafficFlows(n, m, i, m.buses[i]);
    OthersStayValid(n, m, i);
    hide FlowsInOrder;
    assert ValidBus(m, i);
  }

  // Steps of one destination that move packets it keeps, or drop them once it has stopped.
  lemma KeptMovesFlows(n: Network, m: Network, d: nat, b: Bus)
    requires Inv(n) && d < |n.buses| && m.buses == n.buses[d := b]
    requires b.ownMessages == n.buses[d].ownMessages && b.broadcasts == n.buses[d].broadcasts && b.since == n.buses[d].since
    requires b.sending == n.buses[d].sending && Stopped(b) == Stopped(n.buses[d])
    requires forall i :: 0 <= i < |n.buses| ==> Kept(b, i) == Kept(n.buses[d], i)
    requires Stopped(b) ==> b.recorded == n.buses[d].recorded
    ensures forall i, j :: 0 <= i < |m.buses| && 0 <= j < |m.buses| ==> FlowsInOrder(m, i, j)
  {
    hide ValidBus;
    hide Kept;
    hide Flows;
    forall i, j | 0 <= i < |m.buses| && 0 <= j < |m.buses|
      ensures FlowsInOrder(m, i, j)
    {
      assert FlowsInOrder(n, i, j);
      FlowsStay(n.buses[i], m.buses[i], i, n.buses[j], m.buses[j], j);
    }
  }

  lemma TakenKept(b: Bus, c: Bus, source: nat)
    requires b.held.None? && b.queue != [] && c == b.(queue := b.queue[1..], held := Some(b.queue[0]))
    ensures Kept(c, source) == Kept(b, source)
  {
    assert b.queue == [b.queue[0]] + b.queue[1..];
    FromConcat([b.queue[0]], b.queue[1..], source);
  }

  lemma TakeKeeps(n: Network, m: Network, d: nat)
    requires Inv(n) && Takes(n, m, d)
    ensures Inv(m)
  {
    assert ValidBus(n, d);
    forall i | 0 <= i < |n.buses|
      ensures Kept(m.buses[d], i) == Kept(n.buses[d], i)
    {
      TakenKept(n.buses[d], m.buses[d], i);
    }
    KeptMovesFlows(n, m, d, m.buses[d]);
    OthersStayValid(n, m, d);
    hide FlowsInOrder;
    hide Kept;
    assert n.buses[d].queue[0] in n.buses[d].queue;
    assert ValidBus(m, d);
  }

  lemma RecordedKept(b: Bus, c: Bus, source: nat)
    requires b.held.Some? && c == b.(held := None, recorded := b.recorded + [b.held.value])
    ensures Kept(c, source) == Kept(b, source)
  {
    FromConcat(b.recorded, [b.held.value], source);
  }

  lemma RecordKeeps(n: Network, m: Network, d: nat)
    requires Inv(n) && Records(n, m, d)
    ensures Inv(m)
  {
    var packet := n.buses[d].held.value;
    assert ValidBus(n, d);
    forall i | 0 <= i < |n.buses|
      ensures Kept(m.buses[d], i) == Kept(n.buses[d], i)
    {
      RecordedKept(n.buses[d], m.buses[d], i);
    }
    KeptMovesFlows(n, m, d, m.buses[d]);
    OthersStayValid(n, m, d);
    hide FlowsInOrder;
    hide Kept;
    assert HeldPackets(n.buses[d])[0] == packet;
    LogGrows(n.log, Received(d, packet));
    hide LogInOrder;
    assert ValidBus(m, d);
  }

  // A destination that has stopped keeps what it recorded, whatever else it drops.
  lemma StoppedKeepsFlows(n: Network, m: Network, d: nat, b: Bus)
    requires Inv(n) && d < |n.buses| && m.buses == n.buses[d := b] && Stopped(b)
    requires b.ownMessages == n.buses[d].ownMessages && b.broadcasts == n.buses[d].broadcasts && b.since == n.buses[d].since
    requires b.sending == n.buses[d].sending && b.recorded == n.buses[d].recorded
    requires forall i :: 0 <= i < |n.buses| && Kept(n.buses[d], i) == [] ==> Kept(b, i) == []
    ensures forall i, j :: 0 <= i < |m.buses| && 0 <= j < |m.buses| ==> FlowsInOrder(m, i, j)
  {
    hide ValidBus;
    hide Kept;
    hide From;
    forall i, j | 0 <= i < |m.buses| && 0 <= j < |m.buses|
      ensures FlowsInOrder(m, i, j)
    {
      assert FlowsInOrder(n, i, j);
      if j == d {
        StoppedFlows(n.buses[i], m.buses[i], i, n.buses[j], m.buses[j], j);
      } else {
        FlowsStay(n.buses[i], m.buses[i], i, n.buses[j], m.buses[j], j);
      }
    }
  }

  lemma DroppedKept(b: Bus, c: Bus, source: nat)
    requires c == b.(held := None)
    ensures Kept(b, source) == [] ==> Kept(c, source) == []
  {
    hide From;
    if Kept(b, source) == [] {
      assert |From(b.recorded, source)| == 0 && |From(b.queue, source)| == 0;
      assert |From(HeldPackets(b), source)| == 0;
      assert HeldPackets(c) == [];
      FromNothing(source);
    }
  }

  lemma {:induction false} FromNothing(source: nat)
    ensures From([], source) == []
  {
  }

  lemma DropKeeps(n: Network, m: Network, d: nat)
    requires Inv(n) && Drops(n, m, d)
    ensures Inv(m)
  {
    assert ValidBus(n, d);
    forall i | 0 <= i < |n.buses|
      ensures Kept(n.buses[d], i) == [] ==> Kept(m.buses[d], i) == []
    {
      DroppedKept(n.buses[d], m.buses[d], i);
    }
    StoppedKeepsFlows(n, m, d, m.buses[d]);
    OthersStayValid(n, m, d);
    hide FlowsInOrder;
    hide Kept;
    assert ValidBus(m, d);
  }

  lemma CloseKeeps(n: Network, m: Network, d: nat)
    requires Inv(n) && Closes(n, m, d)
    ensures Inv(m)
  {
    assert ValidBus(n, d);
    forall i | 0 <= i < |n.buses|
      ensures Kept(m.buses[d], i) == Kept(n.buses[d], i)
    {
      SameKept(n.buses[d], m.buses[d], i);
    }
    StoppedKeepsFlows(n, m, d, m.buses[d]);
    OthersStayValid(n, m, d);
    hide FlowsInOrder;
    hide Kept;
    assert ValidBus(m, d);
  }

  lemma FinishKeeps(n: Network, m: Network, d: nat)
    requires Inv(n) && Finishes(n, m, d)
    ensures Inv(m)
  {
    assert ValidBus(n, d);
    SameTrafficFlows(n, m, d, m.buses[d]);
    OthersStayValid(n, m, d);
    hide FlowsInOrder;
    assert ValidBus(m, d);
  }

  lemma LeaveKeeps(n: Network, m: Network, d: nat)
    requires Inv(n) && Leaves(n, m, d)
    ensures Inv(m)
  {
    assert SameTraffic(n.buses[d], m.buses[d]);
    SameTrafficFlows(n, m, d, m.buses[d]);
    hide FlowsInOrder;
    forall j | 0 <= j < |m.buses|
      ensures ValidBus(m, j)
    {
      assert ValidBus(n, j);
    }
  }

  lemma OpenFlows(n: Network, m: Network, own: bool, i: nat, j: nat)
    requires Inv(n) && Opens(n, m, own) && i < |m.buses| && j < |m.buses|
    ensures FlowsInOrder(m, i, j)
  {
    var added := |n.buses|;
    FromNothing(i);
    if i < added && j < added {
      assert FlowsInOrder(n, i, j);
    } else if i == added && j < added {
      assert ValidBus(n, j);
      FromNobody(n.buses[j].recorded, i);
      FromNobody(HeldPackets(n.buses[j]), i);
      FromNobody(n.buses[j].queue, i);
    }
  }

  lemma OpenedAreValid(n: Network, m: Network, own: bool, j: nat)
    requires Inv(n) && Opens(n, m, own) && j < |m.buses|
    ensures ValidBus(m, j)
  {
    hide FlowsInOrder;
    if j < |n.buses| {
      assert ValidBus(n, j);
    }
  }

  lemma OpenKeeps(n: Network, m: Network, own: bool)
    requires Inv(n) && Opens(n, m, own)
    ensures Inv(m)
  {
    assert m.log == n.log;
    hide ValidBus;
    hide FlowsInOrder;
    forall j | 0 <= j < |m.buses|
      ensures ValidBus(m, j)
    {
      OpenedAreValid(n, m, own, j);
    }
    forall i, j | 0 <= i < |m.buses| && 0 <= j < |m.buses|
      ensures FlowsInOrder(m, i, j)
    {
      OpenFlows(n, m, own, i, j);
    }
  }

  lemma SendKeeps(n: Network, m: Network, i: nat)
    requires Inv(n) && SendStep(n, m, i)
    ensures Inv(m)
  {
    hide Inv;
    hide Admits;
    hide Transmits;
    hide StartsBroadcast;
    hide Queues;
    hide Refuses;
    hide Fails;
    hide EndsBroadcast;
    if frame :| Admits(n, m, i, frame) {
      AdmitKeeps(n, m, i, frame);
    } else if Transmits(n, m, i) {
      TransmitKeeps(n, m, i);
    } else if targets :| StartsBroadcast(n, m, i, targets) {
      StartKeeps(n, m, i, targets);
    } else if d :| Queues(n, m, i, d) {
      QueueKeeps(n, m, i, d);
    } else if d :| Refuses(n, m, i, d) {
      RefuseKeeps(n, m, i, d);
    } else if Fails(n, m, i) {
      FailKeeps(n, m, i);
    } else {
      EndKeeps(n, m, i);
    }
  }

  lemma BusKeeps(n: Network, m: Network, d: nat)
    requires Inv(n) && BusStep(n, m, d)
    ensures Inv(m)
  {
    hide Inv;
    hide Takes;
    hide Records;
    hide Drops;
    hide Closes;
    hide Finishes;
    hide Leaves;
    if Takes(n, m, d) {
      TakeKeeps(n, m, d);
    } else if Records(n, m, d) {
      RecordKeeps(n, m, d);
    } else if Drops(n, m, d) {
      DropKeeps(n, m, d);
    } else if Closes(n, m, d) {
      CloseKeeps(n, m, d);
    } else if Finishes(n, m, d) {
      FinishKeeps(n, m, d);
    } else {
      LeaveKeeps(n, m, d);
    }
  }

  lemma StepKeeps(n: Network, m: Network)
    requires Inv(n) && Step(n, m)
    ensures Inv(m)
  {
    hide Inv;
    hide Opens;
    hide SendStep;
    hide BusStep;
    if own :| Opens(n, m, own) {
      OpenKeeps(n, m, own);
    } else if i :| SendStep(n, m, i) {
      SendKeeps(n, m, i);
    } else {
      var d :| BusStep(n, m, d);
      BusKeeps(n, m, d);
    }
  }

  ghost predicate Run(run: seq<Network>) {
    && |run| > 0 && run[0] == Network([], [])
    && forall k :: 0 <= k < |run| - 1 ==> Step(run[k], run[k + 1])
  }

  lemma {:induction false} RunKeeps(run: seq<Network>, k: nat)
    requires Run(run) && k < |run|
    ensures Inv(run[k])
  {
    hide Step;
    if k > 0 {
      RunKeeps(run, k - 1);
      assert Step(run[k - 1], run[k - 1 + 1]);
      StepKeeps(run[k - 1], run[k]);
    }
  }

  // ---- What the network delivers ---------------------------------------------------------

  /**
   * In every interleaving, what a destination has recorded from a source is a prefix, in order, of what that
   * source broadcast since the destination opened: nothing is recorded after a packet that was dropped.
   */
  lemma DeliveryIsPrefix(run: seq<Network>, source: nat, destination: nat)
    requires Run(run) && source < |run[|run| - 1].buses| && destination < |run[|run| - 1].buses|
    ensures var n := run[|run| - 1]; var b := n.buses[destination];
      && Since(b, source) <= |n.buses[source].broadcasts|
      && From(b.recorded, source) <= n.buses[source].broadcasts[Since(b, source)..]
      && (source == destination && !b.ownMessages ==> From(b.recorded, source) == [])
  {
    var n := run[|run| - 1];
    RunKeeps(run, |run| - 1);
    assert FlowsInOrder(n, source, destination);
    hide From;
    hide ValidBus;
    var (b, sender) := (n.buses[destination], n.buses[source]);
    if source == destination && !b.ownMessages {
      assert |From(b.recorded, source)| <= |Kept(b, source)|;
    } else {
      assert From(b.recorded, source) <= Kept(b, source) <= Kept(b, source) + Pending(sender, destination);
    }
  }

  /**
   * A bus that has neither failed nor closed loses nothing of a source that is not broadcasting just now: what it
   * has not recorded yet is held or still queued, and a bus that holds and queues nothing has recorded all of it.
   */
  lemma NothingIsLost(run: seq<Network>, source: nat, destination: nat)
    requires Run(run) && source < |run[|run| - 1].buses| && destination < |run[|run| - 1].buses|
    requires !Stopped(run[|run| - 1].buses[destination]) && !run[|run| - 1].buses[source].sending.Broadcasting?
    requires source != destination || run[|run| - 1].buses[destination].ownMessages
    ensures var n := run[|run| - 1]; var b := n.buses[destination];
      && Since(b, source) <= |n.buses[source].broadcasts|
      && From(b.recorded + HeldPackets(b) + b.queue, source) == n.buses[source].broadcasts[Since(b, source)..]
      && (b.held.None? && b.queue == [] ==> From(b.recorded, source) == n.buses[source].broadcasts[Since(b, source)..])
  {
    var n := run[|run| - 1];
    RunKeeps(run, |run| - 1);
    assert FlowsInOrder(n, source, destination);
    hide ValidBus;
    var b := n.buses[destination];
    KeptAtOnce(b, source);
    hide From;
    hide Kept;
    assert Kept(b, source) + [] == Kept(b, source);
  }

  lemma {:induction false} KeptAtOnce(b: Bus, source: nat)
    ensures From(b.recorded + HeldPackets(b) + b.queue, source) == Kept(b, source)
    ensures b.held.None? && b.queue == [] ==> From(b.recorded, source) == Kept(b, source)
  {
    FromConcat(b.recorded, HeldPackets(b), source);
    FromConcat(b.recorded + HeldPackets(b), b.queue, source);
    FromNothing(source);
    hide From;
    assert From(b.recorded, source) + ([] + []) == From(b.recorded, source);
  }

  /** In a capture shared by the buses, every receive record stands behind the transmit record of its packet. */
  lemma TransmitPrecedesReceive(run: seq<Network>, k: nat)
    requires Run(run) && k < |run[|run| - 1].log| && run[|run| - 1].log[k].Received?
    ensures Transmitted(run[|run| - 1].log[k].packet) in run[|run| - 1].log[..k]
  {
    RunKeeps(run, |run| - 1);
  }
}
