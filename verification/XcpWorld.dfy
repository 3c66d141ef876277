/**
 * What surrounds an XCP client: commands on their way to the ECU, replies on their way back, frames
 * captured behind the client's cursor. Replies carry no identifier on the wire; the tags below exist
 * only to say whose reply a frame is. The ECU answers each accepted command at most once and in order.
 */
module XcpWorld {
  import opened Wrappers
  import opened Frames
  import opened XcpPackets

  datatype Arrival = Arrival(frame: Frame, tag: Option<nat>)

  // The memory transfer address: extension and value.
  datatype Address = Address(extension: byte, value: nat)

  // A command is known by its position in `sent`. `answers` holds the replies the ECU put on the bus.
  datatype World = World(
    sent: seq<Request>,
    c2e: seq<nat>,
    e2c: seq<Arrival>,
    inbox: seq<Arrival>,
    answers: map<nat, Frame>,
    mta: Address,
    bigEndian: bool)

  type Memory = Address -> byte

  // Answer: the oldest unprocessed command is executed, and its reply may get lost on the way.
  // Drop: it is never executed. Noise: any other traffic on the receive identifier.
  datatype Event = Answer(frame: Frame, lost: bool) | Drop | Capture | Noise(frame: Frame)

  function MemoryAt(memory: Memory, at: Address, n: nat): (data: seq<byte>)
    ensures |data| == n
  {
    seq<byte>(n, i requires 0 <= i < n => memory(Address(at.extension, at.value + i)))
  }

  /** What a reply may be: only SYNCH is answered with the marker, and uploads tell the truth. */
  predicate Compliant(config: Config, memory: Memory, mta: Address, request: Request, frame: Frame) {
    var packet := Classify(config, frame);
    && !packet.Terminated?
    && (Marker(packet) ==> request.command == SYNCH)
    && (packet.Positive? && request.command == UPLOAD && |request.data| == 1 && |packet.data| >= request.data[0] as nat ==>
          packet.data[..request.data[0]] == MemoryAt(memory, mta, request.data[0]))
  }

  /** The transfer address after a command has been executed. */
  function MtaAfter(config: Config, bigEndian: bool, mta: Address, request: Request, frame: Frame): Address {
    if !Classify(config, frame).Positive? then mta
    else if request.command == SET_MTA && |request.data| == 7 then Address(request.data[2], Word32(bigEndian, request.data[3..]))
    else if request.command == UPLOAD && |request.data| == 1 then mta.(value := mta.value + request.data[0] as nat)
    else mta
  }

  /** The byte order the ECU has announced. */
  function OrderAfter(config: Config, bigEndian: bool, request: Request, frame: Frame): bool {
    var packet := Classify(config, frame);
    if request.command == CONNECT && packet.Positive? && |packet.data| > 1 then packet.data[1] % 2 == 1 else bigEndian
  }

  /** An event of the surroundings; one the ECU would not do changes nothing. */
  function Happen(config: Config, memory: Memory, w: World, event: Event): World {
    match event
    case Answer(frame, lost) =>
      if w.c2e == [] || w.c2e[0] >= |w.sent| then w
      else
        var id := w.c2e[0];
        var request := w.sent[id];
        if !Compliant(config, memory, w.mta, request, frame) then w
        else
          var done := w.(c2e := w.c2e[1..], mta := MtaAfter(config, w.bigEndian, w.mta, request, frame),
                         bigEndian := OrderAfter(config, w.bigEndian, request, frame));
          if lost then done
          else done.(e2c := w.e2c + [Arrival(frame, Some(id))], answers := w.answers[id := frame])
    case Drop => if w.c2e == [] then w else w.(c2e := w.c2e[1..])
    case Capture => if w.e2c == [] then w else w.(e2c := w.e2c[1..], inbox := w.inbox + [w.e2c[0]])
    case Noise(frame) =>
      var packet := Classify(config, frame);
      if packet.Positive? || packet.ErrorReply? then w else w.(e2c := w.e2c + [Arrival(frame, None)])
  }

  /** A command is accepted by the bus: the cursor moves past everything captured so far. */
  function Accepted(w: World, request: Request): World {
    w.(sent := w.sent + [request], c2e := w.c2e + [|w.sent|], inbox := [])
  }

  // ---- Invariant -------------------------------------------------------------------------

  function Tags(arrivals: seq<Arrival>): seq<nat> {
    if arrivals == [] then []
    else Tags(arrivals[..|arrivals| - 1]) + match arrivals[|arrivals| - 1].tag case Some(id) => [id] case None => []
  }

  /** Commands without a reply the client has seen, oldest first. */
  function Pipeline(w: World): seq<nat> {
    Tags(w.inbox + w.e2c) + w.c2e
  }

  ghost predicate Increasing(ids: seq<nat>, limit: nat) {
    && (forall i, j :: 0 <= i < j < |ids| ==> ids[i] < ids[j])
    && (forall i :: 0 <= i < |ids| ==> ids[i] < limit)
  }

  ghost predicate TrueArrival(config: Config, w: World, a: Arrival) {
    var packet := Classify(config, a.frame);
    match a.tag
    case Some(id) =>
      && id < |w.sent| && id in w.answers && w.answers[id] == a.frame
      && !packet.Terminated? && (Marker(packet) ==> w.sent[id].command == SYNCH)
    case None => !packet.Positive? && !packet.ErrorReply?
  }

  ghost predicate ValidWorld(config: Config, w: World) {
    && Increasing(Pipeline(w), |w.sent|)
    && (forall i :: 0 <= i < |w.inbox + w.e2c| ==> TrueArrival(config, w, (w.inbox + w.e2c)[i]))
    && (forall id :: id in w.c2e ==> id !in w.answers)
    && (forall id :: id in w.answers ==> id < |w.sent|)
  }

  lemma {:induction false} TagsConcat(left: seq<Arrival>, right: seq<Arrival>)
    ensures Tags(left + right) == Tags(left) + Tags(right)
  {
    if right == [] {
      assert left + right == left;
    } else {
      assert (left + right)[..|left + right| - 1] == left + right[..|right| - 1];
      TagsConcat(left, right[..|right| - 1]);
    }
  }

  lemma TagsOne(a: Arrival)
    ensures Tags([a]) == match a.tag case Some(id) => [id] case None => []
  {
    assert [a][..0] == [];
    assert Tags([]) == [];
  }

  lemma PopPipeline(w: World)
    requires |w.inbox| > 0
    ensures var rest := w.(inbox := w.inbox[1..]);
      Pipeline(w) == (match w.inbox[0].tag case Some(id) => [id] case None => []) + Pipeline(rest)
  {
    var rest := w.(inbox := w.inbox[1..]);
    assert w.inbox + w.e2c == [w.inbox[0]] + (rest.inbox + rest.e2c);
    TagsConcat([w.inbox[0]], rest.inbox + rest.e2c);
    TagsOne(w.inbox[0]);
  }

  /** What the surroundings can have changed between two points of the client's work. */
  ghost predicate Later(config: Config, memory: Memory, w: World, v: World) {
    && v.sent == w.sent
    && (forall id :: id in w.answers ==> id in v.answers && v.answers[id] == w.answers[id])
    && (forall id :: id in Pipeline(v) ==> id in Pipeline(w))
    && (forall id :: id in v.c2e ==> id in w.c2e)
    && ((forall id :: id in w.c2e && id < |w.sent| ==> w.sent[id].command != CONNECT) ==> v.bigEndian == w.bigEndian)
    && (w.c2e == [] ==> v.mta == w.mta)
  }

  // How the one outstanding command may have been executed, seen from before it was sent.
  ghost predicate Executing(config: Config, memory: Memory, w: World, id: nat, before: Address, order: bool) {
    && id < |w.sent| && (forall other :: other in w.c2e ==> other == id) && |w.c2e| <= 1
    && (id in w.c2e ==> w.mta == before && w.bigEndian == order)
    && (id !in w.c2e && id in w.answers ==>
          && Compliant(config, memory, before, w.sent[id], w.answers[id])
          && w.mta == MtaAfter(config, order, before, w.sent[id], w.answers[id])
          && w.bigEndian == OrderAfter(config, order, w.sent[id], w.answers[id]))
  }

  lemma SameFlight(config: Config, w: World, v: World)
    requires ValidWorld(config, w)
    requires v.inbox + v.e2c == w.inbox + w.e2c && v.sent == w.sent && v.answers == w.answers && v.c2e == w.c2e
    ensures ValidWorld(config, v) && Pipeline(v) == Pipeline(w)
  {
    forall i | 0 <= i < |v.inbox + v.e2c|
      ensures TrueArrival(config, v, (v.inbox + v.e2c)[i])
    {
      assert TrueArrival(config, w, (w.inbox + w.e2c)[i]);
    }
  }

  lemma CaptureFlight(w: World)
    requires w.e2c != []
    ensures (w.inbox + [w.e2c[0]]) + w.e2c[1..] == w.inbox + w.e2c
  {
  }

  lemma MoreFlight(w: World, a: Arrival)
    ensures w.inbox + (w.e2c + [a]) == (w.inbox + w.e2c) + [a]
    ensures Tags(w.inbox + (w.e2c + [a])) == Tags(w.inbox + w.e2c) + match a.tag case Some(id) => [id] case None => []
  {
    assert w.inbox + (w.e2c + [a]) == (w.inbox + w.e2c) + [a];
    TagsConcat(w.inbox + w.e2c, [a]);
    TagsOne(a);
  }

  lemma {:induction false} DropOne(ids: seq<nat>, k: nat, limit: nat)
    requires k < |ids| && Increasing(ids, limit)
    ensures Increasing(ids[..k] + ids[k + 1..], limit)
    ensures forall id :: id in ids[..k] + ids[k + 1..] ==> id in ids
  {
  }

  lemma NoiseHappens(config: Config, memory: Memory, w: World, frame: Frame)
    requires ValidWorld(config, w)
    ensures var v := Happen(config, memory, w, Noise(frame)); ValidWorld(config, v) && Later(config, memory, w, v)
  {
    hide Classify;
    hide Tags;
    var v := Happen(config, memory, w, Noise(frame));
    if v != w {
      MoreFlight(w, Arrival(frame, None));
      assert Pipeline(v) == Pipeline(w);
      forall i | 0 <= i < |v.inbox + v.e2c|
        ensures TrueArrival(config, v, (v.inbox + v.e2c)[i])
      {
        if i < |w.inbox + w.e2c| {
          assert TrueArrival(config, w, (w.inbox + w.e2c)[i]);
        }
      }
    }
  }

  // The oldest command leaves the queue without a reply on the way.
  lemma QueueShortens(config: Config, memory: Memory, w: World, v: World)
    requires ValidWorld(config, w) && w.c2e != []
    requires v.inbox == w.inbox && v.e2c == w.e2c && v.sent == w.sent && v.answers == w.answers && v.c2e == w.c2e[1..]
    requires w.c2e[0] < |w.sent| && (w.sent[w.c2e[0]].command != CONNECT ==> v.bigEndian == w.bigEndian)
    ensures ValidWorld(config, v) && Later(config, memory, w, v)
  {
    hide Classify;
    var k := |Tags(w.inbox + w.e2c)|;
    DropOne(Pipeline(w), k, |w.sent|);
    assert Pipeline(v) == Pipeline(w)[..k] + Pipeline(w)[k + 1..];
    forall i | 0 <= i < |v.inbox + v.e2c|
      ensures TrueArrival(config, v, (v.inbox + v.e2c)[i])
    {
      assert TrueArrival(config, w, (w.inbox + w.e2c)[i]);
    }
  }

  lemma HeadIsSent(config: Config, w: World)
    requires ValidWorld(config, w) && w.c2e != []
    ensures w.c2e[0] < |w.sent|
  {
    assert Pipeline(w)[|Tags(w.inbox + w.e2c)|] == w.c2e[0];
  }

  lemma ReplyHappens(config: Config, memory: Memory, w: World, frame: Frame)
    requires ValidWorld(config, w) && w.c2e != [] && w.c2e[0] < |w.sent|
    requires Compliant(config, memory, w.mta, w.sent[w.c2e[0]], frame)
    ensures var v := Happen(config, memory, w, Answer(frame, false)); ValidWorld(config, v) && Later(config, memory, w, v)
  {
    hide MtaAfter;
    hide Classify;
    hide Tags;
    var v := Happen(config, memory, w, Answer(frame, false));
    var id := w.c2e[0];
    MoreFlight(w, Arrival(frame, Some(id)));
    assert Pipeline(v) == Pipeline(w);
    forall i | 0 <= i < |v.inbox + v.e2c|
      ensures TrueArrival(config, v, (v.inbox + v.e2c)[i])
    {
      if i < |w.inbox + w.e2c| {
        assert TrueArrival(config, w, (w.inbox + w.e2c)[i]);
      }
    }
    OthersAreNotHead(config, w);
  }

  lemma OthersAreNotHead(config: Config, w: World)
    requires ValidWorld(config, w) && w.c2e != []
    ensures w.c2e[0] !in w.c2e[1..]
  {
    hide TrueArrival;
    var k := |Tags(w.inbox + w.e2c)|;
    forall j | 0 < j < |w.c2e|
      ensures w.c2e[0] != w.c2e[j]
    {
      assert Pipeline(w)[k] == w.c2e[0] && Pipeline(w)[k + j] == w.c2e[j];
    }
  }

  /** No event of the surroundings breaks what is known about the channel. */
  lemma EventKeeps(config: Config, memory: Memory, w: World, event: Event)
    requires ValidWorld(config, w)
    ensures var v := Happen(config, memory, w, event); ValidWorld(config, v) && Later(config, memory, w, v)
  {
    hide Tags;
    hide TrueArrival;
    hide MtaAfter;
    hide Compliant;
    hide Classify;
    var v := Happen(config, memory, w, event);
    if v != w {
      match event
      case Answer(frame, lost) =>
        if lost {
          hide ValidWorld;
          QueueShortens(config, memory, w, v);
        } else {
          ReplyHappens(config, memory, w, frame);
        }
      case Drop =>
        HeadIsSent(config, w);
        hide ValidWorld;
        QueueShortens(config, memory, w, v);
      case Capture =>
        CaptureFlight(w);
        SameFlight(config, w, v);
      case Noise(frame) =>
        NoiseHappens(config, memory, w, frame);
    }
  }

  /** With one command outstanding, an event executes it at most once, with the effect its reply reports. */
  lemma EventExecutes(config: Config, memory: Memory, w: World, event: Event, id: nat, before: Address, order: bool)
    requires ValidWorld(config, w) && Executing(config, memory, w, id, before, order)
    ensures Executing(config, memory, Happen(config, memory, w, event), id, before, order)
  {
    hide Pipeline;
    hide TrueArrival;
    hide MtaAfter;
    hide Compliant;
    hide Classify;
    if w.c2e != [] {
      assert w.c2e[0] in w.c2e;
      assert w.c2e[1..] == [];
      assert id !in w.answers;
    }
  }

  lemma LaterTransitive(config: Config, memory: Memory, w: World, v: World, u: World)
    requires Later(config, memory, w, v) && Later(config, memory, v, u)
    ensures Later(config, memory, w, u)
  {
    hide Tags;
    hide Pipeline;
    assert v.c2e != [] ==> v.c2e[0] in w.c2e;
  }
}
