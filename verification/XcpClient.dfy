/**
 * The XCP client (xcp/command.go, xcp/memory.go), step by step: send, wait for the reply, recover by SYNCH
 * or by CONNECT - SYNCH - CONNECT. Sends may be refused and waits may end at any point, and between any
 * two steps the surroundings may do anything an ECU that answers in order can do.
 */
module XcpClient {
  import opened Wrappers
  import opened Frames
  import opened XcpPackets
  import opened XcpReplies
  import opened XcpWorld
  import opened XcpSession

  function HappenAll(config: Config, memory: Memory, w: World, events: seq<Event>): World
    decreases |events|
  {
    if events == [] then w else HappenAll(config, memory, Happen(config, memory, w, events[0]), events[1..])
  }

  lemma {:induction false} AllKeep(config: Config, memory: Memory, w: World, events: seq<Event>)
    requires ValidWorld(config, w)
    ensures var v := HappenAll(config, memory, w, events); ValidWorld(config, v) && Later(config, memory, w, v)
    decreases |events|
  {
    hide Happen;
    hide ValidWorld;
    hide Later;
    if events == [] {
      SameIsLater(config, memory, w);
    } else {
      EventKeeps(config, memory, w, events[0]);
      AllKeep(config, memory, Happen(config, memory, w, events[0]), events[1..]);
      LaterTransitive(config, memory, w, Happen(config, memory, w, events[0]), HappenAll(config, memory, w, events));
    }
  }

  lemma SameIsLater(config: Config, memory: Memory, w: World)
    ensures Later(config, memory, w, w)
  {
  }

  lemma {:induction false} AllExecute(config: Config, memory: Memory, w: World, events: seq<Event>, id: nat, before: Address, order: bool)
    requires ValidWorld(config, w) && Executing(config, memory, w, id, before, order)
    ensures Executing(config, memory, HappenAll(config, memory, w, events), id, before, order)
    decreases |events|
  {
    hide Happen;
    hide ValidWorld;
    hide Executing;
    if events != [] {
      EventKeeps(config, memory, w, events[0]);
      EventExecutes(config, memory, w, events[0], id, before, order);
      AllExecute(config, memory, Happen(config, memory, w, events[0]), events[1..], id, before, order);
    }
  }

  // What happens around the client before its next step, and whether that step goes well for it.
  datatype Batch = Batch(events: seq<Event>, proceeds: bool)

  /** The world and the script behind the next batch, and whether the client's step goes well. */
  ghost function Next(config: Config, memory: Memory, w: World, script: seq<Batch>): (World, seq<Batch>, bool) {
    if script == [] then (w, [], false)
    else (HappenAll(config, memory, w, script[0].events), script[1..], script[0].proceeds)
  }

  ghost function Offered(config: Config, memory: Memory, w: World, script: seq<Batch>, request: Request): (World, seq<Batch>, bool) {
    var (v, rest, proceeds) := Next(config, memory, w, script);
    (if proceeds then Accepted(v, request) else v.(inbox := []), rest, proceeds)
  }

  ghost function Awaited(config: Config, memory: Memory, w: World, script: seq<Batch>): (World, seq<Batch>, Option<Frame>) {
    var (v, rest, proceeds) := Next(config, memory, w, script);
    if !proceeds || v.inbox == [] then (v, rest, None) else (v.(inbox := v.inbox[1..]), rest, Some(v.inbox[0].frame))
  }

  // One act of the client replayed, and whether the world and the script would have had it go as it did.
  ghost function Played(config: Config, memory: Memory, w: World, script: seq<Batch>, act: Act): (World, seq<Batch>, bool) {
    match act
    case Sending(request, accepted) =>
      var (v, rest, proceeds) := Offered(config, memory, w, script, request);
      (v, rest, proceeds == accepted)
    case Waiting(frame) =>
      var (v, rest, next) := Awaited(config, memory, w, script);
      (v, rest, next == frame)
  }

  ghost function Replay(config: Config, memory: Memory, w: World, script: seq<Batch>, acts: seq<Act>): (World, seq<Batch>, bool) {
    if acts == [] then (w, script, true)
    else
      var (u, left, faithful) := Replay(config, memory, w, script, acts[..|acts| - 1]);
      var (v, rest, same) := Played(config, memory, u, left, acts[|acts| - 1]);
      (v, rest, faithful && same)
  }

  lemma {:induction false} ReplayNext(config: Config, memory: Memory, w: World, script: seq<Batch>, acts: seq<Act>, act: Act)
    ensures var (u, left, faithful) := Replay(config, memory, w, script, acts);
      var (v, rest, same) := Played(config, memory, u, left, act);
      Replay(config, memory, w, script, acts + [act]) == (v, rest, faithful && same)
  {
    assert (acts + [act])[..|acts|] == acts;
  }

  lemma {:induction false} NothingHappens(config: Config, memory: Memory, w: World)
    ensures HappenAll(config, memory, w, []) == w
  {
  }

  const NOTHING_YET := World([], [], [], [], map[], Address(0, 0), false)

  /** The bus and the capture as the client uses them; once the script is used up, every step fails. */
  class Channel {
    const config: Config
    const memory: Memory
    var world: World
    var script: seq<Batch>
    ghost const prepared: seq<Batch>
    ghost var log: seq<Act>

    /** The log is what the client has done with this bus since it was opened. */
    ghost predicate Honest()
      reads this
    {
      Replay(config, memory, NOTHING_YET, prepared, log) == (world, script, true)
    }

    constructor (config: Config, memory: Memory, script: seq<Batch>)
      ensures this.config == config && this.memory == memory && this.script == script && log == []
      ensures world == NOTHING_YET && Honest()
    {
      this.config, this.memory, this.script, log := config, memory, script, [];
      world, prepared := NOTHING_YET, script;
    }

    method Advance() returns (proceeds: bool, ghost events: seq<Event>)
      modifies this`world, this`script
      ensures world == HappenAll(config, memory, old(world), events)
      ensures |script| <= |old(script)| && (proceeds ==> |script| < |old(script)|)
      ensures if old(script) == [] then !proceeds && events == [] && script == []
              else proceeds == old(script)[0].proceeds && events == old(script)[0].events && script == old(script)[1..]
    {
      if script == [] {
        return false, [];
      }
      events := script[0].events;
      proceeds := script[0].proceeds;
      var rest := script[0].events;
      script := script[1..];
      while rest != []
        invariant HappenAll(config, memory, world, rest) == HappenAll(config, memory, old(world), events)
        modifies this`world
        decreases |rest|
      {
        world := Happen(config, memory, world, rest[0]);
        rest := rest[1..];
      }
    }

    /** Sending: refused or accepted, the cursor has moved to the end of the capture. */
    method Send(request: Request) returns (accepted: bool, ghost events: seq<Event>)
      requires Honest()
      modifies this
      ensures Honest()
      ensures var v := HappenAll(config, memory, old(world), events);
        world == if accepted then Accepted(v, request) else v.(inbox := [])
      ensures |script| <= |old(script)|
      ensures log == old(log) + [Sending(request, accepted)]
    {
      hide Replay;
      hide HappenAll;
      hide Accepted;
      NothingHappens(config, memory, world);
      ReplayNext(config, memory, NOTHING_YET, prepared, log, Sending(request, script != [] && script[0].proceeds));
      accepted, events := Advance();
      world := if accepted then Accepted(world, request) else world.(inbox := []);
      log := log + [Sending(request, accepted)];
    }

    /** Waiting: the next captured frame after the cursor, or none before the wait ends. */
    method Next() returns (frame: Option<Frame>, ghost events: seq<Event>)
      requires Honest()
      modifies this
      ensures Honest()
      ensures var v := HappenAll(config, memory, old(world), events);
        if frame.None? then world == v
        else v.inbox != [] && frame.value == v.inbox[0].frame && world == v.(inbox := v.inbox[1..])
      ensures |script| <= |old(script)| && (frame.Some? ==> |script| < |old(script)|)
      ensures log == old(log) + [Waiting(frame)]
    {
      hide Replay;
      hide HappenAll;
      NothingHappens(config, memory, world);
      ReplayNext(config, memory, NOTHING_YET, prepared, log, Waiting(Awaited(config, memory, world, script).2));
      var proceeds;
      proceeds, events := Advance();
      if !proceeds || world.inbox == [] {
        frame := None;
      } else {
        frame := Some(world.inbox[0].frame);
        world := world.(inbox := world.inbox[1..]);
      }
      log := log + [Waiting(frame)];
    }
  }

  ghost predicate AnswersKept(w: World, v: World) {
    forall id :: id in w.answers ==> id in v.answers && v.answers[id] == w.answers[id]
  }

  /** The reply a response was made from: `tag` names the command it answers. */
  ghost predicate AnsweredBy(config: Config, w: World, command: byte, minimum: nat, data: seq<byte>, tag: nat) {
    && tag in w.answers
    && var packet := Classify(config, w.answers[tag]);
    if command == SYNCH then Marker(packet) && packet.data == data
    else packet == Positive(data) && 1 + |data| >= minimum
  }

  class Client {
    const config: Config
    const channel: Channel
    var connected: bool
    var pending: byte
    var capabilities: Capabilities
    ghost var capsFrom: nat

    constructor (channel: Channel)
      requires channel.config.Valid() && channel.Honest()
      ensures this.channel == channel && config == channel.config
      ensures View() == Session(false, NONE, NO_CAPABILITIES, 0)
    {
      this.channel, config := channel, channel.config;
      connected, pending, capabilities, capsFrom := false, NONE, NO_CAPABILITIES, 0;
    }

    ghost function View(): Session
      reads this
    {
      Session(connected, pending, capabilities, capsFrom)
    }

    ghost predicate Valid()
      reads this, channel
    {
      config.Valid() && channel.config == config && channel.Honest() && SessionInv(config, channel.world, View())
    }

    /**
     * receive: frames are taken in order until one settles the command. A response comes from a reply that
     * was in flight or still owed, and everything still in flight afterwards answers younger commands.
     */
    method Receive(command: byte, minimum: nat) returns (r: Result<seq<byte>, Error>, ghost tag: nat, ghost waits: seq<Act>)
      requires Valid() && pending == command != NONE
      modifies this`connected, this`pending, channel
      ensures channel.world.sent == old(channel.world.sent) && ValidWorld(config, channel.world) && channel.Honest()
      ensures Later(config, channel.memory, old(channel.world), channel.world)
      ensures r != Err(SessionTerminated) ==>
        && SessionInv(config, channel.world, old(View())) && connected == old(connected)
        && pending == (if r.Err? && r.error.Negative? && r.error.code != 0 then NONE else old(pending))
      ensures r == Err(SessionTerminated) ==> !connected && pending == NONE
      ensures r.Ok? ==> AnsweredBy(config, channel.world, command, minimum, r.value, tag)
      ensures r.Ok? && command == SYNCH ==> tag + 1 == |channel.world.sent|
      ensures command == SYNCH ==> !(r.Err? && r.error.Negative?)
      ensures (r.Ok? || pending != command) && r != Err(SessionTerminated) ==>
        tag in old(Pipeline(channel.world)) && forall id :: id in Pipeline(channel.world) ==> id > tag
      ensures forall id, before, order :: Executing(config, channel.memory, old(channel.world), id, before, order) ==>
        Executing(config, channel.memory, channel.world, id, before, order)
      ensures channel.log == old(channel.log) + waits && Received(config, command, minimum, waits, r)
    {
      hide ValidWorld;
      hide Replay;
      hide Later;
      hide Executing;
      hide SessionInv;
      hide Pipeline;
      hide Classify;
      hide HappenAll;
      hide Passed;
      hide Outcome;
      hide AllPassed;
      hide Received;
      tag, waits := 0, [];
      assert AllPassed(config, command, waits) by {
        NothingPassed(config, command);
      }
      ghost var (start, session) := (channel.world, View());
      SessionIsValid(config, start, session);
      SameIsLater(config, channel.memory, start);
      while true
        invariant channel.world.sent == start.sent && ValidWorld(config, channel.world) && channel.Honest()
        invariant SessionInv(config, channel.world, session) && View() == session
        invariant Later(config, channel.memory, start, channel.world)
        invariant channel.log == old(channel.log) + waits && AllPassed(config, command, waits)
        invariant forall id, before, order :: Executing(config, channel.memory, start, id, before, order) ==>
          Executing(config, channel.memory, channel.world, id, before, order)
        decreases |channel.script|
      {
        ghost var w := channel.world;
        ghost var events;
        var next;
        next, events := channel.Next();
        Waited(config, channel.memory, start, w, events, session);
        ghost var (passed, act) := (waits, Waiting(next));
        waits := waits + [act];
        if next.None? {
          SettledBy(config, command, minimum, passed, act, Err(Interrupted));
          return Err(Interrupted), tag, waits;
        }
        ghost var v := HappenAll(config, channel.memory, w, events);
        Taken(config, channel.memory, start, v, session);
        var packet := Classify(config, next.value);
        PacketsMean(config, command, minimum, next.value);
        if Passed(config, command, next.value) {
          PassedOn(config, command, passed, act);
        } else {
          SettledBy(config, command, minimum, passed, act, Outcome(config, command, minimum, next.value));
        }
        match packet
        case Ignored =>
        case CommandPending =>
        case Malformed =>
          return Err(InvalidResponse), tag, waits;
        case Terminated =>
          connected := false;
          pending := NONE;
          return Err(SessionTerminated), tag, waits;
        case Positive(data) =>
          if command != SYNCH {
            tag := v.inbox[0].tag.value;
            if 1 + |data| < minimum {
              return Err(InvalidResponse), tag, waits;
            }
            return Ok(data), tag, waits;
          }
        case ErrorReply(data) =>
          tag := v.inbox[0].tag.value;
          if command == SYNCH {
            if data[0] == 0 {
              MarkerEmptiesPipeline(config, v, session);
              return Ok(data), tag, waits;
            }
          } else {
            if data[0] != 0 {
              pending := NONE;
            }
            return Err(Negative(data[0])), tag, waits;
          }
      }
    }

    /** How far replies have been returned: only an unanswered SYNCH can still be answered from before it. */
    ghost function Mark(): nat
      reads this`pending, channel`world
    {
      if pending == SYNCH && |channel.world.sent| > 0 then |channel.world.sent| - 1 else |channel.world.sent|
    }

    // The sending part of `command`. A refused send has moved the cursor, but has sent nothing.
    method Transmit(request: Request) returns (sent: bool)
      requires Valid() && ValidateRequest(config, connected, pending, capabilities, request).Ok?
      requires !(request.command == SYNCH && pending == SYNCH)
      modifies this`connected, this`pending, channel
      ensures Valid()
      ensures View() == if sent then AcceptedSession(old(View()), request) else old(View())
      ensures channel.world.sent == old(channel.world.sent) + if sent then [request] else []
      ensures channel.log == old(channel.log) + [Sending(request, sent)]
      ensures AnswersKept(old(channel.world), channel.world)
      ensures sent && old(pending) == NONE ==>
        var id := |old(channel.world.sent)|;
        Pipeline(channel.world) == [id] &&
        Executing(config, channel.memory, channel.world, id, old(channel.world.mta), old(channel.world.bigEndian))
    {
      hide ValidWorld;
      hide Replay;
      hide SessionInv;
      hide Pipeline;
      hide HappenAll;
      hide ValidateRequest;
      ghost var w := channel.world;
      SessionIsValid(config, w, View());
      ghost var events;
      sent, events := channel.Send(request);
      ghost var v := HappenAll(config, channel.memory, w, events);
      AllKeep(config, channel.memory, w, events);
      LaterKeeps(config, channel.memory, w, v, View());
      if !sent {
        ResetIsLater(config, channel.memory, v);
        LaterKeeps(config, channel.memory, v, v.(inbox := []), View());
        return;
      }
      AcceptKeeps(config, v, View(), request);
      if pending == NONE {
        SoleCommand(config, channel.memory, w, v, View(), request);
      }
      if !Known(request.command) || request.command == CONNECT || request.command == DISCONNECT {
        connected := false;
      }
      pending := request.command;
    }

    // Validate, and send unless an unanswered SYNCH is resumed.
    method Issue(request: Request) returns (r: Result<nat, Error>, ghost acts: seq<Act>)
      requires Valid()
      modifies this`connected, this`pending, channel
      ensures Valid() && old(channel.world.sent) <= channel.world.sent && AnswersKept(old(channel.world), channel.world)
      ensures Mark() >= old(Mark())
      ensures channel.log == old(channel.log) + acts
      ensures var valid := ValidateRequest(config, old(connected), old(pending), capabilities, request);
        if valid.Err? then acts == [] && r == valid
        else if request.command == SYNCH && old(pending) == SYNCH then acts == [] && r == valid
        else if r.Ok? then acts == [Sending(request, true)]
        else acts == [Sending(request, false)] && r == Err(SendFailed)
      ensures r.Ok? ==>
        && ValidateRequest(config, old(connected), old(pending), capabilities, request) == r
        && pending == request.command && |channel.world.sent| > 0
        && channel.world.sent[|channel.world.sent| - 1].command == request.command
        && (Recovers(request.command, old(pending)) || channel.world.sent[|channel.world.sent| - 1] == request)
        && connected == (old(connected) && LeavesConnected(request.command))
      ensures r.Err? ==> View() == old(View()) && r.error != SessionTerminated
      ensures r.Ok? && old(pending) != SYNCH ==> channel.world.sent == old(channel.world.sent) + [request]
      ensures r.Ok? && old(pending) == NONE ==>
        var id := |old(channel.world.sent)|;
        Pipeline(channel.world) == [id] &&
        Executing(config, channel.memory, channel.world, id, old(channel.world.mta), old(channel.world.bigEndian))
    {
      hide SessionInv;
      hide ValidWorld;
      hide Replay;
      hide Pipeline;
      hide Executing;
      hide ValidateRequest;
      hide MaximumLength;
      hide Known;
      QuietCommands(request.command);
      var validated := ValidateRequest(config, connected, pending, capabilities, request);
      acts := [];
      if validated.Err? {
        return Err(validated.error), acts;
      }
      if request.command != SYNCH || pending != SYNCH {
        var sent := Transmit(request);
        acts := [Sending(request, sent)];
        if !sent {
          return Err(SendFailed), acts;
        }
      }
      LastIsPending(config, channel.world, View());
      return validated, acts;
    }

    // The wait, and what it leaves of the session: a CONNECT that fails in its recovery stays unanswered.
    method Await(command: byte, minimum: nat, recovering: bool) returns (r: Result<seq<byte>, Error>, ghost tag: nat, ghost waits: seq<Act>)
      requires Valid() && pending == command != NONE && minimum >= 1 && (recovering ==> command == CONNECT)
      requires recovering || command == SYNCH || Pipeline(channel.world) == [|channel.world.sent| - 1]
      modifies this`connected, this`pending, channel
      ensures channel.world.sent == old(channel.world.sent) && ValidWorld(config, channel.world) && channel.Honest()
      ensures AnswersKept(old(channel.world), channel.world)
      ensures r != Err(SessionTerminated) ==> Valid() && Mark() >= old(Mark())
      ensures r.Ok? ==>
        && pending == command && connected == old(connected) && AnsweredBy(config, channel.world, command, 1, r.value, tag)
        && tag in channel.world.answers && (command != SYNCH ==> 1 + |r.value| >= minimum)
      ensures r.Ok? && !recovering ==>
        && tag + 1 == |channel.world.sent| && Pipeline(channel.world) == []
        && SessionInv(config, channel.world, View().(pending := NONE))
      ensures r == Err(SessionTerminated) ==> !connected && pending == NONE
      ensures r != Err(SessionTerminated) ==> connected == old(connected) && pending == if Rejected(r) && !recovering then NONE else command
      ensures channel.log == old(channel.log) + waits && Received(config, command, minimum, waits, r)
      ensures forall id, before, order :: Executing(config, channel.memory, old(channel.world), id, before, order) ==>
        Executing(config, channel.memory, channel.world, id, before, order)
    {
      hide SessionInv;
      hide ValidWorld;
      hide Replay;
      hide Later;
      hide Pipeline;
      hide Classify;
      hide AnsweredBy;
      hide Executing;
      hide Received;
      ghost var (w, session) := (channel.world, View());
      LastIsPending(config, w, session);
      r, tag, waits := Receive(command, minimum);
      LaterKeepsAnswers(config, channel.memory, w, channel.world);
      if r.Err? {
        if recovering && r.error != SessionTerminated {
          pending := CONNECT;
        } else if r.error.Negative? && r.error.code != 0 {
          Settled(config, channel.memory, w, channel.world, session, tag);
        }
        return;
      }
      AnyMinimum(config, channel.world, command, minimum, r.value, tag);
      if !recovering {
        Settled(config, channel.memory, w, channel.world, session, tag);
      }
    }

    // One exchange: the request, and the wait for its response.
    method Exchange(request: Request) returns (r: Result<seq<byte>, Error>, ghost tag: nat, ghost acts: seq<Act>)
      requires Valid()
      modifies this`connected, this`pending, channel
      ensures channel.log == old(channel.log) + acts
      ensures Exchanged(config, ValidateRequest(config, old(connected), old(pending), capabilities, request), request,
                        request.command == SYNCH && old(pending) == SYNCH, acts, r)
      ensures ValidWorld(config, channel.world) && channel.Honest() && old(channel.world.sent) <= channel.world.sent
      ensures AnswersKept(old(channel.world), channel.world)
      ensures r != Err(SessionTerminated) ==> Valid()
      ensures r.Ok? ==> Begun(acts)
      ensures !Begun(acts) ==> View() == old(View()) && r != Err(SessionTerminated)
      ensures Begun(acts) && r == Err(SessionTerminated) ==> !connected && pending == NONE
      ensures Begun(acts) && r != Err(SessionTerminated) ==>
        && connected == (old(connected) && LeavesConnected(request.command))
        && pending == if Rejected(r) && !Recovers(request.command, old(pending)) then NONE else request.command
      ensures r.Ok? && request.command == CONNECT ==> |r.value| >= 7 && (old(pending) == NONE || Recovers(CONNECT, old(pending)))
      ensures r.Ok? && !Recovers(request.command, old(pending)) ==>
        && SessionInv(config, channel.world, View().(pending := NONE)) && Pipeline(channel.world) == []
        && OwnReply(config, channel.world, request, r.value, tag)
      ensures r.Ok? && request.command == UPLOAD ==> |request.data| == 1 && |r.value| >= request.data[0] as nat
      ensures r.Ok? && old(pending) != SYNCH && !Recovers(request.command, old(pending)) ==> tag >= |old(channel.world.sent)|
      ensures r != Err(SessionTerminated) ==> Mark() >= old(Mark())
      ensures r.Ok? && old(pending) == NONE ==>
        Executed(config, channel.memory, channel.world, tag, old(channel.world.mta), old(channel.world.bigEndian))
    {
      hide SessionInv;
      hide ValidWorld;
      hide Replay;
      hide Later;
      hide Pipeline;
      hide Classify;
      hide AnsweredBy;
      hide Executing;
      hide ValidateRequest;
      hide MaximumLength;
      hide Known;
      hide Executed;
      hide Received;
      hide Exchanged;
      hide AnswersKept;
      hide LeavesConnected;
      var recoveringConnect := Recovers(request.command, pending);
      var validated;
      validated, acts := Issue(request);
      SessionIsValid(config, channel.world, View());
      ghost var valid := ValidateRequest(config, old(connected), old(pending), capabilities, request);
      ghost var resumed := request.command == SYNCH && old(pending) == SYNCH;
      if validated.Err? {
        NotExchanged(config, valid, request, resumed, acts, validated.error);
        return Err(validated.error), 0, acts;
      }
      ghost var (w, waits) := (channel.world, acts);
      r, tag, waits := Await(request.command, validated.value, recoveringConnect);
      ThenReceived(config, validated.value, request, resumed, acts, waits, r);
      ReceivedWaits(config, request.command, validated.value, waits, r);
      acts := acts + waits;
      StillKept(old(channel.world), w, channel.world);
      if r.Ok? && old(pending) == NONE {
        ExecutedReply(config, channel.memory, channel.world, tag, old(channel.world.mta), old(channel.world.bigEndian));
      }
    }

    /**
     * command: a response returned without error is the ECU's reply to the very request, which is the last
     * one sent; an unfinished SYNCH is resumed without sending it again; CONNECT after an unanswered CONNECT
     * or DISCONNECT fences every older reply before it reads capabilities.
     */
    method Command(request: Request) returns (r: Result<seq<byte>, Error>, ghost tag: nat, ghost acts: seq<Act>)
      requires Valid()
      modifies this, channel
      ensures channel.log == old(channel.log) + acts
      ensures Conducted(config, old(connected), old(pending), old(capabilities), request, acts, r)
      decreases if Recovers(request.command, pending) then 1 else 0, 1
      ensures ValidWorld(config, channel.world) && channel.Honest() && old(channel.world.sent) <= channel.world.sent
      ensures AnswersKept(old(channel.world), channel.world)
      ensures r != Err(SessionTerminated) ==> Valid()
      ensures r.Ok? ==> pending == NONE && OwnReply(config, channel.world, request, r.value, tag)
      ensures r.Ok? && old(pending) != SYNCH ==> tag >= |old(channel.world.sent)|
      ensures r != Err(SessionTerminated) ==> old(Mark()) <= Mark()
      ensures r.Ok? ==> old(Mark()) <= tag < Mark()
      ensures Settles(config, old(View()), request, acts, r, View())
      ensures r.Ok? && request.command == CONNECT ==> capsFrom == tag
      ensures r.Ok? && request.command == UPLOAD ==> |request.data| == 1 && |r.value| >= request.data[0] as nat
      ensures r.Ok? && old(pending) == NONE ==>
        Executed(config, channel.memory, channel.world, tag, old(channel.world.mta), old(channel.world.bigEndian))
    {
      hide SessionInv;
      hide ValidWorld;
      hide Replay;
      hide Pipeline;
      hide OwnReply;
      hide ParseConnect;
      hide Known;
      hide Executed;
      hide Exchanged;
      hide Conducted;
      hide ValidateRequest;
      var recoveringConnect := Recovers(request.command, pending);
      ghost var valid := ValidateRequest(config, connected, pending, capabilities, request);
      r, tag, acts := Exchange(request);
      ghost var first := acts;
      ConductsOne(config, old(connected), old(pending), old(capabilities), request, acts, r);
      if r.Err? {
        return;
      }
      var parsed := Ok(capabilities);
      if request.command == CONNECT {
        parsed := ParseConnect(config, r.value);
        if parsed.Err? {
          return Err(parsed.error), tag, acts;
        }
        if recoveringConnect {
          ghost var (read, session, fence, fenceActs, lastActs) := (r, View(), r, acts, acts);
          PendingConnectIsDisconnected(config, channel.world, session);
          r, tag, fence, fenceActs, lastActs := Reconnect(request, old(View()));
          acts := first + fenceActs + lastActs;
          ConductsFence(config, old(connected), old(pending), old(capabilities), request, session, first, read, fenceActs, fence, lastActs, r);
          return;
        }
      }
      OwnIsLast(config, channel.world, request, r.value, tag);
      Complete(request, r.value, parsed.value, tag, old(channel.world.mta), old(channel.world.bigEndian));
    }

    // The recovery behind a first reply to CONNECT: a SYNCH, and CONNECT again behind its marker.
    method Reconnect(request: Request, ghost before: Session)
      returns (r: Result<seq<byte>, Error>, ghost tag: nat, ghost fence: Result<seq<byte>, Error>, ghost fenceActs: seq<Act>, ghost lastActs: seq<Act>)
      requires Valid() && request.command == CONNECT && !connected && pending == CONNECT
      requires before.pending in {CONNECT, DISCONNECT}
      modifies this, channel
      decreases 1, 0
      ensures channel.log == old(channel.log) + fenceActs + lastActs
      ensures Conducted(config, false, CONNECT, old(capabilities), Request(SYNCH, []), fenceActs, fence)
      ensures if fence.Err? then lastActs == [] && r == fence
              else Plain(config, ValidateRequest(config, before.connected, before.pending, before.capabilities, request), request, false, lastActs, r)
      ensures ValidWorld(config, channel.world) && channel.Honest() && old(channel.world.sent) <= channel.world.sent
      ensures AnswersKept(old(channel.world), channel.world)
      ensures r != Err(SessionTerminated) ==> Valid() && old(Mark()) <= Mark()
      ensures r.Ok? ==> pending == NONE && OwnReply(config, channel.world, request, r.value, tag)
      ensures r.Ok? ==> |old(channel.world.sent)| <= tag < Mark() && capsFrom == tag
      ensures r.Ok? ==> connected && |r.value| >= 7 && ParseConnect(config, r.value) == Ok(capabilities)
      ensures r.Err? ==> !connected && capabilities == old(capabilities) && (r.error == SessionTerminated ==> pending == NONE)
    {
      hide SessionInv;
      hide ValidWorld;
      hide Replay;
      hide Pipeline;
      hide OwnReply;
      hide ParseConnect;
      hide Known;
      hide Executed;
      hide Conducted;
      hide Plain;
      hide ValidateRequest;
      r, tag, fenceActs := Command(Request(SYNCH, []));
      fence, lastActs := r, [];
      if r.Err? {
        return;
      }
      ghost var again := View();
      r, tag, lastActs := Command(request);
      ConductsLast(config, request, ValidateRequest(config, before.connected, before.pending, before.capabilities, request), before, again, lastActs, r);
      if r.Ok? {
        OwnIsLast(config, channel.world, request, r.value, tag);
      }
    }

    // The trusted end of a command.
    method Complete(request: Request, data: seq<byte>, parsed: Capabilities, ghost tag: nat, ghost before: Address, ghost order: bool)
      requires config.Valid() && channel.config == config && channel.Honest() && OwnReply(config, channel.world, request, data, tag)
      requires SessionInv(config, channel.world, View().(pending := NONE)) && Pipeline(channel.world) == []
      requires request.command == CONNECT ==>
        |data| >= 7 && ParseConnect(config, data) == Ok(parsed) && Executed(config, channel.memory, channel.world, tag, before, order)
      modifies this
      ensures Valid() && pending == NONE
      ensures if request.command == CONNECT then connected && capsFrom == tag && capabilities == parsed
              else connected == old(connected) && capabilities == old(capabilities)
    {
      hide Replay;
      hide SessionInv;
      hide Pipeline;
      hide AnsweredBy;
      hide Executed;
      hide ParseConnect;
      if request.command == CONNECT {
        Reconnected(config, channel.memory, channel.world, View(), request, data, tag, before, order);
        capabilities := parsed;
        connected := true;
        capsFrom := tag;
      }
      pending := NONE;
    }

    /** Do: SYNCH is refused where a disconnected ECU need not answer it. */
    method Do(request: Request) returns (r: Result<seq<byte>, Error>, ghost tag: nat, ghost acts: seq<Act>)
      requires Valid()
      modifies this, channel
      ensures channel.log == old(channel.log) + acts
      ensures Done(config, old(connected), old(pending), old(capabilities), request, acts, r)
      ensures ValidWorld(config, channel.world) && channel.Honest() && old(channel.world.sent) <= channel.world.sent
      ensures AnswersKept(old(channel.world), channel.world)
      ensures r != Err(SessionTerminated) ==> Valid()
      ensures r.Ok? ==> pending == NONE && OwnReply(config, channel.world, request, r.value, tag)
      ensures r.Ok? && old(pending) != SYNCH ==> tag >= |old(channel.world.sent)|
      ensures r != Err(SessionTerminated) ==> old(Mark()) <= Mark()
      ensures r.Ok? ==> old(Mark()) <= tag < Mark()
      ensures request.command == SYNCH && !old(connected) && old(pending) in {NONE, CONNECT, DISCONNECT} ==>
        r == Err(NotConnected) && channel.world == old(channel.world)
      ensures Settles(config, old(View()), request, acts, r, View())
    {
      hide ValidWorld;
      hide Replay;
      if request.command == SYNCH && !connected && (pending == NONE || pending == CONNECT || pending == DISCONNECT) {
        SessionIsValid(config, channel.world, View());
        return Err(NotConnected), 0, [];
      }
      r, tag, acts := Command(request);
    }

    /**
     * A whole session: any requests in any order, any refusals, losses, timeouts and interleaved traffic.
     * Every response is the ECU's reply to the request it is returned for, and no reply is returned twice: the
     * places among all commands sent, at which the answered ones stand, strictly increase.
     */
    method RunSession(requests: seq<Request>)
      returns (results: seq<Result<seq<byte>, Error>>, ghost tags: seq<nat>, ghost acts: seq<seq<Act>>, ghost sessions: seq<Session>)
      requires Valid()
      modifies this, channel
      ensures |results| == |tags| == |acts| <= |requests| && |sessions| == |results| + 1
      ensures channel.log == old(channel.log) + Joined(acts)
      ensures sessions[0] == old(View()) && sessions[|results|] == View()
      ensures forall i :: 0 <= i < |results| ==> Served(config, sessions[i], requests[i], acts[i], results[i], sessions[i + 1])
      ensures |results| < |requests| ==> |results| > 0 && results[|results| - 1] == Err(SessionTerminated)
      ensures forall i :: 0 <= i < |results| && results[i].Ok? ==> RepliedTo(config, channel.world, requests[i], results[i].value, tags[i])
      ensures forall i, j :: 0 <= i < j < |results| && results[i].Ok? && results[j].Ok? ==> tags[i] < tags[j]
    {
      hide ValidWorld;
      hide Replay;
      hide SessionInv;
      hide OwnReply;
      hide RepliedTo;
      hide AnswersKept;
      hide Done;
      hide Joined;
      hide ValidateRequest;
      hide MaximumLength;
      hide Settles;
      hide Served;
      results, tags, acts, sessions := [], [], [], [View()];
      JoinedNone();
      while |results| < |requests|
        invariant Valid() && |results| == |tags| == |acts| <= |requests| && |sessions| == |results| + 1
        invariant channel.log == old(channel.log) + Joined(acts)
        invariant sessions[0] == old(View()) && sessions[|results|] == View()
        invariant forall i :: 0 <= i < |results| ==> Served(config, sessions[i], requests[i], acts[i], results[i], sessions[i + 1])
        invariant forall i :: 0 <= i < |results| && results[i].Ok? ==> RepliedTo(config, channel.world, requests[i], results[i].value, tags[i])
        invariant forall i :: 0 <= i < |results| && results[i].Ok? ==> tags[i] < Mark()
        invariant forall i, j :: 0 <= i < j < |results| && results[i].Ok? && results[j].Ok? ==> tags[i] < tags[j]
        decreases |requests| - |results|
      {
        ghost var before := channel.world;
        ghost var session := View();
        var r;
        ghost var tag;
        ghost var did;
        r, tag, did := Do(requests[|results|]);
        IsServed(config, session, requests[|results|], did, r, View());
        if r.Ok? {
          OwnIsReplied(config, channel.world, requests[|results|], r.value, tag);
        }
        forall i | 0 <= i < |results| && results[i].Ok?
          ensures RepliedTo(config, channel.world, requests[i], results[i].value, tags[i])
        {
          StillReplied(config, before, channel.world, requests[i], results[i].value, tags[i]);
        }
        JoinedNext(acts, did);
        results, tags, acts, sessions := results + [r], tags + [tag], acts + [did], sessions + [View()];
        if r == Err(SessionTerminated) {
          return;
        }
      }
    }

    /**
     * read over UPLOAD: the bytes returned are the ECU's memory at the address, as far as it got, and all
     * of the length unless an error is reported.
     */
    method Read(address: Address, length: int)
      returns (data: seq<byte>, err: Option<Error>, ghost failed: Option<(Session, Request, seq<Act>)>)
      requires Valid() && address.value < 0x1_0000_0000
      modifies this, channel
      ensures data == MemoryAt(channel.memory, address, |data|)
      ensures err.None? ==> |data| == length
      ensures err.Some? ==> data == [] || |data| < length
      ensures err != Some(SessionTerminated) ==> Valid()
      ensures var refusal := Refusal(old(View()), address, length);
        if refusal.Some? then data == [] && err == refusal && channel.log == old(channel.log)
        else err.Some? ==>
          && failed.Some? && Failed(config, old(View()).capabilities, failed.value, address, err.value, |data|, length)
          && EndsWith(channel.log, |old(channel.log)|, failed.value.2)
    {
      hide SessionInv;
      hide ValidWorld;
      hide Replay;
      hide Conducted;
      hide Executed;
      hide OwnReply;
      hide AnswersKept;
      hide Pipeline;
      data, failed := [], None;
      if length < 0 || address.value + length > 0xffff_ffff {
        return [], Some(BadParameters), None;
      }
      if pending != NONE {
        return [], Some(SynchronizationRequired), None;
      }
      if !connected {
        return [], Some(NotConnected), None;
      }
      if capabilities.granularity != 1 {
        return [], Some(Unsupported), None;
      }
      ConnectedLimits(config, channel.world, View());
      var maximum := capabilities.maxCTO - 1;
      if length == 0 {
        return [], None, None;
      }
      var parameters: seq<byte> := [0, 0, address.extension] + Bytes32(capabilities.bigEndian, address.value);
      ghost var (before, order) := (channel.world.mta, channel.world.bigEndian);
      ghost var (session, log) := (View(), channel.log);
      var r;
      ghost var tag;
      ghost var acts;
      r, tag, acts := Command(Request(SET_MTA, parameters));
      if r.Err? {
        return [], Some(r.error), Some((session, Request(SET_MTA, parameters), acts));
      }
      AddressSet(config, channel.memory, channel.world, address, parameters, r.value, tag, before, order);
      while |data| < length
        invariant Valid() && pending == NONE && connected && capabilities == old(capabilities)
        invariant |data| <= length && data == MemoryAt(channel.memory, address, |data|)
        invariant channel.world.mta == Address(address.extension, address.value + |data|)
        invariant log <= channel.log
        decreases length - |data|
      {
        var count := if maximum < length - |data| then maximum else length - |data|;
        var request := Request(UPLOAD, [count]);
        before, order := channel.world.mta, channel.world.bigEndian;
        session := View();
        r, tag, acts := Command(request);
        if r.Err? {
          return data, Some(r.error), Some((session, request, acts));
        }
        Uploaded(config, channel.memory, channel.world, count, r.value, tag, before, order);
        MemoryContinues(channel.memory, address, |data|, count);
        data := data + r.value[..count];
      }
      err := None;
    }
  }

  // ---- What the commands did -------------------------------------------------------------

  // The command has gone out, or was still unanswered and is waited for.
  predicate Begun(acts: seq<Act>) {
    acts != [] && (acts[0].Sending? ==> acts[0].accepted)
  }

  // The ECU has answered that it will not do what it was asked.
  predicate Rejected(r: Result<seq<byte>, Error>) {
    r.Err? && r.error.Negative? && r.error.code != 0
  }

  // The commands the client knows, but those that open or end a session.
  predicate LeavesConnected(command: byte) {
    command in {SYNCH, GET_STATUS, GET_COMM_MODE_INFO, SET_MTA, UPLOAD, SHORT_UPLOAD}
  }

  lemma QuietCommands(command: byte)
    ensures Quiet(command) <==> LeavesConnected(command)
  {
  }

  /**
   * The session a command leaves: nothing changes unless it goes out; the end of the session clears it; a response
   * settles it, and CONNECT opens it anew; a command without a response stays unanswered unless the ECU has rejected it.
   */
  ghost predicate Settles(config: Config, s: Session, request: Request, acts: seq<Act>, r: Result<seq<byte>, Error>, t: Session) {
    && (if r.Ok? && request.command == CONNECT then |r.value| >= 7 && ParseConnect(config, r.value) == Ok(t.capabilities)
        else t.capabilities == s.capabilities)
    && if !Begun(acts) then r.Err? && r.error != SessionTerminated && t.connected == s.connected && t.pending == s.pending
       else if r == Err(SessionTerminated) then !t.connected && t.pending == NONE
       else if r.Ok? then t.pending == NONE && t.connected == (request.command == CONNECT || (s.connected && LeavesConnected(request.command)))
       else if Recovers(request.command, s.pending) then !t.connected
       else
         && t.connected == (s.connected && LeavesConnected(request.command))
         && t.pending == if Rejected(r) then NONE else request.command
  }

  /** Do: a SYNCH that a disconnected ECU need not answer is refused, anything else is conducted. */
  ghost predicate Done(config: Config, connected: bool, pending: byte, capabilities: Capabilities, request: Request,
                       acts: seq<Act>, r: Result<seq<byte>, Error>)
  {
    if request.command == SYNCH && !connected && pending in {NONE, CONNECT, DISCONNECT} then acts == [] && r == Err(NotConnected)
    else Conducted(config, connected, pending, capabilities, request, acts, r)
  }

  // One request of a session, from the state before it to the state behind it.
  ghost predicate Served(config: Config, s: Session, request: Request, acts: seq<Act>, r: Result<seq<byte>, Error>, t: Session) {
    Done(config, s.connected, s.pending, s.capabilities, request, acts, r) && Settles(config, s, request, acts, r, t)
  }

  lemma IsServed(config: Config, s: Session, request: Request, acts: seq<Act>, r: Result<seq<byte>, Error>, t: Session)
    requires Done(config, s.connected, s.pending, s.capabilities, request, acts, r) && Settles(config, s, request, acts, r, t)
    ensures Served(config, s, request, acts, r, t)
  {
  }

  ghost function Joined(acts: seq<seq<Act>>): seq<Act> {
    if acts == [] then [] else Joined(acts[..|acts| - 1]) + acts[|acts| - 1]
  }

  lemma JoinedNone()
    ensures Joined([]) == []
  {
  }

  lemma {:induction false} JoinedNext(acts: seq<seq<Act>>, more: seq<Act>)
    ensures Joined(acts + [more]) == Joined(acts) + more
  {
    assert (acts + [more])[..|acts|] == acts;
  }

  /** Why a read is refused before anything is sent. */
  ghost function Refusal(s: Session, address: Address, length: int): Option<Error> {
    if length < 0 || address.value + length > 0xffff_ffff then Some(BadParameters)
    else if s.pending != NONE then Some(SynchronizationRequired)
    else if !s.connected then Some(NotConnected)
    else if s.capabilities.granularity != 1 then Some(Unsupported)
    else None
  }

  // The last acts of a log, all of them later than the first n.
  predicate EndsWith(log: seq<Act>, n: nat, acts: seq<Act>) {
    n + |acts| <= |log| && log[|log| - |acts|..] == acts
  }

  // The command of a read that failed: the address, or as many bytes as a reply holds or are still to be read.
  ghost predicate Failed(config: Config, capabilities: Capabilities, failed: (Session, Request, seq<Act>), address: Address,
                         error: Error, done: nat, length: int)
  {
    var (s, request, acts) := failed;
    && Conducted(config, s.connected, s.pending, s.capabilities, request, acts, Err(error))
    && s.connected && s.pending == NONE && s.capabilities == capabilities && address.value < 0x1_0000_0000
    && (|| (done == 0 && request == Request(SET_MTA, [0, 0, address.extension] + Bytes32(capabilities.bigEndian, address.value)))
        || (request.command == UPLOAD && |request.data| == 1
            && request.data[0] as int == if capabilities.maxCTO - 1 < length - done then capabilities.maxCTO - 1 else length - done))
  }

  lemma NotExchanged(config: Config, valid: Result<nat, Error>, request: Request, resumed: bool, acts: seq<Act>, error: Error)
    requires if valid.Err? then acts == [] && error == valid.error
             else !resumed && acts == [Sending(request, false)] && error == SendFailed
    ensures Exchanged(config, valid, request, resumed, acts, Err(error))
  {
  }

  lemma ThenReceived(config: Config, minimum: nat, request: Request, resumed: bool, acts: seq<Act>, waits: seq<Act>,
                     r: Result<seq<byte>, Error>)
    requires acts == if resumed then [] else [Sending(request, true)]
    requires Received(config, request.command, minimum, waits, r)
    ensures Exchanged(config, Ok(minimum), request, resumed, acts + waits, r)
  {
    hide Received;
    assert resumed ==> acts + waits == waits;
    assert !resumed ==> (acts + waits)[1..] == waits;
  }

  lemma ConductsOne(config: Config, connected: bool, pending: byte, capabilities: Capabilities, request: Request,
                    acts: seq<Act>, x: Result<seq<byte>, Error>)
    requires Exchanged(config, ValidateRequest(config, connected, pending, capabilities, request), request,
                       request.command == SYNCH && pending == SYNCH, acts, x)
    ensures !Recovers(request.command, pending) ==>
      Conducted(config, connected, pending, capabilities, request, acts, Trusted(config, request, x))
    ensures Recovers(request.command, pending) && Trusted(config, request, x).Err? ==>
      Conducted(config, connected, pending, capabilities, request, acts, Trusted(config, request, x))
  {
    hide Exchanged;
    hide ValidateRequest;
    hide ParseConnect;
    var r := Trusted(config, request, x);
    var valid := ValidateRequest(config, connected, pending, capabilities, request);
    if Recovers(request.command, pending) && r.Err? {
      assert Fenced(config, valid, request, acts, [], [], r);
      assert acts == acts + [] + [];
    }
  }

  lemma SynchIsValid(config: Config, capabilities: Capabilities)
    requires config.Valid()
    ensures ValidateRequest(config, false, CONNECT, capabilities, Request(SYNCH, [])) == Ok(1)
  {
  }

  lemma ConnectValidity(config: Config, left: Session, right: Session, request: Request)
    requires request.command == CONNECT && left.pending in {NONE, CONNECT, DISCONNECT} && right.pending in {NONE, CONNECT, DISCONNECT}
    ensures ValidateRequest(config, left.connected, left.pending, left.capabilities, request)
         == ValidateRequest(config, right.connected, right.pending, right.capabilities, request)
  {
  }

  lemma ConductsLast(config: Config, request: Request, valid: Result<nat, Error>, before: Session, s: Session, last: seq<Act>, r: Result<seq<byte>, Error>)
    requires request.command == CONNECT && s.pending == NONE
    requires valid == ValidateRequest(config, before.connected, before.pending, before.capabilities, request)
    requires before.pending in {CONNECT, DISCONNECT}
    requires Conducted(config, s.connected, s.pending, s.capabilities, request, last, r)
    ensures Plain(config, valid, request, false, last, r)
  {
    hide ValidateRequest;
    hide Plain;
    ConnectValidity(config, before, s, request);
  }

  lemma ConductsFence(config: Config, connected: bool, pending: byte, capabilities: Capabilities, request: Request, s: Session,
                      first: seq<Act>, x: Result<seq<byte>, Error>, fence: seq<Act>, y: Result<seq<byte>, Error>, last: seq<Act>,
                      r: Result<seq<byte>, Error>)
    requires config.Valid() && Recovers(request.command, pending) && Trusted(config, request, x).Ok?
    requires Exchanged(config, ValidateRequest(config, connected, pending, capabilities, request), request, false, first, x)
    requires !s.connected && s.pending == CONNECT
    requires Conducted(config, s.connected, s.pending, s.capabilities, Request(SYNCH, []), fence, y)
    requires if y.Err? then last == [] && r == y
             else Plain(config, ValidateRequest(config, connected, pending, capabilities, request), request, false, last, r)
    ensures Conducted(config, connected, pending, capabilities, request, first + fence + last, r)
  {
    hide ValidateRequest;
    hide Exchanged;
    hide ParseConnect;
    SynchIsValid(config, s.capabilities);
    var valid := ValidateRequest(config, connected, pending, capabilities, request);
    var y' :| Exchanged(config, Ok(1), Request(SYNCH, []), false, fence, y') && y == Trusted(config, Request(SYNCH, []), y');
    assert y' == y;
    assert Fenced(config, valid, request, first, fence, last, r);
  }

  lemma PendingConnectIsDisconnected(config: Config, w: World, s: Session)
    requires SessionInv(config, w, s) && s.pending == CONNECT
    ensures !s.connected
  {
  }

  lemma StillKept(w: World, v: World, u: World)
    requires AnswersKept(w, v) && AnswersKept(v, u)
    ensures AnswersKept(w, u)
  {
  }

  lemma LaterKeepsAnswers(config: Config, memory: Memory, w: World, v: World)
    requires Later(config, memory, w, v)
    ensures AnswersKept(w, v)
  {
  }

  lemma MemoryContinues(memory: Memory, at: Address, n: nat, m: nat)
    ensures MemoryAt(memory, at, n + m) == MemoryAt(memory, at, n) + MemoryAt(memory, at.(value := at.value + n), m)
  {
  }

  lemma ConnectedLimits(config: Config, w: World, s: Session)
    requires SessionInv(config, w, s) && s.connected && config.Valid()
    ensures 8 <= s.capabilities.maxCTO <= config.capacity <= 64 && w.bigEndian == s.capabilities.bigEndian
  {
  }

  lemma AddressSet(config: Config, memory: Memory, w: World, address: Address, parameters: seq<byte>, data: seq<byte>, tag: nat,
                   before: Address, order: bool)
    requires OwnReply(config, w, Request(SET_MTA, parameters), data, tag) && Executed(config, memory, w, tag, before, order)
    requires address.value < 0x1_0000_0000 && parameters == [0, 0, address.extension] + Bytes32(order, address.value)
    ensures w.mta == address
  {
    hide Classify;
    AddressRoundTrip(order, address.value);
    assert parameters[3..] == Bytes32(order, address.value);
  }

  lemma Uploaded(config: Config, memory: Memory, w: World, count: nat, data: seq<byte>, tag: nat, before: Address, order: bool)
    requires count < 256 && OwnReply(config, w, Request(UPLOAD, [count]), data, tag) && |data| >= count
    requires Executed(config, memory, w, tag, before, order)
    ensures data[..count] == MemoryAt(memory, before, count) && w.mta == before.(value := before.value + count)
  {
    hide Classify;
  }

  /** The data of a response is what the ECU answered to this request. */
  ghost predicate RepliedTo(config: Config, w: World, request: Request, data: seq<byte>, tag: nat) {
    tag < |w.sent| && w.sent[tag] == request && AnsweredBy(config, w, request.command, 1, data, tag)
  }

  lemma OwnIsReplied(config: Config, w: World, request: Request, data: seq<byte>, tag: nat)
    requires OwnReply(config, w, request, data, tag)
    ensures RepliedTo(config, w, request, data, tag)
  {
  }

  lemma StillReplied(config: Config, w: World, v: World, request: Request, data: seq<byte>, tag: nat)
    requires RepliedTo(config, w, request, data, tag) && w.sent <= v.sent && AnswersKept(w, v)
    ensures RepliedTo(config, v, request, data, tag)
  {
  }

  /** The command was executed once, with the effect its reply reports. */
  ghost predicate Executed(config: Config, memory: Memory, w: World, id: nat, before: Address, order: bool) {
    && id < |w.sent| && id in w.answers
    && Compliant(config, memory, before, w.sent[id], w.answers[id])
    && w.mta == MtaAfter(config, order, before, w.sent[id], w.answers[id])
    && w.bigEndian == OrderAfter(config, order, w.sent[id], w.answers[id])
  }

  // Once the reply to the last command is in, nothing is outstanding.
  lemma Settled(config: Config, memory: Memory, w: World, u: World, s: Session, tag: nat)
    requires SessionInv(config, w, s) && SessionInv(config, u, s) && Later(config, memory, w, u) && |w.sent| > 0
    requires tag in Pipeline(w) && forall id :: id in Pipeline(u) ==> id > tag
    requires Pipeline(w) == [|w.sent| - 1] || tag + 1 == |w.sent|
    ensures tag + 1 == |u.sent| && Pipeline(u) == [] && SessionInv(config, u, s.(pending := NONE))
  {
    hide ValidWorld;
    hide SessionInv;
    hide Pipeline;
    SessionIsValid(config, w, s);
    SessionIsValid(config, u, s);
    NothingYounger(config, u, |w.sent| - 1, tag);
    NothingPending(config, u, s);
  }

  lemma NothingYounger(config: Config, w: World, last: nat, tag: nat)
    requires ValidWorld(config, w) && last + 1 == |w.sent| && tag >= last
    requires forall id :: id in Pipeline(w) ==> id > tag
    ensures Pipeline(w) == []
  {
    PipelineIsSent(config, w);
    hide Pipeline;
    HeadIsIn(Pipeline(w));
  }

  lemma NothingPending(config: Config, w: World, s: Session)
    requires SessionInv(config, w, s) && Pipeline(w) == []
    ensures SessionInv(config, w, s.(pending := NONE))
  {
    hide Pipeline;
    hide ValidWorld;
    hide Classify;
    hide ParseConnect;
  }

  lemma LastIsPending(config: Config, w: World, s: Session)
    requires SessionInv(config, w, s) && s.pending != NONE
    ensures |w.sent| > 0 && w.sent[|w.sent| - 1].command == s.pending
    ensures s.pending == SYNCH ==> w.sent[|w.sent| - 1] == Request(SYNCH, [])
  {
  }

  lemma AnyMinimum(config: Config, w: World, command: byte, minimum: nat, data: seq<byte>, tag: nat)
    requires AnsweredBy(config, w, command, minimum, data, tag) && minimum >= 1
    ensures AnsweredBy(config, w, command, 1, data, tag) && tag in w.answers
    ensures command != SYNCH ==> 1 + |data| >= minimum
  {
  }

  lemma ExecutedReply(config: Config, memory: Memory, w: World, id: nat, before: Address, order: bool)
    requires ValidWorld(config, w) && Executing(config, memory, w, id, before, order) && id in w.answers
    ensures Executed(config, memory, w, id, before, order)
  {
  }

  lemma PipelineIsSent(config: Config, w: World)
    requires ValidWorld(config, w)
    ensures forall id :: id in Pipeline(w) ==> id < |w.sent|
  {
  }

  // The session after a CONNECT whose reply is trusted.
  lemma Reconnected(config: Config, memory: Memory, u: World, s: Session, request: Request, data: seq<byte>, tag: nat, before: Address, order: bool)
    requires SessionInv(config, u, s.(pending := NONE)) && Pipeline(u) == []
    requires request.command == CONNECT && OwnReply(config, u, request, data, tag)
    requires |data| >= 7 && ParseConnect(config, data).Ok? && Executed(config, memory, u, tag, before, order)
    ensures SessionInv(config, u, Session(true, NONE, ParseConnect(config, data).value, tag))
  {
    hide Pipeline;
    hide ValidWorld;
    hide Classify;
  }

  /** The response is the reply to the last command sent, and that command is the request. */
  ghost predicate OwnReply(config: Config, w: World, request: Request, data: seq<byte>, tag: nat) {
    && tag + 1 == |w.sent| && w.sent[tag] == request
    && AnsweredBy(config, w, request.command, 1, data, tag)
  }

  lemma OwnIsLast(config: Config, w: World, request: Request, data: seq<byte>, tag: nat)
    requires OwnReply(config, w, request, data, tag)
    ensures tag + 1 == |w.sent|
  {
  }

  lemma SoleCommand(config: Config, memory: Memory, w: World, v: World, s: Session, request: Request)
    requires SessionInv(config, w, s) && s.pending == NONE && Later(config, memory, w, v) && v.c2e == []
    ensures Executing(config, memory, Accepted(v, request), |v.sent|, w.mta, w.bigEndian)
  {
    QueueIsInPipeline(w);
  }

  lemma SessionIsValid(config: Config, w: World, s: Session)
    requires SessionInv(config, w, s)
    ensures ValidWorld(config, w)
  {
  }

  // What may have happened during one wait.
  lemma {:induction false} Waited(config: Config, memory: Memory, start: World, w: World, events: seq<Event>, s: Session)
    requires SessionInv(config, w, s) && Later(config, memory, start, w)
    requires forall id, before, order :: Executing(config, memory, start, id, before, order) ==> Executing(config, memory, w, id, before, order)
    ensures var v := HappenAll(config, memory, w, events);
      && SessionInv(config, v, s) && Later(config, memory, start, v) && v.sent == start.sent && ValidWorld(config, v)
      && forall id, before, order :: Executing(config, memory, start, id, before, order) ==> Executing(config, memory, v, id, before, order)
  {
    SessionIsValid(config, w, s);
    hide ValidWorld;
    hide Executing;
    hide SessionInv;
    hide HappenAll;
    hide Pipeline;
    var v := HappenAll(config, memory, w, events);
    AllKeep(config, memory, w, events);
    LaterTransitive(config, memory, start, w, v);
    LaterKeeps(config, memory, w, v, s);
    forall id, before, order | Executing(config, memory, start, id, before, order)
      ensures Executing(config, memory, v, id, before, order)
    {
      AllExecute(config, memory, w, events, id, before, order);
    }
  }

  // Taking the captured frame at the cursor.
  lemma Taken(config: Config, memory: Memory, start: World, v: World, s: Session)
    requires SessionInv(config, v, s) && Later(config, memory, start, v) && v.inbox != []
    requires forall id, before, order :: Executing(config, memory, start, id, before, order) ==> Executing(config, memory, v, id, before, order)
    ensures var u := v.(inbox := v.inbox[1..]);
      && SessionInv(config, u, s) && Later(config, memory, start, u) && ValidWorld(config, u)
      && TrueArrival(config, v, v.inbox[0])
      && (v.inbox[0].tag.Some? ==>
            v.inbox[0].tag.value in Pipeline(start) && forall id :: id in Pipeline(u) ==> id > v.inbox[0].tag.value)
      && forall id, before, order :: Executing(config, memory, start, id, before, order) ==> Executing(config, memory, u, id, before, order)
  {
    SessionIsValid(config, v, s);
    hide ValidWorld;
    hide SessionInv;
    hide Pipeline;
    hide Classify;
    var u := v.(inbox := v.inbox[1..]);
    PopIsLater(config, memory, v);
    LaterTransitive(config, memory, start, v, u);
    LaterKeeps(config, memory, v, u, s);
    forall id, before, order | Executing(config, memory, start, id, before, order)
      ensures Executing(config, memory, u, id, before, order)
    {
      assert Executing(config, memory, v, id, before, order);
    }
  }
}
