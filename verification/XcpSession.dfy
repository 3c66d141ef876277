/**
 * The session of an XCP client against its surroundings (xcp/command.go, xcp/xcp.go): what the pending
 * command, the connection flag and the cached capabilities say about commands in flight.
 */
module XcpSession {
  import opened Wrappers
  import opened Frames
  import opened XcpPackets
  import opened XcpWorld

  // `capsFrom` is the command whose reply the cached capabilities were read from.
  datatype Session = Session(connected: bool, pending: byte, capabilities: Capabilities, capsFrom: nat)

  // Commands that leave the session as it is.
  predicate Quiet(command: byte) {
    Known(command) && command != CONNECT && command != DISCONNECT
  }

  /** The cached capabilities are those of the last CONNECT sent, and nothing since has touched the session. */
  ghost predicate FromLastConnect(config: Config, w: World, s: Session) {
    && s.capsFrom < |w.sent| && w.sent[s.capsFrom].command == CONNECT && s.capsFrom in w.answers
    && var packet := Classify(config, w.answers[s.capsFrom]);
    && packet.Positive? && |packet.data| >= 7 && ParseConnect(config, packet.data) == Ok(s.capabilities)
    && (forall j :: s.capsFrom < j < |w.sent| ==> Quiet(w.sent[j].command))
    && (forall id :: id in Pipeline(w) ==> id > s.capsFrom)
    && w.bigEndian == s.capabilities.bigEndian
  }

  /** At most one SYNCH is unanswered, and while it is, nothing has been sent after it. */
  ghost predicate OneSynch(w: World, pending: byte) {
    forall id :: id in Pipeline(w) && id < |w.sent| && w.sent[id].command == SYNCH ==> pending == SYNCH && id == |w.sent| - 1
  }

  ghost predicate SessionInv(config: Config, w: World, s: Session) {
    && ValidWorld(config, w)
    && (s.pending == NONE ==> Pipeline(w) == [])
    && (s.pending != NONE ==> |w.sent| > 0 && w.sent[|w.sent| - 1].command == s.pending)
    && (s.pending == SYNCH ==> w.sent[|w.sent| - 1] == Request(SYNCH, []))
    && OneSynch(w, s.pending)
    && (s.pending == CONNECT || s.pending == DISCONNECT ==> !s.connected)
    && (s.connected ==> FromLastConnect(config, w, s))
  }

  function AcceptedSession(s: Session, request: Request): Session {
    s.(pending := request.command, connected := s.connected && Quiet(request.command))
  }

  lemma {:induction false} LaterKeeps(config: Config, memory: Memory, w: World, v: World, s: Session)
    requires SessionInv(config, w, s) && ValidWorld(config, v) && Later(config, memory, w, v)
    ensures SessionInv(config, v, s)
  {
    hide Pipeline;
    hide ParseConnect;
    hide Classify;
    hide Increasing;
    hide TrueArrival;
    hide Known;
    HeadIsIn(Pipeline(v));
    if s.connected {
      QueueIsInPipeline(w);
    }
  }

  lemma HeadIsIn(ids: seq<nat>)
    ensures ids == [] || ids[0] in ids
  {
  }

  lemma QueueIsInPipeline(w: World)
    ensures forall id :: id in w.c2e ==> id in Pipeline(w)
    ensures Pipeline(w) == [] ==> w.c2e == []
  {
  }

  /** Moving the cursor to the end of the capture forgets captured replies, and nothing else. */
  lemma ResetIsLater(config: Config, memory: Memory, w: World)
    requires ValidWorld(config, w)
    ensures ValidWorld(config, w.(inbox := [])) && Later(config, memory, w, w.(inbox := []))
    ensures Pipeline(w.(inbox := [])) == Tags(w.e2c) + w.c2e
  {
    hide Tags;
    hide Classify;
    var v := w.(inbox := []);
    TagsConcat(w.inbox, w.e2c);
    assert [] + w.e2c == w.e2c;
    assert Pipeline(w) == Tags(w.inbox) + Pipeline(v);
    forall i | 0 <= i < |v.inbox + v.e2c|
      ensures TrueArrival(config, v, (v.inbox + v.e2c)[i])
    {
      assert TrueArrival(config, w, (w.inbox + w.e2c)[|w.inbox| + i]);
    }
    IncreasingSuffix(Tags(w.inbox), Pipeline(v), |w.sent|);
  }

  lemma IncreasingSuffix(left: seq<nat>, right: seq<nat>, limit: nat)
    requires Increasing(left + right, limit)
    ensures Increasing(right, limit)
    ensures forall a, b :: a in left && b in right ==> a < b
  {
    var all := left + right;
    forall i, j | 0 <= i < j < |right|
      ensures right[i] < right[j]
    {
      assert all[|left| + i] < all[|left| + j];
    }
    forall i | 0 <= i < |right|
      ensures right[i] < limit
    {
      assert all[|left| + i] < limit;
    }
    forall a, b | a in left && b in right
      ensures a < b
    {
      var i :| 0 <= i < |left| && left[i] == a;
      var j :| 0 <= j < |right| && right[j] == b;
      assert all[i] < all[|left| + j];
    }
  }

  /** Taking the next captured frame: if it is a reply, everything still in flight is younger. */
  lemma PopIsLater(config: Config, memory: Memory, w: World)
    requires ValidWorld(config, w) && w.inbox != []
    ensures var rest := w.(inbox := w.inbox[1..]);
      && ValidWorld(config, rest) && Later(config, memory, w, rest)
      && TrueArrival(config, w, w.inbox[0])
      && (w.inbox[0].tag.Some? ==> w.inbox[0].tag.value in Pipeline(w) && forall id :: id in Pipeline(rest) ==> id > w.inbox[0].tag.value)
  {
    hide Tags;
    hide Classify;
    var rest := w.(inbox := w.inbox[1..]);
    PopPipeline(w);
    var head := match w.inbox[0].tag case Some(id) => [id] case None => [];
    IncreasingSuffix(head, Pipeline(rest), |w.sent|);
    assert TrueArrival(config, w, (w.inbox + w.e2c)[0]);
    forall i | 0 <= i < |rest.inbox + rest.e2c|
      ensures TrueArrival(config, rest, (rest.inbox + rest.e2c)[i])
    {
      assert TrueArrival(config, w, (w.inbox + w.e2c)[i + 1]);
    }
  }

  lemma IncreasingSnoc(ids: seq<nat>, limit: nat)
    requires Increasing(ids, limit)
    ensures Increasing(ids + [limit], limit + 1)
  {
  }

  lemma AcceptedPipeline(config: Config, w: World, request: Request)
    requires ValidWorld(config, w)
    ensures ValidWorld(config, Accepted(w, request))
    ensures Pipeline(Accepted(w, request)) == Pipeline(w.(inbox := [])) + [|w.sent|]
    ensures forall id :: id in Pipeline(w.(inbox := [])) ==> id in Pipeline(w) && id < |w.sent|
  {
    hide Tags;
    hide Classify;
    hide Increasing;
    ResetIsLater(config, _ => 0, w);
    var (v, a) := (w.(inbox := []), Accepted(w, request));
    assert Pipeline(a) == Pipeline(v) + [|w.sent|];
    IncreasingSnoc(Pipeline(v), |w.sent|);
    InsideLimit(Pipeline(v), |w.sent|);
    forall i | 0 <= i < |a.inbox + a.e2c|
      ensures TrueArrival(config, a, (a.inbox + a.e2c)[i])
    {
      assert TrueArrival(config, v, (v.inbox + v.e2c)[i]);
    }
  }

  lemma InsideLimit(ids: seq<nat>, limit: nat)
    requires Increasing(ids, limit)
    ensures forall id :: id in ids ==> id < limit
  {
  }

  lemma AcceptedIds(config: Config, w: World, request: Request, id: nat)
    requires ValidWorld(config, w) && id in Pipeline(Accepted(w, request))
    ensures id == |w.sent| || (id < |w.sent| && id in Pipeline(w) && Accepted(w, request).sent[id] == w.sent[id])
  {
    hide Pipeline;
    hide ValidWorld;
    AcceptedPipeline(config, w, request);
  }

  lemma AcceptKeepsSynch(config: Config, w: World, s: Session, request: Request)
    requires ValidWorld(config, w) && OneSynch(w, s.pending) && s.pending != SYNCH
    ensures OneSynch(Accepted(w, request), request.command)
  {
    hide Pipeline;
    hide ValidWorld;
    forall id | id in Pipeline(Accepted(w, request)) && id < |w.sent| + 1 && Accepted(w, request).sent[id].command == SYNCH
      ensures request.command == SYNCH && id == |w.sent|
    {
      AcceptedIds(config, w, request, id);
    }
  }

  lemma AcceptKeepsCapabilities(config: Config, w: World, s: Session, request: Request)
    requires ValidWorld(config, w) && FromLastConnect(config, w, s) && Quiet(request.command)
    ensures FromLastConnect(config, Accepted(w, request), AcceptedSession(s, request))
  {
    hide Pipeline;
    hide ValidWorld;
    hide ParseConnect;
    hide Classify;
    hide Known;
    forall id | id in Pipeline(Accepted(w, request))
      ensures id > s.capsFrom
    {
      AcceptedIds(config, w, request, id);
    }
  }

  predicate IsSynch(w: World, id: nat) {
    id < |w.sent| && w.sent[id].command == SYNCH
  }

  // No two SYNCH are ever unanswered at once.
  ghost predicate SingleSynch(w: World) {
    forall left, right :: left in Pipeline(w) && right in Pipeline(w) && IsSynch(w, left) && IsSynch(w, right) ==> left == right
  }

  lemma AtMostOneSynch(config: Config, w: World, s: Session)
    requires SessionInv(config, w, s)
    ensures SingleSynch(w)
  {
    InsideLimit(Pipeline(w), |w.sent|);
    hide ValidWorld;
    hide Pipeline;
    hide FromLastConnect;
  }

  /**
   * Accepting a command that validateRequest lets through keeps the session right. The only command
   * that follows an unanswered SYNCH is that SYNCH, and it is not sent again.
   */
  lemma AcceptKeeps(config: Config, w: World, s: Session, request: Request)
    requires SessionInv(config, w, s) && ValidateRequest(config, s.connected, s.pending, s.capabilities, request).Ok?
    requires !(request.command == SYNCH && s.pending == SYNCH)
    ensures SessionInv(config, Accepted(w, request), AcceptedSession(s, request))
    ensures s.pending == NONE ==> Pipeline(Accepted(w, request)) == [|w.sent|] && w.c2e == []
    ensures SingleSynch(Accepted(w, request))
  {
    hide Pipeline;
    hide ValidWorld;
    hide ParseConnect;
    hide Classify;
    hide OneSynch;
    hide FromLastConnect;
    hide SingleSynch;
    AcceptedPipeline(config, w, request);
    QueueIsInPipeline(w);
    AcceptKeepsSynch(config, w, s, request);
    if s.connected && Quiet(request.command) {
      AcceptKeepsCapabilities(config, w, s, request);
    }
    var kept := Pipeline(w.(inbox := []));
    assert kept != [] ==> kept[0] in kept;
    AtMostOneSynch(config, Accepted(w, request), AcceptedSession(s, request));
  }

  /** The marker can only be the reply to the last command sent, and then nothing is left in flight. */
  lemma MarkerEmptiesPipeline(config: Config, w: World, s: Session)
    requires SessionInv(config, w, s) && w.inbox != [] && Marker(Classify(config, w.inbox[0].frame))
    ensures s.pending == SYNCH && w.inbox[0].tag == Some(|w.sent| - 1)
    ensures Pipeline(w.(inbox := w.inbox[1..])) == []
  {
    hide Pipeline;
    hide Tags;
    hide Classify;
    PopIsLater(config, _ => 0, w);
    var rest := Pipeline(w.(inbox := w.inbox[1..]));
    HeadIsIn(rest);
  }
}
