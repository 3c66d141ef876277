/**
 * A command that goes well (xcp/command.go): the bus takes it, the ECU executes it and answers, and whatever else is
 * captured meanwhile leaves the client waiting for that answer.
 */
module XcpAnswered {
  import opened Wrappers
  import opened Frames
  import opened XcpPackets
  import opened XcpReplies
  import opened XcpWorld
  import opened XcpSession
  import opened XcpClient

  /** The frames arrive one by one, then the ECU's reply does. */
  function Arrivals(frames: seq<Frame>, reply: Frame): (script: seq<Batch>)
    ensures |script| == |frames| + 1
  {
    if frames == [] then [Batch([Answer(reply, false), Capture], true)]
    else [Batch([Noise(frames[0]), Capture], true)] + Arrivals(frames[1..], reply)
  }

  ghost predicate Unsolicited(config: Config, command: byte, frames: seq<Frame>) {
    forall i :: 0 <= i < |frames| ==>
      Passed(config, command, frames[i]) && !Classify(config, frames[i]).Positive? && !Classify(config, frames[i]).ErrorReply?
  }

  lemma {:induction false} ReplaySplit(config: Config, memory: Memory, w: World, script: seq<Batch>, left: seq<Act>, right: seq<Act>)
    ensures var (u, rest, faithful) := Replay(config, memory, w, script, left);
      var (v, tail, same) := Replay(config, memory, u, rest, right);
      Replay(config, memory, w, script, left + right) == (v, tail, faithful && same)
  {
    hide Played;
    if right == [] {
      assert left + right == left;
    } else {
      var last := |right| - 1;
      ReplaySplit(config, memory, w, script, left, right[..last]);
      assert left + right == (left + right[..last]) + [right[last]];
      ReplayNext(config, memory, w, script, left + right[..last], right[last]);
    }
  }

  lemma {:induction false} ReplayFirst(config: Config, memory: Memory, w: World, script: seq<Batch>, acts: seq<Act>)
    requires acts != [] && Replay(config, memory, w, script, acts).2
    ensures var (u, rest, same) := Played(config, memory, w, script, acts[0]);
      same && Replay(config, memory, u, rest, acts[1..]).2
  {
    hide Played;
    ReplaySplit(config, memory, w, script, acts[..1], acts[1..]);
    assert acts == acts[..1] + acts[1..];
    assert Replay(config, memory, w, script, []) == (w, script, true);
    assert [] + [acts[0]] == acts[..1];
    ReplayNext(config, memory, w, script, [], acts[0]);
  }

  // Nothing is on its way but one command that the ECU has yet to execute.
  ghost predicate Outstanding(w: World, id: nat) {
    w.inbox == [] && w.e2c == [] && w.c2e == [id] && id < |w.sent|
  }

  lemma {:induction false} NoiseArrives(config: Config, memory: Memory, w: World, id: nat, frame: Frame)
    requires Outstanding(w, id) && !Classify(config, frame).Positive? && !Classify(config, frame).ErrorReply?
    ensures HappenAll(config, memory, w, [Noise(frame), Capture]) == w.(inbox := [Arrival(frame, None)])
  {
    hide Classify;
    var heard := Happen(config, memory, w, Noise(frame));
    assert [Noise(frame), Capture][1..] == [Capture];
    assert HappenAll(config, memory, heard, [Capture]) == HappenAll(config, memory, Happen(config, memory, heard, Capture), []);
    assert heard.e2c == [Arrival(frame, None)] && heard.e2c[1..] == [];
  }

  lemma {:induction false} ReplyArrives(config: Config, memory: Memory, w: World, id: nat, reply: Frame)
    requires Outstanding(w, id) && Compliant(config, memory, w.mta, w.sent[id], reply)
    ensures HappenAll(config, memory, w, [Answer(reply, false), Capture]).inbox == [Arrival(reply, Some(id))]
  {
    hide Classify;
    hide MtaAfter;
    hide OrderAfter;
    hide Compliant;
    var heard := Happen(config, memory, w, Answer(reply, false));
    assert [Answer(reply, false), Capture][1..] == [Capture];
    assert HappenAll(config, memory, heard, [Capture]) == HappenAll(config, memory, Happen(config, memory, heard, Capture), []);
    assert heard.e2c == [Arrival(reply, Some(id))] && heard.e2c[1..] == [];
  }

  /** The wait goes past everything unsolicited and ends with what the reply means. */
  lemma {:induction false} Hears(config: Config, memory: Memory, w: World, id: nat, frames: seq<Frame>, reply: Frame, rest: seq<Batch>,
                                 minimum: nat, waits: seq<Act>, r: Result<seq<byte>, Error>)
    requires Outstanding(w, id) && Compliant(config, memory, w.mta, w.sent[id], reply)
    requires Unsolicited(config, w.sent[id].command, frames) && !Passed(config, w.sent[id].command, reply)
    requires Received(config, w.sent[id].command, minimum, waits, r)
    requires Replay(config, memory, w, Arrivals(frames, reply) + rest, waits).2
    ensures r == Outcome(config, w.sent[id].command, minimum, reply)
  {
    hide Replay;
    hide Passed;
    hide Outcome;
    hide Compliant;
    hide HappenAll;
    var script := Arrivals(frames, reply) + rest;
    ReplayFirst(config, memory, w, script, waits);
    assert |waits| > 1 ==> waits[..|waits| - 1][0] == waits[0];
    if frames == [] {
      ReplyArrives(config, memory, w, id, reply);
      assert script[0] == Batch([Answer(reply, false), Capture], true);
      assert waits[0].frame == Some(reply);
    } else {
      NoiseArrives(config, memory, w, id, frames[0]);
      assert script[0] == Batch([Noise(frames[0]), Capture], true);
      assert script[1..] == Arrivals(frames[1..], reply) + rest;
      var heard := w.(inbox := [Arrival(frames[0], None)]);
      assert heard.(inbox := heard.inbox[1..]) == w;
      assert waits[0].frame == Some(frames[0]);
      assert |waits| > 1;
      ReceivedLater(config, w.sent[id].command, minimum, waits, r);
      Hears(config, memory, w, id, frames[1..], reply, rest, minimum, waits[1..], r);
    }
  }

  lemma ReceivedLater(config: Config, command: byte, minimum: nat, waits: seq<Act>, r: Result<seq<byte>, Error>)
    requires Received(config, command, minimum, waits, r) && |waits| > 1
    ensures Received(config, command, minimum, waits[1..], r)
  {
    var (all, later) := (waits[..|waits| - 1], waits[1..]);
    forall i | 0 <= i < |later| - 1
      ensures later[i].Waiting? && later[i].frame.Some? && Passed(config, command, later[i].frame.value)
    {
      assert all[i + 1] == later[i];
    }
  }

  /**
   * Do, where it goes well: an idle session sends a request that may be sent, and returns the reply that the ECU gives
   * to it, however much unsolicited traffic is captured before.
   */
  method AnsweredDo(client: Client, request: Request, minimum: nat, frames: seq<Frame>, reply: Frame, ghost rest: seq<Batch>)
    returns (r: Result<seq<byte>, Error>)
    requires client.Valid() && client.pending == NONE && request.command != SYNCH && request.command != CONNECT
    requires ValidateRequest(client.config, client.connected, NONE, client.capabilities, request) == Ok(minimum)
    requires client.channel.world.e2c == []
    requires client.channel.script == [Batch([], true)] + (Arrivals(frames, reply) + rest)
    requires Unsolicited(client.config, request.command, frames)
    requires Compliant(client.config, client.channel.memory, client.channel.world.mta, request, reply)
    requires Replies(client.config, minimum, reply)
    modifies client, client.channel
    ensures r == Ok(reply.data[1..])
  {
    hide Replay;
    hide SessionInv;
    hide ValidWorld;
    hide Pipeline;
    hide Compliant;
    hide Unsolicited;
    ghost var (w, script, log) := (client.channel.world, client.channel.script, client.channel.log);
    ghost var channel := client.channel;
    ghost var acts;
    ghost var tag;
    IdleQueue(client.config, w, client.View());
    r, tag, acts := client.Do(request);
    ReplaySplit(channel.config, channel.memory, NOTHING_YET, channel.prepared, log, acts);
    AnswerReturned(channel.config, channel.memory, w, request, minimum, frames, reply, rest, acts, r);
  }

  lemma IdleQueue(config: Config, w: World, s: Session)
    requires SessionInv(config, w, s) && s.pending == NONE
    ensures w.c2e == []
  {
  }

  lemma {:induction false} AnswerReturned(config: Config, memory: Memory, w: World, request: Request, minimum: nat, frames: seq<Frame>, reply: Frame,
                       rest: seq<Batch>, acts: seq<Act>, r: Result<seq<byte>, Error>)
    requires w.e2c == [] && w.c2e == [] && request.command != SYNCH && request.command != CONNECT
    requires Exchanged(config, Ok(minimum), request, false, acts, r)
    requires Replay(config, memory, w, [Batch([], true)] + (Arrivals(frames, reply) + rest), acts).2
    requires Unsolicited(config, request.command, frames) && Compliant(config, memory, w.mta, request, reply)
    requires Replies(config, minimum, reply)
    ensures r == Ok(reply.data[1..])
  {
    hide Replay;
    hide Compliant;
    hide Unsolicited;
    hide Received;
    var script := [Batch([], true)] + (Arrivals(frames, reply) + rest);
    ReplayFirst(config, memory, w, script, acts);
    var u := Accepted(w, request);
    assert script[1..] == Arrivals(frames, reply) + rest;
    assert u.sent[|w.sent|] == request && Outstanding(u, |w.sent|);
    Hears(config, memory, u, |w.sent|, frames, reply, rest, minimum, acts[1..], r);
  }
}
