/**
 * Where a decoded message comes from (j1939/decoder.go): on any traffic whatsoever, a transported message is made of
 * one announcement and of data frames that its originator sent behind it, numbered from one on and in order.
 */
module J1939Provenance {
  import opened Wrappers
  import opened Frames
  import opened J1939Transport
  import opened J1939Decoder

  /** The sessions of a decoder that was fed a history. */
  ghost function Fed(history: seq<Event>): Sessions {
    if history == [] then map[] else Pushed(Fed(history[..|history| - 1]), history[|history| - 1]).sessions
  }

  // An announcement, or a control frame of the wrong size, ends the transfer its sender had open.
  predicate Restarts(event: Event, key: SessionKey) {
    && KeyOf(event) == key && event.pgn == TRANSPORT_CONTROL_PGN
    && (|event.data| != 8 || event.data[0] == BAM || event.data[0] == RTS)
  }

  /** Packet `number` of a transfer, with at least these bytes. */
  predicate Carries(event: Event, key: SessionKey, number: nat, piece: seq<byte>) {
    && KeyOf(event) == key && event.pgn == TRANSPORT_DATA_PGN && |event.data| == 8
    && event.data[0] as nat == number && piece <= event.data[1..]
  }

  function Piece(payload: seq<byte>, i: nat): seq<byte>
    requires 7 * i <= |payload|
  {
    if 7 * i + 7 <= |payload| then payload[7 * i..7 * i + 7] else payload[7 * i..]
  }

  /** The i-th of the data frames, behind the announcement, carries packet i + 1 of the payload. */
  ghost predicate Gives(history: seq<Event>, key: SessionKey, start: nat, at: nat, i: nat, payload: seq<byte>) {
    start < at < |history| && 7 * i <= |payload| && Carries(history[at], key, i + 1, Piece(payload, i))
  }

  /** The transfer announced at `start`, which no other of its sender replaced, and the frames that carried it. */
  ghost predicate Sourced(history: seq<Event>, key: SessionKey, s: Session, start: nat, frames: seq<nat>) {
    && start < |history| && history[start].time == s.startedAt && history[start].priority == s.priority
    && KeyOf(history[start]) == key && history[start].pgn == TRANSPORT_CONTROL_PGN
    && Announces(history[start], s.pgn, s.size)
    && (forall k :: start < k < |history| ==> !Restarts(history[k], key))
    && 7 * (|frames| - 1) < |s.payload| <= 7 * |frames|
    && (forall i :: 0 <= i < |frames| ==> Gives(history, key, start, frames[i], i, s.payload))
    && (forall i, j :: 0 <= i < j < |frames| ==> frames[i] < frames[j])
  }

  ghost predicate HasSource(history: seq<Event>, key: SessionKey, s: Session) {
    exists start: nat, frames: seq<nat> :: Sourced(history, key, s, start, frames)
  }

  // ---- One frame more --------------------------------------------------------------------

  lemma SourceStays(history: seq<Event>, event: Event, key: SessionKey, s: Session)
    requires HasSource(history, key, s) && !Restarts(event, key)
    ensures HasSource(history + [event], key, s)
  {
    var start: nat, frames: seq<nat> :| Sourced(history, key, s, start, frames);
    var longer := history + [event];
    forall i | 0 <= i < |frames|
      ensures Gives(longer, key, start, frames[i], i, s.payload)
    {
      assert Gives(history, key, start, frames[i], i, s.payload);
    }
    assert Sourced(longer, key, s, start, frames);
  }

  lemma SourceOpens(history: seq<Event>, event: Event, key: SessionKey, s: Session)
    requires KeyOf(event) == key && event.pgn == TRANSPORT_CONTROL_PGN && Announces(event, s.pgn, s.size)
    requires event.time == s.startedAt && event.priority == s.priority && s.payload == []
    ensures HasSource(history + [event], key, s)
  {
    assert Sourced(history + [event], key, s, |history|, []);
  }

  lemma PieceOfMore(payload: seq<byte>, more: seq<byte>, i: nat)
    requires 7 * i + 7 <= |payload| && payload <= more
    ensures Piece(more, i) == Piece(payload, i)
  {
  }

  ghost predicate GrowsTo(event: Event, key: SessionKey, s: Session, t: Session) {
    && SameTransfer(s, t) && KeyOf(event) == key && event.pgn == TRANSPORT_DATA_PGN && |event.data| == 8
    && event.data[0] as nat == s.next && 0 < Least(7, s.size - |s.payload|)
    && t.payload == s.payload + event.data[1..1 + Least(7, s.size - |s.payload|)]
  }

  lemma GivesLast(history: seq<Event>, event: Event, key: SessionKey, s: Session, t: Session, start: nat)
    requires |s.payload| == 7 * (s.next - 1) && s.next >= 1 && start < |history| && GrowsTo(event, key, s, t)
    ensures Gives(history + [event], key, start, |history|, s.next - 1, t.payload)
  {
    assert Piece(t.payload, s.next - 1) == event.data[1..1 + Least(7, s.size - |s.payload|)];
  }

  lemma GivesStill(history: seq<Event>, event: Event, key: SessionKey, start: nat, at: nat, i: nat, payload: seq<byte>, more: seq<byte>)
    requires Gives(history, key, start, at, i, payload) && 7 * i + 7 <= |payload| && payload <= more
    ensures Gives(history + [event], key, start, at, i, more)
  {
    PieceOfMore(payload, more, i);
  }

  lemma SourceGrows(history: seq<Event>, event: Event, key: SessionKey, s: Session, t: Session)
    returns (start: nat, frames: seq<nat>)
    requires HasSource(history, key, s) && ValidSession(s) && GrowsTo(event, key, s, t)
    ensures Sourced(history + [event], key, t, start, frames)
    ensures |frames| > 0 && frames[|frames| - 1] == |history|
  {
    hide Gives;
    hide Restarts;
    var before: seq<nat>;
    start, before :| Sourced(history, key, s, start, before);
    frames := before + [|history|];
    assert 7 * |before| == 7 * (s.next - 1);
    var longer := history + [event];
    forall i | 0 <= i < |frames|
      ensures Gives(longer, key, start, frames[i], i, t.payload)
      ensures i < |before| ==> frames[i] < |history|
    {
      if i < |before| {
        GivesAt(history, key, start, before[i], i, s.payload);
        GivesStill(history, event, key, start, before[i], i, s.payload, t.payload);
      } else {
        GivesLast(history, event, key, s, t, start);
      }
    }
    assert !Restarts(event, key) by {
      GrowthIsNoRestart(event, key, s, t);
    }
  }

  lemma GivesAt(history: seq<Event>, key: SessionKey, start: nat, at: nat, i: nat, payload: seq<byte>)
    requires Gives(history, key, start, at, i, payload)
    ensures start < at < |history|
  {
  }

  lemma GrowthIsNoRestart(event: Event, key: SessionKey, s: Session, t: Session)
    requires GrowsTo(event, key, s, t)
    ensures !Restarts(event, key)
  {
  }

  lemma SourceShrinks(history: seq<Event>, key: SessionKey, s: Session, t: Session, kept: nat)
    requires HasSource(history, key, s) && SameTransfer(s, t)
    requires 7 * kept <= |s.payload| && t.payload == s.payload[..7 * kept]
    ensures HasSource(history, key, t)
  {
    var start: nat, frames: seq<nat> :| Sourced(history, key, s, start, frames);
    var fewer := frames[..kept];
    forall i | 0 <= i < |fewer|
      ensures Gives(history, key, start, fewer[i], i, t.payload)
    {
      assert Gives(history, key, start, frames[i], i, s.payload);
      PieceOfMore(t.payload, s.payload, i);
    }
    assert Sourced(history, key, t, start, fewer);
  }

  lemma SourceIgnoresTimes(history: seq<Event>, key: SessionKey, s: Session, t: Session)
    requires HasSource(history, key, s) && SameTransfer(s, t) && t.payload == s.payload
    ensures HasSource(history, key, t)
  {
    var start: nat, frames: seq<nat> :| Sourced(history, key, s, start, frames);
    assert Sourced(history, key, t, start, frames);
  }

  // ---- What a frame does to one session --------------------------------------------------

  ghost predicate OpensAs(event: Event, key: SessionKey, t: Session) {
    && KeyOf(event) == key && event.pgn == TRANSPORT_CONTROL_PGN && Announces(event, t.pgn, t.size)
    && event.time == t.startedAt && event.priority == t.priority && t.payload == []
  }

  ghost predicate CutTo(event: Event, key: SessionKey, s: Session, t: Session, kept: nat) {
    SameTransfer(s, t) && !Restarts(event, key) && 7 * kept <= |s.payload| && t.payload == s.payload[..7 * kept]
  }

  ghost predicate KeepsTo(event: Event, key: SessionKey, s: Session, t: Session) {
    SameTransfer(s, t) && !Restarts(event, key) && t.payload == s.payload
  }

  ghost predicate Becomes(event: Event, key: SessionKey, s: Session, t: Session) {
    GrowsTo(event, key, s, t) || KeepsTo(event, key, s, t) || exists kept: nat :: CutTo(event, key, s, t, kept)
  }

  lemma ControlStep(sessions: Sessions, event: Event, key: SessionKey)
    requires ValidSessions(sessions) && event.pgn == TRANSPORT_CONTROL_PGN && key in PushControl(sessions, event).sessions
    ensures var t := PushControl(sessions, event).sessions[key];
      OpensAs(event, key, t) || (key in sessions && Becomes(event, key, sessions[key], t))
  {
    hide ControlPGN;
    hide ValidSession;
    var t := PushControl(sessions, event).sessions[key];
    if KeyOf(event) == key && Restarts(event, key) {
      PacketsIsLeast(t.size, event.data[3]);
    } else if key in sessions && t == sessions[key] {
      assert KeepsTo(event, key, sessions[key], t);
    } else {
      GrantStep(sessions, event, key);
    }
  }

  lemma GrantStep(sessions: Sessions, event: Event, key: SessionKey)
    requires ValidSessions(sessions) && event.pgn == TRANSPORT_CONTROL_PGN && key in PushControl(sessions, event).sessions
    requires !Restarts(event, key) && !(key in sessions && PushControl(sessions, event).sessions[key] == sessions[key])
    ensures key in sessions && Becomes(event, key, sessions[key], PushControl(sessions, event).sessions[key])
  {
    hide ControlPGN;
    hide TransportSize;
    assert |event.data| == 8 && event.data[0] == CTS;
    var (s, t) := (sessions[key], PushControl(sessions, event).sessions[key]);
    var next: nat := event.data[2];
    assert ValidSession(s);
    if event.data[1] == 0 {
      assert KeepsTo(event, key, s, t);
    } else {
      RetransmissionIsInBounds(s, next);
      assert CutTo(event, key, s, t, next - 1);
    }
  }

  lemma SessionStep(sessions: Sessions, event: Event, key: SessionKey)
    requires ValidSessions(sessions) && key in Pushed(sessions, event).sessions
    ensures var t := Pushed(sessions, event).sessions[key];
      OpensAs(event, key, t) || (key in sessions && Becomes(event, key, sessions[key], t))
  {
    hide PushControl;
    hide ValidSession;
    var live := Unexpired(sessions, event);
    var t := Pushed(sessions, event).sessions[key];
    if event.pgn == TRANSPORT_CONTROL_PGN {
      ControlStep(live, event, key);
    } else if key in live && t == live[key] {
      assert KeepsTo(event, key, sessions[key], t);
    } else {
      assert ValidSession(live[key]);
      DataStep(live, event, key);
    }
  }

  lemma DataStep(sessions: Sessions, event: Event, key: SessionKey)
    requires key in sessions && ValidSession(sessions[key]) && event.pgn == TRANSPORT_DATA_PGN
    requires key in PushData(sessions, event).sessions && PushData(sessions, event).sessions[key] != sessions[key]
    ensures GrowsTo(event, key, sessions[key], PushData(sessions, event).sessions[key])
  {
  }

  lemma SourceIsThere(history: seq<Event>, key: SessionKey, s: Session, start: nat, frames: seq<nat>)
    requires Sourced(history, key, s, start, frames)
    ensures HasSource(history, key, s)
  {
  }

  lemma SourceFollows(history: seq<Event>, event: Event, key: SessionKey, s: Session, t: Session)
    requires HasSource(history, key, s) && ValidSession(s) && Becomes(event, key, s, t)
    ensures HasSource(history + [event], key, t)
  {
    hide HasSource;
    if GrowsTo(event, key, s, t) {
      var start, frames := SourceGrows(history, event, key, s, t);
      assert HasSource(history + [event], key, t) by {
        SourceIsThere(history + [event], key, t, start, frames);
      }
    } else if KeepsTo(event, key, s, t) {
      SourceIgnoresTimes(history, key, s, t);
      SourceStays(history, event, key, t);
    } else {
      var kept: nat :| CutTo(event, key, s, t, kept);
      SourceShrinks(history, key, s, t, kept);
      SourceStays(history, event, key, t);
    }
  }

  // ---- Any traffic -----------------------------------------------------------------------

  ghost predicate AllSourced(history: seq<Event>, sessions: Sessions) {
    forall key :: key in sessions ==> HasSource(history, key, sessions[key])
  }

  lemma {:induction false} SessionsAreSourced(history: seq<Event>)
    ensures ValidSessions(Fed(history)) && AllSourced(history, Fed(history))
  {
    hide ValidSession;
    hide Pushed;
    hide HasSource;
    hide Becomes;
    if history != [] {
      var (before, event) := (history[..|history| - 1], history[|history| - 1]);
      assert before + [event] == history;
      SessionsAreSourced(before);
      PushKeepsValid(Fed(before), event);
      forall key | key in Fed(history)
        ensures HasSource(history, key, Fed(history)[key])
      {
        SessionStep(Fed(before), event, key);
        var t := Fed(history)[key];
        if OpensAs(event, key, t) {
          SourceOpens(before, event, key, t);
        } else {
          SourceFollows(before, event, key, Fed(before)[key], t);
        }
      }
    }
  }

  /** The announcement and the frames a message is made of; the last of them is the one that completes it. */
  ghost predicate MadeOf(history: seq<Event>, m: Message, start: nat, frames: seq<nat>) {
    && start < |history| && history[start].time == m.startedAt && history[start].priority == m.priority
    && KeyOf(history[start]) == m.key && history[start].pgn == TRANSPORT_CONTROL_PGN
    && Announces(history[start], m.pgn, |m.payload|)
    && (forall k :: start < k < |history| ==> !Restarts(history[k], m.key))
    && |frames| == Packets(|m.payload|) > 0
    && (forall i :: 0 <= i < |frames| ==> Gives(history, m.key, start, frames[i], i, m.payload))
    && (forall i, j :: 0 <= i < j < |frames| ==> frames[i] < frames[j])
    && frames[|frames| - 1] == |history| - 1 && history[|history| - 1].time == m.completedAt
  }

  /**
   * Whatever a decoder has seen: every transported message it emits was announced with its group and size, and each
   * of its bytes was carried by the data frame of the right number, behind that announcement and in order.
   */
  lemma {:induction false} MessagesAreSourced(history: seq<Event>, event: Event)
    requires event.pgn == TRANSPORT_DATA_PGN && Pushed(Fed(history), event).message.Some?
    ensures exists start: nat, frames: seq<nat> ::
      MadeOf(history + [event], Pushed(Fed(history), event).message.value, start, frames)
  {
    hide HasSource;
    hide Pushed;
    hide ValidSession;
    hide GrowsTo;
    hide Gives;
    hide Restarts;
    hide Announces;
    SessionsAreSourced(history);
    var (sessions, m) := (Fed(history), Pushed(Fed(history), event).message.value);
    CompletingFrame(sessions, event);
    var s := sessions[m.key];
    var start, frames := SourceGrows(history, event, m.key, s, s.(payload := m.payload));
    PacketsIsLeast(|m.payload|, |frames|);
    assert MadeOf(history + [event], m, start, frames);
  }

  lemma CompletingFrame(sessions: Sessions, event: Event)
    requires ValidSessions(sessions) && event.pgn == TRANSPORT_DATA_PGN && Pushed(sessions, event).message.Some?
    ensures var m := Pushed(sessions, event).message.value;
      && m.key in sessions && m.completedAt == event.time
      && var s := sessions[m.key];
      && ValidSession(s) && GrowsTo(event, m.key, s, s.(payload := m.payload))
      && m.pgn == s.pgn && m.priority == s.priority && m.startedAt == s.startedAt && |m.payload| == s.size
  {
    assert ValidSession(sessions[KeyOf(event)]);
  }
}
