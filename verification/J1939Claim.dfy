/**
 * Address claiming (j1939/client.go; section 4 of SAE J1939-81): any number of clients with different
 * NAMEs contend for one address on a bus that delivers every frame to all others in the same order.
 * They may open at any time and handle what they have seen as late as they like.
 */
module J1939Claim {
  import opened Wrappers

  // The frames that matter here. Claim carries the contended address, CannotClaim the null address;
  // Traffic is anything else sent from the contended address.
  datatype Frame = Claim(name: nat) | CannotClaim(name: nat) | Request | Traffic

  // `busy`: a transport session is open. `cursor` is how much of the bus traffic has been handled.
  // `lostAt` is the length of the traffic when the address was lost.
  datatype Node = Node(name: nat, live: bool, claiming: bool, claimed: bool, cannot: bool, busy: bool, cursor: nat, lostAt: Option<nat>)

  datatype Sent = Sent(sender: nat, frame: Frame)

  function NewNode(name: nat): Node {
    Node(name, false, false, false, false, false, 0, None)
  }

  /** handle: what a received frame does, and what is sent in answer. */
  function OnFrame(n: Node, frame: Frame, now: nat): (r: (Node, seq<Frame>))
    ensures r.0.name == n.name && r.0.live == n.live && r.0.cursor == n.cursor
  {
    match frame
    case Claim(name) =>
      if name == n.name || !(n.claiming || n.claimed) then (n, [])
      else if name < n.name then
        (n.(claiming := false, claimed := false, busy := false, cannot := true, lostAt := Some(now)), [])
      else (n, [Claim(n.name)])
    case CannotClaim(_) => (n, [])
    case Request =>
      if n.claimed || n.claiming then (n, [Claim(n.name)]) else (n.(cannot := true), [])
    case Traffic => (n, [])
  }

  /** The claim state of a client, changed in place. */
  class ClaimState {
    const name: nat
    var claiming: bool
    var claimed: bool
    var cannot: bool
    var busy: bool
    ghost var cursor: nat
    ghost var lostAt: Option<nat>

    ghost function View(): Node
      reads this
    {
      Node(name, true, claiming, claimed, cannot, busy, cursor, lostAt)
    }

    constructor (name: nat, ghost cursor: nat)
      ensures View() == NewNode(name).(live := true, claiming := true, cursor := cursor)
    {
      this.name := name;
      claiming, claimed, cannot, busy := true, false, false, false;
      this.cursor, lostAt := cursor, None;
    }

    method LoseAddress(ghost now: nat)
      modifies this
      ensures View() == old(View()).(claiming := false, claimed := false, busy := false, cannot := true, lostAt := Some(now))
    {
      claimed := false;
      claiming := false;
      busy := false;
      cannot := true;
      lostAt := Some(now);
    }

    method Handle(frame: Frame, ghost now: nat) returns (reply: seq<Frame>)
      modifies this
      ensures (View(), reply) == OnFrame(old(View()), frame, now)
    {
      reply := [];
      match frame {
        case Claim(other) =>
          if other != name && (claiming || claimed) {
            if other < name {
              LoseAddress(now);
            } else {
              reply := [Claim(name)];
            }
          }
        case CannotClaim(_) =>
        case Request =>
          if claimed || claiming {
            reply := [Claim(name)];
          } else if !cannot {
            cannot := true;
          }
        case Traffic =>
      }
    }
  }

  datatype System = System(nodes: seq<Node>, log: seq<Sent>)

  function Wraps(sender: nat, frames: seq<Frame>): (entries: seq<Sent>)
    ensures |entries| == |frames| && forall k :: 0 <= k < |frames| ==> entries[k] == Sent(sender, frames[k])
  {
    seq(|frames|, k requires 0 <= k < |frames| => Sent(sender, frames[k]))
  }

  function With(s: System, i: nat, n: Node, frames: seq<Frame>): System
    requires i < |s.nodes|
  {
    System(s.nodes[i := n], s.log + Wraps(i, frames))
  }

  // ---- Steps -----------------------------------------------------------------------------

  ghost predicate Init(s: System) {
    && s.log == [] && (forall i :: 0 <= i < |s.nodes| ==> s.nodes[i] == NewNode(s.nodes[i].name))
    && (forall i, j :: 0 <= i < j < |s.nodes| ==> s.nodes[i].name != s.nodes[j].name)
  }

  /** The first claim of the run loop; Open has taken the cursor before, and more may have been sent since. */
  ghost predicate OpensFrom(s: System, t: System, i: nat, cursor: nat) {
    && i < |s.nodes| && !s.nodes[i].live && cursor <= |s.log|
    && t == With(s, i, s.nodes[i].(live := true, claiming := true, cursor := cursor), [Claim(s.nodes[i].name)])
  }

  ghost predicate Opens(s: System, t: System, i: nat) {
    exists cursor :: OpensFrom(s, t, i, cursor)
  }

  ghost predicate Handles(s: System, t: System, i: nat) {
    && i < |s.nodes| && s.nodes[i].live && s.nodes[i].cursor < |s.log|
    && var n := s.nodes[i];
    var entry := s.log[n.cursor];
    if entry.sender == i && !entry.frame.Request? then t == With(s, i, n.(cursor := n.cursor + 1), [])
    else t == With(s, i, OnFrame(n, entry.frame, |s.log|).0.(cursor := n.cursor + 1), OnFrame(n, entry.frame, |s.log|).1)
  }

  /** completeClaim: the quiet period is over. */
  ghost predicate Completes(s: System, t: System, i: nat) {
    && i < |s.nodes| && s.nodes[i].claiming
    && t == With(s, i, s.nodes[i].(claiming := false, claimed := true), [])
  }

  ghost predicate TellsCannotClaim(s: System, t: System, i: nat) {
    && i < |s.nodes| && s.nodes[i].cannot
    && t == With(s, i, s.nodes[i].(cannot := false), [CannotClaim(s.nodes[i].name)])
  }

  // startSend refuses unless the address is claimed; an open session sends and answers until it ends.
  ghost predicate SendsTraffic(s: System, t: System, i: nat, busy: bool) {
    && i < |s.nodes| && (s.nodes[i].claimed || s.nodes[i].busy)
    && t == With(s, i, s.nodes[i].(busy := busy), [Traffic])
  }

  // A request for claims, by a client or by anybody else on the bus.
  ghost predicate Requests(s: System, t: System, sender: nat) {
    && (sender < |s.nodes| ==> s.nodes[sender].claimed)
    && t == s.(log := s.log + [Sent(sender, Request)])
  }

  ghost predicate NodeStep(s: System, t: System, i: nat) {
    || Opens(s, t, i) || Handles(s, t, i) || Completes(s, t, i) || TellsCannotClaim(s, t, i)
    || SendsTraffic(s, t, i, true) || SendsTraffic(s, t, i, false) || Requests(s, t, i)
  }

  ghost predicate Step(s: System, t: System) {
    exists i :: NodeStep(s, t, i)
  }

  // ---- Invariant -------------------------------------------------------------------------

  predicate Contending(n: Node) {
    n.live && n.lostAt.None?
  }

  /** From position `from` on, the traffic holds a claim by somebody else with a lower NAME. */
  ghost predicate LowerClaimAhead(log: seq<Sent>, from: nat, self: nat, name: nat) {
    exists k :: from <= k < |log| && log[k].sender != self && log[k].frame.Claim? && log[k].frame.name < name
  }

  ghost predicate ClaimAhead(log: seq<Sent>, from: nat, sender: nat) {
    exists k :: from <= k < |log| && log[k].sender == sender && log[k].frame.Claim?
  }

  // Of two contending clients, the one with the higher NAME has yet to learn of a lower one, or the
  // other has yet to see its claim, and will answer it.
  ghost predicate Settling(s: System, i: nat, j: nat)
    requires i < |s.nodes| && j < |s.nodes|
  {
    LowerClaimAhead(s.log, s.nodes[j].cursor, j, s.nodes[j].name) || ClaimAhead(s.log, s.nodes[i].cursor, j)
  }

  ghost predicate ValidNode(s: System, i: nat)
    requires i < |s.nodes|
  {
    var n := s.nodes[i];
    && n.cursor <= |s.log|
    && (!n.live ==> n == NewNode(n.name))
    && (Contending(n) ==> n.claiming || n.claimed)
    && (n.claiming || n.claimed ==> n.live && n.lostAt.None?)
    && (n.busy ==> n.claimed)
    && (n.lostAt.Some? ==> n.lostAt.value <= |s.log| && forall k :: n.lostAt.value <= k < |s.log| && s.log[k].sender == i ==> s.log[k].frame.CannotClaim?)
  }

  // A claim carries the NAME of its sender.
  ghost predicate TrueClaims(s: System) {
    forall k :: 0 <= k < |s.log| && s.log[k].frame.Claim? ==>
      s.log[k].sender < |s.nodes| && s.nodes[s.log[k].sender].live && s.log[k].frame.name == s.nodes[s.log[k].sender].name
  }

  // Whoever has lost the address has lost it to a lower NAME that is still there.
  ghost predicate LostToLower(s: System) {
    forall i :: 0 <= i < |s.nodes| && s.nodes[i].lostAt.Some? ==>
      exists j :: 0 <= j < |s.nodes| && s.nodes[j].live && s.nodes[j].name < s.nodes[i].name
  }

  ghost predicate PairSettles(s: System, i: nat, j: nat)
    requires i < |s.nodes| && j < |s.nodes|
  {
    Contending(s.nodes[i]) && Contending(s.nodes[j]) && s.nodes[i].name < s.nodes[j].name ==> Settling(s, i, j)
  }

  ghost predicate Inv(s: System) {
    && (forall i, j :: 0 <= i < j < |s.nodes| ==> s.nodes[i].name != s.nodes[j].name)
    && (forall i :: 0 <= i < |s.nodes| ==> ValidNode(s, i))
    && TrueClaims(s) && LostToLower(s)
    && (forall i, j :: 0 <= i < |s.nodes| && 0 <= j < |s.nodes| ==> PairSettles(s, i, j))
  }

  // ---- Every step keeps it ---------------------------------------------------------------

  lemma LaterClaims(log: seq<Sent>, more: seq<Sent>, from: nat, self: nat, name: nat)
    ensures LowerClaimAhead(log, from, self, name) ==> LowerClaimAhead(log + more, from, self, name)
    ensures ClaimAhead(log, from, self) ==> ClaimAhead(log + more, from, self)
  {
    if LowerClaimAhead(log, from, self, name) {
      var k :| from <= k < |log| && log[k].sender != self && log[k].frame.Claim? && log[k].frame.name < name;
      assert (log + more)[k] == log[k];
    }
    if ClaimAhead(log, from, self) {
      var k :| from <= k < |log| && log[k].sender == self && log[k].frame.Claim?;
      assert (log + more)[k] == log[k];
    }
  }

  // Where neither cursor moves, a pair keeps settling whatever else is sent.
  lemma PairKeeps(s: System, t: System, i: nat, j: nat)
    requires i < |s.nodes| == |t.nodes| && j < |s.nodes| && s.log <= t.log
    requires t.nodes[i].cursor == s.nodes[i].cursor && t.nodes[j].cursor == s.nodes[j].cursor
    requires t.nodes[i].name == s.nodes[i].name && t.nodes[j].name == s.nodes[j].name
    requires Contending(t.nodes[i]) ==> Contending(s.nodes[i])
    requires Contending(t.nodes[j]) ==> Contending(s.nodes[j])
    requires PairSettles(s, i, j)
    ensures PairSettles(t, i, j)
  {
    assert t.log == s.log + t.log[|s.log|..];
    LaterClaims(s.log, t.log[|s.log|..], s.nodes[j].cursor, j, s.nodes[j].name);
    LaterClaims(s.log, t.log[|s.log|..], s.nodes[i].cursor, j, 0);
  }

  lemma OpenSettles(s: System, t: System, i: nat, a: nat, b: nat)
    requires Inv(s) && Opens(s, t, i) && a < |s.nodes| && b < |s.nodes|
    ensures PairSettles(t, a, b)
  {
    assert ValidNode(s, a) && ValidNode(s, b) && PairSettles(s, a, b);
    assert t.log[|s.log|] == Sent(i, Claim(s.nodes[i].name));
    if a != i && b != i {
      PairKeeps(s, t, a, b);
    }
  }

  lemma HandleSettles(s: System, t: System, i: nat, a: nat, b: nat)
    requires Inv(s) && Handles(s, t, i) && a < |s.nodes| && b < |s.nodes|
    ensures PairSettles(t, a, b)
  {
    assert ValidNode(s, a) && ValidNode(s, b) && PairSettles(s, a, b);
    var n := s.nodes[i];
    var entry := s.log[n.cursor];
    assert t.log == s.log + t.log[|s.log|..];
    if a != i && b != i {
      PairKeeps(s, t, a, b);
    } else if Contending(t.nodes[a]) && Contending(t.nodes[b]) && t.nodes[a].name < t.nodes[b].name {
      if b == i {
        LaterClaims(s.log, t.log[|s.log|..], s.nodes[a].cursor, b, 0);
        LaterClaims(s.log, t.log[|s.log|..], n.cursor + 1, b, n.name);
      } else {
        LaterClaims(s.log, t.log[|s.log|..], s.nodes[b].cursor, b, s.nodes[b].name);
        LaterClaims(s.log, t.log[|s.log|..], n.cursor + 1, b, 0);
        if entry.sender == b && entry.frame.Claim? {
          assert entry.frame.name == s.nodes[b].name;
          assert t.log[|s.log|] == Sent(i, Claim(n.name));
        }
      }
    }
  }

  lemma OnlySends(s: System, t: System, i: nat, n: Node, frames: seq<Frame>, k: nat)
    requires i < |s.nodes| && t == With(s, i, n, frames) && |s.log| <= k < |t.log|
    ensures t.log[k].sender == i && t.log[k].frame in frames
  {
    assert t.log[k] == Wraps(i, frames)[k - |s.log|];
  }

  // What a node may send: claims and traffic only while it contends, and claims under its own name.
  ghost predicate Proper(n: Node, frames: seq<Frame>) {
    forall k :: 0 <= k < |frames| ==>
      && (!frames[k].CannotClaim? ==> Contending(n))
      && (frames[k].Claim? ==> frames[k].name == n.name)
  }

  lemma WithKeepsNodes(s: System, t: System, i: nat, n: Node, frames: seq<Frame>)
    requires Inv(s) && i < |s.nodes| && t == With(s, i, n, frames)
    requires n.name == s.nodes[i].name && n.live && Proper(n, frames)
    requires n.cursor <= |s.log| && (s.nodes[i].lostAt.Some? ==> n.lostAt == s.nodes[i].lostAt)
    requires n.lostAt.Some? && s.nodes[i].lostAt.None? ==> n.lostAt == Some(|s.log|) && frames == []
    requires (n.claiming || n.claimed <==> Contending(n)) && (n.busy ==> n.claimed)
    ensures forall j :: 0 <= j < |t.nodes| ==> ValidNode(t, j)
    ensures TrueClaims(t)
  {
    forall k | |s.log| <= k < |t.log|
      ensures t.log[k].sender == i && t.log[k].frame in frames
    {
      OnlySends(s, t, i, n, frames, k);
    }
    forall j | 0 <= j < |t.nodes|
      ensures ValidNode(t, j)
    {
      assert ValidNode(s, j);
    }
  }

  lemma NamesStay(s: System, t: System)
    requires LostToLower(s) && |t.nodes| == |s.nodes|
    requires forall i :: 0 <= i < |s.nodes| ==> t.nodes[i].name == s.nodes[i].name && (s.nodes[i].live ==> t.nodes[i].live)
    requires forall i :: 0 <= i < |s.nodes| && t.nodes[i].lostAt.Some? && s.nodes[i].lostAt.None? ==>
      exists j :: 0 <= j < |s.nodes| && s.nodes[j].live && s.nodes[j].name < s.nodes[i].name
    ensures LostToLower(t)
  {
    forall i | 0 <= i < |t.nodes| && t.nodes[i].lostAt.Some?
      ensures exists j :: 0 <= j < |t.nodes| && t.nodes[j].live && t.nodes[j].name < t.nodes[i].name
    {
      var j :| 0 <= j < |s.nodes| && s.nodes[j].live && s.nodes[j].name < s.nodes[i].name;
      assert t.nodes[j].live;
    }
  }

  lemma OpenKeeps(s: System, t: System, i: nat)
    requires Inv(s) && Opens(s, t, i)
    ensures Inv(t)
  {
    assert ValidNode(s, i);
    WithKeepsNodes(s, t, i, t.nodes[i], [Claim(s.nodes[i].name)]);
    NamesStay(s, t);
    forall a, b | 0 <= a < |t.nodes| && 0 <= b < |t.nodes|
      ensures PairSettles(t, a, b)
    {
      OpenSettles(s, t, i, a, b);
    }
  }

  lemma HandleKeeps(s: System, t: System, i: nat)
    requires Inv(s) && Handles(s, t, i)
    ensures Inv(t)
  {
    assert ValidNode(s, i);
    var n := s.nodes[i];
    var entry := s.log[n.cursor];
    var frames := if entry.sender == i && !entry.frame.Request? then [] else OnFrame(n, entry.frame, |s.log|).1;
    WithKeepsNodes(s, t, i, t.nodes[i], frames);
    NamesStay(s, t);
    forall a, b | 0 <= a < |t.nodes| && 0 <= b < |t.nodes|
      ensures PairSettles(t, a, b)
    {
      HandleSettles(s, t, i, a, b);
    }
  }

  // Steps that leave the cursor and the contention of the node alone.
  lemma QuietKeeps(s: System, t: System, i: nat, n: Node, frames: seq<Frame>)
    requires Inv(s) && i < |s.nodes| && s.nodes[i].live && t == With(s, i, n, frames) && Proper(n, frames)
    requires n == s.nodes[i].(claiming := n.claiming, claimed := n.claimed, cannot := n.cannot, busy := n.busy)
    requires (n.claiming || n.claimed <==> Contending(n)) && (n.busy ==> n.claimed)
    ensures Inv(t)
  {
    assert ValidNode(s, i);
    WithKeepsNodes(s, t, i, n, frames);
    NamesStay(s, t);
    forall a, b | 0 <= a < |t.nodes| && 0 <= b < |t.nodes|
      ensures PairSettles(t, a, b)
    {
      assert PairSettles(s, a, b);
      PairKeeps(s, t, a, b);
    }
  }

  lemma RequestKeeps(s: System, t: System, sender: nat)
    requires Inv(s) && Requests(s, t, sender)
    ensures Inv(t)
  {
    hide Settling;
    NamesStay(s, t);
    forall j | 0 <= j < |t.nodes|
      ensures ValidNode(t, j)
    {
      assert ValidNode(s, j);
    }
    forall a, b | 0 <= a < |t.nodes| && 0 <= b < |t.nodes|
      ensures PairSettles(t, a, b)
    {
      assert PairSettles(s, a, b);
      PairKeeps(s, t, a, b);
    }
  }

  lemma StepKeeps(s: System, t: System)
    requires Inv(s) && Step(s, t)
    ensures Inv(t)
  {
    hide Opens;
    hide Handles;
    hide Requests;
    var i :| NodeStep(s, t, i);
    if Opens(s, t, i) {
      OpenKeeps(s, t, i);
    } else if Handles(s, t, i) {
      HandleKeeps(s, t, i);
    } else if Requests(s, t, i) {
      RequestKeeps(s, t, i);
    } else {
      OtherKeeps(s, t, i);
    }
  }

  lemma OtherKeeps(s: System, t: System, i: nat)
    requires Inv(s)
    requires Completes(s, t, i) || TellsCannotClaim(s, t, i) || SendsTraffic(s, t, i, true) || SendsTraffic(s, t, i, false)
    ensures Inv(t)
  {
    assert ValidNode(s, i);
    if Completes(s, t, i) {
      QuietKeeps(s, t, i, t.nodes[i], []);
    } else if TellsCannotClaim(s, t, i) {
      QuietKeeps(s, t, i, t.nodes[i], [CannotClaim(s.nodes[i].name)]);
    } else {
      QuietKeeps(s, t, i, t.nodes[i], [Traffic]);
    }
  }

  ghost predicate Run(run: seq<System>) {
    && |run| > 0 && Init(run[0])
    && forall k :: 0 <= k < |run| - 1 ==> Step(run[k], run[k + 1])
  }

  lemma {:induction false} RunKeeps(run: seq<System>, k: nat)
    requires Run(run) && k < |run|
    ensures Inv(run[k])
  {
    hide Inv;
    hide Step;
    if k == 0 {
      InitKeeps(run[0]);
    } else {
      RunKeeps(run, k - 1);
      assert Step(run[k - 1], run[k - 1 + 1]);
      StepKeeps(run[k - 1], run[k]);
    }
  }

  lemma InitKeeps(s: System)
    requires Init(s)
    ensures Inv(s)
  {
  }

  // ---- What arbitration achieves ---------------------------------------------------------

  ghost predicate Lowest(s: System, i: nat)
    requires i < |s.nodes|
  {
    s.nodes[i].live && forall j :: 0 <= j < |s.nodes| && s.nodes[j].live ==> s.nodes[i].name <= s.nodes[j].name
  }

  ghost predicate Quiescent(s: System) {
    forall i :: 0 <= i < |s.nodes| && s.nodes[i].live ==> s.nodes[i].cursor == |s.log|
  }

  lemma {:induction false} SomeLowest(s: System, i: nat) returns (m: nat)
    requires i < |s.nodes| && s.nodes[i].live
    ensures m < |s.nodes| && Lowest(s, m)
    decreases s.nodes[i].name
  {
    if Lowest(s, i) {
      return i;
    }
    var j :| 0 <= j < |s.nodes| && s.nodes[j].live && s.nodes[j].name < s.nodes[i].name;
    m := SomeLowest(s, j);
  }

  lemma NothingAhead(s: System, i: nat, j: nat)
    requires i < |s.nodes| && j < |s.nodes| && s.nodes[i].cursor == |s.log| && s.nodes[j].cursor == |s.log|
    ensures !Settling(s, i, j)
  {
  }

  /** On every run, once all traffic has been handled, exactly the lowest NAME has not lost the address, and claims it. */
  lemma LowestNameWins(run: seq<System>, i: nat)
    requires Run(run) && Quiescent(run[|run| - 1]) && i < |run[|run| - 1].nodes| && run[|run| - 1].nodes[i].live
    ensures run[|run| - 1].nodes[i].lostAt.None? <==> Lowest(run[|run| - 1], i)
    ensures run[|run| - 1].nodes[i].claimed || run[|run| - 1].nodes[i].claiming <==> Lowest(run[|run| - 1], i)
  {
    var s := run[|run| - 1];
    RunKeeps(run, |run| - 1);
    hide Run;
    assert ValidNode(s, i);
    var m := SomeLowest(s, i);
    hide ValidNode;
    if s.nodes[i].lostAt.None? && m != i {
      assert s.nodes[m].lostAt.None?;
      assert PairSettles(s, m, i);
      NothingAhead(s, m, i);
    }
  }

  /**
   * On every run, whatever a client has put on the bus since it lost the address is a Cannot Claim, and
   * in every step traffic other than claims comes from a client that has claimed the address and not lost it.
   */
  lemma LosersStaySilent(run: seq<System>, i: nat)
    requires Run(run) && i < |run[|run| - 1].nodes|
    ensures var s := run[|run| - 1];
      && (s.nodes[i].lostAt.Some? ==>
            forall k :: s.nodes[i].lostAt.value <= k < |s.log| && s.log[k].sender == i ==> s.log[k].frame.CannotClaim?)
      && forall t, busy :: SendsTraffic(s, t, i, busy) ==> s.nodes[i].claimed && s.nodes[i].lostAt.None?
  {
    RunKeeps(run, |run| - 1);
    assert ValidNode(run[|run| - 1], i);
  }

  // ---- Requests --------------------------------------------------------------------------

  /** A client owes the bus word of itself: it has seen a request, or has just lost the address. */
  ghost predicate Owes(s: System, t: System, i: nat) {
    && Handles(s, t, i)
    && (s.log[s.nodes[i].cursor].frame.Request? || (s.nodes[i].lostAt.None? && t.nodes[i].lostAt.Some?))
  }

  // It has claimed the address or said that it cannot since then, or is about to say so.
  ghost predicate Told(s: System, i: nat, from: nat) {
    && i < |s.nodes|
    && (s.nodes[i].cannot || exists k :: from <= k < |s.log| && s.log[k].sender == i && (s.log[k].frame.Claim? || s.log[k].frame.CannotClaim?))
  }

  lemma OwingIsTold(s: System, t: System, i: nat)
    requires Inv(s) && Owes(s, t, i)
    ensures Told(t, i, |s.log|)
  {
    assert ValidNode(s, i);
    var n := s.nodes[i];
    var entry := s.log[n.cursor];
    if entry.frame.Request? && (n.claimed || n.claiming) {
      assert t.log[|s.log|] == Sent(i, Claim(n.name));
    }
  }

  lemma StepGrows(s: System, t: System, j: nat)
    requires NodeStep(s, t, j)
    ensures s.log <= t.log && |s.nodes| == |t.nodes|
  {
  }

  lemma CannotFades(s: System, t: System, j: nat, i: nat)
    requires NodeStep(s, t, j) && i < |s.nodes| && ValidNode(s, i) && s.nodes[i].cannot && !t.nodes[i].cannot
    ensures |s.log| < |t.log| && t.log[|s.log|] == Sent(i, CannotClaim(s.nodes[i].name))
  {
    StepGrows(s, t, j);
    assert i == j && TellsCannotClaim(s, t, i);
  }

  lemma ToldStays(s: System, t: System, i: nat, from: nat)
    requires Inv(s) && Step(s, t) && Told(s, i, from) && from <= |s.log|
    ensures Told(t, i, from) && |s.log| <= |t.log|
  {
    assert ValidNode(s, i);
    hide Inv;
    hide NodeStep;
    hide ValidNode;
    var j :| NodeStep(s, t, j);
    StepGrows(s, t, j);
    if !t.nodes[i].cannot {
      if s.nodes[i].cannot {
        CannotFades(s, t, j, i);
      } else {
        var k :| from <= k < |s.log| && s.log[k].sender == i && (s.log[k].frame.Claim? || s.log[k].frame.CannotClaim?);
        assert t.log[k] == s.log[k];
      }
    }
  }

  /** On every run, each request a client handles, and the loss of its address, is followed by a word of it. */
  lemma {:induction false} RequestsAreAnswered(run: seq<System>, m: nat, n: nat, i: nat)
    requires Run(run) && m < n < |run| && Owes(run[m], run[m + 1], i)
    ensures Told(run[n], i, |run[m].log|) && |run[m].log| <= |run[n].log|
  {
    hide Inv;
    hide Told;
    hide NodeStep;
    if n == m + 1 {
      RunKeeps(run, m);
      OwingIsTold(run[m], run[n], i);
      HandlingLengthens(run[m], run[n], i);
    } else {
      RequestsAreAnswered(run, m, n - 1, i);
      RunKeeps(run, n - 1);
      assert Step(run[n - 1], run[n - 1 + 1]);
      ToldStays(run[n - 1], run[n], i, |run[m].log|);
    }
  }

  lemma HandlingLengthens(s: System, t: System, i: nat)
    requires Handles(s, t, i)
    ensures |s.log| <= |t.log|
  {
  }
}
