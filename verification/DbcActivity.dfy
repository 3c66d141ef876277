/**
 * When a multiplexed signal is part of a frame, said of the declared conditions alone: every selector on its path has
 * a value inside one of the ranges declared for it (dbc/codec.go, dbc/resolve.go).
 */
module DbcActivity {
  import opened Wrappers
  import opened Frames
  import opened Bits
  import opened DbcLayout
  import opened DbcCodec

  // ---- Paths -----------------------------------------------------------------------------

  /** From a signal over its selector, the selector of that, and so on, to one without a condition. */
  ghost predicate IsPath(m: Message, path: seq<nat>) {
    && path != [] && (forall k :: 0 <= k < |path| ==> path[k] < |m.signals|)
    && (forall k :: 0 <= k < |path| - 1 ==> Selects(m, path[k + 1], path[k]))
    && m.signals[path[|path| - 1]].multiplex.None?
  }

  ghost predicate Selects(m: Message, selector: nat, index: nat) {
    && selector < |m.signals| && index < |m.signals| && m.signals[index].multiplex.Some?
    && m.signals[selector].name == m.signals[index].multiplex.value.selector
  }

  predicate InSome(ranges: seq<Range>, value: nat) {
    exists i :: 0 <= i < |ranges| && ranges[i].first <= value && value <= ranges[i].last
  }

  /** The condition of the k-th signal of the path holds. */
  ghost predicate Opens(m: Message, path: seq<nat>, k: nat, raw: map<nat, nat>)
    requires IsPath(m, path) && k < |path| - 1
  {
    assert Selects(m, path[k + 1], path[k]);
    path[k + 1] in raw && InSome(m.signals[path[k]].multiplex.value.ranges, raw[path[k + 1]])
  }

  ghost predicate AllOpen(m: Message, path: seq<nat>, raw: map<nat, nat>)
    requires IsPath(m, path)
  {
    forall k :: 0 <= k < |path| - 1 ==> Opens(m, path, k, raw)
  }

  lemma NameIsUnique(m: Message, selector: nat, index: nat)
    requires Resolved(m) && Selects(m, selector, index) && m.signals[index].multiplex.value.selector in Names(m)
    ensures Selector(m, index) == selector
  {
    NameIsFound(m.signals, |m.signals|, m.signals[index].multiplex.value.selector);
  }

  lemma TailIsPath(m: Message, path: seq<nat>)
    requires IsPath(m, path) && |path| > 1
    ensures IsPath(m, path[1..]) && Selects(m, path[1], path[0])
  {
    assert Selects(m, path[0 + 1], path[0]);
    forall k | 0 <= k < |path[1..]| - 1
      ensures Selects(m, path[1..][k + 1], path[1..][k])
    {
      assert Selects(m, path[k + 1 + 1], path[k + 1]);
    }
  }

  /** Every signal of a usable message has a path, and only one. */
  lemma {:induction false} PathOf(m: Message, index: nat, visiting: set<nat>) returns (path: seq<nat>)
    requires index < |m.signals| && SignalConstraints(m, index, visiting).Ok?
    ensures IsPath(m, path) && path[0] == index
    decreases Indices(m) - visiting
  {
    path := [index];
    if m.signals[index].multiplex.Some? {
      assert index in Indices(m) - visiting;
      NameIsFound(m.signals, |m.signals|, m.signals[index].multiplex.value.selector);
      var rest := PathOf(m, Selector(m, index), visiting + {index});
      path := [index] + rest;
      forall k | 0 <= k < |path| - 1
        ensures Selects(m, path[k + 1], path[k])
      {
        if k > 0 {
          assert Selects(m, rest[k - 1 + 1], rest[k - 1]);
        }
      }
    }
  }

  lemma {:induction false} PathIsUnique(m: Message, left: seq<nat>, right: seq<nat>)
    requires Resolved(m) && IsPath(m, left) && IsPath(m, right) && left[0] == right[0]
    ensures left == right
  {
    if |left| > 1 {
      TailIsPath(m, left);
    }
    if |right| > 1 {
      TailIsPath(m, right);
    }
    if |left| > 1 && |right| > 1 {
      PathIsUnique(m, left[1..], right[1..]);
      assert left == [left[0]] + left[1..] && right == [right[0]] + right[1..];
    }
  }

  lemma {:induction false} SuffixIsPath(m: Message, path: seq<nat>, k: nat)
    requires IsPath(m, path) && k < |path|
    ensures IsPath(m, path[k..])
    decreases k
  {
    if k == 0 {
      assert path[0..] == path;
    } else {
      SuffixIsPath(m, path, k - 1);
      TailIsPath(m, path[k - 1..]);
      assert path[k - 1..][1..] == path[k..];
    }
  }

  /** A path that ends comes by no signal twice. */
  lemma PathIsSimple(m: Message, path: seq<nat>, k: nat)
    requires Resolved(m) && IsPath(m, path) && 0 < k < |path|
    ensures path[k] != path[0]
  {
    if path[k] == path[0] {
      SuffixIsPath(m, path, k);
      PathIsUnique(m, path, path[k..]);
      assert false;
    }
  }

  lemma {:induction false} NameIsThere(signals: seq<Signal>, n: nat, i: nat)
    requires i < n <= |signals|
    ensures signals[i].name in NamesUpTo(signals, n)
  {
    if i < n - 1 {
      NameIsThere(signals, n - 1, i);
    }
  }

  lemma {:induction false} PathGrounds(m: Message, path: seq<nat>, visiting: set<nat>)
    requires Resolved(m) && IsPath(m, path) && forall k :: 0 <= k < |path| ==> path[k] !in visiting
    ensures SignalConstraints(m, path[0], visiting).Ok?
    decreases |path|
  {
    if |path| > 1 {
      TailIsPath(m, path);
      NameIsThere(m.signals, |m.signals|, path[1]);
      NameIsUnique(m, path[1], path[0]);
      forall k | 0 <= k < |path[1..]|
        ensures path[1..][k] !in visiting + {path[0]}
      {
        PathIsSimple(m, path, k + 1);
      }
      PathGrounds(m, path[1..], visiting + {path[0]});
    }
  }

  /** The selectors lead from a signal to one without a condition. */
  ghost predicate Leads(m: Message, index: nat) {
    exists path :: IsPath(m, path) && path[0] == index
  }

  lemma {:induction false} LeadsExactly(m: Message, index: nat)
    requires Resolved(m) && index < |m.signals|
    ensures SignalConstraints(m, index, {}).Ok? <==> Leads(m, index)
  {
    hide SignalConstraints;
    hide Resolved;
    if SignalConstraints(m, index, {}).Ok? {
      var path := PathOf(m, index, {});
    }
    if Leads(m, index) {
      var path :| IsPath(m, path) && path[0] == index;
      PathGrounds(m, path, {});
    }
  }

  /** The selectors of a message are usable exactly if they lead every signal to one without a condition. */
  lemma GroundableExactly(m: Message)
    requires Resolved(m)
    ensures Groundable(m) <==> forall i :: 0 <= i < |m.signals| ==> Leads(m, i)
  {
    hide SignalConstraints;
    hide Resolved;
    hide Leads;
    forall i | 0 <= i < |m.signals|
      ensures SignalConstraints(m, i, {}).Ok? <==> Leads(m, i)
    {
      LeadsExactly(m, i);
    }
  }

  // ---- Activity --------------------------------------------------------------------------

  lemma TailOpens(m: Message, path: seq<nat>, raw: map<nat, nat>)
    requires IsPath(m, path) && |path| > 1 && IsPath(m, path[1..])
    ensures AllOpen(m, path, raw) <==> Opens(m, path, 0, raw) && AllOpen(m, path[1..], raw)
  {
    forall k | 1 <= k < |path| - 1
      ensures Opens(m, path, k, raw) <==> Opens(m, path[1..], k - 1, raw)
    {
    }
    if Opens(m, path, 0, raw) && AllOpen(m, path[1..], raw) {
      forall k | 0 <= k < |path| - 1
        ensures Opens(m, path, k, raw)
      {
        assert k > 0 ==> Opens(m, path[1..], k - 1, raw);
      }
    }
    if AllOpen(m, path, raw) {
      forall k | 0 <= k < |path[1..]| - 1
        ensures Opens(m, path[1..], k, raw)
      {
        assert Opens(m, path, k + 1, raw);
      }
    }
  }

  /**
   * A signal is active exactly if all conditions on its path hold; it is found inactive exactly if the path is open
   * from its end up to a condition whose selector has a value outside its ranges, and otherwise a value is missing.
   */
  lemma {:induction false} ActiveExactly(m: Message, path: seq<nat>, raw: map<nat, nat>, visiting: set<nat>)
    requires Resolved(m) && KnownSelectors(m) && IsPath(m, path) && SignalConstraints(m, path[0], visiting).Ok?
    ensures SignalActive(m, path[0], raw, visiting) == Ok(true) <==> AllOpen(m, path, raw)
    ensures SignalActive(m, path[0], raw, visiting) == Ok(false) <==> ClosedAt(m, path, raw)
    decreases |path|
  {
    if |path| > 1 {
      TailIsPath(m, path);
      NameIsUnique(m, path[1], path[0]);
      assert path[0] in Indices(m) - visiting;
      ActiveExactly(m, path[1..], raw, visiting + {path[0]});
      TailOpens(m, path, raw);
      TailCloses(m, path, raw);
    }
  }

  /** Some condition fails on a supplied value, and all behind it hold. */
  ghost predicate ClosedAt(m: Message, path: seq<nat>, raw: map<nat, nat>)
    requires IsPath(m, path)
  {
    exists k :: 0 <= k < |path| - 1 && ClosedBy(m, path, k, raw)
  }

  ghost predicate ClosedBy(m: Message, path: seq<nat>, k: nat, raw: map<nat, nat>)
    requires IsPath(m, path) && k < |path| - 1
  {
    path[k + 1] in raw && !Opens(m, path, k, raw) && forall j :: k < j < |path| - 1 ==> Opens(m, path, j, raw)
  }

  lemma TailCloses(m: Message, path: seq<nat>, raw: map<nat, nat>)
    requires IsPath(m, path) && |path| > 1 && IsPath(m, path[1..])
    ensures ClosedAt(m, path, raw) <==>
      ClosedAt(m, path[1..], raw) || (AllOpen(m, path[1..], raw) && path[1] in raw && !Opens(m, path, 0, raw))
  {
    var tail := path[1..];
    forall k | 1 <= k < |path| - 1
      ensures Opens(m, path, k, raw) <==> Opens(m, tail, k - 1, raw)
    {
    }
    if k :| 0 <= k < |tail| - 1 && ClosedBy(m, tail, k, raw) {
      forall j | k + 1 < j < |path| - 1
        ensures Opens(m, path, j, raw)
      {
        assert Opens(m, tail, j - 1, raw);
      }
      assert ClosedBy(m, path, k + 1, raw);
    }
    if AllOpen(m, tail, raw) && path[1] in raw && !Opens(m, path, 0, raw) {
      forall j | 0 < j < |path| - 1
        ensures Opens(m, path, j, raw)
      {
        assert Opens(m, tail, j - 1, raw);
      }
      assert ClosedBy(m, path, 0, raw);
    }
    if k :| 0 <= k < |path| - 1 && ClosedBy(m, path, k, raw) {
      forall j | k - 1 < j < |tail| - 1 && j >= 0
        ensures Opens(m, tail, j, raw)
      {
        assert Opens(m, path, j + 1, raw);
      }
      assert k > 0 ==> ClosedBy(m, tail, k - 1, raw);
    }
  }

  // ---- Encode ----------------------------------------------------------------------------

  /** Every signal is supplied exactly if all conditions on its path hold. */
  ghost predicate SuppliedAsOpen(m: Message, raw: map<nat, nat>) {
    forall path :: IsPath(m, path) ==> (path[0] in raw <==> AllOpen(m, path, raw))
  }

  /** Encode accepts exactly the values of the signals whose declared conditions hold. */
  lemma EncodeAcceptsExactly(m: Message, raw: map<nat, nat>)
    requires Resolved(m) && Groundable(m) && KnownSelectors(m)
    ensures EncodeAccepts(m, raw) <==> SuppliedAsOpen(m, raw)
  {
    hide SignalActive;
    hide SignalConstraints;
    hide AllOpen;
    hide ClosedAt;
    hide Resolved;
    if EncodeAccepts(m, raw) {
      forall path | IsPath(m, path)
        ensures path[0] in raw <==> AllOpen(m, path, raw)
      {
        ActiveExactly(m, path, raw, {});
      }
    }
    if SuppliedAsOpen(m, raw) {
      forall i | 0 <= i < |m.signals|
        ensures SignalActive(m, i, raw, {}) == Ok(i in raw)
      {
        var path := PathOf(m, i, {});
        ActiveExactly(m, path, raw, {});
        SuppliedIsDecided(m, path, raw);
      }
    }
  }

  /** No selector on a path is missing where every open signal is supplied. */
  lemma {:induction false} SuppliedIsDecided(m: Message, path: seq<nat>, raw: map<nat, nat>)
    requires SuppliedAsOpen(m, raw) && IsPath(m, path)
    ensures AllOpen(m, path, raw) || ClosedAt(m, path, raw)
  {
    hide ClosedAt;
    if |path| > 1 {
      TailIsPath(m, path);
      SuppliedIsDecided(m, path[1..], raw);
      TailOpens(m, path, raw);
      TailCloses(m, path, raw);
      assert path[1..][0] in raw <==> AllOpen(m, path[1..], raw);
    }
  }

  // ---- Patch -----------------------------------------------------------------------------

  /** The value of every selector decides whether the path is open. */
  ghost predicate Decided(m: Message, path: seq<nat>, raw: map<nat, nat>)
    requires IsPath(m, path)
  {
    AllOpen(m, path, raw) || ClosedAt(m, path, raw)
  }

  /** The signal at the head of the path may be left out unless it opens, and may be given only if it is open. */
  ghost predicate ChangesAsOpen(m: Message, path: seq<nat>, before: map<nat, nat>, after: map<nat, nat>, changes: map<nat, nat>)
    requires IsPath(m, path)
  {
    && Decided(m, path, before) && Decided(m, path, after)
    && (AllOpen(m, path, after) && !AllOpen(m, path, before) ==> path[0] in changes)
    && (path[0] in changes ==> AllOpen(m, path, after))
  }

  ghost predicate PlanAcceptsSignal(m: Message, index: nat, before: map<nat, nat>, after: map<nat, nat>, changes: map<nat, nat>)
    requires KnownSelectors(m) && index < |m.signals|
  {
    && SignalActive(m, index, before, {}).Ok? && SignalActive(m, index, after, {}).Ok?
    && (SignalActive(m, index, after, {}).value && !SignalActive(m, index, before, {}).value ==> index in changes)
    && (index in changes ==> SignalActive(m, index, after, {}).value)
  }

  lemma OkIsTrueOrFalse(r: Result<bool, Error>)
    ensures r.Ok? <==> r == Ok(true) || r == Ok(false)
  {
    assert r.Ok? && r.value ==> r == Ok(true);
    assert r.Ok? && !r.value ==> r == Ok(false);
  }

  lemma PlanOfPath(m: Message, path: seq<nat>, before: map<nat, nat>, after: map<nat, nat>, changes: map<nat, nat>)
    requires Resolved(m) && Groundable(m) && KnownSelectors(m) && IsPath(m, path)
    ensures PlanAcceptsSignal(m, path[0], before, after, changes) <==> ChangesAsOpen(m, path, before, after, changes)
  {
    hide SignalActive;
    hide AllOpen;
    hide ClosedAt;
    hide Resolved;
    assert SignalConstraints(m, path[0], {}).Ok?;
    ActiveExactly(m, path, before, {});
    ActiveExactly(m, path, after, {});
    OkIsTrueOrFalse(SignalActive(m, path[0], before, {}));
    OkIsTrueOrFalse(SignalActive(m, path[0], after, {}));
  }

  lemma PlanOfSignals(m: Message, before: map<nat, nat>, after: map<nat, nat>, changes: map<nat, nat>)
    requires KnownSelectors(m)
    requires forall i :: 0 <= i < |m.signals| ==> PlanAcceptsSignal(m, i, before, after, changes)
    ensures PlanAccepts(m, before, after, changes)
  {
    hide SignalActive;
    forall i | 0 <= i < |m.signals|
      ensures SignalActive(m, i, before, {}).Ok? && SignalActive(m, i, after, {}).Ok?
      ensures SignalActive(m, i, after, {}).value && !SignalActive(m, i, before, {}).value ==> i in changes
      ensures i in changes ==> SignalActive(m, i, after, {}).value
    {
      assert PlanAcceptsSignal(m, i, before, after, changes);
    }
  }

  ghost predicate PatchesAsOpen(m: Message, data: seq<byte>, changes: map<nat, nat>)
    requires Resolved(m) && BufferFits(m, |data|)
  {
    forall path :: IsPath(m, path) ==>
      ChangesAsOpen(m, path, OldSelectors(m, data), NewSelectors(m, data, changes), changes)
  }

  /**
   * Patch accepts exactly if, on the selector values before and after the changes, every signal whose conditions come
   * to hold is given and every given signal has its conditions hold.
   */
  lemma PatchAcceptsExactly(m: Message, data: seq<byte>, changes: map<nat, nat>)
    requires Resolved(m) && BufferFits(m, |data|) && Groundable(m) && KnownSelectors(m)
    ensures PatchAccepts(m, data, changes) <==> PatchesAsOpen(m, data, changes)
  {
    hide SignalActive;
    hide SignalConstraints;
    hide OldSelectors;
    hide NewSelectors;
    hide ChangesAsOpen;
    hide Resolved;
    var (before, after) := (OldSelectors(m, data), NewSelectors(m, data, changes));
    if PatchAccepts(m, data, changes) {
      forall path | IsPath(m, path)
        ensures ChangesAsOpen(m, path, before, after, changes)
      {
        assert PlanAcceptsSignal(m, path[0], before, after, changes);
        PlanOfPath(m, path, before, after, changes);
      }
    }
    if PatchesAsOpen(m, data, changes) {
      forall i | 0 <= i < |m.signals|
        ensures PlanAcceptsSignal(m, i, before, after, changes)
      {
        var path := PathOf(m, i, {});
        assert ChangesAsOpen(m, path, before, after, changes);
        PlanOfPath(m, path, before, after, changes);
      }
      PlanOfSignals(m, before, after, changes);
    }
  }

  // ---- Decode ----------------------------------------------------------------------------

  /** The raw value of every signal that lies in the payload. */
  ghost function PayloadValues(m: Message, payload: seq<byte>): map<nat, nat> {
    map i: nat | i in Indices(m) && Available(m.signals[i], |payload|) :: RawValue(payload, m.signals[i])
  }

  lemma {:induction false} PayloadActivity(m: Message, payload: seq<byte>, index: nat, visiting: set<nat>)
    requires KnownSelectors(m) && index < |m.signals| && SignalConstraints(m, index, visiting).Ok?
    ensures SignalActiveInPayload(m, payload, index, visiting).Ok? <==>
      SignalActive(m, index, PayloadValues(m, payload), visiting).Ok?
    ensures SignalActiveInPayload(m, payload, index, visiting).Ok? ==>
      SignalActiveInPayload(m, payload, index, visiting) == SignalActive(m, index, PayloadValues(m, payload), visiting)
    ensures SignalActiveInPayload(m, payload, index, visiting).Err? ==>
      SignalActiveInPayload(m, payload, index, visiting).error == NotPresent
    decreases Indices(m) - visiting
  {
    hide Available;
    hide RawValue;
    if m.signals[index].multiplex.Some? {
      assert index in Indices(m) - visiting;
      PayloadActivity(m, payload, Selector(m, index), visiting + {index});
    }
  }

  /**
   * DecodePayload reads a signal exactly if all conditions on its path hold in the payload and its bits are there;
   * it reports it inactive exactly if a condition fails and all behind that one hold, and missing otherwise.
   */
  lemma DecodesExactly(m: Message, codec: Codec, payload: seq<byte>, path: seq<nat>)
    requires Resolved(m) && Usable(m, codec) && |payload| <= m.length && IsPath(m, path)
    ensures var (raw, s, r) :=
        (PayloadValues(m, payload), m.signals[path[0]], DecodePayload(m, codec, payload, path[0]));
      && (AllOpen(m, path, raw) && Available(s, |payload|) ==> r == Ok(RawValue(payload, s)))
      && (ClosedAt(m, path, raw) ==> r == Err(InactiveSignal))
      && (!(AllOpen(m, path, raw) && Available(s, |payload|)) && !ClosedAt(m, path, raw) ==> r == Err(NotPresent))
  {
    hide SignalActive;
    hide AllOpen;
    hide ClosedAt;
    hide Resolved;
    hide RawValue;
    hide Available;
    assert SignalConstraints(m, path[0], {}).Ok?;
    PayloadActivity(m, payload, path[0], {});
    ActiveExactly(m, path, PayloadValues(m, payload), {});
  }

  // ---- Overlap ---------------------------------------------------------------------------

  /** As the parser hands conditions over: some range, none of them empty. */
  ghost predicate Satisfiable(ranges: seq<Range>) {
    ranges != [] && forall i :: 0 <= i < |ranges| ==> ranges[i].first <= ranges[i].last
  }

  ghost predicate AllSatisfiable(m: Message) {
    forall i :: 0 <= i < |m.signals| && m.signals[i].multiplex.Some? ==> Satisfiable(m.signals[i].multiplex.value.ranges)
  }

  /** Two conditions on one selector are found to intersect exactly if some value meets both. */
  lemma IntersectExactly(left: seq<Range>, right: seq<Range>)
    requires Satisfiable(left) && Satisfiable(right)
    ensures RangesIntersect(left, right) <==> exists value :: InSome(left, value) && InSome(right, value)
  {
    if RangesIntersect(left, right) {
      var value := CommonValue(left, right);
    }
    if value :| InSome(left, value) && InSome(right, value) {
      CommonValueIntersects(left, right, value);
    }
  }

  lemma CommonValue(left: seq<Range>, right: seq<Range>) returns (value: nat)
    requires Satisfiable(left) && Satisfiable(right) && RangesIntersect(left, right)
    ensures InSome(left, value) && InSome(right, value) && (Starts(left, value) || Starts(right, value))
  {
    var i, j :| 0 <= i < |left| && 0 <= j < |right| && left[i].first <= right[j].last && right[j].first <= left[i].last;
    value := if left[i].first < right[j].first then right[j].first else left[i].first;
    assert left[i].first <= value <= left[i].last && right[j].first <= value <= right[j].last;
  }

  ghost predicate Starts(ranges: seq<Range>, value: nat) {
    exists i :: 0 <= i < |ranges| && ranges[i].first == value
  }

  lemma {:induction false} MetIsActive(m: Message, index: nat, raw: map<nat, nat>, visiting: set<nat>)
    requires index < |m.signals| && KnownSelectors(m) && SignalConstraints(m, index, visiting).Ok?
    requires Meets(SignalConstraints(m, index, visiting).value, raw)
    ensures SignalActive(m, index, raw, visiting) == Ok(true)
    decreases Indices(m) - visiting
  {
    if m.signals[index].multiplex.Some? {
      assert index in Indices(m) - visiting;
      var selector := Selector(m, index);
      var rest := SignalConstraints(m, selector, visiting + {index});
      ConstraintsAreFresh(m, selector, visiting + {index});
      assert forall k :: k in rest.value ==> SignalConstraints(m, index, visiting).value[k] == rest.value[k];
      MetIsActive(m, selector, raw, visiting + {index});
    }
  }

  /** A path comes by no selector twice, so no condition on it replaces another. */
  lemma {:induction false} ConstraintsAreFresh(m: Message, index: nat, visiting: set<nat>)
    requires index < |m.signals| && SignalConstraints(m, index, visiting).Ok?
    ensures index !in SignalConstraints(m, index, visiting).value
    ensures forall k :: k in visiting ==> k !in SignalConstraints(m, index, visiting).value
    decreases Indices(m) - visiting
  {
    if m.signals[index].multiplex.Some? {
      assert index in Indices(m) - visiting;
      ConstraintsAreFresh(m, Selector(m, index), visiting + {index});
    }
  }

  lemma {:induction false} ConstraintsAreSatisfiable(m: Message, index: nat, visiting: set<nat>)
    requires index < |m.signals| && SignalConstraints(m, index, visiting).Ok? && AllSatisfiable(m)
    ensures forall k :: k in SignalConstraints(m, index, visiting).value ==>
      Satisfiable(SignalConstraints(m, index, visiting).value[k])
    decreases Indices(m) - visiting
  {
    hide Satisfiable;
    if m.signals[index].multiplex.Some? {
      assert index in Indices(m) - visiting;
      ConstraintsAreSatisfiable(m, Selector(m, index), visiting + {index});
    }
  }

  /** Every range starts at a value its selector is wide enough for. */
  ghost predicate StartsFit(m: Message) {
    forall selector: nat, i: nat, k :: Selects(m, selector, i) && 0 <= k < |m.signals[i].multiplex.value.ranges| ==>
      m.signals[i].multiplex.value.ranges[k].first < Pow2(m.signals[selector].bitLength)
  }

  ghost predicate StartsWithin(ranges: seq<Range>, limit: nat) {
    forall k :: 0 <= k < |ranges| ==> ranges[k].first < limit
  }

  ghost predicate FitsStarts(m: Message, constraints: Constraints) {
    forall k :: k in constraints ==> k < |m.signals| && StartsWithin(constraints[k], Pow2(m.signals[k].bitLength))
  }

  lemma {:induction false} ConstraintsFit(m: Message, index: nat, visiting: set<nat>)
    requires index < |m.signals| && SignalConstraints(m, index, visiting).Ok?
    ensures StartsFit(m) ==> FitsStarts(m, SignalConstraints(m, index, visiting).value)
    decreases Indices(m) - visiting
  {
    hide Pow2;
    if m.signals[index].multiplex.Some? {
      assert index in Indices(m) - visiting;
      NameIsFound(m.signals, |m.signals|, m.signals[index].multiplex.value.selector);
      assert Selects(m, Selector(m, index), index);
      ConstraintsFit(m, Selector(m, index), visiting + {index});
    }
  }

  /** A value that meets what either side asks of the selector. */
  ghost predicate IsCommon(left: Constraints, right: Constraints, selector: nat, value: nat) {
    && (selector in left ==> InSome(left[selector], value))
    && (selector in right ==> InSome(right[selector], value))
    && ((selector in left && Starts(left[selector], value)) || (selector in right && Starts(right[selector], value)))
  }

  lemma CommonOf(left: Constraints, right: Constraints, selector: nat) returns (value: nat)
    requires ConstraintsCompatible(left, right) && (selector in left || selector in right)
    requires forall k :: k in left ==> Satisfiable(left[k])
    requires forall k :: k in right ==> Satisfiable(right[k])
    ensures IsCommon(left, right, selector, value)
  {
    if selector in left && selector in right {
      value := CommonValue(left[selector], right[selector]);
    } else {
      var ranges := if selector in left then left[selector] else right[selector];
      assert Satisfiable(ranges);
      value := ranges[0].first;
      assert InSome(ranges, value) && Starts(ranges, value);
    }
  }

  ghost function Chosen(left: Constraints, right: Constraints, selector: nat): nat {
    if value: nat :| IsCommon(left, right, selector, value) then value else 0
  }

  lemma CommonRaw(m: Message, left: Constraints, right: Constraints) returns (raw: map<nat, nat>)
    requires ConstraintsCompatible(left, right)
    requires forall k :: k in left ==> Satisfiable(left[k])
    requires forall k :: k in right ==> Satisfiable(right[k])
    ensures Meets(left, raw) && Meets(right, raw)
    ensures FitsStarts(m, left) && FitsStarts(m, right) ==> RawFits(m, raw)
  {
    hide ConstraintsCompatible;
    hide Satisfiable;
    hide Pow2;
    raw := map selector: nat | selector in left.Keys + right.Keys :: Chosen(left, right, selector);
    forall selector | selector in raw
      ensures IsCommon(left, right, selector, raw[selector])
    {
      var value := CommonOf(left, right, selector);
    }
  }

  /** Two signals whose conditions were found compatible are active together for some raw values. */
  lemma CompatibleAreActive(m: Message, codec: Codec, left: nat, right: nat) returns (raw: map<nat, nat>)
    requires Usable(m, codec) && AllSatisfiable(m) && left < |m.signals| && right < |m.signals|
    requires ConstraintsCompatible(codec.constraints[left], codec.constraints[right])
    ensures SignalActive(m, left, raw, {}) == Ok(true) && SignalActive(m, right, raw, {}) == Ok(true)
    ensures StartsFit(m) ==> RawFits(m, raw)
  {
    hide SignalActive;
    hide SignalConstraints;
    hide ConstraintsCompatible;
    hide Satisfiable;
    hide StartsFit;
    hide Pow2;
    var (a, b) := (codec.constraints[left], codec.constraints[right]);
    ConstraintsAreSatisfiable(m, left, {});
    ConstraintsAreSatisfiable(m, right, {});
    ConstraintsFit(m, left, {});
    ConstraintsFit(m, right, {});
    raw := CommonRaw(m, a, b);
    MetIsActive(m, left, raw, {});
    MetIsActive(m, right, raw, {});
  }

  ghost predicate ActiveTogether(m: Message, left: nat, right: nat, raw: map<nat, nat>)
    requires KnownSelectors(m) && left < |m.signals| && right < |m.signals|
  {
    SignalActive(m, left, raw, {}) == Ok(true) && SignalActive(m, right, raw, {}) == Ok(true)
  }

  /**
   * The overlap check compares exactly the pairs of signals that some raw values make active together; where every
   * range starts within the width of its selector, some raw values that a frame can carry.
   */
  lemma ComparedExactly(m: Message, codec: Codec, left: nat, right: nat)
    requires Usable(m, codec) && AllSatisfiable(m) && left < |m.signals| && right < |m.signals|
    ensures ConstraintsCompatible(codec.constraints[left], codec.constraints[right]) <==>
      exists raw :: ActiveTogether(m, left, right, raw)
    ensures StartsFit(m) ==>
      (ConstraintsCompatible(codec.constraints[left], codec.constraints[right]) <==>
      exists raw :: RawFits(m, raw) && ActiveTogether(m, left, right, raw))
  {
    hide SignalActive;
    hide SignalConstraints;
    hide ConstraintsCompatible;
    hide StartsFit;
    hide RawFits;
    hide AllSatisfiable;
    if ConstraintsCompatible(codec.constraints[left], codec.constraints[right]) {
      var raw := CompatibleAreActive(m, codec, left, right);
      assert ActiveTogether(m, left, right, raw);
    }
    if raw :| ActiveTogether(m, left, right, raw) {
      ActiveTogetherAreCompared(m, codec, left, right, raw);
    }
  }

  /** A message is refused for overlap exactly if two of its signals share a bit and can be active together. */
  lemma OverlapsExactly(m: Message, codec: Codec)
    requires Usable(m, codec) && AllSatisfiable(m)
    ensures NoOverlaps(m, codec.constraints) <==>
      forall left, right, raw :: 0 <= left < right < |m.signals| && ActiveTogether(m, left, right, raw) ==>
        !SharesBit(m.signals[left], m.signals[right])
  {
    hide ActiveTogether;
    hide ConstraintsCompatible;
    hide SharesBit;
    hide SignalConstraints;
    hide AllSatisfiable;
    forall left, right | 0 <= left < right < |m.signals|
      ensures ConstraintsCompatible(codec.constraints[left], codec.constraints[right]) <==>
        exists raw :: ActiveTogether(m, left, right, raw)
    {
      ComparedExactly(m, codec, left, right);
    }
    if NoOverlaps(m, codec.constraints) {
      forall left, right, raw | 0 <= left < right < |m.signals| && ActiveTogether(m, left, right, raw)
        ensures !SharesBit(m.signals[left], m.signals[right])
      {
        assert Apart(m, codec.constraints, left, right);
      }
    }
  }
}
