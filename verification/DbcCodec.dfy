/**
 * The DBC message codec on raw values: compilation, activity under a tree of multiplexors, Encode,
 * Patch and DecodePayload (dbc/codec.go).
 */
module DbcCodec {
  import opened Wrappers
  import opened Frames
  import opened Bits
  import opened BitWalk
  import opened DbcLayout

  datatype Error =
    | TooWide
    | NotScaled
    | UnknownSelector
    | MultiplexerCycle
    | SelectorNotUnsigned
    | Overlap
    | MissingMultiplexor
    | MissingSignal
    | InactiveSignal
    | PayloadTooLong
    | NotPresent

  datatype Message = Message(signals: seq<Signal>, length: nat)

  type Constraints = map<nat, seq<Range>>

  datatype Codec = Codec(
    signalsByName: map<string, nat>,
    constraints: seq<Constraints>,
    selectors: seq<bool>,
    err: Option<Error>,
    writeErr: Option<Error>)

  /** What Parse established before compiling: laid-out signals under distinct names. */
  ghost predicate Resolved(m: Message) {
    && 8 * m.length <= DbcLayout.UINT32_LIMIT
    && (forall i :: 0 <= i < |m.signals| ==> LaidOut(m.length, m.signals[i]))
    && (forall i, j :: 0 <= i < j < |m.signals| ==> m.signals[i].name != m.signals[j].name)
  }

  // ---- Selectors -------------------------------------------------------------------------

  function NamesUpTo(signals: seq<Signal>, n: nat): (names: map<string, nat>)
    requires n <= |signals|
  {
    if n == 0 then map[] else NamesUpTo(signals, n - 1)[signals[n - 1].name := n - 1]
  }

  lemma {:induction false} NamesStart(signals: seq<Signal>)
    ensures NamesUpTo(signals, 0) == map[]
  {
  }

  lemma NamesNext(signals: seq<Signal>, n: nat)
    requires n < |signals|
    ensures NamesUpTo(signals, n + 1) == NamesUpTo(signals, n)[signals[n].name := n]
  {
  }

  lemma {:induction false} NameIsFound(signals: seq<Signal>, n: nat, name: string)
    requires n <= |signals| && name in NamesUpTo(signals, n)
    ensures NamesUpTo(signals, n)[name] < n && signals[NamesUpTo(signals, n)[name]].name == name
  {
    if signals[n - 1].name != name {
      NameIsFound(signals, n - 1, name);
    }
  }

  function Names(m: Message): map<string, nat> {
    NamesUpTo(m.signals, |m.signals|)
  }

  function IndicesUpTo(n: nat): (indices: set<nat>)
    ensures forall i: nat :: i in indices <==> i < n
  {
    if n == 0 then {} else IndicesUpTo(n - 1) + {n - 1}
  }

  function Indices(m: Message): set<nat> {
    IndicesUpTo(|m.signals|)
  }

  predicate RangesContain(ranges: seq<Range>, value: nat) {
    exists i :: 0 <= i < |ranges| && ranges[i].first <= value <= ranges[i].last
  }

  predicate RangesIntersect(left: seq<Range>, right: seq<Range>) {
    exists i, j :: 0 <= i < |left| && 0 <= j < |right| && left[i].first <= right[j].last && right[j].first <= left[i].last
  }

  predicate ConstraintsCompatible(left: Constraints, right: Constraints) {
    forall selector :: selector in left && selector in right ==> RangesIntersect(left[selector], right[selector])
  }

  function Selector(m: Message, index: nat): (selector: nat)
    requires index < |m.signals| && m.signals[index].multiplex.Some? && m.signals[index].multiplex.value.selector in Names(m)
    ensures selector < |m.signals|
  {
    NameIsFound(m.signals, |m.signals|, m.signals[index].multiplex.value.selector);
    Names(m)[m.signals[index].multiplex.value.selector]
  }

  function SignalConstraints(m: Message, index: nat, visiting: set<nat>): (r: Result<Constraints, Error>)
    requires index < |m.signals|
    decreases Indices(m) - visiting
  {
    if index in visiting then Err(MultiplexerCycle)
    else match m.signals[index].multiplex
      case None => Ok(map[])
      case Some(condition) =>
        if condition.selector !in Names(m) then Err(UnknownSelector)
        else
          assert index in Indices(m) - visiting;
          var selector := Selector(m, index);
          var constraints :- SignalConstraints(m, selector, visiting + {index});
          Ok(constraints[selector := condition.ranges])
  }

  ghost predicate KnownSelectors(m: Message) {
    forall i :: 0 <= i < |m.signals| && m.signals[i].multiplex.Some? ==> m.signals[i].multiplex.value.selector in Names(m)
  }

  function SignalActive(m: Message, index: nat, raw: map<nat, nat>, visiting: set<nat>): (r: Result<bool, Error>)
    requires index < |m.signals| && KnownSelectors(m)
    decreases Indices(m) - visiting
  {
    if m.signals[index].multiplex.None? then Ok(true)
    else if index in visiting then Err(MultiplexerCycle)
    else
      assert index in Indices(m) - visiting;
      var selector := Selector(m, index);
      var selectorActive :- SignalActive(m, selector, raw, visiting + {index});
      if !selectorActive then Ok(false)
      else if selector !in raw then Err(MissingMultiplexor)
      else Ok(RangesContain(m.signals[index].multiplex.value.ranges, raw[selector]))
  }

  // The recursion has no guard of its own: it ends because compilation found no cycle, which the
  // ghost set witnesses.
  function SignalActiveInPayload(m: Message, payload: seq<byte>, index: nat, ghost visiting: set<nat>): (r: Result<bool, Error>)
    requires index < |m.signals| && SignalConstraints(m, index, visiting).Ok?
    decreases Indices(m) - visiting
  {
    if m.signals[index].multiplex.None? then Ok(true)
    else
      assert index in Indices(m) - visiting;
      var selector := Selector(m, index);
      var active :- SignalActiveInPayload(m, payload, selector, visiting + {index});
      if !active then Ok(false)
      else if !Available(m.signals[selector], |payload|) then Err(NotPresent)
      else Ok(RangesContain(m.signals[index].multiplex.value.ranges, RawValue(payload, m.signals[selector])))
  }

  // ---- Compilation -----------------------------------------------------------------------

  ghost predicate Narrow(m: Message) {
    forall i :: 0 <= i < |m.signals| ==> m.signals[i].bitLength <= 64
  }

  ghost predicate Groundable(m: Message) {
    forall i :: 0 <= i < |m.signals| ==> SignalConstraints(m, i, {}).Ok?
  }

  ghost predicate Apart(m: Message, constraints: seq<Constraints>, left: nat, right: nat)
    requires |constraints| == |m.signals| && left < |m.signals| && right < |m.signals|
  {
    ConstraintsCompatible(constraints[left], constraints[right]) ==> !SharesBit(m.signals[left], m.signals[right])
  }

  ghost predicate NoOverlaps(m: Message, constraints: seq<Constraints>)
    requires |constraints| == |m.signals|
  {
    forall left, right :: 0 <= left < right < |m.signals| ==> Apart(m, constraints, left, right)
  }

  ghost predicate Usable(m: Message, codec: Codec) {
    && Narrow(m) && Groundable(m) && KnownSelectors(m)
    && codec.signalsByName == Names(m)
    && |codec.selectors| == |m.signals| == |codec.constraints|
    && (forall i :: 0 <= i < |m.signals| ==>
          codec.selectors[i] == m.signals[i].isMultiplexer && SignalConstraints(m, i, {}) == Ok(codec.constraints[i]))
  }

  ghost predicate Writable(m: Message, codec: Codec) {
    && Usable(m, codec)
    && (forall i :: 0 <= i < |m.signals| ==>
          m.signals[i].scaled && (m.signals[i].isMultiplexer ==> m.signals[i].unsignedInteger))
    && NoOverlaps(m, codec.constraints)
  }

  ghost predicate AllScaled(m: Message, n: nat)
    requires n <= |m.signals|
  {
    forall i :: 0 <= i < n ==> m.signals[i].scaled
  }

  ghost predicate SelectorsUnsigned(m: Message, n: nat)
    requires n <= |m.signals|
  {
    forall i :: 0 <= i < n && m.signals[i].isMultiplexer ==> m.signals[i].unsignedInteger
  }

  method CompileMessageCodec(m: Message) returns (codec: Codec)
    requires Resolved(m)
    ensures codec.err.None? <==> Narrow(m) && Groundable(m)
    ensures codec.err.None? ==> Usable(m, codec) && (codec.writeErr.None? <==> Writable(m, codec))
  {
    hide NamesUpTo;
    hide SignalConstraints;
    hide LaidOut;
    var wide, names, selectors, writeErr := IndexSignals(m);
    if wide {
      return Codec(names, [], selectors, Some(TooWide), writeErr);
    }
    var constraints := CollectConstraints(m);
    if constraints.Err? {
      return Codec(names, [], selectors, Some(constraints.error), writeErr);
    }
    GroundableKnowsSelectors(m);
    var index := 0;
    while index < |m.signals|
      invariant 0 <= index <= |m.signals|
      invariant writeErr.None? <==> AllScaled(m, |m.signals|) && SelectorsUnsigned(m, index)
    {
      if selectors[index] && !m.signals[index].unsignedInteger && writeErr.None? {
        writeErr := Some(SelectorNotUnsigned);
      }
      index := index + 1;
    }
    var apart := ValidateOverlaps(m, constraints.value);
    if !apart && writeErr.None? {
      writeErr := Some(Overlap);
    }
    codec := Codec(names, constraints.value, selectors, None, writeErr);
  }

  method IndexSignals(m: Message)
    returns (wide: bool, names: map<string, nat>, selectors: seq<bool>, writeErr: Option<Error>)
    ensures wide <==> !Narrow(m)
    ensures !wide ==>
      && names == Names(m) && |selectors| == |m.signals|
      && (forall i :: 0 <= i < |m.signals| ==> selectors[i] == m.signals[i].isMultiplexer)
      && (writeErr.None? <==> AllScaled(m, |m.signals|))
  {
    hide NamesUpTo;
    assert NamesUpTo(m.signals, 0) == map[] by {
      NamesStart(m.signals);
    }
    names, selectors, writeErr := map[], [], None;
    var index := 0;
    while index < |m.signals|
      invariant 0 <= index <= |m.signals|
      invariant names == NamesUpTo(m.signals, index)
      invariant |selectors| == index && forall i :: 0 <= i < index ==> selectors[i] == m.signals[i].isMultiplexer
      invariant forall i :: 0 <= i < index ==> m.signals[i].bitLength <= 64
      invariant writeErr.None? <==> AllScaled(m, index)
    {
      if m.signals[index].bitLength > 64 {
        return true, names, selectors, writeErr;
      }
      NamesNext(m.signals, index);
      names := names[m.signals[index].name := index];
      selectors := selectors + [m.signals[index].isMultiplexer];
      if writeErr.None? && !m.signals[index].scaled {
        writeErr := Some(NotScaled);
      }
      index := index + 1;
    }
    wide := false;
  }

  method CollectConstraints(m: Message) returns (r: Result<seq<Constraints>, Error>)
    ensures r.Ok? <==> Groundable(m)
    ensures r.Ok? ==> |r.value| == |m.signals|
    ensures r.Ok? ==> forall i :: 0 <= i < |m.signals| ==> SignalConstraints(m, i, {}) == Ok(r.value[i])
  {
    var constraints: seq<Constraints> := [];
    while |constraints| < |m.signals|
      invariant |constraints| <= |m.signals|
      invariant forall i :: 0 <= i < |constraints| ==> SignalConstraints(m, i, {}) == Ok(constraints[i])
      decreases |m.signals| - |constraints|
    {
      var next :- SignalConstraints(m, |constraints|, {});
      constraints := constraints + [next];
    }
    r := Ok(constraints);
  }

  /** The check is exact: it fails precisely when two compatible signals share a data bit. */
  method ValidateOverlaps(m: Message, constraints: seq<Constraints>) returns (ok: bool)
    requires Resolved(m) && Narrow(m) && |constraints| == |m.signals|
    ensures ok <==> NoOverlaps(m, constraints)
  {
    var masks: seq<SignalMask> := [];
    for index := 0 to |m.signals|
      invariant |masks| == index && forall i :: 0 <= i < index ==> IsMask(m.signals[i], masks[i])
    {
      var mask := MaskOf(m.signals[index]);
      masks := masks + [mask];
    }
    for left := 0 to |m.signals|
      invariant forall l, r :: 0 <= l < left && l < r < |m.signals| ==> Apart(m, constraints, l, r)
    {
      for right := left + 1 to |m.signals|
        invariant forall r :: left < r < right ==> Apart(m, constraints, left, r)
      {
        MasksAreExact(m.signals[left], m.signals[right], masks[left], masks[right], m.length);
        if ConstraintsCompatible(constraints[left], constraints[right]) && MasksOverlap(masks[left], masks[right]) {
          assert !Apart(m, constraints, left, right);
          return false;
        }
      }
    }
    assert forall l, r :: 0 <= l < r < |m.signals| ==> Apart(m, constraints, l, r);
    return true;
  }

  // ---- Activity --------------------------------------------------------------------------

  lemma GroundableKnowsSelectors(m: Message)
    requires Groundable(m)
    ensures KnownSelectors(m)
  {
    forall i | 0 <= i < |m.signals| && m.signals[i].multiplex.Some?
      ensures m.signals[i].multiplex.value.selector in Names(m)
    {
      assert SignalConstraints(m, i, {}).Ok?;
    }
  }

  /** On grounded selectors the cycle guard never fires, so activity does not depend on it. */
  lemma {:induction false} ActivityIgnoresGuard(m: Message, index: nat, raw: map<nat, nat>, left: set<nat>, right: set<nat>)
    requires index < |m.signals| && KnownSelectors(m)
    requires SignalConstraints(m, index, left).Ok? && SignalConstraints(m, index, right).Ok?
    ensures SignalActive(m, index, raw, left) == SignalActive(m, index, raw, right)
    decreases Indices(m) - left
  {
    if m.signals[index].multiplex.Some? {
      assert index in Indices(m) - left;
      ActivityIgnoresGuard(m, Selector(m, index), raw, left + {index}, right + {index});
    }
  }

  ghost predicate Meets(constraints: Constraints, raw: map<nat, nat>) {
    forall selector :: selector in constraints ==> selector in raw && RangesContain(constraints[selector], raw[selector])
  }

  /** An active signal has every selector on its path provided, with a value in the range the path needs. */
  lemma {:induction false} ActiveMeetsConstraints(m: Message, index: nat, raw: map<nat, nat>, visiting: set<nat>)
    requires index < |m.signals| && KnownSelectors(m) && SignalConstraints(m, index, visiting).Ok?
    requires SignalActive(m, index, raw, visiting) == Ok(true)
    ensures Meets(SignalConstraints(m, index, visiting).value, raw)
    decreases Indices(m) - visiting
  {
    if m.signals[index].multiplex.Some? {
      assert index in Indices(m) - visiting;
      ActiveMeetsConstraints(m, Selector(m, index), raw, visiting + {index});
    }
  }

  lemma CommonValueIntersects(left: seq<Range>, right: seq<Range>, value: nat)
    requires RangesContain(left, value) && RangesContain(right, value)
    ensures RangesIntersect(left, right)
  {
    var i :| 0 <= i < |left| && left[i].first <= value <= left[i].last;
    var j :| 0 <= j < |right| && right[j].first <= value <= right[j].last;
    assert left[i].first <= right[j].last && right[j].first <= left[i].last;
  }

  /** Any two signals that some choice of raw values makes active together were compared for overlap. */
  lemma {:induction false} ActiveTogetherAreCompared(m: Message, codec: Codec, left: nat, right: nat, raw: map<nat, nat>)
    requires Usable(m, codec) && left < |m.signals| && right < |m.signals|
    requires SignalActive(m, left, raw, {}) == Ok(true) && SignalActive(m, right, raw, {}) == Ok(true)
    ensures ConstraintsCompatible(codec.constraints[left], codec.constraints[right])
  {
    ActiveMeetsConstraints(m, left, raw, {});
    ActiveMeetsConstraints(m, right, raw, {});
    var (a, b) := (codec.constraints[left], codec.constraints[right]);
    forall selector | selector in a && selector in b
      ensures RangesIntersect(a[selector], b[selector])
    {
      CommonValueIntersects(a[selector], b[selector], raw[selector]);
    }
  }

  lemma {:induction false} ActiveTogetherAreApart(m: Message, codec: Codec, left: nat, right: nat, raw: map<nat, nat>)
    requires Writable(m, codec) && left < |m.signals| && right < |m.signals| && left != right
    requires SignalActive(m, left, raw, {}) == Ok(true) && SignalActive(m, right, raw, {}) == Ok(true)
    ensures Disjoint(Walk(m.signals[left]), Walk(m.signals[right]))
  {
    ActiveTogetherAreCompared(m, codec, left, right, raw);
    var (first, second) := if left < right then (left, right) else (right, left);
    ActiveTogetherAreCompared(m, codec, first, second, raw);
    assert Apart(m, codec.constraints, first, second);
    ApartIsDisjoint(m.signals[left], m.signals[right]);
  }

  method ActiveSignals(m: Message, raw: map<nat, nat>) returns (r: Result<seq<bool>, Error>)
    requires KnownSelectors(m)
    ensures r.Ok? ==> ActiveAre(m, raw, r.value)
    ensures r.Err? ==> exists i :: 0 <= i < |m.signals| && SignalActive(m, i, raw, {}).Err?
  {
    var active: seq<bool> := [];
    while |active| < |m.signals|
      invariant |active| <= |m.signals|
      invariant forall i :: 0 <= i < |active| ==> SignalActive(m, i, raw, {}) == Ok(active[i])
      decreases |m.signals| - |active|
    {
      var value :- SignalActive(m, |active|, raw, {});
      active := active + [value];
    }
    r := Ok(active);
  }

  ghost predicate ActiveAre(m: Message, raw: map<nat, nat>, active: seq<bool>)
    requires KnownSelectors(m)
  {
    |active| == |m.signals| && forall i :: 0 <= i < |m.signals| ==> SignalActive(m, i, raw, {}) == Ok(active[i])
  }

  // ---- Encode ----------------------------------------------------------------------------

  /** The raw values convertValues hands over: known signals, each within its width. */
  ghost predicate RawFits(m: Message, raw: map<nat, nat>) {
    forall i :: i in raw ==> i < |m.signals| && raw[i] < Pow2(m.signals[i].bitLength)
  }

  ghost predicate BufferFits(m: Message, length: nat) {
    m.length <= length && 8 * length <= DbcLayout.UINT32_LIMIT
  }

  lemma SignalsPlaced(m: Message, length: nat, index: nat)
    requires Resolved(m) && BufferFits(m, length) && index < |m.signals|
    ensures Placed(m.signals[index], length) && Available(m.signals[index], length)
  {
    PlacedIsAvailable(m.signals[index], length);
  }

  /** Encode accepts exactly the values of the active signals: no one missing, no one superfluous. */
  ghost predicate EncodeAccepts(m: Message, raw: map<nat, nat>)
    requires KnownSelectors(m)
  {
    forall i :: 0 <= i < |m.signals| ==> SignalActive(m, i, raw, {}) == Ok(i in raw)
  }

  ghost predicate Holds(data: seq<byte>, s: Signal, value: nat) {
    Available(s, |data|) && Gathered(data, Walk(s)) == Carried(s, value)
  }

  method Encode(m: Message, codec: Codec, data: array<byte>, raw: map<nat, nat>) returns (r: Result<(), Error>)
    requires Resolved(m) && Writable(m, codec) && RawFits(m, raw) && BufferFits(m, data.Length)
    modifies data
    ensures r.Ok? <==> EncodeAccepts(m, raw)
    ensures r.Err? ==> data[..] == old(data[..])
    ensures r.Ok? ==> forall i :: i in raw ==> Holds(data[..], m.signals[i], raw[i])
  {
    var active :- ActiveSignals(m, raw);
    var index := 0;
    while index < |m.signals|
      invariant 0 <= index <= |m.signals|
      invariant forall i :: 0 <= i < index ==> active[i] == (i in raw)
    {
      if active[index] && index !in raw {
        return Err(MissingSignal);
      }
      if !active[index] && index in raw {
        return Err(InactiveSignal);
      }
      index := index + 1;
    }
    index := 0;
    while index < |m.signals|
      invariant 0 <= index <= |m.signals|
      invariant forall i :: 0 <= i < index && active[i] ==> Holds(data[..], m.signals[i], raw[i])
    {
      if active[index] {
        WriteActive(m, codec, data, index, raw, raw[index]);
      }
      index := index + 1;
    }
    return Ok(());
  }

  // Writes one active signal; every other active signal keeps the bits it has.
  method WriteActive(m: Message, codec: Codec, data: array<byte>, index: nat, raw: map<nat, nat>, value: nat)
    requires Resolved(m) && Writable(m, codec) && BufferFits(m, data.Length)
    requires index < |m.signals| && SignalActive(m, index, raw, {}) == Ok(true)
    modifies data
    ensures Holds(data[..], m.signals[index], value)
    ensures forall bit :: 0 <= bit < 8 * data.Length && bit !in Walk(m.signals[index]) ==>
      DataBit(data[..], bit) == old(DataBit(data[..], bit))
    ensures forall i :: 0 <= i < |m.signals| && i != index && SignalActive(m, i, raw, {}) == Ok(true) ==>
      Available(m.signals[i], data.Length) &&
      Gathered(data[..], Walk(m.signals[i])) == old(Gathered(data[..], Walk(m.signals[i])))
  {
    SignalsPlaced(m, data.Length, index);
    WriteSignalBits(data, m.signals[index], value);
    WriteThenGather(old(data[..]), data[..], Walk(m.signals[index]), Carried(m.signals[index], value));
    forall i | 0 <= i < |m.signals| && i != index && SignalActive(m, i, raw, {}) == Ok(true)
      ensures Available(m.signals[i], data.Length)
      ensures Gathered(data[..], Walk(m.signals[i])) == old(Gathered(data[..], Walk(m.signals[i])))
    {
      SignalsPlaced(m, data.Length, i);
      ActiveTogetherAreApart(m, codec, index, i, raw);
      WriteElsewhere(old(data[..]), data[..], Walk(m.signals[index]), Carried(m.signals[index], value), Walk(m.signals[i]));
    }
  }

  // ---- Decode ----------------------------------------------------------------------------

  function DecodePayload(m: Message, codec: Codec, payload: seq<byte>, index: nat): Result<nat, Error>
    requires Usable(m, codec) && index < |m.signals|
  {
    if |payload| > m.length then Err(PayloadTooLong)
    else
      var active :- SignalActiveInPayload(m, payload, index, {});
      if !active then Err(InactiveSignal)
      else if !Available(m.signals[index], |payload|) then Err(NotPresent)
      else Ok(RawValue(payload, m.signals[index]))
  }

  /** The payload holds, for every active signal among `raw`, the value `raw` gives it. */
  ghost predicate ReadsBack(m: Message, raw: map<nat, nat>, payload: seq<byte>)
    requires KnownSelectors(m)
  {
    forall i :: 0 <= i < |m.signals| && i in raw && SignalActive(m, i, raw, {}) == Ok(true) ==>
      Available(m.signals[i], |payload|) && RawValue(payload, m.signals[i]) == raw[i]
  }

  /** Activity recomputed from the bytes is the activity of the raw values, at any selector depth. */
  lemma {:induction false} ActivityReadsBack(m: Message, raw: map<nat, nat>, payload: seq<byte>, index: nat, visiting: set<nat>)
    requires KnownSelectors(m) && Groundable(m) && index < |m.signals|
    requires SignalConstraints(m, index, visiting).Ok? && SignalActive(m, index, raw, visiting).Ok?
    requires ReadsBack(m, raw, payload)
    ensures SignalActiveInPayload(m, payload, index, visiting) == SignalActive(m, index, raw, visiting)
    decreases Indices(m) - visiting
  {
    if m.signals[index].multiplex.Some? {
      assert index in Indices(m) - visiting;
      var selector := Selector(m, index);
      ActivityReadsBack(m, raw, payload, selector, visiting + {index});
      assert SignalConstraints(m, selector, {}).Ok?;
      ActivityIgnoresGuard(m, selector, raw, visiting + {index}, {});
    }
  }

  lemma HoldsInPrefix(m: Message, data: seq<byte>, index: nat, value: nat)
    requires Resolved(m) && BufferFits(m, |data|) && index < |m.signals| && value < Pow2(m.signals[index].bitLength)
    requires Holds(data, m.signals[index], value)
    ensures Available(m.signals[index], m.length) && RawValue(data[..m.length], m.signals[index]) == value
  {
    SignalsPlaced(m, m.length, index);
    assert Gathered(data[..m.length], Walk(m.signals[index])) == Gathered(data, Walk(m.signals[index]));
    CarriedValue(m.signals[index], value);
  }

  /**
   * What Encode wrote, DecodePayload reads: every supplied signal gives its raw value back, and every
   * other signal is reported inactive, whatever the byte orders and the depth of the selectors.
   */
  lemma {:induction false} EncodeThenDecode(m: Message, codec: Codec, data: seq<byte>, raw: map<nat, nat>, index: nat)
    requires Resolved(m) && Writable(m, codec) && RawFits(m, raw) && BufferFits(m, |data|)
    requires EncodeAccepts(m, raw) && forall i :: i in raw ==> Holds(data, m.signals[i], raw[i])
    requires index < |m.signals|
    ensures SignalActiveInPayload(m, data[..m.length], index, {}) == SignalActive(m, index, raw, {})
    ensures DecodePayload(m, codec, data[..m.length], index) == if index in raw then Ok(raw[index]) else Err(InactiveSignal)
  {
    forall i | 0 <= i < |m.signals| && i in raw
      ensures Available(m.signals[i], m.length) && RawValue(data[..m.length], m.signals[i]) == raw[i]
    {
      HoldsInPrefix(m, data, i, raw[i]);
    }
    assert SignalConstraints(m, index, {}).Ok?;
    ActivityReadsBack(m, raw, data[..m.length], index, {});
  }

  // ---- Patch -----------------------------------------------------------------------------

  ghost function OldSelectors(m: Message, data: seq<byte>): map<nat, nat>
    requires Resolved(m) && BufferFits(m, |data|)
  {
    map i: nat | i in Indices(m) && m.signals[i].isMultiplexer ::
      (SignalsPlaced(m, |data|, i); RawValue(data, m.signals[i]))
  }

  ghost function NewSelectors(m: Message, data: seq<byte>, changes: map<nat, nat>): map<nat, nat>
    requires Resolved(m) && BufferFits(m, |data|)
  {
    map i: nat | i in Indices(m) && m.signals[i].isMultiplexer ::
      if i in changes then changes[i] else (SignalsPlaced(m, |data|, i); RawValue(data, m.signals[i]))
  }

  method SelectorValues(m: Message, codec: Codec, data: array<byte>) returns (values: map<nat, nat>)
    requires Resolved(m) && Usable(m, codec) && BufferFits(m, data.Length)
    ensures values == OldSelectors(m, data[..])
  {
    hide RawValue;
    hide Available;
    hide Placed;
    hide SignalConstraints;
    hide Groundable;
    hide LaidOut;
    values := map[];
    var index := 0;
    while index < |codec.selectors|
      invariant 0 <= index <= |codec.selectors|
      invariant values.Keys == set i: nat | i in Indices(m) && i < index && m.signals[i].isMultiplexer
      invariant forall i :: i in values ==> Available(m.signals[i], data.Length) && values[i] == RawValue(data[..], m.signals[i])
    {
      if codec.selectors[index] {
        SignalsPlaced(m, data.Length, index);
        var value := ReadSignalBits(data, m.signals[index]);
        values := values[index := value];
      }
      index := index + 1;
    }
  }

  ghost predicate PlanAccepts(m: Message, before: map<nat, nat>, after: map<nat, nat>, changes: map<nat, nat>)
    requires KnownSelectors(m)
  {
    forall i :: 0 <= i < |m.signals| ==>
      && SignalActive(m, i, before, {}).Ok? && SignalActive(m, i, after, {}).Ok?
      && (SignalActive(m, i, after, {}).value && !SignalActive(m, i, before, {}).value ==> i in changes)
      && (i in changes ==> SignalActive(m, i, after, {}).value)
  }

  /** Patch accepts a change of every signal that becomes active, and of no inactive one. */
  ghost predicate PatchAccepts(m: Message, data: seq<byte>, changes: map<nat, nat>)
    requires Resolved(m) && BufferFits(m, |data|) && KnownSelectors(m)
  {
    PlanAccepts(m, OldSelectors(m, data), NewSelectors(m, data, changes), changes)
  }

  /** The frame rule: the changed signals hold their new values, and every other bit is untouched. */
  ghost predicate Patched(m: Message, before: seq<byte>, after: seq<byte>, changes: map<nat, nat>)
    requires forall i :: i in changes ==> i < |m.signals|
  {
    && |after| == |before|
    && (forall i :: i in changes ==> Holds(after, m.signals[i], changes[i]))
    && (forall bit :: 0 <= bit < 8 * |before| && (forall i :: i in changes ==> bit !in Walk(m.signals[i])) ==>
          DataBit(after, bit) == DataBit(before, bit))
  }

  method Patch(m: Message, codec: Codec, data: array<byte>, changes: map<nat, nat>) returns (r: Result<(), Error>)
    requires Resolved(m) && Writable(m, codec) && RawFits(m, changes) && BufferFits(m, data.Length)
    modifies data
    ensures r.Ok? <==> PatchAccepts(m, old(data[..]), changes)
    ensures r.Err? ==> data[..] == old(data[..])
    ensures r.Ok? ==> Patched(m, old(data[..]), data[..], changes)
  {
    hide SignalConstraints;
    hide NewSelectors;
    hide SignalActive;
    var newSelectors :- PlanPatch(m, codec, data, changes);
    ApplyChanges(m, codec, data, changes, newSelectors);
    return Ok(());
  }

  // Everything Patch checks before it writes.
  method PlanPatch(m: Message, codec: Codec, data: array<byte>, changes: map<nat, nat>) returns (r: Result<map<nat, nat>, Error>)
    requires Resolved(m) && Usable(m, codec) && BufferFits(m, data.Length)
    ensures r.Ok? <==> PatchAccepts(m, data[..], changes)
    ensures r.Ok? ==> r.value == NewSelectors(m, data[..], changes)
  {
    var oldSelectors := SelectorValues(m, codec, data);
    var newSelectors := MergeSelectors(m, data[..], oldSelectors, changes);
    var accepted :- CheckPlan(m, codec, oldSelectors, newSelectors, changes);
    return Ok(newSelectors);
  }

  method MergeSelectors(m: Message, ghost data: seq<byte>, values: map<nat, nat>, changes: map<nat, nat>) returns (merged: map<nat, nat>)
    requires Resolved(m) && BufferFits(m, |data|) && values == OldSelectors(m, data)
    ensures merged == NewSelectors(m, data, changes)
  {
    merged := map i | i in values :: if i in changes then changes[i] else values[i];
  }

  method CheckPlan(m: Message, codec: Codec, before: map<nat, nat>, after: map<nat, nat>, changes: map<nat, nat>)
    returns (r: Result<(), Error>)
    requires Usable(m, codec)
    ensures r.Ok? <==> PlanAccepts(m, before, after, changes)
  {
    hide SignalActive;
    hide SignalConstraints;
    var oldActive :- ActiveSignals(m, before);
    var newActive :- ActiveSignals(m, after);
    r := CheckActivation(m, codec, oldActive, newActive, changes);
  }

  method CheckActivation(m: Message, codec: Codec, oldActive: seq<bool>, newActive: seq<bool>, changes: map<nat, nat>)
    returns (r: Result<(), Error>)
    requires Usable(m, codec) && |oldActive| == |newActive| == |m.signals|
    ensures r.Ok? <==> forall i :: 0 <= i < |m.signals| ==>
      (newActive[i] && !oldActive[i] ==> i in changes) && (i in changes ==> newActive[i])
  {
    var index := 0;
    while index < |m.signals|
      invariant 0 <= index <= |m.signals|
    {
      if codec.selectors[index] && newActive[index] && !oldActive[index] && index !in changes {
        return Err(MissingMultiplexor);
      }
      index := index + 1;
    }
    index := 0;
    while index < |m.signals|
      invariant 0 <= index <= |m.signals|
      invariant forall i :: 0 <= i < index ==>
        (newActive[i] && !oldActive[i] ==> i in changes) && (i in changes ==> newActive[i])
    {
      if newActive[index] && !oldActive[index] && index !in changes {
        return Err(MissingSignal);
      }
      if !newActive[index] && index in changes {
        return Err(InactiveSignal);
      }
      index := index + 1;
    }
    r := Ok(());
  }

  // The changes are written in whatever order the map yields them.
  method ApplyChanges(m: Message, codec: Codec, data: array<byte>, changes: map<nat, nat>, raw: map<nat, nat>)
    requires Resolved(m) && Writable(m, codec) && RawFits(m, changes) && BufferFits(m, data.Length)
    requires forall i :: i in changes ==> SignalActive(m, i, raw, {}) == Ok(true)
    modifies data
    ensures Patched(m, old(data[..]), data[..], changes)
  {
    var remaining := changes.Keys;
    while remaining != {}
      invariant remaining <= changes.Keys
      invariant forall i :: i in changes && i !in remaining ==> Holds(data[..], m.signals[i], changes[i])
      invariant forall bit :: 0 <= bit < 8 * data.Length && (forall i :: i in changes ==> bit !in Walk(m.signals[i])) ==>
        DataBit(data[..], bit) == old(DataBit(data[..], bit))
      decreases remaining
    {
      var index :| index in remaining;
      WriteActive(m, codec, data, index, raw, changes[index]);
      remaining := remaining - {index};
    }
  }

  /** The order in which the changes were written cannot be seen in the result. */
  lemma PatchedIsUnique(m: Message, before: seq<byte>, left: seq<byte>, right: seq<byte>, changes: map<nat, nat>)
    requires forall i :: i in changes ==> i < |m.signals|
    requires Patched(m, before, left, changes) && Patched(m, before, right, changes)
    ensures left == right
  {
    forall bit | 0 <= bit < 8 * |before|
      ensures DataBit(left, bit) == DataBit(right, bit)
    {
      if i :| i in changes && bit in Walk(m.signals[i]) {
        var s := m.signals[i];
        var k :| 0 <= k < |Walk(s)| && Walk(s)[k] == bit;
        assert Gathered(left, Walk(s))[k] == Gathered(right, Walk(s))[k];
      }
    }
    SameDataBits(left, right);
  }

  lemma {:induction false} UntouchedKeeps(m: Message, codec: Codec, before: seq<byte>, after: seq<byte>, changes: map<nat, nat>, index: nat)
    requires Resolved(m) && Writable(m, codec) && RawFits(m, changes) && BufferFits(m, |before|)
    requires PatchAccepts(m, before, changes) && Patched(m, before, after, changes)
    requires index < |m.signals| && index !in changes
    requires SignalActive(m, index, NewSelectors(m, before, changes), {}) == Ok(true)
    ensures Available(m.signals[index], |before|)
    ensures RawValue(after, m.signals[index]) == RawValue(before, m.signals[index])
  {
    SignalsPlaced(m, |before|, index);
    var walk := Walk(m.signals[index]);
    forall k | 0 <= k < |walk|
      ensures DataBit(after, walk[k]) == DataBit(before, walk[k])
    {
      forall i | i in changes
        ensures walk[k] !in Walk(m.signals[i])
      {
        ActiveTogetherAreApart(m, codec, i, index, NewSelectors(m, before, changes));
        assert walk[k] in walk;
      }
    }
    assert Gathered(after, walk) == Gathered(before, walk);
  }

  /**
   * After a successful Patch: every changed signal reads its new raw value, every other signal active
   * on the new path reads what it read before, and the activity found in the new bytes is the planned one.
   */
  lemma {:induction false} PatchThenDecode(m: Message, codec: Codec, before: seq<byte>, after: seq<byte>, changes: map<nat, nat>, index: nat)
    requires Resolved(m) && Writable(m, codec) && RawFits(m, changes) && BufferFits(m, |before|)
    requires PatchAccepts(m, before, changes) && Patched(m, before, after, changes)
    requires index < |m.signals|
    ensures var active := SignalActive(m, index, NewSelectors(m, before, changes), {});
      && SignalActiveInPayload(m, after, index, {}) == active
      && Available(m.signals[index], |before|)
      && (index in changes ==> active == Ok(true) && RawValue(after, m.signals[index]) == changes[index])
      && (index !in changes && active == Ok(true) ==> RawValue(after, m.signals[index]) == RawValue(before, m.signals[index]))
  {
    var raw := NewSelectors(m, before, changes);
    forall i | 0 <= i < |m.signals| && SignalActive(m, i, raw, {}) == Ok(true)
      ensures Available(m.signals[i], |before|)
      ensures RawValue(after, m.signals[i]) == if i in changes then changes[i] else RawValue(before, m.signals[i])
    {
      SignalsPlaced(m, |before|, i);
      if i in changes {
        CarriedValue(m.signals[i], changes[i]);
      } else {
        UntouchedKeeps(m, codec, before, after, changes, i);
      }
    }
    SignalsPlaced(m, |before|, index);
    assert SignalConstraints(m, index, {}).Ok?;
    ActivityReadsBack(m, raw, after, index, {});
  }
}
