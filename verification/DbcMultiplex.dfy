/**
 * Multiplexing in DBC text: the markers and SG_MUL_VAL_ records the writer emits, and how the resolver
 * rebuilds flags, selectors and ranges from them (dbc/write.go, dbc/resolve.go).
 */
module DbcMultiplex {
  import opened Wrappers
  import opened DbcLayout
  import opened DbcText

  // The multiplexing of one signal of a message.
  datatype MuxSignal = MuxSignal(name: string, isMultiplexer: bool, multiplex: Option<Condition>)

  datatype RawSignal = RawSignal(name: string, marker: string)

  datatype RawRecord = RawRecord(signal: string, selector: string, ranges: seq<Range>)

  datatype MuxError =
    | DuplicateSignal
    | InvalidMarker
    | SelectorNotMultiplexer
    | MultiplexesItself
    | SecondSelector
    | OutsideRanges
    | NeedsRecord
    | Cycle
    | NoSelectorValues

  // ---- Markers ---------------------------------------------------------------------------

  /** The marker of a written signal. */
  function Marker(s: MuxSignal): Result<string, MuxError> {
    match s.multiplex
    case None => Ok(if s.isMultiplexer then "M" else "")
    case Some(condition) =>
      if condition.ranges == [] then Err(NoSelectorValues)
      else Ok("m" + Decimal(condition.ranges[0].first) + if s.isMultiplexer then "M" else "")
  }

  /** parseMuxMarker. */
  function ParseMarker(marker: string): Result<(bool, Option<nat>), MuxError> {
    if marker == "" then Ok((false, None))
    else if marker == "M" then Ok((true, None))
    else if marker[0] != 'm' then Err(InvalidMarker)
    else
      var body := marker[1..];
      var isMultiplexer := body != "" && body[|body| - 1] == 'M';
      var value := ParseUint(if isMultiplexer then body[..|body| - 1] else body);
      if value.None? then Err(InvalidMarker) else Ok((isMultiplexer, value))
  }

  /** A marker says whether the signal multiplexes and, for a multiplexed one, its first selector value. */
  lemma MarkerRoundTrip(s: MuxSignal)
    requires s.multiplex.Some? ==> s.multiplex.value.ranges != [] && s.multiplex.value.ranges[0].first < UINT64_LIMIT
    ensures Marker(s).Ok?
    ensures ParseMarker(Marker(s).value) ==
      Ok((s.isMultiplexer, if s.multiplex.Some? then Some(s.multiplex.value.ranges[0].first) else None))
  {
    if s.multiplex.Some? {
      var digits := Decimal(s.multiplex.value.ranges[0].first);
      var marker := Marker(s).value;
      DecimalRoundTrip(s.multiplex.value.ranges[0].first);
      hide Decimal;
      hide ParseUint;
      if s.isMultiplexer {
        assert marker[1..] == digits + "M";
        assert (digits + "M")[..|digits|] == digits;
      } else {
        assert marker == "m" + digits + "" && marker[1..] == digits;
      }
    }
  }

  // ---- Resolving -------------------------------------------------------------------------

  function IndexOf(signals: seq<MuxSignal>, name: string): (index: Option<nat>)
    ensures index.Some? ==> index.value < |signals| && signals[index.value].name == name
  {
    if signals == [] then None
    else if signals[|signals| - 1].name == name then Some(|signals| - 1)
    else IndexOf(signals[..|signals| - 1], name)
  }

  /** One SG_MUL_VAL_ record. A record about an unknown signal is dropped. */
  function ApplyRecord(signals: seq<MuxSignal>, record: RawRecord): Result<seq<MuxSignal>, MuxError> {
    var signal := IndexOf(signals, record.signal);
    var selector := IndexOf(signals, record.selector);
    if signal.None? || selector.None? then Ok(signals)
    else if !signals[selector.value].isMultiplexer then Err(SelectorNotMultiplexer)
    else if record.signal == record.selector then Err(MultiplexesItself)
    else
      var s := signals[signal.value];
      match s.multiplex
      case Some(condition) =>
        if condition.selector != record.selector then Err(SecondSelector)
        else Ok(signals[signal.value := s.(multiplex := Some(Condition(condition.selector, condition.ranges + record.ranges)))])
      case None => Ok(signals[signal.value := s.(multiplex := Some(Condition(record.selector, record.ranges)))])
  }

  function ApplyRecords(signals: seq<MuxSignal>, records: seq<RawRecord>): Result<seq<MuxSignal>, MuxError> {
    if records == [] then Ok(signals)
    else
      var before :- ApplyRecords(signals, records[..|records| - 1]);
      ApplyRecord(before, records[|records| - 1])
  }

  predicate IsRoot(s: MuxSignal, simple: Option<nat>) {
    s.isMultiplexer && s.multiplex.None? && simple.None?
  }

  function Roots(signals: seq<MuxSignal>, simple: seq<Option<nat>>): (roots: seq<string>)
    requires |signals| == |simple|
  {
    if signals == [] then []
    else
      var before := Roots(signals[..|signals| - 1], simple[..|signals| - 1]);
      if IsRoot(signals[|signals| - 1], simple[|signals| - 1]) then before + [signals[|signals| - 1].name] else before
  }

  predicate Contains(ranges: seq<Range>, value: nat) {
    exists i :: 0 <= i < |ranges| && ranges[i].first <= value <= ranges[i].last
  }

  /** What a signal's marker adds to what the records have said. */
  function Simplified(s: MuxSignal, simple: Option<nat>, roots: seq<string>): Result<MuxSignal, MuxError> {
    match simple
    case None => Ok(s)
    case Some(value) =>
      if s.multiplex.Some? then
        if Contains(s.multiplex.value.ranges, value) then Ok(s) else Err(OutsideRanges)
      else if |roots| != 1 then Err(NeedsRecord)
      else Ok(s.(multiplex := Some(Condition(roots[0], [Range(value, value)]))))
  }

  function SimplifyAll(signals: seq<MuxSignal>, simple: seq<Option<nat>>, roots: seq<string>): (r: Result<seq<MuxSignal>, MuxError>)
    requires |signals| == |simple|
    ensures r.Ok? ==> |r.value| == |signals|
  {
    if signals == [] then Ok([])
    else
      var before :- SimplifyAll(signals[..|signals| - 1], simple[..|signals| - 1], roots);
      var last :- Simplified(signals[|signals| - 1], simple[|signals| - 1], roots);
      Ok(before + [last])
  }

  // ---- Cycles ----------------------------------------------------------------------------

  function Selectors(signals: seq<MuxSignal>): map<string, string> {
    if signals == [] then map[]
    else
      var last := signals[|signals| - 1];
      match last.multiplex
      case None => Selectors(signals[..|signals| - 1])
      case Some(condition) => Selectors(signals[..|signals| - 1])[last.name := condition.selector]
  }

  function NextSelector(selectors: map<string, string>, name: string): string {
    if name in selectors then selectors[name] else ""
  }

  /** The name reached after n steps along the selectors; the empty name once the chain has ended. */
  function Walked(selectors: map<string, string>, name: string, n: nat): string {
    if n == 0 then name else NextSelector(selectors, Walked(selectors, name, n - 1))
  }

  ghost predicate Ends(selectors: map<string, string>, name: string) {
    exists n :: Walked(selectors, name, n) == ""
  }

  ghost predicate Acyclic(selectors: map<string, string>) {
    forall name :: name in selectors ==> Ends(selectors, name)
  }

  // What one walk has seen: its first n names, all of them different.
  ghost predicate Seen(selectors: map<string, string>, start: string, n: nat, seen: set<string>) {
    && (forall k :: 0 <= k < n ==> Walked(selectors, start, k) in seen && Walked(selectors, start, k) != "")
    && (forall name :: name in seen ==> exists k :: 0 <= k < n && Walked(selectors, start, k) == name)
  }

  lemma {:induction false} WalkRepeats(selectors: map<string, string>, start: string, k: nat, n: nat, m: nat)
    requires k < n && Walked(selectors, start, k) == Walked(selectors, start, n)
    ensures Walked(selectors, start, k + m) == Walked(selectors, start, n + m)
  {
    if m > 0 {
      WalkRepeats(selectors, start, k, n, m - 1);
      assert Walked(selectors, start, k + m) == NextSelector(selectors, Walked(selectors, start, k + (m - 1)));
      assert Walked(selectors, start, n + m) == NextSelector(selectors, Walked(selectors, start, n + (m - 1)));
    }
  }

  lemma {:induction false} EndStays(selectors: map<string, string>, start: string, n: nat, m: nat)
    requires "" !in selectors && Walked(selectors, start, n) == ""
    ensures Walked(selectors, start, n + m) == ""
  {
    if m > 0 {
      EndStays(selectors, start, n, m - 1);
    }
  }

  /** A walk that comes back to a name it has seen never ends. */
  lemma {:induction false} RepeatNeverEnds(selectors: map<string, string>, start: string, k: nat, n: nat)
    requires "" !in selectors && k < n && Walked(selectors, start, k) == Walked(selectors, start, n) != ""
    ensures !Ends(selectors, start)
  {
    forall end
      ensures Walked(selectors, start, end) != ""
    {
      if Walked(selectors, start, end) == "" {
        NotEndedBefore(selectors, start, k, n, end);
      }
    }
  }

  lemma {:induction false} NotEndedBefore(selectors: map<string, string>, start: string, k: nat, n: nat, end: nat)
    requires "" !in selectors && k < n && Walked(selectors, start, k) == Walked(selectors, start, n) != ""
    ensures Walked(selectors, start, end) != ""
    decreases end
  {
    if end <= n {
      if Walked(selectors, start, end) == "" {
        EndStays(selectors, start, end, n - end);
      }
    } else {
      WalkRepeats(selectors, start, k, n, end - n);
      NotEndedBefore(selectors, start, k, n, k + (end - n));
    }
  }

  /** The inner loop of validateMultiplexGraph: one walk, until it ends or repeats itself. */
  method WalkEnds(selectors: map<string, string>, start: string) returns (ok: bool)
    requires "" !in selectors && start in selectors
    ensures ok <==> Ends(selectors, start)
  {
    var seen: set<string> := {};
    var current := start;
    ghost var n: nat := 0;
    while current != ""
      invariant current == Walked(selectors, start, n) && Seen(selectors, start, n, seen)
      decreases selectors.Keys - seen, if current == "" then 0 else 1
    {
      if current in seen {
        ghost var k :| 0 <= k < n && Walked(selectors, start, k) == current;
        RepeatNeverEnds(selectors, start, k, n);
        return false;
      }
      seen := seen + {current};
      current := NextSelector(selectors, current);
      n := n + 1;
    }
    ok := true;
  }

  /** validateMultiplexGraph: no error exactly when every walk along the selectors ends. */
  method ValidateGraph(selectors: map<string, string>) returns (ok: bool)
    requires "" !in selectors
    ensures ok <==> Acyclic(selectors)
  {
    var remaining := selectors.Keys;
    while remaining != {}
      invariant remaining <= selectors.Keys
      invariant forall name :: name in selectors && name !in remaining ==> Ends(selectors, name)
      decreases remaining
    {
      var start :| start in remaining;
      remaining := remaining - {start};
      var ends := WalkEnds(selectors, start);
      if !ends {
        return false;
      }
    }
    ok := true;
  }

  // ---- A whole message -------------------------------------------------------------------

  ghost predicate Distinct(signals: seq<MuxSignal>) {
    forall i, j :: 0 <= i < j < |signals| ==> signals[i].name != signals[j].name
  }

  function Markers(raw: seq<RawSignal>): (r: Result<seq<(bool, Option<nat>)>, MuxError>)
    ensures r.Ok? ==> |r.value| == |raw|
  {
    if raw == [] then Ok([])
    else
      var before :- Markers(raw[..|raw| - 1]);
      var last :- ParseMarker(raw[|raw| - 1].marker);
      Ok(before + [last])
  }

  function Declared(raw: seq<RawSignal>, markers: seq<(bool, Option<nat>)>): (signals: seq<MuxSignal>)
    requires |markers| == |raw|
    ensures |signals| == |raw|
  {
    seq(|raw|, i requires 0 <= i < |raw| => MuxSignal(raw[i].name, markers[i].0, None))
  }

  function SimpleValues(markers: seq<(bool, Option<nat>)>): (simple: seq<Option<nat>>)
    ensures |simple| == |markers|
  {
    seq(|markers|, i requires 0 <= i < |markers| => markers[i].1)
  }

  /** The declarations, then resolveMultiplexing: records, simple values, and the check for cycles. */
  ghost function Resolve(raw: seq<RawSignal>, records: seq<RawRecord>): Result<seq<MuxSignal>, MuxError> {
    var markers :- Markers(raw);
    var declared := Declared(raw, markers);
    if !Distinct(declared) then Err(DuplicateSignal)
    else
      var applied :- ApplyRecords(declared, records);
      if |applied| != |raw| then Err(DuplicateSignal)
      else
        var simple := SimpleValues(markers);
        var resolved :- SimplifyAll(applied, simple, Roots(applied, simple));
        if Acyclic(Selectors(resolved)) then Ok(resolved) else Err(Cycle)
  }

  // ---- Writing ---------------------------------------------------------------------------

  function RootNames(signals: seq<MuxSignal>): seq<string> {
    if signals == [] then []
    else
      var before := RootNames(signals[..|signals| - 1]);
      var last := signals[|signals| - 1];
      if last.isMultiplexer && last.multiplex.None? then before + [last.name] else before
  }

  /** Simple multiplexing: every condition is one value of the only root multiplexer. */
  predicate IsSimple(signals: seq<MuxSignal>) {
    var roots := RootNames(signals);
    forall i :: 0 <= i < |signals| && signals[i].multiplex.Some? ==>
      SimpleCondition(signals[i].multiplex.value, roots)
  }

  predicate SimpleCondition(condition: Condition, roots: seq<string>) {
    && |roots| == 1 && condition.selector == roots[0]
    && |condition.ranges| == 1 && condition.ranges[0].first == condition.ranges[0].last
  }

  function WrittenSignals(signals: seq<MuxSignal>): (r: Result<seq<RawSignal>, MuxError>)
    ensures r.Ok? ==> |r.value| == |signals|
  {
    if signals == [] then Ok([])
    else
      var before :- WrittenSignals(signals[..|signals| - 1]);
      var marker :- Marker(signals[|signals| - 1]);
      Ok(before + [RawSignal(signals[|signals| - 1].name, marker)])
  }

  function AllRecords(signals: seq<MuxSignal>): seq<RawRecord> {
    if signals == [] then []
    else
      var before := AllRecords(signals[..|signals| - 1]);
      var last := signals[|signals| - 1];
      match last.multiplex
      case None => before
      case Some(condition) => before + [RawRecord(last.name, condition.selector, condition.ranges)]
  }

  function WrittenRecords(signals: seq<MuxSignal>): seq<RawRecord> {
    if IsSimple(signals) then [] else AllRecords(signals)
  }

  // ---- Round trip ------------------------------------------------------------------------

  ghost predicate ValidRanges(ranges: seq<Range>) {
    ranges != [] && forall i :: 0 <= i < |ranges| ==> ranges[i].first <= ranges[i].last < UINT64_LIMIT
  }

  ghost predicate ValidCondition(signals: seq<MuxSignal>, s: MuxSignal) {
    s.multiplex.Some? ==>
      && ValidRanges(s.multiplex.value.ranges) && s.multiplex.value.selector != s.name
      && IndexOf(signals, s.multiplex.value.selector).Some?
      && signals[IndexOf(signals, s.multiplex.value.selector).value].isMultiplexer
  }

  /** What the resolver guarantees of every message it accepts. */
  ghost predicate ValidMultiplexing(signals: seq<MuxSignal>) {
    && Distinct(signals) && Acyclic(Selectors(signals))
    && forall i :: 0 <= i < |signals| ==> ValidCondition(signals, signals[i])
  }

  // The declarations of a message, with the conditions of its first n signals only.
  function Partial(signals: seq<MuxSignal>, n: nat): (partial: seq<MuxSignal>)
    ensures |partial| == |signals|
  {
    seq(|signals|, i requires 0 <= i < |signals| => if i < n then signals[i] else signals[i].(multiplex := None))
  }

  function FirstValue(s: MuxSignal): Option<nat> {
    if s.multiplex.Some? && s.multiplex.value.ranges != [] then Some(s.multiplex.value.ranges[0].first) else None
  }

  function FirstValues(signals: seq<MuxSignal>): (values: seq<Option<nat>>)
    ensures |values| == |signals|
  {
    seq(|signals|, i requires 0 <= i < |signals| => FirstValue(signals[i]))
  }

  ghost predicate Writable(signals: seq<MuxSignal>) {
    forall i :: 0 <= i < |signals| && signals[i].multiplex.Some? ==> ValidRanges(signals[i].multiplex.value.ranges)
  }

  lemma {:induction false} MarkersRead(signals: seq<MuxSignal>)
    requires Writable(signals)
    ensures WrittenSignals(signals).Ok? && Markers(WrittenSignals(signals).value).Ok?
    ensures forall i :: 0 <= i < |signals| ==>
      WrittenSignals(signals).value[i].name == signals[i].name &&
      Markers(WrittenSignals(signals).value).value[i] == (signals[i].isMultiplexer, FirstValue(signals[i]))
  {
    hide Marker;
    hide ParseMarker;
    if signals != [] {
      var before := signals[..|signals| - 1];
      var last := signals[|signals| - 1];
      MarkersRead(before);
      MarkerRoundTrip(last);
      var raw := WrittenSignals(signals).value;
      assert raw[..|signals| - 1] == WrittenSignals(before).value;
    }
  }

  lemma {:induction false} DeclaredIsPartial(signals: seq<MuxSignal>)
    requires Writable(signals)
    ensures WrittenSignals(signals).Ok? && Markers(WrittenSignals(signals).value).Ok?
    ensures var raw := WrittenSignals(signals).value; var markers := Markers(raw).value;
      Declared(raw, markers) == Partial(signals, 0) && SimpleValues(markers) == FirstValues(signals)
  {
    hide WrittenSignals;
    hide Markers;
    MarkersRead(signals);
  }

  lemma {:induction false} IndexIsFound(signals: seq<MuxSignal>, i: nat)
    requires Distinct(signals) && i < |signals|
    ensures IndexOf(signals, signals[i].name) == Some(i)
    decreases |signals|
  {
    if i < |signals| - 1 {
      IndexIsFound(signals[..|signals| - 1], i);
    }
  }

  lemma {:induction false} IndexByName(left: seq<MuxSignal>, right: seq<MuxSignal>, name: string)
    requires |left| == |right| && forall i :: 0 <= i < |left| ==> left[i].name == right[i].name
    ensures IndexOf(left, name) == IndexOf(right, name)
  {
    if left != [] {
      IndexByName(left[..|left| - 1], right[..|right| - 1], name);
    }
  }

  lemma PartialNext(signals: seq<MuxSignal>, n: nat)
    requires n < |signals|
    ensures Partial(signals, n + 1) == Partial(signals, n)[n := signals[n]]
    ensures signals[n].multiplex.None? ==> Partial(signals, n + 1) == Partial(signals, n)
  {
  }

  /** Applying the records of the first n signals restores their conditions. */
  lemma {:induction false} RecordsRestore(signals: seq<MuxSignal>, n: nat)
    requires ValidMultiplexing(signals) && n <= |signals|
    ensures ApplyRecords(Partial(signals, 0), AllRecords(signals[..n])) == Ok(Partial(signals, n))
  {
    hide ValidMultiplexing;
    hide ApplyRecord;
    hide Partial;
    if n > 0 {
      var s := signals[n - 1];
      assert signals[..n][..n - 1] == signals[..n - 1];
      RecordsRestore(signals, n - 1);
      PartialNext(signals, n - 1);
      if s.multiplex.Some? {
        var condition := s.multiplex.value;
        var record := RawRecord(s.name, condition.selector, condition.ranges);
        var records := AllRecords(signals[..n]);
        assert records[..|records| - 1] == AllRecords(signals[..n - 1]);
        OneRestores(signals, n - 1, record);
      }
    }
  }

  lemma OneRestores(signals: seq<MuxSignal>, n: nat, record: RawRecord)
    requires ValidMultiplexing(signals) && n < |signals| && signals[n].multiplex.Some?
    requires record == RawRecord(signals[n].name, signals[n].multiplex.value.selector, signals[n].multiplex.value.ranges)
    ensures ApplyRecord(Partial(signals, n), record) == Ok(Partial(signals, n)[n := signals[n]])
  {
    var partial := Partial(signals, n);
    IndexByName(partial, signals, record.signal);
    IndexByName(partial, signals, record.selector);
    IndexIsFound(signals, n);
    assert ValidCondition(signals, signals[n]);
    hide IndexOf;
    assert partial[n] == signals[n].(multiplex := None);
  }

  lemma {:induction false} NothingToAdd(signals: seq<MuxSignal>, simple: seq<Option<nat>>, roots: seq<string>)
    requires |simple| == |signals| && Writable(signals) && simple == FirstValues(signals)
    ensures SimplifyAll(signals, simple, roots) == Ok(signals)
  {
    if signals != [] {
      var (before, last) := (signals[..|signals| - 1], signals[|signals| - 1]);
      assert simple[..|signals| - 1] == FirstValues(before);
      NothingToAdd(before, FirstValues(before), roots);
      if last.multiplex.Some? {
        assert Contains(last.multiplex.value.ranges, last.multiplex.value.ranges[0].first);
      }
      assert signals == before + [last];
    }
  }

  lemma {:induction false} SimpleRoots(signals: seq<MuxSignal>, n: nat)
    requires Writable(signals) && n <= |signals|
    ensures Roots(Partial(signals, 0)[..n], FirstValues(signals)[..n]) == RootNames(signals[..n])
  {
    if n > 0 {
      SimpleRoots(signals, n - 1);
      assert Partial(signals, 0)[..n][..n - 1] == Partial(signals, 0)[..n - 1];
      assert FirstValues(signals)[..n][..n - 1] == FirstValues(signals)[..n - 1];
      assert signals[..n][..n - 1] == signals[..n - 1];
    }
  }

  lemma {:induction false} SimpleRestores(signals: seq<MuxSignal>, roots: seq<string>, n: nat)
    requires Writable(signals) && n <= |signals|
    requires forall i :: 0 <= i < |signals| && signals[i].multiplex.Some? ==> SimpleCondition(signals[i].multiplex.value, roots)
    ensures SimplifyAll(Partial(signals, 0)[..n], FirstValues(signals)[..n], roots) == Ok(signals[..n])
  {
    if n > 0 {
      SimpleRestores(signals, roots, n - 1);
      assert Partial(signals, 0)[..n][..n - 1] == Partial(signals, 0)[..n - 1];
      assert FirstValues(signals)[..n][..n - 1] == FirstValues(signals)[..n - 1];
      assert signals[..n] == signals[..n - 1] + [signals[n - 1]];
      var s := signals[n - 1];
      if s.multiplex.Some? {
        var condition := s.multiplex.value;
        assert condition == Condition(roots[0], [Range(condition.ranges[0].first, condition.ranges[0].first)]);
      }
    }
  }

  lemma PartialEnds(signals: seq<MuxSignal>)
    ensures Partial(signals, |signals|) == signals
    ensures signals[..|signals|] == signals && Partial(signals, 0)[..|signals|] == Partial(signals, 0)
    ensures FirstValues(signals)[..|signals|] == FirstValues(signals)
    ensures Distinct(signals) ==> Distinct(Partial(signals, 0))
  {
  }

  lemma ValidIsWritable(signals: seq<MuxSignal>)
    requires ValidMultiplexing(signals)
    ensures Writable(signals)
  {
    forall i | 0 <= i < |signals| && signals[i].multiplex.Some?
      ensures ValidRanges(signals[i].multiplex.value.ranges)
    {
      assert ValidCondition(signals, signals[i]);
    }
  }

  /**
   * Resolving what the writer emits rebuilds exactly the flags, selectors and ranges of the message, with the
   * records and also when the writer leaves them out because the multiplexing is simple.
   */
  lemma {:induction false} MultiplexRoundTrip(signals: seq<MuxSignal>)
    requires ValidMultiplexing(signals)
    ensures WrittenSignals(signals).Ok?
    ensures Resolve(WrittenSignals(signals).value, WrittenRecords(signals)) == Ok(signals)
  {
    ValidIsWritable(signals);
    hide ValidRanges;
    hide ValidCondition;
    hide WrittenSignals;
    hide Markers;
    hide Declared;
    hide Roots;
    hide RootNames;
    hide SimplifyAll;
    hide Acyclic;
    hide Partial;
    hide FirstValues;
    hide SimpleValues;
    DeclaredIsPartial(signals);
    PartialEnds(signals);
    if IsSimple(signals) {
      assert ApplyRecords(Partial(signals, 0), []) == Ok(Partial(signals, 0));
      SimpleRoots(signals, |signals|);
      SimpleRestores(signals, RootNames(signals), |signals|);
    } else {
      RecordsRestore(signals, |signals|);
      NothingToAdd(signals, FirstValues(signals), Roots(signals, FirstValues(signals)));
    }
  }

  // What the markers alone tell of a signal.
  lemma MarkerTells(signals: seq<MuxSignal>, roots: seq<string>, i: nat)
    requires Writable(signals) && i < |signals| && signals[i].multiplex.Some?
    requires Simplified(Partial(signals, 0)[i], FirstValues(signals)[i], roots) == Ok(signals[i])
    ensures SimpleCondition(signals[i].multiplex.value, roots)
  {
  }

  /** The writer leaves the records of a message out exactly if the markers alone resolve to the message. */
  lemma {:induction false} OmittedExactly(signals: seq<MuxSignal>)
    requires ValidMultiplexing(signals)
    ensures WrittenSignals(signals).Ok?
    ensures WrittenRecords(signals) == [] <==> Resolve(WrittenSignals(signals).value, []) == Ok(signals)
  {
    hide ValidRanges;
    hide ValidCondition;
    hide WrittenSignals;
    hide Markers;
    hide Declared;
    hide Roots;
    hide RootNames;
    hide SimplifyAll;
    hide Acyclic;
    hide Partial;
    hide FirstValues;
    hide SimpleValues;
    hide Simplified;
    hide SimpleCondition;
    hide Writable;
    ValidIsWritable(signals);
    MultiplexRoundTrip(signals);
    DeclaredIsPartial(signals);
    PartialEnds(signals);
    assert ApplyRecords(Partial(signals, 0), []) == Ok(Partial(signals, 0));
    if Resolve(WrittenSignals(signals).value, []) == Ok(signals) {
      SimpleRoots(signals, |signals|);
      forall i | 0 <= i < |signals| && signals[i].multiplex.Some?
        ensures SimpleCondition(signals[i].multiplex.value, RootNames(signals))
      {
        SimplifiedAre(Partial(signals, 0), FirstValues(signals), RootNames(signals), i);
        MarkerTells(signals, RootNames(signals), i);
      }
    }
  }

  // ---- Everything the resolver accepts can be written ------------------------------------

  ghost predicate SameDeclarations(left: seq<MuxSignal>, right: seq<MuxSignal>) {
    && |left| == |right|
    && forall i :: 0 <= i < |left| ==> left[i].name == right[i].name && left[i].isMultiplexer == right[i].isMultiplexer
  }

  ghost predicate ValidConditions(signals: seq<MuxSignal>) {
    forall i :: 0 <= i < |signals| ==> ValidCondition(signals, signals[i])
  }

  lemma DeclarationsDecide(left: seq<MuxSignal>, right: seq<MuxSignal>, s: MuxSignal)
    requires SameDeclarations(left, right) && ValidCondition(left, s)
    ensures ValidCondition(right, s)
  {
    if s.multiplex.Some? {
      IndexByName(left, right, s.multiplex.value.selector);
    }
  }

  lemma RecordKeepsValid(signals: seq<MuxSignal>, record: RawRecord)
    requires ValidConditions(signals) && ValidRanges(record.ranges)
    ensures ApplyRecord(signals, record).Ok? ==>
      ValidConditions(ApplyRecord(signals, record).value) && SameDeclarations(signals, ApplyRecord(signals, record).value)
  {
    var r := ApplyRecord(signals, record);
    if r.Ok? && r.value != signals {
      var after := r.value;
      var i := IndexOf(signals, record.signal).value;
      assert SameDeclarations(signals, after);
      assert ValidCondition(signals, signals[i]);
      MoreRanges(signals, signals[i], after[i], record);
      forall k | 0 <= k < |after|
        ensures ValidCondition(after, after[k])
      {
        assert k != i ==> after[k] == signals[k];
        assert ValidCondition(signals, after[k]);
        DeclarationsDecide(signals, after, after[k]);
      }
    }
  }

  lemma {:induction false} MoreRanges(signals: seq<MuxSignal>, before: MuxSignal, after: MuxSignal, record: RawRecord)
    requires ValidCondition(signals, before) && ValidRanges(record.ranges) && record.selector != before.name
    requires IndexOf(signals, record.selector).Some? && signals[IndexOf(signals, record.selector).value].isMultiplexer
    requires after == before.(multiplex := after.multiplex) && after.multiplex.Some? && after.multiplex.value.selector == record.selector
    requires after.multiplex.value.ranges ==
      if before.multiplex.Some? then before.multiplex.value.ranges + record.ranges else record.ranges
    ensures ValidCondition(signals, after)
  {
    hide IndexOf;
  }

  lemma {:induction false} RecordsKeepValid(signals: seq<MuxSignal>, records: seq<RawRecord>)
    requires ValidConditions(signals) && forall i :: 0 <= i < |records| ==> ValidRanges(records[i].ranges)
    ensures ApplyRecords(signals, records).Ok? ==>
      ValidConditions(ApplyRecords(signals, records).value) && SameDeclarations(signals, ApplyRecords(signals, records).value)
  {
    hide ApplyRecord;
    hide ValidConditions;
    if records != [] {
      var before := records[..|records| - 1];
      RecordsKeepValid(signals, before);
      if ApplyRecords(signals, before).Ok? {
        RecordKeepsValid(ApplyRecords(signals, before).value, records[|records| - 1]);
      }
    }
  }

  // A root is a declared multiplexer of the message without a simple value of its own.
  lemma {:induction false} RootIsDeclared(signals: seq<MuxSignal>, simple: seq<Option<nat>>, k: nat) returns (i: nat)
    requires |simple| == |signals| && k < |Roots(signals, simple)|
    ensures i < |signals| && signals[i].name == Roots(signals, simple)[k] && IsRoot(signals[i], simple[i])
  {
    var (before, values) := (signals[..|signals| - 1], simple[..|signals| - 1]);
    if k < |Roots(before, values)| {
      i := RootIsDeclared(before, values, k);
    } else {
      i := |signals| - 1;
    }
  }

  lemma {:induction false} SimplifiedAre(signals: seq<MuxSignal>, simple: seq<Option<nat>>, roots: seq<string>, i: nat)
    requires |simple| == |signals| && SimplifyAll(signals, simple, roots).Ok? && i < |signals|
    ensures Simplified(signals[i], simple[i], roots) == Ok(SimplifyAll(signals, simple, roots).value[i])
    decreases |signals|
  {
    hide Simplified;
    if i < |signals| - 1 {
      SimplifiedAre(signals[..|signals| - 1], simple[..|signals| - 1], roots, i);
    }
  }

  lemma {:induction false} SimplifiedIsValid(signals: seq<MuxSignal>, simple: seq<Option<nat>>, i: nat)
    requires |simple| == |signals| && Distinct(signals) && i < |signals| && ValidCondition(signals, signals[i])
    requires simple[i].Some? ==> simple[i].value < UINT64_LIMIT
    ensures var r := Simplified(signals[i], simple[i], Roots(signals, simple)); r.Ok? ==> ValidCondition(signals, r.value)
  {
    var roots := Roots(signals, simple);
    if simple[i].Some? && signals[i].multiplex.None? && |roots| == 1 {
      var j := RootIsDeclared(signals, simple, 0);
      IndexIsFound(signals, j);
    }
  }

  lemma {:induction false} MarkerValuesFit(raw: seq<RawSignal>, i: nat)
    requires Markers(raw).Ok? && i < |raw|
    ensures Markers(raw).value[i].1.Some? ==> Markers(raw).value[i].1.value < UINT64_LIMIT
    decreases |raw|
  {
    hide ParseUint;
    if i < |raw| - 1 {
      MarkerValuesFit(raw[..|raw| - 1], i);
    }
  }

  lemma {:induction false} SimplifyKeepsValid(signals: seq<MuxSignal>, simple: seq<Option<nat>>)
    requires |simple| == |signals| && Distinct(signals) && ValidConditions(signals)
    requires forall i :: 0 <= i < |simple| && simple[i].Some? ==> simple[i].value < UINT64_LIMIT
    ensures var r := SimplifyAll(signals, simple, Roots(signals, simple)); r.Ok? ==> ValidConditions(r.value) && Distinct(r.value)
  {
    hide Roots;
    hide SimplifyAll;
    hide ValidCondition;
    var roots := Roots(signals, simple);
    var r := SimplifyAll(signals, simple, roots);
    if r.Ok? {
      var after := r.value;
      forall i | 0 <= i < |after|
        ensures after[i].name == signals[i].name && after[i].isMultiplexer == signals[i].isMultiplexer && ValidCondition(signals, after[i])
      {
        SimplifiedAre(signals, simple, roots, i);
        SimplifiedIsValid(signals, simple, i);
      }
      forall i | 0 <= i < |after|
        ensures ValidCondition(after, after[i])
      {
        DeclarationsDecide(signals, after, after[i]);
      }
    }
  }

  lemma SameStaysDistinct(left: seq<MuxSignal>, right: seq<MuxSignal>)
    requires Distinct(left) && SameDeclarations(left, right)
    ensures Distinct(right)
  {
  }

  /** Everything the resolver accepts satisfies what the round trip asks for. */
  lemma ResolvedIsValid(raw: seq<RawSignal>, records: seq<RawRecord>)
    requires Resolve(raw, records).Ok? && forall i :: 0 <= i < |records| ==> ValidRanges(records[i].ranges)
    ensures ValidMultiplexing(Resolve(raw, records).value)
  {
    hide Roots;
    hide SimplifyAll;
    hide ApplyRecords;
    hide Markers;
    hide ValidRanges;
    var markers := Markers(raw).value;
    var declared := Declared(raw, markers);
    assert ValidConditions(declared);
    RecordsKeepValid(declared, records);
    var applied := ApplyRecords(declared, records).value;
    SameStaysDistinct(declared, applied);
    forall i | 0 <= i < |raw|
      ensures SimpleValues(markers)[i].Some? ==> SimpleValues(markers)[i].value < UINT64_LIMIT
    {
      MarkerValuesFit(raw, i);
    }
    SimplifyKeepsValid(applied, SimpleValues(markers));
  }

  /** Writing a resolved message and resolving what was written gives the same message. */
  lemma RewritingChangesNothing(raw: seq<RawSignal>, records: seq<RawRecord>)
    requires Resolve(raw, records).Ok? && forall i :: 0 <= i < |records| ==> ValidRanges(records[i].ranges)
    ensures var signals := Resolve(raw, records).value;
      WrittenSignals(signals).Ok? && Resolve(WrittenSignals(signals).value, WrittenRecords(signals)) == Resolve(raw, records)
  {
    hide Resolve;
    hide ValidMultiplexing;
    ResolvedIsValid(raw, records);
    MultiplexRoundTrip(Resolve(raw, records).value);
  }

  // ---- The resolver at work --------------------------------------------------------------

  class Resolver {
    var signals: seq<MuxSignal>
    var simpleValues: seq<Option<nat>>
    var signalIndexes: map<string, nat>

    constructor ()
      ensures signals == [] && simpleValues == [] && signalIndexes == map[]
    {
      signals, simpleValues, signalIndexes := [], [], map[];
    }

    // The declarations of one message.
    method Declare(raw: seq<RawSignal>) returns (ok: bool)
      requires signals == [] && simpleValues == [] && signalIndexes == map[]
      modifies this
      ensures ok <==> Markers(raw).Ok? && Distinct(Declared(raw, Markers(raw).value))
      ensures ok ==> signals == Declared(raw, Markers(raw).value) && simpleValues == SimpleValues(Markers(raw).value)
    {
      hide ParseMarker;
      for i := 0 to |raw|
        invariant Markers(raw[..i]).Ok? && signals == Declared(raw[..i], Markers(raw[..i]).value)
        invariant simpleValues == SimpleValues(Markers(raw[..i]).value) && Distinct(signals)
        invariant forall name :: name in signalIndexes <==> exists k :: 0 <= k < i && raw[k].name == name
      {
        assert raw[..i + 1][..i] == raw[..i];
        if raw[i].name in signalIndexes {
          var k :| 0 <= k < i && raw[k].name == raw[i].name;
          RepeatedName(raw, k, i);
          return false;
        }
        var marker := ParseMarker(raw[i].marker);
        if marker.Err? {
          BadMarker(raw, i);
          return false;
        }
        signalIndexes := signalIndexes[raw[i].name := i];
        signals := signals + [MuxSignal(raw[i].name, marker.value.0, None)];
        simpleValues := simpleValues + [marker.value.1];
      }
      assert raw[..|raw|] == raw;
      ok := true;
    }

    /** The SG_MUL_VAL_ records, in order. */
    method ApplyAll(records: seq<RawRecord>) returns (ok: bool)
      modifies this
      ensures ok <==> ApplyRecords(old(signals), records).Ok?
      ensures ok ==> signals == ApplyRecords(old(signals), records).value
      ensures simpleValues == old(simpleValues)
    {
      hide ApplyRecord;
      for i := 0 to |records|
        invariant ApplyRecords(old(signals), records[..i]) == Ok(signals) && simpleValues == old(simpleValues)
      {
        assert records[..i + 1][..i] == records[..i];
        var after := ApplyRecord(signals, records[i]);
        if after.Err? {
          RecordsFail(old(signals), records, i + 1);
          return false;
        }
        signals := after.value;
      }
      assert records[..|records|] == records;
      ok := true;
    }

    method CollectRoots() returns (roots: seq<string>)
      requires |simpleValues| == |signals|
      ensures roots == Roots(signals, simpleValues)
    {
      roots := [];
      for i := 0 to |signals|
        invariant roots == Roots(signals[..i], simpleValues[..i])
      {
        assert signals[..i + 1][..i] == signals[..i] && simpleValues[..i + 1][..i] == simpleValues[..i];
        if IsRoot(signals[i], simpleValues[i]) {
          roots := roots + [signals[i].name];
        }
      }
      assert signals[..|signals|] == signals && simpleValues[..|signals|] == simpleValues;
    }

    method SimplifySignals(roots: seq<string>) returns (ok: bool)
      requires |simpleValues| == |signals|
      modifies this`signals
      ensures ok <==> SimplifyAll(old(signals), simpleValues, roots).Ok?
      ensures ok ==> signals == SimplifyAll(old(signals), simpleValues, roots).value
    {
      hide Simplified;
      var before := signals;
      for i := 0 to |before|
        invariant |signals| == |before| && signals[i..] == before[i..]
        invariant SimplifyAll(before[..i], simpleValues[..i], roots) == Ok(signals[..i])
      {
        assert before[..i + 1][..i] == before[..i] && simpleValues[..i + 1][..i] == simpleValues[..i];
        assert signals[i] == signals[i..][0] == before[i];
        var simplified := Simplified(signals[i], simpleValues[i], roots);
        if simplified.Err? {
          SimplifyFails(before, simpleValues, roots, i + 1);
          return false;
        }
        ghost var was := signals;
        signals := signals[i := simplified.value];
        assert signals[..i + 1] == was[..i] + [simplified.value];
        assert signals[i + 1..] == was[i..][1..];
      }
      assert before[..|before|] == before && simpleValues[..|before|] == simpleValues && signals[..|before|] == signals;
      ok := true;
    }

    /** One message from its declarations and records: exactly what Resolve accepts, and what it gives. */
    method ResolveMessage(raw: seq<RawSignal>, records: seq<RawRecord>) returns (ok: bool)
      requires signals == [] && simpleValues == [] && signalIndexes == map[]
      requires forall i :: 0 <= i < |raw| ==> raw[i].name != ""
      modifies this
      ensures ok <==> Resolve(raw, records).Ok?
      ensures ok ==> signals == Resolve(raw, records).value
    {
      hide Markers;
      hide SimplifyAll;
      hide Roots;
      hide Acyclic;
      hide Distinct;
      ok := Declare(raw);
      if !ok {
        return;
      }
      ghost var declared := signals;
      RecordsKeepNames(declared, records);
      ok := ApplyAll(records);
      if !ok {
        return;
      }
      var roots := CollectRoots();
      ghost var applied := signals;
      ok := SimplifySignals(roots);
      if !ok {
        return;
      }
      SimplifyKeepsNames(applied, simpleValues, roots);
      NoEmptyKey(signals);
      var selectors := Selectors(signals);
      ok := ValidateGraph(selectors);
    }
  }

  lemma {:induction false} RepeatedName(raw: seq<RawSignal>, k: nat, i: nat)
    requires k < i < |raw| && raw[k].name == raw[i].name
    ensures Markers(raw).Ok? ==> !Distinct(Declared(raw, Markers(raw).value))
  {
    hide Markers;
    hide ParseMarker;
    if Markers(raw).Ok? {
      var declared := Declared(raw, Markers(raw).value);
      assert declared[k].name == declared[i].name;
    }
  }

  lemma {:induction false} BadMarker(raw: seq<RawSignal>, i: nat)
    requires i < |raw| && ParseMarker(raw[i].marker).Err?
    ensures Markers(raw).Err?
    decreases |raw|
  {
    hide ParseMarker;
    if i < |raw| - 1 {
      BadMarker(raw[..|raw| - 1], i);
    }
  }

  lemma {:induction false} RecordsFail(signals: seq<MuxSignal>, records: seq<RawRecord>, n: nat)
    requires n <= |records| && ApplyRecords(signals, records[..n]).Err?
    ensures ApplyRecords(signals, records).Err?
    decreases |records|
  {
    hide ApplyRecord;
    if n == |records| {
      assert records[..n] == records;
    } else {
      var before := records[..|records| - 1];
      assert before[..n] == records[..n];
      RecordsFail(signals, before, n);
    }
  }

  lemma {:induction false} SimplifyFails(signals: seq<MuxSignal>, simple: seq<Option<nat>>, roots: seq<string>, n: nat)
    requires |simple| == |signals| && n <= |signals| && SimplifyAll(signals[..n], simple[..n], roots).Err?
    ensures SimplifyAll(signals, simple, roots).Err?
    decreases |signals|
  {
    hide Simplified;
    if n == |signals| {
      assert signals[..n] == signals && simple[..n] == simple;
    } else {
      var (before, values) := (signals[..|signals| - 1], simple[..|signals| - 1]);
      assert before[..n] == signals[..n] && values[..n] == simple[..n];
      SimplifyFails(before, values, roots, n);
    }
  }

  ghost predicate Named(signals: seq<MuxSignal>) {
    forall i :: 0 <= i < |signals| ==> signals[i].name != ""
  }

  lemma {:induction false} RecordsKeepNames(signals: seq<MuxSignal>, records: seq<RawRecord>)
    requires Named(signals)
    ensures ApplyRecords(signals, records).Ok? ==>
      Named(ApplyRecords(signals, records).value) && |ApplyRecords(signals, records).value| == |signals|
  {
    hide IndexOf;
    if records != [] {
      RecordsKeepNames(signals, records[..|records| - 1]);
    }
  }

  lemma {:induction false} SimplifyKeepsNames(signals: seq<MuxSignal>, simple: seq<Option<nat>>, roots: seq<string>)
    requires |simple| == |signals| && Named(signals) && SimplifyAll(signals, simple, roots).Ok?
    ensures Named(SimplifyAll(signals, simple, roots).value)
  {
    hide SimplifyAll;
    forall i | 0 <= i < |signals|
      ensures SimplifyAll(signals, simple, roots).value[i].name != ""
    {
      SimplifiedAre(signals, simple, roots, i);
    }
  }

  lemma {:induction false} NoEmptyKey(signals: seq<MuxSignal>)
    requires Named(signals)
    ensures "" !in Selectors(signals)
  {
    if signals != [] {
      NoEmptyKey(signals[..|signals| - 1]);
    }
  }
}
