/**
 * What the multiplexing statements of a message come to, said of the statements alone (dbc/resolve.go): the condition
 * of a signal is the ranges of all records about it, or the value of its marker under the only root.
 */
module DbcConditions {
  import opened Wrappers
  import DbcText
  import opened DbcLayout
  import opened DbcMultiplex

  ghost predicate Known(signals: seq<MuxSignal>, name: string) {
    exists i :: 0 <= i < |signals| && signals[i].name == name
  }

  lemma {:induction false} IndexExactly(signals: seq<MuxSignal>, name: string)
    ensures IndexOf(signals, name).Some? <==> Known(signals, name)
  {
    if signals != [] {
      var before := signals[..|signals| - 1];
      IndexExactly(before, name);
      if i :| 0 <= i < |signals| && signals[i].name == name {
        assert i < |before| ==> before[i].name == name;
      }
      if i :| 0 <= i < |before| && before[i].name == name {
        assert signals[i].name == name;
      }
    }
  }

  lemma {:induction false} IndexIs(signals: seq<MuxSignal>, i: nat)
    requires Distinct(signals) && i < |signals|
    ensures IndexOf(signals, signals[i].name) == Some(i)
  {
    IndexExactly(signals, signals[i].name);
  }

  // ---- Markers -----------------------------------------------------------------------------

  /** A marker reads exactly if it has one of the four forms: none, M, m with a value, and m with a value and M. */
  lemma MarkersExactly(marker: string, isMultiplexer: bool, value: Option<nat>)
    ensures ParseMarker(marker) == Ok((isMultiplexer, value)) <==>
      match value
      case None => marker == if isMultiplexer then "M" else ""
      case Some(_) => exists digits :: DbcText.ParseUint(digits) == value && marker == Marked(digits, isMultiplexer)
  {
    hide DbcText.ParseUint;
    if ParseMarker(marker) == Ok((isMultiplexer, value)) && value.Some? {
      var body := marker[1..];
      var digits := if isMultiplexer then body[..|body| - 1] else body;
      assert marker == Marked(digits, isMultiplexer);
    }
    if digits :| DbcText.ParseUint(digits) == value && marker == Marked(digits, isMultiplexer) {
      NumbersEndInDigits(digits);
      if value.Some? {
        assert marker[1..] == if isMultiplexer then digits + "M" else digits;
        assert isMultiplexer ==> marker[1..][..|digits|] == digits;
      }
    }
  }

  function Marked(digits: string, isMultiplexer: bool): string {
    if isMultiplexer then "m" + digits + "M" else "m" + digits
  }

  lemma NumbersEndInDigits(text: string)
    ensures DbcText.ParseUint(text).Some? ==> text != "" && DbcText.IsDigit(text[|text| - 1])
  {
  }

  // ---- Records -----------------------------------------------------------------------------

  /** A record that is about a declared signal and names a declared selector; any other is dropped. */
  ghost predicate Counts(signals: seq<MuxSignal>, record: RawRecord) {
    Known(signals, record.signal) && Known(signals, record.selector)
  }

  ghost predicate IsSelector(signals: seq<MuxSignal>, name: string) {
    exists i :: 0 <= i < |signals| && signals[i].name == name && signals[i].isMultiplexer
  }

  /** The records about a signal, in order. */
  ghost function RecordsFor(signals: seq<MuxSignal>, records: seq<RawRecord>, name: string): seq<RawRecord> {
    if records == [] then []
    else
      var (before, last) := (records[..|records| - 1], records[|records| - 1]);
      RecordsFor(signals, before, name) + if last.signal == name && Counts(signals, last) then [last] else []
  }

  function AllRanges(records: seq<RawRecord>): seq<Range> {
    if records == [] then [] else AllRanges(records[..|records| - 1]) + records[|records| - 1].ranges
  }

  /** The condition that the records about a signal state. */
  function Stated(records: seq<RawRecord>): Option<Condition> {
    if records == [] then None else Some(Condition(records[0].selector, AllRanges(records)))
  }

  lemma {:induction false} StatedMore(records: seq<RawRecord>, record: RawRecord)
    ensures Stated(records + [record]) ==
      if records == [] then Some(Condition(record.selector, record.ranges))
      else Some(Condition(records[0].selector, AllRanges(records) + record.ranges))
  {
    assert (records + [record])[..|records|] == records;
    assert AllRanges([]) + record.ranges == record.ranges;
  }

  /** A record that counts names a multiplexor other than its signal, the same as the records before it. */
  ghost predicate Fits(signals: seq<MuxSignal>, before: seq<RawRecord>, record: RawRecord) {
    Counts(signals, record) ==>
      && IsSelector(signals, record.selector) && record.selector != record.signal
      && var earlier := RecordsFor(signals, before, record.signal);
         earlier != [] ==> earlier[0].selector == record.selector
  }

  ghost predicate AllFit(signals: seq<MuxSignal>, records: seq<RawRecord>) {
    forall k :: 0 <= k < |records| ==> Fits(signals, records[..k], records[k])
  }

  lemma AllFitMore(signals: seq<MuxSignal>, records: seq<RawRecord>)
    requires records != []
    ensures var (before, last) := (records[..|records| - 1], records[|records| - 1]);
      AllFit(signals, records) <==> AllFit(signals, before) && Fits(signals, before, last)
  {
    hide Fits;
    var before := records[..|records| - 1];
    assert forall k :: 0 <= k < |before| ==> records[k] == before[k] && records[..k] == before[..k];
    if AllFit(signals, before) && Fits(signals, before, records[|records| - 1]) {
      forall k | 0 <= k < |records|
        ensures Fits(signals, records[..k], records[k])
      {
        assert k < |before| ==> Fits(signals, before[..k], before[k]);
      }
    }
    if AllFit(signals, records) {
      forall k | 0 <= k < |before|
        ensures Fits(signals, before[..k], before[k])
      {
        assert Fits(signals, records[..k], records[k]);
      }
    }
  }

  /** The declared signals with the conditions of the records on them. */
  ghost predicate Conditioned(signals: seq<MuxSignal>, records: seq<RawRecord>, applied: seq<MuxSignal>) {
    && |applied| == |signals|
    && forall i :: 0 <= i < |signals| ==>
         applied[i] == signals[i].(multiplex := Stated(RecordsFor(signals, records, signals[i].name)))
  }

  ghost predicate Bare(signals: seq<MuxSignal>) {
    Distinct(signals) && forall i :: 0 <= i < |signals| ==> signals[i].multiplex.None?
  }

  lemma {:induction false} RecordsExactly(signals: seq<MuxSignal>, records: seq<RawRecord>)
    requires Bare(signals)
    ensures ApplyRecords(signals, records).Ok? <==> AllFit(signals, records)
    ensures ApplyRecords(signals, records).Ok? ==> Conditioned(signals, records, ApplyRecords(signals, records).value)
  {
    hide Fits;
    hide AllFit;
    hide ApplyRecord;
    hide Conditioned;
    if records == [] {
      NothingStated(signals);
    } else {
      var (before, last) := (records[..|records| - 1], records[|records| - 1]);
      RecordsExactly(signals, before);
      AllFitMore(signals, records);
      if ApplyRecords(signals, before).Ok? {
        RecordExactly(signals, records, ApplyRecords(signals, before).value);
      }
    }
  }

  lemma NothingStated(signals: seq<MuxSignal>)
    requires Bare(signals)
    ensures AllFit(signals, []) && Conditioned(signals, [], signals)
  {
  }

  lemma {:induction false} ForStep(signals: seq<MuxSignal>, records: seq<RawRecord>, name: string)
    requires records != []
    ensures var (before, last) := (records[..|records| - 1], records[|records| - 1]);
      RecordsFor(signals, records, name) ==
        if last.signal == name && Counts(signals, last) then RecordsFor(signals, before, name) + [last] else RecordsFor(signals, before, name)
  {
    var before := RecordsFor(signals, records[..|records| - 1], name);
    assert before + [] == before;
  }

  // Where record `last` leaves one signal.
  ghost function Step(signals: seq<MuxSignal>, applied: seq<MuxSignal>, last: RawRecord, k: nat): MuxSignal
    requires k < |applied| == |signals|
  {
    if !Counts(signals, last) || signals[k].name != last.signal then applied[k]
    else match applied[k].multiplex
      case None => applied[k].(multiplex := Some(Condition(last.selector, last.ranges)))
      case Some(c) => applied[k].(multiplex := Some(Condition(c.selector, c.ranges + last.ranges)))
  }

  // With the places of its signal and its selector found.
  lemma {:induction false} AppliedAt(signals: seq<MuxSignal>, before: seq<RawRecord>, applied: seq<MuxSignal>, last: RawRecord, i: nat, j: nat)
    requires Conditioned(signals, before, applied) && Counts(signals, last) && i < |signals| && j < |signals|
    requires signals[i].name == last.signal && signals[j].name == last.selector
    requires IndexOf(applied, last.signal) == Some(i) && IndexOf(applied, last.selector) == Some(j)
    requires IsSelector(signals, last.selector) <==> signals[j].isMultiplexer
    requires forall k :: 0 <= k < |signals| && signals[k].name == last.signal ==> k == i
    ensures ApplyRecord(applied, last).Ok? <==> Fits(signals, before, last)
    ensures ApplyRecord(applied, last).Ok? ==> SteppedTo(signals, applied, last, ApplyRecord(applied, last).value)
  {
    hide IndexOf;
    hide Counts;
    hide IsSelector;
    hide RecordsFor;
    hide AllRanges;
  }

  ghost predicate SteppedTo(signals: seq<MuxSignal>, applied: seq<MuxSignal>, last: RawRecord, after: seq<MuxSignal>)
    requires |applied| == |signals|
  {
    |after| == |signals| && forall k :: 0 <= k < |signals| ==> after[k] == Step(signals, applied, last, k)
  }

  lemma AppliedExactly(signals: seq<MuxSignal>, before: seq<RawRecord>, applied: seq<MuxSignal>, last: RawRecord)
    requires Bare(signals) && Conditioned(signals, before, applied)
    ensures ApplyRecord(applied, last).Ok? <==> Fits(signals, before, last)
    ensures ApplyRecord(applied, last).Ok? ==> SteppedTo(signals, applied, last, ApplyRecord(applied, last).value)
  {
    hide AllRanges;
    hide RecordsFor;
    hide IndexOf;
    SameNames(signals, applied, last.signal);
    SameNames(signals, applied, last.selector);
    if Counts(signals, last) {
      hide ApplyRecord;
      hide Fits;
      hide SteppedTo;
      assert Distinct(applied);
      var i :| 0 <= i < |signals| && signals[i].name == last.signal;
      var j :| 0 <= j < |signals| && signals[j].name == last.selector;
      IndexIs(applied, i);
      IndexIs(applied, j);
      assert IsSelector(signals, last.selector) <==> signals[j].isMultiplexer;
      AppliedAt(signals, before, applied, last, i, j);
    }
  }

  lemma RecordExactly(signals: seq<MuxSignal>, records: seq<RawRecord>, applied: seq<MuxSignal>)
    requires Bare(signals) && records != [] && Conditioned(signals, records[..|records| - 1], applied)
    ensures var (before, last) := (records[..|records| - 1], records[|records| - 1]);
      && (ApplyRecord(applied, last).Ok? <==> Fits(signals, before, last))
      && (ApplyRecord(applied, last).Ok? ==> Conditioned(signals, records, ApplyRecord(applied, last).value))
  {
    hide ApplyRecord;
    hide RecordsFor;
    hide Fits;
    hide Counts;
    hide Distinct;
    var (before, last) := (records[..|records| - 1], records[|records| - 1]);
    AppliedExactly(signals, before, applied, last);
    forall k | 0 <= k < |signals|
      ensures Step(signals, applied, last, k) == signals[k].(multiplex := Stated(RecordsFor(signals, records, signals[k].name)))
    {
      ForStep(signals, records, signals[k].name);
      StatedMore(RecordsFor(signals, before, signals[k].name), last);
    }
  }

  lemma {:induction false} SameNames(signals: seq<MuxSignal>, applied: seq<MuxSignal>, name: string)
    requires |applied| == |signals| && forall i :: 0 <= i < |signals| ==> applied[i].name == signals[i].name
    ensures IndexOf(applied, name).Some? <==> Known(signals, name)
  {
    IndexExactly(applied, name);
    if i :| 0 <= i < |signals| && signals[i].name == name {
      assert applied[i].name == name;
    }
    if i :| 0 <= i < |applied| && applied[i].name == name {
      assert signals[i].name == name;
    }
  }

  // ---- Simple values -----------------------------------------------------------------------

  /** The one multiplexor that no record and no simple value puts under another. */
  ghost predicate OnlyRoot(signals: seq<MuxSignal>, simple: seq<Option<nat>>, i: nat) {
    && i < |signals| == |simple| && IsRoot(signals[i], simple[i])
    && forall j :: 0 <= j < |signals| && IsRoot(signals[j], simple[j]) ==> j == i
  }

  lemma {:induction false} NoRoots(signals: seq<MuxSignal>, simple: seq<Option<nat>>)
    requires |signals| == |simple|
    ensures Roots(signals, simple) == [] <==> forall i :: 0 <= i < |signals| ==> !IsRoot(signals[i], simple[i])
  {
    if signals != [] {
      var (before, less) := (signals[..|signals| - 1], simple[..|simple| - 1]);
      NoRoots(before, less);
      assert forall i :: 0 <= i < |before| ==> before[i] == signals[i] && less[i] == simple[i];
      if Roots(signals, simple) == [] {
        forall i | 0 <= i < |signals|
          ensures !IsRoot(signals[i], simple[i])
        {
          assert i < |before| ==> !IsRoot(before[i], less[i]);
        }
      }
    }
  }

  lemma {:induction false} RootsExactly(signals: seq<MuxSignal>, simple: seq<Option<nat>>)
    requires |signals| == |simple|
    ensures |Roots(signals, simple)| == 1 <==> exists i: nat :: OnlyRoot(signals, simple, i)
    ensures forall i: nat :: OnlyRoot(signals, simple, i) ==> Roots(signals, simple) == [signals[i].name]
  {
    hide IsRoot;
    if signals != [] {
      var (before, less) := (signals[..|signals| - 1], simple[..|simple| - 1]);
      RootsExactly(before, less);
      NoRoots(before, less);
      var last := |signals| - 1;
      assert forall i :: 0 <= i < |before| ==> before[i] == signals[i] && less[i] == simple[i];
      if IsRoot(signals[last], simple[last]) {
        assert OnlyRoot(signals, simple, last) <==> Roots(before, less) == [];
        assert forall i: nat :: OnlyRoot(signals, simple, i) ==> i == last;
      } else {
        forall i: nat
          ensures OnlyRoot(signals, simple, i) <==> OnlyRoot(before, less, i)
        {
          assert i < |before| ==> before[i] == signals[i];
        }
      }
    }
  }

  lemma {:induction false} SimplifiesEach(signals: seq<MuxSignal>, simple: seq<Option<nat>>, roots: seq<string>)
    requires |signals| == |simple|
    ensures SimplifyAll(signals, simple, roots).Ok? <==> forall i :: 0 <= i < |signals| ==> Simplified(signals[i], simple[i], roots).Ok?
    ensures SimplifyAll(signals, simple, roots).Ok? ==>
      forall i :: 0 <= i < |signals| ==> Simplified(signals[i], simple[i], roots) == Ok(SimplifyAll(signals, simple, roots).value[i])
  {
    hide Simplified;
    if signals != [] {
      var (before, less) := (signals[..|signals| - 1], simple[..|simple| - 1]);
      SimplifiesEach(before, less, roots);
      assert forall i :: 0 <= i < |before| ==> before[i] == signals[i] && less[i] == simple[i];
      var last := |signals| - 1;
      if SimplifyAll(signals, simple, roots).Err? && Simplified(signals[last], simple[last], roots).Ok? {
        var i :| 0 <= i < |before| && !Simplified(before[i], less[i], roots).Ok?;
        assert !Simplified(signals[i], simple[i], roots).Ok?;
      }
    }
  }

  // ---- The whole message -------------------------------------------------------------------

  ghost function Applied(signals: seq<MuxSignal>, records: seq<RawRecord>): (applied: seq<MuxSignal>)
    ensures Conditioned(signals, records, applied)
  {
    seq(|signals|, i requires 0 <= i < |signals| => signals[i].(multiplex := Stated(RecordsFor(signals, records, signals[i].name))))
  }

  /** A marker's value lies in the ranges of the records or, without records, stands under the only root. */
  ghost predicate MarkerFits(applied: seq<MuxSignal>, simple: seq<Option<nat>>, i: nat) {
    && i < |applied| == |simple|
    && (simple[i].None?
        || (applied[i].multiplex.Some? && Contains(applied[i].multiplex.value.ranges, simple[i].value))
        || (applied[i].multiplex.None? && exists root: nat :: OnlyRoot(applied, simple, root)))
  }

  /** A signal as it is meant: conditioned by its records, or by its marker's value under the only root. */
  ghost predicate IsMeant(applied: seq<MuxSignal>, simple: seq<Option<nat>>, i: nat, s: MuxSignal) {
    && i < |applied| == |simple|
    && if applied[i].multiplex.Some? || simple[i].None? then s == applied[i]
       else exists root: nat :: OnlyRoot(applied, simple, root) && s == UnderRoot(applied, i, applied[root].name, simple[i].value)
  }

  function UnderRoot(applied: seq<MuxSignal>, i: nat, root: string, value: nat): MuxSignal
    requires i < |applied|
  {
    applied[i].(multiplex := Some(Condition(root, [Range(value, value)])))
  }

  lemma {:induction false} SimplifiedExactly(applied: seq<MuxSignal>, simple: seq<Option<nat>>, i: nat)
    requires i < |applied| == |simple|
    ensures var r := Simplified(applied[i], simple[i], Roots(applied, simple));
      (r.Ok? <==> MarkerFits(applied, simple, i)) && (r.Ok? ==> IsMeant(applied, simple, i, r.value))
  {
    hide Roots;
    hide OnlyRoot;
    hide Contains;
    RootsExactly(applied, simple);
  }

  lemma {:induction false} MarkersEach(raw: seq<RawSignal>)
    ensures Markers(raw).Ok? <==> forall i :: 0 <= i < |raw| ==> ParseMarker(raw[i].marker).Ok?
    ensures Markers(raw).Ok? ==> forall i :: 0 <= i < |raw| ==> ParseMarker(raw[i].marker) == Ok(Markers(raw).value[i])
  {
    hide ParseMarker;
    if raw != [] {
      var before := raw[..|raw| - 1];
      MarkersEach(before);
      assert forall i :: 0 <= i < |before| ==> before[i] == raw[i];
      var last := raw[|raw| - 1];
      if Markers(raw).Err? && ParseMarker(last.marker).Ok? {
        var i :| 0 <= i < |before| && !ParseMarker(before[i].marker).Ok?;
        assert !ParseMarker(raw[i].marker).Ok?;
      }
    }
  }

  /**
   * A message resolves exactly if its markers read, its names differ, every record that counts names one multiplexor
   * besides its signal, every marker's value fits, and no selectors run in a circle; then every signal is as meant.
   */
  lemma {:induction false} ResolvesExactly(raw: seq<RawSignal>, records: seq<RawRecord>)
    ensures Resolve(raw, records).Ok? <==>
      && Markers(raw).Ok?
      && var (declared, simple) := (Declared(raw, Markers(raw).value), SimpleValues(Markers(raw).value));
      && Distinct(declared) && AllFit(declared, records)
      && (forall i :: 0 <= i < |raw| ==> MarkerFits(Applied(declared, records), simple, i))
      && exists signals :: AllMeant(Applied(declared, records), simple, signals) && Acyclic(Selectors(signals))
    ensures Resolve(raw, records).Ok? ==>
      AllMeant(Applied(Declared(raw, Markers(raw).value), records), SimpleValues(Markers(raw).value), Resolve(raw, records).value)
  {
    hide Markers;
    hide AllFit;
    hide Acyclic;
    hide Selectors;
    hide MarkerFits;
    hide IsMeant;
    hide Roots;
    hide Simplified;
    if Markers(raw).Ok? {
      var (declared, simple) := (Declared(raw, Markers(raw).value), SimpleValues(Markers(raw).value));
      if Distinct(declared) {
        RecordsExactly(declared, records);
        if AllFit(declared, records) {
          var applied := ApplyRecords(declared, records).value;
          assert applied == Applied(declared, records);
          MeantExactly(applied, simple);
        }
      }
    }
  }

  ghost predicate AllMeant(applied: seq<MuxSignal>, simple: seq<Option<nat>>, signals: seq<MuxSignal>) {
    |signals| == |applied| && forall i :: 0 <= i < |applied| ==> IsMeant(applied, simple, i, signals[i])
  }

  lemma {:induction false} MeantExactly(applied: seq<MuxSignal>, simple: seq<Option<nat>>)
    requires |applied| == |simple|
    ensures var r := SimplifyAll(applied, simple, Roots(applied, simple));
      && (r.Ok? <==> forall i :: 0 <= i < |applied| ==> MarkerFits(applied, simple, i))
      && (r.Ok? ==> AllMeant(applied, simple, r.value) && forall signals :: AllMeant(applied, simple, signals) ==> signals == r.value)
  {
    hide Simplified;
    hide Roots;
    hide IsMeant;
    hide MarkerFits;
    var roots := Roots(applied, simple);
    SimplifiesEach(applied, simple, roots);
    forall i | 0 <= i < |applied|
      ensures Simplified(applied[i], simple[i], roots).Ok? <==> MarkerFits(applied, simple, i)
      ensures Simplified(applied[i], simple[i], roots).Ok? ==> IsMeant(applied, simple, i, Simplified(applied[i], simple[i], roots).value)
    {
      SimplifiedExactly(applied, simple, i);
    }
    var r := SimplifyAll(applied, simple, roots);
    if r.Ok? {
      forall signals | AllMeant(applied, simple, signals)
        ensures signals == r.value
      {
        forall i | 0 <= i < |applied|
          ensures signals[i] == r.value[i]
        {
          MeantIsUnique(applied, simple, i, signals[i], r.value[i]);
        }
      }
    }
  }

  lemma MeantIsUnique(applied: seq<MuxSignal>, simple: seq<Option<nat>>, i: nat, left: MuxSignal, right: MuxSignal)
    requires IsMeant(applied, simple, i, left) && IsMeant(applied, simple, i, right)
    ensures left == right
  {
    hide IsRoot;
    if applied[i].multiplex.None? && simple[i].Some? {
      var a: nat :| OnlyRoot(applied, simple, a) && left == UnderRoot(applied, i, applied[a].name, simple[i].value);
      var b: nat :| OnlyRoot(applied, simple, b) && right == UnderRoot(applied, i, applied[b].name, simple[i].value);
      assert IsRoot(applied[b], simple[b]);
    }
  }
}
