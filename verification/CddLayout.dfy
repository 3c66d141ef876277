/**
 * Laying out a data record: its items, with every shared structure it refers to, are placed one after the
 * other; cycles and excessive nesting are refused (cdd/parse.go, cdd/bitfield.go).
 */
module CddLayout {
  import opened Wrappers
  import opened CddModel
  import opened CddBitfield

  const MAX_RECORD_NESTING: nat := 256

  datatype Shape = Ident | TextTable | OtherShape

  datatype Quantity = Atom | Repeated(minimum: nat, maximum: nat) | OtherQuantity

  // A declared datatype; None stands for a byte order or an encoding that the resolver does not know, and
  // `reversed` for the value of ReverseBitFieldBytes.
  datatype Datatype = Datatype(
    shape: Shape,
    bitLength: nat,
    quantity: Quantity,
    order: Option<ByteOrder>,
    encoding: Option<Encoding>,
    conversion: Option<Limits>,
    reversed: bool)

  // Label stands for NAME, QUAL and DESC; OtherItem for every element that a record may not contain.
  datatype Item =
    | Label
    | DataObject(name: string, datatypeRef: string)
    | Gap(bits: nat)
    | Struct(datatypeRef: string, children: seq<Item>)
    | Reference(did: string)
    | OtherItem

  datatype Error =
    | MissingName
    | UnknownDatatype
    | InvalidBitLength
    | InvalidBounds
    | UnsupportedQuantity
    | UnsupportedEncoding
    | UnknownByteOrder
    | UnsuitableContainer
    | UnsuitableChild
    | NestedStruct
    | ChildrenExceedContainer
    | InvalidGap
    | VariableFollowed
    | UnresolvedReference
    | ReferenceCycle
    | MissingStructure
    | UnsupportedItem
    | RecordTooLong
    | NestingTooDeep

  type Types = map<string, Datatype>

  // The shared DIDs of the document, with the items of their structure where they have one.
  type Shared = map<string, Option<seq<Item>>>

  // ---- One field ---------------------------------------------------------------------------

  /** resolveFieldDatatype */
  function ResolveDatatype(types: Types, name: string, ref: string, offset: nat): (r: Result<Field, Error>)
    ensures r.Ok? ==> Resolved(r.value) && r.value.bitOffset == offset && r.value.container.None?
  {
    if ref !in types then Err(UnknownDatatype)
    else
      var declared := types[ref];
      if declared.bitLength == 0 || declared.bitLength >= UINT32_LIMIT then Err(InvalidBitLength)
      else if declared.encoding.None? then Err(UnsupportedEncoding)
      else
        var extent :- ResolveQuantity(declared.quantity, declared.bitLength);
        if declared.order.None? then Err(UnknownByteOrder)
        else Ok(Field(
          name, offset, declared.bitLength, extent.minCount,
          if extent.minCount == extent.maxCount then None else Some(extent),
          declared.order.value, declared.encoding.value, declared.conversion, None))
  }

  function ResolveQuantity(quantity: Quantity, bitLength: nat): (r: Result<Extent, Error>)
    requires 0 < bitLength < UINT32_LIMIT
    ensures r.Ok? ==> r.value.minCount <= r.value.maxCount && 0 < r.value.maxCount
    ensures r.Ok? ==> bitLength * r.value.maxCount < UINT32_LIMIT
  {
    match quantity
    case Atom => Ok(Extent(1, 1))
    case Repeated(minimum, maximum) =>
      if minimum > maximum || maximum == 0 then Err(InvalidBounds)
      else if maximum > (UINT32_LIMIT - 1) / bitLength then Err(InvalidBounds)
      else
        QuotientBound(maximum, bitLength, UINT32_LIMIT - 1);
        Ok(Extent(minimum, maximum))
    case OtherQuantity => Err(UnsupportedQuantity)
  }

  lemma QuotientBound(count: nat, size: nat, limit: nat)
    requires size > 0 && count <= limit / size
    ensures size * count <= limit
  {
    assert size * count <= size * (limit / size);
  }

  predicate Resolved(f: Field) {
    && 0 < f.bitLength < UINT32_LIMIT
    && match f.variable
       case None => 0 < f.count && f.bitLength * f.count < UINT32_LIMIT
       case Some(extent) =>
         && f.count == extent.minCount < extent.maxCount
         && f.bitLength * extent.maxCount < UINT32_LIMIT
  }

  function ResolveField(types: Types, name: string, ref: string, offset: nat): (r: Result<Field, Error>)
    ensures r.Ok? ==> Resolved(r.value) && r.value.bitOffset == offset && r.value.container.None?
  {
    if name == "" then Err(MissingName) else ResolveDatatype(types, name, ref, offset)
  }

  // ---- One STRUCT --------------------------------------------------------------------------

  /** The checks appendBitfield makes on the enclosing datatype. */
  function ResolveContainer(types: Types, ref: string, offset: nat): (r: Result<Bitfield, Error>)
    ensures r.Ok? ==> r.value.bitOffset == offset && offset % 8 == 0 && r.value.bitLength % 8 == 0
    ensures r.Ok? ==> offset + r.value.bitLength < UINT32_LIMIT
  {
    var container :- ResolveDatatype(types, "STRUCT", ref, offset);
    var declared := types[ref];
    if declared.shape == OtherShape || container.limits.Some? || container.variable.Some?
       || container.BitSize() % 8 != 0 || offset % 8 != 0
    then Err(UnsuitableContainer)
    else if offset + container.BitSize() >= UINT32_LIMIT then Err(RecordTooLong)
    else if declared.quantity.Repeated? then
      if declared.shape == Ident && container.bitLength == 8 && container.encoding in {Unsigned, Signed, Ascii}
      then Ok(Bitfield(offset, container.BitSize(), if declared.reversed then LittleEndian else BigEndian))
      else Err(UnsuitableContainer)
    else if container.bitLength <= 64 && container.encoding in {Unsigned, Signed}
    then Ok(Bitfield(offset, container.BitSize(), container.order))
    else Err(UnsuitableContainer)
  }

  datatype State = State(fields: seq<Field>, offset: nat)

  /** One child of a STRUCT; the offset counts the bits of the container given away so far. */
  function PlaceChild(types: Types, c: Bitfield, s: State, child: Item): Result<State, Error> {
    Within(PlaceChildFreely(types, c, s, child), c.bitLength, ChildrenExceedContainer)
  }

  function Within(r: Result<State, Error>, limit: nat, e: Error): Result<State, Error> {
    if r.Ok? && r.value.offset > limit then Err(e) else r
  }

  function PlaceChildFreely(types: Types, c: Bitfield, s: State, child: Item): Result<State, Error> {
    match child
    case Label => Ok(s)
    case DataObject(name, ref) =>
      var field :- ResolveField(types, name, ref, s.offset);
      if field.variable.Some? || field.count != 1 || types[ref].quantity.Repeated?
         || field.encoding !in {Unsigned, Signed} || field.bitLength > 64
      then Err(UnsuitableChild)
      else Ok(State(s.fields + [field.(container := Some(c))], s.offset + field.bitLength))
    case Gap(bits) => if bits < UINT32_LIMIT then Ok(s.(offset := s.offset + bits)) else Err(InvalidGap)
    case Struct(_, _) => Err(NestedStruct)
    case _ => Err(UnsupportedItem)
  }

  function PlaceChildren(types: Types, c: Bitfield, fields: seq<Field>, children: seq<Item>): Result<State, Error> {
    if children == [] then Ok(State(fields, 0))
    else
      var before :- PlaceChildren(types, c, fields, children[..|children| - 1]);
      PlaceChild(types, c, before, children[|children| - 1])
  }

  lemma {:induction false} PlaceChildrenPrefix(types: Types, c: Bitfield, fields: seq<Field>, children: seq<Item>, k: nat)
    requires k <= |children| && PlaceChildren(types, c, fields, children).Ok?
    ensures PlaceChildren(types, c, fields, children[..k]).Ok?
  {
    if k < |children| {
      PlaceChildrenPrefix(types, c, fields, children[..|children| - 1], k);
      assert children[..|children| - 1][..k] == children[..k];
    } else {
      assert children[..k] == children;
    }
  }

  // ---- A record without references -----------------------------------------------------------

  predicate EndsVariable(s: State) {
    s.fields != [] && s.fields[|s.fields| - 1].variable.Some?
  }

  /** One item of a record; a reference only marks the place where the shared structure's items begin. */
  function Place(types: Types, s: State, item: Item): Result<State, Error> {
    if EndsVariable(s) && !item.Label? then Err(VariableFollowed)
    else Within(PlaceFreely(types, s, item), UINT32_LIMIT - 1, RecordTooLong)
  }

  function PlaceFreely(types: Types, s: State, item: Item): Result<State, Error> {
    match item
    case Label => Ok(s)
    case DataObject(name, ref) =>
      var field :- ResolveField(types, name, ref, s.offset);
      Ok(State(s.fields + [field], s.offset + field.BitSize()))
    case Gap(bits) =>
      if bits < UINT32_LIMIT && bits % 8 == 0 && s.offset % 8 == 0 then Ok(s.(offset := s.offset + bits))
      else Err(InvalidGap)
    case Struct(ref, children) =>
      var c :- ResolveContainer(types, ref, s.offset);
      var placed :- PlaceChildren(types, c, s.fields, children);
      Ok(State(placed.fields, s.offset + c.bitLength))
    case Reference(_) => Ok(s)
    case OtherItem => Err(UnsupportedItem)
  }

  function PlaceAll(types: Types, s: State, items: seq<Item>): Result<State, Error> {
    if items == [] then Ok(s)
    else
      var before :- PlaceAll(types, s, items[..|items| - 1]);
      Place(types, before, items[|items| - 1])
  }

  function PlaceBehind(types: Types, before: Result<State, Error>, items: seq<Item>): Result<State, Error> {
    if before.Err? then before else PlaceAll(types, before.value, items)
  }

  lemma {:induction false} PlaceAllConcat(types: Types, s: State, left: seq<Item>, right: seq<Item>)
    ensures PlaceAll(types, s, left + right) == PlaceBehind(types, PlaceAll(types, s, left), right)
  {
    hide Place;
    if right == [] {
      assert left + right == left;
    } else {
      var shorter := right[..|right| - 1];
      PlaceAllConcat(types, s, left, shorter);
      assert (left + right)[..|left + right| - 1] == left + shorter;
    }
  }

  // ---- References ----------------------------------------------------------------------------

  /** The items with every shared structure written out behind the reference to it. */
  function Inlined(shared: Shared, items: seq<Item>, active: set<string>, depth: nat): Result<seq<Item>, Error>
    decreases MAX_RECORD_NESTING + 1 - depth, |items|
  {
    if depth > MAX_RECORD_NESTING then Err(NestingTooDeep)
    else if items == [] then Ok([])
    else
      var before :- Inlined(shared, items[..|items| - 1], active, depth);
      var last :- ItemInlined(shared, items[|items| - 1], active, depth);
      Ok(before + last)
  }

  function ItemInlined(shared: Shared, item: Item, active: set<string>, depth: nat): Result<seq<Item>, Error>
    requires depth <= MAX_RECORD_NESTING
    decreases MAX_RECORD_NESTING + 1 - depth, 0
  {
    if !item.Reference? then Ok([item])
    else if item.did !in shared then Err(UnresolvedReference)
    else if item.did in active then Err(ReferenceCycle)
    else if shared[item.did].None? then Err(MissingStructure)
    else
      var inner :- Inlined(shared, shared[item.did].value, active + {item.did}, depth + 1);
      Ok([item] + inner)
  }

  /** The guards against cycles and depth only ever refuse: what they let through does not depend on them. */
  lemma {:induction false} GuardsOnlyRefuse(
      shared: Shared, items: seq<Item>, active: set<string>, depth: nat, active': set<string>, depth': nat)
    requires Inlined(shared, items, active, depth).Ok? && Inlined(shared, items, active', depth').Ok?
    ensures Inlined(shared, items, active, depth) == Inlined(shared, items, active', depth')
    decreases MAX_RECORD_NESTING + 1 - depth, |items|
  {
    if items != [] {
      GuardsOnlyRefuse(shared, items[..|items| - 1], active, depth, active', depth');
      var item := items[|items| - 1];
      if item.Reference? {
        GuardsOnlyRefuse(shared, shared[item.did].value,
          active + {item.did}, depth + 1, active' + {item.did}, depth' + 1);
      }
    }
  }

  // Every reference resolves, and leads to a structure of lower rank.
  ghost predicate RankedItems(shared: Shared, rank: map<string, nat>, items: seq<Item>, bound: nat) {
    forall item :: item in items && item.Reference? ==>
      item.did in shared && shared[item.did].Some? && item.did in rank && rank[item.did] < bound
  }

  ghost predicate Ranked(shared: Shared, rank: map<string, nat>) {
    forall did :: did in shared && shared[did].Some? && did in rank ==>
      RankedItems(shared, rank, shared[did].value, rank[did])
  }

  /** A document without cycles, nested at most 256 deep, is accepted. */
  lemma {:induction false} AcyclicIsAccepted(
      shared: Shared, rank: map<string, nat>, items: seq<Item>, bound: nat, active: set<string>, depth: nat)
    requires Ranked(shared, rank) && RankedItems(shared, rank, items, bound)
    requires forall did :: did in active && did in rank ==> rank[did] >= bound
    requires depth + bound <= MAX_RECORD_NESTING
    ensures Inlined(shared, items, active, depth).Ok?
    decreases MAX_RECORD_NESTING + 1 - depth, |items|
  {
    if items != [] {
      AcyclicIsAccepted(shared, rank, items[..|items| - 1], bound, active, depth);
      var item := items[|items| - 1];
      if item.Reference? {
        assert item in items;
        AcyclicIsAccepted(shared, rank, shared[item.did].value, rank[item.did], active + {item.did}, depth + 1);
      }
    }
  }

  /** The cycle guard alone ends the recursion: the depth limit refuses only documents of over 256 shared DIDs. */
  lemma {:induction false} DepthNeedsManyReferences(shared: Shared, items: seq<Item>, active: set<string>, depth: nat)
    requires active <= shared.Keys && |active| == depth
    requires Inlined(shared, items, active, depth) == Err(NestingTooDeep)
    ensures |shared.Keys| > MAX_RECORD_NESTING
    decreases MAX_RECORD_NESTING + 1 - depth, |items|
  {
    if depth > MAX_RECORD_NESTING {
      SubsetIsSmaller(active, shared.Keys);
    } else {
      var shorter := items[..|items| - 1];
      if Inlined(shared, shorter, active, depth).Err? {
        DepthNeedsManyReferences(shared, shorter, active, depth);
      } else {
        var did := items[|items| - 1].did;
        DepthNeedsManyReferences(shared, shared[did].value, active + {did}, depth + 1);
      }
    }
  }

  lemma {:induction false} SubsetIsSmaller(small: set<string>, large: set<string>)
    requires small <= large
    ensures |small| <= |large|
  {
    if small != {} {
      var x :| x in small;
      SubsetIsSmaller(small - {x}, large - {x});
    }
  }

  lemma {:induction false} InlinedPrefix(shared: Shared, items: seq<Item>, k: nat, active: set<string>, depth: nat)
    requires k <= |items|
    requires Inlined(shared, items, active, depth).Ok?
    ensures Inlined(shared, items[..k], active, depth).Ok?
    ensures Inlined(shared, items[..k], active, depth).value <= Inlined(shared, items, active, depth).value
    decreases |items|
  {
    if k < |items| {
      var shorter := items[..|items| - 1];
      InlinedPrefix(shared, shorter, k, active, depth);
      assert shorter[..k] == items[..k];
    } else {
      assert items[..k] == items;
    }
  }

  lemma {:induction false} InlinedNext(shared: Shared, items: seq<Item>, k: nat, active: set<string>, depth: nat)
    requires k < |items| && depth <= MAX_RECORD_NESTING
    requires Inlined(shared, items[..k], active, depth).Ok?
    ensures var (last, next) := (ItemInlined(shared, items[k], active, depth), Inlined(shared, items[..k + 1], active, depth));
      if last.Ok? then next == Ok(Inlined(shared, items[..k], active, depth).value + last.value) else next == last
  {
    assert items[..k + 1][..k] == items[..k];
  }

  /** What refuses a part of the items refuses all of them. */
  lemma RefusedEarly(
      types: Types, shared: Shared, start: State, items: seq<Item>, k: nat, active: set<string>, depth: nat)
    requires k <= |items|
    requires Accepted(types, shared, start, items, active, depth)
    ensures Accepted(types, shared, start, items[..k], active, depth)
  {
    InlinedPrefix(shared, items, k, active, depth);
    var (part, whole) := (Inlined(shared, items[..k], active, depth).value, Inlined(shared, items, active, depth).value);
    assert whole == part + whole[|part|..];
    PlaceAllConcat(types, start, part, whole[|part|..]);
  }

  predicate Accepted(types: Types, shared: Shared, start: State, items: seq<Item>, active: set<string>, depth: nat) {
    && Inlined(shared, items, active, depth).Ok?
    && PlaceAll(types, start, Inlined(shared, items, active, depth).value).Ok?
  }

  lemma {:induction false} NothingIsAccepted(types: Types, shared: Shared, start: State, active: set<string>, depth: nat)
    requires depth <= MAX_RECORD_NESTING
    ensures Inlined(shared, [], active, depth) == Ok([]) && PlaceAll(types, start, []) == Ok(start)
  {
  }

  lemma {:induction false} TooDeepIsRefused(shared: Shared, items: seq<Item>, active: set<string>, depth: nat)
    requires depth > MAX_RECORD_NESTING
    ensures Inlined(shared, items, active, depth).Err?
  {
  }

  lemma {:induction false} PlaceOne(types: Types, s: State, item: Item)
    ensures PlaceAll(types, s, [item]) == Place(types, s, item)
  {
    assert [item][..0] == [];
  }

  lemma {:induction false} PlaceFirst(types: Types, s: State, item: Item, rest: seq<Item>)
    ensures PlaceAll(types, s, [item] + rest) == PlaceBehind(types, Place(types, s, item), rest)
  {
    PlaceOne(types, s, item);
    PlaceAllConcat(types, s, [item], rest);
  }

  // ---- What a laid-out record looks like -----------------------------------------------------

  // The bits of the record that a field occupies together with the container it shares.
  function Low(f: Field): nat {
    if f.container.Some? then f.container.value.bitOffset else f.bitOffset
  }

  function High(f: Field): nat {
    if f.container.Some? then f.container.value.bitOffset + f.container.value.bitLength else f.bitOffset + f.BitSize()
  }

  predicate IsChild(f: Field) {
    Packed(f) && f.variable.None? && f.count == 1 && f.bitLength <= 64 && f.encoding in {Unsigned, Signed}
  }

  predicate WellFormed(f: Field) {
    && Resolved(f)
    && (f.container.Some? ==> IsChild(f))
  }

  /** The first field ends before the second begins, in the record or in the container they share. */
  predicate Before(first: Field, second: Field) {
    || High(first) <= Low(second)
    || (&& first.container.Some? && first.container == second.container
        && first.bitOffset + first.bitLength <= second.bitOffset)
  }

  /** Fields lie in order inside the first `offset` bits, none shares a bit with another, only the last is variable. */
  ghost predicate Tidy(fields: seq<Field>, offset: nat) {
    && (forall i :: 0 <= i < |fields| ==> WellFormed(fields[i]) && High(fields[i]) <= offset)
    && (forall i, j :: 0 <= i < j < |fields| ==> Before(fields[i], fields[j]))
    && (forall i :: 0 <= i < |fields| - 1 ==> fields[i].variable.None?)
    && (fields != [] && fields[|fields| - 1].variable.Some? ==> High(fields[|fields| - 1]) == offset)
  }

  lemma TidyAppend(fields: seq<Field>, offset: nat, f: Field, offset': nat)
    requires Tidy(fields, offset) && (fields != [] ==> fields[|fields| - 1].variable.None?)
    requires WellFormed(f) && offset <= Low(f) && High(f) <= offset'
    requires f.variable.Some? ==> High(f) == offset'
    ensures Tidy(fields + [f], offset')
  {
    hide Before;
    hide WellFormed;
    var fields' := fields + [f];
    assert Low(f) <= High(f);
    forall i, j | 0 <= i < j < |fields'|
      ensures Before(fields'[i], fields'[j])
    {
      if j == |fields| {
        EarlierIsBefore(fields[i], f);
      }
    }
  }

  lemma EarlierIsBefore(first: Field, second: Field)
    requires High(first) <= Low(second)
    ensures Before(first, second)
  {
  }

  // The fields placed into a container so far, among all the fields placed so far.
  ghost predicate Filling(c: Bitfield, s: State, start: nat) {
    && start <= |s.fields|
    && (forall i :: start <= i < |s.fields| ==>
          && WellFormed(s.fields[i]) && s.fields[i].container == Some(c)
          && s.fields[i].bitOffset + s.fields[i].bitLength <= s.offset)
    && (forall i, j :: start <= i < j < |s.fields| ==> Before(s.fields[i], s.fields[j]))
  }

  lemma ChildKeepsFilling(types: Types, c: Bitfield, s: State, start: nat, child: Item)
    requires c.bitOffset % 8 == 0 && c.bitLength % 8 == 0
    requires Filling(c, s, start) && s.offset <= c.bitLength && PlaceChild(types, c, s, child).Ok?
    ensures var next := PlaceChild(types, c, s, child).value;
      && Filling(c, next, start) && next.offset <= c.bitLength
      && s.fields <= next.fields
  {
    var next := PlaceChild(types, c, s, child).value;
    if child.DataObject? {
      var f := next.fields[|s.fields|];
      assert WellFormed(f);
      hide WellFormed;
      forall i | start <= i < |s.fields|
        ensures Before(s.fields[i], f)
      {
      }
      hide Before;
    }
  }

  lemma {:induction false} ChildrenFill(types: Types, c: Bitfield, fields: seq<Field>, children: seq<Item>)
    requires c.bitOffset % 8 == 0 && c.bitLength % 8 == 0
    requires PlaceChildren(types, c, fields, children).Ok?
    ensures var s := PlaceChildren(types, c, fields, children).value;
      Filling(c, s, |fields|) && s.offset <= c.bitLength && fields <= s.fields
  {
    hide PlaceChild;
    hide Filling;
    if children == [] {
      NothingFills(c, fields);
    } else {
      var shorter := children[..|children| - 1];
      ChildrenFill(types, c, fields, shorter);
      ChildKeepsFilling(types, c, PlaceChildren(types, c, fields, shorter).value, |fields|, children[|children| - 1]);
    }
  }

  lemma NothingFills(c: Bitfield, fields: seq<Field>)
    ensures Filling(c, State(fields, 0), |fields|)
  {
  }

  lemma FilledIsTidy(fields: seq<Field>, offset: nat, c: Bitfield, s: State)
    requires Tidy(fields, offset) && (fields != [] ==> fields[|fields| - 1].variable.None?)
    requires c.bitOffset == offset && fields <= s.fields && Filling(c, s, |fields|)
    ensures Tidy(s.fields, offset + c.bitLength)
  {
    forall i | 0 <= i < |s.fields|
      ensures WellFormed(s.fields[i]) && High(s.fields[i]) <= offset + c.bitLength && s.fields[i].variable.None?
    {
      if i < |fields| {
        assert s.fields[i] == fields[i];
      }
    }
    forall i, j | 0 <= i < j < |s.fields|
      ensures Before(s.fields[i], s.fields[j])
    {
      hide WellFormed;
      if i < |fields| {
        assert s.fields[i] == fields[i];
        if j < |fields| {
          assert s.fields[j] == fields[j];
        } else {
          EarlierIsBefore(fields[i], s.fields[j]);
        }
      }
    }
  }

  lemma PlaceKeepsTidy(types: Types, s: State, item: Item)
    requires Tidy(s.fields, s.offset) && Place(types, s, item).Ok?
    ensures Tidy(Place(types, s, item).value.fields, Place(types, s, item).value.offset)
    ensures Place(types, s, item).value.offset < UINT32_LIMIT
  {
    hide Before;
    hide PlaceChildren;
    match item {
      case DataObject(name, ref) =>
        var f := ResolveField(types, name, ref, s.offset).value;
        TidyAppend(s.fields, s.offset, f, s.offset + f.BitSize());
      case Struct(ref, children) =>
        var c := ResolveContainer(types, ref, s.offset).value;
        ChildrenFill(types, c, s.fields, children);
        FilledIsTidy(s.fields, s.offset, c, PlaceChildren(types, c, s.fields, children).value);
      case _ =>
        hide WellFormed;
    }
  }

  lemma {:induction false} PlacedIsTidy(types: Types, s: State, items: seq<Item>)
    requires Tidy(s.fields, s.offset) && s.offset < UINT32_LIMIT && PlaceAll(types, s, items).Ok?
    ensures Tidy(PlaceAll(types, s, items).value.fields, PlaceAll(types, s, items).value.offset)
    ensures PlaceAll(types, s, items).value.offset < UINT32_LIMIT
  {
    hide Place;
    hide Tidy;
    if items != [] {
      var shorter := items[..|items| - 1];
      PlacedIsTidy(types, s, shorter);
      PlaceKeepsTidy(types, PlaceAll(types, s, shorter).value, items[|items| - 1]);
    }
  }

  function Growth(fields: seq<Field>): int {
    if fields == [] then 0 else fields[|fields| - 1].MaxBitSize() - fields[|fields| - 1].BitSize()
  }

  ghost predicate Spans(record: Record, bits: nat) {
    && Tidy(record.fields, bits) && bits < UINT32_LIMIT
    && record.length == (bits + 7) / 8
    && record.maxLength == (bits + Growth(record.fields) + 7) / 8
  }

  // ---- The resolver --------------------------------------------------------------------------

  class Resolver {
    const types: Types
    const shared: Shared
    var fields: seq<Field>
    var offset: nat
    var activeReferences: set<string>

    constructor (types: Types, shared: Shared)
      ensures this.types == types && this.shared == shared
      ensures fields == [] && offset == 0 && activeReferences == {}
    {
      this.types, this.shared := types, shared;
      fields, offset, activeReferences := [], 0, {};
    }

    function Current(): State
      reads this`fields, this`offset
    {
      State(fields, offset)
    }

    method AppendBitfield(ref: string, children: seq<Item>) returns (r: Result<(), Error>)
      modifies this`fields, this`offset
      ensures var placed := match ResolveContainer(types, ref, old(offset))
                case Ok(c) => PlaceChildren(types, c, old(fields), children)
                case Err(e) => Err(e);
        && r.Ok? == placed.Ok?
        && (r.Ok? ==>
              && fields == placed.value.fields
              && offset == old(offset) + ResolveContainer(types, ref, old(offset)).value.bitLength)
    {
      hide PlaceChild;
      var bitfield :- ResolveContainer(types, ref, offset);
      var position := 0;
      assert children[..0] == [];
      var index := 0;
      while index < |children|
        invariant 0 <= index <= |children|
        invariant PlaceChildren(types, bitfield, old(fields), children[..index]) == Ok(State(fields, position))
        modifies this`fields
      {
        assert children[..index + 1][..index] == children[..index];
        if PlaceChildren(types, bitfield, old(fields), children).Ok? {
          PlaceChildrenPrefix(types, bitfield, old(fields), children, index + 1);
        }
        var placed := PlaceChild(types, bitfield, State(fields, position), children[index]);
        if placed.Err? {
          return Err(placed.error);
        }
        fields, position := placed.value.fields, placed.value.offset;
        index := index + 1;
      }
      assert children[..index] == children;
      offset := offset + bitfield.bitLength;
      return Ok(());
    }

    method AppendFields(items: seq<Item>, depth: nat) returns (r: Result<(), Error>)
      requires offset < UINT32_LIMIT
      modifies this
      ensures r.Ok? <==> Accepted(types, shared, old(Current()), items, old(activeReferences), depth)
      ensures r.Ok? ==>
        && PlaceAll(types, old(Current()), Inlined(shared, items, old(activeReferences), depth).value) == Ok(Current())
        && activeReferences == old(activeReferences) && offset < UINT32_LIMIT
      decreases MAX_RECORD_NESTING + 1 - depth
    {
      hide Place;
      hide PlaceAll;
      hide Inlined;
      hide ItemInlined;
      ghost var (start, active) := (Current(), activeReferences);
      if depth > MAX_RECORD_NESTING {
        TooDeepIsRefused(shared, items, active, depth);
        return Err(NestingTooDeep);
      }
      ghost var flat: seq<Item> := [];
      NothingIsAccepted(types, shared, start, active, depth);
      assert items[..0] == [];
      var index := 0;
      while index < |items|
        invariant 0 <= index <= |items|
        invariant activeReferences == active && offset < UINT32_LIMIT
        invariant Inlined(shared, items[..index], active, depth) == Ok(flat)
        invariant PlaceAll(types, start, flat) == Ok(Current())
      {
        InlinedNext(shared, items, index, active, depth);
        ghost var piece := ItemInlined(shared, items[index], active, depth);
        if piece.Ok? {
          PlaceAllConcat(types, start, flat, piece.value);
        }
        var outcome := AppendItem(items[index], depth);
        if outcome.Err? {
          assert !Accepted(types, shared, start, items[..index + 1], active, depth);
          if Accepted(types, shared, start, items, active, depth) {
            RefusedEarly(types, shared, start, items, index + 1, active, depth);
          }
          return Err(outcome.error);
        }
        flat := flat + piece.value;
        index := index + 1;
      }
      assert items[..index] == items;
      return Ok(());
    }

    // One round of the loop in appendFields.
    method AppendItem(item: Item, depth: nat) returns (r: Result<(), Error>)
      requires depth <= MAX_RECORD_NESTING && offset < UINT32_LIMIT
      modifies this
      ensures var piece := ItemInlined(shared, item, old(activeReferences), depth);
        && r.Ok? == (piece.Ok? && PlaceAll(types, old(Current()), piece.value).Ok?)
        && (r.Ok? ==>
              PlaceAll(types, old(Current()), piece.value) == Ok(Current())
              && activeReferences == old(activeReferences) && offset < UINT32_LIMIT)
      decreases MAX_RECORD_NESTING + 1 - depth, 1
    {
      hide Place;
      hide PlaceAll;
      if item.Reference? {
        r := AppendReference(item, depth);
      } else {
        PlaceOne(types, Current(), item);
        r := AppendPlain(item);
      }
    }

    // Every item but a DIDDATAREF.
    method AppendPlain(item: Item) returns (r: Result<(), Error>)
      requires !item.Reference?
      modifies this`fields, this`offset
      ensures r.Ok? == Place(types, old(Current()), item).Ok?
      ensures r.Ok? ==> Place(types, old(Current()), item) == Ok(Current()) && offset < UINT32_LIMIT
    {
      if |fields| > 0 && fields[|fields| - 1].variable.Some? && !item.Label? {
        return Err(VariableFollowed);
      }
      match item {
        case Label =>
        case DataObject(name, ref) =>
          var field :- ResolveField(types, name, ref, offset);
          fields := fields + [field];
          offset := offset + field.BitSize();
        case Gap(bits) =>
          if bits >= UINT32_LIMIT || bits % 8 != 0 || offset % 8 != 0 {
            return Err(InvalidGap);
          }
          offset := offset + bits;
        case Struct(ref, children) =>
          var outcome := AppendBitfield(ref, children);
          if outcome.Err? {
            return Err(outcome.error);
          }
        case OtherItem =>
          return Err(UnsupportedItem);
      }
      if offset >= UINT32_LIMIT {
        return Err(RecordTooLong);
      }
      return Ok(());
    }

    method AppendReference(item: Item, depth: nat) returns (r: Result<(), Error>)
      requires item.Reference? && depth <= MAX_RECORD_NESTING && offset < UINT32_LIMIT
      modifies this
      ensures var piece := ItemInlined(shared, item, old(activeReferences), depth);
        && r.Ok? == (piece.Ok? && PlaceAll(types, old(Current()), piece.value).Ok?)
        && (r.Ok? ==>
              PlaceAll(types, old(Current()), piece.value) == Ok(Current())
              && activeReferences == old(activeReferences) && offset < UINT32_LIMIT)
      decreases MAX_RECORD_NESTING + 1 - depth, 0
    {
      hide PlaceAll;
      hide Inlined;
      ghost var (start, active, did) := (Current(), activeReferences, item.did);
      ghost var piece := ItemInlined(shared, item, active, depth);
      if piece.Ok? {
        ghost var inner := Inlined(shared, shared[did].value, active + {did}, depth + 1).value;
        assert piece.value == [item] + inner;
        PlaceFirst(types, start, item, inner);
      }
      if |fields| > 0 && fields[|fields| - 1].variable.Some? {
        return Err(VariableFollowed);
      }
      if item.did !in shared {
        return Err(UnresolvedReference);
      }
      if item.did in activeReferences {
        return Err(ReferenceCycle);
      }
      if shared[item.did].None? {
        return Err(MissingStructure);
      }
      activeReferences := activeReferences + {item.did};
      var outcome := AppendFields(shared[item.did].value, depth + 1);
      activeReferences := activeReferences - {item.did};
      if outcome.Err? {
        return Err(outcome.error);
      }
      return Ok(());
    }
  }
  predicate Resolvable(types: Types, shared: Shared, items: seq<Item>) {
    && Accepted(types, shared, State([], 0), items, {}, 0)
    && var s := PlaceAll(types, State([], 0), Inlined(shared, items, {}, 0).value).value;
       s.offset + Growth(s.fields) < UINT32_LIMIT
  }

  /** resolveFields: the fields of a record, its length and the length it can grow to. */
  method ResolveFields(types: Types, shared: Shared, items: seq<Item>) returns (r: Result<Record, Error>)
    ensures r.Ok? <==> Resolvable(types, shared, items)
    ensures r.Ok? ==>
      && var s := PlaceAll(types, State([], 0), Inlined(shared, items, {}, 0).value).value;
         s.fields == r.value.fields && Spans(r.value, s.offset)
  {
    var resolver := new Resolver(types, shared);
    assert resolver.Current() == State([], 0);
    var outcome := resolver.AppendFields(items, 0);
    if outcome.Err? {
      return Err(outcome.error);
    }
    PlacedIsTidy(types, State([], 0), Inlined(shared, items, {}, 0).value);
    var maximum := resolver.offset;
    if |resolver.fields| > 0 {
      var last := resolver.fields[|resolver.fields| - 1];
      GrowthIsNat(last);
      maximum := maximum + last.MaxBitSize() - last.BitSize();
    }
    if maximum >= UINT32_LIMIT {
      return Err(RecordTooLong);
    }
    return Ok(Record((resolver.offset + 7) / 8, (maximum + 7) / 8, resolver.fields));
  }

  lemma GrowthIsNat(f: Field)
    requires Resolved(f)
    ensures f.BitSize() <= f.MaxBitSize()
  {
    if f.variable.Some? {
      assert f.bitLength * f.count <= f.bitLength * f.variable.value.maxCount;
    }
  }
}
