/**
 * Which data records are accepted and where their fields lie, said of the declarations alone (cdd/parse.go,
 * cdd/bitfield.go): a field begins where the bits of everything before it end.
 */
module CddRecord {
  import opened Wrappers
  import opened CddModel
  import opened CddLayout

  // ---- One datatype ------------------------------------------------------------------------

  function Minimum(d: Datatype): nat {
    if d.quantity.Repeated? then d.quantity.minimum else 1
  }

  function Maximum(d: Datatype): nat {
    if d.quantity.Repeated? then d.quantity.maximum else 1
  }

  /** A datatype that a field can have. */
  predicate Sound(d: Datatype) {
    && 0 < d.bitLength && d.encoding.Some? && d.order.Some? && !d.quantity.OtherQuantity?
    && Minimum(d) <= Maximum(d) && 0 < Maximum(d) && d.bitLength * Maximum(d) < UINT32_LIMIT
  }

  function FieldOf(name: string, offset: nat, d: Datatype): Field
    requires Sound(d)
  {
    Field(name, offset, d.bitLength, Minimum(d),
          if Minimum(d) < Maximum(d) then Some(Extent(Minimum(d), Maximum(d))) else None,
          d.order.value, d.encoding.value, d.conversion, None)
  }

  lemma DatatypeExactly(types: Types, name: string, ref: string, offset: nat)
    ensures ResolveDatatype(types, name, ref, offset).Ok? <==> ref in types && Sound(types[ref])
    ensures ResolveDatatype(types, name, ref, offset).Ok? ==>
      ResolveDatatype(types, name, ref, offset).value == FieldOf(name, offset, types[ref])
  {
    if ref in types && 0 < types[ref].bitLength {
      QuotientExactly(Maximum(types[ref]), types[ref].bitLength);
    }
  }

  lemma QuotientExactly(count: nat, size: nat)
    requires size > 0
    ensures count <= (UINT32_LIMIT - 1) / size <==> size * count < UINT32_LIMIT
    ensures count > 0 && size * count < UINT32_LIMIT ==> size < UINT32_LIMIT
  {
    var q := (UINT32_LIMIT - 1) / size;
    assert size * q <= UINT32_LIMIT - 1 < size * (q + 1);
    if count <= q {
      assert size * count <= size * q;
    } else {
      assert size * (q + 1) <= size * count;
    }
    assert count > 0 ==> size <= size * count;
  }

  // ---- One STRUCT --------------------------------------------------------------------------

  function BitsOfType(d: Datatype): nat {
    d.bitLength * Minimum(d)
  }

  /** A datatype that can enclose packed fields: an integer of up to 64 bits, or a fixed run of octets. */
  predicate CanContain(d: Datatype) {
    && Sound(d) && d.shape != OtherShape && d.conversion.None? && Minimum(d) == Maximum(d) && BitsOfType(d) % 8 == 0
    && if d.quantity.Repeated? then d.shape == Ident && d.bitLength == 8 && d.encoding.value in {Unsigned, Signed, Ascii}
       else d.bitLength <= 64 && d.encoding.value in {Unsigned, Signed}
  }

  function ContainerOf(d: Datatype, offset: nat): Bitfield
    requires Sound(d)
  {
    Bitfield(offset, BitsOfType(d),
             if !d.quantity.Repeated? then d.order.value else if d.reversed then LittleEndian else BigEndian)
  }

  lemma ContainerExactly(types: Types, ref: string, offset: nat)
    ensures ResolveContainer(types, ref, offset).Ok? <==>
      ref in types && CanContain(types[ref]) && offset % 8 == 0 && offset + BitsOfType(types[ref]) < UINT32_LIMIT
    ensures ResolveContainer(types, ref, offset).Ok? ==>
      ResolveContainer(types, ref, offset).value == ContainerOf(types[ref], offset)
  {
    hide ResolveDatatype;
    DatatypeExactly(types, "STRUCT", ref, offset);
  }

  /** What may stand in a STRUCT: an atomic integer under a name, or a gap. */
  predicate Packable(types: Types, child: Item) {
    match child
    case Label => true
    case DataObject(name, ref) =>
      && name != "" && ref in types && Sound(types[ref]) && types[ref].quantity.Atom?
      && types[ref].encoding.value in {Unsigned, Signed} && types[ref].bitLength <= 64
    case Gap(bits) => bits < UINT32_LIMIT
    case _ => false
  }

  function ChildBits(types: Types, child: Item): nat {
    match child
    case DataObject(_, ref) => if ref in types then types[ref].bitLength else 0
    case Gap(bits) => bits
    case _ => 0
  }

  function AllChildBits(types: Types, children: seq<Item>): nat {
    if children == [] then 0 else AllChildBits(types, children[..|children| - 1]) + ChildBits(types, children[|children| - 1])
  }

  predicate AllPackable(types: Types, children: seq<Item>) {
    forall i :: 0 <= i < |children| ==> Packable(types, children[i])
  }

  /** The packed field of each data object, where the bits of the children before it end. */
  function ChildFields(types: Types, c: Bitfield, children: seq<Item>): seq<Field> {
    if children == [] then []
    else
      var (before, last) := (children[..|children| - 1], children[|children| - 1]);
      ChildFields(types, c, before) +
      if last.DataObject? && last.datatypeRef in types && Sound(types[last.datatypeRef]) then
        [FieldOf(last.name, AllChildBits(types, before), types[last.datatypeRef]).(container := Some(c))]
      else []
  }

  lemma {:induction false} ChildrenExactly(types: Types, c: Bitfield, fields: seq<Field>, children: seq<Item>)
    ensures PlaceChildren(types, c, fields, children).Ok? <==>
      AllPackable(types, children) && AllChildBits(types, children) <= c.bitLength
    ensures PlaceChildren(types, c, fields, children).Ok? ==>
      PlaceChildren(types, c, fields, children).value == State(fields + ChildFields(types, c, children), AllChildBits(types, children))
  {
    hide ResolveDatatype;
    if children != [] {
      var (before, last) := (children[..|children| - 1], children[|children| - 1]);
      ChildrenExactly(types, c, fields, before);
      assert children == before + [last];
      assert AllPackable(types, children) <==> AllPackable(types, before) && Packable(types, last);
      if last.DataObject? {
        DatatypeExactly(types, last.name, last.datatypeRef, AllChildBits(types, before));
      }
    }
  }

  // ---- One record --------------------------------------------------------------------------

  /** The bits an item takes up before it has grown; references are written out behind the item that names them. */
  function ItemBits(types: Types, item: Item): nat {
    match item
    case DataObject(_, ref) => if ref in types then BitsOfType(types[ref]) else 0
    case Gap(bits) => bits
    case Struct(ref, _) => if ref in types then BitsOfType(types[ref]) else 0
    case _ => 0
  }

  function AllBits(types: Types, items: seq<Item>): nat {
    if items == [] then 0 else AllBits(types, items[..|items| - 1]) + ItemBits(types, items[|items| - 1])
  }

  /** What may stand in a record at an offset. */
  predicate Placeable(types: Types, item: Item, offset: nat) {
    match item
    case Label => true
    case Reference(_) => true
    case DataObject(name, ref) => name != "" && ref in types && Sound(types[ref])
    case Gap(bits) => bits < UINT32_LIMIT && bits % 8 == 0 && offset % 8 == 0
    case Struct(ref, children) =>
      && ref in types && CanContain(types[ref]) && offset % 8 == 0
      && AllPackable(types, children) && AllChildBits(types, children) <= BitsOfType(types[ref])
    case OtherItem => false
  }

  predicate AllPlaceable(types: Types, items: seq<Item>) {
    forall i :: 0 <= i < |items| ==> Placeable(types, items[i], AllBits(types, items[..i]))
  }

  /** An item whose number of elements varies. */
  predicate Varies(types: Types, item: Item) {
    item.DataObject? && item.datatypeRef in types && Minimum(types[item.datatypeRef]) < Maximum(types[item.datatypeRef])
  }

  predicate VariesLast(types: Types, items: seq<Item>) {
    forall i, j :: 0 <= i < j < |items| && Varies(types, items[i]) ==> items[j].Label?
  }

  function ItemFields(types: Types, item: Item, offset: nat): seq<Field> {
    match item
    case DataObject(name, ref) => if ref in types && Sound(types[ref]) then [FieldOf(name, offset, types[ref])] else []
    case Struct(ref, children) =>
      if ref in types && Sound(types[ref]) then ChildFields(types, ContainerOf(types[ref], offset), children) else []
    case _ => []
  }

  function AllFields(types: Types, items: seq<Item>): seq<Field> {
    if items == [] then []
    else
      var before := items[..|items| - 1];
      AllFields(types, before) + ItemFields(types, items[|items| - 1], AllBits(types, before))
  }

  /** A record of these items is accepted exactly if each may stand where it begins, and only the last varies. */
  ghost predicate Acceptable(types: Types, items: seq<Item>) {
    AllPlaceable(types, items) && VariesLast(types, items) && AllBits(types, items) < UINT32_LIMIT
  }

  ghost predicate SomeVaries(types: Types, items: seq<Item>) {
    exists i :: 0 <= i < |items| && Varies(types, items[i])
  }

  lemma SomeVariesStep(types: Types, items: seq<Item>)
    requires items != []
    ensures SomeVaries(types, items) <==> SomeVaries(types, items[..|items| - 1]) || Varies(types, items[|items| - 1])
  {
    hide Varies;
    var before := items[..|items| - 1];
    if i :| 0 <= i < |items| && Varies(types, items[i]) {
      assert i < |before| ==> before[i] == items[i];
    }
    if i :| 0 <= i < |before| && Varies(types, before[i]) {
      assert before[i] == items[i];
    }
  }

  lemma EndsStep(types: Types, fields: seq<Field>, offset: nat, offset': nat, item: Item)
    requires Placeable(types, item, offset) && (item.Label? || !EndsVariable(State(fields, offset)))
    ensures EndsVariable(State(fields + ItemFields(types, item, offset), offset'))
      <==> EndsVariable(State(fields, offset)) || Varies(types, item)
  {
    hide AllPackable;
    if item.Struct? {
      var c := ContainerOf(types[item.datatypeRef], offset);
      ChildrenDoNotVary(types, c, item.children);
      hide ChildFields;
      var children := ChildFields(types, c, item.children);
      assert children == [] ==> fields + children == fields;
      assert children != [] ==> (fields + children)[|fields + children| - 1] == children[|children| - 1];
    } else if !item.DataObject? {
      assert fields + [] == fields;
    }
  }

  lemma {:induction false} EndsAsItemsDo(types: Types, items: seq<Item>)
    requires AllPlaceable(types, items) && VariesLast(types, items)
    ensures EndsVariable(State(AllFields(types, items), AllBits(types, items))) <==> SomeVaries(types, items)
  {
    hide EndsVariable;
    hide SomeVaries;
    hide Placeable;
    hide ItemFields;
    hide ItemBits;
    hide Varies;
    hide AllPlaceable;
    hide VariesLast;
    if items == [] {
      NothingVaries(types);
    } else {
      var (before, last) := (items[..|items| - 1], items[|items| - 1]);
      Shorter(types, items);
      EndsAsItemsDo(types, before);
      SomeVariesStep(types, items);
      EndsStep(types, AllFields(types, before), AllBits(types, before), AllBits(types, items), last);
    }
  }

  lemma NothingVaries(types: Types)
    ensures !SomeVaries(types, []) && !EndsVariable(State([], 0))
  {
  }

  lemma {:induction false} Shorter(types: Types, items: seq<Item>)
    requires items != []
    ensures var (before, last) := (items[..|items| - 1], items[|items| - 1]);
      && (AllPlaceable(types, items) <==> AllPlaceable(types, before) && Placeable(types, last, AllBits(types, before)))
      && (VariesLast(types, items) <==>
            VariesLast(types, before) && (last.Label? || !SomeVaries(types, before)))
  {
    hide Placeable;
    hide AllBits;
    hide Varies;
    var before := items[..|items| - 1];
    assert forall i :: 0 <= i < |before| ==> before[i] == items[i] && before[..i] == items[..i];
    if AllPlaceable(types, items) {
      forall i | 0 <= i < |before|
        ensures Placeable(types, before[i], AllBits(types, before[..i]))
      {
        assert Placeable(types, items[i], AllBits(types, items[..i]));
      }
    }
    if AllPlaceable(types, before) && Placeable(types, items[|items| - 1], AllBits(types, before)) {
      forall i | 0 <= i < |items|
        ensures Placeable(types, items[i], AllBits(types, items[..i]))
      {
        assert i < |before| ==> Placeable(types, before[i], AllBits(types, before[..i]));
      }
    }
  }

  lemma {:induction false} ChildrenDoNotVary(types: Types, c: Bitfield, children: seq<Item>)
    requires AllPackable(types, children)
    ensures forall i :: 0 <= i < |ChildFields(types, c, children)| ==> ChildFields(types, c, children)[i].variable.None?
  {
    if children != [] {
      var (before, last) := (children[..|children| - 1], children[|children| - 1]);
      assert Packable(types, last);
      ChildrenDoNotVary(types, c, before);
    }
  }

  lemma ItemExactly(types: Types, fields: seq<Field>, offset: nat, item: Item)
    ensures PlaceFreely(types, State(fields, offset), item).Ok? && PlaceFreely(types, State(fields, offset), item).value.offset < UINT32_LIMIT
      <==> Placeable(types, item, offset) && offset + ItemBits(types, item) < UINT32_LIMIT
    ensures Placeable(types, item, offset) && offset + ItemBits(types, item) < UINT32_LIMIT ==>
      PlaceFreely(types, State(fields, offset), item)
        == Ok(State(fields + ItemFields(types, item, offset), offset + ItemBits(types, item)))
  {
    hide ResolveDatatype;
    hide ResolveContainer;
    hide PlaceChildren;
    hide AllPackable;
    hide AllChildBits;
    hide ChildFields;
    assert fields + [] == fields;
    match item
    case DataObject(name, ref) =>
      DatatypeExactly(types, name, ref, offset);
    case Struct(ref, children) =>
      ContainerExactly(types, ref, offset);
      if ref in types && Sound(types[ref]) {
        ChildrenExactly(types, ContainerOf(types[ref], offset), fields, children);
      }
    case _ =>
  }

  /** Records are accepted exactly as their declarations allow, and every field lies where what stands before it ends. */
  lemma {:induction false} RecordExactly(types: Types, items: seq<Item>)
    ensures PlaceAll(types, State([], 0), items).Ok? <==> Acceptable(types, items)
    ensures Acceptable(types, items) ==>
      PlaceAll(types, State([], 0), items).value == State(AllFields(types, items), AllBits(types, items))
  {
    hide PlaceFreely;
    hide AllPlaceable;
    hide VariesLast;
    hide ItemFields;
    hide Placeable;
    hide EndsVariable;
    hide ItemBits;
    if items == [] {
      NothingPlaced(types);
    } else {
      var (before, last) := (items[..|items| - 1], items[|items| - 1]);
      RecordExactly(types, before);
      Shorter(types, items);
      if Acceptable(types, before) {
        EndsAsItemsDo(types, before);
        ItemExactly(types, AllFields(types, before), AllBits(types, before), last);
      }
    }
  }

  lemma NothingPlaced(types: Types)
    ensures AllPlaceable(types, []) && VariesLast(types, [])
  {
  }

  /**
   * A record with references resolves exactly if every reference can be written out, the items written out are
   * acceptable, and the record stays addressable when its last field has grown to the full.
   */
  lemma {:induction false} ResolvableExactly(types: Types, shared: Shared, items: seq<Item>)
    ensures Resolvable(types, shared, items) <==>
      && Inlined(shared, items, {}, 0).Ok?
      && var all := Inlined(shared, items, {}, 0).value;
         Acceptable(types, all) && AllBits(types, all) + Growth(AllFields(types, all)) < UINT32_LIMIT
  {
    hide PlaceAll;
    hide Acceptable;
    hide AllFields;
    hide AllBits;
    if Inlined(shared, items, {}, 0).Ok? {
      RecordExactly(types, Inlined(shared, items, {}, 0).value);
    }
  }
}
