/** Resolved data records of a diagnostic description (cdd/model.go). */
module CddModel {
  import opened Wrappers

  datatype ByteOrder = BigEndian | LittleEndian

  datatype Encoding = Unsigned | Signed | Bcd | Float | Double | Ascii | Utf

  datatype Extent = Extent(minCount: nat, maxCount: nat)

  // The enclosing value of a STRUCT; its bit offset is counted from the start of the record.
  datatype Bitfield = Bitfield(bitOffset: nat, bitLength: nat, order: ByteOrder)

  // The raw values a linear conversion admits, compared as the integers they stand for.
  datatype Limits = Limits(minimum: Option<int>, maximum: Option<int>)

  // A packed field's bit offset is counted from the least significant bit of its container.
  datatype Field = Field(
    name: string,
    bitOffset: nat,
    bitLength: nat,
    count: nat,
    variable: Option<Extent>,
    order: ByteOrder,
    encoding: Encoding,
    limits: Option<Limits>,
    container: Option<Bitfield>)
  {
    function BitSize(): nat {
      bitLength * count
    }

    function MaxBitSize(): nat {
      if variable.None? then BitSize() else bitLength * variable.value.maxCount
    }
  }

  datatype Record = Record(length: nat, maxLength: nat, fields: seq<Field>)

  const UINT32_LIMIT: nat := 0x1_0000_0000
}
