/**
 CANopen data types and their sizes (src/cood/data_types.cpp). All types without a native representation, and the
 reserved codes, are one value: no object accepts them.
 */
module DataTypes {

  type BitCount = n: nat | 1 <= n <= 8 witness 1

  datatype DataType =
    | NullType            // gap or empty subindex
    | Boolean
    | Integer8 | Integer16 | Integer32 | Integer64
    | Unsigned8 | Unsigned16 | Unsigned32 | Unsigned64
    | Real32 | Real64
    | VisibleString | OctetString | UnicodeString
    | BitN(n: BitCount)   // bit1 .. bit8
    | BooleanNativeBit1
    | Unsupported

  /** DataTypeBitLengthTable: bits of one element encoded in CANopen format. */
  function BitLength(t: DataType): nat
  {
    match t
    case NullType | Boolean | BooleanNativeBit1 => 1
    case Integer8 | Unsigned8 | VisibleString | OctetString => 8
    case Integer16 | Unsigned16 | UnicodeString => 16
    case Integer32 | Unsigned32 | Real32 => 32
    case Integer64 | Unsigned64 | Real64 => 64
    case BitN(n) => n
    case Unsupported => 0
  }

  /** NativeDataTypeBitLengthTable: bits of one element in memory. */
  function NativeBitLength(t: DataType): nat
  {
    match t
    case NullType | Unsupported => 0
    case Boolean | BooleanNativeBit1 | BitN(_) => 8
    case _ => BitLength(t)
  }

  predicate IsDataTypeBitBased(t: DataType)
  {
    t.NullType? || t.Boolean? || t.BitN? || t.BooleanNativeBit1?
  }

  predicate IsNativeDataStuffed(t: DataType)
  {
    t.NullType? || t.BitN? || t.BooleanNativeBit1?
  }

  predicate IsArrayType(t: DataType)
  {
    t.VisibleString? || t.OctetString? || t.UnicodeString?
  }
}
