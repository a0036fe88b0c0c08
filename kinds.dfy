/**
 * The part of Go's reflection the decoder relies on, as an explicit descriptor:
 * the kind of a field, the kind-to-bit-size tables that pick the numeric
 * conversion, the values a field can hold, and the per-field descriptor
 * (name, kind, settability, and whether the field's type has an
 * UnmarshalCSV hook).
 */
module Kinds {
  import opened Wrappers
  import Strconv

  /**
   * reflect.Kind. Array, Chan, Func, Interface, Map, Slice, Struct and
   * UnsafePointer are collapsed into Other: the decoder treats them alike.
   */
  datatype Kind =
    | Bool
    | Int | Int8 | Int16 | Int32 | Int64
    | Uint | Uint8 | Uint16 | Uint32 | Uint64 | Uintptr
    | Float32 | Float64
    | Complex64 | Complex128
    | String
    | Ptr(elem: Kind)
    | Other

  /** intKindToSize: the signed kinds and the bit size handed to ParseInt (0 for platform int). */
  function IntKindToSize(k: Kind): (size: Option<nat>)
    ensures size.Some? <==> k.Int? || k.Int8? || k.Int16? || k.Int32? || k.Int64?
    ensures size.Some? ==> Strconv.ValidBitSize(size.value)
  {
    match k
    case Int => Some(0)
    case Int8 => Some(8)
    case Int16 => Some(16)
    case Int32 => Some(32)
    case Int64 => Some(64)
    case _ => None
  }

  /** uintKindToSize: the unsigned kinds and the bit size handed to ParseUint. Uintptr is not listed. */
  function UintKindToSize(k: Kind): (size: Option<nat>)
    ensures size.Some? <==> k.Uint? || k.Uint8? || k.Uint16? || k.Uint32? || k.Uint64?
    ensures size.Some? ==> Strconv.ValidBitSize(size.value)
  {
    match k
    case Uint => Some(0)
    case Uint8 => Some(8)
    case Uint16 => Some(16)
    case Uint32 => Some(32)
    case Uint64 => Some(64)
    case _ => None
  }

  /** floatKindToSize: the float kinds and the bit size handed to ParseFloat. */
  function FloatKindToSize(k: Kind): (size: Option<nat>)
    ensures size.Some? <==> k.Float32? || k.Float64?
    ensures size.Some? ==> size.value == 32 || size.value == 64
  {
    match k
    case Float32 => Some(32)
    case Float64 => Some(64)
    case _ => None
  }

  /**
   * The three tables never share a kind, and neither String nor a pointer
   * nor Bool, Uintptr, the complex kinds or Other is in any of them.
   */
  lemma KindTablesDisjoint(k: Kind)
    ensures IntKindToSize(k).Some? ==> UintKindToSize(k).None? && FloatKindToSize(k).None?
    ensures UintKindToSize(k).Some? ==> FloatKindToSize(k).None?
    ensures (k.String? || k.Ptr? || k.Bool? || k.Uintptr? || k.Complex64? || k.Complex128? || k.Other?) ==>
              IntKindToSize(k).None? && UintKindToSize(k).None? && FloatKindToSize(k).None?
  {
  }

  /** The Go type name of a type whose pointer has an UnmarshalCSV method. */
  type TypeName = string

  /** What a field holds. */
  datatype Value =
    | IntV(i: int)        // any signed integer kind, as the int64 SetInt stores
    | UintV(u: nat)       // any unsigned integer kind, as the uint64 SetUint stores
    | FloatV(bits: bv64)  // any float kind: the IEEE 754 binary64 bits of the float64 SetFloat stores
    | StrV(s: string)
    | Nil                 // a nil pointer
    | Ref(pointee: Value) // a non-nil pointer and the value it points to
    | Opaque(id: nat)     // a value of a kind the decoder never writes (bool, complex, struct, ...)

  /** Go's zero value of a kind: what reflect.New allocates and what a fresh struct holds. */
  function Zero(k: Kind): (v: Value)
    ensures k.Ptr? <==> v == Nil
    ensures IntKindToSize(k).Some? ==> v == IntV(0)
    ensures UintKindToSize(k).Some? ==> v == UintV(0)
    ensures FloatKindToSize(k).Some? ==> v == FloatV(0)
    ensures k.String? ==> v == StrV("")
  {
    match k
    case Int | Int8 | Int16 | Int32 | Int64 => IntV(0)
    case Uint | Uint8 | Uint16 | Uint32 | Uint64 | Uintptr => UintV(0)
    case Float32 | Float64 => FloatV(0)
    case String => StrV("")
    case Ptr(_) => Nil
    case _ => Opaque(0)
  }

  /**
   * One struct field as the decoder sees it through reflection: its declared
   * name, its kind, whether CanSet holds (exported, reached through a
   * pointer), and the type name when the field's declared type implements
   * the Unmarshaller interface.
   */
  datatype Field = Field(name: string, kind: Kind, settable: bool, hook: Option<TypeName>)

  /** The zero value of a whole struct: every field at its kind's zero. */
  function ZeroStruct(fields: seq<Field>): (vals: seq<Value>)
    ensures |vals| == |fields|
    ensures forall i :: 0 <= i < |fields| ==> vals[i] == Zero(fields[i].kind)
  {
    seq(|fields|, i requires 0 <= i < |fields| => Zero(fields[i].kind))
  }
}
