/** The field-type enumeration of auto_proto_doc/model.py and its partial
    display-name table (the legacy model.py has the same table). */
module DataTypes {
  import opened Util

  /** The members of the source's `DataType` enum. Type codes 4, 13 and 15–18
      of descriptor.proto (uint64, uint32, sfixed32, sfixed64, sint32, sint64)
      have no member. */
  datatype DataType =
    | String | Int32 | Float | Message | Int64 | Bool
    | Bytes | Double | Enum | Fixed32 | Fixed64 | Group
  {
    /** The numeric value of the enum member. */
    function Code(): int {
      match this
      case String => 9
      case Int32 => 5
      case Float => 2
      case Message => 11
      case Int64 => 3
      case Bool => 8
      case Bytes => 12
      case Double => 1
      case Enum => 14
      case Fixed32 => 7
      case Fixed64 => 6
      case Group => 10
    }
  }

  /** `DataType(code)`: the member with that value, or None where Python
      raises ValueError. */
  function FromCode(code: int): (r: Option<DataType>)
    ensures r.Some? ==> r.value.Code() == code
    ensures forall t: DataType :: t.Code() == code ==> r == Some(t)
  {
    match code
    case 9 => Some(String)
    case 5 => Some(Int32)
    case 2 => Some(Float)
    case 11 => Some(Message)
    case 3 => Some(Int64)
    case 8 => Some(Bool)
    case 12 => Some(Bytes)
    case 1 => Some(Double)
    case 14 => Some(Enum)
    case 7 => Some(Fixed32)
    case 6 => Some(Fixed64)
    case 10 => Some(Group)
    case _ => None
  }

  /** The outcome of `display_string`: a name, the UseMessageTypeName signal,
      or the KeyError of a member the table does not list. */
  datatype Display = Shown(name: string) | UseMessageTypeName | NotInTable

  /** `DataType.display_string`. */
  function DisplayString(t: DataType): Display {
    match t
    case Message => UseMessageTypeName
    case String => Shown("string")
    case Int32 => Shown("int32")
    case Int64 => Shown("int64")
    case Float => Shown("float")
    case Bool => Shown("bool")
    case Fixed32 => Shown("fixed32")
    case Fixed64 => Shown("fixed64")
    case _ => NotInTable
  }

  /** The keyword that the .proto language uses for each type code of
      FieldDescriptorProto.Type, as an independent reference for the table. */
  function ProtoKeyword(code: int): string {
    match code
    case 1 => "double"
    case 2 => "float"
    case 3 => "int64"
    case 4 => "uint64"
    case 5 => "int32"
    case 6 => "fixed64"
    case 7 => "fixed32"
    case 8 => "bool"
    case 9 => "string"
    case 10 => "group"
    case 11 => "message"
    case 12 => "bytes"
    case 13 => "uint32"
    case 14 => "enum"
    case 15 => "sfixed32"
    case 16 => "sfixed64"
    case 17 => "sint32"
    case 18 => "sint64"
    case _ => ""
  }

  /** The seven codes that display_string names. */
  predicate IsNamedCode(code: int) {
    code == 2 || code == 3 || code == 5 || code == 6 || code == 7 || code == 8 || code == 9
  }

  /** What the table does, code by code: the seven scalar codes get their
      .proto keyword, MESSAGE signals "use the type name", and DOUBLE, BYTES,
      ENUM and GROUP have no entry. */
  lemma DisplayStringTable(code: int)
    ensures FromCode(code).Some? <==> (1 <= code <= 14 && code != 4 && code != 13)
    ensures FromCode(code).Some? ==>
      (DisplayString(FromCode(code).value).Shown? <==> IsNamedCode(code))
    ensures FromCode(code).Some? && IsNamedCode(code) ==>
      DisplayString(FromCode(code).value) == Shown(ProtoKeyword(code))
    ensures FromCode(code).Some? ==>
      (DisplayString(FromCode(code).value).UseMessageTypeName? <==> code == 11)
    ensures FromCode(code).Some? ==>
      (DisplayString(FromCode(code).value).NotInTable? <==>
        (code == 1 || code == 10 || code == 12 || code == 14))
  {
  }
}
