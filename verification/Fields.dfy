/** The fields of a protocol and the values they carry. */
module Fields {
  import opened Bytes

  datatype FieldType = U8 | I8 | U16 | I16 | U32 | I32 | F32 | F64 | Bool | String | Enum | Hex | Ascii

  datatype TagField = TagField(
    name: string,
    protoName: string,
    tagId: int32,
    offset: int32,
    ftype: FieldType,
    bytes: int32,
    bigEndian: bool,
    address: int32,
    framingIndex: int32,
    scale: real,
    enums: seq<(int, string)>)

  /** The fixed width of a type; 0 where the width is configured per field, and also for I32,
      which the source's table leaves out. */
  function FieldTypeBytes(t: FieldType): nat {
    match t
    case U8 | I8 | Bool => 1
    case U16 | I16 => 2
    case U32 | F32 => 4
    case F64 => 8
    case _ => 0
  }
}
