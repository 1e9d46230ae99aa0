/**
 * The stored value domain and the serializer the drivers call.
 *
 * The serializer is a pass-through to a MessagePack library that is not part of
 * this model, so it enters as a parameter: a pair of total functions between
 * values and byte buffers. The only thing assumed about it is the round trip
 * that the serializer's tests assert (RoundTrips).
 */
module Values {

  type Bytes = seq<bv8>

  /** Element type of a typed numeric array; kept so that a Uint8Array never equals a Float64Array. */
  datatype ElementKind =
    | Int8 | Int16 | Int32
    | Uint8 | Uint8Clamped | Uint16 | Uint32
    | Float32 | Float64

  /**
   * A storable value: null, a boolean, a number (its IEEE-754 bit pattern; no
   * arithmetic happens in this layer), a string, an ArrayBuffer, a typed array
   * (its element kind and its underlying bytes), an array or a plain object.
   */
  datatype Value =
    | Null
    | Bool(b: bool)
    | Number(bits: bv64)
    | Str(s: string)
    | Binary(bytes: Bytes)
    | Typed(kind: ElementKind, data: Bytes)
    | List(items: seq<Value>)
    | Object(fields: map<string, Value>)

  /** `serialize` / `deserialize` as the drivers see them. */
  datatype Codec = Codec(serialize: Value -> Bytes, deserialize: Bytes -> Value)

  /** The lossless round trip the serializer promises for every value. */
  ghost predicate RoundTrips(c: Codec)
  {
    forall v :: c.deserialize(c.serialize(v)) == v
  }
}
