/**
 Values shared by the whole model: machine-width integers, status codes, and
 the OPC UA built-in types the server supports.
 */
module Types {

  const TWO8: int := 0x100
  const TWO16: int := 0x1_0000
  const TWO32: int := 0x1_0000_0000
  const TWO64: int := 0x1_0000_0000_0000_0000

  type byte = x: int | 0 <= x < 0x100
  type u16 = x: int | 0 <= x < 0x1_0000
  type u32 = x: int | 0 <= x < 0x1_0000_0000
  type u64 = x: int | 0 <= x < 0x1_0000_0000_0000_0000
  type i8 = x: int | -0x80 <= x < 0x80
  type i16 = x: int | -0x8000 <= x < 0x8000
  type i32 = x: int | -0x8000_0000 <= x < 0x8000_0000
  type i64 = x: int | -0x8000_0000_0000_0000 <= x < 0x8000_0000_0000_0000

  /** The six type bits of a Variant's encoding byte. */
  type typeId = x: int | 0 <= x < 64

  datatype Option<+T> = None | Some(value: T)

  /** The status codes the modelled functions return. */
  datatype Status =
    | Good
    | BadInternalError
    | BadOutOfMemory
    | BadEncodingError
    | BadDecodingError
    | BadEncodingLimitsExceeded
    | BadNotSupported
    | BadTooManyOperations
    | BadInvalidArgument
    | BadRequestTooLarge
    | BadResponseTooLarge
    | BadSecurityChecksFailed
    | BadSecurityModeRejected
    | BadSecurityPolicyRejected
    | BadCertificateInvalid
    | BadSecureChannelIdInvalid
    | BadSessionIdInvalid
    | BadSessionNotActivated
    | BadTooManySessions
    | BadIdentityTokenInvalid
    | BadServiceUnsupported
    | BadSubscriptionIdInvalid
    | BadTooManySubscriptions
    | BadTooManyMonitoredItems
    | BadMonitoredItemIdInvalid
    | BadTooManyPublishRequests
    | BadSequenceNumberUnknown
    | BadMessageNotAvailable
    | BadNodeIdUnknown
    | BadNodeClassInvalid
    | BadNotFound

  /** The SecurityPolicies. */
  datatype Policy = NoPolicy | Basic256Sha256 | Aes128Oaep | Aes256Pss

  /** A String or ByteString: length -1 is Null, any other is its bytes. */
  datatype UaString = Null | Bytes(bytes: seq<byte>)

  /** A GUID is its sixteen bytes, an opaque identifier a ByteString. */
  datatype NodeId =
    | Numeric(ns: u16, id: u32)
    | StringId(ns: u16, name: UaString)
    | Guid(ns: u16, guid: seq<byte>)
    | Opaque(ns: u16, data: UaString)

  /**
   A Variant. Float and Double are bit patterns; an array is its element type,
   its length and the elements its pointer leads to, if there is a pointer.
   */
  datatype Variant =
    | VNull
    | VBoolean(flag: bool)
    | VSByte(sbyte: i8)
    | VByte(ubyte: byte)
    | VInt16(int16: i16)
    | VUInt16(uint16: u16)
    | VInt32(int32: i32)
    | VUInt32(uint32: u32)
    | VInt64(int64: i64)
    | VUInt64(uint64: u64)
    | VFloat(float: u32)
    | VDouble(double: u64)
    | VString(str: UaString)
    | VDateTime(time: i64)
    | VByteString(bstr: UaString)
    | VNodeId(nodeId: NodeId)
    | VStatusCode(code: u32)
    | VQualifiedName(ns: u16, name: UaString)
    | VLocalizedText(locale: UaString, text: UaString)
    | VArray(kind: typeId, length: i32, elements: Option<seq<Variant>>)
    | VUnsupported(kind: typeId)

  datatype DataValue = DataValue(
    value: Option<Variant>,
    status: Option<u32>,
    sourceTimestamp: Option<i64>,
    serverTimestamp: Option<i64>)
}
