/** Wire-level vocabulary shared by the property codec, the status translator
    and the callback bridge: bytes and C strings, the MQTT 5.0 property
    identifiers with their data representations, property lists, and the
    result codes of the native client library. */
module Wire {

  /** The C type `int` used for result codes, identifiers and Lua numbers after
      conversion. */
  type int32 = x: int | -0x8000_0000 <= x < 0x8000_0000

  type uint8 = x: int | 0 <= x < 0x100
  type uint16 = x: int | 0 <= x < 0x1_0000
  type uint32 = x: int | 0 <= x < 0x1_0000_0000

  const UINT8_MAX: int := 0xFF
  const UINT16_MAX: int := 0xFFFF
  const UINT32_MAX: int := 0xFFFF_FFFF

  /** What a C function sees of a counted string handed over as a bare
      `const char *`: everything before the first NUL. */
  function UpToNul<T(==)>(s: seq<T>, nul: T): (r: seq<T>)
    ensures |r| <= |s| && r == s[..|r|]
    ensures nul !in r
    ensures |r| < |s| ==> s[|r|] == nul
  {
    if |s| == 0 || s[0] == nul then [] else [s[0]] + UpToNul(s[1..], nul)
  }

  /** Lua strings are byte strings; the model writes them as `string` and
      reads every character as one byte. */
  function CStr(s: string): string { UpToNul(s, '\0') }

  lemma {:induction false} UpToNulIdentity<T>(s: seq<T>, nul: T)
    requires nul !in s
    ensures UpToNul(s, nul) == s
  {
    if |s| > 0 {
      assert s[0] != nul;
      assert nul !in s[1..];
      UpToNulIdentity(s[1..], nul);
      assert [s[0]] + s[1..] == s;
    }
  }

  /** Data representations of section 1.5 of the OASIS MQTT Version 5.0 standard. */
  datatype WireType = Byte | Int16 | Int32 | VarInt | Utf8String | Binary | StringPair

  /** Property identifiers of section 2.2.2.2 of the MQTT Version 5.0 standard. */
  const PAYLOAD_FORMAT_INDICATOR: int32 := 1
  const MESSAGE_EXPIRY_INTERVAL: int32 := 2
  const CONTENT_TYPE: int32 := 3
  const RESPONSE_TOPIC: int32 := 8
  const CORRELATION_DATA: int32 := 9
  const SUBSCRIPTION_IDENTIFIER: int32 := 11
  const SESSION_EXPIRY_INTERVAL: int32 := 17
  const ASSIGNED_CLIENT_IDENTIFIER: int32 := 18
  const SERVER_KEEP_ALIVE: int32 := 19
  const AUTHENTICATION_METHOD: int32 := 21
  const AUTHENTICATION_DATA: int32 := 22
  const REQUEST_PROBLEM_INFORMATION: int32 := 23
  const WILL_DELAY_INTERVAL: int32 := 24
  const REQUEST_RESPONSE_INFORMATION: int32 := 25
  const RESPONSE_INFORMATION: int32 := 26
  const SERVER_REFERENCE: int32 := 28
  const REASON_STRING: int32 := 31
  const RECEIVE_MAXIMUM: int32 := 33
  const TOPIC_ALIAS_MAXIMUM: int32 := 34
  const TOPIC_ALIAS: int32 := 35
  const MAXIMUM_QOS: int32 := 36
  const RETAIN_AVAILABLE: int32 := 37
  const USER_PROPERTY: int32 := 38
  const MAXIMUM_PACKET_SIZE: int32 := 39
  const WILDCARD_SUB_AVAILABLE: int32 := 40
  const SUBSCRIPTION_ID_AVAILABLE: int32 := 41
  const SHARED_SUB_AVAILABLE: int32 := 42

  /** The wire type the standard fixes for an identifier; None for a number
      that is no property identifier. This is the grouping of the decoder's
      switch. */
  function TypeOf(id: int): (t: Option<WireType>)
    ensures t == Some(StringPair) <==> id == USER_PROPERTY
  {
    if id in {PAYLOAD_FORMAT_INDICATOR, REQUEST_PROBLEM_INFORMATION, REQUEST_RESPONSE_INFORMATION,
              MAXIMUM_QOS, RETAIN_AVAILABLE, WILDCARD_SUB_AVAILABLE, SUBSCRIPTION_ID_AVAILABLE,
              SHARED_SUB_AVAILABLE}
    then Some(Byte)
    else if id in {SERVER_KEEP_ALIVE, RECEIVE_MAXIMUM, TOPIC_ALIAS_MAXIMUM, TOPIC_ALIAS}
    then Some(Int16)
    else if id in {MESSAGE_EXPIRY_INTERVAL, SESSION_EXPIRY_INTERVAL, WILL_DELAY_INTERVAL,
                   MAXIMUM_PACKET_SIZE}
    then Some(Int32)
    else if id == SUBSCRIPTION_IDENTIFIER
    then Some(VarInt)
    else if id in {CONTENT_TYPE, RESPONSE_TOPIC, ASSIGNED_CLIENT_IDENTIFIER, AUTHENTICATION_METHOD,
                   RESPONSE_INFORMATION, SERVER_REFERENCE, REASON_STRING}
    then Some(Utf8String)
    else if id in {AUTHENTICATION_DATA, CORRELATION_DATA}
    then Some(Binary)
    else if id == USER_PROPERTY
    then Some(StringPair)
    else None
  }

  datatype Option<+T> = None | Some(value: T)

  /** The value a property carries, one alternative per wire type. */
  datatype WireValue =
    | ByteVal(b: uint8)
    | Int16Val(h: uint16)
    | Int32Val(w: uint32)
    | VarIntVal(v: uint32)
    | StringVal(s: string)
    | BinaryVal(d: string)
    | PairVal(name: string, value: string)
  {
    function Type(): WireType {
      match this
      case ByteVal(_) => Byte
      case Int16Val(_) => Int16
      case Int32Val(_) => Int32
      case VarIntVal(_) => VarInt
      case StringVal(_) => Utf8String
      case BinaryVal(_) => Binary
      case PairVal(_, _) => StringPair
    }
  }

  /** One entry of a native property list. */
  datatype Property = Property(id: int32, value: WireValue)

  /** A property list as the native library produces it: every property
      carries a value of the type its identifier calls for. */
  ghost predicate WellTyped(props: seq<Property>) {
    forall i :: 0 <= i < |props| ==> TypeOf(props[i].id) == Some(props[i].value.Type())
  }

  /** Control packets whose property list is checked for legality. */
  datatype Command = Connect | Publish | Subscribe | Unsubscribe | Disconnect | Will

  /** Result codes of the native library (its `mosq_err_t` enumeration). */
  const MOSQ_ERR_SUCCESS: int32 := 0
  const MOSQ_ERR_NOMEM: int32 := 1
  const MOSQ_ERR_PROTOCOL: int32 := 2
  const MOSQ_ERR_INVAL: int32 := 3
  const MOSQ_ERR_NO_CONN: int32 := 4
  const MOSQ_ERR_CONN_LOST: int32 := 7
  const MOSQ_ERR_PAYLOAD_SIZE: int32 := 9
  const MOSQ_ERR_NOT_SUPPORTED: int32 := 10
  const MOSQ_ERR_ERRNO: int32 := 14

  /** MQTT reason code 0x00 (Success) of section 2.4 of the MQTT 5.0 standard. */
  const MQTT_RC_SUCCESS: int32 := 0
}
