/** The parts of the native MQTT client library the binding calls but whose
    code is not part of this model. Each is a total function value, so that
    every operation and property below holds for whatever the library does. */
module Native {
  import opened Wire

  datatype Lib = Lib(
    /** `mosquitto_string_to_property_info`: a property name to its identifier
        and wire type, or None for an unknown name. */
    lookup: string -> Option<(int32, WireType)>,
    /** `mosquitto_property_identifier_to_string`. */
    nameOf: int32 -> string,
    /** The result code of `mosquitto_property_add_*` for a property; on
        success the property is appended, on failure the list is unchanged. */
    addRc: Property -> int32,
    /** `mosquitto_property_check_all`: is the list legal for the command? */
    legal: (Command, seq<Property>) -> bool,
    /** `mosquitto_strerror`, `strerror`, `mosquitto_connack_string` and
        `mosquitto_reason_string`. */
    strerror: int32 -> string,
    osStrerror: int32 -> string,
    connackString: int32 -> string,
    reasonString: int32 -> string
  )
  {
    /** The name table and identifier table agree with each other and with
        the wire types of the MQTT 5.0 standard. */
    ghost predicate Consistent(name: string) {
      match lookup(name)
      case None => true
      case Some(info) =>
        TypeOf(info.0) == Some(info.1) && nameOf(info.0) == name
    }
  }
}
