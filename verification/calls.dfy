/** The protocol version 5 calls that take an optional property table: the
    table is encoded for the call's command, the native call is made with
    the list, the list is freed, and the native code is translated. */
module Calls {
  import opened Wire
  import opened Host
  import opened Native
  import opened Status
  import opened Encoder
  import opened EncoderAsWritten

  /** The calls, each named after its host function. */
  datatype Caller = WillSetV5 | ConnectBindV5 | DisconnectV5 | PublishV5 | SubscribeV5 | UnsubscribeV5
  {
    /** The command whose properties the table must be legal for. */
    function Command(): Command {
      match this
      case WillSetV5 => Will
      case ConnectBindV5 => Connect
      case DisconnectV5 => Disconnect
      case PublishV5 => Publish
      case SubscribeV5 => Subscribe
      case UnsubscribeV5 => Unsubscribe
    }

    /** The argument position of the property table. */
    function TableArg(): nat {
      match this
      case WillSetV5 => 6
      case ConnectBindV5 => 6
      case DisconnectV5 => 3
      case PublishV5 => 6
      case SubscribeV5 => 5
      case UnsubscribeV5 => 3
    }

    /** The calls that return the message id on success. */
    predicate ReturnsMid() {
      PublishV5? || SubscribeV5? || UnsubscribeV5?
    }
  }

  /** What a call does: the property list handed to the native function, if
      it was called, what the host call returns, and the part of a property
      list still allocated when it returns. */
  datatype Trace = Trace(sent: Option<seq<Property>>, result: Returned, leaked: seq<Property>)

  /** The result of a call given the native function's code and message id. */
  function Finish(lib: Lib, caller: Caller, rc: int32, mid: int32, errno: int32): (r: Returned)
    ensures caller.ReturnsMid() ==> r == ReturnMid(lib, rc, mid, errno)
    ensures !caller.ReturnsMid() ==> r == PStatus(lib, rc, errno)
  {
    if caller.ReturnsMid() then ReturnMid(lib, rc, mid, errno) else PStatus(lib, rc, errno)
  }

  /** A call. `table` is the entries of the argument at the caller's table
      position, or None when that argument is absent or not a table;
      `native` is the library function, given the property list and giving
      its code and the message id; `errno` the error number it left. */
  function CallV5(lib: Lib, caller: Caller, table: Option<seq<Entry>>,
                  native: seq<Property> -> (int32, int32), errno: int32): (r: Trace)
    ensures table.None? ==> r.sent == Some([])
    ensures table.Some? ==>
      (r.sent.Some? <==> AllAccepted(lib, table.value) && lib.legal(caller.Command(), Expected(lib, table.value)))
    ensures table.Some? && r.sent.Some? ==> r.sent.value == Expected(lib, table.value)
    ensures r.sent.Some? ==> lib.legal(caller.Command(), r.sent.value) || table.None?
    ensures r.sent.None? ==>
      table.Some? && Encode(lib, caller.Command(), table.value).Failed? &&
      r.result == PStatus(lib, Encode(lib, caller.Command(), table.value).rc, errno)
    ensures r.sent.Some? ==>
      r.result == Finish(lib, caller, native(r.sent.value).0, native(r.sent.value).1, errno)
    ensures r.leaked == []
  {
    var encoded := if table.None? then Encoded([]) else Encode(lib, caller.Command(), table.value);
    Complete(lib, caller, encoded, native, errno)
  }

  /** The call after the encoding: a failure is translated at once, leaving
      whatever the encoder left allocated; otherwise the native function is
      called and the list freed, whatever it returned. */
  function Complete(lib: Lib, caller: Caller, encoded: Outcome,
                    native: seq<Property> -> (int32, int32), errno: int32): (r: Trace)
    ensures encoded.Failed? ==> r == Trace(None, PStatus(lib, encoded.rc, errno), encoded.leaked)
    ensures encoded.Encoded? ==> r.sent == Some(encoded.list) && r.leaked == []
  {
    match encoded
    case Failed(rc, leaked) => Trace(None, PStatus(lib, rc, errno), leaked)
    case Encoded(list) =>
      var (rc, mid) := native(list);
      Trace(Some(list), Finish(lib, caller, rc, mid, errno), [])
  }

  /** A call as written, with the encoder as written; `uninitialised` is the
      encoder's stray result code. */
  function CallV5AsWritten(lib: Lib, caller: Caller, table: Option<seq<Entry>>,
                           native: seq<Property> -> (int32, int32), errno: int32, uninitialised: int32): (r: Trace)
    ensures table.None? ==> r == CallV5(lib, caller, table, native, errno)
  {
    var encoded := if table.None? then Encoded([]) else EncodeAsWritten(lib, caller.Command(), table.value, uninitialised);
    Complete(lib, caller, encoded, native, errno)
  }

  /** The encoder's leak on a shape mismatch is the call's leak: the call
      raises with the first entry's property still allocated, where the
      corrected call leaves nothing behind. */
  lemma CallLeaksOnShapeMismatch(lib: Lib, caller: Caller, first: Entry, second: Entry, p: Property,
                                 native: seq<Property> -> (int32, int32), errno: int32, uninitialised: int32)
    requires Contribution(lib, first) == Some([p])
    requires lib.lookup(CStr(second.name)).Some?
    requires var info := lib.lookup(CStr(second.name)).value;
      Convert(info.0, info.1, second.value).InvalidReturn?
    ensures CallV5AsWritten(lib, caller, Some([first, second]), native, errno, uninitialised)
         == Trace(None, Raised(lib.strerror(MOSQ_ERR_INVAL)), [p])
    ensures CallV5(lib, caller, Some([first, second]), native, errno)
         == Trace(None, Raised(lib.strerror(MOSQ_ERR_INVAL)), [])
  {
    ShapeMismatchLeaksList(lib, caller.Command(), first, second, p, uninitialised);
  }

  /** A table the encoder refuses never reaches the network, and the call
      never reports success for it. */
  lemma RefusedTableNeverSucceeds(lib: Lib, caller: Caller, table: seq<Entry>,
                                  native: seq<Property> -> (int32, int32), errno: int32)
    requires Encode(lib, caller.Command(), table).Failed?
    ensures var r := CallV5(lib, caller, Some(table), native, errno);
      r.sent.None? && r.result != Values([Bool(true)]) && (r.result.Values? ==> r.result.vals == [] || r.result.vals[0] == Nil)
  {
  }

  /** An unknown property name raises the library's message for an invalid
      argument, without calling the library. */
  lemma UnknownNameRaises(lib: Lib, caller: Caller, table: seq<Entry>, k: nat,
                          native: seq<Property> -> (int32, int32), errno: int32)
    requires k < |table| && AllAccepted(lib, table[..k])
    requires lib.lookup(CStr(table[k].name)).None?
    ensures CallV5(lib, caller, Some(table), native, errno) == Trace(None, Raised(lib.strerror(MOSQ_ERR_INVAL)), [])
  {
    EncodeUnknownName(lib, caller.Command(), table, k);
  }

  /** The first entry the library does not accept decides the call: its
      failure code is translated, nothing is sent and nothing leaks. */
  lemma FirstRefusedEntryDecides(lib: Lib, caller: Caller, table: seq<Entry>, k: nat,
                                 native: seq<Property> -> (int32, int32), errno: int32)
    requires k < |table| && AllAccepted(lib, table[..k])
    requires Contribution(lib, table[k]).None?
    ensures CallV5(lib, caller, Some(table), native, errno)
         == Trace(None, PStatus(lib, EntryFailure(lib, table[k]), errno), [])
  {
    EncodeStopsAtFirstFailure(lib, caller.Command(), table, k);
  }

  /** Without a table the call sends no properties, exactly as the call of
      protocol version 3.1.1 of the same name does. */
  lemma NoTableSendsNothing(lib: Lib, caller: Caller, native: seq<Property> -> (int32, int32), errno: int32)
    ensures CallV5(lib, caller, None, native, errno)
         == Trace(Some([]), Finish(lib, caller, native([]).0, native([]).1, errno), [])
  {
  }

  /** A call returning a message id returns it alone on success and never
      returns it on failure. */
  lemma MidOnlyOnSuccess(lib: Lib, caller: Caller, table: Option<seq<Entry>>,
                         native: seq<Property> -> (int32, int32), errno: int32)
    requires caller.ReturnsMid()
    ensures var r := CallV5(lib, caller, table, native, errno);
      r.result.Values? && |r.result.vals| == 1 && r.result.vals[0].Int? ==>
        r.sent.Some? && native(r.sent.value).0 == MOSQ_ERR_SUCCESS &&
        r.result.vals[0] == Int(native(r.sent.value).1)
  {
  }
}
