/** The status translator: how a native result code becomes what a host
    call returns. */
module Status {
  import opened Wire
  import opened Host
  import opened Native

  /** Codes the caller cannot recover from: they raise. */
  const HardFailures: set<int> :=
    {MOSQ_ERR_INVAL, MOSQ_ERR_NOMEM, MOSQ_ERR_PROTOCOL, MOSQ_ERR_NOT_SUPPORTED}

  /** Transient codes: they return `nil, code, message`. */
  const Recoverable: set<int> :=
    {MOSQ_ERR_NO_CONN, MOSQ_ERR_CONN_LOST, MOSQ_ERR_PAYLOAD_SIZE, MOSQ_ERR_ERRNO}

  /** `mosq__pstatus`: the host results for a native code; `errno` is the
      operating system's error number at the time of the call. */
  function PStatus(lib: Lib, rc: int32, errno: int32): (r: Returned)
    ensures r == Values([Bool(true)]) <==> rc == MOSQ_ERR_SUCCESS
    ensures r.Raised? <==> rc in HardFailures
    ensures r.Raised? ==> r.message == lib.strerror(rc)
    ensures r.Values? && |r.vals| == 3 <==> rc in Recoverable
    ensures r.Values? && |r.vals| == 3 ==> r.vals[0] == Nil
    ensures rc in Recoverable - {MOSQ_ERR_ERRNO} ==> r.vals[1] == Int(rc) && r.vals[2] == Text(lib.strerror(rc))
    ensures rc == MOSQ_ERR_ERRNO ==> r.vals[1] == Int(errno) && r.vals[2] == Text(lib.osStrerror(errno))
    ensures r == Values([]) <==> rc != MOSQ_ERR_SUCCESS && rc !in HardFailures && rc !in Recoverable
  {
    if rc == MOSQ_ERR_SUCCESS then Values([Bool(true)])
    else if rc == MOSQ_ERR_INVAL || rc == MOSQ_ERR_NOMEM || rc == MOSQ_ERR_PROTOCOL
         || rc == MOSQ_ERR_NOT_SUPPORTED then Raised(lib.strerror(rc))
    else if rc == MOSQ_ERR_NO_CONN || rc == MOSQ_ERR_CONN_LOST || rc == MOSQ_ERR_PAYLOAD_SIZE
    then Values([Nil, Int(rc), Text(lib.strerror(rc))])
    else if rc == MOSQ_ERR_ERRNO then Values([Nil, Int(errno), Text(lib.osStrerror(errno))])
    else Values([])
  }

  /** The result of a call that yields a message id: the id on success,
      the translated status otherwise. */
  function ReturnMid(lib: Lib, rc: int32, mid: int32, errno: int32): (r: Returned)
    ensures (r.Values? && |r.vals| > 0 && r.vals[0].Int?) <==> rc == MOSQ_ERR_SUCCESS
    ensures rc == MOSQ_ERR_SUCCESS ==> r.vals == [Int(mid)]
    ensures r != Values([Bool(true)])
    ensures rc != MOSQ_ERR_SUCCESS ==> r == PStatus(lib, rc, errno)
  {
    if rc != MOSQ_ERR_SUCCESS then PStatus(lib, rc, errno) else Values([Int(mid)])
  }

  /** Every code gives exactly one of the four shapes: one value, three
      values, a raised error, or nothing; and only success has a value in
      first place that is not nil. */
  lemma PStatusShapes(lib: Lib, rc: int32, errno: int32)
    ensures var r := PStatus(lib, rc, errno);
      || (r.Values? && |r.vals| == 1 && r.vals[0] == Bool(true))
      || (r.Values? && |r.vals| == 3 && r.vals[0] == Nil)
      || r.Raised?
      || r == Values([])
  {
  }

  /** A call returning a message id never confuses the id with a failure:
      its first value is nil exactly when the native call failed
      recoverably. */
  lemma ReturnMidDistinguishesFailure(lib: Lib, rc: int32, mid: int32, errno: int32)
    requires rc == MOSQ_ERR_SUCCESS || rc in Recoverable
    ensures var r := ReturnMid(lib, rc, mid, errno);
      r.Values? && |r.vals| > 0 && (r.vals[0] == Nil <==> rc != MOSQ_ERR_SUCCESS)
  {
  }
}
