/** The property encoder: a host table of `name = value` entries becomes a
    native property list for one command. The table is given as its entries
    in the host's iteration order. */
module Encoder {
  import opened Wire
  import opened Native

  /** The shape of a table value the encoder tells apart. A number is already
      the C `int` the source converts it to; a nested table is its
      `key = value` entries in iteration order. */
  datatype LuaValue = Num(n: int32) | Str(s: string) | Table(pairs: seq<(string, string)>) | Other

  datatype Entry = Entry(name: string, value: LuaValue)

  /** What one looked-up entry asks of the property list. */
  datatype Conversion =
    | Add(p: Property)              // one property to append
    | AddPairs(ps: seq<Property>)   // one string pair per nested entry
    | Invalid                       // fails with MOSQ_ERR_INVAL, leaving the loop
    | InvalidReturn                 // fails with MOSQ_ERR_INVAL, returning at once

  /** The largest number a wire type's integer field holds. */
  function MaxOf(t: WireType): int
    requires t in {Byte, Int16, Int32, VarInt}
  {
    match t
    case Byte => UINT8_MAX
    case Int16 => UINT16_MAX
    case _ => UINT32_MAX
  }

  /** The value check and conversion for an entry whose name resolved to
      identifier `id` with wire type `t`. */
  function Convert(id: int32, t: WireType, v: LuaValue): (c: Conversion)
    ensures v.Num? && t in {Byte, Int16, Int32, VarInt} ==>
      (c.Invalid? <==> v.n < 0 || v.n > MaxOf(t)) && (c.Add? <==> 0 <= v.n <= MaxOf(t))
    ensures v.Num? && t !in {Byte, Int16, Int32, VarInt} ==> c.InvalidReturn?
    ensures v.Str? && t !in {Binary, Utf8String} ==> c.InvalidReturn?
    ensures v.Str? && t == Binary ==> (c.Invalid? <==> |CStr(v.s)| > UINT16_MAX)
    ensures v.Other? ==> c.Invalid?
    ensures v.Num? && t == Byte && 0 <= v.n <= UINT8_MAX ==> c == Add(Property(id, ByteVal(v.n)))
    ensures v.Num? && t == Int16 && 0 <= v.n <= UINT16_MAX ==> c == Add(Property(id, Int16Val(v.n)))
    ensures v.Num? && t == Int32 && 0 <= v.n ==> c == Add(Property(id, Int32Val(v.n)))
    ensures v.Num? && t == VarInt && 0 <= v.n ==> c == Add(Property(id, VarIntVal(v.n)))
    ensures v.Str? && t == Utf8String ==> c == Add(Property(id, StringVal(CStr(v.s))))
    ensures v.Str? && t == Binary && |CStr(v.s)| <= UINT16_MAX ==> c == Add(Property(id, BinaryVal(CStr(v.s))))
    ensures c.Add? ==> c.p.id == id && c.p.value.Type() == t
    ensures v.Table? <==> c.AddPairs?
    ensures c.AddPairs? ==> |c.ps| == |v.pairs|
    ensures c.AddPairs? ==>
      forall i :: 0 <= i < |c.ps| ==> c.ps[i] == Property(id, PairVal(CStr(v.pairs[i].0), CStr(v.pairs[i].1)))
  {
    match v
    case Num(n) =>
      (match t
       case Byte => if n < 0 || n > UINT8_MAX then Invalid else Add(Property(id, ByteVal(n)))
       case Int16 => if n < 0 || n > UINT16_MAX then Invalid else Add(Property(id, Int16Val(n)))
       case Int32 => if n < 0 || n > UINT32_MAX then Invalid else Add(Property(id, Int32Val(n)))
       case VarInt => if n < 0 || n > UINT32_MAX then Invalid else Add(Property(id, VarIntVal(n)))
       case _ => InvalidReturn)
    case Str(s) =>
      (match t
       case Binary =>
         var c := CStr(s);
         if |c| > UINT16_MAX then Invalid else Add(Property(id, BinaryVal(c)))
       case Utf8String => Add(Property(id, StringVal(CStr(s))))
       case _ => InvalidReturn)
    case Table(pairs) =>
      AddPairs(seq(|pairs|, i requires 0 <= i < |pairs| =>
        Property(id, PairVal(CStr(pairs[i].0), CStr(pairs[i].1)))))
    case Other => Invalid
  }

  /** A number is only ever rejected by sign for the 32-bit and variable
      length types: the upper bound cannot be exceeded by a C `int`. */
  lemma WideTypesCheckSignOnly(id: int32, t: WireType, n: int32)
    requires t in {Int32, VarInt}
    ensures Convert(id, t, Num(n)).Invalid? <==> n < 0
  {
  }

  // ---------------------------------------------------------------------
  // The reference meaning of an encoding.

  /** The per-entry reference: the properties one entry contributes when
      the library accepts it, or None when the entry makes the encoding
      fail. It is stated per entry, apart from the loop that builds the
      list, and the scan below is proved against it. */
  ghost function Contribution(lib: Lib, e: Entry): Option<seq<Property>> {
    match lib.lookup(CStr(e.name))
    case None => None
    case Some(info) =>
      match Convert(info.0, info.1, e.value)
      case Add(p) => if lib.addRc(p) == MOSQ_ERR_SUCCESS then Some([p]) else None
      case AddPairs(ps) =>
        if forall i :: 0 <= i < |ps| ==> lib.addRc(ps[i]) == MOSQ_ERR_SUCCESS then Some(ps) else None
      case _ => None
  }

  /** The code of the first string pair the library refuses. */
  ghost function PairFailure(lib: Lib, ps: seq<Property>): int32
    requires exists i :: 0 <= i < |ps| && lib.addRc(ps[i]) != MOSQ_ERR_SUCCESS
    decreases |ps|
  {
    if lib.addRc(ps[0]) != MOSQ_ERR_SUCCESS then lib.addRc(ps[0])
    else
      assert exists i :: 0 <= i < |ps[1..]| && lib.addRc(ps[1..][i]) != MOSQ_ERR_SUCCESS by {
        var i :| 0 <= i < |ps| && lib.addRc(ps[i]) != MOSQ_ERR_SUCCESS;
        assert i > 0 && ps[1..][i - 1] == ps[i];
      }
      PairFailure(lib, ps[1..])
  }

  /** The code an entry that is not accepted fails with: MOSQ_ERR_INVAL for
      an unknown name or a value of the wrong shape or range, the library's
      own code for a refused add, and the first refused pair's code for a
      nested table. */
  ghost function EntryFailure(lib: Lib, e: Entry): int32
    requires Contribution(lib, e).None?
  {
    match lib.lookup(CStr(e.name))
    case None => MOSQ_ERR_INVAL
    case Some(info) =>
      match Convert(info.0, info.1, e.value)
      case Add(p) => lib.addRc(p)
      case AddPairs(ps) => PairFailure(lib, ps)
      case _ => MOSQ_ERR_INVAL
  }

  /** Every entry is accepted. */
  ghost predicate AllAccepted(lib: Lib, entries: seq<Entry>) {
    forall i :: 0 <= i < |entries| ==> Contribution(lib, entries[i]).Some?
  }

  /** The code of the first entry that is not accepted. */
  ghost function FirstFailure(lib: Lib, entries: seq<Entry>): int32
    requires !AllAccepted(lib, entries)
    decreases |entries|
  {
    AllAcceptedCons(lib, entries);
    if Contribution(lib, entries[0]).None? then EntryFailure(lib, entries[0])
    else FirstFailure(lib, entries[1..])
  }

  /** The list the entries denote, in order, when all are accepted. */
  ghost function Expected(lib: Lib, entries: seq<Entry>): seq<Property>
    requires AllAccepted(lib, entries)
  {
    if |entries| == 0 then []
    else Contribution(lib, entries[0]).value + Expected(lib, entries[1..])
  }

  // ---------------------------------------------------------------------
  // The encoder with its rc handling made explicit and its failures freeing
  // the list on every path.

  /** The outcome of the scan over the entries. */
  datatype Scanned = Done(list: seq<Property>) | Stopped(rc: int32)

  /** The outcome of an encoding: a list, or a code and whatever part of the
      list was left allocated. */
  datatype Outcome = Encoded(list: seq<Property>) | Failed(rc: int32, leaked: seq<Property>)

  /** Append the nested entries' string pairs, stopping at the first one the
      library refuses. */
  function AddAll(lib: Lib, list: seq<Property>, ps: seq<Property>): (r: Scanned)
    ensures r.Done? <==> forall i :: 0 <= i < |ps| ==> lib.addRc(ps[i]) == MOSQ_ERR_SUCCESS
    ensures r.Done? ==> r.list == list + ps
    ensures r.Stopped? ==> r.rc != MOSQ_ERR_SUCCESS && r.rc == PairFailure(lib, ps)
    decreases |ps|
  {
    if |ps| == 0 then Done(list)
    else
      var rc := lib.addRc(ps[0]);
      if rc != MOSQ_ERR_SUCCESS then Stopped(rc)
      else
        var r := AddAll(lib, list + [ps[0]], ps[1..]);
        assert list + [ps[0]] + ps[1..] == list + ps;
        r
  }

  /** One entry: look its name up, check and convert its value, add the
      result. */
  function Step(lib: Lib, e: Entry, list: seq<Property>): (r: Scanned)
    ensures r.Done? <==> Contribution(lib, e).Some?
    ensures r.Done? ==> r.list == list + Contribution(lib, e).value
    ensures r.Stopped? ==> r.rc != MOSQ_ERR_SUCCESS && r.rc == EntryFailure(lib, e)
  {
    match lib.lookup(CStr(e.name))
    case None => Stopped(MOSQ_ERR_INVAL)
    case Some(info) =>
      match Convert(info.0, info.1, e.value)
      case Add(p) =>
        var rc := lib.addRc(p);
        if rc == MOSQ_ERR_SUCCESS then Done(list + [p]) else Stopped(rc)
      case AddPairs(ps) => AddAll(lib, list, ps)
      case _ => Stopped(MOSQ_ERR_INVAL)
  }

  /** The loop over the entries, stopping at the first failure. */
  function Scan(lib: Lib, entries: seq<Entry>, list: seq<Property>): (r: Scanned)
    ensures r.Done? <==> AllAccepted(lib, entries)
    ensures r.Done? ==> r.list == list + Expected(lib, entries)
    ensures r.Stopped? ==> r.rc != MOSQ_ERR_SUCCESS && r.rc == FirstFailure(lib, entries)
    decreases |entries|
  {
    if |entries| == 0 then Done(list)
    else
      AllAcceptedCons(lib, entries);
      match Step(lib, entries[0], list)
      case Stopped(rc) => Stopped(rc)
      case Done(list') =>
        var r := Scan(lib, entries[1..], list');
        ExpectedCons(lib, entries);
        r
  }

  lemma ExpectedCons(lib: Lib, entries: seq<Entry>)
    requires |entries| > 0
    ensures AllAccepted(lib, entries) ==> AllAccepted(lib, entries[1..])
    ensures AllAccepted(lib, entries) ==>
      Expected(lib, entries) == Contribution(lib, entries[0]).value + Expected(lib, entries[1..])
  {
    AllAcceptedCons(lib, entries);
  }

  lemma AllAcceptedCons(lib: Lib, entries: seq<Entry>)
    requires |entries| > 0
    ensures AllAccepted(lib, entries) <==>
      Contribution(lib, entries[0]).Some? && AllAccepted(lib, entries[1..])
  {
    assert forall i :: 1 <= i < |entries| ==> entries[1..][i - 1] == entries[i];
  }

  /** `create_property_list_from_lua_stack` with the three defects listed in
      the findings corrected: the code starts out as success, a shape
      mismatch frees the list like every other failure, and a refused string
      pair fails the encoding. */
  function Encode(lib: Lib, cmd: Command, entries: seq<Entry>): (r: Outcome)
    ensures r.Failed? ==> r.rc != MOSQ_ERR_SUCCESS && r.leaked == []
    ensures r.Encoded? ==> lib.legal(cmd, r.list)
    ensures r.Encoded? <==> AllAccepted(lib, entries) && lib.legal(cmd, Expected(lib, entries))
    ensures r.Encoded? ==> r.list == Expected(lib, entries)
    ensures r.Failed? ==> r.rc == if AllAccepted(lib, entries) then MOSQ_ERR_INVAL else FirstFailure(lib, entries)
  {
    match Scan(lib, entries, [])
    case Stopped(rc) => Failed(rc, [])
    case Done(list) =>
      assert list == Expected(lib, entries);
      if !lib.legal(cmd, list) then Failed(MOSQ_ERR_INVAL, []) else Encoded(list)
  }

  /** An empty table encodes to the empty list when the command admits it. */
  lemma EncodeEmpty(lib: Lib, cmd: Command)
    requires lib.legal(cmd, [])
    ensures Encode(lib, cmd, []) == Encoded([])
  {
  }

  /** A list the command does not admit fails with MOSQ_ERR_INVAL, whatever
      code the legality check gave. */
  lemma EncodeIllegalIsInval(lib: Lib, cmd: Command, entries: seq<Entry>)
    requires AllAccepted(lib, entries) && !lib.legal(cmd, Expected(lib, entries))
    ensures Encode(lib, cmd, entries) == Failed(MOSQ_ERR_INVAL, [])
  {
  }

  /** The first entry that is not accepted decides the failure, whatever
      follows it. */
  lemma {:induction false} FirstFailureAt(lib: Lib, entries: seq<Entry>, k: nat)
    requires k < |entries| && AllAccepted(lib, entries[..k])
    requires Contribution(lib, entries[k]).None?
    ensures !AllAccepted(lib, entries)
    ensures FirstFailure(lib, entries) == EntryFailure(lib, entries[k])
    decreases k
  {
    AllAcceptedCons(lib, entries);
    if k > 0 {
      assert entries[..k][0] == entries[0];
      assert entries[..k][1..] == entries[1..][..k - 1];
      AllAcceptedCons(lib, entries[..k]);
      FirstFailureAt(lib, entries[1..], k - 1);
    }
  }

  /** After accepted entries, the first entry that is not accepted fails
      the whole encoding, and nothing is left allocated: an unknown name, a
      value of the wrong shape or range give MOSQ_ERR_INVAL; a refused add
      gives the library's code for it; a nested table gives the code of its
      first refused pair. */
  lemma EncodeStopsAtFirstFailure(lib: Lib, cmd: Command, entries: seq<Entry>, k: nat)
    requires k < |entries| && AllAccepted(lib, entries[..k])
    requires Contribution(lib, entries[k]).None?
    ensures Encode(lib, cmd, entries) == Failed(EntryFailure(lib, entries[k]), [])
    ensures lib.lookup(CStr(entries[k].name)).None? ==> Encode(lib, cmd, entries) == Failed(MOSQ_ERR_INVAL, [])
    ensures lib.lookup(CStr(entries[k].name)).Some? ==>
      var info := lib.lookup(CStr(entries[k].name)).value;
      var c := Convert(info.0, info.1, entries[k].value);
      && (c.Add? ==> Encode(lib, cmd, entries) == Failed(lib.addRc(c.p), []))
      && (c.AddPairs? ==> Encode(lib, cmd, entries) == Failed(PairFailure(lib, c.ps), []))
      && (c.Invalid? || c.InvalidReturn? ==> Encode(lib, cmd, entries) == Failed(MOSQ_ERR_INVAL, []))
  {
    FirstFailureAt(lib, entries, k);
  }

  /** An unknown name fails the whole encoding with MOSQ_ERR_INVAL. */
  lemma EncodeUnknownName(lib: Lib, cmd: Command, entries: seq<Entry>, k: nat)
    requires k < |entries| && AllAccepted(lib, entries[..k])
    requires lib.lookup(CStr(entries[k].name)).None?
    ensures Encode(lib, cmd, entries) == Failed(MOSQ_ERR_INVAL, [])
  {
    EncodeStopsAtFirstFailure(lib, cmd, entries, k);
  }
}
