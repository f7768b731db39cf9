/** The property encoder exactly as `create_property_list_from_lua_stack`
    is written, with the result code that is never initialised, the early
    returns that skip the free, and the string-pair loop that keeps only the
    last code; and how it relates to the corrected encoder. */
module EncoderAsWritten {
  import opened Wire
  import opened Native
  import opened Encoder

  /** How the loop over the entries ends: by running out of entries or
      breaking, with the list built so far and the code left in `rc`; or by
      returning MOSQ_ERR_INVAL at once, leaving the list allocated. */
  datatype Exit = Broke(list: seq<Property>, rc: int32) | ReturnedEarly(list: seq<Property>)

  /** The pairs the library accepts, in their order. */
  ghost function Kept(lib: Lib, ps: seq<Property>): (k: seq<Property>)
    ensures forall p :: p in k ==> p in ps && lib.addRc(p) == MOSQ_ERR_SUCCESS
    ensures forall i :: 0 <= i < |ps| && lib.addRc(ps[i]) == MOSQ_ERR_SUCCESS ==> ps[i] in k
    decreases |ps|
  {
    if |ps| == 0 then []
    else
      assert forall i :: 1 <= i < |ps| ==> ps[1..][i - 1] == ps[i];
      (if lib.addRc(ps[0]) == MOSQ_ERR_SUCCESS then [ps[0]] else []) + Kept(lib, ps[1..])
  }

  /** The nested-table loop: every pair is offered to the library, each
      result overwrites the code, and a refused pair is simply missing. */
  function AddEachKeepLast(lib: Lib, list: seq<Property>, ps: seq<Property>, rc: int32): (r: (seq<Property>, int32))
    ensures |ps| == 0 ==> r == (list, rc)
    ensures |ps| > 0 ==> r.1 == lib.addRc(ps[|ps| - 1])
    ensures r.0 == list + Kept(lib, ps)
    decreases |ps|
  {
    if |ps| == 0 then (list, rc)
    else
      var rc' := lib.addRc(ps[0]);
      var list' := if rc' == MOSQ_ERR_SUCCESS then list + [ps[0]] else list;
      assert list' + Kept(lib, ps[1..]) == list + Kept(lib, ps);
      AddEachKeepLast(lib, list', ps[1..], rc')
  }

  /** The list and code after one converted entry that does not return
      early. */
  function Apply(lib: Lib, list: seq<Property>, c: Conversion): (r: (seq<Property>, int32))
    ensures |list| <= |r.0| && r.0[..|list|] == list
    ensures c.Invalid? ==> r == (list, MOSQ_ERR_INVAL)
    ensures c.Add? ==> r.1 == lib.addRc(c.p) && (r.1 == MOSQ_ERR_SUCCESS <==> r.0 == list + [c.p])
  {
    match c
    case Add(p) =>
      var rc := lib.addRc(p);
      (if rc == MOSQ_ERR_SUCCESS then list + [p] else list, rc)
    case AddPairs(ps) => AddEachKeepLast(lib, list, ps, MOSQ_ERR_SUCCESS)
    case _ => (list, MOSQ_ERR_INVAL)
  }

  function ScanAsWritten(lib: Lib, entries: seq<Entry>, list: seq<Property>, rc: int32): (r: Exit)
    ensures |entries| == 0 ==> r == Broke(list, rc)
    ensures |list| <= |r.list| && r.list[..|list|] == list
    decreases |entries|
  {
    if |entries| == 0 then Broke(list, rc)
    else
      var e := entries[0];
      match lib.lookup(CStr(e.name))
      case None => Broke(list, MOSQ_ERR_INVAL)
      case Some(info) =>
        match Convert(info.0, info.1, e.value)
        case InvalidReturn => ReturnedEarly(list)
        case c =>
          var next := Apply(lib, list, c);
          if next.1 != MOSQ_ERR_SUCCESS then Broke(next.0, next.1)
          else ScanAsWritten(lib, entries[1..], next.0, next.1)
  }

  /** The encoder as written; `uninitialised` is whatever the stack slot of
      `rc` held when the function was entered. */
  function EncodeAsWritten(lib: Lib, cmd: Command, entries: seq<Entry>, uninitialised: int32): (r: Outcome)
    ensures r.Encoded? ==> lib.legal(cmd, r.list)
    ensures r.Failed? && r.leaked != [] ==> r.rc == MOSQ_ERR_INVAL
  {
    match ScanAsWritten(lib, entries, [], uninitialised)
    case ReturnedEarly(list) => Failed(MOSQ_ERR_INVAL, list)
    case Broke(list, rc) =>
      if rc != MOSQ_ERR_SUCCESS then Failed(rc, [])
      else if !lib.legal(cmd, list) then Failed(MOSQ_ERR_INVAL, [])
      else Encoded(list)
  }

  // ---------------------------------------------------------------------
  // Where the two encoders agree.

  /** An entry none of the three defects can touch: its value matches its
      type's shape, and a nested table's pairs are all accepted. */
  ghost predicate Untouched(lib: Lib, e: Entry) {
    match lib.lookup(CStr(e.name))
    case None => true
    case Some(info) =>
      match Convert(info.0, info.1, e.value)
      case InvalidReturn => false
      case AddPairs(ps) => forall i :: 0 <= i < |ps| ==> lib.addRc(ps[i]) == MOSQ_ERR_SUCCESS
      case _ => true
  }

  lemma {:induction false} AddEachAllAccepted(lib: Lib, list: seq<Property>, ps: seq<Property>, rc: int32)
    requires forall i :: 0 <= i < |ps| ==> lib.addRc(ps[i]) == MOSQ_ERR_SUCCESS
    ensures AddEachKeepLast(lib, list, ps, rc).0 == list + ps
    decreases |ps|
  {
    KeptAllAccepted(lib, ps);
  }

  /** When the library accepts every pair, all of them are kept. */
  lemma {:induction false} KeptAllAccepted(lib: Lib, ps: seq<Property>)
    requires forall i :: 0 <= i < |ps| ==> lib.addRc(ps[i]) == MOSQ_ERR_SUCCESS
    ensures Kept(lib, ps) == ps
    decreases |ps|
  {
    if |ps| > 0 {
      assert forall i :: 0 <= i < |ps[1..]| ==> ps[1..][i] == ps[i + 1];
      KeptAllAccepted(lib, ps[1..]);
      assert [ps[0]] + ps[1..] == ps;
    }
  }

  /** On a non-empty table of plain entries the loop as written ends exactly
      where the corrected scan does, with the same list or the same code. */
  lemma {:induction false} ScanAgrees(lib: Lib, entries: seq<Entry>, list: seq<Property>, rc: int32)
    requires |entries| > 0
    requires forall i :: 0 <= i < |entries| ==> Untouched(lib, entries[i])
    ensures var w := ScanAsWritten(lib, entries, list, rc);
      match Scan(lib, entries, list)
      case Done(l) => w == Broke(l, MOSQ_ERR_SUCCESS)
      case Stopped(c) => w.Broke? && w.rc == c
    decreases |entries|, 1
  {
    var e := entries[0];
    assert Untouched(lib, e);
    match lib.lookup(CStr(e.name))
    case None =>
    case Some(info) =>
      match Convert(info.0, info.1, e.value)
      case AddPairs(ps) =>
        AddEachAllAccepted(lib, list, ps, MOSQ_ERR_SUCCESS);
        AddAllAccepted(lib, list, ps);
        Rest(lib, entries, list + ps);
      case Add(p) =>
        if lib.addRc(p) == MOSQ_ERR_SUCCESS {
          Rest(lib, entries, list + [p]);
        }
      case Invalid =>
  }

  /** Both loops go on from the same list after an accepted first entry. */
  lemma {:induction false} Rest(lib: Lib, entries: seq<Entry>, next: seq<Property>)
    requires |entries| > 0
    requires forall i :: 0 <= i < |entries| ==> Untouched(lib, entries[i])
    ensures var w := ScanAsWritten(lib, entries[1..], next, MOSQ_ERR_SUCCESS);
      match Scan(lib, entries[1..], next)
      case Done(l) => w == Broke(l, MOSQ_ERR_SUCCESS)
      case Stopped(c) => w.Broke? && w.rc == c
    decreases |entries|, 0
  {
    if |entries| > 1 {
      assert forall i :: 0 <= i < |entries[1..]| ==> entries[1..][i] == entries[i + 1];
      ScanAgrees(lib, entries[1..], next, MOSQ_ERR_SUCCESS);
    }
  }

  /** Where none of the defects applies, the encoder as written and the
      corrected one give the same outcome. */
  lemma EncodeAgrees(lib: Lib, cmd: Command, entries: seq<Entry>, uninitialised: int32)
    requires |entries| > 0
    requires forall i :: 0 <= i < |entries| ==> Untouched(lib, entries[i])
    ensures EncodeAsWritten(lib, cmd, entries, uninitialised) == Encode(lib, cmd, entries)
  {
    ScanAgrees(lib, entries, [], uninitialised);
  }

  lemma AddAllAccepted(lib: Lib, list: seq<Property>, ps: seq<Property>)
    requires forall i :: 0 <= i < |ps| ==> lib.addRc(ps[i]) == MOSQ_ERR_SUCCESS
    ensures AddAll(lib, list, ps) == Done(list + ps)
  {
  }

  // ---------------------------------------------------------------------
  // The three defects, each shown on an input and set against the corrected
  // encoder.

  /** An empty table leaves `rc` as it was found: the encoding fails with
      that stray code, where the corrected encoder gives the empty list. */
  lemma EmptyTableReadsUninitialisedCode(lib: Lib, cmd: Command, uninitialised: int32)
    requires uninitialised != MOSQ_ERR_SUCCESS && lib.legal(cmd, [])
    ensures EncodeAsWritten(lib, cmd, [], uninitialised) == Failed(uninitialised, [])
    ensures Encode(lib, cmd, []) == Encoded([])
  {
  }

  /** A number for a string-typed name (or a string for a number-typed one)
      after an accepted entry returns with that entry's property still
      allocated; the corrected encoder frees it. */
  lemma ShapeMismatchLeaksList(lib: Lib, cmd: Command, first: Entry, second: Entry, p: Property,
                               uninitialised: int32)
    requires Contribution(lib, first) == Some([p])
    requires lib.lookup(CStr(second.name)).Some?
    requires var info := lib.lookup(CStr(second.name)).value;
      Convert(info.0, info.1, second.value).InvalidReturn?
    ensures EncodeAsWritten(lib, cmd, [first, second], uninitialised) == Failed(MOSQ_ERR_INVAL, [p])
    ensures Encode(lib, cmd, [first, second]) == Failed(MOSQ_ERR_INVAL, [])
  {
    var info := lib.lookup(CStr(first.name)).value;
    var c := Convert(info.0, info.1, first.value);
    assert !c.InvalidReturn?;
    if c.AddPairs? {
      assert c.ps == [p];
      assert [p][1..] == [];
      assert Kept(lib, [p]) == [p] + Kept(lib, []);
      assert Kept(lib, []) == [];
      assert [] + Kept(lib, [p]) == [p];
      assert AddEachKeepLast(lib, [], [p], MOSQ_ERR_SUCCESS) == ([p], MOSQ_ERR_SUCCESS);
    }
    assert Apply(lib, [], c) == ([p], MOSQ_ERR_SUCCESS);
    assert [first, second][1..] == [second];
    assert ScanAsWritten(lib, [second], [p], MOSQ_ERR_SUCCESS) == ReturnedEarly([p]);
    assert Step(lib, first, []) == Done([p]);
    assert Step(lib, second, [p]) == Stopped(MOSQ_ERR_INVAL);
    assert Scan(lib, [second], [p]) == Stopped(MOSQ_ERR_INVAL);
  }

  /** A user-property table whose first pair the library refuses and whose
      second it accepts: the code of the second overwrites the failure, and
      the encoding succeeds without the first pair. The corrected encoder
      fails with the refusal's code. */
  lemma RefusedPairIsMasked(lib: Lib, cmd: Command, name: string, a: (string, string), b: (string, string),
                            uninitialised: int32)
    requires lib.lookup(CStr(name)) == Some((USER_PROPERTY, StringPair))
    requires lib.addRc(Property(USER_PROPERTY, PairVal(CStr(a.0), CStr(a.1)))) != MOSQ_ERR_SUCCESS
    requires lib.addRc(Property(USER_PROPERTY, PairVal(CStr(b.0), CStr(b.1)))) == MOSQ_ERR_SUCCESS
    requires lib.legal(cmd, [Property(USER_PROPERTY, PairVal(CStr(b.0), CStr(b.1)))])
    ensures EncodeAsWritten(lib, cmd, [Entry(name, Table([a, b]))], uninitialised)
         == Encoded([Property(USER_PROPERTY, PairVal(CStr(b.0), CStr(b.1)))])
    ensures Encode(lib, cmd, [Entry(name, Table([a, b]))])
         == Failed(lib.addRc(Property(USER_PROPERTY, PairVal(CStr(a.0), CStr(a.1)))), [])
  {
    var pa := Property(USER_PROPERTY, PairVal(CStr(a.0), CStr(a.1)));
    var pb := Property(USER_PROPERTY, PairVal(CStr(b.0), CStr(b.1)));
    var c := Convert(USER_PROPERTY, StringPair, Table([a, b]));
    assert c.ps == [pa, pb];
    assert [pa, pb][1..] == [pb];
    assert [pb][1..] == [];
    assert Kept(lib, [pb]) == [pb] + Kept(lib, []);
    assert Kept(lib, [pa, pb]) == [] + Kept(lib, [pb]);
    assert Kept(lib, []) == [];
    assert [] + Kept(lib, [pa, pb]) == [pb];
    assert AddEachKeepLast(lib, [], [pa, pb], MOSQ_ERR_SUCCESS) == ([pb], MOSQ_ERR_SUCCESS);
  }
}
