/** The property decoder: a native property list becomes a host map keyed by
    property name. Every property but the user property is set under its own
    name, the last occurrence winning; all user properties go into one nested
    map that is attached under its name after the scan. */
module Decoder {
  import opened Wire
  import opened Native
  import opened Host

  /** The host value of a property the decoder sets directly, or None for a
      user property and for an identifier the decoder does not recognise.
      Strings are pushed as C strings, binary data with its length. */
  function Read(p: Property): (r: Option<Decoded>)
    ensures r.Some? ==> TypeOf(p.id).Some? && p.id != USER_PROPERTY
    ensures TypeOf(p.id) == Some(Byte) && p.value.ByteVal? ==> r == Some(DInt(p.value.b))
    ensures TypeOf(p.id) == Some(Int16) && p.value.Int16Val? ==> r == Some(DInt(p.value.h))
    ensures TypeOf(p.id) == Some(Int32) && p.value.Int32Val? ==> r == Some(DInt(p.value.w))
    ensures TypeOf(p.id) == Some(VarInt) && p.value.VarIntVal? ==> r == Some(DInt(p.value.v))
    ensures TypeOf(p.id) == Some(Utf8String) && p.value.StringVal? ==> r == Some(DText(CStr(p.value.s)))
    ensures TypeOf(p.id) == Some(Binary) && p.value.BinaryVal? ==> r == Some(DText(p.value.d))
    ensures p.value.PairVal? ==> r.None?
  {
    if TypeOf(p.id).None? || p.id == USER_PROPERTY then None
    else
      match p.value
      case ByteVal(b) => Some(DInt(b))
      case Int16Val(h) => Some(DInt(h))
      case Int32Val(w) => Some(DInt(w))
      case VarIntVal(v) => Some(DInt(v))
      case StringVal(s) => Some(DText(CStr(s)))
      case BinaryVal(d) => Some(DText(d))
      case PairVal(_, _) => None
  }

  /** The scan: `acc` is the outer map so far, `users` the nested map once
      created. */
  function DecodeFrom(lib: Lib, props: seq<Property>, acc: PropMap, users: Option<map<string, string>>): (r: PropMap)
    decreases |props|
  {
    if |props| == 0 then
      match users
      case None => acc
      case Some(u) => acc[lib.nameOf(USER_PROPERTY) := DUser(u)]
    else
      var p := props[0];
      if p.id == USER_PROPERTY then
        var u := if users.Some? then users.value else map[];
        var u' := if p.value.PairVal? then u[CStr(p.value.name) := CStr(p.value.value)] else u;
        DecodeFrom(lib, props[1..], acc, Some(u'))
      else
        match Read(p)
        case None => DecodeFrom(lib, props[1..], acc, users)
        case Some(v) => DecodeFrom(lib, props[1..], acc[lib.nameOf(p.id) := v], users)
  }

  /** `create_lua_stack_from_property_list`. */
  function Decode(lib: Lib, props: seq<Property>): PropMap {
    DecodeFrom(lib, props, map[], None)
  }

  // ---------------------------------------------------------------------
  // What the decoded map holds.

  /** The name under which the property at `i` is set directly, if any. */
  ghost predicate SetsKey(lib: Lib, props: seq<Property>, i: int, key: string)
    requires 0 <= i < |props|
  {
    Read(props[i]).Some? && lib.nameOf(props[i].id) == key
  }

  /** No recognised property shares its name with the user property. */
  ghost predicate UserNameReserved(lib: Lib) {
    forall id: int32 :: TypeOf(id).Some? && id != USER_PROPERTY ==> lib.nameOf(id) != lib.nameOf(USER_PROPERTY)
  }

  ghost predicate HasUser(props: seq<Property>) {
    exists i :: 0 <= i < |props| && props[i].id == USER_PROPERTY
  }

  /** An empty list gives an empty map. */
  lemma DecodeEmpty(lib: Lib)
    ensures Decode(lib, []) == map[]
  {
  }

  /** A key other than the user property's name holds the value of the last
      property set under it, or what the accumulator held when none is. */
  lemma {:induction false} DecodeFromOtherKey(lib: Lib, props: seq<Property>, acc: PropMap,
                                              users: Option<map<string, string>>, key: string)
    requires key != lib.nameOf(USER_PROPERTY)
    ensures var r := DecodeFrom(lib, props, acc, users);
      && ((key in r) <==> (key in acc || exists i :: 0 <= i < |props| && SetsKey(lib, props, i, key)))
      && (forall i :: 0 <= i < |props| && SetsKey(lib, props, i, key) &&
            (forall j :: i < j < |props| ==> !SetsKey(lib, props, j, key))
            ==> r[key] == Read(props[i]).value)
      && ((forall i :: 0 <= i < |props| ==> !SetsKey(lib, props, i, key)) && key in acc ==> r[key] == acc[key])
    decreases |props|
  {
    var r := DecodeFrom(lib, props, acc, users);
    if |props| > 0 {
      var p := props[0];
      var rest := props[1..];
      assert forall i :: 1 <= i < |props| ==> rest[i - 1] == props[i];
      assert forall i :: 1 <= i < |props| ==> (SetsKey(lib, props, i, key) <==> SetsKey(lib, rest, i - 1, key));
      var u := if users.Some? then users.value else map[];
      var users' := if p.id != USER_PROPERTY then users
                    else Some(if p.value.PairVal? then u[CStr(p.value.name) := CStr(p.value.value)] else u);
      var acc' := if Read(p).Some? then acc[lib.nameOf(p.id) := Read(p).value] else acc;
      assert r == DecodeFrom(lib, rest, acc', users');
      DecodeFromOtherKey(lib, rest, acc', users', key);
      assert SetsKey(lib, props, 0, key) <==> Read(p).Some? && lib.nameOf(p.id) == key;
      if exists i :: 0 <= i < |props| && SetsKey(lib, props, i, key) {
        var i :| 0 <= i < |props| && SetsKey(lib, props, i, key);
        if i > 0 {
          assert SetsKey(lib, rest, i - 1, key);
        }
      }
      if exists i :: 0 <= i < |rest| && SetsKey(lib, rest, i, key) {
        var i :| 0 <= i < |rest| && SetsKey(lib, rest, i, key);
        assert SetsKey(lib, props, i + 1, key);
      }
      if forall i :: 0 <= i < |props| ==> !SetsKey(lib, props, i, key) {
        forall j | 0 <= j < |rest| ensures !SetsKey(lib, rest, j, key) {
          assert !SetsKey(lib, props, j + 1, key);
        }
        assert key in acc ==> key in acc' && acc'[key] == acc[key];
      }
      forall i | 0 <= i < |props| && SetsKey(lib, props, i, key) &&
                 (forall j :: i < j < |props| ==> !SetsKey(lib, props, j, key))
        ensures r[key] == Read(props[i]).value
      {
        if i == 0 {
          assert forall j :: 0 <= j < |rest| ==> !SetsKey(lib, rest, j, key) by {
            forall j | 0 <= j < |rest| ensures !SetsKey(lib, rest, j, key) {
              assert !SetsKey(lib, props, j + 1, key);
            }
          }
        } else {
          assert SetsKey(lib, rest, i - 1, key);
          forall j | i - 1 < j < |rest| ensures !SetsKey(lib, rest, j, key) {
            assert !SetsKey(lib, props, j + 1, key);
          }
        }
      }
    }
  }

  /** Decoding gives one key per recognised property that is not a user
      property, holding the value of that name's last occurrence. */
  lemma DecodeLastWins(lib: Lib, props: seq<Property>, i: nat)
    requires i < |props| && Read(props[i]).Some?
    requires lib.nameOf(props[i].id) != lib.nameOf(USER_PROPERTY)
    requires forall j :: i < j < |props| ==> !SetsKey(lib, props, j, lib.nameOf(props[i].id))
    ensures lib.nameOf(props[i].id) in Decode(lib, props)
    ensures Decode(lib, props)[lib.nameOf(props[i].id)] == Read(props[i]).value
  {
    DecodeFromOtherKey(lib, props, map[], None, lib.nameOf(props[i].id));
  }

  /** Every key but the user property's comes from some recognised
      property; unrecognised identifiers contribute nothing. */
  lemma DecodeKeys(lib: Lib, props: seq<Property>, key: string)
    requires key != lib.nameOf(USER_PROPERTY)
    ensures key in Decode(lib, props) <==> exists i :: 0 <= i < |props| && SetsKey(lib, props, i, key)
  {
    DecodeFromOtherKey(lib, props, map[], None, key);
  }

  /** For a list the library produced, the wire type of the last property
      set under a key decides what the key holds: a number for the integer
      types, a string for UTF-8 strings and binary data. A nested table is
      never found under any other name than the user property's. */
  lemma DecodedValueShapes(lib: Lib, props: seq<Property>, key: string)
    requires WellTyped(props)
    requires key in Decode(lib, props) && key != lib.nameOf(USER_PROPERTY)
    ensures !Decode(lib, props)[key].DUser?
    ensures exists i :: (
      && 0 <= i < |props| && SetsKey(lib, props, i, key)
      && (forall j :: i < j < |props| ==> !SetsKey(lib, props, j, key))
      && (Decode(lib, props)[key].DInt? <==> TypeOf(props[i].id).value in {Byte, Int16, Int32, VarInt})
      && (Decode(lib, props)[key].DText? <==> TypeOf(props[i].id).value in {Utf8String, Binary}))
  {
    DecodeFromOtherKey(lib, props, map[], None, key);
    var i :| 0 <= i < |props| && SetsKey(lib, props, i, key);
    var last := LastSetterFrom(lib, props, key, i);
    assert TypeOf(props[last].id) == Some(props[last].value.Type());
  }

  /** The last index at or after `i` that sets `key`. */
  lemma {:induction false} LastSetterFrom(lib: Lib, props: seq<Property>, key: string, i: nat) returns (last: nat)
    requires i < |props| && SetsKey(lib, props, i, key)
    ensures i <= last < |props| && SetsKey(lib, props, last, key)
    ensures forall j :: last < j < |props| ==> !SetsKey(lib, props, j, key)
    decreases |props| - i
  {
    if exists j :: i < j < |props| && SetsKey(lib, props, j, key) {
      var j :| i < j < |props| && SetsKey(lib, props, j, key);
      last := LastSetterFrom(lib, props, key, j);
    } else {
      last := i;
    }
  }

  // ---------------------------------------------------------------------
  // The nested user-property map.

  /** The nested map after one more property: a user property's pair is
      set, overwriting an earlier value under the same name. */
  function AddUser(u: map<string, string>, p: Property): map<string, string> {
    if p.id == USER_PROPERTY && p.value.PairVal? then u[CStr(p.value.name) := CStr(p.value.value)] else u
  }

  /** The nested map the user properties of `props` denote, later pairs
      winning, read from the last property backwards. */
  ghost function UserPairs(u: map<string, string>, props: seq<Property>): map<string, string>
    decreases |props|
  {
    if |props| == 0 then u else AddUser(UserPairs(u, props[..|props| - 1]), props[|props| - 1])
  }

  lemma {:induction false} UserPairsCons(u: map<string, string>, p: Property, rest: seq<Property>)
    ensures UserPairs(u, [p] + rest) == UserPairs(AddUser(u, p), rest)
    decreases |rest|
  {
    if |rest| > 0 {
      assert ([p] + rest)[..|[p] + rest| - 1] == [p] + rest[..|rest| - 1];
      UserPairsCons(u, p, rest[..|rest| - 1]);
    } else {
      assert ([p] + rest)[..0] == [];
    }
  }

  /** The user property's key is set after the scan exactly when a user
      property occurred (or the nested map was already begun), and then
      holds every pair, the last value winning per name. */
  lemma {:induction false} DecodeFromUserKey(lib: Lib, props: seq<Property>, acc: PropMap,
                                             users: Option<map<string, string>>)
    requires UserNameReserved(lib)
    requires lib.nameOf(USER_PROPERTY) !in acc
    ensures var r := DecodeFrom(lib, props, acc, users);
      && (lib.nameOf(USER_PROPERTY) in r <==> users.Some? || HasUser(props))
      && (lib.nameOf(USER_PROPERTY) in r ==>
            r[lib.nameOf(USER_PROPERTY)] == DUser(UserPairs(if users.Some? then users.value else map[], props)))
    decreases |props|
  {
    if |props| > 0 {
      var p := props[0];
      var rest := props[1..];
      assert props == [p] + rest;
      var u := if users.Some? then users.value else map[];
      UserPairsCons(u, p, rest);
      assert HasUser(props) <==> p.id == USER_PROPERTY || HasUser(rest) by {
        if HasUser(rest) {
          var i :| 0 <= i < |rest| && rest[i].id == USER_PROPERTY;
          assert props[i + 1].id == USER_PROPERTY;
        }
        if HasUser(props) && p.id != USER_PROPERTY {
          var i :| 0 <= i < |props| && props[i].id == USER_PROPERTY;
          assert rest[i - 1].id == USER_PROPERTY;
        }
      }
      if p.id == USER_PROPERTY {
        DecodeFromUserKey(lib, rest, acc, Some(AddUser(u, p)));
      } else {
        match Read(p)
        case None =>
          assert AddUser(u, p) == u;
          DecodeFromUserKey(lib, rest, acc, users);
        case Some(v) =>
          assert AddUser(u, p) == u;
          assert lib.nameOf(p.id) != lib.nameOf(USER_PROPERTY);
          DecodeFromUserKey(lib, rest, acc[lib.nameOf(p.id) := v], users);
      }
    }
  }

  /** Decoding puts every user property into one nested map, the last value
      winning per name, present exactly when a user property occurred. */
  lemma DecodeUserProperties(lib: Lib, props: seq<Property>)
    requires UserNameReserved(lib)
    ensures lib.nameOf(USER_PROPERTY) in Decode(lib, props) <==> HasUser(props)
    ensures HasUser(props) ==> Decode(lib, props)[lib.nameOf(USER_PROPERTY)] == DUser(UserPairs(map[], props))
  {
    DecodeFromUserKey(lib, props, map[], None);
  }
}
