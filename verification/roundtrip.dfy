/** Encoding a host table and decoding the list the library would hand
    back gives the table again, for a single named value and for a table of
    user properties. */
module RoundTrip {
  import opened Wire
  import opened Native
  import opened Host
  import opened Encoder
  import opened Decoder

  /** The host value a number or string entry decodes back to: the number
      itself, or the string up to its first NUL. */
  function Plain(v: LuaValue): (d: Decoded)
    requires v.Num? || v.Str?
  {
    if v.Num? then DInt(v.n) else DText(CStr(v.s))
  }

  lemma CStrIdempotent(s: string)
    ensures CStr(CStr(s)) == CStr(s)
  {
    UpToNulIdentity(CStr(s), '\0');
  }

  /** A one-entry table encodes to what its entry contributes. */
  lemma EncodeSingle(lib: Lib, cmd: Command, e: Entry)
    requires Encode(lib, cmd, [e]).Encoded?
    ensures Contribution(lib, e).Some? && Encode(lib, cmd, [e]).list == Contribution(lib, e).value
  {
    assert AllAccepted(lib, [e]);
    assert [e][0] == e && [e][1..] == [];
  }

  /** A single number or string under a name the library knows, once
      accepted, decodes back to that name and value alone. */
  lemma {:induction false} EntryRoundTrip(lib: Lib, cmd: Command, name: string, v: LuaValue)
    requires '\0' !in name && lib.Consistent(name)
    requires lib.lookup(name).Some? && lib.lookup(name).value.1 != StringPair
    requires v.Num? || v.Str?
    requires Encode(lib, cmd, [Entry(name, v)]).Encoded?
    ensures Decode(lib, Encode(lib, cmd, [Entry(name, v)]).list) == map[name := Plain(v)]
  {
    var e := Entry(name, v);
    UpToNulIdentity(name, '\0');
    EncodeSingle(lib, cmd, e);
    var info := lib.lookup(name).value;
    var c := Convert(info.0, info.1, v);
    assert c.Add?;
    var p := c.p;
    assert Encode(lib, cmd, [e]).list == [p];
    assert p.id != USER_PROPERTY;
    if v.Str? {
      CStrIdempotent(v.s);
    }
    assert Read(p) == Some(Plain(v));
    assert lib.nameOf(p.id) == name;
    assert [p][1..] == [];
    assert Decode(lib, [p]) == DecodeFrom(lib, [], map[name := Plain(v)], None);
  }

  // ---------------------------------------------------------------------
  // User properties.

  /** The nested map a table of string pairs denotes: each pair cut at its
      first NUL, later pairs winning. */
  ghost function PairMap(pairs: seq<(string, string)>): map<string, string>
    decreases |pairs|
  {
    if |pairs| == 0 then map[]
    else PairMap(pairs[..|pairs| - 1])[CStr(pairs[|pairs| - 1].0) := CStr(pairs[|pairs| - 1].1)]
  }

  /** The user properties the encoder makes from `pairs`. */
  function UserList(pairs: seq<(string, string)>): (ps: seq<Property>)
    ensures |ps| == |pairs|
    ensures forall i :: 0 <= i < |ps| ==> ps[i] == Property(USER_PROPERTY, PairVal(CStr(pairs[i].0), CStr(pairs[i].1)))
  {
    seq(|pairs|, i requires 0 <= i < |pairs| => Property(USER_PROPERTY, PairVal(CStr(pairs[i].0), CStr(pairs[i].1))))
  }

  lemma {:induction false} UserPairsOfList(pairs: seq<(string, string)>)
    ensures UserPairs(map[], UserList(pairs)) == PairMap(pairs)
    decreases |pairs|
  {
    if |pairs| > 0 {
      var n := |pairs| - 1;
      var ps := UserList(pairs);
      assert ps[..n] == UserList(pairs[..n]);
      UserPairsOfList(pairs[..n]);
      CStrIdempotent(pairs[n].0);
      CStrIdempotent(pairs[n].1);
    }
  }

  /** A non-empty list of user properties decodes to the nested map of
      its pairs under the user property's name, and to nothing else. */
  lemma DecodeUserList(lib: Lib, pairs: seq<(string, string)>)
    requires UserNameReserved(lib) && |pairs| > 0
    ensures Decode(lib, UserList(pairs)) == map[lib.nameOf(USER_PROPERTY) := DUser(PairMap(pairs))]
  {
    var list := UserList(pairs);
    var name := lib.nameOf(USER_PROPERTY);
    var d := Decode(lib, list);
    assert HasUser(list) by {
      assert list[0].id == USER_PROPERTY;
    }
    DecodeUserProperties(lib, list);
    UserPairsOfList(pairs);
    forall key | key in d ensures key == name {
      if key != name {
        UserListOnlyUser(lib, pairs, key);
      }
    }
    SingletonMap(d, name, DUser(PairMap(pairs)));
  }

  lemma SingletonMap<K, V>(d: map<K, V>, k: K, v: V)
    requires k in d && d[k] == v
    requires forall key :: key in d ==> key == k
    ensures d == map[k := v]
  {
  }

  /** A list of user properties sets no other key. */
  lemma UserListOnlyUser(lib: Lib, pairs: seq<(string, string)>, key: string)
    requires key != lib.nameOf(USER_PROPERTY)
    ensures key !in Decode(lib, UserList(pairs))
  {
    var list := UserList(pairs);
    DecodeKeys(lib, list, key);
    forall i | 0 <= i < |list| ensures !SetsKey(lib, list, i, key) {
      assert list[i].id == USER_PROPERTY;
    }
  }

  /** A non-empty table of string pairs under the user property's name,
      once accepted, decodes back to one key holding every pair, the last
      value winning per name. */
  lemma {:induction false} UserTableRoundTrip(lib: Lib, cmd: Command, name: string, pairs: seq<(string, string)>)
    requires '\0' !in name && lib.Consistent(name) && UserNameReserved(lib)
    requires lib.lookup(name) == Some((USER_PROPERTY, StringPair))
    requires |pairs| > 0
    requires Encode(lib, cmd, [Entry(name, LuaValue.Table(pairs))]).Encoded?
    ensures Decode(lib, Encode(lib, cmd, [Entry(name, LuaValue.Table(pairs))]).list) == map[name := DUser(PairMap(pairs))]
  {
    var e := Entry(name, LuaValue.Table(pairs));
    UpToNulIdentity(name, '\0');
    EncodeSingle(lib, cmd, e);
    assert Convert(USER_PROPERTY, StringPair, LuaValue.Table(pairs)).ps == UserList(pairs);
    assert Encode(lib, cmd, [e]).list == UserList(pairs);
    DecodeUserList(lib, pairs);
  }
}
