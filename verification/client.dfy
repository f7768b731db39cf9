/** A client object: its handler slots, the registry references it holds,
    and the calls that create it, register handlers, reinitialise and
    destroy it. A host call's arguments are written without the client
    itself, which is always argument 1. */
module Client {
  import opened Wire
  import opened Host
  import opened Native
  import opened Status
  import opened Callbacks

  /** A reference into the host registry. */
  type Ref = nat

  /** The per-client state the binding keeps. `slots` maps each kind with a
      registered handler to the handler's reference; a kind not in `slots`
      holds LUA_REFNIL. `taken` is every reference the client has taken and
      not released, and `next` lies above every reference it ever took. */
  datatype Ctx = Ctx(slots: map<Kind, Ref>, taken: set<Ref>, next: Ref)
  {
    ghost predicate Valid() {
      forall r :: r in taken ==> r < next
    }

    /** No reference is lost: the taken references are exactly those the
        slots hold, one slot each. */
    ghost predicate Tidy() {
      && Valid()
      && taken == slots.Values
      && Injective(slots)
    }
  }

  /** `ctx__on_init`: every slot LUA_REFNIL. */
  const NoHandlers: map<Kind, Ref> := map[]

  /** `ctx__on_clear`: every slot's reference is released; the slots
      themselves are left as they are. */
  function OnClear(ctx: Ctx): (r: Ctx)
    ensures r.slots == ctx.slots && r.next == ctx.next
    ensures forall x :: x in r.taken <==> x in ctx.taken && forall k :: k in ctx.slots ==> ctx.slots[k] != x
    ensures ctx.Valid() ==> r.Valid()
    ensures ctx.Tidy() ==> r.taken == {}
  {
    Ctx(ctx.slots, ctx.taken - ctx.slots.Values, ctx.next)
  }

  /** The full argument list of a call on a client. */
  function WithSelf(args: seq<Arg>): seq<Arg> {
    [Userdata] + args
  }

  /** `new`: argument 1 is the optional client id, argument 2 the optional
      clean-session flag; `create` is `mosquitto_new`, reporting whether it
      returned a handle, and `errno` the error number it left. */
  function New(lib: Lib, args: seq<Arg>, create: (Option<string>, bool) -> bool, errno: int32): (r: Result<Ctx>)
    ensures var id := OptString(ArgAt(args, 1)); var clean := BoolOrTrue(ArgAt(args, 2));
      r.Ok? <==> id.Ok? && (id.value.Some? || clean) && create(id.value, clean)
    ensures var id := OptString(ArgAt(args, 1));
      id.Raise? ==> r == Raise(ArgError(1, id.message))
    ensures var id := OptString(ArgAt(args, 1)); var clean := BoolOrTrue(ArgAt(args, 2));
      id.Ok? && id.value.None? && !clean ==>
        r == Raise(ArgError(2, "if 'id' is nil then 'clean session' must be true"))
    ensures var id := OptString(ArgAt(args, 1)); var clean := BoolOrTrue(ArgAt(args, 2));
      id.Ok? && (id.value.Some? || clean) && !create(id.value, clean) ==> r == Raise(lib.osStrerror(errno))
    ensures r.Ok? ==> r.value.slots == NoHandlers && r.value.Tidy()
  {
    match OptString(ArgAt(args, 1))
    case Raise(m) => Raise(ArgError(1, m))
    case Ok(id) =>
      var clean := BoolOrTrue(ArgAt(args, 2));
      if id.None? && !clean then Raise(ArgError(2, "if 'id' is nil then 'clean session' must be true"))
      else if !create(id, clean) then Raise(lib.osStrerror(errno))
      else Ok(Ctx(NoHandlers, {}, 0))
  }

  /** A client without an id must start with a clean session: asking for a
      persistent anonymous session raises before the library is asked. */
  lemma NewAnonymousNeedsCleanSession(lib: Lib, create: (Option<string>, bool) -> bool, errno: int32)
    ensures New(lib, [], create, errno).Ok? <==> create(None, true)
    ensures New(lib, [NilArg, Boolean(false)], create, errno).Raise?
    ensures forall id: string :: New(lib, [Str(id), Boolean(false)], create, errno).Ok? <==> create(Some(CStr(id)), false)
  {
  }

  /** `destroy`: the native handle goes and every held reference is
      released; the call returns true. */
  function Destroy(ctx: Ctx): (r: (Returned, Ctx))
    ensures r.0 == Values([Bool(true)])
    ensures ctx.Tidy() ==> r.1.taken == {}
    ensures r.1.taken <= ctx.taken
  {
    var lib := NullLib();
    (PStatus(lib, MOSQ_ERR_SUCCESS, 0), OnClear(ctx))
  }

  /** The body of `reinitialise` with the positions it reads the id and the
      clean-session flag from; `native` is `mosquitto_reinitialise`. */
  function ReinitialiseFrom(lib: Lib, ctx: Ctx, all: seq<Arg>, idArg: nat, cleanArg: nat,
                            native: (Option<string>, bool) -> int32, errno: int32): (r: (Returned, Ctx))
    requires idArg >= 1 && cleanArg >= 1
  {
    match OptString(ArgAt(all, idArg))
    case Raise(m) => (Raised(ArgError(idArg, m)), ctx)
    case Ok(id) =>
      var clean := BoolOrTrue(ArgAt(all, cleanArg));
      if id.None? && !clean then
        (Raised(ArgError(3, "if 'id' is nil then 'clean session' must be true")), ctx)
      else
        var rc := native(id, clean);
        var cleared := OnClear(ctx);
        (PStatus(lib, rc, errno), Ctx(NoHandlers, cleared.taken, cleared.next))
  }

  /** `reinitialise` as written: the id is read from argument 1, which is the
      client itself, and the flag from argument 2, which is the id. */
  function ReinitialiseAsWritten(lib: Lib, ctx: Ctx, args: seq<Arg>,
                                 native: (Option<string>, bool) -> int32, errno: int32): (r: (Returned, Ctx))
    ensures r.1 == ctx || r.1.slots == NoHandlers
  {
    ReinitialiseFrom(lib, ctx, WithSelf(args), 1, 2, native, errno)
  }

  /** `reinitialise` reading the id from argument 2 and the flag from
      argument 3, as its documentation and its error message say. */
  function Reinitialise(lib: Lib, ctx: Ctx, args: seq<Arg>,
                        native: (Option<string>, bool) -> int32, errno: int32): (r: (Returned, Ctx))
    ensures var id := OptString(ArgAt(args, 1)); var clean := BoolOrTrue(ArgAt(args, 2));
      id.Raise? || (id.value.None? && !clean) ==> r.0.Raised? && r.1 == ctx
    ensures var id := OptString(ArgAt(args, 1)); var clean := BoolOrTrue(ArgAt(args, 2));
      id.Ok? && (id.value.Some? || clean) ==>
        && r.0 == PStatus(lib, native(id.value, clean), errno)
        && r.1.slots == NoHandlers
        && (ctx.Tidy() ==> r.1.Tidy() && r.1.taken == {})
  {
    var all := WithSelf(args);
    assert ArgAt(all, 2) == ArgAt(args, 1) && ArgAt(all, 3) == ArgAt(args, 2);
    ReinitialiseFrom(lib, ctx, all, 2, 3, native, errno)
  }

  /** Whatever the arguments, `reinitialise` as written raises and leaves
      the client alone: the client object is not a string. The corrected
      call, given no arguments, asks the library for an anonymous clean
      session and clears every slot. */
  lemma ReinitialiseAsWrittenAlwaysRaises(lib: Lib, ctx: Ctx, args: seq<Arg>,
                                          native: (Option<string>, bool) -> int32, errno: int32)
    ensures ReinitialiseAsWritten(lib, ctx, args, native, errno) == (Raised(ArgError(1, "string expected")), ctx)
    ensures ctx.Tidy() ==>
      Reinitialise(lib, ctx, [], native, errno) == (PStatus(lib, native(None, true), errno), Ctx(NoHandlers, {}, ctx.next))
  {
  }

  // ---------------------------------------------------------------------
  // Registering a handler.

  /** How the kind argument of `callback_set` is read as written: anything
      `lua_isstring` accepts, numbers included, goes through the name table
      as text; anything else must be an integer. */
  function KindArgAsWritten(a: Arg): (r: Result<int>)
    ensures a.Str? ==> r == Ok(TypeFromString(a.s))
    ensures a.Number? ==> r == Ok(TypeFromString(DecimalText(a.n)))
    ensures r.Raise? <==> !(a.Str? || a.Number?)
  {
    match a
    case Str(s) => Ok(TypeFromString(s))
    case Number(n) => Ok(TypeFromString(DecimalText(n)))
    case _ => Raise(ArgError(2, "number expected"))
  }

  /** The kind argument read as the documentation means it: a string is a
      kind name, a number a kind id. */
  function KindArg(a: Arg): (r: Result<int>)
    ensures forall k: Kind :: a == Str(k.Name()) || a == Number(k.Id()) ==> r == Ok(k.Id())
    ensures r.Ok? && 0 <= r.value < 13 ==> a.Number? || exists k: Kind :: a.Str? && CStr(a.s) == k.Name()
    ensures r.Raise? <==> !(a.Str? || a.Number?)
  {
    match a
    case Str(s) =>
      assert forall k: Kind :: s == k.Name() ==> CStr(s) == k.Name() by {
        forall k: Kind | s == k.Name() ensures CStr(s) == k.Name() {
          NamePrefixed(k);
          assert '\0' !in k.Name() by { NameHasNoNul(k); }
          UpToNulIdentity(k.Name(), '\0');
        }
      }
      Ok(TypeFromString(s))
    case Number(n) => Ok(n)
    case _ => Raise(ArgError(2, "number expected"))
  }

  lemma NameHasNoNul(k: Kind)
    ensures '\0' !in k.Name()
  {
  }

  /** The body of `callback_set` after the kind is read: the handler must be
      a function; a reference to it is taken; a known kind stores it in its
      slot (releasing the slot's previous reference when `releaseOld`),
      an unknown kind releases it and raises. */
  function Register(ctx: Ctx, kind: Result<int>, handler: Arg, releaseOld: bool): (r: (Returned, Ctx))
    ensures r.0.Raised? ==> r.1.slots == ctx.slots && r.1.taken == ctx.taken
    ensures r.0.Raised? || r.0 == Values([Bool(true)])
    ensures r.0 == Values([Bool(true)]) <==> kind.Ok? && handler == Function && KindOf(kind.value).Some?
    ensures r.1.next >= ctx.next
    ensures r.0 == Values([Bool(true)]) ==>
      var k := KindOf(kind.value).value;
      && r.1.slots == ctx.slots[k := ctx.next] && r.1.next == ctx.next + 1
      && r.1.taken == (if releaseOld && k in ctx.slots then ctx.taken - {ctx.slots[k]} else ctx.taken) + {ctx.next}
  {
    match kind
    case Raise(m) => (Raised(m), ctx)
    case Ok(t) =>
      if handler != Function then (Raised(ArgError(3, "expecting a callback function")), ctx)
      else
        var ref := ctx.next;
        match KindOf(t)
        case None => (Raised(ArgError(2, "not a proper callback type")), Ctx(ctx.slots, ctx.taken, ctx.next + 1))
        case Some(k) =>
          var kept := if releaseOld && k in ctx.slots then ctx.taken - {ctx.slots[k]} else ctx.taken;
          (PStatus(NullLib(), MOSQ_ERR_SUCCESS, 0), Ctx(ctx.slots[k := ref], kept + {ref}, ctx.next + 1))
  }

  /** A library whose functions are never consulted: `callback_set` and
      `destroy` only ever translate success. */
  function NullLib(): Lib {
    Lib(_ => None, _ => "", _ => 0, (_, _) => true, _ => "", _ => "", _ => "", _ => "")
  }

  /** `callback_set` as written: integer kinds are converted to text and
      looked up by name, and the slot's previous reference is overwritten
      without being released. */
  function CallbackSetAsWritten(ctx: Ctx, args: seq<Arg>): (r: (Returned, Ctx))
    ensures r.0.Raised? ==> r.1.slots == ctx.slots && r.1.taken == ctx.taken
  {
    var all := WithSelf(args);
    Register(ctx, KindArgAsWritten(ArgAt(all, 2)), ArgAt(all, 3), false)
  }

  /** `callback_set` with integer kinds taken as ids and the previous
      reference released. */
  function CallbackSet(ctx: Ctx, args: seq<Arg>): (r: (Returned, Ctx))
    ensures r.0.Raised? ==> r.1.slots == ctx.slots && r.1.taken == ctx.taken
    ensures r.0 == Values([Bool(true)]) <==>
      ArgAt(args, 2) == Function &&
      (|| (ArgAt(args, 1).Number? && 0 <= ArgAt(args, 1).n < 13)
       || (ArgAt(args, 1).Str? && exists k: Kind :: CStr(ArgAt(args, 1).s) == k.Name()))
    ensures forall k: Kind ::
      (ctx.Valid() && (ArgAt(args, 1) == Str(k.Name()) || ArgAt(args, 1) == Number(k.Id())) && ArgAt(args, 2) == Function)
      ==> Registered(ctx, r.1, k)
    ensures ctx.Tidy() ==> r.1.Tidy()
  {
    var all := WithSelf(args);
    assert ArgAt(all, 2) == ArgAt(args, 1) && ArgAt(all, 3) == ArgAt(args, 2);
    var kind := KindArg(ArgAt(args, 1));
    var r := Register(ctx, kind, ArgAt(args, 2), true);
    if r.0 == Values([Bool(true)]) then
      var k := KindOf(kind.value).value;
      TidyAfterRegister(ctx, k, r.1);
      assert forall k': Kind :: ArgAt(args, 1) == Str(k'.Name()) || ArgAt(args, 1) == Number(k'.Id()) ==> k' == k by {
        forall k': Kind | ArgAt(args, 1) == Str(k'.Name()) || ArgAt(args, 1) == Number(k'.Id()) ensures k' == k {
          KindOfId(k');
        }
      }
      r
    else r
  }

  /** After registration, kind `k` holds a fresh reference and every other
      slot is as it was. */
  ghost predicate Registered(before: Ctx, after: Ctx, k: Kind) {
    && k in after.slots && after.slots[k] !in before.taken && after.slots[k] >= before.next
    && (forall k' :: k' != k ==> (k' in after.slots <==> k' in before.slots))
    && forall k' :: k' != k && k' in before.slots && k' in after.slots ==> after.slots[k'] == before.slots[k']
  }

  lemma TidyAfterRegister(ctx: Ctx, k: Kind, after: Ctx)
    requires after.slots == ctx.slots[k := ctx.next] && after.next == ctx.next + 1
    requires after.taken == (if k in ctx.slots then ctx.taken - {ctx.slots[k]} else ctx.taken) + {ctx.next}
    ensures ctx.Tidy() ==> after.Tidy()
    ensures ctx.Valid() ==> Registered(ctx, after, k)
  {
    if ctx.Tidy() {
      ValuesAfterUpdate(ctx.slots, k, ctx.next);
      assert after.Valid();
    }
  }

  /** No reference sits in two slots. */
  ghost predicate Injective(m: map<Kind, Ref>) {
    forall k1, k2 :: k1 in m && k2 in m && m[k1] == m[k2] ==> k1 == k2
  }

  /** Storing a new reference in an injective slot map replaces the old
      reference among its values by the new one. */
  lemma ValuesAfterUpdate(m: map<Kind, Ref>, k: Kind, v: Ref)
    requires Injective(m) && v !in m.Values
    ensures m[k := v].Values == (if k in m then m.Values - {m[k]} else m.Values) + {v}
    ensures Injective(m[k := v])
  {
    var m' := m[k := v];
    var rhs := (if k in m then m.Values - {m[k]} else m.Values) + {v};
    forall x | x in m'.Values ensures x in rhs {
      NewValueOld(m, k, v, x);
    }
    forall x | x in rhs ensures x in m'.Values {
      OldValueNew(m, k, v, x);
    }
  }

  lemma NewValueOld(m: map<Kind, Ref>, k: Kind, v: Ref, x: Ref)
    requires Injective(m) && x in m[k := v].Values
    ensures x in (if k in m then m.Values - {m[k]} else m.Values) + {v}
  {
    if x != v {
      var k' :| k' in m[k := v] && m[k := v][k'] == x;
      assert k' != k && k' in m && m[k'] == x;
    }
  }

  lemma OldValueNew(m: map<Kind, Ref>, k: Kind, v: Ref, x: Ref)
    requires Injective(m) && x in (if k in m then m.Values - {m[k]} else m.Values) + {v}
    ensures x in m[k := v].Values
  {
    if x == v {
      assert m[k := v][k] == v;
    } else {
      var k' :| k' in m && m[k'] == x;
      assert k' != k && m[k := v][k'] == x;
    }
  }

  // ---------------------------------------------------------------------
  // The two defects of `callback_set` as written.

  /** No callback name begins like the decimal text of an integer. */
  lemma DecimalTextNamesNoKind(n: int)
    ensures TypeFromString(DecimalText(n)) == -1
  {
    NotOPrefixNamesNoKind(DecimalText(n));
  }

  lemma NotOPrefixNamesNoKind(s: string)
    requires |s| > 0 && s[0] != 'O'
    ensures TypeFromString(s) == -1
  {
    forall k: Kind ensures CStr(s) != k.Name() {
      NamePrefixed(k);
      NameStartsWithO(CStr(s), k.Name(), s);
    }
  }

  lemma NameStartsWithO(c: string, name: string, s: string)
    requires |name| >= 3 && name[..3] == "ON_"
    requires |c| <= |s| && c == s[..|c|] && |s| > 0 && s[0] != 'O'
    ensures c != name
  {
  }

  /** An integer kind, even a valid id, always raises as written and
      leaves the slots alone; the corrected call registers the handler. */
  lemma IntegerKindAlwaysRejected(ctx: Ctx, k: Kind)
    requires ctx.Valid()
    ensures var r := CallbackSetAsWritten(ctx, [Number(k.Id()), Function]);
      r.0 == Raised(ArgError(2, "not a proper callback type")) && r.1.slots == ctx.slots
    ensures Registered(ctx, CallbackSet(ctx, [Number(k.Id()), Function]).1, k)
  {
    DecimalTextNamesNoKind(k.Id());
  }

  /** Registering a second handler for a kind as written keeps the first
      handler's reference taken although no slot holds it any more; the
      corrected call keeps every taken reference in a slot. */
  lemma ReRegistrationLeaksReference(ctx: Ctx, k: Kind)
    requires ctx.Tidy() && k in ctx.slots
    ensures var after := CallbackSetAsWritten(ctx, [Str(k.Name()), Function]).1;
      ctx.slots[k] in after.taken && ctx.slots[k] !in after.slots.Values && !after.Tidy()
  {
    NameReadsAsKind(k);
    CallbackSetAsWrittenRegisters(ctx, [Str(k.Name()), Function]);
    RegisterWithoutReleaseLeaks(ctx, k);
  }

  lemma CallbackSetAsWrittenRegisters(ctx: Ctx, args: seq<Arg>)
    requires |args| == 2 && args[1] == Function
    ensures CallbackSetAsWritten(ctx, args) == Register(ctx, KindArgAsWritten(args[0]), Function, false)
  {
    assert ArgAt(WithSelf(args), 2) == args[0] && ArgAt(WithSelf(args), 3) == Function;
  }

  /** The registration step without the release loses the slot's previous
      reference: it stays taken while no slot holds it. With the release the
      client stays tidy. */
  lemma RegisterWithoutReleaseLeaks(ctx: Ctx, k: Kind)
    requires ctx.Tidy() && k in ctx.slots
    ensures var after := Register(ctx, Ok(k.Id()), Function, false).1;
      ctx.slots[k] in after.taken && ctx.slots[k] !in after.slots.Values && !after.Tidy()
    ensures Register(ctx, Ok(k.Id()), Function, true).1.Tidy()
  {
    var prev := ctx.slots[k];
    KindOfId(k);
    var after := Ctx(ctx.slots[k := ctx.next], ctx.taken + {ctx.next}, ctx.next + 1);
    assert Register(ctx, Ok(k.Id()), Function, false).1 == after;
    assert prev in ctx.slots.Values;
    forall k' | k' in after.slots ensures after.slots[k'] != prev {
      if k' != k {
        assert ctx.slots[k'] == after.slots[k'];
      }
    }
    TidyAfterRegister(ctx, k, Register(ctx, Ok(k.Id()), Function, true).1);
  }

  /** A kind's name reads as its id under both readings of the argument. */
  lemma NameReadsAsKind(k: Kind)
    ensures KindArgAsWritten(Str(k.Name())) == Ok(k.Id())
    ensures KindArg(Str(k.Name())) == Ok(k.Id())
  {
    var name := k.Name();
    NameHasNoNul(k);
    UpToNulIdentity(name, '\0');
    assert CStr(name) == name;
    var t := TypeFromString(name);
    assert t == k.Id();
  }
}
