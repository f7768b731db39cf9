# lua-mosquitto translation core in Dafny

A model of the translation logic of the Lua binding `lua-mosquitto.c` for the
libmosquitto MQTT client. The binding's own logic sits between the scripting
host and the native library:

- the **property encoder** turns a host table of `name = value` entries into
  an MQTT 5.0 property list for one command;
- the **property decoder** turns a property list back into a host table;
- the **status translator** `mosq__pstatus` maps a native result code to one
  of four host outcomes;
- the **callback slot registry** of a client object holds one handler
  reference per event kind, and is set by `callback_set`, cleared by
  `reinitialise` and `destroy`, and started empty by `new`;
- the **callback trampolines** build each handler's argument list from the
  event the library reports;
- the **version 5 calls** encode their optional property table, call the
  library and free the list.

libmosquitto itself is kept abstract. `Native.Lib` is a record of functions:
property-name lookup, identifier-to-name, the result code of a
`mosquitto_property_add_*` call, the per-command legality check, and the
message texts. The host's registry references are natural numbers that are
never reused. A host call's result is `Returned`: either values or a raised
error message.

Modules, one per file:

- `Wire` (wire.dfy): C strings, the property identifiers and wire types of
  section 2.2.2.2 and section 1.5 of the OASIS MQTT Version 5.0 standard,
  and the result codes.
- `Native` (native.dfy): the library interface.
- `Host` (host.dfy): host values and argument helpers.
- `Status` (status.dfy): the status translator.
- `Encoder` (encode.dfy): the corrected encoder.
- `EncoderAsWritten` (encode_as_written.dfy): the encoder exactly as
  written.
- `Decoder` (decode.dfy): the decoder.
- `Callbacks` (callbacks.dfy): the event kinds and the name table.
- `Client` (client.dfy): the client object and its slots.
- `Dispatch` (dispatch.dfy): handler arguments and routing.
- `Calls` (calls.dfy): the version 5 calls.
- `RoundTrip` (roundtrip.dfy): encoding followed by decoding.

Where the code and its documentation comments disagree, the model follows
the code. Two such places are errors in the documentation, not defects of
the code, so they are not rows under "## Findings":

- `unsubscribe` and `unsubscribe_v5` are documented as returning `true`
  (lua-mosquitto.c:939, lua-mosquitto.c:967), but on success they push the
  message id (lua-mosquitto.c:956, lua-mosquitto.c:991). `Calls.MidOnlyOnSuccess`
  states the behaviour of the code.
- `new` is documented to raise for a nil id together with clean session
  `true` (lua-mosquitto.c:255). The code raises for a nil id with clean
  session `false` (lua-mosquitto.c:261-265), which is what `Client.New`
  models.

The rows under "## Findings" are the defects of the code for which the
model proves both halves: the code as written, with the input that shows
the defect, and a corrected definition that the rest of the model uses.
Two further behaviours look unintended but are modelled as written only,
without a corrected form:

- A Binary value is handed over with `lua_tolstring` and measured with
  `strlen` (lua-mosquitto.c:1804-1813), so it is cut at its first NUL. The
  decoder keeps NUL bytes with `lua_pushlstring` (lua-mosquitto.c:1708), so
  correlation data holding a zero byte does not survive a round trip.
  `RoundTrip.EntryRoundTrip` states the cut.
- `callback_set` stores whatever value is on top of the stack with
  `luaL_ref` (lua-mosquitto.c:1440), which is not argument 3 when extra
  arguments are passed. "## Left out" records this under `Client.Register`.

## Model

| member | source | states |
|---|---|---|
| Wire.UpToNul | lua-mosquitto.c:1804-1813 | A string handed over as a bare C string is the prefix of the counted string before its first NUL. It has no NUL and is the whole string when none occurs. |
| Wire.TypeOf | lua-mosquitto.c:1651-1730 | The decoder's switch groups the identifiers by wire type. Only the user property has the string-pair type. |
| Host.OptString | lua-mosquitto.c:260 | An optional string argument is absent exactly for nothing or nil. A string gives its C-string text. Anything other than nothing, nil, a string or a number raises. |
| Host.BoolOrTrue | lua-mosquitto.c:261 | The clean-session flag is false only for an explicit boolean false. |
| Host.DecimalText | lua-mosquitto.c:1429-1430 | The text the host gives an integer starts with a digit or a minus sign, so it never starts like a callback name. |
| Host.ArgError | lua-mosquitto.c:264 | An argument error message starts with "bad argument #". |
| Status.PStatus | lua-mosquitto.c:96-128 | SUCCESS gives `true` and nothing else. INVAL, NOMEM, PROTOCOL and NOT_SUPPORTED raise the library's message. NO_CONN, CONN_LOST and PAYLOAD_SIZE give nil, the code and its message. ERRNO gives nil, errno and the system message. Every other code gives no values. Each direction is stated. |
| Status.PStatusShapes | lua-mosquitto.c:96-128 | Every code gives exactly one of four shapes: one `true`, three values starting with nil, a raise, or nothing. |
| Status.ReturnMid | lua-mosquitto.c:808-813 | A call that yields a message id returns an integer first exactly when the native call succeeded, and then the id alone. It never returns `true`. On failure it returns the translated status. |
| Status.ReturnMidDistinguishesFailure | lua-mosquitto.c:854-859 | For success and recoverable codes, the first value is nil exactly when the call failed, so an id is never confused with a failure. |
| Encoder.Convert | lua-mosquitto.c:1768-1835 | A number fails with INVAL exactly when it lies outside the range of its Byte, Int16, Int32 or VarInt type; otherwise it gives one property of that type holding that number under the looked-up identifier. A number for a non-integer type, or a string for a type other than Binary or UTF-8 string, returns INVAL at once. A UTF-8 string gives its C string. A Binary string fails exactly when its C string is longer than 65535, and otherwise gives that C string. A value of any other shape fails. A nested table gives one string pair per entry, in order. |
| Encoder.WideTypesCheckSignOnly | lua-mosquitto.c:1786-1799 | For Int32 and VarInt a C `int` is rejected exactly when it is negative: the upper bound can never be exceeded. |
| Encoder.AddAll | lua-mosquitto.c:1824-1831 | The nested pairs are appended in order. The loop stops exactly when the library refuses one of them, with the code it gave for the first refused pair. |
| Encoder.Step | lua-mosquitto.c:1759-1843 | One entry succeeds exactly when its reference contribution exists, and then appends that contribution. Otherwise it fails with the entry's reference failure code: INVAL for an unknown name or a wrong shape or range, the library's code for a refused add, the first refused pair's code for a nested table. |
| Encoder.Scan | lua-mosquitto.c:1755-1844 | The loop completes exactly when every entry is accepted, and then yields their contributions concatenated in table order. Otherwise it stops with the failure code of the first entry not accepted. |
| Encoder.Encode | lua-mosquitto.c:1750-1862 | Encoding succeeds exactly when every entry is accepted and the command admits the resulting list. It then yields that list. A failure is never SUCCESS and frees the whole list. Its code is the first refused entry's failure code, or INVAL when every entry was accepted and the command refused the list. |
| Encoder.EncodeEmpty | lua-mosquitto.c:1848-1861 | An empty table encodes to the empty list when the command admits it. |
| Encoder.EncodeIllegalIsInval | lua-mosquitto.c:1854-1859 | A list the command does not admit fails with INVAL, whatever code `mosquitto_property_check_all` gave. |
| Encoder.FirstFailureAt | lua-mosquitto.c:1840-1843 | When the entries before `k` are accepted and entry `k` is not, the first failure is entry `k`'s, whatever follows it. |
| Encoder.EncodeStopsAtFirstFailure | lua-mosquitto.c:1759-1852 | After accepted entries, the first entry not accepted fails the whole encoding with nothing left allocated. An unknown name, a value of the wrong shape or range give INVAL. A refused add gives the library's code for it. A nested table gives its first refused pair's code. |
| Encoder.EncodeUnknownName | lua-mosquitto.c:1760-1765 | An unknown name fails the whole encoding with INVAL and frees the list. |
| EncoderAsWritten.AddEachKeepLast | lua-mosquitto.c:1824-1831 | As written, the code after the nested loop is the result of the last pair only. The list gains exactly the pairs the library accepted, in order; a refused pair is simply missing. |
| EncoderAsWritten.EncodeAsWritten | lua-mosquitto.c:1750-1862 | As written, a success satisfies the command check, and only the early INVAL returns leave list entries allocated. |
| EncoderAsWritten.ScanAgrees | lua-mosquitto.c:1755-1844 | On a non-empty table without shape mismatches or refused pairs, the loop as written ends where the corrected scan ends, with the same list or code. |
| EncoderAsWritten.EncodeAgrees | lua-mosquitto.c:1750-1862 | Where none of the three encoder defects applies, the encoder as written and the corrected one give the same outcome. |
| EncoderAsWritten.EmptyTableReadsUninitialisedCode | lua-mosquitto.c:1752 | An empty table fails with whatever stray code `rc` held. The corrected encoder gives the empty list. |
| EncoderAsWritten.ShapeMismatchLeaksList | lua-mosquitto.c:1800-1801 | A shape mismatch after an accepted entry returns INVAL with that entry's property still allocated. The corrected encoder frees it. |
| EncoderAsWritten.RefusedPairIsMasked | lua-mosquitto.c:1824-1831 | A refused first pair followed by an accepted one makes the encoding succeed without the first pair. The corrected encoder fails with the refusal's code. |
| Decoder.Read | lua-mosquitto.c:1651-1712 | A recognised non-user identifier is read by its wire type. Byte, Int16, Int32 and VarInt give their integer. A UTF-8 string gives its C string, and binary data is given whole. The user property, string pairs and unknown identifiers are not set directly. |
| Decoder.DecodeEmpty | lua-mosquitto.c:1646-1743 | An empty list gives an empty table. |
| Decoder.DecodeFromOtherKey | lua-mosquitto.c:1731-1734 | A key other than the user property's is present exactly when some property sets it, and then holds the value of the last one that does. |
| Decoder.DecodeLastWins | lua-mosquitto.c:1731-1734 | The last occurrence of a recognised property's name decides its value. |
| Decoder.DecodeKeys | lua-mosquitto.c:1648-1734 | Every non-user key comes from a recognised property, so unknown identifiers contribute nothing. |
| Decoder.DecodedValueShapes | lua-mosquitto.c:1651-1712 | In a list the library produced, a key other than the user property's holds a number exactly when the last property set under it has an integer wire type, and a string exactly when it has the UTF-8 string or binary type. It never holds a nested table. |
| Decoder.DecodeFromUserKey | lua-mosquitto.c:1714-1741 | The user property's key is present exactly when a user property occurred. It holds one nested map of every pair, the last value winning per name. |
| Decoder.DecodeUserProperties | lua-mosquitto.c:1714-1741 | After a full decode, the user key is present exactly when a user property occurred and then holds the nested map of all pairs. |
| Callbacks.KindOf | lua-mosquitto.c:1442-1512 | Exactly the ids 0..12 name a kind, and the kind has that id. |
| Callbacks.KindOfId | lua-mosquitto.c:1442-1512 | Every kind's id selects that kind again. |
| Callbacks.Search | lua-mosquitto.c:1870-1875 | The table search gives -1 exactly when no entry has the name. Otherwise it gives the value of an entry with that name. |
| Callbacks.DefinesTable | lua-mosquitto.c:1588-1601 | The callback part of the constant table lists each kind's name with its id, in id order. |
| Callbacks.NamesDistinct | lua-mosquitto.c:1589-1601 | No two kinds share a name. |
| Callbacks.NamePrefixed | lua-mosquitto.c:1589-1601 | Every kind's name begins with "ON_". |
| Callbacks.SearchCallbackDefines | lua-mosquitto.c:1870-1875 | Searching the table gives a kind's id for its name, and finds nothing but kind names. |
| Callbacks.SearchFirst | lua-mosquitto.c:1870-1875 | The search returns the value of the first entry with the name. |
| Callbacks.TypeFromString | lua-mosquitto.c:1864-1876 | The result is -1 or a kind id. It is a kind id exactly when the C string is a kind's name, and then it is that kind's id. |
| Client.OnClear | lua-mosquitto.c:232-247 | Every reference held in a slot is released and nothing else is. For a tidy client nothing stays taken. |
| Client.New | lua-mosquitto.c:258-282 | A client is made exactly when the id argument is nil, a string or a number, the id is present or the clean flag is not an explicit `false` (an absent flag counts as true), and the library makes a handle. A bad id raises an argument-1 error. A nil id with a false flag raises an argument-2 error. A library failure raises the system message. A new client has every slot empty and holds no reference. |
| Client.NewAnonymousNeedsCleanSession | lua-mosquitto.c:261-265 | Without an id only a clean session can be asked for. A string id with a persistent session reaches the library. |
| Client.Destroy | lua-mosquitto.c:307-320 | Destroying returns `true` and releases every reference a tidy client holds. |
| Client.ReinitialiseAsWritten | lua-mosquitto.c:335-351 | As written, reinitialising either leaves the client unchanged or empties every slot. |
| Client.Reinitialise | lua-mosquitto.c:335-351 | An argument error raises with the client unchanged. Otherwise the result is the translated native code, whatever that code is, every slot is emptied, and a tidy client holds no reference. |
| Client.ReinitialiseAsWrittenAlwaysRaises | lua-mosquitto.c:338 | As written, every call raises "string expected" for argument 1 and changes nothing. The corrected call with no arguments reinitialises to a clean anonymous session. |
| Client.KindArg | lua-mosquitto.c:1429-1433 | Read as documented, a kind's name and a kind's id both give that id, and any value other than a string or a number raises. |
| Client.Register | lua-mosquitto.c:1435-1514 | Registration succeeds exactly when the kind reads, the handler is a function and the id names a kind. It then stores a fresh reference in that kind's slot only. Any raise leaves the slots and held references unchanged. |
| Client.CallbackSetAsWritten | lua-mosquitto.c:1424-1515 | As written, a raise leaves the slots and held references unchanged. |
| Client.CallbackSet | lua-mosquitto.c:1424-1515 | Registration succeeds exactly when the handler is a function and the kind is an id in 0..12 or a kind's name. Registering by name or by id changes that kind's slot to a fresh reference and no other slot. A tidy client stays tidy. |
| Client.TidyAfterRegister | lua-mosquitto.c:1440-1444 | Storing a fresh reference and releasing the slot's old one keeps every taken reference in exactly one slot. |
| Client.DecimalTextNamesNoKind | lua-mosquitto.c:1429-1430 | The decimal text of any integer names no kind. |
| Client.IntegerKindAlwaysRejected | lua-mosquitto.c:1429-1433 | As written, registering by integer id raises for every kind. The corrected call registers it. |
| Client.ReRegistrationLeaksReference | lua-mosquitto.c:1440-1444 | As written, a second registration for a kind leaves the first handler's reference taken but held by no slot. |
| Client.RegisterWithoutReleaseLeaks | lua-mosquitto.c:1442-1446 | Storing a new reference in an occupied slot without releasing the old one leaves the old reference taken but held by no slot. Releasing it first keeps the client tidy. |
| Client.NameReadsAsKind | lua-mosquitto.c:1429-1430 | A kind's name reads as its id under both readings of the argument. |
| Dispatch.Args | lua-mosquitto.c:1177-1420 | Each handler gets the argument count its call names: 3, 5, 3, 4, 1, 4, 5, 6, granted+1, granted+2, 1, 2 and 2. |
| Dispatch.Deliver | lua-mosquitto.c:1186-1192 | An event calls a handler exactly when its kind's slot is set. It calls that slot's reference with the event's arguments. |
| Dispatch.SuccessFlagMatchesCode | lua-mosquitto.c:1218-1264 | The success flag is true exactly when the following code is zero. A disconnect's text is "client-initiated disconnect" exactly when the flag is true. |
| Dispatch.PropsArgument | lua-mosquitto.c:1195-1404 | A version 5 handler gets exactly one property table, the decoded event properties, at its kind's position. Other handlers get none. |
| Dispatch.GrantedInOrder | lua-mosquitto.c:1337-1378 | Spells out, from `Dispatch.Args`'s lists, that the granted QoS values follow the message id, and for version 5 the property table. It is a reading aid, not an independent check of `Args`. |
| Dispatch.MessageTextAndPayload | lua-mosquitto.c:1297-1335 | Spells out, from `Dispatch.Args`'s lists, that a message topic reaches the handler as a C string and its payload arrives whole, NUL bytes included. It is a reading aid, not an independent check of `Args`. |
| Dispatch.NoHandlerAfterInit | lua-mosquitto.c:215-230 | A new or reinitialised client calls no handler. |
| Dispatch.DeliverAfterRegister | lua-mosquitto.c:1440-1506 | After registration, events of that kind call the new handler. Events of every other kind call what they called before. |
| Dispatch.CallbackSetRoutesEvents | lua-mosquitto.c:1424-1515 | Registering by name or by id routes that kind's events to the fresh reference. |
| Calls.CallV5 | lua-mosquitto.c:832-860 | Without a table the empty list is sent. With one, the library is called exactly when the table encodes, and gets the encoded list, which the command admits. A refused table returns the translated failure code without a call. Nothing is left allocated. |
| Calls.CallV5AsWritten | lua-mosquitto.c:410-419 | Without a table, the call as written behaves like the corrected one. |
| Calls.CallLeaksOnShapeMismatch | lua-mosquitto.c:844-848 | As written, a shape mismatch after an accepted entry raises with that entry's property leaked. The corrected call leaks nothing. |
| Calls.RefusedTableNeverSucceeds | lua-mosquitto.c:844-848 | A refused table never reaches the library and never reports success. |
| Calls.FirstRefusedEntryDecides | lua-mosquitto.c:844-848 | The first entry the library does not accept decides the call: its failure code goes through the status translator, nothing is sent and nothing leaks. |
| Calls.UnknownNameRaises | lua-mosquitto.c:1760-1765 | An unknown property name raises the library's invalid-argument message without a native call. |
| Calls.NoTableSendsNothing | lua-mosquitto.c:410-419 | Without a table the call sends the empty list and returns the native result. |
| Calls.MidOnlyOnSuccess | lua-mosquitto.c:854-859 | A call that returns a single integer sent its list, got SUCCESS, and returns the library's message id. |
| RoundTrip.EntryRoundTrip | lua-mosquitto.c:1750-1862 | A number or string under a known name, once encoded, decodes back to that name and value alone. A string comes back cut at its first NUL. |
| RoundTrip.DecodeUserList | lua-mosquitto.c:1714-1741 | A non-empty list of user properties decodes to the user key alone, holding the map of its pairs. |
| RoundTrip.UserTableRoundTrip | lua-mosquitto.c:1714-1741 | A non-empty user-property table, once encoded, decodes back to one key holding every pair, the last value winning per name. |

## Left out

- Host stack mechanics are left out: pushes, pops, absolute indices, `lua_table_on_stack`. The model works on the resulting values, and a call's table argument is given as its entries or as absent.
- Host table iteration order is unspecified. The encoder takes a table's entries in some fixed order, and every statement holds for any order.
- Outer-table keys are modelled as strings. The code reads each key with `lua_tolstring` (lua-mosquitto.c:1760): a number key becomes its text, and a boolean or table key becomes NULL. Both then fail the name lookup with INVAL, which is what the model gives for an unknown name. The NULL case is not modelled separately.
- Inner-table keys that are not strings make `luaL_checktype` raise in the middle of an encoding. The model's nested tables have string keys only. Inner values are their string text.
- Numbers reach the encoder as C `int` values. The conversion of a host double to `int` (floating point) is left out, and so are float kinds in `callback_set`.
- The decoder's out-of-memory returns, and the trampolines' ignoring of the decoder's code, are left out. The decoder is total.
- Property values whose stored type does not match their identifier cannot come from the library. `Decoder.DecodedValueShapes` assumes `WellTyped`.
- `luaL_ref` is left out: references are fresh naturals and never reused. `luaL_unref` marks a reference released. The registry shared by all clients is not modelled.
- `lua_call` itself is left out. A dispatch is the handler reference with its argument list.
- Installing the native callback in `callback_set` is left out. A kind is reachable exactly when its slot is set, and the library calls nothing for an empty slot.
- `Client.Register`: assumes the handler is the last argument. With extra arguments `luaL_ref` takes the topmost value instead.
- `Host.ArgError`: states only the message's prefix. The function name the host adds, the ", got <type>" suffix of a type error, and the method-call renumbering of `luaL_argerror` are left out.
- Raised messages from `luaL_error` are modelled as the library's text alone. The position prefix `luaL_error` adds through `luaL_where` ("chunk:line: " of the calling level) depends on the host's call stack and is left out.
- `Client.Destroy`: the metatable replacement that disables the client's methods, and `mosquitto_destroy` itself, are left out.
- libmosquitto internals are abstract functions of `Native.Lib`: property storage, the per-command legality rules, the name/identifier tables and all message texts. The VarInt upper bound of section 1.5.5 of the MQTT 5.0 standard is enforced inside the library, not by the binding.
- Thin pass-through wrappers are not modelled. These are connect/reconnect/disconnect, tls_*, login_set, option, threaded_set, socket, want_write, the non-v5 will_set/publish/subscribe/unsubscribe, and `parse_basic_parameter_for_publish`. Each is one native call and no logic of its own. Most return the status translator's result. `want_write` returns the library's boolean directly (lua-mosquitto.c:1169-1174). The non-v5 publish, subscribe and unsubscribe push the message id on success (lua-mosquitto.c:811, lua-mosquitto.c:886, lua-mosquitto.c:956).
- The version 5 calls' other arguments are left out: topic, payload, QoS, retain, host, port, keepalive, bind address, reason code and options. `native` stands for the library call with them applied.
- The network loop and its thread (`loop*`, `loop_start`, `loop_stop`) are library concurrency.
- Module setup is left out: `luaopen_mosquitto`, the registration of the constant table, `init`/`cleanup` and their global flag, `version`, and `topic_matches_sub`.
- `Callbacks.CallbackDefines` holds only the 13 callback entries of the constant table. None of the other entries begins with "ON_", so the prefix filter means they never match.

## Findings

| source | as written | input that shows it | evidently intended | confidence | as-written member | corrected member |
|---|---|---|---|---|---|---|
| lua-mosquitto.c:1752 | `rc` is declared without a value. For an empty table the loop never runs, and line 1849 tests the stray value. | `publish_v5(topic, payload, 0, false, {})` | An empty table gives an empty list and the call proceeds | not executed | EncoderAsWritten.EmptyTableReadsUninitialisedCode | Encoder.EncodeEmpty |
| lua-mosquitto.c:1800-1801 | A number for a non-integer type (and, at 1818-1819, a string for a non-string type) returns INVAL directly, skipping the free at 1849-1852. | `{["message-expiry-interval"] = 5, ["content-type"] = 7}`, iterated in that order | Every failure frees the partial list | not executed | EncoderAsWritten.ShapeMismatchLeaksList | Encoder.Encode |
| lua-mosquitto.c:1830 | Each `add_string_pair` overwrites `rc`, so a refused pair is masked by a later accepted one. | a user-property table whose first pair the library refuses and whose second it accepts | A refused pair fails the encoding | not executed | EncoderAsWritten.RefusedPairIsMasked | Encoder.Encode |
| lua-mosquitto.c:1429-1433 | `lua_isstring` is true for numbers, so an integer kind is looked up as text. Its decimal text never begins with "ON_", so it always raises "not a proper callback type". | `callback_set(0, f)` | An integer is taken as the kind id | not executed | Client.IntegerKindAlwaysRejected | Client.CallbackSet |
| lua-mosquitto.c:1444 | Re-registering a kind overwrites the slot's reference without `luaL_unref`, so the old handler stays referenced forever. | `callback_set("ON_CONNECT", f)` followed by `callback_set("ON_CONNECT", g)` | The previous reference is released | not executed | Client.ReRegistrationLeaksReference | Client.CallbackSet |
| lua-mosquitto.c:338 | The id is read from argument 1, which is the client object itself, so `luaL_optstring` always raises. | `client:reinitialise("id", true)` | Id at argument 2 and clean-session flag at argument 3, as the error at line 342 names | not executed | Client.ReinitialiseAsWrittenAlwaysRaises | Client.Reinitialise |
