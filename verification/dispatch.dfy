/** Events the native library reports and how each reaches the handler
    registered for its kind: which handler is called and with what
    arguments. */
module Dispatch {
  import opened Wire
  import opened Host
  import opened Native
  import opened Callbacks
  import opened Client
  import opened Decoder

  /** A received message as the library hands it over. */
  datatype Message = Message(mid: int32, topic: string, payload: string, qos: int32, retain: bool)

  /** One report of the native library, with the data it carries. */
  datatype Event =
    | Connected(rc: int32)
    | ConnectedV5(reason: int32, flags: int32, props: seq<Property>)
    | Disconnected(rc: int32)
    | DisconnectedV5(rc: int32, props: seq<Property>)
    | Published(mid: int32)
    | PublishedV5(mid: int32, reason: int32, props: seq<Property>)
    | Received(msg: Message)
    | ReceivedV5(msg: Message, props: seq<Property>)
    | Subscribed(mid: int32, granted: seq<int32>)
    | SubscribedV5(mid: int32, granted: seq<int32>, props: seq<Property>)
    | Unsubscribed(mid: int32)
    | UnsubscribedV5(mid: int32, props: seq<Property>)
    | Logged(level: int32, text: string)
  {
    /** The kind whose slot the event's handler comes from. */
    function Kind(): Kind {
      match this
      case Connected(_) => OnConnect
      case ConnectedV5(_, _, _) => OnConnectV5
      case Disconnected(_) => OnDisconnect
      case DisconnectedV5(_, _) => OnDisconnectV5
      case Published(_) => OnPublish
      case PublishedV5(_, _, _) => OnPublishV5
      case Received(_) => OnMessage
      case ReceivedV5(_, _) => OnMessageV5
      case Subscribed(_, _) => OnSubscribe
      case SubscribedV5(_, _, _) => OnSubscribeV5
      case Unsubscribed(_) => OnUnsubscribe
      case UnsubscribedV5(_, _) => OnUnsubscribeV5
      case Logged(_, _) => OnLog
    }

    /** The events of protocol version 5, which carry properties. */
    predicate IsV5() {
      ConnectedV5? || DisconnectedV5? || PublishedV5? || ReceivedV5? || SubscribedV5? || UnsubscribedV5?
    }

    /** The argument count each handler call names. */
    function CallArity(): nat {
      match this
      case Connected(_) => 3
      case ConnectedV5(_, _, _) => 5
      case Disconnected(_) => 3
      case DisconnectedV5(_, _) => 4
      case Published(_) => 1
      case PublishedV5(_, _, _) => 4
      case Received(_) => 5
      case ReceivedV5(_, _) => 6
      case Subscribed(_, granted) => |granted| + 1
      case SubscribedV5(_, granted, _) => |granted| + 2
      case Unsubscribed(_) => 1
      case UnsubscribedV5(_, _) => 2
      case Logged(_, _) => 2
    }
  }

  /** The text a disconnect handler receives. */
  function DisconnectText(rc: int32): string {
    if rc != 0 then "unexpected disconnect" else "client-initiated disconnect"
  }

  /** Every granted QoS as an integer argument, in the library's order. */
  function GrantedArgs(granted: seq<int32>): (r: seq<Pushed>)
    ensures |r| == |granted|
    ensures forall i :: 0 <= i < |r| ==> r[i] == Int(granted[i])
  {
    seq(|granted|, i requires 0 <= i < |granted| => Int(granted[i]))
  }

  /** The handler's arguments for an event, in the order they are pushed.
      A string the library hands over as a C string is cut at its first
      NUL; a message payload is passed with its length and kept whole. */
  function Args(lib: Lib, ev: Event): (r: seq<Pushed>)
    ensures |r| == ev.CallArity()
  {
    match ev
    case Connected(rc) =>
      [Bool(rc == 0), Int(rc), Text(CStr(lib.connackString(rc)))]
    case ConnectedV5(reason, flags, props) =>
      [Bool(reason == MQTT_RC_SUCCESS), Int(reason), Text(CStr(lib.reasonString(reason))), Int(flags),
       Props(Decode(lib, props))]
    case Disconnected(rc) =>
      [Bool(rc == 0), Int(rc), Text(DisconnectText(rc))]
    case DisconnectedV5(rc, props) =>
      [Bool(rc == 0), Int(rc), Text(DisconnectText(rc)), Props(Decode(lib, props))]
    case Published(mid) =>
      [Int(mid)]
    case PublishedV5(mid, reason, props) =>
      [Int(mid), Int(reason), Text(CStr(lib.reasonString(reason))), Props(Decode(lib, props))]
    case Received(m) =>
      [Int(m.mid), Text(CStr(m.topic)), Text(m.payload), Int(m.qos), Bool(m.retain)]
    case ReceivedV5(m, props) =>
      [Int(m.mid), Text(CStr(m.topic)), Text(m.payload), Int(m.qos), Bool(m.retain), Props(Decode(lib, props))]
    case Subscribed(mid, granted) =>
      [Int(mid)] + GrantedArgs(granted)
    case SubscribedV5(mid, granted, props) =>
      [Int(mid), Props(Decode(lib, props))] + GrantedArgs(granted)
    case Unsubscribed(mid) =>
      [Int(mid)]
    case UnsubscribedV5(mid, props) =>
      [Int(mid), Props(Decode(lib, props))]
    case Logged(level, text) =>
      [Int(level), Text(CStr(text))]
  }

  /** A handler call: the registered reference and its arguments. */
  datatype Invocation = Invocation(handler: Ref, args: seq<Pushed>)

  /** What the library's report leads to: the handler in the event kind's
      slot called with the event's arguments, or nothing when no handler of
      that kind is registered (the library then has no callback to call). */
  function Deliver(lib: Lib, slots: map<Kind, Ref>, ev: Event): (r: Option<Invocation>)
    ensures r.Some? <==> ev.Kind() in slots
    ensures r.Some? ==> r.value.handler == slots[ev.Kind()] && |r.value.args| == ev.CallArity()
  {
    if ev.Kind() in slots then Some(Invocation(slots[ev.Kind()], Args(lib, ev))) else None
  }

  // ---------------------------------------------------------------------
  // Properties of the handler arguments.

  /** The events that report success as a flag followed by the code. */
  predicate HasSuccessFlag(ev: Event) {
    ev.Connected? || ev.ConnectedV5? || ev.Disconnected? || ev.DisconnectedV5?
  }

  /** The flag is true exactly when the code after it is zero, and a
      disconnect's text says whether the client asked for it. */
  lemma SuccessFlagMatchesCode(lib: Lib, ev: Event)
    requires HasSuccessFlag(ev)
    ensures var a := Args(lib, ev);
      a[1].Int? && (a[0] == Bool(true) <==> a[1] == Int(0)) && (a[0] == Bool(false) <==> a[1] != Int(0))
    ensures ev.Disconnected? || ev.DisconnectedV5? ==>
      (Args(lib, ev)[2] == Text("client-initiated disconnect") <==> Args(lib, ev)[0] == Bool(true))
  {
  }

  /** The position of the property table among a handler's arguments, for
      the events of protocol version 5. */
  function PropsIndex(ev: Event): (i: nat)
    requires ev.IsV5()
  {
    match ev
    case ConnectedV5(_, _, _) => 4
    case DisconnectedV5(_, _) => 3
    case PublishedV5(_, _, _) => 3
    case ReceivedV5(_, _) => 5
    case SubscribedV5(_, _, _) => 1
    case UnsubscribedV5(_, _) => 1
  }

  /** A version 5 handler receives exactly one property table, the decoded
      properties of the event, at its kind's position; other handlers
      receive none. */
  lemma PropsArgument(lib: Lib, ev: Event)
    ensures ev.IsV5() ==>
      PropsIndex(ev) < |Args(lib, ev)| && Args(lib, ev)[PropsIndex(ev)] == Props(Decode(lib, ev.props))
    ensures forall i :: 0 <= i < |Args(lib, ev)| && Args(lib, ev)[i].Props? ==> ev.IsV5() && i == PropsIndex(ev)
  {
  }

  /** The granted QoS values follow the message id, and for version 5 the
      property table, in the order the library reports them. */
  lemma GrantedInOrder(lib: Lib, ev: Event)
    requires ev.Subscribed? || ev.SubscribedV5?
    ensures var skip := if ev.SubscribedV5? then 2 else 1;
      Args(lib, ev)[skip..] == GrantedArgs(ev.granted) && Args(lib, ev)[0] == Int(ev.mid)
  {
  }

  /** A message's topic reaches the handler as a C string, its payload
      whole, NUL bytes included. */
  lemma MessageTextAndPayload(lib: Lib, ev: Event)
    requires ev.Received? || ev.ReceivedV5?
    ensures Args(lib, ev)[1] == Text(CStr(ev.msg.topic)) && Args(lib, ev)[2] == Text(ev.msg.payload)
    ensures '\0' !in ev.msg.topic ==> Args(lib, ev)[1] == Text(ev.msg.topic)
  {
    if '\0' !in ev.msg.topic {
      UpToNulIdentity(ev.msg.topic, '\0');
    }
  }

  // ---------------------------------------------------------------------
  // Dispatch and the client's life cycle.

  /** A fresh client, like one just reinitialised, calls no handler. */
  lemma NoHandlerAfterInit(lib: Lib, ev: Event)
    ensures Deliver(lib, NoHandlers, ev) == None
  {
  }

  /** After a handler is registered for a kind, events of that kind call
      the new handler, and events of every other kind call what they
      called before. */
  lemma DeliverAfterRegister(lib: Lib, before: Ctx, after: Ctx, k: Kind, ev: Event)
    requires Registered(before, after, k)
    ensures ev.Kind() == k ==> Deliver(lib, after.slots, ev) == Some(Invocation(after.slots[k], Args(lib, ev)))
    ensures ev.Kind() == k ==> after.slots[k] !in before.taken
    ensures ev.Kind() != k ==> Deliver(lib, after.slots, ev) == Deliver(lib, before.slots, ev)
  {
  }

  /** Registering a handler by name or by id through `callback_set` routes
      that kind's events to it. */
  lemma CallbackSetRoutesEvents(lib: Lib, ctx: Ctx, args: seq<Arg>, k: Kind, ev: Event)
    requires ctx.Valid()
    requires args == [Str(k.Name()), Function] || args == [Number(k.Id()), Function]
    requires ev.Kind() == k
    ensures var after := CallbackSet(ctx, args).1;
      Deliver(lib, after.slots, ev) == Some(Invocation(after.slots[k], Args(lib, ev)))
      && after.slots[k] !in ctx.taken
  {
    DeliverAfterRegister(lib, ctx, CallbackSet(ctx, args).1, k, ev);
  }
}
