/** The per-client callback slots: one optional handler reference per event
    kind, and the table that turns an event name into its id. */
module Callbacks {
  import opened Wire

  /** The event kinds, in the order of their ids. */
  datatype Kind =
    | OnConnect | OnConnectV5 | OnDisconnect | OnDisconnectV5 | OnPublish | OnPublishV5
    | OnMessage | OnMessageV5 | OnSubscribe | OnSubscribeV5 | OnUnsubscribe | OnUnsubscribeV5
    | OnLog
  {
    function Id(): (n: int)
      ensures 0 <= n < 13
    {
      match this
      case OnConnect => 0
      case OnConnectV5 => 1
      case OnDisconnect => 2
      case OnDisconnectV5 => 3
      case OnPublish => 4
      case OnPublishV5 => 5
      case OnMessage => 6
      case OnMessageV5 => 7
      case OnSubscribe => 8
      case OnSubscribeV5 => 9
      case OnUnsubscribe => 10
      case OnUnsubscribeV5 => 11
      case OnLog => 12
    }

    /** The name the module exports for the kind. */
    function Name(): string {
      match this
      case OnConnect => "ON_CONNECT"
      case OnConnectV5 => "ON_CONNECT_V5"
      case OnDisconnect => "ON_DISCONNECT"
      case OnDisconnectV5 => "ON_DISCONNECT_V5"
      case OnPublish => "ON_PUBLISH"
      case OnPublishV5 => "ON_PUBLISH_V5"
      case OnMessage => "ON_MESSAGE"
      case OnMessageV5 => "ON_MESSAGE_V5"
      case OnSubscribe => "ON_SUBSCRIBE"
      case OnSubscribeV5 => "ON_SUBSCRIBE_V5"
      case OnUnsubscribe => "ON_UNSUBSCRIBE"
      case OnUnsubscribeV5 => "ON_UNSUBSCRIBE_V5"
      case OnLog => "ON_LOG"
    }
  }

  /** The kind with a given id, the `switch` of the registration call. */
  function KindOf(n: int): (k: Option<Kind>)
    ensures k.Some? <==> 0 <= n < 13
    ensures k.Some? ==> k.value.Id() == n
  {
    if n == 0 then Some(OnConnect)
    else if n == 1 then Some(OnConnectV5)
    else if n == 2 then Some(OnDisconnect)
    else if n == 3 then Some(OnDisconnectV5)
    else if n == 4 then Some(OnPublish)
    else if n == 5 then Some(OnPublishV5)
    else if n == 6 then Some(OnMessage)
    else if n == 7 then Some(OnMessageV5)
    else if n == 8 then Some(OnSubscribe)
    else if n == 9 then Some(OnSubscribeV5)
    else if n == 10 then Some(OnUnsubscribe)
    else if n == 11 then Some(OnUnsubscribeV5)
    else if n == 12 then Some(OnLog)
    else None
  }

  lemma KindOfId(k: Kind)
    ensures KindOf(k.Id()) == Some(k)
  {
  }

  /** The callback part of the module's constant table, in its order. The
      rest of the table names log levels, options and protocol constants,
      none of which begins with "ON_". */
  const CallbackDefines: seq<(string, int)> := [
    ("ON_CONNECT", 0), ("ON_CONNECT_V5", 1), ("ON_DISCONNECT", 2), ("ON_DISCONNECT_V5", 3),
    ("ON_PUBLISH", 4), ("ON_PUBLISH_V5", 5), ("ON_MESSAGE", 6), ("ON_MESSAGE_V5", 7),
    ("ON_SUBSCRIBE", 8), ("ON_SUBSCRIBE_V5", 9), ("ON_UNSUBSCRIBE", 10), ("ON_UNSUBSCRIBE_V5", 11),
    ("ON_LOG", 12)]

  /** The first entry of `defs` named `s`, or -1. */
  function Search(defs: seq<(string, int)>, s: string): (r: int)
    requires forall i :: 0 <= i < |defs| ==> defs[i].1 >= 0
    ensures r == -1 || exists i :: 0 <= i < |defs| && defs[i] == (s, r)
    ensures r == -1 <==> forall i :: 0 <= i < |defs| ==> defs[i].0 != s
  {
    if |defs| == 0 then -1
    else if defs[0].0 == s then defs[0].1
    else
      var r := Search(defs[1..], s);
      assert forall i :: 1 <= i < |defs| ==> defs[1..][i - 1] == defs[i];
      r
  }

  lemma DefinesTable()
    ensures |CallbackDefines| == 13
    ensures forall i :: 0 <= i < 13 ==> CallbackDefines[i] == (KindOf(i).value.Name(), i)
  {
  }

  lemma NamesDistinct(k1: Kind, k2: Kind)
    ensures k1.Name() == k2.Name() ==> k1 == k2
  {
  }

  lemma NamePrefixed(k: Kind)
    ensures |k.Name()| >= 3 && k.Name()[..3] == "ON_"
  {
  }

  /** Searching the table finds exactly the callback names, each with its
      kind's id. */
  lemma SearchCallbackDefines(c: string)
    ensures forall k: Kind :: c == k.Name() ==> Search(CallbackDefines, c) == k.Id()
    ensures Search(CallbackDefines, c) != -1 ==> exists k: Kind :: c == k.Name()
  {
    DefinesTable();
    SearchKindTable(CallbackDefines, c);
  }

  lemma SearchKindTable(defs: seq<(string, int)>, c: string)
    requires |defs| == 13
    requires forall i :: 0 <= i < 13 ==> defs[i] == (KindOf(i).value.Name(), i)
    ensures forall k: Kind :: c == k.Name() ==> Search(defs, c) == k.Id()
    ensures Search(defs, c) != -1 ==> exists k: Kind :: c == k.Name()
  {
    var r := Search(defs, c);
    if r != -1 {
      var i :| 0 <= i < |defs| && defs[i] == (c, r);
      assert c == KindOf(i).value.Name();
    }
    forall k: Kind | c == k.Name() ensures r == k.Id() {
      SearchKind(defs, k);
    }
  }

  /** A kind's name is found at its own id. */
  lemma SearchKind(defs: seq<(string, int)>, k: Kind)
    requires |defs| == 13
    requires forall i :: 0 <= i < 13 ==> defs[i] == (KindOf(i).value.Name(), i)
    ensures Search(defs, k.Name()) == k.Id()
  {
    forall j | 0 <= j < k.Id() ensures defs[j].0 != k.Name() {
      NamesDistinct(k, KindOf(j).value);
    }
    SearchFirst(defs, k.Name(), k.Id());
  }

  /** The search stops at the first entry with the name. */
  lemma {:induction false} SearchFirst(defs: seq<(string, int)>, s: string, i: nat)
    requires forall j :: 0 <= j < |defs| ==> defs[j].1 >= 0
    requires i < |defs| && defs[i].0 == s
    requires forall j :: 0 <= j < i ==> defs[j].0 != s
    ensures Search(defs, s) == defs[i].1
    decreases i
  {
    if i > 0 {
      assert forall j :: 0 <= j < |defs| - 1 ==> defs[1..][j] == defs[j + 1];
      SearchFirst(defs[1..], s, i - 1);
    }
  }

  /** `callback_type_from_string` on the C string of `s`: -1 unless the
      string begins with "ON_" and names a callback kind. */
  function TypeFromString(s: string): (r: int)
    ensures r == -1 || 0 <= r < 13
    ensures r != -1 <==> exists k: Kind :: CStr(s) == k.Name()
    ensures forall k: Kind :: CStr(s) == k.Name() ==> r == k.Id()
  {
    var c := CStr(s);
    SearchCallbackDefines(c);
    if !(|c| >= 3 && c[..3] == "ON_") then
      assert forall k: Kind :: c != k.Name() by {
        forall k: Kind ensures c != k.Name() { NamePrefixed(k); }
      }
      -1
    else
      Search(CallbackDefines, c)
  }
}
