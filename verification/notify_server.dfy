/** The server side of the org.freedesktop.Notifications D-Bus interface
    (the "D-BUS Protocol" section of the freedesktop Desktop Notifications
    Specification): every inbound method call is turned into a message for
    the application, pushed into a bounded channel; a message that does not
    fit is dropped and the call still succeeds. */
module NotifyServer {
  import opened Channel
  import Ordering

  /** NotificationClosed reason codes of the Desktop Notifications Specification. */
  const NotificationDeletedByExpired: nat := 1
  const NotificationDeletedByUser: nat := 2
  const NotificationClosedByDbus: nat := 3
  const NotificationClosedByUnknownReason: nat := 4

  /** A signed 32-bit integer, the wire type of the `expire_timeout` argument. */
  type I32 = x: int | -0x8000_0000 <= x < 0x8000_0000

  /** The payload of one `Notify` call, as forwarded to the application. */
  datatype NotifyUnit = NotifyUnit(
    appName: string,
    id: nat,
    icon: string,
    summery: string,
    body: string,
    actions: seq<string>,
    timeout: I32)

  /** What the server tells the application. */
  datatype NotifyMessage = UnitAdd(unit: NotifyUnit) | UnitRemove(removed: nat)

  datatype VersionInfo = VersionInfo(name: string, vendor: string, version: string, specVersion: string)

  /** Signals the server emits on its own bus connection. */
  datatype Signal =
    | NotificationClosed(id: nat, reason: nat)
    | ActionInvoked(id: nat, actionKey: string)

  /** The unit `Notify` forwards: every argument in place, the hints dropped,
      and the caller's `replaces_id` used as the unit id. */
  function UnitOfCall(appName: string, replacesId: nat, icon: string, summary: string,
                      body: string, actions: seq<string>, hints: map<string, string>,
                      timeout: I32): (u: NotifyUnit)
    ensures u.appName == appName && u.id == replacesId && u.icon == icon
    ensures u.summery == summary && u.body == body && u.actions == actions
    ensures u.timeout == timeout
  {
    NotifyUnit(appName, replacesId, icon, summary, body, actions, timeout)
  }

  class Server {
    const capabilities: seq<string>
    const version: VersionInfo
    /** The application's inbound channel. */
    var sender: Queue<NotifyMessage>
    /** Signals emitted so far, oldest first. */
    var emitted: seq<Signal>

    constructor (sender: Queue<NotifyMessage>, capabilities: seq<string>, version: VersionInfo)
      ensures this.sender == sender && this.capabilities == capabilities
      ensures this.version == version && emitted == []
    {
      this.sender := sender;
      this.capabilities := capabilities;
      this.version := version;
      emitted := [];
    }

    /** `Notify`: one attempt to send `UnitAdd`; the answer is 0 whether or
        not the message fitted, and no signal is emitted. */
    method Notify(appName: string, replacesId: nat, icon: string, summary: string,
                  body: string, actions: seq<string>, hints: map<string, string>,
                  timeout: I32) returns (id: nat)
      modifies this
      ensures id == 0
      ensures emitted == old(emitted)
      ensures sender == old(sender).TrySend(
                UnitAdd(UnitOfCall(appName, replacesId, icon, summary, body, actions, hints, timeout))).0
    {
      var u := UnitOfCall(appName, replacesId, icon, summary, body, actions, hints, timeout);
      var sent := sender.TrySend(UnitAdd(u));
      sender := sent.0;
      id := 0;
    }

    /** `CloseNotification`: emits NotificationClosed with reason 2 first,
        then tries to send `UnitRemove(id)`; it never fails. */
    method CloseNotification(id: nat)
      modifies this
      ensures emitted == old(emitted) + [NotificationClosed(id, NotificationDeletedByUser)]
      ensures sender == old(sender).TrySend(UnitRemove(id)).0
    {
      emitted := emitted + [NotificationClosed(id, NotificationDeletedByUser)];
      var sent := sender.TrySend(UnitRemove(id));
      sender := sent.0;
    }

    /** `GetCapabilities`: the list the server was built with, unchanged. */
    function GetCapabilities(): (r: seq<string>)
      ensures r == capabilities
    {
      capabilities
    }

    /** `GetServerInformation`: name, vendor, version and spec version, in that order. */
    function GetServerInformation(): (r: (string, string, string, string))
      ensures r.0 == version.name && r.1 == version.vendor
      ensures r.2 == version.version && r.3 == version.specVersion
    {
      (version.name, version.vendor, version.version, version.specVersion)
    }
  }

  /** A burst of `Notify` calls never overfills the channel: each call adds at
      most one message and a full channel drops the message. */
  lemma {:induction false} NotifyBurstStaysBounded(q: Queue<NotifyMessage>, units: seq<NotifyUnit>)
    requires q.Valid()
    ensures SendAll(q, units).Valid()
    ensures |SendAll(q, units).items| == Ordering.MinOf(q.capacity, |q.items| + |units|)
    ensures q.items <= SendAll(q, units).items
    decreases |units|
  {
    if units != [] {
      var q' := q.TrySend(UnitAdd(units[0])).0;
      NotifyBurstStaysBounded(q', units[1..]);
    }
  }

  /** The channel after one `Notify` per unit, in order. */
  function SendAll(q: Queue<NotifyMessage>, units: seq<NotifyUnit>): Queue<NotifyMessage>
    decreases |units|
  {
    if units == [] then q else SendAll(q.TrySend(UnitAdd(units[0])).0, units[1..])
  }
}
