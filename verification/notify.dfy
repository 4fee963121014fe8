/** The per-notification record the bar keeps, and the commands the bar
    relays back to the notification server. */
module Notify {
  import opened NotifyServer
  import Config

  /** `NotifyUnitWidgetInfo`: `toDelete` is the tombstone flag, `counter` the
      stack position (0 = newest), `upper` the window's top margin, and
      `inlineReply` the text typed so far into the inline-reply box. */
  datatype Info = Info(toDelete: bool, upper: int, counter: nat, inlineReply: string, unit: NotifyUnit)

  /** The record a new notification starts with: live, on top, at the first slot. */
  function Fresh(unit: NotifyUnit): (r: Info)
    ensures !r.toDelete && r.counter == 0 && r.inlineReply == "" && r.unit == unit
    ensures r.upper == Config.UpperFor(r.counter)
  {
    Info(false, Config.BeginningUpMargin, 0, "", unit)
  }

  /** Requests for a signal, relayed to the server's own bus connection. */
  datatype NotifyCommand =
    | ActionInvoked(id: nat, actionKey: string)
    | InlineReply(id: nat, text: string)
    | NotificationClosed(id: nat, reason: nat)
}
