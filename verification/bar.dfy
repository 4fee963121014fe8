/** The bar application's glue: the window-role tag, the conversion of
    server messages into application messages, and the choice of the
    media player whose metadata the bar shows. */
module Bar {
  import opened NotifyServer
  import Notify
  import opened Wrappers

  /** What a layer-shell window of the bar is showing. */
  datatype LaLaInfo =
    | Launcher
    | Notify(info: Notify.Info)
    | HiddenInfo
    | RightPanel
    | ErrorHappened(window: nat)
    | Calendar
    | TimePicker

  /** The application messages that concern notifications. */
  datatype Message =
    | NotifyMsg(payload: NotifyMessage)
    | RemoveNotify(id: nat)
    | InlineReply(id: nat, text: string)
    | InlineReplyMsgUpdate(window: nat, text: string)
    | ClearAllNotifications
    | QuiteMode(quite: bool)
    | CheckId(id: nat)
    | WindowClosed(window: nat)

  /** `From<NotifyMessage> for Message`: wraps the payload unchanged. */
  function FromNotifyMessage(m: NotifyMessage): (r: Message)
    ensures r.NotifyMsg? && r.payload == m
  {
    NotifyMsg(m)
  }

  /** An MPRIS player as the bar sees it. */
  datatype ServiceInfo = ServiceInfo(service: string, xesamTitle: string, playbackStatus: string)

  predicate Alive(s: ServiceInfo) {
    s.xesamTitle != ""
  }

  /** The players that have a title, in list order. */
  function AliveInfos(infos: seq<ServiceInfo>): (r: seq<ServiceInfo>)
    ensures forall s :: s in r <==> s in infos && Alive(s)
    ensures |r| <= |infos|
  {
    if infos == [] then []
    else if Alive(infos[0]) then [infos[0]] + AliveInfos(infos[1..])
    else AliveInfos(infos[1..])
  }

  /** The first playing player among `alive`, if any. */
  function FindPlaying(alive: seq<ServiceInfo>): (r: Option<ServiceInfo>)
    ensures r.Some? ==> r.value in alive && r.value.playbackStatus == "Playing"
    ensures r.None? <==> forall s :: s in alive ==> s.playbackStatus != "Playing"
  {
    if alive == [] then None
    else if alive[0].playbackStatus == "Playing" then Some(alive[0])
    else FindPlaying(alive[1..])
  }

  /** `get_metadata`: a playing player with a title if there is one,
      otherwise the first player with a title. */
  function GetMetadata(infos: seq<ServiceInfo>): (r: Option<ServiceInfo>)
    ensures r.None? <==> forall s :: s in infos ==> !Alive(s)
    ensures r.Some? ==> r.value in infos && Alive(r.value)
  {
    var alive := AliveInfos(infos);
    match FindPlaying(alive)
    case Some(p) => Some(p)
    case None => if alive == [] then None else assert alive[0] in alive; Some(alive[0])
  }

  /** Index of the first element of `infos` that satisfies the rule. */
  ghost predicate FirstWith(infos: seq<ServiceInfo>, i: nat, playing: bool)
  {
    i < |infos| && Alive(infos[i]) && (playing ==> infos[i].playbackStatus == "Playing")
    && forall j :: 0 <= j < i ==> !(Alive(infos[j]) && (playing ==> infos[j].playbackStatus == "Playing"))
  }

  /** A playing player with a title wins, and it is the first such in list order. */
  lemma {:induction false} GetMetadataPrefersFirstPlaying(infos: seq<ServiceInfo>, i: nat)
    requires FirstWith(infos, i, true)
    ensures GetMetadata(infos) == Some(infos[i])
  {
    FirstPlayingOfAlive(infos, i);
  }

  lemma {:induction false} FirstPlayingOfAlive(infos: seq<ServiceInfo>, i: nat)
    requires FirstWith(infos, i, true)
    ensures FindPlaying(AliveInfos(infos)) == Some(infos[i])
  {
    if i == 0 {
    } else {
      assert FirstWith(infos[1..], i - 1, true) by {
        forall j | 0 <= j < i - 1
          ensures !(Alive(infos[1..][j]) && infos[1..][j].playbackStatus == "Playing")
        {
          assert infos[1..][j] == infos[j + 1];
        }
      }
      FirstPlayingOfAlive(infos[1..], i - 1);
    }
  }

  /** With no playing player, the first player with a title is chosen. */
  lemma {:induction false} GetMetadataFallsBackToFirstAlive(infos: seq<ServiceInfo>, i: nat)
    requires FirstWith(infos, i, false)
    requires forall s :: s in infos && Alive(s) ==> s.playbackStatus != "Playing"
    ensures GetMetadata(infos) == Some(infos[i])
  {
    FirstAliveHeads(infos, i);
  }

  lemma {:induction false} FirstAliveHeads(infos: seq<ServiceInfo>, i: nat)
    requires FirstWith(infos, i, false)
    ensures AliveInfos(infos) != [] && AliveInfos(infos)[0] == infos[i]
  {
    if i > 0 {
      assert FirstWith(infos[1..], i - 1, false) by {
        forall j | 0 <= j < i - 1 ensures !Alive(infos[1..][j]) {
          assert infos[1..][j] == infos[j + 1];
        }
      }
      FirstAliveHeads(infos[1..], i - 1);
    }
  }
}
