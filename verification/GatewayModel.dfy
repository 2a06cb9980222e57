/**
 * The WebSocket gateway as a state machine: each handler is one atomic step from a
 * view of the three maps to the next, together with the frames it sends.
 */
module GatewayModel {
  import opened Wrappers

  type Socket = nat

  datatype Status = Online | Idle | Dnd | Invisible | Offline

  type StoredStatus = s: Status | s != Offline witness Online

  datatype Presence = Presence(status: StoredStatus, text: Option<string>, emoji: Option<string>)

  /** What a frame says about one user. */
  datatype Shown = Shown(status: Status, text: Option<string>, emoji: Option<string>)

  datatype ClientState = ClientState(userId: Option<string>, topics: set<string>)

  datatype Frame =
    | Ready(userId: string, presences: map<string, Shown>)
    | ReadyError(reason: string)
    | PresenceUpdate(about: string, shown: Shown)
    | TopicEvent(topic: string, body: string)
    | UserEvent(body: string)

  /** One frame handed to one open socket, and the user that socket spoke for at that time. */
  datatype Sent = Sent(to: Socket, recipient: Option<string>, frame: Frame)

  /** Frames of one `send` or one broadcast loop; the order of recipients is left open. */
  type Batch = set<Sent>

  datatype View = View(clients: map<Socket, ClientState>,
                       userSockets: map<string, set<Socket>>,
                       presences: map<string, Presence>,
                       open: set<Socket>)
  {
    function UserOf(ws: Socket): Option<string> {
      if ws in clients then clients[ws].userId else None
    }

    /** A scan of `clients` for the sockets that speak for `user`. */
    function SocketsOf(user: string): set<Socket> {
      set ws | ws in clients && clients[ws].userId == Some(user)
    }

    /** Status visible to other users. */
    function PublicStatus(user: string): Status {
      if user !in presences then Offline
      else if presences[user].status == Invisible then Offline
      else presences[user].status
    }

    /** Status of `user` as `reader` is to see it: the truth about oneself only. */
    function StatusFor(reader: string, user: string): Status {
      if user == reader && user in presences then presences[user].status else PublicStatus(user)
    }

    /** Send to one client: nothing leaves unless the socket is open. */
    function Deliver(ws: Socket, frame: Frame): Batch {
      if ws in open then {Sent(ws, UserOf(ws), frame)} else {}
    }

    /** `presence` is `None` when the user has just gone offline. */
    function PresenceBatch(user: string, presence: Option<Presence>): Batch {
      set ws | ws in clients && ws in open && clients[ws].userId.Some? ::
        Sent(ws, clients[ws].userId, PresenceUpdate(user, PresenceShownTo(clients[ws].userId.value, user, presence)))
    }

    function TopicBatch(topic: string, body: string, exclude: Option<string>): Batch {
      set ws | ws in clients && ws in open && topic in clients[ws].topics
               && !(exclude.Some? && clients[ws].userId == exclude) ::
        Sent(ws, clients[ws].userId, TopicEvent(topic, body))
    }

    function UserBatch(user: string, body: string): Batch {
      set ws | user in userSockets && ws in userSockets[user] && ws in open ::
        Sent(ws, UserOf(ws), UserEvent(body))
    }

    /** Every known presence as `reader` gets it on READY. */
    function Snapshot(reader: string): map<string, Shown> {
      map u | u in presences ::
        Shown(StatusFor(reader, u), presences[u].text, presences[u].emoji)
    }

    function GrantTopics(ws: Socket, topics: set<string>): View
      requires ws in clients
    {
      this.(clients := clients[ws := clients[ws].(topics := clients[ws].topics + topics)])
    }

    function DropTopics(ws: Socket, topics: set<string>): View
      requires ws in clients
    {
      this.(clients := clients[ws := clients[ws].(topics := clients[ws].topics - topics)])
    }
  }

  /** Others see an invisible user as offline, without any custom text. */
  function PresenceShownTo(reader: string, user: string, presence: Option<Presence>): Shown {
    if presence.None? then Shown(Offline, None, None)
    else if reader != user && presence.value.status == Invisible then Shown(Offline, None, None)
    else Shown(presence.value.status, presence.value.text, presence.value.emoji)
  }

  /** Outcome of looking the session token up. */
  datatype SessionRead = NoSession | Expired | SessionThrows | Session(did: string)

  /** The stored preference of a user; an unknown stored status reads as `None`. */
  datatype Saved = Saved(status: Option<StoredStatus>, text: Option<string>, emoji: Option<string>)

  /** Outcome of reading the user record. */
  datatype UserRead = UserThrows | NoUser | User(saved: Saved)

  function InitialPresence(user: UserRead): Presence {
    if user.User? then Presence(user.saved.status.GetOr(Online), user.saved.text, user.saved.emoji)
    else Presence(Online, None, None)
  }

  /** A patch of one text field: absent keeps it, an empty string clears it. */
  function PatchText(patch: Option<string>, current: Option<string>): Option<string> {
    if patch.None? then current
    else if patch.value == "" then None
    else patch
  }

  datatype Event =
    | Connect(ws: Socket)
    | SocketCloses(ws: Socket)
    | Identify(ws: Socket, session: SessionRead, user: UserRead)
    | Subscribe(ws: Socket, granted: set<string>)
    | Unsubscribe(ws: Socket, topics: set<string>)
    | SetPresence(ws: Socket, status: Option<StoredStatus>, text: Option<string>, emoji: Option<string>)
    | JoinVoice(ws: Socket, channel: string, server: string)
    | Evict(did: string, server: string, channels: set<string>, voice: Option<(string, string)>)
    | EmitTopic(topic: string, body: string, exclude: Option<string>)
    | EmitUser(did: string, body: string)
    | Disconnect(ws: Socket, leftServer: Option<string>)

  datatype Outcome = Outcome(view: View, sent: seq<Batch>)

  /** The successful tail of IDENTIFY, behind both reads. */
  function Admit(v: View, ws: Socket, did: string, user: UserRead): Outcome
    requires ws in v.clients
  {
    var first := did !in v.userSockets;
    var sockets := (if first then {} else v.userSockets[did]) + {ws};
    var presences := if first && did !in v.presences then v.presences[did := InitialPresence(user)] else v.presences;
    var next := View(v.clients[ws := v.clients[ws].(userId := Some(did))],
                     v.userSockets[did := sockets], presences, v.open);
    Outcome(next,
      [next.Deliver(ws, Ready(did, next.Snapshot(did)))]
      + if first then [next.PresenceBatch(did, Some(next.presences[did]))] else [])
  }

  function IdentifyStep(v: View, ws: Socket, session: SessionRead, user: UserRead): Outcome {
    if ws !in v.clients then Outcome(v, [])
    else
      match session
      case NoSession => Outcome(v, [v.Deliver(ws, ReadyError("invalid_session"))])
      case Expired => Outcome(v, [v.Deliver(ws, ReadyError("session_expired"))])
      case SessionThrows => Outcome(v, [v.Deliver(ws, ReadyError("auth_failed"))])
      case Session(did) =>
        if user.UserThrows? then
          // The user id is already assigned when the user record fails to load.
          var next := v.(clients := v.clients[ws := v.clients[ws].(userId := Some(did))]);
          Outcome(next, [next.Deliver(ws, ReadyError("auth_failed"))])
        else Admit(v, ws, did, user)
  }

  function SetPresenceStep(v: View, ws: Socket, status: Option<StoredStatus>, text: Option<string>, emoji: Option<string>): Outcome {
    if v.UserOf(ws).None? then Outcome(v, [])
    else
      var did := v.UserOf(ws).value;
      var current := if did in v.presences then v.presences[did] else Presence(Online, None, None);
      var next := Presence(status.GetOr(current.status), PatchText(text, current.text), PatchText(emoji, current.emoji));
      var after := v.(presences := v.presences[did := next]);
      Outcome(after, [after.PresenceBatch(did, Some(next))])
  }

  /** The voice channel, and its server unless the voice service names none. */
  function JoinedTopics(channel: string, server: string): set<string> {
    {channel} + if server == "" then {} else {server}
  }

  function JoinVoiceStep(v: View, ws: Socket, channel: string, server: string): Outcome {
    if v.UserOf(ws).None? then Outcome(v, [])
    else
      var after := v.GrantTopics(ws, JoinedTopics(channel, server));
      Outcome(after,
        [after.TopicBatch(server, "join", v.UserOf(ws)), after.Deliver(ws, UserEvent("channel_users"))])
  }

  /** Strip the topics off every socket registered for the user. */
  function StripTopics(v: View, did: string, topics: set<string>): View {
    if did !in v.userSockets then v
    else
      v.(clients := map ws | ws in v.clients ::
        if ws in v.userSockets[did] then v.clients[ws].(topics := v.clients[ws].topics - topics) else v.clients[ws])
  }

  function EvictStep(v: View, did: string, server: string, channels: set<string>, voice: Option<(string, string)>): Outcome {
    var topics := {server} + channels;
    var after := StripTopics(v, did, topics);
    Outcome(after,
      if voice.Some? && voice.value.0 in topics
      then [after.TopicBatch(if voice.value.1 == "" then server else voice.value.1, "leave", None)]
      else [])
  }

  /** `voice` is the server whose voice channel the user is pulled out of, if any. */
  function DisconnectStep(v: View, ws: Socket, voice: Option<string>): Outcome {
    if v.UserOf(ws).None? then Outcome(v.(clients := v.clients - {ws}), [])
    else
      var did := v.UserOf(ws).value;
      var left := (if did in v.userSockets then v.userSockets[did] else {}) - {ws};
      if left != {} then
        Outcome(v.(clients := v.clients - {ws}, userSockets := v.userSockets[did := left]), [])
      else
        var gone := v.(userSockets := v.userSockets - {did}, presences := v.presences - {did});
        Outcome(gone.(clients := v.clients - {ws}),
          [gone.PresenceBatch(did, None)]
          + if voice.Some? then [gone.TopicBatch(voice.value, "leave", None)] else [])
  }

  function Step(v: View, e: Event): Outcome {
    match e
    case Connect(ws) =>
      Outcome(v.(clients := v.clients[ws := ClientState(None, {})], open := v.open + {ws}), [])
    case SocketCloses(ws) => Outcome(v.(open := v.open - {ws}), [])
    case Identify(ws, session, user) => IdentifyStep(v, ws, session, user)
    case Subscribe(ws, granted) =>
      if v.UserOf(ws).None? then Outcome(v, []) else Outcome(v.GrantTopics(ws, granted), [])
    case Unsubscribe(ws, topics) =>
      if ws !in v.clients then Outcome(v, []) else Outcome(v.DropTopics(ws, topics), [])
    case SetPresence(ws, status, text, emoji) => SetPresenceStep(v, ws, status, text, emoji)
    case JoinVoice(ws, channel, server) => JoinVoiceStep(v, ws, channel, server)
    case Evict(did, server, channels, voice) => EvictStep(v, did, server, channels, voice)
    case EmitTopic(topic, body, exclude) => Outcome(v, [v.TopicBatch(topic, body, exclude)])
    case EmitUser(did, body) => Outcome(v, [v.UserBatch(did, body)])
    case Disconnect(ws, voice) => DisconnectStep(v, ws, voice)
  }

  const Boot := View(map[], map[], map[], {})

  /** State after a run of handlers, and everything sent on the way. */
  function Run(v: View, events: seq<Event>): Outcome {
    if events == [] then Outcome(v, [])
    else
      var before := Run(v, events[..|events| - 1]);
      var last := Step(before.view, events[|events| - 1]);
      Outcome(last.view, before.sent + last.sent)
  }
}
