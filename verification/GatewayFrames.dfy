/** Who is sent what: the frames of each handler, in terms of the clients and the records. */
module GatewayFrames {
  import opened Wrappers
  import opened GatewayModel
  import opened GatewayRuns

  // ---- Delivery ----

  /** No handler hands a frame to a socket that is not open, nor to another user than it names. */
  lemma FramesReachOpenSocketsOnly(v: View, e: Event, i: nat, s: Sent)
    requires i < |Step(v, e).sent| && s in Step(v, e).sent[i]
    ensures s.to in v.open
    ensures s.recipient == v.UserOf(s.to) || s.recipient == Step(v, e).view.UserOf(s.to)
  {
    hide IdentifyStep, DisconnectStep;
    match e
    case Identify(ws, session, user) => IdentifyReachesOpenSockets(v, ws, session, user, i, s);
    case Disconnect(ws, leftServer) => DisconnectReachesOpenSockets(v, ws, leftServer, i, s);
    case _ =>
  }

  lemma IdentifyReachesOpenSockets(v: View, ws: Socket, session: SessionRead, user: UserRead, i: nat, s: Sent)
    requires i < |IdentifyStep(v, ws, session, user).sent| && s in IdentifyStep(v, ws, session, user).sent[i]
    ensures s.to in v.open && (s.recipient == v.UserOf(s.to) || s.recipient == IdentifyStep(v, ws, session, user).view.UserOf(s.to))
  {
  }

  lemma DisconnectReachesOpenSockets(v: View, ws: Socket, leftServer: Option<string>, i: nat, s: Sent)
    requires i < |DisconnectStep(v, ws, leftServer).sent| && s in DisconnectStep(v, ws, leftServer).sent[i]
    ensures s.to in v.open && s.recipient == v.UserOf(s.to)
  {
  }

  ghost predicate IsSent(batch: Batch, ws: Socket, frame: Frame) {
    exists s :: s in batch && s.to == ws && s.frame == frame
  }

  /** A topic event reaches exactly the open subscribers, but for the sockets of an excluded user. */
  lemma TopicEventReaches(v: View, topic: string, body: string, exclude: Option<string>, ws: Socket)
    ensures |Step(v, EmitTopic(topic, body, exclude)).sent| == 1
    ensures forall s :: s in Step(v, EmitTopic(topic, body, exclude)).sent[0] ==> s.frame == TopicEvent(topic, body)
    ensures IsSent(Step(v, EmitTopic(topic, body, exclude)).sent[0], ws, TopicEvent(topic, body)) <==>
              && ws in v.clients && ws in v.open && topic in v.clients[ws].topics
              && (exclude.None? || v.clients[ws].userId != exclude)
  {
    if ws in v.clients && ws in v.open && topic in v.clients[ws].topics && (exclude.None? || v.clients[ws].userId != exclude) {
      assert Sent(ws, v.clients[ws].userId, TopicEvent(topic, body)) in v.TopicBatch(topic, body, exclude);
    }
  }

  /** An event for a user reaches exactly the open sockets registered for it. */
  lemma UserEventReaches(v: View, user: string, body: string, ws: Socket)
    ensures |Step(v, EmitUser(user, body)).sent| == 1
    ensures IsSent(Step(v, EmitUser(user, body)).sent[0], ws, UserEvent(body)) <==>
              user in v.userSockets && ws in v.userSockets[user] && ws in v.open
  {
    if user in v.userSockets && ws in v.userSockets[user] && ws in v.open {
      assert Sent(ws, v.UserOf(ws), UserEvent(body)) in v.UserBatch(user, body);
    }
  }

  // ---- Identifying ----

  /** A refused IDENTIFY changes nothing and tells the socket why. */
  lemma RefusalsAreReported(v: View, ws: Socket, session: SessionRead, user: UserRead)
    requires ws in v.clients && !session.Session?
    ensures
      var o := Step(v, Identify(ws, session, user));
      var reason := match session case NoSession => "invalid_session" case Expired => "session_expired" case _ => "auth_failed";
      && o.view == v && |o.sent| == 1
      && o.sent[0] == if ws in v.open then {Sent(ws, v.UserOf(ws), ReadyError(reason))} else {}
  {
  }

  /** Status, text and emoji as `reader` is to see them. */
  function Seen(reader: string, user: string, p: Presence): Shown {
    if reader != user && p.status == Invisible then Shown(Offline, None, None) else Shown(p.status, p.text, p.emoji)
  }

  /** Every open identified client is told of `user`'s presence, as it may see it, and nothing else. */
  ghost predicate Announced(v: View, batch: Batch, user: string, p: Presence) {
    forall s :: s in batch <==>
      && s.to in v.clients && s.to in v.open && v.clients[s.to].userId.Some? && s.recipient == v.clients[s.to].userId
      && s.frame == PresenceUpdate(user, Seen(v.clients[s.to].userId.value, user, p))
  }

  /**
   * The first IDENTIFY of a user restores the saved status, text and emoji, online
   * where none is saved, greets the socket, and tells everyone; a user saved as
   * invisible comes back unseen.
   */
  lemma FirstIdentifyRestoresPresence(v: View, ws: Socket, did: string, user: UserRead)
    requires ws in v.clients && did !in v.userSockets && did !in v.presences && !user.UserThrows?
    ensures
      var o := Step(v, Identify(ws, Session(did), user));
      var p := if user.User? then Presence(if user.saved.status.Some? then user.saved.status.value else Online, user.saved.text, user.saved.emoji)
               else Presence(Online, None, None);
      && o.view.presences == v.presences[did := p]
      && o.view.clients == v.clients[ws := ClientState(Some(did), v.clients[ws].topics)]
      && |o.sent| == 2
      && (ws in v.open ==> IsSent(o.sent[0], ws, Ready(did, o.view.Snapshot(did))))
      && Announced(o.view, o.sent[1], did, p)
  {
    var o := Step(v, Identify(ws, Session(did), user));
    if ws in v.open {
      assert Sent(ws, Some(did), Ready(did, o.view.Snapshot(did))) in o.sent[0];
    }
  }

  /** A later socket of the user is greeted with the presences as they are, and nobody else is told anything. */
  lemma LaterIdentifyJoins(v: View, ws: Socket, did: string, user: UserRead)
    requires ws in v.clients && did in v.userSockets && !user.UserThrows?
    ensures
      var o := Step(v, Identify(ws, Session(did), user));
      && o.view.presences == v.presences
      && o.view.clients == v.clients[ws := ClientState(Some(did), v.clients[ws].topics)]
      && |o.sent| == 1
      && o.sent[0] == if ws in v.open then {Sent(ws, Some(did), Ready(did, o.view.Snapshot(did)))} else {}
  {
  }

  /** The snapshot lists every known presence, with its text and emoji, the user's own status truthfully. */
  lemma SnapshotIsComplete(v: View, reader: string, user: string)
    ensures user in v.Snapshot(reader) <==> user in v.presences
    ensures user in v.presences ==>
              var p := v.presences[user];
              v.Snapshot(reader)[user] == Shown(if user != reader && p.status == Invisible then Offline else p.status, p.text, p.emoji)
  {
  }

  // ---- Presence updates ----

  /** The requested status, text and emoji take effect and are announced; what is left out stays, an empty text clears. */
  lemma PresenceUpdateTakesEffect(v: View, ws: Socket, did: string, status: Option<StoredStatus>, text: Option<string>, emoji: Option<string>)
    requires v.UserOf(ws) == Some(did)
    ensures
      var o := Step(v, SetPresence(ws, status, text, emoji));
      && did in o.view.presences && o.view == v.(presences := v.presences[did := o.view.presences[did]])
      && var p := o.view.presences[did];
         && p.status == (if status.Some? then status.value else if did in v.presences then v.presences[did].status else Online)
         && p.text == (if text == Some("") then None else if text.Some? then text else if did in v.presences then v.presences[did].text else None)
         && p.emoji == (if emoji == Some("") then None else if emoji.Some? then emoji else if did in v.presences then v.presences[did].emoji else None)
         && |o.sent| == 1 && Announced(o.view, o.sent[0], did, p)
  {
  }

  // ---- Leaving topics ----

  /** The socket holds none of the topics. */
  predicate Off(v: View, ws: Socket, topics: set<string>) {
    ws in v.clients ==> v.clients[ws].topics * topics == {}
  }

  /** The step subscribes the socket to one of the topics. */
  predicate Grants(v: View, e: Event, ws: Socket, topics: set<string>) {
    match e
    case Subscribe(to, granted) => to == ws && v.UserOf(ws).Some? && granted * topics != {}
    case JoinVoice(to, channel, server) => to == ws && v.UserOf(ws).Some? && ({channel} + if server == "" then {} else {server}) * topics != {}
    case _ => false
  }

  /** UNSUBSCRIBE takes the socket off exactly the listed topics. */
  lemma UnsubscribeTakesOff(v: View, ws: Socket, topics: set<string>)
    requires ws in v.clients
    ensures
      var o := Step(v, Unsubscribe(ws, topics));
      && Off(o.view, ws, topics) && o.sent == []
      && o.view == v.(clients := v.clients[ws := ClientState(v.clients[ws].userId, v.clients[ws].topics - topics)])
  {
  }

  lemma IdentifyKeepsTopics(v: View, to: Socket, session: SessionRead, user: UserRead, ws: Socket)
    ensures ws in IdentifyStep(v, to, session, user).view.clients <==> ws in v.clients
    ensures ws in v.clients ==> IdentifyStep(v, to, session, user).view.clients[ws].topics == v.clients[ws].topics
  {
  }

  lemma GrantAndOff(v: View, to: Socket, granted: set<string>, ws: Socket, topics: set<string>)
    requires Off(v, ws, topics) && to in v.clients
    ensures Off(v.GrantTopics(to, granted), ws, topics) <==> !(to == ws && granted * topics != {})
  {
    if to == ws {
      assert (v.clients[ws].topics + granted) * topics == v.clients[ws].topics * topics + granted * topics;
    }
  }

  /** A socket that is off the topics gets on them exactly when a step grants it one. */
  lemma StepKeepsOff(v: View, e: Event, ws: Socket, topics: set<string>)
    requires Off(v, ws, topics)
    ensures Off(Step(v, e).view, ws, topics) <==> !Grants(v, e, ws, topics)
  {
    hide IdentifyStep, DisconnectStep, SetPresenceStep;
    match e
    case Identify(to, session, user) => IdentifyKeepsTopics(v, to, session, user, ws);
    case Disconnect(to, leftServer) => DisconnectKeepsTopics(v, to, leftServer, ws);
    case SetPresence(to, status, text, emoji) => SetPresenceKeepsTopics(v, e);
    case Subscribe(to, granted) =>
      if v.UserOf(to).Some? {
        GrantAndOff(v, to, granted, ws, topics);
      }
    case JoinVoice(to, channel, server) =>
      if v.UserOf(to).Some? {
        GrantAndOff(v, to, JoinedTopics(channel, server), ws, topics);
      }
    case _ =>
  }

  lemma DisconnectKeepsTopics(v: View, to: Socket, leftServer: Option<string>, ws: Socket)
    ensures ws in DisconnectStep(v, to, leftServer).view.clients ==>
              ws in v.clients && DisconnectStep(v, to, leftServer).view.clients[ws] == v.clients[ws]
  {
  }

  lemma SetPresenceKeepsTopics(v: View, e: Event)
    requires e.SetPresence?
    ensures Step(v, e).view.clients == v.clients
  {
  }

  ghost predicate NoGrant(v: View, events: seq<Event>, ws: Socket, topics: set<string>) {
    forall i :: 0 <= i < |events| ==> !Grants(Run(v, events[..i]).view, events[i], ws, topics)
  }

  /** No event on the topics was handed to the socket. */
  ghost predicate NotReached(sent: seq<Batch>, ws: Socket, topics: set<string>) {
    forall i, s :: 0 <= i < |sent| && s in sent[i] && s.frame.TopicEvent? && s.frame.topic in topics ==> s.to != ws
  }

  lemma StepDoesNotReach(v: View, e: Event, ws: Socket, topics: set<string>)
    requires Off(v, ws, topics) && !Grants(v, e, ws, topics)
    ensures NotReached(Step(v, e).sent, ws, topics)
  {
    hide Step, Grants;
    StepKeepsOff(v, e, ws, topics);
    var next, sent := Step(v, e).view, Step(v, e).sent;
    forall i, s: Sent | 0 <= i < |sent| && s in sent[i] && s.frame.TopicEvent? && s.frame.topic in topics
      ensures s.to != ws
    {
      TopicEventsReachSubscribers(v, e, i, s);
      assert ws in v.clients ==> s.frame.topic !in v.clients[ws].topics * topics;
      assert ws in next.clients ==> s.frame.topic !in next.clients[ws].topics * topics;
    }
  }

  lemma NotReachedAppends(a: seq<Batch>, b: seq<Batch>, ws: Socket, topics: set<string>)
    requires NotReached(a, ws, topics) && NotReached(b, ws, topics)
    ensures NotReached(a + b, ws, topics)
  {
  }

  /** After an UNSUBSCRIBE no event on the listed topics reaches the socket in any run, until it is granted one anew. */
  lemma {:induction false} UnsubscribedHearsNothing(v: View, later: seq<Event>, ws: Socket, topics: set<string>)
    requires Off(v, ws, topics) && NoGrant(v, later, ws, topics)
    ensures Off(Run(v, later).view, ws, topics)
    ensures NotReached(Run(v, later).sent, ws, topics)
  {
    if later != [] {
      var n := |later| - 1;
      var front := later[..n];
      assert forall i :: 0 <= i < n ==> front[..i] == later[..i] && front[i] == later[i];
      assert !Grants(Run(v, later[..n]).view, later[n], ws, topics);
      hide Step, Off, Grants, NotReached;
      UnsubscribedHearsNothing(v, front, ws, topics);
      var before := Run(v, front);
      StepKeepsOff(before.view, later[n], ws, topics);
      StepDoesNotReach(before.view, later[n], ws, topics);
      NotReachedAppends(before.sent, Step(before.view, later[n]).sent, ws, topics);
    }
  }

  // ---- Voice ----

  /** A voice join is announced on the server's topic to everyone but the joining user, and answered to the socket. */
  lemma VoiceJoinIsAnnounced(v: View, ws: Socket, did: string, channel: string, server: string, other: Socket)
    requires v.UserOf(ws) == Some(did)
    ensures
      var o := Step(v, JoinVoice(ws, channel, server));
      && |o.sent| == 2
      && (IsSent(o.sent[0], other, TopicEvent(server, "join")) <==>
            && other in v.clients && other in v.open && v.clients[other].userId != Some(did)
            && server in v.clients[other].topics)
      && (IsSent(o.sent[1], ws, UserEvent("channel_users")) <==> ws in v.open)
  {
    var o := Step(v, JoinVoice(ws, channel, server));
    if other in v.clients && other in v.open && v.clients[other].userId != Some(did) && server in v.clients[other].topics {
      assert other != ws;
      assert Sent(other, v.clients[other].userId, TopicEvent(server, "join")) in o.sent[0];
    }
    if ws in v.open {
      assert Sent(ws, Some(did), UserEvent("channel_users")) in o.sent[1];
    }
  }

  /** An eviction from a voice channel among the topics is announced to those who still listen; any other is silent. */
  lemma EvictionIsAnnounced(v: View, did: string, server: string, channels: set<string>, voice: Option<(string, string)>, other: Socket)
    ensures
      var o := Step(v, Evict(did, server, channels, voice));
      if voice.Some? && (voice.value.0 == server || voice.value.0 in channels) then
        var topic := if voice.value.1 == "" then server else voice.value.1;
        && |o.sent| == 1
        && (IsSent(o.sent[0], other, TopicEvent(topic, "leave")) <==>
              other in o.view.clients && other in v.open && topic in o.view.clients[other].topics)
      else o.sent == []
  {
    var o := Step(v, Evict(did, server, channels, voice));
    if voice.Some? && voice.value.0 in {server} + channels {
      var topic := if voice.value.1 == "" then server else voice.value.1;
      if other in o.view.clients && other in v.open && topic in o.view.clients[other].topics {
        assert Sent(other, o.view.clients[other].userId, TopicEvent(topic, "leave")) in o.sent[0];
      }
    }
  }

  /** While another socket of the user is registered, a disconnect is silent; the last one is announced as offline. */
  lemma DisconnectIsAnnounced(v: View, ws: Socket, did: string, leftServer: Option<string>, other: Socket)
    requires v.UserOf(ws) == Some(did)
    ensures
      var o := Step(v, Disconnect(ws, leftServer));
      && o.view.clients == v.clients - {ws}
      && if did in v.userSockets && v.userSockets[did] - {ws} != {} then o.sent == [] && o.view.presences == v.presences
         else
           && o.view.presences == v.presences - {did}
           && |o.sent| == (if leftServer.Some? then 2 else 1)
           && (IsSent(o.sent[0], other, PresenceUpdate(did, Shown(Offline, None, None))) <==>
                 other in v.clients && other in v.open && v.clients[other].userId.Some?)
           && (leftServer.Some? ==>
                 (IsSent(o.sent[1], other, TopicEvent(leftServer.value, "leave")) <==>
                    other in v.clients && other in v.open && leftServer.value in v.clients[other].topics))
  {
    var o := Step(v, Disconnect(ws, leftServer));
    if !(did in v.userSockets && v.userSockets[did] - {ws} != {}) {
      if other in v.clients && other in v.open && v.clients[other].userId.Some? {
        assert Sent(other, v.clients[other].userId, PresenceUpdate(did, Shown(Offline, None, None))) in o.sent[0];
      }
      if leftServer.Some? && other in v.clients && other in v.open && leftServer.value in v.clients[other].topics {
        assert Sent(other, v.clients[other].userId, TopicEvent(leftServer.value, "leave")) in o.sent[1];
      }
    }
  }
}
