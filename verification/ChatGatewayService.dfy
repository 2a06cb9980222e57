/** The gateway object: its handlers update three maps in place and log what they send. */
module ChatGatewayService {
  import opened Wrappers
  import opened Sequences
  import opened GatewayModel
  import opened ChannelTopics
  import opened MemberAccess
  import opened MemberAccessTables

  /** The topics of a SUBSCRIBE frame that the user is let into. */
  function GrantedTopics(db: Db, faults: set<Fault>, user: string, ids: seq<string>): set<string> {
    set id | id in ids
             && (if IsChannelTopic(id)
                 then ChannelRows !in faults && Readable(db, user, id) && !ScopeFails(db, faults, user, id)
                 else MaySubscribe(db, faults, user, id))
  }

  class ChatGateway {
    var clients: map<Socket, ClientState>
    var userSockets: map<string, set<Socket>>
    var presences: map<string, Presence>
    /** Sockets whose `readyState` is OPEN; changed by the environment. */
    var open: set<Socket>
    /** Everything handed to a socket so far. */
    var sent: seq<Batch>

    function Abs(): View
      reads this
    {
      View(clients, userSockets, presences, open)
    }

    constructor ()
      ensures Abs() == Boot && sent == []
    {
      clients, userSockets, presences, open, sent := map[], map[], map[], {}, [];
    }

    method Send(ws: Socket, frame: Frame)
      modifies this`sent
      ensures sent == old(sent) + [Abs().Deliver(ws, frame)]
    {
      sent := sent + [if ws in open then {Sent(ws, Abs().UserOf(ws), frame)} else {}];
    }

    method BroadcastToChannel(topic: string, body: string, exclude: Option<string>)
      modifies this`sent
      ensures sent == old(sent) + [Abs().TopicBatch(topic, body, exclude)]
    {
      var batch: Batch := {};
      var pending := clients.Keys;
      while pending != {}
        invariant pending <= clients.Keys
        invariant batch == set s | s in Abs().TopicBatch(topic, body, exclude) && s.to !in pending
        decreases pending
      {
        var ws :| ws in pending;
        var state := clients[ws];
        if topic in state.topics && !(exclude.Some? && state.userId == exclude) && ws in open {
          batch := batch + {Sent(ws, state.userId, TopicEvent(topic, body))};
        }
        pending := pending - {ws};
      }
      assert batch == Abs().TopicBatch(topic, body, exclude);
      sent := sent + [batch];
    }

    method BroadcastPresenceUpdate(user: string, presence: Option<Presence>)
      modifies this`sent
      ensures sent == old(sent) + [Abs().PresenceBatch(user, presence)]
    {
      var hidden := presence.None? || presence.value.status == Invisible;
      var publicShown := if hidden then Shown(Offline, None, None)
                         else Shown(presence.value.status, presence.value.text, presence.value.emoji);
      var selfShown := if presence.None? then Shown(Offline, None, None)
                       else Shown(presence.value.status, presence.value.text, presence.value.emoji);
      var batch: Batch := {};
      var pending := clients.Keys;
      while pending != {}
        invariant pending <= clients.Keys
        invariant batch == set s | s in Abs().PresenceBatch(user, presence) && s.to !in pending
        decreases pending
      {
        var ws :| ws in pending;
        var state := clients[ws];
        if state.userId.Some? && ws in open {
          var shown := if state.userId == Some(user) then selfShown else publicShown;
          batch := batch + {Sent(ws, state.userId, PresenceUpdate(user, shown))};
        }
        pending := pending - {ws};
      }
      assert batch == Abs().PresenceBatch(user, presence);
      sent := sent + [batch];
    }

    method EmitToUser(user: string, body: string)
      modifies this`sent
      ensures Step(Abs(), EmitUser(user, body)) == Outcome(Abs(), [Abs().UserBatch(user, body)])
      ensures sent == old(sent) + [Abs().UserBatch(user, body)]
    {
      var batch: Batch := {};
      if user in userSockets {
        var pending := userSockets[user];
        while pending != {}
          invariant pending <= userSockets[user]
          invariant batch == set s | s in Abs().UserBatch(user, body) && s.to !in pending
          decreases pending
        {
          var ws :| ws in pending;
          if ws in open {
            batch := batch + {Sent(ws, Abs().UserOf(ws), UserEvent(body))};
          }
          pending := pending - {ws};
        }
      }
      assert batch == Abs().UserBatch(user, body);
      sent := sent + [batch];
    }

    method HandleConnection(ws: Socket)
      modifies this
      ensures Abs() == Step(old(Abs()), Connect(ws)).view && sent == old(sent)
    {
      clients := clients[ws := ClientState(None, {})];
      open := open + {ws};
    }

    method HandleIdentify(ws: Socket, session: SessionRead, user: UserRead)
      modifies this
      ensures Abs() == Step(old(Abs()), Identify(ws, session, user)).view
      ensures sent == old(sent) + Step(old(Abs()), Identify(ws, session, user)).sent
    {
      if ws !in clients {
        return;
      }
      match session
      case NoSession => Send(ws, ReadyError("invalid_session"));
      case Expired => Send(ws, ReadyError("session_expired"));
      case SessionThrows => Send(ws, ReadyError("auth_failed"));
      case Session(did) =>
        if user.UserThrows? {
          clients := clients[ws := clients[ws].(userId := Some(did))];
          Send(ws, ReadyError("auth_failed"));
        } else {
          AdmitSocket(ws, did, user);
        }
    }

    /** The rest of IDENTIFY once the session and the user record have been read. */
    method AdmitSocket(ws: Socket, did: string, user: UserRead)
      requires ws in clients
      modifies this
      ensures Abs() == Admit(old(Abs()), ws, did, user).view
      ensures sent == old(sent) + Admit(old(Abs()), ws, did, user).sent
    {
      clients := clients[ws := clients[ws].(userId := Some(did))];
      var isFirstSocket := did !in userSockets;
      RegisterSocket(ws, did);
      if isFirstSocket && did !in presences {
        presences := presences[did := InitialPresence(user)];
      }
      assert Abs() == Admit(old(Abs()), ws, did, user).view;
      var snapshot := map u | u in presences ::
        Shown(if u == did then presences[u].status
              else if presences[u].status == Invisible then Offline else presences[u].status,
              presences[u].text, presences[u].emoji);
      assert snapshot == Abs().Snapshot(did);
      Send(ws, Ready(did, snapshot));
      if isFirstSocket {
        BroadcastPresenceUpdate(did, Some(presences[did]));
      }
    }

    method RegisterSocket(ws: Socket, did: string)
      modifies this`userSockets
      ensures userSockets == old(userSockets)[did := (if did in old(userSockets) then old(userSockets)[did] else {}) + {ws}]
    {
      if did !in userSockets {
        userSockets := userSockets[did := {}];
      }
      userSockets := userSockets[did := userSockets[did] + {ws}];
    }

    method HandlePresenceUpdate(ws: Socket, status: Option<StoredStatus>, text: Option<string>, emoji: Option<string>)
      modifies this
      ensures Abs() == Step(old(Abs()), SetPresence(ws, status, text, emoji)).view
      ensures sent == old(sent) + Step(old(Abs()), SetPresence(ws, status, text, emoji)).sent
    {
      if ws !in clients || clients[ws].userId.None? {
        return;
      }
      var did := clients[ws].userId.value;
      var current := if did in presences then presences[did] else Presence(Online, None, None);
      var next := Presence(status.GetOr(current.status), PatchText(text, current.text), PatchText(emoji, current.emoji));
      presences := presences[did := next];
      BroadcastPresenceUpdate(did, Some(next));
    }

    method HandleSubscribe(ws: Socket, ids: seq<string>, db: Db, faults: set<Fault>)
      requires db.Valid()
      modifies this`clients
      ensures
        var user := old(Abs()).UserOf(ws);
        Abs() == if user.None? then old(Abs())
                 else Step(old(Abs()), Subscribe(ws, GrantedTopics(db, faults, user.value, ids))).view
    {
      if ws !in clients || clients[ws].userId.None? {
        return;
      }
      var user := clients[ws].userId.value;
      var channelTopics, otherTopics := Partition(ids);
      var answer := CanReadChannels(db, faults, user, channelTopics);
      var readable := if answer.Ok? then answer.value else {};
      var granted: set<string> := {};
      for i := 0 to |channelTopics|
        invariant granted == set id | id in channelTopics[..i] && id in readable
      {
        assert channelTopics[..i + 1] == channelTopics[..i] + [channelTopics[i]];
        if channelTopics[i] in readable {
          granted := granted + {channelTopics[i]};
        }
      }
      assert channelTopics[..|channelTopics|] == channelTopics;
      var others: set<string> := {};
      for i := 0 to |otherTopics|
        invariant others == set id | id in otherTopics[..i] && MaySubscribe(db, faults, user, id)
      {
        assert otherTopics[..i + 1] == otherTopics[..i] + [otherTopics[i]];
        if MaySubscribe(db, faults, user, otherTopics[i]) {
          others := others + {otherTopics[i]};
        }
      }
      assert otherTopics[..|otherTopics|] == otherTopics;
      assert granted + others == GrantedTopics(db, faults, user, ids);
      clients := clients[ws := clients[ws].(topics := clients[ws].topics + (granted + others))];
    }

    method HandleUnsubscribe(ws: Socket, ids: seq<string>)
      modifies this`clients
      ensures Abs() == Step(old(Abs()), Unsubscribe(ws, Members(ids))).view
    {
      if ws !in clients {
        return;
      }
      var topics := clients[ws].topics;
      for i := 0 to |ids|
        invariant topics == clients[ws].topics - Members(ids[..i])
      {
        assert ids[..i + 1] == ids[..i] + [ids[i]];
        topics := topics - {ids[i]};
      }
      assert ids[..|ids|] == ids;
      clients := clients[ws := clients[ws].(topics := topics)];
    }

    /** The join branch of VOICE_STATE_UPDATE; `server` is the server the voice service reports. */
    method HandleVoiceJoin(ws: Socket, channel: string, server: string)
      modifies this
      ensures Abs() == Step(old(Abs()), JoinVoice(ws, channel, server)).view
      ensures sent == old(sent) + Step(old(Abs()), JoinVoice(ws, channel, server)).sent
    {
      if ws !in clients || clients[ws].userId.None? {
        return;
      }
      var state := clients[ws];
      clients := clients[ws := state.(topics := state.topics + ({channel} + if server == "" then {} else {server}))];
      BroadcastToChannel(server, "join", state.userId);
      Send(ws, UserEvent("channel_users"));
    }

    /** Take `topics` off one socket, one by one. */
    method DeleteTopics(ws: Socket, topics: set<string>)
      modifies this`clients
      ensures clients == if ws in old(clients)
                         then old(clients)[ws := old(clients)[ws].(topics := old(clients)[ws].topics - topics)]
                         else old(clients)
    {
      if ws !in clients {
        return;
      }
      var held := clients[ws].topics;
      var pending := topics;
      while pending != {}
        invariant pending <= topics
        invariant held == clients[ws].topics - (topics - pending)
        decreases pending
      {
        var id :| id in pending;
        held := held - {id};
        pending := pending - {id};
      }
      assert topics - {} == topics;
      clients := clients[ws := clients[ws].(topics := held)];
    }

    method EvictUserFromServer(did: string, server: string, channels: set<string>, voice: Option<(string, string)>)
      modifies this
      ensures Abs() == Step(old(Abs()), Evict(did, server, channels, voice)).view
      ensures sent == old(sent) + Step(old(Abs()), Evict(did, server, channels, voice)).sent
    {
      var topicSet := {server} + channels;
      ghost var before := clients;
      if did in userSockets {
        var pending := userSockets[did];
        while pending != {}
          invariant userSockets == old(userSockets) && presences == old(presences)
                    && open == old(open) && sent == old(sent)
          invariant pending <= userSockets[did]
          invariant clients.Keys == before.Keys
          invariant forall ws :: ws in before ==>
            clients[ws] == if ws in userSockets[did] - pending
                           then before[ws].(topics := before[ws].topics - topicSet) else before[ws]
          decreases pending
        {
          var ws :| ws in pending;
          DeleteTopics(ws, topicSet);
          pending := pending - {ws};
        }
      }
      assert Abs() == StripTopics(old(Abs()), did, topicSet);
      if voice.Some? && voice.value.0 in topicSet {
        BroadcastToChannel(if voice.value.1 == "" then server else voice.value.1, "leave", None);
      }
    }

    method HandleDisconnect(ws: Socket, leftServer: Option<string>)
      modifies this
      ensures Abs() == Step(old(Abs()), Disconnect(ws, leftServer)).view
      ensures sent == old(sent) + Step(old(Abs()), Disconnect(ws, leftServer)).sent
    {
      if ws in clients && clients[ws].userId.Some? {
        var did := clients[ws].userId.value;
        if did in userSockets {
          userSockets := userSockets[did := userSockets[did] - {ws}];
        }
        if did !in userSockets || userSockets[did] == {} {
          userSockets := userSockets - {did};
          presences := presences - {did};
          BroadcastPresenceUpdate(did, None);
          if leftServer.Some? {
            BroadcastToChannel(leftServer.value, "leave", None);
          }
        }
      }
      clients := clients - {ws};
    }
  }

  method Partition(ids: seq<string>) returns (channelTopics: seq<string>, otherTopics: seq<string>)
    ensures forall id :: id in channelTopics <==> id in ids && IsChannelTopic(id)
    ensures forall id :: id in otherTopics <==> id in ids && !IsChannelTopic(id)
  {
    channelTopics, otherTopics := [], [];
    for i := 0 to |ids|
      invariant forall id :: id in channelTopics <==> id in ids[..i] && IsChannelTopic(id)
      invariant forall id :: id in otherTopics <==> id in ids[..i] && !IsChannelTopic(id)
    {
      assert ids[..i + 1] == ids[..i] + [ids[i]];
      if IsChannelTopic(ids[i]) {
        channelTopics := channelTopics + [ids[i]];
      } else {
        otherTopics := otherTopics + [ids[i]];
      }
    }
    assert ids[..|ids|] == ids;
  }

  /**
   * A SUBSCRIBE frame never lets a socket into a channel its user may not read, fails
   * closed on every fault, and without faults lets it into every channel it may read.
   */
  lemma SubscribeFollowsTheCascade(v: View, ws: Socket, user: string, ids: seq<string>, db: Db, faults: set<Fault>, id: string)
    requires ws in v.clients && v.UserOf(ws) == Some(user) && "channel:" <= id
    ensures
      var next := Step(v, Subscribe(ws, GrantedTopics(db, faults, user, ids))).view;
      && (id in next.clients[ws].topics && id !in v.clients[ws].topics ==> id in ids && Readable(db, user, id) && ChannelRows !in faults)
      && (faults == {} ==> (id in next.clients[ws].topics <==> id in v.clients[ws].topics || (id in ids && Readable(db, user, id))))
  {
  }

  /**
   * Nor into the topic of a server that exists unless its user is a member and not
   * banned; without faults it lets every such member in. Nothing is granted unasked.
   */
  lemma SubscribeAsksForMembership(v: View, ws: Socket, user: string, ids: seq<string>, db: Db, faults: set<Fault>, id: string)
    requires ws in v.clients && v.UserOf(ws) == Some(user)
    ensures
      var next := Step(v, Subscribe(ws, GrantedTopics(db, faults, user, ids))).view;
      && (id in v.clients[ws].topics ==> id in next.clients[ws].topics)
      && (id in next.clients[ws].topics && id !in v.clients[ws].topics ==> id in ids)
      && ("server:" <= id && id in db.servers && db.servers[id].owner.Some? && id !in v.clients[ws].topics ==>
            && (id in next.clients[ws].topics ==> user in db.servers[id].members && user !in db.servers[id].banned)
            && (faults == {} && id in ids && user in db.servers[id].members && user !in db.servers[id].banned ==> id in next.clients[ws].topics))
  {
    if "server:" <= id && id in db.servers && db.servers[id].owner.Some? {
      assert id[0] == 's';
      ServerTopicsAreForMembers(db, faults, user, id);
    }
  }
}
