/** What every run of the gateway keeps. */
module GatewayRuns {
  import opened Wrappers
  import opened GatewayModel

  /** The three maps agree: user sockets are exactly a scan of the clients. */
  ghost predicate Agree(v: View) {
    && (forall u :: u in v.userSockets ==> v.userSockets[u] == v.SocketsOf(u) && v.userSockets[u] != {})
    && (forall ws :: ws in v.clients && v.clients[ws].userId.Some? ==> v.clients[ws].userId.value in v.userSockets)
    && v.presences.Keys == v.userSockets.Keys
    && (forall ws :: ws in v.clients && v.clients[ws].userId.None? ==> v.clients[ws].topics == {})
  }

  /**
   * The two ways a handler can break the agreement, both in IDENTIFY: a socket that
   * already speaks for another DID, and a user record that fails to load after the
   * user id was assigned. (A connection is a socket object not identified before.)
   */
  predicate Orderly(v: View, e: Event) {
    match e
    case Connect(ws) => v.UserOf(ws).None?
    case Identify(ws, Session(did), user) =>
      ws in v.clients ==>
        if user.UserThrows? then v.UserOf(ws) == Some(did) else v.UserOf(ws) in {None, Some(did)}
    case _ => true
  }

  lemma AdmittedSockets(v: View, ws: Socket, did: string, user: UserRead, u: string)
    requires ws in v.clients && v.UserOf(ws) in {None, Some(did)}
    ensures Admit(v, ws, did, user).view.SocketsOf(u) == v.SocketsOf(u) + if u == did then {ws} else {}
  {
  }

  lemma RegisteredSockets(v: View, u: string)
    requires Agree(v)
    ensures v.SocketsOf(u) == if u in v.userSockets then v.userSockets[u] else {}
  {
    assert forall ws :: ws in v.SocketsOf(u) ==> v.clients[ws].userId.value in v.userSockets;
  }

  lemma AdmitRegisters(v: View, ws: Socket, did: string, user: UserRead)
    requires Agree(v) && ws in v.clients && v.UserOf(ws) in {None, Some(did)}
    ensures
      var next := Admit(v, ws, did, user).view;
      && next.presences.Keys == next.userSockets.Keys == v.userSockets.Keys + {did}
      && (forall u :: u in next.userSockets ==> next.userSockets[u] == (if u in v.userSockets then v.userSockets[u] else {}) + if u == did then {ws} else {})
  {
  }

  lemma AdmittedUsersAreRegistered(v: View, ws: Socket, did: string, user: UserRead)
    requires Agree(v) && ws in v.clients && v.UserOf(ws) in {None, Some(did)}
    ensures
      var next := Admit(v, ws, did, user).view;
      && (forall other :: other in next.clients && next.clients[other].userId.Some? ==>
            next.clients[other].userId.value in v.userSockets.Keys + {did})
      && (forall other :: other in next.clients && next.clients[other].userId.None? ==> next.clients[other].topics == {})
  {
  }

  lemma AdmitKeepsAgreement(v: View, ws: Socket, did: string, user: UserRead)
    requires Agree(v) && ws in v.clients && v.UserOf(ws) in {None, Some(did)}
    ensures Agree(Admit(v, ws, did, user).view)
  {
    hide Admit;
    AdmitRegisters(v, ws, did, user);
    AdmittedUsersAreRegistered(v, ws, did, user);
    var next := Admit(v, ws, did, user).view;
    forall u | u in next.userSockets
      ensures next.userSockets[u] == next.SocketsOf(u) && next.userSockets[u] != {}
    {
      AdmittedSockets(v, ws, did, user, u);
      RegisteredSockets(v, u);
      assert u == did ==> ws in next.userSockets[u];
    }
  }

  lemma AdmitElsewhereBreaksAgreement(v: View, ws: Socket, did: string, user: UserRead)
    requires Agree(v) && ws in v.clients && v.UserOf(ws).Some? && v.UserOf(ws) != Some(did)
    ensures !Agree(Admit(v, ws, did, user).view)
  {
    var next := Admit(v, ws, did, user).view;
    var old_ := v.UserOf(ws).value;
    assert ws in v.SocketsOf(old_) && ws !in next.SocketsOf(old_);
    assert next.userSockets[old_] == v.userSockets[old_];
  }

  lemma UnregisteredUserBreaksAgreement(v: View, ws: Socket, did: string)
    requires Agree(v) && ws in v.clients && v.UserOf(ws) != Some(did)
    ensures !Agree(v.(clients := v.clients[ws := v.clients[ws].(userId := Some(did))]))
  {
    var next := v.(clients := v.clients[ws := v.clients[ws].(userId := Some(did))]);
    assert ws in next.SocketsOf(did) && ws !in v.SocketsOf(did);
    if did in v.userSockets {
      assert next.userSockets[did] == v.SocketsOf(did);
    }
    assert next.clients[ws].userId.value == did;
  }

  lemma TopicChangesKeepAgreement(v: View, next: View)
    requires Agree(v)
    requires next.userSockets == v.userSockets && next.presences == v.presences
    requires next.clients.Keys == v.clients.Keys
    requires forall ws :: ws in v.clients ==> next.clients[ws].userId == v.clients[ws].userId
    requires forall ws :: ws in v.clients && v.clients[ws].userId.None? ==> next.clients[ws].topics <= v.clients[ws].topics
    ensures Agree(next)
  {
    forall u ensures next.SocketsOf(u) == v.SocketsOf(u) {
    }
  }

  lemma DisconnectKeepsAgreement(v: View, ws: Socket, leftServer: Option<string>)
    requires Agree(v)
    ensures Agree(DisconnectStep(v, ws, leftServer).view)
  {
    var next := DisconnectStep(v, ws, leftServer).view;
    forall u | u in next.userSockets
      ensures next.userSockets[u] == next.SocketsOf(u) && next.userSockets[u] != {}
    {
      assert next.SocketsOf(u) == v.SocketsOf(u) - {ws};
      assert v.userSockets[u] == v.SocketsOf(u);
    }
    forall other | other in next.clients && next.clients[other].userId.Some?
      ensures next.clients[other].userId.value in next.userSockets
    {
      var u := next.clients[other].userId.value;
      assert other in v.SocketsOf(u) && other != ws;
    }
  }

  lemma ConnectAndAgreement(v: View, ws: Socket)
    requires Agree(v)
    ensures Agree(Step(v, Connect(ws)).view) <==> v.UserOf(ws).None?
  {
    var next := Step(v, Connect(ws)).view;
    if v.UserOf(ws).None? {
      forall u ensures next.SocketsOf(u) == v.SocketsOf(u) {
      }
    } else {
      var u := v.UserOf(ws).value;
      assert ws in v.SocketsOf(u) && ws !in next.SocketsOf(u);
    }
  }

  lemma IdentifyAndAgreement(v: View, ws: Socket, session: SessionRead, user: UserRead)
    requires Agree(v)
    ensures Agree(IdentifyStep(v, ws, session, user).view) <==> Orderly(v, Identify(ws, session, user))
  {
    if ws in v.clients && session.Session? {
      if user.UserThrows? {
        if v.UserOf(ws) == Some(session.did) {
          TopicChangesKeepAgreement(v, IdentifyStep(v, ws, session, user).view);
        } else {
          UnregisteredUserBreaksAgreement(v, ws, session.did);
        }
      } else if v.UserOf(ws) in {None, Some(session.did)} {
        AdmitKeepsAgreement(v, ws, session.did, user);
      } else {
        AdmitElsewhereBreaksAgreement(v, ws, session.did, user);
      }
    }
  }

  lemma SetPresenceKeepsAgreement(v: View, ws: Socket, status: Option<StoredStatus>, text: Option<string>, emoji: Option<string>)
    requires Agree(v)
    ensures Agree(SetPresenceStep(v, ws, status, text, emoji).view)
  {
    var next := SetPresenceStep(v, ws, status, text, emoji).view;
    forall u ensures next.SocketsOf(u) == v.SocketsOf(u) {
    }
    if v.UserOf(ws).Some? {
      assert v.UserOf(ws).value in v.presences.Keys;
      assert next.presences.Keys == v.presences.Keys;
    }
  }

  /** A handler keeps the agreement of the three maps exactly when it is orderly. */
  lemma StepKeepsAgreement(v: View, e: Event)
    requires Agree(v)
    ensures Agree(Step(v, e).view) <==> Orderly(v, e)
  {
    hide Agree, IdentifyStep, DisconnectStep, SetPresenceStep;
    match e
    case Connect(ws) => ConnectAndAgreement(v, ws);
    case Identify(ws, session, user) => IdentifyAndAgreement(v, ws, session, user);
    case Disconnect(ws, leftServer) => DisconnectKeepsAgreement(v, ws, leftServer);
    case SetPresence(ws, status, text, emoji) => SetPresenceKeepsAgreement(v, ws, status, text, emoji);
    case _ => TopicChangesKeepAgreement(v, Step(v, e).view);
  }

  ghost predicate OrderlyRun(v: View, events: seq<Event>) {
    forall i :: 0 <= i < |events| ==> Orderly(Run(v, events[..i]).view, events[i])
  }

  lemma OrderlyPrefix(v: View, events: seq<Event>)
    requires OrderlyRun(v, events) && events != []
    ensures OrderlyRun(v, events[..|events| - 1])
    ensures Orderly(Run(v, events[..|events| - 1]).view, events[|events| - 1])
  {
    var front := events[..|events| - 1];
    forall i | 0 <= i < |front| ensures Orderly(Run(v, front[..i]).view, front[i]) {
      assert front[..i] == events[..i];
    }
  }

  lemma {:induction false} RunKeepsAgreement(v: View, events: seq<Event>)
    requires Agree(v) && OrderlyRun(v, events)
    ensures Agree(Run(v, events).view)
  {
    if events != [] {
      OrderlyPrefix(v, events);
      RunKeepsAgreement(v, events[..|events| - 1]);
      StepKeepsAgreement(Run(v, events[..|events| - 1]).view, events[|events| - 1]);
    }
  }

  /** The maps agree before the `n`th handler of a run. */
  ghost predicate AgreesAt(v: View, events: seq<Event>, n: nat)
    requires n <= |events|
  {
    Agree(Run(v, events[..n]).view)
  }

  /** Over runs that is all there is to it: the maps agree throughout if and only if the run is orderly. */
  lemma RunKeepsAgreementExactly(v: View, events: seq<Event>)
    requires Agree(v)
    ensures (forall n :: 0 <= n <= |events| ==> AgreesAt(v, events, n)) <==> OrderlyRun(v, events)
  {
    hide Agree, Orderly, Step;
    if OrderlyRun(v, events) {
      forall n | 0 <= n <= |events| ensures AgreesAt(v, events, n) {
        assert forall i :: 0 <= i < n ==> events[..n][..i] == events[..i];
        RunKeepsAgreement(v, events[..n]);
      }
    } else {
      var i :| 0 <= i < |events| && !Orderly(Run(v, events[..i]).view, events[i]);
      if AgreesAt(v, events, i) {
        StepKeepsAgreement(Run(v, events[..i]).view, events[i]);
        RunOneMore(v, events, i);
        assert !AgreesAt(v, events, i + 1);
      }
    }
  }

  lemma RunOneMore(v: View, events: seq<Event>, i: nat)
    requires i < |events|
    ensures
      var before := Run(v, events[..i]);
      var last := Step(before.view, events[i]);
      Run(v, events[..i + 1]) == Outcome(last.view, before.sent + last.sent)
  {
    hide Step;
    assert events[..i + 1][..i] == events[..i];
  }

  /** So `emitToUser` reaches what a scan of all clients would, and `publicStatus` tells who is here. */
  lemma AgreementMeans(v: View, user: string, body: string)
    requires Agree(v)
    ensures v.UserBatch(user, body)
            == set ws | ws in v.clients && v.clients[ws].userId == Some(user) && ws in v.open :: Sent(ws, Some(user), UserEvent(body))
    ensures v.PublicStatus(user) == Offline <==>
            v.SocketsOf(user) == {} || v.presences[user].status == Invisible
  {
    assert forall ws :: ws in v.SocketsOf(user) ==> v.clients[ws].userId.value in v.userSockets;
    if user !in v.userSockets {
      assert v.SocketsOf(user) == {};
    }
  }

  // ---- Invisible users ----

  /** A frame that `reader` may be shown: nobody else in it is marked invisible. */
  predicate Discreet(reader: Option<string>, frame: Frame) {
    match frame
    case PresenceUpdate(about, shown) =>
      shown.status == Invisible ==> reader == Some(about)
    case Ready(userId, presences) =>
      reader == Some(userId) && forall u :: u in presences && presences[u].status == Invisible ==> u == userId
    case _ => true
  }

  lemma IdentifyIsDiscreet(v: View, ws: Socket, session: SessionRead, user: UserRead, i: nat, s: Sent)
    requires i < |IdentifyStep(v, ws, session, user).sent| && s in IdentifyStep(v, ws, session, user).sent[i]
    ensures Discreet(s.recipient, s.frame)
  {
  }

  lemma DisconnectIsDiscreet(v: View, ws: Socket, leftServer: Option<string>, i: nat, s: Sent)
    requires i < |DisconnectStep(v, ws, leftServer).sent| && s in DisconnectStep(v, ws, leftServer).sent[i]
    ensures Discreet(s.recipient, s.frame)
  {
  }

  lemma StepIsDiscreet(v: View, e: Event, i: nat, s: Sent)
    requires i < |Step(v, e).sent| && s in Step(v, e).sent[i]
    ensures Discreet(s.recipient, s.frame)
  {
    hide IdentifyStep, DisconnectStep;
    match e
    case Identify(ws, session, user) => IdentifyIsDiscreet(v, ws, session, user, i, s);
    case Disconnect(ws, leftServer) => DisconnectIsDiscreet(v, ws, leftServer, i, s);
    case _ =>
  }

  /** Over every run whatsoever, no frame carries the status `invisible` of anyone but its reader. */
  lemma {:induction false} RunIsDiscreet(v: View, events: seq<Event>, i: nat, s: Sent)
    requires i < |Run(v, events).sent| && s in Run(v, events).sent[i]
    ensures Discreet(s.recipient, s.frame)
  {
    if events != [] {
      var before := Run(v, events[..|events| - 1]);
      if i < |before.sent| {
        RunIsDiscreet(v, events[..|events| - 1], i, s);
      } else {
        StepIsDiscreet(before.view, events[|events| - 1], i - |before.sent|, s);
      }
    }
  }

  /** A broadcast about a user looks to others as if the user had just gone offline exactly when it is invisible. */
  lemma BroadcastHidesInvisible(reader: string, user: string, presence: Presence)
    requires user != reader
    ensures PresenceShownTo(reader, user, Some(presence)) == PresenceShownTo(reader, user, None) <==> presence.status == Invisible
  {
  }

  /**
   * READY hides the status alone. To another user it is what it would be with `user`
   * offline only if `user` is offline; being invisible shows as an entry with status
   * offline, which no other presence gives.
   */
  lemma ReadyGivesInvisibleAway(v: View, reader: string, user: string)
    requires user != reader
    ensures v.Snapshot(reader) == v.(presences := v.presences - {user}).Snapshot(reader) <==> user !in v.presences
    ensures user in v.Snapshot(reader) && v.Snapshot(reader)[user].status == Offline
            <==> user in v.presences && v.presences[user].status == Invisible
    ensures user in v.presences ==>
              v.Snapshot(reader)[user].text == v.presences[user].text && v.Snapshot(reader)[user].emoji == v.presences[user].emoji
  {
    var gone := v.(presences := v.presences - {user});
    if user in v.presences {
      assert user in v.Snapshot(reader) && user !in gone.Snapshot(reader);
    } else {
      assert gone.presences == v.presences;
    }
  }

  // ---- Eviction ----

  /** No socket that speaks for `user` holds any of `topics`. */
  ghost predicate Stripped(v: View, user: string, topics: set<string>) {
    forall ws :: ws in v.clients && v.clients[ws].userId == Some(user) ==> v.clients[ws].topics * topics == {}
  }

  /** The sockets that an eviction visits: those registered for the user. */
  function Registered(v: View, user: string): set<Socket> {
    if user in v.userSockets then v.userSockets[user] else {}
  }

  /**
   * In any state, eviction takes exactly the topics off the registered sockets and
   * touches nothing else; so it strips the user if and only if every client of the user
   * is registered or holds none of the topics.
   */
  lemma EvictionStrips(v: View, did: string, server: string, channels: set<string>, voice: Option<(string, string)>)
    ensures
      var next, topics := Step(v, Evict(did, server, channels, voice)).view, {server} + channels;
      && next.clients.Keys == v.clients.Keys
      && (forall ws :: ws in v.clients ==>
            next.clients[ws] == if ws in Registered(v, did) then v.clients[ws].(topics := v.clients[ws].topics - topics) else v.clients[ws])
      && (Stripped(next, did, topics) <==>
            forall ws :: ws in v.clients && v.clients[ws].userId == Some(did) ==> ws in Registered(v, did) || v.clients[ws].topics * topics == {})
  {
    var next, topics := Step(v, Evict(did, server, channels, voice)).view, {server} + channels;
    forall ws | ws in v.clients && v.clients[ws].userId == Some(did)
      ensures next.clients[ws].topics * topics == {} <==> ws in Registered(v, did) || v.clients[ws].topics * topics == {}
    {
      assert next.clients[ws].userId == Some(did);
    }
  }

  /** Where the maps agree, those sockets are exactly the user's clients, so eviction always strips. */
  lemma AgreedEvictionStrips(v: View, did: string, server: string, channels: set<string>, voice: Option<(string, string)>)
    requires Agree(v)
    ensures
      var next, topics := Step(v, Evict(did, server, channels, voice)).view, {server} + channels;
      && Stripped(next, did, topics)
      && (forall ws :: ws in v.clients ==>
            next.clients[ws] == if v.clients[ws].userId == Some(did)
                                then ClientState(Some(did), v.clients[ws].topics - topics)
                                else v.clients[ws])
  {
    EvictionStrips(v, did, server, channels, voice);
    RegisteredSockets(v, did);
    assert forall ws :: ws in v.clients ==> (ws in v.SocketsOf(did) <==> v.clients[ws].userId == Some(did));
  }

  /** The step hands the user a socket with one of `topics`: a grant, or an IDENTIFY on a socket that holds one. */
  predicate Regrants(v: View, e: Event, user: string, topics: set<string>) {
    match e
    case Subscribe(ws, granted) => v.UserOf(ws) == Some(user) && granted * topics != {}
    case JoinVoice(ws, channel, server) => v.UserOf(ws) == Some(user) && JoinedTopics(channel, server) * topics != {}
    case Identify(ws, Session(did), _) => did == user && ws in v.clients && v.clients[ws].topics * topics != {}
    case _ => false
  }

  /** `next` is `v` with `ws` given to `did`. */
  lemma NamingAndStripped(v: View, ws: Socket, did: string, next: View, user: string, topics: set<string>)
    requires Stripped(v, user, topics) && ws in v.clients
    requires next.clients == v.clients[ws := v.clients[ws].(userId := Some(did))]
    ensures Stripped(next, user, topics) <==> !(did == user && v.clients[ws].topics * topics != {})
  {
    if did == user && v.clients[ws].topics * topics != {} {
      assert next.clients[ws].userId == Some(user) && next.clients[ws].topics * topics != {};
    } else {
      forall other | other in next.clients && next.clients[other].userId == Some(user)
        ensures next.clients[other].topics * topics == {}
      {
        if other == ws {
          assert next.clients[ws].topics * topics == {};
        } else {
          assert next.clients[other] == v.clients[other];
        }
      }
    }
  }

  lemma GrantAndStripped(v: View, ws: Socket, granted: set<string>, user: string, topics: set<string>)
    requires Stripped(v, user, topics) && v.UserOf(ws).Some?
    ensures Stripped(v.GrantTopics(ws, granted), user, topics) <==> !(v.UserOf(ws) == Some(user) && granted * topics != {})
  {
    var next := v.GrantTopics(ws, granted);
    if v.UserOf(ws) == Some(user) {
      assert next.clients[ws].topics * topics == v.clients[ws].topics * topics + granted * topics;
      assert next.clients[ws].userId == Some(user);
    }
  }

  lemma IdentifyAndStripped(v: View, ws: Socket, session: SessionRead, read: UserRead, user: string, topics: set<string>)
    requires Stripped(v, user, topics)
    ensures Stripped(IdentifyStep(v, ws, session, read).view, user, topics)
            <==> !Regrants(v, Identify(ws, session, read), user, topics)
  {
    if ws in v.clients && session.Session? {
      NamingAndStripped(v, ws, session.did, IdentifyStep(v, ws, session, read).view, user, topics);
    }
  }

  lemma DisconnectKeepsStripped(v: View, ws: Socket, leftServer: Option<string>, user: string, topics: set<string>)
    requires Stripped(v, user, topics)
    ensures Stripped(DisconnectStep(v, ws, leftServer).view, user, topics)
  {
  }

  lemma SetPresenceKeepsStripped(v: View, e: Event, user: string, topics: set<string>)
    requires Stripped(v, user, topics) && e.SetPresence?
    ensures Stripped(Step(v, e).view, user, topics)
  {
  }

  /** In any state, a step lets a stripped user back on the topics exactly when it regrants one. */
  lemma StepKeepsStripped(v: View, e: Event, user: string, topics: set<string>)
    requires Stripped(v, user, topics)
    ensures Stripped(Step(v, e).view, user, topics) <==> !Regrants(v, e, user, topics)
  {
    hide IdentifyStep, DisconnectStep, SetPresenceStep;
    match e
    case Identify(ws, session, read) => IdentifyAndStripped(v, ws, session, read, user, topics);
    case Disconnect(ws, leftServer) => DisconnectKeepsStripped(v, ws, leftServer, user, topics);
    case SetPresence(ws, status, text, emoji) => SetPresenceKeepsStripped(v, e, user, topics);
    case Subscribe(ws, granted) =>
      if v.UserOf(ws).Some? {
        GrantAndStripped(v, ws, granted, user, topics);
      }
    case JoinVoice(ws, channel, server) =>
      if v.UserOf(ws).Some? {
        GrantAndStripped(v, ws, JoinedTopics(channel, server), user, topics);
      }
    case _ =>
  }

  /** Topic events reach subscribers of the view before or after the step only. */
  lemma TopicEventsReachSubscribers(v: View, e: Event, i: nat, s: Sent)
    requires i < |Step(v, e).sent| && s in Step(v, e).sent[i] && s.frame.TopicEvent?
    ensures
      var next := Step(v, e).view;
      || (s.to in v.clients && s.frame.topic in v.clients[s.to].topics && s.recipient == v.clients[s.to].userId)
      || (s.to in next.clients && s.frame.topic in next.clients[s.to].topics && s.recipient == next.clients[s.to].userId)
  {
  }

  lemma StrippedHearsNothing(v: View, e: Event, user: string, topics: set<string>, i: nat, s: Sent)
    requires Stripped(v, user, topics) && !Regrants(v, e, user, topics)
    requires i < |Step(v, e).sent| && s in Step(v, e).sent[i]
    requires s.frame.TopicEvent? && s.frame.topic in topics
    ensures s.recipient != Some(user)
  {
    hide Step, Regrants;
    StepKeepsStripped(v, e, user, topics);
    TopicEventsReachSubscribers(v, e, i, s);
    OffTheTopic(v, user, topics, s.frame.topic);
    OffTheTopic(Step(v, e).view, user, topics, s.frame.topic);
  }

  lemma OffTheTopic(v: View, user: string, topics: set<string>, topic: string)
    requires Stripped(v, user, topics) && topic in topics
    ensures forall ws :: ws in v.clients && v.clients[ws].userId == Some(user) ==> topic !in v.clients[ws].topics
  {
    forall ws | ws in v.clients && v.clients[ws].userId == Some(user) ensures topic !in v.clients[ws].topics {
      assert topic !in v.clients[ws].topics * topics;
    }
  }

  ghost predicate NoRegrant(v: View, events: seq<Event>, user: string, topics: set<string>) {
    forall i :: 0 <= i < |events| ==> !Regrants(Run(v, events[..i]).view, events[i], user, topics)
  }

  /** No topic event on `topics` among the frames was handed to the user. */
  ghost predicate NothingHeard(sent: seq<Batch>, user: string, topics: set<string>) {
    forall i, s :: 0 <= i < |sent| && s in sent[i] && s.frame.TopicEvent? && s.frame.topic in topics ==> s.recipient != Some(user)
  }

  lemma NothingHeardAppends(a: seq<Batch>, b: seq<Batch>, user: string, topics: set<string>)
    requires NothingHeard(a, user, topics) && NothingHeard(b, user, topics)
    ensures NothingHeard(a + b, user, topics)
  {
  }

  lemma StepIsNotHeard(v: View, e: Event, user: string, topics: set<string>)
    requires Stripped(v, user, topics) && !Regrants(v, e, user, topics)
    ensures NothingHeard(Step(v, e).sent, user, topics)
  {
    hide Step, Stripped, Regrants;
    var sent := Step(v, e).sent;
    forall i, s: Sent | 0 <= i < |sent| && s in sent[i] && s.frame.TopicEvent? && s.frame.topic in topics
      ensures s.recipient != Some(user)
    {
      StrippedHearsNothing(v, e, user, topics, i, s);
    }
  }

  /** In any run without a regrant a stripped user stays off the topics and hears nothing on them. */
  lemma {:induction false} RunKeepsStripped(v: View, events: seq<Event>, user: string, topics: set<string>)
    requires Stripped(v, user, topics) && NoRegrant(v, events, user, topics)
    ensures Stripped(Run(v, events).view, user, topics)
    ensures NothingHeard(Run(v, events).sent, user, topics)
  {
    if events != [] {
      var n := |events| - 1;
      var front := events[..n];
      assert forall i :: 0 <= i < n ==> front[..i] == events[..i] && front[i] == events[i];
      assert !Regrants(Run(v, events[..n]).view, events[n], user, topics);
      hide Step, Stripped, Regrants, NothingHeard;
      RunKeepsStripped(v, front, user, topics);
      var before := Run(v, front);
      StepKeepsStripped(before.view, events[n], user, topics);
      StepIsNotHeard(before.view, events[n], user, topics);
      NothingHeardAppends(before.sent, Step(before.view, events[n]).sent, user, topics);
    }
  }

  ghost predicate StrippedAt(v: View, events: seq<Event>, n: nat, user: string, topics: set<string>)
    requires n <= |events|
  {
    Stripped(Run(v, events[..n]).view, user, topics)
  }

  /** A stripped user stays stripped throughout a run if and only if nothing in it regrants. */
  lemma RunKeepsStrippedExactly(v: View, events: seq<Event>, user: string, topics: set<string>)
    requires Stripped(v, user, topics)
    ensures (forall n :: 0 <= n <= |events| ==> StrippedAt(v, events, n, user, topics)) <==> NoRegrant(v, events, user, topics)
  {
    hide Step, Stripped, Regrants;
    if NoRegrant(v, events, user, topics) {
      forall n | 0 <= n <= |events| ensures StrippedAt(v, events, n, user, topics) {
        assert forall i :: 0 <= i < n ==> events[..n][..i] == events[..i];
        RunKeepsStripped(v, events[..n], user, topics);
      }
    } else {
      var i :| 0 <= i < |events| && Regrants(Run(v, events[..i]).view, events[i], user, topics);
      if StrippedAt(v, events, i, user, topics) {
        StepKeepsStripped(Run(v, events[..i]).view, events[i], user, topics);
        RunOneMore(v, events, i);
        assert !StrippedAt(v, events, i + 1, user, topics);
      }
    }
  }

  /**
   * After an eviction in any state whose clients of the user were registered or held
   * none of the topics, nothing on those topics reaches the user in any later run,
   * until a SUBSCRIBE, a voice join or an IDENTIFY gives it a socket with one of them.
   */
  lemma EvictedHearsNothing(v: View, did: string, server: string, channels: set<string>, voice: Option<(string, string)>,
                            later: seq<Event>, i: nat, s: Sent)
    requires forall ws :: ws in v.clients && v.clients[ws].userId == Some(did) ==>
               ws in Registered(v, did) || v.clients[ws].topics * ({server} + channels) == {}
    requires
      var next := Step(v, Evict(did, server, channels, voice)).view;
      && NoRegrant(next, later, did, {server} + channels)
      && i < |Run(next, later).sent| && s in Run(next, later).sent[i]
    requires s.frame.TopicEvent? && s.frame.topic in {server} + channels
    ensures s.recipient != Some(did)
  {
    var next := Step(v, Evict(did, server, channels, voice)).view;
    EvictionStrips(v, did, server, channels, voice);
    RunKeepsStripped(next, later, did, {server} + channels);
  }

  /**
   * The condition fails in a run of the gateway: a socket whose IDENTIFY loaded no user
   * record subscribes all the same, is not registered, and goes on hearing the topic
   * its user was evicted from.
   */
  lemma EvictionMissesUnregisteredSockets(ws: Socket, did: string, topic: string, body: string)
    ensures
      var evicted := [Connect(ws), Identify(ws, Session(did), UserThrows), Subscribe(ws, {topic}), Evict(did, topic, {}, None)];
      && !Stripped(Run(Boot, evicted).view, did, {topic})
      && Sent(ws, Some(did), TopicEvent(topic, body)) in Step(Run(Boot, evicted).view, EmitTopic(topic, body, None)).sent[0]
  {
    var evicted := [Connect(ws), Identify(ws, Session(did), UserThrows), Subscribe(ws, {topic}), Evict(did, topic, {}, None)];
    assert evicted[..4] == evicted && evicted[..0] == [];
    RunNothing(Boot);
    hide Step, Stripped, Run;
    FirstSteps(ws, did);
    LastSteps(ws, did, topic);
    RunOneMore(Boot, evicted, 0);
    RunOneMore(Boot, evicted, 1);
    RunOneMore(Boot, evicted, 2);
    RunOneMore(Boot, evicted, 3);
    ListenerHears(ws, did, topic, body);
  }

  lemma RunNothing(v: View)
    ensures Run(v, []) == Outcome(v, [])
  {
  }

  /** A gateway with one open socket. */
  function OneClient(ws: Socket, user: Option<string>, topics: set<string>): View {
    View(map[ws := ClientState(user, topics)], map[], map[], {ws})
  }

  lemma FirstSteps(ws: Socket, did: string)
    ensures Step(Boot, Connect(ws)).view == OneClient(ws, None, {})
    ensures Step(OneClient(ws, None, {}), Identify(ws, Session(did), UserThrows)).view == OneClient(ws, Some(did), {})
  {
  }

  lemma LastSteps(ws: Socket, did: string, topic: string)
    ensures Step(OneClient(ws, Some(did), {}), Subscribe(ws, {topic})).view == OneClient(ws, Some(did), {topic})
    ensures Step(OneClient(ws, Some(did), {topic}), Evict(did, topic, {}, None)).view == OneClient(ws, Some(did), {topic})
  {
    assert {} + {topic} == {topic};
  }

  lemma ListenerHears(ws: Socket, did: string, topic: string, body: string)
    ensures !Stripped(OneClient(ws, Some(did), {topic}), did, {topic})
    ensures Sent(ws, Some(did), TopicEvent(topic, body)) in Step(OneClient(ws, Some(did), {topic}), EmitTopic(topic, body, None)).sent[0]
  {
    var v := OneClient(ws, Some(did), {topic});
    assert topic in v.clients[ws].topics * {topic};
  }
}
