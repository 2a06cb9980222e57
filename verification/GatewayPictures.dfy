/** Every connected client's picture of everybody's presence is the right one. */
module GatewayPictures {
  import opened Wrappers
  import opened GatewayModel
  import opened GatewayRuns

  /** The status a frame reports of `user`; READY is complete, so an absent user is offline. */
  function Says(frame: Frame, user: string): Option<Status> {
    match frame
    case PresenceUpdate(about, shown) => if about == user then Some(shown.status) else None
    case Ready(_, presences) => Some(if user in presences then presences[user].status else Offline)
    case _ => None
  }

  ghost predicate Silent(batch: Batch, ws: Socket, user: string) {
    forall s :: s in batch && s.to == ws ==> Says(s.frame, user).None?
  }

  ghost predicate Tells(batch: Batch, ws: Socket, user: string, status: Status) {
    && !Silent(batch, ws, user)
    && forall s :: s in batch && s.to == ws && Says(s.frame, user).Some? ==> Says(s.frame, user) == Some(status)
  }

  /** The last thing that reached `ws` about `user` is `status`. */
  ghost predicate Picture(sent: seq<Batch>, ws: Socket, user: string, status: Status) {
    && sent != []
    && var n := |sent| - 1;
       if Silent(sent[n], ws, user) then Picture(sent[..n], ws, user, status)
       else Tells(sent[n], ws, user, status)
  }

  lemma PictureAfter(sent: seq<Batch>, batch: Batch, ws: Socket, user: string, status: Status)
    ensures Silent(batch, ws, user) ==> Picture(sent + [batch], ws, user, status) == Picture(sent, ws, user, status)
    ensures Tells(batch, ws, user, status) ==> Picture(sent + [batch], ws, user, status)
  {
    assert (sent + [batch])[..|sent|] == sent;
  }

  ghost predicate Watches(v: View, ws: Socket) {
    ws in v.clients && ws in v.open && v.clients[ws].userId.Some?
  }

  /** Each open identified socket has last been told the truth, as far as it may know it, about everyone. */
  ghost predicate PicturesTrue(v: View, sent: seq<Batch>) {
    forall ws, user :: Watches(v, ws) ==>
      Picture(sent, ws, user, v.StatusFor(v.clients[ws].userId.value, user))
  }

  lemma PresenceBatchTells(v: View, about: string, presence: Option<Presence>, ws: Socket, user: string)
    ensures user != about ==> Silent(v.PresenceBatch(about, presence), ws, user)
    ensures Watches(v, ws) ==>
              Tells(v.PresenceBatch(about, presence), ws, about,
                    PresenceShownTo(v.clients[ws].userId.value, about, presence).status)
  {
    if Watches(v, ws) {
      var reader := v.clients[ws].userId;
      var s := Sent(ws, reader, PresenceUpdate(about, PresenceShownTo(reader.value, about, presence)));
      assert s in v.PresenceBatch(about, presence);
      assert Says(s.frame, about).Some?;
    }
  }

  lemma ReadyTells(v: View, ws: Socket, did: string, other: Socket, about: string)
    requires ws in v.clients && v.UserOf(ws) == Some(did)
    ensures
      var ready := v.Deliver(ws, Ready(did, v.Snapshot(did)));
      && (other != ws ==> Silent(ready, other, about))
      && (other == ws && ws in v.open ==> Tells(ready, ws, about, v.StatusFor(did, about)))
  {
    if ws in v.open {
      var s := Sent(ws, Some(did), Ready(did, v.Snapshot(did)));
      assert s in v.Deliver(ws, Ready(did, v.Snapshot(did))) && Says(s.frame, about) == Some(v.StatusFor(did, about));
    }
  }

  lemma AdmitPictures(v: View, ws: Socket, did: string, user: UserRead, sent: seq<Batch>, other: Socket, about: string)
    requires ws in v.clients && PicturesTrue(v, sent)
    requires Watches(Admit(v, ws, did, user).view, other)
    ensures
      var o := Admit(v, ws, did, user);
      Picture(sent + o.sent, other, about, o.view.StatusFor(o.view.clients[other].userId.value, about))
  {
    hide Silent, Tells, Picture;
    var o := Admit(v, ws, did, user);
    var next := o.view;
    var reader := next.clients[other].userId.value;
    var truth := next.StatusFor(reader, about);
    var ready := next.Deliver(ws, Ready(did, next.Snapshot(did)));
    ReadyTells(next, ws, did, other, about);
    if other != ws {
      assert Watches(v, other) && v.clients[other].userId.value == reader;
      assert Picture(sent, other, about, v.StatusFor(reader, about));
      assert about != did || did in v.userSockets ==> truth == v.StatusFor(reader, about);
    }
    PictureAfter(sent, ready, other, about, truth);
    if did in v.userSockets {
      assert sent + o.sent == sent + [ready];
    } else {
      var news := next.PresenceBatch(did, Some(next.presences[did]));
      assert sent + o.sent == (sent + [ready]) + [news];
      PresenceBatchTells(next, did, Some(next.presences[did]), other, about);
      PictureAfter(sent + [ready], news, other, about, truth);
    }
  }

  lemma NewsPictures(v: View, next: View, did: string, presence: Option<Presence>, sent: seq<Batch>)
    requires PicturesTrue(v, sent)
    requires next.open == v.open && next.clients.Keys <= v.clients.Keys
    requires forall ws :: ws in next.clients ==> next.clients[ws].userId == v.clients[ws].userId
    requires forall u :: u != did ==> (u in next.presences <==> u in v.presences)
    requires forall u :: u != did && u in v.presences ==> next.presences[u] == v.presences[u]
    requires presence == if did in next.presences then Some(next.presences[did]) else None
    ensures PicturesTrue(next, sent + [v.PresenceBatch(did, presence)])
  {
    var news := v.PresenceBatch(did, presence);
    forall ws, user | Watches(next, ws)
      ensures Picture(sent + [news], ws, user, next.StatusFor(next.clients[ws].userId.value, user))
    {
      var truth := next.StatusFor(next.clients[ws].userId.value, user);
      PresenceBatchTells(v, did, presence, ws, user);
      PictureAfter(sent, news, ws, user, truth);
      if user != did {
        assert truth == v.StatusFor(v.clients[ws].userId.value, user);
      }
    }
  }

  /** Steps that leave presences and users alone and say nothing about anyone. */
  lemma QuietPictures(v: View, next: View, sent: seq<Batch>, more: seq<Batch>)
    requires PicturesTrue(v, sent)
    requires next.presences == v.presences && next.open * next.clients.Keys <= v.open + (set ws | ws in next.clients && next.clients[ws].userId.None?)
    requires forall ws :: ws in next.clients && next.clients[ws].userId.Some? ==>
               ws in v.clients && v.clients[ws].userId == next.clients[ws].userId
    requires forall b, ws, user :: b in more ==> Silent(b, ws, user)
    ensures PicturesTrue(next, sent + more)
    decreases |more|
  {
    if more == [] {
      assert sent + more == sent;
      forall ws, user | Watches(next, ws)
        ensures Picture(sent, ws, user, next.StatusFor(next.clients[ws].userId.value, user))
      {
        assert ws in next.open * next.clients.Keys;
        assert Watches(v, ws);
        var reader := next.clients[ws].userId.value;
        assert v.StatusFor(reader, user) == next.StatusFor(reader, user);
        assert v.clients[ws].userId.value == reader;
      }
    } else {
      var n := |more| - 1;
      QuietPictures(v, next, sent, more[..n]);
      assert sent + more == (sent + more[..n]) + [more[n]];
      forall ws, user | Watches(next, ws)
        ensures Picture(sent + more, ws, user, next.StatusFor(next.clients[ws].userId.value, user))
      {
        assert Silent(more[n], ws, user);
        PictureAfter(sent + more[..n], more[n], ws, user, next.StatusFor(next.clients[ws].userId.value, user));
      }
    }
  }

  lemma TopicBatchIsSilent(v: View, batches: seq<Batch>)
    requires forall b :: b in batches ==> forall s :: s in b ==> s.frame.TopicEvent?
    ensures forall b, ws, user :: b in batches ==> Silent(b, ws, user)
  {
  }

  lemma DisconnectPictures(v: View, ws: Socket, leftServer: Option<string>, sent: seq<Batch>)
    requires PicturesTrue(v, sent)
    ensures PicturesTrue(DisconnectStep(v, ws, leftServer).view, sent + DisconnectStep(v, ws, leftServer).sent)
  {
    var o := DisconnectStep(v, ws, leftServer);
    if o.sent == [] {
      QuietPictures(v, o.view, sent, []);
    } else {
      hide PicturesTrue, Silent;
      var did := v.UserOf(ws).value;
      var gone := v.(userSockets := v.userSockets - {did}, presences := v.presences - {did});
      assert gone.PresenceBatch(did, None) == v.PresenceBatch(did, None);
      NewsPictures(v, o.view, did, None, sent);
      var so := sent + [v.PresenceBatch(did, None)];
      TopicBatchIsSilent(gone, o.sent[1..]);
      QuietPictures(o.view, o.view, so, o.sent[1..]);
      assert sent + o.sent == so + o.sent[1..];
    }
  }

  lemma SetPresencePictures(v: View, ws: Socket, status: Option<StoredStatus>, text: Option<string>, emoji: Option<string>, sent: seq<Batch>)
    requires PicturesTrue(v, sent)
    ensures
      var o := SetPresenceStep(v, ws, status, text, emoji);
      PicturesTrue(o.view, sent + o.sent)
  {
    var o := SetPresenceStep(v, ws, status, text, emoji);
    if v.UserOf(ws).None? {
      assert sent + o.sent == sent;
    } else {
      var did := v.UserOf(ws).value;
      var news := Some(o.view.presences[did]);
      assert o.view.PresenceBatch(did, news) == v.PresenceBatch(did, news);
      NewsPictures(v, o.view, did, news, sent);
    }
  }

  lemma AdmitKeepsPictures(v: View, ws: Socket, did: string, user: UserRead, sent: seq<Batch>)
    requires ws in v.clients && PicturesTrue(v, sent)
    ensures PicturesTrue(Admit(v, ws, did, user).view, sent + Admit(v, ws, did, user).sent)
  {
    var o := Admit(v, ws, did, user);
    forall other, about | Watches(o.view, other)
      ensures Picture(sent + o.sent, other, about, o.view.StatusFor(o.view.clients[other].userId.value, about))
    {
      AdmitPictures(v, ws, did, user, sent, other, about);
    }
  }

  // ---- The one handler that can leave a picture wrong ----

  /** IDENTIFY assigns a new user id and then fails to load the user record: no READY is sent. */
  predicate Misnamed(v: View, e: Event) {
    match e
    case Identify(ws, Session(did), UserThrows) => ws in v.clients && v.UserOf(ws) != Some(did)
    case _ => false
  }

  predicate Hidden(v: View, user: string) {
    user in v.presences && v.presences[user].status == Invisible
  }

  /**
   * No socket is left with less or more than it may know: a failed IDENTIFY does no
   * harm on a closed socket, nor when the old and the new user see everyone alike.
   */
  predicate Informed(v: View, e: Event) {
    Misnamed(v, e) && e.ws in v.open ==>
      v.UserOf(e.ws).Some? && !Hidden(v, v.UserOf(e.ws).value) && !Hidden(v, e.session.did)
  }

  lemma OrderlyIsInformed(v: View, e: Event)
    requires Orderly(v, e)
    ensures Informed(v, e)
  {
  }

  lemma MisnamedPictures(v: View, e: Event, sent: seq<Batch>)
    requires Misnamed(v, e) && Informed(v, e) && PicturesTrue(v, sent)
    ensures PicturesTrue(Step(v, e).view, sent + Step(v, e).sent)
  {
    hide Silent, Tells, Picture;
    var o := Step(v, e);
    var error := o.view.Deliver(e.ws, ReadyError("auth_failed"));
    forall ws, user | Watches(o.view, ws)
      ensures Picture(sent + o.sent, ws, user, o.view.StatusFor(o.view.clients[ws].userId.value, user))
    {
      var truth := o.view.StatusFor(o.view.clients[ws].userId.value, user);
      assert Watches(v, ws) && truth == v.StatusFor(v.clients[ws].userId.value, user);
      assert Silent(error, ws, user) by {
        ErrorIsSilent(o.view, e.ws, ws, user);
      }
      PictureAfter(sent, error, ws, user, truth);
    }
  }

  lemma ErrorIsSilent(v: View, to: Socket, ws: Socket, user: string)
    ensures Silent(v.Deliver(to, ReadyError("auth_failed")), ws, user)
  {
  }

  lemma {:induction false} PictureIsUnique(sent: seq<Batch>, ws: Socket, user: string, a: Status, b: Status)
    requires Picture(sent, ws, user, a) && Picture(sent, ws, user, b)
    ensures a == b
  {
    var n := |sent| - 1;
    if Silent(sent[n], ws, user) {
      PictureIsUnique(sent[..n], ws, user, a, b);
    }
  }

  /** Nothing that reached `ws` said anything about anyone. */
  ghost predicate Untold(sent: seq<Batch>, ws: Socket) {
    forall i, user :: 0 <= i < |sent| ==> Silent(sent[i], ws, user)
  }

  lemma {:induction false} UntoldHasNoPicture(sent: seq<Batch>, ws: Socket, user: string, status: Status)
    requires Untold(sent, ws)
    ensures !Picture(sent, ws, user, status)
  {
    if sent != [] {
      var n := |sent| - 1;
      assert forall i, u :: 0 <= i < n ==> Silent(sent[..n][i], ws, u);
      UntoldHasNoPicture(sent[..n], ws, user, status);
    }
  }

  /** The condition is exact: any other failed IDENTIFY leaves its socket with a wrong picture, or none. */
  lemma UninformedBreaksPictures(v: View, e: Event, sent: seq<Batch>)
    requires PicturesTrue(v, sent) && !Informed(v, e)
    requires v.UserOf(e.ws).None? ==> Untold(sent, e.ws)
    ensures !PicturesTrue(Step(v, e).view, sent + Step(v, e).sent)
  {
    hide Silent, Tells, Picture, Untold;
    var o, ws, did := Step(v, e), e.ws, e.session.did;
    var error := o.view.Deliver(ws, ReadyError("auth_failed"));
    assert Watches(o.view, ws) && o.view.clients[ws].userId == Some(did) && o.sent == [error];
    var user := if v.UserOf(ws).Some? && Hidden(v, v.UserOf(ws).value) then v.UserOf(ws).value else did;
    var truth := o.view.StatusFor(did, user);
    ErrorIsSilent(o.view, ws, ws, user);
    PictureAfter(sent, error, ws, user, truth);
    if v.UserOf(ws).None? {
      UntoldHasNoPicture(sent, ws, user, truth);
    } else {
      var before := v.StatusFor(v.UserOf(ws).value, user);
      assert Watches(v, ws) && before != truth;
      if Picture(sent, ws, user, truth) {
        PictureIsUnique(sent, ws, user, before, truth);
      }
    }
    assert !Picture(sent + o.sent, ws, user, truth);
  }

  /** The handlers that change no presence and name nobody. */
  predicate Quiet(v: View, e: Event) {
    match e
    case Identify(ws, Session(did), user) => ws in v.clients ==> user.UserThrows? && v.UserOf(ws) == Some(did)
    case SetPresence(_, _, _, _) => false
    case Disconnect(_, _) => false
    case _ => true
  }

  lemma QuietStepSaysNothing(v: View, e: Event)
    requires Quiet(v, e)
    ensures forall b, ws, user :: b in Step(v, e).sent ==> Silent(b, ws, user)
  {
    forall b, ws, user | b in Step(v, e).sent ensures Silent(b, ws, user) {
    }
  }

  lemma QuietStepKeepsUsers(v: View, e: Event)
    requires Quiet(v, e)
    ensures
      var next := Step(v, e).view;
      && next.presences == v.presences
      && next.open * next.clients.Keys <= v.open + (set ws | ws in next.clients && next.clients[ws].userId.None?)
      && forall ws :: ws in next.clients && next.clients[ws].userId.Some? ==>
           ws in v.clients && v.clients[ws].userId == next.clients[ws].userId
  {
  }

  /** Every informed handler keeps the pictures, whatever state the maps are in. */
  lemma StepKeepsPictures(v: View, e: Event, sent: seq<Batch>)
    requires PicturesTrue(v, sent) && Informed(v, e)
    ensures PicturesTrue(Step(v, e).view, sent + Step(v, e).sent)
  {
    if Misnamed(v, e) {
      MisnamedPictures(v, e, sent);
    } else if Quiet(v, e) {
      QuietStepSaysNothing(v, e);
      QuietStepKeepsUsers(v, e);
      QuietPictures(v, Step(v, e).view, sent, Step(v, e).sent);
    } else {
      match e
      case Identify(ws, session, user) => AdmitKeepsPictures(v, ws, session.did, user, sent);
      case SetPresence(ws, status, text, emoji) => SetPresencePictures(v, ws, status, text, emoji, sent);
      case Disconnect(ws, leftServer) => DisconnectPictures(v, ws, leftServer, sent);
    }
  }

  // ---- Over whole runs ----

  ghost predicate InformedRun(v: View, events: seq<Event>) {
    forall i :: 0 <= i < |events| ==> Informed(Run(v, events[..i]).view, events[i])
  }

  /** Each connection is a socket object of its own. */
  ghost predicate NewSockets(events: seq<Event>) {
    forall i, j :: 0 <= i < j < |events| && events[i].Connect? && events[j].Connect? ==> events[i].ws != events[j].ws
  }

  ghost predicate PicturesTrueAfter(events: seq<Event>) {
    PicturesTrue(Run(Boot, events).view, Run(Boot, events).sent)
  }

  lemma IdentifyTellsUsers(v: View, ws: Socket, session: SessionRead, read: UserRead, i: nat, s: Sent, user: string)
    requires i < |IdentifyStep(v, ws, session, read).sent| && s in IdentifyStep(v, ws, session, read).sent[i]
    requires Says(s.frame, user).Some?
    ensures v.UserOf(s.to).Some? || IdentifyStep(v, ws, session, read).view.UserOf(s.to).Some?
  {
  }

  lemma DisconnectTellsUsers(v: View, ws: Socket, leftServer: Option<string>, i: nat, s: Sent, user: string)
    requires i < |DisconnectStep(v, ws, leftServer).sent| && s in DisconnectStep(v, ws, leftServer).sent[i]
    requires Says(s.frame, user).Some?
    ensures v.UserOf(s.to).Some?
  {
  }

  lemma OnlyUsersAreTold(v: View, e: Event, i: nat, s: Sent, user: string)
    requires i < |Step(v, e).sent| && s in Step(v, e).sent[i] && Says(s.frame, user).Some?
    ensures v.UserOf(s.to).Some? || Step(v, e).view.UserOf(s.to).Some?
  {
    hide IdentifyStep, DisconnectStep;
    match e
    case Identify(ws, session, read) => IdentifyTellsUsers(v, ws, session, read, i, s, user);
    case Disconnect(ws, leftServer) => DisconnectTellsUsers(v, ws, leftServer, i, s, user);
    case _ =>
  }

  lemma AnonymousStaysAnonymous(v: View, e: Event, ws: Socket)
    requires e != Connect(ws)
    ensures ws in Step(v, e).view.clients ==> ws in v.clients
    ensures ws in Step(v, e).view.clients && Step(v, e).view.UserOf(ws).None? ==> v.UserOf(ws).None?
    ensures ws !in v.clients ==> v.UserOf(ws).None? && Step(v, e).view.UserOf(ws).None?
  {
  }

  /** A socket that has not identified since it was opened has been told nothing. */
  lemma {:induction false} AnonymousIsUntold(events: seq<Event>, ws: Socket)
    requires NewSockets(events)
    ensures Connect(ws) !in events ==> ws !in Run(Boot, events).view.clients
    ensures (Connect(ws) !in events || (ws in Run(Boot, events).view.clients && Run(Boot, events).view.UserOf(ws).None?)) ==>
              Untold(Run(Boot, events).sent, ws)
  {
    if events != [] {
      var n := |events| - 1;
      var front, e := events[..n], events[n];
      var v, o := Run(Boot, front), Step(Run(Boot, front).view, e);
      assert events == front + [e];
      AnonymousIsUntold(front, ws);
      hide Step, Silent, Says;
      if e == Connect(ws) {
        assert Connect(ws) !in front;
        ConnectSaysNothing(v.view, ws);
      } else {
        AnonymousStaysAnonymous(v.view, e, ws);
        if Connect(ws) !in events || (ws in o.view.clients && o.view.UserOf(ws).None?) {
          StepTellsNothing(v.view, e, ws);
          assert Untold(v.sent + o.sent, ws);
        }
      }
    }
  }

  lemma ConnectSaysNothing(v: View, ws: Socket)
    ensures Step(v, Connect(ws)).sent == []
  {
  }

  lemma StepTellsNothing(v: View, e: Event, ws: Socket)
    requires v.UserOf(ws).None? && Step(v, e).view.UserOf(ws).None?
    ensures Untold(Step(v, e).sent, ws)
  {
    hide Step, Says;
    var sent := Step(v, e).sent;
    forall i, user | 0 <= i < |sent| ensures Silent(sent[i], ws, user) {
      forall s: Sent | s in sent[i] && s.to == ws ensures Says(s.frame, user).None? {
        if Says(s.frame, user).Some? {
          OnlyUsersAreTold(v, e, i, s, user);
        }
      }
    }
  }

  /** Over every informed run from boot, nobody's picture of anybody is stale. */
  lemma {:induction false} PicturesStayTrue(events: seq<Event>)
    requires InformedRun(Boot, events)
    ensures PicturesTrueAfter(events)
  {
    if events != [] {
      var n := |events| - 1;
      var front := events[..n];
      assert forall i :: 0 <= i < n ==> front[..i] == events[..i];
      assert InformedRun(Boot, front);
      PicturesStayTrue(front);
      assert Informed(Run(Boot, events[..n]).view, events[n]);
      StepKeepsPictures(Run(Boot, front).view, events[n], Run(Boot, front).sent);
    }
  }

  /**
   * On fresh sockets that is all there is to it: the pictures are right throughout a
   * run if and only if every handler of the run was informed.
   */
  lemma PicturesStayTrueExactly(events: seq<Event>)
    requires NewSockets(events)
    ensures (forall n :: 0 <= n <= |events| ==> PicturesTrueAfter(events[..n])) <==> InformedRun(Boot, events)
  {
    if InformedRun(Boot, events) {
      forall n | 0 <= n <= |events| ensures PicturesTrueAfter(events[..n]) {
        assert forall i :: 0 <= i < n ==> events[..n][..i] == events[..i];
        assert InformedRun(Boot, events[..n]);
        PicturesStayTrue(events[..n]);
      }
    } else {
      var i :| 0 <= i < |events| && !Informed(Run(Boot, events[..i]).view, events[i]);
      if PicturesTrueAfter(events[..i]) {
        FirstWrongPicture(events, i);
        assert !PicturesTrueAfter(events[..i + 1]);
      }
    }
  }

  lemma FirstWrongPicture(events: seq<Event>, i: nat)
    requires NewSockets(events) && i < |events|
    requires PicturesTrueAfter(events[..i]) && !Informed(Run(Boot, events[..i]).view, events[i])
    ensures !PicturesTrueAfter(events[..i + 1])
  {
    hide PicturesTrue, Step;
    var before := Run(Boot, events[..i]);
    assert events[..i + 1][..i] == events[..i] && events[..i + 1][i] == events[i];
    AnonymousIsUntold(events[..i], events[i].ws);
    UninformedBreaksPictures(before.view, events[i], before.sent);
  }

  /** The shortest such run: a first IDENTIFY whose user record fails to load. */
  lemma FailedReadLeavesNoPicture(ws: Socket, did: string)
    ensures !PicturesTrueAfter([Connect(ws), Identify(ws, Session(did), UserThrows)])
  {
    var events := [Connect(ws), Identify(ws, Session(did), UserThrows)];
    assert events[..0] == [] && events[..1] == [events[0]] && events[..2] == events && events[..1][..0] == [];
    PicturesStayTrue(events[..1]);
    FirstWrongPicture(events, 1);
  }
}
