/** Single-use tokens with expiry: OAuth state strings and bridge tokens. Times are in milliseconds. */
module AuthTokens {
  import opened Wrappers
  import opened Encoding

  const STATE_TTL_MS: int := 10 * 60 * 1000
  const STATE_REPLAY_TTL_MS: int := 11 * 60 * 1000
  const BRIDGE_TTL_MS: int := 2 * 60 * 1000

  /** The JSON body of a state token. */
  datatype StatePayload = StatePayload(r: string, t: int, inst: string, redirect: Option<string>)

  /** What a verified state gives back. */
  datatype Granted = Granted(inst: string, redirect: Option<string>)

  /** JSON with base64url, the keyed hash in base64url, and the lenient decoder of signatures. */
  datatype TokenLib = TokenLib(encode: StatePayload -> string, decode: string -> Option<StatePayload>,
                               mac: string -> string, signatureBytes: string -> Bytes)

  ghost predicate Lawful(lib: TokenLib) {
    && (forall p :: lib.decode(lib.encode(p)) == Some(p))
    && (forall p :: '.' !in lib.encode(p))
    && (forall s :: '.' !in lib.mac(s))
  }

  // ---- State tokens ----

  function FirstDot(s: string): (n: nat)
    ensures n <= |s|
    ensures forall i :: 0 <= i < n ==> s[i] != '.'
    ensures n < |s| ==> s[n] == '.'
  {
    if s == "" || s[0] == '.' then 0 else 1 + FirstDot(s[1..])
  }

  /** `token.split('.')`, when that gives exactly two parts. */
  function SplitToken(token: string): Option<(string, string)> {
    var n := FirstDot(token);
    if n < |token| && '.' !in token[n + 1..] then Some((token[..n], token[n + 1..])) else None
  }

  /** The checks that do not look at the clock: shape, signature and a usable payload. */
  function Genuine(lib: TokenLib, token: string): Option<StatePayload> {
    match SplitToken(token)
    case None => None
    case Some((encoded, sig)) =>
      if lib.signatureBytes(sig) != lib.signatureBytes(lib.mac(encoded)) then None
      else
        match lib.decode(encoded)
        case None => None
        case Some(p) => if p.t == 0 || p.inst == "" then None else Some(p)
  }

  type Seen = map<string, int>

  function CleanSeen(seen: Seen, now: int): Seen {
    map k | k in seen && !(seen[k] < now - STATE_REPLAY_TTL_MS) :: seen[k]
  }

  /** Would `token` be accepted at `now`? */
  predicate Accepts(lib: TokenLib, seen: Seen, token: string, now: int) {
    && Genuine(lib, token).Some?
    && now - Genuine(lib, token).value.t <= STATE_TTL_MS
    && token !in CleanSeen(seen, now)
  }

  function SeenAfter(lib: TokenLib, seen: Seen, token: string, now: int): Seen {
    if Genuine(lib, token).None? || now - Genuine(lib, token).value.t > STATE_TTL_MS then seen
    else if token in CleanSeen(seen, now) then CleanSeen(seen, now)
    else CleanSeen(seen, now)[token := now]
  }

  // ---- Bridge tokens ----

  datatype BridgeEntry = BridgeEntry(sessionId: string, createdAt: int)

  type Bridges = map<string, BridgeEntry>

  function CleanBridges(bridges: Bridges, now: int): Bridges {
    map k | k in bridges && !(bridges[k].createdAt < now - BRIDGE_TTL_MS) :: bridges[k]
  }

  datatype BridgeEvent = Issue(token: string, sessionId: string, now: int) | Consume(token: string, now: int)

  function BridgeStep(bridges: Bridges, e: BridgeEvent): Bridges {
    match e
    case Issue(token, sessionId, now) => CleanBridges(bridges, now)[token := BridgeEntry(sessionId, now)]
    case Consume(token, now) => CleanBridges(bridges, now) - {token}
  }

  function BridgeResult(bridges: Bridges, token: string, now: int): Option<string> {
    var kept := CleanBridges(bridges, now);
    if token in kept && now - kept[token].createdAt <= BRIDGE_TTL_MS then Some(kept[token].sessionId) else None
  }

  class AuthService {
    var seenStates: Seen
    var bridgeTokens: Bridges

    /** `random` is the fresh nonce and `now` the clock. */
    method IssueOAuthState(lib: TokenLib, random: string, inst: string, redirect: Option<string>, now: int) returns (token: string)
      ensures Lawful(lib) && now != 0 && inst != "" ==>
                Genuine(lib, token) == Some(StatePayload(random, now, inst, if redirect == Some("") then None else redirect))
    {
      var body := StatePayload(random, now, inst, if redirect == Some("") then None else redirect);
      var encoded := lib.encode(body);
      token := encoded + "." + lib.mac(encoded);
      if Lawful(lib) {
        SplitJoined(encoded, lib.mac(encoded));
      }
    }

    method VerifyOAuthState(lib: TokenLib, token: string, now: int) returns (r: Option<Granted>)
      modifies this`seenStates
      ensures r.Some? <==> Accepts(lib, old(seenStates), token, now)
      ensures r.Some? ==> r.value == Granted(Genuine(lib, token).value.inst, Genuine(lib, token).value.redirect)
      ensures seenStates == SeenAfter(lib, old(seenStates), token, now)
    {
      var payload := Genuine(lib, token);
      if payload.None? {
        return None;
      }
      if now - payload.value.t > STATE_TTL_MS {
        return None;
      }
      CleanSeenStates(now);
      if token in seenStates {
        return None;
      }
      seenStates := seenStates[token := now];
      return Some(Granted(payload.value.inst, payload.value.redirect));
    }

    method CleanSeenStates(now: int)
      modifies this`seenStates
      ensures seenStates == CleanSeen(old(seenStates), now)
    {
      var cutoff := now - STATE_REPLAY_TTL_MS;
      ghost var before := seenStates;
      var pending := seenStates.Keys;
      while pending != {}
        invariant pending <= before.Keys
        invariant seenStates == map k | k in before && (k in pending || !(before[k] < cutoff)) :: before[k]
        decreases pending
      {
        var k :| k in pending;
        if seenStates[k] < cutoff {
          seenStates := seenStates - {k};
        }
        pending := pending - {k};
      }
    }

    /** `token` is what the random source hands out. */
    method IssueBridgeToken(token: string, sessionId: string, now: int)
      modifies this`bridgeTokens
      ensures bridgeTokens == BridgeStep(old(bridgeTokens), Issue(token, sessionId, now))
    {
      CleanBridgeTokens(now);
      bridgeTokens := bridgeTokens[token := BridgeEntry(sessionId, now)];
    }

    method ConsumeBridgeToken(token: string, now: int) returns (r: Option<string>)
      modifies this`bridgeTokens
      ensures r == BridgeResult(old(bridgeTokens), token, now)
      ensures bridgeTokens == BridgeStep(old(bridgeTokens), Consume(token, now))
    {
      CleanBridgeTokens(now);
      if token !in bridgeTokens {
        assert bridgeTokens - {token} == bridgeTokens;
        return None;
      }
      var entry := bridgeTokens[token];
      bridgeTokens := bridgeTokens - {token};
      if now - entry.createdAt > BRIDGE_TTL_MS {
        return None;
      }
      return Some(entry.sessionId);
    }

    method CleanBridgeTokens(now: int)
      modifies this`bridgeTokens
      ensures bridgeTokens == CleanBridges(old(bridgeTokens), now)
    {
      var cutoff := now - BRIDGE_TTL_MS;
      ghost var before := bridgeTokens;
      var pending := bridgeTokens.Keys;
      while pending != {}
        invariant pending <= before.Keys
        invariant bridgeTokens == map k | k in before && (k in pending || !(before[k].createdAt < cutoff)) :: before[k]
        decreases pending
      {
        var k :| k in pending;
        if bridgeTokens[k].createdAt < cutoff {
          bridgeTokens := bridgeTokens - {k};
        }
        pending := pending - {k};
      }
    }
  }

  lemma SplitJoined(encoded: string, sig: string)
    requires '.' !in encoded && '.' !in sig
    ensures SplitToken(encoded + "." + sig) == Some((encoded, sig))
  {
    var token := encoded + "." + sig;
    var n := FirstDot(token);
    assert token[|encoded|] == '.';
    assert forall i :: 0 <= i < |encoded| ==> token[i] == encoded[i] && encoded[i] in encoded;
    assert n == |encoded|;
    assert token[..n] == encoded && token[n + 1..] == sig;
  }

  // ---- Single use of state tokens ----

  datatype Attempt = Attempt(token: string, now: int)

  function SeenRun(lib: TokenLib, seen: Seen, run: seq<Attempt>): Seen {
    if run == [] then seen
    else SeenAfter(lib, SeenRun(lib, seen, run[..|run| - 1]), run[|run| - 1].token, run[|run| - 1].now)
  }

  ghost predicate ClockAdvances(run: seq<Attempt>) {
    forall i, j :: 0 <= i < j < |run| ==> run[i].now <= run[j].now
  }

  /** Attempt `i` of the run is accepted. */
  predicate AcceptedAt(lib: TokenLib, seen: Seen, run: seq<Attempt>, i: nat)
    requires i < |run|
  {
    Accepts(lib, SeenRun(lib, seen, run[..i]), run[i].token, run[i].now)
  }

  /** An accepted token stays on record until the clock has passed its replay window. */
  lemma {:induction false} AcceptedIsRemembered(lib: TokenLib, seen: Seen, run: seq<Attempt>, i: nat, n: nat)
    requires ClockAdvances(run) && i < n <= |run| && AcceptedAt(lib, seen, run, i)
    ensures
      var after := SeenRun(lib, seen, run[..n]);
      || (run[i].token in after && after[run[i].token] >= run[i].now)
      || run[n - 1].now > run[i].now + STATE_REPLAY_TTL_MS
  {
    hide Genuine;
    assert run[..n][..n - 1] == run[..n - 1];
    if i < n - 1 {
      AcceptedIsRemembered(lib, seen, run, i, n - 1);
    }
  }

  /**
   * In any run on a clock that does not go back, a state token whose issue time is at
   * most a minute ahead of its acceptance is never accepted again: the replay window
   * outlasts the lifetime by that minute.
   */
  lemma StateTokenIsSingleUse(lib: TokenLib, seen: Seen, run: seq<Attempt>, i: nat, j: nat)
    requires ClockAdvances(run) && i < j < |run| && run[i].token == run[j].token
    requires AcceptedAt(lib, seen, run, i)
    requires Genuine(lib, run[i].token).value.t <= run[i].now + (STATE_REPLAY_TTL_MS - STATE_TTL_MS)
    ensures !AcceptedAt(lib, seen, run, j)
  {
    hide Genuine, SeenRun, SeenAfter;
    AcceptedIsRemembered(lib, seen, run, i, j);
  }

  /** That minute is exact: a token dated later is accepted a second time at the end of its lifetime. */
  lemma FutureTokenIsReplayed(lib: TokenLib, token: string, now: int) returns (run: seq<Attempt>)
    requires Genuine(lib, token).Some?
    requires Genuine(lib, token).value.t > now + (STATE_REPLAY_TTL_MS - STATE_TTL_MS)
    ensures |run| == 2 && run[0] == Attempt(token, now) && run[1].token == token && ClockAdvances(run)
    ensures AcceptedAt(lib, map[], run, 0) && AcceptedAt(lib, map[], run, 1)
  {
    hide Genuine;
    var t := Genuine(lib, token).value.t;
    run := [Attempt(token, now), Attempt(token, t + STATE_TTL_MS)];
    assert run[..0] == [] && run[..1] == [run[0]] && run[..1][..0] == [];
    assert SeenRun(lib, map[], run[..0]) == map[];
    assert SeenRun(lib, map[], run[..1]) == SeenAfter(lib, map[], token, now);
  }

  lemma SplitRejoins(token: string)
    ensures SplitToken(token).Some? ==> token == SplitToken(token).value.0 + "." + SplitToken(token).value.1
    ensures SplitToken(token).Some? ==> '.' !in SplitToken(token).value.1
  {
    var n := FirstDot(token);
    if n < |token| {
      assert token == token[..n] + [token[n]] + token[n + 1..];
    }
  }

  /** `token` is `encoded`, a dot and a signature that decodes like the genuine one, around a usable payload. */
  ghost predicate IsSignedToken(lib: TokenLib, token: string, encoded: string, sig: string, p: StatePayload) {
    && token == encoded + "." + sig && '.' !in encoded && '.' !in sig
    && lib.signatureBytes(sig) == lib.signatureBytes(lib.mac(encoded))
    && lib.decode(encoded) == Some(p) && p.t != 0 && p.inst != ""
  }

  /** What passes the checks that do not look at the clock. */
  lemma GenuineMeans(lib: TokenLib, token: string, p: StatePayload)
    ensures Genuine(lib, token) == Some(p) <==> exists encoded, sig :: IsSignedToken(lib, token, encoded, sig, p)
  {
    if Genuine(lib, token) == Some(p) {
      SplitRejoins(token);
      var (encoded, sig) := SplitToken(token).value;
      assert IsSignedToken(lib, token, encoded, sig, p);
    }
    if encoded, sig :| IsSignedToken(lib, token, encoded, sig, p) {
      SplitJoined(encoded, sig);
    }
  }

  /** One of the first `n` attempts presented the token, was accepted, and was no earlier than `since`. */
  ghost predicate AcceptedSince(lib: TokenLib, run: seq<Attempt>, n: nat, token: string, since: int)
    requires n <= |run|
  {
    exists i :: 0 <= i < n && run[i].token == token && AcceptedAt(lib, map[], run, i) && run[i].now >= since
  }

  lemma AcceptedSinceStep(lib: TokenLib, run: seq<Attempt>, n: nat, token: string, since: int)
    requires n < |run|
    ensures AcceptedSince(lib, run, n + 1, token, since) <==>
              || AcceptedSince(lib, run, n, token, since)
              || (run[n].token == token && AcceptedAt(lib, map[], run, n) && run[n].now >= since)
  {
    hide AcceptedAt;
  }

  /** The record holds exactly the tokens accepted within the replay window. */
  lemma {:induction false} RecordHoldsAccepted(lib: TokenLib, run: seq<Attempt>, n: nat, token: string, now: int)
    requires n <= |run| && ClockAdvances(run) && forall i :: 0 <= i < n ==> run[i].now <= now
    ensures token in CleanSeen(SeenRun(lib, map[], run[..n]), now)
            <==> AcceptedSince(lib, run, n, token, now - STATE_REPLAY_TTL_MS)
  {
    if n > 0 {
      hide Genuine, AcceptedSince;
      var a, seen := run[n - 1], SeenRun(lib, map[], run[..n - 1]);
      assert run[..n][..n - 1] == run[..n - 1];
      RecordHoldsAccepted(lib, run, n - 1, token, now);
      AcceptedSinceStep(lib, run, n - 1, token, now - STATE_REPLAY_TTL_MS);
      assert CleanSeen(CleanSeen(seen, a.now), now) == CleanSeen(seen, now);
      if AcceptedSince(lib, run, n - 1, token, now - STATE_REPLAY_TTL_MS) && a.token == token {
        AcceptedBefore(lib, run, n - 1, token, now - STATE_REPLAY_TTL_MS);
      }
    }
  }

  lemma AcceptedBefore(lib: TokenLib, run: seq<Attempt>, n: nat, token: string, since: int)
    requires n < |run| && ClockAdvances(run) && AcceptedSince(lib, run, n, token, since)
    ensures run[n].now >= since
  {
  }

  /**
   * In any run from boot an attempt is accepted exactly when its token is genuine, at
   * most ten minutes old, and was not accepted within the eleven minutes before; no
   * rejected attempt and no other token has any say in it.
   */
  lemma AcceptedExactly(lib: TokenLib, run: seq<Attempt>, j: nat)
    requires ClockAdvances(run) && j < |run|
    ensures AcceptedAt(lib, map[], run, j) <==>
              && Genuine(lib, run[j].token).Some?
              && run[j].now - Genuine(lib, run[j].token).value.t <= 10 * 60 * 1000
              && forall i :: 0 <= i < j && run[i].token == run[j].token && AcceptedAt(lib, map[], run, i) ==>
                   run[i].now < run[j].now - 11 * 60 * 1000
  {
    hide Genuine, SeenRun;
    RecordHoldsAccepted(lib, run, j, run[j].token, run[j].now);
  }

  // ---- Single use of issued payloads ----

  /** Another string that the lenient decoder reads as the genuine signature of `encoded`. */
  predicate IsSecondSpelling(lib: TokenLib, encoded: string, sig: string) {
    sig != lib.mac(encoded) && '.' !in sig && lib.signatureBytes(sig) == lib.signatureBytes(lib.mac(encoded))
  }

  function IssuedToken(lib: TokenLib, encoded: string): string {
    encoded + "." + lib.mac(encoded)
  }

  /** Attempts `i` and `j` of a run both present the payload `encoded`, in time, and both are accepted. */
  ghost predicate AcceptedTwice(lib: TokenLib, encoded: string, run: seq<Attempt>, i: nat, j: nat) {
    && i < j < |run| && ClockAdvances(run)
    && SplitToken(run[i].token).Some? && SplitToken(run[i].token).value.0 == encoded
    && SplitToken(run[j].token).Some? && SplitToken(run[j].token).value.0 == encoded
    && AcceptedAt(lib, map[], run, i) && AcceptedAt(lib, map[], run, j)
    && Genuine(lib, run[i].token).value.t <= run[i].now + (STATE_REPLAY_TTL_MS - STATE_TTL_MS)
  }

  /**
   * A payload, as opposed to a string, is single-use exactly when its signature has one
   * spelling only: a second spelling makes another token string, which is not on record.
   */
  lemma PayloadIsSingleUse(lib: TokenLib, encoded: string)
    requires '.' !in encoded && '.' !in lib.mac(encoded)
    requires Genuine(lib, IssuedToken(lib, encoded)).Some?
    ensures (exists run, i: nat, j: nat :: AcceptedTwice(lib, encoded, run, i, j))
            <==> exists sig :: IsSecondSpelling(lib, encoded, sig)
  {
    if run, i: nat, j: nat :| AcceptedTwice(lib, encoded, run, i, j) {
      OtherSpellingWasUsed(lib, encoded, run, i, j);
    }
    if sig :| IsSecondSpelling(lib, encoded, sig) {
      var run := SecondSpellingIsAccepted(lib, encoded, sig);
      assert AcceptedTwice(lib, encoded, run, 0, 1);
    }
  }

  lemma OtherSpellingWasUsed(lib: TokenLib, encoded: string, run: seq<Attempt>, i: nat, j: nat)
    requires AcceptedTwice(lib, encoded, run, i, j)
    ensures exists sig :: IsSecondSpelling(lib, encoded, sig)
  {
    hide SeenRun, FirstDot;
    SplitRejoins(run[i].token);
    SplitRejoins(run[j].token);
    var s, t := SplitToken(run[i].token).value.1, SplitToken(run[j].token).value.1;
    if run[i].token == run[j].token {
      StateTokenIsSingleUse(lib, map[], run, i, j);
    } else if s == lib.mac(encoded) {
      assert IsSecondSpelling(lib, encoded, t);
    } else {
      assert IsSecondSpelling(lib, encoded, s);
    }
  }

  lemma SecondSpellingIsAccepted(lib: TokenLib, encoded: string, sig: string) returns (run: seq<Attempt>)
    requires '.' !in encoded && '.' !in lib.mac(encoded)
    requires Genuine(lib, IssuedToken(lib, encoded)).Some? && IsSecondSpelling(lib, encoded, sig)
    ensures AcceptedTwice(lib, encoded, run, 0, 1)
  {
    SplitJoined(encoded, lib.mac(encoded));
    SplitJoined(encoded, sig);
    var first, second := IssuedToken(lib, encoded), encoded + "." + sig;
    var t := Genuine(lib, first).value.t;
    assert first[|encoded| + 1..] == lib.mac(encoded) && second[|encoded| + 1..] == sig;
    run := [Attempt(first, t), Attempt(second, t)];
    hide FirstDot, SplitToken;
    assert run[..0] == [] && run[..1] == [run[0]] && run[..1][..0] == [];
    assert SeenRun(lib, map[], run[..0]) == map[];
    assert SeenRun(lib, map[], run[..1]) == SeenAfter(lib, map[], first, t);
  }

  /** A token that nobody presented yet is accepted for exactly its ten minutes. */
  lemma FreshTokenIsAccepted(lib: TokenLib, seen: Seen, token: string, now: int)
    requires Genuine(lib, token).Some? && token !in seen
    ensures Accepts(lib, seen, token, now) <==> now <= Genuine(lib, token).value.t + STATE_TTL_MS
  {
    hide Genuine;
  }

  // ---- Bridge tokens over whole runs ----

  function BridgeRun(events: seq<BridgeEvent>): Bridges {
    if events == [] then map[] else BridgeStep(BridgeRun(events[..|events| - 1]), events[|events| - 1])
  }

  /** The issue of `token` that no later event on that token has used up. */
  function Outstanding(events: seq<BridgeEvent>, token: string): Option<BridgeEntry> {
    if events == [] then None
    else
      match events[|events| - 1]
      case Issue(t, sessionId, now) =>
        if t == token then Some(BridgeEntry(sessionId, now)) else Outstanding(events[..|events| - 1], token)
      case Consume(t, now) =>
        if t == token then None else Outstanding(events[..|events| - 1], token)
  }

  ghost predicate BridgeClockAdvances(events: seq<BridgeEvent>) {
    forall i, j :: 0 <= i < j < |events| ==> events[i].now <= events[j].now
  }

  /** The table holds the outstanding tokens that were young at the last event, and nothing else. */
  lemma {:induction false} TableHoldsOutstanding(events: seq<BridgeEvent>, token: string)
    requires BridgeClockAdvances(events)
    ensures
      var o := Outstanding(events, token);
      token in BridgeRun(events) <==> o.Some? && events[|events| - 1].now - o.value.createdAt <= BRIDGE_TTL_MS
    ensures token in BridgeRun(events) ==> BridgeRun(events)[token] == Outstanding(events, token).value
    ensures Outstanding(events, token).Some? ==> events != [] && Outstanding(events, token).value.createdAt <= events[|events| - 1].now
  {
    if events != [] {
      var front := events[..|events| - 1];
      TableHoldsOutstanding(front, token);
      assert front != [] ==> front[|front| - 1].now <= events[|events| - 1].now;
    }
  }

  /**
   * A bridge token yields a session exactly when it was issued for that session, at
   * most two minutes ago, and not presented since; nothing done to other tokens matters.
   */
  lemma BridgeTokenYieldsItsSession(events: seq<BridgeEvent>, token: string, now: int)
    requires BridgeClockAdvances(events + [Consume(token, now)])
    ensures
      var o := Outstanding(events, token);
      BridgeResult(BridgeRun(events), token, now)
      == if o.Some? && now - o.value.createdAt <= BRIDGE_TTL_MS then Some(o.value.sessionId) else None
  {
    var all := events + [Consume(token, now)];
    assert forall i :: 0 <= i < |events| ==> all[i] == events[i];
    assert events != [] ==> events[|events| - 1].now <= all[|events|].now;
    TableHoldsOutstanding(events, token);
  }

  /** Once presented, a token is dead until it is issued anew. */
  lemma {:induction false} BridgeTokenIsSingleUse(events: seq<BridgeEvent>, token: string, at: int, later: seq<BridgeEvent>, now: int)
    requires BridgeClockAdvances(events + [Consume(token, at)] + later + [Consume(token, now)])
    requires forall e :: e in later ==> !(e.Issue? && e.token == token)
    ensures BridgeResult(BridgeRun(events + [Consume(token, at)] + later), token, now) == None
  {
    SpentStaysSpent(events + [Consume(token, at)], later, token);
    BridgeTokenYieldsItsSession(events + [Consume(token, at)] + later, token, now);
  }

  lemma {:induction false} SpentStaysSpent(before: seq<BridgeEvent>, later: seq<BridgeEvent>, token: string)
    requires Outstanding(before, token).None?
    requires forall e :: e in later ==> !(e.Issue? && e.token == token)
    ensures Outstanding(before + later, token).None?
  {
    if later == [] {
      assert before + later == before;
    } else {
      var n := |later| - 1;
      assert (before + later)[..|before| + n] == before + later[..n];
      SpentStaysSpent(before, later[..n], token);
    }
  }

  lemma {:induction false} OutstandingOnToken(events: seq<BridgeEvent>, token: string)
    ensures Outstanding(OnToken(events, token), token) == Outstanding(events, token)
  {
    if events != [] {
      var n := |events| - 1;
      OutstandingOnToken(events[..n], token);
      if events[n].token == token {
        assert OnToken(events, token)[..|OnToken(events, token)| - 1] == OnToken(events[..n], token);
      }
    }
  }

  lemma {:induction false} OnTokenAdvances(events: seq<BridgeEvent>, token: string, now: int)
    requires BridgeClockAdvances(events) && forall e :: e in events ==> e.now <= now
    ensures BridgeClockAdvances(OnToken(events, token))
    ensures forall e :: e in OnToken(events, token) ==> e in events && e.now <= now
  {
    if events != [] {
      var n := |events| - 1;
      assert events == events[..n] + [events[n]];
      OnTokenAdvances(events[..n], token, events[n].now);
    }
  }

  lemma AppendAdvances(events: seq<BridgeEvent>, e: BridgeEvent)
    ensures BridgeClockAdvances(events + [e]) <==> BridgeClockAdvances(events) && forall x :: x in events ==> x.now <= e.now
  {
    var all := events + [e];
    assert forall i :: 0 <= i < |events| ==> all[i] == events[i];
    if BridgeClockAdvances(all) {
      forall x | x in events ensures x.now <= e.now {
        var i :| 0 <= i < |events| && events[i] == x;
        assert all[i].now <= all[|events|].now;
      }
      forall i, j | 0 <= i < j < |events| ensures events[i].now <= events[j].now {
        assert all[i].now <= all[j].now;
      }
    }
  }

  /**
   * What a consumer gets is the same had the events of all other tokens never happened,
   * although each of them sweeps the whole table.
   */
  lemma OtherTokensDoNotMatter(events: seq<BridgeEvent>, token: string, now: int)
    requires BridgeClockAdvances(events + [Consume(token, now)])
    ensures BridgeResult(BridgeRun(OnToken(events, token)), token, now) == BridgeResult(BridgeRun(events), token, now)
  {
    hide BridgeClockAdvances, BridgeResult, BridgeRun, Outstanding, OnToken;
    AppendAdvances(events, Consume(token, now));
    OnTokenAdvances(events, token, now);
    AppendAdvances(OnToken(events, token), Consume(token, now));
    BridgeTokenYieldsItsSession(events, token, now);
    BridgeTokenYieldsItsSession(OnToken(events, token), token, now);
    OutstandingOnToken(events, token);
  }

  function OnToken(events: seq<BridgeEvent>, token: string): seq<BridgeEvent> {
    if events == [] then []
    else
      var front := OnToken(events[..|events| - 1], token);
      if events[|events| - 1].token == token then front + [events[|events| - 1]] else front
  }
}
