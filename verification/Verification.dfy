/**
 * The post-verification webhook (internal/webhooks/kratos-verification): requests that check, publish
 * and mark in three separate steps, any number of them in flight at once, over the welcome_sent keys
 * and an append-only queue. Each step may fail.
 */
module Verification {
  import opened Text
  import opened RedisServer
  import opened Clients

  datatype Payload = Payload(identityID: string, email: string, displayName: string, firstName: string)

  datatype ProfileInfo = ProfileInfo(displayName: string, url: string)

  datatype UserPayload = UserPayload(
    id: string, firstName: string, lastName: string, email: string, profile: ProfileInfo, kind: string)

  datatype WelcomeEvent = WelcomeEvent(
    eventType: string, triggeredBy: UserPayload, recipients: seq<UserPayload>, platformURL: string, user: UserPayload)

  datatype Response = Response(status: string, message: string)

  const SUCCESS := Response("success", "")
  const ALREADY_SENT := Response("skipped", "welcome email already sent for this identity")
  const QUEUEING_FAILED := Response("error", "notification queuing failed")
  const INVALID_JSON := Response("skipped", "invalid JSON payload")

  /** The required fields a payload lacks, in the order they are reported. */
  function MissingFields(p: Payload): seq<string> {
    (if TrimSpace(p.identityID) == "" then ["identity_id"] else []) +
    (if TrimSpace(p.email) == "" then ["email"] else []) +
    (if TrimSpace(p.displayName) == "" then ["display_name"] else []) +
    (if TrimSpace(p.firstName) == "" then ["first_name"] else [])
  }

  function Transform(p: Payload, platformURL: string): WelcomeEvent {
    var profile := ProfileInfo(p.displayName, platformURL + "/user/me");
    var user := UserPayload(p.identityID, p.firstName, "", p.email, profile, "user");
    WelcomeEvent("USER_SIGN_UP_WELCOME", user, [user], platformURL, user)
  }

  // The transition system.

  datatype Phase = Checking | Publishing | Marking | Replied(response: Response)

  datatype Request = Request(payload: Payload, phase: Phase)

  /** An event in the queue, with the time it was published. */
  datatype Sent = Sent(event: WelcomeEvent, at: int)

  datatype System = System(db: Db, queue: seq<Sent>, requests: seq<Request>)

  datatype Step =
    | Arrive(payload: Payload)
    | Check(i: nat, fault: Fault)
    | Publish(i: nat, fails: bool)
    | Mark(i: nat, stamp: string, fault: Fault)
    | Wait(d: nat)

  function Identity(r: Request): string {
    r.payload.identityID
  }

  predicate Due(s: System, i: nat, phase: Phase) {
    i < |s.requests| && s.requests[i].phase == phase
  }

  function Move(s: System, i: nat, phase: Phase): System
    requires i < |s.requests|
  {
    s.(requests := s.requests[i := s.requests[i].(phase := phase)])
  }

  predicate WelcomeMarked(db: Db, u: string) {
    Live(db, KeyText(WelcomeKey(u)))
  }

  /** One step; a step that is not due changes nothing. */
  function Next(s: System, url: string, t: Step): System {
    match t
    case Arrive(p) =>
      var phase := if MissingFields(p) == [] then Checking
                   else Replied(Response("skipped", "missing required traits: " + Join(MissingFields(p), ", ")));
      s.(requests := s.requests + [Request(p, phase)])
    case Check(i, fault) =>
      if !Due(s, i, Checking) then s
      else if fault.NoFault? && WelcomeMarked(s.db, Identity(s.requests[i])) then Move(s, i, Replied(ALREADY_SENT))
      else Move(s, i, Publishing)
    case Publish(i, fails) =>
      if !Due(s, i, Publishing) then s
      else if fails then Move(s, i, Replied(QUEUEING_FAILED))
      else Move(s, i, Marking).(queue := s.queue + [Sent(Transform(s.requests[i].payload, url), s.db.now)])
    case Mark(i, stamp, fault) =>
      if !Due(s, i, Marking) then s
      else
        var after := if Applied(fault) then Marked(s.db, Identity(s.requests[i]), stamp) else s.db;
        Move(s, i, Replied(SUCCESS)).(db := after)
    case Wait(d) => s.(db := s.db.(now := s.db.now + d))
  }

  function Run(s: System, url: string, ts: seq<Step>): System {
    if ts == [] then s else Next(Run(s, url, ts[..|ts| - 1]), url, ts[|ts| - 1])
  }

  function Start(now: int): System {
    System(Db(map[], now), [], [])
  }

  /** The welcome event of an identity. */
  predicate IsFor(q: Sent, u: string) {
    q.event.user.id == u
  }

  // A mark, and an "already sent" reply, mean that a welcome was published.

  predicate PublishedBy(queue: seq<Sent>, u: string, time: int) {
    exists k | 0 <= k < |queue| :: IsFor(queue[k], u) && queue[k].at <= time
  }

  /** When the live mark of an identity was set. */
  function MarkTime(db: Db, u: string): int
    requires WelcomeMarked(db, u)
  {
    match db.keys[KeyText(WelcomeKey(u))].expiry
    case Never => db.now
    case At(t) => t - WELCOME_SENT_TTL
  }

  predicate RequestHonest(s: System, r: Request) {
    (r.phase == Marking || r.phase == Replied(SUCCESS) || r.phase == Replied(ALREADY_SENT)) ==>
      PublishedBy(s.queue, Identity(r), s.db.now)
  }

  predicate MarkHonest(s: System, u: string) {
    WelcomeMarked(s.db, u) ==> MarkTime(s.db, u) <= s.db.now && PublishedBy(s.queue, u, MarkTime(s.db, u))
  }

  ghost predicate Honest(s: System) {
    && (forall i | 0 <= i < |s.requests| :: RequestHonest(s, s.requests[i]))
    && (forall u :: MarkHonest(s, u))
  }

  lemma PublishedStays(queue: seq<Sent>, more: seq<Sent>, u: string, time: int, later: int)
    requires PublishedBy(queue, u, time) && time <= later
    ensures PublishedBy(queue + more, u, later)
  {
    var k :| 0 <= k < |queue| && IsFor(queue[k], u) && queue[k].at <= time;
    assert (queue + more)[k] == queue[k];
  }

  lemma MarkedOthers(db: Db, u: string, v: string, stamp: string)
    ensures WelcomeMarked(Marked(db, u, stamp), v) == (v == u || WelcomeMarked(db, v))
    ensures WelcomeMarked(Marked(db, u, stamp), v) ==>
      MarkTime(Marked(db, u, stamp), v) == if v == u then db.now else MarkTime(db, v)
  {
    KeyTextInjective(WelcomeKey(u), WelcomeKey(v));
  }

  /** Neither the checks nor the publishing touch a mark. */
  lemma NextMarkHonest(s: System, url: string, t: Step, u: string)
    requires Honest(s)
    ensures MarkHonest(Next(s, url, t), u)
  {
    assert MarkHonest(s, u);
    var n := Next(s, url, t);
    match t
    case Mark(i, stamp, fault) =>
      if Due(s, i, Marking) {
        assert RequestHonest(s, s.requests[i]);
        MarkedOthers(s.db, Identity(s.requests[i]), u, stamp);
      }
    case Publish(i, _) =>
      if WelcomeMarked(n.db, u) && |n.queue| > |s.queue| {
        PublishedStays(s.queue, [n.queue[|s.queue|]], u, MarkTime(s.db, u), MarkTime(s.db, u));
      }
    case _ =>
  }

  /** The replies that speak of a welcome cannot be taken for any other. */
  lemma DistinctReplies()
    ensures SUCCESS != ALREADY_SENT && SUCCESS != QUEUEING_FAILED && ALREADY_SENT != QUEUEING_FAILED
    ensures forall missing: string :: Response("skipped", "missing required traits: " + missing) != ALREADY_SENT
    ensures forall missing: string :: Response("skipped", "missing required traits: " + missing) != SUCCESS
  {
    assert "skipped"[1] != "success"[1];
    assert |"error"| != |"success"| == |"skipped"|;
    forall missing: string
      ensures "missing required traits: " + missing != ALREADY_SENT.message
    {
      assert ("missing required traits: " + missing)[0] != ALREADY_SENT.message[0];
    }
  }

  lemma NextClock(s: System, url: string, t: Step)
    ensures Next(s, url, t).db.now == s.db.now + if t.Wait? then t.d else 0
  {
    hide MissingFields, Join;
  }

  predicate IsOf(s: System, i: nat, u: string) {
    i < |s.requests| && Identity(s.requests[i]) == u
  }

  /** One step leaves every other request alone, and never returns a request to an earlier phase. */
  lemma NextRequests(s: System, url: string, t: Step)
    ensures var n := Next(s, url, t);
      && |n.requests| == |s.requests| + (if t.Arrive? then 1 else 0)
      && (forall i | 0 <= i < |s.requests| :: n.requests[i].payload == s.requests[i].payload)
      && (forall i | 0 <= i < |s.requests| && !(t.Check? && t.i == i && s.requests[i].phase == Checking)
                                            && !(t.Publish? && t.i == i && s.requests[i].phase == Publishing)
                                            && !(t.Mark? && t.i == i && s.requests[i].phase == Marking) ::
            n.requests[i] == s.requests[i])
      && (t.Check? && Due(s, t.i, Checking) ==>
            var found := t.fault.NoFault? && WelcomeMarked(s.db, Identity(s.requests[t.i]));
            n.requests[t.i].phase == if found then Replied(ALREADY_SENT) else Publishing)
      && (t.Publish? && Due(s, t.i, Publishing) ==>
          n.requests[t.i].phase == if t.fails then Replied(QUEUEING_FAILED) else Marking)
      && (t.Mark? && Due(s, t.i, Marking) ==> n.requests[t.i].phase == Replied(SUCCESS))
  {
    hide MissingFields, Join, Transform, Marked;
  }

  /** A step publishes at most one event: the welcome of the request that publishes. */
  lemma NextQueue(s: System, url: string, t: Step, u: string)
    ensures var n := Next(s, url, t);
      && |s.queue| <= |n.queue| <= |s.queue| + 1
      && (forall k | 0 <= k < |s.queue| :: n.queue[k] == s.queue[k])
      && (t.Publish? && Due(s, t.i, Publishing) && !t.fails ==> |n.queue| > |s.queue|)
      && (|n.queue| > |s.queue| ==>
          && t.Publish? && Due(s, t.i, Publishing) && !t.fails
          && n.queue[|s.queue|].at == s.db.now
          && (IsFor(n.queue[|s.queue|], u) <==> IsOf(s, t.i, u)))
  {
    hide MissingFields, Join, Marked;
  }

  lemma ArrivalsCheck(s: System, url: string, t: Step)
    ensures forall i | |s.requests| <= i < |Next(s, url, t).requests| ::
      Next(s, url, t).requests[i].phase !in {Publishing, Marking, Replied(SUCCESS), Replied(ALREADY_SENT)}
  {
    hide Transform, Marked, MissingFields, Join, WelcomeMarked;
    DistinctReplies();
  }

  lemma NextRequestHonest(s: System, url: string, t: Step, j: nat)
    requires Honest(s) && j < |Next(s, url, t).requests|
    ensures RequestHonest(Next(s, url, t), Next(s, url, t).requests[j])
  {
    NextClock(s, url, t);
    NextRequests(s, url, t);
    ArrivalsCheck(s, url, t);
    DistinctReplies();
    hide Next, IsFor, WelcomeMarked, MarkTime, PublishedBy;
    var n := Next(s, url, t);
    if j < |s.requests| {
      var u := Identity(s.requests[j]);
      assert RequestHonest(s, s.requests[j]) && MarkHonest(s, u);
      NextPublished(s, url, t, u);
    }
  }

  /** What was published stays so, and a publish adds the welcome of its own request. */
  lemma NextPublished(s: System, url: string, t: Step, u: string)
    ensures var n := Next(s, url, t);
      && (PublishedBy(s.queue, u, s.db.now) ==> PublishedBy(n.queue, u, n.db.now))
      && (WelcomeMarked(s.db, u) && MarkTime(s.db, u) <= s.db.now && PublishedBy(s.queue, u, MarkTime(s.db, u)) ==>
          PublishedBy(n.queue, u, n.db.now))
      && (t.Publish? && Due(s, t.i, Publishing) && !t.fails && IsOf(s, t.i, u) ==> PublishedBy(n.queue, u, n.db.now))
  {
    NextClock(s, url, t);
    NextQueue(s, url, t, u);
    hide Next, WelcomeMarked, MarkTime, IsFor;
    var n := Next(s, url, t);
    assert n.queue == s.queue + n.queue[|s.queue|..];
    if WelcomeMarked(s.db, u) && MarkTime(s.db, u) <= s.db.now && PublishedBy(s.queue, u, MarkTime(s.db, u)) {
      PublishedStays(s.queue, n.queue[|s.queue|..], u, MarkTime(s.db, u), n.db.now);
    }
    if PublishedBy(s.queue, u, s.db.now) {
      PublishedStays(s.queue, n.queue[|s.queue|..], u, s.db.now, n.db.now);
    }
  }

  /** Under every interleaving and every combination of faults: a live mark has a welcome event behind it,
      published no later than the mark was set, and so has every reply of success or "already sent". */
  lemma {:induction false} MarkedImpliesSent(now: int, url: string, ts: seq<Step>)
    ensures Honest(Run(Start(now), url, ts))
    decreases |ts|
  {
    if ts != [] {
      var s := Run(Start(now), url, ts[..|ts| - 1]);
      MarkedImpliesSent(now, url, ts[..|ts| - 1]);
      var t := ts[|ts| - 1];
      forall u
        ensures MarkHonest(Next(s, url, t), u)
      {
        NextMarkHonest(s, url, t, u);
      }
      forall j | 0 <= j < |Next(s, url, t).requests|
        ensures RequestHonest(Next(s, url, t), Next(s, url, t).requests[j])
      {
        NextRequestHonest(s, url, t, j);
      }
    } else {
      assert Start(now).requests == [];
    }
  }
}
