/** The verification webhook as objects (handler.go, service.go), proved to be one request's steps in a row. */
module VerificationHandler {
  import opened Wrappers
  import opened Text
  import opened RedisServer
  import opened Clients
  import opened Verification
  import opened VerificationRuns

  datatype ValidationError = ValidationError(field: string, message: string)

  /** A publish appends one event, or fails and appends nothing. */
  class RabbitMQClient {
    var queue: seq<Sent>

    constructor ()
      ensures queue == []
    {
      queue := [];
    }

    method Publish(event: WelcomeEvent, now: int, fails: bool) returns (failed: bool)
      modifies this
      ensures failed == fails
      ensures queue == if fails then old(queue) else old(queue) + [Sent(event, now)]
    {
      if !fails {
        queue := queue + [Sent(event, now)];
      }
      failed := fails;
    }
  }

  class Service {
    const redisClient: RedisClient
    const rabbitMQClient: RabbitMQClient
    const platformURL: string

    constructor (redisClient: RedisClient, rabbitMQClient: RabbitMQClient, platformURL: string)
      ensures this.redisClient == redisClient && this.rabbitMQClient == rabbitMQClient
      ensures this.platformURL == platformURL
    {
      this.redisClient := redisClient;
      this.rabbitMQClient := rabbitMQClient;
      this.platformURL := platformURL;
    }

    method ValidatePayload(payload: Payload) returns (errors: seq<ValidationError>)
      ensures |errors| == |MissingFields(payload)|
      ensures forall i | 0 <= i < |errors| :: errors[i] == ValidationError(MissingFields(payload)[i], "required")
    {
      hide TrimSpace;
      errors := [];
      if TrimSpace(payload.identityID) == "" {
        errors := errors + [ValidationError("identity_id", "required")];
      }
      if TrimSpace(payload.email) == "" {
        errors := errors + [ValidationError("email", "required")];
      }
      if TrimSpace(payload.displayName) == "" {
        errors := errors + [ValidationError("display_name", "required")];
      }
      if TrimSpace(payload.firstName) == "" {
        errors := errors + [ValidationError("first_name", "required")];
      }
    }

    /** Fails open: a Redis error reads as "not sent yet". */
    method CheckWelcomeSent(identityID: string, fault: Fault) returns (sent: bool)
      ensures sent <==> fault.NoFault? && WelcomeMarked(redisClient.State(), identityID)
    {
      var r := redisClient.IsWelcomeSent(identityID, fault);
      return r.Some? && r.value;
    }

    method MarkWelcomeSent(identityID: string, stamp: string, fault: Fault)
      modifies redisClient.server`keys
      ensures redisClient.State() ==
        if Applied(fault) then Marked(old(redisClient.State()), identityID, stamp) else old(redisClient.State())
    {
      var err := redisClient.MarkWelcomeSent(identityID, stamp, fault);
    }
  }

  class Handler {
    const service: Service

    constructor (service: Service)
      ensures this.service == service
    {
      this.service := service;
    }

    /** The store and the queue as a system without requests. */
    function Now(): System
      reads service.redisClient.server, service.rabbitMQClient
    {
      System(service.redisClient.State(), service.rabbitMQClient.queue, [])
    }

    /** payload is None when the body is no valid JSON. */
    method HandleVerification(payload: Option<Payload>, stamp: string, checkFault: Fault, publishFails: bool,
                              markFault: Fault)
      returns (r: Response)
      modifies service.redisClient.server`keys, service.rabbitMQClient
      ensures payload.None? ==> r == INVALID_JSON && Now() == old(Now())
      ensures payload.Some? ==>
        var s := Run(old(Now()), service.platformURL, Steps(payload.value, stamp, checkFault, publishFails, markFault));
        Now() == s.(requests := []) && s.requests == [Request(payload.value, Replied(r))]
      ensures payload.None? ==> r == Response("skipped", "invalid JSON payload")
      ensures payload.Some? ==>
        Handled(old(Now()), service.platformURL, payload.value, stamp, checkFault, publishFails, markFault, r, Now())
    {
      hide TrimSpace, Join, Transform, MissingFields, Run, Next, Handled;
      if payload.None? {
        return INVALID_JSON;
      }
      var p := payload.value;
      StepsOutcome(Now(), service.platformURL, p, stamp, checkFault, publishFails, markFault);
      StepsHandle(Now(), service.platformURL, p, stamp, checkFault, publishFails, markFault);

      var validationErrors := service.ValidatePayload(p);
      if |validationErrors| > 0 {
        var missingFields := new string[|validationErrors|];
        for i := 0 to |validationErrors|
          modifies missingFields
          invariant forall j | 0 <= j < i :: missingFields[j] == validationErrors[j].field
        {
          missingFields[i] := validationErrors[i].field;
        }
        assert missingFields[..] == MissingFields(p);
        return Response("skipped", "missing required traits: " + Join(missingFields[..], ", "));
      }

      var alreadySent := service.CheckWelcomeSent(p.identityID, checkFault);
      if alreadySent {
        return ALREADY_SENT;
      }
      var event := Transform(p, service.platformURL);
      var failed := service.rabbitMQClient.Publish(event, service.redisClient.server.now, publishFails);
      if failed {
        return QUEUEING_FAILED;
      }
      service.MarkWelcomeSent(p.identityID, stamp, markFault);
      return SUCCESS;
    }
  }

  /** What the webhook promises for a decoded payload, in its own terms: the reply, and what became of the
      store and the queue. */
  ghost predicate Handled(s: System, url: string, p: Payload, stamp: string, checkFault: Fault, publishFails: bool,
                          markFault: Fault, r: Response, n: System) {
    if Blank(p.identityID) || Blank(p.email) || Blank(p.displayName) || Blank(p.firstName) then
      && n == s
      && r == Response("skipped", "missing required traits: " +
                Listed(Blank(p.identityID), Blank(p.email), Blank(p.displayName), Blank(p.firstName)))
    else if checkFault.NoFault? && Live(s.db, "welcome_sent:" + p.identityID) then
      n == s && r == Response("skipped", "welcome email already sent for this identity")
    else if publishFails then
      n == s && r == Response("error", "notification queuing failed")
    else
      && r == Response("success", "")
      && |n.queue| == |s.queue| + 1 && n.queue[..|s.queue|] == s.queue
      && n.queue[|s.queue|].at == s.db.now && WelcomeFor(n.queue[|s.queue|].event, p, url)
      && n.db == if !Applied(markFault) then s.db else
           s.db.(keys := s.db.keys["welcome_sent:" + p.identityID := Entry(Raw(stamp), At(s.db.now + 7776000))])
  }

  /** The names of the blank fields, in order, separated by commas. */
  function Listed(id: bool, email: bool, display: bool, first: bool): string {
    WithName(WithName(WithName(WithName("", id, "identity_id"), email, "email"), display, "display_name"),
             first, "first_name")
  }

  function WithName(list: string, missing: bool, name: string): string {
    if !missing then list else if list == "" then name else list + ", " + name
  }

  lemma {:induction false} JoinSnoc(xs: seq<string>, y: string, sep: string)
    ensures Join(xs + [y], sep) == if xs == [] then y else Join(xs, sep) + sep + y
    decreases |xs|
  {
    if xs != [] {
      assert (xs + [y])[1..] == xs[1..] + [y];
      JoinSnoc(xs[1..], y, sep);
    }
  }

  lemma NameJoins(xs: seq<string>, missing: bool, name: string)
    requires name != "" && (Join(xs, ", ") == "" <==> xs == [])
    ensures var ys := xs + if missing then [name] else [];
      Join(ys, ", ") == WithName(Join(xs, ", "), missing, name) && (Join(ys, ", ") == "" <==> ys == [])
  {
    hide Join;
    JoinSnoc(xs, name, ", ");
    assert xs + [] == xs;
  }

  lemma NamesJoin(p: Payload)
    ensures Join(MissingFields(p), ", ") ==
      Listed(Blank(p.identityID), Blank(p.email), Blank(p.displayName), Blank(p.firstName))
    ensures MissingFields(p) == [] <==>
      !(Blank(p.identityID) || Blank(p.email) || Blank(p.displayName) || Blank(p.firstName))
  {
    hide Blank, TrimSpace, Join, Listed;
    BlankIs(p.identityID);
    BlankIs(p.email);
    BlankIs(p.displayName);
    BlankIs(p.firstName);
    NamesListed(Blank(p.identityID), Blank(p.email), Blank(p.displayName), Blank(p.firstName));
  }

  lemma NamesListed(a: bool, b: bool, c: bool, d: bool)
    ensures var names := (if a then ["identity_id"] else []) + (if b then ["email"] else []) +
                         (if c then ["display_name"] else []) + (if d then ["first_name"] else []);
      Join(names, ", ") == Listed(a, b, c, d) && (names == [] <==> !(a || b || c || d))
  {
    hide Join, WithName;
    var none: seq<string> := [];
    var one := none + if a then ["identity_id"] else [];
    var two := one + if b then ["email"] else [];
    var three := two + if c then ["display_name"] else [];
    JoinNothing();
    NameJoins(none, a, "identity_id");
    NameJoins(one, b, "email");
    NameJoins(two, c, "display_name");
    NameJoins(three, d, "first_name");
    assert one == if a then ["identity_id"] else [];
  }

  lemma JoinNothing()
    ensures Join([], ", ") == ""
  {
  }

  /** One request's steps in a row do that. */
  lemma StepsHandle(s: System, url: string, p: Payload, stamp: string, checkFault: Fault, publishFails: bool,
                    markFault: Fault)
    requires s.requests == []
    ensures var n := Run(s, url, Steps(p, stamp, checkFault, publishFails, markFault));
      && |n.requests| == 1 && n.requests[0].phase.Replied?
      && Handled(s, url, p, stamp, checkFault, publishFails, markFault,
                 n.requests[0].phase.response, n.(requests := []))
  {
    hide Run, Steps, MissingFields, Join, Listed, Transform, Blank, WelcomeFor, Handled, Marked, WelcomeMarked;
    var n := Run(s, url, Steps(p, stamp, checkFault, publishFails, markFault));
    StepsOutcome(s, url, p, stamp, checkFault, publishFails, markFault);
    NamesJoin(p);
    TransformWelcomes(p, url);
    MarkIs(s.db, p.identityID, stamp);
    OutcomeHandles(s, url, p, stamp, checkFault, publishFails, markFault,
                   n.requests[0].phase.response, n.(requests := []));
  }

  lemma MarkIs(db: Db, u: string, stamp: string)
    ensures WelcomeMarked(db, u) <==> Live(db, "welcome_sent:" + u)
    ensures Marked(db, u, stamp) ==
      db.(keys := db.keys["welcome_sent:" + u := Entry(Raw(stamp), At(db.now + 7776000))])
  {
  }

  lemma OutcomeHandles(s: System, url: string, p: Payload, stamp: string, checkFault: Fault, publishFails: bool,
                       markFault: Fault, r: Response, n: System)
    requires n.requests == s.requests
    requires var skipped := checkFault.NoFault? && WelcomeMarked(s.db, p.identityID);
      && r == (if MissingFields(p) != [] then
                 Response("skipped", "missing required traits: " + Join(MissingFields(p), ", "))
               else if skipped then ALREADY_SENT
               else if publishFails then QUEUEING_FAILED
               else SUCCESS)
      && n.queue == s.queue +
           (if MissingFields(p) == [] && !skipped && !publishFails then [Sent(Transform(p, url), s.db.now)] else [])
      && n.db == if MissingFields(p) == [] && !skipped && !publishFails && Applied(markFault)
                 then Marked(s.db, p.identityID, stamp) else s.db
    ensures Handled(s, url, p, stamp, checkFault, publishFails, markFault, r, n)
  {
    NamesJoin(p);
    TransformWelcomes(p, url);
    MarkIs(s.db, p.identityID, stamp);
    hide MissingFields, Join, Listed, Transform, Blank, WelcomeFor, Marked, WelcomeMarked, Live;
    if MissingFields(p) == [] && !(checkFault.NoFault? && WelcomeMarked(s.db, p.identityID)) && !publishFails {
      assert n.queue[..|s.queue|] == s.queue;
    } else {
      assert n.queue == s.queue;
    }
  }

  /** A reply names missing traits exactly when one of the four fields is blank. */
  lemma SkippedForTraits(s: System, url: string, p: Payload, stamp: string, checkFault: Fault, publishFails: bool,
                         markFault: Fault, r: Response, n: System)
    requires Handled(s, url, p, stamp, checkFault, publishFails, markFault, r, n)
    ensures "missing required traits: " <= r.message <==>
      Blank(p.identityID) || Blank(p.email) || Blank(p.displayName) || Blank(p.firstName)
  {
    hide Blank, Listed, WelcomeFor;
    assert "missing required traits: "[0] == 'm' && "notification queuing failed"[0] == 'n';
    assert "welcome email already sent for this identity"[0] == 'w';
  }

  /** The steps of one request that nothing interleaves with. */
  function Steps(p: Payload, stamp: string, checkFault: Fault, publishFails: bool, markFault: Fault): seq<Step> {
    [Arrive(p), Check(0, checkFault), Publish(0, publishFails), Mark(0, stamp, markFault)]
  }

  lemma StepsOutcome(s: System, url: string, p: Payload, stamp: string, checkFault: Fault, publishFails: bool,
                     markFault: Fault)
    requires s.requests == []
    ensures var n := Run(s, url, Steps(p, stamp, checkFault, publishFails, markFault));
      var skipped := checkFault.NoFault? && WelcomeMarked(s.db, p.identityID);
      && n.requests == [Request(p, Replied(
           if MissingFields(p) != [] then
             Response("skipped", "missing required traits: " + Join(MissingFields(p), ", "))
           else if skipped then ALREADY_SENT
           else if publishFails then QUEUEING_FAILED
           else SUCCESS))]
      && n.queue == s.queue +
           (if MissingFields(p) == [] && !skipped && !publishFails then [Sent(Transform(p, url), s.db.now)] else [])
      && n.db == if MissingFields(p) == [] && !skipped && !publishFails && Applied(markFault)
                 then Marked(s.db, p.identityID, stamp) else s.db
  {
    hide MissingFields, Join, Transform, Marked, WelcomeMarked, Run;
    var ts := Steps(p, stamp, checkFault, publishFails, markFault);
    RunOfFour(s, url, ts);
    var arrived := Next(s, url, ts[0]);
    var checked := Next(arrived, url, ts[1]);
    var published := Next(checked, url, ts[2]);
    assert |arrived.requests| == 1 && arrived.requests[0].payload == p;
    if MissingFields(p) != [] {
      AnsweredStays(arrived, url, ts[1]);
      AnsweredStays(arrived, url, ts[2]);
      AnsweredStays(arrived, url, ts[3]);
    } else if checkFault.NoFault? && WelcomeMarked(s.db, p.identityID) {
      assert checked.requests == [Request(p, Replied(ALREADY_SENT))];
      AnsweredStays(checked, url, ts[2]);
      AnsweredStays(checked, url, ts[3]);
    } else {
      assert checked.requests == [Request(p, Publishing)];
      if publishFails {
        assert published.requests == [Request(p, Replied(QUEUEING_FAILED))];
        AnsweredStays(published, url, ts[3]);
      } else {
        assert published.requests == [Request(p, Marking)];
      }
    }
  }

  lemma RunOfFour(s: System, url: string, ts: seq<Step>)
    requires |ts| == 4
    ensures Run(s, url, ts) == Next(Next(Next(Next(s, url, ts[0]), url, ts[1]), url, ts[2]), url, ts[3])
  {
    hide Next;
    assert ts[..4] == ts && ts[..3][..2] == ts[..2] && ts[..2][..1] == ts[..1] && ts[..1][..0] == [];
    assert Run(s, url, ts[..1]) == Next(s, url, ts[0]);
    assert Run(s, url, ts[..2]) == Next(Run(s, url, ts[..1]), url, ts[1]);
    assert Run(s, url, ts[..3]) == Next(Run(s, url, ts[..2]), url, ts[2]);
  }

  /** An answered request is never due again. */
  lemma AnsweredStays(s: System, url: string, t: Step)
    requires |s.requests| == 1 && s.requests[0].phase.Replied? && !t.Arrive? && !t.Wait?
    ensures Next(s, url, t) == s
  {
    hide Transform, Marked, WelcomeMarked;
  }
}
