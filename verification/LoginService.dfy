/** The login-backoff service as an object (service.go), proved against the steps of LoginBackoff. */
module LoginService {
  import opened Wrappers
  import opened Text
  import opened NetIp
  import opened LogFields
  import opened RedisServer
  import opened Clients
  import opened LoginBackoff

  class Service {
    const redisClient: RedisClient
    const cfg: Config
    var log: seq<LogRecord>

    constructor (redisClient: RedisClient, cfg: Config)
      ensures this.redisClient == redisClient && this.cfg == cfg && log == []
    {
      this.redisClient := redisClient;
      this.cfg := cfg;
      this.log := [];
    }

    method CollectSubjectFields(identifier: string, ip: string) returns (fields: seq<Field>)
      ensures fields == Who(cfg, identifier, ip)
      ensures fields ==
        (if identifier != "" && |cfg.logIdentifierHashKey| >= 32 && cfg.hmac(cfg.logIdentifierHashKey, identifier) != ""
         then [Str("identifier_hmac", cfg.hmac(cfg.logIdentifierHashKey, identifier))] else []) +
        (if ParseIP(TrimSpace(ip)).Some? then [Str("client_ip_prefix", IpPrefix(ip))] else [])
    {
      WhoIs(cfg, identifier, ip);
      hide IdentifierHash, IpPrefix, HashKey;
      fields := [];
      var h := IdentifierHash(cfg.hmac, HashKey(cfg), identifier);
      var p := IpPrefix(ip);
      if h != "" {
        fields := fields + [Str("identifier_hmac", h)];
      }
      if p != "" {
        fields := fields + [Str("client_ip_prefix", p)];
      }
    }

    method CheckAndIncrement(req: BeforeLogin, correlationID: string, fault: Fault) returns (r: CheckResult)
      requires Validated(cfg)
      modifies this`log, redisClient.server`keys
      ensures var e := AttemptEvent(req, correlationID, fault);
        && redisClient.State() == Step(cfg, old(redisClient.State()), e)
        && r == ReplyTo(cfg, old(redisClient.State()), e)
        && log == old(log) + LogOf(cfg, old(redisClient.State()), e, Who(cfg, e.id, e.ip))
      ensures fault.Failed? || (Blank(req.identifier) && Blank(req.clientIP)) ==>
        r == CheckResult(true, 0, 0, "", "", 0)
    {
      NothingNamed(req.identifier, req.clientIP);
      hide NormaliseIdentifier, TrimSpace, Blank, Step, Who;
      var identifier := NormaliseIdentifier(req.identifier);
      var ip := TrimSpace(req.clientIP);
      var who := CollectSubjectFields(identifier, ip);
      r := CheckNormalised(who, identifier, ip, req.flowID, correlationID, fault);
    }

    /** CheckAndIncrement once its inputs are in normal form; who is read only when one is non-empty. */
    method CheckNormalised(who: seq<Field>, identifier: string, ip: string, flowID: string, correlationID: string,
                           fault: Fault)
      returns (r: CheckResult)
      requires Validated(cfg)
      modifies this`log, redisClient.server`keys
      ensures var e := Attempt(identifier, ip, flowID, correlationID, fault);
        && redisClient.State() == Step(cfg, old(redisClient.State()), e)
        && r == ReplyTo(cfg, old(redisClient.State()), e)
        && log == old(log) + LogOf(cfg, old(redisClient.State()), e, who)
    {
      hide LockoutMessage, KeyText, BumpTwo, Bump, BumpReply;
      if identifier == "" && ip == "" {
        log := log + [LogRecord(Warn, "before-login request with no identifier or IP, allowing",
                                [Str("correlation_id", correlationID), Str("flow_id", flowID)])];
        return UNCHECKED;
      }
      if identifier != "" && ip != "" {
        r := IncrementBoth(who, identifier, ip, flowID, correlationID, fault);
      } else if identifier != "" {
        r := IncrementIdentifierOnly(who, identifier, ip, flowID, correlationID, fault);
      } else {
        r := IncrementIPOnly(who, identifier, ip, flowID, correlationID, fault);
      }
    }

    method IncrementBoth(who: seq<Field>, identifier: string, ip: string, ghost flowID: string, correlationID: string,
                         fault: Fault)
      returns (r: CheckResult)
      requires Validated(cfg) && identifier != "" && ip != ""
      modifies this`log, redisClient.server`keys
      ensures var e := Attempt(identifier, ip, flowID, correlationID, fault);
        && redisClient.State() == Step(cfg, old(redisClient.State()), e)
        && r == ReplyTo(cfg, old(redisClient.State()), e)
        && log == old(log) + LogOf(cfg, old(redisClient.State()), e, who)
    {
      hide LockoutMessage, KeyText, BumpTwo, ReplyTo, LogOf;
      ghost var e, db := Attempt(identifier, ip, flowID, correlationID, fault), redisClient.State();
      var reply := redisClient.IncrementLoginAttempts(
        identifier, ip, cfg.identifierLockoutSeconds, cfg.ipLockoutSeconds, fault);
      if reply.BothError? {
        BrokenAllows(cfg, db, e, who, reply.text);
        log := log + [LogRecord(Warn, "redis error during login backoff check, failing open",
                                who + [Str("error", reply.text), Str("correlation_id", correlationID)])];
        return UNCHECKED;
      }
      var CountedBoth(idCount, idRemaining, ipCount, ipRemaining) := reply;
      JudgedTwo(cfg, db, e, who, IdTally(cfg, idCount, idRemaining), IpTally(cfg, ipCount, ipRemaining));
      var idLocked := idCount > cfg.maxIdentifierAttempts;
      var ipLocked := ipCount > cfg.maxIPAttempts;
      var counts := [Num("identifier_attempts", idCount), Num("ip_attempts", ipCount),
                     Num("identifier_threshold", cfg.maxIdentifierAttempts), Num("ip_threshold", cfg.maxIPAttempts)];

      if !idLocked && !ipLocked {
        log := log + [LogRecord(Info, "login attempt allowed", who + [Str("correlation_id", correlationID)] + counts)];
        return CheckResult(true, idCount, ipCount, "", "", 0);
      }

      var reason := "identifier";
      var remaining := idRemaining;
      if ipLocked && (!idLocked || ipRemaining > idRemaining) {
        reason := "ip";
        remaining := ipRemaining;
      }
      var message := LockoutMessage(reason, remaining);
      log := log + [LogRecord(Warn, "login attempt blocked", who + [Str("correlation_id", correlationID)] + counts
                              + [Num("retry_after_seconds", remaining), Str("lockout_reason", reason)])];
      return CheckResult(false, 0, 0, reason, message, remaining);
    }

    method IncrementIdentifierOnly(who: seq<Field>, identifier: string, ghost ip: string, ghost flowID: string,
                                   correlationID: string, fault: Fault)
      returns (r: CheckResult)
      requires Validated(cfg) && identifier != "" && ip == ""
      modifies this`log, redisClient.server`keys
      ensures var e := Attempt(identifier, ip, flowID, correlationID, fault);
        && redisClient.State() == Step(cfg, old(redisClient.State()), e)
        && r == ReplyTo(cfg, old(redisClient.State()), e)
        && log == old(log) + LogOf(cfg, old(redisClient.State()), e, who)
    {
      hide LockoutMessage, KeyText, Bump, BumpReply, ReplyTo, LogOf;
      ghost var e, db := Attempt(identifier, ip, flowID, correlationID, fault), redisClient.State();
      var reply := redisClient.IncrementIdentifierAttempt(identifier, cfg.identifierLockoutSeconds, fault);
      if reply.Error? {
        BrokenAllows(cfg, db, e, who, reply.text);
        log := log + [LogRecord(Warn, "redis error during identifier backoff check, failing open",
                                who + [Str("error", reply.text), Str("correlation_id", correlationID)])];
        return UNCHECKED;
      }
      var Counted(count, remaining) := reply;
      JudgedOne(cfg, db, e, who, IdTally(cfg, count, remaining));
      var counts := [Num("identifier_attempts", count), Num("identifier_threshold", cfg.maxIdentifierAttempts)];
      if count > cfg.maxIdentifierAttempts {
        log := log + [LogRecord(Warn, "login attempt blocked", who + [Str("correlation_id", correlationID)] + counts
                                + [Num("retry_after_seconds", remaining), Str("lockout_reason", "identifier")])];
        return CheckResult(false, 0, 0, "identifier", LockoutMessage("identifier", remaining), remaining);
      }
      log := log + [LogRecord(Info, "login attempt allowed", who + [Str("correlation_id", correlationID)] + counts)];
      return CheckResult(true, count, 0, "", "", 0);
    }

    method IncrementIPOnly(who: seq<Field>, ghost identifier: string, ip: string, ghost flowID: string,
                           correlationID: string, fault: Fault)
      returns (r: CheckResult)
      requires Validated(cfg) && identifier == "" && ip != ""
      modifies this`log, redisClient.server`keys
      ensures var e := Attempt(identifier, ip, flowID, correlationID, fault);
        && redisClient.State() == Step(cfg, old(redisClient.State()), e)
        && r == ReplyTo(cfg, old(redisClient.State()), e)
        && log == old(log) + LogOf(cfg, old(redisClient.State()), e, who)
    {
      hide LockoutMessage, KeyText, Bump, BumpReply, ReplyTo, LogOf;
      ghost var e, db := Attempt(identifier, ip, flowID, correlationID, fault), redisClient.State();
      var reply := redisClient.IncrementIPAttempt(ip, cfg.ipLockoutSeconds, fault);
      if reply.Error? {
        BrokenAllows(cfg, db, e, who, reply.text);
        log := log + [LogRecord(Warn, "redis error during IP backoff check, failing open",
                                who + [Str("error", reply.text), Str("correlation_id", correlationID)])];
        return UNCHECKED;
      }
      var Counted(count, remaining) := reply;
      JudgedOne(cfg, db, e, who, IpTally(cfg, count, remaining));
      var counts := [Num("ip_attempts", count), Num("ip_threshold", cfg.maxIPAttempts)];
      if count > cfg.maxIPAttempts {
        log := log + [LogRecord(Warn, "login attempt blocked", who + [Str("correlation_id", correlationID)] + counts
                                + [Num("retry_after_seconds", remaining), Str("lockout_reason", "ip")])];
        return CheckResult(false, 0, 0, "ip", LockoutMessage("ip", remaining), remaining);
      }
      log := log + [LogRecord(Info, "login attempt allowed", who + [Str("correlation_id", correlationID)] + counts)];
      return CheckResult(true, 0, count, "", "", 0);
    }

    method ResetCounters(req: AfterLogin, correlationID: string, fault: Fault) returns (r: AfterLoginResponse)
      modifies this`log, redisClient.server`keys
      ensures var e := ResetEvent(req, correlationID, fault);
        && redisClient.State() == Step(cfg, old(redisClient.State()), e)
        && r == ResetReply(e)
        && log == old(log) + LogOf(cfg, old(redisClient.State()), e, Who(cfg, e.id, e.ip))
      ensures r ==
        if Blank(req.email) && Blank(req.clientIP) then AfterLoginResponse("skipped", "no identifier or IP provided")
        else AfterLoginResponse("success", "counters reset")
      ensures log == old(log) + [
        if Blank(req.email) && Blank(req.clientIP) then
          LogRecord(Warn, "after-login request with no email or IP, skipping reset",
                    [Str("correlation_id", correlationID), Str("identity_id", req.identityID)])
        else if fault.Failed? then
          LogRecord(Warn,
                    if Blank(req.email) then "redis error during IP counter reset, failing open"
                    else if Blank(req.clientIP) then "redis error during identifier counter reset, failing open"
                    else "redis error during counter reset, failing open",
                    Who(cfg, NormaliseIdentifier(req.email), TrimSpace(req.clientIP))
                    + [Str("error", fault.text), Str("correlation_id", correlationID)])
        else
          LogRecord(Info, "login backoff counters reset",
                    Who(cfg, NormaliseIdentifier(req.email), TrimSpace(req.clientIP))
                    + [Str("correlation_id", correlationID), Str("action", "counters_reset")])]
    {
      NothingNamed(req.email, req.clientIP);
      hide NormaliseIdentifier, TrimSpace, Blank, Step, Who;
      var email := NormaliseIdentifier(req.email);
      var ip := TrimSpace(req.clientIP);
      var who := CollectSubjectFields(email, ip);
      r := ResetNormalised(who, email, ip, req.identityID, correlationID, fault);
    }

    /** ResetCounters once its inputs are in normal form. */
    method ResetNormalised(who: seq<Field>, email: string, ip: string, identityID: string, correlationID: string,
                           fault: Fault)
      returns (r: AfterLoginResponse)
      modifies this`log, redisClient.server`keys
      ensures var e := Reset(email, ip, identityID, correlationID, fault);
        && redisClient.State() == Step(cfg, old(redisClient.State()), e)
        && r == ResetReply(e)
        && log == old(log) + LogOf(cfg, old(redisClient.State()), e, who)
    {
      hide KeyText, Erase, ResetKeys;
      if email == "" && ip == "" {
        log := log + [LogRecord(Warn, "after-login request with no email or IP, skipping reset",
                                [Str("correlation_id", correlationID), Str("identity_id", identityID)])];
        NothingToReset(redisClient.State());
        return AfterLoginResponse("skipped", "no identifier or IP provided");
      }
      var resetFailed := false;
      if email != "" && ip != "" {
        var err := redisClient.ResetLoginAttempts(email, ip, fault);
        if err.Some? {
          resetFailed := true;
          log := log + [LogRecord(Warn, "redis error during counter reset, failing open",
                                  who + [Str("error", err.value), Str("correlation_id", correlationID)])];
        }
      } else if email != "" {
        var err := redisClient.ResetLoginAttempts(email, "", fault);
        if err.Some? {
          resetFailed := true;
          log := log + [LogRecord(Warn, "redis error during identifier counter reset, failing open",
                                  who + [Str("error", err.value), Str("correlation_id", correlationID)])];
        }
      } else {
        var err := redisClient.ResetLoginAttempts("", ip, fault);
        if err.Some? {
          resetFailed := true;
          log := log + [LogRecord(Warn, "redis error during IP counter reset, failing open",
                                  who + [Str("error", err.value), Str("correlation_id", correlationID)])];
        }
      }
      if !resetFailed {
        log := log + [LogRecord(Info, "login backoff counters reset",
                                who + [Str("correlation_id", correlationID), Str("action", "counters_reset")])];
      }
      return AfterLoginResponse("success", "counters reset");
    }
  }

  lemma NothingNamed(identifier: string, ip: string)
    ensures NormaliseIdentifier(identifier) == "" <==> Blank(identifier)
    ensures TrimSpace(ip) == "" <==> Blank(ip)
  {
    BlankIs(identifier);
    BlankIs(ip);
    hide TrimSpace, Blank;
    assert |ToLower(TrimSpace(identifier))| == |TrimSpace(identifier)|;
  }

  lemma WhoIs(cfg: Config, identifier: string, ip: string)
    ensures Who(cfg, identifier, ip) ==
      (if identifier != "" && |cfg.logIdentifierHashKey| >= 32 && cfg.hmac(cfg.logIdentifierHashKey, identifier) != ""
       then [Str("identifier_hmac", cfg.hmac(cfg.logIdentifierHashKey, identifier))] else []) +
      (if ParseIP(TrimSpace(ip)).Some? then [Str("client_ip_prefix", IpPrefix(ip))] else [])
  {
    hide ParseIP, Printed, TrimSpace;
  }

  lemma NothingToReset(db: Db)
    ensures Erase(db, ResetKeys("", "")) == db
  {
    assert ResetKeys("", "") == {};
  }
}
