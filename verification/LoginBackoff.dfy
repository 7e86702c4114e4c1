/**
 * What the login-backoff service (service.go) does in one step: counting an attempt, judging it,
 * resetting, and what it logs. Identifiers and IPs are in normal form here; the events below say how
 * requests are brought into it.
 */
module LoginBackoff {
  import opened Wrappers
  import opened Text
  import opened LogFields
  import opened RedisServer
  import opened Clients

  datatype Config = Config(
    maxIdentifierAttempts: int,
    maxIPAttempts: int,
    identifierLockoutSeconds: int,
    ipLockoutSeconds: int,
    logIdentifierHashKey: string,
    hmac: (string, string) -> string)

  /** validateLoginBackoffConfig */
  predicate Validated(cfg: Config) {
    && cfg.maxIdentifierAttempts > 0
    && cfg.maxIPAttempts > 0
    && cfg.identifierLockoutSeconds > 0
    && cfg.ipLockoutSeconds > 0
  }

  datatype BeforeLogin = BeforeLogin(flowID: string, identifier: string, clientIP: string)
  datatype AfterLogin = AfterLogin(identityID: string, email: string, clientIP: string)
  datatype AfterLoginResponse = AfterLoginResponse(status: string, message: string)

  datatype CheckResult = CheckResult(
    allowed: bool,
    identifierAttempts: int,
    ipAttempts: int,
    reason: string,
    message: string,
    retryAfterSeconds: int)

  datatype Level = Info | Warn
  datatype Field = Str(name: string, text: string) | Num(name: string, n: int)
  datatype LogRecord = LogRecord(level: Level, message: string, fields: seq<Field>)

  // Judging.

  /** One counter of an attempt, as the script returned it. */
  datatype Tally = Tally(dim: Dimension, limit: int, count: int, remaining: int)

  datatype Dimension = Identifier | Ip

  function Reason(d: Dimension): string {
    if d.Ip? then "ip" else "identifier"
  }

  predicate Locked(t: Tally) {
    t.count > t.limit
  }

  /** The counter at index k is locked, no locked one has a longer wait, and none before it has as long a wait. */
  predicate Blocks(tallies: seq<Tally>, k: nat)
    requires k < |tallies|
  {
    && Locked(tallies[k])
    && (forall j | 0 <= j < |tallies| && Locked(tallies[j]) :: tallies[j].remaining <= tallies[k].remaining)
    && (forall j | 0 <= j < k && Locked(tallies[j]) :: tallies[j].remaining < tallies[k].remaining)
  }

  /** The locked counter with the longest wait, the earlier one on a tie. */
  function Blocker(tallies: seq<Tally>): (b: Option<Tally>)
    ensures b == None <==> forall t | t in tallies :: !Locked(t)
    ensures b.Some? ==> exists k :: 0 <= k < |tallies| && Blocks(tallies, k) && b.value == tallies[k]
  {
    if tallies == [] then None
    else
      var rest := Blocker(tallies[1..]);
      assert tallies == [tallies[0]] + tallies[1..];
      if rest.Some? && (!Locked(tallies[0]) || rest.value.remaining > tallies[0].remaining) then
        Later(tallies, rest.value);
        rest
      else if Locked(tallies[0]) then
        FirstBlocks(tallies, rest);
        Some(tallies[0])
      else None
  }

  lemma Later(tallies: seq<Tally>, b: Tally)
    requires tallies != [] && (Locked(tallies[0]) ==> b.remaining > tallies[0].remaining)
    requires exists k :: 0 <= k < |tallies[1..]| && Blocks(tallies[1..], k) && b == tallies[1..][k]
    ensures exists k :: 0 <= k < |tallies| && Blocks(tallies, k) && b == tallies[k]
  {
    var k :| 0 <= k < |tallies[1..]| && Blocks(tallies[1..], k) && b == tallies[1..][k];
    assert forall j | 0 < j < |tallies| :: tallies[j] == tallies[1..][j - 1];
    assert Blocks(tallies, k + 1);
  }

  lemma FirstBlocks(tallies: seq<Tally>, rest: Option<Tally>)
    requires tallies != [] && Locked(tallies[0]) && (rest.Some? ==> rest.value.remaining <= tallies[0].remaining)
    requires rest == None <==> forall t | t in tallies[1..] :: !Locked(t)
    requires rest.Some? ==>
      exists k :: 0 <= k < |tallies[1..]| && Blocks(tallies[1..], k) && rest.value == tallies[1..][k]
    ensures Blocks(tallies, 0)
  {
    assert forall j | 0 < j < |tallies| :: tallies[j] == tallies[1..][j - 1] && tallies[j] in tallies[1..];
  }

  /** An attempt is allowed when no counter it raised is over its limit. */
  function Verdict(tallies: seq<Tally>): CheckResult {
    match Blocker(tallies)
    case None => CheckResult(true, CountOf(tallies, Identifier), CountOf(tallies, Ip), "", "", 0)
    case Some(t) => CheckResult(false, 0, 0, Reason(t.dim), LockoutMessage(Reason(t.dim), t.remaining), t.remaining)
  }

  function CountOf(tallies: seq<Tally>, d: Dimension): int {
    if tallies == [] then 0
    else if tallies[0].dim == d then tallies[0].count
    else CountOf(tallies[1..], d)
  }

  const UNCHECKED := CheckResult(true, 0, 0, "", "", 0)

  /** Go's integer division, which truncates toward zero. */
  function TruncatedDiv(a: int, b: int): int
    requires b > 0
  {
    if a < 0 then -(-a / b) else a / b
  }

  function Minutes(remainingSeconds: int): int {
    TruncatedDiv(remainingSeconds + 59, 60)
  }

  const ADDRESS_LOCKED := "Too many login attempts from this address. Try again in "
  const ACCOUNT_LOCKED := "Account temporarily locked due to too many failed attempts. Try again in "

  function LockoutMessage(reason: string, remainingSeconds: int): string {
    (if reason == "ip" then ADDRESS_LOCKED else ACCOUNT_LOCKED) + Itoa(Minutes(remainingSeconds)) + " minutes."
  }

  // One attempt on the store.

  datatype Effect = Uncounted | Broken(text: string) | Judged(tallies: seq<Tally>)

  function IdTally(cfg: Config, count: int, remaining: int): Tally {
    Tally(Identifier, cfg.maxIdentifierAttempts, count, remaining)
  }

  function IpTally(cfg: Config, count: int, remaining: int): Tally {
    Tally(Ip, cfg.maxIPAttempts, count, remaining)
  }

  /** The store after an attempt that reached it, for a normalised identifier and a trimmed IP. */
  function CountedDb(cfg: Config, db: Db, id: string, ip: string): Db {
    var idKey, ipKey := KeyText(IdentifierKey(id)), KeyText(IpKey(ip));
    if id != "" && ip != "" then BumpTwo(db, idKey, ipKey, cfg.identifierLockoutSeconds, cfg.ipLockoutSeconds).0
    else if id != "" then Bump(db, idKey, cfg.identifierLockoutSeconds)
    else if ip != "" then Bump(db, ipKey, cfg.ipLockoutSeconds)
    else db
  }

  function AttemptEffect(cfg: Config, db: Db, id: string, ip: string, fault: Fault): Effect {
    var idKey, ipKey := KeyText(IdentifierKey(id)), KeyText(IpKey(ip));
    if id == "" && ip == "" then Uncounted
    else if id != "" && ip != "" then
      if fault.Failed? then Broken("failed to increment login attempts: " + fault.text)
      else match BumpTwo(db, idKey, ipKey, cfg.identifierLockoutSeconds, cfg.ipLockoutSeconds).1
        case BothError(text) => Broken("failed to increment login attempts: " + text)
        case CountedBoth(n, r, m, s) => Judged([IdTally(cfg, n, r), IpTally(cfg, m, s)])
    else if id != "" then
      if fault.Failed? then Broken("failed to increment identifier attempt: " + fault.text)
      else match BumpReply(db, idKey, cfg.identifierLockoutSeconds)
        case Error(text) => Broken("failed to increment identifier attempt: " + text)
        case Counted(n, r) => Judged([IdTally(cfg, n, r)])
    else
      if fault.Failed? then Broken("failed to increment IP attempt: " + fault.text)
      else match BumpReply(db, ipKey, cfg.ipLockoutSeconds)
        case Error(text) => Broken("failed to increment IP attempt: " + text)
        case Counted(n, r) => Judged([IpTally(cfg, n, r)])
  }

  /** The answer to an attempt: uncounted and failed ones are let through. */
  function Answer(e: Effect): CheckResult {
    if e.Judged? then Verdict(e.tallies) else UNCHECKED
  }

  // Log records.

  const MIN_HASH_KEY_BYTES := 32

  function HashKey(cfg: Config): string {
    if |cfg.logIdentifierHashKey| < MIN_HASH_KEY_BYTES then "" else cfg.logIdentifierHashKey
  }

  /** The only fields that describe who is logging in: two pseudonyms, each left out when empty. */
  function SubjectFields(hash: string, prefix: string): seq<Field> {
    (if hash != "" then [Str("identifier_hmac", hash)] else []) +
    (if prefix != "" then [Str("client_ip_prefix", prefix)] else [])
  }

  function Who(cfg: Config, id: string, ip: string): seq<Field> {
    SubjectFields(IdentifierHash(cfg.hmac, HashKey(cfg), id), IpPrefix(ip))
  }

  function Attempts(t: Tally): Field {
    Num(if t.dim.Ip? then "ip_attempts" else "identifier_attempts", t.count)
  }

  function Threshold(t: Tally): Field {
    Num(if t.dim.Ip? then "ip_threshold" else "identifier_threshold", t.limit)
  }

  function Counts(tallies: seq<Tally>): seq<Field> {
    seq(|tallies|, i requires 0 <= i < |tallies| => Attempts(tallies[i])) +
    seq(|tallies|, i requires 0 <= i < |tallies| => Threshold(tallies[i]))
  }

  function FailedCheck(id: string, ip: string): string {
    if id != "" && ip != "" then "redis error during login backoff check, failing open"
    else if id != "" then "redis error during identifier backoff check, failing open"
    else "redis error during IP backoff check, failing open"
  }

  function FailedReset(email: string, ip: string): string {
    if email != "" && ip != "" then "redis error during counter reset, failing open"
    else if email != "" then "redis error during identifier counter reset, failing open"
    else "redis error during IP counter reset, failing open"
  }

  /** The record of a counted attempt; who holds its subject fields. */
  function AttemptLog(who: seq<Field>, id: string, ip: string, flowID: string, corr: string, e: Effect): LogRecord {
    match e
    case Uncounted =>
      LogRecord(Warn, "before-login request with no identifier or IP, allowing",
                [Str("correlation_id", corr), Str("flow_id", flowID)])
    case Broken(text) =>
      LogRecord(Warn, FailedCheck(id, ip), who + [Str("error", text), Str("correlation_id", corr)])
    case Judged(tallies) =>
      var fields := who + [Str("correlation_id", corr)] + Counts(tallies);
      match Blocker(tallies)
      case None => LogRecord(Info, "login attempt allowed", fields)
      case Some(t) =>
        LogRecord(Warn, "login attempt blocked",
                  fields + [Num("retry_after_seconds", t.remaining), Str("lockout_reason", Reason(t.dim))])
  }

  function ResetLog(who: seq<Field>, email: string, ip: string, identityID: string, corr: string,
                    fault: Fault): LogRecord {
    if email == "" && ip == "" then
      LogRecord(Warn, "after-login request with no email or IP, skipping reset",
                [Str("correlation_id", corr), Str("identity_id", identityID)])
    else if fault.Failed? then
      LogRecord(Warn, FailedReset(email, ip), who + [Str("error", fault.text), Str("correlation_id", corr)])
    else
      LogRecord(Info, "login backoff counters reset",
                who + [Str("correlation_id", corr), Str("action", "counters_reset")])
  }

  // Steps.

  /** One atomic step of the store; id and ip are a normalised identifier and a trimmed IP. */
  datatype Event =
    | Tick(d: nat)
    | Attempt(id: string, ip: string, flowID: string, corr: string, fault: Fault)
    | Reset(id: string, ip: string, identityID: string, corr: string, fault: Fault)
    | Mark(identity: string, stamp: string, fault: Fault)

  function AttemptEvent(req: BeforeLogin, corr: string, fault: Fault): Event {
    Attempt(NormaliseIdentifier(req.identifier), TrimSpace(req.clientIP), req.flowID, corr, fault)
  }

  function ResetEvent(req: AfterLogin, corr: string, fault: Fault): Event {
    Reset(NormaliseIdentifier(req.email), TrimSpace(req.clientIP), req.identityID, corr, fault)
  }

  function Step(cfg: Config, db: Db, e: Event): Db {
    match e
    case Tick(d) => db.(now := db.now + d)
    case Attempt(id, ip, _, _, fault) => if Applied(fault) then CountedDb(cfg, db, id, ip) else db
    case Reset(id, ip, _, _, fault) => if Applied(fault) then Erase(db, ResetKeys(id, ip)) else db
    case Mark(u, stamp, fault) => if Applied(fault) then Marked(db, u, stamp) else db
  }

  function ReplyTo(cfg: Config, db: Db, e: Event): CheckResult
    requires e.Attempt?
  {
    Answer(AttemptEffect(cfg, db, e.id, e.ip, e.fault))
  }

  function ResetReply(e: Event): AfterLoginResponse
    requires e.Reset?
  {
    if e.id == "" && e.ip == "" then AfterLoginResponse("skipped", "no identifier or IP provided")
    else AfterLoginResponse("success", "counters reset")
  }

  /** The records a step writes, given the subject fields of its identifier and IP. */
  function LogOf(cfg: Config, db: Db, e: Event, who: seq<Field>): seq<LogRecord> {
    match e
    case Attempt(id, ip, flowID, corr, fault) =>
      [AttemptLog(who, id, ip, flowID, corr, AttemptEffect(cfg, db, id, ip, fault))]
    case Reset(id, ip, identityID, corr, fault) => [ResetLog(who, id, ip, identityID, corr, fault)]
    case _ => []
  }

  lemma BlockerOfOne(t: Tally)
    ensures Blocker([t]) == if Locked(t) then Some(t) else None
    ensures CountOf([t], t.dim) == t.count
    ensures forall d | d != t.dim :: CountOf([t], d) == 0
  {
    assert Blocker([]) == None;
  }

  lemma BlockerOfTwo(t: Tally, u: Tally)
    requires t.dim != u.dim
    ensures Blocker([t, u]) ==
      if !Locked(t) && !Locked(u) then None
      else if Locked(u) && (!Locked(t) || u.remaining > t.remaining) then Some(u)
      else Some(t)
    ensures CountOf([t, u], t.dim) == t.count && CountOf([t, u], u.dim) == u.count
  {
    BlockerOfOne(u);
    assert [t, u][1..] == [u];
  }

  /** The first tally of a dimension. */
  predicate IsFirst(tallies: seq<Tally>, d: Dimension, k: nat)
    requires k < |tallies|
  {
    tallies[k].dim == d && forall j | 0 <= j < k :: tallies[j].dim != d
  }

  /** The count reported for a dimension is that of its first tally, 0 when it has none. */
  predicate Reports(tallies: seq<Tally>, d: Dimension, n: int) {
    || (n == 0 && forall t | t in tallies :: t.dim != d)
    || (exists k :: 0 <= k < |tallies| && IsFirst(tallies, d, k) && tallies[k].count == n)
  }

  lemma {:induction false} CountIsReported(tallies: seq<Tally>, d: Dimension)
    ensures Reports(tallies, d, CountOf(tallies, d))
  {
    if tallies != [] {
      var tail := tallies[1..];
      assert tallies == [tallies[0]] + tail;
      if tallies[0].dim == d {
        assert IsFirst(tallies, d, 0);
      } else {
        CountIsReported(tail, d);
        if exists k :: 0 <= k < |tail| && IsFirst(tail, d, k) && tail[k].count == CountOf(tail, d) {
          var k :| 0 <= k < |tail| && IsFirst(tail, d, k) && tail[k].count == CountOf(tail, d);
          FirstInTail(tallies, d, k);
        }
      }
    }
  }

  lemma FirstInTail(tallies: seq<Tally>, d: Dimension, k: nat)
    requires tallies != [] && tallies[0].dim != d && k < |tallies| - 1 && IsFirst(tallies[1..], d, k)
    ensures IsFirst(tallies, d, k + 1) && tallies[k + 1] == tallies[1..][k]
  {
    assert forall j | 0 < j < |tallies| :: tallies[j] == tallies[1..][j - 1];
  }

  /** A blocked verdict reports its locked tally with the longest wait, the first of those; allowed means
      that none is locked, and reports the counts. */
  lemma VerdictReports(tallies: seq<Tally>) returns (i: nat)
    ensures Verdict(tallies).allowed <==> forall t | t in tallies :: !Locked(t)
    ensures !Verdict(tallies).allowed ==>
      && i < |tallies| && Blocks(tallies, i)
      && Verdict(tallies).reason == Reason(tallies[i].dim)
      && Verdict(tallies).retryAfterSeconds == tallies[i].remaining
      && (Verdict(tallies).reason == "ip" <==> tallies[i].dim.Ip?)
      && (Verdict(tallies).reason == "ip" || Verdict(tallies).reason == "identifier")
      && Verdict(tallies).message == LockoutMessage(Verdict(tallies).reason, Verdict(tallies).retryAfterSeconds)
    ensures !Verdict(tallies).allowed ==>
      forall t | t in tallies && Locked(t) :: t.remaining <= Verdict(tallies).retryAfterSeconds
    ensures Verdict(tallies).allowed ==>
      && Reports(tallies, Identifier, Verdict(tallies).identifierAttempts)
      && Reports(tallies, Ip, Verdict(tallies).ipAttempts)
  {
    hide LockoutMessage, Reports;
    i := 0;
    var b := Blocker(tallies);
    if b.Some? {
      i :| i < |tallies| && Blocks(tallies, i) && tallies[i] == b.value;
      ReasonsDiffer(b.value.dim);
    } else {
      CountIsReported(tallies, Identifier);
      CountIsReported(tallies, Ip);
    }
  }

  lemma ReasonsDiffer(d: Dimension)
    ensures Reason(d) == "ip" <==> d.Ip?
    ensures Reason(d) == "ip" || Reason(d) == "identifier"
  {
    assert |"ip"| != |"identifier"|;
  }

  /** A single counted attempt, as reply and as log record. */
  lemma JudgedOne(cfg: Config, db: Db, e: Event, who: seq<Field>, t: Tally)
    requires e.Attempt? && AttemptEffect(cfg, db, e.id, e.ip, e.fault) == Judged([t])
    ensures ReplyTo(cfg, db, e) ==
      if Locked(t) then CheckResult(false, 0, 0, Reason(t.dim), LockoutMessage(Reason(t.dim), t.remaining), t.remaining)
      else CheckResult(true, if t.dim.Ip? then 0 else t.count, if t.dim.Ip? then t.count else 0, "", "", 0)
    ensures var fields := who + [Str("correlation_id", e.corr)] + [Attempts(t), Threshold(t)];
      LogOf(cfg, db, e, who) ==
        if Locked(t) then
          var more := [Num("retry_after_seconds", t.remaining), Str("lockout_reason", Reason(t.dim))];
          [LogRecord(Warn, "login attempt blocked", fields + more)]
        else [LogRecord(Info, "login attempt allowed", fields)]
  {
    hide AttemptEffect, LockoutMessage, Blocker, CountOf;
    BlockerOfOne(t);
    assert Counts([t]) == [Attempts(t), Threshold(t)];
  }

  /** An attempt counted for both, as reply and as log record. */
  lemma JudgedTwo(cfg: Config, db: Db, e: Event, who: seq<Field>, t: Tally, u: Tally)
    requires e.Attempt? && AttemptEffect(cfg, db, e.id, e.ip, e.fault) == Judged([t, u])
    requires t.dim.Identifier? && u.dim.Ip?
    ensures var b := if Locked(u) && (!Locked(t) || u.remaining > t.remaining) then u else t;
      var fields := who + [Str("correlation_id", e.corr)] + [Attempts(t), Attempts(u), Threshold(t), Threshold(u)];
      if !Locked(t) && !Locked(u) then
        && ReplyTo(cfg, db, e) == CheckResult(true, t.count, u.count, "", "", 0)
        && LogOf(cfg, db, e, who) == [LogRecord(Info, "login attempt allowed", fields)]
      else
        && ReplyTo(cfg, db, e) ==
             CheckResult(false, 0, 0, Reason(b.dim), LockoutMessage(Reason(b.dim), b.remaining), b.remaining)
        && LogOf(cfg, db, e, who) ==
             [LogRecord(Warn, "login attempt blocked",
                        fields + [Num("retry_after_seconds", b.remaining), Str("lockout_reason", Reason(b.dim))])]
  {
    hide AttemptEffect, LockoutMessage, Blocker, CountOf, Reason, Attempts, Threshold;
    BlockerOfTwo(t, u);
    assert Counts([t, u]) == [Attempts(t), Attempts(u), Threshold(t), Threshold(u)];
  }

  /** A failed attempt is let through. */
  lemma BrokenAllows(cfg: Config, db: Db, e: Event, who: seq<Field>, text: string)
    requires e.Attempt? && AttemptEffect(cfg, db, e.id, e.ip, e.fault) == Broken(text)
    ensures ReplyTo(cfg, db, e) == UNCHECKED
    ensures LogOf(cfg, db, e, who) ==
      [LogRecord(Warn, FailedCheck(e.id, e.ip), who + [Str("error", text), Str("correlation_id", e.corr)])]
  {
    hide AttemptEffect;
  }
}
