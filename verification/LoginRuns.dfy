/**
 * Runs of the login-backoff service: any interleaving of attempts, resets, welcome marks by the other
 * webhook, clock ticks and faults, over one Redis keyspace. A script is one atomic step, so a run is
 * a sequence of steps. Every counter is seen as a cell, and a run as what it does to one cell.
 */
module LoginRuns {
  import opened Wrappers
  import opened RedisServer
  import opened Clients
  import opened LoginBackoff

  function IdOf(e: Event): string {
    if e.Attempt? || e.Reset? then e.id else ""
  }

  function IpOf(e: Event): string {
    if e.Attempt? || e.Reset? then e.ip else ""
  }

  function Run(cfg: Config, db: Db, es: seq<Event>): Db
    decreases es
  {
    if es == [] then db else Run(cfg, Step(cfg, db, es[0]), es[1..])
  }

  lemma {:induction false} RunSplit(cfg: Config, db: Db, es: seq<Event>, fs: seq<Event>)
    ensures Run(cfg, db, es + fs) == Run(cfg, Run(cfg, db, es), fs)
    decreases es
  {
    if es == [] {
      assert es + fs == fs;
    } else {
      assert (es + fs)[1..] == es[1..] + fs;
      RunSplit(cfg, Step(cfg, db, es[0]), es[1..], fs);
    }
  }

  lemma RunSnoc(cfg: Config, db: Db, es: seq<Event>, e: Event)
    ensures Run(cfg, db, es + [e]) == Step(cfg, Run(cfg, db, es), e)
  {
    RunSplit(cfg, db, es, [e]);
    assert [e][1..] == [];
  }

  lemma RunNothing(cfg: Config, db: Db)
    ensures Run(cfg, db, []) == db
  {
  }

  lemma RunCons(cfg: Config, db: Db, e: Event, es: seq<Event>)
    ensures Run(cfg, db, [e] + es) == Run(cfg, Step(cfg, db, e), es)
  {
    assert ([e] + es)[1..] == es;
  }

  // Cells.

  /** A counter: absent, or open with a count and a deadline; Stuck is anything that never expires or is no number. */
  datatype Cell = Absent | Open(count: int, deadline: int) | Stuck

  function CellOf(db: Db, key: Key): Cell {
    if !Live(db, KeyText(key)) then Absent
    else match db.keys[KeyText(key)]
      case Entry(Number(n), At(t)) => Open(n, t)
      case _ => Stuck
  }

  predicate IsCounter(key: Key) {
    !key.WelcomeKey?
  }

  function Lockout(cfg: Config, key: Key): int {
    if key.IpKey? then cfg.ipLockoutSeconds else cfg.identifierLockoutSeconds
  }

  function Limit(cfg: Config, key: Key): int {
    if key.IpKey? then cfg.maxIPAttempts else cfg.maxIdentifierAttempts
  }

  /** Every live counter counts at least one attempt and has 1..L seconds to go. */
  predicate GoodCell(c: Cell, now: int, lockout: int) {
    c.Absent? || (c.Open? && c.count >= 1 && now < c.deadline <= now + lockout)
  }

  ghost predicate GoodDb(cfg: Config, db: Db) {
    forall k: Key | IsCounter(k) :: GoodCell(CellOf(db, k), db.now, Lockout(cfg, k))
  }

  datatype Op = Hit | Clear | Wait(d: nat) | Skip

  predicate Names(e: Event, key: Key) {
    key.name != "" && ((key.IdentifierKey? && key.name == IdOf(e)) || (key.IpKey? && key.name == IpOf(e)))
  }

  /** What an event does to one counter. */
  function OpOf(e: Event, key: Key): Op {
    match e
    case Tick(d) => Wait(d)
    case Attempt(_, _, _, _, fault) => if Names(e, key) && Applied(fault) then Hit else Skip
    case Reset(_, _, _, _, fault) => if Names(e, key) && Applied(fault) then Clear else Skip
    case Mark(_, _, _) => Skip
  }

  /** A cell and the clock. */
  datatype Watch = Watch(cell: Cell, now: int)

  function Raise(c: Cell, now: int, lockout: int): Cell {
    match c
    case Absent => Open(1, now + lockout)
    case Open(n, t) => Open(n + 1, t)
    case Stuck => Stuck
  }

  function Apply(w: Watch, lockout: int, op: Op): Watch {
    match op
    case Hit => w.(cell := Raise(w.cell, w.now, lockout))
    case Clear => w.(cell := Absent)
    case Wait(d) => Watch(if w.cell.Open? && w.cell.deadline <= w.now + d then Absent else w.cell, w.now + d)
    case Skip => w
  }

  function Watching(db: Db, key: Key): Watch {
    Watch(CellOf(db, key), db.now)
  }

  lemma BumpCell(db: Db, key: Key, other: Key, ttl: int)
    requires ttl > 0 && CellOf(db, key) != Stuck && (CellOf(db, key).Open? ==> CellOf(db, key).count >= 1)
    ensures Countable(db, KeyText(key))
    ensures var after := Bump(db, KeyText(key), ttl);
      && after.now == db.now
      && CellOf(after, other) == if other == key then Raise(CellOf(db, key), db.now, ttl) else CellOf(db, other)
    ensures var c := Raise(CellOf(db, key), db.now, ttl);
      BumpReply(db, KeyText(key), ttl) == Counted(c.count, c.deadline - db.now)
  {
    KeyTextInjective(key, other);
  }

  lemma EraseCell(db: Db, id: string, ip: string, key: Key)
    requires IsCounter(key)
    ensures CellOf(Erase(db, ResetKeys(id, ip)), key) ==
      if key.name != "" && (key == IdentifierKey(id) || key == IpKey(ip)) then Absent else CellOf(db, key)
  {
    KeyTextInjective(key, IdentifierKey(id));
    KeyTextInjective(key, IpKey(ip));
  }

  lemma CountedCell(cfg: Config, db: Db, id: string, ip: string, key: Key)
    requires Validated(cfg) && GoodDb(cfg, db) && IsCounter(key)
    ensures var after := CountedDb(cfg, db, id, ip);
      && after.now == db.now
      && CellOf(after, key) ==
        if key.name != "" && (key == IdentifierKey(id) || key == IpKey(ip))
        then Raise(CellOf(db, key), db.now, Lockout(cfg, key)) else CellOf(db, key)
  {
    var x, y := IdentifierKey(id), IpKey(ip);
    if id != "" {
      assert GoodCell(CellOf(db, x), db.now, Lockout(cfg, x));
      BumpCell(db, x, key, cfg.identifierLockoutSeconds);
      BumpCell(db, x, y, cfg.identifierLockoutSeconds);
    }
    if ip != "" {
      var db1 := if id != "" then Bump(db, KeyText(x), cfg.identifierLockoutSeconds) else db;
      assert GoodCell(CellOf(db, y), db.now, Lockout(cfg, y));
      BumpCell(db1, y, key, cfg.ipLockoutSeconds);
    }
  }

  /** One step seen from one counter: no other step than those that name it can change it. */
  lemma StepCell(cfg: Config, db: Db, e: Event, key: Key)
    requires Validated(cfg) && GoodDb(cfg, db) && IsCounter(key)
    ensures Watching(Step(cfg, db, e), key) == Apply(Watching(db, key), Lockout(cfg, key), OpOf(e, key))
  {
    match e
    case Tick(d) =>
      assert GoodCell(CellOf(db, key), db.now, Lockout(cfg, key));
    case Attempt(_, _, _, _, _) =>
      CountedCell(cfg, db, IdOf(e), IpOf(e), key);
    case Reset(_, _, _, _, _) =>
      EraseCell(db, IdOf(e), IpOf(e), key);
    case Mark(u, _, _) =>
      KeyTextInjective(WelcomeKey(u), key);
  }

  /** No counter is ever permanent: the counter invariant is kept by every step, faulted or not. */
  lemma StepKeepsGood(cfg: Config, db: Db, e: Event)
    requires Validated(cfg) && GoodDb(cfg, db)
    ensures GoodDb(cfg, Step(cfg, db, e))
  {
    hide Step;
    forall k: Key | IsCounter(k)
      ensures GoodCell(CellOf(Step(cfg, db, e), k), Step(cfg, db, e).now, Lockout(cfg, k))
    {
      assert GoodCell(CellOf(db, k), db.now, Lockout(cfg, k));
      StepCell(cfg, db, e, k);
    }
  }

  lemma {:induction false} RunKeepsGood(cfg: Config, db: Db, es: seq<Event>)
    requires Validated(cfg) && GoodDb(cfg, db)
    ensures GoodDb(cfg, Run(cfg, db, es))
    decreases es
  {
    hide Step;
    if es != [] {
      StepKeepsGood(cfg, db, es[0]);
      RunKeepsGood(cfg, Step(cfg, db, es[0]), es[1..]);
    }
  }

  /** From an empty server on, in every reachable state. */
  lemma ReachableIsGood(cfg: Config, now: int, es: seq<Event>)
    requires Validated(cfg)
    ensures GoodDb(cfg, Run(cfg, Db(map[], now), es))
  {
    RunKeepsGood(cfg, Db(map[], now), es);
  }

  // Replies.

  /** A counter as the next attempt on it would see it. */
  function Raised(cfg: Config, db: Db, key: Key): Tally
    requires IsCounter(key) && CellOf(db, key) != Stuck
  {
    var c := Raise(CellOf(db, key), db.now, Lockout(cfg, key));
    Tally(if key.IpKey? then Ip else Identifier, Limit(cfg, key), c.count, c.deadline - db.now)
  }

  function KeysOf(e: Event): (ks: seq<Key>)
    ensures forall k | k in ks :: IsCounter(k) && Names(e, k)
  {
    (if IdOf(e) != "" then [IdentifierKey(IdOf(e))] else []) + (if IpOf(e) != "" then [IpKey(IpOf(e))] else [])
  }

  ghost function TalliesOf(cfg: Config, db: Db, e: Event): (ts: seq<Tally>)
    requires GoodDb(cfg, db)
    ensures |ts| == |KeysOf(e)|
  {
    seq(|KeysOf(e)|, i requires 0 <= i < |KeysOf(e)| => RaisedIn(cfg, db, KeysOf(e)[i]))
  }

  ghost function RaisedIn(cfg: Config, db: Db, key: Key): Tally
    requires GoodDb(cfg, db) && IsCounter(key)
  {
    assert GoodCell(CellOf(db, key), db.now, Lockout(cfg, key));
    Raised(cfg, db, key)
  }

  /** On a good store the scripts never fail by themselves, and report the named counters. */
  lemma EffectIsTallies(cfg: Config, db: Db, e: Event)
    requires Validated(cfg) && GoodDb(cfg, db) && e.Attempt? && e.fault.NoFault? && KeysOf(e) != []
    ensures AttemptEffect(cfg, db, e.id, e.ip, e.fault) == Judged(TalliesOf(cfg, db, e))
  {
    hide KeyText, Bump, BumpReply, CellOf;
    var x, y := IdentifierKey(e.id), IpKey(e.ip);
    assert GoodCell(CellOf(db, x), db.now, Lockout(cfg, x));
    assert GoodCell(CellOf(db, y), db.now, Lockout(cfg, y));
    BumpCell(db, x, y, cfg.identifierLockoutSeconds);
    BumpCell(db, y, y, cfg.ipLockoutSeconds);
    BumpCell(Bump(db, KeyText(x), cfg.identifierLockoutSeconds), y, y, cfg.ipLockoutSeconds);
    assert TalliesOf(cfg, db, e) ==
      (if e.id != "" then [RaisedIn(cfg, db, x)] else []) + (if e.ip != "" then [RaisedIn(cfg, db, y)] else []);
  }

  /** On a good store the reply depends on the named counters alone, and only a fault can fail the call. */
  lemma ReplyIsVerdict(cfg: Config, db: Db, e: Event)
    requires Validated(cfg) && GoodDb(cfg, db) && e.Attempt?
    ensures KeysOf(e) == [] ==> ReplyTo(cfg, db, e) == UNCHECKED
    ensures ReplyTo(cfg, db, e) == if e.fault.Failed? then UNCHECKED else Verdict(TalliesOf(cfg, db, e))
  {
    if KeysOf(e) != [] && e.fault.NoFault? {
      hide AttemptEffect;
      EffectIsTallies(cfg, db, e);
    } else if KeysOf(e) == [] {
      assert TalliesOf(cfg, db, e) == [];
      assert Blocker([]) == None;
    }
  }

  /** The count that the next attempt gives a counter. */
  function NextCount(db: Db, key: Key): int {
    if CellOf(db, key).Open? then CellOf(db, key).count + 1 else 1
  }

  /** The log of an attempt: one record, with its counters, limits and outcome. */
  lemma RecordIs(cfg: Config, db: Db, e: Event, who: seq<Field>)
    requires Validated(cfg) && GoodDb(cfg, db) && e.Attempt?
    ensures var r := ReplyTo(cfg, db, e);
      var corr := [Str("correlation_id", e.corr)];
      LogOf(cfg, db, e, who) == [
        if e.id == "" && e.ip == "" then
          LogRecord(Warn, "before-login request with no identifier or IP, allowing",
                    [Str("correlation_id", e.corr), Str("flow_id", e.flowID)])
        else if e.fault.Failed? then
          LogRecord(Warn,
                    if e.ip == "" then "redis error during identifier backoff check, failing open"
                    else if e.id == "" then "redis error during IP backoff check, failing open"
                    else "redis error during login backoff check, failing open",
                    who + [Str("error", FailureText(e)), Str("correlation_id", e.corr)])
        else if r.allowed then LogRecord(Info, "login attempt allowed", who + corr + CountFields(cfg, db, e))
        else LogRecord(Warn, "login attempt blocked", who + corr + CountFields(cfg, db, e) +
                       [Num("retry_after_seconds", r.retryAfterSeconds), Str("lockout_reason", r.reason)])]
  {
    hide AttemptEffect, RaisedIn, LogOf, ReplyTo, CountFields, FailureText, GoodDb;
    if KeysOf(e) != [] && e.fault.NoFault? {
      EffectIsTallies(cfg, db, e);
      CountedRecord(cfg, db, e, who);
    } else {
      UncountedRecord(cfg, db, e, who);
    }
  }

  /** The counts and limits that the log of an attempt shows. */
  function CountFields(cfg: Config, db: Db, e: Event): seq<Field>
    requires e.Attempt?
  {
    var n, m := NextCount(db, IdentifierKey(e.id)), NextCount(db, IpKey(e.ip));
    if e.ip == "" then
      [Num("identifier_attempts", n), Num("identifier_threshold", cfg.maxIdentifierAttempts)]
    else if e.id == "" then
      [Num("ip_attempts", m), Num("ip_threshold", cfg.maxIPAttempts)]
    else
      [Num("identifier_attempts", n), Num("ip_attempts", m),
       Num("identifier_threshold", cfg.maxIdentifierAttempts), Num("ip_threshold", cfg.maxIPAttempts)]
  }

  /** The error of a failed call, as the client wraps it. */
  function FailureText(e: Event): string
    requires e.Attempt? && e.fault.Failed?
  {
    (if e.ip == "" then "failed to increment identifier attempt: "
     else if e.id == "" then "failed to increment IP attempt: "
     else "failed to increment login attempts: ") + e.fault.text
  }

  lemma UncountedRecord(cfg: Config, db: Db, e: Event, who: seq<Field>)
    requires e.Attempt?
    ensures e.id == "" && e.ip == "" ==>
      LogOf(cfg, db, e, who) ==
        [LogRecord(Warn, "before-login request with no identifier or IP, allowing",
                   [Str("correlation_id", e.corr), Str("flow_id", e.flowID)])]
    ensures (e.id != "" || e.ip != "") && e.fault.Failed? ==>
      LogOf(cfg, db, e, who) ==
        [LogRecord(Warn,
                   if e.ip == "" then "redis error during identifier backoff check, failing open"
                   else if e.id == "" then "redis error during IP backoff check, failing open"
                   else "redis error during login backoff check, failing open",
                   who + [Str("error", FailureText(e)), Str("correlation_id", e.corr)])]
  {
    hide BumpTwo, BumpReply, KeyText, LogOf;
    if e.id == "" && e.ip == "" {
      NothingCounted(cfg, db, e, who);
    } else if e.fault.Failed? {
      FailureIs(cfg, db, e);
      hide AttemptEffect;
      BrokenAllows(cfg, db, e, who, FailureText(e));
    }
  }

  lemma FailureIs(cfg: Config, db: Db, e: Event)
    requires e.Attempt? && (e.id != "" || e.ip != "") && e.fault.Failed?
    ensures AttemptEffect(cfg, db, e.id, e.ip, e.fault) == Broken(FailureText(e))
  {
    hide BumpTwo, BumpReply, KeyText;
  }

  lemma NothingCounted(cfg: Config, db: Db, e: Event, who: seq<Field>)
    requires e.Attempt? && e.id == "" && e.ip == ""
    ensures LogOf(cfg, db, e, who) ==
      [LogRecord(Warn, "before-login request with no identifier or IP, allowing",
                 [Str("correlation_id", e.corr), Str("flow_id", e.flowID)])]
  {
    hide BumpTwo, BumpReply, KeyText;
  }

  lemma CountedRecord(cfg: Config, db: Db, e: Event, who: seq<Field>)
    requires Validated(cfg) && GoodDb(cfg, db) && e.Attempt? && KeysOf(e) != []
    requires AttemptEffect(cfg, db, e.id, e.ip, e.fault) == Judged(TalliesOf(cfg, db, e))
    ensures var r := ReplyTo(cfg, db, e);
      var fields := who + [Str("correlation_id", e.corr)] + CountFields(cfg, db, e);
      LogOf(cfg, db, e, who) == [
        if r.allowed then LogRecord(Info, "login attempt allowed", fields)
        else LogRecord(Warn, "login attempt blocked",
                       fields + [Num("retry_after_seconds", r.retryAfterSeconds), Str("lockout_reason", r.reason)])]
  {
    hide AttemptEffect, LogOf, ReplyTo, GoodDb, Reason, RaisedIn, NextCount, LockoutMessage;
    var x, y := IdentifierKey(e.id), IpKey(e.ip);
    var tallies := TalliesOf(cfg, db, e);
    RaisedCounts(cfg, db, x);
    RaisedCounts(cfg, db, y);
    var t, u := RaisedIn(cfg, db, x), RaisedIn(cfg, db, y);
    if e.id != "" && e.ip != "" {
      assert tallies == [t, u];
      JudgedTwo(cfg, db, e, who, t, u);
    } else if e.id != "" {
      assert tallies == [t];
      JudgedOne(cfg, db, e, who, t);
    } else {
      assert tallies == [u];
      JudgedOne(cfg, db, e, who, u);
    }
  }

  lemma RaisedCounts(cfg: Config, db: Db, key: Key)
    requires GoodDb(cfg, db) && IsCounter(key)
    ensures var t := RaisedIn(cfg, db, key);
      && t.count == NextCount(db, key) && t.limit == Limit(cfg, key)
      && t.dim == if key.IpKey? then Ip else Identifier
  {
    assert GoodCell(CellOf(db, key), db.now, Lockout(cfg, key));
  }

  /** A counter at which the next attempt is over the limit. */
  predicate Full(cfg: Config, db: Db, key: Key) {
    CellOf(db, key).Open? && CellOf(db, key).count >= Limit(cfg, key)
  }

  /** The tallies of an attempt, one by one: over the limit when the counter is full, and due when it is. */
  lemma TallyIs(cfg: Config, db: Db, e: Event, i: nat)
    requires Validated(cfg) && GoodDb(cfg, db) && i < |KeysOf(e)|
    ensures var t, key := TalliesOf(cfg, db, e)[i], KeysOf(e)[i];
      && (Locked(t) <==> Full(cfg, db, key))
      && (Full(cfg, db, key) ==> t.remaining == CellOf(db, key).deadline - db.now)
      && 1 <= t.remaining <= Lockout(cfg, key)
      && key == if t.dim.Ip? then IpKey(IpOf(e)) else IdentifierKey(IdOf(e))
  {
    assert GoodCell(CellOf(db, KeysOf(e)[i]), db.now, Lockout(cfg, KeysOf(e)[i]));
  }

  /** An attempt is let through exactly when its call fails or none of its counters is full. */
  lemma AllowedIff(cfg: Config, db: Db, e: Event)
    requires Validated(cfg) && GoodDb(cfg, db) && e.Attempt?
    ensures ReplyTo(cfg, db, e).allowed <==> e.fault.Failed? || forall k | k in KeysOf(e) :: !Full(cfg, db, k)
  {
    hide ReplyTo, Verdict, Full, Locked, KeysOf;
    ReplyIsVerdict(cfg, db, e);
    if e.fault.NoFault? {
      var tallies, ks := TalliesOf(cfg, db, e), KeysOf(e);
      var i := VerdictReports(tallies);
      forall j | 0 <= j < |tallies|
        ensures Locked(tallies[j]) <==> Full(cfg, db, ks[j])
      {
        TallyIs(cfg, db, e, j);
      }
      SameSomewhere(cfg, db, tallies, ks);
    }
  }

  lemma SameSomewhere(cfg: Config, db: Db, tallies: seq<Tally>, ks: seq<Key>)
    requires |tallies| == |ks| && forall j | 0 <= j < |tallies| :: Locked(tallies[j]) <==> Full(cfg, db, ks[j])
    ensures (forall t | t in tallies :: !Locked(t)) <==> (forall k | k in ks :: !Full(cfg, db, k))
  {
    hide Locked, Full;
    if forall t | t in tallies :: !Locked(t) {
      forall k | k in ks
        ensures !Full(cfg, db, k)
      {
        var j :| 0 <= j < |ks| && ks[j] == k;
        assert tallies[j] in tallies;
      }
    }
  }

  /** The counter that a reply's reason names. */
  function KeyFor(e: Event, reason: string): Key {
    if reason == "ip" then IpKey(IpOf(e)) else IdentifierKey(IdOf(e))
  }

  /** A blocked reply reports a full counter of the attempt, its time to go, and no shorter wait than any other. */
  lemma BlockedMeansFull(cfg: Config, db: Db, e: Event, r: CheckResult)
    requires Validated(cfg) && GoodDb(cfg, db) && e.Attempt?
    requires r == ReplyTo(cfg, db, e) && !r.allowed
    ensures e.fault.NoFault? && (r.reason == "ip" || r.reason == "identifier")
    ensures var key := KeyFor(e, r.reason);
      && key in KeysOf(e) && Full(cfg, db, key)
      && CellOf(db, key).deadline == db.now + r.retryAfterSeconds
      && 1 <= r.retryAfterSeconds <= Lockout(cfg, key)
    ensures forall k | k in KeysOf(e) && Full(cfg, db, k) :: CellOf(db, k).deadline <= db.now + r.retryAfterSeconds
  {
    hide ReplyTo;
    ReplyIsVerdict(cfg, db, e);
    VerdictMeansFull(cfg, db, e, TalliesOf(cfg, db, e), r);
  }

  lemma VerdictMeansFull(cfg: Config, db: Db, e: Event, tallies: seq<Tally>, r: CheckResult)
    requires Validated(cfg) && GoodDb(cfg, db) && tallies == TalliesOf(cfg, db, e)
    requires r == Verdict(tallies) && !r.allowed
    ensures r.reason == "ip" || r.reason == "identifier"
    ensures var key := KeyFor(e, r.reason);
      && key in KeysOf(e) && Full(cfg, db, key)
      && CellOf(db, key).deadline == db.now + r.retryAfterSeconds
      && 1 <= r.retryAfterSeconds <= Lockout(cfg, key)
    ensures forall k | k in KeysOf(e) && Full(cfg, db, k) :: CellOf(db, k).deadline <= db.now + r.retryAfterSeconds
  {
    hide Verdict, Locked, KeysOf, TalliesOf, CellOf, GoodDb;
    var ks := KeysOf(e);
    var i := VerdictReports(tallies);
    TallyIs(cfg, db, e, i);
    assert KeyFor(e, r.reason) == ks[i];
    forall k | k in ks && Full(cfg, db, k)
      ensures CellOf(db, k).deadline <= db.now + r.retryAfterSeconds
    {
      var j :| 0 <= j < |ks| && ks[j] == k;
      TallyIs(cfg, db, e, j);
      assert tallies[j] in tallies;
    }
  }

  // Projection.

  function Project(es: seq<Event>, key: Key): seq<Op> {
    seq(|es|, i requires 0 <= i < |es| => OpOf(es[i], key))
  }

  function WatchRun(w: Watch, lockout: int, ops: seq<Op>): Watch {
    if ops == [] then w else Apply(WatchRun(w, lockout, ops[..|ops| - 1]), lockout, ops[|ops| - 1])
  }

  /** The events that touch one counter, and the clock ticks. */
  function Only(es: seq<Event>, key: Key): seq<Event> {
    if es == [] then []
    else Only(es[..|es| - 1], key) + if OpOf(es[|es| - 1], key).Skip? then [] else [es[|es| - 1]]
  }

  /** One counter of a whole run obeys the cell rules alone. */
  lemma {:induction false} RunCell(cfg: Config, db: Db, es: seq<Event>, key: Key)
    requires Validated(cfg) && GoodDb(cfg, db) && IsCounter(key)
    ensures GoodDb(cfg, Run(cfg, db, es))
    ensures Watching(Run(cfg, db, es), key) == WatchRun(Watching(db, key), Lockout(cfg, key), Project(es, key))
    decreases |es|
  {
    hide Step, OpOf, Apply, GoodDb, CellOf;
    RunKeepsGood(cfg, db, es);
    if es != [] {
      var n := |es| - 1;
      var pre, e := es[..n], es[n];
      RunCell(cfg, db, pre, key);
      assert es == pre + [e];
      RunSnoc(cfg, db, pre, e);
      StepCell(cfg, Run(cfg, db, pre), e, key);
      assert Project(es, key)[..n] == Project(pre, key);
    }
  }

  /** Dropping every event that does not touch a counter changes nothing about it, at any point of the run. */
  lemma {:induction false} NonInterference(cfg: Config, db: Db, es: seq<Event>, key: Key)
    requires Validated(cfg) && GoodDb(cfg, db) && IsCounter(key)
    ensures Watching(Run(cfg, db, Only(es, key)), key) == Watching(Run(cfg, db, es), key)
    ensures GoodDb(cfg, Run(cfg, db, Only(es, key))) && GoodDb(cfg, Run(cfg, db, es))
    ensures RaisedIn(cfg, Run(cfg, db, Only(es, key)), key) == RaisedIn(cfg, Run(cfg, db, es), key)
  {
    RunCell(cfg, db, es, key);
    RunCell(cfg, db, Only(es, key), key);
    SkipsDoNothing(Watching(db, key), Lockout(cfg, key), es, key);
  }

  lemma WatchSnoc(w: Watch, lockout: int, es: seq<Event>, e: Event, key: Key)
    ensures WatchRun(w, lockout, Project(es + [e], key)) ==
      Apply(WatchRun(w, lockout, Project(es, key)), lockout, OpOf(e, key))
  {
    hide OpOf, Apply;
    assert Project(es + [e], key)[..|es|] == Project(es, key);
  }

  lemma {:induction false} SkipsDoNothing(w: Watch, lockout: int, es: seq<Event>, key: Key)
    ensures WatchRun(w, lockout, Project(Only(es, key), key)) == WatchRun(w, lockout, Project(es, key))
    decreases |es|
  {
    hide OpOf, Project, WatchRun;
    if es != [] {
      var n := |es| - 1;
      var kept := Only(es[..n], key);
      assert es == es[..n] + [es[n]];
      SkipsDoNothing(w, lockout, es[..n], key);
      WatchSnoc(w, lockout, es[..n], es[n], key);
      if !OpOf(es[n], key).Skip? {
        WatchSnoc(w, lockout, kept, es[n], key);
      } else {
        assert Only(es, key) == kept;
      }
    } else {
      assert Only(es, key) == es;
    }
  }

  /** The clock of a run, and of each of its prefixes. */
  function Elapsed(ops: seq<Op>): nat {
    if ops == [] then 0
    else Elapsed(ops[..|ops| - 1]) + if ops[|ops| - 1].Wait? then ops[|ops| - 1].d else 0
  }

  lemma {:induction false} WatchClock(w: Watch, lockout: int, ops: seq<Op>)
    ensures WatchRun(w, lockout, ops).now == w.now + Elapsed(ops)
    decreases |ops|
  {
    if ops != [] {
      WatchClock(w, lockout, ops[..|ops| - 1]);
    }
  }
}
