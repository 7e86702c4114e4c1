/** Lockouts in time: they hold until their deadline, cannot be extended, and end when they say. */
module LoginLockout {
  import opened Text
  import opened RedisServer
  import opened Clients
  import opened LoginBackoff
  import opened LoginRuns
  import opened LoginHistory

  predicate NeverCleared(es: seq<Event>, key: Key) {
    forall i | 0 <= i < |es| :: !OpOf(es[i], key).Clear?
  }

  predicate Untouched(es: seq<Event>, key: Key) {
    forall i | 0 <= i < |es| :: OpOf(es[i], key).Wait? || OpOf(es[i], key).Skip?
  }

  predicate NeverHit(es: seq<Event>, key: Key) {
    forall i | 0 <= i < |es| :: !OpOf(es[i], key).Hit?
  }

  lemma {:induction false} NoWindowOpens(w: Watch, lockout: int, ops: seq<Op>)
    requires w.cell.Absent? && forall i | 0 <= i < |ops| :: !ops[i].Hit?
    ensures WatchRun(w, lockout, ops).cell.Absent?
    decreases |ops|
  {
    if ops != [] {
      NoWindowOpens(w, lockout, ops[..|ops| - 1]);
    }
  }

  /** An absent counter stays so until an attempt names it. */
  lemma AbsentStays(cfg: Config, db: Db, es: seq<Event>, key: Key)
    requires Validated(cfg) && GoodDb(cfg, db) && IsCounter(key) && CellOf(db, key).Absent? && NeverHit(es, key)
    ensures CellOf(Run(cfg, db, es), key).Absent?
  {
    RunCell(cfg, db, es, key);
    NoWindowOpens(Watching(db, key), Lockout(cfg, key), Project(es, key));
  }

  /** Without a reset an open window only counts up, and keeps the deadline it was opened with. */
  lemma {:induction false} WindowKeepsDeadline(w: Watch, lockout: int, ops: seq<Op>)
    requires w.cell.Open? && w.now < w.cell.deadline
    requires forall i | 0 <= i < |ops| :: !ops[i].Clear?
    requires w.now + Elapsed(ops) < w.cell.deadline
    ensures WatchRun(w, lockout, ops) == Watch(Open(w.cell.count + Hits(ops), w.cell.deadline), w.now + Elapsed(ops))
    decreases |ops|
  {
    if ops != [] {
      WindowKeepsDeadline(w, lockout, ops[..|ops| - 1]);
    }
  }

  /** Left alone until its deadline or later, a window is gone, with nothing left behind. */
  lemma {:induction false} WindowRunsOut(w: Watch, lockout: int, ops: seq<Op>)
    requires !w.cell.Stuck? && (w.cell.Open? ==> w.now < w.cell.deadline)
    requires forall i | 0 <= i < |ops| :: ops[i].Wait? || ops[i].Skip?
    ensures WatchRun(w, lockout, ops) == Apply(w, lockout, Wait(Elapsed(ops)))
    decreases |ops|
  {
    if ops != [] {
      WindowRunsOut(w, lockout, ops[..|ops| - 1]);
    }
  }

  /** Once an attempt has been blocked over some identifier or IP, every later attempt on it is blocked
      until the deadline then reported, whatever else happens, unless it is reset or the call fails. An
      attempt on that counter alone is told the same absolute deadline each time: attempts made during
      a lockout do not extend it. */
  lemma LockoutIsSticky(cfg: Config, db: Db, e: Event, r: CheckResult, es: seq<Event>, f: Event, s: CheckResult)
    requires Validated(cfg) && GoodDb(cfg, db) && e.Attempt? && f.Attempt? && f.fault.NoFault?
    requires r == ReplyTo(cfg, db, e) && !r.allowed
    requires var key := KeyFor(e, r.reason);
      && NeverCleared(es, key) && key in KeysOf(f)
      && Run(cfg, Step(cfg, db, e), es).now < db.now + r.retryAfterSeconds
      && s == ReplyTo(cfg, Run(cfg, Step(cfg, db, e), es), f)
    ensures var later := Run(cfg, Step(cfg, db, e), es).now;
      && !s.allowed
      && later + s.retryAfterSeconds >= db.now + r.retryAfterSeconds
      && (KeysOf(f) == [KeyFor(e, r.reason)] ==>
          s.reason == r.reason && later + s.retryAfterSeconds == db.now + r.retryAfterSeconds)
  {
    hide ReplyTo, Step;
    var key := KeyFor(e, r.reason);
    var db1 := Step(cfg, db, e);
    var db2 := Run(cfg, db1, es);
    BlockedMeansFull(cfg, db, e, r);
    AfterBlocked(cfg, db, e, r, es);
    AllowedIff(cfg, db2, f);
    BlockedMeansFull(cfg, db2, f, s);
  }

  lemma AfterBlocked(cfg: Config, db: Db, e: Event, r: CheckResult, es: seq<Event>)
    requires Validated(cfg) && GoodDb(cfg, db) && e.Attempt? && e.fault.NoFault?
    requires var key := KeyFor(e, r.reason);
      && key in KeysOf(e) && Full(cfg, db, key) && CellOf(db, key).deadline == db.now + r.retryAfterSeconds
      && NeverCleared(es, key) && Run(cfg, Step(cfg, db, e), es).now < db.now + r.retryAfterSeconds
    ensures var key := KeyFor(e, r.reason);
      var db2 := Run(cfg, Step(cfg, db, e), es);
      && GoodDb(cfg, db2) && Full(cfg, db2, key) && CellOf(db2, key).deadline == db.now + r.retryAfterSeconds
  {
    hide Step;
    var key := KeyFor(e, r.reason);
    var db1 := Step(cfg, db, e);
    assert GoodCell(CellOf(db, key), db.now, Lockout(cfg, key));
    StepCell(cfg, db, e, key);
    StepKeepsGood(cfg, db, e);
    RunCell(cfg, db1, es, key);
    WatchClock(Watching(db1, key), Lockout(cfg, key), Project(es, key));
    WindowKeepsDeadline(Watching(db1, key), Lockout(cfg, key), Project(es, key));
  }

  /** How one counter of a counted attempt looks after a pause in which nothing touched it. */
  lemma AfterPause(cfg: Config, db: Db, e: Event, es: seq<Event>, key: Key)
    requires Validated(cfg) && GoodDb(cfg, db) && e.Attempt? && e.fault.NoFault?
    requires key in KeysOf(e) && Untouched(es, key)
    ensures var db2 := Run(cfg, Step(cfg, db, e), es);
      var c := Raise(CellOf(db, key), db.now, Lockout(cfg, key));
      && GoodDb(cfg, db2) && db.now <= db2.now && c.Open?
      && CellOf(db2, key) == if c.deadline <= db2.now then Absent else c
  {
    hide Step;
    var db1 := Step(cfg, db, e);
    assert GoodCell(CellOf(db, key), db.now, Lockout(cfg, key));
    StepCell(cfg, db, e, key);
    StepKeepsGood(cfg, db, e);
    RunCell(cfg, db1, es, key);
    WindowRunsOut(Watching(db1, key), Lockout(cfg, key), Project(es, key));
  }

  /** The counter would still be over its limit at the given time if nothing touched it. */
  predicate StillFull(cfg: Config, db: Db, key: Key, time: int)
    requires IsCounter(key)
  {
    var c := Raise(CellOf(db, key), db.now, Lockout(cfg, key));
    c.Open? && c.count >= Limit(cfg, key) && time < c.deadline
  }

  /** Retry-after is honest. After a blocked attempt, if nothing touches its counters, the same attempt is
      blocked at every time before the reported one. From that time on it is let through exactly when no
      counter that was not itself over the limit has filled up meanwhile, so always when all supplied
      counters were locked; it then starts fresh with counts of 1. */
  lemma RetryAfterIsExact(cfg: Config, db: Db, e: Event, r: CheckResult, es: seq<Event>, f: Event)
    requires Validated(cfg) && GoodDb(cfg, db) && e.Attempt? && f.Attempt? && f.fault.NoFault?
    requires e.id == f.id && e.ip == f.ip
    requires r == ReplyTo(cfg, db, e) && !r.allowed
    requires forall k | k in KeysOf(e) :: Untouched(es, k)
    ensures var db2 := Run(cfg, Step(cfg, db, e), es);
      var s := ReplyTo(cfg, db2, f);
      && (s.allowed <==>
          db.now + r.retryAfterSeconds <= db2.now &&
          forall k | k in KeysOf(e) && !Full(cfg, db, k) :: !StillFull(cfg, db, k, db2.now))
      && (db.now + r.retryAfterSeconds <= db2.now && (forall k | k in KeysOf(e) :: Full(cfg, db, k)) ==>
          s == CheckResult(true, if e.id != "" then 1 else 0, if e.ip != "" then 1 else 0, "", "", 0))
  {
    hide ReplyTo, Step;
    var db2 := Run(cfg, Step(cfg, db, e), es);
    BlockedMeansFull(cfg, db, e, r);
    var key := KeyFor(e, r.reason);
    AfterPause(cfg, db, e, es, key);
    assert KeysOf(f) == KeysOf(e);
    forall k | k in KeysOf(e)
      ensures Full(cfg, db2, k) <==> StillFull(cfg, db, k, db2.now)
      ensures Full(cfg, db, k) ==> CellOf(db, k).deadline <= db.now + r.retryAfterSeconds
    {
      AfterPause(cfg, db, e, es, k);
    }
    AllowedIff(cfg, db2, f);
    if db.now + r.retryAfterSeconds <= db2.now && forall k | k in KeysOf(e) :: Full(cfg, db, k) {
      forall k | k in KeysOf(f)
        ensures CellOf(db2, k).Absent?
      {
        AfterPause(cfg, db, e, es, k);
      }
      FreshReply(cfg, db2, f);
    }
  }

  /** An attempt on absent counters is let through and counts as the first on each. */
  lemma FreshReply(cfg: Config, db: Db, e: Event)
    requires Validated(cfg) && GoodDb(cfg, db) && e.Attempt? && e.fault.NoFault?
    requires forall k | k in KeysOf(e) :: CellOf(db, k).Absent?
    ensures ReplyTo(cfg, db, e) ==
      CheckResult(true, if e.id != "" then 1 else 0, if e.ip != "" then 1 else 0, "", "", 0)
  {
    hide ReplyTo, LockoutMessage;
    ReplyIsVerdict(cfg, db, e);
    var x, y := IdentifierKey(e.id), IpKey(e.ip);
    var tallies := TalliesOf(cfg, db, e);
    if e.id != "" && e.ip != "" {
      assert x in KeysOf(e) && y in KeysOf(e);
      assert tallies == [RaisedIn(cfg, db, x), RaisedIn(cfg, db, y)];
      BlockerOfTwo(tallies[0], tallies[1]);
    } else if e.id != "" {
      assert x in KeysOf(e);
      assert tallies == [RaisedIn(cfg, db, x)];
      BlockerOfOne(tallies[0]);
    } else if e.ip != "" {
      assert y in KeysOf(e);
      assert tallies == [RaisedIn(cfg, db, y)];
      BlockerOfOne(tallies[0]);
    }
  }

  /** The text of a blocked reply names its minutes, the least number that covers the wait. */
  lemma MessageCoversWait(cfg: Config, db: Db, e: Event, r: CheckResult) returns (m: int, digits: string)
    requires Validated(cfg) && GoodDb(cfg, db) && e.Attempt?
    requires r == ReplyTo(cfg, db, e) && !r.allowed
    ensures 60 * (m - 1) < r.retryAfterSeconds <= 60 * m && m >= 1 && Denotes(digits, m)
    ensures r.message == (if r.reason == "ip" then "Too many login attempts from this address. Try again in "
                          else "Account temporarily locked due to too many failed attempts. Try again in ")
                         + digits + " minutes."
    ensures m == Minutes(r.retryAfterSeconds)
    ensures r.message == (if r.reason == "ip" then ADDRESS_LOCKED else ACCOUNT_LOCKED) + Itoa(m) + " minutes."
  {
    hide ReplyTo, Verdict, Itoa, Denotes, GoodDb, Full, KeysOf;
    m := Minutes(r.retryAfterSeconds);
    digits := Itoa(m);
    ItoaDenotes(m);
    BlockedMeansFull(cfg, db, e, r);
    ReplyIsVerdict(cfg, db, e);
    var i := VerdictReports(TalliesOf(cfg, db, e));
  }

  /** Two blocked replies carry the same message exactly when they name the same reason and the same minutes. */
  lemma MessageTells(cfg: Config, db: Db, e: Event, r: CheckResult, other: Db, f: Event, s: CheckResult)
    requires Validated(cfg) && GoodDb(cfg, db) && GoodDb(cfg, other) && e.Attempt? && f.Attempt?
    requires r == ReplyTo(cfg, db, e) && !r.allowed && s == ReplyTo(cfg, other, f) && !s.allowed
    ensures r.message == s.message <==>
      r.reason == s.reason && Minutes(r.retryAfterSeconds) == Minutes(s.retryAfterSeconds)
  {
    hide ReplyTo, Itoa, LockoutMessage, Minutes, Full, GoodDb;
    var m, digits := MessageCoversWait(cfg, db, e, r);
    var n, others := MessageCoversWait(cfg, other, f, s);
    BlockedMeansFull(cfg, db, e, r);
    BlockedMeansFull(cfg, other, f, s);
    LockedTextsDiffer();
    SameText(if r.reason == "ip" then ADDRESS_LOCKED else ACCOUNT_LOCKED, Minutes(r.retryAfterSeconds),
             if s.reason == "ip" then ADDRESS_LOCKED else ACCOUNT_LOCKED, Minutes(s.retryAfterSeconds));
  }

  lemma LockedTextsDiffer()
    ensures |ADDRESS_LOCKED| > 54 && |ACCOUNT_LOCKED| > 54 && ADDRESS_LOCKED[54] != ACCOUNT_LOCKED[54]
  {
    assert ADDRESS_LOCKED[54] == 'n' && ACCOUNT_LOCKED[54] == 'm';
  }

  lemma SameText(b: string, m: int, c: string, n: int)
    requires b == c || (|b| > 54 && |c| > 54 && b[54] != c[54])
    ensures b + Itoa(m) + " minutes." == c + Itoa(n) + " minutes." <==> b == c && m == n
  {
    hide Itoa;
    var s, t := b + Itoa(m) + " minutes.", c + Itoa(n) + " minutes.";
    if b == c {
      assert s[|b|..|s| - 9] == Itoa(m) && t[|b|..|t| - 9] == Itoa(n);
      if s == t {
        ItoaInjective(m, n);
      }
    } else {
      assert s[54] == b[54] && t[54] == c[54];
    }
  }
}
