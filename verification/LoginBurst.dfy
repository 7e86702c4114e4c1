/** Attempts at one instant, in any order, and a run that reaches the rate bound. */
module LoginBurst {
  import opened Wrappers
  import opened RedisServer
  import opened Clients
  import opened LoginBackoff
  import opened LoginRuns
  import opened LoginHistory
  import opened LoginBounds

  /** Counted attempts, all at the same instant. */
  predicate IsBurst(es: seq<Event>) {
    forall e | e in es :: e.Attempt? && e.fault.NoFault?
  }

  function AllowedCount(cfg: Config, db: Db, es: seq<Event>): nat
    requires IsBurst(es)
  {
    if es == [] then 0
    else
      var n := |es| - 1;
      assert es[n] in es;
      AllowedCount(cfg, db, es[..n]) + One(ReplyTo(cfg, Run(cfg, db, es[..n]), es[n]).allowed)
  }

  function CountIn(c: Cell): int {
    if c.Open? then c.count else 0
  }

  /** After a burst each counter has grown by the attempts on it, and no time has passed. */
  lemma {:induction false} BurstCell(cfg: Config, db: Db, es: seq<Event>, key: Key)
    requires Validated(cfg) && GoodDb(cfg, db) && IsCounter(key) && IsBurst(es)
    ensures var after := Run(cfg, db, es);
      && GoodDb(cfg, after) && after.now == db.now
      && CountIn(CellOf(after, key)) == CountIn(CellOf(db, key)) + Received(es, key)
    decreases |es|
  {
    hide Step, Run, GoodDb, CellOf, Names;
    if es != [] {
      var n := |es| - 1;
      var pre, e := es[..n], es[n];
      BurstCell(cfg, db, pre, key);
      assert es == pre + [e] && e in es;
      RunSnoc(cfg, db, pre, e);
      BurstStep(cfg, Run(cfg, db, pre), e, key);
    } else {
      RunNothing(cfg, db);
    }
  }

  lemma BurstStep(cfg: Config, db: Db, e: Event, key: Key)
    requires Validated(cfg) && GoodDb(cfg, db) && IsCounter(key) && e.Attempt? && e.fault.NoFault?
    ensures var after := Step(cfg, db, e);
      && GoodDb(cfg, after) && after.now == db.now
      && CountIn(CellOf(after, key)) == CountIn(CellOf(db, key)) + One(Names(e, key))
  {
    hide Step;
    StepCell(cfg, db, e, key);
    StepKeepsGood(cfg, db, e);
    assert GoodCell(CellOf(db, key), db.now, Lockout(cfg, key));
  }

  lemma {:induction false} ReceivedPrefix(es: seq<Event>, n: nat, key: Key)
    requires n <= |es|
    ensures Received(es[..n], key) <= Received(es, key)
    ensures n < |es| && es[n].Attempt? && Names(es[n], key) ==> Received(es[..n], key) < Received(es, key)
    decreases |es|
  {
    if n < |es| {
      var m := |es| - 1;
      assert es[..m][..n] == es[..n];
      ReceivedPrefix(es[..m], n, key);
    } else {
      assert es[..n] == es;
    }
  }

  lemma {:induction false} AllReceived(es: seq<Event>, key: Key)
    requires forall e | e in es :: e.Attempt? && Names(e, key)
    ensures Received(es, key) == |es|
    decreases |es|
  {
    if es != [] {
      var n := |es| - 1;
      assert es[n] in es;
      assert forall e | e in es[..n] :: e in es;
      AllReceived(es[..n], key);
    }
  }

  /** No IP of the burst comes over its limit. */
  predicate IpsHaveRoom(cfg: Config, db: Db, es: seq<Event>) {
    forall e | e in es && IpOf(e) != "" ::
      CountIn(CellOf(db, IpKey(IpOf(e)))) + Received(es, IpKey(IpOf(e))) <= cfg.maxIPAttempts
  }

  /** Of n attempts at one instant on a fresh identifier, over any IPs that stay within their limits,
      exactly min(n, Max) are let through, in whatever order they come. */
  lemma {:induction false} BurstExact(cfg: Config, db: Db, es: seq<Event>, id: string)
    requires Validated(cfg) && GoodDb(cfg, db) && IsBurst(es)
    requires id != "" && CellOf(db, IdentifierKey(id)).Absent?
    requires forall e | e in es :: e.Attempt? && e.id == id
    requires IpsHaveRoom(cfg, db, es)
    ensures AllowedCount(cfg, db, es) == Min(|es|, cfg.maxIdentifierAttempts)
    decreases |es|
  {
    hide Step, ReplyTo;
    if es != [] {
      var n := |es| - 1;
      var pre, e := es[..n], es[n];
      assert IsBurst(pre) && forall f | f in pre :: f in es;
      assert e in es;
      RoomInPrefix(cfg, db, es);
      BurstExact(cfg, db, pre, id);
      LastOfBurst(cfg, db, pre, e, id);
    }
  }

  lemma RoomInPrefix(cfg: Config, db: Db, es: seq<Event>)
    requires es != [] && IsBurst(es) && IpsHaveRoom(cfg, db, es)
    ensures var n := |es| - 1;
      && IpsHaveRoom(cfg, db, es[..n])
      && (es[n].Attempt? && es[n].ip != "" ==>
          CountIn(CellOf(db, IpKey(es[n].ip))) + Received(es[..n], IpKey(es[n].ip)) < cfg.maxIPAttempts)
  {
    var n := |es| - 1;
    assert es[n] in es;
    forall f | f in es[..n] && IpOf(f) != ""
      ensures CountIn(CellOf(db, IpKey(IpOf(f)))) + Received(es[..n], IpKey(IpOf(f))) <= cfg.maxIPAttempts
    {
      assert f in es;
      ReceivedPrefix(es, n, IpKey(IpOf(f)));
    }
    ReceivedPrefix(es, n, IpKey(IpOf(es[n])));
  }

  lemma LastOfBurst(cfg: Config, db: Db, pre: seq<Event>, e: Event, id: string)
    requires Validated(cfg) && GoodDb(cfg, db) && IsBurst(pre) && e.Attempt? && e.fault.NoFault?
    requires id != "" && CellOf(db, IdentifierKey(id)).Absent? && e.id == id
    requires forall f | f in pre :: f.Attempt? && f.id == id
    ensures (e.ip == "" || CountIn(CellOf(db, IpKey(e.ip))) + Received(pre, IpKey(e.ip)) < cfg.maxIPAttempts) ==>
      (ReplyTo(cfg, Run(cfg, db, pre), e).allowed <==> |pre| < cfg.maxIdentifierAttempts)
  {
    hide Step, ReplyTo;
    var mid := Run(cfg, db, pre);
    var x, y := IdentifierKey(id), IpKey(e.ip);
    BurstCell(cfg, db, pre, x);
    BurstCell(cfg, db, pre, y);
    assert forall f | f in pre :: Names(f, x);
    AllReceived(pre, x);
    AllowedIff(cfg, mid, e);
    assert x in KeysOf(e);
    assert forall k | k in KeysOf(e) :: k == x || k == y;
    assert e.ip != "" ==> y in KeysOf(e);
  }

  // Order does not matter.

  function BumpKey(cfg: Config, db: Db, key: Key): Db {
    if key.name == "" then db else Bump(db, KeyText(key), Lockout(cfg, key))
  }

  lemma BumpKeysCommute(cfg: Config, db: Db, a: Key, b: Key)
    ensures BumpKey(cfg, BumpKey(cfg, db, a), b) == BumpKey(cfg, BumpKey(cfg, db, b), a)
  {
    KeyTextInjective(a, b);
    if KeyText(a) != KeyText(b) {
      BumpsCommute(db, KeyText(a), KeyText(b), Lockout(cfg, a), Lockout(cfg, b));
    }
  }

  lemma AttemptIsBumps(cfg: Config, db: Db, e: Event)
    requires Validated(cfg) && GoodDb(cfg, db) && e.Attempt? && e.fault.NoFault?
    ensures Step(cfg, db, e) == BumpKey(cfg, BumpKey(cfg, db, IdentifierKey(e.id)), IpKey(e.ip))
  {
    var x, y := IdentifierKey(e.id), IpKey(e.ip);
    assert GoodCell(CellOf(db, x), db.now, Lockout(cfg, x));
    assert GoodCell(CellOf(db, y), db.now, Lockout(cfg, y));
    BumpCell(db, x, y, cfg.identifierLockoutSeconds);
    BumpCell(db, y, x, cfg.ipLockoutSeconds);
  }

  lemma AttemptsCommute(cfg: Config, db: Db, e: Event, f: Event)
    requires Validated(cfg) && GoodDb(cfg, db) && IsBurst([e, f])
    ensures Step(cfg, Step(cfg, db, e), f) == Step(cfg, Step(cfg, db, f), e)
  {
    hide Step, BumpKey;
    assert e in [e, f] && f in [e, f];
    StepKeepsGood(cfg, db, e);
    StepKeepsGood(cfg, db, f);
    AttemptIsBumps(cfg, db, e);
    AttemptIsBumps(cfg, db, f);
    AttemptIsBumps(cfg, Step(cfg, db, e), f);
    AttemptIsBumps(cfg, Step(cfg, db, f), e);
    FourBumps(cfg, db, IdentifierKey(e.id), IpKey(e.ip), IdentifierKey(f.id), IpKey(f.ip));
  }

  lemma FourBumps(cfg: Config, db: Db, a: Key, b: Key, c: Key, d: Key)
    ensures BumpKey(cfg, BumpKey(cfg, BumpKey(cfg, BumpKey(cfg, db, a), b), c), d)
         == BumpKey(cfg, BumpKey(cfg, BumpKey(cfg, BumpKey(cfg, db, c), d), a), b)
  {
    hide BumpKey;
    var da := BumpKey(cfg, db, a);
    var dc := BumpKey(cfg, db, c);
    BumpKeysCommute(cfg, da, b, c);
    BumpKeysCommute(cfg, db, a, c);
    BumpKeysCommute(cfg, BumpKey(cfg, da, c), b, d);
    BumpKeysCommute(cfg, dc, a, d);
  }

  lemma SwapFront(cfg: Config, db: Db, e: Event, f: Event, rest: seq<Event>)
    requires Validated(cfg) && GoodDb(cfg, db) && IsBurst([e, f])
    ensures Run(cfg, db, [e] + ([f] + rest)) == Run(cfg, db, [f] + ([e] + rest))
  {
    hide Step;
    AttemptsCommute(cfg, db, e, f);
    RunCons(cfg, db, e, [f] + rest);
    RunCons(cfg, Step(cfg, db, e), f, rest);
    RunCons(cfg, db, f, [e] + rest);
    RunCons(cfg, Step(cfg, db, f), e, rest);
  }

  lemma {:induction false} MoveToFront(cfg: Config, db: Db, es: seq<Event>, f: Event, fs: seq<Event>)
    requires Validated(cfg) && GoodDb(cfg, db) && IsBurst(es) && f.Attempt? && f.fault.NoFault?
    ensures Run(cfg, db, es + [f] + fs) == Run(cfg, db, [f] + (es + fs))
    decreases |es|
  {
    hide Step;
    if es == [] {
      assert es + [f] + fs == [f] + (es + fs);
    } else {
      var e, tail := es[0], es[1..];
      assert es == [e] + tail && e in es && IsBurst(tail);
      Reassociate(e, tail, f, fs);
      StepKeepsGood(cfg, db, e);
      RunCons(cfg, db, e, tail + [f] + fs);
      MoveToFront(cfg, Step(cfg, db, e), tail, f, fs);
      RunCons(cfg, db, e, [f] + (tail + fs));
      SwapFront(cfg, db, e, f, tail + fs);
    }
  }

  lemma Reassociate(e: Event, tail: seq<Event>, f: Event, fs: seq<Event>)
    ensures [e] + tail + [f] + fs == [e] + (tail + [f] + fs)
    ensures [e] + tail + fs == [e] + (tail + fs)
  {
  }

  lemma SameBurst(es: seq<Event>, fs: seq<Event>)
    requires IsBurst(es) && multiset(es) == multiset(fs)
    ensures IsBurst(fs)
  {
    forall f | f in fs
      ensures f.Attempt? && f.fault.NoFault?
    {
      assert f in multiset(es);
    }
  }

  lemma BurstParts(cfg: Config, db: Db, es: seq<Event>, head: seq<Event>, e: Event, tail: seq<Event>)
    requires Validated(cfg) && GoodDb(cfg, db) && es != [] && es[0] == e && IsBurst(es) && IsBurst(head + [e] + tail)
    ensures IsBurst(es[1..]) && IsBurst(head) && e.Attempt? && e.fault.NoFault? && GoodDb(cfg, Step(cfg, db, e))
  {
    hide Step, GoodDb;
    StepKeepsGood(cfg, db, e);
    assert forall g | g in head :: g in head + [e] + tail;
  }

  lemma TakeOut(es: seq<Event>, fs: seq<Event>) returns (head: seq<Event>, tail: seq<Event>)
    requires es != [] && multiset(es) == multiset(fs)
    ensures fs == head + [es[0]] + tail && multiset(es[1..]) == multiset(head + tail)
  {
    assert es[0] in multiset(fs);
    var i :| 0 <= i < |fs| && fs[i] == es[0];
    head, tail := fs[..i], fs[i + 1..];
    assert fs == head + [es[0]] + tail;
    SameRest(es, head, es[0], tail);
  }

  /** Attempts at one instant leave the very same store in every order. */
  lemma {:induction false} BurstOrderIrrelevant(cfg: Config, db: Db, es: seq<Event>, fs: seq<Event>)
    requires Validated(cfg) && GoodDb(cfg, db) && IsBurst(es)
    requires multiset(es) == multiset(fs)
    ensures IsBurst(fs) && Run(cfg, db, es) == Run(cfg, db, fs)
    decreases |es|
  {
    hide Step, Run, GoodDb, IsBurst;
    SameBurst(es, fs);
    if es == [] {
      assert |multiset(fs)| == 0;
    } else {
      var e, rest := es[0], es[1..];
      var head, tail := TakeOut(es, fs);
      BurstParts(cfg, db, es, head, e, tail);
      MoveToFront(cfg, db, head, e, tail);
      RunCons(cfg, db, e, head + tail);
      RunCons(cfg, db, e, rest);
      assert es == [e] + rest;
      BurstOrderIrrelevant(cfg, Step(cfg, db, e), rest, head + tail);
    }
  }

  lemma SameRest(es: seq<Event>, head: seq<Event>, e: Event, tail: seq<Event>)
    requires es != [] && es[0] == e && multiset(es) == multiset(head + [e] + tail)
    ensures multiset(es[1..]) == multiset(head + tail)
  {
    assert es == [e] + es[1..];
    assert multiset(head + [e] + tail) == multiset(head + tail) + multiset{e};
    assert multiset([e] + es[1..]) == multiset{e} + multiset(es[1..]);
    assert multiset(es[1..]) == multiset(es) - multiset{e};
  }

  /** So the number let through is the same in every order, too. */
  lemma BurstExactInAnyOrder(cfg: Config, db: Db, es: seq<Event>, fs: seq<Event>, id: string)
    requires Validated(cfg) && GoodDb(cfg, db) && IsBurst(es)
    requires id != "" && CellOf(db, IdentifierKey(id)).Absent?
    requires forall e | e in es :: e.Attempt? && e.id == id
    requires IpsHaveRoom(cfg, db, es) && multiset(es) == multiset(fs)
    ensures IsBurst(fs) && Run(cfg, db, es) == Run(cfg, db, fs)
    ensures AllowedCount(cfg, db, fs) == AllowedCount(cfg, db, es) == Min(|es|, cfg.maxIdentifierAttempts)
  {
    hide Run, Step, AllowedCount, Received, CellOf, KeyText, GoodDb;
    BurstOrderIrrelevant(cfg, db, es, fs);
    assert |multiset(es)| == |es| && |multiset(fs)| == |fs|;
    forall f | f in fs
      ensures f in es && f.id == id
      ensures f.ip != "" ==> CountIn(CellOf(db, IpKey(f.ip))) + Received(fs, IpKey(f.ip)) <= cfg.maxIPAttempts
    {
      assert f in multiset(es);
      if f.ip != "" {
        BurstCell(cfg, db, es, IpKey(f.ip));
        BurstCell(cfg, db, fs, IpKey(f.ip));
      }
    }
    BurstExact(cfg, db, es, id);
    BurstExact(cfg, db, fs, id);
  }

  // The rate bound is reached.

  function Repeat(e: Event, n: nat): seq<Event> {
    if n == 0 then [] else [e] + Repeat(e, n - 1)
  }

  /** A full burst at the start of each of k + 1 windows. */
  function Rounds(cfg: Config, key: Key, e: Event, k: nat): seq<Event>
    requires Validated(cfg)
  {
    Repeat(e, Limit(cfg, key)) +
    if k == 0 then [] else [Tick(Lockout(cfg, key))] + Rounds(cfg, key, e, k - 1)
  }

  lemma {:induction false} AllowedSplit(cfg: Config, db: Db, es: seq<Event>, fs: seq<Event>, key: Key, from: int,
                                        end: int)
    ensures AllowedIn(cfg, db, es + fs, key, from, end) ==
      AllowedIn(cfg, db, es, key, from, end) + AllowedIn(cfg, Run(cfg, db, es), fs, key, from, end)
    decreases |es|
  {
    hide Step, ReplyTo;
    if es == [] {
      assert es + fs == fs;
    } else {
      assert (es + fs)[1..] == es[1..] + fs;
      AllowedSplit(cfg, Step(cfg, db, es[0]), es[1..], fs, key, from, end);
    }
  }

  lemma AllowedFirst(cfg: Config, db: Db, e: Event, es: seq<Event>, key: Key, from: int, end: int)
    requires from <= db.now < end
    ensures AllowedIn(cfg, db, [e] + es, key, from, end) ==
      One(e.Attempt? && Names(e, key) && ReplyTo(cfg, db, e).allowed)
          + AllowedIn(cfg, Step(cfg, db, e), es, key, from, end)
  {
    assert ([e] + es)[1..] == es;
  }

  /** An attempt on one counter alone, as the runs that reach the bound use it. */
  predicate Lone(e: Event, key: Key) {
    e.Attempt? && e.fault.NoFault? && KeysOf(e) == [key]
  }

  lemma OneMore(cfg: Config, db: Db, key: Key, e: Event)
    requires Validated(cfg) && GoodDb(cfg, db) && Lone(e, key)
    ensures var c, after := CellOf(db, key), Step(cfg, db, e);
      && IsCounter(key) && GoodDb(cfg, after) && after.now == db.now && Names(e, key)
      && CellOf(after, key) == Open(CountIn(c) + 1, if c.Open? then c.deadline else db.now + Lockout(cfg, key))
      && (CountIn(c) < Limit(cfg, key) ==> ReplyTo(cfg, db, e).allowed)
  {
    hide Step, ReplyTo;
    assert GoodCell(CellOf(db, key), db.now, Lockout(cfg, key));
    AllowedIff(cfg, db, e);
    assert key in KeysOf(e);
    StepCell(cfg, db, e, key);
    StepKeepsGood(cfg, db, e);
  }

  lemma {:induction false} RepeatCell(cfg: Config, db: Db, key: Key, e: Event, n: nat)
    requires Validated(cfg) && GoodDb(cfg, db) && Lone(e, key)
    ensures var c, after := CellOf(db, key), Run(cfg, db, Repeat(e, n));
      && GoodDb(cfg, after) && after.now == db.now
      && CellOf(after, key) == if n == 0 then c else
           Open(CountIn(c) + n, if c.Open? then c.deadline else db.now + Lockout(cfg, key))
    decreases n
  {
    hide Step;
    if n > 0 {
      OneMore(cfg, db, key, e);
      RunCons(cfg, db, e, Repeat(e, n - 1));
      RepeatCell(cfg, Step(cfg, db, e), key, e, n - 1);
    }
  }

  lemma {:induction false} RepeatPasses(cfg: Config, db: Db, key: Key, e: Event, n: nat, from: int, end: int)
    requires Validated(cfg) && GoodDb(cfg, db) && from <= db.now < end && Lone(e, key)
    requires CountIn(CellOf(db, key)) + n <= Limit(cfg, key)
    ensures AllowedIn(cfg, db, Repeat(e, n), key, from, end) == n
    decreases n
  {
    hide Step, AttemptEffect, Answer;
    if n > 0 {
      OneMore(cfg, db, key, e);
      AllowedFirst(cfg, db, e, Repeat(e, n - 1), key, from, end);
      RepeatPasses(cfg, Step(cfg, db, e), key, e, n - 1, from, end);
    }
  }

  /** A lockout time after a burst on an absent counter, the counter is absent again. */
  lemma RoundEnds(cfg: Config, db: Db, key: Key, e: Event, n: nat)
    requires Validated(cfg) && GoodDb(cfg, db) && Lone(e, key) && CellOf(db, key).Absent?
    ensures var after := Step(cfg, Run(cfg, db, Repeat(e, n)), Tick(Lockout(cfg, key)));
      && GoodDb(cfg, after) && after.now == db.now + Lockout(cfg, key)
      && CellOf(after, key).Absent?
  {
    hide Step, Run;
    var mid := Run(cfg, db, Repeat(e, n));
    RepeatCell(cfg, db, key, e, n);
    StepCell(cfg, mid, Tick(Lockout(cfg, key)), key);
    StepKeepsGood(cfg, mid, Tick(Lockout(cfg, key)));
  }

  lemma RoundUnfolds(cfg: Config, db: Db, key: Key, e: Event, k: nat, from: int, end: int)
    requires Validated(cfg) && GoodDb(cfg, db) && from <= db.now < end && Lone(e, key) && k > 0
    requires CellOf(db, key).Absent?
    ensures var after := Step(cfg, Run(cfg, db, Repeat(e, Limit(cfg, key))), Tick(Lockout(cfg, key)));
      AllowedIn(cfg, db, Rounds(cfg, key, e, k), key, from, end) ==
        Limit(cfg, key) + AllowedIn(cfg, after, Rounds(cfg, key, e, k - 1), key, from, end)
  {
    hide Step, ReplyTo;
    var m, tick := Limit(cfg, key), Tick(Lockout(cfg, key));
    var rest := Rounds(cfg, key, e, k - 1);
    RepeatPasses(cfg, db, key, e, m, from, end);
    RepeatCell(cfg, db, key, e, m);
    AllowedSplit(cfg, db, Repeat(e, m), [tick] + rest, key, from, end);
    AllowedFirst(cfg, Run(cfg, db, Repeat(e, m)), tick, rest, key, from, end);
  }

  lemma LastRound(cfg: Config, db: Db, key: Key, e: Event, from: int, end: int)
    requires Validated(cfg) && GoodDb(cfg, db) && from <= db.now < end && Lone(e, key)
    requires CellOf(db, key).Absent?
    ensures AllowedIn(cfg, db, Rounds(cfg, key, e, 0), key, from, end) == Times(1, Limit(cfg, key))
  {
    hide Step, ReplyTo;
    RepeatPasses(cfg, db, key, e, Limit(cfg, key), from, end);
    assert Rounds(cfg, key, e, 0) == Repeat(e, Limit(cfg, key));
    assert Times(1, Limit(cfg, key)) == Times(0, Limit(cfg, key)) + Limit(cfg, key);
  }

  lemma {:induction false} RoundsPass(cfg: Config, db: Db, key: Key, e: Event, k: nat, from: int, end: int)
    requires Validated(cfg) && GoodDb(cfg, db) && from <= db.now && Lone(e, key)
    requires CellOf(db, key).Absent?
    requires end > db.now + Times(k, Lockout(cfg, key))
    ensures AllowedIn(cfg, db, Rounds(cfg, key, e, k), key, from, end) == Times(k + 1, Limit(cfg, key))
    decreases k
  {
    hide Step, ReplyTo, Run;
    var m := Limit(cfg, key);
    if k == 0 {
      LastRound(cfg, db, key, e, from, end);
    } else {
      var after := Step(cfg, Run(cfg, db, Repeat(e, m)), Tick(Lockout(cfg, key)));
      RoundUnfolds(cfg, db, key, e, k, from, end);
      RoundEnds(cfg, db, key, e, m);
      RoundsPass(cfg, after, key, e, k - 1, from, end);
    }
  }

  lemma {:induction false} OnlyAttemptsAndTicks(now: int, es: seq<Event>, key: Key, from: int, end: int)
    requires forall e | e in es :: e.Tick? || (e.Attempt? && e.fault.NoFault?)
    ensures ResetsIn(now, es, key, from, end) == 0 && FaultsIn(now, es, key, from, end) == 0
    decreases |es|
  {
    if es != [] {
      assert es[0] in es && forall e | e in es[1..] :: e in es;
      OnlyAttemptsAndTicks(now + Duration(es[0]), es[1..], key, from, end);
    }
  }

  /** Nothing but copies of one attempt and clock ticks. */
  predicate Plain(es: seq<Event>, e: Event) {
    forall f | f in es :: f == e || f.Tick?
  }

  lemma PlainConcat(es: seq<Event>, fs: seq<Event>, e: Event)
    requires Plain(es, e) && Plain(fs, e)
    ensures Plain(es + fs, e)
  {
  }

  lemma PlainTick(d: nat, e: Event)
    ensures Plain([Tick(d)], e) && Plain([e], e) && Plain([], e)
  {
  }

  lemma {:induction false} RoundsPlain(cfg: Config, key: Key, e: Event, k: nat)
    requires Validated(cfg)
    ensures Plain(Rounds(cfg, key, e, k), e)
    decreases k
  {
    hide Plain, Repeat;
    var burst, tick := Repeat(e, Limit(cfg, key)), Tick(Lockout(cfg, key));
    RepeatPlain(e, Limit(cfg, key));
    PlainTick(Lockout(cfg, key), e);
    if k == 0 {
      PlainConcat(burst, [], e);
    } else {
      var rest := Rounds(cfg, key, e, k - 1);
      RoundsPlain(cfg, key, e, k - 1);
      PlainConcat([tick], rest, e);
      PlainConcat(burst, [tick] + rest, e);
    }
  }

  lemma {:induction false} RepeatPlain(e: Event, n: nat)
    ensures Plain(Repeat(e, n), e)
  {
    hide Plain;
    PlainTick(0, e);
    if n > 0 {
      RepeatPlain(e, n - 1);
      PlainConcat([e], Repeat(e, n - 1), e);
    }
  }

  /** The run that reaches the sharp bound for intervals of n seconds. Unless these are whole windows and a
      second, its interval starts a second before a window ends, of which only one attempt came earlier. */
  function Busiest(cfg: Config, key: Key, e: Event, n: int): seq<Event>
    requires Validated(cfg) && n > 0
  {
    var l, k := Lockout(cfg, key), CeilDiv(n - 1, Lockout(cfg, key));
    if Whole(n - 1, l) then Rounds(cfg, key, e, k)
    else
      CeilDivIs(n - 1, l);
      [e] + ([Tick(l - 1)] + Late(cfg, key, e, k - 1))
  }

  function Late(cfg: Config, key: Key, e: Event, k: nat): seq<Event>
    requires Validated(cfg)
  {
    Repeat(e, Limit(cfg, key) - 1) + ([Tick(1)] + Rounds(cfg, key, e, k))
  }

  function BusiestFrom(cfg: Config, key: Key, n: int): int
    requires Validated(cfg)
  {
    if Whole(n - 1, Lockout(cfg, key)) then 0 else Lockout(cfg, key) - 1
  }

  /** A second before its deadline, a window with one attempt leaves room for all but one; then a new one opens. */
  lemma LatePasses(cfg: Config, db: Db, key: Key, e: Event, k: nat, end: int)
    requires Validated(cfg) && GoodDb(cfg, db) && Lone(e, key)
    requires CellOf(db, key) == Open(1, db.now + 1) && end > db.now + 1 + Times(k, Lockout(cfg, key))
    ensures AllowedIn(cfg, db, Late(cfg, key, e, k), key, db.now, end) ==
      Limit(cfg, key) - 1 + Times(k + 1, Limit(cfg, key))
  {
    hide Step, Run, AllowedIn, Rounds, Repeat, GoodDb, CellOf, Times, Names, KeysOf;
    var m, burst, rest := Limit(cfg, key), Repeat(e, Limit(cfg, key) - 1), Rounds(cfg, key, e, k);
    var db1 := Run(cfg, db, burst);
    var db2 := Step(cfg, db1, Tick(1));
    RepeatPasses(cfg, db, key, e, m - 1, db.now, end);
    RepeatCell(cfg, db, key, e, m - 1);
    AllowedSplit(cfg, db, burst, [Tick(1)] + rest, key, db.now, end);
    AllowedFirst(cfg, db1, Tick(1), rest, key, db.now, end);
    LoneNames(e, key);
    StepCell(cfg, db1, Tick(1), key);
    StepKeepsGood(cfg, db1, Tick(1));
    RoundsPass(cfg, db2, key, e, k, db.now, end);
  }

  lemma LoneNames(e: Event, key: Key)
    requires Lone(e, key)
    ensures IsCounter(key) && Names(e, key)
  {
    assert key in KeysOf(e);
  }

  /** One attempt, and the wait until a second before its window ends. */
  lemma EarlyOne(cfg: Config, key: Key, e: Event)
    requires Validated(cfg) && Lone(e, key)
    ensures var db := Step(cfg, Step(cfg, Db(map[], 0), e), Tick(Lockout(cfg, key) - 1));
      && Step(cfg, Db(map[], 0), e).now == 0 && db.now == Lockout(cfg, key) - 1 && GoodDb(cfg, db)
      && CellOf(db, key) == Open(1, db.now + 1)
  {
    hide Step, KeysOf;
    var start := Db(map[], 0);
    LoneNames(e, key);
    OneMore(cfg, start, key, e);
    StepCell(cfg, Step(cfg, start, e), Tick(Lockout(cfg, key) - 1), key);
    StepKeepsGood(cfg, Step(cfg, start, e), Tick(Lockout(cfg, key) - 1));
  }

  lemma {:induction false} WholeSeconds(n: int)
    requires n >= 0
    ensures Whole(n, 1)
    decreases n
  {
    if n > 0 {
      WholeStep(n, 1);
      WholeSeconds(n - 1);
    }
  }

  lemma SharpIs(cfg: Config, key: Key, n: int)
    requires Validated(cfg)
    ensures var l, m := Lockout(cfg, key), Limit(cfg, key);
      var windows := Times(CeilDiv(n - 1, l), m);
      && Times(CeilDiv(n - 1, l) + 1, m) == windows + m
      && SharpBound(cfg, key, n, 0, 0) == windows + m - if Whole(n - 1, l) then 0 else 1
  {
    hide Whole, CeilDiv;
    TimesIsProduct(CeilDiv(n - 1, Lockout(cfg, key)) + 1, Limit(cfg, key));
  }

  lemma BusiestPasses(cfg: Config, key: Key, e: Event, n: int)
    requires Validated(cfg) && Lone(e, key) && n > 0
    ensures var from := BusiestFrom(cfg, key, n);
      AllowedIn(cfg, Db(map[], 0), Busiest(cfg, key, e, n), key, from, from + n) == SharpBound(cfg, key, n, 0, 0)
  {
    hide AllowedIn, Times, Rounds, Late, Lone, CellOf, GoodDb, SharpBound;
    var l, k := Lockout(cfg, key), CeilDiv(n - 1, Lockout(cfg, key));
    SharpIs(cfg, key, n);
    if Whole(n - 1, l) {
      hide CeilDiv;
      EmptyIsClean(cfg, key);
      RoundsPass(cfg, Db(map[], 0), key, e, k, 0, n);
    } else {
      hide CeilDiv, Whole;
      NothingIsWhole(l);
      CeilDivIs(n - 1, l);
      if l == 1 {
        WholeSeconds(n - 1);
      }
      EarlyThenLate(cfg, key, e, k - 1, n);
    }
  }

  lemma EarlyThenLate(cfg: Config, key: Key, e: Event, k: nat, n: int)
    requires Validated(cfg) && Lone(e, key) && Lockout(cfg, key) > 1 && n - 1 > Times(k, Lockout(cfg, key))
    ensures var l := Lockout(cfg, key);
      AllowedIn(cfg, Db(map[], 0), [e] + ([Tick(l - 1)] + Late(cfg, key, e, k)), key, l - 1, l - 1 + n) ==
        Limit(cfg, key) - 1 + Times(k + 1, Limit(cfg, key))
  {
    hide Step, AllowedIn, Times, Late, Lone, CellOf, GoodDb;
    var db, l := Db(map[], 0), Lockout(cfg, key);
    var rest := Late(cfg, key, e, k);
    var early := Step(cfg, db, e);
    EarlyOne(cfg, key, e);
    assert ([e] + ([Tick(l - 1)] + rest))[1..] == [Tick(l - 1)] + rest;
    assert ([Tick(l - 1)] + rest)[1..] == rest;
    AllowedBefore(cfg, db, [e] + ([Tick(l - 1)] + rest), key, l - 1, l - 1 + n);
    AllowedBefore(cfg, early, [Tick(l - 1)] + rest, key, l - 1, l - 1 + n);
    LatePasses(cfg, Step(cfg, early, Tick(l - 1)), key, e, k, l - 1 + n);
  }

  lemma NothingIsWhole(l: int)
    requires l > 0
    ensures Whole(0, l)
  {
  }

  lemma EmptyIsClean(cfg: Config, key: Key)
    ensures GoodDb(cfg, Db(map[], 0)) && CellOf(Db(map[], 0), key).Absent?
  {
  }

  lemma BusiestPlain(cfg: Config, key: Key, e: Event, n: int)
    requires Validated(cfg) && n > 0
    ensures Plain(Busiest(cfg, key, e, n), e)
  {
    hide Rounds, Repeat, CeilDiv, Plain;
    var l, k := Lockout(cfg, key), CeilDiv(n - 1, Lockout(cfg, key));
    NothingIsWhole(l);
    if Whole(n - 1, l) {
      RoundsPlain(cfg, key, e, k);
    } else {
      CeilDivIs(n - 1, l);
      var burst, rest := Repeat(e, Limit(cfg, key) - 1), Rounds(cfg, key, e, k - 1);
      RepeatPlain(e, Limit(cfg, key) - 1);
      RoundsPlain(cfg, key, e, k - 1);
      PlainTick(1, e);
      PlainTick(l - 1, e);
      PlainConcat([Tick(1)], rest, e);
      PlainConcat(burst, [Tick(1)] + rest, e);
      PlainConcat([Tick(l - 1)], Late(cfg, key, e, k - 1), e);
      PlainConcat([e], [Tick(l - 1)] + Late(cfg, key, e, k - 1), e);
    }
  }

  /** The sharp rate bound cannot be improved: for every limit, lockout time and length of interval some run
      from an empty server, without resets or faults, reaches it. */
  lemma RateBoundIsReached(cfg: Config, key: Key, e: Event, n: int)
    requires Validated(cfg) && Lone(e, key) && n > 0
    ensures var es, from := Busiest(cfg, key, e, n), BusiestFrom(cfg, key, n);
      && ResetsIn(0, es, key, from, from + n) == 0 && FaultsIn(0, es, key, from, from + n) == 0
      && AllowedIn(cfg, Db(map[], 0), es, key, from, from + n) == SharpBound(cfg, key, n, 0, 0)
  {
    hide AllowedIn, Busiest, SharpBound;
    BusiestPasses(cfg, key, e, n);
    BusiestPlain(cfg, key, e, n);
    OnlyAttemptsAndTicks(0, Busiest(cfg, key, e, n), key, BusiestFrom(cfg, key, n), BusiestFrom(cfg, key, n) + n);
  }
}
