/** How many attempts on one identifier or one IP get through, over any interval of any run. */
module LoginBounds {
  import opened Wrappers
  import opened RedisServer
  import opened Clients
  import opened LoginBackoff
  import opened LoginRuns

  function Duration(e: Event): nat {
    if e.Tick? then e.d else 0
  }

  predicate Within(now: int, from: int, end: int) {
    from <= now < end
  }

  function One(b: bool): nat {
    if b then 1 else 0
  }

  /** The attempts on a key that are let through at a time in [from, end). */
  function AllowedIn(cfg: Config, db: Db, es: seq<Event>, key: Key, from: int, end: int): nat
    decreases |es|
  {
    if es == [] then 0
    else
      var e := es[0];
      One(e.Attempt? && Names(e, key) && Within(db.now, from, end) && ReplyTo(cfg, db, e).allowed)
      + AllowedIn(cfg, Step(cfg, db, e), es[1..], key, from, end)
  }

  /** The resets of a key that took effect at a time in [from, end). */
  function ResetsIn(now: int, es: seq<Event>, key: Key, from: int, end: int): nat
    decreases |es|
  {
    if es == [] then 0
    else
      One(OpOf(es[0], key).Clear? && Within(now, from, end))
      + ResetsIn(now + Duration(es[0]), es[1..], key, from, end)
  }

  /** The attempts on a key whose call failed at a time in [from, end). */
  function FaultsIn(now: int, es: seq<Event>, key: Key, from: int, end: int): nat
    decreases |es|
  {
    if es == [] then 0
    else
      var e := es[0];
      One(e.Attempt? && Names(e, key) && e.fault.Failed? && Within(now, from, end))
      + FaultsIn(now + Duration(e), es[1..], key, from, end)
  }

  /** n divided by l, rounded up: how many windows of length l are needed to cover n seconds. */
  function CeilDiv(n: int, l: int): nat
    requires l > 0
    decreases n
  {
    if n <= 0 then 0 else 1 + CeilDiv(n - l, l)
  }

  function Times(n: nat, m: nat): nat {
    if n == 0 then 0 else Times(n - 1, m) + m
  }

  lemma {:induction false} TimesIsProduct(n: nat, m: nat)
    ensures Times(n, m) == n * m
  {
    if n > 0 {
      TimesIsProduct(n - 1, m);
      assert (n - 1) * m + m == n * m;
    }
  }

  /** That is division rounded up. */
  lemma {:induction false} CeilDivIs(n: int, l: int)
    requires l > 0 && n > 0
    ensures CeilDiv(n, l) > 0 && Times(CeilDiv(n, l) - 1, l) < n <= Times(CeilDiv(n, l), l)
    ensures (CeilDiv(n, l) - 1) * l < n <= CeilDiv(n, l) * l
    decreases n
  {
    var q := CeilDiv(n, l);
    if n > l {
      CeilDivIs(n - l, l);
      assert Times(q - 1, l) == Times(q - 2, l) + l;
    } else {
      assert CeilDiv(n - l, l) == 0;
    }
    TimesIsProduct(q - 1, l);
    TimesIsProduct(q, l);
  }

  /** n seconds are a whole number of windows of length l. */
  predicate Whole(n: int, l: int)
    requires l > 0
  {
    n == Times(CeilDiv(n, l), l)
  }

  /** A full limit for each of those windows. */
  function Quota(n: int, max: nat, l: int): nat
    requires l > 0
    decreases n
  {
    if n <= 0 then 0 else max + Quota(n - l, max, l)
  }

  lemma {:induction false} QuotaIsProduct(n: int, max: nat, l: int)
    requires l > 0
    ensures Quota(n, max, l) == CeilDiv(n, l) * max
    decreases n
  {
    if n > 0 {
      QuotaIsProduct(n - l, max, l);
      assert (CeilDiv(n - l, l) + 1) * max == CeilDiv(n - l, l) * max + max;
    }
  }

  lemma {:induction false} QuotaMonotone(m: int, n: int, max: nat, l: int)
    requires l > 0 && m <= n
    ensures Quota(m, max, l) <= Quota(n, max, l)
    decreases n
  {
    if m > 0 {
      QuotaMonotone(m - l, n - l, max, l);
    }
  }

  /** One second more needs one more window only where a window ends. */
  lemma {:induction false} QuotaStep(n: int, max: nat, l: int)
    requires l > 0 && n > 0
    ensures Quota(n, max, l) == Quota(n - 1, max, l) + if Whole(n - 1, l) then max else 0
    decreases n
  {
    if n > 1 {
      WholeStep(n - 1, l);
      if n > l {
        QuotaStep(n - l, max, l);
      } else {
        assert Quota(n - l, max, l) == 0 && !Whole(n - 1 - l, l);
      }
    }
  }

  lemma WholeStep(n: int, l: int)
    requires l > 0 && n > 0
    ensures Whole(n, l) <==> Whole(n - l, l)
  {
    assert CeilDiv(n, l) == 1 + CeilDiv(n - l, l);
    assert Times(CeilDiv(n, l), l) == Times(CeilDiv(n - l, l), l) + l;
  }

  /** What a cell may still let through before end without a reset or a fault: the rest of its window,
      and full windows from its deadline on. */
  function Budget(w: Watch, max: nat, l: int, end: int): nat
    requires l > 0
  {
    if w.cell.Open? then Max(0, max - w.cell.count) + Quota(end - w.cell.deadline, max, l)
    else Quota(end - w.now, max, l)
  }

  /** No operation raises the budget, except a clear, which is worth one full window; an attempt that
      finds room before end uses it up. */
  lemma BudgetStep(w: Watch, max: nat, l: int, end: int, op: Op)
    requires max > 0 && l > 0 && GoodCell(w.cell, w.now, l) && w.now < end
    ensures Budget(Apply(w, l, op), max, l, end) <= Budget(w, max, l, end) + if op.Clear? then max else 0
    ensures op.Hit? && !(w.cell.Open? && w.cell.count >= max) ==>
      Budget(Apply(w, l, op), max, l, end) + 1 <= Budget(w, max, l, end)
  {
    match op
    case Wait(d) =>
      var s := if w.cell.Open? then w.cell.deadline else w.now;
      QuotaMonotone(end - Max(s, w.now + d), end - s, max, l);
    case Clear =>
      if w.cell.Open? {
        QuotaMonotone(end - (w.now + l), end - w.cell.deadline, max, l);
      }
    case Hit =>
    case Skip =>
  }

  /** Nothing is counted once the interval is over. */
  lemma {:induction false} NothingAfter(cfg: Config, db: Db, es: seq<Event>, key: Key, from: int, end: int)
    requires end <= db.now
    ensures AllowedIn(cfg, db, es, key, from, end) == 0
    decreases |es|
  {
    hide Step, ReplyTo;
    if es != [] {
      StepClock(cfg, db, es[0]);
      NothingAfter(cfg, Step(cfg, db, es[0]), es[1..], key, from, end);
    }
  }

  lemma StepClock(cfg: Config, db: Db, e: Event)
    ensures Step(cfg, db, e).now == db.now + Duration(e)
  {
  }

  lemma StepAllowed(cfg: Config, db: Db, e: Event, key: Key)
    requires Validated(cfg) && GoodDb(cfg, db) && IsCounter(key)
    requires e.Attempt? && Names(e, key) && ReplyTo(cfg, db, e).allowed && e.fault.NoFault?
    ensures !Full(cfg, db, key) && OpOf(e, key).Hit?
  {
    hide ReplyTo;
    AllowedIff(cfg, db, e);
    assert key in KeysOf(e);
  }

  lemma EventCost(cfg: Config, db: Db, e: Event, key: Key, end: int, passed: bool)
    requires Validated(cfg) && GoodDb(cfg, db) && IsCounter(key) && db.now < end
    requires passed ==> e.Attempt? && Names(e, key) && ReplyTo(cfg, db, e).allowed
    ensures var m, l := Limit(cfg, key), Lockout(cfg, key);
      One(passed) + Budget(Watching(Step(cfg, db, e), key), m, l, end) <=
      Budget(Watching(db, key), m, l, end)
      + (if OpOf(e, key).Clear? then m else 0)
      + One(e.Attempt? && Names(e, key) && e.fault.Failed?)
  {
    hide Step, ReplyTo;
    assert GoodCell(CellOf(db, key), db.now, Lockout(cfg, key));
    StepCell(cfg, db, e, key);
    BudgetStep(Watching(db, key), Limit(cfg, key), Lockout(cfg, key), end, OpOf(e, key));
    if passed && e.fault.NoFault? {
      StepAllowed(cfg, db, e, key);
    }
  }

  lemma AllowedCons(cfg: Config, db: Db, es: seq<Event>, key: Key, from: int, end: int, passed: bool)
    requires es != [] && from <= db.now < end
    requires passed == (es[0].Attempt? && Names(es[0], key) && ReplyTo(cfg, db, es[0]).allowed)
    ensures AllowedIn(cfg, db, es, key, from, end) ==
      One(passed) + AllowedIn(cfg, Step(cfg, db, es[0]), es[1..], key, from, end)
  {
  }

  lemma CountsCons(now: int, es: seq<Event>, key: Key, from: int, end: int, m: nat)
    requires es != [] && from <= now < end
    ensures var later, e := now + Duration(es[0]), es[0];
      && Times(ResetsIn(now, es, key, from, end), m) ==
           Times(ResetsIn(later, es[1..], key, from, end), m) + (if OpOf(e, key).Clear? then m else 0)
      && FaultsIn(now, es, key, from, end) ==
           FaultsIn(later, es[1..], key, from, end) + One(e.Attempt? && Names(e, key) && e.fault.Failed?)
  {
    hide OpOf, Names, Duration;
  }

  /** From inside the interval on, the budget of the cell bounds what gets through. */
  lemma {:induction false} BudgetBound(cfg: Config, db: Db, es: seq<Event>, key: Key, from: int, end: int)
    requires Validated(cfg) && GoodDb(cfg, db) && IsCounter(key) && from <= db.now
    ensures AllowedIn(cfg, db, es, key, from, end) <=
      Budget(Watching(db, key), Limit(cfg, key), Lockout(cfg, key), end)
      + Times(ResetsIn(db.now, es, key, from, end), Limit(cfg, key))
      + FaultsIn(db.now, es, key, from, end)
    decreases |es|
  {
    hide Step, ReplyTo, Budget, GoodDb, OpOf, Names, ResetsIn, FaultsIn, Times;
    if end <= db.now {
      NothingAfter(cfg, db, es, key, from, end);
    } else if es != [] {
      var e, m := es[0], Limit(cfg, key);
      var passed := e.Attempt? && Names(e, key) && ReplyTo(cfg, db, e).allowed;
      EventCost(cfg, db, e, key, end, passed);
      StepKeepsGood(cfg, db, e);
      StepClock(cfg, db, e);
      BudgetBound(cfg, Step(cfg, db, e), es[1..], key, from, end);
      AllowedCons(cfg, db, es, key, from, end, passed);
      CountsCons(db.now, es, key, from, end, m);
    }
  }

  // The rate bound.

  /** What an interval of n seconds may let through: full windows and the rest of one already open,
      one more window for each reset, and every attempt whose call failed. */
  function Bound(cfg: Config, key: Key, windows: int, resets: nat, faults: nat): int {
    (windows + resets) * Limit(cfg, key) + faults
  }

  lemma BoundIs(cfg: Config, key: Key, n: int, extra: nat, r: nat, f: nat)
    requires Validated(cfg)
    ensures var m, l := Limit(cfg, key), Lockout(cfg, key);
      Bound(cfg, key, CeilDiv(n, l) + extra, r, f) == Quota(n, m, l) + extra * m + Times(r, m) + f
  {
    var m, l := Limit(cfg, key), Lockout(cfg, key);
    QuotaIsProduct(n, m, l);
    TimesIsProduct(r, m);
    Distribute(CeilDiv(n, l), extra, r, m);
  }

  lemma Distribute(a: int, b: int, c: int, m: int)
    ensures (a + b + c) * m == a * m + b * m + c * m
  {
  }

  /** From the moment a counter is clean, at most one limit per lockout time, rounded up. */
  lemma CleanStartBound(cfg: Config, db: Db, es: seq<Event>, key: Key, n: int)
    requires Validated(cfg) && GoodDb(cfg, db) && IsCounter(key) && n > 0 && CellOf(db, key).Absent?
    ensures AllowedIn(cfg, db, es, key, db.now, db.now + n) <=
      Bound(cfg, key, CeilDiv(n, Lockout(cfg, key)),
            ResetsIn(db.now, es, key, db.now, db.now + n), FaultsIn(db.now, es, key, db.now, db.now + n))
  {
    hide AllowedIn;
    BudgetBound(cfg, db, es, key, db.now, db.now + n);
    BoundIs(cfg, key, n, 0, ResetsIn(db.now, es, key, db.now, db.now + n),
        FaultsIn(db.now, es, key, db.now, db.now + n));
  }

  /** What an interval of n seconds may let through, wherever it starts: the intervals of a whole number of
      windows and a second may catch as many full windows, all others miss at least one attempt of the first. */
  function SharpBound(cfg: Config, key: Key, n: int, resets: nat, faults: nat): int
    requires Validated(cfg)
  {
    var l := Lockout(cfg, key);
    Bound(cfg, key, CeilDiv(n - 1, l) + 1, resets, faults) - if Whole(n - 1, l) then 0 else 1
  }

  /** A budget taken anywhere in an interval is less than one window more than the interval needs. */
  lemma BudgetInside(w: Watch, max: nat, l: int, from: int, end: int)
    requires max > 0 && l > 0 && GoodCell(w.cell, w.now, l) && from <= w.now && from < end
    ensures Budget(w, max, l, end) <= max + Quota(end - from - 1, max, l)
    ensures w.cell.Open? || !Whole(end - from - 1, l) ==> Budget(w, max, l, end) < max + Quota(end - from - 1, max, l)
  {
    hide Whole;
    if w.cell.Open? {
      QuotaMonotone(end - w.cell.deadline, end - from - 1, max, l);
    } else {
      QuotaMonotone(end - w.now, end - from, max, l);
      QuotaStep(end - from, max, l);
    }
  }

  lemma {:induction false} RateBoundSteps(cfg: Config, db: Db, es: seq<Event>, key: Key, from: int, end: int)
    requires Validated(cfg) && GoodDb(cfg, db) && IsCounter(key) && from < end
    ensures AllowedIn(cfg, db, es, key, from, end) <=
      Limit(cfg, key) + Quota(end - from - 1, Limit(cfg, key), Lockout(cfg, key))
      - (if Whole(end - from - 1, Lockout(cfg, key)) then 0 else 1)
      + Times(ResetsIn(db.now, es, key, from, end), Limit(cfg, key))
      + FaultsIn(db.now, es, key, from, end)
    decreases |es|
  {
    hide Step, ReplyTo, Whole, Budget, Quota;
    if from <= db.now {
      assert GoodCell(CellOf(db, key), db.now, Lockout(cfg, key));
      BudgetBound(cfg, db, es, key, from, end);
      BudgetInside(Watching(db, key), Limit(cfg, key), Lockout(cfg, key), from, end);
    } else if es != [] {
      StepKeepsGood(cfg, db, es[0]);
      StepClock(cfg, db, es[0]);
      RateBoundSteps(cfg, Step(cfg, db, es[0]), es[1..], key, from, end);
      AllowedBefore(cfg, db, es, key, from, end);
    } else {
      NoQuota(cfg, key, end - from - 1);
    }
  }

  lemma NoQuota(cfg: Config, key: Key, n: int)
    requires Validated(cfg)
    ensures Limit(cfg, key) >= 1 && Quota(n, Limit(cfg, key), Lockout(cfg, key)) >= 0
  {
  }

  lemma AllowedBefore(cfg: Config, db: Db, es: seq<Event>, key: Key, from: int, end: int)
    requires es != [] && db.now < from
    ensures AllowedIn(cfg, db, es, key, from, end) == AllowedIn(cfg, Step(cfg, db, es[0]), es[1..], key, from, end)
  {
  }

  /** In every run from a good store, however requests interleave, the attempts on one identifier or one
      IP that are let through in any interval [from, from + n). The first bound is reached for every n. */
  lemma RateBound(cfg: Config, db: Db, es: seq<Event>, key: Key, from: int, n: int)
    requires Validated(cfg) && GoodDb(cfg, db) && IsCounter(key) && n > 0
    ensures var l, end := Lockout(cfg, key), from + n;
      var r, f := ResetsIn(db.now, es, key, from, end), FaultsIn(db.now, es, key, from, end);
      AllowedIn(cfg, db, es, key, from, end) <= SharpBound(cfg, key, n, r, f)
        <= Bound(cfg, key, CeilDiv(n - 1, l) + 1, r, f) <= Bound(cfg, key, CeilDiv(n, l) + 1, r, f)
  {
    hide AllowedIn, Whole, ResetsIn, FaultsIn, CeilDiv, Quota;
    var end := from + n;
    var r, f := ResetsIn(db.now, es, key, from, end), FaultsIn(db.now, es, key, from, end);
    RateBoundSteps(cfg, db, es, key, from, end);
    BoundIs(cfg, key, n - 1, 1, r, f);
    BoundIs(cfg, key, n, 1, r, f);
    QuotaMonotone(n - 1, n, Limit(cfg, key), Lockout(cfg, key));
  }
}
