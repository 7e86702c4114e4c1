/**
 * What the store has to do with the past: a counter is the number of attempts since its window
 * opened, where windows are told from the history of attempts, resets and clock ticks alone.
 */
module LoginHistory {
  import opened RedisServer
  import opened Clients
  import opened LoginBackoff
  import opened LoginRuns

  function Hits(ops: seq<Op>): nat {
    if ops == [] then 0 else Hits(ops[..|ops| - 1]) + if ops[|ops| - 1].Hit? then 1 else 0
  }

  /** A window opened by ops[j] is over before ops[i]: its lockout time has passed or a reset came. */
  predicate Closed(ops: seq<Op>, lockout: int, j: nat, i: nat)
    requires j < i <= |ops|
  {
    Elapsed(ops[..i]) - Elapsed(ops[..j]) >= lockout || exists k | j < k < i :: ops[k].Clear?
  }

  /** An attempt opens a window when every earlier window is over. */
  predicate Opens(ops: seq<Op>, lockout: int, i: nat)
    requires i < |ops|
  {
    ops[i].Hit? && forall j: nat | j < i && Opens(ops, lockout, j) :: Closed(ops, lockout, j, i)
  }

  predicate InWindow(ops: seq<Op>, lockout: int, j: nat) {
    j < |ops| && Opens(ops, lockout, j) && !Closed(ops, lockout, j, |ops|)
  }

  lemma {:induction false} OpensOfPrefix(ops: seq<Op>, lockout: int, n: nat, i: nat)
    requires i < n <= |ops|
    ensures Opens(ops[..n], lockout, i) == Opens(ops, lockout, i)
    decreases i
  {
    forall j: nat | j < i
      ensures Opens(ops[..n], lockout, j) == Opens(ops, lockout, j)
      ensures Closed(ops[..n], lockout, j, i) == Closed(ops, lockout, j, i)
    {
      OpensOfPrefix(ops, lockout, n, j);
      ClosedOfPrefix(ops, lockout, n, j, i);
    }
  }

  lemma ClosedOfPrefix(ops: seq<Op>, lockout: int, n: nat, j: nat, i: nat)
    requires j < i <= n <= |ops|
    ensures Closed(ops[..n], lockout, j, i) == Closed(ops, lockout, j, i)
  {
    assert ops[..n][..i] == ops[..i] && ops[..n][..j] == ops[..j];
  }

  /** How one more operation changes which windows are over. */
  predicate ClearedIn(ops: seq<Op>, j: nat, i: nat)
    requires i <= |ops|
  {
    exists k | j < k < i :: ops[k].Clear?
  }

  lemma ClosedIs(ops: seq<Op>, lockout: int, j: nat, i: nat)
    requires j < i <= |ops|
    ensures Closed(ops, lockout, j, i) <==> Elapsed(ops[..i]) - Elapsed(ops[..j]) >= lockout || ClearedIn(ops, j, i)
  {
    hide Elapsed;
  }

  lemma ClearedSnoc(ops: seq<Op>, j: nat)
    requires ops != [] && j < |ops| - 1
    ensures var n := |ops| - 1; ClearedIn(ops, j, n + 1) <==> ClearedIn(ops[..n], j, n) || ops[n].Clear?
  {
    var n := |ops| - 1;
    if ClearedIn(ops, j, n + 1) && !ops[n].Clear? {
      var k :| j < k < n + 1 && ops[k].Clear?;
      assert ops[..n][k].Clear?;
    }
    if ClearedIn(ops[..n], j, n) {
      var k :| j < k < n && ops[..n][k].Clear?;
      assert ops[k].Clear?;
    }
  }

  lemma ElapsedOfPrefix(ops: seq<Op>, n: nat, j: nat)
    requires j <= n <= |ops|
    ensures Elapsed(ops[..n][..j]) == Elapsed(ops[..j])
  {
    hide Elapsed;
    assert ops[..n][..j] == ops[..j];
  }

  lemma ElapsedWhole(ops: seq<Op>)
    ensures Elapsed(ops[..|ops|]) == Elapsed(ops)
  {
    hide Elapsed;
    assert ops[..|ops|] == ops;
  }

  lemma ClosedSnoc(ops: seq<Op>, lockout: int, j: nat)
    requires ops != [] && j < |ops| - 1
    ensures var n := |ops| - 1;
      Closed(ops, lockout, j, n + 1) <==>
        Closed(ops[..n], lockout, j, n) || ops[n].Clear? || Elapsed(ops) - Elapsed(ops[..j]) >= lockout
  {
    hide Elapsed, Closed, ClearedIn;
    var n := |ops| - 1;
    var pre := ops[..n];
    ElapsedGrows(ops);
    ElapsedOfPrefix(ops, n, j);
    ElapsedOfPrefix(ops, n, n);
    ElapsedWhole(ops);
    ClosedIs(pre, lockout, j, n);
    ClosedIs(ops, lockout, j, n + 1);
    ClearedSnoc(ops, j);
  }

  lemma ElapsedGrows(ops: seq<Op>)
    requires ops != []
    ensures Elapsed(ops[..|ops| - 1]) <= Elapsed(ops)
  {
  }

  /** A cell as history has it: absent when no window is open, else the attempts since the window's
      first one, with the deadline that one set. */
  ghost predicate Describes(c: Cell, start: int, lockout: int, ops: seq<Op>) {
    && (c.Absent? <==> forall j: nat :: !InWindow(ops, lockout, j))
    && forall j: nat | InWindow(ops, lockout, j) :: c == WindowCell(start, lockout, ops, j)
  }

  function WindowCell(start: int, lockout: int, ops: seq<Op>, j: nat): Cell
    requires j <= |ops|
  {
    Open(Hits(ops[j..]), start + Elapsed(ops[..j]) + lockout)
  }

  /** The cell of a counter that starts absent is a function of the history. */
  lemma {:induction false} CellIsHistory(start: int, lockout: int, ops: seq<Op>)
    requires lockout > 0
    ensures Describes(WatchRun(Watch(Absent, start), lockout, ops).cell, start, lockout, ops)
    decreases |ops|
  {
    if ops != [] {
      var n := |ops| - 1;
      CellIsHistory(start, lockout, ops[..n]);
      WatchClock(Watch(Absent, start), lockout, ops[..n]);
      var w := WatchRun(Watch(Absent, start), lockout, ops[..n]);
      forall j: nat | j < n
        ensures InWindow(ops, lockout, j) <==> StaysIn(ops, lockout, j)
        ensures WindowCell(start, lockout, ops, j).deadline == WindowCell(start, lockout, ops[..n], j).deadline
        ensures WindowCell(start, lockout, ops, j).count ==
          WindowCell(start, lockout, ops[..n], j).count + if ops[n].Hit? then 1 else 0
      {
        WindowSnoc(start, lockout, ops, j);
      }
      LastOpens(ops, lockout);
      if ops[n].Hit? {
        LastWindow(start, lockout, ops);
      }
      HistoryStep(w, start, lockout, ops);
    }
  }

  predicate StaysIn(ops: seq<Op>, lockout: int, j: nat)
    requires j < |ops|
  {
    var n := |ops| - 1;
    InWindow(ops[..n], lockout, j) && !ops[n].Clear? && Elapsed(ops) - Elapsed(ops[..j]) < lockout
  }

  lemma WindowSnoc(start: int, lockout: int, ops: seq<Op>, j: nat)
    requires ops != [] && j < |ops| - 1
    ensures var n := |ops| - 1;
      && (InWindow(ops, lockout, j) <==> StaysIn(ops, lockout, j))
      && WindowCell(start, lockout, ops, j).deadline == WindowCell(start, lockout, ops[..n], j).deadline
      && WindowCell(start, lockout, ops, j).count ==
          WindowCell(start, lockout, ops[..n], j).count + if ops[n].Hit? then 1 else 0
  {
    hide Opens, Closed, Elapsed;
    var n := |ops| - 1;
    OpensOfPrefix(ops, lockout, n, j);
    ClosedSnoc(ops, lockout, j);
    SliceOfPrefix(ops, n, j);
    ElapsedOfPrefix(ops, n, j);
  }

  lemma SliceOfPrefix(ops: seq<Op>, n: nat, j: nat)
    requires j <= n <= |ops|
    ensures ops[j..][..n - j] == ops[..n][j..]
  {
    var a, b := ops[j..][..n - j], ops[..n][j..];
    assert |a| == |b| && forall k | 0 <= k < n - j :: a[k] == b[k];
  }

  lemma HitsOfOne(op: Op)
    ensures Hits([op]) == if op.Hit? then 1 else 0
  {
    var none := [op][..0];
    assert none == [] && Hits(none) == 0;
    assert [op][..|[op]| - 1] == none;
  }

  lemma LastWindow(start: int, lockout: int, ops: seq<Op>)
    requires ops != [] && ops[|ops| - 1].Hit?
    ensures WindowCell(start, lockout, ops, |ops| - 1) == Open(1, start + Elapsed(ops[..|ops| - 1]) + lockout)
  {
    hide Elapsed;
    var n := |ops| - 1;
    assert ops[n..] == [ops[n]];
    HitsOfOne(ops[n]);
  }

  lemma HistoryStep(w: Watch, start: int, lockout: int, ops: seq<Op>)
    requires lockout > 0 && ops != [] && w.now == start + Elapsed(ops[..|ops| - 1])
    requires Describes(w.cell, start, lockout, ops[..|ops| - 1])
    requires var n := |ops| - 1;
      && (forall j: nat | j < n ::
            && (InWindow(ops, lockout, j) <==> StaysIn(ops, lockout, j))
            && WindowCell(start, lockout, ops, j).deadline == WindowCell(start, lockout, ops[..n], j).deadline
            && WindowCell(start, lockout, ops, j).count ==
                WindowCell(start, lockout, ops[..n], j).count + if ops[n].Hit? then 1 else 0)
      && (InWindow(ops, lockout, n) <==> ops[n].Hit? && forall j: nat :: !InWindow(ops[..n], lockout, j))
      && (ops[n].Hit? ==> WindowCell(start, lockout, ops, n) == Open(1, w.now + lockout))
    ensures Describes(Apply(w, lockout, ops[|ops| - 1]).cell, start, lockout, ops)
  {
    hide Opens;
    var n := |ops| - 1;
    var c := Apply(w, lockout, ops[n]).cell;
    if w.cell.Absent? {
      assert forall j: nat :: InWindow(ops, lockout, j) ==> j == n;
    } else {
      var j: nat :| InWindow(ops[..n], lockout, j);
      assert w.cell == WindowCell(start, lockout, ops[..n], j);
      assert InWindow(ops, lockout, j) <==> StaysIn(ops, lockout, j);
      assert !InWindow(ops, lockout, n);
      forall i: nat | InWindow(ops, lockout, i)
        ensures c == WindowCell(start, lockout, ops, i)
      {
        assert StaysIn(ops, lockout, i);
        assert w.cell == WindowCell(start, lockout, ops[..n], i);
        assert ops[..n][..i] == ops[..i];
      }
      assert ops[..n][..j] == ops[..j];
      assert ops[..n][..n] == ops[..n];
      assert c.Absent? <==> !StaysIn(ops, lockout, j);
    }
  }

  lemma LastOpens(ops: seq<Op>, lockout: int)
    requires lockout > 0 && ops != []
    ensures var n := |ops| - 1;
      InWindow(ops, lockout, n) <==> ops[n].Hit? && forall j: nat :: !InWindow(ops[..n], lockout, j)
  {
    var n := |ops| - 1;
    assert ops[..n + 1] == ops;
    forall j: nat | j < n
      ensures Opens(ops[..n], lockout, j) == Opens(ops, lockout, j)
      ensures Closed(ops[..n], lockout, j, n) == Closed(ops, lockout, j, n)
    {
      OpensOfPrefix(ops, lockout, n, j);
      ClosedOfPrefix(ops, lockout, n, j, n);
    }
    assert forall j: nat | j < n ::
        InWindow(ops[..n], lockout, j) <==> Opens(ops, lockout, j) && !Closed(ops, lockout, j, n);
  }

  // The same for runs.

  ghost function HistoryCell(start: int, lockout: int, ops: seq<Op>): Cell {
    if exists j: nat :: InWindow(ops, lockout, j)
    then
      var j: nat :| InWindow(ops, lockout, j);
      WindowCell(start, lockout, ops, j)
    else Absent
  }

  lemma DescribedIsHistory(c: Cell, start: int, lockout: int, ops: seq<Op>)
    requires Describes(c, start, lockout, ops)
    ensures c == HistoryCell(start, lockout, ops)
  {
  }

  /** In every run from an empty server, faulted or not, each counter is what the history says: the
      applied attempts on it since its window opened, absent exactly when no window is open. */
  lemma StoreIsHistory(cfg: Config, start: int, es: seq<Event>, key: Key)
    requires Validated(cfg) && IsCounter(key)
    ensures CellOf(Run(cfg, Db(map[], start), es), key) == HistoryCell(start, Lockout(cfg, key), Project(es, key))
  {
    var db := Db(map[], start);
    hide Run, Describes, HistoryCell;
    RunCell(cfg, db, es, key);
    CellIsHistory(start, Lockout(cfg, key), Project(es, key));
    assert Watching(db, key) == Watch(Absent, start);
    DescribedIsHistory(CellOf(Run(cfg, db, es), key), start, Lockout(cfg, key), Project(es, key));
  }

  /** A counter read off the history that ends with the attempt itself. */
  ghost function ReplayedTally(cfg: Config, start: int, es: seq<Event>, key: Key): Tally
    requires IsCounter(key)
  {
    var ops := Project(es, key);
    var c := HistoryCell(start, Lockout(cfg, key), ops);
    var (n, t) := if c.Open? then (c.count, c.deadline) else (0, 0);
    Tally(if key.IpKey? then Ip else Identifier, Limit(cfg, key), n, t - (start + Elapsed(ops)))
  }

  ghost function ReplayedTallies(cfg: Config, start: int, es: seq<Event>, ks: seq<Key>): seq<Tally>
    requires forall k | k in ks :: IsCounter(k)
  {
    seq(|ks|, i requires 0 <= i < |ks| => ReplayedTally(cfg, start, es, ks[i]))
  }

  lemma TallyIsHistory(cfg: Config, start: int, es: seq<Event>, e: Event, key: Key)
    requires Validated(cfg) && IsCounter(key) && OpOf(e, key).Hit?
    ensures GoodDb(cfg, Run(cfg, Db(map[], start), es))
    ensures RaisedIn(cfg, Run(cfg, Db(map[], start), es), key) == ReplayedTally(cfg, start, es + [e], key)
  {
    hide Run, HistoryCell, GoodDb, CellOf, Elapsed, Apply;
    var db := Db(map[], start);
    ReachableIsGood(cfg, start, es);
    RaisedIsHistory(cfg, start, es, e, key);
    RaisedIsOpen(cfg, Run(cfg, db, es), key);
  }

  lemma RaisedIsOpen(cfg: Config, db: Db, key: Key)
    requires GoodDb(cfg, db) && IsCounter(key)
    ensures Raise(CellOf(db, key), db.now, Lockout(cfg, key)).Open? && !CellOf(db, key).Stuck?
  {
    hide CellOf;
    assert GoodCell(CellOf(db, key), db.now, Lockout(cfg, key));
  }

  /** The cell that the last attempt leaves, and the clock, read off the history that ends with it. */
  lemma RaisedIsHistory(cfg: Config, start: int, es: seq<Event>, e: Event, key: Key)
    requires Validated(cfg) && IsCounter(key) && OpOf(e, key).Hit?
    ensures var db, ops := Run(cfg, Db(map[], start), es), Project(es + [e], key);
      && Raise(CellOf(db, key), db.now, Lockout(cfg, key)) == HistoryCell(start, Lockout(cfg, key), ops)
      && db.now == start + Elapsed(ops)
  {
    hide Run, Describes, HistoryCell, CellOf, GoodDb, OpOf;
    var db := Db(map[], start);
    var ops, lockout := Project(es + [e], key), Lockout(cfg, key);
    EmptyWatch(cfg, start, key);
    RunCell(cfg, db, es, key);
    assert ops[..|es|] == Project(es, key) && ops[|es|] == Hit;
    CellIsHistory(start, lockout, ops);
    WatchClock(Watch(Absent, start), lockout, ops);
    DescribedIsHistory(WatchRun(Watch(Absent, start), lockout, ops).cell, start, lockout, ops);
  }

  lemma EmptyWatch(cfg: Config, start: int, key: Key)
    ensures GoodDb(cfg, Db(map[], start)) && Watching(Db(map[], start), key) == Watch(Absent, start)
  {
  }

  /** Every reply, in every run, is the one that replaying the whole history gives. */
  lemma RepliesAreHistory(cfg: Config, start: int, es: seq<Event>, e: Event)
    requires Validated(cfg) && e.Attempt?
    ensures ReplyTo(cfg, Run(cfg, Db(map[], start), es), e) ==
      if e.fault.Failed? then UNCHECKED else Verdict(ReplayedTallies(cfg, start, es + [e], KeysOf(e)))
  {
    hide Step, ReplyTo, Verdict;
    var db := Run(cfg, Db(map[], start), es);
    ReachableIsGood(cfg, start, es);
    ReplyIsVerdict(cfg, db, e);
    if e.fault.NoFault? {
      forall i | 0 <= i < |KeysOf(e)|
        ensures RaisedIn(cfg, db, KeysOf(e)[i]) == ReplayedTally(cfg, start, es + [e], KeysOf(e)[i])
      {
        TallyIsHistory(cfg, start, es, e, KeysOf(e)[i]);
      }
      assert TalliesOf(cfg, db, e) == ReplayedTallies(cfg, start, es + [e], KeysOf(e));
    }
  }

  // No false lockouts.

  /** The attempts received on a counter, whether or not their call failed. */
  function Received(es: seq<Event>, key: Key): nat {
    if es == [] then 0
    else Received(es[..|es| - 1], key) + if es[|es| - 1].Attempt? && Names(es[|es| - 1], key) then 1 else 0
  }

  lemma {:induction false} HitsWereReceived(es: seq<Event>, key: Key)
    ensures Hits(Project(es, key)) <= Received(es, key)
    decreases |es|
  {
    if es != [] {
      HitsWereReceived(es[..|es| - 1], key);
      assert Project(es, key)[..|es| - 1] == Project(es[..|es| - 1], key);
    }
  }

  /** The events since es[j]: more attempts than the limit, within one lockout time, no reset applied. */
  predicate Justifies(cfg: Config, es: seq<Event>, key: Key, j: nat)
    requires j < |es|
  {
    && es[j].Attempt? && Names(es[j], key)
    && Received(es[j..], key) > Limit(cfg, key)
    && Elapsed(Project(es, key)) - Elapsed(Project(es, key)[..j]) < Lockout(cfg, key)
    && forall k | j < k < |es| :: !(es[k].Reset? && Names(es[k], key) && Applied(es[k].fault))
  }

  lemma WindowFacts(ops: seq<Op>, lockout: int, j: nat)
    requires InWindow(ops, lockout, j)
    ensures ops[j].Hit? && Elapsed(ops) - Elapsed(ops[..j]) < lockout
    ensures forall k | j < k < |ops| :: !ops[k].Clear?
  {
    assert ops[..|ops|] == ops;
  }

  lemma OpsTell(e: Event, key: Key)
    ensures OpOf(e, key).Hit? ==> e.Attempt? && Names(e, key)
    ensures e.Reset? && Names(e, key) && Applied(e.fault) ==> OpOf(e, key).Clear?
  {
  }

  lemma WindowJustifies(cfg: Config, es: seq<Event>, key: Key, j: nat, ops: seq<Op>)
    requires ops == Project(es, key) && j < |es| && ops[j].Hit?
    requires Hits(ops[j..]) > Limit(cfg, key)
    requires Elapsed(ops) - Elapsed(ops[..j]) < Lockout(cfg, key)
    requires forall k | j < k < |ops| :: !ops[k].Clear?
    ensures Justifies(cfg, es, key, j)
  {
    hide Received, Hits, Elapsed, Limit, Lockout;
    assert ops[j..] == Project(es[j..], key);
    HitsWereReceived(es[j..], key);
    OpsTell(es[j], key);
    forall k | j < k < |es|
      ensures !(es[k].Reset? && Names(es[k], key) && Applied(es[k].fault))
    {
      assert ops[k] == OpOf(es[k], key);
      OpsTell(es[k], key);
    }
  }

  lemma LockedIsJustified(cfg: Config, start: int, es: seq<Event>, key: Key)
    requires Validated(cfg) && IsCounter(key) && Locked(ReplayedTally(cfg, start, es, key))
    ensures exists j: nat | j < |es| :: Justifies(cfg, es, key, j)
  {
    var ops, lockout := Project(es, key), Lockout(cfg, key);
    var j := OpenWindow(start, lockout, ops);
    WindowFacts(ops, lockout, j);
    WindowJustifies(cfg, es, key, j, ops);
  }

  lemma OpenWindow(start: int, lockout: int, ops: seq<Op>) returns (j: nat)
    requires HistoryCell(start, lockout, ops).Open?
    ensures InWindow(ops, lockout, j) && HistoryCell(start, lockout, ops) == WindowCell(start, lockout, ops, j)
  {
    j :| InWindow(ops, lockout, j) && HistoryCell(start, lockout, ops) == WindowCell(start, lockout, ops, j);
  }

  /** A blocked reply names an identifier or IP that really received more than its limit of attempts in
      one window since its last applied reset, the blocked attempt being one of them. */
  lemma NoFalseLockout(cfg: Config, start: int, es: seq<Event>, e: Event, r: CheckResult)
    requires Validated(cfg) && e.Attempt?
    requires r == ReplyTo(cfg, Run(cfg, Db(map[], start), es), e) && !r.allowed
    ensures r.reason == "ip" || r.reason == "identifier"
    ensures Names(e, KeyFor(e, r.reason))
    ensures exists j: nat | j < |es| + 1 :: Justifies(cfg, es + [e], KeyFor(e, r.reason), j)
  {
    hide Step, ReplyTo, Verdict;
    RepliesAreHistory(cfg, start, es, e);
    var tallies := ReplayedTallies(cfg, start, es + [e], KeysOf(e));
    BlockedNames(cfg, start, es + [e], e, r, tallies);
    LockedIsJustified(cfg, start, es + [e], KeyFor(e, r.reason));
  }

  lemma BlockedNames(cfg: Config, start: int, es: seq<Event>, e: Event, r: CheckResult, tallies: seq<Tally>)
    requires Validated(cfg) && e.Attempt? && tallies == ReplayedTallies(cfg, start, es, KeysOf(e))
    requires r == Verdict(tallies) && !r.allowed
    ensures r.reason == "ip" || r.reason == "identifier"
    ensures Names(e, KeyFor(e, r.reason)) && Locked(ReplayedTally(cfg, start, es, KeyFor(e, r.reason)))
  {
    hide Verdict, Locked, KeysOf, HistoryCell;
    var i := VerdictReports(tallies);
    ReplayedKey(cfg, start, es, e, i);
    assert tallies[i] == ReplayedTally(cfg, start, es, KeysOf(e)[i]);
  }

  lemma ReplayedKey(cfg: Config, start: int, es: seq<Event>, e: Event, i: nat)
    requires i < |KeysOf(e)|
    ensures var key := KeysOf(e)[i];
      && Names(e, key)
      && key == if ReplayedTally(cfg, start, es, key).dim.Ip? then IpKey(IpOf(e)) else IdentifierKey(IdOf(e))
  {
    hide HistoryCell;
  }
}
