/** How often a welcome is published: bounds by concurrency, spacing without it, and accounting. */
module VerificationRuns {
  import opened Wrappers
  import opened RedisServer
  import opened Clients
  import opened Verification
  import opened Text

  /** The state of a run after its first k steps. */
  function After(s: System, url: string, ts: seq<Step>, k: nat): System
    requires k <= |ts|
  {
    Run(s, url, ts[..k])
  }

  lemma AfterStep(s: System, url: string, ts: seq<Step>, k: nat)
    requires k < |ts|
    ensures After(s, url, ts, k + 1) == Next(After(s, url, ts, k), url, ts[k])
  {
    assert ts[..k + 1][..k] == ts[..k];
  }

  /** The requests of an identity that have arrived and not been answered. */
  function InFlight(s: System, u: string): set<nat> {
    set i: nat | i < |s.requests| && Identity(s.requests[i]) == u && !s.requests[i].phase.Replied?
  }

  predicate MayHavePublished(r: Request) {
    r.phase == Publishing || r.phase == Marking || r.phase == Replied(SUCCESS)
  }

  predicate HasPublished(r: Request) {
    r.phase == Marking || r.phase == Replied(SUCCESS)
  }

  /** The members of a set of requests that have passed the check and not been refused by the queue. */
  function Pending(s: System, rs: set<nat>): set<nat> {
    set i | i in rs && i < |s.requests| && MayHavePublished(s.requests[i])
  }

  function Publishers(s: System, rs: set<nat>): set<nat> {
    set i | i in rs && i < |s.requests| && HasPublished(s.requests[i])
  }

  predicate ChecksFor(s: System, t: Step, u: string) {
    t.Check? && Due(s, t.i, Checking) && IsOf(s, t.i, u)
  }

  function Checker(s: System, t: Step, u: string): set<nat> {
    if ChecksFor(s, t, u) then {t.i} else {}
  }

  /** The requests of an identity whose check is one of the steps lo to hi - 1. */
  function Checked(s: System, url: string, ts: seq<Step>, u: string, lo: nat, hi: nat): (rs: set<nat>)
    requires lo <= hi <= |ts|
    decreases hi
  {
    if hi == lo then {}
    else
      Checked(s, url, ts, u, lo, hi - 1) + Checker(After(s, url, ts, hi - 1), ts[hi - 1], u)
  }

  /** The step does not meet a Redis fault on this identity. */
  predicate Sound(s: System, t: Step, u: string) {
    && (t.Check? && IsOf(s, t.i, u) ==> t.fault.NoFault?)
    && (t.Mark? && IsOf(s, t.i, u) ==> t.fault.NoFault?)
  }

  /** Redis fails to do its part for this identity: a check that would have found the mark fails, or a
      mark does not take effect. */
  predicate Slips(s: System, t: Step, u: string) {
    || (t.Check? && Due(s, t.i, Checking) && IsOf(s, t.i, u) && t.fault.Failed? && WelcomeMarked(s.db, u))
    || (t.Mark? && Due(s, t.i, Marking) && IsOf(s, t.i, u) && !Applied(t.fault))
  }

  function Slipper(s: System, t: Step, u: string): (r: set<nat>)
    ensures |r| == if Slips(s, t, u) then 1 else 0
  {
    if Slips(s, t, u) then {t.i} else {}
  }

  function SlipsIn(s: System, url: string, ts: seq<Step>, u: string, lo: nat, hi: nat): nat
    requires lo <= hi <= |ts|
    decreases hi
  {
    if hi == lo then 0
    else SlipsIn(s, url, ts, u, lo, hi - 1) + if Slips(After(s, url, ts, hi - 1), ts[hi - 1], u) then 1 else 0
  }

  /** Between two successive absences of the mark: once present in these states, it stays. */
  predicate NoExpiry(s: System, url: string, ts: seq<Step>, u: string, lo: nat, hi: nat)
    requires lo <= hi <= |ts|
  {
    forall k | lo <= k < hi ::
      WelcomeMarked(After(s, url, ts, k).db, u) ==> WelcomeMarked(After(s, url, ts, k + 1).db, u)
  }

  predicate NoFaults(s: System, url: string, ts: seq<Step>, u: string, lo: nat, hi: nat)
    requires lo <= hi <= |ts|
  {
    forall k | lo <= k < hi :: Sound(After(s, url, ts, k), ts[k], u)
  }

  predicate AtMostInFlight(s: System, url: string, ts: seq<Step>, u: string, lo: nat, hi: nat, c: nat)
    requires lo <= hi <= |ts|
  {
    forall k | lo <= k <= hi :: |InFlight(After(s, url, ts, k), u)| <= c
  }

  lemma {:induction false} SubsetSize(a: set<nat>, b: set<nat>)
    requires a <= b
    ensures |a| <= |b|
    decreases |a|
  {
    if a != {} {
      var x :| x in a;
      SubsetSize(a - {x}, b - {x});
    }
  }

  lemma UnionSize(a: set<nat>, b: set<nat>, c: set<nat>)
    requires a <= b + c
    ensures |a| <= |b| + |c|
  {
    SubsetSize(a, b + c);
  }

  /** Everyone counted as checked has arrived, is of the identity and is past its check. */
  predicate PastCheck(s: System, rs: set<nat>, u: string) {
    forall i | i in rs :: IsOf(s, i, u) && s.requests[i].phase != Checking
  }

  /** What holds within one absence and the presence after it, with f slips so far: while the mark is
      absent, all but f of those who passed the check are still in flight. */
  ghost predicate Bounded(s: System, rs: set<nat>, u: string, c: nat, f: nat) {
    && PastCheck(s, rs, u)
    && |Pending(s, rs)| <= c + f
    && (!WelcomeMarked(s.db, u) ==> |Pending(s, rs) - InFlight(s, u)| <= f)
  }

  lemma NextMark(s: System, url: string, t: Step, u: string)
    ensures !t.Wait? && !(t.Mark? && Due(s, t.i, Marking) && IsOf(s, t.i, u)) ==>
      (WelcomeMarked(Next(s, url, t).db, u) <==> WelcomeMarked(s.db, u))
    ensures t.Wait? && !WelcomeMarked(s.db, u) ==> !WelcomeMarked(Next(s, url, t).db, u)
    ensures t.Mark? && Due(s, t.i, Marking) && IsOf(s, t.i, u) && Applied(t.fault) ==>
      WelcomeMarked(Next(s, url, t).db, u)
  {
    hide MissingFields, Join, Transform;
    if t.Mark? && Due(s, t.i, Marking) {
      MarkedOthers(s.db, Identity(s.requests[t.i]), u, t.stamp);
    }
  }

  lemma BoundedStep(s: System, url: string, t: Step, rs: set<nat>, u: string, c: nat, f: nat)
    requires Bounded(s, rs, u, c, f)
    requires WelcomeMarked(s.db, u) ==> WelcomeMarked(Next(s, url, t).db, u)
    requires |InFlight(Next(s, url, t), u)| <= c
    ensures Bounded(Next(s, url, t), rs + Checker(s, t, u), u, c, f + if Slips(s, t, u) then 1 else 0)
  {
    hide Next, WelcomeMarked, Slips, Slipper, Checker, InFlight, Pending, PastCheck;
    var n := Next(s, url, t);
    var before, after := Pending(s, rs), Pending(n, rs + Checker(s, t, u));
    PendingStep(s, url, t, rs, u);
    if !WelcomeMarked(n.db, u) {
      UnionSize(after - InFlight(n, u), before - InFlight(s, u), Slipper(s, t, u));
      UnionSize(after, after - InFlight(n, u), InFlight(n, u));
    } else {
      UnionSize(after, before, Slipper(s, t, u));
    }
  }

  /** One request of those that have passed the check: a step lets it move on only as follows. */
  lemma PendingOne(s: System, url: string, t: Step, rs: set<nat>, u: string, i: nat)
    requires PastCheck(s, rs, u) && i in rs + Checker(s, t, u)
    ensures var n := Next(s, url, t);
      && IsOf(n, i, u) && n.requests[i].phase != Checking
      && (MayHavePublished(n.requests[i]) ==>
          || (i in rs && MayHavePublished(s.requests[i]))
          || (n.requests[i].phase == Publishing && i in Checker(s, t, u)
              && (!WelcomeMarked(s.db, u) || i in Slipper(s, t, u))))
      && (n.requests[i].phase == Replied(SUCCESS) ==>
          i in rs && (s.requests[i].phase == Replied(SUCCESS) || WelcomeMarked(n.db, u) || i in Slipper(s, t, u)))
  {
    NextRequests(s, url, t);
    NextMark(s, url, t, u);
    DistinctReplies();
    hide Next, WelcomeMarked;
  }

  /** One step adds at most its own request to those pending after the mark is set, or pending and out of
      flight before it is, and only if it slips. */
  lemma PendingStep(s: System, url: string, t: Step, rs: set<nat>, u: string)
    requires PastCheck(s, rs, u)
    requires WelcomeMarked(s.db, u) ==> WelcomeMarked(Next(s, url, t).db, u)
    ensures var n := Next(s, url, t);
      var rs' := rs + Checker(s, t, u);
      var slip := Slipper(s, t, u);
      && PastCheck(n, rs', u)
      && (WelcomeMarked(n.db, u) ==> Pending(n, rs') <= Pending(s, rs) + slip)
      && (!WelcomeMarked(n.db, u) ==> Pending(n, rs') - InFlight(n, u) <= Pending(s, rs) - InFlight(s, u) + slip)
  {
    hide Next, WelcomeMarked, Slipper, Checker;
    var n := Next(s, url, t);
    var rs' := rs + Checker(s, t, u);
    forall i | i in rs'
      ensures IsOf(n, i, u) && n.requests[i].phase != Checking
      ensures WelcomeMarked(n.db, u) && i in Pending(n, rs') ==> i in Pending(s, rs) + Slipper(s, t, u)
      ensures !WelcomeMarked(n.db, u) && i in Pending(n, rs') - InFlight(n, u) ==>
        i in Pending(s, rs) - InFlight(s, u) + Slipper(s, t, u)
    {
      PendingOne(s, url, t, rs, u, i);
      CheckersMark(s, url, t, u);
    }
  }

  /** Who checks does not set the mark. */
  lemma CheckersMark(s: System, url: string, t: Step, u: string)
    ensures Checker(s, t, u) != {} && WelcomeMarked(Next(s, url, t).db, u) ==> WelcomeMarked(s.db, u)
  {
    NextMark(s, url, t, u);
    hide Next, WelcomeMarked;
  }

  lemma {:induction false} BoundedSegment(s: System, url: string, ts: seq<Step>, u: string, lo: nat, hi: nat, c: nat)
    requires lo <= hi <= |ts|
    requires NoExpiry(s, url, ts, u, lo, hi) && AtMostInFlight(s, url, ts, u, lo, hi, c)
    ensures Bounded(After(s, url, ts, hi), Checked(s, url, ts, u, lo, hi), u, c, SlipsIn(s, url, ts, u, lo, hi))
    decreases hi
  {
    hide Next, Run, Slips, Checker;
    if hi > lo {
      var k := hi - 1;
      BoundedSegment(s, url, ts, u, lo, k, c);
      AfterStep(s, url, ts, k);
      assert WelcomeMarked(After(s, url, ts, k).db, u) ==> WelcomeMarked(After(s, url, ts, k + 1).db, u);
      assert |InFlight(After(s, url, ts, k + 1), u)| <= c;
      BoundedStep(After(s, url, ts, k), url, ts[k], Checked(s, url, ts, u, lo, k), u, c, SlipsIn(s, url, ts, u, lo, k));
    } else {
      assert Pending(After(s, url, ts, hi), {}) == {};
    }
  }

  /** After the segment nobody joins: requests may publish or be refused, but none returns to the check. */
  lemma {:induction false} PendingShrinks(s: System, url: string, ts: seq<Step>, rs: set<nat>, u: string, hi: nat,
                                          k: nat)
    requires hi <= k <= |ts| && PastCheck(After(s, url, ts, hi), rs, u)
    ensures PastCheck(After(s, url, ts, k), rs, u)
    ensures Pending(After(s, url, ts, k), rs) <= Pending(After(s, url, ts, hi), rs)
    decreases k
  {
    hide Next, Run;
    if k > hi {
      var mid := After(s, url, ts, k - 1);
      PendingShrinks(s, url, ts, rs, u, hi, k - 1);
      AfterStep(s, url, ts, k - 1);
      NextRequests(mid, url, ts[k - 1]);
      DistinctReplies();
    }
  }

  /** Welcome duplicates are bounded by concurrency. Take any stretch of any run in which the mark of an
      identity does not lapse and at most c of its requests are in flight at once. Then at most c of the
      requests that check within the stretch ever publish, and one more for each check or mark that
      Redis failed there, however checks, publishes and marks interleave then and later, whatever else
      fails, and however often the mark is refreshed. */
  lemma DuplicatesBounded(s: System, url: string, ts: seq<Step>, u: string, lo: nat, hi: nat, c: nat)
    requires lo <= hi <= |ts|
    requires NoExpiry(s, url, ts, u, lo, hi) && AtMostInFlight(s, url, ts, u, lo, hi, c)
    ensures |Publishers(Run(s, url, ts), Checked(s, url, ts, u, lo, hi))| <= c + SlipsIn(s, url, ts, u, lo, hi)
    ensures NoFaults(s, url, ts, u, lo, hi) ==> SlipsIn(s, url, ts, u, lo, hi) == 0
  {
    hide Next;
    var rs := Checked(s, url, ts, u, lo, hi);
    BoundedSegment(s, url, ts, u, lo, hi, c);
    PendingShrinks(s, url, ts, rs, u, hi, |ts|);
    assert ts[..|ts|] == ts;
    SubsetSize(Publishers(Run(s, url, ts), rs), Pending(After(s, url, ts, hi), rs));
    if NoFaults(s, url, ts, u, lo, hi) {
      SoundNeverSlips(s, url, ts, u, lo, hi);
    }
  }

  lemma {:induction false} SoundNeverSlips(s: System, url: string, ts: seq<Step>, u: string, lo: nat, hi: nat)
    requires lo <= hi <= |ts| && NoFaults(s, url, ts, u, lo, hi)
    ensures SlipsIn(s, url, ts, u, lo, hi) == 0
    decreases hi
  {
    hide Run;
    if hi > lo {
      SoundNeverSlips(s, url, ts, u, lo, hi - 1);
      assert Sound(After(s, url, ts, hi - 1), ts[hi - 1], u);
    }
  }

  // The bound is reached: c overlapping requests can publish c welcomes.

  /** c requests for one identity arrive, then all check, then all publish. */
  function Overlap(p: Payload, c: nat, n: nat): seq<Step>
    requires n <= 3 * c
    decreases n
  {
    if n == 0 then [] else Overlap(p, c, n - 1) + [OverlapStep(p, c, n)]
  }

  function OverlapStep(p: Payload, c: nat, n: nat): Step
    requires 0 < n <= 3 * c
  {
    if n <= c then Arrive(p) else if n <= 2 * c then Check(n - 1 - c, NoFault) else Publish(n - 1 - 2 * c, false)
  }

  /** Where such a run is after n steps. */
  predicate OverlapState(s: System, p: Payload, c: nat, n: nat, url: string, now: int) {
    && s.db == Db(map[], now)
    && |s.requests| == Min(n, c)
    && (forall i | 0 <= i < |s.requests| ::
          s.requests[i] == Request(p, if n > 2 * c + i then Marking else if n > c + i then Publishing else Checking))
    && s.queue == seq(Max(0, n - 2 * c), _ => Sent(Transform(p, url), now))
  }

  lemma {:induction false} OverlapRuns(p: Payload, c: nat, n: nat, url: string, now: int)
    requires n <= 3 * c && MissingFields(p) == []
    ensures OverlapState(Run(Start(now), url, Overlap(p, c, n)), p, c, n, url, now)
    decreases n
  {
    hide MissingFields, Transform, Next, OverlapStep, OverlapState, Start;
    if n > 0 {
      OverlapRuns(p, c, n - 1, url, now);
      OverlapLength(p, c, n - 1);
      assert Overlap(p, c, n)[..n - 1] == Overlap(p, c, n - 1);
      OverlapNext(Run(Start(now), url, Overlap(p, c, n - 1)), p, c, n, url, now);
    } else {
      OverlapStarts(p, c, url, now);
    }
  }

  lemma OverlapStarts(p: Payload, c: nat, url: string, now: int)
    ensures OverlapState(Start(now), p, c, 0, url, now)
  {
  }

  lemma OverlapNext(s: System, p: Payload, c: nat, n: nat, url: string, now: int)
    requires 0 < n <= 3 * c && MissingFields(p) == [] && OverlapState(s, p, c, n - 1, url, now)
    ensures OverlapState(Next(s, url, OverlapStep(p, c, n)), p, c, n, url, now)
  {
    hide MissingFields, Transform, KeyText;
    var t := Next(s, url, OverlapStep(p, c, n));
    if n <= c {
      assert t.requests == s.requests + [Request(p, Checking)];
    } else if n <= 2 * c {
      assert s.requests[n - 1 - c].phase == Checking;
      assert !WelcomeMarked(s.db, p.identityID);
    } else {
      assert s.requests[n - 1 - 2 * c].phase == Publishing;
    }
  }

  lemma {:induction false} OverlapLength(p: Payload, c: nat, n: nat)
    requires n <= 3 * c
    ensures |Overlap(p, c, n)| == n
    decreases n
  {
    if n > 0 {
      OverlapLength(p, c, n - 1);
    }
  }

  lemma {:induction false} OverlapPrefix(p: Payload, c: nat, k: nat, n: nat)
    requires k <= n <= 3 * c
    ensures |Overlap(p, c, n)| == n && Overlap(p, c, n)[..k] == Overlap(p, c, k)
    ensures k < n ==> Overlap(p, c, n)[k] == OverlapStep(p, c, k + 1)
    decreases n
  {
    hide OverlapStep;
    OverlapLength(p, c, n);
    if k < n {
      OverlapPrefix(p, c, k, n - 1);
    }
  }

  function FirstNumbers(n: nat): (r: set<nat>)
    ensures forall i: nat :: i in r <==> i < n
    ensures |r| == n
  {
    if n == 0 then {} else FirstNumbers(n - 1) + {n - 1}
  }

  lemma OverlapAt(p: Payload, c: nat, url: string, now: int, k: nat)
    requires k <= 3 * c && MissingFields(p) == []
    ensures |Overlap(p, c, 3 * c)| == 3 * c
    ensures OverlapState(After(Start(now), url, Overlap(p, c, 3 * c), k), p, c, k, url, now)
    ensures k < 3 * c ==> Overlap(p, c, 3 * c)[k] == OverlapStep(p, c, k + 1)
  {
    hide Run, OverlapState, MissingFields, OverlapStep;
    OverlapPrefix(p, c, k, 3 * c);
    OverlapRuns(p, c, k, url, now);
  }

  /** At every point of such a run the requests in flight are those that have arrived, and nothing is marked. */
  lemma OverlapIsCalm(s: System, p: Payload, c: nat, k: nat, url: string, now: int)
    requires k <= 3 * c && OverlapState(s, p, c, k, url, now)
    ensures |InFlight(s, p.identityID)| <= c && !WelcomeMarked(s.db, p.identityID)
    ensures k < 3 * c ==> Sound(s, OverlapStep(p, c, k + 1), p.identityID)
  {
    hide Transform, KeyText;
    assert InFlight(s, p.identityID) <= FirstNumbers(c);
    SubsetSize(InFlight(s, p.identityID), FirstNumbers(c));
  }

  lemma OverlapChecker(s: System, p: Payload, c: nat, k: nat, url: string, now: int)
    requires 0 < k <= 3 * c && OverlapState(s, p, c, k - 1, url, now)
    ensures Checker(s, OverlapStep(p, c, k), p.identityID) == if c < k <= 2 * c then {k - 1 - c} else {}
  {
    hide Transform;
  }

  /** Those that have checked after k steps: from step c + 1 to step 2 * c one more with each step. */
  function CheckedBy(c: nat, k: nat): nat {
    Min(Max(0, k - c), c)
  }

  lemma CheckedLast(s: System, url: string, ts: seq<Step>, u: string, k: nat)
    requires k <= |ts|
    ensures Checked(s, url, ts, u, 0, k) ==
      if k == 0 then {} else Checked(s, url, ts, u, 0, k - 1) + Checker(After(s, url, ts, k - 1), ts[k - 1], u)
  {
  }

  lemma {:induction false} OverlapChecks(p: Payload, c: nat, url: string, now: int, ts: seq<Step>, k: nat)
    requires k <= 3 * c && MissingFields(p) == [] && ts == Overlap(p, c, 3 * c)
    ensures |ts| == 3 * c && Checked(Start(now), url, ts, p.identityID, 0, k) == FirstNumbers(CheckedBy(c, k))
    decreases k
  {
    hide After, Overlap, Start, MissingFields, Checker, OverlapStep, OverlapState, FirstNumbers, CheckedBy, Checked;
    OverlapAt(p, c, url, now, k);
    CountChecked(c, k);
    CheckedLast(Start(now), url, ts, p.identityID, k);
    if k > 0 {
      OverlapChecks(p, c, url, now, ts, k - 1);
      OverlapAt(p, c, url, now, k - 1);
      OverlapChecker(After(Start(now), url, ts, k - 1), p, c, k, url, now);
    }
  }

  lemma CountChecked(c: nat, k: nat)
    ensures k == 0 ==> FirstNumbers(CheckedBy(c, k)) == {}
    ensures k > 0 ==>
      FirstNumbers(CheckedBy(c, k)) == FirstNumbers(CheckedBy(c, k - 1)) + if c < k <= 2 * c then {k - 1 - c} else {}
  {
    hide FirstNumbers;
    NextNumber(CheckedBy(c, if k > 0 then k - 1 else 0));
    NoNumbers();
  }

  /** The bound is reached: for every c there is a run from the start, without any fault or lapse and with
      at most c requests in flight, in which c of them check and all c publish. */
  lemma DuplicatesHappen(p: Payload, c: nat, url: string, now: int)
    requires MissingFields(p) == []
    ensures var s, ts, u := Start(now), Overlap(p, c, 3 * c), p.identityID;
      && |ts| == 3 * c
      && NoExpiry(s, url, ts, u, 0, 3 * c) && NoFaults(s, url, ts, u, 0, 3 * c)
      && AtMostInFlight(s, url, ts, u, 0, 3 * c, c)
      && |Publishers(Run(s, url, ts), Checked(s, url, ts, u, 0, 3 * c))| == c
      && |Run(s, url, ts).queue| == c && forall k | 0 <= k < c :: IsFor(Run(s, url, ts).queue[k], u)
  {
    hide MissingFields, Run, Sound, WelcomeMarked, InFlight, OverlapStep, OverlapState;
    var s, ts, u := Start(now), Overlap(p, c, 3 * c), p.identityID;
    forall k | 0 <= k <= 3 * c
      ensures |ts| == 3 * c && |InFlight(After(s, url, ts, k), u)| <= c && !WelcomeMarked(After(s, url, ts, k).db, u)
      ensures k < 3 * c ==> Sound(After(s, url, ts, k), ts[k], u)
    {
      OverlapAt(p, c, url, now, k);
      OverlapIsCalm(After(s, url, ts, k), p, c, k, url, now);
    }
    OverlapAt(p, c, url, now, 3 * c);
    assert ts[..3 * c] == ts;
    OverlapChecks(p, c, url, now, ts, 3 * c);
    OverlapPublishes(Run(s, url, ts), p, c, url, now);
  }

  lemma OverlapPublishes(s: System, p: Payload, c: nat, url: string, now: int)
    requires OverlapState(s, p, c, 3 * c, url, now)
    ensures |Publishers(s, FirstNumbers(c))| == c
    ensures |s.queue| == c && forall k | 0 <= k < c :: IsFor(s.queue[k], p.identityID)
  {
    assert Publishers(s, FirstNumbers(c)) == FirstNumbers(c);
  }

  // When the welcome is sent at most once.

  /** In every stretch of every run without faults or lapses of the mark and with at most c requests of
      the identity in flight, at most m of the requests that check there ever publish. */
  ghost predicate PublishAtMost(url: string, u: string, c: nat, m: nat) {
    forall now: int, ts: seq<Step>, lo: nat, hi: nat |
      && lo <= hi <= |ts|
      && NoExpiry(Start(now), url, ts, u, lo, hi) && NoFaults(Start(now), url, ts, u, lo, hi)
      && AtMostInFlight(Start(now), url, ts, u, lo, hi, c) ::
      |Publishers(Run(Start(now), url, ts), Checked(Start(now), url, ts, u, lo, hi))| <= m
  }

  /** A blank identity is refused on arrival. */
  lemma {:induction false} BlankNeverChecks(now: int, url: string, ts: seq<Step>, u: string, k: nat)
    requires k <= |ts| && TrimSpace(u) == ""
    ensures forall i | 0 <= i < |After(Start(now), url, ts, k).requests| && IsOf(After(Start(now), url, ts, k), i, u) ::
      After(Start(now), url, ts, k).requests[i].phase.Replied?
    decreases k
  {
    hide Next, TrimSpace;
    if k > 0 {
      AfterStep(Start(now), url, ts, k - 1);
      BlankNeverChecks(now, url, ts, u, k - 1);
      BlankStaysRefused(After(Start(now), url, ts, k - 1), url, ts[k - 1], u);
    }
  }

  lemma BlankStaysRefused(s: System, url: string, t: Step, u: string)
    requires TrimSpace(u) == "" && forall i | 0 <= i < |s.requests| && IsOf(s, i, u) :: s.requests[i].phase.Replied?
    ensures forall i | 0 <= i < |Next(s, url, t).requests| && IsOf(Next(s, url, t), i, u) ::
      Next(s, url, t).requests[i].phase.Replied?
  {
    hide TrimSpace, Join, Transform, Marked;
  }

  lemma {:induction false} BlankChecksNothing(now: int, url: string, ts: seq<Step>, u: string, lo: nat, hi: nat)
    requires lo <= hi <= |ts| && TrimSpace(u) == ""
    ensures Checked(Start(now), url, ts, u, lo, hi) == {}
    decreases hi
  {
    hide Run, TrimSpace;
    if lo < hi {
      BlankChecksNothing(now, url, ts, u, lo, hi - 1);
      BlankNeverChecks(now, url, ts, u, hi - 1);
    }
  }

  /** How often a welcome can be sent is exactly how many of its requests can overlap, for an identity
      that passes validation. */
  lemma OverlapDecides(url: string, u: string, c: nat, m: nat)
    ensures PublishAtMost(url, u, c, m) <==> c <= m || TrimSpace(u) == ""
  {
    hide Run, TrimSpace, NoFaults, NoExpiry, AtMostInFlight, Publishers, Checked;
    if PublishAtMost(url, u, c, m) && TrimSpace(u) != "" {
      var p := Payload(u, "a", "a", "a");
      NothingMissing(p);
      DuplicatesHappen(p, c, url, 0);
    }
    if c <= m || TrimSpace(u) == "" {
      forall now: int, ts: seq<Step>, lo: nat, hi: nat |
        && lo <= hi <= |ts|
        && NoExpiry(Start(now), url, ts, u, lo, hi) && NoFaults(Start(now), url, ts, u, lo, hi)
        && AtMostInFlight(Start(now), url, ts, u, lo, hi, c)
        ensures |Publishers(Run(Start(now), url, ts), Checked(Start(now), url, ts, u, lo, hi))| <= m
      {
        DuplicatesBounded(Start(now), url, ts, u, lo, hi, c);
        if TrimSpace(u) == "" {
          BlankChecksNothing(now, url, ts, u, lo, hi);
          NobodyPublishes(Run(Start(now), url, ts));
        }
      }
    }
  }

  lemma NobodyPublishes(s: System)
    ensures Publishers(s, {}) == {}
  {
  }

  lemma NothingMissing(p: Payload)
    requires TrimSpace(p.identityID) != "" && p.email == p.displayName == p.firstName == "a"
    ensures MissingFields(p) == []
  {
    hide Trim;
    TrimIsProjection("a", SPACE);
    assert Trimmed("a", SPACE);
  }

  /** Strict at-most-once, which the check, publish, mark order is meant to give, holds exactly when no two
      requests of the identity overlap: two at once are enough to send two welcomes. */
  lemma AtMostOnceIff(url: string, u: string, c: nat)
    requires TrimSpace(u) != ""
    ensures PublishAtMost(url, u, c, 1) <==> c <= 1
  {
    hide PublishAtMost;
    OverlapDecides(url, u, c, 1);
  }

  // The slips count in full: with c requests in flight and f slips, c + f requests can publish.

  /** One step more leaves what the earlier ones did. */
  lemma {:induction false} SlipsOfPrefix(s: System, url: string, ts: seq<Step>, t: Step, u: string, hi: nat)
    requires hi <= |ts|
    ensures SlipsIn(s, url, ts + [t], u, 0, hi) == SlipsIn(s, url, ts, u, 0, hi)
    decreases hi
  {
    hide Slips, Run;
    if hi > 0 {
      SlipsOfPrefix(s, url, ts, t, u, hi - 1);
      assert (ts + [t])[..hi - 1] == ts[..hi - 1];
    }
  }

  lemma {:induction false} CheckedOfPrefix(s: System, url: string, ts: seq<Step>, t: Step, u: string, hi: nat)
    requires hi <= |ts|
    ensures Checked(s, url, ts + [t], u, 0, hi) == Checked(s, url, ts, u, 0, hi)
    decreases hi
  {
    hide Checker, Run;
    if hi > 0 {
      CheckedOfPrefix(s, url, ts, t, u, hi - 1);
      assert (ts + [t])[..hi - 1] == ts[..hi - 1];
    }
  }

  /** A run with at most c requests in flight, nothing ever marked, f slips, and m requests that checked. */
  ghost predicate Tracks(s: System, url: string, ts: seq<Step>, u: string, c: nat, f: nat, m: nat) {
    && NoExpiry(s, url, ts, u, 0, |ts|) && AtMostInFlight(s, url, ts, u, 0, |ts|, c)
    && SlipsIn(s, url, ts, u, 0, |ts|) == f && Checked(s, url, ts, u, 0, |ts|) == FirstNumbers(m)
  }

  predicate Calm(s: System, u: string, c: nat) {
    !WelcomeMarked(s.db, u) && |InFlight(s, u)| <= c
  }

  lemma TracksOn(s: System, url: string, ts: seq<Step>, t: Step, u: string, c: nat, f: nat, m: nat, l: nat)
    requires Tracks(s, url, ts, u, c, f, m)
    requires Calm(Run(s, url, ts), u, c) && Calm(Next(Run(s, url, ts), url, t), u, c)
    requires FirstNumbers(l) == FirstNumbers(m) + Checker(Run(s, url, ts), t, u)
    ensures Run(s, url, ts + [t]) == Next(Run(s, url, ts), url, t)
    ensures Tracks(s, url, ts + [t], u, c, f + if Slips(Run(s, url, ts), t, u) then 1 else 0, l)
  {
    hide Next, WelcomeMarked, InFlight, FirstNumbers, Checker, Slips;
    var n := |ts|;
    var on := ts + [t];
    assert on[..n] == ts && ts[..n] == ts && on[..n + 1] == on;
    SlipsOfPrefix(s, url, ts, t, u, n);
    CheckedOfPrefix(s, url, ts, t, u, n);
    forall k | 0 <= k <= n
      ensures After(s, url, on, k) == After(s, url, ts, k)
    {
      assert on[..k] == ts[..k];
    }
    forall k | 0 <= k < n + 1
      ensures WelcomeMarked(After(s, url, on, k).db, u) ==> WelcomeMarked(After(s, url, on, k + 1).db, u)
    {
      if k < n {
        assert WelcomeMarked(After(s, url, ts, k).db, u) ==> WelcomeMarked(After(s, url, ts, k + 1).db, u);
      }
    }
    forall k | 0 <= k <= n + 1
      ensures |InFlight(After(s, url, on, k), u)| <= c
    {
      if k <= n {
        assert |InFlight(After(s, url, ts, k), u)| <= c;
      }
    }
  }

  /** The oldest request fails to set the mark and is answered, and one more arrives, checks and publishes. */
  function SlipRound(ts: seq<Step>, p: Payload, c: nat, j: nat): seq<Step> {
    ts + [Mark(j, "", Failed(false, ""))] + [Arrive(p)] + [Check(c + j, NoFault)] + [Publish(c + j, false)]
  }

  /** c requests that overlap, and then f slips. */
  function WithSlips(p: Payload, c: nat, f: nat): seq<Step> {
    if f == 0 then Overlap(p, c, 3 * c) else SlipRound(WithSlips(p, c, f - 1), p, c, f - 1)
  }

  /** The first j requests answered, the next k about to mark, and one more in the given phase, if any. */
  predicate SlipState(s: System, p: Payload, j: nat, k: nat, last: Option<Phase>, queued: nat, url: string, now: int) {
    && s.db == Db(map[], now)
    && |s.requests| == j + k + (if last.Some? then 1 else 0)
    && (forall i | 0 <= i < j + k :: s.requests[i] == Request(p, if i < j then Replied(SUCCESS) else Marking))
    && (last.Some? ==> s.requests[j + k] == Request(p, last.value))
    && s.queue == seq(queued, _ => Sent(Transform(p, url), now))
  }

  lemma SlipStateIsCalm(s: System, p: Payload, j: nat, k: nat, last: Option<Phase>, queued: nat, url: string,
                        now: int, c: nat)
    requires SlipState(s, p, j, k, last, queued, url, now) && k + (if last.Some? then 1 else 0) <= c
    ensures Calm(s, p.identityID, c)
  {
    hide Transform, KeyText;
    var all, done := FirstNumbers(|s.requests|), FirstNumbers(j);
    assert done <= all && |all - done| == |all| - |done|;
    assert InFlight(s, p.identityID) <= all - done;
    SubsetSize(InFlight(s, p.identityID), all - done);
  }

  lemma SlipMark(s: System, p: Payload, j: nat, k: nat, url: string, now: int)
    requires SlipState(s, p, j, k + 1, None, j + k + 1, url, now)
    ensures var t := Mark(j, "", Failed(false, ""));
      && SlipState(Next(s, url, t), p, j + 1, k, None, j + k + 1, url, now)
      && Checker(s, t, p.identityID) == {} && Slips(s, t, p.identityID)
  {
    hide Transform, Marked;
    assert Due(s, j, Marking);
  }

  lemma SlipArrive(s: System, p: Payload, j: nat, k: nat, url: string, now: int)
    requires SlipState(s, p, j, k, None, j + k, url, now) && MissingFields(p) == []
    ensures SlipState(Next(s, url, Arrive(p)), p, j, k, Some(Checking), j + k, url, now)
    ensures Checker(s, Arrive(p), p.identityID) == {} && !Slips(s, Arrive(p), p.identityID)
  {
    hide Transform, MissingFields, Join;
  }

  lemma SlipCheck(s: System, p: Payload, j: nat, k: nat, url: string, now: int)
    requires SlipState(s, p, j, k, Some(Checking), j + k, url, now)
    ensures var t := Check(j + k, NoFault);
      && SlipState(Next(s, url, t), p, j, k, Some(Publishing), j + k, url, now)
      && Checker(s, t, p.identityID) == {j + k} && !Slips(s, t, p.identityID)
  {
    hide Transform, KeyText;
    assert Due(s, j + k, Checking) && !WelcomeMarked(s.db, p.identityID);
  }

  lemma SlipPublish(s: System, p: Payload, j: nat, k: nat, url: string, now: int)
    requires SlipState(s, p, j, k, Some(Publishing), j + k, url, now)
    ensures var t := Publish(j + k, false);
      && SlipState(Next(s, url, t), p, j, k + 1, None, j + k + 1, url, now)
      && Checker(s, t, p.identityID) == {} && !Slips(s, t, p.identityID)
  {
    hide Transform;
    assert Due(s, j + k, Publishing);
  }

  lemma {:induction false} SlipsTrack(p: Payload, c: nat, f: nat, url: string, now: int)
    requires MissingFields(p) == [] && c > 0
    ensures SlipState(Run(Start(now), url, WithSlips(p, c, f)), p, f, c, None, c + f, url, now)
    ensures Tracks(Start(now), url, WithSlips(p, c, f), p.identityID, c, f, c + f)
    decreases f
  {
    hide Run, Start, Next, Tracks, SlipState, MissingFields, InFlight, WelcomeMarked, Slips, Checker, FirstNumbers,
        Overlap;
    if f == 0 {
      OverlapTracks(p, c, url, now);
    } else {
      SlipsTrack(p, c, f - 1, url, now);
      SlipRoundTracks(p, c, f - 1, url, now, WithSlips(p, c, f - 1));
    }
  }

  lemma SlipRoundTracks(p: Payload, c: nat, j: nat, url: string, now: int, ts: seq<Step>)
    requires MissingFields(p) == [] && c > 0
    requires SlipState(Run(Start(now), url, ts), p, j, c, None, c + j, url, now)
    requires Tracks(Start(now), url, ts, p.identityID, c, j, c + j)
    ensures var on := SlipRound(ts, p, c, j);
      && SlipState(Run(Start(now), url, on), p, j + 1, c, None, c + j + 1, url, now)
      && Tracks(Start(now), url, on, p.identityID, c, j + 1, c + j + 1)
  {
    hide Run, Start, Tracks, SlipState, MissingFields;
    var ts2 := ts + [Mark(j, "", Failed(false, ""))] + [Arrive(p)];
    MarkAndArrive(p, c, j, url, now, ts);
    CheckAndPublish(p, c, j, url, now, ts2);
  }

  lemma MarkAndArrive(p: Payload, c: nat, j: nat, url: string, now: int, ts: seq<Step>)
    requires MissingFields(p) == [] && c > 0
    requires SlipState(Run(Start(now), url, ts), p, j, c, None, c + j, url, now)
    requires Tracks(Start(now), url, ts, p.identityID, c, j, c + j)
    ensures var on := ts + [Mark(j, "", Failed(false, ""))] + [Arrive(p)];
      && SlipState(Run(Start(now), url, on), p, j + 1, c - 1, Some(Checking), c + j, url, now)
      && Tracks(Start(now), url, on, p.identityID, c, j + 1, c + j)
  {
    hide Run, Start, Next, Tracks, SlipState, MissingFields, Calm, Slips, Checker, FirstNumbers;
    var s0, u, t := Start(now), p.identityID, Mark(j, "", Failed(false, ""));
    var s := Run(s0, url, ts);
    var s1 := Next(s, url, t);
    SlipStateIsCalm(s, p, j, c, None, c + j, url, now, c);
    SlipMark(s, p, j, c - 1, url, now);
    SlipStateIsCalm(s1, p, j + 1, c - 1, None, c + j, url, now, c);
    TracksOn(s0, url, ts, t, u, c, j, c + j, c + j);
    SlipArrive(s1, p, j + 1, c - 1, url, now);
    SlipStateIsCalm(Next(s1, url, Arrive(p)), p, j + 1, c - 1, Some(Checking), c + j, url, now, c);
    TracksOn(s0, url, ts + [t], Arrive(p), u, c, j + 1, c + j, c + j);
  }

  lemma CheckAndPublish(p: Payload, c: nat, j: nat, url: string, now: int, ts: seq<Step>)
    requires c > 0
    requires SlipState(Run(Start(now), url, ts), p, j + 1, c - 1, Some(Checking), c + j, url, now)
    requires Tracks(Start(now), url, ts, p.identityID, c, j + 1, c + j)
    ensures var on := ts + [Check(c + j, NoFault)] + [Publish(c + j, false)];
      && SlipState(Run(Start(now), url, on), p, j + 1, c, None, c + j + 1, url, now)
      && Tracks(Start(now), url, on, p.identityID, c, j + 1, c + j + 1)
  {
    hide Run, Start, Next, Tracks, SlipState, Calm, Slips, Checker, FirstNumbers;
    var s0, u, t, t' := Start(now), p.identityID, Check(c + j, NoFault), Publish(c + j, false);
    var s := Run(s0, url, ts);
    var s1 := Next(s, url, t);
    SlipStateIsCalm(s, p, j + 1, c - 1, Some(Checking), c + j, url, now, c);
    SlipCheck(s, p, j + 1, c - 1, url, now);
    SlipStateIsCalm(s1, p, j + 1, c - 1, Some(Publishing), c + j, url, now, c);
    NextNumber(c + j);
    TracksOn(s0, url, ts, t, u, c, j + 1, c + j, c + j + 1);
    SlipPublish(s1, p, j + 1, c - 1, url, now);
    SlipStateIsCalm(Next(s1, url, t'), p, j + 1, c, None, c + j + 1, url, now, c);
    TracksOn(s0, url, ts + [t], t', u, c, j + 1, c + j + 1, c + j + 1);
  }

  lemma NoNumbers()
    ensures FirstNumbers(0) == {}
  {
  }

  lemma NextNumber(n: nat)
    ensures FirstNumbers(n + 1) == FirstNumbers(n) + {n}
  {
  }

  lemma OverlapTracks(p: Payload, c: nat, url: string, now: int)
    requires MissingFields(p) == []
    ensures SlipState(Run(Start(now), url, Overlap(p, c, 3 * c)), p, 0, c, None, c, url, now)
    ensures Tracks(Start(now), url, Overlap(p, c, 3 * c), p.identityID, c, 0, c)
  {
    hide Run, Start, MissingFields, Overlap, FirstNumbers, NoExpiry, NoFaults, AtMostInFlight, Publishers;
    var ts := Overlap(p, c, 3 * c);
    DuplicatesHappen(p, c, url, now);
    OverlapChecks(p, c, url, now, ts, 3 * c);
    SoundNeverSlips(Start(now), url, ts, p.identityID, 0, 3 * c);
    OverlapRuns(p, c, 3 * c, url, now);
  }

  /** The bound with slips is reached, too: for every c > 0 and f there is a run from the start, without lapses,
      with at most c requests in flight and f slips, in which c + f requests check and publish. */
  lemma SlipsHappen(p: Payload, c: nat, f: nat, url: string, now: int)
    requires MissingFields(p) == [] && c > 0
    ensures var s, ts, u := Start(now), WithSlips(p, c, f), p.identityID;
      && Tracks(s, url, ts, u, c, f, c + f)
      && |Publishers(Run(s, url, ts), Checked(s, url, ts, u, 0, |ts|))| == c + f
      && |Run(s, url, ts).queue| == c + f
      && forall k | 0 <= k < c + f :: IsFor(Run(s, url, ts).queue[k], u) && Run(s, url, ts).queue[k].at == now
  {
    hide Run, Start, MissingFields, WithSlips;
    SlipsTrack(p, c, f, url, now);
    AllPublished(Run(Start(now), url, WithSlips(p, c, f)), p, c, f, url, now);
  }

  lemma AllPublished(s: System, p: Payload, c: nat, f: nat, url: string, now: int)
    requires SlipState(s, p, f, c, None, c + f, url, now)
    ensures |Publishers(s, FirstNumbers(c + f))| == c + f && |s.queue| == c + f
    ensures forall k | 0 <= k < c + f :: IsFor(s.queue[k], p.identityID) && s.queue[k].at == now
  {
    assert Publishers(s, FirstNumbers(c + f)) == FirstNumbers(c + f);
  }

  /** In every stretch of every run without lapses of the mark, with at most c requests of the identity in
      flight and at most f slips, at most m of the requests that check there ever publish. */
  ghost predicate PublishAtMostDespite(url: string, u: string, c: nat, f: nat, m: nat) {
    forall now: int, ts: seq<Step>, lo: nat, hi: nat |
      && lo <= hi <= |ts|
      && NoExpiry(Start(now), url, ts, u, lo, hi) && AtMostInFlight(Start(now), url, ts, u, lo, hi, c)
      && SlipsIn(Start(now), url, ts, u, lo, hi) <= f ::
      |Publishers(Run(Start(now), url, ts), Checked(Start(now), url, ts, u, lo, hi))| <= m
  }

  lemma CheckersFly(s: System, t: Step, u: string)
    ensures Checker(s, t, u) <= InFlight(s, u)
  {
  }

  /** Only a request in flight can check. */
  lemma {:induction false} NobodyThere(s: System, url: string, ts: seq<Step>, u: string, lo: nat, hi: nat)
    requires lo <= hi <= |ts| && AtMostInFlight(s, url, ts, u, lo, hi, 0)
    ensures Checked(s, url, ts, u, lo, hi) == {}
    decreases hi
  {
    hide Run, Checker, InFlight;
    if lo < hi {
      NobodyThere(s, url, ts, u, lo, hi - 1);
      CheckersFly(After(s, url, ts, hi - 1), ts[hi - 1], u);
      assert |InFlight(After(s, url, ts, hi - 1), u)| == 0;
    }
  }

  /** How often a welcome can be sent is exactly overlap plus slips, for an identity that passes validation. */
  lemma SlipsDecide(url: string, u: string, c: nat, f: nat, m: nat)
    ensures PublishAtMostDespite(url, u, c, f, m) <==> c == 0 || c + f <= m || TrimSpace(u) == ""
  {
    hide Run, TrimSpace, SlipsIn, NoExpiry, AtMostInFlight, Publishers, Checked;
    if PublishAtMostDespite(url, u, c, f, m) && c > 0 && TrimSpace(u) != "" {
      var p := Payload(u, "a", "a", "a");
      NothingMissing(p);
      SlipsHappen(p, c, f, url, 0);
    }
    if c == 0 || c + f <= m || TrimSpace(u) == "" {
      forall now: int, ts: seq<Step>, lo: nat, hi: nat |
        && lo <= hi <= |ts|
        && NoExpiry(Start(now), url, ts, u, lo, hi) && AtMostInFlight(Start(now), url, ts, u, lo, hi, c)
        && SlipsIn(Start(now), url, ts, u, lo, hi) <= f
        ensures |Publishers(Run(Start(now), url, ts), Checked(Start(now), url, ts, u, lo, hi))| <= m
      {
        DuplicatesBounded(Start(now), url, ts, u, lo, hi, c);
        NobodyPublishes(Run(Start(now), url, ts));
        if c == 0 {
          NobodyThere(Start(now), url, ts, u, lo, hi);
        } else if TrimSpace(u) == "" {
          BlankChecksNothing(now, url, ts, u, lo, hi);
        }
      }
    }
  }

  // Serial requests.

  predicate IsMarking(s: System, u: string) {
    exists i :: 0 <= i < |s.requests| && s.requests[i].phase == Marking && Identity(s.requests[i]) == u
  }

  /** While a published welcome is less than its lifetime old, a mark or a request about to set it guards it. */
  predicate Guarded(s: System, u: string, q: Sent) {
    || IsMarking(s, u)
    || q.at + WELCOME_SENT_TTL <= s.db.now
    || (WelcomeMarked(s.db, u) && q.at <= MarkTime(s.db, u) && s.db.keys[KeyText(WelcomeKey(u))].expiry.At?)
  }

  predicate Stale(s: System, q: Sent) {
    q.at + WELCOME_SENT_TTL <= s.db.now
  }

  ghost predicate Spaced(s: System, u: string) {
    && (forall j, k | 0 <= j < k < |s.queue| && IsFor(s.queue[j], u) && IsFor(s.queue[k], u) ::
          s.queue[j].at + WELCOME_SENT_TTL <= s.queue[k].at)
    && (forall k | 0 <= k < |s.queue| && IsFor(s.queue[k], u) :: s.queue[k].at <= s.db.now && Guarded(s, u, s.queue[k]))
    && (forall i, k | 0 <= i < |s.requests| && s.requests[i].phase == Publishing && Identity(s.requests[i]) == u
                      && 0 <= k < |s.queue| && IsFor(s.queue[k], u) :: Stale(s, s.queue[k]))
  }

  lemma InFlightAlone(s: System, u: string, i: nat, j: nat)
    requires |InFlight(s, u)| <= 1 && i in InFlight(s, u) && j in InFlight(s, u)
    ensures i == j
  {
    if i != j {
      SubsetSize({i, j}, InFlight(s, u));
    }
  }

  /** The guard of a published welcome outlives every step. */
  lemma GuardStays(s: System, url: string, t: Step, u: string, q: Sent)
    requires !Slips(s, t, u) && Guarded(s, u, q) && q.at <= s.db.now
    ensures Guarded(Next(s, url, t), u, q)
  {
    var n := Next(s, url, t);
    NextRequests(s, url, t);
    NextClock(s, url, t);
    MarkAfter(s, url, t, u);
    if IsMarking(s, u) {
      var i :| 0 <= i < |s.requests| && s.requests[i].phase == Marking && Identity(s.requests[i]) == u;
      hide Next, WelcomeMarked, MarkTime;
      if !(t.Mark? && t.i == i) {
        assert n.requests[i] == s.requests[i];
      }
    }
  }

  /** What a step does to the mark of an identity. */
  lemma MarkAfter(s: System, url: string, t: Step, u: string)
    requires !Slips(s, t, u)
    ensures var n := Next(s, url, t);
      && (t.Mark? && Due(s, t.i, Marking) && IsOf(s, t.i, u) ==>
          WelcomeMarked(n.db, u) && MarkTime(n.db, u) == s.db.now && n.db.keys[KeyText(WelcomeKey(u))].expiry.At?)
      && (WelcomeMarked(s.db, u) && s.db.keys[KeyText(WelcomeKey(u))].expiry.At? ==>
          || (WelcomeMarked(n.db, u) && MarkTime(n.db, u) >= MarkTime(s.db, u)
              && n.db.keys[KeyText(WelcomeKey(u))].expiry.At?)
          || MarkTime(s.db, u) + WELCOME_SENT_TTL <= n.db.now
          || (t.Mark? && Due(s, t.i, Marking) && IsOf(s, t.i, u)))
  {
    hide MissingFields, Join, Transform;
    if t.Mark? && Due(s, t.i, Marking) {
      KeyTextInjective(WelcomeKey(Identity(s.requests[t.i])), WelcomeKey(u));
    }
  }

  lemma SpacedStep(s: System, url: string, t: Step, u: string)
    requires Spaced(s, u) && !Slips(s, t, u) && |InFlight(s, u)| <= 1
    ensures Spaced(Next(s, url, t), u)
  {
    hide Next, Guarded, Stale, IsFor;
    var n := Next(s, url, t);
    PairsStaySpaced(s, url, t, u);
    forall k | 0 <= k < |n.queue| && IsFor(n.queue[k], u)
      ensures n.queue[k].at <= n.db.now && Guarded(n, u, n.queue[k])
    {
      EventsStayGuarded(s, url, t, u, k);
    }
    forall i, k | 0 <= i < |n.requests| && n.requests[i].phase == Publishing && Identity(n.requests[i]) == u
                  && 0 <= k < |n.queue| && IsFor(n.queue[k], u)
      ensures Stale(n, n.queue[k])
    {
      PublisherSeesStale(s, url, t, u, i, k);
    }
  }

  lemma PairsStaySpaced(s: System, url: string, t: Step, u: string)
    requires Spaced(s, u)
    ensures var n := Next(s, url, t);
      forall j, k | 0 <= j < k < |n.queue| && IsFor(n.queue[j], u) && IsFor(n.queue[k], u) ::
        n.queue[j].at + WELCOME_SENT_TTL <= n.queue[k].at
  {
    NextQueue(s, url, t, u);
    hide Next, IsFor, Guarded;
    var n := Next(s, url, t);
    forall j, k | 0 <= j < k < |n.queue| && IsFor(n.queue[j], u) && IsFor(n.queue[k], u)
      ensures n.queue[j].at + WELCOME_SENT_TTL <= n.queue[k].at
    {
      if k == |s.queue| {
        assert Stale(s, s.queue[j]);
      }
    }
  }

  lemma EventsStayGuarded(s: System, url: string, t: Step, u: string, k: nat)
    requires Spaced(s, u) && !Slips(s, t, u)
    requires var n := Next(s, url, t); k < |n.queue| && IsFor(n.queue[k], u)
    ensures var n := Next(s, url, t); n.queue[k].at <= n.db.now && Guarded(n, u, n.queue[k])
  {
    NextRequests(s, url, t);
    NextClock(s, url, t);
    NextQueue(s, url, t, u);
    hide Next, WelcomeMarked, MarkTime;
    var n := Next(s, url, t);
    if k < |s.queue| {
      GuardStays(s, url, t, u, s.queue[k]);
    } else {
      assert n.requests[t.i].phase == Marking && Identity(n.requests[t.i]) == u;
      assert IsMarking(n, u);
    }
  }

  lemma PublisherSeesStale(s: System, url: string, t: Step, u: string, i: nat, k: nat)
    requires Spaced(s, u) && !Slips(s, t, u) && |InFlight(s, u)| <= 1
    requires var n := Next(s, url, t);
      && i < |n.requests| && n.requests[i].phase == Publishing && Identity(n.requests[i]) == u
      && k < |n.queue| && IsFor(n.queue[k], u)
    ensures Stale(Next(s, url, t), Next(s, url, t).queue[k])
  {
    var n := Next(s, url, t);
    NextRequests(s, url, t);
    NextClock(s, url, t);
    NextQueue(s, url, t, u);
    ArrivalsCheck(s, url, t);
    hide Next, WelcomeMarked, MarkTime;
    assert i in InFlight(s, u);
    if k == |s.queue| {
      InFlightAlone(s, u, i, t.i);
    } else if s.requests[i].phase == Publishing {
      assert Stale(s, s.queue[k]);
    } else {
      assert t.Check? && t.i == i && s.requests[i].phase == Checking && !WelcomeMarked(s.db, u);
      assert Guarded(s, u, s.queue[k]);
      if IsMarking(s, u) {
        var j :| 0 <= j < |s.requests| && s.requests[j].phase == Marking && Identity(s.requests[j]) == u;
        InFlightAlone(s, u, i, j);
      }
    }
  }

  /** If the requests for one identity never overlap and Redis does its part for it, its successive welcomes
      are at least 7776000 seconds apart: 90 days, the lifetime of the mark. */
  lemma {:induction false} SerialAtMostOnce(now: int, url: string, ts: seq<Step>, u: string)
    requires SlipsIn(Start(now), url, ts, u, 0, |ts|) == 0 && AtMostInFlight(Start(now), url, ts, u, 0, |ts|, 1)
    ensures Spaced(Run(Start(now), url, ts), u)
    ensures DaysApart(Run(Start(now), url, ts).queue, u)
    decreases |ts|
  {
    hide Next, Slips, InFlight;
    if ts != [] {
      var s0, n := Start(now), |ts| - 1;
      var pre := ts[..n];
      assert ts == pre + [ts[n]];
      SlipsOfPrefix(s0, url, pre, ts[n], u, n);
      assert forall k | 0 <= k <= n :: pre[..k] == ts[..k];
      assert forall k | 0 <= k <= n :: After(s0, url, pre, k) == After(s0, url, ts, k);
      SerialAtMostOnce(now, url, pre, u);
      assert |InFlight(After(s0, url, ts, n), u)| <= 1;
      SpacedStep(Run(s0, url, pre), url, ts[n], u);
    }
  }

  predicate DaysApart(q: seq<Sent>, u: string) {
    forall j, k | 0 <= j < k < |q| && IsFor(q[j], u) && IsFor(q[k], u) :: q[k].at - q[j].at >= 7776000
  }

  /** In every run from the start in which requests of the identity never overlap, with at most f slips. */
  ghost predicate SerialApart(url: string, u: string, f: nat) {
    forall now: int, ts: seq<Step> |
      SlipsIn(Start(now), url, ts, u, 0, |ts|) <= f && AtMostInFlight(Start(now), url, ts, u, 0, |ts|, 1) ::
      DaysApart(Run(Start(now), url, ts).queue, u)
  }

  /** A single slip is enough to send two welcomes at once, even without overlap. */
  lemma SerialIff(url: string, u: string, f: nat)
    requires TrimSpace(u) != ""
    ensures SerialApart(url, u, f) <==> f == 0
  {
    hide Run, TrimSpace, AtMostInFlight, SlipsIn, DaysApart;
    if f == 0 {
      forall now: int, ts: seq<Step> |
        SlipsIn(Start(now), url, ts, u, 0, |ts|) <= f && AtMostInFlight(Start(now), url, ts, u, 0, |ts|, 1)
        ensures DaysApart(Run(Start(now), url, ts).queue, u)
      {
        SerialAtMostOnce(now, url, ts, u);
      }
    } else {
      var p := Payload(u, "a", "a", "a");
      NothingMissing(p);
      SlipsHappen(p, 1, 1, url, 0);
      TwoAtOnce(Run(Start(0), url, WithSlips(p, 1, 1)).queue, u);
    }
  }

  lemma TwoAtOnce(q: seq<Sent>, u: string)
    requires |q| == 2 && IsFor(q[0], u) && IsFor(q[1], u) && q[0].at == q[1].at
    ensures !DaysApart(q, u)
  {
    hide IsFor;
  }

  // Accounting.

  /** The identity asked about, or everyone. */
  predicate Concerns(who: Option<string>, u: string) {
    who.None? || who.value == u
  }

  function Published(queue: seq<Sent>, who: Option<string>): nat {
    if queue == [] then 0
    else Published(queue[..|queue| - 1], who) + if Concerns(who, queue[|queue| - 1].event.user.id) then 1 else 0
  }

  function PublishedRequests(rs: seq<Request>, who: Option<string>): nat {
    if rs == [] then 0
    else
      var r := rs[|rs| - 1];
      PublishedRequests(rs[..|rs| - 1], who) + if Concerns(who, Identity(r)) && HasPublished(r) then 1 else 0
  }

  lemma {:induction false} CountUpdate(rs: seq<Request>, i: nat, r: Request, who: Option<string>)
    requires i < |rs| && r.payload == rs[i].payload
    ensures PublishedRequests(rs[i := r], who) - PublishedRequests(rs, who) ==
      if !Concerns(who, Identity(r)) || HasPublished(r) == HasPublished(rs[i]) then 0
      else if HasPublished(r) then 1 else -1
    decreases |rs|
  {
    hide Concerns;
    var n := |rs| - 1;
    if i < n {
      assert rs[i := r][..n] == rs[..n][i := r];
      CountUpdate(rs[..n], i, r, who);
    } else {
      assert rs[i := r][..n] == rs[..n];
    }
  }

  /** In every run, with whatever faults, the queue holds exactly one event for each success reply and
      for each request between its publish and its reply, for each identity and in total. */
  lemma {:induction false} EveryEventAccountedFor(now: int, url: string, ts: seq<Step>, who: Option<string>)
    ensures var s := Run(Start(now), url, ts); Published(s.queue, who) == PublishedRequests(s.requests, who)
    decreases |ts|
  {
    hide Next;
    if ts != [] {
      var pre := ts[..|ts| - 1];
      EveryEventAccountedFor(now, url, pre, who);
      AccountStep(Run(Start(now), url, pre), url, ts[|ts| - 1], who);
    }
  }

  lemma AccountStep(s: System, url: string, t: Step, who: Option<string>)
    ensures var n := Next(s, url, t);
      Published(n.queue, who) - Published(s.queue, who) ==
          PublishedRequests(n.requests, who) - PublishedRequests(s.requests, who)
  {
    NextRequests(s, url, t);
    ArrivalsCheck(s, url, t);
    DistinctReplies();
    hide Next, Concerns, HasPublished;
    var n := Next(s, url, t);
    QueueStep(s, url, t, who);
    if t.Arrive? {
      assert n.requests[..|s.requests|] == s.requests;
      ArrivalsUnpublished(n.requests[|s.requests|]);
    } else if t.Wait? || t.i >= |s.requests| {
      assert n.requests == s.requests;
    } else {
      assert n.requests == s.requests[t.i := n.requests[t.i]];
      CountUpdate(s.requests, t.i, n.requests[t.i], who);
      PublishedPhases(s, url, t);
    }
  }

  lemma ArrivalsUnpublished(r: Request)
    requires r.phase !in {Publishing, Marking, Replied(SUCCESS), Replied(ALREADY_SENT)}
    ensures !HasPublished(r)
  {
  }

  /** Only its own successful publish turns a request into one that has published. */
  lemma PublishedPhases(s: System, url: string, t: Step)
    requires !t.Arrive? && !t.Wait? && t.i < |s.requests|
    ensures var n := Next(s, url, t);
      && |n.requests| == |s.requests|
      && (HasPublished(n.requests[t.i]) <==>
          HasPublished(s.requests[t.i]) || (t.Publish? && Due(s, t.i, Publishing) && !t.fails))
      && (t.Publish? && Due(s, t.i, Publishing) ==> !HasPublished(s.requests[t.i]))
  {
    NextRequests(s, url, t);
    DistinctReplies();
    hide Next, WelcomeMarked;
  }

  lemma QueueStep(s: System, url: string, t: Step, who: Option<string>)
    ensures Published(Next(s, url, t).queue, who) - Published(s.queue, who) ==
      if t.Publish? && Due(s, t.i, Publishing) && !t.fails && Concerns(who, Identity(s.requests[t.i])) then 1 else 0
  {
    var u := if t.Publish? && Due(s, t.i, Publishing) then Identity(s.requests[t.i]) else "";
    NextQueue(s, url, t, u);
    hide Next, Concerns;
    var n := Next(s, url, t);
    if |n.queue| > |s.queue| {
      assert n.queue[..|s.queue|] == s.queue;
    } else {
      assert n.queue == s.queue;
    }
  }

  // What is in the queue, and for whom.

  /** The event is the welcome of the payload's person: the one recipient, who is also its subject and its
      trigger, under the name and the address of the payload. */
  predicate WelcomeFor(e: WelcomeEvent, p: Payload, url: string) {
    && e.eventType == "USER_SIGN_UP_WELCOME" && e.platformURL == url
    && e.recipients == [e.user] && e.triggeredBy == e.user
    && e.user.id == p.identityID && e.user.email == p.email
    && e.user.firstName == p.firstName && e.user.lastName == ""
    && e.user.profile.displayName == p.displayName && e.user.profile.url == url + "/user/me"
    && e.user.kind == "user"
  }

  /** who[k] is the request that published the k-th event; each request that has published did so once. */
  ghost predicate PublishedFor(s: System, url: string, who: seq<nat>) {
    && |who| == |s.queue|
    && (forall k | 0 <= k < |who| :: who[k] < |s.requests| && HasPublished(s.requests[who[k]])
                                     && WelcomeFor(s.queue[k].event, s.requests[who[k]].payload, url))
    && (forall j, k | 0 <= j < k < |who| :: who[j] != who[k])
    && (forall i: nat | i < |s.requests| && HasPublished(s.requests[i]) :: i in who)
  }

  lemma TransformWelcomes(p: Payload, url: string)
    ensures WelcomeFor(Transform(p, url), p, url)
  {
  }

  lemma NextEvent(s: System, url: string, t: Step)
    requires t.Publish? && Due(s, t.i, Publishing) && !t.fails
    ensures var n := Next(s, url, t);
      |n.queue| == |s.queue| + 1 && WelcomeFor(n.queue[|s.queue|].event, s.requests[t.i].payload, url)
  {
    TransformWelcomes(s.requests[t.i].payload, url);
    hide Transform, WelcomeFor;
  }

  /** A step leaves what has published as it is, and only a successful publish adds to it. */
  lemma PublishedStep(s: System, url: string, t: Step, i: nat)
    requires i < |Next(s, url, t).requests|
    ensures var n := Next(s, url, t);
      && (i < |s.requests| ==> n.requests[i].payload == s.requests[i].payload)
      && (HasPublished(n.requests[i]) <==>
          (i < |s.requests| && HasPublished(s.requests[i]))
          || (t.Publish? && t.i == i && Due(s, i, Publishing) && !t.fails))
  {
    NextRequests(s, url, t);
    ArrivalsCheck(s, url, t);
    DistinctReplies();
    hide Next, WelcomeMarked;
  }

  /** The requests of n that have published are those of s, and request i if it is given. */
  predicate PublishersGrow(s: System, n: System, added: Option<nat>) {
    && |s.requests| <= |n.requests|
    && (forall i | 0 <= i < |s.requests| :: n.requests[i].payload == s.requests[i].payload)
    && forall i: nat | i < |n.requests| ::
         HasPublished(n.requests[i]) <==> (i < |s.requests| && HasPublished(s.requests[i])) || added == Some(i)
  }

  lemma NobodyAdded(s: System, n: System, url: string, who: seq<nat>)
    requires PublishedFor(s, url, who) && PublishersGrow(s, n, None) && n.queue == s.queue
    ensures PublishedFor(n, url, who)
  {
    hide WelcomeFor, HasPublished;
  }

  lemma OneAdded(s: System, n: System, url: string, who: seq<nat>, i: nat)
    requires PublishedFor(s, url, who) && PublishersGrow(s, n, Some(i))
    requires i < |s.requests| && !HasPublished(s.requests[i])
    requires |n.queue| == |s.queue| + 1 && forall k | 0 <= k < |s.queue| :: n.queue[k] == s.queue[k]
    requires WelcomeFor(n.queue[|s.queue|].event, s.requests[i].payload, url)
    ensures PublishedFor(n, url, who + [i])
  {
    hide WelcomeFor, HasPublished;
    var on := who + [i];
    forall k | 0 <= k < |on|
      ensures on[k] < |n.requests| && HasPublished(n.requests[on[k]])
      ensures WelcomeFor(n.queue[k].event, n.requests[on[k]].payload, url)
    {
      if k == |who| {
        assert on[k] == i;
      }
    }
    assert i !in who;
    forall j: nat | j < |n.requests| && HasPublished(n.requests[j])
      ensures j in on
    {
    }
  }

  lemma EventsStayFor(s: System, url: string, t: Step, who: seq<nat>) returns (on: seq<nat>)
    requires PublishedFor(s, url, who)
    ensures PublishedFor(Next(s, url, t), url, on)
  {
    var n := Next(s, url, t);
    NextQueue(s, url, t, "");
    NextRequests(s, url, t);
    hide Next, WelcomeFor, HasPublished, PublishedFor, IsFor;
    forall i: nat | i < |n.requests|
      ensures HasPublished(n.requests[i]) <==>
        (i < |s.requests| && HasPublished(s.requests[i]))
        || (t.Publish? && t.i == i && Due(s, i, Publishing) && !t.fails)
    {
      PublishedStep(s, url, t, i);
    }
    if t.Publish? && Due(s, t.i, Publishing) && !t.fails {
      NextEvent(s, url, t);
      NotYetPublished(s.requests[t.i]);
      on := who + [t.i];
      OneAdded(s, n, url, who, t.i);
    } else {
      on := who;
      assert n.queue == s.queue;
      NobodyAdded(s, n, url, who);
    }
  }

  lemma NotYetPublished(r: Request)
    requires r.phase == Publishing
    ensures !HasPublished(r)
  {
  }

  /** Every event in the queue of every run was published for a request of its own, and is that person's
      welcome; and every request that published has its event there. */
  lemma {:induction false} EveryEventIsFor(now: int, url: string, ts: seq<Step>) returns (who: seq<nat>)
    ensures PublishedFor(Run(Start(now), url, ts), url, who)
    decreases |ts|
  {
    hide Next, WelcomeFor, HasPublished;
    if ts == [] {
      who := [];
    } else {
      who := EveryEventIsFor(now, url, ts[..|ts| - 1]);
      who := EventsStayFor(Run(Start(now), url, ts[..|ts| - 1]), url, ts[|ts| - 1], who);
    }
  }
}
