/**
 * What replies and logs may depend on: renaming identifiers and IPs throughout a run changes nothing
 * that the service says or logs, as long as the two log pseudonyms are kept. So logs carry no more of
 * an identifier than its keyed hash, and no more of an IP than its network prefix.
 */
module LoginRenaming {
  import opened Wrappers
  import opened Text
  import opened NetIp
  import opened LogFields
  import opened RedisServer
  import opened Clients
  import opened LoginBackoff
  import opened LoginRuns

  /** Both are addresses of one IPv4 /24 or IPv6 /32 network, or neither is an address. */
  predicate SamePlace(s: string, t: string) {
    match (ParseIP(TrimSpace(s)), ParseIP(TrimSpace(t)))
    case (Some(g), Some(h)) => IsAddress(g) && IsAddress(h) && SameNetwork(g, h)
    case (None, None) => true
    case _ => false
  }

  /** Injective renamings of identifiers and of IPs that leave the empty one alone, keep the HMAC of each
      identifier if there is a usable key, and keep each IP in its network. */
  ghost predicate IsRenaming(cfg: Config, ids: string -> string, ips: string -> string) {
    && ids("") == "" && ips("") == ""
    && (forall x, y :: ids(x) == ids(y) ==> x == y)
    && (forall x, y :: ips(x) == ips(y) ==> x == y)
    && (|cfg.logIdentifierHashKey| >= 32 ==> forall x | x != "" ::
          cfg.hmac(cfg.logIdentifierHashKey, ids(x)) == cfg.hmac(cfg.logIdentifierHashKey, x))
    && (forall y :: SamePlace(ips(y), y))
  }

  /** Such a renaming keeps the fields that describe who is logging in. */
  lemma WhoKept(cfg: Config, ids: string -> string, ips: string -> string, id: string, ip: string)
    requires IsRenaming(cfg, ids, ips)
    ensures Who(cfg, ids(id), ips(ip)) == Who(cfg, id, ip)
  {
    hide SamePlace, IpPrefix;
    assert id != "" ==> ids(id) != ids("");
    assert SamePlace(ips(ip), ip);
    PlaceDecidesPrefix(ips(ip), ip);
  }

  lemma PlaceDecidesPrefix(s: string, t: string)
    requires SamePlace(s, t)
    ensures IpPrefix(s) == IpPrefix(t)
  {
    hide ParseIP, TrimSpace, Tagged;
    if ParseIP(TrimSpace(s)).Some? {
      PrefixIsNetwork(s, t, ParseIP(TrimSpace(s)).value, ParseIP(TrimSpace(t)).value);
    }
  }

  function RenameKey(ids: string -> string, ips: string -> string, key: Key): Key {
    match key
    case IdentifierKey(x) => IdentifierKey(ids(x))
    case IpKey(y) => IpKey(ips(y))
    case WelcomeKey(u) => WelcomeKey(u)
  }

  function RenameEvent(ids: string -> string, ips: string -> string, e: Event): Event {
    match e
    case Attempt(id, ip, flowID, corr, fault) => Attempt(ids(id), ips(ip), flowID, corr, fault)
    case Reset(id, ip, identityID, corr, fault) => Reset(ids(id), ips(ip), identityID, corr, fault)
    case _ => e
  }

  function RenameRun(ids: string -> string, ips: string -> string, es: seq<Event>): seq<Event> {
    seq(|es|, i requires 0 <= i < |es| => RenameEvent(ids, ips, es[i]))
  }

  /** Two stores that agree, counter by counter, up to the renaming. */
  ghost predicate Related(ids: string -> string, ips: string -> string, db: Db, other: Db) {
    && db.now == other.now
    && forall k: Key | IsCounter(k) :: CellOf(db, k) == CellOf(other, RenameKey(ids, ips, k))
  }

  lemma OneToOne(cfg: Config, ids: string -> string, ips: string -> string, x: string, y: string)
    requires IsRenaming(cfg, ids, ips)
    ensures (ids(x) == ids(y) <==> x == y) && (ips(x) == ips(y) <==> x == y) && ids("") == "" && ips("") == ""
  {
    hide SamePlace;
  }

  lemma NamesRenamed(cfg: Config, ids: string -> string, ips: string -> string, e: Event, key: Key)
    requires IsRenaming(cfg, ids, ips) && IsCounter(key)
    ensures Names(RenameEvent(ids, ips, e), RenameKey(ids, ips, key)) == Names(e, key)
    ensures OpOf(RenameEvent(ids, ips, e), RenameKey(ids, ips, key)) == OpOf(e, key)
  {
    hide IsRenaming;
    OneToOne(cfg, ids, ips, key.name, IdOf(e));
    OneToOne(cfg, ids, ips, key.name, IpOf(e));
    OneToOne(cfg, ids, ips, key.name, "");
    EmptinessKept(cfg, ids, ips, e);
  }

  lemma KeysRenamed(cfg: Config, ids: string -> string, ips: string -> string, e: Event)
    requires IsRenaming(cfg, ids, ips)
    ensures |KeysOf(RenameEvent(ids, ips, e))| == |KeysOf(e)|
    ensures forall i | 0 <= i < |KeysOf(e)| :: KeysOf(RenameEvent(ids, ips, e))[i] == RenameKey(ids, ips, KeysOf(e)[i])
  {
    hide IsRenaming;
    EmptinessKept(cfg, ids, ips, e);
  }

  lemma StepRelated(cfg: Config, ids: string -> string, ips: string -> string, db: Db, other: Db, e: Event)
    requires Validated(cfg) && IsRenaming(cfg, ids, ips)
    requires GoodDb(cfg, db) && GoodDb(cfg, other) && Related(ids, ips, db, other)
    ensures Related(ids, ips, Step(cfg, db, e), Step(cfg, other, RenameEvent(ids, ips, e)))
  {
    hide Step;
    var f := RenameEvent(ids, ips, e);
    forall k: Key | IsCounter(k)
      ensures CellOf(Step(cfg, db, e), k) == CellOf(Step(cfg, other, f), RenameKey(ids, ips, k))
      ensures Step(cfg, db, e).now == Step(cfg, other, f).now
    {
      StepCell(cfg, db, e, k);
      StepCell(cfg, other, f, RenameKey(ids, ips, k));
      NamesRenamed(cfg, ids, ips, e, k);
      assert Watching(Step(cfg, db, e), k) == Watching(Step(cfg, other, f), RenameKey(ids, ips, k));
    }
    assert Step(cfg, db, e).now == Step(cfg, other, f).now by {
      assert IsCounter(IpKey(""));
    }
  }

  /** One step of related stores: the same answer, and, given the same subject fields, the same records. */
  lemma StepAnswersAlike(cfg: Config, ids: string -> string, ips: string -> string, db: Db, other: Db, e: Event,
                         who: seq<Field>)
    requires Validated(cfg) && IsRenaming(cfg, ids, ips)
    requires GoodDb(cfg, db) && GoodDb(cfg, other) && Related(ids, ips, db, other)
    ensures var f := RenameEvent(ids, ips, e);
      && AnswerTo(cfg, other, f) == AnswerTo(cfg, db, e)
      && LogOf(cfg, other, f, who) == LogOf(cfg, db, e, who)
  {
    hide Who, AttemptEffect, IsRenaming, GoodDb, Related;
    var f := RenameEvent(ids, ips, e);
    KeysRenamed(cfg, ids, ips, e);
    EmptinessKept(cfg, ids, ips, e);
    if e.Attempt? {
      EffectAlike(cfg, ids, ips, db, other, e);
    }
  }

  lemma EmptinessKept(cfg: Config, ids: string -> string, ips: string -> string, e: Event)
    requires IsRenaming(cfg, ids, ips)
    ensures var f := RenameEvent(ids, ips, e);
      (IdOf(f) == "" <==> IdOf(e) == "") && (IpOf(f) == "" <==> IpOf(e) == "")
  {
    hide IsRenaming;
    OneToOne(cfg, ids, ips, IdOf(e), "");
    OneToOne(cfg, ids, ips, IpOf(e), "");
  }

  lemma EffectAlike(cfg: Config, ids: string -> string, ips: string -> string, db: Db, other: Db, e: Event)
    requires Validated(cfg) && IsRenaming(cfg, ids, ips) && e.Attempt?
    requires GoodDb(cfg, db) && GoodDb(cfg, other) && Related(ids, ips, db, other)
    ensures var f := RenameEvent(ids, ips, e);
      AttemptEffect(cfg, other, f.id, f.ip, f.fault) == AttemptEffect(cfg, db, e.id, e.ip, e.fault)
  {
    hide Who, IsRenaming;
    var f := RenameEvent(ids, ips, e);
    KeysRenamed(cfg, ids, ips, e);
    EmptinessKept(cfg, ids, ips, e);
    if KeysOf(e) != [] && e.fault.NoFault? {
      hide AttemptEffect;
      EffectIsTallies(cfg, db, e);
      EffectIsTallies(cfg, other, f);
      TalliesAlike(cfg, ids, ips, db, other, e);
    }
  }

  lemma TalliesAlike(cfg: Config, ids: string -> string, ips: string -> string, db: Db, other: Db, e: Event)
    requires Validated(cfg) && GoodDb(cfg, db) && GoodDb(cfg, other) && Related(ids, ips, db, other)
    requires var f := RenameEvent(ids, ips, e);
      && |KeysOf(f)| == |KeysOf(e)|
      && forall i | 0 <= i < |KeysOf(e)| :: KeysOf(f)[i] == RenameKey(ids, ips, KeysOf(e)[i])
    ensures TalliesOf(cfg, other, RenameEvent(ids, ips, e)) == TalliesOf(cfg, db, e)
  {
    hide KeysOf, CellOf;
    var f := RenameEvent(ids, ips, e);
    forall i | 0 <= i < |KeysOf(e)|
      ensures RaisedIn(cfg, other, KeysOf(f)[i]) == RaisedIn(cfg, db, KeysOf(e)[i])
    {
      assert CellOf(db, KeysOf(e)[i]) == CellOf(other, RenameKey(ids, ips, KeysOf(e)[i]));
    }
  }

  // Whole runs.

  /** What a client is told: the outcome of a check, or of a reset. */
  datatype ClientReply = OfCheck(result: CheckResult) | OfReset(response: AfterLoginResponse)

  function AnswerTo(cfg: Config, db: Db, e: Event): seq<ClientReply> {
    match e
    case Attempt(_, _, _, _, _) => [OfCheck(ReplyTo(cfg, db, e))]
    case Reset(_, _, _, _, _) => [OfReset(ResetReply(e))]
    case _ => []
  }

  /** The replies to all attempts and resets of a run, in order. */
  function Replies(cfg: Config, db: Db, es: seq<Event>): seq<ClientReply>
    decreases |es|
  {
    if es == [] then [] else AnswerTo(cfg, db, es[0]) + Replies(cfg, Step(cfg, db, es[0]), es[1..])
  }

  /** The log of a run. */
  function Logs(cfg: Config, db: Db, es: seq<Event>): seq<LogRecord>
    decreases |es|
  {
    if es == [] then []
    else LogOf(cfg, db, es[0], Who(cfg, IdOf(es[0]), IpOf(es[0]))) + Logs(cfg, Step(cfg, db, es[0]), es[1..])
  }

  lemma WhoIsKept(cfg: Config, ids: string -> string, ips: string -> string, e: Event)
    requires IsRenaming(cfg, ids, ips)
    ensures var f := RenameEvent(ids, ips, e); Who(cfg, IdOf(f), IpOf(f)) == Who(cfg, IdOf(e), IpOf(e))
  {
    hide Who;
    WhoKept(cfg, ids, ips, IdOf(e), IpOf(e));
    assert IdOf(RenameEvent(ids, ips, e)) == ids(IdOf(e)) && IpOf(RenameEvent(ids, ips, e)) == ips(IpOf(e));
  }

  /** Renaming every identifier and IP of a run leaves all its replies and its whole log unchanged. */
  lemma {:induction false} RenamingIsInvisible(cfg: Config, ids: string -> string, ips: string -> string, db: Db,
                                               other: Db, es: seq<Event>)
    requires Validated(cfg) && IsRenaming(cfg, ids, ips)
    requires GoodDb(cfg, db) && GoodDb(cfg, other) && Related(ids, ips, db, other)
    ensures Replies(cfg, other, RenameRun(ids, ips, es)) == Replies(cfg, db, es)
    ensures Logs(cfg, other, RenameRun(ids, ips, es)) == Logs(cfg, db, es)
    decreases |es|
  {
    hide Step, AnswerTo, LogOf, Who, IsRenaming;
    if es != [] {
      var e := es[0];
      var f := RenameEvent(ids, ips, e);
      assert RenameRun(ids, ips, es)[0] == f;
      assert RenameRun(ids, ips, es)[1..] == RenameRun(ids, ips, es[1..]);
      StepKeepsGood(cfg, db, e);
      StepKeepsGood(cfg, other, f);
      StepRelated(cfg, ids, ips, db, other, e);
      StepAnswersAlike(cfg, ids, ips, db, other, e, Who(cfg, IdOf(e), IpOf(e)));
      WhoIsKept(cfg, ids, ips, e);
      RenamingIsInvisible(cfg, ids, ips, Step(cfg, db, e), Step(cfg, other, f), es[1..]);
    }
  }

  /** Without a usable key any injective renaming of identifiers keeps the pseudonyms. */
  lemma KeylessRenaming(cfg: Config, ids: string -> string)
    requires |cfg.logIdentifierHashKey| < 32
    requires ids("") == "" && forall x, y :: ids(x) == ids(y) ==> x == y
    ensures IsRenaming(cfg, ids, (ip: string) => ip)
  {
    hide SamePlace;
    var same := (ip: string) => ip;
    forall y
      ensures SamePlace(same(y), y)
    {
      PlaceIsSame(y);
    }
  }

  lemma PlaceIsSame(s: string)
    ensures SamePlace(s, s)
  {
    hide ParseIP, TrimSpace;
    if ParseIP(TrimSpace(s)).Some? {
      ParsedIsAddress(TrimSpace(s));
    }
  }

  /** Then a whole run from an empty server says nothing about who logged in, only which attempts share
      an identifier: not in its replies and not in its log. */
  lemma NoKeyNoTrace(cfg: Config, ids: string -> string, now: int, es: seq<Event>)
    requires Validated(cfg) && |cfg.logIdentifierHashKey| < 32
    requires ids("") == "" && forall x, y :: ids(x) == ids(y) ==> x == y
    ensures var db, same := Db(map[], now), (ip: string) => ip;
      && Replies(cfg, db, RenameRun(ids, same, es)) == Replies(cfg, db, es)
      && Logs(cfg, db, RenameRun(ids, same, es)) == Logs(cfg, db, es)
  {
    hide IsRenaming, Step, AnswerTo, LogOf;
    KeylessRenaming(cfg, ids);
    RenamingIsInvisible(cfg, ids, (ip: string) => ip, Db(map[], now), Db(map[], now), es);
  }
}
