/** Key names, scripts and operations of the Redis client (internal/clients/redis.go). */
module Clients {
  import opened Wrappers
  import opened RedisServer

  const WELCOME_SENT_TTL: int := 90 * 24 * 60 * 60
  const IDENTIFIER_PREFIX := "login_backoff:id:"
  const IP_PREFIX := "login_backoff:ip:"
  const WELCOME_PREFIX := "welcome_sent:"

  /** A key by what it stands for. */
  datatype Key = IdentifierKey(name: string) | IpKey(name: string) | WelcomeKey(name: string)

  function KeyText(k: Key): string {
    match k
    case IdentifierKey(x) => IDENTIFIER_PREFIX + x
    case IpKey(x) => IP_PREFIX + x
    case WelcomeKey(x) => WELCOME_PREFIX + x
  }

  /** No two keys share a text, whatever the names: the prefixes never collide and prefixing is injective. */
  lemma KeyTextInjective(a: Key, b: Key)
    ensures KeyText(a) == KeyText(b) ==> a == b
  {
    var s, t := KeyText(a), KeyText(b);
    assert IDENTIFIER_PREFIX[14] == 'i' && IDENTIFIER_PREFIX[15] == 'd';
    assert IP_PREFIX[14] == 'i' && IP_PREFIX[15] == 'p';
    assert a.WelcomeKey? <==> s[0] == 'w';
    assert b.WelcomeKey? <==> t[0] == 'w';
    assert a.IdentifierKey? ==> s[15] == 'd';
    assert a.IpKey? ==> s[15] == 'p';
    assert b.IdentifierKey? ==> t[15] == 'd';
    assert b.IpKey? ==> t[15] == 'p';
    var n := if a.WelcomeKey? then |WELCOME_PREFIX| else |IP_PREFIX|;
    assert s[n..] == a.name;
    assert a.WelcomeKey? == b.WelcomeKey? ==> t[n..] == b.name;
  }

  /** The keys as operators see them. */
  lemma KeyTexts(identifier: string, ip: string, identity: string)
    ensures KeyText(IdentifierKey(identifier)) == "login_backoff:id:" + identifier
    ensures KeyText(IpKey(ip)) == "login_backoff:ip:" + ip
    ensures KeyText(WelcomeKey(identity)) == "welcome_sent:" + identity
  {
  }

  /** A call may fail before or after it took effect on the server. */
  datatype Fault = NoFault | Failed(applied: bool, text: string)

  predicate Applied(f: Fault) {
    f.NoFault? || f.applied
  }

  datatype Reply = Counted(count: int, remaining: int) | Error(text: string)
  datatype TwoReply =
    | CountedBoth(idCount: int, idRemaining: int, ipCount: int, ipRemaining: int)
    | BothError(text: string)

  // What the single-key script does, as one step of the store: a fresh counter of 1 with a full time
  // to live, or one more in a counter that keeps its deadline.

  predicate Countable(db: Db, key: string) {
    Live(db, key) ==> db.keys[key].value.Number?
  }

  predicate Continues(db: Db, key: string)
    requires Countable(db, key)
  {
    Live(db, key) && db.keys[key].value.n != 0
  }

  function Bump(db: Db, key: string, ttl: int): Db {
    if !Countable(db, key) then db
    else if Continues(db, key) then
      db.(keys := db.keys[key := Entry(Number(db.keys[key].value.n + 1), db.keys[key].expiry)])
    else db.(keys := db.keys[key := Entry(Number(1), At(db.now + ttl))])
  }

  function BumpReply(db: Db, key: string, ttl: int): Reply {
    if !Countable(db, key) then Error(NOT_AN_INTEGER)
    else if Continues(db, key) then Counted(db.keys[key].value.n + 1, Remaining(db.keys[key].expiry, db.now))
    else Counted(1, ttl)
  }

  function Erase(db: Db, keys: set<string>): Db {
    db.(keys := db.keys - keys)
  }

  /** The keys a reset deletes: empty names are left out. */
  function ResetKeys(identifier: string, ip: string): set<string> {
    (if identifier != "" then {KeyText(IdentifierKey(identifier))} else {}) +
    (if ip != "" then {KeyText(IpKey(ip))} else {})
  }

  function Marked(db: Db, identity: string, stamp: string): Db {
    db.(keys := db.keys[KeyText(WelcomeKey(identity)) := Entry(Raw(stamp), At(db.now + WELCOME_SENT_TTL))])
  }

  /** The two-key script is two single-key scripts, unless the first key makes it stop. */
  function BumpTwo(db: Db, idKey: string, ipKey: string, idTtl: int, ipTtl: int): (Db, TwoReply) {
    if !Countable(db, idKey) then (db, BothError(NOT_AN_INTEGER))
    else
      var db1 := Bump(db, idKey, idTtl);
      if !Countable(db1, ipKey) then (db1, BothError(NOT_AN_INTEGER))
      else
        var (r1, r2) := (BumpReply(db, idKey, idTtl), BumpReply(db1, ipKey, ipTtl));
        (Bump(db1, ipKey, ipTtl), CountedBoth(r1.count, r1.remaining, r2.count, r2.remaining))
  }

  class RedisClient {
    const server: Server

    constructor (server: Server)
      ensures this.server == server
    {
      this.server := server;
    }

    function State(): Db
      reads server
    {
      server.State()
    }

    /** loginBackoffSingleKeyScript, command by command; an INCR error ends a script. */
    method SingleKeyScript(key: string, ttlSeconds: int) returns (r: Reply)
      requires ttlSeconds > 0
      modifies server`keys
      ensures State() == Bump(old(State()), key, ttlSeconds)
      ensures r == BumpReply(old(State()), key, ttlSeconds)
    {
      var count := server.Incr(key);
      if count == None {
        return Error(NOT_AN_INTEGER);
      }
      if count.value == 1 {
        server.Expire(key, ttlSeconds);
      }
      var remaining := server.Ttl(key);
      return Counted(count.value, remaining);
    }

    /** loginBackoffTwoKeyScript, command by command. */
    method TwoKeyScript(idKey: string, ipKey: string, idTtl: int, ipTtl: int) returns (r: TwoReply)
      requires idTtl > 0 && ipTtl > 0
      modifies server`keys
      ensures (State(), r) == BumpTwo(old(State()), idKey, ipKey, idTtl, ipTtl)
    {
      hide Bump, BumpReply;
      ghost var db := State();
      var idCount := server.Incr(idKey);
      if idCount == None {
        IncrFails(db, idKey, idTtl);
        return BothError(NOT_AN_INTEGER);
      }
      ghost var mid := State();
      if idCount.value == 1 {
        server.Expire(idKey, idTtl);
      }
      var idRemaining := server.Ttl(idKey);
      ghost var db1 := State();
      CommandsBump(db, mid, db1, idKey, idTtl, idCount.value, idRemaining);

      var ipCount := server.Incr(ipKey);
      if ipCount == None {
        IncrFails(db1, ipKey, ipTtl);
        return BothError(NOT_AN_INTEGER);
      }
      mid := State();
      if ipCount.value == 1 {
        server.Expire(ipKey, ipTtl);
      }
      var ipRemaining := server.Ttl(ipKey);
      CommandsBump(db1, mid, State(), ipKey, ipTtl, ipCount.value, ipRemaining);

      return CountedBoth(idCount.value, idRemaining, ipCount.value, ipRemaining);
    }

    method IncrementLoginAttempts(identifier: string, ip: string, idTtlSeconds: int, ipTtlSeconds: int, fault: Fault)
      returns (r: TwoReply)
      requires idTtlSeconds > 0 && ipTtlSeconds > 0
      modifies server`keys
      ensures var idKey, ipKey := KeyText(IdentifierKey(identifier)), KeyText(IpKey(ip));
        var (after, reply) := BumpTwo(old(State()), idKey, ipKey, idTtlSeconds, ipTtlSeconds);
        && State() == (if Applied(fault) then after else old(State()))
        && r == if fault.Failed? then BothError("failed to increment login attempts: " + fault.text)
                else if reply.BothError? then BothError("failed to increment login attempts: " + reply.text)
                else reply
    {
      if fault.Failed? && !fault.applied {
        return BothError("failed to increment login attempts: " + fault.text);
      }
      r := TwoKeyScript(IDENTIFIER_PREFIX + identifier, IP_PREFIX + ip, idTtlSeconds, ipTtlSeconds);
      if fault.Failed? {
        return BothError("failed to increment login attempts: " + fault.text);
      }
      if r.BothError? {
        return BothError("failed to increment login attempts: " + r.text);
      }
    }

    method IncrementIdentifierAttempt(identifier: string, ttlSeconds: int, fault: Fault) returns (r: Reply)
      requires ttlSeconds > 0
      modifies server`keys
      ensures var key := KeyText(IdentifierKey(identifier));
        var reply := BumpReply(old(State()), key, ttlSeconds);
        && State() == (if Applied(fault) then Bump(old(State()), key, ttlSeconds) else old(State()))
        && r == if fault.Failed? then Error("failed to increment identifier attempt: " + fault.text)
                else if reply.Error? then Error("failed to increment identifier attempt: " + reply.text)
                else reply
    {
      if fault.Failed? && !fault.applied {
        return Error("failed to increment identifier attempt: " + fault.text);
      }
      r := SingleKeyScript(IDENTIFIER_PREFIX + identifier, ttlSeconds);
      if fault.Failed? {
        return Error("failed to increment identifier attempt: " + fault.text);
      }
      if r.Error? {
        return Error("failed to increment identifier attempt: " + r.text);
      }
    }

    method IncrementIPAttempt(ip: string, ttlSeconds: int, fault: Fault) returns (r: Reply)
      requires ttlSeconds > 0
      modifies server`keys
      ensures var key := KeyText(IpKey(ip));
        var reply := BumpReply(old(State()), key, ttlSeconds);
        && State() == (if Applied(fault) then Bump(old(State()), key, ttlSeconds) else old(State()))
        && r == if fault.Failed? then Error("failed to increment IP attempt: " + fault.text)
                else if reply.Error? then Error("failed to increment IP attempt: " + reply.text)
                else reply
    {
      if fault.Failed? && !fault.applied {
        return Error("failed to increment IP attempt: " + fault.text);
      }
      r := SingleKeyScript(IP_PREFIX + ip, ttlSeconds);
      if fault.Failed? {
        return Error("failed to increment IP attempt: " + fault.text);
      }
      if r.Error? {
        return Error("failed to increment IP attempt: " + r.text);
      }
    }

    /** None stands for success. */
    method ResetLoginAttempts(identifier: string, ip: string, fault: Fault) returns (err: Option<string>)
      modifies server`keys
      ensures identifier == "" && ip == "" ==> err == None
      ensures identifier != "" || ip != "" ==> err == if fault.Failed? then Some(fault.text) else None
      ensures State() == if Applied(fault) then Erase(old(State()), ResetKeys(identifier, ip)) else old(State())
    {
      var keys: seq<string> := [];
      if identifier != "" {
        keys := keys + [IDENTIFIER_PREFIX + identifier];
      }
      if ip != "" {
        keys := keys + [IP_PREFIX + ip];
      }
      assert ResetKeys(identifier, ip) == set k | k in keys;
      if |keys| == 0 {
        assert State() == Erase(State(), {});
        return None;
      }
      if Applied(fault) {
        server.Del(keys);
      }
      return if fault.Failed? then Some(fault.text) else None;
    }

    /** None stands for an error. */
    method IsWelcomeSent(identityID: string, fault: Fault) returns (r: Option<bool>)
      ensures r == if fault.Failed? then None else Some(Live(State(), KeyText(WelcomeKey(identityID))))
    {
      if fault.Failed? {
        return None;
      }
      var found := server.Exists(WELCOME_PREFIX + identityID);
      return Some(found);
    }

    method MarkWelcomeSent(identityID: string, stamp: string, fault: Fault) returns (err: Option<string>)
      modifies server`keys
      ensures err == if fault.Failed? then Some(fault.text) else None
      ensures State() == if Applied(fault) then Marked(old(State()), identityID, stamp) else old(State())
    {
      if Applied(fault) {
        server.Set(WELCOME_PREFIX + identityID, stamp, WELCOME_SENT_TTL);
      }
      return if fault.Failed? then Some(fault.text) else None;
    }
  }

  lemma IncrFails(db: Db, key: string, ttl: int)
    requires !Countable(db, key)
    ensures Bump(db, key, ttl) == db
  {
  }

  /** INCR, then EXPIRE if the count is 1, then TTL: one more attempt in the counter's window. */
  lemma CommandsBump(db: Db, mid: Db, after: Db, key: string, ttl: int, count: int, remaining: int)
    requires Countable(db, key) && ttl > 0
    requires mid == db.(keys := if Live(db, key) then db.keys[key := Entry(Number(count), db.keys[key].expiry)]
                                else db.keys[key := Entry(Number(1), Never)])
    requires count == if Live(db, key) then db.keys[key].value.n + 1 else 1
    requires after ==
      if count == 1 then mid.(keys := mid.keys[key := Entry(mid.keys[key].value, At(mid.now + ttl))]) else mid
    requires remaining == Remaining(after.keys[key].expiry, after.now)
    ensures after == Bump(db, key, ttl) && BumpReply(db, key, ttl) == Counted(count, remaining)
  {
    assert after.keys == Bump(db, key, ttl).keys;
  }

  /** What a single-key script leaves under its key. */
  function BumpEntry(db: Db, key: string, ttl: int): Entry
    requires Countable(db, key)
  {
    if Continues(db, key) then Entry(Number(db.keys[key].value.n + 1), db.keys[key].expiry)
    else Entry(Number(1), At(db.now + ttl))
  }

  /** It depends on its own key alone, so a script on another key makes no difference to it. */
  lemma BumpElsewhere(db: Db, x: string, y: string, xTtl: int, yTtl: int)
    requires x != y
    ensures var after := Bump(db, x, xTtl);
      && after.now == db.now
      && after.keys == (if Countable(db, x) then db.keys[x := BumpEntry(db, x, xTtl)] else db.keys)
      && Countable(after, y) == Countable(db, y)
      && (Countable(db, y) ==> BumpEntry(after, y, yTtl) == BumpEntry(db, y, yTtl))
      && Bump(after, y, yTtl) ==
          (if Countable(db, y) then after.(keys := after.keys[y := BumpEntry(db, y, yTtl)]) else after)
      && BumpReply(after, y, yTtl) == BumpReply(db, y, yTtl)
  {
  }

  /** Single-key scripts on different keys commute, so the two-key script equals them in either order. */
  lemma BumpsCommute(db: Db, x: string, y: string, xTtl: int, yTtl: int)
    requires x != y
    ensures Bump(Bump(db, x, xTtl), y, yTtl) == Bump(Bump(db, y, yTtl), x, xTtl)
    ensures BumpReply(Bump(db, y, yTtl), x, xTtl) == BumpReply(db, x, xTtl)
    ensures BumpReply(Bump(db, x, xTtl), y, yTtl) == BumpReply(db, y, yTtl)
  {
    BumpElsewhere(db, x, y, xTtl, yTtl);
    BumpElsewhere(db, y, x, yTtl, xTtl);
    hide Bump, BumpReply;
    var (k1, k2) := (Bump(Bump(db, x, xTtl), y, yTtl).keys, Bump(Bump(db, y, yTtl), x, xTtl).keys);
    assert k1 == k2;
  }

  /** The atomic two-key step against the single-key steps in either order; only a non-counter under
      the identifier key lets the second order count an IP that the script leaves alone. */
  lemma TwoKeyIsEitherOrder(db: Db, id: string, ip: string, idTtl: int, ipTtl: int)
    requires idTtl > 0 && ipTtl > 0
    ensures var x, y := KeyText(IdentifierKey(id)), KeyText(IpKey(ip));
      var (after, reply) := BumpTwo(db, x, y, idTtl, ipTtl);
      && (after == Bump(Bump(db, x, idTtl), y, ipTtl) == Bump(Bump(db, y, ipTtl), x, idTtl)
          <==> (Countable(db, x) || !Countable(db, y)))
      && (reply.CountedBoth? <==> Countable(db, x) && Countable(db, y))
      && (reply.CountedBoth? ==>
          && Counted(reply.idCount, reply.idRemaining) == BumpReply(db, x, idTtl) ==
              BumpReply(Bump(db, y, ipTtl), x, idTtl)
          && Counted(reply.ipCount, reply.ipRemaining) == BumpReply(db, y, ipTtl) ==
              BumpReply(Bump(db, x, idTtl), y, ipTtl))
  {
    var x, y := KeyText(IdentifierKey(id)), KeyText(IpKey(ip));
    KeyTextInjective(IdentifierKey(id), IpKey(ip));
    BumpsCommute(db, x, y, idTtl, ipTtl);
    if !Countable(db, x) && Countable(db, y) {
      var after := Bump(db, y, ipTtl).keys;
      assert y in after && (y in db.keys ==> after[y] != db.keys[y]);
    }
  }
}
