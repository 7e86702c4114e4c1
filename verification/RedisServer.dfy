/**
 * The part of a Redis server the service uses: one keyspace of strings with expiry times, a clock in
 * whole seconds, and the commands INCR, EXPIRE, TTL, DEL, EXISTS and SET. A key is live while the
 * clock is before its deadline.
 */
module RedisServer {
  import opened Wrappers

  datatype Value = Number(n: int) | Raw(text: string)
  datatype Expiry = Never | At(time: int)
  datatype Entry = Entry(value: Value, expiry: Expiry)

  datatype Db = Db(keys: map<string, Entry>, now: int)

  predicate Live(db: Db, key: string) {
    key in db.keys && (db.keys[key].expiry.At? ==> db.now < db.keys[key].expiry.time)
  }

  function Remaining(e: Expiry, now: int): int {
    match e
    case Never => -1
    case At(t) => t - now
  }

  const NOT_AN_INTEGER := "ERR value is not an integer or out of range"

  class Server {
    var keys: map<string, Entry>
    var now: int

    function State(): Db
      reads this
    {
      Db(keys, now)
    }

    constructor (now: int)
      ensures State() == Db(map[], now)
    {
      this.keys := map[];
      this.now := now;
    }

    /** INCR: an absent or expired key counts from zero and has no expiry; None stands for an error. */
    method Incr(key: string) returns (r: Option<int>)
      modifies this`keys
      ensures !old(Live(State(), key)) ==> r == Some(1) && keys == old(keys)[key := Entry(Number(1), Never)]
      ensures old(Live(State(), key)) && old(keys)[key].value.Raw? ==> r == None && keys == old(keys)
      ensures old(Live(State(), key)) && old(keys)[key].value.Number? ==>
        r == Some(old(keys)[key].value.n + 1) && keys == old(keys)[key := Entry(Number(r.value), old(keys)[key].expiry)]
    {
      if !Live(State(), key) {
        keys := keys[key := Entry(Number(1), Never)];
        return Some(1);
      }
      match keys[key].value
      case Raw(_) =>
        return None;
      case Number(n) =>
        keys := keys[key := keys[key].(value := Number(n + 1))];
        return Some(n + 1);
    }

    /** EXPIRE with a positive time to live. */
    method Expire(key: string, ttl: int)
      requires ttl > 0
      modifies this`keys
      ensures keys ==
        if old(Live(State(), key)) then old(keys)[key := Entry(old(keys)[key].value, At(now + ttl))] else old(keys)
    {
      if Live(State(), key) {
        keys := keys[key := keys[key].(expiry := At(now + ttl))];
      }
    }

    /** TTL: -2 without a key, -1 without an expiry. */
    method Ttl(key: string) returns (r: int)
      ensures r == if Live(State(), key) then Remaining(keys[key].expiry, now) else -2
    {
      r := if Live(State(), key) then Remaining(keys[key].expiry, now) else -2;
    }

    /** DEL of any number of keys. */
    method Del(doomed: seq<string>)
      modifies this`keys
      ensures keys == old(keys) - (set k | k in doomed)
    {
      keys := keys - set k | k in doomed;
    }

    method Exists(key: string) returns (r: bool)
      ensures r == Live(State(), key)
    {
      r := Live(State(), key);
    }

    /** SET with an expiry. */
    method Set(key: string, text: string, ttl: int)
      requires ttl > 0
      modifies this`keys
      ensures keys == old(keys)[key := Entry(Raw(text), At(now + ttl))]
    {
      keys := keys[key := Entry(Raw(text), At(now + ttl))];
    }
  }
}
