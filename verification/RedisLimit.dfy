/**
 The counter that gateway instances share in Redis. Every request sends three pipelined
 commands (INCR, EXPIRE, GET); a pipeline is not a transaction, so commands of different
 requests interleave freely. Times are milliseconds since the epoch.
 */
module RedisLimit {
  import opened Wrappers

  // ----- Redis, as far as these commands see it -----

  datatype Cell = Cell(count: nat, expires: Option<nat>)

  /** The cells of one bucket by window number. */
  type Db = map<int, Cell>

  predicate Live(db: Db, w: int, now: nat) {
    w in db && (db[w].expires == None || now < db[w].expires.value)
  }

  function Get(db: Db, w: int, now: nat): nat {
    if Live(db, w, now) then db[w].count else 0
  }

  /** INCR keeps a live key's expiry; a new key has none. */
  function Incr(db: Db, w: int, now: nat): Db {
    db[w := if Live(db, w, now) then db[w].(count := db[w].count + 1) else Cell(1, None)]
  }

  function Expire(db: Db, w: int, now: nat, ttl: nat): Db {
    if Live(db, w, now) then db[w := db[w].(expires := Some(now + ttl))] else db
  }

  function Digit(d: nat): char
    requires d < 10
  {
    '0' + d as char
  }

  /** The counts cross the wire as decimal strings. */
  function Decimal(n: nat): (s: string)
    ensures s != [] && forall i :: 0 <= i < |s| ==> '0' <= s[i] <= '9'
  {
    if n < 10 then [Digit(n)] else Decimal(n / 10) + [Digit(n % 10)]
  }

  function DigitValue(c: char): int {
    c as int - '0' as int
  }

  function Value(s: string): int {
    if s == [] then 0 else 10 * Value(s[..|s| - 1]) + DigitValue(s[|s| - 1])
  }

  predicate AllDigits(s: string) {
    forall i :: 0 <= i < |s| ==> '0' <= s[i] <= '9'
  }

  function Digits(s: string): int {
    if AllDigits(s) then Value(s) else 0
  }

  /** The number a string of digits stands for; anything else counts as zero. */
  function Number(s: string): int {
    if s != [] && s[0] == '-' then -Digits(s[1..]) else Digits(s)
  }

  method Atoi(s: string) returns (n: int)
    ensures n == Number(s)
  {
    n := 0;
    var neg := false;
    for i := 0 to |s|
      invariant neg == (i > 0 && s[0] == '-')
      invariant if neg then AllDigits(s[1..i]) && n == Value(s[1..i]) else AllDigits(s[..i]) && n == Value(s[..i])
    {
      if i == 0 && s[i] == '-' {
        neg := true;
        assert s[1..1] == [];
        continue;
      }
      if s[i] < '0' || s[i] > '9' {
        assert neg ==> s[1..][i - 1] == s[i];
        return 0;
      }
      n := n * 10 + DigitValue(s[i]);
      assert s[..i + 1][..i] == s[..i];
      if neg {
        assert s[1..i + 1][..i - 1] == s[1..i];
      }
    }
    assert s[..|s|] == s && (neg ==> s[1..|s|] == s[1..]);
    if neg {
      return -n;
    }
  }

  /** What GET answers is read back as the count; a missing key's empty answer as zero. */
  lemma {:induction false} NumberOfDecimal(n: nat)
    ensures Number(Decimal(n)) == Value(Decimal(n)) == n && Number("") == 0
  {
    if n >= 10 {
      NumberOfDecimal(n / 10);
      assert Decimal(n)[..|Decimal(n)| - 1] == Decimal(n / 10);
    } else {
      assert Decimal(n)[..0] == [];
    }
    assert Decimal(n)[0] != '-';
  }

  // ----- One request -----

  datatype Verdict = Verdict(allowed: bool, remaining: int, retryAfter: int)

  function Weighted(width: nat, at: nat, prev: nat, cur: nat): real
    requires width > 0
  {
    prev as real * (1.0 - (at % width) as real / width as real) + cur as real
  }

  function Decide(limit: int, width: nat, at: nat, prev: nat, cur: nat): Verdict
    requires width > 0
  {
    var weighted := Weighted(width, at, prev, cur);
    if weighted > limit as real then Verdict(false, 0, width - at % width)
    else Verdict(true, limit - weighted.Floor, 0)
  }

  class Redis {
    var db: Db
    var clock: nat

    constructor ()
      ensures db == map[]
    {
      db, clock := map[], 0;
    }

    method DoIncr(w: int) returns (n: nat)
      modifies this`db
      ensures db == Incr(old(db), w, clock) && n == db[w].count
    {
      db := Incr(db, w, clock);
      n := db[w].count;
    }

    method DoExpire(w: int, ttl: nat)
      modifies this`db
      ensures db == Expire(old(db), w, clock, ttl)
    {
      db := Expire(db, w, clock, ttl);
    }

    method DoGet(w: int) returns (s: string)
      ensures s == if Live(db, w, clock) then Decimal(db[w].count) else ""
    {
      s := if Live(db, w, clock) then Decimal(db[w].count) else "";
    }
  }

  /** The cells once the first `n` commands of a pipeline have run. */
  function Piped(db: Db, w: int, now: nat, ttl: nat, n: nat): Db {
    if n == 0 then db else if n == 1 then Incr(db, w, now) else Expire(Incr(db, w, now), w, now, ttl)
  }

  /**
   `Allow` when no other request's commands come between its own. If the connection fails once
   `fault` commands have run, the caller gets an error; the request may have been counted.
   */
  method Allow(redis: Redis, limit: int, width: nat, ttl: nat, now: nat, fault: Option<nat>)
    returns (v: Option<Verdict>)
    requires width > 0
    modifies redis`db
    ensures var w := now / width;
            match fault
            case Some(n) => v == None && redis.db == Piped(old(redis.db), w, redis.clock, ttl, n)
            case None =>
              && redis.db == Expire(Incr(old(redis.db), w, redis.clock), w, redis.clock, ttl)
              && v == Some(Decide(limit, width, now, Get(redis.db, w - 1, redis.clock), redis.db[w].count))
  {
    var w := now / width;
    if fault == Some(0) { return None; }
    var cur := redis.DoIncr(w);
    if fault == Some(1) { return None; }
    redis.DoExpire(w, ttl);
    if fault.Some? { return None; }
    var s := redis.DoGet(w - 1);
    var prev := Atoi(s);
    NumberOfDecimal(Get(redis.db, w - 1, redis.clock));
    v := Some(Decide(limit, width, now, prev, cur));
  }
}
