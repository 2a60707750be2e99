/** The management API's per-client counter, which also counts the requests it refuses. */
module ApiLimit {
  import opened Wrappers
  import opened FixedWindow

  const MINUTE: nat := 60_000_000_000

  datatype ApiWindow = ApiWindow(start: int, count: nat)

  function Count(e: Option<ApiWindow>, now: int): ApiWindow {
    var w := if e == None || now - e.value.start > MINUTE then ApiWindow(now, 0) else e.value;
    w.(count := w.count + 1)
  }

  function Lookup(m: map<string, ApiWindow>, ip: string): Option<ApiWindow> {
    if ip in m then Some(m[ip]) else None
  }

  class Server {
    const perMinute: int
    var ratings: map<string, ApiWindow>

    constructor (perMinute: int)
      ensures this.perMinute == (if perMinute <= 0 then 120 else perMinute) && ratings == map[]
    {
      this.perMinute := if perMinute <= 0 then 120 else perMinute;
      ratings := map[];
    }

    /** `false` is the 429 answer. */
    method Limit(ip: string, now: int) returns (served: bool)
      modifies this
      ensures ratings == old(ratings)[ip := Count(Lookup(old(ratings), ip), now)]
      ensures served == (ratings[ip].count <= perMinute)
    {
      if ip !in ratings || now - ratings[ip].start > MINUTE {
        ratings := ratings[ip := ApiWindow(now, 0)];
      }
      ratings := ratings[ip := ratings[ip].(count := ratings[ip].count + 1)];
      served := ratings[ip].count <= perMinute;
    }
  }

  datatype Hit = Hit(ip: string, now: int)

  predicate Timely(hits: seq<Hit>) {
    forall i, j :: 0 <= i < j < |hits| ==> hits[i].now <= hits[j].now
  }

  /** How many hits of a run from `ip` are served with a time in `[a, b)`. */
  function ServedIn(m: map<string, ApiWindow>, limit: nat, hits: seq<Hit>, ip: string, a: int, b: int): nat
    decreases |hits|
  {
    if hits == [] then 0 else
    var h := hits[0];
    var w := Count(Lookup(m, h.ip), h.now);
    ServedIn(m[h.ip := w], limit, hits[1..], ip, a, b)
    + if h.ip == ip && w.count <= limit && a <= h.now < b then 1 else 0
  }

  function TimesOf(hits: seq<Hit>, ip: string): seq<int> {
    if hits == [] then [] else (if hits[0].ip == ip then [hits[0].now] else []) + TimesOf(hits[1..], ip)
  }

  lemma {:induction false} TimesOrdered(hits: seq<Hit>, ip: string)
    requires Timely(hits)
    ensures Nondecreasing(TimesOf(hits, ip))
    ensures forall i :: 0 <= i < |TimesOf(hits, ip)| ==> hits != [] && hits[0].now <= TimesOf(hits, ip)[i]
  {
    if hits != [] {
      TimesOrdered(hits[1..], ip);
    }
  }

  /** Counting on past the limit is a fixed window stuck at its limit, one tick wider than a minute. */
  function Abs(e: Option<ApiWindow>, limit: nat): Option<Window> {
    if e == None then None
    else Some(Window(e.value.start, if e.value.count <= limit then e.value.count else limit))
  }

  lemma CountIsFixedWindow(e: Option<ApiWindow>, limit: nat, now: int)
    ensures var w := Count(e, now);
            (Abs(Some(w), limit).value, w.count <= limit) == Step(Abs(e, limit), limit, MINUTE + 1, now)
  {
  }

  lemma {:induction false} RunIsFixedWindow(m: map<string, ApiWindow>, limit: nat, hits: seq<Hit>, ip: string,
                                            a: int, b: int)
    ensures ServedIn(m, limit, hits, ip, a, b)
            == GrantsIn(Abs(Lookup(m, ip), limit), limit, MINUTE + 1, TimesOf(hits, ip), a, b)
    decreases |hits|
  {
    if hits != [] {
      var h := hits[0];
      var m' := m[h.ip := Count(Lookup(m, h.ip), h.now)];
      RunIsFixedWindow(m', limit, hits[1..], ip, a, b);
      if h.ip == ip {
        CountIsFixedWindow(Lookup(m, ip), limit, h.now);
        assert TimesOf(hits, ip)[1..] == TimesOf(hits[1..], ip);
      } else {
        assert TimesOf(hits, ip) == TimesOf(hits[1..], ip);
      }
    }
  }

  /** Over every run, one client is served at most `2 * limit - 1` times in any closed minute. */
  lemma MinuteBound(limit: nat, hits: seq<Hit>, ip: string, a: int)
    requires limit > 0 && Timely(hits)
    ensures ServedIn(map[], limit, hits, ip, a, a + MINUTE + 1) <= 2 * limit - 1
  {
    RunIsFixedWindow(map[], limit, hits, ip, a, a + MINUTE + 1);
    TimesOrdered(hits, ip);
    AnyInterval(None, limit, MINUTE + 1, TimesOf(hits, ip), a);
  }

  function HitAll(ip: string, times: seq<int>): (hits: seq<Hit>)
    ensures |hits| == |times| && forall i :: 0 <= i < |hits| ==> hits[i] == Hit(ip, times[i])
  {
    seq(|times|, i requires 0 <= i < |times| => Hit(ip, times[i]))
  }

  lemma {:induction false} TimesOfHitAll(ip: string, times: seq<int>)
    ensures TimesOf(HitAll(ip, times), ip) == times
  {
    if times != [] {
      assert HitAll(ip, times)[1..] == HitAll(ip, times[1..]);
      TimesOfHitAll(ip, times[1..]);
    }
  }

  /** For every limit some client is served that often in some closed minute. */
  lemma MinuteBoundIsReached(limit: nat, ip: string) returns (hits: seq<Hit>, a: int)
    requires limit > 0
    ensures Timely(hits) && ServedIn(map[], limit, hits, ip, a, a + MINUTE + 1) == 2 * limit - 1
  {
    var times;
    times, a := AnyIntervalIsTight(limit, MINUTE + 1);
    hits := HitAll(ip, times);
    TimesOfHitAll(ip, times);
    RunIsFixedWindow(map[], limit, hits, ip, a, a + MINUTE + 1);
  }
}
