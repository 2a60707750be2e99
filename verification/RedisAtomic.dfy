/**
 The counter if each pipeline were atomic: what the two-window weight would then achieve. Redis
 runs pipelined commands one by one, so these are the runs in which nothing comes between.
 */
module RedisAtomic {
  import opened RedisLimit
  import opened RedisRuns
  import opened Sequences
  import opened Wrappers

  predicate Nondecreasing(times: seq<nat>) {
    forall i, j :: 0 <= i < j < |times| ==> times[i] <= times[j]
  }

  /** Request `i` and its whole pipeline, at time `t`. */
  function Pipeline(i: nat, t: nat): seq<Step> {
    [Tick(t), Arrive, DoIncr(i), DoExpire(i), DoGet(i)]
  }

  /** The run of the requests made at the first `n` times. */
  function Pipelines(times: seq<nat>, n: nat): seq<Step>
    requires n <= |times|
  {
    if n == 0 then [] else Pipelines(times, n - 1) + Pipeline(n - 1, times[n - 1])
  }

  /** The first `n` requests that fall into window `w`. */
  function In(times: seq<nat>, n: nat, w: int, c: Config): set<nat>
    requires c.Valid() && n <= |times|
  {
    set i: nat | i < n && WindowAt(times[i], c) == w
  }

  /** When the last of them was made. */
  function LastIn(times: seq<nat>, n: nat, w: int, c: Config): nat
    requires c.Valid() && n <= |times|
  {
    if n == 0 then 0 else if WindowAt(times[n - 1], c) == w then times[n - 1] else LastIn(times, n - 1, w, c)
  }

  /** The count of window `w` that the next request finds at time `t`. */
  function Found(times: seq<nat>, n: nat, w: int, t: nat, c: Config): nat
    requires c.Valid() && n <= |times|
  {
    if In(times, n, w, c) != {} && t < LastIn(times, n, w, c) + c.ttl then |In(times, n, w, c)| else 0
  }

  function Served(times: seq<nat>, i: nat, c: Config): Req
    requires c.Valid() && i < |times|
  {
    var t := times[i];
    Done(t, |In(times, i, WindowAt(t, c), c)| + 1, Found(times, i, WindowAt(t, c) - 1, t, c))
  }

  predicate KeyMatches(db: Db, times: seq<nat>, n: nat, w: int, c: Config)
    requires c.Valid() && n <= |times|
  {
    var i := In(times, n, w, c);
    if i == {} then w !in db else w in db && db[w] == Cell(|i|, Some(LastIn(times, n, w, c) + c.ttl))
  }

  ghost predicate ServedAll(s: World, times: seq<nat>, n: nat, c: Config)
    requires c.Valid() && n <= |times|
  {
    && |s.reqs| == n && s.clock == (if n == 0 then 0 else times[n - 1])
    && (forall i :: 0 <= i < n ==> s.reqs[i] == Served(times, i, c))
    && forall w: int :: KeyMatches(s.db, times, n, w, c)
  }

  lemma InNext(times: seq<nat>, n: nat, w: int, c: Config)
    requires c.Valid() && n < |times|
    ensures In(times, n + 1, w, c) == In(times, n, w, c) + if WindowAt(times[n], c) == w then {n} else {}
    ensures |In(times, n + 1, w, c)| == |In(times, n, w, c)| + if WindowAt(times[n], c) == w then 1 else 0
  {
    assert In(times, n + 1, w, c) == In(times, n, w, c) + if WindowAt(times[n], c) == w then {n} else {};
  }

  lemma {:induction false} LastInIs(times: seq<nat>, n: nat, i: nat, c: Config)
    requires c.Valid() && i < n <= |times| && Nondecreasing(times)
    ensures var w := WindowAt(times[i], c);
            WindowAt(LastIn(times, n, w, c), c) == w && times[i] <= LastIn(times, n, w, c)
  {
    hide WindowAt;
    if WindowAt(times[n - 1], c) != WindowAt(times[i], c) {
      LastInIs(times, n - 1, i, c);
    }
  }

  /** What one whole pipeline makes of the world. */
  function After(s: World, t: nat, c: Config): World
    requires c.Valid()
  {
    var w := WindowAt(t, c);
    var db := Incr(s.db, w, t);
    World(t, db[w := db[w].(expires := Some(t + c.ttl))],
          s.reqs + [Done(t, db[w].count, Get(s.db, w - 1, t))],
          if Live(s.db, w, t) then s.lives else s.lives[w := Lives(s, w) + 1])
  }

  /** Each step on its own: it can be taken, is prompt, and leaves what it should. */
  lemma EachStep(s: World, t: nat, c: Config) returns (a: World, b: World, i: World, e: World)
    requires c.Valid() && s.clock <= t
    ensures var n := |s.reqs|;
            && Enabled(s, Tick(t)) && a == Next(s, Tick(t), c)
            && Enabled(a, Arrive) && b == Next(a, Arrive, c)
            && Enabled(b, DoIncr(n)) && PromptStep(b, DoIncr(n), c) && i == Next(b, DoIncr(n), c)
            && Enabled(i, DoExpire(n)) && e == Next(i, DoExpire(n), c)
            && Enabled(e, DoGet(n)) && After(s, t, c) == Next(e, DoGet(n), c)
  {
    var n, w := |s.reqs|, WindowAt(t, c);
    WindowSpans(t, c);
    hide WindowAt, EndOf;
    a := Next(s, Tick(t), c);
    b := Next(a, Arrive, c);
    assert b == World(t, s.db, s.reqs + [Sent(t)], s.lives);
    i := Next(b, DoIncr(n), c);
    var db := Incr(s.db, w, t);
    assert i == World(t, db, s.reqs + [Incred(t, db[w].count)],
                      if Live(s.db, w, t) then s.lives else s.lives[w := Lives(s, w) + 1]);
    e := Next(i, DoExpire(n), c);
    assert e == World(t, db[w := db[w].(expires := Some(t + c.ttl))], s.reqs + [Expired(t, db[w].count)], i.lives);
  }

  /** A prompt run that ends in `s`. */
  ghost predicate Leads(steps: seq<Step>, s: World, c: Config)
    requires c.Valid()
  {
    IsRun(START, steps, c) && Prompt(START, steps, c) && End(START, steps, c) == s
  }

  lemma LeadsOn(steps: seq<Step>, s: World, step: Step, c: Config)
    requires c.Valid() && Leads(steps, s, c) && Enabled(s, step) && PromptStep(s, step, c)
    ensures Leads(steps + [step], Next(s, step, c), c)
  {
    hide IsRun, Prompt, End, Next, Enabled, PromptStep;
    RunSnoc(START, steps, step, c);
  }

  lemma FiveSteps(steps: seq<Step>, s: World, t: nat, c: Config)
    requires c.Valid() && Leads(steps, s, c) && s.clock <= t
    ensures Leads(steps + Pipeline(|s.reqs|, t), After(s, t, c), c)
  {
    hide Leads, Next, After, Enabled;
    var n := |s.reqs|;
    var a, b, i, e := EachStep(s, t, c);
    LeadsOn(steps, s, Tick(t), c);
    LeadsOn(steps + [Tick(t)], a, Arrive, c);
    LeadsOn(steps + [Tick(t)] + [Arrive], b, DoIncr(n), c);
    LeadsOn(steps + [Tick(t)] + [Arrive] + [DoIncr(n)], i, DoExpire(n), c);
    LeadsOn(steps + [Tick(t)] + [Arrive] + [DoIncr(n)] + [DoExpire(n)], e, DoGet(n), c);
    assert steps + [Tick(t)] + [Arrive] + [DoIncr(n)] + [DoExpire(n)] + [DoGet(n)] == steps + Pipeline(n, t);
  }

  /** A window's key outlives its window, so a pipeline finds the key of its own window alive if it is there. */
  lemma OwnKeyLives(s: World, times: seq<nat>, n: nat, c: Config)
    requires c.Valid() && c.ttl >= c.width && n < |times| && Nondecreasing(times) && ServedAll(s, times, n, c)
    ensures var w := WindowAt(times[n], c); Live(s.db, w, times[n]) <==> In(times, n, w, c) != {}
  {
    var t := times[n];
    var w := WindowAt(t, c);
    WindowSpans(t, c);
    assert KeyMatches(s.db, times, n, w, c);
    if In(times, n, w, c) != {} {
      var i :| i in In(times, n, w, c);
      LastInIs(times, n, i, c);
      WindowSpans(LastIn(times, n, w, c), c);
    }
  }

  /** The number the next request is given. */
  function NumberOf(times: seq<nat>, n: nat, c: Config): nat
    requires c.Valid() && n < |times|
  {
    |In(times, n, WindowAt(times[n], c), c)| + 1
  }

  lemma NextNumber(s: World, times: seq<nat>, n: nat, c: Config)
    requires c.Valid() && c.ttl >= c.width && n < |times| && Nondecreasing(times) && ServedAll(s, times, n, c)
    ensures var t := times[n];
            var w := WindowAt(t, c);
            var s' := After(s, t, c);
            && s'.db == s.db[w := Cell(NumberOf(times, n, c), Some(t + c.ttl))]
            && s'.reqs == s.reqs + [Served(times, n, c)]
  {
    var t := times[n];
    var w := WindowAt(t, c);
    OwnKeyLives(s, times, n, c);
    assert KeyMatches(s.db, times, n, w, c) && KeyMatches(s.db, times, n, w - 1, c);
    assert Get(s.db, w - 1, t) == Found(times, n, w - 1, t, c);
    hide WindowAt, In, Found;
  }

  lemma KeyNext(db: Db, times: seq<nat>, n: nat, v: int, c: Config)
    requires c.Valid() && n < |times| && KeyMatches(db, times, n, v, c)
    ensures var w := WindowAt(times[n], c);
            KeyMatches(db[w := Cell(NumberOf(times, n, c), Some(times[n] + c.ttl))], times, n + 1, v, c)
  {
    var w := WindowAt(times[n], c);
    InNext(times, n, v, c);
    hide WindowAt, In;
    if v == w {
      assert n in In(times, n, v, c) + {n};
    } else {
      assert In(times, n, v, c) + {} == In(times, n, v, c);
    }
  }

  lemma ServedNext(s: World, times: seq<nat>, n: nat, c: Config)
    requires c.Valid() && c.ttl >= c.width && n < |times| && Nondecreasing(times) && ServedAll(s, times, n, c)
    ensures ServedAll(After(s, times[n], c), times, n + 1, c)
  {
    NextNumber(s, times, n, c);
    var s', m := After(s, times[n], c), n + 1;
    var db := s'.db;
    assert s'.clock == times[n];
    hide WindowAt, After, Served, KeyMatches, NumberOf;
    forall v: int ensures KeyMatches(db, times, m, v, c) {
      KeyNext(s.db, times, n, v, c);
    }
  }

  /** The world after a run of atomic pipelines: every request has its number and what it found. */
  lemma {:induction false} PipelinesServe(times: seq<nat>, n: nat, c: Config) returns (s: World)
    requires c.Valid() && c.ttl >= c.width && n <= |times| && Nondecreasing(times)
    ensures Leads(Pipelines(times, n), s, c) && ServedAll(s, times, n, c)
  {
    if n == 0 {
      NoSteps(c);
      s := START;
    } else {
      hide Leads, After;
      var before := PipelinesServe(times, n - 1, c);
      hide Served, KeyMatches;
      ServedNext(before, times, n - 1, c);
      assert |before.reqs| == n - 1 && before.clock <= times[n - 1];
      hide ServedAll;
      FiveSteps(Pipelines(times, n - 1), before, times[n - 1], c);
      s := After(before, times[n - 1], c);
    }
  }

  // ----- The bound -----

  /** The most requests granted in `[a, a + width)`: the later into its window `a` is, the more. */
  function AtomicMost(a: nat, c: Config): int
    requires c.Valid()
  {
    var x := a % c.width;
    if x == 0 then c.limit else c.limit + c.limit * (x - 1) / c.width
  }

  lemma ScaleUp(x: real, y: real, w: real)
    requires w > 0.0
    ensures x <= y <==> x * w <= y * w
  {
  }

  /** The weight without its division. */
  lemma GrantedExactly(r: Req, c: Config)
    requires c.Valid() && r.Done?
    ensures Granted(r, c) <==> r.prev * (c.width - r.at % c.width) + r.cur * c.width <= c.limit * c.width
  {
    var w, y, p := c.width as real, (r.at % c.width) as real, r.prev as real;
    var share := y / w;
    assert share * w == y;
    var weight := Weighted(c.width, r.at, r.prev, r.cur);
    assert weight == p * (1.0 - share) + r.cur as real;
    assert weight * w == p * (w - share * w) + r.cur as real * w;
    ScaleUp(weight, c.limit as real, w);
    assert p * (w - y) == (r.prev * (c.width - r.at % c.width)) as real;
    assert r.cur as real * w == (r.cur * c.width) as real;
    assert c.limit as real * w == (c.limit * c.width) as real;
  }

  /** A request of the next window that falls into the interval finds the whole count of this one. */
  lemma FindsAll(times: seq<nat>, i: nat, j: nat, a: nat, c: Config)
    requires c.Valid() && c.ttl >= c.width && i < |times| && j < |times| && Nondecreasing(times)
    requires WindowAt(times[j], c) == WindowAt(times[i], c) - 1 && a <= times[j] && times[i] < a + c.width
    ensures var w := WindowAt(times[j], c);
            j in In(times, i, w, c) && Found(times, i, w, times[i], c) == |In(times, i, w, c)|
  {
    WindowSpans(times[i], c);
    WindowSpans(times[j], c);
    assert EndOf(WindowAt(times[i], c), c) == EndOf(WindowAt(times[j], c), c) + c.width;
    hide WindowAt, EndOf;
    assert times[j] < times[i];
    assert j < i;
    LastInIs(times, i, j, c);
  }

  lemma EndsBefore(v: int, w: int, c: Config)
    requires c.Valid() && v < w
    ensures EndOf(v, c) <= EndOf(w, c) - c.width
  {
    assert EndOf(w, c) - c.width - EndOf(v, c) == (w - v - 1) * c.width;
  }

  /** All requests of an earlier window come before those of a later one. */
  lemma EarlierWindow(times: seq<nat>, i: nat, j: nat, c: Config)
    requires c.Valid() && i < |times| && j < |times| && Nondecreasing(times)
    requires WindowAt(times[j], c) < WindowAt(times[i], c)
    ensures j < i
  {
    WindowSpans(times[i], c);
    WindowSpans(times[j], c);
    hide WindowAt;
    EndsBefore(WindowAt(times[j], c), WindowAt(times[i], c), c);
    hide EndOf;
  }

  lemma OffsetIn(at: nat, w: int, c: Config)
    requires c.Valid() && WindowAt(at, c) == w
    ensures at % c.width == at - w * c.width
  {
  }

  /** The greatest element of a set of indices. */
  lemma {:induction false} Greatest(s: set<nat>) returns (m: nat)
    requires s != {}
    ensures m in s && forall i :: i in s ==> i <= m
    decreases |s|
  {
    var x :| x in s;
    if s == {x} {
      m := x;
    } else {
      var n := Greatest(s - {x});
      m := if x < n then n else x;
      forall i | i in s ensures i <= m {
        assert i == x || i in s - {x};
      }
    }
  }

  lemma MostIsEnough(a: nat, c: Config)
    requires c.Valid()
    ensures c.limit <= AtomicMost(a, c)
  {
    var x := a % c.width;
    if x > 0 {
      assert c.limit * (x - 1) >= 0;
    }
  }

  lemma Bigger(m: nat, n: nat, k: nat)
    requires m <= n
    ensures m * k <= n * k && k * m <= k * n
  {
  }

  lemma Quotient(q: int, n: nat, width: nat)
    requires width > 0 && q * width <= n
    ensures q <= n / width
  {
    if q > n / width {
      Bigger(n / width + 1, q, width);
    }
  }

  lemma AtMostMost(g1: nat, g2: nat, prev: nat, cur: nat, y: nat, x: nat, width: nat, limit: nat)
    requires g1 <= prev && g2 <= cur && g1 <= limit && y < x < width
    requires prev * (width - y) + cur * width <= limit * width
    ensures g1 + g2 <= limit + limit * (x - 1) / width
  {
    Bigger(g1, prev, width - y);
    Bigger(g2, cur, width);
    Bigger(y, x - 1, g1);
    Bigger(g1, limit, x - 1);
    assert g1 * (width - y) + g1 * y == g1 * width;
    assert (g1 + g2 - limit) * width == g1 * width + g2 * width - limit * width;
    Quotient(g1 + g2 - limit, limit * (x - 1), width);
  }

  lemma WithinMost(g1: nat, g2: nat, r: Req, a: nat, c: Config)
    requires c.Valid() && r.Done? && Granted(r, c)
    requires g1 <= r.prev && g2 <= r.cur && g1 <= c.limit && r.at % c.width < a % c.width
    ensures g1 + g2 <= AtomicMost(a, c)
  {
    GrantedExactly(r, c);
    hide Granted;
    AtMostMost(g1, g2, r.prev, r.cur, r.at % c.width, a % c.width, c.width, c.limit);
  }

  /** How far into its window a request of the interval's second window is. */
  lemma SecondWindow(t: nat, a: nat, c: Config)
    requires c.Valid() && EndOf(WindowAt(a, c), c) <= t < a + c.width
    ensures WindowAt(t, c) == WindowAt(a, c) + 1 && t % c.width < a % c.width
  {
    var w := WindowAt(a, c);
    WindowSpans(a, c);
    assert EndOf(w + 1, c) == EndOf(w, c) + c.width;
    WindowIs(t, w + 1, c);
    OffsetIn(t, w + 1, c);
    OffsetIn(a, w, c);
    assert (w + 1) * c.width == w * c.width + c.width;
  }

  /** The requests granted in an interval, by the window they fall into. */
  lemma TwoParts(s: World, a: nat, c: Config)
    requires c.Valid()
    ensures var e := EndOf(WindowAt(a, c), c);
            && |GrantedIn(s, a, a + c.width, c)| == |GrantedIn(s, a, e, c)| + |GrantedIn(s, e, a + c.width, c)|
            && GrantedIn(s, a, e, c) <= GrantedOf(s, WindowAt(a, c), c)
  {
    WindowSpans(a, c);
    hide WindowAt, EndOf, Granted;
    var e := EndOf(WindowAt(a, c), c);
    assert GrantedIn(s, a, a + c.width, c) == GrantedIn(s, a, e, c) + GrantedIn(s, e, a + c.width, c);
    assert GrantedIn(s, a, e, c) !! GrantedIn(s, e, a + c.width, c);
  }

  /** Requests of one window up to number `i` are no more than `i`'s own number. */
  lemma OwnNumber(times: seq<nat>, own: set<nat>, i: nat, c: Config)
    requires c.Valid() && i < |times|
    requires forall k :: k in own ==> k <= i && WindowAt(times[k], c) == WindowAt(times[i], c)
    ensures |own| <= |In(times, i, WindowAt(times[i], c), c)| + 1
  {
    var before := In(times, i, WindowAt(times[i], c), c);
    assert own <= before + {i};
    Fewer(own, before + {i});
  }

  /** Requests of the window before, from `a` on, are no more than what `i` found of it. */
  lemma EarlierNumber(times: seq<nat>, earlier: set<nat>, i: nat, a: nat, c: Config)
    requires c.Valid() && c.ttl >= c.width && i < |times| && Nondecreasing(times) && times[i] < a + c.width
    requires forall k :: k in earlier ==>
      k < |times| && a <= times[k] && WindowAt(times[k], c) == WindowAt(times[i], c) - 1
    ensures |earlier| <= Found(times, i, WindowAt(times[i], c) - 1, times[i], c)
  {
    hide WindowAt;
    if earlier != {} {
      var j :| j in earlier;
      FindsAll(times, i, j, a, c);
      forall k | k in earlier ensures k < i {
        EarlierWindow(times, i, k, c);
      }
      Fewer(earlier, In(times, i, WindowAt(times[j], c), c));
    }
  }

  lemma InFirstWindow(t: nat, a: nat, c: Config)
    requires c.Valid() && a <= t < EndOf(WindowAt(a, c), c)
    ensures WindowAt(t, c) == WindowAt(a, c)
  {
    WindowSpans(a, c);
    WindowIs(t, WindowAt(a, c), c);
  }

  /** Whatever is granted in the interval is numbered and timed as the times say. */
  lemma GrantedTimes(s: World, times: seq<nat>, a: int, b: int, j: nat, c: Config)
    requires c.Valid() && ServedAll(s, times, |times|, c) && j in GrantedIn(s, a, b, c)
    ensures j < |times| && s.reqs[j] == Served(times, j, c) && a <= times[j] < b
  {
    hide KeyMatches, Granted;
  }

  /** The last request granted in the second window has counted all those granted in either. */
  lemma LastCountsAll(s: World, times: seq<nat>, a: nat, i: nat, c: Config)
    requires c.Valid() && c.ttl >= c.width && Nondecreasing(times) && ServedAll(s, times, |times|, c)
    requires var second := GrantedIn(s, EndOf(WindowAt(a, c), c), a + c.width, c);
             i in second && forall j :: j in second ==> j <= i
    ensures var e := EndOf(WindowAt(a, c), c);
            && i < |s.reqs| && s.reqs[i].Done?
            && |GrantedIn(s, a, e, c)| <= s.reqs[i].prev && |GrantedIn(s, e, a + c.width, c)| <= s.reqs[i].cur
  {
    var e := EndOf(WindowAt(a, c), c);
    var first, second := GrantedIn(s, a, e, c), GrantedIn(s, e, a + c.width, c);
    hide GrantedIn, WindowAt, EndOf, ServedAll;
    forall j | j in first ensures j < |times| && a <= times[j] && WindowAt(times[j], c) == WindowAt(a, c) {
      GrantedTimes(s, times, a, e, j, c);
      InFirstWindow(times[j], a, c);
    }
    forall j | j in second ensures j < |times| && WindowAt(times[j], c) == WindowAt(a, c) + 1 {
      GrantedTimes(s, times, e, a + c.width, j, c);
      SecondWindow(times[j], a, c);
    }
    GrantedTimes(s, times, e, a + c.width, i, c);
    EarlierNumber(times, first, i, a, c);
    OwnNumber(times, second, i, c);
  }

  /**
   With atomic pipelines, an interval of a window's length that begins `x` into a window grants
   at most `limit + limit * (x - 1) / width`: what the weight of the window before leaves over.
   */
  lemma {:induction false} AtomicBound(times: seq<nat>, a: nat, c: Config)
    requires c.Valid() && c.ttl >= c.width && Nondecreasing(times)
    ensures var steps := Pipelines(times, |times|);
            && IsRun(START, steps, c)
            && |GrantedIn(End(START, steps, c), a, a + c.width, c)| <= AtomicMost(a, c)
  {
    var s := PipelinesServe(times, |times|, c);
    PromptRunsHoldKeys(Pipelines(times, |times|), WindowAt(a, c), a, c);
    hide IsRun, End, Prompt, WindowAt, EndOf, AtomicMost;
    var e := EndOf(WindowAt(a, c), c);
    TwoParts(s, a, c);
    MostIsEnough(a, c);
    var first, second := GrantedIn(s, a, e, c), GrantedIn(s, e, a + c.width, c);
    Fewer(first, GrantedOf(s, WindowAt(a, c), c));
    if second != {} {
      var i := Greatest(second);
      LastCountsAll(s, times, a, i, c);
      var r := s.reqs[i];
      SecondWindow(r.at, a, c);
      hide GrantedOf;
      WithinMost(|first|, |second|, r, a, c);
    }
  }

  // ----- The bound is reached -----

  lemma {:induction false} FirstNumbers(n: nat) returns (all: set<nat>)
    ensures |all| == n && forall i: nat :: i in all <==> i < n
  {
    var t := seq(n, i requires 0 <= i => i);
    DistinctElements(t);
    all := Elements(t);
    forall i: nat ensures i in all <==> i < n {
      assert i < n ==> t[i] == i;
    }
  }

  /** `limit` requests at `a`, and as many as fit at the last instant of the interval. */
  function Burst(a: nat, c: Config): (times: seq<nat>)
    requires c.Valid()
    ensures Nondecreasing(times) && |times| == AtomicMost(a, c)
    ensures forall i :: 0 <= i < |times| ==> times[i] == if i < c.limit then a else a + c.width - 1
  {
    MostIsEnough(a, c);
    Repeat(a, c.limit) + Repeat(a + c.width - 1, AtomicMost(a, c) - c.limit)
  }

  /** Of the requests before `i`, no more than `i` less the first `lo` are in a window that those are not in. */
  lemma FewIn(times: seq<nat>, i: nat, w: int, lo: nat, hi: nat, c: Config)
    requires c.Valid() && lo <= hi <= i <= |times|
    requires forall j :: 0 <= j < i && !(lo <= j < hi) ==> WindowAt(times[j], c) != w
    ensures |In(times, i, w, c)| <= hi - lo
  {
    hide WindowAt;
    var all := FirstNumbers(hi);
    var few := FirstNumbers(lo);
    assert few <= all;
    assert |all - few| == hi - lo;
    assert In(times, i, w, c) <= all - few;
    Fewer(In(times, i, w, c), all - few);
  }

  lemma FirstsGranted(a: nat, i: nat, c: Config)
    requires c.Valid() && i < c.limit
    ensures i < |Burst(a, c)| && Granted(Served(Burst(a, c), i, c), c)
  {
    MostIsEnough(a, c);
    var times := Burst(a, c);
    hide WindowAt, Granted;
    FewIn(times, i, WindowAt(a, c), 0, i, c);
    FewIn(times, i, WindowAt(a, c) - 1, i, i, c);
    GrantNeedsLow(Served(times, i, c), c);
  }

  lemma QuotientTimes(n: nat, width: nat)
    requires width > 0
    ensures n / width * width <= n
  {
  }

  /** The products behind the second burst. */
  lemma FitsUnder(limit: nat, y: nat, width: nat, cur: nat, prev: nat, q: nat)
    requires y <= width && prev <= limit && cur <= q && q * width <= limit * y
    ensures prev * (width - y) + cur * width <= limit * width
  {
    Bigger(prev, limit, width - y);
    Bigger(cur, q, width);
    assert limit * (width - y) + limit * y == limit * width;
  }

  lemma LastInstant(a: nat, c: Config)
    requires c.Valid() && a % c.width > 0
    ensures var t := a + c.width - 1; WindowAt(t, c) == WindowAt(a, c) + 1 && t % c.width == a % c.width - 1
  {
    var t := a + c.width - 1;
    WindowSpans(a, c);
    OffsetIn(a, WindowAt(a, c), c);
    assert EndOf(WindowAt(a, c), c) == WindowAt(a, c) * c.width + c.width;
    SecondWindow(t, a, c);
    OffsetIn(t, WindowAt(a, c) + 1, c);
    assert (WindowAt(a, c) + 1) * c.width == WindowAt(a, c) * c.width + c.width;
  }

  lemma SecondsGranted(a: nat, i: nat, c: Config)
    requires c.Valid() && c.limit <= i < AtomicMost(a, c)
    ensures Granted(Served(Burst(a, c), i, c), c)
  {
    var times, x := Burst(a, c), a % c.width;
    var w := WindowAt(a, c);
    LastInstant(a, c);
    hide WindowAt, Granted;
    FewIn(times, i, w, 0, c.limit, c);
    FewIn(times, i, w + 1, c.limit, i, c);
    var r := Served(times, i, c);
    QuotientTimes(c.limit * (x - 1), c.width);
    FitsUnder(c.limit, x - 1, c.width, r.cur, r.prev, AtomicMost(a, c) - c.limit);
    GrantedExactly(r, c);
  }

  lemma ServedAt(times: seq<nat>, i: nat, c: Config)
    requires c.Valid() && i < |times|
    ensures Served(times, i, c).at == times[i]
  {
  }

  /** For every limit, width and lifetime, and wherever the interval begins, some such run reaches that bound. */
  lemma AtomicBoundIsReached(a: nat, c: Config) returns (times: seq<nat>)
    requires c.Valid() && c.ttl >= c.width
    ensures var steps := Pipelines(times, |times|);
            && Nondecreasing(times) && IsRun(START, steps, c)
            && |GrantedIn(End(START, steps, c), a, a + c.width, c)| == AtomicMost(a, c)
  {
    times := Burst(a, c);
    var s := PipelinesServe(times, |times|, c);
    hide IsRun, End, Prompt, Served, Granted, KeyMatches, AtomicMost;
    forall i | 0 <= i < |times| ensures Granted(s.reqs[i], c) {
      if i < c.limit {
        FirstsGranted(a, i, c);
      } else {
        SecondsGranted(a, i, c);
      }
    }
    forall i | 0 <= i < |times| ensures a <= s.reqs[i].at < a + c.width {
      ServedAt(times, i, c);
    }
    EveryGranted(s, a, a + c.width, c);
  }
}
