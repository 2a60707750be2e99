/** Any number of gateway instances against one Redis, command by command. */
module RedisRuns {
  import opened RedisLimit
  import opened Sequences
  import opened Wrappers

  /** How far a request's pipeline has come; `at` is the clock when the request was made. */
  datatype Req =
    | Sent(at: nat)
    | Incred(at: nat, cur: nat)
    | Expired(at: nat, cur: nat)
    | Done(at: nat, cur: nat, prev: nat)
  {
    predicate Counted() {
      !Sent?
    }
  }

  datatype Config = Config(limit: int, width: nat, ttl: nat)
  {
    predicate Valid() {
      limit > 0 && width > 0
    }
  }

  /** `lives[w]` is how often the key of window `w` has been created: once, and again each time it had expired. */
  datatype World = World(clock: nat, db: Db, reqs: seq<Req>, lives: map<int, nat>)

  const START := World(0, map[], [], map[])

  datatype Step = Tick(to: nat) | Arrive | DoIncr(i: nat) | DoExpire(i: nat) | DoGet(i: nat)

  predicate Enabled(s: World, step: Step) {
    match step
    case Tick(to) => s.clock <= to
    case Arrive => true
    case DoIncr(i) => i < |s.reqs| && s.reqs[i].Sent?
    case DoExpire(i) => i < |s.reqs| && s.reqs[i].Incred?
    case DoGet(i) => i < |s.reqs| && s.reqs[i].Expired?
  }

  function WindowAt(at: nat, c: Config): int
    requires c.Valid()
  {
    at / c.width
  }

  function WindowOf(r: Req, c: Config): int
    requires c.Valid()
  {
    WindowAt(r.at, c)
  }

  /** When window `w` is over. */
  function EndOf(w: int, c: Config): int {
    (w + 1) * c.width
  }

  function Lives(s: World, w: int): nat {
    if w in s.lives then s.lives[w] else 0
  }

  function Next(s: World, step: Step, c: Config): World
    requires c.Valid() && Enabled(s, step)
  {
    match step
    case Tick(to) => s.(clock := to)
    case Arrive => s.(reqs := s.reqs + [Sent(s.clock)])
    case DoIncr(i) =>
      var r := s.reqs[i];
      var w := WindowOf(r, c);
      var db := Incr(s.db, w, s.clock);
      s.(db := db, reqs := s.reqs[i := Incred(r.at, db[w].count)],
         lives := if Live(s.db, w, s.clock) then s.lives else s.lives[w := Lives(s, w) + 1])
    case DoExpire(i) =>
      var r := s.reqs[i];
      s.(db := Expire(s.db, WindowOf(r, c), s.clock, c.ttl), reqs := s.reqs[i := Expired(r.at, r.cur)])
    case DoGet(i) =>
      var r := s.reqs[i];
      s.(reqs := s.reqs[i := Done(r.at, r.cur, Get(s.db, WindowOf(r, c) - 1, s.clock))])
  }

  /** The runs of the system: any interleaving, any delays. */
  ghost predicate IsRun(s: World, steps: seq<Step>, c: Config)
    requires c.Valid()
    decreases |steps|
  {
    steps != [] ==> Enabled(s, steps[0]) && IsRun(Next(s, steps[0], c), steps[1..], c)
  }

  function End(s: World, steps: seq<Step>, c: Config): World
    requires c.Valid() && IsRun(s, steps, c)
    decreases |steps|
  {
    if steps == [] then s else End(Next(s, steps[0], c), steps[1..], c)
  }

  predicate Granted(r: Req, c: Config)
    requires c.Valid()
  {
    r.Done? && Decide(c.limit, c.width, r.at, r.prev, r.cur).allowed
  }

  // ----- Low numbers -----

  /** The requests of window `w` that were numbered at most `m`. */
  function Low(reqs: seq<Req>, w: int, m: nat, c: Config): set<nat>
    requires c.Valid()
  {
    set i: nat | i < |reqs| && reqs[i].Counted() && WindowOf(reqs[i], c) == w && reqs[i].cur <= m
  }

  function Min(a: nat, b: nat): nat {
    if a < b then a else b
  }

  function CountOf(db: Db, w: int): nat {
    if w in db then db[w].count else 0
  }

  /** Each life of a key gives every number at most once; its first life gives them without a gap. */
  ghost predicate LowOk(s: World, w: int, m: nat, c: Config)
    requires c.Valid()
  {
    var n, lives := |Low(s.reqs, w, m, c)|, Lives(s, w);
    && (w in s.db <==> lives > 0)
    && (lives <= 1 ==> n == Min(m, CountOf(s.db, w)))
    && (lives > 0 ==> n <= (lives - 1) * m + Min(m, CountOf(s.db, w)))
  }

  lemma LowIncr(reqs: seq<Req>, i: nat, cur: nat, w: int, m: nat, c: Config)
    requires c.Valid() && i < |reqs| && reqs[i].Sent?
    ensures |Low(reqs[i := Incred(reqs[i].at, cur)], w, m, c)|
            == |Low(reqs, w, m, c)| + if WindowOf(reqs[i], c) == w && cur <= m then 1 else 0
  {
    hide WindowAt;
    var low, low' := Low(reqs, w, m, c), Low(reqs[i := Incred(reqs[i].at, cur)], w, m, c);
    assert low' == if WindowOf(reqs[i], c) == w && cur <= m then low + {i} else low;
  }

  lemma LowSame(reqs: seq<Req>, reqs': seq<Req>, w: int, m: nat, c: Config)
    requires c.Valid() && |reqs| <= |reqs'|
    requires forall i :: 0 <= i < |reqs| ==>
      reqs'[i].Counted() == reqs[i].Counted() && reqs'[i].at == reqs[i].at
      && (reqs[i].Counted() ==> reqs'[i].cur == reqs[i].cur)
    requires forall i :: |reqs| <= i < |reqs'| ==> !reqs'[i].Counted()
    ensures Low(reqs', w, m, c) == Low(reqs, w, m, c)
  {
    hide WindowAt;
  }

  lemma LowNext(s: World, step: Step, w: int, m: nat, c: Config)
    requires c.Valid() && Enabled(s, step) && LowOk(s, w, m, c)
    ensures LowOk(Next(s, step, c), w, m, c)
  {
    hide WindowAt, Low;
    var s' := Next(s, step, c);
    match step
    case Tick(_) =>
    case DoIncr(i) =>
      LowIncr(s.reqs, i, s'.reqs[i].cur, w, m, c);
      if WindowOf(s.reqs[i], c) == w && !Live(s.db, w, s.clock) && Lives(s, w) > 0 {
        assert (Lives(s, w) - 1) * m + m == Lives(s, w) * m;
      }
    case _ => LowSame(s.reqs, s'.reqs, w, m, c);
  }

  lemma {:induction false} LowRun(s: World, steps: seq<Step>, w: int, m: nat, c: Config)
    requires c.Valid() && IsRun(s, steps, c) && LowOk(s, w, m, c)
    ensures LowOk(End(s, steps, c), w, m, c)
    decreases |steps|
  {
    hide LowOk, Next;
    if steps != [] {
      LowNext(s, steps[0], w, m, c);
      LowRun(Next(s, steps[0], c), steps[1..], w, m, c);
    }
  }

  lemma LowAtEnd(steps: seq<Step>, w: int, m: nat, c: Config)
    requires c.Valid() && IsRun(START, steps, c)
    ensures LowOk(End(START, steps, c), w, m, c)
  {
    assert Low([], w, m, c) == {};
    hide IsRun, End;
    LowRun(START, steps, w, m, c);
  }

  // ----- How much is granted -----

  /** The requests made in `[a, b)` that have been granted. */
  function GrantedIn(s: World, a: int, b: int, c: Config): set<nat>
    requires c.Valid()
  {
    set i: nat | i < |s.reqs| && Granted(s.reqs[i], c) && a <= s.reqs[i].at < b
  }

  function GrantedOf(s: World, w: int, c: Config): set<nat>
    requires c.Valid()
  {
    GrantedIn(s, EndOf(w, c) - c.width, EndOf(w, c), c)
  }

  lemma FractionBelowOne(x: real, y: real)
    requires 0.0 <= x <= y && y > 0.0
    ensures x / y <= 1.0
  {
  }

  lemma ProductIsNonnegative(x: real, y: real)
    requires 0.0 <= x && 0.0 <= y
    ensures x * y >= 0.0
  {
  }

  /** An earlier window can only add to the weight. */
  lemma WeightedAtLeast(width: nat, at: nat, prev: nat, cur: nat)
    requires width > 0
    ensures Weighted(width, at, prev, cur) >= cur as real
    ensures prev == 0 ==> Weighted(width, at, prev, cur) == cur as real
  {
    var share := (at % width) as real / width as real;
    FractionBelowOne((at % width) as real, width as real);
    ProductIsNonnegative(prev as real, 1.0 - share);
  }

  lemma GrantNeedsLow(r: Req, c: Config)
    requires c.Valid() && r.Done?
    ensures Granted(r, c) ==> r.cur <= c.limit
    ensures r.prev == 0 ==> (Granted(r, c) <==> r.cur <= c.limit)
  {
    WeightedAtLeast(c.width, r.at, r.prev, r.cur);
    hide Weighted;
  }

  lemma WindowSpans(at: nat, c: Config)
    requires c.Valid()
    ensures EndOf(WindowAt(at, c), c) - c.width <= at < EndOf(WindowAt(at, c), c)
  {
    assert EndOf(WindowAt(at, c), c) == at / c.width * c.width + c.width;
  }

  lemma SameMultiple(v: int, w: int, width: nat, at: int)
    requires width > 0
    requires v * width <= at < (v + 1) * width && w * width <= at < (w + 1) * width
    ensures v == w
  {
  }

  lemma WindowIs(at: nat, w: int, c: Config)
    requires c.Valid()
    ensures WindowAt(at, c) == w <==> EndOf(w, c) - c.width <= at < EndOf(w, c)
  {
    WindowSpans(at, c);
    if EndOf(w, c) - c.width <= at < EndOf(w, c) {
      SameMultiple(at / c.width, w, c.width, at);
    }
  }

  /** Every request of window `w` is answered, and none saw a count from the window before. */
  predicate AnsweredAlone(reqs: seq<Req>, w: int, c: Config)
    requires c.Valid()
  {
    forall i :: 0 <= i < |reqs| && WindowOf(reqs[i], c) == w ==> reqs[i].Done? && reqs[i].prev == 0
  }

  /** Granted requests have low numbers; with no earlier count, low numbers are granted. */
  lemma GrantedAreLow(s: World, w: int, c: Config)
    requires c.Valid()
    ensures GrantedOf(s, w, c) <= Low(s.reqs, w, c.limit, c)
    ensures AnsweredAlone(s.reqs, w, c) ==> GrantedOf(s, w, c) == Low(s.reqs, w, c.limit, c)
  {
    forall i: nat | i < |s.reqs|
      ensures i in GrantedOf(s, w, c) ==> i in Low(s.reqs, w, c.limit, c)
      ensures AnsweredAlone(s.reqs, w, c) && i in Low(s.reqs, w, c.limit, c) ==> i in GrantedOf(s, w, c)
    {
      var r := s.reqs[i];
      if r.Done? {
        GrantNeedsLow(r, c);
      }
      WindowIs(r.at, w, c);
      hide WindowAt, EndOf, Granted;
      assert WindowOf(r, c) == w <==> EndOf(w, c) - c.width <= r.at < EndOf(w, c);
    }
  }

  lemma {:induction false} LivesTimes(lives: nat, limit: nat)
    ensures lives > 0 ==> (lives - 1) * limit + limit == lives * limit
    ensures lives <= 1 ==> lives * limit <= limit
  {
  }

  /**
   Whatever the number of instances, however their commands interleave and however long keys
   are kept: each life of a window's key grants at most `limit` of the window's requests.
   */
  lemma {:induction false} LivesBound(steps: seq<Step>, w: int, c: Config)
    requires c.Valid() && IsRun(START, steps, c)
    ensures var s := End(START, steps, c); |GrantedOf(s, w, c)| <= Lives(s, w) * c.limit
  {
    LowAtEnd(steps, w, c.limit, c);
    var s := End(START, steps, c);
    GrantedAreLow(s, w, c);
    hide IsRun, End, GrantedOf, Low;
    Fewer(GrantedOf(s, w, c), Low(s.reqs, w, c.limit, c));
    LivesTimes(Lives(s, w), c.limit);
  }

  /** No increment of window `w` has found the window's key expired. */
  predicate KeyHeld(s: World, w: int) {
    Lives(s, w) <= 1
  }

  /** So at most `limit` requests are granted in any window whose key no increment found expired. */
  lemma {:induction false} WindowBound(steps: seq<Step>, w: int, c: Config)
    requires c.Valid() && IsRun(START, steps, c) && KeyHeld(End(START, steps, c), w)
    ensures |GrantedOf(End(START, steps, c), w, c)| <= c.limit
  {
    LivesBound(steps, w, c);
    LivesTimes(Lives(End(START, steps, c), w), c.limit);
  }

  /** And at most `2 * limit` in any half-open interval as long as a window. */
  lemma {:induction false} IntervalBound(steps: seq<Step>, a: nat, c: Config)
    requires c.Valid() && IsRun(START, steps, c)
    requires var s, w := End(START, steps, c), WindowAt(a, c); KeyHeld(s, w) && KeyHeld(s, w + 1)
    ensures |GrantedIn(End(START, steps, c), a, a + c.width, c)| <= 2 * c.limit
  {
    var s, w := End(START, steps, c), WindowAt(a, c);
    WindowSpans(a, c);
    assert EndOf(w + 1, c) == EndOf(w, c) + c.width;
    WindowBound(steps, w, c);
    WindowBound(steps, w + 1, c);
    hide WindowAt, EndOf, Granted, IsRun, End;
    var all := GrantedIn(s, a, a + c.width, c);
    assert all <= GrantedOf(s, w, c) + GrantedOf(s, w + 1, c);
    Fewer(all, GrantedOf(s, w, c) + GrantedOf(s, w + 1, c));
  }

  /**
   Once every request of such a window is answered and none saw an earlier window's count,
   exactly the first `limit` increments were granted: no more and no fewer.
   */
  lemma {:induction false} IdleWindowGrantsLimit(steps: seq<Step>, w: int, c: Config)
    requires c.Valid() && IsRun(START, steps, c) && KeyHeld(End(START, steps, c), w)
    requires AnsweredAlone(End(START, steps, c).reqs, w, c)
    ensures var s := End(START, steps, c); |GrantedOf(s, w, c)| == Min(c.limit, CountOf(s.db, w))
  {
    LowAtEnd(steps, w, c.limit, c);
    GrantedAreLow(End(START, steps, c), w, c);
  }

  // ----- When keys are held -----

  /** No counter is incremented after its own window is over. */
  predicate PromptStep(s: World, step: Step, c: Config)
    requires c.Valid() && Enabled(s, step)
  {
    step.DoIncr? ==> s.clock < EndOf(WindowOf(s.reqs[step.i], c), c)
  }

  ghost predicate Prompt(s: World, steps: seq<Step>, c: Config)
    requires c.Valid() && IsRun(s, steps, c)
    decreases |steps|
  {
    steps != [] ==> PromptStep(s, steps[0], c) && Prompt(Next(s, steps[0], c), steps[1..], c)
  }

  /** A key, once created, outlasts its window. */
  ghost predicate KeysLast(s: World, c: Config)
    requires c.Valid()
  {
    && (forall i :: 0 <= i < |s.reqs| ==> s.reqs[i].at <= s.clock)
    && (forall w :: w in s.db && s.db[w].expires.Some? ==> EndOf(w, c) <= s.db[w].expires.value)
    && (forall w :: w in s.db <==> Lives(s, w) > 0)
    && (forall w :: Lives(s, w) <= 1)
  }

  lemma KeysLastNext(s: World, step: Step, c: Config)
    requires c.Valid() && c.ttl >= c.width && Enabled(s, step) && KeysLast(s, c)
    requires PromptStep(s, step, c)
    ensures KeysLast(Next(s, step, c), c)
  {
    if step.DoExpire? {
      WindowSpans(s.reqs[step.i].at, c);
    }
    hide WindowAt, EndOf;
    var s' := Next(s, step, c);
    if step.DoIncr? {
      var v := WindowOf(s.reqs[step.i], c);
      assert v in s.db ==> Live(s.db, v, s.clock);
      assert !Live(s.db, v, s.clock) ==> Lives(s, v) == 0;
      assert forall w :: w != v ==> Lives(s', w) == Lives(s, w);
    } else {
      assert s'.lives == s.lives && forall w :: Lives(s', w) == Lives(s, w);
    }
  }

  lemma {:induction false} KeysLastRun(s: World, steps: seq<Step>, c: Config)
    requires c.Valid() && c.ttl >= c.width && IsRun(s, steps, c) && Prompt(s, steps, c) && KeysLast(s, c)
    ensures KeysLast(End(s, steps, c), c)
    decreases |steps|
  {
    hide KeysLast, Next;
    if steps != [] {
      KeysLastNext(s, steps[0], c);
      KeysLastRun(Next(s, steps[0], c), steps[1..], c);
    }
  }

  /** Keys are held, and both bounds hold, if they are kept for a window and increments arrive within theirs. */
  lemma {:induction false} PromptRunsHoldKeys(steps: seq<Step>, w: int, a: nat, c: Config)
    requires c.Valid() && c.ttl >= c.width && IsRun(START, steps, c) && Prompt(START, steps, c)
    ensures var s := End(START, steps, c);
            && KeyHeld(s, w) && |GrantedOf(s, w, c)| <= c.limit
            && |GrantedIn(s, a, a + c.width, c)| <= 2 * c.limit
  {
    KeysLastRun(START, steps, c);
    hide IsRun, Prompt, End, GrantedOf, GrantedIn;
    WindowBound(steps, w, c);
    IntervalBound(steps, a, c);
  }

  // ----- Runs that reach the bounds -----

  lemma {:induction false} RunSnoc(s: World, steps: seq<Step>, step: Step, c: Config)
    requires c.Valid() && IsRun(s, steps, c) && Enabled(End(s, steps, c), step)
    ensures IsRun(s, steps + [step], c) && End(s, steps + [step], c) == Next(End(s, steps, c), step, c)
    ensures Prompt(s, steps + [step], c) <==> Prompt(s, steps, c) && PromptStep(End(s, steps, c), step, c)
    decreases |steps|
  {
    if steps == [] {
      assert steps + [step] == [step] && [step][1..] == [];
      assert IsRun(Next(s, step, c), [], c) && Prompt(Next(s, step, c), [], c);
    } else {
      assert (steps + [step])[1..] == steps[1..] + [step];
      RunSnoc(Next(s, steps[0], c), steps[1..], step, c);
    }
  }

  lemma NoSteps(c: Config)
    requires c.Valid()
    ensures IsRun(START, [], c) && End(START, [], c) == START && Prompt(START, [], c)
  {
  }

  lemma Then(steps: seq<Step>, step: Step, c: Config) returns (longer: seq<Step>)
    requires c.Valid() && IsRun(START, steps, c) && Enabled(End(START, steps, c), step)
    ensures IsRun(START, longer, c) && End(START, longer, c) == Next(End(START, steps, c), step, c)
    ensures Prompt(START, longer, c) <==> Prompt(START, steps, c) && PromptStep(End(START, steps, c), step, c)
  {
    longer := steps + [step];
    RunSnoc(START, steps, step, c);
  }

  /** `s'` is `s` but for the requests numbered `from` up to `from + n`. */
  predicate OthersSame(s: World, s': World, from: nat, n: nat) {
    && |s'.reqs| == |s.reqs| && s'.clock == s.clock && from + n <= |s.reqs|
    && forall j :: 0 <= j < |s.reqs| && !(from <= j < from + n) ==> s'.reqs[j] == s.reqs[j]
  }

  lemma {:induction false} Arrivals(steps: seq<Step>, n: nat, c: Config) returns (longer: seq<Step>)
    requires c.Valid() && IsRun(START, steps, c)
    ensures IsRun(START, longer, c) && (Prompt(START, longer, c) <==> Prompt(START, steps, c))
    ensures var s := End(START, steps, c);
            End(START, longer, c) == s.(reqs := s.reqs + Repeat(Sent(s.clock), n))
    decreases n
  {
    hide IsRun, End, Prompt;
    var s := End(START, steps, c);
    if n == 0 {
      longer := steps;
      assert s.reqs + Repeat(Sent(s.clock), 0) == s.reqs;
    } else {
      var before := Arrivals(steps, n - 1, c);
      longer := Then(before, Arrive, c);
      assert Repeat(Sent(s.clock), n - 1) + [Sent(s.clock)] == Repeat(Sent(s.clock), n);
    }
  }

  /** Increments on a key that is not there give the numbers from 1 on, in one life. */
  lemma {:induction false} Increments(steps: seq<Step>, from: nat, n: nat, w: int, c: Config)
      returns (longer: seq<Step>)
    requires c.Valid() && IsRun(START, steps, c) && n > 0
    requires var s := End(START, steps, c);
             && from + n <= |s.reqs| && !Live(s.db, w, s.clock)
             && forall j :: from <= j < from + n ==> s.reqs[j].Sent? && WindowOf(s.reqs[j], c) == w
    ensures IsRun(START, longer, c)
    ensures End(START, steps, c).clock < EndOf(w, c) && Prompt(START, steps, c) ==> Prompt(START, longer, c)
    ensures var s, s' := End(START, steps, c), End(START, longer, c);
            && OthersSame(s, s', from, n)
            && (forall j :: from <= j < from + n ==> s'.reqs[j] == Incred(s.reqs[j].at, j - from + 1))
            && s'.db == s.db[w := Cell(n, None)] && s'.lives == s.lives[w := Lives(s, w) + 1]
    decreases n
  {
    hide IsRun, End, Prompt, WindowAt, EndOf;
    var before := steps;
    if n > 1 {
      before := Increments(steps, from, n - 1, w, c);
    }
    longer := Then(before, DoIncr(from + n - 1), c);
  }

  lemma {:induction false} Expiries(steps: seq<Step>, from: nat, n: nat, w: int, c: Config) returns (longer: seq<Step>)
    requires c.Valid() && IsRun(START, steps, c) && n > 0
    requires var s := End(START, steps, c);
             && from + n <= |s.reqs| && Live(s.db, w, s.clock)
             && forall j :: from <= j < from + n ==> s.reqs[j].Incred? && WindowOf(s.reqs[j], c) == w
    ensures IsRun(START, longer, c) && (Prompt(START, longer, c) <==> Prompt(START, steps, c))
    ensures var s, s' := End(START, steps, c), End(START, longer, c);
            && OthersSame(s, s', from, n) && s'.lives == s.lives
            && (forall j :: from <= j < from + n ==> s'.reqs[j] == Expired(s.reqs[j].at, s.reqs[j].cur))
            && s'.db == s.db[w := s.db[w].(expires := Some(s.clock + c.ttl))]
    decreases n
  {
    hide IsRun, End, Prompt, WindowAt;
    var before := steps;
    if n > 1 {
      before := Expiries(steps, from, n - 1, w, c);
    }
    longer := Then(before, DoExpire(from + n - 1), c);
  }

  lemma {:induction false} Answers(steps: seq<Step>, from: nat, n: nat, w: int, c: Config) returns (longer: seq<Step>)
    requires c.Valid() && IsRun(START, steps, c)
    requires var s := End(START, steps, c);
             && from + n <= |s.reqs| && Get(s.db, w - 1, s.clock) == 0
             && forall j :: from <= j < from + n ==> s.reqs[j].Expired? && WindowOf(s.reqs[j], c) == w
    ensures IsRun(START, longer, c) && (Prompt(START, longer, c) <==> Prompt(START, steps, c))
    ensures var s, s' := End(START, steps, c), End(START, longer, c);
            && OthersSame(s, s', from, n) && s'.lives == s.lives && s'.db == s.db
            && (forall j :: from <= j < from + n ==> s'.reqs[j] == Done(s.reqs[j].at, s.reqs[j].cur, 0))
    decreases n
  {
    hide IsRun, End, Prompt, WindowAt;
    longer := steps;
    if n > 0 {
      var before := Answers(steps, from, n - 1, w, c);
      longer := Then(before, DoGet(from + n - 1), c);
    }
  }

  /** A life of window `w`'s key, from creation to expiry time set, that serves `n` requests. */
  lemma Life(steps: seq<Step>, from: nat, n: nat, w: int, c: Config) returns (longer: seq<Step>)
    requires c.Valid() && IsRun(START, steps, c) && 0 < n <= c.limit
    requires var s := End(START, steps, c);
             && from + n <= |s.reqs| && !Live(s.db, w, s.clock) && Get(s.db, w - 1, s.clock) == 0
             && forall j :: from <= j < from + n ==> s.reqs[j].Sent? && WindowOf(s.reqs[j], c) == w
    ensures IsRun(START, longer, c)
    ensures End(START, steps, c).clock < EndOf(w, c) && Prompt(START, steps, c) ==> Prompt(START, longer, c)
    ensures var s, s' := End(START, steps, c), End(START, longer, c);
            && OthersSame(s, s', from, n)
            && (forall j :: from <= j < from + n ==> s'.reqs[j] == Done(s.reqs[j].at, j - from + 1, 0))
            && s'.db == s.db[w := Cell(n, Some(s.clock + c.ttl))] && s'.lives == s.lives[w := Lives(s, w) + 1]
  {
    hide IsRun, End, Prompt, WindowAt, EndOf;
    var counted := Increments(steps, from, n, w, c);
    var expiring := Expiries(counted, from, n, w, c);
    longer := Answers(expiring, from, n, w, c);
  }

  lemma EveryGranted(s: World, a: int, b: int, c: Config)
    requires c.Valid()
    requires forall i :: 0 <= i < |s.reqs| ==> Granted(s.reqs[i], c) && a <= s.reqs[i].at < b
    ensures |GrantedIn(s, a, b, c)| == |s.reqs|
  {
    hide Granted;
    var all := seq(|s.reqs|, i => i);
    forall i: nat ensures i in GrantedIn(s, a, b, c) <==> i in all {
      assert i < |all| ==> all[i] == i;
    }
    assert GrantedIn(s, a, b, c) == Elements(all);
    DistinctElements(all);
  }

  lemma AllGranted(s: World, a: int, b: int, c: Config)
    requires c.Valid()
    requires forall r :: r in s.reqs ==> r.Done? && r.prev == 0 && r.cur <= c.limit && a <= r.at < b
    ensures |GrantedIn(s, a, b, c)| == |s.reqs|
  {
    forall i | 0 <= i < |s.reqs| ensures Granted(s.reqs[i], c) {
      GrantNeedsLow(s.reqs[i], c);
    }
    hide Granted;
    EveryGranted(s, a, b, c);
  }

  /** `lives` lives of window 0's key have each granted `limit` of the `total` requests made at time 0. */
  lemma {:induction false} ManyLives(lives: nat, total: nat, c: Config) returns (steps: seq<Step>)
    requires c.Valid() && lives * c.limit <= total
    ensures IsRun(START, steps, c)
    ensures var s := End(START, steps, c);
            && |s.reqs| == total && Lives(s, 0) == lives && -1 !in s.db && !Live(s.db, 0, s.clock)
            && (forall j :: 0 <= j < lives * c.limit ==>
                  s.reqs[j].Done? && s.reqs[j].prev == 0 && s.reqs[j].cur <= c.limit && s.reqs[j].at == 0)
            && (forall j :: lives * c.limit <= j < total ==> s.reqs[j] == Sent(0))
    decreases lives
  {
    hide IsRun, End;
    if lives == 0 {
      NoSteps(c);
      steps := Arrivals([], total, c);
    } else {
      assert lives * c.limit == (lives - 1) * c.limit + c.limit;
      assert WindowAt(0, c) == 0;
      steps := ManyLives(lives - 1, total, c);
      steps := Life(steps, (lives - 1) * c.limit, c.limit, 0, c);
      steps := Then(steps, Tick(End(START, steps, c).clock + c.ttl), c);
    }
  }

  /**
   The bound by lives is reached: for every lifetime of keys and every number of lives, some
   run grants `limit` requests of one window in each. An increment that arrives once its
   window's key has expired is all it takes.
   */
  lemma LateIncrementsOvergrant(lives: nat, c: Config) returns (steps: seq<Step>)
    requires c.Valid()
    ensures IsRun(START, steps, c)
    ensures var s := End(START, steps, c); Lives(s, 0) == lives && |GrantedOf(s, 0, c)| == lives * c.limit
  {
    steps := ManyLives(lives, lives * c.limit, c);
    hide IsRun, End;
    AllGranted(End(START, steps, c), 0, c.width, c);
  }

  /**
   Promptness does not help keys kept for less than their window: for any such lifetime some
   prompt run grants `limit + 1` requests in one window.
   */
  lemma ShortLivedKeysOvergrant(c: Config) returns (steps: seq<Step>)
    requires c.Valid() && c.ttl < c.width
    ensures IsRun(START, steps, c) && Prompt(START, steps, c)
    ensures |GrantedOf(End(START, steps, c), 0, c)| == c.limit + 1
  {
    hide IsRun, End, Prompt;
    NoSteps(c);
    assert WindowAt(0, c) == 0 && WindowAt(c.ttl, c) == 0;
    steps := Arrivals([], c.limit, c);
    steps := Life(steps, 0, c.limit, 0, c);
    steps := Then(steps, Tick(c.ttl), c);
    steps := Arrivals(steps, 1, c);
    steps := Life(steps, c.limit, 1, 0, c);
    AllGranted(End(START, steps, c), 0, c.width, c);
  }

  /**
   The interval bound is reached too, whatever the lifetime and with every increment prompt and
   every key held: `limit` requests at the end of one window and `limit` at the start of the
   next, whose GETs are answered only after the first window's key has expired.
   */
  lemma IntervalBoundIsReached(c: Config) returns (steps: seq<Step>)
    requires c.Valid() && c.width > 1
    ensures IsRun(START, steps, c) && Prompt(START, steps, c)
    ensures var s := End(START, steps, c);
            && KeyHeld(s, 0) && KeyHeld(s, 1)
            && |GrantedIn(s, c.width - 1, c.width - 1 + c.width, c)| == 2 * c.limit
  {
    hide IsRun, End, Prompt;
    NoSteps(c);
    var n := c.limit;
    WindowIs(c.width - 1, 0, c);
    WindowIs(c.width, 1, c);
    hide WindowAt;
    steps := Then([], Tick(c.width - 1), c);
    steps := Arrivals(steps, n, c);
    steps := Life(steps, 0, n, 0, c);
    steps := Then(steps, Tick(c.width), c);
    steps := Arrivals(steps, n, c);
    steps := Increments(steps, n, n, 1, c);
    steps := Expiries(steps, n, n, 1, c);
    steps := Then(steps, Tick(c.width + c.ttl), c);
    steps := Answers(steps, n, n, 1, c);
    AllGranted(End(START, steps, c), c.width - 1, c.width - 1 + c.width, c);
  }
}
