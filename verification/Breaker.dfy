/** The circuit breaker in front of the scoring service. Times are in nanoseconds. */
module Breaker {
  import opened Sequences
  import opened Wrappers

  const PROBE_AFTER: int := 5_000_000_000

  /** The first instant after an opening at which a call goes out is this much later. */
  const GAP: int := PROBE_AFTER + 1

  datatype State = State(failures: nat, open: bool, openedAt: int)

  /** Whether a call at `now` is turned away, and the state after asking. */
  function Ask(s: State, now: int): (State, bool) {
    if !s.open then (s, false)
    else if now - s.openedAt > PROBE_AFTER then (s.(open := false, failures := 0), false)
    else (s, true)
  }

  function Failed(s: State, limit: int, now: int): State {
    var s' := s.(failures := s.failures + 1);
    if s'.failures >= limit then s'.(open := true, openedAt := now) else s'
  }

  function Succeeded(s: State): State {
    s.(failures := 0, open := false)
  }

  /** A non-positive limit opens the breaker at the first failure, as a limit of one does. */
  function Burst(limit: int): (n: nat)
    ensures n >= 1
  {
    if limit <= 1 then 1 else limit
  }

  /** What becomes of a call that is not turned away; only `Unsent` never leaves the client. */
  datatype Outcome = Unsent | Unreachable | Answered(status: int, score: Option<real>)
  {
    predicate Failure() {
      Unreachable? || (Answered? && status != 200)
    }
  }

  /** A call that starts at `at` and learns its outcome at `done`. */
  datatype Call = Call(at: int, done: int, outcome: Outcome)

  /** The state after a call, and whether a failing request was sent. */
  function Made(s: State, limit: int, call: Call): (State, bool) {
    var (s', refused) := Ask(s, call.at);
    if refused || call.outcome.Unsent? then (s', false)
    else if call.outcome.Failure() then (Failed(s', limit, call.done), true)
    else (Succeeded(s'), false)
  }

  datatype ScoreError = CircuitOpen | NotSent | NoAnswer | BadStatus | BadBody

  /** Unconfigured clients answer zero; scores are clamped to `[0, 1]`. */
  function Answer(ready: bool, refused: bool, outcome: Outcome): Result<real, ScoreError> {
    if !ready then Ok(0.0)
    else if refused then Err(CircuitOpen)
    else match outcome
      case Unsent => Err(NotSent)
      case Unreachable => Err(NoAnswer)
      case Answered(status, score) =>
        if status != 200 then Err(BadStatus)
        else if score == None then Err(BadBody)
        else Ok(if score.value < 0.0 then 0.0 else if score.value > 1.0 then 1.0 else score.value)
  }

  class Client {
    const ready: bool
    const limit: int
    var failures: nat
    var open: bool
    var openedAt: int

    function Now(): State
      reads this
    {
      State(failures, open, openedAt)
    }

    constructor (url: string, enabled: bool, circuitOpen: int)
      ensures ready == (url != "" && enabled) && limit == if circuitOpen == 0 then 5 else circuitOpen
      ensures limit != 0 && Now() == State(0, false, 0)
    {
      ready, limit := url != "" && enabled, if circuitOpen == 0 then 5 else circuitOpen;
      failures, open, openedAt := 0, false, 0;
    }

    method BreakerOpen(now: int) returns (refused: bool)
      modifies this
      ensures (Now(), refused) == Ask(old(Now()), now)
    {
      if !open { return false; }
      if now - openedAt > PROBE_AFTER {
        open, failures := false, 0;
        return false;
      }
      return true;
    }

    method RecordFailure(now: int)
      modifies this
      ensures Now() == Failed(old(Now()), limit, now)
    {
      failures := failures + 1;
      if failures >= limit {
        open, openedAt := true, now;
      }
    }

    method RecordSuccess()
      modifies this
      ensures Now() == Succeeded(old(Now()))
    {
      failures, open := 0, false;
    }

    /** One whole call, with no other call's bookkeeping in between. */
    method Score(call: Call) returns (r: Result<real, ScoreError>)
      modifies this
      ensures Now() == if ready then Made(old(Now()), limit, call).0 else old(Now())
      ensures r == Answer(ready, Ask(old(Now()), call.at).1, call.outcome)
    {
      if !ready { return Ok(0.0); }
      var refused := BreakerOpen(call.at);
      if refused { return Err(CircuitOpen); }
      match call.outcome {
        case Unsent => return Err(NotSent);
        case Unreachable =>
          RecordFailure(call.done);
          return Err(NoAnswer);
        case Answered(status, score) =>
          if status != 200 {
            RecordFailure(call.done);
            return Err(BadStatus);
          }
          RecordSuccess();
          if score == None { return Err(BadBody); }
          var x := score.value;
          if x < 0.0 { x := 0.0; }
          if x > 1.0 { x := 1.0; }
          return Ok(x);
      }
    }
  }

  // ----- Calls that overlap -----

  /** The three critical sections; overlapping calls run them in any order. */
  datatype Op = Asking(now: int) | Failing(now: int) | Succeeding

  function Done(s: State, limit: int, op: Op): State {
    match op
    case Asking(now) => Ask(s, now).0
    case Failing(now) => Failed(s, limit, now)
    case Succeeding => Succeeded(s)
  }

  function DoneAll(s: State, limit: int, ops: seq<Op>): State {
    if ops == [] then s else Done(DoneAll(s, limit, ops[..|ops| - 1]), limit, ops[|ops| - 1])
  }

  /** Failures recorded since the breaker last let calls through afresh. */
  function Streak(s: State, limit: int, ops: seq<Op>): nat {
    if ops == [] then s.failures else
    var init, op := ops[..|ops| - 1], ops[|ops| - 1];
    match op
    case Succeeding => 0
    case Failing(_) => Streak(s, limit, init) + 1
    case Asking(now) =>
      var before := DoneAll(s, limit, init);
      if before.open && now - before.openedAt > PROBE_AFTER then 0 else Streak(s, limit, init)
  }

  /** In every interleaving the breaker is open exactly when enough failures have come in a row. */
  lemma {:induction false} OpenIffStreak(limit: int, ops: seq<Op>)
    ensures var s, start := DoneAll(State(0, false, 0), limit, ops), State(0, false, 0);
            s.failures == Streak(start, limit, ops) && (s.open <==> s.failures >= Burst(limit))
  {
    if ops != [] {
      OpenIffStreak(limit, ops[..|ops| - 1]);
    }
  }

  // ----- Calls one after the other, none of them successful -----

  predicate Sequential(now: int, calls: seq<Call>)
    decreases |calls|
  {
    calls != [] ==> now <= calls[0].at <= calls[0].done && Sequential(calls[0].done, calls[1..])
  }

  predicate NoSuccess(calls: seq<Call>) {
    forall i :: 0 <= i < |calls| ==> calls[i].outcome.Unsent? || calls[i].outcome.Failure()
  }

  /** A closed breaker has room for a failure, and an open one was opened in the past. */
  predicate Settled(s: State, limit: int, now: int) {
    if s.open then s.openedAt <= now else s.failures < Burst(limit)
  }

  /** How many failing requests are sent at a time in `[a, b]`. */
  function SentIn(s: State, limit: int, calls: seq<Call>, a: int, b: int): nat
    decreases |calls|
  {
    if calls == [] then 0 else
    var (s', sent) := Made(s, limit, calls[0]);
    SentIn(s', limit, calls[1..], a, b) + if sent && a <= calls[0].at <= b then 1 else 0
  }

  lemma {:induction false} NoneAfter(s: State, limit: int, calls: seq<Call>, now: int, a: int, b: int)
    requires Sequential(now, calls) && b < now
    ensures SentIn(s, limit, calls, a, b) == 0
    decreases |calls|
  {
    if calls != [] {
      NoneAfter(Made(s, limit, calls[0]).0, limit, calls[1..], calls[0].done, a, b);
    }
  }

  /**
   From now until `b`: a closed breaker lets through what is left of its burst, and one burst
   more for each further five seconds; an open one starts five seconds after it opened.
   */
  lemma {:induction false} SentUntil(s: State, limit: int, calls: seq<Call>, now: int, a: int, b: int, k: nat)
    requires Sequential(now, calls) && NoSuccess(calls) && Settled(s, limit, now)
    requires b - (if s.open then s.openedAt else now) < GAP * (k + 1)
    ensures SentIn(s, limit, calls, a, b) <= Burst(limit) * k + if s.open then 0 else Burst(limit) - s.failures
    decreases |calls|
  {
    if calls != [] {
      var call, rest := calls[0], calls[1..];
      var s' := Made(s, limit, call).0;
      if call.at > b {
        NoneAfter(s', limit, rest, call.done, a, b);
      } else if s.open && !Ask(s, call.at).1 {
        assert Burst(limit) * k == Burst(limit) * (k - 1) + Burst(limit);
        SentUntil(s', limit, rest, call.done, a, b, k - 1);
      } else {
        SentUntil(s', limit, rest, call.done, a, b, k);
      }
    }
  }

  /**
   While nothing succeeds, at most `k + 1` bursts of `limit` requests are sent in any interval
   of `5 * (k + 1)` seconds, and in somewhat longer ones: after every opening there is silence
   for more than five seconds, and then a whole burst again.
   */
  lemma {:induction false} BurstsBound(s: State, limit: int, calls: seq<Call>, now: int, a: int, b: int, k: nat)
    requires Sequential(now, calls) && NoSuccess(calls) && Settled(s, limit, now)
    requires b - a < GAP * (k + 1)
    ensures SentIn(s, limit, calls, a, b) <= Burst(limit) * (k + 1)
    decreases |calls|
  {
    if calls != [] {
      var call := calls[0];
      var (s', refused) := Ask(s, call.at);
      assert Burst(limit) * (k + 1) == Burst(limit) * k + Burst(limit);
      if call.at < a {
        BurstsBound(Made(s, limit, call).0, limit, calls[1..], call.done, a, b, k);
      } else if refused {
        SentUntil(s, limit, calls, call.at, a, b, k + 1);
      } else {
        assert Made(s, limit, call) == Made(s', limit, call);
        SentUntil(s', limit, calls, call.at, a, b, k);
      }
    }
  }

  /** With the breaker closed, failing requests go out until the limit is reached, and then none. */
  lemma {:induction false} BurstSent(s: State, limit: int, t: int, n: nat)
    requires Settled(s, limit, t) && (s.open ==> s.openedAt == t)
    ensures var room := if s.open then 0 else Burst(limit) - s.failures;
            SentIn(s, limit, Repeat(Call(t, t, Unreachable), n), t, t) == if n <= room then n else room
    decreases n
  {
    if n > 0 {
      var call := Call(t, t, Unreachable);
      assert Repeat(call, n)[1..] == Repeat(call, n - 1);
      BurstSent(Made(s, limit, call).0, limit, t, n - 1);
    }
  }

  /** The half-open breaker does not let one probe through but as many failures as it takes to open. */
  lemma HalfOpenSendsABurst(s: State, limit: int, t: int, n: nat)
    requires s.open && t - s.openedAt > PROBE_AFTER
    ensures SentIn(s, limit, Repeat(Call(t, t, Unreachable), n), t, t) == if n <= Burst(limit) then n else Burst(limit)
  {
    var closed := s.(open := false, failures := 0);
    if n > 0 {
      var call := Call(t, t, Unreachable);
      assert Made(s, limit, call) == Made(closed, limit, call);
      BurstSent(closed, limit, t, n);
    }
  }

  /** `n` bursts of failing requests, each as soon as it can be. */
  function Bursts(limit: int, t: int, n: nat): seq<Call>
    decreases n
  {
    if n == 0 then [] else Repeat(Call(t, t, Unreachable), Burst(limit)) + Bursts(limit, t + GAP, n - 1)
  }

  lemma {:induction false} BurstsFollow(limit: int, now: int, t: int, left: nat, n: nat)
    requires now <= t
    ensures Sequential(now, Repeat(Call(t, t, Unreachable), left) + Bursts(limit, t + GAP, n))
    ensures NoSuccess(Repeat(Call(t, t, Unreachable), left) + Bursts(limit, t + GAP, n))
    decreases n, left
  {
    var call := Call(t, t, Unreachable);
    if left > 0 {
      assert (Repeat(call, left) + Bursts(limit, t + GAP, n))[1..]
             == Repeat(call, left - 1) + Bursts(limit, t + GAP, n);
      BurstsFollow(limit, t, t, left - 1, n);
    } else if n > 0 {
      assert Repeat(call, 0) + Bursts(limit, t + GAP, n) == Bursts(limit, t + GAP, n);
      BurstsFollow(limit, now, t + GAP, Burst(limit), n - 1);
    }
  }

  lemma {:induction false} BurstThenRest(s: State, limit: int, t: int, n: nat, rest: seq<Call>, a: int, b: int)
    requires !s.open && s.failures + n == Burst(limit) && n > 0 && a <= t <= b
    ensures SentIn(s, limit, Repeat(Call(t, t, Unreachable), n) + rest, a, b)
            == n + SentIn(State(Burst(limit), true, t), limit, rest, a, b)
    decreases n
  {
    var call := Call(t, t, Unreachable);
    var calls := Repeat(call, n) + rest;
    assert calls[0] == call && calls[1..] == Repeat(call, n - 1) + rest;
    if n > 1 {
      BurstThenRest(Made(s, limit, call).0, limit, t, n - 1, rest, a, b);
    } else {
      assert calls[1..] == rest;
    }
  }

  lemma {:induction false} BurstsAllSent(s: State, limit: int, t: int, n: nat, a: int, b: int)
    requires if s.open then t - s.openedAt > PROBE_AFTER else s.failures == 0
    requires n > 0 ==> a <= t && t + GAP * (n - 1) <= b
    ensures SentIn(s, limit, Bursts(limit, t, n), a, b) == Burst(limit) * n
    decreases n
  {
    if n > 0 {
      var closed := s.(open := false, failures := 0);
      var call, rest := Call(t, t, Unreachable), Bursts(limit, t + GAP, n - 1);
      var calls := Repeat(call, Burst(limit)) + rest;
      assert calls[0] == call && Made(s, limit, call) == Made(closed, limit, call);
      BurstThenRest(closed, limit, t, Burst(limit), rest, a, b);
      BurstsAllSent(State(Burst(limit), true, t), limit, t + GAP, n - 1, a, b);
      assert Burst(limit) * n == Burst(limit) + Burst(limit) * (n - 1);
    }
  }

  /** For every limit and every `k` some run without a success reaches the bound. */
  lemma BurstsBoundIsReached(limit: int, k: nat) returns (calls: seq<Call>, b: int)
    ensures Sequential(0, calls) && NoSuccess(calls) && Settled(State(0, false, 0), limit, 0) && b - 0 < GAP * (k + 1)
    ensures SentIn(State(0, false, 0), limit, calls, 0, b) == Burst(limit) * (k + 1)
  {
    calls, b := Bursts(limit, 0, k + 1), GAP * k;
    BurstsFollow(limit, 0, 0, Burst(limit), k);
    BurstsAllSent(State(0, false, 0), limit, 0, k + 1, 0, b);
  }
}
