/** The manager's enrolment call, and the per-address attempt log that guards it. */
module EnrolServer {
  import opened Wrappers
  import opened EnrolmentStore

  // ----- The attempt log as a value -----

  /** The attempts still inside the window. */
  function Recent(log: seq<int>, cutoff: int): (r: seq<int>)
    ensures |r| <= |log|
  {
    if log == [] then [] else
    var r := Recent(log[..|log| - 1], cutoff);
    if log[|log| - 1] > cutoff then r + [log[|log| - 1]] else r
  }

  function Attempt(log: seq<int>, window: int, max: int, now: int): (seq<int>, bool) {
    var keep := Recent(log, now - window);
    if |keep| >= max then (keep, false) else (keep + [now], true)
  }

  /** A Go slice: the first `len` cells of a backing array it may share with a longer one. */
  datatype Slice = Slice(buf: array<int>, len: nat)

  datatype EnrolError = ResourceExhausted | InvalidArgument

  /** `append`: in place while the capacity lasts, in a larger array otherwise. */
  method Append(buf: array<int>, k: nat, v: int) returns (s: Slice)
    requires k <= buf.Length
    modifies buf
    ensures s.len == k + 1 <= s.buf.Length && s.buf[..s.len] == old(buf[..k]) + [v]
    ensures s.buf == buf || fresh(s.buf)
  {
    if k < buf.Length {
      buf[k] := v;
      return Slice(buf, k + 1);
    }
    var bigger := new int[2 * k + 1];
    forall i | 0 <= i < k {
      bigger[i] := buf[i];
    }
    bigger[k] := v;
    return Slice(bigger, k + 1);
  }

  method Compact(buf: array<int>, len: nat, cutoff: int) returns (k: nat)
    requires len <= buf.Length
    modifies buf
    ensures k <= len && buf[..k] == Recent(old(buf[..len]), cutoff)
  {
    ghost var was := buf[..len];
    k := 0;
    for i := 0 to len
      invariant k <= i && buf[..k] == Recent(was[..i], cutoff)
      invariant forall j :: i <= j < len ==> buf[j] == was[j]
    {
      var t := buf[i];
      assert was[..i + 1][..i] == was[..i] && was[..i + 1][i] == t;
      ghost var kept := buf[..k];
      if t > cutoff {
        buf[k] := t;
        assert buf[..k] == kept;
        k := k + 1;
      }
    }
    assert was[..len] == was;
  }

  /** One attempt on the log held in `s`. */
  method TryAttempt(s: Slice, window: int, max: int, now: int) returns (s': Slice, ok: bool)
    requires s.len <= s.buf.Length
    modifies s.buf
    ensures s'.len <= s'.buf.Length && (s'.buf == s.buf || fresh(s'.buf))
    ensures (s'.buf[..s'.len], ok) == Attempt(old(s.buf[..s.len]), window, max, now)
  {
    hide Recent;
    var k := Compact(s.buf, s.len, now - window);
    if k >= max {
      return Slice(s.buf, k), false;
    }
    s' := Append(s.buf, k, now);
    ok := true;
  }

  class Server {
    const store: Store
    const maxAttempts: int
    const window: int
    var attempts: map<string, Slice>

    /** Slices fit their arrays, and no two addresses share one. */
    ghost predicate Valid()
      reads this
    {
      && (forall ip :: ip in attempts ==> attempts[ip].len <= attempts[ip].buf.Length)
      && (forall i, j :: i in attempts && j in attempts && i != j ==> attempts[i].buf != attempts[j].buf)
    }

    constructor (store: Store)
      ensures this.store == store && maxAttempts == 20 && window == 3600 * 1_000_000_000
      ensures attempts == map[] && Valid()
    {
      this.store, maxAttempts, window := store, 20, 3600 * 1_000_000_000;
      attempts := map[];
    }

    ghost function Buffers(): set<object>
      reads this
    {
      set ip | ip in attempts :: attempts[ip].buf as object
    }

    function Log(ip: string): seq<int>
      requires Valid()
      reads this, Buffers()
    {
      if ip in attempts then attempts[ip].buf[..attempts[ip].len] else []
    }

    /**
     The log is compacted into its own backing array while it is being read. The outcome is
     the functional one all the same, and other addresses' logs are not disturbed.
     */
    method AllowEnrollAttempt(ip: string, now: int) returns (ok: bool)
      requires Valid()
      modifies this`attempts, Buffers()
      ensures Valid() && fresh(Buffers() - old(Buffers()))
      ensures ip == "" ==> !ok && attempts == old(attempts) && Log(ip) == old(Log(ip))
      ensures ip != "" ==> (Log(ip), ok) == Attempt(old(Log(ip)), window, maxAttempts, now)
      ensures forall other :: other != ip ==> Log(other) == old(Log(other))
    {
      hide Attempt;
      if ip == "" { return false; }
      var s: Slice;
      if ip in attempts {
        s := attempts[ip];
      } else {
        var nothing := new int[0];
        s := Slice(nothing, 0);
      }
      s, ok := TryAttempt(s, window, maxAttempts, now);
      attempts := attempts[ip := s];
    }

    /**
     Each store call is a step of its own; with nothing in between, a granted enrolment
     leaves the secret's hash in the row of the agent whose token it was.
     */
    method Enroll(ip: string, token: string, hostname: string, os: string, secret: string, now: int, unix: int)
      returns (res: Result<(string, string), EnrolError>)
      requires Valid()
      modifies this`attempts, Buffers(), store
      ensures Valid()
      ensures var (log, ok) := Attempt(old(Log(ip)), window, maxAttempts, now);
              var (db, id) := Consumed(old(store.Tables()), store.hash, token, unix);
              if ip == "" || !ok then
                res == Err(ResourceExhausted) && store.Tables() == old(store.Tables())
              else if token == "" || id.Err? then
                res == Err(InvalidArgument) && store.Tables() == old(store.Tables())
              else
                && res == Ok((id.value, secret))
                && store.Tables()
                   == Touched(Enrolled(db, store.hash, id.value, secret, unix), id.value, ip, hostname, os, unix)
    {
      var ok := AllowEnrollAttempt(ip, now);
      if !ok { return Err(ResourceExhausted); }
      if token == "" { return Err(InvalidArgument); }
      var id := store.ConsumeEnrollToken(token, unix);
      if id.Err? { return Err(InvalidArgument); }
      store.EnrollAgent(id.value, secret, unix);
      store.Touch(id.value, ip, hostname, os, unix);
      return Ok((id.value, secret));
    }
  }

  // ----- Counting over whole runs of one address -----

  /** The times of the granted attempts among attempts at `times`, starting with the given log. */
  function GrantedAt(log: seq<int>, window: int, max: int, times: seq<int>): (g: seq<int>)
    decreases |times|
  {
    if times == [] then [] else
    var (log', ok) := Attempt(log, window, max, times[0]);
    (if ok then [times[0]] else []) + GrantedAt(log', window, max, times[1..])
  }

  /** How many of `ts` lie in the half-open interval `(a, b]`. */
  function CountIn(ts: seq<int>, a: int, b: int): nat {
    if ts == [] then 0 else CountIn(ts[..|ts| - 1], a, b) + if a < ts[|ts| - 1] <= b then 1 else 0
  }

  predicate Ordered(ts: seq<int>) {
    forall i, j :: 0 <= i < j < |ts| ==> ts[i] <= ts[j]
  }

  lemma {:induction false} RecentTwice(ts: seq<int>, c: int, d: int)
    requires c <= d
    ensures Recent(Recent(ts, c), d) == Recent(ts, d)
  {
    if ts != [] {
      var init, last := ts[..|ts| - 1], ts[|ts| - 1];
      RecentTwice(init, c, d);
      if last > c {
        assert Recent(ts, c)[..|Recent(init, c)|] == Recent(init, c);
      }
    }
  }

  lemma {:induction false} CountIsRecent(ts: seq<int>, a: int, b: int)
    requires forall i :: 0 <= i < |ts| ==> ts[i] <= b
    ensures CountIn(ts, a, b) == |Recent(ts, a)|
  {
    if ts != [] {
      CountIsRecent(ts[..|ts| - 1], a, b);
    }
  }

  lemma {:induction false} CountNarrower(ts: seq<int>, a: int, b: int, a': int, b': int)
    requires a <= a' && b' <= b
    ensures CountIn(ts, a', b') <= CountIn(ts, a, b)
  {
    if ts != [] {
      CountNarrower(ts[..|ts| - 1], a, b, a', b');
    }
  }

  lemma CountAppend(ts: seq<int>, t: int, a: int, b: int)
    ensures CountIn(ts + [t], a, b) == CountIn(ts, a, b) + if a < t <= b then 1 else 0
  {
    assert (ts + [t])[..|ts|] == ts;
  }

  /** No half-open interval as long as the window holds more than `max` of `ts`. */
  ghost predicate Sparse(ts: seq<int>, window: int, max: int) {
    forall a, b {:trigger CountIn(ts, a, b)} :: b - a <= window ==> CountIn(ts, a, b) <= max
  }

  lemma OrderedAppend(history: seq<int>, now: int)
    requires Ordered(history + [now])
    ensures forall i :: 0 <= i < |history| ==> history[i] <= now
  {
    forall i | 0 <= i < |history| ensures history[i] <= now {
      assert (history + [now])[i] <= (history + [now])[|history|];
    }
  }

  lemma {:induction false} UpToNow(ts: seq<int>, a: int, b: int, now: int)
    requires now <= b && forall i :: 0 <= i < |ts| ==> ts[i] <= now
    ensures CountIn(ts, a, b) == CountIn(ts, a, now)
  {
    if ts != [] {
      UpToNow(ts[..|ts| - 1], a, b, now);
    }
  }

  lemma SparseAppend(history: seq<int>, window: int, max: int, now: int)
    requires Sparse(history, window, max) && CountIn(history, now - window, now) < max
    requires forall i :: 0 <= i < |history| ==> history[i] <= now
    ensures Sparse(history + [now], window, max)
  {
    forall a, b | b - a <= window ensures CountIn(history + [now], a, b) <= max {
      CountAppend(history, now, a, b);
      if a < now <= b {
        UpToNow(history, a, b, now);
        CountNarrower(history, now - window, now, a, now);
      }
    }
  }

  /**
   The log stands for the whole history: an attempt is granted if and only if fewer than
   `max` have been granted in the window that ends with it, and so no window ever holds more.
   */
  lemma AttemptDecidesByHistory(history: seq<int>, log: seq<int>, cutoff: int, window: int, max: int, now: int)
    requires max > 0 && window > 0 && Ordered(history + [now])
    requires log == Recent(history, cutoff) && cutoff <= now - window && Sparse(history, window, max)
    ensures var (log', ok) := Attempt(log, window, max, now);
            var history' := if ok then history + [now] else history;
            && (ok <==> CountIn(history, now - window, now) < max)
            && log' == Recent(history', now - window) && Sparse(history', window, max)
  {
    hide Sparse, Ordered;
    OrderedAppend(history, now);
    RecentTwice(history, cutoff, now - window);
    CountIsRecent(history, now - window, now);
    assert (history + [now])[..|history|] == history;
    if CountIn(history, now - window, now) < max {
      SparseAppend(history, window, max, now);
    }
  }

  lemma OrderedParts(h: seq<int>, now: int, rest: seq<int>)
    requires Ordered(h + [now] + rest)
    ensures Ordered(h + [now]) && Ordered(h + rest) && (rest != [] ==> now <= rest[0])
  {
    var all := h + [now] + rest;
    assert forall i :: 0 <= i < |h + [now]| ==> (h + [now])[i] == all[i];
    assert forall i :: 0 <= i < |h| ==> (h + rest)[i] == all[i];
    assert forall i :: |h| <= i < |h + rest| ==> (h + rest)[i] == all[i + 1];
    assert rest != [] ==> all[|h|] == now && all[|h| + 1] == rest[0];
  }

  lemma {:induction false} RunIsSparse(history: seq<int>, log: seq<int>, cutoff: int, window: int, max: int,
                                       times: seq<int>)
    requires max > 0 && window > 0 && Ordered(history + times)
    requires log == Recent(history, cutoff) && Sparse(history, window, max)
    requires times != [] ==> cutoff <= times[0] - window
    ensures Sparse(history + GrantedAt(log, window, max, times), window, max)
    decreases |times|
  {
    hide Sparse, Ordered, Attempt, Recent;
    if times == [] {
      assert history + [] == history;
    } else {
      var now, rest := times[0], times[1..];
      var (log', ok) := Attempt(log, window, max, now);
      var history' := if ok then history + [now] else history;
      assert history + times == history + [now] + rest;
      OrderedParts(history, now, rest);
      AttemptDecidesByHistory(history, log, cutoff, window, max, now);
      RunIsSparse(history', log', now - window, window, max, rest);
      var g := GrantedAt(log', window, max, rest);
      assert history + GrantedAt(log, window, max, times) == history' + g;
    }
  }

  /** Over every run, no half-open interval `(a, b]` as long as the window holds more than `max` grants. */
  lemma AttemptBound(window: int, max: int, times: seq<int>, a: int, b: int)
    requires max > 0 && window > 0 && Ordered(times) && b - a <= window
    ensures CountIn(GrantedAt([], window, max, times), a, b) <= max
  {
    var none: seq<int> := [];
    var cutoff := if times == [] then 0 else times[0] - window;
    assert Sparse(none, window, max) && none == Recent(none, cutoff);
    var g := GrantedAt(none, window, max, times);
    assert Sparse(g, window, max) by {
      hide Sparse, Ordered, Recent;
      assert none + times == times && none + g == g;
      RunIsSparse(none, none, cutoff, window, max, times);
    }
  }
}
