/**
 The window that both the in-memory limiter and the management API keep: it opens at the
 first request, lasts `width` ticks, and grants `limit` requests. Bounds proved here are
 transferred to those two counters by refinement.
 */
module FixedWindow {
  import opened Sequences
  import opened Wrappers

  datatype Window = Window(start: int, count: nat)

  function Opened(w: Option<Window>, width: nat, now: int): Window {
    if w == None || now - w.value.start >= width then Window(now, 0) else w.value
  }

  function Step(w: Option<Window>, limit: nat, width: nat, now: int): (Window, bool) {
    var o := Opened(w, width, now);
    if o.count >= limit then (o, false) else (o.(count := o.count + 1), true)
  }

  predicate Nondecreasing(times: seq<int>) {
    forall i, j :: 0 <= i < j < |times| ==> times[i] <= times[j]
  }

  /** How many requests at `times` are granted with a time in `[a, b)`. */
  function GrantsIn(w: Option<Window>, limit: nat, width: nat, times: seq<int>, a: int, b: int): nat
    decreases |times|
  {
    if times == [] then 0 else
    var (w', ok) := Step(w, limit, width, times[0]);
    GrantsIn(Some(w'), limit, width, times[1..], a, b) + if ok && a <= times[0] < b then 1 else 0
  }

  lemma {:induction false} NoGrantsLater(w: Option<Window>, limit: nat, width: nat, times: seq<int>, a: int, b: int)
    requires Nondecreasing(times) && (times != [] ==> b <= times[0])
    ensures GrantsIn(w, limit, width, times, a, b) == 0
    decreases |times|
  {
    if times != [] {
      assert |times| > 1 ==> times[1] >= times[0];
      NoGrantsLater(Some(Step(w, limit, width, times[0]).0), limit, width, times[1..], a, b);
    }
  }

  /** Once inside `[a, a + width)`, the open window has its remainder to give, and one more window at most. */
  lemma {:induction false} GrantsFromInside(w: Option<Window>, limit: nat, width: nat, times: seq<int>, a: int)
    requires width > 0 && Nondecreasing(times)
    requires times != [] ==> a <= times[0] && (w.Some? ==> w.value.start <= times[0])
    requires w.Some? ==> w.value.count <= limit
    ensures var g := GrantsIn(w, limit, width, times, a, a + width);
            g <= if w == None then limit
                 else limit - w.value.count + if w.value.start < a then limit else 0
    decreases |times|
  {
    if times != [] {
      var now, rest := times[0], times[1..];
      var (w', ok) := Step(w, limit, width, now);
      assert rest != [] ==> times[1] >= now;
      if now < a + width {
        GrantsFromInside(Some(w'), limit, width, rest, a);
      } else {
        NoGrantsLater(Some(w'), limit, width, rest, a, a + width);
      }
    }
  }

  /** The most grants in an interval as long as the window; a window of one tick cannot be straddled. */
  function Most(limit: nat, width: nat): int {
    if width <= 1 then limit else 2 * limit - 1
  }

  /** A window that every later request finds expired might as well be gone. */
  lemma ExpiredIsGone(w: Window, limit: nat, width: nat, times: seq<int>, a: int, b: int)
    requires forall i :: 0 <= i < |times| ==> times[i] - w.start >= width
    ensures GrantsIn(Some(w), limit, width, times, a, b) == GrantsIn(None, limit, width, times, a, b)
  {
  }

  /**
   Any half-open interval as long as the window holds at most `2 * limit - 1` grants: the
   request that opens a window before the interval uses up one grant of it.
   */
  lemma {:induction false} AnyInterval(w: Option<Window>, limit: nat, width: nat, times: seq<int>, a: int)
    requires limit > 0 && width > 0 && Nondecreasing(times)
    requires w.Some? ==> 1 <= w.value.count <= limit
    requires w.Some? && times != [] ==> w.value.start <= times[0]
    ensures GrantsIn(w, limit, width, times, a, a + width) <= Most(limit, width)
    decreases |times|
  {
    if times != [] {
      if a > times[0] {
        var w' := Step(w, limit, width, times[0]).0;
        assert |times| > 1 ==> times[1] >= times[0];
        AnyInterval(Some(w'), limit, width, times[1..], a);
      } else if width == 1 && w.Some? && w.value.start < a {
        ExpiredIsGone(w.value, limit, width, times, a, a + width);
        GrantsFromInside(None, limit, width, times, a);
      } else {
        GrantsFromInside(w, limit, width, times, a);
      }
    }
  }

  /** A window that opens at `a` grants at most `limit` before it closes. */
  lemma OneWindow(limit: nat, width: nat, times: seq<int>, a: int)
    requires width > 0 && Nondecreasing(times) && (times != [] ==> a <= times[0])
    ensures GrantsIn(None, limit, width, times, a, a + width) <= limit
  {
    GrantsFromInside(None, limit, width, times, a);
  }

  // ----- The bound is reached -----

  lemma {:induction false} GrantsRepeat(w: Window, limit: nat, width: nat, t: int, n: nat, rest: seq<int>,
                                        a: int, b: int)
    requires t - w.start < width && w.count + n <= limit
    ensures GrantsIn(Some(w), limit, width, Repeat(t, n) + rest, a, b)
            == GrantsIn(Some(w.(count := w.count + n)), limit, width, rest, a, b) + if a <= t < b then n else 0
    decreases n
  {
    if n == 0 {
      assert Repeat(t, n) + rest == rest;
    } else {
      assert (Repeat(t, n) + rest)[1..] == Repeat(t, n - 1) + rest;
      GrantsRepeat(w.(count := w.count + 1), limit, width, t, n - 1, rest, a, b);
    }
  }

  /** One request, then `limit - 1` just before the window closes, then `limit` as it reopens. */
  lemma StraddlingRun(limit: nat, width: nat) returns (times: seq<int>, a: int)
    requires limit > 0 && width > 1
    ensures Nondecreasing(times) && times != [] && times[0] == 0
    ensures GrantsIn(None, limit, width, times, a, a + width) == 2 * limit - 1
  {
    a := width - 1;
    var last := Repeat<int>(width, limit - 1) + [];
    var tail := [width] + last;
    times := [0] + (Repeat<int>(a, limit - 1) + tail);
    assert times[1..] == Repeat<int>(a, limit - 1) + tail && tail[1..] == last;
    GrantsRepeat(Window(0, 1), limit, width, a, limit - 1, tail, a, a + width);
    GrantsRepeat(Window(width, 1), limit, width, width, limit - 1, [], a, a + width);
    hide Repeat;
    assert GrantsIn(None, limit, width, times, a, a + width)
        == GrantsIn(Some(Window(0, 1)), limit, width, times[1..], a, a + width);
    assert GrantsIn(Some(Window(0, limit)), limit, width, tail, a, a + width)
        == GrantsIn(Some(Window(width, 1)), limit, width, last, a, a + width) + 1;
  }

  lemma BurstAtOnce(limit: nat, width: nat) returns (times: seq<int>)
    requires limit > 0 && width > 0
    ensures Nondecreasing(times) && times != [] && times[0] == 0
    ensures GrantsIn(None, limit, width, times, 0, width) == limit
  {
    var rest := Repeat<int>(0, limit - 1) + [];
    times := [0] + rest;
    assert times[1..] == rest;
    GrantsRepeat(Window(0, 1), limit, width, 0, limit - 1, [], 0, width);
  }

  /** For every limit and width some run reaches the bound. */
  lemma AnyIntervalIsTight(limit: nat, width: nat) returns (times: seq<int>, a: int)
    requires limit > 0 && width > 0
    ensures Nondecreasing(times) && times != [] && times[0] == 0
    ensures GrantsIn(None, limit, width, times, a, a + width) == Most(limit, width)
  {
    if width == 1 {
      a := 0;
      times := BurstAtOnce(limit, width);
    } else {
      times, a := StraddlingRun(limit, width);
    }
  }
}
