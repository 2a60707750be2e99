/** The live feed: a ring of recent events with fan-out to subscribers over bounded channels. */
module LiveFeed {
  import opened Wrappers

  // ----- Indices around the ring -----

  /** Go's `%`, whose result takes the sign of the dividend. */
  function GoMod(a: int, b: int): int
    requires b > 0
  {
    if a >= 0 then a % b else -((-a) % b)
  }

  /** The index computation of `Recent` and `Subscribe`. */
  function Slot(head: int, back: int, size: int): int
    requires size > 0
  {
    var idx := GoMod(head - back, size);
    if idx < 0 then idx + size else idx
  }

  lemma ModUnique(x: int, q: int, r: int, size: int)
    requires size > 0 && x == q * size + r && 0 <= r < size
    ensures x % size == r
  {
    var d := x / size - q;
    assert d * size == r - x % size;
    assert -size < d * size < size;
  }

  lemma SlotNearby(head: nat, back: nat, size: int)
    requires head < size && back <= size
    ensures Slot(head, back, size) == if back <= head then head - back
                                      else if back - head == size then 0 else head - back + size
  {
    if back <= head {
      ModUnique(head - back, 0, head - back, size);
    } else if back - head < size {
      ModUnique(back - head, 0, back - head, size);
    } else {
      ModUnique(size, 1, 0, size);
    }
  }

  lemma SlotIsMod(total: nat, back: nat, size: int)
    requires size > 0 && back <= size
    ensures Slot(total % size, back, size) == (total - back) % size
  {
    var head, q := total % size, total / size;
    SlotNearby(head, back, size);
    var idx := Slot(head, back, size);
    hide Slot;
    assert total == q * size + head;
    assert (q - 1) * size == q * size - size;
    ModUnique(total - back, if back <= head then q else q - 1, idx, size);
  }

  // ----- Channels -----

  datatype Chan<T> = Chan(cap: nat, buf: seq<T>, open: bool)

  /** A send that is skipped when the buffer is full. */
  function Offer<T>(c: Chan<T>, e: T): Chan<T> {
    if |c.buf| < c.cap then c.(buf := c.buf + [e]) else c
  }

  function Last<T>(s: seq<T>, n: nat): seq<T>
    requires n <= |s|
  {
    s[|s| - n..]
  }

  lemma OneMore<T>(s: seq<T>, i: nat, j: nat)
    requires i <= j < |s|
    ensures s[i..j] + [s[j]] == s[i..j + 1]
  {
  }

  predicate Increasing(ps: seq<nat>) {
    forall i, j :: 0 <= i < j < |ps| ==> ps[i] < ps[j]
  }

  /** The events at the given positions of a history. */
  function At<T>(history: seq<T>, ps: seq<nat>): seq<T>
    requires forall i :: 0 <= i < |ps| ==> ps[i] < |history|
  {
    seq(|ps|, i requires 0 <= i < |ps| => history[ps[i]])
  }

  /**
   A subscriber's channel against the history: what it was sent are the events at `ps`, in
   order and without repeats; what it still holds is the end of that; and if it missed
   nothing, `ps` runs up to the present without a gap.
   */
  ghost predicate StreamOk<T>(c: Chan<T>, ps: seq<nat>, history: seq<T>, whole: bool) {
    && |c.buf| <= c.cap && |c.buf| <= |ps|
    && (forall i :: 0 <= i < |ps| ==> ps[i] < |history|)
    && Increasing(ps)
    && c.buf == Last(At(history, ps), |c.buf|)
    && (whole ==> forall i :: 0 <= i < |ps| ==> ps[i] == |history| - |ps| + i)
  }

  lemma StreamGrows<T>(c: Chan<T>, ps: seq<nat>, history: seq<T>, whole: bool, e: T)
    requires StreamOk(c, ps, history, whole)
    ensures StreamOk(c, ps, history + [e], false)
    ensures |c.buf| < c.cap ==> StreamOk(Offer(c, e), ps + [|history|], history + [e], whole)
  {
    assert At(history + [e], ps) == At(history, ps);
    assert At(history + [e], ps + [|history|]) == At(history, ps) + [e];
  }

  lemma StreamWeaker<T>(c: Chan<T>, ps: seq<nat>, history: seq<T>, whole: bool)
    requires StreamOk(c, ps, history, whole)
    ensures StreamOk(c, ps, history, false) && StreamOk(c.(open := false), ps, history, false)
  {
  }

  lemma StreamReceives<T>(c: Chan<T>, ps: seq<nat>, history: seq<T>, whole: bool)
    requires StreamOk(c, ps, history, whole) && c.buf != []
    ensures StreamOk(c.(buf := c.buf[1..]), ps, history, whole)
    ensures |c.buf| <= |ps| && ps[|ps| - |c.buf|] < |history| && c.buf[0] == history[ps[|ps| - |c.buf|]]
  {
  }

  lemma {:induction false} PositionsFit(ps: seq<nat>, total: nat)
    requires Increasing(ps) && forall i :: 0 <= i < |ps| ==> ps[i] < total
    ensures |ps| <= total
  {
    if ps != [] {
      var last := |ps| - 1;
      forall i | 0 <= i < last ensures ps[..last][i] < ps[last] {
      }
      PositionsFit(ps[..last], ps[last]);
    }
  }

  /** What a subscriber was sent never repeats or reorders events, and without a miss it is the end of the history. */
  lemma StreamMeans<T>(c: Chan<T>, ps: seq<nat>, history: seq<T>, whole: bool)
    requires StreamOk(c, ps, history, whole)
    ensures |ps| <= |history|
    ensures whole ==> At(history, ps) == Last(history, |ps|)
  {
    PositionsFit(ps, |history|);
  }

  /** The ring holds the last events of the history, each in the slot of its position. */
  ghost predicate RingOk<T>(events: seq<T>, head: nat, size: nat, history: seq<T>) {
    && size > 0 && head == |history| % size
    && |events| == (if |history| < size then |history| else size)
    && (forall j :: |history| - |events| <= j < |history| ==> events[j % size] == history[j])
  }

  lemma NextHead(n: nat, size: nat)
    requires size > 0
    ensures (n % size + 1) % size == (n + 1) % size
  {
    var q, r := n / size, n % size;
    if r + 1 < size {
      ModUnique(r + 1, 0, r + 1, size);
      ModUnique(n + 1, q, r + 1, size);
    } else {
      ModUnique(r + 1, 1, 0, size);
      assert (q + 1) * size == q * size + size;
      ModUnique(n + 1, q + 1, 0, size);
    }
  }

  lemma SmallMod(j: int, size: int)
    requires 0 <= j < size
    ensures j % size == j
  {
    ModUnique(j, 0, j, size);
  }

  /** A ring that is not full is the history itself. */
  lemma NotFull<T>(events: seq<T>, head: nat, size: nat, history: seq<T>)
    requires RingOk(events, head, size, history) && |events| < size
    ensures events == history
  {
    forall j | 0 <= j < |history| ensures events[j] == history[j] {
      SmallMod(j, size);
      assert events[j % size] == history[j];
    }
  }

  lemma HistoryIsRing<T>(history: seq<T>, size: nat)
    requires size > 0 && |history| <= size
    ensures RingOk(history, |history| % size, size, history)
  {
    forall j | 0 <= j < |history| ensures history[j % size] == history[j] {
      SmallMod(j, size);
    }
  }

  lemma RingGrows<T>(events: seq<T>, head: nat, size: nat, history: seq<T>, e: T)
    requires RingOk(events, head, size, history) && |events| < size
    ensures RingOk(events + [e], (head + 1) % size, size, history + [e])
  {
    NotFull(events, head, size, history);
    NextHead(|history|, size);
    HistoryIsRing(events + [e], size);
  }

  lemma ModApart(j: int, n: int, size: int)
    requires size > 0 && n - size < j < n
    ensures j % size != n % size
  {
    var d := n / size - j / size;
    assert n - j == d * size + n % size - j % size;
    assert d * size <= 0 || d * size >= size;
  }

  lemma RingOverwrites<T>(events: seq<T>, head: nat, size: nat, history: seq<T>, e: T)
    requires RingOk(events, head, size, history) && |events| == size
    ensures RingOk(events[head := e], (head + 1) % size, size, history + [e])
  {
    var n := |history|;
    NextHead(n, size);
    forall j | n + 1 - size <= j <= n ensures events[head := e][j % size] == (history + [e])[j] {
      if j < n { ModApart(j, n, size); }
    }
  }

  /** What a non-blocking send makes of a channel, and of the record of what it was sent. */
  ghost predicate Tried<T>(c: Chan<T>, ps: seq<nat>, e: T, at: nat, c': Chan<T>, ps': seq<nat>) {
    if |c.buf| < c.cap then c' == Offer(c, e) && ps' == ps + [at] else c' == c && ps' == ps
  }

  /** A non-blocking send of `e` has been tried on the `reached` channels and on no other. */
  ghost predicate Offered<T>(was: map<nat, Chan<T>>, wasSent: map<nat, seq<nat>>, e: T, at: nat, reached: set<nat>,
                             chans: map<nat, Chan<T>>, sent: map<nat, seq<nat>>) {
    && chans.Keys == sent.Keys == was.Keys == wasSent.Keys
    && forall ch :: ch in was ==>
         if ch in reached then Tried(was[ch], wasSent[ch], e, at, chans[ch], sent[ch])
         else chans[ch] == was[ch] && sent[ch] == wasSent[ch]
  }

  lemma OfferedOneMore<T>(was: map<nat, Chan<T>>, wasSent: map<nat, seq<nat>>, e: T, at: nat, reached: set<nat>,
                          chans: map<nat, Chan<T>>, sent: map<nat, seq<nat>>, ch: nat, c: Chan<T>, ps: seq<nat>)
    requires Offered(was, wasSent, e, at, reached, chans, sent) && ch in was && ch !in reached
    requires Tried(was[ch], wasSent[ch], e, at, c, ps)
    ensures Offered(was, wasSent, e, at, reached + {ch}, chans[ch := c], sent[ch := ps])
  {
    hide Tried;
  }

  /** The channels that have missed an event once the `reached` ones have been tried. */
  function MissedBy<T>(was: map<nat, Chan<T>>, missed: set<nat>, reached: set<nat>): set<nat> {
    missed + set ch | ch in reached && ch in was && |was[ch].buf| >= was[ch].cap
  }

  /** What the record of the sends says of each channel. */
  lemma OfferedMeans<T>(was: map<nat, Chan<T>>, wasSent: map<nat, seq<nat>>, e: T, at: nat, reached: set<nat>,
                        chans: map<nat, Chan<T>>, sent: map<nat, seq<nat>>)
    requires Offered(was, wasSent, e, at, reached, chans, sent)
    ensures chans.Keys == sent.Keys == was.Keys == wasSent.Keys
    ensures forall ch :: ch in chans ==>
      && chans[ch].open == was[ch].open
      && chans[ch] == (if ch in reached then Offer(was[ch], e) else was[ch])
    ensures forall ch :: ch in sent ==>
      sent[ch] == if ch in reached && |was[ch].buf| < was[ch].cap then wasSent[ch] + [at] else wasSent[ch]
  {
  }

  lemma StillWhole<T>(was: map<nat, Chan<T>>, missed: set<nat>, subs: set<nat>)
    ensures subs - MissedBy(was, missed, subs) <= subs - missed
    ensures forall ch :: ch in subs - MissedBy(was, missed, subs) && ch in was ==> |was[ch].buf| < was[ch].cap
  {
  }

  lemma NothingOffered<T>(was: map<nat, Chan<T>>, wasSent: map<nat, seq<nat>>, e: T, at: nat, missed: set<nat>)
    requires was.Keys == wasSent.Keys
    ensures Offered(was, wasSent, e, at, {}, was, wasSent) && MissedBy(was, missed, {}) == missed
  {
  }

  lemma MissedOneMore<T>(was: map<nat, Chan<T>>, missed: set<nat>, reached: set<nat>, ch: nat)
    requires ch in was
    ensures MissedBy(was, missed, reached + {ch})
            == MissedBy(was, missed, reached) + if |was[ch].buf| < was[ch].cap then {} else {ch}
  {
  }

  function LastPositions(total: nat, n: nat): (ps: seq<nat>)
    requires n <= total
    ensures |ps| == n && forall i :: 0 <= i < n ==> ps[i] == total - n + i
  {
    seq(n, i requires 0 <= i < n => total - n + i)
  }

  /** A channel that holds the end of the history has a stream without gaps. */
  lemma ReplayOk<T>(c: Chan<T>, history: seq<T>)
    requires |c.buf| <= c.cap && |c.buf| <= |history| && c.buf == Last(history, |c.buf|)
    ensures StreamOk(c, LastPositions(|history|, |c.buf|), history, true)
    ensures StreamOk(c, LastPositions(|history|, |c.buf|), history, false)
  {
    assert At(history, LastPositions(|history|, |c.buf|)) == c.buf;
  }

  /** Every channel has its stream; those of `whole` have missed nothing. */
  ghost predicate StreamsOk<T>(chans: map<nat, Chan<T>>, sent: map<nat, seq<nat>>, history: seq<T>, whole: set<nat>)
    requires sent.Keys == chans.Keys
  {
    forall ch :: ch in chans ==> StreamOk(chans[ch], sent[ch], history, ch in whole)
  }

  /** A new channel that holds the end of the history joins them. */
  lemma StreamJoins<T>(chans: map<nat, Chan<T>>, sent: map<nat, seq<nat>>, history: seq<T>, whole: set<nat>,
                       ch: nat, c: Chan<T>, whole': set<nat>)
    requires sent.Keys == chans.Keys && StreamsOk(chans, sent, history, whole) && ch !in chans
    requires whole <= whole' <= whole + {ch}
    requires |c.buf| <= c.cap && |c.buf| <= |history| && c.buf == Last(history, |c.buf|)
    ensures StreamsOk(chans[ch := c], sent[ch := LastPositions(|history|, |c.buf|)], history, whole')
  {
    ReplayOk(c, history);
    hide StreamOk, LastPositions, Last;
  }

  /** So is what every channel has once a send of the next event has been tried on the `reached` ones. */
  lemma StreamsGrow<T>(was: map<nat, Chan<T>>, wasSent: map<nat, seq<nat>>, history: seq<T>, whole: set<nat>, e: T,
                       reached: set<nat>, chans: map<nat, Chan<T>>, sent: map<nat, seq<nat>>, whole': set<nat>)
    requires wasSent.Keys == was.Keys && StreamsOk(was, wasSent, history, whole) && whole' <= whole
    requires Offered(was, wasSent, e, |history|, reached, chans, sent)
    requires forall ch :: ch in whole' && ch in was ==> ch in reached && |was[ch].buf| < was[ch].cap
    ensures StreamsOk(chans, sent, history + [e], whole')
  {
    forall ch | ch in chans ensures StreamOk(chans[ch], sent[ch], history + [e], ch in whole') {
      StreamGrows(was[ch], wasSent[ch], history, ch in whole, e);
      hide StreamOk;
      if ch in whole && ch !in whole' {
        StreamWeaker(was[ch], wasSent[ch], history, true);
        StreamGrows(was[ch], wasSent[ch], history, false, e);
      }
    }
  }

  method FreshNumber(used: set<nat>) returns (n: nat)
    ensures n !in used
  {
    n := 0;
    var rest := used;
    while n in rest
      invariant rest <= used && forall k :: k in used && k !in rest ==> k < n
      decreases rest
    {
      rest := rest - {n};
      n := n + 1;
    }
  }

  class Feed<T> {
    var events: seq<T>
    var head: nat
    const size: nat
    var subs: set<nat>
    var closed: bool
    /** Every channel handed out, by number, and those already unsubscribed. */
    var chans: map<nat, Chan<T>>
    var done: set<nat>

    /** Everything written, and for each channel the positions of what it was sent, and whether it missed any. */
    ghost var history: seq<T>
    ghost var sent: map<nat, seq<nat>>
    ghost var missed: set<nat>
    /** The channels handed out after `Close`. */
    ghost var late: set<nat>

    ghost predicate RingValid()
      reads this`events, this`head, this`history
    {
      size > 0 && head < size && |events| <= size && RingOk(events, head, size, history)
    }

    /** A channel is open until its own unsubscribing or `Close`; one handed out after `Close` is open for ever. */
    ghost predicate OpenValid()
      reads this`chans, this`closed, this`done, this`late
    {
      && (!closed ==> late == {})
      && (forall ch :: ch in chans ==> (chans[ch].open <==> if closed then ch in late else ch !in done))
    }

    ghost predicate StreamsValid()
      reads this`chans, this`sent, this`history, this`subs, this`missed
    {
      sent.Keys == chans.Keys && StreamsOk(chans, sent, history, subs - missed)
    }

    /** What every method keeps; in particular a registered channel is open, so no send or close can panic. */
    ghost predicate Valid()
      reads this
    {
      && RingValid() && StreamsValid()
      && subs <= chans.Keys && done <= chans.Keys && subs !! done
      && (closed ==> subs == {})
      && (!closed ==> forall ch :: ch in chans && ch !in done ==> ch in subs)
      && OpenValid()
    }

    constructor (capacity: int)
      ensures Valid() && history == [] && !closed && chans == map[]
      ensures size == if capacity <= 0 then 256 else capacity
    {
      size := if capacity <= 0 then 256 else capacity;
      events, head, subs, closed, chans, done := [], 0, {}, false, map[], {};
      history, sent, missed, late := [], map[], {}, {};
    }

    /** The number of events `Recent(n)` returns. */
    function Count(n: int): nat
      reads this
    {
      if n <= 0 || n > |events| then |events| else n
    }

    lemma RingFits()
      requires RingValid()
      ensures |events| <= |history|
    {
    }

    lemma RingAt(j: int)
      requires RingValid() && |history| - |events| <= j < |history|
      ensures j % size < |events| && events[j % size] == history[j]
    {
      if |history| <= size {
        SmallMod(j, size);
      }
    }

    /** The slot that holds the event `back` places before the end. */
    lemma SlotHolds(back: nat)
      requires RingValid() && 1 <= back <= |events|
      ensures 0 <= Slot(head, back, size) < |events|
      ensures events[Slot(head, back, size)] == history[|history| - back]
    {
      SlotIsMod(|history|, back, size);
      RingAt(|history| - back);
    }

    /** The last events written, oldest first. */
    method Recent(n: int) returns (out: seq<T>)
      requires Valid()
      ensures out == Last(history, Count(n))
    {
      hide Slot, RingOk, StreamsOk, OpenValid;
      RingFits();
      var m := Count(n);
      out := [];
      for i := 0 to m
        invariant out == history[|history| - m..|history| - m + i]
      {
        var idx := Slot(head, m - i, size);
        SlotHolds(m - i);
        OneMore(history, |history| - m, |history| - m + i);
        if idx < |events| {
          out := out + [events[idx]];
        }
      }
    }

    /** Appends to the ring, or overwrites its oldest event. */
    method Push(e: T)
      requires RingValid()
      modifies this`events, this`head, this`history
      ensures RingValid() && history == old(history) + [e]
    {
      hide RingOk;
      if |events| < size {
        RingGrows(events, head, size, history, e);
        events := events + [e];
      } else {
        RingOverwrites(events, head, size, history, e);
        events := events[head := e];
      }
      head := (head + 1) % size;
      history := history + [e];
    }

    /** The non-blocking send; sending on a closed channel would panic. */
    method TrySend(ch: nat, e: T, ghost at: nat)
      requires ch in chans && ch in sent && chans[ch].open
      modifies this`chans, this`sent, this`missed
      ensures ch in chans && ch in sent && Tried(old(chans)[ch], old(sent)[ch], e, at, chans[ch], sent[ch])
      ensures chans == old(chans)[ch := chans[ch]] && sent == old(sent)[ch := sent[ch]]
      ensures missed == if |old(chans)[ch].buf| < old(chans)[ch].cap then old(missed) else old(missed) + {ch}
    {
      if |chans[ch].buf| < chans[ch].cap {
        chans := chans[ch := Offer(chans[ch], e)];
        sent := sent[ch := sent[ch] + [at]];
      } else {
        missed := missed + {ch};
      }
    }

    /** Offers the event written at position `at` to every subscriber; full buffers miss it. */
    method Broadcast(e: T, ghost at: nat)
      requires subs <= chans.Keys && sent.Keys == chans.Keys && forall ch :: ch in subs ==> chans[ch].open
      modifies this`chans, this`sent, this`missed
      ensures Offered(old(chans), old(sent), e, at, subs, chans, sent)
      ensures missed == MissedBy(old(chans), old(missed), subs)
    {
      hide Offered, MissedBy, Tried, Offer;
      ghost var was, wasSent := chans, sent;
      NothingOffered(was, wasSent, e, at, missed);
      var rest := subs;
      assert subs - rest == {};
      while rest != {}
        invariant rest <= subs && chans.Keys == sent.Keys == was.Keys
        invariant forall ch :: ch in rest ==> chans[ch] == was[ch] && sent[ch] == wasSent[ch]
        invariant Offered(was, wasSent, e, at, subs - rest, chans, sent)
        invariant missed == MissedBy(was, old(missed), subs - rest)
        decreases rest
      {
        var ch :| ch in rest;
        ghost var nowChans, nowSent := chans, sent;
        TrySend(ch, e, at);
        OfferedOneMore(was, wasSent, e, at, subs - rest, nowChans, nowSent, ch, chans[ch], sent[ch]);
        MissedOneMore(was, old(missed), subs - rest, ch);
        assert subs - rest + {ch} == subs - (rest - {ch});
        rest := rest - {ch};
      }
      assert subs - rest == subs;
    }

    /** Adds the event to the ring and offers it to every subscriber. */
    method Deliver(e: T)
      requires Valid()
      modifies this`events, this`head, this`history, this`chans, this`sent, this`missed
      ensures RingValid() && StreamsValid() && history == old(history) + [e]
      ensures Offered(old(chans), old(sent), e, |old(history)|, subs, chans, sent)
      ensures missed == MissedBy(old(chans), old(missed), subs)
    {
      hide RingOk, StreamsOk, Offered, MissedBy;
      ghost var was, wasSent, whole, h := chans, sent, subs - missed, history;
      StillWhole(was, missed, subs);
      Push(e);
      Broadcast(e, |h|);
      OfferedMeans(was, wasSent, e, |h|, subs, chans, sent);
      StreamsGrow(was, wasSent, h, whole, e, subs, chans, sent, subs - missed);
    }

    /** Never blocks: a subscriber whose buffer is full misses the event. */
    method Write(e: T)
      requires Valid()
      modifies this`events, this`head, this`history, this`chans, this`sent, this`missed
      ensures Valid() && closed == old(closed) && subs == old(subs) && done == old(done) && late == old(late)
      ensures closed ==> history == old(history) && chans == old(chans)
      ensures !closed ==>
        && history == old(history) + [e] && chans.Keys == old(chans).Keys
        && (forall ch :: ch in chans ==>
              chans[ch] == if ch in subs then Offer(old(chans)[ch], e) else old(chans)[ch])
        && (forall ch :: ch in chans ==>
              sent[ch] == if ch in subs && |old(chans)[ch].buf| < old(chans)[ch].cap
                          then old(sent)[ch] + [|old(history)|] else old(sent)[ch])
        && missed == MissedBy(old(chans), old(missed), subs)
    {
      hide RingValid, StreamsValid, Offered, Offer, MissedBy;
      if closed { return; }
      Deliver(e);
      OfferedMeans(old(chans), old(sent), e, |old(history)|, subs, chans, sent);
    }

    method Register(ch: nat, c: Chan<T>)
      requires Valid() && ch !in chans && c.open && |c.buf| <= c.cap
      requires |c.buf| <= |history| && c.buf == Last(history, |c.buf|)
      modifies this`chans, this`subs, this`sent, this`late
      ensures Valid() && late == (if closed then old(late) + {ch} else {})
      ensures chans == old(chans)[ch := c] && sent == old(sent)[ch := LastPositions(|history|, |c.buf|)]
      ensures subs == if closed then old(subs) else old(subs) + {ch}
    {
      hide RingValid, StreamsOk, LastPositions, Last;
      if !closed {
        subs := subs + {ch};
      } else {
        late := late + {ch};
      }
      sent := sent[ch := LastPositions(|history|, |c.buf|)];
      chans := chans[ch := c];
      StreamJoins(old(chans), old(sent), history, old(subs) - missed, ch, c, subs - missed);
    }

    /** Fills a new channel with as much recent history as it has room for; no send can block. */
    method Replay(cap: nat) returns (c: Chan<T>)
      requires Valid()
      ensures c == Chan(cap, Last(history, if |events| > cap then cap else |events|), true)
      ensures |events| <= |history|
    {
      hide Slot, RingOk, StreamsOk, OpenValid;
      RingFits();
      c := Chan(cap, [], true);
      var m := if |events| > cap then cap else |events|;
      for i := 0 to m
        invariant c == Chan(cap, history[|history| - m..|history| - m + i], true)
      {
        var idx := Slot(head, m - i, size);
        SlotHolds(m - i);
        OneMore(history, |history| - m, |history| - m + i);
        if idx < |events| {
          c := Offer(c, events[idx]);
        }
      }
    }

    /** Hands out channel `ch` with recent history in it, and registers it unless the feed is closed. */
    method Subscribe(buf: int) returns (ch: nat)
      requires Valid()
      modifies this`chans, this`subs, this`sent, this`late
      ensures Valid() && late == (if closed then old(late) + {ch} else {})
      ensures ch !in old(chans) && chans.Keys == old(chans).Keys + {ch}
      ensures forall c :: c in old(chans) ==> chans[c] == old(chans)[c] && sent[c] == old(sent)[c]
      ensures var cap := if buf <= 0 then 64 else buf;
              var n := if closed then 0 else if |events| > cap then cap else |events|;
              chans[ch] == Chan(cap, Last(history, n), true)
      ensures subs == if closed then old(subs) else old(subs) + {ch}
      ensures sent[ch] == LastPositions(|history|, |chans[ch].buf|)
    {
      hide RingValid, StreamsValid, LastPositions;
      var cap := if buf <= 0 then 64 else buf;
      ch := FreshNumber(chans.Keys);
      var c: Chan<T> := Chan(cap, [], true);
      if !closed {
        c := Replay(cap);
      }
      Register(ch, c);
    }

    /** Closing a channel twice would panic. */
    method CloseChan(ch: nat)
      requires ch in chans && chans[ch].open
      modifies this`chans
      ensures chans == old(chans)[ch := old(chans)[ch].(open := false)]
    {
      chans := chans[ch := chans[ch].(open := false)];
    }

    /** Each closure runs once; it closes the channel unless `Close` already has. */
    method Unsubscribe(ch: nat)
      requires Valid() && ch in chans
      modifies this`chans, this`subs, this`done
      ensures Valid() && done == old(done) + {ch} && subs == old(subs) - {ch}
      ensures chans == if ch in old(done) || closed then old(chans)
                       else old(chans)[ch := old(chans)[ch].(open := false)]
    {
      hide RingOk, StreamOk;
      if ch in done { return; }
      StreamWeaker(chans[ch], sent[ch], history, ch in subs && ch !in missed);
      done := done + {ch};
      subs := subs - {ch};
      if !closed {
        CloseChan(ch);
      }
    }

    method CloseAll()
      requires forall ch :: ch in subs ==> ch in chans && chans[ch].open
      modifies this`chans
      ensures chans.Keys == old(chans).Keys
      ensures forall ch :: ch in chans ==>
        chans[ch] == if ch in subs then old(chans)[ch].(open := false) else old(chans)[ch]
    {
      ghost var was := chans;
      var rest := subs;
      while rest != {}
        invariant rest <= subs && chans.Keys == was.Keys
        invariant forall ch :: ch in chans ==>
          chans[ch] == if ch in subs && ch !in rest then was[ch].(open := false) else was[ch]
        decreases rest
      {
        var ch :| ch in rest;
        CloseChan(ch);
        rest := rest - {ch};
      }
    }

    method Close()
      requires Valid()
      modifies this`closed, this`chans, this`subs
      ensures Valid() && closed && subs == {} && chans.Keys == old(chans).Keys
      ensures forall ch :: ch in chans ==>
        chans[ch] == if ch in old(subs) then old(chans)[ch].(open := false) else old(chans)[ch]
    {
      hide RingOk, StreamOk;
      if closed { return; }
      forall ch | ch in chans {
        StreamWeaker(chans[ch], sent[ch], history, ch in subs && ch !in missed);
      }
      closed := true;
      CloseAll();
      subs := {};
    }

    /** The subscriber takes the oldest event it has been sent and not yet taken, from a closed channel too. */
    method Receive(ch: nat) returns (e: Option<T>)
      requires Valid() && ch in chans
      modifies this`chans
      ensures Valid()
      ensures old(chans)[ch].buf == [] ==> e == None && chans == old(chans)
      ensures var c, ps := old(chans)[ch], sent[ch];
        c.buf != [] ==>
          && chans == old(chans)[ch := c.(buf := c.buf[1..])]
          && |c.buf| <= |ps| && ps[|ps| - |c.buf|] < |history|
          && e == Some(history[ps[|ps| - |c.buf|]])
    {
      hide RingOk, StreamOk;
      if chans[ch].buf == [] { return None; }
      StreamReceives(chans[ch], sent[ch], history, ch in subs && ch !in missed);
      e := Some(chans[ch].buf[0]);
      chans := chans[ch := chans[ch].(buf := chans[ch].buf[1..])];
    }
  }
}
