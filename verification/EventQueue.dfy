/**
 The event pipeline: emitters, the goroutine that drains the queue, and `Close`, with every
 lock, channel operation and sink call a step of its own.
 */
module EventQueue {
  import opened Sequences

  /** How far one `Emit` call has come. */
  datatype Emit =
    | Started
    | Checked          // saw the pipeline open
    | Refused          // saw it closed
    | Full             // found the buffer full, not yet counted
    | Dropped
    | Accepted(at: nat)
    | Panicked         // sent on a closed channel

  /** One loop that takes events and dispatches them. */
  datatype Worker =
    | Idle
    | Taken(e: nat)
    | Writing(e: nat, k: nat, n: nat)  // sinks below `k` of `n` written
    | Exited

  datatype Closer =
    | NotCalled
    | Flagged
    | Cancelled
    | Draining(w: Worker)
    | Waiting
    | Closing(k: nat, n: nat)
    | Returned

  datatype Config = Config(cap: nat, sinks: nat)

  /**
   Events are numbered in the order the queue accepted them, `accepted[n]` being the `Emit`
   call of number `n`; the queue holds the numbers from `head` on. `writes` records (sink,
   event) pairs, and `stale` for each whether the pipeline had been cancelled, so that the
   sink was given a context already done. `midway` are the calls between check and send when
   the queue was closed, `cancelHead` the number of events taken by the time of `Cancel`.
   */
  datatype State = State(
    emits: seq<Emit>, accepted: seq<nat>, head: nat, dropped: nat,
    closed: bool, cancelled: bool, queueClosed: bool,
    sinks: nat, sinksClosed: nat,
    drain: Worker, closer: Closer, timedOut: bool, closerTook: bool,
    midway: set<nat>, writes: seq<(nat, nat)>, stale: seq<bool>, cancelHead: nat)

  function Start(c: Config): State {
    State([], [], 0, 0, false, false, false, c.sinks, 0, Idle, NotCalled, false, false, {}, [], [], 0)
  }

  datatype EmitStep = Check | Send | CountDrop
  datatype DrainStep = DrainTake | DrainDispatch | DrainExit
  datatype CloseStep =
    | Close | Cancel | CloseQueue
    | CloserTake | CloserDispatch | QueueEmpty | Deadline
    | Joined | CloseSink | Return

  datatype Step =
    | Arrive | OfEmit(i: nat, emit: EmitStep) | OfDrain(drain: DrainStep) | OfClose(close: CloseStep) | AddSink

  predicate Busy(w: Worker) {
    w.Taken? || w.Writing?
  }

  /** The queue is not empty. */
  predicate Pending(s: State) {
    s.head < |s.accepted|
  }

  predicate Enabled(s: State, step: Step) {
    match step
    case Arrive => true
    case OfEmit(i, Check) => i < |s.emits| && s.emits[i].Started?
    case OfEmit(i, Send) => i < |s.emits| && s.emits[i].Checked?
    case OfEmit(i, CountDrop) => i < |s.emits| && s.emits[i].Full?
    case OfDrain(DrainTake) => s.drain.Idle? && Pending(s)
    case OfDrain(DrainDispatch) => Busy(s.drain)
    case OfDrain(DrainExit) => s.drain.Idle? && (s.cancelled || (s.queueClosed && !Pending(s)))
    case OfClose(Close) => s.closer.NotCalled?
    case OfClose(Cancel) => s.closer.Flagged?
    case OfClose(CloseQueue) => s.closer.Cancelled?
    case OfClose(CloserTake) => s.closer == Draining(Idle) && Pending(s)
    case OfClose(CloserDispatch) => s.closer.Draining? && Busy(s.closer.w)
    case OfClose(QueueEmpty) => s.closer == Draining(Idle) && !Pending(s)
    case OfClose(Deadline) => s.closer == Draining(Idle)
    case OfClose(Joined) => s.closer.Waiting? && s.drain.Exited?
    case OfClose(CloseSink) => s.closer.Closing? && s.closer.k < s.closer.n
    case OfClose(Return) => s.closer.Closing? && s.closer.k == s.closer.n
    case AddSink => true
  }

  /** Copies the list of sinks, then writes to one after the other. */
  function Dispatch(w: Worker, sinks: nat): (Worker, seq<(nat, nat)>)
    requires Busy(w)
  {
    if w.Taken? then (Writing(w.e, 0, sinks), [])
    else if w.k < w.n then (Writing(w.e, w.k + 1, w.n), [(w.k, w.e)])
    else (Idle, [])
  }

  /** Whether the context of the next `n` writes is done. */
  function Stamps(s: State, n: nat): (bs: seq<bool>)
    ensures |bs| == n && forall j :: 0 <= j < n ==> bs[j] == s.cancelled
  {
    seq(n, _ => s.cancelled)
  }

  function EmitNext(s: State, i: nat, step: EmitStep, c: Config): (s': State)
    requires Enabled(s, OfEmit(i, step))
    ensures s' == s.(emits := s'.emits, accepted := s'.accepted, dropped := s'.dropped)
  {
    match step
    case Check => s.(emits := s.emits[i := if s.closed then Refused else Checked])
    case Send =>
      if s.queueClosed then s.(emits := s.emits[i := Panicked])
      else if |s.accepted| - s.head < c.cap then
        s.(emits := s.emits[i := Accepted(|s.accepted|)], accepted := s.accepted + [i])
      else s.(emits := s.emits[i := Full])
    case CountDrop => s.(emits := s.emits[i := Dropped], dropped := s.dropped + 1)
  }

  function DrainNext(s: State, step: DrainStep): (s': State)
    requires Enabled(s, OfDrain(step))
    ensures s' == s.(drain := s'.drain, head := s'.head, writes := s'.writes, stale := s'.stale)
  {
    match step
    case DrainTake => s.(drain := Taken(s.head), head := s.head + 1)
    case DrainDispatch =>
      var (w, ws) := Dispatch(s.drain, s.sinks);
      s.(drain := w, writes := s.writes + ws, stale := s.stale + Stamps(s, |ws|))
    case DrainExit => s.(drain := Exited)
  }

  function Midway(emits: seq<Emit>): set<nat> {
    set i: nat | i < |emits| && emits[i].Checked?
  }

  function CloseNext(s: State, step: CloseStep): (s': State)
    requires Enabled(s, OfClose(step))
    ensures s'.emits == s.emits && s'.accepted == s.accepted && s'.dropped == s.dropped && s'.drain == s.drain
    ensures s'.sinks == s.sinks && (step != CloserTake ==> s'.head == s.head)
    ensures step != CloserDispatch ==> s'.writes == s.writes
    ensures step != CloseQueue ==> s'.midway == s.midway && s'.queueClosed == s.queueClosed
  {
    match step
    case Close => s.(closer := Flagged, closed := true)
    case Cancel => s.(closer := Cancelled, cancelled := true, cancelHead := s.head)
    case CloseQueue => s.(closer := Draining(Idle), queueClosed := true, midway := Midway(s.emits))
    case CloserTake => s.(closer := Draining(Taken(s.head)), head := s.head + 1, closerTook := true)
    case CloserDispatch =>
      var (w, ws) := Dispatch(s.closer.w, s.sinks);
      s.(closer := Draining(w), writes := s.writes + ws, stale := s.stale + Stamps(s, |ws|))
    case QueueEmpty => s.(closer := Waiting)
    case Deadline => s.(closer := Waiting, timedOut := true)
    case Joined => s.(closer := Closing(0, s.sinks))
    case CloseSink => s.(closer := Closing(s.closer.k + 1, s.closer.n), sinksClosed := s.sinksClosed + 1)
    case Return => s.(closer := Returned)
  }

  function Next(s: State, step: Step, c: Config): State
    requires Enabled(s, step)
  {
    match step
    case Arrive => s.(emits := s.emits + [Started])
    case OfEmit(i, e) => EmitNext(s, i, e, c)
    case OfDrain(d) => DrainNext(s, d)
    case OfClose(cl) => CloseNext(s, cl)
    case AddSink => s.(sinks := s.sinks + 1)
  }

  ghost predicate IsRun(s: State, steps: seq<Step>, c: Config)
    decreases |steps|
  {
    steps != [] ==> Enabled(s, steps[0]) && IsRun(Next(s, steps[0], c), steps[1..], c)
  }

  function End(s: State, steps: seq<Step>, c: Config): State
    requires IsRun(s, steps, c)
    decreases |steps|
  {
    if steps == [] then s else End(Next(s, steps[0], c), steps[1..], c)
  }

  // ----- Every emitted event is accounted for -----

  function DroppedOnes(emits: seq<Emit>): set<nat> {
    set i: nat | i < |emits| && emits[i].Dropped?
  }

  /** Queue numbers and accepted calls are the same thing seen from both sides. */
  predicate Numbered(emits: seq<Emit>, accepted: seq<nat>) {
    && (forall n :: 0 <= n < |accepted| ==> accepted[n] < |emits| && emits[accepted[n]] == Accepted(n))
    && (forall i :: 0 <= i < |emits| && emits[i].Accepted? ==>
          emits[i].at < |accepted| && accepted[emits[i].at] == i)
  }

  /** Exactly the calls caught between check and send panic. */
  predicate PanicsMidway(s: State) {
    if s.queueClosed then
      && (forall i :: 0 <= i < |s.emits| && (s.emits[i].Checked? || s.emits[i].Panicked?) ==> i in s.midway)
      && (forall i :: i in s.midway ==> i < |s.emits| && (s.emits[i].Checked? || s.emits[i].Panicked?))
    else
      s.midway == {} && forall i :: 0 <= i < |s.emits| ==> !s.emits[i].Panicked?
  }

  predicate Refusals(s: State) {
    forall i :: 0 <= i < |s.emits| && s.emits[i].Refused? ==> s.closed
  }

  predicate DropsCounted(s: State) {
    s.dropped == |DroppedOnes(s.emits)|
  }

  predicate Accounted(s: State, c: Config) {
    && |s.accepted| <= s.head + c.cap
    && Numbered(s.emits, s.accepted)
    && DropsCounted(s)
    && PanicsMidway(s) && Refusals(s)
  }

  // ----- The phases of Close -----

  function Phase(cl: Closer): nat {
    match cl
    case NotCalled => 0
    case Flagged => 1
    case Cancelled => 2
    case Draining(_) => 3
    case Waiting => 4
    case Closing(_, _) => 5
    case Returned => 6
  }

  function CloserWorker(s: State): Worker {
    if s.closer.Draining? then s.closer.w else Idle
  }

  predicate Phased(s: State) {
    var p := Phase(s.closer);
    && (s.closed <==> p >= 1) && (s.cancelled <==> p >= 2) && (s.queueClosed <==> p >= 3)
    && (s.closerTook ==> p >= 3) && (Busy(CloserWorker(s)) ==> s.closerTook)
    && (p >= 5 ==> s.drain.Exited?)
    && (p < 5 ==> s.sinksClosed == 0)
    && s.head <= |s.accepted| && (p >= 4 && !s.timedOut ==> s.head == |s.accepted|)
    && (s.closer.Draining? ==> !s.closer.w.Exited?)
    && (s.timedOut ==> p >= 4)
    && (s.closer.Closing? ==> s.sinksClosed == s.closer.k <= s.closer.n <= s.sinks)
  }

  /** Once `Close` is through, every sink there from the start has been closed. */
  predicate SinksShut(s: State, c: Config) {
    && c.sinks <= s.sinks
    && (s.closer.Closing? ==> c.sinks <= s.closer.n)
    && (s.closer.Returned? ==> c.sinks <= s.sinksClosed)
  }

  // ----- What reaches the sinks -----

  /** Worker `w` has taken event `e` but sink `k` does not have it yet. */
  predicate Underway(w: Worker, k: nat, e: nat) {
    Busy(w) && w.e == e && (w.Taken? || w.k <= k)
  }

  predicate Delivered(head: nat, v: Worker, w: Worker, k: nat, e: nat) {
    e < head && !Underway(v, k, e) && !Underway(w, k, e)
  }

  function Times(writes: seq<(nat, nat)>, k: nat, e: nat): nat {
    multiset(writes)[(k, e)]
  }

  /** No sink has an event twice, and sinks there from the start have every delivered event. */
  ghost predicate OnceEach(writes: seq<(nat, nat)>, head: nat, v: Worker, w: Worker, c: Config) {
    forall k: nat, e: nat :: Times(writes, k, e) <= 1
      && (!Delivered(head, v, w, k, e) ==> Times(writes, k, e) == 0)
      && (Delivered(head, v, w, k, e) && k < c.sinks ==> Times(writes, k, e) == 1)
  }

  predicate WorkerOk(w: Worker, head: nat, c: Config) {
    Busy(w) ==> w.e < head && (w.Writing? ==> c.sinks <= w.n && w.k <= w.n)
  }

  ghost predicate WorkersOk(writes: seq<(nat, nat)>, head: nat, v: Worker, w: Worker, c: Config) {
    && WorkerOk(v, head, c) && WorkerOk(w, head, c)
    && (Busy(v) && Busy(w) ==> v.e != w.e)
    && OnceEach(writes, head, v, w, c)
  }

  ghost predicate Dispatched(s: State, c: Config) {
    c.sinks <= s.sinks && WorkersOk(s.writes, s.head, s.drain, CloserWorker(s), c)
  }

  /** Writes carry a done context from `Cancel` on, and so does every write of an event taken after it. */
  predicate Stamped(s: State) {
    && |s.stale| == |s.writes|
    && (s.cancelled ==> s.cancelHead <= s.head)
    && (forall j :: 0 <= j < |s.writes| ==> s.writes[j].1 < s.head)
    && (forall j :: 0 <= j < |s.writes| && s.cancelled && s.cancelHead <= s.writes[j].1 ==> s.stale[j])
    && (forall j :: 0 <= j < |s.writes| && !s.cancelled ==> !s.stale[j])
  }

  /** The events written to sink `k`, in order. */
  function Received(writes: seq<(nat, nat)>, k: nat): seq<nat> {
    if writes == [] then [] else
    var r := Received(writes[..|writes| - 1], k);
    var w := writes[|writes| - 1];
    if w.0 == k then r + [w.1] else r
  }

  function UpTo(n: nat): (s: seq<nat>)
    ensures |s| == n && forall i :: 0 <= i < n ==> s[i] == i
  {
    seq(n, i => i)
  }

  /** Worker `w` has an event that sink `k` does not have yet. */
  predicate Holds(w: Worker, k: nat) {
    Busy(w) && Underway(w, k, w.e)
  }

  /** Sink `k` has the events in order, all but at most one that a single worker holds. */
  predicate InOrder(writes: seq<(nat, nat)>, head: nat, v: Worker, w: Worker, k: nat) {
    && !(Holds(v, k) && Holds(w, k))
    && (Holds(v, k) ==> v.e == head - 1) && (Holds(w, k) ==> w.e == head - 1)
    && Received(writes, k) == if Holds(v, k) || Holds(w, k) then UpTo(head - 1) else UpTo(head)
  }

  ghost predicate Inv(s: State, c: Config) {
    Accounted(s, c) && Phased(s) && SinksShut(s, c) && Dispatched(s, c) && Stamped(s)
  }

  // ----- Every step keeps the invariant -----

  lemma CallsNext(s: State, step: Step, c: Config)
    requires Enabled(s, step)
    ensures var s' := Next(s, step, c);
            (s'.emits, s'.accepted, s'.dropped) ==
              if step.Arrive? then (s.emits + [Started], s.accepted, s.dropped)
              else if step.OfEmit? then
                var e := EmitNext(s, step.i, step.emit, c);
                (e.emits, e.accepted, e.dropped)
              else (s.emits, s.accepted, s.dropped)
  {
    hide EmitNext, DrainNext, CloseNext;
  }

  lemma NotAccepted(emits: seq<Emit>, accepted: seq<nat>, i: nat, e: Emit)
    requires Numbered(emits, accepted) && i < |emits| && !emits[i].Accepted? && !e.Accepted?
    ensures Numbered(emits[i := e], accepted)
  {
  }

  lemma NextAccepted(emits: seq<Emit>, accepted: seq<nat>, i: nat)
    requires Numbered(emits, accepted) && i < |emits| && !emits[i].Accepted?
    ensures Numbered(emits[i := Accepted(|accepted|)], accepted + [i])
  {
  }

  lemma NumberedEmit(s: State, i: nat, step: EmitStep, c: Config)
    requires Enabled(s, OfEmit(i, step)) && Numbered(s.emits, s.accepted)
    ensures var s' := EmitNext(s, i, step, c); Numbered(s'.emits, s'.accepted)
  {
    var s' := EmitNext(s, i, step, c);
    if |s'.accepted| > |s.accepted| {
      NextAccepted(s.emits, s.accepted, i);
    } else {
      NotAccepted(s.emits, s.accepted, i, s'.emits[i]);
    }
    hide Numbered;
  }

  lemma DroppedOnesUpdate(emits: seq<Emit>, i: nat, e: Emit)
    requires i < |emits| && !emits[i].Dropped?
    ensures |DroppedOnes(emits[i := e])| == |DroppedOnes(emits)| + if e.Dropped? then 1 else 0
  {
    assert DroppedOnes(emits[i := e]) == DroppedOnes(emits) + if e.Dropped? then {i} else {};
  }

  lemma DropsEmit(s: State, i: nat, step: EmitStep, c: Config)
    requires Enabled(s, OfEmit(i, step)) && DropsCounted(s)
    ensures DropsCounted(EmitNext(s, i, step, c))
  {
    var s' := EmitNext(s, i, step, c);
    DroppedOnesUpdate(s.emits, i, s'.emits[i]);
    hide DroppedOnes;
  }

  lemma NumberedNext(s: State, step: Step, c: Config)
    requires Enabled(s, step) && Numbered(s.emits, s.accepted)
    ensures var s' := Next(s, step, c); Numbered(s'.emits, s'.accepted)
  {
    CallsNext(s, step, c);
    hide Next, EmitNext;
    if step.OfEmit? {
      NumberedEmit(s, step.i, step.emit, c);
    }
  }

  lemma DropsNext(s: State, step: Step, c: Config)
    requires Enabled(s, step) && DropsCounted(s)
    ensures DropsCounted(Next(s, step, c))
  {
    CallsNext(s, step, c);
    hide Next, EmitNext;
    if step.OfEmit? {
      DropsEmit(s, step.i, step.emit, c);
    } else {
      assert DroppedOnes(s.emits + [Started]) == DroppedOnes(s.emits);
    }
  }

  lemma PanicsEmit(s: State, i: nat, step: EmitStep, c: Config)
    requires Enabled(s, OfEmit(i, step)) && PanicsMidway(s) && Refusals(s) && (s.queueClosed ==> s.closed)
    ensures PanicsMidway(EmitNext(s, i, step, c)) && Refusals(EmitNext(s, i, step, c))
  {
  }

  lemma PanicsClose(s: State, step: CloseStep)
    requires Enabled(s, OfClose(step)) && PanicsMidway(s) && Refusals(s) && Phased(s)
    ensures PanicsMidway(CloseNext(s, step)) && Refusals(CloseNext(s, step))
  {
    hide Dispatch, Pending;
  }

  lemma PanicsNext(s: State, step: Step, c: Config)
    requires Enabled(s, step) && PanicsMidway(s) && Refusals(s) && Phased(s)
    ensures PanicsMidway(Next(s, step, c)) && Refusals(Next(s, step, c))
  {
    hide DrainNext, Dispatch, Pending, EmitNext, CloseNext;
    match step
    case OfEmit(i, e) => PanicsEmit(s, i, e, c);
    case OfClose(cl) => PanicsClose(s, cl);
    case _ =>
  }

  lemma AccountedNext(s: State, step: Step, c: Config)
    requires Enabled(s, step) && Accounted(s, c) && Phased(s)
    ensures Accounted(Next(s, step, c), c)
  {
    NumberedNext(s, step, c);
    DropsNext(s, step, c);
    PanicsNext(s, step, c);
    hide Numbered, DropsCounted, PanicsMidway, Refusals, Midway, Dispatch, Phased;
  }

  lemma PhasedNext(s: State, step: Step, c: Config)
    requires Enabled(s, step) && Phased(s)
    ensures Phased(Next(s, step, c))
  {
    hide Midway;
  }

  lemma SinksShutNext(s: State, step: Step, c: Config)
    requires Enabled(s, step) && Phased(s) && SinksShut(s, c)
    ensures SinksShut(Next(s, step, c), c)
  {
    hide EmitNext, DrainNext, Midway, Dispatch;
  }

  lemma TakeKeeps(writes: seq<(nat, nat)>, head: nat, v: Worker, w: Worker, c: Config)
    requires WorkersOk(writes, head, v, w, c) && !Busy(v)
    ensures WorkersOk(writes, head + 1, Taken(head), w, c)
  {
    hide Times;
  }

  lemma OneMoreWrite(writes: seq<(nat, nat)>, x: (nat, nat), k: nat, e: nat)
    ensures Times(writes + [x], k, e) == Times(writes, k, e) + if x == (k, e) then 1 else 0
  {
  }

  lemma WriteKeeps(writes: seq<(nat, nat)>, head: nat, v: Worker, w: Worker, c: Config)
    requires WorkersOk(writes, head, v, w, c) && v.Writing? && v.k < v.n
    ensures WorkersOk(writes + [(v.k, v.e)], head, v.(k := v.k + 1), w, c)
  {
    hide Times;
    forall k: nat, e: nat
      ensures Times(writes + [(v.k, v.e)], k, e) == Times(writes, k, e) + if (v.k, v.e) == (k, e) then 1 else 0
    {
      OneMoreWrite(writes, (v.k, v.e), k, e);
    }
  }

  lemma DispatchKeeps(writes: seq<(nat, nat)>, head: nat, v: Worker, w: Worker, sinks: nat, c: Config)
    requires WorkersOk(writes, head, v, w, c) && Busy(v) && c.sinks <= sinks
    ensures var (v', ws) := Dispatch(v, sinks); WorkersOk(writes + ws, head, v', w, c)
  {
    if v.Writing? && v.k < v.n {
      WriteKeeps(writes, head, v, w, c);
    } else {
      assert writes + [] == writes;
      hide Times;
    }
  }

  lemma Either(writes: seq<(nat, nat)>, head: nat, v: Worker, w: Worker, c: Config)
    requires WorkersOk(writes, head, v, w, c)
    ensures WorkersOk(writes, head, w, v, c)
  {
    hide Times, Underway;
  }

  lemma OtherTakes(writes: seq<(nat, nat)>, head: nat, v: Worker, w: Worker, c: Config)
    requires WorkersOk(writes, head, v, w, c) && !Busy(w)
    ensures WorkersOk(writes, head + 1, v, Taken(head), c)
  {
    hide WorkersOk;
    Either(writes, head, v, w, c);
    TakeKeeps(writes, head, w, v, c);
    Either(writes, head + 1, Taken(head), v, c);
  }

  lemma OtherDispatches(writes: seq<(nat, nat)>, head: nat, v: Worker, w: Worker, sinks: nat, c: Config)
    requires WorkersOk(writes, head, v, w, c) && Busy(w) && c.sinks <= sinks
    ensures var (w', ws) := Dispatch(w, sinks); WorkersOk(writes + ws, head, v, w', c)
  {
    hide WorkersOk, Dispatch;
    Either(writes, head, v, w, c);
    DispatchKeeps(writes, head, w, v, sinks, c);
    var (w', ws) := Dispatch(w, sinks);
    Either(writes + ws, head, w', v, c);
  }

  lemma IdleOrExited(writes: seq<(nat, nat)>, head: nat, v: Worker, v': Worker, w: Worker, c: Config)
    requires WorkersOk(writes, head, v, w, c) && !Busy(v) && !Busy(v')
    ensures WorkersOk(writes, head, v', w, c)
  {
    hide Times;
  }

  lemma CloseWorkers(s: State, step: CloseStep)
    requires Enabled(s, OfClose(step))
    ensures var s' := CloseNext(s, step);
            && (step == CloserTake ==> s'.head == s.head + 1)
            && CloserWorker(s') ==
                 match step
                 case CloserTake => Taken(s.head)
                 case CloserDispatch => Dispatch(CloserWorker(s), s.sinks).0
                 case _ => CloserWorker(s)
    ensures step == CloserDispatch ==> CloseNext(s, step).writes == s.writes + Dispatch(CloserWorker(s), s.sinks).1
  {
    hide Dispatch, Midway, Pending;
  }

  /** What a step does to the workers and to what they have written. */
  lemma WorkersNext(s: State, step: Step, c: Config)
    requires Enabled(s, step)
    ensures var s' := Next(s, step, c);
            && s.sinks <= s'.sinks
            && (s'.writes, s'.head, s'.drain, CloserWorker(s')) ==
                 match step
                 case OfDrain(DrainTake) => (s.writes, s.head + 1, Taken(s.head), CloserWorker(s))
                 case OfDrain(DrainDispatch) =>
                   var (v, ws) := Dispatch(s.drain, s.sinks);
                   (s.writes + ws, s.head, v, CloserWorker(s))
                 case OfDrain(DrainExit) => (s.writes, s.head, Exited, CloserWorker(s))
                 case OfClose(CloserTake) => (s.writes, s.head + 1, s.drain, Taken(s.head))
                 case OfClose(CloserDispatch) =>
                   var (w, ws) := Dispatch(CloserWorker(s), s.sinks);
                   (s.writes + ws, s.head, s.drain, w)
                 case _ => (s.writes, s.head, s.drain, CloserWorker(s))
  {
    if step.OfClose? {
      CloseWorkers(s, step.close);
    }
    hide CloseNext, Dispatch, Midway, EmitNext, Pending;
  }

  lemma DrainDispatches(s: State, step: DrainStep, c: Config)
    requires Enabled(s, OfDrain(step)) && Dispatched(s, c)
    ensures Dispatched(Next(s, OfDrain(step), c), c)
  {
    WorkersNext(s, OfDrain(step), c);
    hide WorkersOk, Dispatch, Next, CloserWorker;
    var v, w := s.drain, CloserWorker(s);
    match step
    case DrainTake => TakeKeeps(s.writes, s.head, v, w, c);
    case DrainDispatch => DispatchKeeps(s.writes, s.head, v, w, s.sinks, c);
    case DrainExit => IdleOrExited(s.writes, s.head, v, Exited, w, c);
  }

  lemma CloseDispatches(s: State, step: CloseStep, c: Config)
    requires Enabled(s, OfClose(step)) && Dispatched(s, c)
    ensures Dispatched(Next(s, OfClose(step), c), c)
  {
    WorkersNext(s, OfClose(step), c);
    hide WorkersOk, Dispatch, Next, CloserWorker;
    var v, w := s.drain, CloserWorker(s);
    match step
    case CloserTake => OtherTakes(s.writes, s.head, v, w, c);
    case CloserDispatch => OtherDispatches(s.writes, s.head, v, w, s.sinks, c);
    case _ =>
  }

  lemma DispatchedNext(s: State, step: Step, c: Config)
    requires Enabled(s, step) && Dispatched(s, c)
    ensures Dispatched(Next(s, step, c), c)
  {
    WorkersNext(s, step, c);
    hide WorkersOk, Dispatch, Next, CloserWorker, Enabled;
    match step
    case OfDrain(d) => DrainDispatches(s, d, c);
    case OfClose(cl) => CloseDispatches(s, cl, c);
    case _ =>
  }

  lemma ReceivedSnoc(writes: seq<(nat, nat)>, w: (nat, nat), k: nat)
    ensures Received(writes + [w], k) == Received(writes, k) + if w.0 == k then [w.1] else []
  {
    assert (writes + [w])[..|writes|] == writes;
  }

  /** The records `writes` and `stale` after a step: the writes it made, each with its mark. */
  predicate Marked(s: State, s': State) {
    && |s.writes| <= |s'.writes| && |s'.stale| - |s.stale| == |s'.writes| - |s.writes|
    && s.stale <= s'.stale
    && forall j :: |s.stale| <= j < |s'.stale| ==> s'.stale[j] == s.cancelled
  }

  lemma CloseMarks(s: State, step: CloseStep)
    requires Enabled(s, OfClose(step))
    ensures Marked(s, CloseNext(s, step))
    ensures var s' := CloseNext(s, step);
            (s'.cancelled, s'.cancelHead) == if step == Cancel then (true, s.head) else (s.cancelled, s.cancelHead)
  {
    hide Dispatch, Midway, Pending;
  }

  /** What a step does to the record of contexts. */
  lemma StampsNext(s: State, step: Step, c: Config)
    requires Enabled(s, step)
    ensures var s' := Next(s, step, c);
            && Marked(s, s')
            && (s'.cancelled, s'.cancelHead) ==
                 if step == OfClose(Cancel) then (true, s.head) else (s.cancelled, s.cancelHead)
  {
    if step.OfClose? {
      CloseMarks(s, step.close);
    }
    hide CloseNext, Dispatch, Midway, EmitNext, Pending;
  }

  lemma DispatchWrites(w: Worker, sinks: nat, head: nat, c: Config)
    requires Busy(w) && WorkerOk(w, head, c)
    ensures forall x :: x in Dispatch(w, sinks).1 ==> x.1 < head
  {
  }

  /** Only events already taken are written. */
  lemma NewWrites(s: State, step: Step, c: Config)
    requires Enabled(s, step) && WorkerOk(s.drain, s.head, c) && WorkerOk(CloserWorker(s), s.head, c)
    ensures var s' := Next(s, step, c);
            && s.writes <= s'.writes && s.head <= s'.head
            && forall j :: |s.writes| <= j < |s'.writes| ==> s'.writes[j].1 < s.head
  {
    WorkersNext(s, step, c);
    hide Next, Dispatch, WorkerOk;
    match step
    case OfDrain(DrainDispatch) => DispatchWrites(s.drain, s.sinks, s.head, c);
    case OfClose(CloserDispatch) => DispatchWrites(CloserWorker(s), s.sinks, s.head, c);
    case _ =>
  }

  lemma StampedNext(s: State, step: Step, c: Config)
    requires Enabled(s, step) && Dispatched(s, c) && Stamped(s)
    ensures Stamped(Next(s, step, c))
  {
    NewWrites(s, step, c);
    StampsNext(s, step, c);
    hide Next, CloserWorker, OnceEach, Dispatched, Enabled;
  }

  lemma InvNext(s: State, step: Step, c: Config)
    requires Enabled(s, step) && Inv(s, c)
    ensures Inv(Next(s, step, c), c)
  {
    AccountedNext(s, step, c);
    PhasedNext(s, step, c);
    SinksShutNext(s, step, c);
    DispatchedNext(s, step, c);
    StampedNext(s, step, c);
    hide Accounted, Phased, SinksShut, Dispatched, Stamped, Next;
  }

  lemma {:induction false} InvRun(s: State, steps: seq<Step>, c: Config)
    requires IsRun(s, steps, c) && Inv(s, c)
    ensures Inv(End(s, steps, c), c)
    decreases |steps|
  {
    hide Inv, Next;
    if steps != [] {
      InvNext(s, steps[0], c);
      InvRun(Next(s, steps[0], c), steps[1..], c);
    }
  }

  lemma InvStart(c: Config)
    ensures Inv(Start(c), c)
  {
    assert DroppedOnes([]) == {};
  }

  /** The invariant, of the state any run ends in. */
  lemma Reachable(steps: seq<Step>, c: Config)
    requires IsRun(Start(c), steps, c)
    ensures Inv(End(Start(c), steps, c), c)
  {
    InvStart(c);
    InvRun(Start(c), steps, c);
  }

  // ----- What every run satisfies -----

  function RefusedOnes(emits: seq<Emit>): set<nat> {
    set i: nat | i < |emits| && emits[i].Refused?
  }

  predicate Finished(e: Emit) {
    e.Refused? || e.Dropped? || e.Accepted? || e.Panicked?
  }

  lemma AcceptedCount(emits: seq<Emit>, accepted: seq<nat>)
    requires Numbered(emits, accepted)
    ensures |Elements(accepted)| == |accepted|
    ensures Elements(accepted) == set i: nat | i < |emits| && emits[i].Accepted?
  {
    forall j, k | 0 <= j < k < |accepted| ensures accepted[j] != accepted[k] {
      assert emits[accepted[j]] == Accepted(j) && emits[accepted[k]] == Accepted(k);
    }
    DistinctElements(accepted);
  }

  function PanickedOnes(emits: seq<Emit>): set<nat> {
    set i: nat | i < |emits| && emits[i].Panicked?
  }

  lemma DisjointSum(r: set<nat>, d: set<nat>, a: set<nat>, p: set<nat>)
    requires r !! d && r !! a && r !! p && d !! a && d !! p && a !! p
    ensures |r + d + a + p| == |r| + |d| + |a| + |p|
  {
    assert (r + d) !! a && (r + d + a) !! p;
  }

  lemma FourKinds(emits: seq<Emit>, accepted: seq<nat>)
    requires Numbered(emits, accepted)
    requires forall i :: 0 <= i < |emits| ==> Finished(emits[i])
    ensures |emits| == |RefusedOnes(emits)| + |DroppedOnes(emits)| + |accepted| + |PanickedOnes(emits)|
  {
    AcceptedCount(emits, accepted);
    var all := UpTo(|emits|);
    DistinctElements(all);
    var r, d, a, p := RefusedOnes(emits), DroppedOnes(emits), Elements(accepted), PanickedOnes(emits);
    forall i: nat ensures i in Elements(all) <==> i in r + d + a + p {
      assert i < |emits| ==> all[i] == i;
    }
    assert Elements(all) == r + d + a + p;
    DisjointSum(r, d, a, p);
  }

  /**
   Nothing is lost: when all calls have returned, each was refused, dropped and counted,
   accepted, or panicked, and the four add up.
   */
  lemma EmitsAddUp(steps: seq<Step>, c: Config)
    requires IsRun(Start(c), steps, c)
    requires forall i :: 0 <= i < |End(Start(c), steps, c).emits| ==> Finished(End(Start(c), steps, c).emits[i])
    ensures var s := End(Start(c), steps, c);
            |s.emits| == |RefusedOnes(s.emits)| + s.dropped + |s.accepted| + |PanickedOnes(s.emits)|
  {
    Reachable(steps, c);
    var s := End(Start(c), steps, c);
    hide IsRun, End, Phased, SinksShut, Dispatched, PanicsMidway, Refusals;
    FourKinds(s.emits, s.accepted);
    hide DroppedOnes, RefusedOnes, PanickedOnes, Numbered;
  }

  /** `Close` has set its flag, and no call is between its check and its send. */
  predicate Quiet(s: State) {
    s.closed && Midway(s.emits) == {} && s.midway == {}
  }

  lemma QuietNext(s: State, step: Step, c: Config)
    requires Enabled(s, step) && Phased(s) && Quiet(s)
    ensures Quiet(Next(s, step, c))
  {
    hide DrainNext, Dispatch;
    var s' := Next(s, step, c);
    forall i: nat | i < |s'.emits| ensures !s'.emits[i].Checked? {
      if i < |s.emits| {
        assert i !in Midway(s.emits);
      }
    }
    assert Midway(s'.emits) == {};
  }

  lemma {:induction false} QuietRun(s: State, steps: seq<Step>, c: Config)
    requires IsRun(s, steps, c) && Inv(s, c) && Quiet(s)
    ensures Quiet(End(s, steps, c))
    decreases |steps|
  {
    if steps != [] {
      QuietNext(s, steps[0], c);
      InvNext(s, steps[0], c);
      hide Inv, Quiet, Next;
      QuietRun(Next(s, steps[0], c), steps[1..], c);
    }
  }

  /** A caller can rule panics out: no call panics if none is between check and send when `Close` sets its flag. */
  lemma NoPanicIfQuietAtClose(before: seq<Step>, after: seq<Step>, c: Config)
    requires IsRun(Start(c), before, c) && Midway(End(Start(c), before, c).emits) == {}
    requires var s := End(Start(c), before, c);
             Enabled(s, OfClose(Close)) && IsRun(Next(s, OfClose(Close), c), after, c)
    ensures var s := End(Next(End(Start(c), before, c), OfClose(Close), c), after, c);
            PanickedOnes(s.emits) == {}
  {
    Reachable(before, c);
    var s := End(Start(c), before, c);
    var s' := Next(s, OfClose(Close), c);
    assert s.midway == {};
    InvNext(s, OfClose(Close), c);
    InvRun(s', after, c);
    QuietRun(s', after, c);
    hide IsRun, End;
  }

  /** Only a call caught between its check and its send when `Close` closes the queue can panic, and it will. */
  lemma PanicsExactlyMidway(steps: seq<Step>, i: nat, c: Config)
    requires IsRun(Start(c), steps, c)
    requires var s := End(Start(c), steps, c); i < |s.emits| && !s.emits[i].Checked?
    ensures var s := End(Start(c), steps, c); s.emits[i].Panicked? <==> i in s.midway
  {
    Reachable(steps, c);
  }

  // ----- In what order sinks receive events -----

  /** No event is taken while the other loop still holds one back from sink `k`. */
  predicate TakenAlone(s: State, step: Step, k: nat) {
    && (step == OfDrain(DrainTake) ==> !Holds(CloserWorker(s), k))
    && (step == OfClose(CloserTake) ==> !Holds(s.drain, k))
  }

  ghost predicate AllTakenAlone(s: State, steps: seq<Step>, k: nat, c: Config)
    requires IsRun(s, steps, c)
    decreases |steps|
  {
    steps != [] ==> TakenAlone(s, steps[0], k) && AllTakenAlone(Next(s, steps[0], c), steps[1..], k, c)
  }

  lemma TakeInOrder(writes: seq<(nat, nat)>, head: nat, v: Worker, w: Worker, k: nat)
    requires InOrder(writes, head, v, w, k) && !Busy(v) && !Holds(w, k)
    ensures InOrder(writes, head + 1, Taken(head), w, k) && InOrder(writes, head + 1, w, Taken(head), k)
  {
    hide Received;
  }

  lemma DispatchInOrder(writes: seq<(nat, nat)>, head: nat, v: Worker, w: Worker, sinks: nat, k: nat, c: Config)
    requires InOrder(writes, head, v, w, k) && Busy(v) && WorkerOk(v, head, c) && k < c.sinks
    ensures var (v', ws) := Dispatch(v, sinks);
            InOrder(writes + ws, head, v', w, k) && InOrder(writes + ws, head, w, v', k)
  {
    hide Received;
    if v.Writing? && v.k < v.n {
      ReceivedSnoc(writes, (v.k, v.e), k);
      assert v.k == k ==> UpTo(head - 1) + [head - 1] == UpTo(head);
    } else {
      assert writes + [] == writes;
    }
  }

  lemma Swapped(writes: seq<(nat, nat)>, head: nat, v: Worker, w: Worker, k: nat)
    ensures InOrder(writes, head, v, w, k) <==> InOrder(writes, head, w, v, k)
  {
  }

  lemma Stopped(writes: seq<(nat, nat)>, head: nat, v: Worker, v': Worker, w: Worker, k: nat)
    requires InOrder(writes, head, v, w, k) && !Busy(v) && !Busy(v')
    ensures InOrder(writes, head, v', w, k)
  {
  }

  lemma InOrderNext(s: State, step: Step, k: nat, c: Config)
    requires Enabled(s, step) && Dispatched(s, c) && k < c.sinks && TakenAlone(s, step, k)
    requires InOrder(s.writes, s.head, s.drain, CloserWorker(s), k)
    ensures var s' := Next(s, step, c); InOrder(s'.writes, s'.head, s'.drain, CloserWorker(s'), k)
  {
    WorkersNext(s, step, c);
    hide InOrder, Dispatch, Next, CloserWorker, OnceEach, Underway;
    var v, w := s.drain, CloserWorker(s);
    Swapped(s.writes, s.head, v, w, k);
    match step
    case OfDrain(DrainTake) => TakeInOrder(s.writes, s.head, v, w, k);
    case OfDrain(DrainDispatch) => DispatchInOrder(s.writes, s.head, v, w, s.sinks, k, c);
    case OfDrain(DrainExit) => Stopped(s.writes, s.head, v, Exited, w, k);
    case OfClose(CloserTake) => TakeInOrder(s.writes, s.head, w, v, k);
    case OfClose(CloserDispatch) => DispatchInOrder(s.writes, s.head, w, v, s.sinks, k, c);
    case _ =>
  }

  lemma {:induction false} InOrderRun(s: State, steps: seq<Step>, k: nat, c: Config)
    requires IsRun(s, steps, c) && AllTakenAlone(s, steps, k, c) && Inv(s, c) && k < c.sinks
    requires InOrder(s.writes, s.head, s.drain, CloserWorker(s), k)
    ensures var s' := End(s, steps, c); InOrder(s'.writes, s'.head, s'.drain, CloserWorker(s'), k)
    decreases |steps|
  {
    if steps != [] {
      assert Dispatched(s, c);
      hide Inv, InOrder, Dispatched, Next;
      InOrderNext(s, steps[0], k, c);
      InvNext(s, steps[0], c);
      InOrderRun(Next(s, steps[0], c), steps[1..], k, c);
    }
  }

  /**
   Through `Close` and after it: as long as no event is taken while the other loop still
   holds one back from a sink, that sink has received a prefix of what was accepted.
   */
  lemma OrderKept(steps: seq<Step>, k: nat, c: Config)
    requires IsRun(Start(c), steps, c) && AllTakenAlone(Start(c), steps, k, c) && k < c.sinks
    ensures var s := End(Start(c), steps, c);
            exists m: nat :: s.head - 1 <= m <= s.head <= |s.accepted| && Received(s.writes, k) == UpTo(m)
  {
    InvStart(c);
    InOrderRun(Start(c), steps, k, c);
    Reachable(steps, c);
    var s := End(Start(c), steps, c);
    hide IsRun, End, Received;
    if Holds(s.drain, k) || Holds(CloserWorker(s), k) {
      assert Received(s.writes, k) == UpTo(s.head - 1);
    } else {
      assert Received(s.writes, k) == UpTo(s.head);
    }
  }

  lemma OneLoopStep(s: State, step: Step, k: nat, c: Config)
    requires Enabled(s, step) && Phased(s) && !Next(s, step, c).closerTook
    ensures !s.closerTook && TakenAlone(s, step, k)
  {
    hide EmitNext, Dispatch, Midway, Pending;
  }

  lemma {:induction false} OneLoopTakesAlone(s: State, steps: seq<Step>, k: nat, c: Config)
    requires IsRun(s, steps, c) && Inv(s, c) && !End(s, steps, c).closerTook
    ensures AllTakenAlone(s, steps, k, c) && !s.closerTook
    decreases |steps|
  {
    if steps != [] {
      assert Phased(s);
      hide Inv, Phased, TakenAlone, Next;
      InvNext(s, steps[0], c);
      OneLoopTakesAlone(Next(s, steps[0], c), steps[1..], k, c);
      OneLoopStep(s, steps[0], k, c);
    }
  }

  /** In particular until `Close` takes events itself. */
  lemma PrefixBeforeClose(steps: seq<Step>, k: nat, c: Config)
    requires IsRun(Start(c), steps, c) && k < c.sinks && !End(Start(c), steps, c).closerTook
    ensures var s := End(Start(c), steps, c);
            exists m: nat :: s.head - 1 <= m <= s.head <= |s.accepted| && Received(s.writes, k) == UpTo(m)
  {
    InvStart(c);
    hide Inv;
    OneLoopTakesAlone(Start(c), steps, k, c);
    OrderKept(steps, k, c);
  }

  /** `Close` takes events only once the drain goroutine is gone. */
  ghost predicate ClosesAfterDrain(s: State, steps: seq<Step>, c: Config)
    requires IsRun(s, steps, c)
    decreases |steps|
  {
    steps != [] ==>
      && (steps[0] == OfClose(CloserTake) ==> s.drain.Exited?)
      && ClosesAfterDrain(Next(s, steps[0], c), steps[1..], c)
  }

  lemma AfterDrainStep(s: State, step: Step, k: nat, c: Config)
    requires Enabled(s, step) && (step == OfClose(CloserTake) ==> s.drain.Exited?)
    requires Busy(CloserWorker(s)) ==> s.drain.Exited?
    ensures TakenAlone(s, step, k)
    ensures Busy(CloserWorker(Next(s, step, c))) ==> Next(s, step, c).drain.Exited?
  {
    WorkersNext(s, step, c);
    hide Next;
  }

  lemma {:induction false} AfterDrainTakesAlone(s: State, steps: seq<Step>, k: nat, c: Config)
    requires IsRun(s, steps, c) && ClosesAfterDrain(s, steps, c) && (Busy(CloserWorker(s)) ==> s.drain.Exited?)
    ensures AllTakenAlone(s, steps, k, c)
    decreases |steps|
  {
    if steps != [] {
      AfterDrainStep(s, steps[0], k, c);
      hide Next, TakenAlone;
      AfterDrainTakesAlone(Next(s, steps[0], c), steps[1..], k, c);
    }
  }

  /** And to the very end if the drain goroutine has gone by the time `Close` takes its first event. */
  lemma OrderKeptAfterDrain(steps: seq<Step>, k: nat, c: Config)
    requires IsRun(Start(c), steps, c) && ClosesAfterDrain(Start(c), steps, c) && k < c.sinks
    ensures var s := End(Start(c), steps, c);
            exists m: nat :: s.head - 1 <= m <= s.head <= |s.accepted| && Received(s.writes, k) == UpTo(m)
  {
    AfterDrainTakesAlone(Start(c), steps, k, c);
    OrderKept(steps, k, c);
  }

  /** Every event that `Close` takes itself is taken after it has cancelled the pipeline. */
  lemma LeftoversComeLate(steps: seq<Step>, c: Config)
    requires IsRun(Start(c), steps, c) && Enabled(End(Start(c), steps, c), OfClose(CloserTake))
    ensures var s := End(Start(c), steps, c); s.cancelled && s.cancelHead <= s.head
  {
    Reachable(steps, c);
    hide IsRun, End, Accounted, Dispatched, SinksShut;
  }

  /**
   When `Close` returns, each sink there from the start has each event taken from the queue
   exactly once, and no other event. Unless the deadline struck, that is every accepted event.
   But each event taken after `Cancel` was written with a context already done.
   */
  lemma CloseDelivers(steps: seq<Step>, k: nat, e: nat, c: Config)
    requires IsRun(Start(c), steps, c) && End(Start(c), steps, c).closer.Returned? && k < c.sinks
    ensures var s := End(Start(c), steps, c);
            && Times(s.writes, k, e) == (if e < s.head then 1 else 0)
            && (!s.timedOut ==> s.head == |s.accepted|)
            && c.sinks <= s.sinksClosed
            && s.cancelled && |s.stale| == |s.writes|
            && forall j :: 0 <= j < |s.writes| && s.writes[j] == (k, e) && s.cancelHead <= e ==> s.stale[j]
  {
    Reachable(steps, c);
    var s := End(Start(c), steps, c);
    hide IsRun, End, Times, Accounted;
    assert Delivered(s.head, s.drain, CloserWorker(s), k, e) <==> e < s.head;
  }

  /** No sink, early or late, ever has an event twice, and none is written once any is closed. */
  lemma NoSinkWrittenAfterClose(steps: seq<Step>, step: Step, k: nat, e: nat, c: Config)
    requires IsRun(Start(c), steps, c) && Enabled(End(Start(c), steps, c), step)
    ensures var s := End(Start(c), steps, c);
            && Times(s.writes, k, e) <= 1
            && (s.sinksClosed > 0 ==> Next(s, step, c).writes == s.writes)
  {
    Reachable(steps, c);
    hide IsRun, End, Times, Accounted, Midway, EmitNext;
  }

  // ----- Runs that go wrong -----

  lemma {:induction false} RunSnoc(s: State, steps: seq<Step>, step: Step, c: Config)
    requires IsRun(s, steps, c) && Enabled(End(s, steps, c), step)
    ensures IsRun(s, steps + [step], c) && End(s, steps + [step], c) == Next(End(s, steps, c), step, c)
    decreases |steps|
  {
    if steps == [] {
      assert [step][1..] == [] && steps + [step] == [step];
      assert IsRun(Next(s, step, c), [], c);
    } else {
      assert (steps + [step])[1..] == steps[1..] + [step];
      RunSnoc(Next(s, steps[0], c), steps[1..], step, c);
    }
  }

  lemma NoSteps(c: Config)
    ensures IsRun(Start(c), [], c) && End(Start(c), [], c) == Start(c)
  {
  }

  lemma Then(steps: seq<Step>, step: Step, c: Config) returns (longer: seq<Step>)
    requires IsRun(Start(c), steps, c) && Enabled(End(Start(c), steps, c), step)
    ensures longer == steps + [step] && IsRun(Start(c), longer, c)
    ensures End(Start(c), longer, c) == Next(End(Start(c), steps, c), step, c)
  {
    longer := steps + [step];
    RunSnoc(Start(c), steps, step, c);
  }

  /**
   That condition is exact: whenever a call is between check and send and `Close` has not been
   called, the run can go on so that the call panics. `Close` need only close the queue first.
   */
  lemma MidwayCanPanic(steps: seq<Step>, i: nat, c: Config) returns (longer: seq<Step>)
    requires IsRun(Start(c), steps, c)
    requires var s := End(Start(c), steps, c); s.closer.NotCalled? && i in Midway(s.emits)
    ensures IsRun(Start(c), longer, c) && steps <= longer
    ensures var s := End(Start(c), steps, c); End(Start(c), longer, c).emits == s.emits[i := Panicked]
  {
    Reachable(steps, c);
    hide IsRun, End, Accounted, SinksShut, Dispatched, Stamped;
    longer := Then(steps, OfClose(Close), c);
    longer := Then(longer, OfClose(Cancel), c);
    longer := Then(longer, OfClose(CloseQueue), c);
    longer := Then(longer, OfEmit(i, Send), c);
  }

  /** Such a run exists. */
  lemma LateSendPanics(c: Config) returns (steps: seq<Step>)
    ensures IsRun(Start(c), steps, c) && End(Start(c), steps, c).emits == [Panicked]
  {
    hide IsRun, End;
    NoSteps(c);
    steps := Then([], Arrive, c);
    steps := Then(steps, OfEmit(0, Check), c);
    assert End(Start(c), steps, c).emits == [Checked];
    steps := MidwayCanPanic(steps, 0, c);
  }

  function WorkerOf(s: State, drains: bool): Worker {
    if drains then s.drain else CloserWorker(s)
  }

  /** One dispatching step of a loop that still holds an event back from sink `k`. */
  lemma BringOne(steps: seq<Step>, drains: bool, k: nat, c: Config) returns (longer: seq<Step>)
    requires IsRun(Start(c), steps, c) && k < c.sinks && Holds(WorkerOf(End(Start(c), steps, c), drains), k)
    ensures IsRun(Start(c), longer, c) && steps <= longer
    ensures var s, s' := End(Start(c), steps, c), End(Start(c), longer, c);
            var w, w' := WorkerOf(s, drains), WorkerOf(s', drains);
            && WorkerOf(s', !drains) == WorkerOf(s, !drains)
            && if w.Writing? && w.k == k then Received(s'.writes, k) == Received(s.writes, k) + [w.e]
               else && Received(s'.writes, k) == Received(s.writes, k) && Holds(w', k) && w'.e == w.e
                    && w'.Writing? && w'.k == if w.Taken? then 0 else w.k + 1
  {
    Reachable(steps, c);
    var s := End(Start(c), steps, c);
    assert Dispatched(s, c);
    hide IsRun, End, Received, Inv, OnceEach;
    var w := WorkerOf(s, drains);
    longer := Then(steps, if drains then OfDrain(DrainDispatch) else OfClose(CloserDispatch), c);
    WorkersNext(s, if drains then OfDrain(DrainDispatch) else OfClose(CloserDispatch), c);
    hide Next, CloserWorker;
    if w.Writing? {
      ReceivedSnoc(s.writes, (w.k, w.e), k);
    } else {
      assert s.writes + [] == s.writes;
    }
  }

  /** A loop that holds an event back from sink `k` can go on, alone, until the sink has it. */
  lemma {:induction false} BringTo(steps: seq<Step>, drains: bool, k: nat, c: Config) returns (longer: seq<Step>)
    requires IsRun(Start(c), steps, c) && k < c.sinks && Holds(WorkerOf(End(Start(c), steps, c), drains), k)
    ensures IsRun(Start(c), longer, c) && steps <= longer
    ensures var s, s' := End(Start(c), steps, c), End(Start(c), longer, c);
            && Received(s'.writes, k) == Received(s.writes, k) + [WorkerOf(s, drains).e]
            && WorkerOf(s', !drains) == WorkerOf(s, !drains)
    decreases var w := WorkerOf(End(Start(c), steps, c), drains); if w.Taken? then k + 2 else k + 1 - w.k
  {
    hide IsRun, End, Received, WorkerOf;
    var w := WorkerOf(End(Start(c), steps, c), drains);
    longer := BringOne(steps, drains, k, c);
    if w.Taken? || w.k < k {
      longer := BringTo(longer, drains, k, c);
    }
  }

  /**
   That condition is exact: whenever an event is taken while the other loop holds one back
   from a sink, the run can go on so that the sink receives the later event first.
   */
  lemma OvertakingReorders(steps: seq<Step>, step: Step, k: nat, c: Config) returns (longer: seq<Step>)
    requires IsRun(Start(c), steps, c) && Enabled(End(Start(c), steps, c), step)
    requires k < c.sinks && !TakenAlone(End(Start(c), steps, c), step, k)
    ensures IsRun(Start(c), longer, c) && steps + [step] <= longer
    ensures var s := End(Start(c), steps, c);
            var held := if step.OfDrain? then CloserWorker(s).e else s.drain.e;
            && held < s.head
            && Received(End(Start(c), longer, c).writes, k) == Received(s.writes, k) + [s.head, held]
  {
    Reachable(steps, c);
    hide IsRun, End, Received, Accounted, SinksShut, OnceEach;
    longer := Then(steps, step, c);
    longer := BringTo(longer, step.OfDrain?, k, c);
    longer := BringTo(longer, !step.OfDrain?, k, c);
  }

  /** The drain goroutine has taken event 0 of two when `Close` closes the queue. */
  lemma OneTakenOneQueued(c: Config) returns (steps: seq<Step>)
    requires c.cap >= 1
    ensures IsRun(Start(c), steps, c)
    ensures End(Start(c), steps, c)
            == State([Accepted(0), Accepted(1)], [0, 1], 1, 0, true, true, true, c.sinks, 0,
                     Taken(0), Draining(Idle), false, false, {}, [], [], 1)
  {
    hide IsRun, End;
    NoSteps(c);
    steps := [];
    steps := Then(steps, Arrive, c);
    steps := Then(steps, Arrive, c);
    steps := Then(steps, OfEmit(0, Check), c);
    steps := Then(steps, OfEmit(1, Check), c);
    steps := Then(steps, OfEmit(0, Send), c);
    steps := Then(steps, OfDrain(DrainTake), c);
    steps := Then(steps, OfEmit(1, Send), c);
    steps := Then(steps, OfClose(Close), c);
    steps := Then(steps, OfClose(Cancel), c);
    steps := Then(steps, OfClose(CloseQueue), c);
    assert Midway([Accepted(0), Accepted(1)]) == {};
  }

  /** With any queue and any sinks, each sink can receive two events in the wrong order while `Close` dispatches too. */
  lemma CloseCanReorder(k: nat, c: Config) returns (steps: seq<Step>)
    requires c.cap >= 1 && k < c.sinks
    ensures IsRun(Start(c), steps, c) && Received(End(Start(c), steps, c).writes, k) == [1, 0]
  {
    hide IsRun, End;
    var before := OneTakenOneQueued(c);
    steps := OvertakingReorders(before, OfClose(CloserTake), k, c);
    assert Received([], k) == [];
  }
}
