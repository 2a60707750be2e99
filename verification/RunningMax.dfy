/** The telemetry collector's lock-free running maxima, load by load and compare-and-swap by compare-and-swap. */
module RunningMax {

  const WORD: int := 0x1_0000_0000_0000_0000

  type uint64 = x: int | 0 <= x < WORD

  // ----- One maximum and the calls racing to raise it -----

  datatype Place =
    | Before
    | Loading
    | Swapping(cur: uint64, seen: nat)  // about to compare with `cur`, loaded after `seen` successful swaps
    | Out(won: bool)

  /** A call that records `value`; it has `lost` that many compare-and-swaps. */
  datatype Racer = Racer(value: uint64, place: Place, lost: nat)

  datatype Cell = Cell(max: uint64, wins: nat, racers: seq<Racer>)

  predicate Racing(c: Cell, i: nat) {
    i < |c.racers| && (c.racers[i].place.Loading? || c.racers[i].place.Swapping?)
  }

  /** One atomic operation of racer `i`. */
  function Race(c: Cell, i: nat): (c': Cell)
    requires Racing(c, i)
    ensures |c'.racers| == |c.racers| && !c'.racers[i].place.Before?
    ensures forall j :: 0 <= j < |c.racers| && j != i ==> c'.racers[j] == c.racers[j]
  {
    var r := c.racers[i];
    match r.place
    case Loading =>
      if r.value <= c.max then c.(racers := c.racers[i := r.(place := Out(false))])
      else c.(racers := c.racers[i := r.(place := Swapping(c.max, c.wins))])
    case Swapping(cur, _) =>
      if cur == c.max then Cell(r.value, c.wins + 1, c.racers[i := r.(place := Out(true))])
      else c.(racers := c.racers[i := r.(place := Loading, lost := r.lost + 1)])
  }

  function Enter(c: Cell, r: Racer): Cell {
    c.(racers := c.racers + [r])
  }

  /** The racer that was waiting starts its loop. */
  function Begin(c: Cell, i: nat): Cell
    requires i < |c.racers|
  {
    c.(racers := c.racers[i := c.racers[i].(place := Loading)])
  }

  predicate RacerOk(r: Racer, max: uint64, wins: nat) {
    match r.place
    case Before => r.lost == 0
    case Loading => r.lost <= wins
    case Swapping(cur, seen) => cur < r.value && cur <= max && r.lost <= seen <= wins && (cur == max <==> seen == wins)
    case Out(won) => r.value <= max && r.lost <= wins && (won ==> r.lost < wins)
  }

  function Winners(racers: seq<Racer>): set<nat> {
    set i: nat | i < |racers| && racers[i].place == Out(true)
  }

  /** The maximum is zero, or the value of a call that won. */
  predicate Recorded(c: Cell) {
    if c.wins == 0 then c.max == 0
    else exists i :: 0 <= i < |c.racers| && c.racers[i].place == Out(true) && c.racers[i].value == c.max
  }

  predicate CellOk(c: Cell) {
    && (forall i :: 0 <= i < |c.racers| ==> RacerOk(c.racers[i], c.max, c.wins))
    && c.wins == |Winners(c.racers)|
    && Recorded(c)
  }

  lemma RaceKeeps(c: Cell, i: nat)
    requires CellOk(c) && Racing(c, i)
    ensures CellOk(Race(c, i)) && c.max <= Race(c, i).max
    ensures c.wins < Race(c, i).wins <==> c.max < Race(c, i).max
  {
    var c', r := Race(c, i), c.racers[i];
    if c'.racers[i].place == Out(true) {
      assert Winners(c'.racers) == Winners(c.racers) + {i};
      assert c'.racers[i].value == c'.max;
    } else {
      assert Winners(c'.racers) == Winners(c.racers);
      if c.wins > 0 {
        var j :| 0 <= j < |c.racers| && c.racers[j].place == Out(true) && c.racers[j].value == c.max;
        assert c'.racers[j] == c.racers[j];
      }
    }
  }

  lemma EnterKeeps(c: Cell, r: Racer)
    requires CellOk(c) && r.lost == 0 && (r.place.Before? || r.place.Loading?)
    ensures CellOk(Enter(c, r)) && Enter(c, r).max == c.max
  {
    var c' := Enter(c, r);
    assert Winners(c'.racers) == Winners(c.racers);
    if c.wins > 0 {
      var j :| 0 <= j < |c.racers| && c.racers[j].place == Out(true) && c.racers[j].value == c.max;
      assert c'.racers[j] == c.racers[j];
    }
  }

  lemma BeginKeeps(c: Cell, i: nat)
    requires CellOk(c) && i < |c.racers| && c.racers[i].place.Before?
    ensures CellOk(Begin(c, i))
  {
    var c' := Begin(c, i);
    assert Winners(c'.racers) == Winners(c.racers);
    if c.wins > 0 {
      var j :| 0 <= j < |c.racers| && c.racers[j].place == Out(true) && c.racers[j].value == c.max;
      assert c'.racers[j] == c.racers[j];
    }
  }

  // ----- The collector: each call races for the depth, then for the cost -----

  datatype State = State(requests: uint64, depth: Cell, cost: Cell)

  const START := State(0, Cell(0, 0, []), Cell(0, 0, []))

  datatype Step = Call(depth: uint64, cost: uint64) | OnDepth(i: nat) | OnCost(i: nat)

  predicate Enabled(s: State, step: Step) {
    match step
    case Call(_, _) => true
    case OnDepth(i) => Racing(s.depth, i) && i < |s.cost.racers|
    case OnCost(i) => Racing(s.cost, i)
  }

  function Next(s: State, step: Step): State
    requires Enabled(s, step)
  {
    match step
    case Call(d, c) =>
      State((s.requests + 1) % WORD, Enter(s.depth, Racer(d, Loading, 0)), Enter(s.cost, Racer(c, Before, 0)))
    case OnDepth(i) =>
      var depth := Race(s.depth, i);
      s.(depth := depth, cost := if depth.racers[i].place.Out? then Begin(s.cost, i) else s.cost)
    case OnCost(i) => s.(cost := Race(s.cost, i))
  }

  ghost predicate IsRun(s: State, steps: seq<Step>)
    decreases |steps|
  {
    steps != [] ==> Enabled(s, steps[0]) && IsRun(Next(s, steps[0]), steps[1..])
  }

  function End(s: State, steps: seq<Step>): State
    requires IsRun(s, steps)
    decreases |steps|
  {
    if steps == [] then s else End(Next(s, steps[0]), steps[1..])
  }

  predicate Paired(s: State) {
    && |s.depth.racers| == |s.cost.racers|
    && forall i :: 0 <= i < |s.depth.racers| ==>
         && !s.depth.racers[i].place.Before?
         && (s.cost.racers[i].place.Before? <==> !s.depth.racers[i].place.Out?)
  }

  predicate Inv(s: State) {
    CellOk(s.depth) && CellOk(s.cost) && Paired(s) && s.requests == |s.depth.racers| % WORD
  }

  lemma PairedNext(s: State, step: Step)
    requires Paired(s) && Enabled(s, step)
    ensures Paired(Next(s, step))
  {
    hide Race;
  }

  lemma WordWraps(n: nat)
    ensures (n % WORD + 1) % WORD == (n + 1) % WORD
  {
  }

  lemma CountedNext(s: State, step: Step)
    requires s.requests == |s.depth.racers| % WORD && Enabled(s, step)
    ensures Next(s, step).requests == |Next(s, step).depth.racers| % WORD
  {
    hide Race;
    WordWraps(|s.depth.racers|);
  }

  lemma CellsNext(s: State, step: Step)
    requires Inv(s) && Enabled(s, step)
    ensures var s' := Next(s, step);
            CellOk(s'.depth) && CellOk(s'.cost) && s.depth.max <= s'.depth.max && s.cost.max <= s'.cost.max
  {
    hide Race, CellOk, Enter;
    match step
    case Call(d, c) =>
      EnterKeeps(s.depth, Racer(d, Loading, 0));
      EnterKeeps(s.cost, Racer(c, Before, 0));
    case OnDepth(i) =>
      RaceKeeps(s.depth, i);
      if Race(s.depth, i).racers[i].place.Out? {
        BeginKeeps(s.cost, i);
      }
    case OnCost(i) => RaceKeeps(s.cost, i);
  }

  lemma InvNext(s: State, step: Step)
    requires Inv(s) && Enabled(s, step)
    ensures Inv(Next(s, step))
    ensures s.depth.max <= Next(s, step).depth.max && s.cost.max <= Next(s, step).cost.max
  {
    PairedNext(s, step);
    CountedNext(s, step);
    CellsNext(s, step);
    hide Next, CellOk, Paired;
  }

  /** In every run the maxima only ever grow. */
  lemma {:induction false} MaximaGrow(s: State, steps: seq<Step>)
    requires Inv(s) && IsRun(s, steps)
    ensures Inv(End(s, steps))
    ensures s.depth.max <= End(s, steps).depth.max && s.cost.max <= End(s, steps).cost.max
    decreases |steps|
  {
    hide Inv, Next;
    if steps != [] {
      InvNext(s, steps[0]);
      MaximaGrow(Next(s, steps[0]), steps[1..]);
    }
  }

  lemma Reachable(steps: seq<Step>)
    requires IsRun(START, steps)
    ensures Inv(End(START, steps))
  {
    assert Winners([]) == {};
    MaximaGrow(START, steps);
  }

  function Highest(racers: seq<Racer>): uint64 {
    if racers == [] then 0 else
    var h, v := Highest(racers[..|racers| - 1]), racers[|racers| - 1].value;
    if v > h then v else h
  }

  lemma {:induction false} HighestAtMost(racers: seq<Racer>, max: uint64)
    requires forall i :: 0 <= i < |racers| ==> racers[i].value <= max
    ensures Highest(racers) <= max
  {
    if racers != [] {
      HighestAtMost(racers[..|racers| - 1], max);
    }
  }

  lemma {:induction false} HighestIs(racers: seq<Racer>, max: uint64)
    requires forall i :: 0 <= i < |racers| ==> racers[i].value <= max
    requires max == 0 || exists i :: 0 <= i < |racers| && racers[i].value == max
    ensures Highest(racers) == max
  {
    if racers != [] {
      var init, v := racers[..|racers| - 1], racers[|racers| - 1].value;
      if v < max {
        var i :| 0 <= i < |racers| && racers[i].value == max;
        assert init[i] == racers[i];
        HighestIs(init, max);
      } else {
        HighestAtMost(init, max);
      }
    }
  }

  /** The maximum is zero or a recorded value, and no finished call's value is above it. */
  predicate Sound(c: Cell) {
    && (c.max == 0 || exists j :: 0 <= j < |c.racers| && c.racers[j].value == c.max)
    && forall i :: 0 <= i < |c.racers| && c.racers[i].place.Out? ==> c.racers[i].value <= c.max
  }

  lemma OkIsSound(c: Cell)
    requires CellOk(c)
    ensures Sound(c)
  {
    assert forall i :: 0 <= i < |c.racers| ==> RacerOk(c.racers[i], c.max, c.wins);
  }

  /** Whatever the interleaving, and also while calls are still under way. */
  lemma MaximaAreSound(steps: seq<Step>)
    requires IsRun(START, steps)
    ensures Sound(End(START, steps).depth) && Sound(End(START, steps).cost)
  {
    Reachable(steps);
    var s := End(START, steps);
    hide IsRun, End;
    OkIsSound(s.depth);
    OkIsSound(s.cost);
  }

  lemma CellHighest(c: Cell)
    requires CellOk(c) && forall i :: 0 <= i < |c.racers| ==> c.racers[i].place.Out?
    ensures c.max == Highest(c.racers)
  {
    assert forall i :: 0 <= i < |c.racers| ==> RacerOk(c.racers[i], c.max, c.wins);
    HighestIs(c.racers, c.max);
  }

  /** When every call has returned, each maximum is exactly the greatest value recorded, and each call was counted. */
  lemma QuiescentMaxima(steps: seq<Step>)
    requires IsRun(START, steps)
    requires forall i :: 0 <= i < |End(START, steps).cost.racers| ==> End(START, steps).cost.racers[i].place.Out?
    ensures var s := End(START, steps);
            && s.depth.max == Highest(s.depth.racers) && s.cost.max == Highest(s.cost.racers)
            && s.requests == |s.depth.racers| % WORD
  {
    Reachable(steps);
    var s := End(START, steps);
    hide IsRun, End;
    assert forall i :: 0 <= i < |s.depth.racers| ==> s.depth.racers[i].place.Out?;
    CellHighest(s.depth);
    CellHighest(s.cost);
  }

  lemma {:induction false} FewWinners(racers: seq<Racer>, i: nat)
    requires i < |racers|
    ensures |Winners(racers)| <= if racers[i].place == Out(true) then |racers| else |racers| - 1
  {
    var last := |racers| - 1;
    var init := racers[..last];
    assert Winners(racers) == Winners(init) + if racers[last].place == Out(true) then {last} else {};
    assert last !in Winners(init);
    if last == 0 {
      assert Winners(init) == {};
    } else if i < last {
      FewWinners(init, i);
    } else {
      FewWinners(init, 0);
    }
  }

  lemma FewLosses(c: Cell, i: nat)
    requires CellOk(c) && i < |c.racers|
    ensures c.racers[i].lost < |c.racers|
  {
    assert RacerOk(c.racers[i], c.max, c.wins);
    FewWinners(c.racers, i);
  }

  /** A call loses fewer swaps than there are calls, so no loop runs on for ever. */
  lemma LossesAreBounded(steps: seq<Step>, i: nat)
    requires IsRun(START, steps) && i < |End(START, steps).depth.racers|
    ensures var s := End(START, steps);
            && |s.cost.racers| == |s.depth.racers|
            && s.depth.racers[i].lost < |s.depth.racers| && s.cost.racers[i].lost < |s.cost.racers|
  {
    Reachable(steps);
    var s := End(START, steps);
    hide IsRun, End, CellOk;
    FewLosses(s.depth, i);
    FewLosses(s.cost, i);
  }
}
