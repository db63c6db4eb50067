/**
 * Haunted wasteland: a network of nodes, each with a left and a right successor, walked by
 * repeating a list of left/right instructions. A walk's state is its node together with its
 * position in the instruction list, and that state sequence is what the cycle detection works on.
 */
module Day08 {
  import opened Common

  /** Each node's left and right successors. */
  type WorldMap = map<string, (string, string)>

  /** Every successor is itself described, and no node name is empty. */
  predicate Closed(W: WorldMap)
  {
    "" !in W && forall n {:trigger Linked(W, n)} | n in W :: Linked(W, n)
  }

  /** Both successors of `n` are described. */
  predicate Linked(W: WorldMap, n: string)
    requires n in W
  {
    W[n].0 in W && W[n].1 in W
  }

  lemma SuccessorsIn(W: WorldMap, n: string)
    requires Closed(W) && n in W
    ensures n != "" && W[n].0 in W && W[n].1 in W
  {
    assert Linked(W, n);
  }

  /** `next`: the left successor on `L`, the right one on any other instruction. */
  function Next(W: WorldMap, current: string, step: char): (r: string)
    requires current in W
    ensures step == 'L' ==> r == W[current].0
    ensures step != 'L' ==> r == W[current].1
  {
    if step == 'L' then W[current].0 else W[current].1
  }

  /** `stepAt`: the instruction list repeats forever. */
  function StepAt(steps: string, index: nat): char
    requires |steps| > 0
  {
    steps[index % |steps|]
  }

  /** After a whole round of instructions the same instruction comes again. */
  lemma StepAtPeriodic(steps: string, index: nat)
    requires |steps| > 0
    ensures StepAt(steps, index + |steps|) == StepAt(steps, index)
  {
    ModAddPeriod(index, |steps|);
  }

  /** Where a walk stands: its node and its position in the instruction list. */
  datatype State = State(node: string, phase: nat)

  /** One step of a walk on states; states outside the map or the list stay put. */
  function Step(W: WorldMap, steps: string, s: State): State
  {
    if |steps| > 0 && s.node in W && s.phase < |steps|
    then State(Next(W, s.node, steps[s.phase]), if s.phase + 1 == |steps| then 0 else s.phase + 1)
    else s
  }

  /** The state of a walk from `x` after `k` steps. */
  function After(W: WorldMap, steps: string, x: State, k: nat): State
    decreases k, 0
  {
    if k == 0 then x else StepFrom(W, steps, x, k - 1)
  }

  /** The state of a walk from `x` after `j + 1` steps: one step on from `After(W, steps, x, j)`. */
  function StepFrom(W: WorldMap, steps: string, x: State, j: nat): State
    decreases j, 1
  {
    Step(W, steps, After(W, steps, x, j))
  }

  lemma AfterSucc(W: WorldMap, steps: string, x: State, k: nat)
    ensures After(W, steps, x, k + 1) == Step(W, steps, After(W, steps, x, k))
  {
  }

  /** Walking `a + k` steps is walking `a` steps and then `k` more. */
  lemma {:induction false} AfterAdd(W: WorldMap, steps: string, x: State, a: nat, k: nat)
    ensures After(W, steps, x, a + k) == After(W, steps, After(W, steps, x, a), k)
  {
    if k > 0 {
      AfterAdd(W, steps, x, a, k - 1);
      AfterSucc(W, steps, x, a + k - 1);
      AfterSucc(W, steps, After(W, steps, x, a), k - 1);
    }
  }

  /** The position in the instruction list after `idx` steps: `idx % L`, counted out round by round. */
  function Phase(idx: nat, L: nat): nat
    requires L > 0
  {
    if idx < L then idx else Phase(idx - L, L)
  }

  lemma {:induction false} PhaseIsRemainder(idx: nat, L: nat)
    requires L > 0
    ensures Phase(idx, L) == idx % L
  {
    if idx >= L {
      PhaseIsRemainder(idx - L, L);
      ModAddPeriod(idx - L, L);
    } else {
      ModAddPeriod(idx, L);
    }
  }

  /** Stepping a walk that has taken `idx` steps is one transition of its state. */
  lemma StepFromPhase(W: WorldMap, steps: string, node: string, idx: nat)
    requires |steps| > 0 && Closed(W) && node in W
    ensures Step(W, steps, State(node, Phase(idx, |steps|)))
            == State(Next(W, node, StepAt(steps, idx)), Phase(idx + 1, |steps|))
    ensures Next(W, node, StepAt(steps, idx)) in W
  {
    SuccessorsIn(W, node);
    var L := |steps|;
    PhaseIsRemainder(idx, L);
    PhaseIsRemainder(idx + 1, L);
    var q, r := idx / L, idx % L;
    if r + 1 < L {
      ModUnique(idx + 1, L, q, r + 1);
      ModUnique(r + 1, L, 0, r + 1);
    } else {
      ModUnique(idx + 1, L, q + 1, 0);
      ModUnique(r + 1, L, 1, 0);
    }
  }

  /** A name that starts with `Z` (the names of part 2 are reversed, so this is "ends with Z"). */
  predicate Arrived(s: State)
  {
    |s.node| > 0 && s.node[0] == 'Z'
  }

  /** A walker: its network, its instructions, the node it stands on and how many steps it took. */
  class Walker {
    const steps: string
    const worldMap: WorldMap
    var current: string
    var numStepsTaken: nat

    predicate Valid()
      reads this
    {
      |steps| > 0 && Closed(worldMap) && current in worldMap
    }

    constructor (steps: string, worldMap: WorldMap, current: string)
      requires |steps| > 0 && Closed(worldMap) && current in worldMap
      ensures Valid()
      ensures this.steps == steps && this.worldMap == worldMap && this.current == current && numStepsTaken == 0
    {
      this.steps := steps;
      this.worldMap := worldMap;
      this.current := current;
      numStepsTaken := 0;
    }

    /** The walker's state: its node and its position in the instruction list. */
    function Current(): State
      reads this
      requires |steps| > 0
    {
      State(current, Phase(numStepsTaken, |steps|))
    }

    /** `isArrived`: the node's name starts with `Z`. */
    predicate IsArrived()
      reads this
      requires Valid()
      ensures IsArrived() <==> Arrived(Current())
    {
      SuccessorsIn(worldMap, current);
      current[0] == 'Z'
    }

    /** `advance`: one more step, following the instruction at the number of steps taken so far. */
    method Advance()
      requires Valid()
      modifies this
      ensures Valid()
      ensures numStepsTaken == old(numStepsTaken) + 1
      ensures current == Next(worldMap, old(current), StepAt(steps, old(numStepsTaken)))
      ensures Current() == Step(worldMap, steps, old(Current()))
    {
      StepFromPhase(worldMap, steps, current, numStepsTaken);
      current := Next(worldMap, current, StepAt(steps, numStepsTaken));
      numStepsTaken := numStepsTaken + 1;
    }

    /** The data-class `copy`: a new walker in the same place. */
    method Copy() returns (w: Walker)
      requires Valid()
      ensures fresh(w) && w.Valid()
      ensures w.steps == steps && w.worldMap == worldMap && w.current == current && w.numStepsTaken == numStepsTaken
    {
      w := new Walker(steps, worldMap, current);
      w.numStepsTaken := numStepsTaken;
    }
  }

  /** Equal states stay equal: a walk's future depends only on its state. */
  lemma ShiftEqual(W: WorldMap, steps: string, x: State, a: nat, b: nat, k: nat)
    requires After(W, steps, x, a) == After(W, steps, x, b)
    ensures After(W, steps, x, a + k) == After(W, steps, x, b + k)
  {
    AfterAdd(W, steps, x, a, k);
    AfterAdd(W, steps, x, b, k);
  }

  /** The state after `m` steps comes back after `lam` further steps. */
  ghost predicate ReturnsAfter(W: WorldMap, steps: string, x: State, m: nat, lam: nat)
  {
    After(W, steps, x, m + lam) == After(W, steps, x, m)
  }

  /** The state after `m` steps comes back after some further steps. */
  ghost predicate Recurs(W: WorldMap, steps: string, x: State, m: nat)
  {
    exists lam: nat | lam >= 1 :: After(W, steps, After(W, steps, x, m), lam) == After(W, steps, x, m)
  }

  /** `mu` is where the state sequence enters its cycle: its state recurs and no earlier one does. */
  ghost predicate IsCycleStart(W: WorldMap, steps: string, x: State, mu: nat)
  {
    Recurs(W, steps, x, mu) && forall m: nat | m < mu :: !Recurs(W, steps, x, m)
  }

  /** From a recurring state on, whole numbers of periods change nothing. */
  lemma {:induction false} PeriodicFrom(W: WorldMap, steps: string, x: State, m: nat, lam: nat, j: nat, k: nat, p: nat)
    requires After(W, steps, After(W, steps, x, m), lam) == After(W, steps, x, m)
    requires p == k * lam
    ensures After(W, steps, x, m + j + p) == After(W, steps, x, m + j)
  {
    if k > 0 {
      assert (k - 1) * lam == p - lam;
      PeriodicFrom(W, steps, x, m, lam, j, k - 1, p - lam);
      AfterAdd(W, steps, x, m, lam);
      ShiftEqual(W, steps, x, m + lam, m, j + (p - lam));
    }
  }

  /**
   * Where the hare, at twice the tortoise's distance `nu`, met it: every recurring state also
   * recurs after `2 * nu` steps.
   */
  lemma RecurringAfterMeeting(W: WorldMap, steps: string, x: State, m: nat, nu: nat)
    requires Recurs(W, steps, x, m) && nu >= 1 && After(W, steps, x, 2 * nu) == After(W, steps, x, nu)
    ensures After(W, steps, x, m + 2 * nu) == After(W, steps, x, m)
  {
    var lam: nat :| lam >= 1 && After(W, steps, After(W, steps, x, m), lam) == After(W, steps, x, m);
    var p := nu * lam;
    assert p >= nu;
    var t := m + p;
    PeriodicFrom(W, steps, x, m, lam, 0, nu, p);
    ShiftEqual(W, steps, x, nu, 2 * nu, t - nu);
    ShiftEqual(W, steps, x, nu, 2 * nu, t);
    PeriodicFrom(W, steps, x, m, lam, 2 * nu, nu, p);
  }

  lemma ProductAtLeast(a: nat, b: nat)
    requires b >= 1
    ensures a * b >= a
  {
  }

  /**
   * Past a recurring state the tortoise and the hare are bound to meet: at the latest after a
   * multiple of the period that is beyond the recurring state.
   */
  lemma MeetingExists(W: WorldMap, steps: string, x: State, mu: nat)
    requires Recurs(W, steps, x, mu)
    ensures exists t: nat :: t >= 1 && After(W, steps, x, 2 * t) == After(W, steps, x, t)
  {
    var lam: nat :| lam >= 1 && After(W, steps, After(W, steps, x, mu), lam) == After(W, steps, x, mu);
    var t := (mu + 1) * lam;
    ProductAtLeast(mu + 1, lam);
    PeriodicFrom(W, steps, x, mu, lam, t - mu, mu + 1, t);
    assert mu + (t - mu) + t == 2 * t;
  }

  /** A walk from `x` that has taken `idx` steps stands on `node`. */
  ghost predicate At(W: WorldMap, steps: string, x: State, node: string, idx: nat)
  {
    |steps| > 0 && node in W && State(node, Phase(idx, |steps|)) == After(W, steps, x, idx)
  }

  lemma AtNext(W: WorldMap, steps: string, x: State, node: string, idx: nat)
    requires Closed(W) && At(W, steps, x, node, idx)
    ensures At(W, steps, x, Next(W, node, StepAt(steps, idx)), idx + 1)
  {
    AfterSucc(W, steps, x, idx);
    StepFromPhase(W, steps, node, idx);
  }

  /** Two walks from `x` meet in the same state exactly when their nodes and instruction positions agree. */
  lemma AtSame(W: WorldMap, steps: string, x: State, node1: string, idx1: nat, node2: string, idx2: nat)
    requires At(W, steps, x, node1, idx1) && At(W, steps, x, node2, idx2)
    ensures (node1 == node2 && idx1 % |steps| == idx2 % |steps|) <==> After(W, steps, x, idx1) == After(W, steps, x, idx2)
  {
    PhaseIsRemainder(idx1, |steps|);
    PhaseIsRemainder(idx2, |steps|);
  }

  /** `worldMap.getValue(node).next(steps.stepAt(idx))`: one step of a walk that has taken `idx` steps. */
  method Move(W: WorldMap, steps: string, node: string, idx: nat, ghost x: State) returns (next: string)
    requires Closed(W) && At(W, steps, x, node, idx)
    ensures next == Next(W, node, StepAt(steps, idx))
    ensures At(W, steps, x, next, idx + 1)
  {
    AtNext(W, steps, x, node, idx);
    next := Next(W, node, StepAt(steps, idx));
  }

  /**
   * The first phase of `findCycleStart`: the tortoise takes one step and the hare two at a time
   * until they stand on the same node at the same instruction. The hare ends twice as far as the
   * tortoise, in the same state.
   */
  method MeetInCycle(start: string, W: WorldMap, steps: string) returns (hare: string, hareIdx: nat)
    requires |steps| > 0 && Closed(W) && start in W
    requires exists m: nat :: Recurs(W, steps, State(start, 0), m)
    ensures hareIdx >= 2 && hareIdx % 2 == 0
    ensures At(W, steps, State(start, 0), hare, hareIdx)
    ensures ReturnsAfter(W, steps, State(start, 0), hareIdx / 2, hareIdx / 2)
  {
    ghost var x := State(start, 0);
    var L := |steps|;
    ghost var mu0: nat :| Recurs(W, steps, x, mu0);
    MeetingExists(W, steps, x, mu0);
    ghost var bound: nat :| bound >= 1 && After(W, steps, x, 2 * bound) == After(W, steps, x, bound);
    assert At(W, steps, x, start, 0);

    var tortoise := start;
    var tortoiseIdx: nat := 0;
    hare, hareIdx := start, 0;
    while true
      invariant tortoiseIdx < bound && hareIdx == 2 * tortoiseIdx
      invariant At(W, steps, x, tortoise, tortoiseIdx) && At(W, steps, x, hare, hareIdx)
      decreases bound - tortoiseIdx
    {
      tortoise := Move(W, steps, tortoise, tortoiseIdx, x);
      tortoiseIdx := tortoiseIdx + 1;
      hare := Move(W, steps, hare, hareIdx, x);
      hareIdx := hareIdx + 1;
      hare := Move(W, steps, hare, hareIdx, x);
      hareIdx := hareIdx + 1;
      AtSame(W, steps, x, tortoise, tortoiseIdx, hare, hareIdx);
      if tortoiseIdx == bound {
        assert hareIdx == 2 * bound;
        assert After(W, steps, x, hareIdx) == After(W, steps, x, tortoiseIdx);
      }
      if tortoise == hare && tortoiseIdx % L == hareIdx % L {
        break;
      }
    }
    assert hareIdx / 2 == tortoiseIdx && hareIdx / 2 + hareIdx / 2 == hareIdx;
  }

  /**
   * `findCycleStart`: Floyd's tortoise and hare on the walk's states from `start`. The result is
   * the number of steps before the state sequence enters its cycle.
   */
  method FindCycleStart(start: string, W: WorldMap, steps: string) returns (numSteps: nat)
    requires |steps| > 0 && Closed(W) && start in W
    requires exists m: nat :: Recurs(W, steps, State(start, 0), m)
    ensures IsCycleStart(W, steps, State(start, 0), numSteps)
  {
    ghost var x := State(start, 0);
    var L := |steps|;
    var hare, hareIdx := MeetInCycle(start, W, steps);
    ghost var nu := hareIdx / 2;
    ghost var mu0: nat :| Recurs(W, steps, x, mu0);
    RecurringAfterMeeting(W, steps, x, mu0, nu);
    assert ReturnsAfter(W, steps, x, mu0, 2 * nu);

    var tortoise := start;
    var tortoiseIdx: nat := 0;
    numSteps := 0;
    assert At(W, steps, x, start, 0);
    while tortoise != hare || tortoiseIdx % L != hareIdx % L
      invariant tortoiseIdx == numSteps <= mu0 && hareIdx == 2 * nu + numSteps
      invariant At(W, steps, x, tortoise, tortoiseIdx) && At(W, steps, x, hare, hareIdx)
      invariant forall m: nat | m < numSteps :: !ReturnsAfter(W, steps, x, m, 2 * nu)
      decreases mu0 - numSteps
    {
      AtSame(W, steps, x, tortoise, tortoiseIdx, hare, hareIdx);
      assert After(W, steps, x, hareIdx) != After(W, steps, x, tortoiseIdx);
      assert !ReturnsAfter(W, steps, x, numSteps, 2 * nu);
      assert numSteps != mu0;
      ghost var checked := numSteps;
      tortoise := Move(W, steps, tortoise, tortoiseIdx, x);
      tortoiseIdx := tortoiseIdx + 1;
      hare := Move(W, steps, hare, hareIdx, x);
      hareIdx := hareIdx + 1;
      numSteps := numSteps + 1;
      forall m: nat | m < numSteps ensures !ReturnsAfter(W, steps, x, m, 2 * nu) {
        if m == checked {
          assert !ReturnsAfter(W, steps, x, checked, 2 * nu);
        }
      }
    }
    AtSame(W, steps, x, tortoise, tortoiseIdx, hare, hareIdx);
    FirstReturnIsCycleStart(W, steps, x, nu, numSteps);
  }

  /**
   * With the hare `2 * nu` steps ahead of the tortoise after a meeting at `nu`, the first step
   * count at which the two states agree is where the cycle starts.
   */
  lemma FirstReturnIsCycleStart(W: WorldMap, steps: string, x: State, nu: nat, mu: nat)
    requires nu >= 1 && After(W, steps, x, 2 * nu) == After(W, steps, x, nu)
    requires ReturnsAfter(W, steps, x, mu, 2 * nu)
    requires forall m: nat | m < mu :: !ReturnsAfter(W, steps, x, m, 2 * nu)
    ensures IsCycleStart(W, steps, x, mu)
  {
    AfterAdd(W, steps, x, mu, 2 * nu);
    assert Recurs(W, steps, x, mu);
    forall m: nat | m < mu ensures !Recurs(W, steps, x, m) {
      if Recurs(W, steps, x, m) {
        RecurringAfterMeeting(W, steps, x, m, nu);
        assert ReturnsAfter(W, steps, x, m, 2 * nu);
      }
    }
  }

  /**
   * `findCycleLength`: the number of steps after which the walker's state comes back, the
   * smallest such number when the walker stands on its cycle.
   */
  method FindCycleLength(walker: Walker) returns (cycleLength: nat)
    requires walker.Valid()
    requires exists k: nat | k >= 1 :: After(walker.worldMap, walker.steps, walker.Current(), k) == walker.Current()
    ensures cycleLength >= 1
    ensures After(walker.worldMap, walker.steps, walker.Current(), cycleLength) == walker.Current()
    ensures forall k | 1 <= k < cycleLength :: After(walker.worldMap, walker.steps, walker.Current(), k) != walker.Current()
  {
    var W, steps, L := walker.worldMap, walker.steps, |walker.steps|;
    ghost var s0 := walker.Current();
    ghost var K: nat :| K >= 1 && After(W, steps, s0, K) == s0;
    var cycleStart := walker.current;
    var current := cycleStart;
    var startIdx := walker.numStepsTaken;
    var numStepsTaken: nat := startIdx;
    PhaseIsRemainder(startIdx, L);
    cycleLength := 0;
    while true
      invariant cycleLength < K && current in W
      invariant State(current, Phase(numStepsTaken, L)) == After(W, steps, s0, cycleLength)
      invariant forall k | 1 <= k <= cycleLength :: After(W, steps, s0, k) != s0
      decreases K - cycleLength
    {
      StepFromPhase(W, steps, current, numStepsTaken);
      AfterSucc(W, steps, s0, cycleLength);
      current := Next(W, current, StepAt(steps, numStepsTaken));
      numStepsTaken := numStepsTaken + 1;
      cycleLength := cycleLength + 1;
      PhaseIsRemainder(numStepsTaken, L);
      if current == cycleStart && numStepsTaken % L == startIdx % L {
        break;
      }
    }
  }

  /** The step counts below `n` after which the walk from `s0` stands on an arrival node, in order. */
  function Arrivals(W: WorldMap, steps: string, s0: State, n: nat): (r: seq<nat>)
    ensures forall i | 0 <= i < |r| :: r[i] < n && Arrived(After(W, steps, s0, r[i]))
    ensures forall k | 0 <= k < n && Arrived(After(W, steps, s0, k)) :: k in r
    ensures forall i, j | 0 <= i < j < |r| :: r[i] < r[j]
  {
    if n == 0 then []
    else Arrivals(W, steps, s0, n - 1) + (if Arrived(After(W, steps, s0, n - 1)) then [n - 1] else [])
  }

  /**
   * A strider: the offsets within one cycle at which a walker arrives, the cycle's length, and
   * where in the cycle it now is.
   */
  class Strider {
    const destinations: seq<nat>
    const cycleLength: int
    var currentPos: int

    /** The `init` check: there must be a destination. */
    constructor (destinations: seq<nat>, cycleLength: int)
      requires |destinations| > 0
      ensures this.destinations == destinations && this.cycleLength == cycleLength && currentPos == 0
    {
      this.destinations := destinations;
      this.cycleLength := cycleLength;
      currentPos := 0;
    }

    /** `advanceBy`: move on and wrap around the cycle with Kotlin's remainder. */
    method AdvanceBy(steps: int)
      requires cycleLength != 0
      modifies this
      ensures currentPos == KotlinRem(old(currentPos) + steps, cycleLength)
    {
      currentPos := currentPos + steps;
      currentPos := KotlinRem(currentPos, cycleLength);
    }
  }

  /** Kotlin's `%` on integers: the remainder takes the sign of the dividend. */
  function KotlinRem(a: int, b: int): (r: int)
    requires b != 0
    ensures a >= 0 ==> 0 <= r < Abs(b)
    ensures a < 0 ==> -Abs(b) < r <= 0
  {
    if a >= 0 then a % b else -((-a) % b)
  }

  /** Advancing by a non-negative number keeps the position within the cycle. */
  lemma AdvanceKeepsPosition(pos: int, steps: int, cycleLength: int)
    requires 0 <= pos < cycleLength && steps >= 0
    ensures 0 <= KotlinRem(pos + steps, cycleLength) < cycleLength
    ensures KotlinRem(pos + steps, cycleLength) == (pos + steps) % cycleLength
  {
  }

  /**
   * `createStrider`: a copy of the walker walks one cycle, noting at which offsets it stands on
   * an arrival node; the walker itself does not move.
   */
  method CreateStrider(walker: Walker, cycleLen: nat) returns (strider: Strider)
    requires walker.Valid()
    requires exists k | 0 <= k < cycleLen :: Arrived(After(walker.worldMap, walker.steps, walker.Current(), k))
    ensures fresh(strider)
    ensures strider.destinations == Arrivals(walker.worldMap, walker.steps, walker.Current(), cycleLen)
    ensures strider.cycleLength == cycleLen && strider.currentPos == 0
  {
    ghost var W, steps, s0 := walker.worldMap, walker.steps, walker.Current();
    var walkerCopy := walker.Copy();
    var destinationIndices: seq<nat> := [];
    for idx := 0 to cycleLen
      invariant fresh(walkerCopy) && walkerCopy.Valid()
      invariant walkerCopy.steps == walker.steps && walkerCopy.worldMap == walker.worldMap
      invariant walkerCopy.Current() == After(W, steps, s0, idx)
      invariant destinationIndices == Arrivals(W, steps, s0, idx)
    {
      if walkerCopy.IsArrived() {
        destinationIndices := destinationIndices + [idx];
      }
      walkerCopy.Advance();
    }
    ghost var k :| 0 <= k < cycleLen && Arrived(After(W, steps, s0, k));
    assert k in destinationIndices;
    strider := new Strider(destinationIndices, cycleLen);
  }

  /** How the walk of part 1 ends. */
  datatype Journey = Reached(numSteps: nat) | Lost | Unfinished

  /**
   * The walk of `part1` from `current` after `taken` steps: `R` goes right, `L` left, any other
   * instruction, a node without a description or an empty instruction list is an error (`Lost`);
   * `Unfinished` after `fuel` more steps.
   */
  function WalkToEnd(W: WorldMap, steps: string, current: string, taken: nat, fuel: nat): Journey
    decreases fuel
  {
    if current == "ZZZ" then Reached(taken)
    else if fuel == 0 then Unfinished
    else if current !in W || |steps| == 0 then Lost
    else
      var step := StepAt(steps, taken);
      if step == 'R' then WalkToEnd(W, steps, W[current].1, taken + 1, fuel - 1)
      else if step == 'L' then WalkToEnd(W, steps, W[current].0, taken + 1, fuel - 1)
      else Lost
  }

  /** `part1`: walk from `AAA` until `ZZZ`, counting the steps. */
  method Part1(W: WorldMap, steps: string, fuel: nat) returns (r: Journey)
    ensures r == WalkToEnd(W, steps, "AAA", 0, fuel)
  {
    var current := "AAA";
    var numStepsTaken := 0;
    var remaining := fuel;
    while current != "ZZZ"
      invariant WalkToEnd(W, steps, current, numStepsTaken, remaining) == WalkToEnd(W, steps, "AAA", 0, fuel)
      decreases remaining
    {
      if remaining == 0 {
        return Unfinished;
      }
      if current !in W || |steps| == 0 {
        return Lost;
      }
      var (left, right) := W[current];
      var step := StepAt(steps, numStepsTaken);
      if step == 'R' {
        current := right;
      } else if step == 'L' {
        current := left;
      } else {
        return Lost;
      }
      numStepsTaken := numStepsTaken + 1;
      remaining := remaining - 1;
    }
    return Reached(numStepsTaken);
  }

  /** Only `L` and `R` instructions. */
  predicate OnlyLeftRight(steps: string)
  {
    forall i | 0 <= i < |steps| :: steps[i] == 'L' || steps[i] == 'R'
  }

  /**
   * On a closed network with only `L`/`R` instructions the walk of part 1 follows `next`: when
   * it reaches `ZZZ` after `n` steps, the walk's state after `n` steps stands on `ZZZ` and no
   * earlier one does; and it never gets lost.
   */
  lemma {:induction false} WalkFollowsNext(W: WorldMap, steps: string, current: string, taken: nat, fuel: nat, x: State)
    requires Closed(W) && |steps| > 0 && OnlyLeftRight(steps) && current in W
    requires State(current, Phase(taken, |steps|)) == After(W, steps, x, taken)
    requires forall k: nat | k < taken :: After(W, steps, x, k).node != "ZZZ"
    ensures WalkToEnd(W, steps, current, taken, fuel) != Lost
    ensures WalkToEnd(W, steps, current, taken, fuel).Reached? ==>
              var n := WalkToEnd(W, steps, current, taken, fuel).numSteps;
              && After(W, steps, x, n).node == "ZZZ"
              && forall k: nat | k < n :: After(W, steps, x, k).node != "ZZZ"
    decreases fuel
  {
    if current != "ZZZ" && fuel > 0 {
      var step := StepAt(steps, taken);
      StepFromPhase(W, steps, current, taken);
      var next := Next(W, current, step);
      assert step == 'L' || step == 'R';
      WalkFollowsNext(W, steps, next, taken + 1, fuel - 1, x);
    }
  }

  /** The second documented network: `LLR` with `AAA = (BBB, BBB)`, `BBB = (AAA, ZZZ)`, `ZZZ = (ZZZ, ZZZ)`. */
  predicate IsSecondExample(W: WorldMap, steps: string)
  {
    steps == "LLR" && W == map["AAA" := ("BBB", "BBB"), "BBB" := ("AAA", "ZZZ"), "ZZZ" := ("ZZZ", "ZZZ")]
  }

  /** It takes 6 steps to reach `ZZZ`. */
  lemma SecondExampleTakesSix(W: WorldMap, steps: string, fuel: nat)
    requires IsSecondExample(W, steps) && fuel >= 6
    ensures WalkToEnd(W, steps, "AAA", 0, fuel) == Reached(6)
  {
    assert StepAt(steps, 0) == 'L' && StepAt(steps, 1) == 'L' && StepAt(steps, 2) == 'R';
    assert StepAt(steps, 3) == 'L' && StepAt(steps, 4) == 'L' && StepAt(steps, 5) == 'R';
    assert WalkToEnd(W, steps, "ZZZ", 6, fuel - 6) == Reached(6);
    assert WalkToEnd(W, steps, "BBB", 5, fuel - 5) == Reached(6);
    assert WalkToEnd(W, steps, "AAA", 4, fuel - 4) == Reached(6);
    assert WalkToEnd(W, steps, "BBB", 3, fuel - 3) == Reached(6);
    assert WalkToEnd(W, steps, "AAA", 2, fuel - 2) == Reached(6);
    assert WalkToEnd(W, steps, "BBB", 1, fuel - 1) == Reached(6);
  }
}
