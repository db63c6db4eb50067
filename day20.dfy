/**
 * Pulse propagation: flip-flops, conjunctions, a broadcaster, a button and the `rx` receiver pass
 * high and low pulses along their outputs; a button press is handled to the end, first sent first
 * handled.
 */
module Day20 {
  import opened Common

  /** The kinds of module; `Dummy` stands for an undeclared output that only swallows pulses. */
  datatype Kind = FlipFlop | Conjunction | Broadcast | Button | Receiver | Dummy

  /** A pulse from one module to another; `high` is the `ON` state. */
  datatype Pulse = Pulse(from: Module, high: bool, to: Module)

  /** What a module remembers: a flip-flop's state, a conjunction's last pulse per input, the receiver's latch. */
  datatype Memory = Memory(on: bool, inputs: map<string, bool>, isActivated: bool)

  /** `outputs.map { Pulse(from, state, it) }`: one pulse of the same level to each output, in order. */
  function Pulses(from: Module, high: bool, outputs: seq<Module>): (r: seq<Pulse>)
    ensures |r| == |outputs|
    ensures forall i | 0 <= i < |r| :: r[i] == Pulse(from, high, outputs[i])
  {
    if outputs == [] then [] else Pulses(from, high, outputs[..|outputs| - 1]) + [Pulse(from, high, outputs[|outputs| - 1])]
  }

  /** Every remembered pulse is high (vacuously so with no inputs). */
  predicate AllHigh(inputs: map<string, bool>)
  {
    forall n | n in inputs :: inputs[n]
  }

  /** How a module of the given kind answers a pulse: its new memory and the pulses it sends. */
  function Respond(self: Module, kind: Kind, outputs: seq<Module>, mem: Memory, pulse: Pulse): (Memory, seq<Pulse>)
  {
    match kind
    case FlipFlop =>
      if !pulse.high then (mem.(on := !mem.on), Pulses(self, !mem.on, outputs)) else (mem, [])
    case Conjunction =>
      var inputs := mem.inputs[pulse.from.name := pulse.high];
      (mem.(inputs := inputs), Pulses(self, !AllHigh(inputs), outputs))
    case Broadcast => (mem, Pulses(self, pulse.high, outputs))
    case Button => (mem, if outputs == [] then [] else [Pulse(self, false, outputs[0])])
    case Receiver => (mem.(isActivated := mem.isActivated || !pulse.high), [])
    case Dummy => (mem, [])
  }

  class Module {
    const name: string
    const kind: Kind
    var outputs: seq<Module>
    var on: bool
    var inputs: map<string, bool>
    var isActivated: bool

    constructor (name: string, kind: Kind, outputs: seq<Module>)
      ensures this.name == name && this.kind == kind && this.outputs == outputs
      ensures !on && inputs == map[] && !isActivated
    {
      this.name := name;
      this.kind := kind;
      this.outputs := outputs;
      on := false;
      inputs := map[];
      isActivated := false;
    }

    /** `Button(broadcast)`: a button whose only output is the broadcaster. */
    constructor Press(broadcast: Module)
      ensures name == "<button>" && kind == Button && outputs == [broadcast]
      ensures !on && inputs == map[] && !isActivated
    {
      name := "<button>";
      kind := Button;
      outputs := [broadcast];
      on := false;
      inputs := map[];
      isActivated := false;
    }

    function Mem(): Memory
      reads this
    {
      Memory(on, inputs, isActivated)
    }

    /** `addInput`: a conjunction starts out remembering a low pulse from the new input; other kinds ignore it. */
    method AddInput(input: Module)
      modifies this
      ensures kind == Conjunction ==> inputs == old(inputs)[input.name := false]
      ensures kind != Conjunction ==> inputs == old(inputs)
      ensures outputs == old(outputs) && on == old(on) && isActivated == old(isActivated)
    {
      if kind == Conjunction {
        inputs := inputs[input.name := false];
      }
    }

    /** `process`: answer one pulse as `Respond` says; the outputs stay as they are. */
    method Process(pulse: Pulse) returns (out: seq<Pulse>)
      modifies this
      ensures outputs == old(outputs)
      ensures (Mem(), out) == Respond(this, kind, outputs, old(Mem()), pulse)
      ensures forall p | p in out :: p.from == this && p.to in outputs
    {
      match kind
      case FlipFlop =>
        if !pulse.high {
          on := !on;
          out := Pulses(this, on, outputs);
        } else {
          out := [];
        }
      case Conjunction =>
        inputs := inputs[pulse.from.name := pulse.high];
        out := Pulses(this, !AllHigh(inputs), outputs);
      case Broadcast =>
        out := Pulses(this, pulse.high, outputs);
      case Button =>
        out := if outputs == [] then [] else [Pulse(this, false, outputs[0])];
      case Receiver =>
        isActivated := isActivated || !pulse.high;
        out := [];
      case Dummy =>
        out := [];
    }
  }

  /** A flip-flop ignores a high pulse: nothing changes and nothing is sent. */
  lemma FlipFlopIgnoresHigh(self: Module, outputs: seq<Module>, mem: Memory, pulse: Pulse)
    requires pulse.high
    ensures Respond(self, FlipFlop, outputs, mem, pulse) == (mem, [])
  {
  }

  /** A flip-flop hit by a low pulse toggles and sends one pulse per output, high exactly when it is now on. */
  lemma FlipFlopTogglesOnLow(self: Module, outputs: seq<Module>, mem: Memory, pulse: Pulse)
    requires !pulse.high
    ensures var (mem', out) := Respond(self, FlipFlop, outputs, mem, pulse);
            && mem'.on == !mem.on && mem'.inputs == mem.inputs && mem'.isActivated == mem.isActivated
            && |out| == |outputs|
            && forall i | 0 <= i < |out| :: out[i].to == outputs[i] && out[i].from == self && (out[i].high <==> mem'.on)
  {
  }

  /**
   * A conjunction remembers the sender's latest pulse, keeps the rest of its memory, and sends
   * low pulses (to every output) exactly when every remembered pulse is high.
   */
  lemma ConjunctionRemembers(self: Module, outputs: seq<Module>, mem: Memory, pulse: Pulse)
    requires outputs != []
    ensures var (mem', out) := Respond(self, Conjunction, outputs, mem, pulse);
            && pulse.from.name in mem'.inputs && mem'.inputs[pulse.from.name] == pulse.high
            && (forall n | n in mem.inputs && n != pulse.from.name :: n in mem'.inputs && mem'.inputs[n] == mem.inputs[n])
            && mem'.inputs.Keys == mem.inputs.Keys + {pulse.from.name}
            && |out| == |outputs|
            && ((forall i | 0 <= i < |out| :: !out[i].high) <==> (forall n | n in mem'.inputs :: mem'.inputs[n]))
  {
    var (mem', out) := Respond(self, Conjunction, outputs, mem, pulse);
    assert out[0].high == !AllHigh(mem'.inputs);
  }

  /** The broadcaster forwards the level it receives to every output, in order. */
  lemma BroadcastForwards(self: Module, outputs: seq<Module>, mem: Memory, pulse: Pulse)
    ensures var (mem', out) := Respond(self, Broadcast, outputs, mem, pulse);
            && mem' == mem && |out| == |outputs|
            && forall i | 0 <= i < |out| :: out[i] == Pulse(self, pulse.high, outputs[i])
  {
  }

  /** The button, whatever it is sent, sends exactly one low pulse, to the broadcaster. */
  lemma ButtonSendsOneLow(self: Module, broadcast: Module, mem: Memory, pulse: Pulse)
    ensures Respond(self, Button, [broadcast], mem, pulse) == (mem, [Pulse(self, false, broadcast)])
  {
  }

  /** The receiver's latch: once activated it stays so, and a low pulse activates it. */
  lemma ReceiverLatches(self: Module, outputs: seq<Module>, mem: Memory, pulse: Pulse)
    ensures var (mem', out) := Respond(self, Receiver, outputs, mem, pulse);
            && out == []
            && (mem'.isActivated <==> mem.isActivated || !pulse.high)
  {
  }

  /** Every output of a module in the set is in the set. */
  ghost predicate Closed(universe: set<Module>)
    reads universe
  {
    forall m | m in universe :: forall o | o in m.outputs :: o in universe
  }

  /** The number of low pulses in the list. */
  function CountLow(pulses: seq<Pulse>): (n: nat)
    ensures n <= |pulses|
  {
    if pulses == [] then 0 else (if pulses[0].high then 0 else 1) + CountLow(pulses[1..])
  }

  lemma {:induction false} CountLowAppend(a: seq<Pulse>, b: seq<Pulse>)
    ensures CountLow(a + b) == CountLow(a) + CountLow(b)
    decreases |a|
  {
    if a == [] {
      assert a + b == b;
    } else {
      CountLowAppend(a[1..], b);
      assert (a + b)[1..] == a[1..] + b;
    }
  }

  /** The memory of every module, one entry per module of the network. */
  type Network = map<Module, Memory>

  /** The outputs of every module; they stay fixed while pulses are handled. */
  type Wiring = map<Module, seq<Module>>

  /** The current memory of every module of `universe`. */
  ghost function NetOf(universe: set<Module>): (net: Network)
    reads universe
    ensures net.Keys == universe
    ensures forall m | m in universe :: net[m] == m.Mem()
  {
    map m | m in universe :: m.Mem()
  }

  /** The current outputs of every module of `universe`. */
  ghost function WiringOf(universe: set<Module>): (wiring: Wiring)
    reads universe
    ensures wiring.Keys == universe
    ensures forall m | m in universe :: wiring[m] == m.outputs
  {
    map m | m in universe :: m.outputs
  }

  /** Every output named in the wiring has outputs of its own there. */
  predicate Wired(wiring: Wiring)
  {
    forall m | m in wiring :: forall o | o in wiring[m] :: o in wiring
  }

  lemma ClosedWired(universe: set<Module>)
    requires Closed(universe)
    ensures Wired(WiringOf(universe))
  {
  }

  /** `pulse.send()` on values: the target answers the pulse; no other module's memory changes. */
  function Handle(net: Network, wiring: Wiring, pulse: Pulse): (r: (Network, seq<Pulse>))
    requires pulse.to in net && pulse.to in wiring
    ensures r.0.Keys == net.Keys
    ensures forall m | m in net && m != pulse.to :: r.0[m] == net[m]
    ensures forall p | p in r.1 :: p.from == pulse.to && p.to in wiring[pulse.to]
  {
    var (mem, out) := Respond(pulse.to, pulse.to.kind, wiring[pulse.to], net[pulse.to], pulse);
    RespondTargets(pulse.to, pulse.to.kind, wiring[pulse.to], net[pulse.to], pulse);
    (net[pulse.to := mem], out)
  }

  /** Whatever a module sends goes from it to one of its outputs. */
  lemma RespondTargets(self: Module, kind: Kind, outputs: seq<Module>, mem: Memory, pulse: Pulse)
    ensures forall p | p in Respond(self, kind, outputs, mem, pulse).1 :: p.from == self && p.to in outputs
  {
  }

  /** The pulses of all the lists, one list after the other. */
  function Flatten(outs: seq<seq<Pulse>>): seq<Pulse>
  {
    if outs == [] then [] else outs[0] + Flatten(outs[1..])
  }

  /**
   * The outcome of handling a queue: the memories afterwards, the pulses handled in order, what
   * each of them sent, how many of them were low and how many high, and whether the queue emptied.
   */
  datatype Run = Run(net: Network, handled: seq<Pulse>, outs: seq<seq<Pulse>>, low: nat, high: nat, done: bool)

  /**
   * The queue loop of `pressAndCount` on values: take the first pulse, let its target answer it,
   * put what it sends at the back, for at most `fuel` pulses. Each handled pulse has one list of
   * answers; `PropagateInOrder` states the order in which they are handled.
   */
  function Propagate(net: Network, wiring: Wiring, queue: seq<Pulse>, fuel: nat): (r: Run)
    requires Wired(wiring) && net.Keys == wiring.Keys
    requires forall p | p in queue :: p.to in wiring
    ensures r.net.Keys == net.Keys
    ensures |r.outs| == |r.handled| <= fuel
    decreases fuel
  {
    if queue == [] then Run(net, [], [], 0, 0, true)
    else if fuel == 0 then Run(net, [], [], 0, 0, false)
    else
      var (net', out) := Handle(net, wiring, queue[0]);
      var rest := Propagate(net', wiring, queue[1..] + out, fuel - 1);
      Run(rest.net, [queue[0]] + rest.handled, [out] + rest.outs,
          if queue[0].high then rest.low else rest.low + 1,
          if queue[0].high then rest.high + 1 else rest.high, rest.done)
  }

  /**
   * First sent, first handled: the pulses a run handles are a prefix of the queue followed by the
   * answers in the order they were given, all of it when the queue empties, so every pulse sent is
   * handled exactly once; a run that does not settle has used all of its fuel.
   */
  lemma {:induction false} PropagateInOrder(net: Network, wiring: Wiring, queue: seq<Pulse>, fuel: nat)
    requires Wired(wiring) && net.Keys == wiring.Keys
    requires forall p | p in queue :: p.to in wiring
    ensures var r := Propagate(net, wiring, queue, fuel);
            && r.handled <= queue + Flatten(r.outs)
            && (r.done ==> r.handled == queue + Flatten(r.outs))
            && (!r.done ==> |r.handled| == fuel)
    decreases fuel
  {
    if queue != [] && fuel > 0 {
      var h := Handle(net, wiring, queue[0]);
      PropagateStep(net, wiring, queue, fuel);
      var rest := Propagate(h.0, wiring, queue[1..] + h.1, fuel - 1);
      PropagateInOrder(h.0, wiring, queue[1..] + h.1, fuel - 1);
      QueueShape(queue, h.1, rest.outs, rest.handled);
    }
  }

  /** Handling the first pulse and then the rest of the queue with its answers keeps the queue's order. */
  lemma QueueShape(queue: seq<Pulse>, out: seq<Pulse>, outs: seq<seq<Pulse>>, handled: seq<Pulse>)
    requires queue != []
    ensures queue + Flatten([out] + outs) == [queue[0]] + ((queue[1..] + out) + Flatten(outs))
    ensures handled <= (queue[1..] + out) + Flatten(outs) ==> [queue[0]] + handled <= queue + Flatten([out] + outs)
  {
    assert ([out] + outs)[1..] == outs;
    assert queue == [queue[0]] + queue[1..];
  }

  /** The pulse is answered in `before`, by its target as `Respond` says, giving `after` and `out`. */
  predicate Answers(before: Network, wiring: Wiring, pulse: Pulse, after: Network, out: seq<Pulse>)
  {
    pulse.to in before && pulse.to in wiring && Handle(before, wiring, pulse) == (after, out)
  }

  /**
   * The memories a run goes through: it starts from `net`, ends in the run's memories, and each
   * pulse handled is answered in the memories left by the one before it.
   */
  lemma {:induction false} PropagateTrace(net: Network, wiring: Wiring, queue: seq<Pulse>, fuel: nat) returns (states: seq<Network>)
    requires Wired(wiring) && net.Keys == wiring.Keys
    requires forall p | p in queue :: p.to in wiring
    ensures var r := Propagate(net, wiring, queue, fuel);
            && |states| == |r.handled| + 1 && states[0] == net && states[|r.handled|] == r.net
            && forall k | 0 <= k < |r.handled| :: Answers(states[k], wiring, r.handled[k], states[k + 1], r.outs[k])
    decreases fuel
  {
    if queue == [] || fuel == 0 {
      states := [net];
    } else {
      var h := Handle(net, wiring, queue[0]);
      PropagateStep(net, wiring, queue, fuel);
      var rest := Propagate(h.0, wiring, queue[1..] + h.1, fuel - 1);
      var tail := PropagateTrace(h.0, wiring, queue[1..] + h.1, fuel - 1);
      states := TraceCons(net, wiring, queue[0], h.1, tail, rest.handled, rest.outs);
      ghost var r := Propagate(net, wiring, queue, fuel);
      assert r.handled == [queue[0]] + rest.handled && r.outs == [h.1] + rest.outs && r.net == rest.net;
      assert states[|r.handled|] == tail[|rest.handled|];
    }
  }

  /** One step of `Propagate`: the first pulse is handled and the rest of the queue, with its answers, follows. */
  lemma PropagateStep(net: Network, wiring: Wiring, queue: seq<Pulse>, fuel: nat)
    requires Wired(wiring) && net.Keys == wiring.Keys
    requires forall p | p in queue :: p.to in wiring
    requires queue != [] && fuel > 0
    ensures var h := Handle(net, wiring, queue[0]);
            && (forall p | p in queue[1..] + h.1 :: p.to in wiring)
            && var rest := Propagate(h.0, wiring, queue[1..] + h.1, fuel - 1);
               Propagate(net, wiring, queue, fuel)
               == Run(rest.net, [queue[0]] + rest.handled, [h.1] + rest.outs,
                      if queue[0].high then rest.low else rest.low + 1,
                      if queue[0].high then rest.high + 1 else rest.high, rest.done)
  {
  }

  /** A trace of the rest of a run, preceded by the answer to its first pulse, is a trace of the whole run. */
  lemma TraceCons(net: Network, wiring: Wiring, first: Pulse, out: seq<Pulse>, tail: seq<Network>, handled: seq<Pulse>, outs: seq<seq<Pulse>>)
    returns (states: seq<Network>)
    requires |tail| == |handled| + 1 && |outs| == |handled|
    requires Answers(net, wiring, first, tail[0], out)
    requires forall k | 0 <= k < |handled| :: Answers(tail[k], wiring, handled[k], tail[k + 1], outs[k])
    ensures states == [net] + tail
    ensures forall k | 0 <= k < |handled| + 1 ::
              Answers(states[k], wiring, ([first] + handled)[k], states[k + 1], ([out] + outs)[k])
  {
    states := [net] + tail;
    forall k | 0 <= k < |handled| + 1
      ensures Answers(states[k], wiring, ([first] + handled)[k], states[k + 1], ([out] + outs)[k])
    {
      if k > 0 {
        assert Answers(tail[k - 1], wiring, handled[k - 1], tail[k], outs[k - 1]);
      }
    }
  }

  /** `net` and `wiring` hold the current memory and outputs of every module of `universe`. */
  ghost predicate Mirrors(universe: set<Module>, net: Network, wiring: Wiring)
    reads universe
  {
    && net.Keys == universe && wiring.Keys == universe
    && forall m | m in universe :: net[m] == m.Mem() && wiring[m] == m.outputs
  }

  lemma MirrorsOf(universe: set<Module>, net: Network, wiring: Wiring)
    ensures Mirrors(universe, net, wiring) <==> net == NetOf(universe) && wiring == WiringOf(universe)
  {
    if Mirrors(universe, net, wiring) {
      assert net == NetOf(universe);
      assert wiring == WiringOf(universe);
    }
  }

  /**
   * Hand one pulse to its destination: it answers as `Handle` says on the memories `net` and the
   * outputs `wiring` the modules have now, and nothing else changes.
   */
  method Deliver(pulse: Pulse, ghost universe: set<Module>, ghost net: Network, ghost wiring: Wiring) returns (out: seq<Pulse>)
    requires pulse.to in universe && Mirrors(universe, net, wiring)
    modifies pulse.to
    ensures Mirrors(universe, Handle(net, wiring, pulse).0, wiring) && out == Handle(net, wiring, pulse).1
  {
    out := pulse.to.Process(pulse);
  }

  lemma WiredClosed(universe: set<Module>)
    requires Wired(WiringOf(universe))
    ensures Closed(universe)
  {
  }

  /** Answering a pulse never clears a latch: a receiver once activated stays so. */
  lemma HandleKeepsLatch(net: Network, wiring: Wiring, pulse: Pulse)
    requires pulse.to in net && pulse.to in wiring
    ensures forall m | m in net :: net[m].isActivated ==> Handle(net, wiring, pulse).0[m].isActivated
  {
  }

  /** No run clears a latch. */
  lemma {:induction false} PropagateKeepsLatch(net: Network, wiring: Wiring, queue: seq<Pulse>, fuel: nat)
    requires Wired(wiring) && net.Keys == wiring.Keys
    requires forall p | p in queue :: p.to in wiring
    ensures forall m | m in net :: net[m].isActivated ==> Propagate(net, wiring, queue, fuel).net[m].isActivated
    decreases fuel
  {
    if queue != [] && fuel > 0 {
      var h := Handle(net, wiring, queue[0]);
      PropagateStep(net, wiring, queue, fuel);
      HandleKeepsLatch(net, wiring, queue[0]);
      PropagateKeepsLatch(h.0, wiring, queue[1..] + h.1, fuel - 1);
      assert Propagate(net, wiring, queue, fuel).net == Propagate(h.0, wiring, queue[1..] + h.1, fuel - 1).net;
    }
  }

  /** The single low pulse the button sends to the broadcaster. */
  function ButtonPulse(button: Module, wiring: Wiring): Pulse
    requires button in wiring && |wiring[button]| == 1
  {
    Pulse(button, false, wiring[button][0])
  }

  /** A run counts its pulses: `low` of those it handled are low and the other `high` are high. */
  lemma {:induction false} PropagateCounts(net: Network, wiring: Wiring, queue: seq<Pulse>, fuel: nat)
    requires Wired(wiring) && net.Keys == wiring.Keys
    requires forall p | p in queue :: p.to in wiring
    ensures var r := Propagate(net, wiring, queue, fuel);
            r.low == CountLow(r.handled) && r.low + r.high == |r.handled|
    decreases fuel
  {
    if queue != [] && fuel > 0 {
      var h := Handle(net, wiring, queue[0]);
      PropagateStep(net, wiring, queue, fuel);
      var rest := Propagate(h.0, wiring, queue[1..] + h.1, fuel - 1);
      PropagateCounts(h.0, wiring, queue[1..] + h.1, fuel - 1);
      assert ([queue[0]] + rest.handled)[1..] == rest.handled;
    }
  }

  /**
   * One turn of the queue loop of `pressAndCount`: poll the first pulse, count it as low or high
   * and deliver it, putting what it sends at the back of the queue. What is left of the run from
   * the new state, added to the counts so far, is still the whole run `run`.
   */
  method Poll(queue: seq<Pulse>, fuel: nat, numLow: nat, numHigh: nat, ghost universe: set<Module>,
              ghost net: Network, ghost wiring: Wiring, ghost run: Run)
    returns (queue': seq<Pulse>, numLow': nat, numHigh': nat, ghost net': Network)
    requires queue != [] && fuel > 0 && Wired(wiring) && Mirrors(universe, net, wiring)
    requires forall p | p in queue :: p.to in wiring
    requires Propagate(net, wiring, queue, fuel).net == run.net && Propagate(net, wiring, queue, fuel).done == run.done
    requires numLow + Propagate(net, wiring, queue, fuel).low == run.low
    requires numHigh + Propagate(net, wiring, queue, fuel).high == run.high
    modifies universe
    ensures Mirrors(universe, net', wiring) && forall p | p in queue' :: p.to in wiring
    ensures Propagate(net', wiring, queue', fuel - 1).net == run.net && Propagate(net', wiring, queue', fuel - 1).done == run.done
    ensures numLow' + Propagate(net', wiring, queue', fuel - 1).low == run.low
    ensures numHigh' + Propagate(net', wiring, queue', fuel - 1).high == run.high
  {
    var pulse := queue[0];
    ghost var h := Handle(net, wiring, pulse);
    PropagateStep(net, wiring, queue, fuel);
    numLow', numHigh' := numLow, numHigh;
    if !pulse.high {
      numLow' := numLow + 1;
    } else {
      numHigh' := numHigh + 1;
    }
    net' := h.0;
    var out := Deliver(pulse, universe, net, wiring);
    queue' := queue[1..] + out;
  }

  /**
   * The queue loop of `pressAndCount`: poll pulses until the queue is empty or `fuel` pulses have
   * been handled. The memories, the counts and whether the queue emptied are those of `Propagate`.
   */
  method Drain(pulses: seq<Pulse>, fuel: nat, ghost universe: set<Module>, ghost net: Network, ghost wiring: Wiring)
    returns (numLowPulses: nat, numHighPulses: nat, done: bool)
    requires Wired(wiring) && Mirrors(universe, net, wiring)
    requires forall p | p in pulses :: p.to in wiring
    modifies universe
    ensures var run := Propagate(net, wiring, pulses, fuel);
            && Mirrors(universe, run.net, wiring) && done == run.done
            && numLowPulses == run.low && numHighPulses == run.high
  {
    ghost var run0 := Propagate(net, wiring, pulses, fuel);
    ghost var cur := net;
    var queue := pulses;
    numLowPulses, numHighPulses := 0, 0;
    var remaining := fuel;
    while queue != [] && remaining > 0
      invariant Mirrors(universe, cur, wiring) && forall p | p in queue :: p.to in wiring
      invariant Propagate(cur, wiring, queue, remaining).net == run0.net && Propagate(cur, wiring, queue, remaining).done == run0.done
      invariant numLowPulses + Propagate(cur, wiring, queue, remaining).low == run0.low
      invariant numHighPulses + Propagate(cur, wiring, queue, remaining).high == run0.high
      decreases remaining
    {
      queue, numLowPulses, numHighPulses, cur := Poll(queue, remaining, numLowPulses, numHighPulses, universe, cur, wiring, run0);
      remaining := remaining - 1;
    }
    done := queue == [];
  }

  /**
   * `pressAndCount`: press the button and handle the pulses first sent, first handled, counting
   * the low and the high ones. The memories, the counts and whether the queue emptied within
   * `fuel` pulses (`done`) are those of `Propagate` run on the button's pulse.
   */
  method PressAndCount(button: Module, ghost universe: set<Module>, fuel: nat)
    returns (numLowPulses: nat, numHighPulses: nat, done: bool)
    requires button in universe && button.kind == Button && |button.outputs| == 1 && Closed(universe)
    modifies universe
    ensures Closed(universe) && WiringOf(universe) == old(WiringOf(universe)) && Wired(WiringOf(universe))
    ensures forall m | m in universe :: old(m.isActivated) ==> m.isActivated
    ensures var run := Propagate(old(NetOf(universe)), WiringOf(universe), [ButtonPulse(button, WiringOf(universe))], fuel);
            && done == run.done && NetOf(universe) == run.net
            && numLowPulses == run.low && numHighPulses == run.high
            && numLowPulses == CountLow(run.handled) && numLowPulses + numHighPulses == |run.handled|
  {
    ghost var net0 := NetOf(universe);
    ghost var wiring := WiringOf(universe);
    ClosedWired(universe);
    var dummy := new Module("dummy", Dummy, []);
    var pulses := button.Process(Pulse(dummy, true, dummy));
    assert NetOf(universe) == net0 && WiringOf(universe) == wiring;
    assert pulses == [ButtonPulse(button, wiring)];
    MirrorsOf(universe, net0, wiring);
    numLowPulses, numHighPulses, done := Drain(pulses, fuel, universe, net0, wiring);
    MirrorsOf(universe, Propagate(net0, wiring, pulses, fuel).net, wiring);
    WiredClosed(universe);
    PropagateKeepsLatch(net0, wiring, pulses, fuel);
    PropagateCounts(net0, wiring, pulses, fuel);
  }

  /** `modules[it.name] ?: it`: each output replaced by the declared module of that name, when there is one. */
  function Resolve(outputs: seq<Module>, byName: map<string, Module>): (r: seq<Module>)
    ensures |r| == |outputs|
    ensures forall i | 0 <= i < |r| :: r[i] == if outputs[i].name in byName then byName[outputs[i].name] else outputs[i]
  {
    if outputs == [] then []
    else
      var last := outputs[|outputs| - 1];
      Resolve(outputs[..|outputs| - 1], byName) + [if last.name in byName then byName[last.name] else last]
  }

  /** The declared modules are keyed by their names. */
  predicate KeyedByName(byName: map<string, Module>)
  {
    forall n | n in byName :: byName[n].name == n
  }

  /** Every conjunction among `targets` remembers a low pulse from the module called `name`. */
  ghost predicate RegisteredIn(name: string, targets: seq<Module>)
    reads set o | o in targets
  {
    forall o | o in targets && o.kind == Conjunction :: name in o.inputs && !o.inputs[name]
  }

  /**
   * `onEach { it.addInput(sender) }`: register the sender with each target. Targets keep their
   * outputs and states, and every low pulse a target already remembered stays remembered.
   */
  method RegisterAsInput(sender: Module, targets: seq<Module>)
    modifies set o | o in targets
    ensures RegisteredIn(sender.name, targets)
    ensures forall o | o in targets :: o.outputs == old(o.outputs) && o.on == old(o.on) && o.isActivated == old(o.isActivated)
    ensures forall o | o in targets :: forall n | n in old(o.inputs) && !old(o.inputs)[n] :: n in o.inputs && !o.inputs[n]
  {
    for j := 0 to |targets|
      invariant forall o | o in targets[..j] && o.kind == Conjunction :: sender.name in o.inputs && !o.inputs[sender.name]
      invariant forall o | o in targets :: o.outputs == old(o.outputs) && o.on == old(o.on) && o.isActivated == old(o.isActivated)
      invariant forall o | o in targets :: forall n | n in old(o.inputs) && !old(o.inputs)[n] :: n in o.inputs && !o.inputs[n]
    {
      targets[j].AddInput(sender);
      assert targets[..j + 1] == targets[..j] + [targets[j]];
    }
    assert targets[..|targets|] == targets;
  }

  /** The modules are pairwise distinct objects and each is the declared module of its name. */
  predicate DeclaredOnce(declared: seq<Module>, byName: map<string, Module>)
  {
    && (forall i | 0 <= i < |declared| :: declared[i].name in byName && byName[declared[i].name] == declared[i])
    && (forall i, j | 0 <= i < j < |declared| :: declared[i] != declared[j])
  }

  /** One step of the wiring loop: the `k`-th declared module gets resolved outputs and registers with them. */
  method WireOne(declared: seq<Module>, byName: map<string, Module>, k: nat, ghost original: seq<seq<Module>>, ghost universe: set<Module>)
    requires DeclaredOnce(declared, byName) && k < |declared| == |original|
    requires forall n | n in byName :: byName[n] in universe
    requires forall o | o in original[k] :: o in universe
    requires forall i | 0 <= i < k :: declared[i].outputs == Resolve(original[i], byName)
    requires forall i | k <= i < |declared| :: declared[i].outputs == original[i]
    requires forall i | 0 <= i < k :: RegisteredIn(declared[i].name, declared[i].outputs)
    modifies universe
    ensures forall m | m in universe :: m.on == old(m.on) && m.isActivated == old(m.isActivated)
    ensures forall i | 0 <= i <= k :: declared[i].outputs == Resolve(original[i], byName)
    ensures forall i | k < i < |declared| :: declared[i].outputs == original[i]
    ensures forall i | 0 <= i <= k :: RegisteredIn(declared[i].name, declared[i].outputs)
  {
    var sender := declared[k];
    var resolved := Resolve(sender.outputs, byName);
    assert forall o | o in resolved :: o in universe;
    sender.outputs := resolved;
    label Resolved:
    RegisterAsInput(sender, resolved);
    forall i | 0 <= i < k
      ensures RegisteredIn(declared[i].name, declared[i].outputs)
    {
      assert old@Resolved(RegisteredIn(declared[i].name, declared[i].outputs));
    }
  }

  /**
   * The wiring step of `parseConfiguration`: for each declared module (`declared` lists the values
   * of `byName` in their order), resolve its outputs and register it as an input of each of them.
   * Afterwards every declared module's outputs are the resolved ones, every conjunction among them
   * remembers a low pulse from it, and no module's state has changed.
   */
  method WireOutputs(declared: seq<Module>, byName: map<string, Module>, ghost universe: set<Module>)
    requires DeclaredOnce(declared, byName)
    requires forall n | n in byName :: byName[n] in universe
    requires Closed(universe)
    modifies universe
    ensures forall i | 0 <= i < |declared| :: declared[i].outputs == Resolve(old(declared[i].outputs), byName)
    ensures forall i | 0 <= i < |declared| :: RegisteredIn(declared[i].name, declared[i].outputs)
    ensures forall m | m in universe :: m.on == old(m.on) && m.isActivated == old(m.isActivated)
  {
    ghost var original := seq(|declared|, i requires 0 <= i < |declared| reads declared => declared[i].outputs);
    for k := 0 to |declared|
      invariant forall m | m in universe :: m.on == old(m.on) && m.isActivated == old(m.isActivated)
      invariant forall i | 0 <= i < k :: declared[i].outputs == Resolve(original[i], byName)
      invariant forall i | k <= i < |declared| :: declared[i].outputs == original[i]
      invariant forall i | 0 <= i < k :: RegisteredIn(declared[i].name, declared[i].outputs)
    {
      assert declared[k] in universe;
      WireOne(declared, byName, k, original, universe);
    }
  }

  /** Totals after a number of presses: the memories reached, the low and high pulses, and whether every press settled. */
  datatype Tally = Tally(net: Network, low: nat, high: nat, done: bool)

  /**
   * `n` presses one after the other, each handled by `Propagate` from the memories the previous one
   * left, adding up its low and its high pulses; the first press that does not settle stops the count.
   */
  function Presses(net: Network, wiring: Wiring, button: Module, n: nat, fuel: nat): (t: Tally)
    requires Wired(wiring) && net.Keys == wiring.Keys && button in wiring && |wiring[button]| == 1
    ensures t.net.Keys == net.Keys
  {
    if n == 0 then Tally(net, 0, 0, true)
    else
      var t := Presses(net, wiring, button, n - 1, fuel);
      if !t.done then t
      else
        var run := Propagate(t.net, wiring, [ButtonPulse(button, wiring)], fuel);
        Tally(run.net, t.low + run.low, t.high + run.high, run.done)
  }

  /** Once a press has not settled, later presses change nothing. */
  lemma {:induction false} PressesStopped(net: Network, wiring: Wiring, button: Module, k: nat, n: nat, fuel: nat)
    requires Wired(wiring) && net.Keys == wiring.Keys && button in wiring && |wiring[button]| == 1
    requires k <= n && !Presses(net, wiring, button, k, fuel).done
    ensures Presses(net, wiring, button, n, fuel) == Presses(net, wiring, button, k, fuel)
    decreases n
  {
    if n > k {
      PressesStopped(net, wiring, button, k, n - 1, fuel);
    }
  }

  /** Each settled press sends at least the button's own low pulse, so `n` settled presses send at least `n`. */
  lemma {:induction false} PressesCountButton(net: Network, wiring: Wiring, button: Module, n: nat, fuel: nat)
    requires Wired(wiring) && net.Keys == wiring.Keys && button in wiring && |wiring[button]| == 1
    ensures var t := Presses(net, wiring, button, n, fuel);
            t.done ==> t.low >= n
    decreases n
  {
    if n > 0 {
      PressesCountButton(net, wiring, button, n - 1, fuel);
      var t := Presses(net, wiring, button, n - 1, fuel);
      if t.done {
        PressCountsButton(net, wiring, button, n, fuel);
      }
    }
  }

  /** A queue that starts with a low pulse and empties has handled at least that low pulse. */
  lemma SettledCountsFirst(net: Network, wiring: Wiring, queue: seq<Pulse>, fuel: nat)
    requires Wired(wiring) && net.Keys == wiring.Keys
    requires forall p | p in queue :: p.to in wiring
    requires queue != [] && !queue[0].high
    ensures var r := Propagate(net, wiring, queue, fuel);
            r.done ==> r.low >= 1
  {
    if fuel > 0 {
      PropagateStep(net, wiring, queue, fuel);
    }
  }

  /** A settled press adds at least the button's low pulse to the low total. */
  lemma PressCountsButton(net: Network, wiring: Wiring, button: Module, n: nat, fuel: nat)
    requires Wired(wiring) && net.Keys == wiring.Keys && button in wiring && |wiring[button]| == 1
    requires n > 0 && Presses(net, wiring, button, n - 1, fuel).done
    ensures var t := Presses(net, wiring, button, n, fuel);
            t.done ==> t.low >= Presses(net, wiring, button, n - 1, fuel).low + 1
  {
    var t := Presses(net, wiring, button, n - 1, fuel);
    SettledCountsFirst(t.net, wiring, [ButtonPulse(button, wiring)], fuel);
  }

  /** After `n` settled presses, one more press adds the low and high pulses of its run to the totals. */
  lemma PressesNext(net: Network, wiring: Wiring, button: Module, n: nat, fuel: nat)
    requires Wired(wiring) && net.Keys == wiring.Keys && button in wiring && |wiring[button]| == 1
    requires Presses(net, wiring, button, n, fuel).done
    ensures var t := Presses(net, wiring, button, n, fuel);
            var run := Propagate(t.net, wiring, [ButtonPulse(button, wiring)], fuel);
            Presses(net, wiring, button, n + 1, fuel) == Tally(run.net, t.low + run.low, t.high + run.high, run.done)
  {
  }

  /**
   * One press of the loop of `part1`: press the button and add its low and high pulses to the
   * totals, which then are those of `press + 1` presses.
   */
  method PressOnce(button: Module, ghost universe: set<Module>, fuel: nat, ghost net0: Network, ghost wiring: Wiring,
                   press: nat, totalLow: nat, totalHigh: nat, ghost cur: Network)
    returns (totalLow': nat, totalHigh': nat, done: bool, ghost cur': Network)
    requires button in universe && button.kind == Button && |button.outputs| == 1
    requires Wired(wiring) && Mirrors(universe, cur, wiring) && net0.Keys == wiring.Keys
    requires Presses(net0, wiring, button, press, fuel) == Tally(cur, totalLow, totalHigh, true)
    modifies universe
    ensures Mirrors(universe, cur', wiring)
    ensures Presses(net0, wiring, button, press + 1, fuel) == Tally(cur', totalLow', totalHigh', done)
  {
    PressesNext(net0, wiring, button, press, fuel);
    ghost var run := Propagate(cur, wiring, [ButtonPulse(button, wiring)], fuel);
    MirrorsOf(universe, cur, wiring);
    WiredClosed(universe);
    var numLow, numHigh;
    numLow, numHigh, done := PressAndCount(button, universe, fuel);
    cur' := run.net;
    MirrorsOf(universe, cur', wiring);
    totalLow', totalHigh' := totalLow + numLow, totalHigh + numHigh;
  }

  /**
   * `part1`: a thousand presses, summing the low and the high pulses; the answer is their product.
   * The totals are those of `Presses`; `None` when some press does not settle within `fuel` pulses.
   */
  method Part1(button: Module, ghost universe: set<Module>, fuel: nat) returns (r: Option<int>, totalLow: nat, totalHigh: nat)
    requires button in universe && button.kind == Button && |button.outputs| == 1 && Closed(universe)
    modifies universe
    ensures WiringOf(universe) == old(WiringOf(universe))
    ensures var t := Presses(old(NetOf(universe)), WiringOf(universe), button, 1000, fuel);
            && NetOf(universe) == t.net && (r.Some? <==> t.done)
            && (r.Some? ==> totalLow == t.low && totalHigh == t.high && r.value == totalLow * totalHigh)
    ensures r.Some? ==> totalLow >= 1000
  {
    ghost var net0 := NetOf(universe);
    ghost var wiring := WiringOf(universe);
    ghost var cur := net0;
    ClosedWired(universe);
    MirrorsOf(universe, net0, wiring);
    totalLow, totalHigh := 0, 0;
    for press := 0 to 1000
      invariant Mirrors(universe, cur, wiring)
      invariant Presses(net0, wiring, button, press, fuel) == Tally(cur, totalLow, totalHigh, true)
    {
      var done;
      totalLow, totalHigh, done, cur := PressOnce(button, universe, fuel, net0, wiring, press, totalLow, totalHigh, cur);
      if !done {
        PressesStopped(net0, wiring, button, press + 1, 1000, fuel);
        MirrorsOf(universe, cur, wiring);
        return None, totalLow, totalHigh;
      }
    }
    PressesCountButton(net0, wiring, button, 1000, fuel);
    MirrorsOf(universe, cur, wiring);
    r := Some(totalLow * totalHigh);
  }
}
