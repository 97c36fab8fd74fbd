/**
 The controller's inbound frames: the radio task queues them, the loop task applies them.

 `ControllerNode` is the object; `Node` runs its `enqueue` and `drain_inbound` against each
 other step by step on the interleaved ring.
 */
module InboundQueue {
  import opened Clock
  import opened FrameRing

  datatype Kind = CommandWord | Heartbeat | IndoorTemp | IndoorHumidity | Ack

  datatype Inbound = Inbound(kind: Kind, mac: seq<bv8>, word: u32, value: int, rxMs: u32)

  const CAPACITY: nat := 16

  predicate IsGated(frame: Inbound, enabled: bool) {
    frame.kind.CommandWord? && !enabled
  }

  /** What the loop task makes of the frames it takes: the ones it applied, and two diagnostics. */
  datatype Tally = Tally(applied: seq<Inbound>, gated: u32, longestWait: u32)

  function Tallied(t: Tally, frame: Inbound, enabled: bool, now: u32): Tally {
    var u := if frame.kind.CommandWord? && frame.rxMs != 0 && t.longestWait < Since(now, frame.rxMs) < 0x8000_0000
             then t.(longestWait := Since(now, frame.rxMs)) else t;
    if IsGated(frame, enabled) then u.(gated := (t.gated + 1) % U32)
    else u.(applied := t.applied + [frame])
  }

  function TalliedAll(t: Tally, frames: seq<Inbound>, enabled: bool, now: u32): Tally {
    if frames == [] then t
    else Tallied(TalliedAll(t, frames[..|frames| - 1], enabled, now), frames[|frames| - 1], enabled, now)
  }

  /** The command words among `frames`. */
  function Commands(frames: seq<Inbound>): nat {
    if frames == [] then 0
    else Commands(frames[..|frames| - 1]) + if frames[|frames| - 1].kind.CommandWord? then 1 else 0
  }

  /** The frames that are applied when command words are enabled or not. */
  function Passed(frames: seq<Inbound>, enabled: bool): seq<Inbound> {
    if frames == [] then []
    else
      var last := frames[|frames| - 1];
      Passed(frames[..|frames| - 1], enabled) + if IsGated(last, enabled) then [] else [last]
  }

  /** Draining applies exactly the frames that pass, in order, and counts exactly the others. */
  lemma {:induction false} TallyOfDrain(t: Tally, frames: seq<Inbound>, enabled: bool, now: u32)
    ensures var u := TalliedAll(t, frames, enabled, now);
            && u.applied == t.applied + Passed(frames, enabled)
            && u.gated == (t.gated + if enabled then 0 else Commands(frames)) % U32
            && t.longestWait <= u.longestWait
            && (forall f :: f in frames && f.kind.CommandWord? && f.rxMs != 0 && Since(now, f.rxMs) < 0x8000_0000 ==>
                  Since(now, f.rxMs) <= u.longestWait)
            && (u.longestWait == t.longestWait
                || exists f :: f in frames && f.kind.CommandWord? && f.rxMs != 0
                               && u.longestWait == Since(now, f.rxMs) < 0x8000_0000)
    ensures |Passed(frames, enabled)| + (if enabled then 0 else Commands(frames)) == |frames|
  {
    hide Since;
    if frames != [] {
      TallyOfDrain(t, frames[..|frames| - 1], enabled, now);
    }
  }

  class ControllerNode {
    const ring: SpscRing<Inbound>
    var commandsEnabled: bool
    var dropped: u32
    var gated: u32
    var commandWaitMax: u32
    /** Every frame handed to the controller application, in order. */
    ghost var applied: seq<Inbound>

    ghost predicate Valid()
      reads this, ring, ring.items
    {
      ring.Valid() && ring.items.Length == CAPACITY
    }

    ghost function Taken(): Tally
      reads this`applied, this`gated, this`commandWaitMax
    {
      Tally(applied, gated, commandWaitMax)
    }

    constructor ()
      ensures Valid() && ring.Contents() == [] && commandsEnabled
      ensures dropped == gated == commandWaitMax == 0 && applied == []
    {
      ring := new SpscRing<Inbound>(CAPACITY);
      commandsEnabled, dropped, gated, commandWaitMax, applied := true, 0, 0, 0, [];
    }

    method SetCommandsEnabled(enabled: bool)
      modifies this`commandsEnabled
      ensures commandsEnabled == enabled
    {
      commandsEnabled := enabled;
    }

    /** A frame that finds the queue full is dropped and counted; any other waits its turn. */
    method Enqueue(frame: Inbound)
      requires Valid()
      modifies this`dropped, ring, ring.items
      ensures Valid()
      ensures if |old(ring.Contents())| < CAPACITY
              then ring.Contents() == old(ring.Contents()) + [frame] && dropped == old(dropped)
              else ring.Contents() == old(ring.Contents()) && dropped == (old(dropped) + 1) % U32
    {
      var ok := ring.Push(frame);
      if !ok {
        dropped := (dropped + 1) % U32;
      }
    }

    method Apply(frame: Inbound, now: u32)
      modifies this`gated, this`commandWaitMax, this`applied
      ensures Taken() == Tallied(old(Taken()), frame, commandsEnabled, now)
    {
      if frame.kind.CommandWord? {
        if frame.rxMs != 0 {
          var waited := Since(now, frame.rxMs);
          if waited < 0x8000_0000 && waited > commandWaitMax {
            commandWaitMax := waited;
          }
        }
        if commandsEnabled {
          applied := applied + [frame];
        } else {
          gated := (gated + 1) % U32;
        }
      } else {
        applied := applied + [frame];
      }
    }

    /** Everything queued is applied in arrival order, except command words while they are gated. */
    method DrainInbound(now: u32)
      requires Valid()
      modifies this`gated, this`commandWaitMax, this`applied, ring
      ensures Valid() && ring.Contents() == []
      ensures Taken() == TalliedAll(old(Taken()), old(ring.Contents()), commandsEnabled, now)
    {
      hide Tallied, SpscRing.Valid, SpscRing.Contents;
      ghost var queued := ring.Contents();
      ghost var n := 0;
      var more, frame := ring.Pop();
      assert queued[..0] == [];
      while more
        invariant Valid() && 0 <= n <= |queued|
        invariant if more then n < |queued| && frame == queued[n] && ring.Contents() == queued[n + 1..]
                  else n == |queued| && ring.Contents() == []
        invariant Taken() == TalliedAll(old(Taken()), queued[..n], commandsEnabled, now)
        decreases |queued| - n
      {
        Apply(frame, now);
        assert queued[..n + 1][..n] == queued[..n];
        n := n + 1;
        more, frame := ring.Pop();
      }
      assert queued[..n] == queued;
    }
  }

  // ---- Both tasks at once -------------------------------------------------------------

  /** The ring, the frame each task holds outside it, and the counts. */
  datatype Node = Node(
    ring: Interleaved<Inbound>, dropping: bool, holding: seq<Inbound>, enabled: bool,
    received: nat, applied: nat, gated: nat, dropped: nat)

  datatype NodeStep =
    | OnRing(step: Step<Inbound>)
    | CountDrop
    | ApplyHeld
    | Enable(on: bool)

  predicate NodeEnabled(n: Node, s: NodeStep) {
    match s
    case OnRing(step) =>
      && Enabled(n.ring, step)
      && (step.BeginPush? ==> !n.dropping)
      && (step.BeginPop? ==> n.holding == [])
    case CountDrop => n.dropping
    case ApplyHeld => n.holding != []
    case Enable(_) => true
  }

  function NodeNext(n: Node, s: NodeStep): Node
    requires |n.ring.items| > 0 && NodeEnabled(n, s)
  {
    match s
    case OnRing(step) =>
      var m := n.(ring := Next(n.ring, step));
      if step.BeginPush? then m.(received := n.received + 1)
      else if step.CheckRoom? && FoundFull(n.ring) then m.(dropping := true)
      else if step.StoreTail? then m.(holding := [n.ring.consumer.item])
      else m
    case CountDrop => n.(dropping := false, dropped := n.dropped + 1)
    case ApplyHeld =>
      if IsGated(n.holding[0], n.enabled) then n.(holding := [], gated := n.gated + 1)
      else n.(holding := [], applied := n.applied + 1)
    case Enable(on) => n.(enabled := on)
  }

  /** Frames received but not yet counted anywhere: in the queue or in a task's hands. */
  function Outstanding(n: Node): nat
    requires |n.ring.popped| <= |n.ring.pushed|
  {
    |Queue(n.ring)| + |n.holding| + (if n.dropping then 1 else 0) + (if n.ring.producer.Outside? then 0 else 1)
  }

  ghost predicate NodeInv(n: Node) {
    && Inv(n.ring)
    && |n.holding| <= 1 && (n.holding != [] ==> n.ring.consumer.Away?)
    && (n.dropping ==> n.ring.producer.Outside?)
    && n.received == n.applied + n.gated + n.dropped + Outstanding(n)
  }

  lemma NodeStepKeepsInv(n: Node, s: NodeStep)
    requires NodeInv(n) && NodeEnabled(n, s)
    ensures NodeInv(NodeNext(n, s))
  {
    if s.OnRing? {
      OnRingKeepsInv(n, s.step);
    } else {
      hide Inv;
    }
  }

  lemma OnRingKeepsInv(n: Node, step: Step<Inbound>)
    requires NodeInv(n) && NodeEnabled(n, OnRing(step))
    ensures NodeInv(NodeNext(n, OnRing(step)))
  {
    hide Inv, FoundEmpty, FoundFull, Slot, At;
    RefinesBoundedQueue(n.ring, step);
  }

  ghost predicate NodeRun(nodes: seq<Node>, steps: seq<NodeStep>) {
    && |nodes| == |steps| + 1 && Capacity(|nodes[0].ring.items|)
    && nodes[0] == Node(Empty(nodes[0].ring.items), false, [], nodes[0].enabled, 0, 0, 0, 0)
    && forall i :: 0 <= i < |steps| ==>
         |nodes[i].ring.items| > 0 && NodeEnabled(nodes[i], steps[i]) && nodes[i + 1] == NodeNext(nodes[i], steps[i])
  }

  /**
   No frame is lost or counted twice, in any interleaving: whenever neither task is inside a
   call, the frames received are those applied, gated, dropped and still queued.
   */
  lemma {:induction false} FramesAreConserved(nodes: seq<Node>, steps: seq<NodeStep>, i: nat)
    requires NodeRun(nodes, steps) && i < |nodes|
    ensures NodeInv(nodes[i])
    ensures nodes[i].ring.producer.Outside? && !nodes[i].dropping && nodes[i].holding == [] ==>
              nodes[i].received
                == nodes[i].applied + nodes[i].gated + nodes[i].dropped + |Queue(nodes[i].ring)|
  {
    if i == 0 {
      EmptyInv(nodes[0].ring.items);
    } else {
      FramesAreConserved(nodes, steps, i - 1);
      NodeStepKeepsInv(nodes[i - 1], steps[i - 1]);
    }
    hide Inv, NodeNext, NodeEnabled;
  }

  /** Whether command words are enabled after the first `n` steps. */
  predicate GateOpen(open: bool, steps: seq<NodeStep>, n: nat)
    requires n <= |steps|
  {
    if n == 0 then open else if steps[n - 1].Enable? then steps[n - 1].on else GateOpen(open, steps, n - 1)
  }

  /** The frames dealt with in the first `n` steps. */
  function Turns(steps: seq<NodeStep>, n: nat): nat
    requires n <= |steps|
  {
    if n == 0 then 0 else Turns(steps, n - 1) + if steps[n - 1].ApplyHeld? then 1 else 0
  }

  /** The loop task holds the frame it took last, and has dealt with all it took before. */
  predicate InTurn(n: Node, turns: nat) {
    && |n.holding| <= 1 && |n.ring.popped| == turns + |n.holding|
    && (n.holding != [] ==> n.holding[0] == n.ring.popped[turns])
  }

  lemma StepInTurn(n: Node, s: NodeStep, turns: nat)
    requires |n.ring.items| > 0 && NodeEnabled(n, s) && InTurn(n, turns)
    requires n.holding != [] ==> n.ring.consumer.Away?
    ensures InTurn(NodeNext(n, s), turns + if s.ApplyHeld? then 1 else 0)
    ensures NodeNext(n, s).enabled == if s.Enable? then s.on else n.enabled
  {
    hide Slot, At, FoundFull, FoundEmpty;
  }

  lemma {:induction false} RunInTurn(nodes: seq<Node>, steps: seq<NodeStep>, i: nat)
    requires NodeRun(nodes, steps) && i < |nodes|
    ensures InTurn(nodes[i], Turns(steps, i)) && nodes[i].enabled == GateOpen(nodes[0].enabled, steps, i)
  {
    if i > 0 {
      RunInTurn(nodes, steps, i - 1);
      FramesAreConserved(nodes, steps, i - 1);
      StepInTurn(nodes[i - 1], steps[i - 1], Turns(steps, i - 1));
    }
    hide Inv, NodeNext, NodeEnabled, InTurn;
  }

  /**
   In every interleaving the frames get their turns in the order of their arrival, and the frame whose
   turn it is is gated exactly when it is a command word and command words are disabled at that moment,
   and applied otherwise; nothing else counts a frame as either.
   */
  lemma EachFrameHasItsTurn(nodes: seq<Node>, steps: seq<NodeStep>, i: nat)
    requires NodeRun(nodes, steps) && i < |steps|
    ensures var (n, after, turn) := (nodes[i], nodes[i + 1], Turns(steps, i));
            if steps[i].ApplyHeld? then
              && turn < |n.ring.popped| <= |n.ring.pushed| && n.ring.popped[turn] == n.ring.pushed[turn]
              && var gated := n.ring.pushed[turn].kind.CommandWord? && !GateOpen(nodes[0].enabled, steps, i);
                 && after.gated == n.gated + (if gated then 1 else 0)
                 && after.applied == n.applied + if gated then 0 else 1
            else after.gated == n.gated && after.applied == n.applied
  {
    RunInTurn(nodes, steps, i);
    FramesAreConserved(nodes, steps, i);
    assert nodes[i + 1] == NodeNext(nodes[i], steps[i]) && NodeEnabled(nodes[i], steps[i]);
    hide Slot, At, FoundFull, FoundEmpty, GateOpen, Turns, ProducerInv, ConsumerInv;
  }
}
