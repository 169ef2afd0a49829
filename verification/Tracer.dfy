/** Instruction-level execution traces, from inspector hooks modelled as events. */
module Tracer {
  import opened Isa

  /** One executed instruction; stack deepest item first. */
  datatype Step = Step(
    depth: nat, frame: nat, pc: nat, opcode: Byte, gasRemaining: nat, gasCost: nat, stack: seq<nat>)

  /** The inspector hooks: a call or create opens a frame, its end closes one. */
  datatype Event =
    | Enter | Leave
    | StepStart(pc: nat, opcode: Byte, gas: nat, stack: seq<nat>)
    | StepEnd(gasLeft: nat)

  /** `frames` are the ids of the open frames, outermost first. */
  datatype State = State(steps: seq<Step>, depth: nat, frames: seq<nat>, framesSeen: nat)

  function SatSub(a: nat, b: nat): nat { if b <= a then a - b else 0 }

  function Apply(s: State, e: Event): State {
    match e
    case Enter => State(s.steps, s.depth + 1, s.frames + [s.framesSeen + 1], s.framesSeen + 1)
    case Leave =>
      State(s.steps, SatSub(s.depth, 1), if s.frames == [] then [] else s.frames[..|s.frames| - 1], s.framesSeen)
    case StepStart(pc, opcode, gas, stack) =>
      var frame := if s.frames == [] then 0 else s.frames[|s.frames| - 1];
      s.(steps := s.steps + [Step(s.depth, frame, pc, opcode, gas, 0, stack)])
    case StepEnd(left) =>
      if s.steps == [] then s
      else
        var n := |s.steps| - 1;
        s.(steps := s.steps[n := s.steps[n].(gasCost := SatSub(s.steps[n].gasRemaining, left))])
  }

  function Run(events: seq<Event>): State {
    if events == [] then State([], 0, [], 0)
    else Apply(Run(events[..|events| - 1]), events[|events| - 1])
  }

  // ----- charging the instructions that open frames -----

  predicate OpensFrame(opcode: Byte) {
    ByByte(opcode).Some? && ByByte(opcode).value.category == OpCategory.Call
  }

  /** The first step from `j` on that runs in `frame`; the length when there is none. */
  function NextIn(steps: seq<Step>, frame: nat, j: nat): (k: nat)
    requires j <= |steps|
    ensures j <= k <= |steps|
    ensures k < |steps| ==> steps[k].frame == frame
    ensures forall i :: j <= i < k ==> steps[i].frame != frame
    decreases |steps| - j
  {
    if j == |steps| || steps[j].frame == frame then j else NextIn(steps, frame, j + 1)
  }

  /** A frame opener costs the gas gap to the next step of its own frame, when there is one. */
  function ChargedStep(steps: seq<Step>, i: nat): Step
    requires i < |steps|
  {
    var next := NextIn(steps, steps[i].frame, i + 1);
    if OpensFrame(steps[i].opcode) && next < |steps|
    then steps[i].(gasCost := SatSub(steps[i].gasRemaining, steps[next].gasRemaining))
    else steps[i]
  }

  function Charged(steps: seq<Step>): seq<Step> {
    seq(|steps|, i requires 0 <= i < |steps| => ChargedStep(steps, i))
  }

  function MinDepth(steps: seq<Step>): (m: nat)
    requires steps != []
    ensures forall i :: 0 <= i < |steps| ==> m <= steps[i].depth
    ensures exists i :: 0 <= i < |steps| && m == steps[i].depth
  {
    if |steps| == 1 then steps[0].depth
    else
      var rest := MinDepth(steps[1..]);
      assert forall i :: 0 <= i < |steps[1..]| ==> steps[1..][i] == steps[i + 1];
      if rest < steps[0].depth then
        var k :| 0 <= k < |steps[1..]| && steps[1..][k].depth == rest;
        assert steps[k + 1].depth == rest;
        rest
      else steps[0].depth
  }

  /** The map holds, for every frame that still runs from `i` on, the gas at its next step. */
  ghost predicate Resumes(next: map<nat, nat>, steps: seq<Step>, i: nat)
    requires i <= |steps|
  {
    forall f ::
      && (f in next <==> NextIn(steps, f, i) < |steps|)
      && (f in next ==> next[f] == steps[NextIn(steps, f, i)].gasRemaining)
  }

  lemma ResumesEarlier(next: map<nat, nat>, steps: seq<Step>, i: nat)
    requires i < |steps| && Resumes(next, steps, i + 1)
    ensures Resumes(next[steps[i].frame := steps[i].gasRemaining], steps, i)
  {
    forall f
      ensures NextIn(steps, f, i) == if steps[i].frame == f then i else NextIn(steps, f, i + 1)
    {
    }
  }

  class Tracer {
    var steps: seq<Step>
    var depth: nat
    var frames: seq<nat>
    var framesSeen: nat

    ghost function View(): State
      reads this
    {
      State(steps, depth, frames, framesSeen)
    }

    constructor ()
      ensures View() == Run([])
    {
      steps, depth, frames, framesSeen := [], 0, [], 0;
    }

    method EnterFrame()
      modifies this
      ensures View() == Apply(old(View()), Enter)
    {
      framesSeen := framesSeen + 1;
      frames := frames + [framesSeen];
      depth := depth + 1;
    }

    method LeaveFrame()
      modifies this
      ensures View() == Apply(old(View()), Leave)
    {
      if frames != [] {
        frames := frames[..|frames| - 1];
      }
      depth := SatSub(depth, 1);
    }

    method OnStep(pc: nat, opcode: Byte, gas: nat, stack: seq<nat>)
      modifies this
      ensures View() == Apply(old(View()), StepStart(pc, opcode, gas, stack))
    {
      var frame := if frames == [] then 0 else frames[|frames| - 1];
      steps := steps + [Step(depth, frame, pc, opcode, gas, 0, stack)];
    }

    method OnStepEnd(left: nat)
      modifies this
      ensures View() == Apply(old(View()), StepEnd(left))
    {
      if steps != [] {
        var last := steps[|steps| - 1];
        steps := steps[|steps| - 1 := last.(gasCost := SatSub(last.gasRemaining, left))];
      }
    }

    /** One backward pass with a map from frame to the gas at its next step. */
    method ChargeFrameOpeners()
      modifies this`steps
      ensures steps == Charged(old(steps))
    {
      ghost var was := steps;
      var nextInFrame: map<nat, nat> := map[];
      var i := |steps|;
      while i > 0
        invariant 0 <= i <= |steps| == |was|
        invariant forall k :: 0 <= k < i ==> steps[k] == was[k]
        invariant forall k :: i <= k < |was| ==> steps[k] == ChargedStep(was, k)
        invariant Resumes(nextInFrame, was, i)
      {
        i := i - 1;
        var step := steps[i];
        ResumesEarlier(nextInFrame, was, i);
        ghost var charged := ChargedStep(was, i);
        if OpensFrame(step.opcode) && step.frame in nextInFrame {
          steps := steps[i := step.(gasCost := SatSub(step.gasRemaining, nextInFrame[step.frame]))];
        }
        assert steps[i] == charged;
        nextInFrame := nextInFrame[step.frame := step.gasRemaining];
      }
    }

    /** Charges the frame openers and rebases depths on the shallowest. */
    method Finish() returns (trace: seq<Step>)
      modifies this`steps
      ensures trace == Rebased(Charged(old(steps)))
    {
      ChargeFrameOpeners();
      var base := if steps == [] then 0 else MinDepth(steps);
      var charged := steps;
      trace := seq(|charged|, i requires 0 <= i < |charged| => charged[i].(depth := charged[i].depth - base));
      assert charged == Charged(old(steps));
    }
  }

  function Rebased(steps: seq<Step>): seq<Step> {
    var base := if steps == [] then 0 else MinDepth(steps);
    seq(|steps|, i requires 0 <= i < |steps| => steps[i].(depth := steps[i].depth - base))
  }

  /** Rebasing puts the shallowest step at depth 0 and keeps every difference and other field. */
  lemma RebasedKeepsDifferences(steps: seq<Step>)
    requires steps != []
    ensures |Rebased(steps)| == |steps|
    ensures exists k :: 0 <= k < |steps| && Rebased(steps)[k].depth == 0
    ensures forall i, j :: 0 <= i < |steps| && 0 <= j < |steps| ==>
              Rebased(steps)[i].depth - Rebased(steps)[j].depth == steps[i].depth - steps[j].depth
    ensures forall i :: 0 <= i < |steps| ==> Rebased(steps)[i] == steps[i].(depth := Rebased(steps)[i].depth)
  {
    var k :| 0 <= k < |steps| && steps[k].depth == MinDepth(steps);
    assert Rebased(steps)[k].depth == 0;
  }

  // ----- frame bookkeeping over every run -----

  ghost predicate Bookkept(s: State) {
    && s.depth == |s.frames|
    && (forall i :: 0 <= i < |s.frames| ==> 1 <= s.frames[i] <= s.framesSeen)
    && (forall i, j :: 0 <= i < j < |s.frames| ==> s.frames[i] < s.frames[j])
    && (forall k :: 0 <= k < |s.steps| ==> s.steps[k].frame <= s.framesSeen)
    && (forall k :: 0 <= k < |s.steps| ==> (s.steps[k].frame == 0 <==> s.steps[k].depth == 0))
    && (forall k, d :: 0 <= k < |s.steps| && 0 <= d < |s.frames| && s.steps[k].frame == s.frames[d] ==>
          s.steps[k].depth == d + 1)
    && (forall k, l :: 0 <= k < |s.steps| && 0 <= l < |s.steps| && s.steps[k].frame == s.steps[l].frame ==>
          s.steps[k].depth == s.steps[l].depth)
  }

  lemma EnterBookkeeps(s: State)
    requires Bookkept(s)
    ensures Bookkept(Apply(s, Enter))
  {
    var t := Apply(s, Enter);
    var n := |s.frames|;
    assert t.frames[..n] == s.frames && t.frames[n] == s.framesSeen + 1;
    forall k, d | 0 <= k < |t.steps| && 0 <= d < |t.frames| && t.steps[k].frame == t.frames[d]
      ensures t.steps[k].depth == d + 1
    {
      assert d < n && s.frames[d] == t.frames[d];
    }
  }

  lemma LeaveBookkeeps(s: State)
    requires Bookkept(s)
    ensures Bookkept(Apply(s, Leave))
  {
  }

  lemma StepStartBookkeeps(s: State, e: Event)
    requires Bookkept(s) && e.StepStart?
    ensures Bookkept(Apply(s, e))
  {
    hide SatSub;
    var t := Apply(s, e);
    var n := |s.steps|;
    assert t.frames == s.frames && t.steps[..n] == s.steps && t.steps[n].depth == s.depth;
    forall k | 0 <= k < n && s.steps[k].frame == t.steps[n].frame
      ensures s.steps[k].depth == t.steps[n].depth
    {
      if s.frames != [] {
        assert s.steps[k].frame == s.frames[|s.frames| - 1];
      }
    }
  }

  lemma StepEndBookkeeps(s: State, e: Event)
    requires Bookkept(s) && e.StepEnd?
    ensures Bookkept(Apply(s, e))
  {
    var t := Apply(s, e);
    assert forall k :: 0 <= k < |s.steps| ==>
      t.steps[k].frame == s.steps[k].frame && t.steps[k].depth == s.steps[k].depth;
  }

  /**
   Whatever the interleaving of calls and steps: depth counts the open frames, open
   ids strictly increase, and steps of one frame share one depth.
   */
  lemma {:induction false} RunBookkeeps(events: seq<Event>)
    ensures Bookkept(Run(events))
  {
    if events == [] {
    } else {
      RunBookkeeps(events[..|events| - 1]);
      var s, e := Run(events[..|events| - 1]), events[|events| - 1];
      match e
      case Enter => EnterBookkeeps(s);
      case Leave => LeaveBookkeeps(s);
      case StepStart(_, _, _, _) => StepStartBookkeeps(s, e);
      case StepEnd(_) => StepEndBookkeeps(s, e);
    }
  }

  /** A frame id once closed is never used again, by a frame or by a step. */
  lemma {:induction false} IdsAreNeverReused(before: seq<Event>, after: seq<Event>, id: nat)
    requires 1 <= id <= Run(before).framesSeen && id !in Run(before).frames
    ensures Run(before + after).framesSeen >= Run(before).framesSeen
    ensures id !in Run(before + after).frames
    ensures |Run(before + after).steps| >= |Run(before).steps|
    ensures forall k :: |Run(before).steps| <= k < |Run(before + after).steps| ==>
              Run(before + after).steps[k].frame != id
  {
    if after == [] {
      assert before + after == before;
    } else {
      var init := after[..|after| - 1];
      IdsAreNeverReused(before, init, id);
      assert (before + after)[..|before + after| - 1] == before + init;
    }
  }

  // ----- costs telescope -----

  /** Gas left after each step, in step order. */
  function GasAfter(events: seq<Event>): seq<nat> {
    if events == [] then []
    else
      var n := |events| - 1;
      GasAfter(events[..n]) + if events[n].StepEnd? then [events[n].gasLeft] else []
  }

  /** Every step is closed by its own step end before anything else happens. */
  ghost predicate Closed(events: seq<Event>) {
    var n := |events|;
    || n == 0
    || ((events[n - 1].Enter? || events[n - 1].Leave?) && Closed(events[..n - 1]))
    || (n >= 2 && events[n - 1].StepEnd? && events[n - 2].StepStart? && Closed(events[..n - 2]))
  }

  ghost predicate Recorded(steps: seq<Step>, after: seq<nat>) {
    && |after| == |steps|
    && forall k :: 0 <= k < |steps| ==> steps[k].gasCost == SatSub(steps[k].gasRemaining, after[k])
  }

  /** The hooks record, for each step, the gas before minus the gas after. */
  lemma {:induction false} RunRecords(events: seq<Event>)
    requires Closed(events)
    ensures Recorded(Run(events).steps, GasAfter(events))
  {
    var n := |events|;
    if n == 0 {
    } else if events[n - 1].StepEnd? {
      var init := events[..n - 1];
      assert init[..n - 2] == events[..n - 2] && init[n - 2] == events[n - 2];
      RunRecords(events[..n - 2]);
    } else {
      RunRecords(events[..n - 1]);
    }
  }

  /** Total recorded cost of a frame's steps from `k` on. */
  function FrameCost(steps: seq<Step>, frame: nat, k: nat): nat
    requires k <= |steps|
    decreases |steps| - k
  {
    if k == |steps| then 0
    else (if steps[k].frame == frame then steps[k].gasCost else 0) + FrameCost(steps, frame, k + 1)
  }

  /** The last step of a frame. */
  function LastIn(steps: seq<Step>, frame: nat, k: nat): (l: nat)
    requires k < |steps| && steps[k].frame == frame
    ensures k <= l < |steps| && steps[l].frame == frame
    ensures forall i :: l < i < |steps| ==> steps[i].frame != frame
    decreases |steps| - k
  {
    var next := NextIn(steps, frame, k + 1);
    if next == |steps| then k else LastIn(steps, frame, next)
  }

  /** How gas behaves within a frame: it never rises, and a non-opener leaves what the next step starts with. */
  ghost predicate GasFlows(steps: seq<Step>, after: seq<nat>, frame: nat) {
    && |after| == |steps|
    && forall k :: 0 <= k < |steps| && steps[k].frame == frame ==>
      var next := NextIn(steps, frame, k + 1);
      if next < |steps| then
        && steps[next].gasRemaining <= steps[k].gasRemaining
        && (!OpensFrame(steps[k].opcode) ==> after[k] == steps[next].gasRemaining)
      else after[k] <= steps[k].gasRemaining
  }

  lemma {:induction false} SkipsOtherFrames(steps: seq<Step>, frame: nat, k: nat)
    requires k <= |steps|
    ensures FrameCost(steps, frame, k) == FrameCost(steps, frame, NextIn(steps, frame, k))
    decreases |steps| - k
  {
    if k == |steps| || steps[k].frame == frame {
    } else {
      SkipsOtherFrames(steps, frame, k + 1);
    }
  }

  lemma {:induction false} ChargedKeepsFrames(steps: seq<Step>, frame: nat, k: nat)
    requires k <= |steps|
    ensures NextIn(Charged(steps), frame, k) == NextIn(steps, frame, k)
    decreases |steps| - k
  {
    if k == |steps| {
    } else {
      ChargedKeepsFrames(steps, frame, k + 1);
    }
  }

  lemma {:induction false} CostsTelescopeFrom(steps: seq<Step>, after: seq<nat>, frame: nat, k: nat)
    requires Recorded(steps, after) && GasFlows(steps, after, frame)
    requires k < |steps| && steps[k].frame == frame
    ensures FrameCost(Charged(steps), frame, k)
         == steps[k].gasRemaining - after[LastIn(steps, frame, k)]
    ensures after[LastIn(steps, frame, k)] <= steps[k].gasRemaining
    decreases |steps| - k
  {
    var next := NextIn(steps, frame, k + 1);
    SkipsOtherFrames(Charged(steps), frame, k + 1);
    ChargedKeepsFrames(steps, frame, k + 1);
    var charged := Charged(steps);
    assert charged[k] == ChargedStep(steps, k);
    assert FrameCost(charged, frame, k) == charged[k].gasCost + FrameCost(charged, frame, next);
    if next >= |steps| {
    } else {
      CostsTelescopeFrom(steps, after, frame, next);
      assert charged[k].gasCost == steps[k].gasRemaining - steps[next].gasRemaining;
    }
  }

  /**
   Over every closed run in which gas flows, the charged costs of a frame add up to
   its first gas minus what its last step left.
   */
  lemma CostsTelescope(events: seq<Event>, frame: nat)
    requires Closed(events)
    requires GasFlows(Run(events).steps, GasAfter(events), frame)
    ensures var steps := Run(events).steps;
            var first := NextIn(steps, frame, 0);
            FrameCost(Charged(steps), frame, 0)
            == if first == |steps| then 0
               else steps[first].gasRemaining - GasAfter(events)[LastIn(steps, frame, first)]
  {
    var steps := Run(events).steps;
    var first := NextIn(steps, frame, 0);
    RunRecords(events);
    SkipsOtherFrames(Charged(steps), frame, 0);
    ChargedKeepsFrames(steps, frame, 0);
    if first < |steps| {
      CostsTelescopeFrom(steps, GasAfter(events), frame, first);
    }
  }
}
