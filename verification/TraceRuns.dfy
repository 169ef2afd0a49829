/** What a trace says, read off the sequence of hooks that made it. */
module TraceRuns {
  import opened Sequences
  import opened Isa
  import opened Tracer

  // ----- one step per executed instruction -----

  /** Where the steps begin. */
  function Begins(events: seq<Event>): (r: seq<nat>)
    ensures forall k :: 0 <= k < |r| ==> r[k] < |events| && events[r[k]].StepStart?
  {
    if events == [] then [] else Begins(Init(events)) + if Last(events).StepStart? then [|events| - 1] else []
  }

  /** They are all the step starts there are, in order. */
  lemma {:induction false} BeginsAreTheStarts(events: seq<Event>)
    ensures forall p :: 0 <= p < |events| && events[p].StepStart? ==> p in Begins(events)
    ensures forall j, k :: 0 <= j < k < |Begins(events)| ==> Begins(events)[j] < Begins(events)[k]
  {
    if events == [] {
    } else {
      BeginsAreTheStarts(Init(events));
      forall p | 0 <= p < |events| && events[p].StepStart?
        ensures p in Begins(events)
      {
        if p < |events| - 1 {
          assert Init(events)[p].StepStart? && p in Begins(Init(events));
        }
      }
    }
  }

  /** Nothing begins between `p` and `n`. */
  predicate Quiet(events: seq<Event>, p: nat, n: nat)
    requires n <= |events|
  {
    forall i :: p < i < n ==> !events[i].StepStart?
  }

  /** The gas at the last step end that belongs to the step begun at `p`. */
  function LeftAfter(events: seq<Event>, p: nat): Option<nat>
    requires p < |events|
    decreases |events|
  {
    var n := |events| - 1;
    if p == n then None
    else if events[n].StepEnd? && Quiet(events, p, n) then Some(events[n].gasLeft)
    else LeftAfter(Init(events), p)
  }

  /** What a step has cost that began with `gas`: nothing until its end is known. */
  function Spent(gas: nat, left: Option<nat>): nat {
    if left.None? then 0 else SatSub(gas, left.value)
  }

  /** Step `k` is what the `k`th step start says, in the innermost frame then open. */
  ghost predicate Tells(events: seq<Event>, step: Step, p: nat)
    requires p < |events| && events[p].StepStart?
  {
    && step.pc == events[p].pc && step.opcode == events[p].opcode
    && step.gasRemaining == events[p].gas && step.stack == events[p].stack
    && step.gasCost == Spent(events[p].gas, LeftAfter(events, p))
    && step.depth == Run(events[..p]).depth
    && step.frame == Innermost(Run(events[..p]))
  }

  function Innermost(s: State): nat {
    if s.frames == [] then 0 else Last(s.frames)
  }

  /** There are as many steps as step starts, and each tells what its own start said. */
  lemma {:induction false} StepsFollowEvents(events: seq<Event>)
    ensures |Run(events).steps| == |Begins(events)|
    ensures forall k :: 0 <= k < |Begins(events)| ==> Tells(events, Run(events).steps[k], Begins(events)[k])
  {
    if events == [] {
    } else {
      var init, n := Init(events), |events| - 1;
      StepsFollowEvents(init);
      forall k | 0 <= k < |Begins(events)|
        ensures Tells(events, Run(events).steps[k], Begins(events)[k])
      {
        var p := Begins(events)[k];
        if p == n {
          assert events[..p] == init;
        } else {
          assert events[..p] == init[..p] && events[p] == init[p] && p == Begins(init)[k];
          assert Tells(init, Run(init).steps[k], p);
          OneMoreEvent(events, k);
        }
      }
    }
  }

  /** Nothing begins after the last step has begun, and something does after any other. */
  lemma LastBegun(events: seq<Event>, k: nat)
    requires k < |Begins(events)|
    ensures k == |Begins(events)| - 1 <==> Quiet(events, Begins(events)[k], |events|)
  {
    var begins := Begins(events);
    BeginsAreTheStarts(events);
    if k < |begins| - 1 {
      assert events[begins[k + 1]].StepStart?;
    }
  }

  lemma LeftAfterOneMore(events: seq<Event>, p: nat)
    requires p < |events| - 1
    ensures LeftAfter(events, p)
         == if Last(events).StepEnd? && Quiet(Init(events), p, |events| - 1) then Some(Last(events).gasLeft)
            else LeftAfter(Init(events), p)
  {
    forall i | p < i < |events| - 1
      ensures events[i] == Init(events)[i]
    {
    }
  }

  /** A step end belongs to the last step, and to no other. */
  lemma StepEndCharges(s: State, e: Event, k: nat)
    requires k < |s.steps|
    ensures k < |Apply(s, e).steps|
    ensures Apply(s, e).steps[k]
         == if e.StepEnd? && k == |s.steps| - 1
            then s.steps[k].(gasCost := Spent(s.steps[k].gasRemaining, Some(e.gasLeft))) else s.steps[k]
  {
  }

  lemma OneMoreEvent(events: seq<Event>, k: nat)
    requires events != [] && k < |Begins(Init(events))| == |Run(Init(events)).steps|
    requires Run(Init(events)).steps[k].gasCost
          == Spent(Run(Init(events)).steps[k].gasRemaining, LeftAfter(Init(events), Begins(Init(events))[k]))
    ensures k < |Run(events).steps|
    ensures var (was, now) := (Run(Init(events)).steps[k], Run(events).steps[k]);
            now == was.(gasCost := Spent(was.gasRemaining, LeftAfter(events, Begins(Init(events))[k])))
  {
    var init, e := Init(events), Last(events);
    assert Run(events) == Apply(Run(init), e);
    hide Begins, Spent, LeftAfter, Run, Quiet, Apply;
    LastBegun(init, k);
    LeftAfterOneMore(events, Begins(init)[k]);
    StepEndCharges(Run(init), e, k);
  }

  /** The opcodes that open a frame are the creations and the calls. */
  lemma OpenersAre(b: Byte)
    ensures OpensFrame(b) <==> b in {0xf0, 0xf1, 0xf2, 0xf4, 0xf5, 0xfa}
  {
  }

  // ----- which frame a step runs in -----

  function Enters(events: seq<Event>): nat {
    if events == [] then 0 else Enters(Init(events)) + if Last(events).Enter? then 1 else 0
  }

  /** Frames opened less frames closed. */
  function Net(events: seq<Event>): int {
    if events == [] then 0
    else Net(Init(events)) + if Last(events).Enter? then 1 else if Last(events).Leave? then -1 else 0
  }

  /** Closes no more frames than it has opened. */
  ghost predicate Within(events: seq<Event>) {
    forall i :: 0 <= i <= |events| ==> Net(events[..i]) >= 0
  }

  /** The call or create at `m` has opened a frame, and what it opened further is closed again. */
  ghost predicate StillInside(events: seq<Event>, m: nat) {
    m < |events| && events[m].Enter? && Within(events[m + 1..]) && Net(events[m + 1..]) == 0
  }

  lemma {:induction false} IdsCountEnters(events: seq<Event>)
    ensures Run(events).framesSeen == Enters(events)
  {
    if events == [] {
    } else {
      IdsCountEnters(Init(events));
    }
  }

  lemma WithinInit(events: seq<Event>)
    requires events != [] && Within(events)
    ensures Within(Init(events)) && Net(events) >= 0
  {
    forall i | 0 <= i <= |Init(events)|
      ensures Net(Init(events)[..i]) >= 0
    {
      assert Init(events)[..i] == events[..i];
    }
    assert events[..|events|] == events;
  }

  /** Events that close only what they open leave the frames below as they are. */
  lemma {:induction false} FramesNest(before: seq<Event>, more: seq<Event>)
    requires Within(more)
    ensures Run(before).frames <= Run(before + more).frames
    ensures |Run(before + more).frames| == |Run(before).frames| + Net(more)
  {
    RunBookkeeps(before + more);
    if more == [] {
      assert before + more == before;
    } else {
      WithinInit(more);
      FramesNest(before, Init(more));
      assert Init(before + more) == before + Init(more) && Last(before + more) == Last(more);
    }
  }

  lemma NetOneMore(events: seq<Event>, m: nat)
    requires m < |events| && m < |events| - 1
    ensures Init(events)[m + 1..] == Init(events[m + 1..]) && Last(events[m + 1..]) == Last(events)
    ensures Net(events[m + 1..])
         == Net(Init(events)[m + 1..]) + if Last(events).Enter? then 1 else if Last(events).Leave? then -1 else 0
    ensures Within(Init(events)[m + 1..]) && Net(events[m + 1..]) >= 0 ==> Within(events[m + 1..])
  {
    var tail, init := events[m + 1..], Init(events)[m + 1..];
    assert init == Init(tail);
    if Within(init) && Net(tail) >= 0 {
      forall i | 0 <= i <= |tail|
        ensures Net(tail[..i]) >= 0
      {
        assert i < |tail| ==> tail[..i] == init[..i];
        assert i == |tail| ==> tail[..i] == tail;
      }
    }
  }

  /** Every open frame was opened by some call or create, and its id counts the openings up to there. */
  lemma {:induction false} OpenedBy(events: seq<Event>, d: nat) returns (m: nat)
    requires d < |Run(events).frames|
    ensures m < |events| && events[m].Enter? && Run(events).frames[d] == Enters(events[..m + 1])
    ensures Within(events[m + 1..]) && Net(events[m + 1..]) == |Run(events).frames| - 1 - d
  {
    if events == [] {
      assert false;
    } else {
      var init, e := Init(events), Last(events);
      IdsCountEnters(events);
      if e.Enter? && d == |Run(init).frames| {
        m := |events| - 1;
        assert events[..m + 1] == events && events[m + 1..] == [];
      } else {
        m := OpenedBy(init, d);
        hide Net, Within, Enters;
        assert events[..m + 1] == init[..m + 1] && events[m] == init[m];
        NetOneMore(events, m);
      }
    }
  }

  /**
   The innermost frame is the one the last unclosed call or create opened, numbered by
   how many there had been; there is none exactly when every one has been closed.
   */
  lemma InnermostIsLastOpened(events: seq<Event>)
    ensures Run(events).frames == [] <==> !exists m: nat :: StillInside(events, m)
    ensures Run(events).depth == |Run(events).frames|
    ensures forall m: nat :: StillInside(events, m) ==> Innermost(Run(events)) == Enters(events[..m + 1])
  {
    RunBookkeeps(events);
    forall m: nat | StillInside(events, m)
      ensures Run(events).frames != [] && Innermost(Run(events)) == Enters(events[..m + 1])
    {
      var upto := events[..m + 1];
      assert events == upto + events[m + 1..] && Last(upto) == events[m];
      IdsCountEnters(upto);
      FramesNest(upto, events[m + 1..]);
    }
    if Run(events).frames != [] {
      var m := OpenedBy(events, |Run(events).frames| - 1);
      assert StillInside(events, m);
    }
  }

  // ----- costs -----

  /** In a closed run each step is charged the gas it began with less the gas at the end that follows it. */
  lemma {:induction false} ClosedEnds(events: seq<Event>, p: nat)
    requires Closed(events) && p < |events| && events[p].StepStart?
    ensures p + 1 < |events| && events[p + 1].StepEnd?
    ensures LeftAfter(events, p) == Some(events[p + 1].gasLeft)
  {
    var n := |events|;
    if events[n - 1].StepEnd? {
      if p < n - 2 {
        ClosedEnds(events[..n - 2], p);
        assert Init(Init(events)) == events[..n - 2];
        assert events[n - 2].StepStart?;
      }
    } else {
      ClosedEnds(events[..n - 1], p);
      assert Init(events) == events[..n - 1];
    }
  }

  /** The event behind `p` ends a step with this much gas left. */
  predicate EndsWith(events: seq<Event>, p: nat, left: nat) {
    p + 1 < |events| && events[p + 1] == StepEnd(left)
  }

  /** The gas after the steps is what the step ends behind them say. */
  lemma {:induction false} GasAfterEnds(events: seq<Event>)
    requires Closed(events)
    ensures |GasAfter(events)| == |Begins(events)|
    ensures forall k :: 0 <= k < |Begins(events)| ==> EndsWith(events, Begins(events)[k], GasAfter(events)[k])
  {
    var n := |events|;
    if n == 0 {
    } else if events[n - 1].StepEnd? {
      assert events[n - 2].StepStart? && Closed(events[..n - 2]);
      hide Closed;
      GasAfterEnds(events[..n - 2]);
      BeginsTwoMore(events);
      GasAfterTwoMore(events);
      hide Begins, GasAfter;
    } else {
      assert Init(events) == events[..n - 1];
      GasAfterEnds(events[..n - 1]);
    }
  }

  lemma BeginsTwoMore(events: seq<Event>)
    requires |events| >= 2 && Last(events).StepEnd? && events[|events| - 2].StepStart?
    ensures Begins(events) == Begins(events[..|events| - 2]) + [|events| - 2]
  {
    assert Init(Init(events)) == events[..|events| - 2];
    assert Begins(events) == Begins(Init(events));
  }

  lemma GasAfterTwoMore(events: seq<Event>)
    requires |events| >= 2 && Last(events).StepEnd? && events[|events| - 2].StepStart?
    ensures GasAfter(events) == GasAfter(events[..|events| - 2]) + [Last(events).gasLeft]
  {
    var n := |events|;
    assert events[..n - 1][..n - 2] == events[..n - 2];
    assert GasAfter(events[..n - 1]) == GasAfter(events[..n - 2]);
  }

  /** In a closed run every step costs the gas it began with less the gas its own end left. */
  lemma CostsFollowEvents(events: seq<Event>, k: nat)
    requires Closed(events) && k < |Begins(events)|
    ensures k < |Run(events).steps| && Begins(events)[k] + 1 < |events| && events[Begins(events)[k] + 1].StepEnd?
    ensures Run(events).steps[k].gasCost
         == SatSub(events[Begins(events)[k]].gas, events[Begins(events)[k] + 1].gasLeft)
  {
    StepsFollowEvents(events);
    ClosedEnds(events, Begins(events)[k]);
  }

  /** Within a frame the gas at the hooks never rises, and a step that opens no frame leaves what the next has. */
  ghost predicate HooksFlow(events: seq<Event>, frame: nat) {
    && |Run(events).steps| == |GasAfter(events)| == |Begins(events)|
    && forall k :: 0 <= k < |Run(events).steps| && Run(events).steps[k].frame == frame ==>
         var next := NextIn(Run(events).steps, frame, k + 1);
         if next < |Begins(events)| then
           && events[Begins(events)[next]].gas <= events[Begins(events)[k]].gas
           && (!OpensFrame(events[Begins(events)[k]].opcode) ==>
                 GasAfter(events)[k] == events[Begins(events)[next]].gas)
         else GasAfter(events)[k] <= events[Begins(events)[k]].gas
  }

  lemma HooksFlowInSteps(events: seq<Event>, frame: nat)
    requires HooksFlow(events, frame)
    ensures |Run(events).steps| == |Begins(events)| && GasFlows(Run(events).steps, GasAfter(events), frame)
    ensures forall k :: 0 <= k < |Run(events).steps| ==>
              Run(events).steps[k].gasRemaining == events[Begins(events)[k]].gas
  {
    hide OpensFrame, Begins, Run, LeftAfter, GasAfter;
    StepsFollowEvents(events);
    forall k | 0 <= k < |Run(events).steps|
      ensures Run(events).steps[k].gasRemaining == events[Begins(events)[k]].gas
      ensures Run(events).steps[k].opcode == events[Begins(events)[k]].opcode
    {
      assert Tells(events, Run(events).steps[k], Begins(events)[k]);
    }
  }

  /**
   The charged costs of a frame add up to the gas at its first step start minus the gas
   at the end of its last step.
   */
  lemma FrameCostsTelescope(events: seq<Event>, frame: nat)
    requires Closed(events) && HooksFlow(events, frame)
    ensures var (steps, first) := (Run(events).steps, NextIn(Run(events).steps, frame, 0));
            if first == |steps| then FrameCost(Charged(steps), frame, 0) == 0
            else
              var last := Begins(events)[LastIn(steps, frame, first)];
              && last + 1 < |events| && events[last + 1].StepEnd?
              && FrameCost(Charged(steps), frame, 0) == events[Begins(events)[first]].gas - events[last + 1].gasLeft
  {
    hide Run, Charged, FrameCost, Closed, GasAfter, Begins, GasFlows, HooksFlow;
    GasAfterEnds(events);
    HooksFlowInSteps(events, frame);
    CostsTelescope(events, frame);
    var steps := Run(events).steps;
    var first := NextIn(steps, frame, 0);
    if first < |steps| {
      var last := LastIn(steps, frame, first);
      assert EndsWith(events, Begins(events)[last], GasAfter(events)[last]);
    }
  }
}
