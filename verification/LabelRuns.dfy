/** Over every sequence of assembler calls: the labels handed out, and the reason for each failure. */
module LabelRuns {
  import opened Sequences
  import opened Isa
  import opened Immediates
  import opened Layout
  import opened Assembler
  import opened AssemblerRuns

  // ----- labels are fresh -----

  /** How many labels the history asked for. */
  function Reserved(calls: seq<Call>): nat {
    if calls == [] then 0 else Reserved(Init(calls)) + (if Last(calls).LabelCall? then 1 else 0)
  }

  lemma {:induction false} RunCountsLabels(fork: Fork, calls: seq<Call>)
    ensures Run(fork, calls).nextLabel == Reserved(calls)
  {
    if calls == [] {
    } else {
      RunCountsLabels(fork, Init(calls));
    }
  }

  lemma {:induction false} ReservedGrows(calls: seq<Call>, i: nat, j: nat)
    requires i <= j <= |calls|
    ensures Reserved(calls[..i]) <= Reserved(calls[..j])
    ensures i < j && calls[i].LabelCall? ==> Reserved(calls[..i]) < Reserved(calls[..j])
    decreases j
  {
    if i == j {
    } else {
      ReservedGrows(calls, i, j - 1);
      assert Init(calls[..j]) == calls[..j - 1] && Last(calls[..j]) == calls[j - 1];
    }
  }

  /** The label call `k` of a history gives back. */
  function HandedOut(fork: Fork, calls: seq<Call>, k: nat): Label
    requires k < |calls| && calls[k].LabelCall?
  {
    Run(fork, calls[..k]).nextLabel
  }

  /** Two reservations of one history, refused calls between them or not, never give the same label. */
  lemma LabelsDiffer(fork: Fork, calls: seq<Call>, i: nat, j: nat)
    requires i < j < |calls| && calls[i].LabelCall? && calls[j].LabelCall?
    ensures HandedOut(fork, calls, i) < HandedOut(fork, calls, j)
  {
    RunCountsLabels(fork, calls[..i]);
    RunCountsLabels(fork, calls[..j]);
    ReservedGrows(calls, i, j);
  }

  /** Call `k` binds the label of the reservation `owner` names, made before it. */
  predicate BindsOwn(fork: Fork, calls: seq<Call>, owner: nat -> nat, k: nat)
    requires k < |calls|
  {
    calls[k].BindCall? ==>
      owner(k) < k && calls[owner(k)].LabelCall? && calls[k].l == HandedOut(fork, calls, owner(k))
  }

  /** Every label bound is one that was handed out, and no reservation is bound twice. */
  ghost predicate BindsHandlesOnce(fork: Fork, calls: seq<Call>, owner: nat -> nat) {
    && (forall k :: 0 <= k < |calls| ==> BindsOwn(fork, calls, owner, k))
    && (forall i, j :: 0 <= i < j < |calls| && calls[i].BindCall? && calls[j].BindCall? ==> owner(i) != owner(j))
  }

  /** A history that binds each label it was handed at most once is never refused for a label. */
  lemma HandlesBindOnce(fork: Fork, calls: seq<Call>, owner: nat -> nat)
    requires BindsHandlesOnce(fork, calls, owner)
    ensures forall k :: 0 <= k < |calls| && calls[k].BindCall? ==> !Refused(fork, calls[..k], calls[k])
    ensures Run(fork, calls).error.Some? ==> !Run(fork, calls).error.value.LabelAlreadyBound?
  {
    forall k | 0 <= k < |calls| && calls[k].BindCall?
      ensures !Refused(fork, calls[..k], calls[k])
    {
      if calls[k] in calls[..k] {
        var i :| 0 <= i < k && calls[i] == calls[k];
        assert BindsOwn(fork, calls, owner, i) && BindsOwn(fork, calls, owner, k);
        if owner(i) < owner(k) {
          LabelsDiffer(fork, calls, owner(i), owner(k));
        } else {
          LabelsDiffer(fork, calls, owner(k), owner(i));
        }
      }
    }
    var k := FirstRefused(fork, calls, 0);
    PrefixAccepted(fork, calls, k);
    if k < |calls| {
      RunSticks(fork, calls, k);
    } else {
      assert calls[..k] == calls;
      RunAccepts(fork, calls);
    }
  }

  // ----- why a history fails -----

  /** The families whose opcodes have a method of their own: the pushes, then the copies, then the exchanges. */
  function Family(b: Byte): Option<Helper> {
    if 0x5f <= b < 0x80 then Some(PushHelper)
    else if 0x80 <= b < 0x90 then Some(DupHelper)
    else if 0x90 <= b < 0xa0 then Some(SwapHelper)
    else None
  }

  /** The reason a refused call is given, from the call and the calls before it. */
  ghost predicate Explains(fork: Fork, call: Call, e: AsmError) {
    match e
    case UnknownMnemonic(m) => call == OpCall(m) && (m.Listed? ==> ByByte(m.byte).None?)
    case UseHelperInstead(m, helper) => call == OpCall(m) && m.Listed? && Family(m.byte) == Some(helper)
    case OpcodeTooNew(m, min, target) =>
      && call == OpCall(m) && m.Listed? && Family(m.byte).None? && target == fork
      && ByByte(m.byte).Some? && ByByte(m.byte).value.minFork == min && fork.Rank() < min.Rank()
    case BadStackDepth(helper, n) =>
      (n == 0 || n > 16) && call == (if helper.DupHelper? then DupCall(n) else SwapCall(n)) && !helper.PushHelper?
    case LabelAlreadyBound(l) => call == BindCall(l)
    case _ => false
  }

  lemma RejectionExplained(fork: Fork, bound: set<Label>, call: Call)
    ensures var r := Rejection(fork, bound, call);
            r.Some? ==> Explains(fork, call, r.value) && (call.BindCall? ==> call.l in bound)
  {
  }

  /** After a refusal `finish` gives the reason for the first refused call. */
  lemma FirstRefusalExplained(fork: Fork, calls: seq<Call>)
    requires FirstRefused(fork, calls, 0) < |calls|
    ensures Encodable(Run(fork, calls).items) && Finished(Run(fork, calls)).Err?
    ensures var k := FirstRefused(fork, calls, 0);
            && Explains(fork, calls[k], Finished(Run(fork, calls)).error)
            && (calls[k].BindCall? ==> calls[k] in calls[..k])
  {
    hide Rejection, ByByte, Explains;
    var k := FirstRefused(fork, calls, 0);
    FinishSucceedsIff(fork, calls);
    RejectionExplained(fork, Bound(Run(fork, calls[..k]).items), calls[k]);
  }

  /** The labels referenced, in the order of the calls. */
  function References(calls: seq<Call>): seq<Label> {
    if calls == [] then []
    else References(Init(calls)) + (if Last(calls).PushLabelCall? then [Last(calls).l] else [])
  }

  function Destinations(fixups: seq<Fixup>): seq<Label> {
    seq(|fixups|, i requires 0 <= i < |fixups| => fixups[i].dest)
  }

  lemma {:induction false} FixupsAreReferences(fork: Fork, calls: seq<Call>, items: seq<Item>)
    requires Accepted(fork, calls, items)
    ensures Encodable(items) && Destinations(FixupsOf(items)) == References(calls)
    decreases |calls|
  {
    AcceptedFit(fork, calls, items);
    if calls == [] {
    } else {
      if Last(calls).LabelCall? {
        assert Emitting(calls) == Emitting(Init(calls));
        assert Accepted(fork, Init(calls), items);
        FixupsAreReferences(fork, Init(calls), items);
      } else {
        AcceptedInit(fork, calls, items);
        FixupsAreReferences(fork, Init(calls), Init(items));
        OneMoreReference(fork, Last(calls), items);
      }
    }
  }

  lemma OneMoreReference(fork: Fork, call: Call, items: seq<Item>)
    requires Encodable(items) && items != [] && !call.LabelCall?
    requires Rejection(fork, {}, call).None? && Last(items) == Emission(fork, call)
    ensures Destinations(FixupsOf(items))
         == Destinations(FixupsOf(Init(items))) + (if call.PushLabelCall? then [call.l] else [])
  {
    hide Rejection, Encode, ByMnemonic, Width, Significant;
    assert Last(items).RefItem? <==> call.PushLabelCall?;
  }

  /** The references and their labels, found in the items as in the history. */
  lemma ItemsMatchHistory(fork: Fork, calls: seq<Call>, items: seq<Item>)
    requires Accepted(fork, calls, items)
    ensures Encodable(items) && |FixupsOf(items)| == |References(calls)|
    ensures forall i :: 0 <= i < |References(calls)| ==> FixupsOf(items)[i].dest == References(calls)[i]
    ensures forall l :: l in LabelsOf(items) <==> BindCall(l) in calls
  {
    hide Accepted, Encode;
    FixupsAreReferences(fork, calls, items);
    BoundIsLabels(items);
    forall l
      ensures l in LabelsOf(items) <==> BindCall(l) in calls
    {
      BoundMatchesHistory(fork, calls, items, l);
    }
    forall i | 0 <= i < |References(calls)|
      ensures FixupsOf(items)[i].dest == References(calls)[i]
    {
      assert Destinations(FixupsOf(items))[i] == References(calls)[i];
    }
  }

  /** The first reference the history never binds. */
  ghost predicate FirstUnboundReference(calls: seq<Call>, k: nat) {
    && k < |References(calls)| && BindCall(References(calls)[k]) !in calls
    && forall i :: 0 <= i < k ==> BindCall(References(calls)[i]) in calls
  }

  /**
   With nothing refused `finish` fails for one of two reasons: references in code too
   long for them, checked first, or the first reference whose label was never bound.
   */
  lemma FinishErrors(fork: Fork, calls: seq<Call>)
    requires NoneRefused(fork, calls)
    ensures Encodable(Run(fork, calls).items)
    ensures var (long, r) := (CodeSize(fork, calls) > MAX_LABEL_OFFSET, Finished(Run(fork, calls)));
            && (long && References(calls) != [] ==> r == Err(CodeTooLargeToAddress(CodeSize(fork, calls))))
            && (!long ==>
                  forall k: nat :: FirstUnboundReference(calls, k) ==> r == Err(UnboundLabel(References(calls)[k])))
  {
    hide Accepted, Encode, LabelsOf, FixupsOf, NoneRefused;
    var items := Run(fork, calls).items;
    RunAccepts(fork, calls);
    AcceptedSize(fork, calls, items);
    ItemsMatchHistory(fork, calls, items);
    forall k: nat | FirstUnboundReference(calls, k)
      ensures FirstUnbound(FixupsOf(items), LabelsOf(items)) == k
    {
    }
  }
}
