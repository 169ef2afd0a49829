/** Where one step of a run takes control, and what the values at the other end are. */
module Control {
  import opened Isa
  import opened Immediates
  import opened Types
  import opened Instructions
  import opened WidthRepair
  import opened Machine
  import opened Arena
  import opened Soundness
  import opened Removal

  // ----- binding lists of names -----

  predicate Distinct(names: seq<Value>) {
    forall i, j :: 0 <= i < j < |names| ==> names[i] != names[j]
  }

  lemma {:induction false} BindReads(vals: Values, names: seq<Value>, words: seq<Word>, k: nat)
    requires |names| == |words| && Distinct(names) && k < |names|
    ensures names[k] in Bind(vals, names, words) && Bind(vals, names, words)[names[k]] == words[k]
    decreases |names|
  {
    if k == 0 {
      assert names[0] !in names[1..];
      BindTouchesOnlyNames(vals[names[0] := words[0]], names[1..], words[1..]);
    } else {
      BindReads(vals[names[0] := words[0]], names[1..], words[1..], k - 1);
    }
  }

  /** `after` is `before` with the words at the names, position by position. */
  ghost predicate Holds(before: Values, after: Values, names: seq<Value>, words: seq<Word>) {
    && |names| == |words|
    && (forall k :: 0 <= k < |names| ==> names[k] in after && after[names[k]] == words[k])
    && (forall v :: v !in names ==> (v in after <==> v in before))
    && (forall v :: v in before && v !in names ==> after[v] == before[v])
  }

  lemma BindHolds(vals: Values, names: seq<Value>, words: seq<Word>)
    requires |names| == |words| && Distinct(names)
    ensures Holds(vals, Bind(vals, names, words), names, words)
  {
    forall k | 0 <= k < |names|
      ensures names[k] in Bind(vals, names, words) && Bind(vals, names, words)[names[k]] == words[k]
    {
      BindReads(vals, names, words, k);
    }
    BindTouchesOnlyNames(vals, names, words);
  }

  /** The arenas never name one value twice in a list of parameters or results. */
  lemma ListsAreDistinct(f: Arena.Func)
    requires ArenaOk(f)
    ensures forall b :: 0 <= b < |f.blocks| ==> Distinct(f.blocks[b].params)
    ensures forall i :: 0 <= i < |f.insts| ==> Distinct(f.insts[i].results)
  {
    forall b, i, j | 0 <= b < |f.blocks| && 0 <= i < j < |f.blocks[b].params|
      ensures f.blocks[b].params[i] != f.blocks[b].params[j]
    {
      assert ParamSite(f, b, i) && ParamSite(f, b, j);
    }
    forall n, i, j | 0 <= n < |f.insts| && 0 <= i < j < |f.insts[n].results|
      ensures f.insts[n].results[i] != f.insts[n].results[j]
    {
      assert ResultSite(f, n, i) && ResultSite(f, n, j);
    }
  }

  // ----- edges -----

  function Top(s: State): Frame
    requires s.frames != []
  {
    s.frames[|s.frames| - 1]
  }

  /** The top frame stands behind the last instruction of its block, which ends in `term`. */
  ghost predicate EndsIn(p: Program, s: State, term: Terminator) {
    && s.frames != [] && Top(s).fn < |p| && ArenaOk(p[Top(s).fn])
    && Top(s).block < |p[Top(s).fn].blocks|
    && Top(s).pc == |p[Top(s).fn].blocks[Top(s).block].insts|
    && p[Top(s).fn].blocks[Top(s).block].term == Some(term)
  }

  /** An edge whose target takes as many words as the edge carries, all of them bound. */
  predicate CanTake(p: Program, fr: Frame, call: BlockCall) {
    && fr.fn < |p| && call.block < |p[fr.fn].blocks|
    && |call.args| == |p[fr.fn].blocks[call.block].params| && AllBound(fr.vals, call.args)
  }

  /** From `s` to `t` the top frame has gone along the edge, and nothing else has changed. */
  ghost predicate Arrives(p: Program, s: State, t: State, call: BlockCall) {
    && s.frames != [] && CanTake(p, Top(s), call)
    && |t.frames| == |s.frames| && t.world == s.world
    && t.frames[..|t.frames| - 1] == s.frames[..|s.frames| - 1]
    && Top(t).fn == Top(s).fn && Top(t).block == call.block && Top(t).pc == 0
    && Holds(Top(s).vals, Top(t).vals, p[Top(s).fn].blocks[call.block].params, Operands(Top(s).vals, call.args))
  }

  lemma EdgeArrives(p: Program, env: Env, layout: Layout, s: State, term: Terminator, call: BlockCall)
    requires EndsIn(p, s, term) && !term.Return? && TakenEdge(term, Top(s).vals) == Some(call)
    ensures Step(p, env, layout, s).Some? <==> CanTake(p, Top(s), call)
    ensures Step(p, env, layout, s).Some? ==> Arrives(p, s, Step(p, env, layout, s).value, call)
  {
    hide ArenaOk, StepInst, TakenEdge, Holds;
    if CanTake(p, Top(s), call) {
      ListsAreDistinct(p[Top(s).fn]);
      BindHolds(Top(s).vals, p[Top(s).fn].blocks[call.block].params, Operands(Top(s).vals, call.args));
    }
  }

  /** A jump goes where it says. */
  lemma JumpGoes(p: Program, env: Env, layout: Layout, s: State, call: BlockCall)
    requires EndsIn(p, s, Jump(call))
    ensures Step(p, env, layout, s).Some? <==> CanTake(p, Top(s), call)
    ensures Step(p, env, layout, s).Some? ==> Arrives(p, s, Step(p, env, layout, s).value, call)
  {
    EdgeArrives(p, env, layout, s, Jump(call), call);
  }

  /** A branch takes its first edge on a nonzero word and its second on zero. */
  lemma BranchGoes(
    p: Program, env: Env, layout: Layout, s: State, cond: Value, thenCall: BlockCall, elseCall: BlockCall)
    requires EndsIn(p, s, Brif(cond, thenCall, elseCall)) && cond in Top(s).vals
    ensures Top(s).vals[cond] != 0 ==>
              && (Step(p, env, layout, s).Some? <==> CanTake(p, Top(s), thenCall))
              && (Step(p, env, layout, s).Some? ==> Arrives(p, s, Step(p, env, layout, s).value, thenCall))
    ensures Top(s).vals[cond] == 0 ==>
              && (Step(p, env, layout, s).Some? <==> CanTake(p, Top(s), elseCall))
              && (Step(p, env, layout, s).Some? ==> Arrives(p, s, Step(p, env, layout, s).value, elseCall))
  {
    hide Arrives, Step, CanTake, ArenaOk;
    EdgeArrives(p, env, layout, s, Brif(cond, thenCall, elseCall),
                if Top(s).vals[cond] != 0 then thenCall else elseCall);
  }

  lemma {:induction false} FirstMatchChosen(cases: seq<(Immediate, BlockCall)>, default: BlockCall, on: Word, k: nat)
    requires k <= |cases| && (k < |cases| ==> Literal(cases[k].0) == on)
    requires forall i :: 0 <= i < k ==> Literal(cases[i].0) != on
    ensures Chosen(cases, default, on) == if k < |cases| then cases[k].1 else default
    decreases k
  {
    if k == 0 {
    } else {
      FirstMatchChosen(cases[1..], default, on, k - 1);
    }
  }

  /** A switch takes the first case whose literal is the word, and the default when there is none. */
  lemma SwitchGoes(
    p: Program, env: Env, layout: Layout, s: State, on: Value, cases: seq<(Immediate, BlockCall)>, default: BlockCall,
    k: nat)
    requires EndsIn(p, s, Switch(on, cases, default)) && on in Top(s).vals && k <= |cases|
    requires forall i :: 0 <= i < k ==> Literal(cases[i].0) != Top(s).vals[on]
    requires k < |cases| ==> Literal(cases[k].0) == Top(s).vals[on]
    ensures var call := if k < |cases| then cases[k].1 else default;
            && (Step(p, env, layout, s).Some? <==> CanTake(p, Top(s), call))
            && (Step(p, env, layout, s).Some? ==> Arrives(p, s, Step(p, env, layout, s).value, call))
  {
    hide Arrives, Step, CanTake, ArenaOk;
    FirstMatchChosen(cases, default, Top(s).vals[on], k);
    EdgeArrives(p, env, layout, s, Switch(on, cases, default), if k < |cases| then cases[k].1 else default);
  }

  /**
   A branch to one block that passes `a` on its first edge and `b` on its second
   binds the block's parameter to the word that selecting between them gives.
   */
  lemma BranchIsSelect(
    p: Program, env: Env, layout: Layout, s: State, cond: Value, a: Value, b: Value, merge: Block,
    ty: Type, operand: Type)
    requires EndsIn(p, s, Brif(cond, BlockCall(merge, [a]), BlockCall(merge, [b])))
    requires merge < |p[Top(s).fn].blocks| && |p[Top(s).fn].blocks[merge].params| == 1
    requires cond in Top(s).vals && a in Top(s).vals && b in Top(s).vals
    requires Top(s).vals[cond] == 0 || Top(s).vals[cond] == 1
    ensures Step(p, env, layout, s).Some?
    ensures var t := Step(p, env, layout, s).value;
            var x := p[Top(s).fn].blocks[merge].params[0];
            && t.frames != [] && Top(t).block == merge && x in Top(t).vals
            && EvalPure(Op.Select, ty, operand, [Top(s).vals[cond], Top(s).vals[a], Top(s).vals[b]])
               == Some([Top(t).vals[x]])
  {
    hide Step, EvalPure, SelectWord, ArenaOk;
    var vals := Top(s).vals;
    var v := if vals[cond] != 0 then a else b;
    assert CanTake(p, Top(s), BlockCall(merge, [v]));
    BranchGoes(p, env, layout, s, cond, BlockCall(merge, [a]), BlockCall(merge, [b]));
    SelectPicks(vals[cond], vals[a], vals[b]);
    var t := Step(p, env, layout, s).value;
    assert Arrives(p, s, t, BlockCall(merge, [v]));
    assert Operands(vals, [v])[0] == vals[v];
    assert p[Top(s).fn].blocks[merge].params[0] in Top(t).vals;
    SelectEval(ty, operand, vals[cond], vals[a], vals[b]);
  }

  lemma SelectEval(ty: Type, operand: Type, c: Word, x: Word, y: Word)
    ensures EvalPure(Op.Select, ty, operand, [c, x, y]) == Some([SelectWord(c, x, y)])
  {
    hide RawBinary, Compare, SelectWord;
  }

  // ----- calls and returns -----

  /** The top frame stands at an instruction of a function with consistent arenas. */
  ghost predicate StandsAt(p: Program, s: State, inst: InstData) {
    s.frames != [] && AtInstruction(p, Top(s)) && ArenaOk(p[Top(s).fn]) && InstructionAt(p, Top(s)) == inst
  }

  /** An internal call opens a frame at the callee's entry, its parameters holding the operands in order. */
  lemma CallGoes(p: Program, env: Env, layout: Layout, s: State, inst: InstData, callee: FuncRef)
    requires StandsAt(p, s, inst) && inst.op == CallFn(callee) && callee < |p| && ArenaOk(p[callee])
    requires AllBound(Top(s).vals, inst.args)
    ensures Step(p, env, layout, s).Some? <==>
            && |inst.args| == |p[callee].sig.params|
            && Cost(env, inst, Operands(Top(s).vals, inst.args), s.world) <= s.world.gas
    ensures Step(p, env, layout, s).Some? ==>
            var t := Step(p, env, layout, s).value;
            && t.frames != [] && t.frames[..|t.frames| - 1] == s.frames
            && Top(t).fn == callee && Top(t).block == 0 && Top(t).pc == 0
            && Holds(map[], Top(t).vals, p[callee].blocks[0].params, Operands(Top(s).vals, inst.args))
            && t.world.Richer(Cost(env, inst, Operands(Top(s).vals, inst.args), s.world)) == s.world
  {
    hide ArenaOk, Cost, Holds;
    ListsAreDistinct(p[callee]);
    EntryExists(p[callee]);
    if |inst.args| == |p[callee].sig.params| {
      BindHolds(map[], p[callee].blocks[0].params, Operands(Top(s).vals, inst.args));
    }
  }

  lemma EntryExists(f: Arena.Func)
    requires ArenaOk(f)
    ensures f.blocks != [] && |f.blocks[0].params| == |f.sig.params|
  {
  }

  /** Any other instruction leaves the frame where it is, one instruction on. */
  lemma InstructionGoes(p: Program, env: Env, layout: Layout, s: State, inst: InstData)
    requires StandsAt(p, s, inst) && !inst.op.CallFn?
    ensures var slot := layout(Top(s).fn, |s.frames| - 1, inst.results);
            var done := ExecInst(env, TypesOf(p[Top(s).fn]), slot, inst, Top(s).vals, s.world);
            && (Step(p, env, layout, s).Some? <==> done.Some?)
            && (done.Some? ==>
                  var t := Step(p, env, layout, s).value;
                  && |t.frames| == |s.frames| && t.world == done.value.1
                  && t.frames[..|t.frames| - 1] == s.frames[..|s.frames| - 1]
                  && Top(t) == Frame(Top(s).fn, Top(s).block, Top(s).pc + 1, done.value.0))
  {
    hide ExecInst, ArenaOk;
  }

  /** A return closes the frame, and the call below it goes on with the returned words as its results in order. */
  lemma ReturnGoes(p: Program, env: Env, layout: Layout, s: State, values: seq<Value>, call: InstData)
    requires EndsIn(p, s, Return(values)) && |s.frames| > 1
    requires StandsAt(p, State(s.frames[..|s.frames| - 1], s.world), call)
    ensures Step(p, env, layout, s).Some? <==> AllBound(Top(s).vals, values) && |values| == |call.results|
    ensures Step(p, env, layout, s).Some? ==>
              var (t, below) := (Step(p, env, layout, s).value, s.frames[|s.frames| - 2]);
              && |t.frames| == |s.frames| - 1 && t.world == s.world
              && t.frames[..|t.frames| - 1] == s.frames[..|s.frames| - 2]
              && Top(t).fn == below.fn && Top(t).block == below.block && Top(t).pc == below.pc + 1
              && Holds(below.vals, Top(t).vals, call.results, Operands(Top(s).vals, values))
  {
    hide ArenaOk, StepInst, Holds;
    var below := s.frames[|s.frames| - 2];
    ListsAreDistinct(p[below.fn]);
    if AllBound(Top(s).vals, values) && |values| == |call.results| {
      BindHolds(below.vals, call.results, Operands(Top(s).vals, values));
    }
  }

  /** A return from the outermost frame, and every halt, ends the run. */
  lemma HaltsEnd(p: Program, env: Env, layout: Layout, s: State, term: Terminator)
    requires EndsIn(p, s, term)
    requires !term.Jump? && !term.Brif? && !term.Switch? && (term.Return? ==> |s.frames| == 1)
    ensures Step(p, env, layout, s).None?
  {
    hide ArenaOk;
  }
}
