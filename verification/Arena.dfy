/** The body of a function under construction: instructions, values and blocks in growing lists, named by position. */
module Arena {
  import opened Isa
  import opened Types
  import opened Instructions

  datatype Signature = Signature(params: seq<Type>, rets: seq<Type>)

  /** The definition site of a value: a result position or a parameter position. */
  datatype ValueDef = ResultOf(inst: Inst, index: nat) | ParamOf(block: Block, index: nat)

  datatype ValueData = ValueData(ty: Type, def: ValueDef)

  datatype BlockData = BlockData(params: seq<Value>, insts: seq<Inst>, term: Option<Terminator>)

  /** The contents of a function; its entry is always block 0. */
  datatype Func = Func(sig: Signature, insts: seq<InstData>, values: seq<ValueData>, blocks: seq<BlockData>) {
    function TypeOf(v: Value): Type
      requires v < |values|
    {
      values[v].ty
    }
  }

  /** `n` consecutive handles from `first`. */
  function Handles(first: nat, n: nat): seq<nat> {
    seq(n, k => first + k)
  }

  // ----- what construction does -----

  function WithBlock(f: Func): Func {
    f.(blocks := f.blocks + [BlockData([], [], None)])
  }

  function WithParam(f: Func, b: Block, ty: Type): Func
    requires b < |f.blocks|
  {
    var block := f.blocks[b];
    f.(values := f.values + [ValueData(ty, ParamOf(b, |block.params|))],
       blocks := f.blocks[b := block.(params := block.params + [|f.values|])])
  }

  /** Appending parameters one after another. */
  function WithParams(f: Func, b: Block, types: seq<Type>): (g: Func)
    requires b < |f.blocks|
    ensures |g.blocks| == |f.blocks|
    decreases |types|
  {
    if types == [] then f else WithParam(WithParams(f, b, types[..|types| - 1]), b, types[|types| - 1])
  }

  function Minted(inst: Inst, types: seq<Type>): seq<ValueData> {
    seq(|types|, k requires 0 <= k < |types| => ValueData(types[k], ResultOf(inst, k)))
  }

  /** A new last instruction in a block, with a fresh value for each result type. */
  function WithInst(f: Func, b: Block, data: InstData, types: seq<Type>): Func
    requires b < |f.blocks|
  {
    var block := f.blocks[b];
    f.(insts := f.insts + [data.(results := Handles(|f.values|, |types|))],
       values := f.values + Minted(|f.insts|, types),
       blocks := f.blocks[b := block.(insts := block.insts + [|f.insts|])])
  }

  function WithTerminator(f: Func, b: Block, term: Terminator): Func
    requires b < |f.blocks|
  {
    f.(blocks := f.blocks[b := f.blocks[b].(term := Some(term))])
  }

  function NewFunc(sig: Signature): Func {
    WithParams(WithBlock(Func(sig, [], [], [])), 0, sig.params)
  }

  // ----- the arena object -----

  class Function {
    const sig: Signature
    var insts: seq<InstData>
    var values: seq<ValueData>
    var blocks: seq<BlockData>

    ghost function View(): Func
      reads this
    {
      Func(sig, insts, values, blocks)
    }

    constructor (sig: Signature)
      ensures View() == NewFunc(sig)
    {
      this.sig := sig;
      insts, values, blocks := [], [], [];
      new;
      var entry := CreateBlock();
      AppendParams(entry, sig.params);
    }

    method CreateBlock() returns (b: Block)
      modifies this
      ensures b == old(|blocks|) && View() == WithBlock(old(View()))
    {
      b := |blocks|;
      blocks := blocks + [BlockData([], [], None)];
    }

    method AppendParam(b: Block, ty: Type) returns (v: Value)
      requires b < |blocks|
      modifies this
      ensures v == old(|values|) && View() == WithParam(old(View()), b, ty)
    {
      var index := |blocks[b].params|;
      v := PushValue(ValueData(ty, ParamOf(b, index)));
      blocks := blocks[b := blocks[b].(params := blocks[b].params + [v])];
    }

    method AppendParams(b: Block, types: seq<Type>)
      requires b < |blocks|
      modifies this
      ensures View() == WithParams(old(View()), b, types)
    {
      for i := 0 to |types|
        invariant |blocks| == old(|blocks|)
        invariant View() == WithParams(old(View()), b, types[..i])
      {
        var v := AppendParam(b, types[i]);
        assert types[..i + 1][..i] == types[..i];
      }
      assert types[..|types|] == types;
    }

    /** The loop mints the results one at a time, for an instruction that is already in its arena. */
    method AppendInst(b: Block, data: InstData, types: seq<Type>) returns (inst: Inst)
      requires b < |blocks|
      modifies this
      ensures inst == old(|insts|) && View() == WithInst(old(View()), b, data, types)
    {
      inst := |insts|;
      insts := insts + [data.(results := [])];
      assert Handles(old(|values|), 0) == [] && Minted(inst, types[..0]) == [];
      for i := 0 to |types|
        invariant insts == old(insts) + [data.(results := Handles(old(|values|), i))]
        invariant values == old(values) + Minted(inst, types[..i])
        invariant blocks == old(blocks)
      {
        var v := PushValue(ValueData(types[i], ResultOf(inst, i)));
        insts := insts[inst := insts[inst].(results := insts[inst].results + [v])];
        assert Handles(old(|values|), i + 1) == Handles(old(|values|), i) + [v];
        assert Minted(inst, types[..i + 1]) == Minted(inst, types[..i]) + [ValueData(types[i], ResultOf(inst, i))];
      }
      assert types[..|types|] == types;
      blocks := blocks[b := blocks[b].(insts := blocks[b].insts + [inst])];
    }

    method SetTerminator(b: Block, term: Terminator)
      requires b < |blocks|
      modifies this
      ensures View() == WithTerminator(old(View()), b, term)
    {
      blocks := blocks[b := blocks[b].(term := Some(term))];
    }

    method PushValue(data: ValueData) returns (v: Value)
      modifies this`values
      ensures v == old(|values|) && values == old(values) + [data]
    {
      v := |values|;
      values := values + [data];
    }
  }

  // ----- consistency of the arenas -----

  /** The definition a value records is the list that holds it. */
  ghost predicate DefinedWhere(f: Func, v: Value)
    requires v < |f.values|
  {
    match f.values[v].def
    case ResultOf(i, k) => i < |f.insts| && k < |f.insts[i].results| && f.insts[i].results[k] == v
    case ParamOf(b, k) => b < |f.blocks| && k < |f.blocks[b].params| && f.blocks[b].params[k] == v
  }

  ghost predicate ResultSite(f: Func, i: Inst, k: nat)
    requires i < |f.insts| && k < |f.insts[i].results|
  {
    var v := f.insts[i].results[k];
    v < |f.values| && f.values[v].def == ResultOf(i, k)
  }

  ghost predicate ParamSite(f: Func, b: Block, k: nat)
    requires b < |f.blocks| && k < |f.blocks[b].params|
  {
    var v := f.blocks[b].params[k];
    v < |f.values| && f.values[v].def == ParamOf(b, k)
  }

  /** Values and definition sites point at each other, so they are in bijection. */
  ghost predicate SitesOk(f: Func) {
    && (forall v :: 0 <= v < |f.values| ==> DefinedWhere(f, v))
    && (forall i, k :: 0 <= i < |f.insts| && 0 <= k < |f.insts[i].results| ==> ResultSite(f, i, k))
    && (forall b, k :: 0 <= b < |f.blocks| && 0 <= k < |f.blocks[b].params| ==> ParamSite(f, b, k))
  }

  /** Instruction `i` is the `k`th of block `b`. */
  ghost predicate Home(f: Func, i: Inst, b: Block, k: nat) {
    b < |f.blocks| && k < |f.blocks[b].insts| && f.blocks[b].insts[k] == i
  }

  ghost predicate Housed(f: Func, i: Inst) {
    exists b, k :: Home(f, i, b, k)
  }

  /** Every instruction lies in exactly one block, once. */
  ghost predicate HomesOk(f: Func) {
    && (forall b, k :: 0 <= b < |f.blocks| && 0 <= k < |f.blocks[b].insts| ==> f.blocks[b].insts[k] < |f.insts|)
    && (forall i :: 0 <= i < |f.insts| ==> Housed(f, i))
    && (forall i, b, k, b', k' :: Home(f, i, b, k) && Home(f, i, b', k') ==> b == b' && k == k')
  }

  /** The entry block takes the signature's parameters, as values `0..P-1`. */
  ghost predicate EntryOk(f: Func) {
    && |f.blocks| > 0
    && f.blocks[0].params == Handles(0, |f.sig.params|)
    && |f.sig.params| <= |f.values|
    && forall k :: 0 <= k < |f.sig.params| ==> f.values[k].ty == f.sig.params[k]
  }

  ghost predicate ArenaOk(f: Func) {
    SitesOk(f) && HomesOk(f) && EntryOk(f)
  }

  lemma WithBlockKeeps(f: Func)
    requires ArenaOk(f)
    ensures ArenaOk(WithBlock(f))
  {
    var g := WithBlock(f);
    forall v | 0 <= v < |g.values|
      ensures DefinedWhere(g, v)
    {
      assert DefinedWhere(f, v);
    }
    forall i | 0 <= i < |g.insts|
      ensures Housed(g, i)
    {
      assert i < |f.insts| ==> Housed(f, i);
      var b, k :| Home(f, i, b, k);
      assert Home(g, i, b, k);
    }
    forall i, b, k, b', k' | Home(g, i, b, k) && Home(g, i, b', k')
      ensures b == b' && k == k'
    {
      assert Home(f, i, b, k) && Home(f, i, b', k');
    }
    forall i, k | 0 <= i < |g.insts| && 0 <= k < |g.insts[i].results|
      ensures ResultSite(g, i, k)
    {
      assert ResultSite(f, i, k);
    }
    forall b, k | 0 <= b < |g.blocks| && 0 <= k < |g.blocks[b].params|
      ensures ParamSite(g, b, k)
    {
      assert ParamSite(f, b, k);
    }
  }

  /** Sites and homes survive a new parameter; the entry does when the block is another one. */
  lemma WithParamKeeps(f: Func, b: Block, ty: Type)
    requires SitesOk(f) && HomesOk(f) && b < |f.blocks|
    ensures SitesOk(WithParam(f, b, ty)) && HomesOk(WithParam(f, b, ty))
    ensures EntryOk(f) && b != 0 ==> EntryOk(WithParam(f, b, ty))
  {
    var g := WithParam(f, b, ty);
    forall v | 0 <= v < |g.values|
      ensures DefinedWhere(g, v)
    {
      if v < |f.values| {
        assert DefinedWhere(f, v);
      }
    }
    forall i, k | 0 <= i < |g.insts| && 0 <= k < |g.insts[i].results|
      ensures ResultSite(g, i, k)
    {
      assert ResultSite(f, i, k);
    }
    forall c, k | 0 <= c < |g.blocks| && 0 <= k < |g.blocks[c].params|
      ensures ParamSite(g, c, k)
    {
      if c != b || k < |f.blocks[b].params| {
        assert ParamSite(f, c, k);
      }
    }
    SameHomes(f, g);
  }

  /** Homes depend only on the blocks' instruction lists. */
  lemma SameHomes(f: Func, g: Func)
    requires HomesOk(f) && |g.insts| == |f.insts| && |g.blocks| == |f.blocks|
    requires forall b :: 0 <= b < |f.blocks| ==> g.blocks[b].insts == f.blocks[b].insts
    ensures HomesOk(g)
  {
    forall i | 0 <= i < |g.insts|
      ensures Housed(g, i)
    {
      assert i < |f.insts| ==> Housed(f, i);
      var b, k :| Home(f, i, b, k);
      assert Home(g, i, b, k);
    }
    forall i, b, k, b', k' | Home(g, i, b, k) && Home(g, i, b', k')
      ensures b == b' && k == k'
    {
      assert Home(f, i, b, k) && Home(f, i, b', k');
    }
  }

  lemma {:induction false} WithParamsKeeps(f: Func, b: Block, types: seq<Type>)
    requires SitesOk(f) && HomesOk(f) && b < |f.blocks|
    ensures SitesOk(WithParams(f, b, types)) && HomesOk(WithParams(f, b, types))
    ensures EntryOk(f) && b != 0 ==> EntryOk(WithParams(f, b, types))
    decreases |types|
  {
    if types == [] {
    } else {
      var init := types[..|types| - 1];
      WithParamsKeeps(f, b, init);
      WithParamKeeps(WithParams(f, b, init), b, types[|types| - 1]);
    }
  }

  lemma {:induction false} WithParamsOnFresh(f: Func, b: Block, types: seq<Type>)
    requires b < |f.blocks| && f.blocks[b].params == []
    ensures var g := WithParams(f, b, types);
            && g.blocks[b].params == Handles(|f.values|, |types|)
            && |g.values| == |f.values| + |types|
            && g.sig == f.sig
            && (forall k :: 0 <= k < |types| ==> g.values[|f.values| + k].ty == types[k])
    decreases |types|
  {
    if types == [] {
    } else {
      WithParamsOnFresh(f, b, types[..|types| - 1]);
    }
  }

  lemma NewFuncOk(sig: Signature)
    ensures ArenaOk(NewFunc(sig))
  {
    var empty := WithBlock(Func(sig, [], [], []));
    WithParamsKeeps(empty, 0, sig.params);
    WithParamsOnFresh(empty, 0, sig.params);
  }

  lemma WithInstSites(f: Func, b: Block, data: InstData, types: seq<Type>)
    requires ArenaOk(f) && b < |f.blocks|
    ensures SitesOk(WithInst(f, b, data, types)) && EntryOk(WithInst(f, b, data, types))
  {
    var g := WithInst(f, b, data, types);
    forall v | 0 <= v < |g.values|
      ensures DefinedWhere(g, v)
    {
      if v < |f.values| {
        assert DefinedWhere(f, v);
      }
    }
    forall i, k | 0 <= i < |g.insts| && 0 <= k < |g.insts[i].results|
      ensures ResultSite(g, i, k)
    {
      if i < |f.insts| {
        assert ResultSite(f, i, k);
      }
    }
    forall c, k | 0 <= c < |g.blocks| && 0 <= k < |g.blocks[c].params|
      ensures ParamSite(g, c, k)
    {
      assert ParamSite(f, c, k);
    }
  }

  lemma WithInstHomes(f: Func, b: Block, data: InstData, types: seq<Type>)
    requires ArenaOk(f) && b < |f.blocks|
    ensures HomesOk(WithInst(f, b, data, types))
  {
    var g, n, at := WithInst(f, b, data, types), |f.insts|, |f.blocks[b].insts|;
    forall i: Inst, c: Block, k: nat | Home(g, i, c, k)
      ensures if i == n then c == b && k == at else Home(f, i, c, k)
    {
      if c != b || k < at {
        assert Home(f, i, c, k);
      }
    }
    forall i | 0 <= i < |g.insts|
      ensures Housed(g, i)
    {
      assert i < |f.insts| ==> Housed(f, i);
      if i < n {
        var c, k :| Home(f, i, c, k);
        assert Home(g, i, c, k);
      } else {
        assert Home(g, i, b, at);
      }
    }
  }

  lemma WithInstKeeps(f: Func, b: Block, data: InstData, types: seq<Type>)
    requires ArenaOk(f) && b < |f.blocks|
    ensures ArenaOk(WithInst(f, b, data, types))
  {
    WithInstSites(f, b, data, types);
    WithInstHomes(f, b, data, types);
  }

  lemma WithTerminatorKeeps(f: Func, b: Block, term: Terminator)
    requires ArenaOk(f) && b < |f.blocks|
    ensures ArenaOk(WithTerminator(f, b, term))
  {
    var g := WithTerminator(f, b, term);
    SameHomes(f, g);
    forall v | 0 <= v < |g.values|
      ensures DefinedWhere(g, v)
    {
      assert DefinedWhere(f, v);
    }
    forall i, k | 0 <= i < |g.insts| && 0 <= k < |g.insts[i].results|
      ensures ResultSite(g, i, k)
    {
      assert ResultSite(f, i, k);
    }
    forall c, k | 0 <= c < |g.blocks| && 0 <= k < |g.blocks[c].params|
      ensures ParamSite(g, c, k)
    {
      assert ParamSite(f, c, k);
    }
  }
}
