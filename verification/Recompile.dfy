/** Compiling the recovered expressions again gives back the opcodes. */
module Recompile {
  import opened Wrappers
  import opened Bytecode
  import opened Exp
  import opened Translator
  import opened Machine
  import opened BinderBlocks
  import opened Discipline
  import opened MeaningPreserved
  import opened UnpackMeaning

  /** The primitives of the opcodes from `pc` on; `Pop`, `Nop` and `FreezeRef` have none. */
  ghost function Performed(env: Env, code: seq<Bytecode>, pc: nat): seq<Prim>
    decreases |code| - pc
  {
    if pc >= |code| then [] else PrimOf(env, code[pc]) + Performed(env, code, pc + 1)
  }

  ghost function PrimOf(env: Env, op: Bytecode): seq<Prim> {
    match Meaning(env.unit, env.retLen, op)
    case None => []
    case Some(p) => [p]
  }

  /** The stores that bind the fields of an unpack, the last field first. */
  ghost function Stores(fs: seq<PackField>): seq<Prim> {
    if fs == [] then []
    else
      var n := |fs| - 1;
      (if fs[n].value.exp.Let? then [Store(fs[n].value.exp.local)] else []) + Stores(fs[..n])
  }

  // What an expression performs after its operands.
  ghost function Own(e: Exp): seq<Prim> {
    if Head(e).None? then [] else [Head(e).value] + if e.Unpack? then Stores(e.fields) else []
  }

  /** Post-order code of an expression. */
  ghost function Emit(e: Exp): seq<Prim>
    decreases Size(e), 0
  {
    OperandsAreSmaller(e);
    EmitAll(Operands(e)) + Own(e)
  }

  ghost function EmitAll(es: seq<ExpLoc>): seq<Prim>
    decreases SizeAll(es), 1 + |es|
  {
    if es == [] then []
    else
      assert SizeOf(es[0]) == Size(es[0].exp) <= SizeAll(es);
      Emit(es[0].exp) + EmitAll(es[1..])
  }

  lemma {:induction false} EmitConcat(a: seq<ExpLoc>, b: seq<ExpLoc>)
    ensures EmitAll(a + b) == EmitAll(a) + EmitAll(b)
    decreases |a|
  {
    hide Emit;
    if a == [] {
      assert a + b == b;
    } else {
      assert (a + b)[1..] == a[1..] + b;
      EmitConcat(a[1..], b);
    }
  }

  lemma EmitOne(x: ExpLoc)
    ensures EmitAll([x]) == Emit(x.exp)
  {
  }

  lemma {:induction false} EmitWrapped(xs: seq<ExpLoc>, ys: seq<ExpLoc>, binary: bool)
    requires AllWrapped(xs, ys, binary)
    ensures EmitAll(xs) == EmitAll(ys)
    decreases |xs|
  {
    if xs != [] {
      assert Wrapped(xs[0], ys[0], binary);
      EmitBasket(xs[0], ys[0], binary);
      hide Emit;
      forall i | 0 <= i < |xs| - 1 ensures Wrapped(xs[1..][i], ys[1..][i], binary) {
        assert Wrapped(xs[i + 1], ys[i + 1], binary);
      }
      EmitWrapped(xs[1..], ys[1..], binary);
    }
  }

  lemma EmitBasket(x: ExpLoc, y: ExpLoc, binary: bool)
    requires Wrapped(x, y, binary)
    ensures Emit(x.exp) == Emit(y.exp)
  {
    if x != y {
      EmitOne(y);
      assert Operands(x.exp) == [y];
      assert Own(x.exp) == [];
    }
  }

  /** An entry in the place of its operands adds one primitive. */
  lemma {:induction false} EmitBuilt(b: Built, p: Prim, list: seq<ExpLoc>, at: nat)
    requires Builds(b, p, list)
    ensures EmitAll(b.rest + [ExpLoc(at, b.exp)]) == EmitAll(list) + [p]
  {
    hide EmitAll, Emit, AllWrapped, Operands;
    var args := TopEntries(list, p.Arity());
    assert list == b.rest + args;
    EmitConcat(b.rest, args);
    EmitConcat(b.rest, [ExpLoc(at, b.exp)]);
    EmitOne(ExpLoc(at, b.exp));
    EmitNode(b.exp, p);
    EmitWrapped(Operands(b.exp), args, p.Binary?);
    assert EmitAll(b.rest) + (EmitAll(args) + [p]) == EmitAll(b.rest) + EmitAll(args) + [p];
  }

  lemma EmitNode(e: Exp, p: Prim)
    requires Head(e) == Some(p) && !e.Unpack?
    ensures Emit(e) == EmitAll(Operands(e)) + [p]
  {
    hide EmitAll, Operands;
  }

  lemma EmitPlain(env: Env, op: Bytecode, list: seq<ExpLoc>, shape: seq<bool>, at: nat)
    requires Usable(env, op) && Takes(env, op) <= |shape| && AllTrue(shape[|shape| - Takes(env, op)..])
    requires Fits(list, shape)
    ensures var b := PlainExp(env, op, list, at);
            EmitAll(b.rest + [ExpLoc(at, b.exp)]) == EmitAll(list) + PrimOf(env, op)
            && Fits(b.rest + [ExpLoc(at, b.exp)], ShapeAfter(env, op, shape))
  {
    FitsTop(list, shape, Takes(env, op));
    hide PlainExp, ShapeAfter, PrimOf, EmitAll, Usable, AllTrue, Fits;
    if op.Nop? || op.Pop? {
      EmitNop(env, op, list, shape, at);
    } else if op.FreezeRef? {
      EmitFrozen(env, op, list, shape, at);
    } else {
      EmitOpcode(env, op, list, shape, at);
    }
  }

  lemma EmitsNothing()
    ensures Emit(Exp.Nop) == []
  {
  }

  lemma EmitNop(env: Env, op: Bytecode, list: seq<ExpLoc>, shape: seq<bool>, at: nat)
    requires (op.Nop? || op.Pop?) && Takes(env, op) <= |shape| && Fits(list, shape)
    ensures var b := PlainExp(env, op, list, at);
            EmitAll(b.rest + [ExpLoc(at, b.exp)]) == EmitAll(list) + PrimOf(env, op)
            && Fits(b.rest + [ExpLoc(at, b.exp)], ShapeAfter(env, op, shape))
  {
    hide PlainExp, Emit, EmitAll, PrimOf, Fits, ShapeAfter;
    NopIsNop(env, op, list, at);
    EmitConcat(list, [ExpLoc(at, Exp.Nop)]);
    EmitOne(ExpLoc(at, Exp.Nop));
    EmitsNothing();
    NopFits(env, op, list, shape, at);
    assert EmitAll(list) + [] == EmitAll(list);
  }

  lemma NopFits(env: Env, op: Bytecode, list: seq<ExpLoc>, shape: seq<bool>, at: nat)
    requires (op.Nop? || op.Pop?) && Takes(env, op) <= |shape| && Fits(list, shape) && Meaning(env.unit, env.retLen, op).None?
    ensures PrimOf(env, op) == [] && Fits(list + [ExpLoc(at, Exp.Nop)], ShapeAfter(env, op, shape))
  {
    hide Meaning, ValueExp;
    assert shape[..|shape|] == shape;
  }

  lemma EmitFrozen(env: Env, op: Bytecode, list: seq<ExpLoc>, shape: seq<bool>, at: nat)
    requires op.FreezeRef? && 1 <= |shape| && shape[|shape| - 1] && Fits(list, shape)
    ensures var b := PlainExp(env, op, list, at);
            EmitAll(b.rest + [ExpLoc(at, b.exp)]) == EmitAll(list) + PrimOf(env, op)
            && Fits(b.rest + [ExpLoc(at, b.exp)], ShapeAfter(env, op, shape))
  {
    hide PlainExp, EmitAll, Emit, Meaning, PrimOf, Fits, ShapeAfter;
    FreezeIsErased(env, op, list, at);
    FreezeHasNone(env, op);
    FrozenFits(env, op, list, shape, at);
    var x := Top(list);
    EmitConcat(Below(list), [x]);
    EmitConcat(Below(list), [ExpLoc(at, x.exp)]);
    EmitOne(x);
    EmitOne(ExpLoc(at, x.exp));
  }

  lemma FreezeHasNone(env: Env, op: Bytecode)
    requires op.FreezeRef?
    ensures PrimOf(env, op) == [] && forall p: seq<Prim> :: p + PrimOf(env, op) == p
  {
  }

  lemma FrozenFits(env: Env, op: Bytecode, list: seq<ExpLoc>, shape: seq<bool>, at: nat)
    requires op.FreezeRef? && 1 <= |shape| && shape[|shape| - 1] && Fits(list, shape)
    ensures list == Below(list) + [Top(list)] && Takes(env, op) <= |shape|
    ensures Fits(Below(list) + [ExpLoc(at, Top(list).exp)], ShapeAfter(env, op, shape))
  {
    hide ValueExp, Meaning;
    assert ShapeAfter(env, op, shape) == shape;
  }

  lemma {:induction false} EmitOpcode(env: Env, op: Bytecode, list: seq<ExpLoc>, shape: seq<bool>, at: nat)
    requires Usable(env, op) && !op.Nop? && !op.Pop? && !op.FreezeRef?
    requires Takes(env, op) <= |shape| == |list| && AllValues(TopEntries(list, Takes(env, op))) && Fits(list, shape)
    ensures var b := PlainExp(env, op, list, at);
            EmitAll(b.rest + [ExpLoc(at, b.exp)]) == EmitAll(list) + PrimOf(env, op)
            && Fits(b.rest + [ExpLoc(at, b.exp)], ShapeAfter(env, op, shape))
  {
    hide PlainExp, EmitAll, Meaning, ShapeAfter, Fits, Builds, AllValues;
    var b := PlainExp(env, op, list, at);
    OpcodeBuilds(env, op, list, at);
    EmitBuilt(b, Meaning(env.unit, env.retLen, op).value, list, at);
    FitsAfter(env, op, list, shape, b, at);
  }

  // ----- Unpack -----

  ghost function TargetStores(ts: seq<Option<nat>>): seq<Prim> {
    if ts == [] then [] else (if ts[0].Some? then [Store(ts[0].value)] else []) + TargetStores(ts[1..])
  }

  lemma {:induction false} BindsStores(fs: seq<PackField>, ts: seq<Option<nat>>)
    requires Binds(fs, ts)
    ensures Stores(fs) == TargetStores(ts)
    decreases |ts|
  {
    if ts != [] {
      var n := |fs| - 1;
      assert BinderEntry(fs[n].value) && NamedBy(fs[n].value) == ts[0];
      forall i | 0 <= i < n ensures BinderEntry(fs[..n][i].value) && NamedBy(fs[..n][i].value) == ts[1..][n - 1 - i] {
        assert BinderEntry(fs[i].value) && NamedBy(fs[i].value) == ts[n - i];
      }
      BindsStores(fs[..n], ts[1..]);
    }
  }

  lemma BinderPrim(env: Env, op: Bytecode)
    requires IsBinder(op)
    ensures PrimOf(env, op) == if op.StLoc? then [Store(op.local)] else []
  {
  }

  lemma {:induction false} PerformedBinders(env: Env, code: seq<Bytecode>, n: nat, count: nat)
    requires n + count <= |code| && AllBinders(code[n..n + count])
    ensures Performed(env, code, n) == TargetStores(Targets(code[n..n + count])) + Performed(env, code, n + count)
    decreases count
  {
    hide Meaning, PrimOf;
    if count > 0 {
      BinderPrim(env, code[n]);
      var ops := code[n..n + count];
      assert IsBinder(ops[0]) && ops[1..] == code[n + 1..n + count];
      forall i | 0 <= i < count - 1 ensures IsBinder(ops[1..][i]) {
        assert IsBinder(ops[i + 1]);
      }
      PerformedBinders(env, code, n + 1, count - 1);
    }
  }

  lemma {:induction false} EmitUnpack(env: Env, code: seq<Bytecode>, pc: nat, shape: seq<bool>, list: seq<ExpLoc>)
    requires pc < |code| && UnpackedFields(env.unit, code[pc]).Some? && Disciplined(env, code, pc, shape) && Fits(list, shape)
    ensures var next := pc + 1 + |UnpackedFields(env.unit, code[pc]).value|;
            var step := Step(env, code, pc, list);
            step.calls == next && Fits(step.list, shape[..|shape| - 1] + [false])
            && EmitAll(step.list) + Performed(env, code, next) == EmitAll(list) + Performed(env, code, pc)
  {
    hide UnpackedFields, Step, ValueExp, Meaning, Binds, AllBinders, StoresTogether, EmitAll, Performed, Targets;
    var k := |UnpackedFields(env.unit, code[pc]).value|;
    var name, fs := UnpackTranslates(env, code, pc, list);
    var ts := Targets(code[pc + 1..pc + 1 + k]);
    EmitUnpacked(list, name, fs, ts, pc + k);
    PerformedUnpack(env, code, pc, Destruct(name, FieldNamesOf(fs)), k);
  }

  lemma {:induction false} EmitUnpacked(list: seq<ExpLoc>, name: StructName, fs: seq<PackField>, ts: seq<Option<nat>>, at: nat)
    requires list != [] && Binds(fs, ts)
    ensures EmitAll(list[..|list| - 1] + [ExpLoc(at, Exp.Unpack(name, fs, list[|list| - 1]))]) ==
            EmitAll(list) + ([Destruct(name, FieldNamesOf(fs))] + TargetStores(ts))
  {
    hide EmitAll, Emit, Stores, Binds, TargetStores, FieldNamesOf;
    var front, source := list[..|list| - 1], list[|list| - 1];
    var x := ExpLoc(at, Exp.Unpack(name, fs, source));
    assert list == front + [source];
    EmitConcat(front, [source]);
    EmitConcat(front, [x]);
    EmitOne(source);
    EmitOne(x);
    EmitsOfUnpack(name, fs, source);
    BindsStores(fs, ts);
    var own := [Destruct(name, FieldNamesOf(fs))] + Stores(fs);
    assert EmitAll(front) + (EmitAll([source]) + own) == EmitAll(front) + EmitAll([source]) + own;
  }

  lemma EmitsOfUnpack(name: StructName, fs: seq<PackField>, source: ExpLoc)
    ensures Emit(Exp.Unpack(name, fs, source)) == EmitAll([source]) + ([Destruct(name, FieldNamesOf(fs))] + Stores(fs))
  {
  }

  lemma PerformedUnpack(env: Env, code: seq<Bytecode>, pc: nat, p: Prim, k: nat)
    requires pc + 1 + k <= |code| && AllBinders(code[pc + 1..pc + 1 + k]) && Meaning(env.unit, env.retLen, code[pc]) == Some(p)
    ensures Performed(env, code, pc) ==
            [p] + TargetStores(Targets(code[pc + 1..pc + 1 + k])) + Performed(env, code, pc + 1 + k)
  {
    hide Meaning, Targets, AllBinders, TargetStores;
    PerformedBinders(env, code, pc + 1, k);
  }

  // ----- Whole bodies -----

  /** From any point of disciplined code, the list compiles to what it did before and then
      the primitives of the opcodes that follow. */
  lemma {:induction false} RestIsRecompiled(env: Env, code: seq<Bytecode>, pc: nat, shape: seq<bool>, list: seq<ExpLoc>)
    requires pc <= |code| && Disciplined(env, code, pc, shape) && Fits(list, shape)
    ensures EmitAll(Translation(env, code, pc, |code|, list).list) == EmitAll(list) + Performed(env, code, pc)
    decreases |code| - pc
  {
    hide UnpackedFields, Step, EmitAll, Translation, Usable, Takes, Gives, Meaning, ShapeAfter, Fits, PrimOf;
    if pc >= |code| {
      TranslationEnds(env, code, pc, |code|, list);
    } else {
      TranslationStep(env, code, pc, |code|, list);
      var op := code[pc];
      if UnpackedFields(env.unit, op).Some? {
        EmitUnpack(env, code, pc, shape, list);
        RestIsRecompiled(env, code, pc + 1 + |UnpackedFields(env.unit, op).value|, shape[..|shape| - 1] + [false],
                         Step(env, code, pc, list).list);
      } else {
        EmitPlain(env, op, list, shape, pc);
        StepOfPlain(env, code, pc, list);
        RestIsRecompiled(env, code, pc + 1, ShapeAfter(env, op, shape), Step(env, code, pc, list).list);
      }
    }
  }

  /** Compiling inverts decompiling: the post-order code of the recovered expressions of a
      disciplined body is the body, in the same order, without `Pop`, `Nop` and `FreezeRef`. */
  lemma BodyIsRecompiled(env: Env, code: seq<Bytecode>)
    requires Disciplined(env, code, 0, [])
    ensures EmitAll(Translation(env, code, 0, |code|, []).list) == Performed(env, code, 0)
  {
    hide Disciplined, Translation, Performed;
    RestIsRecompiled(env, code, 0, [], []);
    assert [] + Performed(env, code, 0) == Performed(env, code, 0);
  }
}
