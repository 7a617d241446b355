/** Unpacking: the recovered expression binds the fields as the stores behind the unpack do,
    and the main theorem on whole function bodies. */
module UnpackMeaning {
  import opened Wrappers
  import opened Bytecode
  import opened Exp
  import opened Translator
  import opened Machine
  import opened BinderBlocks
  import opened Discipline
  import opened MeaningPreserved

  // ----- The fields of the recovered unpack -----

  /** Field `i` binds the target of the store that receives its value. */
  ghost predicate Binds(fs: seq<PackField>, ts: seq<Option<nat>>) {
    |fs| == |ts|
    && forall i :: 0 <= i < |fs| ==> BinderEntry(fs[i].value) && NamedBy(fs[i].value) == ts[|ts| - 1 - i]
  }

  lemma {:induction false} ReversedAt<T>(s: seq<T>, i: nat)
    requires i < |s|
    ensures Reversed(s)[i] == s[|s| - 1 - i]
  {
    if i < |s| - 1 {
      ReversedAt(s[1..], i);
    }
  }

  lemma {:induction false} NamedAt(es: seq<ExpLoc>, i: nat)
    requires i < |es|
    ensures Named(es)[i] == NamedBy(es[i])
  {
    if i > 0 {
      NamedAt(es[1..], i - 1);
    }
  }

  // The values that the unpack expression gives to its fields.
  ghost function FieldEntries(es: seq<ExpLoc>, count: nat, at: nat): seq<ExpLoc>
    requires |es| <= count
  {
    Reversed(es) + Nops(count - |es|, at)
  }

  lemma EntryCount(es: seq<ExpLoc>, count: nat, at: nat)
    requires |es| <= count
    ensures |FieldEntries(es, count, at)| == count
  {
  }

  /** Entry `i` of the reversed and padded block names what the padded block names at the
      opposite place. */
  lemma {:induction false} EntryAt(es: seq<ExpLoc>, count: nat, at: nat, i: nat)
    requires AllBinderEntries(es) && |es| <= count && i < count
    ensures BinderEntry(FieldEntries(es, count, at)[i])
    ensures NamedBy(FieldEntries(es, count, at)[i]) == (Nones(count - |es|) + Named(es))[count - 1 - i]
  {
    if i < |es| {
      ReversedAt(es, i);
      NamedAt(es, |es| - 1 - i);
      assert BinderEntry(es[|es| - 1 - i]);
    }
  }

  /** The fields of the recovered unpack bind the locals that the stores behind it bind, if
      and only if no `Pop` stands between two of these stores. */
  lemma FieldsArePaired(ops: seq<Bytecode>, n: nat, names: seq<string>, at: nat)
    requires AllBinders(ops) && |names| == |ops|
    ensures |BlockList(ops, n, [])| <= |ops|
    ensures Binds(Zip(names, FieldEntries(BlockList(ops, n, []), |ops|, at)), Targets(ops)) <==> StoresTogether(ops)
  {
    hide BlockList, Targets, StoresTogether, BinderEntry, NamedBy, Named, Nones, AllBinders, FieldEntries;
    BlockFactsHold(ops, n);
    PlacesAreRight(ops, n);
    PaddedShape(ops, n);
    var es, ts, pad := BlockList(ops, n, []), Targets(ops), Padded(ops, n);
    EntryCount(es, |ops|, at);
    var fs := Zip(names, FieldEntries(es, |ops|, at));
    forall i | 0 <= i < |fs| ensures BinderEntry(fs[i].value) && NamedBy(fs[i].value) == pad[|pad| - 1 - i] {
      EntryAt(es, |ops|, at, i);
    }
    if Binds(fs, ts) {
      forall j | 0 <= j < |ts| ensures pad[j] == ts[j] {
        assert NamedBy(fs[|ts| - 1 - j].value) == ts[j];
      }
      assert pad == ts;
    }
  }

  // ----- Binding and storing -----

  /** The stores behind an unpack: the first takes the last field. */
  ghost function StoreAll(ts: seq<Option<nat>>, vals: seq<Value>, st: State): State
    requires |ts| == |vals|
  {
    if ts == [] then st
    else
      var n := |vals| - 1;
      StoreAll(ts[1..], vals[..n], if ts[0].Some? then st.(locals := st.locals[ts[0].value := vals[n]]) else st)
  }

  lemma {:induction false} BindStores(fs: seq<PackField>, ts: seq<Option<nat>>, vals: seq<Value>, st: State)
    requires Binds(fs, ts) && |vals| == |ts|
    ensures Bind(fs, vals, st) == Done([], StoreAll(ts, vals, st))
    decreases |ts|
  {
    if ts != [] {
      var n := |fs| - 1;
      assert BinderEntry(fs[n].value) && NamedBy(fs[n].value) == ts[0];
      forall i | 0 <= i < n ensures BinderEntry(fs[..n][i].value) && NamedBy(fs[..n][i].value) == ts[1..][n - 1 - i] {
        assert BinderEntry(fs[i].value) && NamedBy(fs[i].value) == ts[n - i];
      }
      BindStores(fs[..n], ts[1..], vals[..n], if ts[0].Some? then st.(locals := st.locals[ts[0].value := vals[n]]) else st);
    }
  }

  lemma BinderExecutes(env: Env, interp: Interp, op: Bytecode, base: seq<Value>, v: Value, st: State)
    requires IsBinder(op)
    ensures Execute(env.unit, env.retLen, interp, op, base + [v], st) ==
            Done(base, if op.StLoc? then st.(locals := st.locals[op.local := v]) else st)
  {
  }

  /** The machine runs through the binders and leaves the stack below the fields. */
  lemma {:induction false} RunBinders(env: Env, interp: Interp, code: seq<Bytecode>, n: nat, count: nat,
                                      base: seq<Value>, vals: seq<Value>, st: State)
    requires n + count <= |code| && AllBinders(code[n..n + count]) && |vals| == count
    ensures Run(env.unit, env.retLen, interp, code, n, Done(base + vals, st)) ==
            Run(env.unit, env.retLen, interp, code, n + count,
                Done(base, StoreAll(Targets(code[n..n + count]), vals, st)))
    decreases count
  {
    hide Execute;
    var ops := code[n..n + count];
    if count == 0 {
      assert base + vals == base;
    } else {
      var op, v, front := code[n], vals[count - 1], vals[..count - 1];
      assert IsBinder(ops[0]) && ops[1..] == code[n + 1..n + count];
      forall i | 0 <= i < count - 1 ensures IsBinder(ops[1..][i]) {
        assert IsBinder(ops[i + 1]);
      }
      assert base + vals == base + front + [v];
      BinderExecutes(env, interp, op, base + front, v, st);
      RunBinders(env, interp, code, n + 1, count - 1, base, front,
                 if op.StLoc? then st.(locals := st.locals[op.local := v]) else st);
    }
  }

  // ----- The unpack step -----

  lemma TargetIsMeant(env: Env, op: Bytecode)
    requires UnpackedFields(env.unit, op).Some?
    ensures UnpackTarget(env.unit, op).Some?
    ensures var t, s := UnpackTarget(env.unit, op).value, NamedStruct(env.unit, op).value;
            FieldNames(t.0) == s.1 == UnpackedFields(env.unit, op).value && NameOf(t.0, t.1) == s.0
    ensures Meaning(env.unit, env.retLen, op) ==
            Some(Destruct(NamedStruct(env.unit, op).value.0, NamedStruct(env.unit, op).value.1))
  {
  }

  /** Evaluating a list that ends in an unpack takes the last value apart and binds it. */
  lemma UnpackEval(interp: Interp, front: seq<ExpLoc>, source: ExpLoc, name: StructName, fs: seq<PackField>,
                   ts: seq<Option<nat>>, at: nat, st: State)
    requires ValueExp(source.exp) && Binds(fs, ts)
    ensures var m := EvalAll(interp, front + [source], st);
            EvalAll(interp, front + [ExpLoc(at, Exp.Unpack(name, fs, source))], st) == Unpacked(m, ts)
  {
    hide Binds, EvalAll, Eval, Finish, ValueExp, StoreAll;
    var x := ExpLoc(at, Exp.Unpack(name, fs, source));
    EvalConcat(interp, front, [source], st);
    EvalConcat(interp, front, [x], st);
    var m := EvalAll(interp, front, st);
    if m.Done? {
      EvalOne(interp, x, m.st);
      EvalOne(interp, source, m.st);
      OneValue(interp, source.exp, m.st);
      OneOperand(interp, x.exp, source, m.st);
      var n := Eval(interp, source.exp, m.st);
      if n.Done? {
        assert (m.vals + n.vals)[..|m.vals|] == m.vals && (m.vals + n.vals)[|m.vals|] == n.vals[0];
        UnpackFinish(interp, x.exp, n.vals, ts, n.st);
        assert m.vals + [] == m.vals;
      }
    }
  }

  lemma {:induction false} OneOperand(interp: Interp, e: Exp, x: ExpLoc, st: State)
    requires Operands(e) == [x]
    ensures Eval(interp, e, st) ==
            match Eval(interp, x.exp, st)
            case Done(args, st') => Finish(interp, e, args, st')
            case other => other
  {
    hide Finish, Operands, EvalAll;
    EvalOne(interp, x, st);
  }

  lemma UnpackFinish(interp: Interp, e: Exp, args: seq<Value>, ts: seq<Option<nat>>, st: State)
    requires e.Unpack? && Binds(e.fields, ts) && |args| == 1
    ensures Finish(interp, e, args, st) ==
            if args[0].Struct? && |args[0].fields| == |ts| then Done([], StoreAll(ts, args[0].fields, st)) else Stuck
  {
    if args[0].Struct? && |args[0].fields| == |ts| {
      BindStores(e.fields, ts, args[0].fields, st);
    }
  }

  /** The last value taken apart, its fields stored. */
  ghost function Unpacked(m: Outcome, ts: seq<Option<nat>>): Outcome {
    if !m.Done? then m
    else if m.vals == [] then Stuck
    else
      var n := |m.vals| - 1;
      var v := m.vals[n];
      if v.Struct? && |v.fields| == |ts| then Done(m.vals[..n], StoreAll(ts, v.fields, m.st)) else Stuck
  }

  /** The machine does the same with its stack. */
  lemma UnpackRuns(env: Env, interp: Interp, code: seq<Bytecode>, pc: nat, m: Outcome)
    requires pc < |code| && UnpackedFields(env.unit, code[pc]).Some?
    requires var next := pc + 1 + |UnpackedFields(env.unit, code[pc]).value|;
             next <= |code| && AllBinders(code[pc + 1..next])
    ensures var next := pc + 1 + |UnpackedFields(env.unit, code[pc]).value|;
            Run(env.unit, env.retLen, interp, code, pc, m) ==
            Run(env.unit, env.retLen, interp, code, next, Unpacked(m, Targets(code[pc + 1..next])))
  {
    if m.Done? {
      TargetIsMeant(env, code[pc]);
      var k := |UnpackedFields(env.unit, code[pc]).value|;
      UnpackExecutes(env, interp, code[pc], m.vals, m.st);
      var r := Execute(env.unit, env.retLen, interp, code[pc], m.vals, m.st);
      hide Execute, UnpackedFields;
      if r.Done? {
        var n := |m.vals| - 1;
        RunBinders(env, interp, code, pc + 1, k, m.vals[..n], m.vals[n].fields, m.st);
      }
    }
  }

  lemma UnpackExecutes(env: Env, interp: Interp, op: Bytecode, stack: seq<Value>, st: State)
    requires UnpackedFields(env.unit, op).Some?
    ensures var k, n := |UnpackedFields(env.unit, op).value|, |stack| - 1;
            Execute(env.unit, env.retLen, interp, op, stack, st) ==
            if stack != [] && stack[n].Struct? && |stack[n].fields| == k then Done(stack[..n] + stack[n].fields, st) else Stuck
  {
    TargetIsMeant(env, op);
    if stack != [] {
      assert LastValues(stack, 1) == [stack[|stack| - 1]];
    }
  }

  lemma UnpackedAgrees(list: Outcome, machine: Outcome, live: nat, ts: seq<Option<nat>>, exact: bool)
    requires Agree(list, machine, live, exact) && live > 0
    ensures Agree(Unpacked(list, ts), Unpacked(machine, ts), 0, exact)
  {
  }

  /** What the translator makes of a disciplined unpack and its binders. */
  lemma UnpackTranslates(env: Env, code: seq<Bytecode>, pc: nat, list: seq<ExpLoc>)
    returns (name: StructName, fs: seq<PackField>)
    requires pc < |code| && UnpackedFields(env.unit, code[pc]).Some? && list != []
    requires var next := pc + 1 + |UnpackedFields(env.unit, code[pc]).value|;
             next <= |code| && AllBinders(code[pc + 1..next]) && StoresTogether(code[pc + 1..next])
    ensures var next := pc + 1 + |UnpackedFields(env.unit, code[pc]).value|;
            Step(env, code, pc, list) ==
            Translated(list[..|list| - 1] + [ExpLoc(next - 1, Exp.Unpack(name, fs, list[|list| - 1]))], next)
            && Binds(fs, Targets(code[pc + 1..next]))
    ensures Meaning(env.unit, env.retLen, code[pc]) == Some(Destruct(name, FieldNamesOf(fs)))
  {
    hide UnpackedFields, UnpackTarget, Step, Binds, Meaning, BlockList, AllBinders, StoresTogether, NamedStruct, Zip, FieldEntries,
         Translation, FieldNames, NameOf, FieldNamesOf, FieldValues, Targets;
    TargetIsMeant(env, code[pc]);
    var names := UnpackedFields(env.unit, code[pc]).value;
    var t, next := UnpackTarget(env.unit, code[pc]).value, pc + 1 + |names|;
    var ops := code[pc + 1..next];
    BlockIsConsumed(env, code, pc + 1, |names|, []);
    FieldsArePaired(ops, pc + 1, names, Index(next));
    var es := BlockList(ops, pc + 1, []);
    EntryCount(es, |names|, Index(next));
    name, fs := NameOf(t.0, t.1), Zip(names, FieldEntries(es, |names|, Index(next)));
    UnpackStep(env, code, pc, list, Translated(es, next));
    ZippedFields(names, FieldEntries(es, |names|, Index(next)));
  }

  lemma {:induction false} UnpackStep(env: Env, code: seq<Bytecode>, pc: nat, list: seq<ExpLoc>, block: Translated)
    requires pc < |code| && UnpackTarget(env.unit, code[pc]).Some? && list != []
    requires var t := UnpackTarget(env.unit, code[pc]).value;
             block == Translation(env, code, pc + 1, Index(pc + 1) + |FieldNames(t.0)|, [])
             && |block.list| <= |FieldNames(t.0)|
    ensures var t := UnpackTarget(env.unit, code[pc]).value;
            var fs := Zip(FieldNames(t.0), FieldEntries(block.list, |FieldNames(t.0)|, Index(block.calls)));
            Step(env, code, pc, list) ==
            Translated(list[..|list| - 1] + [ExpLoc(Index(block.calls), Exp.Unpack(NameOf(t.0, t.1), fs, list[|list| - 1]))],
                       block.calls)
  {
    hide Translation, UnpackTarget, FieldNames, Zip, NameOf, Reversed;
  }

  // ----- Whole bodies -----

  ghost predicate NoPop(code: seq<Bytecode>, pc: nat) {
    forall i :: pc <= i < |code| ==> !code[i].Pop?
  }

  lemma UnpackIsDisciplined(env: Env, code: seq<Bytecode>, pc: nat, shape: seq<bool>)
    requires pc < |code| && UnpackedFields(env.unit, code[pc]).Some? && Disciplined(env, code, pc, shape)
    ensures var next := pc + 1 + |UnpackedFields(env.unit, code[pc]).value|;
            next <= |code| && AllBinders(code[pc + 1..next]) && StoresTogether(code[pc + 1..next])
            && shape != [] && shape[|shape| - 1] && Live(shape) > 0
            && Disciplined(env, code, next, shape[..|shape| - 1] + [false])
            && FinalShape(env, code, pc, shape) == FinalShape(env, code, next, shape[..|shape| - 1] + [false])
  {
    hide UnpackedFields, AllBinders, StoresTogether;
  }

  lemma PlainIsDisciplined(env: Env, interp: Interp, code: seq<Bytecode>, pc: nat, shape: seq<bool>, m: Outcome)
    requires pc < |code| && UnpackedFields(env.unit, code[pc]).None? && Disciplined(env, code, pc, shape)
    ensures var op := code[pc];
            Usable(env, op) && Takes(env, op) <= |shape| && AllTrue(shape[|shape| - Takes(env, op)..])
            && Disciplined(env, code, pc + 1, ShapeAfter(env, op, shape))
            && FinalShape(env, code, pc, shape) == FinalShape(env, code, pc + 1, ShapeAfter(env, op, shape))
            && Run(env.unit, env.retLen, interp, code, pc, m) ==
               Run(env.unit, env.retLen, interp, code, pc + 1,
                   if m.Done? then Execute(env.unit, env.retLen, interp, op, m.vals, m.st) else m)
  {
    hide UnpackedFields, Usable, Takes, ShapeAfter, AllTrue, Execute;
  }

  lemma CodeEnds(env: Env, interp: Interp, code: seq<Bytecode>, pc: nat, shape: seq<bool>, m: Outcome)
    requires pc >= |code| && Disciplined(env, code, pc, shape)
    ensures FinalShape(env, code, pc, shape) == shape && Run(env.unit, env.retLen, interp, code, pc, m) == m
  {
  }

  lemma FitsUnpacked(list: seq<ExpLoc>, shape: seq<bool>)
    requires Fits(list, shape) && shape != [] && shape[|shape| - 1]
    ensures |list| == |shape| && ValueExp(list[|list| - 1].exp)
    ensures forall x :: Fits(list[..|list| - 1] + [x], shape[..|shape| - 1] + [false])
  {
    hide ValueExp;
  }

  /** A disciplined unpack keeps the agreement. */
  lemma UnpackKeepsAgreement(env: Env, interp: Interp, code: seq<Bytecode>, pc: nat, shape: seq<bool>,
                             list: seq<ExpLoc>, st: State, m: Outcome, exact: bool)
    requires pc < |code| && UnpackedFields(env.unit, code[pc]).Some? && Disciplined(env, code, pc, shape)
    requires Fits(list, shape) && Agree(EvalAll(interp, list, st), m, Live(shape), exact)
    ensures var next := pc + 1 + |UnpackedFields(env.unit, code[pc]).value|;
            var step, shape', m' := Step(env, code, pc, list), shape[..|shape| - 1] + [false],
                                    Unpacked(m, Targets(code[pc + 1..next]));
            step.calls == next && Fits(step.list, shape')
            && Agree(EvalAll(interp, step.list, st), m', Live(shape'), exact)
            && Run(env.unit, env.retLen, interp, code, pc, m) == Run(env.unit, env.retLen, interp, code, next, m')
  {
    hide UnpackedFields, Step, EvalAll, Run, Unpacked, ValueExp, Disciplined, Fits, AllBinders, StoresTogether, Targets, Binds,
         Meaning, Agree;
    UnpackIsDisciplined(env, code, pc, shape);
    FitsUnpacked(list, shape);
    var next := pc + 1 + |UnpackedFields(env.unit, code[pc]).value|;
    var name, fs := UnpackTranslates(env, code, pc, list);
    var front, source, ts := list[..|list| - 1], list[|list| - 1], Targets(code[pc + 1..next]);
    assert list == front + [source];
    UnpackEval(interp, front, source, name, fs, ts, next - 1, st);
    LiveSnoc(shape[..|shape| - 1], false);
    UnpackedAgrees(EvalAll(interp, list, st), m, Live(shape), ts, exact);
    UnpackRuns(env, interp, code, pc, m);
  }

  /** One step of disciplined code keeps the agreement; it stays exact unless it is a `Pop`. */
  lemma StepAgrees(env: Env, interp: Interp, code: seq<Bytecode>, pc: nat, shape: seq<bool>,
                   list: seq<ExpLoc>, st: State, m: Outcome, exact: bool)
    returns (next: nat, shape': seq<bool>, m': Outcome, exact': bool)
    requires pc < |code| && Disciplined(env, code, pc, shape)
    requires Fits(list, shape) && Agree(EvalAll(interp, list, st), m, Live(shape), exact)
    ensures pc < next <= |code| && Disciplined(env, code, next, shape')
    ensures FinalShape(env, code, pc, shape) == FinalShape(env, code, next, shape')
    ensures Run(env.unit, env.retLen, interp, code, pc, m) == Run(env.unit, env.retLen, interp, code, next, m')
    ensures var step := Step(env, code, pc, list);
            step.calls == next && Fits(step.list, shape') && Agree(EvalAll(interp, step.list, st), m', Live(shape'), exact')
    ensures exact && NoPop(code, pc) ==> exact' && NoPop(code, next)
  {
    hide UnpackedFields, Step, EvalAll, Unpacked, Execute, Usable, Takes, Gives, Meaning, ShapeAfter, Fits, Live,
         Agree, NoPop, AllBinders, StoresTogether, AllTrue, Disciplined, FinalShape, Run;
    var op := code[pc];
    if UnpackedFields(env.unit, op).Some? {
      next := pc + 1 + |UnpackedFields(env.unit, op).value|;
      UnpackIsDisciplined(env, code, pc, shape);
      UnpackKeepsAgreement(env, interp, code, pc, shape, list, st, m, exact);
      shape', m', exact' := shape[..|shape| - 1] + [false], Unpacked(m, Targets(code[pc + 1..next])), exact;
    } else {
      next := pc + 1;
      PlainIsDisciplined(env, interp, code, pc, shape, m);
      PlainStep(env, interp, op, list, shape, pc, st, m, exact);
      StepOfPlain(env, code, pc, list);
      shape', exact' := ShapeAfter(env, op, shape), exact && !op.Pop?;
      m' := if m.Done? then Execute(env.unit, env.retLen, interp, op, m.vals, m.st) else m;
    }
    NoPopShrinks(code, pc, next);
  }

  /** From any point of disciplined code, translating and evaluating the rest agrees with
      running it. */
  lemma {:induction false} Simulation(env: Env, interp: Interp, code: seq<Bytecode>, pc: nat, shape: seq<bool>,
                                      list: seq<ExpLoc>, st: State, m: Outcome, exact: bool)
    requires pc <= |code| && Disciplined(env, code, pc, shape)
    requires Fits(list, shape) && Agree(EvalAll(interp, list, st), m, Live(shape), exact)
    ensures var list' := Translation(env, code, pc, |code|, list).list;
            Agree(EvalAll(interp, list', st), Run(env.unit, env.retLen, interp, code, pc, m),
                  Live(FinalShape(env, code, pc, shape)), exact && NoPop(code, pc))
    decreases |code| - pc
  {
    hide Step, EvalAll, Translation, Fits, Live, Agree, NoPop, Disciplined, FinalShape, Run;
    if pc >= |code| {
      CodeEnds(env, interp, code, pc, shape, m);
      TranslationEnds(env, code, pc, |code|, list);
      WeakerExact(EvalAll(interp, list, st), m, Live(shape), exact, exact && NoPop(code, pc));
    } else {
      TranslationStep(env, code, pc, |code|, list);
      var next, shape', m', exact' := StepAgrees(env, interp, code, pc, shape, list, st, m, exact);
      Simulation(env, interp, code, next, shape', Step(env, code, pc, list).list, st, m', exact');
      WeakerExact(EvalAll(interp, Translation(env, code, pc, |code|, list).list, st), Run(env.unit, env.retLen, interp, code, pc, m),
                  Live(FinalShape(env, code, pc, shape)), exact' && NoPop(code, next), exact && NoPop(code, pc));
    }
  }

  lemma WeakerExact(list: Outcome, machine: Outcome, live: nat, exact: bool, exact': bool)
    requires Agree(list, machine, live, exact) && (exact' ==> exact)
    ensures Agree(list, machine, live, exact')
  {
  }

  lemma NoPopShrinks(code: seq<Bytecode>, pc: nat, next: nat)
    requires pc < next && pc < |code|
    ensures NoPop(code, pc) ==> NoPop(code, next) && !code[pc].Pop?
  {
  }

  lemma StepOfPlain(env: Env, code: seq<Bytecode>, pc: nat, list: seq<ExpLoc>)
    requires pc < |code| && UnpackedFields(env.unit, code[pc]).None? && Usable(env, code[pc])
    ensures var b := PlainExp(env, code[pc], list, pc);
            Step(env, code, pc, list) == Translated(b.rest + [ExpLoc(pc, b.exp)], pc + 1)
  {
  }

  /** Meaning preservation. Let a function body be disciplined from the empty list. For any
      meaning of the primitives and any first state, running the body and evaluating the
      recovered expressions in order stop with the same abort code or the same returned
      values in the same state, or both get stuck, or both come to the end in the same state
      with the same values left to consume; with no `Pop`, with the same values altogether. */
  lemma MeaningIsPreserved(env: Env, interp: Interp, code: seq<Bytecode>, st: State)
    requires Disciplined(env, code, 0, [])
    ensures var run := Run(env.unit, env.retLen, interp, code, 0, Done([], st));
            var eval := EvalAll(interp, Translation(env, code, 0, |code|, []).list, st);
            (run.Aborted? ==> eval == run) && (run.Returned? ==> eval == run) && (run.Stuck? ==> eval == run)
            && (run.Done? ==>
                  eval.Done? && eval.st == run.st
                  && var live := Live(FinalShape(env, code, 0, []));
                     live <= |run.vals| && live <= |eval.vals|
                     && LastValues(eval.vals, live) == LastValues(run.vals, live)
                     && (NoPop(code, 0) ==> eval.vals == run.vals))
  {
    EvalNothing(interp, st);
    hide EvalAll, Run, Translation, Disciplined, FinalShape;
    Simulation(env, interp, code, 0, [], [], st, Done([], st), true);
  }
}
