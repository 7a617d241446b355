/** Meaning preservation: evaluating the recovered expressions in order does what the
    machine does. */
module MeaningPreserved {
  import opened Wrappers
  import opened Bytecode
  import opened Exp
  import opened Translator
  import opened Machine
  import opened BinderBlocks
  import opened Discipline

  // ----- Evaluation of lists -----

  /** Evaluate more expressions after an outcome. */
  ghost function Then(interp: Interp, m: Outcome, es: seq<ExpLoc>): Outcome {
    if !m.Done? then m
    else
      match EvalAll(interp, es, m.st)
      case Done(vals, st) => Done(m.vals + vals, st)
      case other => other
  }

  lemma EvalOne(interp: Interp, x: ExpLoc, st: State)
    ensures EvalAll(interp, [x], st) == Eval(interp, x.exp, st)
  {
  }

  lemma {:induction false} EvalConcat(interp: Interp, a: seq<ExpLoc>, b: seq<ExpLoc>, st: State)
    ensures EvalAll(interp, a + b, st) == Then(interp, EvalAll(interp, a, st), b)
    decreases |a|
  {
    hide Eval;
    if a == [] {
      assert a + b == b;
      var m := EvalAll(interp, b, st);
      if m.Done? {
        assert [] + m.vals == m.vals;
      }
    } else {
      assert (a + b)[0] == a[0] && (a + b)[1..] == a[1..] + b;
      var m := Eval(interp, a[0].exp, st);
      if m.Done? {
        EvalConcat(interp, a[1..], b, m.st);
        var more := EvalAll(interp, a[1..], m.st);
        if more.Done? {
          var last := EvalAll(interp, b, more.st);
          if last.Done? {
            assert m.vals + (more.vals + last.vals) == m.vals + more.vals + last.vals;
          }
        }
      }
    }
  }

  /** Parentheses do not change what is evaluated. */
  lemma {:induction false} WrappedEval(interp: Interp, xs: seq<ExpLoc>, ys: seq<ExpLoc>, binary: bool, st: State)
    requires AllWrapped(xs, ys, binary)
    ensures EvalAll(interp, xs, st) == EvalAll(interp, ys, st)
    decreases |xs|
  {
    hide Finish;
    if xs != [] {
      assert Wrapped(xs[0], ys[0], binary);
      BasketEval(interp, xs[0], ys[0], binary, st);
      var m := Eval(interp, ys[0].exp, st);
      if m.Done? {
        forall i | 0 <= i < |xs| - 1 ensures Wrapped(xs[1..][i], ys[1..][i], binary) {
          assert Wrapped(xs[i + 1], ys[i + 1], binary);
        }
        WrappedEval(interp, xs[1..], ys[1..], binary, m.st);
      }
    }
  }

  lemma {:induction false} BasketEval(interp: Interp, x: ExpLoc, y: ExpLoc, binary: bool, st: State)
    requires Wrapped(x, y, binary)
    ensures Eval(interp, x.exp, st) == Eval(interp, y.exp, st)
  {
    if x != y {
      EvalOne(interp, y, st);
      assert Operands(x.exp) == [y];
    }
  }

  lemma {:induction false} ValueCount(interp: Interp, es: seq<ExpLoc>, st: State)
    requires AllValues(es)
    ensures EvalAll(interp, es, st).Done? ==> |EvalAll(interp, es, st).vals| == |es|
    decreases |es|
  {
    if es != [] {
      assert ValueExp(es[0].exp);
      OneValue(interp, es[0].exp, st);
      hide Eval, ValueExp;
      var m := Eval(interp, es[0].exp, st);
      if m.Done? {
        forall i | 0 <= i < |es| - 1 ensures ValueExp(es[1..][i].exp) {
          assert ValueExp(es[i + 1].exp);
        }
        ValueCount(interp, es[1..], m.st);
      }
    }
  }

  lemma OneValue(interp: Interp, e: Exp, st: State)
    requires ValueExp(e)
    ensures Eval(interp, e, st).Done? ==> |Eval(interp, e, st).vals| == 1
  {
    hide EvalAll, Operands, Finish, ValueExp;
    var m := EvalAll(interp, Operands(e), st);
    if m.Done? {
      FinishGivesOne(interp, e, m.vals, m.st);
    }
  }

  lemma FinishGivesOne(interp: Interp, e: Exp, args: seq<Value>, st: State)
    requires ValueExp(e)
    ensures Finish(interp, e, args, st).Done? ==> |Finish(interp, e, args, st).vals| == 1
  {
    hide Apply, Head, Bind;
    ValueIsNode(e);
  }

  lemma ValueIsNode(e: Exp)
    requires ValueExp(e)
    ensures !e.Basket? && !e.Nop? && !e.Unpack? && Head(e).Some? && Head(e).value.Results() == 1
  {
  }

  /** Putting an expression in the place of its operands performs its primitive on their
      values: the list is a stack machine whose stack keeps what is consumed elsewhere. */
  lemma {:induction false} NodeEval(interp: Interp, b: Built, p: Prim, list: seq<ExpLoc>, at: nat, st: State)
    requires Builds(b, p, list) && AllValues(TopEntries(list, p.Arity()))
    ensures var m := EvalAll(interp, list, st);
            EvalAll(interp, b.rest + [ExpLoc(at, b.exp)], st) ==
            if m.Done? then Perform(interp, p, m.vals, m.st) else m
  {
    hide EvalAll, Finish, Head, Operands, ValueExp, AllWrapped;
    var args, x := TopEntries(list, p.Arity()), ExpLoc(at, b.exp);
    assert list == b.rest + args;
    EvalConcat(interp, b.rest, args, st);
    EvalConcat(interp, b.rest, [x], st);
    var m := EvalAll(interp, b.rest, st);
    if m.Done? {
      EvalOne(interp, x, m.st);
      WrappedEval(interp, Operands(b.exp), args, p.Binary?, m.st);
      ValueCount(interp, args, m.st);
      var n := EvalAll(interp, args, m.st);
      if n.Done? {
        assert LastValues(m.vals + n.vals, p.Arity()) == n.vals;
        assert (m.vals + n.vals)[..|m.vals + n.vals| - p.Arity()] == m.vals;
        NodeFinish(interp, b.exp, p, n.vals, n.st);
      }
    }
  }

  lemma NodeFinish(interp: Interp, e: Exp, p: Prim, args: seq<Value>, st: State)
    requires Head(e) == Some(p) && !e.Unpack? && |args| == p.Arity()
    ensures Finish(interp, e, args, st) == Apply(interp, p, args, st)
  {
  }

  // ----- List and stack -----

  /** The values on top of which all are still to be consumed. */
  ghost function Live(shape: seq<bool>): nat {
    if shape == [] || !shape[|shape| - 1] then 0 else Live(shape[..|shape| - 1]) + 1
  }

  lemma {:induction false} LiveTop(shape: seq<bool>, count: nat)
    requires count <= |shape| && AllTrue(shape[|shape| - count..])
    ensures Live(shape) == Live(shape[..|shape| - count]) + count
    decreases count
  {
    if count > 0 {
      var front := shape[..|shape| - 1];
      assert shape[|shape| - count..][count - 1] == shape[|shape| - 1];
      var top := front[|front| - (count - 1)..];
      forall i | 0 <= i < |top| ensures top[i] {
        assert top[i] == shape[|shape| - count..][i];
      }
      LiveTop(front, count - 1);
      assert front[..|front| - (count - 1)] == shape[..|shape| - count];
    } else {
      assert shape[..|shape|] == shape;
    }
  }

  /** The list and the machine stopped alike, or they are in the same state and the values
      that are still to be consumed agree; all values do when nothing was dropped. */
  ghost predicate Agree(list: Outcome, machine: Outcome, live: nat, exact: bool) {
    list.Done? == machine.Done?
    && (!list.Done? ==> list == machine)
    && (list.Done? ==>
          list.st == machine.st && live <= |list.vals| && live <= |machine.vals|
          && LastValues(list.vals, live) == LastValues(machine.vals, live)
          && (exact ==> list.vals == machine.vals))
  }

  lemma PerformAgrees(interp: Interp, p: Prim, list: Outcome, machine: Outcome, live: nat, exact: bool)
    requires Agree(list, machine, live, exact) && list.Done? && p.Arity() <= live
    ensures machine.Done? && Agree(Perform(interp, p, list.vals, list.st), Perform(interp, p, machine.vals, machine.st),
                  live - p.Arity() + p.Results(), exact)
  {
    hide Apply, LastValues;
    assert machine.Done? && live <= |list.vals| && live <= |machine.vals|;
    var k, a, b := p.Arity(), list.vals, machine.vals;
    LastOfLast(a, live, k);
    LastOfLast(b, live, k);
    var r := Apply(interp, p, LastValues(a, k), list.st);
    if r.Done? {
      RestAgrees(a, b, live, k, r.vals);
    }
  }

  lemma LastOfLast(a: seq<Value>, live: nat, k: nat)
    requires k <= live <= |a|
    ensures |LastValues(a, live)| == live && |LastValues(a, k)| == k && LastValues(a, k) == LastValues(LastValues(a, live), k)
  {
  }

  lemma RestAgrees(a: seq<Value>, b: seq<Value>, live: nat, k: nat, r: seq<Value>)
    requires k <= live <= |a| && live <= |b| && LastValues(a, live) == LastValues(b, live)
    ensures LastValues(a[..|a| - k] + r, live - k + |r|) == LastValues(b[..|b| - k] + r, live - k + |r|)
  {
    LastOfPushed(a, live, k, r);
    LastOfPushed(b, live, k, r);
  }

  // What is on top once `k` values are replaced.
  lemma LastOfPushed(a: seq<Value>, live: nat, k: nat, r: seq<Value>)
    requires k <= live <= |a|
    ensures LastValues(a[..|a| - k] + r, live - k + |r|) == LastValues(a, live)[..live - k] + r
  {
  }

  // ----- Plain opcodes -----

  lemma FitsTop(list: seq<ExpLoc>, shape: seq<bool>, count: nat)
    requires Fits(list, shape) && count <= |shape| && AllTrue(shape[|shape| - count..])
    ensures AllValues(TopEntries(list, count))
  {
  }

  lemma FitsAfter(env: Env, op: Bytecode, list: seq<ExpLoc>, shape: seq<bool>, b: Built, at: nat)
    requires Fits(list, shape) && Usable(env, op) && !op.Nop? && !op.Pop? && !op.FreezeRef? && Takes(env, op) <= |shape|
    requires Builds(b, Meaning(env.unit, env.retLen, op).value, list)
    ensures Fits(b.rest + [ExpLoc(at, b.exp)], ShapeAfter(env, op, shape))
  {
  }

  lemma FitLengths(list: seq<ExpLoc>, shape: seq<bool>)
    requires Fits(list, shape)
    ensures |list| == |shape|
  {
  }

  /** One plain opcode keeps the agreement. */
  lemma PlainStep(env: Env, interp: Interp, op: Bytecode, list: seq<ExpLoc>, shape: seq<bool>, at: nat,
                  st: State, m: Outcome, exact: bool)
    requires Usable(env, op) && Takes(env, op) <= |shape| && AllTrue(shape[|shape| - Takes(env, op)..])
    requires Fits(list, shape) && Agree(EvalAll(interp, list, st), m, Live(shape), exact)
    ensures var b := PlainExp(env, op, list, at);
            var list', shape' := b.rest + [ExpLoc(at, b.exp)], ShapeAfter(env, op, shape);
            var m' := if m.Done? then Execute(env.unit, env.retLen, interp, op, m.vals, m.st) else m;
            Fits(list', shape') && Agree(EvalAll(interp, list', st), m', Live(shape'), exact && !op.Pop?)
  {
    hide PlainExp, ShapeAfter, Agree, Execute, EvalAll, Usable, AllTrue, AllValues, Fits;
    FitLengths(list, shape);
    LiveTop(shape, Takes(env, op));
    FitsTop(list, shape, Takes(env, op));
    if op.Nop? || op.Pop? {
      NopStep(env, interp, op, list, shape, at, st, m, exact);
    } else if op.FreezeRef? {
      FreezeStep(env, interp, op, list, shape, at, st, m, exact);
    } else {
      OpcodeStep(env, interp, op, list, shape, at, st, m, exact);
    }
  }

  // What a usable opcode does is its primitive.
  lemma OpcodeRuns(env: Env, interp: Interp, op: Bytecode, shape: seq<bool>, m: Outcome)
    requires Usable(env, op) && !op.Nop? && !op.Pop? && !op.FreezeRef? && Takes(env, op) <= |shape|
    ensures Meaning(env.unit, env.retLen, op).Some?
    ensures var p := Meaning(env.unit, env.retLen, op).value;
            Takes(env, op) == p.Arity() && p.Results() == (if Gives(env, op) then 1 else 0)
            && (m.Done? ==> Execute(env.unit, env.retLen, interp, op, m.vals, m.st) == Perform(interp, p, m.vals, m.st))
    ensures ShapeAfter(env, op, shape) == shape[..|shape| - Takes(env, op)] + [Gives(env, op)]
  {
    hide Meaning, Perform;
  }

  lemma OpcodeStep(env: Env, interp: Interp, op: Bytecode, list: seq<ExpLoc>, shape: seq<bool>, at: nat,
                   st: State, m: Outcome, exact: bool)
    requires Usable(env, op) && !op.Nop? && !op.Pop? && !op.FreezeRef?
    requires Takes(env, op) <= |shape| == |list| && AllValues(TopEntries(list, Takes(env, op)))
    requires Live(shape) == Live(shape[..|shape| - Takes(env, op)]) + Takes(env, op)
    requires Fits(list, shape) && Agree(EvalAll(interp, list, st), m, Live(shape), exact)
    ensures var b := PlainExp(env, op, list, at);
            var list', shape' := b.rest + [ExpLoc(at, b.exp)], ShapeAfter(env, op, shape);
            var m' := if m.Done? then Execute(env.unit, env.retLen, interp, op, m.vals, m.st) else m;
            Fits(list', shape') && Agree(EvalAll(interp, list', st), m', Live(shape'), exact)
  {
    hide PlainExp, Meaning, ValueExp, EvalAll, Perform, Builds, AllValues, LastValues, Fits, Execute, Takes, Gives, ShapeAfter, Usable;
    OpcodeRuns(env, interp, op, shape, m);
    var p := Meaning(env.unit, env.retLen, op).value;
    OpcodeBuilds(env, op, list, at);
    var b := PlainExp(env, op, list, at);
    NodeEval(interp, b, p, list, at, st);
    FitsAfter(env, op, list, shape, b, at);
    LiveSnoc(shape[..|shape| - Takes(env, op)], Gives(env, op));
    if m.Done? {
      PerformAgrees(interp, p, EvalAll(interp, list, st), m, Live(shape), exact);
      WeakerAgree(Perform(interp, p, EvalAll(interp, list, st).vals, EvalAll(interp, list, st).st),
                  Perform(interp, p, m.vals, m.st), Live(shape) - p.Arity() + p.Results(), Live(ShapeAfter(env, op, shape)), exact);
    }
  }

  lemma WeakerAgree(list: Outcome, machine: Outcome, live: nat, live': nat, exact: bool)
    requires Agree(list, machine, live, exact) && live' <= live
    ensures Agree(list, machine, live', exact)
  {
  }

  lemma {:induction false} LiveSnoc(shape: seq<bool>, gives: bool)
    ensures Live(shape + [gives]) == if gives then Live(shape) + 1 else 0
  {
  }

  lemma EvalNop(interp: Interp, list: seq<ExpLoc>, at: nat, st: State)
    ensures EvalAll(interp, list + [ExpLoc(at, Exp.Nop)], st) == EvalAll(interp, list, st)
  {
    EvalConcat(interp, list, [ExpLoc(at, Exp.Nop)], st);
    var m := EvalAll(interp, list, st);
    if m.Done? {
      EvalOne(interp, ExpLoc(at, Exp.Nop), m.st);
      NopEval(interp, m.st);
      hide EvalAll, Eval;
      assert m.vals + [] == m.vals;
    }
  }

  lemma NopEval(interp: Interp, st: State)
    ensures Eval(interp, Exp.Nop, st) == Done([], st)
  {
    EvalNothing(interp, st);
    hide EvalAll, Apply;
    assert Operands(Exp.Nop) == [];
  }

  lemma EvalNothing(interp: Interp, st: State)
    ensures EvalAll(interp, [], st) == Done([], st)
  {
    hide Eval;
  }

  lemma NopStep(env: Env, interp: Interp, op: Bytecode, list: seq<ExpLoc>, shape: seq<bool>, at: nat,
                st: State, m: Outcome, exact: bool)
    requires (op.Nop? || op.Pop?) && Takes(env, op) <= |shape| && (op.Pop? ==> Live(shape) > 0)
    requires Fits(list, shape) && Agree(EvalAll(interp, list, st), m, Live(shape), exact)
    ensures var b := PlainExp(env, op, list, at);
            var list', shape' := b.rest + [ExpLoc(at, b.exp)], ShapeAfter(env, op, shape);
            var m' := if m.Done? then Execute(env.unit, env.retLen, interp, op, m.vals, m.st) else m;
            Fits(list', shape') && Agree(EvalAll(interp, list', st), m', Live(shape'), exact && !op.Pop?)
  {
    EvalNop(interp, list, at, st);
    NopIsNop(env, op, list, at);
    hide PlainExp, EvalAll, Meaning;
    LiveSnoc(shape, false);
    assert shape[..|shape|] == shape;
    assert Gives(env, op) ==> op.Pop?;
  }

  lemma NopIsNop(env: Env, op: Bytecode, list: seq<ExpLoc>, at: nat)
    requires op.Nop? || op.Pop?
    ensures PlainExp(env, op, list, at) == Built(Exp.Nop, list)
    ensures Meaning(env.unit, env.retLen, op).None?
  {
  }

  lemma {:induction false} FreezeStep(env: Env, interp: Interp, op: Bytecode, list: seq<ExpLoc>, shape: seq<bool>, at: nat,
                                      st: State, m: Outcome, exact: bool)
    requires op.FreezeRef? && 1 <= |shape| && shape[|shape| - 1]
    requires Fits(list, shape) && Agree(EvalAll(interp, list, st), m, Live(shape), exact)
    ensures var b := PlainExp(env, op, list, at);
            var list', shape' := b.rest + [ExpLoc(at, b.exp)], ShapeAfter(env, op, shape);
            var m' := if m.Done? then Execute(env.unit, env.retLen, interp, op, m.vals, m.st) else m;
            Fits(list', shape') && Agree(EvalAll(interp, list', st), m', Live(shape'), exact && !op.Pop?)
  {
    hide PlainExp, EvalAll, Eval, Meaning, ValueExp, ShapeAfter, Execute, Agree;
    FreezeIsErased(env, op, list, at);
    FreezeKeepsShape(env, op, shape);
    FreezeExecutes(env, interp, op, m);
    var front, x := Below(list), Top(list);
    assert list == front + [x];
    EvalConcat(interp, front, [x], st);
    EvalConcat(interp, front, [ExpLoc(at, x.exp)], st);
    var n := EvalAll(interp, front, st);
    if n.Done? {
      EvalOne(interp, x, n.st);
      EvalOne(interp, ExpLoc(at, x.exp), n.st);
    }
    LiveTop(shape, 1);
    AgreedStack(EvalAll(interp, list, st), m, Live(shape), exact);
  }

  lemma FreezeKeepsShape(env: Env, op: Bytecode, shape: seq<bool>)
    requires op.FreezeRef? && 1 <= |shape| && shape[|shape| - 1]
    ensures Takes(env, op) == 1 && ShapeAfter(env, op, shape) == shape && AllTrue(shape[|shape| - 1..])
  {
    hide Meaning;
  }

  lemma FreezeExecutes(env: Env, interp: Interp, op: Bytecode, m: Outcome)
    requires op.FreezeRef?
    ensures m.Done? && m.vals != [] ==> Execute(env.unit, env.retLen, interp, op, m.vals, m.st) == m
  {
  }

  lemma AgreedStack(list: Outcome, machine: Outcome, live: nat, exact: bool)
    requires Agree(list, machine, live, exact) && live > 0
    ensures machine.Done? ==> machine.vals != []
  {
  }

  lemma FreezeIsErased(env: Env, op: Bytecode, list: seq<ExpLoc>, at: nat)
    requires op.FreezeRef?
    ensures PlainExp(env, op, list, at) == Built(Top(list).exp, Below(list))
  {
  }
}
