/** Parentheses in recovered expressions (exp/operators.rs): they stand around every binary
    operation that is an operand of another one, and nowhere else. */
module Parentheses {
  import opened Wrappers
  import opened Bytecode
  import opened Exp
  import opened Translator

  /** At every depth, a `Basket` stands only as an operand of a binary operation and only
      around a binary operation, and no other operand of one is itself one. */
  ghost predicate Tidy(e: Exp)
    decreases e, 0
  {
    match e
    case Abort(x) => Tidy(x.exp)
    case Ld(_) => true
    case Error(_) => true
    case Local(_, _) => true
    case Cast(x, _) => Tidy(x.exp)
    case BinaryOp(x, _, y) => TidyOperand(x.exp) && TidyOperand(y.exp)
    case Basket(_) => false
    case Not(x) => Tidy(x.exp)
    case BuildInCall(_, _, params) => forall i :: 0 <= i < |params| ==> Tidy(params[i].exp)
    case PlainCall(_, _, params) => forall i :: 0 <= i < |params| ==> Tidy(params[i].exp)
    case Let(_, x) => Tidy(x.exp)
    case Pack(_, fields) => forall i :: 0 <= i < |fields| ==> Tidy(fields[i].value.exp)
    case Unpack(_, fields, source) => Tidy(source.exp) && forall i :: 0 <= i < |fields| ==> Tidy(fields[i].value.exp)
    case Ret(list) => forall i :: 0 <= i < |list| ==> Tidy(list[i].exp)
    case FieldRef(_, _, x) => Tidy(x.exp)
    case Ref(_, _) => true
    case Deref(x) => Tidy(x.exp)
    case WriteRef(x, y) => Tidy(x.exp) && Tidy(y.exp)
    case Nop => true
  }

  ghost predicate TidyOperand(e: Exp)
    decreases e, 1
  {
    !e.BinaryOp? && if e.Basket? then e.inner.exp.BinaryOp? && Tidy(e.inner.exp) else Tidy(e)
  }

  ghost predicate AllTidy(list: seq<ExpLoc>) {
    forall i :: 0 <= i < |list| ==> Tidy(list[i].exp)
  }

  // ----- What the list operations give -----

  lemma TopIsTidy(list: seq<ExpLoc>)
    requires AllTidy(list)
    ensures Tidy(Top(list).exp) && AllTidy(Below(list))
  {
  }

  lemma TopVecIsTidy(list: seq<ExpLoc>, count: nat, at: nat)
    requires AllTidy(list)
    ensures |TopVec(list, count, at)| == count && AllTidy(TopVec(list, count, at)) && AllTidy(BelowVec(list, count))
  {
  }

  lemma {:induction false} TopListIsTidy(list: seq<ExpLoc>, count: nat)
    requires AllTidy(list)
    ensures AllTidy(TopList(list, count)) && AllTidy(BelowList(list, count))
  {
    hide Tidy;
    if count > 0 {
      TopIsTidy(list);
      TopListIsTidy(Below(list), count - 1);
    }
  }

  lemma BasketedIsTidy(x: ExpLoc)
    requires Tidy(x.exp)
    ensures TidyOperand(Basketed(x).exp)
  {
  }

  lemma {:induction false} ReversedIsTidy(list: seq<ExpLoc>)
    requires AllTidy(list)
    ensures AllTidy(Reversed(list))
  {
    hide Tidy;
    if list != [] {
      ReversedIsTidy(list[1..]);
    }
  }

  // ----- One opcode -----

  ghost predicate TidyBuilt(b: Built) {
    Tidy(b.exp) && AllTidy(b.rest)
  }

  lemma BinaryIsTidy(sign: Op, list: seq<ExpLoc>)
    requires AllTidy(list)
    ensures TidyBuilt(BinaryExp(sign, list))
  {
    hide Basketed, AllTidy, TidyOperand, Top, Below;
    TopIsTidy(list);
    TopIsTidy(Below(list));
    BasketedIsTidy(Top(list));
    BasketedIsTidy(Top(Below(list)));
  }

  lemma LeafIsTidy(unit: Unit, op: Bytecode)
    requires LeafOf(unit, op).Some?
    ensures Tidy(LeafOf(unit, op).value)
  {
  }

  lemma UnaryIsTidy(op: Bytecode, x: ExpLoc)
    requires UnaryOf(op, x).Some? && Tidy(x.exp)
    ensures Tidy(UnaryOf(op, x).value)
  {
  }

  lemma BuildInIsTidy(unit: Unit, kind: BuildIn, def: nat, types: seq<string>, op: Bytecode, list: seq<ExpLoc>, at: nat)
    requires AllTidy(list)
    ensures TidyBuilt(BuildInExp(unit, kind, def, types, op, list, at))
  {
    hide TopVec, BelowVec;
    if unit.structDef(def).Some? {
      TopVecIsTidy(list, kind.ParametersCount(), at);
    }
  }

  lemma CallIsTidy(fn: Function, types: seq<string>, list: seq<ExpLoc>, at: nat)
    requires AllTidy(list)
    ensures TidyBuilt(CallExp(fn, types, list, at))
  {
    hide TopVec, BelowVec;
    TopVecIsTidy(list, fn.params, at);
  }

  lemma ZippedIsTidy(names: seq<string>, values: seq<ExpLoc>)
    requires |names| == |values| && AllTidy(values)
    ensures var fs := Zip(names, values); forall i :: 0 <= i < |fs| ==> Tidy(fs[i].value.exp)
  {
    hide Tidy;
  }

  lemma PackIsTidy(unit: Unit, def: nat, types: seq<string>, list: seq<ExpLoc>, at: nat)
    requires AllTidy(list)
    ensures TidyBuilt(PackExp(unit, def, types, list, at))
  {
    hide TopVec, BelowVec, Zip;
    if unit.structDef(def).Some? {
      var names := FieldNames(unit.structDef(def).value);
      TopVecIsTidy(list, |names|, at);
      ZippedIsTidy(names, TopVec(list, |names|, at));
    }
  }

  lemma FieldIsTidy(unit: Unit, field: nat, isMut: bool, op: Bytecode, list: seq<ExpLoc>)
    requires AllTidy(list)
    ensures TidyBuilt(FieldExp(unit, field, isMut, op, list))
  {
    hide Top, Below, FieldNames;
    TopIsTidy(list);
  }

  lemma RetIsTidy(retLen: nat, list: seq<ExpLoc>)
    requires AllTidy(list)
    ensures TidyBuilt(RetExp(retLen, list))
  {
    TopListIsTidy(list, retLen);
  }

  lemma LetIsTidy(local: nat, list: seq<ExpLoc>, at: nat)
    requires AllTidy(list)
    ensures TidyBuilt(LetExp(local, list, at))
  {
  }

  lemma WriteIsTidy(list: seq<ExpLoc>)
    requires AllTidy(list)
    ensures TidyBuilt(WriteExp(list))
  {
    TopIsTidy(list);
    TopIsTidy(Below(list));
  }

  lemma FieldsAreTidy(env: Env, op: Bytecode, list: seq<ExpLoc>, at: nat)
    requires AllTidy(list)
    ensures TidyBuilt(FieldsExp(env, op, list, at))
  {
    hide PackExp, FieldExp, AllTidy;
    var unit := env.unit;
    if op.Pack? {
      PackIsTidy(unit, op.def, [], list, at);
    } else if op.PackGeneric? && unit.structInstance(op.inst).Some? {
      var i := unit.structInstance(op.inst).value;
      PackIsTidy(unit, i.index, i.types, list, at);
    } else if op.MutBorrowField? || op.ImmBorrowField? {
      FieldIsTidy(unit, op.field, op.MutBorrowField?, op, list);
    } else if (op.MutBorrowFieldGeneric? || op.ImmBorrowFieldGeneric?) && unit.fieldInstance(op.inst).Some? {
      FieldIsTidy(unit, unit.fieldInstance(op.inst).value, op.MutBorrowFieldGeneric?, op, list);
    }
  }

  lemma StructureIsTidy(env: Env, op: Bytecode, list: seq<ExpLoc>, at: nat)
    requires AllTidy(list)
    ensures TidyBuilt(StructureExp(env, op, list, at))
  {
    hide RetExp, CallExp, LetExp, WriteExp, FieldsExp, TidyBuilt;
    if op.Ret? {
      RetIsTidy(env.retLen, list);
    } else if op.Call? {
      CallIsTidy(env.unit.functions(op.fn), [], list, at);
    } else if op.CallGeneric? {
      var i := env.unit.functionInstance(op.inst);
      CallIsTidy(env.unit.functions(i.index), i.types, list, at);
    } else if op.StLoc? {
      LetIsTidy(op.local, list, at);
    } else if op.WriteRef? {
      WriteIsTidy(list);
    } else {
      FieldsAreTidy(env, op, list, at);
    }
  }

  lemma BuildInInstanceIsTidy(unit: Unit, kind: BuildIn, inst: nat, op: Bytecode, list: seq<ExpLoc>, at: nat)
    requires AllTidy(list)
    ensures TidyBuilt(BuildInInstanceExp(unit, kind, inst, op, list, at))
  {
    hide BuildInExp, AllTidy;
    if unit.structInstance(inst).Some? {
      var i := unit.structInstance(inst).value;
      BuildInIsTidy(unit, kind, i.index, i.types, op, list, at);
    }
  }

  lemma PlainIsTidy(env: Env, op: Bytecode, list: seq<ExpLoc>, at: nat)
    requires AllTidy(list)
    ensures TidyBuilt(PlainExp(env, op, list, at))
  {
    hide SignOf, LeafOf, UnaryOf, BuildInOf, BuildInInstanceOf, BinaryExp, BuildInExp, BuildInInstanceExp, StructureExp,
         Tidy, AllTidy, Top, Below;
    TopIsTidy(list);
    if SignOf(op).Some? {
      BinaryIsTidy(SignOf(op).value, list);
    } else if LeafOf(env.unit, op).Some? {
      LeafIsTidy(env.unit, op);
    } else if UnaryOf(op, Top(list)).Some? {
      UnaryIsTidy(op, Top(list));
    } else if BuildInOf(op).Some? {
      BuildInIsTidy(env.unit, BuildInOf(op).value.0, BuildInOf(op).value.1, [], op, list, at);
    } else if BuildInInstanceOf(op).Some? {
      BuildInInstanceIsTidy(env.unit, BuildInInstanceOf(op).value.0, BuildInInstanceOf(op).value.1, op, list, at);
    } else {
      StructureIsTidy(env, op, list, at);
    }
  }

  lemma UnpackIsTidy(def: StructDef, types: seq<string>, block: Translated, source: ExpLoc)
    requires |block.list| <= |FieldNames(def)| && AllTidy(block.list) && Tidy(source.exp)
    ensures Tidy(UnpackExp(def, types, block, source))
  {
    hide Reversed, FieldNames, NameOf;
    ReversedIsTidy(block.list);
  }

  // ----- Whole translations -----

  lemma Added(list: seq<ExpLoc>, x: ExpLoc)
    requires AllTidy(list) && Tidy(x.exp)
    ensures AllTidy(list + [x])
  {
  }

  lemma {:induction false} TranslationIsTidy(env: Env, code: seq<Bytecode>, calls: nat, end: nat, list: seq<ExpLoc>)
    requires AllTidy(list)
    ensures AllTidy(Translation(env, code, calls, end, list).list)
    decreases Remaining(code, calls)
  {
    hide Tidy, AllTidy, PlainExp, UnpackExp, UnpackTarget, FieldNames, Top, Below;
    if Index(calls) < end && calls < |code| {
      var op, n := code[calls], calls + 1;
      if UnpackTarget(env.unit, op).None? {
        var b := PlainExp(env, op, list, Index(n));
        PlainIsTidy(env, op, list, Index(n));
        Added(b.rest, ExpLoc(Index(n), b.exp));
        TranslationIsTidy(env, code, n, end, b.rest + [ExpLoc(Index(n), b.exp)]);
      } else {
        var target := UnpackTarget(env.unit, op).value;
        NothingIsTidy();
        TranslationIsTidy(env, code, n, Index(n) + |FieldNames(target.0)|, []);
        var block := Translation(env, code, n, Index(n) + |FieldNames(target.0)|, []);
        TopIsTidy(list);
        UnpackIsTidy(target.0, target.1, block, Top(list));
        var x := ExpLoc(Index(block.calls), UnpackExp(target.0, target.1, block, Top(list)));
        Added(Below(list), x);
        TranslationIsTidy(env, code, block.calls, end, Below(list) + [x]);
      }
    }
  }

  lemma NothingIsTidy()
    ensures AllTidy([])
  {
  }

  /** Whatever the code, parentheses stand in the recovered body exactly where an operand of
      a binary operation is itself one. */
  lemma BodyIsTidy(env: Env, code: seq<Bytecode>)
    ensures AllTidy(Translation(env, code, 0, |code|, []).list)
  {
    NothingIsTidy();
    TranslationIsTidy(env, code, 0, |code|, []);
  }
}
