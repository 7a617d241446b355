/** The stack-code translator (lang/disassembler/src/code/translator.rs and the
    constructors under exp/): one list of expressions serves as operand stack and output. */
module Translator {
  import opened Wrappers
  import opened Bytecode
  import opened Exp

  datatype Env = Env(unit: Unit, retLen: nat)

  // ----- The operations on the list -----

  // What `pop_exp` returns, and what it leaves.
  function Top(list: seq<ExpLoc>): ExpLoc {
    if list == [] then ExpLoc(0, Exp.Nop) else list[|list| - 1]
  }

  function Below(list: seq<ExpLoc>): seq<ExpLoc> {
    if list == [] then [] else list[..|list| - 1]
  }

  function Nops(count: nat, at: nat): seq<ExpLoc> {
    seq(count, _ => ExpLoc(at, Exp.Nop))
  }

  // `pop_exp_vec`: the last `count` entries; a list that is too short is padded.
  function TopVec(list: seq<ExpLoc>, count: nat, at: nat): seq<ExpLoc> {
    if count > |list| then list + Nops(count - |list|, at) else list[|list| - count..]
  }

  function BelowVec(list: seq<ExpLoc>, count: nat): seq<ExpLoc> {
    if count > |list| then [] else list[..|list| - count]
  }

  // `count` times `pop_exp`, put back in list order.
  function TopList(list: seq<ExpLoc>, count: nat): seq<ExpLoc> {
    if count == 0 then [] else TopList(Below(list), count - 1) + [Top(list)]
  }

  function BelowList(list: seq<ExpLoc>, count: nat): (below: seq<ExpLoc>)
    ensures |below| <= |list|
  {
    if count == 0 then list else BelowList(Below(list), count - 1)
  }

  // ----- Expression constructors -----

  /** A new expression and the list below its operands. */
  datatype Built = Built(exp: Exp, rest: seq<ExpLoc>)

  function Basketed(x: ExpLoc): ExpLoc {
    if x.exp.BinaryOp? then ExpLoc(x.index, Basket(x)) else x
  }

  function BinaryExp(sign: Op, list: seq<ExpLoc>): (b: Built)
    ensures |b.rest| <= |list|
  {
    Built(BinaryOp(Basketed(Top(Below(list))), sign, Basketed(Top(list))), Below(Below(list)))
  }

  function WriteExp(list: seq<ExpLoc>): (b: Built)
    ensures |b.rest| <= |list|
  {
    Built(Exp.WriteRef(Top(Below(list)), Top(list)), Below(Below(list)))
  }

  function LetExp(local: nat, list: seq<ExpLoc>, at: nat): (b: Built)
    ensures |b.rest| <= |list|
  {
    if list == [] || list[|list| - 1].exp.Let? then Built(Let(local, ExpLoc(at, Exp.Nop)), list)
    else Built(Let(local, Top(list)), Below(list))
  }

  function RetExp(retLen: nat, list: seq<ExpLoc>): (b: Built)
    ensures |b.rest| <= |list|
  {
    Built(Exp.Ret(TopList(list, retLen)), BelowList(list, retLen))
  }

  function CallExp(fn: Function, types: seq<string>, list: seq<ExpLoc>, at: nat): (b: Built)
    ensures |b.rest| <= |list|
  {
    Built(PlainCall(fn, types, TopVec(list, fn.params, at)), BelowVec(list, fn.params))
  }

  function NameOf(def: StructDef, types: seq<string>): StructName {
    StructName(def.moduleName, def.name, types)
  }

  function BuildInExp(unit: Unit, kind: BuildIn, def: nat, types: seq<string>, op: Bytecode, list: seq<ExpLoc>, at: nat): (b: Built)
    ensures |b.rest| <= |list|
  {
    match unit.structDef(def)
    case None => Built(Error(op), list)
    case Some(d) =>
      var count := kind.ParametersCount();
      Built(BuildInCall(kind, NameOf(d, types), TopVec(list, count, at)), BelowVec(list, count))
  }

  function BuildInInstanceExp(unit: Unit, kind: BuildIn, inst: nat, op: Bytecode, list: seq<ExpLoc>, at: nat): (b: Built)
    ensures |b.rest| <= |list|
  {
    match unit.structInstance(inst)
    case None => Built(Error(op), list)
    case Some(i) => BuildInExp(unit, kind, i.index, i.types, op, list, at)
  }

  function Zip(names: seq<string>, values: seq<ExpLoc>): seq<PackField>
    requires |names| == |values|
  {
    seq(|names|, i requires 0 <= i < |names| => PackField(names[i], values[i]))
  }

  function PackExp(unit: Unit, def: nat, types: seq<string>, list: seq<ExpLoc>, at: nat): (b: Built)
    ensures |b.rest| <= |list|
  {
    match unit.structDef(def)
    case None => Built(Error(Bytecode.Pack(def)), list)
    case Some(d) =>
      var names := FieldNames(d);
      var values := TopVec(list, |names|, at);
      Built(Exp.Pack(NameOf(d, types), Zip(names, values)), BelowVec(list, |names|))
  }

  function PackInstanceExp(unit: Unit, inst: nat, op: Bytecode, list: seq<ExpLoc>, at: nat): (b: Built)
    ensures |b.rest| <= |list|
  {
    match unit.structInstance(inst)
    case None => Built(Error(op), list)
    case Some(i) => PackExp(unit, i.index, i.types, list, at)
  }

  function FieldExp(unit: Unit, field: nat, isMut: bool, op: Bytecode, list: seq<ExpLoc>): (b: Built)
    ensures |b.rest| <= |list|
  {
    match unit.fieldHandle(field)
    case None => Built(Error(op), list)
    case Some(h) =>
      match unit.structDef(h.owner)
      case None => Built(Error(op), list)
      case Some(d) =>
        if h.field < |FieldNames(d)|
        then Built(FieldRef(isMut, FieldNames(d)[h.field], Top(list)), Below(list))
        else Built(Exp.Nop, list)
  }

  function FieldInstanceExp(unit: Unit, inst: nat, isMut: bool, op: Bytecode, list: seq<ExpLoc>): (b: Built)
    ensures |b.rest| <= |list|
  {
    match unit.fieldInstance(inst)
    case None => Built(Error(op), list)
    case Some(field) => FieldExp(unit, field, isMut, op, list)
  }

  function ConstExp(unit: Unit, index: nat): Exp {
    match unit.constants(index)
    case AddressConst(a) => Ld(Value.Address(a))
    case BytesConst(b) => Ld(Value.Vector(b))
    case OtherConst(_) => Error(LdConst(index))
  }

  /** The definition that an unpack opcode resolves to. */
  function UnpackTarget(unit: Unit, op: Bytecode): Option<(StructDef, seq<string>)> {
    match op
    case Unpack(def) => (
      match unit.structDef(def)
      case None => None
      case Some(d) => Some((d, []))
    )
    case UnpackGeneric(inst) => (
      match unit.structInstance(inst)
      case None => None
      case Some(i) =>
        match unit.structDef(i.index)
        case None => None
        case Some(d) => Some((d, i.types))
    )
    case _ => None
  }

  // The sign of a binary opcode.
  function SignOf(op: Bytecode): Option<Op> {
    match op
    case Add => Some(Op.Add)
    case Sub => Some(Op.Sub)
    case Mul => Some(Op.Mul)
    case Mod => Some(Op.Mod)
    case Div => Some(Op.Div)
    case BitOr => Some(Op.BitOr)
    case BitAnd => Some(Op.BitAnd)
    case Xor => Some(Op.Xor)
    case Or => Some(Op.Or)
    case And => Some(Op.And)
    case Eq => Some(Op.Eq)
    case Neq => Some(Op.Neq)
    case Lt => Some(Op.Lt)
    case Gt => Some(Op.Gt)
    case Le => Some(Op.Le)
    case Ge => Some(Op.Ge)
    case Shl => Some(Op.Shl)
    case Shr => Some(Op.Shr)
    case _ => None
  }

  // The expression of an opcode that takes nothing from the list.
  function LeafOf(unit: Unit, op: Bytecode): Option<Exp> {
    match op
    case Pop => Some(Exp.Nop)
    case Nop => Some(Exp.Nop)
    case LdU8(n) => Some(Ld(Value.U8(n)))
    case LdU64(n) => Some(Ld(Value.U64(n)))
    case LdU128(n) => Some(Ld(Value.U128(n)))
    case LdConst(index) => Some(ConstExp(unit, index))
    case LdTrue => Some(Ld(Value.Bool(true)))
    case LdFalse => Some(Ld(Value.Bool(false)))
    case CopyLoc(local) => Some(Local(LocAccess.Copy, local))
    case MoveLoc(local) => Some(Local(LocAccess.Move, local))
    case MutBorrowLoc(local) => Some(Ref(true, local))
    case ImmBorrowLoc(local) => Some(Ref(false, local))
    case _ => None
  }

  // The expression of an opcode that takes one entry, made of that entry.
  function UnaryOf(op: Bytecode, x: ExpLoc): Option<Exp> {
    match op
    case Not => Some(Exp.Not(x))
    case Abort => Some(Exp.Abort(x))
    case CastU8 => Some(Cast(x, CastType.U8))
    case CastU64 => Some(Cast(x, CastType.U64))
    case CastU128 => Some(Cast(x, CastType.U128))
    case ReadRef => Some(Deref(x))
    case FreezeRef => Some(x.exp)
    case _ => None
  }

  // The storage function of an opcode, and its definition.
  function BuildInOf(op: Bytecode): Option<(BuildIn, nat)> {
    match op
    case Exists(def) => Some((BuildIn.Exists, def))
    case MoveFrom(def) => Some((BuildIn.MoveFrom, def))
    case MoveTo(def) => Some((BuildIn.MoveTo, def))
    case ImmBorrowGlobal(def) => Some((BuildIn.BorrowGlobal, def))
    case MutBorrowGlobal(def) => Some((BuildIn.BorrowGlobalMut, def))
    case _ => None
  }

  function BuildInInstanceOf(op: Bytecode): Option<(BuildIn, nat)> {
    match op
    case ExistsGeneric(inst) => Some((BuildIn.Exists, inst))
    case MoveFromGeneric(inst) => Some((BuildIn.MoveFrom, inst))
    case MoveToGeneric(inst) => Some((BuildIn.MoveTo, inst))
    case ImmBorrowGlobalGeneric(inst) => Some((BuildIn.BorrowGlobal, inst))
    case MutBorrowGlobalGeneric(inst) => Some((BuildIn.BorrowGlobalMut, inst))
    case _ => None
  }

  /** The expression of every opcode but a resolved unpack; `at` is the current index. */
  function PlainExp(env: Env, op: Bytecode, list: seq<ExpLoc>, at: nat): (b: Built)
    ensures |b.rest| <= |list|
  {
    if SignOf(op).Some? then BinaryExp(SignOf(op).value, list)
    else if LeafOf(env.unit, op).Some? then Built(LeafOf(env.unit, op).value, list)
    else if UnaryOf(op, Top(list)).Some? then Built(UnaryOf(op, Top(list)).value, Below(list))
    else if BuildInOf(op).Some? then
      BuildInExp(env.unit, BuildInOf(op).value.0, BuildInOf(op).value.1, [], op, list, at)
    else if BuildInInstanceOf(op).Some? then
      BuildInInstanceExp(env.unit, BuildInInstanceOf(op).value.0, BuildInInstanceOf(op).value.1, op, list, at)
    else StructureExp(env, op, list, at)
  }

  function StructureExp(env: Env, op: Bytecode, list: seq<ExpLoc>, at: nat): (b: Built)
    ensures |b.rest| <= |list|
  {
    if op.Ret? then RetExp(env.retLen, list)
    else if op.Call? then CallExp(env.unit.functions(op.fn), [], list, at)
    else if op.CallGeneric? then
      var i := env.unit.functionInstance(op.inst);
      CallExp(env.unit.functions(i.index), i.types, list, at)
    else if op.StLoc? then LetExp(op.local, list, at)
    else if op.WriteRef? then WriteExp(list)
    else FieldsExp(env, op, list, at)
  }

  function FieldsExp(env: Env, op: Bytecode, list: seq<ExpLoc>, at: nat): (b: Built)
    ensures |b.rest| <= |list|
  {
    if op.Pack? then PackExp(env.unit, op.def, [], list, at)
    else if op.PackGeneric? then PackInstanceExp(env.unit, op.inst, op, list, at)
    else if op.MutBorrowField? then FieldExp(env.unit, op.field, true, op, list)
    else if op.MutBorrowFieldGeneric? then FieldInstanceExp(env.unit, op.inst, true, op, list)
    else if op.ImmBorrowField? then FieldExp(env.unit, op.field, false, op, list)
    else if op.ImmBorrowFieldGeneric? then FieldInstanceExp(env.unit, op.inst, false, op, list)
    else Built(Error(op), list)
  }

  // ----- Translation -----

  // `index()` of the opcode iterator after so many calls of `next`.
  function Index(calls: nat): nat {
    if calls == 0 then 0 else calls - 1
  }

  function Reversed<T>(s: seq<T>): (r: seq<T>)
    ensures |r| == |s|
  {
    if s == [] then [] else Reversed(s[1..]) + [s[0]]
  }

  /** The list after a translation, and the number of calls of `next` by then. */
  datatype Translated = Translated(list: seq<ExpLoc>, calls: nat)

  function Remaining(code: seq<Bytecode>, calls: nat): nat {
    if calls < |code| then |code| - calls else 0
  }

  function Translation(env: Env, code: seq<Bytecode>, calls: nat, end: nat, list: seq<ExpLoc>): (r: Translated)
    ensures calls <= r.calls && |r.list| <= |list| + (r.calls - calls)
    ensures end <= Index(calls) ==> r == Translated(list, calls)
    ensures |r.list| <= |list| + (if end <= Index(calls) then 0 else end - calls + 1)
    decreases Remaining(code, calls)
  {
    if end <= Index(calls) then Translated(list, calls)
    else if calls >= |code| then Translated(list, calls + 1)
    else
      var op, n := code[calls], calls + 1;
      match UnpackTarget(env.unit, op)
      case None =>
        var b := PlainExp(env, op, list, Index(n));
        Translation(env, code, n, end, b.rest + [ExpLoc(Index(n), b.exp)])
      case Some(target) =>
        var names := FieldNames(target.0);
        var block := Translation(env, code, n, Index(n) + |names|, []);
        var exp := UnpackExp(target.0, target.1, block, Top(list));
        Translation(env, code, block.calls, end, Below(list) + [ExpLoc(Index(block.calls), exp)])
  }

  // What the opcode at position `calls` makes of the list, and how far it moves the iterator.
  function Step(env: Env, code: seq<Bytecode>, calls: nat, list: seq<ExpLoc>): (r: Translated)
    requires calls < |code|
    ensures calls < r.calls
  {
    var op, n := code[calls], calls + 1;
    match UnpackTarget(env.unit, op)
    case None =>
      var b := PlainExp(env, op, list, Index(n));
      Translated(b.rest + [ExpLoc(Index(n), b.exp)], n)
    case Some(target) =>
      var block := Translation(env, code, n, Index(n) + |FieldNames(target.0)|, []);
      var exp := UnpackExp(target.0, target.1, block, Top(list));
      Translated(Below(list) + [ExpLoc(Index(block.calls), exp)], block.calls)
  }

  lemma {:induction false} TranslationStep(env: Env, code: seq<Bytecode>, calls: nat, end: nat, list: seq<ExpLoc>)
    requires calls < |code| && Index(calls) < end
    ensures var step := Step(env, code, calls, list);
            Translation(env, code, calls, end, list) == Translation(env, code, step.calls, end, step.list)
  {
    hide UnpackTarget, PlainExp, UnpackExp, FieldNames;
  }

  lemma TranslationEnds(env: Env, code: seq<Bytecode>, calls: nat, end: nat, list: seq<ExpLoc>)
    requires calls >= |code| || end <= Index(calls)
    ensures Translation(env, code, calls, end, list) ==
            Translated(list, if end <= Index(calls) then calls else calls + 1)
  {
  }

  lemma TranslationBound(env: Env, code: seq<Bytecode>, calls: nat, blockSize: nat)
    requires calls > 0
    ensures |Translation(env, code, calls, Index(calls) + blockSize, []).list| <= blockSize
  {
  }

  /** The unpack expression made of the block that binds its fields. */
  function UnpackExp(def: StructDef, types: seq<string>, block: Translated, source: ExpLoc): Exp
    requires |block.list| <= |FieldNames(def)|
  {
    var names := FieldNames(def);
    var values := Reversed(block.list) + Nops(|names| - |block.list|, Index(block.calls));
    Exp.Unpack(NameOf(def, types), Zip(names, values), source)
  }

  // ----- The translator itself -----

  /** The opcode iterator (code/iter.rs): `index` lags one behind the slice position. */
  class BytecodeIterator {
    const code: seq<Bytecode>
    var index: Option<nat>
    var pos: nat

    constructor (code: seq<Bytecode>)
      ensures this.code == code && Valid() && Calls() == 0
    {
      this.code := code;
      index := None;
      pos := 0;
    }

    // The number of calls of `Next` so far.
    ghost function Calls(): nat
      reads this
    {
      if index.None? then 0 else index.value + 1
    }

    ghost predicate Valid()
      reads this
    {
      pos == if Calls() < |code| then Calls() else |code|
    }

    method Next() returns (op: Option<Bytecode>)
      requires Valid()
      modifies this
      ensures Valid() && Calls() == old(Calls()) + 1
      ensures op == if old(Calls()) < |code| then Some(code[old(Calls())]) else None
    {
      index := if index.Some? then Some(index.value + 1) else Some(0);
      op := None;
      if pos < |code| {
        op := Some(code[pos]);
        pos := pos + 1;
      }
    }

    method CurrentIndex() returns (i: nat)
      ensures i == Index(Calls())
    {
      i := if index.Some? then index.value else 0;
    }
  }

  class Translator {
    var expressions: seq<ExpLoc>
    const env: Env
    const iter: BytecodeIterator
    const endOffset: nat

    /** A translator for the next `opcodesCount` opcodes of a shared iterator. */
    constructor (env: Env, iter: BytecodeIterator, opcodesCount: nat)
      ensures this.env == env && this.iter == iter && expressions == []
      ensures endOffset == Index(iter.Calls()) + opcodesCount
    {
      this.env := env;
      this.iter := iter;
      expressions := [];
      endOffset := (if iter.index.Some? then iter.index.value else 0) + opcodesCount;
    }

    method PopExp() returns (e: ExpLoc)
      modifies this
      ensures e == Top(old(expressions)) && expressions == Below(old(expressions))
    {
      if expressions == [] {
        e := ExpLoc(0, Exp.Nop);
      } else {
        e := expressions[|expressions| - 1];
        expressions := expressions[..|expressions| - 1];
      }
    }

    method Pop2Exp() returns (first: ExpLoc, second: ExpLoc)
      modifies this
      ensures second == Top(old(expressions)) && first == Top(Below(old(expressions)))
      ensures expressions == Below(Below(old(expressions)))
    {
      second := PopExp();
      first := PopExp();
    }

    method PopExpVec(count: nat) returns (es: seq<ExpLoc>)
      modifies this
      ensures es == TopVec(old(expressions), count, Index(iter.Calls()))
      ensures expressions == BelowVec(old(expressions), count)
    {
      if count > |expressions| {
        var missing := PadNops(count - |expressions|);
        es := expressions + missing;
        expressions := [];
      } else {
        es := expressions[|expressions| - count..];
        expressions := expressions[..|expressions| - count];
      }
    }

    // The operands of a return: popped one by one, then reversed.
    method PopReturned(count: nat) returns (es: seq<ExpLoc>)
      modifies this
      ensures es == TopList(old(expressions), count) && expressions == BelowList(old(expressions), count)
    {
      es := [];
      for i := 0 to count
        invariant TopList(old(expressions), count) == TopList(expressions, count - i) + es
        invariant BelowList(old(expressions), count) == BelowList(expressions, count - i)
      {
        ghost var popped := es;
        var e := PopExp();
        es := [e] + es;
        assert TopList(expressions, count - i - 1) + [e] + popped == TopList(expressions, count - i - 1) + es;
      }
    }

    method LetExpression(local: nat) returns (e: Exp)
      modifies this
      ensures Built(e, expressions) == LetExp(local, old(expressions), Index(iter.Calls()))
    {
      var at := iter.CurrentIndex();
      if expressions == [] || expressions[|expressions| - 1].exp.Let? {
        e := Let(local, ExpLoc(at, Exp.Nop));
      } else {
        var value := PopExp();
        e := Let(local, value);
      }
    }

    method BinaryExpression(sign: Op) returns (e: Exp)
      modifies this
      ensures Built(e, expressions) == BinaryExp(sign, old(expressions))
    {
      var left, right := Pop2Exp();
      e := BinaryOp(Basketed(left), sign, Basketed(right));
    }

    method CallExpression(fn: Function, types: seq<string>) returns (e: Exp)
      modifies this
      ensures Built(e, expressions) == CallExp(fn, types, old(expressions), Index(iter.Calls()))
    {
      var params := PopExpVec(fn.params);
      e := PlainCall(fn, types, params);
    }

    method BuildInExpression(kind: BuildIn, def: nat, types: seq<string>, op: Bytecode) returns (e: Exp)
      modifies this
      ensures Built(e, expressions) == BuildInExp(env.unit, kind, def, types, op, old(expressions), Index(iter.Calls()))
    {
      var d := env.unit.structDef(def);
      if d.None? {
        return Error(op);
      }
      var params := PopExpVec(kind.ParametersCount());
      e := BuildInCall(kind, NameOf(d.value, types), params);
    }

    method BuildInInstance(kind: BuildIn, inst: nat, op: Bytecode) returns (e: Exp)
      modifies this
      ensures Built(e, expressions) == BuildInInstanceExp(env.unit, kind, inst, op, old(expressions), Index(iter.Calls()))
    {
      var i := env.unit.structInstance(inst);
      if i.None? {
        return Error(op);
      }
      e := BuildInExpression(kind, i.value.index, i.value.types, op);
    }

    method PackExpression(def: nat, types: seq<string>) returns (e: Exp)
      modifies this
      ensures Built(e, expressions) == PackExp(env.unit, def, types, old(expressions), Index(iter.Calls()))
    {
      var d := env.unit.structDef(def);
      if d.None? {
        return Error(Bytecode.Pack(def));
      }
      var names := FieldNames(d.value);
      var values := PopExpVec(|names|);
      e := Exp.Pack(NameOf(d.value, types), Zip(names, values));
    }

    method PackInstance(inst: nat, op: Bytecode) returns (e: Exp)
      modifies this
      ensures Built(e, expressions) == PackInstanceExp(env.unit, inst, op, old(expressions), Index(iter.Calls()))
    {
      var i := env.unit.structInstance(inst);
      if i.None? {
        return Error(op);
      }
      e := PackExpression(i.value.index, i.value.types);
    }

    method FieldExpression(field: nat, isMut: bool, op: Bytecode) returns (e: Exp)
      modifies this
      ensures Built(e, expressions) == FieldExp(env.unit, field, isMut, op, old(expressions))
    {
      var h := env.unit.fieldHandle(field);
      if h.None? {
        return Error(op);
      }
      var d := env.unit.structDef(h.value.owner);
      if d.None? {
        return Error(op);
      }
      if h.value.field >= |FieldNames(d.value)| {
        return Exp.Nop;
      }
      var instance := PopExp();
      e := FieldRef(isMut, FieldNames(d.value)[h.value.field], instance);
    }

    method FieldInstance(inst: nat, isMut: bool, op: Bytecode) returns (e: Exp)
      modifies this
      ensures Built(e, expressions) == FieldInstanceExp(env.unit, inst, isMut, op, old(expressions))
    {
      var field := env.unit.fieldInstance(inst);
      if field.None? {
        return Error(op);
      }
      e := FieldExpression(field.value, isMut, op);
    }

    /** `next_exp` on every opcode but a resolved unpack. */
    method PlainExpression(op: Bytecode) returns (e: Exp)
      modifies this
      ensures Built(e, expressions) == PlainExp(env, op, old(expressions), Index(iter.Calls()))
    {
      hide SignOf, LeafOf, BuildInOf, BuildInInstanceOf, StructureExp, UnaryOf, BinaryExp, BuildInExp, BuildInInstanceExp;
      var sign, leaf := SignOf(op), LeafOf(env.unit, op);
      var buildIn, instance := BuildInOf(op), BuildInInstanceOf(op);
      if sign.Some? {
        e := BinaryExpression(sign.value);
      } else if leaf.Some? {
        e := leaf.value;
      } else if UnaryOf(op, Top(expressions)).Some? {
        var x := PopExp();
        e := UnaryOf(op, x).value;
      } else if buildIn.Some? {
        e := BuildInExpression(buildIn.value.0, buildIn.value.1, [], op);
      } else if instance.Some? {
        e := BuildInInstance(instance.value.0, instance.value.1, op);
      } else {
        e := StructureExpression(op);
      }
    }

    method StructureExpression(op: Bytecode) returns (e: Exp)
      modifies this
      ensures Built(e, expressions) == StructureExp(env, op, old(expressions), Index(iter.Calls()))
    {
      if op.Ret? {
        var list := PopReturned(env.retLen);
        e := Exp.Ret(list);
      } else if op.Call? {
        e := CallExpression(env.unit.functions(op.fn), []);
      } else if op.CallGeneric? {
        var i := env.unit.functionInstance(op.inst);
        e := CallExpression(env.unit.functions(i.index), i.types);
      } else if op.StLoc? {
        e := LetExpression(op.local);
      } else if op.WriteRef? {
        var val, valRef := Pop2Exp();
        e := Exp.WriteRef(val, valRef);
      } else {
        e := FieldsExpression(op);
      }
    }

    method FieldsExpression(op: Bytecode) returns (e: Exp)
      modifies this
      ensures Built(e, expressions) == FieldsExp(env, op, old(expressions), Index(iter.Calls()))
    {
      if op.Pack? {
        e := PackExpression(op.def, []);
      } else if op.PackGeneric? {
        e := PackInstance(op.inst, op);
      } else if op.MutBorrowField? {
        e := FieldExpression(op.field, true, op);
      } else if op.MutBorrowFieldGeneric? {
        e := FieldInstance(op.inst, true, op);
      } else if op.ImmBorrowField? {
        e := FieldExpression(op.field, false, op);
      } else if op.ImmBorrowFieldGeneric? {
        e := FieldInstance(op.inst, false, op);
      } else {
        e := Error(op);
      }
    }

    /** `translate_block`: a nested translator consumes the next opcodes of the iterator. */
    method TranslateBlock(blockSize: nat) returns (es: seq<ExpLoc>)
      requires iter.Valid()
      modifies iter
      ensures iter.Valid()
      ensures Translated(es, iter.Calls()) ==
              Translation(env, iter.code, old(iter.Calls()), Index(old(iter.Calls())) + blockSize, [])
      decreases Remaining(iter.code, iter.Calls()), 5
    {
      var translator := new Translator(env, iter, blockSize);
      translator.Translate();
      return translator.expressions;
    }

    method UnpackExpression(def: StructDef, types: seq<string>) returns (e: Exp)
      requires iter.Valid() && iter.Calls() > 0
      modifies this, iter
      ensures iter.Valid()
      ensures var block := Translation(env, iter.code, old(iter.Calls()),
                                       Index(old(iter.Calls())) + |FieldNames(def)|, []);
              iter.Calls() == block.calls && |block.list| <= |FieldNames(def)|
              && e == UnpackExp(def, types, block, Top(old(expressions)))
              && expressions == Below(old(expressions))
      decreases Remaining(iter.code, iter.Calls()), 6
    {
      hide Translation, Reversed, Zip, FieldNames;
      var names := FieldNames(def);
      TranslationBound(env, iter.code, iter.Calls(), |names|);
      var block := TranslateBlock(|names|);
      var missing := PadNops(|names| - |block|);
      var source := PopExp();
      e := Exp.Unpack(NameOf(def, types), Zip(names, Reversed(block) + missing), source);
    }

    method PadNops(count: nat) returns (nops: seq<ExpLoc>)
      ensures nops == Nops(count, Index(iter.Calls()))
    {
      var at := iter.CurrentIndex();
      nops := [];
      for i := 0 to count
        invariant nops == Nops(i, at)
      {
        nops := nops + [ExpLoc(at, Exp.Nop)];
      }
    }

    /** `next_exp`: the expression of the opcode that was just read. */
    method NextExp(op: Bytecode) returns (e: Exp)
      requires iter.Valid() && 0 < iter.Calls() <= |iter.code| && iter.code[iter.Calls() - 1] == op
      modifies this, iter
      ensures iter.Valid()
      ensures Translated(expressions + [ExpLoc(Index(iter.Calls()), e)], iter.Calls()) ==
              Step(env, iter.code, old(iter.Calls()) - 1, old(expressions))
      decreases Remaining(iter.code, iter.Calls()), 7
    {
      hide PlainExp, UnpackExp, Translation;
      var target := UnpackTarget(env.unit, op);
      if target.Some? {
        e := UnpackExpression(target.value.0, target.value.1);
      } else {
        e := PlainExpression(op);
      }
    }

    /** Translates opcodes until the end offset is reached or the code is used up. */
    method Translate()
      requires iter.Valid()
      modifies this, iter
      ensures iter.Valid()
      ensures Translated(expressions, iter.Calls()) ==
              Translation(env, iter.code, old(iter.Calls()), endOffset, old(expressions))
      decreases Remaining(iter.code, iter.Calls()), 4
    {
      hide Step, Translation;
      ghost var code, goal := iter.code, Translation(env, iter.code, iter.Calls(), endOffset, expressions);
      var index := iter.CurrentIndex();
      while endOffset > index
        invariant iter.Valid() && index == Index(iter.Calls()) && old(iter.Calls()) <= iter.Calls()
        invariant Translation(env, code, iter.Calls(), endOffset, expressions) == goal
        decreases Remaining(code, iter.Calls())
      {
        ghost var calls := iter.Calls();
        if calls < |code| {
          TranslationStep(env, code, calls, endOffset, expressions);
        } else {
          TranslationEnds(env, code, calls, endOffset, expressions);
        }
        var op := iter.Next();
        if op.None? {
          return;
        }
        var e := NextExp(op.value);
        index := iter.CurrentIndex();
        expressions := expressions + [ExpLoc(index, e)];
      }
      TranslationEnds(env, code, iter.Calls(), endOffset, expressions);
    }
  }

  /** The translation of a function body. */
  method TranslateBody(env: Env, code: seq<Bytecode>) returns (es: seq<ExpLoc>)
    ensures es == Translation(env, code, 0, |code|, []).list
  {
    hide Translation;
    var iter := new BytecodeIterator(code);
    var translator := new Translator(env, iter, |code|);
    translator.Translate();
    return translator.expressions;
  }
}
