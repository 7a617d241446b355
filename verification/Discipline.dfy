/** The stack discipline of branch-free code, and what one opcode makes of a list that
    obeys it. */
module Discipline {
  import opened Wrappers
  import opened Bytecode
  import opened Exp
  import opened Translator
  import opened Machine
  import opened BinderBlocks

  // ----- The discipline -----

  /** The fields that an unpack opcode takes apart. */
  ghost function UnpackedFields(unit: Unit, op: Bytecode): Option<seq<string>> {
    if !(op.Unpack? || op.UnpackGeneric?) then None
    else
      match NamedStruct(unit, op)
      case None => None
      case Some(s) => Some(s.1)
  }

  /** An opcode that has a meaning, leaves at most one value, and whose constant can be shown. */
  ghost predicate Usable(env: Env, op: Bytecode) {
    op.Nop? || op.Pop? || op.FreezeRef?
    || (&& Meaning(env.unit, env.retLen, op).Some?
        && !(op.Unpack? || op.UnpackGeneric?)
        && Meaning(env.unit, env.retLen, op).value.Results() <= 1
        && (op.LdConst? ==> !env.unit.constants(op.const_).OtherConst?))
  }

  /** How many operands an opcode takes. */
  ghost function Takes(env: Env, op: Bytecode): nat {
    if op.Nop? then 0
    else if op.Pop? || op.FreezeRef? then 1
    else
      var p := Meaning(env.unit, env.retLen, op);
      if p.Some? then p.value.Arity() else 0
  }

  ghost function Gives(env: Env, op: Bytecode): bool {
    op.FreezeRef? || (Meaning(env.unit, env.retLen, op).Some? && Meaning(env.unit, env.retLen, op).value.Results() == 1)
  }

  ghost predicate AllTrue(shape: seq<bool>) {
    forall i :: 0 <= i < |shape| ==> shape[i]
  }

  /** Which entries of the list produce a value, after one opcode. A `Pop` leaves its
      operand in place and adds an entry. */
  ghost function ShapeAfter(env: Env, op: Bytecode, shape: seq<bool>): seq<bool>
    requires Takes(env, op) <= |shape|
  {
    if op.Pop? then shape + [false]
    else shape[..|shape| - Takes(env, op)] + [Gives(env, op)]
  }

  /** From position `pc` on, every operand that an opcode takes is an entry that produces a
      value, and every unpack is followed by a store or a `Pop` per field, with no `Pop`
      between two of the stores. */
  ghost predicate Disciplined(env: Env, code: seq<Bytecode>, pc: nat, shape: seq<bool>)
    decreases |code| - pc
  {
    pc >= |code| ||
    var op := code[pc];
    match UnpackedFields(env.unit, op)
    case Some(fields) =>
      var next := pc + 1 + |fields|;
      shape != [] && shape[|shape| - 1] && next <= |code|
      && AllBinders(code[pc + 1..next]) && StoresTogether(code[pc + 1..next])
      && Disciplined(env, code, next, shape[..|shape| - 1] + [false])
    case None =>
      Usable(env, op) && Takes(env, op) <= |shape| && AllTrue(shape[|shape| - Takes(env, op)..])
      && Disciplined(env, code, pc + 1, ShapeAfter(env, op, shape))
  }

  /** The shape at the end of disciplined code. */
  ghost function FinalShape(env: Env, code: seq<Bytecode>, pc: nat, shape: seq<bool>): seq<bool>
    requires Disciplined(env, code, pc, shape)
    decreases |code| - pc
  {
    if pc >= |code| then shape
    else
      match UnpackedFields(env.unit, code[pc])
      case Some(fields) => FinalShape(env, code, pc + 1 + |fields|, shape[..|shape| - 1] + [false])
      case None => FinalShape(env, code, pc + 1, ShapeAfter(env, code[pc], shape))
  }

  /** An expression that produces one value. */
  ghost predicate ValueExp(e: Exp) {
    !e.Unpack? && Head(e).Some? && Head(e).value.Results() == 1
  }

  ghost predicate AllValues(es: seq<ExpLoc>) {
    forall i :: 0 <= i < |es| ==> ValueExp(es[i].exp)
  }

  ghost predicate Fits(list: seq<ExpLoc>, shape: seq<bool>) {
    |list| == |shape| && forall i :: 0 <= i < |list| && shape[i] ==> ValueExp(list[i].exp)
  }

  // ----- The expression of one opcode -----

  /** An operand as it is, or in parentheses when it is a binary operation below another. */
  ghost predicate Wrapped(x: ExpLoc, y: ExpLoc, binary: bool) {
    x == if binary && y.exp.BinaryOp? then ExpLoc(y.index, Basket(y)) else y
  }

  ghost predicate AllWrapped(xs: seq<ExpLoc>, ys: seq<ExpLoc>, binary: bool) {
    |xs| == |ys| && forall i :: 0 <= i < |xs| ==> Wrapped(xs[i], ys[i], binary)
  }

  ghost function TopEntries(list: seq<ExpLoc>, count: nat): seq<ExpLoc>
    requires count <= |list|
  {
    list[|list| - count..]
  }

  /** The expression performs `p` on exactly the last entries of the list. */
  ghost predicate Builds(b: Built, p: Prim, list: seq<ExpLoc>) {
    p.Arity() <= |list| && b.rest == list[..|list| - p.Arity()]
    && Head(b.exp) == Some(p) && !b.exp.Unpack?
    && AllWrapped(Operands(b.exp), TopEntries(list, p.Arity()), p.Binary?)
  }

  lemma SignsAgree(op: Bytecode)
    ensures SignOf(op) == BinaryMeaning(op)
  {
  }

  lemma BinaryBuilds(sign: Op, list: seq<ExpLoc>)
    requires 2 <= |list|
    ensures Builds(BinaryExp(sign, list), Binary(sign), list)
  {
  }

  lemma LeafBuilds(unit: Unit, op: Bytecode, list: seq<ExpLoc>)
    requires LeafMeaning(unit, op).Some? && (op.LdConst? ==> !unit.constants(op.const_).OtherConst?)
    ensures LeafOf(unit, op).Some?
    ensures Builds(Built(LeafOf(unit, op).value, list), LeafMeaning(unit, op).value, list)
  {
  }

  lemma UnaryBuilds(op: Bytecode, list: seq<ExpLoc>)
    requires UnaryMeaning(op).Some? && 1 <= |list|
    ensures UnaryOf(op, Top(list)).Some?
    ensures Builds(Built(UnaryOf(op, Top(list)).value, Below(list)), UnaryMeaning(op).value, list)
  {
  }

  lemma VecOfEnough(list: seq<ExpLoc>, count: nat, at: nat)
    requires count <= |list|
    ensures TopVec(list, count, at) == TopEntries(list, count) && BelowVec(list, count) == list[..|list| - count]
  {
  }

  lemma {:induction false} ListOfEnough(list: seq<ExpLoc>, count: nat)
    requires count <= |list|
    ensures TopList(list, count) == TopEntries(list, count) && BelowList(list, count) == list[..|list| - count]
  {
    if count > 0 {
      ListOfEnough(Below(list), count - 1);
      assert TopEntries(Below(list), count - 1) + [Top(list)] == TopEntries(list, count);
    }
  }

  /** A list that is too short is taken whole. For calls, structs and storage functions the
      placeholders stand behind its entries, for a return before them. */
  lemma FewEntries(list: seq<ExpLoc>, count: nat, at: nat, i: nat)
    requires |list| < count && i < count
    ensures |TopVec(list, count, at)| == |TopList(list, count)| == count && BelowVec(list, count) == [] == BelowList(list, count)
    ensures TopVec(list, count, at)[i] == if i < |list| then list[i] else ExpLoc(at, Exp.Nop)
    ensures TopList(list, count)[i] == if i < count - |list| then ExpLoc(0, Exp.Nop) else list[i - (count - |list|)]
  {
    hide TopList, BelowList;
    FewInList(list, count);
  }

  lemma {:induction false} FewInList(list: seq<ExpLoc>, count: nat)
    requires |list| < count
    ensures |TopList(list, count)| == count && BelowList(list, count) == []
    ensures forall i :: 0 <= i < count ==>
              TopList(list, count)[i] == if i < count - |list| then ExpLoc(0, Exp.Nop) else list[i - (count - |list|)]
  {
    if list == [] {
      NoEntriesLeft(count);
    } else {
      FewInList(Below(list), count - 1);
    }
  }

  lemma {:induction false} NoEntriesLeft(count: nat)
    ensures |TopList([], count)| == count && BelowList([], count) == []
    ensures forall i :: 0 <= i < count ==> TopList([], count)[i] == ExpLoc(0, Exp.Nop)
  {
    if count > 0 {
      NoEntriesLeft(count - 1);
    }
  }

  lemma StorageBuilds(unit: Unit, op: Bytecode, list: seq<ExpLoc>, at: nat)
    requires StorageMeaning(unit, op).Some? && StructMeaning(unit, StorageMeaning(unit, op).value.1).Some?
    requires var kind := StorageMeaning(unit, op).value.0; kind.ParametersCount() <= |list|
    ensures SignOf(op).None? && LeafOf(unit, op).None? && UnaryOf(op, Top(list)).None?
    ensures BuildInOf(op).Some? || BuildInInstanceOf(op).Some?
    ensures var s := StorageMeaning(unit, op).value;
            var b := if BuildInOf(op).Some?
                     then BuildInExp(unit, BuildInOf(op).value.0, BuildInOf(op).value.1, [], op, list, at)
                     else BuildInInstanceExp(unit, BuildInInstanceOf(op).value.0, BuildInInstanceOf(op).value.1, op, list, at);
            Builds(b, Storage(s.0, StructMeaning(unit, s.1).value.0), list)
  {
    hide StructMeaning, BuildInExp, Builds;
    StorageReached(unit, op, Top(list));
    hide StorageMeaning, BuildInOf, BuildInInstanceOf;
    var s := StorageMeaning(unit, op).value;
    InstanceIsKnown(unit, s.1);
    BuildInBuilds(unit, s.0, s.1.value, op, list, at);
  }

  lemma StorageReached(unit: Unit, op: Bytecode, x: ExpLoc)
    requires StorageMeaning(unit, op).Some?
    ensures SignOf(op).None? && LeafOf(unit, op).None? && UnaryOf(op, x).None?
    ensures BuildInOf(op).Some? ==>
              StorageMeaning(unit, op).value == (BuildInOf(op).value.0, Some(Instance(BuildInOf(op).value.1, [])))
    ensures BuildInOf(op).None? ==>
              BuildInInstanceOf(op).Some?
              && StorageMeaning(unit, op).value == (BuildInInstanceOf(op).value.0, unit.structInstance(BuildInInstanceOf(op).value.1))
  {
  }

  lemma InstanceIsKnown(unit: Unit, inst: Option<Instance>)
    requires StructMeaning(unit, inst).Some?
    ensures inst.Some?
  {
  }

  lemma BuildInBuilds(unit: Unit, kind: BuildIn, inst: Instance, op: Bytecode, list: seq<ExpLoc>, at: nat)
    requires StructMeaning(unit, Some(inst)).Some? && kind.ParametersCount() <= |list|
    ensures Builds(BuildInExp(unit, kind, inst.index, inst.types, op, list, at),
                   Storage(kind, StructMeaning(unit, Some(inst)).value.0), list)
  {
    VecOfEnough(list, kind.ParametersCount(), at);
  }

  lemma ZippedFields(names: seq<string>, values: seq<ExpLoc>)
    requires |names| == |values|
    ensures FieldValues(Zip(names, values)) == values && FieldNamesOf(Zip(names, values)) == names
  {
    var fs := Zip(names, values);
    FieldsAt(fs);
    assert FieldValues(fs) == values;
    assert FieldNamesOf(fs) == names;
  }

  lemma {:induction false} FieldsAt(fs: seq<PackField>)
    ensures forall i :: 0 <= i < |fs| ==> FieldValues(fs)[i] == fs[i].value && FieldNamesOf(fs)[i] == fs[i].name
  {
    if fs != [] {
      FieldsAt(fs[1..]);
    }
  }

  lemma PackBuilds(unit: Unit, inst: Instance, list: seq<ExpLoc>, at: nat)
    requires StructMeaning(unit, Some(inst)).Some? && |StructMeaning(unit, Some(inst)).value.1| <= |list|
    ensures var s := StructMeaning(unit, Some(inst)).value;
            Builds(PackExp(unit, inst.index, inst.types, list, at), Construct(s.0, s.1), list)
  {
    var names := StructMeaning(unit, Some(inst)).value.1;
    VecOfEnough(list, |names|, at);
    ZippedFields(names, TopEntries(list, |names|));
  }

  /** What the indices of the unit do not lead to becomes an error with the opcode, and leaves
      the list alone; a generic pack whose definition is missing names the plain opcode, and a
      field beyond those of its struct becomes a placeholder. */
  lemma MissingIsError(env: Env, op: Bytecode, list: seq<ExpLoc>, at: nat)
    ensures var unit, b := env.unit, PlainExp(env, op, list, at);
            && (op.LdConst? && unit.constants(op.const_).OtherConst? ==> b == Built(Error(op), list))
            && (op.Pack? && unit.structDef(op.def).None? ==> b == Built(Error(op), list))
            && (op.PackGeneric? ==>
                  match unit.structInstance(op.inst)
                  case None => b == Built(Error(op), list)
                  case Some(i) => unit.structDef(i.index).None? ==> b == Built(Error(Bytecode.Pack(i.index)), list))
            && (op.MutBorrowField? || op.ImmBorrowField? ==> FieldMissing(unit, Some(op.field), op, b, list))
            && (op.MutBorrowFieldGeneric? || op.ImmBorrowFieldGeneric? ==> FieldMissing(unit, unit.fieldInstance(op.inst), op, b, list))
            && (op.Exists? || op.MoveFrom? || op.MoveTo? || op.ImmBorrowGlobal? || op.MutBorrowGlobal? ==>
                  unit.structDef(op.def).None? ==> b == Built(Error(op), list))
  {
    hide PlainExp, FieldsExp;
    if op.LdConst? || op.Exists? || op.MoveFrom? || op.MoveTo? || op.ImmBorrowGlobal? || op.MutBorrowGlobal? {
      ConstOrStorageReached(env, op, list, at);
    } else if IsFieldsOp(op) {
      FieldsReached(env, op, list, at);
      FieldsMissing(env, op, list, at);
    }
  }

  ghost predicate IsFieldsOp(op: Bytecode) {
    op.Pack? || op.PackGeneric? || op.MutBorrowField? || op.ImmBorrowField? || op.MutBorrowFieldGeneric? || op.ImmBorrowFieldGeneric?
  }

  lemma ConstOrStorageReached(env: Env, op: Bytecode, list: seq<ExpLoc>, at: nat)
    ensures op.LdConst? && env.unit.constants(op.const_).OtherConst? ==> PlainExp(env, op, list, at) == Built(Error(op), list)
    ensures op.Exists? || op.MoveFrom? || op.MoveTo? || op.ImmBorrowGlobal? || op.MutBorrowGlobal? ==>
              env.unit.structDef(op.def).None? ==> PlainExp(env, op, list, at) == Built(Error(op), list)
  {
    hide StructureExp, BinaryExp, TopVec, BelowVec, BuildInInstanceExp;
  }

  lemma FieldsReached(env: Env, op: Bytecode, list: seq<ExpLoc>, at: nat)
    requires IsFieldsOp(op)
    ensures PlainExp(env, op, list, at) == FieldsExp(env, op, list, at)
  {
    hide FieldsExp, BinaryExp, BuildInExp, BuildInInstanceExp;
  }

  lemma FieldsMissing(env: Env, op: Bytecode, list: seq<ExpLoc>, at: nat)
    requires IsFieldsOp(op)
    ensures var unit, b := env.unit, FieldsExp(env, op, list, at);
            && (op.Pack? && unit.structDef(op.def).None? ==> b == Built(Error(op), list))
            && (op.PackGeneric? ==>
                  match unit.structInstance(op.inst)
                  case None => b == Built(Error(op), list)
                  case Some(i) => unit.structDef(i.index).None? ==> b == Built(Error(Bytecode.Pack(i.index)), list))
            && (op.MutBorrowField? || op.ImmBorrowField? ==> FieldMissing(unit, Some(op.field), op, b, list))
            && (op.MutBorrowFieldGeneric? || op.ImmBorrowFieldGeneric? ==> FieldMissing(unit, unit.fieldInstance(op.inst), op, b, list))
  {
    hide TopVec, BelowVec, Zip;
  }

  ghost predicate FieldMissing(unit: Unit, field: Option<nat>, op: Bytecode, b: Built, list: seq<ExpLoc>) {
    if field.None? || unit.fieldHandle(field.value).None? || unit.structDef(unit.fieldHandle(field.value).value.owner).None?
    then b == Built(Error(op), list)
    else
      var h := unit.fieldHandle(field.value).value;
      h.field >= |FieldNames(unit.structDef(h.owner).value)| ==> b == Built(Exp.Nop, list)
  }

  /** Field `i` of a recovered pack has the name that is declared for field `i`, and the value
      that was pushed for it; a native struct has no fields. */
  lemma PackFieldNames(unit: Unit, def: nat, types: seq<string>, list: seq<ExpLoc>, at: nat)
    requires unit.structDef(def).Some?
    ensures var d, e := unit.structDef(def).value, PackExp(unit, def, types, list, at).exp;
            e.Pack? && e.name == StructName(d.moduleName, d.name, types)
            && match d.info
               case Native => e.fields == []
               case Declared(fields) =>
                 |e.fields| == |fields| && (forall i :: 0 <= i < |fields| ==> e.fields[i].name == fields[i])
                 && (|fields| <= |list| ==> forall i :: 0 <= i < |fields| ==> e.fields[i].value == list[|list| - |fields| + i])
  {
  }

  /** So has field `i` of a recovered unpack. */
  lemma UnpackFieldNames(def: StructDef, types: seq<string>, block: Translated, source: ExpLoc)
    requires |block.list| <= |FieldNames(def)|
    ensures var e := UnpackExp(def, types, block, source);
            e.Unpack? && e.name == StructName(def.moduleName, def.name, types) && e.source == source
            && match def.info
               case Native => e.fields == []
               case Declared(fields) => |e.fields| == |fields| && forall i :: 0 <= i < |fields| ==> e.fields[i].name == fields[i]
  {
    hide Reversed;
  }

  lemma CallBuilds(unit: Unit, inst: Instance, list: seq<ExpLoc>, at: nat)
    requires unit.functions(inst.index).params <= |list|
    ensures Builds(CallExp(unit.functions(inst.index), inst.types, list, at), CallPrim(unit, inst), list)
  {
  }

  lemma FieldBuilds(unit: Unit, field: nat, isMut: bool, op: Bytecode, list: seq<ExpLoc>)
    requires FieldPrim(unit, Some(field), isMut).Some? && 1 <= |list|
    ensures Builds(FieldExp(unit, field, isMut, op, list), FieldPrim(unit, Some(field), isMut).value, list)
  {
    hide Builds;
    FieldIsNamed(unit, field, isMut, op, list);
    RefBuilds(isMut, FieldMeaning(unit, Some(field)).value, list);
  }

  lemma FieldIsNamed(unit: Unit, field: nat, isMut: bool, op: Bytecode, list: seq<ExpLoc>)
    requires FieldPrim(unit, Some(field), isMut).Some?
    ensures FieldMeaning(unit, Some(field)).Some?
    ensures var name := FieldMeaning(unit, Some(field)).value;
            FieldPrim(unit, Some(field), isMut).value == Field(isMut, name)
            && FieldExp(unit, field, isMut, op, list) == Built(FieldRef(isMut, name, Top(list)), Below(list))
  {
  }

  lemma RefBuilds(isMut: bool, name: string, list: seq<ExpLoc>)
    requires 1 <= |list|
    ensures Builds(Built(FieldRef(isMut, name, Top(list)), Below(list)), Field(isMut, name), list)
  {
    assert TopEntries(list, 1) == [Top(list)];
  }

  lemma RetBuilds(retLen: nat, list: seq<ExpLoc>)
    requires retLen <= |list|
    ensures Builds(RetExp(retLen, list), Give(retLen), list)
  {
    hide TopList, BelowList;
    ListOfEnough(list, retLen);
  }

  lemma WriteBuilds(list: seq<ExpLoc>)
    requires 2 <= |list|
    ensures Builds(WriteExp(list), Write, list)
  {
  }

  // The last-entry rule does not strike: a value is not a `Let`.
  lemma LetBuilds(local: nat, list: seq<ExpLoc>, at: nat)
    requires 1 <= |list| && ValueExp(list[|list| - 1].exp)
    ensures Builds(LetExp(local, list, at), Store(local), list)
  {
  }

  lemma StructureBuilds(env: Env, op: Bytecode, list: seq<ExpLoc>, at: nat)
    requires RemainingMeaning(env.unit, env.retLen, op).Some?
    requires var p := RemainingMeaning(env.unit, env.retLen, op).value;
             p.Arity() <= |list| && AllValues(TopEntries(list, p.Arity()))
    ensures Builds(StructureExp(env, op, list, at), RemainingMeaning(env.unit, env.retLen, op).value, list)
  {
    hide Builds, RetExp, CallExp, LetExp, WriteExp, FieldsExp, AllValues, StructureExp, RemainingMeaning, Prim.Arity;
    var unit := env.unit;
    StructureReached(env, op, list, at);
    if op.Ret? {
      RetBuilds(env.retLen, list);
    } else if op.Call? {
      CallBuilds(unit, Instance(op.fn, []), list, at);
    } else if op.CallGeneric? {
      CallBuilds(unit, unit.functionInstance(op.inst), list, at);
    } else if op.StLoc? {
      TopIsValue(list);
      LetBuilds(op.local, list, at);
    } else if op.WriteRef? {
      WriteBuilds(list);
    } else {
      FieldsBuild(env, op, list, at);
    }
  }

  lemma StructureReached(env: Env, op: Bytecode, list: seq<ExpLoc>, at: nat)
    requires RemainingMeaning(env.unit, env.retLen, op).Some?
    ensures var unit, p, b := env.unit, RemainingMeaning(env.unit, env.retLen, op).value, StructureExp(env, op, list, at);
            && (op.Ret? ==> p == Give(env.retLen) && p.Arity() == env.retLen && b == RetExp(env.retLen, list))
            && (op.Call? ==> IsCall(unit, Instance(op.fn, []), p, b, list, at))
            && (op.CallGeneric? ==> IsCall(unit, unit.functionInstance(op.inst), p, b, list, at))
            && (op.StLoc? ==> p == Store(op.local) && p.Arity() == 1 && b == LetExp(op.local, list, at))
            && (op.WriteRef? ==> p == Write && p.Arity() == 2 && b == WriteExp(list))
            && (!(op.Ret? || op.Call? || op.CallGeneric? || op.StLoc? || op.WriteRef?) ==>
                  (op.MutBorrowField? || op.MutBorrowFieldGeneric? || op.ImmBorrowField? || op.ImmBorrowFieldGeneric?)
                  && b == FieldsExp(env, op, list, at))
  {
    hide RetExp, CallExp, LetExp, WriteExp, FieldsExp, FieldPrim;
  }

  ghost predicate IsCall(unit: Unit, inst: Instance, p: Prim, b: Built, list: seq<ExpLoc>, at: nat) {
    var fn := unit.functions(inst.index);
    p == CallPrim(unit, inst) && p.Arity() == fn.params && b == CallExp(fn, inst.types, list, at)
  }

  lemma TopIsValue(list: seq<ExpLoc>)
    requires 1 <= |list| && AllValues(TopEntries(list, 1))
    ensures ValueExp(list[|list| - 1].exp)
  {
    hide ValueExp;
    assert TopEntries(list, 1)[0] == list[|list| - 1];
  }

  lemma FieldsBuild(env: Env, op: Bytecode, list: seq<ExpLoc>, at: nat)
    requires RemainingMeaning(env.unit, env.retLen, op).Some? && RemainingMeaning(env.unit, env.retLen, op).value.Arity() <= |list|
    requires op.MutBorrowField? || op.MutBorrowFieldGeneric? || op.ImmBorrowField? || op.ImmBorrowFieldGeneric?
    ensures Builds(FieldsExp(env, op, list, at), RemainingMeaning(env.unit, env.retLen, op).value, list)
  {
    hide Builds, FieldExp, FieldPrim;
    var unit := env.unit;
    var isMut := op.MutBorrowField? || op.MutBorrowFieldGeneric?;
    var field := if op.MutBorrowField? || op.ImmBorrowField? then Some(op.field) else unit.fieldInstance(op.inst);
    FieldIsKnown(unit, field, isMut);
    FieldBuilds(unit, field.value, isMut, op, list);
  }

  lemma FieldIsKnown(unit: Unit, field: Option<nat>, isMut: bool)
    requires FieldPrim(unit, field, isMut).Some?
    ensures field.Some? && FieldPrim(unit, field, isMut).value.Arity() == 1
  {
  }

  // Which constructor of the translator an opcode reaches.
  lemma Dispatch(unit: Unit, op: Bytecode, x: ExpLoc)
    ensures BinaryMeaning(op).None? ==> SignOf(op).None?
    ensures LeafMeaning(unit, op).None? && !op.Pop? && !op.Nop? ==> LeafOf(unit, op).None?
    ensures UnaryMeaning(op).None? && !op.FreezeRef? ==> UnaryOf(op, x).None?
    ensures StorageMeaning(unit, op).None? ==> BuildInOf(op).None? && BuildInInstanceOf(op).None?
  {
  }

  lemma KindsAreApart(unit: Unit, op: Bytecode)
    ensures LeafMeaning(unit, op).Some? ==> SignOf(op).None?
    ensures UnaryMeaning(op).Some? || op.FreezeRef? ==> SignOf(op).None? && LeafOf(unit, op).None?
  {
  }

  /** On a list whose last entries are values, every usable opcode with a meaning makes one
      expression of exactly its operands. */
  lemma OpcodeBuilds(env: Env, op: Bytecode, list: seq<ExpLoc>, at: nat)
    requires Usable(env, op) && !op.Nop? && !op.Pop? && !op.FreezeRef?
    requires Takes(env, op) <= |list| && AllValues(TopEntries(list, Takes(env, op)))
    ensures Builds(PlainExp(env, op, list, at), Meaning(env.unit, env.retLen, op).value, list)
  {
    hide Builds, RemainingMeaning, StructureExp, UnaryOf, LeafOf, UnaryMeaning, LeafMeaning, SignOf, BinaryMeaning,
         BuildInOf, BuildInInstanceOf, StorageMeaning, BuildInExp, BuildInInstanceExp, StructMeaning;
    var unit := env.unit;
    SignsAgree(op);
    Dispatch(unit, op, Top(list));
    KindsAreApart(unit, op);
    if BinaryMeaning(op).Some? {
      BinaryBuilds(SignOf(op).value, list);
    } else if LeafMeaning(unit, op).Some? {
      LeafBuilds(unit, op, list);
    } else if UnaryMeaning(op).Some? {
      UnaryBuilds(op, list);
    } else if StorageMeaning(unit, op).Some? {
      StorageBuilds(unit, op, list, at);
    } else if NamedStruct(unit, op).Some? {
      PackReached(env, op, list, at);
    } else {
      StructureBuilds(env, op, list, at);
    }
  }

  lemma PackReached(env: Env, op: Bytecode, list: seq<ExpLoc>, at: nat)
    requires (op.Pack? || op.PackGeneric?) && NamedStruct(env.unit, op).Some?
    requires |NamedStruct(env.unit, op).value.1| <= |list|
    ensures var s := NamedStruct(env.unit, op).value;
            Builds(StructureExp(env, op, list, at), Construct(s.0, s.1), list)
  {
    hide Builds, PackExp, StructMeaning;
    if op.Pack? {
      PackBuilds(env.unit, Instance(op.def, []), list, at);
    } else {
      InstanceExists(env.unit, op.inst);
      PackBuilds(env.unit, env.unit.structInstance(op.inst).value, list, at);
    }
  }

  lemma InstanceExists(unit: Unit, inst: nat)
    ensures StructMeaning(unit, unit.structInstance(inst)).Some? ==> unit.structInstance(inst).Some?
  {
  }
}
