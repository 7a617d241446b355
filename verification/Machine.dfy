/** The meaning of opcodes, on a stack machine, and of recovered expressions, by strict
    evaluation from left to right. Both perform the same primitives; what a primitive does
    to values, locals and memory is a parameter, except for those that the translation
    itself depends on. */
module Machine {
  import opened Wrappers
  import opened Bytecode
  import opened Exp

  datatype State = State(locals: map<nat, Value>, memory: map<nat, Value>)

  datatype Prim =
    | Const(value: Value)
    | Binary(op: Op)
    | Negate
    | Convert(ty: CastType)
    | Invoke(fn: Function, types: seq<string>)
    | Storage(kind: BuildIn, name: StructName)
    | Construct(name: StructName, fields: seq<string>)
    | Destruct(name: StructName, fields: seq<string>)
    | Field(isMut: bool, field: string)
    | Read(access: LocAccess, local: nat)
    | Borrow(isMut: bool, local: nat)
    | Load
    | Write
    | Store(local: nat)
    | Fail
    | Give(count: nat)
  {
    function Arity(): nat {
      match this
      case Const(_) => 0
      case Binary(_) => 2
      case Negate => 1
      case Convert(_) => 1
      case Invoke(fn, _) => fn.params
      case Storage(kind, _) => if kind.MoveTo? then 2 else 1
      case Construct(_, fields) => |fields|
      case Destruct(_, _) => 1
      case Field(_, _) => 1
      case Read(_, _) => 0
      case Borrow(_, _) => 0
      case Load => 1
      case Write => 2
      case Store(_) => 1
      case Fail => 1
      case Give(count) => count
    }

    // How many values it leaves on the stack when it completes.
    function Results(): nat {
      match this
      case Invoke(fn, _) => fn.results
      case Storage(kind, _) => if kind.MoveTo? then 0 else 1
      case Destruct(_, fields) => |fields|
      case Write => 0
      case Store(_) => 0
      case Fail => 0
      case Give(_) => 0
      case _ => 1
    }
  }

  /** Values and a new state; an abort with its code; a return with its values; or nothing,
      when an opcode does not fit its operands. */
  datatype Outcome =
    | Done(vals: seq<Value>, st: State)
    | Aborted(code: Value, st: State)
    | Returned(vals: seq<Value>, st: State)
    | Stuck

  /** What the primitives that are left open do. */
  type Interp = (Prim, seq<Value>, State) -> Outcome

  function Apply(interp: Interp, p: Prim, args: seq<Value>, st: State): (r: Outcome)
    requires |args| == p.Arity()
    ensures r.Done? ==> |r.vals| == p.Results()
  {
    match p
    case Const(v) => Done([v], st)
    case Read(access, local) =>
      if local !in st.locals then Stuck
      else Done([st.locals[local]], if access.Copy? then st else st.(locals := st.locals - {local}))
    case Store(local) => Done([], st.(locals := st.locals[local := args[0]]))
    case Construct(_, _) => Done([Value.Struct(args)], st)
    case Destruct(_, fields) =>
      if args[0].Struct? && |args[0].fields| == |fields| then Done(args[0].fields, st) else Stuck
    case Fail => Aborted(args[0], st)
    case Give(_) => Returned(args, st)
    case _ =>
      var r := interp(p, args, st);
      if r.Returned? || (r.Done? && |r.vals| != p.Results()) then Stuck else r
  }

  // ----- Opcodes -----

  function BinaryMeaning(op: Bytecode): Option<Op> {
    match op
    case Add => Some(Op.Add)
    case Sub => Some(Op.Sub)
    case Mul => Some(Op.Mul)
    case Mod => Some(Op.Mod)
    case Div => Some(Op.Div)
    case BitOr => Some(Op.BitOr)
    case BitAnd => Some(Op.BitAnd)
    case Xor => Some(Op.Xor)
    case Or => Some(Op.Or)
    case And => Some(Op.And)
    case Eq => Some(Op.Eq)
    case Neq => Some(Op.Neq)
    case Lt => Some(Op.Lt)
    case Gt => Some(Op.Gt)
    case Le => Some(Op.Le)
    case Ge => Some(Op.Ge)
    case Shl => Some(Op.Shl)
    case Shr => Some(Op.Shr)
    case _ => None
  }

  function LeafMeaning(unit: Unit, op: Bytecode): Option<Prim> {
    match op
    case LdU8(n) => Some(Const(Value.U8(n)))
    case LdU64(n) => Some(Const(Value.U64(n)))
    case LdU128(n) => Some(Const(Value.U128(n)))
    case LdTrue => Some(Const(Value.Bool(true)))
    case LdFalse => Some(Const(Value.Bool(false)))
    case LdConst(index) =>
      Some(Const(match unit.constants(index)
                 case AddressConst(a) => Value.Address(a)
                 case BytesConst(b) => Value.Vector(b)
                 case OtherConst(v) => v))
    case CopyLoc(local) => Some(Read(LocAccess.Copy, local))
    case MoveLoc(local) => Some(Read(LocAccess.Move, local))
    case MutBorrowLoc(local) => Some(Borrow(true, local))
    case ImmBorrowLoc(local) => Some(Borrow(false, local))
    case _ => None
  }

  function UnaryMeaning(op: Bytecode): (p: Option<Prim>)
    ensures p.Some? ==> p.value.Arity() == 1
  {
    match op
    case Not => Some(Negate)
    case Abort => Some(Fail)
    case CastU8 => Some(Convert(CastType.U8))
    case CastU64 => Some(Convert(CastType.U64))
    case CastU128 => Some(Convert(CastType.U128))
    case ReadRef => Some(Load)
    case _ => None
  }

  // The struct of an opcode on global storage, and what is done with it.
  function StorageMeaning(unit: Unit, op: Bytecode): Option<(BuildIn, Option<Instance>)> {
    match op
    case Exists(def) => Some((BuildIn.Exists, Some(Instance(def, []))))
    case ExistsGeneric(inst) => Some((BuildIn.Exists, unit.structInstance(inst)))
    case MoveFrom(def) => Some((BuildIn.MoveFrom, Some(Instance(def, []))))
    case MoveFromGeneric(inst) => Some((BuildIn.MoveFrom, unit.structInstance(inst)))
    case MoveTo(def) => Some((BuildIn.MoveTo, Some(Instance(def, []))))
    case MoveToGeneric(inst) => Some((BuildIn.MoveTo, unit.structInstance(inst)))
    case ImmBorrowGlobal(def) => Some((BuildIn.BorrowGlobal, Some(Instance(def, []))))
    case ImmBorrowGlobalGeneric(inst) => Some((BuildIn.BorrowGlobal, unit.structInstance(inst)))
    case MutBorrowGlobal(def) => Some((BuildIn.BorrowGlobalMut, Some(Instance(def, []))))
    case MutBorrowGlobalGeneric(inst) => Some((BuildIn.BorrowGlobalMut, unit.structInstance(inst)))
    case _ => None
  }

  function StructMeaning(unit: Unit, inst: Option<Instance>): Option<(StructName, seq<string>)> {
    if inst.None? then None
    else
      match unit.structDef(inst.value.index)
      case None => None
      case Some(d) => Some((StructName(d.moduleName, d.name, inst.value.types), FieldNames(d)))
  }

  function FieldMeaning(unit: Unit, field: Option<nat>): Option<string> {
    if field.None? then None
    else
      match unit.fieldHandle(field.value)
      case None => None
      case Some(h) =>
        match unit.structDef(h.owner)
        case None => None
        case Some(d) => if h.field < |FieldNames(d)| then Some(FieldNames(d)[h.field]) else None
  }

  function FieldPrim(unit: Unit, field: Option<nat>, isMut: bool): Option<Prim> {
    match FieldMeaning(unit, field)
    case None => None
    case Some(name) => Some(Field(isMut, name))
  }

  function CallPrim(unit: Unit, inst: Instance): Prim {
    Invoke(unit.functions(inst.index), inst.types)
  }

  function RemainingMeaning(unit: Unit, retLen: nat, op: Bytecode): Option<Prim> {
    if op.Ret? then Some(Give(retLen))
    else if op.Call? then Some(CallPrim(unit, Instance(op.fn, [])))
    else if op.CallGeneric? then Some(CallPrim(unit, unit.functionInstance(op.inst)))
    else if op.StLoc? then Some(Store(op.local))
    else if op.WriteRef? then Some(Write)
    else if op.MutBorrowField? then FieldPrim(unit, Some(op.field), true)
    else if op.MutBorrowFieldGeneric? then FieldPrim(unit, unit.fieldInstance(op.inst), true)
    else if op.ImmBorrowField? then FieldPrim(unit, Some(op.field), false)
    else if op.ImmBorrowFieldGeneric? then FieldPrim(unit, unit.fieldInstance(op.inst), false)
    else None
  }

  // The struct that a pack or unpack opcode names.
  function NamedStruct(unit: Unit, op: Bytecode): Option<(StructName, seq<string>)> {
    if op.Pack? || op.Unpack? then StructMeaning(unit, Some(Instance(op.def, [])))
    else if op.PackGeneric? || op.UnpackGeneric? then StructMeaning(unit, unit.structInstance(op.inst))
    else None
  }

  /** The primitive of an opcode; `Pop`, `Nop` and `FreezeRef` have none, nor has an opcode
      whose index leads nowhere. */
  function Meaning(unit: Unit, retLen: nat, op: Bytecode): Option<Prim> {
    if BinaryMeaning(op).Some? then Some(Binary(BinaryMeaning(op).value))
    else if LeafMeaning(unit, op).Some? then LeafMeaning(unit, op)
    else if UnaryMeaning(op).Some? then UnaryMeaning(op)
    else if StorageMeaning(unit, op).Some? then
      match StructMeaning(unit, StorageMeaning(unit, op).value.1)
      case None => None
      case Some(s) => Some(Storage(StorageMeaning(unit, op).value.0, s.0))
    else
      match NamedStruct(unit, op)
      case Some(s) => Some(if op.Pack? || op.PackGeneric? then Construct(s.0, s.1) else Destruct(s.0, s.1))
      case None => RemainingMeaning(unit, retLen, op)
  }

  function LastValues(stack: seq<Value>, count: nat): seq<Value>
    requires count <= |stack|
  {
    stack[|stack| - count..]
  }

  /** Perform a primitive on the values on top of a stack. */
  function Perform(interp: Interp, p: Prim, stack: seq<Value>, st: State): Outcome {
    if |stack| < p.Arity() then Stuck
    else
      match Apply(interp, p, LastValues(stack, p.Arity()), st)
      case Done(results, st') => Done(stack[..|stack| - p.Arity()] + results, st')
      case other => other
  }

  /** One step of the machine. A freeze leaves the reference as it is. */
  function Execute(unit: Unit, retLen: nat, interp: Interp, op: Bytecode, stack: seq<Value>, st: State): Outcome {
    if op.Nop? then Done(stack, st)
    else if op.Pop? then (if stack == [] then Stuck else Done(stack[..|stack| - 1], st))
    else if op.FreezeRef? then (if stack == [] then Stuck else Done(stack, st))
    else
      match Meaning(unit, retLen, op)
      case None => Stuck
      case Some(p) => Perform(interp, p, stack, st)
  }

  /** A run from position `pc`; the values of a completed step are the operand stack. */
  function Run(unit: Unit, retLen: nat, interp: Interp, code: seq<Bytecode>, pc: nat, m: Outcome): Outcome
    decreases |code| - pc
  {
    if !m.Done? || pc >= |code| then m
    else Run(unit, retLen, interp, code, pc + 1, Execute(unit, retLen, interp, code[pc], m.vals, m.st))
  }

  // ----- Expressions -----

  function FieldValues(fs: seq<PackField>): (es: seq<ExpLoc>)
    ensures |es| == |fs|
  {
    if fs == [] then [] else [fs[0].value] + FieldValues(fs[1..])
  }

  function FieldNamesOf(fs: seq<PackField>): (names: seq<string>)
    ensures |names| == |fs|
  {
    if fs == [] then [] else [fs[0].name] + FieldNamesOf(fs[1..])
  }

  /** The operands that are evaluated, in order. */
  function Operands(e: Exp): seq<ExpLoc> {
    match e
    case Abort(x) => [x]
    case Ld(_) => []
    case Error(_) => []
    case Local(_, _) => []
    case Cast(x, _) => [x]
    case BinaryOp(x, _, y) => [x, y]
    case Basket(x) => [x]
    case Not(x) => [x]
    case BuildInCall(_, _, params) => params
    case PlainCall(_, _, params) => params
    case Let(_, x) => [x]
    case Pack(_, fields) => FieldValues(fields)
    case Unpack(_, _, source) => [source]
    case Ret(list) => list
    case FieldRef(_, _, x) => [x]
    case Ref(_, _) => []
    case Deref(x) => [x]
    case WriteRef(x, y) => [x, y]
    case Nop => []
  }

  /** The primitive that an expression performs on the values of its operands. */
  function Head(e: Exp): Option<Prim> {
    match e
    case Abort(_) => Some(Fail)
    case Ld(v) => Some(Const(v))
    case Error(_) => None
    case Local(access, local) => Some(Read(access, local))
    case Cast(_, ty) => Some(Convert(ty))
    case BinaryOp(_, sign, _) => Some(Binary(sign))
    case Basket(_) => None
    case Not(_) => Some(Negate)
    case BuildInCall(kind, name, _) => Some(Storage(kind, name))
    case PlainCall(fn, types, _) => Some(Invoke(fn, types))
    case Let(local, _) => Some(Store(local))
    case Pack(name, fields) => Some(Construct(name, FieldNamesOf(fields)))
    case Unpack(name, fields, _) => Some(Destruct(name, FieldNamesOf(fields)))
    case Ret(list) => Some(Give(|list|))
    case FieldRef(isMut, field, _) => Some(Field(isMut, field))
    case Ref(isMut, local) => Some(Borrow(isMut, local))
    case Deref(_) => Some(Load)
    case WriteRef(_, _) => Some(Write)
    case Nop => None
  }

  function SizeOf(x: ExpLoc): nat
    decreases x
  {
    Size(x.exp)
  }

  function SizeAll(es: seq<ExpLoc>): nat
    decreases es
  {
    if es == [] then 0 else SizeOf(es[0]) + SizeAll(es[1..])
  }

  function SizeFields(fs: seq<PackField>): nat
    decreases fs
  {
    if fs == [] then 0 else SizeField(fs[0]) + SizeFields(fs[1..])
  }

  function SizeField(f: PackField): nat
    decreases f
  {
    SizeOf(f.value)
  }

  /** The number of expression nodes that are evaluated. */
  function Size(e: Exp): nat
    decreases e
  {
    1 + match e
    case Abort(x) => SizeOf(x)
    case Cast(x, _) => SizeOf(x)
    case BinaryOp(x, _, y) => SizeOf(x) + SizeOf(y)
    case Basket(x) => SizeOf(x)
    case Not(x) => SizeOf(x)
    case BuildInCall(_, _, params) => SizeAll(params)
    case PlainCall(_, _, params) => SizeAll(params)
    case Let(_, x) => SizeOf(x)
    case Pack(_, fields) => SizeFields(fields)
    case Unpack(_, _, source) => SizeOf(source)
    case Ret(list) => SizeAll(list)
    case FieldRef(_, _, x) => SizeOf(x)
    case Deref(x) => SizeOf(x)
    case WriteRef(x, y) => SizeOf(x) + SizeOf(y)
    case Ld(_) => 0
    case Error(_) => 0
    case Local(_, _) => 0
    case Ref(_, _) => 0
    case Nop => 0
  }

  lemma {:induction false} FieldsSize(fs: seq<PackField>)
    ensures SizeAll(FieldValues(fs)) == SizeFields(fs)
  {
    if fs != [] {
      FieldsSize(fs[1..]);
      assert FieldValues(fs)[1..] == FieldValues(fs[1..]);
    }
  }

  lemma OneSize(x: ExpLoc)
    ensures SizeAll([x]) == SizeOf(x)
  {
  }

  lemma {:induction false} TwoSizes(x: ExpLoc, y: ExpLoc)
    ensures SizeAll([x, y]) == SizeOf(x) + SizeOf(y)
  {
    assert [x, y][1..] == [y];
    OneSize(y);
  }

  lemma {:induction false} OperandsAreSmaller(e: Exp)
    ensures SizeAll(Operands(e)) < Size(e)
  {
    match e {
      case Abort(x) => OneSize(x);
      case Cast(x, _) => OneSize(x);
      case BinaryOp(x, _, y) => TwoSizes(x, y);
      case Basket(x) => OneSize(x);
      case Not(x) => OneSize(x);
      case BuildInCall(_, _, _) =>
      case PlainCall(_, _, _) =>
      case Let(_, x) => OneSize(x);
      case Pack(_, fields) => FieldsSize(fields);
      case Unpack(_, _, source) => OneSize(source);
      case Ret(_) =>
      case FieldRef(_, _, x) => OneSize(x);
      case Deref(x) => OneSize(x);
      case WriteRef(x, y) => TwoSizes(x, y);
      case Ld(_) =>
      case Error(_) =>
      case Local(_, _) =>
      case Ref(_, _) =>
      case Nop =>
    }
  }

  /** The effect of the binders of an unpack: the values of the fields are stored from the
      last to the first; a field without a local is dropped. */
  function Bind(fields: seq<PackField>, vals: seq<Value>, st: State): Outcome
    requires |fields| == |vals|
  {
    if fields == [] then Done([], st)
    else
      var n := |fields| - 1;
      var binder := fields[n].value.exp;
      if binder.Let? && binder.value_.exp.Nop? then
        Bind(fields[..n], vals[..n], st.(locals := st.locals[binder.local := vals[n]]))
      else if binder.Nop? then Bind(fields[..n], vals[..n], st)
      else Stuck
  }

  function Eval(interp: Interp, e: Exp, st: State): Outcome
    decreases Size(e), 0
  {
    OperandsAreSmaller(e);
    match EvalAll(interp, Operands(e), st)
    case Done(args, st') => Finish(interp, e, args, st')
    case other => other
  }

  // What an expression makes of the values of its operands.
  function Finish(interp: Interp, e: Exp, args: seq<Value>, st: State): Outcome {
    if e.Basket? || e.Nop? then Done(args, st)
    else if Head(e).None? || |args| != Head(e).value.Arity() then Stuck
    else
      var r := Apply(interp, Head(e).value, args, st);
      if e.Unpack? && r.Done? then Bind(e.fields, r.vals, r.st) else r
  }

  /** Evaluation of a list of expressions in order; the values of all are kept. */
  function EvalAll(interp: Interp, es: seq<ExpLoc>, st: State): Outcome
    decreases SizeAll(es), 1 + |es|
  {
    if es == [] then Done([], st)
    else
      assert SizeOf(es[0]) == Size(es[0].exp) <= SizeAll(es);
      match Eval(interp, es[0].exp, st)
      case Done(vals, st') => (
        match EvalAll(interp, es[1..], st')
        case Done(more, st'') => Done(vals + more, st'')
        case other => other
      )
      case other => other
  }
}
