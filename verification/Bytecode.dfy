/** Move opcodes without branches, and what they refer to (libra's file format, as used by
    lang/disassembler). */
module Bytecode {
  import opened Wrappers

  datatype Value =
    | U8(n: nat)
    | U64(n: nat)
    | U128(n: nat)
    | Bool(b: bool)
    | Address(bytes: seq<byte>)
    | Vector(bytes: seq<byte>)
    | Struct(fields: seq<Value>)
    | Reference(id: nat)
    | Signer(id: nat)

  datatype Bytecode =
    | Pop | Nop | Ret | Abort | Not
    | Add | Sub | Mul | Mod | Div | BitOr | BitAnd | Xor | Or | And
    | Eq | Neq | Lt | Gt | Le | Ge | Shl | Shr
    | CastU8 | CastU64 | CastU128
    | LdU8(n: nat) | LdU64(n: nat) | LdU128(n: nat) | LdConst(const_: nat) | LdTrue | LdFalse
    | Call(fn: nat) | CallGeneric(inst: nat)
    | Exists(def: nat) | ExistsGeneric(inst: nat)
    | MoveFrom(def: nat) | MoveFromGeneric(inst: nat)
    | MoveTo(def: nat) | MoveToGeneric(inst: nat)
    | ImmBorrowGlobal(def: nat) | ImmBorrowGlobalGeneric(inst: nat)
    | MutBorrowGlobal(def: nat) | MutBorrowGlobalGeneric(inst: nat)
    | CopyLoc(local: nat) | MoveLoc(local: nat) | StLoc(local: nat)
    | Pack(def: nat) | PackGeneric(inst: nat)
    | Unpack(def: nat) | UnpackGeneric(inst: nat)
    | MutBorrowField(field: nat) | MutBorrowFieldGeneric(inst: nat)
    | ImmBorrowField(field: nat) | ImmBorrowFieldGeneric(inst: nat)
    | MutBorrowLoc(local: nat) | ImmBorrowLoc(local: nat)
    | FreezeRef | ReadRef | WriteRef

  /** A constant of the pool; only addresses and byte vectors can be shown. */
  datatype Constant = AddressConst(addr: seq<byte>) | BytesConst(bytes: seq<byte>) | OtherConst(value: Value)

  datatype Function = Function(moduleName: string, name: string, params: nat, results: nat)

  datatype FieldInfo = Native | Declared(fields: seq<string>)

  datatype StructDef = StructDef(moduleName: string, name: string, info: FieldInfo)

  // The name of a struct together with its type arguments.
  datatype StructName = StructName(moduleName: string, name: string, types: seq<string>)

  datatype FieldHandle = FieldHandle(owner: nat, field: nat)

  /** A definition or function index with type arguments. */
  datatype Instance = Instance(index: nat, types: seq<string>)

  /** The compiled unit that the indices of opcodes point into. */
  datatype Unit = Unit(
    functions: nat -> Function,
    functionInstance: nat -> Instance,
    constants: nat -> Constant,
    structDef: nat -> Option<StructDef>,
    structInstance: nat -> Option<Instance>,
    fieldHandle: nat -> Option<FieldHandle>,
    fieldInstance: nat -> Option<nat>)

  function FieldNames(def: StructDef): seq<string> {
    match def.info
    case Native => []
    case Declared(fields) => fields
  }

  datatype Op =
    | Add | Sub | Mul | Mod | Div | BitOr | BitAnd | Xor | Or | And
    | Eq | Neq | Lt | Gt | Le | Ge | Shl | Shr

  datatype CastType = U8 | U64 | U128

  datatype BuildIn = Exists | MoveFrom | MoveTo | BorrowGlobal | BorrowGlobalMut {
    function ParametersCount(): nat {
      if MoveTo? then 2 else 1
    }
  }

  datatype LocAccess = Move | Copy
}
