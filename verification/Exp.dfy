/** Recovered expressions (lang/disassembler/src/code/exp). */
module Exp {
  import opened Wrappers
  import opened Bytecode

  /** An expression with the index of the opcode that made it. */
  datatype ExpLoc = ExpLoc(index: nat, exp: Exp)

  datatype PackField = PackField(name: string, value: ExpLoc)

  datatype Exp =
    | Abort(code: ExpLoc)
    | Ld(value: Value)
    | Error(opcode: Bytecode)
    | Local(access: LocAccess, local: nat)
    | Cast(operand: ExpLoc, ty: CastType)
    | BinaryOp(left: ExpLoc, sign: Op, right: ExpLoc)
    | Basket(inner: ExpLoc)
    | Not(operand: ExpLoc)
    | BuildInCall(kind: BuildIn, typeName: StructName, params: seq<ExpLoc>)
    | PlainCall(fn: Function, types: seq<string>, params: seq<ExpLoc>)
    | Let(local: nat, value_: ExpLoc)
    | Pack(name: StructName, fields: seq<PackField>)
    | Unpack(name: StructName, fields: seq<PackField>, source: ExpLoc)
    | Ret(retList: seq<ExpLoc>)
    | FieldRef(isMut: bool, fieldName: string, instance: ExpLoc)
    | Ref(isMut: bool, local: nat)
    | Deref(operand: ExpLoc)
    | WriteRef(val: ExpLoc, valRef: ExpLoc)
    | Nop

  // ----- Source ranges (exp/mod.rs) -----

  function Endpoints(ranges: seq<(nat, nat)>): seq<nat> {
    if ranges == [] then [] else [ranges[0].0, ranges[0].1] + Endpoints(ranges[1..])
  }

  function Least(ns: seq<nat>): nat
    requires ns != []
  {
    if |ns| == 1 || ns[0] <= Least(ns[1..]) then ns[0] else Least(ns[1..])
  }

  function Greatest(ns: seq<nat>): nat
    requires ns != []
  {
    if |ns| == 1 || ns[0] >= Greatest(ns[1..]) then ns[0] else Greatest(ns[1..])
  }

  /** The first and the last of the sorted endpoints. */
  function FindRange(ranges: seq<(nat, nat)>): Option<(nat, nat)> {
    var ends := Endpoints(ranges);
    if ends == [] then None else Some((Least(ends), Greatest(ends)))
  }

  function Ranges(es: seq<ExpLoc>): (rs: seq<(nat, nat)>)
    ensures |rs| == |es|
    decreases es
  {
    if es == [] then [] else [Range(es[0])] + Ranges(es[1..])
  }

  function FieldRanges(fs: seq<PackField>): seq<(nat, nat)>
    decreases fs
  {
    if fs == [] then [] else [Range(fs[0].value)] + FieldRanges(fs[1..])
  }

  function Range(e: ExpLoc): (nat, nat)
    decreases e
  {
    match SourceRange(e.exp)
    case None => (e.index, e.index)
    case Some((l, r)) => (if e.index < l then e.index else l, if e.index > r then e.index else r)
  }

  function SourceRange(e: Exp): Option<(nat, nat)>
    decreases e
  {
    match e
    case Abort(x) => Some(Range(x))
    case Ld(_) => None
    case Error(_) => None
    case Local(_, _) => None
    case Cast(x, _) => Some(Range(x))
    case BinaryOp(x, _, y) => FindRange([Range(x), Range(y)])
    case Basket(x) => Some(Range(x))
    case Not(x) => Some(Range(x))
    case BuildInCall(_, _, params) => FindRange(Ranges(params))
    case PlainCall(_, _, params) => FindRange(Ranges(params))
    case Let(_, x) => Some(Range(x))
    case Pack(_, fields) => FindRange(FieldRanges(fields))
    case Unpack(_, fields, _) => FindRange(FieldRanges(fields))
    case Ret(list) => FindRange(Ranges(list))
    case FieldRef(_, _, x) => Some(Range(x))
    case Ref(_, _) => None
    case Deref(x) => Some(Range(x))
    case WriteRef(x, y) => FindRange([Range(x), Range(y)])
    case Nop => None
  }
}
