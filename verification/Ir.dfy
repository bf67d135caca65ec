/** The SSA intermediate representation: values, operations, instructions and the
    straight-line `Function` that the lifter emits into and the passes rewrite. */
module Ir {
  type Word = bv64

  const ALL_ONES: Word := 0xFFFF_FFFF_FFFF_FFFF

  datatype Option<+T> = None | Some(value: T)

  /** An operand. `bits` is carried along and never changes a 64-bit value. */
  datatype Value =
    | Const(value: Word, bits: nat)
    | SymReg(name: string)
    | SymMem(addrRef: nat, width: nat)
    | InstrRef(id: nat)

  /** `Const(v)` with the default width of the source. */
  function Const64(v: Word): Value { Const(v, 64) }

  datatype Op =
    | CONST | CONST_PTR
    | ADD | SUB | MUL | XOR | AND | OR | SHL | SHR | SAR | ROL | ROR
    | NOT | NEG | BSWAP | ZEXT | SEXT | TRUNC
    | LOAD | STORE
    | CALL | RET | JMP | CJMP
    | PASSTHROUGH | NOP
    | SELECT

  predicate SideEffectful(op: Op) {
    match op
    case STORE | CALL | RET | JMP | CJMP => true
    case _ => false
  }

  predicate FoldableBinary(op: Op) {
    match op
    case ADD | SUB | MUL | XOR | AND | OR | SHL | SHR | SAR | ROL | ROR => true
    case _ => false
  }

  predicate FoldableUnary(op: Op) {
    match op
    case NOT | NEG | BSWAP => true
    case _ => false
  }

  function OpName(op: Op): string {
    match op
    case CONST => "CONST" case CONST_PTR => "CONST_PTR"
    case ADD => "ADD" case SUB => "SUB" case MUL => "MUL" case XOR => "XOR"
    case AND => "AND" case OR => "OR" case SHL => "SHL" case SHR => "SHR"
    case SAR => "SAR" case ROL => "ROL" case ROR => "ROR"
    case NOT => "NOT" case NEG => "NEG" case BSWAP => "BSWAP"
    case ZEXT => "ZEXT" case SEXT => "SEXT" case TRUNC => "TRUNC"
    case LOAD => "LOAD" case STORE => "STORE"
    case CALL => "CALL" case RET => "RET" case JMP => "JMP" case CJMP => "CJMP"
    case PASSTHROUGH => "PASSTHROUGH" case NOP => "NOP" case SELECT => "SELECT"
  }

  type Annotations = map<string, string>

  datatype Instruction = Instruction(op: Op, operands: seq<Value>, resultId: nat, annotations: Annotations) {
    function Ref(): Value { InstrRef(resultId) }

    predicate HasAnn(key: string, val: string) {
      key in annotations && annotations[key] == val
    }
  }

  type Trace = seq<Instruction>

  /** Some instruction has the id. */
  ghost predicate HasId(t: Trace, id: nat) { exists i :: 0 <= i < |t| && t[i].resultId == id }

  /** A reference, if it is one, points below `bound`. */
  predicate Below(v: Value, bound: nat) {
    v.InstrRef? ==> v.id < bound
  }

  /** What `Function::emit` guarantees: result ids increase, and an instruction only refers
      to results emitted before it. References to ids that no instruction of the trace
      defines (values that live in an earlier segment) are allowed. */
  ghost predicate Ordered(g: Trace) {
    && (forall i, j :: 0 <= i < j < |g| ==> g[i].resultId < g[j].resultId)
    && (forall i, k :: 0 <= i < |g| && 0 <= k < |g[i].operands| ==> Below(g[i].operands[k], g[i].resultId))
  }

  /** The single linear block that the lifter fills and the optimizer rewrites in place. */
  class Function {
    var instrs: Trace
    var nextId: nat

    ghost predicate Valid()
      reads this
    {
      Ordered(instrs) && forall i :: 0 <= i < |instrs| ==> instrs[i].resultId < nextId
    }

    constructor ()
      ensures Valid() && instrs == [] && nextId == 0
    {
      instrs := [];
      nextId := 0;
    }

    /** Copies a function, as the by-value copy of the source does. */
    constructor Copy(f: Function)
      ensures instrs == f.instrs && nextId == f.nextId
    {
      instrs := f.instrs;
      nextId := f.nextId;
    }

    /** Gives later instructions a globally unique id space. */
    method SetNextId(id: nat)
      requires Valid() && nextId <= id
      modifies this`nextId
      ensures Valid() && nextId == id
    {
      nextId := id;
    }

    method Emit(op: Op, operands: seq<Value>, annotations: Annotations) returns (ref: Value)
      requires Valid()
      requires forall k :: 0 <= k < |operands| ==> Below(operands[k], nextId)
      modifies this
      ensures Valid()
      ensures instrs == old(instrs) + [Instruction(op, operands, old(nextId), annotations)]
      ensures nextId == old(nextId) + 1
      ensures ref == InstrRef(old(nextId))
    {
      instrs := instrs + [Instruction(op, operands, nextId, annotations)];
      ref := InstrRef(nextId);
      nextId := nextId + 1;
    }
  }
}
