/**
  The abstract IR the code generator's IRBuilder is asked to build, and
  its meaning.  Instructions form an append-only log; the value of
  instruction i is register i.  Integers are bit patterns of the width
  of their type, read as signed where an operation is signed.
*/
module Ir {
  import opened IrTypes

  function Pow2(w: nat): (p: nat)
    ensures p >= 1
  {
    if w == 0 then 1 else 2 * Pow2(w - 1)
  }

  /** `x` reduced to a `w`-bit pattern. */
  function Wrap(x: int, w: nat): (r: int)
    ensures 0 <= r < Pow2(w)
  {
    x % Pow2(w)
  }

  /** The two's-complement reading of a `w`-bit pattern. */
  function Signed(x: int, w: nat): int
  {
    if w > 0 && x >= Pow2(w - 1) then x - Pow2(w) else x
  }

  /** A bit pattern reads as signed zero exactly when it is zero. */
  lemma SignedZero(x: int, w: nat)
    requires 0 <= x < Pow2(w)
    ensures Signed(x, w) == 0 <==> x == 0
  {
  }

  function Abs(x: int): nat
  {
    if x < 0 then -x else x
  }

  /** Division truncating toward zero; a zero divisor (undefined in the
      IR) gives 0 here. */
  function TruncDiv(a: int, b: int): int
  {
    if b == 0 then 0
    else if (a < 0) != (b < 0) then -(Abs(a) / Abs(b))
    else Abs(a) / Abs(b)
  }

  function TruncRem(a: int, b: int): int
  {
    a - b * TruncDiv(a, b)
  }

  /** An llvm::Value*: null, an integer constant, or the result of the
      instruction at a position of the log. */
  datatype Value = Null | Const(bits: int, ty: Type) | Reg(index: nat, ty: Type)

  /** The type of a value; null has none, written as void. */
  function TypeOfValue(v: Value): Type
  {
    match v
    case Null => Void
    case Const(_, t) => t
    case Reg(_, t) => t
  }

  /** The predicates of the integer compares the generator uses. */
  datatype Pred = SLT | SLE | SGT | SGE | EQ | NE

  /** The builder requests the generator makes. */
  datatype Opcode =
    | Add | Sub | Mul | SDiv | SRem | ICmp(pred: Pred)
    | Neg | FNeg | FCmpUNE | ZExt | Trunc | Not | LogicalAnd | LogicalOr | Ret

  /** One builder request: operation, operands, result type. */
  datatype Instr = Instr(op: Opcode, args: seq<Value>, ty: Type)

  /** i1, the type of compares and of the logical operations. */
  const Bool: Type := Int(1)

  function Width(t: Type): nat
  {
    if t.Int? then t.width else 0
  }

  /** A value that names only instructions among the first n. */
  predicate Defined(v: Value, n: nat)
  {
    v.Reg? ==> v.index < n
  }

  /** Instructions placed from position `start` on use only values
      computed before them. */
  predicate UsesEarlier(instrs: seq<Instr>, start: nat)
  {
    forall i, k :: 0 <= i < |instrs| && 0 <= k < |instrs[i].args| ==> Defined(instrs[i].args[k], start + i)
  }

  /** Two well-ordered runs placed one after the other form one. */
  lemma UsesEarlierAppend(a: seq<Instr>, b: seq<Instr>, start: nat)
    requires UsesEarlier(a, start) && UsesEarlier(b, start + |a|)
    ensures UsesEarlier(a + b, start)
  {
    forall i, k | 0 <= i < |a + b| && 0 <= k < |(a + b)[i].args|
      ensures Defined((a + b)[i].args[k], start + i)
    {
      if i >= |a| {
        assert (a + b)[i] == b[i - |a|];
      }
    }
  }

  /** The bit pattern of a value, given the values of the log so far. */
  function EvalValue(v: Value, vals: seq<int>): int
  {
    match v
    case Null => 0
    case Const(b, _) => b
    case Reg(i, _) => if i < |vals| then vals[i] else 0
  }

  function CmpHolds(p: Pred, a: int, b: int): bool
  {
    match p
    case SLT => a < b
    case SLE => a <= b
    case SGT => a > b
    case SGE => a >= b
    case EQ => a == b
    case NE => a != b
  }

  /** The result of an operation on operand patterns `a` and `b` of width
      `w`, with result width `rw`.  Floating-point operations carry no
      numeric meaning here. */
  function EvalOp(op: Opcode, a: int, b: int, w: nat, rw: nat): int
  {
    match op
    case Add => Wrap(a + b, rw)
    case Sub => Wrap(a - b, rw)
    case Mul => Wrap(a * b, rw)
    case SDiv => Wrap(TruncDiv(Signed(a, w), Signed(b, w)), rw)
    case SRem => Wrap(TruncRem(Signed(a, w), Signed(b, w)), rw)
    case ICmp(p) => if CmpHolds(p, Signed(a, w), Signed(b, w)) then 1 else 0
    case Neg => Wrap(-a, rw)
    case Not => Wrap(-a - 1, rw)
    case ZExt => a
    case Trunc => Wrap(a, rw)
    case LogicalAnd => if a != 0 then b else 0
    case LogicalOr => if a != 0 then 1 else b
    case Ret => a
    case FNeg => 0
    case FCmpUNE => 0
  }

  function Arg(ins: Instr, k: nat, vals: seq<int>): int
  {
    if k < |ins.args| then EvalValue(ins.args[k], vals) else 0
  }

  function EvalInstr(ins: Instr, vals: seq<int>): int
  {
    var w := if |ins.args| > 0 then Width(TypeOfValue(ins.args[0])) else 0;
    EvalOp(ins.op, Arg(ins, 0, vals), Arg(ins, 1, vals), w, Width(ins.ty))
  }

  /** The values of every instruction of a log, in order. */
  function Exec(log: seq<Instr>): (vals: seq<int>)
    ensures |vals| == |log|
    decreases |log|
  {
    if log == [] then []
    else
      var p := Exec(log[..|log| - 1]);
      p + [EvalInstr(log[|log| - 1], p)]
  }

  /** Appending one instruction adds its value and changes no other. */
  lemma ExecSnoc(a: seq<Instr>, ins: Instr)
    ensures Exec(a + [ins]) == Exec(a) + [EvalInstr(ins, Exec(a))]
  {
    assert (a + [ins])[..|a|] == a;
  }

  /** Appending instructions never changes the values already computed. */
  lemma {:induction false} ExecPrefix(a: seq<Instr>, b: seq<Instr>)
    ensures Exec(a + b)[..|a|] == Exec(a)
    decreases |b|
  {
    if b == [] {
      assert a + b == a;
    } else {
      var b' := b[..|b| - 1];
      assert a + b == (a + b') + [b[|b| - 1]];
      ExecSnoc(a + b', b[|b| - 1]);
      ExecPrefix(a, b');
    }
  }

  /** A value defined by a prefix of the log keeps its value as the log
      grows. */
  lemma EvalStable(v: Value, a: seq<Instr>, b: seq<Instr>)
    requires Defined(v, |a|)
    ensures EvalValue(v, Exec(a + b)) == EvalValue(v, Exec(a))
  {
    ExecPrefix(a, b);
    if v.Reg? {
      assert Exec(a + b)[v.index] == Exec(a + b)[..|a|][v.index];
    }
  }
}
