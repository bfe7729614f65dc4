/**
  What the code generator (src/backend/codegen_visitor.cpp) asks the IR
  builder for when it lowers an expression, stated as functions of the
  tree and of the position `next` of the first instruction it will add;
  what an expression means; and the theorem that running the lowered
  instructions yields that meaning.  `sw` is the bit width of the
  target's signed int, which the type manager supplies.
*/
module Lowering {
  import opened Wrappers
  import opened IrTypes
  import opened Ir
  import opened Ast

  /** The instructions one lowering step adds and the value it returns. */
  datatype Emitted = Emitted(instrs: seq<Instr>, result: Value)

  // ---------------------------------------------------------------------
  // Operators
  // ---------------------------------------------------------------------

  /** The builder call binary_operate makes for an arithmetic or compare
      operation: `/` and `%` are signed, compares are signed. */
  function BinaryOpcode(op: OperationType): (r: Option<Opcode>)
    ensures r.None? <==> op in {OpNot, OpLand, OpLor}
    ensures op in {OpDiv, OpMod} ==> r.value in {SDiv, SRem}
    ensures op in {OpLt, OpLe, OpGt, OpGe, OpEq, OpNe} ==> r.value.ICmp?
  {
    match op
    case OpAdd => Some(Add)
    case OpSub => Some(Sub)
    case OpMul => Some(Mul)
    case OpDiv => Some(SDiv)
    case OpMod => Some(SRem)
    case OpLt => Some(ICmp(SLT))
    case OpLe => Some(ICmp(SLE))
    case OpGt => Some(ICmp(SGT))
    case OpGe => Some(ICmp(SGE))
    case OpEq => Some(ICmp(EQ))
    case OpNe => Some(ICmp(NE))
    case _ => None
  }

  /** The type of an arithmetic or compare result on operands of type t. */
  function ResultType(opc: Opcode, t: Type): Type
  {
    if opc.ICmp? then Bool else t
  }

  /** unary_operate: `+` hands the operand back, `-` negates it, and `!`
      compares it with zero for "not equal", widens that bit to a signed
      int and complements the int.  An operand that is neither integer
      nor floating point, or another operation, gives null. */
  function UnaryOperateSpec(op: OperationType, operand: Value, next: nat, sw: nat): (r: Emitted)
    ensures var ty := TypeOfValue(operand);
      && ((!ty.Int? && !ty.Float?) || op !in {OpAdd, OpSub, OpNot} ==> r == Emitted([], Null))
      && (op == OpAdd && (ty.Int? || ty.Float?) ==> r == Emitted([], operand))
      && (op == OpSub && ty.Int? ==> r.instrs == [Instr(Neg, [operand], ty)])
      && (op == OpNot && ty.Int? ==>
            && |r.instrs| == 3
            && r.instrs[0] == Instr(ICmp(NE), [operand, Const(0, ty)], Bool)
            && r.instrs[1].op == ZExt && r.instrs[2].op == Not
            && TypeOfValue(r.result) == Int(sw))
    ensures r.instrs != [] ==> r.result.Reg? && r.result.index == next + |r.instrs| - 1
    ensures Defined(operand, next) ==> Defined(r.result, next + |r.instrs|) && UsesEarlier(r.instrs, next)
    ensures TypeOfValue(operand).Int? && op in {OpAdd, OpSub, OpNot} ==> TypeOfValue(r.result).Int?
  {
    var ty := TypeOfValue(operand);
    if !ty.Int? && !ty.Float? then Emitted([], Null)
    else
      match op
      case OpAdd => Emitted([], operand)
      case OpSub => Emitted([Instr(if ty.Int? then Neg else FNeg, [operand], ty)], Reg(next, ty))
      case OpNot =>
        var isNonzero := Instr(if ty.Int? then ICmp(NE) else FCmpUNE, [operand, Const(0, ty)], Bool);
        var widened := Instr(ZExt, [Reg(next, Bool)], Int(sw));
        var complemented := Instr(Not, [Reg(next + 1, Int(sw))], Int(sw));
        Emitted([isNonzero, widened, complemented], Reg(next + 2, Int(sw)))
      case _ => Emitted([], Null)
  }

  /** binary_operate: one builder call per operation (`&&` and `||`
      first truncate both operands to one bit), then a zero extension of
      the result to a signed int whose value is dropped: the operation's
      own result is returned.  `!` has no binary form and gives nothing. */
  function BinaryOperateSpec(op: OperationType, left: Value, right: Value, next: nat, sw: nat): (r: Emitted)
    ensures op == OpNot ==> r == Emitted([], Null)
    ensures op != OpNot ==>
      && |r.instrs| >= 2
      && r.instrs[|r.instrs| - 1] == Instr(ZExt, [r.result], Int(sw))
      && r.result == Reg(next + |r.instrs| - 2, TypeOfValue(r.result))
    ensures BinaryOpcode(op).Some? ==>
      r.instrs[0] == Instr(BinaryOpcode(op).value, [left, right], TypeOfValue(r.result))
    ensures op in {OpLt, OpLe, OpGt, OpGe, OpEq, OpNe, OpLand, OpLor} ==> TypeOfValue(r.result) == Bool
    ensures op in {OpLand, OpLor} ==>
      r.instrs[..2] == [Instr(Trunc, [left], Bool), Instr(Trunc, [right], Bool)]
    ensures Defined(left, next) && Defined(right, next) ==>
      Defined(r.result, next + |r.instrs|) && UsesEarlier(r.instrs, next)
    ensures TypeOfValue(left).Int? && op != OpNot ==> TypeOfValue(r.result).Int?
  {
    match BinaryOpcode(op)
    case Some(opc) =>
      var t := ResultType(opc, TypeOfValue(left));
      Emitted([Instr(opc, [left, right], t), Instr(ZExt, [Reg(next, t)], Int(sw))], Reg(next, t))
    case None =>
      if op == OpNot then Emitted([], Null)
      else
        var logical := if op == OpLand then LogicalAnd else LogicalOr;
        Emitted([Instr(Trunc, [left], Bool), Instr(Trunc, [right], Bool),
                 Instr(logical, [Reg(next, Bool), Reg(next + 1, Bool)], Bool),
                 Instr(ZExt, [Reg(next + 2, Bool)], Int(sw))],
                Reg(next + 2, Bool))
  }

  // ---------------------------------------------------------------------
  // Expressions
  // ---------------------------------------------------------------------

  /** An expression the generator gives a value: it names no variable
      (handle(LVal) returns nothing) and calls no function (the call
      forms reach an assert), and its binary nodes carry no `!`. */
  predicate LowerableExpr(e: Expr)
    decreases e, 2
  {
    LowerableBinary(e.low)
  }

  predicate LowerableBinary(b: BinaryExpr)
    decreases b, 1
  {
    match b
    case PassExpr(_, h) => LowerableOperand(h)
    case CombinedExpr(_, s, op, h) => LowerableBinary(s) && op.opType != OpNot && LowerableOperand(h)
  }

  predicate LowerableOperand(h: Operand)
    decreases h, 0
  {
    match h
    case UnaryOperand(u) => LowerableUnary(u)
    case BinaryOperand(b) => LowerableBinary(b)
  }

  predicate LowerableUnary(u: UnaryExpr)
    decreases u, 2
  {
    match u
    case PrimaryForm(p) => LowerablePrimary(p)
    case OpForm(op, x) => op.opType in {OpAdd, OpSub, OpNot} && LowerableUnary(x)
    case CallForm(_) => false
    case CallWithParamsForm(_, _) => false
  }

  predicate LowerablePrimary(p: PrimaryExpr)
    decreases p, 3
  {
    match p
    case ParenExpr(e) => LowerableExpr(e)
    case NumberExpr(_) => true
    case LValExpr(_) => false
  }

  /** handle(Expr): the lowest-precedence expression. */
  function EmitExpr(e: Expr, next: nat, sw: nat): (r: Emitted)
    ensures Defined(r.result, next + |r.instrs|) && UsesEarlier(r.instrs, next)
    ensures LowerableExpr(e) ==> TypeOfValue(r.result).Int?
    decreases e, 2
  {
    EmitBinary(e.low, next, sw)
  }

  /** The BinaryExpr template: the higher expression alone, or the left
      operand, then the right operand, then the operator. */
  function EmitBinary(b: BinaryExpr, next: nat, sw: nat): (r: Emitted)
    ensures Defined(r.result, next + |r.instrs|) && UsesEarlier(r.instrs, next)
    ensures LowerableBinary(b) ==> TypeOfValue(r.result).Int?
    decreases b, 1
  {
    match b
    case PassExpr(_, h) => EmitOperand(h, next, sw)
    case CombinedExpr(_, s, op, h) =>
      var l := EmitBinary(s, next, sw);
      var r := EmitOperand(h, next + |l.instrs|, sw);
      var o := BinaryOperateSpec(op.opType, l.result, r.result, next + |l.instrs| + |r.instrs|, sw);
      UsesEarlierAppend(l.instrs, r.instrs, next);
      UsesEarlierAppend(l.instrs + r.instrs, o.instrs, next);
      Emitted(l.instrs + r.instrs + o.instrs, o.result)
  }

  function EmitOperand(h: Operand, next: nat, sw: nat): (r: Emitted)
    ensures Defined(r.result, next + |r.instrs|) && UsesEarlier(r.instrs, next)
    ensures LowerableOperand(h) ==> TypeOfValue(r.result).Int?
    decreases h, 0
  {
    match h
    case UnaryOperand(u) => EmitUnary(u, next, sw)
    case BinaryOperand(b) => EmitBinary(b, next, sw)
  }

  /** handle(UnaryExpr): an operator applies to its lowered operand; the
      call forms are not lowered and give null. */
  function EmitUnary(u: UnaryExpr, next: nat, sw: nat): (r: Emitted)
    ensures Defined(r.result, next + |r.instrs|) && UsesEarlier(r.instrs, next)
    ensures LowerableUnary(u) ==> TypeOfValue(r.result).Int?
    decreases u, 2
  {
    match u
    case PrimaryForm(p) => EmitPrimary(p, next, sw)
    case OpForm(op, x) =>
      var a := EmitUnary(x, next, sw);
      var o := UnaryOperateSpec(op.opType, a.result, next + |a.instrs|, sw);
      UsesEarlierAppend(a.instrs, o.instrs, next);
      Emitted(a.instrs + o.instrs, o.result)
    case CallForm(_) => Emitted([], Null)
    case CallWithParamsForm(_, _) => Emitted([], Null)
  }

  /** handle(PrimaryExpr): a number is a signed-int constant; handle(LVal)
      produces no value. */
  function EmitPrimary(p: PrimaryExpr, next: nat, sw: nat): (r: Emitted)
    ensures Defined(r.result, next + |r.instrs|) && UsesEarlier(r.instrs, next)
    ensures LowerablePrimary(p) ==> TypeOfValue(r.result).Int?
    decreases p, 3
  {
    match p
    case ParenExpr(e) => EmitExpr(e, next, sw)
    case NumberExpr(n) => Emitted([], NumberConst(n, sw))
    case LValExpr(_) => Emitted([], Null)
  }

  /** handle(Number): ConstantInt::get(signed int, literal), which keeps
      the low `sw` bits of the literal; a literal that fits reads back as
      itself. */
  function NumberConst(n: Number, sw: nat): (v: Value)
    ensures v.Const? && v.ty == Int(sw) && 0 <= v.bits < Pow2(sw)
    ensures Fits(n.intLiteral, sw) ==> Signed(v.bits, sw) == n.intLiteral
    ensures v.bits == n.intLiteral % Pow2(sw)
  {
    SignedWrap(n.intLiteral, sw);
    Const(Wrap(n.intLiteral, sw), Int(sw))
  }

  /** `x` is representable as a signed `w`-bit integer. */
  predicate Fits(x: int, w: nat)
  {
    w > 0 && 0 <= x + Pow2(w - 1) && x < Pow2(w - 1)
  }

  /** A value that fits the width reads back unchanged. */
  lemma SignedWrap(x: int, w: nat)
    ensures Fits(x, w) ==> Signed(Wrap(x, w), w) == x
  {
    if Fits(x, w) {
      var p := Pow2(w);
      assert p == 2 * Pow2(w - 1);
      if x < 0 {
        ModShift(x, p);
      } else {
        ModSmall(x, p);
      }
    }
  }

  lemma ModShift(x: int, p: int)
    requires p > 0 && -p <= x < 0
    ensures x % p == x + p
  {
  }

  lemma ModSmall(x: int, p: int)
    requires 0 <= x < p
    ensures x % p == x
  {
  }

  // ---------------------------------------------------------------------
  // Meaning
  // ---------------------------------------------------------------------

  /** A computed value: its bit pattern and its type. */
  datatype SemVal = SemVal(bits: int, ty: Type)

  /** The meaning of a value after a log has run. */
  function SemOf(v: Value, log: seq<Instr>): SemVal
  {
    SemVal(EvalValue(v, Exec(log)), TypeOfValue(v))
  }

  /** A unary operation on an integer value, as the IR defines the
      instructions unary_operate asks for; None where it asks for none. */
  function UnarySem(op: OperationType, v: SemVal, sw: nat): Option<SemVal>
  {
    if !v.ty.Int? then None
    else
      var w := v.ty.width;
      match op
      case OpAdd => Some(v)
      case OpSub => Some(SemVal(EvalOp(Neg, v.bits, 0, w, w), v.ty))
      case OpNot =>
        var isNonzero := EvalOp(ICmp(NE), v.bits, 0, w, 1);
        var widened := EvalOp(ZExt, isNonzero, 0, 1, sw);
        Some(SemVal(EvalOp(Not, widened, 0, sw, sw), Int(sw)))
      case _ => None
  }

  /** `sdiv` and `srem` have no value for a zero divisor, nor for the most
      negative `w`-bit integer divided by -1, whose quotient overflows. */
  predicate DivisionUndefined(opc: Opcode, a: int, b: int, w: nat)
  {
    && (opc == SDiv || opc == SRem)
    && (Signed(b, w) == 0 || (w > 0 && Signed(a, w) + Pow2(w - 1) == 0 && Signed(b, w) == -1))
  }

  /** A binary operation on integer values; None where the IR refuses
      the instruction (operands of different types) or none is made. */
  function BinarySem(op: OperationType, l: SemVal, r: SemVal): Option<SemVal>
  {
    if !l.ty.Int? || !r.ty.Int? then None
    else
      match BinaryOpcode(op)
      case Some(opc) =>
        if l.ty != r.ty then None
        else if DivisionUndefined(opc, l.bits, r.bits, l.ty.width) then None
        else Some(SemVal(EvalOp(opc, l.bits, r.bits, l.ty.width, Width(ResultType(opc, l.ty))), ResultType(opc, l.ty)))
      case None =>
        if op == OpNot then None
        else
          var a := EvalOp(Trunc, l.bits, 0, l.ty.width, 1);
          var b := EvalOp(Trunc, r.bits, 0, r.ty.width, 1);
          Some(SemVal(EvalOp(if op == OpLand then LogicalAnd else LogicalOr, a, b, 1, 1), Bool))
  }

  /** The value of an expression; None where the code generator produces
      no value (names, calls) or an ill-typed instruction. */
  function DenoteExpr(e: Expr, sw: nat): Option<SemVal>
    decreases e, 2
  {
    DenoteBinary(e.low, sw)
  }

  function DenoteBinary(b: BinaryExpr, sw: nat): Option<SemVal>
    decreases b, 1
  {
    match b
    case PassExpr(_, h) => DenoteOperand(h, sw)
    case CombinedExpr(_, s, op, h) =>
      match DenoteBinary(s, sw)
      case None => None
      case Some(l) =>
        match DenoteOperand(h, sw)
        case None => None
        case Some(r) => BinarySem(op.opType, l, r)
  }

  function DenoteOperand(h: Operand, sw: nat): Option<SemVal>
    decreases h, 0
  {
    match h
    case UnaryOperand(u) => DenoteUnary(u, sw)
    case BinaryOperand(b) => DenoteBinary(b, sw)
  }

  function DenoteUnary(u: UnaryExpr, sw: nat): Option<SemVal>
    decreases u, 2
  {
    match u
    case PrimaryForm(p) => DenotePrimary(p, sw)
    case OpForm(op, x) =>
      (match DenoteUnary(x, sw)
       case None => None
       case Some(v) => UnarySem(op.opType, v, sw))
    case CallForm(_) => None
    case CallWithParamsForm(_, _) => None
  }

  function DenotePrimary(p: PrimaryExpr, sw: nat): Option<SemVal>
    decreases p, 3
  {
    match p
    case ParenExpr(e) => DenoteExpr(e, sw)
    case NumberExpr(n) => Some(SemVal(NumberConst(n, sw).bits, Int(sw)))
    case LValExpr(_) => None
  }

  // ---------------------------------------------------------------------
  // The lowering computes the meaning
  // ---------------------------------------------------------------------

  /** The instructions unary_operate adds compute the operation. */
  lemma UnaryOperateCorrect(op: OperationType, operand: Value, log: seq<Instr>, sw: nat)
    requires Defined(operand, |log|)
    requires UnarySem(op, SemOf(operand, log), sw).Some?
    ensures var em := UnaryOperateSpec(op, operand, |log|, sw);
      SemOf(em.result, log + em.instrs) == UnarySem(op, SemOf(operand, log), sw).value
  {
    var em := UnaryOperateSpec(op, operand, |log|, sw);
    if op == OpAdd {
      assert log + em.instrs == log;
    } else if op == OpSub {
      ExecSnoc(log, em.instrs[0]);
    } else {
      NotCorrect(operand, log, sw);
    }
  }

  lemma NotCorrect(operand: Value, log: seq<Instr>, sw: nat)
    requires Defined(operand, |log|) && TypeOfValue(operand).Int?
    ensures var em := UnaryOperateSpec(OpNot, operand, |log|, sw);
      SemOf(em.result, log + em.instrs) == UnarySem(OpNot, SemOf(operand, log), sw).value
  {
    var n := |log|;
    var ty := TypeOfValue(operand);
    var i0 := Instr(ICmp(NE), [operand, Const(0, ty)], Bool);
    var i1 := Instr(ZExt, [Reg(n, Bool)], Int(sw));
    var i2 := Instr(Not, [Reg(n + 1, Int(sw))], Int(sw));
    assert UnaryOperateSpec(OpNot, operand, n, sw) == Emitted([i0, i1, i2], Reg(n + 2, Int(sw)));
    var e0 := Exec(log);
    var c0 := EvalInstr(i0, e0);
    CompareWithZero(operand, e0, NE);
    var e1 := e0 + [c0];
    var c1 := EvalInstr(i1, e1);
    ZExtReads(e1, n, sw);
    var e2 := e1 + [c1];
    ApplyUnary(Not, Reg(n + 1, Int(sw)), Int(sw), e2);
    ReadRegister(n + 1, Int(sw), e2);
    ThirdOfThree(log, i0, i1, i2);
    ReadRegister(n + 2, Int(sw), Exec(log + [i0, i1, i2]));
  }

  /** The instructions binary_operate adds compute the operation; the
      trailing extension does not disturb the returned value. */
  lemma BinaryOperateCorrect(op: OperationType, left: Value, right: Value, log: seq<Instr>, sw: nat)
    requires Defined(left, |log|) && Defined(right, |log|)
    requires BinarySem(op, SemOf(left, log), SemOf(right, log)).Some?
    ensures var em := BinaryOperateSpec(op, left, right, |log|, sw);
      SemOf(em.result, log + em.instrs) == BinarySem(op, SemOf(left, log), SemOf(right, log)).value
  {
    if BinaryOpcode(op).Some? {
      OpcodeOperateCorrect(op, left, right, log, sw);
    } else {
      LogicalOperateCorrect(op, left, right, log, sw);
    }
  }

  /** binary_operate for an operation with its own instruction. */
  lemma OpcodeOperateCorrect(op: OperationType, left: Value, right: Value, log: seq<Instr>, sw: nat)
    requires Defined(left, |log|) && Defined(right, |log|) && BinaryOpcode(op).Some?
    requires BinarySem(op, SemOf(left, log), SemOf(right, log)).Some?
    ensures var em := BinaryOperateSpec(op, left, right, |log|, sw);
      SemOf(em.result, log + em.instrs) == BinarySem(op, SemOf(left, log), SemOf(right, log)).value
  {
    var em := BinaryOperateSpec(op, left, right, |log|, sw);
    var n := |log|;
    var opc := BinaryOpcode(op).value;
    var t := ResultType(opc, TypeOfValue(left));
    var i0 := Instr(opc, [left, right], t);
    var i1 := Instr(ZExt, [Reg(n, t)], Int(sw));
    assert em.instrs == [i0, i1] && em.result == Reg(n, t);
    FirstOfTwo(log, i0, i1);
    ApplyBinary(opc, left, right, t, Exec(log));
  }

  /** binary_operate for `&&` and `||`: both operands truncated to one
      bit, then the connective. */
  lemma LogicalOperateCorrect(op: OperationType, left: Value, right: Value, log: seq<Instr>, sw: nat)
    requires Defined(left, |log|) && Defined(right, |log|) && BinaryOpcode(op).None?
    requires BinarySem(op, SemOf(left, log), SemOf(right, log)).Some?
    ensures var em := BinaryOperateSpec(op, left, right, |log|, sw);
      SemOf(em.result, log + em.instrs) == BinarySem(op, SemOf(left, log), SemOf(right, log)).value
  {
    var em := BinaryOperateSpec(op, left, right, |log|, sw);
    var n := |log|;
    var e0 := Exec(log);
    var logical := if op == OpLand then LogicalAnd else LogicalOr;
    var i0 := Instr(Trunc, [left], Bool);
    var i1 := Instr(Trunc, [right], Bool);
    var i2 := Instr(logical, [Reg(n, Bool), Reg(n + 1, Bool)], Bool);
    var i3 := Instr(ZExt, [Reg(n + 2, Bool)], Int(sw));
    assert em.instrs == [i0, i1, i2, i3] && em.result == Reg(n + 2, Bool);
    ThirdOfFour(log, i0, i1, i2, i3);
    var c0 := EvalInstr(i0, e0);
    var e1 := e0 + [c0];
    var c1 := EvalInstr(i1, e1);
    var e2 := e1 + [c1];
    OnRegisters(e2, n, logical);
    assert e2[n] == c0 && e2[n + 1] == c1;
    ApplyUnary(Trunc, left, Bool, e0);
    EvalExtend(right, e0, [c0]);
    ApplyUnary(Trunc, right, Bool, e1);
  }

  /** Appending three parts at once appends them one after the other. */
  lemma Regroup<T>(log: seq<T>, a: seq<T>, b: seq<T>, c: seq<T>)
    ensures log + (a + b + c) == log + a + b + c
  {
  }

  /** Running what the generator emits for an expression that has a
      meaning leaves that meaning in the value it returns. */
  lemma {:induction false} EmitExprCorrect(e: Expr, log: seq<Instr>, sw: nat)
    requires DenoteExpr(e, sw).Some?
    ensures var em := EmitExpr(e, |log|, sw);
      SemOf(em.result, log + em.instrs) == DenoteExpr(e, sw).value
    decreases e, 2
  {
    EmitBinaryCorrect(e.low, log, sw);
  }

  lemma {:induction false} EmitBinaryCorrect(b: BinaryExpr, log: seq<Instr>, sw: nat)
    requires DenoteBinary(b, sw).Some?
    ensures var em := EmitBinary(b, |log|, sw);
      SemOf(em.result, log + em.instrs) == DenoteBinary(b, sw).value
    decreases b, 1
  {
    if b.PassExpr? {
      EmitOperandCorrect(b.higher, log, sw);
    } else {
      EmitCombinedCorrect(b, log, sw);
    }
  }

  lemma {:induction false} EmitCombinedCorrect(b: BinaryExpr, log: seq<Instr>, sw: nat)
    requires b.CombinedExpr? && DenoteBinary(b, sw).Some?
    ensures var em := EmitBinary(b, |log|, sw);
      SemOf(em.result, log + em.instrs) == DenoteBinary(b, sw).value
    decreases b, 0
  {
    DenoteCombined(b, sw);
    EmitBinaryCorrect(b.self, log, sw);
    EmitOperandCorrect(b.higher, log + EmitBinary(b.self, |log|, sw).instrs, sw);
    CombinedFromParts(b, log, sw);
  }

  /** A combined node's emitted run computes the operator on the values
      its operands' runs compute. */
  lemma CombinedFromParts(b: BinaryExpr, log: seq<Instr>, sw: nat)
    requires b.CombinedExpr? && DenoteBinary(b.self, sw).Some? && DenoteOperand(b.higher, sw).Some?
    requires BinarySem(b.op.opType, DenoteBinary(b.self, sw).value, DenoteOperand(b.higher, sw).value).Some?
    requires var l := EmitBinary(b.self, |log|, sw);
      SemOf(l.result, log + l.instrs) == DenoteBinary(b.self, sw).value
    requires var l := EmitBinary(b.self, |log|, sw);
      var r := EmitOperand(b.higher, |log + l.instrs|, sw);
      SemOf(r.result, log + l.instrs + r.instrs) == DenoteOperand(b.higher, sw).value
    ensures var em := EmitBinary(b, |log|, sw);
      SemOf(em.result, log + em.instrs)
        == BinarySem(b.op.opType, DenoteBinary(b.self, sw).value, DenoteOperand(b.higher, sw).value).value
  {
    var l := EmitBinary(b.self, |log|, sw);
    var r := EmitOperand(b.higher, |log| + |l.instrs|, sw);
    CombinedShape(b, |log|, sw);
    CombinedGlue(EmitBinary(b, |log|, sw), l, r, b.op.opType, log, sw,
      DenoteBinary(b.self, sw).value, DenoteOperand(b.higher, sw).value);
  }

  /** CombinedCorrect, for a run of the combined shape and operand
      meanings given by name. */
  lemma CombinedGlue(em: Emitted, l: Emitted, r: Emitted, op: OperationType, log: seq<Instr>, sw: nat, lv: SemVal, rv: SemVal)
    requires Defined(l.result, |log| + |l.instrs|)
    requires Defined(r.result, |log| + |l.instrs| + |r.instrs|)
    requires SemOf(l.result, log + l.instrs) == lv && SemOf(r.result, log + l.instrs + r.instrs) == rv
    requires BinarySem(op, lv, rv).Some?
    requires var o := BinaryOperateSpec(op, l.result, r.result, |log| + |l.instrs| + |r.instrs|, sw);
      em == Emitted(l.instrs + r.instrs + o.instrs, o.result)
    ensures SemOf(em.result, log + em.instrs) == BinarySem(op, lv, rv).value
  {
    CombinedCorrect(op, l, r, log, sw);
  }

  /** A combined node has a meaning exactly when both operands have one
      and the operator gives their meanings one. */
  lemma DenoteCombined(b: BinaryExpr, sw: nat)
    requires b.CombinedExpr? && DenoteBinary(b, sw).Some?
    ensures DenoteBinary(b.self, sw).Some? && DenoteOperand(b.higher, sw).Some?
    ensures DenoteBinary(b, sw) == BinarySem(b.op.opType, DenoteBinary(b.self, sw).value, DenoteOperand(b.higher, sw).value)
  {
  }

  /** What is emitted for a combined node: the left operand's run, the
      right operand's run, then the operator's. */
  lemma CombinedShape(b: BinaryExpr, next: nat, sw: nat)
    requires b.CombinedExpr?
    ensures var l := EmitBinary(b.self, next, sw);
      var r := EmitOperand(b.higher, next + |l.instrs|, sw);
      var o := BinaryOperateSpec(b.op.opType, l.result, r.result, next + |l.instrs| + |r.instrs|, sw);
      EmitBinary(b, next, sw) == Emitted(l.instrs + r.instrs + o.instrs, o.result)
  {
  }

  /** CombinedShape at the positions the lowering reaches: the left
      operand's instructions start at p0, the right operand's at p1 and
      the operator's at p2. */
  lemma CombinedShapeAt(b: BinaryExpr, sw: nat, p0: nat, p1: nat, p2: nat, left: Value, right: Value)
    requires b.CombinedExpr?
    requires p1 == p0 + |EmitBinary(b.self, p0, sw).instrs| && left == EmitBinary(b.self, p0, sw).result
    requires p2 == p1 + |EmitOperand(b.higher, p1, sw).instrs| && right == EmitOperand(b.higher, p1, sw).result
    ensures EmitBinary(b, p0, sw).instrs
      == EmitBinary(b.self, p0, sw).instrs + EmitOperand(b.higher, p1, sw).instrs
         + BinaryOperateSpec(b.op.opType, left, right, p2, sw).instrs
    ensures EmitBinary(b, p0, sw).result == BinaryOperateSpec(b.op.opType, left, right, p2, sw).result
  {
    CombinedShape(b, p0, sw);
  }

  /** Three appends one after the other append their concatenation. */
  lemma AppendThree<T>(start: seq<T>, afterLeft: seq<T>, afterRight: seq<T>, final: seq<T>,
                       a: seq<T>, b: seq<T>, c: seq<T>)
    requires afterLeft == start + a && afterRight == afterLeft + b && final == afterRight + c
    ensures final == start + (a + b + c)
  {
  }

  /** The step of the template for a combined node: left operand, right
      operand, operator. */
  lemma CombinedCorrect(op: OperationType, l: Emitted, r: Emitted, log: seq<Instr>, sw: nat)
    requires Defined(l.result, |log| + |l.instrs|)
    requires Defined(r.result, |log| + |l.instrs| + |r.instrs|)
    requires BinarySem(op, SemOf(l.result, log + l.instrs), SemOf(r.result, log + l.instrs + r.instrs)).Some?
    ensures var o := BinaryOperateSpec(op, l.result, r.result, |log| + |l.instrs| + |r.instrs|, sw);
      SemOf(o.result, log + (l.instrs + r.instrs + o.instrs))
        == BinarySem(op, SemOf(l.result, log + l.instrs), SemOf(r.result, log + l.instrs + r.instrs)).value
  {
    var log1 := log + l.instrs;
    var log2 := log1 + r.instrs;
    EvalStable(l.result, log1, r.instrs);
    var o := BinaryOperateSpec(op, l.result, r.result, |log2|, sw);
    BinaryOperateCorrect(op, l.result, r.result, log2, sw);
    Regroup(log, l.instrs, r.instrs, o.instrs);
  }

  lemma {:induction false} EmitOperandCorrect(h: Operand, log: seq<Instr>, sw: nat)
    requires DenoteOperand(h, sw).Some?
    ensures var em := EmitOperand(h, |log|, sw);
      SemOf(em.result, log + em.instrs) == DenoteOperand(h, sw).value
    decreases h, 0
  {
    match h
    case UnaryOperand(u) => EmitUnaryCorrect(u, log, sw);
    case BinaryOperand(b) => EmitBinaryCorrect(b, log, sw);
  }

  lemma {:induction false} EmitUnaryCorrect(u: UnaryExpr, log: seq<Instr>, sw: nat)
    requires DenoteUnary(u, sw).Some?
    ensures var em := EmitUnary(u, |log|, sw);
      SemOf(em.result, log + em.instrs) == DenoteUnary(u, sw).value
    decreases u, 2
  {
    match u
    case PrimaryForm(p) =>
      EmitPrimaryCorrect(p, log, sw);
    case OpForm(op, x) =>
      DenoteOpForm(u, sw);
      var a := EmitUnary(x, |log|, sw);
      EmitUnaryCorrect(x, log, sw);
      var log1 := log + a.instrs;
      var o := UnaryOperateSpec(op.opType, a.result, |log1|, sw);
      UnaryOperateCorrect(op.opType, a.result, log1, sw);
      OpFormShape(u, sw, |log|, |log1|, a.result);
      AppendTwo(log, log1, a.instrs, o.instrs);
  }

  /** An operator applied to an operand has a meaning exactly when the
      operand has one and the operator gives it one. */
  lemma DenoteOpForm(u: UnaryExpr, sw: nat)
    requires u.OpForm? && DenoteUnary(u, sw).Some?
    ensures DenoteUnary(u.operand, sw).Some?
    ensures DenoteUnary(u, sw) == UnarySem(u.unaryOp.opType, DenoteUnary(u.operand, sw).value, sw)
  {
  }

  /** What is emitted for an operator applied to an operand: the
      operand's run from p0, then the operator's from p1. */
  lemma OpFormShape(u: UnaryExpr, sw: nat, p0: nat, p1: nat, operand: Value)
    requires u.OpForm?
    requires p1 == p0 + |EmitUnary(u.operand, p0, sw).instrs| && operand == EmitUnary(u.operand, p0, sw).result
    ensures EmitUnary(u, p0, sw).instrs
      == EmitUnary(u.operand, p0, sw).instrs + UnaryOperateSpec(u.unaryOp.opType, operand, p1, sw).instrs
    ensures EmitUnary(u, p0, sw).result == UnaryOperateSpec(u.unaryOp.opType, operand, p1, sw).result
  {
  }

  /** Two appends one after the other append their concatenation. */
  lemma AppendTwo<T>(start: seq<T>, mid: seq<T>, a: seq<T>, b: seq<T>)
    requires mid == start + a
    ensures start + (a + b) == mid + b
  {
  }

  lemma {:induction false} EmitPrimaryCorrect(p: PrimaryExpr, log: seq<Instr>, sw: nat)
    requires DenotePrimary(p, sw).Some?
    ensures var em := EmitPrimary(p, |log|, sw);
      SemOf(em.result, log + em.instrs) == DenotePrimary(p, sw).value
    decreases p, 3
  {
    match p
    case ParenExpr(e) =>
      EmitExprCorrect(e, log, sw);
    case NumberExpr(_) =>
      assert log + [] == log;
  }

  // ---------------------------------------------------------------------
  // Operators as written against the C operators they implement
  // ---------------------------------------------------------------------

  lemma Pow2AtLeastFour(w: nat)
    requires w >= 2
    ensures Pow2(w) >= 4
  {
    assert Pow2(w) == 4 * Pow2(w - 2);
  }

  /** `!x` as written: the zero test is "not equal" and the bit is then
      complemented as a whole int, so the result is all ones or all ones
      but the last bit, never the 0 or 1 that C's `!` yields. */
  lemma NotAsWritten(v: SemVal, sw: nat)
    requires v.ty.Int? && 0 <= v.bits < Pow2(v.ty.width) && sw >= 2
    ensures UnarySem(OpNot, v, sw)
      == Some(SemVal(if v.bits == 0 then Pow2(sw) - 1 else Pow2(sw) - 2, Int(sw)))
    ensures UnarySem(OpNot, v, sw).value.bits !in {0, 1}
  {
    SignedZero(v.bits, v.ty.width);
    Pow2AtLeastFour(sw);
    ModShift(-1, Pow2(sw));
    ModShift(-2, Pow2(sw));
  }

  /** `!x` as section 6.5.3.3 of ISO C11 defines it: compare with zero for
      equality and widen that bit to a signed int. */
  function CorrectedNotSpec(operand: Value, next: nat, sw: nat): (r: Emitted)
    ensures |r.instrs| == 2 && r.result == Reg(next + 1, Int(sw))
    ensures r.instrs[0].op == ICmp(EQ) && r.instrs[1] == Instr(ZExt, [Reg(next, Bool)], Int(sw))
    ensures Defined(operand, next) ==> UsesEarlier(r.instrs, next)
  {
    var isZero := Instr(ICmp(EQ), [operand, Const(0, TypeOfValue(operand))], Bool);
    Emitted([isZero, Instr(ZExt, [Reg(next, Bool)], Int(sw))], Reg(next + 1, Int(sw)))
  }

  /** The corrected `!` yields 1 for a zero operand and 0 otherwise, as a
      signed int. */
  lemma CorrectedNotIsLogicalNot(operand: Value, log: seq<Instr>, sw: nat)
    requires Defined(operand, |log|) && TypeOfValue(operand).Int?
    requires 0 <= EvalValue(operand, Exec(log)) < Pow2(TypeOfValue(operand).width)
    ensures var em := CorrectedNotSpec(operand, |log|, sw);
      SemOf(em.result, log + em.instrs)
        == SemVal(if EvalValue(operand, Exec(log)) == 0 then 1 else 0, Int(sw))
  {
    var n := |log|;
    var ty := TypeOfValue(operand);
    var i0 := Instr(ICmp(EQ), [operand, Const(0, ty)], Bool);
    assert CorrectedNotSpec(operand, n, sw).instrs == [i0, Instr(ZExt, [Reg(n, Bool)], Int(sw))];
    Widened(log, i0, sw);
    CompareWithZero(operand, Exec(log), EQ);
    ZeroTest(EvalValue(operand, Exec(log)), ty.width);
  }

  /** Signed division and remainder have a meaning exactly when the
      divisor is not zero and the quotient does not overflow. */
  lemma DivisionMeaning(op: OperationType, l: SemVal, r: SemVal)
    requires op in {OpDiv, OpMod} && l.ty.Int? && r.ty == l.ty
    ensures var w := l.ty.width;
      (BinarySem(op, l, r).None? <==>
        (Signed(r.bits, w) == 0 || (w > 0 && Signed(l.bits, w) + Pow2(w - 1) == 0 && Signed(r.bits, w) == -1)))
  {
  }

  /** INT_MIN / -1 and INT_MIN % -1 on a 32-bit int have no meaning, nor
      has a division by zero. */
  lemma DivisionUndefinedCases()
    ensures BinarySem(OpDiv, SemVal(0x8000_0000, Int(32)), SemVal(0xFFFF_FFFF, Int(32))).None?
    ensures BinarySem(OpMod, SemVal(0x8000_0000, Int(32)), SemVal(0xFFFF_FFFF, Int(32))).None?
    ensures BinarySem(OpDiv, SemVal(7, Int(32)), SemVal(0, Int(32))).None?
  {
    Pow2ThirtyTwo();
    var int32 := Int(32);
    DivisionMeaning(OpDiv, SemVal(0x8000_0000, int32), SemVal(0xFFFF_FFFF, int32));
    DivisionMeaning(OpMod, SemVal(0x8000_0000, int32), SemVal(0xFFFF_FFFF, int32));
    DivisionMeaning(OpDiv, SemVal(7, int32), SemVal(0, int32));
  }

  /** The powers of two a 32-bit int is built from. */
  lemma Pow2ThirtyTwo()
    ensures Pow2(31) == 0x8000_0000 && Pow2(32) == 0x1_0000_0000
  {
    assert Pow2(4) == 16;
    Pow2Add(4, 4);
    Pow2Add(8, 8);
    Pow2Add(16, 16);
  }

  /** Exponents add where powers multiply. */
  lemma {:induction false} Pow2Add(a: nat, b: nat)
    ensures Pow2(a + b) == Pow2(a) * Pow2(b)
  {
    if a > 0 {
      Pow2Add(a - 1, b);
      assert Pow2(a + b) == 2 * Pow2(a - 1 + b);
    }
  }

  /** `&&` as written truncates each operand to its lowest bit, so
      `2 && 1` is 0 where C gives 1, and `2 || 0` is 0 where C gives 1. */
  lemma LogicalOpsAsWritten()
    ensures BinarySem(OpLand, SemVal(2, Int(32)), SemVal(1, Int(32))) == Some(SemVal(0, Bool))
    ensures BinarySem(OpLor, SemVal(2, Int(32)), SemVal(0, Int(32))) == Some(SemVal(0, Bool))
  {
  }

  /** A compare's value as written stays one bit wide, since the
      extension binary_operate makes is dropped: `(1 < 2) + 1` adds an i1
      to an int, which the IR refuses. */
  lemma ComparisonAsWritten()
    ensures BinarySem(OpLt, SemVal(1, Int(32)), SemVal(2, Int(32))) == Some(SemVal(1, Bool))
    ensures BinarySem(OpAdd, SemVal(1, Bool), SemVal(1, Int(32))).None?
  {
  }

  /** The C relation or logical connective an operation stands for, on
      signed values. */
  predicate CHolds(op: OperationType, x: int, y: int)
  {
    match op
    case OpLt => x < y
    case OpLe => x <= y
    case OpGt => x > y
    case OpGe => x >= y
    case OpEq => x == y
    case OpNe => x != y
    case OpLand => x != 0 && y != 0
    case OpLor => x != 0 || y != 0
    case _ => false
  }

  /** binary_operate as intended: `&&` and `||` test each operand against
      zero instead of truncating it, and the widened result is the value
      returned, so every binary operation yields a signed int. */
  function CorrectedBinaryOperateSpec(op: OperationType, left: Value, right: Value, next: nat, sw: nat): (r: Emitted)
    ensures op != OpNot ==>
      && |r.instrs| >= 2
      && r.result == Reg(next + |r.instrs| - 1, Int(sw))
      && r.instrs[|r.instrs| - 1].op == ZExt
    ensures op in {OpLand, OpLor} ==> r.instrs[0].op == ICmp(NE) && r.instrs[1].op == ICmp(NE)
    ensures Defined(left, next) && Defined(right, next) ==> UsesEarlier(r.instrs, next)
  {
    match BinaryOpcode(op)
    case Some(opc) =>
      var t := ResultType(opc, TypeOfValue(left));
      Emitted([Instr(opc, [left, right], t), Instr(ZExt, [Reg(next, t)], Int(sw))], Reg(next + 1, Int(sw)))
    case None =>
      if op == OpNot then Emitted([], Null)
      else
        var logical := if op == OpLand then LogicalAnd else LogicalOr;
        Emitted([Instr(ICmp(NE), [left, Const(0, TypeOfValue(left))], Bool),
                 Instr(ICmp(NE), [right, Const(0, TypeOfValue(right))], Bool),
                 Instr(logical, [Reg(next, Bool), Reg(next + 1, Bool)], Bool),
                 Instr(ZExt, [Reg(next + 2, Bool)], Int(sw))],
                Reg(next + 3, Int(sw)))
  }

  /** Compares, corrected, yield 1 when the C relation holds of the
      signed operands and 0 when it does not. */
  lemma CorrectedCompareIsC(op: OperationType, left: Value, right: Value, log: seq<Instr>, sw: nat)
    requires op in {OpLt, OpLe, OpGt, OpGe, OpEq, OpNe}
    requires TypeOfValue(left) == Int(sw)
    ensures var em := CorrectedBinaryOperateSpec(op, left, right, |log|, sw);
      var x, y := Signed(EvalValue(left, Exec(log)), sw), Signed(EvalValue(right, Exec(log)), sw);
      SemOf(em.result, log + em.instrs) == SemVal(if CHolds(op, x, y) then 1 else 0, Int(sw))
  {
    var n := |log|;
    var i0 := Instr(BinaryOpcode(op).value, [left, right], Bool);
    assert CorrectedBinaryOperateSpec(op, left, right, n, sw).instrs == [i0, Instr(ZExt, [Reg(n, Bool)], Int(sw))];
    Widened(log, i0, sw);
    ApplyBinary(BinaryOpcode(op).value, left, right, Bool, Exec(log));
    CompareIsC(op, EvalValue(left, Exec(log)), EvalValue(right, Exec(log)), sw);
  }

  /** `&&` and `||`, corrected, yield 1 when the C connective holds of
      the operands and 0 when it does not. */
  lemma CorrectedLogicalIsC(op: OperationType, left: Value, right: Value, log: seq<Instr>, sw: nat)
    requires op in {OpLand, OpLor}
    requires Defined(left, |log|) && Defined(right, |log|)
    requires TypeOfValue(left) == TypeOfValue(right) == Int(sw)
    requires 0 <= EvalValue(left, Exec(log)) < Pow2(sw) && 0 <= EvalValue(right, Exec(log)) < Pow2(sw)
    ensures var em := CorrectedBinaryOperateSpec(op, left, right, |log|, sw);
      var x, y := Signed(EvalValue(left, Exec(log)), sw), Signed(EvalValue(right, Exec(log)), sw);
      SemOf(em.result, log + em.instrs) == SemVal(if CHolds(op, x, y) then 1 else 0, Int(sw))
  {
    var n := |log|;
    var logical := if op == OpLand then LogicalAnd else LogicalOr;
    var i0 := Instr(ICmp(NE), [left, Const(0, Int(sw))], Bool);
    var i1 := Instr(ICmp(NE), [right, Const(0, Int(sw))], Bool);
    assert CorrectedBinaryOperateSpec(op, left, right, n, sw).instrs
      == [i0, i1, Instr(logical, [Reg(n, Bool), Reg(n + 1, Bool)], Bool), Instr(ZExt, [Reg(n + 2, Bool)], Int(sw))];
    LogicalRun(log, left, right, logical, sw);
    LogicalIsC(op, EvalValue(left, Exec(log)), EvalValue(right, Exec(log)), sw);
  }

  /** Running the corrected `&&` or `||`: both zero tests, then the
      connective on the two bits, then the widening. */
  lemma LogicalRun(log: seq<Instr>, left: Value, right: Value, logical: Opcode, sw: nat)
    requires Defined(right, |log|)
    requires TypeOfValue(left) == TypeOfValue(right) == Int(sw)
    ensures var n := |log|;
      var four := [Instr(ICmp(NE), [left, Const(0, Int(sw))], Bool),
                   Instr(ICmp(NE), [right, Const(0, Int(sw))], Bool),
                   Instr(logical, [Reg(n, Bool), Reg(n + 1, Bool)], Bool),
                   Instr(ZExt, [Reg(n + 2, Bool)], Int(sw))];
      var a, b := EvalValue(left, Exec(log)), EvalValue(right, Exec(log));
      SemOf(Reg(n + 3, Int(sw)), log + four)
        == SemVal(EvalOp(logical, EvalOp(ICmp(NE), a, 0, sw, 1), EvalOp(ICmp(NE), b, 0, sw, 1), 1, 1), Int(sw))
  {
    var n := |log|;
    var i0 := Instr(ICmp(NE), [left, Const(0, Int(sw))], Bool);
    var i1 := Instr(ICmp(NE), [right, Const(0, Int(sw))], Bool);
    var i2 := Instr(logical, [Reg(n, Bool), Reg(n + 1, Bool)], Bool);
    var e0 := Exec(log);
    var c0 := EvalInstr(i0, e0);
    var e1 := e0 + [c0];
    var c1 := EvalInstr(i1, e1);
    var e2 := e1 + [c1];
    AppendFourth(log, i0, i1, i2, Instr(ZExt, [Reg(n + 2, Bool)], Int(sw)));
    WidenRegister(log + [i0, i1, i2], n + 2, sw);
    ThirdOfThree(log, i0, i1, i2);
    OnRegisters(e2, n, logical);
    assert e2[n] == c0 && e2[n + 1] == c1;
    CompareWithZero(left, e0, NE);
    EvalExtend(right, e0, [c0]);
    CompareWithZero(right, e1, NE);
  }

  /** The zero tests on bit patterns. */
  lemma ZeroTest(x: int, w: nat)
    requires 0 <= x < Pow2(w)
    ensures EvalOp(ICmp(EQ), x, 0, w, 1) == if x == 0 then 1 else 0
    ensures EvalOp(ICmp(NE), x, 0, w, 1) == if x != 0 then 1 else 0
  {
    SignedZero(x, w);
  }

  /** The signed compares are the C relations. */
  lemma CompareIsC(op: OperationType, a: int, b: int, w: nat)
    requires op in {OpLt, OpLe, OpGt, OpGe, OpEq, OpNe}
    ensures EvalOp(ICmp(BinaryOpcode(op).value.pred), a, b, w, 1)
      == if CHolds(op, Signed(a, w), Signed(b, w)) then 1 else 0
  {
  }

  /** Testing both operands against zero and combining the bits is the C
      connective. */
  lemma LogicalIsC(op: OperationType, a: int, b: int, w: nat)
    requires op in {OpLand, OpLor}
    requires 0 <= a < Pow2(w) && 0 <= b < Pow2(w)
    ensures EvalOp(if op == OpLand then LogicalAnd else LogicalOr,
                   EvalOp(ICmp(NE), a, 0, w, 1), EvalOp(ICmp(NE), b, 0, w, 1), 1, 1)
      == if CHolds(op, Signed(a, w), Signed(b, w)) then 1 else 0
  {
    ZeroTest(a, w);
    ZeroTest(b, w);
    SignedZero(a, w);
    SignedZero(b, w);
  }

  // ---------------------------------------------------------------------
  // Single steps of a run
  // ---------------------------------------------------------------------

  lemma ExecTwo(log: seq<Instr>, i0: Instr, i1: Instr)
    ensures var e0 := Exec(log); var c := EvalInstr(i0, e0);
      Exec(log + [i0, i1]) == e0 + [c, EvalInstr(i1, e0 + [c])]
  {
    ExecSnoc(log, i0);
    ExecSnoc(log + [i0], i1);
    assert log + [i0] + [i1] == log + [i0, i1];
  }

  lemma ExecFour(log: seq<Instr>, i0: Instr, i1: Instr, i2: Instr, i3: Instr)
    ensures var e0 := Exec(log);
      var e1 := e0 + [EvalInstr(i0, e0)];
      var e2 := e1 + [EvalInstr(i1, e1)];
      var e3 := e2 + [EvalInstr(i2, e2)];
      Exec(log + [i0, i1, i2, i3]) == e3 + [EvalInstr(i3, e3)]
  {
    var a1 := log + [i0];
    var a2 := a1 + [i1];
    var a3 := a2 + [i2];
    ExecSnoc(log, i0);
    ExecSnoc(a1, i1);
    ExecSnoc(a2, i2);
    ExecSnoc(a3, i3);
    assert a3 + [i3] == log + [i0, i1, i2, i3];
  }

  /** Widening the last value leaves it unchanged. */
  lemma ZExtOfLast(vals: seq<int>, c: int, sw: nat)
    ensures EvalInstr(Instr(ZExt, [Reg(|vals|, Bool)], Int(sw)), vals + [c]) == c
  {
  }

  lemma ExecWidened(log: seq<Instr>, i0: Instr, sw: nat)
    ensures var run := Exec(log + [i0, Instr(ZExt, [Reg(|log|, Bool)], Int(sw))]);
      run[|log| + 1] == EvalInstr(i0, Exec(log))
      && EvalValue(Reg(|log| + 1, Int(sw)), run) == EvalInstr(i0, Exec(log))
  {
    var run := Exec(log + [i0, Instr(ZExt, [Reg(|log|, Bool)], Int(sw))]);
    ExecTwo(log, i0, Instr(ZExt, [Reg(|log|, Bool)], Int(sw)));
    ZExtOfLast(Exec(log), EvalInstr(i0, Exec(log)), sw);
    ReadRegister(|log| + 1, Int(sw), run);
  }

  lemma ReadRegister(i: nat, t: Type, vals: seq<int>)
    requires i < |vals|
    ensures EvalValue(Reg(i, t), vals) == vals[i]
  {
  }

  /** A value followed by its widening to a signed int: the widened
      value is the original one. */
  lemma Widened(log: seq<Instr>, i0: Instr, sw: nat)
    ensures var n := |log|;
      SemOf(Reg(n + 1, Int(sw)), log + [i0, Instr(ZExt, [Reg(n, Bool)], Int(sw))])
        == SemVal(EvalInstr(i0, Exec(log)), Int(sw))
  {
    ExecWidened(log, i0, sw);
  }

  /** Appending a fourth element to three appends the four. */
  lemma AppendFourth<T>(log: seq<T>, i0: T, i1: T, i2: T, i3: T)
    ensures log + [i0, i1, i2] + [i3] == log + [i0, i1, i2, i3]
  {
  }

  /** Appending the widening of register `k`: the new register holds
      register `k`'s value. */
  lemma WidenRegister(a: seq<Instr>, k: nat, sw: nat)
    requires k < |a|
    ensures SemOf(Reg(|a|, Int(sw)), a + [Instr(ZExt, [Reg(k, Bool)], Int(sw))])
      == SemVal(Exec(a)[k], Int(sw))
  {
    var ins := Instr(ZExt, [Reg(k, Bool)], Int(sw));
    ExecSnoc(a, ins);
    var before := Exec(a);
    ZExtReads(before, k, sw);
    var run := before + [EvalInstr(ins, before)];
    assert run[|a|] == before[k];
    ReadRegister(|a|, Int(sw), run);
  }

  /** The widening of a register reads that register. */
  lemma ZExtReads(vals: seq<int>, k: nat, sw: nat)
    requires k < |vals|
    ensures EvalInstr(Instr(ZExt, [Reg(k, Bool)], Int(sw)), vals) == vals[k]
  {
  }

  /** Three appends of one element each append the three. */
  lemma SnocThree<T>(s: seq<T>, x: T, y: T, z: T)
    ensures s + [x] + [y] + [z] == s + [x, y, z]
  {
  }

  /** The third of three appended values is computed from the first two. */
  lemma ThirdOfThree(log: seq<Instr>, i0: Instr, i1: Instr, i2: Instr)
    ensures var e0 := Exec(log);
      var e1 := e0 + [EvalInstr(i0, e0)];
      var e2 := e1 + [EvalInstr(i1, e1)];
      Exec(log + [i0, i1, i2])[|log| + 2] == EvalInstr(i2, e2)
  {
    var a1 := log + [i0];
    var a2 := a1 + [i1];
    SnocThree(log, i0, i1, i2);
    ExecSnoc(log, i0);
    ExecSnoc(a1, i1);
    ExecSnoc(a2, i2);
    var before := Exec(a2);
    assert |before| == |log| + 2;
    assert (before + [EvalInstr(i2, before)])[|log| + 2] == EvalInstr(i2, before);
  }

  lemma OnRegisters(vals: seq<int>, n: nat, opc: Opcode)
    requires |vals| == n + 2
    ensures EvalInstr(Instr(opc, [Reg(n, Bool), Reg(n + 1, Bool)], Bool), vals)
      == EvalOp(opc, vals[n], vals[n + 1], 1, 1)
  {
  }

  lemma CompareWithZero(operand: Value, vals: seq<int>, p: Pred)
    ensures var ty := TypeOfValue(operand);
      EvalInstr(Instr(ICmp(p), [operand, Const(0, ty)], Bool), vals)
        == EvalOp(ICmp(p), EvalValue(operand, vals), 0, Width(ty), 1)
  {
  }

  lemma ApplyBinary(opc: Opcode, x: Value, y: Value, t: Type, vals: seq<int>)
    ensures EvalInstr(Instr(opc, [x, y], t), vals)
      == EvalOp(opc, EvalValue(x, vals), EvalValue(y, vals), Width(TypeOfValue(x)), Width(t))
  {
  }

  lemma ApplyUnary(opc: Opcode, x: Value, t: Type, vals: seq<int>)
    ensures EvalInstr(Instr(opc, [x], t), vals)
      == EvalOp(opc, EvalValue(x, vals), 0, Width(TypeOfValue(x)), Width(t))
  {
  }

  lemma FirstOfTwo(log: seq<Instr>, i0: Instr, i1: Instr)
    ensures Exec(log + [i0, i1])[|log|] == EvalInstr(i0, Exec(log))
  {
    ExecTwo(log, i0, i1);
  }

  lemma ThirdOfFour(log: seq<Instr>, i0: Instr, i1: Instr, i2: Instr, i3: Instr)
    ensures var e0 := Exec(log);
      var e1 := e0 + [EvalInstr(i0, e0)];
      var e2 := e1 + [EvalInstr(i1, e1)];
      Exec(log + [i0, i1, i2, i3])[|log| + 2] == EvalInstr(i2, e2)
  {
    ExecFour(log, i0, i1, i2, i3);
  }

  lemma EvalExtend(v: Value, vals: seq<int>, more: seq<int>)
    requires Defined(v, |vals|)
    ensures EvalValue(v, vals + more) == EvalValue(v, vals)
  {
  }
}
