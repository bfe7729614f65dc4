/**
  The code generator's visitor (src/backend/codegen_visitor.cpp): the
  entry check, the mapping of source types to IR types, the lowering of
  expressions and return statements through an IR builder, and the
  handling of constant declarations.  The builder is a log of requests
  that only grows; the functions of module Lowering say what each
  lowering step appends.
*/
module Codegen {
  import opened Wrappers
  import opened IrTypes
  import opened Ir
  import opened Ast
  import opened Lowering

  /** The type manager's two integer types, as bit widths; the type
      manager itself (type_mgr.hpp) is not part of this model. */
  datatype TypeMgr = TypeMgr(signedWidth: nat, unsignedWidth: nat)

  /** The node visit is handed: a compilation unit or any other node. */
  datatype Root = CompUnitRoot(unit: CompUnit) | OtherRoot

  /** visit: refuses a missing node and any node that is not a
      compilation unit, each with its own message. */
  function Visit(root: Option<Root>): (r: Result<(), string>)
    ensures r.Ok? <==> root.Some? && root.value.CompUnitRoot?
    ensures root.None? ==> r == Err("visit paramater is null")
    ensures root.Some? && !root.value.CompUnitRoot? ==>
      r == Err("output visitor paramater should be a CompUnit")
  {
    match root
    case None => Err("visit paramater is null")
    case Some(CompUnitRoot(_)) => Ok(())
    case Some(OtherRoot) => Err("output visitor paramater should be a CompUnit")
  }

  /** handle(BuiltinType): signed and unsigned int map to the type
      manager's integer types, void to void. */
  function HandleBuiltinType(mgr: TypeMgr, t: BuiltinType): (r: Type)
    ensures r == Void <==> t.builtin == TyVoid
    ensures t.builtin == TySignedInt ==> r == Int(mgr.signedWidth)
    ensures t.builtin == TyUnsignedInt ==> r == Int(mgr.unsignedWidth)
  {
    match t.builtin
    case TySignedInt => Int(mgr.signedWidth)
    case TyUnsignedInt => Int(mgr.unsignedWidth)
    case TyVoid => Void
  }

  /** handle(ScalarType): the same mapping, which never meets void. */
  function HandleScalarType(mgr: TypeMgr, t: ScalarType): (r: Type)
    ensures r.Int? && r == HandleBuiltinType(mgr, BuiltinType(t.scalar))
  {
    if t.scalar == TySignedInt then Int(mgr.signedWidth) else Int(mgr.unsignedWidth)
  }

  /** handle(ParamList): the type of each parameter, in order. */
  method HandleParamList(mgr: TypeMgr, node: ParamList) returns (types: seq<Type>)
    ensures |types| == |node.params|
    ensures forall i :: 0 <= i < |types| ==> types[i] == HandleScalarType(mgr, node.params[i].paramType)
    ensures forall i :: 0 <= i < |types| ==> types[i].Int?
  {
    types := [];
    var i := 0;
    while i < |node.params|
      invariant 0 <= i <= |node.params|
      invariant |types| == i
      invariant forall j :: 0 <= j < i ==> types[j] == HandleScalarType(mgr, node.params[j].paramType)
    {
      types := types + [HandleScalarType(mgr, node.params[i].paramType)];
      i := i + 1;
    }
  }

  /** handle(ConstDefList) as written: the vector is resized to the
      list's length, which fills it with nulls, and each definition's
      value is then appended after them.  `handleDef` stands for
      handle(ConstDef, type). */
  method HandleConstDefList(node: ConstDefList, t: Type, handleDef: (ConstDef, Type) -> Value)
    returns (result: seq<Value>)
    ensures |result| == 2 * |node.defs|
    ensures forall i :: 0 <= i < |node.defs| ==> result[i] == Null
    ensures forall i :: 0 <= i < |node.defs| ==> result[|node.defs| + i] == handleDef(node.defs[i], t)
  {
    var n := |node.defs|;
    result := seq(n, _ => Null);
    var i := 0;
    while i < n
      invariant 0 <= i <= n
      invariant |result| == n + i
      invariant forall j :: 0 <= j < n ==> result[j] == Null
      invariant forall j :: 0 <= j < i ==> result[n + j] == handleDef(node.defs[j], t)
    {
      result := result + [handleDef(node.defs[i], t)];
      i := i + 1;
    }
  }

  /** handle(ConstDefList) as intended: one value per definition, in
      order (reserving room rather than resizing). */
  function CorrectedConstDefList(defs: seq<ConstDef>, t: Type, handleDef: (ConstDef, Type) -> Value): (r: seq<Value>)
    ensures |r| == |defs|
    ensures forall i :: 0 <= i < |defs| ==> r[i] == handleDef(defs[i], t)
  {
    if defs == [] then []
    else [handleDef(defs[0], t)] + CorrectedConstDefList(defs[1..], t, handleDef)
  }

  /** handle(ConstDecl): the first definition's value, then what the
      list gives. */
  method HandleConstDecl(mgr: TypeMgr, node: ConstDecl, handleDef: (ConstDef, Type) -> Value)
    returns (values: seq<Value>)
    ensures var t := HandleScalarType(mgr, node.scalarType);
      var n := |node.defList.defs|;
      && |values| == 1 + 2 * n
      && values[0] == handleDef(node.firstDef, t)
      && (forall i :: 1 <= i <= n ==> values[i] == Null)
      && (forall i :: 0 <= i < n ==> values[1 + n + i] == handleDef(node.defList.defs[i], t))
  {
    var t := HandleScalarType(mgr, node.scalarType);
    var first := handleDef(node.firstDef, t);
    var rest := HandleConstDefList(node.defList, t, handleDef);
    values := [first] + rest;
  }

  /** A one-definition list: as written it yields a null before the
      value, where one value is meant. */
  method ConstDefListScenario(d: ConstDef, t: Type, handleDef: (ConstDef, Type) -> Value)
    returns (asWritten: seq<Value>, intended: seq<Value>)
    ensures asWritten == [Null, handleDef(d, t)]
    ensures intended == [handleDef(d, t)]
  {
    var empty := new ConstDefList.Empty();
    var list := new ConstDefList.Append(empty, d);
    asWritten := HandleConstDefList(list, t, handleDef);
    intended := CorrectedConstDefList(list.defs, t, handleDef);
  }

  /** The IR builder the visitor drives, with the width of the target's
      signed int. */
  class Builder {
    var log: seq<Instr>
    const sw: nat

    constructor (mgr: TypeMgr)
      ensures log == [] && sw == mgr.signedWidth
    {
      log := [];
      sw := mgr.signedWidth;
    }

    /** One Create call of the builder: the instruction goes at the end
        of the log and the returned value names it. */
    method Create(op: Opcode, args: seq<Value>, ty: Type) returns (v: Value)
      modifies this`log
      ensures log == old(log) + [Instr(op, args, ty)]
      ensures v == Reg(|old(log)|, ty)
    {
      v := Reg(|log|, ty);
      log := log + [Instr(op, args, ty)];
    }

    /** unary_operate.  It reads the operand's type, so the operand must
        not be null, and `!` builds an integer zero of that type, which
        the IR refuses for a floating-point type. */
    method UnaryOperate(op: Operator, operand: Value) returns (result: Value)
      requires operand != Null
      requires !(op.opType == OpNot && TypeOfValue(operand).Float?)
      modifies this`log
      ensures var em := UnaryOperateSpec(op.opType, operand, |old(log)|, sw);
        log == old(log) + em.instrs && result == em.result
    {
      var ty := TypeOfValue(operand);
      if !ty.Int? && !ty.Float? {
        return Null;
      }
      match op.opType
      case OpAdd =>
        result := operand;
      case OpSub =>
        result := Create(if ty.Int? then Neg else FNeg, [operand], ty);
      case OpNot =>
        var zero := Const(0, ty);
        var isNonzero := Create(if ty.Int? then ICmp(NE) else FCmpUNE, [operand, zero], Bool);
        var intValue := Create(ZExt, [isNonzero], Int(sw));
        result := Create(Not, [intValue], Int(sw));
      case _ =>
        result := Null;
    }

    /** binary_operate: the operation's builder call, then a widening of
        its result that is not used.  `!` ends in an assert. */
    method BinaryOperate(left: Value, op: Operator, right: Value) returns (result: Value)
      requires op.opType != OpNot
      modifies this`log
      ensures var em := BinaryOperateSpec(op.opType, left, right, |old(log)|, sw);
        log == old(log) + em.instrs && result == em.result
    {
      if op.opType == OpLand || op.opType == OpLor {
        var l1 := Create(Trunc, [left], Bool);
        var r1 := Create(Trunc, [right], Bool);
        result := Create(if op.opType == OpLand then LogicalAnd else LogicalOr, [l1, r1], Bool);
      } else {
        var opc := BinaryOpcode(op.opType).value;
        result := Create(opc, [left, right], ResultType(opc, TypeOfValue(left)));
      }
      var widened := Create(ZExt, [result], Int(sw));
    }

    /** handle(Expr). */
    method LowerExpr(e: Expr) returns (v: Value)
      requires LowerableExpr(e)
      modifies this`log
      ensures var em := EmitExpr(e, |old(log)|, sw);
        log == old(log) + em.instrs && v == em.result
      decreases e, 2
    {
      v := LowerBinary(e.low);
    }

    /** The BinaryExpr template: the higher expression alone, or left,
        right, then the operator. */
    method LowerBinary(b: BinaryExpr) returns (v: Value)
      requires LowerableBinary(b)
      modifies this`log
      ensures var em := EmitBinary(b, |old(log)|, sw);
        log == old(log) + em.instrs && v == em.result
      decreases b, 1
    {
      match b
      case PassExpr(_, h) =>
        v := LowerOperand(h);
      case CombinedExpr(_, s, op, h) =>
        ghost var start := log;
        var left := LowerBinary(s);
        ghost var afterLeft := log;
        var right := LowerOperand(h);
        ghost var afterRight := log;
        v := BinaryOperate(left, op, right);
        CombinedShapeAt(b, sw, |start|, |afterLeft|, |afterRight|, left, right);
        AppendThree(start, afterLeft, afterRight, log, EmitBinary(s, |start|, sw).instrs,
          EmitOperand(h, |afterLeft|, sw).instrs, BinaryOperateSpec(op.opType, left, right, |afterRight|, sw).instrs);
    }

    method LowerOperand(h: Operand) returns (v: Value)
      requires LowerableOperand(h)
      modifies this`log
      ensures var em := EmitOperand(h, |old(log)|, sw);
        log == old(log) + em.instrs && v == em.result
      decreases h, 0
    {
      match h
      case UnaryOperand(u) =>
        v := LowerUnary(u);
      case BinaryOperand(b) =>
        v := LowerBinary(b);
    }

    /** handle(UnaryExpr): an operator applies to its lowered operand. */
    method LowerUnary(u: UnaryExpr) returns (v: Value)
      requires LowerableUnary(u)
      modifies this`log
      ensures var em := EmitUnary(u, |old(log)|, sw);
        log == old(log) + em.instrs && v == em.result
      decreases u, 2
    {
      if u.PrimaryForm? {
        v := LowerPrimary(u.primary);
      } else {
        ghost var start := log;
        var operand := LowerUnary(u.operand);
        ghost var afterOperand := log;
        v := UnaryOperate(u.unaryOp, operand);
        OpFormShape(u, sw, |start|, |afterOperand|, operand);
        AppendTwo(start, afterOperand, EmitUnary(u.operand, |start|, sw).instrs,
          UnaryOperateSpec(u.unaryOp.opType, operand, |afterOperand|, sw).instrs);
      }
    }

    /** handle(PrimaryExpr): a parenthesised expression or a number. */
    method LowerPrimary(p: PrimaryExpr) returns (v: Value)
      requires LowerablePrimary(p)
      modifies this`log
      ensures var em := EmitPrimary(p, |old(log)|, sw);
        log == old(log) + em.instrs && v == em.result
      decreases p, 3
    {
      if p.ParenExpr? {
        v := LowerExpr(p.expr);
      } else {
        v := NumberConst(p.number, sw);
      }
    }

    /** handle(Stmt): the statement's expression, whose value must not be
        null, then a return of that value. */
    method LowerReturn(s: Stmt)
      requires s.expr.Some? && LowerableExpr(s.expr.value)
      modifies this`log
      ensures var em := EmitExpr(s.expr.value, |old(log)|, sw);
        log == old(log) + em.instrs + [Instr(Ret, [em.result], Void)]
    {
      var value := LowerExpr(s.expr.value);
      var ret := Create(Ret, [value], Void);
    }
  }

  /** The value a lowered return statement hands back is the meaning of
      its expression. */
  lemma ReturnsMeaning(log: seq<Instr>, e: Expr, sw: nat)
    requires DenoteExpr(e, sw).Some?
    ensures var em := EmitExpr(e, |log|, sw);
      var run := log + em.instrs + [Instr(Ret, [em.result], Void)];
      Exec(run)[|run| - 1] == DenoteExpr(e, sw).value.bits
  {
    var em := EmitExpr(e, |log|, sw);
    EmitExprCorrect(e, log, sw);
    ExecSnoc(log + em.instrs, Instr(Ret, [em.result], Void));
    ApplyUnary(Ret, em.result, Void, Exec(log + em.instrs));
  }
}
