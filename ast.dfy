/**
  The abstract syntax tree of the front end (src/frontend/ast/).

  Nodes the parser builds once and never changes are values; the list
  nodes whose constructors and `add_param` grow a vector in place are
  classes with a sequence field.  Constructor asserts become
  preconditions of the functions that build a node, and the operator
  validators, which end the process on failure, answer with the exit
  status instead.
*/
module Ast {
  import opened Wrappers

  // ---------------------------------------------------------------------
  // Operators (src/frontend/ast/include/operator_ast.hpp)
  // ---------------------------------------------------------------------

  /** Operator::OperationType, in declaration order. */
  datatype OperationType =
    | OpAdd | OpSub | OpNot | OpMul | OpDiv | OpMod
    | OpLt | OpLe | OpGt | OpGe | OpEq | OpNe | OpLand | OpLor

  const AllOperations: seq<OperationType> :=
    [OpAdd, OpSub, OpNot, OpMul, OpDiv, OpMod, OpLt, OpLe, OpGt, OpGe, OpEq, OpNe, OpLand, OpLor]

  /** The enumerator's integer value: its position in declaration order. */
  function Ordinal(t: OperationType): (n: nat)
    ensures n < |AllOperations| && AllOperations[n] == t
  {
    match t
    case OpAdd => 0  case OpSub => 1  case OpNot => 2  case OpMul => 3
    case OpDiv => 4  case OpMod => 5  case OpLt => 6   case OpLe => 7
    case OpGt => 8   case OpGe => 9   case OpEq => 10  case OpNe => 11
    case OpLand => 12 case OpLor => 13
  }

  /** Distinct operation types have distinct values. */
  lemma OrdinalInjective(s: OperationType, t: OperationType)
    ensures Ordinal(s) == Ordinal(t) ==> s == t
  {
    if Ordinal(s) == Ordinal(t) {
      assert AllOperations[Ordinal(s)] == s && AllOperations[Ordinal(t)] == t;
    }
  }

  /** The operator node classes: UnaryOp and one class per binary level. */
  datatype OpClass = UnaryOpClass | L3OpClass | L4OpClass | L6OpClass | L7OpClass | LAndOpClass | LOrOpClass

  /** An operator node: its class and the operation type it carries. */
  datatype Operator = Operator(opClass: OpClass, opType: OperationType)

  /** The status OP_TYPE_CHECK passes to exit. */
  const ExitStatus: int := -1

  /** The OP_TYPE_CHECK condition of each operator constructor as written:
      true means the process ends. */
  function TypeCheckFails(c: OpClass, t: OperationType): (fails: bool)
    ensures c == UnaryOpClass ==> (!fails <==> t in {OpAdd, OpSub, OpNot})
    ensures c == L3OpClass ==> (!fails <==> t in {OpMul, OpDiv, OpMod})
    ensures c == L4OpClass ==> (!fails <==> t in {OpAdd, OpSub, OpNot})
    ensures c == L6OpClass ==> (!fails <==> t in {OpLt, OpLe, OpGt, OpGe})
    ensures c == L7OpClass ==> (!fails <==> t in {OpEq, OpNe})
    ensures c == LAndOpClass ==> (fails <==> t == OpLand)
    ensures c == LOrOpClass ==> (fails <==> t == OpLor)
  {
    var n := Ordinal(t);
    match c
    case UnaryOpClass => n < Ordinal(OpAdd) || n > Ordinal(OpNot)
    case L3OpClass => n < Ordinal(OpMul) || n > Ordinal(OpMod)
    case L4OpClass => n < Ordinal(OpAdd) || n > Ordinal(OpNot)
    case L6OpClass => n < Ordinal(OpLt) || n > Ordinal(OpGe)
    case L7OpClass => n < Ordinal(OpEq) || n > Ordinal(OpNe)
    case LAndOpClass => t == OpLand
    case LOrOpClass => t == OpLor
  }

  /** The checks the grammar comments describe: L4Op takes only `+` and
      `-`, LAndOp only `&&`, LOrOp only `||`. */
  function IntendedTypeCheckFails(c: OpClass, t: OperationType): (fails: bool)
    ensures c == L4OpClass ==> (!fails <==> t in {OpAdd, OpSub})
    ensures c == LAndOpClass ==> (!fails <==> t == OpLand)
    ensures c == LOrOpClass ==> (!fails <==> t == OpLor)
    ensures c !in {L4OpClass, LAndOpClass, LOrOpClass} ==> fails == TypeCheckFails(c, t)
  {
    var n := Ordinal(t);
    match c
    case L4OpClass => n < Ordinal(OpAdd) || n > Ordinal(OpSub)
    case LAndOpClass => t != OpLand
    case LOrOpClass => t != OpLor
    case _ => TypeCheckFails(c, t)
  }

  /** The validators as written refuse `&&` in an LAndOp and `||` in an
      LOrOp, and let `!` through as an L4Op. */
  lemma ValidatorsAsWritten()
    ensures TypeCheckFails(LAndOpClass, OpLand) && !IntendedTypeCheckFails(LAndOpClass, OpLand)
    ensures TypeCheckFails(LOrOpClass, OpLor) && !IntendedTypeCheckFails(LOrOpClass, OpLor)
    ensures !TypeCheckFails(LAndOpClass, OpAdd) && IntendedTypeCheckFails(LAndOpClass, OpAdd)
    ensures !TypeCheckFails(L4OpClass, OpNot) && IntendedTypeCheckFails(L4OpClass, OpNot)
  {
  }

  /** An operator constructor: the node, or the exit status when its
      check fails. */
  function MakeOperator(c: OpClass, t: OperationType): (r: Result<Operator, int>)
    ensures r.Err? <==> TypeCheckFails(c, t)
    ensures r.Err? ==> r.error == ExitStatus
    ensures r.Ok? ==> r.value.opClass == c && r.value.opType == t
  {
    if TypeCheckFails(c, t) then Err(ExitStatus) else Ok(Operator(c, t))
  }

  // ---------------------------------------------------------------------
  // Base components (src/frontend/ast/base_components_ast.cpp)
  // ---------------------------------------------------------------------

  type Int32 = x: int | -0x8000_0000 <= x < 0x8000_0000

  /** Number: an `int` literal. */
  datatype Number = Number(intLiteral: Int32)

  /** Ident: a name. */
  datatype Ident = Ident(value: string)

  /** BuiltinTypeEnum. */
  datatype BuiltinTypeEnum = TySignedInt | TyUnsignedInt | TyVoid

  /** The builtin types a ScalarType may hold: everything but void. */
  type ScalarTypeEnum = t: BuiltinTypeEnum | t != TyVoid witness TySignedInt

  datatype ScalarType = ScalarType(scalar: ScalarTypeEnum)

  /** BuiltinType accepts every builtin type, void included. */
  datatype BuiltinType = BuiltinType(builtin: BuiltinTypeEnum)

  /** ScalarType's constructor: the type must not be void. */
  function MakeScalarType(t: BuiltinTypeEnum): (s: ScalarType)
    requires t != TyVoid
    ensures s.scalar == t && s.scalar != TyVoid
  {
    ScalarType(t)
  }

  /** LVal: an identifier used as an lvalue. */
  datatype LVal = LVal(id: Ident)

  // ---------------------------------------------------------------------
  // Expressions (src/frontend/ast/expr_ast.cpp, include/expr_ast.hpp)
  // ---------------------------------------------------------------------

  /** The AST kind values BaseExpr cares about; ast.def, which fixes them,
      is not part of this model. */
  datatype KindLayout = KindLayout(astExpr: nat, astExprEnd: nat, astOpEnd: nat)

  /** The range BaseExpr's constructor asserts. */
  predicate BaseExprAccepts(layout: KindLayout, kind: nat)
  {
    layout.astExpr <= kind < layout.astExprEnd
  }

  /** BaseExpr::classof, over the wider range that ends at ast_op_end. */
  predicate BaseExprClassof(layout: KindLayout, kind: nat)
  {
    layout.astExpr <= kind < layout.astOpEnd
  }

  /** Every kind the constructor accepts is classified as an expression;
      the kinds between ast_expr_end and ast_op_end are classified as
      expressions too although no expression node may carry them. */
  lemma ClassofWiderThanConstructor(layout: KindLayout, kind: nat)
    requires layout.astExprEnd <= layout.astOpEnd
    ensures BaseExprAccepts(layout, kind) ==> BaseExprClassof(layout, kind)
    ensures layout.astExpr <= layout.astExprEnd <= kind < layout.astOpEnd ==>
      BaseExprClassof(layout, kind) && !BaseExprAccepts(layout, kind)
  {
  }

  /** The binary precedence levels, loosest last. */
  datatype Level = L3 | L4 | L6 | L7 | LAnd | LOr

  /** Binding strength: L3 binds tightest. */
  function Rank(l: Level): nat
  {
    match l
    case L3 => 0 case L4 => 1 case L6 => 2 case L7 => 3 case LAnd => 4 case LOr => 5
  }

  /** The level of a node's right operand: the next tighter level, or
      None where the operand is a UnaryExpr. */
  function Tighter(l: Level): (r: Option<Level>)
    ensures r.None? <==> l == L3
    ensures r.Some? ==> Rank(r.value) + 1 == Rank(l)
  {
    match l
    case L3 => None
    case L4 => Some(L3)
    case L6 => Some(L4)
    case L7 => Some(L6)
    case LAnd => Some(L7)
    case LOr => Some(LAnd)
  }

  /** The operator class each level's combined form carries. */
  function OpClassOf(l: Level): OpClass
  {
    match l
    case L3 => L3OpClass
    case L4 => L4OpClass
    case L6 => L6OpClass
    case L7 => L7OpClass
    case LAnd => LAndOpClass
    case LOr => LOrOpClass
  }

  /** Expr: a wrapper around the lowest-precedence (LOr) expression. */
  datatype Expr = Expr(low: BinaryExpr)

  /** PrimaryExpr: a parenthesised expression, a number or an lvalue. */
  datatype PrimaryExpr =
    | ParenExpr(expr: Expr)
    | NumberExpr(number: Number)
    | LValExpr(lval: LVal)

  /** ExprList: the arguments of a call, in order. */
  datatype ExprList = ExprList(exprs: seq<Expr>)

  /** PassingParams: a first argument and the rest. */
  datatype PassingParams = PassingParams(expr: Expr, exprList: ExprList)

  /** UnaryExpr::UnaryType. */
  datatype UnaryType = PrimaryExprType | UnaryOpType | CallType | CallWithParamsType

  /** UnaryExpr: exactly one of its four forms. */
  datatype UnaryExpr =
    | PrimaryForm(primary: PrimaryExpr)
    | OpForm(unaryOp: Operator, operand: UnaryExpr)
    | CallForm(ident: Ident)
    | CallWithParamsForm(ident: Ident, params: PassingParams)

  /** The right operand of a binary node: a UnaryExpr at level L3, a node
      of the next tighter level elsewhere. */
  datatype Operand = UnaryOperand(unary: UnaryExpr) | BinaryOperand(binary: BinaryExpr)

  /** BinaryExpr<Self, Higher, Op> at a level: either the higher
      expression alone, or (self, op, higher). */
  datatype BinaryExpr =
    | PassExpr(level: Level, higher: Operand)
    | CombinedExpr(level: Level, self: BinaryExpr, op: Operator, higher: Operand)

  /** get_unary_type: the tag of the form. */
  function UnaryTypeOf(u: UnaryExpr): (t: UnaryType)
    ensures t == PrimaryExprType <==> u.PrimaryForm?
    ensures t == UnaryOpType <==> u.OpForm?
    ensures t == CallType <==> u.CallForm?
    ensures t == CallWithParamsType <==> u.CallWithParamsForm?
  {
    match u
    case PrimaryForm(_) => PrimaryExprType
    case OpForm(_, _) => UnaryOpType
    case CallForm(_) => CallType
    case CallWithParamsForm(_, _) => CallWithParamsType
  }

  /** The four UnaryExpr constructors; each asserts its own tag. */
  function MakePrimaryUnary(t: UnaryType, p: PrimaryExpr): (u: UnaryExpr)
    requires t == PrimaryExprType
    ensures UnaryTypeOf(u) == t && u.primary == p
  {
    PrimaryForm(p)
  }

  function MakeOpUnary(t: UnaryType, op: Operator, operand: UnaryExpr): (u: UnaryExpr)
    requires t == UnaryOpType
    ensures UnaryTypeOf(u) == t && u.unaryOp == op && u.operand == operand
  {
    OpForm(op, operand)
  }

  function MakeCallUnary(t: UnaryType, id: Ident): (u: UnaryExpr)
    requires t == CallType
    ensures UnaryTypeOf(u) == t && u.ident == id
  {
    CallForm(id)
  }

  function MakeCallWithParamsUnary(t: UnaryType, id: Ident, ps: PassingParams): (u: UnaryExpr)
    requires t == CallWithParamsType
    ensures UnaryTypeOf(u) == t && u.ident == id && u.params == ps
  {
    CallWithParamsForm(id, ps)
  }

  /** get_combined_expr: (self, op, higher), in constructor order. */
  function GetCombined(b: BinaryExpr): (r: (BinaryExpr, Operator, Operand))
    requires b.CombinedExpr?
    ensures CombinedExpr(b.level, r.0, r.1, r.2) == b
  {
    (b.self, b.op, b.higher)
  }

  /** A tree the parser can build: each level's right operand is the next
      tighter level, its left operand its own level (so chains associate
      to the left), and every operator passes its class's check.  Binary
      operators are held to the checks the grammar intends, since the
      checks as written refuse `&&` and `||` outright. */
  predicate WellShapedExpr(e: Expr)
    decreases e, 2
  {
    WellShapedBinary(e.low, LOr)
  }

  predicate WellShapedBinary(b: BinaryExpr, l: Level)
    decreases b, 1
  {
    && b.level == l
    && WellShapedOperand(b.higher, l)
    && (b.CombinedExpr? ==>
          && WellShapedBinary(b.self, l)
          && b.op.opClass == OpClassOf(l)
          && !IntendedTypeCheckFails(OpClassOf(l), b.op.opType))
  }

  predicate WellShapedOperand(h: Operand, l: Level)
    decreases h, 0
  {
    match Tighter(l)
    case None => h.UnaryOperand? && WellShapedUnary(h.unary)
    case Some(t) => h.BinaryOperand? && WellShapedBinary(h.binary, t)
  }

  predicate WellShapedUnary(u: UnaryExpr)
    decreases u, 2
  {
    match u
    case PrimaryForm(p) => WellShapedPrimary(p)
    case OpForm(op, x) =>
      op.opClass == UnaryOpClass && !TypeCheckFails(UnaryOpClass, op.opType) && WellShapedUnary(x)
    case CallForm(_) => true
    case CallWithParamsForm(_, ps) =>
      WellShapedExpr(ps.expr) && forall i :: 0 <= i < |ps.exprList.exprs| ==> WellShapedExpr(ps.exprList.exprs[i])
  }

  predicate WellShapedPrimary(p: PrimaryExpr)
    decreases p, 3
  {
    p.ParenExpr? ==> WellShapedExpr(p.expr)
  }

  /** In a well-shaped tree a combined binary node carries an operator of
      its level's class, and never `!`. */
  lemma {:induction false} WellShapedOperators(b: BinaryExpr, l: Level)
    requires WellShapedBinary(b, l)
    ensures b.CombinedExpr? ==> b.op.opType != OpNot && b.op.opClass == OpClassOf(l)
  {
    if b.CombinedExpr? {
      var c := OpClassOf(l);
      assert !IntendedTypeCheckFails(c, b.op.opType);
      match l
      case L3 =>
      case L4 =>
      case L6 =>
      case L7 =>
      case LAnd =>
      case LOr =>
    }
  }

  // ---------------------------------------------------------------------
  // Statements (src/frontend/ast/stmt_ast.cpp)
  // ---------------------------------------------------------------------

  /** Stmt::StmtType. */
  datatype StmtType = Assign | Expression | BlockStmt | FuncReturn | IfStmt

  /** Stmt: a type tag and the children its constructor stored. */
  datatype Stmt = Stmt(
    stmtType: StmtType,
    lval: Option<LVal>,
    expr: Option<Expr>,
    block: Option<Block>,
    stmts: seq<Stmt>)

  /** Block: the list of its items. */
  datatype Block = Block(itemList: BlockItemList)

  /** Stmt(type): a bare `return;` or empty expression statement. */
  function MakeEmptyStmt(t: StmtType): (s: Stmt)
    requires t == FuncReturn || t == Expression
    ensures s.stmtType == t && s.lval.None? && s.expr.None? && s.block.None? && s.stmts == []
  {
    Stmt(t, None, None, None, [])
  }

  /** Stmt(type, expr): `return e;` or `e;`. */
  function MakeExprStmt(t: StmtType, e: Expr): (s: Stmt)
    requires t == FuncReturn || t == Expression
    ensures s.stmtType == t && s.expr == Some(e) && s.lval.None? && s.block.None? && s.stmts == []
  {
    Stmt(t, None, Some(e), None, [])
  }

  /** Stmt(type, lval, expr): an assignment. */
  function MakeAssignStmt(t: StmtType, lv: LVal, e: Expr): (s: Stmt)
    requires t == Assign
    ensures s.stmtType == Assign && s.lval == Some(lv) && s.expr == Some(e) && s.block.None? && s.stmts == []
  {
    Stmt(t, Some(lv), Some(e), None, [])
  }

  /** Stmt(type, block): a nested block. */
  function MakeBlockStmt(t: StmtType, b: Block): (s: Stmt)
    requires t == BlockStmt
    ensures s.stmtType == BlockStmt && s.block == Some(b) && s.lval.None? && s.expr.None? && s.stmts == []
  {
    Stmt(t, None, None, Some(b), [])
  }

  /** Stmt(type, cond, then): an `if` without `else`. */
  function MakeIfStmt(t: StmtType, cond: Expr, thenStmt: Stmt): (s: Stmt)
    requires t == IfStmt
    ensures s.stmtType == IfStmt && s.expr == Some(cond) && s.stmts == [thenStmt]
    ensures s.lval.None? && s.block.None?
  {
    Stmt(t, None, Some(cond), None, [thenStmt])
  }

  /** Stmt(type, cond, then, else): the constructor asserts nothing about
      the type; the then-branch is stored before the else-branch. */
  function MakeIfElseStmt(t: StmtType, cond: Expr, thenStmt: Stmt, elseStmt: Stmt): (s: Stmt)
    ensures s.stmtType == t && s.expr == Some(cond) && |s.stmts| == 2
    ensures s.stmts[0] == thenStmt && s.stmts[1] == elseStmt
    ensures s.lval.None? && s.block.None?
  {
    Stmt(t, None, Some(cond), None, [thenStmt, elseStmt])
  }

  /** has_expr: only for expression and return statements. */
  function HasExpr(s: Stmt): (b: bool)
    requires s.stmtType == Expression || s.stmtType == FuncReturn
    ensures b <==> s.expr.Some?
  {
    s.expr.Some?
  }

  /** A return statement built with an expression has one; one built
      without has none. */
  lemma HasExprMatchesConstructor(t: StmtType, e: Expr)
    requires t == FuncReturn || t == Expression
    ensures HasExpr(MakeExprStmt(t, e)) && !HasExpr(MakeEmptyStmt(t))
  {
  }

  /** get_lval, get_expr, get_block: each asserts that its child is there. */
  function GetLVal(s: Stmt): (lv: LVal)
    requires s.lval.Some?
    ensures Some(lv) == s.lval
  {
    s.lval.value
  }

  function GetExpr(s: Stmt): (e: Expr)
    requires s.expr.Some?
    ensures Some(e) == s.expr
  {
    s.expr.value
  }

  function GetBlock(s: Stmt): (b: Block)
    requires s.block.Some?
    ensures Some(b) == s.block
  {
    s.block.value
  }

  /** The getters hand back what the constructors stored. */
  lemma StmtGettersRoundTrip(lv: LVal, e: Expr, b: Block, body: Stmt)
    ensures GetLVal(MakeAssignStmt(Assign, lv, e)) == lv && GetExpr(MakeAssignStmt(Assign, lv, e)) == e
    ensures GetExpr(MakeExprStmt(FuncReturn, e)) == e
    ensures GetBlock(MakeBlockStmt(BlockStmt, b)) == b
    ensures GetExpr(MakeIfStmt(IfStmt, e, body)) == e
  {
  }

  /** Param: a scalar type and a name. */
  datatype Param = Param(paramType: ScalarType, ident: Ident)

  /** ParamList: parameters in declaration order. */
  class ParamList {
    var params: seq<Param>

    constructor (ps: seq<Param> := [])
      ensures params == ps
    {
      params := ps;
    }

    /** add_param: appends one parameter, keeping the others in order. */
    method AddParam(p: Param)
      modifies this
      ensures params == old(params) + [p]
    {
      params := params + [p];
    }
  }

  /** BlockItem: a declaration or a statement. */
  datatype BlockItem = DeclItem(decl: Decl) | StmtItem(stmt: Stmt)

  /** BlockItemList: the items of a block, in source order. */
  class BlockItemList {
    var items: seq<BlockItem>

    /** BlockItemList(location): no items. */
    constructor Empty()
      ensures items == []
    {
      items := [];
    }

    /** BlockItemList(location, item, rest): the item, then rest's items
        moved over in order. */
    constructor Prepend(item: BlockItem, rest: BlockItemList)
      ensures items == [item] + rest.items
      ensures |items| == |rest.items| + 1 && items[0] == item
    {
      var v: seq<BlockItem> := [];
      v := v + [item];
      v := v + rest.items;
      items := v;
    }
  }

  // ---------------------------------------------------------------------
  // Declarations (src/frontend/ast/decl_ast.cpp)
  // ---------------------------------------------------------------------

  datatype ConstExpr = ConstExpr(expr: Expr)
  datatype ConstInitVal = ConstInitVal(constExpr: ConstExpr)
  datatype ConstDef = ConstDef(ident: Ident, initVal: ConstInitVal)

  /** ConstDefList: the definitions after the first one, in order. */
  class ConstDefList {
    var defs: seq<ConstDef>

    constructor Empty()
      ensures defs == []
    {
      defs := [];
    }

    /** ConstDefList(location, rhs, d): rhs's definitions, then d. */
    constructor Append(rhs: ConstDefList, d: ConstDef)
      ensures defs == rhs.defs + [d]
    {
      defs := rhs.defs;
      defs := defs + [d];
    }
  }

  /** ConstDecl: the scalar type, the first definition and the rest. */
  datatype ConstDecl = ConstDecl(scalarType: ScalarType, firstDef: ConstDef, defList: ConstDefList)

  datatype InitVal = InitVal(expr: Expr)

  /** VarDef: a name, whether it is initialised, and the initialiser. */
  datatype VarDef = VarDef(initialized: bool, ident: Ident, initVal: Option<InitVal>)

  /** VarDef(location, ident): not initialised. */
  function MakeVarDef(id: Ident): (v: VarDef)
    ensures !v.initialized && v.ident == id && v.initVal.None?
  {
    VarDef(false, id, None)
  }

  /** VarDef(location, ident, init): initialised with `init`. */
  function MakeInitVarDef(id: Ident, init: InitVal): (v: VarDef)
    ensures v.initialized && v.ident == id && v.initVal == Some(init)
  {
    VarDef(true, id, Some(init))
  }

  /** get_init_val dereferences the initialiser, so it needs one; for a
      definition built by either constructor that is exactly when
      is_initialized holds. */
  function GetInitVal(v: VarDef): (init: InitVal)
    requires v.initVal.Some?
    ensures Some(init) == v.initVal
  {
    v.initVal.value
  }

  /** VarDefList: variable definitions in order. */
  class VarDefList {
    var defs: seq<VarDef>

    constructor Empty()
      ensures defs == []
    {
      defs := [];
    }

    /** VarDefList(location, list, d): list's definitions, then d. */
    constructor Append(list: VarDefList, d: VarDef)
      ensures defs == list.defs + [d]
    {
      defs := list.defs;
      defs := defs + [d];
    }
  }

  datatype VarDecl = VarDecl(scalarType: ScalarType, varDef: VarDef, varDefList: VarDefList)

  /** Decl: a constant or a variable declaration. */
  datatype Decl = ConstDeclAlt(constDecl: ConstDecl) | VarDeclAlt(varDecl: VarDecl)

  /** A function definition and the compilation unit holding it. */
  datatype FuncDef = FuncDef(returnType: BuiltinType, ident: Ident, paramList: ParamList, body: Block)
  datatype CompUnit = CompUnit(funcDef: FuncDef)
}
