# ToyCC core in Dafny

ToyCC is a small compiler for a subset of C. Its parser builds an abstract
syntax tree. A code-generation visitor then walks that tree and drives an
LLVM IR builder, and a driver picks the name of the output file.

This project models six sequential pieces of that compiler and proves
properties about them.

- **Implicit-conversion policy engine** (`conversion.dfy`, `semantix_conversion.dfy`).
  - Given two integer types and a configuration of "enable" flags, the
    engine answers success(type), warning(type, code) or failure(code).
  - The error catalog, its messages and the default configuration are
    modelled.
  - So is the older draft interface, which answers with an
    expected-or-error-code.
- **Scoped symbol tables** (`symbol_table.dfy`, `backend_symbol_table.dfy`).
  - There is one map per block, chained to the enclosing block.
  - Lookup is nearest-first, and the language-layer variant falls back to
    a global table.
  - Tables are classes with a `map` field. `Lookup` is the loop up the
    chain, proved against the specification function `ChainFind`.
- **AST** (`ast.dfy`).
  - Tagged variants become datatypes, and constructor asserts become
    preconditions.
  - The operator validators are range checks that end the process.
  - The precedence chain `LOr → LAnd → L7 → L6 → L4 → L3 → Unary` is one
    level-indexed datatype with a well-shapedness predicate.
  - The list nodes that grow a vector in place are classes with a `seq`
    field.
- **Lowering** (`ir.dfy`, `lowering.dfy`, `codegen.dfy`).
  - The IR builder is an append-only log of instructions (class
    `Codegen.Builder`).
  - `Lowering` states, as functions of the tree, what each lowering step
    appends. `Ir.Exec` gives the log a meaning: wrap-around integer
    arithmetic at each instruction's bit width.
  - `Lowering.EmitExprCorrect` proves that running the emitted
    instructions leaves the expression's IR meaning, the meaning of the
    lowering as written, in the returned value. The `Lowering.Corrected*IsC`
    lemmas relate the corrected lowering to C's operators.
  - The `Builder` methods are proved to append exactly what those
    functions say.
- **Output-name derivation** (`emit_target.dfy`).
  - `erase_file_postfix` is modelled with 64-bit `size_t` wrap-around in
    its `end - beg`.
  - `get_target_type` and `get_target_name` are functions of a class
    whose explicit target name can be overwritten.
- **Source-position cursor** (`llvm_location.dfy`).
  - The cursor is a class with begin and end positions and a
    four-counter diagnostic table in an array.
  - It also maps diagnostic kinds onto LLVM's.

`wrappers.dfy` holds the shared `Option`/`Result`, the IR type tag
(`Int(width) | Float | Void | Other`) and the `size_t` modulus.

Where the specification and the code disagree, the model follows the code:

- `value_conversion` routes integer pairs to `arithmetic_int_promotion`.
- The configuration holds plain boolean flags. The unit tests set
  three-way status fields and a float-to-int policy that the code does
  not have.

## Model

| member | source | states |
|---|---|---|
| Conversion.CatalogIndex | src/langspec/include/conversion.hpp:15-23 | each catalog kind has a position in the catalog's declaration order |
| Conversion.ErrorFromValue | src/langspec/include/conversion.hpp:38 | casting an int to `conversion_error` yields a code whose value is that int; it yields none exactly outside 0..unsupport_cvt |
| Conversion.ErrorValueLayout | src/langspec/include/conversion.hpp:15-23 | `none` is 0; every catalog kind lies strictly between `none` and `unsupport_cvt`; distinct codes have distinct values |
| Conversion.ErrorValueRoundTrip | src/langspec/include/conversion.hpp:15-23 | decoding a code's integer value gives the code back |
| Conversion.Message | src/langspec/include/conversion.hpp:35-56 | `none` gives "No conversion error."; each catalog kind gives its catalog text followed by "disabled"; `unsupport_cvt` gives "unsupport cvt"; any other value gives "Unknown conversion error." |
| Conversion.DefaultConfig | src/langspec/include/conversion.hpp:79-85 | a default configuration enables every catalog kind |
| Conversion.TypeOrNull | test/unit_test/langspec_test/cvt_test.cpp:10-43 | a result carries a type exactly when it is not a failure |
| Conversion.ErrorCode | test/unit_test/langspec_test/cvt_test.cpp:10-43 | a success carries code `none`; a warning or failure carries its own code |
| Conversion.ArithmeticIntPromotion | src/langspec/conversion.cpp:69-86 | with promotion disabled: failure(int_promotion) whatever the widths; otherwise: success with an integer type at least as wide as both operands and as wide as one of them |
| Conversion.ArithmeticIntPromotionCommutes | src/langspec/conversion.cpp:79-85 | promotion gives the same answer with its operands swapped |
| Conversion.ValueConversion | src/langspec/conversion.cpp:27-38 | unless both types are integers: failure(unsupport_cvt); on two integers: exactly arithmetic_int_promotion's answer |
| Conversion.ArithmeticConversion | src/langspec/conversion.cpp:40-52 | unless both types are integers: failure(unsupport_cvt); otherwise: success with the larger width when promotion is enabled, else failure(int_promotion) |
| Conversion.ValueAndArithmeticConversionAgree | src/langspec/conversion.cpp:27-52 | the two public entry points answer alike on every input |
| Conversion.ValueIntConversions | src/langspec/conversion.cpp:88-114 | equal widths: success(target) whatever the configuration; wider target: success(target) or failure(int_promotion), by the promotion flag; narrower target: warning(target, int_narrowing) or failure(int_narrowing), by the narrowing flag |
| Conversion.ValueIntConversionsKeepTarget | src/langspec/conversion.cpp:95-112 | any type returned is the target type; converting it to itself again is a plain success; a narrowing is never a plain success; a non-success that is not a narrowing is failure(int_promotion) |
| Conversion.ValueConversionIgnoresNarrowing | src/langspec/conversion.cpp:31-35 | as written, value_conversion(i16 target, i32 source) succeeds with i32 under the defaults, where value_int_conversions warns about narrowing to i16 |
| Conversion.IntendedValueConversion | test/unit_test/langspec_test/cvt_test.cpp:130-165 | routing through value_int_conversions: any type returned is the target; same width is success; a narrowing is never a plain success; non-integers are unsupport_cvt |
| SemantixConversion.WrapLlvmType | src/langspec/include/conversion.hpp:199-210 | an LLVMType wrapper is tagged `llvm` (its classof holds) and answers for the wrapped type |
| SemantixConversion.NewLlvmHelper | src/langspec/include/conversion.hpp:246-256 | the helper keeps its kind tag and the shared configuration; classof recognises it exactly when the tag is `llvm` |
| SemantixConversion.IntPromotion | src/semantix/conversion.cpp:73-91 | requires two integers; fails exactly when `enable_int_cvt` is off, with code int_promotion; otherwise returns an `llvm`-tagged integer type at least as wide as both operands and as wide as one of them |
| SemantixConversion.IntCvt | src/semantix/conversion.cpp:93-101 | disabled: error int_cvt; enabled: the target type itself |
| SemantixConversion.ArithmeticConversion | src/semantix/conversion.cpp:35-56 | non-integers: error unsupport_cvt; integer pairs: exactly int_promotion's answer |
| SemantixConversion.DraftAgreesWithEngine | src/semantix/conversion.cpp:35-91 | whenever `enable_int_cvt` equals `enable_int_promotion`, the draft and the language-layer engine agree on success, on the resulting type and on the error code |
| SemantixConversion.DraftKeysPromotionOnIntCvt | src/semantix/conversion.cpp:80-81 | with promotion disabled and int_cvt enabled, the draft still promotes i16/i32 to i32 where the engine answers failure(int_promotion) |
| SymbolTable.TypeOf | src/langspec/include/symbol_table.hpp:10-36 | for a well-formed entry, the type is `alloca_value` exactly for a stack-slot entry |
| SymbolTable.MakeValueEntry | src/langspec/include/symbol_table.hpp:19-23 | requires a type other than `alloca_value`; builds a well-formed value entry of that type |
| SymbolTable.MakeAllocaEntry | src/langspec/include/symbol_table.hpp:25-27 | always builds an entry of type `alloca_value` |
| SymbolTable.GlobalSymbolTable.constructor | src/langspec/include/symbol_table.hpp:39-47 | a new global table (implicit constructor) binds nothing |
| SymbolTable.GlobalSymbolTable.Find | src/langspec/symbol_table.cpp:6-13 | the stored entry for a bound name; null for an unbound one |
| SymbolTable.GlobalSymbolTable.Insert | src/langspec/symbol_table.cpp:15-20 | false exactly when the name is already bound, and then the table is unchanged; otherwise the name is added with the entry |
| SymbolTable.ChainFind | src/langspec/symbol_table.cpp:46-54 | nothing is found exactly when no table on the chain binds the name |
| SymbolTable.NearestWins | src/langspec/symbol_table.cpp:46-54 | the first table on the chain that binds the name decides the result |
| SymbolTable.LocalSymbolTable.Child | src/langspec/symbol_table.cpp:22-26 | requires the parent's function to be set; records the parent, inherits its function, starts empty and sets no global table |
| SymbolTable.LocalSymbolTable.Root | src/langspec/symbol_table.cpp:28-32 | no parent; stores the given function and global table; starts empty |
| SymbolTable.LocalSymbolTable.Insert | src/langspec/symbol_table.cpp:34-40 | false exactly when this table already binds the name, and then it is unchanged; only this table's map is written |
| SymbolTable.LocalSymbolTable.Lookup | src/langspec/symbol_table.cpp:43-57 | the nearest binding on the chain starting here, or at the parent when `searchThisLevel` is false (the default is true, symbol_table.hpp:67-68); the global table is consulted only after every table on the chain misses |
| SymbolTable.LocalSymbolTable.GetFunc | src/langspec/include/symbol_table.hpp:70-75 | requires the function to be set and returns it |
| SymbolTable.ChainTail | src/langspec/symbol_table.cpp:47 | one step `cur = cur->m_upper` moves to the parent's chain |
| SymbolTable.SkipThisLevel | src/langspec/symbol_table.cpp:46 | skipping this level searches exactly the parent's chain |
| SymbolTable.OwnBindingShadows | src/langspec/symbol_table.cpp:46-54 | a table's own binding shadows every binding of the enclosing tables |
| SymbolTable.UnboundHereLooksOutward | src/langspec/symbol_table.cpp:46-54 | for a name this table does not bind, searching from here finds what searching from the parent finds |
| SymbolTable.NestedBindingInvisible | src/langspec/symbol_table.cpp:34-54 | inserting into a child table and discarding it leaves every lookup from the parent unchanged, whether or not it searches the parent's own level, and for a nested parent as well as a root one |
| SymbolTable.ShadowingScenario | test/func_test/block/test.c:10-18 | an inner `x` shadows an outer one, the outer one is still found past the inner level, and a second `x` in the same block is refused |
| BackendSymbolTable.ChainFind | src/backend/symbol_table.cpp:22-31 | nothing is found exactly when no table on the chain binds the name |
| BackendSymbolTable.NearestWins | src/backend/symbol_table.cpp:22-30 | the first table on the chain that binds the name decides the result |
| BackendSymbolTable.LocalSymbolTable.constructor | src/backend/symbol_table.cpp:6-8 | records the given parent, which defaults to null (symbol_table.hpp:13), and starts empty |
| BackendSymbolTable.LocalSymbolTable.Insert | src/backend/symbol_table.cpp:10-15 | keys the value by its own name; false exactly when that name is present, and then the table is unchanged; a table keyed by name stays keyed by name |
| BackendSymbolTable.LocalSymbolTable.Lookup | src/backend/symbol_table.cpp:18-32 | the nearest binding on the chain starting here or at the parent; none on a miss, with no global fallback |
| BackendSymbolTable.LookupReturnsNamedValue | src/backend/symbol_table.cpp:10-30 | on tables keyed by name, a lookup returns a value carrying the name looked up |
| BackendSymbolTable.ShadowingScenario | src/backend/symbol_table.cpp:18-32 | an inner binding of `x` shadows the outer one, which is still found past the inner level |
| Ast.Ordinal | src/frontend/ast/include/operator_ast.hpp:21-37 | each operation type's value is its position in the order add, sub, not, mul, div, mod, lt, le, gt, ge, eq, ne, land, lor |
| Ast.OrdinalInjective | src/frontend/ast/include/operator_ast.hpp:21-37 | distinct operation types have distinct values |
| Ast.TypeCheckFails | src/frontend/ast/include/operator_ast.hpp:67-161 | UnaryOp accepts exactly add/sub/not; L3Op exactly mul/div/mod; L4Op add/sub and also not; L6Op exactly lt/le/gt/ge; L7Op exactly eq/ne; LAndOp rejects exactly land; LOrOp rejects exactly lor |
| Ast.IntendedTypeCheckFails | src/frontend/ast/include/operator_ast.hpp:89-161 | the grammar's checks: L4Op exactly add/sub, LAndOp exactly land, LOrOp exactly lor; the other classes as written |
| Ast.ValidatorsAsWritten | src/frontend/ast/include/operator_ast.hpp:95-161 | as written, LAndOp refuses `&&`, LOrOp refuses `\|\|`, LAndOp accepts `+` and L4Op accepts `!`, each unlike the grammar's checks |
| Ast.MakeOperator | src/frontend/ast/include/operator_ast.hpp:48-57 | a failed check ends with exit status -1 instead of yielding a node; a passed one yields a node of that class and type |
| Ast.MakeScalarType | src/frontend/ast/base_components_ast.cpp:28-38 | requires a non-void type and stores it |
| Ast.ClassofWiderThanConstructor | src/frontend/ast/expr_ast.cpp:9-19 | every kind the BaseExpr constructor accepts is classified as an expression, and so are the kinds between ast_expr_end and ast_op_end, which the constructor refuses |
| Ast.Tighter | src/frontend/ast/include/expr_ast.hpp:267-291 | each binary level's right operand is the next tighter level, and L3's right operand is a UnaryExpr |
| Ast.UnaryTypeOf | src/frontend/ast/expr_ast.cpp:135-138 | the tag names exactly the form the node holds |
| Ast.MakePrimaryUnary | src/frontend/ast/expr_ast.cpp:95-102 | requires the primary_expr tag; the node has that tag and holds the primary expression |
| Ast.MakeOpUnary | src/frontend/ast/expr_ast.cpp:104-113 | requires the unary_op tag; the node has that tag and holds the operator and the operand |
| Ast.MakeCallUnary | src/frontend/ast/expr_ast.cpp:115-122 | requires the call tag; the node has that tag and holds the identifier |
| Ast.MakeCallWithParamsUnary | src/frontend/ast/expr_ast.cpp:124-133 | requires the call_with_params tag; the node has that tag and holds the identifier and the arguments |
| Ast.GetCombined | src/frontend/ast/expr_ast.cpp:214-226 | (self, op, higher) in constructor-argument order, rebuilding the node |
| Ast.WellShapedOperators | src/frontend/ast/include/expr_ast.hpp:267-291 | in a tree the grammar builds, every binary node's operator has its level's class (per the intended checks), and none is `!` |
| Ast.MakeEmptyStmt | src/frontend/ast/stmt_ast.cpp:9-15 | requires func_return or expression; there are no children |
| Ast.MakeExprStmt | src/frontend/ast/stmt_ast.cpp:17-24 | requires func_return or expression; holds the expression and nothing else |
| Ast.MakeAssignStmt | src/frontend/ast/stmt_ast.cpp:26-33 | requires assign; holds the lvalue and the expression |
| Ast.MakeBlockStmt | src/frontend/ast/stmt_ast.cpp:35-41 | requires block; holds only the block |
| Ast.MakeIfStmt | src/frontend/ast/stmt_ast.cpp:43-50 | requires if; holds the condition and one branch, no assignment target and no block |
| Ast.MakeIfElseStmt | src/frontend/ast/stmt_ast.cpp:53-61 | asserts no type; holds the condition, the then-branch and then the else-branch, no assignment target and no block |
| Ast.HasExpr | src/frontend/ast/stmt_ast.cpp:64-68 | requires an expression or return statement; true exactly when an expression is present |
| Ast.HasExprMatchesConstructor | src/frontend/ast/stmt_ast.cpp:9-24 | a statement built with an expression has one, and one built without has none |
| Ast.GetLVal | src/frontend/ast/stmt_ast.cpp:70-74 | requires an lvalue and returns it |
| Ast.GetExpr | src/frontend/ast/stmt_ast.cpp:76-80 | requires an expression and returns it |
| Ast.GetBlock | src/frontend/ast/stmt_ast.cpp:82-86 | requires a block and returns it |
| Ast.StmtGettersRoundTrip | src/frontend/ast/stmt_ast.cpp:17-86 | the getters return what the constructors stored |
| Ast.ParamList.constructor | src/frontend/ast/stmt_ast.cpp:103-106 | holds the given parameters |
| Ast.ParamList.AddParam | src/frontend/ast/stmt_ast.cpp:123-126 | appends one parameter and keeps the others in order |
| Ast.BlockItemList.Empty | src/frontend/ast/stmt_ast.cpp:160-163 | no items |
| Ast.BlockItemList.Prepend | src/frontend/ast/stmt_ast.cpp:165-175 | the item, then the rest's items in order |
| Ast.ConstDefList.Empty | src/frontend/ast/decl_ast.cpp:41-45 | no definitions |
| Ast.ConstDefList.Append | src/frontend/ast/decl_ast.cpp:47-54 | rhs's definitions, then d |
| Ast.MakeVarDef | src/frontend/ast/decl_ast.cpp:153-159 | not initialised and no initialiser |
| Ast.MakeInitVarDef | src/frontend/ast/decl_ast.cpp:161-169 | initialised with the given initialiser |
| Ast.GetInitVal | src/frontend/ast/decl_ast.cpp:181-184 | requires an initialiser and returns it |
| Ast.VarDefList.Empty | src/frontend/ast/decl_ast.cpp:187-190 | no definitions |
| Ast.VarDefList.Append | src/frontend/ast/decl_ast.cpp:192-201 | list's definitions, then d |
| Lowering.BinaryOpcode | src/backend/codegen_visitor.cpp:455-503 | `!`, `&&` and `\|\|` have no single instruction; `/` and `%` map to signed div/rem; every relational or equality operator maps to an integer compare |
| Lowering.UnaryOperateSpec | src/backend/codegen_visitor.cpp:357-406 | an operand neither integer nor float, or another operation, gives null and no instruction; `+` gives the operand and no instruction; `-` gives one negation; `!` gives compare-not-equal to zero, then zext to signed int, then not, returning the not; every result is the last register emitted |
| Lowering.BinaryOperateSpec | src/backend/codegen_visitor.cpp:448-511 | each operation's instruction comes first; `&&`/`\|\|` first truncate both operands to one bit; the last instruction is always a zext of the result, which is not the returned value; compare and logical results are one bit wide |
| Lowering.NumberConst | src/backend/codegen_visitor.cpp:260-268 | a number is a signed-int constant holding the literal's low bits, which read back as the literal when it fits |
| Lowering.CombinedShape | src/backend/codegen_visitor.cpp:426-437 | a combined node emits its left operand's instructions, then its right operand's, then the operator's |
| Lowering.UnaryOperateCorrect | src/backend/codegen_visitor.cpp:357-406 | running what unary_operate emits leaves the operation's IR meaning in its result |
| Lowering.NotCorrect | src/backend/codegen_visitor.cpp:382-396 | on an integer operand, the three instructions of `!` compute the complement of zext(x != 0) |
| Lowering.BinaryOperateCorrect | src/backend/codegen_visitor.cpp:448-511 | running what binary_operate emits leaves the operation's IR meaning in its result |
| Lowering.OpcodeOperateCorrect | src/backend/codegen_visitor.cpp:454-489 | the same for an arithmetic operator or a comparison, which has its own instruction |
| Lowering.LogicalOperateCorrect | src/backend/codegen_visitor.cpp:490-499 | the same for `&&` and `\|\|`: both operands truncated to one bit, then the connective |
| Lowering.EmitExprCorrect | src/backend/codegen_visitor.cpp:206-258 | for any expression that has an IR meaning (the meaning of the lowering as written, from `UnarySem`/`BinarySem`), running the emitted instructions after any log leaves that meaning in the returned value; `Lowering.CorrectedCompareIsC`, `Lowering.CorrectedLogicalIsC` and `Lowering.CorrectedNotIsLogicalNot` give the C meaning of the corrected lowering |
| Lowering.EmitBinaryCorrect | src/backend/codegen_visitor.cpp:418-445 | the same for a binary node of any level |
| Lowering.EmitCombinedCorrect | src/backend/codegen_visitor.cpp:430-437 | the same for a combined node, whose left operand is evaluated before its right one |
| Lowering.EmitOperandCorrect | src/backend/codegen_visitor.cpp:418-445 | the same for a right operand |
| Lowering.EmitUnaryCorrect | src/backend/codegen_visitor.cpp:237-258 | the same for a unary expression |
| Lowering.EmitPrimaryCorrect | src/backend/codegen_visitor.cpp:215-235 | the same for a primary expression |
| Lowering.NotAsWritten | src/backend/codegen_visitor.cpp:382-396 | as written, `!x` is all ones for zero and all ones but the lowest bit otherwise, never C's 1 or 0 |
| Lowering.CorrectedNotSpec | src/backend/codegen_visitor.cpp:382-396 | the intended `!`: compare-equal to zero, then zext to signed int, as the result |
| Lowering.CorrectedNotIsLogicalNot | src/backend/codegen_visitor.cpp:382-396 | the intended `!` gives 1 for zero and 0 otherwise |
| Lowering.DivisionMeaning | src/backend/codegen_visitor.cpp:466-471 | `/` and `%` on equal integer types have an IR meaning exactly when the divisor is not zero and the division is not the most negative integer by -1, which `sdiv`/`srem` leave undefined |
| Lowering.DivisionUndefinedCases | src/backend/codegen_visitor.cpp:466-471 | `INT_MIN / -1`, `INT_MIN % -1` and `7 / 0` on i32 have no meaning |
| Lowering.LogicalOpsAsWritten | src/backend/codegen_visitor.cpp:490-499 | as written, `2 && 1` is 0 and `2 \|\| 0` is 0, because only the low bit counts |
| Lowering.ComparisonAsWritten | src/backend/codegen_visitor.cpp:505-510 | as written, a comparison's value stays one bit wide, and adding it to a signed int has no meaning |
| Lowering.CorrectedBinaryOperateSpec | src/backend/codegen_visitor.cpp:448-511 | the intended binary_operate returns the zext to signed int; `&&`/`\|\|` test each operand against zero |
| Lowering.CorrectedCompareIsC | src/backend/codegen_visitor.cpp:472-489 | an intended comparison gives the signed int 1 when the C relation holds and 0 when it does not |
| Lowering.CorrectedLogicalIsC | src/backend/codegen_visitor.cpp:490-499 | an intended `&&`/`\|\|` gives the signed int 1 or 0 as C's connective of "operand is not zero" |
| Codegen.Visit | src/backend/codegen_visitor.cpp:31-47 | success exactly for a compilation unit; a null root and any other node each give their own error message |
| Codegen.HandleBuiltinType | src/backend/codegen_visitor.cpp:86-109 | void exactly for void; signed and unsigned int give the type manager's signed and unsigned integer types |
| Codegen.HandleScalarType | src/backend/codegen_visitor.cpp:111-129 | always an integer type, the same one handle(BuiltinType) gives |
| Codegen.HandleParamList | src/backend/codegen_visitor.cpp:140-154 | one type per parameter, in order, each the parameter's scalar type; all integer |
| Codegen.HandleConstDefList | src/backend/codegen_visitor.cpp:318-333 | as written: n nulls from the resize, then the n definitions' values in order |
| Codegen.CorrectedConstDefList | src/backend/codegen_visitor.cpp:318-333 | the intended result: exactly one value per definition, in order |
| Codegen.HandleConstDecl | src/backend/codegen_visitor.cpp:277-288 | the first definition's value goes in front of what the list gives: then n nulls and the n values |
| Codegen.ConstDefListScenario | src/backend/codegen_visitor.cpp:318-333 | for a one-definition list, as written gives [null, value] where [value] is meant |
| Codegen.Builder.constructor | src/backend/codegen_visitor.cpp:19-29 | an empty log and the type manager's signed-int width |
| Codegen.Builder.Create | src/backend/codegen_visitor.cpp:357-511 | a builder call appends one instruction and names it by its position |
| Codegen.Builder.UnaryOperate | src/backend/codegen_visitor.cpp:357-406 | appends exactly what `UnaryOperateSpec` says and returns its result |
| Codegen.Builder.BinaryOperate | src/backend/codegen_visitor.cpp:448-511 | appends exactly what `BinaryOperateSpec` says and returns its result |
| Codegen.Builder.LowerExpr | src/backend/codegen_visitor.cpp:206-213 | appends exactly `EmitExpr`'s instructions and returns its value |
| Codegen.Builder.LowerBinary | src/backend/codegen_visitor.cpp:418-445 | appends exactly `EmitBinary`'s instructions: left operand, right operand, operator |
| Codegen.Builder.LowerOperand | src/backend/codegen_visitor.cpp:426-434 | appends exactly `EmitOperand`'s instructions |
| Codegen.Builder.LowerUnary | src/backend/codegen_visitor.cpp:237-258 | appends exactly `EmitUnary`'s instructions: operand first, then the operator |
| Codegen.Builder.LowerPrimary | src/backend/codegen_visitor.cpp:215-235 | appends exactly `EmitPrimary`'s instructions |
| Codegen.Builder.LowerReturn | src/backend/codegen_visitor.cpp:196-204 | appends the expression's instructions, then a return of its value |
| Codegen.ReturnsMeaning | src/backend/codegen_visitor.cpp:196-204 | the value a lowered return statement returns is the meaning of its expression |
| TargetOutput.SizeSub | src/main/emit_target.cpp:108 | `end - beg` on size_t: below 2^64 and congruent to the difference |
| TargetOutput.RFind | src/main/emit_target.cpp:100-106 | npos exactly when the character is absent; otherwise the position of its last occurrence |
| TargetOutput.Substr | src/main/emit_target.cpp:108 | at most `count` characters from `pos`, fewer only at the end of the string |
| TargetOutput.ComponentStart | src/main/emit_target.cpp:100-104 | the last path component starts just after the last '/', or at 0, and holds no '/' |
| TargetOutput.EraseFilePostfix | src/main/emit_target.cpp:97-109 | the result holds no '/' and is no longer than the last path component |
| TargetOutput.EraseDropsExtension | src/main/emit_target.cpp:100-108 | the result is the last component cut just before its last '.'; when there is none, or the last '.' lies in a directory, the wrapped count keeps the component whole |
| TargetOutput.StripExtension | src/main/emit_target.cpp:97-109 | `dir/stem.ext` gives `stem` |
| TargetOutput.NoExtension | src/main/emit_target.cpp:97-109 | a last component with no '.' is kept whole, even when a directory has one |
| TargetOutput.ComponentIsTail | src/main/emit_target.cpp:100-104 | after a directory part ending in '/', the last component is what follows it |
| TargetOutput.Suffix | src/main/emit_target.cpp:118-134 | `unkown` gets no suffix; every other kind gets a '.' followed by no '.' or '/' |
| TargetOutput.SuffixesDistinct | src/main/emit_target.cpp:118-134 | different kinds of output get different suffixes |
| TargetOutput.EmitTarget.constructor | src/main/emit_target.cpp:12-20 | the input name, no target name, the emit-llvm switch |
| TargetOutput.EmitTarget.Named | src/main/emit_target.cpp:22-30 | the input name, the given target name, the emit-llvm switch |
| TargetOutput.EmitTarget.SetTargetName | src/main/include/emit_target.hpp:34-35 | overwrites any earlier explicit name |
| TargetOutput.EmitTarget.GetTargetType | src/main/emit_target.cpp:74-95 | unkown exactly for an unrecognised file type; otherwise IR exactly with emit-llvm; bitcode exactly for an object file with emit-llvm; assembly exactly for an assembly file without it; an object file gives bitcode or an object |
| TargetOutput.EmitTarget.GetTargetName | src/main/emit_target.cpp:111-137 | the explicit name when set, whatever the file type; otherwise the input's stem followed by the kind's suffix |
| TargetOutput.DerivedNameKeepsStem | src/main/emit_target.cpp:97-137 | stripping the postfix of a derived name gives back the input's stem |
| TargetOutput.DerivedNamesDiffer | src/main/emit_target.cpp:111-137 | without an explicit name, different kinds of output get different names for the same input |
| TargetOutput.RenameScenario | src/main/include/emit_target.hpp:34-35 | a set name is the target name whatever the file type, and a later setting replaces it |
| Location.Index | src/frontend/ast/include/base_ast.hpp:26-32 | each kind indexes one of the four counters |
| Location.CvtKindToLlvm | src/frontend/llvm_location.cpp:64-81 | error, warning, remark and note each map exactly to their LLVM namesake |
| Location.CvtKindToLlvmBijective | src/frontend/llvm_location.cpp:64-81 | the mapping is one-to-one and onto |
| Location.Increment | src/frontend/llvm_location.cpp:61 | `++` on a size_t counter: below 2^64 and one more modulo 2^64 |
| Location.LLVMLocation.constructor | src/frontend/llvm_location.cpp:8-16 | given a table of four `size_t` counters, a cursor at null begin and end with no source manager that keeps the class invariant (`Valid()`) which counting and reporting need |
| Location.LLVMLocation.SetBegin | src/frontend/llvm_location.cpp:8-11 | sets begin |
| Location.LLVMLocation.SetEnd | src/frontend/llvm_location.cpp:13-16 | sets end |
| Location.LLVMLocation.SetSrcMgr | src/frontend/llvm_location.cpp:29-32 | sets the source manager |
| Location.LLVMLocation.GetRange | src/frontend/llvm_location.cpp:39-42 | the range from begin to end |
| Location.LLVMLocation.Step | src/frontend/llvm_location.cpp:44-47 | begin moves to end and end stays, so the range is empty |
| Location.LLVMLocation.Update | src/frontend/llvm_location.cpp:49-52 | end advances by `len` and begin stays |
| Location.LLVMLocation.SearchCounter | src/frontend/llvm_location.cpp:54-57 | the counter of that kind |
| Location.LLVMLocation.Count | src/frontend/llvm_location.cpp:59-62 | only that kind's counter goes up by one |
| Location.LLVMLocation.Report | src/frontend/llvm_location.cpp:18-27 | requires a valid begin and a source manager holding a buffer; counts the kind exactly once; the diagnostic is at begin, over the current range, with the kind's LLVM namesake |
| Location.ScanScenario | src/frontend/llvm_location.cpp:44-52 | after step and update, each token's range covers exactly that token, and the next token starts where the last one ended |
| Location.CountScenario | src/frontend/llvm_location.cpp:18-62 | reporting an error and a warning counts one of each and no notes |

## Left out

- IR construction. The IR is modelled as an append-only log of abstract instructions with integer wrap-around semantics, not as LLVM:
  - `llvm::Function::Create`, `BasicBlock::Create` and `mutateType` are not modelled.
  - Constant folding and type-preserving cast elision inside `IRBuilder` are not modelled.
  - `Ir.Exec` still evaluates `sdiv`/`srem` by zero to 0, and the most negative integer divided by -1 to a wrapped value. LLVM and C leave both undefined. `Lowering.BinarySem`, and so `Lowering.DenoteExpr`, gives such a division no meaning, so `Lowering.EmitExprCorrect` says nothing about it.
- Floating point: float-typed values are a tag with no numeric meaning. The float branches of `unary_operate` (`CreateFNeg`, `CreateFCmpUNE`) appear as opcodes only.
- Codegen.Builder.UnaryOperate requires a non-null operand. It also rules out `!` on a float, because `ConstantInt::get` of a float type is refused by LLVM.
- Codegen.Builder.BinaryOperate requires an operator other than `!`. The source ends in an assert there.
- Codegen.Builder.LowerExpr, and the other lowering methods, require an expression with no call and no variable:
  - The call forms of `handle(UnaryExpr)` reach an assert.
  - `handle(LVal)` has an empty body.
  - `handle(ConstInitVal)` has an empty body too.
  - The `Emit` functions give null for these forms.
- Codegen.Builder.LowerReturn models `handle(Stmt)` for a statement that holds an expression. The source treats every statement it is handed as a return of its expression.
- Codegen.HandleConstDefList and Codegen.HandleConstDecl take `handle(ConstDef, type)` as a function parameter. That handler calls the draft `value_conversion`, whose body is empty (src/semantix/conversion.cpp:27-32).
- Function definitions, blocks and declarations are left out: `handle(CompUnit/FuncDef/Block/BlockItemList/BlockItem/Decl)`. They create LLVM functions and basic blocks and build symbol tables. `handle(Decl)` calls `get_const_decl` even for a variable declaration.
- The type manager (type_mgr.hpp is not part of this model): its integer types are the bit widths in `Codegen.TypeMgr`.
- EmitTarget::operator() is left out: it opens files and runs LLVM passes.
- TargetOutput.EmitTarget.GetTargetType takes the file type as a parameter. In the source it is a global command-line setting.
- Location.LLVMLocation.Report returns the diagnostic instead of printing it through the source manager. The `operator<<` of the location is left out too.
- llvm_location.hpp is not part of this model. Assumed from its uses:
  - positions are addresses, with 0 as null
  - a new cursor starts at null positions with no source manager
  - the counter table is an array of four `size_t` values, shared through a reference because `report` is `const`
- Location.LLVMLocation.Update does not model pointer overflow; positions are unbounded naturals.
- conversion.def is not part of this model. Its kinds are taken to be int_promotion, int_narrowing, int_cvt and arr2ptr_cvt, in that order, and each kind's message text is a function parameter of `Conversion.Message`.
- The draft `IConversionHelper::value_conversion` is left out, because its body is empty.
- Logging through spdlog is left out everywhere.
- Test-only fields of `ConversionConfig` are left out: the unit tests set `float2int_cvt_status` and the `*_status` fields, which the code does not declare.
- The AST's `has_*`/`get_*` queries of `PrimaryExpr`, `UnaryExpr`, `BinaryExpr`, `BlockItem` and `Decl` are not separate functions:
  - They are the datatypes' discriminators and destructors.
  - "Exactly one alternative holds" follows from the datatype definitions.
  - A destructor's use is checked against its constructor, as the source's tag asserts are.
  - `ExprList` is a sequence, so its size and iteration order are those of the sequence.
- Ast.BlockItemList.Prepend does not model that the moved-from list keeps null pointers. The source moves each element out of `rest`.
- Source locations carried by every AST node are left out, as is `BaseAST::get_kind_str`/`report`, which depend on ast.def.
- SymbolTable.LocalSymbolTable.Lookup requires a global table whenever the chain misses, because the source then dereferences `m_global_table`. Child tables never set it, so a miss from a child is undefined there.
- Symbol tables:
  - Names are compared as strings. The source keys by `string_view`, and its lifetime is not modelled.
  - `llvm::Value*` handles are natural numbers.

## Findings

| source | as written | input that shows it | evidently intended | confidence | as-written member | corrected member |
|---|---|---|---|---|---|---|
| src/langspec/conversion.cpp:31-35 | `value_conversion` sends integer pairs to `arithmetic_int_promotion`, which answers with the wider type | `value_conversion(i16, i32)` under the default configuration succeeds with i32 | route through `value_int_conversions`: warning(i16, int_narrowing), as the unit tests at test/unit_test/langspec_test/cvt_test.cpp:153-164 expect a narrowing status | medium, not executed | Conversion.ValueConversionIgnoresNarrowing | Conversion.IntendedValueConversion |
| src/frontend/ast/include/operator_ast.hpp:142-146, 157-161 | LAndOp and LOrOp end the process when handed their own operator, and accept every other one | `LAndOp(op_land)` exits with -1; `LAndOp(op_add)` is built | accept exactly `&&` (resp. `\|\|`) | high, not executed | Ast.ValidatorsAsWritten | Ast.IntendedTypeCheckFails |
| src/frontend/ast/include/operator_ast.hpp:95-99 | L4Op's range check reaches up to `op_not` | `L4Op(op_not)` is built | accept only `+` and `-`, as the grammar comment says | high, not executed | Ast.ValidatorsAsWritten | Ast.IntendedTypeCheckFails |
| src/backend/codegen_visitor.cpp:382-396 | unary `!` complements zext(x != 0) | `!0` evaluates to -1 and `!5` to -2 | C's 1 for zero and 0 otherwise (ISO C11, section 6.5.3.3) | high, not executed | Lowering.NotAsWritten | Lowering.CorrectedNotIsLogicalNot |
| src/backend/codegen_visitor.cpp:490-499 | `&&`/`\|\|` truncate both operands to one bit | `2 && 1` evaluates to 0 and `2 \|\| 0` to 0 | test each operand against zero (ISO C11, sections 6.5.13 and 6.5.14) | high, not executed | Lowering.LogicalOpsAsWritten | Lowering.CorrectedLogicalIsC |
| src/backend/codegen_visitor.cpp:505-510 | the zext of the result to signed int is built, then dropped; the one-bit result is returned | `(1 < 2) + 1` adds an i1 to an i32 | return the zext, an int 0 or 1 (ISO C11, section 6.5.8) | high, not executed | Lowering.ComparisonAsWritten | Lowering.CorrectedCompareIsC |
| src/backend/codegen_visitor.cpp:323-328 | `resize(n)` fills the vector with n nulls, and `push_back` adds the values after them | a one-definition list yields [null, value] | `reserve(n)`: one value per definition | high, not executed | Codegen.ConstDefListScenario | Codegen.CorrectedConstDefList |
| src/semantix/conversion.cpp:80-81 | `int_promotion` is gated on `enable_int_cvt` | promotion disabled, int_cvt enabled: the draft promotes i16/i32 to i32 | gate on `enable_int_promotion`, as src/langspec/conversion.cpp:76-77 does | medium, not executed | SemantixConversion.DraftKeysPromotionOnIntCvt | Conversion.ArithmeticIntPromotion |

The lowering methods of `Codegen.Builder` follow the code as written. Each
corrected member is a separate definition, and the intended property is
proved about it.
