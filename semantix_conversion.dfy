/**
  The draft conversion interface (src/semantix/conversion.cpp and the
  IType / IConversionHelper / LLVMType / LLVMConversionHelper declarations
  of src/langspec/include/conversion.hpp).  Types are wrapped in a
  kind-tagged IType, and results travel as an expected-or-error-code.
*/
module SemantixConversion {
  import opened Wrappers
  import opened IrTypes
  import Conversion

  /** IType::Kind and IConversionHelper::Kind share the same three tags. */
  datatype Kind = LlvmKind | Mock1 | Mock2

  /** An IType: its kind tag and the type it answers for through
      is_integer_ty and get_integer_bit_width. */
  datatype IType = IType(kind: Kind, ty: Type)

  /** LLVMType::classof. */
  predicate IsLlvmType(t: IType)
  {
    t.kind == LlvmKind
  }

  /** The LLVMType wrapping an IR type: tagged `llvm`, answering for it. */
  function WrapLlvmType(ty: Type): (t: IType)
    ensures IsLlvmType(t) && t.ty == ty
  {
    IType(LlvmKind, ty)
  }

  /** An LLVMConversionHelper: its kind tag and its shared configuration. */
  datatype Helper = Helper(kind: Kind, config: Conversion.ConversionConfig)

  /** LLVMConversionHelper::classof. */
  predicate IsLlvmHelper(h: Helper)
  {
    h.kind == LlvmKind
  }

  /** The LLVMConversionHelper constructor: it keeps the kind it is given
      and shares the configuration, so classof recognises the helper
      exactly when it was built with the `llvm` tag. */
  function NewLlvmHelper(kind: Kind, config: Conversion.ConversionConfig): (h: Helper)
    ensures h.kind == kind && h.config == config
    ensures IsLlvmHelper(h) <==> kind == LlvmKind
  {
    Helper(kind, config)
  }

  /** LLVMConversionHelper::int_promotion: gated on `enable_int_cvt`, and it
      reports `int_promotion` when that flag is off. */
  function IntPromotion(h: Helper, left: IType, right: IType): (r: Result<IType, Conversion.ConversionError>)
    requires left.ty.Int? && right.ty.Int?
    ensures !h.config.enableIntCvt <==> r.Err?
    ensures r.Err? ==> r.error == Conversion.KindError(Conversion.IntPromotion)
    ensures r.Ok? ==>
      && IsLlvmType(r.value) && r.value.ty.Int?
      && r.value.ty.width >= left.ty.width && r.value.ty.width >= right.ty.width
      && (r.value.ty.width == left.ty.width || r.value.ty.width == right.ty.width)
  {
    if !h.config.enableIntCvt then Err(Conversion.KindError(Conversion.IntPromotion))
    else Ok(WrapLlvmType(Int(Conversion.Max(left.ty.width, right.ty.width))))
  }

  /** LLVMConversionHelper::int_cvt: hands back the target type itself. */
  function IntCvt(h: Helper, left: IType, right: IType): (r: Result<IType, Conversion.ConversionError>)
    ensures !h.config.enableIntCvt ==> r == Err(Conversion.KindError(Conversion.IntCvt))
    ensures h.config.enableIntCvt ==> r == Ok(left)
  {
    if !h.config.enableIntCvt then Err(Conversion.KindError(Conversion.IntCvt))
    else Ok(left)
  }

  /** IConversionHelper::arithmetic_conversion: integer pairs go to
      int_promotion, anything else is `unsupport_cvt`. */
  function ArithmeticConversion(h: Helper, left: IType, right: IType): (r: Result<IType, Conversion.ConversionError>)
    ensures !(left.ty.Int? && right.ty.Int?) ==> r == Err(Conversion.UnsupportCvt)
    ensures left.ty.Int? && right.ty.Int? ==> r == IntPromotion(h, left, right)
  {
    if left.ty.Int? && right.ty.Int? then IntPromotion(h, left, right)
    else Err(Conversion.UnsupportCvt)
  }

  /** The draft and the langspec engine agree whenever the two flags the
      draft confuses agree: same success type, same error code. */
  lemma DraftAgreesWithEngine(h: Helper, left: IType, right: IType)
    requires h.config.enableIntCvt == h.config.enableIntPromotion
    ensures var d := ArithmeticConversion(h, left, right);
            var c := Conversion.ArithmeticConversion(h.config, left.ty, right.ty);
      && (d.Ok? <==> c.Success?)
      && (d.Ok? ==> d.value.ty == c.resultType)
      && (d.Err? ==> d.error == c.code)
  {
  }

  /** The draft keys promotion on `enable_int_cvt`: with promotion disabled
      and int_cvt enabled it still promotes, where the langspec engine
      refuses. */
  lemma DraftKeysPromotionOnIntCvt()
    ensures var cfg := Conversion.ConversionConfig(false, true, true, true);
      && ArithmeticConversion(NewLlvmHelper(LlvmKind, cfg), WrapLlvmType(Int(16)), WrapLlvmType(Int(32)))
         == Ok(WrapLlvmType(Int(32)))
      && Conversion.ArithmeticConversion(cfg, Int(16), Int(32))
         == Conversion.Failure(Conversion.KindError(Conversion.IntPromotion))
  {
  }
}
