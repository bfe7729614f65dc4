/**
  The implicit-conversion policy engine (src/langspec/conversion.cpp and
  src/langspec/include/conversion.hpp).

  Given two integer bit widths and a configuration of boolean "enable"
  flags, one flag per kind of the conversion catalog, the engine answers
  success(type), warning(type, code) or failure(code).  It approximates
  the integer promotions and usual arithmetic conversions of ISO C11
  (sections 6.3.1.1 and 6.3.1.8).
*/
module Conversion {
  import opened Wrappers
  import opened IrTypes

  /** The kinds of the conversion catalog (conversion.def is not part of
      this model; these four are the kinds the sources name). */
  datatype CvtKind = IntPromotion | IntNarrowing | IntCvt | Arr2PtrCvt

  /** The catalog in declaration order (the order is an assumption). */
  const Catalog: seq<CvtKind> := [IntPromotion, IntNarrowing, IntCvt, Arr2PtrCvt]

  /** Position of a kind in the catalog. */
  function CatalogIndex(k: CvtKind): (i: nat)
    ensures i < |Catalog| && Catalog[i] == k
  {
    match k
    case IntPromotion => 0
    case IntNarrowing => 1
    case IntCvt => 2
    case Arr2PtrCvt => 3
  }

  /** conversion_error: `none`, one code per catalog kind, `unsupport_cvt`. */
  datatype ConversionError = NoError | KindError(kind: CvtKind) | UnsupportCvt

  /** The integer value of a code, as static_cast<int> gives it. */
  function ErrorValue(e: ConversionError): int
  {
    match e
    case NoError => 0
    case KindError(k) => CatalogIndex(k) + 1
    case UnsupportCvt => |Catalog| + 1
  }

  /** static_cast<conversion_error>(ev): the code whose value is ev, if any. */
  function ErrorFromValue(ev: int): (r: Option<ConversionError>)
    ensures r.Some? ==> ErrorValue(r.value) == ev
    ensures r.None? <==> ev < 0 || ev > |Catalog| + 1
  {
    if ev == 0 then Some(NoError)
    else if 1 <= ev <= |Catalog| then Some(KindError(Catalog[ev - 1]))
    else if ev == |Catalog| + 1 then Some(UnsupportCvt)
    else None
  }

  /** `none` is 0, every catalog kind lies strictly between, and
      `unsupport_cvt` comes after all of them; distinct codes have
      distinct values. */
  lemma ErrorValueLayout(k: CvtKind, e1: ConversionError, e2: ConversionError)
    ensures ErrorValue(NoError) == 0 < ErrorValue(KindError(k)) < ErrorValue(UnsupportCvt)
    ensures ErrorValue(e1) == ErrorValue(e2) ==> e1 == e2
  {
    if ErrorValue(e1) == ErrorValue(e2) && e1.KindError? && e2.KindError? {
      assert Catalog[CatalogIndex(e1.kind)] == e1.kind;
      assert Catalog[CatalogIndex(e2.kind)] == e2.kind;
    }
  }

  /** Decoding a code's value gives the code back. */
  lemma {:induction false} ErrorValueRoundTrip(e: ConversionError)
    ensures ErrorFromValue(ErrorValue(e)) == Some(e)
  {
    match e
    case NoError =>
    case UnsupportCvt =>
    case KindError(k) =>
      assert Catalog[CatalogIndex(k)] == k;
  }

  /** conversion_category::message.  `catalogText` stands for the message
      text the catalog gives each kind. */
  function Message(ev: int, catalogText: CvtKind -> string): (m: string)
    ensures ev == ErrorValue(NoError) ==> m == "No conversion error."
    ensures forall k :: ev == ErrorValue(KindError(k)) ==> m == catalogText(k) + "disabled"
    ensures ev == ErrorValue(UnsupportCvt) ==> m == "unsupport cvt"
    ensures ErrorFromValue(ev).None? ==> m == "Unknown conversion error."
  {
    match ErrorFromValue(ev)
    case Some(NoError) => "No conversion error."
    case Some(KindError(k)) => catalogText(k) + "disabled"
    case Some(UnsupportCvt) => "unsupport cvt"
    case None => "Unknown conversion error."
  }

  /** ConversionConfig: one `enable_<kind>` flag per catalog kind. */
  datatype ConversionConfig = ConversionConfig(
    enableIntPromotion: bool,
    enableIntNarrowing: bool,
    enableIntCvt: bool,
    enableArr2PtrCvt: bool)

  function Enabled(cfg: ConversionConfig, k: CvtKind): bool
  {
    match k
    case IntPromotion => cfg.enableIntPromotion
    case IntNarrowing => cfg.enableIntNarrowing
    case IntCvt => cfg.enableIntCvt
    case Arr2PtrCvt => cfg.enableArr2PtrCvt
  }

  /** A default-constructed configuration enables every kind. */
  function DefaultConfig(): (cfg: ConversionConfig)
    ensures forall k :: Enabled(cfg, k)
  {
    ConversionConfig(true, true, true, true)
  }

  datatype ConversionStatus = StatusSuccess | StatusWarning | StatusFailure

  /** ConversionResult, built by its success/warning/failure helpers. */
  datatype ConversionResult =
    | Success(resultType: Type)
    | Warning(resultType: Type, code: ConversionError)
    | Failure(code: ConversionError)
  {
    function Status(): ConversionStatus
    {
      match this
      case Success(_) => StatusSuccess
      case Warning(_, _) => StatusWarning
      case Failure(_) => StatusFailure
    }

    /** result_type: null exactly for a failure. */
    function TypeOrNull(): (t: Option<Type>)
      ensures t.None? <==> Status() == StatusFailure
    {
      if Failure? then None else Some(resultType)
    }

    /** ec: `none` for a success, the carried code otherwise. */
    function ErrorCode(): (e: ConversionError)
      ensures Status() == StatusSuccess ==> e == NoError
      ensures Status() != StatusSuccess ==> e == code
    {
      if Success? then NoError else code
    }
  }

  function Max(a: nat, b: nat): nat
  {
    if a > b then a else b
  }

  /** ConversionHelper::arithmetic_int_promotion: with promotion enabled,
      the integer type of the larger of the two widths. */
  function ArithmeticIntPromotion(cfg: ConversionConfig, left: Type, right: Type): (r: ConversionResult)
    requires left.Int? && right.Int?
    ensures !cfg.enableIntPromotion ==> r == Failure(KindError(IntPromotion))
    ensures cfg.enableIntPromotion ==>
      && r.Success? && r.resultType.Int?
      && r.resultType.width >= left.width && r.resultType.width >= right.width
      && (r.resultType.width == left.width || r.resultType.width == right.width)
  {
    if !cfg.enableIntPromotion then Failure(KindError(IntPromotion))
    else Success(Int(Max(left.width, right.width)))
  }

  /** Promotion does not depend on the order of its operands. */
  lemma ArithmeticIntPromotionCommutes(cfg: ConversionConfig, left: Type, right: Type)
    requires left.Int? && right.Int?
    ensures ArithmeticIntPromotion(cfg, left, right) == ArithmeticIntPromotion(cfg, right, left)
  {
  }

  /** ConversionHelper::value_conversion: both integers go to
      arithmetic_int_promotion; anything else is unsupported. */
  function ValueConversion(cfg: ConversionConfig, left: Type, right: Type): (r: ConversionResult)
    ensures !(left.Int? && right.Int?) ==> r == Failure(UnsupportCvt)
    ensures left.Int? && right.Int? ==> r == ArithmeticIntPromotion(cfg, left, right)
  {
    if left.Int? && right.Int? then ArithmeticIntPromotion(cfg, left, right)
    else Failure(UnsupportCvt)
  }

  /** ConversionHelper::arithmetic_conversion: the same routing. */
  function ArithmeticConversion(cfg: ConversionConfig, left: Type, right: Type): (r: ConversionResult)
    ensures !(left.Int? && right.Int?) ==> r == Failure(UnsupportCvt)
    ensures left.Int? && right.Int? && cfg.enableIntPromotion ==> r == Success(Int(Max(left.width, right.width)))
    ensures left.Int? && right.Int? && !cfg.enableIntPromotion ==> r == Failure(KindError(IntPromotion))
  {
    if left.Int? && right.Int? then ArithmeticIntPromotion(cfg, left, right)
    else Failure(UnsupportCvt)
  }

  /** The two public entry points answer alike on every input. */
  lemma ValueAndArithmeticConversionAgree(cfg: ConversionConfig, left: Type, right: Type)
    ensures ValueConversion(cfg, left, right) == ArithmeticConversion(cfg, left, right)
  {
  }

  /** ConversionHelper::value_int_conversions (not reachable from the public
      entry points): the target type `left` when the widths allow it. */
  function ValueIntConversions(cfg: ConversionConfig, left: Type, right: Type): (r: ConversionResult)
    requires left.Int? && right.Int?
    ensures left.width == right.width ==> r == Success(left)
    ensures left.width > right.width ==>
      r == if cfg.enableIntPromotion then Success(left) else Failure(KindError(IntPromotion))
    ensures left.width < right.width ==>
      r == if cfg.enableIntNarrowing then Warning(left, KindError(IntNarrowing))
           else Failure(KindError(IntNarrowing))
  {
    var lw := left.width;
    var rw := right.width;
    if lw == rw then Success(left)
    else if lw > rw then
      (if cfg.enableIntPromotion then Success(left) else Failure(KindError(IntPromotion)))
    else
      (if cfg.enableIntNarrowing then Warning(left, KindError(IntNarrowing))
       else Failure(KindError(IntNarrowing)))
  }

  /** Whatever type value_int_conversions hands back is the target type,
      converting that type to itself again is a plain success, and a
      narrowing is never a plain success. */
  lemma ValueIntConversionsKeepTarget(cfg: ConversionConfig, left: Type, right: Type)
    requires left.Int? && right.Int?
    ensures var r := ValueIntConversions(cfg, left, right);
      && (r.TypeOrNull().Some? ==>
            r.resultType == left && ValueIntConversions(cfg, r.resultType, r.resultType) == Success(left))
      && (left.width < right.width ==> r.Status() != StatusSuccess)
      && (left.width >= right.width && r.Status() != StatusSuccess ==> r == Failure(KindError(IntPromotion)))
  {
  }

  /** value_conversion answers with the wider width, not the target: for a
      16-bit target and a 32-bit source it succeeds with a 32-bit type,
      where value_int_conversions would warn about narrowing. */
  lemma ValueConversionIgnoresNarrowing()
    ensures ValueConversion(DefaultConfig(), Int(16), Int(32)) == Success(Int(32))
    ensures ValueIntConversions(DefaultConfig(), Int(16), Int(32)) == Warning(Int(16), KindError(IntNarrowing))
  {
  }

  /** The routing the unit tests expect of value_conversion: integer pairs
      go through value_int_conversions. */
  function IntendedValueConversion(cfg: ConversionConfig, left: Type, right: Type): (r: ConversionResult)
    ensures !(left.Int? && right.Int?) ==> r == Failure(UnsupportCvt)
    ensures left.Int? && right.Int? && r.TypeOrNull().Some? ==> r.resultType == left
    ensures left.Int? && right.Int? && left.width < right.width ==> r.Status() != StatusSuccess
    ensures left.Int? && right.Int? && left.width == right.width ==> r == Success(left)
  {
    if left.Int? && right.Int? then ValueIntConversions(cfg, left, right)
    else Failure(UnsupportCvt)
  }
}
