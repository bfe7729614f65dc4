/**
  The source-position cursor the scanner moves over the input buffer
  (src/frontend/llvm_location.cpp): a begin and an end pointer, a table
  counting the diagnostics reported per kind, and the mapping of the
  compiler's diagnostic kinds onto LLVM's.  Pointers are addresses, 0
  standing for null.  Printing through the source manager is left out;
  a report hands back the diagnostic it would print.
*/
module Location {
  import opened Wrappers
  import opened SizeT

  /** Location::DiagKind. */
  datatype DiagKind = DkError | DkWarning | DkRemark | DkNote

  /** The enumerator's value, the index of its counter. */
  function Index(k: DiagKind): (i: nat)
    ensures i < 4
  {
    match k
    case DkError => 0
    case DkWarning => 1
    case DkRemark => 2
    case DkNote => 3
  }

  /** llvm::SourceMgr::DiagKind. */
  datatype LlvmDiagKind = DK_Error | DK_Warning | DK_Remark | DK_Note

  /** cvt_kind_to_llvm: each kind to its LLVM namesake. */
  function CvtKindToLlvm(k: DiagKind): (l: LlvmDiagKind)
    ensures l == DK_Error <==> k == DkError
    ensures l == DK_Warning <==> k == DkWarning
    ensures l == DK_Remark <==> k == DkRemark
    ensures l == DK_Note <==> k == DkNote
  {
    match k
    case DkError => DK_Error
    case DkWarning => DK_Warning
    case DkRemark => DK_Remark
    case DkNote => DK_Note
  }

  /** The LLVM kind's counterpart, the inverse of the mapping. */
  function KindFromLlvm(l: LlvmDiagKind): DiagKind
  {
    match l
    case DK_Error => DkError
    case DK_Warning => DkWarning
    case DK_Remark => DkRemark
    case DK_Note => DkNote
  }

  /** The mapping is one-to-one and onto: it has an inverse on both
      sides. */
  lemma CvtKindToLlvmBijective(k: DiagKind, l: LlvmDiagKind)
    ensures KindFromLlvm(CvtKindToLlvm(k)) == k
    ensures CvtKindToLlvm(KindFromLlvm(l)) == l
  {
  }

  /** ++ on a size_t counter. */
  function Increment(c: nat): (r: nat)
    requires c < SizeMod
    ensures r < SizeMod && (r - c - 1) % SizeMod == 0
  {
    if c + 1 == SizeMod then 0 else c + 1
  }

  /** The source manager as the cursor sees it: how many buffers it holds. */
  datatype SourceMgr = SourceMgr(numBuffers: nat)

  /** llvm::SMRange. */
  datatype Range = Range(start: nat, finish: nat)

  /** What PrintMessage is asked to print. */
  datatype Diagnostic = Diagnostic(at: nat, kind: LlvmDiagKind, msg: string, range: Range)

  class LLVMLocation {
    var begin: nat
    var end: nat
    var srcMgr: Option<SourceMgr>
    /** trace_counter: one size_t counter per diagnostic kind. */
    const traceCounter: array<nat>

    ghost predicate Valid()
      reads this, traceCounter
    {
      traceCounter.Length == 4 && forall i :: 0 <= i < 4 ==> traceCounter[i] < SizeMod
    }

    /** A cursor at null positions with no source manager, counting into
        the given table. */
    constructor (counters: array<nat>)
      requires counters.Length == 4 && forall i :: 0 <= i < 4 ==> counters[i] < SizeMod
      ensures Valid()
      ensures begin == 0 && end == 0 && srcMgr == None && traceCounter == counters
    {
      begin := 0;
      end := 0;
      srcMgr := None;
      traceCounter := counters;
    }

    /** set_begin. */
    method SetBegin(p: nat)
      modifies this`begin
      ensures begin == p
    {
      begin := p;
    }

    /** set_end. */
    method SetEnd(p: nat)
      modifies this`end
      ensures end == p
    {
      end := p;
    }

    /** set_src_mgr. */
    method SetSrcMgr(m: Option<SourceMgr>)
      modifies this`srcMgr
      ensures srcMgr == m
    {
      srcMgr := m;
    }

    /** get_range: from begin to end. */
    function GetRange(): (r: Range)
      reads this
      ensures r.start == begin && r.finish == end
    {
      Range(begin, end)
    }

    /** step: the next token starts where the last one ended. */
    method Step()
      modifies this`begin
      ensures begin == old(end) && end == old(end)
      ensures GetRange().start == GetRange().finish
    {
      begin := end;
    }

    /** update: the current token grows by `len` characters. */
    method Update(len: nat)
      modifies this`end
      ensures end == old(end) + len && begin == old(begin)
    {
      end := end + len;
    }

    /** search_counter: how many diagnostics of a kind were counted. */
    function SearchCounter(k: DiagKind): (n: nat)
      requires Valid()
      reads this, traceCounter
      ensures n < SizeMod && n == traceCounter[Index(k)]
    {
      traceCounter[Index(k)]
    }

    /** count: one more diagnostic of kind `k`; the other counters stay. */
    method Count(k: DiagKind)
      requires Valid()
      modifies traceCounter
      ensures Valid()
      ensures traceCounter[Index(k)] == Increment(old(traceCounter[Index(k)]))
      ensures forall i :: 0 <= i < 4 && i != Index(k) ==> traceCounter[i] == old(traceCounter[i])
    {
      traceCounter[Index(k)] := Increment(traceCounter[Index(k)]);
    }

    /** report: needs a valid begin and a source manager holding a
        buffer; counts the diagnostic once and prints it at begin, over
        the current range, as the LLVM kind of `k`. */
    method Report(k: DiagKind, msg: string) returns (d: Diagnostic)
      requires Valid()
      requires begin != 0
      requires srcMgr.Some? && srcMgr.value.numBuffers > 0
      modifies traceCounter
      ensures Valid()
      ensures d == Diagnostic(begin, CvtKindToLlvm(k), msg, Range(begin, end))
      ensures traceCounter[Index(k)] == Increment(old(traceCounter[Index(k)]))
      ensures forall i :: 0 <= i < 4 && i != Index(k) ==> traceCounter[i] == old(traceCounter[i])
    {
      var range := GetRange();
      Count(k);
      d := Diagnostic(begin, CvtKindToLlvm(k), msg, range);
    }
  }

  /** Scanning two tokens of lengths `a` and `b`: each range covers its
      own token, and the second starts where the first ended. */
  method ScanScenario(start: nat, a: nat, b: nat) returns (first: Range, second: Range)
    ensures first == Range(start, start + a)
    ensures second == Range(start + a, start + a + b)
  {
    var counters := new nat[4](_ => 0);
    var loc := new LLVMLocation(counters);
    loc.SetEnd(start);
    loc.Step();
    loc.Update(a);
    first := loc.GetRange();
    loc.Step();
    loc.Update(b);
    second := loc.GetRange();
  }

  /** Reporting an error and then a warning counts one of each and
      leaves the other kinds at zero. */
  method CountScenario(at: nat, msg: string) returns (errors: nat, warnings: nat, notes: nat)
    requires at != 0
    ensures errors == 1 && warnings == 1 && notes == 0
  {
    var counters := new nat[4](_ => 0);
    var loc := new LLVMLocation(counters);
    loc.SetBegin(at);
    loc.SetSrcMgr(Some(SourceMgr(1)));
    var d1 := loc.Report(DkError, msg);
    var d2 := loc.Report(DkWarning, msg);
    errors := loc.SearchCounter(DkError);
    warnings := loc.SearchCounter(DkWarning);
    notes := loc.SearchCounter(DkNote);
  }
}
