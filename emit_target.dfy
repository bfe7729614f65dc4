/**
  How the driver names its output file (src/main/emit_target.cpp): the
  kind of file follows the code-generation file type and the emit-llvm
  switch, and the name is an explicit one when set, otherwise the input's
  last path component without its extension plus the kind's suffix.
  Sizes are 64-bit size_t values; std::string_view's npos is the largest.
*/
module TargetOutput {
  import opened Wrappers
  import opened SizeT

  /** std::string_view::npos. */
  const NPOS: nat := SizeMod - 1

  /** A string_view is never as long as npos. */
  predicate ViewSized(s: string)
  {
    |s| < NPOS
  }

  /** a - b on size_t: a negative difference wraps around by 2^64. */
  function SizeSub(a: nat, b: nat): (d: nat)
    requires a < SizeMod && b < SizeMod
    ensures d < SizeMod && (d - (a - b)) % SizeMod == 0
  {
    if a >= b then a - b else SizeMod + a - b
  }

  /** rfind(c): the position of the last `c`, or npos. */
  function RFind(s: string, c: char): (r: nat)
    requires ViewSized(s)
    ensures r == NPOS <==> c !in s
    ensures r != NPOS ==> r < |s| && s[r] == c
    ensures r != NPOS ==> forall j :: r < j < |s| ==> s[j] != c
    decreases |s|
  {
    if s == [] then NPOS
    else if s[|s| - 1] == c then |s| - 1
    else
      var p := s[..|s| - 1];
      assert forall j :: 0 <= j < |p| ==> p[j] == s[j];
      RFind(p, c)
  }

  /** substr(pos, count): at most `count` characters from `pos`. */
  function Substr(s: string, pos: nat, count: nat): (r: string)
    requires pos <= |s|
    ensures |r| <= count && pos + |r| <= |s| && r == s[pos..pos + |r|]
    ensures |r| < count ==> pos + |r| == |s|
  {
    if count < |s| - pos then s[pos..pos + count] else s[pos..]
  }

  /** Where the last path component starts: just after the last '/'. */
  function ComponentStart(name: string): (b: nat)
    requires ViewSized(name)
    ensures b <= |name| && '/' !in name[b..]
    ensures b > 0 ==> name[b - 1] == '/'
  {
    var slash := RFind(name, '/');
    if slash == NPOS then 0
    else
      assert forall j :: slash + 1 <= j < |name| ==> name[j] == name[slash + 1..][j - slash - 1];
      slash + 1
  }

  /** erase_file_postfix: the last path component, cut before the last
      '.' of the name.  The count end - beg is a size_t difference. */
  function EraseFilePostfix(name: string): (r: string)
    requires ViewSized(name)
    ensures '/' !in r
    ensures |r| <= |name| - ComponentStart(name)
  {
    var beg := ComponentStart(name);
    var end := RFind(name, '.');
    var r := Substr(name, beg, SizeSub(end, beg));
    assert forall j :: 0 <= j < |r| ==> r[j] == name[beg..][j];
    r
  }

  /** The result is the last path component up to the '.' that starts
      its extension, or the whole component when it has no '.'.  When
      the last '.' lies in a directory, or there is none (npos), end - beg
      wraps to a count beyond the end, which keeps the component whole. */
  lemma {:induction false} EraseDropsExtension(name: string)
    requires ViewSized(name)
    ensures var r := EraseFilePostfix(name);
      var comp := name[ComponentStart(name)..];
      && r == comp[..|r|]
      && (|r| == |comp| ==> '.' !in comp)
      && (|r| < |comp| ==> comp[|r|] == '.' && '.' !in comp[|r| + 1..])
  {
    var beg := ComponentStart(name);
    var end := RFind(name, '.');
    var comp := name[beg..];
    var r := EraseFilePostfix(name);
    assert r == Substr(name, beg, SizeSub(end, beg));
    if end == NPOS || end < beg {
      assert SizeSub(end, beg) >= |name| - beg;
      assert r == comp;
      NoDotFrom(name, beg, end);
    } else {
      assert SizeSub(end, beg) == end - beg;
      assert r == comp[..end - beg];
      LastDotIn(name, beg, end);
    }
  }

  /** No '.' from `beg` on when the last '.' lies before it or there is
      none. */
  lemma NoDotFrom(name: string, beg: nat, end: nat)
    requires beg <= |name|
    requires (end == NPOS && '.' !in name) || (end < beg && forall j :: end < j < |name| ==> name[j] != '.')
    ensures '.' !in name[beg..]
  {
    assert forall j :: 0 <= j < |name| - beg ==> name[beg..][j] == name[beg + j];
  }

  /** The last '.' of a name, seen from a component starting at or
      before it. */
  lemma LastDotIn(name: string, beg: nat, end: nat)
    requires beg <= end < |name| && name[end] == '.'
    requires forall j :: end < j < |name| ==> name[j] != '.'
    ensures name[beg..][end - beg] == '.' && '.' !in name[beg..][end - beg + 1..]
  {
    assert name[beg..][end - beg + 1..] == name[end + 1..];
  }

  /** An output name whose last component is `stem` plus one extension
      loses exactly the extension. */
  lemma {:induction false} StripExtension(dir: string, stem: string, ext: string)
    requires dir == [] || dir[|dir| - 1] == '/'
    requires '/' !in stem && '/' !in ext && '.' !in ext
    requires ViewSized(dir + stem + "." + ext)
    ensures EraseFilePostfix(dir + stem + "." + ext) == stem
  {
    var comp := stem + "." + ext;
    assert dir + stem + "." + ext == dir + comp;
    EraseLastComponent(dir, comp);
    ExtensionCut(stem, ext, EraseFilePostfix(dir + comp));
  }

  /** The only prefix of stem.ext that stops at a '.' followed by no
      other '.' is the stem. */
  lemma ExtensionCut(stem: string, ext: string, r: string)
    requires '.' !in ext
    requires var comp := stem + "." + ext;
      && |r| <= |comp| && r == comp[..|r|]
      && (|r| == |comp| ==> '.' !in comp)
      && (|r| < |comp| ==> comp[|r|] == '.' && '.' !in comp[|r| + 1..])
    ensures r == stem
  {
    var comp := stem + "." + ext;
    assert comp[|stem|] == '.';
    assert forall j :: |stem| < j < |comp| ==> comp[j] == ext[j - |stem| - 1];
    assert forall j :: |r| < j < |comp| ==> comp[j] == comp[|r| + 1..][j - |r| - 1];
    assert r == comp[..|stem|];
  }

  /** After a directory part, only the last component matters. */
  lemma EraseLastComponent(dir: string, comp: string)
    requires dir == [] || dir[|dir| - 1] == '/'
    requires '/' !in comp
    requires ViewSized(dir + comp)
    ensures var r := EraseFilePostfix(dir + comp);
      && |r| <= |comp| && r == comp[..|r|]
      && (|r| == |comp| ==> '.' !in comp)
      && (|r| < |comp| ==> comp[|r|] == '.' && '.' !in comp[|r| + 1..])
  {
    ComponentIsTail(dir, comp);
    EraseDropsExtension(dir + comp);
  }

  /** A file name whose last component has no '.' is kept whole, even
      when an earlier directory has one. */
  lemma {:induction false} NoExtension(dir: string, base: string)
    requires dir == [] || dir[|dir| - 1] == '/'
    requires '/' !in base && '.' !in base
    requires ViewSized(dir + base)
    ensures EraseFilePostfix(dir + base) == base
  {
    EraseLastComponent(dir, base);
  }

  /** After a directory part ending in '/', the last component is what
      follows it. */
  lemma ComponentIsTail(dir: string, comp: string)
    requires dir == [] || dir[|dir| - 1] == '/'
    requires '/' !in comp
    requires ViewSized(dir + comp)
    ensures ComponentStart(dir + comp) == |dir|
    ensures (dir + comp)[|dir|..] == comp
  {
    var name := dir + comp;
    assert forall j :: |dir| <= j < |name| ==> name[j] == comp[j - |dir|];
    if dir != [] {
      assert name[|dir| - 1] == '/';
    }
  }

  /** llvm::CodeGenFileType, with any other value of its underlying type
      as the fourth case. */
  datatype FileType = AssemblyFile | ObjectFile | NullFile | OtherFileType

  /** The kinds of output; `Unkown` keeps the source's spelling. */
  datatype TargetType = LlvmIr | LlvmBin | Assembly | Object | Unkown

  /** The file-name suffix of each kind of output. */
  function Suffix(t: TargetType): (s: string)
    ensures t == Unkown <==> s == []
    ensures s != [] ==> s[0] == '.' && '.' !in s[1..] && '/' !in s
  {
    match t
    case LlvmIr => ".ll"
    case LlvmBin => ".bc"
    case Assembly => ".s"
    case Object => ".o"
    case Unkown => ""
  }

  /** Different kinds of output get different suffixes. */
  lemma SuffixesDistinct(t: TargetType, u: TargetType)
    requires t != u
    ensures Suffix(t) != Suffix(u)
  {
  }

  class EmitTarget {
    const inputFileName: string
    var targetName: Option<string>
    const emitLlvm: bool

    /** The constructor without a target name. */
    constructor (input: string, emit: bool)
      ensures inputFileName == input && targetName == None && emitLlvm == emit
    {
      inputFileName := input;
      targetName := None;
      emitLlvm := emit;
    }

    /** The constructor with an explicit target name. */
    constructor Named(input: string, name: string, emit: bool)
      ensures inputFileName == input && targetName == Some(name) && emitLlvm == emit
    {
      inputFileName := input;
      targetName := Some(name);
      emitLlvm := emit;
    }

    /** set_target_name: replaces any earlier explicit name. */
    method SetTargetName(name: string)
      modifies this`targetName
      ensures targetName == Some(name)
    {
      targetName := Some(name);
    }

    /** get_target_type, given the file type chosen on the command line:
        emit-llvm asks for IR, as text for assembly or no file type and as
        bitcode for objects; an unrecognised file type gives `Unkown`. */
    function GetTargetType(fileType: FileType): (t: TargetType)
      ensures t == Unkown <==> fileType == OtherFileType
      ensures t != Unkown ==> (emitLlvm <==> t in {LlvmIr, LlvmBin})
      ensures t == LlvmBin <==> fileType == ObjectFile && emitLlvm
      ensures t == Assembly <==> fileType == AssemblyFile && !emitLlvm
      ensures fileType == ObjectFile ==> t in {LlvmBin, Object}
    {
      match fileType
      case AssemblyFile => if emitLlvm then LlvmIr else Assembly
      case ObjectFile => if emitLlvm then LlvmBin else Object
      case NullFile => if emitLlvm then LlvmIr else Object
      case OtherFileType => Unkown
    }

    /** get_target_name: the explicit name if there is one, otherwise the
        input's stem followed by the output kind's suffix. */
    function GetTargetName(fileType: FileType): (name: string)
      requires ViewSized(inputFileName)
      reads this
      ensures targetName.Some? ==> name == targetName.value
      ensures targetName.None? ==>
        var stem := EraseFilePostfix(inputFileName);
        && |stem| <= |name|
        && name[..|stem|] == stem
        && name[|stem|..] == Suffix(GetTargetType(fileType))
    {
      if targetName.Some? then targetName.value
      else
        var stem := EraseFilePostfix(inputFileName);
        var result := stem + Suffix(GetTargetType(fileType));
        assert result[..|stem|] == stem;
        result
    }
  }

  /** Stripping the postfix of a derived output name gives back the
      input's stem. */
  lemma {:induction false} DerivedNameKeepsStem(e: EmitTarget, fileType: FileType)
    requires e.targetName.None? && e.GetTargetType(fileType) != Unkown
    requires |e.inputFileName| + 3 < NPOS
    ensures EraseFilePostfix(e.GetTargetName(fileType)) == EraseFilePostfix(e.inputFileName)
  {
    var stem := EraseFilePostfix(e.inputFileName);
    var suffix := Suffix(e.GetTargetType(fileType));
    var name := e.GetTargetName(fileType);
    assert name == stem + suffix;
    assert name == [] + stem + "." + suffix[1..];
    StripExtension([], stem, suffix[1..]);
  }

  /** Without an explicit name, different kinds of output get different
      names for the same input. */
  lemma DerivedNamesDiffer(e: EmitTarget, f: FileType, g: FileType)
    requires e.targetName.None? && ViewSized(e.inputFileName)
    requires e.GetTargetType(f) != e.GetTargetType(g)
    ensures e.GetTargetName(f) != e.GetTargetName(g)
  {
    var stem := EraseFilePostfix(e.inputFileName);
    SuffixesDistinct(e.GetTargetType(f), e.GetTargetType(g));
    assert e.GetTargetName(f)[|stem|..] != e.GetTargetName(g)[|stem|..];
  }

  /** Setting a name makes it the target name whatever the file type, and
      a later setting replaces an earlier one. */
  method RenameScenario(input: string, first: string, second: string, fileType: FileType)
    returns (before: string, after: string)
    requires ViewSized(input)
    ensures before == first && after == second
  {
    var e := new EmitTarget(input, false);
    e.SetTargetName(first);
    before := e.GetTargetName(fileType);
    e.SetTargetName(second);
    after := e.GetTargetName(fileType);
  }
}
