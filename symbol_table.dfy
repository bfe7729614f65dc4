/**
  Scoped symbol tables of the language layer (src/langspec/symbol_table.cpp
  and src/langspec/include/symbol_table.hpp).

  A LocalSymbolTable holds the names of one block and points to the table
  of the enclosing block; the outermost table of a function points to the
  program's GlobalSymbolTable.  A lookup walks outwards from the innermost
  table and the nearest binding wins; only when no local table binds the
  name is the global table asked.
*/
module SymbolTable {
  import opened Wrappers

  /** Handles standing for llvm::Value*, llvm::AllocaInst* and llvm::Function*. */
  type ValueId = nat
  type FuncId = nat

  /** SymbolEntry::EntryType. */
  datatype EntryType = EvalValue | AllocaValue | FuncValue

  /** SymbolEntry: either a value with its entry type, or a stack slot. */
  datatype SymbolEntry =
    | ValueEntry(valueType: EntryType, value: ValueId)
    | AllocaEntry(alloca: ValueId)

  /** An entry is well formed when a plain value is never tagged as a slot. */
  predicate WellFormed(e: SymbolEntry)
  {
    e.ValueEntry? ==> e.valueType != AllocaValue
  }

  /** SymbolEntry::type. */
  function TypeOf(e: SymbolEntry): (t: EntryType)
    ensures WellFormed(e) ==> (t == AllocaValue <==> e.AllocaEntry?)
  {
    match e
    case ValueEntry(t, _) => t
    case AllocaEntry(_) => AllocaValue
  }

  /** SymbolEntry(EntryType, llvm::Value*): the type must not be
      `alloca_value`, which only the slot constructor gives. */
  function MakeValueEntry(t: EntryType, v: ValueId): (e: SymbolEntry)
    requires t != AllocaValue
    ensures WellFormed(e) && TypeOf(e) == t && !e.AllocaEntry?
  {
    ValueEntry(t, v)
  }

  /** SymbolEntry(llvm::AllocaInst*). */
  function MakeAllocaEntry(a: ValueId): (e: SymbolEntry)
    ensures WellFormed(e) && TypeOf(e) == AllocaValue
  {
    AllocaEntry(a)
  }

  class GlobalSymbolTable {
    var table: map<string, SymbolEntry>

    constructor ()
      ensures table == map[]
    {
      table := map[];
    }

    /** find: the bound entry, or null when the name is unbound. */
    method Find(name: string) returns (r: Option<SymbolEntry>)
      ensures r.Some? <==> name in table
      ensures r.Some? ==> r.value == table[name]
    {
      if name in table {
        r := Some(table[name]);
      } else {
        r := None;
      }
    }

    /** insert: emplace never replaces an existing binding. */
    method Insert(name: string, entry: SymbolEntry) returns (success: bool)
      modifies this
      ensures success <==> name !in old(table)
      ensures table == if success then old(table)[name := entry] else old(table)
    {
      success := name !in table;
      if success {
        table := table[name := entry];
      }
    }
  }

  /** The first binding of `name` along a chain of tables, innermost first. */
  function ChainFind(tables: seq<LocalSymbolTable>, name: string): (r: Option<SymbolEntry>)
    reads tables
    ensures r.None? <==> forall i :: 0 <= i < |tables| ==> name !in tables[i].table
    decreases |tables|
  {
    if tables == [] then None
    else if name in tables[0].table then Some(tables[0].table[name])
    else ChainFind(tables[1..], name)
  }

  /** The nearest table that binds a name decides the result: inner
      bindings shadow outer ones. */
  lemma {:induction false} NearestWins(tables: seq<LocalSymbolTable>, name: string, i: nat)
    requires i < |tables| && name in tables[i].table
    requires forall j :: 0 <= j < i ==> name !in tables[j].table
    ensures ChainFind(tables, name) == Some(tables[i].table[name])
  {
    if i > 0 {
      NearestWins(tables[1..], name, i - 1);
    }
  }

  class LocalSymbolTable {
    var table: map<string, SymbolEntry>
    /** The enclosing block's table; null for a function's outermost table. */
    const upper: LocalSymbolTable?
    /** The function the block belongs to; None stands for a null pointer. */
    const func: Option<FuncId>
    /** The global table; only a function's outermost table sets it. */
    const global: GlobalSymbolTable?
    /** Distance to the outermost table, so that the chain is finite. */
    ghost const depth: nat

    ghost predicate Valid()
      decreases depth
    {
      upper != null ==> upper.depth < depth && upper.Valid()
    }

    /** The tables a lookup visits, this one first and the outermost last. */
    ghost function Chain(): (c: seq<LocalSymbolTable>)
      requires Valid()
      ensures |c| >= 1 && c[0] == this && c[|c| - 1].upper == null
      ensures forall i :: 0 <= i < |c| - 1 ==> c[i + 1] == c[i].upper
      ensures forall i :: 0 <= i < |c| ==> c[i].Valid()
      decreases depth
    {
      if upper == null then [this] else [this] + upper.Chain()
    }

    /** The tables a lookup starts from. */
    ghost function Searched(searchThisLevel: bool): seq<LocalSymbolTable>
      requires Valid()
    {
      if searchThisLevel then Chain()
      else if upper == null then []
      else upper.Chain()
    }

    /** LocalSymbolTable(LocalSymbolTable*): a block nested in `up`, of the
        same function.  The source leaves its global table unset; here it
        has none. */
    constructor Child(up: LocalSymbolTable)
      requires up.Valid() && up.func.Some?
      ensures Valid() && upper == up && func == up.func && global == null
      ensures table == map[] && depth == up.depth + 1
    {
      table := map[];
      upper := up;
      func := up.func;
      global := null;
      depth := up.depth + 1;
    }

    /** LocalSymbolTable(llvm::Function*, GlobalSymbolTable*): the
        outermost table of a function. */
    constructor Root(f: Option<FuncId>, g: GlobalSymbolTable?)
      ensures Valid() && upper == null && func == f && global == g
      ensures table == map[] && depth == 0
    {
      table := map[];
      upper := null;
      func := f;
      global := g;
      depth := 0;
    }

    /** insert: false when this block already binds the name, which then
        keeps its first entry. */
    method Insert(name: string, entry: SymbolEntry) returns (success: bool)
      modifies this`table
      ensures success <==> name !in old(table)
      ensures table == if success then old(table)[name := entry] else old(table)
    {
      success := name !in table;
      if success {
        table := table[name := entry];
      }
    }

    /** lookup: the nearest binding along the chain that starts here (or at
        the enclosing block when `searchThisLevel` is false), else the
        global table's binding.  The source dereferences its global table
        after a miss, so a miss needs one. */
    method Lookup(name: string, searchThisLevel: bool := true) returns (r: Option<SymbolEntry>)
      requires Valid()
      requires global != null || ChainFind(Searched(searchThisLevel), name).Some?
      ensures ChainFind(Searched(searchThisLevel), name).Some? ==>
        r == ChainFind(Searched(searchThisLevel), name)
      ensures ChainFind(Searched(searchThisLevel), name).None? ==>
        global != null && (r.Some? <==> name in global.table) && (r.Some? ==> r.value == global.table[name])
    {
      var cur: LocalSymbolTable? := if searchThisLevel then this else upper;
      ghost var rest := Searched(searchThisLevel);
      ghost var found := ChainFind(rest, name);
      while cur != null
        invariant cur == null ==> rest == []
        invariant cur != null ==> cur.Valid() && rest == cur.Chain()
        invariant ChainFind(rest, name) == found
        decreases |rest|
      {
        FindStep(rest, cur, name);
        if name in cur.table {
          return Some(cur.table[name]);
        }
        ChainTail(cur);
        cur := cur.upper;
        rest := rest[1..];
      }
      assert found == None;
      r := global.Find(name);
    }

    /** get_func: the function this block belongs to, which must be set. */
    method GetFunc() returns (f: FuncId)
      requires func.Some?
      ensures Some(f) == func
    {
      f := func.value;
    }
  }

  /** A search along a chain that starts at `t`: `t`'s own binding, else
      the search along the rest. */
  lemma FindStep(tables: seq<LocalSymbolTable>, t: LocalSymbolTable, name: string)
    requires tables != [] && tables[0] == t
    ensures name in t.table ==> ChainFind(tables, name) == Some(t.table[name])
    ensures name !in t.table ==> ChainFind(tables, name) == ChainFind(tables[1..], name)
  {
  }

  /** One step outwards along the chain. */
  lemma ChainTail(t: LocalSymbolTable)
    requires t.Valid()
    ensures t.upper == null ==> t.Chain()[1..] == []
    ensures t.upper != null ==> t.Chain()[1..] == t.upper.Chain()
  {
    if t.upper != null {
      assert t.Chain() == [t] + t.upper.Chain();
    }
  }

  /** Looking up past this level is looking up from the enclosing block. */
  lemma SkipThisLevel(t: LocalSymbolTable, name: string)
    requires t.Valid() && t.upper != null
    ensures t.Searched(false) == t.upper.Searched(true)
  {
  }

  /** A block's own binding shadows every binding of its enclosing blocks. */
  lemma {:induction false} OwnBindingShadows(t: LocalSymbolTable, name: string)
    requires t.Valid() && name in t.table
    ensures ChainFind(t.Searched(true), name) == Some(t.table[name])
  {
    NearestWins(t.Chain(), name, 0);
  }

  /** A name bound in the enclosing block but not here is found there:
      lookups see through blocks that do not bind the name. */
  lemma {:induction false} UnboundHereLooksOutward(t: LocalSymbolTable, name: string)
    requires t.Valid() && t.upper != null && name !in t.table
    ensures ChainFind(t.Searched(true), name) == ChainFind(t.Searched(false), name)
  {
    assert t.Chain() == [t] + t.upper.Chain();
    assert t.Chain()[1..] == t.upper.Chain();
  }

  /** A binding made in a nested block, which is then dropped, leaves
      every lookup from the enclosing block as it was. */
  method NestedBindingInvisible(parent: LocalSymbolTable, name: string, e: SymbolEntry, probe: string, here: bool)
    returns (before: Option<SymbolEntry>, after: Option<SymbolEntry>)
    requires parent.Valid() && parent.func.Some?
    requires parent.global != null || ChainFind(parent.Searched(here), probe).Some?
    ensures after == before
  {
    ghost var chain := parent.Searched(here);
    ghost var found := ChainFind(chain, probe);
    before := parent.Lookup(probe, here);
    var block := new LocalSymbolTable.Child(parent);
    var ok := block.Insert(name, e);
    assert block !in chain;
    assert ChainFind(chain, probe) == found;
    after := parent.Lookup(probe, here);
  }

  /** Two nested blocks of one function: the inner binding of `x` shadows
      the outer one, the outer one is still seen past the inner level, and
      a second binding of `x` in the same block is refused. */
  method ShadowingScenario(e1: SymbolEntry, e2: SymbolEntry)
    returns (inner: Option<SymbolEntry>, outer: Option<SymbolEntry>, again: bool)
    ensures inner == Some(e2) && outer == Some(e1) && !again
  {
    var g := new GlobalSymbolTable();
    var root := new LocalSymbolTable.Root(Some(0), g);
    var ok1 := root.Insert("x", e1);
    var block := new LocalSymbolTable.Child(root);
    var ok2 := block.Insert("x", e2);
    again := block.Insert("x", e1);
    OwnBindingShadows(block, "x");
    inner := block.Lookup("x");
    OwnBindingShadows(root, "x");
    outer := block.Lookup("x", false);
  }
}
