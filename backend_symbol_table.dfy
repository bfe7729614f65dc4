/**
  The code generator's scoped symbol table (src/backend/symbol_table.cpp
  and src/backend/include/symbol_table.hpp).  Values are keyed by their
  own IR name; a lookup walks outwards and reports a miss as an empty
  optional, with no global table behind it.
*/
module BackendSymbolTable {
  import opened Wrappers

  /** An llvm::Value* as the table sees it: its name and an identity. */
  datatype NamedValue = NamedValue(name: string, id: nat)

  /** The first binding of `name` along a chain of tables, innermost first. */
  function ChainFind(tables: seq<LocalSymbolTable>, name: string): (r: Option<NamedValue>)
    reads tables
    ensures r.None? <==> forall i :: 0 <= i < |tables| ==> name !in tables[i].table
    decreases |tables|
  {
    if tables == [] then None
    else if name in tables[0].table then Some(tables[0].table[name])
    else ChainFind(tables[1..], name)
  }

  /** Inner bindings shadow outer ones. */
  lemma {:induction false} NearestWins(tables: seq<LocalSymbolTable>, name: string, i: nat)
    requires i < |tables| && name in tables[i].table
    requires forall j :: 0 <= j < i ==> name !in tables[j].table
    ensures ChainFind(tables, name) == Some(tables[i].table[name])
  {
    if i > 0 {
      NearestWins(tables[1..], name, i - 1);
    }
  }

  class LocalSymbolTable {
    var table: map<string, NamedValue>
    /** The enclosing block's table, managed by the caller; may be null. */
    const upper: LocalSymbolTable?
    ghost const depth: nat

    ghost predicate Valid()
      decreases depth
    {
      upper != null ==> upper.depth < depth && upper.Valid()
    }

    /** The tables a lookup visits, this one first. */
    ghost function Chain(): (c: seq<LocalSymbolTable>)
      requires Valid()
      ensures |c| >= 1 && c[0] == this && c[|c| - 1].upper == null
      ensures forall i :: 0 <= i < |c| - 1 ==> c[i + 1] == c[i].upper
      ensures forall i :: 0 <= i < |c| ==> c[i].Valid()
      decreases depth
    {
      if upper == null then [this] else [this] + upper.Chain()
    }

    ghost function Searched(searchThisLevel: bool): seq<LocalSymbolTable>
      requires Valid()
    {
      if searchThisLevel then Chain()
      else if upper == null then []
      else upper.Chain()
    }

    /** LocalSymbolTable(LocalSymbolTable* upper_table = nullptr). */
    constructor (up: LocalSymbolTable? := null)
      requires up != null ==> up.Valid()
      ensures Valid() && upper == up && table == map[]
    {
      table := map[];
      upper := up;
      depth := if up == null then 0 else up.depth + 1;
    }

    /** insert: the value is bound under its own name, unless this block
        already binds that name. */
    method Insert(v: NamedValue) returns (success: bool)
      modifies this`table
      ensures success <==> v.name !in old(table)
      ensures table == if success then old(table)[v.name := v] else old(table)
      ensures forall n :: n in table ==> n in old(table) || n == v.name
      ensures old(KeyedByName(this)) ==> KeyedByName(this)
    {
      success := v.name !in table;
      if success {
        table := table[v.name := v];
      }
    }

    /** lookup: the nearest binding, or an empty optional. */
    method Lookup(name: string, searchThisLevel: bool) returns (r: Option<NamedValue>)
      requires Valid()
      ensures r == ChainFind(Searched(searchThisLevel), name)
    {
      var cur: LocalSymbolTable? := if searchThisLevel then this else upper;
      ghost var rest := Searched(searchThisLevel);
      ghost var found := ChainFind(rest, name);
      while cur != null
        invariant cur == null ==> rest == []
        invariant cur != null ==> cur.Valid() && rest == cur.Chain()
        invariant ChainFind(rest, name) == found
        decreases |rest|
      {
        assert rest[0] == cur;
        if name in cur.table {
          return Some(cur.table[name]);
        }
        ChainTail(cur);
        cur := cur.upper;
        rest := rest[1..];
      }
      r := None;
    }
  }

  lemma ChainTail(t: LocalSymbolTable)
    requires t.Valid()
    ensures t.upper == null ==> t.Chain()[1..] == []
    ensures t.upper != null ==> t.Chain()[1..] == t.upper.Chain()
  {
    if t.upper != null {
      assert t.Chain() == [t] + t.upper.Chain();
    }
  }

  /** Every value the table hands back carries the name it was looked up
      by, because insert keys each value by its own name. */
  predicate KeyedByName(t: LocalSymbolTable)
    reads t
  {
    forall n :: n in t.table ==> t.table[n].name == n
  }

  lemma {:induction false} LookupReturnsNamedValue(tables: seq<LocalSymbolTable>, name: string)
    requires forall i :: 0 <= i < |tables| ==> KeyedByName(tables[i])
    ensures ChainFind(tables, name).Some? ==> ChainFind(tables, name).value.name == name
    decreases |tables|
  {
    if tables != [] && name !in tables[0].table {
      LookupReturnsNamedValue(tables[1..], name);
    }
  }

  /** Nesting two blocks: the inner binding of a name shadows the outer
      one, and skipping the inner level finds the outer one. */
  method ShadowingScenario(a: nat, b: nat) returns (inner: Option<NamedValue>, outer: Option<NamedValue>)
    ensures inner == Some(NamedValue("x", b)) && outer == Some(NamedValue("x", a))
  {
    var root := new LocalSymbolTable();
    var ok1 := root.Insert(NamedValue("x", a));
    var block := new LocalSymbolTable(root);
    var ok2 := block.Insert(NamedValue("x", b));
    NearestWins(block.Chain(), "x", 0);
    inner := block.Lookup("x", true);
    NearestWins(root.Chain(), "x", 0);
    outer := block.Lookup("x", false);
  }
}
