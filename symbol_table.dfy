/**
 * Scopes and the symbol table. The table is a stack of scopes, indexed from
 * the global scope (0) up to the current scope (the top). Each scope records
 * the index of its parent, which always lies below it; the global scope has
 * none. Lookup starts at the top and follows parent links, so a scope pushed
 * with the global scope as its parent sees only itself and the global scope.
 *
 * The pure functions are the specification; class `SymbolTable` is the
 * stateful table the interpreter manipulates, proved against them.
 */
module SymbolTables {
  import opened Wrappers
  import opened Symbols
  import opened Variants

  /** A scope: its parent (None for the global scope) and its symbols by identifier. */
  datatype Scope = Scope(parent: Option<nat>, symbols: map<string, Symbol>)

  /** A new scope with the given parent and no symbols. */
  function ScopeCreate(parent: Option<nat>): (s: Scope)
    ensures GetParent(s) == parent && GetSymbols(s) == map[]
  {
    Scope(parent, map[])
  }

  /** The scope's parent; with its symbols it makes up the whole scope. */
  function GetParent(s: Scope): (parent: Option<nat>)
    ensures s == Scope(parent, s.symbols)
  {
    s.parent
  }

  /** The scope's symbols; with its parent they make up the whole scope. */
  function GetSymbols(s: Scope): (symbols: map<string, Symbol>)
    ensures s == Scope(s.parent, symbols)
  {
    s.symbols
  }

  /**
   * The shape every reachable table has: only the bottom scope lacks a parent,
   * parents lie below their children, and each symbol is filed under its own
   * identifier.
   */
  predicate WellFormed(scopes: seq<Scope>) {
    forall i :: 0 <= i < |scopes| ==>
      && (scopes[i].parent.None? <==> i == 0)
      && (scopes[i].parent.Some? ==> scopes[i].parent.value < i)
      && (forall id :: id in scopes[i].symbols ==> scopes[i].symbols[id].identifier == id)
  }

  /** A new table: exactly the global scope, without parent and without symbols. */
  function TableCreate(): (scopes: seq<Scope>)
    ensures WellFormed(scopes)
    ensures |scopes| == 1 && scopes[0].parent == None && scopes[0].symbols == map[]
  {
    [ScopeCreate(None)]
  }

  /** The symbol a scope files under `id`, if any. */
  function Get(s: Scope, id: string): Option<Symbol> {
    if id in s.symbols then Some(s.symbols[id]) else None
  }

  /** Scope `j` is on the parent chain that starts at scope `i` (including `i` itself). */
  predicate OnChain(scopes: seq<Scope>, i: nat, j: nat)
    requires WellFormed(scopes) && i < |scopes|
    decreases i
  {
    i == j || (scopes[i].parent.Some? && OnChain(scopes, scopes[i].parent.value, j))
  }

  /** The index of the first scope on the chain from `i` that holds `id`. */
  function FindFrom(scopes: seq<Scope>, i: nat, id: string): (r: Option<nat>)
    requires WellFormed(scopes) && i < |scopes|
    ensures r.Some? ==> r.value <= i && id in scopes[r.value].symbols
    decreases i
  {
    if id in scopes[i].symbols then Some(i)
    else if scopes[i].parent.None? then None
    else FindFrom(scopes, scopes[i].parent.value, id)
  }

  /** The symbol found by walking the chain from scope `i`. */
  function LookupFrom(scopes: seq<Scope>, i: nat, id: string): (r: Option<Symbol>)
    requires WellFormed(scopes) && i < |scopes|
    ensures r.Some? <==> FindFrom(scopes, i, id).Some?
    ensures r.Some? ==> r.value.identifier == id && r == Get(scopes[FindFrom(scopes, i, id).value], id)
  {
    match FindFrom(scopes, i, id)
    case None => None
    case Some(j) => Some(scopes[j].symbols[id])
  }

  /** The symbol visible under `id` from the current scope. */
  function LookupIn(scopes: seq<Scope>, id: string): (r: Option<Symbol>)
    requires WellFormed(scopes) && |scopes| > 0
    ensures r.Some? ==> r.value.identifier == id
  {
    LookupFrom(scopes, |scopes| - 1, id)
  }

  /**
   * Lookup yields the symbol of the nearest scope on the chain that holds
   * `id`; every scope nearer to the start of the chain lacks it, and when
   * nothing is found, no scope on the chain holds it.
   */
  lemma {:induction false} FindFromNearest(scopes: seq<Scope>, i: nat, id: string)
    requires WellFormed(scopes) && i < |scopes|
    ensures FindFrom(scopes, i, id).Some? ==>
      var j := FindFrom(scopes, i, id).value;
      && OnChain(scopes, i, j)
      && forall k: nat :: k <= i && OnChain(scopes, i, k) && k > j ==> id !in scopes[k].symbols
    ensures FindFrom(scopes, i, id).None? ==>
      forall k: nat :: k <= i && OnChain(scopes, i, k) ==> id !in scopes[k].symbols
    decreases i
  {
    if id in scopes[i].symbols {
      forall k: nat | k <= i && OnChain(scopes, i, k) && k > i
        ensures false
      {
        ChainDescends(scopes, i, k);
      }
    } else if scopes[i].parent.Some? {
      var p := scopes[i].parent.value;
      FindFromNearest(scopes, p, id);
      forall k: nat | k <= i && OnChain(scopes, i, k) && k != i
        ensures k <= p && OnChain(scopes, p, k)
      {
        ChainDescends(scopes, p, k);
      }
    }
  }

  /** Chains only go down the stack. */
  lemma {:induction false} ChainDescends(scopes: seq<Scope>, i: nat, j: nat)
    requires WellFormed(scopes) && i < |scopes|
    requires OnChain(scopes, i, j)
    ensures j <= i
    decreases i
  {
    if i != j {
      ChainDescends(scopes, scopes[i].parent.value, j);
    }
  }

  /** The current scope's symbols after inserting `symbol`, if its identifier was free there. */
  function InsertInto(scopes: seq<Scope>, symbol: Symbol): (r: seq<Scope>)
    requires WellFormed(scopes) && |scopes| > 0
    ensures WellFormed(r) && |r| == |scopes|
    ensures r[..|r| - 1] == scopes[..|scopes| - 1]
    ensures r[|r| - 1].parent == scopes[|scopes| - 1].parent
    ensures symbol.identifier in scopes[|scopes| - 1].symbols ==> r == scopes
    ensures symbol.identifier !in scopes[|scopes| - 1].symbols ==>
      r[|r| - 1].symbols == scopes[|scopes| - 1].symbols[symbol.identifier := symbol]
  {
    var top := scopes[|scopes| - 1];
    if symbol.identifier in top.symbols then scopes
    else scopes[|scopes| - 1 := top.(symbols := top.symbols[symbol.identifier := symbol])]
  }

  /** What insertion reports: the symbol already filed under the identifier in the current scope. */
  function InsertResult(scopes: seq<Scope>, symbol: Symbol): (r: Option<Symbol>)
    requires WellFormed(scopes) && |scopes| > 0
    ensures r.Some? <==> symbol.identifier in scopes[|scopes| - 1].symbols
  {
    Get(scopes[|scopes| - 1], symbol.identifier)
  }

  /** After an insertion, lookup of the identifier yields whatever the current scope now files under it. */
  lemma InsertThenLookup(scopes: seq<Scope>, symbol: Symbol)
    requires WellFormed(scopes) && |scopes| > 0
    ensures InsertResult(scopes, symbol).None? ==> LookupIn(InsertInto(scopes, symbol), symbol.identifier) == Some(symbol)
    ensures InsertResult(scopes, symbol).Some? ==> LookupIn(InsertInto(scopes, symbol), symbol.identifier) == InsertResult(scopes, symbol)
  {
  }

  /** Insertion does not change what other identifiers look up to. */
  lemma InsertKeepsOtherLookups(scopes: seq<Scope>, symbol: Symbol, id: string)
    requires WellFormed(scopes) && |scopes| > 0
    requires id != symbol.identifier
    ensures LookupIn(InsertInto(scopes, symbol), id) == LookupIn(scopes, id)
  {
    var r := InsertInto(scopes, symbol);
    if symbol.identifier !in scopes[|scopes| - 1].symbols {
      if id !in scopes[|scopes| - 1].symbols && scopes[|scopes| - 1].parent.Some? {
        SameBelow(scopes, r, scopes[|scopes| - 1].parent.value, id);
      }
    }
  }

  /** Two tables that agree on every scope up to `i` look up alike from `i`. */
  lemma {:induction false} SameBelow(a: seq<Scope>, b: seq<Scope>, i: nat, id: string)
    requires WellFormed(a) && WellFormed(b) && i < |a| && i < |b|
    requires a[..i + 1] == b[..i + 1]
    ensures FindFrom(a, i, id) == FindFrom(b, i, id)
    ensures LookupFrom(a, i, id) == LookupFrom(b, i, id)
    decreases i
  {
    assert a[i] == a[..i + 1][i] == b[..i + 1][i] == b[i];
    if id !in a[i].symbols && a[i].parent.Some? {
      var p := a[i].parent.value;
      assert a[..p + 1] == a[..i + 1][..p + 1];
      assert b[..p + 1] == b[..i + 1][..p + 1];
      SameBelow(a, b, p, id);
    }
  }

  /** Entering a scope pushes an empty scope whose parent is the current one. */
  function Entered(scopes: seq<Scope>): (r: seq<Scope>)
    requires WellFormed(scopes) && |scopes| > 0
    ensures WellFormed(r) && |r| == |scopes| + 1 && r[..|scopes|] == scopes
    ensures r == scopes + [ScopeCreate(Some(|scopes| - 1))]
  {
    SwitchedTo(scopes, Some(|scopes| - 1))
  }

  /**
   * Switching pushes an empty scope whose parent is the given scope, or the
   * global scope when none is given.
   */
  function SwitchedTo(scopes: seq<Scope>, parent: Option<nat>): (r: seq<Scope>)
    requires WellFormed(scopes) && |scopes| > 0
    requires parent.Some? ==> parent.value < |scopes|
    ensures WellFormed(r) && |r| == |scopes| + 1 && r[..|scopes|] == scopes
    ensures r[|scopes|].symbols == map[]
    ensures r[|scopes|].parent == Some(if parent.Some? then parent.value else 0)
  {
    var p := if parent.Some? then parent.value else 0;
    scopes + [ScopeCreate(Some(p))]
  }

  /** Leaving pops the current scope, whichever it is. */
  function Left(scopes: seq<Scope>): (r: seq<Scope>)
    requires |scopes| > 0
    ensures WellFormed(scopes) ==> WellFormed(r)
    ensures |r| == |scopes| - 1
  {
    scopes[..|scopes| - 1]
  }

  /** A new scope hides nothing: every identifier looks up as before. */
  lemma EnterKeepsLookups(scopes: seq<Scope>, id: string)
    requires WellFormed(scopes) && |scopes| > 0
    ensures LookupIn(Entered(scopes), id) == LookupIn(scopes, id)
  {
    var r := Entered(scopes);
    assert r[..|scopes|] == scopes;
    SameBelow(scopes, r, |scopes| - 1, id);
  }

  /** Leaving a scope just entered restores the table, whatever was declared in between. */
  lemma LeaveUndoesEnter(scopes: seq<Scope>, symbol: Symbol)
    requires WellFormed(scopes) && |scopes| > 0
    ensures Left(Entered(scopes)) == scopes
    ensures Left(InsertInto(Entered(scopes), symbol)) == scopes
  {
  }

  /** A scope switched to the global scope sees itself and the global scope only. */
  lemma SwitchToGlobalSeesGlobal(scopes: seq<Scope>, id: string)
    requires WellFormed(scopes) && |scopes| > 0
    ensures LookupIn(SwitchedTo(scopes, None), id) == Get(scopes[0], id)
  {
    var r := SwitchedTo(scopes, None);
    assert r[0] == scopes[0];
    assert r[|scopes|].parent == Some(0);
    assert FindFrom(r, |scopes|, id) == FindFrom(r, 0, id);
  }

  /**
   * The nearest visible symbol under `id` gets `v` as its value. The symbol
   * must be a visible variable.
   */
  function AssignVariable(scopes: seq<Scope>, id: string, v: Variant): (r: seq<Scope>)
    requires WellFormed(scopes) && |scopes| > 0
    requires LookupIn(scopes, id).Some? && IsVariable(LookupIn(scopes, id).value)
    ensures WellFormed(r) && |r| == |scopes|
  {
    var j := FindFrom(scopes, |scopes| - 1, id).value;
    var s := scopes[j];
    scopes[j := s.(symbols := s.symbols[id := VariableAssign(s.symbols[id], v)])]
  }

  /**
   * After an assignment the variable holds the new value, the table keeps its
   * shape, and every other identifier looks up to what it did before.
   */
  lemma AssignThenLookup(scopes: seq<Scope>, id: string, v: Variant)
    requires WellFormed(scopes) && |scopes| > 0
    requires LookupIn(scopes, id).Some? && IsVariable(LookupIn(scopes, id).value)
    ensures LookupIn(AssignVariable(scopes, id, v), id) == Some(VariableAssign(LookupIn(scopes, id).value, v))
    ensures SameShape(scopes, AssignVariable(scopes, id, v))
    ensures forall other :: other != id ==> LookupIn(AssignVariable(scopes, id, v), other) == LookupIn(scopes, other)
  {
    var r := AssignVariable(scopes, id, v);
    var top := |scopes| - 1;
    var j := FindFrom(scopes, top, id).value;
    AssignKeepsShape(scopes, id, v);
    SameShapeFind(scopes, r, top, id);
    assert FindFrom(r, top, id) == Some(j);
    assert LookupIn(scopes, id) == Some(scopes[j].symbols[id]);
    assert LookupIn(r, id) == Some(r[j].symbols[id]);
    forall other | other != id
      ensures LookupIn(r, other) == LookupIn(scopes, other)
    {
      AssignLeavesOthers(scopes, id, v, other);
    }
  }

  /** Assigning `id` leaves what every other identifier looks up to as it was. */
  lemma AssignLeavesOthers(scopes: seq<Scope>, id: string, v: Variant, other: string)
    requires WellFormed(scopes) && |scopes| > 0
    requires LookupIn(scopes, id).Some? && IsVariable(LookupIn(scopes, id).value)
    requires other != id
    ensures LookupIn(AssignVariable(scopes, id, v), other) == LookupIn(scopes, other)
  {
    var r := AssignVariable(scopes, id, v);
    var top := |scopes| - 1;
    AssignKeepsShape(scopes, id, v);
    SameShapeFind(scopes, r, top, other);
    var f := FindFrom(scopes, top, other);
    if f.Some? {
      assert r[f.value].symbols[other] == scopes[f.value].symbols[other];
    }
  }

  /** An assignment keeps the table's shape. */
  lemma AssignSameShape(scopes: seq<Scope>, id: string, v: Variant)
    requires WellFormed(scopes) && |scopes| > 0
    requires LookupIn(scopes, id).Some? && IsVariable(LookupIn(scopes, id).value)
    ensures SameShape(scopes, AssignVariable(scopes, id, v))
  {
    AssignKeepsShape(scopes, id, v);
  }

  /** An assignment keeps the table's shape and changes only the scope that holds the variable. */
  lemma AssignKeepsShape(scopes: seq<Scope>, id: string, v: Variant)
    requires WellFormed(scopes) && |scopes| > 0
    requires LookupIn(scopes, id).Some? && IsVariable(LookupIn(scopes, id).value)
    ensures var j := FindFrom(scopes, |scopes| - 1, id).value;
      var r := AssignVariable(scopes, id, v);
      && j < |scopes| && id in scopes[j].symbols
      && SameShape(scopes, r)
      && r[j] == scopes[j].(symbols := scopes[j].symbols[id := VariableAssign(scopes[j].symbols[id], v)])
      && (forall k :: 0 <= k < |scopes| && k != j ==> r[k] == scopes[k])
  {
    FindFromNearest(scopes, |scopes| - 1, id);
  }

  /** Two tables with the same parents where the scopes above `j` lack `id` find `id` alike. */
  lemma {:induction false} ChainSame(a: seq<Scope>, b: seq<Scope>, i: nat, id: string, j: nat)
    requires WellFormed(a) && WellFormed(b) && |a| == |b| && i < |a| && j <= i
    requires forall k :: 0 <= k < |a| ==> a[k].parent == b[k].parent && a[k].symbols.Keys == b[k].symbols.Keys
    requires FindFrom(a, i, id) == Some(j)
    ensures FindFrom(b, i, id) == Some(j)
    decreases i
  {
    if i != j {
      ChainSame(a, b, a[i].parent.value, id, j);
    }
  }

  /**
   * The part of a table that evaluation never changes: the scopes, their
   * parents, the identifiers each one holds and the kind of each symbol.
   */
  predicate SameShape(a: seq<Scope>, b: seq<Scope>) {
    && |a| == |b|
    && (forall k :: 0 <= k < |a| ==> a[k].parent == b[k].parent && a[k].symbols.Keys == b[k].symbols.Keys)
    && (forall k, id :: 0 <= k < |a| && id in a[k].symbols ==>
          GetKind(a[k].symbols[id]) == GetKind(b[k].symbols[id]))
  }

  lemma SameShapeTransitive(a: seq<Scope>, b: seq<Scope>, c: seq<Scope>)
    requires SameShape(a, b) && SameShape(b, c)
    ensures SameShape(a, c)
  {
  }

  /** Tables of the same shape find each identifier in the same scope, with a symbol of the same kind. */
  lemma {:induction false} SameShapeFind(a: seq<Scope>, b: seq<Scope>, i: nat, id: string)
    requires WellFormed(a) && WellFormed(b) && SameShape(a, b) && i < |a|
    ensures FindFrom(a, i, id) == FindFrom(b, i, id)
    ensures LookupFrom(a, i, id).Some? <==> LookupFrom(b, i, id).Some?
    ensures LookupFrom(a, i, id).Some? ==> GetKind(LookupFrom(a, i, id).value) == GetKind(LookupFrom(b, i, id).value)
    decreases i
  {
    assert id in a[i].symbols <==> id in b[i].symbols;
    if id !in a[i].symbols && a[i].parent.Some? {
      SameShapeFind(a, b, a[i].parent.value, id);
    }
  }

  /** The stateful table: a stack of scopes whose top is the current scope. */
  class SymbolTable {
    var scopes: seq<Scope>

    predicate Valid()
      reads this
    {
      WellFormed(scopes)
    }

    constructor()
      ensures Valid() && scopes == TableCreate()
    {
      scopes := [ScopeCreate(None)];
    }

    /** Files `symbol` in the current scope unless its identifier is taken there; returns the holder. */
    method Insert(symbol: Symbol) returns (existing: Option<Symbol>)
      requires Valid() && |scopes| > 0
      modifies this
      ensures Valid()
      ensures existing == InsertResult(old(scopes), symbol)
      ensures scopes == InsertInto(old(scopes), symbol)
    {
      var top := scopes[|scopes| - 1];
      existing := Get(top, symbol.identifier);
      if existing == None {
        scopes := scopes[|scopes| - 1 := top.(symbols := top.symbols[symbol.identifier := symbol])];
      }
    }

    /** Searches the current scope, then its ancestors, for `id`. */
    method Lookup(id: string) returns (r: Option<Symbol>)
      requires Valid() && |scopes| > 0
      ensures r == LookupIn(scopes, id)
    {
      var current := |scopes| - 1;
      var parent: Option<nat> := scopes[current].parent;
      r := Get(scopes[current], id);
      while r == None && parent.Some?
        invariant parent.Some? ==> parent.value < |scopes|
        invariant r.Some? ==> r == LookupIn(scopes, id)
        invariant r.None? ==>
          LookupIn(scopes, id) == (if parent.Some? then LookupFrom(scopes, parent.value, id) else None)
        decreases if parent.Some? then parent.value + 1 else 0
      {
        var p := parent.value;
        r := Get(scopes[p], id);
        parent := scopes[p].parent;
      }
    }

    method EnterScope()
      requires Valid() && |scopes| > 0
      modifies this
      ensures Valid()
      ensures scopes == Entered(old(scopes))
    {
      SwitchScope(Some(|scopes| - 1));
    }

    method SwitchScope(parent: Option<nat>)
      requires Valid() && |scopes| > 0
      requires parent.Some? ==> parent.value < |scopes|
      modifies this
      ensures Valid()
      ensures scopes == SwitchedTo(old(scopes), parent)
    {
      var p := if parent.None? then 0 else parent.value;
      scopes := scopes + [ScopeCreate(Some(p))];
    }

    method LeaveScope()
      requires Valid() && |scopes| > 0
      modifies this
      ensures Valid()
      ensures scopes == Left(old(scopes))
    {
      scopes := scopes[..|scopes| - 1];
    }
  }

  /**
   * The scenario of the symbol-table examples: nested scopes, a switch to
   * the global scope, and leaving both. `inserts` holds the result of each
   * insert and `lookups` the result of each lookup, in order.
   */
  method SymbolTableScenario() returns (inserts: seq<Option<Symbol>>, lookups: seq<Option<Symbol>>)
    ensures inserts == [None, Some(VariableCreate("test_var")), None, None]
    ensures lookups == [None, Some(VariableCreate("test_var")),
                        Some(VariableCreate("test_var2")), Some(VariableCreate("test_var")), None,
                        Some(VariableCreate("test_var")), None,
                        None]
  {
    var t := new SymbolTable();
    var globalInserts, globalLookups := ScenarioGlobal(t);
    var nestedInserts, nestedLookups := ScenarioNested(t);
    var r := t.Lookup("test_var2");
    inserts := globalInserts + nestedInserts;
    lookups := globalLookups + nestedLookups + [r];
  }

  /** The global scope holding `test_var` and nothing else the scenario asks for. */
  predicate GlobalDeclared(scopes: seq<Scope>) {
    && WellFormed(scopes) && |scopes| == 1
    && Get(scopes[0], "test_var") == Some(VariableCreate("test_var"))
    && Get(scopes[0], "test_var2") == None
    && Get(scopes[0], "invalid") == None
  }

  /** The global part: declare `test_var` twice, then look up an unknown identifier and `test_var`. */
  method ScenarioGlobal(t: SymbolTable) returns (inserts: seq<Option<Symbol>>, lookups: seq<Option<Symbol>>)
    requires t.Valid() && t.scopes == TableCreate()
    modifies t
    ensures t.Valid() && GlobalDeclared(t.scopes)
    ensures inserts == [None, Some(VariableCreate("test_var"))]
    ensures lookups == [None, Some(VariableCreate("test_var"))]
  {
    var first := t.Insert(VariableCreate("test_var"));
    var second := t.Insert(VariableCreate("test_var"));
    var unknown := t.Lookup("invalid");
    var known := t.Lookup("test_var");
    inserts := [first, second];
    lookups := [unknown, known];
  }

  /**
   * The nested part: enter a scope and declare `test_var2` there, switch to
   * the global scope and declare `test_var3`, then leave both scopes.
   */
  method ScenarioNested(t: SymbolTable) returns (inserts: seq<Option<Symbol>>, lookups: seq<Option<Symbol>>)
    requires t.Valid() && GlobalDeclared(t.scopes)
    modifies t
    ensures t.Valid() && t.scopes == old(t.scopes)
    ensures inserts == [None, None]
    ensures lookups == [Some(VariableCreate("test_var2")), Some(VariableCreate("test_var")), None,
                        Some(VariableCreate("test_var")), None]
  {
    var outer := t.scopes;
    t.EnterScope();
    var entered := t.scopes;
    assert entered == outer + [ScopeCreate(Some(0))];
    var declared := t.Insert(VariableCreate("test_var2"));
    var inner := t.Lookup("test_var2");
    var fromOuter := t.Lookup("test_var");
    var unknown := t.Lookup("invalid");
    assert t.scopes[0] == outer[0] && |t.scopes| == 2;
    var switchedInsert, visible, hidden := ScenarioSwitched(t);
    t.LeaveScope();
    t.LeaveScope();
    inserts := [declared, switchedInsert];
    lookups := [inner, fromOuter, unknown, visible, hidden];
  }

  /** After a switch to the global scope, `test_var3` is declared there; `test_var` is visible and `test_var2` is not. */
  method ScenarioSwitched(t: SymbolTable) returns (inserted: Option<Symbol>, visible: Option<Symbol>, hidden: Option<Symbol>)
    requires t.Valid() && |t.scopes| > 0
    requires Get(t.scopes[0], "test_var") == Some(VariableCreate("test_var"))
    requires Get(t.scopes[0], "test_var2") == None
    modifies t
    ensures t.Valid() && |t.scopes| == |old(t.scopes)| + 1 && t.scopes[..|old(t.scopes)|] == old(t.scopes)
    ensures inserted == None && visible == Some(VariableCreate("test_var")) && hidden == None
  {
    var nested := t.scopes;
    t.SwitchScope(None);
    var switched := t.scopes;
    inserted := t.Insert(VariableCreate("test_var3"));
    SwitchToGlobalSeesGlobal(nested, "test_var");
    SwitchToGlobalSeesGlobal(nested, "test_var2");
    InsertKeepsOtherLookups(switched, VariableCreate("test_var3"), "test_var");
    InsertKeepsOtherLookups(switched, VariableCreate("test_var3"), "test_var2");
    visible := t.Lookup("test_var");
    hidden := t.Lookup("test_var2");
  }
}
