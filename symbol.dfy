/**
 * Symbols: named entries of a scope. A variable symbol holds a value; a
 * function symbol holds nothing beyond its identifier and kind.
 */
module Symbols {
  import opened Variants

  datatype SymbolKind = VariableKind | FunctionKind

  datatype Symbol =
    | VariableSymbol(identifier: string, value: Variant)
    | FunctionSymbol(identifier: string)

  /** The name of a symbol kind as it appears in diagnostics. */
  function KindStringify(kind: SymbolKind): (name: string)
    ensures |name| == 8
  {
    match kind
    case VariableKind => "variable"
    case FunctionKind => "function"
  }

  lemma KindStringifyInjective(k1: SymbolKind, k2: SymbolKind)
    requires KindStringify(k1) == KindStringify(k2)
    ensures k1 == k2
  {
    assert KindStringify(k1)[0] == KindStringify(k2)[0];
  }

  function GetIdentifier(s: Symbol): (id: string)
    ensures id == s.identifier
  {
    s.identifier
  }

  /** The kind tag: variable for variable symbols, function for function symbols. */
  function GetKind(s: Symbol): (kind: SymbolKind)
    ensures kind == VariableKind <==> s.VariableSymbol?
    ensures kind == FunctionKind <==> s.FunctionSymbol?
  {
    if s.VariableSymbol? then VariableKind else FunctionKind
  }

  predicate IsVariable(s: Symbol)
    ensures IsVariable(s) <==> s.VariableSymbol?
  {
    GetKind(s) == VariableKind
  }

  predicate IsFunction(s: Symbol)
    ensures IsFunction(s) <==> s.FunctionSymbol?
  {
    GetKind(s) == FunctionKind
  }

  /** Every symbol is exactly one of a variable and a function. */
  lemma ExactlyOneKind(s: Symbol)
    ensures IsVariable(s) != IsFunction(s)
    ensures IsVariable(s) <==> s.VariableSymbol?
  {
  }

  /** The data type of a symbol: its value's tag for a variable, Undefined for a function. */
  function GetDataType(s: Symbol): (t: VariantType)
    ensures t != NumericType
    ensures IsFunction(s) ==> t == UndefinedType
    ensures IsVariable(s) ==> IsType(VariableGetValue(s), t)
  {
    match s
    case VariableSymbol(_, v) => GetType(v)
    case FunctionSymbol(_) => UndefinedType
  }

  /** A new variable symbol holds Undefined. */
  function VariableCreate(identifier: string): (s: Symbol)
    ensures GetIdentifier(s) == identifier && IsVariable(s)
    ensures VariableGetValue(s) == Create()
    ensures GetDataType(s) == UndefinedType
  {
    VariableSymbol(identifier, Create())
  }

  /** A new function symbol carries nothing but its identifier. */
  function FunctionCreate(identifier: string): (s: Symbol)
    ensures GetIdentifier(s) == identifier && IsFunction(s)
    ensures GetDataType(s) == UndefinedType
  {
    FunctionSymbol(identifier)
  }

  /** The symbol a declaration of the given kind creates. */
  function CreateOfKind(kind: SymbolKind, identifier: string): (s: Symbol)
    ensures GetIdentifier(s) == identifier && GetKind(s) == kind
    ensures GetDataType(s) == UndefinedType
  {
    match kind
    case VariableKind => VariableCreate(identifier)
    case FunctionKind => FunctionCreate(identifier)
  }

  /** The value a variable holds; the variable is its identifier and that value. */
  function VariableGetValue(s: Symbol): (v: Variant)
    requires IsVariable(s)
    ensures s == VariableSymbol(s.identifier, v)
  {
    s.value
  }

  /** Assigning replaces the held value and keeps the identifier and the kind. */
  function VariableAssign(s: Symbol, v: Variant): (r: Symbol)
    requires IsVariable(s)
    ensures IsVariable(r) && GetIdentifier(r) == GetIdentifier(s)
    ensures VariableGetValue(r) == v
    ensures GetDataType(r) == GetType(v)
  {
    s.(value := v)
  }

  /** The data type of a variable follows its assignments, as in the symbol examples. */
  lemma DataTypeFollowsAssignments()
    ensures GetDataType(VariableCreate("test_var")) == UndefinedType
    ensures GetDataType(VariableAssign(VariableCreate("test_var"), Integer(123))) == IntegerType
    ensures GetDataType(VariableAssign(VariableCreate("test_var2"), Float(123.000321))) == FloatType
    ensures GetDataType(VariableAssign(VariableCreate("test_var3"), Create())) == UndefinedType
    ensures VariableGetValue(VariableAssign(VariableCreate("test_var"), Integer(123))) == Integer(123)
  {
  }
}
