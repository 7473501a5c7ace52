/**
 * The semantic check of the tree. It runs before evaluation, declares the
 * symbols of declaration nodes in the current scope, and reports the first
 * problem it meets as a fault. Children are checked left to right and the
 * check stops at the first failure.
 */
module SemanticCheck {
  import opened Wrappers
  import opened Variants
  import opened Symbols
  import opened SymbolTables
  import opened ErrorHandling
  import opened Ast
  import opened Environment

  datatype Checked = Checked(ok: bool, env: Env)

  function Top(scopes: seq<Scope>): Scope
    requires |scopes| > 0
  {
    scopes[|scopes| - 1]
  }

  /**
   * What checking may do to the table: the scopes below the current one are
   * untouched, and the current scope keeps its parent and every symbol it
   * had, gaining new ones only.
   */
  predicate Grows(before: seq<Scope>, after: seq<Scope>) {
    && |after| == |before|
    && (|before| > 0 ==>
      && after[..|after| - 1] == before[..|before| - 1]
      && Top(after).parent == Top(before).parent
      && (forall id :: id in Top(before).symbols ==> id in Top(after).symbols && Top(after).symbols[id] == Top(before).symbols[id]))
  }

  lemma GrowsTransitive(a: seq<Scope>, b: seq<Scope>, c: seq<Scope>)
    requires Grows(a, b) && Grows(b, c)
    ensures Grows(a, c)
  {
  }

  /** A symbol visible before the table grows stays visible (possibly behind a newer one). */
  lemma GrowsKeepsVisible(a: seq<Scope>, b: seq<Scope>, id: string)
    requires WellFormed(a) && WellFormed(b) && |a| > 0 && Grows(a, b)
    requires LookupIn(a, id).Some?
    ensures LookupIn(b, id).Some?
  {
    var top := |a| - 1;
    if id !in a[top].symbols {
      var p := a[top].parent.value;
      assert a[..p + 1] == a[..top][..p + 1] == b[..top][..p + 1] == b[..p + 1];
      SameBelow(a, b, p, id);
    }
  }

  /** The checked symbols, diagnostics and output: checking writes no output and only grows the table. */
  predicate CheckedFrom(before: Env, r: Checked) {
    && ValidEnv(r.env)
    && Grows(before.symbols, r.env.symbols)
    && r.env.printed == before.printed
    && (r.ok ==> r.env.fault == before.fault)
    && (!r.ok ==> r.env.fault.Some?)
  }

  lemma CheckedFromTransitive(a: Env, b: Env, r: Checked)
    requires CheckedFrom(a, Checked(true, b)) && CheckedFrom(b, r)
    ensures CheckedFrom(a, r)
  {
    GrowsTransitive(a.symbols, b.symbols, r.env.symbols);
  }

  /** The fault text for an undeclared identifier: the identifier, quoted, at a fixed offset. */
  function NotDeclaredMessage(id: string): (m: string)
    ensures |m| == |id| + 49
    ensures m[10..10 + |id|] == id
    ensures m[|m| - 39..] == "' is not declared in an available scope"
  {
    var tail := "' is not declared in an available scope";
    Framed("variable '", id, tail);
    "variable '" + id + tail
  }

  /** The fault text for an identifier that is not a variable: it quotes the identifier and names its kind. */
  function NotVariableMessage(id: string, kind: SymbolKind): (m: string)
    ensures |m| == |id| + |KindStringify(kind)| + 46
    ensures m[12..12 + |id|] == id
    ensures m[12 + |id| + 17..|m| - 17] == KindStringify(kind)
    ensures m[|m| - 17..] == ", not as variable"
  {
    var head := "identifier '" + id + "' is declared as ";
    var tail := ", not as " + KindStringify(VariableKind);
    Framed("identifier '", id, "' is declared as ");
    Framed(head, KindStringify(kind), tail);
    head + KindStringify(kind) + tail
  }

  /** The fault text for a second declaration: it quotes the identifier and names the existing symbol's kind. */
  function AlreadyDeclaredMessage(id: string, kind: SymbolKind): (m: string)
    ensures |m| == |id| + |KindStringify(kind)| + 51
    ensures m[8..8 + |id|] == id
    ensures m[8 + |id| + 22..|m| - 21] == KindStringify(kind)
    ensures m[|m| - 21..] == " in the current scope"
  {
    var head := "symbol '" + id + "' already declared as ";
    var tail := " in the current scope";
    Framed("symbol '", id, "' already declared as ");
    Framed(head, KindStringify(kind), tail);
    head + KindStringify(kind) + tail
  }

  const NotAssignableMessage := "Values can only be assigned to variables"

  /** A variable reference is valid iff the nearest visible symbol is a variable; the table is not changed. */
  function CheckVariable(n: Node, env: Env): (r: Checked)
    requires n.VariableNode? && ValidEnv(env)
    ensures r.env.symbols == env.symbols && r.env.printed == env.printed
    ensures r.ok <==> LookupIn(env.symbols, n.identifier).Some? && IsVariable(LookupIn(env.symbols, n.identifier).value)
    ensures r.ok ==> r.env == env
    ensures LookupIn(env.symbols, n.identifier).None? ==>
      r.env.fault == Some(Fault(SemanticError, n.line, NotDeclaredMessage(n.identifier)))
    ensures LookupIn(env.symbols, n.identifier).Some? && !r.ok ==>
      r.env.fault == Some(Fault(SemanticError, n.line,
        NotVariableMessage(n.identifier, GetKind(LookupIn(env.symbols, n.identifier).value))))
  {
    var s := LookupIn(env.symbols, n.identifier);
    if s.None? then Checked(false, Trigger(env, SemanticError, n.line, NotDeclaredMessage(n.identifier)))
    else if !IsVariable(s.value) then
      Checked(false, Trigger(env, SemanticError, n.line, NotVariableMessage(n.identifier, GetKind(s.value))))
    else Checked(true, env)
  }

  /**
   * A declaration succeeds iff no visible scope holds the identifier yet
   * (outer scopes count, so shadowing is rejected); it then files a fresh
   * symbol of the declared kind in the current scope. On failure the table
   * is unchanged.
   */
  function CheckDeclaration(env: Env, line: int, kind: SymbolKind, id: string): (r: Checked)
    requires ValidEnv(env)
    ensures CheckedFrom(env, r)
    ensures r.ok <==> LookupIn(env.symbols, id).None?
    ensures r.ok ==> r.env.symbols == InsertInto(env.symbols, CreateOfKind(kind, id))
    ensures !r.ok ==> r.env.symbols == env.symbols
    ensures !r.ok ==>
      r.env.fault ==Some(Fault(SemanticError, line, AlreadyDeclaredMessage(id, GetKind(LookupIn(env.symbols, id).value))))
  {
    var s := LookupIn(env.symbols, id);
    if s.Some? then
      Checked(false, Trigger(env, SemanticError, line, AlreadyDeclaredMessage(id, GetKind(s.value))))
    else
      Checked(true, env.(symbols := InsertInto(env.symbols, CreateOfKind(kind, id))))
  }

  /** After a successful declaration the identifier names a fresh symbol of the declared kind. */
  lemma DeclarationThenLookup(env: Env, line: int, kind: SymbolKind, id: string)
    requires ValidEnv(env)
    requires CheckDeclaration(env, line, kind, id).ok
    ensures LookupIn(CheckDeclaration(env, line, kind, id).env.symbols, id) == Some(CreateOfKind(kind, id))
    ensures GetKind(LookupIn(CheckDeclaration(env, line, kind, id).env.symbols, id).value) == kind
  {
    var symbol := CreateOfKind(kind, id);
    assert id !in Top(env.symbols).symbols by {
      FindFromNearest(env.symbols, |env.symbols| - 1, id);
    }
    InsertThenLookup(env.symbols, symbol);
  }

  /** Declaring the same identifier twice fails the second time, whatever the kinds. */
  lemma RedeclarationFails(env: Env, line1: int, kind1: SymbolKind, line2: int, kind2: SymbolKind, id: string)
    requires ValidEnv(env)
    requires CheckDeclaration(env, line1, kind1, id).ok
    ensures !CheckDeclaration(CheckDeclaration(env, line1, kind1, id).env, line2, kind2, id).ok
  {
    DeclarationThenLookup(env, line1, kind1, id);
  }

  /**
   * The declarations of a block, checked in order; the first failure stops
   * the check and the later declarations are neither checked nor declared.
   * When all pass, each identifier was free beforehand, the identifiers are
   * pairwise distinct, and each is declared afterwards.
   */
  function CheckDeclarations(env: Env, declarations: seq<Declaration>): (r: Checked)
    requires ValidEnv(env)
    ensures CheckedFrom(env, r)
    ensures r.ok ==> forall k :: 0 <= k < |declarations| ==> LookupIn(env.symbols, declarations[k].identifier).None?
    ensures r.ok ==> forall k :: 0 <= k < |declarations| ==> LookupIn(r.env.symbols, declarations[k].identifier).Some?
    ensures r.ok ==> forall i, j :: 0 <= i < j < |declarations| ==> declarations[i].identifier != declarations[j].identifier
    decreases |declarations|
  {
    if |declarations| == 0 then Checked(true, env)
    else
      var d := declarations[0];
      var c := CheckDeclaration(env, d.line, d.kind, d.identifier);
      if !c.ok then c
      else
        var rest := CheckDeclarations(c.env, declarations[1..]);
        CheckedFromTransitive(env, c.env, rest);
        if rest.ok then
          DeclarationsPass(env, declarations, c, rest);
          rest
        else rest
  }

  /** The properties of a passing block, from those of its first declaration and of the rest of the block. */
  lemma DeclarationsPass(env: Env, declarations: seq<Declaration>, c: Checked, rest: Checked)
    requires ValidEnv(env) && |declarations| > 0
    requires c == CheckDeclaration(env, declarations[0].line, declarations[0].kind, declarations[0].identifier) && c.ok
    requires CheckedFrom(c.env, rest) && rest.ok
    requires forall k :: 0 <= k < |declarations[1..]| ==> LookupIn(c.env.symbols, declarations[1..][k].identifier).None?
    requires forall k :: 0 <= k < |declarations[1..]| ==> LookupIn(rest.env.symbols, declarations[1..][k].identifier).Some?
    requires forall i, j :: 0 <= i < j < |declarations[1..]| ==> declarations[1..][i].identifier != declarations[1..][j].identifier
    ensures forall k :: 0 <= k < |declarations| ==> LookupIn(env.symbols, declarations[k].identifier).None?
    ensures forall k :: 0 <= k < |declarations| ==> LookupIn(rest.env.symbols, declarations[k].identifier).Some?
    ensures forall i, j :: 0 <= i < j < |declarations| ==> declarations[i].identifier != declarations[j].identifier
  {
    var d := declarations[0];
    DeclarationThenLookup(env, d.line, d.kind, d.identifier);
    GrowsKeepsVisible(c.env.symbols, rest.env.symbols, d.identifier);
    forall k | 1 <= k < |declarations|
      ensures LookupIn(env.symbols, declarations[k].identifier).None?
    {
      assert declarations[k] == declarations[1..][k - 1];
      if LookupIn(env.symbols, declarations[k].identifier).Some? {
        GrowsKeepsVisible(env.symbols, c.env.symbols, declarations[k].identifier);
      }
    }
    forall k | 1 <= k < |declarations|
      ensures declarations[0].identifier != declarations[k].identifier
    {
      assert declarations[k] == declarations[1..][k - 1];
    }
    assert forall k :: 1 <= k < |declarations| ==> declarations[k] == declarations[1..][k - 1];
  }

  /** The loop of the declaration block, with its `result` flag, proved equal to the recursive definition. */
  method CheckDeclarationBlock(env: Env, declarations: seq<Declaration>) returns (r: Checked)
    requires ValidEnv(env)
    ensures r == CheckDeclarations(env, declarations)
  {
    var i := 0;
    var result := true;
    var e := env;
    while result && i < |declarations|
      invariant 0 <= i <= |declarations|
      invariant ValidEnv(e)
      invariant result ==> CheckDeclarations(e, declarations[i..]) == CheckDeclarations(env, declarations)
      invariant !result ==> Checked(false, e) == CheckDeclarations(env, declarations)
    {
      var d := declarations[i];
      assert declarations[i..][1..] == declarations[i + 1..];
      var c := CheckDeclaration(e, d.line, d.kind, d.identifier);
      result := c.ok;
      e := c.env;
      i := i + 1;
    }
    r := Checked(result, e);
  }

  /**
   * The semantic check of a node. It never writes output, only grows the
   * table, keeps the fault slot untouched when it succeeds, and leaves a
   * fault pending when it fails.
   */
  function Check(ext: Externals, n: Node, env: Env): (r: Checked)
    requires ValidEnv(env)
    ensures CheckedFrom(env, r)
    decreases n
  {
    match n
    case ValueNode(_, _, _) => Checked(true, env)
    case VariableNode(_, _, _) => CheckVariable(n, env)
    case UnaryNode(_, _, op, operand) =>
      var c := Check(ext, operand, env);
      if !c.ok then c
      else
        var (valid, env1) := CheckUnaryOperation(ext, n, ext.expressionType(n), c.env);
        Checked(valid, env1)
    case BinaryNode(_, _, op, left, right) =>
      var l := Check(ext, left, env);
      if !l.ok then l
      else
        var r := Check(ext, right, l.env);
        CheckedFromTransitive(env, l.env, r);
        if !r.ok then r
        else
          var (valid, env1) := CheckBinaryOperation(ext, n, ext.expressionType(left), ext.expressionType(right), r.env);
          Checked(valid, env1)
    case AssignmentNode(line, _, target, source) =>
      var l := Check(ext, target, env);
      if !l.ok then l
      else
        var r := Check(ext, source, l.env);
        CheckedFromTransitive(env, l.env, r);
        if !r.ok then r
        else if target.VariableNode? then r
        else Checked(false, Trigger(r.env, SemanticError, line, NotAssignableMessage))
    case DeclarationNode(line, _, kind, id) => CheckDeclaration(env, line, kind, id)
    case DeclarationBlockNode(_, _, declarations) => CheckDeclarations(env, declarations)
    case StatementListNode(_, _, first, second) =>
      var l := Check(ext, first, env);
      if !l.ok then l
      else
        var r := Check(ext, second, l.env);
        CheckedFromTransitive(env, l.env, r);
        r
    case IfNode(line, context, condition, trueBranch, falseBranch) =>
      var t := ext.expressionType(condition);
      if !(t == BooleanType || t == UndefinedType) then
        Checked(false, Trigger(env, context, line, ConditionMessage))
      else
        var c := Check(ext, condition, env);
        if !c.ok then c
        else
          var tb := if trueBranch.None? then c else Check(ext, trueBranch.value, c.env);
          CheckedFromTransitive(env, c.env, tb);
          if !tb.ok then tb
          else
            var fb := if falseBranch.None? then tb else Check(ext, falseBranch.value, tb.env);
            CheckedFromTransitive(env, tb.env, fb);
            fb
    case WhileNode(line, context, condition, body) =>
      var t := ext.expressionType(condition);
      if !(t == BooleanType || t == UndefinedType) then
        Checked(false, Trigger(env, context, line, ConditionMessage))
      else
        var c := Check(ext, condition, env);
        if !c.ok then c
        else
          var b := Check(ext, body, c.env);
          CheckedFromTransitive(env, c.env, b);
          b
    case DebugPrintNode(_, _, expression) => Check(ext, expression, env)
  }
}
