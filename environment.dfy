/**
 * What the tree walks see and change: the symbol table, the pending fault
 * of the error handling unit, and the text written to standard output.
 * Also the diagnostics the operator and condition checks raise, shared by
 * evaluation and semantic checking.
 */
module Environment {
  import opened Wrappers
  import opened Variants
  import opened SymbolTables
  import opened ErrorHandling
  import opened Ast

  datatype Env = Env(symbols: seq<Scope>, fault: Option<Fault>, printed: string)

  /** The table is well formed and has a current scope. */
  predicate ValidEnv(env: Env) {
    WellFormed(env.symbols) && |env.symbols| > 0
  }

  /** Raising a fault replaces the pending one and touches nothing else. */
  function Trigger(env: Env, kind: ErrorKind, line: int, message: string): (r: Env)
    ensures r.fault == Some(Fault(kind, line, message))
    ensures r.symbols == env.symbols && r.printed == env.printed
  {
    env.(fault := Some(Fault(kind, line, message)))
  }

  /** Where each of three joined texts sits in the result. */
  lemma Framed(front: string, middle: string, back: string)
    ensures |front + middle + back| == |front| + |middle| + |back|
    ensures (front + middle + back)[..|front|] == front
    ensures (front + middle + back)[|front|..|front| + |middle|] == middle
    ensures (front + middle + back)[|front| + |middle|..] == back
  {
  }

  /** The fault text for a refused unary operator: the operator's name, then the operand type in angle brackets. */
  function UnaryMessage(ext: Externals, op: UnaryOp, t: VariantType): (m: string)
    ensures |m| == |ext.unaryName(op)| + |TypeStringify(t)| + 28
    ensures m[..25] == "Invalid unary operation: "
    ensures m[25..25 + |ext.unaryName(op)|] == ext.unaryName(op)
    ensures m[25 + |ext.unaryName(op)|..27 + |ext.unaryName(op)|] == " <"
    ensures m[27 + |ext.unaryName(op)|..|m| - 1] == TypeStringify(t)
    ensures m[|m| - 1] == '>'
  {
    var head := "Invalid unary operation: " + ext.unaryName(op) + " <";
    Framed("Invalid unary operation: ", ext.unaryName(op), " <");
    Framed(head, TypeStringify(t), ">");
    head + TypeStringify(t) + ">"
  }

  /** The fault text for a refused binary operator: the left type, the operator's name, then the right type. */
  function BinaryMessage(ext: Externals, op: BinaryOp, lhs: VariantType, rhs: VariantType): (m: string)
    ensures |m| == |TypeStringify(lhs)| + |ext.binaryName(op)| + |TypeStringify(rhs)| + 32
    ensures m[..27] == "Invalid binary operation: <"
    ensures m[27..27 + |TypeStringify(lhs)|] == TypeStringify(lhs)
    ensures m[27 + |TypeStringify(lhs)|..29 + |TypeStringify(lhs)|] == "> "
    ensures m[29 + |TypeStringify(lhs)|..29 + |TypeStringify(lhs)| + |ext.binaryName(op)|] == ext.binaryName(op)
    ensures m[29 + |TypeStringify(lhs)| + |ext.binaryName(op)|..31 + |TypeStringify(lhs)| + |ext.binaryName(op)|] == " <"
    ensures m[31 + |TypeStringify(lhs)| + |ext.binaryName(op)|..|m| - 1] == TypeStringify(rhs)
    ensures m[|m| - 1] == '>'
  {
    var left := "Invalid binary operation: <" + TypeStringify(lhs) + "> ";
    var middle := left + ext.binaryName(op) + " <";
    Framed("Invalid binary operation: <", TypeStringify(lhs), "> ");
    Framed(left, ext.binaryName(op), " <");
    Framed(middle, TypeStringify(rhs), ">");
    middle + TypeStringify(rhs) + ">"
  }

  const ConditionMessage := "Condition is not a boolean expression"

  /** The check an operator node makes: the operation must be valid for the operand type. */
  function CheckUnaryOperation(ext: Externals, n: Node, t: VariantType, env: Env): (r: (bool, Env))
    requires n.UnaryNode?
    ensures r.0 <==> ext.unaryValid(n.unaryOp, t)
    ensures r.0 ==> r.1 == env
    ensures !r.0 ==> r.1 == Trigger(env, n.context, n.line, UnaryMessage(ext, n.unaryOp, t))
  {
    if ext.unaryValid(n.unaryOp, t) then (true, env)
    else (false, Trigger(env, n.context, n.line, UnaryMessage(ext, n.unaryOp, t)))
  }

  /** The check a binary node makes: the operation must be valid for the operand types. */
  function CheckBinaryOperation(ext: Externals, n: Node, lhs: VariantType, rhs: VariantType, env: Env): (r: (bool, Env))
    requires n.BinaryNode?
    ensures r.0 <==> ext.binaryValid(n.binaryOp, lhs, rhs)
    ensures r.0 ==> r.1 == env
    ensures !r.0 ==> r.1 == Trigger(env, n.context, n.line, BinaryMessage(ext, n.binaryOp, lhs, rhs))
  {
    if ext.binaryValid(n.binaryOp, lhs, rhs) then (true, env)
    else (false, Trigger(env, n.context, n.line, BinaryMessage(ext, n.binaryOp, lhs, rhs)))
  }
}
