/**
 * The abstract syntax tree of a Codeblock program. Every node kind is one
 * constructor of `Node`; children are owned subtrees. Each node carries its
 * source line (-1 until set) and the error category it reports operator and
 * condition faults under.
 */
module Ast {
  import opened Wrappers
  import opened Variants
  import opened Symbols
  import opened ErrorHandling

  /** The node-type codes. If and while nodes share the control-flow code. */
  datatype AstType =
    | NoneAst | DebugPrintAst | ValueAst | BinaryAst | UnaryAst | VariableAst
    | AssignmentAst | DeclarationAst | DeclarationBlockAst | StatementListAst
    | ControlFlowAst | ComparisonAst

  /** A declaration as held by a declaration block. */
  datatype Declaration = Declaration(line: int, kind: SymbolKind, identifier: string)

  datatype Node =
    | ValueNode(line: int, context: ErrorKind, value: Variant)
    | VariableNode(line: int, context: ErrorKind, identifier: string)
    | UnaryNode(line: int, context: ErrorKind, unaryOp: UnaryOp, operand: Node)
    | BinaryNode(line: int, context: ErrorKind, binaryOp: BinaryOp, left: Node, right: Node)
    | AssignmentNode(line: int, context: ErrorKind, target: Node, source: Node)
    | DeclarationNode(line: int, context: ErrorKind, kind: SymbolKind, identifier: string)
    | DeclarationBlockNode(line: int, context: ErrorKind, declarations: seq<Declaration>)
    | StatementListNode(line: int, context: ErrorKind, first: Node, second: Node)
    | IfNode(line: int, context: ErrorKind, condition: Node, trueBranch: Option<Node>, falseBranch: Option<Node>)
    | WhileNode(line: int, context: ErrorKind, condition: Node, body: Node)
    | DebugPrintNode(line: int, context: ErrorKind, expression: Node)

  /**
   * Functions the walks call that are only declared in the interpreter:
   * the operator validity tables, the operator names, the static type of an
   * expression, and the appending of a value to a string.
   */
  datatype Externals = Externals(
    unaryValid: (UnaryOp, VariantType) -> bool,
    binaryValid: (BinaryOp, VariantType, VariantType) -> bool,
    unaryName: UnaryOp -> string,
    binaryName: BinaryOp -> string,
    expressionType: Node -> VariantType,
    concat: (string, Variant) -> string)

  /** String concatenation as documented: a string source is appended to the target. */
  ghost predicate ConcatAppends(ext: Externals) {
    forall a: string, b: string {:trigger ext.concat(a, String(b))} :: ext.concat(a, String(b)) == a + b
  }

  function GetAstType(n: Node): (t: AstType)
    ensures t != NoneAst && t != ComparisonAst
  {
    match n
    case ValueNode(_, _, _) => ValueAst
    case VariableNode(_, _, _) => VariableAst
    case UnaryNode(_, _, _, _) => UnaryAst
    case BinaryNode(_, _, _, _, _) => BinaryAst
    case AssignmentNode(_, _, _, _) => AssignmentAst
    case DeclarationNode(_, _, _, _) => DeclarationAst
    case DeclarationBlockNode(_, _, _) => DeclarationBlockAst
    case StatementListNode(_, _, _, _) => StatementListAst
    case IfNode(_, _, _, _, _) => ControlFlowAst
    case WhileNode(_, _, _, _) => ControlFlowAst
    case DebugPrintNode(_, _, _) => DebugPrintAst
  }

  /** A value node holds the value it was created with and starts without a line. */
  function ValueNodeCreate(value: Variant, context: ErrorKind): (n: Node)
    ensures GetAstType(n) == ValueAst && n.line == -1
    ensures ValueGetValue(n) == value
  {
    ValueNode(-1, context, Copy(value))
  }

  /** The value a value node holds; the node is its line, its context and that value. */
  function ValueGetValue(n: Node): (v: Variant)
    requires n.ValueNode?
    ensures n == ValueNode(n.line, n.context, v)
  {
    n.value
  }

  function VariableNodeCreate(identifier: string, context: ErrorKind): (n: Node)
    ensures GetAstType(n) == VariableAst && n.line == -1 && n.identifier == identifier
  {
    VariableNode(-1, context, identifier)
  }

  function UnaryNodeCreate(op: UnaryOp, operand: Node, context: ErrorKind): (n: Node)
    ensures GetAstType(n) == UnaryAst && n.line == -1 && n.unaryOp == op && n.operand == operand
  {
    UnaryNode(-1, context, op, operand)
  }

  function BinaryNodeCreate(op: BinaryOp, left: Node, right: Node, context: ErrorKind): (n: Node)
    ensures GetAstType(n) == BinaryAst && n.line == -1 && n.binaryOp == op
    ensures n.left == left && n.right == right
  {
    BinaryNode(-1, context, op, left, right)
  }

  function AssignmentNodeCreate(target: Node, source: Node, context: ErrorKind): (n: Node)
    ensures GetAstType(n) == AssignmentAst && n.line == -1 && n.target == target && n.source == source
  {
    AssignmentNode(-1, context, target, source)
  }

  function DeclarationNodeCreate(kind: SymbolKind, identifier: string, context: ErrorKind): (n: Node)
    ensures GetAstType(n) == DeclarationAst && n.line == -1
    ensures n.kind == kind && n.identifier == identifier
  {
    DeclarationNode(-1, context, kind, identifier)
  }

  /** A new declaration block holds no declarations. */
  function DeclarationBlockNodeCreate(context: ErrorKind): (n: Node)
    ensures GetAstType(n) == DeclarationBlockAst && n.line == -1 && n.declarations == []
  {
    DeclarationBlockNode(-1, context, [])
  }

  /** Adding a declaration node to a block appends it after the ones added before. */
  function DeclarationBlockAdd(block: Node, declaration: Node): (r: Node)
    requires block.DeclarationBlockNode? && declaration.DeclarationNode?
    ensures r.DeclarationBlockNode? && r.line == block.line && r.context == block.context
    ensures |r.declarations| == |block.declarations| + 1
    ensures r.declarations[..|block.declarations|] == block.declarations
    ensures r.declarations[|block.declarations|] ==
      Declaration(declaration.line, declaration.kind, declaration.identifier)
  {
    block.(declarations := block.declarations + [Declaration(declaration.line, declaration.kind, declaration.identifier)])
  }

  function StatementListNodeCreate(first: Node, second: Node, context: ErrorKind): (n: Node)
    ensures GetAstType(n) == StatementListAst && n.line == -1 && n.first == first && n.second == second
  {
    StatementListNode(-1, context, first, second)
  }

  function IfNodeCreate(condition: Node, trueBranch: Option<Node>, falseBranch: Option<Node>, context: ErrorKind): (n: Node)
    ensures GetAstType(n) == ControlFlowAst && n.IfNode? && n.line == -1
    ensures n.condition == condition && n.trueBranch == trueBranch && n.falseBranch == falseBranch
  {
    IfNode(-1, context, condition, trueBranch, falseBranch)
  }

  function WhileNodeCreate(condition: Node, body: Node, context: ErrorKind): (n: Node)
    ensures n.WhileNode? && GetAstType(n) == ControlFlowAst && n.line == -1 && n.condition == condition && n.body == body
  {
    WhileNode(-1, context, condition, body)
  }

  function DebugPrintNodeCreate(expression: Node, context: ErrorKind): (n: Node)
    ensures GetAstType(n) == DebugPrintAst && n.line == -1 && n.expression == expression
  {
    DebugPrintNode(-1, context, expression)
  }

  /** Setting the line changes the line and nothing else. */
  function SetLine(n: Node, line: int): (r: Node)
    ensures r.line == line
    ensures r.(line := n.line) == n
    ensures GetAstType(r) == GetAstType(n)
  {
    n.(line := line)
  }

  /** Nodes built only from values, unary and binary operators. */
  predicate IsExpression(n: Node) {
    match n
    case ValueNode(_, _, _) => true
    case UnaryNode(_, _, _, operand) => IsExpression(operand)
    case BinaryNode(_, _, _, left, right) => IsExpression(left) && IsExpression(right)
    case _ => false
  }

  /** Every value in the expression has type `t`. */
  predicate AllValuesHaveType(n: Node, t: VariantType)
    requires IsExpression(n)
  {
    match n
    case ValueNode(_, _, v) => IsType(v, t)
    case UnaryNode(_, _, _, operand) => AllValuesHaveType(operand, t)
    case BinaryNode(_, _, _, left, right) => AllValuesHaveType(left, t) && AllValuesHaveType(right, t)
  }

  /**
   * Whether an expression has type `t`, walking unary and binary nodes down
   * to their values; None where the walk meets any other node kind, which
   * aborts the interpreter.
   */
  function CheckExpressionType(n: Node, t: VariantType): (r: Option<bool>)
    ensures r == Some(true) ==> IsExpression(n) && AllValuesHaveType(n, t)
  {
    match n
    case ValueNode(_, _, v) => Some(IsType(v, t))
    case BinaryNode(_, _, _, left, right) =>
      (match CheckExpressionType(left, t)
       case None => None
       case Some(false) => Some(false)
       case Some(true) => CheckExpressionType(right, t))
    case UnaryNode(_, _, _, operand) => CheckExpressionType(operand, t)
    case _ => None
  }

  /**
   * On an expression the walk never aborts, and it succeeds exactly when
   * every value in it has the type.
   */
  lemma {:induction false} CheckExpressionTypeCorrect(n: Node, t: VariantType)
    requires IsExpression(n)
    ensures CheckExpressionType(n, t) == Some(AllValuesHaveType(n, t))
  {
    match n
    case ValueNode(_, _, _) =>
    case UnaryNode(_, _, _, operand) =>
      CheckExpressionTypeCorrect(operand, t);
    case BinaryNode(_, _, _, left, right) =>
      CheckExpressionTypeCorrect(left, t);
      CheckExpressionTypeCorrect(right, t);
  }

  /** The walk aborts on any node kind other than value, unary and binary at the root. */
  lemma CheckExpressionTypeAborts(n: Node, t: VariantType)
    requires !(n.ValueNode? || n.UnaryNode? || n.BinaryNode?)
    ensures CheckExpressionType(n, t) == None
  {
  }

  /** A left operand of another type decides the result without looking at the right one. */
  lemma CheckExpressionTypeShortCircuits(n: Node, t: VariantType)
    requires n.BinaryNode? && CheckExpressionType(n.left, t) == Some(false)
    ensures CheckExpressionType(n, t) == Some(false)
  {
  }
}
