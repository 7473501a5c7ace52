/**
 * Properties of the two tree walks: the arithmetic rules, evaluation order,
 * assignment, sequencing, the control-flow nodes, output, and the
 * diagnostics of the semantic check, including the interplay of checking
 * (which declares) and evaluation (which assigns).
 */
module WalkProperties {
  import opened Wrappers
  import opened Variants
  import opened Symbols
  import opened SymbolTables
  import opened ErrorHandling
  import opened Ast
  import opened Environment
  import opened Evaluation
  import opened SemanticCheck
  import Decimal

  /** C's integer division, which truncates toward zero. */
  function TruncDiv(a: int, b: int): int
    requires b != 0
  {
    var q := (if a < 0 then -a else a) / (if b < 0 then -b else b);
    if (a < 0) != (b < 0) then -q else q
  }

  /** C's remainder, whose sign follows the dividend. */
  function TruncRem(a: int, b: int): int
    requires b != 0
  {
    a - b * TruncDiv(a, b)
  }

  /**
   * The integer division rule can be read with either convention: C's
   * remainder is zero exactly when the Euclidean one is, and the quotients
   * of an exact division agree.
   */
  lemma ExactDivisionAgrees(a: int, b: int)
    requires b != 0
    ensures TruncRem(a, b) == 0 <==> a % b == 0
    ensures a % b == 0 ==> TruncDiv(a, b) == a / b && b * (a / b) == a
  {
    var ma := if a < 0 then -a else a;
    var mb := if b < 0 then -b else b;
    if a % b == 0 {
      var k := a / b;
      assert a == b * k;
      var mk := if (a < 0) != (b < 0) then -k else k;
      assert ma == mb * mk by {
        if a < 0 && b < 0 {
          assert -a == (-b) * k;
        } else if a < 0 {
          assert -a == b * -k;
        } else if b < 0 {
          assert a == (-b) * (-k);
        }
      }
      DivExact(ma, mb, mk);
      assert TruncDiv(a, b) == k;
    } else if TruncRem(a, b) == 0 {
      DivExact(a, b, TruncDiv(a, b));
    }
  }

  /** A multiple of a non-zero divisor divides exactly, with the multiplier as quotient. */
  lemma DivExact(a: int, b: int, k: int)
    requires b != 0 && a == b * k
    ensures a / b == k && a % b == 0
  {
    var q, r := a / b, a % b;
    var d := k - q;
    assert b * d == r by {
      assert b * k - b * q == b * (k - q);
    }
    if d > 0 {
      if b > 0 { MulAtLeast(b, d); } else { MulAtLeast(-b, d); }
    } else if d < 0 {
      if b > 0 { MulAtLeast(b, -d); } else { MulAtLeast(-b, -d); }
    }
  }

  lemma MulAtLeast(x: int, y: int)
    requires x > 0 && y > 0
    ensures x * y >= x
  {
    assert x * y == x * (y - 1) + x;
  }

  /** The node `a <op> b` over two integer literals. */
  function IntegerOperation(op: BinaryOp, a: int, b: int, line: int, context: ErrorKind): (n: Node)
    ensures n.BinaryNode? && n.binaryOp == op && n.line == line && n.context == context
  {
    SetLine(BinaryNodeCreate(op, ValueNodeCreate(Integer(a), context), ValueNodeCreate(Integer(b), context), context), line)
  }

  /** A binary node whose operands evaluate to integers without touching the environment applies its operator to them. */
  lemma BinaryEvaluatesOperands(ext: Externals, n: Node, a: int, b: int, env: Env, fuel: nat)
    requires ValidEnv(env) && n.BinaryNode?
    requires Eval(ext, n.left, env, fuel) == Normal(Some(Integer(a)), env)
    requires Eval(ext, n.right, env, fuel) == Normal(Some(Integer(b)), env)
    ensures Eval(ext, n, env, fuel) == ApplyBinary(ext, n, Integer(a), Integer(b), env)
  {
  }

  /** A unary node whose operand evaluates to `v` without touching the environment applies its operator to it. */
  lemma UnaryEvaluatesOperand(ext: Externals, n: Node, v: Variant, env: Env, fuel: nat)
    requires ValidEnv(env) && n.UnaryNode?
    requires Eval(ext, n.operand, env, fuel) == Normal(Some(v), env)
    ensures Eval(ext, n, env, fuel) == ApplyUnary(ext, n, v, env)
  {
  }

  /**
   * Integer arithmetic on two integers: sum, difference and product;
   * division by zero yields no value and a runtime fault at the node's line;
   * an exact division stays an integer, any other yields the real quotient;
   * every other operator aborts.
   */
  lemma IntegerArithmetic(ext: Externals, op: BinaryOp, a: int, b: int, line: int, context: ErrorKind, env: Env, fuel: nat)
    requires ValidEnv(env) && ext.binaryValid(op, IntegerType, IntegerType)
    ensures var o := Eval(ext, IntegerOperation(op, a, b, line, context), env, fuel);
      && (op == Add ==> o == Normal(Some(Integer(a + b)), env))
      && (op == Sub ==> o == Normal(Some(Integer(a - b)), env))
      && (op == Mul ==> o == Normal(Some(Integer(a * b)), env))
      && (op == Div && b == 0 ==> o == Normal(None, Trigger(env, RuntimeError, line, DivisionByZero)))
      && (op == Div && b != 0 && TruncRem(a, b) == 0 ==> o == Normal(Some(Integer(TruncDiv(a, b))), env))
      && (op == Div && b != 0 && TruncRem(a, b) != 0 ==> o == Normal(Some(Float(a as real / b as real)), env))
      && (op !in {Add, Sub, Mul, Div} ==> o == Aborted)
  {
    var n := IntegerOperation(op, a, b, line, context);
    BinaryEvaluatesOperands(ext, n, a, b, env, fuel);
    IntegerApply(ext, n, a, b, env);
  }

  /** The arithmetic of a binary node once both operands are integers. */
  lemma IntegerApply(ext: Externals, n: Node, a: int, b: int, env: Env)
    requires n.BinaryNode? && ext.binaryValid(n.binaryOp, IntegerType, IntegerType)
    ensures var o := ApplyBinary(ext, n, Integer(a), Integer(b), env);
      && (n.binaryOp == Add ==> o == Normal(Some(Integer(a + b)), env))
      && (n.binaryOp == Sub ==> o == Normal(Some(Integer(a - b)), env))
      && (n.binaryOp == Mul ==> o == Normal(Some(Integer(a * b)), env))
      && (n.binaryOp == Div && b == 0 ==> o == Normal(None, Trigger(env, RuntimeError, n.line, DivisionByZero)))
      && (n.binaryOp == Div && b != 0 && TruncRem(a, b) == 0 ==> o == Normal(Some(Integer(TruncDiv(a, b))), env))
      && (n.binaryOp == Div && b != 0 && TruncRem(a, b) != 0 ==> o == Normal(Some(Float(a as real / b as real)), env))
      && (n.binaryOp !in {Add, Sub, Mul, Div} ==> o == Aborted)
  {
    if b != 0 {
      ExactDivisionAgrees(a, b);
    }
  }

  /** The sums, differences and products of the arithmetic examples. */
  lemma ArithmeticExamples(ext: Externals, env: Env, fuel: nat)
    requires ValidEnv(env)
    requires ext.binaryValid(Add, IntegerType, IntegerType)
    requires ext.binaryValid(Sub, IntegerType, IntegerType)
    requires ext.binaryValid(Mul, IntegerType, IntegerType)
    ensures Eval(ext, IntegerOperation(Add, 123, 77, -1, RuntimeError), env, fuel) == Normal(Some(Integer(200)), env)
    ensures Eval(ext, IntegerOperation(Add, 123, -77, -1, RuntimeError), env, fuel) == Normal(Some(Integer(46)), env)
    ensures Eval(ext, IntegerOperation(Sub, 123, 23, -1, RuntimeError), env, fuel) == Normal(Some(Integer(100)), env)
    ensures Eval(ext, IntegerOperation(Sub, 23, -77, -1, RuntimeError), env, fuel) == Normal(Some(Integer(100)), env)
    ensures Eval(ext, IntegerOperation(Sub, 23, 77, -1, RuntimeError), env, fuel) == Normal(Some(Integer(-54)), env)
    ensures Eval(ext, IntegerOperation(Mul, 123, 8, -1, RuntimeError), env, fuel) == Normal(Some(Integer(984)), env)
    ensures Eval(ext, IntegerOperation(Mul, 123, -8, -1, RuntimeError), env, fuel) == Normal(Some(Integer(-984)), env)
  {
    IntegerArithmetic(ext, Add, 123, 77, -1, RuntimeError, env, fuel);
    IntegerArithmetic(ext, Add, 123, -77, -1, RuntimeError, env, fuel);
    IntegerArithmetic(ext, Sub, 123, 23, -1, RuntimeError, env, fuel);
    IntegerArithmetic(ext, Sub, 23, -77, -1, RuntimeError, env, fuel);
    IntegerArithmetic(ext, Sub, 23, 77, -1, RuntimeError, env, fuel);
    IntegerArithmetic(ext, Mul, 123, 8, -1, RuntimeError, env, fuel);
    IntegerArithmetic(ext, Mul, 123, -8, -1, RuntimeError, env, fuel);
  }

  /**
   * The quotients of the division examples. 984 / 8 and 984 / -8 divide
   * exactly and so yield integers; the others yield floats.
   */
  lemma DivisionExamples(ext: Externals, env: Env, fuel: nat)
    requires ValidEnv(env) && ext.binaryValid(Div, IntegerType, IntegerType)
    ensures Eval(ext, IntegerOperation(Div, 984, 8, -1, RuntimeError), env, fuel) == Normal(Some(Integer(123)), env)
    ensures Eval(ext, IntegerOperation(Div, 984, -8, -1, RuntimeError), env, fuel) == Normal(Some(Integer(-123)), env)
    ensures Eval(ext, IntegerOperation(Div, 984, 5, -1, RuntimeError), env, fuel) == Normal(Some(Float(196.8)), env)
    ensures Eval(ext, IntegerOperation(Div, 984, -5, -1, RuntimeError), env, fuel) == Normal(Some(Float(-196.8)), env)
    ensures Eval(ext, IntegerOperation(Div, 10, 8, -1, RuntimeError), env, fuel) == Normal(Some(Float(1.25)), env)
    ensures Eval(ext, IntegerOperation(Div, 10, -8, -1, RuntimeError), env, fuel) == Normal(Some(Float(-1.25)), env)
  {
    ExactDivisionExamples(ext, env, fuel);
    InexactDivisionExamples(ext, env, fuel);
  }

  lemma ExactDivisionExamples(ext: Externals, env: Env, fuel: nat)
    requires ValidEnv(env) && ext.binaryValid(Div, IntegerType, IntegerType)
    ensures Eval(ext, IntegerOperation(Div, 984, 8, -1, RuntimeError), env, fuel) == Normal(Some(Integer(123)), env)
    ensures Eval(ext, IntegerOperation(Div, 984, -8, -1, RuntimeError), env, fuel) == Normal(Some(Integer(-123)), env)
  {
    ExactQuotient(ext, 984, 8, 123, env, fuel);
    ExactQuotient(ext, 984, -8, -123, env, fuel);
  }

  lemma InexactDivisionExamples(ext: Externals, env: Env, fuel: nat)
    requires ValidEnv(env) && ext.binaryValid(Div, IntegerType, IntegerType)
    ensures Eval(ext, IntegerOperation(Div, 984, 5, -1, RuntimeError), env, fuel) == Normal(Some(Float(196.8)), env)
    ensures Eval(ext, IntegerOperation(Div, 984, -5, -1, RuntimeError), env, fuel) == Normal(Some(Float(-196.8)), env)
    ensures Eval(ext, IntegerOperation(Div, 10, 8, -1, RuntimeError), env, fuel) == Normal(Some(Float(1.25)), env)
    ensures Eval(ext, IntegerOperation(Div, 10, -8, -1, RuntimeError), env, fuel) == Normal(Some(Float(-1.25)), env)
  {
    FifthsExamples(ext, env, fuel);
    EighthsExamples(ext, env, fuel);
  }

  lemma FifthsExamples(ext: Externals, env: Env, fuel: nat)
    requires ValidEnv(env) && ext.binaryValid(Div, IntegerType, IntegerType)
    ensures Eval(ext, IntegerOperation(Div, 984, 5, -1, RuntimeError), env, fuel) == Normal(Some(Float(196.8)), env)
    ensures Eval(ext, IntegerOperation(Div, 984, -5, -1, RuntimeError), env, fuel) == Normal(Some(Float(-196.8)), env)
  {
    InexactQuotient(ext, 984, 5, 196.8, env, fuel);
    InexactQuotient(ext, 984, -5, -196.8, env, fuel);
  }

  lemma EighthsExamples(ext: Externals, env: Env, fuel: nat)
    requires ValidEnv(env) && ext.binaryValid(Div, IntegerType, IntegerType)
    ensures Eval(ext, IntegerOperation(Div, 10, 8, -1, RuntimeError), env, fuel) == Normal(Some(Float(1.25)), env)
    ensures Eval(ext, IntegerOperation(Div, 10, -8, -1, RuntimeError), env, fuel) == Normal(Some(Float(-1.25)), env)
  {
    InexactQuotient(ext, 10, 8, 1.25, env, fuel);
    InexactQuotient(ext, 10, -8, -1.25, env, fuel);
  }

  lemma ExactQuotient(ext: Externals, a: int, b: int, q: int, env: Env, fuel: nat)
    requires ValidEnv(env) && ext.binaryValid(Div, IntegerType, IntegerType)
    requires b != 0 && a % b == 0 && a / b == q
    ensures Eval(ext, IntegerOperation(Div, a, b, -1, RuntimeError), env, fuel) == Normal(Some(Integer(q)), env)
  {
    IntegerArithmetic(ext, Div, a, b, -1, RuntimeError, env, fuel);
  }

  lemma InexactQuotient(ext: Externals, a: int, b: int, q: real, env: Env, fuel: nat)
    requires ValidEnv(env) && ext.binaryValid(Div, IntegerType, IntegerType)
    requires b != 0 && a % b != 0 && q * b as real == a as real
    ensures Eval(ext, IntegerOperation(Div, a, b, -1, RuntimeError), env, fuel) == Normal(Some(Float(q)), env)
  {
    RealQuotient(a, b, q);
    IntegerArithmetic(ext, Div, a, b, -1, RuntimeError, env, fuel);
    ExactDivisionAgrees(a, b);
  }

  lemma RealQuotient(a: int, b: int, q: real)
    requires b != 0 && q * b as real == a as real
    ensures a as real / b as real == q
  {
  }

  /** A float operand sends the operation down the float path, where dividing by zero also faults. */
  lemma FloatDivisionByZero(ext: Externals, a: Variant, line: int, context: ErrorKind, env: Env, fuel: nat)
    requires ValidEnv(env) && IsNumeric(a)
    requires ext.binaryValid(Div, GetType(a), FloatType)
    ensures Eval(ext, SetLine(BinaryNodeCreate(Div, ValueNodeCreate(a, context), ValueNodeCreate(Float(0.0), context), context), line), env, fuel)
      == Normal(None, Trigger(env, RuntimeError, line, DivisionByZero))
  {
  }

  /**
   * The left operand is evaluated first, in the incoming environment; when
   * it yields no value (or stops the interpreter) the right operand is never
   * evaluated. Otherwise the right operand sees the left one's effects.
   */
  lemma LeftOperandFirst(ext: Externals, n: Node, env: Env, fuel: nat)
    requires ValidEnv(env) && n.BinaryNode?
    ensures var l := Eval(ext, n.left, env, fuel);
      && (!l.Normal? || l.value.None? ==> Eval(ext, n, env, fuel) == l)
      && (l.Normal? && l.value.Some? ==>
            var r := Eval(ext, n.right, l.env, fuel);
            && (!r.Normal? || r.value.None? ==> Eval(ext, n, env, fuel) == r)
            && (r.Normal? && r.value.Some? ==>
                  Eval(ext, n, env, fuel) == ApplyBinary(ext, n, l.value.value, r.value.value, r.env)))
  {
  }

  /** An operand pair the operator does not accept yields no value and a fault in the node's context. */
  lemma InvalidBinaryOperation(ext: Externals, n: Node, lv: Variant, rv: Variant, env: Env)
    requires n.BinaryNode? && !ext.binaryValid(n.binaryOp, GetType(lv), GetType(rv))
    ensures ApplyBinary(ext, n, lv, rv, env) ==
      Normal(None, env.(fault := Some(Fault(n.context, n.line,
        "Invalid binary operation: <" + TypeStringify(GetType(lv)) + "> " + ext.binaryName(n.binaryOp) + " <" + TypeStringify(GetType(rv)) + ">"))))
  {
  }

  /** With string concatenation appending, "a" + "b" evaluates to the joined string. */
  lemma StringConcatenation(ext: Externals, a: string, b: string, context: ErrorKind, env: Env, fuel: nat)
    requires ValidEnv(env) && ConcatAppends(ext) && ext.binaryValid(Add, StringType, StringType)
    ensures Eval(ext, BinaryNodeCreate(Add, ValueNodeCreate(String(a), context), ValueNodeCreate(String(b), context), context), env, fuel)
      == Normal(Some(String(a + b)), env)
  {
  }

  /** Negation on integers and floats, and logical not on booleans. */
  lemma UnaryOperations(ext: Externals, v: Variant, op: UnaryOp, context: ErrorKind, env: Env, fuel: nat)
    requires ValidEnv(env) && ext.unaryValid(op, GetType(v))
    ensures var o := Eval(ext, UnaryNodeCreate(op, ValueNodeCreate(v, context), context), env, fuel);
      && (op == Minus && v.Integer? ==> o == Normal(Some(Integer(-v.i)), env))
      && (op == Minus && v.Float? ==> o == Normal(Some(Float(-v.f)), env))
      && (op == LogicalNot && v.Boolean? ==> o == Normal(Some(Boolean(!v.b)), env))
      && (op == Minus && !IsNumeric(v) ==> o == Aborted)
      && (op == LogicalNot && !v.Boolean? ==> o == Aborted)
  {
    UnaryEvaluatesOperand(ext, UnaryNodeCreate(op, ValueNodeCreate(v, context), context), v, env, fuel);
  }

  /** The unary examples: - 123 and - 321.00123. */
  lemma UnaryExamples(ext: Externals, env: Env, fuel: nat)
    requires ValidEnv(env) && ext.unaryValid(Minus, IntegerType) && ext.unaryValid(Minus, FloatType)
    ensures Eval(ext, UnaryNodeCreate(Minus, ValueNodeCreate(Integer(123), RuntimeError), RuntimeError), env, fuel)
      == Normal(Some(Integer(-123)), env)
    ensures Eval(ext, UnaryNodeCreate(Minus, ValueNodeCreate(Float(321.00123), RuntimeError), RuntimeError), env, fuel)
      == Normal(Some(Float(-321.00123)), env)
  {
    UnaryOperations(ext, Integer(123), Minus, RuntimeError, env, fuel);
    UnaryOperations(ext, Float(321.00123), Minus, RuntimeError, env, fuel);
  }

  /** Applying the same accepted unary operator twice gives the operand back. */
  lemma UnaryInvolution(ext: Externals, v: Variant, op: UnaryOp, context: ErrorKind, env: Env, fuel: nat)
    requires ValidEnv(env) && ext.unaryValid(op, GetType(v))
    requires op == Minus ==> IsNumeric(v)
    requires op == LogicalNot ==> v.Boolean?
    ensures Eval(ext, UnaryNodeCreate(op, UnaryNodeCreate(op, ValueNodeCreate(v, context), context), context), env, fuel)
      == Normal(Some(v), env)
  {
    var inner := UnaryNodeCreate(op, ValueNodeCreate(v, context), context);
    UnaryOperations(ext, v, op, context, env, fuel);
    var w := Eval(ext, inner, env, fuel).value.value;
    assert GetType(w) == GetType(v);
    assert ApplyUnary(ext, UnaryNodeCreate(op, inner, context), w, env) == Normal(Some(v), env);
  }

  /** An operand without a value gives a unary node without a value, and nothing more happens. */
  lemma UnaryPropagatesAbsence(ext: Externals, n: Node, env: Env, fuel: nat)
    requires ValidEnv(env) && n.UnaryNode?
    requires Eval(ext, n.operand, env, fuel).Normal? && Eval(ext, n.operand, env, fuel).value.None?
    ensures Eval(ext, n, env, fuel) == Eval(ext, n.operand, env, fuel)
  {
  }

  /** A variable evaluates iff it is declared, and then to its current value. */
  lemma VariableEvaluation(ext: Externals, n: Node, env: Env, fuel: nat)
    requires ValidEnv(env) && n.VariableNode?
    ensures Eval(ext, n, env, fuel) != Aborted <==> IsDeclared(n, env.symbols)
    ensures IsDeclared(n, env.symbols) ==>
      Eval(ext, n, env, fuel) == Normal(Some(LookupIn(env.symbols, n.identifier).value.value), env)
    ensures Check(ext, n, env).ok <==> IsDeclared(n, env.symbols)
    ensures Check(ext, n, env).env.symbols == env.symbols
  {
  }

  /**
   * Assignment: the source is evaluated first (so it reads the old value),
   * then the value is stored in the nearest visible variable, which then
   * reads back as that value; the assignment yields the stored value.
   */
  lemma AssignmentStores(ext: Externals, n: Node, env: Env, fuel: nat)
    requires ValidEnv(env) && n.AssignmentNode? && n.target.VariableNode?
    requires Eval(ext, n.source, env, fuel).Normal? && Eval(ext, n.source, env, fuel).value.Some?
    requires IsDeclared(n.target, Eval(ext, n.source, env, fuel).env.symbols)
    ensures var s := Eval(ext, n.source, env, fuel);
      var o := Eval(ext, n, env, fuel);
      && o.Normal? && o.value == s.value
      && o.env.fault == s.env.fault && o.env.printed == s.env.printed
      && LookupIn(o.env.symbols, n.target.identifier) == Some(VariableSymbol(n.target.identifier, s.value.value))
      && Eval(ext, n.target, o.env, fuel) == Normal(s.value, o.env)
      && (forall other :: other != n.target.identifier ==> LookupIn(o.env.symbols, other) == LookupIn(s.env.symbols, other))
  {
    var s := Eval(ext, n.source, env, fuel);
    AssignmentStep(ext, n, env, fuel);
    AssignThenLookup(s.env.symbols, n.target.identifier, s.value.value);
  }

  /** One step of an assignment: the source's value is stored into the source's table. */
  lemma AssignmentStep(ext: Externals, n: Node, env: Env, fuel: nat)
    requires ValidEnv(env) && n.AssignmentNode? && n.target.VariableNode?
    requires Eval(ext, n.source, env, fuel).Normal? && Eval(ext, n.source, env, fuel).value.Some?
    requires IsDeclared(n.target, Eval(ext, n.source, env, fuel).env.symbols)
    ensures var s := Eval(ext, n.source, env, fuel);
      Eval(ext, n, env, fuel) ==
        Normal(s.value, s.env.(symbols := AssignVariable(s.env.symbols, n.target.identifier, s.value.value)))
  {
  }

  /** A source without a value stores nothing: the assignment is the source's outcome. */
  lemma AssignmentWithoutValue(ext: Externals, n: Node, env: Env, fuel: nat)
    requires ValidEnv(env) && n.AssignmentNode? && n.target.VariableNode?
    requires Eval(ext, n.source, env, fuel).Normal? && Eval(ext, n.source, env, fuel).value.None?
    ensures Eval(ext, n, env, fuel) == Eval(ext, n.source, env, fuel)
  {
  }

  /** `x := x + 1` on an integer variable x: the right side reads the old value. */
  lemma IncrementReadsOldValue(ext: Externals, id: string, i: int, context: ErrorKind, env: Env, fuel: nat)
    requires ValidEnv(env) && LookupIn(env.symbols, id) == Some(VariableSymbol(id, Integer(i)))
    requires ext.binaryValid(Add, IntegerType, IntegerType)
    ensures var n := AssignmentNodeCreate(VariableNodeCreate(id, context),
                       BinaryNodeCreate(Add, VariableNodeCreate(id, context), ValueNodeCreate(Integer(1), context), context), context);
      var o := Eval(ext, n, env, fuel);
      o.Normal? && o.value == Some(Integer(i + 1)) &&
      LookupIn(o.env.symbols, id) == Some(VariableSymbol(id, Integer(i + 1)))
  {
    var variable := VariableNodeCreate(id, context);
    var source := BinaryNodeCreate(Add, variable, ValueNodeCreate(Integer(1), context), context);
    assert Eval(ext, variable, env, fuel) == Normal(Some(Integer(i)), env);
    BinaryEvaluatesOperands(ext, source, i, 1, env, fuel);
    assert Eval(ext, source, env, fuel) == Normal(Some(Integer(i + 1)), env);
    AssignmentStores(ext, AssignmentNodeCreate(variable, source, context), env, fuel);
  }

  /** Declarations do their work during checking; evaluating them yields Undefined and changes nothing. */
  lemma DeclarationsEvaluateToUndefined(ext: Externals, n: Node, env: Env, fuel: nat)
    requires ValidEnv(env) && (n.DeclarationNode? || n.DeclarationBlockNode?)
    ensures Eval(ext, n, env, fuel) == Normal(Some(Undefined), env)
  {
  }

  /**
   * A statement list evaluates its first statement; the second runs, and
   * gives the result, only when no fault is pending afterwards.
   */
  lemma StatementListSequencing(ext: Externals, n: Node, env: Env, fuel: nat)
    requires ValidEnv(env) && n.StatementListNode?
    ensures var f := Eval(ext, n.first, env, fuel);
      && (f.Normal? && f.env.fault.None? ==> Eval(ext, n, env, fuel) == Eval(ext, n.second, f.env, fuel))
      && (f.Normal? && f.env.fault.Some? ==> Eval(ext, n, env, fuel) == f)
      && (!f.Normal? ==> Eval(ext, n, env, fuel) == f)
  {
  }

  /** A fault pending before a statement list keeps its second statement from running. */
  lemma PendingFaultSkipsSecond(ext: Externals, n: Node, env: Env, fuel: nat)
    requires ValidEnv(env) && n.StatementListNode? && env.fault.Some?
    requires Eval(ext, n.first, env, fuel).Normal?
    ensures Eval(ext, n, env, fuel) == Eval(ext, n.first, env, fuel)
  {
  }

  /** An if node runs the branch its boolean condition selects; a missing branch yields Undefined. */
  lemma IfSelectsBranch(ext: Externals, n: Node, env: Env, fuel: nat)
    requires ValidEnv(env) && n.IfNode?
    requires Eval(ext, n.condition, env, fuel).Normal?
    ensures var c := Eval(ext, n.condition, env, fuel);
      && (c.value.None? || !c.value.value.Boolean? ==> Eval(ext, n, env, fuel) == Aborted)
      && (c.value.Some? && c.value.value.Boolean? ==>
            var branch := if c.value.value.b then n.trueBranch else n.falseBranch;
            && (branch.None? ==> Eval(ext, n, env, fuel) == Normal(Some(Undefined), c.env))
            && (branch.Some? ==> Eval(ext, n, env, fuel) == Eval(ext, branch.value, c.env, fuel)))
  {
  }

  /** A false condition ends the loop at once, with Undefined and the condition's effects only. */
  lemma WhileFalseCondition(ext: Externals, n: Node, env: Env, fuel: nat)
    requires ValidEnv(env) && n.WhileNode?
    requires Eval(ext, n.condition, env, fuel) == Normal(Some(Boolean(false)), env)
    ensures Eval(ext, n, env, fuel) == Normal(Some(Undefined), env)
  {
  }

  /**
   * A body that yields no value, even with a fault pending, does not stop
   * the loop: the condition is evaluated again in the body's environment.
   */
  lemma WhileIgnoresBodyFault(ext: Externals, n: Node, env: Env, fuel: nat)
    requires ValidEnv(env) && n.WhileNode? && fuel > 0
    requires Eval(ext, n.condition, env, fuel) == Normal(Some(Boolean(true)), env)
    requires Eval(ext, n.body, env, fuel).Normal? && Eval(ext, n.body, env, fuel).value.None?
    ensures Eval(ext, n, env, fuel) == EvalWhile(ext, n, Eval(ext, n.body, env, fuel).env, fuel - 1)
  {
  }

  /** Debug print writes the value's text and a newline, and yields Undefined. */
  lemma DebugPrintWrites(ext: Externals, n: Node, env: Env, fuel: nat)
    requires ValidEnv(env) && n.DebugPrintNode?
    ensures var e := Eval(ext, n.expression, env, fuel);
      && (e.Normal? && e.value.Some? ==>
            Eval(ext, n, env, fuel) == Normal(Some(Undefined), e.env.(printed := e.env.printed + ToString(e.value.value) + "\n")))
      && (!e.Normal? || e.value.None? ==> Eval(ext, n, env, fuel) == e)
  {
  }

  /** The diagnostic for a reference to an identifier declared as a function, as printed. */
  lemma NotAVariableMessage(ext: Externals)
    ensures var table := InsertInto(TableCreate(), FunctionCreate("test_var"));
      var c := Check(ext, SetLine(VariableNodeCreate("test_var", UnknownError), 1), Env(table, None, ""));
      !c.ok && c.env.fault.Some? && FormatFault(c.env.fault.value) ==
        "semantic error: line 1: " + "identifier 'test_var' is declared as function, not as variable" + "\n"
  {
    var table := InsertInto(TableCreate(), FunctionCreate("test_var"));
    InsertThenLookup(TableCreate(), FunctionCreate("test_var"));
    var n := SetLine(VariableNodeCreate("test_var", UnknownError), 1);
    assert n == VariableNode(1, UnknownError, "test_var");
    var c := CheckVariable(n, Env(table, None, ""));
    assert Check(ext, n, Env(table, None, "")) == c;
    assert c.env.fault == Some(Fault(SemanticError, 1, NotVariableMessage("test_var", FunctionKind)));
    NotVariableText();
  }

  lemma NotVariableText()
    ensures FormatFault(Fault(SemanticError, 1, NotVariableMessage("test_var", FunctionKind))) ==
      "semantic error: line 1: " + "identifier 'test_var' is declared as function, not as variable" + "\n"
  {
    var m := NotVariableMessage("test_var", FunctionKind);
    assert m == "identifier 'test_var' is declared as function, not as variable" by {
      assert KindStringify(FunctionKind) == "function" && KindStringify(VariableKind) == "variable";
      assert "identifier '" + "test_var" == "identifier 'test_var";
      assert "identifier 'test_var" + "' is declared as " == "identifier 'test_var' is declared as ";
      assert "identifier 'test_var' is declared as " + "function" == "identifier 'test_var' is declared as function";
      assert "identifier 'test_var' is declared as function" + ", not as " == "identifier 'test_var' is declared as function, not as ";
      assert "identifier 'test_var' is declared as function, not as " + "variable" ==
        "identifier 'test_var' is declared as function, not as variable";
    }
    SemanticLineOne(m);
  }

  /** The diagnostic for a reference to an undeclared identifier, as printed. */
  lemma NotDeclaredDiagnostic(ext: Externals)
    ensures var c := Check(ext, SetLine(VariableNodeCreate("test_var", UnknownError), 1), Env(TableCreate(), None, ""));
      !c.ok && c.env.fault.Some? && FormatFault(c.env.fault.value) ==
        "semantic error: line 1: " + "variable '" + "test_var" + "' is not declared in an available scope" + "\n"
  {
    var n := SetLine(VariableNodeCreate("test_var", UnknownError), 1);
    assert n == VariableNode(1, UnknownError, "test_var");
    assert LookupIn(TableCreate(), "test_var") == None;
    var c := CheckVariable(n, Env(TableCreate(), None, ""));
    assert Check(ext, n, Env(TableCreate(), None, "")) == c;
    assert c.env.fault == Some(Fault(SemanticError, 1, NotDeclaredMessage("test_var")));
    NotDeclaredText();
  }

  lemma NotDeclaredText()
    ensures FormatFault(Fault(SemanticError, 1, NotDeclaredMessage("test_var"))) ==
      "semantic error: line 1: " + "variable '" + "test_var" + "' is not declared in an available scope" + "\n"
  {
    SemanticLineOne(NotDeclaredMessage("test_var"));
  }

  lemma SemanticLineOne(message: string)
    ensures FormatFault(Fault(SemanticError, 1, message)) == "semantic error: line 1: " + message + "\n"
  {
    assert Decimal.IntToString(1) == "1";
    assert LineSegment(1) == "line 1: ";
    assert "semantic error: " + "line 1: " == "semantic error: line 1: ";
  }

  /** The check of an operator node validates the operator only after its operands pass. */
  lemma OperatorCheckOrder(ext: Externals, n: Node, env: Env)
    requires ValidEnv(env) && n.BinaryNode?
    ensures var l := Check(ext, n.left, env);
      && (!l.ok ==> Check(ext, n, env) == l)
      && (l.ok ==>
            var r := Check(ext, n.right, l.env);
            && (!r.ok ==> Check(ext, n, env) == r)
            && (r.ok ==>
                  (Check(ext, n, env).ok <==> ext.binaryValid(n.binaryOp, ext.expressionType(n.left), ext.expressionType(n.right)))))
  {
  }

  /** A condition whose type is neither boolean nor undefined fails before any child is checked. */
  lemma ConditionTypeChecked(ext: Externals, n: Node, env: Env)
    requires ValidEnv(env) && (n.IfNode? || n.WhileNode?)
    requires ext.expressionType(n.condition) !in {BooleanType, UndefinedType}
    ensures Check(ext, n, env) == Checked(false, Trigger(env, n.context, n.line, "Condition is not a boolean expression"))
  {
  }

  /** Assigning to anything but a variable fails the check once both sides pass. */
  lemma AssignmentTargetChecked(ext: Externals, n: Node, env: Env)
    requires ValidEnv(env) && n.AssignmentNode? && !n.target.VariableNode?
    requires Check(ext, n.target, env).ok && Check(ext, n.source, Check(ext, n.target, env).env).ok
    ensures !Check(ext, n, env).ok
    ensures Check(ext, n, env).env.fault == Some(Fault(SemanticError, n.line, "Values can only be assigned to variables"))
  {
  }

  /** A declaration block whose first declaration is taken fails at once, changing nothing. */
  lemma DeclarationBlockStopsAtFirstFailure(ext: Externals, n: Node, env: Env)
    requires ValidEnv(env) && n.DeclarationBlockNode? && |n.declarations| > 0
    requires LookupIn(env.symbols, n.declarations[0].identifier).Some?
    ensures !Check(ext, n, env).ok && Check(ext, n, env).env.symbols == env.symbols
  {
  }

  /** An empty declaration block passes and declares nothing. */
  lemma EmptyDeclarationBlockPasses(ext: Externals, context: ErrorKind, env: Env)
    requires ValidEnv(env)
    ensures Check(ext, DeclarationBlockNodeCreate(context), env) == Checked(true, env)
  {
  }

  /** The second statement is checked only when the first passes. */
  lemma StatementListCheckGated(ext: Externals, n: Node, env: Env)
    requires ValidEnv(env) && n.StatementListNode?
    ensures !Check(ext, n.first, env).ok ==> Check(ext, n, env) == Check(ext, n.first, env)
    ensures Check(ext, n.first, env).ok ==> Check(ext, n, env) == Check(ext, n.second, Check(ext, n.first, env).env)
  {
  }

  function DeclareX(): Node {
    DeclarationNodeCreate(VariableKind, "x", SemanticError)
  }

  function AssignFiveToX(): Node {
    AssignmentNodeCreate(VariableNodeCreate("x", SemanticError), ValueNodeCreate(Integer(5), SemanticError), SemanticError)
  }

  /** `var x;` checked on an empty table declares x as an undefined variable, and `x := 5` then checks. */
  lemma DeclareThenAssignChecks(ext: Externals)
    ensures var initial := Env(TableCreate(), None, "");
      var checked := Check(ext, StatementListNodeCreate(DeclareX(), AssignFiveToX(), SemanticError), initial);
      && checked.ok
      && checked.env == Env(InsertInto(TableCreate(), VariableCreate("x")), None, "")
      && LookupIn(checked.env.symbols, "x") == Some(VariableSymbol("x", Undefined))
  {
    var initial := Env(TableCreate(), None, "");
    assert LookupIn(TableCreate(), "x") == None;
    DeclarationThenLookup(initial, -1, VariableKind, "x");
    var declared := Env(InsertInto(TableCreate(), VariableCreate("x")), None, "");
    assert Check(ext, DeclareX(), initial) == Checked(true, declared);
    assert LookupIn(declared.symbols, "x") == Some(VariableSymbol("x", Undefined));
    assert Check(ext, AssignFiveToX().target, declared) == Checked(true, declared);
    assert Check(ext, AssignFiveToX(), declared) == Checked(true, declared);
  }

  /** On the checked table `var x; x := 5` evaluates to 5 and leaves x holding 5. */
  lemma DeclareThenAssignEvaluates(ext: Externals, fuel: nat)
    ensures var declared := Env(InsertInto(TableCreate(), VariableCreate("x")), None, "");
      var evaluated := Eval(ext, StatementListNodeCreate(DeclareX(), AssignFiveToX(), SemanticError), declared, fuel);
      && evaluated.Normal? && evaluated.value == Some(Integer(5))
      && LookupIn(evaluated.env.symbols, "x") == Some(VariableSymbol("x", Integer(5)))
  {
    var declared := Env(InsertInto(TableCreate(), VariableCreate("x")), None, "");
    InsertThenLookup(TableCreate(), VariableCreate("x"));
    assert Eval(ext, DeclareX(), declared, fuel) == Normal(Some(Undefined), declared);
    assert Eval(ext, AssignFiveToX().source, declared, fuel) == Normal(Some(Integer(5)), declared);
    AssignmentStores(ext, AssignFiveToX(), declared, fuel);
    assert Eval(ext, StatementListNodeCreate(DeclareX(), AssignFiveToX(), SemanticError), declared, fuel) ==
      Eval(ext, AssignFiveToX(), declared, fuel);
  }

  /** Without the check nothing declares x, so the assignment finds no variable and the interpreter aborts. */
  lemma AssignWithoutCheckAborts(ext: Externals, fuel: nat)
    ensures Eval(ext, StatementListNodeCreate(DeclareX(), AssignFiveToX(), SemanticError), Env(TableCreate(), None, ""), fuel) == Aborted
  {
    var initial := Env(TableCreate(), None, "");
    assert LookupIn(TableCreate(), "x") == None;
    assert Eval(ext, DeclareX(), initial, fuel) == Normal(Some(Undefined), initial);
    assert Eval(ext, AssignFiveToX().source, initial, fuel) == Normal(Some(Integer(5)), initial);
    assert Eval(ext, AssignFiveToX(), initial, fuel) == Aborted;
  }
}
