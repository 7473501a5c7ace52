/**
 * Evaluation of the tree. Each node kind evaluates as its `eval` function
 * does: children left to right, a missing result (NULL) propagated upwards
 * with a fault pending, arithmetic on integers and floats, assignment into
 * the nearest visible variable, and the control-flow nodes.
 *
 * An evaluation either finishes normally (with a value or without one), or
 * reaches one of the interpreter's assertions or aborts (`Aborted`), or, for
 * a while loop, runs out of the iteration budget `fuel` (`OutOfFuel`).
 */
module Evaluation {
  import opened Wrappers
  import opened Variants
  import opened Symbols
  import opened SymbolTables
  import opened ErrorHandling
  import opened Ast
  import opened Environment

  datatype Outcome =
    | Normal(value: Option<Variant>, env: Env)
    | Aborted
    | OutOfFuel

  /**
   * What an evaluation may do to its environment: the table keeps its scopes,
   * identifiers and symbol kinds (only variable values change), output is
   * only appended to, and a pending fault is never cleared.
   */
  predicate Follows(before: Env, after: Env) {
    && ValidEnv(after)
    && SameShape(before.symbols, after.symbols)
    && before.printed <= after.printed
    && (before.fault.Some? ==> after.fault.Some?)
  }

  lemma FollowsTransitive(a: Env, b: Env, c: Env)
    requires Follows(a, b) && Follows(b, c)
    ensures Follows(a, c)
  {
    SameShapeTransitive(a.symbols, b.symbols, c.symbols);
  }

  /** An evaluation without a result has raised a fault. */
  predicate Reported(o: Outcome) {
    o.Normal? && o.value.None? ==> o.env.fault.Some?
  }

  const DivisionByZero := "Division by zero is not allowed"

  /** A variable node is declared when the nearest visible symbol under its identifier is a variable. */
  predicate IsDeclared(n: Node, symbols: seq<Scope>)
    requires n.VariableNode? && WellFormed(symbols) && |symbols| > 0
    ensures IsDeclared(n, symbols) ==> FindFrom(symbols, |symbols| - 1, n.identifier).Some?
    ensures IsDeclared(n, symbols) <==> LookupIn(symbols, n.identifier).Some? && LookupIn(symbols, n.identifier).value.VariableSymbol?
  {
    var s := LookupIn(symbols, n.identifier);
    s.Some? && IsVariable(s.value)
  }

  /** A unary operator applied to its operand's value. */
  function ApplyUnary(ext: Externals, n: Node, v: Variant, env: Env): (o: Outcome)
    requires n.UnaryNode?
    ensures o.Normal? ==> o.env.symbols == env.symbols && o.env.printed == env.printed
    ensures o.Normal? && o.value.None? <==>
      !ext.unaryValid(n.unaryOp, GetType(v))
    ensures o.Normal? && o.value.None? ==>
      o.env.fault == Some(Fault(n.context, n.line, UnaryMessage(ext, n.unaryOp, GetType(v))))
    ensures o.Normal? && o.value.Some? ==> o.env == env
  {
    var (valid, env1) := CheckUnaryOperation(ext, n, GetType(v), env);
    if !valid then Normal(None, env1)
    else
      match n.unaryOp
      case Minus =>
        if IsInteger(v) then Normal(Some(IntegerCreate(-IntegerGetValue(v))), env)
        else if IsFloat(v) then Normal(Some(FloatCreate(-FloatGetValue(v))), env)
        else Aborted
      case LogicalNot =>
        if IsBoolean(v) then Normal(Some(BooleanCreate(!BooleanGetValue(v))), env) else Aborted
  }

  /** Integer arithmetic; the right operand must be an integer too. */
  function ApplyInteger(n: Node, v1: int, right: Variant, env: Env): (o: Outcome)
    requires n.BinaryNode?
    ensures o.Normal? ==> o.env.symbols == env.symbols && o.env.printed == env.printed
    ensures o.Normal? && o.value.None? ==> o.env.fault == Some(Fault(RuntimeError, n.line, DivisionByZero))
    ensures o.Normal? && o.value.Some? ==> o.env == env
  {
    if !IsInteger(right) then Aborted
    else
      var v2 := IntegerGetValue(right);
      match n.binaryOp
      case Add => Normal(Some(IntegerCreate(v1 + v2)), env)
      case Sub => Normal(Some(IntegerCreate(v1 - v2)), env)
      case Mul => Normal(Some(IntegerCreate(v1 * v2)), env)
      case Div =>
        if v2 == 0 then Normal(None, Trigger(env, RuntimeError, n.line, DivisionByZero))
        // C's remainder is zero exactly when the Euclidean one is, and the quotients then agree
        else if v1 % v2 == 0 then Normal(Some(IntegerCreate(v1 / v2)), env)
        else Normal(Some(FloatCreate(v1 as real / v2 as real)), env)
      case _ => Aborted
  }

  /** Float arithmetic; integer operands are converted. */
  function ApplyFloat(n: Node, left: Variant, right: Variant, env: Env): (o: Outcome)
    requires n.BinaryNode? && IsNumeric(left)
    ensures o.Normal? ==> o.env.symbols == env.symbols && o.env.printed == env.printed
    ensures o.Normal? && o.value.None? ==> o.env.fault == Some(Fault(RuntimeError, n.line, DivisionByZero))
    ensures o.Normal? && o.value.Some? ==> o.env == env && o.value.value.Float?
  {
    if !IsNumeric(right) then Aborted
    else
      var x1 := NumericAsFloat(left);
      var x2 := NumericAsFloat(right);
      match n.binaryOp
      case Add => Normal(Some(FloatCreate(x1 + x2)), env)
      case Sub => Normal(Some(FloatCreate(x1 - x2)), env)
      case Mul => Normal(Some(FloatCreate(x1 * x2)), env)
      case Div =>
        if x2 == 0.0 then Normal(None, Trigger(env, RuntimeError, n.line, DivisionByZero))
        else Normal(Some(FloatCreate(x1 / x2)), env)
      case _ => Aborted
  }

  /** String operands support only concatenation. */
  function ApplyString(ext: Externals, n: Node, left: Variant, right: Variant, env: Env): (o: Outcome)
    requires n.BinaryNode? && IsString(left)
    ensures o.Normal? ==> o == Normal(Some(String(ext.concat(StringGetValue(left), right))), env)
    ensures o.Normal? <==> n.binaryOp == Add
  {
    if n.binaryOp != Add then Aborted
    else Normal(Some(String(ext.concat(StringGetValue(Copy(left)), right))), env)
  }

  /** A binary operator applied to the values of both operands. */
  function ApplyBinary(ext: Externals, n: Node, left: Variant, right: Variant, env: Env): (o: Outcome)
    requires n.BinaryNode?
    ensures o.Normal? ==> o.env.symbols == env.symbols && o.env.printed == env.printed
    ensures !ext.binaryValid(n.binaryOp, GetType(left), GetType(right)) ==>
      o == Normal(None, Trigger(env, n.context, n.line, BinaryMessage(ext, n.binaryOp, GetType(left), GetType(right))))
    ensures o.Normal? && o.value.None? ==> o.env.fault.Some?
    ensures o.Normal? && o.value.Some? ==> o.env == env
  {
    var (valid, env1) := CheckBinaryOperation(ext, n, GetType(left), GetType(right), env);
    if !valid then Normal(None, env1)
    else if IsNumeric(left) then
      if IsFloat(left) || IsFloat(right) then ApplyFloat(n, left, right, env)
      else ApplyInteger(n, IntegerGetValue(left), right, env)
    else if IsString(left) then ApplyString(ext, n, left, right, env)
    else Aborted
  }

  /**
   * The evaluation of a node. Every normal evaluation leaves an environment
   * that follows from the one before, and one without a value leaves a fault
   * pending.
   */
  function Eval(ext: Externals, n: Node, env: Env, fuel: nat): (o: Outcome)
    requires ValidEnv(env)
    ensures o.Normal? ==> Follows(env, o.env)
    ensures Reported(o)
    decreases fuel, n, 1
  {
    match n
    case ValueNode(_, _, v) => Normal(Some(Copy(v)), env)
    case VariableNode(_, _, id) =>
      var s := LookupIn(env.symbols, id);
      if s.Some? && IsVariable(s.value) then Normal(Some(Copy(VariableGetValue(s.value))), env)
      else Aborted
    case UnaryNode(_, _, _, operand) =>
      var o1 := Eval(ext, operand, env, fuel);
      if !o1.Normal? || o1.value.None? then o1
      else ApplyUnary(ext, n, o1.value.value, o1.env)
    case BinaryNode(_, _, _, left, right) =>
      var o1 := Eval(ext, left, env, fuel);
      if !o1.Normal? || o1.value.None? then o1
      else
        var o2 := Eval(ext, right, o1.env, fuel);
        FollowsTransitive(env, o1.env, if o2.Normal? then o2.env else o1.env);
        if !o2.Normal? || o2.value.None? then o2
        else ApplyBinary(ext, n, o1.value.value, o2.value.value, o2.env)
    case AssignmentNode(_, _, target, source) =>
      if !target.VariableNode? then Aborted
      else
        var o1 := Eval(ext, source, env, fuel);
        if !o1.Normal? || o1.value.None? then o1
        else
          var s := LookupIn(o1.env.symbols, target.identifier);
          if s.None? || !IsVariable(s.value) then Aborted
          else
            var v := o1.value.value;
            AssignSameShape(o1.env.symbols, target.identifier, v);
            var env2 := o1.env.(symbols := AssignVariable(o1.env.symbols, target.identifier, v));
            FollowsTransitive(env, o1.env, env2);
            Normal(Some(Copy(v)), env2)
    case DeclarationNode(_, _, _, _) => Normal(Some(Create()), env)
    case DeclarationBlockNode(_, _, _) => Normal(Some(Create()), env)
    case StatementListNode(_, _, first, second) =>
      var o1 := Eval(ext, first, env, fuel);
      if !o1.Normal? || o1.env.fault.Some? then o1
      else
        var o2 := Eval(ext, second, o1.env, fuel);
        FollowsTransitive(env, o1.env, if o2.Normal? then o2.env else o1.env);
        o2
    case IfNode(_, _, condition, trueBranch, falseBranch) =>
      var c := Eval(ext, condition, env, fuel);
      if !c.Normal? then c
      else if c.value.None? || !c.value.value.Boolean? then Aborted
      else
        var branch := if c.value.value.b then trueBranch else falseBranch;
        if branch.None? then Normal(Some(Create()), c.env)
        else
          var o := Eval(ext, branch.value, c.env, fuel);
          FollowsTransitive(env, c.env, if o.Normal? then o.env else c.env);
          o
    case WhileNode(_, _, _, _) => EvalWhile(ext, n, env, fuel)
    case DebugPrintNode(_, _, expression) =>
      var o1 := Eval(ext, expression, env, fuel);
      if !o1.Normal? || o1.value.None? then o1
      else Normal(Some(Create()), o1.env.(printed := o1.env.printed + ToString(o1.value.value) + "\n"))
  }

  /**
   * A while loop: the condition is evaluated before each pass, the body's
   * result and any fault it raises are disregarded, and the loop itself
   * yields Undefined. Each pass after the first costs one unit of fuel.
   */
  function EvalWhile(ext: Externals, n: Node, env: Env, fuel: nat): (o: Outcome)
    requires n.WhileNode? && ValidEnv(env)
    ensures o.Normal? ==> Follows(env, o.env) && o.value == Some(Undefined)
    decreases fuel, n, 0
  {
    var c := Eval(ext, n.condition, env, fuel);
    if !c.Normal? then c
    else if c.value.None? || !c.value.value.Boolean? then Aborted
    else if !c.value.value.b then Normal(Some(Create()), c.env)
    else
      var b := Eval(ext, n.body, c.env, fuel);
      if !b.Normal? then b
      else if fuel == 0 then OutOfFuel
      else
        var o := EvalWhile(ext, n, b.env, fuel - 1);
        FollowsTransitive(env, c.env, b.env);
        FollowsTransitive(env, b.env, if o.Normal? then o.env else b.env);
        o
  }

  /**
   * The loop of the while node, written as the interpreter runs it: one pass
   * per iteration, with the environment carried from pass to pass.
   */
  method RunWhile(ext: Externals, n: Node, env: Env, fuel: nat) returns (o: Outcome)
    requires n.WhileNode? && ValidEnv(env)
    ensures o == EvalWhile(ext, n, env, fuel)
  {
    var e := env;
    var f := fuel;
    while true
      invariant ValidEnv(e)
      invariant EvalWhile(ext, n, e, f) == EvalWhile(ext, n, env, fuel)
      decreases f
    {
      var c := Eval(ext, n.condition, e, f);
      WhileCondition(ext, n, e, f);
      if !c.Normal? {
        return c;
      } else if c.value.None? || !c.value.value.Boolean? {
        return Aborted;
      } else if !c.value.value.b {
        return Normal(Some(Create()), c.env);
      }
      var b := Eval(ext, n.body, c.env, f);
      WhileBody(ext, n, e, f, c, b);
      if !b.Normal? {
        return b;
      } else if f == 0 {
        return OutOfFuel;
      }
      WhileAgain(ext, n, env, fuel, e, f, c, b);
      e := b.env;
      f := f - 1;
    }
  }

  /** The while node once its condition has been evaluated: a fault, a non-boolean or false ends the loop. */
  lemma WhileCondition(ext: Externals, n: Node, env: Env, fuel: nat)
    requires n.WhileNode? && ValidEnv(env)
    ensures var c := Eval(ext, n.condition, env, fuel);
      && (!c.Normal? ==> EvalWhile(ext, n, env, fuel) == c)
      && (c.Normal? && (c.value.None? || !c.value.value.Boolean?) ==> EvalWhile(ext, n, env, fuel) == Aborted)
      && (c.Normal? && c.value.Some? && c.value.value.Boolean? && !c.value.value.b ==>
            EvalWhile(ext, n, env, fuel) == Normal(Some(Create()), c.env))
  {
  }

  /** The while node once its condition held and its body has been evaluated: the loop's outcome is the body's failure, or it goes on from the body's environment. */
  lemma WhileBody(ext: Externals, n: Node, env: Env, fuel: nat, c: Outcome, b: Outcome)
    requires n.WhileNode? && ValidEnv(env)
    requires c == Eval(ext, n.condition, env, fuel)
    requires c.Normal? && c.value.Some? && c.value.value.Boolean? && c.value.value.b
    requires b == Eval(ext, n.body, c.env, fuel)
    ensures !b.Normal? ==> EvalWhile(ext, n, env, fuel) == b
    ensures b.Normal? && fuel == 0 ==> EvalWhile(ext, n, env, fuel) == OutOfFuel
    ensures b.Normal? && fuel > 0 ==> ValidEnv(b.env) && EvalWhile(ext, n, env, fuel) == EvalWhile(ext, n, b.env, fuel - 1)
  {
  }

  /** A pass that ends normally with fuel left leaves the loop's outcome to the next pass. */
  lemma WhileAgain(ext: Externals, n: Node, env: Env, fuel: nat, e: Env, f: nat, c: Outcome, b: Outcome)
    requires n.WhileNode? && ValidEnv(env) && ValidEnv(e)
    requires EvalWhile(ext, n, e, f) == EvalWhile(ext, n, env, fuel)
    requires c == Eval(ext, n.condition, e, f)
    requires c.Normal? && c.value.Some? && c.value.value.Boolean? && c.value.value.b
    requires b == Eval(ext, n.body, c.env, f) && b.Normal? && f > 0
    ensures ValidEnv(b.env) && EvalWhile(ext, n, b.env, f - 1) == EvalWhile(ext, n, env, fuel)
  {
    WhileBody(ext, n, e, f, c, b);
  }
}
