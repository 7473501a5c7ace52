/**
 * The codeblock: the object that owns a parsed tree, runs the semantic
 * check and evaluation on a fresh symbol table, and keeps the result.
 * The generated parser is not part of this model; a parse is given as the
 * parser's status code and the tree it produced.
 */
module Codeblocks {
  import opened Wrappers
  import opened Variants
  import opened SymbolTables
  import opened ErrorHandling
  import opened Ast
  import opened Environment
  import opened Evaluation
  import opened SemanticCheck
  import opened WalkProperties

  datatype State = Ready | Parsed | ExecutedSuccess | ExecutedFailure

  /** What the parser returns: 0 on success, 1 on invalid input, 2 on memory exhaustion. */
  datatype ParserOutcome = ParserOutcome(status: int, tree: Option<Node>)

  /** How an execution ends: with the interpreter's verdict, or not at all. */
  datatype Completion = Completed(success: bool) | InterpreterAborted | FuelExhausted

  /** The walks of one execution, on a fresh table and the fault slot as found. */
  datatype Run =
    | Finished(checked: bool, value: Option<Variant>, env: Env)
    | RunAborted
    | RunOutOfFuel

  const InvalidInputMessage := "Parsing failed due to invalid input"
  const MemoryExhaustedMessage := "Parsing failed due to memory exhaustion"

  /** The message a parser status is reported with; none for success and unknown codes. */
  function ParseDiagnostic(status: int): (text: string)
    ensures status == 1 ==> text == FormatMessage(InvalidInputMessage)
    ensures status == 2 ==> text == FormatMessage(MemoryExhaustedMessage)
    ensures status != 1 && status != 2 ==> text == ""
  {
    if status == 1 then FormatMessage(InvalidInputMessage)
    else if status == 2 then FormatMessage(MemoryExhaustedMessage)
    else ""
  }

  /**
   * Check the tree; evaluate it only if the check passed. A finished run
   * keeps the environment's invariants, and a fault pending beforehand is
   * still pending afterwards.
   */
  function RunTree(ext: Externals, tree: Node, pending: Option<Fault>, fuel: nat): (r: Run)
    ensures r.Finished? ==> ValidEnv(r.env) && (pending.Some? ==> r.env.fault.Some?)
    ensures r.Finished? && !r.checked ==> r.value == None && r.env.fault.Some? && r.env.printed == ""
  {
    var initial := Env(TableCreate(), pending, "");
    var c := Check(ext, tree, initial);
    if !c.ok then Finished(false, None, c.env)
    else
      match Eval(ext, tree, c.env, fuel)
      case Normal(v, e) => Finished(true, v, e)
      case Aborted => RunAborted
      case OutOfFuel => RunOutOfFuel
  }

  /** An execution succeeds when the check passed and no fault is pending after the walks. */
  predicate Succeeds(r: Run) {
    r.Finished? && r.checked && r.env.fault.None?
  }

  class Codeblock {
    var result: Option<Variant>
    var ast: Option<Node>
    var state: State

    /** A new codeblock is ready, with neither result nor tree. */
    constructor()
      ensures state == Ready && result == None && ast == None
    {
      result := None;
      ast := None;
      state := Ready;
    }

    /**
     * Back to ready from any state. The result is dropped only after a
     * successful execution; the tree in every state but ready.
     */
    method Reset()
      modifies this
      ensures state == Ready
      ensures result == (if old(state) == ExecutedSuccess then None else old(result))
      ensures ast == (if old(state) == Ready then old(ast) else None)
    {
      match state
      case Ready =>
      case ExecutedSuccess =>
        result := None;
        ast := None;
        state := Ready;
      case ExecutedFailure =>
        ast := None;
        state := Ready;
      case Parsed =>
        ast := None;
        state := Ready;
    }

    /**
     * Resets, then takes the parser's tree. The codeblock is parsed
     * whatever the parser reported; only status 0 counts as success, and
     * the two known failure codes are reported on the error stream.
     */
    method Parse(parser: ParserOutcome, register: FaultRegister) returns (ok: bool)
      requires register.out != null
      modifies this, register.out
      ensures state == Parsed && ast == parser.tree
      ensures ok <==> parser.status == 0
      ensures result == (if old(state) == ExecutedSuccess then None else old(result))
      ensures register.out.text == old(register.out.text) + ParseDiagnostic(parser.status)
    {
      Reset();
      state := Parsed;
      ast := parser.tree;
      ok := false;
      if parser.status == 0 {
        ok := true;
      } else if parser.status == 1 {
        register.PrintMsg(InvalidInputMessage);
      } else if parser.status == 2 {
        register.PrintMsg(MemoryExhaustedMessage);
      }
    }

    /**
     * Runs the parsed tree on a fresh symbol table: the check, then the
     * evaluation if the check passed. Debug output goes to `stdout`. A
     * fault pending afterwards is printed and cleared and the execution
     * fails; otherwise it succeeds.
     */
    method Execute(ext: Externals, register: FaultRegister, stdout: Stream, fuel: nat) returns (c: Completion)
      requires state == Parsed && ast.Some?
      requires register.Valid() && register.initialized && register.out != stdout
      modifies this, register, register.out, stdout
      ensures ast == old(ast)
      ensures var r := RunTree(ext, old(ast).value, old(register.pending), fuel);
        && (r.RunAborted? ==> c == InterpreterAborted && state == ExecutedFailure)
        && (r.RunOutOfFuel? ==> c == FuelExhausted && state == ExecutedFailure)
        && (r.Finished? ==>
          && c == Completed(Succeeds(r))
          && state == (if Succeeds(r) then ExecutedSuccess else ExecutedFailure)
          && result == (if r.checked then r.value else old(result))
          && stdout.text == old(stdout.text) + r.env.printed
          && register.Valid() && register.initialized && register.pending == None
          && register.out == old(register.out)
          && register.out.text == old(register.out.text) + (if r.env.fault.Some? then FormatFault(r.env.fault.value) else ""))
    {
      state := ExecutedFailure;
      var tree := ast.value;
      var initial := Env(TableCreate(), register.pending, "");
      var checked := Check(ext, tree, initial);
      var ok := checked.ok;
      var after := checked.env;
      if ok {
        var o := Eval(ext, tree, checked.env, fuel);
        if o.Aborted? {
          return InterpreterAborted;
        } else if o.OutOfFuel? {
          return FuelExhausted;
        }
        result := o.value;
        after := o.env;
      }
      stdout.Write(after.printed);
      if after.fault.Some? && after.fault != register.pending {
        register.Trigger(after.fault.value.kind, after.fault.value.line, after.fault.value.message);
      }
      var occurred := register.Occurred();
      if occurred {
        ok := false;
        register.Process();
      } else {
        state := ExecutedSuccess;
      }
      c := Completed(ok);
    }

    /** The result is available only after a successful execution. */
    method GetResult() returns (r: Option<Variant>)
      requires state == ExecutedSuccess
      ensures r == result
    {
      r := result;
    }
  }

  /** A tree that fails the check is never evaluated: no result, no output, and the run fails. */
  lemma FailedCheckSkipsEvaluation(ext: Externals, tree: Node, pending: Option<Fault>, fuel: nat)
    requires !Check(ext, tree, Env(TableCreate(), pending, "")).ok
    ensures var r := RunTree(ext, tree, pending, fuel);
      r == Finished(false, None, Check(ext, tree, Env(TableCreate(), pending, "")).env)
      && r.env.printed == "" && !Succeeds(r)
  {
  }

  /** A fault left pending before the execution makes it fail, whatever the tree. */
  lemma StaleFaultFails(ext: Externals, tree: Node, pending: Option<Fault>, fuel: nat)
    requires pending.Some?
    ensures !Succeeds(RunTree(ext, tree, pending, fuel))
  {
  }

  /** A successful run passed the check, started with a clear fault slot and ended with none. */
  lemma SuccessMeansCleanRun(ext: Externals, tree: Node, pending: Option<Fault>, fuel: nat)
    requires Succeeds(RunTree(ext, tree, pending, fuel))
    ensures pending == None
    ensures Check(ext, tree, Env(TableCreate(), pending, "")).ok
    ensures var c := Check(ext, tree, Env(TableCreate(), pending, ""));
      Eval(ext, tree, c.env, fuel) == Normal(RunTree(ext, tree, pending, fuel).value, RunTree(ext, tree, pending, fuel).env)
  {
  }

  /** The external tables treat integer arithmetic as valid and type all-integer expressions as integer. */
  ghost predicate IntegerArithmeticTyped(ext: Externals) {
    && (forall op: BinaryOp | op in {Add, Sub, Mul, Div} :: ext.binaryValid(op, IntegerType, IntegerType))
    && (forall n: Node | IsExpression(n) && AllValuesHaveType(n, IntegerType) :: ext.expressionType(n) == IntegerType)
  }

  function IntegerLiteral(i: int): Node {
    ValueNodeCreate(Integer(i), SemanticError)
  }

  /** The tree of `333 + 55 * 7 - 99`: multiplication binds tighter, subtraction associates left. */
  function SampleProgram(): Node {
    BinaryNodeCreate(Sub,
      BinaryNodeCreate(Add, IntegerLiteral(333), BinaryNodeCreate(Mul, IntegerLiteral(55), IntegerLiteral(7), SemanticError), SemanticError),
      IntegerLiteral(99), SemanticError)
  }

  /** `333 + 55 * 7 - 99` runs successfully to 619 and prints nothing. */
  lemma SampleProgramRuns(ext: Externals, fuel: nat)
    requires IntegerArithmeticTyped(ext)
    ensures var r := RunTree(ext, SampleProgram(), None, fuel);
      Succeeds(r) && r.value == Some(Integer(619)) && r.env.printed == ""
  {
    SampleProgramChecks(ext);
    SampleProgramEvaluates(ext, fuel);
  }

  function Product(): Node {
    BinaryNodeCreate(Mul, IntegerLiteral(55), IntegerLiteral(7), SemanticError)
  }

  function Sum(): Node {
    BinaryNodeCreate(Add, IntegerLiteral(333), Product(), SemanticError)
  }

  lemma LiteralChecks(ext: Externals, i: int, env: Env)
    requires IntegerArithmeticTyped(ext) && ValidEnv(env)
    ensures Check(ext, IntegerLiteral(i), env) == Checked(true, env)
    ensures IsExpression(IntegerLiteral(i)) && AllValuesHaveType(IntegerLiteral(i), IntegerType)
  {
  }

  lemma SampleProgramChecks(ext: Externals)
    requires IntegerArithmeticTyped(ext)
    ensures var initial := Env(TableCreate(), None, "");
      Check(ext, SampleProgram(), initial) == Checked(true, initial)
  {
    var initial := Env(TableCreate(), None, "");
    LiteralChecks(ext, 55, initial);
    LiteralChecks(ext, 7, initial);
    LiteralChecks(ext, 333, initial);
    LiteralChecks(ext, 99, initial);
    assert IsExpression(Product()) && AllValuesHaveType(Product(), IntegerType);
    assert Check(ext, Product(), initial) == Checked(true, initial);
    assert IsExpression(Sum()) && AllValuesHaveType(Sum(), IntegerType);
    assert Check(ext, Sum(), initial) == Checked(true, initial);
    assert SampleProgram() == BinaryNodeCreate(Sub, Sum(), IntegerLiteral(99), SemanticError);
  }

  /** An integer sum, difference or product over two subtrees that evaluate to integers. */
  lemma IntegerStep(ext: Externals, op: BinaryOp, l: Node, r: Node, a: int, b: int, c: int, env: Env, fuel: nat)
    requires ValidEnv(env) && ext.binaryValid(op, IntegerType, IntegerType)
    requires Eval(ext, l, env, fuel) == Normal(Some(Integer(a)), env)
    requires Eval(ext, r, env, fuel) == Normal(Some(Integer(b)), env)
    requires (op == Add && c == a + b) || (op == Sub && c == a - b) || (op == Mul && c == a * b)
    ensures Eval(ext, BinaryNodeCreate(op, l, r, SemanticError), env, fuel) == Normal(Some(Integer(c)), env)
  {
    var n := BinaryNode(-1, SemanticError, op, l, r);
    assert n == BinaryNodeCreate(op, l, r, SemanticError);
    IntegerStepApply(ext, n, a, b, c, env);
    BinaryEvaluatesOperands(ext, n, a, b, env, fuel);
  }

  lemma IntegerStepApply(ext: Externals, n: Node, a: int, b: int, c: int, env: Env)
    requires n.BinaryNode? && ext.binaryValid(n.binaryOp, IntegerType, IntegerType)
    requires (n.binaryOp == Add && c == a + b) || (n.binaryOp == Sub && c == a - b) || (n.binaryOp == Mul && c == a * b)
    ensures ApplyBinary(ext, n, Integer(a), Integer(b), env) == Normal(Some(Integer(c)), env)
  {
    assert ApplyInteger(n, a, Integer(b), env) == Normal(Some(Integer(c)), env);
  }

  lemma SampleProgramEvaluates(ext: Externals, fuel: nat)
    requires IntegerArithmeticTyped(ext)
    ensures var initial := Env(TableCreate(), None, "");
      Eval(ext, SampleProgram(), initial, fuel) == Normal(Some(Integer(619)), initial)
  {
    var initial := Env(TableCreate(), None, "");
    assert ext.binaryValid(Mul, IntegerType, IntegerType);
    assert ext.binaryValid(Add, IntegerType, IntegerType);
    assert ext.binaryValid(Sub, IntegerType, IntegerType);
    IntegerStep(ext, Mul, IntegerLiteral(55), IntegerLiteral(7), 55, 7, 385, initial, fuel);
    IntegerStep(ext, Add, IntegerLiteral(333), Product(), 333, 385, 718, initial, fuel);
    IntegerStep(ext, Sub, Sum(), IntegerLiteral(99), 718, 99, 619, initial, fuel);
  }
}
