# Codeblock interpreter core in Dafny

This project models the evaluation core of the Codeblock scripting
language (the `cbc` interpreter). It covers:

- the dynamic value type (*variant*);
- the single-slot fault register;
- symbols, scopes and the scope-chained symbol table;
- the abstract syntax tree with its two walks, the semantic check and the evaluation;
- the *codeblock* object that sequences parse, check and evaluate;
- the three container utilities the core is built on: the growable vector, the linked stack and the chained hash table.

Layout, one module per file:

| file | module | what it holds |
|---|---|---|
| `wrappers.dfy` | `Wrappers` | `Option` |
| `decimal.dfy` | `Decimal` | decimal rendering and parsing of integers, used by the `%ld` rendering of a variant |
| `variant.dfy` | `Variants` | the variant, its type codes and names, typed constructors and getters, numeric coercion, rendering as text |
| `error_handling.dfy` | `ErrorHandling` | fault text formats, an output `Stream` class, and the `FaultRegister` class (the global fault slot) |
| `symbol.dfy` | `Symbols` | variable and function symbols |
| `symbol_table.dfy` | `SymbolTables` | scopes held in a sequence with parent indices; lookup along the parent chain; the `SymbolTable` class |
| `ast.dfy` | `Ast` | the node kinds, their constructors, and the expression type walk |
| `environment.dfy` | `Environment` | what the walks thread through: the symbol table, the pending fault, and the text printed by debug-print nodes |
| `evaluation.dfy` | `Evaluation` | `Eval`, the evaluation walk |
| `semantic_check.dfy` | `SemanticCheck` | `Check`, the semantic check walk |
| `walk_properties.dfy` | `WalkProperties` | properties of both walks, including the interpreter's own test scenarios |
| `codeblock.dfy` | `Codeblocks` | the `Codeblock` class and its state machine |
| `vector.dfy`, `stack.dfy`, `hash_table.dfy` | `Vectors`, `Stacks`, `HashTables` | the containers, as classes over an array, linked items and an array of buckets |

Global state and values are modelled as follows:

- **Fault register.** The C global is a `FaultRegister` object. Inside the walks, the pending fault is a field of the environment that `Trigger` overwrites: the last fault wins.
- **Printed output.** The walks collect the text that debug-print nodes write. `Codeblock.Execute` writes it to a `Stream` that stands for standard output.
- **Floats** are reals.
- **Integers** are unbounded.

Some functions are only declared in the interpreter and have no body there:

- the operator validity tables;
- the operator names;
- the static type of an expression;
- appending a value to a string.

The walks take these as the fields of an `Externals` record. Every property that depends on them states its assumption about them as a precondition.

Where the interpreter reaches one of its own assertions or aborts, the evaluation returns `Aborted`. Examples are an undeclared variable, a condition that is not a boolean, and an operator the integer evaluation has no case for. A while loop that would not stop in the given number of iterations returns `OutOfFuel`.

Points where the code does something a reader might not expect:

- The declaration check (src/ast_declaration.c:62-82) looks the identifier up through the whole scope chain. A declaration therefore fails when the identifier is visible in any enclosing scope. Its fault message still says "in the current scope" (src/ast_declaration.c:77).
- The while loop (src/ast_control_flow.c:134-156) drops its body's result and yields Undefined once the condition is false. A fault the body raises does not stop the loop.
- `984 / 8` is the integer 123, because integer division yields an integer when it is exact (src/ast_binary.c:133-178). The interpreter's own test expects a float there (test/ast_test.c:89-90).
- The boolean getter (src/variant.c:288-293) returns the boolean widened to a double. The model returns the boolean; a C caller reads the same truth value either way.

## Model

| member | source | states |
|---|---|---|
| Variants.TypeCode | src/variant.h:14-55 | the six type codes are the integers 0 to 5 |
| Variants.TypeOfCode | src/variant.c:47-51 | every valid code maps back to a type with that code |
| Variants.TypeCodeRoundTrip | src/variant.c:47-51 | every type's code is valid, and mapping it back gives the same type |
| Variants.TypeStringify | src/variant.c:24-31 | every type has a non-empty name |
| Variants.TypeStringifyInjective | src/variant.c:40-45 | different types have different names |
| Variants.Create | src/variant.c:53-59 | a new variant is undefined |
| Variants.Copy | src/variant.c:85-115 | a copy has the type, the payload and the text of the original |
| Variants.GetType | src/variant.c:117-120 | a stored type is never the numeric wildcard |
| Variants.IsTypeNumeric | src/variant.c:171-177 | asking for the numeric type holds exactly for integers and floats |
| Variants.IsTypeExactlyOne | src/variant.c:179-207 | for every type except numeric, the type test holds exactly when the stored type is that type, so exactly one of the five tests holds |
| Variants.IsType | src/variant.c:171-177 | every value has its own type, and no concrete type other than its own |
| Variants.IsNumeric | src/variant.c:194-197 | numeric means exactly an integer or a float |
| Variants.IsUndefined | src/variant.c:179-182 | holds exactly for the undefined value |
| Variants.IsInteger | src/variant.c:184-187 | holds exactly for integers |
| Variants.IsFloat | src/variant.c:189-192 | holds exactly for floats |
| Variants.IsBoolean | src/variant.c:199-202 | holds exactly for booleans |
| Variants.IsString | src/variant.c:204-207 | holds exactly for strings |
| Variants.IntegerCreate | src/variant.c:241-248 | an integer variant gives its value back |
| Variants.IntegerGetValue | src/variant.c:250-255 | the getter needs an integer and returns the payload it was built from |
| Variants.FloatCreate | src/variant.c:260-267 | a float variant gives its value back |
| Variants.FloatGetValue | src/variant.c:269-274 | the getter needs a float and returns its payload |
| Variants.BooleanCreate | src/variant.c:279-286 | a boolean variant gives its value back |
| Variants.BooleanGetValue | src/variant.c:288-293 | the getter needs a boolean and returns its payload |
| Variants.StringCreate | src/variant.c:298-305 | a string variant gives its text back |
| Variants.StringGetValue | src/variant.c:307-312 | the getter needs a string and returns its text |
| Variants.TruncateReal | src/variant.c:212-223 | the C cast of a double to long truncates toward zero: the result is the integer next to the value on the zero side |
| Variants.NumericAsInteger | src/variant.c:212-223 | an integer unchanged; a float truncated toward zero |
| Variants.NumericAsFloat | src/variant.c:225-237 | a float unchanged; an integer widened |
| Variants.NumericRoundTrip | src/variant.c:212-237 | widening an integer to a float and truncating it back gives the integer |
| Variants.FixedDigits | src/variant.c:140-143 | the fractional digits of `%f` are exactly `width` decimal digits |
| Variants.FormatFloat | src/variant.c:139-142 | the `%f` text ends in a point and six digits, and starts with a minus sign exactly for negative values |
| Variants.ToString | src/variant.c:122-161 | an integer's text is a decimal numeral that parses back to the integer; a float's is its `%f` text; a boolean's is `True` or `False` according to its value; a string's is the string itself; undefined is `<undefined>` |
| Variants.ToStringInteger | src/variant.c:133-138 | an integer's text is non-empty and starts with a minus sign exactly when the integer is negative |
| Variants.ToStringIntegerInjective | src/variant.c:133-138 | different integers have different texts |
| Variants.ToStringExamples | test/variant_test.c:64-82 | undefined is `<undefined>`, 123 is `123`, -7 is `-7`, and booleans are `True` and `False` |
| Variants.ToStringFloatExample | test/variant_test.c:83-88 | the float 123.000321 renders as `123.000321` |
| Decimal.DigitChar | src/variant.c:133-138 | every digit value 0 to 9 has a digit character |
| Decimal.DigitValue | src/variant.c:133-138 | a digit character's value is below 10 |
| Decimal.DigitRoundTrip | src/variant.c:133-138 | a digit's character reads back as the digit |
| Decimal.NatToStringDigits | src/variant.c:133-138 | a natural number's decimal text is non-empty, all digits, has no leading zero, and parses back to the number |
| Decimal.IntToStringRoundTrip | src/variant.c:133-138 | an integer's `%ld` text starts with a minus sign exactly for negatives, is digits otherwise, and parses back to the integer |
| Decimal.IntToStringInjective | src/variant.c:133-138 | different integers have different decimal texts |
| ErrorHandling.Prefix | src/error_handling.c:169-185 | every fault kind has a non-empty prefix ending in a space |
| ErrorHandling.FormatFault | src/error_handling.c:169-197 | a fault's text starts with its kind's prefix and ends with a newline |
| ErrorHandling.LineSegment | src/error_handling.c:186-188 | empty for a line that is not positive; otherwise `line `, a decimal numeral that parses back to the line, and `: ` |
| ErrorHandling.FormatMessage | src/error_handling.c:58-65 | a plain message is printed as `Error: `, then the message, then a newline |
| ErrorHandling.FormatFaultDeterminesKind | src/error_handling.c:169-185 | two faults with the same text have the same kind |
| ErrorHandling.LineSegmentShape | src/error_handling.c:187-188 | the line segment is printed exactly when the line is positive, as `line ` and the number, then `: ` |
| ErrorHandling.FormatFaultDeterminesLine | src/error_handling.c:187-188 | two faults with the same kind, the same message and positive lines print the same text only if their lines agree |
| ErrorHandling.FormatFaultExamples | test/error_handling_test.c:47-74 | syntax and runtime faults on line 1 print as the tests expect, and a fault with no line omits the line segment |
| ErrorHandling.Stream.constructor | src/error_handling.c:20 | a C output stream (`FILE*`, the error stream held here or standard output), seen as the text written to it; a new one holds no text |
| ErrorHandling.Stream.Write | src/error_handling.c:192-197 | writing appends the text to the stream |
| ErrorHandling.FaultRegister.constructor | src/error_handling.c:20-22 | the register starts uninitialised, with no fault and no output |
| ErrorHandling.FaultRegister.SetOutput | src/error_handling.c:67-72 | the output becomes the given stream; the rest is unchanged |
| ErrorHandling.FaultRegister.Initialize | src/error_handling.c:74-81 | only an uninitialised register can be initialised; afterwards it is initialised and writes to the given stream |
| ErrorHandling.FaultRegister.Finalize | src/error_handling.c:83-89 | only an initialised register can be finalised; afterwards it is uninitialised |
| ErrorHandling.FaultRegister.IsInitialized | src/error_handling.c:91-94 | reports whether the register is initialised |
| ErrorHandling.FaultRegister.Occurred | src/error_handling.c:96-101 | true exactly when a fault is pending |
| ErrorHandling.FaultRegister.Trigger | src/error_handling.c:103-136 | the new fault replaces any fault still pending |
| ErrorHandling.FaultRegister.Print | src/error_handling.c:50-56 | appends the fault's formatted text to the output |
| ErrorHandling.FaultRegister.PrintMsg | src/error_handling.c:58-65 | appends the `Error: ` line to the output |
| ErrorHandling.FaultRegister.Process | src/error_handling.c:138-149 | a pending fault is printed once and cleared; without one, nothing is printed |
| ErrorHandling.TriggerThenProcess | test/error_handling_test.c:62-74 | a fault triggered and then processed leaves no fault pending and exactly its text on the output |
| Symbols.KindStringify | src/symbol.c:10-30 | both symbol kind names are eight characters long |
| Symbols.KindStringifyInjective | src/symbol.c:10-30 | the two kinds have different names |
| Symbols.ExactlyOneKind | src/symbol.c:65-80 | every symbol is either a variable or a function, never both |
| Symbols.GetIdentifier | src/symbol.c:50-53 | the symbol's identifier |
| Symbols.GetKind | src/symbol.c:55-58 | the kind is variable exactly for variable symbols and function exactly for function symbols |
| Symbols.IsVariable | src/symbol.c:65-68 | holds exactly for variable symbols |
| Symbols.IsFunction | src/symbol.c:70-73 | holds exactly for function symbols |
| Symbols.VariableGetValue | src/ast_variable.c:67 | the value the variable holds; the variable is its identifier and that value |
| Symbols.GetDataType | src/symbol.c:60-63 | a function's data type is undefined; a variable's is the type of its current value |
| Symbols.VariableCreate | src/symbol_variable.c:25-36 | a new variable has the identifier and the undefined value and type |
| Symbols.FunctionCreate | src/symbol_function.c:28-38 | a new function symbol has the identifier and the undefined data type |
| Symbols.CreateOfKind | src/ast_declaration.c:87-98 | the declared kind and identifier are those of the created symbol |
| Symbols.VariableAssign | test/symbol_test.c:25-38 | after an assignment the variable holds the value, and its data type is the value's type |
| Symbols.DataTypeFollowsAssignments | test/symbol_test.c:21-38 | the data types before and after assigning an integer, a float and undefined are as the test expects |
| SymbolTables.ScopeCreate | src/scope.c:19-27 | a new scope has the given parent and no symbols |
| SymbolTables.GetParent | src/scope.c:35-38 | the parent the scope was made with: the scope is that parent and its symbols |
| SymbolTables.GetSymbols | src/scope.c:40-43 | the symbols the scope holds: the scope is its parent and those symbols |
| SymbolTables.TableCreate | src/symbol_table.c:24-33 | a new table is one global scope, which has no parent and no symbols |
| SymbolTables.FindFrom | src/symbol_table.c:61-78 | a scope found for an identifier lies at or below the start and holds the identifier |
| SymbolTables.LookupFrom | src/symbol_table.c:61-78 | a symbol is found exactly when some scope on the chain holds the identifier; it is that scope's entry and carries the identifier |
| SymbolTables.LookupIn | src/symbol_table.c:61-78 | a symbol found has the identifier looked up |
| SymbolTables.FindFromNearest | src/symbol_table.c:61-78 | the scope found is on the parent chain of the current scope, and no scope nearer on that chain holds the identifier; when nothing is found, no scope on the chain holds it |
| SymbolTables.ChainDescends | src/symbol_table.c:70-75 | every scope on the parent chain has a lower index, so the lookup loop ends |
| SymbolTables.InsertInto | src/symbol_table.c:43-59 | the symbol is added to the current scope only if that scope lacks the identifier; other scopes and parents are unchanged |
| SymbolTables.InsertResult | src/symbol_table.c:43-59 | the insert returns the existing symbol exactly when the current scope already holds the identifier |
| SymbolTables.InsertThenLookup | src/symbol_table.c:43-78 | after a successful insert, a lookup finds the new symbol; after a refused insert, a lookup finds the existing one |
| SymbolTables.InsertKeepsOtherLookups | src/symbol_table.c:43-78 | an insert changes no lookup of any other identifier |
| SymbolTables.SameBelow | src/symbol_table.c:61-78 | a lookup depends only on the scopes at or below its start |
| SymbolTables.Entered | src/symbol_table.c:80-84 | entering a scope pushes an empty scope whose parent is the current scope |
| SymbolTables.SwitchedTo | src/symbol_table.c:86-95 | switching pushes an empty scope whose parent is the given scope, or the global scope when none is given |
| SymbolTables.Left | src/symbol_table.c:97-102 | leaving pops the current scope and keeps the table well formed |
| SymbolTables.EnterKeepsLookups | src/symbol_table.c:80-84 | a newly entered scope sees every identifier that was visible before, with the same symbol |
| SymbolTables.LeaveUndoesEnter | src/symbol_table.c:80-102 | leaving a scope restores the table exactly as it was before entering it, whatever was declared inside |
| SymbolTables.SwitchToGlobalSeesGlobal | src/symbol_table.c:86-95 | after switching with no parent, lookups see only the new scope's symbols (none yet) and the global scope's symbols |
| SymbolTables.AssignVariable | src/ast_variable.c:117-125 | assignment keeps the table well formed and its size; its effect is stated by the three lemmas below |
| SymbolTables.AssignThenLookup | src/ast_variable.c:117-125 | after assigning, the lookup finds the variable with the new value, the table keeps its shape (the same scopes, identifiers and kinds), and every other identifier looks up to what it did before |
| SymbolTables.AssignLeavesOthers | src/ast_variable.c:117-125 | assigning one identifier leaves the lookup of every other identifier unchanged, values included |
| SymbolTables.AssignKeepsShape | src/ast_variable.c:117-125 | only the scope that holds the variable changes, and in it only that variable's entry is replaced by the assigned one |
| SymbolTables.ChainSame | src/symbol_table.c:61-78 | tables with the same parents and identifiers find an identifier in the same scope |
| SymbolTables.SameShapeTransitive | src/ast_variable.c:117-125 | keeping the shape composes |
| SymbolTables.SameShapeFind | src/symbol_table.c:61-78 | tables of the same shape find the same scope and symbols of the same kind |
| SymbolTables.SymbolTable.constructor | src/symbol_table.c:24-33 | the object holds a new table |
| SymbolTables.SymbolTable.Insert | src/symbol_table.c:43-59 | the object's table and result are those of `InsertInto` and `InsertResult` |
| SymbolTables.SymbolTable.Lookup | src/symbol_table.c:61-78 | the parent-chain loop returns exactly `LookupIn` |
| SymbolTables.SymbolTable.EnterScope | src/symbol_table.c:80-84 | the table becomes `Entered` of the old one |
| SymbolTables.SymbolTable.SwitchScope | src/symbol_table.c:86-95 | the table becomes `SwitchedTo` of the old one |
| SymbolTables.SymbolTable.LeaveScope | src/symbol_table.c:97-102 | the table becomes `Left` of the old one |
| SymbolTables.SymbolTableScenario | test/symbol_table_test.c:25-79 | the four inserts and eight lookups of the symbol-table test give exactly the results the test asserts |
| Ast.GetAstType | src/ast.c:42-45 | no node reports the none or comparison type code |
| Ast.ValueNodeCreate | src/ast_value.c:19-32 | a value node holds the value and has no line yet |
| Ast.ValueGetValue | src/ast_value.c:40-43 | the value the node holds; the node is its line, its context and that value |
| Ast.VariableNodeCreate | src/ast_variable.c:38-51 | a variable node holds the identifier and has no line yet |
| Ast.UnaryNodeCreate | src/ast_unary.c:25-38 | a unary node holds the operator and its operand |
| Ast.BinaryNodeCreate | src/ast_binary.c:49-63 | a binary node holds the operator and its two operands in order |
| Ast.AssignmentNodeCreate | src/ast_assignment.c:20-32 | an assignment node holds the target and the source |
| Ast.DeclarationNodeCreate | src/ast_declaration.c:22-37 | a declaration node holds the kind and the identifier |
| Ast.DeclarationBlockNodeCreate | src/ast_declaration_block.c:21-34 | a new declaration block is empty |
| Ast.DeclarationBlockAdd | src/ast_declaration_block.c:83-87 | adding a declaration appends it and keeps the earlier ones in order |
| Ast.StatementListNodeCreate | src/ast_statement_list.c:14-25 | a statement list holds its two statements in order |
| Ast.IfNodeCreate | src/ast_control_flow.c:34-45 | an if node holds the condition and its optional branches |
| Ast.WhileNodeCreate | src/ast_control_flow.c:110-121 | a while node holds the condition and the body |
| Ast.DebugPrintNodeCreate | src/ast_debug_print.c:18-29 | a debug-print node holds its expression |
| Ast.SetLine | src/ast.c:37-40 | only the node's line changes |
| Ast.CheckExpressionType | src/ast.c:59-87 | a true answer means the node is an expression all of whose values have the type |
| Ast.CheckExpressionTypeCorrect | src/ast.c:59-87 | on an expression the type walk never aborts, and it answers true exactly when every value in the expression has the type |
| Ast.CheckExpressionTypeAborts | src/ast.c:59-87 | the type walk aborts at any root other than a value, unary or binary node |
| Ast.CheckExpressionTypeShortCircuits | src/ast.c:70-74 | a binary node whose left side fails the type test fails without looking at the right side |
| Environment.Trigger | src/error_handling.c:103-136 | triggering replaces the pending fault and changes neither the table nor the output |
| Environment.UnaryMessage | src/ast_unary.c:110-115 | the operator fault text: "Invalid unary operation: ", the operator's name, " <", the operand type's name and ">", each at its position |
| Environment.BinaryMessage | src/ast_binary.c:239-245 | the operator fault text: "Invalid binary operation: <", the left type's name, "> ", the operator's name, " <", the right type's name and ">", each at its position |
| Environment.CheckUnaryOperation | src/ast_unary.c:103-118 | the check passes exactly when the validity table allows the operator on the type; otherwise the operator fault is raised in the node's context |
| Environment.CheckBinaryOperation | src/ast_binary.c:231-249 | the check passes exactly when the table allows the operator on the two types; otherwise the operator fault is raised in the node's context |
| Evaluation.FollowsTransitive | src/ast_statement_list.c:36-47 | the evaluation's effects compose: the table keeps its shape, output only grows, a fault is never cleared |
| Evaluation.IsDeclared | src/ast_variable.c:107-115 | declared exactly when the nearest visible symbol is a variable, which some scope on the chain holds |
| Evaluation.ApplyUnary | src/ast_unary.c:48-88 | a unary result changes nothing; when there is no result, an operator fault was raised |
| Evaluation.ApplyInteger | src/ast_binary.c:133-178 | integer arithmetic changes nothing except on division by zero, which raises the runtime fault |
| Evaluation.ApplyFloat | src/ast_binary.c:180-215 | float arithmetic yields a float, and division by zero raises the runtime fault |
| Evaluation.ApplyString | src/ast_binary.c:217-228 | only `+` is defined on a string: it yields the concatenation; every other operator aborts |
| Evaluation.ApplyBinary | src/ast_binary.c:74-111 | an operator the validity table refuses raises a fault instead of computing; a computed result leaves the environment unchanged |
| Evaluation.Eval | src/ast.c:47-51 | every evaluation keeps the table's shape, only appends output and never clears a fault, and when it yields no result a fault is pending |
| Evaluation.EvalWhile | src/ast_control_flow.c:134-156 | a loop that ends yields Undefined and has the same effects as any evaluation |
| Evaluation.RunWhile | src/ast_control_flow.c:134-156 | the iterative loop computes exactly `EvalWhile` |
| SemanticCheck.GrowsTransitive | src/ast_statement_list.c:49-57 | the check's effect on the table, which only adds symbols to the current scope, composes |
| SemanticCheck.GrowsKeepsVisible | src/ast_declaration.c:62-103 | an identifier visible before the check stays visible after it |
| SemanticCheck.CheckedFromTransitive | src/ast_statement_list.c:49-57 | two checks in a row have the effects of one check |
| SemanticCheck.NotDeclaredMessage | src/ast_variable.c:84 | the text quotes the identifier and ends in "is not declared in an available scope" |
| SemanticCheck.NotVariableMessage | src/ast_variable.c:96 | the text quotes the identifier, names its kind and ends in ", not as variable" |
| SemanticCheck.AlreadyDeclaredMessage | src/ast_declaration.c:77 | the text quotes the identifier, names the existing symbol's kind and ends in " in the current scope" |
| SemanticCheck.CheckVariable | src/ast_variable.c:72-105 | passes exactly when the identifier is visible as a variable; otherwise raises the "not declared" or "declared as …, not as variable" fault |
| SemanticCheck.CheckDeclaration | src/ast_declaration.c:62-103 | passes exactly when the identifier is not visible, and then inserts a symbol of the declared kind; otherwise raises "already declared" and leaves the table unchanged |
| SemanticCheck.DeclarationThenLookup | src/ast_declaration.c:87-100 | after a successful declaration, the identifier looks up to the new symbol of the declared kind |
| SemanticCheck.RedeclarationFails | src/ast_declaration.c:62-82 | declaring the same identifier a second time fails |
| SemanticCheck.CheckDeclarations | src/ast_declaration_block.c:64-81 | a block passes only if every identifier was undeclared before and the identifiers are pairwise distinct; afterwards every one is visible |
| SemanticCheck.CheckDeclarationBlock | src/ast_declaration_block.c:64-81 | the loop stops at the first failing declaration and computes exactly `CheckDeclarations` |
| SemanticCheck.Check | src/ast.c:53-57 | no check writes output; a check only adds symbols; a passing check leaves the fault slot as it was; a failing check leaves a fault pending |
| WalkProperties.ExactDivisionAgrees | src/ast_binary.c:163-170 | the C remainder is zero exactly when the division is exact, and then the C quotient is the exact quotient |
| WalkProperties.DivExact | src/ast_binary.c:163-170 | a product divided by one factor gives the other |
| WalkProperties.IntegerOperation | test/ast_test.c:256-273 | the test's binary node holds the operator, the line and the context |
| WalkProperties.BinaryEvaluatesOperands | src/ast_binary.c:74-96 | a binary node evaluates its left operand, then its right, and applies its operator to the two values |
| WalkProperties.UnaryEvaluatesOperand | src/ast_unary.c:48-56 | a unary node evaluates its operand and applies its operator to the value |
| WalkProperties.IntegerArithmetic | src/ast_binary.c:133-178 | `+`, `-` and `*` on integers are exact. Division by zero raises the runtime fault and yields no result. Exact division yields an integer, inexact division a float. Other operators abort. |
| WalkProperties.ArithmeticExamples | test/ast_test.c:72-87 | the additions, subtractions and multiplications of the test give the expected integers |
| WalkProperties.DivisionExamples | test/ast_test.c:89-100 | 984 divided by 8 and by -8 gives the integers 123 and -123; the other divisions give the expected floats |
| WalkProperties.FloatDivisionByZero | src/ast_binary.c:198-205 | dividing by the float zero raises "Division by zero is not allowed" at the node's line and yields no result |
| WalkProperties.LeftOperandFirst | src/ast_binary.c:74-111 | the left operand is evaluated first; a missing left result skips the right operand; a missing right result skips the operation |
| WalkProperties.InvalidBinaryOperation | src/ast_binary.c:91-98 | an operator refused by the validity table raises the operator fault and yields no result |
| WalkProperties.StringConcatenation | src/ast_binary.c:217-228 | `+` on two strings yields their concatenation |
| WalkProperties.UnaryOperations | src/ast_unary.c:48-88 | minus negates integers and floats; not negates booleans; any other operand type aborts |
| WalkProperties.UnaryExamples | test/ast_test.c:102-119 | minus 123 is -123, and minus 321.00123 is -321.00123 |
| WalkProperties.UnaryInvolution | src/ast_unary.c:48-88 | applying the same unary operator twice gives back the value |
| WalkProperties.UnaryPropagatesAbsence | src/ast_unary.c:48-60 | a missing operand result passes through unchanged |
| WalkProperties.VariableEvaluation | src/ast_variable.c:59-115 | a variable evaluates to its value exactly when it is declared, and aborts otherwise; the check passes exactly when it is declared |
| WalkProperties.AssignmentStores | src/ast_assignment.c:43-63 | assignment evaluates the source, stores its value in the nearest visible variable, and yields that value; reading the variable afterwards gives it, and every other identifier looks up as it did after the source was evaluated |
| WalkProperties.AssignmentWithoutValue | src/ast_assignment.c:43-63 | a source without a result leaves the variable unassigned |
| WalkProperties.IncrementReadsOldValue | src/ast_assignment.c:43-63 | `x = x + 1` reads the old value and stores its successor |
| WalkProperties.DeclarationsEvaluateToUndefined | src/ast_declaration.c:45-60 | declarations and declaration blocks evaluate to Undefined and change nothing |
| WalkProperties.StatementListSequencing | src/ast_statement_list.c:36-47 | the second statement runs on the first statement's environment, and only if no fault is pending after the first |
| WalkProperties.PendingFaultSkipsSecond | src/ast_statement_list.c:36-47 | with a fault pending, a statement list stops after its first statement |
| WalkProperties.IfSelectsBranch | src/ast_control_flow.c:67-81 | a boolean condition selects the branch; a missing branch yields Undefined; a non-boolean condition aborts |
| WalkProperties.WhileFalseCondition | src/ast_control_flow.c:134-156 | a loop whose condition is false yields Undefined and changes nothing |
| WalkProperties.WhileIgnoresBodyFault | src/ast_control_flow.c:134-156 | a body without a result does not stop the loop: the next pass runs on the body's environment |
| WalkProperties.DebugPrintWrites | src/ast_debug_print.c:39-49 | debug-print appends the value's text and a newline, and yields Undefined |
| WalkProperties.NotAVariableMessage | test/ast_test.c:213-227 | checking `test_var` on line 1, declared as a function, fails with the fault text the test expects |
| WalkProperties.NotVariableText | test/ast_test.c:225-227 | the "declared as function, not as variable" fault prints as the test expects |
| WalkProperties.NotDeclaredDiagnostic | test/ast_test.c:236-246 | checking an undeclared `test_var` on line 1 fails with the fault text the test expects |
| WalkProperties.NotDeclaredText | test/ast_test.c:245-246 | the "not declared in an available scope" fault prints as the test expects |
| WalkProperties.SemanticLineOne | src/error_handling.c:169-197 | a semantic fault on line 1 prints as `semantic error: line 1: `, then the message, then a newline |
| WalkProperties.OperatorCheckOrder | src/ast_binary.c:113-128 | the check visits the left operand, then the right, then the operator, and stops at the first failure |
| WalkProperties.ConditionTypeChecked | src/ast_control_flow.c:83-105 | a condition typed neither boolean nor undefined fails the check with "Condition is not a boolean expression" |
| WalkProperties.AssignmentTargetChecked | src/ast_assignment.c:65-78 | a target that is not a variable fails the check with "Values can only be assigned to variables" |
| WalkProperties.DeclarationBlockStopsAtFirstFailure | src/ast_declaration_block.c:64-81 | a block whose first identifier is already visible fails and declares nothing |
| WalkProperties.EmptyDeclarationBlockPasses | src/ast_declaration_block.c:64-81 | an empty block passes and changes nothing |
| WalkProperties.StatementListCheckGated | src/ast_statement_list.c:49-57 | the second statement is checked only if the first passed, on the table the first produced |
| WalkProperties.DeclareThenAssignChecks | src/ast_declaration.c:62-103 | checking `var x; x = 5` passes and leaves `x` declared as an undefined variable |
| WalkProperties.DeclareThenAssignEvaluates | src/ast_assignment.c:43-63 | evaluating `var x; x = 5` on the checked table yields 5 and leaves `x` holding 5 |
| WalkProperties.AssignWithoutCheckAborts | src/ast_declaration.c:45-60 | evaluating `var x; x = 5` on a table where `x` was never declared aborts, because declarations only take effect in the check |
| Codeblocks.ParseDiagnostic | src/codeblock.c:145-156 | status 1 and status 2 report their two messages; every other status reports nothing |
| Codeblocks.RunTree | src/codeblock.c:105-108 | a finished run keeps the environment valid and never clears a fault pending before it; a run that fails the check has no result and printed nothing |
| Codeblocks.Codeblock.constructor | src/codeblock.c:45-54 | a new codeblock is ready, with no result and no tree |
| Codeblocks.Codeblock.Reset | src/codeblock.c:161-173 | every state returns to ready; the tree is dropped unless already ready; the result is dropped only after a successful execution |
| Codeblocks.Codeblock.Parse | src/codeblock.c:133-159 | after a reset the codeblock is parsed whatever the status; only status 0 succeeds; the two known failure statuses print their message |
| Codeblocks.Codeblock.Execute | src/codeblock.c:96-121 | only a parsed codeblock executes. The check runs first, and the evaluation only if it passed. A pending fault is printed and cleared, and the execution fails. Without one, the execution succeeds. The result is replaced only when the check passed. |
| Codeblocks.Codeblock.GetResult | src/codeblock.c:123-128 | the result is read only after a successful execution |
| Codeblocks.FailedCheckSkipsEvaluation | src/codeblock.c:107-108 | a tree that fails the check is never evaluated: no result, no output, and the execution fails |
| Codeblocks.StaleFaultFails | src/codeblock.c:110-116 | a fault pending before the execution makes it fail |
| Codeblocks.SuccessMeansCleanRun | src/codeblock.c:105-116 | a successful execution started with no pending fault, passed the check, and its result is the evaluation's |
| Codeblocks.SampleProgramRuns | test/codeblock_test.c:16-27 | `333 + 55 * 7 - 99` executes successfully to 619 |
| Vectors.Vector.constructor | src/vector.c:28-38 | a new vector is empty, with one block of sixteen slots |
| Vectors.Vector.IncreaseSize | src/vector.c:124-135 | growing adds whole blocks and keeps the items |
| Vectors.Vector.Append | src/vector.c:46-61 | the item goes at the end, its index is the old count, and a full vector grows by one block first |
| Vectors.Vector.Remove | src/vector.c:63-85 | an index in bounds returns that item and shifts the later ones down; an index out of bounds returns nothing and changes nothing |
| Vectors.Vector.Clear | src/vector.c:87-91 | the vector becomes empty and keeps its slots |
| Vectors.Vector.Get | src/vector.c:93-100 | an index in bounds gives the item; out of bounds gives nothing |
| Vectors.Vector.Set | src/vector.c:102-109 | replaces the item exactly when the index is in bounds, and reports whether it did |
| Vectors.Vector.Count | src/vector.c:111-114 | the number of items |
| Vectors.AppendAll | test/vector_test.c:32-39 | appending items one by one gives each the index it was appended at, and the vector holds them in order |
| Vectors.DrainFromBack | test/vector_test.c:41-49 | removing from the back returns the items in reverse order and empties the vector |
| Stacks.StackItem.constructor | src/stack.c:42-50 | a new item holds the data on top of the items below it |
| Stacks.Stack.constructor | src/stack.c:28-35 | a new stack is empty |
| Stacks.Stack.Push | src/stack.c:42-50 | the item becomes the top and the rest is unchanged |
| Stacks.Stack.Pop | src/stack.c:52-71 | a non-empty stack gives its top and loses it; an empty stack reports failure and is unchanged |
| Stacks.Stack.GetTopItem | src/stack.c:73-80 | the top item, or nothing exactly when the stack is empty |
| Stacks.Stack.Count | src/stack.c:82-85 | the number of items |
| Stacks.Stack.IsEmpty | src/stack.c:87-90 | true exactly when there are no items |
| Stacks.PushAllPopAll | test/stack_test.c:46-76 | popping everything that was pushed returns the items in reverse order, and a further pop fails |
| HashTables.Find | src/hash_table.c:138-152 | a bucket search finds data exactly when some entry has the key, and the data found is that entry's |
| HashTables.Overwrite | src/hash_table.c:91-97 | every entry with the key gets the new data; the others are unchanged |
| HashTables.InsertBucket | src/hash_table.c:85-105 | the insert puts a new entry at the head of the bucket and keeps every older entry's key behind it |
| HashTables.RemoveFirst | src/hash_table.c:107-136 | removal drops exactly one entry when the key is present, and changes nothing otherwise |
| HashTables.RemoveFirstAt | src/hash_table.c:113-133 | removal drops the first entry with the key, and that entry's data is what a search finds |
| HashTables.FindOverwriteOther | src/hash_table.c:91-97 | overwriting one key changes no search for another key |
| HashTables.FindAfterInsert | src/hash_table.c:85-105 | after an insert, the key finds the new data and other keys find what they found before |
| HashTables.FindAfterRemove | src/hash_table.c:107-136 | removing one key changes no search for another key |
| HashTables.InsertTwiceRemoveOnce | src/hash_table.c:91-104 | inserting a key twice and removing it once leaves the key findable |
| HashTables.SetFirst | src/hash_table.c:91-94 | the corrected overwrite keeps every entry's key |
| HashTables.FindSetFirst | src/hash_table.c:91-94 | after the corrected overwrite, the key finds the new data and other keys are unaffected |
| HashTables.SetFirstAt | src/hash_table.c:91-94 | the corrected overwrite replaces exactly the first entry with the key |
| HashTables.PutProperties | src/hash_table.c:85-105 | the corrected insert keeps keys unique; afterwards the key finds the new data and other keys are unaffected |
| HashTables.RemoveFirstUnique | src/hash_table.c:107-136 | with unique keys, a removal leaves the key absent |
| HashTables.PutThenRemove | src/hash_table.c:85-136 | with the corrected insert, inserting and then removing a key leaves it absent |
| HashTables.ByteSumConcat | src/hash_table.c:183-194 | the byte sum of a concatenation is the sum of the byte sums |
| HashTables.RotationCollides | src/hash_table.c:183-194 | the default hash ignores order: `ab` and `ba` collide |
| HashTables.AddMod | src/hash_table.c:189 | adding into a wrapping word equals adding first and wrapping once |
| HashTables.DefaultHash | src/hash_table.c:183-194 | the loop computes the byte sum modulo 2^64 |
| HashTables.HashTable.Slot | src/hash_table.c:88 | a key's slot is within the table |
| HashTables.HashTable.constructor | src/hash_table.c:32-57 | a new table has empty buckets, the given hash function or the default one, and destroys items exactly when given a destructor |
| HashTables.HashTable.Insert | src/hash_table.c:85-105 | the key's bucket becomes `InsertBucket` of the old one; every other bucket is unchanged |
| HashTables.HashTable.Put | src/hash_table.c:85-105 | the key's bucket becomes `PutBucket` of the old one; every other bucket is unchanged |
| HashTables.HashTable.Get | src/hash_table.c:138-152 | the data of the first entry with the key, or nothing |
| HashTables.HashTable.Remove | src/hash_table.c:107-136 | reports whether the key was present and removes its first entry; the data goes to the destructor when there is one and the data is present |
| HashTables.InsertThenGet | test/hash_table_test.c:28-39 | a new table finds nothing under a key; after an insert it finds the data |

## Left out

- The lexer and the generated parser are not part of this model. A parse is given as the parser's status code and the tree it built (`ParserOutcome`). `cb_codeblock_parse_file` and `cb_codeblock_parse_string` differ only in the input they hand to the parser, so both are `Codeblock.Parse`.
- The command-line entry point, file handling and `cb_variant_print` (writing to standard output) are left out. The output of debug-print nodes is collected as text.
- Memory management is left out: the destroy functions, allocation failure, buffer sizes, the memory allocated for fault messages, and `realloc` failing when a vector grows.
- Floating point is modelled by reals, with no rounding, no overflow and no epsilon comparison.
- `Variants.ToString` renders a float with `%f` from the exact real value, rounding the sixth decimal to the nearest with ties to even. IEEE rounding of the stored double is not modelled.
- `Variants.IntegerCreate` and the integer arithmetic do not model 64-bit `long` overflow, because integers are unbounded. The C code's overflow would be undefined behaviour.
- `HashTables.DefaultHash` models the wrap-around of the hash word at 2^64. The keys are Dafny strings, so a key cannot end early at an embedded NUL as a C string would.
- `cb_hash_table_resize` is left out. Nothing in the core calls it.
- `Vectors.Vector.Remove` returns nothing for an index out of bounds. The C code reads `elements[index]` before it checks the bounds, which is an out-of-bounds read when the check then fails.
- `Stacks.Stack.Pop` does not model a NULL destination pointer. The popped item is always returned.
- The symbol table stores scopes in a sequence, with parent indices in place of pointers. The hash table of each scope is a Dafny map. Chained buckets are modelled separately, in `HashTables`.
- The for, switch-case and comparison nodes and the string `==` and left-hand-prefix `=` operators are not part of this model. Their code lies outside the core files modelled here.
- `Evaluation.Eval` takes a fuel bound. A while loop that would run more than `fuel` passes yields `OutOfFuel`, so non-termination is not modelled beyond that bound.
- The interpreter's `cb_assert` and `cb_abort` end the process. They are modelled as the outcome `Aborted`, with no message.
- `Codeblocks.Codeblock.Execute` requires a tree. The C code passes a NULL tree to the walks when the parser produced none.
- `Codeblocks.Codeblock.Execute` assumes that the output stream and the error stream are two different objects.
- The operator validity tables, the operator names, the static type of an expression and the appending of a value to a string are only declared in the interpreter. They are parameters (`Externals`), and every property that needs them states what it assumes.
- `Ast.CheckExpressionType`: the value case calls `cb_ast_value_node_check_expression_type`, which is only declared in the interpreter (src/ast_value.h:47-51). The model follows its header comment and uses `cb_variant_is_type`, so a value matches the numeric type when it is an integer or a float. This function is different from the static type of an expression held in `Externals`.
- Every node carries the error category its check faults are raised in (`context`), and each node constructor takes it as a parameter. `cb_ast_node_init` (src/ast.c:14-30) never sets this field; it is only read (src/ast_binary.c:240, src/ast_control_flow.c:99 and 173, src/ast_unary.c:111). The category is therefore a free per-node parameter. It stands for whatever the parser writes there, or whatever the uninitialised memory holds.
- `ErrorHandling.FaultRegister.Process` prints the stored message as it is. The C code passes that message to `cb_error_print` as a `printf` format string (src/error_handling.c:145), so a `%` in it would be interpreted. None of the interpreter's own messages contains one, but an operator name supplied through `Externals` could.
- The message buffer in `cb_error_trigger` is twice the length of the format string. A longer formatted message would overflow it; the model keeps the whole message.
- `Symbols.VariableAssign` and the variable's value getter are only declared in the interpreter. They are modelled from the documentation of `cb_ast_variable_node_assign` and from the symbol tests.

## Findings

| source | as written | input that shows it | evidently intended | confidence | as-written member | corrected member |
|---|---|---|---|---|---|---|
| src/hash_table.c:91-104 | the insert overwrites the data of every entry with the key, then always adds another entry for it at the head of the bucket | insert("k", a), insert("k", b), remove("k"): the remove reports true, yet get("k") still returns b | return after overwriting an existing entry, so a key has at most one entry | not executed | HashTables.InsertTwiceRemoveOnce | HashTables.PutThenRemove |
