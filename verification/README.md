# CSharpLox core, modelled in Dafny

A functional model of the sequential core of CSharpLox, a C# tree-walking interpreter for
the Lox language, and proofs about it. It covers the pipeline as the files of this snapshot
define it:

- the **scanner**, a character-level state machine (`Scanner`);
- the **parser**, recursive descent over tokens for expressions, with `Synchronize` (`Parser`);
- the **resolver**, a static scope analysis that annotates local references with their scope
  distance and reports misuse (`Resolver`);
- **environment frames** with `Define`, `Get`, `Assign`, `GetAt`, `AssignAt` and `Ancestor`
  (`Environment`);
- the **evaluator** of this snapshot: literals, grouping, unary, binary and logical operators,
  variables and assignment; expression, `print`, `var`, block and `if` statements; `Interpret`
  (`Interpreter`);
- the run-time objects: user functions (`LoxFunctions`), classes (`LoxClasses`) and
  instances (`LoxInstances`), over a heap of frames and objects (`Runtime`);
- the s-expression **AST printer** (`AstPrinter`);
- the shared data: tokens (`Tokens`), the twelve expression variants (`Exprs`), the nine
  statement variants (`Stmts`), values and outcomes (`Values`), and `Option`/`Result`
  (`Common`).

Modelling choices:

- Every mutable object becomes an immutable value threaded through pure functions. These
  are the scanner's cursors, the parser's position, the resolver's scope stack and the
  interpreter's current frame.
- Frames and objects live in arenas (`seq<Frame>`, `seq<Object>`) indexed by integers.
  Closures and blocks can then share frames, and `Value.Ref` gives reference identity.
- The host's exceptions become constructors of an outcome datatype:
  - `RuntimeError` becomes `Failure`;
  - the `Return` signal becomes `Returning`;
  - a parse error becomes `Failed`;
  - host faults become `Crash(...)`. These are an out-of-range argument, a missing key,
    a null frame, an invalid cast and `NotImplementedException`.
- Expression nodes carry integer ids. They stand for object identity, which the resolver
  uses as its annotation key.
- The resolver's two outputs become one ordered trace of `Effect`s: `Annotate(id, depth)`
  for `_interpreter.Resolve` and `Report(token, message)` for `_logger.Error`.
- Numbers are an opaque type. The host's double arithmetic, comparisons, `Equals` and
  formatting are an uninterpreted `Arithmetic` record (interpreter) or a `showNumber`
  renderer (printer, token text).

The files come from different development snapshots and are modelled each as written,
connected only through the shared datatypes and the heap:

- `Parser.Parse` returns one expression;
- `Interpreter` has no `Resolve` and no `Return` handling;
- `LoxFunction.Call` takes the block executor as a parameter (`BodyRunner`), with the
  `Preserving` assumption stated as a precondition: the runner keeps the heap valid, removes
  no frame or object, and changes no parent and no bound name of a frame other than the
  one the body runs in.

## Model

| member | source | states |
|---|---|---|
| Tokens.ToString | src/Core/Token.cs:21-22 | when lexeme and literal text hold no space, the text splits at spaces into exactly the kind name, the lexeme and the literal text |
| Scanner.Match | src/Core/Scanner.cs:85-92 | the next character is consumed exactly when input remains and it is the expected one; nothing else changes |
| Scanner.AddToken | src/Core/Scanner.cs:111-120 | the lexeme cut fails exactly when start plus the cut length overruns the source; otherwise one token with that lexeme, a nil literal and the current line is appended and nothing else changes |
| Scanner.SkipComment | src/Core/Scanner.cs:57-62 | a comment advances only the cursor, up to but not past the next newline, keeping the newline count |
| Scanner.ScanToken | src/Core/Scanner.cs:38-83 | one step consumes at least one character, adds at most one token, raises the line by one exactly on a newline, and cannot fail under the intended lexeme cut |
| Scanner.ScanLoop | src/Core/Scanner.cs:27-33 | the loop ends at the end of input with at most one token per remaining character |
| Scanner.ScanTokens | src/Core/Scanner.cs:25-36 | the output ends with exactly one EOF token on line 1 + newlines, at most one token per character precedes it, and none of those is EOF |
| Scanner.LexOne | src/Core/Scanner.cs:38-83 | the reference lexer step: consumes at least one character, yields at most one non-EOF token and at most one diagnostic, and keeps line + remaining newlines constant |
| Scanner.LexLine | src/Core/Scanner.cs:75-77 | the reference lexer ends on the starting line plus the number of newlines |
| Scanner.LexKinds | src/Core/Scanner.cs:27-34 | the reference lexer yields at most one token per character and never an EOF token |
| Scanner.ScanTokensMatchesLex | src/Core/Scanner.cs:25-120 | with the intended lexeme cut, the scanner yields exactly the reference lexer's tokens plus a final EOF, and exactly its diagnostics |
| Scanner.AsWrittenKeepsShapes | src/Core/Scanner.cs:116-120 | with the cut as written, a scan that does not fault agrees with the reference in every kind, literal, line and diagnostic, and only lexemes may differ; a scan that faults has logged a prefix of the reference's diagnostics |
| Scanner.AsWrittenFaultsOnIndentedToken | src/Core/Scanner.cs:118 | the source " (" faults with `Substring(1, 2)` |
| Scanner.AsWrittenFaultKeepsDiagnostics | src/Core/Scanner.cs:79-120 | the source "@ (" logs "Unexpected character." on line 1 and then faults with `Substring(2, 3)`, the fault carrying that diagnostic |
| Scanner.AsWrittenMiscutsSecondLexeme | src/Core/Scanner.cs:118 | the source "(( " yields a second token whose lexeme is "( " |
| Scanner.CorrectedCutsSecondLexeme | src/Core/Scanner.cs:118 | with the intended cut, "(( " yields two "(" tokens |
| Parser.Check | src/Core/Parser.cs:173-177 | true exactly when the current token is not EOF and has the kind |
| Parser.Advance | src/Core/Parser.cs:179-183 | the cursor moves by one unless it is on EOF, and the result is the token before the new cursor |
| Parser.Match | src/Core/Parser.cs:159-171 | matches exactly when the current token is not EOF and its kind is one of the listed kinds, consuming it then |
| Parser.Consume | src/Core/Parser.cs:121-126 | succeeds exactly on a non-EOF token of the kind, returning it and the next cursor; otherwise the error is at the current token with the message |
| Parser.Expression | src/Core/Parser.cs:39-42 | a parse consumes at least one token, never passes EOF, numbers its nodes from the counter, and fails only with "Expected expression." or "Expected ')' after expression." |
| Parser.BinaryLevel | src/Core/Parser.cs:44-86 | the same progress, numbering and error guarantees for each binary level |
| Parser.BinaryLoop | src/Core/Parser.cs:72-86 | the operator loop keeps the cursor within the tokens and the nodes numbered from the first operand's id |
| Parser.MatchesLevel | src/Core/Parser.cs:44-70 | a level's `Match` succeeds exactly on an operator of that level's precedence |
| Parser.Operand | src/Core/Parser.cs:72-76 | the tighter level a binary level calls has the same progress, numbering and error guarantees |
| Parser.Unary | src/Core/Parser.cs:88-98 | prefix operators have the same progress, numbering and error guarantees |
| Parser.Primary | src/Core/Parser.cs:100-119 | primary forms have the same progress, numbering and error guarantees |
| Parser.Parenthesized | src/Core/Parser.cs:111-116 | a parenthesised expression has the same progress, numbering and error guarantees |
| Parser.Parse | src/Core/Parser.cs:27-37 | no tree exactly when there is one diagnostic, which is one of the two parse messages; a tree comes with no diagnostic and has pairwise distinct node ids |
| Parser.Synchronize | src/Core/Parser.cs:134-157 | from a non-EOF token, the cursor moves at least one token on, to the first boundary: just after `;`, before a statement keyword, or at EOF |
| Parser.SynchronizeLoop | src/Core/Parser.cs:138-156 | the loop stops at a boundary and passes no boundary on the way |
| Parser.OperatorsByPrecedence | src/Core/Parser.cs:44-70 | an operator kind belongs to a level's list exactly when its precedence is that level: equality loosest, multiplication tightest |
| Parser.ParseRoundTrip | src/Core/Parser.cs:27-119 | printing any precedence-shaped, left-associative tree as tokens, followed by tokens that do not start with a binary operator, parses back to the same tree up to node ids |
| Resolver.BeginScope | src/Interpreter/Resolver.cs:273-276 | pushes one empty innermost scope and keeps the function and class kinds |
| Resolver.EndScope | src/Interpreter/Resolver.cs:278-281 | pops the innermost scope and keeps the function and class kinds |
| Resolver.Declare | src/Interpreter/Resolver.cs:283-295 | marks the name uninitialised in the innermost scope, if any; reports "already declared" exactly when that scope already holds the name |
| Resolver.IsDeclaredExact | src/Interpreter/Resolver.cs:239-253 | has an answer exactly when the innermost scope holds the name, and the answer is whether its flag equals the value |
| Resolver.FindDepth | src/Interpreter/Resolver.cs:308-315 | the first scope from the given index on that holds the name, or none when no such scope does |
| Resolver.ResolveLocal | src/Interpreter/Resolver.cs:303-318 | annotates with depth d exactly when scope d is the innermost scope holding the name; records nothing exactly when no scope holds it |
| Resolver.ResolveExpr | src/Interpreter/Resolver.cs:44-237 | every annotation depth is below the number of open scopes |
| Resolver.ResolveExprs | src/Interpreter/Resolver.cs:66-76 | every annotation depth of an argument list is below the number of open scopes |
| Resolver.AnnotationsOfOwnNodes | src/Interpreter/Resolver.cs:44-237 | resolving an expression annotates only nodes of that expression |
| Resolver.ArgumentAnnotationsOfOwnNodes | src/Interpreter/Resolver.cs:66-76 | resolving an argument list annotates only nodes of its arguments |
| Resolver.NameReferencesAnnotated | src/Interpreter/Resolver.cs:227-237 | a variable read, and an assignment whose value has other ids, is annotated with depth d exactly when the innermost scope holding the name is d scopes out |
| Resolver.AssignResolvesValueFirst | src/Interpreter/Resolver.cs:44-49 | in an assignment every annotation of the value comes before the annotation of the assigned name |
| Resolver.SetResolvesValueFirst | src/Interpreter/Resolver.cs:187-192 | in a property set every annotation of the assigned value comes before every annotation of the object |
| Resolver.ResolveStmt | src/Interpreter/Resolver.cs:58-271 | a statement restores the function and class kinds, the scope stack's depth and its outer scopes, and the innermost scope only gains names; a block leaves the context exactly as it was |
| Resolver.ResolveIf | src/Interpreter/Resolver.cs:142-148 | resolving an `if` restores the context in the same sense |
| Resolver.ResolveClass | src/Interpreter/Resolver.cs:78-113 | resolving a class restores the context in the same sense |
| Resolver.ResolveAll | src/Interpreter/Resolver.cs:36-42 | a statement list restores the context in the same sense |
| Resolver.ResolveMethods | src/Interpreter/Resolver.cs:97-105 | the method loop leaves the context unchanged |
| Resolver.DeclareParameters | src/Interpreter/Resolver.cs:326-330 | the innermost scope gains exactly the parameter names, each marked initialised; other names and outer scopes are unchanged |
| Resolver.ParametersReportDuplicates | src/Interpreter/Resolver.cs:283-295 | declaring parameters reports nothing but "Variable with this name already declared in this scope." |
| Resolver.ResolveFunction | src/Interpreter/Resolver.cs:320-335 | resolving a function leaves the context exactly as it was |
| Resolver.ResolveAllAppend | src/Interpreter/Resolver.cs:36-42 | resolving a + b is resolving a, then b from the context a left, with the effects concatenated |
| Resolver.ResolvingTwice | src/Interpreter/Resolver.cs:36-42 | from the top level, resolving returns to the top-level context, so resolving a program twice repeats its effects exactly |
| Resolver.TopLevelNamesUnannotated | src/Interpreter/Resolver.cs:283-318 | with no open scope an expression yields no annotation, only reports |
| Resolver.OwnInitializerReported | src/Interpreter/Resolver.cs:227-264 | `var a = a;` in a scope reports "Cannot read local variable in its own initializer." and still annotates the read at depth 0 |
| Resolver.ThisInMethodAtDistanceOne | src/Interpreter/Resolver.cs:78-113 | `this` directly in a method body is annotated at depth 1 |
| Resolver.ThisInBody | src/Interpreter/Resolver.cs:303-318 | a body `this;` resolved where the innermost scope lacks `this` and the next one holds it is annotated at depth 1 and nothing else |
| Resolver.ThisOneScopeOut | src/Interpreter/Resolver.cs:320-335 | with `this` in the innermost scope, `this` in a function body whose parameters do not shadow it is annotated at depth 1 |
| Resolver.ReturnChecks | src/Interpreter/Resolver.cs:168-185 | "Cannot return from top-level code." is reported exactly outside functions; "Cannot return a value from an initializer." exactly for a valued return in an initializer |
| Resolver.ThisAndSuperChecks | src/Interpreter/Resolver.cs:194-219 | `this` outside a class is reported and left unannotated, inside one it is resolved like a name; `super` is reported exactly outside a class or in a class without superclass, and is resolved in every case |
| Resolver.ValuedReturnInFunction | src/Interpreter/Resolver.cs:320-335 | in a function whose body starts by returning a value, that return is reported exactly when the function is resolved as an initializer |
| Resolver.InitializerReturnInClass | src/Interpreter/Resolver.cs:97-105 | in a class whose one method starts by returning a value, "Cannot return a value from an initializer." is reported exactly when the method is named "init" |
| Resolver.ResolvedExprReportsFrom | src/Interpreter/Resolver.cs:194-237 | an expression reports only own-initializer reads and misused `this` or `super` |
| Resolver.ResolvedExprsReportFrom | src/Interpreter/Resolver.cs:66-76 | an argument list reports only the same four messages |
| Environment.NewFrame | src/Core/EnvironmentScope.cs:9-12 | appends one empty frame with the given parent, keeping every existing frame |
| Environment.Define | src/Core/EnvironmentScope.cs:16-19 | binds the name in that frame only, overwriting; other names and frames are unchanged |
| Environment.Get | src/Core/EnvironmentScope.cs:21-34 | a failure is exactly "Undefined variable '<name>'." at the name |
| Environment.Assign | src/Core/EnvironmentScope.cs:41-56 | a failure is exactly the undefined-variable error; a success never adds or removes a name in any frame |
| Environment.Ancestor | src/Core/EnvironmentScope.cs:63-72 | distance 0 is the frame itself; any ancestor is an existing, older frame |
| Environment.GetAt | src/Core/EnvironmentScope.cs:36-39 | succeeds exactly when the ancestor exists and binds the name; otherwise a null-reference or missing-key fault |
| Environment.AssignAt | src/Core/EnvironmentScope.cs:58-61 | fails, with a null-reference fault, exactly when the ancestor does not exist |
| Environment.AncestorStep | src/Core/EnvironmentScope.cs:63-72 | distance d + 1 is one parent link beyond distance d |
| Environment.DistanceIsNearest | src/Core/EnvironmentScope.cs:21-34 | the distance found is the nearest frame on the chain binding the name, and no nearer frame binds it |
| Environment.GetIsGetAtDistance | src/Core/EnvironmentScope.cs:21-39 | `Get` fails exactly when no frame on the chain binds the name; otherwise it equals `GetAt` at the nearest distance |
| Environment.AssignIsAssignAtDistance | src/Core/EnvironmentScope.cs:41-61 | `Assign` fails exactly when no frame binds the name; otherwise it equals `AssignAt` at the nearest distance |
| Environment.GetAtAfterAssignAt | src/Core/EnvironmentScope.cs:36-61 | `GetAt(d, n)` after `AssignAt(d, n, v)` returns v |
| Environment.AssignAtChangesOneBinding | src/Core/EnvironmentScope.cs:58-61 | `AssignAt` changes only that name in that one frame |
| Environment.AncestorUnchanged | src/Core/EnvironmentScope.cs:63-72 | ancestors depend only on the parent links |
| Environment.AncestorAfterNewFrame | src/Core/EnvironmentScope.cs:9-12 | creating a frame does not change any existing frame's ancestors |
| Values.FromLiteral | src/Interpreter/Interpreter.cs:130-133 | a literal's value is nil exactly for the null literal and never an object reference |
| Interpreter.IsTruthy | src/Interpreter/Interpreter.cs:193-201 | false exactly for nil and `false` |
| Interpreter.IsEqual | src/Interpreter/Interpreter.cs:203-210 | nil equals only nil, equal values have the same type (so `0 == false` is false), and non-numbers are equal exactly when identical |
| Interpreter.IsEqualSymmetric | src/Interpreter/Interpreter.cs:203-210 | equality is symmetric when the host's double equality is |
| Interpreter.BinaryOp | src/Interpreter/Interpreter.cs:59-113 | numeric operators fail with "Operands must be numbers." exactly when an operand is not a number; `+` fails exactly when the operands are neither two numbers nor two strings, and concatenates strings; on two numbers `>`, `>=`, `<`, `<=`, `-`, `+`, `/` and `*` give the host's comparison or arithmetic of left and right; `==` and `!=` are `IsEqual` and its negation |
| Interpreter.UnaryOp | src/Interpreter/Interpreter.cs:166-181 | `!` negates truthiness; `-` negates a number, and on nil is a host null-reference fault and on any other value a host cast fault, never a runtime error |
| Interpreter.Stringify | src/Interpreter/Interpreter.cs:34-49 | a number's text loses a trailing ".0" |
| Interpreter.OperatorsApplied | src/Interpreter/Interpreter.cs:59-181 | once the operands have values, a binary expression is BinaryOp of them and a unary expression UnaryOp of its operand |
| Interpreter.Evaluate | src/Interpreter/Interpreter.cs:51-191 | an expression keeps the current frame, the output, the objects and every frame's names and parent, and yields no dangling reference |
| Interpreter.Execute | src/Interpreter/Interpreter.cs:224-309 | a statement leaves the same frame current, binds new names only in the current frame, and only appends output |
| Interpreter.ExecuteBlock | src/Interpreter/Interpreter.cs:230-246 | the previous frame is current again afterwards, whatever the outcome |
| Interpreter.ExecuteAll | src/Interpreter/Interpreter.cs:237-240 | a statement list keeps the same frame current and binds new names only there |
| Interpreter.Interpret | src/Interpreter/Interpreter.cs:19-32 | reports at most one runtime error, and never together with a host fault |
| Interpreter.LogicalShortCircuits | src/Interpreter/Interpreter.cs:135-149 | `or` with a truthy left, or `and` with a falsy left, yields the left and does not depend on the right operand |
| Interpreter.OperandsBeforeChecks | src/Interpreter/Interpreter.cs:59-64 | both operands are evaluated, left then right, before any operator check: a failing right operand decides the outcome |
| Interpreter.AssignThenRead | src/Interpreter/Interpreter.cs:51-57 | after an assignment succeeds, reading the name gives the assigned value |
| Interpreter.VarThenRead | src/Interpreter/Interpreter.cs:289-299 | after `var`, reading the name gives the initializer's value, or nil without one |
| Interpreter.ExecuteAllAppend | src/Interpreter/Interpreter.cs:23-26 | running a + b is running a, then b only if a completed normally |
| Interpreter.InterpretStopsAtFirstFailure | src/Interpreter/Interpreter.cs:19-32 | the first runtime error ends the run, is reported once, and later statements do not run |
| LoxFunctions.BindParameters | src/Interpreter/ILoxCallable.LoxFunction.cs:23-26 | succeeds exactly when there are at least as many arguments as parameters, otherwise the out-of-range fault; binds only parameter names in that frame |
| LoxFunctions.EnterCall | src/Interpreter/ILoxCallable.LoxFunction.cs:20-26 | the call frame is new, its parent is the closure (not the caller), and it binds only parameters |
| LoxFunctions.Call | src/Interpreter/ILoxCallable.LoxFunction.cs:20-39 | a returned value ends the call even in an initializer; normal completion yields `this` from the closure for an initializer and nil otherwise; errors pass through; too few arguments fault |
| LoxFunctions.Bind | src/Interpreter/ILoxCallable.LoxFunction.cs:41-46 | a new frame under the closure holding only `this`, and a function with the same declaration and flag closed over it; nothing existing changes |
| LoxFunctions.ParametersBound | src/Interpreter/ILoxCallable.LoxFunction.cs:22-26 | with distinct parameter names and as many arguments, the call frame binds exactly the parameters, the i-th to the i-th argument |
| LoxFunctions.BindDistinct | src/Interpreter/ILoxCallable.LoxFunction.cs:23-26 | the binding loop adds exactly the parameter names, the i-th bound to the i-th argument |
| LoxFunctions.BoundThisAtDistanceOne | src/Interpreter/ILoxCallable.LoxFunction.cs:20-46 | in the call frame of a bound method, `this` is the bound instance at distance 1 |
| LoxFunctions.InitializerYieldsInstance | src/Interpreter/ILoxCallable.LoxFunction.cs:28-38 | a bound initializer completing normally yields the value `this` has in its bound frame, never a missing-key fault, and so its instance when the body leaves that frame untouched; a bare `return;` yields nil |
| LoxClasses.FindMethod | src/Interpreter/LoxClass.cs:39-47 | finds a method exactly when the class's own table has the name, and returns it bound to the instance |
| LoxClasses.Call | src/Interpreter/LoxClass.cs:29-37 | without `init` the call yields a fresh instance with no fields; with `init`, too few arguments fault, and otherwise `init` is bound to the new instance and called: a normal completion yields the instance whatever `init` returned, and its failure or fault is the call's own |
| LoxClasses.InitOutcome | src/Interpreter/LoxClass.cs:29-37 | an `init` body that returns, with or without a value, or that runs to its end, yields the new instance; an error or host fault raised in the body is the class call's own |
| LoxInstances.Get | src/Interpreter/LoxInstance.cs:15-26 | a field wins; otherwise the class's method bound to the instance as a new function object; otherwise "Undefined property '<name>'." |
| LoxInstances.Set | src/Interpreter/LoxInstance.cs:28-31 | writes the field, creating or replacing it; the class, the other fields, other objects and the frames are unchanged |
| LoxInstances.GetAfterSet | src/Interpreter/LoxInstance.cs:15-31 | after a write, a read of the same name gives the value written, even over a method |
| LoxInstances.GetAfterSetOther | src/Interpreter/LoxInstance.cs:28-31 | a write does not change a read of any other name |
| LoxInstances.NewInstanceReadsMethods | src/Interpreter/LoxInstance.cs:8-26 | a new instance has no fields: a read fails exactly when the class has no such method |
| AstPrinter.Parenthesize | src/Core/AstPrinter.cs:179-194 | the form opens with "(" and closes with ")" |
| AstPrinter.PrintExpr | src/Core/AstPrinter.cs:19-162 | every expression except literals, variables and `this` prints as one parenthesised form |
| AstPrinter.PrintStmt | src/Core/AstPrinter.cs:29-177 | every statement prints as one parenthesised form |
| AstPrinter.PrintFunction | src/Core/AstPrinter.cs:74-94 | a function prints as one parenthesised form |
| AstPrinter.PrintEach | src/Core/AstPrinter.cs:223-230 | the i-th text is the i-th expression printed, one text per expression |
| AstPrinter.SeparatedArguments | src/Core/AstPrinter.cs:220-233 | when no argument is the first one, each argument is printed after ", " |
| AstPrinter.ArgumentsJoined | src/Core/AstPrinter.cs:220-234 | a non-empty argument list whose first node occurs once prints as "[" + the arguments joined by ", " + "]" |
| AstPrinter.ParametersJoined | src/Core/AstPrinter.cs:79-83 | the parameters print as their lexemes joined by single spaces |
| AstPrinter.PrintedCall | src/Core/AstPrinter.cs:43-46 | a call with distinct node ids prints as "(call callee [a1, a2])", or "(call callee )" with no arguments |
| AstPrinter.ParenthesizeBalanced | src/Core/AstPrinter.cs:179-194 | a form of balanced parts under a name without parentheses is balanced |
| AstPrinter.PrefixedBalanced | src/Core/AstPrinter.cs:185-189 | balanced parts after a separator without parentheses stay balanced |
| AstPrinter.ExprBalanced | src/Core/AstPrinter.cs:19-162 | when no lexeme, name or literal text contains a parenthesis, a printed expression has as many "(" as ")" |
| AstPrinter.ArgumentListBalanced | src/Core/AstPrinter.cs:220-234 | such an argument list prints balanced |
| AstPrinter.ArgumentsBalanced | src/Core/AstPrinter.cs:224-231 | the separated arguments print balanced |
| AstPrinter.StmtBalanced | src/Core/AstPrinter.cs:29-177 | under the same condition, a printed statement is balanced |
| AstPrinter.IfBalanced | src/Core/AstPrinter.cs:106-115 | a printed `if` or `if-else` is balanced |
| AstPrinter.ReturnBalanced | src/Core/AstPrinter.cs:133-137 | a printed return is balanced |
| AstPrinter.BareReturnBalanced | src/Core/AstPrinter.cs:135 | "(return)" is balanced |
| AstPrinter.VarBalanced | src/Core/AstPrinter.cs:164-172 | a printed `var` is balanced |
| AstPrinter.ClassBalanced | src/Core/AstPrinter.cs:48-67 | a printed class is balanced |
| AstPrinter.FunctionBalanced | src/Core/AstPrinter.cs:74-94 | a printed function is balanced |
| AstPrinter.ParametersBalanced | src/Core/AstPrinter.cs:79-83 | parameters without parentheses print balanced |
| AstPrinter.StmtsBalanced | src/Core/AstPrinter.cs:34-37 | a block's statements print balanced |
| AstPrinter.MethodsBalanced | src/Core/AstPrinter.cs:60-63 | a class's methods print balanced |

## Left out

- Console and logger I/O (`ConsoleLogger`, `ILogger`, `Console.WriteLine`). Diagnostics are
  returned as sequences, and `print` appends to an output trace.
- `Program.cs`: command-line handling, file reading, the REPL and exit codes. This is I/O.
- Scanner: the source is a sequence of Unicode scalar values, while the host indexes UTF-16
  code units. A character outside the Basic Multilingual Plane is one step here and two in
  the host: the host reports "Unexpected character." twice for it and cuts later lexemes
  at other offsets: for "😀(" the lexeme cut as written faults here as `Substring(1, 2)` and
  in the host as `Substring(2, 3)`.
- Floating point. Arithmetic, comparison, double `Equals` and number formatting are
  uninterpreted functions in `Arithmetic`, and `showNumber` plays the same part in the
  printer and in token text.
- Interpreter.Stringify: states only the ".0" stripping, because number text is host
  formatting.
- The evaluator's `NotImplementedException` visitors. Call, get, set, `super`, `this`,
  class, function, `return` and `while` are `Crash(NotImplemented)`, with no borrowed
  semantics.
- Interpreter.Evaluate: its contract states the heap and frame invariants only, because one
  contract per variant made the verification conditions too large. The value rules are
  the contracts of BinaryOp, UnaryOp, IsTruthy and IsEqual, which OperatorsApplied connects
  to the evaluator, and the lemmas on logic, variables and assignment.
- Interpreter.Execute: its contract states the frame invariants. The behaviour of `var`,
  `if` and `print` is in the function itself, with VarThenRead as its lemma; there is no
  separate lemma for `if` choosing one branch or `print` appending one line.
- The resolver's annotation storage. `_interpreter.Resolve` is not defined in
  `Interpreter.cs`, so the annotations stay an effects trace. The interpreter does not
  consume them.
- `LoxFunction.Call`'s block executor is the `BodyRunner` parameter. `Interpreter.ExecuteBlock`
  is private and the interpreter cannot call functions in this snapshot.
- `ILoxCallable.NativeLoxCallable.cs`: it wraps an opaque host delegate.
- `ILoxCallable.cs`: a superseded copy of the callable classes.
- `AstPrinterVisitor.cs`: an older duplicate of `AstPrinter` for expressions only.
- `RuntimeError.cs` and `Return.cs` as exception classes. They are `Failure` and
  `Returning` outcomes.
- Object identity in the printer. `Parenthesize2` compares an argument with the first
  by reference, and the model compares node ids; AstPrinter.PrintedCall assumes distinct ids,
  as the parser guarantees. A function's parameters are compared by token reference, which
  the model reads as "not the first position", AstPrinter.Parameters.
- AstPrinter.PrintExpr: the per-variant texts ("(group e)", "(= name v)", "(. obj name)" and
  so on) are given by the function itself. Its contract states the enclosing parentheses,
  and ExprBalanced the parenthesis counts.
- AstPrinter.PrintStmt: the per-variant texts ("(; e)", "(var name = init)", "(return)" and
  so on) are given by the function itself. Its contract states the enclosing parentheses,
  and StmtBalanced the parenthesis counts.
- Resolver.ResolveClass: the `super` scope a subclass opens around the `this` scope is in the
  function itself; only the `this` distance has a lemma, ThisInMethodAtDistanceOne.
- Token literals other than nil, true, false, numbers and strings. The scanner of this
  snapshot produces no literals.
- Parser.ParseRoundTrip: covers only trees the grammar can produce, without node ids.
  Grouping nodes must be explicit, and the token after the expression must not be an
  operator.
- Class arity and the `ToString` of functions, classes and instances are plain functions
  without a lemma. Their text is in `Stringify` only.

## Findings

| source | as written | input that shows it | evidently intended | confidence | as-written member | corrected member |
|---|---|---|---|---|---|---|
| src/Core/Scanner.cs:118 | `Source.Substring(_start, _current)` passes the end cursor as the length | " (" faults on its first token; "(( " gives the second token the lexeme "( " | `Source.Substring(_start, _current - _start)`, the characters of the lexeme | not executed | Scanner.AsWrittenFaultsOnIndentedToken, Scanner.AsWrittenMiscutsSecondLexeme | Scanner.ScanTokensMatchesLex, Scanner.CorrectedCutsSecondLexeme |
