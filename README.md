# Lox evaluation core in Dafny

This project models the evaluation engine of a tree-walking interpreter for
Lox, the small dynamically typed language of *Crafting Interpreters*, in its
Java implementation. It covers four parts:

- **Values and operators.** Nil, booleans, numbers, strings and function
  values. It covers truthiness, equality, the operand checks, the unary
  and binary operators, and the display text of a value
  (`Values`, in `values.dfy`).
- **Environment chain.** Each scope is a mutable map from names to values
  with a link to its enclosing scope. `define` writes only the local map.
  `get` and `assign` walk the chain and fail with "Undefined var" when no
  scope binds the name (`Environments`).
- **Interpreter.** The visit methods for Literal, Grouping, Logical,
  Unary, Binary, Variable and Assign expressions, and for Expression,
  Print, Var, Block, If and While statements (`Interp`). There is also the
  block execution that swaps the current environment in and restores it,
  and the top-level `interpret` loop that stops at the first runtime error.
- **Calls and resolution.** A function call binds its parameters in a
  fresh scope and runs the body as a block (`Callables`). The resolver has
  a stack of block scopes (`Resolution`).

The mutable objects are Dafny classes:
- `Environment` keeps its `values` map and `enclosing` link. A ghost list
  of its ancestors records that the chain is finite and ends at the global
  environment.
- `Interpreter` keeps the current environment and the printed lines.
- `Resolver` keeps its stack of scopes.

Their methods are proved against a reference semantics on values,
`Semantics.Eval`, `Semantics.Exec`, `Semantics.ExecWhile` and
`Semantics.ExecList`. That semantics works on the chain's maps, innermost
first, and on the output. The lemmas in `Semantics` then state what the
language promises about it: short-circuiting, evaluation order, shadowing,
the scope of the declarations of every block, and loop re-testing.

Runtime errors and the `Return` exception become values:
- `Result<_, Failure>` carries a runtime error.
- `Completion` is `Normal` or `Returning(value)`.

Numbers are `real`. The host's `Double.toString` is a parameter
`numberText`, and the interpreter appends printed lines to `output`.

Where the code departs from the Lox design in *Crafting Interpreters*, the
model follows the code:
- A call's scope is parented on the global environment, not on a captured
  closure (LoxFunction.java:25).
- `+` on two operands that are neither two numbers nor include a string
  yields nil rather than raising an error (Interpreter.java:252-263 and 276).
  The arrow `switch` does not fall through to `/`.
- There is no arity check. A call with too few arguments fails in Java's
  list access, which is why `Callables.Call` requires enough arguments.

The one exception is the division-by-zero guard, which is listed under
Findings. The guard's own message shows that it is meant to raise on a
zero divisor, so the model raises "Cannot divide by 0!" there. It also
states the guard as written.

## Model

| member | source | states |
|---|---|---|
| Values.IsTruthy | src/com/craftinginterpreters/lox/Interpreter.java:91-95 | a value is falsy exactly when it is nil or false; 0 and "" are truthy |
| Values.IsEqual | src/com/craftinginterpreters/lox/Interpreter.java:97-102 | nil equals only nil; other values go through the same model of Java `equals` as the division guard, and are equal exactly when they are the same value, so values of different kinds are never equal |
| Values.StripPointZero | src/com/craftinginterpreters/lox/Interpreter.java:108-111 | a text ending in ".0" loses exactly that suffix; any other text is unchanged |
| Values.IntegralNumbersPrintWithoutPointZero | src/com/craftinginterpreters/lox/Interpreter.java:104-115 | a number the host renders as `digits.0` is displayed as `digits` |
| Values.CheckNumberOperand | src/com/craftinginterpreters/lox/Interpreter.java:80-83 | succeeds with the number exactly when the operand is a number; otherwise "Operand must be a number." at the operator |
| Values.CheckNumberOperands | src/com/craftinginterpreters/lox/Interpreter.java:85-89 | succeeds with both numbers exactly when both operands are numbers; otherwise "Operands must be numbers." at the operator |
| Values.ApplyUnary | src/com/craftinginterpreters/lox/Interpreter.java:56-67 | `-` negates a number and raises on any other operand; `!` is the negated truthiness of any value; any other operator yields nil |
| Values.ApplyBinary | src/com/craftinginterpreters/lox/Interpreter.java:220-277 | `> >= < <= - * /` raise exactly when an operand is not a number or, for `/`, the divisor is zero, with the "Operands must be numbers." message for the former; on two numbers they yield the comparison, difference, product or quotient of the operands; `==` and `!=` never raise and are each other's negation; `+` never raises; other operators yield nil |
| Values.PlusCases | src/com/craftinginterpreters/lox/Interpreter.java:252-263 | `+` gives the sum of two numbers, the concatenated display texts when a string is on either side, and nil for every other pair |
| Values.ConcatenationKeepsStringOperand | src/com/craftinginterpreters/lox/Interpreter.java:258-260 | a string operand is kept as is and the other operand's display text is attached on its side |
| Values.DivisionByZeroRaises | src/com/craftinginterpreters/lox/Interpreter.java:264-270 | `/` on two numbers raises "Cannot divide by 0!" exactly for a zero divisor and otherwise yields the quotient |
| Values.DivisorGuardAsWrittenNeverFires | src/com/craftinginterpreters/lox/Interpreter.java:266-268 | the guard as written is false for every non-nil value, so it can never raise |
| Values.DivisorGuardAsWrittenMissesZero | src/com/craftinginterpreters/lox/Interpreter.java:264-270 | the number zero passes the written guard although it is a zero divisor, and the corrected operator raises on `1 / 0` |
| Values.FromLiteral | src/com/craftinginterpreters/lox/Interpreter.java:10-12 | a literal evaluates to the value of its own kind with its own content, and never to a function |
| Values.Stringify | src/com/craftinginterpreters/lox/Interpreter.java:104-115 | nil shows as "nil", booleans as "true"/"false", strings as themselves without quotes, functions as "<fn name>", and numbers as the host's text with a trailing ".0" removed |
| Values.DivisorGuardAsWritten | src/com/craftinginterpreters/lox/Interpreter.java:266 | the written guard holds exactly when the operand is held as the Java Integer 0 |
| Values.FunctionToString | src/com/craftinginterpreters/lox/LoxFunction.java:18-20 | the text is "<fn ", the function's name, then ">", so the name can be read back from it |
| Environments.FindScope | src/com/craftinginterpreters/lox/Environment.java:22-30 | the position found binds the name and no scope before it does; it is past the end only when no scope binds it |
| Environments.Lookup | src/com/craftinginterpreters/lox/Environment.java:22-34 | a name is found exactly when some scope binds it, and the value found is a binding of it |
| Environments.LookupResult | src/com/craftinginterpreters/lox/Environment.java:22-34 | reading fails exactly when no scope binds the name, and the failure is "Undefined var" naming it; a successful read yields the value `Lookup` finds, the innermost binding |
| Environments.AssignIn | src/com/craftinginterpreters/lox/Environment.java:36-48 | assignment succeeds exactly when some scope binds the name; it keeps every scope's set of names, so it never creates a binding; the name then reads the new value; every scope other than the innermost binding one is unchanged |
| Environments.DefineIn | src/com/craftinginterpreters/lox/Environment.java:18-20 | only the innermost scope changes; it gains the name, its other names keep their values, and the name then reads the defined value |
| Environments.FindScopeKeys | src/com/craftinginterpreters/lox/Environment.java:23-30 | two chains whose scopes bind the same names resolve every name to the same position |
| Environments.LookupShadows | src/com/craftinginterpreters/lox/Environment.java:23-25 | an inner binding hides every outer one |
| Environments.LookupSkips | src/com/craftinginterpreters/lox/Environment.java:30 | a scope that does not bind the name is passed over in favour of the enclosing chain |
| Environments.AssignAtInnermostBinding | src/com/craftinginterpreters/lox/Environment.java:36-48 | assignment replaces the value in the innermost scope that binds the name, and fails when none does |
| Environments.AssignedFurtherOut | src/com/craftinginterpreters/lox/Environment.java:42-45 | when an inner scope does not bind the name, the binding scope lies one further out, and updating it in the enclosing chain is updating it in the whole chain |
| Environments.AssignSkips | src/com/craftinginterpreters/lox/Environment.java:42-45 | assignment through a scope that does not bind the name leaves that scope alone and assigns in the enclosing chain |
| Environments.AssignLeavesOtherNames | src/com/craftinginterpreters/lox/Environment.java:36-45 | assigning one name changes what no other name reads |
| Environments.DefineThenLookup | src/com/craftinginterpreters/lox/Environment.java:18-25 | after `define`, reading the same name in the same environment yields the defined value |
| Environments.ValuesOf | src/com/craftinginterpreters/lox/Environment.java:8 | a chain's abstract state lists each environment's map in chain order |
| Environments.Environment.constructor | src/com/craftinginterpreters/lox/Environment.java:10-17 | a new environment is empty and valid; with no enclosing environment it is global, otherwise its chain is the enclosing chain with it in front |
| Environments.Environment.EnclosingValid | src/com/craftinginterpreters/lox/Environment.java:7 | the enclosing environment of a valid chain is itself a valid chain, one link shorter |
| Environments.Environment.AncestorTail | src/com/craftinginterpreters/lox/Environment.java:7 | every ancestor of a valid chain is itself valid, and its own ancestors are exactly the ones further out |
| Environments.Environment.ChainTail | src/com/craftinginterpreters/lox/Environment.java:7 | every environment of a chain heads the rest of it, so the chain is finite |
| Environments.Environment.ChainDistinct | src/com/craftinginterpreters/lox/Environment.java:7 | no environment occurs twice in a chain |
| Environments.Environment.NotOwnAncestor | src/com/craftinginterpreters/lox/Environment.java:7 | an environment is not among its own enclosing environments, so writing its map leaves theirs alone |
| Environments.Environment.OutermostOnlyLast | src/com/craftinginterpreters/lox/Environment.java:10-13 | the global environment, which ends the chain, occurs nowhere else in it |
| Environments.Environment.ScopeMapsUnfold | src/com/craftinginterpreters/lox/Environment.java:7-8 | an environment's scopes are its own map followed by the enclosing chain's scopes |
| Environments.Environment.OnlyOwnMapChanged | src/com/craftinginterpreters/lox/Environment.java:37-39 | when only this environment's own map has changed, only the first scope of the chain has changed, to that map |
| Environments.Environment.OnlyOutermostChanged | src/com/craftinginterpreters/lox/Environment.java:7-8 | when only the global map has changed, only the last scope of the chain has changed |
| Environments.Environment.Define | src/com/craftinginterpreters/lox/Environment.java:18-20 | inserts or overwrites the name in this map only, and the chain's scopes become `DefineIn` of the old ones |
| Environments.Environment.Get | src/com/craftinginterpreters/lox/Environment.java:22-34 | returns exactly `LookupResult` of the chain's scopes: the innermost binding, or "Undefined var" |
| Environments.Environment.Assign | src/com/craftinginterpreters/lox/Environment.java:36-48 | when the name is bound somewhere, only the innermost scope binding it changes, to hold the new value; otherwise "Undefined var" is raised and nothing changes |
| Semantics.Eval | src/com/craftinginterpreters/lox/Interpreter.java:122-124 | evaluating an expression never adds or removes a scope |
| Semantics.EvalLogical | src/com/craftinginterpreters/lox/Interpreter.java:14-26 | evaluating `and`/`or` never adds or removes a scope |
| Semantics.EvalUnary | src/com/craftinginterpreters/lox/Interpreter.java:55-67 | evaluating a unary expression never adds or removes a scope |
| Semantics.EvalBinary | src/com/craftinginterpreters/lox/Interpreter.java:220-277 | evaluating a binary expression never adds or removes a scope |
| Semantics.EvalAssign | src/com/craftinginterpreters/lox/Interpreter.java:204-209 | evaluating an assignment never adds or removes a scope |
| Semantics.Exec | src/com/craftinginterpreters/lox/Interpreter.java:126-128 | executing a statement keeps the number of scopes, and the printed lines only grow |
| Semantics.ExecBlock | src/com/craftinginterpreters/lox/Interpreter.java:147-151 | for every block, whatever its statements: it ends with as many scopes as it started with, every one of them binds the same names as before, so the block's declarations do not outlive it; the printed lines only grow |
| Semantics.ExecIf | src/com/craftinginterpreters/lox/Interpreter.java:172-180 | an `if` keeps the number of scopes, and the printed lines only grow |
| Semantics.ExecWhile | src/com/craftinginterpreters/lox/Interpreter.java:211-217 | a loop keeps the number of scopes, and the printed lines only grow |
| Semantics.ExecList | src/com/craftinginterpreters/lox/Interpreter.java:137-139 | a statement list keeps the number of scopes, and the printed lines only grow |
| Semantics.OrShortCircuits | src/com/craftinginterpreters/lox/Interpreter.java:18-21 | `or` with a truthy left value yields exactly the left operand's outcome; the right operand is not evaluated |
| Semantics.AndShortCircuits | src/com/craftinginterpreters/lox/Interpreter.java:22-23 | `and` with a falsy left value yields exactly the left operand's outcome; the right operand is not evaluated |
| Semantics.LogicalYieldsRightOperand | src/com/craftinginterpreters/lox/Interpreter.java:25 | when the left value does not decide, the result is the right operand's own outcome, not a boolean made from it |
| Semantics.BangNegatesTruthiness | src/com/craftinginterpreters/lox/Interpreter.java:63-64 | `!e` is the negated truthiness of `e`'s value, whatever its kind |
| Semantics.LeftOperandFirst | src/com/craftinginterpreters/lox/Interpreter.java:222-223 | a binary expression evaluates its left operand first; an error there is the result, and an error on the right is seen only after the left succeeded |
| Semantics.EqualityNeverRaises | src/com/craftinginterpreters/lox/Interpreter.java:246-251 | with evaluable operands `==` and `!=` never raise, leave the same scopes, and `!=` is the negation of `==` |
| Semantics.AssignYieldsStoredValue | src/com/craftinginterpreters/lox/Interpreter.java:204-209 | a successful assignment yields the right side's value, and the name then reads back as that value |
| Semantics.AssignToUnboundFails | src/com/craftinginterpreters/lox/Interpreter.java:204-209 | assigning a name that no scope binds raises "Undefined var" and binds nothing |
| Semantics.VarWithoutInitializerDefinesNil | src/com/craftinginterpreters/lox/Interpreter.java:194-202 | `var` without an initializer defines the name as nil in the innermost scope and leaves the outer scopes alone |
| Semantics.IfChoosesBranch | src/com/craftinginterpreters/lox/Interpreter.java:172-180 | `if` runs the then-branch on a truthy condition, otherwise the else-branch when present, otherwise nothing |
| Semantics.WhileStopsOnFalsyCondition | src/com/craftinginterpreters/lox/Interpreter.java:211-217 | a loop whose condition is falsy completes normally without running its body |
| Semantics.WhileRetestsCondition | src/com/craftinginterpreters/lox/Interpreter.java:211-217 | after a truthy test and a normal body run, the loop continues as a fresh loop from the new state, so the condition is tested again |
| Semantics.WhileExits | src/com/craftinginterpreters/lox/Interpreter.java:211-217 | a failing or falsy test, or an exhausted bound, ends the loop with the test's error, a normal completion, or the bound error |
| Semantics.WhileBodyExits | src/com/craftinginterpreters/lox/Interpreter.java:211-217 | a body that raises or returns ends the loop with that completion |
| Semantics.ExecListAppend | src/com/craftinginterpreters/lox/Interpreter.java:43-51 | statements run in order; once a prefix raises an error or returns, nothing after it runs |
| Semantics.PlainDeclarationsStayLocal | src/com/craftinginterpreters/lox/Interpreter.java:194-202 | declarations with literal initializers write only the innermost scope, raise nothing and print nothing |
| Semantics.EvalKeepsNames | src/com/craftinginterpreters/lox/Interpreter.java:117-124 | evaluating any expression neither declares nor removes a name in any scope |
| Semantics.ExecKeepsOuterNames | src/com/craftinginterpreters/lox/Interpreter.java:126-128 | any statement declares names only in the innermost scope; every scope further out binds the same names afterwards |
| Semantics.ExecWhileKeepsOuterNames | src/com/craftinginterpreters/lox/Interpreter.java:211-217 | a loop declares names only in the innermost scope |
| Semantics.ExecListKeepsOuterNames | src/com/craftinginterpreters/lox/Interpreter.java:137-145 | a statement list declares names only in the innermost scope |
| Semantics.BlockDeclarationsVanish | src/com/craftinginterpreters/lox/Interpreter.java:147-151 | a block of such declarations changes nothing outside it: its declarations are gone when it ends |
| Semantics.ShadowingInBlock | src/com/craftinginterpreters/lox/Interpreter.java:147-151 | `var a = "outer"; { var a = "inner"; print a; } print a;` prints "inner" then "outer" and leaves the outer `a` as it was |
| Semantics.ExecNeverReturns | src/com/craftinginterpreters/lox/Interpreter.java:189-192 | no modelled statement completes by returning, because the return statement is a stub |
| Semantics.ExecWhileNeverReturns | src/com/craftinginterpreters/lox/Interpreter.java:211-217 | a loop completes normally or with an error, never by returning |
| Semantics.ExecListNeverReturns | src/com/craftinginterpreters/lox/Interpreter.java:137-139 | a statement list completes normally or with an error, never by returning |
| Interp.Interpreter.constructor | src/com/craftinginterpreters/lox/Interpreter.java:7 | a new interpreter runs in an empty global environment and has printed nothing |
| Interp.Interpreter.ChildValid | src/com/craftinginterpreters/lox/Interpreter.java:149 | a scope made inside the current environment has a chain that is the current one with it in front, still ending at the globals |
| Interp.Interpreter.Evaluate | src/com/craftinginterpreters/lox/Interpreter.java:117-124 | the value or error and the scopes afterwards are exactly those of `Eval` on the scopes before |
| Interp.Interpreter.VisitLogicalExpr | src/com/craftinginterpreters/lox/Interpreter.java:14-26 | outcome and scopes are those of `Eval`, so the short-circuit lemmas apply to the object |
| Interp.Interpreter.VisitUnaryExpr | src/com/craftinginterpreters/lox/Interpreter.java:55-67 | outcome and scopes are those of `Eval` |
| Interp.Interpreter.VisitBinaryExpr | src/com/craftinginterpreters/lox/Interpreter.java:220-277 | outcome and scopes are those of `Eval`: left operand, then right operand, then the operator |
| Interp.Interpreter.VisitAssignExpr | src/com/craftinginterpreters/lox/Interpreter.java:204-209 | outcome and scopes are those of `Eval`: the value is written where the name is bound and yielded |
| Interp.Interpreter.Execute | src/com/craftinginterpreters/lox/Interpreter.java:126-128 | the completion or error, the scopes and the output afterwards are those of `Exec`, and the current environment is the same object afterwards |
| Interp.Interpreter.VisitExpressionStmt | src/com/craftinginterpreters/lox/Interpreter.java:158-162 | completion, scopes and output are those of `Exec` |
| Interp.Interpreter.VisitPrintStmt | src/com/craftinginterpreters/lox/Interpreter.java:182-187 | completion, scopes and output are those of `Exec`: the display text is appended as one line |
| Interp.Interpreter.VisitVarStmt | src/com/craftinginterpreters/lox/Interpreter.java:194-202 | completion, scopes and output are those of `Exec`: the name is defined in the current environment |
| Interp.Interpreter.VisitBlockStmt | src/com/craftinginterpreters/lox/Interpreter.java:147-151 | completion, scopes and output are those of `Exec`: the block runs in a fresh scope that is discarded afterwards |
| Interp.Interpreter.VisitIfStmt | src/com/craftinginterpreters/lox/Interpreter.java:172-180 | completion, scopes and output are those of `Exec` |
| Interp.Interpreter.VisitWhileStmt | src/com/craftinginterpreters/lox/Interpreter.java:211-217 | completion, scopes and output are those of `ExecWhile` with the host's iteration bound |
| Interp.Interpreter.WhileRound | src/com/craftinginterpreters/lox/Interpreter.java:211-217 | one test of the condition and at most one run of the body: either the loop goes round with one iteration fewer and the same outcome ahead, or the loop's outcome is reached |
| Interp.Interpreter.ExecuteBlock | src/com/craftinginterpreters/lox/Interpreter.java:132-145 | the given environment's scopes and the output end as `ExecList` says; the previous current environment is current again however the statements ended |
| Interp.Interpreter.Interpret | src/com/craftinginterpreters/lox/Interpreter.java:43-51 | the program runs as `ExecList` says; the first runtime error is reported and nothing after it runs |
| Callables.BindParams | src/com/craftinginterpreters/lox/LoxFunction.java:27-29 | the call scope binds exactly the parameter names |
| Callables.BindParamsValues | src/com/craftinginterpreters/lox/LoxFunction.java:27-29 | parameter i is bound to argument i unless a later parameter has the same name |
| Callables.ArityCountsBindings | src/com/craftinginterpreters/lox/LoxFunction.java:13-15 | with distinct parameter names the call scope holds exactly arity bindings, parameter i bound to argument i |
| Callables.CallResult | src/com/craftinginterpreters/lox/LoxFunction.java:35-40 | a returned value is the call's result, a body that completes normally yields nil, and an error propagates |
| Callables.BindParameters | src/com/craftinginterpreters/lox/LoxFunction.java:25-29 | the call environment is fresh, inside the global environment, and holds the bound parameters |
| Callables.RunBody | src/com/craftinginterpreters/lox/LoxFunction.java:25-36 | the body runs as `ExecList` from the bound parameters inside the global scope, and only the global map and the output change |
| Callables.Call | src/com/craftinginterpreters/lox/LoxFunction.java:23-41 | the body runs as `ExecList` from the bound parameters inside the global scope, whatever the caller's scopes are; the result is `CallResult` of its completion; the caller's environment is current again and only its global scope can have changed |
| Resolution.Visits | src/com/craftinginterpreters/lox/Resolver.java:17-25 | a walk visits at least its own statements, and never at a depth below the one it starts at |
| Resolution.VisitsInOrder | src/com/craftinginterpreters/lox/Resolver.java:17-21 | the statements visited at the starting depth are exactly the list's own statements, in order |
| Resolution.VisitsConcat | src/com/craftinginterpreters/lox/Resolver.java:17-21 | resolving two lists one after the other visits what resolving their concatenation visits |
| Resolution.BlockBodyOneDeeper | src/com/craftinginterpreters/lox/Resolver.java:39-45 | a block's own statements are visited right after it, with one more scope on the stack |
| Resolution.Resolver.constructor | src/com/craftinginterpreters/lox/Resolver.java:11-15 | the stack starts empty, so at top level every name is global |
| Resolution.Resolver.BeginScope | src/com/craftinginterpreters/lox/Resolver.java:31-33 | pushes one empty scope and leaves the scopes below it unchanged |
| Resolution.Resolver.EndScope | src/com/craftinginterpreters/lox/Resolver.java:35-37 | removes exactly the innermost scope |
| Resolution.Resolver.Resolve | src/com/craftinginterpreters/lox/Resolver.java:17-21 | leaves the stack as it found it and visits the statements as `Visits` says |
| Resolution.Resolver.ResolveStmt | src/com/craftinginterpreters/lox/Resolver.java:23-25 | leaves the stack as it found it and visits the statement as `Visits` says |
| Resolution.Resolver.VisitBlockStmt | src/com/craftinginterpreters/lox/Resolver.java:39-45 | leaves the stack as it found it, and resolves the block's statements one scope deeper |

## Left out

- The visit methods that only return null: Set, Super, This, Get and Call expressions, Class, Function and Return statements, and the unused duplicate `visitBinary` (Interpreter.java:29-41, 75-78, 153-156, 164-167, 189-192, 279-287). They have no behaviour, so these node kinds are not in the `Expr` and `Stmt` datatypes. Because the return statement is a stub, nothing produces `Returning`. The variant exists so that `Callables.Call` can catch it (`Semantics.ExecNeverReturns`).
- IEEE-754 doubles. Numbers are `real`, so rounding, infinities, NaN and negative zero are not modelled.
- `Double.toString`. It is the parameter `numberText`, and only the ".0" stripping is modelled.
- Console output. `System.out.println` is modelled as appending to the interpreter's `output`.
- Error reporting. `Lox.runtimeError` lives in a file that is not part of this model. `Interp.Interpreter.Interpret` returns the error it would report.
- GenerateAst.java. It writes Java source files and is tooling.
- Semantics.ExecWhile: a loop that runs more than the host's `maxIterations` iterations ends with `IterationBoundReached`, which does not exist in the source. The source keeps iterating; the model agrees with it only on loops that finish within `maxIterations` iterations.
- Interp.Interpreter.VisitWhileStmt: the same iteration bound as `Semantics.ExecWhile`.
- Callables.Call: requires at least as many arguments as parameters. With fewer, `arguments.get(i)` throws an IndexOutOfBoundsException, which is outside Lox's error model. Extra arguments are ignored, as in the source.
- Resolution.Resolver.EndScope: requires a non-empty stack. `Stack.pop` on an empty stack throws, but `visitBlockStmt` always pushes first, so no path in the source reaches that case.
- Resolution.Resolver.ResolveStmt: statements other than blocks leave the stack alone. The source's resolver is an abstract class that defines no other visit method, and no subclass is part of this model.
- The resolver's body calls `resolver(stmt.statements)` (Resolver.java:42), which names no method. It is modelled as the evident `resolve`.
- The resolver's `interpreter` field is kept but never used, as in the source.
- `globals`. `LoxFunction.call` reads `interpreter.globals`, but the interpreter declares only `environment`. The model's `Interpreter` has `globals`, the environment it starts in, and it is the outermost environment of every chain.
- Values.IsEqual: function values compare by their declaration, not by object identity as Java's default `equals` does. Two functions made from one declaration are equal in the model. No statement of this subset creates a function value.
- Stack overflow and the JVM exception flags in Return.java. These are host concerns.

## Findings

| source | as written | input that shows it | evidently intended | confidence | as-written member | corrected member |
|---|---|---|---|---|---|---|
| src/com/craftinginterpreters/lox/Interpreter.java:266 | `right.equals(0)` compares the Double operand with the Integer 0, which is never equal, so "Cannot divide by 0!" is never raised and the division goes ahead | `1 / 0` | raise "Cannot divide by 0!" when the divisor is the number zero | not executed | Values.DivisorGuardAsWritten (shown by Values.DivisorGuardAsWrittenMissesZero) | Values.ApplyBinary (proved by Values.DivisionByZeroRaises) |
