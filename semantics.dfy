/**
 * The reference semantics of the evaluator, on values: what evaluating an
 * expression and executing a statement do to the chain of scope maps
 * (innermost first) and to the printed output. The interpreter object is
 * proved to follow these functions step by step; the lemmas below state
 * what the language promises about them.
 */
module Semantics {
  import opened Wrappers
  import opened Ast
  import opened Values
  import opened Environments

  /**
   * How a statement finished when it raised no error: normally, or
   * unwinding with a function's return value. Nothing in the modelled
   * statements starts a return (the return statement is a stub in the
   * interpreter); the variant is carried so that a call can catch it.
   */
  datatype Completion = Normal | Returning(value: Value)

  /** What statements act on: the scope maps, innermost first, and the lines printed so far. */
  datatype Config = Config(scopes: Scopes, output: seq<string>)

  /**
   * What the model takes from the host: the text of a number (Java's
   * Double.toString) and how many iterations one execution of a `while`
   * statement may run before the model stops it.
   */
  datatype Host = Host(numberText: real -> string, maxIterations: nat)

  /**
   * Evaluating an expression: its value or error, and the scopes afterwards.
   * Each compound kind of expression has its own function below, as each
   * has its own visit method in the interpreter.
   */
  function Eval(e: Expr, scopes: Scopes, host: Host): (res: (Result<Value, Failure>, Scopes))
    ensures |res.1| == |scopes|
    decreases e, 1
  {
    match e
    case Literal(l) => (Ok(FromLiteral(l)), scopes)
    case Grouping(inner) => Eval(inner, scopes, host)
    case Logical(_, _, _) => EvalLogical(e, scopes, host)
    case Unary(_, _) => EvalUnary(e, scopes, host)
    case Binary(_, _, _) => EvalBinary(e, scopes, host)
    case Variable(name) => (LookupResult(scopes, name), scopes)
    case Assign(_, _) => EvalAssign(e, scopes, host)
  }

  /** `or` and `and`: the left operand decides whether the right one is evaluated at all. */
  function EvalLogical(e: Expr, scopes: Scopes, host: Host): (res: (Result<Value, Failure>, Scopes))
    requires e.Logical?
    ensures |res.1| == |scopes|
    decreases e, 0
  {
    var (l, s1) := Eval(e.left, scopes, host);
    if l.Err? then (l, s1)
    else if e.operator.kind == Or && IsTruthy(l.value) then (l, s1)
    else if e.operator.kind != Or && !IsTruthy(l.value) then (l, s1)
    else Eval(e.right, s1, host)
  }

  /** A unary operator applied to its evaluated operand. */
  function EvalUnary(e: Expr, scopes: Scopes, host: Host): (res: (Result<Value, Failure>, Scopes))
    requires e.Unary?
    ensures |res.1| == |scopes|
    decreases e, 0
  {
    var (v, s1) := Eval(e.right, scopes, host);
    if v.Err? then (v, s1) else (ApplyUnary(e.operator, v.value), s1)
  }

  /** A binary operator applied to its operands, evaluated left first. */
  function EvalBinary(e: Expr, scopes: Scopes, host: Host): (res: (Result<Value, Failure>, Scopes))
    requires e.Binary?
    ensures |res.1| == |scopes|
    decreases e, 0
  {
    var (l, s1) := Eval(e.left, scopes, host);
    if l.Err? then (l, s1)
    else
      var (r, s2) := Eval(e.right, s1, host);
      if r.Err? then (r, s2) else (ApplyBinary(e.operator, l.value, r.value, host.numberText), s2)
  }

  /** The assigned value, written where the name is bound; an error when no scope binds it. */
  function EvalAssign(e: Expr, scopes: Scopes, host: Host): (res: (Result<Value, Failure>, Scopes))
    requires e.Assign?
    ensures |res.1| == |scopes|
    decreases e, 0
  {
    var (v, s1) := Eval(e.value, scopes, host);
    if v.Err? then (v, s1)
    else
      match AssignIn(s1, e.name.lexeme, v.value)
      case None => (Err(UndefinedVariable(e.name)), s1)
      case Some(s2) => (v, s2)
  }

  /** Executing a statement: how it completed or the error it raised, and the configuration afterwards. */
  function Exec(s: Stmt, c: Config, host: Host): (res: (Result<Completion, Failure>, Config))
    requires |c.scopes| > 0
    ensures |res.1.scopes| == |c.scopes|
    ensures c.output <= res.1.output
    decreases s, 1
  {
    match s
    case ExpressionStmt(e) =>
      var (r, scopes) := Eval(e, c.scopes, host);
      (if r.Err? then Err(r.error) else Ok(Normal), Config(scopes, c.output))
    case PrintStmt(e) =>
      var (r, scopes) := Eval(e, c.scopes, host);
      if r.Err? then (Err(r.error), Config(scopes, c.output))
      else (Ok(Normal), Config(scopes, c.output + [Stringify(r.value, host.numberText)]))
    case VarStmt(name, initializer) =>
      if initializer.None? then (Ok(Normal), Config(DefineIn(c.scopes, name.lexeme, VNil), c.output))
      else
        var (r, scopes) := Eval(initializer.value, c.scopes, host);
        if r.Err? then (Err(r.error), Config(scopes, c.output))
        else (Ok(Normal), Config(DefineIn(scopes, name.lexeme, r.value), c.output))
    case BlockStmt(_) => ExecBlock(s, c, host)
    case IfStmt(_, _, _) => ExecIf(s, c, host)
    case WhileStmt(condition, body) =>
      ExecWhile(condition, body, c, host, host.maxIterations)
  }

  /**
   * A block runs its statements in a fresh innermost scope, which is
   * dropped afterwards: whatever the statements are, every scope outside
   * the block binds the same names afterwards as before, so the block's
   * declarations do not outlive it.
   */
  function ExecBlock(s: Stmt, c: Config, host: Host): (res: (Result<Completion, Failure>, Config))
    requires s.BlockStmt? && |c.scopes| > 0
    ensures |res.1.scopes| == |c.scopes|
    ensures c.output <= res.1.output
    ensures SameNames(res.1.scopes, c.scopes, 0)
    decreases s, 0
  {
    var start := Config([map[]] + c.scopes, c.output);
    var (r, inner) := ExecList(s.statements, start, host);
    ExecListKeepsOuterNames(s.statements, start, host);
    DropInnermost(inner.scopes, start.scopes);
    (r, Config(inner.scopes[1..], inner.output))
  }

  /** The then-branch on a truthy condition, else the else-branch if there is one. */
  function ExecIf(s: Stmt, c: Config, host: Host): (res: (Result<Completion, Failure>, Config))
    requires s.IfStmt? && |c.scopes| > 0
    ensures |res.1.scopes| == |c.scopes|
    ensures c.output <= res.1.output
    decreases s, 0
  {
    var (r, scopes) := Eval(s.condition, c.scopes, host);
    if r.Err? then (Err(r.error), Config(scopes, c.output))
    else if IsTruthy(r.value) then Exec(s.thenBranch, Config(scopes, c.output), host)
    else if s.elseBranch.Some? then Exec(s.elseBranch.value, Config(scopes, c.output), host)
    else (Ok(Normal), Config(scopes, c.output))
  }

  /** A `while` loop with `remaining` iterations left: test the condition, run the body, repeat. */
  function ExecWhile(condition: Expr, body: Stmt, c: Config, host: Host, remaining: nat): (res: (Result<Completion, Failure>, Config))
    requires |c.scopes| > 0
    ensures |res.1.scopes| == |c.scopes|
    ensures c.output <= res.1.output
    decreases WhileStmt(condition, body), 0, remaining
  {
    var (r, scopes) := Eval(condition, c.scopes, host);
    var tested := Config(scopes, c.output);
    if r.Err? then (Err(r.error), tested)
    else if !IsTruthy(r.value) then (Ok(Normal), tested)
    else if remaining == 0 then (Err(IterationBoundReached), tested)
    else
      var (b, after) := Exec(body, tested, host);
      if b.Err? || b.value.Returning? then (b, after)
      else ExecWhile(condition, body, after, host, remaining - 1)
  }

  /** From index `from` on, the two chains' scopes bind the same names. */
  predicate SameNames(a: Scopes, b: Scopes, from: nat)
  {
    |a| == |b| && forall j :: from <= j < |a| ==> a[j].Keys == b[j].Keys
  }

  /** A statement list, in order, stopping at the first error or return. */
  function ExecList(statements: seq<Stmt>, c: Config, host: Host): (res: (Result<Completion, Failure>, Config))
    requires |c.scopes| > 0
    ensures |res.1.scopes| == |c.scopes|
    ensures c.output <= res.1.output
    decreases statements, 0
  {
    if statements == [] then (Ok(Normal), c)
    else
      var (r, c1) := Exec(statements[0], c, host);
      if r.Err? || r.value.Returning? then (r, c1)
      else ExecList(statements[1..], c1, host)
  }

  // ----- Expressions -----

  /** `or` returns a truthy left value as it is, and does not evaluate the right operand. */
  lemma OrShortCircuits(left: Expr, operator: Token, right: Expr, scopes: Scopes, host: Host)
    requires operator.kind == Or
    requires Eval(left, scopes, host).0.Ok? && IsTruthy(Eval(left, scopes, host).0.value)
    ensures Eval(Logical(left, operator, right), scopes, host) == Eval(left, scopes, host)
  {
  }

  /** `and` returns a falsy left value as it is, and does not evaluate the right operand. */
  lemma AndShortCircuits(left: Expr, operator: Token, right: Expr, scopes: Scopes, host: Host)
    requires operator.kind == And
    requires Eval(left, scopes, host).0.Ok? && !IsTruthy(Eval(left, scopes, host).0.value)
    ensures Eval(Logical(left, operator, right), scopes, host) == Eval(left, scopes, host)
  {
  }

  /**
   * When the left operand does not decide, a logical expression is the
   * right operand, value and all: its result is not turned into a boolean.
   */
  lemma LogicalYieldsRightOperand(left: Expr, operator: Token, right: Expr, scopes: Scopes, host: Host)
    requires Eval(left, scopes, host).0.Ok?
    requires (operator.kind == Or) == !IsTruthy(Eval(left, scopes, host).0.value)
    ensures Eval(Logical(left, operator, right), scopes, host) == Eval(right, Eval(left, scopes, host).1, host)
  {
  }

  /** `!e` is the negation of `e`'s truthiness, whatever kind of value `e` has. */
  lemma BangNegatesTruthiness(operator: Token, e: Expr, scopes: Scopes, host: Host)
    requires operator.kind == Bang
    requires Eval(e, scopes, host).0.Ok?
    ensures Eval(Unary(operator, e), scopes, host).0 == Ok(VBool(!IsTruthy(Eval(e, scopes, host).0.value)))
  {
  }

  /**
   * Binary operands are evaluated left before right: an error on the left
   * is the result, and the right operand is then not evaluated at all;
   * otherwise the right operand is evaluated in the scopes the left left.
   */
  lemma LeftOperandFirst(left: Expr, operator: Token, right: Expr, scopes: Scopes, host: Host)
    ensures Eval(left, scopes, host).0.Err? ==>
      Eval(Binary(left, operator, right), scopes, host) == Eval(left, scopes, host)
    ensures Eval(left, scopes, host).0.Ok? && Eval(right, Eval(left, scopes, host).1, host).0.Err? ==>
      Eval(Binary(left, operator, right), scopes, host) == Eval(right, Eval(left, scopes, host).1, host)
  {
  }

  /** `==` and `!=` raise only what their operands raise, and `!=` is exactly the negation of `==`. */
  lemma EqualityNeverRaises(left: Expr, eq: Token, neq: Token, right: Expr, scopes: Scopes, host: Host)
    requires eq.kind == EqualEqual && neq.kind == BangEqual
    requires Eval(left, scopes, host).0.Ok? && Eval(right, Eval(left, scopes, host).1, host).0.Ok?
    ensures Eval(Binary(left, eq, right), scopes, host).0.Ok? && Eval(Binary(left, eq, right), scopes, host).0.value.VBool?
    ensures Eval(Binary(left, neq, right), scopes, host).0.Ok?
    ensures Eval(Binary(left, neq, right), scopes, host).0.value
         == VBool(!Eval(Binary(left, eq, right), scopes, host).0.value.b)
    ensures Eval(Binary(left, neq, right), scopes, host).1 == Eval(Binary(left, eq, right), scopes, host).1
  {
  }

  /** An assignment yields the value it stored, and the name then reads back as that value. */
  lemma AssignYieldsStoredValue(name: Token, value: Expr, scopes: Scopes, host: Host)
    requires Eval(Assign(name, value), scopes, host).0.Ok?
    ensures Eval(Assign(name, value), scopes, host).0 == Eval(value, scopes, host).0
    ensures LookupResult(Eval(Assign(name, value), scopes, host).1, name) == Eval(value, scopes, host).0
  {
    var (v, s1) := Eval(value, scopes, host);
    assert AssignIn(s1, name.lexeme, v.value).Some?;
  }

  /** Assigning a name that no scope binds is an error and binds nothing. */
  lemma AssignToUnboundFails(name: Token, value: Expr, scopes: Scopes, host: Host)
    requires Eval(value, scopes, host).0.Ok?
    requires forall j :: 0 <= j < |scopes| ==> name.lexeme !in Eval(value, scopes, host).1[j]
    ensures Eval(Assign(name, value), scopes, host) == (Err(UndefinedVariable(name)), Eval(value, scopes, host).1)
  {
  }

  // ----- Statements -----

  /** `var` defines the name in the innermost scope, as nil when there is no initializer. */
  lemma VarWithoutInitializerDefinesNil(name: Token, c: Config, host: Host)
    requires |c.scopes| > 0
    ensures Exec(VarStmt(name, None), c, host).0 == Ok(Normal)
    ensures Exec(VarStmt(name, None), c, host).1.scopes[1..] == c.scopes[1..]
    ensures LookupResult(Exec(VarStmt(name, None), c, host).1.scopes, name) == Ok(VNil)
  {
  }

  /** `if` runs the then-branch on a truthy condition, otherwise the else-branch, or nothing when there is none. */
  lemma IfChoosesBranch(condition: Expr, thenBranch: Stmt, elseBranch: Option<Stmt>, c: Config, host: Host)
    requires |c.scopes| > 0
    requires Eval(condition, c.scopes, host).0.Ok?
    ensures var tested := Config(Eval(condition, c.scopes, host).1, c.output);
      Exec(IfStmt(condition, thenBranch, elseBranch), c, host) ==
        if IsTruthy(Eval(condition, c.scopes, host).0.value) then Exec(thenBranch, tested, host)
        else if elseBranch.Some? then Exec(elseBranch.value, tested, host)
        else (Ok(Normal), tested)
  {
  }

  /** A `while` loop ends at an error in its condition, a falsy condition, or the iteration bound, with the tested state. */
  lemma WhileExits(condition: Expr, body: Stmt, c: Config, host: Host, remaining: nat, test: Result<Value, Failure>, tested: Config)
    requires |c.scopes| > 0
    requires Eval(condition, c.scopes, host) == (test, tested.scopes) && tested.output == c.output
    requires test.Err? || !IsTruthy(test.value) || remaining == 0
    ensures ExecWhile(condition, body, c, host, remaining) ==
      (if test.Err? then Err(test.error) else if !IsTruthy(test.value) then Ok(Normal) else Err(IterationBoundReached), tested)
  {
  }

  /** A `while` loop ends with its body when the body raises an error or returns. */
  lemma WhileBodyExits(condition: Expr, body: Stmt, c: Config, host: Host, remaining: nat, tested: Config)
    requires |c.scopes| > 0 && remaining > 0
    requires Eval(condition, c.scopes, host).0.Ok? && IsTruthy(Eval(condition, c.scopes, host).0.value)
    requires tested == Config(Eval(condition, c.scopes, host).1, c.output)
    requires Exec(body, tested, host).0 != Ok(Normal)
    ensures ExecWhile(condition, body, c, host, remaining) == Exec(body, tested, host)
  {
  }

  /** A `while` loop whose condition is falsy runs its body not even once. */
  lemma WhileStopsOnFalsyCondition(condition: Expr, body: Stmt, c: Config, host: Host)
    requires |c.scopes| > 0
    requires Eval(condition, c.scopes, host).0.Ok? && !IsTruthy(Eval(condition, c.scopes, host).0.value)
    ensures Exec(WhileStmt(condition, body), c, host) == (Ok(Normal), Config(Eval(condition, c.scopes, host).1, c.output))
  {
  }

  /**
   * Each iteration re-tests the condition: after a truthy test and a body
   * that completes normally, the loop continues exactly as a fresh loop
   * from the new configuration.
   */
  lemma WhileRetestsCondition(condition: Expr, body: Stmt, c: Config, host: Host, remaining: nat)
    requires |c.scopes| > 0 && remaining > 0
    requires Eval(condition, c.scopes, host).0.Ok? && IsTruthy(Eval(condition, c.scopes, host).0.value)
    requires Exec(body, Config(Eval(condition, c.scopes, host).1, c.output), host).0 == Ok(Normal)
    ensures ExecWhile(condition, body, c, host, remaining) ==
      ExecWhile(condition, body, Exec(body, Config(Eval(condition, c.scopes, host).1, c.output), host).1, host, remaining - 1)
  {
  }

  /**
   * Statement lists run in order: once a prefix completes normally the
   * rest runs from where it left off, and once a prefix raises an error or
   * returns, nothing after it runs.
   */
  lemma {:induction false} ExecListAppend(first: seq<Stmt>, rest: seq<Stmt>, c: Config, host: Host)
    requires |c.scopes| > 0
    ensures var (r, c1) := ExecList(first, c, host);
      ExecList(first + rest, c, host) ==
        if r == Ok(Normal) then ExecList(rest, c1, host) else (r, c1)
  {
    if first != [] {
      assert (first + rest)[0] == first[0];
      assert (first + rest)[1..] == first[1..] + rest;
      var (r0, c0) := Exec(first[0], c, host);
      if r0 == Ok(Normal) {
        ExecListAppend(first[1..], rest, c0, host);
      }
    } else {
      assert first + rest == rest;
    }
  }

  /** A declaration whose initializer, if any, is a literal. */
  predicate IsPlainDeclaration(s: Stmt)
  {
    s.VarStmt? && (s.initializer.None? || s.initializer.value.Literal?)
  }

  /** Plain declarations write the innermost scope only, raise nothing and print nothing. */
  lemma {:induction false} PlainDeclarationsStayLocal(statements: seq<Stmt>, c: Config, host: Host)
    requires |c.scopes| > 0
    requires forall i :: 0 <= i < |statements| ==> IsPlainDeclaration(statements[i])
    ensures ExecList(statements, c, host).0 == Ok(Normal)
    ensures ExecList(statements, c, host).1.scopes[1..] == c.scopes[1..]
    ensures ExecList(statements, c, host).1.output == c.output
  {
    if statements != [] {
      var (r, c1) := Exec(statements[0], c, host);
      assert IsPlainDeclaration(statements[0]);
      assert r == Ok(Normal) && c1.scopes[1..] == c.scopes[1..] && c1.output == c.output;
      PlainDeclarationsStayLocal(statements[1..], c1, host);
    }
  }

  /** The declarations of a block are gone once it ends: a block of plain declarations changes nothing outside it. */
  lemma BlockDeclarationsVanish(statements: seq<Stmt>, c: Config, host: Host)
    requires |c.scopes| > 0
    requires forall i :: 0 <= i < |statements| ==> IsPlainDeclaration(statements[i])
    ensures Exec(BlockStmt(statements), c, host) == (Ok(Normal), c)
  {
    var inner := Config([map[]] + c.scopes, c.output);
    PlainDeclarationsStayLocal(statements, inner, host);
    assert inner.scopes[1..] == c.scopes;
  }

  /** Dropping the innermost scope of two chains that agree on names below it leaves chains that agree everywhere. */
  lemma DropInnermost(a: Scopes, b: Scopes)
    requires |a| > 0 && SameNames(a, b, 1)
    ensures SameNames(a[1..], b[1..], 0)
  {
    forall j | 0 <= j < |a| - 1
      ensures a[1..][j].Keys == b[1..][j].Keys
    {
      assert a[1..][j] == a[j + 1] && b[1..][j] == b[j + 1];
    }
  }

  /** Agreement on names carries over from one chain to the next. */
  lemma SameNamesTrans(a: Scopes, b: Scopes, c: Scopes, from: nat)
    requires SameNames(a, b, from) && SameNames(b, c, from)
    ensures SameNames(a, c, from)
  {
  }

  /**
   * Evaluating an expression never declares or removes a name in any
   * scope: an assignment writes an existing binding, and no other
   * expression writes at all.
   */
  lemma {:induction false} EvalKeepsNames(e: Expr, scopes: Scopes, host: Host)
    ensures SameNames(Eval(e, scopes, host).1, scopes, 0)
    decreases e
  {
    match e
    case Literal(_) =>
    case Variable(_) =>
    case Grouping(inner) =>
      EvalKeepsNames(inner, scopes, host);
    case Unary(_, right) =>
      EvalKeepsNames(right, scopes, host);
    case Logical(left, _, right) =>
      var s1 := Eval(left, scopes, host).1;
      EvalKeepsNames(left, scopes, host);
      EvalKeepsNames(right, s1, host);
      SameNamesTrans(Eval(right, s1, host).1, s1, scopes, 0);
    case Binary(left, _, right) =>
      var s1 := Eval(left, scopes, host).1;
      EvalKeepsNames(left, scopes, host);
      EvalKeepsNames(right, s1, host);
      SameNamesTrans(Eval(right, s1, host).1, s1, scopes, 0);
    case Assign(_, value) =>
      EvalKeepsNames(value, scopes, host);
  }

  /** A statement declares names only in the innermost scope: every scope further out binds the same names afterwards. */
  lemma {:induction false} ExecKeepsOuterNames(s: Stmt, c: Config, host: Host)
    requires |c.scopes| > 0
    ensures SameNames(Exec(s, c, host).1.scopes, c.scopes, 1)
    decreases s, 2
  {
    match s
    case ExpressionStmt(e) =>
      EvalKeepsNames(e, c.scopes, host);
    case PrintStmt(e) =>
      EvalKeepsNames(e, c.scopes, host);
    case VarStmt(_, initializer) =>
      if initializer.Some? {
        EvalKeepsNames(initializer.value, c.scopes, host);
      }
    case BlockStmt(_) =>
    case IfStmt(condition, thenBranch, elseBranch) =>
      var (r, scopes) := Eval(condition, c.scopes, host);
      EvalKeepsNames(condition, c.scopes, host);
      if r.Ok? && IsTruthy(r.value) {
        assert Exec(s, c, host) == Exec(thenBranch, Config(scopes, c.output), host);
        ExecKeepsOuterNames(thenBranch, Config(scopes, c.output), host);
        SameNamesTrans(Exec(s, c, host).1.scopes, scopes, c.scopes, 1);
      } else if r.Ok? && elseBranch.Some? {
        assert Exec(s, c, host) == Exec(elseBranch.value, Config(scopes, c.output), host);
        ExecKeepsOuterNames(elseBranch.value, Config(scopes, c.output), host);
        SameNamesTrans(Exec(s, c, host).1.scopes, scopes, c.scopes, 1);
      }
    case WhileStmt(condition, body) =>
      ExecWhileKeepsOuterNames(condition, body, c, host, host.maxIterations);
  }

  /** A loop declares names only in the innermost scope. */
  lemma {:induction false} ExecWhileKeepsOuterNames(condition: Expr, body: Stmt, c: Config, host: Host, remaining: nat)
    requires |c.scopes| > 0
    ensures SameNames(ExecWhile(condition, body, c, host, remaining).1.scopes, c.scopes, 1)
    decreases WhileStmt(condition, body), 1, remaining
  {
    var (r, scopes) := Eval(condition, c.scopes, host);
    var tested := Config(scopes, c.output);
    EvalKeepsNames(condition, c.scopes, host);
    if r.Ok? && IsTruthy(r.value) && remaining > 0 {
      var (b, after) := Exec(body, tested, host);
      ExecKeepsOuterNames(body, tested, host);
      if !(b.Err? || b.value.Returning?) {
        ExecWhileKeepsOuterNames(condition, body, after, host, remaining - 1);
        SameNamesTrans(ExecWhile(condition, body, after, host, remaining - 1).1.scopes, after.scopes, scopes, 1);
      }
      SameNamesTrans(ExecWhile(condition, body, c, host, remaining).1.scopes, scopes, c.scopes, 1);
    }
  }

  /** A statement list declares names only in the innermost scope. */
  lemma {:induction false} ExecListKeepsOuterNames(statements: seq<Stmt>, c: Config, host: Host)
    requires |c.scopes| > 0
    ensures SameNames(ExecList(statements, c, host).1.scopes, c.scopes, 1)
    decreases statements, 1
  {
    if statements != [] {
      var (r, c1) := Exec(statements[0], c, host);
      ExecKeepsOuterNames(statements[0], c, host);
      if !(r.Err? || r.value.Returning?) {
        ExecListKeepsOuterNames(statements[1..], c1, host);
        SameNamesTrans(ExecList(statements[1..], c1, host).1.scopes, c1.scopes, c.scopes, 1);
      }
    }
  }

  /**
   * A block's declaration shadows an outer one while the block runs and
   * does not overwrite it: `var a = "outer"; { var a = "inner"; print a; } print a;`
   * prints "inner" and then "outer".
   */
  lemma ShadowingInBlock(host: Host)
    ensures var a := Token(Identifier, "a", 1);
      var program := [
        VarStmt(a, Some(Literal(StringLiteral("outer")))),
        BlockStmt([VarStmt(a, Some(Literal(StringLiteral("inner")))), PrintStmt(Variable(a))]),
        PrintStmt(Variable(a))];
      ExecList(program, Config([map[]], []), host) == (Ok(Normal), Config([map["a" := VStr("outer")]], ["inner", "outer"]))
  {
    var a := Token(Identifier, "a", 1);
    var outer, inner := map["a" := VStr("outer")], map["a" := VStr("inner")];
    var declareOuter := VarStmt(a, Some(Literal(StringLiteral("outer"))));
    var declareInner := VarStmt(a, Some(Literal(StringLiteral("inner"))));
    var show := PrintStmt(Variable(a));
    // the outer declaration
    assert Eval(Literal(StringLiteral("outer")), [map[]], host) == (Ok(VStr("outer")), [map[]]);
    assert DefineIn([map[]], "a", VStr("outer")) == [outer];
    assert Exec(declareOuter, Config([map[]], []), host) == (Ok(Normal), Config([outer], []));
    // the block: a fresh scope, the inner declaration, the print
    assert Eval(Literal(StringLiteral("inner")), [map[], outer], host) == (Ok(VStr("inner")), [map[], outer]);
    assert DefineIn([map[], outer], "a", VStr("inner")) == [inner, outer];
    assert Exec(declareInner, Config([map[], outer], []), host) == (Ok(Normal), Config([inner, outer], []));
    assert [map[]] + [outer] == [map[], outer];
    assert LookupResult([inner, outer], a) == Ok(VStr("inner"));
    assert Eval(Variable(a), [inner, outer], host) == (Ok(VStr("inner")), [inner, outer]);
    assert Stringify(VStr("inner"), host.numberText) == "inner";
    assert [] + ["inner"] == ["inner"];
    assert Exec(show, Config([inner, outer], []), host) == (Ok(Normal), Config([inner, outer], ["inner"]));
    assert ExecList([show], Config([inner, outer], []), host) == (Ok(Normal), Config([inner, outer], ["inner"]));
    assert ExecList([declareInner, show], Config([map[]] + [outer], []), host) == (Ok(Normal), Config([inner, outer], ["inner"]));
    assert Exec(BlockStmt([declareInner, show]), Config([outer], []), host) == (Ok(Normal), Config([outer], ["inner"]));
    // the outer print
    assert LookupResult([outer], a) == Ok(VStr("outer"));
    assert Eval(Variable(a), [outer], host) == (Ok(VStr("outer")), [outer]);
    assert ["inner"] + ["outer"] == ["inner", "outer"];
    assert Exec(show, Config([outer], ["inner"]), host) == (Ok(Normal), Config([outer], ["inner", "outer"]));
    assert ExecList([show], Config([outer], ["inner"]), host) == (Ok(Normal), Config([outer], ["inner", "outer"]));
    assert ExecList([BlockStmt([declareInner, show]), show], Config([outer], []), host) == (Ok(Normal), Config([outer], ["inner", "outer"]));
  }

  // ----- Returns -----

  /**
   * No modelled statement completes by returning: the return statement is a
   * stub in the interpreter, so a function body can only complete normally
   * or raise an error.
   */
  lemma {:induction false} ExecNeverReturns(s: Stmt, c: Config, host: Host)
    requires |c.scopes| > 0
    ensures Exec(s, c, host).0.Ok? ==> Exec(s, c, host).0.value == Normal
    decreases s, 1
  {
    match s
    case BlockStmt(statements) =>
      ExecListNeverReturns(statements, Config([map[]] + c.scopes, c.output), host);
    case IfStmt(condition, thenBranch, elseBranch) =>
      var (r, scopes) := Eval(condition, c.scopes, host);
      if r.Ok? {
        if IsTruthy(r.value) {
          ExecNeverReturns(thenBranch, Config(scopes, c.output), host);
        } else if elseBranch.Some? {
          ExecNeverReturns(elseBranch.value, Config(scopes, c.output), host);
        }
      }
    case WhileStmt(condition, body) =>
      ExecWhileNeverReturns(condition, body, c, host, host.maxIterations);
    case _ =>
  }

  /** A `while` loop completes normally or raises an error, never by returning. */
  lemma {:induction false} ExecWhileNeverReturns(condition: Expr, body: Stmt, c: Config, host: Host, remaining: nat)
    requires |c.scopes| > 0
    ensures ExecWhile(condition, body, c, host, remaining).0.Ok? ==> ExecWhile(condition, body, c, host, remaining).0.value == Normal
    decreases WhileStmt(condition, body), 0, remaining
  {
    var (r, scopes) := Eval(condition, c.scopes, host);
    var tested := Config(scopes, c.output);
    if r.Ok? && IsTruthy(r.value) && remaining > 0 {
      ExecNeverReturns(body, tested, host);
      var (b, after) := Exec(body, tested, host);
      if b.Ok? {
        ExecWhileNeverReturns(condition, body, after, host, remaining - 1);
      }
    }
  }

  /** A statement list completes normally or raises an error, never by returning. */
  lemma {:induction false} ExecListNeverReturns(statements: seq<Stmt>, c: Config, host: Host)
    requires |c.scopes| > 0
    ensures ExecList(statements, c, host).0.Ok? ==> ExecList(statements, c, host).0.value == Normal
    decreases statements
  {
    if statements != [] {
      ExecNeverReturns(statements[0], c, host);
      var (r, c1) := Exec(statements[0], c, host);
      if r.Ok? {
        ExecListNeverReturns(statements[1..], c1, host);
      }
    }
  }
}
