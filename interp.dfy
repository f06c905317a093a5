/**
 * The interpreter object: a current environment that blocks swap in and
 * out, the global environment the chain always ends at, and the lines
 * printed so far. Every visit method is proved to do exactly what the
 * reference semantics in module Semantics says, on the chain's scopes and
 * on the output.
 */
module Interp {
  import opened Wrappers
  import opened Ast
  import opened Values
  import opened Environments
  import opened Semantics

  class Interpreter {
    /** The environment statements currently run in. */
    var environment: Environment
    /** The outermost environment, where the chain of every current environment ends. */
    const globals: Environment
    /** The lines printed so far, oldest first. */
    var output: seq<string>
    /** Number text and the iteration bound of `while` loops. */
    const host: Host

    /** The global environment has no enclosing one, and the current environment's chain ends at it. */
    ghost predicate Valid()
      reads this
    {
      && globals.Valid() && globals.enclosing == null
      && environment.Valid()
      && environment.Chain()[|environment.ancestors|] == globals
    }

    /** A fresh interpreter runs in an empty global environment and has printed nothing. */
    constructor (host: Host)
      ensures Valid() && fresh(globals)
      ensures environment == globals && environment.ScopeMaps() == [map[]]
      ensures output == [] && this.host == host
    {
      var top := new Environment(null);
      globals := top;
      environment := top;
      output := [];
      this.host := host;
      new;
      top.ScopeMapsUnfold();
    }

    /** A new scope inside the current environment is a valid environment whose chain ends at the globals too. */
    lemma ChildValid(child: Environment)
      requires Valid() && child.Valid() && child.enclosing == environment
      ensures child.Chain() == [child] + environment.Chain()
      ensures child.Chain()[|child.ancestors|] == globals
    {
      child.EnclosingValid();
      assert child.Chain()[|child.ancestors|] == environment.Chain()[|environment.ancestors|];
    }

    // ----- Expressions -----

    /** Evaluate an expression in the current environment: the value or error and the scopes afterwards are those of Eval. */
    method Evaluate(e: Expr) returns (r: Result<Value, Failure>)
      requires Valid()
      modifies environment.Chain()
      ensures (r, environment.ScopeMaps()) == Eval(e, old(environment.ScopeMaps()), host)
      decreases e, 1
    {
      match e
      case Literal(l) => r := Ok(FromLiteral(l));
      case Grouping(inner) => r := Evaluate(inner);
      case Logical(_, _, _) => r := VisitLogicalExpr(e);
      case Unary(_, _) => r := VisitUnaryExpr(e);
      case Binary(_, _, _) => r := VisitBinaryExpr(e);
      case Variable(name) => r := environment.Get(name);
      case Assign(_, _) => r := VisitAssignExpr(e);
    }

    /** `or` and `and`: the left value when it decides, otherwise the right operand's value. */
    method VisitLogicalExpr(e: Expr) returns (r: Result<Value, Failure>)
      requires Valid() && e.Logical?
      modifies environment.Chain()
      ensures (r, environment.ScopeMaps()) == Eval(e, old(environment.ScopeMaps()), host)
      decreases e, 0
    {
      r := Evaluate(e.left);
      if r.Err? {
        return;
      }
      if e.operator.kind == Or {
        if IsTruthy(r.value) {
          return;
        }
      } else {
        if !IsTruthy(r.value) {
          return;
        }
      }
      r := Evaluate(e.right);
    }

    /** Unary `-` and `!` applied to the operand's value. */
    method VisitUnaryExpr(e: Expr) returns (r: Result<Value, Failure>)
      requires Valid() && e.Unary?
      modifies environment.Chain()
      ensures (r, environment.ScopeMaps()) == Eval(e, old(environment.ScopeMaps()), host)
      decreases e, 0
    {
      var right := Evaluate(e.right);
      if right.Err? {
        return right;
      }
      r := ApplyUnary(e.operator, right.value);
    }

    /** A binary operator: the left operand, then the right one, then the operator. */
    method VisitBinaryExpr(e: Expr) returns (r: Result<Value, Failure>)
      requires Valid() && e.Binary?
      modifies environment.Chain()
      ensures (r, environment.ScopeMaps()) == Eval(e, old(environment.ScopeMaps()), host)
      decreases e, 0
    {
      var left := Evaluate(e.left);
      if left.Err? {
        return left;
      }
      var right := Evaluate(e.right);
      if right.Err? {
        return right;
      }
      r := ApplyBinary(e.operator, left.value, right.value, host.numberText);
    }

    /** Evaluate the right side, write it where the name is bound, and yield it. */
    method VisitAssignExpr(e: Expr) returns (r: Result<Value, Failure>)
      requires Valid() && e.Assign?
      modifies environment.Chain()
      ensures (r, environment.ScopeMaps()) == Eval(e, old(environment.ScopeMaps()), host)
      decreases e, 0
    {
      ghost var before := environment.ScopeMaps();
      r := Evaluate(e.value);
      if r.Err? {
        return;
      }
      ghost var evaluated := environment.ScopeMaps();
      ghost var outcome := AssignIn(evaluated, e.name.lexeme, r.value);
      assert Eval(e, before, host) == if outcome.None? then (Err(UndefinedVariable(e.name)), evaluated) else (r, outcome.value);
      AssignAtInnermostBinding(evaluated, e.name.lexeme, r.value);
      var written := environment.Assign(e.name, r.value);
      if written.Err? {
        assert outcome == None;
        r := Err(written.error);
      } else {
        assert outcome == Some(environment.ScopeMaps());
      }
    }

    // ----- Statements -----

    /** Execute a statement in the current environment, as Exec says; the current environment is the same afterwards. */
    method Execute(stmt: Stmt) returns (r: Result<Completion, Failure>)
      requires Valid()
      modifies this, environment.Chain()
      ensures Valid() && environment == old(environment)
      ensures (r, Config(environment.ScopeMaps(), output)) == Exec(stmt, Config(old(environment.ScopeMaps()), old(output)), host)
      decreases stmt, 2
    {
      match stmt
      case ExpressionStmt(_) =>
        r := VisitExpressionStmt(stmt);
      case PrintStmt(_) =>
        r := VisitPrintStmt(stmt);
      case VarStmt(_, _) =>
        r := VisitVarStmt(stmt);
      case BlockStmt(_) =>
        r := VisitBlockStmt(stmt);
      case IfStmt(_, _, _) =>
        r := VisitIfStmt(stmt);
      case WhileStmt(condition, body) =>
        r := VisitWhileStmt(condition, body);
    }

    /** Evaluate the expression for its effect and drop its value. */
    method VisitExpressionStmt(stmt: Stmt) returns (r: Result<Completion, Failure>)
      requires Valid() && stmt.ExpressionStmt?
      modifies this, environment.Chain()
      ensures Valid() && environment == old(environment)
      ensures (r, Config(environment.ScopeMaps(), output)) == Exec(stmt, Config(old(environment.ScopeMaps()), old(output)), host)
      decreases stmt, 0
    {
      var v := Evaluate(stmt.expression);
      r := if v.Err? then Err(v.error) else Ok(Normal);
    }

    /** Print the value's display text as one more output line. */
    method VisitPrintStmt(stmt: Stmt) returns (r: Result<Completion, Failure>)
      requires Valid() && stmt.PrintStmt?
      modifies this, environment.Chain()
      ensures Valid() && environment == old(environment)
      ensures (r, Config(environment.ScopeMaps(), output)) == Exec(stmt, Config(old(environment.ScopeMaps()), old(output)), host)
      decreases stmt, 0
    {
      var v := Evaluate(stmt.expression);
      if v.Err? {
        return Err(v.error);
      }
      output := output + [Stringify(v.value, host.numberText)];
      r := Ok(Normal);
    }

    /** Define the name in the current environment, as nil when there is no initializer. */
    method VisitVarStmt(stmt: Stmt) returns (r: Result<Completion, Failure>)
      requires Valid() && stmt.VarStmt?
      modifies this, environment.Chain()
      ensures Valid() && environment == old(environment)
      ensures (r, Config(environment.ScopeMaps(), output)) == Exec(stmt, Config(old(environment.ScopeMaps()), old(output)), host)
      decreases stmt, 0
    {
      var value := VNil;
      if stmt.initializer.Some? {
        var v := Evaluate(stmt.initializer.value);
        if v.Err? {
          return Err(v.error);
        }
        value := v.value;
      }
      assert environment in environment.Chain();
      environment.Define(stmt.name.lexeme, value);
      r := Ok(Normal);
    }

    /** Run the block's statements in a fresh scope inside the current environment. */
    method VisitBlockStmt(stmt: Stmt) returns (r: Result<Completion, Failure>)
      requires Valid() && stmt.BlockStmt?
      modifies this, environment.Chain()
      ensures Valid() && environment == old(environment)
      ensures (r, Config(environment.ScopeMaps(), output)) == Exec(stmt, Config(old(environment.ScopeMaps()), old(output)), host)
      decreases stmt, 0
    {
      ghost var before := Config(environment.ScopeMaps(), output);
      var scope := new Environment(environment);
      ChildValid(scope);
      scope.ScopeMapsUnfold();
      r := ExecuteBlock(stmt.statements, scope);
      ghost var inner := Config(scope.ScopeMaps(), output);
      assert ExecList(stmt.statements, Config([map[]] + before.scopes, before.output), host) == (r, inner);
      scope.ScopeMapsUnfold();
      assert inner.scopes[1..] == environment.ScopeMaps();
    }

    /** The then-branch on a truthy condition, otherwise the else-branch if there is one. */
    method VisitIfStmt(stmt: Stmt) returns (r: Result<Completion, Failure>)
      requires Valid() && stmt.IfStmt?
      modifies this, environment.Chain()
      ensures Valid() && environment == old(environment)
      ensures (r, Config(environment.ScopeMaps(), output)) == Exec(stmt, Config(old(environment.ScopeMaps()), old(output)), host)
      decreases stmt, 0
    {
      var condition := Evaluate(stmt.condition);
      if condition.Err? {
        return Err(condition.error);
      }
      if IsTruthy(condition.value) {
        r := Execute(stmt.thenBranch);
      } else if stmt.elseBranch.Some? {
        r := Execute(stmt.elseBranch.value);
      } else {
        r := Ok(Normal);
      }
    }

    /** Re-test the condition before every run of the body; stop at the first falsy value. */
    method VisitWhileStmt(condition: Expr, body: Stmt) returns (r: Result<Completion, Failure>)
      requires Valid()
      modifies this, environment.Chain()
      ensures Valid() && environment == old(environment)
      ensures (r, Config(environment.ScopeMaps(), output))
           == ExecWhile(condition, body, Config(old(environment.ScopeMaps()), old(output)), host, host.maxIterations)
      decreases WhileStmt(condition, body), 1
    {
      ghost var outcome := ExecWhile(condition, body, Config(environment.ScopeMaps(), output), host, host.maxIterations);
      var remaining := host.maxIterations;
      var again := true;
      r := Ok(Normal);
      while again
        invariant Valid() && environment == old(environment)
        invariant again ==> outcome == ExecWhile(condition, body, Config(environment.ScopeMaps(), output), host, remaining)
        invariant !again ==> outcome == (r, Config(environment.ScopeMaps(), output))
        decreases remaining, again
      {
        r, again, remaining := WhileRound(condition, body, remaining, outcome);
      }
    }

    /**
     * One round of a `while` loop whose outcome from here is `outcome`: test
     * the condition and, when it is truthy and the bound allows, run the
     * body. When `again` holds the loop goes round once more, with one
     * round fewer `left`, and its outcome from the new state is still
     * `outcome`; otherwise `r` and the new state are that outcome.
     */
    method WhileRound(condition: Expr, body: Stmt, remaining: nat, ghost outcome: (Result<Completion, Failure>, Config))
      returns (r: Result<Completion, Failure>, again: bool, left: nat)
      requires Valid()
      requires outcome == ExecWhile(condition, body, Config(environment.ScopeMaps(), output), host, remaining)
      modifies this, environment.Chain()
      ensures Valid() && environment == old(environment)
      ensures again ==> left == remaining - 1 && outcome == ExecWhile(condition, body, Config(environment.ScopeMaps(), output), host, left)
      ensures !again ==> left == remaining && outcome == (r, Config(environment.ScopeMaps(), output))
      decreases WhileStmt(condition, body), 0
    {
      ghost var current := Config(environment.ScopeMaps(), output);
      var test := Evaluate(condition);
      ghost var tested := Config(environment.ScopeMaps(), output);
      if test.Err? || !IsTruthy(test.value) || remaining == 0 {
        r := if test.Err? then Err(test.error) else if !IsTruthy(test.value) then Ok(Normal) else Err(IterationBoundReached);
        WhileExits(condition, body, current, host, remaining, test, tested);
        return r, false, remaining;
      }
      r := Execute(body);
      again := r == Ok(Normal);
      left := if again then remaining - 1 else remaining;
      if again {
        WhileRetestsCondition(condition, body, current, host, remaining);
      } else {
        WhileBodyExits(condition, body, current, host, remaining, tested);
      }
    }

    /**
     * Run statements with `env` as the current environment, stopping at the
     * first error or return, then make the previous environment current
     * again, however the statements ended.
     */
    method ExecuteBlock(statements: seq<Stmt>, env: Environment) returns (r: Result<Completion, Failure>)
      requires Valid() && env.Valid() && env.Chain()[|env.ancestors|] == globals
      modifies this, env.Chain()
      ensures Valid() && environment == old(environment)
      ensures (r, Config(env.ScopeMaps(), output)) == ExecList(statements, Config(old(env.ScopeMaps()), old(output)), host)
      decreases statements
    {
      ghost var start := Config(env.ScopeMaps(), output);
      var previous := environment;
      environment := env;
      r := Ok(Normal);
      var i := 0;
      while i < |statements| && r == Ok(Normal)
        invariant 0 <= i <= |statements|
        invariant Valid() && environment == env
        invariant ExecList(statements, start, host) ==
          if r == Ok(Normal) then ExecList(statements[i..], Config(env.ScopeMaps(), output), host)
          else (r, Config(env.ScopeMaps(), output))
        decreases |statements| - i
      {
        assert statements[i..][0] == statements[i] && statements[i..][1..] == statements[i + 1..];
        r := Execute(statements[i]);
        i := i + 1;
      }
      environment := previous;
    }

    /**
     * Run a program in the current environment. The first runtime error is
     * reported and the statements after it are not run.
     */
    method Interpret(statements: seq<Stmt>) returns (reported: Option<Failure>)
      requires Valid()
      modifies this, environment.Chain()
      ensures Valid() && environment == old(environment)
      ensures var (r, c) := ExecList(statements, Config(old(environment.ScopeMaps()), old(output)), host);
        && reported == (if r.Err? then Some(r.error) else None)
        && environment.ScopeMaps() == c.scopes && output == c.output
    {
      ghost var start := Config(environment.ScopeMaps(), output);
      reported := None;
      var i := 0;
      var r: Result<Completion, Failure> := Ok(Normal);
      while i < |statements| && r == Ok(Normal)
        invariant 0 <= i <= |statements|
        invariant Valid() && environment == old(environment)
        invariant ExecList(statements, start, host) ==
          if r == Ok(Normal) then ExecList(statements[i..], Config(environment.ScopeMaps(), output), host)
          else (r, Config(environment.ScopeMaps(), output))
        decreases |statements| - i
      {
        assert statements[i..][0] == statements[i] && statements[i..][1..] == statements[i + 1..];
        r := Execute(statements[i]);
        i := i + 1;
      }
      if r.Err? {
        reported := Some(r.error);
      }
    }
  }
}
