/**
 * Calling a user-defined function: a fresh environment whose parent is the
 * global environment, parameter i bound to argument i, and the body run
 * through the interpreter's block execution. A return completion carries
 * the call's result; a body that completes normally yields nil.
 */
module Callables {
  import opened Wrappers
  import opened Ast
  import opened Values
  import opened Environments
  import opened Semantics
  import opened Interp

  /**
   * The local scope of a call: each parameter name bound to the argument at
   * its position. When a name is declared twice, the later position wins,
   * as successive `define`s of the same name do.
   */
  function BindParams(params: seq<Token>, arguments: seq<Value>): (bound: map<string, Value>)
    requires |arguments| >= |params|
    ensures forall i :: 0 <= i < |params| ==> params[i].lexeme in bound
    ensures forall name :: name in bound ==> exists i :: 0 <= i < |params| && params[i].lexeme == name
    decreases |params|
  {
    if params == [] then map[]
    else
      var last := |params| - 1;
      var prefix := params[..last];
      var earlier := BindParams(prefix, arguments);
      assert forall i :: 0 <= i < last ==> prefix[i] == params[i];
      earlier[params[last].lexeme := arguments[last]]
  }

  /** No parameter after position `i` has the name of parameter `i`. */
  predicate LastOccurrence(params: seq<Token>, i: nat)
    requires i < |params|
  {
    forall j :: i < j < |params| ==> params[j].lexeme != params[i].lexeme
  }

  /** Parameter i is bound to argument i, unless a later parameter has the same name. */
  lemma {:induction false} BindParamsValues(params: seq<Token>, arguments: seq<Value>, i: nat)
    requires |arguments| >= |params| && i < |params| && LastOccurrence(params, i)
    ensures BindParams(params, arguments)[params[i].lexeme] == arguments[i]
    decreases |params|
  {
    var last := |params| - 1;
    if i < last {
      var prefix := params[..last];
      assert prefix[i] == params[i];
      assert LastOccurrence(prefix, i) by {
        forall j | i < j < last
          ensures prefix[j].lexeme != prefix[i].lexeme
        {
          assert prefix[j] == params[j];
        }
      }
      assert params[last].lexeme != params[i].lexeme;
      BindParamsValues(prefix, arguments, i);
    }
  }

  /** Parameter names are pairwise different. */
  predicate DistinctNames(params: seq<Token>)
  {
    forall i, j :: 0 <= i < j < |params| ==> params[i].lexeme != params[j].lexeme
  }

  /** With pairwise different parameter names, the call scope holds exactly `arity` bindings. */
  lemma {:induction false} ArityCountsBindings(f: LoxFunction, arguments: seq<Value>)
    requires |arguments| >= Arity(f) && DistinctNames(f.declaration.params)
    ensures |BindParams(f.declaration.params, arguments)| == Arity(f)
    ensures forall i :: 0 <= i < Arity(f) ==> BindParams(f.declaration.params, arguments)[f.declaration.params[i].lexeme] == arguments[i]
    decreases Arity(f)
  {
    var params := f.declaration.params;
    if params != [] {
      var last := |params| - 1;
      var shorter := LoxFunction(FunctionDecl(f.declaration.name, params[..last], f.declaration.body));
      ArityCountsBindings(shorter, arguments);
      assert params[last].lexeme !in BindParams(params[..last], arguments);
    }
    forall i | 0 <= i < |params|
      ensures BindParams(params, arguments)[params[i].lexeme] == arguments[i]
    {
      BindParamsValues(params, arguments, i);
    }
  }

  /** What a call yields for the way its body completed: an error, the returned value, or nil. */
  function CallResult(completion: Result<Completion, Failure>): (result: Result<Value, Failure>)
    ensures completion.Err? <==> result.Err?
    ensures completion.Err? ==> result.error == completion.error
    ensures completion == Ok(Normal) ==> result == Ok(VNil)
    ensures forall v :: completion == Ok(Returning(v)) ==> result == Ok(v)
  {
    match completion
    case Err(e) => Err(e)
    case Ok(Returning(v)) => Ok(v)
    case Ok(Normal) => Ok(VNil)
  }

  /** The environment of a call: a fresh scope inside the global environment holding the bound parameters. */
  method BindParameters(params: seq<Token>, arguments: seq<Value>, globals: Environment) returns (environment: Environment)
    requires |arguments| >= |params| && globals.Valid() && globals.enclosing == null
    ensures fresh(environment) && environment.Valid()
    ensures environment.enclosing == globals && environment.Chain() == [environment, globals]
    ensures environment.values == BindParams(params, arguments)
  {
    environment := new Environment(globals);
    for i := 0 to |params|
      invariant environment.values == BindParams(params[..i], arguments)
      modifies environment
    {
      assert params[..i + 1][..i] == params[..i];
      environment.Define(params[i].lexeme, arguments[i]);
    }
    assert params[..|params|] == params;
  }

  /** Run the body of `f` in a scope holding the bound parameters inside the global environment. */
  method RunBody(f: LoxFunction, interpreter: Interpreter, arguments: seq<Value>) returns (completion: Result<Completion, Failure>)
    requires interpreter.Valid() && |arguments| >= Arity(f)
    modifies interpreter, interpreter.globals
    ensures interpreter.Valid() && interpreter.environment == old(interpreter.environment)
    ensures var (r, c) := ExecList(f.declaration.body,
                                    Config([BindParams(f.declaration.params, arguments), old(interpreter.globals.values)], old(interpreter.output)),
                                    interpreter.host);
      && completion == r
      && interpreter.globals.values == c.scopes[1]
      && interpreter.output == c.output
  {
    var globals := interpreter.globals;
    var environment := BindParameters(f.declaration.params, arguments, globals);
    globals.ScopeMapsUnfold();
    environment.ScopeMapsUnfold();
    assert environment.ScopeMaps() == [BindParams(f.declaration.params, arguments), globals.values];
    completion := interpreter.ExecuteBlock(f.declaration.body, environment);
    environment.ScopeMapsUnfold();
    globals.ScopeMapsUnfold();
  }

  /**
   * Call `f` with `arguments`. The body runs in a scope holding the bound
   * parameters inside the global environment, whatever the caller's current
   * environment is; afterwards the caller's environment is current again,
   * and of the caller's scopes only the global one can have changed.
   */
  method Call(f: LoxFunction, interpreter: Interpreter, arguments: seq<Value>) returns (result: Result<Value, Failure>)
    requires interpreter.Valid() && |arguments| >= Arity(f)
    modifies interpreter, interpreter.globals
    ensures interpreter.Valid() && interpreter.environment == old(interpreter.environment)
    ensures var (r, c) := ExecList(f.declaration.body,
                                    Config([BindParams(f.declaration.params, arguments), old(interpreter.globals.values)], old(interpreter.output)),
                                    interpreter.host);
      && result == CallResult(r)
      && interpreter.globals.values == c.scopes[1]
      && interpreter.output == c.output
    ensures interpreter.environment.ScopeMaps()
         == old(interpreter.environment.ScopeMaps())[|interpreter.environment.ancestors| := interpreter.globals.values]
  {
    var caller := interpreter.environment;
    caller.OutermostOnlyLast();
    var completion := RunBody(f, interpreter, arguments);
    result := CallResult(completion);
    caller.OnlyOutermostChanged();
  }
}
