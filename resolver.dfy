/**
 * The resolver's stack of block scopes, each mapping a name to whether its
 * initializer has been resolved. The stack is empty at top level, gains a
 * fresh scope when a block starts and loses it when the block ends. Which
 * statement is resolved at which stack depth is recorded in a ghost trace,
 * so that the order of the walk can be stated.
 */
module Resolution {
  import opened Ast
  import opened Interp

  /** A statement visit and the number of scopes on the stack while it is resolved. */
  type Visit = (Stmt, nat)

  /**
   * The visits of resolving `statements` with `depth` scopes on the stack:
   * each statement in order, and a block's own statements right after the
   * block, one scope deeper.
   */
  function Visits(statements: seq<Stmt>, depth: nat): (visits: seq<Visit>)
    ensures |visits| >= |statements|
    ensures forall k :: 0 <= k < |visits| ==> visits[k].1 >= depth
    decreases statements
  {
    if statements == [] then []
    else
      var first := statements[0];
      var nested := if first.BlockStmt? then Visits(first.statements, depth + 1) else [];
      [(first, depth)] + nested + Visits(statements[1..], depth)
  }

  /** The statements visited with exactly `depth` scopes on the stack, in visiting order. */
  function AtDepth(visits: seq<Visit>, depth: nat): (statements: seq<Stmt>)
    ensures |statements| <= |visits|
  {
    if visits == [] then []
    else (if visits[0].1 == depth then [visits[0].0] else []) + AtDepth(visits[1..], depth)
  }

  lemma {:induction false} AtDepthConcat(a: seq<Visit>, b: seq<Visit>, depth: nat)
    ensures AtDepth(a + b, depth) == AtDepth(a, depth) + AtDepth(b, depth)
  {
    if a != [] {
      assert (a + b)[0] == a[0] && (a + b)[1..] == a[1..] + b;
      AtDepthConcat(a[1..], b, depth);
    } else {
      assert a + b == b;
    }
  }

  lemma {:induction false} AtDepthDeeper(visits: seq<Visit>, depth: nat)
    requires forall k :: 0 <= k < |visits| ==> visits[k].1 > depth
    ensures AtDepth(visits, depth) == []
  {
    if visits != [] {
      AtDepthDeeper(visits[1..], depth);
    }
  }

  /**
   * Resolving a list visits exactly its own statements at the current depth,
   * in order: everything else it visits lies inside a block, deeper.
   */
  lemma {:induction false} VisitsInOrder(statements: seq<Stmt>, depth: nat)
    ensures AtDepth(Visits(statements, depth), depth) == statements
    decreases statements
  {
    if statements != [] {
      var first := statements[0];
      var nested := if first.BlockStmt? then Visits(first.statements, depth + 1) else [];
      var rest := Visits(statements[1..], depth);
      assert Visits(statements, depth) == [(first, depth)] + nested + rest;
      AtDepthConcat([(first, depth)] + nested, rest, depth);
      AtDepthConcat([(first, depth)], nested, depth);
      AtDepthDeeper(nested, depth);
      assert AtDepth([(first, depth)], depth) == [first];
      VisitsInOrder(statements[1..], depth);
      assert [first] + statements[1..] == statements;
    }
  }

  /** Resolving two lists one after the other visits what resolving their concatenation visits. */
  lemma {:induction false} VisitsConcat(a: seq<Stmt>, b: seq<Stmt>, depth: nat)
    ensures Visits(a + b, depth) == Visits(a, depth) + Visits(b, depth)
    decreases a
  {
    if a != [] {
      assert (a + b)[0] == a[0] && (a + b)[1..] == a[1..] + b;
      VisitsConcat(a[1..], b, depth);
    } else {
      assert a + b == b;
    }
  }

  /** Resolving one more statement of a list extends the visits of the prefix resolved so far. */
  lemma VisitsPrefix(statements: seq<Stmt>, i: nat, depth: nat)
    requires i < |statements|
    ensures Visits(statements[..i + 1], depth) == Visits(statements[..i], depth) + Visits([statements[i]], depth)
  {
    VisitsConcat(statements[..i], [statements[i]], depth);
    assert statements[..i] + [statements[i]] == statements[..i + 1];
  }

  /** A block's own statements are visited right after it, with one more scope on the stack. */
  lemma BlockBodyOneDeeper(block: Stmt, depth: nat)
    requires block.BlockStmt?
    ensures Visits([block], depth) == [(block, depth)] + Visits(block.statements, depth + 1)
  {
    assert [block][1..] == [];
  }

  class Resolver {
    const interpreter: Interpreter
    /** The scopes of the enclosing blocks, outermost first and innermost last, as on a stack. */
    var scopes: seq<map<string, bool>>
    /** Every statement resolved so far, with the stack depth at the time. */
    ghost var visited: seq<Visit>

    /** A resolver starts at top level: no scope on the stack, so every name is global. */
    constructor (interpreter: Interpreter)
      ensures this.interpreter == interpreter
      ensures scopes == [] && visited == []
    {
      this.interpreter := interpreter;
      scopes := [];
      visited := [];
    }

    /** Push one fresh, empty scope; the scopes already there are unchanged. */
    method BeginScope()
      modifies this
      ensures scopes == old(scopes) + [map[]]
      ensures visited == old(visited)
    {
      scopes := scopes + [map[]];
    }

    /** Pop exactly the innermost scope. */
    method EndScope()
      requires |scopes| > 0
      modifies this
      ensures scopes == old(scopes)[..|old(scopes)| - 1]
      ensures visited == old(visited)
    {
      scopes := scopes[..|scopes| - 1];
    }

    /** Resolve the statements in order; the stack is the same afterwards. */
    method Resolve(statements: seq<Stmt>)
      modifies this
      ensures scopes == old(scopes)
      ensures visited == old(visited) + Visits(statements, |old(scopes)|)
      decreases statements
    {
      ghost var depth := |scopes|;
      for i := 0 to |statements|
        invariant scopes == old(scopes)
        invariant visited == old(visited) + Visits(statements[..i], depth)
      {
        VisitsPrefix(statements, i, depth);
        ResolveStmt(statements[i]);
      }
      assert statements[..|statements|] == statements;
    }

    /** Resolve one statement. Only blocks touch the stack; every other statement leaves it alone. */
    method ResolveStmt(stmt: Stmt)
      modifies this
      ensures scopes == old(scopes)
      ensures visited == old(visited) + Visits([stmt], |old(scopes)|)
      decreases stmt, 1
    {
      visited := visited + [(stmt, |scopes|)];
      if stmt.BlockStmt? {
        BlockBodyOneDeeper(stmt, |scopes|);
        VisitBlockStmt(stmt);
      } else {
        assert [stmt][1..] == [];
      }
    }

    /** A block is resolved one scope deeper, and the stack is as it found it afterwards. */
    method VisitBlockStmt(stmt: Stmt)
      requires stmt.BlockStmt?
      modifies this
      ensures scopes == old(scopes)
      ensures visited == old(visited) + Visits(stmt.statements, |old(scopes)| + 1)
      decreases stmt, 0
    {
      BeginScope();
      Resolve(stmt.statements);
      EndScope();
    }
  }
}
