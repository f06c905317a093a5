/**
 * The environment chain: each scope instance maps names to values and links
 * to the scope that encloses it; the global environment links to nothing.
 *
 * The first half states the chain's behaviour on a value: a sequence of
 * maps, innermost first. The second half is the mutable `Environment`
 * object of the interpreter, whose methods are proved against that view.
 */
module Environments {
  import opened Wrappers
  import opened Ast
  import opened Values

  /** The maps of a chain of environments, innermost first. */
  type Scopes = seq<map<string, Value>>

  /** The position of the innermost scope that binds `name`, or |scopes| when none does. */
  function FindScope(scopes: Scopes, name: string): (k: nat)
    ensures k <= |scopes|
    ensures k < |scopes| ==> name in scopes[k]
    ensures forall j :: 0 <= j < k ==> name !in scopes[j]
  {
    if scopes == [] then 0
    else if name in scopes[0] then 0
    else FindScope(scopes[1..], name) + 1
  }

  /** The value the innermost binding of `name` holds, if any scope binds it. */
  function Lookup(scopes: Scopes, name: string): (found: Option<Value>)
    ensures found.Some? <==> exists j :: 0 <= j < |scopes| && name in scopes[j]
    ensures found.Some? ==> exists j :: 0 <= j < |scopes| && name in scopes[j] && found.value == scopes[j][name]
  {
    var k := FindScope(scopes, name);
    if k < |scopes| then Some(scopes[k][name]) else None
  }

  /** Reading a name: its innermost binding, or "Undefined var" naming it. */
  function LookupResult(scopes: Scopes, name: Token): (r: Result<Value, Failure>)
    ensures r.Err? <==> forall j :: 0 <= j < |scopes| ==> name.lexeme !in scopes[j]
    ensures r.Err? ==> r.error == UndefinedVariable(name)
    ensures r.Ok? ==> Lookup(scopes, name.lexeme) == Some(r.value)
  {
    match Lookup(scopes, name.lexeme)
    case Some(v) => Ok(v)
    case None => Err(UndefinedVariable(name))
  }

  /**
   * Assigning a name: overwrite its innermost binding and nothing else;
   * `None` when no scope binds it, since assignment never creates a binding.
   */
  function AssignIn(scopes: Scopes, name: string, v: Value): (updated: Option<Scopes>)
    ensures updated.Some? <==> exists j :: 0 <= j < |scopes| && name in scopes[j]
    ensures updated.Some? ==> |updated.value| == |scopes|
    ensures updated.Some? ==> forall j :: 0 <= j < |scopes| ==> updated.value[j].Keys == scopes[j].Keys
    ensures updated.Some? ==> Lookup(updated.value, name) == Some(v)
    ensures updated.Some? ==> forall j :: 0 <= j < |scopes| && j != FindScope(scopes, name) ==> updated.value[j] == scopes[j]
  {
    var k := FindScope(scopes, name);
    if k < |scopes| then
      var s := scopes[k := scopes[k][name := v]];
      assert FindScope(s, name) == k by { FindScopeKeys(scopes, s, name); }
      Some(s)
    else None
  }

  /** Defining a name: insert or overwrite it in the innermost scope only. */
  function DefineIn(scopes: Scopes, name: string, v: Value): (defined: Scopes)
    requires |scopes| > 0
    ensures |defined| == |scopes| && defined[1..] == scopes[1..]
    ensures defined[0].Keys == scopes[0].Keys + {name}
    ensures forall n :: n != name && n in scopes[0] ==> defined[0][n] == scopes[0][n]
    ensures Lookup(defined, name) == Some(v)
  {
    scopes[0 := scopes[0][name := v]]
  }

  /** Two chains whose scopes bind the same names find every name at the same position. */
  lemma {:induction false} FindScopeKeys(s: Scopes, t: Scopes, name: string)
    requires |s| == |t|
    requires forall j :: 0 <= j < |s| ==> s[j].Keys == t[j].Keys
    ensures FindScope(s, name) == FindScope(t, name)
  {
    if s != [] && name !in s[0] {
      FindScopeKeys(s[1..], t[1..], name);
    }
  }

  /** An inner binding shadows every outer one. */
  lemma LookupShadows(inner: map<string, Value>, outer: Scopes, name: string)
    requires name in inner
    ensures Lookup([inner] + outer, name) == Some(inner[name])
  {
  }

  /** A scope that does not bind `name` is passed over. */
  lemma LookupSkips(inner: map<string, Value>, outer: Scopes, name: string)
    requires name !in inner
    ensures Lookup([inner] + outer, name) == Lookup(outer, name)
    ensures FindScope([inner] + outer, name) == FindScope(outer, name) + 1
  {
    assert ([inner] + outer)[1..] == outer;
  }

  /**
   * A scope that does not bind the name, put in front of a chain that was
   * assigned at its innermost binding, gives a chain assigned at the same
   * binding, one position further out.
   */
  lemma AssignedFurtherOut(inner: map<string, Value>, outer: Scopes, updated: Scopes, name: string, v: Value)
    requires name !in inner
    requires var k := FindScope(outer, name);
      && (k < |outer| ==> updated == outer[k := outer[k][name := v]])
      && (k == |outer| ==> updated == outer)
    ensures FindScope([inner] + outer, name) == FindScope(outer, name) + 1
    ensures var k := FindScope([inner] + outer, name);
      && (k < |outer| + 1 ==> [inner] + updated == ([inner] + outer)[k := ([inner] + outer)[k][name := v]])
      && (k == |outer| + 1 ==> [inner] + updated == [inner] + outer)
  {
    LookupSkips(inner, outer, name);
    var k := FindScope(outer, name);
    if k < |outer| {
      assert [inner] + outer[k := outer[k][name := v]] == ([inner] + outer)[k + 1 := ([inner] + outer)[k + 1][name := v]];
    }
  }

  /** `AssignIn` writes the innermost scope that binds the name, and fails when none does. */
  lemma AssignAtInnermostBinding(scopes: Scopes, name: string, v: Value)
    ensures var k := FindScope(scopes, name);
      AssignIn(scopes, name, v) == if k < |scopes| then Some(scopes[k := scopes[k][name := v]]) else None
  {
  }

  /** Assigning through a scope that does not bind `name` leaves that scope alone and assigns in the rest. */
  lemma AssignSkips(inner: map<string, Value>, outer: Scopes, name: string, v: Value)
    requires name !in inner
    ensures AssignIn([inner] + outer, name, v) ==
      match AssignIn(outer, name, v) case None => None case Some(s) => Some([inner] + s)
  {
    AssignAtInnermostBinding(outer, name, v);
    AssignAtInnermostBinding([inner] + outer, name, v);
    var k := FindScope(outer, name);
    AssignedFurtherOut(inner, outer, if k < |outer| then outer[k := outer[k][name := v]] else outer, name, v);
  }

  /** Assigning one name changes what no other name reads. */
  lemma {:induction false} AssignLeavesOtherNames(scopes: Scopes, name: string, other: string, v: Value)
    requires other != name
    requires AssignIn(scopes, name, v).Some?
    ensures Lookup(AssignIn(scopes, name, v).value, other) == Lookup(scopes, other)
  {
    var s := AssignIn(scopes, name, v).value;
    FindScopeKeys(scopes, s, other);
    var k := FindScope(scopes, other);
    if k < |scopes| {
      assert s[k][other] == scopes[k][other];
    }
  }

  /** After `define`, a read of the same name in the same scope yields the defined value. */
  lemma DefineThenLookup(scopes: Scopes, name: string, v: Value)
    requires |scopes| > 0
    ensures LookupResult(DefineIn(scopes, name, v), Token(Identifier, name, 0)) == Ok(v)
  {
  }

  /** The maps held by a sequence of environments, in the same order. */
  ghost function ValuesOf(envs: seq<Environment>): (maps: Scopes)
    reads envs
    ensures |maps| == |envs|
    ensures forall i :: 0 <= i < |envs| ==> maps[i] == envs[i].values
  {
    if envs == [] then [] else [envs[0].values] + ValuesOf(envs[1..])
  }

  class Environment {
    var values: map<string, Value>
    const enclosing: Environment?
    /** The environments reached through `enclosing`, nearest first; the last one is the global environment. */
    ghost const ancestors: seq<Environment>

    /** `ancestors` starts with `enclosing`, and is empty exactly when there is no enclosing environment. */
    ghost predicate Linked()
    {
      && (enclosing == null <==> ancestors == [])
      && (enclosing != null ==> ancestors[0] == enclosing)
    }

    /** The `enclosing` links form a finite chain, recorded in `ancestors`, that ends at an environment without one. */
    ghost predicate Valid()
      decreases |ancestors|
    {
      && Linked()
      && (enclosing != null ==> enclosing.ancestors == ancestors[1..] && enclosing.Valid())
    }

    /** This environment followed by its ancestors. */
    ghost function Chain(): seq<Environment>
    {
      [this] + ancestors
    }

    /** The chain's maps, innermost first: the abstract state of this environment. */
    ghost function ScopeMaps(): Scopes
      reads Chain()
    {
      ValuesOf(Chain())
    }

    /** The global environment when `enclosing` is null, otherwise an empty scope inside `enclosing`. */
    constructor (enclosing: Environment?)
      requires enclosing != null ==> enclosing.Valid()
      ensures Valid()
      ensures this.enclosing == enclosing && values == map[]
      ensures ancestors == if enclosing == null then [] else enclosing.Chain()
    {
      this.enclosing := enclosing;
      this.values := map[];
      this.ancestors := if enclosing == null then [] else enclosing.Chain();
      new;
      if enclosing != null {
        assert ancestors[1..] == enclosing.ancestors;
      }
    }

    /** The enclosing environment is itself a valid chain: this one's ancestors after the first. */
    lemma EnclosingValid()
      requires Valid() && enclosing != null
      ensures enclosing.Valid()
      ensures enclosing.ancestors == ancestors[1..]
      ensures enclosing.Chain() == ancestors
    {
      assert [ancestors[0]] + ancestors[1..] == ancestors;
    }

    /** The k-th ancestor is a valid chain made of the ancestors after it. */
    lemma AncestorTail(k: nat)
      requires Valid() && k < |ancestors|
      ensures ancestors[k].Valid() && ancestors[k].ancestors == ancestors[k + 1..]
      decreases |ancestors|
    {
      EnclosingValid();
      if k > 0 {
        enclosing.AncestorTail(k - 1);
        assert ancestors[k] == enclosing.ancestors[k - 1];
        assert enclosing.ancestors[k..] == ancestors[k + 1..];
      }
    }

    /** Every environment of the chain heads the rest of the chain. */
    lemma ChainTail(i: nat)
      requires Valid() && i < |Chain()|
      ensures Chain()[i].Valid() && Chain()[i].Chain() == Chain()[i..]
    {
      if i > 0 {
        AncestorTail(i - 1);
        assert Chain()[i..] == [ancestors[i - 1]] + ancestors[i..];
      }
    }

    /** No environment occurs twice in a chain: the chain has no cycle. */
    lemma ChainDistinct(i: nat, j: nat)
      requires Valid() && i < j < |Chain()|
      ensures Chain()[i] != Chain()[j]
    {
      ChainTail(i);
      ChainTail(j);
    }

    /** The last environment of the chain, the global one, occurs nowhere else in it. */
    lemma OutermostOnlyLast()
      requires Valid()
      ensures forall k :: 0 <= k < |ancestors| ==> Chain()[k] != Chain()[|ancestors|]
    {
      forall k | 0 <= k < |ancestors|
        ensures Chain()[k] != Chain()[|ancestors|]
      {
        ChainDistinct(k, |ancestors|);
      }
    }

    /** An environment is not among its own ancestors. */
    lemma NotOwnAncestor()
      requires Valid()
      ensures this !in ancestors
    {
      forall k | 0 <= k < |ancestors|
        ensures ancestors[k] != this
      {
        ChainDistinct(0, k + 1);
      }
    }

    /** When only this environment's map has changed, so has only the first scope. */
    twostate lemma OnlyOwnMapChanged()
      requires Valid() && this !in ancestors
      requires forall k :: 0 <= k < |ancestors| ==> ancestors[k].values == old(ancestors[k].values)
      ensures ScopeMaps() == old(ScopeMaps())[0 := values]
    {
    }

    /** When only the outermost environment's map has changed, so has only the last scope. */
    twostate lemma OnlyOutermostChanged()
      requires Valid()
      requires forall k :: 0 <= k < |ancestors| ==> Chain()[k].values == old(Chain()[k].values)
      ensures ScopeMaps() == old(ScopeMaps())[|ancestors| := Chain()[|ancestors|].values]
    {
    }

    /** The abstract state unfolds one link at a time. */
    lemma ScopeMapsUnfold()
      requires Valid()
      ensures |ScopeMaps()| == |ancestors| + 1 && ScopeMaps()[0] == values
      ensures enclosing == null ==> ScopeMaps() == [values]
      ensures enclosing != null ==> ScopeMaps() == [values] + enclosing.ScopeMaps()
    {
      if enclosing != null {
        EnclosingValid();
        assert ScopeMaps()[1..] == enclosing.ScopeMaps();
      }
    }

    /** Define a name in this environment only; the enclosing chain is not touched. */
    method Define(name: string, value: Value)
      requires Valid()
      modifies this
      ensures values == old(values)[name := value]
      ensures ScopeMaps() == DefineIn(old(ScopeMaps()), name, value)
    {
      NotOwnAncestor();
      values := values[name := value];
      assert ScopeMaps() == DefineIn(old(ScopeMaps()), name, value);
    }

    /** Read a name: from this scope if bound here, else from the enclosing chain, else "Undefined var". */
    function Get(name: Token): (r: Result<Value, Failure>)
      reads Chain()
      requires Valid()
      ensures r == LookupResult(ScopeMaps(), name)
      decreases |ancestors|
    {
      ScopeMapsUnfold();
      if name.lexeme in values then
        LookupShadows(values, ScopeMaps()[1..], name.lexeme);
        Ok(values[name.lexeme])
      else if enclosing != null then
        EnclosingValid();
        LookupSkips(values, enclosing.ScopeMaps(), name.lexeme);
        enclosing.Get(name)
      else
        Err(UndefinedVariable(name))
    }

    /**
     * Assign a name where it is bound, innermost first: the innermost scope
     * binding the name takes the new value and no other scope changes;
     * "Undefined var" when no scope binds it. The new scopes are those
     * `AssignIn` gives (`AssignAtInnermostBinding`).
     */
    method Assign(name: Token, value: Value) returns (r: Result<(), Failure>)
      requires Valid()
      modifies Chain()
      ensures var k := FindScope(old(ScopeMaps()), name.lexeme);
        && (k < |Chain()| ==> r == Ok(()) && ScopeMaps() == old(ScopeMaps())[k := old(ScopeMaps())[k][name.lexeme := value]])
        && (k == |Chain()| ==> r == Err(UndefinedVariable(name)) && ScopeMaps() == old(ScopeMaps()))
      decreases |ancestors|
    {
      ghost var before := ScopeMaps();
      ScopeMapsUnfold();
      NotOwnAncestor();
      if name.lexeme in values {
        values := values[name.lexeme := value];
        r := Ok(());
        OnlyOwnMapChanged();
      } else if enclosing != null {
        EnclosingValid();
        ghost var rest := enclosing.ScopeMaps();
        r := enclosing.Assign(name, value);
        ScopeMapsUnfold();
        AssignedFurtherOut(values, rest, enclosing.ScopeMaps(), name.lexeme, value);
      } else {
        r := Err(UndefinedVariable(name));
      }
    }
  }
}
