/** The solver's scope stack (src/solve/scope.go): a stack of symbol tables under the
    built-in names, with no shadowing. The stack is a value; each operation returns the
    new stack. */
module SolveScope {
  import opened Wrappers
  import opened Types
  import opened SolveBuiltins

  type Table = map<string, Type>

  datatype ScopeStack = ScopeStack(stack: seq<Table>)

  /** `ErrVariableDefined`. */
  datatype DefError = VariableDefined

  /** The binding of `name` in the innermost table of `tables` that has one. */
  function Innermost(tables: seq<Table>, name: string): (r: Option<Type>)
    ensures r.Some? <==> exists i :: 0 <= i < |tables| && name in tables[i]
    ensures r.Some? ==> exists i :: 0 <= i < |tables| && name in tables[i] && tables[i][name] == r.value
                                    && forall j :: i < j < |tables| ==> name !in tables[j]
  {
    if |tables| == 0 then None
    else
      var top := tables[|tables| - 1];
      if name in top then Some(top[name])
      else
        var r := Innermost(tables[..|tables| - 1], name);
        assert forall i :: 0 <= i < |tables| - 1 ==> tables[..|tables| - 1][i] == tables[i];
        r
  }

  /** `Find`: builtins first, then the tables from the innermost outwards. */
  function Find(ss: ScopeStack, name: string): (r: Option<Type>)
    ensures BuiltinsType(name).Some? ==> r == BuiltinsType(name)
    ensures BuiltinsType(name).None? ==> r == Innermost(ss.stack, name)
  {
    match BuiltinsType(name)
    case Some(t) => Some(t)
    case None => Innermost(ss.stack, name)
  }

  /** `Find` succeeds exactly for builtins and for names bound in some table. */
  lemma FindFound(ss: ScopeStack, name: string)
    ensures Find(ss, name).Some? <==> IsOperator(name) || exists i :: 0 <= i < |ss.stack| && name in ss.stack[i]
  {
  }

  /** `AddScope`: one more, empty, innermost table. */
  function AddScope(ss: ScopeStack): (r: ScopeStack)
    ensures |r.stack| == |ss.stack| + 1
    ensures r.stack[..|ss.stack|] == ss.stack && r.stack[|ss.stack|] == map[]
  {
    ScopeStack(ss.stack + [map[]])
  }

  /** `Pop`: removes and returns the innermost table. */
  function Pop(ss: ScopeStack): (r: (ScopeStack, Table))
    requires |ss.stack| > 0
    ensures r.0.stack + [r.1] == ss.stack
  {
    (ScopeStack(ss.stack[..|ss.stack| - 1]), ss.stack[|ss.stack| - 1])
  }

  /** Pushing a table and popping it again gives back the stack and an empty table. */
  lemma PopAddScope(ss: ScopeStack)
    ensures Pop(AddScope(ss)) == (ss, map[])
  {
    assert AddScope(ss).stack[..|ss.stack|] == ss.stack;
  }

  /** `DefSymbol`: binds `name` in the innermost table unless it is a builtin or bound in
      any table of the stack. The stack comes back unchanged with the error. */
  function DefSymbol(ss: ScopeStack, name: string, typ: Type): (r: (ScopeStack, Option<DefError>))
    requires |ss.stack| > 0
    ensures r.1.Some? <==> IsOperator(name) || exists i :: 0 <= i < |ss.stack| && name in ss.stack[i]
    ensures r.1.Some? ==> r.0 == ss
    ensures r.1.None? ==>
      && |r.0.stack| == |ss.stack|
      && r.0.stack[..|ss.stack| - 1] == ss.stack[..|ss.stack| - 1]
      && r.0.stack[|ss.stack| - 1] == ss.stack[|ss.stack| - 1][name := typ]
  {
    if BuiltinsType(name).Some? then (ss, Some(VariableDefined))
    else if Innermost(ss.stack, name).Some? then (ss, Some(VariableDefined))
    else
      var last := |ss.stack| - 1;
      (ScopeStack(ss.stack[last := ss.stack[last][name := typ]]), None)
  }

  /** After a successful definition, `Find` returns the new binding. */
  lemma DefThenFind(ss: ScopeStack, name: string, typ: Type)
    requires |ss.stack| > 0
    requires DefSymbol(ss, name, typ).1.None?
    ensures Find(DefSymbol(ss, name, typ).0, name) == Some(typ)
  {
  }

  /** A successful definition changes what no other name resolves to. */
  lemma DefLeavesOthers(ss: ScopeStack, name: string, typ: Type, other: string)
    requires |ss.stack| > 0
    requires other != name
    ensures Find(DefSymbol(ss, name, typ).0, other) == Find(ss, other)
  {
    var r := DefSymbol(ss, name, typ).0;
    if DefSymbol(ss, name, typ).1.None? {
      forall i | 0 <= i < |ss.stack|
        ensures (other in r.stack[i]) == (other in ss.stack[i])
        ensures other in ss.stack[i] ==> r.stack[i][other] == ss.stack[i][other]
      {
      }
      InnermostSame(r.stack, ss.stack, other);
    }
  }

  lemma {:induction false} InnermostSame(a: seq<Table>, b: seq<Table>, name: string)
    requires |a| == |b|
    requires forall i :: 0 <= i < |a| ==> (name in a[i]) == (name in b[i])
    requires forall i :: 0 <= i < |a| && name in a[i] ==> a[i][name] == b[i][name]
    ensures Innermost(a, name) == Innermost(b, name)
  {
    if |a| > 0 {
      var n := |a| - 1;
      InnermostSame(a[..n], b[..n], name);
    }
  }

  /** No shadowing: a name bound in an outer table cannot be bound again further in. */
  lemma NoShadowing(ss: ScopeStack, name: string, typ: Type)
    requires Find(ss, name).Some?
    ensures DefSymbol(AddScope(ss), name, typ) == (AddScope(ss), Some(VariableDefined))
  {
    FindFound(ss, name);
    var a := AddScope(ss);
    if !IsOperator(name) {
      var i :| 0 <= i < |ss.stack| && name in ss.stack[i];
      assert a.stack[i] == ss.stack[i];
    }
  }
}
