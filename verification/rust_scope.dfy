/** The evaluator's scope stack (src/eval/scope.rs): a stack of name-to-value tables,
    searched from the innermost outwards. An inner binding hides an outer one of the same
    name. The stack is a value; each operation returns the new stack. */
module RustScope {
  import opened Wrappers
  import opened RustObject

  type Scope = map<string, Object>

  datatype ScopeStack = ScopeStack(scopes: seq<Scope>)

  /** `i` is the innermost table of `scopes` that binds `name`. */
  predicate InnermostAt(scopes: seq<Scope>, name: string, i: int) {
    && 0 <= i < |scopes|
    && name in scopes[i]
    && forall j :: i < j < |scopes| ==> name !in scopes[j]
  }

  /** `find`: the value in the innermost table that binds `name`. */
  function Find(ss: ScopeStack, name: string): (r: Option<Object>)
    ensures r.None? <==> forall i :: 0 <= i < |ss.scopes| ==> name !in ss.scopes[i]
    ensures r.Some? ==> exists i :: InnermostAt(ss.scopes, name, i) && ss.scopes[i][name] == r.value
    decreases |ss.scopes|
  {
    var s := ss.scopes;
    if s == [] then None
    else if name in s[|s| - 1] then
      assert InnermostAt(s, name, |s| - 1);
      Some(s[|s| - 1][name])
    else
      var outer := ScopeStack(s[..|s| - 1]);
      var r := Find(outer, name);
      if r.Some? then
        InnermostBelow(s, outer.scopes, name, r.value);
        r
      else
        assert forall i :: 0 <= i < |s| - 1 ==> outer.scopes[i] == s[i];
        r
  }

  /** A binding that is innermost below an innermost table that lacks the name is
      innermost in the whole stack. */
  lemma InnermostBelow(s: seq<Scope>, outer: seq<Scope>, name: string, v: Object)
    requires |s| > 0 && name !in s[|s| - 1] && outer == s[..|s| - 1]
    requires exists i :: InnermostAt(outer, name, i) && outer[i][name] == v
    ensures exists i :: InnermostAt(s, name, i) && s[i][name] == v
  {
    var i :| InnermostAt(outer, name, i) && outer[i][name] == v;
    assert outer[i] == s[i];
    forall j | i < j < |s| ensures name !in s[j] {
      if j < |s| - 1 {
        assert outer[j] == s[j];
      }
    }
    assert InnermostAt(s, name, i);
  }

  /** `ScopeStack::new`: one empty table. */
  function New(): (r: ScopeStack)
    ensures |r.scopes| == 1
    ensures forall name :: Find(r, name) == None
  {
    ScopeStack([map[]])
  }

  /** Stacks that agree outside the innermost table, and on `name` inside it, agree on
      what `name` finds. */
  lemma FindSameTop(a: ScopeStack, b: ScopeStack, name: string)
    requires |a.scopes| == |b.scopes| > 0
    requires a.scopes[..|a.scopes| - 1] == b.scopes[..|b.scopes| - 1]
    requires var n := |a.scopes| - 1;
      (name in a.scopes[n] <==> name in b.scopes[n])
      && (name in a.scopes[n] ==> a.scopes[n][name] == b.scopes[n][name])
    ensures Find(a, name) == Find(b, name)
  {
  }

  /** `declare`: binds `name` in the innermost table, replacing a binding it already
      has there. The source panics on an empty stack, which no stack built by `New`
      and `AddScope` is. */
  function Declare(ss: ScopeStack, name: string, val: Object): (r: ScopeStack)
    requires |ss.scopes| > 0
    ensures |r.scopes| == |ss.scopes|
    ensures r.scopes[..|ss.scopes| - 1] == ss.scopes[..|ss.scopes| - 1]
    ensures Find(r, name) == Some(val)
    ensures forall other :: other != name ==> Find(r, other) == Find(ss, other)
  {
    var n := |ss.scopes| - 1;
    var r := ScopeStack(ss.scopes[..n] + [ss.scopes[n][name := val]]);
    assert r.scopes[..n] == ss.scopes[..n];
    forall other | other != name
      ensures Find(r, other) == Find(ss, other)
    {
      FindSameTop(r, ss, other);
    }
    r
  }

  /** Declaring a name twice in the same table keeps only the second value. */
  lemma DeclareTwice(ss: ScopeStack, name: string, a: Object, b: Object)
    requires |ss.scopes| > 0
    ensures Declare(Declare(ss, name, a), name, b) == Declare(ss, name, b)
  {
    var n := |ss.scopes| - 1;
    var once := Declare(ss, name, a);
    assert once.scopes[..n] == ss.scopes[..n];
    assert once.scopes[n] == ss.scopes[n][name := a];
    assert once.scopes[n][name := b] == ss.scopes[n][name := b];
  }

  /** `add_scope`: pushes an empty table, which hides nothing. */
  function AddScope(ss: ScopeStack): (r: ScopeStack)
    ensures |r.scopes| == |ss.scopes| + 1
    ensures r.scopes[..|ss.scopes|] == ss.scopes
    ensures forall name :: Find(r, name) == Find(ss, name)
  {
    var r := ScopeStack(ss.scopes + [map[]]);
    assert r.scopes[..|ss.scopes|] == ss.scopes;
    r
  }

  /** A declaration in a new inner table hides an outer binding of the same name and
      leaves the outer tables as they were. */
  lemma {:induction false} Shadow(ss: ScopeStack, name: string, val: Object)
    ensures Find(Declare(AddScope(ss), name, val), name) == Some(val)
    ensures Declare(AddScope(ss), name, val).scopes[..|ss.scopes|] == ss.scopes
    ensures Declare(AddScope(ss), name, val).scopes[|ss.scopes|] == map[name := val]
  {
    var inner := AddScope(ss);
    var r := Declare(inner, name, val);
    assert inner.scopes[|ss.scopes|] == map[];
    assert r.scopes[..|ss.scopes|] == inner.scopes[..|ss.scopes|];
  }
}
