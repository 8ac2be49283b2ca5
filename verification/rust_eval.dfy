/** The Rust evaluator skeleton (src/eval/mod.rs, src/eval/error.rs): integers evaluate
    to themselves, symbols to their binding, and a program to the value of its last
    expression. A list form evaluates its head and then has no case to continue with:
    the source's `match` on the head's value has no arms, so the model reports the
    value as `NoForm`, an error the source does not define. The evaluator only reads
    its state. */
module RustEval {
  import opened Wrappers
  import A = RustAst
  import opened RustObject
  import S = RustScope
  import L = RustLex
  import P = RustParse

  /** `Error`, plus the model's `NoForm` for a list whose head evaluated. */
  datatype Error = UnboundVar(name: string) | EmptyListForm | NoForm(head: Object)

  datatype State = State(scopes: S.ScopeStack)

  /** `State::new`: one empty table, so no name is bound. */
  function NewState(): (st: State)
    ensures |st.scopes.scopes| == 1
    ensures forall name :: S.Find(st.scopes, name).None?
  {
    State(S.New())
  }

  /** `eval_expr`. */
  function EvalExpr(st: State, e: A.Expr): (r: Result<Object, Error>)
    ensures e.Symbol? ==> (r.Ok? <==> S.Find(st.scopes, e.name).Some?)
    ensures e.Symbol? && r.Err? ==> r.error == UnboundVar(e.name)
    ensures e.IntLiteral? ==> r == Ok(Int(e.value))
    decreases e, 1
  {
    match e
    case List(body) => EvalList(st, body)
    case Symbol(name) =>
      (match S.Find(st.scopes, name)
       case Some(o) => Ok(o)
       case None => Err(UnboundVar(name)))
    case IntLiteral(n) => Ok(Int(n))
  }

  /** `eval_list`: an empty form is an error; otherwise the head is evaluated and its
      error passed on. No list form has a value. */
  function EvalList(st: State, body: seq<A.Expr>): (r: Result<Object, Error>)
    ensures r.Err?
    ensures body == [] ==> r == Err(EmptyListForm)
    decreases body, 0
  {
    if body == [] then Err(EmptyListForm)
    else
      match EvalExpr(st, body[0])
      case Err(err) => Err(err)
      case Ok(o) => Err(NoForm(o))
  }

  /** An expression has a value exactly when it is an integer or a bound symbol. */
  lemma EvalOk(st: State, e: A.Expr)
    ensures EvalExpr(st, e).Ok? <==> e.IntLiteral? || (e.Symbol? && S.Find(st.scopes, e.name).Some?)
  {
  }

  /** The expression a list form's evaluation reaches: heads of heads, down to an atom or
      an empty list. */
  function InnerHead(e: A.Expr): (h: A.Expr)
    ensures !h.List? || h.items == []
    decreases e
  {
    if e.List? && e.items != [] then InnerHead(e.items[0]) else e
  }

  /** A list form fails with the error its innermost head gives: `EmptyListForm` for an
      empty list, the atom's own error, or `NoForm` of the atom's value. */
  lemma {:induction false} ListError(st: State, body: seq<A.Expr>)
    ensures var h := InnerHead(A.List(body));
      EvalList(st, body) == Err(
        if h.List? then EmptyListForm
        else match EvalExpr(st, h)
          case Err(err) => err
          case Ok(o) => NoForm(o))
    decreases body
  {
    if body != [] {
      var head := body[0];
      assert InnerHead(A.List(body)) == InnerHead(head);
      if head.List? {
        ListError(st, head.items);
      }
    }
  }

  /** `eval_ast`: evaluates the expressions in order, stops at the first error, and
      otherwise gives the last value, or nil for an empty program. */
  method EvalAst(st: State, prog: A.Program) returns (r: Result<Object, Error>)
    ensures prog == [] ==> r == Ok(Nil)
    ensures r.Ok? ==> forall k :: 0 <= k < |prog| ==> EvalExpr(st, prog[k]).Ok?
    ensures r.Ok? && prog != [] ==> r.value == EvalExpr(st, prog[|prog| - 1]).value
    ensures r.Err? ==> exists k :: 0 <= k < |prog| && EvalExpr(st, prog[k]) == Err(r.error)
                                   && forall j :: 0 <= j < k ==> EvalExpr(st, prog[j]).Ok?
  {
    var last: Option<Object> := None;
    for i := 0 to |prog|
      invariant forall k :: 0 <= k < i ==> EvalExpr(st, prog[k]).Ok?
      invariant i == 0 ==> last == None
      invariant i > 0 ==> last == Some(EvalExpr(st, prog[i - 1]).value)
    {
      var v := EvalExpr(st, prog[i]);
      if v.Err? {
        assert EvalExpr(st, prog[i]) == Err(v.error);
        return Err(v.error);
      }
      last := Some(v.value);
    }
    r := Ok(if last.Some? then last.value else Nil);
  }

  /** `eval_program` without its printing: lexes, parses and evaluates in a fresh state.
      A lexing error is a panic, modelled as `None`; parsing cannot fail, and the tokens
      it does not consume are ignored. */
  method EvalProgram(source: string) returns (r: Option<Result<Object, Error>>)
    ensures r.None? <==> L.Lex(source).Err?
    ensures source == [] ==> r == Some(Ok(Nil))
    ensures r.Some? ==> (r.value.Ok? <==> forall k :: 0 <= k < |P.ParseTokens(L.Lex(source).value).value| ==>
                                          EvalExpr(NewState(), P.ParseTokens(L.Lex(source).value).value[k]).Ok?)
  {
    var lexed := L.Lex(source);
    if lexed.Err? {
      return None;
    }
    var prog := P.ParseTokens(lexed.value).value;
    if source == [] {
      assert lexed.value == [];
      assert P.Many([]) == P.Done([], []);
    }
    var v := EvalAst(NewState(), prog);
    r := Some(v);
  }
}
