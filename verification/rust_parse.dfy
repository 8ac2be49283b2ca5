/** The Rust front end's parser (src/parse.rs), nom combinators over the token slice.
    Every parser either succeeds with the tokens it leaves and its value, or fails with a
    recoverable error at some position; `many0` turns such an error into the end of its
    list, so parsing a program never fails, it only stops early. */
module RustParse {
  import L = RustLex
  import A = RustAst

  type Tokens = seq<L.Token>

  /** nom's `IResult` over tokens, with only the recoverable `Err::Error` kind, the one
      every parser here raises. */
  datatype PResult<T> = Done(rest: Tokens, value: T) | Error(at: Tokens)

  /** `one`: takes the first token. */
  function One(ts: Tokens): (r: PResult<L.Token>)
    ensures r.Done? <==> ts != []
    ensures r.Done? ==> [r.value] + r.rest == ts
    ensures r.Error? ==> r.at == ts
  {
    if ts == [] then Error(ts) else Done(ts[1..], ts[0])
  }

  /** `lparen`: one `(`; a wrong token is reported after it. */
  function LParenTok(ts: Tokens): (r: PResult<()>)
    ensures r.Done? <==> ts != [] && ts[0] == L.LParen
    ensures r.Done? ==> [L.LParen] + r.rest == ts
    ensures r.Error? && ts != [] ==> [ts[0]] + r.at == ts
  {
    match One(ts)
    case Error(at) => Error(at)
    case Done(i, o) => if o == L.LParen then Done(i, ()) else Error(i)
  }

  /** `rparen`: one `)`; a wrong token is reported after it. */
  function RParenTok(ts: Tokens): (r: PResult<()>)
    ensures r.Done? <==> ts != [] && ts[0] == L.RParen
    ensures r.Done? ==> [L.RParen] + r.rest == ts
    ensures r.Error? && ts != [] ==> [ts[0]] + r.at == ts
  {
    match One(ts)
    case Error(at) => Error(at)
    case Done(i, o) => if o == L.RParen then Done(i, ()) else Error(i)
  }

  /** `parse_symbol`: one symbol token, keeping its text. */
  function ParseSymbol(ts: Tokens): (r: PResult<A.Expr>)
    ensures r.Done? <==> ts != [] && ts[0].Symbol?
    ensures r.Done? ==> r.value.Symbol? && [L.Symbol(r.value.name)] + r.rest == ts
  {
    match One(ts)
    case Error(at) => Error(at)
    case Done(i, o) => if o.Symbol? then Done(i, A.Symbol(o.text)) else Error(i)
  }

  /** `parse_int_literal`: one integer token, keeping its value. */
  function ParseIntLiteral(ts: Tokens): (r: PResult<A.Expr>)
    ensures r.Done? <==> ts != [] && ts[0].IntLiteral?
    ensures r.Done? ==> r.value.IntLiteral? && [L.IntLiteral(r.value.value)] + r.rest == ts
  {
    match One(ts)
    case Error(at) => Error(at)
    case Done(i, o) => if o.IntLiteral? then Done(i, A.IntLiteral(o.value)) else Error(i)
  }

  /** `parse_expr`: `alt` of a list, a symbol and an integer, the first that succeeds;
      when all fail, the last one's error. */
  function ParseExpr(ts: Tokens): (r: PResult<A.Expr>)
    ensures r.Done? ==> |r.rest| < |ts|
    decreases |ts|, 1
  {
    var list := ParseList(ts);
    if list.Done? then list
    else
      var sym := ParseSymbol(ts);
      if sym.Done? then sym else ParseIntLiteral(ts)
  }

  /** `parse_list`: `(`, any number of expressions, `)`. */
  function ParseList(ts: Tokens): (r: PResult<A.Expr>)
    ensures r.Done? ==> |r.rest| + 2 <= |ts| && r.value.List?
    decreases |ts|, 0
  {
    match LParenTok(ts)
    case Error(at) => Error(at)
    case Done(i, _) =>
      match Many(i)
      case Error(at) => Error(at)
      case Done(j, items) =>
        match RParenTok(j)
        case Error(at) => Error(at)
        case Done(k, _) => Done(k, A.List(items))
  }

  /** `many0(parse_expr)`: expressions until the first that fails, which ends the list
      where it started. nom reports an error instead of looping when the parser succeeds
      without consuming anything. */
  function Many(ts: Tokens): (r: PResult<seq<A.Expr>>)
    ensures r.Done? ==> |r.rest| <= |ts|
    decreases |ts|, 2
  {
    match ParseExpr(ts)
    case Error(_) => Done(ts, [])
    case Done(i, e) =>
      if |i| == |ts| then Error(ts)
      else
        match Many(i)
        case Error(at) => Error(at)
        case Done(j, es) => Done(j, [e] + es)
  }

  /** `parse_tokens`: a program is `many0(parse_expr)` over all the tokens; it need not
      consume them all. */
  function ParseTokens(ts: Tokens): (r: PResult<A.Program>)
    ensures r.Done?
  {
    ManyNeverFails(ts);
    Many(ts)
  }

  /** Every expression parser consumes input, so nom's guard against a parser that does
      not never fires and `many0` always succeeds. */
  lemma {:induction false} ManyNeverFails(ts: Tokens)
    ensures Many(ts).Done?
    decreases |ts|
  {
    match ParseExpr(ts)
    case Error(_) =>
    case Done(i, e) =>
      ManyNeverFails(i);
  }

  // ---------------------------------------------------------------------------
  // Expressions as tokens

  /** The tokens an expression is written with. */
  function Flatten(e: A.Expr): (ts: Tokens)
    ensures |ts| > 0
    decreases e
  {
    match e
    case List(items) => [L.LParen] + FlattenAll(items) + [L.RParen]
    case Symbol(name) => [L.Symbol(name)]
    case IntLiteral(v) => [L.IntLiteral(v)]
  }

  function FlattenAll(es: seq<A.Expr>): (ts: Tokens)
    ensures es == [] <==> ts == []
    decreases es
  {
    if es == [] then [] else Flatten(es[0]) + FlattenAll(es[1..])
  }

  lemma FlattenAllCons(e: A.Expr, es: seq<A.Expr>)
    ensures FlattenAll([e] + es) == Flatten(e) + FlattenAll(es)
  {
    assert ([e] + es)[1..] == es;
  }

  /** Where a list of expressions ends: at the end of input or at a `)`. */
  predicate Closes(rest: Tokens) {
    rest == [] || rest[0] == L.RParen
  }

  /** Where `many0` may stop: anything that cannot begin an expression that parses. */
  predicate Stops(rest: Tokens) {
    rest == [] || rest[0] == L.RParen || rest[0] == L.LParen
  }

  /** Parsing reads back an expression from its tokens, whatever follows them. */
  lemma {:induction false} ParseFlatten(e: A.Expr, rest: Tokens)
    ensures ParseExpr(Flatten(e) + rest) == Done(rest, e)
    decreases e, 1
  {
    var ts := Flatten(e) + rest;
    match e
    case List(items) =>
      var inner := FlattenAll(items);
      assert ts == [L.LParen] + (inner + ([L.RParen] + rest));
      assert ts[1..] == inner + ([L.RParen] + rest);
      ManyFlatten(items, [L.RParen] + rest);
      assert ParseList(ts) == Done(rest, e);
    case Symbol(name) =>
      assert ts[0] == L.Symbol(name) && ts[1..] == rest;
    case IntLiteral(v) =>
      assert ts[0] == L.IntLiteral(v) && ts[1..] == rest;
  }

  /** `many0` reads back a list of expressions that is followed by `)` or the end. */
  lemma {:induction false} ManyFlatten(es: seq<A.Expr>, rest: Tokens)
    requires Closes(rest)
    ensures Many(FlattenAll(es) + rest) == Done(rest, es)
    decreases es, 0
  {
    if es == [] {
      assert FlattenAll(es) + rest == rest;
      assert ParseList(rest).Error?;
    } else {
      var tail := FlattenAll(es[1..]) + rest;
      assert FlattenAll(es) + rest == Flatten(es[0]) + tail;
      ParseFlatten(es[0], tail);
      ManyFlatten(es[1..], rest);
      assert [es[0]] + es[1..] == es;
    }
  }

  /** A program's tokens parse back to the program, consuming them all. */
  lemma ParseTokensFlatten(prog: A.Program)
    ensures ParseTokens(FlattenAll(prog)) == Done([], prog)
  {
    ManyFlatten(prog, []);
    assert FlattenAll(prog) + [] == FlattenAll(prog);
  }

  /** Conversely, a parsed expression is exactly the tokens it was read from. */
  lemma {:induction false} ExprTokens(ts: Tokens)
    ensures ParseExpr(ts).Done? ==> ts == Flatten(ParseExpr(ts).value) + ParseExpr(ts).rest
    decreases |ts|, 1
  {
    if ParseList(ts).Done? {
      ListTokens(ts);
    }
  }

  lemma {:induction false} ListTokens(ts: Tokens)
    requires ParseList(ts).Done?
    ensures ts == Flatten(ParseList(ts).value) + ParseList(ts).rest
    decreases |ts|, 0
  {
    var i := ts[1..];
    ListShape(ts);
    ManyTokens(i);
    var m := Many(i);
    var k := m.rest[1..];
    Assemble(ts, i, FlattenAll(m.value), m.rest, k);
  }

  /** A list that parses is `(`, what `many0` reads after it, and the `)` where it stops. */
  lemma ListShape(ts: Tokens)
    requires ParseList(ts).Done?
    ensures ts != [] && ts[0] == L.LParen && ts == [L.LParen] + ts[1..]
    ensures Many(ts[1..]).Done? && Many(ts[1..]).rest != [] && Many(ts[1..]).rest[0] == L.RParen
    ensures Many(ts[1..]).rest == [L.RParen] + Many(ts[1..]).rest[1..]
    ensures ParseList(ts) == Done(Many(ts[1..]).rest[1..], A.List(Many(ts[1..]).value))
  {
    assert LParenTok(ts) == Done(ts[1..], ());
  }

  lemma Assemble(ts: Tokens, i: Tokens, inner: Tokens, m: Tokens, k: Tokens)
    requires ts == [L.LParen] + i && i == inner + m && m == [L.RParen] + k
    ensures ts == [L.LParen] + inner + [L.RParen] + k
  {
  }

  lemma {:induction false} ManyTokens(ts: Tokens)
    ensures Many(ts).Done? ==> ts == FlattenAll(Many(ts).value) + Many(ts).rest && Stops(Many(ts).rest)
    decreases |ts|, 2
  {
    match ParseExpr(ts)
    case Error(_) =>
      ExprFails(ts);
    case Done(i, e) =>
      if |i| < |ts| {
        ExprTokens(ts);
        ManyTokens(i);
        if Many(i).Done? {
          var es := Many(i).value;
          assert ([e] + es)[1..] == es;
          assert ts == Flatten(e) + (FlattenAll(es) + Many(i).rest);
        }
      }
  }

  /** An expression fails to parse only at the end, at `)`, or at a `(` whose list is
      not closed. */
  lemma ExprFails(ts: Tokens)
    requires ParseExpr(ts).Error?
    ensures Stops(ts)
  {
  }

  /** Parsing a program stops at the end, at a `)`, or at an unclosed `(`, and what it read
      is exactly the tokens before that point. */
  lemma ParseTokensSplit(ts: Tokens)
    ensures ts == FlattenAll(ParseTokens(ts).value) + ParseTokens(ts).rest
    ensures Stops(ParseTokens(ts).rest)
  {
    ManyTokens(ts);
  }

  /** All tokens are consumed exactly when they are the tokens of some program. */
  lemma ParsesWhole(ts: Tokens)
    ensures ParseTokens(ts).rest == [] <==> exists prog :: FlattenAll(prog) == ts
  {
    ParseTokensSplit(ts);
    if ParseTokens(ts).rest == [] {
      var prog := ParseTokens(ts).value;
      assert FlattenAll(prog) + [] == ts;
      assert FlattenAll(prog) == ts;
    }
    if exists prog :: FlattenAll(prog) == ts {
      var prog :| FlattenAll(prog) == ts;
      ParseTokensFlatten(prog);
    }
  }

  // ---------------------------------------------------------------------------
  // Source text

  /** An expression whose tokens read back as themselves: every symbol and integer in it
      is a well-formed token. */
  predicate WellFormedExpr(e: A.Expr)
    decreases e
  {
    match e
    case List(items) => forall x :: x in items ==> WellFormedExpr(x)
    case Symbol(name) => L.WellFormed(L.Symbol(name))
    case IntLiteral(v) => L.WellFormed(L.IntLiteral(v))
  }

  predicate AllWellFormed(ts: Tokens) {
    forall i :: 0 <= i < |ts| ==> L.WellFormed(ts[i])
  }

  lemma AllWellFormedConcat(a: Tokens, b: Tokens)
    requires AllWellFormed(a) && AllWellFormed(b)
    ensures AllWellFormed(a + b)
  {
    forall i | 0 <= i < |a + b| ensures L.WellFormed((a + b)[i]) {
      if i >= |a| {
        assert (a + b)[i] == b[i - |a|];
      }
    }
  }

  lemma {:induction false} FlattenWellFormed(e: A.Expr)
    requires WellFormedExpr(e)
    ensures AllWellFormed(Flatten(e))
    decreases e, 1
  {
    match e
    case List(items) =>
      FlattenAllWellFormed(items);
      AllWellFormedConcat([L.LParen], FlattenAll(items));
      AllWellFormedConcat([L.LParen] + FlattenAll(items), [L.RParen]);
    case Symbol(_) =>
    case IntLiteral(_) =>
  }

  lemma {:induction false} FlattenAllWellFormed(es: seq<A.Expr>)
    requires forall x :: x in es ==> WellFormedExpr(x)
    ensures AllWellFormed(FlattenAll(es))
    decreases es, 0
  {
    if es != [] {
      assert es[0] in es;
      FlattenWellFormed(es[0]);
      assert forall x :: x in es[1..] ==> x in es;
      FlattenAllWellFormed(es[1..]);
      AllWellFormedConcat(Flatten(es[0]), FlattenAll(es[1..]));
    }
  }

  /** A well-formed program written out as text, each token followed by a space, lexes
      and parses back to itself. */
  lemma ReadBack(prog: A.Program)
    requires forall x :: x in prog ==> WellFormedExpr(x)
    ensures L.Lex(L.Render(FlattenAll(prog))).Ok?
    ensures ParseTokens(L.Lex(L.Render(FlattenAll(prog))).value) == Done([], prog)
  {
    FlattenAllWellFormed(prog);
    L.LexRender(FlattenAll(prog));
    ParseTokensFlatten(prog);
  }

  /** The tokens of `(def hi (x y) (foo 2 x))` from the parser's test parse to one list
      holding two symbols and two lists. */
  lemma ParseTestTokens(ts: Tokens, prog: A.Program)
    requires ts == [L.LParen, L.Symbol("def"), L.Symbol("hi"),
                    L.LParen, L.Symbol("x"), L.Symbol("y"), L.RParen,
                    L.LParen, L.Symbol("foo"), L.IntLiteral(2), L.Symbol("x"), L.RParen,
                    L.RParen]
    requires prog == [A.List([A.Symbol("def"), A.Symbol("hi"),
                              A.List([A.Symbol("x"), A.Symbol("y")]),
                              A.List([A.Symbol("foo"), A.IntLiteral(2), A.Symbol("x")])])]
    ensures ParseTokens(ts) == Done([], prog)
  {
    var x, y, foo := A.Symbol("x"), A.Symbol("y"), A.Symbol("foo");
    var xy := [x, y];
    var call := [foo, A.IntLiteral(2), x];
    var top := [A.Symbol("def"), A.Symbol("hi"), A.List(xy), A.List(call)];
    TestInnerLists(xy, call);
    var fxy, fcall := FlattenAll(xy), FlattenAll(call);
    var l1, l2 := Flatten(A.List(xy)), Flatten(A.List(call));
    assert l1 == [L.LParen] + fxy + [L.RParen];
    assert l2 == [L.LParen] + fcall + [L.RParen];
    FlattenAllCons(A.List(call), []);
    FlattenAllCons(A.List(xy), [A.List(call)]);
    assert top[2..] == [A.List(xy), A.List(call)];
    FlattenAllCons(A.Symbol("hi"), top[2..]);
    assert top[1..] == [A.Symbol("hi")] + top[2..];
    FlattenAllCons(A.Symbol("def"), top[1..]);
    var ftop := FlattenAll(top);
    assert ftop == [L.Symbol("def")] + ([L.Symbol("hi")] + (l1 + (l2 + [])));
    FlattenAllCons(A.List(top), []);
    assert FlattenAll(prog) == [L.LParen] + ftop + [L.RParen] + [];
    TestTokensAssemble(ts, fxy, fcall, l1, l2, ftop, FlattenAll(prog));
    ParseTokensFlatten(prog);
  }


  lemma TestInnerLists(xy: seq<A.Expr>, call: seq<A.Expr>)
    requires xy == [A.Symbol("x"), A.Symbol("y")]
    requires call == [A.Symbol("foo"), A.IntLiteral(2), A.Symbol("x")]
    ensures FlattenAll(xy) == [L.Symbol("x"), L.Symbol("y")]
    ensures FlattenAll(call) == [L.Symbol("foo"), L.IntLiteral(2), L.Symbol("x")]
  {
    FlattenAllCons(xy[0], xy[1..]);
    FlattenAllCons(xy[1], []);
    assert xy[1..] == [xy[1]] + [];
    FlattenAllCons(call[0], call[1..]);
    FlattenAllCons(call[1], call[2..]);
    FlattenAllCons(call[2], []);
    assert call[2..] == [call[2]] + [];
    assert call[1..] == [call[1]] + call[2..];
  }

  lemma TestTokensAssemble(ts: Tokens, fxy: Tokens, fcall: Tokens, l1: Tokens, l2: Tokens,
                           ftop: Tokens, all: Tokens)
    requires fxy == [L.Symbol("x"), L.Symbol("y")]
    requires fcall == [L.Symbol("foo"), L.IntLiteral(2), L.Symbol("x")]
    requires l1 == [L.LParen] + fxy + [L.RParen] && l2 == [L.LParen] + fcall + [L.RParen]
    requires ftop == [L.Symbol("def")] + ([L.Symbol("hi")] + (l1 + (l2 + [])))
    requires all == [L.LParen] + ftop + [L.RParen] + []
    requires ts == [L.LParen, L.Symbol("def"), L.Symbol("hi"),
                    L.LParen, L.Symbol("x"), L.Symbol("y"), L.RParen,
                    L.LParen, L.Symbol("foo"), L.IntLiteral(2), L.Symbol("x"), L.RParen,
                    L.RParen]
    ensures all == ts
  {
  }
}
