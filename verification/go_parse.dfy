/** The Go parser (src/parse/parse.go): token lists become syntax trees. The expression
    parser is mutually recursive, so it is written out here as recursive functions over
    the token list; lemmas show that each agrees with the combinator expression the Go
    code builds from it. */
module GoParse {
  import Wrappers
  import opened GoErrors
  import opened Combinator
  import Lex = GoLex
  import opened GoAst

  type Tokens = seq<Lex.Token>

  // ---------------------------------------------------------------------------
  // Errors

  /** What `wrapIfErr` quotes: nothing at the end, all tokens when there are at most ten,
      otherwise the first ten followed by "...". */
  function PlaceOf(ts: Tokens): (p: Place)
    ensures p.AtEnd? <==> |ts| == 0
    ensures p.AtTokens? ==> p.count == |ts| && 1 <= |ts| <= 10
    ensures p.AtTokensPrefix? <==> |ts| > 10
  {
    if |ts| == 0 then AtEnd else if |ts| <= 10 then AtTokens(|ts|) else AtTokensPrefix
  }

  /** `wrapIfErr(in, err)`: no error stays no error; an error is wrapped with the position. */
  function WrapIfErr(ts: Tokens, err: Wrappers.Option<Error>): (r: Wrappers.Option<Error>)
    ensures r.None? <==> err.None?
    ensures r.Some? ==> r.value == At(PlaceOf(ts), err.value)
  {
    match err
    case None => Wrappers.None
    case Some(e) => Wrappers.Some(Wrap(ts, e))
  }

  /** The error `wrapIfErr` makes of a non-nil error. */
  function Wrap(ts: Tokens, e: Error): Error {
    At(PlaceOf(ts), e)
  }

  /** `errAt(in)`: a parse error at `in`. */
  function ErrAt(ts: Tokens): Error {
    Wrap(ts, ParseFailed)
  }

  /** `at(in, idx)`: the token at `idx`, or none when out of range. */
  function TokenAt(ts: Tokens, idx: int): (r: Wrappers.Option<Lex.Token>)
    ensures r.Some? <==> 0 <= idx < |ts|
    ensures r.Some? ==> r.value == ts[idx]
  {
    if idx < 0 || idx >= |ts| then Wrappers.None else Wrappers.Some(ts[idx])
  }

  // ---------------------------------------------------------------------------
  // Single-token parsers

  /** `wrappedResult(matchOne[T])`: one token of the kind `kind`. A failure drops the
      input and wraps the position twice, once in `matchOne` and once in `wrappedResult`. */
  function MatchKind(ts: Tokens, kind: Lex.Token -> bool): (r: Reply<Lex.Token, ()>)
    ensures r.Ok? <==> |ts| > 0 && kind(ts[0])
    ensures r.Ok? ==> r.rest == ts[1..]
    ensures r.Fail? ==> r == Fail([], Wrap(ts, ErrAt(ts)))
  {
    if |ts| == 0 || !kind(ts[0]) then Fail([], Wrap(ts, ErrAt(ts))) else Reply.Ok(ts[1..], ())
  }

  function MatchLParen(ts: Tokens): Reply<Lex.Token, ()> { MatchKind(ts, (t: Lex.Token) => t.LParen?) }
  function MatchRParen(ts: Tokens): Reply<Lex.Token, ()> { MatchKind(ts, (t: Lex.Token) => t.RParen?) }
  function MatchLBracket(ts: Tokens): Reply<Lex.Token, ()> { MatchKind(ts, (t: Lex.Token) => t.LBracket?) }
  function MatchRBracket(ts: Tokens): Reply<Lex.Token, ()> { MatchKind(ts, (t: Lex.Token) => t.RBracket?) }
  function MatchDef(ts: Tokens): Reply<Lex.Token, ()> { MatchKind(ts, (t: Lex.Token) => t.Def?) }
  function MatchSet(ts: Tokens): Reply<Lex.Token, ()> { MatchKind(ts, (t: Lex.Token) => t.Set?) }

  /** `symbolName`: the name of a leading symbol token. */
  function SymbolName(ts: Tokens): (r: Reply<Lex.Token, string>)
    ensures r.Ok? <==> |ts| > 0 && ts[0].Symbol?
    ensures r.Ok? ==> r == Reply.Ok(ts[1..], ts[0].name)
    ensures r.Fail? ==> r == Fail([], ErrAt(ts))
  {
    if |ts| > 0 && ts[0].Symbol? then Reply.Ok(ts[1..], ts[0].name) else Fail([], ErrAt(ts))
  }

  /** `symbol`: a leading symbol token as a `Symbol` node. */
  function SymbolExpr(ts: Tokens): (r: Reply<Lex.Token, Expr>)
    ensures r.Ok? <==> |ts| > 0 && ts[0].Symbol?
    ensures r.Ok? ==> r == Reply.Ok(ts[1..], Symbol(ts[0].name))
    ensures r.Fail? ==> r == Fail([], ErrAt(ts))
  {
    if |ts| > 0 && ts[0].Symbol? then Reply.Ok(ts[1..], Symbol(ts[0].name)) else Fail([], ErrAt(ts))
  }

  /** `strLiteral`: a leading string token as a `StrLiteral` node. */
  function StrLiteralExpr(ts: Tokens): (r: Reply<Lex.Token, Expr>)
    ensures r.Ok? <==> |ts| > 0 && ts[0].StrLiteral?
    ensures r.Ok? ==> r == Reply.Ok(ts[1..], StrLiteral(ts[0].content))
    ensures r.Fail? ==> r == Fail([], ErrAt(ts))
  {
    if |ts| > 0 && ts[0].StrLiteral? then Reply.Ok(ts[1..], StrLiteral(ts[0].content)) else Fail([], ErrAt(ts))
  }

  /** `intLiteral`: a leading integer token as an `IntLiteral` node. */
  function IntLiteralExpr(ts: Tokens): (r: Reply<Lex.Token, Expr>)
    ensures r.Ok? <==> |ts| > 0 && ts[0].IntLiteral?
    ensures r.Ok? ==> r == Reply.Ok(ts[1..], IntLiteral(ts[0].number))
    ensures r.Fail? ==> r == Fail([], ErrAt(ts))
  {
    if |ts| > 0 && ts[0].IntLiteral? then Reply.Ok(ts[1..], IntLiteral(ts[0].number)) else Fail([], ErrAt(ts))
  }

  // ---------------------------------------------------------------------------
  // Function arguments

  /** `funcArg`: two symbol names. A failure drops the input and is wrapped with the
      position of the pair. */
  function FuncArg(ts: Tokens): (r: Reply<Lex.Token, Pair<string, string>>)
    ensures r.Ok? <==> |ts| > 1 && ts[0].Symbol? && ts[1].Symbol?
    ensures r.Ok? ==> r == Reply.Ok(ts[2..], Pair(ts[0].name, ts[1].name))
    ensures r.Fail? ==> r.rest == [] && r.err.At? && r.err.place == PlaceOf(ts)
  {
    ThenSpec(SymbolName, SymbolName, ts);
    assert |ts| > 1 ==> ts[1..][1..] == ts[2..];
    match Then(SymbolName, SymbolName)(ts)
    case Fail(_, e) => Fail([], Wrap(ts, e))
    case Ok(rest, pair) => Reply.Ok(rest, pair)
  }

  /** `funcArgs`: `[`, any number of argument pairs, `]`. */
  function FuncArgs(ts: Tokens): (r: Reply<Lex.Token, seq<Pair<string, string>>>)
    ensures r.Ok? ==> |r.rest| < |ts|
  {
    SurroundSpec(MatchLBracket, Many0(FuncArg), MatchRBracket, ts);
    Surround(MatchLBracket, Many0(FuncArg), MatchRBracket)(ts)
  }

  /** The argument names a definition keeps: the first name of each pair. */
  function ArgNames(pairs: seq<Pair<string, string>>): (names: seq<string>)
    ensures |names| == |pairs|
    ensures forall i :: 0 <= i < |pairs| ==> names[i] == pairs[i].one
  {
    if |pairs| == 0 then [] else [pairs[0].one] + ArgNames(pairs[1..])
  }

  // ---------------------------------------------------------------------------
  // Expressions

  /** `expr`: a form, a symbol, a string or an integer, tried in that order; when none
      matches, `ErrNoMatch` at the original input. Every success consumes tokens. */
  function ParseExpr(ts: Tokens): (r: Reply<Lex.Token, Expr>)
    ensures r.Ok? ==> |r.rest| < |ts|
    decreases |ts|, 2
  {
    var f := FormLike(ts);
    if f.Ok? then f
    else if SymbolExpr(ts).Ok? then SymbolExpr(ts)
    else if StrLiteralExpr(ts).Ok? then StrLiteralExpr(ts)
    else if IntLiteralExpr(ts).Ok? then IntLiteralExpr(ts)
    else Fail(ts, NoMatch)
  }

  /** `formLike`: after a `(`, the second token decides: `def`, `set`, a symbol (a plain
      form), or a parse error. */
  function FormLike(ts: Tokens): (r: Reply<Lex.Token, Expr>)
    ensures r.Ok? ==> |r.rest| < |ts|
    decreases |ts|, 1
  {
    if |ts| == 0 || !ts[0].LParen? then Fail([], ErrAt(ts))
    else
      match TokenAt(ts, 1)
      case None => Fail([], ErrAt(ts))
      case Some(second) =>
        if second.Def? then DefForm(ts)
        else if second.Set? then SetForm(ts)
        else if second.Symbol? then ParenForm(ts)
        else Fail([], ErrAt(ts))
  }

  /** `form`: `(`, one or more expressions, `)`. Any failure reports the original input. */
  function ParenForm(ts: Tokens): (r: Reply<Lex.Token, Expr>)
    ensures r.Ok? ==> |r.rest| < |ts|
    ensures r.Fail? ==> r.rest == ts
    decreases |ts|, 0
  {
    match MatchLParen(ts)
    case Fail(_, e) => Fail(ts, e)
    case Ok(r1, _) =>
      match ManyExpr(r1)
      case Fail(_, e) => Fail(ts, e)
      case Ok(r2, children) =>
        match MatchRParen(r2)
        case Fail(_, e) => Fail(ts, e)
        case Ok(r3, _) => Reply.Ok(r3, Form(children))
  }

  /** `defForm`: `(`, `def`, a name, the argument list and one or more body expressions.
      The closing `)` is not consumed. A failure drops the input. */
  function DefForm(ts: Tokens): (r: Reply<Lex.Token, Expr>)
    ensures r.Ok? ==> |r.rest| < |ts|
    ensures r.Fail? ==> r.rest == []
    decreases |ts|, 0
  {
    match MatchLParen(ts)
    case Fail(_, e) => Fail([], e)
    case Ok(r1, _) =>
      match MatchDef(r1)
      case Fail(_, e) => Fail([], e)
      case Ok(r2, _) =>
        match SymbolName(r2)
        case Fail(_, e) => Fail([], e)
        case Ok(r3, name) =>
          match FuncArgs(r3)
          case Fail(_, e) => Fail([], e)
          case Ok(r4, args) =>
            match ManyExpr(r4)
            case Fail(_, e) => Fail([], e)
            case Ok(r5, body) => Reply.Ok(r5, FuncDef(name, ArgNames(args), body))
  }

  /** `setForm`: `(`, `set`, a name and one expression. The closing `)` is not consumed.
      A failure drops the input. */
  function SetForm(ts: Tokens): (r: Reply<Lex.Token, Expr>)
    ensures r.Ok? ==> |r.rest| < |ts|
    ensures r.Fail? ==> r.rest == []
    decreases |ts|, 0
  {
    match MatchLParen(ts)
    case Fail(_, e) => Fail([], e)
    case Ok(r1, _) =>
      match MatchSet(r1)
      case Fail(_, e) => Fail([], e)
      case Ok(r2, _) =>
        match SymbolName(r2)
        case Fail(_, e) => Fail([], e)
        case Ok(r3, name) =>
          match ParseExpr(r3)
          case Fail(_, e) => Fail([], e)
          case Ok(r4, value) => Reply.Ok(r4, Set(name, value))
  }

  /** `Many(expr)`: one expression, then as many more as parse. */
  function ManyExpr(ts: Tokens): (r: Reply<Lex.Token, seq<Expr>>)
    ensures r.Ok? ==> |r.rest| < |ts| && |r.out| >= 1
    ensures r.Fail? ==> ParseExpr(ts).Fail? && r == Fail(ParseExpr(ts).rest, ParseExpr(ts).err)
    decreases |ts|, 4
  {
    match ParseExpr(ts)
    case Fail(rest, e) => Fail(rest, e)
    case Ok(rest, e) =>
      var more := Many0Expr(rest);
      Reply.Ok(more.rest, [e] + more.out)
  }

  /** `Many0(expr)`'s loop: expressions until one fails to parse. */
  function Many0Expr(ts: Tokens): (r: Reply<Lex.Token, seq<Expr>>)
    ensures r.Ok? && |r.rest| <= |ts|
    ensures ParseExpr(r.rest).Fail?
    decreases |ts|, 3
  {
    match ParseExpr(ts)
    case Fail(_, _) => Reply.Ok(ts, [])
    case Ok(rest, e) =>
      var more := Many0Expr(rest);
      Reply.Ok(more.rest, [e] + more.out)
  }

  /** `program`: one or more expressions. */
  function Program(ts: Tokens): Reply<Lex.Token, seq<Expr>> {
    ManyExpr(ts)
  }

  /** `parseString`: lex, then parse a program. A lexer error is joined behind `LexError`;
      tokens after the last expression that parses are dropped. */
  function ParseString(source: string): (r: Wrappers.Result<seq<Expr>, Error>)
    ensures Lex.LexString(source).Err? ==> r == Wrappers.Err(Joined(LexError, Lex.LexString(source).error))
    ensures Lex.LexString(source).Ok? ==> (r.Ok? <==> Program(Lex.LexString(source).value).Ok?)
    ensures r.Ok? ==> r.value == Program(Lex.LexString(source).value).out
    ensures Lex.LexString(source).Ok? ==> (r.Err? <==> ParseExpr(Lex.LexString(source).value).Fail?)
    ensures r.Ok? ==> |r.value| >= 1
  {
    match Lex.LexString(source)
    case Err(e) => Wrappers.Err(Joined(LexError, e))
    case Ok(tokens) =>
      ProgramFails(tokens);
      match Program(tokens)
      case Fail(_, e) => Wrappers.Err(e)
      case Ok(_, prog) =>
        ProgramMaximal(tokens);
        Wrappers.Ok(prog)
  }

  // ---------------------------------------------------------------------------
  // Agreement with the combinator expressions of parse.go

  function ExprParser(): Parser<Lex.Token, Expr> {
    ts => ParseExpr(ts)
  }

  function ExprAlternatives(): seq<Parser<Lex.Token, Expr>> {
    [FormLike, SymbolExpr, StrLiteralExpr, IntLiteralExpr]
  }

  lemma ExprParserConsuming()
    ensures Consuming(ExprParser())
  {
  }

  /** `expr` is `Any(formLike, symbol, strLiteral, intLiteral)`. */
  lemma ParseExprIsAny(ts: Tokens)
    ensures ParseExpr(ts) == Any(ExprAlternatives())(ts)
  {
    var alts := ExprAlternatives();
    assert alts[0](ts) == FormLike(ts) && alts[1](ts) == SymbolExpr(ts);
    assert alts[2](ts) == StrLiteralExpr(ts) && alts[3](ts) == IntLiteralExpr(ts);
    if FormLike(ts).Ok? {
      AnyFirstSuccess(alts, ts, 0);
    } else if SymbolExpr(ts).Ok? {
      AnyFirstSuccess(alts, ts, 1);
    } else if StrLiteralExpr(ts).Ok? {
      AnyFirstSuccess(alts, ts, 2);
    } else if IntLiteralExpr(ts).Ok? {
      AnyFirstSuccess(alts, ts, 3);
    } else {
      AnyAllFail(alts, ts);
    }
  }

  lemma {:induction false} Many0ExprIsMany0(ts: Tokens)
    ensures Many0Expr(ts) == Many0(ExprParser())(ts)
    decreases |ts|
  {
    var p := ExprParser();
    assert p(ts) == ParseExpr(ts);
    match ParseExpr(ts)
    case Fail(_, _) =>
    case Ok(rest, e) =>
      Many0ExprIsMany0(rest);
  }

  /** The expression loop is `Many(expr)`. */
  lemma ManyExprIsMany(ts: Tokens)
    ensures ManyExpr(ts) == Many(ExprParser())(ts)
  {
    var p := ExprParser();
    assert p(ts) == ParseExpr(ts);
    if ParseExpr(ts).Ok? {
      Many0ExprIsMany0(ParseExpr(ts).rest);
    }
  }

  /** `form` is `Surround(lparen, Many(expr), rparen)` with the children put in a `Form`. */
  lemma ParenFormIsSurround(ts: Tokens)
    ensures var s := Surround(MatchLParen, Many(ExprParser()), MatchRParen)(ts);
      && (s.Ok? ==> ParenForm(ts) == Reply.Ok(s.rest, Form(s.out)))
      && (s.Fail? ==> ParenForm(ts) == Fail(s.rest, s.err))
  {
    SurroundSpec(MatchLParen, Many(ExprParser()), MatchRParen, ts);
    if MatchLParen(ts).Ok? {
      ManyExprIsMany(ts[1..]);
    }
  }

  /** A program is the maximal run of expressions from the start; the tokens after it are
      dropped. */
  lemma ProgramMaximal(ts: Tokens)
    requires Program(ts).Ok?
    ensures Chain(ExprParser(), ts, Program(ts).out, Program(ts).rest)
    ensures ParseExpr(Program(ts).rest).Fail?
    ensures |Program(ts).out| >= 1
  {
    ManyExprIsMany(ts);
    ExprParserConsuming();
    ManyIsMany0(ExprParser(), ts);
    Many0Maximal(ExprParser(), ts);
  }

  /** A program fails exactly when its first expression does. */
  lemma ProgramFails(ts: Tokens)
    ensures Program(ts).Fail? <==> ParseExpr(ts).Fail?
  {
  }

  // ---------------------------------------------------------------------------
  // Reading trees back from tokens

  /** The trees the parser can build from a form of its own making: symbols, strings,
      integers and forms headed by a symbol. */
  predicate Readable(e: Expr)
    decreases e
  {
    match e
    case Symbol(_) => true
    case StrLiteral(_) => true
    case IntLiteral(_) => true
    case Form(children) =>
      |children| >= 1 && children[0].Symbol? && forall i :: 0 <= i < |children| ==> Readable(children[i])
    case _ => false
  }

  /** The tokens of a readable tree. */
  function TokensOf(e: Expr): (ts: Tokens)
    requires Readable(e)
    ensures |ts| >= 1
    decreases e, 1
  {
    match e
    case Symbol(name) => [Lex.Symbol(name)]
    case StrLiteral(content) => [Lex.StrLiteral(content)]
    case IntLiteral(number) => [Lex.IntLiteral(number)]
    case Form(children) => [Lex.LParen] + TokensOfAll(children) + [Lex.RParen]
  }

  function TokensOfAll(es: seq<Expr>): Tokens
    requires forall i :: 0 <= i < |es| ==> Readable(es[i])
    decreases es, 0
  {
    if |es| == 0 then [] else TokensOf(es[0]) + TokensOfAll(es[1..])
  }

  /** Nothing parses from a `)` or from the end of the tokens. */
  lemma NoExprAtClose(ts: Tokens)
    requires |ts| == 0 || ts[0].RParen? || ts[0].RBracket?
    ensures ParseExpr(ts).Fail?
  {
  }

  /** The parser reads a readable tree back from its tokens, whatever follows them. */
  lemma {:induction false} ReadBack(e: Expr, more: Tokens)
    requires Readable(e)
    ensures ParseExpr(TokensOf(e) + more) == Reply.Ok(more, e)
    decreases e, 1
  {
    var ts := TokensOf(e) + more;
    assert ts[0] == TokensOf(e)[0];
    match e
    case Symbol(_) => assert ts[1..] == more;
    case StrLiteral(_) => assert ts[1..] == more;
    case IntLiteral(_) => assert ts[1..] == more;
    case Form(children) => ReadBackForm(e, more);
  }

  lemma {:induction false} ReadBackForm(e: Expr, more: Tokens)
    requires Readable(e) && e.Form?
    ensures ParseExpr(TokensOf(e) + more) == Reply.Ok(more, e)
    decreases e, 0
  {
    var children := e.children;
    var inner := TokensOfAll(children);
    var tail := [Lex.RParen] + more;
    var ts := TokensOf(e) + more;
    assert ts == [Lex.LParen] + (inner + tail);
    var tail1 := TokensOfAll(children[1..]) + tail;
    assert inner + tail == TokensOf(children[0]) + tail1;
    assert ts[1..] == inner + tail;
    assert ts[1] == TokensOf(children[0])[0];
    assert children[0].Symbol?;
    assert TokenAt(ts, 1) == Wrappers.Some(ts[1]);
    assert ts[1].Symbol?;
    NoExprAtClose(tail);
    ReadBack(children[0], tail1);
    ReadBackAll(children[1..], tail);
    assert [children[0]] + children[1..] == children;
    assert ManyExpr(ts[1..]) == Reply.Ok(tail, children);
    assert MatchRParen(tail) == Reply.Ok(more, ());
    assert ParenForm(ts) == Reply.Ok(more, e);
  }

  /** A run of readable trees followed by tokens that start no expression is read back by
      the expression loop, which stops right after it. */
  lemma {:induction false} ReadBackAll(es: seq<Expr>, tail: Tokens)
    requires forall i :: 0 <= i < |es| ==> Readable(es[i])
    requires ParseExpr(tail).Fail?
    ensures Many0Expr(TokensOfAll(es) + tail) == Reply.Ok(tail, es)
    decreases es, 0
  {
    if |es| == 0 {
      assert TokensOfAll(es) + tail == tail;
    } else {
      var rest := TokensOfAll(es[1..]) + tail;
      assert TokensOfAll(es) + tail == TokensOf(es[0]) + rest;
      ReadBack(es[0], rest);
      ReadBackAll(es[1..], tail);
      Many0Step(TokensOf(es[0]) + rest, rest, es[0], es[1..], tail);
      assert [es[0]] + es[1..] == es;
    }
  }

  /** One more expression in front of what `many0` reads. */
  lemma Many0Step(ts: Tokens, rest: Tokens, e: Expr, out: seq<Expr>, tail: Tokens)
    requires ParseExpr(ts) == Reply.Ok(rest, e)
    requires Many0Expr(rest) == Reply.Ok(tail, out)
    ensures Many0Expr(ts) == Reply.Ok(tail, [e] + out)
  {
  }

  /** The tokens of one readable tree form a program of exactly that tree. */
  lemma ProgramOfTokens(e: Expr)
    requires Readable(e)
    ensures Program(TokensOf(e)) == Reply.Ok([], [e])
  {
    ReadBack(e, []);
    assert TokensOf(e) + [] == TokensOf(e);
    NoExprAtClose([]);
    assert Many0Expr([]) == Reply.Ok([], []);
    assert [e] + [] == [e];
  }

  /** Source text: the tokens of a readable tree, written with single spaces between them,
      parses back to that one tree. */
  lemma ParseRenderRoundTrip(e: Expr)
    requires Readable(e)
    requires forall i :: 0 <= i < |TokensOf(e)| ==> Lex.Lexable(TokensOf(e)[i])
    ensures ParseString(Lex.Render(TokensOf(e))) == Wrappers.Ok([e])
  {
    Lex.LexRenderRoundTrip(TokensOf(e));
    ProgramOfTokens(e);
  }

  /** Symbols, strings and non-negative integers are printed so that they parse back. */
  lemma PrettyAtomReparses(e: Expr)
    requires e.Symbol? || e.StrLiteral? || (e.IntLiteral? && e.number >= 0)
    requires Lex.Lexable(TokensOf(e)[0])
    ensures ParseString(Pretty(e)) == Wrappers.Ok([e])
  {
    assert Lex.Render(TokensOf(e)) == Pretty(e);
    ParseRenderRoundTrip(e);
  }

  // ---------------------------------------------------------------------------
  // `set` and `def` forms

  /** `setForm` reads `(`, `set`, the name and one expression, and leaves the closing `)`
      (and anything after it) unread. */
  lemma SetFormLeavesClose(name: string, value: Expr, more: Tokens)
    requires Readable(value)
    ensures ParseExpr([Lex.LParen, Lex.Set, Lex.Symbol(name)] + TokensOf(value) + more)
      == Reply.Ok(more, Set(name, value))
  {
    var ts := [Lex.LParen, Lex.Set, Lex.Symbol(name)] + TokensOf(value) + more;
    assert ts[1..][1..] == ts[2..] && ts[2..][1..] == ts[3..];
    assert ts[3..] == TokensOf(value) + more;
    assert TokenAt(ts, 1) == Wrappers.Some(Lex.Set);
    assert MatchLParen(ts) == Reply.Ok(ts[1..], ());
    assert MatchSet(ts[1..]) == Reply.Ok(ts[2..], ());
    assert SymbolName(ts[2..]) == Reply.Ok(ts[3..], name);
    ReadBack(value, more);
    assert SetForm(ts) == Reply.Ok(more, Set(name, value));
  }

  /** So a whole `(set …)` program yields the assignment and silently drops its `)`. */
  lemma SetProgramDropsClose(name: string, value: Expr)
    requires Readable(value)
    ensures Program([Lex.LParen, Lex.Set, Lex.Symbol(name)] + TokensOf(value) + [Lex.RParen])
      == Reply.Ok([Lex.RParen], [Set(name, value)])
  {
    SetFormLeavesClose(name, value, [Lex.RParen]);
    NoExprAtClose([Lex.RParen]);
    assert Many0Expr([Lex.RParen]) == Reply.Ok([Lex.RParen], []);
    assert [Set(name, value)] + [] == [Set(name, value)];
  }

  /** The tokens of an argument list's pairs. */
  function PairTokens(pairs: seq<Pair<string, string>>): (ts: Tokens)
    ensures |ts| == 2 * |pairs|
  {
    if |pairs| == 0 then [] else [Lex.Symbol(pairs[0].one), Lex.Symbol(pairs[0].two)] + PairTokens(pairs[1..])
  }

  lemma FuncArgConsuming()
    ensures Consuming(FuncArg)
  {
  }

  lemma {:induction false} PairsChain(pairs: seq<Pair<string, string>>, tail: Tokens)
    ensures Chain(FuncArg, PairTokens(pairs) + tail, pairs, tail)
    decreases |pairs|
  {
    if |pairs| > 0 {
      var ts := PairTokens(pairs) + tail;
      assert ts == [Lex.Symbol(pairs[0].one), Lex.Symbol(pairs[0].two)] + (PairTokens(pairs[1..]) + tail);
      assert ts[2..] == PairTokens(pairs[1..]) + tail;
      PairsChain(pairs[1..], tail);
    }
  }

  /** `funcArgs` reads `[`, the pairs, and `]`. */
  lemma FuncArgsReads(pairs: seq<Pair<string, string>>, more: Tokens)
    ensures FuncArgs([Lex.LBracket] + PairTokens(pairs) + [Lex.RBracket] + more) == Reply.Ok(more, pairs)
  {
    var ts := [Lex.LBracket] + PairTokens(pairs) + [Lex.RBracket] + more;
    var tail := [Lex.RBracket] + more;
    assert ts[1..] == PairTokens(pairs) + tail;
    PairsChain(pairs, tail);
    FuncArgConsuming();
    Many0Unique(FuncArg, ts[1..], pairs, tail);
    SurroundSpec(MatchLBracket, Many0(FuncArg), MatchRBracket, ts);
    assert tail[1..] == more;
  }

  /** `defForm` reads `(`, `def`, the name, the bracketed pairs and the body expressions,
      keeps the first name of each pair, and leaves what follows the body, typically the
      closing `)`, unread. */
  lemma DefFormLeavesClose(name: string, pairs: seq<Pair<string, string>>, body: seq<Expr>, tail: Tokens)
    requires |body| >= 1 && forall i :: 0 <= i < |body| ==> Readable(body[i])
    requires ParseExpr(tail).Fail?
    ensures ParseExpr([Lex.LParen, Lex.Def, Lex.Symbol(name), Lex.LBracket] + PairTokens(pairs) + [Lex.RBracket]
                      + TokensOfAll(body) + tail)
      == Reply.Ok(tail, FuncDef(name, ArgNames(pairs), body))
  {
    var bodyTs := TokensOfAll(body) + tail;
    var argTs := [Lex.LBracket] + PairTokens(pairs) + [Lex.RBracket] + bodyTs;
    DefTokens(name, PairTokens(pairs), TokensOfAll(body), tail);
    FuncArgsReads(pairs, bodyTs);
    BodyReads(body, tail);
    DefFormOn(name, argTs);
  }

  lemma DefTokens(name: string, pts: Tokens, bts: Tokens, tail: Tokens)
    ensures [Lex.LParen, Lex.Def, Lex.Symbol(name), Lex.LBracket] + pts + [Lex.RBracket] + bts + tail
      == [Lex.LParen, Lex.Def, Lex.Symbol(name)] + ([Lex.LBracket] + pts + [Lex.RBracket] + (bts + tail))
  {
  }

  /** `defForm` on `(`, `def`, a name and the tokens after it. */
  lemma DefFormOn(name: string, argTs: Tokens)
    requires FuncArgs(argTs).Ok? && ManyExpr(FuncArgs(argTs).rest).Ok?
    ensures var b := ManyExpr(FuncArgs(argTs).rest);
      ParseExpr([Lex.LParen, Lex.Def, Lex.Symbol(name)] + argTs)
        == Reply.Ok(b.rest, FuncDef(name, ArgNames(FuncArgs(argTs).out), b.out))
  {
    var ts := [Lex.LParen, Lex.Def, Lex.Symbol(name)] + argTs;
    assert ts[1..][1..] == ts[2..] && ts[2..][1..] == argTs;
    assert TokenAt(ts, 1) == Wrappers.Some(Lex.Def);
    assert MatchLParen(ts) == Reply.Ok(ts[1..], ());
    assert MatchDef(ts[1..]) == Reply.Ok(ts[2..], ());
    assert SymbolName(ts[2..]) == Reply.Ok(argTs, name);
    var b := ManyExpr(FuncArgs(argTs).rest);
    assert DefForm(ts) == Reply.Ok(b.rest, FuncDef(name, ArgNames(FuncArgs(argTs).out), b.out));
    assert FormLike(ts) == DefForm(ts);
  }

  lemma BodyReads(body: seq<Expr>, tail: Tokens)
    requires |body| >= 1 && forall i :: 0 <= i < |body| ==> Readable(body[i])
    requires ParseExpr(tail).Fail?
    ensures ManyExpr(TokensOfAll(body) + tail) == Reply.Ok(tail, body)
  {
    var rest := TokensOfAll(body[1..]) + tail;
    assert TokensOfAll(body) + tail == TokensOf(body[0]) + rest;
    ReadBack(body[0], rest);
    ReadBackAll(body[1..], tail);
    assert [body[0]] + body[1..] == body;
  }
}
