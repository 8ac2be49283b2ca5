/** The Rust front end's lexer (src/lex.rs): the whole source must be tokens, each
    surrounded by ignorable text (whitespace runs and `;` comments). Spans are dropped:
    a symbol keeps its text, an integer its value. */
module RustLex {
  import opened Wrappers
  import Decimal

  datatype Token = LParen | RParen | Symbol(text: string) | IntLiteral(value: int)

  /** The range of Rust's `i32`, which bounds an integer token. */
  const I32Min: int := -0x8000_0000
  const I32Max: int := 0x7fff_ffff

  /** The characters nom's `multispace1` accepts. */
  predicate IsSpace(c: char) {
    c == ' ' || c == '\t' || c == '\r' || c == '\n'
  }

  /** `is_symbol`: anything but parentheses, a double quote and whitespace. */
  predicate IsSymbolChar(c: char) {
    c != '(' && c != ')' && c != '"' && !IsSpace(c)
  }

  predicate NotNewline(c: char) {
    c != '\n'
  }

  /** The length of the longest prefix of `s` whose characters all satisfy `p`. */
  function Run(s: string, p: char -> bool): (n: nat)
    ensures n <= |s|
    ensures forall i :: 0 <= i < n ==> p(s[i])
    ensures n < |s| ==> !p(s[n])
  {
    if |s| > 0 && p(s[0]) then 1 + Run(s[1..], p) else 0
  }

  /** `lex_ignored`: any number of whitespace runs and comments; a comment is `;` and
      everything up to the next newline, which stays for the whitespace rule, or up to
      the end. It never fails. */
  function SkipIgnored(s: string): (r: string)
    ensures IsSuffix(r, s) && |r| <= |s|
    ensures r == [] || (!IsSpace(r[0]) && r[0] != ';')
    decreases |s|
  {
    if |s| == 0 then s
    else if IsSpace(s[0]) then SkipIgnored(s[1..])
    else if s[0] == ';' then
      var m := 1 + Run(s[1..], NotNewline);
      DropSuffix(s, m);
      SuffixTrans(SkipIgnored(s[m..]), s[m..], s);
      SkipIgnored(s[m..])
    else s
  }

  /** nom's `i32`: an optional `+` or `-`, then the longest run of digits, which must be
      non-empty and whose signed value must fit an `i32`. */
  function LexNumber(s: string): (r: Option<(Token, string)>)
    ensures r.Some? ==> r.value.0.IntLiteral? && I32Min <= r.value.0.value <= I32Max
    ensures r.Some? ==> |r.value.1| < |s| && IsSuffix(r.value.1, s)
    ensures r.Some? ==> |s| > 0 && (s[0] == '-' || s[0] == '+' || Decimal.IsDigit(s[0]))
  {
    var signed := |s| > 0 && (s[0] == '-' || s[0] == '+');
    var digits := if signed then s[1..] else s;
    var n := Run(digits, Decimal.IsDigit);
    if n == 0 then None
    else
      var magnitude := Decimal.DigitsValue(digits[..n]);
      var v: int := if signed && s[0] == '-' then -(magnitude as int) else magnitude;
      if v < I32Min || I32Max < v then None
      else
        DropSuffix(s, if signed then 1 else 0);
        DropSuffix(digits, n);
        SuffixTrans(digits[n..], digits, s);
        Some((IntLiteral(v), digits[n..]))
  }

  /** `lex_symbol`: the longest non-empty run of symbol characters. */
  function LexSymbol(s: string): (r: Option<(Token, string)>)
    ensures r.Some? <==> |s| > 0 && IsSymbolChar(s[0])
    ensures r.Some? ==> r.value.0.Symbol? && s == r.value.0.text + r.value.1
    ensures r.Some? ==> forall i :: 0 <= i < |r.value.0.text| ==> IsSymbolChar(r.value.0.text[i])
    ensures r.Some? ==> r.value.1 == [] || !IsSymbolChar(r.value.1[0])
    ensures r.Some? ==> |r.value.1| < |s| && IsSuffix(r.value.1, s)
  {
    var n := Run(s, IsSymbolChar);
    if n == 0 then None
    else
      assert s == s[..n] + s[n..];
      DropSuffix(s, n);
      Some((Symbol(s[..n]), s[n..]))
  }

  /** One token: `(`, `)`, a number, a symbol, tried in that order. */
  function LexToken(s: string): (r: Option<(Token, string)>)
    ensures r.Some? ==> |r.value.1| < |s| && IsSuffix(r.value.1, s)
    ensures |s| > 0 && s[0] == '(' ==> r == Some((LParen, s[1..]))
    ensures |s| > 0 && s[0] == ')' ==> r == Some((RParen, s[1..]))
    ensures s == [] ==> r.None?
    ensures |s| > 0 && s[0] == '"' ==> r.None?
  {
    if |s| > 0 && s[0] == '(' then Some((LParen, s[1..]))
    else if |s| > 0 && s[0] == ')' then Some((RParen, s[1..]))
    else
      match LexNumber(s)
      case Some(num) => Some(num)
      case None => LexSymbol(s)
  }

  /** `many0(delimited(lex_ignored, token, lex_ignored))`: tokens as long as one lexes;
      when none does, the input from before that attempt's leading ignorables is what
      remains. */
  function LexAll(s: string): (r: (seq<Token>, string))
    ensures IsSuffix(r.1, s) && |r.1| <= |s|
    decreases |s|
  {
    var t := SkipIgnored(s);
    match LexToken(t)
    case None => ([], s)
    case Some((tok, after)) =>
      var u := SkipIgnored(after);
      SuffixTrans(u, after, t);
      SuffixTrans(u, t, s);
      var (more, rest) := LexAll(u);
      SuffixTrans(rest, u, s);
      ([tok] + more, rest)
  }

  /** The token run ends where no token lexes after the ignorables. */
  lemma LexAllStop(s: string)
    requires LexToken(SkipIgnored(s)).None?
    ensures LexAll(s) == ([], s)
  {
  }

  /** After a token and its trailing ignorables the run goes on from what is left. */
  lemma LexAllNext(s: string, tok: Token, after: string, u: string)
    requires LexToken(SkipIgnored(s)) == Some((tok, after)) && u == SkipIgnored(after)
    ensures LexAll(s) == ([tok] + LexAll(u).0, LexAll(u).1)
  {
  }

  /** `r` is what is left of `s` after some prefix. Stated by peeling one character at a
      time, so that no drop of length zero appears in the solver's terms. */
  predicate IsSuffix(r: string, s: string)
    decreases |s|
  {
    r == s || (|s| > 0 && IsSuffix(r, s[1..]))
  }

  lemma {:induction false} SuffixLength(r: string, s: string)
    requires IsSuffix(r, s)
    ensures |r| <= |s|
    decreases |s|
  {
    if r != s {
      SuffixLength(r, s[1..]);
    }
  }

  lemma {:induction false} SuffixTrans(a: string, b: string, c: string)
    requires IsSuffix(a, b) && IsSuffix(b, c)
    ensures IsSuffix(a, c)
    decreases |c|
  {
    if b != c {
      SuffixTrans(a, b, c[1..]);
    }
  }

  /** Dropping any prefix leaves a suffix. */
  lemma {:induction false} DropSuffix(s: string, k: nat)
    requires k <= |s|
    ensures IsSuffix(s[k..], s)
    decreases k
  {
    if k > 0 {
      assert s[k..] == s[1..][k - 1..];
      DropSuffix(s[1..], k - 1);
    }
  }

  /** A suffix agrees with the end of the text it came from. */
  lemma {:induction false} SuffixAt(r: string, s: string, i: nat)
    requires IsSuffix(r, s) && i < |r|
    ensures |r| <= |s| && r[i] == s[i + (|s| - |r|)]
    decreases |s|
  {
    SuffixLength(r, s);
    if r != s {
      SuffixAt(r, s[1..], i);
    }
  }

  /** `lex`: the token run must consume the whole source (`all_consuming`); otherwise the
      error carries the input that is left. Text made only of ignorables is rejected
      unless it is empty, because the last attempt's leading ignorables are given back. */
  function Lex(source: string): (r: Result<seq<Token>, string>)
    ensures source == [] ==> r == Ok([])
    ensures source != [] && SkipIgnored(source) == [] ==> r == Err(source)
    ensures r.Err? ==> r.error != [] && IsSuffix(r.error, source)
  {
    var (toks, rest) := LexAll(source);
    if rest == [] then Ok(toks) else Err(rest)
  }

  // ---------------------------------------------------------------------------
  // Comments

  /** A comment runs to the next newline and no further. */
  lemma CommentToNewline(c: string, t: string)
    requires forall i :: 0 <= i < |c| ==> c[i] != '\n'
    ensures SkipIgnored(";" + c + "\n" + t) == SkipIgnored(t)
  {
    var s := ";" + c + "\n" + t;
    RunOfPrefix(c, "\n" + t, NotNewline);
    assert s[1..] == c + ("\n" + t);
    assert s[1 + |c|..] == "\n" + t;
    assert ("\n" + t)[1..] == t;
  }

  /** A comment without a newline runs to the end of the input. */
  lemma CommentToEnd(c: string)
    requires forall i :: 0 <= i < |c| ==> c[i] != '\n'
    ensures SkipIgnored(";" + c) == []
  {
    RunOfPrefix(c, [], NotNewline);
    assert (";" + c)[1..] == c + [];
  }

  /** A run stops exactly where `p` first fails. */
  lemma {:induction false} RunOfPrefix(d: string, t: string, p: char -> bool)
    requires forall i :: 0 <= i < |d| ==> p(d[i])
    requires t == [] || !p(t[0])
    ensures Run(d + t, p) == |d|
    decreases |d|
  {
    if |d| > 0 {
      assert (d + t)[1..] == d[1..] + t;
      RunOfPrefix(d[1..], t, p);
    } else {
      assert d + t == t;
    }
  }

  // ---------------------------------------------------------------------------
  // A double quote starts no token

  /** Position `k` of `s` is comment text when the lexer reads `s` from its start: the scan
      steps over whitespace one character at a time, over a comment from its `;` up to the
      next newline or the end, and over each token. A `;` inside a symbol starts nothing,
      and a newline ends the comment. The scan stops where no token lexes, and nothing
      after that point is comment text. */
  predicate Commented(s: string, k: int)
    decreases |s|
  {
    && 0 <= k < |s|
    && if IsSpace(s[0]) then Commented(s[1..], k - 1)
       else if s[0] == ';' then
         var m := 1 + Run(s[1..], NotNewline);
         k < m || Commented(s[m..], k - m)
       else
         match LexToken(s)
         case None => false
         case Some((_, after)) => Commented(after, k - (|s| - |after|))
  }

  /** A `"` that is not comment text stops the token run before it, so the source is
      rejected. */
  lemma QuoteRejected(s: string, k: nat)
    requires k < |s| && s[k] == '"' && !Commented(s, k)
    ensures Lex(s).Err?
  {
    QuoteSurvives(s, k);
  }

  /** The input left over by the token run still holds a `"` that is not comment text. */
  lemma {:induction false} QuoteSurvives(s: string, k: nat)
    requires k < |s| && s[k] == '"' && !Commented(s, k)
    ensures |LexAll(s).1| >= |s| - k
    decreases |s|
  {
    var t := SkipIgnored(s);
    var k1 := SkipUncommented(s, k);
    match LexToken(t)
    case None =>
      LexAllStop(s);
    case Some((tok, after)) =>
      TokenKeepsQuote(t, k1);
      var k2 := k1 - (|t| - |after|);
      SuffixAt(after, t, k2);
      var u := SkipIgnored(after);
      var k3 := SkipUncommented(after, k2);
      QuoteSurvives(u, k3);
      LexAllNext(s, tok, after, u);
  }

  /** Skipping ignorables stops at or before a `"` that is not comment text, and the
      quote is still not comment text in what is left. */
  lemma {:induction false} SkipUncommented(s: string, k: nat) returns (k1: nat)
    requires k < |s| && s[k] == '"' && !Commented(s, k)
    ensures k1 < |SkipIgnored(s)| && k1 == k - (|s| - |SkipIgnored(s)|)
    ensures SkipIgnored(s)[k1] == '"' && !Commented(SkipIgnored(s), k1)
    decreases |s|
  {
    if IsSpace(s[0]) {
      k1 := SkipUncommented(s[1..], k - 1);
    } else if s[0] == ';' {
      var m := 1 + Run(s[1..], NotNewline);
      k1 := SkipUncommented(s[m..], k - m);
    } else {
      k1 := k;
    }
  }

  /** Two sources the lexer rejects although a `;` comes before the quote: in `a;b "` the
      `;` is part of a symbol, and in the second the comment ends at the newline. */
  lemma QuoteAfterSemicolons()
    ensures Lex("a;b \"").Err?
    ensures Lex(";c\n\"").Err?
  {
    var s1 := "a;b \"";
    assert LexToken(s1) == Some((Symbol("a;b"), " \"")) by {
      assert Run(s1, IsSymbolChar) == 3 by {
        assert Run(s1[3..], IsSymbolChar) == 0;
        assert s1[3..][1..] == s1[4..];
      }
      assert s1[..3] == "a;b" && s1[3..] == " \"";
    }
    assert !Commented(" \"", 1) by {
      assert (" \"")[1..] == "\"";
    }
    QuoteRejected(s1, 4);
    var s2 := ";c\n\"";
    assert Run(s2[1..], NotNewline) == 1 by {
      assert s2[1..][1..] == "\n\"";
    }
    assert s2[2..] == "\n\"" && s2[3..] == "\"";
    QuoteRejected(s2, 3);
  }

  /** A token never swallows a `"`. */
  lemma TokenKeepsQuote(t: string, k: nat)
    requires k < |t| && t[k] == '"'
    requires LexToken(t).Some?
    ensures |LexToken(t).value.1| >= |t| - k
  {
    if |t| > 0 && (t[0] == '(' || t[0] == ')') {
    } else if LexNumber(t).Some? {
      var signed := t[0] == '-' || t[0] == '+';
      var digits := if signed then t[1..] else t;
      var n := Run(digits, Decimal.IsDigit);
      assert LexNumber(t).value.1 == digits[n..];
      if signed {
        assert digits[k - 1] == '"';
      }
    } else {
      var n := Run(t, IsSymbolChar);
      assert LexSymbol(t).value.1 == t[n..];
    }
  }

  // ---------------------------------------------------------------------------
  // Rendering tokens back to text

  /** A token that reads back as itself when followed by a space: a symbol must not look
      like the start of a number or of a comment, and an integer must fit an `i32`. */
  predicate WellFormed(t: Token) {
    match t
    case LParen => true
    case RParen => true
    case IntLiteral(v) => I32Min <= v <= I32Max
    case Symbol(text) =>
      && |text| > 0
      && (forall i :: 0 <= i < |text| ==> IsSymbolChar(text[i]))
      && text[0] != ';'
      && !Decimal.IsDigit(text[0])
      && !((text[0] == '-' || text[0] == '+') && |text| > 1 && Decimal.IsDigit(text[1]))
  }

  function TokenText(t: Token): string {
    match t
    case LParen => "("
    case RParen => ")"
    case Symbol(text) => text
    case IntLiteral(v) => Decimal.IntToString(v)
  }

  /** Every token followed by one space. */
  function Render(toks: seq<Token>): (s: string)
    ensures toks == [] <==> s == []
  {
    if toks == [] then "" else TokenText(toks[0]) + " " + Render(toks[1..])
  }

  /** Lexing undoes rendering for well-formed tokens. */
  lemma {:induction false} LexRender(toks: seq<Token>)
    requires forall i :: 0 <= i < |toks| ==> WellFormed(toks[i])
    ensures Lex(Render(toks)) == Ok(toks)
  {
    RenderStart(toks);
    LexAllRender(toks);
  }

  lemma {:induction false} LexAllRender(toks: seq<Token>)
    requires forall i :: 0 <= i < |toks| ==> WellFormed(toks[i])
    ensures LexAll(Render(toks)) == (toks, [])
    decreases |toks|
  {
    if toks == [] {
      LexAllStop([]);
    } else {
      var tail := Render(toks[1..]);
      RenderStep(toks);
      LexAllNext(Render(toks), toks[0], " " + tail, tail);
      LexAllRender(toks[1..]);
      HeadTail(toks);
    }
  }

  lemma HeadTail<T>(s: seq<T>)
    requires |s| > 0
    ensures [s[0]] + s[1..] == s
  {
  }

  /** The first rendered token lexes back, and the space after it is skipped. */
  lemma RenderStep(toks: seq<Token>)
    requires toks != [] && forall i :: 0 <= i < |toks| ==> WellFormed(toks[i])
    ensures LexToken(SkipIgnored(Render(toks))) == Some((toks[0], " " + Render(toks[1..])))
    ensures SkipIgnored(" " + Render(toks[1..])) == Render(toks[1..])
  {
    var t, rest := toks[0], Render(toks[1..]);
    assert Render(toks) == TokenText(t) + " " + rest;
    assert WellFormed(t);
    RenderStart(toks);
    LexTokenText(t, rest);
    assert forall i :: 0 <= i < |toks[1..]| ==> WellFormed(toks[1..][i]) by {
      forall i | 0 <= i < |toks[1..]| ensures WellFormed(toks[1..][i]) {
        assert toks[1..][i] == toks[i + 1];
      }
    }
    RenderStart(toks[1..]);
    SkipSpace(rest);
  }

  /** One space before text that starts with no ignorable is skipped. */
  lemma SkipSpace(rest: string)
    requires SkipIgnored(rest) == rest
    ensures SkipIgnored(" " + rest) == rest
  {
    assert (" " + rest)[1..] == rest;
  }

  /** Rendered text starts with neither whitespace nor a comment. */
  lemma RenderStart(toks: seq<Token>)
    requires forall i :: 0 <= i < |toks| ==> WellFormed(toks[i])
    ensures Render(toks) == [] || (!IsSpace(Render(toks)[0]) && Render(toks)[0] != ';')
    ensures Render(toks) == [] || SkipIgnored(Render(toks)) == Render(toks)
  {
    if toks != [] {
      var text := TokenText(toks[0]);
      assert |text| > 0;
      assert Render(toks)[0] == text[0];
      if toks[0].IntLiteral? {
        var v := toks[0].value;
        if v < 0 {
          assert text[0] == '-';
        } else {
          assert Decimal.IsDigit(text[0]);
        }
      }
    }
  }

  /** One well-formed token's text, then a space: exactly that token is lexed. */
  lemma LexTokenText(t: Token, rest: string)
    requires WellFormed(t)
    ensures LexToken(TokenText(t) + " " + rest) == Some((t, " " + rest))
  {
    var s := TokenText(t) + " " + rest;
    match t
    case LParen =>
      assert s[0] == '(' && s[1..] == " " + rest;
    case RParen =>
      assert s[0] == ')' && s[1..] == " " + rest;
    case IntLiteral(v) =>
      IntLiteralText(v, rest);
    case Symbol(text) =>
      SymbolText(text, rest);
  }

  lemma IntLiteralText(v: int, rest: string)
    requires I32Min <= v <= I32Max
    ensures LexToken(Decimal.IntToString(v) + " " + rest) == Some((IntLiteral(v), " " + rest))
  {
    var s := Decimal.IntToString(v) + " " + rest;
    assert s == Decimal.IntToString(v) + (" " + rest);
    LexNumberText(v, " " + rest);
    var c := s[0];
    assert c == Decimal.IntToString(v)[0];
    assert c == '-' || Decimal.IsDigit(c);
  }

  lemma SymbolText(text: string, rest: string)
    requires WellFormed(Symbol(text))
    ensures LexToken(text + " " + rest) == Some((Symbol(text), " " + rest))
  {
    var s := text + " " + rest;
    assert s == text + (" " + rest);
    assert s[0] == text[0];
    SymbolNotNumber(text, rest);
    RunOfPrefix(text, " " + rest, IsSymbolChar);
    assert s[..|text|] == text;
    assert s[|text|..] == " " + rest;
  }

  /** A well-formed symbol does not read as a number. */
  lemma SymbolNotNumber(text: string, rest: string)
    requires WellFormed(Symbol(text))
    ensures LexNumber(text + " " + rest).None?
  {
    var s := text + " " + rest;
    assert s[0] == text[0];
    if text[0] == '-' || text[0] == '+' {
      if |text| == 1 {
        assert s[1] == ' ';
      } else {
        assert s[1] == text[1];
      }
      assert s[1..][0] == s[1];
    }
  }

  /** nom's `i32` reads back the decimal spelling of any `i32`. */
  lemma LexNumberText(v: int, rest: string)
    requires I32Min <= v <= I32Max
    requires rest == [] || !Decimal.IsDigit(rest[0])
    ensures LexNumber(Decimal.IntToString(v) + rest) == Some((IntLiteral(v), rest))
  {
    if v < 0 {
      NegativeText(v, rest);
    } else {
      NonNegativeText(v, rest);
    }
  }

  lemma NegativeText(v: int, rest: string)
    requires I32Min <= v < 0
    requires rest == [] || !Decimal.IsDigit(rest[0])
    ensures LexNumber(Decimal.IntToString(v) + rest) == Some((IntLiteral(v), rest))
  {
    var d := Decimal.NatToString(-v);
    assert Decimal.IntToString(v) == "-" + d;
    DigitsThen(d, -v, rest);
    NegativeDigits(Decimal.IntToString(v) + rest, d, rest, v);
  }

  /** A minus sign, the digits of `-v`, then a non-digit: the number is `v`. */
  lemma NegativeDigits(s: string, d: string, rest: string, v: int)
    requires I32Min <= v < 0
    requires s == "-" + d + rest
    requires Run(d + rest, Decimal.IsDigit) == |d| > 0
    requires (d + rest)[..|d|] == d && (d + rest)[|d|..] == rest && Decimal.DigitsValue(d) == -v
    ensures LexNumber(s) == Some((IntLiteral(v), rest))
  {
    assert s[0] == '-';
    assert s[1..] == d + rest;
  }

  lemma NonNegativeText(v: int, rest: string)
    requires 0 <= v <= I32Max
    requires rest == [] || !Decimal.IsDigit(rest[0])
    ensures LexNumber(Decimal.IntToString(v) + rest) == Some((IntLiteral(v), rest))
  {
    var s := Decimal.IntToString(v) + rest;
    var d := Decimal.NatToString(v);
    assert s == d + rest;
    assert Decimal.IsDigit(s[0]);
    DigitsThen(d, v, rest);
  }

  /** The digits of `n` followed by a non-digit: the run is exactly those digits. */
  lemma DigitsThen(d: string, n: nat, rest: string)
    requires d == Decimal.NatToString(n)
    requires rest == [] || !Decimal.IsDigit(rest[0])
    ensures Run(d + rest, Decimal.IsDigit) == |d|
    ensures (d + rest)[..|d|] == d && (d + rest)[|d|..] == rest
    ensures Decimal.DigitsValue(d) == n
  {
    RunOfPrefix(d, rest, Decimal.IsDigit);
    assert (d + rest)[..|d|] == d;
    Decimal.NatToStringRoundTrip(n);
  }

  // ---------------------------------------------------------------------------
  // The lexer's own test, for every symbol pair and integer

  /** The pieces of `lex("(foo (+ 3))")` from the lexer's test, with `foo`, `+` and `3`
      generalised: an opening parenthesis and a symbol need no space before what follows,
      and an integer needs none before the closing parentheses. */
  lemma {:induction false} NumberThenCloses(v: int)
    requires I32Min <= v <= I32Max
    ensures var d := Decimal.IntToString(v);
      && d != [] && (d[0] == '-' || Decimal.IsDigit(d[0]))
      && LexAll(d + "))") == ([IntLiteral(v), RParen, RParen], [])
  {
    var t := "))";
    NumberThen(v, t);
    CloseTwo(t);
    assert [IntLiteral(v)] + LexAll(t).0 == [IntLiteral(v), RParen, RParen];
  }

  /** `(` and a well-formed symbol and a space before text that lexes completely. */
  lemma {:induction false} OpenSymbolThenAll(x: string, t: string, toks: seq<Token>)
    requires WellFormed(Symbol(x))
    requires t != [] && !IsSpace(t[0]) && t[0] != ';' && LexAll(t) == (toks, [])
    ensures LexAll("(" + (x + (" " + t))) == ([LParen, Symbol(x)] + toks, [])
  {
    SymbolThenAll(x, t, toks);
    OpenThenAll(x + (" " + t), [Symbol(x)] + toks);
    assert [LParen] + ([Symbol(x)] + toks) == [LParen, Symbol(x)] + toks;
  }

  /** `(` before text that lexes completely. */
  lemma {:induction false} OpenThenAll(t: string, toks: seq<Token>)
    requires t != [] && !IsSpace(t[0]) && t[0] != ';' && LexAll(t) == (toks, [])
    ensures LexAll("(" + t) == ([LParen] + toks, [])
  {
    OpenThen(t);
  }

  /** A well-formed symbol and a space before text that lexes completely. */
  lemma {:induction false} SymbolThenAll(text: string, t: string, toks: seq<Token>)
    requires WellFormed(Symbol(text))
    requires t != [] && !IsSpace(t[0]) && t[0] != ';' && LexAll(t) == (toks, [])
    ensures LexAll(text + (" " + t)) == ([Symbol(text)] + toks, [])
  {
    SymbolThen(text, t);
  }

  /** `(` followed by text that starts with no ignorable. */
  lemma {:induction false} OpenThen(rest: string)
    requires rest != [] && !IsSpace(rest[0]) && rest[0] != ';'
    ensures LexAll("(" + rest) == ([LParen] + LexAll(rest).0, LexAll(rest).1)
  {
    var s := "(" + rest;
    assert s[0] == '(' && s[1..] == rest;
    OpenStep(s);
  }

  /** A well-formed symbol and one space, followed by text that starts with no ignorable. */
  lemma {:induction false} SymbolThen(text: string, rest: string)
    requires WellFormed(Symbol(text))
    requires rest != [] && !IsSpace(rest[0]) && rest[0] != ';'
    ensures LexAll(text + (" " + rest)) == ([Symbol(text)] + LexAll(rest).0, LexAll(rest).1)
  {
    var s := text + (" " + rest);
    assert s[..|text|] == text && s[|text|] == ' ' && s[|text| + 1..] == rest;
    SymbolStep(s, text);
  }

  /** An integer's spelling, followed by text that starts with neither a digit nor an
      ignorable. */
  lemma {:induction false} NumberThen(v: int, rest: string)
    requires I32Min <= v <= I32Max
    requires rest != [] && !Decimal.IsDigit(rest[0]) && !IsSpace(rest[0]) && rest[0] != ';'
    ensures LexAll(Decimal.IntToString(v) + rest) == ([IntLiteral(v)] + LexAll(rest).0, LexAll(rest).1)
  {
    var d := Decimal.IntToString(v);
    var s := d + rest;
    assert s[..|d|] == d && s[|d|..] == rest;
    NumberStep(s, v, d);
  }

  /** `(` followed by text that starts with no ignorable. */
  lemma {:induction false} OpenStep(s: string)
    requires |s| > 0 && s[0] == '('
    requires |s| == 1 || (!IsSpace(s[1]) && s[1] != ';')
    ensures LexAll(s) == ([LParen] + LexAll(s[1..]).0, LexAll(s[1..]).1)
  {
    var u := s[1..];
    assert LexToken(SkipIgnored(s)) == Some((LParen, u));
    assert SkipIgnored(u) == u;
    LexAllNext(s, LParen, u, u);
  }

  /** `)` followed by text that starts with no ignorable. */
  lemma {:induction false} CloseStep(s: string)
    requires |s| > 0 && s[0] == ')'
    requires |s| == 1 || (!IsSpace(s[1]) && s[1] != ';')
    ensures LexAll(s) == ([RParen] + LexAll(s[1..]).0, LexAll(s[1..]).1)
  {
    var u := s[1..];
    assert LexToken(SkipIgnored(s)) == Some((RParen, u));
    assert SkipIgnored(u) == u;
    LexAllNext(s, RParen, u, u);
  }

  /** At the end of the input the run is empty and nothing is left. */
  lemma {:induction false} StopAtEnd(e: string)
    requires |e| == 0
    ensures |LexAll(e).0| == 0 && LexAll(e).1 == e
  {
    assert LexToken(SkipIgnored(e)).None?;
  }

  /** A well-formed symbol, one space, then text that starts with no ignorable. */
  lemma {:induction false} SymbolStep(s: string, text: string)
    requires WellFormed(Symbol(text))
    requires |s| > |text| + 1 && s[..|text|] == text && s[|text|] == ' '
    requires !IsSpace(s[|text| + 1]) && s[|text| + 1] != ';'
    ensures LexAll(s) == ([Symbol(text)] + LexAll(s[|text| + 1..]).0, LexAll(s[|text| + 1..]).1)
  {
    var rest := s[|text| + 1..];
    assert s == text + " " + rest;
    SymbolText(text, rest);
    assert s[0] == text[0];
    assert SkipIgnored(s) == s;
    assert SkipIgnored(rest) == rest;
    SkipSpace(rest);
    LexAllNext(s, Symbol(text), " " + rest, rest);
  }

  /** An integer's spelling, then text that starts with neither a digit nor an ignorable. */
  lemma {:induction false} NumberStep(s: string, v: int, d: string)
    requires I32Min <= v <= I32Max && d == Decimal.IntToString(v)
    requires |s| > |d| && s[..|d|] == d
    requires !Decimal.IsDigit(s[|d|]) && !IsSpace(s[|d|]) && s[|d|] != ';'
    ensures LexAll(s) == ([IntLiteral(v)] + LexAll(s[|d|..]).0, LexAll(s[|d|..]).1)
  {
    var rest := s[|d|..];
    assert s == d + rest;
    LexNumberText(v, rest);
    assert s[0] == d[0] && (d[0] == '-' || Decimal.IsDigit(d[0]));
    assert SkipIgnored(s) == s;
    assert LexToken(s) == Some((IntLiteral(v), rest));
    assert SkipIgnored(rest) == rest;
    LexAllNext(s, IntLiteral(v), rest, rest);
  }

  /** Two closing parentheses end the run with nothing left. */
  lemma {:induction false} CloseTwo(t: string)
    requires |t| == 2 && t[0] == ')' && t[1] == ')'
    ensures LexAll(t) == ([RParen, RParen], [])
  {
    CloseStep(t);
    var t1 := t[1..];
    CloseStep(t1);
    var e := t1[1..];
    StopAtEnd(e);
    var x := LexAll(e).0;
    assert x == [] && e == [];
    assert [RParen] + ([RParen] + x) == [RParen, RParen];
  }
}
