/** The Go lexer (src/lex/lex.go) and its tokens (src/lex/token.go): source text becomes
    a token list by skipping leading white space and then repeating "one token, then
    white space" for as long as some token alternative matches. */
module GoLex {
  import Wrappers
  import Decimal
  import opened GoErrors
  import opened Combinator

  /** The token kinds: those of token.go plus the ones lex.go builds (brackets, string
      literals, `true`/`false`, `if`). `Colon` is declared but never produced. */
  datatype Token =
    | LParen
    | RParen
    | LBracket
    | RBracket
    | Colon
    | Symbol(name: string)
    | IntLiteral(number: int)
    | StrLiteral(content: string)
    | Def
    | Set
    | TrueLiteral
    | FalseLiteral
    | If

  // ---------------------------------------------------------------------------
  // Character classes

  /** Go's `unicode.IsSpace`: the Latin-1 spaces and the Unicode White_Space characters above Latin-1. */
  predicate IsSpace(c: char) {
    var n := c as int;
    if n <= 0xFF then
      c == '\t' || c == '\n' || n == 0x0B || n == 0x0C || c == '\r' || c == ' ' || n == 0x85 || n == 0xA0
    else
      n == 0x1680 || (0x2000 <= n <= 0x200A) || n == 0x2028 || n == 0x2029 || n == 0x202F || n == 0x205F || n == 0x3000
  }

  /** Go's `unicode.IsNumber`: general category N (Nd, Nl and No). On Latin-1 these are the
      decimal digits, superscripts one to three and the three vulgar fractions; above it,
      the ranges of `IsOtherNumber`. */
  predicate IsNumber(c: char) {
    var n := c as int;
    if n <= 0xFF then
      ('0' <= c <= '9') || n == 0xB2 || n == 0xB3 || n == 0xB9 || (0xBC <= n <= 0xBE)
    else
      IsOtherNumber(n)
  }

  /** A search tree of disjoint code-point ranges, ordered by their bounds. */
  datatype RangeTree = Leaf | Node(left: RangeTree, lo: int, hi: int, right: RangeTree)

  /** `n` lies in one of the tree's ranges. */
  predicate InRanges(n: int, t: RangeTree) {
    match t
    case Leaf => false
    case Node(left, lo, hi, right) =>
      if n < lo then InRanges(n, left) else if hi < n then InRanges(n, right) else true
  }

  /** General category N above Latin-1, in Unicode 15.0 (the version of Go's `unicode`
      tables), as a search tree of ranges. */
  const NumberRanges: RangeTree :=
    Node(
      Node(
        Node(
          Node(
            Node(
              Node(
                Node(Node(Leaf, 0x0660, 0x0669, Leaf), 0x06F0, 0x06F9, Leaf),
                0x07C0, 0x07C9,
                Node(Leaf, 0x0966, 0x096F, Leaf)),
              0x09E6, 0x09EF,
              Node(Node(Leaf, 0x09F4, 0x09F9, Leaf), 0x0A66, 0x0A6F, Node(Leaf, 0x0AE6, 0x0AEF, Leaf))),
            0x0B66, 0x0B6F,
            Node(
              Node(Node(Leaf, 0x0B72, 0x0B77, Leaf), 0x0BE6, 0x0BF2, Node(Leaf, 0x0C66, 0x0C6F, Leaf)),
              0x0C78, 0x0C7E,
              Node(Node(Leaf, 0x0CE6, 0x0CEF, Leaf), 0x0D58, 0x0D5E, Node(Leaf, 0x0D66, 0x0D78, Leaf)))),
          0x0DE6, 0x0DEF,
          Node(
            Node(
              Node(
                Node(Node(Leaf, 0x0E50, 0x0E59, Leaf), 0x0ED0, 0x0ED9, Leaf),
                0x0F20, 0x0F33,
                Node(Leaf, 0x1040, 0x1049, Leaf)),
              0x1090, 0x1099,
              Node(Node(Leaf, 0x1369, 0x137C, Leaf), 0x16EE, 0x16F0, Node(Leaf, 0x17E0, 0x17E9, Leaf))),
            0x17F0, 0x17F9,
            Node(
              Node(Node(Leaf, 0x1810, 0x1819, Leaf), 0x1946, 0x194F, Node(Leaf, 0x19D0, 0x19DA, Leaf)),
              0x1A80, 0x1A89,
              Node(Node(Leaf, 0x1A90, 0x1A99, Leaf), 0x1B50, 0x1B59, Node(Leaf, 0x1BB0, 0x1BB9, Leaf))))),
        0x1C40, 0x1C49,
        Node(
          Node(
            Node(
              Node(
                Node(Node(Leaf, 0x1C50, 0x1C59, Leaf), 0x2070, 0x2070, Leaf),
                0x2074, 0x2079,
                Node(Leaf, 0x2080, 0x2089, Leaf)),
              0x2150, 0x2182,
              Node(Node(Leaf, 0x2185, 0x2189, Leaf), 0x2460, 0x249B, Node(Leaf, 0x24EA, 0x24FF, Leaf))),
            0x2776, 0x2793,
            Node(
              Node(Node(Leaf, 0x2CFD, 0x2CFD, Leaf), 0x3007, 0x3007, Node(Leaf, 0x3021, 0x3029, Leaf)),
              0x3038, 0x303A,
              Node(Node(Leaf, 0x3192, 0x3195, Leaf), 0x3220, 0x3229, Node(Leaf, 0x3248, 0x324F, Leaf)))),
          0x3251, 0x325F,
          Node(
            Node(
              Node(Node(Leaf, 0x3280, 0x3289, Leaf), 0x32B1, 0x32BF, Node(Leaf, 0xA620, 0xA629, Leaf)),
              0xA6E6, 0xA6EF,
              Node(Node(Leaf, 0xA830, 0xA835, Leaf), 0xA8D0, 0xA8D9, Node(Leaf, 0xA900, 0xA909, Leaf))),
            0xA9D0, 0xA9D9,
            Node(
              Node(Node(Leaf, 0xA9F0, 0xA9F9, Leaf), 0xAA50, 0xAA59, Node(Leaf, 0xABF0, 0xABF9, Leaf)),
              0xFF10, 0xFF19,
              Node(Node(Leaf, 0x10107, 0x10133, Leaf), 0x10140, 0x10178, Node(Leaf, 0x1018A, 0x1018B, Leaf)))))),
      0x102E1, 0x102FB,
      Node(
        Node(
          Node(
            Node(
              Node(
                Node(Node(Leaf, 0x10320, 0x10323, Leaf), 0x10341, 0x10341, Leaf),
                0x1034A, 0x1034A,
                Node(Leaf, 0x103D1, 0x103D5, Leaf)),
              0x104A0, 0x104A9,
              Node(Node(Leaf, 0x10858, 0x1085F, Leaf), 0x10879, 0x1087F, Node(Leaf, 0x108A7, 0x108AF, Leaf))),
            0x108FB, 0x108FF,
            Node(
              Node(Node(Leaf, 0x10916, 0x1091B, Leaf), 0x109BC, 0x109BD, Node(Leaf, 0x109C0, 0x109CF, Leaf)),
              0x109D2, 0x109FF,
              Node(Node(Leaf, 0x10A40, 0x10A48, Leaf), 0x10A7D, 0x10A7E, Node(Leaf, 0x10A9D, 0x10A9F, Leaf)))),
          0x10AEB, 0x10AEF,
          Node(
            Node(
              Node(
                Node(Node(Leaf, 0x10B58, 0x10B5F, Leaf), 0x10B78, 0x10B7F, Leaf),
                0x10BA9, 0x10BAF,
                Node(Leaf, 0x10CFA, 0x10CFF, Leaf)),
              0x10D30, 0x10D39,
              Node(Node(Leaf, 0x10E60, 0x10E7E, Leaf), 0x10F1D, 0x10F26, Node(Leaf, 0x10F51, 0x10F54, Leaf))),
            0x10FC5, 0x10FCB,
            Node(
              Node(Node(Leaf, 0x11052, 0x1106F, Leaf), 0x110F0, 0x110F9, Node(Leaf, 0x11136, 0x1113F, Leaf)),
              0x111D0, 0x111D9,
              Node(Node(Leaf, 0x111E1, 0x111F4, Leaf), 0x112F0, 0x112F9, Node(Leaf, 0x11450, 0x11459, Leaf))))),
        0x114D0, 0x114D9,
        Node(
          Node(
            Node(
              Node(
                Node(Node(Leaf, 0x11650, 0x11659, Leaf), 0x116C0, 0x116C9, Leaf),
                0x11730, 0x1173B,
                Node(Leaf, 0x118E0, 0x118F2, Leaf)),
              0x11950, 0x11959,
              Node(Node(Leaf, 0x11C50, 0x11C6C, Leaf), 0x11D50, 0x11D59, Node(Leaf, 0x11DA0, 0x11DA9, Leaf))),
            0x11F50, 0x11F59,
            Node(
              Node(Node(Leaf, 0x11FC0, 0x11FD4, Leaf), 0x12400, 0x1246E, Node(Leaf, 0x16A60, 0x16A69, Leaf)),
              0x16AC0, 0x16AC9,
              Node(Node(Leaf, 0x16B50, 0x16B59, Leaf), 0x16B5B, 0x16B61, Node(Leaf, 0x16E80, 0x16E96, Leaf)))),
          0x1D2C0, 0x1D2D3,
          Node(
            Node(
              Node(Node(Leaf, 0x1D2E0, 0x1D2F3, Leaf), 0x1D360, 0x1D378, Node(Leaf, 0x1D7CE, 0x1D7FF, Leaf)),
              0x1E140, 0x1E149,
              Node(Node(Leaf, 0x1E2F0, 0x1E2F9, Leaf), 0x1E4F0, 0x1E4F9, Node(Leaf, 0x1E8C7, 0x1E8CF, Leaf))),
            0x1E950, 0x1E959,
            Node(
              Node(Node(Leaf, 0x1EC71, 0x1ECAB, Leaf), 0x1ECAD, 0x1ECAF, Node(Leaf, 0x1ECB1, 0x1ECB4, Leaf)),
              0x1ED01, 0x1ED2D,
              Node(Node(Leaf, 0x1ED2F, 0x1ED3D, Leaf), 0x1F100, 0x1F10C, Node(Leaf, 0x1FBF0, 0x1FBF9, Leaf)))))))

  predicate IsOtherNumber(n: int) {
    InRanges(n, NumberRanges)
  }


  /** The characters that end a symbol in `symbolStr`. */
  predicate IsSymbolStop(c: char) {
    c == '(' || c == ')' || c == '[' || c == ']' || c == '{' || c == '}' || c == ':' || IsSpace(c)
  }

  // ---------------------------------------------------------------------------
  // Single-character tokens

  function LexLParen(s: string): (r: Reply<char, Token>)
    ensures r.Ok? <==> |s| > 0 && s[0] == '('
    ensures r.Ok? ==> r == Reply.Ok(s[1..], LParen)
  {
    MatchOne(s, '(', LParen)
  }

  function LexRParen(s: string): (r: Reply<char, Token>)
    ensures r.Ok? <==> |s| > 0 && s[0] == ')'
    ensures r.Ok? ==> r == Reply.Ok(s[1..], RParen)
  {
    MatchOne(s, ')', RParen)
  }

  function LexLBracket(s: string): (r: Reply<char, Token>)
    ensures r.Ok? <==> |s| > 0 && s[0] == '['
    ensures r.Ok? ==> r == Reply.Ok(s[1..], LBracket)
  {
    MatchOne(s, '[', LBracket)
  }

  function LexRBracket(s: string): (r: Reply<char, Token>)
    ensures r.Ok? <==> |s| > 0 && s[0] == ']'
    ensures r.Ok? ==> r == Reply.Ok(s[1..], RBracket)
  {
    MatchOne(s, ']', RBracket)
  }

  function DoubleQuote(s: string): (r: Reply<char, ()>)
    ensures r.Ok? <==> |s| > 0 && s[0] == '"'
    ensures r.Ok? ==> r.rest == s[1..]
  {
    MatchOne(s, '"', ())
  }

  // ---------------------------------------------------------------------------
  // String literals

  /** A '"' somewhere in `s` at or after index `i`. */
  predicate QuoteFrom(s: string, i: nat) {
    exists j :: i <= j < |s| && s[j] == '"'
  }

  /** The index of the first '"' at or after `i`, or `|s|`. */
  function QuoteIndex(s: string, i: nat): (k: nat)
    requires i <= |s|
    ensures i <= k <= |s|
    ensures forall j :: i <= j < k ==> s[j] != '"'
    ensures k < |s| ==> s[k] == '"'
    decreases |s| - i
  {
    if i == |s| || s[i] == '"' then i else QuoteIndex(s, i + 1)
  }

  /** Go's `notDoubleQuote`: everything up to the next '"', which is left in the input;
      no '"' at all is an error. */
  function NotDoubleQuote(s: string): (r: Reply<char, string>)
    ensures r.Ok? <==> QuoteFrom(s, 0)
    ensures r.Ok? ==> s == r.out + r.rest && |r.rest| > 0 && r.rest[0] == '"'
    ensures r.Ok? ==> forall j :: 0 <= j < |r.out| ==> r.out[j] != '"'
    ensures r.Fail? ==> r == Fail([], LexFailed)
  {
    var k := QuoteIndex(s, 0);
    if k == |s| then Fail([], LexFailed) else Reply.Ok(s[k..], s[..k])
  }

  lemma QuoteFromShift(s: string)
    requires |s| > 0
    ensures QuoteFrom(s, 1) <==> QuoteFrom(s[1..], 0)
  {
    if QuoteFrom(s, 1) {
      var j :| 1 <= j < |s| && s[j] == '"';
      assert s[1..][j - 1] == '"';
    }
    if QuoteFrom(s[1..], 0) {
      var j :| 0 <= j < |s[1..]| && s[1..][j] == '"';
      assert s[j + 1] == '"';
    }
  }

  /** What `Surround(doubleQuote, notDoubleQuote, doubleQuote)` accepts and returns. */
  lemma QuotedShape(s: string)
    ensures var r := Surround(DoubleQuote, NotDoubleQuote, DoubleQuote)(s);
      && (r.Ok? <==> |s| > 0 && s[0] == '"' && QuoteFrom(s, 1))
      && (r.Ok? ==> s == "\"" + r.out + "\"" + r.rest)
      && (r.Ok? ==> forall j :: 0 <= j < |r.out| ==> r.out[j] != '"')
  {
    var r := Surround(DoubleQuote, NotDoubleQuote, DoubleQuote)(s);
    SurroundSpec(DoubleQuote, NotDoubleQuote, DoubleQuote, s);
    var d := DoubleQuote(s);
    if d.Ok? {
      var t := s[1..];
      assert d.rest == t;
      QuoteFromShift(s);
      var m := NotDoubleQuote(t);
      if m.Ok? {
        QuotedBody(s[0], m.out, m.rest);
        assert r == Reply.Ok(m.rest[1..], m.out);
      }
    }
  }

  lemma QuotedBody(c: char, out: string, rest: string)
    requires c == '"' && |rest| > 0 && rest[0] == '"'
    ensures [c] + (out + rest) == "\"" + out + "\"" + rest[1..]
  {
    assert rest == [rest[0]] + rest[1..];
  }

  /** Go's `strLiteral`: a '"', the text up to the next '"', and that '"'. There are no
      escapes; an unterminated literal fails. */
  function LexStrLiteral(s: string): (r: Reply<char, Token>)
    ensures r.Ok? <==> |s| > 0 && s[0] == '"' && QuoteFrom(s, 1)
    ensures r.Ok? ==> r.out.StrLiteral? && s == "\"" + r.out.content + "\"" + r.rest
    ensures r.Ok? ==> forall j :: 0 <= j < |r.out.content| ==> r.out.content[j] != '"'
    ensures r.Fail? ==> r.rest == []
  {
    QuotedShape(s);
    match Surround(DoubleQuote, NotDoubleQuote, DoubleQuote)(s)
    case Fail(_, e) => Fail([], e)
    case Ok(rest, content) => Reply.Ok(rest, StrLiteral(content))
  }

  // ---------------------------------------------------------------------------
  // Integer literals

  /** The index of the first non-digit at or after `i`, or `|s|`. */
  function DigitEnd(s: string, i: nat): (k: nat)
    requires i <= |s|
    ensures i <= k <= |s|
    ensures forall j :: i <= j < k ==> Decimal.IsDigit(s[j])
    ensures k < |s| ==> !Decimal.IsDigit(s[k])
    decreases |s| - i
  {
    if i == |s| || !Decimal.IsDigit(s[i]) then i else DigitEnd(s, i + 1)
  }

  /** Go's `intLiteral`: the maximal run of '0'–'9', read as a decimal number; no digit fails. */
  function LexIntLiteral(s: string): (r: Reply<char, Token>)
    ensures r.Ok? <==> |s| > 0 && Decimal.IsDigit(s[0])
    ensures r.Ok? ==> exists k :: (0 < k <= |s| && r.rest == s[k..] && Decimal.AllDigits(s[..k]) &&
                                   (k == |s| || !Decimal.IsDigit(s[k])) && r.out == IntLiteral(Decimal.DigitsValue(s[..k])))
    ensures r.Fail? ==> r == Fail([], LexFailed)
  {
    var k := DigitEnd(s, 0);
    if k == 0 then Fail([], LexFailed)
    else Reply.Ok(s[k..], IntLiteral(Decimal.DigitsValue(s[..k])))
  }

  // ---------------------------------------------------------------------------
  // Symbols and keywords

  /** The index of the first symbol-ending character at or after `i`, or `|s|`. */
  function SymbolEnd(s: string, i: nat): (k: nat)
    requires i <= |s|
    ensures i <= k <= |s|
    ensures forall j :: i <= j < k ==> !IsSymbolStop(s[j])
    ensures k < |s| ==> IsSymbolStop(s[k])
    decreases |s| - i
  {
    if i == |s| || IsSymbolStop(s[i]) then i else SymbolEnd(s, i + 1)
  }

  /** Go's `symbolStr`: the maximal non-empty prefix free of ( ) [ ] { } : and white space,
      not starting with a numeric character. */
  function SymbolStr(s: string): (r: Reply<char, string>)
    ensures r.Ok? <==> |s| > 0 && !IsNumber(s[0]) && !IsSymbolStop(s[0])
    ensures r.Ok? ==> s == r.out + r.rest && |r.out| >= 1
    ensures r.Ok? ==> forall j :: 0 <= j < |r.out| ==> !IsSymbolStop(r.out[j])
    ensures r.Ok? ==> r.rest == [] || IsSymbolStop(r.rest[0])
    ensures r.Fail? ==> r == Fail([], LexFailed)
  {
    if |s| == 0 || IsNumber(s[0]) then Fail([], LexFailed)
    else
      var k := SymbolEnd(s, 0);
      if k == 0 then Fail([], LexFailed)
      else
        assert s == s[..k] + s[k..];
        Reply.Ok(s[k..], s[..k])
  }

  /** The keyword a name spells, if any. */
  function Keyword(name: string): Wrappers.Option<Token> {
    if name == "def" then Wrappers.Some(Def)
    else if name == "set" then Wrappers.Some(Set)
    else if name == "true" then Wrappers.Some(TrueLiteral)
    else if name == "false" then Wrappers.Some(FalseLiteral)
    else if name == "if" then Wrappers.Some(If)
    else Wrappers.None
  }

  /** Go's `keywordOrSymbol`: a symbol name, turned into a keyword token when it is one. */
  function KeywordOrSymbol(s: string): (r: Reply<char, Token>)
    ensures r.Ok? <==> SymbolStr(s).Ok?
    ensures r.Fail? ==> r == Fail([], LexFailed)
    ensures r.Ok? ==> r.rest == SymbolStr(s).rest
    ensures r.Ok? && Keyword(SymbolStr(s).out).None? ==> r.out == Symbol(SymbolStr(s).out)
    ensures r.Ok? && Keyword(SymbolStr(s).out).Some? ==> r.out == Keyword(SymbolStr(s).out).value
  {
    match SymbolStr(s)
    case Fail(rest, e) => Fail(rest, e)
    case Ok(rest, name) =>
      match Keyword(name)
      case Some(k) => Reply.Ok(rest, k)
      case None => Reply.Ok(rest, Symbol(name))
  }

  // ---------------------------------------------------------------------------
  // White space and the token loop

  /** The index of the first non-space at or after `i`, or `|s|`. */
  function SpaceEnd(s: string, i: nat): (k: nat)
    requires i <= |s|
    ensures i <= k <= |s|
    ensures forall j :: i <= j < k ==> IsSpace(s[j])
    ensures k < |s| ==> !IsSpace(s[k])
    decreases |s| - i
  {
    if i == |s| || !IsSpace(s[i]) then i else SpaceEnd(s, i + 1)
  }

  /** Go's `skipWhitespace`: never fails; drops the leading white space. */
  function SkipWhitespace(s: string): (r: Reply<char, ()>)
    ensures r.Ok?
    ensures exists k :: (0 <= k <= |s| && r.rest == s[k..] && (forall j :: 0 <= j < k ==> IsSpace(s[j])) &&
                         (k == |s| || !IsSpace(s[k])))
  {
    Reply.Ok(s[SpaceEnd(s, 0)..], ())
  }

  /** The alternatives of one token, in the order `LexString` tries them. */
  function Alternatives(): seq<Parser<char, Token>> {
    [LexLParen, LexRParen, LexLBracket, LexRBracket, LexStrLiteral, KeywordOrSymbol, LexIntLiteral]
  }

  /** One token followed by its trailing white space. */
  function TokenParser(): Parser<char, Token> {
    WithSuffix(Any(Alternatives()), SkipWhitespace)
  }

  lemma TokenParserConsuming()
    ensures Consuming(TokenParser())
  {
    var alts := Alternatives();
    forall k | 0 <= k < |alts| ensures Consuming(alts[k]) {
      forall s | alts[k](s).Ok? ensures |alts[k](s).rest| < |s| {
        if k == 5 {
          assert alts[k](s).rest == SymbolStr(s).rest;
        } else if k == 6 {
          var r := LexIntLiteral(s);
          var n :| 0 < n <= |s| && r.rest == s[n..] && Decimal.AllDigits(s[..n]) &&
            (n == |s| || !Decimal.IsDigit(s[n])) && r.out == IntLiteral(Decimal.DigitsValue(s[..n]));
        }
      }
    }
    AnyConsuming(alts);
    forall s | SkipWhitespace(s).Ok? ensures |SkipWhitespace(s).rest| <= |s| {
    }
    WithSuffixConsuming(Any(alts), SkipWhitespace);
  }

  /** Go's `LexString`: leading white space is skipped, then tokens are read for as long as
      one lexes. The first token failing is the only error; after that, lexing stops
      silently at the first position where no token lexes, and the rest is dropped. */
  function LexString(source: string): (r: Wrappers.Result<seq<Token>, Error>)
    ensures r.Err? <==> TokenParser()(SkipWhitespace(source).rest).Fail?
    ensures r.Err? ==> r.error == NoMatch
    ensures r.Ok? ==> |r.value| >= 1
  {
    match Many(TokenParser())(SkipWhitespace(source).rest)
    case Fail(_, e) =>
      assert e == NoMatch by {
        var input := SkipWhitespace(source).rest;
        assert Any(Alternatives())(input).Fail?;
      }
      Wrappers.Err(e)
    case Ok(_, ts) => Wrappers.Ok(ts)
  }

  /** Numbers beyond Latin-1 cannot start a symbol either: an Arabic-Indic digit one or a
      Roman numeral one at the start of the source is a lexing error. */
  lemma NonLatinNumberStarts()
    ensures SymbolStr("\U{0661}").Fail? && SymbolStr("\U{2160}x").Fail?
    ensures LexString("\U{0661}").Err?
  {
    // down the search tree to the ranges U+0660..U+0669 and U+2160..U+2182
    assert InRanges(0x0661, NumberRanges.left.left.left.left.left.left.left);
    assert InRanges(0x0661, NumberRanges.left.left.left.left.left.left);
    assert InRanges(0x0661, NumberRanges.left.left.left.left.left);
    assert InRanges(0x0661, NumberRanges.left.left.left.left);
    assert InRanges(0x0661, NumberRanges.left.left.left);
    assert InRanges(0x0661, NumberRanges.left.left);
    assert InRanges(0x0661, NumberRanges.left);
    assert InRanges(0x0661, NumberRanges);
    assert InRanges(0x2160, NumberRanges.left.right.left.left);
    assert InRanges(0x2160, NumberRanges.left.right.left);
    assert InRanges(0x2160, NumberRanges.left.right);
    assert InRanges(0x2160, NumberRanges.left);
    assert InRanges(0x2160, NumberRanges);
  }

  /** The tokens `LexString` returns are the maximal run of tokens after the leading white space. */
  lemma LexStringMaximal(source: string)
    requires LexString(source).Ok?
    ensures var input := SkipWhitespace(source).rest;
      exists rest :: Chain(TokenParser(), input, LexString(source).value, rest) && TokenParser()(rest).Fail?
  {
    var input := SkipWhitespace(source).rest;
    TokenParserConsuming();
    ManyIsMany0(TokenParser(), input);
    Many0Maximal(TokenParser(), input);
  }

  /** Empty and all-white-space sources are errors. */
  lemma LexBlank(source: string)
    requires forall j :: 0 <= j < |source| ==> IsSpace(source[j])
    ensures LexString(source) == Wrappers.Err(NoMatch)
  {
    var k :| 0 <= k <= |source| && SkipWhitespace(source).rest == source[k..] &&
      (forall j :: 0 <= j < k ==> IsSpace(source[j])) && (k == |source| || !IsSpace(source[k]));
    assert SkipWhitespace(source).rest == [];
  }

  // ---------------------------------------------------------------------------
  // Spelling tokens back: the round trip

  /** The tokens the lexer can return. `Colon` never is, a symbol cannot start with a
      numeric character or '"', and a string literal holds no '"'. */
  predicate Lexable(t: Token) {
    match t
    case Colon => false
    case Symbol(name) =>
      && |name| > 0 && !IsNumber(name[0]) && name[0] != '"'
      && (forall j :: 0 <= j < |name| ==> !IsSymbolStop(name[j]))
      && Keyword(name).None?
    case IntLiteral(n) => n >= 0
    case StrLiteral(content) => forall j :: 0 <= j < |content| ==> content[j] != '"'
    case _ => true
  }

  /** The source text of one token. */
  function Spelling(t: Token): (r: string)
    ensures |r| > 0
  {
    match t
    case LParen => "("
    case RParen => ")"
    case LBracket => "["
    case RBracket => "]"
    case Colon => ":"
    case Symbol(name) => if |name| == 0 then "_" else name
    case IntLiteral(n) => Decimal.IntToString(n)
    case StrLiteral(content) => "\"" + content + "\""
    case Def => "def"
    case Set => "set"
    case TrueLiteral => "true"
    case FalseLiteral => "false"
    case If => "if"
  }

  /** Token spellings separated by single spaces. */
  function Render(ts: seq<Token>): (r: string)
    ensures |ts| > 0 ==> |r| > 0 && r[0] == Spelling(ts[0])[0]
  {
    if |ts| == 0 then ""
    else if |ts| == 1 then Spelling(ts[0])
    else Spelling(ts[0]) + (" " + Render(ts[1..]))
  }

  /** What may follow a token's spelling without changing how it lexes: a symbol or keyword
      must be followed by a symbol-ending character, a number by a non-digit. */
  predicate Delimits(t: Token, tail: string) {
    match t
    case Symbol(_) => tail == [] || IsSymbolStop(tail[0])
    case IntLiteral(_) => tail == [] || !Decimal.IsDigit(tail[0])
    case Def => tail == [] || IsSymbolStop(tail[0])
    case Set => tail == [] || IsSymbolStop(tail[0])
    case TrueLiteral => tail == [] || IsSymbolStop(tail[0])
    case FalseLiteral => tail == [] || IsSymbolStop(tail[0])
    case If => tail == [] || IsSymbolStop(tail[0])
    case _ => true
  }

  /** Two splits of one string into a stop-free prefix and a rest that is empty or starts
      with a stop character are the same split. */
  lemma MaximalSplitUnique(stop: char -> bool, a: string, x: string, b: string, y: string)
    requires a + x == b + y
    requires forall j :: 0 <= j < |a| ==> !stop(a[j])
    requires forall j :: 0 <= j < |b| ==> !stop(b[j])
    requires x == [] || stop(x[0])
    requires y == [] || stop(y[0])
    ensures a == b && x == y
  {
    assert a == (a + x)[..|a|] && b == (b + y)[..|b|];
    assert x == (a + x)[|a|..] && y == (b + y)[|b|..];
  }

  lemma SymbolLike(name: string, tail: string)
    requires |name| > 0 && !IsNumber(name[0])
    requires forall j :: 0 <= j < |name| ==> !IsSymbolStop(name[j])
    requires tail == [] || IsSymbolStop(tail[0])
    ensures SymbolStr(name + tail) == Reply.Ok(tail, name)
  {
    var r := SymbolStr(name + tail);
    assert (name + tail)[0] == name[0];
    MaximalSplitUnique(IsSymbolStop, r.out, r.rest, name, tail);
  }

  lemma StrLiteralSpelling(content: string, tail: string)
    requires forall j :: 0 <= j < |content| ==> content[j] != '"'
    ensures LexStrLiteral("\"" + content + "\"" + tail) == Reply.Ok(tail, StrLiteral(content))
  {
    var u := "\"" + content + "\"" + tail;
    assert u[1 + |content|] == '"';
    var r := LexStrLiteral(u);
    var x := "\"" + tail;
    var y := "\"" + r.rest;
    assert u == "\"" + (content + x) && u == "\"" + (r.out.content + y);
    assert u[1..] == content + x && u[1..] == r.out.content + y;
    MaximalSplitUnique(c => c == '"', content, x, r.out.content, y);
    assert tail == x[1..] && r.rest == y[1..];
  }

  lemma IntLiteralSpelling(n: nat, tail: string)
    requires tail == [] || !Decimal.IsDigit(tail[0])
    ensures LexIntLiteral(Decimal.NatToString(n) + tail) == Reply.Ok(tail, IntLiteral(n))
  {
    var d := Decimal.NatToString(n);
    var u := d + tail;
    assert u[0] == d[0];
    var k := IntLiteralEnd(u);
    DigitsSplit(u, k, d, tail);
    Decimal.NatToStringRoundTrip(n);
  }

  /** Where `LexIntLiteral` stops reading digits. */
  lemma IntLiteralEnd(u: string) returns (k: nat)
    requires LexIntLiteral(u).Ok?
    ensures 0 < k <= |u| && LexIntLiteral(u).rest == u[k..] && Decimal.AllDigits(u[..k])
    ensures k == |u| || !Decimal.IsDigit(u[k])
    ensures LexIntLiteral(u).out == IntLiteral(Decimal.DigitsValue(u[..k]))
  {
    var r := LexIntLiteral(u);
    k :| 0 < k <= |u| && r.rest == u[k..] && Decimal.AllDigits(u[..k]) &&
      (k == |u| || !Decimal.IsDigit(u[k])) && r.out == IntLiteral(Decimal.DigitsValue(u[..k]));
  }

  /** Two splits of the same text into a run of digits and a rest that does not start
      with one are the same split. */
  lemma DigitsSplit(u: string, k: nat, d: string, tail: string)
    requires k <= |u| && u == d + tail && Decimal.AllDigits(u[..k]) && Decimal.AllDigits(d)
    requires k == |u| || !Decimal.IsDigit(u[k])
    requires tail == [] || !Decimal.IsDigit(tail[0])
    ensures u[..k] == d && u[k..] == tail
  {
    assert u == u[..k] + u[k..];
    MaximalSplitUnique(c => !Decimal.IsDigit(c), u[..k], u[k..], d, tail);
  }

  /** The alternatives, applied. */
  lemma AlternativesAt(u: string)
    ensures var alts := Alternatives();
      && alts[0](u) == LexLParen(u) && alts[1](u) == LexRParen(u)
      && alts[2](u) == LexLBracket(u) && alts[3](u) == LexRBracket(u)
      && alts[4](u) == LexStrLiteral(u) && alts[5](u) == KeywordOrSymbol(u)
      && alts[6](u) == LexIntLiteral(u) && |alts| == 7
  {
  }

  /** A string whose first character is not a bracket, parenthesis or '"' is left to the
      symbol and number alternatives. */
  lemma NotPunctuation(u: string)
    requires |u| > 0 && u[0] != '(' && u[0] != ')' && u[0] != '[' && u[0] != ']' && u[0] != '"'
    ensures forall j :: 0 <= j < 5 ==> Alternatives()[j](u).Fail?
  {
    AlternativesAt(u);
  }

  lemma WordLexes(name: string, t: Token, tail: string)
    requires |name| > 0 && !IsNumber(name[0]) && name[0] != '"'
    requires forall j :: 0 <= j < |name| ==> !IsSymbolStop(name[j])
    requires tail == [] || IsSymbolStop(tail[0])
    requires Keyword(name).None? ==> t == Symbol(name)
    requires Keyword(name).Some? ==> t == Keyword(name).value
    ensures Any(Alternatives())(name + tail) == Reply.Ok(tail, t)
  {
    var u := name + tail;
    assert u[0] == name[0] && !IsSymbolStop(name[0]);
    SymbolLike(name, tail);
    NotPunctuation(u);
    AlternativesAt(u);
    AnyFirstSuccess(Alternatives(), u, 5);
  }

  lemma StrLexes(content: string, tail: string)
    requires forall j :: 0 <= j < |content| ==> content[j] != '"'
    ensures Any(Alternatives())("\"" + content + "\"" + tail) == Reply.Ok(tail, StrLiteral(content))
  {
    var u := "\"" + content + "\"" + tail;
    StrLiteralSpelling(content, tail);
    AlternativesAt(u);
    AnyFirstSuccess(Alternatives(), u, 4);
  }

  lemma IntLexes(n: nat, tail: string)
    requires tail == [] || !Decimal.IsDigit(tail[0])
    ensures Any(Alternatives())(Decimal.NatToString(n) + tail) == Reply.Ok(tail, IntLiteral(n))
  {
    var u := Decimal.NatToString(n) + tail;
    assert u[0] == Decimal.NatToString(n)[0];
    assert Decimal.IsDigit(u[0]);
    IntLiteralSpelling(n, tail);
    NotPunctuation(u);
    AlternativesAt(u);
    AnyFirstSuccess(Alternatives(), u, 6);
  }

  lemma PunctuationLexes(t: Token, tail: string)
    requires t.LParen? || t.RParen? || t.LBracket? || t.RBracket?
    ensures Any(Alternatives())(Spelling(t) + tail) == Reply.Ok(tail, t)
  {
    var u := Spelling(t) + tail;
    assert u[0] == Spelling(t)[0] && u[1..] == tail;
    AlternativesAt(u);
    if t.LParen? {
      AnyFirstSuccess(Alternatives(), u, 0);
    } else if t.RParen? {
      AnyFirstSuccess(Alternatives(), u, 1);
    } else if t.LBracket? {
      AnyFirstSuccess(Alternatives(), u, 2);
    } else {
      AnyFirstSuccess(Alternatives(), u, 3);
    }
  }

  /** Each lexable token, followed by anything that delimits it, is what the alternatives
      read back, and they leave exactly what followed. */
  lemma SpellingLexes(t: Token, tail: string)
    requires Lexable(t) && Delimits(t, tail)
    ensures Any(Alternatives())(Spelling(t) + tail) == Reply.Ok(tail, t)
  {
    match t
    case LParen => PunctuationLexes(t, tail);
    case RParen => PunctuationLexes(t, tail);
    case LBracket => PunctuationLexes(t, tail);
    case RBracket => PunctuationLexes(t, tail);
    case StrLiteral(content) => StrLexes(content, tail);
    case IntLiteral(n) => IntLexes(n, tail);
    case Symbol(name) => WordLexes(name, t, tail);
    case Def => WordLexes("def", t, tail);
    case Set => WordLexes("set", t, tail);
    case TrueLiteral => WordLexes("true", t, tail);
    case FalseLiteral => WordLexes("false", t, tail);
    case If => WordLexes("if", t, tail);
  }

  /** The same, for a whole token: its trailing white space is skipped too. */
  lemma TokenLexes(t: Token, tail: string)
    requires Lexable(t) && Delimits(t, tail)
    ensures TokenParser()(Spelling(t) + tail) == Reply.Ok(SkipWhitespace(tail).rest, t)
  {
    SpellingLexes(t, tail);
    WithSuffixSpec(Any(Alternatives()), SkipWhitespace, Spelling(t) + tail);
  }

  /** A single space before a non-space is all `skipWhitespace` removes. */
  lemma SkipOneSpace(r: string)
    requires r == [] || !IsSpace(r[0])
    ensures SkipWhitespace(" " + r).rest == r
  {
    var s := " " + r;
    var k :| 0 <= k <= |s| && SkipWhitespace(s).rest == s[k..] &&
      (forall j :: 0 <= j < k ==> IsSpace(s[j])) && (k == |s| || !IsSpace(s[k]));
    assert IsSpace(s[0]);
    assert |s| > 1 ==> s[1] == r[0];
  }

  lemma SkipNone(r: string)
    requires r == [] || !IsSpace(r[0])
    ensures SkipWhitespace(r).rest == r
  {
    assert SpaceEnd(r, 0) == 0;
  }

  lemma SpellingStartsSolid(t: Token)
    requires Lexable(t)
    ensures !IsSpace(Spelling(t)[0])
  {
    if t.Symbol? {
      assert !IsSymbolStop(t.name[0]);
    }
  }

  /** No token lexes from the end of the input. */
  lemma NothingAtEnd()
    ensures TokenParser()([]).Fail?
  {
    AnyAllFail(Alternatives(), []);
  }

  lemma {:induction false} RenderChain(ts: seq<Token>)
    requires |ts| >= 1 && forall i :: 0 <= i < |ts| ==> Lexable(ts[i])
    ensures Chain(TokenParser(), Render(ts), ts, [])
    decreases |ts|
  {
    var p := TokenParser();
    var t := ts[0];
    if |ts| == 1 {
      assert Render(ts) == Spelling(t) + [];
      TokenLexes(t, []);
      SkipNone([]);
      assert p(Render(ts)) == Reply.Ok([], t);
      assert ts[1..] == [];
    } else {
      var more := Render(ts[1..]);
      var tail := " " + more;
      assert Render(ts) == Spelling(t) + tail;
      assert IsSymbolStop(tail[0]) && !Decimal.IsDigit(tail[0]);
      TokenLexes(t, tail);
      SpellingStartsSolid(ts[1]);
      SkipOneSpace(more);
      assert p(Render(ts)) == Reply.Ok(more, t);
      RenderChain(ts[1..]);
      assert Chain(p, more, ts[1..], []);
    }
  }

  /** Lexing the rendering of any non-empty list of lexable tokens gives back that list. */
  lemma LexRenderRoundTrip(ts: seq<Token>)
    requires |ts| >= 1 && forall i :: 0 <= i < |ts| ==> Lexable(ts[i])
    ensures LexString(Render(ts)) == Wrappers.Ok(ts)
  {
    SpellingStartsSolid(ts[0]);
    RenderChain(ts);
    SkipNone(Render(ts));
    TokenParserConsuming();
    NothingAtEnd();
    Many0Unique(TokenParser(), Render(ts), ts, []);
    ManyIsMany0(TokenParser(), Render(ts));
  }

  lemma ChainOfThree<O>(p: Parser<char, O>, s0: string, s1: string, s2: string, a: O, b: O, c: O)
    requires p(s0) == Reply.Ok(s1, a) && p(s1) == Reply.Ok(s2, b) && p(s2) == Reply.Ok([], c)
    ensures Chain(p, s0, [a, b, c], [])
  {
    assert [a, b, c][1..] == [b, c] && [b, c][1..] == [c] && [c][1..] == [];
    assert Chain(p, s2, [c], []);
    assert Chain(p, s1, [b, c], []);
  }

  /** A parenthesised symbol lexes to a left parenthesis, the symbol and a right parenthesis. */
  lemma LexParenthesised(name: string)
    requires Lexable(Symbol(name))
    ensures LexString("(" + name + ")") == Wrappers.Ok([LParen, Symbol(name), RParen])
  {
    var src := "(" + name + ")";
    var inner := name + ")";
    ParenOpens(name, src, inner);
    ParenCloses(name, inner);
    ChainOfThree(TokenParser(), src, inner, ")", LParen, Symbol(name), RParen);
    SkipNone(src);
    TokenParserConsuming();
    NothingAtEnd();
    Many0Unique(TokenParser(), src, [LParen, Symbol(name), RParen], []);
    ManyIsMany0(TokenParser(), src);
  }

  lemma ParenOpens(name: string, src: string, inner: string)
    requires Lexable(Symbol(name))
    requires src == "(" + name + ")" && inner == name + ")"
    ensures TokenParser()(src) == Reply.Ok(inner, LParen)
    ensures |src| > 0 && !IsSpace(src[0])
  {
    assert src == Spelling(LParen) + inner;
    assert inner[0] == name[0];
    TokenLexes(LParen, inner);
    SkipNone(inner);
  }

  lemma ParenCloses(name: string, inner: string)
    requires Lexable(Symbol(name)) && inner == name + ")"
    ensures TokenParser()(inner) == Reply.Ok(")", Symbol(name))
    ensures TokenParser()(")") == Reply.Ok([], RParen)
  {
    TokenLexes(Symbol(name), ")");
    SkipNone(")");
    assert ")" == Spelling(RParen) + [];
    TokenLexes(RParen, []);
    SkipNone([]);
  }

  /** `(foo)` lexes to `LParen`, `Symbol("foo")`, `RParen`. */
  lemma LexParenthesisedFoo(src: string)
    requires src == "(foo)"
    ensures LexString(src) == Wrappers.Ok([LParen, Symbol("foo"), RParen])
  {
    var name := "foo";
    assert Keyword(name).None?;
    assert src == "(" + name + ")";
    LexParenthesised(name);
  }
}
