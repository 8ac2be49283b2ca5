/** The Go front end's `error` values: the sentinel errors of the combinator, lexer and
    parser packages, `errors.Join`, and the position wrappers `parse.wrapIfErr` adds.
    The text a wrapper prints for the tokens it quotes is abstracted to how many of
    them it quotes. */
module GoErrors {

  /** Where `wrapIfErr` says the error happened. */
  datatype Place =
    | AtEnd                      // "at the end: …"
    | AtTokens(count: nat)       // "at '<all count tokens>': …", count <= 10
    | AtTokensPrefix             // "at '<first 10 tokens>...': …"

  datatype Error =
    | NoMatch                    // combinator.ErrNoMatch, "does not match"
    | LexFailed                  // lex.ErrLex, "could not lex"
    | ParseFailed                // parse.ErrParse, "parse error"
    | LexError                   // parse.LexError, "error in lex"
    | Joined(first: Error, second: Error)
    | At(place: Place, inner: Error)
}
