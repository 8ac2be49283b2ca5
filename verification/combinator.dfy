/** The generic parser-combinator library of the Go front end (src/combinator). A Go
    `Parser[I, O]` is a function from the input slice to `(rest, out, err)`; here it is a
    total function to a `Reply`, which carries the output only on success and the
    remaining input in both cases. Combinators return parsers, as in Go. */
module Combinator {
  import Wrappers
  import opened GoErrors

  datatype Reply<I, O> = Ok(rest: seq<I>, out: O) | Fail(rest: seq<I>, err: Error)

  type Parser<!I, O> = seq<I> -> Reply<I, O>

  datatype Pair<T, U> = Pair(one: T, two: U)

  /** Every success of `p` leaves strictly less input: what makes the `Many*` loops end. */
  ghost predicate Consuming<I(!new), O>(p: Parser<I, O>) {
    forall s :: p(s).Ok? ==> |p(s).rest| < |s|
  }

  /** No success of `p` leaves more input than it was given. */
  ghost predicate NonGrowing<I(!new), O>(p: Parser<I, O>) {
    forall s :: p(s).Ok? ==> |p(s).rest| <= |s|
  }

  /** Applying `p` again and again from `s` succeeds with the outputs `outs` and stops at `rest`. */
  ghost predicate Chain<I, O>(p: Parser<I, O>, s: seq<I>, outs: seq<O>, rest: seq<I>)
    decreases |outs|
  {
    if |outs| == 0 then rest == s
    else p(s).Ok? && p(s).out == outs[0] && Chain(p, p(s).rest, outs[1..], rest)
  }

  // ---------------------------------------------------------------------------
  // Many0 / Many

  /** The loop of `Many0`: apply `p` until it fails. A success that consumes nothing would
      make Go's loop spin forever; the model stops there instead. */
  function Many0From<I, O>(p: Parser<I, O>, s: seq<I>): (r: Reply<I, seq<O>>)
    ensures r.Ok? && |r.rest| <= |s|
    ensures Chain(p, s, r.out, r.rest)
    ensures p(r.rest).Fail? || |p(r.rest).rest| >= |r.rest|
    decreases |s|
  {
    match p(s)
    case Fail(_, _) => Ok(s, [])
    case Ok(rest, o) =>
      if |rest| >= |s| then Ok(s, [])
      else
        var r := Many0From(p, rest);
        assert ([o] + r.out)[1..] == r.out;
        Ok(r.rest, [o] + r.out)
  }

  function Many0<I, O>(p: Parser<I, O>): Parser<I, seq<O>> {
    s => Many0From(p, s)
  }

  /** `Many0` never fails; for a consuming parser it stops exactly where `p` first fails. */
  lemma Many0Maximal<I(!new), O>(p: Parser<I, O>, s: seq<I>)
    requires Consuming(p)
    ensures Many0(p)(s).Ok?
    ensures Chain(p, s, Many0(p)(s).out, Many0(p)(s).rest)
    ensures p(Many0(p)(s).rest).Fail?
  {
  }

  /** Conversely, a maximal run of a consuming parser is what `Many0` returns. */
  lemma {:induction false} Many0Unique<I(!new), O>(p: Parser<I, O>, s: seq<I>, outs: seq<O>, rest: seq<I>)
    requires Consuming(p)
    requires Chain(p, s, outs, rest) && p(rest).Fail?
    ensures Many0(p)(s) == Ok(rest, outs)
    decreases |outs|
  {
    if |outs| > 0 {
      Many0Unique(p, p(s).rest, outs[1..], rest);
      assert [outs[0]] + outs[1..] == outs;
    }
  }

  /** The loop of `Many`: the first application must succeed, and its failure is returned
      with the failing parser's remaining input. */
  function ManyFrom<I, O>(p: Parser<I, O>, s: seq<I>): (r: Reply<I, seq<O>>)
    ensures p(s).Fail? ==> r == Fail(p(s).rest, p(s).err)
    ensures p(s).Ok? ==> r.Ok? && |r.out| >= 1 && r.out[0] == p(s).out
    ensures r.Ok? ==> Chain(p, s, r.out, r.rest)
  {
    match p(s)
    case Fail(rest, e) => Fail(rest, e)
    case Ok(rest, o) =>
      var r := Many0From(p, rest);
      assert ([o] + r.out)[1..] == r.out;
      Ok(r.rest, [o] + r.out)
  }

  function Many<I, O>(p: Parser<I, O>): Parser<I, seq<O>> {
    s => ManyFrom(p, s)
  }

  /** `Many` fails exactly when the first application fails; otherwise it is `Many0`. */
  lemma ManyIsMany0<I(!new), O>(p: Parser<I, O>, s: seq<I>)
    requires Consuming(p)
    ensures Many(p)(s).Fail? <==> p(s).Fail?
    ensures p(s).Ok? ==> Many(p)(s) == Many0(p)(s)
  {
  }

  /** Both loops consume input when they produce output. */
  lemma {:induction false} ChainShrinks<I(!new), O>(p: Parser<I, O>, s: seq<I>, outs: seq<O>, rest: seq<I>)
    requires Consuming(p) && Chain(p, s, outs, rest)
    ensures |rest| + |outs| <= |s|
    decreases |outs|
  {
    if |outs| > 0 {
      ChainShrinks(p, p(s).rest, outs[1..], rest);
    }
  }

  // ---------------------------------------------------------------------------
  // Any

  /** The index of the first alternative that succeeds on `s`, or `|ps|` if none does. */
  ghost function FirstSuccess<I, O>(ps: seq<Parser<I, O>>, s: seq<I>): (k: nat)
    ensures k <= |ps|
    ensures forall j :: 0 <= j < k ==> ps[j](s).Fail?
    ensures k < |ps| ==> ps[k](s).Ok?
    decreases |ps|
  {
    if |ps| == 0 then 0
    else if ps[0](s).Ok? then 0
    else
      assert forall j :: 1 <= j < |ps| ==> ps[j] == ps[1..][j - 1];
      1 + FirstSuccess(ps[1..], s)
  }

  function AnyFrom<I, O>(ps: seq<Parser<I, O>>, s: seq<I>): (r: Reply<I, O>)
    ensures var k := FirstSuccess(ps, s); r == if k < |ps| then ps[k](s) else Fail(s, NoMatch)
    decreases |ps|
  {
    if |ps| == 0 then Fail(s, NoMatch)
    else if ps[0](s).Ok? then ps[0](s)
    else
      assert forall j :: 1 <= j < |ps| ==> ps[j] == ps[1..][j - 1];
      AnyFrom(ps[1..], s)
  }

  /** Go's `Any(parsers...)`: the first success in argument order, else `ErrNoMatch` at the
      original input. */
  function Any<I, O>(ps: seq<Parser<I, O>>): Parser<I, O> {
    s => AnyFrom(ps, s)
  }

  /** `Any` succeeds exactly when some alternative does, and then returns the result of
      the first alternative that succeeds. */
  lemma AnyFirstSuccess<I, O>(ps: seq<Parser<I, O>>, s: seq<I>, k: nat)
    requires k < |ps| && ps[k](s).Ok?
    requires forall j :: 0 <= j < k ==> ps[j](s).Fail?
    ensures Any(ps)(s) == ps[k](s)
  {
  }

  /** When every alternative fails, `Any` reports `ErrNoMatch` at the original input. */
  lemma AnyAllFail<I, O>(ps: seq<Parser<I, O>>, s: seq<I>)
    requires forall j :: 0 <= j < |ps| ==> ps[j](s).Fail?
    ensures Any(ps)(s) == Fail(s, NoMatch)
  {
  }

  /** Alternatives that all consume give a consuming `Any`. */
  lemma AnyConsuming<I(!new), O>(ps: seq<Parser<I, O>>)
    requires forall k :: 0 <= k < |ps| ==> Consuming(ps[k])
    ensures Consuming(Any(ps))
  {
    forall s | Any(ps)(s).Ok? ensures |Any(ps)(s).rest| < |s| {
      var k := FirstSuccess(ps, s);
      assert Consuming(ps[k]);
    }
  }

  // ---------------------------------------------------------------------------
  // WithSuffix, Surround, Then, SeperatedBy

  /** Go's `WithSuffix(main, suffix)`: `main`, then `suffix` on what is left, keeping main's output. */
  function WithSuffix<I, O, O2>(main: Parser<I, O>, suffix: Parser<I, O2>): Parser<I, O> {
    s =>
      match main(s)
      case Fail(rest, e) => Fail(rest, e)
      case Ok(rest, out) =>
        match suffix(rest)
        case Fail(rest2, e) => Fail(rest2, e)
        case Ok(rest2, _) => Ok(rest2, out)
  }

  lemma WithSuffixSpec<I, O, O2>(main: Parser<I, O>, suffix: Parser<I, O2>, s: seq<I>)
    ensures WithSuffix(main, suffix)(s).Ok? <==> main(s).Ok? && suffix(main(s).rest).Ok?
    ensures main(s).Fail? ==> WithSuffix(main, suffix)(s) == Fail(main(s).rest, main(s).err)
    ensures WithSuffix(main, suffix)(s).Ok? ==>
      WithSuffix(main, suffix)(s) == Ok(suffix(main(s).rest).rest, main(s).out)
  {
  }

  /** A consuming main and a suffix that never lengthens the input give a consuming parser. */
  lemma WithSuffixConsuming<I(!new), O, O2>(main: Parser<I, O>, suffix: Parser<I, O2>)
    requires Consuming(main)
    requires forall s :: suffix(s).Ok? ==> |suffix(s).rest| <= |s|
    ensures Consuming(WithSuffix(main, suffix))
  {
    forall s | WithSuffix(main, suffix)(s).Ok? ensures |WithSuffix(main, suffix)(s).rest| < |s| {
      WithSuffixSpec(main, suffix, s);
    }
  }

  /** Go's `Surround(left, main, right)`: any failure reports the original input. */
  function Surround<I, O, O1, O2>(left: Parser<I, O1>, main: Parser<I, O>, right: Parser<I, O2>): Parser<I, O> {
    s =>
      match left(s)
      case Fail(_, e) => Fail(s, e)
      case Ok(r1, _) =>
        match main(r1)
        case Fail(_, e) => Fail(s, e)
        case Ok(r2, out) =>
          match right(r2)
          case Fail(_, e) => Fail(s, e)
          case Ok(r3, _) => Ok(r3, out)
  }

  lemma SurroundSpec<I, O, O1, O2>(left: Parser<I, O1>, main: Parser<I, O>, right: Parser<I, O2>, s: seq<I>)
    ensures Surround(left, main, right)(s).Fail? ==> Surround(left, main, right)(s).rest == s
    ensures Surround(left, main, right)(s).Ok? <==>
      left(s).Ok? && main(left(s).rest).Ok? && right(main(left(s).rest).rest).Ok?
    ensures Surround(left, main, right)(s).Ok? ==>
      Surround(left, main, right)(s) == Ok(right(main(left(s).rest).rest).rest, main(left(s).rest).out)
  {
  }

  /** Go's `Then(first, second)`: an early failure is reported as `ErrNoMatch`, the last
      parser's result is passed on. */
  function Then<I, O1, O2>(first: Parser<I, O1>, second: Parser<I, O2>): Parser<I, Pair<O1, O2>> {
    s =>
      match first(s)
      case Fail(r1, _) => Fail(r1, NoMatch)
      case Ok(r1, o1) =>
        match second(r1)
        case Fail(r2, e) => Fail(r2, e)
        case Ok(r2, o2) => Ok(r2, Pair(o1, o2))
  }

  lemma ThenSpec<I, O1, O2>(first: Parser<I, O1>, second: Parser<I, O2>, s: seq<I>)
    ensures first(s).Fail? ==> Then(first, second)(s) == Fail(first(s).rest, NoMatch)
    ensures first(s).Ok? ==> Then(first, second)(s).rest == second(first(s).rest).rest
    ensures first(s).Ok? && second(first(s).rest).Fail? ==>
      Then(first, second)(s).Fail? && Then(first, second)(s).err == second(first(s).rest).err
    ensures Then(first, second)(s).Ok? ==>
      Then(first, second)(s).out == Pair(first(s).out, second(first(s).rest).out)
  {
  }

  /** Go's `SeperatedBy(left, sep, right)`: `Then` with a discarded separator in between. */
  function SeperatedBy<I, O1, O2, O3>(left: Parser<I, O1>, sep: Parser<I, O2>, right: Parser<I, O3>): Parser<I, Pair<O1, O3>> {
    s =>
      match left(s)
      case Fail(r1, _) => Fail(r1, NoMatch)
      case Ok(r1, o1) =>
        match sep(r1)
        case Fail(r2, _) => Fail(r2, NoMatch)
        case Ok(r2, _) =>
          match right(r2)
          case Fail(r3, e) => Fail(r3, e)
          case Ok(r3, o3) => Ok(r3, Pair(o1, o3))
  }

  /** Separating by a parser that always succeeds on its input without consuming is `Then`. */
  lemma SeperatedByTrivialSep<I(!new), O1, O2, O3>(left: Parser<I, O1>, sep: Parser<I, O2>, right: Parser<I, O3>, s: seq<I>)
    requires forall t :: sep(t).Ok? && sep(t).rest == t
    ensures SeperatedBy(left, sep, right)(s) == Then(left, right)(s)
  {
  }

  lemma SeperatedBySpec<I, O1, O2, O3>(left: Parser<I, O1>, sep: Parser<I, O2>, right: Parser<I, O3>, s: seq<I>)
    ensures left(s).Fail? ==> SeperatedBy(left, sep, right)(s).Fail? && SeperatedBy(left, sep, right)(s).err == NoMatch
    ensures left(s).Ok? && sep(left(s).rest).Fail? ==>
      SeperatedBy(left, sep, right)(s).Fail? && SeperatedBy(left, sep, right)(s).err == NoMatch
    ensures SeperatedBy(left, sep, right)(s).Ok? <==>
      left(s).Ok? && sep(left(s).rest).Ok? && right(sep(left(s).rest).rest).Ok?
  {
  }

  // ---------------------------------------------------------------------------
  // Delimited, Maybe

  /** The loop of `Delimited`: items separated by `sep`, with an optional trailing
      separator. An item and separator that together consume nothing would make Go's loop
      spin forever; the model stops there instead. */
  function DelimitedFrom<I, O1, O2>(item: Parser<I, O1>, sep: Parser<I, O2>, s: seq<I>): (r: Reply<I, seq<O1>>)
    ensures r.Ok?
    ensures item(s).Fail? ==> r == Ok(s, [])
    ensures item(s).Ok? ==> |r.out| >= 1 && r.out[0] == item(s).out
    ensures item(s).Ok? && sep(item(s).rest).Fail? ==> r == Ok(item(s).rest, [item(s).out])
    ensures item(s).Ok? ==>
      || DelimitedChain(item, sep, s, r.out, r.rest, false)
      || (DelimitedChain(item, sep, s, r.out, r.rest, true) && item(r.rest).Fail?)
    decreases |s|
  {
    match item(s)
    case Fail(_, _) => Ok(s, [])
    case Ok(i1, o) =>
      match sep(i1)
      case Fail(_, _) => Ok(i1, [o])
      case Ok(i2, _) =>
        if |i2| >= |s| then Ok(i1, [o])
        else
          var r := DelimitedFrom(item, sep, i2);
          assert ([o] + r.out)[1..] == r.out;
          Ok(r.rest, [o] + r.out)
  }

  /** `outs` are the outputs of items read from `s` with a successful `sep` between each two;
      the run stops at `rest`, right after the last item, or after one more `sep` when
      `trailing` holds. */
  ghost predicate DelimitedChain<I, O1, O2>(item: Parser<I, O1>, sep: Parser<I, O2>, s: seq<I>,
                                            outs: seq<O1>, rest: seq<I>, trailing: bool)
    decreases |outs|
  {
    && |outs| >= 1
    && item(s).Ok? && item(s).out == outs[0]
    && if |outs| == 1 then
         if trailing then sep(item(s).rest).Ok? && rest == sep(item(s).rest).rest
         else rest == item(s).rest
       else
         sep(item(s).rest).Ok? && DelimitedChain(item, sep, sep(item(s).rest).rest, outs[1..], rest, trailing)
  }

  /** Conversely, for consuming parsers, a run that ends where Go's loop stops (no separator
      after the last item, or no item after a trailing separator) is what `Delimited` returns. */
  lemma {:induction false} DelimitedUnique<I(!new), O1, O2>(item: Parser<I, O1>, sep: Parser<I, O2>, s: seq<I>,
                                                            outs: seq<O1>, rest: seq<I>, trailing: bool)
    requires Consuming(item) && NonGrowing(sep)
    requires DelimitedChain(item, sep, s, outs, rest, trailing)
    requires if trailing then item(rest).Fail? else sep(rest).Fail?
    ensures Delimited(item, sep)(s) == Ok(rest, outs)
    decreases |outs|
  {
    var i1 := item(s).rest;
    if |outs| == 1 {
      assert [outs[0]] + [] == [outs[0]] == outs;
      if trailing {
        assert |sep(i1).rest| <= |i1| < |s|;
        assert DelimitedFrom(item, sep, sep(i1).rest) == Ok(rest, []);
      }
    } else {
      DelimitedUnique(item, sep, sep(i1).rest, outs[1..], rest, trailing);
      assert [outs[0]] + outs[1..] == outs;
    }
  }

  function Delimited<I, O1, O2>(item: Parser<I, O1>, sep: Parser<I, O2>): Parser<I, seq<O1>> {
    s => DelimitedFrom(item, sep, s)
  }

  /** A trailing separator is consumed: after "item sep" with no further item, the rest
      starts after the separator. */
  lemma DelimitedTrailingSep<I, O1, O2>(item: Parser<I, O1>, sep: Parser<I, O2>, s: seq<I>)
    requires item(s).Ok? && sep(item(s).rest).Ok?
    requires |sep(item(s).rest).rest| < |s|
    requires item(sep(item(s).rest).rest).Fail?
    ensures Delimited(item, sep)(s) == Ok(sep(item(s).rest).rest, [item(s).out])
  {
    assert [item(s).out] + [] == [item(s).out];
  }

  /** Go's `Maybe(p)`: never fails; a failure becomes `None` at the unchanged input. */
  function Maybe<I, O>(p: Parser<I, O>): Parser<I, Wrappers.Option<O>> {
    s =>
      match p(s)
      case Fail(_, _) => Ok(s, Wrappers.None)
      case Ok(rest, o) => Ok(rest, Wrappers.Some(o))
  }

  lemma MaybeSpec<I, O>(p: Parser<I, O>, s: seq<I>)
    ensures Maybe(p)(s).Ok?
    ensures p(s).Fail? ==> Maybe(p)(s) == Ok(s, Wrappers.None)
    ensures p(s).Ok? ==> Maybe(p)(s) == Ok(p(s).rest, Wrappers.Some(p(s).out))
  {
  }

  // ---------------------------------------------------------------------------
  // MatchOne (slice.go)

  /** Go's `MatchOne(in, item, output)`: one element equal to `item`. */
  function MatchOne<T(==), O>(s: seq<T>, item: T, output: O): (r: Reply<T, O>)
    ensures |s| == 0 ==> r.Fail? && r.err == NoMatch
    ensures |s| > 0 && s[0] != item ==> r.Fail? && r.err == NoMatch
    ensures r.Ok? <==> |s| > 0 && s[0] == item
    ensures r.Ok? ==> r.rest == s[1..] && r.out == output
  {
    if |s| == 0 || s[0] != item then Fail([], NoMatch) else Ok(s[1..], output)
  }
}
