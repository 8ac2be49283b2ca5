/** Go's `StructuralEq` / `ListStructuralEq` (src/types/types.go): equality of types
    up to a consistent one-to-one renaming of generic IDs. The walk threads a pair
    of maps (`aToB`, `bToA`); the model proves that its verdict is exactly "the
    shapes match and the generic IDs met at matching positions pair up one-to-one". */
module StructuralEquality {
  import opened Wrappers
  import opened Types

  datatype Ctx = Ctx(aToB: map<int, int>, bToA: map<int, int>)

  const EmptyCtx: Ctx := Ctx(map[], map[])

  type Pair = (int, int)

  /** The generic case of `structuralEq`: already paired IDs must be paired with each
      other, two unpaired IDs become paired, and a half-paired pair fails. */
  function StepPair(ctx: Ctx, x: int, y: int): (bool, Ctx) {
    var aMapped := x in ctx.aToB;
    var bMapped := y in ctx.bToA;
    if aMapped && bMapped then
      (ctx.bToA[y] == x && ctx.aToB[x] == y, ctx)
    else if !aMapped && !bMapped then
      (true, Ctx(ctx.aToB[x := y], ctx.bToA[y := x]))
    else
      (false, ctx)
  }

  /** Go's `structuralEq(ctx, a, b)`; the `TypeScheme` case panics in Go and is excluded. */
  function SEq(ctx: Ctx, a: Type, b: Type): (bool, Ctx)
    requires SchemeFree(a)
    decreases a
  {
    match a
    case Int => (Eq(a, b), ctx)
    case String => (Eq(a, b), ctx)
    case Bool => (Eq(a, b), ctx)
    case Func(args, ret) =>
      if !b.Func? || |b.args| != |args| then (false, ctx)
      else
        var r := SEqArgs(ctx, args, b.args);
        if !r.0 then r else SEq(r.1, ret, b.ret)
    case Generic(g) =>
      if !b.Generic? then (false, ctx) else StepPair(ctx, g.id, b.g.id)
    case Record(fa) =>
      if !b.Record? || |fa| != |b.fields| then (false, ctx)
      else SEqFields(ctx, fa, b.fields)
  }

  function SEqArgs(ctx: Ctx, as_: seq<Type>, bs: seq<Type>): (bool, Ctx)
    requires |as_| == |bs|
    requires forall i :: 0 <= i < |as_| ==> SchemeFree(as_[i])
    decreases as_
  {
    if |as_| == 0 then (true, ctx)
    else
      var r := SEq(ctx, as_[0], bs[0]);
      if !r.0 then r else SEqArgs(r.1, as_[1..], bs[1..])
  }

  /** The record loop: every field of `a` must exist in `b` under the same name. */
  function SEqFields(ctx: Ctx, fa: seq<Field>, fb: seq<Field>): (bool, Ctx)
    requires forall i :: 0 <= i < |fa| ==> SchemeFree(fa[i].typ)
    decreases fa
  {
    if |fa| == 0 then (true, ctx)
    else
      match Lookup(fb, fa[0].name)
      case None => (false, ctx)
      case Some(bt) =>
        var r := SEq(ctx, fa[0].typ, bt);
        if !r.0 then r else SEqFields(r.1, fa[1..], fb)
  }

  /** Go's `StructuralEq(a, b)`: a fresh context for one pair of types. */
  function StructuralEq(a: Type, b: Type): bool
    requires SchemeFree(a)
  {
    SEq(EmptyCtx, a, b).0
  }

  /** Go's `ListStructuralEq(a, b)`: lengths must agree and one context is shared by all pairs. */
  function ListStructuralEq(as_: seq<Type>, bs: seq<Type>): bool
    requires forall i :: 0 <= i < |as_| ==> SchemeFree(as_[i])
  {
    |as_| == |bs| && SEqArgs(EmptyCtx, as_, bs).0
  }

  // ---------------------------------------------------------------------------
  // Reference definition: shapes and the generic-ID pairing they induce.

  /** The ID pairs met at matching generic positions, in walk order, or None when the
      shapes differ. */
  function Pairs(a: Type, b: Type): Option<seq<Pair>>
    requires SchemeFree(a)
    decreases a
  {
    match a
    case Int => if Eq(a, b) then Some([]) else None
    case String => if Eq(a, b) then Some([]) else None
    case Bool => if Eq(a, b) then Some([]) else None
    case Func(args, ret) =>
      if !b.Func? || |b.args| != |args| then None
      else
        (match ArgsPairs(args, b.args)
         case None => None
         case Some(p) =>
           match Pairs(ret, b.ret)
           case None => None
           case Some(q) => Some(p + q))
    case Generic(g) => if b.Generic? then Some([(g.id, b.g.id)]) else None
    case Record(fa) =>
      if !b.Record? || |fa| != |b.fields| then None else FieldsPairs(fa, b.fields)
  }

  function ArgsPairs(as_: seq<Type>, bs: seq<Type>): Option<seq<Pair>>
    requires |as_| == |bs|
    requires forall i :: 0 <= i < |as_| ==> SchemeFree(as_[i])
    decreases as_
  {
    if |as_| == 0 then Some([])
    else
      match Pairs(as_[0], bs[0])
      case None => None
      case Some(p) =>
        match ArgsPairs(as_[1..], bs[1..])
        case None => None
        case Some(q) => Some(p + q)
  }

  function FieldsPairs(fa: seq<Field>, fb: seq<Field>): Option<seq<Pair>>
    requires forall i :: 0 <= i < |fa| ==> SchemeFree(fa[i].typ)
    decreases fa
  {
    if |fa| == 0 then Some([])
    else
      match Lookup(fb, fa[0].name)
      case None => None
      case Some(bt) =>
        match Pairs(fa[0].typ, bt)
        case None => None
        case Some(p) =>
          match FieldsPairs(fa[1..], fb)
          case None => None
          case Some(q) => Some(p + q)
  }

  /** A pairing is one-to-one: two pairs agree on the left exactly when they agree on the right. */
  ghost predicate Bijective(ps: seq<Pair>) {
    forall i, j :: 0 <= i < |ps| && 0 <= j < |ps| ==> (ps[i].0 == ps[j].0 <==> ps[i].1 == ps[j].1)
  }

  /** Folding `StepPair` over a list of pairs, stopping at the first failure. */
  function Fold(ctx: Ctx, ps: seq<Pair>): (bool, Ctx)
    decreases |ps|
  {
    if |ps| == 0 then (true, ctx)
    else
      var r := StepPair(ctx, ps[0].0, ps[0].1);
      if !r.0 then r else Fold(r.1, ps[1..])
  }

  lemma {:induction false} FoldAppend(ctx: Ctx, p: seq<Pair>, q: seq<Pair>)
    ensures Fold(ctx, p + q).0 == (Fold(ctx, p).0 && Fold(Fold(ctx, p).1, q).0)
    ensures Fold(ctx, p + q).0 ==> Fold(ctx, p + q).1 == Fold(Fold(ctx, p).1, q).1
    decreases |p|
  {
    if |p| == 0 {
      assert p + q == q;
    } else {
      assert (p + q)[0] == p[0];
      assert (p + q)[1..] == p[1..] + q;
      var r := StepPair(ctx, p[0].0, p[0].1);
      if r.0 {
        FoldAppend(r.1, p[1..], q);
      }
    }
  }

  /** The walk and the reference agree: the walk succeeds exactly when the shapes match
      and folding the pairing succeeds, and then it leaves the same context. */
  lemma {:induction false} SEqIsFold(ctx: Ctx, a: Type, b: Type)
    requires SchemeFree(a)
    ensures SEq(ctx, a, b).0 == (Pairs(a, b).Some? && Fold(ctx, Pairs(a, b).value).0)
    ensures SEq(ctx, a, b).0 ==> SEq(ctx, a, b).1 == Fold(ctx, Pairs(a, b).value).1
    decreases a
  {
    match a
    case Int =>
    case String =>
    case Bool =>
    case Generic(g) =>
      if b.Generic? {
        var ps := [(g.id, b.g.id)];
        assert ps[1..] == [];
      }
    case Func(args, ret) =>
      if b.Func? && |b.args| == |args| {
        SEqArgsIsFold(ctx, args, b.args);
        var r := SEqArgs(ctx, args, b.args);
        if r.0 {
          SEqIsFold(r.1, ret, b.ret);
        }
        if ArgsPairs(args, b.args).Some? && Pairs(ret, b.ret).Some? {
          var p, q := ArgsPairs(args, b.args).value, Pairs(ret, b.ret).value;
          assert Pairs(a, b) == Some(p + q);
          FoldAppend(ctx, p, q);
        }
      }
    case Record(fa) =>
      if b.Record? && |fa| == |b.fields| {
        SEqFieldsIsFold(ctx, fa, b.fields);
      }
  }

  lemma {:induction false} SEqArgsIsFold(ctx: Ctx, as_: seq<Type>, bs: seq<Type>)
    requires |as_| == |bs|
    requires forall i :: 0 <= i < |as_| ==> SchemeFree(as_[i])
    ensures SEqArgs(ctx, as_, bs).0 == (ArgsPairs(as_, bs).Some? && Fold(ctx, ArgsPairs(as_, bs).value).0)
    ensures SEqArgs(ctx, as_, bs).0 ==> SEqArgs(ctx, as_, bs).1 == Fold(ctx, ArgsPairs(as_, bs).value).1
    decreases as_
  {
    if |as_| > 0 {
      SEqIsFold(ctx, as_[0], bs[0]);
      var r := SEq(ctx, as_[0], bs[0]);
      if r.0 {
        SEqArgsIsFold(r.1, as_[1..], bs[1..]);
        if ArgsPairs(as_[1..], bs[1..]).Some? {
          FoldAppend(ctx, Pairs(as_[0], bs[0]).value, ArgsPairs(as_[1..], bs[1..]).value);
        }
      } else if Pairs(as_[0], bs[0]).Some? && ArgsPairs(as_[1..], bs[1..]).Some? {
        FoldAppend(ctx, Pairs(as_[0], bs[0]).value, ArgsPairs(as_[1..], bs[1..]).value);
      }
    }
  }

  lemma {:induction false} SEqFieldsIsFold(ctx: Ctx, fa: seq<Field>, fb: seq<Field>)
    requires forall i :: 0 <= i < |fa| ==> SchemeFree(fa[i].typ)
    ensures SEqFields(ctx, fa, fb).0 == (FieldsPairs(fa, fb).Some? && Fold(ctx, FieldsPairs(fa, fb).value).0)
    ensures SEqFields(ctx, fa, fb).0 ==> SEqFields(ctx, fa, fb).1 == Fold(ctx, FieldsPairs(fa, fb).value).1
    decreases fa
  {
    if |fa| > 0 {
      match Lookup(fb, fa[0].name)
      case None =>
      case Some(bt) =>
        SEqIsFold(ctx, fa[0].typ, bt);
        var r := SEq(ctx, fa[0].typ, bt);
        if r.0 {
          SEqFieldsIsFold(r.1, fa[1..], fb);
          if FieldsPairs(fa[1..], fb).Some? {
            FoldAppend(ctx, Pairs(fa[0].typ, bt).value, FieldsPairs(fa[1..], fb).value);
          }
        } else if Pairs(fa[0].typ, bt).Some? && FieldsPairs(fa[1..], fb).Some? {
          FoldAppend(ctx, Pairs(fa[0].typ, bt).value, FieldsPairs(fa[1..], fb).value);
        }
    }
  }

  // ---------------------------------------------------------------------------
  // The context maps are exactly the pairs seen so far.

  ghost predicate Represents(ctx: Ctx, seen: seq<Pair>) {
    && (forall x :: x in ctx.aToB <==> exists i :: 0 <= i < |seen| && seen[i].0 == x)
    && (forall y :: y in ctx.bToA <==> exists i :: 0 <= i < |seen| && seen[i].1 == y)
    && (forall i :: 0 <= i < |seen| ==> seen[i].0 in ctx.aToB && ctx.aToB[seen[i].0] == seen[i].1)
    && (forall i :: 0 <= i < |seen| ==> seen[i].1 in ctx.bToA && ctx.bToA[seen[i].1] == seen[i].0)
  }

  /** A pair whose IDs are both already paired is consistent exactly when they are
      paired with each other. */
  lemma StepPairBothMapped(ctx: Ctx, seen: seq<Pair>, x: int, y: int)
    requires Represents(ctx, seen) && Bijective(seen)
    requires x in ctx.aToB && y in ctx.bToA
    ensures (ctx.bToA[y] == x && ctx.aToB[x] == y) == Bijective(seen + [(x, y)])
    ensures ctx.bToA[y] == x && ctx.aToB[x] == y ==> Represents(ctx, seen + [(x, y)])
  {
    var s := seen + [(x, y)];
    var n := |seen|;
    assert s[n] == (x, y);
    assert forall k :: 0 <= k < n ==> s[k] == seen[k];
    var i :| 0 <= i < n && seen[i].0 == x;
    if ctx.bToA[y] == x && ctx.aToB[x] == y {
      assert seen[i].1 == y;
      forall k, l | 0 <= k < |s| && 0 <= l < |s|
        ensures s[k].0 == s[l].0 <==> s[k].1 == s[l].1
      {
        if k == n && l < n {
          assert s[l].0 == x <==> s[l].0 == seen[i].0;
        } else if l == n && k < n {
          assert s[k].0 == x <==> s[k].0 == seen[i].0;
        }
      }
      RepresentsExtendMapped(ctx, seen, x, y, i);
    } else {
      // `aToB[x] == y` would make `bToA[y] == x` through the pair recorded at `i`.
      assert seen[i].1 == ctx.aToB[x];
      assert s[i].0 == s[n].0 && s[i].1 != s[n].1;
    }
  }

  lemma RepresentsExtendMapped(ctx: Ctx, seen: seq<Pair>, x: int, y: int, i: nat)
    requires Represents(ctx, seen)
    requires i < |seen| && seen[i] == (x, y)
    ensures Represents(ctx, seen + [(x, y)])
  {
    var s := seen + [(x, y)];
    assert forall k :: 0 <= k < |seen| ==> s[k] == seen[k];
    assert s[|seen|] == (x, y);
    forall z | z in ctx.aToB ensures exists k :: 0 <= k < |s| && s[k].0 == z {
      var k :| 0 <= k < |seen| && seen[k].0 == z;
      assert s[k].0 == z;
    }
    forall z | z in ctx.bToA ensures exists k :: 0 <= k < |s| && s[k].1 == z {
      var k :| 0 <= k < |seen| && seen[k].1 == z;
      assert s[k].1 == z;
    }
  }

  /** A pair of two unpaired IDs is always consistent and is recorded in both maps. */
  lemma StepPairNeitherMapped(ctx: Ctx, seen: seq<Pair>, x: int, y: int)
    requires Represents(ctx, seen) && Bijective(seen)
    requires x !in ctx.aToB && y !in ctx.bToA
    ensures Bijective(seen + [(x, y)])
    ensures Represents(Ctx(ctx.aToB[x := y], ctx.bToA[y := x]), seen + [(x, y)])
  {
    var s := seen + [(x, y)];
    var n := |seen|;
    assert s[n] == (x, y);
    assert forall k :: 0 <= k < n ==> s[k] == seen[k];
    forall k, l | 0 <= k < |s| && 0 <= l < |s|
      ensures s[k].0 == s[l].0 <==> s[k].1 == s[l].1
    {
      if k < n && l == n {
        assert s[k].0 != x && s[k].1 != y;
      } else if l < n && k == n {
        assert s[l].0 != x && s[l].1 != y;
      }
    }
    var c := Ctx(ctx.aToB[x := y], ctx.bToA[y := x]);
    forall z | z in c.aToB ensures exists k :: 0 <= k < |s| && s[k].0 == z {
      if z == x {
        assert s[n].0 == z;
      } else {
        var k :| 0 <= k < n && seen[k].0 == z;
        assert s[k].0 == z;
      }
    }
    forall z | z in c.bToA ensures exists k :: 0 <= k < |s| && s[k].1 == z {
      if z == y {
        assert s[n].1 == z;
      } else {
        var k :| 0 <= k < n && seen[k].1 == z;
        assert s[k].1 == z;
      }
    }
  }

  lemma StepPairBijective(ctx: Ctx, seen: seq<Pair>, x: int, y: int)
    requires Represents(ctx, seen) && Bijective(seen)
    ensures StepPair(ctx, x, y).0 == Bijective(seen + [(x, y)])
    ensures StepPair(ctx, x, y).0 ==> Represents(StepPair(ctx, x, y).1, seen + [(x, y)])
  {
    var s := seen + [(x, y)];
    var n := |seen|;
    if x in ctx.aToB && y in ctx.bToA {
      StepPairBothMapped(ctx, seen, x, y);
    } else if x !in ctx.aToB && y !in ctx.bToA {
      StepPairNeitherMapped(ctx, seen, x, y);
    } else if x in ctx.aToB {
      var i :| 0 <= i < n && seen[i].0 == x;
      assert s[i] == seen[i] && s[n] == (x, y);
      assert s[i].0 == s[n].0 && s[i].1 != s[n].1;
    } else {
      var j :| 0 <= j < n && seen[j].1 == y;
      assert s[j] == seen[j] && s[n] == (x, y);
      assert s[j].1 == s[n].1 && s[j].0 != s[n].0;
    }
  }

  lemma BijectivePrefix(s: seq<Pair>, k: nat)
    requires k <= |s| && Bijective(s)
    ensures Bijective(s[..k])
  {
  }

  lemma {:induction false} FoldBijective(ctx: Ctx, seen: seq<Pair>, ps: seq<Pair>)
    requires Represents(ctx, seen) && Bijective(seen)
    ensures Fold(ctx, ps).0 == Bijective(seen + ps)
    decreases |ps|
  {
    if |ps| == 0 {
      assert seen + ps == seen;
    } else {
      StepPairBijective(ctx, seen, ps[0].0, ps[0].1);
      var s1 := seen + [ps[0]];
      assert seen + ps == s1 + ps[1..];
      if StepPair(ctx, ps[0].0, ps[0].1).0 {
        FoldBijective(StepPair(ctx, ps[0].0, ps[0].1).1, s1, ps[1..]);
      } else {
        assert s1 == (seen + ps)[..|s1|];
        if Bijective(seen + ps) {
          BijectivePrefix(seen + ps, |s1|);
        }
      }
    }
  }

  /** The main characterisation: `StructuralEq` holds exactly when the two types have the
      same shape and the generic IDs met at matching positions pair up one-to-one. */
  lemma StructuralEqIff(a: Type, b: Type)
    requires SchemeFree(a)
    ensures StructuralEq(a, b) <==> Pairs(a, b).Some? && Bijective(Pairs(a, b).value)
  {
    SEqIsFold(EmptyCtx, a, b);
    if Pairs(a, b).Some? {
      assert Represents(EmptyCtx, []);
      FoldBijective(EmptyCtx, [], Pairs(a, b).value);
      assert [] + Pairs(a, b).value == Pairs(a, b).value;
    }
  }

  /** The list version shares one renaming across all positions. */
  lemma ListStructuralEqIff(as_: seq<Type>, bs: seq<Type>)
    requires forall i :: 0 <= i < |as_| ==> SchemeFree(as_[i])
    ensures ListStructuralEq(as_, bs) <==>
      |as_| == |bs| && ArgsPairs(as_, bs).Some? && Bijective(ArgsPairs(as_, bs).value)
  {
    if |as_| == |bs| {
      SEqArgsIsFold(EmptyCtx, as_, bs);
      if ArgsPairs(as_, bs).Some? {
        assert Represents(EmptyCtx, []);
        FoldBijective(EmptyCtx, [], ArgsPairs(as_, bs).value);
        assert [] + ArgsPairs(as_, bs).value == ArgsPairs(as_, bs).value;
      }
    }
  }

  // ---------------------------------------------------------------------------
  // Consequences.

  /** A pairing of a type with itself maps every ID to itself. */
  lemma {:induction false} PairsSelfDiagonal(t: Type)
    requires SchemeFree(t) && WellFormed(t)
    ensures Pairs(t, t).Some?
    ensures forall i :: 0 <= i < |Pairs(t, t).value| ==> Pairs(t, t).value[i].0 == Pairs(t, t).value[i].1
    decreases t
  {
    match t
    case Func(args, ret) =>
      ArgsPairsSelfDiagonal(args);
      PairsSelfDiagonal(ret);
    case Record(fs) =>
      FieldsPairsSelfDiagonal(fs, fs);
    case _ =>
  }

  lemma {:induction false} ArgsPairsSelfDiagonal(as_: seq<Type>)
    requires forall i :: 0 <= i < |as_| ==> SchemeFree(as_[i]) && WellFormed(as_[i])
    ensures ArgsPairs(as_, as_).Some?
    ensures forall i :: 0 <= i < |ArgsPairs(as_, as_).value| ==> ArgsPairs(as_, as_).value[i].0 == ArgsPairs(as_, as_).value[i].1
    decreases as_
  {
    if |as_| > 0 {
      PairsSelfDiagonal(as_[0]);
      ArgsPairsSelfDiagonal(as_[1..]);
    }
  }

  /** `fa` is a suffix of the distinct-named record `fs`, so each name finds its own field. */
  lemma {:induction false} FieldsPairsSelfDiagonal(fa: seq<Field>, fs: seq<Field>)
    requires DistinctNames(fs) && |fa| <= |fs| && fa == fs[|fs| - |fa|..]
    requires forall i :: 0 <= i < |fs| ==> SchemeFree(fs[i].typ) && WellFormed(fs[i].typ)
    ensures FieldsPairs(fa, fs).Some?
    ensures forall i :: 0 <= i < |FieldsPairs(fa, fs).value| ==> FieldsPairs(fa, fs).value[i].0 == FieldsPairs(fa, fs).value[i].1
    decreases fa
  {
    if |fa| > 0 {
      var k := |fs| - |fa|;
      assert fa[0] == fs[k];
      LookupDistinct(fs, k);
      PairsSelfDiagonal(fa[0].typ);
      assert fa[1..] == fs[|fs| - |fa[1..]|..];
      FieldsPairsSelfDiagonal(fa[1..], fs);
    }
  }

  /** Every scheme-free, well-formed type is structurally equal to itself. */
  lemma StructuralEqReflexive(t: Type)
    requires SchemeFree(t) && WellFormed(t)
    ensures StructuralEq(t, t)
  {
    PairsSelfDiagonal(t);
    StructuralEqIff(t, t);
  }

  /** `'a` and `'b` are structurally equal whatever their IDs (types_test.go "same structure generic"). */
  lemma GenericsAlwaysMatch(x: GenericVar, y: GenericVar)
    ensures StructuralEq(Generic(x), Generic(y))
  {
  }

  /** Two positions that pair one ID with two different IDs break the renaming:
      `['a, 'a]` against `['b, 'c]` is unequal. */
  lemma ListSharesRenaming(a: GenericVar, b: GenericVar, c: GenericVar)
    requires b.id != c.id
    ensures !ListStructuralEq([Generic(a), Generic(a)], [Generic(b), Generic(c)])
  {
    var as_, bs := [Generic(a), Generic(a)], [Generic(b), Generic(c)];
    ListStructuralEqIff(as_, bs);
    assert as_[1..] == [Generic(a)] && bs[1..] == [Generic(c)];
    assert as_[1..][1..] == [] && bs[1..][1..] == [];
    assert Pairs(Generic(a), Generic(c)) == Some([(a.id, c.id)]);
    assert ArgsPairs([], []) == Some([]);
    assert [(a.id, c.id)] + [] == [(a.id, c.id)];
    assert ArgsPairs(as_[1..], bs[1..]) == Some([(a.id, c.id)]);
    var ps := [(a.id, b.id), (a.id, c.id)];
    assert Pairs(as_[0], bs[0]) == Some([(a.id, b.id)]);
    assert [(a.id, b.id)] + [(a.id, c.id)] == ps;
    assert ArgsPairs(as_, bs) == Some(ps);
    assert ps[0].0 == ps[1].0 && ps[0].1 != ps[1].1;
  }

  /** Lengths must agree for lists to be structurally equal. */
  lemma ListLengthMismatch(as_: seq<Type>, bs: seq<Type>)
    requires forall i :: 0 <= i < |as_| ==> SchemeFree(as_[i])
    requires |as_| != |bs|
    ensures !ListStructuralEq(as_, bs)
  {
  }

  /** types_test.go "nested different structure": a generic never matches a base type. */
  lemma NestedDifferentStructure()
    ensures !StructuralEq(Func([Generic(GenericVar(10, "", ""))], Generic(GenericVar(3, "", ""))),
                          Func([Bool], Generic(GenericVar(9, "", ""))))
  {
  }
}
