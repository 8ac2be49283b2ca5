/** Substitution and unification as the solver's package comment defines them
    (src/solve/constraints.go:170-242). The implementation of `unify` and
    `substituteAllToType` is not part of this model; the functions here follow the
    comment's rules. A function of several arguments is treated as curried, which is how
    the solver's tests read `Func([Int, Int], Int) = Func([t1], t2)`: `t1 := Int`,
    `t2 := Int -> Int`. Type variables are identified by ID alone. */
module Unification {
  import opened Wrappers
  import opened Types

  /** `t1 = t2`. */
  datatype Constraint = Constraint(lhs: Type, rhs: Type)

  /** `{newType / 'oldVar}`. */
  datatype Subst = Subst(oldVar: GenericVar, newType: Type)

  /** Why a constraint list has no unifier: the first constraint `unify` could not
      solve (two different type constructors, or a variable occurring in the other side). */
  datatype UnifyError = Unsolvable(c: Constraint)

  // ---------------------------------------------------------------------------
  // Variables and sizes

  /** The IDs of the type variables occurring in `t`. */
  function Ids(t: Type): set<int>
    decreases t
  {
    match t
    case Generic(g) => {g.id}
    case Func(args, ret) => (set i, x | 0 <= i < |args| && x in Ids(args[i]) :: x) + Ids(ret)
    case Record(fs) => set i, x | 0 <= i < |fs| && x in Ids(fs[i].typ) :: x
    case Scheme(_, body) => Ids(body)
    case _ => {}
  }

  function IdsC(cs: seq<Constraint>): set<int> {
    if |cs| == 0 then {} else Ids(cs[0].lhs) + Ids(cs[0].rhs) + IdsC(cs[1..])
  }

  function Size(t: Type): nat
    decreases t, 1
  {
    match t
    case Func(args, ret) => 1 + |args| + SizeAll(args) + Size(ret)
    case Record(fs) => 1 + SizeFields(fs)
    case Scheme(_, body) => 1 + Size(body)
    case _ => 1
  }

  function SizeAll(ts: seq<Type>): nat
    decreases ts, 0
  {
    if |ts| == 0 then 0 else Size(ts[0]) + SizeAll(ts[1..])
  }

  function SizeFields(fs: seq<Field>): nat
    decreases fs, 0
  {
    if |fs| == 0 then 0 else 1 + Size(fs[0].typ) + SizeFields(fs[1..])
  }

  function SizeC(cs: seq<Constraint>): nat {
    if |cs| == 0 then 0 else Size(cs[0].lhs) + Size(cs[0].rhs) + SizeC(cs[1..])
  }

  lemma SizePositive(t: Type)
    ensures Size(t) >= 1
  {
  }

  // ---------------------------------------------------------------------------
  // Substitution

  /** `t {newType / 'oldVar}`: the variable is replaced, base types and other variables stay,
      and the substitution goes into function, record and scheme types. */
  function Apply(t: Type, s: Subst): (r: Type)
    ensures t.Simple() ==> r == t
    ensures t.Generic? && t.g.id == s.oldVar.id ==> r == s.newType
    ensures t.Generic? && t.g.id != s.oldVar.id ==> r == t
    ensures t.Func? ==> r.Func? && |r.args| == |t.args| && r.ret == Apply(t.ret, s)
    ensures t.Func? ==> forall i :: 0 <= i < |t.args| ==> r.args[i] == Apply(t.args[i], s)
    decreases t
  {
    match t
    case Generic(g) => if g.id == s.oldVar.id then s.newType else t
    case Func(args, ret) => Func(seq(|args|, i requires 0 <= i < |args| => Apply(args[i], s)), Apply(ret, s))
    case Record(fs) => Record(seq(|fs|, i requires 0 <= i < |fs| => Field(fs[i].name, Apply(fs[i].typ, s))))
    case Scheme(over, body) => Scheme(over, Apply(body, s))
    case _ => t
  }

  /** `t (S1; S2; …)`: the substitutions one after the other, first to last. */
  function ApplyAll(t: Type, ss: seq<Subst>): Type
    decreases |ss|
  {
    if |ss| == 0 then t else ApplyAll(Apply(t, ss[0]), ss[1..])
  }

  /** A base type is left alone by every substitution sequence. */
  lemma {:induction false} ApplyAllBase(t: Type, ss: seq<Subst>)
    requires t.Int? || t.Bool? || t.String?
    ensures ApplyAll(t, ss) == t
    decreases |ss|
  {
    if |ss| > 0 {
      ApplyAllBase(t, ss[1..]);
    }
  }

  /** `C S`: the substitution applied to both sides of every constraint. */
  function ApplyC(cs: seq<Constraint>, s: Subst): (r: seq<Constraint>)
    ensures |r| == |cs|
    ensures forall i :: 0 <= i < |cs| ==> r[i] == Constraint(Apply(cs[i].lhs, s), Apply(cs[i].rhs, s))
  {
    seq(|cs|, i requires 0 <= i < |cs| => Constraint(Apply(cs[i].lhs, s), Apply(cs[i].rhs, s)))
  }

  /** Sequential composition: `t (S1; S2) = (t S1) S2`. */
  lemma {:induction false} ApplyAllCompose(t: Type, s1: seq<Subst>, s2: seq<Subst>)
    ensures ApplyAll(t, s1 + s2) == ApplyAll(ApplyAll(t, s1), s2)
    decreases |s1|
  {
    if |s1| > 0 {
      assert (s1 + s2)[0] == s1[0] && (s1 + s2)[1..] == s1[1..] + s2;
      ApplyAllCompose(Apply(t, s1[0]), s1[1..], s2);
    } else {
      assert s1 + s2 == s2;
    }
  }

  /** A substitution for a variable that does not occur in `t` leaves `t` as it is. */
  lemma {:induction false} ApplyNoOccur(t: Type, s: Subst)
    requires s.oldVar.id !in Ids(t)
    ensures Apply(t, s) == t
    decreases t
  {
    match t
    case Func(args, ret) =>
      forall i | 0 <= i < |args| ensures Apply(args[i], s) == args[i] {
        ApplyNoOccur(args[i], s);
      }
      ApplyNoOccur(ret, s);
    case Record(fs) =>
      forall i | 0 <= i < |fs| ensures Apply(fs[i].typ, s) == fs[i].typ {
        ApplyNoOccur(fs[i].typ, s);
      }
      assert Apply(t, s).fields == fs;
    case Scheme(_, body) => ApplyNoOccur(body, s);
    case _ =>
  }

  /** After `{new / 'x}` the variable `'x` is gone unless `new` brings it, and the only
      variables that can appear are the old ones and those of `new`. */
  lemma {:induction false} ApplyIds(t: Type, s: Subst)
    ensures Ids(Apply(t, s)) <= (Ids(t) - {s.oldVar.id}) + Ids(s.newType)
    decreases t
  {
    match t
    case Func(args, ret) =>
      forall i | 0 <= i < |args| ensures Ids(Apply(args[i], s)) <= (Ids(args[i]) - {s.oldVar.id}) + Ids(s.newType) {
        ApplyIds(args[i], s);
      }
      ApplyIds(ret, s);
    case Record(fs) =>
      forall i | 0 <= i < |fs| ensures Ids(Apply(fs[i].typ, s)) <= (Ids(fs[i].typ) - {s.oldVar.id}) + Ids(s.newType) {
        ApplyIds(fs[i].typ, s);
      }
    case Scheme(_, body) => ApplyIds(body, s);
    case _ =>
  }

  lemma {:induction false} ApplyCIds(cs: seq<Constraint>, s: Subst)
    ensures IdsC(ApplyC(cs, s)) <= (IdsC(cs) - {s.oldVar.id}) + Ids(s.newType)
    decreases |cs|
  {
    if |cs| > 0 {
      ApplyIds(cs[0].lhs, s);
      ApplyIds(cs[0].rhs, s);
      assert ApplyC(cs, s)[1..] == ApplyC(cs[1..], s);
      ApplyCIds(cs[1..], s);
    }
  }

  lemma SubsetCard(a: set<int>, b: set<int>)
    requires a <= b
    ensures |a| <= |b|
  {
    assert b == a + (b - a);
  }

  /** Eliminating `'x` from the rest of the constraints leaves strictly fewer variables. */
  lemma EliminationShrinks(x: GenericVar, t: Type, rest: seq<Constraint>, cs: seq<Constraint>)
    requires x.id !in Ids(t)
    requires IdsC(cs) == {x.id} + Ids(t) + IdsC(rest)
    ensures |IdsC(ApplyC(rest, Subst(x, t)))| < |IdsC(cs)|
  {
    ApplyCIds(rest, Subst(x, t));
    SubsetCard(IdsC(ApplyC(rest, Subst(x, t))), IdsC(cs) - {x.id});
  }

  // ---------------------------------------------------------------------------
  // Unification

  /** Both sides are the same simple type: the same variable, or both `Int`, both `Bool`
      or both `String`. */
  predicate SameSimple(a: Type, b: Type) {
    || (a.Generic? && b.Generic? && a.g.id == b.g.id)
    || (a.Int? && b.Int?)
    || (a.Bool? && b.Bool?)
    || (a.String? && b.String?)
  }

  /** The argument of a (curried) function type. */
  function Head(f: Type): Type
    requires f.Func? && |f.args| >= 1
  {
    f.args[0]
  }

  /** The result of a (curried) function type: the return type after the last argument,
      otherwise the function of the remaining arguments. */
  function Tail(f: Type): (r: Type)
    requires f.Func? && |f.args| >= 1
    ensures Size(Head(f)) + Size(r) < Size(f)
    ensures Ids(Head(f)) + Ids(r) == Ids(f)
  {
    if |f.args| == 1 then
      TailIds(f, f.ret);
      f.ret
    else
      var r := Func(f.args[1..], f.ret);
      assert SizeAll(f.args) == Size(f.args[0]) + SizeAll(f.args[1..]);
      TailIds(f, r);
      r
  }

  lemma TailIds(f: Type, r: Type)
    requires f.Func? && |f.args| >= 1
    requires r == if |f.args| == 1 then f.ret else Func(f.args[1..], f.ret)
    ensures Ids(f.args[0]) + Ids(r) == Ids(f)
  {
    forall x | x in Ids(f.args[0]) ensures x in Ids(f) {
      assert 0 < |f.args|;
    }
    if |f.args| == 1 {
      forall x | x in Ids(f) && x !in Ids(f.ret) ensures x in Ids(f.args[0]) {
        var i :| 0 <= i < |f.args| && x in Ids(f.args[i]);
      }
      return;
    }
    forall x | x in Ids(f) && x !in Ids(f.ret) && x !in Ids(f.args[0])
      ensures x in Ids(r)
    {
      var i :| 0 <= i < |f.args| && x in Ids(f.args[i]);
      assert i > 0;
      assert f.args[1..][i - 1] == f.args[i];
      assert x in Ids(f.args[1..][i - 1]);
    }
    forall x | x in Ids(r) && x !in Ids(f.ret)
      ensures x in Ids(f)
    {
      var i :| 0 <= i < |f.args[1..]| && x in Ids(f.args[1..][i]);
      assert f.args[1..][i] == f.args[i + 1];
      assert x in Ids(f.args[i + 1]);
    }
  }

  lemma DropShrinks(cs: seq<Constraint>)
    requires |cs| > 0
    ensures |IdsC(cs[1..])| <= |IdsC(cs)| && SizeC(cs[1..]) < SizeC(cs)
  {
    SubsetCard(IdsC(cs[1..]), IdsC(cs));
    SizePositive(cs[0].lhs);
  }

  /** The first constraint, between two function types, replaced by one between their
      arguments and one between their results. */
  function Split(cs: seq<Constraint>): (r: seq<Constraint>)
    requires |cs| > 0 && cs[0].lhs.Func? && cs[0].rhs.Func? && |cs[0].lhs.args| >= 1 && |cs[0].rhs.args| >= 1
    ensures |r| == |cs| + 1 && r[2..] == cs[1..]
  {
    var c := cs[0];
    [Constraint(Head(c.lhs), Head(c.rhs)), Constraint(Tail(c.lhs), Tail(c.rhs))] + cs[1..]
  }

  lemma SplitShrinks(cs: seq<Constraint>)
    requires |cs| > 0 && cs[0].lhs.Func? && cs[0].rhs.Func? && |cs[0].lhs.args| >= 1 && |cs[0].rhs.args| >= 1
    ensures |IdsC(Split(cs))| <= |IdsC(cs)| && SizeC(Split(cs)) < SizeC(cs)
  {
    var c, split := cs[0], Split(cs);
    assert split[1..][1..] == cs[1..];
    assert IdsC(split) == IdsC(cs);
  }

  /** `unify(C)`, following the package comment: the empty set gives the empty
      substitution; a constraint between the same simple type is dropped; a variable that
      does not occur on the other side is eliminated, left side first; two function types
      are split into their arguments and results; anything else has no unifier. */
  function Unify(cs: seq<Constraint>): (r: Result<seq<Subst>, UnifyError>)
    ensures |cs| == 0 ==> r == Ok([])
    ensures |cs| > 0 && !SameSimple(cs[0].lhs, cs[0].rhs) && cs[0].lhs.Generic? && cs[0].lhs.g.id !in Ids(cs[0].rhs) && r.Ok?
      ==> |r.value| >= 1 && r.value[0] == Subst(cs[0].lhs.g, cs[0].rhs)
    decreases |IdsC(cs)|, SizeC(cs)
  {
    if |cs| == 0 then Ok([])
    else
      var c, rest := cs[0], cs[1..];
      assert IdsC(cs) == Ids(c.lhs) + Ids(c.rhs) + IdsC(rest);
      if SameSimple(c.lhs, c.rhs) then
        DropShrinks(cs);
        Unify(rest)
      else if c.lhs.Generic? && c.lhs.g.id !in Ids(c.rhs) then
        var s := Subst(c.lhs.g, c.rhs);
        EliminationShrinks(c.lhs.g, c.rhs, rest, cs);
        match Unify(ApplyC(rest, s))
        case Ok(more) => Ok([s] + more)
        case Err(e) => Err(e)
      else if c.rhs.Generic? && c.rhs.g.id !in Ids(c.lhs) then
        var s := Subst(c.rhs.g, c.lhs);
        EliminationShrinks(c.rhs.g, c.lhs, rest, cs);
        match Unify(ApplyC(rest, s))
        case Ok(more) => Ok([s] + more)
        case Err(e) => Err(e)
      else if c.lhs.Func? && c.rhs.Func? && |c.lhs.args| >= 1 && |c.rhs.args| >= 1 then
        SplitShrinks(cs);
        Unify(Split(cs))
      else Err(Unsolvable(c))
  }

  // ---------------------------------------------------------------------------
  // Soundness

  /** The form two types are compared in: functions of several arguments curried, and
      type variables reduced to their IDs. */
  function Norm(t: Type): Type
    decreases Size(t), 1
  {
    match t
    case Generic(g) => Generic(GenericVar(g.id, "", ""))
    case Func(args, ret) =>
      if |args| == 0 then Func([], Norm(ret))
      else
        var tail := Tail(t);
        Func([Norm(args[0])], Norm(tail))
    case Record(fs) => Record(NormFields(fs))
    case Scheme(over, body) =>
      Scheme(seq(|over|, i requires 0 <= i < |over| => GenericVar(over[i].id, "", "")), Norm(body))
    case _ => t
  }

  function NormFields(fs: seq<Field>): seq<Field>
    decreases SizeFields(fs), 0
  {
    if |fs| == 0 then [] else [Field(fs[0].name, Norm(fs[0].typ))] + NormFields(fs[1..])
  }

  /** `S` unifies every constraint of `C`: both sides come out the same. */
  predicate Unifies(ss: seq<Subst>, cs: seq<Constraint>) {
    forall i :: 0 <= i < |cs| ==> Norm(ApplyAll(cs[i].lhs, ss)) == Norm(ApplyAll(cs[i].rhs, ss))
  }

  /** A substitution sequence goes into a function type argument by argument. */
  lemma {:induction false} ApplyAllFunc(f: Type, ss: seq<Subst>)
    requires f.Func?
    ensures var r := ApplyAll(f, ss);
      && r.Func? && |r.args| == |f.args| && r.ret == ApplyAll(f.ret, ss)
      && forall i :: 0 <= i < |f.args| ==> r.args[i] == ApplyAll(f.args[i], ss)
    decreases |ss|
  {
    if |ss| > 0 {
      ApplyAllFunc(Apply(f, ss[0]), ss[1..]);
    }
  }

  /** Substituting into a function type and then splitting it is the same as splitting
      first. */
  lemma NormApplyAllFunc(f: Type, ss: seq<Subst>)
    requires f.Func? && |f.args| >= 1
    ensures Norm(ApplyAll(f, ss)) == Func([Norm(ApplyAll(Head(f), ss))], Norm(ApplyAll(Tail(f), ss)))
  {
    var r := ApplyAll(f, ss);
    ApplyAllFunc(f, ss);
    if |f.args| > 1 {
      var t := Func(f.args[1..], f.ret);
      ApplyAllFunc(t, ss);
      assert ApplyAll(t, ss).args == r.args[1..];
      assert Tail(r) == ApplyAll(Tail(f), ss);
    }
  }

  /** Two variables with the same ID stay interchangeable under any substitutions. */
  lemma {:induction false} SameIdNorm(g1: GenericVar, g2: GenericVar, ss: seq<Subst>)
    requires g1.id == g2.id
    ensures Norm(ApplyAll(Generic(g1), ss)) == Norm(ApplyAll(Generic(g2), ss))
    decreases |ss|
  {
    if |ss| > 0 && ss[0].oldVar.id != g1.id {
      SameIdNorm(g1, g2, ss[1..]);
    }
  }

  lemma ApplyAllCons(t: Type, s: Subst, ss: seq<Subst>)
    ensures ApplyAll(t, [s] + ss) == ApplyAll(Apply(t, s), ss)
  {
    assert ([s] + ss)[1..] == ss;
  }

  /** Eliminating `'x := t` first and then applying a unifier of the rest unifies the
      whole list. */
  lemma EliminationSound(x: GenericVar, t: Type, cs: seq<Constraint>, more: seq<Subst>)
    requires |cs| > 0 && x.id !in Ids(t)
    requires (cs[0].lhs == Generic(x) && cs[0].rhs == t) || (cs[0].rhs == Generic(x) && cs[0].lhs == t)
    requires Unifies(more, ApplyC(cs[1..], Subst(x, t)))
    ensures Unifies([Subst(x, t)] + more, cs)
  {
    var s := Subst(x, t);
    forall i | 0 <= i < |cs|
      ensures Norm(ApplyAll(cs[i].lhs, [s] + more)) == Norm(ApplyAll(cs[i].rhs, [s] + more))
    {
      if i == 0 {
        EliminatedPair(x, t, cs[0], more);
      } else {
        assert ApplyC(cs[1..], s)[i - 1] == Constraint(Apply(cs[i].lhs, s), Apply(cs[i].rhs, s));
        UnifiedAfter(s, cs[i], more);
      }
    }
  }

  /** The eliminated constraint itself: both sides become `t` under `'x := t`. */
  lemma EliminatedPair(x: GenericVar, t: Type, c: Constraint, more: seq<Subst>)
    requires x.id !in Ids(t)
    requires (c.lhs == Generic(x) && c.rhs == t) || (c.rhs == Generic(x) && c.lhs == t)
    ensures Norm(ApplyAll(c.lhs, [Subst(x, t)] + more)) == Norm(ApplyAll(c.rhs, [Subst(x, t)] + more))
  {
    var s := Subst(x, t);
    ApplyAllCons(Generic(x), s, more);
    ApplyAllCons(t, s, more);
    ApplyNoOccur(t, s);
  }

  /** A constraint that `more` unifies after substituting `s` is unified by `s` then `more`. */
  lemma UnifiedAfter(s: Subst, c: Constraint, more: seq<Subst>)
    requires Norm(ApplyAll(Apply(c.lhs, s), more)) == Norm(ApplyAll(Apply(c.rhs, s), more))
    ensures Norm(ApplyAll(c.lhs, [s] + more)) == Norm(ApplyAll(c.rhs, [s] + more))
  {
    ApplyAllCons(c.lhs, s, more);
    ApplyAllCons(c.rhs, s, more);
  }

  /** A unifier of the split list unifies the original one. */
  lemma SplitSound(cs: seq<Constraint>, ss: seq<Subst>)
    requires |cs| > 0 && cs[0].lhs.Func? && cs[0].rhs.Func? && |cs[0].lhs.args| >= 1 && |cs[0].rhs.args| >= 1
    requires Unifies(ss, Split(cs))
    ensures Unifies(ss, cs)
  {
    var c, split := cs[0], Split(cs);
    assert split[0] == Constraint(Head(c.lhs), Head(c.rhs));
    assert split[1] == Constraint(Tail(c.lhs), Tail(c.rhs));
    SplitFirst(c, ss, split[0], split[1]);
    UnifiesSuffix(ss, split, 2);
    UnifiesCons(ss, cs);
  }

  /** What unifies a list unifies each of its suffixes. */
  lemma UnifiesSuffix(ss: seq<Subst>, cs: seq<Constraint>, k: nat)
    requires k <= |cs| && Unifies(ss, cs)
    ensures Unifies(ss, cs[k..])
  {
    forall i | 0 <= i < |cs| - k
      ensures Norm(ApplyAll(cs[k..][i].lhs, ss)) == Norm(ApplyAll(cs[k..][i].rhs, ss))
    {
      assert cs[k..][i] == cs[k + i];
    }
  }

  /** A list is unified when its first constraint and the rest are. */
  lemma UnifiesCons(ss: seq<Subst>, cs: seq<Constraint>)
    requires |cs| > 0 && Norm(ApplyAll(cs[0].lhs, ss)) == Norm(ApplyAll(cs[0].rhs, ss))
    requires Unifies(ss, cs[1..])
    ensures Unifies(ss, cs)
  {
    forall i | 1 <= i < |cs|
      ensures Norm(ApplyAll(cs[i].lhs, ss)) == Norm(ApplyAll(cs[i].rhs, ss))
    {
      assert cs[1..][i - 1] == cs[i];
    }
  }

  /** Unifying the heads and the tails of two function types unifies the types. */
  lemma SplitFirst(c: Constraint, ss: seq<Subst>, h: Constraint, t: Constraint)
    requires c.lhs.Func? && c.rhs.Func? && |c.lhs.args| >= 1 && |c.rhs.args| >= 1
    requires h == Constraint(Head(c.lhs), Head(c.rhs)) && t == Constraint(Tail(c.lhs), Tail(c.rhs))
    requires Norm(ApplyAll(h.lhs, ss)) == Norm(ApplyAll(h.rhs, ss))
    requires Norm(ApplyAll(t.lhs, ss)) == Norm(ApplyAll(t.rhs, ss))
    ensures Norm(ApplyAll(c.lhs, ss)) == Norm(ApplyAll(c.rhs, ss))
  {
    NormApplyAllFunc(c.lhs, ss);
    NormApplyAllFunc(c.rhs, ss);
  }

  /** Soundness: when `unify` succeeds, its substitutions unify every constraint. */
  lemma {:induction false} UnifySound(cs: seq<Constraint>)
    requires Unify(cs).Ok?
    ensures Unifies(Unify(cs).value, cs)
    decreases |IdsC(cs)|, SizeC(cs)
  {
    if |cs| > 0 {
      var c, rest := cs[0], cs[1..];
      assert IdsC(cs) == Ids(c.lhs) + Ids(c.rhs) + IdsC(rest);
      var ss := Unify(cs).value;
      if SameSimple(c.lhs, c.rhs) {
        DropShrinks(cs);
        UnifySound(rest);
        if c.lhs.Generic? {
          SameIdNorm(c.lhs.g, c.rhs.g, ss);
        }
        UnifiesCons(ss, cs);
      } else if c.lhs.Generic? && c.lhs.g.id !in Ids(c.rhs) {
        EliminationShrinks(c.lhs.g, c.rhs, rest, cs);
        UnifySound(ApplyC(rest, Subst(c.lhs.g, c.rhs)));
        EliminationSound(c.lhs.g, c.rhs, cs, Unify(ApplyC(rest, Subst(c.lhs.g, c.rhs))).value);
      } else if c.rhs.Generic? && c.rhs.g.id !in Ids(c.lhs) {
        EliminationShrinks(c.rhs.g, c.lhs, rest, cs);
        UnifySound(ApplyC(rest, Subst(c.rhs.g, c.lhs)));
        EliminationSound(c.rhs.g, c.lhs, cs, Unify(ApplyC(rest, Subst(c.rhs.g, c.lhs))).value);
      } else {
        SplitShrinks(cs);
        UnifySound(Split(cs));
        SplitSound(cs, ss);
      }
    }
  }

  lemma ApplyUnary(a: Type, r: Type, s: Subst)
    ensures Apply(Func([a], r), s) == Func([Apply(a, s)], Apply(r, s))
  {
    assert Apply(Func([a], r), s).args == [Apply(a, s)];
  }

  /** The solver test for `(def foo [x] ((+ x) 2))`: from `Int, Int -> Int = t1 -> t2` and
      `t2 = Int -> t3`, unification yields `t1 := Int`, `t2 := Int -> Int`, `t3 := Int`. */
  lemma UnifyCallExample(cs: seq<Constraint>, g1: GenericVar, g2: GenericVar, g3: GenericVar)
    requires g1.id == 1 && g2.id == 2 && g3.id == 3
    requires cs == [Constraint(Func([Int, Int], Int), Func([Generic(g1)], Generic(g2))),
                    Constraint(Generic(g2), Func([Int], Generic(g3)))]
    ensures Unify(cs) == Ok([Subst(g1, Int), Subst(g2, Func([Int], Int)), Subst(g3, Int)])
    ensures Unifies(Unify(cs).value, cs)
  {
    var c2 := Constraint(Generic(g2), Func([Int], Generic(g3)));
    var s1 := [Constraint(Int, Generic(g1)), Constraint(Func([Int], Int), Generic(g2)), c2];
    assert Split(cs) == s1;
    assert Unify(cs) == Unify(s1);
    var sub1 := Subst(g1, Int);
    ApplyUnary(Int, Int, sub1);
    ApplyUnary(Int, Generic(g3), sub1);
    var s2 := ApplyC(s1[1..], sub1);
    assert s2 == [Constraint(Func([Int], Int), Generic(g2)), c2];
    var sub2 := Subst(g2, Func([Int], Int));
    ApplyUnary(Int, Generic(g3), sub2);
    var s3 := ApplyC(s2[1..], sub2);
    assert s3 == [Constraint(Func([Int], Int), Func([Int], Generic(g3)))];
    var s4 := Split(s3);
    assert s4 == [Constraint(Int, Int), Constraint(Int, Generic(g3))];
    assert Unify(s3) == Unify(s4);
    assert s4[1..][1..] == [];
    assert ApplyC(s4[1..][1..], Subst(g3, Int)) == [];
    assert s4[1..] == [Constraint(Int, Generic(g3))];
    assert Ids(Int) == {};
    assert Unify(ApplyC(s4[1..][1..], Subst(g3, Int))) == Ok([]);
    assert [Subst(g3, Int)] + [] == [Subst(g3, Int)];
    assert Unify(s4[1..]) == Ok([Subst(g3, Int)]);
    assert Unify(s4) == Ok([Subst(g3, Int)]);
    assert Unify(s3) == Ok([Subst(g3, Int)]);
    assert Ids(Func([Int], Int)) == {};
    assert [sub2] + [Subst(g3, Int)] == [sub2, Subst(g3, Int)];
    assert Unify(s2) == Ok([sub2, Subst(g3, Int)]);
    assert [sub1] + [sub2, Subst(g3, Int)] == [sub1, sub2, Subst(g3, Int)];
    assert Unify(s1) == Ok([sub1, sub2, Subst(g3, Int)]);
    UnifySound(cs);
  }
}
