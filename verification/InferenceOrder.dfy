/**
  When every order of the observed types lets inference succeed: exactly if they coerce pairwise.
*/
module InferenceOrder {
  import opened Prelude
  import opened PyroSpec
  import opened CoerceLaws
  import opened Inference

  // ---------------------------------------------------------------------------
  // Three types that coerce pairwise coerce together
  // ---------------------------------------------------------------------------

  lemma PrimitivesTogether(p: Primitive, q: Primitive, r: Primitive)
    requires CoercePrimitiveTypes(p, q).Some? && CoercePrimitiveTypes(p, r).Some? && CoercePrimitiveTypes(q, r).Some?
    ensures CoercePrimitiveTypes(CoercePrimitiveTypes(p, q).value, r).Some?
  {
    CoercePrimitiveIsMaxOfComparable(p, q);
  }

  lemma {:induction false} PairwiseTogether(a: PyroType, b: PyroType, c: PyroType)
    requires WellFormed(a) && WellFormed(b) && WellFormed(c)
    requires Coerced(a, b).Some? && Coerced(a, c).Some? && Coerced(b, c).Some?
    ensures Coerced(Coerced(a, b).value, c).Some?
    decreases Depth(a), 1
  {
    hide Join, CoercePrimitiveTypes;
    JoinCases(Source, a, b);
    JoinCases(Source, a, c);
    JoinCases(Source, b, c);
    JoinCases(Source, Coerced(a, b).value, c);
    if a.Group? && b.Group? && c.Group? {
      GroupsTogether(a.fields, b.fields, c.fields);
    } else if a.List? && b.List? && c.List? {
      PairwiseTogether(a.elem, b.elem, c.elem);
    } else if a.MapOf? && b.MapOf? && c.MapOf? {
      PairwiseTogether(a.key, b.key, c.key);
      PairwiseTogether(a.val, b.val, c.val);
    } else if a.Scalar? && b.Scalar? && c.Scalar? {
      PrimitivesTogether(a.prim, b.prim, c.prim);
    } else if KindOf(a) == KindOf(b) == KindOf(c) == FlatList {
      PrimitivesTogether(ElementOf(a), ElementOf(b), ElementOf(c));
    }
  }

  lemma {:induction false} GroupsTogether(fa: seq<PyroField>, fb: seq<PyroField>, fc: seq<PyroField>)
    requires WellFormed(Group(fa)) && WellFormed(Group(fb)) && WellFormed(Group(fc))
    requires Coerced(Group(fa), Group(fb)).Some? && Coerced(Group(fa), Group(fc)).Some?
    requires Coerced(Group(fb), Group(fc)).Some?
    ensures Coerced(Coerced(Group(fa), Group(fb)).value, Group(fc)).Some?
    decreases Depth(Group(fa)), 0
  {
    hide Join, Canonical;
    var ma, mb, mc := TypesOf(fa), TypesOf(fb), TypesOf(fc);
    JoinGroupsAsMaps(Source, fa, fb);
    JoinGroupsAsMaps(Source, fa, fc);
    JoinGroupsAsMaps(Source, fb, fc);
    KeepsWellFormed(Source, Group(fa), Group(fb));
    var ab := Coerced(Group(fa), Group(fb)).value;
    JoinGroupsAsMaps(Source, ab.fields, fc);
    forall k | k in ma && k in mb && k in mc
      ensures Join(Source, JoinAt(Source, ma, mb, k), mc[k]).Some?
    {
      GroupMember(fa, k);
      GroupMember(fb, k);
      GroupMember(fc, k);
      PairwiseTogether(ma[k], mb[k], mc[k]);
    }
  }

  // ---------------------------------------------------------------------------
  // The fold
  // ---------------------------------------------------------------------------

  ghost predicate Pairwise(ts: seq<PyroType>) {
    forall i, j :: 0 <= i < j < |ts| ==> Coerced(ts[i], ts[j]).Some?
  }

  lemma {:induction false} PairwiseSucceeds(acc: PyroType, ts: seq<PyroType>)
    requires WellFormed(acc) && AllWellFormed(ts) && Pairwise([acc] + ts)
    ensures InferFrom(Source, Some(acc), ts).Some?
    decreases |ts|
  {
    hide Join;
    if ts != [] {
      var all := [acc] + ts;
      assert all[0] == acc && all[1] == ts[0];
      var next := Coerced(acc, ts[0]).value;
      KeepsWellFormed(Source, acc, ts[0]);
      var rest := [next] + ts[1..];
      forall i, j | 0 <= i < j < |rest| ensures Coerced(rest[i], rest[j]).Some? {
        assert rest[j] == all[j + 1];
        if i == 0 {
          PairwiseTogether(acc, ts[0], ts[j]);
        } else {
          assert rest[i] == all[i + 1];
        }
      }
      PairwiseSucceeds(next, ts[1..]);
    }
  }

  /** Pairs survive reordering, since coercion is commutative. */
  lemma PairwiseOfMultiset(ts: seq<PyroType>, us: seq<PyroType>)
    requires AllWellFormed(ts) && multiset(ts) == multiset(us) && Pairwise(ts)
    ensures Pairwise(us)
  {
    hide Join;
    forall i, j | 0 <= i < j < |us| ensures Coerced(us[i], us[j]).Some? {
      PairOf(ts, us, i, j);
    }
  }

  lemma PairOf(ts: seq<PyroType>, us: seq<PyroType>, i: nat, j: nat)
    requires AllWellFormed(ts) && multiset(ts) == multiset(us) && Pairwise(ts) && i < j < |us|
    ensures Coerced(us[i], us[j]).Some?
  {
    hide Join;
    assert us[i] in multiset(ts) && us[j] in multiset(ts);
    var a :| 0 <= a < |ts| && ts[a] == us[i];
    var b :| 0 <= b < |ts| && ts[b] == us[j];
    if a < b {
    } else if b < a {
      Commutative(Source, us[i], us[j]);
    } else {
      JoinShortcuts(Source, us[i], us[j]);
    }
  }

  lemma BadPairFirst(ts: seq<PyroType>, i: nat, j: nat) returns (us: seq<PyroType>)
    requires i < j < |ts| && Coerced(ts[i], ts[j]).None?
    ensures us != [] && multiset(us) == multiset(ts) && Infer(us).None?
  {
    hide Join;
    us := TwoToFront(ts, i, j);
    var rest := us[2..];
    assert us[1..][0] == ts[j] && us[1..][1..] == rest;
    FailureStays(Source, rest);
  }

  /**
    Every order of the observed types infers a type exactly if every two of them coerce. Then, by
    InferenceIsOrderIndependent, all of them infer the same one.
  */
  lemma EveryOrderSucceedsIff(ts: seq<PyroType>)
    requires ts != [] && AllWellFormed(ts)
    ensures (forall us :: us != [] && multiset(us) == multiset(ts) ==> Infer(us).Some?) <==>
            forall i, j :: 0 <= i < j < |ts| ==> Coerced(ts[i], ts[j]).Some?
  {
    hide Join;
    if Pairwise(ts) {
      forall us: seq<PyroType> | us != [] && multiset(us) == multiset(ts) ensures Infer(us).Some? {
        PairwiseOfMultiset(ts, us);
        InferenceIsOrderIndependent(ts, us);
        assert [us[0]] + us[1..] == us;
        PairwiseSucceeds(us[0], us[1..]);
      }
    } else {
      var i, j :| 0 <= i < j < |ts| && Coerced(ts[i], ts[j]).None?;
      var us := BadPairFirst(ts, i, j);
    }
  }

  // ---------------------------------------------------------------------------
  // Blocks of types
  // ---------------------------------------------------------------------------

  lemma PrimitivesRegroup(p: Primitive, q: Primitive, r: Primitive)
    requires CoercePrimitiveTypes(p, q).Some? && CoercePrimitiveTypes(q, r).Some?
    requires CoercePrimitiveTypes(CoercePrimitiveTypes(p, q).value, r).Some?
    ensures CoercePrimitiveTypes(p, CoercePrimitiveTypes(q, r).value).Some?
  {
    CoercePrimitiveIsMaxOfComparable(p, q);
    CoercePrimitiveIsMaxOfComparable(q, r);
  }

  /** If c coerces with b and with what b makes of a, then a coerces with what c makes of b. */
  lemma {:induction false} Regroups(a: PyroType, b: PyroType, c: PyroType)
    requires WellFormed(a) && WellFormed(b) && WellFormed(c)
    requires Coerced(a, b).Some? && Coerced(b, c).Some? && Coerced(Coerced(a, b).value, c).Some?
    ensures Coerced(a, Coerced(b, c).value).Some?
    decreases Depth(a), 1
  {
    hide Join, CoercePrimitiveTypes;
    JoinCases(Source, a, b);
    JoinCases(Source, b, c);
    JoinCases(Source, Coerced(a, b).value, c);
    JoinCases(Source, a, Coerced(b, c).value);
    if a.Group? && b.Group? && c.Group? {
      GroupsRegroup(a.fields, b.fields, c.fields);
    } else if a.List? && b.List? && c.List? {
      Regroups(a.elem, b.elem, c.elem);
    } else if a.MapOf? && b.MapOf? && c.MapOf? {
      Regroups(a.key, b.key, c.key);
      Regroups(a.val, b.val, c.val);
    } else if a.Scalar? && b.Scalar? && c.Scalar? {
      PrimitivesRegroup(a.prim, b.prim, c.prim);
    } else if KindOf(a) == KindOf(b) == KindOf(c) == FlatList {
      PrimitivesRegroup(ElementOf(a), ElementOf(b), ElementOf(c));
    }
  }

  lemma {:induction false} GroupsRegroup(fa: seq<PyroField>, fb: seq<PyroField>, fc: seq<PyroField>)
    requires WellFormed(Group(fa)) && WellFormed(Group(fb)) && WellFormed(Group(fc))
    requires Coerced(Group(fa), Group(fb)).Some? && Coerced(Group(fb), Group(fc)).Some?
    requires Coerced(Coerced(Group(fa), Group(fb)).value, Group(fc)).Some?
    ensures Coerced(Group(fa), Coerced(Group(fb), Group(fc)).value).Some?
    decreases Depth(Group(fa)), 0
  {
    hide Join, Canonical;
    var ma, mb, mc := TypesOf(fa), TypesOf(fb), TypesOf(fc);
    JoinGroupsAsMaps(Source, fa, fb);
    JoinGroupsAsMaps(Source, fb, fc);
    KeepsWellFormed(Source, Group(fa), Group(fb));
    KeepsWellFormed(Source, Group(fb), Group(fc));
    var ab, bc := Coerced(Group(fa), Group(fb)).value, Coerced(Group(fb), Group(fc)).value;
    JoinGroupsAsMaps(Source, ab.fields, fc);
    JoinGroupsAsMaps(Source, fa, bc.fields);
    var mab := JoinMaps(Source, ma, mb);
    forall k | k in ma && k in TypesOf(bc.fields)
      ensures Join(Source, ma[k], JoinAt(Source, mb, mc, k)).Some?
    {
      GroupMember(fa, k);
      if k in mb { GroupMember(fb, k); }
      if k in mc { GroupMember(fc, k); }
      if k in mb && k in mc {
        assert Join(Source, mab[k], mc[k]).Some?;
        Regroups(ma[k], mb[k], mc[k]);
      } else if k in mc {
        assert k in mab && mab[k] == ma[k];
      }
    }
  }

  /** The inference over a block of types; Null for an empty one. */
  function BlockType(ts: seq<PyroType>): Option<PyroType> {
    InferFrom(Source, Some(Null), ts)
  }

  lemma {:induction false} FoldKeepsWellFormed(acc: PyroType, ts: seq<PyroType>)
    requires WellFormed(acc) && AllWellFormed(ts) && InferFrom(Source, Some(acc), ts).Some?
    ensures WellFormed(InferFrom(Source, Some(acc), ts).value)
    decreases |ts|
  {
    FoldRefines(acc, ts);
  }

  /** Observing a block is coercing with the block's type, if the block has one. */
  lemma {:induction false} FoldIsCoercion(acc: PyroType, ts: seq<PyroType>)
    requires WellFormed(acc) && AllWellFormed(ts)
    requires InferFrom(Source, Some(acc), ts).Some? && BlockType(ts).Some?
    ensures Coerced(acc, BlockType(ts).value) == InferFrom(Source, Some(acc), ts)
    decreases |ts|
  {
    hide Join, InferFrom, AllWellFormed;
    if ts == [] {
      FoldNothing(acc);
      FoldNothing(Null);
      JoinShortcuts(Source, acc, Null);
    } else {
      var n := |ts| - 1;
      var front, t := ts[..n], ts[n];
      FrontWellFormed(ts);
      FoldSnoc(Some(acc), ts);
      FoldSnoc(Some(Null), ts);
      FoldIsCoercion(acc, front);
      var b := BlockType(front).value;
      FoldKeepsWellFormed(Null, front);
      Regroups(acc, b, t);
      CoercionAssociates(acc, b, t);
    }
  }

  lemma FoldNothing(acc: PyroType)
    ensures InferFrom(Source, Some(acc), []) == Some(acc)
  {
  }

  lemma FrontWellFormed(ts: seq<PyroType>)
    requires AllWellFormed(ts) && ts != []
    ensures AllWellFormed(ts[..|ts| - 1]) && WellFormed(ts[|ts| - 1])
  {
  }

  lemma FoldSnoc(acc: Option<PyroType>, ts: seq<PyroType>)
    requires ts != []
    ensures var front := InferFrom(Source, acc, ts[..|ts| - 1]);
            InferFrom(Source, acc, ts) == JoinOf(Source, front, Some(ts[|ts| - 1]))
  {
    hide JoinOf;
    var n := |ts| - 1;
    assert ts == ts[..n] + [ts[n]];
    FoldAppend(Source, acc, ts[..n], [ts[n]]);
    assert [ts[n]][1..] == [];
  }

  /** Of three types that coerce two by two, the last two may be exchanged. */
  lemma {:induction false} CoerceLastTwo(a: PyroType, b: PyroType, t: PyroType)
    requires WellFormed(a) && WellFormed(b) && WellFormed(t)
    requires Coerced(a, b).Some? && Coerced(a, t).Some? && Coerced(b, t).Some?
    ensures Coerced(Coerced(a, b).value, t).Some?
    ensures Coerced(Coerced(a, t).value, b) == Coerced(Coerced(a, b).value, t)
  {
    hide Join, WellFormed;
    Commutative(Source, b, t);
    PairwiseTogether(a, b, t);
    PairwiseTogether(a, t, b);
    Regroups(a, b, t);
    CoercionAssociates(a, b, t);
    CoercionAssociates(a, t, b);
  }

  /** If t coerces with both of two coercible types, coercing before or after makes no difference. */
  lemma {:induction false} CoerceBoth(a: PyroType, b: PyroType, t: PyroType)
    requires WellFormed(a) && WellFormed(b) && WellFormed(t)
    requires Coerced(a, b).Some? && Coerced(a, t).Some? && Coerced(b, t).Some?
    ensures Coerced(Coerced(a, b).value, t).Some?
    ensures Coerced(Coerced(a, t).value, Coerced(b, t).value) == Coerced(Coerced(a, b).value, t)
  {
    hide Join, WellFormed;
    var ab, at := Coerced(a, b).value, Coerced(a, t).value;
    CoerceLastTwo(a, b, t);
    KeepsWellFormed(Source, a, b);
    KeepsWellFormed(Source, a, t);
    CoercionLaws(ab, t);
    CoercionLaws(a, t);
    Regroups(at, b, t);
    CoercionAssociates(at, b, t);
  }

  lemma {:induction false} BothAcceptBlock(a: PyroType, b: PyroType, ts: seq<PyroType>)
    requires WellFormed(a) && WellFormed(b) && AllWellFormed(ts) && Coerced(a, b).Some?
    requires InferFrom(Source, Some(a), ts).Some? && InferFrom(Source, Some(b), ts).Some?
    ensures InferFrom(Source, Coerced(a, b), ts).Some?
    decreases |ts|
  {
    hide Join;
    if ts != [] {
      var t := ts[0];
      if Coerced(a, t).None? || Coerced(b, t).None? {
        FailureStays(Source, ts[1..]);
      }
      CoerceBoth(a, b, t);
      KeepsWellFormed(Source, a, t);
      KeepsWellFormed(Source, b, t);
      BothAcceptBlock(Coerced(a, t).value, Coerced(b, t).value, ts[1..]);
    }
  }

  /** Three blocks that go together two by two, in this order, go together. */
  lemma ThreeBlocks(xs: seq<PyroType>, ys: seq<PyroType>, zs: seq<PyroType>)
    requires AllWellFormed(xs) && AllWellFormed(ys) && AllWellFormed(zs)
    requires BlockType(ys).Some? && BlockType(xs + ys).Some? && BlockType(xs + zs).Some? && BlockType(ys + zs).Some?
    ensures BlockType(xs + ys + zs).Some?
  {
    hide Join, InferFrom, AllWellFormed;
    FoldAppend(Source, Some(Null), xs, ys);
    FoldAppend(Source, Some(Null), xs, zs);
    FoldAppend(Source, Some(Null), ys, zs);
    FoldAppend(Source, Some(Null), xs + ys, zs);
    if BlockType(xs).None? {
      FailureStays(Source, ys);
    }
    var x, y := BlockType(xs).value, BlockType(ys).value;
    FoldKeepsWellFormed(Null, xs);
    FoldKeepsWellFormed(Null, ys);
    FoldIsCoercion(x, ys);
    BothAcceptBlock(x, y, zs);
  }
}
