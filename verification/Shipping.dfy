/**
  The type system end to end: types derived from structs, coerced with each other in any order and
  any number, still reach Arrow and back unchanged up to documentation.
*/
module Shipping {
  import opened Prelude
  import opened PyroSpec
  import opened CoerceLaws
  import opened Inference
  import opened Arrow
  import opened StructDoc

  lemma {:induction false} CleanFieldsIff(fs: seq<PyroField>)
    ensures ArrowCleanFields(fs) <==> forall i :: 0 <= i < |fs| ==> ArrowClean(fs[i].dataType)
    ensures FieldSizesFit(fs) <==> forall i :: 0 <= i < |fs| ==> SizesFit(fs[i].dataType)
  {
    if fs != [] {
      CleanFieldsIff(fs[1..]);
      assert forall i :: 0 < i < |fs| ==> fs[1..][i - 1] == fs[i];
    }
  }

  lemma {:induction false} ShippableParts(fs: seq<PyroField>, k: string)
    requires Shippable(Group(fs)) && k in TypesOf(fs)
    ensures Shippable(TypesOf(fs)[k])
  {
    TypesOfNames(fs, k);
    var i :| 0 <= i < |fs| && fs[i].name == k;
    TypesOfAt(fs, i);
    CleanFieldsIff(fs);
  }

  lemma CanonicalShippable(m: TypeMap)
    requires forall k :: k in m ==> Shippable(m[k])
    ensures Shippable(Group(Canonical(m)))
  {
    CanonicalWellFormed(m);
    var ks := SortedKeys(m.Keys);
    forall i | 0 <= i < |Canonical(m)|
      ensures Shippable(Canonical(m)[i].dataType)
    {
      assert ks[i] in m;
    }
    CleanFieldsIff(Canonical(m));
  }

  lemma {:induction false} CoercionKeepsShippable(a: PyroType, b: PyroType)
    requires Shippable(a) && Shippable(b) && Coerced(a, b).Some?
    ensures Shippable(Coerced(a, b).value)
    decreases Depth(a), 1
  {
    hide Join, JoinPrimitives;
    JoinCases(Source, a, b);
    if a.Group? && b.Group? {
      GroupCoercionKeepsShippable(a.fields, b.fields);
    } else if a.List? && b.List? {
      CoercionKeepsShippable(a.elem, b.elem);
      JoinCases(Source, a.elem, b.elem);
      if a.elem != Null && b.elem != Null {
        JoinKeepsKind(Source, a.elem, b.elem);
      }
    } else if a.MapOf? && b.MapOf? {
      CoercionKeepsShippable(a.key, b.key);
      CoercionKeepsShippable(a.val, b.val);
    }
  }

  lemma {:induction false} GroupCoercionKeepsShippable(fa: seq<PyroField>, fb: seq<PyroField>)
    requires Shippable(Group(fa)) && Shippable(Group(fb)) && Coerced(Group(fa), Group(fb)).Some?
    ensures Shippable(Coerced(Group(fa), Group(fb)).value)
    decreases Depth(Group(fa)), 0
  {
    hide Join, Shippable;
    ShippableIsWellFormed(Group(fa));
    ShippableIsWellFormed(Group(fb));
    JoinGroupsAsMaps(Source, fa, fb);
    var ma, mb := TypesOf(fa), TypesOf(fb);
    if fa != fb {
      var m := JoinMaps(Source, ma, mb);
      forall k | k in m
        ensures Shippable(m[k])
      {
        if k in ma { ShippableParts(fa, k); GroupMember(fa, k); }
        if k in mb { ShippableParts(fb, k); GroupMember(fb, k); }
        if k in ma && k in mb { CoercionKeepsShippable(ma[k], mb[k]); }
      }
      CanonicalShippable(m);
    }
  }

  lemma ShippableIsWellFormed(t: PyroType)
    requires Shippable(t)
    ensures WellFormed(t)
  {
  }

  lemma {:induction false} FoldKeepsShippable(acc: PyroType, ts: seq<PyroType>)
    requires Shippable(acc) && forall i :: 0 <= i < |ts| ==> Shippable(ts[i])
    requires InferFrom(Source, Some(acc), ts).Some?
    ensures Shippable(InferFrom(Source, Some(acc), ts).value)
    decreases |ts|
  {
    hide Join, Shippable;
    if ts != [] {
      if Coerced(acc, ts[0]).None? {
        FailureStays(Source, ts[1..]);
      }
      CoercionKeepsShippable(acc, ts[0]);
      FoldKeepsShippable(Coerced(acc, ts[0]).value, ts[1..]);
    }
  }

  /**
    Whatever is inferred from types of registered structs passes through Arrow unchanged, up to
    documentation.
  */
  lemma InferredFromStructsPassesThroughArrow(reg: Registry, tys: seq<SynType>)
    requires Sane(reg) && tys != []
    ensures var ts := seq(|tys|, i requires 0 <= i < |tys| => Resolve(reg, tys[i], []));
            Infer(ts).Some? ==> FromArrow(ToArrow(Infer(ts).value)) == Some(WithoutDocs(Infer(ts).value))
  {
    hide Join, Shippable, Resolve;
    var ts := seq(|tys|, i requires 0 <= i < |tys| => Resolve(reg, tys[i], []));
    forall i | 0 <= i < |ts|
      ensures Shippable(ts[i])
    {
      ResolvedIsShippable(reg, tys[i], []);
    }
    if Infer(ts).Some? {
      FoldKeepsShippable(ts[0], ts[1..]);
      PassesThrough(Infer(ts).value);
    }
  }

  lemma PassesThrough(t: PyroType)
    requires Shippable(t)
    ensures FromArrow(ToArrow(t)) == Some(WithoutDocs(t))
  {
    PassesThroughIff(t);
  }
}
