/**
  What coerce_pyro_types is for: "type coercion to find common supertypes". The widening order is
  defined here without reference to coercion, and coercion is compared with it.

  A strict widening may also not make a nullable group field non-nullable, nor demand a field the
  narrower group lacks. A loose one ignores the nullability of group fields, at every depth.
*/
module Widening {
  import opened Prelude
  import opened PyroSpec
  import opened CoerceLaws
  import opened Inference

  ghost predicate Widens(strict: bool, a: PyroType, b: PyroType)
    decreases a
  {
    match (a, b)
    case (Null, _) => true
    case (Scalar(p), Scalar(q)) => PrimitiveWidens(p, q)
    case (Str, Str) => true
    case (Timestamp, Timestamp) => true
    case (PrimitiveList(p), PrimitiveList(q)) => PrimitiveWidens(p, q)
    case (PrimitiveFixedList(p, m), PrimitiveFixedList(q, n)) => PrimitiveWidens(p, q) && m == n
    case (PrimitiveFixedList(p, _), PrimitiveList(q)) => PrimitiveWidens(p, q)
    case (List(x, m), List(y, n)) => (m ==> n) && Widens(strict, x, y)
    case (Group(fa), Group(fb)) =>
      && (forall f :: f in fa ==>
            exists g :: g in fb && g.name == f.name && Widens(strict, f.dataType, g.dataType) &&
                        (strict && f.nullable ==> g.nullable))
      && (strict ==> forall g :: g in fb ==> g.nullable || exists f :: f in fa && f.name == g.name)
    case (MapOf(k, v), MapOf(l, w)) => Widens(strict, k, l) && Widens(strict, v, w)
    case _ => false
  }

  lemma {:induction false} WidensReflexively(strict: bool, a: PyroType)
    ensures Widens(strict, a, a)
    decreases a
  {
    match a {
      case List(x, _) => WidensReflexively(strict, x);
      case MapOf(k, v) =>
        WidensReflexively(strict, k);
        WidensReflexively(strict, v);
      case Group(fs) =>
        forall f | f in fs
          ensures f in fs && Widens(strict, f.dataType, f.dataType)
        {
          WidensReflexively(strict, f.dataType);
        }
      case _ =>
    }
  }

  lemma {:induction false} WideningComposes(strict: bool, a: PyroType, b: PyroType, c: PyroType)
    requires WellFormed(c)
    requires Widens(strict, a, b) && Widens(strict, b, c)
    ensures Widens(strict, a, c)
    decreases a
  {
    if a.Group? {
      GroupWideningComposes(strict, a.fields, b.fields, c.fields);
    } else if a.List? {
      WideningComposes(strict, a.elem, b.elem, c.elem);
    } else if a.MapOf? {
      WideningComposes(strict, a.key, b.key, c.key);
      WideningComposes(strict, a.val, b.val, c.val);
    } else if a.Scalar? {
      WidensTransitively(a.prim, b.prim, c.prim);
    } else if KindOf(a) == FlatList {
      WidensTransitively(ElementOf(a), ElementOf(b), ElementOf(c));
    }
  }

  lemma NamedOnce(fs: seq<PyroField>, g: PyroField, h: PyroField)
    requires UniqueNames(fs) && g in fs && h in fs && g.name == h.name
    ensures g == h
  {
  }

  lemma {:induction false} GroupWideningComposes(strict: bool, fa: seq<PyroField>, fb: seq<PyroField>,
                                                 fc: seq<PyroField>)
    requires WellFormed(Group(fc))
    requires Widens(strict, Group(fa), Group(fb)) && Widens(strict, Group(fb), Group(fc))
    ensures Widens(strict, Group(fa), Group(fc))
    decreases Group(fa), 0
  {
    forall f | f in fa
      ensures exists h :: h in fc && h.name == f.name && Widens(strict, f.dataType, h.dataType) &&
                          (strict && f.nullable ==> h.nullable)
    {
      var g :| g in fb && g.name == f.name && Widens(strict, f.dataType, g.dataType)
               && (strict && f.nullable ==> g.nullable);
      var h :| h in fc && h.name == g.name && Widens(strict, g.dataType, h.dataType)
               && (strict && g.nullable ==> h.nullable);
      WideningComposes(strict, f.dataType, g.dataType, h.dataType);
    }
    if strict {
      forall h | h in fc && !h.nullable
        ensures exists f :: f in fa && f.name == h.name
      {
        var g :| g in fb && g.name == h.name;
        var h' :| h' in fc && h'.name == g.name && (g.nullable ==> h'.nullable);
        NamedOnce(fc, h, h');
        var f :| f in fa && f.name == g.name;
      }
    }
  }

  // ---------------------------------------------------------------------------
  // Groups, by name
  // ---------------------------------------------------------------------------

  lemma FieldNamed(fs: seq<PyroField>, k: string) returns (f: PyroField)
    requires UniqueNames(fs) && k in TypesOf(fs)
    ensures f in fs && f.name == k && f.dataType == TypesOf(fs)[k]
  {
    TypesOfNames(fs, k);
    var i :| 0 <= i < |fs| && fs[i].name == k;
    TypesOfAt(fs, i);
    f := fs[i];
  }

  lemma TypesOfMember(fs: seq<PyroField>, f: PyroField)
    requires UniqueNames(fs) && f in fs
    ensures f.name in TypesOf(fs) && TypesOf(fs)[f.name] == f.dataType
  {
    var i :| 0 <= i < |fs| && fs[i] == f;
    TypesOfAt(fs, i);
  }

  ghost predicate MapsWiden(strict: bool, ma: TypeMap, mb: TypeMap) {
    forall k :: k in ma ==> k in mb && Widens(strict, ma[k], mb[k])
  }

  lemma GroupsWidenByName(fa: seq<PyroField>, fb: seq<PyroField>)
    requires UniqueNames(fa) && UniqueNames(fb)
    ensures Widens(false, Group(fa), Group(fb)) <==> MapsWiden(false, TypesOf(fa), TypesOf(fb))
  {
    var ma, mb := TypesOf(fa), TypesOf(fb);
    if Widens(false, Group(fa), Group(fb)) {
      forall k | k in ma
        ensures k in mb && Widens(false, ma[k], mb[k])
      {
        var f := FieldNamed(fa, k);
        var g :| g in fb && g.name == f.name && Widens(false, f.dataType, g.dataType);
        TypesOfMember(fb, g);
      }
    }
    if MapsWiden(false, ma, mb) {
      forall f | f in fa
        ensures exists g :: g in fb && g.name == f.name && Widens(false, f.dataType, g.dataType)
      {
        TypesOfMember(fa, f);
        var g := FieldNamed(fb, f.name);
      }
    }
  }

  /** A canonical group is wide as far as nullability goes. */
  lemma WidensToCanonical(strict: bool, fa: seq<PyroField>, m: TypeMap)
    requires UniqueNames(fa) && MapsWiden(strict, TypesOf(fa), m)
    ensures Widens(strict, Group(fa), Group(Canonical(m)))
  {
    CanonicalIsSortedView(m);
    var fc := Canonical(m);
    forall f | f in fa
      ensures exists g :: g in fc && g.name == f.name && Widens(strict, f.dataType, g.dataType) && g.nullable
    {
      TypesOfMember(fa, f);
      var g := FieldNamed(fc, f.name);
    }
    assert forall g :: g in fc ==> g.nullable;
  }

  // ---------------------------------------------------------------------------
  // Upper bound
  // ---------------------------------------------------------------------------

  lemma PrimitivesUpper(rule: Rule, p: Primitive, q: Primitive)
    requires JoinPrimitives(rule, p, q).Some?
    ensures PrimitiveWidens(p, JoinPrimitives(rule, p, q).value)
  {
    CoercePrimitiveIsMaxOfComparable(p, q);
    LubIsLeast(p, q);
  }

  /** A join widens its left operand, nullability of group fields included. */
  lemma {:induction false} JoinWidensLeft(rule: Rule, a: PyroType, b: PyroType)
    requires WellFormed(a) && WellFormed(b) && Join(rule, a, b).Some?
    ensures Widens(true, a, Join(rule, a, b).value)
    decreases Depth(a), 1
  {
    hide Join, JoinPrimitives;
    JoinCases(rule, a, b);
    if a == b || b == Null {
      WidensReflexively(true, a);
    } else if a == Null {
    } else if a.Group? && b.Group? {
      GroupJoinWidensLeft(rule, a.fields, b.fields);
    } else if a.List? && b.List? {
      JoinWidensLeft(rule, a.elem, b.elem);
    } else if a.MapOf? && b.MapOf? {
      JoinWidensLeft(rule, a.key, b.key);
      JoinWidensLeft(rule, a.val, b.val);
    } else if a.Scalar? && b.Scalar? {
      PrimitivesUpper(rule, a.prim, b.prim);
    } else if KindOf(a) == KindOf(b) == FlatList {
      PrimitivesUpper(rule, ElementOf(a), ElementOf(b));
    }
  }

  lemma {:induction false} GroupJoinWidensLeft(rule: Rule, fa: seq<PyroField>, fb: seq<PyroField>)
    requires WellFormed(Group(fa)) && WellFormed(Group(fb)) && fa != fb
    requires Join(rule, Group(fa), Group(fb)).Some?
    ensures Widens(true, Group(fa), Join(rule, Group(fa), Group(fb)).value)
    decreases Depth(Group(fa)), 0
  {
    hide Join, Widens;
    JoinGroupsAsMaps(rule, fa, fb);
    var ma, mb := TypesOf(fa), TypesOf(fb);
    var m := JoinMaps(rule, ma, mb);
    forall k | k in ma
      ensures k in m && Widens(true, ma[k], m[k])
    {
      GroupMember(fa, k);
      if k in mb {
        GroupMember(fb, k);
        JoinWidensLeft(rule, ma[k], mb[k]);
      } else {
        WidensReflexively(true, ma[k]);
      }
    }
    WidensToCanonical(true, fa, m);
  }

  // ---------------------------------------------------------------------------
  // Least upper bound
  // ---------------------------------------------------------------------------

  /** If a and b have any common supertype, the completed join exists and is below it. */
  lemma {:induction false} CompletedJoinIsLeast(a: PyroType, b: PyroType, u: PyroType)
    requires WellFormed(a) && WellFormed(b) && WellFormed(u)
    requires Widens(false, a, u) && Widens(false, b, u)
    ensures Join(Completed, a, b).Some? && Widens(false, Join(Completed, a, b).value, u)
    decreases Depth(a), 1
  {
    hide Join;
    JoinCases(Completed, a, b);
    if a == Null || b == Null {
    } else if a.Group? {
      GroupJoinIsLeast(a.fields, b.fields, u.fields);
    } else if a.List? {
      CompletedJoinIsLeast(a.elem, b.elem, u.elem);
    } else if a.MapOf? {
      CompletedJoinIsLeast(a.key, b.key, u.key);
      CompletedJoinIsLeast(a.val, b.val, u.val);
    } else if a.Scalar? {
      LubIsLeast(a.prim, b.prim);
    } else if KindOf(a) == FlatList {
      LubIsLeast(ElementOf(a), ElementOf(b));
    }
  }

  lemma {:induction false} GroupJoinIsLeast(fa: seq<PyroField>, fb: seq<PyroField>, fu: seq<PyroField>)
    requires WellFormed(Group(fa)) && WellFormed(Group(fb)) && WellFormed(Group(fu))
    requires Widens(false, Group(fa), Group(fu)) && Widens(false, Group(fb), Group(fu))
    ensures Join(Completed, Group(fa), Group(fb)).Some?
    ensures Widens(false, Join(Completed, Group(fa), Group(fb)).value, Group(fu))
    decreases Depth(Group(fa)), 0
  {
    hide Join, Widens;
    GroupsWidenByName(fa, fu);
    GroupsWidenByName(fb, fu);
    JoinGroupsAsMaps(Completed, fa, fb);
    var ma, mb, mu := TypesOf(fa), TypesOf(fb), TypesOf(fu);
    var m := JoinMaps(Completed, ma, mb);
    forall k | k in m
      ensures k in ma && k in mb ==> Join(Completed, ma[k], mb[k]).Some?
      ensures k in mu && Widens(false, m[k], mu[k])
    {
      if k in ma && k in mb {
        GroupMember(fa, k);
        GroupMember(fb, k);
        GroupMember(fu, k);
        CompletedJoinIsLeast(ma[k], mb[k], mu[k]);
      }
    }
    var c := Join(Completed, Group(fa), Group(fb)).value;
    KeepsWellFormed(Completed, Group(fa), Group(fb));
    GroupsWidenByName(c.fields, fu);
  }

  /** Two types have a common supertype exactly when the completed join is defined. */
  lemma {:induction false} CommonSupertypeIff(a: PyroType, b: PyroType)
    requires WellFormed(a) && WellFormed(b)
    ensures (exists u :: WellFormed(u) && Widens(false, a, u) && Widens(false, b, u)) <==> Join(Completed, a, b).Some?
  {
    hide Join, Widens;
    if u :| WellFormed(u) && Widens(false, a, u) && Widens(false, b, u) {
      CompletedJoinIsLeast(a, b, u);
    }
    if Join(Completed, a, b).Some? {
      var c := Join(Completed, a, b).value;
      KeepsWellFormed(Completed, a, b);
      Commutative(Completed, a, b);
      JoinWidensLeft(Completed, a, b);
      JoinWidensLeft(Completed, b, a);
      StrictIsLoose(a, c);
      StrictIsLoose(b, c);
    }
  }

  lemma {:induction false} StrictIsLoose(a: PyroType, b: PyroType)
    requires Widens(true, a, b)
    ensures Widens(false, a, b)
    decreases a
  {
    if a.Group? {
      forall f | f in a.fields
        ensures exists g :: g in b.fields && g.name == f.name && Widens(false, f.dataType, g.dataType)
      {
        var g :| g in b.fields && g.name == f.name && Widens(true, f.dataType, g.dataType);
        StrictIsLoose(f.dataType, g.dataType);
      }
    } else if a.List? {
      StrictIsLoose(a.elem, b.elem);
    } else if a.MapOf? {
      StrictIsLoose(a.key, b.key);
      StrictIsLoose(a.val, b.val);
    }
  }

  // ---------------------------------------------------------------------------
  // The shipped coercion against the order
  // ---------------------------------------------------------------------------

  /**
    A successful coercion is an upper bound of both sides, and the least one once the nullability
    of group fields is ignored.
  */
  lemma {:induction false} CoercionIsLeastUpperBound(a: PyroType, b: PyroType)
    requires WellFormed(a) && WellFormed(b) && Coerced(a, b).Some?
    ensures var c := Coerced(a, b).value;
            && Widens(true, a, c) && Widens(true, b, c)
            && (forall u :: WellFormed(u) && Widens(false, a, u) && Widens(false, b, u) ==> Widens(false, c, u))
  {
    hide Join, Widens;
    var c := Coerced(a, b).value;
    Commutative(Source, a, b);
    JoinWidensLeft(Source, a, b);
    JoinWidensLeft(Source, b, a);
    SourceRefinesCompleted(a, b);
    forall u | WellFormed(u) && Widens(false, a, u) && Widens(false, b, u)
      ensures Widens(false, c, u)
    {
      CompletedJoinIsLeast(a, b, u);
    }
  }

  /** At no shared position do two numbers of incomparable families meet (I8 with U8, U8 with F32). */
  predicate NoFamilyClash(a: PyroType, b: PyroType)
    decreases a
  {
    if a.Group? && b.Group? then
      forall f, g :: f in a.fields && g in b.fields && f.name == g.name ==> NoFamilyClash(f.dataType, g.dataType)
    else if a.List? && b.List? then NoFamilyClash(a.elem, b.elem)
    else if a.MapOf? && b.MapOf? then NoFamilyClash(a.key, b.key) && NoFamilyClash(a.val, b.val)
    else if a.Scalar? && b.Scalar? then PrimitiveWidens(a.prim, b.prim) || PrimitiveWidens(b.prim, a.prim)
    else
      KindOf(a) == KindOf(b) == FlatList ==>
        PrimitiveWidens(ElementOf(a), ElementOf(b)) || PrimitiveWidens(ElementOf(b), ElementOf(a))
  }

  /**
    Exactly when a common supertype is found. The documentation promises None for incompatible
    types; None is also the answer for types with a common supertype where two number families
    meet, and for no others.
  */
  lemma {:induction false} CoercionSucceedsIff(a: PyroType, b: PyroType)
    requires WellFormed(a) && WellFormed(b)
    ensures Coerced(a, b).Some? <==>
            && (exists u :: WellFormed(u) && Widens(false, a, u) && Widens(false, b, u))
            && NoFamilyClash(a, b)
  {
    hide Join, Widens, NoFamilyClash;
    CommonSupertypeIff(a, b);
    DefinedIff(a, b);
  }

  lemma {:induction false} DefinedIff(a: PyroType, b: PyroType)
    requires WellFormed(a) && WellFormed(b)
    ensures Coerced(a, b).Some? <==> Join(Completed, a, b).Some? && NoFamilyClash(a, b)
    decreases Depth(a), 1
  {
    hide Join, Depth;
    JoinCases(Source, a, b);
    JoinCases(Completed, a, b);
    if a.Group? && b.Group? {
      GroupsDefinedIff(a.fields, b.fields);
    } else if a.List? && b.List? {
      DepthOfParts(a);
      DefinedIff(a.elem, b.elem);
    } else if a.MapOf? && b.MapOf? {
      DepthOfParts(a);
      DefinedIff(a.key, b.key);
      DefinedIff(a.val, b.val);
    } else if a.Scalar? && b.Scalar? {
      CoercePrimitiveIsMaxOfComparable(a.prim, b.prim);
    } else if KindOf(a) == KindOf(b) == FlatList {
      CoercePrimitiveIsMaxOfComparable(ElementOf(a), ElementOf(b));
    }
  }

  lemma DepthOfParts(a: PyroType)
    ensures a.List? ==> Depth(a.elem) < Depth(a)
    ensures a.MapOf? ==> Depth(a.key) < Depth(a) && Depth(a.val) < Depth(a)
  {
  }

  lemma {:induction false} GroupsDefinedIff(fa: seq<PyroField>, fb: seq<PyroField>)
    requires WellFormed(Group(fa)) && WellFormed(Group(fb))
    ensures Coerced(Group(fa), Group(fb)).Some? <==>
            Join(Completed, Group(fa), Group(fb)).Some? && NoFamilyClash(Group(fa), Group(fb))
    decreases Depth(Group(fa)), 0
  {
    hide Join, NoFamilyClash;
    var ma, mb := TypesOf(fa), TypesOf(fb);
    JoinGroupsAsMaps(Source, fa, fb);
    JoinGroupsAsMaps(Completed, fa, fb);
    forall k | k in ma && k in mb
      ensures Join(Source, ma[k], mb[k]).Some? <==>
              Join(Completed, ma[k], mb[k]).Some? && NoFamilyClash(ma[k], mb[k])
    {
      GroupMember(fa, k);
      GroupMember(fb, k);
      DefinedIff(ma[k], mb[k]);
    }
    if NoFamilyClash(Group(fa), Group(fb)) {
      forall k | k in ma && k in mb ensures NoFamilyClash(ma[k], mb[k]) {
        NoClashAt(fa, fb, k);
      }
    } else if forall k :: k in ma && k in mb ==> NoFamilyClash(ma[k], mb[k]) {
      NoClashByNames(fa, fb);
    }
  }

  lemma NoClashAt(fa: seq<PyroField>, fb: seq<PyroField>, k: string)
    requires UniqueNames(fa) && UniqueNames(fb) && NoFamilyClash(Group(fa), Group(fb))
    requires k in TypesOf(fa) && k in TypesOf(fb)
    ensures NoFamilyClash(TypesOf(fa)[k], TypesOf(fb)[k])
  {
    hide TypesOf;
    var f := FieldNamed(fa, k);
    var g := FieldNamed(fb, k);
    assert f in Group(fa).fields && g in Group(fb).fields;
  }

  lemma NoClashByNames(fa: seq<PyroField>, fb: seq<PyroField>)
    requires UniqueNames(fa) && UniqueNames(fb)
    requires var ma, mb := TypesOf(fa), TypesOf(fb);
             forall k :: k in ma && k in mb ==> NoFamilyClash(ma[k], mb[k])
    ensures NoFamilyClash(Group(fa), Group(fb))
  {
    hide TypesOf;
    forall f, g | f in fa && g in fb && f.name == g.name
      ensures NoFamilyClash(f.dataType, g.dataType)
    {
      TypesOfMember(fa, f);
      TypesOfMember(fb, g);
    }
    assert Group(fa).fields == fa && Group(fb).fields == fb;
  }

  // ---------------------------------------------------------------------------
  // Whole observations
  // ---------------------------------------------------------------------------

  lemma {:induction false} FoldIsLeastUpperBound(acc: PyroType, ts: seq<PyroType>)
    requires WellFormed(acc) && AllWellFormed(ts)
    requires InferFrom(Source, Some(acc), ts).Some?
    ensures var r := InferFrom(Source, Some(acc), ts).value;
            && WellFormed(r) && Widens(true, acc, r)
            && (forall i :: 0 <= i < |ts| ==> Widens(true, ts[i], r))
            && (forall u :: WellFormed(u) && Widens(false, acc, u)
                            && (forall i :: 0 <= i < |ts| ==> Widens(false, ts[i], u))
                  ==> Widens(false, r, u))
    decreases |ts|
  {
    hide Join, Widens;
    if ts == [] {
      WidensReflexively(true, acc);
    } else {
      var t, rest := ts[0], ts[1..];
      if Coerced(acc, t).None? {
        FailureStays(Source, rest);
      }
      var next := Coerced(acc, t).value;
      KeepsWellFormed(Source, acc, t);
      CoercionIsLeastUpperBound(acc, t);
      FoldIsLeastUpperBound(next, rest);
      var r := InferFrom(Source, Some(acc), ts).value;
      WideningComposes(true, acc, next, r);
      forall i | 0 <= i < |ts|
        ensures Widens(true, ts[i], r)
      {
        if i == 0 {
          WideningComposes(true, t, next, r);
        } else {
          assert ts[i] == rest[i - 1];
        }
      }
      forall u | WellFormed(u) && Widens(false, acc, u) && forall i :: 0 <= i < |ts| ==> Widens(false, ts[i], u)
        ensures Widens(false, r, u)
      {
        assert Widens(false, ts[0], u);
        forall i | 0 <= i < |rest| ensures Widens(false, rest[i], u) {
          assert rest[i] == ts[i + 1];
        }
      }
    }
  }

  /** What inference promises: the narrowest type that holds everything observed. */
  lemma InferenceIsLeastUpperBound(ts: seq<PyroType>)
    requires ts != [] && AllWellFormed(ts) && Infer(ts).Some?
    ensures var r := Infer(ts).value;
            && WellFormed(r)
            && (forall i :: 0 <= i < |ts| ==> Widens(true, ts[i], r))
            && (forall u :: WellFormed(u) && (forall i :: 0 <= i < |ts| ==> Widens(false, ts[i], u)) ==>
                              Widens(false, r, u))
  {
    hide Join, Widens;
    FoldIsLeastUpperBound(ts[0], ts[1..]);
    var r := Infer(ts).value;
    forall i | 0 <= i < |ts|
      ensures Widens(true, ts[i], r)
    {
      if i > 0 {
        assert ts[i] == ts[1..][i - 1];
      }
    }
    forall u | WellFormed(u) && forall i :: 0 <= i < |ts| ==> Widens(false, ts[i], u)
      ensures Widens(false, r, u)
    {
      assert Widens(false, ts[0], u);
      forall i | 0 <= i < |ts[1..]| ensures Widens(false, ts[1..][i], u) {
        assert ts[1..][i] == ts[i + 1];
      }
    }
  }
}
