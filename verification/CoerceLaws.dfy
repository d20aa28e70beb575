/**
  The algebra of coerce_pyro_types on well-formed types: it is commutative (also where undefined),
  absorbing, closed under well-formedness, and associative wherever both bracketings are defined.

  The equality shortcut keeps field order, nullability and documentation, and the group arm drops
  all three, so the laws are about syntactic equality of what is left.
*/
module CoerceLaws {
  import opened Prelude
  import opened PyroSpec

  // ---------------------------------------------------------------------------
  // Groups as maps from name to type
  // ---------------------------------------------------------------------------

  type TypeMap = map<string, PyroType>

  function TypesOf(fs: seq<PyroField>): TypeMap {
    if fs == [] then map[]
    else TypesOf(fs[1..])[fs[0].name := fs[0].dataType]
  }

  lemma {:induction false} TypesOfNames(fs: seq<PyroField>, k: string)
    ensures k in TypesOf(fs) <==> exists i :: 0 <= i < |fs| && fs[i].name == k
  {
    if fs != [] {
      TypesOfNames(fs[1..], k);
      if k in TypesOf(fs[1..]) {
        var i :| 0 <= i < |fs[1..]| && fs[1..][i].name == k;
        assert fs[i + 1].name == k;
      }
      if i :| 0 <= i < |fs| && fs[i].name == k {
        assert i > 0 ==> fs[1..][i - 1].name == k;
      }
    }
  }

  /** What the group arm makes of a name: nullable and undocumented. */
  function Entries(m: TypeMap): map<string, PyroField> {
    map k | k in m :: NewField(k, m[k], true)
  }

  /** The group the group arm builds from a name-to-type map: sorted by name. */
  function Canonical(m: TypeMap): seq<PyroField> {
    var ks := SortedKeys(m.Keys);
    seq(|ks|, i requires 0 <= i < |ks| => NewField(ks[i], m[ks[i]], true))
  }

  lemma CanonicalIsIntoValues(m: TypeMap)
    ensures IntoValues(Entries(m)) == Canonical(m)
  {
    assert Entries(m).Keys == m.Keys;
  }

  lemma {:induction false} TypesOfAt(fs: seq<PyroField>, i: nat)
    requires UniqueNames(fs) && i < |fs|
    ensures fs[i].name in TypesOf(fs) && TypesOf(fs)[fs[i].name] == fs[i].dataType
  {
    if i > 0 {
      assert fs[1..][i - 1] == fs[i];
      TypesOfAt(fs[1..], i - 1);
    }
  }

  lemma CanonicalIsSortedView(m: TypeMap)
    ensures UniqueNames(Canonical(m))
    ensures TypesOf(Canonical(m)) == m
  {
    var fs, ks := Canonical(m), SortedKeys(m.Keys);
    assert UniqueNames(fs);
    forall k | k in m
      ensures k in TypesOf(fs) && TypesOf(fs)[k] == m[k]
    {
      assert k in ks;
      var i :| 0 <= i < |ks| && ks[i] == k;
      TypesOfAt(fs, i);
    }
    forall k | k in TypesOf(fs)
      ensures k in m
    {
      TypesOfNames(fs, k);
      var i :| 0 <= i < |fs| && fs[i].name == k;
      assert ks[i] == k;
    }
  }

  predicate Meets(rule: Rule, ma: TypeMap, mb: TypeMap) {
    forall k :: k in ma && k in mb ==> Join(rule, ma[k], mb[k]).Some?
  }

  function JoinAt(rule: Rule, ma: TypeMap, mb: TypeMap, k: string): PyroType
    requires k in ma || k in mb
  {
    if k !in mb then ma[k] else if k !in ma then mb[k] else Join(rule, ma[k], mb[k]).GetOr(Null)
  }

  function JoinMaps(rule: Rule, ma: TypeMap, mb: TypeMap): TypeMap {
    map k | k in ma.Keys + mb.Keys :: JoinAt(rule, ma, mb, k)
  }

  lemma JoinMapsTurn(rule: Rule, m: TypeMap, f: PyroField, rest: TypeMap)
    requires f.name !in rest
    ensures var t := if f.name in m then Join(rule, m[f.name], f.dataType) else Some(f.dataType);
            if t.None? then !Meets(rule, m, rest[f.name := f.dataType])
            else
              && (Meets(rule, m[f.name := t.value], rest) <==> Meets(rule, m, rest[f.name := f.dataType]))
              && JoinMaps(rule, m[f.name := t.value], rest) == JoinMaps(rule, m, rest[f.name := f.dataType])
  {
    hide Join;
  }

  lemma NothingToJoin(rule: Rule, m: TypeMap)
    ensures JoinMaps(rule, m, map[]) == m && JoinMaps(rule, map[], m) == m
    ensures Meets(rule, m, map[]) && Meets(rule, map[], m)
  {
  }

  /** The loop over the second group's fields is the pointwise join of the two maps. */
  lemma {:induction false} MergeIsPointwise(rule: Rule, m: TypeMap, fs: seq<PyroField>, d: nat)
    requires UniqueNames(fs)
    requires ShallowerThan(Entries(m), d)
    requires forall f :: f in fs ==> Depth(f.dataType) < d
    ensures MergeFields(rule, Entries(m), fs, d) ==
            if Meets(rule, m, TypesOf(fs)) then Some(Entries(JoinMaps(rule, m, TypesOf(fs)))) else None
    decreases |fs|
  {
    hide Join, Depth, Meets, JoinMaps, JoinAt;
    if fs == [] {
      NothingToJoin(rule, m);
    } else {
      var f, rest := fs[0], fs[1..];
      assert f.name !in TypesOf(rest) by {
        TypesOfNames(rest, f.name);
        forall i | 0 <= i < |rest| ensures rest[i].name != f.name {
          assert fs[i + 1] == rest[i];
        }
      }
      JoinMapsTurn(rule, m, f, TypesOf(rest));
      var t := if f.name in m then Join(rule, m[f.name], f.dataType) else Some(f.dataType);
      if t.Some? {
        var m' := m[f.name := t.value];
        assert Inserted(Entries(m), f, t.value) == Entries(m');
        MergeIsPointwise(rule, m', rest, d);
      }
    }
  }

  lemma {:induction false} MergeAppend(rule: Rule, m: map<string, PyroField>, fa: seq<PyroField>, fb: seq<PyroField>,
                                       d: nat)
    requires ShallowerThan(m, d)
    requires forall f :: f in fa + fb ==> Depth(f.dataType) < d
    ensures forall f :: f in fa || f in fb ==> Depth(f.dataType) < d
    ensures var first := MergeFields(rule, m, fa, d);
            MergeFields(rule, m, fa + fb, d) ==
            if first.None? then None else MergeFields(rule, first.value, fb, d)
    decreases |fa|
  {
    assert forall f :: f in fa || f in fb ==> f in fa + fb;
    if fa == [] {
      assert fa + fb == fb;
    } else {
      var f := fa[0];
      assert (fa + fb)[0] == f && (fa + fb)[1..] == fa[1..] + fb;
      var t := if f.name in m then Join(rule, m[f.name].dataType, f.dataType) else Some(f.dataType);
      if t.Some? {
        MergeAppend(rule, Inserted(m, f, t.value), fa[1..], fb, d);
      }
    }
  }

  /**
    The group arm on well-formed groups: names from both sides, shared names joined, everything
    nullable, undocumented and sorted.
  */
  lemma {:induction false} JoinGroups(rule: Rule, fa: seq<PyroField>, fb: seq<PyroField>)
    requires UniqueNames(fa) && UniqueNames(fb) && fa != fb
    ensures var ma, mb := TypesOf(fa), TypesOf(fb);
            Join(rule, Group(fa), Group(fb)) ==
            if Meets(rule, ma, mb) then Some(Group(Canonical(JoinMaps(rule, ma, mb)))) else None
  {
    hide Join, Meets, JoinMaps, JoinAt;
    var d: nat := Max(Depth(Group(fa)), Depth(Group(fb)));
    JoinOfGroups(rule, fa, fb, d);
    assert forall f :: f in fa || f in fb ==> f in fa + fb;
    MergeAppend(rule, map[], fa, fb, d);
    assert Entries(map[]) == map[];
    MergeIsPointwise(rule, map[], fa, d);
    NothingToJoin(rule, TypesOf(fa));
    var first := MergeFields(rule, map[], fa, d);
    assert first == Some(Entries(TypesOf(fa)));
    MergeIsPointwise(rule, TypesOf(fa), fb, d);
    CanonicalIsIntoValues(JoinMaps(rule, TypesOf(fa), TypesOf(fb)));
  }

  /** What a shared name contributes is a smaller well-formed type. */
  lemma {:induction false} TypesOfSmaller(fs: seq<PyroField>, k: string)
    requires k in TypesOf(fs)
    ensures Depth(TypesOf(fs)[k]) <= DepthOfFields(fs)
    ensures (forall f :: f in fs ==> WellFormed(f.dataType)) ==> WellFormed(TypesOf(fs)[k])
  {
    if k != fs[0].name {
      TypesOfSmaller(fs[1..], k);
    }
  }

  lemma GroupMember(fs: seq<PyroField>, k: string)
    requires k in TypesOf(fs) && WellFormed(Group(fs))
    ensures WellFormed(TypesOf(fs)[k]) && Depth(TypesOf(fs)[k]) < Depth(Group(fs))
  {
    TypesOfSmaller(fs, k);
  }

  // ---------------------------------------------------------------------------
  // Unfolding the other arms
  // ---------------------------------------------------------------------------

  datatype Kind = Unknown | Number | Text | Time | FlatList | Nested | Struct | Dict

  function KindOf(t: PyroType): Kind {
    match t
    case Null => Unknown
    case Scalar(_) => Number
    case Str => Text
    case Timestamp => Time
    case PrimitiveList(_) => FlatList
    case PrimitiveFixedList(_, _) => FlatList
    case List(_, _) => Nested
    case Group(_) => Struct
    case MapOf(_, _) => Dict
  }

  function ElementOf(t: PyroType): Primitive
    requires KindOf(t) == FlatList
  {
    if t.PrimitiveList? then t.elemPrim else t.fixedPrim
  }

  /** The size both sides agree on, if they are fixed lists and do agree. */
  function CommonSize(a: PyroType, b: PyroType): Option<Usize>
    requires KindOf(a) == KindOf(b) == FlatList
  {
    if a.PrimitiveFixedList? && b.PrimitiveFixedList? && a.size == b.size then Some(a.size) else None
  }

  function FlatListOf(p: Primitive, size: Option<Usize>): PyroType {
    if size.Some? then PrimitiveFixedList(p, size.value) else PrimitiveList(p)
  }

  lemma JoinShortcuts(rule: Rule, a: PyroType, b: PyroType)
    ensures a == b ==> Join(rule, a, b) == Some(a)
    ensures a == Null ==> Join(rule, a, b) == Some(b)
    ensures b == Null ==> Join(rule, a, b) == Some(a)
  {
  }

  lemma JoinOfKinds(rule: Rule, a: PyroType, b: PyroType)
    requires KindOf(a) != KindOf(b) && a != Null && b != Null
    ensures Join(rule, a, b) == None
  {
  }

  lemma JoinOfScalars(rule: Rule, a: PyroType, b: PyroType)
    requires a.Scalar? && b.Scalar?
    ensures var c := JoinPrimitives(rule, a.prim, b.prim);
            Join(rule, a, b) == if c.None? then None else Some(Scalar(c.value))
  {
  }

  lemma JoinOfFlatLists(rule: Rule, a: PyroType, b: PyroType)
    requires KindOf(a) == KindOf(b) == FlatList
    ensures var c := JoinPrimitives(rule, ElementOf(a), ElementOf(b));
            Join(rule, a, b) == if c.None? then None else Some(FlatListOf(c.value, CommonSize(a, b)))
  {
  }

  lemma JoinOfUnequalLists(rule: Rule, x: PyroType, m: bool, y: PyroType, n: bool)
    requires List(x, m) != List(y, n)
    ensures var c := Join(rule, x, y);
            Join(rule, List(x, m), List(y, n)) == if c.None? then None else Some(List(c.value, m || n))
  {
  }

  lemma JoinOfLists(rule: Rule, x: PyroType, m: bool, y: PyroType, n: bool)
    ensures var c := Join(rule, x, y);
            Join(rule, List(x, m), List(y, n)) == if c.None? then None else Some(List(c.value, m || n))
  {
    hide Join;
    JoinShortcuts(rule, x, y);
    JoinShortcuts(rule, List(x, m), List(y, n));
    if List(x, m) != List(y, n) {
      JoinOfUnequalLists(rule, x, m, y, n);
    }
  }

  lemma JoinOfUnequalDicts(rule: Rule, ka: PyroType, va: PyroType, kb: PyroType, vb: PyroType)
    requires MapOf(ka, va) != MapOf(kb, vb)
    ensures var k, v := Join(rule, ka, kb), Join(rule, va, vb);
            Join(rule, MapOf(ka, va), MapOf(kb, vb)) ==
            if k.None? || v.None? then None else Some(MapOf(k.value, v.value))
  {
  }

  lemma JoinOfDicts(rule: Rule, ka: PyroType, va: PyroType, kb: PyroType, vb: PyroType)
    ensures var k, v := Join(rule, ka, kb), Join(rule, va, vb);
            Join(rule, MapOf(ka, va), MapOf(kb, vb)) ==
            if k.None? || v.None? then None else Some(MapOf(k.value, v.value))
  {
    hide Join;
    JoinShortcuts(rule, ka, kb);
    JoinShortcuts(rule, va, vb);
    JoinShortcuts(rule, MapOf(ka, va), MapOf(kb, vb));
    if MapOf(ka, va) != MapOf(kb, vb) {
      JoinOfUnequalDicts(rule, ka, va, kb, vb);
    }
  }

  /** Every arm but the group arm, with the equality shortcut absorbed. */
  lemma JoinCases(rule: Rule, a: PyroType, b: PyroType)
    ensures a == b ==> Join(rule, a, b) == Some(a)
    ensures a == Null ==> Join(rule, a, b) == Some(b)
    ensures b == Null ==> Join(rule, a, b) == Some(a)
    ensures KindOf(a) != KindOf(b) && a != Null && b != Null ==> Join(rule, a, b) == None
    ensures a.Scalar? && b.Scalar? ==>
              var c := JoinPrimitives(rule, a.prim, b.prim);
              Join(rule, a, b) == if c.None? then None else Some(Scalar(c.value))
    ensures KindOf(a) == KindOf(b) == FlatList ==>
              var c := JoinPrimitives(rule, ElementOf(a), ElementOf(b));
              Join(rule, a, b) == if c.None? then None else Some(FlatListOf(c.value, CommonSize(a, b)))
    ensures a.List? && b.List? ==>
              var c := Join(rule, a.elem, b.elem);
              Join(rule, a, b) == if c.None? then None else Some(List(c.value, a.elemNullable || b.elemNullable))
    ensures a.MapOf? && b.MapOf? ==>
              var k, v := Join(rule, a.key, b.key), Join(rule, a.val, b.val);
              Join(rule, a, b) == if k.None? || v.None? then None else Some(MapOf(k.value, v.value))
  {
    hide Join;
    JoinShortcuts(rule, a, b);
    if KindOf(a) != KindOf(b) && a != Null && b != Null {
      JoinOfKinds(rule, a, b);
    } else if a.Scalar? && b.Scalar? {
      JoinOfScalars(rule, a, b);
    } else if KindOf(a) == KindOf(b) == FlatList {
      JoinOfFlatLists(rule, a, b);
    } else if a.List? && b.List? {
      JoinOfLists(rule, a.elem, a.elemNullable, b.elem, b.elemNullable);
    } else if a.MapOf? && b.MapOf? {
      JoinOfDicts(rule, a.key, a.val, b.key, b.val);
    }
  }

  // ---------------------------------------------------------------------------
  // Commutativity
  // ---------------------------------------------------------------------------

  lemma PrimitivesCommute(rule: Rule, p: Primitive, q: Primitive)
    ensures JoinPrimitives(rule, p, q) == JoinPrimitives(rule, q, p)
  {
    CoercePrimitiveIsMaxOfComparable(p, q);
    CoercePrimitiveIsMaxOfComparable(q, p);
  }

  lemma JoinMapsCommute(rule: Rule, ma: TypeMap, mb: TypeMap)
    requires forall k :: k in ma && k in mb ==> Join(rule, ma[k], mb[k]) == Join(rule, mb[k], ma[k])
    ensures Meets(rule, ma, mb) <==> Meets(rule, mb, ma)
    ensures JoinMaps(rule, ma, mb) == JoinMaps(rule, mb, ma)
  {
    hide Join;
    assert forall k :: k in ma.Keys + mb.Keys ==> JoinAt(rule, ma, mb, k) == JoinAt(rule, mb, ma, k);
  }

  lemma {:induction false} Commutative(rule: Rule, a: PyroType, b: PyroType)
    requires WellFormed(a) && WellFormed(b)
    ensures Join(rule, a, b) == Join(rule, b, a)
    decreases Depth(a), 1
  {
    hide Join, JoinPrimitives;
    JoinCases(rule, a, b);
    JoinCases(rule, b, a);
    if a.Group? && b.Group? {
      GroupsCommute(rule, a.fields, b.fields);
    } else if a.List? && b.List? {
      Commutative(rule, a.elem, b.elem);
    } else if a.MapOf? && b.MapOf? {
      Commutative(rule, a.key, b.key);
      Commutative(rule, a.val, b.val);
    } else if a.Scalar? && b.Scalar? {
      PrimitivesCommute(rule, a.prim, b.prim);
    } else if KindOf(a) == KindOf(b) == FlatList {
      PrimitivesCommute(rule, ElementOf(a), ElementOf(b));
    }
  }

  lemma {:induction false} GroupsCommute(rule: Rule, fa: seq<PyroField>, fb: seq<PyroField>)
    requires WellFormed(Group(fa)) && WellFormed(Group(fb))
    ensures Join(rule, Group(fa), Group(fb)) == Join(rule, Group(fb), Group(fa))
    decreases Depth(Group(fa)), 0
  {
    hide Join, Meets, JoinMaps;
    if fa != fb {
      JoinGroups(rule, fa, fb);
      JoinGroups(rule, fb, fa);
      var ma, mb := TypesOf(fa), TypesOf(fb);
      forall k | k in ma && k in mb
        ensures Join(rule, ma[k], mb[k]) == Join(rule, mb[k], ma[k])
      {
        GroupMember(fa, k);
        GroupMember(fb, k);
        Commutative(rule, ma[k], mb[k]);
      }
      JoinMapsCommute(rule, ma, mb);
    }
  }

  // ---------------------------------------------------------------------------
  // Closure
  // ---------------------------------------------------------------------------

  lemma {:induction false} KeepsWellFormed(rule: Rule, a: PyroType, b: PyroType)
    requires WellFormed(a) && WellFormed(b)
    requires Join(rule, a, b).Some?
    ensures WellFormed(Join(rule, a, b).value)
    decreases Depth(a), 1
  {
    hide Join;
    JoinCases(rule, a, b);
    if a.Group? && b.Group? {
      GroupsKeepWellFormed(rule, a.fields, b.fields);
    } else if a.List? && b.List? {
      KeepsWellFormed(rule, a.elem, b.elem);
    } else if a.MapOf? && b.MapOf? {
      KeepsWellFormed(rule, a.key, b.key);
      KeepsWellFormed(rule, a.val, b.val);
    }
  }

  lemma CanonicalWellFormed(m: TypeMap)
    requires forall k :: k in m ==> WellFormed(m[k])
    ensures WellFormed(Group(Canonical(m)))
  {
    CanonicalIsSortedView(m);
  }

  lemma {:induction false} GroupsKeepWellFormed(rule: Rule, fa: seq<PyroField>, fb: seq<PyroField>)
    requires WellFormed(Group(fa)) && WellFormed(Group(fb))
    requires Join(rule, Group(fa), Group(fb)).Some?
    ensures WellFormed(Join(rule, Group(fa), Group(fb)).value)
    decreases Depth(Group(fa)), 0
  {
    hide Join;
    JoinCases(rule, Group(fa), Group(fb));
    if fa != fb {
      JoinGroups(rule, fa, fb);
      var ma, mb := TypesOf(fa), TypesOf(fb);
      var m := JoinMaps(rule, ma, mb);
      forall k | k in m
        ensures WellFormed(m[k])
      {
        if k in ma { GroupMember(fa, k); }
        if k in mb { GroupMember(fb, k); }
        if k in ma && k in mb { KeepsWellFormed(rule, ma[k], mb[k]); }
      }
      CanonicalWellFormed(m);
    }
  }

  // ---------------------------------------------------------------------------
  // Absorption
  // ---------------------------------------------------------------------------

  lemma PrimitivesAbsorb(rule: Rule, p: Primitive, q: Primitive)
    requires JoinPrimitives(rule, p, q).Some?
    ensures JoinPrimitives(rule, p, JoinPrimitives(rule, p, q).value) == JoinPrimitives(rule, p, q)
  {
    CoercePrimitiveIsMaxOfComparable(p, q);
    CoercePrimitiveIsMaxOfComparable(p, JoinPrimitives(rule, p, q).value);
  }

  /** The join of two groups, seen as a map; the equality shortcut included. */
  lemma JoinGroupsAsMaps(rule: Rule, fa: seq<PyroField>, fb: seq<PyroField>)
    requires WellFormed(Group(fa)) && WellFormed(Group(fb))
    ensures var ma, mb := TypesOf(fa), TypesOf(fb);
            var r := Join(rule, Group(fa), Group(fb));
            && (r.Some? <==> Meets(rule, ma, mb))
            && (r.Some? ==>
                  && r.value.Group?
                  && TypesOf(r.value.fields) == JoinMaps(rule, ma, mb)
                  && r.value.fields == if fa == fb then fa else Canonical(JoinMaps(rule, ma, mb)))
  {
    hide Join;
    var ma, mb := TypesOf(fa), TypesOf(fb);
    JoinShortcuts(rule, Group(fa), Group(fb));
    if fa == fb {
      forall k | k in ma
        ensures Join(rule, ma[k], ma[k]) == Some(ma[k])
      {
        JoinShortcuts(rule, ma[k], ma[k]);
      }
      assert JoinMaps(rule, ma, ma) == ma;
    } else {
      JoinGroups(rule, fa, fb);
      CanonicalIsSortedView(JoinMaps(rule, ma, mb));
    }
  }

  lemma JoinMapsAbsorb(rule: Rule, ma: TypeMap, mb: TypeMap)
    requires Meets(rule, ma, mb)
    requires forall k :: k in ma && k in mb ==>
                           Join(rule, ma[k], Join(rule, ma[k], mb[k]).value) == Join(rule, ma[k], mb[k])
    ensures Meets(rule, ma, JoinMaps(rule, ma, mb))
    ensures JoinMaps(rule, ma, JoinMaps(rule, ma, mb)) == JoinMaps(rule, ma, mb)
  {
    hide Join;
    var mc := JoinMaps(rule, ma, mb);
    forall k | k in mc
      ensures k in ma ==> Join(rule, ma[k], mc[k]).Some?
      ensures JoinAt(rule, ma, mc, k) == mc[k]
    {
      if k in ma && k !in mb {
        JoinShortcuts(rule, ma[k], ma[k]);
      }
    }
  }

  lemma {:induction false} Absorbing(rule: Rule, a: PyroType, b: PyroType)
    requires WellFormed(a) && WellFormed(b)
    requires Join(rule, a, b).Some?
    ensures Join(rule, a, Join(rule, a, b).value) == Join(rule, a, b)
    decreases Depth(a), 1
  {
    hide Join, JoinPrimitives;
    JoinCases(rule, a, b);
    JoinCases(rule, a, Join(rule, a, b).value);
    if a == Null || b == Null {
      JoinShortcuts(rule, a, a);
    } else if a.Group? && b.Group? {
      GroupsAbsorb(rule, a.fields, b.fields);
    } else if a.List? && b.List? {
      Absorbing(rule, a.elem, b.elem);
    } else if a.MapOf? && b.MapOf? {
      Absorbing(rule, a.key, b.key);
      Absorbing(rule, a.val, b.val);
    } else if a.Scalar? && b.Scalar? {
      PrimitivesAbsorb(rule, a.prim, b.prim);
    } else if KindOf(a) == KindOf(b) == FlatList {
      PrimitivesAbsorb(rule, ElementOf(a), ElementOf(b));
    }
  }

  lemma {:induction false} GroupsAbsorb(rule: Rule, fa: seq<PyroField>, fb: seq<PyroField>)
    requires WellFormed(Group(fa)) && WellFormed(Group(fb))
    requires Join(rule, Group(fa), Group(fb)).Some?
    ensures var c := Join(rule, Group(fa), Group(fb));
            Join(rule, Group(fa), c.value) == c
    decreases Depth(Group(fa)), 0
  {
    hide Join, JoinMaps, Canonical;
    var ma, mb := TypesOf(fa), TypesOf(fb);
    JoinGroupsAsMaps(rule, fa, fb);
    forall k | k in ma && k in mb
      ensures Join(rule, ma[k], Join(rule, ma[k], mb[k]).value) == Join(rule, ma[k], mb[k])
    {
      GroupMember(fa, k);
      GroupMember(fb, k);
      Absorbing(rule, ma[k], mb[k]);
    }
    JoinMapsAbsorb(rule, ma, mb);
    var c := Join(rule, Group(fa), Group(fb)).value;
    KeepsWellFormed(rule, Group(fa), Group(fb));
    JoinGroupsAsMaps(rule, fa, c.fields);
  }

  // ---------------------------------------------------------------------------
  // The shipped join is a restriction of the completed one
  // ---------------------------------------------------------------------------

  lemma JoinMapsRefine(ma: TypeMap, mb: TypeMap)
    requires Meets(Source, ma, mb)
    requires forall k :: k in ma && k in mb ==> Join(Completed, ma[k], mb[k]) == Join(Source, ma[k], mb[k])
    ensures Meets(Completed, ma, mb) && JoinMaps(Completed, ma, mb) == JoinMaps(Source, ma, mb)
  {
    hide Join;
    assert forall k :: k in ma.Keys + mb.Keys ==> JoinAt(Completed, ma, mb, k) == JoinAt(Source, ma, mb, k);
  }

  lemma {:induction false} SourceRefinesCompleted(a: PyroType, b: PyroType)
    requires WellFormed(a) && WellFormed(b)
    requires Coerced(a, b).Some?
    ensures Join(Completed, a, b) == Coerced(a, b)
    decreases Depth(a), 1
  {
    hide Join;
    JoinCases(Source, a, b);
    JoinCases(Completed, a, b);
    if a.Group? && b.Group? {
      GroupsRefine(a.fields, b.fields);
    } else if a.List? && b.List? {
      SourceRefinesCompleted(a.elem, b.elem);
    } else if a.MapOf? && b.MapOf? {
      SourceRefinesCompleted(a.key, b.key);
      SourceRefinesCompleted(a.val, b.val);
    } else if a.Scalar? && b.Scalar? {
      CoercePrimitiveIsMaxOfComparable(a.prim, b.prim);
    } else if KindOf(a) == KindOf(b) == FlatList {
      CoercePrimitiveIsMaxOfComparable(ElementOf(a), ElementOf(b));
    }
  }

  lemma {:induction false} GroupsRefine(fa: seq<PyroField>, fb: seq<PyroField>)
    requires WellFormed(Group(fa)) && WellFormed(Group(fb))
    requires Join(Source, Group(fa), Group(fb)).Some?
    ensures Join(Completed, Group(fa), Group(fb)) == Join(Source, Group(fa), Group(fb))
    decreases Depth(Group(fa)), 0
  {
    hide Join, JoinMaps, Canonical;
    var ma, mb := TypesOf(fa), TypesOf(fb);
    JoinGroupsAsMaps(Source, fa, fb);
    forall k | k in ma && k in mb
      ensures Join(Completed, ma[k], mb[k]) == Join(Source, ma[k], mb[k])
    {
      GroupMember(fa, k);
      GroupMember(fb, k);
      SourceRefinesCompleted(ma[k], mb[k]);
    }
    JoinMapsRefine(ma, mb);
    JoinGroupsAsMaps(Completed, fa, fb);
  }

  // ---------------------------------------------------------------------------
  // Associativity
  // ---------------------------------------------------------------------------

  /** Join lifted to failed operands: a failure stays a failure. */
  function JoinOf(rule: Rule, a: Option<PyroType>, b: Option<PyroType>): Option<PyroType> {
    if a.None? || b.None? then None else Join(rule, a.value, b.value)
  }

  /** PrimitiveWidens is a partial order. */
  lemma WidensTransitively(p: Primitive, q: Primitive, r: Primitive)
    requires PrimitiveWidens(p, q) && PrimitiveWidens(q, r)
    ensures PrimitiveWidens(p, r)
  {
    match q {
      case Bool => case U8 => case U16 => case U32 => case U64 =>
      case I8 => case I16 => case I32 => case I64 =>
      case F16 => case F32 => case F64 =>
    }
  }

  lemma WidensAntisymmetrically(p: Primitive, q: Primitive)
    requires PrimitiveWidens(p, q) && PrimitiveWidens(q, p)
    ensures p == q
  {
    match p {
      case Bool => case U8 => case U16 => case U32 => case U64 =>
      case I8 => case I16 => case I32 => case I64 =>
      case F16 => case F32 => case F64 =>
    }
  }

  /** PrimitiveLub is what its name says, and is undefined only between Bool and a number. */
  lemma LubIsLeast(p: Primitive, q: Primitive)
    ensures PrimitiveLub(p, q).Some? <==> (p == Bool <==> q == Bool)
    ensures PrimitiveLub(p, q).Some? ==>
              var u := PrimitiveLub(p, q).value;
              && PrimitiveWidens(p, u) && PrimitiveWidens(q, u)
              && (u == Bool <==> p == Bool)
              && (forall v :: PrimitiveWidens(p, v) && PrimitiveWidens(q, v) ==> PrimitiveWidens(u, v))
  {
    match p {
      case Bool => case U8 => case U16 => case U32 => case U64 =>
      case I8 => case I16 => case I32 => case I64 =>
      case F16 => case F32 => case F64 =>
    }
  }

  lemma NumbersAssociate(p: Primitive, q: Primitive, r: Primitive)
    ensures var pq, qr := JoinPrimitives(Completed, p, q), JoinPrimitives(Completed, q, r);
            (if pq.None? then None else JoinPrimitives(Completed, pq.value, r)) ==
            (if qr.None? then None else JoinPrimitives(Completed, p, qr.value))
  {
    hide PrimitiveLub, PrimitiveWidens;
    LubIsLeast(p, q);
    LubIsLeast(q, r);
    var pq, qr := PrimitiveLub(p, q), PrimitiveLub(q, r);
    if pq.Some? { LubIsLeast(pq.value, r); }
    if qr.Some? { LubIsLeast(p, qr.value); }
    if pq.Some? && qr.Some? {
      var left, right := PrimitiveLub(pq.value, r).value, PrimitiveLub(p, qr.value).value;
      WidensTransitively(p, pq.value, left);
      WidensTransitively(q, pq.value, left);
      WidensTransitively(q, qr.value, right);
      WidensTransitively(r, qr.value, right);
      WidensAntisymmetrically(left, right);
    }
  }

  lemma MeetsRegroups(ma: TypeMap, mb: TypeMap, mc: TypeMap)
    requires forall k :: k in ma && k in mb && k in mc ==>
                           JoinOf(Completed, Join(Completed, ma[k], mb[k]), Some(mc[k])) ==
                           JoinOf(Completed, Some(ma[k]), Join(Completed, mb[k], mc[k]))
    requires Meets(Completed, ma, mb) && Meets(Completed, JoinMaps(Completed, ma, mb), mc)
    ensures Meets(Completed, mb, mc) && Meets(Completed, ma, JoinMaps(Completed, mb, mc))
    ensures JoinMaps(Completed, JoinMaps(Completed, ma, mb), mc) ==
            JoinMaps(Completed, ma, JoinMaps(Completed, mb, mc))
  {
    hide Join;
    var ab, bc := JoinMaps(Completed, ma, mb), JoinMaps(Completed, mb, mc);
    forall k | k in ma.Keys + mb.Keys + mc.Keys
      ensures k in mb && k in mc ==> Join(Completed, mb[k], mc[k]).Some?
      ensures k in ma && k in bc ==> Join(Completed, ma[k], bc[k]).Some?
      ensures JoinAt(Completed, ab, mc, k) == JoinAt(Completed, ma, bc, k)
    {
      if k in ma || k in mb {
        assert k in ab && ab[k] == JoinAt(Completed, ma, mb, k);
      }
      if k in mb || k in mc {
        assert k in bc && bc[k] == JoinAt(Completed, mb, mc, k);
      }
    }
  }

  lemma MeetsRegroupsBack(ma: TypeMap, mb: TypeMap, mc: TypeMap)
    requires forall k :: k in ma && k in mb && k in mc ==>
                           JoinOf(Completed, Join(Completed, ma[k], mb[k]), Some(mc[k])) ==
                           JoinOf(Completed, Some(ma[k]), Join(Completed, mb[k], mc[k]))
    requires Meets(Completed, mb, mc) && Meets(Completed, ma, JoinMaps(Completed, mb, mc))
    ensures Meets(Completed, ma, mb) && Meets(Completed, JoinMaps(Completed, ma, mb), mc)
  {
    hide Join;
    var ab, bc := JoinMaps(Completed, ma, mb), JoinMaps(Completed, mb, mc);
    forall k | k in ma.Keys + mb.Keys + mc.Keys
      ensures k in ma && k in mb ==> Join(Completed, ma[k], mb[k]).Some?
      ensures k in ab && k in mc ==> Join(Completed, ab[k], mc[k]).Some?
    {
      if k in ma || k in mb {
        assert k in ab && ab[k] == JoinAt(Completed, ma, mb, k);
      }
      if k in mb || k in mc {
        assert k in bc && bc[k] == JoinAt(Completed, mb, mc, k);
      }
    }
  }

  lemma JoinKeepsKind(rule: Rule, a: PyroType, b: PyroType)
    requires a != Null && b != Null && Join(rule, a, b).Some?
    ensures KindOf(a) == KindOf(b) == KindOf(Join(rule, a, b).value)
  {
    if KindOf(a) != KindOf(b) {
      JoinOfKinds(rule, a, b);
    }
  }

  lemma AssociativeAcrossKinds(a: PyroType, b: PyroType, c: PyroType)
    requires a == Null || b == Null || c == Null || !(KindOf(a) == KindOf(b) == KindOf(c))
    ensures JoinOf(Completed, Join(Completed, a, b), Some(c)) == JoinOf(Completed, Some(a), Join(Completed, b, c))
  {
    hide Join;
    var ab, bc := Join(Completed, a, b), Join(Completed, b, c);
    JoinShortcuts(Completed, a, b);
    JoinShortcuts(Completed, b, c);
    if a == Null || b == Null || c == Null {
      if ab.Some? { JoinShortcuts(Completed, ab.value, c); }
      if bc.Some? { JoinShortcuts(Completed, a, bc.value); }
    } else {
      if ab.Some? {
        JoinKeepsKind(Completed, a, b);
        JoinOfKinds(Completed, ab.value, c);
      }
      if bc.Some? {
        JoinKeepsKind(Completed, b, c);
        JoinOfKinds(Completed, a, bc.value);
      }
    }
  }

  lemma {:induction false} Associative(a: PyroType, b: PyroType, c: PyroType)
    requires WellFormed(a) && WellFormed(b) && WellFormed(c)
    ensures JoinOf(Completed, Join(Completed, a, b), Some(c)) == JoinOf(Completed, Some(a), Join(Completed, b, c))
    decreases Depth(a), 1
  {
    hide Join, JoinPrimitives;
    if a == Null || b == Null || c == Null || !(KindOf(a) == KindOf(b) == KindOf(c)) {
      AssociativeAcrossKinds(a, b, c);
    } else if a.Group? {
      GroupsAssociate(a.fields, b.fields, c.fields);
    } else if a.List? {
      Associative(a.elem, b.elem, c.elem);
      ListsAssociate(a.elem, a.elemNullable, b.elem, b.elemNullable, c.elem, c.elemNullable);
    } else if a.MapOf? {
      Associative(a.key, b.key, c.key);
      Associative(a.val, b.val, c.val);
      DictsAssociate(a.key, a.val, b.key, b.val, c.key, c.val);
    } else {
      LeavesAssociate(a, b, c);
    }
  }

  function ListOf(elem: Option<PyroType>, nullable: bool): Option<PyroType> {
    if elem.None? then None else Some(List(elem.value, nullable))
  }

  lemma ListOfJoin(x: Option<PyroType>, m: bool, y: Option<PyroType>, n: bool)
    ensures JoinOf(Completed, ListOf(x, m), ListOf(y, n)) == ListOf(JoinOf(Completed, x, y), m || n)
  {
    hide Join;
    if x.Some? && y.Some? {
      JoinOfLists(Completed, x.value, m, y.value, n);
    }
  }

  lemma ListsAssociate(x: PyroType, m: bool, y: PyroType, n: bool, z: PyroType, o: bool)
    requires JoinOf(Completed, Join(Completed, x, y), Some(z)) == JoinOf(Completed, Some(x), Join(Completed, y, z))
    ensures JoinOf(Completed, Join(Completed, List(x, m), List(y, n)), Some(List(z, o))) ==
            JoinOf(Completed, Some(List(x, m)), Join(Completed, List(y, n), List(z, o)))
  {
    hide Join;
    var xy, yz := Join(Completed, x, y), Join(Completed, y, z);
    ListOfJoin(Some(x), m, Some(y), n);
    ListOfJoin(Some(y), n, Some(z), o);
    ListOfJoin(xy, m || n, Some(z), o);
    ListOfJoin(Some(x), m, yz, n || o);
  }

  function DictOf(key: Option<PyroType>, val: Option<PyroType>): Option<PyroType> {
    if key.None? || val.None? then None else Some(MapOf(key.value, val.value))
  }

  lemma DictOfBoth(key: PyroType, val: PyroType)
    ensures DictOf(Some(key), Some(val)) == Some(MapOf(key, val))
  {
  }

  lemma Defined(a: PyroType, b: PyroType)
    ensures JoinOf(Completed, Some(a), Some(b)) == Join(Completed, a, b)
  {
  }

  lemma DictOfJoin(ka: Option<PyroType>, va: Option<PyroType>, kb: Option<PyroType>, vb: Option<PyroType>)
    ensures JoinOf(Completed, DictOf(ka, va), DictOf(kb, vb)) ==
            DictOf(JoinOf(Completed, ka, kb), JoinOf(Completed, va, vb))
  {
    hide Join;
    if ka.Some? && va.Some? && kb.Some? && vb.Some? {
      JoinOfDicts(Completed, ka.value, va.value, kb.value, vb.value);
    }
  }

  lemma DictsAssociate(ka: PyroType, va: PyroType, kb: PyroType, vb: PyroType, kc: PyroType, vc: PyroType)
    requires JoinOf(Completed, Join(Completed, ka, kb), Some(kc)) ==
             JoinOf(Completed, Some(ka), Join(Completed, kb, kc))
    requires JoinOf(Completed, Join(Completed, va, vb), Some(vc)) ==
             JoinOf(Completed, Some(va), Join(Completed, vb, vc))
    ensures JoinOf(Completed, Join(Completed, MapOf(ka, va), MapOf(kb, vb)), Some(MapOf(kc, vc))) ==
            JoinOf(Completed, Some(MapOf(ka, va)), Join(Completed, MapOf(kb, vb), MapOf(kc, vc)))
  {
    hide Join, JoinOf, DictOf;
    DictOfBoth(ka, va);
    DictOfBoth(kb, vb);
    DictOfBoth(kc, vc);
    Defined(MapOf(ka, va), MapOf(kb, vb));
    Defined(MapOf(kb, vb), MapOf(kc, vc));
    Defined(ka, kb);
    Defined(va, vb);
    Defined(kb, kc);
    Defined(vb, vc);
    DictOfJoin(Some(ka), Some(va), Some(kb), Some(vb));
    DictOfJoin(Some(kb), Some(vb), Some(kc), Some(vc));
    DictOfJoin(Join(Completed, ka, kb), Join(Completed, va, vb), Some(kc), Some(vc));
    DictOfJoin(Some(ka), Some(va), Join(Completed, kb, kc), Join(Completed, vb, vc));
  }

  lemma LeavesAssociate(a: PyroType, b: PyroType, c: PyroType)
    requires KindOf(a) == KindOf(b) == KindOf(c)
    requires a != Null && !a.List? && !a.Group? && !a.MapOf?
    ensures JoinOf(Completed, Join(Completed, a, b), Some(c)) == JoinOf(Completed, Some(a), Join(Completed, b, c))
  {
    hide Join, JoinPrimitives;
    var ab, bc := Join(Completed, a, b), Join(Completed, b, c);
    if a.Scalar? {
      NumbersAssociate(a.prim, b.prim, c.prim);
      JoinOfScalars(Completed, a, b);
      JoinOfScalars(Completed, b, c);
      if ab.Some? { JoinOfScalars(Completed, ab.value, c); }
      if bc.Some? { JoinOfScalars(Completed, a, bc.value); }
    } else if KindOf(a) == FlatList {
      NumbersAssociate(ElementOf(a), ElementOf(b), ElementOf(c));
      JoinOfFlatLists(Completed, a, b);
      JoinOfFlatLists(Completed, b, c);
      if ab.Some? { JoinOfFlatLists(Completed, ab.value, c); }
      if bc.Some? { JoinOfFlatLists(Completed, a, bc.value); }
    } else {
      JoinShortcuts(Completed, a, a);
    }
  }

  lemma {:induction false} GroupsAssociate(fa: seq<PyroField>, fb: seq<PyroField>, fc: seq<PyroField>)
    requires WellFormed(Group(fa)) && WellFormed(Group(fb)) && WellFormed(Group(fc))
    ensures JoinOf(Completed, Join(Completed, Group(fa), Group(fb)), Some(Group(fc))) ==
            JoinOf(Completed, Some(Group(fa)), Join(Completed, Group(fb), Group(fc)))
    decreases Depth(Group(fa)), 0
  {
    hide Join, JoinMaps, Meets, Canonical;
    var ma, mb, mc := TypesOf(fa), TypesOf(fb), TypesOf(fc);
    forall k | k in ma && k in mb && k in mc
      ensures JoinOf(Completed, Join(Completed, ma[k], mb[k]), Some(mc[k])) ==
              JoinOf(Completed, Some(ma[k]), Join(Completed, mb[k], mc[k]))
    {
      GroupMember(fa, k);
      GroupMember(fb, k);
      GroupMember(fc, k);
      Associative(ma[k], mb[k], mc[k]);
    }
    if Meets(Completed, ma, mb) && Meets(Completed, JoinMaps(Completed, ma, mb), mc) {
      MeetsRegroups(ma, mb, mc);
    } else if Meets(Completed, mb, mc) && Meets(Completed, ma, JoinMaps(Completed, mb, mc)) {
      MeetsRegroupsBack(ma, mb, mc);
    }
    JoinGroupsAsMaps(Completed, fa, fb);
    JoinGroupsAsMaps(Completed, fb, fc);
    var ab, bc := Join(Completed, Group(fa), Group(fb)), Join(Completed, Group(fb), Group(fc));
    if ab.Some? {
      KeepsWellFormed(Completed, Group(fa), Group(fb));
      JoinGroupsAsMaps(Completed, ab.value.fields, fc);
    }
    if bc.Some? {
      KeepsWellFormed(Completed, Group(fb), Group(fc));
      JoinGroupsAsMaps(Completed, fa, bc.value.fields);
    }
  }

  // ---------------------------------------------------------------------------
  // The laws of coerce_pyro_types
  // ---------------------------------------------------------------------------

  /** The semilattice laws of the shipped coercion, on all well-formed types. */
  lemma {:induction false} CoercionLaws(a: PyroType, b: PyroType)
    requires WellFormed(a) && WellFormed(b)
    ensures Coerced(a, a) == Some(a)
    ensures Coerced(a, b) == Coerced(b, a)
    ensures Coerced(a, b).Some? ==>
              var c := Coerced(a, b).value;
              WellFormed(c) && Coerced(a, c) == Some(c) && Coerced(c, b) == Some(c)
  {
    hide Join;
    JoinShortcuts(Source, a, a);
    Commutative(Source, a, b);
    if Coerced(a, b).Some? {
      var c := Coerced(a, b).value;
      KeepsWellFormed(Source, a, b);
      Absorbing(Source, a, b);
      Absorbing(Source, b, a);
      Commutative(Source, b, c);
    }
  }

  /** Wherever both bracketings are defined they agree, to the last field. */
  lemma {:induction false} CoercionAssociates(a: PyroType, b: PyroType, c: PyroType)
    requires WellFormed(a) && WellFormed(b) && WellFormed(c)
    requires Coerced(a, b).Some? && Coerced(b, c).Some?
    requires Coerced(Coerced(a, b).value, c).Some? && Coerced(a, Coerced(b, c).value).Some?
    ensures Coerced(Coerced(a, b).value, c) == Coerced(a, Coerced(b, c).value)
  {
    hide Join;
    var ab, bc := Coerced(a, b).value, Coerced(b, c).value;
    SourceRefinesCompleted(a, b);
    SourceRefinesCompleted(b, c);
    KeepsWellFormed(Source, a, b);
    KeepsWellFormed(Source, b, c);
    SourceRefinesCompleted(ab, c);
    SourceRefinesCompleted(a, bc);
    Associative(a, b, c);
  }

  /**
    Well-formedness cannot be dropped: with a repeated field name, whether two groups coerce at all
    depends on which comes first.
  */
  lemma RepeatedNamesBreakCommutativity(n: string)
    ensures var a := Group([NewField(n, Scalar(I8), true), NewField(n, Scalar(F64), true)]);
            var b := Group([NewField(n, Scalar(U8), true)]);
            Coerced(a, b).Some? && Coerced(b, a).None?
  {
    hide Join, MergeFields;
    var f, g, h := NewField(n, Scalar(I8), true), NewField(n, Scalar(F64), true), NewField(n, Scalar(U8), true);
    GroupsOfThree(f, g, h);
    GroupsOfThreeBack(h, f, g);
    JoinOfScalars(Source, Scalar(I8), Scalar(F64));
    JoinOfScalars(Source, Scalar(F64), Scalar(U8));
    JoinOfScalars(Source, Scalar(U8), Scalar(I8));
  }

  lemma GroupsOfThree(f: PyroField, g: PyroField, h: PyroField)
    requires f.name == g.name == h.name
    requires Depth(f.dataType) == Depth(g.dataType) == Depth(h.dataType) == 0
    ensures Coerced(Group([f, g]), Group([h])).Some? <==>
            JoinOf(Source, Join(Source, f.dataType, g.dataType), Some(h.dataType)).Some?
  {
    hide Join, MergeFields;
    DepthOfFieldsAtMost([f, g], 0);
    DepthOfFieldsAtMost([h], 0);
    JoinOfGroups(Source, [f, g], [h], 1);
    assert [f, g] + [h] == [f, g, h];
    MergeOfThree(f, g, h);
  }

  lemma GroupsOfThreeBack(h: PyroField, f: PyroField, g: PyroField)
    requires f.name == g.name == h.name
    requires Depth(f.dataType) == Depth(g.dataType) == Depth(h.dataType) == 0
    ensures Coerced(Group([h]), Group([f, g])).Some? <==>
            JoinOf(Source, Join(Source, h.dataType, f.dataType), Some(g.dataType)).Some?
  {
    hide Join, MergeFields;
    DepthOfFieldsAtMost([f, g], 0);
    DepthOfFieldsAtMost([h], 0);
    JoinOfGroups(Source, [h], [f, g], 1);
    assert [h] + [f, g] == [h, f, g];
    MergeOfThree(h, f, g);
  }

  lemma MergeOfThree(f: PyroField, g: PyroField, h: PyroField)
    requires f.name == g.name == h.name
    requires Depth(f.dataType) == Depth(g.dataType) == Depth(h.dataType) == 0
    ensures MergeFields(Source, map[], [f, g, h], 1).Some? <==>
            JoinOf(Source, Join(Source, f.dataType, g.dataType), Some(h.dataType)).Some?
  {
    hide Join;
    var fs := [f, g, h];
    assert fs[0..] == fs && fs[3..] == [];
    MergeTurn(Source, map[], fs, 0, 1);
    var m := Inserted(map[], f, f.dataType);
    MergeTurn(Source, m, fs, 1, 1);
    var fg := Join(Source, f.dataType, g.dataType);
    if fg.Some? {
      MergeTurn(Source, Inserted(m, g, fg.value), fs, 2, 1);
    }
  }
}
