/**
  The Pyro type language and its coercion (lib/pyro-spec/src/lib.rs).

  `Coerced` is the specification of coerce_pyro_types, and the method `CoercePyroTypes` runs the
  source's own loop over `merged_map` against it.

  The specification carries a `Rule`. `Source` is the shipped numeric table. `Completed` also joins
  numbers of different families, at F64. It is a device for the proofs: a completed join is a true
  semilattice, and the shipped one is a restriction of it (see CoerceLaws).
*/
module PyroSpec {
  import opened Prelude

  datatype Primitive =
    | Bool
    | U8 | U16 | U32 | U64
    | I8 | I16 | I32 | I64
    | F16 | F32 | F64

  datatype PyroType =
    | Null
    | Scalar(prim: Primitive)
    | Str
    | Timestamp
    | PrimitiveList(elemPrim: Primitive)
    | PrimitiveFixedList(fixedPrim: Primitive, size: Usize)
    | List(elem: PyroType, elemNullable: bool)
    | Group(fields: seq<PyroField>)
    | MapOf(key: PyroType, val: PyroType)

  datatype PyroField = PyroField(name: string, documentation: Option<string>, dataType: PyroType, nullable: bool)

  datatype PyroSchema = PyroSchema(documentation: Option<string>, fields: seq<PyroField>)

  /** PyroField::new */
  function NewField(name: string, dataType: PyroType, nullable: bool): PyroField {
    PyroField(name, None, dataType, nullable)
  }

  // ---------------------------------------------------------------------------
  // Structure
  // ---------------------------------------------------------------------------

  function Depth(t: PyroType): nat {
    match t
    case List(e, _) => 1 + Depth(e)
    case Group(fs) => 1 + DepthOfFields(fs)
    case MapOf(k, v) => 1 + Max(Depth(k), Depth(v))
    case _ => 0
  }

  function DepthOfFields(fs: seq<PyroField>): (d: nat)
    ensures forall f :: f in fs ==> Depth(f.dataType) <= d
  {
    if fs == [] then 0 else Max(Depth(fs[0].dataType), DepthOfFields(fs[1..]))
  }

  lemma {:induction false} DepthOfFieldsAtMost(fs: seq<PyroField>, d: nat)
    requires forall f :: f in fs ==> Depth(f.dataType) <= d
    ensures DepthOfFields(fs) <= d
  {
    if fs != [] {
      DepthOfFieldsAtMost(fs[1..], d);
    }
  }

  predicate UniqueNames(fs: seq<PyroField>) {
    forall i, j :: 0 <= i < j < |fs| ==> fs[i].name != fs[j].name
  }

  /** Field names are unique in every group of the type. */
  predicate WellFormed(t: PyroType) {
    match t
    case List(e, _) => WellFormed(e)
    case Group(fs) => UniqueNames(fs) && forall f :: f in fs ==> WellFormed(f.dataType)
    case MapOf(k, v) => WellFormed(k) && WellFormed(v)
    case _ => true
  }

  // ---------------------------------------------------------------------------
  // Primitive coercion
  // ---------------------------------------------------------------------------

  /** The table of coerce_primitive_types, arm by arm. */
  function CoercePrimitiveTypes(a: Primitive, b: Primitive): Option<Primitive> {
    if a == b then Some(a)
    else
      match (a, b)
      case (I8, I16) => Some(I16)
      case (I16, I8) => Some(I16)
      case (I8, I32) => Some(I32)
      case (I32, I8) => Some(I32)
      case (I8, I64) => Some(I64)
      case (I64, I8) => Some(I64)
      case (I16, I32) => Some(I32)
      case (I32, I16) => Some(I32)
      case (I16, I64) => Some(I64)
      case (I64, I16) => Some(I64)
      case (I32, I64) => Some(I64)
      case (I64, I32) => Some(I64)
      case (U8, U16) => Some(U16)
      case (U16, U8) => Some(U16)
      case (U8, U32) => Some(U32)
      case (U32, U8) => Some(U32)
      case (U8, U64) => Some(U64)
      case (U64, U8) => Some(U64)
      case (U16, U32) => Some(U32)
      case (U32, U16) => Some(U32)
      case (U16, U64) => Some(U64)
      case (U64, U16) => Some(U64)
      case (U32, U64) => Some(U64)
      case (U64, U32) => Some(U64)
      case (F16, F32) => Some(F32)
      case (F32, F16) => Some(F32)
      case (F32, F64) => Some(F64)
      case (F64, F32) => Some(F64)
      case (F16, F64) => Some(F64)
      case (F64, F16) => Some(F64)
      case (I8, F64) => Some(F64)
      case (I16, F64) => Some(F64)
      case (I32, F64) => Some(F64)
      case (I64, F64) => Some(F64)
      case (F64, I8) => Some(F64)
      case (F64, I16) => Some(F64)
      case (F64, I32) => Some(F64)
      case (F64, I64) => Some(F64)
      case (U8, F64) => Some(F64)
      case (U16, F64) => Some(F64)
      case (U32, F64) => Some(F64)
      case (U64, F64) => Some(F64)
      case (F64, U8) => Some(F64)
      case (F64, U16) => Some(F64)
      case (F64, U32) => Some(F64)
      case (F64, U64) => Some(F64)
      case _ => None
  }

  datatype Family = Boolean | Unsigned | Signed | Float

  function FamilyOf(p: Primitive): Family {
    match p
    case Bool => Boolean
    case U8 => Unsigned case U16 => Unsigned case U32 => Unsigned case U64 => Unsigned
    case I8 => Signed case I16 => Signed case I32 => Signed case I64 => Signed
    case F16 => Float case F32 => Float case F64 => Float
  }

  function Width(p: Primitive): nat {
    match p
    case Bool => 1
    case U8 => 8 case I8 => 8
    case U16 => 16 case I16 => 16 case F16 => 16
    case U32 => 32 case I32 => 32 case F32 => 32
    case U64 => 64 case I64 => 64 case F64 => 64
  }

  /** Numeric widening: up within a family, and from any number to F64. */
  predicate PrimitiveWidens(a: Primitive, b: Primitive) {
    || (FamilyOf(a) == FamilyOf(b) && Width(a) <= Width(b))
    || (a != Bool && b == F64)
  }

  /** Least upper bound in the widening order, defined for any two numbers. */
  function PrimitiveLub(a: Primitive, b: Primitive): Option<Primitive> {
    if PrimitiveWidens(a, b) then Some(b)
    else if PrimitiveWidens(b, a) then Some(a)
    else if a == Bool || b == Bool then None
    else Some(F64)
  }

  /**
    What the table means: two primitives coerce exactly when one of them widens to the other, and
    then to the wider one. So I8 and U8 do not coerce, though both widen to F64.
  */
  lemma CoercePrimitiveIsMaxOfComparable(a: Primitive, b: Primitive)
    ensures CoercePrimitiveTypes(a, b) ==
            if PrimitiveWidens(a, b) then Some(b)
            else if PrimitiveWidens(b, a) then Some(a)
            else None
  {
    match a {
      case Bool => case U8 => case U16 => case U32 => case U64 =>
      case I8 => case I16 => case I32 => case I64 =>
      case F16 => case F32 => case F64 =>
    }
  }

  datatype Rule = Source | Completed

  function JoinPrimitives(rule: Rule, a: Primitive, b: Primitive): Option<Primitive> {
    match rule
    case Source => CoercePrimitiveTypes(a, b)
    case Completed => PrimitiveLub(a, b)
  }

  // ---------------------------------------------------------------------------
  // Type coercion
  // ---------------------------------------------------------------------------

  /** BTreeMap::into_values: the fields in key order. */
  function IntoValues(m: map<string, PyroField>): (fs: seq<PyroField>)
    ensures |fs| == |m.Keys|
    ensures forall f :: f in fs ==> f in m.Values
  {
    var ks := SortedKeys(m.Keys);
    seq(|ks|, i requires 0 <= i < |ks| => m[ks[i]])
  }

  predicate ShallowerThan(m: map<string, PyroField>, d: nat) {
    forall k :: k in m ==> Depth(m[k].dataType) < d
  }

  /** Both arms of the source's `match merged_map.get(f.name())`, given the coerced type. */
  function Inserted(m: map<string, PyroField>, f: PyroField, dataType: PyroType): map<string, PyroField> {
    m[f.name := NewField(f.name, dataType, if f.name in m then m[f.name].nullable || f.nullable else true)]
  }

  function Join(rule: Rule, a: PyroType, b: PyroType): (r: Option<PyroType>)
    ensures r.Some? ==> Depth(r.value) <= Max(Depth(a), Depth(b))
    decreases Max(Depth(a), Depth(b)), 1, 0
  {
    if a == b then Some(a)
    else
      match (a, b)
      case (Null, _) => Some(b)
      case (_, Null) => Some(a)
      case (Scalar(p), Scalar(q)) =>
        var c :- JoinPrimitives(rule, p, q);
        Some(Scalar(c))
      case (List(x, m), List(y, n)) =>
        var c :- Join(rule, x, y);
        Some(List(c, m || n))
      case (PrimitiveList(p), PrimitiveList(q)) =>
        var c :- JoinPrimitives(rule, p, q);
        Some(PrimitiveList(c))
      case (PrimitiveFixedList(p, m), PrimitiveFixedList(q, n)) =>
        var c :- JoinPrimitives(rule, p, q);
        Some(if m == n then PrimitiveFixedList(c, m) else PrimitiveList(c))
      case (PrimitiveFixedList(p, _), PrimitiveList(q)) =>
        var c :- JoinPrimitives(rule, p, q);
        Some(PrimitiveList(c))
      case (PrimitiveList(p), PrimitiveFixedList(q, _)) =>
        var c :- JoinPrimitives(rule, p, q);
        Some(PrimitiveList(c))
      case (Group(fa), Group(fb)) =>
        var d := Max(Depth(a), Depth(b));
        var merged :- MergeFields(rule, map[], fa + fb, d);
        DepthOfFieldsAtMost(IntoValues(merged), d - 1);
        Some(Group(IntoValues(merged)))
      case (MapOf(ka, va), MapOf(kb, vb)) =>
        var k :- Join(rule, ka, kb);
        var v :- Join(rule, va, vb);
        Some(MapOf(k, v))
      case _ => None
  }

  /** The group arm: fold the fields `fs` into the map `m`. */
  function MergeFields(rule: Rule, m: map<string, PyroField>, fs: seq<PyroField>, ghost d: nat)
    : (r: Option<map<string, PyroField>>)
    requires ShallowerThan(m, d)
    requires forall f :: f in fs ==> Depth(f.dataType) < d
    ensures r.Some? ==> ShallowerThan(r.value, d)
    decreases d, 0, |fs|
  {
    if fs == [] then Some(m)
    else
      var f := fs[0];
      var t :- if f.name in m then Join(rule, m[f.name].dataType, f.dataType) else Some(f.dataType);
      MergeFields(rule, Inserted(m, f, t), fs[1..], d)
  }

  /** coerce_pyro_types */
  function Coerced(a: PyroType, b: PyroType): Option<PyroType> {
    Join(Source, a, b)
  }

  /** coerce_pyro_types as the source runs it, with the loop over the chained fields. */
  method CoercePyroTypes(a: PyroType, b: PyroType) returns (r: Option<PyroType>)
    ensures r == Coerced(a, b)
    decreases Max(Depth(a), Depth(b)), 1
  {
    if a == b {
      return Some(a);
    }
    match (a, b) {
      case (Null, _) => r := Some(b);
      case (_, Null) => r := Some(a);
      case (Scalar(p), Scalar(q)) =>
        var c :- CoercePrimitiveTypes(p, q);
        r := Some(Scalar(c));
      case (List(x, m), List(y, n)) =>
        var c :- CoercePyroTypes(x, y);
        r := Some(List(c, m || n));
      case (PrimitiveList(p), PrimitiveList(q)) =>
        var c :- CoercePrimitiveTypes(p, q);
        r := Some(PrimitiveList(c));
      case (PrimitiveFixedList(p, m), PrimitiveFixedList(q, n)) =>
        var c :- CoercePrimitiveTypes(p, q);
        r := Some(if m == n then PrimitiveFixedList(c, m) else PrimitiveList(c));
      case (PrimitiveFixedList(p, _), PrimitiveList(q)) =>
        var c :- CoercePrimitiveTypes(p, q);
        r := Some(PrimitiveList(c));
      case (PrimitiveList(p), PrimitiveFixedList(q, _)) =>
        var c :- CoercePrimitiveTypes(p, q);
        r := Some(PrimitiveList(c));
      case (Group(fa), Group(fb)) =>
        ghost var d: nat := Max(Depth(a), Depth(b));
        JoinOfGroups(Source, fa, fb, d);
        r := CoerceGroups(fa, fb, d);
      case (MapOf(ka, va), MapOf(kb, vb)) =>
        var k :- CoercePyroTypes(ka, kb);
        var v :- CoercePyroTypes(va, vb);
        r := Some(MapOf(k, v));
      case _ => r := None;
    }
  }

  /** One turn of the merge loop, as an equation on the fold. */
  lemma MergeTurn(rule: Rule, m: map<string, PyroField>, fs: seq<PyroField>, i: nat, d: nat)
    requires ShallowerThan(m, d) && i < |fs|
    requires forall f :: f in fs ==> Depth(f.dataType) < d
    ensures var f := fs[i];
            var t := if f.name in m then Join(rule, m[f.name].dataType, f.dataType) else Some(f.dataType);
            MergeFields(rule, m, fs[i..], d) ==
            if t.None? then None else MergeFields(rule, Inserted(m, f, t.value), fs[i + 1..], d)
  {
    assert fs[i..][0] == fs[i] && fs[i..][1..] == fs[i + 1..];
  }

  lemma JoinOfGroups(rule: Rule, fa: seq<PyroField>, fb: seq<PyroField>, d: nat)
    requires fa != fb && d == Max(Depth(Group(fa)), Depth(Group(fb)))
    ensures forall f :: f in fa + fb ==> Depth(f.dataType) < d
    ensures var merged := MergeFields(rule, map[], fa + fb, d);
            Join(rule, Group(fa), Group(fb)) ==
            if merged.None? then None else Some(Group(IntoValues(merged.value)))
  {
  }

  /** The Group arm of coerce_pyro_types; `d` bounds the depth of the two groups. */
  method CoerceGroups(fa: seq<PyroField>, fb: seq<PyroField>, ghost d: nat) returns (r: Option<PyroType>)
    requires forall f :: f in fa + fb ==> Depth(f.dataType) < d
    ensures var merged := MergeFields(Source, map[], fa + fb, d);
            r == if merged.None? then None else Some(Group(IntoValues(merged.value)))
    decreases d, 0
  {
    hide Join;
    var chained := fa + fb;
    ghost var goal := MergeFields(Source, map[], chained, d);
    var merged: map<string, PyroField> := map[];
    var i := 0;
    assert chained[0..] == chained;
    while i < |chained|
      invariant 0 <= i <= |chained|
      invariant ShallowerThan(merged, d)
      invariant goal == MergeFields(Source, merged, chained[i..], d)
    {
      var f := chained[i];
      MergeTurn(Source, merged, chained, i, d);
      if f.name in merged {
        var existing := merged[f.name];
        var coerced := CoercePyroTypes(existing.dataType, f.dataType);
        if coerced.None? {
          return None;
        }
        merged := merged[f.name := NewField(f.name, coerced.value, existing.nullable || f.nullable)];
      } else {
        merged := merged[f.name := NewField(f.name, f.dataType, true)];
      }
      i := i + 1;
    }
    assert chained[i..] == [];
    r := Some(Group(IntoValues(merged)));
  }
}
