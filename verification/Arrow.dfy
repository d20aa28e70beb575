/**
  Translation between Pyro types and Arrow types (lib/pyro-spec/src/arrow.rs).

  Sizes are modelled at their machine widths: Pyro's usize is cast to Arrow's i32 by truncation and
  back by sign extension, as Rust's `as` does.
*/
module Arrow {
  import opened Prelude
  import opened PyroSpec

  // ---------------------------------------------------------------------------
  // Arrow's side
  // ---------------------------------------------------------------------------

  type Int32 = n: int | -0x8000_0000 <= n < 0x8000_0000

  datatype TimeUnit = Second | Millisecond | Microsecond | Nanosecond

  datatype IntervalUnit = YearMonth | DayTime | MonthDayNano

  datatype DataType =
    | ANull
    | ABoolean
    | AInt8 | AInt16 | AInt32 | AInt64
    | AUInt8 | AUInt16 | AUInt32 | AUInt64
    | AFloat16 | AFloat32 | AFloat64
    | AUtf8 | ALargeUtf8
    | ABinary | ALargeBinary | AFixedSizeBinary(width: Int32)
    | ADate32 | ADate64 | ATime32(unit32: TimeUnit) | ATime64(unit64: TimeUnit)
    | ATimestamp(unit: TimeUnit, zone: Option<string>)
    | AInterval(interval: IntervalUnit) | ADuration(duration: TimeUnit)
    | AList(item: Field) | ALargeList(largeItem: Field) | AFixedSizeList(fixedItem: Field, size: Int32)
    | AStruct(fields: seq<Field>)
    | AMap(entries: Field, sorted: bool)
    | ADictionary(keyType: DataType, valueType: DataType)
    | AOther(tag: string)

  datatype Field = Field(name: string, dataType: DataType, nullable: bool)

  datatype Schema = Schema(fields: seq<Field>)

  // ---------------------------------------------------------------------------
  // Casts
  // ---------------------------------------------------------------------------

  /** `n as i32` for a usize. */
  function AsInt32(n: Usize): Int32 {
    var low := n % 0x1_0000_0000;
    if low < 0x8000_0000 then low else low - 0x1_0000_0000
  }

  /** `n as usize` for an i32. */
  function AsUsize(n: Int32): Usize {
    if n >= 0 then n else n + USIZE_LIMIT
  }

  /** What a usize becomes on its way through Arrow. */
  function Squeezed(n: Usize): Usize {
    AsUsize(AsInt32(n))
  }

  lemma CastsUndone(n: Int32)
    ensures AsInt32(AsUsize(n)) == n
  {
  }

  /** A size survives exactly when it fits a non-negative i32 or is a sign-extended negative one. */
  lemma SqueezedIff(n: Usize)
    ensures Squeezed(n) == n <==> Survives(n)
    ensures Squeezed(Squeezed(n)) == Squeezed(n)
  {
    CastsUndone(AsInt32(n));
  }

  // ---------------------------------------------------------------------------
  // The translations
  // ---------------------------------------------------------------------------

  function PrimitiveToArrow(p: Primitive): DataType {
    match p
    case Bool => ABoolean
    case U8 => AUInt8
    case U16 => AUInt16
    case U32 => AUInt32
    case U64 => AUInt64
    case I8 => AInt8
    case I16 => AInt16
    case I32 => AInt32
    case I64 => AInt64
    case F16 => AFloat16
    case F32 => AFloat32
    case F64 => AFloat64
  }

  function PrimitiveFromArrow(d: DataType): Option<Primitive> {
    match d
    case ABoolean => Some(Bool)
    case AUInt8 => Some(U8)
    case AUInt16 => Some(U16)
    case AUInt32 => Some(U32)
    case AUInt64 => Some(U64)
    case AInt8 => Some(I8)
    case AInt16 => Some(I16)
    case AInt32 => Some(I32)
    case AInt64 => Some(I64)
    case AFloat16 => Some(F16)
    case AFloat32 => Some(F32)
    case AFloat64 => Some(F64)
    case _ => None
  }

  /** PyroType::to_arrow */
  function ToArrow(t: PyroType): DataType
    decreases t
  {
    match t
    case Null => ANull
    case Scalar(p) => PrimitiveToArrow(p)
    case Str => AUtf8
    case Timestamp => ATimestamp(Nanosecond, None)
    case PrimitiveList(p) => AList(Field("item", PrimitiveToArrow(p), true))
    case PrimitiveFixedList(p, n) => AFixedSizeList(Field("item", PrimitiveToArrow(p), true), AsInt32(n))
    case List(x, nullable) => AList(Field("item", ToArrow(x), nullable))
    case Group(fs) => AStruct(FieldsToArrow(fs))
    case MapOf(k, v) =>
      AMap(Field("entries", AStruct([Field("key", ToArrow(k), false), Field("value", ToArrow(v), true)]), false), false)
  }

  /** PyroField::to_arrow, over a sequence of fields. */
  function FieldsToArrow(fs: seq<PyroField>): (r: seq<Field>)
    ensures |r| == |fs|
    decreases fs
  {
    if fs == [] then []
    else [Field(fs[0].name, ToArrow(fs[0].dataType), fs[0].nullable)] + FieldsToArrow(fs[1..])
  }

  /** The two list arms of from_arrow that keep no size. */
  function ListFromArrow(item: Field): Option<PyroType>
    decreases item, 1
  {
    var p := PrimitiveFromArrow(item.dataType);
    if p.Some? then Some(PrimitiveList(p.value))
    else
      var x :- FromArrow(item.dataType);
      Some(List(x, item.nullable))
  }

  /** PyroType::from_arrow */
  function FromArrow(d: DataType): Option<PyroType>
    decreases d, 0
  {
    match d
    case ANull => Some(Null)
    case AUtf8 => Some(Str)
    case ALargeUtf8 => Some(Str)
    case AInterval(_) => None
    case ABinary => Some(PrimitiveList(U8))
    case ALargeBinary => Some(PrimitiveList(U8))
    case AFixedSizeBinary(n) => Some(PrimitiveFixedList(U8, AsUsize(n)))
    case ADate32 => Some(Timestamp)
    case ADate64 => Some(Timestamp)
    case ATime32(_) => Some(Timestamp)
    case ATime64(_) => Some(Timestamp)
    case ATimestamp(_, _) => Some(Timestamp)
    case ADuration(_) => None
    case AList(item) => ListFromArrow(item)
    case ALargeList(item) => ListFromArrow(item)
    case AFixedSizeList(item, n) =>
      var p := PrimitiveFromArrow(item.dataType);
      if p.Some? then Some(PrimitiveFixedList(p.value, AsUsize(n)))
      else
        var x :- FromArrow(item.dataType);
        Some(List(x, item.nullable))
    case AStruct(fs) =>
      var fields :- FieldsFromArrow(fs);
      Some(Group(fields))
    case AMap(entries, _) =>
      if entries.dataType.AStruct? && |entries.dataType.fields| == 2 then
        var k :- FromArrow(entries.dataType.fields[0].dataType);
        var v :- FromArrow(entries.dataType.fields[1].dataType);
        Some(MapOf(k, v))
      else None
    case ADictionary(_, v) => FromArrow(v)
    case AOther(_) => None
    case _ =>
      var p :- PrimitiveFromArrow(d);
      Some(Scalar(p))
  }

  /** PyroField::from_arrow, over a sequence of fields; one failure fails all. */
  function FieldsFromArrow(fs: seq<Field>): (r: Option<seq<PyroField>>)
    ensures r.Some? ==> |r.value| == |fs|
    decreases fs, 0
  {
    if fs == [] then Some([])
    else
      var t :- FromArrow(fs[0].dataType);
      var rest :- FieldsFromArrow(fs[1..]);
      Some([NewField(fs[0].name, t, fs[0].nullable)] + rest)
  }

  /** PyroSchema::to_arrow */
  function SchemaToArrow(s: PyroSchema): Schema {
    Schema(FieldsToArrow(s.fields))
  }

  /** PyroSchema::from_arrow */
  function SchemaFromArrow(s: Schema): Option<PyroSchema> {
    var fields :- FieldsFromArrow(s.fields);
    Some(PyroSchema(None, fields))
  }

  // ---------------------------------------------------------------------------
  // What a round trip does
  // ---------------------------------------------------------------------------

  /** A list of scalars becomes a primitive list, documentation goes, sizes pass through `size`. */
  function Norm(squeeze: bool, t: PyroType): PyroType
    decreases t
  {
    match t
    case PrimitiveFixedList(p, n) => PrimitiveFixedList(p, if squeeze then Squeezed(n) else n)
    case List(x, nullable) => if x.Scalar? then PrimitiveList(x.prim) else List(Norm(squeeze, x), nullable)
    case Group(fs) => Group(NormFields(squeeze, fs))
    case MapOf(k, v) => MapOf(Norm(squeeze, k), Norm(squeeze, v))
    case _ => t
  }

  function NormFields(squeeze: bool, fs: seq<PyroField>): (r: seq<PyroField>)
    ensures |r| == |fs|
    decreases fs
  {
    if fs == [] then []
    else [NewField(fs[0].name, Norm(squeeze, fs[0].dataType), fs[0].nullable)] + NormFields(squeeze, fs[1..])
  }

  /** A usize that both casts leave alone. */
  predicate Survives(n: Usize) {
    n < 0x8000_0000 || n >= USIZE_LIMIT - 0x8000_0000
  }

  /** Every fixed-list size in the type survives the casts. */
  predicate SizesFit(t: PyroType)
    decreases t
  {
    match t
    case PrimitiveFixedList(_, n) => Survives(n)
    case List(x, _) => SizesFit(x)
    case Group(fs) => FieldSizesFit(fs)
    case MapOf(k, v) => SizesFit(k) && SizesFit(v)
    case _ => true
  }

  predicate FieldSizesFit(fs: seq<PyroField>)
    decreases fs
  {
    fs == [] || (SizesFit(fs[0].dataType) && FieldSizesFit(fs[1..]))
  }

  lemma PrimitiveRoundTrip(p: Primitive)
    ensures PrimitiveFromArrow(PrimitiveToArrow(p)) == Some(p)
    ensures FromArrow(PrimitiveToArrow(p)) == Some(Scalar(p))
  {
  }

  /** Only a scalar translates to a primitive Arrow type. */
  lemma OnlyScalarsArePrimitive(t: PyroType)
    ensures PrimitiveFromArrow(ToArrow(t)) == if t.Scalar? then Some(t.prim) else None
  {
    if t.Scalar? {
      PrimitiveRoundTrip(t.prim);
    }
  }

  lemma LeafRoundTrip(t: PyroType)
    requires !t.List? && !t.Group? && !t.MapOf?
    ensures FromArrow(ToArrow(t)) == Some(Norm(true, t))
  {
    match t {
      case Scalar(p) => PrimitiveRoundTrip(p);
      case PrimitiveList(p) => PrimitiveRoundTrip(p);
      case PrimitiveFixedList(p, _) => PrimitiveRoundTrip(p);
      case _ =>
    }
  }

  lemma ListRoundTrip(x: PyroType, nullable: bool)
    requires FromArrow(ToArrow(x)) == Some(Norm(true, x))
    ensures FromArrow(ToArrow(List(x, nullable))) == Some(Norm(true, List(x, nullable)))
  {
    OnlyScalarsArePrimitive(x);
  }

  lemma DictRoundTrip(k: PyroType, v: PyroType)
    requires FromArrow(ToArrow(k)) == Some(Norm(true, k))
    requires FromArrow(ToArrow(v)) == Some(Norm(true, v))
    ensures FromArrow(ToArrow(MapOf(k, v))) == Some(Norm(true, MapOf(k, v)))
  {
    hide Norm;
    var kv := [Field("key", ToArrow(k), false), Field("value", ToArrow(v), true)];
    var d := ToArrow(MapOf(k, v));
    assert d == AMap(Field("entries", AStruct(kv), false), false);
    assert FromArrow(d) == Some(MapOf(Norm(true, k), Norm(true, v)));
    NormOfDict(k, v);
  }

  lemma NormOfDict(k: PyroType, v: PyroType)
    ensures Norm(true, MapOf(k, v)) == MapOf(Norm(true, k), Norm(true, v))
  {
  }

  /** Every Pyro type is accepted back, as its normal form with squeezed sizes. */
  lemma {:induction false} RoundTrip(t: PyroType)
    ensures FromArrow(ToArrow(t)) == Some(Norm(true, t))
    decreases t
  {
    match t {
      case List(x, nullable) =>
        RoundTrip(x);
        ListRoundTrip(x, nullable);
      case Group(fs) => FieldsRoundTrip(fs);
      case MapOf(k, v) =>
        RoundTrip(k);
        RoundTrip(v);
        DictRoundTrip(k, v);
      case _ => LeafRoundTrip(t);
    }
  }

  lemma {:induction false} FieldsRoundTrip(fs: seq<PyroField>)
    ensures FieldsFromArrow(FieldsToArrow(fs)) == Some(NormFields(true, fs))
    decreases fs
  {
    if fs != [] {
      RoundTrip(fs[0].dataType);
      FieldsRoundTrip(fs[1..]);
      assert FieldsToArrow(fs)[1..] == FieldsToArrow(fs[1..]);
    }
  }

  lemma {:induction false} FittingSizesKept(t: PyroType)
    ensures Norm(true, t) == Norm(false, t) <==> SizesFit(t)
    decreases t
  {
    match t {
      case PrimitiveFixedList(_, n) => SqueezedIff(n);
      case List(x, _) => FittingSizesKept(x);
      case Group(fs) => FittingFieldsKept(fs);
      case MapOf(k, v) =>
        FittingSizesKept(k);
        FittingSizesKept(v);
      case _ =>
    }
  }

  lemma {:induction false} FittingFieldsKept(fs: seq<PyroField>)
    ensures NormFields(true, fs) == NormFields(false, fs) <==> FieldSizesFit(fs)
    decreases fs
  {
    if fs != [] {
      FittingSizesKept(fs[0].dataType);
      FittingFieldsKept(fs[1..]);
      var kept, squeezed := NormFields(false, fs), NormFields(true, fs);
      assert kept[1..] == NormFields(false, fs[1..]) && squeezed[1..] == NormFields(true, fs[1..]);
      assert kept[0] == squeezed[0] <==> SizesFit(fs[0].dataType);
    }
  }

  /**
    Only list-of-scalar and documentation change exactly when the sizes survive, which holds of
    every size that fits an i32.
  */
  lemma RoundTripKeepsSizesIff(t: PyroType)
    ensures FromArrow(ToArrow(t)) == Some(Norm(false, t)) <==> SizesFit(t)
  {
    RoundTrip(t);
    FittingSizesKept(t);
  }

  lemma {:induction false} NormIdempotent(squeeze: bool, t: PyroType)
    ensures Norm(squeeze, Norm(squeeze, t)) == Norm(squeeze, t)
    ensures Norm(squeeze, t).Scalar? <==> t.Scalar?
    decreases t
  {
    match t {
      case PrimitiveFixedList(_, n) => SqueezedIff(n);
      case List(x, _) => NormIdempotent(squeeze, x);
      case Group(fs) => NormFieldsIdempotent(squeeze, fs);
      case MapOf(k, v) =>
        NormIdempotent(squeeze, k);
        NormIdempotent(squeeze, v);
      case _ =>
    }
  }

  lemma {:induction false} NormFieldsIdempotent(squeeze: bool, fs: seq<PyroField>)
    ensures NormFields(squeeze, NormFields(squeeze, fs)) == NormFields(squeeze, fs)
    decreases fs
  {
    if fs != [] {
      NormIdempotent(squeeze, fs[0].dataType);
      NormFieldsIdempotent(squeeze, fs[1..]);
      assert NormFields(squeeze, fs)[1..] == NormFields(squeeze, fs[1..]);
    }
  }

  /** Arbitrary sizes included, one trip through Arrow is as good as many. */
  lemma RoundTripIdempotent(t: PyroType)
    ensures var once := FromArrow(ToArrow(t));
            once.Some? && FromArrow(ToArrow(once.value)) == once
  {
    RoundTrip(t);
    RoundTrip(Norm(true, t));
    NormIdempotent(true, t);
  }

  /** The same, for schemas; the schema's documentation goes too. */
  lemma SchemaRoundTrip(s: PyroSchema)
    ensures SchemaFromArrow(SchemaToArrow(s)) == Some(PyroSchema(None, NormFields(true, s.fields)))
    ensures SchemaFromArrow(SchemaToArrow(s)) == Some(PyroSchema(None, NormFields(false, s.fields))) <==>
            FieldSizesFit(s.fields)
  {
    FieldsRoundTrip(s.fields);
    FittingFieldsKept(s.fields);
  }

  // ---------------------------------------------------------------------------
  // Types that come from Arrow
  // ---------------------------------------------------------------------------

  /** Dictionaries are transparent: this is what from_arrow finds under them. */
  function Undictionary(d: DataType): DataType {
    if d.ADictionary? then Undictionary(d.valueType) else d
  }

  /** A list element that is a dictionary of primitives, which only the recursive call unwraps. */
  predicate HiddenPrimitive(item: Field) {
    item.dataType.ADictionary? && PrimitiveFromArrow(Undictionary(item.dataType)).Some?
  }

  /** Where from_arrow looks, a list element is a dictionary of primitives. */
  predicate HidesPrimitive(d: DataType)
    decreases d, 0
  {
    match d
    case AList(item) => HiddenPrimitive(item) || HidesPrimitive(item.dataType)
    case ALargeList(item) => HiddenPrimitive(item) || HidesPrimitive(item.dataType)
    case AFixedSizeList(item, _) => HiddenPrimitive(item) || HidesPrimitive(item.dataType)
    case AStruct(fs) => FieldsHidePrimitive(fs)
    case AMap(entries, _) =>
      entries.dataType.AStruct? && |entries.dataType.fields| == 2 &&
      (HidesPrimitive(entries.dataType.fields[0].dataType) || HidesPrimitive(entries.dataType.fields[1].dataType))
    case ADictionary(_, v) => HidesPrimitive(v)
    case _ => false
  }

  predicate FieldsHidePrimitive(fs: seq<Field>)
    decreases fs, 0
  {
    fs != [] && (HidesPrimitive(fs[0].dataType) || FieldsHidePrimitive(fs[1..]))
  }

  lemma {:induction false} ScalarsFromArrow(d: DataType)
    ensures PrimitiveFromArrow(Undictionary(d)).Some? <==> FromArrow(d).Some? && FromArrow(d).value.Scalar?
    ensures PrimitiveFromArrow(d).Some? ==> FromArrow(d) == Some(Scalar(PrimitiveFromArrow(d).value)) && !d.ADictionary?
    decreases d
  {
    if d.ADictionary? {
      ScalarsFromArrow(d.valueType);
    }
  }

  /**
    Sizes read from Arrow, negative ones included, always survive, so a type that came from Arrow
    is changed by a further trip only at a list of scalars; and it has one exactly when the Arrow
    type had a list of dictionary-encoded primitives.
  */
  lemma {:induction false} ArrowTypesStabilise(d: DataType)
    requires FromArrow(d).Some?
    ensures var t := FromArrow(d).value;
            && Norm(true, t) == Norm(false, t)
            && (Norm(false, t) == t <==> !HidesPrimitive(d))
    decreases d, 0
  {
    match d {
      case AFixedSizeBinary(n) => CastsUndone(n);
      case AList(item) => ListsStabilise(item);
      case ALargeList(item) => ListsStabilise(item);
      case AFixedSizeList(item, n) =>
        if PrimitiveFromArrow(item.dataType).Some? {
          CastsUndone(n);
          PrimitivesHideNothing(item.dataType);
        } else {
          ListsStabilise(item);
        }
      case AStruct(fs) => FieldsStabilise(fs);
      case AMap(entries, _) =>
        ArrowTypesStabilise(entries.dataType.fields[0].dataType);
        ArrowTypesStabilise(entries.dataType.fields[1].dataType);
      case ADictionary(_, v) => ArrowTypesStabilise(v);
      case _ =>
    }
  }

  lemma PrimitivesHideNothing(d: DataType)
    requires PrimitiveFromArrow(d).Some?
    ensures !d.ADictionary? && !HidesPrimitive(d)
  {
  }

  lemma {:induction false} ListsStabilise(item: Field)
    requires ListFromArrow(item).Some?
    ensures var t := ListFromArrow(item).value;
            && Norm(true, t) == Norm(false, t)
            && (Norm(false, t) == t <==> !HiddenPrimitive(item) && !HidesPrimitive(item.dataType))
    decreases item, 1
  {
    ScalarsFromArrow(item.dataType);
    if PrimitiveFromArrow(item.dataType).Some? {
      PrimitivesHideNothing(item.dataType);
    } else {
      ArrowTypesStabilise(item.dataType);
      if FromArrow(item.dataType).value.Scalar? {
        assert item.dataType.ADictionary?;
      }
    }
  }

  lemma {:induction false} FieldsStabilise(fs: seq<Field>)
    requires FieldsFromArrow(fs).Some?
    ensures var r := FieldsFromArrow(fs).value;
            && NormFields(true, r) == NormFields(false, r)
            && (NormFields(false, r) == r <==> !FieldsHidePrimitive(fs))
    decreases fs, 0
  {
    if fs != [] {
      ArrowTypesStabilise(fs[0].dataType);
      FieldsStabilise(fs[1..]);
      var r := FieldsFromArrow(fs).value;
      var rest := FieldsFromArrow(fs[1..]).value;
      assert r[1..] == rest;
      assert NormFields(false, r)[1..] == NormFields(false, rest);
      assert NormFields(false, r)[0] == r[0] <==> Norm(false, r[0].dataType) == r[0].dataType;
      if NormFields(false, r) == r {
        assert NormFields(false, rest) == rest;
      }
    }
  }

  /** Every accepted Arrow type is stable after at most one more trip. */
  lemma {:induction false} AcceptedArrowStabilises(d: DataType)
    requires FromArrow(d).Some?
    ensures var t := FromArrow(d).value;
            && FromArrow(ToArrow(t)) == Some(Norm(false, t))
            && (FromArrow(ToArrow(t)) == Some(t) <==> !HidesPrimitive(d))
  {
    RoundTrip(FromArrow(d).value);
    ArrowTypesStabilise(d);
  }

  // ---------------------------------------------------------------------------
  // Types that Arrow carries exactly
  // ---------------------------------------------------------------------------

  /** No list of scalars anywhere: such a list is written as a primitive list instead. */
  predicate ArrowClean(t: PyroType)
    decreases t
  {
    match t
    case List(x, _) => !x.Scalar? && ArrowClean(x)
    case Group(fs) => ArrowCleanFields(fs)
    case MapOf(k, v) => ArrowClean(k) && ArrowClean(v)
    case _ => true
  }

  predicate ArrowCleanFields(fs: seq<PyroField>)
    decreases fs
  {
    fs == [] || (ArrowClean(fs[0].dataType) && ArrowCleanFields(fs[1..]))
  }

  /** The type without its documentation. */
  function WithoutDocs(t: PyroType): PyroType
    decreases t
  {
    match t
    case List(x, nullable) => List(WithoutDocs(x), nullable)
    case Group(fs) => Group(FieldsWithoutDocs(fs))
    case MapOf(k, v) => MapOf(WithoutDocs(k), WithoutDocs(v))
    case _ => t
  }

  function FieldsWithoutDocs(fs: seq<PyroField>): (r: seq<PyroField>)
    ensures |r| == |fs|
    decreases fs
  {
    if fs == [] then []
    else [NewField(fs[0].name, WithoutDocs(fs[0].dataType), fs[0].nullable)] + FieldsWithoutDocs(fs[1..])
  }

  lemma {:induction false} CleanAndFittingIff(t: PyroType)
    ensures Norm(true, t) == WithoutDocs(t) <==> ArrowClean(t) && SizesFit(t)
    decreases t
  {
    match t {
      case PrimitiveFixedList(_, n) => SqueezedIff(n);
      case List(x, _) => CleanAndFittingIff(x);
      case Group(fs) => CleanAndFittingFieldsIff(fs);
      case MapOf(k, v) =>
        CleanAndFittingIff(k);
        CleanAndFittingIff(v);
      case _ =>
    }
  }

  lemma {:induction false} CleanAndFittingFieldsIff(fs: seq<PyroField>)
    ensures NormFields(true, fs) == FieldsWithoutDocs(fs) <==> ArrowCleanFields(fs) && FieldSizesFit(fs)
    decreases fs
  {
    if fs != [] {
      CleanAndFittingIff(fs[0].dataType);
      CleanAndFittingFieldsIff(fs[1..]);
      var kept, bare := NormFields(true, fs), FieldsWithoutDocs(fs);
      assert kept[1..] == NormFields(true, fs[1..]) && bare[1..] == FieldsWithoutDocs(fs[1..]);
      assert kept[0] == bare[0] <==> ArrowClean(fs[0].dataType) && SizesFit(fs[0].dataType);
    }
  }

  /** Exactly the clean types with fitting sizes pass through Arrow unchanged, up to documentation. */
  lemma PassesThroughIff(t: PyroType)
    ensures FromArrow(ToArrow(t)) == Some(WithoutDocs(t)) <==> ArrowClean(t) && SizesFit(t)
  {
    RoundTrip(t);
    CleanAndFittingIff(t);
  }
}
