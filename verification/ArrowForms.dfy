/**
  Which Arrow types are written, and how those are read that never are: stated on Arrow's side, so
  that neither translation can err where the other undoes it.
*/
module ArrowForms {
  import opened Prelude
  import opened PyroSpec
  import opened Arrow

  // ---------------------------------------------------------------------------
  // Primitives
  // ---------------------------------------------------------------------------

  /** Arrow's own reading of its fixed-width types: family and width in bits. */
  function ArrowNumber(d: DataType): Option<(Family, nat)> {
    match d
    case ABoolean => Some((Boolean, 1))
    case AUInt8 => Some((Unsigned, 8)) case AUInt16 => Some((Unsigned, 16))
    case AUInt32 => Some((Unsigned, 32)) case AUInt64 => Some((Unsigned, 64))
    case AInt8 => Some((Signed, 8)) case AInt16 => Some((Signed, 16))
    case AInt32 => Some((Signed, 32)) case AInt64 => Some((Signed, 64))
    case AFloat16 => Some((Float, 16)) case AFloat32 => Some((Float, 32)) case AFloat64 => Some((Float, 64))
    case _ => None
  }

  /** A primitive is written as the Arrow type of its family and width. */
  lemma PrimitivesKeepFamilyAndWidth(p: Primitive)
    ensures ArrowNumber(ToArrow(Scalar(p))) == Some((FamilyOf(p), Width(p)))
  {
    match p {
      case Bool => case U8 => case U16 => case U32 => case U64 =>
      case I8 => case I16 => case I32 => case I64 =>
      case F16 => case F32 => case F64 =>
    }
  }

  /** And it is read from that alone. */
  lemma NumbersReadAsPrimitives(d: DataType)
    requires ArrowNumber(d).Some?
    ensures FromArrow(d).Some? && FromArrow(d).value.Scalar?
    ensures var p := FromArrow(d).value.prim; ArrowNumber(d) == Some((FamilyOf(p), Width(p)))
  {
  }

  // ---------------------------------------------------------------------------
  // What is written
  // ---------------------------------------------------------------------------

  /**
    The Arrow types the translation writes: timestamps in nanoseconds and without a zone; no large,
    binary, date, time or dictionary types; list items called "item", those of fixed lists primitive and
    nullable; maps unsorted, of non-nullable "entries" with a "key" that is not nullable and a "value"
    that is.
  */
  predicate Canonical(d: DataType)
    decreases d, 0
  {
    match d
    case ANull => true
    case AUtf8 => true
    case ATimestamp(unit, zone) => unit == Nanosecond && zone == None
    case AList(item) => item.name == "item" && Canonical(item.dataType)
    case AFixedSizeList(item, _) => item.name == "item" && item.nullable && ArrowNumber(item.dataType).Some?
    case AStruct(fs) => CanonicalFields(fs)
    case AMap(entries, sorted) =>
      && !sorted && entries.name == "entries" && !entries.nullable
      && entries.dataType.AStruct? && |entries.dataType.fields| == 2
      && var (k, v) := (entries.dataType.fields[0], entries.dataType.fields[1]);
         && k.name == "key" && !k.nullable && Canonical(k.dataType)
         && v.name == "value" && v.nullable && Canonical(v.dataType)
    case _ => ArrowNumber(d).Some?
  }

  predicate CanonicalFields(fs: seq<Field>)
    decreases fs, 0
  {
    fs == [] || (Canonical(fs[0].dataType) && CanonicalFields(fs[1..]))
  }

  lemma {:induction false} WritesCanonical(t: PyroType)
    ensures Canonical(ToArrow(t))
    decreases t
  {
    match t {
      case Scalar(p) => PrimitivesKeepFamilyAndWidth(p);
      case PrimitiveList(p) =>
        PrimitivesKeepFamilyAndWidth(p);
        assert Canonical(PrimitiveToArrow(p));
      case PrimitiveFixedList(p, _) => PrimitivesKeepFamilyAndWidth(p);
      case List(x, _) => WritesCanonical(x);
      case Group(fs) => WritesCanonicalFields(fs);
      case MapOf(k, v) =>
        WritesCanonical(k);
        WritesCanonical(v);
        MapIsCanonical(ToArrow(k), ToArrow(v));
      case _ =>
    }
  }

  lemma MapIsCanonical(k: DataType, v: DataType)
    requires Canonical(k) && Canonical(v)
    ensures Canonical(AMap(Field("entries", AStruct([Field("key", k, false), Field("value", v, true)]), false), false))
  {
  }

  lemma {:induction false} WritesCanonicalFields(fs: seq<PyroField>)
    ensures CanonicalFields(FieldsToArrow(fs))
    decreases fs
  {
    if fs != [] {
      WritesCanonical(fs[0].dataType);
      WritesCanonicalFields(fs[1..]);
      assert FieldsToArrow(fs)[1..] == FieldsToArrow(fs[1..]);
    }
  }

  // ---------------------------------------------------------------------------
  // Only that is written
  // ---------------------------------------------------------------------------

  /** The type with the items of primitive lists nullable, which is all that reading forgets of it. */
  function ItemsNullable(d: DataType): DataType
    decreases d, 0
  {
    match d
    case AList(item) =>
      AList(Field(item.name, ItemsNullable(item.dataType), item.nullable || ArrowNumber(item.dataType).Some?))
    case AStruct(fs) => AStruct(FieldItemsNullable(fs))
    case AMap(entries, sorted) =>
      if entries.dataType.AStruct? && |entries.dataType.fields| == 2 then
        var (k, v) := (entries.dataType.fields[0], entries.dataType.fields[1]);
        var kv := [Field(k.name, ItemsNullable(k.dataType), k.nullable),
                   Field(v.name, ItemsNullable(v.dataType), v.nullable)];
        AMap(Field(entries.name, AStruct(kv), entries.nullable), sorted)
      else d
    case _ => d
  }

  function FieldItemsNullable(fs: seq<Field>): (r: seq<Field>)
    ensures |r| == |fs|
    decreases fs, 0
  {
    if fs == [] then []
    else [Field(fs[0].name, ItemsNullable(fs[0].dataType), fs[0].nullable)] + FieldItemsNullable(fs[1..])
  }

  lemma NumbersArePrimitive(d: DataType)
    ensures ArrowNumber(d).Some? <==> PrimitiveFromArrow(d).Some?
    ensures ArrowNumber(d).Some? ==>
              var p := PrimitiveFromArrow(d).value;
              FromArrow(d) == Some(Scalar(p)) && PrimitiveToArrow(p) == d
  {
  }

  /** Every canonical type is read, and writing what was read gives it back up to those items. */
  lemma {:induction false} CanonicalIsWritten(d: DataType)
    requires Canonical(d)
    ensures FromArrow(d).Some? && ToArrow(FromArrow(d).value) == ItemsNullable(d)
    decreases d, 0
  {
    NumbersArePrimitive(d);
    match d {
      case AList(item) =>
        NumbersArePrimitive(item.dataType);
        CanonicalIsWritten(item.dataType);
        CanonicalListIsWritten(item);
      case AFixedSizeList(item, n) =>
        NumbersArePrimitive(item.dataType);
        CastsUndone(n);
      case AStruct(fs) => CanonicalFieldsAreWritten(fs);
      case AMap(entries, sorted) =>
        var (k, v) := (entries.dataType.fields[0], entries.dataType.fields[1]);
        CanonicalIsWritten(k.dataType);
        CanonicalIsWritten(v.dataType);
        CanonicalMapIsWritten(entries);
      case _ =>
    }
  }

  lemma CanonicalListIsWritten(item: Field)
    requires item.name == "item" && FromArrow(item.dataType).Some?
    requires ToArrow(FromArrow(item.dataType).value) == ItemsNullable(item.dataType)
    ensures FromArrow(AList(item)).Some? && ToArrow(FromArrow(AList(item)).value) == ItemsNullable(AList(item))
  {
    hide FromArrow, ItemsNullable, ToArrow;
    NumbersArePrimitive(item.dataType);
    ListIsRead(item);
    ListItemsNullable(item);
    if ArrowNumber(item.dataType).Some? {
      ItemNullabilityIsWritten(Null, true, PrimitiveFromArrow(item.dataType).value);
      NumberItems(item.dataType);
    } else {
      ItemNullabilityIsWritten(FromArrow(item.dataType).value, item.nullable, Bool);
    }
  }

  lemma ListIsRead(item: Field)
    ensures FromArrow(AList(item)) ==
            var p, x := PrimitiveFromArrow(item.dataType), FromArrow(item.dataType);
            if p.Some? then Some(PrimitiveList(p.value))
            else if x.Some? then Some(List(x.value, item.nullable)) else None
  {
  }

  lemma ListItemsNullable(item: Field)
    ensures ItemsNullable(AList(item)) ==
            AList(Field(item.name, ItemsNullable(item.dataType), item.nullable || ArrowNumber(item.dataType).Some?))
  {
  }

  lemma NumberItems(d: DataType)
    requires ArrowNumber(d).Some?
    ensures ItemsNullable(d) == d && ToArrow(Scalar(PrimitiveFromArrow(d).value)) == d
  {
  }

  lemma CanonicalMapIsWritten(entries: Field)
    requires Canonical(AMap(entries, false))
    requires var (k, v) := (entries.dataType.fields[0].dataType, entries.dataType.fields[1].dataType);
             && FromArrow(k).Some? && ToArrow(FromArrow(k).value) == ItemsNullable(k)
             && FromArrow(v).Some? && ToArrow(FromArrow(v).value) == ItemsNullable(v)
    ensures FromArrow(AMap(entries, false)).Some?
    ensures ToArrow(FromArrow(AMap(entries, false)).value) == ItemsNullable(AMap(entries, false))
  {
    var (k, v) := (entries.dataType.fields[0], entries.dataType.fields[1]);
    assert FromArrow(AMap(entries, false)) == Some(MapOf(FromArrow(k.dataType).value, FromArrow(v.dataType).value));
  }

  lemma {:induction false} CanonicalFieldsAreWritten(fs: seq<Field>)
    requires CanonicalFields(fs)
    ensures FieldsFromArrow(fs).Some? && FieldsToArrow(FieldsFromArrow(fs).value) == FieldItemsNullable(fs)
    decreases fs, 0
  {
    if fs != [] {
      CanonicalIsWritten(fs[0].dataType);
      CanonicalFieldsAreWritten(fs[1..]);
      var r := FieldsFromArrow(fs).value;
      assert r[1..] == FieldsFromArrow(fs[1..]).value;
    }
  }

  /**
    So a canonical type that reads back as the round trip of t is what t is written as, up to the items
    of primitive lists; and with those nullable, it is what the round trip is written as.
  */
  lemma CanonicalIsUnique(d: DataType, t: PyroType)
    requires Canonical(d) && FromArrow(d) == Some(Norm(true, t))
    ensures ItemsNullable(d) == ItemsNullable(ToArrow(t)) == ToArrow(Norm(true, t))
  {
    CanonicalIsWritten(d);
    WritesCanonical(t);
    RoundTrip(t);
    CanonicalIsWritten(ToArrow(t));
  }

  /** The items of a list are written as nullable as the list says, scalars included. */
  lemma ItemNullabilityIsWritten(x: PyroType, nullable: bool, p: Primitive)
    ensures ToArrow(List(x, nullable)) == AList(Field("item", ToArrow(x), nullable))
    ensures ToArrow(PrimitiveList(p)) == AList(Field("item", ToArrow(Scalar(p)), true))
    ensures ToArrow(Null) == ANull && ToArrow(Str) == AUtf8
  {
  }

  // ---------------------------------------------------------------------------
  // What is read but never written
  // ---------------------------------------------------------------------------

  /** Binary reads as a list of bytes, whatever the list's item is called. */
  lemma BinaryReadsAsBytes(bytes: Field, n: Int32)
    requires bytes.dataType == AUInt8
    ensures FromArrow(ABinary) == FromArrow(ALargeBinary) == FromArrow(AList(bytes))
    ensures FromArrow(AFixedSizeBinary(n)) == FromArrow(AFixedSizeList(bytes, n))
  {
  }

  /** Dates and times read as timestamps, of any unit and zone. */
  lemma TimesReadAsTimestamps(unit: TimeUnit, zone: Option<string>)
    ensures forall d :: d in [ADate32, ADate64, ATime32(unit), ATime64(unit), ATimestamp(unit, zone)] ==>
                          FromArrow(d) == FromArrow(ATimestamp(Nanosecond, None)) == Some(Timestamp)
  {
  }

  /** Large types read as their small ones, fixed lists of anything but primitives lose their size. */
  lemma LargeReadsAsSmall(item: Field, n: Int32)
    ensures FromArrow(ALargeUtf8) == FromArrow(AUtf8)
    ensures FromArrow(ALargeList(item)) == FromArrow(AList(item))
    ensures ArrowNumber(item.dataType).None? ==> FromArrow(AFixedSizeList(item, n)) == FromArrow(AList(item))
  {
    NumbersArePrimitive(item.dataType);
  }

  /** Dictionaries read as their values, and a map's order is forgotten. */
  lemma WrappersAreTransparent(keys: DataType, values: DataType, entries: Field, sorted: bool)
    ensures FromArrow(ADictionary(keys, values)) == FromArrow(values)
    ensures FromArrow(AMap(entries, sorted)) == FromArrow(AMap(entries, false))
  {
  }

  /** The types from_arrow has no arm for, anywhere inside. */
  predicate Readable(d: DataType)
    decreases d, 0
  {
    match d
    case AInterval(_) => false
    case ADuration(_) => false
    case AOther(_) => false
    case AList(item) => Readable(item.dataType)
    case ALargeList(item) => Readable(item.dataType)
    case AFixedSizeList(item, _) => Readable(item.dataType)
    case AStruct(fs) => ReadableFields(fs)
    case AMap(entries, _) =>
      && entries.dataType.AStruct? && |entries.dataType.fields| == 2
      && Readable(entries.dataType.fields[0].dataType) && Readable(entries.dataType.fields[1].dataType)
    case ADictionary(_, v) => Readable(v)
    case _ => true
  }

  predicate ReadableFields(fs: seq<Field>)
    decreases fs, 0
  {
    fs == [] || (Readable(fs[0].dataType) && ReadableFields(fs[1..]))
  }

  /** Reading fails exactly on intervals, durations, unknown types and maps that are not of pairs. */
  lemma {:induction false} ReadableIff(d: DataType)
    ensures FromArrow(d).Some? <==> Readable(d)
    decreases d, 0
  {
    NumbersArePrimitive(d);
    match d {
      case AList(item) =>
        NumbersArePrimitive(item.dataType);
        ReadableIff(item.dataType);
      case ALargeList(item) =>
        NumbersArePrimitive(item.dataType);
        ReadableIff(item.dataType);
      case AFixedSizeList(item, _) =>
        NumbersArePrimitive(item.dataType);
        ReadableIff(item.dataType);
      case AStruct(fs) => ReadableFieldsIff(fs);
      case AMap(entries, _) =>
        if entries.dataType.AStruct? && |entries.dataType.fields| == 2 {
          ReadableIff(entries.dataType.fields[0].dataType);
          ReadableIff(entries.dataType.fields[1].dataType);
        }
      case ADictionary(_, v) => ReadableIff(v);
      case _ =>
    }
  }

  lemma {:induction false} ReadableFieldsIff(fs: seq<Field>)
    ensures FieldsFromArrow(fs).Some? <==> ReadableFields(fs)
    decreases fs, 0
  {
    if fs != [] {
      ReadableIff(fs[0].dataType);
      ReadableFieldsIff(fs[1..]);
    }
  }
}
