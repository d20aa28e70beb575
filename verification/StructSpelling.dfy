/**
  What the resolver makes of each form of type as it is written: stated on the spelling, for every
  registry and stack.
*/
module StructSpelling {
  import opened Prelude
  import opened Decimal
  import opened PyroSpec
  import opened StructDoc

  /** A path that ends in this segment; only the end is looked at. */
  function PathTo(prefix: seq<Segment>, ident: string, arguments: PathArguments): SynType {
    Path(prefix + [Segment(ident, arguments)])
  }

  /** A path that ends in a name with these type arguments. */
  function Generic(prefix: seq<Segment>, ident: string, tys: seq<SynType>): SynType {
    PathTo(prefix, ident, AngleBracketed(seq(|tys|, i requires 0 <= i < |tys| => TypeArgument(tys[i]))))
  }

  // ---------------------------------------------------------------------------
  // Names with a fixed meaning
  // ---------------------------------------------------------------------------

  /** Rust's name of a primitive type: its family's letter and its width in decimal. */
  function Spelled(p: Primitive): string {
    match FamilyOf(p)
    case Boolean => "bool"
    case Unsigned => "u" + Numeral(Width(p))
    case Signed => "i" + Numeral(Width(p))
    case Float => "f" + Numeral(Width(p))
  }

  lemma WidthsSpelled()
    ensures Numeral(8) == "8" && Numeral(16) == "16" && Numeral(32) == "32" && Numeral(64) == "64"
  {
    assert Numeral(1) == "1" && Numeral(3) == "3" && Numeral(6) == "6";
  }

  lemma PrimitiveNames()
    ensures Spelled(Bool) == "bool"
    ensures Spelled(U8) == "u8" && Spelled(U16) == "u16" && Spelled(U32) == "u32" && Spelled(U64) == "u64"
    ensures Spelled(I8) == "i8" && Spelled(I16) == "i16" && Spelled(I32) == "i32" && Spelled(I64) == "i64"
    ensures Spelled(F16) == "f16" && Spelled(F32) == "f32" && Spelled(F64) == "f64"
  {
    WidthsSpelled();
  }

  lemma PrimitivesSpelled(p: Primitive)
    ensures Builtin(Spelled(p)) == Some(Scalar(p))
  {
    hide Spelled;
    PrimitiveNames();
    match p {
      case Bool => case U8 => case U16 => case U32 => case U64 =>
      case I8 => case I16 => case I32 => case I64 =>
      case F16 => case F32 => case F64 =>
    }
  }

  /** Primitives, strings, bytes and date-times, whatever is registered and whatever arguments follow. */
  lemma FixedNames(reg: Registry, visited: seq<string>, prefix: seq<Segment>, arguments: PathArguments)
    ensures forall p :: Resolve(reg, PathTo(prefix, Spelled(p), arguments), visited) == Scalar(p)
    ensures Resolve(reg, PathTo(prefix, "String", arguments), visited) == Str
    ensures Resolve(reg, PathTo(prefix, "str", arguments), visited) == Str
    ensures Resolve(reg, PathTo(prefix, "Bytes", arguments), visited) == PrimitiveList(U8)
    ensures Resolve(reg, PathTo(prefix, "DateTime", arguments), visited) == Timestamp
  {
    hide Spelled, Resolve;
    forall p ensures Resolve(reg, PathTo(prefix, Spelled(p), arguments), visited) == Scalar(p) {
      PrimitiveResolves(reg, visited, prefix, arguments, p);
    }
    OtherNamesResolve(reg, visited, prefix, "String", arguments, Str);
    OtherNamesResolve(reg, visited, prefix, "str", arguments, Str);
    OtherNamesResolve(reg, visited, prefix, "Bytes", arguments, PrimitiveList(U8));
    OtherNamesResolve(reg, visited, prefix, "DateTime", arguments, Timestamp);
  }

  lemma OtherNamesResolve(reg: Registry, visited: seq<string>, prefix: seq<Segment>, name: string,
                          arguments: PathArguments, t: PyroType)
    requires Builtin(name) == Some(t)
    ensures Resolve(reg, PathTo(prefix, name, arguments), visited) == t
  {
    hide Builtin;
    var ty := PathTo(prefix, name, arguments);
    assert ty.segments[|ty.segments| - 1] == Segment(name, arguments);
  }

  lemma PrimitiveResolves(reg: Registry, visited: seq<string>, prefix: seq<Segment>, arguments: PathArguments,
                          p: Primitive)
    ensures Resolve(reg, PathTo(prefix, Spelled(p), arguments), visited) == Scalar(p)
  {
    hide Spelled, Builtin;
    PrimitivesSpelled(p);
    var ty := PathTo(prefix, Spelled(p), arguments);
    assert ty.segments[|ty.segments| - 1] == Segment(Spelled(p), arguments);
  }

  // ---------------------------------------------------------------------------
  // Generic types
  // ---------------------------------------------------------------------------

  /** A list is of non-nullable elements, and flat if they are primitive. */
  lemma ListsAndOptions(reg: Registry, visited: seq<string>, prefix: seq<Segment>, ty: SynType, more: seq<SynType>)
    ensures var t := Resolve(reg, ty, visited);
            && Resolve(reg, Generic(prefix, "Vec", [ty] + more), visited)
               == (match t case Scalar(p) => PrimitiveList(p) case _ => List(t, false))
            && Resolve(reg, Generic(prefix, "Option", [ty] + more), visited) == t
            && Resolve(reg, Reference(ty), visited) == t
  {
    var args := seq(|[ty] + more|, i requires 0 <= i < |[ty] + more| => TypeArgument(([ty] + more)[i]));
    assert SingleArgument(Segment("Vec", AngleBracketed(args))) == Some(ty);
    assert SingleArgument(Segment("Option", AngleBracketed(args))) == Some(ty);
  }

  /** Maps take both arguments, results the first. */
  lemma MapsAndResults(reg: Registry, visited: seq<string>, prefix: seq<Segment>, a: SynType, b: SynType,
                       more: seq<SynType>)
    ensures var (ta, tb) := (Resolve(reg, a, visited), Resolve(reg, b, visited));
            && Resolve(reg, Generic(prefix, "HashMap", [a, b] + more), visited) == MapOf(ta, tb)
            && Resolve(reg, Generic(prefix, "BTreeMap", [a, b] + more), visited) == MapOf(ta, tb)
            && Resolve(reg, Generic(prefix, "Result", [a, b] + more), visited) == ta
  {
    hide Resolve;
    MapResolves(reg, visited, prefix, "HashMap", a, b, more);
    MapResolves(reg, visited, prefix, "BTreeMap", a, b, more);
    ResultResolves(reg, visited, prefix, a, b, more);
  }

  /** The last segment of such a type, and its first two arguments. */
  lemma GenericParts(prefix: seq<Segment>, name: string, a: SynType, b: SynType, more: seq<SynType>)
    ensures var ty := Generic(prefix, name, [a, b] + more);
            && ty.Path? && ty.segments != []
            && var s := ty.segments[|ty.segments| - 1];
               s.ident == name && TwoArguments(s) == Some((a, b))
  {
  }

  lemma MapResolves(reg: Registry, visited: seq<string>, prefix: seq<Segment>, name: string, a: SynType, b: SynType,
                    more: seq<SynType>)
    requires name == "HashMap" || name == "BTreeMap"
    ensures Resolve(reg, Generic(prefix, name, [a, b] + more), visited)
            == MapOf(Resolve(reg, a, visited), Resolve(reg, b, visited))
  {
    hide Generic, TwoArguments;
    GenericParts(prefix, name, a, b, more);
  }

  lemma ResultResolves(reg: Registry, visited: seq<string>, prefix: seq<Segment>, a: SynType, b: SynType,
                       more: seq<SynType>)
    ensures Resolve(reg, Generic(prefix, "Result", [a, b] + more), visited) == Resolve(reg, a, visited)
  {
    hide Generic, TwoArguments;
    GenericParts(prefix, "Result", a, b, more);
  }

  /** Without the arguments they need, and for anything that is no path or reference, there is nothing. */
  lemma NothingToResolve(reg: Registry, visited: seq<string>, prefix: seq<Segment>, ty: SynType, tys: seq<SynType>)
    ensures forall name :: name in {"Vec", "Option", "HashMap", "BTreeMap", "Result"} ==>
              Resolve(reg, PathTo(prefix, name, NoArguments), visited) == Null
    ensures forall name :: name in {"HashMap", "BTreeMap", "Result"} ==>
              Resolve(reg, Generic(prefix, name, [ty]), visited) == Null
    ensures Resolve(reg, Path([]), visited) == Null
    ensures Resolve(reg, Tuple(tys), visited) == Null && Resolve(reg, OtherSyntax, visited) == Null
  {
    forall name | name in {"Vec", "Option", "HashMap", "BTreeMap", "Result"}
      ensures Resolve(reg, PathTo(prefix, name, NoArguments), visited) == Null
    {
      var s := Segment(name, NoArguments);
      assert SingleArgument(s) == None && TwoArguments(s) == None && Builtin(name) == None;
    }
    forall name | name in {"HashMap", "BTreeMap", "Result"}
      ensures Resolve(reg, Generic(prefix, name, [ty]), visited) == Null
    {
      var s := Segment(name, AngleBracketed(seq(1, i requires 0 <= i < 1 => TypeArgument([ty][i]))));
      assert TwoArguments(s) == None && Builtin(name) == None;
    }
  }

  // ---------------------------------------------------------------------------
  // Structs
  // ---------------------------------------------------------------------------

  /** A name that is no primitive's and none of the others with a meaning of their own. */
  predicate Ordinary(ident: string) {
    && (forall p :: ident != Spelled(p))
    && ident !in {"String", "str", "Bytes", "DateTime", "Vec", "Option", "HashMap", "BTreeMap", "Result"}
  }

  lemma OrdinaryHasNoMeaning(ident: string)
    requires Ordinary(ident)
    ensures Builtin(ident) == None
  {
    hide Spelled;
    PrimitiveNames();
    assert ident != Spelled(Bool) && ident != Spelled(U8) && ident != Spelled(U16) && ident != Spelled(U32);
    assert ident != Spelled(U64) && ident != Spelled(I8) && ident != Spelled(I16) && ident != Spelled(I32);
    assert ident != Spelled(I64) && ident != Spelled(F16) && ident != Spelled(F32) && ident != Spelled(F64);
  }

  /** What a struct of this name is: itself if registered, or its base if it is called as a reference type. */
  predicate Names(reg: Registry, ident: string, name: string) {
    && name in reg.structs
    && (ident == name || (ident == name + "Ref" && ident !in reg.structs))
  }

  lemma NamesIsRegistered(reg: Registry, ident: string, name: string)
    ensures Names(reg, ident, name) <==> Registered(reg, ident) == Some(name)
  {
    if ident == name + "Ref" {
      assert ident[|ident| - 3..] == "Ref" && ident[..|ident| - 3] == name;
    }
    if |ident| >= 3 && ident[|ident| - 3..] == "Ref" {
      assert ident == ident[..|ident| - 3] + "Ref";
    }
  }

  lemma StructResolves(reg: Registry, visited: seq<string>, prefix: seq<Segment>, ident: string,
                       arguments: PathArguments, name: string)
    requires Ordinary(ident) && Names(reg, ident, name)
    ensures Resolve(reg, PathTo(prefix, ident, arguments), visited) ==
            if name in visited then Group([])
            else Group(ResolveFields(reg, reg.structs[name].fields, visited + [name]))
  {
    hide Builtin, Registered, Names, ResolveFields;
    OrdinaryHasNoMeaning(ident);
    NamesIsRegistered(reg, ident, name);
    var ty := PathTo(prefix, ident, arguments);
    assert ty.segments[|ty.segments| - 1] == Segment(ident, arguments);
  }

  /**
    A registered struct becomes a group of its fields in order, each with its name and documentation, its
    type resolved one level deeper, and nullable exactly if it is written as an Option. On the stack
    already, it becomes an empty group.
  */
  lemma StructsUnfold(reg: Registry, visited: seq<string>, prefix: seq<Segment>, ident: string,
                      arguments: PathArguments, name: string)
    requires Ordinary(ident) && Names(reg, ident, name)
    ensures var t := Resolve(reg, PathTo(prefix, ident, arguments), visited);
            && t.Group?
            && (name in visited ==> t.fields == [])
            && (name !in visited ==>
                  var fields := reg.structs[name].fields;
                  && |t.fields| == |fields|
                  && forall i :: 0 <= i < |fields| ==> t.fields[i] == UnfoldedField(reg, visited + [name], fields[i]))
  {
    hide Resolve, ResolveFields, Ordinary;
    StructResolves(reg, visited, prefix, ident, arguments, name);
    if name !in visited {
      var fields := reg.structs[name].fields;
      forall i | 0 <= i < |fields|
        ensures ResolveFields(reg, fields, visited + [name])[i] == UnfoldedField(reg, visited + [name], fields[i])
      {
        FieldAt(reg, fields, visited + [name], i);
      }
    }
  }

  function UnfoldedField(reg: Registry, visited: seq<string>, f: FieldEntry): PyroField {
    PyroField(f.name, f.doc, Resolve(reg, f.ty, visited), WrittenAsOption(f.ty))
  }

  /** The type's last segment is called Option; a reference to an option is not. */
  predicate WrittenAsOption(ty: SynType) {
    match ty
    case Path(segments) => segments != [] && segments[|segments| - 1].ident == "Option"
    case _ => false
  }

  lemma {:induction false} FieldAt(reg: Registry, fields: seq<FieldEntry>, visited: seq<string>, i: nat)
    requires i < |fields|
    ensures ResolveFields(reg, fields, visited)[i] == UnfoldedField(reg, visited, fields[i])
    decreases |fields|
  {
    if i > 0 {
      FieldAt(reg, fields[1..], visited, i - 1);
      assert fields[1..][i - 1] == fields[i];
    }
  }

  /** Any other name is looked up among the foreign structs without its "Ref", and is empty if unknown. */
  lemma OthersAreForeign(reg: Registry, visited: seq<string>, prefix: seq<Segment>, base: string,
                         arguments: PathArguments)
    requires !(base + "Ref" in reg.structs) && base !in reg.structs
    ensures Ordinary(base + "Ref") ==>
              Resolve(reg, PathTo(prefix, base + "Ref", arguments), visited)
              == Group(if base in reg.foreign then reg.foreign[base].fields else [])
    ensures Ordinary(base) && !EndsWithRef(base) ==>
              Resolve(reg, PathTo(prefix, base, arguments), visited)
              == Group(if base in reg.foreign then reg.foreign[base].fields else [])
  {
    var longer := base + "Ref";
    assert longer[|longer| - 3..] == "Ref" && longer[..|longer| - 3] == base;
    if Ordinary(longer) {
      OrdinaryHasNoMeaning(longer);
    }
    if Ordinary(base) && !EndsWithRef(base) {
      OrdinaryHasNoMeaning(base);
    }
  }

  predicate EndsWithRef(ident: string) {
    |ident| >= 3 && ident[|ident| - 3..] == "Ref"
  }
}
