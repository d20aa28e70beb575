/**
  The struct registry and its resolver (lib/pyro-macro/src/struct_doc.rs): syntax types become Pyro
  types, with user structs unfolded in place. Struct definitions may be cyclic; the stack `visited`
  of names being unfolded cuts the cycle.
*/
module StructDoc {
  import opened Prelude
  import opened PyroSpec
  import opened Arrow

  // ---------------------------------------------------------------------------
  // Syntax and registry
  // ---------------------------------------------------------------------------

  datatype SynType =
    | Path(segments: seq<Segment>)
    | Reference(referent: SynType)
    | Tuple(elems: seq<SynType>)
    | OtherSyntax

  datatype Segment = Segment(ident: string, arguments: PathArguments)

  datatype PathArguments = NoArguments | AngleBracketed(args: seq<GenericArgument>) | Parenthesized

  datatype GenericArgument = TypeArgument(ty: SynType) | OtherArgument

  datatype FieldEntry = FieldEntry(name: string, ty: SynType, doc: Option<string>)

  datatype StructEntry = StructEntry(doc: Option<string>, fields: seq<FieldEntry>)

  datatype Registry = Registry(structs: map<string, StructEntry>, foreign: map<string, PyroSchema>)

  datatype InterfaceSpec = InterfaceSpec(structs: map<string, PyroSchema>)

  /** extract_single_generic_arg */
  function SingleArgument(s: Segment): (r: Option<SynType>)
    ensures r.Some? ==> r.value < s
  {
    if s.arguments.AngleBracketed? && s.arguments.args != [] && s.arguments.args[0].TypeArgument?
    then Some(s.arguments.args[0].ty) else None
  }

  /** extract_two_generic_args */
  function TwoArguments(s: Segment): (r: Option<(SynType, SynType)>)
    ensures r.Some? ==> r.value.0 < s && r.value.1 < s
  {
    if s.arguments.AngleBracketed? && |s.arguments.args| >= 2 &&
       s.arguments.args[0].TypeArgument? && s.arguments.args[1].TypeArgument?
    then Some((s.arguments.args[0].ty, s.arguments.args[1].ty)) else None
  }

  /** is_option_type */
  predicate IsOption(ty: SynType) {
    ty.Path? && ty.segments != [] && ty.segments[|ty.segments| - 1].ident == "Option"
  }

  /** The identifiers that stand for a fixed type. */
  function Builtin(ident: string): Option<PyroType> {
    if ident == "bool" then Some(Scalar(Bool))
    else if ident == "u8" then Some(Scalar(U8))
    else if ident == "u16" then Some(Scalar(U16))
    else if ident == "u32" then Some(Scalar(U32))
    else if ident == "u64" then Some(Scalar(U64))
    else if ident == "i8" then Some(Scalar(I8))
    else if ident == "i16" then Some(Scalar(I16))
    else if ident == "i32" then Some(Scalar(I32))
    else if ident == "i64" then Some(Scalar(I64))
    else if ident == "f16" then Some(Scalar(F16))
    else if ident == "f32" then Some(Scalar(F32))
    else if ident == "f64" then Some(Scalar(F64))
    else if ident == "String" || ident == "str" then Some(Str)
    else if ident == "Bytes" then Some(PrimitiveList(U8))
    else if ident == "DateTime" then Some(Timestamp)
    else None
  }

  /** The name without a trailing "Ref", if it has one. */
  function BaseName(ident: string): string {
    if |ident| >= 3 && ident[|ident| - 3..] == "Ref" then ident[..|ident| - 3] else ident
  }

  /** The registered struct a name refers to: itself, or its base if it ends in "Ref". */
  function Registered(reg: Registry, ident: string): (r: Option<string>)
    ensures r.Some? ==> r.value in reg.structs
  {
    if ident in reg.structs then Some(ident)
    else if BaseName(ident) in reg.structs then Some(BaseName(ident))
    else None
  }

  function Foreign(reg: Registry, ident: string): PyroType {
    if BaseName(ident) in reg.foreign then Group(reg.foreign[BaseName(ident)].fields) else Group([])
  }

  /** What Vec makes of its element type. */
  function VecOf(elem: PyroType): PyroType {
    if elem.Scalar? then PrimitiveList(elem.prim) else List(elem, false)
  }

  /** Registered names not being unfolded. */
  function Unvisited(reg: Registry, visited: seq<string>): set<string> {
    set k | k in reg.structs && k !in visited
  }

  lemma UnvisitedShrinks(reg: Registry, visited: seq<string>, name: string)
    requires name in reg.structs && name !in visited
    ensures |Unvisited(reg, visited + [name])| < |Unvisited(reg, visited)|
  {
    assert Unvisited(reg, visited + [name]) == Unvisited(reg, visited) - {name};
    assert name in Unvisited(reg, visited);
  }

  // ---------------------------------------------------------------------------
  // Resolution
  // ---------------------------------------------------------------------------

  /** resolve_type_inner; it terminates on every registry, cyclic ones included. */
  function Resolve(reg: Registry, ty: SynType, visited: seq<string>): PyroType
    decreases |Unvisited(reg, visited)|, ty, 0
  {
    match ty
    case Reference(t) => Resolve(reg, t, visited)
    case Tuple(_) => Null
    case OtherSyntax => Null
    case Path(segments) =>
      if segments == [] then Null
      else
        var s := segments[|segments| - 1];
        var builtin := Builtin(s.ident);
        if builtin.Some? then builtin.value
        else if s.ident == "Option" then
          var inner := SingleArgument(s);
          if inner.Some? then Resolve(reg, inner.value, visited) else Null
        else if s.ident == "Vec" then
          var inner := SingleArgument(s);
          if inner.Some? then VecOf(Resolve(reg, inner.value, visited)) else Null
        else if s.ident == "HashMap" || s.ident == "BTreeMap" then
          var kv := TwoArguments(s);
          if kv.Some? then MapOf(Resolve(reg, kv.value.0, visited), Resolve(reg, kv.value.1, visited)) else Null
        else if s.ident == "Result" then
          var oe := TwoArguments(s);
          if oe.Some? then Resolve(reg, oe.value.0, visited) else Null
        else
          var name := Registered(reg, s.ident);
          if name.None? then Foreign(reg, s.ident)
          else if name.value in visited then Group([])
          else
            UnvisitedShrinks(reg, visited, name.value);
            Group(ResolveFields(reg, reg.structs[name.value].fields, visited + [name.value]))
  }

  /** resolve_fields_inner */
  function ResolveFields(reg: Registry, fields: seq<FieldEntry>, visited: seq<string>): (r: seq<PyroField>)
    ensures |r| == |fields|
    ensures forall i :: 0 <= i < |fields| ==> r[i].name == fields[i].name
    decreases |Unvisited(reg, visited)|, fields, 0
  {
    if fields == [] then []
    else
      var f := fields[0];
      [PyroField(f.name, f.doc, Resolve(reg, f.ty, visited), IsOption(f.ty))] + ResolveFields(reg, fields[1..], visited)
  }

  lemma FieldsTurn(reg: Registry, fields: seq<FieldEntry>, visited: seq<string>, i: nat)
    requires i < |fields|
    ensures var f := fields[i];
            ResolveFields(reg, fields[i..], visited) ==
            [PyroField(f.name, f.doc, Resolve(reg, f.ty, visited), IsOption(f.ty))]
            + ResolveFields(reg, fields[i + 1..], visited)
  {
    hide Resolve;
    assert fields[i..][0] == fields[i] && fields[i..][1..] == fields[i + 1..];
  }

  /** The stack of struct names being unfolded: the source's `&mut Vec<String>`. */
  class Visited {
    var names: seq<string>

    constructor ()
      ensures names == []
    {
      names := [];
    }
  }

  class SchemaBuilder {
    const structs: map<string, StructEntry>
    var foreignStructs: map<string, PyroSchema>

    constructor (structs: map<string, StructEntry>)
      ensures this.structs == structs && foreignStructs == map[]
    {
      this.structs := structs;
      this.foreignStructs := map[];
    }

    function Known(): Registry
      reads this
    {
      Registry(structs, foreignStructs)
    }

    /** with_foreign_specs: later specs overwrite earlier ones, name by name. */
    method WithForeignSpecs(specs: seq<InterfaceSpec>)
      modifies this
      ensures foreignStructs == Overlaid(old(foreignStructs), specs)
    {
      var i := 0;
      assert specs[..|specs|] == specs;
      while i < |specs|
        invariant 0 <= i <= |specs|
        invariant foreignStructs == Overlaid(old(foreignStructs), specs[..i])
      {
        assert specs[..i + 1][..i] == specs[..i];
        InsertAll(specs[i].structs);
        i := i + 1;
      }
    }

    /** The inner loop of with_foreign_specs. */
    method InsertAll(more: map<string, PyroSchema>)
      modifies this
      ensures foreignStructs == old(foreignStructs) + more
    {
      var left := more.Keys;
      while left != {}
        invariant left <= more.Keys
        invariant foreignStructs == old(foreignStructs) + Without(more, left)
        decreases |left|
      {
        var name := LeastKey(left);
        assert Without(more, left - {name}) == Without(more, left)[name := more[name]];
        foreignStructs := foreignStructs[name := more[name]];
        left := left - {name};
      }
      assert Without(more, left) == more;
    }

    /** resolve_type_inner as the source runs it, pushing and popping the stack. */
    method ResolveTypeInner(ty: SynType, visited: Visited) returns (t: PyroType)
      modifies visited
      ensures visited.names == old(visited.names)
      ensures t == Resolve(Known(), ty, visited.names)
      decreases |Unvisited(Known(), visited.names)|, ty, 0
    {
      match ty {
        case Reference(inner) => t := ResolveTypeInner(inner, visited);
        case Tuple(_) => t := Null;
        case OtherSyntax => t := Null;
        case Path(segments) =>
          if segments == [] {
            return Null;
          }
          var s := segments[|segments| - 1];
          var builtin := Builtin(s.ident);
          if builtin.Some? {
            t := builtin.value;
          } else if s.ident == "Option" {
            var inner := SingleArgument(s);
            if inner.None? {
              return Null;
            }
            t := ResolveTypeInner(inner.value, visited);
          } else if s.ident == "Vec" {
            var inner := SingleArgument(s);
            if inner.None? {
              return Null;
            }
            var elem := ResolveTypeInner(inner.value, visited);
            t := VecOf(elem);
          } else if s.ident == "HashMap" || s.ident == "BTreeMap" {
            var kv := TwoArguments(s);
            if kv.None? {
              return Null;
            }
            var k := ResolveTypeInner(kv.value.0, visited);
            var v := ResolveTypeInner(kv.value.1, visited);
            t := MapOf(k, v);
          } else if s.ident == "Result" {
            var oe := TwoArguments(s);
            if oe.None? {
              return Null;
            }
            t := ResolveTypeInner(oe.value.0, visited);
          } else {
            var name := Registered(Known(), s.ident);
            if name.None? {
              t := Foreign(Known(), s.ident);
            } else if name.value in visited.names {
              t := Group([]);
            } else {
              UnvisitedShrinks(Known(), visited.names, name.value);
              visited.names := visited.names + [name.value];
              var fields := ResolveFieldsInner(structs[name.value].fields, visited);
              visited.names := visited.names[..|visited.names| - 1];
              t := Group(fields);
            }
          }
      }
    }

    /** resolve_fields_inner */
    method ResolveFieldsInner(fields: seq<FieldEntry>, visited: Visited) returns (r: seq<PyroField>)
      modifies visited
      ensures visited.names == old(visited.names)
      ensures r == ResolveFields(Known(), fields, visited.names)
      decreases |Unvisited(Known(), visited.names)|, fields, 0
    {
      hide Resolve, ResolveFields, Unvisited;
      ghost var reg, stack := Known(), visited.names;
      r := [];
      var i := 0;
      assert fields[0..] == fields;
      while i < |fields|
        invariant 0 <= i <= |fields|
        invariant visited.names == stack
        invariant ResolveFields(reg, fields, stack) == r + ResolveFields(reg, fields[i..], stack)
      {
        var f := fields[i];
        FieldsTurn(reg, fields, stack, i);
        var t := ResolveTypeInner(f.ty, visited);
        r := r + [PyroField(f.name, f.doc, t, IsOption(f.ty))];
        i := i + 1;
      }
      assert ResolveFields(reg, fields[i..], stack) == [];
    }

    /** schema_for: the struct asked for is not itself on the stack. */
    method SchemaFor(name: string) returns (r: Option<PyroSchema>)
      ensures r == if name !in structs then None
                   else Some(PyroSchema(structs[name].doc, ResolveFields(Known(), structs[name].fields, [])))
    {
      if name !in structs {
        return None;
      }
      var visited := new Visited();
      var fields := ResolveFieldsInner(structs[name].fields, visited);
      r := Some(PyroSchema(structs[name].doc, fields));
    }
  }

  function Without(m: map<string, PyroSchema>, names: set<string>): map<string, PyroSchema> {
    map n | n in m && n !in names :: m[n]
  }

  /** What a run of with_foreign_specs leaves registered. */
  function Overlaid(m: map<string, PyroSchema>, specs: seq<InterfaceSpec>): map<string, PyroSchema> {
    if specs == [] then m else Overlaid(m, specs[..|specs| - 1]) + specs[|specs| - 1].structs
  }

  /** The schema in force for a name is the one given by the last spec that defines it. */
  lemma {:induction false} LastSpecWins(m: map<string, PyroSchema>, specs: seq<InterfaceSpec>, name: string, i: nat)
    requires i < |specs| && name in specs[i].structs
    requires forall j :: i < j < |specs| ==> name !in specs[j].structs
    ensures name in Overlaid(m, specs) && Overlaid(m, specs)[name] == specs[i].structs[name]
  {
    var last := |specs| - 1;
    if i < last {
      assert specs[..last][i] == specs[i];
      LastSpecWins(m, specs[..last], name, i);
    }
  }

  // ---------------------------------------------------------------------------
  // Acyclic registries: resolution is plain unfolding
  // ---------------------------------------------------------------------------

  /** The registered structs a type leads to directly, where the resolver looks. */
  function Mentions(reg: Registry, ty: SynType): set<string>
    decreases ty
  {
    match ty
    case Reference(t) => Mentions(reg, t)
    case Tuple(_) => {}
    case OtherSyntax => {}
    case Path(segments) =>
      if segments == [] then {}
      else
        var s := segments[|segments| - 1];
        if Builtin(s.ident).Some? then {}
        else if s.ident == "Option" || s.ident == "Vec" then
          var inner := SingleArgument(s);
          if inner.Some? then Mentions(reg, inner.value) else {}
        else if s.ident == "HashMap" || s.ident == "BTreeMap" then
          var kv := TwoArguments(s);
          if kv.Some? then Mentions(reg, kv.value.0) + Mentions(reg, kv.value.1) else {}
        else if s.ident == "Result" then
          var oe := TwoArguments(s);
          if oe.Some? then Mentions(reg, oe.value.0) else {}
        else
          var name := Registered(reg, s.ident);
          if name.Some? then {name.value} else {}
  }

  /** Struct definitions only lead downwards in `rank`; an acyclic registry is one that has a rank. */
  predicate Layered(reg: Registry, rank: map<string, nat>) {
    && rank.Keys == reg.structs.Keys
    && forall k :: k in reg.structs ==>
         forall f :: f in reg.structs[k].fields ==>
           forall m :: m in Mentions(reg, f.ty) ==> m in rank && rank[m] < rank[k]
  }

  predicate Below(reg: Registry, rank: map<string, nat>, ty: SynType, bound: nat) {
    forall m :: m in Mentions(reg, ty) ==> m in rank && rank[m] < bound
  }

  /** The unguarded expansion: no stack, no cycle check. */
  function Unfold(reg: Registry, rank: map<string, nat>, ty: SynType, bound: nat): PyroType
    requires Layered(reg, rank) && Below(reg, rank, ty, bound)
    decreases bound, ty, 0
  {
    match ty
    case Reference(t) => Unfold(reg, rank, t, bound)
    case Tuple(_) => Null
    case OtherSyntax => Null
    case Path(segments) =>
      if segments == [] then Null
      else
        var s := segments[|segments| - 1];
        if Builtin(s.ident).Some? then Builtin(s.ident).value
        else if s.ident == "Option" then
          var inner := SingleArgument(s);
          if inner.Some? then Unfold(reg, rank, inner.value, bound) else Null
        else if s.ident == "Vec" then
          var inner := SingleArgument(s);
          if inner.Some? then VecOf(Unfold(reg, rank, inner.value, bound)) else Null
        else if s.ident == "HashMap" || s.ident == "BTreeMap" then
          var kv := TwoArguments(s);
          if kv.Some? then MapOf(Unfold(reg, rank, kv.value.0, bound), Unfold(reg, rank, kv.value.1, bound)) else Null
        else if s.ident == "Result" then
          var oe := TwoArguments(s);
          if oe.Some? then Unfold(reg, rank, oe.value.0, bound) else Null
        else
          var name := Registered(reg, s.ident);
          if name.None? then Foreign(reg, s.ident)
          else Group(UnfoldFields(reg, rank, reg.structs[name.value].fields, rank[name.value]))
  }

  function UnfoldFields(reg: Registry, rank: map<string, nat>, fields: seq<FieldEntry>, bound: nat): seq<PyroField>
    requires Layered(reg, rank) && forall f :: f in fields ==> Below(reg, rank, f.ty, bound)
    decreases bound, fields, 0
  {
    if fields == [] then []
    else
      var f := fields[0];
      [PyroField(f.name, f.doc, Unfold(reg, rank, f.ty, bound), IsOption(f.ty))] +
      UnfoldFields(reg, rank, fields[1..], bound)
  }

  /** On an acyclic registry the guarded resolver is the full expansion; the guard never fires. */
  lemma {:induction false} ResolveIsUnfold(reg: Registry, rank: map<string, nat>, ty: SynType, visited: seq<string>,
                                           bound: nat)
    requires Layered(reg, rank) && Below(reg, rank, ty, bound)
    requires forall v :: v in visited ==> v in rank && rank[v] >= bound
    ensures Resolve(reg, ty, visited) == Unfold(reg, rank, ty, bound)
    decreases bound, ty, 0
  {
    if ty.Reference? {
      ResolveIsUnfold(reg, rank, ty.referent, visited, bound);
    } else if ty.Path? && ty.segments != [] {
      var s := ty.segments[|ty.segments| - 1];
      if Builtin(s.ident).Some? {
      } else if s.ident == "Option" || s.ident == "Vec" {
        var inner := SingleArgument(s);
        if inner.Some? {
          ResolveIsUnfold(reg, rank, inner.value, visited, bound);
        }
      } else if s.ident == "HashMap" || s.ident == "BTreeMap" {
        var kv := TwoArguments(s);
        if kv.Some? {
          ResolveIsUnfold(reg, rank, kv.value.0, visited, bound);
          ResolveIsUnfold(reg, rank, kv.value.1, visited, bound);
        }
      } else if s.ident == "Result" {
        var oe := TwoArguments(s);
        if oe.Some? {
          ResolveIsUnfold(reg, rank, oe.value.0, visited, bound);
        }
      } else {
        var name := Registered(reg, s.ident);
        if name.Some? {
          assert name.value in Mentions(reg, ty);
          ResolveFieldsIsUnfold(reg, rank, reg.structs[name.value].fields, visited + [name.value], rank[name.value]);
        }
      }
    }
  }

  lemma {:induction false} ResolveFieldsIsUnfold(reg: Registry, rank: map<string, nat>, fields: seq<FieldEntry>,
                                                 visited: seq<string>, bound: nat)
    requires Layered(reg, rank) && forall f :: f in fields ==> Below(reg, rank, f.ty, bound)
    requires forall v :: v in visited ==> v in rank && rank[v] >= bound
    ensures ResolveFields(reg, fields, visited) == UnfoldFields(reg, rank, fields, bound)
    decreases bound, fields, 0
  {
    if fields != [] {
      ResolveIsUnfold(reg, rank, fields[0].ty, visited, bound);
      ResolveFieldsIsUnfold(reg, rank, fields[1..], visited, bound);
    }
  }

  // ---------------------------------------------------------------------------
  // Any registry: no struct is expanded inside itself
  // ---------------------------------------------------------------------------

  /** How many groups deep a type is, along its deepest path. */
  function Nesting(t: PyroType): nat
    decreases t
  {
    match t
    case List(x, _) => Nesting(x)
    case Group(fs) => 1 + NestingOfFields(fs)
    case MapOf(k, v) => Max(Nesting(k), Nesting(v))
    case _ => 0
  }

  function NestingOfFields(fs: seq<PyroField>): nat
    decreases fs
  {
    if fs == [] then 0 else Max(Nesting(fs[0].dataType), NestingOfFields(fs[1..]))
  }

  predicate ForeignNesting(reg: Registry, n: nat) {
    n >= 1 && forall k :: k in reg.foreign ==> Nesting(Group(reg.foreign[k].fields)) <= n
  }

  /**
    However cyclic the definitions, groups nest no deeper than the structs not yet on the stack, plus
    one foreign group or cut-off.
  */
  lemma {:induction false} ExpansionIsBounded(reg: Registry, ty: SynType, visited: seq<string>, n: nat)
    requires ForeignNesting(reg, n)
    ensures Nesting(Resolve(reg, ty, visited)) <= |Unvisited(reg, visited)| + n
    decreases |Unvisited(reg, visited)|, ty, 0
  {
    if ty.Reference? {
      ExpansionIsBounded(reg, ty.referent, visited, n);
    } else if ty.Path? && ty.segments != [] {
      var s := ty.segments[|ty.segments| - 1];
      if Builtin(s.ident).Some? {
      } else if s.ident == "Option" || s.ident == "Vec" {
        var inner := SingleArgument(s);
        if inner.Some? {
          ExpansionIsBounded(reg, inner.value, visited, n);
        }
      } else if s.ident == "HashMap" || s.ident == "BTreeMap" {
        var kv := TwoArguments(s);
        if kv.Some? {
          ExpansionIsBounded(reg, kv.value.0, visited, n);
          ExpansionIsBounded(reg, kv.value.1, visited, n);
        }
      } else if s.ident == "Result" {
        var oe := TwoArguments(s);
        if oe.Some? {
          ExpansionIsBounded(reg, oe.value.0, visited, n);
        }
      } else {
        var name := Registered(reg, s.ident);
        if name.Some? && name.value !in visited {
          UnvisitedShrinks(reg, visited, name.value);
          FieldExpansionIsBounded(reg, reg.structs[name.value].fields, visited + [name.value], n);
        }
      }
    }
  }

  lemma {:induction false} FieldExpansionIsBounded(reg: Registry, fields: seq<FieldEntry>, visited: seq<string>, n: nat)
    requires ForeignNesting(reg, n)
    ensures NestingOfFields(ResolveFields(reg, fields, visited)) <= |Unvisited(reg, visited)| + n
    decreases |Unvisited(reg, visited)|, fields, 0
  {
    if fields != [] {
      ExpansionIsBounded(reg, fields[0].ty, visited, n);
      FieldExpansionIsBounded(reg, fields[1..], visited, n);
      assert ResolveFields(reg, fields, visited)[1..] == ResolveFields(reg, fields[1..], visited);
    }
  }

  /** Two registries that differ only in how the structs named in `visited` are defined. */
  predicate SameOutside(reg: Registry, reg': Registry, visited: seq<string>) {
    && reg.foreign == reg'.foreign && reg.structs.Keys == reg'.structs.Keys
    && forall k :: k in reg.structs && k !in visited ==> reg.structs[k] == reg'.structs[k]
  }

  /**
    While a struct is being expanded its definition is not consulted again: redefining the structs on
    the stack, in any way, does not change the result. So no path expands the same struct twice.
  */
  lemma {:induction false} StackedDefinitionsUnused(reg: Registry, reg': Registry, ty: SynType, visited: seq<string>)
    requires SameOutside(reg, reg', visited)
    ensures Resolve(reg, ty, visited) == Resolve(reg', ty, visited)
    decreases |Unvisited(reg, visited)|, ty, 0
  {
    hide Builtin, VecOf;
    if ty.Reference? {
      StackedDefinitionsUnused(reg, reg', ty.referent, visited);
    } else if ty.Path? && ty.segments != [] {
      var s := ty.segments[|ty.segments| - 1];
      if Builtin(s.ident).Some? {
      } else if s.ident == "Option" || s.ident == "Vec" {
        var inner := SingleArgument(s);
        if inner.Some? {
          StackedDefinitionsUnused(reg, reg', inner.value, visited);
        }
      } else if s.ident == "HashMap" || s.ident == "BTreeMap" {
        var kv := TwoArguments(s);
        if kv.Some? {
          StackedDefinitionsUnused(reg, reg', kv.value.0, visited);
          StackedDefinitionsUnused(reg, reg', kv.value.1, visited);
        }
      } else if s.ident == "Result" {
        var oe := TwoArguments(s);
        if oe.Some? {
          StackedDefinitionsUnused(reg, reg', oe.value.0, visited);
        }
      } else {
        var name := Registered(reg, s.ident);
        assert Registered(reg', s.ident) == name;
        if name.Some? && name.value !in visited {
          assert reg'.structs[name.value] == reg.structs[name.value];
          UnvisitedShrinks(reg, visited, name.value);
          StackedFieldsUnused(reg, reg', reg.structs[name.value].fields, visited + [name.value]);
        }
      }
    }
  }

  lemma {:induction false} StackedFieldsUnused(reg: Registry, reg': Registry, fields: seq<FieldEntry>,
                                               visited: seq<string>)
    requires SameOutside(reg, reg', visited)
    ensures ResolveFields(reg, fields, visited) == ResolveFields(reg', fields, visited)
    decreases |Unvisited(reg, visited)|, fields, 0
  {
    if fields != [] {
      StackedDefinitionsUnused(reg, reg', fields[0].ty, visited);
      StackedFieldsUnused(reg, reg', fields[1..], visited);
    }
  }

  // ---------------------------------------------------------------------------
  // Resolved types suit the rest of the type system
  // ---------------------------------------------------------------------------

  /** Well-formed for coercion, and carried exactly by Arrow. */
  predicate Shippable(t: PyroType) {
    WellFormed(t) && ArrowClean(t) && SizesFit(t)
  }

  /** Rust gives local fields unique names; foreign schemas must be shippable themselves. */
  predicate Sane(reg: Registry) {
    && (forall k :: k in reg.structs ==>
          var fs := reg.structs[k].fields;
          forall i, j :: 0 <= i < j < |fs| ==> fs[i].name != fs[j].name)
    && (forall k :: k in reg.foreign ==> Shippable(Group(reg.foreign[k].fields)))
  }

  predicate ShippableFields(fs: seq<PyroField>) {
    (forall f :: f in fs ==> WellFormed(f.dataType)) && ArrowCleanFields(fs) && FieldSizesFit(fs)
  }

  lemma GroupIsShippable(reg: Registry, name: string, fs: seq<PyroField>)
    requires Sane(reg) && name in reg.structs && ShippableFields(fs)
    requires |fs| == |reg.structs[name].fields|
    requires forall i :: 0 <= i < |fs| ==> fs[i].name == reg.structs[name].fields[i].name
    ensures Shippable(Group(fs))
  {
  }

  lemma {:induction false} ResolvedIsShippable(reg: Registry, ty: SynType, visited: seq<string>)
    requires Sane(reg)
    ensures Shippable(Resolve(reg, ty, visited))
    decreases |Unvisited(reg, visited)|, ty, 0
  {
    if ty.Reference? {
      ResolvedIsShippable(reg, ty.referent, visited);
    } else if ty.Path? && ty.segments != [] {
      var s := ty.segments[|ty.segments| - 1];
      if Builtin(s.ident).Some? {
      } else if s.ident == "Option" || s.ident == "Vec" {
        var inner := SingleArgument(s);
        if inner.Some? {
          ResolvedIsShippable(reg, inner.value, visited);
        }
      } else if s.ident == "HashMap" || s.ident == "BTreeMap" {
        var kv := TwoArguments(s);
        if kv.Some? {
          ResolvedIsShippable(reg, kv.value.0, visited);
          ResolvedIsShippable(reg, kv.value.1, visited);
        }
      } else if s.ident == "Result" {
        var oe := TwoArguments(s);
        if oe.Some? {
          ResolvedIsShippable(reg, oe.value.0, visited);
        }
      } else {
        var name := Registered(reg, s.ident);
        if name.Some? && name.value !in visited {
          UnvisitedShrinks(reg, visited, name.value);
          ResolvedFieldsAreShippable(reg, reg.structs[name.value].fields, visited + [name.value]);
          GroupIsShippable(reg, name.value, ResolveFields(reg, reg.structs[name.value].fields, visited + [name.value]));
        }
      }
    }
  }

  lemma {:induction false} ResolvedFieldsAreShippable(reg: Registry, fields: seq<FieldEntry>, visited: seq<string>)
    requires Sane(reg)
    ensures ShippableFields(ResolveFields(reg, fields, visited))
    decreases |Unvisited(reg, visited)|, fields, 0
  {
    if fields != [] {
      ResolvedIsShippable(reg, fields[0].ty, visited);
      ResolvedFieldsAreShippable(reg, fields[1..], visited);
      var r := ResolveFields(reg, fields, visited);
      assert r[1..] == ResolveFields(reg, fields[1..], visited);
      assert forall f :: f in r ==> f == r[0] || f in r[1..];
    }
  }

  /** The schema a macro derives for a registered struct reaches Arrow and back up to documentation. */
  lemma DerivedSchemaPassesThroughArrow(reg: Registry, name: string)
    requires Sane(reg) && name in reg.structs
    ensures var fields := ResolveFields(reg, reg.structs[name].fields, []);
            && WellFormed(Group(fields))
            && SchemaFromArrow(SchemaToArrow(PyroSchema(reg.structs[name].doc, fields))) ==
               Some(PyroSchema(None, FieldsWithoutDocs(fields)))
  {
    var fields := ResolveFields(reg, reg.structs[name].fields, []);
    ResolvedFieldsAreShippable(reg, reg.structs[name].fields, []);
    SchemaRoundTrip(PyroSchema(reg.structs[name].doc, fields));
    CleanAndFittingFieldsIff(fields);
  }
}
