/**
  Schema inference over whole rows: the order of the rows never changes the schema, and exactly when
  it cannot change success either; the inferred schema is the least that holds every row.
*/
module SchemaLaws {
  import opened Prelude
  import opened PyroSpec
  import opened CoerceLaws
  import opened Inference
  import opened InferenceOrder
  import opened Widening
  import opened SchemaInference

  ghost predicate WellTyped(rows: seq<Row>) {
    forall k :: AllWellFormed(TypesSeen(rows, k))
  }

  // ---------------------------------------------------------------------------
  // Reordered rows
  // ---------------------------------------------------------------------------

  lemma {:induction false} TypesSeenAppend(rows: seq<Row>, more: seq<Row>, k: string)
    ensures TypesSeen(rows + more, k) == TypesSeen(rows, k) + TypesSeen(more, k)
    decreases |more|
  {
    hide TypesInRow;
    if more == [] {
      assert rows + more == rows;
    } else {
      var n := |more| - 1;
      assert (rows + more)[..|rows| + n] == rows + more[..n];
      assert (rows + more)[|rows| + n] == more[n];
      TypesSeenAppend(rows, more[..n], k);
    }
  }

  lemma TypesOfOneRow(row: Row, k: string)
    ensures TypesSeen([row], k) == TypesInRow(row, k)
  {
    assert [row][..0] == [];
  }

  lemma WithoutRow(rows: seq<Row>, i: nat)
    requires i < |rows|
    ensures multiset(rows[..i] + rows[i + 1..]) == multiset(rows) - multiset{rows[i]}
    ensures forall k :: multiset(TypesSeen(rows, k)) ==
                        multiset(TypesInRow(rows[i], k)) + multiset(TypesSeen(rows[..i] + rows[i + 1..], k))
  {
    assert rows == rows[..i] + ([rows[i]] + rows[i + 1..]);
    forall k
      ensures multiset(TypesSeen(rows, k)) ==
              multiset(TypesInRow(rows[i], k)) + multiset(TypesSeen(rows[..i] + rows[i + 1..], k))
    {
      TypesSeenAppend(rows[..i], [rows[i]] + rows[i + 1..], k);
      TypesSeenAppend([rows[i]], rows[i + 1..], k);
      TypesSeenAppend(rows[..i], rows[i + 1..], k);
      TypesOfOneRow(rows[i], k);
    }
  }

  lemma {:induction false} SameTypesSeen(rows: seq<Row>, rows': seq<Row>, k: string)
    requires multiset(rows) == multiset(rows')
    ensures multiset(TypesSeen(rows, k)) == multiset(TypesSeen(rows', k))
    decreases |rows|
  {
    hide TypesSeen, TypesInRow;
    assert |rows| == |multiset(rows)| == |rows'|;
    if rows == [] {
      assert rows' == [];
    } else if rows != [] {
      assert rows[0] in multiset(rows');
      var i :| 0 <= i < |rows'| && rows'[i] == rows[0];
      WithoutRow(rows, 0);
      WithoutRow(rows', i);
      assert rows[..0] + rows[1..] == rows[1..];
      SameTypesSeen(rows[1..], rows'[..i] + rows'[i + 1..], k);
    }
  }

  lemma SameKeysAndNulls(rows: seq<Row>, rows': seq<Row>)
    requires multiset(rows) == multiset(rows')
    ensures KeysOf(rows) == KeysOf(rows')
    ensures forall k :: NullableAt(rows, k) == NullableAt(rows', k)
  {
    KeysAndNullsWithin(rows, rows');
    KeysAndNullsWithin(rows', rows);
  }

  lemma KeysAndNullsWithin(rows: seq<Row>, rows': seq<Row>)
    requires multiset(rows) == multiset(rows')
    ensures KeysOf(rows) <= KeysOf(rows')
    ensures forall k :: NullableAt(rows, k) ==> NullableAt(rows', k)
  {
    forall i | 0 <= i < |rows| ensures rows[i] in rows' {
      assert rows[i] in multiset(rows');
    }
    forall k | k in KeysOf(rows) ensures k in KeysOf(rows') {
      var i, j :| 0 <= i < |rows| && 0 <= j < |rows[i]| && rows[i][j].key == k;
      var i' :| 0 <= i' < |rows'| && rows'[i'] == rows[i];
      assert rows'[i'][j].key == k;
    }
    forall k | NullableAt(rows, k) ensures NullableAt(rows', k) {
      var i :| 0 <= i < |rows| && (k !in KeysOfRow(rows[i]) || HasNull(rows[i], k));
      var i' :| 0 <= i' < |rows'| && rows'[i'] == rows[i];
    }
  }

  /** The type of a key as an inference over what was seen of it. */
  lemma TypeAtIsInferred(rows: seq<Row>, k: string)
    ensures TypeAt(rows, k) == if TypesSeen(rows, k) == [] then Some(Null) else Infer(TypesSeen(rows, k))
  {
    if TypesSeen(rows, k) != [] {
      InferFromNull(Source, TypesSeen(rows, k));
    }
  }

  /** Two orders of the same rows that both have a schema have the same one, nullability included. */
  lemma {:induction false} SchemaIsOrderIndependent(rows: seq<Row>, rows': seq<Row>)
    requires WellTyped(rows) && multiset(rows) == multiset(rows')
    requires Inferable(rows) && Inferable(rows')
    ensures InferredFields(rows) == InferredFields(rows')
  {
    hide Infer, InferFrom, NullableAt, TypesSeen, SortedKeys;
    SameKeysAndNulls(rows, rows');
    var ks := SortedKeys(KeysOf(rows));
    forall k | k in ks ensures TypeAt(rows, k) == TypeAt(rows', k) {
      var ts, ts' := TypesSeen(rows, k), TypesSeen(rows', k);
      SameTypesSeen(rows, rows', k);
      assert |ts| == |multiset(ts)| == |multiset(ts')| == |ts'|;
      TypeAtIsInferred(rows, k);
      TypeAtIsInferred(rows', k);
      if ts != [] {
        InferenceIsOrderIndependent(ts, ts');
      }
    }
    forall i | 0 <= i < |ks| ensures FieldsFor(rows, ks)[i] == FieldsFor(rows', ks)[i] {
      assert ks[i] in ks;
    }
  }

  // ---------------------------------------------------------------------------
  // When every order of the rows has a schema
  // ---------------------------------------------------------------------------

  ghost predicate KeysUnique(rows: seq<Row>) {
    forall r: Row :: r in rows ==> forall i, j :: 0 <= i < j < |r| ==> r[i].key != r[j].key
  }

  lemma {:induction false} OneTypePerRow(row: Row, k: string)
    requires forall i, j :: 0 <= i < j < |row| ==> row[i].key != row[j].key
    ensures |TypesInRow(row, k)| <= 1
  {
    if row != [] {
      var front := row[..|row| - 1];
      OneTypePerRow(front, k);
      if row[|row| - 1].key == k {
        assert k !in KeysOfRow(front);
        NothingInRow(front, k);
      }
    }
  }

  lemma UniqueInLast(rows: seq<Row>, k: string)
    requires KeysUnique(rows) && rows != []
    ensures KeysUnique(rows[..|rows| - 1]) && |TypesInRow(rows[|rows| - 1], k)| <= 1
  {
    assert rows[|rows| - 1] in rows && forall r :: r in rows[..|rows| - 1] ==> r in rows;
    OneTypePerRow(rows[|rows| - 1], k);
  }

  lemma {:induction false} RowOfType(rows: seq<Row>, k: string, a: nat) returns (i: nat)
    requires KeysUnique(rows) && a < |TypesSeen(rows, k)|
    ensures i < |rows| && TypesInRow(rows[i], k) == [TypesSeen(rows, k)[a]]
  {
    hide TypesInRow, KeysUnique;
    var n := |rows| - 1;
    UniqueInLast(rows, k);
    assert TypesSeen(rows, k) == TypesSeen(rows[..n], k) + TypesInRow(rows[n], k);
    if a < |TypesSeen(rows[..n], k)| {
      i := RowOfType(rows[..n], k, a);
    } else {
      i := n;
    }
  }

  lemma {:induction false} RowsOfTypes(rows: seq<Row>, k: string, a: nat, b: nat) returns (i: nat, j: nat)
    requires KeysUnique(rows) && a < b < |TypesSeen(rows, k)|
    ensures i < j < |rows|
    ensures TypesInRow(rows[i], k) == [TypesSeen(rows, k)[a]] && TypesInRow(rows[j], k) == [TypesSeen(rows, k)[b]]
  {
    hide TypesInRow, KeysUnique;
    var n := |rows| - 1;
    UniqueInLast(rows, k);
    assert TypesSeen(rows, k) == TypesSeen(rows[..n], k) + TypesInRow(rows[n], k);
    if b < |TypesSeen(rows[..n], k)| {
      i, j := RowsOfTypes(rows[..n], k, a, b);
    } else {
      i := RowOfType(rows[..n], k, a);
      j := n;
    }
  }

  lemma BadRowsFirst(rows: seq<Row>, k: string, a: nat, b: nat) returns (rows': seq<Row>)
    requires KeysUnique(rows) && a < b < |TypesSeen(rows, k)|
    requires Coerced(TypesSeen(rows, k)[a], TypesSeen(rows, k)[b]).None?
    ensures multiset(rows') == multiset(rows) && !Inferable(rows')
  {
    hide Join, InferFrom, TypesSeen, TypesInRow, KeysUnique, Inferable;
    var ts := TypesSeen(rows, k);
    var i, j := RowsOfTypes(rows, k, a, b);
    rows' := TwoToFront(rows, i, j);
    TwoRowsSeen(rows[i], rows[j], rows'[2..], k);
    assert rows' == [rows[i], rows[j]] + rows'[2..];
    var more := TypesSeen(rows'[2..], k);
    assert [ts[a]] + [ts[b]] + more == [ts[a], ts[b]] + more;
    TwoFail(ts[a], ts[b], more);
    NoTypeNoSchema(rows', k);
  }

  lemma NoTypeNoSchema(rows: seq<Row>, k: string)
    requires TypeAt(rows, k).None?
    ensures !Inferable(rows)
  {
    if k !in KeysOf(rows) {
      NothingSeen(rows, k);
      assert false;
    }
  }

  lemma TwoRowsSeen(r: Row, s: Row, rest: seq<Row>, k: string)
    ensures TypesSeen([r, s] + rest, k) == TypesInRow(r, k) + TypesInRow(s, k) + TypesSeen(rest, k)
  {
    assert [r, s] == [r] + [s];
    TypesSeenAppend([r, s], rest, k);
    TypesSeenAppend([r], [s], k);
    TypesOfOneRow(r, k);
    TypesOfOneRow(s, k);
  }

  lemma TwoFail(s: PyroType, t: PyroType, more: seq<PyroType>)
    requires Coerced(s, t).None?
    ensures InferFrom(Source, Some(Null), [s, t] + more).None?
  {
    hide Join;
    var all := [s, t] + more;
    InferFromNull(Source, all);
    assert all[1..][0] == t && all[1..][1..] == more;
    FailureStays(Source, more);
  }

  /** Any two types of the same key coercing is enough, and for rows without repeated keys it is needed. */
  lemma PairwiseTypesInfer(rows: seq<Row>)
    requires WellTyped(rows)
    ensures (forall k :: Pairwise(TypesSeen(rows, k))) ==>
              forall rows' :: multiset(rows') == multiset(rows) ==> Inferable(rows')
    ensures KeysUnique(rows) && (forall rows' :: multiset(rows') == multiset(rows) ==> Inferable(rows')) ==>
              forall k :: Pairwise(TypesSeen(rows, k))
  {
    hide Inferable, Pairwise, TypesSeen, KeysUnique;
    if forall k :: Pairwise(TypesSeen(rows, k)) {
      forall rows' | multiset(rows') == multiset(rows) ensures Inferable(rows') {
        PairwiseInfers(rows, rows');
      }
    } else if KeysUnique(rows) {
      var k :| !Pairwise(TypesSeen(rows, k));
      var rows' := NotPairwise(rows, k);
    }
  }

  lemma PairwiseInfers(rows: seq<Row>, rows': seq<Row>)
    requires WellTyped(rows) && multiset(rows') == multiset(rows)
    requires forall k :: Pairwise(TypesSeen(rows, k))
    ensures Inferable(rows')
  {
    hide Infer, InferFrom, Pairwise, TypesSeen;
    forall k ensures TypeAt(rows', k).Some? {
      var ts, ts' := TypesSeen(rows, k), TypesSeen(rows', k);
      SameTypesSeen(rows, rows', k);
      TypeAtIsInferred(rows', k);
      if ts' != [] {
        assert |ts| == |multiset(ts)| == |multiset(ts')| == |ts'|;
        EveryOrderOfPairwise(ts, ts');
      }
    }
  }

  lemma EveryOrderOfPairwise(ts: seq<PyroType>, us: seq<PyroType>)
    requires ts != [] && us != [] && AllWellFormed(ts) && Pairwise(ts) && multiset(us) == multiset(ts)
    ensures Infer(us).Some?
  {
    hide Join, Infer;
    EveryOrderSucceedsIff(ts);
  }

  lemma NotPairwise(rows: seq<Row>, k: string) returns (rows': seq<Row>)
    requires KeysUnique(rows) && !Pairwise(TypesSeen(rows, k))
    ensures multiset(rows') == multiset(rows) && !Inferable(rows')
  {
    hide Join, KeysUnique, Inferable, TypesSeen;
    var ts := TypesSeen(rows, k);
    var a, b :| 0 <= a < b < |ts| && Coerced(ts[a], ts[b]).None?;
    rows' := BadRowsFirst(rows, k, a, b);
  }

  lemma TypeAtOfInferable(rows: seq<Row>, k: string)
    requires Inferable(rows)
    ensures TypeAt(rows, k).Some?
  {
    if TypeAt(rows, k).None? {
      NoTypeNoSchema(rows, k);
    }
  }

  /** The first rows have a schema if they have one together with more. */
  lemma PrefixInfers(rows: seq<Row>, more: seq<Row>)
    requires Inferable(rows + more)
    ensures Inferable(rows)
  {
    hide InferFrom, TypesSeen;
    forall k ensures TypeAt(rows, k).Some? {
      TypeAtOfInferable(rows + more, k);
      TypesSeenAppend(rows, more, k);
      FoldAppend(Source, Some(Null), TypesSeen(rows, k), TypesSeen(more, k));
      if TypeAt(rows, k).None? {
        FailureStays(Source, TypesSeen(more, k));
      }
    }
  }

  /** The rows go together two by two, in this order, as far as the key is concerned. */
  ghost predicate BlocksPair(rows: seq<Row>, k: string) {
    && (forall i :: 0 <= i < |rows| ==>
          AllWellFormed(TypesInRow(rows[i], k)) && BlockType(TypesInRow(rows[i], k)).Some?)
    && (forall i, j :: 0 <= i < j < |rows| ==> BlockType(TypesInRow(rows[i], k) + TypesInRow(rows[j], k)).Some?)
  }

  lemma {:induction false} BlocksInfer(xs: seq<PyroType>, rows: seq<Row>, k: string)
    requires AllWellFormed(xs) && BlockType(xs).Some? && BlocksPair(rows, k)
    requires forall i :: 0 <= i < |rows| ==> BlockType(xs + TypesInRow(rows[i], k)).Some?
    ensures BlockType(xs + TypesSeen(rows, k)).Some?
    decreases |rows|
  {
    hide InferFrom, TypesInRow, TypesSeen, BlockType;
    if rows == [] {
      NothingSeenInNoRows(k);
      assert xs + [] == xs;
    } else {
      var (row, rest) := (rows[0], rows[1..]);
      var xs' := xs + TypesInRow(row, k);
      assert rows == [row] + rest && forall i :: 0 <= i < |rest| ==> rest[i] == rows[i + 1];
      forall i | 0 <= i < |rest| ensures BlockType(xs' + TypesInRow(rest[i], k)).Some? {
        ThreeBlocks(xs, TypesInRow(row, k), TypesInRow(rest[i], k));
      }
      BlocksInfer(xs', rest, k);
      TypesSeenAppend([row], rest, k);
      TypesOfOneRow(row, k);
      assert xs + (TypesInRow(row, k) + TypesSeen(rest, k)) == xs' + TypesSeen(rest, k);
    }
  }

  lemma NothingSeenInNoRows(k: string)
    ensures TypesSeen([], k) == []
  {
  }

  lemma RowWellTyped(rows: seq<Row>, i: nat, k: string)
    requires WellTyped(rows) && i < |rows|
    ensures AllWellFormed(TypesInRow(rows[i], k))
  {
    hide TypesInRow, TypesSeen;
    WithoutRow(rows, i);
    assert AllWellFormed(TypesSeen(rows, k));
    forall j | 0 <= j < |TypesInRow(rows[i], k)| ensures WellFormed(TypesInRow(rows[i], k)[j]) {
      assert TypesInRow(rows[i], k)[j] in multiset(TypesSeen(rows, k));
    }
  }

  /** Every row by itself and every two rows, in both orders, have a schema. */
  ghost predicate PairsInfer(rows: seq<Row>) {
    && (forall i :: 0 <= i < |rows| ==> Inferable([rows[i]]))
    && (forall i, j :: 0 <= i < |rows| && 0 <= j < |rows| && i != j ==> Inferable([rows[i], rows[j]]))
  }

  lemma PairsInferTogether(rows: seq<Row>)
    requires WellTyped(rows) && PairsInfer(rows)
    ensures Inferable(rows)
  {
    hide InferFrom, TypesSeen, TypesInRow, Inferable, BlocksPair, WellTyped;
    forall k ensures TypeAt(rows, k).Some? {
      PairsAreBlocks(rows, k);
      EmptyBlock(rows, k);
      BlocksInfer([], rows, k);
      assert [] + TypesSeen(rows, k) == TypesSeen(rows, k);
    }
    InferableByKeys(rows);
  }

  lemma InferableByKeys(rows: seq<Row>)
    requires forall k :: TypeAt(rows, k).Some?
    ensures Inferable(rows)
  {
  }

  lemma EmptyBlock(rows: seq<Row>, k: string)
    requires BlocksPair(rows, k)
    ensures AllWellFormed([]) && BlockType([]).Some?
    ensures forall i :: 0 <= i < |rows| ==> BlockType([] + TypesInRow(rows[i], k)).Some?
  {
    forall i | 0 <= i < |rows| ensures BlockType([] + TypesInRow(rows[i], k)).Some? {
      assert [] + TypesInRow(rows[i], k) == TypesInRow(rows[i], k);
    }
  }

  lemma PairsAreBlocks(rows: seq<Row>, k: string)
    requires WellTyped(rows) && PairsInfer(rows)
    ensures BlocksPair(rows, k)
  {
    hide InferFrom, TypesSeen, TypesInRow, Inferable, WellTyped;
    forall i | 0 <= i < |rows|
      ensures AllWellFormed(TypesInRow(rows[i], k)) && BlockType(TypesInRow(rows[i], k)).Some?
    {
      RowWellTyped(rows, i, k);
      TypeAtOfInferable([rows[i]], k);
      TypesOfOneRow(rows[i], k);
    }
    forall i, j | 0 <= i < j < |rows|
      ensures BlockType(TypesInRow(rows[i], k) + TypesInRow(rows[j], k)).Some?
    {
      TypeAtOfInferable([rows[i], rows[j]], k);
      TwoRowsSeen(rows[i], rows[j], [], k);
      NothingSeenInNoRows(k);
      assert [rows[i], rows[j]] + [] == [rows[i], rows[j]];
      assert TypesInRow(rows[i], k) + TypesInRow(rows[j], k) + []
             == TypesInRow(rows[i], k) + TypesInRow(rows[j], k);
    }
  }

  /** Two different places of a reordering are two different places of the original. */
  lemma SamePair(rows: seq<Row>, rows': seq<Row>, i: nat, j: nat) returns (a: nat, b: nat)
    requires multiset(rows) == multiset(rows') && i < |rows'| && j < |rows'| && i != j
    ensures a < |rows| && b < |rows| && a != b && rows[a] == rows'[i] && rows[b] == rows'[j]
  {
    assert rows'[i] in multiset(rows);
    a :| 0 <= a < |rows| && rows[a] == rows'[i];
    RowStays(rows', i, j);
    WithoutRow(rows, a);
    WithoutRow(rows', i);
    var rest := rows[..a] + rows[a + 1..];
    assert rows'[j] in multiset(rest);
    var c :| 0 <= c < |rest| && rest[c] == rows'[j];
    b := if c < a then c else c + 1;
  }

  lemma RowStays(rows: seq<Row>, i: nat, j: nat)
    requires i < |rows| && j < |rows| && i != j
    ensures rows[j] in multiset(rows[..i] + rows[i + 1..])
  {
    var rest := rows[..i] + rows[i + 1..];
    assert rest[if j < i then j else j - 1] == rows[j];
  }

  lemma PairsOfOrder(rows: seq<Row>, rows': seq<Row>)
    requires multiset(rows) == multiset(rows') && PairsInfer(rows)
    ensures PairsInfer(rows')
  {
    hide Inferable;
    forall i | 0 <= i < |rows'| ensures Inferable([rows'[i]]) {
      assert rows'[i] in multiset(rows);
    }
    forall i, j | 0 <= i < |rows'| && 0 <= j < |rows'| && i != j ensures Inferable([rows'[i], rows'[j]]) {
      var a, b := SamePair(rows, rows', i, j);
    }
  }

  lemma WellTypedOfOrder(rows: seq<Row>, rows': seq<Row>)
    requires multiset(rows) == multiset(rows') && WellTyped(rows)
    ensures WellTyped(rows')
  {
    hide TypesSeen;
    forall k ensures AllWellFormed(TypesSeen(rows', k)) {
      SameTypesSeen(rows, rows', k);
      assert AllWellFormed(TypesSeen(rows, k));
      var ts, ts' := TypesSeen(rows, k), TypesSeen(rows', k);
      forall i | 0 <= i < |ts'| ensures WellFormed(ts'[i]) {
        assert ts'[i] in multiset(ts);
      }
    }
  }

  lemma FirstTwo(rows: seq<Row>, pair: seq<Row>)
    requires |rows| >= 2 && (pair == [rows[0], rows[1]] || pair == [rows[1], rows[0]])
    ensures multiset(pair + rows[2..]) == multiset(rows)
  {
    assert rows == [rows[0], rows[1]] + rows[2..];
  }

  /** Two rows of an order that starts with them. */
  lemma PairOfOrders(rows: seq<Row>, i: nat, j: nat)
    requires forall rows' :: multiset(rows') == multiset(rows) ==> Inferable(rows')
    requires i < |rows| && j < |rows| && i != j
    ensures Inferable([rows[i], rows[j]])
  {
    hide Inferable, TypesSeen;
    var ys := TwoToFront(rows, if i < j then i else j, if i < j then j else i);
    var pair := if i < j then [ys[0], ys[1]] else [ys[1], ys[0]];
    FirstTwo(ys, pair);
    assert multiset(pair + ys[2..]) == multiset(rows);
    PrefixInfers(pair, ys[2..]);
  }

  lemma OneOfOrders(rows: seq<Row>, i: nat)
    requires forall rows' :: multiset(rows') == multiset(rows) ==> Inferable(rows')
    requires i < |rows|
    ensures Inferable([rows[i]])
  {
    hide Inferable;
    var rest := rows[..i] + rows[i + 1..];
    WithoutRow(rows, i);
    assert multiset([rows[i]] + rest) == multiset(rows);
    PrefixInfers([rows[i]], rest);
  }

  /**
    Every order of the rows has a schema exactly if every row by itself has one and every two rows
    have one in both orders; repeated keys included.
  */
  lemma EveryRowOrderInfersIff(rows: seq<Row>)
    requires WellTyped(rows)
    ensures (forall rows' :: multiset(rows') == multiset(rows) ==> Inferable(rows')) <==>
            && (forall i :: 0 <= i < |rows| ==> Inferable([rows[i]]))
            && (forall i, j :: 0 <= i < |rows| && 0 <= j < |rows| && i != j ==> Inferable([rows[i], rows[j]]))
  {
    hide Inferable, WellTyped;
    if PairsInfer(rows) {
      forall rows' | multiset(rows') == multiset(rows) ensures Inferable(rows') {
        PairsOfOrder(rows, rows');
        WellTypedOfOrder(rows, rows');
        PairsInferTogether(rows');
      }
    } else if forall rows' :: multiset(rows') == multiset(rows) ==> Inferable(rows') {
      forall i | 0 <= i < |rows| ensures Inferable([rows[i]]) {
        OneOfOrders(rows, i);
      }
      forall i, j | 0 <= i < |rows| && 0 <= j < |rows| && i != j ensures Inferable([rows[i], rows[j]]) {
        PairOfOrders(rows, i, j);
      }
      assert false;
    }
  }

  // ---------------------------------------------------------------------------
  // The schema holds the rows
  // ---------------------------------------------------------------------------

  /**
    The inferred schema has the keys of the rows, once each; every value widens to the type of its key,
    which is the narrowest such type; and a field is nullable exactly if some row lacks it or has a null.
  */
  lemma {:induction false} InferredSchemaIsLeast(rows: seq<Row>, k: string)
    requires WellTyped(rows) && Inferable(rows)
    ensures var fs := InferredFields(rows);
            && WellFormed(Group(fs)) && TypesOf(fs).Keys == KeysOf(rows)
            && (forall f :: f in fs ==> (f.nullable <==> NullableAt(rows, f.name)) && f.documentation.None?)
            && (k in KeysOf(rows) ==>
                  var (t, ts) := (TypesOf(fs)[k], TypesSeen(rows, k));
                  && (forall i :: 0 <= i < |ts| ==> Widens(true, ts[i], t))
                  && (forall u :: WellFormed(u) && (forall i :: 0 <= i < |ts| ==> Widens(false, ts[i], u))
                                  ==> Widens(false, t, u)))
  {
    hide Widens, Infer, InferFrom, TypesSeen, NullableAt, SortedKeys, TypesOf, Join;
    var fs, ks := InferredFields(rows), SortedKeys(KeysOf(rows));
    forall i | 0 <= i < |ks|
      ensures fs[i] == NewField(ks[i], TypeAt(rows, ks[i]).value, NullableAt(rows, ks[i])) && WellFormed(fs[i].dataType)
    {
      assert ks[i] in ks;
      KeyType(rows, ks[i]);
    }
    assert UniqueNames(fs);
    forall x ensures x in TypesOf(fs) <==> x in KeysOf(rows) {
      TypesOfNames(fs, x);
      if x in ks {
        var i :| 0 <= i < |ks| && ks[i] == x;
        assert fs[i].name == x;
      }
    }
    if k in KeysOf(rows) {
      var i :| 0 <= i < |ks| && ks[i] == k;
      TypesOfAt(fs, i);
      KeyType(rows, k);
    }
  }

  lemma KeyType(rows: seq<Row>, k: string)
    requires WellTyped(rows) && TypeAt(rows, k).Some?
    ensures var (t, ts) := (TypeAt(rows, k).value, TypesSeen(rows, k));
            && WellFormed(t)
            && (forall i :: 0 <= i < |ts| ==> Widens(true, ts[i], t))
            && (forall u :: WellFormed(u) && (forall i :: 0 <= i < |ts| ==> Widens(false, ts[i], u))
                            ==> Widens(false, t, u))
  {
    hide Join, Infer;
    TypeAtIsInferred(rows, k);
    if TypesSeen(rows, k) != [] {
      InferenceIsLeastUpperBound(TypesSeen(rows, k));
    }
  }
}
