/**
  Inferring the schema of several rows (lib/pyroduct/src/format/value/schema.rs, infer_schema): one
  accumulator a key, which coerces the types it observes and notes nulls and missing keys.

  A value enters as PyroValue::Null or by its type; the type of a value is an input here.
*/
module SchemaInference {
  import opened Prelude
  import opened PyroSpec
  import opened CoerceLaws
  import opened Inference

  datatype Observation = NullValue | Typed(dataType: PyroType)

  datatype Item = Item(key: string, value: Observation)

  /** The items in their order; a key may be repeated. */
  type Row = seq<Item>

  // ---------------------------------------------------------------------------
  // What the rows show of a key
  // ---------------------------------------------------------------------------

  function KeysOfRow(row: Row): set<string> {
    set i | 0 <= i < |row| :: row[i].key
  }

  function KeysOf(rows: seq<Row>): set<string> {
    set i, j | 0 <= i < |rows| && 0 <= j < |rows[i]| :: rows[i][j].key
  }

  function TypesInRow(row: Row, k: string): seq<PyroType> {
    if row == [] then []
    else
      var item := row[|row| - 1];
      TypesInRow(row[..|row| - 1], k) + if item.key == k && item.value.Typed? then [item.value.dataType] else []
  }

  /** The types of the key's values, in the order in which they are met. */
  function TypesSeen(rows: seq<Row>, k: string): seq<PyroType> {
    if rows == [] then [] else TypesSeen(rows[..|rows| - 1], k) + TypesInRow(rows[|rows| - 1], k)
  }

  predicate HasNull(row: Row, k: string) {
    Item(k, NullValue) in row
  }

  /** Some row lacks the key or has a null there. */
  predicate NullableAt(rows: seq<Row>, k: string) {
    exists i :: 0 <= i < |rows| && (k !in KeysOfRow(rows[i]) || HasNull(rows[i], k))
  }

  /** The type inferred for a key; Null if only nulls are met. */
  function TypeAt(rows: seq<Row>, k: string): Option<PyroType> {
    InferFrom(Source, Some(Null), TypesSeen(rows, k))
  }

  predicate Inferable(rows: seq<Row>) {
    forall k :: k in KeysOf(rows) ==> TypeAt(rows, k).Some?
  }

  /** The inferred fields, in key order. */
  function InferredFields(rows: seq<Row>): seq<PyroField>
    requires Inferable(rows)
  {
    FieldsFor(rows, SortedKeys(KeysOf(rows)))
  }

  function FieldsFor(rows: seq<Row>, ks: seq<string>): (r: seq<PyroField>)
    requires forall k :: k in ks ==> TypeAt(rows, k).Some?
    ensures |r| == |ks|
  {
    seq(|ks|, i requires 0 <= i < |ks| =>
      assert ks[i] in ks; NewField(ks[i], TypeAt(rows, ks[i]).value, NullableAt(rows, ks[i])))
  }

  // ---------------------------------------------------------------------------
  // The loops
  // ---------------------------------------------------------------------------

  datatype Accumulator = Accumulator(dataType: Option<PyroType>, nullable: bool)

  datatype Incompatible = Incompatible(field: string, current: PyroType, observed: PyroType)

  /** PyroFieldAccumulator::observe */
  method Observe(acc: Accumulator, field: string, value: Observation) returns (r: Result<Accumulator, Incompatible>)
    ensures match value
            case NullValue => r == Ok(acc.(nullable := true))
            case Typed(t) =>
              var current := acc.dataType.GetOr(Null);
              r == match Coerced(current, t)
                   case None => Err(Incompatible(field, current, t))
                   case Some(c) => Ok(acc.(dataType := Some(c)))
  {
    hide Join;
    if value.NullValue? {
      return Ok(acc.(nullable := true));
    }
    var observed := value.dataType;
    JoinShortcuts(Source, acc.dataType.GetOr(Null), observed);
    if acc.dataType.None? {
      return Ok(acc.(dataType := Some(observed)));
    }
    var current := acc.dataType.value;
    if current == observed {
      return Ok(acc);
    }
    var coerced := CoercePyroTypes(current, observed);
    if coerced.None? {
      return Err(Incompatible(field, current, observed));
    }
    r := Ok(acc.(dataType := coerced));
  }

  /** The accumulator of a key after the rows `done` and the part `part` of the next. */
  ghost predicate Follows(acc: Accumulator, done: seq<Row>, part: Row, k: string) {
    && InferFrom(Source, Some(Null), TypesSeen(done, k) + TypesInRow(part, k)) == Some(acc.dataType.GetOr(Null))
    && (acc.nullable <==> NullableAt(done, k) || HasNull(part, k))
  }

  ghost predicate Tracks(accs: map<string, Accumulator>, done: seq<Row>, part: Row) {
    && accs.Keys == KeysOf(done) + KeysOfRow(part)
    && forall k :: k in accs ==> Follows(accs[k], done, part, k)
  }

  /** One more item of the row. */
  lemma ItemTurn(row: Row, j: nat, k: string)
    requires j < |row|
    ensures TypesInRow(row[..j + 1], k) ==
            TypesInRow(row[..j], k) + if row[j].key == k && row[j].value.Typed? then [row[j].value.dataType] else []
    ensures HasNull(row[..j + 1], k) <==> HasNull(row[..j], k) || row[j] == Item(k, NullValue)
    ensures KeysOfRow(row[..j + 1]) == KeysOfRow(row[..j]) + {row[j].key}
  {
    assert row[..j + 1][..j] == row[..j];
    assert row[..j + 1] == row[..j] + [row[j]];
    forall x ensures x in KeysOfRow(row[..j + 1]) <==> x in KeysOfRow(row[..j]) + {row[j].key} {
      if x in KeysOfRow(row[..j]) {
        var i :| 0 <= i < j && row[..j][i].key == x;
        assert row[..j + 1][i].key == x;
      }
      assert row[..j + 1][j].key == row[j].key;
    }
  }

  /** A key not met before was missing from every earlier row. */
  lemma NewKey(done: seq<Row>, part: Row, k: string)
    requires k !in KeysOf(done) + KeysOfRow(part)
    ensures TypesSeen(done, k) + TypesInRow(part, k) == [] && !HasNull(part, k)
    ensures NullableAt(done, k) <==> done != []
  {
    NothingInRow(part, k);
    NothingSeen(done, k);
    if done != [] {
      assert k !in KeysOfRow(done[0]);
    }
  }

  lemma {:induction false} NothingInRow(row: Row, k: string)
    requires k !in KeysOfRow(row)
    ensures TypesInRow(row, k) == [] && !HasNull(row, k)
  {
    forall i | 0 <= i < |row| ensures row[i].key != k {
      assert row[i].key in KeysOfRow(row);
    }
    if row != [] {
      assert forall x :: x in KeysOfRow(row[..|row| - 1]) ==> x in KeysOfRow(row);
      NothingInRow(row[..|row| - 1], k);
    }
  }

  lemma {:induction false} NothingSeen(rows: seq<Row>, k: string)
    requires k !in KeysOf(rows)
    ensures TypesSeen(rows, k) == []
  {
    if rows != [] {
      var n := |rows| - 1;
      assert forall j :: 0 <= j < |rows[n]| ==> rows[n][j].key in KeysOf(rows);
      NothingInRow(rows[n], k);
      assert forall i :: 0 <= i < n ==> rows[..n][i] == rows[i];
      NothingSeen(rows[..n], k);
    }
  }

  /** What one observation makes of an accumulator. */
  ghost predicate Observed(before: Accumulator, after: Accumulator, value: Observation) {
    match value
    case NullValue => after == before.(nullable := true)
    case Typed(t) =>
      && Coerced(before.dataType.GetOr(Null), t).Some?
      && after == before.(dataType := Coerced(before.dataType.GetOr(Null), t))
  }

  lemma FollowsItem(before: Accumulator, after: Accumulator, done: seq<Row>, row: Row, j: nat)
    requires j < |row| && Follows(before, done, row[..j], row[j].key) && Observed(before, after, row[j].value)
    ensures Follows(after, done, row[..j + 1], row[j].key)
  {
    hide Join, JoinOf, InferFrom, TypesInRow, TypesSeen, HasNull, NullableAt;
    var (k, value) := (row[j].key, row[j].value);
    ItemTurn(row, j, k);
    var seen := TypesSeen(done, k) + TypesInRow(row[..j], k);
    var ts := if value.Typed? then [value.dataType] else [];
    assert TypesSeen(done, k) + TypesInRow(row[..j + 1], k) == seen + ts;
    if value.Typed? {
      FoldAppend(Source, Some(Null), seen, ts);
      FoldOne(before.dataType.GetOr(Null), ts[0]);
    } else {
      assert seen + ts == seen;
      assert row[j] == Item(k, NullValue);
    }
  }

  lemma FollowsOtherItem(acc: Accumulator, done: seq<Row>, row: Row, j: nat, k: string)
    requires j < |row| && row[j].key != k && Follows(acc, done, row[..j], k)
    ensures Follows(acc, done, row[..j + 1], k)
  {
    hide InferFrom, TypesInRow, TypesSeen, HasNull, NullableAt;
    ItemTurn(row, j, k);
    assert TypesInRow(row[..j + 1], k) == TypesInRow(row[..j], k);
  }

  lemma AfterItem(accs: map<string, Accumulator>, before: Accumulator, after: Accumulator, done: seq<Row>, row: Row,
                  j: nat)
    requires j < |row| && Tracks(accs, done, row[..j])
    requires before == if row[j].key in accs then accs[row[j].key] else Accumulator(None, done != [])
    requires Observed(before, after, row[j].value)
    ensures Tracks(accs[row[j].key := after], done, row[..j + 1])
  {
    hide Follows, Observed;
    var key := row[j].key;
    var accs' := accs[key := after];
    ItemTurn(row, j, key);
    if key !in accs {
      FollowsFromScratch(done, row[..j], key);
    }
    forall k | k in accs' ensures Follows(accs'[k], done, row[..j + 1], k) {
      if k == key {
        FollowsItem(before, after, done, row, j);
      } else {
        FollowsOtherItem(accs[k], done, row, j, k);
      }
    }
  }

  lemma FollowsFromScratch(done: seq<Row>, part: Row, k: string)
    requires k !in KeysOf(done) + KeysOfRow(part)
    ensures Follows(Accumulator(None, done != []), done, part, k)
  {
    NewKey(done, part, k);
  }

  lemma FoldOne(a: PyroType, t: PyroType)
    ensures InferFrom(Source, Some(a), [t]) == Coerced(a, t)
  {
    hide Join;
    assert [t][1..] == [];
  }

  lemma RowTurn(done: seq<Row>, row: Row, k: string)
    ensures TypesSeen(done + [row], k) == TypesSeen(done, k) + TypesInRow(row, k)
    ensures NullableAt(done + [row], k) <==> NullableAt(done, k) || k !in KeysOfRow(row) || HasNull(row, k)
    ensures k in KeysOf(done + [row]) <==> k in KeysOf(done) || k in KeysOfRow(row)
  {
    var all := done + [row];
    assert all[..|all| - 1] == done && all[|done|] == row;
    assert forall i :: 0 <= i < |done| ==> all[i] == done[i];
    if k in KeysOf(done) {
      var i, j :| 0 <= i < |done| && 0 <= j < |done[i]| && done[i][j].key == k;
      assert all[i][j].key == k;
    }
    if k in KeysOfRow(row) {
      var j :| 0 <= j < |row| && row[j].key == k;
      assert all[|done|][j].key == k;
    }
  }

  lemma AfterRow(accs: map<string, Accumulator>, accs': map<string, Accumulator>, done: seq<Row>, row: Row)
    requires Tracks(accs, done, row) && accs'.Keys == accs.Keys
    requires forall k :: k in accs ==> accs'[k] == if k in KeysOfRow(row) then accs[k] else accs[k].(nullable := true)
    ensures Tracks(accs', done + [row], [])
  {
    hide TypesSeen, NullableAt, KeysOf;
    assert TypesInRow([], "") == [];
    forall k ensures k in accs' <==> k in KeysOf(done + [row]) + KeysOfRow([]) {
      RowTurn(done, row, k);
    }
    forall k | k in accs' ensures Follows(accs'[k], done + [row], [], k) {
      RowTurn(done, row, k);
      assert Follows(accs[k], done, row, k);
      if k !in KeysOfRow(row) {
        NothingInRow(row, k);
      }
      assert TypesSeen(done + [row], k) + TypesInRow([], k) == TypesSeen(done, k) + TypesInRow(row, k);
    }
  }

  lemma {:induction false} TypesInRowPrefix(row: Row, j: nat, k: string)
    requires j <= |row|
    ensures TypesInRow(row[..j], k) <= TypesInRow(row, k)
    decreases |row|
  {
    if j < |row| {
      var front := row[..|row| - 1];
      assert front[..j] == row[..j];
      TypesInRowPrefix(front, j, k);
    } else {
      assert row[..j] == row;
    }
  }

  lemma {:induction false} TypesSeenPrefix(rows: seq<Row>, i: nat, j: nat, k: string)
    requires i < |rows| && j <= |rows[i]|
    ensures TypesSeen(rows[..i], k) + TypesInRow(rows[i][..j], k) <= TypesSeen(rows, k)
    decreases |rows|
  {
    var n := |rows| - 1;
    if i < n {
      assert rows[..n][..i] == rows[..i];
      TypesSeenPrefix(rows[..n], i, j, k);
    } else {
      TypesInRowPrefix(rows[i], j, k);
    }
  }

  /** Once a key's types stop coercing, no later row helps. */
  lemma ObservationFails(rows: seq<Row>, i: nat, j: nat, current: PyroType)
    requires i < |rows| && j < |rows[i]| && rows[i][j].value.Typed?
    requires var k := rows[i][j].key;
             InferFrom(Source, Some(Null), TypesSeen(rows[..i], k) + TypesInRow(rows[i][..j], k)) == Some(current)
    requires Coerced(current, rows[i][j].value.dataType).None?
    ensures !Inferable(rows) && rows[i][j].key in KeysOf(rows)
    ensures rows[i][j].value.dataType in TypesSeen(rows, rows[i][j].key)
  {
    hide Join, JoinOf;
    var (k, t) := (rows[i][j].key, rows[i][j].value.dataType);
    ItemTurn(rows[i], j, k);
    var seen := TypesSeen(rows[..i], k) + TypesInRow(rows[i][..j], k);
    TypesSeenPrefix(rows, i, j + 1, k);
    assert TypesSeen(rows[..i], k) + TypesInRow(rows[i][..j + 1], k) == seen + [t];
    var rest := TypesSeen(rows, k)[|seen| + 1..];
    assert TypesSeen(rows, k) == seen + [t] + rest;
    assert TypesSeen(rows, k)[|seen|] == t;
    FoldAppend(Source, Some(Null), seen, [t]);
    FoldOne(current, t);
    FoldAppend(Source, Some(Null), seen + [t], rest);
    FailureStays(Source, rest);
    assert TypeAt(rows, k).None?;
  }

  /** The pass that makes the keys nullable which the row lacks. */
  method MarkMissing(accs: map<string, Accumulator>, rowKeys: set<string>) returns (r: map<string, Accumulator>)
    ensures r.Keys == accs.Keys
    ensures forall k :: k in accs ==> r[k] == if k in rowKeys then accs[k] else accs[k].(nullable := true)
  {
    r := accs;
    var left := accs.Keys;
    while left != {}
      invariant left <= accs.Keys == r.Keys
      invariant forall k :: k in accs ==>
                              r[k] == if k in rowKeys || k in left then accs[k] else accs[k].(nullable := true)
      decreases |left|
    {
      var k := LeastKey(left);
      if k !in rowKeys {
        r := r[k := r[k].(nullable := true)];
      }
      left := left - {k};
    }
  }

  /** The end of infer_schema: one field an accumulator, in key order. */
  method BuildFields(accs: map<string, Accumulator>) returns (fields: seq<PyroField>)
    ensures fields == FieldsOf(accs, SortedKeys(accs.Keys))
  {
    hide SortedKeys;
    var ks := SortedKeys(accs.Keys);
    fields := [];
    var i := 0;
    while i < |ks|
      invariant i <= |ks| && |fields| == i
      invariant forall j :: 0 <= j < i ==> fields[j] == FieldsOf(accs, ks)[j]
    {
      var acc := accs[ks[i]];
      fields := fields + [NewField(ks[i], acc.dataType.GetOr(Null), acc.nullable)];
      i := i + 1;
    }
  }

  function FieldsOf(accs: map<string, Accumulator>, ks: seq<string>): (r: seq<PyroField>)
    requires forall k :: k in ks ==> k in accs
    ensures |r| == |ks|
  {
    seq(|ks|, i requires 0 <= i < |ks| =>
      assert ks[i] in ks; NewField(ks[i], accs[ks[i]].dataType.GetOr(Null), accs[ks[i]].nullable))
  }

  lemma TrackedFields(accs: map<string, Accumulator>, rows: seq<Row>)
    requires Tracks(accs, rows, [])
    ensures Inferable(rows) && FieldsOf(accs, SortedKeys(accs.Keys)) == InferredFields(rows)
  {
    hide SortedKeys, InferFrom, NullableAt, TypesSeen;
    assert accs.Keys == KeysOf(rows);
    forall k | k in accs
      ensures TypeAt(rows, k) == Some(accs[k].dataType.GetOr(Null)) && (accs[k].nullable <==> NullableAt(rows, k))
    {
      assert Follows(accs[k], rows, [], k);
      assert TypesSeen(rows, k) + TypesInRow([], k) == TypesSeen(rows, k);
    }
    var ks := SortedKeys(KeysOf(rows));
    forall i | 0 <= i < |ks| ensures FieldsOf(accs, ks)[i] == FieldsFor(rows, ks)[i] {
      assert ks[i] in ks;
    }
  }

  /** infer_schema: it fails exactly if some key's types do not coerce in the order in which they are met. */
  method InferSchema(rows: seq<Row>) returns (r: Result<PyroSchema, Incompatible>)
    ensures r.Ok? <==> Inferable(rows)
    ensures r.Ok? ==> r.value == PyroSchema(None, InferredFields(rows))
    ensures r.Err? ==>
              && r.error.field in KeysOf(rows) && r.error.observed in TypesSeen(rows, r.error.field)
              && Coerced(r.error.current, r.error.observed).None?
  {
    hide Join, Tracks, Inferable, KeysOf, TypesSeen, TypesInRow;
    var accs: map<string, Accumulator> := map[];
    TracksNothing();
    var i := 0;
    while i < |rows|
      invariant i <= |rows| && Tracks(accs, rows[..i], [])
    {
      var row := rows[i];
      var rowKeys: set<string> := {};
      var j := 0;
      while j < |row|
        invariant j <= |row| && Tracks(accs, rows[..i], row[..j]) && rowKeys == KeysOfRow(row[..j])
      {
        var item := row[j];
        ItemTurn(row, j, item.key);
        rowKeys := rowKeys + {item.key};
        var acc := if item.key in accs then accs[item.key] else Accumulator(None, false);
        if item.key !in accs && i > 0 {
          acc := acc.(nullable := true);
        }
        var observed := Observe(acc, item.key, item.value);
        if observed.Err? {
          CurrentType(accs, acc, rows[..i], row[..j], item.key);
          ObservationFails(rows, i, j, acc.dataType.GetOr(Null));
          return Err(observed.error);
        }
        AfterItem(accs, acc, observed.value, rows[..i], row, j);
        accs := accs[item.key := observed.value];
        j := j + 1;
      }
      assert row[..j] == row && rows[..i + 1] == rows[..i] + [row];
      var marked := MarkMissing(accs, rowKeys);
      AfterRow(accs, marked, rows[..i], row);
      accs := marked;
      i := i + 1;
    }
    assert rows[..i] == rows;
    TrackedFields(accs, rows);
    var fields := BuildFields(accs);
    r := Ok(PyroSchema(None, fields));
  }

  lemma TracksNothing()
    ensures Tracks(map[], [], [])
  {
  }

  lemma CurrentType(accs: map<string, Accumulator>, acc: Accumulator, done: seq<Row>, part: Row, k: string)
    requires Tracks(accs, done, part)
    requires acc.dataType == if k in accs then accs[k].dataType else None
    ensures InferFrom(Source, Some(Null), TypesSeen(done, k) + TypesInRow(part, k)) == Some(acc.dataType.GetOr(Null))
  {
    if k in accs {
      assert Follows(accs[k], done, part, k);
    } else {
      NewKey(done, part, k);
    }
  }
}
