/**
  Writing record batches to one file or to files of at most `chunk_size` rows
  (lib/pyro-file/src/lib.rs, write_csv and write_jsonl).

  I/O is an oracle over the operations in the order they are issued: creating a file, writing a
  slice, finishing a writer. What a failed call leaves on disk is part of the result.
*/
module ChunkedFiles {
  import opened Prelude
  import opened Decimal

  type Row = string

  datatype FilePath = FilePath(parent: string, name: string)

  /** A file as created: its rows so far and how often its writer was finished. */
  datatype OutFile = OutFile(path: FilePath, rows: seq<Row>, finished: nat)

  datatype WriteError = ZeroChunkSize | IoFailed

  type Oracle = nat -> bool

  // ---------------------------------------------------------------------------
  // Paths
  // ---------------------------------------------------------------------------

  /** Where the extension's dot is; a leading dot starts no extension. */
  function LastDot(name: string): (i: nat)
    ensures i <= |name| && (0 < i < |name| ==> name[i] == '.')
    ensures i == 0 ==> name == ""
    decreases |name|
  {
    if name == "" then 0
    else if |name| > 1 && name[|name| - 1] == '.' then |name| - 1
    else
      var shorter := name[..|name| - 1];
      if shorter == "" || LastDot(shorter) == |shorter| then |name| else LastDot(shorter)
  }

  /** Path::file_stem and Path::extension */
  function Stem(name: string): string {
    name[..LastDot(name)]
  }

  function Extension(name: string): string {
    if LastDot(name) < |name| then name[LastDot(name) + 1..] else ""
  }

  /** get_chunk_path */
  function ChunkPath(base: FilePath, index: Option<nat>): FilePath {
    match index
    case None => base
    case Some(i) =>
      var part := Stem(base.name) + "_part_" + Numeral(i);
      FilePath(base.parent, if Extension(base.name) == "" then part else part + "." + Extension(base.name))
  }

  predicate Dotless(s: string) {
    '.' !in s
  }

  /** Where the last dot is, for a name given as its parts. */
  lemma {:induction false} LastDotOf(stem: string, ext: string)
    requires stem != "" && Dotless(ext)
    ensures LastDot(stem + "." + ext) == |stem|
    decreases |ext|
  {
    var name := stem + "." + ext;
    if ext != "" {
      var shorter := ext[..|ext| - 1];
      assert ext[|ext| - 1] in ext && name[|name| - 1] == ext[|ext| - 1];
      assert name[..|name| - 1] == stem + "." + shorter;
      LastDotOf(stem, shorter);
    }
  }

  lemma {:induction false} NoLastDot(name: string)
    requires name == "" || Dotless(name[1..])
    ensures LastDot(name) == |name|
    decreases |name|
  {
    if name != "" {
      var shorter := name[..|name| - 1];
      if shorter != "" {
        assert name[1..][|name| - 2] in name[1..];
        assert forall c :: c in shorter[1..] ==> c in name[1..];
        NoLastDot(shorter);
      }
    }
  }

  /**
    The literal names of the chunks: the number goes before the extension, or at the end if there is
    none, where a leading dot starts no extension and a trailing one is dropped. They stay in the
    directory of the base path.
  */
  lemma ChunkPathSpelled(parent: string, stem: string, ext: string, i: nat)
    requires stem != "" && Dotless(ext)
    ensures ChunkPath(FilePath(parent, stem + "." + ext), Some(i)) ==
            FilePath(parent, stem + "_part_" + Numeral(i) + if ext == "" then "" else "." + ext)
    ensures Dotless(stem[1..]) ==>
              ChunkPath(FilePath(parent, stem), Some(i)) == FilePath(parent, stem + "_part_" + Numeral(i))
  {
    var name := stem + "." + ext;
    LastDotOf(stem, ext);
    assert Stem(name) == stem && Extension(name) == ext;
    if Dotless(stem[1..]) {
      NoLastDot(stem);
      assert Stem(stem) == stem;
    }
  }

  /** Chunk files never share a path. */
  lemma ChunkPathsDistinct(base: FilePath, i: nat, j: nat)
    requires ChunkPath(base, Some(i)) == ChunkPath(base, Some(j))
    ensures i == j
  {
    var front, ext := Stem(base.name) + "_part_", Extension(base.name);
    var back := if ext == "" then "" else "." + ext;
    var a, b := front + Numeral(i) + back, front + Numeral(j) + back;
    assert a == ChunkPath(base, Some(i)).name && b == ChunkPath(base, Some(j)).name;
    assert |Numeral(i)| == |Numeral(j)|;
    assert Numeral(i) == a[|front|..|front| + |Numeral(i)|] && Numeral(j) == b[|front|..|front| + |Numeral(j)|];
    NumeralInjective(i, j);
  }

  // ---------------------------------------------------------------------------
  // What a chunking is
  // ---------------------------------------------------------------------------

  function Concat(parts: seq<seq<Row>>): seq<Row> {
    if parts == [] then [] else Concat(parts[..|parts| - 1]) + parts[|parts| - 1]
  }

  /** The parts are the rows in order, k to a part, the last one holding what is left. */
  ghost predicate Chunked(parts: seq<seq<Row>>, rows: seq<Row>, k: nat) {
    && Concat(parts) == rows
    && (forall i :: 0 <= i < |parts| ==> 1 <= |parts[i]| <= k)
    && (forall i :: 0 <= i < |parts| - 1 ==> |parts[i]| == k)
  }

  lemma OneMore(n: nat, k: nat)
    ensures (n + 1) * k == n * k + k
  {
  }

  lemma {:induction false} FullParts(parts: seq<seq<Row>>, k: nat)
    requires forall i :: 0 <= i < |parts| ==> |parts[i]| == k
    ensures |Concat(parts)| == |parts| * k
  {
    if parts != [] {
      FullParts(parts[..|parts| - 1], k);
      OneMore(|parts| - 1, k);
    }
  }

  /** The number of parts is the number of rows over k, rounded up. */
  lemma ChunkCount(parts: seq<seq<Row>>, rows: seq<Row>, k: nat)
    requires k > 0 && Chunked(parts, rows, k)
    ensures |parts| == (|rows| + k - 1) / k
  {
    if parts == [] {
      assert (k - 1) / k == 0;
    } else {
      var n := |parts| - 1;
      FullParts(parts[..n], k);
      var last := |parts[n]|;
      assert |rows| == n * k + last && 1 <= last <= k;
      RoundsUp(n, k, last);
    }
  }

  lemma RoundsUp(n: nat, k: nat, last: nat)
    requires 1 <= last <= k
    ensures (n * k + last + k - 1) / k == n + 1
  {
    var r := last - 1;
    assert n * k + last + k - 1 == (n + 1) * k + r && r < k;
    DivOfSum(n + 1, k, r);
  }

  lemma MultiplesOrdered(a: nat, b: nat, k: nat)
    requires a <= b
    ensures a * k <= b * k
  {
  }

  lemma DivOfSum(q: nat, k: nat, r: nat)
    requires r < k
    ensures (q * k + r) / k == q
  {
    var d := (q * k + r) / k;
    assert d * k <= q * k + r < (d + 1) * k;
    if d < q {
      MultiplesOrdered(d + 1, q, k);
    } else if d > q {
      MultiplesOrdered(q + 1, d, k);
    }
  }

  /** There is only one chunking, so two writers that chunk the same rows write the same files. */
  lemma {:induction false} ChunkingUnique(parts: seq<seq<Row>>, parts': seq<seq<Row>>, rows: seq<Row>, k: nat)
    requires k > 0 && Chunked(parts, rows, k) && Chunked(parts', rows, k)
    ensures parts == parts'
    decreases |parts|
  {
    ChunkCount(parts, rows, k);
    ChunkCount(parts', rows, k);
    if parts != [] {
      var n := |parts| - 1;
      FullParts(parts[..n], k);
      FullParts(parts'[..n], k);
      var front := rows[..n * k];
      assert front == Concat(parts[..n]) && front == Concat(parts'[..n]);
      assert parts[n] == rows[n * k..] && parts'[n] == rows[n * k..];
      ChunkingUnique(parts[..n], parts'[..n], front, k);
      assert parts == parts[..n] + [parts[n]] && parts' == parts'[..n] + [parts'[n]];
    }
  }

  /** With a chunk size no smaller than the data there is at most one file. */
  lemma OneChunk(parts: seq<seq<Row>>, rows: seq<Row>, k: nat)
    requires k > 0 && Chunked(parts, rows, k) && |rows| <= k
    ensures parts == if rows == [] then [] else [rows]
  {
    if rows == [] {
      ChunkCount(parts, rows, k);
      assert (k - 1) / k == 0;
    } else {
      assert [rows][..0] == [];
      assert Concat([rows]) == rows;
      ChunkingUnique(parts, [rows], rows, k);
    }
  }

  // ---------------------------------------------------------------------------
  // The writers' state
  // ---------------------------------------------------------------------------

  function Contents(files: seq<OutFile>): seq<seq<Row>> {
    seq(|files|, i requires 0 <= i < |files| => files[i].rows)
  }

  function Suffix(chunkSize: Option<Usize>, i: nat): Option<nat> {
    if chunkSize.Some? then Some(i) else None
  }

  ghost predicate PathsAre(files: seq<OutFile>, paths: seq<FilePath>, base: FilePath, chunkSize: Option<Usize>) {
    && |paths| == |files|
    && forall i :: 0 <= i < |files| ==> files[i].path == paths[i] && paths[i] == ChunkPath(base, Suffix(chunkSize, i))
  }

  /**
    The loop's counters against the files: `open` says that the last file is still being written,
    `idx` counts the closed ones, `chunkRows` the rows in the open one.
  */
  ghost predicate Counters(files: seq<OutFile>, rows: seq<Row>, k: nat, open: bool, idx: nat, chunkRows: nat) {
    && Chunked(Contents(files), rows, k)
    && idx == |files| - (if open then 1 else 0)
    && (open ==> files != [] && chunkRows == |files[|files| - 1].rows| < k)
    && (!open ==> chunkRows == 0 && (files != [] ==> |files[|files| - 1].rows| == k))
  }

  /** Finished writers: once each, but for the one still open. */
  ghost predicate FinishedOnce(files: seq<OutFile>, open: bool) {
    forall i :: 0 <= i < |files| ==> files[i].finished == if open && i == |files| - 1 then 0 else 1
  }

  function WithLast(files: seq<OutFile>, f: OutFile): seq<OutFile>
    requires files != []
  {
    files[..|files| - 1] + [f]
  }

  function Appended(f: OutFile, slice: seq<Row>): OutFile {
    f.(rows := f.rows + slice)
  }

  function Finished(f: OutFile): OutFile {
    f.(finished := f.finished + 1)
  }

  lemma ConcatAppend(parts: seq<seq<Row>>, part: seq<Row>)
    ensures Concat(parts + [part]) == Concat(parts) + part
  {
    assert (parts + [part])[..|parts|] == parts;
  }

  lemma AddPart(parts: seq<seq<Row>>, rows: seq<Row>, part: seq<Row>, k: nat)
    requires Chunked(parts, rows, k) && 1 <= |part| <= k
    requires parts != [] ==> |parts[|parts| - 1]| == k
    ensures Chunked(parts + [part], rows + part, k)
  {
    ConcatAppend(parts, part);
  }

  lemma GrowLast(front: seq<seq<Row>>, last: seq<Row>, rows: seq<Row>, slice: seq<Row>, k: nat)
    requires Chunked(front + [last], rows, k) && |last| + |slice| <= k
    ensures Chunked(front + [last + slice], rows + slice, k)
  {
    ConcatAppend(front, last);
    ConcatAppend(front, last + slice);
    var parts, grown := front + [last], front + [last + slice];
    assert forall i :: 0 <= i < |front| ==> parts[i] == grown[i];
  }

  /** Writing a slice that fits, into a file started for it if none was. */
  lemma SliceKeepsCounters(files: seq<OutFile>, rows: seq<Row>, k: nat, open: bool, idx: nat, chunkRows: nat,
                           path: FilePath, slice: seq<Row>)
    requires k > 0 && Counters(files, rows, k, open, idx, chunkRows)
    requires 1 <= |slice| <= k - chunkRows
    ensures var started := if open then files else files + [OutFile(path, [], 0)];
            var written := WithLast(started, Appended(started[|started| - 1], slice));
            Counters(written, rows + slice, k, chunkRows + |slice| < k,
                     if chunkRows + |slice| < k then idx else idx + 1,
                     if chunkRows + |slice| < k then chunkRows + |slice| else 0)
  {
    hide Chunked, Concat;
    var started := if open then files else files + [OutFile(path, [], 0)];
    var n := |started| - 1;
    var last := started[n];
    var written := WithLast(started, Appended(last, slice));
    assert Contents(written) == Contents(started[..n]) + [last.rows + slice];
    if open {
      assert Contents(files) == Contents(started[..n]) + [last.rows];
      GrowLast(Contents(started[..n]), last.rows, rows, slice, k);
    } else {
      assert started[..n] == files && last.rows + slice == slice;
      AddPart(Contents(files), rows, slice, k);
    }
  }

  lemma FinishKeepsContents(files: seq<OutFile>)
    requires files != []
    ensures Contents(WithLast(files, Finished(files[|files| - 1]))) == Contents(files)
  {
  }

  /** A freshly started file holds no rows yet. */
  lemma OpeningKeepsRows(files: seq<OutFile>, path: FilePath)
    ensures Concat(Contents(files + [OutFile(path, [], 0)])) == Concat(Contents(files))
  {
    assert Contents(files + [OutFile(path, [], 0)]) == Contents(files) + [[]];
    ConcatAppend(Contents(files), []);
  }

  /** The state between two turns of the inner loop, `rows` being what was written so far. */
  ghost predicate Writing(files: seq<OutFile>, paths: seq<FilePath>, base: FilePath, chunkSize: Option<Usize>,
                          rows: seq<Row>, open: bool, idx: nat, chunkRows: nat)
  {
    var k := chunkSize.GetOr(USIZE_MAX);
    Counters(files, rows, k, open, idx, chunkRows) && PathsAre(files, paths, base, chunkSize)
  }

  function Opened(files: seq<OutFile>, path: FilePath, open: bool): seq<OutFile> {
    if open then files else files + [OutFile(path, [], 0)]
  }

  function OpenedPaths(paths: seq<FilePath>, path: FilePath, open: bool): seq<FilePath> {
    if open then paths else paths + [path]
  }

  lemma SliceKeepsPaths(files: seq<OutFile>, paths: seq<FilePath>, base: FilePath, chunkSize: Option<Usize>, open: bool,
                        slice: seq<Row>)
    requires PathsAre(files, paths, base, chunkSize) && (open ==> files != [])
    ensures var path := ChunkPath(base, Suffix(chunkSize, |files|));
            var started := Opened(files, path, open);
            && started != []
            && PathsAre(WithLast(started, Appended(started[|started| - 1], slice)),
                        OpenedPaths(paths, path, open), base, chunkSize)
  {
    hide ChunkPath;
  }

  lemma SliceKeepsWriting(files: seq<OutFile>, paths: seq<FilePath>, base: FilePath, chunkSize: Option<Usize>,
                          rows: seq<Row>, open: bool, idx: nat, chunkRows: nat, slice: seq<Row>)
    requires chunkSize != Some(0)
    requires Writing(files, paths, base, chunkSize, rows, open, idx, chunkRows)
    requires 1 <= |slice| <= chunkSize.GetOr(USIZE_MAX) - chunkRows
    ensures var k := chunkSize.GetOr(USIZE_MAX);
            var path := ChunkPath(base, Suffix(chunkSize, idx));
            var started := Opened(files, path, open);
            && started != []
            && var written := WithLast(started, Appended(started[|started| - 1], slice));
               var full := chunkRows + |slice| >= k;
               Writing(written, OpenedPaths(paths, path, open), base, chunkSize, rows + slice,
                       !full, if full then idx + 1 else idx, if full then 0 else chunkRows + |slice|)
  {
    hide Chunked, ChunkPath, PathsAre;
    var path := ChunkPath(base, Suffix(chunkSize, idx));
    SliceKeepsPaths(files, paths, base, chunkSize, open, slice);
    SliceKeepsCounters(files, rows, chunkSize.GetOr(USIZE_MAX), open, idx, chunkRows, path, slice);
  }

  lemma {:induction false} NoMorePartsThanRows(parts: seq<seq<Row>>)
    requires forall i :: 0 <= i < |parts| ==> 1 <= |parts[i]|
    ensures |parts| <= |Concat(parts)|
  {
    if parts != [] {
      NoMorePartsThanRows(parts[..|parts| - 1]);
    }
  }

  lemma WritingHolds(files: seq<OutFile>, paths: seq<FilePath>, base: FilePath, chunkSize: Option<Usize>,
                     rows: seq<Row>, open: bool, idx: nat, chunkRows: nat)
    requires Writing(files, paths, base, chunkSize, rows, open, idx, chunkRows)
    ensures Concat(Contents(files)) == rows
    ensures open ==> files != [] && chunkRows < chunkSize.GetOr(USIZE_MAX)
    ensures !open ==> chunkRows == 0
    ensures idx <= |files| <= |rows|
    ensures forall path :: Concat(Contents(Opened(files, path, open))) == rows
  {
    NoMorePartsThanRows(Contents(files));
    forall path ensures Concat(Contents(Opened(files, path, open))) == rows {
      OpeningKeepsRows(files, path);
    }
  }

  lemma WritingStarts(base: FilePath, chunkSize: Option<Usize>)
    ensures Writing([], [], base, chunkSize, [], false, 0, 0)
  {
  }

  /** The rows together are no more than a usize can count. */
  predicate Countable(batches: seq<seq<Row>>) {
    |Concat(batches)| < USIZE_LIMIT
  }

  /** What a writer promises: on success a chunking of all rows, on an I/O failure a prefix of them. */
  ghost predicate Promise(batches: seq<seq<Row>>, base: FilePath, chunkSize: Option<Usize>,
                          r: Result<seq<FilePath>, WriteError>, files: seq<OutFile>)
  {
    var rows := Concat(batches);
    match r
    case Ok(paths) =>
      && Chunked(Contents(files), rows, chunkSize.GetOr(USIZE_MAX))
      && PathsAre(files, paths, base, chunkSize)
    case Err(ZeroChunkSize) => batches != [] && chunkSize == Some(0) && files == []
    case Err(IoFailed) => Concat(Contents(files)) <= rows
  }

  /** The outer loop's progress through the batches. */
  lemma BatchDone(batches: seq<seq<Row>>, b: nat)
    requires b < |batches|
    ensures Concat(batches[..b]) + batches[b][..|batches[b]|] == Concat(batches[..b + 1])
    ensures Concat(batches[..b]) + batches[b][..0] == Concat(batches[..b])
  {
    assert batches[..b + 1][..b] == batches[..b];
    assert batches[b][..|batches[b]|] == batches[b];
  }

  lemma {:induction false} SoFarIsPrefix(batches: seq<seq<Row>>, b: nat, offset: nat)
    requires b < |batches| && offset <= |batches[b]|
    ensures Concat(batches[..b]) + batches[b][..offset] <= Concat(batches)
    decreases |batches|
  {
    var n := |batches| - 1;
    if b < n {
      assert batches[..n][..b] == batches[..b];
      SoFarIsPrefix(batches[..n], b, offset);
    }
  }

  /** So whatever has been written so far can be counted, and each batch by itself. */
  lemma SoFarCountable(batches: seq<seq<Row>>, b: nat, offset: nat)
    requires Countable(batches) && b < |batches| && offset <= |batches[b]|
    ensures |Concat(batches[..b])| + |batches[b]| < USIZE_LIMIT
    ensures |Concat(batches[..b]) + batches[b][..offset]| < USIZE_LIMIT
  {
    SoFarIsPrefix(batches, b, |batches[b]|);
    SoFarIsPrefix(batches, b, offset);
  }

  /** Success is a matter of the arguments and the I/O alone. */
  ghost predicate SucceedsIfIoDoes(batches: seq<seq<Row>>, chunkSize: Option<Usize>, io: Oracle,
                                   r: Result<seq<FilePath>, WriteError>)
  {
    && (chunkSize == Some(0) && batches != [] ==> r == Err(ZeroChunkSize))
    && ((forall op :: io(op)) && (chunkSize != Some(0) || batches == []) ==> r.Ok?)
  }

  lemma NoBatches(base: FilePath, chunkSize: Option<Usize>, io: Oracle)
    ensures Promise([], base, chunkSize, Ok([]), []) && SucceedsIfIoDoes([], chunkSize, io, Ok([]))
  {
  }

  lemma IoFailedPromise(batches: seq<seq<Row>>, b: nat, offset: nat, base: FilePath, chunkSize: Option<Usize>,
                        files: seq<OutFile>)
    requires b < |batches| && offset <= |batches[b]|
    requires Concat(Contents(files)) == Concat(batches[..b]) + batches[b][..offset]
    ensures Promise(batches, base, chunkSize, Err(IoFailed), files)
  {
    SoFarIsPrefix(batches, b, offset);
  }

  lemma SuccessPromise(batches: seq<seq<Row>>, base: FilePath, chunkSize: Option<Usize>, files: seq<OutFile>,
                       paths: seq<FilePath>, open: bool, idx: nat, chunkRows: nat)
    requires Writing(files, paths, base, chunkSize, Concat(batches[..|batches|]), open, idx, chunkRows)
    ensures Promise(batches, base, chunkSize, Ok(paths), files)
  {
    assert batches[..|batches|] == batches;
  }

  lemma ZeroPromise(batches: seq<seq<Row>>, base: FilePath)
    requires batches != []
    ensures Promise(batches, base, Some(0), Err(ZeroChunkSize), [])
  {
  }

  lemma NothingFirst(batches: seq<seq<Row>>)
    ensures Concat(batches[..0]) == []
  {
  }

  /** Steps 1 to 3 of both loops: open a file if none is open, then write the slice to it. */
  method WriteSlice(base: FilePath, chunkSize: Option<Usize>, files: seq<OutFile>, paths: seq<FilePath>, open: bool,
                    idx: nat, slice: seq<Row>, io: Oracle, op: nat)
    returns (ok: bool, files': seq<OutFile>, paths': seq<FilePath>, op': nat)
    requires open ==> files != []
    ensures var path := ChunkPath(base, Suffix(chunkSize, idx));
            var started := Opened(files, path, open);
            && started != []
            && (ok ==> files' == WithLast(started, Appended(started[|started| - 1], slice)) &&
                       paths' == OpenedPaths(paths, path, open))
            && (!ok ==> files' == files || files' == started)
    ensures (forall n :: io(n)) ==> ok
  {
    files', paths', op' := files, paths, op;
    if !open {
      var path := ChunkPath(base, Suffix(chunkSize, idx));
      if !io(op') {
        return false, files', paths', op';
      }
      op' := op' + 1;
      files' := files' + [OutFile(path, [], 0)];
      paths' := paths' + [path];
    }
    if !io(op') {
      return false, files', paths', op';
    }
    op' := op' + 1;
    files' := WithLast(files', Appended(files'[|files'| - 1], slice));
    ok := true;
  }

  /** write_csv; dropping a writer closes its file. */
  method WriteCsv(batches: seq<seq<Row>>, base: FilePath, chunkSize: Option<Usize>, io: Oracle)
    returns (r: Result<seq<FilePath>, WriteError>, files: seq<OutFile>)
    requires Countable(batches)
    ensures Promise(batches, base, chunkSize, r, files)
    ensures SucceedsIfIoDoes(batches, chunkSize, io, r)
  {
    hide Writing, Promise, Concat, Contents, ChunkPath, WithLast, Opened, OpenedPaths, Appended;
    files := [];
    if batches == [] {
      NoBatches(base, chunkSize, io);
      return Ok([]), [];
    }
    var paths: seq<FilePath> := [];
    var open := false;
    var idx: Usize, chunkRows: Usize, op := 0, 0, 0;
    var k: Usize := chunkSize.GetOr(USIZE_MAX);
    if k == 0 {
      ZeroPromise(batches, base);
      return Err(ZeroChunkSize), [];
    }
    WritingStarts(base, chunkSize);
    NothingFirst(batches);
    var b := 0;
    while b < |batches|
      invariant b <= |batches|
      invariant Writing(files, paths, base, chunkSize, Concat(batches[..b]), open, idx, chunkRows)
    {
      var batch := batches[b];
      SoFarCountable(batches, b, 0);
      var offset: Usize := 0;
      BatchDone(batches, b);
      while offset < |batch|
        invariant offset <= |batch|
        invariant Writing(files, paths, base, chunkSize, Concat(batches[..b]) + batch[..offset], open, idx, chunkRows)
      {
        ghost var soFar := Concat(batches[..b]) + batch[..offset];
        WritingHolds(files, paths, base, chunkSize, soFar, open, idx, chunkRows);
        var remainingInBatch: Usize := |batch| - offset;
        var remainingInChunk: Usize := k - chunkRows;
        var writeLen: Usize := Min(remainingInBatch, remainingInChunk);
        var slice := batch[offset..offset + writeLen];
        SliceKeepsWriting(files, paths, base, chunkSize, soFar, open, idx, chunkRows, slice);
        assert soFar + slice == Concat(batches[..b]) + batch[..offset + writeLen];
        var ok: bool;
        ok, files, paths, op := WriteSlice(base, chunkSize, files, paths, open, idx, slice, io, op);
        if !ok {
          IoFailedPromise(batches, b, offset, base, chunkSize, files);
          return Err(IoFailed), files;
        }
        offset := offset + writeLen;
        chunkRows := chunkRows + writeLen;
        SoFarCountable(batches, b, offset);
        open := true;
        if chunkRows >= k {
          WritingHolds(files, paths, base, chunkSize, soFar + slice, false, idx + 1, 0);
          open := false;
          idx := idx + 1;
          chunkRows := 0;
        }
      }
      b := b + 1;
    }
    SuccessPromise(batches, base, chunkSize, files, paths, open, idx, chunkRows);
    r := Ok(paths);
  }

  lemma FinishKeepsWriting(files: seq<OutFile>, paths: seq<FilePath>, base: FilePath, chunkSize: Option<Usize>,
                           rows: seq<Row>, open: bool, idx: nat, chunkRows: nat)
    requires Writing(files, paths, base, chunkSize, rows, open, idx, chunkRows) && files != []
    ensures Writing(WithLast(files, Finished(files[|files| - 1])), paths, base, chunkSize, rows, open, idx, chunkRows)
  {
    FinishKeepsContents(files);
  }

  lemma SliceKeepsFinished(files: seq<OutFile>, path: FilePath, open: bool, slice: seq<Row>)
    requires FinishedOnce(files, open) && (open ==> files != [])
    ensures var started := Opened(files, path, open);
            && started != []
            && var written := WithLast(started, Appended(started[|started| - 1], slice));
               written != [] && FinishedOnce(written, true)
  {
  }

  lemma NoneUnfinished()
    ensures FinishedOnce([], false)
  {
  }

  lemma FinishFinishes(files: seq<OutFile>)
    requires FinishedOnce(files, true) && files != []
    ensures FinishedOnce(WithLast(files, Finished(files[|files| - 1])), false)
  {
  }

  method FinishWriter(files: seq<OutFile>, io: Oracle, op: nat) returns (ok: bool, files': seq<OutFile>, op': nat)
    requires files != []
    ensures files' == if ok then WithLast(files, Finished(files[|files| - 1])) else files
    ensures (forall n :: io(n)) ==> ok
  {
    if !io(op) {
      return false, files, op;
    }
    return true, WithLast(files, Finished(files[|files| - 1])), op + 1;
  }

  /** write_jsonl: each writer is finished when its file is full, or at the end. */
  method WriteJsonl(batches: seq<seq<Row>>, base: FilePath, chunkSize: Option<Usize>, io: Oracle)
    returns (r: Result<seq<FilePath>, WriteError>, files: seq<OutFile>)
    requires Countable(batches)
    ensures Promise(batches, base, chunkSize, r, files)
    ensures SucceedsIfIoDoes(batches, chunkSize, io, r)
    ensures r.Ok? ==> FinishedOnce(files, false)
  {
    hide Writing, Promise, Concat, Contents, ChunkPath, FinishedOnce, WithLast, Opened, OpenedPaths, Appended, Finished;
    NoneUnfinished();
    files := [];
    if batches == [] {
      NoBatches(base, chunkSize, io);
      return Ok([]), [];
    }
    var paths: seq<FilePath> := [];
    var open := false;
    var idx: Usize, chunkRows: Usize, op := 0, 0, 0;
    var k: Usize := chunkSize.GetOr(USIZE_MAX);
    if k == 0 {
      ZeroPromise(batches, base);
      return Err(ZeroChunkSize), [];
    }
    WritingStarts(base, chunkSize);
    NothingFirst(batches);
    var b := 0;
    while b < |batches|
      invariant b <= |batches|
      invariant Writing(files, paths, base, chunkSize, Concat(batches[..b]), open, idx, chunkRows)
      invariant FinishedOnce(files, open)
    {
      var batch := batches[b];
      SoFarCountable(batches, b, 0);
      var offset: Usize := 0;
      BatchDone(batches, b);
      while offset < |batch|
        invariant offset <= |batch|
        invariant Writing(files, paths, base, chunkSize, Concat(batches[..b]) + batch[..offset], open, idx, chunkRows)
        invariant FinishedOnce(files, open)
      {
        ghost var soFar := Concat(batches[..b]) + batch[..offset];
        WritingHolds(files, paths, base, chunkSize, soFar, open, idx, chunkRows);
        var remainingInBatch: Usize := |batch| - offset;
        var remainingInChunk: Usize := k - chunkRows;
        var writeLen: Usize := Min(remainingInBatch, remainingInChunk);
        var slice := batch[offset..offset + writeLen];
        SliceKeepsWriting(files, paths, base, chunkSize, soFar, open, idx, chunkRows, slice);
        SliceKeepsFinished(files, ChunkPath(base, Suffix(chunkSize, idx)), open, slice);
        assert soFar + slice == Concat(batches[..b]) + batch[..offset + writeLen];
        var ok: bool;
        ok, files, paths, op := WriteSlice(base, chunkSize, files, paths, open, idx, slice, io, op);
        if !ok {
          IoFailedPromise(batches, b, offset, base, chunkSize, files);
          return Err(IoFailed), files;
        }
        offset := offset + writeLen;
        chunkRows := chunkRows + writeLen;
        SoFarCountable(batches, b, offset);
        open := true;
        if chunkRows >= k {
          WritingHolds(files, paths, base, chunkSize, soFar + slice, false, idx + 1, 0);
          FinishKeepsWriting(files, paths, base, chunkSize, soFar + slice, false, idx + 1, 0);
          FinishFinishes(files);
          ok, files, op := FinishWriter(files, io, op);
          if !ok {
            IoFailedPromise(batches, b, offset, base, chunkSize, files);
            return Err(IoFailed), files;
          }
          open := false;
          idx := idx + 1;
          chunkRows := 0;
        }
      }
      b := b + 1;
    }
    WritingHolds(files, paths, base, chunkSize, Concat(batches[..b]), open, idx, chunkRows);
    if open {
      FinishKeepsWriting(files, paths, base, chunkSize, Concat(batches[..b]), open, idx, chunkRows);
      FinishFinishes(files);
      BatchDone(batches, b - 1);
      var ok: bool;
      ok, files, op := FinishWriter(files, io, op);
      if !ok {
        IoFailedPromise(batches, b - 1, |batches[b - 1]|, base, chunkSize, files);
        return Err(IoFailed), files;
      }
    }
    SuccessPromise(batches, base, chunkSize, files, paths, open, idx, chunkRows);
    r := Ok(paths);
  }

  // ---------------------------------------------------------------------------
  // What follows for the caller
  // ---------------------------------------------------------------------------

  /**
    A successful chunked write: ceil(total / k) files with pairwise distinct paths, so the file index
    never exceeds the row count.
  */
  lemma ChunkedWriteFacts(batches: seq<seq<Row>>, base: FilePath, k: Usize, paths: seq<FilePath>, files: seq<OutFile>)
    requires k > 0 && Promise(batches, base, Some(k), Ok(paths), files)
    ensures |files| == (|Concat(batches)| + k - 1) / k
    ensures |files| <= |Concat(batches)|
    ensures Distinct(paths)
  {
    ChunkCount(Contents(files), Concat(batches), k);
    NoMorePartsThanRows(Contents(files));
    forall i, j | 0 <= i < j < |paths|
      ensures paths[i] != paths[j]
    {
      if paths[i] == paths[j] {
        ChunkPathsDistinct(base, i, j);
      }
    }
  }

  /** CSV and JSONL split identically: any two successful writes of the same batches agree file by file. */
  lemma WritersAgree(batches: seq<seq<Row>>, base: FilePath, chunkSize: Option<Usize>,
                     paths: seq<FilePath>, files: seq<OutFile>, paths': seq<FilePath>, files': seq<OutFile>)
    requires chunkSize != Some(0)
    requires Promise(batches, base, chunkSize, Ok(paths), files)
    requires Promise(batches, base, chunkSize, Ok(paths'), files')
    ensures Contents(files) == Contents(files') && paths == paths'
  {
    ChunkingUnique(Contents(files), Contents(files'), Concat(batches), chunkSize.GetOr(USIZE_MAX));
    assert |files| == |Contents(files)| == |Contents(files')| == |files'|;
  }

  /** Without a chunk size everything goes to the one file asked for, or to none if there are no rows. */
  lemma UnchunkedWriteFacts(batches: seq<seq<Row>>, base: FilePath, paths: seq<FilePath>, files: seq<OutFile>)
    requires Promise(batches, base, None, Ok(paths), files) && |Concat(batches)| <= USIZE_MAX
    ensures Contents(files) == if Concat(batches) == [] then [] else [Concat(batches)]
    ensures paths == if Concat(batches) == [] then [] else [base]
  {
    OneChunk(Contents(files), Concat(batches), USIZE_MAX);
    assert |paths| == |Contents(files)|;
  }

  /** The paths of a successful chunked write, in the order of the rows. */
  lemma ChunkedPathsSpelled(batches: seq<seq<Row>>, parent: string, stem: string, ext: string, k: Usize,
                            paths: seq<FilePath>, files: seq<OutFile>)
    requires stem != "" && Dotless(ext)
    ensures Promise(batches, FilePath(parent, stem + "." + ext), Some(k), Ok(paths), files) ==>
              && |files| == |paths|
              && forall i :: 0 <= i < |paths| ==>
                   files[i].path == paths[i] ==
                   FilePath(parent, stem + "_part_" + Numeral(i) + if ext == "" then "" else "." + ext)
    ensures Dotless(stem[1..]) && Promise(batches, FilePath(parent, stem), Some(k), Ok(paths), files) ==>
              && |files| == |paths|
              && forall i :: 0 <= i < |paths| ==>
                   files[i].path == paths[i] == FilePath(parent, stem + "_part_" + Numeral(i))
  {
    forall i: nat
      ensures ChunkPath(FilePath(parent, stem + "." + ext), Some(i)) ==
              FilePath(parent, stem + "_part_" + Numeral(i) + if ext == "" then "" else "." + ext)
      ensures Dotless(stem[1..]) ==>
                ChunkPath(FilePath(parent, stem), Some(i)) == FilePath(parent, stem + "_part_" + Numeral(i))
    {
      ChunkPathSpelled(parent, stem, ext, i);
    }
    hide ChunkPath;
  }
}
