/** How an append lays its rows out over the files of a log. */
module LogChunks {
  import opened Wrappers
  import opened LogFiles

  /** Rows written to a file at once, and the file's size before. */
  datatype Chunk = Chunk(file: Name, rows: seq<Row>, before: nat)

  function Unchunked(chunks: seq<Chunk>): seq<Row> {
    if chunks == [] then [] else chunks[0].rows + Unchunked(chunks[1..])
  }

  /** A chunk goes to a file of its first row's day, and fits the file or is a single row. */
  ghost predicate ChunkFits(c: Chunk, maxFileSize: nat) {
    && c.rows != [] && c.file.day == DayOf(c.rows[0].ts)
    && (|c.rows| == 1 || c.before + Bytes(c.rows) <= maxFileSize)
  }

  /** The next chunk begins with a row that did not fit, and on the same day in the next file, which is new. */
  ghost predicate Spills(c: Chunk, next: Chunk, maxFileSize: nat) {
    && next.rows != [] && c.before + Bytes(c.rows) + LineLength(next.rows[0]) > maxFileSize
    && (next.file.day == c.file.day ==>
          c.file.num < next.file.num && next.before == 0 && (0 < maxFileSize ==> next.file.num == c.file.num + 1))
  }

  ghost predicate LaidOut(chunks: seq<Chunk>, maxFileSize: nat) {
    chunks != [] ==>
      && ChunkFits(chunks[0], maxFileSize)
      && (|chunks| > 1 ==> Spills(chunks[0], chunks[1], maxFileSize))
      && LaidOut(chunks[1..], maxFileSize)
  }

  // ----- what the files hold afterwards -----

  /** The files of the chunks rise, so no two chunks are in one file. */
  ghost predicate FilesRise(chunks: seq<Chunk>) {
    |chunks| > 1 ==> NameLess(chunks[0].file, chunks[1].file) && FilesRise(chunks[1..])
  }

  lemma {:induction false} LaterFilesAreLater(chunks: seq<Chunk>, i: nat)
    requires FilesRise(chunks) && 0 < i < |chunks|
    ensures NameLess(chunks[0].file, chunks[i].file)
  {
    if i > 1 { LaterFilesAreLater(chunks[1..], i - 1); }
  }

  /** The rows of the chunks that went to a file. */
  function Gathered(chunks: seq<Chunk>, file: Name): seq<Row> {
    if chunks == [] then []
    else (if chunks[0].file == file then chunks[0].rows else []) + Gathered(chunks[1..], file)
  }

  lemma {:induction false} NothingGathered(chunks: seq<Chunk>, file: Name)
    requires forall i :: 0 <= i < |chunks| ==> chunks[i].file != file
    ensures Gathered(chunks, file) == []
  {
    if chunks != [] { NothingGathered(chunks[1..], file); }
  }

  predicate HasFile(chunks: seq<Chunk>, file: Name) {
    exists i :: 0 <= i < |chunks| && chunks[i].file == file
  }

  /** A file that is there afterwards was there before or took a chunk, and holds what it did and its chunks. */
  ghost predicate PlacedAt(before: Files, after: Files, chunks: seq<Chunk>, file: Name) {
    file in after ==>
      && (file in before || HasFile(chunks, file))
      && after[file].rows == RowsOf(before, file) + Gathered(chunks, file)
  }

  ghost predicate SizeKnown(before: Files, c: Chunk) {
    c.before == Bytes(RowsOf(before, c.file))
  }

  ghost predicate Placed(before: Files, after: Files, chunks: seq<Chunk>) {
    && FilesRise(chunks)
    && (forall i :: 0 <= i < |chunks| ==> SizeKnown(before, chunks[i]))
    && (forall file :: PlacedAt(before, after, chunks, file))
  }

  /** One chunk was written, after some other files may have been deleted. */
  ghost predicate Wrote(before: Files, after: Files, c: Chunk) {
    && SizeKnown(before, c) && c.file in after
    && (forall file :: file in after ==> file == c.file || file in before)
    && (forall file :: file in after ==>
          after[file].rows == RowsOf(before, file) + if file == c.file then c.rows else [])
  }

  lemma PlacedOne(before: Files, after: Files, c: Chunk)
    requires Wrote(before, after, c)
    ensures Placed(before, after, [c])
  {
    forall file
      ensures PlacedAt(before, after, [c], file)
    {
      assert [c][0].file == c.file && [c][1..] == [];
      assert Gathered([c], file) == if file == c.file then c.rows else [];
    }
  }

  /** A chunk is written, files are deleted, and the rest is written to later files. */
  lemma PlacedFirst(before: Files, written: Files, left: Files, after: Files, c: Chunk, rest: seq<Chunk>)
    requires Wrote(before, written, c) && Placed(left, after, rest)
    requires forall file :: file in left ==> file in written && left[file] == written[file]
    requires forall file :: file in before || file in written ==> NameAtMost(file, c.file)
    requires rest != [] ==> NameLess(c.file, rest[0].file)
    ensures Placed(before, after, [c] + rest)
  {
    var chunks := [c] + rest;
    assert chunks[1..] == rest;
    forall i | 0 < i < |chunks|
      ensures NameLess(c.file, chunks[i].file) && chunks[i].file !in before && chunks[i].file !in written
      ensures SizeKnown(before, chunks[i])
    {
      LaterFilesAreLater(chunks, i);
      assert SizeKnown(left, rest[i - 1]);
    }
    forall file
      ensures PlacedAt(before, after, chunks, file)
    {
      assert PlacedAt(left, after, rest, file);
      if file in after {
        PlacedFirstAt(before, written, left, after, c, rest, file);
      }
    }
  }

  lemma PlacedFirstAt(before: Files, written: Files, left: Files, after: Files, c: Chunk, rest: seq<Chunk>, file: Name)
    requires Wrote(before, written, c) && file in after && PlacedAt(left, after, rest, file)
    requires forall file :: file in left ==> file in written && left[file] == written[file]
    requires forall i :: 0 <= i < |rest| ==>
               rest[i].file != c.file && rest[i].file !in before && rest[i].file !in written
    ensures PlacedAt(before, after, [c] + rest, file)
  {
    var chunks := [c] + rest;
    assert chunks[0] == c && chunks[1..] == rest;
    if HasFile(rest, file) {
      var i :| 0 <= i < |rest| && rest[i].file == file;
      assert chunks[i + 1].file == file;
      assert file !in left;
    } else {
      NothingGathered(rest, file);
      assert file in left && file in written;
    }
  }

  // ----- files are filled -----

  /** Every file took at most one row, or is within the limit. */
  ghost predicate Filled(before: Files, after: Files, maxFileSize: nat) {
    forall file :: file in after ==>
      |after[file].rows| <= |RowsOf(before, file)| + 1 || Bytes(after[file].rows) <= maxFileSize
  }

  lemma {:induction false} GatheredIsOneChunk(chunks: seq<Chunk>, file: Name, i: nat)
    requires FilesRise(chunks) && i < |chunks| && chunks[i].file == file
    ensures Gathered(chunks, file) == chunks[i].rows
  {
    if i == 0 {
      forall j | 0 <= j < |chunks[1..]|
        ensures chunks[1..][j].file != file
      {
        LaterFilesAreLater(chunks, j + 1);
      }
      NothingGathered(chunks[1..], file);
    } else {
      LaterFilesAreLater(chunks, i);
      GatheredIsOneChunk(chunks[1..], file, i - 1);
    }
  }

  lemma {:induction false} EachFits(chunks: seq<Chunk>, maxFileSize: nat, i: nat)
    requires LaidOut(chunks, maxFileSize) && i < |chunks|
    ensures ChunkFits(chunks[i], maxFileSize)
  {
    if i > 0 { EachFits(chunks[1..], maxFileSize, i - 1); }
  }

  lemma LaidOutFillsFiles(before: Files, after: Files, chunks: seq<Chunk>, maxFileSize: nat)
    requires LaidOut(chunks, maxFileSize) && Placed(before, after, chunks)
    ensures Filled(before, after, maxFileSize)
  {
    forall file | file in after
      ensures |after[file].rows| <= |RowsOf(before, file)| + 1 || Bytes(after[file].rows) <= maxFileSize
    {
      assert PlacedAt(before, after, chunks, file);
      if HasFile(chunks, file) {
        var i :| 0 <= i < |chunks| && chunks[i].file == file;
        GatheredIsOneChunk(chunks, file, i);
        EachFits(chunks, maxFileSize, i);
        assert SizeKnown(before, chunks[i]);
        BytesConcat(RowsOf(before, file), chunks[i].rows);
      } else {
        NothingGathered(chunks, file);
      }
    }
  }
}
