/** Whole lives of a log: processes come and go, each appends batches, and a reader reads it back. */
module NdjsonRuns {
  import opened Wrappers
  import opened LogFiles
  import opened NdjsonLogs
  import opened NdjsonReaders

  function Joined(batches: seq<seq<Row>>): seq<Row> {
    if batches == [] then [] else Joined(batches[..|batches| - 1]) + batches[|batches| - 1]
  }

  lemma JoinedSnoc(batches: seq<seq<Row>>, i: nat)
    requires i < |batches|
    ensures Joined(batches[..i + 1]) == Joined(batches[..i]) + batches[i]
  {
    assert batches[..i + 1][..i] == batches[..i];
  }

  lemma DaysRiseInParts(a: seq<Row>, b: seq<Row>)
    requires DaysRise(a + b)
    ensures DaysRise(a) && DaysRise(b)
    ensures a != [] && b != [] ==> DayOf(a[|a| - 1].ts) <= DayOf(b[0].ts)
  {
    forall i, j
      ensures DayRises(a, i, j)
    {
      assert DayRises(a + b, i, j);
    }
    forall i, j
      ensures DayRises(b, i, j)
    {
      assert DayRises(a + b, |a| + i, |a| + j);
    }
    assert DayRises(a + b, |a| - 1, |a|);
  }

  lemma ContinuedConcat(a: seq<Row>, b: seq<Row>, tip0: Option<Name>, inOrder0: bool,
                        tip1: Option<Name>, inOrder1: bool, tip2: Option<Name>, inOrder2: bool)
    requires Continued(a, tip0, inOrder0, tip1, inOrder1) && Continued(b, tip1, inOrder1, tip2, inOrder2)
    ensures Continued(a + b, tip0, inOrder0, tip2, inOrder2)
  {
    if Follows(a + b, tip0) {
      DaysRiseInParts(a, b);
      if a == [] {
        assert a + b == b;
      } else if b == [] {
        assert a + b == a;
      } else {
        assert (a + b)[0] == a[0];
        assert (a + b)[|a + b| - 1] == b[|b| - 1];
      }
    }
  }

  /** A directory between processes. */
  ghost predicate Idle(dir: LogDir, maxFiles: nat)
    reads dir
  {
    && dir.Valid() && dir.AtRest() && (0 < maxFiles && dir.rotated ==> |dir.files| <= maxFiles)
    && (dir.evicted ==> |dir.files| + 1 >= maxFiles) && (dir.inOrder && dir.evicted ==> |dir.files| >= maxFiles)
  }

  /** One more batch of a process that has appended some rows. */
  method AppendBatch(writer: NdjsonWriter, batch: seq<Row>, ghost earlier: seq<Row>, ghost tip0: Option<Name>, ghost inOrder0: bool)
    requires writer.Valid() && writer.dir.AtRest() && writer.IsFull()
    requires Continued(earlier, tip0, inOrder0, writer.dir.tip, writer.dir.inOrder)
    modifies writer`prevDay, writer`num, writer.dir
    ensures writer.Valid() && writer.dir.AtRest() && writer.IsFull() && writer.dir.history == old(writer.dir.history) + batch
    ensures Continued(earlier + batch, tip0, inOrder0, writer.dir.tip, writer.dir.inOrder)
    ensures 0 < writer.maxFileSize && SizesOk(old(writer.dir.files), writer.maxFileSize) ==>
              SizesOk(writer.dir.files, writer.maxFileSize)
  {
    ghost var tip, inOrder := writer.dir.tip, writer.dir.inOrder;
    ghost var _ := writer.AppendRows(batch);
    ContinuedConcat(earlier, batch, tip0, inOrder0, tip, inOrder, writer.dir.tip, writer.dir.inOrder);
  }

  method AppendBatches(writer: NdjsonWriter, batches: seq<seq<Row>>)
    requires writer.Valid() && writer.dir.AtRest() && writer.IsFull()
    modifies writer`prevDay, writer`num, writer.dir
    ensures writer.Valid() && writer.dir.AtRest() && writer.IsFull()
    ensures writer.dir.history == old(writer.dir.history) + Joined(batches)
    ensures Continued(Joined(batches), old(writer.dir.tip), old(writer.dir.inOrder), writer.dir.tip, writer.dir.inOrder)
    ensures 0 < writer.maxFileSize && SizesOk(old(writer.dir.files), writer.maxFileSize) ==>
              SizesOk(writer.dir.files, writer.maxFileSize)
  {
    ghost var history, tip0, inOrder0 := writer.dir.history, writer.dir.tip, writer.dir.inOrder;
    ghost var sized := 0 < writer.maxFileSize && SizesOk(writer.dir.files, writer.maxFileSize);
    for i := 0 to |batches|
      invariant writer.Valid() && writer.dir.AtRest() && writer.IsFull()
      invariant writer.dir.history == history + Joined(batches[..i])
      invariant Continued(Joined(batches[..i]), tip0, inOrder0, writer.dir.tip, writer.dir.inOrder)
      invariant sized ==> SizesOk(writer.dir.files, writer.maxFileSize)
    {
      JoinedSnoc(batches, i);
      AppendBatch(writer, batches[i], Joined(batches[..i]), tip0, inOrder0);
    }
    assert batches[..|batches|] == batches;
  }

  /** One process: a fresh writer appends some batches. */
  method RunProcess(dir: LogDir, batches: seq<seq<Row>>, maxFiles: nat, maxFileSize: nat)
    requires Idle(dir, maxFiles)
    modifies dir
    ensures Idle(dir, maxFiles)
    ensures dir.history == old(dir.history) + Joined(batches)
    ensures Continued(Joined(batches), old(dir.tip), old(dir.inOrder), dir.tip, dir.inOrder)
    ensures 0 < maxFileSize && old(SizesOk(dir.files, maxFileSize)) ==> SizesOk(dir.files, maxFileSize)
  {
    var writer := new NdjsonWriter(dir, maxFiles, maxFileSize);
    AppendBatches(writer, batches);
  }

  /** The rows of every process, in the order they were appended. */
  function Everything(processes: seq<seq<seq<Row>>>): seq<Row> {
    if processes == [] then []
    else Everything(processes[..|processes| - 1]) + Joined(processes[|processes| - 1])
  }

  lemma EverythingSnoc(processes: seq<seq<seq<Row>>>, i: nat)
    requires i < |processes|
    ensures Everything(processes[..i + 1]) == Everything(processes[..i]) + Joined(processes[i])
  {
    assert processes[..i + 1][..i] == processes[..i];
  }

  /** `rows` is a stretch of `all`. */
  ghost predicate IsStretch(rows: seq<Row>, all: seq<Row>) {
    exists before, after :: all == before + rows + after
  }

  lemma StretchOfSuffix(rows: seq<Row>, before: seq<Row>, after: seq<Row>, content: seq<Row>, all: seq<Row>)
    requires content == before + rows + after && IsSuffix(content, all)
    ensures IsStretch(rows, all)
    ensures after == [] ==> IsSuffix(rows, all)
  {
    var dropped := all[..|all| - |content|];
    assert all == dropped + content;
    assert all == (dropped + before) + rows + after;
    if after == [] {
      assert content == before + rows;
      assert all[|all| - |rows|..] == rows;
    }
  }

  /** The rows of a stretch of the files in creation order are a stretch of the log's content. */
  lemma StretchOfContent(files: Files, order: seq<Name>, a: nat, b: nat)
    requires a <= b <= |order|
    ensures Content(files, order)
         == Content(files, order[..a]) + Content(files, order[a..b]) + Content(files, order[b..])
  {
    assert order == (order[..a] + order[a..b]) + order[b..];
    ContentConcat(files, order[..a] + order[a..b], order[b..]);
    ContentConcat(files, order[..a], order[a..b]);
  }

  /**
   * The files hold the end of all rows: all of them, or, after files were deleted, what is in as
   * many files as the log may have.
   */
  ghost predicate Retained(files: Files, order: seq<Name>, all: seq<Row>, maxFiles: nat) {
    && IsSuffix(Content(files, order), all)
    && (Content(files, order) == all || |files| >= maxFiles)
  }

  /** `rows` are all rows of exactly the files created on the days of the range, in creation order. */
  ghost predicate ReadsDays(files: Files, order: seq<Name>, from: int, to: int, rows: seq<Row>) {
    exists a: nat, b: nat :: ReadsStretch(files, order, a, b, from, to, rows)
  }

  ghost predicate ReadsStretch(files: Files, order: seq<Name>, a: nat, b: nat, from: int, to: int, rows: seq<Row>) {
    && a <= b <= |order| && rows == Content(files, order[a..b])
    && (forall n :: n in order[a..b] <==> CreatedBetween(files, n, FirstDay(from, to), DayOf(to)))
  }

  /** The directory and what was read of it, given all rows that were appended. */
  ghost predicate LogIs(files: Files, order: seq<Name>, all: seq<Row>, maxFiles: nat, from: int, to: int, rows: seq<Row>) {
    && Shelved(files, order) && ReadsDays(files, order, from, to, rows)
    && (DaysRise(all) ==> Retained(files, order, all, maxFiles))
  }

  /** Append all batches of all processes to a new directory. */
  method RunProcesses(processes: seq<seq<seq<Row>>>, maxFiles: nat, maxFileSize: nat) returns (dir: LogDir)
    ensures fresh(dir) && Idle(dir, maxFiles) && dir.history == Everything(processes)
    ensures 0 < maxFileSize ==> SizesOk(dir.files, maxFileSize)
    ensures DaysRise(Everything(processes)) ==> dir.inOrder
  {
    dir := new LogDir();
    for i := 0 to |processes|
      invariant fresh(dir) && Idle(dir, maxFiles)
      invariant dir.history == Everything(processes[..i])
      invariant Continued(Everything(processes[..i]), None, true, dir.tip, dir.inOrder)
      invariant 0 < maxFileSize ==> SizesOk(dir.files, maxFileSize)
    {
      ghost var tip, inOrder := dir.tip, dir.inOrder;
      RunProcess(dir, processes[i], maxFiles, maxFileSize);
      EverythingSnoc(processes, i);
      ContinuedConcat(Everything(processes[..i]), Joined(processes[i]), None, true, tip, inOrder, dir.tip, dir.inOrder);
    }
    assert processes[..|processes|] == processes;
  }

  /**
   * A whole life of a log. Every file stays below its budget without its last line. A read of any
   * range of days gives exactly the rows of the files created on these days. While the days of the
   * rows never fall, the files hold the end of all rows ever appended, all of them as long as
   * nothing was rotated out and a full log afterwards; so what is read is a stretch of all
   * rows, in append order with none missing inside it, which ends with the newest row when the
   * range covers the newest file.
   */
  method WriteAndRead(processes: seq<seq<seq<Row>>>, maxFiles: nat, maxFileSize: nat, from: int, to: int)
    returns (rows: seq<Row>, files: Files)
    ensures 0 < maxFileSize ==> SizesOk(files, maxFileSize)
    ensures exists order :: LogIs(files, order, Everything(processes), maxFiles, from, to, rows)
    ensures DaysRise(Everything(processes)) ==> IsStretch(rows, Everything(processes))
    ensures DaysRise(Everything(processes)) && (forall n :: n in files ==> DayOf(files[n].birth) <= DayOf(to)) ==>
              IsSuffix(rows, Everything(processes))
  {
    var dir := RunProcesses(processes, maxFiles, maxFileSize);
    var keep := (row: Row) => true;
    rows := StreamNdjson(dir, from, to, keep, None);
    files := dir.files;
    ghost var a: nat, b: nat :| IsRead(dir, a, b, from, to, keep, None, rows);
    KeepAll(Content(dir.files, dir.order[a..b]), keep);
    assert ReadsStretch(files, dir.order, a, b, from, to, rows);
    assert LogIs(files, dir.order, Everything(processes), maxFiles, from, to, rows);
    if DaysRise(Everything(processes)) {
      StretchOfContent(dir.files, dir.order, a, b);
      StretchOfSuffix(rows, Content(dir.files, dir.order[..a]), Content(dir.files, dir.order[b..]),
                      Content(dir.files, dir.order), Everything(processes));
    }
  }
}
