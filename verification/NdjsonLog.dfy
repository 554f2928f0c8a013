/** The rotating NDJSON log: the directory, the writer that rotates and evicts, and the reader. */
module NdjsonLogs {
  import opened Wrappers
  import opened LogFiles
  import opened LogChunks

  /** A file may be created at any instant from `clock` on at which no file of another day with its number or more was. */
  predicate MayBeBorn(files: Files, name: Name, clock: int, now: int) {
    clock <= now && forall n :: n in files && files[n].birth == now ==> n.day == name.day || n.num < name.num
  }

  ghost predicate DirOk(files: Files, clock: int, order: seq<Name>, history: seq<Row>, tip: Option<Name>,
                        inOrder: bool, evicted: bool) {
    && Shelved(files, order)
    && (forall n :: n in files ==> files[n].birth <= clock)
    && (inOrder ==> Ledger(files, order, history, tip))
    && (inOrder && !evicted ==> Content(files, order) == history)
    && (tip.Some? ==> TopsDay(files, tip.value))
  }

  /** The files after an append, and their order. */
  method AppendTo(files: Files, name: Name, rows: seq<Row>, now: int, ghost clock: int, ghost order: seq<Name>,
                  ghost history: seq<Row>, ghost tip: Option<Name>, ghost inOrder: bool, ghost evicted: bool)
    returns (after: Files, ghost order': seq<Name>)
    requires DirOk(files, clock, order, history, tip, inOrder, evicted) && clock <= now
    requires TopsDay(files, name) && (name !in files ==> ComesLast(files, name, now))
    ensures DirOk(after, now, order', history + rows, Some(name), inOrder && NotBefore(tip, name), evicted)
    ensures after.Keys == files.Keys + {name} && after[name].rows == RowsOf(files, name) + rows
    ensures forall n :: n in files && n != name ==> after[n] == files[n]
  {
    AppendedFacts(files, name, rows, now);
    AppendKeepsShelf(files, order, name, rows, now);
    if inOrder && NotBefore(tip, name) { AppendKeepsLedger(files, order, history, tip, name, rows, now); }
    after, order' := Appended(files, name, rows, now), OrderAfterAppend(files, order, name);
  }

  lemma DeleteKeepsDir(files: Files, clock: int, order: seq<Name>, history: seq<Row>, tip: Option<Name>,
                       inOrder: bool, evicted: bool)
    requires DirOk(files, clock, order, history, tip, inOrder, evicted) && order != []
    ensures order[0] in files
    ensures DirOk(files - {order[0]}, clock, order[1..], history, tip, inOrder, true)
  {
    DeleteKeepsShelf(files, order);
    assert order[0] in order;
    if inOrder { DeleteKeepsLedger(files, order, history, tip); }
  }

  /** A directory of log files, with a ledger of what was ever written to it. */
  class LogDir {
    var files: Files
    var clock: int
    ghost var order: seq<Name>
    ghost var history: seq<Row>
    /** The file written last. */
    ghost var tip: Option<Name>
    /** No write went to a file before the one written last. */
    ghost var inOrder: bool
    /** A rotation happened since the day of the last write began. */
    ghost var rotated: bool
    /** A file was ever deleted. */
    ghost var evicted: bool

    ghost predicate Valid()
      reads this
    {
      DirOk(files, clock, order, history, tip, inOrder, evicted)
    }

    /** Between appends the file written last is still there. */
    ghost predicate AtRest()
      reads this
    {
      if tip.None? then !rotated else tip.value in files
    }

    constructor ()
      ensures Valid() && AtRest() && files == map[] && history == [] && tip == None && inOrder
      ensures !rotated && !evicted
    {
      files, clock := map[], 0;
      order, history, tip, inOrder, rotated, evicted := [], [], None, true, false, false;
    }

    /**
     * Time passes, by any amount. Several files may be created in one millisecond, of one day or
     * with rising numbers.
     */
    method Tick(name: Name) returns (now: int)
      requires Valid() && TopsDay(files, name)
      modifies this`clock
      ensures old(clock) <= now == clock
      ensures name !in files ==> ComesLast(files, name, now)
    {
      assert MayBeBorn(files, name, clock, clock + 1);
      now :| MayBeBorn(files, name, clock, now);
      assert MayBeBorn(files, name, clock, now);
      clock := now;
    }

    method AppendFile(name: Name, rows: seq<Row>)
      requires Valid() && TopsDay(files, name)
      modifies this`files, this`clock, this`order, this`history, this`tip, this`inOrder
      ensures Valid()
      ensures files.Keys == old(files).Keys + {name}
      ensures forall n :: n in old(files) && n != name ==> files[n] == old(files)[n]
      ensures files[name].rows == RowsOf(old(files), name) + rows
      ensures history == old(history) + rows && tip == Some(name)
      ensures inOrder == (old(inOrder) && NotBefore(old(tip), name))
    {
      var now := Tick(name);
      files, order := AppendTo(files, name, rows, now, old(clock), order, history, tip, inOrder, evicted);
      inOrder := inOrder && NotBefore(tip, name);
      history, tip := history + rows, Some(name);
    }

    method DeleteOldest(name: Name)
      requires Valid() && order != [] && name == order[0]
      modifies this`files, this`order, this`evicted
      ensures Valid() && evicted
      ensures files == old(files) - {name} && name in old(files) && order == old(order)[1..]
    {
      DeleteKeepsDir(files, clock, order, history, tip, inOrder, evicted);
      files := files - {name};
      order := order[1..];
      evicted := true;
    }

    method DeleteFiles(names: seq<Name>)
      requires Valid() && names <= order
      modifies this`files, this`order, this`evicted
      ensures Valid() && evicted == (old(evicted) || names != [])
      ensures Pruned(files, old(files)) && order == old(order)[|names|..] && |files| == |old(files)| - |names|
    {
      for i := 0 to |names|
        invariant Valid() && evicted == (old(evicted) || i > 0)
        invariant Pruned(files, old(files)) && order == old(order)[i..] && |files| == |old(files)| - i
      {
        DeleteOldest(names[i]);
      }
    }

    /** The file names sorted by birth time and number, which is the order they were created in. */
    method ListFiles() returns (names: seq<Name>)
      requires Valid()
      ensures names == order && |names| == |files|
    {
      names := SortedNames(files);
      ListingIsCreationOrder(files, order, names);
      ListingLength(files, names);
    }
  }

  /** Some files were deleted, the others are as they were. */
  ghost predicate Pruned(files': Files, files: Files) {
    forall n :: n in files' ==> n in files && files'[n] == files[n]
  }

  lemma ListingLength(files: Files, names: seq<Name>)
    requires IsListing(files, names)
    ensures |names| == |files|
  {
    DistinctNames(names);
    assert (set n | n in names) == files.Keys;
  }

  lemma {:induction false} DistinctNames(names: seq<Name>)
    requires forall i, j :: 0 <= i < j < |names| ==> names[i] != names[j]
    ensures |set n | n in names| == |names|
  {
    if names != [] {
      var rest := names[..|names| - 1];
      DistinctNames(rest);
      assert (set n | n in names) == (set n | n in rest) + {names[|names| - 1]};
    }
  }

  /** Some file of a non-empty selection sorts before none of the others. */
  lemma {:induction false} FirstExists(files: Files, some: set<Name>) returns (first: Name)
    requires some != {} && some <= files.Keys
    ensures first in some && forall n :: n in some ==> !SortsBefore(files, n, first)
  {
    var n :| n in some;
    if some == {n} {
      first := n;
    } else {
      var f := FirstExists(files, some - {n});
      first := if SortsBefore(files, n, f) then n else f;
      assert forall m :: m in some ==> m == n || m in some - {n};
    }
  }

  method SortedNames(files: Files) returns (names: seq<Name>)
    ensures IsListing(files, names)
  {
    names := [];
    var rest := files.Keys;
    while rest != {}
      invariant rest <= files.Keys
      invariant forall n :: n in names <==> n in files && n !in rest
      invariant forall i, j :: 0 <= i < j < |names| ==> names[i] != names[j] && !SortsBefore(files, names[j], names[i])
      invariant forall n, m :: n in names && m in rest ==> !SortsBefore(files, m, n)
    {
      ghost var f := FirstExists(files, rest);
      var first :| first in rest && forall n :: n in rest ==> !SortsBefore(files, n, first);
      assert forall i :: 0 <= i < |names| ==> names[i] in names;
      names := names + [first];
      rest := rest - {first};
    }
  }

  // ----- the writer's own state against the directory -----

  /** The writer's day and number name the last file of that day, and agree with the last write. */
  ghost predicate Current(files: Files, tip: Option<Name>, prevDay: Option<int>, num: nat) {
    && (prevDay.Some? ==> TopsDay(files, Name(prevDay.value, num)))
    && (tip.Some? && prevDay == Some(tip.value.day) ==> tip.value.num <= num)
    && (tip.Some? && tip.value !in files ==> prevDay == Some(tip.value.day))
  }

  /** Since a rotation there is room for the next file, unless the next write goes to the last one. */
  ghost predicate Room(files: Files, tip: Option<Name>, prevDay: Option<int>, num: nat, rotated: bool, maxFiles: nat) {
    0 < maxFiles && rotated ==>
      || |files| < maxFiles
      || (|files| <= maxFiles && tip.Some? && tip.value in files
          && (prevDay == Some(tip.value.day) ==> num == tip.value.num))
  }

  /** After a write the writer is current, and the file it wrote to leaves room as long as there was some. */
  lemma WriteKeepsRoom(before: Files, after: Files, file: Name, rotated: bool, maxFiles: nat)
    requires after.Keys == before.Keys + {file} && TopsDay(after, file)
    requires 0 < maxFiles && rotated ==> |before| < maxFiles || (file in before && |before| <= maxFiles)
    ensures |after| == |before| + (if file in before then 0 else 1) && Current(after, Some(file), Some(file.day), file.num)
    ensures Room(after, Some(file), Some(file.day), file.num, rotated, maxFiles)
  {
    assert |after.Keys| == |before.Keys| + if file in before then 0 else 1 by {
      assert file in before ==> after.Keys == before.Keys;
    }
  }

  ghost predicate DayRises(rows: seq<Row>, i: int, j: int) {
    0 <= i <= j < |rows| ==> DayOf(rows[i].ts) <= DayOf(rows[j].ts)
  }

  /** No row is of an earlier day than a row before it. */
  ghost predicate DaysRise(rows: seq<Row>) {
    forall i, j :: DayRises(rows, i, j)
  }

  predicate StartsBy(tip: Option<Name>, day: int) {
    tip.None? || tip.value.day <= day
  }

  /** The rows' days never fall, and do not start before the day of the last write. */
  ghost predicate Follows(rows: seq<Row>, tip: Option<Name>) {
    DaysRise(rows) && (rows != [] ==> StartsBy(tip, DayOf(rows[0].ts)))
  }

  /** Rows whose days continue those of the last write leave the log in order, and it stands at their last day. */
  ghost predicate Continued(rows: seq<Row>, tip: Option<Name>, inOrder: bool, tip': Option<Name>, inOrder': bool) {
    Follows(rows, tip) ==>
      && (inOrder ==> inOrder')
      && (if rows == [] then tip' == tip else tip'.Some? && tip'.value.day <= DayOf(rows[|rows| - 1].ts))
  }

  /** Writing a first chunk in order, and then the rest, is writing all of the rows in order. */
  lemma ChunkThenRest(rows: seq<Row>, n: nat, tip: Option<Name>, inOrder: bool,
                      tip1: Option<Name>, inOrder1: bool, tip2: Option<Name>, inOrder2: bool)
    requires 0 < n <= |rows|
    requires tip1.Some? && tip1.value.day == DayOf(rows[0].ts)
    requires inOrder && StartsBy(tip, DayOf(rows[0].ts)) ==> inOrder1
    requires Continued(rows[n..], tip1, inOrder1, tip2, inOrder2)
    ensures Continued(rows, tip, inOrder, tip2, inOrder2)
  {
    if Follows(rows, tip) {
      assert DayRises(rows, 0, |rows| - 1) && DayRises(rows, 0, n);
      forall i, j
        ensures DayRises(rows[n..], i, j)
      {
        assert DayRises(rows, n + i, n + j);
      }
    }
  }

  /** A chunk added to a file that is below its budget leaves every file below its budget. */
  lemma WriteKeepsSizes(before: Files, pruned: Files, after: Files, file: Name, chunk: seq<Row>, maxFileSize: nat)
    requires Pruned(pruned, before) && after.Keys == pruned.Keys + {file}
    requires forall n :: n in pruned && n != file ==> after[n] == pruned[n]
    requires after[file].rows == RowsOf(pruned, file) + chunk
    requires chunk != [] && (0 < maxFileSize ==> Bytes(RowsOf(pruned, file)) < maxFileSize)
    requires |chunk| == 1 || Bytes(RowsOf(pruned, file)) + Bytes(chunk) <= maxFileSize
    ensures 0 < maxFileSize && SizesOk(before, maxFileSize) ==> SizesOk(after, maxFileSize)
  {
    if 0 < maxFileSize && SizesOk(before, maxFileSize) {
      forall n | n in after
        ensures BelowBudget(after[n].rows, maxFileSize)
      {
        if n == file {
          ChunkKeepsBudget(RowsOf(pruned, file), chunk, maxFileSize);
        } else {
          assert n in pruned && after[n] == pruned[n];
          assert n in before && pruned[n] == before[n];
        }
      }
    }
  }

  /** What a chunk that was taken from the rows and put in a file means for sizes. */
  lemma ChunkFacts(before: Files, pruned: Files, after: Files, file: Name, rows: seq<Row>, n: nat, chunk: seq<Row>, maxFileSize: nat)
    requires Pruned(pruned, before) && after.Keys == pruned.Keys + {file}
    requires forall n :: n in pruned && n != file ==> after[n] == pruned[n]
    requires 0 < n <= |rows| && chunk == rows[..n] && after[file].rows == RowsOf(pruned, file) + chunk
    requires 0 < maxFileSize ==> Bytes(RowsOf(pruned, file)) < maxFileSize
    requires n == 1 || Bytes(RowsOf(pruned, file)) + Bytes(chunk) <= maxFileSize
    requires n < |rows| ==> Bytes(RowsOf(pruned, file)) + Bytes(rows[..n + 1]) > maxFileSize
    ensures 0 < maxFileSize && SizesOk(before, maxFileSize) ==> SizesOk(after, maxFileSize)
    ensures n < |rows| ==> Bytes(RowsOf(pruned, file)) + Bytes(chunk) + LineLength(rows[n]) > maxFileSize
  {
    assert n < |rows| ==> rows[..n + 1][..n] == rows[..n];
    WriteKeepsSizes(before, pruned, after, file, chunk, maxFileSize);
  }

  lemma Rejoin(history: seq<Row>, rows: seq<Row>, n: nat)
    requires n <= |rows|
    ensures history + rows[..n] + rows[n..] == history + rows
    ensures rows[n..] == [] ==> history + rows[..n] == history + rows
  {
    assert rows == rows[..n] + rows[n..];
  }

  ghost predicate Older(before: Files, after: Files, a: Name, b: Name) {
    a in before && a !in after && b in after ==> BornBefore(before, a, b)
  }

  /** Every file that is gone was created before every file that is left. */
  ghost predicate OldestGone(before: Files, after: Files) {
    forall a, b :: Older(before, after, a, b)
  }

  lemma TailIsNewest(before: Files, after: Files, order: seq<Name>, n: nat)
    requires n <= |order| && Shelved(before, order) && Shelved(after, order[n..])
    ensures OldestGone(before, after)
  {
    forall a, b ensures Older(before, after, a, b) {
      if a in before && a !in after && b in after {
        assert a in order && b in order[n..];
        var i :| 0 <= i < |order| && order[i] == a;
        var j :| n <= j < |order| && order[j] == b;
        assert forall k :: n <= k < |order| ==> order[k] in order[n..];
      }
    }
  }

  /** The number a writer goes on with: its own on the same day, else the highest of the day's files. */
  ghost predicate GoesOnWith(files: Files, prevDay: Option<int>, num: nat, day: int, start: nat) {
    if prevDay == Some(day) then start == num
    else TopsDay(files, Name(day, start)) && (start == 0 || Name(day, start) in files)
  }

  /** Where the first chunk goes: to that number's file, or to the next when it is full. */
  ghost predicate BeginsAt(files: Files, prevDay: Option<int>, num: nat, c: Chunk, maxFileSize: nat) {
    SizeKnown(files, c) && exists start: nat :: BeginsFrom(files, prevDay, num, c, maxFileSize, start)
  }

  ghost predicate BeginsFrom(files: Files, prevDay: Option<int>, num: nat, c: Chunk, maxFileSize: nat, start: nat) {
    && GoesOnWith(files, prevDay, num, c.file.day, start)
    && c.file.num == if Bytes(RowsOf(files, Name(c.file.day, start))) >= maxFileSize then start + 1 else start
  }

  /** After a rotation the next chunk of the day is in the next file. */
  lemma RotatedSpills(left: Files, c: Chunk, next: Chunk, maxFileSize: nat)
    requires forall n :: n in left && n.day == c.file.day ==> n.num <= c.file.num
    requires next.rows != [] && c.before + Bytes(c.rows) + LineLength(next.rows[0]) > maxFileSize
    requires BeginsAt(left, Some(c.file.day), c.file.num + 1, next, maxFileSize)
    ensures Spills(c, next, maxFileSize)
  {
    var start: nat :| BeginsFrom(left, Some(c.file.day), c.file.num + 1, next, maxFileSize, start);
  }

  lemma ChunksCompose(rows: seq<Row>, n: nat, c: Chunk, rest: seq<Chunk>, maxFileSize: nat)
    requires 0 < n < |rows| && c.rows == rows[..n] && ChunkFits(c, maxFileSize)
    requires rest != [] && Unchunked(rest) == rows[n..] && LaidOut(rest, maxFileSize) && Spills(c, rest[0], maxFileSize)
    ensures Unchunked([c] + rest) == rows && LaidOut([c] + rest, maxFileSize)
  {
    assert ([c] + rest)[1..] == rest;
    assert rows[..n] + rows[n..] == rows;
  }

  /** What did not fit in `file` was laid out, from the next file on, after a rotation left the files `left`. */
  ghost predicate RestLaidOut(overflow: seq<Row>, file: Name, rest: seq<Chunk>, maxFileSize: nat,
                              written: Files, left: Files, after: Files, ordered: bool) {
    if overflow == [] then rest == [] && written == left == after
    else
      && rest != [] && rest[0].rows != [] && rest[0].rows[0] == overflow[0]
      && Unchunked(rest) == overflow && LaidOut(rest, maxFileSize)
      && Pruned(left, written) && BeginsAt(left, Some(file.day), file.num + 1, rest[0], maxFileSize)
      && (ordered ==> Placed(left, after, rest))
  }

  /** The first chunk and the chunks of the rest. */
  lemma ChunksGoOn(rows: seq<Row>, n: nat, tip: Option<Name>, ordered: bool, c: Chunk, rest: seq<Chunk>, maxFileSize: nat,
                   before: Files, written: Files, left: Files, after: Files)
    requires 0 < n <= |rows| && c.rows == rows[..n] && ChunkFits(c, maxFileSize) && Wrote(before, written, c)
    requires n < |rows| ==> c.before + Bytes(c.rows) + LineLength(rows[n]) > maxFileSize
    requires TopsDay(written, c.file)
    requires RestLaidOut(rows[n..], c.file, rest, maxFileSize, written, left, after,
                         ordered && Follows(rows[n..], Some(c.file)))
    requires ordered ==> Follows(rows, tip) && forall name :: name in before || name in written ==> NameAtMost(name, c.file)
    ensures Unchunked([c] + rest) == rows && LaidOut([c] + rest, maxFileSize)
    ensures ordered ==> Placed(before, after, [c] + rest) && Filled(before, after, maxFileSize)
  {
    if n < |rows| {
      RotatedSpills(left, c, rest[0], maxFileSize);
      ChunksCompose(rows, n, c, rest, maxFileSize);
      if ordered {
        RestFollows(rows, n, tip, c.file);
        SpillsLater(rows, n, tip, c, rest[0], maxFileSize);
        PlacedFirst(before, written, left, after, c, rest);
      }
    } else {
      assert [c] + rest == [c];
      OneChunk(c, maxFileSize);
      PlacedOne(before, after, c);
    }
    if ordered { LaidOutFillsFiles(before, after, [c] + rest, maxFileSize); }
  }

  /** After a rotation an ordered write goes to a new file. */
  lemma OverflowFileIsNew(left: Files, order: seq<Name>, history: seq<Row>, file: Name, next: Chunk, maxFileSize: nat)
    requires Ledger(left, order, history, Some(file))
    requires NotBefore(Some(file), next.file) && BeginsAt(left, Some(file.day), file.num + 1, next, maxFileSize)
    ensures next.file !in left
  {
    var start: nat :| BeginsFrom(left, Some(file.day), file.num + 1, next, maxFileSize, start);
  }

  lemma OneChunk(c: Chunk, maxFileSize: nat)
    requires ChunkFits(c, maxFileSize)
    ensures Unchunked([c]) == c.rows && LaidOut([c], maxFileSize)
  {
    assert [c][1..] == [];
    assert c.rows + [] == c.rows;
  }

  /** What is left of the rows follows the chunk. */
  lemma RestFollows(rows: seq<Row>, n: nat, tip: Option<Name>, file: Name)
    requires 0 < n < |rows| && Follows(rows, tip) && file.day == DayOf(rows[0].ts)
    ensures Follows(rows[n..], Some(file))
  {
    assert DayRises(rows, 0, n);
    forall i, j
      ensures DayRises(rows[n..], i, j)
    {
      assert DayRises(rows, n + i, n + j);
    }
  }

  /** A file of a later row comes after the chunk's. */
  lemma SpillsLater(rows: seq<Row>, n: nat, tip: Option<Name>, c: Chunk, next: Chunk, maxFileSize: nat)
    requires 0 < n < |rows| && Follows(rows, tip) && c.file.day == DayOf(rows[0].ts)
    requires Spills(c, next, maxFileSize) && next.file.day == DayOf(rows[n].ts)
    ensures NameLess(c.file, next.file)
  {
    assert DayRises(rows, 0, n);
  }

  /** In an ordered log no file is after the chunk's. */
  lemma ChunkIsLast(before: Files, order: seq<Name>, history: seq<Row>, tip: Option<Name>, file: Name)
    requires Ledger(before, order, history, tip) && NotBefore(tip, file)
    ensures forall n :: n in before ==> NameAtMost(n, file)
  {
  }

  /** A chunk was put in a file after a pruning that left that file as it was. */
  lemma ChunkWrote(before: Files, pruned: Files, after: Files, c: Chunk)
    requires Pruned(pruned, before) && RowsOf(pruned, c.file) == RowsOf(before, c.file) && SizeKnown(before, c)
    requires after.Keys == pruned.Keys + {c.file} && after[c.file].rows == RowsOf(pruned, c.file) + c.rows
    requires forall n :: n in pruned && n != c.file ==> after[n] == pruned[n]
    ensures Wrote(before, after, c)
  {
    forall n | n in after
      ensures after[n].rows == RowsOf(before, n) + if n == c.file then c.rows else []
    {
      if n != c.file { assert n in pruned && n in before; }
    }
  }

  class NdjsonWriter {
    const dir: LogDir
    const maxFiles: nat
    const maxFileSize: nat
    var prevDay: Option<int>
    var num: nat

    ghost predicate Valid()
      reads this, dir
    {
      && dir.Valid()
      && Current(dir.files, dir.tip, prevDay, num)
      && Room(dir.files, dir.tip, prevDay, num, dir.rotated, maxFiles)
      && Retains()
    }

    /** Nothing was ever deleted, or a full log is left but for the file to come. */
    ghost predicate Retains()
      reads this, dir
    {
      dir.evicted ==> |dir.files| + 1 >= maxFiles
    }

    /** Between appends of an ordered log: nothing was ever deleted, or the log has all the files it may have. */
    ghost predicate IsFull()
      reads this, dir
    {
      dir.inOrder && dir.evicted ==> |dir.files| >= maxFiles
    }

    /** A process starts, on a directory no other writer is using. */
    constructor (dir: LogDir, maxFiles: nat, maxFileSize: nat)
      requires dir.Valid() && dir.AtRest()
      requires 0 < maxFiles && dir.rotated ==> |dir.files| <= maxFiles
      requires dir.evicted ==> |dir.files| + 1 >= maxFiles
      ensures Valid() && this.dir == dir && this.maxFiles == maxFiles && this.maxFileSize == maxFileSize
    {
      this.dir, this.maxFiles, this.maxFileSize := dir, maxFiles, maxFileSize;
      prevDay, num := None, 0;
    }

    /** The highest number among the day's files, 0 when there is none. */
    method DiscoverMaxSeq(day: int) returns (maxSeq: nat)
      ensures TopsDay(dir.files, Name(day, maxSeq))
      ensures maxSeq == 0 || Name(day, maxSeq) in dir.files
    {
      maxSeq := 0;
      var rest := dir.files.Keys;
      while rest != {}
        invariant rest <= dir.files.Keys
        invariant forall n :: n in dir.files && n !in rest && n.day == day ==> n.num <= maxSeq
        invariant maxSeq == 0 || Name(day, maxSeq) in dir.files
      {
        var n :| n in rest;
        if n.day == day && n.num > maxSeq { maxSeq := n.num; }
        rest := rest - {n};
      }
    }

    method EvictOldest()
      requires dir.Valid()
      modifies dir`files, dir`order, dir`evicted
      ensures dir.Valid() && (old(Retains()) ==> Retains())
      ensures Pruned(dir.files, old(dir.files))
      ensures |dir.files| == if |old(dir.files)| < maxFiles then |old(dir.files)|
                             else if maxFiles == 0 then 0 else maxFiles - 1
      ensures OldestGone(old(dir.files), dir.files)
    {
      var files := dir.ListFiles();
      var toDeleteCount := if |files| - maxFiles + 1 < 0 then 0 else |files| - maxFiles + 1;
      var toDelete := if toDeleteCount <= |files| then files[..toDeleteCount] else files;
      dir.DeleteFiles(toDelete);
      TailIsNewest(old(dir.files), dir.files, old(dir.order), |toDelete|);
    }

    method AdvanceSeq()
      requires dir.Valid() && Retains()
      modifies this`num, dir`files, dir`order, dir`rotated, dir`evicted
      ensures dir.Valid() && Retains() && num == old(num) + 1 && dir.rotated
      ensures Pruned(dir.files, old(dir.files))
      ensures 0 < maxFiles ==> |dir.files| < maxFiles
      ensures |old(dir.files)| < maxFiles ==> dir.files == old(dir.files)
    {
      var prefixFiles := dir.ListFiles();
      if |prefixFiles| >= maxFiles {
        EvictOldest();
      }
      num := num + 1;
      dir.rotated := true;
    }

    /** Turn to the day of the next row. */
    method TurnTo(day: int)
      requires Valid()
      modifies this`prevDay, this`num, dir`rotated
      ensures dir.Valid() && prevDay == Some(day) && TopsDay(dir.files, Name(day, num))
      ensures GoesOnWith(dir.files, old(prevDay), old(num), day, num)
      ensures StartsBy(dir.tip, day) ==> NotBefore(dir.tip, Name(day, num))
      ensures 0 < maxFiles && dir.rotated ==>
                |dir.files| < maxFiles || (Name(day, num) in dir.files && |dir.files| <= maxFiles)
    {
      if dir.tip.None? || dir.tip.value.day != day {
        dir.rotated := false;
      }
      if prevDay != Some(day) {
        prevDay := Some(day);
        num := DiscoverMaxSeq(day);
      }
    }

    /** The file the next row goes to, rotating when the current one is full. */
    method FileWithSizeFor(ts: int) returns (file: Name, size: nat, ghost start: nat)
      requires Valid()
      modifies this`prevDay, this`num, dir`files, dir`order, dir`rotated, dir`evicted
      ensures dir.Valid() && Retains() && Pruned(dir.files, old(dir.files))
      ensures prevDay == Some(DayOf(ts)) && file == Name(DayOf(ts), num) && TopsDay(dir.files, file)
      ensures size == Bytes(RowsOf(dir.files, file)) && (0 < maxFileSize ==> size < maxFileSize)
      ensures GoesOnWith(old(dir.files), old(prevDay), old(num), DayOf(ts), start)
      ensures var full := Bytes(RowsOf(old(dir.files), Name(DayOf(ts), start))) >= maxFileSize;
              && num == (if full then start + 1 else start)
              && (!full ==> dir.files == old(dir.files) && dir.evicted == old(dir.evicted))
              && (full ==> file !in old(dir.files))
      ensures file in dir.files ==> file in old(dir.files) && |dir.files| == |old(dir.files)| && dir.evicted == old(dir.evicted)
      ensures RowsOf(dir.files, file) == RowsOf(old(dir.files), file)
      ensures StartsBy(dir.tip, DayOf(ts)) ==> NotBefore(dir.tip, file)
      ensures 0 < maxFiles && dir.rotated ==>
                |dir.files| < maxFiles || (file in dir.files && |dir.files| <= maxFiles)
    {
      var day := DayOf(ts);
      TurnTo(day);
      start := num;
      var currentFile := Name(day, num);
      var currentSize := Bytes(RowsOf(dir.files, currentFile));
      if currentSize >= maxFileSize {
        AdvanceSeq();
        file, size := Name(day, num), 0;
      } else {
        file, size := currentFile, currentSize;
      }
    }

    /** The longest run of rows that fits the budget, and at least one row. */
    method TakeChunk(rows: seq<Row>, budget: int) returns (n: nat)
      requires rows != []
      ensures 0 < n <= |rows|
      ensures n == 1 || Bytes(rows[..n]) <= budget
      ensures n < |rows| ==> Bytes(rows[..n + 1]) > budget
    {
      n := 0;
      var chunkSize := 0;
      while n < |rows|
        invariant 0 <= n <= |rows| && chunkSize == Bytes(rows[..n])
        invariant n <= 1 || chunkSize <= budget
      {
        assert rows[..n + 1][..n] == rows[..n];
        var line := LineLength(rows[n]);
        if chunkSize + line > budget && n > 0 { break; }
        chunkSize := chunkSize + line;
        n := n + 1;
      }
    }

    /** Append to the current file. */
    method Put(file: Name, rows: seq<Row>)
      requires dir.Valid() && Retains() && TopsDay(dir.files, file) && prevDay == Some(file.day) && num == file.num
      requires 0 < maxFiles && dir.rotated ==>
                 |dir.files| < maxFiles || (file in dir.files && |dir.files| <= maxFiles)
      modifies dir`files, dir`clock, dir`order, dir`history, dir`tip, dir`inOrder
      ensures Valid() && dir.tip == Some(file) && dir.history == old(dir.history) + rows
      ensures dir.files.Keys == old(dir.files).Keys + {file}
      ensures |dir.files| == |old(dir.files)| + if file in old(dir.files) then 0 else 1
      ensures forall n :: n in old(dir.files) && n != file ==> dir.files[n] == old(dir.files)[n]
      ensures dir.files[file].rows == RowsOf(old(dir.files), file) + rows
      ensures dir.inOrder == (old(dir.inOrder) && NotBefore(old(dir.tip), file))
    {
      dir.AppendFile(file, rows);
      WriteKeepsRoom(old(dir.files), dir.files, file, dir.rotated, maxFiles);
    }

    /** Fill a file with as many rows as fit, and at least one. */
    method FillFile(file: Name, size: nat, rows: seq<Row>, ghost before: Files) returns (n: nat, ghost chunk: Chunk)
      requires dir.Valid() && Retains() && TopsDay(dir.files, file) && prevDay == Some(file.day) && num == file.num
      requires 0 < maxFiles && dir.rotated ==>
                 |dir.files| < maxFiles || (file in dir.files && |dir.files| <= maxFiles)
      requires rows != [] && Pruned(dir.files, before) && RowsOf(dir.files, file) == RowsOf(before, file)
      requires size == Bytes(RowsOf(dir.files, file)) && (0 < maxFileSize ==> size < maxFileSize)
      modifies dir`files, dir`clock, dir`order, dir`history, dir`tip, dir`inOrder
      ensures Valid() && file in dir.files && dir.tip == Some(file)
      ensures 0 < n <= |rows| && dir.history == old(dir.history) + rows[..n]
      ensures dir.inOrder == (old(dir.inOrder) && NotBefore(old(dir.tip), file))
      ensures n < |rows| ==> chunk.before + Bytes(chunk.rows) + LineLength(rows[n]) > maxFileSize
      ensures chunk == Chunk(file, rows[..n], size) && (n == 1 || size + Bytes(chunk.rows) <= maxFileSize)
      ensures Wrote(before, dir.files, chunk)
      ensures dir.evicted && (|old(dir.files)| >= maxFiles || file !in old(dir.files)) ==> |dir.files| >= maxFiles
      ensures 0 < maxFileSize && SizesOk(before, maxFileSize) ==> SizesOk(dir.files, maxFileSize)
    {
      ghost var pruned := dir.files;
      n := TakeChunk(rows, maxFileSize - size);
      chunk := Chunk(file, rows[..n], size);
      Put(file, rows[..n]);
      ChunkFacts(before, pruned, dir.files, file, rows, n, rows[..n], maxFileSize);
      ChunkWrote(before, pruned, dir.files, chunk);
    }

    /** Write the first rows to the file they belong in. */
    method WriteChunk(rows: seq<Row>) returns (n: nat, ghost chunk: Chunk)
      requires Valid() && rows != []
      modifies this`prevDay, this`num, dir
      ensures Valid() && dir.AtRest()
      ensures 0 < n <= |rows| && dir.history == old(dir.history) + rows[..n]
      ensures prevDay == Some(DayOf(rows[0].ts)) && dir.tip == Some(Name(DayOf(rows[0].ts), num))
      ensures chunk.file == dir.tip.value && chunk.rows == rows[..n] && ChunkFits(chunk, maxFileSize)
      ensures n < |rows| ==> chunk.before + Bytes(chunk.rows) + LineLength(rows[n]) > maxFileSize
      ensures BeginsAt(old(dir.files), old(prevDay), old(num), chunk, maxFileSize)
      ensures Wrote(old(dir.files), dir.files, chunk)
      ensures StartsBy(old(dir.tip), DayOf(rows[0].ts)) ==> NotBefore(old(dir.tip), chunk.file)
      ensures dir.inOrder == (old(dir.inOrder) && NotBefore(old(dir.tip), chunk.file))
      ensures old(IsFull()) || chunk.file !in old(dir.files) ==> IsFull()
      ensures old(dir.inOrder) && StartsBy(old(dir.tip), DayOf(rows[0].ts)) ==> dir.inOrder
      ensures 0 < maxFileSize && old(SizesOk(dir.files, maxFileSize)) ==> SizesOk(dir.files, maxFileSize)
    {
      var file, size, start := FileWithSizeFor(rows[0].ts);
      n, chunk := FillFile(file, size, rows, old(dir.files));
      assert BeginsFrom(old(dir.files), old(prevDay), old(num), chunk, maxFileSize, start);
    }

    /** Move to the next number before the rest of the rows is written. */
    method Rotate()
      requires Valid() && prevDay.Some? && dir.tip.Some? && dir.tip.value.day == prevDay.value
      modifies this`num, dir`files, dir`order, dir`rotated, dir`evicted
      ensures Valid() && num == old(num) + 1 && Pruned(dir.files, old(dir.files))
      ensures SizesOk(old(dir.files), maxFileSize) ==> SizesOk(dir.files, maxFileSize)
    {
      AdvanceSeq();
    }

    /** Rotate, and append what did not fit. */
    method AppendAfterRotation(overflow: seq<Row>, ghost file: Name) returns (ghost rest: seq<Chunk>, ghost left: Files)
      requires Valid() && dir.AtRest() && overflow != []
      requires dir.tip == Some(file) && prevDay == Some(file.day) && num == file.num
      modifies this`prevDay, this`num, dir
      ensures Valid() && dir.AtRest() && dir.history == old(dir.history) + overflow
      ensures RestLaidOut(overflow, file, rest, maxFileSize, old(dir.files), left, dir.files,
                          old(dir.inOrder) && Follows(overflow, Some(file)))
      ensures Continued(overflow, old(dir.tip), old(dir.inOrder), dir.tip, dir.inOrder)
      ensures (dir.inOrder ==> old(dir.inOrder)) && IsFull()
      ensures 0 < maxFileSize && old(SizesOk(dir.files, maxFileSize)) ==> SizesOk(dir.files, maxFileSize)
      decreases |overflow|, 4
    {
      Rotate();
      left := dir.files;
      ghost var order, history, ordered := dir.order, dir.history, dir.inOrder;
      rest := AppendSome(overflow);
      if ordered && dir.inOrder { OverflowFileIsNew(left, order, history, file, rest[0], maxFileSize); }
    }

    /** Append what did not fit, if anything. */
    method AppendOverflow(overflow: seq<Row>, ghost file: Name) returns (ghost rest: seq<Chunk>, ghost left: Files)
      requires Valid() && dir.AtRest()
      requires dir.tip == Some(file) && prevDay == Some(file.day) && num == file.num
      modifies this`prevDay, this`num, dir
      ensures Valid() && dir.AtRest() && dir.history == old(dir.history) + overflow
      ensures RestLaidOut(overflow, file, rest, maxFileSize, old(dir.files), left, dir.files,
                          old(dir.inOrder) && Follows(overflow, Some(file)))
      ensures Continued(overflow, old(dir.tip), old(dir.inOrder), dir.tip, dir.inOrder)
      ensures (dir.inOrder ==> old(dir.inOrder)) && (old(IsFull()) ==> IsFull())
      ensures 0 < maxFileSize && old(SizesOk(dir.files, maxFileSize)) ==> SizesOk(dir.files, maxFileSize)
      decreases |overflow|, 5
    {
      rest, left := [], dir.files;
      if overflow != [] {
        rest, left := AppendAfterRotation(overflow, file);
      }
    }

    /** The first chunk, and the rest. */
    method AppendSome(rows: seq<Row>) returns (ghost chunks: seq<Chunk>)
      requires Valid() && rows != []
      modifies this`prevDay, this`num, dir
      ensures Valid() && dir.AtRest() && dir.history == old(dir.history) + rows
      ensures Unchunked(chunks) == rows && LaidOut(chunks, maxFileSize)
      ensures chunks != [] && chunks[0].rows != [] && chunks[0].rows[0] == rows[0]
              && BeginsAt(old(dir.files), old(prevDay), old(num), chunks[0], maxFileSize)
      ensures old(dir.inOrder) && Follows(rows, old(dir.tip)) ==>
                Placed(old(dir.files), dir.files, chunks) && Filled(old(dir.files), dir.files, maxFileSize)
      ensures dir.inOrder ==> old(dir.inOrder) && NotBefore(old(dir.tip), chunks[0].file)
      ensures old(IsFull()) || chunks[0].file !in old(dir.files) ==> IsFull()
      ensures Continued(rows, old(dir.tip), old(dir.inOrder), dir.tip, dir.inOrder)
      ensures 0 < maxFileSize && old(SizesOk(dir.files, maxFileSize)) ==> SizesOk(dir.files, maxFileSize)
      decreases |rows|, 1
    {
      ghost var before, tip, ordered := dir.files, dir.tip, dir.inOrder && Follows(rows, dir.tip);
      ghost var order, history := dir.order, dir.history;
      var n, c := WriteChunk(rows);
      ghost var written, tip1, inOrder1 := dir.files, dir.tip, dir.inOrder;
      if ordered {
        ChunkIsLast(before, order, history, tip, c.file);
        ChunkIsLast(dir.files, dir.order, dir.history, dir.tip, c.file);
      }
      ghost var rest, left := AppendOverflow(rows[n..], c.file);
      chunks := [c] + rest;
      ChunksGoOn(rows, n, tip, ordered, c, rest, maxFileSize, before, written, left, dir.files);
      Rejoin(old(dir.history), rows, n);
      ChunkThenRest(rows, n, tip, old(dir.inOrder), tip1, inOrder1, dir.tip, dir.inOrder);
    }

    /**
     * Append rows, filling files and rotating to new ones: in chunks that fit their file or are a
     * single row, each begun because its first row did not fit the file before, and on the same day
     * in the next file. While days do not fall nothing is reordered, every file took at most one
     * row or is within the limit, and nothing is lost but with the oldest files, which go only when
     * a rotation finds the log full, and which new ones replace. Every file stays below its budget up
     * to its last line, and once the log rotated on a day the number of files stays within its limit.
     */
    method AppendRows(rows: seq<Row>) returns (ghost chunks: seq<Chunk>)
      requires Valid()
      modifies this`prevDay, this`num, dir
      ensures Valid()
      ensures dir.history == old(dir.history) + rows
      ensures Unchunked(chunks) == rows && LaidOut(chunks, maxFileSize)
      ensures rows != [] ==> chunks != [] && chunks[0].rows != [] && chunks[0].rows[0] == rows[0]
                             && BeginsAt(old(dir.files), old(prevDay), old(num), chunks[0], maxFileSize)
      ensures old(dir.inOrder) && Follows(rows, old(dir.tip)) && rows != [] ==>
                Placed(old(dir.files), dir.files, chunks) && Filled(old(dir.files), dir.files, maxFileSize)
      ensures rows != [] || old(dir.AtRest()) ==> dir.AtRest()
      ensures rows == [] ==> dir.files == old(dir.files)
      ensures Continued(rows, old(dir.tip), old(dir.inOrder), dir.tip, dir.inOrder)
      ensures dir.inOrder ==> old(dir.inOrder) && (rows != [] ==> NotBefore(old(dir.tip), chunks[0].file))
      ensures old(IsFull()) || (rows != [] && chunks[0].file !in old(dir.files)) ==> IsFull()
      ensures dir.inOrder && !dir.evicted ==> Content(dir.files, dir.order) == dir.history
      ensures 0 < maxFileSize && old(SizesOk(dir.files, maxFileSize)) ==> SizesOk(dir.files, maxFileSize)
      decreases |rows|, 3
    {
      chunks := [];
      if rows != [] {
        chunks := AppendSome(rows);
      }
    }
  }
}
