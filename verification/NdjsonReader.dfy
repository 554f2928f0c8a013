/** Reading the log back by days, and the disk space it can take. */
module NdjsonReaders {
  import opened Wrappers
  import opened Arithmetic
  import opened Sequences
  import opened LogFiles
  import opened NdjsonLogs

  // ----- which days and which files -----

  /** The first and the last day a read covers. */
  function FirstDay(from: int, to: int): int { if from < to then DayOf(from) else DayOf(to) }

  predicate HasDay(dates: seq<int>, day: int) {
    exists i :: 0 <= i < |dates| && DayOf(dates[i]) == day
  }

  /** The dates fall on exactly the days from `first` to `last`. */
  ghost predicate CoversDays(dates: seq<int>, first: int, last: int) {
    forall d :: HasDay(dates, d) <==> first <= d <= last
  }

  lemma HasDaySnoc(dates: seq<int>, t: int, day: int)
    ensures HasDay(dates + [t], day) <==> HasDay(dates, day) || day == DayOf(t)
  {
    assert (dates + [t])[|dates|] == t;
    if HasDay(dates, day) {
      var i :| 0 <= i < |dates| && DayOf(dates[i]) == day;
      assert (dates + [t])[i] == dates[i];
    }
  }

  lemma CoverNextDay(dates: seq<int>, first: int, last: int, t: int)
    requires CoversDays(dates, first, last)
    requires first <= DayOf(t) && last <= DayOf(t) <= last + 1
    ensures CoversDays(dates + [t], first, DayOf(t))
  {
    forall d
      ensures HasDay(dates + [t], d) <==> first <= d <= DayOf(t)
    {
      HasDaySnoc(dates, t, d);
    }
  }

  /** Dates for every day from `from` to `to`, both included. */
  method DaysInRange(from: int, to: int) returns (dates: seq<int>)
    ensures CoversDays(dates, FirstDay(from, to), DayOf(to))
  {
    dates := [];
    var ts := from;
    assert CoversDays(dates, DayOf(from), DayOf(ts) - 1);
    while ts < to
      invariant from <= ts && (if ts == from then dates == [] else from < to && ts < to + DAY_MS)
      invariant CoversDays(dates, DayOf(from), DayOf(ts) - 1)
    {
      CoverNextDay(dates, DayOf(from), DayOf(ts) - 1, ts);
      dates := dates + [ts];
      ts := ts + DAY_MS;
    }
    if from < to {
      CoverNextDay(dates, DayOf(from), DayOf(ts) - 1, to);
    } else {
      assert forall d :: !HasDay(dates, d);
      CoverNextDay(dates, DayOf(to), DayOf(to) - 1, to);
    }
    dates := dates + [to];
  }

  /** The files created on the given days. */
  function CreatedOn(files: Files, dates: seq<int>): Files {
    map n | n in files && HasDay(dates, DayOf(files[n].birth)) :: files[n]
  }

  /** How many files, in creation order, were created before a day. */
  function CreatedBefore(files: Files, order: seq<Name>, day: int): nat {
    if order == [] then 0
    else if order[|order| - 1] in files && DayOf(files[order[|order| - 1]].birth) < day then |order|
    else CreatedBefore(files, order[..|order| - 1], day)
  }

  /** Files created before a day are exactly the first so many. */
  lemma {:induction false} CreatedBeforeSplits(files: Files, order: seq<Name>, day: int)
    requires forall i :: 0 <= i < |order| ==> order[i] in files
    requires forall i, j :: 0 <= i < j < |order| ==> BornBefore(files, order[i], order[j])
    ensures CreatedBefore(files, order, day) <= |order|
    ensures forall i :: 0 <= i < |order| ==>
              (DayOf(files[order[i]].birth) < day <==> i < CreatedBefore(files, order, day))
  {
    if order != [] {
      var last := |order| - 1;
      forall i | 0 <= i < last
        ensures DayOf(files[order[i]].birth) <= DayOf(files[order[last]].birth)
      {
        assert BornBefore(files, order[i], order[last]);
      }
      CreatedBeforeSplits(files, order[..last], day);
      assert forall i :: 0 <= i < last ==> order[..last][i] == order[i];
    }
  }

  lemma {:induction false} CreatedBeforeGrows(files: Files, order: seq<Name>, day: int, later: int)
    requires day <= later
    ensures CreatedBefore(files, order, day) <= CreatedBefore(files, order, later) <= |order|
  {
    if order != [] {
      CreatedBeforeGrows(files, order[..|order| - 1], day, later);
      CreatedBeforeGrows(files, order[..|order| - 1], day, day);
    }
  }

  /** The files created on a range of days are a stretch of the creation order, in that order. */
  lemma DaysAreAStretch(files: Files, order: seq<Name>, dates: seq<int>, first: int, last: int)
    returns (a: nat, b: nat)
    requires Shelved(files, order) && CoversDays(dates, first, last) && first <= last + 1
    ensures a <= b <= |order| && Shelved(CreatedOn(files, dates), order[a..b])
    ensures (forall n :: n in files ==> DayOf(files[n].birth) <= last) ==> b == |order|
    ensures (forall n :: n in files ==> first <= DayOf(files[n].birth)) ==> a == 0
  {
    assert forall i :: 0 <= i < |order| ==> order[i] in order;
    CreatedBeforeSplits(files, order, first);
    CreatedBeforeSplits(files, order, last + 1);
    a, b := CreatedBefore(files, order, first), CreatedBefore(files, order, last + 1);
    CreatedBeforeGrows(files, order, first, last + 1);
    StretchIsShelved(files, order, dates, a, b);
    assert b < |order| ==> order[b] in files;
    assert a > 0 ==> order[0] in files;
  }

  lemma StretchIsShelved(files: Files, order: seq<Name>, dates: seq<int>, a: nat, b: nat)
    requires Shelved(files, order) && a <= b <= |order|
    requires forall i :: 0 <= i < |order| ==> order[i] in files
    requires forall i :: 0 <= i < |order| ==> (HasDay(dates, DayOf(files[order[i]].birth)) <==> a <= i < b)
    ensures Shelved(CreatedOn(files, dates), order[a..b])
  {
    var some := CreatedOn(files, dates);
    forall n
      ensures n in order[a..b] <==> n in some
    {
      if n in some {
        assert n in order;
        var i :| 0 <= i < |order| && order[i] == n;
        assert order[a..b][i - a] == n;
      }
    }
    forall i, j | 0 <= i < j < b - a
      ensures BornBefore(some, order[a..b][i], order[a..b][j])
    {
      assert BornBefore(files, order[a + i], order[a + j]);
    }
  }

  // ----- reading -----

  /** The rows a read keeps: those that pass the filter, up to the limit. */
  function Kept(rows: seq<Row>, keep: Row -> bool, limit: Option<nat>): seq<Row> {
    if rows == [] then []
    else
      var earlier, last := Kept(rows[..|rows| - 1], keep, limit), rows[|rows| - 1];
      if keep(last) && (limit.None? || |earlier| < limit.value) then earlier + [last] else earlier
  }

  lemma KeptSnoc(rows: seq<Row>, row: Row, keep: Row -> bool, limit: Option<nat>)
    ensures Kept(rows + [row], keep, limit)
         == if keep(row) && (limit.None? || |Kept(rows, keep, limit)| < limit.value)
            then Kept(rows, keep, limit) + [row] else Kept(rows, keep, limit)
  {
    assert (rows + [row])[..|rows|] == rows;
  }

  /** The rows that pass a filter. */
  function Passing(rows: seq<Row>, keep: Row -> bool): seq<Row> {
    if rows == [] then []
    else if keep(rows[0]) then [rows[0]] + Passing(rows[1..], keep)
    else Passing(rows[1..], keep)
  }

  lemma {:induction false} PassingSnoc(rows: seq<Row>, row: Row, keep: Row -> bool)
    ensures Passing(rows + [row], keep) == Passing(rows, keep) + if keep(row) then [row] else []
  {
    if rows == [] {
      assert rows + [row] == [row] && [row][1..] == [];
    } else {
      assert (rows + [row])[1..] == rows[1..] + [row];
      PassingSnoc(rows[1..], row, keep);
    }
  }

  /** A read keeps the first `limit` rows that pass the filter. */
  lemma {:induction false} KeptArePassing(rows: seq<Row>, keep: Row -> bool, limit: Option<nat>)
    ensures Kept(rows, keep, limit)
         == if limit.None? then Passing(rows, keep) else Cut(Passing(rows, keep), limit.value)
  {
    if rows != [] {
      var front, last := rows[..|rows| - 1], rows[|rows| - 1];
      assert rows == front + [last];
      KeptArePassing(front, keep, limit);
      PassingSnoc(front, last, keep);
    }
  }

  /** Once the limit is reached more rows change nothing. */
  lemma {:induction false} KeptIsFull(rows: seq<Row>, more: seq<Row>, keep: Row -> bool, limit: nat)
    requires |Kept(rows, keep, Some(limit))| >= limit
    ensures Kept(rows + more, keep, Some(limit)) == Kept(rows, keep, Some(limit))
  {
    if more == [] {
      assert rows + more == rows;
    } else {
      assert rows + more == (rows + more[..|more| - 1]) + [more[|more| - 1]];
      KeptIsFull(rows, more[..|more| - 1], keep, limit);
      KeptSnoc(rows + more[..|more| - 1], more[|more| - 1], keep, Some(limit));
    }
  }

  lemma {:induction false} KeepAll(rows: seq<Row>, keep: Row -> bool)
    requires forall row :: keep(row)
    ensures Kept(rows, keep, None) == rows
  {
    if rows != [] {
      KeepAll(rows[..|rows| - 1], keep);
    }
  }

  /** Read one file's lines after `before` was read. */
  method ReadLines(lines: seq<Row>, ghost before: seq<Row>, acc0: seq<Row>, keep: Row -> bool, limit: Option<nat>)
    returns (acc: seq<Row>)
    requires acc0 == Kept(before, keep, limit)
    ensures acc == Kept(before + lines, keep, limit)
  {
    acc := acc0;
    ghost var all, k := before + lines, |before|;
    assert all[..k] == before;
    for i := 0 to |lines|
      invariant acc == Kept(all[..k + i], keep, limit)
    {
      if limit.Some? && |acc| >= limit.value {
        KeptIsFull(all[..k + i], all[k + i..], keep, limit.value);
        assert all[..k + i] + all[k + i..] == all;
        return;
      }
      KeptSnoc(all[..k + i], all[k + i], keep, limit);
      assert all[..k + i + 1] == all[..k + i] + [all[k + i]];
      if keep(lines[i]) { acc := acc + [lines[i]]; }
    }
    assert all[..k + |lines|] == all;
  }

  /** Read the files one after the other. */
  method ReadFiles(files: Files, names: seq<Name>, keep: Row -> bool, limit: Option<nat>) returns (acc: seq<Row>)
    ensures acc == Kept(Content(files, names), keep, limit)
  {
    acc := [];
    for i := 0 to |names|
      invariant acc == Kept(Content(files, names[..i]), keep, limit)
    {
      ContentSnoc(files, names[..i], names[i]);
      assert names[..i + 1] == names[..i] + [names[i]];
      acc := ReadLines(RowsOf(files, names[i]), Content(files, names[..i]), acc, keep, limit);
    }
    assert names[..|names|] == names;
  }

  /** The names of the files created on the given days, sorted by birth time and number. */
  method FilePathsFor(dir: LogDir, dates: seq<int>) returns (names: seq<Name>)
    ensures IsListing(CreatedOn(dir.files, dates), names)
  {
    names := SortedNames(CreatedOn(dir.files, dates));
  }

  predicate CreatedBetween(files: Files, name: Name, first: int, last: int) {
    name in files && first <= DayOf(files[name].birth) <= last
  }

  /** `rows` are those a read keeps of the files from `a` to `b` in creation order, which are those created on the days. */
  ghost predicate IsRead(dir: LogDir, a: nat, b: nat, from: int, to: int, keep: Row -> bool, limit: Option<nat>, rows: seq<Row>)
    reads dir
  {
    && a <= b <= |dir.order| && rows == Kept(Content(dir.files, dir.order[a..b]), keep, limit)
    && (forall n :: n in dir.order[a..b] <==> CreatedBetween(dir.files, n, FirstDay(from, to), DayOf(to)))
    && ((forall n :: n in dir.files ==> DayOf(dir.files[n].birth) <= DayOf(to)) ==> b == |dir.order|)
    && ((forall n :: n in dir.files ==> FirstDay(from, to) <= DayOf(dir.files[n].birth)) ==> a == 0)
  }

  /**
   * Read the rows in the files of a range of days. They are the rows of a stretch of the files
   * in creation order, which ends with the newest file when the days cover it.
   */
  method StreamNdjson(dir: LogDir, from: int, to: int, keep: Row -> bool, limit: Option<nat>) returns (acc: seq<Row>)
    requires dir.Valid()
    ensures exists a, b :: IsRead(dir, a, b, from, to, keep, limit, acc)
  {
    var dates := DaysInRange(from, to);
    var names := FilePathsFor(dir, dates);
    ghost var a, b := DaysAreAStretch(dir.files, dir.order, dates, FirstDay(from, to), DayOf(to));
    ListingIsCreationOrder(CreatedOn(dir.files, dates), dir.order[a..b], names);
    acc := ReadFiles(dir.files, names, keep, limit);
    forall n ensures n in dir.order[a..b] <==> CreatedBetween(dir.files, n, FirstDay(from, to), DayOf(to)) {
      assert n in dir.order[a..b] <==> n in CreatedOn(dir.files, dates);
    }
    assert IsRead(dir, a, b, from, to, keep, limit, acc);
  }

  // ----- disk space -----

  const MIN_FILE_SIZE := 256 * 1024
  const MAX_FILE_SIZE := 10 * 1024 * 1024
  const MIN_FILES := 4

  function Megabytes(n: real): real { n * 1048576.0 }

  datatype Capacity = Capacity(maxFiles: nat, maxFileSize: nat)

  function Max(a: int, b: int): int { if a < b then b else a }

  function Min(a: int, b: int): int { if a < b then a else b }

  function ComputeCapacity(retentionMb: real): Capacity {
    var capacityBytes := Megabytes(retentionMb);
    var maxFileSize := Min(MAX_FILE_SIZE, Max(MIN_FILE_SIZE, (capacityBytes / MIN_FILES as real).Floor));
    Capacity(Max(MIN_FILES, (capacityBytes / maxFileSize as real).Floor), maxFileSize)
  }

  lemma Product(a: int, b: int)
    ensures (a * b) as real == a as real * b as real
  {
  }

  lemma Part(d: real, p: real)
    requires 0.0 <= d < 1.0 && p > 0.0
    ensures 0.0 <= d * p < p
  {
  }

  lemma Between(whole: real, q: real, p: real, n: real, parts: real)
    requires p > 0.0 && whole == q * p && parts == n * p && n <= q < n + 1.0
    ensures parts <= whole < parts + p
  {
    var d := q - n;
    var x := d * p;
    Part(d, p);
    assert x < p;
    assert x == whole - parts;
  }

  lemma Undivided(whole: real, p: real)
    requires p > 0.0
    ensures whole == whole / p * p
  {
  }

  /** How many whole parts fit in a whole. */
  lemma WholeParts(whole: real, part: nat)
    requires part > 0
    ensures var n := (whole / part as real).Floor;
            (n * part) as real <= whole < (n * part + part) as real
  {
    var q := whole / part as real;
    Undivided(whole, part as real);
    Product(q.Floor, part);
    Between(whole, q, part as real, q.Floor as real, (q.Floor * part) as real);
  }

  /** The files fill the retention to within one file, except that less than 1 MB still gets four files. */
  lemma CapacityFillsRetention(retentionMb: real)
    ensures var c := ComputeCapacity(retentionMb);
            && c.maxFiles >= 4 && 262144 <= c.maxFileSize <= 10485760
            && ((c.maxFiles * c.maxFileSize) as real <= Megabytes(retentionMb) <==> retentionMb >= 1.0)
            && Megabytes(retentionMb) < (c.maxFiles * c.maxFileSize + c.maxFileSize) as real
  {
    var bytes, c := Megabytes(retentionMb), ComputeCapacity(retentionMb);
    WholeParts(bytes, MIN_FILES);
    WholeParts(bytes, c.maxFileSize);
    var quarter, files := (bytes / MIN_FILES as real).Floor, (bytes / c.maxFileSize as real).Floor;
    FewFiles(bytes, quarter, files, c.maxFileSize);
  }

  /** A file may take a quarter of the retention, but 256 KB at least and 10 MB at most. */
  lemma FileSizeFollowsRetention(retentionMb: real)
    ensures var size := ComputeCapacity(retentionMb).maxFileSize;
            && (retentionMb < 1.0 ==> size == 262144)
            && (1.0 <= retentionMb < 40.0 ==> size as real <= retentionMb * 262144.0 < size as real + 1.0)
            && (40.0 <= retentionMb ==> size == 10485760)
  {
    assert Megabytes(retentionMb) / MIN_FILES as real == retentionMb * 262144.0;
  }

  /** Four files of the chosen size fit exactly from 1 MB on. */
  lemma FewFiles(bytes: real, quarter: int, files: int, size: nat)
    requires (quarter * 4) as real <= bytes < (quarter * 4 + 4) as real
    requires size == Min(MAX_FILE_SIZE, Max(MIN_FILE_SIZE, quarter))
    requires (files * size) as real <= bytes < (files * size + size) as real
    ensures (Max(MIN_FILES, files) * size) as real <= bytes <==> bytes >= 1048576.0
    ensures bytes < (Max(MIN_FILES, files) * size + size) as real
  {
    var max := Max(MIN_FILES, files);
    if files < 4 { ProductGrows(files + 1, 4, size); }
    if bytes >= 1048576.0 {
      assert 4 * size <= quarter * 4;
    } else {
      assert size == MIN_FILE_SIZE;
      ProductGrows(4, max, size);
    }
  }

  lemma OneMore(n: nat, per: nat)
    ensures (n + 1) * per == n * per + per
  {
  }

  lemma {:induction false} ContentBytes(files: Files, order: seq<Name>, perFile: nat)
    requires forall n :: n in order ==> Bytes(RowsOf(files, n)) <= perFile
    ensures Bytes(Content(files, order)) <= |order| * perFile
  {
    if order != [] {
      var front, last := order[..|order| - 1], order[|order| - 1];
      assert order == front + [last];
      assert last in order;
      ContentBytes(files, front, perFile);
      BytesConcat(Content(files, front), RowsOf(files, last));
      OneMore(|front|, perFile);
    }
  }

  /** A file below its budget is smaller than the budget and its last line together. */
  lemma FileSize(rows: seq<Row>, maxFileSize: nat, longest: nat)
    requires BelowBudget(rows, maxFileSize) && 0 < maxFileSize
    requires forall row :: row in rows ==> LineLength(row) <= longest
    ensures rows != [] ==> Bytes(rows) < maxFileSize + longest
  {
  }

  lemma LogSize(files: Files, order: seq<Name>, max: nat, size: nat, longest: nat)
    requires Shelved(files, order) && SizesOk(files, size) && |files| <= max && 0 < max && 0 < size
    requires forall n, row :: n in files && row in files[n].rows ==> LineLength(row) <= longest
    ensures Bytes(Content(files, order)) < max * size + max * longest
  {
    var perFile := size - 1 + longest;
    FilesAreSmall(files, order, size, longest, perFile);
    ContentBytes(files, order, perFile);
    ShelfLength(files, order);
    FewSmallFiles(Bytes(Content(files, order)), |order|, max, size, longest, perFile);
  }

  lemma FilesAreSmall(files: Files, order: seq<Name>, size: nat, longest: nat, perFile: nat)
    requires Shelved(files, order) && SizesOk(files, size) && 0 < size && perFile == size - 1 + longest
    requires forall n, row :: n in files && row in files[n].rows ==> LineLength(row) <= longest
    ensures forall n :: n in order ==> Bytes(RowsOf(files, n)) <= perFile
  {
    forall n | n in order
      ensures Bytes(RowsOf(files, n)) <= perFile
    {
      FileSize(files[n].rows, size, longest);
    }
  }

  lemma FewSmallFiles(bytes: nat, n: nat, max: nat, size: nat, longest: nat, perFile: nat)
    requires 0 < max && 0 < size && n <= max && perFile == size - 1 + longest && bytes <= n * perFile
    ensures bytes < max * size + max * longest
  {
    var each, total, bound := n * perFile, max * perFile, max * size + max * longest;
    ProductGrows(n, max, perFile);
    assert total == bound - max;
    assert bytes <= each <= total < bound;
  }

  /**
   * The disk budget. From a rotation until the day changes, the log of a collector with a
   * retention of at least 1 MB takes less than the retention plus one longest line per file.
   */
  lemma DiskBudget(writer: NdjsonWriter, retentionMb: real, longest: nat)
    requires writer.Valid() && writer.dir.rotated && retentionMb >= 1.0
    requires Capacity(writer.maxFiles, writer.maxFileSize) == ComputeCapacity(retentionMb)
    requires SizesOk(writer.dir.files, writer.maxFileSize)
    requires forall n, row :: n in writer.dir.files && row in writer.dir.files[n].rows ==> LineLength(row) <= longest
    ensures |writer.dir.files| <= writer.maxFiles
    ensures Bytes(Content(writer.dir.files, writer.dir.order)) as real
          < Megabytes(retentionMb) + (writer.maxFiles * longest) as real
  {
    CapacityFillsRetention(retentionMb);
    LogSize(writer.dir.files, writer.dir.order, writer.maxFiles, writer.maxFileSize, longest);
  }

  lemma ShelfLength(files: Files, order: seq<Name>)
    requires Shelved(files, order)
    ensures |order| == |files|
  {
    forall i, j | 0 <= i < j < |order|
      ensures order[i] != order[j]
    {
      assert BornBefore(files, order[i], order[j]);
    }
    DistinctNames(order);
    assert (set n | n in order) == files.Keys;
  }
}
