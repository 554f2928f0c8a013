/** Rotating log files on disk: their names, their creation order, and the rows they hold. */
module LogFiles {
  import opened Wrappers

  const DAY_MS := 86400000

  /** The day a timestamp in milliseconds falls on (UTC). */
  function DayOf(ts: int): int { ts / DAY_MS }

  /** A day has 24 hours of 3600 seconds, counted from the start of 1970, before which days are negative. */
  lemma DaysAreWhole(ts: int, day: int)
    ensures DayOf(ts) == day <==> day * (24 * 3600 * 1000) <= ts < (day + 1) * (24 * 3600 * 1000)
  {
  }

  /** One row: its timestamp and its JSON text, which is written followed by a newline. */
  datatype Row = Row(ts: int, text: string)

  function LineLength(row: Row): nat { |row.text| + 1 }

  function Bytes(rows: seq<Row>): nat {
    if rows == [] then 0 else Bytes(rows[..|rows| - 1]) + LineLength(rows[|rows| - 1])
  }

  lemma {:induction false} BytesConcat(a: seq<Row>, b: seq<Row>)
    ensures Bytes(a + b) == Bytes(a) + Bytes(b)
  {
    if b == [] {
      assert a + b == a;
    } else {
      assert (a + b)[..|a + b| - 1] == a + b[..|b| - 1];
      BytesConcat(a, b[..|b| - 1]);
    }
  }

  /** The file `<prefix>_<day>_<num>.ndjson`. */
  datatype Name = Name(day: int, num: nat)

  predicate NameLess(a: Name, b: Name) {
    a.day < b.day || (a.day == b.day && a.num < b.num)
  }

  predicate NameAtMost(a: Name, b: Name) {
    a == b || NameLess(a, b)
  }

  /** A file: when it was created, and its lines. */
  datatype File = File(birth: int, rows: seq<Row>)

  type Files = map<Name, File>

  // ----- creation order -----

  /** What both the writer and the reader sort by: birth time, then sequence number. */
  predicate SortsBefore(files: Files, a: Name, b: Name)
    requires a in files && b in files
  {
    files[a].birth < files[b].birth || (files[a].birth == files[b].birth && a.num < b.num)
  }

  ghost predicate BornBefore(files: Files, a: Name, b: Name) {
    a in files && b in files && SortsBefore(files, a, b)
  }

  /**
   * `order` lists exactly the files, in the order they were created. Files may be born in the same
   * millisecond as long as their numbers rise, as those of one day do.
   */
  ghost predicate Shelved(files: Files, order: seq<Name>) {
    && (forall n :: n in order <==> n in files)
    && (forall i, j :: 0 <= i < j < |order| ==> BornBefore(files, order[i], order[j]))
  }

  /** A directory listing sorted by birth time and sequence number. */
  ghost predicate IsListing(files: Files, names: seq<Name>) {
    && (forall n :: n in names <==> n in files)
    && (forall i, j :: 0 <= i < j < |names| ==> names[i] != names[j] && !SortsBefore(files, names[j], names[i]))
  }

  /** There is one listing: the creation order. */
  lemma ListingIsCreationOrder(files: Files, order: seq<Name>, names: seq<Name>)
    requires Shelved(files, order) && IsListing(files, names)
    ensures names == order
  {
    ListingIsShelved(files, order, names);
    SameShelf(files, order, names);
  }

  lemma BirthFollowsIndex(files: Files, order: seq<Name>, a: nat, b: nat)
    requires Shelved(files, order) && a < |order| && b < |order|
    ensures BornBefore(files, order[a], order[b]) <==> a < b
    ensures BornBefore(files, order[b], order[a]) <==> b < a
  {
    assert order[a] in order && order[b] in order;
  }

  lemma ListingIsShelved(files: Files, order: seq<Name>, names: seq<Name>)
    requires Shelved(files, order) && IsListing(files, names)
    ensures Shelved(files, names)
  {
    forall i, j | 0 <= i < j < |names|
      ensures BornBefore(files, names[i], names[j])
    {
      assert names[i] in names && names[j] in names;
      var a :| 0 <= a < |order| && order[a] == names[i];
      var b :| 0 <= b < |order| && order[b] == names[j];
      BirthFollowsIndex(files, order, a, b);
    }
  }

  lemma EmptyShelf(files: Files, order: seq<Name>)
    requires Shelved(files, order)
    ensures order == [] <==> files == map[]
  {
    if order != [] {
      assert order[0] in order;
    }
    if files != map[] {
      var n :| n in files;
      assert n in order;
    }
  }

  /** The last name of a creation order is the newest file. */
  lemma NewestIsLast(files: Files, order: seq<Name>, n: Name)
    requires Shelved(files, order) && n in files
    ensures order != [] && order[|order| - 1] in files
    ensures n == order[|order| - 1] || BornBefore(files, n, order[|order| - 1])
  {
    assert n in order;
    assert order[|order| - 1] in order;
  }

  lemma LastsAgree(files: Files, a: seq<Name>, b: seq<Name>)
    requires Shelved(files, a) && Shelved(files, b)
    ensures a == [] <==> b == []
    ensures a != [] ==> a[|a| - 1] == b[|b| - 1]
  {
    EmptyShelf(files, a);
    EmptyShelf(files, b);
    if a != [] {
      assert a[|a| - 1] in a && b[|b| - 1] in b;
      NewestIsLast(files, a, b[|b| - 1]);
      NewestIsLast(files, b, a[|a| - 1]);
    }
  }

  /** Two creation orders of the same files are the same. */
  lemma {:induction false} SameShelf(files: Files, a: seq<Name>, b: seq<Name>)
    requires Shelved(files, a) && Shelved(files, b)
    ensures a == b
    decreases |a|
  {
    LastsAgree(files, a, b);
    if a != [] {
      var front, front', last := a[..|a| - 1], b[..|b| - 1], a[|a| - 1];
      ShelfWithoutLast(files, a);
      ShelfWithoutLast(files, b);
      SameShelf(files - {last}, front, front');
      assert a == front + [last] && b == front' + [last];
    }
  }

  lemma ShelfWithoutLast(files: Files, order: seq<Name>)
    requires Shelved(files, order) && order != []
    ensures Shelved(files - {order[|order| - 1]}, order[..|order| - 1])
  {
    var last := order[|order| - 1];
    forall i | 0 <= i < |order| - 1
      ensures order[i] != last
    {
      assert BornBefore(files, order[i], last);
    }
    forall n
      ensures n in order[..|order| - 1] <==> n in files - {last}
    {
      if n in files && n != last {
        var i :| 0 <= i < |order| && order[i] == n;
        assert order[..|order| - 1][i] == n;
      }
    }
  }

  // ----- contents -----

  /** The rows a file holds, none if it does not exist. */
  function RowsOf(files: Files, name: Name): seq<Row> {
    if name in files then files[name].rows else []
  }

  /** The rows of the files in the given order. */
  function Content(files: Files, order: seq<Name>): seq<Row> {
    if order == [] then []
    else Content(files, order[..|order| - 1]) + RowsOf(files, order[|order| - 1])
  }

  lemma {:induction false} ContentFrame(files: Files, files': Files, order: seq<Name>)
    requires forall n :: n in order ==> RowsOf(files, n) == RowsOf(files', n)
    ensures Content(files, order) == Content(files', order)
  {
    if order != [] {
      ContentFrame(files, files', order[..|order| - 1]);
    }
  }

  lemma {:induction false} ContentConcat(files: Files, a: seq<Name>, b: seq<Name>)
    ensures Content(files, a + b) == Content(files, a) + Content(files, b)
  {
    if b == [] {
      assert a + b == a;
    } else {
      assert (a + b)[..|a + b| - 1] == a + b[..|b| - 1];
      ContentConcat(files, a, b[..|b| - 1]);
    }
  }

  lemma ContentSnoc(files: Files, order: seq<Name>, name: Name)
    ensures Content(files, order + [name]) == Content(files, order) + RowsOf(files, name)
  {
    assert (order + [name])[..|order|] == order;
  }

  lemma ContentCons(files: Files, name: Name, order: seq<Name>)
    ensures Content(files, [name] + order) == RowsOf(files, name) + Content(files, order)
  {
    ContentConcat(files, [name], order);
    ContentSnoc(files, [], name);
    assert [] + [name] == [name];
  }

  predicate IsSuffix(a: seq<Row>, b: seq<Row>) {
    |a| <= |b| && b[|b| - |a|..] == a
  }

  lemma SuffixExtends(a: seq<Row>, b: seq<Row>, c: seq<Row>)
    requires IsSuffix(a, b)
    ensures IsSuffix(a + c, b + c)
  {
    assert (b + c)[|b + c| - |a + c|..] == b[|b| - |a|..] + c;
  }

  lemma SuffixOfSuffix(a: seq<Row>, b: seq<Row>, dropped: seq<Row>)
    requires IsSuffix(dropped + a, b)
    ensures IsSuffix(a, b)
  {
    assert b[|b| - |a|..] == b[|b| - |dropped + a|..][|dropped|..];
  }

  // ----- what writing and deleting do -----

  /** The directory after `rows` were appended to `name`, which is created at `now` if it is missing. */
  function Appended(files: Files, name: Name, rows: seq<Row>, now: int): Files {
    if name in files then files[name := File(files[name].birth, files[name].rows + rows)]
    else files[name := File(now, rows)]
  }

  function OrderAfterAppend(files: Files, order: seq<Name>, name: Name): seq<Name> {
    if name in files then order else order + [name]
  }

  /** A file created at `now` sorts after all others. */
  ghost predicate ComesLast(files: Files, name: Name, now: int) {
    forall n :: n in files ==> files[n].birth < now || (files[n].birth == now && n.num < name.num)
  }

  lemma AppendedFacts(files: Files, name: Name, rows: seq<Row>, now: int)
    requires forall n :: n in files ==> files[n].birth <= now
    ensures var files' := Appended(files, name, rows, now);
            && files'.Keys == files.Keys + {name}
            && (forall n :: n in files && n != name ==> files'[n] == files[n])
            && files'[name].rows == RowsOf(files, name) + rows
            && (forall n :: n in files' ==> files'[n].birth <= now)
            && (TopsDay(files, name) ==> TopsDay(files', name))
  {
  }

  lemma AppendKeepsShelf(files: Files, order: seq<Name>, name: Name, rows: seq<Row>, now: int)
    requires Shelved(files, order) && (name !in files ==> ComesLast(files, name, now))
    ensures Shelved(Appended(files, name, rows, now), OrderAfterAppend(files, order, name))
  {
    var files', order' := Appended(files, name, rows, now), OrderAfterAppend(files, order, name);
    forall i, j | 0 <= i < j < |order'|
      ensures BornBefore(files', order'[i], order'[j])
    {
      assert order'[i] in order;
      if j < |order| {
        assert BornBefore(files, order[i], order[j]);
      }
    }
  }

  /** Rows appended to the newest file, or to a new one, come after all others. */
  lemma AppendContent(files: Files, order: seq<Name>, name: Name, rows: seq<Row>, now: int)
    requires Shelved(files, order)
    requires name in files ==> order != [] && order[|order| - 1] == name
    ensures var order' := OrderAfterAppend(files, order, name);
            Content(Appended(files, name, rows, now), order') == Content(files, order) + rows
  {
    var files', order' := Appended(files, name, rows, now), OrderAfterAppend(files, order, name);
    var rest := if name in files then order[..|order| - 1] else order;
    assert order' == rest + [name];
    forall n | n in rest
      ensures n != name
    {
      if name in files {
        var i :| 0 <= i < |order| - 1 && order[i] == n;
        assert BornBefore(files, order[i], order[|order| - 1]);
      }
    }
    ContentFrame(files, files', rest);
    ContentSnoc(files', rest, name);
    ContentSnoc(files, rest, name);
  }

  lemma DeleteKeepsShelf(files: Files, order: seq<Name>)
    requires Shelved(files, order) && order != []
    ensures Shelved(files - {order[0]}, order[1..])
  {
    forall i | 0 < i < |order|
      ensures order[i] != order[0]
    {
      assert BornBefore(files, order[0], order[i]);
    }
    forall i, j | 0 <= i < j < |order| - 1
      ensures BornBefore(files - {order[0]}, order[1..][i], order[1..][j])
    {
      assert BornBefore(files, order[i + 1], order[j + 1]);
    }
    forall n | n in files && n != order[0]
      ensures n in order[1..]
    {
      var i :| 0 <= i < |order| && order[i] == n;
      assert order[1..][i - 1] == n;
    }
    assert forall n :: n in order[1..] ==> n in order;
  }

  lemma DeleteContent(files: Files, order: seq<Name>)
    requires Shelved(files, order) && order != []
    ensures Content(files, order) == RowsOf(files, order[0]) + Content(files - {order[0]}, order[1..])
  {
    assert [order[0]] + order[1..] == order;
    ContentCons(files, order[0], order[1..]);
    forall n | n in order[1..]
      ensures n != order[0]
    {
      var i :| 0 < i < |order| && order[i] == n;
      assert BornBefore(files, order[0], order[i]);
    }
    ContentFrame(files, files - {order[0]}, order[1..]);
  }

  // ----- the files as a record of what was written -----

  /** No other file of `name`'s day has a higher number. */
  ghost predicate TopsDay(files: Files, name: Name) {
    forall n :: n in files && n.day == name.day ==> n.num <= name.num
  }

  /** `name` is the file written last, or a later one. */
  predicate NotBefore(tip: Option<Name>, name: Name) {
    tip.None? || NameAtMost(tip.value, name)
  }

  ghost predicate NamesRise(order: seq<Name>) {
    forall i, j :: 0 <= i < j < |order| ==> NameLess(order[i], order[j])
  }

  lemma NamesRiseSnoc(order: seq<Name>, name: Name)
    requires NamesRise(order) && forall n :: n in order ==> NameLess(n, name)
    ensures NamesRise(order + [name])
  {
  }

  /** A file already there that is not before the one written last is the newest. */
  lemma TipIsNewest(files: Files, order: seq<Name>, history: seq<Row>, tip: Option<Name>, name: Name)
    requires Shelved(files, order) && Ledger(files, order, history, tip)
    requires NotBefore(tip, name) && name in files
    ensures order != [] && order[|order| - 1] == name
  {
    NewestIsLast(files, order, name);
    var i :| 0 <= i < |order| && order[i] == name;
    assert i < |order| - 1 ==> NameLess(order[i], order[|order| - 1]);
  }

  /**
   * Files were created in name order, none is after the one written last, and together they
   * hold the end of everything ever written.
   */
  ghost predicate Ledger(files: Files, order: seq<Name>, history: seq<Row>, tip: Option<Name>) {
    && NamesRise(order)
    && (forall n :: n in files ==> tip.Some? && NameAtMost(n, tip.value))
    && IsSuffix(Content(files, order), history)
  }

  lemma NewNameIsLast(files: Files, order: seq<Name>, history: seq<Row>, tip: Option<Name>, name: Name)
    requires Shelved(files, order) && Ledger(files, order, history, tip)
    requires NotBefore(tip, name) && name !in files
    ensures forall n :: n in order ==> NameLess(n, name)
  {
    forall n | n in order
      ensures NameLess(n, name)
    {
      assert n in files;
    }
  }

  lemma AppendKeepsLedger(files: Files, order: seq<Name>, history: seq<Row>, tip: Option<Name>,
                          name: Name, rows: seq<Row>, now: int)
    requires Shelved(files, order) && (name !in files ==> ComesLast(files, name, now))
    requires Ledger(files, order, history, tip) && NotBefore(tip, name)
    ensures var files', order' := Appended(files, name, rows, now), OrderAfterAppend(files, order, name);
            && Shelved(files', order') && Ledger(files', order', history + rows, Some(name))
            && Content(files', order') == Content(files, order) + rows
  {
    AppendKeepsShelf(files, order, name, rows, now);
    if name in files {
      TipIsNewest(files, order, history, tip, name);
    } else {
      NewNameIsLast(files, order, history, tip, name);
      NamesRiseSnoc(order, name);
    }
    AppendContent(files, order, name, rows, now);
    SuffixExtends(Content(files, order), history, rows);
  }

  lemma DeleteKeepsLedger(files: Files, order: seq<Name>, history: seq<Row>, tip: Option<Name>)
    requires Shelved(files, order) && order != [] && Ledger(files, order, history, tip)
    ensures Shelved(files - {order[0]}, order[1..])
    ensures Ledger(files - {order[0]}, order[1..], history, tip)
  {
    DeleteKeepsShelf(files, order);
    DeleteContent(files, order);
    SuffixOfSuffix(Content(files - {order[0]}, order[1..]), history, RowsOf(files, order[0]));
  }

  // ----- sizes -----

  /** Without its last line the file is smaller than the size at which it is rotated. */
  predicate BelowBudget(rows: seq<Row>, maxFileSize: nat) {
    rows == [] || Bytes(rows[..|rows| - 1]) < maxFileSize
  }

  ghost predicate SizesOk(files: Files, maxFileSize: nat) {
    forall n :: n in files ==> BelowBudget(files[n].rows, maxFileSize)
  }

  /** A chunk that fits the rest of the budget, or is a single line, keeps the file below its budget. */
  lemma ChunkKeepsBudget(rows: seq<Row>, chunk: seq<Row>, maxFileSize: nat)
    requires chunk != [] && Bytes(rows) < maxFileSize
    requires |chunk| == 1 || Bytes(rows) + Bytes(chunk) <= maxFileSize
    ensures BelowBudget(rows + chunk, maxFileSize)
  {
    var all, front := rows + chunk, chunk[..|chunk| - 1];
    assert all[..|all| - 1] == rows + front;
    BytesConcat(rows, front);
    if |chunk| == 1 {
      assert front == [];
    } else {
      assert Bytes(chunk) == Bytes(front) + LineLength(chunk[|chunk| - 1]);
    }
  }
}
