/** Key-by-key difference of two JSON documents, compared at the paths of their leaves. */
module JsonDiff {
  import opened Wrappers
  import Strings
  import opened Sequences

  datatype Scalar = Null | Bool(b: bool) | Number(n: real) | Text(s: string)

  /** Arrays are objects whose keys are the indices. */
  datatype Json = Leaf(value: Scalar) | Object(entries: Entries)
  datatype Entries = End | Entry(key: string, value: Json, rest: Entries)

  type Path = seq<string>

  datatype DiffEntry = DiffEntry(keyPath: Path, keyPathString: string, valueA: Option<Json>, valueB: Option<Json>)

  // ----- documents -----

  function Get(entries: Entries, key: string): Option<Json> {
    match entries
    case End => None
    case Entry(k, v, rest) => if k == key then Some(v) else Get(rest, key)
  }

  /** What a path leads to; nothing is beyond a leaf. */
  function Lookup(x: Json, path: Path): Option<Json>
    decreases |path|
  {
    if path == [] then Some(x)
    else
      match x
      case Leaf(_) => None
      case Object(entries) =>
        var next := Get(entries, path[0]);
        if next.None? then None else Lookup(next.value, path[1..])
  }

  function LeafOf(x: Option<Json>): Option<Scalar> {
    if x.Some? && x.value.Leaf? then Some(x.value.value) else None
  }

  /** The scalar at a path, if there is one. */
  function ScalarAt(x: Json, path: Path): Option<Scalar> {
    LeafOf(Lookup(x, path))
  }

  /** An object has each key once. */
  predicate WellFormed(x: Json) {
    x.Leaf? || WellFormedEntries(x.entries)
  }

  predicate WellFormedEntries(entries: Entries) {
    match entries
    case End => true
    case Entry(k, v, rest) => Get(rest, k) == None && WellFormed(v) && WellFormedEntries(rest)
  }

  lemma {:induction false} GetIsWellFormed(entries: Entries, key: string)
    requires WellFormedEntries(entries) && Get(entries, key).Some?
    ensures WellFormed(Get(entries, key).value)
  {
    if entries.key != key { GetIsWellFormed(entries.rest, key); }
  }

  // ----- the difference -----

  function ToKeyPaths(x: Json, path: Path): seq<Path>
    decreases x
  {
    match x
    case Leaf(value) => if value == Null && path == [] then [] else [path]
    case Object(entries) => EntryPaths(entries, path)
  }

  function EntryPaths(entries: Entries, path: Path): seq<Path>
    decreases entries
  {
    match entries
    case End => []
    case Entry(k, v, rest) => ToKeyPaths(v, path + [k]) + EntryPaths(rest, path)
  }

  /** Strict comparison: scalars by value, nothing equals nothing, and two documents share no object. */
  predicate Same(a: Option<Json>, b: Option<Json>) {
    a == b && (a.Some? ==> a.value.Leaf?)
  }

  function Changes(paths: seq<Path>, a: Json, b: Json): seq<DiffEntry> {
    if paths == [] then []
    else
      var p := paths[|paths| - 1];
      var before := Changes(paths[..|paths| - 1], a, b);
      if Same(Lookup(a, p), Lookup(b, p)) then before
      else before + [DiffEntry(p, Strings.Join(p, '.'), Lookup(a, p), Lookup(b, p))]
  }

  function Diff(a: Json, b: Json): seq<DiffEntry>
    requires a.Object? && b.Object?
  {
    Changes(Distinct(ToKeyPaths(a, []) + ToKeyPaths(b, [])), a, b)
  }

  // ----- the key paths are the paths of the leaves -----

  lemma {:induction false} KeyPathsAt(x: Json, path: Path, q: Path)
    requires WellFormed(x)
    ensures q in ToKeyPaths(x, path)
       <==> path <= q && ScalarAt(x, q[|path|..]).Some? && !(x == Leaf(Null) && q == [])
    decreases x
  {
    match x
    case Leaf(_) =>
      assert path <= q && q[|path|..] == [] ==> q == path;
      assert path == q ==> q[|path|..] == [];
    case Object(entries) =>
      EntryPathsAt(entries, path, q);
      if path < q { assert q[|path|..][1..] == q[|path| + 1..]; }
  }

  lemma {:induction false} EntryPathsAt(entries: Entries, path: Path, q: Path)
    requires WellFormedEntries(entries)
    ensures q in EntryPaths(entries, path)
       <==> path < q && Get(entries, q[|path|]).Some?
            && ScalarAt(Get(entries, q[|path|]).value, q[|path| + 1..]).Some?
    decreases entries
  {
    match entries
    case End =>
    case Entry(k, v, rest) =>
      KeyPathsAt(v, path + [k], q);
      EntryPathsAt(rest, path, q);
      assert path + [k] <= q <==> path < q && q[|path|] == k by {
        if path < q && q[|path|] == k { assert q[..|path| + 1] == path + [k]; }
        if path + [k] <= q { assert q[..|path| + 1] == path + [k]; }
      }
  }

  /** The key paths of an object are exactly the paths to its scalars. */
  lemma KeyPathsAreLeafPaths(x: Json, q: Path)
    requires WellFormed(x) && x.Object?
    ensures q in ToKeyPaths(x, []) <==> ScalarAt(x, q).Some?
  {
    KeyPathsAt(x, [], q);
    assert q[0..] == q;
  }

  predicate Reports(changes: seq<DiffEntry>, p: Path) {
    exists e | e in changes :: e.keyPath == p
  }

  /** An entry says where the documents differ and what each has there. */
  predicate Tells(e: DiffEntry, a: Json, b: Json) {
    && e.valueA == Lookup(a, e.keyPath) && e.valueB == Lookup(b, e.keyPath)
    && !Same(e.valueA, e.valueB) && e.keyPathString == Strings.Join(e.keyPath, '.')
  }

  predicate PathsDiffer(changes: seq<DiffEntry>) {
    forall i, j :: 0 <= i < j < |changes| ==> changes[i].keyPath != changes[j].keyPath
  }

  lemma {:induction false} ChangesAreTheDifferences(paths: seq<Path>, a: Json, b: Json)
    requires forall i, j :: 0 <= i < j < |paths| ==> paths[i] != paths[j]
    ensures forall e | e in Changes(paths, a, b) :: Tells(e, a, b) && e.keyPath in paths
    ensures forall p :: Reports(Changes(paths, a, b), p) <==> p in paths && !Same(Lookup(a, p), Lookup(b, p))
    ensures PathsDiffer(Changes(paths, a, b))
  {
    if paths != [] {
      var front, last := paths[..|paths| - 1], paths[|paths| - 1];
      ChangesAreTheDifferences(front, a, b);
      assert paths == front + [last];
      var before := Changes(front, a, b);
      var e := DiffEntry(last, Strings.Join(last, '.'), Lookup(a, last), Lookup(b, last));
      forall p ensures Reports(before + [e], p) <==> Reports(before, p) || p == last {
        assert e in before + [e];
      }
    }
  }

  /**
   * The difference lists each path of a scalar of either document at which the two lookups
   * differ, once, with what each document has there, and nothing else.
   */
  lemma DiffIsExact(a: Json, b: Json)
    requires WellFormed(a) && WellFormed(b) && a.Object? && b.Object?
    ensures forall e | e in Diff(a, b) :: Tells(e, a, b)
    ensures forall p :: Reports(Diff(a, b), p)
                   <==> (ScalarAt(a, p).Some? || ScalarAt(b, p).Some?) && !Same(Lookup(a, p), Lookup(b, p))
    ensures PathsDiffer(Diff(a, b))
  {
    var paths := ToKeyPaths(a, []) + ToKeyPaths(b, []);
    DistinctMembers(paths);
    ChangesAreTheDifferences(Distinct(paths), a, b);
    forall p ensures p in paths <==> ScalarAt(a, p).Some? || ScalarAt(b, p).Some? {
      KeyPathsAreLeafPaths(a, p);
      KeyPathsAreLeafPaths(b, p);
    }
  }

  ghost predicate SameScalars(a: Json, b: Json) {
    forall p :: ScalarAt(a, p) == ScalarAt(b, p)
  }

  lemma DiffEmptyIsSameScalars(a: Json, b: Json)
    requires WellFormed(a) && WellFormed(b) && a.Object? && b.Object?
    ensures Diff(a, b) == [] <==> SameScalars(a, b)
  {
    DiffIsExact(a, b);
    if Diff(a, b) == [] {
      forall p ensures ScalarAt(a, p) == ScalarAt(b, p) {
        assert !Reports(Diff(a, b), p);
      }
    } else {
      var p := Diff(a, b)[0].keyPath;
      assert Reports(Diff(a, b), p);
      assert ScalarAt(a, p) != ScalarAt(b, p);
    }
  }

  // ----- equality of documents -----

  ghost predicate KeysWithin(a: Entries, b: Entries) {
    forall k :: Get(a, k).Some? ==> Get(b, k).Some?
  }

  /** Equal but for the order of keys. */
  ghost predicate Equal(a: Json, b: Json)
    decreases a
  {
    match a
    case Leaf(_) => a == b
    case Object(entries) => b.Object? && KeysWithin(b.entries, entries) && EqualEntries(entries, b.entries)
  }

  ghost predicate EqualEntries(a: Entries, b: Entries)
    decreases a
  {
    match a
    case End => true
    case Entry(k, v, rest) => Get(b, k).Some? && Equal(v, Get(b, k).value) && EqualEntries(rest, b)
  }

  /** Somewhere inside is a scalar. */
  predicate HasLeaf(x: Json) {
    x.Leaf? || EntriesHaveLeaf(x.entries)
  }

  predicate EntriesHaveLeaf(entries: Entries) {
    match entries
    case End => false
    case Entry(_, v, rest) => HasLeaf(v) || EntriesHaveLeaf(rest)
  }

  /** The document without its nested containers that hold no scalar. */
  function Prune(x: Json): Json {
    match x
    case Leaf(_) => x
    case Object(entries) => Object(PruneEntries(entries))
  }

  function PruneEntries(entries: Entries): Entries {
    match entries
    case End => End
    case Entry(k, v, rest) => if HasLeaf(v) then Entry(k, Prune(v), PruneEntries(rest)) else PruneEntries(rest)
  }

  /** No nested container is empty. */
  predicate Full(x: Json) {
    x.Leaf? || FullEntries(x.entries)
  }

  predicate FullEntries(entries: Entries) {
    match entries
    case End => true
    case Entry(_, v, rest) => v != Object(End) && Full(v) && FullEntries(rest)
  }

  lemma {:induction false} GetPruned(entries: Entries, k: string)
    requires WellFormedEntries(entries)
    ensures Get(PruneEntries(entries), k)
         == if Get(entries, k).Some? && HasLeaf(Get(entries, k).value) then Some(Prune(Get(entries, k).value)) else None
  {
    if entries.Entry? { GetPruned(entries.rest, k); }
  }

  lemma {:induction false} LeaflessHasNoScalar(x: Json, path: Path)
    requires !HasLeaf(x)
    ensures ScalarAt(x, path) == None
    decreases |path|
  {
    if path != [] && Get(x.entries, path[0]).Some? {
      LeaflessGet(x.entries, path[0]);
      LeaflessHasNoScalar(Get(x.entries, path[0]).value, path[1..]);
    }
  }

  lemma {:induction false} LeaflessGet(entries: Entries, k: string)
    requires !EntriesHaveLeaf(entries) && Get(entries, k).Some?
    ensures !HasLeaf(Get(entries, k).value)
  {
    if entries.key != k { LeaflessGet(entries.rest, k); }
  }

  lemma {:induction false} PruneKeepsScalars(x: Json, path: Path)
    requires WellFormed(x)
    ensures ScalarAt(Prune(x), path) == ScalarAt(x, path)
    decreases |path|
  {
    if x.Object? && path != [] {
      GetPruned(x.entries, path[0]);
      var next := Get(x.entries, path[0]);
      if next.Some? {
        GetIsWellFormed(x.entries, path[0]);
        if HasLeaf(next.value) {
          PruneKeepsScalars(next.value, path[1..]);
        } else {
          LeaflessHasNoScalar(next.value, path[1..]);
        }
      }
    }
  }

  lemma {:induction false} EqualGet(a: Entries, b: Entries, k: string)
    requires EqualEntries(a, b) && Get(a, k).Some?
    ensures Get(b, k).Some? && Equal(Get(a, k).value, Get(b, k).value)
  {
    if a.key != k { EqualGet(a.rest, b, k); }
  }

  lemma {:induction false} EqualHasSameScalars(a: Json, b: Json, path: Path)
    requires Equal(a, b)
    ensures ScalarAt(a, path) == ScalarAt(b, path)
    decreases |path|
  {
    if a.Object? && path != [] {
      var k := path[0];
      if Get(a.entries, k).Some? {
        EqualGet(a.entries, b.entries, k);
        EqualHasSameScalars(Get(a.entries, k).value, Get(b.entries, k).value, path[1..]);
      }
    }
  }

  /** A path to some scalar. */
  lemma {:induction false} LeafIsSomewhere(x: Json) returns (path: Path)
    requires WellFormed(x) && HasLeaf(x)
    ensures ScalarAt(x, path).Some?
    decreases x
  {
    if x.Leaf? {
      path := [];
    } else {
      path := LeafIsInEntries(x.entries);
    }
  }

  lemma {:induction false} LeafIsInEntries(entries: Entries) returns (path: Path)
    requires WellFormedEntries(entries) && EntriesHaveLeaf(entries)
    ensures path != [] && Get(entries, path[0]).Some? && ScalarAt(Get(entries, path[0]).value, path[1..]).Some?
    decreases entries
  {
    if HasLeaf(entries.value) {
      var tail := LeafIsSomewhere(entries.value);
      path := [entries.key] + tail;
      assert path[1..] == tail;
    } else {
      path := LeafIsInEntries(entries.rest);
    }
  }

  /** Every nested container holds a scalar. */
  predicate Leafy(x: Json) {
    x.Leaf? || LeafyEntries(x.entries)
  }

  predicate LeafyEntries(entries: Entries) {
    match entries
    case End => true
    case Entry(_, v, rest) => HasLeaf(v) && Leafy(v) && LeafyEntries(rest)
  }

  lemma ScalarUnder(entries: Entries, k: string, path: Path)
    ensures ScalarAt(Object(entries), [k] + path)
         == if Get(entries, k).Some? then ScalarAt(Get(entries, k).value, path) else None
  {
    assert ([k] + path)[1..] == path;
  }

  /** A document all of whose containers hold scalars is determined by them. */
  lemma {:induction false} ScalarsDetermine(a: Json, b: Json)
    requires WellFormed(a) && WellFormed(b) && Leafy(a) && Leafy(b) && SameScalars(a, b)
    ensures a.Object? && b.Object? ==> Equal(a, b)
    ensures HasLeaf(a) ==> Equal(a, b)
    decreases a
  {
    assert ScalarAt(a, []) == ScalarAt(b, []);
    if a.Object? && b.Object? {
      KeysHaveScalars(a, b);
      KeysHaveScalars(b, a);
      EntriesDetermine(a.entries, a, b);
    }
  }

  lemma KeysHaveScalars(a: Json, b: Json)
    requires WellFormed(a) && Leafy(a) && a.Object? && b.Object? && SameScalars(a, b)
    ensures KeysWithin(a.entries, b.entries)
  {
    forall k | Get(a.entries, k).Some? ensures Get(b.entries, k).Some? {
      GetIsWellFormed(a.entries, k);
      GetIsLeafy(a.entries, k);
      var path := LeafIsSomewhere(Get(a.entries, k).value);
      ScalarUnder(a.entries, k, path);
      ScalarUnder(b.entries, k, path);
      assert ScalarAt(a, [k] + path) == ScalarAt(b, [k] + path);
    }
  }

  lemma {:induction false} GetIsLeafy(entries: Entries, k: string)
    requires LeafyEntries(entries) && Get(entries, k).Some?
    ensures HasLeaf(Get(entries, k).value) && Leafy(Get(entries, k).value)
  {
    if entries.key != k { GetIsLeafy(entries.rest, k); }
  }

  ghost predicate EntriesOf(entries: Entries, x: Json) {
    x.Object? && forall k :: Get(entries, k).Some? ==> Get(x.entries, k) == Get(entries, k)
  }

  lemma {:induction false} EntriesDetermine(entries: Entries, a: Json, b: Json)
    requires WellFormedEntries(entries) && LeafyEntries(entries) && EntriesOf(entries, a)
    requires WellFormed(b) && Leafy(b) && b.Object? && SameScalars(a, b) && KeysWithin(entries, b.entries)
    ensures EqualEntries(entries, b.entries)
    decreases entries
  {
    if entries.Entry? {
      var k, v, w := entries.key, entries.value, Get(b.entries, entries.key);
      assert Get(entries, k) == Some(v);
      GetIsWellFormed(b.entries, k);
      GetIsLeafy(b.entries, k);
      forall path ensures ScalarAt(v, path) == ScalarAt(w.value, path) {
        ScalarUnder(a.entries, k, path);
        ScalarUnder(b.entries, k, path);
        assert ScalarAt(a, [k] + path) == ScalarAt(b, [k] + path);
      }
      ScalarsDetermine(v, w.value);
      forall l | Get(entries.rest, l).Some? ensures Get(entries, l) == Get(entries.rest, l) {
      }
      EntriesDetermine(entries.rest, a, b);
    }
  }

  lemma {:induction false} PruneIsLeafy(x: Json)
    requires WellFormed(x)
    ensures Leafy(Prune(x)) && WellFormed(Prune(x)) && (HasLeaf(x) ==> HasLeaf(Prune(x)))
    decreases x
  {
    if x.Object? { PruneEntriesIsLeafy(x.entries); }
  }

  lemma {:induction false} PruneEntriesIsLeafy(entries: Entries)
    requires WellFormedEntries(entries)
    ensures LeafyEntries(PruneEntries(entries)) && WellFormedEntries(PruneEntries(entries))
    ensures EntriesHaveLeaf(entries) ==> EntriesHaveLeaf(PruneEntries(entries))
    decreases entries
  {
    if entries.Entry? {
      PruneIsLeafy(entries.value);
      PruneEntriesIsLeafy(entries.rest);
      GetPruned(entries.rest, entries.key);
    }
  }

  /** The difference is empty exactly when the documents are equal without their empty containers. */
  lemma DiffEmptyExactly(a: Json, b: Json)
    requires WellFormed(a) && WellFormed(b) && a.Object? && b.Object?
    ensures Diff(a, b) == [] <==> Equal(Prune(a), Prune(b))
  {
    DiffEmptyIsSameScalars(a, b);
    PruneIsLeafy(a);
    PruneIsLeafy(b);
    PruneKeepsAllScalars(a);
    PruneKeepsAllScalars(b);
    if SameScalars(a, b) {
      SameScalarsCompose(Prune(a), a, b, Prune(b));
      ScalarsDetermine(Prune(a), Prune(b));
    }
    if Equal(Prune(a), Prune(b)) {
      forall p ensures ScalarAt(Prune(a), p) == ScalarAt(Prune(b), p) {
        EqualHasSameScalars(Prune(a), Prune(b), p);
      }
      SameScalarsCompose(a, Prune(a), Prune(b), b);
    }
  }

  lemma PruneKeepsAllScalars(x: Json)
    requires WellFormed(x)
    ensures SameScalars(x, Prune(x)) && SameScalars(Prune(x), x)
  {
    forall p ensures ScalarAt(Prune(x), p) == ScalarAt(x, p) {
      PruneKeepsScalars(x, p);
    }
  }

  lemma SameScalarsCompose(a: Json, b: Json, c: Json, d: Json)
    requires SameScalars(a, b) && SameScalars(b, c) && SameScalars(c, d)
    ensures SameScalars(a, d)
  {
    forall p ensures ScalarAt(a, p) == ScalarAt(d, p) {
      assert ScalarAt(a, p) == ScalarAt(b, p) && ScalarAt(b, p) == ScalarAt(c, p);
    }
  }

  lemma {:induction false} FullIsPruned(x: Json)
    requires Full(x)
    ensures Prune(x) == x && (x != Object(End) ==> HasLeaf(x))
    decreases x
  {
    if x.Object? { FullEntriesArePruned(x.entries); }
  }

  lemma {:induction false} FullEntriesArePruned(entries: Entries)
    requires FullEntries(entries)
    ensures PruneEntries(entries) == entries && (entries != End ==> EntriesHaveLeaf(entries))
    decreases entries
  {
    if entries.Entry? {
      FullIsPruned(entries.value);
      FullEntriesArePruned(entries.rest);
    }
  }

  /** Without empty nested containers the difference is empty exactly for equal documents. */
  lemma DiffDecidesEquality(a: Json, b: Json)
    requires WellFormed(a) && WellFormed(b) && a.Object? && b.Object? && Full(a) && Full(b)
    ensures Diff(a, b) == [] <==> Equal(a, b)
  {
    DiffEmptyExactly(a, b);
    FullIsPruned(a);
    FullIsPruned(b);
  }

  /** An empty nested container is not seen. */
  lemma EmptyContainerIsMissed()
    ensures var a := Object(Entry("x", Object(End), End));
            WellFormed(a) && Diff(a, Object(End)) == [] && !Equal(a, Object(End))
  {
    var a := Object(Entry("x", Object(End), End));
    DiffEmptyExactly(a, Object(End));
    assert Get(a.entries, "x").Some? && Get(End, "x") == None;
  }
}