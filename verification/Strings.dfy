/** Splitting text at a delimiter, and joining it again. */
module Strings {

  function Split(s: string, d: char): (parts: seq<string>)
    ensures parts != []
  {
    if s == "" then [""]
    else
      var rest := Split(s[1..], d);
      if s[0] == d then [""] + rest else [[s[0]] + rest[0]] + rest[1..]
  }

  function Join(parts: seq<string>, d: char): string {
    if parts == [] then ""
    else if |parts| == 1 then parts[0]
    else parts[0] + [d] + Join(parts[1..], d)
  }

  predicate Free(parts: seq<string>, d: char) {
    forall part | part in parts :: d !in part
  }

  lemma JoinCons(c: char, parts: seq<string>, d: char)
    requires parts != []
    ensures Join([[c] + parts[0]] + parts[1..], d) == [c] + Join(parts, d)
    ensures Join([""] + parts, d) == [d] + Join(parts, d)
  {
    assert ([[c] + parts[0]] + parts[1..])[1..] == parts[1..];
    assert ([""] + parts)[1..] == parts;
  }

  lemma {:induction false} SplitsAreJoined(s: string, d: char)
    ensures Join(Split(s, d), d) == s && Free(Split(s, d), d)
  {
    if s != "" {
      SplitsAreJoined(s[1..], d);
      JoinCons(s[0], Split(s[1..], d), d);
    }
  }

  lemma SplitCons(part: string, rest: string, d: char)
    requires part != "" && part[0] != d
    ensures Split(part + rest, d) == [[part[0]] + Split(part[1..] + rest, d)[0]] + Split(part[1..] + rest, d)[1..]
  {
    assert (part + rest)[1..] == part[1..] + rest;
  }

  /** Text without the delimiter goes to the first segment. */
  lemma {:induction false} SplitPrefix(part: string, rest: string, d: char)
    requires d !in part
    ensures Split(part + rest, d) == [part + Split(rest, d)[0]] + Split(rest, d)[1..]
  {
    if part == "" {
      assert part + rest == rest && part + Split(rest, d)[0] == Split(rest, d)[0];
    } else {
      SplitPrefix(part[1..], rest, d);
      SplitCons(part, rest, d);
      assert [part[0]] + (part[1..] + Split(rest, d)[0]) == part + Split(rest, d)[0];
    }
  }

  lemma {:induction false} JoinsAreSplit(parts: seq<string>, d: char)
    requires parts != [] && Free(parts, d)
    ensures Split(Join(parts, d), d) == parts
  {
    if |parts| == 1 {
      SplitPrefix(parts[0], "", d);
      assert parts[0] + "" == parts[0];
    } else {
      var rest := [d] + Join(parts[1..], d);
      JoinsAreSplit(parts[1..], d);
      assert rest[1..] == Join(parts[1..], d);
      SplitPrefix(parts[0], rest, d);
      assert parts[0] + rest == Join(parts, d);
      assert Split(rest, d) == [""] + parts[1..] && parts[0] + "" == parts[0];
    }
  }
}
