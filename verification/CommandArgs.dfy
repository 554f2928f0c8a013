/** Splitting a typed command into arguments, with quotes and escapes. */
module CommandArgs {

  // ----- the language of commands -----

  /** The white space of JavaScript, line ends included. */
  predicate IsSpace(c: char) {
    || '\t' <= c <= '\r' || c == ' ' || c == '\U{00A0}' || c == '\U{1680}' || '\U{2000}' <= c <= '\U{200A}'
    || c == '\U{2028}' || c == '\U{2029}' || c == '\U{202F}' || c == '\U{205F}' || c == '\U{3000}' || c == '\U{FEFF}'
  }

  /** The code points that separate words. */
  lemma WhiteSpace(c: char)
    ensures IsSpace(c) <==>
              || c as int in {9, 10, 11, 12, 13, 32, 160, 5760, 8232, 8233, 8239, 8287, 12288, 65279}
              || c as int in {8192, 8193, 8194, 8195, 8196, 8197, 8198, 8199, 8200, 8201, 8202}
  {
  }

  predicate IsQuote(c: char) { c == '"' || c == '\'' }

  /** An argument, and the text after it. */
  datatype Scan = Scan(arg: string, rest: string)

  function Prepend(c: char, scan: Scan): Scan {
    scan.(arg := [c] + scan.arg)
  }

  /** Up to the closing quote, or to the end; a backslash takes the character after it as it is. */
  function Quoted(s: string, quote: char): (r: Scan)
    ensures |r.rest| <= |s|
  {
    if s == "" then Scan("", "")
    else if s[0] == quote then Scan("", s[1..])
    else if s[0] == '\\' && |s| > 1 then Prepend(s[1], Quoted(s[2..], quote))
    else Prepend(s[0], Quoted(s[1..], quote))
  }

  /** Up to white space or a quote. */
  function Bare(s: string): (r: Scan)
    ensures |r.rest| <= |s|
    ensures s != "" && !IsSpace(s[0]) && !IsQuote(s[0]) ==> |r.rest| < |s|
  {
    if s == "" || IsSpace(s[0]) || IsQuote(s[0]) then Scan("", s)
    else Prepend(s[0], Bare(s[1..]))
  }

  function SkipSpace(s: string): (r: string)
    ensures |r| <= |s| && (r != "" ==> !IsSpace(r[0]))
  {
    if s != "" && IsSpace(s[0]) then SkipSpace(s[1..]) else s
  }

  function SkipSpaceBack(s: string): string {
    if s != "" && IsSpace(s[|s| - 1]) then SkipSpaceBack(s[..|s| - 1]) else s
  }

  function Trim(s: string): string {
    SkipSpaceBack(SkipSpace(s))
  }

  /** The argument at the front of text that does not start with white space. */
  function Argument(s: string): (r: Scan)
    requires s != "" && !IsSpace(s[0])
    ensures |r.rest| < |s|
  {
    if IsQuote(s[0]) then Quoted(s[1..], s[0]) else Bare(s)
  }

  function Arguments(s: string): seq<string>
    decreases |s|
  {
    var text := SkipSpace(s);
    if text == "" then []
    else [Argument(text).arg] + Arguments(Argument(text).rest)
  }

  // ----- the index loops -----

  /** The text from an index on, which may be past the end. */
  function From(s: string, i: nat): string {
    if i <= |s| then s[i..] else ""
  }

  /** What a loop that read `arg` so far will have read at the end. */
  function Extend(arg: string, scan: Scan): Scan {
    scan.(arg := arg + scan.arg)
  }

  lemma ExtendPrepend(arg: string, c: char, scan: Scan)
    ensures Extend(arg, Prepend(c, scan)) == Extend(arg + [c], scan)
  {
    assert arg + ([c] + scan.arg) == (arg + [c]) + scan.arg;
  }

  method ReadQuoted(input: string, start: nat, quote: char) returns (arg: string, i: nat)
    requires start <= |input|
    ensures start <= i
    ensures Scan(arg, From(input, i)) == Quoted(input[start..], quote)
  {
    arg, i := "", start;
    while i < |input| && input[i] != quote
      invariant start <= i <= |input|
      invariant Quoted(input[start..], quote) == Extend(arg, Quoted(input[i..], quote))
    {
      ghost var was, from := arg, i;
      if input[i] == '\\' && i + 1 < |input| {
        i := i + 1;
      }
      arg := arg + [input[i]];
      i := i + 1;
      ExtendPrepend(was, input[i - 1], Quoted(input[i..], quote));
      assert input[from..][i - from..] == input[i..];
    }
    i := i + 1;
  }

  method ReadBare(input: string, start: nat) returns (arg: string, i: nat)
    requires start <= |input|
    ensures start <= i <= |input| && Scan(arg, input[i..]) == Bare(input[start..])
  {
    arg, i := "", start;
    while i < |input| && !IsSpace(input[i]) && !IsQuote(input[i])
      invariant start <= i <= |input|
      invariant Bare(input[start..]) == Extend(arg, Bare(input[i..]))
    {
      ghost var was := arg;
      arg := arg + [input[i]];
      i := i + 1;
      ExtendPrepend(was, input[i - 1], Bare(input[i..]));
      assert input[i - 1..][1..] == input[i..];
    }
  }

  method PassSpace(input: string, start: nat) returns (i: nat)
    requires start <= |input|
    ensures start <= i <= |input| && input[i..] == SkipSpace(input[start..])
  {
    i := start;
    while i < |input| && IsSpace(input[i])
      invariant start <= i <= |input| && SkipSpace(input[start..]) == SkipSpace(input[i..])
    {
      i := i + 1;
    }
  }

  /** The argument at `start`, and where the text after it begins; past the end when a quote is left open. */
  method ReadArgument(input: string, start: nat) returns (arg: string, i: nat)
    requires start < |input| && !IsSpace(input[start])
    ensures start < i && Scan(arg, From(input, i)) == Argument(input[start..])
  {
    if IsQuote(input[start]) {
      assert input[start..][1..] == input[start + 1..];
      arg, i := ReadQuoted(input, start + 1, input[start]);
    } else {
      arg, i := ReadBare(input, start);
      assert |input[i..]| < |input[start..]|;
    }
  }

  lemma OneMore(args: seq<string>, text: string)
    requires text != "" && !IsSpace(text[0])
    ensures args + Arguments(text) == args + [Argument(text).arg] + Arguments(Argument(text).rest)
  {
  }

  lemma SpaceDoesNotMatter(s: string)
    ensures Arguments(SkipSpace(s)) == Arguments(s)
  {
    assert SkipSpace(SkipSpace(s)) == SkipSpace(s);
  }

  method ParseCommandArgs(command: string) returns (args: seq<string>)
    ensures args == Arguments(Trim(command))
  {
    args := [];
    var input := Trim(command);
    var i := 0;
    while i < |input|
      invariant Arguments(input) == args + Arguments(From(input, i))
      decreases |input| - i
    {
      SpaceDoesNotMatter(input[i..]);
      i := PassSpace(input, i);
      if i >= |input| { break; }
      var arg;
      ghost var was, text := args, input[i..];
      arg, i := ReadArgument(input, i);
      args := args + [arg];
      OneMore(was, text);
    }
  }

  // ----- writing arguments so that they are read back -----

  datatype Style = AsIs | InQuotes(quote: char)

  function Escaped(arg: string, quote: char): string {
    if arg == "" then ""
    else (if arg[0] == quote || arg[0] == '\\' then ['\\', arg[0]] else [arg[0]]) + Escaped(arg[1..], quote)
  }

  function Written(arg: string, style: Style): string {
    match style
    case AsIs => arg
    case InQuotes(quote) => [quote] + Escaped(arg, quote) + [quote]
  }

  predicate IsWord(s: string) {
    forall i :: 0 <= i < |s| ==> !IsSpace(s[i]) && !IsQuote(s[i])
  }

  /** Any argument may be quoted; one without spaces and quotes need not be, unless it is empty. */
  predicate CanWrite(arg: string, style: Style) {
    match style
    case AsIs => arg != "" && IsWord(arg)
    case InQuotes(quote) => IsQuote(quote)
  }

  /** Arguments written one after the other with a space between them. */
  function Command(args: seq<string>, styles: seq<Style>): string
    requires |args| == |styles|
  {
    if args == [] then ""
    else if |args| == 1 then Written(args[0], styles[0])
    else Written(args[0], styles[0]) + " " + Command(args[1..], styles[1..])
  }

  predicate CanWriteAll(args: seq<string>, styles: seq<Style>) {
    |args| == |styles| && forall i :: 0 <= i < |args| ==> CanWrite(args[i], styles[i])
  }

  lemma {:induction false} EscapedIsRead(arg: string, quote: char, rest: string)
    requires quote != '\\'
    ensures Quoted(Escaped(arg, quote) + [quote] + rest, quote) == Scan(arg, rest)
  {
    var s := Escaped(arg, quote) + [quote] + rest;
    if arg == "" {
      assert s[1..] == rest;
    } else {
      EscapedIsRead(arg[1..], quote, rest);
      var tail := Escaped(arg[1..], quote) + [quote] + rest;
      if arg[0] == quote || arg[0] == '\\' {
        assert s == ['\\', arg[0]] + tail;
      } else {
        assert s == [arg[0]] + tail;
      }
    }
  }

  /** A quote that is left open takes the rest of the text, and a backslash at the very end stands for itself. */
  lemma {:induction false} OpenQuoteTakesTheRest(s: string, quote: char)
    requires quote !in s && '\\' !in s && quote != '\\'
    ensures Quoted(s, quote) == Scan(s, "") && Quoted(s + "\\", quote) == Scan(s + "\\", "")
  {
    if s == "" {
      assert ("\\")[1..] == "";
    } else {
      assert s[0] in s && forall c :: c in s[1..] ==> c in s;
      OpenQuoteTakesTheRest(s[1..], quote);
      assert (s + "\\")[1..] == s[1..] + "\\";
    }
  }

  /** Text that ends a word: nothing, or white space, or a quote. */
  predicate EndsWord(rest: string) {
    rest == "" || IsSpace(rest[0]) || IsQuote(rest[0])
  }

  lemma {:induction false} WordIsRead(arg: string, rest: string)
    requires IsWord(arg) && EndsWord(rest)
    ensures Bare(arg + rest) == Scan(arg, rest)
  {
    if arg == "" {
      assert arg + rest == rest;
    } else {
      WordIsRead(arg[1..], rest);
      assert (arg + rest)[1..] == arg[1..] + rest;
    }
  }

  lemma {:induction false} QuotedIsRead(arg: string, quote: char, rest: string)
    requires IsQuote(quote)
    ensures var s := [quote] + Escaped(arg, quote) + [quote] + rest;
            !IsSpace(quote) && s[0] == quote && Argument(s) == Scan(arg, rest)
  {
    var s := [quote] + Escaped(arg, quote) + [quote] + rest;
    EscapedIsRead(arg, quote, rest);
    assert s[1..] == Escaped(arg, quote) + [quote] + rest;
  }

  lemma WrittenIsRead(arg: string, style: Style, rest: string)
    requires CanWrite(arg, style) && EndsWord(rest)
    ensures var s := Written(arg, style) + rest;
            s != "" && !IsSpace(s[0]) && Argument(s) == Scan(arg, rest)
  {
    match style
    case AsIs => WordIsRead(arg, rest);
    case InQuotes(quote) => QuotedIsRead(arg, quote, rest);
  }

  lemma FirstIsRead(arg: string, style: Style, rest: string)
    requires CanWrite(arg, style) && EndsWord(rest)
    ensures Arguments(Written(arg, style) + rest) == [arg] + Arguments(rest)
  {
    WrittenIsRead(arg, style, rest);
  }

  lemma SpaceIsPassed(s: string)
    ensures Arguments(" " + s) == Arguments(s)
  {
    assert (" " + s)[1..] == s;
  }

  lemma {:induction false} CommandIsRead(args: seq<string>, styles: seq<Style>)
    requires CanWriteAll(args, styles)
    ensures Arguments(Command(args, styles)) == args
    decreases |args|
  {
    if |args| == 1 {
      FirstIsRead(args[0], styles[0], "");
      assert Written(args[0], styles[0]) + "" == Written(args[0], styles[0]);
    } else if args != [] {
      var rest := Command(args[1..], styles[1..]);
      FirstIsRead(args[0], styles[0], " " + rest);
      assert Written(args[0], styles[0]) + (" " + rest) == Command(args, styles);
      SpaceIsPassed(rest);
      CommandIsRead(args[1..], styles[1..]);
    }
  }

  /** Nothing to trim at either end. */
  predicate Trimmed(s: string) {
    s != "" ==> !IsSpace(s[0]) && !IsSpace(s[|s| - 1])
  }

  lemma {:induction false} CommandIsTrimmed(args: seq<string>, styles: seq<Style>)
    requires CanWriteAll(args, styles)
    ensures Trimmed(Command(args, styles)) && (args != [] ==> Command(args, styles) != "")
    decreases |args|
  {
    if args != [] {
      assert Trimmed(Written(args[0], styles[0])) && Written(args[0], styles[0]) != "";
      CommandIsTrimmed(args[1..], styles[1..]);
    }
  }

  lemma TrimKeeps(s: string)
    requires Trimmed(s)
    ensures Trim(s) == s
  {
  }

  /** A command written from arguments, in any mix of quoting, is parsed into these arguments. */
  lemma CommandsRoundTrip(args: seq<string>, styles: seq<Style>)
    requires CanWriteAll(args, styles)
    ensures Arguments(Trim(Command(args, styles))) == args
  {
    CommandIsRead(args, styles);
    CommandIsTrimmed(args, styles);
    TrimKeeps(Command(args, styles));
  }
}
