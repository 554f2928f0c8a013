/** Owner keys as directory names: percent-encoding with a cut and a digest for long names. */
module OwnerDirs {
  import opened Wrappers

  datatype DecodeError = MalformedEscape

  type Byte = b: int | 0 <= b < 256
  type Key = seq<Byte>

  /** A character of a directory name. */
  type Ascii = c: char | 0 as char <= c < 128 as char
  type Name = seq<Ascii>

  const MAX_OWNER_DIR_BYTES := 200
  const TRUNCATED_PREFIX_BYTES := 180

  predicate SafeByte(b: Byte) {
    || 'a' as int <= b <= 'z' as int || '0' as int <= b <= '9' as int
    || b == '_' as int || b == '~' as int || b == '-' as int
  }

  predicate SafeChar(c: Ascii) {
    SafeByte(c as int)
  }

  predicate IsSafe(s: Name) {
    forall i :: 0 <= i < |s| ==> SafeChar(s[i])
  }

  /** An uppercase hexadecimal digit. */
  function HexDigit(d: int): Ascii
    requires 0 <= d < 16
  {
    if d < 10 then ('0' as int + d) as char else ('A' as int + d - 10) as char
  }

  /** The value of a hexadecimal digit in either case. */
  function HexValue(c: Ascii): Result<int, DecodeError> {
    if '0' <= c <= '9' then Ok(c as int - '0' as int)
    else if 'a' <= c <= 'f' then Ok(c as int - 'a' as int + 10)
    else if 'A' <= c <= 'F' then Ok(c as int - 'A' as int + 10)
    else Err(MalformedEscape)
  }

  function EncodeByte(b: Byte): Name {
    if SafeByte(b) then [b as char] else ['%', HexDigit(b / 16), HexDigit(b % 16)]
  }

  function Percent(key: Key): Name {
    if key == [] then [] else EncodeByte(key[0]) + Percent(key[1..])
  }

  /** The digest put on names that are cut. */
  predicate IsDigest(s: Name) {
    |s| == 16 && forall i :: 0 <= i < 16 ==> '0' <= s[i] <= '9' || 'a' <= s[i] <= 'f'
  }

  function EncodeOwnerDir(key: Key, digest: Key -> Name): Name {
    var encoded := Percent(key);
    if |encoded| <= MAX_OWNER_DIR_BYTES then encoded
    else encoded[..TRUNCATED_PREFIX_BYTES] + ['~', 'h'] + digest(key)
  }

  /** Percent-decoding; a percent sign without two digits after it is an error. */
  function DecodeOwnerDir(dir: Name): Result<Key, DecodeError> {
    if dir == [] then Ok([])
    else if dir[0] != '%' then
      var rest := DecodeOwnerDir(dir[1..]);
      if rest.Ok? then Ok([dir[0] as int] + rest.value) else Err(MalformedEscape)
    else if |dir| < 3 || HexValue(dir[1]).Err? || HexValue(dir[2]).Err? then Err(MalformedEscape)
    else
      var rest := DecodeOwnerDir(dir[3..]);
      if rest.Ok? then Ok([HexByte(dir[1], dir[2])] + rest.value) else Err(MalformedEscape)
  }

  function HexByte(high: Ascii, low: Ascii): Byte
    requires HexValue(high).Ok? && HexValue(low).Ok?
  {
    HexValue(high).value * 16 + HexValue(low).value
  }

  /** Lower case, as a file system that ignores case would compare names. */
  function FoldChar(c: Ascii): Ascii {
    if 'A' <= c <= 'Z' then (c as int + 32) as char else c
  }

  function Fold(s: Name): (r: Name)
    ensures |r| == |s|
  {
    if s == [] then [] else [FoldChar(s[0])] + Fold(s[1..])
  }

  predicate Uncut(key: Key) {
    |Percent(key)| <= MAX_OWNER_DIR_BYTES
  }

  lemma DigitsOfByte(b: Byte)
    ensures HexValue(HexDigit(b / 16)).Ok? && HexValue(HexDigit(b % 16)).Ok?
    ensures HexByte(HexDigit(b / 16), HexDigit(b % 16)) == b
    ensures HexByte(FoldChar(HexDigit(b / 16)), FoldChar(HexDigit(b % 16))) == b
  {
    assert 0 <= b / 16 < 16 && b == b / 16 * 16 + b % 16;
  }

  lemma FoldAt(s: Name, i: nat)
    requires i < |s|
    ensures Fold(s)[i] == FoldChar(s[i])
  {
    if i > 0 { FoldAt(s[1..], i - 1); }
  }

  lemma FoldConcat(a: Name, b: Name)
    ensures Fold(a + b) == Fold(a) + Fold(b)
  {
    forall i | 0 <= i < |a + b| ensures Fold(a + b)[i] == (Fold(a) + Fold(b))[i] {
      FoldAt(a + b, i);
      if i < |a| { FoldAt(a, i); } else { FoldAt(b, i - |a|); }
    }
  }

  lemma FoldOfByte(b: Byte)
    ensures Fold(EncodeByte(b))
         == if SafeByte(b) then [b as char] else ['%', FoldChar(HexDigit(b / 16)), FoldChar(HexDigit(b % 16))]
  {
    var e := EncodeByte(b);
    FoldAt(e, 0);
    if !SafeByte(b) {
      FoldAt(e, 1);
      FoldAt(e, 2);
    }
  }

  lemma DecodeStep(first: Name, b: Byte, rest: Name)
    requires first == EncodeByte(b) || first == Fold(EncodeByte(b))
    ensures DecodeOwnerDir(first + rest)
         == if DecodeOwnerDir(rest).Ok? then Ok([b] + DecodeOwnerDir(rest).value) else Err(MalformedEscape)
  {
    DigitsOfByte(b);
    FoldOfByte(b);
    assert (first + rest)[|first|..] == rest;
  }

  /** Decoding gives the key back, whatever case the name is read in. */
  lemma {:induction false} PercentDecodes(key: Key)
    ensures DecodeOwnerDir(Percent(key)) == Ok(key)
    ensures DecodeOwnerDir(Fold(Percent(key))) == Ok(key)
  {
    if key != [] {
      PercentDecodes(key[1..]);
      var e, rest := EncodeByte(key[0]), Percent(key[1..]);
      FoldConcat(e, rest);
      DecodeStep(e, key[0], rest);
      DecodeStep(Fold(e), key[0], Fold(rest));
      assert [key[0]] + key[1..] == key;
    }
  }

  lemma {:induction false} SafeDecodes(s: Name)
    requires IsSafe(s)
    ensures DecodeOwnerDir(s).Ok? && Percent(DecodeOwnerDir(s).value) == s
  {
    if s != [] {
      SafeDecodes(s[1..]);
    }
  }

  /** A cut inside an escape does not decode, and a cut elsewhere decodes to what encodes to it. */
  lemma {:induction false} CutDecodes(key: Key, n: nat, rest: Name)
    requires n <= |Percent(key)| && IsSafe(rest) && rest != [] && HexValue(rest[0]).Err?
    ensures var name := Percent(key)[..n] + rest;
            DecodeOwnerDir(name).Ok? ==> Percent(DecodeOwnerDir(name).value) == name
    decreases |key|
  {
    var name := Percent(key)[..n] + rest;
    if n == 0 {
      assert name == rest;
      SafeDecodes(rest);
    } else {
      var e := EncodeByte(key[0]);
      if n >= |e| {
        var tail := Percent(key[1..])[..n - |e|] + rest;
        assert name == e + tail;
        CutDecodes(key[1..], n - |e|, rest);
        DecodeStep(e, key[0], tail);
      } else {
        assert name[0] == '%' && name[n] == rest[0];
      }
    }
  }

  lemma DigestIsSafe(digest: Name)
    requires IsDigest(digest)
    ensures IsSafe(['~', 'h'] + digest)
  {
  }

  /** Lowercase letters, digits, underscore, tilde and hyphen stay; any other byte becomes an escape of uppercase digits. */
  lemma BytesAreKeptOrEscaped(b: Byte)
    ensures var c := b as char; var kept := c in "abcdefghijklmnopqrstuvwxyz" || c in "0123456789" || c in "_~-";
            if kept then EncodeByte(b) == [c]
            else |EncodeByte(b)| == 3 && EncodeByte(b)[0] == '%'
                 && EncodeByte(b)[1] in "0123456789ABCDEF" && EncodeByte(b)[2] in "0123456789ABCDEF"
  {
    var c := b as char;
    IsLetter(c);
    IsDigit(c);
    assert c in "_~-" <==> c == '_' || c == '~' || c == '-';
    DigitIsUppercase(b / 16);
    DigitIsUppercase(b % 16);
  }

  lemma IsLetter(c: char)
    ensures c in "abcdefghijklmnopqrstuvwxyz" <==> 'a' <= c <= 'z'
  {
    var letters := "abcdefghijklmnopqrstuvwxyz";
    if 'a' <= c <= 'z' { assert letters[c as int - 'a' as int] == c; }
  }

  lemma IsDigit(c: char)
    ensures c in "0123456789" <==> '0' <= c <= '9'
  {
    var digits := "0123456789";
    if '0' <= c <= '9' { assert digits[c as int - '0' as int] == c; }
  }

  lemma DigitIsUppercase(d: int)
    requires 0 <= d < 16
    ensures HexDigit(d) in "0123456789ABCDEF"
  {
    assert "0123456789ABCDEF"[d] == HexDigit(d);
  }

  /**
   * Every name fits a file system's limit on a name's length. One of more than 200 bytes is cut to its
   * first 180, with `~h` and the digest after them.
   */
  lemma NamesFit(key: Key, digest: Key -> Name)
    requires IsDigest(digest(key))
    ensures var name := EncodeOwnerDir(key, digest);
            && |name| <= 200
            && (if |Percent(key)| <= 200 then name == Percent(key)
                else |name| == 198 && name[..180] == Percent(key)[..180] && name[180..182] == "~h" && name[182..] == digest(key))
  {
    var name := EncodeOwnerDir(key, digest);
    if |Percent(key)| > 200 {
      assert name == Percent(key)[..180] + (['~', 'h'] + digest(key));
    }
  }

  /** A name that decodes at all is the name of what it decodes to. */
  lemma NamesNameWhatTheyDecodeTo(key: Key, digest: Key -> Name)
    requires IsDigest(digest(key))
    ensures var name := EncodeOwnerDir(key, digest);
            DecodeOwnerDir(name).Ok? ==> EncodeOwnerDir(DecodeOwnerDir(name).value, digest) == name
  {
    if Uncut(key) {
      PercentDecodes(key);
    } else {
      CutNamesDecode(key, digest);
    }
  }

  lemma CutNamesDecode(key: Key, digest: Key -> Name)
    requires IsDigest(digest(key)) && !Uncut(key)
    ensures var name := EncodeOwnerDir(key, digest);
            |name| == 198 && (DecodeOwnerDir(name).Ok? ==> Percent(DecodeOwnerDir(name).value) == name)
  {
    var rest := ['~', 'h'] + digest(key);
    DigestIsSafe(digest(key));
    CutDecodes(key, TRUNCATED_PREFIX_BYTES, rest);
    assert EncodeOwnerDir(key, digest) == Percent(key)[..TRUNCATED_PREFIX_BYTES] + rest;
  }

  /** The encoding is undone exactly for the keys that are not cut. */
  lemma RoundTripExactly(key: Key, digest: Key -> Name)
    requires IsDigest(digest(key))
    ensures DecodeOwnerDir(EncodeOwnerDir(key, digest)) == Ok(key) <==> Uncut(key)
  {
    if Uncut(key) {
      PercentDecodes(key);
    } else {
      CutNamesDecode(key, digest);
    }
  }

  /** Keys that are not cut have different names, even where case is ignored. */
  lemma UncutNamesAreDistinct(a: Key, b: Key, digest: Key -> Name)
    requires Uncut(a) && Uncut(b)
    requires Fold(EncodeOwnerDir(a, digest)) == Fold(EncodeOwnerDir(b, digest))
    ensures a == b
  {
    PercentDecodes(a);
    PercentDecodes(b);
  }
}
