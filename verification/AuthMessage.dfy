/** The signed credential a metrics collector presents, and its verification. */
module AuthMessages {
  import opened Wrappers
  import opened Strings

  /** The two routes; a claim for any other is not signable. */
  datatype Domain = Register | Ping | Unknown(name: string)

  /** A JavaScript number: an integer, or anything else. */
  datatype Number = Whole(n: int) | NotWhole

  /** What a request claims; a field that is not a string is `None`. */
  datatype Fields = Fields(nodeId: Option<string>, metricsServerUri: Option<string>, timestamp: Number)

  datatype Reason = MissingKey | MissingCredential | MalformedCredential | UnsupportedVersion
                  | InvalidFields | StaleTimestamp(skewMs: int) | InvalidSignature

  datatype Verdict = Accepted | Rejected(reason: Reason)

  /** A tag of a message under a key, such as HMAC-SHA256. */
  type Tagger = (string, string) -> string

  const AUTH_VERSION := "v1"
  const DEFAULT_WINDOW_MS := 60000

  function DomainName(domain: Domain): string {
    match domain
    case Register => "register"
    case Ping => "ping"
    case Unknown(name) => name
  }

  predicate IsSignableField(value: Option<string>) {
    value.Some? && value.value != "" && '\n' !in value.value
  }

  predicate IsSignableTimestamp(value: Number) {
    value.Whole? && value.n >= 0
  }

  /** A number as it is printed. */
  function Decimal(n: nat): string {
    if n < 10 then [('0' as int + n) as char] else Decimal(n / 10) + [('0' as int + n % 10) as char]
  }

  function BuildMessage(domain: Domain, fields: Fields): Option<string> {
    if !IsSignableField(fields.nodeId) then None
    else if !IsSignableTimestamp(fields.timestamp) then None
    else if domain.Register? then
      if !IsSignableField(fields.metricsServerUri) then None
      else
        var parts := [AUTH_VERSION, DomainName(domain), fields.nodeId.value, fields.metricsServerUri.value,
                      Decimal(fields.timestamp.n)];
        Some(Join(parts, '\n'))
    else if domain.Ping? then
      var parts := [AUTH_VERSION, DomainName(domain), fields.nodeId.value, Decimal(fields.timestamp.n)];
      Some(Join(parts, '\n'))
    else None
  }

  function SignMessage(tagger: Tagger, key: string, message: string): string {
    AUTH_VERSION + ";" + tagger(key, message)
  }

  function CreateCredential(tagger: Tagger, key: Option<string>, domain: Domain, fields: Fields): Option<string> {
    if !IsSignableField(key) then None
    else
      var message := BuildMessage(domain, fields);
      if message == None then None else Some(SignMessage(tagger, key.value, message.value))
  }

  /** Where a character first stands, or -1. */
  function IndexOf(s: string, c: char): int {
    if s == "" then -1
    else if s[0] == c then 0
    else
      var i := IndexOf(s[1..], c);
      if i < 0 then -1 else i + 1
  }

  function Abs(x: int): int { if x < 0 then -x else x }

  function Skew(nowMs: int, fields: Fields): int {
    if fields.timestamp.Whole? then nowMs - fields.timestamp.n else 0
  }

  function Window(windowMs: Option<int>): int {
    if windowMs.Some? then windowMs.value else DEFAULT_WINDOW_MS
  }

  lemma {:induction false} IndexIsInside(s: string, c: char)
    ensures IndexOf(s, c) < |s|
  {
    if s != "" { IndexIsInside(s[1..], c); }
  }

  function VerifyCredential(tagger: Tagger, key: Option<string>, credential: Option<string>, domain: Domain,
                            fields: Fields, nowMs: int, windowMs: Option<int>): Verdict {
    if !IsSignableField(key) then Rejected(MissingKey)
    else if credential.None? || credential.value == "" then Rejected(MissingCredential)
    else
      var separatorIndex := IndexOf(credential.value, ';');
      if separatorIndex <= 0 then Rejected(MalformedCredential)
      else
        IndexIsInside(credential.value, ';');
        var version, tag := credential.value[..separatorIndex], credential.value[separatorIndex + 1..];
        if version != AUTH_VERSION then Rejected(UnsupportedVersion)
        else if tag == "" then Rejected(MalformedCredential)
        else
          var message := BuildMessage(domain, fields);
          if message == None then Rejected(InvalidFields)
          else if Abs(Skew(nowMs, fields)) > Window(windowMs) then
            Rejected(StaleTimestamp(Skew(nowMs, fields)))
          else if SignMessage(tagger, key.value, message.value) != credential.value then Rejected(InvalidSignature)
          else Accepted
  }

  // ----- one message, one claim -----

  /** What a message signs: the route, the node, the time, and the address when registering. */
  datatype Claim = Claim(domain: Domain, nodeId: Option<string>, metricsServerUri: Option<string>, timestamp: Number)

  function ClaimOf(domain: Domain, fields: Fields): Claim {
    Claim(domain, fields.nodeId, if domain.Register? then fields.metricsServerUri else None, fields.timestamp)
  }

  lemma {:induction false} DecimalHasDigits(n: nat)
    ensures Decimal(n) != "" && forall i :: 0 <= i < |Decimal(n)| ==> '0' <= Decimal(n)[i] <= '9'
    ensures n > 0 ==> Decimal(n)[0] != '0'
  {
    if n >= 10 { DecimalHasDigits(n / 10); }
  }

  function Digits(s: string): int {
    if s == "" then 0 else Digits(s[..|s| - 1]) * 10 + (s[|s| - 1] as int - '0' as int)
  }

  lemma {:induction false} DecimalIsRead(n: nat)
    ensures Digits(Decimal(n)) == n
  {
    if n >= 10 {
      DecimalIsRead(n / 10);
      assert Decimal(n)[..|Decimal(n)| - 1] == Decimal(n / 10);
    } else {
      assert Decimal(n)[..0] == "";
    }
  }

  /** The fields of a signable claim, in the order they are signed. */
  function PartsOf(claim: Claim): seq<string>
    requires claim.nodeId.Some? && IsSignableTimestamp(claim.timestamp)
    requires claim.domain.Register? ==> claim.metricsServerUri.Some?
  {
    var time := [Decimal(claim.timestamp.n)];
    [AUTH_VERSION, DomainName(claim.domain), claim.nodeId.value]
    + (if claim.domain.Register? then [claim.metricsServerUri.value] else []) + time
  }

  lemma MessageSplits(domain: Domain, fields: Fields)
    requires BuildMessage(domain, fields).Some?
    ensures Split(BuildMessage(domain, fields).value, '\n') == PartsOf(ClaimOf(domain, fields))
  {
    var parts := PartsOf(ClaimOf(domain, fields));
    DecimalHasDigits(fields.timestamp.n);
    if domain.Register? {
      assert parts == [AUTH_VERSION, DomainName(domain), fields.nodeId.value, fields.metricsServerUri.value,
                       Decimal(fields.timestamp.n)];
    } else {
      assert parts == [AUTH_VERSION, DomainName(domain), fields.nodeId.value, Decimal(fields.timestamp.n)];
    }
    assert BuildMessage(domain, fields).value == Join(parts, '\n');
    assert Free(parts, '\n');
    JoinsAreSplit(parts, '\n');
  }

  /** The message of a registration, and of a ping. */
  lemma MessagesRead(fields: Fields)
    requires IsSignableField(fields.nodeId) && IsSignableTimestamp(fields.timestamp)
    ensures IsSignableField(fields.metricsServerUri) ==>
              BuildMessage(Register, fields) == Some("v1\n" + "register\n" + fields.nodeId.value + "\n"
                                                     + fields.metricsServerUri.value + "\n" + Decimal(fields.timestamp.n))
    ensures BuildMessage(Ping, fields) == Some("v1\n" + "ping\n" + fields.nodeId.value + "\n" + Decimal(fields.timestamp.n))
  {
    var node, time := fields.nodeId.value, Decimal(fields.timestamp.n);
    JoinFour("v1", "ping", node, time);
    assert "v1\n" + "ping\n" + node + "\n" + time == "v1" + "\n" + ("ping" + "\n" + (node + "\n" + time));
    if IsSignableField(fields.metricsServerUri) {
      var uri := fields.metricsServerUri.value;
      JoinFive("v1", "register", node, uri, time);
      assert "v1\n" + "register\n" + node + "\n" + uri + "\n" + time
          == "v1" + "\n" + ("register" + "\n" + (node + "\n" + (uri + "\n" + time)));
    }
  }

  lemma JoinFour(a: string, b: string, c: string, d: string)
    ensures Join([a, b, c, d], '\n') == a + "\n" + (b + "\n" + (c + "\n" + d))
  {
    assert [a, b, c, d][1..] == [b, c, d] && [b, c, d][1..] == [c, d] && [c, d][1..] == [d];
    assert Join([c, d], '\n') == c + "\n" + d;
    assert Join([b, c, d], '\n') == b + "\n" + Join([c, d], '\n');
  }

  lemma JoinFive(a: string, b: string, c: string, d: string, e: string)
    ensures Join([a, b, c, d, e], '\n') == a + "\n" + (b + "\n" + (c + "\n" + (d + "\n" + e)))
  {
    assert [a, b, c, d, e][1..] == [b, c, d, e];
    JoinFour(b, c, d, e);
  }

  /** Two signable claims have one message exactly when they are the same claim. */
  lemma MessagesAreInjective(d1: Domain, f1: Fields, d2: Domain, f2: Fields)
    requires BuildMessage(d1, f1).Some? && BuildMessage(d2, f2).Some?
    ensures BuildMessage(d1, f1) == BuildMessage(d2, f2) <==> ClaimOf(d1, f1) == ClaimOf(d2, f2)
  {
    if BuildMessage(d1, f1) == BuildMessage(d2, f2) {
      MessageSplits(d1, f1);
      MessageSplits(d2, f2);
      var p, q := PartsOf(ClaimOf(d1, f1)), PartsOf(ClaimOf(d2, f2));
      assert |DomainName(Register)| == 8 && |DomainName(Ping)| == 4;
      assert p == q && p[1] == q[1] && (d1.Register? ==> p[3] == q[3]) && p[2] == q[2] && p[|p| - 1] == q[|q| - 1];
      DecimalIsRead(f1.timestamp.n);
      DecimalIsRead(f2.timestamp.n);
    }
  }

  /** A claim is signable exactly when its node id is text without a line break, its time a whole number from 0 on, and, when registering, its address such text too. */
  lemma SignableExactly(domain: Domain, fields: Fields)
    ensures BuildMessage(domain, fields).Some? <==>
              && fields.nodeId.Some? && fields.nodeId.value != "" && '\n' !in fields.nodeId.value
              && fields.timestamp.Whole? && 0 <= fields.timestamp.n
              && (domain == Ping || (domain == Register && fields.metricsServerUri.Some?
                                     && fields.metricsServerUri.value != "" && '\n' !in fields.metricsServerUri.value))
  {
  }

  /** A key makes credentials for exactly the signable claims, if it is text without a line break itself. */
  lemma CreatesExactly(tagger: Tagger, key: Option<string>, domain: Domain, fields: Fields)
    ensures CreateCredential(tagger, key, domain, fields).Some? <==>
              key.Some? && key.value != "" && '\n' !in key.value && BuildMessage(domain, fields).Some?
    ensures CreateCredential(tagger, key, domain, fields).Some? ==>
              CreateCredential(tagger, key, domain, fields).value == "v1;" + tagger(key.value, BuildMessage(domain, fields).value)
  {
    assert AUTH_VERSION + ";" == "v1;";
  }

  // ----- verification -----

  ghost predicate TagsAreNotEmpty(tagger: Tagger) {
    forall key, message :: tagger(key, message) != ""
  }

  lemma CredentialParts(tagger: Tagger, key: string, message: string)
    ensures var c := SignMessage(tagger, key, message);
            IndexOf(c, ';') == 2 && c[..2] == AUTH_VERSION && c[3..] == tagger(key, message)
  {
    var c := SignMessage(tagger, key, message);
    assert c[0] == 'v' && c[1] == '1' && c[2] == ';';
    assert c[1..][0] == '1' && c[1..][1..][0] == ';';
    assert IndexOf(c[1..][1..], ';') == 0;
  }

  predicate Fresh(nowMs: int, fields: Fields, windowMs: Option<int>) {
    Abs(Skew(nowMs, fields)) <= Window(windowMs)
  }

  /** A credential is accepted exactly when it is the one created for these fields, and fresh. */
  lemma AcceptsExactlyWhatWasCreated(tagger: Tagger, key: Option<string>, credential: Option<string>,
                                     domain: Domain, fields: Fields, nowMs: int, windowMs: Option<int>)
    requires TagsAreNotEmpty(tagger)
    ensures VerifyCredential(tagger, key, credential, domain, fields, nowMs, windowMs) == Accepted
       <==> credential.Some? && credential == CreateCredential(tagger, key, domain, fields)
            && var w := if windowMs.Some? then windowMs.value else 60000;
               fields.timestamp.Whole? && -w <= nowMs - fields.timestamp.n <= w
  {
    var message := BuildMessage(domain, fields);
    if IsSignableField(key) && message.Some? {
      CredentialParts(tagger, key.value, message.value);
      assert tagger(key.value, message.value) != "";
    }
  }

  /** A created credential out of its window is reported as stale, not as wrongly signed. */
  lemma ExpiredIsStale(tagger: Tagger, key: Option<string>, domain: Domain, fields: Fields, nowMs: int, windowMs: Option<int>)
    requires TagsAreNotEmpty(tagger) && CreateCredential(tagger, key, domain, fields).Some?
    requires !Fresh(nowMs, fields, windowMs)
    ensures VerifyCredential(tagger, key, CreateCredential(tagger, key, domain, fields), domain, fields, nowMs, windowMs)
         == Rejected(StaleTimestamp(nowMs - fields.timestamp.n))
  {
    var message := BuildMessage(domain, fields);
    CredentialParts(tagger, key.value, message.value);
    assert tagger(key.value, message.value) != "";
  }

  ghost predicate Injective(tagger: Tagger, key: string) {
    forall m1, m2 :: tagger(key, m1) == tagger(key, m2) ==> m1 == m2
  }

  /** Where tags tell messages apart, a credential is good for one claim only, at any time and on any route. */
  lemma CredentialIsForOneClaim(tagger: Tagger, key: Option<string>, credential: Option<string>,
                                d1: Domain, f1: Fields, now1: int, w1: Option<int>,
                                d2: Domain, f2: Fields, now2: int, w2: Option<int>)
    requires TagsAreNotEmpty(tagger) && (key.Some? ==> Injective(tagger, key.value))
    requires VerifyCredential(tagger, key, credential, d1, f1, now1, w1) == Accepted
    requires VerifyCredential(tagger, key, credential, d2, f2, now2, w2) == Accepted
    ensures ClaimOf(d1, f1) == ClaimOf(d2, f2)
  {
    AcceptsExactlyWhatWasCreated(tagger, key, credential, d1, f1, now1, w1);
    AcceptsExactlyWhatWasCreated(tagger, key, credential, d2, f2, now2, w2);
    CredentialParts(tagger, key.value, BuildMessage(d1, f1).value);
    CredentialParts(tagger, key.value, BuildMessage(d2, f2).value);
    MessagesAreInjective(d1, f1, d2, f2);
  }

  // ----- reasons for a rejection -----

  lemma {:induction false} IndexIsFirst(s: string, c: char)
    ensures var i := IndexOf(s, c);
            if c in s then 0 <= i < |s| && s[i] == c && c !in s[..i] else i == -1
  {
    if s != "" && s[0] != c {
      IndexIsFirst(s[1..], c);
      if c in s[1..] {
        assert s[..IndexOf(s, c)] == [s[0]] + s[1..][..IndexOf(s[1..], c)];
      }
    }
  }

  /** The credential is a version, a semicolon and a tag. */
  predicate Splits(credential: string, version: string, tag: string) {
    version != "" && ';' !in version && credential == version + ";" + tag
  }

  lemma SplitsOnce(credential: string, version: string, tag: string)
    requires Splits(credential, version, tag)
    ensures IndexOf(credential, ';') == |version| && credential[|version|] == ';'
    ensures credential[..|version|] == version && credential[|version| + 1..] == tag
  {
    assert credential[..|version|] == version;
    FirstIsUnique(credential, ';', |version|);
  }

  lemma {:induction false} FirstIsUnique(s: string, c: char, k: nat)
    requires k < |s| && s[k] == c && c !in s[..k]
    ensures IndexOf(s, c) == k
  {
    if k > 0 {
      assert s[0] in s[..k];
      assert s[..k] == [s[0]] + s[1..][..k - 1];
      FirstIsUnique(s[1..], c, k - 1);
    }
  }

  /**
   * What a request without a valid credential is told, in the order of the checks: no key, no
   * credential, no version and tag, another version, no tag, a claim that cannot be signed, a time out
   * of the window, and last a tag that does not match.
   */
  lemma RejectsInOrder(tagger: Tagger, key: Option<string>, credential: Option<string>, domain: Domain,
                       fields: Fields, nowMs: int, windowMs: Option<int>, version: string, tag: string)
    ensures var verdict := VerifyCredential(tagger, key, credential, domain, fields, nowMs, windowMs);
            var w := if windowMs.Some? then windowMs.value else 60000;
            if key.None? || key.value == "" || '\n' in key.value then verdict == Rejected(MissingKey)
            else if credential.None? || credential.value == "" then verdict == Rejected(MissingCredential)
            else if ';' !in credential.value || credential.value[0] == ';' then verdict == Rejected(MalformedCredential)
            else Splits(credential.value, version, tag) ==>
              if version != "v1" then verdict == Rejected(UnsupportedVersion)
              else if tag == "" then verdict == Rejected(MalformedCredential)
              else if BuildMessage(domain, fields).None? then verdict == Rejected(InvalidFields)
              else if !(-w <= nowMs - fields.timestamp.n <= w)
              then verdict == Rejected(StaleTimestamp(nowMs - fields.timestamp.n))
              else if tag != tagger(key.value, BuildMessage(domain, fields).value) then verdict == Rejected(InvalidSignature)
              else verdict == Accepted
  {
    if credential.Some? {
      IndexIsFirst(credential.value, ';');
      if Splits(credential.value, version, tag) {
        SplitsOnce(credential.value, version, tag);
        if version == "v1" && IsSignableField(key) && BuildMessage(domain, fields).Some? {
          SameTag(credential.value, tag, tagger(key.value, BuildMessage(domain, fields).value));
        }
      }
    }
  }

  lemma SameTag(credential: string, tag: string, expected: string)
    requires credential == "v1" + ";" + tag
    ensures AUTH_VERSION + ";" + expected == credential <==> expected == tag
  {
    assert credential[3..] == tag;
    assert ("v1" + ";" + expected)[3..] == expected;
  }
}
