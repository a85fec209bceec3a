/** The helpers of server/utils/auth.js: password strength, input
    sanitisation, API keys, one-time passwords, the rate-limit window, the
    reset and verification links and the user projection of a token response.
    Random bytes and random digits are parameters. */
module AuthUtils {
  import opened Common
  import opened Text
  import opened Crypto
  import opened Secrets
  import opened UserModel

  // ---------------------------------------------------------------------------
  // validatePassword
  // ---------------------------------------------------------------------------

  const MinPasswordLength := 8
  const TooShortMessage := "Password must be at least 8 characters long"
  const NoLowerMessage := "Password must contain at least one lowercase letter"
  const NoUpperMessage := "Password must contain at least one uppercase letter"
  const NoDigitMessage := "Password must contain at least one number"
  const NoSpecialMessage := "Password must contain at least one special character (@$!%*?&)"

  predicate IsSpecial(c: char) {
    c == '@' || c == '$' || c == '!' || c == '%' || c == '*' || c == '?' || c == '&'
  }

  /** `/(?=.*[a-z])/.test(p)` and its siblings: some character of the class
      occurs somewhere in the password. */
  predicate HasLower(p: string) { exists i :: 0 <= i < |p| && 'a' <= p[i] <= 'z' }
  predicate HasUpper(p: string) { exists i :: 0 <= i < |p| && 'A' <= p[i] <= 'Z' }
  predicate HasDigit(p: string) { exists i :: 0 <= i < |p| && '0' <= p[i] <= '9' }
  predicate HasSpecial(p: string) { exists i :: 0 <= i < |p| && IsSpecial(p[i]) }

  /** The strength policy: eight characters or more, with a lower-case letter,
      an upper-case letter, a digit and one of `@$!%*?&`. */
  predicate StrongPassword(p: string) {
    |p| >= MinPasswordLength && HasLower(p) && HasUpper(p) && HasDigit(p) && HasSpecial(p)
  }

  datatype PasswordCheck = PasswordCheck(isValid: bool, errors: seq<string>)

  /** The five rule messages are pairwise different. */
  lemma RuleMessagesDiffer()
    ensures TooShortMessage !in [NoLowerMessage, NoUpperMessage, NoDigitMessage, NoSpecialMessage]
    ensures NoLowerMessage !in [NoUpperMessage, NoDigitMessage, NoSpecialMessage]
    ensures NoUpperMessage !in [NoDigitMessage, NoSpecialMessage]
    ensures NoDigitMessage != NoSpecialMessage
  {
    assert |TooShortMessage| == 43 && |NoLowerMessage| == 51 && |NoUpperMessage| == 51;
    assert |NoDigitMessage| == 41 && |NoSpecialMessage| == 62;
    assert NoLowerMessage[35] == 'l' && NoUpperMessage[35] == 'u';
  }

  /** `validatePassword`: every failing rule contributes its message, in rule
      order; the password is valid exactly when no rule fails. */
  function ValidatePassword(p: string): (r: PasswordCheck)
    ensures r.isValid <==> r.errors == []
    ensures r.isValid <==> StrongPassword(p)
    ensures TooShortMessage in r.errors <==> |p| < MinPasswordLength
    ensures NoLowerMessage in r.errors <==> !HasLower(p)
    ensures NoUpperMessage in r.errors <==> !HasUpper(p)
    ensures NoDigitMessage in r.errors <==> !HasDigit(p)
    ensures NoSpecialMessage in r.errors <==> !HasSpecial(p)
    ensures |r.errors| <= 5
  {
    RuleMessagesDiffer();
    var errors :=
      (if |p| < MinPasswordLength then [TooShortMessage] else [])
      + (if !HasLower(p) then [NoLowerMessage] else [])
      + (if !HasUpper(p) then [NoUpperMessage] else [])
      + (if !HasDigit(p) then [NoDigitMessage] else [])
      + (if !HasSpecial(p) then [NoSpecialMessage] else []);
    PasswordCheck(|errors| == 0, errors)
  }

  // ---------------------------------------------------------------------------
  // sanitizeInput
  // ---------------------------------------------------------------------------

  /** A request-body value: a string, or anything else (undefined, a number,
      an object), which `sanitizeInput` hands back untouched. */
  datatype Input = Str(s: string) | NonString(tag: nat)

  predicate NoAngles(s: string) {
    forall i :: 0 <= i < |s| ==> s[i] != '<' && s[i] != '>'
  }

  /** `.replace(/[<>]/g, '')`. */
  function RemoveAngles(s: string): (r: string)
    ensures |r| <= |s|
    ensures NoAngles(r)
    ensures forall c :: c in r ==> c in s
    ensures |r| == |s| ==> r == s && NoAngles(s)
  {
    if |s| == 0 then s
    else
      var rest := RemoveAngles(s[1..]);
      if s[0] == '<' || s[0] == '>' then rest else [s[0]] + rest
  }

  const Protocol := "javascript:"

  /** `/javascript:/i` matches at index `i`. */
  predicate ProtocolAt(s: string, i: nat) {
    i + |Protocol| <= |s| && forall k :: 0 <= k < |Protocol| ==> LowerChar(s[i + k]) == Protocol[k]
  }

  /** `.replace(/javascript:/gi, '')`: matches are found left to right and the
      search resumes after each removed match. */
  function RemoveProtocol(s: string): (r: string)
    ensures |r| <= |s|
    ensures forall c :: c in r ==> c in s
    decreases |s|
  {
    if |s| == 0 then s
    else if ProtocolAt(s, 0) then RemoveProtocol(s[|Protocol|..])
    else [s[0]] + RemoveProtocol(s[1..])
  }

  /** `\w`: ASCII letters, digits and underscore. */
  predicate IsWordChar(c: char) {
    ('a' <= c <= 'z') || ('A' <= c <= 'Z') || ('0' <= c <= '9') || c == '_'
  }

  /** The end of the longest run of word characters starting at `j`. */
  function WordRunEnd(s: string, j: nat): (k: nat)
    requires j <= |s|
    ensures j <= k <= |s|
    ensures forall m :: j <= m < k ==> IsWordChar(s[m])
    ensures k == |s| || !IsWordChar(s[k])
    decreases |s| - j
  {
    if j < |s| && IsWordChar(s[j]) then WordRunEnd(s, j + 1) else j
  }

  /** `/on\w+=/i` matches at index `i`. Since `=` is not a word character, the
      greedy `\w+` can only be followed by `=` at the end of its longest run. */
  predicate HandlerAt(s: string, i: nat) {
    i + 2 <= |s| && LowerChar(s[i]) == 'o' && LowerChar(s[i + 1]) == 'n'
    && var k := WordRunEnd(s, i + 2); k > i + 2 && k < |s| && s[k] == '='
  }

  /** `.replace(/on\w+=/gi, '')`. */
  function RemoveHandlers(s: string): (r: string)
    ensures |r| <= |s|
    ensures forall c :: c in r ==> c in s
    decreases |s|
  {
    if |s| == 0 then s
    else if HandlerAt(s, 0) then RemoveHandlers(s[WordRunEnd(s, 2) + 1..])
    else [s[0]] + RemoveHandlers(s[1..])
  }

  /** One pass of the three removals, in the order the source applies them. */
  function Scrub(s: string): (r: string)
    ensures |r| <= |s|
    ensures NoAngles(r)
  {
    var a := RemoveAngles(s);
    var b := RemoveProtocol(a);
    var c := RemoveHandlers(b);
    assert NoAngles(c) by {
      forall i | 0 <= i < |c| ensures c[i] != '<' && c[i] != '>' {
        assert c[i] in c;
      }
    }
    c
  }

  /** `sanitizeInput` on a string exactly as written: trim, then one pass of
      each removal. */
  function SanitizeAsWritten(s: string): (r: string)
    ensures NoAngles(r)
    ensures |r| <= |s|
  {
    var t := Trim(s);
    Scrub(t)
  }

  lemma {:induction false} RemoveProtocolKeepsLength(s: string)
    ensures |RemoveProtocol(s)| == |s| ==> RemoveProtocol(s) == s && forall i: nat :: i <= |s| ==> !ProtocolAt(s, i)
    decreases |s|
  {
    if |s| > 0 && !ProtocolAt(s, 0) && |RemoveProtocol(s)| == |s| {
      RemoveProtocolKeepsLength(s[1..]);
      assert s == [s[0]] + s[1..];
      forall i: nat | 1 <= i <= |s| ensures !ProtocolAt(s, i) {
        ProtocolShift(s, i);
      }
    }
  }

  /** Protocol matches are found the same way in a suffix. */
  lemma ProtocolShift(s: string, i: nat)
    requires 1 <= i <= |s|
    ensures ProtocolAt(s, i) <==> ProtocolAt(s[1..], i - 1)
  {
    if i + |Protocol| <= |s| {
      forall j | i <= j < i + |Protocol| ensures s[j] == s[1..][j - 1] {
      }
    }
  }

  lemma {:induction false} RemoveHandlersKeepsLength(s: string)
    ensures |RemoveHandlers(s)| == |s| ==> RemoveHandlers(s) == s && forall i: nat :: i <= |s| ==> !HandlerAt(s, i)
    decreases |s|
  {
    if |s| > 0 && !HandlerAt(s, 0) && |RemoveHandlers(s)| == |s| {
      RemoveHandlersKeepsLength(s[1..]);
      forall i: nat | 1 <= i <= |s| ensures !HandlerAt(s, i) {
        HandlerShift(s, i);
      }
    }
  }

  /** Handler matches are found the same way in a suffix. */
  lemma HandlerShift(s: string, i: nat)
    requires 1 <= i <= |s|
    ensures HandlerAt(s, i) <==> HandlerAt(s[1..], i - 1)
  {
    if i + 2 <= |s| {
      WordRunEndShift(s, i + 2);
      var k := WordRunEnd(s, i + 2);
      assert s[1..][i - 1] == s[i] && s[1..][i] == s[i + 1];
      if k < |s| {
        assert s[1..][k - 1] == s[k];
      }
    }
  }

  /** Word runs are found the same way in a suffix. */
  lemma {:induction false} WordRunEndShift(s: string, j: nat)
    requires 1 <= j <= |s|
    ensures WordRunEnd(s, j) == WordRunEnd(s[1..], j - 1) + 1
    decreases |s| - j
  {
    if j < |s| && IsWordChar(s[j]) {
      WordRunEndShift(s, j + 1);
    }
  }

  /** The intended sanitiser: the removals are repeated until a pass removes
      nothing, so no removal can assemble a new match from the leftovers. */
  function SanitizeToFixpoint(s: string): (r: string)
    ensures |r| <= |s|
    decreases |s|
  {
    var t := Scrub(s);
    if |t| == |s| then t else SanitizeToFixpoint(t)
  }

  /** What the fixpoint leaves holds no markup character and no match of
      either pattern anywhere. */
  lemma {:induction false} FixpointIsClean(s: string)
    ensures NoAngles(SanitizeToFixpoint(s))
    ensures forall i: nat :: i <= |SanitizeToFixpoint(s)| ==>
      !ProtocolAt(SanitizeToFixpoint(s), i) && !HandlerAt(SanitizeToFixpoint(s), i)
    decreases |s|
  {
    var t := Scrub(s);
    if |t| == |s| {
      ScrubKeepsLength(s);
    } else {
      FixpointIsClean(t);
    }
  }

  /** A pass that removes nothing leaves a string free of all three patterns. */
  lemma ScrubKeepsLength(s: string)
    requires |Scrub(s)| == |s|
    ensures Scrub(s) == s
    ensures forall i: nat :: i <= |s| ==> !ProtocolAt(s, i) && !HandlerAt(s, i)
  {
    var a := RemoveAngles(s);
    var b := RemoveProtocol(a);
    RemoveProtocolKeepsLength(a);
    RemoveHandlersKeepsLength(b);
  }

  /** `sanitizeInput`: non-strings come back unchanged; strings come back
      trimmed, with one pass of each removal, so without markup characters. */
  function SanitizeInput(x: Input): (r: Input)
    ensures !x.Str? ==> r == x
    ensures x.Str? ==> r.Str? && NoAngles(r.s) && |r.s| <= |Trim(x.s)| <= |x.s|
  {
    match x
    case Str(s) => Str(SanitizeAsWritten(s))
    case NonString(_) => x
  }

  /** The intended `sanitizeInput` (see Findings): the removals are repeated
      until a pass removes nothing. */
  function SanitizeInputToFixpoint(x: Input): (r: Input)
    ensures !x.Str? ==> r == x
    ensures x.Str? ==> r.Str? && |r.s| <= |x.s|
  {
    match x
    case Str(s) => Str(SanitizeToFixpoint(Trim(s)))
    case NonString(_) => x
  }

  /** What the intended sanitiser returns holds no markup character, no
      `javascript:` and no inline event handler. */
  lemma SanitizedIsClean(x: Input)
    requires x.Str?
    ensures SanitizeInputToFixpoint(x).Str? && NoAngles(SanitizeInputToFixpoint(x).s)
    ensures forall i: nat :: i <= |SanitizeInputToFixpoint(x).s| ==>
      !ProtocolAt(SanitizeInputToFixpoint(x).s, i) && !HandlerAt(SanitizeInputToFixpoint(x).s, i)
  {
    FixpointIsClean(Trim(x.s));
  }

  /** The two sanitisers agree whenever a second pass over the written one's
      output would remove nothing. */
  lemma {:induction false} FixpointAgreesAfterOnePass(x: Input)
    requires x.Str? ==> |Scrub(SanitizeInput(x).s)| == |SanitizeInput(x).s|
    ensures SanitizeInputToFixpoint(x) == SanitizeInput(x)
  {
    if x.Str? {
      var t := Trim(x.s);
      var once := Scrub(t);
      if |once| != |t| {
        assert SanitizeToFixpoint(t) == SanitizeToFixpoint(once);
        assert SanitizeToFixpoint(once) == Scrub(once);
        ScrubKeepsLength(once);
      }
    }
  }

  /** `javajavascript:script:`. */
  const NestedProtocol := "java" + (Protocol + "script:")

  /** As written, one pass can leave a `javascript:` behind: removing the
      inner occurrence joins the outer fragments into a new one. */
  lemma SanitizeAsWrittenLeavesProtocol()
    ensures SanitizeAsWritten(NestedProtocol) == Protocol
    ensures ProtocolAt(SanitizeAsWritten(NestedProtocol), 0)
  {
    NestedProtocolIsTrimmed();
    ScrubNested();
    var out := SanitizeAsWritten(NestedProtocol);
    assert out == Protocol;
    ProtocolMatchesItself();
  }

  lemma NestedProtocolHasNoAngles()
    ensures RemoveAngles(NestedProtocol) == NestedProtocol
  {
    assert NoAngles(NestedProtocol);
    NoAnglesKept(NestedProtocol);
  }

  lemma ProtocolSurvivesHandlerPass()
    ensures RemoveHandlers(Protocol) == Protocol
  {
    NoHandlerWithoutO(Protocol);
  }

  lemma ProtocolMatchesItself()
    ensures ProtocolAt(Protocol, 0)
  {
    forall k | 0 <= k < |Protocol| ensures LowerChar(Protocol[0 + k]) == Protocol[k] {
    }
  }

  lemma ScrubNested()
    ensures Scrub(NestedProtocol) == Protocol
  {
    NestedProtocolHasNoAngles();
    NestedProtocolPass();
    ProtocolSurvivesHandlerPass();
  }

  lemma NestedProtocolIsTrimmed()
    ensures Trim(NestedProtocol) == NestedProtocol
  {
    var s := NestedProtocol;
    assert TrimStart(s) == s;
    assert TrimEnd(s) == s;
  }

  lemma LowerOfLowercase(s: string)
    requires forall i :: 0 <= i < |s| ==> !('A' <= s[i] <= 'Z')
    ensures Lower(s) == s
  {
  }

  /** The single `javascript:` pass over the nested input: the four leading
      characters are kept, the inner match is removed, the tail is kept. */
  lemma NestedProtocolPass()
    ensures RemoveProtocol(NestedProtocol) == Protocol
  {
    var r0 := Protocol + "script:";
    calc {
      RemoveProtocol(NestedProtocol);
      { assert NestedProtocol == "java" + r0; }
      RemoveProtocol("java" + r0);
      { JavaPrefixCannotMatch(r0); PrefixKept("java", r0); }
      "java" + RemoveProtocol(r0);
      { InnerMatchRemoved(); }
      "java" + "script:";
      Protocol;
    }
  }

  /** None of the suffixes of `java` followed by a match starts a match. */
  lemma JavaPrefixCannotMatch(rest: string)
    requires |rest| >= 1 && rest[0] == 'j'
    ensures forall k :: 0 <= k < 4 ==> !ProtocolAt("java"[k..] + rest, 0)
  {
    forall k | 0 <= k < 4 ensures !ProtocolAt("java"[k..] + rest, 0) {
      var x := "java"[k..] + rest;
      ProtocolShape(x);
      if k == 0 {
        assert x[4] == 'j';
      } else {
        assert x[0] == "java"[k];
      }
    }
  }

  /** Characters that start no match are kept in front of the rest. */
  lemma {:induction false} PrefixKept(p: string, rest: string)
    requires forall k :: 0 <= k < |p| ==> !ProtocolAt(p[k..] + rest, 0)
    ensures RemoveProtocol(p + rest) == p + RemoveProtocol(rest)
  {
    if p != [] {
      var x := p + rest;
      assert p[0..] + rest == x;
      assert x[1..] == p[1..] + rest;
      forall k | 0 <= k < |p[1..]| ensures !ProtocolAt(p[1..][k..] + rest, 0) {
        assert p[1..][k..] == p[k + 1..];
      }
      PrefixKept(p[1..], rest);
      assert RemoveProtocol(x) == [p[0]] + RemoveProtocol(p[1..] + rest);
      assert [p[0]] + (p[1..] + RemoveProtocol(rest)) == p + RemoveProtocol(rest);
    } else {
      assert p + rest == rest;
    }
  }


  lemma InnerMatchRemoved()
    ensures RemoveProtocol(Protocol + "script:") == "script:"
  {
    var tail := "script:";
    var inner := Protocol + tail;
    ShortProtocolFree(tail);
    ProtocolMatchesItself();
    assert ProtocolAt(inner, 0) by {
      forall k | 0 <= k < |Protocol| ensures LowerChar(inner[0 + k]) == Protocol[k] {
        assert inner[k] == Protocol[0 + k];
      }
    }
    assert inner[|Protocol|..] == tail;
  }

  /** A match begins with `j` and has `s` at its fifth position. */
  lemma ProtocolShape(x: string)
    ensures ProtocolAt(x, 0) ==> LowerChar(x[0]) == 'j' && LowerChar(x[4]) == 's'
  {
    if ProtocolAt(x, 0) {
      assert LowerChar(x[0 + 0]) == Protocol[0];
      assert LowerChar(x[0 + 4]) == Protocol[4];
    }
  }


  lemma {:induction false} NoAnglesKept(s: string)
    requires NoAngles(s)
    ensures |RemoveAngles(s)| == |s|
    decreases |s|
  {
    if |s| > 0 {
      NoAnglesKept(s[1..]);
    }
  }

  lemma {:induction false} ShortProtocolFree(s: string)
    requires |s| < |Protocol|
    ensures RemoveProtocol(s) == s
    decreases |s|
  {
    if |s| > 0 {
      ShortProtocolFree(s[1..]);
    }
  }

  lemma {:induction false} NoHandlerWithoutO(s: string)
    requires forall i :: 0 <= i < |s| ==> LowerChar(s[i]) != 'o'
    ensures RemoveHandlers(s) == s
    decreases |s|
  {
    if |s| > 0 {
      NoHandlerWithoutO(s[1..]);
    }
  }

  // ---------------------------------------------------------------------------
  // API keys
  // ---------------------------------------------------------------------------

  newtype byte = x: int | 0 <= x < 256

  const HexDigits := "0123456789abcdef"

  predicate IsLowerHex(c: char) {
    ('0' <= c <= '9') || ('a' <= c <= 'f')
  }

  function HexValue(c: char): (v: nat)
    requires IsLowerHex(c)
    ensures v < 16 && HexDigits[v] == c
  {
    if c <= '9' then (c as int - '0' as int) else (c as int - 'a' as int + 10)
  }

  /** `buffer.toString('hex')`: two lower-case digits per byte, high nibble first. */
  function HexEncode(bs: seq<byte>): (h: string)
    ensures |h| == 2 * |bs|
    ensures forall i :: 0 <= i < |h| ==> IsLowerHex(h[i])
  {
    if bs == [] then ""
    else [HexDigits[bs[0] as int / 16], HexDigits[bs[0] as int % 16]] + HexEncode(bs[1..])
  }

  /** The inverse of `HexEncode`: each pair of digits is one byte, high
      nibble first; a trailing lone digit is dropped. */
  function HexDecode(h: string): (bs: seq<byte>)
    requires forall i :: 0 <= i < |h| ==> IsLowerHex(h[i])
    ensures 2 * |bs| <= |h| < 2 * |bs| + 2
    decreases |h|
  {
    if |h| < 2 then []
    else [(HexValue(h[0]) * 16 + HexValue(h[1])) as byte] + HexDecode(h[2..])
  }

  lemma {:induction false} HexDecodeEncode(bs: seq<byte>)
    ensures HexDecode(HexEncode(bs)) == bs
  {
    if bs != [] {
      var h := HexEncode(bs);
      assert h[2..] == HexEncode(bs[1..]);
      HexDecodeEncode(bs[1..]);
      var b := bs[0] as int;
      assert HexValue(h[0]) == b / 16 && HexValue(h[1]) == b % 16 by {
        HexValueOfDigit(b / 16);
        HexValueOfDigit(b % 16);
      }
    }
  }

  lemma HexValueOfDigit(v: nat)
    requires v < 16
    ensures IsLowerHex(HexDigits[v]) && HexValue(HexDigits[v]) == v
  {
  }

  /** Re-encoding the decoded form of an even-length digit string gives the
      string back. */
  lemma HexEncodeDecode(h: string)
    requires |h| % 2 == 0
    requires forall i :: 0 <= i < |h| ==> IsLowerHex(h[i])
    ensures HexEncode(HexDecode(h)) == h
  {
    var bs := EncodingOf(h);
    HexDecodeEncode(bs);
  }

  lemma EvenTail(n: nat)
    requires n % 2 == 0 && n > 0
    ensures n >= 2 && (n - 2) % 2 == 0
  {
  }

  /** Every even-length string of lower-case digits is the encoding of some
      bytes. */
  lemma {:induction false} EncodingOf(h: string) returns (bs: seq<byte>)
    requires |h| % 2 == 0
    requires forall i :: 0 <= i < |h| ==> IsLowerHex(h[i])
    ensures HexEncode(bs) == h
    decreases |h|
  {
    if h == [] {
      bs := [];
    } else {
      EvenTail(|h|);
      var tail := EncodingOf(h[2..]);
      var b := PairByte(h[0], h[1]);
      EncodeCons(b, tail);
      bs := [b] + tail;
      assert h == [h[0], h[1]] + h[2..];
    }
  }

  /** The byte whose two digits are `c0` and `c1`. */
  lemma PairByte(c0: char, c1: char) returns (b: byte)
    requires IsLowerHex(c0) && IsLowerHex(c1)
    ensures HexDigits[b as int / 16] == c0 && HexDigits[b as int % 16] == c1
  {
    var hi, lo := HexValue(c0), HexValue(c1);
    NibblesOfByte(hi, lo);
    b := (hi * 16 + lo) as byte;
    assert b as int / 16 == hi && b as int % 16 == lo;
  }

  /** Encoding a byte in front of others puts its two digits in front. */
  lemma EncodeCons(b: byte, rest: seq<byte>)
    ensures HexEncode([b] + rest) == [HexDigits[b as int / 16], HexDigits[b as int % 16]] + HexEncode(rest)
  {
    assert ([b] + rest)[1..] == rest;
  }

  lemma NibblesOfByte(hi: nat, lo: nat)
    requires hi < 16 && lo < 16
    ensures (hi * 16 + lo) / 16 == hi && (hi * 16 + lo) % 16 == lo
  {
  }

  const ApiKeyPrefix := "mv_"
  const ApiKeyBytes := 32

  /** `generateAPIKey`: the prefix followed by the hex form of 32 random bytes. */
  function GenerateApiKey(random: seq<byte>): (k: string)
    requires |random| == ApiKeyBytes
    ensures StartsWith(k, ApiKeyPrefix)
  {
    ApiKeyPrefix + HexEncode(random)
  }

  /** `/^mv_[a-f0-9]{64}$/.test(key)`. */
  predicate ValidateApiKey(k: string)
    ensures ValidateApiKey(k) ==> StartsWith(k, ApiKeyPrefix) && |k| == 67 && ' ' !in k
  {
    |k| == |ApiKeyPrefix| + 2 * ApiKeyBytes && k[..3] == ApiKeyPrefix
    && forall i :: 3 <= i < |k| ==> IsLowerHex(k[i])
  }

  /** Every generated key passes the format check ... */
  lemma GeneratedKeysValidate(random: seq<byte>)
    requires |random| == ApiKeyBytes
    ensures ValidateApiKey(GenerateApiKey(random))
  {
    var k := GenerateApiKey(random);
    assert k[3..] == HexEncode(random);
  }

  /** ... and every key that passes it is one `generateAPIKey` can produce,
      from exactly one byte string. */
  lemma ValidKeysAreGenerated(k: string)
    requires ValidateApiKey(k)
    ensures exists random :: |random| == ApiKeyBytes && GenerateApiKey(random) == k
    ensures forall r1, r2 ::
              (|r1| == ApiKeyBytes && |r2| == ApiKeyBytes && GenerateApiKey(r1) == k && GenerateApiKey(r2) == k) ==> r1 == r2
  {
    var h := k[3..];
    HexEncodeDecode(h);
    var random := HexDecode(h);
    assert GenerateApiKey(random) == k;
    forall r1, r2 | |r1| == ApiKeyBytes && |r2| == ApiKeyBytes && GenerateApiKey(r1) == k && GenerateApiKey(r2) == k
      ensures r1 == r2
    {
      assert GenerateApiKey(r1)[3..] == HexEncode(r1);
      assert GenerateApiKey(r2)[3..] == HexEncode(r2);
      HexDecodeEncode(r1);
      HexDecodeEncode(r2);
    }
  }

  // ---------------------------------------------------------------------------
  // One-time passwords
  // ---------------------------------------------------------------------------

  const OtpDigits := "0123456789"
  const DefaultOtpLength := 6

  /** `generateOTP(length)`: one digit per iteration; `picks[i]` is the
      `Math.floor(Math.random() * 10)` of iteration `i`. */
  method GenerateOtp(length: nat, picks: seq<nat>) returns (otp: string)
    requires |picks| >= length
    requires forall i :: 0 <= i < |picks| ==> picks[i] < 10
    ensures |otp| == length
    ensures forall i :: 0 <= i < length ==> '0' <= otp[i] <= '9' && otp[i] as int - '0' as int == picks[i]
  {
    otp := "";
    var i := 0;
    while i < length
      invariant 0 <= i <= length
      invariant |otp| == i
      invariant forall j :: 0 <= j < i ==> '0' <= otp[j] <= '9' && otp[j] as int - '0' as int == picks[j]
    {
      otp := otp + [OtpDigits[picks[i]]];
      i := i + 1;
    }
  }

  predicate TruthyText(v: Option<string>) { v.Some? && v.value != "" }
  predicate TruthyTime(v: Option<Millis>) { v.Some? && v.value != 0 }

  /** `verifyOTP`: missing (or empty) inputs fail, an expired code fails, and
      otherwise the code must equal the stored one. */
  function VerifyOtp(input: Option<string>, stored: Option<string>, expiry: Option<Millis>, now: Millis): (ok: bool)
    ensures ok ==> TruthyText(input) && input == stored && TruthyTime(expiry) && now <= expiry.value
  {
    if !TruthyText(input) || !TruthyText(stored) || !TruthyTime(expiry) then false
    else if now > expiry.value then false
    else input == stored
  }

  /** A stored, non-empty code is accepted when presented unchanged up to and
      including its expiry instant, and refused afterwards. */
  lemma StoredOtpAcceptedUntilExpiry(otp: string, expiry: Millis, now: Millis)
    requires otp != "" && expiry != 0
    ensures VerifyOtp(Some(otp), Some(otp), Some(expiry), now) <==> now <= expiry
  {
  }

  // ---------------------------------------------------------------------------
  // Rate-limit window
  // ---------------------------------------------------------------------------

  /** `attempts.filter(t => now - t < windowMs)`: exactly the timestamps
      inside the window, each as often as it was recorded, in order. */
  function Recent(attempts: seq<Millis>, now: Millis, windowMs: int): (r: seq<Millis>)
    ensures forall t :: multiset(r)[t] == if now - t < windowMs then multiset(attempts)[t] else 0
    ensures forall i :: 0 <= i < |r| ==> now - r[i] < windowMs
    ensures |r| <= |attempts|
  {
    if attempts == [] then []
    else
      var rest := Recent(attempts[1..], now, windowMs);
      assert attempts == [attempts[0]] + attempts[1..];
      if now - attempts[0] < windowMs then [attempts[0]] + rest else rest
  }

  /** `isRateLimited`: at least `maxAttempts` timestamps lie inside the window. */
  predicate IsRateLimited(attempts: seq<Millis>, windowMs: int, maxAttempts: int, now: Millis)
    ensures maxAttempts <= 0 ==> IsRateLimited(attempts, windowMs, maxAttempts, now)
    ensures |attempts| < maxAttempts ==> !IsRateLimited(attempts, windowMs, maxAttempts, now)
  {
    |Recent(attempts, now, windowMs)| >= maxAttempts
  }

  /** Old attempts never count: appending one outside the window leaves the
      verdict unchanged, and appending one inside it can only tighten it. */
  lemma {:induction false} RateLimitedIgnoresStale(attempts: seq<Millis>, t: Millis, windowMs: int, maxAttempts: int, now: Millis)
    ensures now - t >= windowMs ==>
              (IsRateLimited(attempts + [t], windowMs, maxAttempts, now) <==> IsRateLimited(attempts, windowMs, maxAttempts, now))
    ensures IsRateLimited(attempts, windowMs, maxAttempts, now) ==> IsRateLimited(attempts + [t], windowMs, maxAttempts, now)
  {
    var a := Recent(attempts, now, windowMs);
    var b := Recent(attempts + [t], now, windowMs);
    assert multiset(attempts + [t]) == multiset(attempts) + multiset{t};
    if now - t >= windowMs {
      assert multiset(b) == multiset(a);
      assert |b| == |multiset(b)| == |multiset(a)| == |a|;
    } else {
      assert multiset(b) == multiset(a) + multiset{t};
      assert |b| == |multiset(b)| == |multiset(a)| + 1 == |a| + 1;
    }
  }

  /** `getRateLimitKey`: the user id, when there is one, is appended after a colon. */
  function RateLimitKey(ip: string, userId: Option<Id>): (k: string)
    ensures StartsWith(k, ip)
    ensures TruthyText(userId) <==> |k| > |ip|
    ensures TruthyText(userId) ==> k[|ip|] == ':' && k[|ip| + 1..] == userId.value
  {
    if TruthyText(userId) then ip + ":" + userId.value else ip
  }

  /** Behind one IP, two requests share a limiter key exactly when both are
      anonymous or both carry the same user id. */
  lemma RateLimitKeySeparatesUsers(ip: string, a: Option<Id>, b: Option<Id>)
    ensures RateLimitKey(ip, a) == RateLimitKey(ip, b) <==>
              TruthyText(a) == TruthyText(b) && (TruthyText(a) ==> a.value == b.value)
  {
    var ka, kb := RateLimitKey(ip, a), RateLimitKey(ip, b);
    if ka == kb && TruthyText(a) && TruthyText(b) {
      assert a.value == ka[|ip| + 1..] == kb[|ip| + 1..] == b.value;
    }
  }

  // ---------------------------------------------------------------------------
  // Links and the token response
  // ---------------------------------------------------------------------------

  const ResetPath := "/reset-password?token="
  const VerifyPath := "/verify-email?token="

  /** `createPasswordResetURL`. */
  function ResetUrl(token: string, baseUrl: string): (u: string)
    ensures |u| == |baseUrl| + |ResetPath| + |token|
    ensures u[..|baseUrl|] == baseUrl && u[|baseUrl| + |ResetPath|..] == token
  {
    baseUrl + ResetPath + token
  }

  /** `createEmailVerificationURL`. */
  function VerificationUrl(token: string, baseUrl: string): (u: string)
    ensures |u| == |baseUrl| + |VerifyPath| + |token|
    ensures u[..|baseUrl|] == baseUrl && u[|baseUrl| + |VerifyPath|..] == token
  {
    baseUrl + VerifyPath + token
  }

  /** A link carries its token recoverably, and a reset link on a base can
      never be mistaken for a verification link on that base. */
  lemma LinksAreDistinct(t1: string, t2: string, baseUrl: string)
    ensures ResetUrl(t1, baseUrl) == ResetUrl(t2, baseUrl) <==> t1 == t2
    ensures ResetUrl(t1, baseUrl) != VerificationUrl(t2, baseUrl)
  {
    var r := ResetUrl(t1, baseUrl);
    var v := VerificationUrl(t2, baseUrl);
    assert r[|baseUrl| + 1] == 'r';
    assert v[|baseUrl| + 1] == 'v';
  }

  /** A JSON value of the response body. */
  datatype Json = JStr(s: string) | JBool(b: bool) | JNum(n: int) | JNull

  function OptText(v: Option<string>): Json {
    if v.Some? then JStr(v.value) else JNull
  }

  /** The fields of a user that `sendTokenResponse` copies into its
      `userResponse` object. */
  datatype PublicUser = PublicUser(
    id: Id, name: string, email: string, phone: string, role: Role, isActive: bool,
    isEmailVerified: bool, profilePicture: Option<string>, profile: RoleProfile)

  function Public(u: User): (p: PublicUser)
    reads u
    ensures p.id == u.id && p.email == u.email && p.role == u.role && p.profile == u.profile
  {
    PublicUser(u.id, u.name, u.email, u.phone, u.role, u.isActive, u.isEmailVerified, u.profilePicture, u.profile)
  }

  /** The `userResponse` object as JSON: the public fields plus the fields of
      the user's own profile. */
  function UserResponse(p: PublicUser): (m: map<string, Json>)
    ensures "_id" in m && "email" in m && "role" in m
    ensures m["_id"] == JStr(p.id) && m["email"] == JStr(p.email) && m["role"] == JStr(RoleName(p.role))
  {
    var common := map[
      "_id" := JStr(p.id), "name" := JStr(p.name), "email" := JStr(p.email),
      "phone" := JStr(p.phone), "role" := JStr(RoleName(p.role)),
      "isActive" := JBool(p.isActive), "isEmailVerified" := JBool(p.isEmailVerified),
      "profilePicture" := OptText(p.profilePicture)];
    match p.profile
    case DoctorProfile(spec, licence) =>
      common["specialization" := JStr(spec)]["licenseNumber" := JStr(licence)]
    case PatientProfile(dob, gender, bloodType, _, _, _) =>
      common["dateOfBirth" := JNum(dob)]["gender" := JStr(gender)]["bloodType" := JStr(bloodType)]
    case NoProfile => common
  }

  /** The response never carries a password, a secret or the lockout
      fields. */
  lemma UserResponseHasNoSecrets(p: PublicUser)
    ensures var m := UserResponse(p);
            && "password" !in m && "passwordResetToken" !in m && "emailVerificationToken" !in m
            && "loginAttempts" !in m && "lockUntil" !in m
  {
  }

  /** For a saved user, the role fields in the response are exactly those of
      its role. */
  lemma UserResponseFollowsRole(u: User)
    requires u.Valid()
    ensures var m := UserResponse(Public(u));
            && (("specialization" in m) <==> u.role == Doctor)
            && (("licenseNumber" in m) <==> u.role == Doctor)
            && (("dateOfBirth" in m) <==> u.role == Patient)
            && (("gender" in m) <==> u.role == Patient)
            && (("bloodType" in m) <==> u.role == Patient)
  {
  }

  /** Cookie lifetime: `JWT_COOKIE_EXPIRE` defaults to 7 days. */
  const CookieLifetimeMs := 7 * 24 * 60 * 60 * 1000

  datatype TokenResponse = TokenResponse(
    status: int, message: string, token: SessionToken, cookieExpires: Millis, user: PublicUser)

  /** `sendTokenResponse`: a fresh session token for the user, set both in the
      body and in an HTTP-only cookie that expires with it; the body's `user`
      object is `UserResponse(r.user)`. */
  function SendTokenResponse(u: User, status: int, message: string, now: Millis): (r: TokenResponse)
    reads u
    ensures r.status == status && r.token.userId == u.id && r.token.expiresAt == r.cookieExpires
    ensures r.user == Public(u)
  {
    TokenResponse(status, message, SignToken(u.id, now), now + CookieLifetimeMs, Public(u))
  }
}
