/** The `nostrconnect://` pairing URI and the wait for the signer's answer (src/nip46/pair.rs). */
module Pairing {
  import opened Base

  const PERCENT: Byte := '%' as int
  const AMP: Byte := '&' as int
  const EQUALS: Byte := '=' as int
  const QUESTION: Byte := '?' as int

  // ---- percent encoding (RFC 3986, sections 2.1 and 2.3) ----

  predicate IsAlphanumeric(b: Byte) {
    '0' as int <= b <= '9' as int || 'A' as int <= b <= 'Z' as int || 'a' as int <= b <= 'z' as int
  }

  predicate IsUnreserved(b: Byte) {
    IsAlphanumeric(b) || b == '-' as int || b == '.' as int || b == '_' as int || b == '~' as int
  }

  function HexDigit(n: int, letters: char): (b: Byte)
    requires 0 <= n < 16 && (letters == 'a' || letters == 'A')
    ensures IsAlphanumeric(b)
  {
    if n < 10 then '0' as int + n else letters as int + (n - 10)
  }

  /** The value of a hex digit of either case. */
  function DigitValue(b: Byte): (v: Option<int>)
    ensures v.Some? ==> 0 <= v.value < 16
  {
    if '0' as int <= b <= '9' as int then Some(b - '0' as int)
    else if 'A' as int <= b <= 'F' as int then Some(b - 'A' as int + 10)
    else if 'a' as int <= b <= 'f' as int then Some(b - 'a' as int + 10)
    else None
  }

  function EncodedByte(b: Byte): Bytes {
    if IsUnreserved(b) then [b] else [PERCENT, HexDigit(b / 16, 'A'), HexDigit(b % 16, 'A')]
  }

  function PctEncode(s: Bytes): Bytes {
    if s == [] then [] else EncodedByte(s[0]) + PctEncode(s[1..])
  }

  /** Percent-decoding; a '%' that is not followed by two hex digits stands for itself. */
  function PctDecode(s: Bytes): Bytes {
    if s == [] then []
    else if s[0] == PERCENT && |s| >= 3 && DigitValue(s[1]).Some? && DigitValue(s[2]).Some? then
      [16 * DigitValue(s[1]).value + DigitValue(s[2]).value] + PctDecode(s[3..])
    else [s[0]] + PctDecode(s[1..])
  }

  lemma DecodeByte(b: Byte, rest: Bytes)
    ensures PctDecode(EncodedByte(b) + rest) == [b] + PctDecode(rest)
  {
    var s := EncodedByte(b) + rest;
    if IsUnreserved(b) {
      assert s[1..] == rest;
    } else {
      assert s[3..] == rest;
      assert s[1] == HexDigit(b / 16, 'A') && s[2] == HexDigit(b % 16, 'A');
      assert 16 * (b / 16) + b % 16 == b;
    }
  }

  /** Decoding undoes encoding, for every byte string. */
  lemma {:induction false} PctRoundTrip(s: Bytes)
    ensures PctDecode(PctEncode(s)) == s
  {
    if s != [] {
      DecodeByte(s[0], PctEncode(s[1..]));
      PctRoundTrip(s[1..]);
    }
  }

  /** Encoded text holds nothing but unreserved characters and '%'. */
  lemma {:induction false} EncodedIsClean(s: Bytes)
    ensures forall b :: b in PctEncode(s) ==> IsUnreserved(b) || b == PERCENT
  {
    if s != [] {
      EncodedIsClean(s[1..]);
    }
  }

  /** Bytes are printed one by one. */
  lemma {:induction false} EncodesEach(s: Bytes, t: Bytes)
    ensures PctEncode(s + t) == PctEncode(s) + PctEncode(t)
  {
    hide EncodedByte;
    if s == [] {
      assert s + t == t;
    } else {
      EncodesEach(s[1..], t);
      assert (s + t)[1..] == s[1..] + t;
    }
  }

  ghost predicate UpperDigit(b: Byte, value: int) {
    DigitValue(b) == Some(value) && !('a' as int <= b <= 'f' as int)
  }

  ghost predicate LowerDigit(b: Byte, value: int) {
    DigitValue(b) == Some(value) && !('A' as int <= b <= 'F' as int)
  }

  /** Letters, digits, '-', '.', '_' and '~' stay readable; any other byte is '%' and its two
      upper-case hex digits. */
  lemma EncodedByteIs(b: Byte)
    ensures
      if '0' as int <= b <= '9' as int || 'A' as int <= b <= 'Z' as int || 'a' as int <= b <= 'z' as int ||
         b in {0x2d, 0x2e, 0x5f, 0x7e}
      then PctEncode([b]) == [b]
      else |PctEncode([b])| == 3 && PctEncode([b])[0] == 0x25
           && UpperDigit(PctEncode([b])[1], b / 16) && UpperDigit(PctEncode([b])[2], b % 16)
  {
    assert PctEncode([b]) == EncodedByte(b) + PctEncode([b][1..]);
    assert [b][1..] == [];
  }

  lemma {:induction false} UnreservedStays(s: Bytes)
    requires forall i :: 0 <= i < |s| ==> IsUnreserved(s[i])
    ensures PctEncode(s) == s
  {
    if s != [] {
      UnreservedStays(s[1..]);
      assert s == [s[0]] + s[1..];
    }
  }

  // ---- the printer ----

  function Hex(h: Bytes): (s: Bytes)
    ensures |s| == 2 * |h|
    ensures forall b :: b in s ==> IsAlphanumeric(b)
  {
    if h == [] then [] else [HexDigit(h[0] / 16, 'a'), HexDigit(h[0] % 16, 'a')] + Hex(h[1..])
  }

  /** A byte is printed as its two lower-case hex digits, high digit first. */
  lemma {:induction false} HexDigitsOf(h: Bytes, i: nat)
    requires i < |h|
    ensures LowerDigit(Hex(h)[2 * i], h[i] / 16) && LowerDigit(Hex(h)[2 * i + 1], h[i] % 16)
  {
    assert LowerDigit(HexDigit(h[0] / 16, 'a'), h[0] / 16) && LowerDigit(HexDigit(h[0] % 16, 'a'), h[0] % 16);
    if i > 0 {
      HexDigitsOf(h[1..], i - 1);
    }
  }

  lemma {:induction false} HexInjective(a: Bytes, b: Bytes)
    requires Hex(a) == Hex(b)
    ensures a == b
  {
    assert |a| == |b|;
    if a != [] {
      assert DigitValue(Hex(a)[0]) == Some(a[0] / 16) && DigitValue(Hex(a)[1]) == Some(a[0] % 16);
      assert DigitValue(Hex(b)[0]) == Some(b[0] / 16) && DigitValue(Hex(b)[1]) == Some(b[0] % 16);
      assert Hex(a)[2..] == Hex(a[1..]) && Hex(b)[2..] == Hex(b[1..]);
      HexInjective(a[1..], b[1..]);
      assert a == [a[0]] + a[1..] && b == [b[0]] + b[1..];
    }
  }

  const SCHEME: Bytes := Ascii("nostrconnect://")
  const RELAY: Bytes := Ascii("relay")
  const SECRET: Bytes := Ascii("secret")
  const NAME: Bytes := Ascii("name")
  const PERMS: Bytes := Ascii("perms")
  const APP_NAME: Bytes := Ascii("narwal-cli")
  const APP_PERMS: Bytes := Ascii("sign_event:24242,sign_event:17091,sign_event:37091")

  /** One `key=value` of the query. */
  function Part(key: Bytes, value: Bytes): Bytes {
    key + [EQUALS] + PctEncode(value)
  }

  function Join(parts: seq<Bytes>): Bytes {
    if parts == [] then []
    else if |parts| == 1 then parts[0]
    else Join(parts[..|parts| - 1]) + [AMP] + parts[|parts| - 1]
  }

  function RelayParts(relays: seq<Bytes>): seq<Bytes> {
    seq(|relays|, i requires 0 <= i < |relays| => Part(RELAY, relays[i]))
  }

  /** The query's parts. Without relays the query starts with '&', as if its first part
      were empty. */
  function Parts(relays: seq<Bytes>, secret: Bytes): seq<Bytes> {
    (if relays == [] then [[]] else RelayParts(relays))
    + [Part(SECRET, secret), Part(NAME, APP_NAME), Part(PERMS, APP_PERMS)]
  }

  function UriOf(appPubkey: Hash, relays: seq<Bytes>, secret: Bytes): Bytes {
    SCHEME + Hex(appPubkey) + [QUESTION] + Join(Parts(relays, secret))
  }

  /** The relay parameters of the URI. */
  function RelayText(relays: seq<Bytes>): Bytes {
    if relays == [] then [] else
      var front := relays[..|relays| - 1];
      (if front == [] then [] else RelayText(front) + Ascii("&")) + Ascii("relay=") + PctEncode(relays[|relays| - 1])
  }

  lemma {:induction false} JoinRelays(relays: seq<Bytes>)
    requires relays != []
    ensures Join(RelayParts(relays)) == RelayText(relays)
  {
    hide PctEncode;
    var front, parts := relays[..|relays| - 1], RelayParts(relays);
    assert Ascii("relay=") == RELAY + [EQUALS] && Ascii("&") == [AMP];
    assert parts[..|parts| - 1] == RelayParts(front);
    if front != [] {
      JoinRelays(front);
    }
  }

  function QueryText(relays: seq<Bytes>, secret: Bytes): Bytes {
    RelayText(relays) + (Ascii("&secret=") + PctEncode(secret)) + Ascii("&name=narwal-cli") +
    (Ascii("&perms=") + PctEncode(Ascii("sign_event:24242,sign_event:17091,sign_event:37091")))
  }

  /** The whole text of the URI. */
  lemma UriLayout(appPubkey: Hash, relays: seq<Bytes>, secret: Bytes)
    ensures UriOf(appPubkey, relays, secret) ==
      Ascii("nostrconnect://") + Hex(appPubkey) + Ascii("?") + QueryText(relays, secret)
  {
    StartText();
    hide Hex, QueryText, Ascii, Join, Parts;
    QueryIs(relays, secret);
  }

  lemma QueryIs(relays: seq<Bytes>, secret: Bytes)
    ensures Join(Parts(relays, secret)) == QueryText(relays, secret)
  {
    SecretText(secret);
    NameText();
    PermsText();
    RelaysFirst(relays);
    hide Part, PctEncode, Join, RelayText, Ascii;
    var first := if relays == [] then [[]] else RelayParts(relays);
    ThreeMore(first, Part(SECRET, secret), Part(NAME, APP_NAME), Part(PERMS, APP_PERMS));
    assert Parts(relays, secret) == first + [Part(SECRET, secret), Part(NAME, APP_NAME), Part(PERMS, APP_PERMS)];
  }

  lemma ThreeMore(first: seq<Bytes>, a: Bytes, b: Bytes, c: Bytes)
    requires first != []
    ensures Join(first + [a, b, c]) == Join(first) + ([AMP] + a) + ([AMP] + b) + ([AMP] + c)
  {
    hide Join;
    JoinPush(first, a);
    JoinPush(first + [a], b);
    JoinPush(first + [a] + [b], c);
    assert first + [a] + [b] + [c] == first + [a, b, c];
  }

  lemma StartText()
    ensures SCHEME == Ascii("nostrconnect://") && [QUESTION] == Ascii("?")
  {
  }

  lemma SecretText(secret: Bytes)
    ensures [AMP] + Part(SECRET, secret) == Ascii("&secret=") + PctEncode(secret)
  {
    hide PctEncode;
    assert Ascii("&secret=") == [AMP] + SECRET + [EQUALS];
  }

  lemma NameText()
    ensures [AMP] + Part(NAME, APP_NAME) == Ascii("&name=narwal-cli")
  {
    AppNameStays();
    hide PctEncode;
    assert Ascii("&name=narwal-cli") == [AMP] + NAME + [EQUALS] + APP_NAME;
  }

  lemma AppNameStays()
    ensures PctEncode(APP_NAME) == APP_NAME
  {
    hide PctEncode;
    UnreservedStays(APP_NAME);
  }

  lemma PermsText()
    ensures [AMP] + Part(PERMS, APP_PERMS) ==
      Ascii("&perms=") + PctEncode(Ascii("sign_event:24242,sign_event:17091,sign_event:37091"))
  {
    hide PctEncode;
    assert Ascii("&perms=") == [AMP] + PERMS + [EQUALS];
  }

  lemma RelaysFirst(relays: seq<Bytes>)
    ensures Join(if relays == [] then [[]] else RelayParts(relays)) == RelayText(relays)
  {
    if relays == [] {
      JoinSmall();
    } else {
      JoinRelays(relays);
    }
  }

  lemma JoinPush(parts: seq<Bytes>, part: Bytes)
    requires parts != []
    ensures Join(parts + [part]) == Join(parts) + [AMP] + part
  {
    var all := parts + [part];
    assert all[..|all| - 1] == parts;
  }

  lemma PartNotEmpty(key: Bytes, value: Bytes)
    ensures Part(key, value) != []
  {
  }

  method PairingUri(appPubkey: Hash, relays: seq<Bytes>, secret: Bytes) returns (uri: Bytes)
    ensures uri == UriOf(appPubkey, relays, secret)
  {
    hide Part, PctEncode, Join;
    var q: Bytes := [];
    assert Join([]) == [] && Join([[]]) == [] by {
      JoinSmall();
    }
    for i := 0 to |relays|
      invariant q == Join(RelayParts(relays)[..i])
      invariant i > 0 ==> q != []
    {
      ghost var done := RelayParts(relays)[..i];
      PartNotEmpty(RELAY, relays[i]);
      if q != [] {
        q := q + [AMP];
        JoinPush(done, Part(RELAY, relays[i]));
      } else {
        assert done + [Part(RELAY, relays[i])] == [Part(RELAY, relays[i])];
        JoinOne(Part(RELAY, relays[i]));
      }
      q := q + Part(RELAY, relays[i]);
      assert RelayParts(relays)[..i + 1] == done + [Part(RELAY, relays[i])];
    }
    ghost var first := if relays == [] then [[]] else RelayParts(relays);
    assert relays != [] ==> RelayParts(relays)[..|relays|] == RelayParts(relays);
    assert q == Join(first);
    q := q + [AMP] + Part(SECRET, secret);
    JoinPush(first, Part(SECRET, secret));
    q := q + [AMP] + Part(NAME, APP_NAME);
    JoinPush(first + [Part(SECRET, secret)], Part(NAME, APP_NAME));
    q := q + [AMP] + Part(PERMS, APP_PERMS);
    JoinPush(first + [Part(SECRET, secret)] + [Part(NAME, APP_NAME)], Part(PERMS, APP_PERMS));
    assert Parts(relays, secret) == first + [Part(SECRET, secret)] + [Part(NAME, APP_NAME)] + [Part(PERMS, APP_PERMS)];
    uri := SCHEME + Hex(appPubkey) + [QUESTION] + q;
  }

  lemma JoinSmall()
    ensures Join([]) == [] && Join([[]]) == []
  {
  }

  lemma JoinOne(part: Bytes)
    ensures Join([part]) == part
  {
  }

  // ---- the parser ----

  /** The text before and after the first `c`. */
  function SplitOnce(s: Bytes, c: Byte): Option<(Bytes, Bytes)> {
    if s == [] then None
    else if s[0] == c then Some(([], s[1..]))
    else
      var (before, after) :- SplitOnce(s[1..], c);
      Some(([s[0]] + before, after))
  }

  /** All the pieces between occurrences of `c`. */
  function Split(s: Bytes, c: Byte): (parts: seq<Bytes>)
    ensures parts != []
  {
    if s == [] then [[]]
    else
      var rest := Split(s[1..], c);
      if s[0] == c then [[]] + rest else [[s[0]] + rest[0]] + rest[1..]
  }

  /** The decoded key-value pairs of a query, or None when a part has no '='. */
  function Pairs(parts: seq<Bytes>): Option<seq<(Bytes, Bytes)>> {
    if parts == [] then Some([]) else
      var (key, value) :- SplitOnce(parts[0], EQUALS);
      var rest :- Pairs(parts[1..]);
      Some([(key, PctDecode(value))] + rest)
  }

  function ParseUri(uri: Bytes): Option<seq<(Bytes, Bytes)>> {
    var (_, query) :- SplitOnce(uri, QUESTION);
    Pairs(Split(query, AMP))
  }

  function ValuesOf(pairs: seq<(Bytes, Bytes)>, key: Bytes): seq<Bytes> {
    if pairs == [] then []
    else if pairs[0].0 == key then [pairs[0].1] + ValuesOf(pairs[1..], key)
    else ValuesOf(pairs[1..], key)
  }

  lemma {:induction false} SplitOnceAt(before: Bytes, c: Byte, after: Bytes)
    requires c !in before
    ensures SplitOnce(before + [c] + after, c) == Some((before, after))
  {
    var s := before + [c] + after;
    if before != [] {
      SplitOnceAt(before[1..], c, after);
      assert s[1..] == before[1..] + [c] + after;
      assert before == [before[0]] + before[1..];
    }
  }

  lemma {:induction false} SplitClean(s: Bytes, c: Byte)
    requires c !in s
    ensures Split(s, c) == [s]
  {
    if s != [] {
      SplitClean(s[1..], c);
      assert s == [s[0]] + s[1..];
    }
  }

  lemma {:induction false} SplitLast(s: Bytes, c: Byte, last: Bytes)
    requires c !in last
    ensures Split(s + [c] + last, c) == Split(s, c) + [last]
  {
    var all := s + [c] + last;
    if s == [] {
      assert all[1..] == last;
      SplitClean(last, c);
    } else {
      SplitLast(s[1..], c, last);
      assert all[1..] == s[1..] + [c] + last;
    }
  }

  lemma {:induction false} SplitJoin(parts: seq<Bytes>)
    requires parts != [] && forall i :: 0 <= i < |parts| ==> AMP !in parts[i]
    ensures Split(Join(parts), AMP) == parts
  {
    var last := parts[|parts| - 1];
    if |parts| == 1 {
      SplitClean(last, AMP);
    } else {
      SplitJoin(parts[..|parts| - 1]);
      SplitLast(Join(parts[..|parts| - 1]), AMP, last);
    }
  }

  predicate IsKey(key: Bytes) {
    key in {RELAY, SECRET, NAME, PERMS}
  }

  lemma KeyClean(key: Bytes)
    requires IsKey(key)
    ensures AMP !in key && EQUALS !in key
  {
  }

  lemma PartClean(key: Bytes, value: Bytes)
    requires IsKey(key)
    ensures AMP !in Part(key, value) && SplitOnce(Part(key, value), EQUALS) == Some((key, PctEncode(value)))
    ensures PctDecode(PctEncode(value)) == value
  {
    hide IsKey, PctEncode, PctDecode, SplitOnce;
    EncodedIsClean(value);
    PctRoundTrip(value);
    KeyClean(key);
    SplitOnceAt(key, EQUALS, PctEncode(value));
  }

  /** The pairs a pairing URI carries. */
  function Carried(relays: seq<Bytes>, secret: Bytes): seq<(Bytes, Bytes)> {
    seq(|relays|, i requires 0 <= i < |relays| => (RELAY, relays[i]))
    + [(SECRET, secret), (NAME, APP_NAME), (PERMS, APP_PERMS)]
  }

  lemma {:induction false} PairsOfParts(pairs: seq<(Bytes, Bytes)>)
    requires forall i :: 0 <= i < |pairs| ==> IsKey(pairs[i].0)
    ensures Pairs(seq(|pairs|, i requires 0 <= i < |pairs| => Part(pairs[i].0, pairs[i].1))) == Some(pairs)
  {
    hide Part, PctDecode, SplitOnce, PctEncode;
    var parts := seq(|pairs|, i requires 0 <= i < |pairs| => Part(pairs[i].0, pairs[i].1));
    if pairs != [] {
      PartClean(pairs[0].0, pairs[0].1);
      PairsOfParts(pairs[1..]);
      assert parts[1..] == seq(|pairs| - 1, i requires 0 <= i < |pairs| - 1 => Part(pairs[1..][i].0, pairs[1..][i].1));
      assert pairs == [pairs[0]] + pairs[1..];
    }
  }

  lemma QuerySplits(relays: seq<Bytes>, secret: Bytes)
    ensures Split(Join(Parts(relays, secret)), AMP) == Parts(relays, secret)
  {
    hide Part, Join, Split, PctEncode, PctDecode, SplitOnce;
    PartClean(SECRET, secret);
    PartClean(NAME, APP_NAME);
    PartClean(PERMS, APP_PERMS);
    forall i | 0 <= i < |relays|
      ensures AMP !in RelayParts(relays)[i]
    {
      PartClean(RELAY, relays[i]);
    }
    SplitJoin(Parts(relays, secret));
  }

  lemma SchemeClean()
    ensures QUESTION !in SCHEME
  {
  }

  lemma QueryOf(appPubkey: Hash, relays: seq<Bytes>, secret: Bytes)
    ensures SplitOnce(UriOf(appPubkey, relays, secret), QUESTION) ==
      Some((SCHEME + Hex(appPubkey), Join(Parts(relays, secret))))
  {
    hide Hex, Join, Parts, SplitOnce;
    SchemeClean();
    SplitOnceAt(SCHEME + Hex(appPubkey), QUESTION, Join(Parts(relays, secret)));
  }

  /** The URI parses back exactly when it names a relay, and then every part is recovered. */
  lemma UriRoundTrip(appPubkey: Hash, relays: seq<Bytes>, secret: Bytes)
    ensures ParseUri(UriOf(appPubkey, relays, secret)).Some? <==> relays != []
    ensures relays != [] ==> ParseUri(UriOf(appPubkey, relays, secret)) == Some(Carried(relays, secret))
  {
    hide Part, Join, Split, PctDecode, UriOf;
    QueryOf(appPubkey, relays, secret);
    QuerySplits(relays, secret);
    if relays != [] {
      var pairs := Carried(relays, secret);
      PairsOfParts(pairs);
      assert seq(|pairs|, i requires 0 <= i < |pairs| => Part(pairs[i].0, pairs[i].1)) == Parts(relays, secret);
    }
  }

  lemma {:induction false} RelayValues(relays: seq<Bytes>, tail: seq<(Bytes, Bytes)>, key: Bytes)
    ensures ValuesOf(seq(|relays|, i requires 0 <= i < |relays| => (RELAY, relays[i])) + tail, key) ==
      (if key == RELAY then relays else []) + ValuesOf(tail, key)
  {
    var pairs := seq(|relays|, i requires 0 <= i < |relays| => (RELAY, relays[i]));
    if relays == [] {
      assert pairs + tail == tail;
    } else {
      RelayValues(relays[1..], tail, key);
      assert (pairs + tail)[1..] == seq(|relays| - 1, i requires 0 <= i < |relays| - 1 => (RELAY,
        relays[1..][i])) + tail;
    }
  }

  /** Looking a key up in the parsed pairs gives the relays in order, the secret, the
      name and the permissions. */
  lemma CarriedValues(relays: seq<Bytes>, secret: Bytes)
    ensures ValuesOf(Carried(relays, secret), Ascii("relay")) == relays
    ensures ValuesOf(Carried(relays, secret), Ascii("secret")) == [secret]
    ensures ValuesOf(Carried(relays, secret), Ascii("name")) == [Ascii("narwal-cli")]
    ensures ValuesOf(Carried(relays, secret), Ascii("perms")) ==
      [Ascii("sign_event:24242,sign_event:17091,sign_event:37091")]
  {
    var tail := [(SECRET, secret), (NAME, APP_NAME), (PERMS, APP_PERMS)];
    KeysDiffer();
    forall key | IsKey(key)
      ensures ValuesOf(Carried(relays, secret), key) == (if key == RELAY then relays else []) +
        (if key == SECRET then [secret] else if key == NAME then [APP_NAME] else if key == PERMS then [APP_PERMS] else
          [])
    {
      RelayValues(relays, tail, key);
      assert tail[1..] == [(NAME, APP_NAME), (PERMS, APP_PERMS)];
      assert [(NAME, APP_NAME), (PERMS, APP_PERMS)][1..] == [(PERMS, APP_PERMS)];
      assert ValuesOf([(PERMS, APP_PERMS)], key) == if key == PERMS then [APP_PERMS] else [];
      assert ValuesOf([(NAME, APP_NAME), (PERMS, APP_PERMS)], key) ==
        if key == NAME then [APP_NAME] else if key == PERMS then [APP_PERMS] else [];
    }
  }

  lemma KeysDiffer()
    ensures RELAY != SECRET && RELAY != NAME && RELAY != PERMS
    ensures SECRET != NAME && SECRET != PERMS && NAME != PERMS
  {
    assert |RELAY| == 5 && |SECRET| == 6 && |NAME| == 4 && |PERMS| == 5;
    assert RELAY[0] != PERMS[0];
  }

  lemma PartInjective(key: Bytes, a: Bytes, b: Bytes)
    requires Part(key, a) == Part(key, b)
    ensures a == b
  {
    assert Part(key, a)[|key| + 1..] == PctEncode(a) && Part(key, b)[|key| + 1..] == PctEncode(b);
    PctRoundTrip(a);
    PctRoundTrip(b);
  }

  /** Different keys, relay lists or secrets never print the same URI. */
  lemma UriInjective(pk: Hash, pk': Hash, relays: seq<Bytes>, relays': seq<Bytes>, secret: Bytes, secret': Bytes)
    requires UriOf(pk, relays, secret) == UriOf(pk', relays', secret')
    ensures pk == pk' && relays == relays' && secret == secret'
  {
    hide Part, Join, Split, PctEncode, PctDecode, UriOf, Hex;
    QueryOf(pk, relays, secret);
    QueryOf(pk', relays', secret');
    assert (SCHEME + Hex(pk))[|SCHEME|..] == Hex(pk) && (SCHEME + Hex(pk'))[|SCHEME|..] == Hex(pk');
    HexInjective(pk, pk');
    QuerySplits(relays, secret);
    QuerySplits(relays', secret');
    var parts, n := Parts(relays, secret), |Parts(relays, secret)|;
    assert parts == Parts(relays', secret');
    assert parts[n - 3] == Part(SECRET, secret) && parts[n - 3] == Part(SECRET, secret');
    PartInjective(SECRET, secret, secret');
    assert relays == [] ==> parts[0] == [];
    assert relays' == [] ==> parts[0] == [];
    PartNotEmpty(RELAY, if relays == [] then [] else relays[0]);
    PartNotEmpty(RELAY, if relays' == [] then [] else relays'[0]);
    assert relays != [] ==> parts[0] == Part(RELAY, relays[0]);
    assert relays' != [] ==> parts[0] == Part(RELAY, relays'[0]);
    assert |relays| == |relays'|;
    forall i | 0 <= i < |relays|
      ensures relays[i] == relays'[i]
    {
      assert parts[i] == Part(RELAY, relays[i]) && parts[i] == Part(RELAY, relays'[i]);
      PartInjective(RELAY, relays[i], relays'[i]);
    }
  }

  // ---- waiting for the signer ----

  /** A kind-24133 event: who signed it and its encrypted content. */
  datatype SignerEvent = SignerEvent(author: Bytes, content: Bytes)

  /** Library code: decrypting an event against its author, and the string in the
      `result` field of a JSON body. */
  datatype Opener = Opener(decrypt: SignerEvent -> Option<Bytes>, resultField: Bytes -> Option<Bytes>)

  datatype WaitError = TimedOut | StreamClosed

  /** What one turn of the waiting loop sees. */
  datatype Turn = DeadlinePassed | Arrived(event: SignerEvent) | Closed

  /** The author of an event that echoes the secret. */
  function TryAccept(opener: Opener, secret: Bytes, event: SignerEvent): Option<Bytes> {
    var plaintext :- opener.decrypt(event);
    var echoed :- opener.resultField(plaintext);
    if echoed == secret then Some(event.author) else None
  }

  /** An event that decrypts to a body whose `result` is the secret. */
  ghost predicate Echoes(opener: Opener, secret: Bytes, event: SignerEvent) {
    opener.decrypt(event).Some? && opener.resultField(opener.decrypt(event).value) == Some(secret)
  }

  /** Before turn `i` there is nothing but events that do not echo the secret. */
  ghost predicate Passed(opener: Opener, secret: Bytes, turns: seq<Turn>, i: int) {
    forall j :: 0 <= j < i && j < |turns| ==> turns[j].Arrived? && !Echoes(opener, secret, turns[j].event)
  }

  /** Turn `i` is the first that is not a passed-over event, and it echoes the secret. */
  ghost predicate EchoedAt(opener: Opener, secret: Bytes, turns: seq<Turn>, i: nat) {
    && i < |turns| && turns[i].Arrived? && Echoes(opener, secret, turns[i].event)
    && Passed(opener, secret, turns, i)
  }

  /** The pairing ends with an author exactly when an event echoing the secret arrives
      before the deadline and before the stream closes, and it is the first such; otherwise
      it ends with what came first. The turns are any finite behaviour of the stream; one
      that ends has passed the deadline. */
  method AwaitConnectResponse(opener: Opener, secret: Bytes, turns: seq<Turn>) returns (r: Result<Bytes, WaitError>)
    ensures forall author :: r == Ok(author) <==>
      exists i: nat :: EchoedAt(opener, secret, turns, i) && turns[i].event.author == author
    ensures r == Err(StreamClosed) <==>
      exists i :: 0 <= i < |turns| && turns[i].Closed? && Passed(opener, secret, turns, i)
    ensures r == Err(TimedOut) <==>
      || Passed(opener, secret, turns, |turns|)
      || exists i :: 0 <= i < |turns| && turns[i].DeadlinePassed? && Passed(opener, secret, turns, i)
  {
    for i := 0 to |turns|
      invariant Passed(opener, secret, turns, i)
    {
      match turns[i]
      case DeadlinePassed =>
        return Err(TimedOut);
      case Closed =>
        return Err(StreamClosed);
      case Arrived(event) =>
        var accepted := TryAccept(opener, secret, event);
        if accepted.Some? {
          assert EchoedAt(opener, secret, turns, i);
          return Ok(accepted.value);
        }
    }
    r := Err(TimedOut);
  }
}
