/** The nhash identifier: TLV records inside bech32 (src/nhash.rs, src/tree_reader.rs:68-109). */
module Nhash {
  import opened Base

  const TLV_HASH: Byte := 0

  /** The bech32 codec (BIP-173, section "Bech32"): human-readable part and data. */
  datatype Bech32 = Bech32(encode: (Bytes, Bytes) -> Bytes, decode: Bytes -> Option<(Bytes, Bytes)>)

  /** The codec is only assumed to return short payloads under the nhash prefix. */
  ghost predicate LosslessBech32(codec: Bech32) {
    forall data :: |data| <= 34 ==> codec.decode(codec.encode(NHASH, data)) == Some((NHASH, data))
  }

  datatype NhashError = NotHtree | BadBech32 | WrongHrp | Truncated | TruncatedValue | NoHash

  // ---- records ----

  type Value = v: Bytes | |v| < 256 witness []

  datatype Record = Record(tag: Byte, value: Value)

  function PutRecord(r: Record): Bytes {
    [r.tag, |r.value|] + r.value
  }

  function PutRecords(rs: seq<Record>): Bytes {
    if rs == [] then [] else PutRecord(rs[0]) + PutRecords(rs[1..])
  }

  predicate IsHash(r: Record) {
    r.tag == TLV_HASH && |r.value| == 32
  }

  // ---- the parser ----

  /** The parser's loop over what is left of the data. */
  function ParseFrom(data: Bytes): Result<Hash, NhashError>
    decreases |data|
  {
    if data == [] then Err(NoHash)
    else if |data| < 2 then Err(Truncated)
    else if |data| < 2 + data[1] as int then Err(TruncatedValue)
    else if data[0] == TLV_HASH && data[1] == 32 then Ok(data[2..34])
    else ParseFrom(data[2 + data[1]..])
  }

  method ParseTlv(data: Bytes) returns (r: Result<Hash, NhashError>)
    ensures r == ParseFrom(data)
  {
    var i := 0;
    while i < |data|
      invariant 0 <= i <= |data|
      invariant ParseFrom(data) == ParseFrom(data[i..])
      decreases |data| - i
    {
      ghost var left := data[i..];
      if i + 2 > |data| {
        return Err(Truncated);
      }
      var tlvType := data[i];
      var tlvLen := data[i + 1];
      assert left[0] == tlvType && left[1] == tlvLen;
      i := i + 2;
      if i + tlvLen > |data| {
        return Err(TruncatedValue);
      }
      if tlvType == TLV_HASH && tlvLen == 32 {
        assert left[2..34] == data[i..i + 32];
        return Ok(data[i..i + 32]);
      }
      i := i + tlvLen;
      assert left[2 + left[1]..] == data[i..];
    }
    r := Err(NoHash);
  }

  /** The first record that is a hash, if any. */
  function FirstHash(rs: seq<Record>): Option<Hash> {
    if rs == [] then None else if IsHash(rs[0]) then Some(rs[0].value) else FirstHash(rs[1..])
  }

  /** Parsing skips a record that is not a hash and stops at one that is. */
  lemma ParseRecord(r: Record, rest: Bytes)
    ensures ParseFrom(PutRecord(r) + rest) == if IsHash(r) then Ok(r.value) else ParseFrom(rest)
  {
    var data := PutRecord(r) + rest;
    assert data[0] == r.tag && data[1] == |r.value|;
    assert data[2..2 + |r.value|] == r.value && data[2 + |r.value|..] == rest;
  }

  /** On the serialisation of any records the parser returns the first hash record, and
      fails, with `NoHash`, exactly when there is none. */
  lemma {:induction false} ParseRecords(rs: seq<Record>)
    ensures ParseFrom(PutRecords(rs)) ==
      match FirstHash(rs) case Some(h) => Ok(h) case None => Err(NoHash)
  {
    if rs != [] {
      ParseRecord(rs[0], PutRecords(rs[1..]));
      ParseRecords(rs[1..]);
    }
  }

  /** No record of type 0 has 32 bytes. */
  ghost predicate NoneIsHash(rs: seq<Record>) {
    forall i :: 0 <= i < |rs| ==> rs[i].tag != 0 || |rs[i].value| != 32
  }

  /** Data whose first hash record, after other complete records, is `h`. */
  ghost predicate Shows(data: Bytes, rs: seq<Record>, h: Hash, rest: Bytes) {
    NoneIsHash(rs) && data == PutRecords(rs) + ([0, 32] + h + rest)
  }

  /** Data whose complete records, none of them a hash, are followed by `rest`. */
  ghost predicate EndsIn(data: Bytes, rs: seq<Record>, rest: Bytes) {
    NoneIsHash(rs) && data == PutRecords(rs) + rest
  }

  /** Data that break off in a record's value. */
  ghost predicate CutShort(rest: Bytes) {
    |rest| >= 2 && |rest| - 2 < rest[1]
  }

  /** On arbitrary bytes: the parser accepts exactly the data that are complete records
      up to a hash record, whatever follows it; the errors are for complete records without
      a hash, a lone type byte after them, and a value that breaks off. */
  lemma ParseExact(data: Bytes, h: Hash)
    ensures ParseFrom(data) == Ok(h) <==> exists rs, rest :: Shows(data, rs, h, rest)
    ensures ParseFrom(data) == Err(NoHash) <==> exists rs :: EndsIn(data, rs, [])
    ensures ParseFrom(data) == Err(Truncated) <==> exists rs, b :: EndsIn(data, rs, [b])
    ensures ParseFrom(data) == Err(TruncatedValue) <==> exists rs, rest :: EndsIn(data, rs, rest) && CutShort(rest)
  {
    var rs, rest := ParseSplits(data);
    StopsAt(rest);
    hide ParseFrom, NoneIsHash, PutRecords;
    if |rest| == 0 {
      assert EndsIn(data, rs, []);
    } else if |rest| == 1 {
      assert EndsIn(data, rs, [rest[0]]);
    } else if !CutShort(rest) {
      assert Shows(data, rs, rest[2..34], rest[34..]);
    }
    if rs', rest' :| Shows(data, rs', h, rest') {
      ParseSkips(rs', [0, 32] + h + rest');
      HashStops(h, rest');
    }
    if rs' :| EndsIn(data, rs', []) {
      ParseSkips(rs', []);
      StopsAt([]);
    }
    if rs', b :| EndsIn(data, rs', [b]) {
      ParseSkips(rs', [b]);
      StopsAt([b]);
    }
    if rs', rest' :| EndsIn(data, rs', rest') && CutShort(rest') {
      ParseSkips(rs', rest');
      StopsAt(rest');
    }
  }

  /** How the parser decides where it stops. */
  lemma StopsAt(rest: Bytes)
    ensures |rest| == 0 ==> ParseFrom(rest) == Err(NoHash)
    ensures |rest| == 1 ==> ParseFrom(rest) == Err(Truncated)
    ensures CutShort(rest) ==> ParseFrom(rest) == Err(TruncatedValue)
    ensures |rest| >= 34 && rest[0] == 0 && rest[1] == 32 ==>
      ParseFrom(rest) == Ok(rest[2..34]) && rest == [0, 32] + rest[2..34] + rest[34..]
  {
  }

  lemma HashStops(h: Hash, rest: Bytes)
    ensures ParseFrom([0, 32] + h + rest) == Ok(h)
  {
    ParseRecord(Record(0, h), rest);
    assert PutRecord(Record(0, h)) + rest == [0, 32] + h + rest;
  }

  lemma {:induction false} ParseSkips(rs: seq<Record>, rest: Bytes)
    requires NoneIsHash(rs)
    ensures ParseFrom(PutRecords(rs) + rest) == ParseFrom(rest)
  {
    if rs == [] {
      assert PutRecords(rs) + rest == rest;
    } else {
      ParseSkips(rs[1..], rest);
      ParseRecord(rs[0], PutRecords(rs[1..]) + rest);
      assert PutRecords(rs) + rest == PutRecord(rs[0]) + (PutRecords(rs[1..]) + rest);
    }
  }

  lemma FirstRecord(data: Bytes)
    requires |data| >= 2 && |data| >= 2 + data[1] as int
    ensures data == PutRecord(Record(data[0], data[2..2 + data[1] as int])) + data[2 + data[1] as int..]
  {
  }

  /** Data split where the parser stops. */
  lemma {:induction false} ParseSplits(data: Bytes) returns (rs: seq<Record>, rest: Bytes)
    ensures EndsIn(data, rs, rest) && ParseFrom(data) == ParseFrom(rest)
    ensures |rest| < 2 || CutShort(rest) || (|rest| >= 34 && rest[0] == 0 && rest[1] == 32)
    decreases |data|
  {
    if |data| < 2 || CutShort(data) || (data[0] == 0 && data[1] == 32) {
      rs, rest := [], data;
    } else {
      var n := data[1];
      var r := Record(data[0], data[2..2 + n]);
      FirstRecord(data);
      hide PutRecord;
      var others;
      others, rest := ParseSplits(data[2 + n..]);
      rs := [r] + others;
      assert rs[1..] == others;
      assert PutRecords(rs) + rest == PutRecord(r) + (PutRecords(others) + rest);
    }
  }

  // ---- the URI ----

  const HTREE: Bytes := Ascii("htree://")
  const NHASH: Bytes := Ascii("nhash")

  method NhashEncode(codec: Bech32, hash: Hash) returns (s: Bytes)
    ensures s == NhashOf(codec, hash)
  {
    var tlv: Bytes := [];
    tlv := tlv + [TLV_HASH];
    tlv := tlv + [32];
    tlv := tlv + hash;
    assert tlv == PutRecord(Record(TLV_HASH, hash));
    s := codec.encode(NHASH, tlv);
  }

  function NhashOf(codec: Bech32, hash: Hash): Bytes {
    codec.encode(NHASH, PutRecord(Record(TLV_HASH, hash)))
  }

  function UriOf(codec: Bech32, hash: Hash): Bytes {
    HTREE + NhashOf(codec, hash)
  }

  function ParsedUri(codec: Bech32, uri: Bytes): Result<Hash, NhashError> {
    if !(HTREE <= uri) then Err(NotHtree) else
      match codec.decode(uri[|HTREE|..])
      case None => Err(BadBech32)
      case Some((hrp, data)) => if hrp != NHASH then Err(WrongHrp) else ParseFrom(data)
  }

  /** What a URI has to be, and what is refused before its records are looked at. */
  lemma UriExact(codec: Bech32, uri: Bytes, h: Hash)
    ensures
      var htree := Ascii("htree://") <= uri;
      var decoded := if htree then codec.decode(uri[8..]) else None;
      var nhash := decoded.Some? && decoded.value.0 == Ascii("nhash");
      && (ParsedUri(codec, uri) == Ok(h) <==> nhash && exists rs, rest :: Shows(decoded.value.1, rs, h, rest))
      && (!htree ==> ParsedUri(codec, uri) == Err(NotHtree))
      && (htree && decoded.None? ==> ParsedUri(codec, uri) == Err(BadBech32))
      && (decoded.Some? && !nhash ==> ParsedUri(codec, uri) == Err(WrongHrp))
  {
    if Ascii("htree://") <= uri && codec.decode(uri[8..]).Some? {
      ParseExact(codec.decode(uri[8..]).value.1, h);
    }
    hide ParseFrom, Shows;
  }

  /** The identifier of a hash is one record of type 0 with 32 bytes, under "nhash". */
  lemma NhashBytes(codec: Bech32, hash: Hash)
    ensures UriOf(codec, hash) == Ascii("htree://") + codec.encode(Ascii("nhash"), [0, 32] + hash)
  {
    assert PutRecord(Record(TLV_HASH, hash)) == [0, 32] + hash;
  }

  method ParseNhashUri(codec: Bech32, uri: Bytes) returns (r: Result<Hash, NhashError>)
    ensures r == ParsedUri(codec, uri)
  {
    if !(HTREE <= uri) {
      return Err(NotHtree);
    }
    var decoded := codec.decode(uri[|HTREE|..]);
    if decoded.None? {
      return Err(BadBech32);
    }
    var (hrp, data) := decoded.value;
    if hrp != NHASH {
      return Err(WrongHrp);
    }
    r := ParseTlv(data);
  }

  /** Parsing inverts encoding, for every hash. */
  lemma UriRoundTrip(codec: Bech32, hash: Hash)
    requires LosslessBech32(codec)
    ensures ParsedUri(codec, UriOf(codec, hash)) == Ok(hash)
  {
    var uri := UriOf(codec, hash);
    assert uri[|HTREE|..] == NhashOf(codec, hash);
    ParseRecord(Record(TLV_HASH, hash), []);
    assert PutRecord(Record(TLV_HASH, hash)) + [] == PutRecord(Record(TLV_HASH, hash));
  }
}
