/** The MessagePack bytes of a directory node, as `rmp_serde::to_vec_named` writes them
    (src/manifest.rs:3-14, section "Formats" of the MessagePack specification), and a
    decoder for exactly those shapes. */
module MsgPack {
  import opened Base
  import opened HashTree

  // ---- big-endian integers ----

  function Pow256(w: nat): nat {
    if w == 0 then 1 else 256 * Pow256(w - 1)
  }

  function BigEndian(n: nat, w: nat): (b: Bytes)
    requires n < Pow256(w)
    ensures |b| == w
  {
    if w == 0 then [] else BigEndian(n / 256, w - 1) + [n % 256]
  }

  function FromBigEndian(b: Bytes): (n: nat)
    ensures n < Pow256(|b|)
  {
    if b == [] then 0 else 256 * FromBigEndian(b[..|b| - 1]) + b[|b| - 1]
  }

  lemma {:induction false} BigEndianBack(n: nat, w: nat)
    requires n < Pow256(w)
    ensures FromBigEndian(BigEndian(n, w)) == n
  {
    if w > 0 {
      BigEndianBack(n / 256, w - 1);
      assert BigEndian(n, w)[..w - 1] == BigEndian(n / 256, w - 1);
    }
  }

  // ---- headers ----

  /** The four formats a node uses. A header holds a value (Uint) or a length. */
  datatype Kind = Uint | Str | Bin | Arr

  /** One past the largest number the kind's single-byte form holds. */
  function FixLimit(kind: Kind): nat {
    match kind
    case Uint => 128
    case Str => 32
    case Bin => 0
    case Arr => 16
  }

  function FixBase(kind: Kind): Byte {
    match kind
    case Uint => 0x00
    case Str => 0xa0
    case Bin => 0
    case Arr => 0x90
  }

  function Limit(kind: Kind): nat {
    if kind.Uint? then U64_MOD else LEN32
  }

  /** Bytes that follow the tag: the narrowest format that holds `n`. */
  function Width(kind: Kind, n: nat): nat {
    if n < FixLimit(kind) then 0
    else if n < 256 && !kind.Arr? then 1
    else if n < 65536 then 2
    else if n < LEN32 then 4
    else 8
  }

  function Tag(kind: Kind, width: nat): Byte
    requires width in {1, 2, 4, 8}
  {
    match kind
    case Uint => if width == 1 then 0xcc else if width == 2 then 0xcd else if width == 4 then 0xce else 0xcf
    case Str => if width == 1 then 0xd9 else if width == 2 then 0xda else 0xdb
    case Bin => if width == 1 then 0xc4 else if width == 2 then 0xc5 else 0xc6
    case Arr => if width == 2 then 0xdc else 0xdd
  }

  lemma Powers()
    ensures Pow256(1) == 256 && Pow256(2) == 65536 && Pow256(4) == LEN32 && Pow256(8) == U64_MOD
  {
    assert Pow256(3) == 256 * Pow256(2);
    assert Pow256(4) == 256 * Pow256(3);
    assert Pow256(5) == 256 * Pow256(4);
    assert Pow256(6) == 256 * Pow256(5);
    assert Pow256(7) == 256 * Pow256(6);
  }

  /** A header for `n`, in front of `rest`. */
  function PutHead(kind: Kind, n: nat, rest: Bytes): Bytes
    requires n < Limit(kind)
  {
    var w := Width(kind, n);
    if w == 0 then [FixBase(kind) + n] + rest
    else
      Powers();
      [Tag(kind, w)] + BigEndian(n, w) + rest
  }

  function GetWide(b: Bytes, w: nat): Option<(nat, Bytes)> {
    if |b| < 1 + w then None else Some((FromBigEndian(b[1..1 + w]), b[1 + w..]))
  }

  function GetHead(kind: Kind, b: Bytes): (r: Option<(nat, Bytes)>)
    ensures r.Some? ==> r.value.0 < Limit(kind) && |r.value.1| < |b|
  {
    Powers();
    if b == [] then None
    else if FixBase(kind) <= b[0] < FixBase(kind) + FixLimit(kind) then Some((b[0] - FixBase(kind), b[1..]))
    else if !kind.Arr? && b[0] == Tag(kind, 1) then GetWide(b, 1)
    else if b[0] == Tag(kind, 2) then GetWide(b, 2)
    else if b[0] == Tag(kind, 4) then GetWide(b, 4)
    else if kind.Uint? && b[0] == Tag(kind, 8) then GetWide(b, 8)
    else None
  }

  lemma WideBack(tag: Byte, n: nat, w: nat, rest: Bytes)
    requires n < Pow256(w)
    ensures GetWide([tag] + BigEndian(n, w) + rest, w) == Some((n, rest))
  {
    var b := [tag] + BigEndian(n, w) + rest;
    BigEndianBack(n, w);
    assert b[1..1 + w] == BigEndian(n, w);
    assert b[1 + w..] == rest;
  }

  lemma HeadBack(kind: Kind, n: nat, rest: Bytes)
    requires n < Limit(kind)
    ensures GetHead(kind, PutHead(kind, n, rest)) == Some((n, rest))
  {
    hide BigEndian, FromBigEndian, GetWide, Pow256;
    Powers();
    var w := Width(kind, n);
    if w > 0 {
      WideBack(Tag(kind, w), n, w, rest);
    }
  }

  // ---- the bytes of each header ----

  /** `n` in two and in four bytes, the most significant first. */
  function Bytes2(n: nat): Bytes
    requires n < 0x1_0000
  {
    [n / 0x100, n % 0x100]
  }

  function Bytes4(n: nat): Bytes
    requires n < 0x1_0000_0000
  {
    Bytes2(n / 0x1_0000) + Bytes2(n % 0x1_0000)
  }

  lemma OneByte(n: nat)
    requires n < 0x100
    ensures n < Pow256(1) && BigEndian(n, 1) == [n]
  {
    assert BigEndian(n / 256, 0) == [];
  }

  lemma TwoBytes(n: nat)
    requires n < 0x1_0000
    ensures n < Pow256(2) && BigEndian(n, 2) == Bytes2(n)
  {
    Powers();
    OneByte(n / 256);
  }

  lemma FourBytes(n: nat)
    requires n < 0x1_0000_0000
    ensures n < Pow256(4) && BigEndian(n, 4) == Bytes4(n)
  {
    Powers();
    var m := n / 256;
    assert Pow256(3) == 0x100_0000;
    assert BigEndian(n, 4) == BigEndian(m, 3) + [n % 256];
    assert BigEndian(m, 3) == BigEndian(m / 256, 2) + [m % 256];
    assert m / 256 == n / 0x1_0000;
    TwoBytes(m / 256);
    assert m % 256 == n % 0x1_0000 / 0x100 && n % 256 == n % 0x1_0000 % 0x100;
  }

  /** The bytes of each header, in the narrowest form ("Formats" of the MessagePack
      specification). */
  function Header(kind: Kind, n: nat): Bytes
    requires n < U64_MOD && (kind.Uint? || n < 0x1_0000_0000)
  {
    Powers();
    match kind
    case Uint =>
      if n < 0x80 then [n]
      else if n < 0x100 then [0xcc, n]
      else if n < 0x1_0000 then [0xcd] + Bytes2(n)
      else if n < 0x1_0000_0000 then [0xce] + Bytes4(n)
      else [0xcf] + BigEndian(n, 8)
    case Str =>
      if n < 0x20 then [0xa0 + n]
      else if n < 0x100 then [0xd9, n]
      else if n < 0x1_0000 then [0xda] + Bytes2(n)
      else [0xdb] + Bytes4(n)
    case Bin =>
      if n < 0x100 then [0xc4, n]
      else if n < 0x1_0000 then [0xc5] + Bytes2(n)
      else [0xc6] + Bytes4(n)
    case Arr =>
      if n < 0x10 then [0x90 + n]
      else if n < 0x1_0000 then [0xdc] + Bytes2(n)
      else [0xdd] + Bytes4(n)
  }

  lemma HeaderBytes(kind: Kind, n: nat, rest: Bytes)
    requires n < U64_MOD && (kind.Uint? || n < 0x1_0000_0000)
    ensures PutHead(kind, n, rest) == Header(kind, n) + rest
  {
    Powers();
    hide BigEndian, Pow256, Bytes2, Bytes4;
    match Width(kind, n)
    case 1 => OneByte(n);
    case 2 => TwoBytes(n);
    case 4 => FourBytes(n);
    case _ =>
  }

  // ---- strings and keys ----

  function PutData(kind: Kind, data: Text, rest: Bytes): Bytes
    requires !kind.Uint?
  {
    PutHead(kind, |data|, data + rest)
  }

  function GetData(kind: Kind, b: Bytes): Option<(Text, Bytes)>
    requires !kind.Uint?
  {
    var (n, after) :- GetHead(kind, b);
    if |after| < n then None else Some((after[..n], after[n..]))
  }

  lemma DataBack(kind: Kind, data: Text, rest: Bytes)
    requires !kind.Uint?
    ensures GetData(kind, PutData(kind, data, rest)) == Some((data, rest))
  {
    HeadBack(kind, |data|, data + rest);
    assert (data + rest)[..|data|] == data && (data + rest)[|data|..] == rest;
  }

  const KEY_H: Bytes := [0xa1, 0x68]
  const KEY_L: Bytes := [0xa1, 0x6c]
  const KEY_N: Bytes := [0xa1, 0x6e]
  const KEY_S: Bytes := [0xa1, 0x73]
  const KEY_T: Bytes := [0xa1, 0x74]

  function Expect(b: Bytes, prefix: Bytes): Option<Bytes> {
    if prefix <= b then Some(b[|prefix|..]) else None
  }

  lemma ExpectBack(prefix: Bytes, rest: Bytes)
    ensures Expect(prefix + rest, prefix) == Some(rest)
  {
  }

  // ---- links ----

  /** Fields `s` and `t`, the end of every link. */
  function PutSizeAndType(link: WireLink, rest: Bytes): Bytes {
    KEY_S + PutHead(Uint, link.s, KEY_T + PutHead(Uint, link.t, rest))
  }

  function PutName(link: WireLink, rest: Bytes): Bytes {
    match link.n
    case None => rest
    case Some(name) => KEY_N + PutData(Str, name, rest)
  }

  function PutLink(link: WireLink, rest: Bytes): Bytes {
    [if link.n.Some? then 0x84 else 0x83] +
    (KEY_H + PutData(Bin, link.h, PutName(link, PutSizeAndType(link, rest))))
  }

  function GetSizeAndType(b: Bytes): Option<(U64, Byte, Bytes)> {
    var b1 :- Expect(b, KEY_S);
    var (s, b2) :- GetHead(Uint, b1);
    var b3 :- Expect(b2, KEY_T);
    var (t, b4) :- GetHead(Uint, b3);
    if t < 256 then Some((s, t, b4)) else None
  }

  function GetName(named: bool, b: Bytes): Option<(Option<Text>, Bytes)> {
    if !named then Some((None, b)) else
      var b1 :- Expect(b, KEY_N);
      var (name, b2) :- GetData(Str, b1);
      Some((Some(name), b2))
  }

  function GetLink(b: Bytes): Option<(WireLink, Bytes)> {
    if b == [] || (b[0] != 0x83 && b[0] != 0x84) then None else
      var b1 :- Expect(b[1..], KEY_H);
      var (h, b2) :- GetData(Bin, b1);
      var (n, b3) :- GetName(b[0] == 0x84, b2);
      var (s, t, b4) :- GetSizeAndType(b3);
      Some((WireLink(h, n, s, t), b4))
  }

  lemma SizeAndTypeBack(link: WireLink, rest: Bytes)
    ensures GetSizeAndType(PutSizeAndType(link, rest)) == Some((link.s, link.t, rest))
  {
    hide PutHead, GetHead;
    var afterT := PutHead(Uint, link.t, rest);
    HeadBack(Uint, link.t, rest);
    ExpectBack(KEY_T, afterT);
    HeadBack(Uint, link.s, KEY_T + afterT);
    ExpectBack(KEY_S, PutHead(Uint, link.s, KEY_T + afterT));
  }

  lemma NameBack(link: WireLink, rest: Bytes)
    ensures GetName(link.n.Some?, PutName(link, rest)) == Some((link.n, rest))
  {
    hide PutData, GetData;
    if link.n.Some? {
      DataBack(Str, link.n.value, rest);
      ExpectBack(KEY_N, PutData(Str, link.n.value, rest));
    }
  }

  lemma LinkBack(link: WireLink, rest: Bytes)
    ensures GetLink(PutLink(link, rest)) == Some((link, rest))
  {
    hide PutData, GetData, PutName, GetName, PutSizeAndType, GetSizeAndType;
    var b3 := PutSizeAndType(link, rest);
    SizeAndTypeBack(link, rest);
    NameBack(link, b3);
    DataBack(Bin, link.h, PutName(link, b3));
    var b1 := KEY_H + PutData(Bin, link.h, PutName(link, b3));
    ExpectBack(KEY_H, PutData(Bin, link.h, PutName(link, b3)));
    assert PutLink(link, rest)[1..] == b1;
  }

  function PutLinks(links: seq<WireLink>, rest: Bytes): Bytes {
    if links == [] then rest else PutLink(links[0], PutLinks(links[1..], rest))
  }

  function GetLinks(count: nat, b: Bytes): Option<(seq<WireLink>, Bytes)> {
    if count == 0 then Some(([], b)) else
      var (first, b1) :- GetLink(b);
      var (others, b2) :- GetLinks(count - 1, b1);
      Some(([first] + others, b2))
  }

  lemma {:induction false} LinksBack(links: seq<WireLink>, rest: Bytes)
    ensures GetLinks(|links|, PutLinks(links, rest)) == Some((links, rest))
  {
    hide PutLink, GetLink;
    if links != [] {
      LinkBack(links[0], PutLinks(links[1..], rest));
      LinksBack(links[1..], rest);
      assert [links[0]] + links[1..] == links;
    }
  }

  // ---- nodes ----

  function Encode(node: WireTreeNode): Bytes {
    if |node.l| >= LEN32 then [] else
      [0x82] + (KEY_L + PutHead(Arr, |node.l|, PutLinks(node.l, KEY_T + PutHead(Uint, node.t, []))))
  }

  function Decode(b: Bytes): Option<WireTreeNode> {
    var b1 :- Expect(b, [0x82]);
    var b2 :- Expect(b1, KEY_L);
    var (count, b3) :- GetHead(Arr, b2);
    var (links, b4) :- GetLinks(count, b3);
    var b5 :- Expect(b4, KEY_T);
    var (t, _) :- GetHead(Uint, b5);
    if t < 256 then Some(WireTreeNode(links, t)) else None
  }

  /** Decoding the bytes of any node gives the node back. */
  lemma NodeBack(node: WireTreeNode)
    requires |node.l| < LEN32
    ensures Decode(Encode(node)) == Some(node)
  {
    hide PutHead, GetHead, PutLinks, GetLinks;
    var b5 := PutHead(Uint, node.t, []);
    HeadBack(Uint, node.t, []);
    ExpectBack(KEY_T, b5);
    LinksBack(node.l, KEY_T + b5);
    var b3 := PutLinks(node.l, KEY_T + b5);
    HeadBack(Arr, |node.l|, b3);
    ExpectBack(KEY_L, PutHead(Arr, |node.l|, b3));
    ExpectBack([0x82], KEY_L + PutHead(Arr, |node.l|, b3));
  }

  /** The assumption the tree theorems make of the codec holds of this one, for any hash. */
  lemma CodecIsLossless(sha: Bytes -> Hash)
    ensures Lossless(Env(sha, Encode, Decode))
  {
    forall node: WireTreeNode | |node.l| < LEN32
      ensures Decode(Encode(node)) == Some(node)
    {
      NodeBack(node);
    }
  }

  // ---- the layout of a node ----

  /** The bytes of one link, field by field. */
  function LinkBytes(link: WireLink): Bytes {
    (if link.n.Some? then [0x84] else [0x83]) +
    [0xa1, 'h' as int] + Header(Bin, |link.h|) + link.h +
    (if link.n.Some? then [0xa1, 'n' as int] + Header(Str, |link.n.value|) + link.n.value else []) +
    [0xa1, 's' as int] + Header(Uint, link.s) +
    [0xa1, 't' as int] + Header(Uint, link.t)
  }

  function LinksBytes(links: seq<WireLink>): Bytes {
    if links == [] then [] else LinkBytes(links[0]) + LinksBytes(links[1..])
  }

  lemma EndLayout(link: WireLink, rest: Bytes)
    ensures PutSizeAndType(link, rest) ==
      [0xa1, 's' as int] + Header(Uint, link.s) + [0xa1, 't' as int] + Header(Uint, link.t) + rest
  {
    hide PutHead, Header;
    HeaderBytes(Uint, link.t, rest);
    HeaderBytes(Uint, link.s, KEY_T + PutHead(Uint, link.t, rest));
  }

  lemma LinkLayout(link: WireLink, rest: Bytes)
    ensures PutLink(link, rest) == LinkBytes(link) + rest
  {
    hide PutHead, Header, PutSizeAndType;
    var tail := PutSizeAndType(link, rest);
    EndLayout(link, rest);
    if link.n.Some? {
      HeaderBytes(Str, |link.n.value|, link.n.value + tail);
    }
    HeaderBytes(Bin, |link.h|, link.h + PutName(link, tail));
  }

  lemma {:induction false} LinksLayout(links: seq<WireLink>, rest: Bytes)
    ensures PutLinks(links, rest) == LinksBytes(links) + rest
  {
    hide PutLink, LinkBytes;
    if links != [] {
      LinksLayout(links[1..], rest);
      LinkLayout(links[0], PutLinks(links[1..], rest));
    }
  }

  /** A node is a map of two keys: "l", an array of its links, and "t", its type. */
  lemma NodeLayout(node: WireTreeNode)
    requires |node.l| < LEN32
    ensures Encode(node) ==
      [0x82, 0xa1, 'l' as int] + Header(Arr, |node.l|) + LinksBytes(node.l) +
      [0xa1, 't' as int] + Header(Uint, node.t)
  {
    hide PutHead, Header, PutLinks, LinksBytes;
    HeaderBytes(Uint, node.t, []);
    var tail := KEY_T + PutHead(Uint, node.t, []);
    LinksLayout(node.l, tail);
    HeaderBytes(Arr, |node.l|, PutLinks(node.l, tail));
  }
}
