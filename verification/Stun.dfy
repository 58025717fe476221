/** STUN messages (RFC 5389): `build_request` and `parse_response` of p2pshare-core/src/nat/stun.rs. */
module Stun {
  import opened Bytes

  const MAGIC_COOKIE: nat := 0x2112A442
  const COOKIE_PORT: nat := 0x2112
  const BINDING_SUCCESS: nat := 0x0101
  const MAPPED_ADDRESS: nat := 0x0001
  const XOR_MAPPED_ADDRESS: nat := 0x0020
  const IPV4: Byte := 1

  // ---- Bitwise operators, bit by bit ----

  function Xor(a: nat, b: nat): nat {
    if a == 0 && b == 0 then 0
    else 2 * Xor(a / 2, b / 2) + (if a % 2 == b % 2 then 0 else 1)
  }

  function And(a: nat, b: nat): nat {
    if a == 0 || b == 0 then 0
    else 2 * And(a / 2, b / 2) + (if a % 2 == 1 && b % 2 == 1 then 1 else 0)
  }

  lemma XorHalf(a: nat, b: nat)
    ensures Xor(a, b) / 2 == Xor(a / 2, b / 2)
    ensures Xor(a, b) % 2 == if a % 2 == b % 2 then 0 else 1
  {
  }

  lemma {:induction false} XorInvolution(a: nat, b: nat)
    ensures Xor(Xor(a, b), b) == a
  {
    if a != 0 || b != 0 {
      var x := Xor(a, b);
      XorHalf(a, b);
      XorHalf(x, b);
      XorInvolution(a / 2, b / 2);
      assert Xor(x, b) / 2 == a / 2 && Xor(x, b) % 2 == a % 2;
    }
  }

  /** Bit number `k`. */
  predicate Bit(n: nat, k: nat) {
    if k == 0 then n % 2 == 1 else Bit(n / 2, k - 1)
  }

  /** Both operators are what they are bit by bit. */
  lemma {:induction false} BitsOfXor(a: nat, b: nat, k: nat)
    ensures Bit(Xor(a, b), k) <==> Bit(a, k) != Bit(b, k)
    decreases k
  {
    if k > 0 {
      XorHalf(a, b);
      BitsOfXor(a / 2, b / 2, k - 1);
    }
  }

  lemma {:induction false} BitsOfAnd(a: nat, b: nat, k: nat)
    ensures Bit(And(a, b), k) <==> Bit(a, k) && Bit(b, k)
    decreases k
  {
    if a == 0 || b == 0 {
      NoBits(k);
    } else if k > 0 {
      BitsOfAnd(a / 2, b / 2, k - 1);
    }
  }

  lemma {:induction false} NoBits(k: nat)
    ensures !Bit(0, k)
  {
    if k > 0 {
      NoBits(k - 1);
    }
  }

  /** 2^w. */
  function Pow2(w: nat): nat {
    if w == 0 then 1 else 2 * Pow2(w - 1)
  }

  lemma {:induction false} XorBound(a: nat, b: nat, w: nat)
    requires a < Pow2(w) && b < Pow2(w)
    ensures Xor(a, b) < Pow2(w)
  {
    if w > 0 {
      XorBound(a / 2, b / 2, w - 1);
    }
  }

  lemma Pow2Words()
    ensures Pow2(16) == U16_LIMIT && Pow2(32) == U32_LIMIT
  {
    assert Pow2(8) == 256;
    assert Pow2(16) == 256 * Pow2(8);
    assert Pow2(24) == 256 * Pow2(16);
    assert Pow2(32) == 256 * Pow2(24);
  }

  /** The 64-bit complement of 3. */
  const NOT_THREE: nat := U64_LIMIT - 4

  lemma {:induction false} AndMask(n: nat, w: nat)
    requires n < Pow2(w)
    ensures And(n, Pow2(w) - 1) == n
  {
    if w > 0 {
      AndMask(n / 2, w - 1);
    }
  }

  /** `(n + 3) & !3`. */
  function RoundUp4(n: nat): nat {
    And(n + 3, NOT_THREE)
  }

  /** The next multiple of four. */
  function Aligned(n: nat): (m: nat)
    ensures m % 4 == 0 && n <= m < n + 4
  {
    (n + 3) / 4 * 4
  }

  lemma Pow2Sixty()
    ensures Pow2(62) * 4 == U64_LIMIT
  {
    Pow2Words();
    assert Pow2(40) == 256 * Pow2(32);
    assert Pow2(48) == 256 * Pow2(40);
    assert Pow2(56) == 256 * Pow2(48);
    assert Pow2(62) == 64 * Pow2(56);
  }

  /** The mask expression rounds up to the next multiple of four. */
  lemma RoundUp4Rounds(n: nat)
    requires n + 3 < U64_LIMIT
    ensures RoundUp4(n) == Aligned(n)
    ensures RoundUp4(n) % 4 == 0 && n <= RoundUp4(n) < n + 4
  {
    var m := n + 3;
    Pow2Sixty();
    AndMask(m / 4, 62);
    assert And(m / 2, NOT_THREE / 2) == 2 * And(m / 4, NOT_THREE / 4);
    assert And(m, NOT_THREE) == 2 * And(m / 2, NOT_THREE / 2);
  }

  // ---- Requests ----

  method CopyInto(a: array<Byte>, at: nat, s: seq<Byte>)
    requires at + |s| <= a.Length
    modifies a
    ensures a[..] == old(a[..at]) + s + old(a[at + |s|..])
  {
    var k := 0;
    while k < |s|
      invariant k <= |s|
      invariant a[..at] == old(a[..at]) && a[at + |s|..] == old(a[at + |s|..])
      invariant a[at..at + k] == s[..k]
    {
      a[at + k] := s[k];
      k := k + 1;
    }
    assert a[..] == a[..at] + a[at..at + |s|] + a[at + |s|..];
  }

  method BuildRequest(txnId: seq<Byte>) returns (req: array<Byte>)
    requires |txnId| == 12
    ensures fresh(req) && req[..] == [0x00, 0x01, 0x00, 0x00, 0x21, 0x12, 0xA4, 0x42] + txnId
  {
    req := new Byte[20](_ => 0);
    CopyInto(req, 0, U16(0x0001));
    CopyInto(req, 2, U16(0));
    CopyInto(req, 4, U32(MAGIC_COOKIE));
    CopyInto(req, 8, txnId);
    assert U16(0x0001) + U16(0) + U32(MAGIC_COOKIE) == [0x00, 0x01, 0x00, 0x00, 0x21, 0x12, 0xA4, 0x42];
  }

  // ---- Responses ----

  datatype Address = Address(ip: nat, port: nat)

  /** The address in an attribute, if it is an IPv4 address attribute of either kind. */
  function AddressOf(attrType: nat, val: seq<Byte>): Option<Address> {
    if |val| < 8 || val[1] != IPV4 then None
    else if attrType == XOR_MAPPED_ADDRESS then
      Some(Address(Xor(FromU32(val[4..8]), MAGIC_COOKIE), Xor(FromU16(val[2..4]), COOKIE_PORT)))
    else if attrType == MAPPED_ADDRESS then
      Some(Address(FromU32(val[4..8]), FromU16(val[2..4])))
    else None
  }

  /** The attribute walk from position `i`. */
  function ParseAttrs(attrs: seq<Byte>, i: nat): Option<Address>
    decreases |attrs| - i
  {
    if i + 4 > |attrs| then None
    else
      var attrLen := FromU16(attrs[i + 2..i + 4]);
      if i + 4 + attrLen > |attrs| then None
      else
        var found := AddressOf(FromU16(attrs[i..i + 2]), attrs[i + 4..i + 4 + attrLen]);
        if found.Some? then found else ParseAttrs(attrs, i + 4 + Aligned(attrLen))
  }

  /** The attributes of a success response to this transaction. */
  function Attributes(buf: seq<Byte>, txnId: seq<Byte>): Option<seq<Byte>> {
    if |buf| < 20 || FromU16(buf[0..2]) != BINDING_SUCCESS || buf[8..20] != txnId then None
    else
      var msgLen := FromU16(buf[2..4]);
      if 20 + msgLen > |buf| then None else Some(buf[20..20 + msgLen])
  }

  function Parse(buf: seq<Byte>, txnId: seq<Byte>): Option<Address> {
    match Attributes(buf, txnId)
    case None => None
    case Some(attrs) => ParseAttrs(attrs, 0)
  }

  /** `(n + 3) & !3`. */
  method Align(n: nat) returns (m: nat)
    requires n + 3 < U64_LIMIT
    ensures m == Aligned(n)
  {
    RoundUp4Rounds(n);
    m := And(n + 3, NOT_THREE);
  }

  method ParseResponse(buf: seq<Byte>, txnId: seq<Byte>) returns (r: Option<Address>)
    ensures r == Parse(buf, txnId)
  {
    if |buf| < 20 {
      return None;
    }
    if FromU16(buf[0..2]) != BINDING_SUCCESS {
      return None;
    }
    if buf[8..20] != txnId {
      return None;
    }
    var msgLen := FromU16(buf[2..4]);
    if 20 + msgLen > |buf| {
      return None;
    }
    var attrs := buf[20..20 + msgLen];
    var i := 0;
    while i + 4 <= |attrs|
      invariant ParseAttrs(attrs, i) == ParseAttrs(attrs, 0)
      decreases |attrs| - i
    {
      var attrType := FromU16(attrs[i..i + 2]);
      var attrLen := FromU16(attrs[i + 2..i + 4]);
      if i + 4 + attrLen > |attrs| {
        return None;
      }
      var val := attrs[i + 4..i + 4 + attrLen];
      ghost var found := AddressOf(attrType, val);
      assert ParseAttrs(attrs, 0) == if found.Some? then found else ParseAttrs(attrs, i + 4 + Aligned(attrLen));
      if attrType == XOR_MAPPED_ADDRESS {
        if |val| >= 8 && val[1] == IPV4 {
          var port := Xor(FromU16(val[2..4]), COOKIE_PORT);
          var ip := Xor(FromU32(val[4..8]), MAGIC_COOKIE);
          return Some(Address(ip, port));
        }
      } else if attrType == MAPPED_ADDRESS {
        if |val| >= 8 && val[1] == IPV4 {
          return Some(Address(FromU32(val[4..8]), FromU16(val[2..4])));
        }
      }
      var step := Align(attrLen);
      i := i + 4 + step;
    }
    r := None;
  }

  // ---- What a server sends, by the standard ----

  /** `pad` are the padding bytes, which may be anything. */
  datatype Attr = Attr(attrType: nat, value: seq<Byte>, pad: seq<Byte>) {
    predicate Encodable() {
      attrType < U16_LIMIT && |value| < U16_LIMIT && |pad| == (4 - |value| % 4) % 4
    }
  }

  ghost predicate Encodable(attrs: seq<Attr>) {
    forall k :: 0 <= k < |attrs| ==> attrs[k].Encodable()
  }

  /** Section 15 of RFC 5389: type, length of the value, the value, padding to a multiple of four. */
  function AttrBytes(t: Attr): (s: seq<Byte>)
    ensures |s| == 4 + |t.value| + |t.pad|
    ensures s[0..2] == U16(t.attrType % U16_LIMIT) && s[2..4] == U16(|t.value| % U16_LIMIT)
    ensures s[4..4 + |t.value|] == t.value
  {
    U16(t.attrType % U16_LIMIT) + U16(|t.value| % U16_LIMIT) + t.value + t.pad
  }

  function AttrsBytes(attrs: seq<Attr>): seq<Byte> {
    if attrs == [] then [] else AttrBytes(attrs[0]) + AttrsBytes(attrs[1..])
  }

  /** Section 6 of RFC 5389: success response, length of what follows, cookie, transaction. The program
      does not look at the cookie. */
  function Header(length: nat, cookie: seq<Byte>, txnId: seq<Byte>): (h: seq<Byte>)
    requires length < U16_LIMIT && |cookie| == 4 && |txnId| == 12
    ensures |h| == 20 && h[0..2] == [0x01, 0x01] && h[2..4] == U16(length) && h[8..20] == txnId
  {
    [0x01, 0x01] + U16(length) + cookie + txnId
  }

  function Response(cookie: seq<Byte>, txnId: seq<Byte>, attrs: seq<Attr>): seq<Byte>
    requires |cookie| == 4 && |txnId| == 12 && |AttrsBytes(attrs)| < U16_LIMIT
  {
    Header(|AttrsBytes(attrs)|, cookie, txnId) + AttrsBytes(attrs)
  }

  /** A MAPPED-ADDRESS or an XOR-MAPPED-ADDRESS of the IPv4 family, by sections 15.1 and 15.2 of RFC 5389. */
  predicate Reports(t: Attr) {
    (t.attrType == 0x0001 || t.attrType == 0x0020) && |t.value| >= 8 && t.value[1] == 0x01
  }

  function Reported(t: Attr): Address
    requires Reports(t)
  {
    var port, ip := FromU16(t.value[2..4]), FromU32(t.value[4..8]);
    if t.attrType == 0x0001 then Address(ip, port) else Address(Xor(ip, 0x2112A442), Xor(port, 0x2112))
  }

  /** The first address reported, whichever kind comes first: a MAPPED-ADDRESS before an
      XOR-MAPPED-ADDRESS wins. */
  function FirstAddress(attrs: seq<Attr>): Option<Address> {
    if attrs == [] then None
    else if Reports(attrs[0]) then Some(Reported(attrs[0]))
    else FirstAddress(attrs[1..])
  }

  /** The program takes an attribute for an address exactly if it is one, and for that one. */
  lemma AddressOfExactly(t: Attr)
    ensures AddressOf(t.attrType, t.value) == if Reports(t) then Some(Reported(t)) else None
  {
  }

  lemma AttrLength(t: Attr)
    requires t.Encodable()
    ensures |AttrBytes(t)| == 4 + Aligned(|t.value|)
  {
  }

  /** Attribute `t` is in `s` at position `i`, apart from its padding. */
  predicate AttrAt(s: seq<Byte>, i: nat, t: Attr) {
    && t.attrType < U16_LIMIT && |t.value| < U16_LIMIT && i + 4 + |t.value| <= |s|
    && s[i..i + 2] == U16(t.attrType) && s[i + 2..i + 4] == U16(|t.value|) && s[i + 4..i + 4 + |t.value|] == t.value
  }

  function Behind(t: Attr, i: nat): nat {
    i + 4 + Aligned(|t.value|)
  }

  predicate AttrsAt(s: seq<Byte>, i: nat, attrs: seq<Attr>)
    decreases |attrs|
  {
    attrs == [] || (AttrAt(s, i, attrs[0]) && AttrsAt(s, Behind(attrs[0], i), attrs[1..]))
  }

  /** The position behind the attributes. */
  function EndOf(attrs: seq<Attr>, i: nat): nat
    decreases |attrs|
  {
    if attrs == [] then i else EndOf(attrs[1..], Behind(attrs[0], i))
  }

  lemma {:induction false} OneMoreAt(s: seq<Byte>, i: nat, attrs: seq<Attr>, last: Attr)
    requires AttrsAt(s, i, attrs) && AttrAt(s, EndOf(attrs, i), last)
    ensures AttrsAt(s, i, attrs + [last]) && EndOf(attrs + [last], i) == Behind(last, EndOf(attrs, i))
    decreases |attrs|
  {
    if attrs == [] {
      assert attrs + [last] == [last];
    } else {
      assert (attrs + [last])[1..] == attrs[1..] + [last];
      OneMoreAt(s, Behind(attrs[0], i), attrs[1..], last);
    }
  }

  lemma PiecesPlaced(pre: seq<Byte>, b: seq<Byte>, post: seq<Byte>, n: nat)
    requires |b| >= 4 + n
    ensures var s, i := pre + b + post, |pre|;
      s[i..i + 2] == b[0..2] && s[i + 2..i + 4] == b[2..4] && s[i + 4..i + 4 + n] == b[4..4 + n]
  {
    SliceInside(pre, b, post, 0, 2);
    SliceInside(pre, b, post, 2, 4);
    SliceInside(pre, b, post, 4, 4 + n);
  }

  lemma AttrPlaced(t: Attr, pre: seq<Byte>, post: seq<Byte>)
    requires t.attrType < U16_LIMIT && |t.value| < U16_LIMIT
    ensures AttrAt(pre + AttrBytes(t) + post, |pre|, t)
  {
    assert t.attrType % U16_LIMIT == t.attrType && |t.value| % U16_LIMIT == |t.value|;
    PiecesPlaced(pre, AttrBytes(t), post, |t.value|);
  }

  lemma FirstPlaced(s: seq<Byte>, i: nat, t: Attr, rest: seq<Byte>)
    requires t.Encodable() && i <= |s| && s[i..] == AttrBytes(t) + rest
    ensures AttrAt(s, i, t) && Behind(t, i) <= |s| && s[Behind(t, i)..] == rest
  {
    ReadOn(s, i, AttrBytes(t), rest);
    AttrLength(t);
    AttrPlaced(t, s[..i], rest);
  }

  lemma {:induction false} AttrsPlaced(s: seq<Byte>, i: nat, attrs: seq<Attr>, tail: seq<Byte>)
    requires Encodable(attrs) && i <= |s| && s[i..] == AttrsBytes(attrs) + tail
    ensures AttrsAt(s, i, attrs) && EndOf(attrs, i) == i + |AttrsBytes(attrs)|
    decreases |attrs|
  {
    if attrs != [] {
      var first, rest := AttrBytes(attrs[0]), AttrsBytes(attrs[1..]);
      Assoc(first, rest, tail);
      FirstPlaced(s, i, attrs[0], rest + tail);
      AttrsPlaced(s, Behind(attrs[0], i), attrs[1..], tail);
    }
  }

  /** One turn of the walk, whatever follows the attribute. */
  lemma WalkStep(s: seq<Byte>, i: nat, t: Attr)
    requires AttrAt(s, i, t)
    ensures ParseAttrs(s, i) == if Reports(t) then Some(Reported(t)) else ParseAttrs(s, Behind(t, i))
  {
    AddressOfExactly(t);
  }

  /** The walk over attributes stops at the first address among them, or goes on behind them. */
  lemma {:induction false} WalkThrough(s: seq<Byte>, i: nat, attrs: seq<Attr>)
    requires AttrsAt(s, i, attrs)
    ensures ParseAttrs(s, i)
         == if FirstAddress(attrs).Some? then FirstAddress(attrs) else ParseAttrs(s, EndOf(attrs, i))
    decreases |attrs|
  {
    if attrs != [] {
      WalkStep(s, i, attrs[0]);
      WalkThrough(s, Behind(attrs[0], i), attrs[1..]);
    }
  }

  /** Too few bytes for an attribute, or for the length it declares. */
  predicate Unfinished(tail: seq<Byte>) {
    |tail| < 4 || 4 + FromU16(tail[2..4]) > |tail|
  }

  lemma UnfinishedStops(s: seq<Byte>, i: nat)
    requires i <= |s| ==> Unfinished(s[i..])
    ensures ParseAttrs(s, i) == None
  {
    if i + 4 <= |s| {
      assert s[i..][2..4] == s[i + 2..i + 4];
    }
  }

  lemma WalkToEnd(s: seq<Byte>, attrs: seq<Attr>, end: nat)
    requires AttrsAt(s, 0, attrs) && end == EndOf(attrs, 0) && (end <= |s| ==> Unfinished(s[end..]))
    ensures ParseAttrs(s, 0) == FirstAddress(attrs)
  {
    WalkThrough(s, 0, attrs);
    if FirstAddress(attrs) == None {
      UnfinishedStops(s, end);
    }
  }

  lemma TailOf(pre: seq<Byte>, tail: seq<Byte>)
    ensures (pre + tail)[|pre|..] == tail && (pre + tail)[0..] == pre + tail
  {
  }

  /** The walk over a list that ends, or breaks off in the middle of an attribute, finds the first address
      in the whole attributes, and nothing else. */
  lemma WalkFindsFirst(attrs: seq<Attr>, tail: seq<Byte>)
    requires Encodable(attrs) && Unfinished(tail)
    ensures ParseAttrs(AttrsBytes(attrs) + tail, 0) == FirstAddress(attrs)
  {
    TailOf(AttrsBytes(attrs), tail);
    AttrsPlaced(AttrsBytes(attrs) + tail, 0, attrs, tail);
    WalkToEnd(AttrsBytes(attrs) + tail, attrs, |AttrsBytes(attrs)|);
  }

  lemma CutPlaced(attrs: seq<Attr>, last: Attr, short: seq<Byte>)
    requires Encodable(attrs) && last.Encodable() && |short| <= |last.pad|
    ensures var s := AttrsBytes(attrs) + AttrBytes(last.(pad := short));
      AttrsAt(s, 0, attrs + [last]) && |s| <= EndOf(attrs + [last], 0)
  {
    var pre, cut := AttrsBytes(attrs), AttrBytes(last.(pad := short));
    TailOf(pre, cut);
    AttrsPlaced(pre + cut, 0, attrs, cut);
    AttrPlaced(last.(pad := short), pre, []);
    assert pre + cut + [] == pre + cut;
    AttrLength(last);
    OneMoreAt(pre + cut, 0, attrs, last);
  }

  /** The last attribute may lack padding. */
  lemma LastUnpadded(attrs: seq<Attr>, last: Attr, short: seq<Byte>)
    requires Encodable(attrs) && last.Encodable() && |short| <= |last.pad|
    ensures ParseAttrs(AttrsBytes(attrs) + AttrBytes(last.(pad := short)), 0) == FirstAddress(attrs + [last])
  {
    CutPlaced(attrs, last, short);
    var s := AttrsBytes(attrs) + AttrBytes(last.(pad := short));
    WalkToEnd(s, attrs + [last], EndOf(attrs + [last], 0));
  }

  lemma {:induction false} FirstOfConcat(x: seq<Attr>, y: seq<Attr>)
    ensures FirstAddress(x + y) == if FirstAddress(x).Some? then FirstAddress(x) else FirstAddress(y)
    decreases |x|
  {
    if x == [] {
      assert x + y == y;
    } else {
      assert (x + y)[1..] == x[1..] + y;
      FirstOfConcat(x[1..], y);
    }
  }

  /** The header checks leave the message's own attributes, and nothing that trails it. */
  lemma MessageAttributes(cookie: seq<Byte>, txnId: seq<Byte>, expected: seq<Byte>, body: seq<Byte>,
                          trailing: seq<Byte>)
    requires |cookie| == 4 && |txnId| == |expected| == 12 && |body| < U16_LIMIT
    ensures Attributes(Header(|body|, cookie, txnId) + body + trailing, expected)
         == if txnId == expected then Some(body) else None
  {
    var h := Header(|body|, cookie, txnId);
    var buf := h + body + trailing;
    assert buf[0..2] == h[0..2] && buf[2..4] == h[2..4] && buf[8..20] == h[8..20];
    assert buf[20..20 + |body|] == body;
  }

  /** Anything that is not a whole success response to this transaction is refused. */
  lemma OthersRefused(buf: seq<Byte>, txnId: seq<Byte>)
    requires |txnId| == 12
    requires |buf| >= 20 ==>
      buf[0..2] != [0x01, 0x01] || buf[8..20] != txnId || |buf| < 20 + (buf[2] as int) * 0x100 + buf[3] as int
    ensures Parse(buf, txnId) == None
  {
    if |buf| >= 20 {
      assert buf[0..2] == [buf[0], buf[1]] && buf[2..4] == [buf[2], buf[3]];
    }
  }

  /** Parsing a success response gives the first address its list reports, if the transaction matches. */
  lemma ParseFindsFirst(cookie: seq<Byte>, txnId: seq<Byte>, expected: seq<Byte>, attrs: seq<Attr>,
                        trailing: seq<Byte>)
    requires |cookie| == 4 && |txnId| == |expected| == 12 && Encodable(attrs) && |AttrsBytes(attrs)| < U16_LIMIT
    ensures Parse(Response(cookie, txnId, attrs) + trailing, expected)
         == if txnId == expected then FirstAddress(attrs) else None
  {
    var body := AttrsBytes(attrs);
    MessageAttributes(cookie, txnId, expected, body, trailing);
    WalkFindsFirst(attrs, []);
    assert body + [] == body;
  }

  // ---- Addresses survive ----

  /** Section 15.2 of RFC 5389. */
  function XorMapped(addr: Address): Attr
    requires addr.ip < U32_LIMIT && addr.port < U16_LIMIT
  {
    Pow2Words();
    XorBound(addr.port, 0x2112, 16);
    XorBound(addr.ip, 0x2112A442, 32);
    Attr(0x0020, [0x00, 0x01] + U16(Xor(addr.port, 0x2112)) + U32(Xor(addr.ip, 0x2112A442)), [])
  }

  /** Section 15.1 of RFC 5389. */
  function Mapped(addr: Address): Attr
    requires addr.ip < U32_LIMIT && addr.port < U16_LIMIT
  {
    Attr(0x0001, [0x00, 0x01] + U16(addr.port) + U32(addr.ip), [])
  }

  lemma AddressSurvives(addr: Address)
    requires addr.ip < U32_LIMIT && addr.port < U16_LIMIT
    ensures Reports(XorMapped(addr)) && Reported(XorMapped(addr)) == addr
    ensures Reports(Mapped(addr)) && Reported(Mapped(addr)) == addr
  {
    XorInvolution(addr.port, 0x2112);
    XorInvolution(addr.ip, 0x2112A442);
    var v, w := XorMapped(addr).value, Mapped(addr).value;
    assert v[2..4] == U16(Xor(addr.port, 0x2112)) && v[4..8] == U32(Xor(addr.ip, 0x2112A442));
    assert w[2..4] == U16(addr.port) && w[4..8] == U32(addr.ip);
  }

  /** Attributes that report nothing. */
  predicate Silent(attrs: seq<Attr>) {
    forall k :: 0 <= k < |attrs| ==> !Reports(attrs[k])
  }

  lemma {:induction false} SilentFirst(attrs: seq<Attr>)
    ensures FirstAddress(attrs) == None <==> Silent(attrs)
  {
    if attrs != [] {
      SilentFirst(attrs[1..]);
      assert attrs == [attrs[0]] + attrs[1..];
    }
  }

  /** A server's address is understood if it comes after any attributes of other types or families. */
  lemma ReportedAddressParsed(cookie: seq<Byte>, txnId: seq<Byte>, before: seq<Attr>, addr: Address,
                              rest: seq<Attr>, xored: bool)
    requires |cookie| == 4 && |txnId| == 12 && Silent(before) && addr.ip < U32_LIMIT && addr.port < U16_LIMIT
    requires var attrs := before + ([if xored then XorMapped(addr) else Mapped(addr)] + rest);
      Encodable(attrs) && |AttrsBytes(attrs)| < U16_LIMIT
    ensures var attrs := before + ([if xored then XorMapped(addr) else Mapped(addr)] + rest);
      Parse(Response(cookie, txnId, attrs), txnId) == Some(addr)
  {
    var t := if xored then XorMapped(addr) else Mapped(addr);
    var attrs := before + ([t] + rest);
    AddressSurvives(addr);
    SilentFirst(before);
    FirstOfConcat(before, [t] + rest);
    ParseFindsFirst(cookie, txnId, txnId, attrs, []);
    assert Response(cookie, txnId, attrs) + [] == Response(cookie, txnId, attrs);
  }
}
