// The STUN response parser: attributes walked to the first IPv4 address, on octets as they come.
module Stun {
  import opened Net
  import opened Octets

  const BINDING_SUCCESS_RESPONSE: u16 := 0x0101
  const ATTR_MAPPED: u16 := 0x0001
  const ATTR_XOR_MAPPED: u16 := 0x0020
  const FAMILY_V4: u8 := 1
  // The magic cookie 0x2112A442, in octets and as the upper half a port is masked with.
  const COOKIE: seq<u8> := [0x21, 0x12, 0xA4, 0x42]
  const COOKIE_HIGH: u16 := 0x2112

  // ---- masking ----

  function Pow2(n: nat): nat { if n == 0 then 1 else 2 * Pow2(n - 1) }

  // Exclusive or of the low n bits.
  function XorBits(a: nat, b: nat, n: nat): (r: nat)
    ensures r < Pow2(n)
  {
    if n == 0 then 0 else 2 * XorBits(a / 2, b / 2, n - 1) + (if a % 2 == b % 2 then 0 else 1)
  }

  lemma {:induction false} XorTwice(a: nat, b: nat, n: nat)
    requires a < Pow2(n)
    ensures XorBits(XorBits(a, b, n), b, n) == a
  {
    if n > 0 {
      var half := XorBits(a / 2, b / 2, n - 1);
      var r := XorBits(a, b, n);
      assert r / 2 == half && r % 2 == if a % 2 == b % 2 then 0 else 1;
      XorTwice(a / 2, b / 2, n - 1);
      assert XorBits(r, b, n) == 2 * XorBits(half, b / 2, n - 1) + (if r % 2 == b % 2 then 0 else 1);
    }
  }

  lemma Widths()
    ensures Pow2(8) == 0x100 && Pow2(16) == 0x1_0000
  {
    assert Pow2(4) == 16;
    assert Pow2(8) == 256;
    assert Pow2(12) == 4096;
  }

  function Xor8(a: u8, b: u8): u8 {
    Widths();
    XorBits(a, b, 8)
  }

  function Xor16(a: u16, b: u16): u16 {
    Widths();
    XorBits(a, b, 16)
  }

  lemma XorUndone(port: u16, byte: u8, mask: u8)
    ensures Xor16(Xor16(port, COOKIE_HIGH), COOKIE_HIGH) == port
    ensures Xor8(Xor8(byte, mask), mask) == byte
  {
    Widths();
    XorTwice(port, COOKIE_HIGH, 16);
    XorTwice(byte, mask, 8);
  }

  // ---- what an attribute says ----

  function Unmask(e: Endpoint): Endpoint {
    Endpoint(Ipv4(Xor8(e.ip.a, COOKIE[0]), Xor8(e.ip.b, COOKIE[1]), Xor8(e.ip.c, COOKIE[2]), Xor8(e.ip.d, COOKIE[3])),
             Xor16(e.port, COOKIE_HIGH))
  }

  // An IPv4 (XOR-)MAPPED-ADDRESS value: reserved octet, family, port, address.
  function Reading(kind: u16, val: seq<u8>): Option<Endpoint> {
    if (kind == ATTR_XOR_MAPPED || kind == ATTR_MAPPED) && |val| >= 8 && val[1] == FAMILY_V4 then
      var plain := Endpoint(Ipv4(val[4], val[5], val[6], val[7]), U16At(val, 2));
      Some(if kind == ATTR_XOR_MAPPED then Unmask(plain) else plain)
    else None
  }

  // The first reading of the attributes in b. The length field of an attribute may reach past the end.
  function Walk(b: seq<u8>): Option<Endpoint>
    decreases |b|
  {
    if |b| < 4 then None
    else
      var kind := U16At(b, 0);
      var alen: int := U16At(b, 2);
      var r := Reading(kind, b[4..Min(4 + alen, |b|)]);
      if r.Some? || 4 + Pad4(alen) > |b| then r else Walk(b[4 + Pad4(alen)..])
  }

  predicate IsResponse(resp: seq<u8>) {
    |resp| >= 20 && U16At(resp, 0) == BINDING_SUCCESS_RESPONSE && resp[4..8] == COOKIE
  }

  function AttrBytes(resp: seq<u8>): seq<u8>
    requires |resp| >= 20
  {
    resp[20..Min(20 + U16At(resp, 2) as int, |resp|)]
  }

  // The address in one attribute, unmasked octet by octet.
  method ReadAddress(atype: u16, val: seq<u8>) returns (r: Option<Endpoint>)
    ensures r == Reading(atype, val)
  {
    hide Xor8, Xor16;
    if !((atype == ATTR_XOR_MAPPED || atype == ATTR_MAPPED) && |val| >= 8 && val[1] == FAMILY_V4) {
      return None;
    }
    var port := U16At(val, 2);
    var ip := val[4..8];
    if atype == ATTR_XOR_MAPPED {
      port := Xor16(port, COOKIE_HIGH);
      for k := 0 to 4
        invariant |ip| == 4
        invariant forall j :: 0 <= j < 4 ==> ip[j] == if j < k then Xor8(val[4 + j], COOKIE[j]) else val[4 + j]
      {
        ip := ip[k := Xor8(ip[k], COOKIE[k])];
      }
    }
    return Some(Endpoint(Ipv4(ip[0], ip[1], ip[2], ip[3]), port));
  }

  // One attribute of a walk, by position.
  lemma WalkAt(b: seq<u8>, i: nat)
    requires i <= |b|
    ensures i + 4 > |b| ==> Walk(b[i..]).None?
    ensures i + 4 <= |b| ==>
              var alen: int := U16At(b, i + 2);
              var r := Reading(U16At(b, i), b[i + 4..Min(i + 4 + alen, |b|)]);
              Walk(b[i..]) == if r.Some? then r
                              else if i + 4 + Pad4(alen) <= |b| then Walk(b[i + 4 + Pad4(alen)..])
                              else None
  {
    hide Reading;
    if i + 4 <= |b| {
      var alen: int := U16At(b, i + 2);
      assert b[i..][4..Min(4 + alen, |b[i..]|)] == b[i + 4..Min(i + 4 + alen, |b|)];
      if i + 4 + Pad4(alen) <= |b| {
        assert b[i..][4 + Pad4(alen)..] == b[i + 4 + Pad4(alen)..];
      }
    }
  }

  method ParseMapped(resp: seq<u8>) returns (r: Option<Endpoint>)
    ensures r == if IsResponse(resp) then Walk(AttrBytes(resp)) else None
  {
    hide Reading, Walk;
    if |resp| < 20 {
      return None;
    }
    if U16At(resp, 0) != BINDING_SUCCESS_RESPONSE {
      return None;
    }
    if resp[4..8] != COOKIE {
      return None;
    }
    var end := Min(20 + U16At(resp, 2) as int, |resp|);
    var attrs := resp[20..end];
    var i := 0;
    assert attrs[0..] == attrs;
    while i + 4 <= |attrs|
      invariant Walk(attrs) == if i <= |attrs| then Walk(attrs[i..]) else None
    {
      var atype := U16At(attrs, i);
      var alen: int := U16At(attrs, i + 2);
      var vstart := i + 4;
      var vend := Min(vstart + alen, |attrs|);
      var found := ReadAddress(atype, attrs[vstart..vend]);
      WalkAt(attrs, i);
      if found.Some? {
        return found;
      }
      i := i + 4 + Pad4(alen);
    }
    if i <= |attrs| {
      WalkAt(attrs, i);
    }
    return None;
  }

  // ---- against serialised messages ----

  datatype Attr = Attr(kind: u16, value: seq<u8>)

  function Serialize(a: Attr): seq<u8>
    requires |a.value| < 0x1_0000
  {
    U16Bytes(a.kind) + U16Bytes(|a.value|) + a.value + Zeros(Pad4(|a.value|) - |a.value|)
  }

  predicate Fits(attrs: seq<Attr>) { forall a :: a in attrs ==> |a.value| < 0x1_0000 }

  function SerializeAll(attrs: seq<Attr>): seq<u8>
    requires Fits(attrs)
  {
    if attrs == [] then [] else Serialize(attrs[0]) + SerializeAll(attrs[1..])
  }

  // The first address attribute of the list, read.
  function FirstReading(attrs: seq<Attr>): Option<Endpoint> {
    if attrs == [] then None
    else if Reading(attrs[0].kind, attrs[0].value).Some? then Reading(attrs[0].kind, attrs[0].value)
    else FirstReading(attrs[1..])
  }

  lemma WalkOneAttr(a: Attr, rest: seq<u8>)
    requires |a.value| < 0x1_0000
    ensures Walk(Serialize(a) + rest) ==
            if Reading(a.kind, a.value).Some? then Reading(a.kind, a.value) else Walk(rest)
  {
    hide Reading;
    var b := Serialize(a) + rest;
    var n := |a.value|;
    assert b[0..2] == U16Bytes(a.kind) && b[2..4] == U16Bytes(n);
    assert b[4..4 + n] == a.value;
    assert b[4 + Pad4(n)..] == rest;
  }

  lemma {:induction false} WalkFindsFirst(attrs: seq<Attr>)
    requires Fits(attrs)
    ensures Walk(SerializeAll(attrs)) == FirstReading(attrs)
  {
    if attrs != [] {
      hide Walk, Serialize;
      assert attrs[0] in attrs;
      WalkOneAttr(attrs[0], SerializeAll(attrs[1..]));
      WalkFindsFirst(attrs[1..]);
    }
  }

  function Message(attrs: seq<Attr>, txn: seq<u8>): seq<u8>
    requires Fits(attrs) && |SerializeAll(attrs)| < 0x1_0000 && |txn| == 12
  {
    U16Bytes(BINDING_SUCCESS_RESPONSE) + U16Bytes(|SerializeAll(attrs)|) + COOKIE + txn + SerializeAll(attrs)
  }

  // On a serialised list of attributes, whatever follows the message, the parser returns the first IPv4
  // MAPPED or XOR-MAPPED address of the list, unmasked, or nothing when there is none.
  lemma ParseFindsFirst(attrs: seq<Attr>, txn: seq<u8>, extra: seq<u8>)
    requires Fits(attrs) && |SerializeAll(attrs)| < 0x1_0000 && |txn| == 12
    ensures var resp := Message(attrs, txn) + extra;
            IsResponse(resp) && Walk(AttrBytes(resp)) == FirstReading(attrs)
  {
    hide Walk, FirstReading, SerializeAll;
    var body := SerializeAll(attrs);
    var resp := Message(attrs, txn) + extra;
    assert resp[0..2] == U16Bytes(BINDING_SUCCESS_RESPONSE);
    assert resp[2..4] == U16Bytes(|body|);
    assert resp[4..8] == COOKIE;
    assert resp[20..20 + |body|] == body;
    WalkFindsFirst(attrs);
  }

  function MappedAttr(xor: bool, e: Endpoint): Attr {
    var w := if xor then Unmask(e) else e;
    Attr(if xor then ATTR_XOR_MAPPED else ATTR_MAPPED,
         [0, FAMILY_V4] + U16Bytes(w.port) + [w.ip.a, w.ip.b, w.ip.c, w.ip.d])
  }

  // An address attribute, masked or plain, reads back as its address.
  lemma MappedRoundTrip(xor: bool, e: Endpoint)
    ensures Reading(MappedAttr(xor, e).kind, MappedAttr(xor, e).value) == Some(e)
  {
    hide Xor8, Xor16;
    var v := MappedAttr(xor, e).value;
    var w := if xor then Unmask(e) else e;
    assert v[2..4] == U16Bytes(w.port);
    XorUndone(e.port, e.ip.a, COOKIE[0]);
    XorUndone(e.port, e.ip.b, COOKIE[1]);
    XorUndone(e.port, e.ip.c, COOKIE[2]);
    XorUndone(e.port, e.ip.d, COOKIE[3]);
  }

  function BuildMappedResponse(xor: bool, e: Endpoint): seq<u8> {
    var a := MappedAttr(xor, e);
    U16Bytes(BINDING_SUCCESS_RESPONSE) + U16Bytes(12) + COOKIE + Zeros(12) + U16Bytes(a.kind) + U16Bytes(8) + a.value
  }

  // A built response, with anything after it, gives back its address.
  lemma ResponseRoundTrip(xor: bool, e: Endpoint, extra: seq<u8>)
    ensures var resp := BuildMappedResponse(xor, e) + extra;
            IsResponse(resp) && Walk(AttrBytes(resp)) == Some(e)
  {
    hide Walk, FirstReading, MappedAttr, Serialize;
    var a := MappedAttr(xor, e);
    MappedSize(xor, e);
    assert SerializeAll([a]) == Serialize(a) + SerializeAll([]);
    assert BuildMappedResponse(xor, e) == Message([a], Zeros(12));
    ParseFindsFirst([a], Zeros(12), extra);
    OnlyReading(xor, e);
  }

  lemma MappedSize(xor: bool, e: Endpoint)
    ensures |MappedAttr(xor, e).value| == 8
    ensures Serialize(MappedAttr(xor, e)) == U16Bytes(MappedAttr(xor, e).kind) + U16Bytes(8) + MappedAttr(xor, e).value
  {
    assert Zeros(0) == [];
  }

  lemma OnlyReading(xor: bool, e: Endpoint)
    ensures FirstReading([MappedAttr(xor, e)]) == Some(e)
  {
    MappedRoundTrip(xor, e);
  }

  // Cut anywhere before its end, it gives nothing: no shorter address is ever read out of it.
  lemma TruncatedGivesNothing(xor: bool, e: Endpoint, cut: nat)
    requires cut < |BuildMappedResponse(xor, e)|
    ensures var resp := BuildMappedResponse(xor, e)[..cut];
            IsResponse(resp) ==> Walk(AttrBytes(resp)).None?
  {
    MappedSize(xor, e);
    var full := BuildMappedResponse(xor, e);
    var resp := full[..cut];
    if cut >= 20 {
      assert full[2..4] == U16Bytes(12);
      assert resp[2] == full[2] && resp[3] == full[3];
      var b := AttrBytes(resp);
      assert b == full[20..cut];
      if cut >= 24 {
        assert full[22..24] == U16Bytes(8);
        assert b[2] == full[22] && b[3] == full[23];
      }
    }
  }
}
