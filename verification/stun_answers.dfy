// What a STUN response says, octet by octet and bit by bit.
module StunAnswers {
  import opened Net
  import opened Stun

  predicate Bit(x: nat, i: nat) { if i == 0 then x % 2 == 1 else Bit(x / 2, i - 1) }

  // Masking flips exactly the bits the mask has.
  lemma {:induction false} XorBitwise(a: nat, b: nat, n: nat, i: nat)
    requires i < n
    ensures Bit(XorBits(a, b, n), i) <==> Bit(a, i) != Bit(b, i)
  {
    var half := XorBits(a / 2, b / 2, n - 1);
    assert XorBits(a, b, n) / 2 == half;
    if i > 0 {
      XorBitwise(a / 2, b / 2, n - 1, i - 1);
    }
  }

  // Numbers of n bits with the same bits are the same.
  lemma {:induction false} BitsTell(a: nat, b: nat, n: nat)
    requires a < Pow2(n) && b < Pow2(n) && forall i :: 0 <= i < n ==> (Bit(a, i) <==> Bit(b, i))
    ensures a == b
  {
    if n > 0 {
      assert Bit(a, 0) <==> Bit(b, 0);
      forall i | 0 <= i < n - 1 ensures Bit(a / 2, i) <==> Bit(b / 2, i) {
        assert Bit(a, i + 1) <==> Bit(b, i + 1);
      }
      BitsTell(a / 2, b / 2, n - 1);
    }
  }

  // c is a with the bits of the mask flipped.
  ghost predicate Flipped(a: nat, mask: nat, n: nat, c: nat) {
    c < Pow2(n) && forall i :: 0 <= i < n ==> (Bit(c, i) <==> Bit(a, i) != Bit(mask, i))
  }

  lemma XorIsFlipped(a: nat, mask: nat, n: nat, c: nat)
    ensures XorBits(a, mask, n) == c <==> Flipped(a, mask, n, c)
  {
    forall i | 0 <= i < n ensures Bit(XorBits(a, mask, n), i) <==> Bit(a, i) != Bit(mask, i) {
      XorBitwise(a, mask, n, i);
    }
    if Flipped(a, mask, n, c) {
      BitsTell(XorBits(a, mask, n), c, n);
    }
  }

  predicate Addressed(val: seq<u8>) { |val| >= 8 && val[1] == 1 }

  // What an address attribute gives, sections 15.1 and 15.2 of RFC 5389: the plain one its octets, the masked one its
  // octets with the bits of 0x2112A442 flipped; an attribute of another type, family or length gives nothing.
  lemma ReadingExactly(kind: u16, val: seq<u8>, e: Endpoint)
    ensures Reading(kind, val) == Some(e) <==>
            Addressed(val)
            && ((kind == 0x0001
                 && e == Endpoint(Ipv4(val[4], val[5], val[6], val[7]), val[2] as int * 256 + val[3] as int))
                || (kind == 0x0020
                    && Flipped(val[4], 0x21, 8, e.ip.a) && Flipped(val[5], 0x12, 8, e.ip.b)
                    && Flipped(val[6], 0xA4, 8, e.ip.c) && Flipped(val[7], 0x42, 8, e.ip.d)
                    && Flipped(val[2] as int * 256 + val[3] as int, 0x2112, 16, e.port)))
  {
    if Addressed(val) {
      XorIsFlipped(val[4], 0x21, 8, e.ip.a);
      XorIsFlipped(val[5], 0x12, 8, e.ip.b);
      XorIsFlipped(val[6], 0xA4, 8, e.ip.c);
      XorIsFlipped(val[7], 0x42, 8, e.ip.d);
      XorIsFlipped(val[2] as int * 256 + val[3] as int, 0x2112, 16, e.port);
      hide XorBits, Flipped, Pow2;
    }
  }

  // A binding success response with the magic cookie, section 6 of RFC 5389.
  lemma ResponseExactly(resp: seq<u8>)
    ensures IsResponse(resp) <==>
            |resp| >= 20 && resp[0] == 0x01 && resp[1] == 0x01
            && resp[4] == 0x21 && resp[5] == 0x12 && resp[6] == 0xA4 && resp[7] == 0x42
  {
    if |resp| >= 20 {
      assert resp[4..8] == [resp[4], resp[5], resp[6], resp[7]];
    }
  }

  // The IPv4 response of section 2.2 of RFC 5769: 192.0.2.1 port 32853.
  lemma SampleResponseReads()
    ensures Reading(0x0020, [0x00, 0x01, 0xa1, 0x47, 0xe1, 0x12, 0xa6, 0x43]) ==
            Some(Endpoint(Ipv4(192, 0, 2, 1), 32853))
  {
    SampleAddress();
    SamplePort();
    hide XorBits;
  }

  lemma SampleAddress()
    ensures XorBits(0xe1, 0x21, 8) == 192 && XorBits(0x12, 0x12, 8) == 0
    ensures XorBits(0xa6, 0xA4, 8) == 2 && XorBits(0x43, 0x42, 8) == 1
  {
    assert XorBits(0xe, 0x2, 4) == 12 && XorBits(0x1, 0x1, 4) == 0;
    assert XorBits(0xa, 0xA, 4) == 0 && XorBits(0x4, 0x4, 4) == 0;
  }

  lemma SamplePort()
    ensures XorBits(0xa147, 0x2112, 16) == 32853
  {
    assert XorBits(0xa, 0x2, 4) == 0x8;
    assert XorBits(0xa1, 0x21, 8) == 0x80;
    assert XorBits(0xa14, 0x211, 12) == 0x805;
  }
}
