// PCP requests as a client writes them: the octets of each option, and what the server makes of them.
module PcpOptions {
  import opened Net
  import opened Octets
  import opened Pcp

  // ---- fields ----

  lemma BigEndian(b: seq<u8>, i: nat)
    requires i + 4 <= |b|
    ensures U16At(b, i) == b[i] as int * 256 + b[i + 1] as int
    ensures U32At(b, i) ==
            b[i] as int * 0x100_0000 + b[i + 1] as int * 0x1_0000 + b[i + 2] as int * 256 + b[i + 3] as int
  {}

  // Sixteen octets are an IPv4 address when the first twelve are ten zeros and two of all ones; else no address.
  lemma AddressExactly(a: seq<u8>)
    requires |a| == 16
    ensures Unmapped(a) ==
            if a[..12] == [0, 0, 0, 0, 0, 0, 0, 0, 0, 0, 255, 255] then Ipv4(a[12], a[13], a[14], a[15])
            else Ipv4(0, 0, 0, 0)
  {
    var head := a[..12];
    assert forall i :: 0 <= i < 12 ==> head[i] == a[i];
    if a[10] == 255 && a[11] == 255 && forall i :: 0 <= i < 10 ==> a[i] == 0 {
      assert head == [0, 0, 0, 0, 0, 0, 0, 0, 0, 0, 255, 255];
    }
  }

  // ---- which options refuse a request ----

  // Options 1, 2 and 3 have 16, 0 and 20 octets, or are malformed; any other is unsupported unless its top bit is set.
  lemma OptionExactly(o: Opt)
    ensures var name, n := o.code % 128, |o.val|;
            (Refused(o) == Some(6) <==> (name == 1 && n != 16) || (name == 2 && n != 0) || (name == 3 && n != 20))
            && (Refused(o) == Some(5) <==> name != 1 && name != 2 && name != 3 && o.code < 128)
            && (Refused(o).None? || Refused(o) == Some(5) || Refused(o) == Some(6))
  {}

  // ---- options as a client asks for them ----

  // A mapping for another host; its suggestion or nothing; packets from some peers only, or from anyone again; and
  // an option this server does not know but may ignore.
  datatype Ask =
    | ForHost(host: Ipv4)
    | Insist
    | OnlyFrom(prefixLen: u8, peerPort: u16, peerIp: Ipv4)
    | FromAnyone
    | Ignorable(code: u8, len: u8)

  function AddressOctets(ip: Ipv4): seq<u8> { [0, 0, 0, 0, 0, 0, 0, 0, 0, 0, 255, 255, ip.a, ip.b, ip.c, ip.d] }

  predicate Sendable(a: Ask) {
    (a.OnlyFrom? ==> a.prefixLen != 0)
    && (a.Ignorable? ==> a.code >= 128 && a.code % 128 != 1 && a.code % 128 != 2 && a.code % 128 != 3 && a.len % 4 == 0)
  }

  function Sent(a: Ask): seq<u8> {
    match a
    case ForHost(host) => [1, 0, 0, 16] + AddressOctets(host)
    case Insist => [2, 0, 0, 0]
    case OnlyFrom(prefixLen, peerPort, peerIp) =>
      [3, 0, 0, 20, 0, prefixLen, peerPort / 256, peerPort % 256] + AddressOctets(peerIp)
    case FromAnyone => [3, 0, 0, 20, 0, 0, 0, 0] + AddressOctets(Ipv4(0, 0, 0, 0))
    case Ignorable(code, len) => [code, 0, 0, len] + Zeros(len)
  }

  function SentAll(asks: seq<Ask>): seq<u8> { if asks == [] then [] else Sent(asks[0]) + SentAll(asks[1..]) }

  // What a request comes to mean by one more option, in the order they are sent.
  function Meaning(m: MapReq, a: Ask): MapReq {
    match a
    case ForHost(host) => m.(thirdParty := Some(host))
    case Insist => m.(preferFailure := true)
    case OnlyFrom(prefixLen, peerPort, peerIp) => m.(filters := m.filters + [Filter(prefixLen, peerPort, peerIp)])
    case FromAnyone => m.(filters := [])
    case Ignorable(_, _) => m
  }

  function Meant(m: MapReq, asks: seq<Ask>): MapReq
    decreases |asks|
  {
    if asks == [] then m else Meant(Meaning(m, asks[0]), asks[1..])
  }

  function AsOpt(a: Ask): Opt {
    match a
    case ForHost(host) => Opt(1, AddressOctets(host))
    case Insist => Opt(2, [])
    case OnlyFrom(prefixLen, peerPort, peerIp) =>
      Opt(3, [0, prefixLen, peerPort / 256, peerPort % 256] + AddressOctets(peerIp))
    case FromAnyone => Opt(3, [0, 0, 0, 0] + AddressOctets(Ipv4(0, 0, 0, 0)))
    case Ignorable(code, len) => Opt(code, Zeros(len))
  }

  lemma OptMeans(m: MapReq, a: Ask)
    requires Sendable(a)
    ensures Refused(AsOpt(a)).None? && Take(m, AsOpt(a)) == Meaning(m, a)
    ensures |AsOpt(a).val| < 256 && |AsOpt(a).val| % 4 == 0
  {
    if a.ForHost? {
      AddressExactly(AddressOctets(a.host));
    } else if a.OnlyFrom? {
      var val := AsOpt(a).val;
      assert val[4..20] == AddressOctets(a.peerIp);
      AddressExactly(AddressOctets(a.peerIp));
      assert U16At(val, 2) == a.peerPort;
    }
    hide Unmapped, U16At;
  }

  lemma SentIsOpt(a: Ask)
    requires Sendable(a)
    ensures Sent(a) == [AsOpt(a).code, 0, 0, |AsOpt(a).val|] + AsOpt(a).val
  {}

  lemma WalkOne(o: Opt, rest: seq<u8>, m: MapReq)
    requires |o.val| < 256 && |o.val| % 4 == 0 && Refused(o).None?
    ensures WalkOptions([o.code, 0, 0, |o.val|] + o.val + rest, m) == WalkOptions(rest, Take(m, o))
  {
    hide Refused, Take;
    var b, n := [o.code, 0, 0, |o.val|] + o.val + rest, |o.val|;
    assert U16At(b, 2) == n && Pad4(n) == n;
    assert b[4..4 + n] == o.val && b[4 + n..] == rest;
  }

  lemma {:induction false} AsksReadBack(asks: seq<Ask>, m: MapReq)
    requires forall a :: a in asks ==> Sendable(a)
    ensures WalkOptions(SentAll(asks), m) == Ok(Meant(m, asks))
    decreases |asks|
  {
    if asks != [] {
      hide WalkOptions, Sent, AsOpt, Refused, Take, Sendable, Meaning;
      var a, rest := asks[0], SentAll(asks[1..]);
      assert a in asks;
      OptMeans(m, a);
      SentIsOpt(a);
      WalkOne(AsOpt(a), rest, m);
      assert forall x :: x in asks[1..] ==> x in asks;
      AsksReadBack(asks[1..], Meaning(m, a));
    } else {
      hide Unmapped, Refused;
    }
  }

  // A MAP request with such options is read as it was written: lifetime, nonce, protocol, internal port, suggested port
  // and address from the header, the rest from the options.
  lemma MapReadsBack(pkt: seq<u8>, client: Ipv4, asks: seq<Ask>)
    requires 60 <= |pkt| <= 1_100 && |pkt| % 4 == 0 && pkt[0] == 2 && pkt[1] == 1 && pkt[8..24] == AddressOctets(client)
    requires U16At(pkt, 40) == 0 ==> U32At(pkt, 4) == 0
    requires pkt[60..] == SentAll(asks) && forall a :: a in asks ==> Sendable(a)
    ensures ParsePcp(pkt, client) ==
            Ok(Map(Meant(MapReq(U32At(pkt, 4), pkt[24..36], pkt[36], U16At(pkt, 40), U16At(pkt, 42),
                                Unmapped(pkt[44..60]), false, None, []), asks)))
  {
    AddressExactly(pkt[8..24]);
    assert pkt[8..24][..12] == AddressOctets(client)[..12];
    hide WalkOptions, Unmapped, U16At, U32At, SentAll, Meant, Sendable;
    AsksReadBack(asks, EmptyMap(pkt));
  }
}
