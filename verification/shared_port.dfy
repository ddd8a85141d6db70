// PCP and NAT-PMP on their one port: which dialect a datagram is, and the reply it draws, if any.
//
// What the admission answers, whether the caller holds the lift, the epoch and the external address are inputs.
module SharedPort {
  import opened Net
  import opened Octets
  import opened Pcp

  // NAT-PMP codes and opcodes.
  const NP_UNSUPP_VERSION: u8 := 1
  const NP_NOT_AUTHORIZED: u8 := 2
  const NP_NETWORK_FAILURE: u8 := 3
  const NP_NO_RESOURCES: u8 := 4
  const NP_UNSUPP_OPCODE: u8 := 5
  const OP_PUBLIC: u8 := 0
  const OP_MAP_UDP: u8 := 1
  const OP_MAP_TCP: u8 := 2

  datatype Dialect = PcpDialect | NpmpDialect | Unknown

  // Version octet 0 is NAT-PMP and 2 is PCP; any other is PCP to refuse if it is long enough, else NAT-PMP.
  function Sniff(b: seq<u8>): Dialect {
    if b == [] then Unknown
    else if b[0] == 0 then NpmpDialect
    else if b[0] == VERSION || |b| >= HEADER then PcpDialect
    else NpmpDialect
  }

  datatype NpmpReq = PublicAddress | NpmpMap(op: u8, intPort: u16, sugPort: u16, lifetime: u32)

  datatype NpmpErr = NpmpSilent | NpmpCode(code: u8)

  function ParseNpmp(b: seq<u8>): Result<NpmpReq, NpmpErr> {
    if |b| < 2 || b[1] >= 128 then Err(NpmpSilent)
    else if b[0] != 0 then Err(NpmpCode(NP_UNSUPP_VERSION))
    else if b[1] == OP_PUBLIC then Ok(PublicAddress)
    else if b[1] == OP_MAP_UDP || b[1] == OP_MAP_TCP then
      if |b| < 12 then Err(NpmpSilent) else Ok(NpmpMap(b[1], U16At(b, 4), U16At(b, 6), U32At(b, 8)))
    else Err(NpmpCode(NP_UNSUPP_OPCODE))
  }

  // ---- the replies ----

  datatype MapAnswer = Drop | Answer(code: u8, lifetime: u32, extPort: u16, extIp: Ipv4)

  datatype Env = Env(epoch: u32, lifted: bool, mapAnswer: MapAnswer, peerAnswer: MapAnswer, externalIp: Ipv4)

  // A short lifetime for the three transient errors, a long one for the rest.
  function ErrorLifetime(code: u8): u32 {
    if code == NETWORK_FAILURE || code == NO_RESOURCES || code == USER_EX_QUOTA then 30 else 1800
  }

  function RespHeader(opcode: u8, code: u8, lifetime: u32, epoch: u32): seq<u8>
    requires opcode < 128
  {
    [VERSION, opcode + 128, 0, code] + U32Bytes(lifetime) + U32Bytes(epoch) + Zeros(12)
  }

  function TupleReply(opcode: u8, nonce: seq<u8>, proto: u8, intPort: u16, epoch: u32,
                      code: u8, lifetime: u32, extPort: u16, extIp: Ipv4): seq<u8>
    requires opcode < 128
  {
    RespHeader(opcode, code, lifetime, epoch) + nonce + [proto, 0, 0, 0] + U16Bytes(intPort) + U16Bytes(extPort)
      + Mapped(extIp)
  }

  function MapReply(m: MapReq, epoch: u32, code: u8, lifetime: u32, extPort: u16, extIp: Ipv4): seq<u8> {
    TupleReply(OP_MAP, m.nonce, m.proto, m.intPort, epoch, code, lifetime, extPort, extIp)
  }

  function PeerReply(p: PeerReq, epoch: u32, code: u8, lifetime: u32, extPort: u16, extIp: Ipv4): seq<u8> {
    TupleReply(OP_PEER, p.nonce, p.proto, p.intPort, epoch, code, lifetime, extPort, extIp)
  }

  // The request's own octets, cut at the message limit and padded to four.
  function Kept(req: seq<u8>): (b: seq<u8>)
    ensures |b| == Pad4(if |req| < MAX_MSG then |req| else MAX_MSG)
  {
    var keep := if |req| < MAX_MSG then |req| else MAX_MSG;
    req[..keep] + Zeros(Pad4(keep) - keep)
  }

  // An error reply: the request comes back with the response fields set. It needs room for those fields.
  function ErrorReply(req: seq<u8>, code: u8, epoch: u32): seq<u8>
    requires |req| >= 9
  {
    [VERSION, Kept(req)[1] % 128 + 128, 0, code] + U32Bytes(ErrorLifetime(code)) + U32Bytes(epoch) + Kept(req)[12..]
  }

  method BuildError(req: seq<u8>, code: u8, epoch: u32) returns (out: seq<u8>)
    requires |req| >= 9
    ensures out == ErrorReply(req, code, epoch)
  {
    hide ErrorLifetime, U32Bytes;
    out := PadToFour(req);
    ghost var kept := out;
    out := out[0 := VERSION][1 := out[1] % 128 + 128][2 := 0][3 := code];
    out := out[..4] + U32Bytes(ErrorLifetime(code)) + out[8..];
    out := out[..8] + U32Bytes(epoch) + out[12..];
    assert out[..4] == [VERSION, kept[1] % 128 + 128, 0, code];
    assert out[12..] == kept[12..];
    if |out| >= HEADER {
      // the client field is written back as it came
      var field := out[12..24];
      out := out[..12] + field + out[24..];
    }
  }

  method PadToFour(req: seq<u8>) returns (out: seq<u8>)
    ensures out == Kept(req)
  {
    var keep := Min(|req|, MAX_MSG);
    out := req[..keep];
    while |out| < Pad4(keep)
      invariant keep <= |out| <= Pad4(keep)
      invariant out + Zeros(Pad4(keep) - |out|) == Kept(req)
    {
      assert Zeros(Pad4(keep) - |out|) == [0] + Zeros(Pad4(keep) - |out| - 1);
      out := out + [0];
    }
    assert out + Zeros(0) == out;
  }

  function NpmpPublic(code: u8, epoch: u32, ip: Ipv4): seq<u8> {
    [0, OP_PUBLIC + 128] + U16Bytes(code) + U32Bytes(epoch) + [ip.a, ip.b, ip.c, ip.d]
  }

  function NpmpMapReply(op: u8, code: u8, epoch: u32, intPort: u16, extPort: u16, lifetime: u32): seq<u8>
    requires op < 128
  {
    [0, op + 128] + U16Bytes(code) + U32Bytes(epoch) + U16Bytes(intPort) + U16Bytes(extPort) + U32Bytes(lifetime)
  }

  // The version error keeps the short form with the opcode zeroed: no response bit.
  function NpmpVersionError(epoch: u32): seq<u8> {
    [0, OP_PUBLIC] + U16Bytes(NP_UNSUPP_VERSION) + U32Bytes(epoch)
  }

  function NpmpEcho(req: seq<u8>, epoch: u32): seq<u8>
    requires |req| >= 12 ==> req[1] < 128
  {
    if |req| < 12 then NpmpPublic(NP_UNSUPP_OPCODE, epoch, UNSPECIFIED)
    else [req[0], req[1] + 128, 0, NP_UNSUPP_OPCODE] + U32Bytes(epoch) + req[8..12]
  }

  function NpmpCodeOf(code: u8): u8 {
    if code == 0 then 0
    else if code == USER_EX_QUOTA || code == NO_RESOURCES then NP_NO_RESOURCES
    else if code == NETWORK_FAILURE then NP_NETWORK_FAILURE
    else NP_NOT_AUTHORIZED
  }

  // ---- the choice of a reply ----

  function MapRefusal(m: MapReq, epoch: u32, code: u8): seq<u8> {
    MapReply(m, epoch, code, ErrorLifetime(code), m.sugPort, m.sugIp)
  }

  function PcpReply(pkt: seq<u8>, client: Ipv4, env: Env): Option<seq<u8>>
    requires Sniff(pkt) == PcpDialect
  {
    match ParsePcp(pkt, client)
    case Err(Silent) => None
    case Err(Code(code)) => Some(ErrorReply(pkt, code, env.epoch))
    case Ok(Announce) => Some(RespHeader(OP_ANNOUNCE, 0, 0, env.epoch))
    case Ok(Map(m)) =>
      if m.thirdParty.Some? && !env.lifted then Some(MapRefusal(m, env.epoch, NOT_AUTHORIZED))
      else if m.preferFailure then Some(MapRefusal(m, env.epoch, CANNOT_PROVIDE_EXTERNAL))
      else (match env.mapAnswer
            case Drop => None
            case Answer(code, lifetime, port, ip) => Some(MapReply(m, env.epoch, code, lifetime, port, ip)))
    case Ok(Peer(p)) =>
      match env.peerAnswer
      case Drop => None
      case Answer(code, lifetime, port, ip) => Some(PeerReply(p, env.epoch, code, lifetime, port, ip))
  }

  function NpmpReply(pkt: seq<u8>, env: Env): Option<seq<u8>> {
    match ParseNpmp(pkt)
    case Err(NpmpSilent) => None
    case Err(NpmpCode(code)) =>
      Some(if code == NP_UNSUPP_VERSION then NpmpVersionError(env.epoch) else NpmpEcho(pkt, env.epoch))
    case Ok(PublicAddress) => Some(NpmpPublic(0, env.epoch, env.externalIp))
    case Ok(NpmpMap(op, intPort, _, lifetime)) =>
      if intPort == 0 && lifetime != 0 then Some(NpmpMapReply(op, NP_NOT_AUTHORIZED, env.epoch, intPort, 0, 0))
      else
        match env.mapAnswer
        case Drop => None
        case Answer(code, granted, port, _) =>
          Some(NpmpMapReply(op, NpmpCodeOf(code), env.epoch, intPort, port, granted))
  }

  // The reply to a datagram, or silence.
  function Reply(pkt: seq<u8>, client: Ipv4, env: Env): Option<seq<u8>> {
    match Sniff(pkt)
    case PcpDialect => PcpReply(pkt, client, env)
    case NpmpDialect => NpmpReply(pkt, env)
    case Unknown => None
  }

  method Serve(pkt: seq<u8>, client: Ipv4, env: Env) returns (r: Option<seq<u8>>)
    ensures r == Reply(pkt, client, env)
  {
    hide ParsePcp, ErrorReply, MapReply, PeerReply, RespHeader, NpmpReply;
    var dialect := Sniff(pkt);
    if dialect == PcpDialect {
      ErrorsHaveRoom(pkt, client);
      var req := ParseRequest(pkt, client);
      if req.Err? {
        if req.error.Silent? {
          return None;
        }
        var out := BuildError(pkt, req.error.code, env.epoch);
        return Some(out);
      }
      return PcpReply(pkt, client, env);
    }
    return if dialect == NpmpDialect then NpmpReply(pkt, env) else None;
  }

  // ---- what holds of every datagram ----

  // An error is built only for a datagram with the whole header, so the fields it overwrites are there.
  lemma ErrorsHaveRoom(pkt: seq<u8>, client: Ipv4)
    ensures Sniff(pkt) == PcpDialect && ParsePcp(pkt, client).Err? && ParsePcp(pkt, client).error.Code?
            ==> |pkt| >= HEADER
  {
    hide WalkOptions, Unmapped;
  }

  predicate IsPcpResponse(r: seq<u8>) { |r| >= 8 && r[0] == VERSION && r[1] >= 128 }

  lemma TupleReplyHead(opcode: u8, nonce: seq<u8>, proto: u8, intPort: u16, epoch: u32,
                       code: u8, lifetime: u32, extPort: u16, extIp: Ipv4)
    requires opcode < 128
    ensures IsPcpResponse(TupleReply(opcode, nonce, proto, intPort, epoch, code, lifetime, extPort, extIp))
    ensures IsPcpResponse(RespHeader(opcode, code, lifetime, epoch))
  {
    hide Mapped, Zeros;
  }

  lemma ErrorReplyHead(req: seq<u8>, code: u8, epoch: u32)
    requires |req| >= 9
    ensures IsPcpResponse(ErrorReply(req, code, epoch))
  {
    hide Zeros, ErrorLifetime;
  }

  // Every PCP reply carries the version and the response bit.
  lemma PcpReplyHead(pkt: seq<u8>, client: Ipv4, env: Env)
    requires Sniff(pkt) == PcpDialect && PcpReply(pkt, client, env).Some?
    ensures IsPcpResponse(PcpReply(pkt, client, env).value)
  {
    ErrorsHaveRoom(pkt, client);
    hide ParsePcp, ErrorReply, TupleReply, RespHeader, ErrorLifetime, IsPcpResponse;
    forall opcode: u8, nonce: seq<u8>, proto: u8, intPort: u16, code: u8, lifetime: u32, extPort: u16,
      extIp: Ipv4 | opcode < 128
      ensures IsPcpResponse(TupleReply(opcode, nonce, proto, intPort, env.epoch, code, lifetime, extPort, extIp)) {
      TupleReplyHead(opcode, nonce, proto, intPort, env.epoch, code, lifetime, extPort, extIp);
    }
    match ParsePcp(pkt, client)
    case Err(Code(code)) => ErrorReplyHead(pkt, code, env.epoch);
    case Ok(Announce) => TupleReplyHead(OP_ANNOUNCE, [], 0, 0, env.epoch, 0, 0, 0, UNSPECIFIED);
    case _ =>
  }

  // Every NAT-PMP reply has version zero, and the response bit unless it is the version error.
  lemma NpmpReplyHead(pkt: seq<u8>, env: Env)
    requires Sniff(pkt) == NpmpDialect && NpmpReply(pkt, env).Some?
    ensures var r := NpmpReply(pkt, env).value;
            |r| >= 8 && r[0] == 0
            && if ParseNpmp(pkt) == Err(NpmpCode(NP_UNSUPP_VERSION)) then r[1] == 0 && r == NpmpVersionError(env.epoch)
               else r[1] >= 128
  {}

  // The first two octets of a reply say it is one, except for the version error.
  lemma ReplyHead(pkt: seq<u8>, client: Ipv4, env: Env)
    requires Reply(pkt, client, env).Some?
    ensures var r := Reply(pkt, client, env).value;
            |r| >= 8 && (r[0] == VERSION || r[0] == 0)
            && (r[1] >= 128 || r == NpmpVersionError(env.epoch))
  {
    hide PcpReply, NpmpReply, NpmpVersionError, ParseNpmp;
    if Sniff(pkt) == PcpDialect {
      PcpReplyHead(pkt, client, env);
    } else {
      NpmpReplyHead(pkt, env);
    }
  }

  lemma RepliesAreNotAnswered(r: seq<u8>, client: Ipv4, env: Env)
    requires |r| >= 2 && (r[0] == VERSION || r[0] == 0) && r[1] >= 128
    ensures Reply(r, client, env).None?
  {}

  lemma VersionErrorIsAskedOnce(epoch: u32, client: Ipv4, env: Env)
    ensures Reply(NpmpVersionError(epoch), client, env) == Some(NpmpPublic(0, env.epoch, env.externalIp))
  {
    assert NpmpVersionError(epoch)[0] == 0 && NpmpVersionError(epoch)[1] == 0;
  }

  // No reply loop: whatever a datagram draws, fed back from anywhere it draws silence; only the NAT-PMP
  // version error, which looks like a request for the public address, draws one reply more, and then silence.
  lemma NoReplyLoop(pkt: seq<u8>, a: Ipv4, ea: Env, b: Ipv4, eb: Env, c: Ipv4, ec: Env)
    requires Reply(pkt, a, ea).Some?
    ensures var r := Reply(pkt, a, ea).value;
            if r == NpmpVersionError(ea.epoch)
            then Reply(r, b, eb).Some? && Reply(Reply(r, b, eb).value, c, ec).None?
            else Reply(r, b, eb).None?
  {
    hide Reply, NpmpVersionError;
    ReplyHead(pkt, a, ea);
    var r := Reply(pkt, a, ea).value;
    if r == NpmpVersionError(ea.epoch) {
      VersionErrorIsAskedOnce(ea.epoch, b, eb);
      RepliesAreNotAnswered(NpmpPublic(0, eb.epoch, eb.externalIp), c, ec);
    } else {
      RepliesAreNotAnswered(r, b, eb);
    }
  }

  // Which datagrams draw the version error: short ones whose version octet neither dialect has.
  lemma VersionErrorExactly(pkt: seq<u8>, client: Ipv4, env: Env)
    ensures Reply(pkt, client, env) == Some(NpmpVersionError(env.epoch)) <==>
            2 <= |pkt| < HEADER && pkt[0] != 0 && pkt[0] != VERSION && pkt[1] < 128
  {
    hide PcpReply, NpmpPublic, NpmpMapReply, NpmpEcho;
    var e := NpmpVersionError(env.epoch);
    assert e[0] == 0 && e[1] == 0;
    if Reply(pkt, client, env).Some? {
      if Sniff(pkt) == PcpDialect {
        PcpReplyHead(pkt, client, env);
      } else {
        NpmpReplyHead(pkt, env);
      }
    }
  }

  // A MAP or PEER reply can be matched to its request: same opcode, nonce, protocol and internal port, and its
  // fields read back as what the admission answered.
  lemma TupleReplyReadsBack(opcode: u8, nonce: seq<u8>, proto: u8, intPort: u16, epoch: u32,
                            code: u8, lifetime: u32, extPort: u16, extIp: Ipv4)
    requires opcode < 128 && |nonce| == 12
    ensures var r := TupleReply(opcode, nonce, proto, intPort, epoch, code, lifetime, extPort, extIp);
            |r| == HEADER + OPCODE_DATA && r[0] == VERSION && r[1] == opcode + 128 && r[3] == code
            && U32At(r, 4) == lifetime && U32At(r, 8) == epoch && r[24..36] == nonce && r[36] == proto
            && U16At(r, 40) == intPort && U16At(r, 42) == extPort && Unmapped(r[44..60]) == extIp
  {
    hide Unmapped, Mapped, Zeros;
    var head := RespHeader(opcode, code, lifetime, epoch);
    var r := TupleReply(opcode, nonce, proto, intPort, epoch, code, lifetime, extPort, extIp);
    assert r[..24] == head;
    assert r[4..8] == U32Bytes(lifetime) && r[8..12] == U32Bytes(epoch);
    assert r[24..36] == nonce;
    assert r[40..42] == U16Bytes(intPort) && r[42..44] == U16Bytes(extPort);
    assert r[44..60] == Mapped(extIp);
    U32RoundTrip(r, 4, lifetime);
    U32RoundTrip(r, 8, epoch);
  }

  lemma U32RoundTrip(b: seq<u8>, i: nat, n: u32)
    requires i + 4 <= |b| && b[i..i + 4] == U32Bytes(n)
    ensures U32At(b, i) == n
  {
    var q := U32Bytes(n);
    assert b[i] == q[0] && b[i + 1] == q[1] && b[i + 2] == q[2] && b[i + 3] == q[3];
  }

  // An error reply keeps the octets it does not overwrite, so the client can match it.
  lemma ErrorReplyKeeps(req: seq<u8>, code: u8, epoch: u32)
    requires HEADER <= |req|
    ensures var r := ErrorReply(req, code, epoch);
            |r| % 4 == 0 && |r| <= MAX_MSG && r[1] % 128 == req[1] % 128 && r[3] == code
            && U32At(r, 4) == (if code == 7 || code == 8 || code == 10 then 30 else 1_800) && U32At(r, 8) == epoch
            && forall i :: 12 <= i < |r| ==> r[i] == if i < |req| then req[i] else 0
  {
    var r := ErrorReply(req, code, epoch);
    assert r[4..8] == U32Bytes(ErrorLifetime(code)) && r[8..12] == U32Bytes(epoch);
    U32RoundTrip(r, 4, ErrorLifetime(code));
    U32RoundTrip(r, 8, epoch);
    ZerosAreZero(Pad4(Min(|req|, MAX_MSG)) - Min(|req|, MAX_MSG));
  }

  lemma {:induction false} ZerosAreZero(n: nat)
    ensures forall i :: 0 <= i < n ==> Zeros(n)[i] == 0
  {
    if n > 0 {
      ZerosAreZero(n - 1);
    }
  }
}
