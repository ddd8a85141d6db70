// The shared port's replies as a client reads them, datagram by datagram.
module SharedReplies {
  import opened Net
  import opened Octets
  import opened Pcp
  import opened SharedPort

  // ---- NAT-PMP, sections 3.2 to 3.5 of RFC 6886 ----

  // What NAT-PMP calls a result of the admission it shares with PCP.
  function NpmpResult(code: u8): u8 {
    if code == 0 then 0 else if code == 8 || code == 10 then 4 else if code == 7 then 3 else 2
  }

  // A mapping reply read back: opcode, result, epoch, internal port, external port and lifetime.
  predicate ReadsAsMapping(r: seq<u8>, op: u8, code: u8, epoch: u32, intPort: u16, extPort: u16, lifetime: u32) {
    |r| == 16 && r[0] == 0 && r[1] == op + 128 && U16At(r, 2) == code && U32At(r, 4) == epoch
    && U16At(r, 8) == intPort && U16At(r, 10) == extPort && U32At(r, 12) == lifetime
  }

  lemma MappingReads(op: u8, code: u8, epoch: u32, intPort: u16, extPort: u16, lifetime: u32)
    requires op < 128
    ensures ReadsAsMapping(NpmpMapReply(op, code, epoch, intPort, extPort, lifetime), op, code, epoch, intPort, extPort,
                           lifetime)
  {
    hide U32Bytes;
    var r := NpmpMapReply(op, code, epoch, intPort, extPort, lifetime);
    assert r[2..4] == U16Bytes(code) && r[4..8] == U32Bytes(epoch);
    assert r[8..10] == U16Bytes(intPort) && r[10..12] == U16Bytes(extPort) && r[12..16] == U32Bytes(lifetime);
    U32RoundTrip(r, 4, epoch);
    U32RoundTrip(r, 12, lifetime);
  }

  // A well-formed map request for a port, or for a delete, is answered with its own opcode and internal port and
  // with what the admission said; one that names no port is refused.
  lemma NpmpMapExactly(pkt: seq<u8>, client: Ipv4, env: Env)
    requires 12 <= |pkt| && pkt[0] == 0 && (pkt[1] == 1 || pkt[1] == 2)
    ensures var r, port := Reply(pkt, client, env), U16At(pkt, 4);
            if port == 0 && U32At(pkt, 8) != 0 then r.Some? && ReadsAsMapping(r.value, pkt[1], 2, env.epoch, 0, 0, 0)
            else match env.mapAnswer
                 case Drop => r == None
                 case Answer(code, lifetime, extPort, _) =>
                   r.Some?
                   && ReadsAsMapping(r.value, pkt[1], NpmpResult(code), env.epoch, port, extPort, lifetime)
  {
    var port := U16At(pkt, 4);
    MappingReads(pkt[1], 2, env.epoch, port, 0, 0);
    if env.mapAnswer.Answer? {
      var a := env.mapAnswer;
      MappingReads(pkt[1], NpmpResult(a.code), env.epoch, port, a.extPort, a.lifetime);
    }
    hide NpmpMapReply, ReadsAsMapping, U16At, U32At, PcpReply;
  }

  // A request for the public address gets it, after a result of zero and the epoch.
  lemma NpmpPublicExactly(pkt: seq<u8>, client: Ipv4, env: Env)
    requires 2 <= |pkt| && pkt[0] == 0 && pkt[1] == 0
    ensures var r := Reply(pkt, client, env);
            r.Some? && |r.value| == 12 && r.value[0] == 0 && r.value[1] == 128 && U16At(r.value, 2) == 0
            && U32At(r.value, 4) == env.epoch
            && r.value[8..] == [env.externalIp.a, env.externalIp.b, env.externalIp.c, env.externalIp.d]
  {
    hide U32Bytes, NpmpMapReply, NpmpEcho;
    var r := NpmpPublic(0, env.epoch, env.externalIp);
    assert r[2..4] == U16Bytes(0) && r[4..8] == U32Bytes(env.epoch);
    U32RoundTrip(r, 4, env.epoch);
  }

  // Any other opcode comes back with the response bit and code five, in its own twelve octets when it has them.
  lemma NpmpUnknownExactly(pkt: seq<u8>, client: Ipv4, env: Env)
    requires 2 <= |pkt| && pkt[0] == 0 && 3 <= pkt[1] < 128
    ensures var r := Reply(pkt, client, env);
            r.Some? && |r.value| == 12 && r.value[0] == 0 && U16At(r.value, 2) == 5 && U32At(r.value, 4) == env.epoch
            && (if |pkt| >= 12 then r.value[1] == pkt[1] + 128 && r.value[8..] == pkt[8..12]
                else r.value[1] == 128 && r.value[8..] == [0, 0, 0, 0])
  {
    hide U32Bytes, NpmpMapReply;
    var r := NpmpEcho(pkt, env.epoch);
    assert Reply(pkt, client, env) == Some(r);
    assert |pkt| < 12 ==> r[2..4] == U16Bytes(5);
    assert r[4..8] == U32Bytes(env.epoch);
    U32RoundTrip(r, 4, env.epoch);
  }

  // Silence: too short to have an opcode, a response, or a NAT-PMP map request cut short.
  lemma SilenceExactly(pkt: seq<u8>, client: Ipv4, env: Env)
    requires |pkt| < 2 || pkt[1] >= 128 || (pkt[0] == 0 && (pkt[1] == 1 || pkt[1] == 2) && |pkt| < 12)
             || (pkt[0] == 2 && |pkt| < 24)
    ensures Reply(pkt, client, env) == None
  {}

  // ---- PCP, section 7 of RFC 6887 ----

  // The client address of a request, as its header carries it.
  predicate FromClient(pkt: seq<u8>, client: Ipv4)
    requires |pkt| >= 24
  {
    Unmapped(pkt[8..24]) == client
  }

  predicate RefusedWith(r: Option<seq<u8>>, pkt: seq<u8>, code: u8, epoch: u32)
    requires |pkt| >= 24
  {
    r == Some(ErrorReply(pkt, code, epoch))
  }

  // Which refusal a whole header draws: another version, a forbidden length, a foreign address, an opcode that is not
  // known, one without its data, or a port of zero that is not a delete.
  lemma RefusalExactly(pkt: seq<u8>, client: Ipv4, env: Env)
    requires |pkt| >= 24 && pkt[0] != 0 && pkt[1] < 128
    ensures var r := Reply(pkt, client, env);
            var lengthOk := |pkt| <= 1_100 && |pkt| % 4 == 0;
            (pkt[0] != 2 ==> RefusedWith(r, pkt, 1, env.epoch))
            && (pkt[0] == 2 && !lengthOk ==> RefusedWith(r, pkt, 3, env.epoch))
            && (pkt[0] == 2 && lengthOk && !FromClient(pkt, client) ==> RefusedWith(r, pkt, 12, env.epoch))
            && (pkt[0] == 2 && lengthOk && FromClient(pkt, client) ==>
                  (pkt[1] > 2 ==> RefusedWith(r, pkt, 4, env.epoch))
                  && (pkt[1] == 2 && |pkt| < 80 ==> RefusedWith(r, pkt, 3, env.epoch))
                  && (pkt[1] == 1 && |pkt| < 60 ==> RefusedWith(r, pkt, 3, env.epoch))
                  && (pkt[1] == 1 && |pkt| >= 60 && U16At(pkt, 40) == 0 && U32At(pkt, 4) != 0
                      ==> RefusedWith(r, pkt, 3, env.epoch)))
  {
    hide ErrorReply, Unmapped, U16At, U32At, WalkOptions, EmptyMap, TupleReply, NpmpReply, RespHeader;
  }

  predicate Sound(pkt: seq<u8>, client: Ipv4, opcode: u8) {
    24 <= |pkt| <= 1_100 && |pkt| % 4 == 0 && pkt[0] == 2 && pkt[1] == opcode && FromClient(pkt, client)
  }

  // An announcement is answered by the header alone.
  lemma AnnounceExactly(pkt: seq<u8>, client: Ipv4, env: Env)
    requires Sound(pkt, client, 0)
    ensures var r := Reply(pkt, client, env);
            r.Some? && |r.value| == 24 && r.value[..4] == [2, 128, 0, 0] && U32At(r.value, 4) == 0
            && U32At(r.value, 8) == env.epoch && r.value[12..] == Zeros(12)
  {
    hide U32Bytes, Zeros, Unmapped;
    var r := RespHeader(0, 0, 0, env.epoch);
    assert Reply(pkt, client, env) == Some(r);
    assert r[4..8] == U32Bytes(0) && r[8..12] == U32Bytes(env.epoch);
    U32RoundTrip(r, 4, 0);
    U32RoundTrip(r, 8, env.epoch);
  }

  // A MAP or PEER reply read back against its request.
  predicate ReadsAsTuple(
    r: seq<u8>, pkt: seq<u8>, code: u8, lifetime: u32, epoch: u32, extPort: u16, extIp: Ipv4)
    requires |pkt| >= 60 && pkt[1] < 128
  {
    |r| == 60 && r[0] == 2 && r[1] == pkt[1] + 128 && r[3] == code
    && U32At(r, 4) == lifetime && U32At(r, 8) == epoch
    && r[24..36] == pkt[24..36] && r[36] == pkt[36] && U16At(r, 40) == U16At(pkt, 40)
    && U16At(r, 42) == extPort && Unmapped(r[44..60]) == extIp
  }

  lemma TupleReads(pkt: seq<u8>, code: u8, lifetime: u32, epoch: u32, extPort: u16, extIp: Ipv4)
    requires |pkt| >= 60 && pkt[1] < 128
    ensures var r := TupleReply(pkt[1], pkt[24..36], pkt[36], U16At(pkt, 40), epoch, code, lifetime, extPort, extIp);
            ReadsAsTuple(r, pkt, code, lifetime, epoch, extPort, extIp)
  {
    hide TupleReply, Unmapped;
    TupleReplyReadsBack(pkt[1], pkt[24..36], pkt[36], U16At(pkt, 40), epoch, code, lifetime, extPort, extIp);
  }

  // A PEER request is answered with what the admission says of its mapping.
  lemma PeerExactly(pkt: seq<u8>, client: Ipv4, env: Env)
    requires Sound(pkt, client, 2) && |pkt| >= 80
    ensures var r := Reply(pkt, client, env);
            match env.peerAnswer
            case Drop => r == None
            case Answer(code, lifetime, port, ip) =>
              r.Some? && ReadsAsTuple(r.value, pkt, code, lifetime, env.epoch, port, ip)
  {
    if env.peerAnswer.Answer? {
      var a := env.peerAnswer;
      TupleReads(pkt, a.code, a.lifetime, env.epoch, a.extPort, a.extIp);
    }
    hide ReadsAsTuple, TupleReply, Unmapped, U16At, U32At;
  }

  // A MAP request whose options hold: for another host it takes the lift, and it may not insist on its suggestion;
  // both refusals carry the suggestion back for half an hour. Else it is answered with what the admission says.
  lemma MapExactly(pkt: seq<u8>, client: Ipv4, env: Env)
    requires Sound(pkt, client, 1) && |pkt| >= 60 && (U16At(pkt, 40) == 0 ==> U32At(pkt, 4) == 0)
    requires Decode(pkt[60..]).Some? && NoneRefused(Decode(pkt[60..]).value)
    ensures var r, opts := Reply(pkt, client, env), Decode(pkt[60..]).value;
            var sugPort, sugIp := U16At(pkt, 42), Unmapped(pkt[44..60]);
            if LastThirdParty(opts).Some? && !env.lifted
            then r.Some? && ReadsAsTuple(r.value, pkt, 2, 1_800, env.epoch, sugPort, sugIp)
            else if PrefersFailure(opts)
            then r.Some? && ReadsAsTuple(r.value, pkt, 11, 1_800, env.epoch, sugPort, sugIp)
            else match env.mapAnswer
                 case Drop => r == None
                 case Answer(code, lifetime, port, ip) =>
                   r.Some? && ReadsAsTuple(r.value, pkt, code, lifetime, env.epoch, port, ip)
  {
    MapRequestExactly(pkt, client);
    var sugPort, sugIp := U16At(pkt, 42), Unmapped(pkt[44..60]);
    TupleReads(pkt, 2, 1_800, env.epoch, sugPort, sugIp);
    TupleReads(pkt, 11, 1_800, env.epoch, sugPort, sugIp);
    if env.mapAnswer.Answer? {
      var a := env.mapAnswer;
      TupleReads(pkt, a.code, a.lifetime, env.epoch, a.extPort, a.extIp);
    }
    hide ReadsAsTuple, TupleReply, Unmapped, U16At, U32At, Decode, ParsePcp, LastThirdParty, FiltersOf, AfterLastClear,
      PrefersFailure, NoneRefused;
  }

  // One whose options do not hold is refused for the option.
  lemma BadOptionsExactly(pkt: seq<u8>, client: Ipv4, env: Env)
    requires Sound(pkt, client, 1) && |pkt| >= 60 && (U16At(pkt, 40) == 0 ==> U32At(pkt, 4) == 0)
    requires Decode(pkt[60..]).None? || !NoneRefused(Decode(pkt[60..]).value)
    ensures RefusedWith(Reply(pkt, client, env), pkt, 5, env.epoch)
            || RefusedWith(Reply(pkt, client, env), pkt, 6, env.epoch)
  {
    MapRequestExactly(pkt, client);
    hide ErrorReply, Unmapped, U16At, U32At, Decode, ParsePcp, NoneRefused, TupleReply;
  }
}
