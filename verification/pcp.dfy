// The PCP request parser and its option walk.
module Pcp {
  import opened Net
  import opened Octets

  const VERSION: u8 := 2
  const MAX_MSG: nat := 1100
  const HEADER: nat := 24
  const OPCODE_DATA: nat := 36
  const OP_ANNOUNCE: u8 := 0
  const OP_MAP: u8 := 1
  const OP_PEER: u8 := 2

  // Result codes.
  const UNSUPP_VERSION: u8 := 1
  const NOT_AUTHORIZED: u8 := 2
  const MALFORMED_REQUEST: u8 := 3
  const UNSUPP_OPCODE: u8 := 4
  const UNSUPP_OPTION: u8 := 5
  const MALFORMED_OPTION: u8 := 6
  const NETWORK_FAILURE: u8 := 7
  const NO_RESOURCES: u8 := 8
  const USER_EX_QUOTA: u8 := 10
  const CANNOT_PROVIDE_EXTERNAL: u8 := 11
  const ADDRESS_MISMATCH: u8 := 12

  const OPT_THIRD_PARTY: u8 := 1
  const OPT_PREFER_FAILURE: u8 := 2
  const OPT_FILTER: u8 := 3

  datatype Refusal = Silent | Code(code: u8)

  datatype Filter = Filter(prefixLen: u8, peerPort: u16, peerIp: Ipv4)

  datatype MapReq = MapReq(
    lifetime: u32, nonce: seq<u8>, proto: u8, intPort: u16, sugPort: u16, sugIp: Ipv4,
    preferFailure: bool, thirdParty: Option<Ipv4>, filters: seq<Filter>)

  datatype PeerReq = PeerReq(
    lifetime: u32, nonce: seq<u8>, proto: u8, intPort: u16, peerPort: u16, peerIp: Ipv4)

  datatype Req = Announce | Map(m: MapReq) | Peer(p: PeerReq)

  // An IPv4 address in IPv4-mapped form; any other field reads as unspecified.
  function Unmapped(a: seq<u8>): Ipv4 {
    if |a| >= 16 && a[10] == 0xff && a[11] == 0xff && (forall i :: 0 <= i < 10 ==> a[i] == 0)
    then Ipv4(a[12], a[13], a[14], a[15])
    else UNSPECIFIED
  }

  function Mapped(ip: Ipv4): (a: seq<u8>)
    ensures |a| == 16 && Unmapped(a) == ip
  {
    [0, 0, 0, 0, 0, 0, 0, 0, 0, 0, 0xff, 0xff, ip.a, ip.b, ip.c, ip.d]
  }

  // ---- options, one at a time ----

  datatype Opt = Opt(code: u8, val: seq<u8>)

  // The low seven bits name the option; the top bit says it may be ignored.
  predicate Is(o: Opt, name: u8) { o.code % 128 == name }

  // Why an option refuses the request: a known one of the wrong length, or an unknown one that is mandatory.
  function Refused(o: Opt): Option<u8> {
    if Is(o, OPT_THIRD_PARTY) then (if |o.val| == 16 then None else Some(MALFORMED_OPTION))
    else if Is(o, OPT_PREFER_FAILURE) then (if |o.val| == 0 then None else Some(MALFORMED_OPTION))
    else if Is(o, OPT_FILTER) then (if |o.val| == 20 then None else Some(MALFORMED_OPTION))
    else if o.code < 128 then Some(UNSUPP_OPTION)
    else None
  }

  predicate IsFilter(o: Opt) { Is(o, OPT_FILTER) && |o.val| == 20 }

  // A filter with prefix length zero removes the filters before it.
  predicate ClearsFilters(o: Opt) { IsFilter(o) && o.val[1] == 0 }

  function FilterOf(o: Opt): Filter
    requires IsFilter(o)
  {
    Filter(o.val[1], U16At(o.val, 2), Unmapped(o.val[4..20]))
  }

  function Take(m: MapReq, o: Opt): MapReq {
    if Refused(o).Some? then m
    else if Is(o, OPT_THIRD_PARTY) then m.(thirdParty := Some(Unmapped(o.val)))
    else if Is(o, OPT_PREFER_FAILURE) then m.(preferFailure := true)
    else if ClearsFilters(o) then m.(filters := [])
    else if IsFilter(o) then m.(filters := m.filters + [FilterOf(o)])
    else m
  }

  // ---- the walk ----

  // The options of the octets after the opcode data. An option that runs past the end is refused as such; what
  // is left over at the end refuses the request.
  function WalkOptions(b: seq<u8>, m: MapReq): Result<MapReq, u8>
    decreases |b|
  {
    if b == [] then Ok(m)
    else if |b| < 4 then Err(MALFORMED_REQUEST)
    else
      var len: int := U16At(b, 2);
      if 4 + len > |b| then Err(MALFORMED_OPTION)
      else
        var o := Opt(b[0], b[4..4 + len]);
        if Refused(o).Some? then Err(Refused(o).value)
        else if 4 + Pad4(len) > |b| then Err(MALFORMED_REQUEST)
        else WalkOptions(b[4 + Pad4(len)..], Take(m, o))
  }

  // One option of the walk, by position.
  lemma WalkAt(b: seq<u8>, i: nat, m: MapReq)
    requires i <= |b|
    ensures i + 4 > |b| ==> WalkOptions(b[i..], m) == if i == |b| then Ok(m) else Err(MALFORMED_REQUEST)
    ensures i + 4 <= |b| ==>
              var len: int := U16At(b, i + 2);
              WalkOptions(b[i..], m) ==
              if i + 4 + len > |b| then Err(MALFORMED_OPTION)
              else
                var o := Opt(b[i], b[i + 4..i + 4 + len]);
                if Refused(o).Some? then Err(Refused(o).value)
                else if i + 4 + Pad4(len) > |b| then Err(MALFORMED_REQUEST)
                else WalkOptions(b[i + 4 + Pad4(len)..], Take(m, o))
  {
    hide Refused, Take;
    if i + 4 <= |b| {
      var len: int := U16At(b, i + 2);
      if i + 4 + len <= |b| {
        assert b[i..][4..4 + len] == b[i + 4..i + 4 + len];
      }
      if i + 4 + Pad4(len) <= |b| {
        assert b[i..][4 + Pad4(len)..] == b[i + 4 + Pad4(len)..];
      }
    }
  }

  method ReadOptions(buf: seq<u8>, from: nat, req: MapReq) returns (r: Result<MapReq, u8>)
    requires from <= |buf|
    ensures r == WalkOptions(buf[from..], req)
  {
    hide WalkOptions;
    var m := req;
    var i := from;
    while i + 4 <= |buf|
      invariant from <= i
      invariant WalkOptions(buf[from..], req) ==
                if i <= |buf| then WalkOptions(buf[i..], m) else Err(MALFORMED_REQUEST)
    {
      WalkAt(buf, i, m);
      var code := buf[i];
      var len: int := U16At(buf, i + 2);
      var vstart := i + 4;
      var vend := vstart + len;
      if vend > |buf| {
        return Err(MALFORMED_OPTION);
      }
      var val := buf[vstart..vend];
      var name := code % 128;
      if name == OPT_THIRD_PARTY && len == 16 {
        m := m.(thirdParty := Some(Unmapped(val)));
      } else if name == OPT_PREFER_FAILURE && len == 0 {
        m := m.(preferFailure := true);
      } else if name == OPT_FILTER && len == 20 {
        if val[1] == 0 {
          m := m.(filters := []);
        } else {
          m := m.(filters := m.filters + [Filter(val[1], U16At(val, 2), Unmapped(val[4..20]))]);
        }
      } else if name == OPT_THIRD_PARTY || name == OPT_PREFER_FAILURE || name == OPT_FILTER {
        return Err(MALFORMED_OPTION);
      } else if code < 128 {
        return Err(UNSUPP_OPTION);
      }
      i := vstart + Pad4(len);
    }
    if i <= |buf| {
      WalkAt(buf, i, m);
    }
    if i != |buf| {
      return Err(MALFORMED_REQUEST);
    }
    return Ok(m);
  }

  // ---- what a walk means ----

  // The octets as a list of options, when they are one exactly.
  function Decode(b: seq<u8>): Option<seq<Opt>>
    decreases |b|
  {
    if b == [] then Some([])
    else if |b| < 4 then None
    else
      var len: int := U16At(b, 2);
      if 4 + Pad4(len) > |b| then None
      else
        var rest := Decode(b[4 + Pad4(len)..]);
        if rest.None? then None else Some([Opt(b[0], b[4..4 + len])] + rest.value)
  }

  predicate NoneRefused(opts: seq<Opt>) { forall o :: o in opts ==> Refused(o).None? }

  function TakeAll(m: MapReq, opts: seq<Opt>): MapReq
    decreases |opts|
  {
    if opts == [] then m else TakeAll(Take(m, opts[0]), opts[1..])
  }

  // The options after the last one that clears the filters.
  function AfterLastClear(opts: seq<Opt>): seq<Opt> {
    if opts == [] then []
    else if ClearsFilters(opts[|opts| - 1]) then []
    else AfterLastClear(opts[..|opts| - 1]) + [opts[|opts| - 1]]
  }

  function FiltersOf(opts: seq<Opt>): seq<Filter> {
    if opts == [] then []
    else FiltersOf(opts[..|opts| - 1])
         + (if IsFilter(opts[|opts| - 1]) then [FilterOf(opts[|opts| - 1])] else [])
  }

  function LastThirdParty(opts: seq<Opt>): Option<Ipv4> {
    if opts == [] then None
    else if Is(opts[|opts| - 1], OPT_THIRD_PARTY) then Some(Unmapped(opts[|opts| - 1].val))
    else LastThirdParty(opts[..|opts| - 1])
  }

  lemma {:induction false} TakeAllLast(m: MapReq, opts: seq<Opt>, o: Opt)
    ensures TakeAll(m, opts + [o]) == Take(TakeAll(m, opts), o)
    decreases |opts|
  {
    hide Take;
    if opts == [] {
      assert ([] + [o])[1..] == [];
    } else {
      assert (opts + [o])[1..] == opts[1..] + [o];
      TakeAllLast(Take(m, opts[0]), opts[1..], o);
    }
  }

  // Setting a clear option or a filter at the end of the list.
  lemma FiltersOfMore(opts: seq<Opt>, o: Opt)
    ensures FiltersOf(AfterLastClear(opts + [o])) ==
            if ClearsFilters(o) then []
            else FiltersOf(AfterLastClear(opts)) + (if IsFilter(o) then [FilterOf(o)] else [])
    ensures LastThirdParty(opts + [o]) ==
            if Is(o, OPT_THIRD_PARTY) then Some(Unmapped(o.val)) else LastThirdParty(opts)
  {
    hide Unmapped, FilterOf;
    assert (opts + [o])[..|opts|] == opts;
    var kept := AfterLastClear(opts);
    assert (kept + [o])[..|kept|] == kept;
  }

  predicate PrefersFailure(opts: seq<Opt>) { exists o :: o in opts && Is(o, OPT_PREFER_FAILURE) }

  // What accepted options leave in a request without any so far: the last third party, the failure
  // preference if any option set it, and the non-zero-prefix filters after the last zero-prefix one, in order.
  lemma {:induction false} TakeAllMeans(m: MapReq, opts: seq<Opt>)
    requires NoneRefused(opts) && m.filters == [] && m.thirdParty.None? && !m.preferFailure
    ensures TakeAll(m, opts) == m.(
              filters := FiltersOf(AfterLastClear(opts)),
              thirdParty := LastThirdParty(opts),
              preferFailure := PrefersFailure(opts))
  {
    if opts != [] {
      var front, o := opts[..|opts| - 1], opts[|opts| - 1];
      assert opts == front + [o] && o in opts;
      TakeAllMeans(m, front);
      TakeAllLast(m, front, o);
      FiltersOfMore(front, o);
      assert PrefersFailure(opts) <==> PrefersFailure(front) || Is(o, OPT_PREFER_FAILURE);
      hide Unmapped, FilterOf, TakeAll, FiltersOf, AfterLastClear, LastThirdParty, NoneRefused;
      assert Refused(o).None?;
    }
  }

  // A request is accepted exactly when its octets are a list of options none of which refuses.
  lemma {:induction false} WalkExactly(b: seq<u8>, m: MapReq)
    ensures WalkOptions(b, m).Ok? <==> Decode(b).Some? && NoneRefused(Decode(b).value)
    ensures WalkOptions(b, m).Ok? ==> WalkOptions(b, m).value == TakeAll(m, Decode(b).value)
    decreases |b|
  {
    hide Refused, Take;
    if |b| >= 4 {
      var len: int := U16At(b, 2);
      if 4 + Pad4(len) <= |b| {
        var o := Opt(b[0], b[4..4 + len]);
        var rest := b[4 + Pad4(len)..];
        WalkExactly(rest, Take(m, o));
        if Decode(rest).Some? {
          RefusedFirstOrLater(o, Decode(rest).value);
          assert ([o] + Decode(rest).value)[1..] == Decode(rest).value;
        }
      }
    }
  }

  lemma RefusedFirstOrLater(o: Opt, opts: seq<Opt>)
    ensures NoneRefused([o] + opts) <==> Refused(o).None? && NoneRefused(opts)
  {
    hide Refused;
    assert forall x :: x in [o] + opts <==> x == o || x in opts;
  }

  lemma RefusalsNameOptions(o: Opt)
    ensures Refused(o).None? || Refused(o) == Some(MALFORMED_OPTION) || Refused(o) == Some(UNSUPP_OPTION)
  {}

  // On octets whose number is a multiple of four the walk never reaches its end misaligned: a refusal always
  // names an option, and what is accepted is consumed exactly.
  lemma {:induction false} AlignedNeverTrails(b: seq<u8>, m: MapReq)
    requires |b| % 4 == 0
    ensures WalkOptions(b, m).Err?
            ==> WalkOptions(b, m).error == MALFORMED_OPTION || WalkOptions(b, m).error == UNSUPP_OPTION
    decreases |b|
  {
    hide Take, Refused;
    if |b| >= 4 {
      var len: int := U16At(b, 2);
      if 4 + len <= |b| {
        var o := Opt(b[0], b[4..4 + len]);
        RefusalsNameOptions(o);
        assert 4 + Pad4(len) <= |b|;
        AlignedNeverTrails(b[4 + Pad4(len)..], Take(m, o));
      }
    }
  }

  // Every list of options can be sent: its octets decode to it.
  function SerializeOpt(o: Opt): seq<u8>
    requires |o.val| < 0x1_0000
  {
    [o.code, 0] + U16Bytes(|o.val|) + o.val + Zeros(Pad4(|o.val|) - |o.val|)
  }

  function SerializeOpts(opts: seq<Opt>): seq<u8>
    requires forall o :: o in opts ==> |o.val| < 0x1_0000
  {
    if opts == [] then [] else SerializeOpt(opts[0]) + SerializeOpts(opts[1..])
  }

  lemma DecodeOne(o: Opt, rest: seq<u8>)
    requires |o.val| < 0x1_0000
    ensures Decode(SerializeOpt(o) + rest) ==
            if Decode(rest).None? then None else Some([o] + Decode(rest).value)
  {
    var b, n := SerializeOpt(o) + rest, |o.val|;
    assert b[2..4] == U16Bytes(n);
    assert b[4..4 + n] == o.val;
    assert b[4 + Pad4(n)..] == rest;
  }

  lemma {:induction false} DecodeSerialized(opts: seq<Opt>)
    requires forall o :: o in opts ==> |o.val| < 0x1_0000
    ensures Decode(SerializeOpts(opts)) == Some(opts)
  {
    if opts != [] {
      hide Decode, SerializeOpt;
      assert opts[0] in opts;
      DecodeSerialized(opts[1..]);
      DecodeOne(opts[0], SerializeOpts(opts[1..]));
      assert [opts[0]] + opts[1..] == opts;
    } else {
      assert Decode([]) == Some([]);
    }
  }

  // ---- the request ----

  function EmptyMap(buf: seq<u8>): MapReq
    requires |buf| >= 60
  {
    MapReq(U32At(buf, 4), buf[24..36], buf[36], U16At(buf, 40), U16At(buf, 42), Unmapped(buf[44..60]), false, None, [])
  }

  function ParsePcp(buf: seq<u8>, src: Ipv4): Result<Req, Refusal> {
    if |buf| < 2 || buf[1] >= 128 then Err(Silent)
    else if buf[0] != VERSION then Err(Code(UNSUPP_VERSION))
    else if |buf| < HEADER then Err(Silent)
    else if |buf| > MAX_MSG || |buf| % 4 != 0 then Err(Code(MALFORMED_REQUEST))
    else if Unmapped(buf[8..24]) != src then Err(Code(ADDRESS_MISMATCH))
    else if buf[1] == OP_ANNOUNCE then Ok(Announce)
    else if buf[1] == OP_PEER then
      if |buf| < HEADER + OPCODE_DATA + 20 then Err(Code(MALFORMED_REQUEST))
      else Ok(Peer(PeerReq(U32At(buf, 4), buf[24..36], buf[36], U16At(buf, 40), U16At(buf, 60), Unmapped(buf[64..80]))))
    else if buf[1] == OP_MAP then
      if |buf| < HEADER + OPCODE_DATA || (U16At(buf, 40) == 0 && U32At(buf, 4) != 0) then Err(Code(MALFORMED_REQUEST))
      else
        var m := WalkOptions(buf[60..], EmptyMap(buf));
        if m.Ok? then Ok(Map(m.value)) else Err(Code(m.error))
    else Err(Code(UNSUPP_OPCODE))
  }

  method ParseRequest(buf: seq<u8>, src: Ipv4) returns (r: Result<Req, Refusal>)
    ensures r == ParsePcp(buf, src)
  {
    hide WalkOptions, Unmapped;
    if |buf| < 2 {
      return Err(Silent);
    }
    var opcode := buf[1] % 128;
    if buf[1] >= 128 {
      return Err(Silent);
    }
    if buf[0] != VERSION {
      return Err(Code(UNSUPP_VERSION));
    }
    if |buf| < HEADER {
      return Err(Silent);
    }
    if |buf| > MAX_MSG || |buf| % 4 != 0 {
      return Err(Code(MALFORMED_REQUEST));
    }
    if Unmapped(buf[8..24]) != src {
      return Err(Code(ADDRESS_MISMATCH));
    }
    var lifetime := U32At(buf, 4);
    if opcode == OP_ANNOUNCE {
      return Ok(Announce);
    }
    if opcode != OP_MAP && opcode != OP_PEER {
      return Err(Code(UNSUPP_OPCODE));
    }
    if |buf| < HEADER + OPCODE_DATA + (if opcode == OP_PEER then 20 else 0) {
      return Err(Code(MALFORMED_REQUEST));
    }
    var nonce, proto, intPort := buf[24..36], buf[36], U16At(buf, 40);
    if opcode == OP_PEER {
      return Ok(Peer(PeerReq(lifetime, nonce, proto, intPort, U16At(buf, 60), Unmapped(buf[64..80]))));
    }
    var req := MapReq(lifetime, nonce, proto, intPort, U16At(buf, 42), Unmapped(buf[44..60]), false, None, []);
    if intPort == 0 && lifetime != 0 {
      return Err(Code(MALFORMED_REQUEST));
    }
    var m := ReadOptions(buf, HEADER + OPCODE_DATA, req);
    return if m.Ok? then Ok(Map(m.value)) else Err(Code(m.error));
  }

  // A MAP that passes the header checks is accepted exactly when its options decode and none refuses; then it
  // carries the header's fields and what the options mean. Otherwise the refusal names an option.
  lemma MapRequestExactly(buf: seq<u8>, src: Ipv4)
    requires HEADER + OPCODE_DATA <= |buf| <= MAX_MSG && |buf| % 4 == 0
    requires buf[0] == VERSION && buf[1] == OP_MAP && Unmapped(buf[8..24]) == src
    requires U16At(buf, 40) == 0 ==> U32At(buf, 4) == 0
    ensures var opts := Decode(buf[60..]);
            if opts.Some? && NoneRefused(opts.value)
            then ParsePcp(buf, src) ==
                 Ok(Map(EmptyMap(buf).(
                   filters := FiltersOf(AfterLastClear(opts.value)),
                   thirdParty := LastThirdParty(opts.value),
                   preferFailure := PrefersFailure(opts.value))))
            else ParsePcp(buf, src) == Err(Code(MALFORMED_OPTION)) || ParsePcp(buf, src) == Err(Code(UNSUPP_OPTION))
  {
    var m := EmptyMap(buf);
    WalkExactly(buf[60..], m);
    AlignedNeverTrails(buf[60..], m);
    if WalkOptions(buf[60..], m).Ok? {
      TakeAllMeans(m, Decode(buf[60..]).value);
      hide WalkOptions, Decode, TakeAll, FiltersOf, AfterLastClear, LastThirdParty, Unmapped, EmptyMap;
    } else {
      hide WalkOptions, Decode, TakeAll, Unmapped, EmptyMap;
    }
  }
}
