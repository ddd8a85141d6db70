// The observation engine's tick: it ages candidate flows, claims quiet ones under budgets, and releases them.
//
// What a tick reads from outside is its input: the live list, the owned tuples, the outcome of each claim's
// steps, the connection table's packet counts, the inbound counters and the device probe.
module Engine {
  import opened Net
  import opened Seqs

  const KEEPALIVE_AFTER_TICKS: u32 := 3
  const LONG_QUIET_TICKS: u32 := 150
  const DEV_MISSES_TO_RELEASE: u8 := 3
  const PROBE_EVERY_TICKS: nat := 3

  // A live flow: the NAT-side tuple to hold and the device behind it.
  datatype Candidate = Candidate(bind: Endpoint, host: Ipv4, hostPort: u16)

  datatype Hold = Hold(
    host: Ipv4, hostPort: u16, bind: Endpoint, devPkts: u64, quiet: u32, misses: u8,
    missing: u32, sinceInbound: u32, inboundSeen: u64)

  datatype ExitReason = OwnedBySlot | Stale | DeviceGone

  // Whether each step of a claim works: the socket, the self-pin, the device's pin and the input accept.
  datatype ClaimEnv = ClaimEnv(bindOk: bool, selfPinOk: bool, pinOk: bool, acceptOk: bool, inbound: u64)

  // Packet counts of the connection table by tuple and device; None when it cannot be read.
  type Counts = Option<map<(Endpoint, Ipv4), u64>>

  datatype TickInput = TickInput(
    live: seq<Candidate>, owned: seq<Endpoint>, claims: seq<ClaimEnv>,
    ageCounts: Counts, liveCounts: Counts, inbound: map<Endpoint, u64>, deviceUp: bool)

  function Sat32(n: nat): u32 { Min(n, U32_MAX) }

  function Sat8(n: nat): u8 { Min(n, 255) }

  function PacketsOr(counts: Counts, key: (Endpoint, Ipv4), fallback: u64): u64 {
    if counts.None? then fallback else if key in counts.value then counts.value[key] else 0
  }

  // ---- decisions ----

  predicate ClaimAllowed(bind: Endpoint, owned: seq<Endpoint>, active: nat, maxRefresh: u32) {
    bind !in owned && active < maxRefresh
  }

  function OfHost(host: Ipv4): Hold -> bool { (s: Hold) => s.host == host }

  predicate HostBudgetOk(host: Ipv4, slots: seq<Hold>, perHost: u32) { Count(slots, OfHost(host)) < perHost }

  function ExitDue(missing: u32, grace: u32, sinceInbound: u32): Option<ExitReason> {
    if missing >= grace && sinceInbound >= grace then Some(Stale) else None
  }

  // Owned is instant; then an absent device; then a flow neither side has touched for long.
  function ReleaseReason(owned: bool, misses: u8, quiet: u32, missing: u32, sinceInbound: u32): Option<ExitReason> {
    if owned then Some(OwnedBySlot)
    else if misses >= DEV_MISSES_TO_RELEASE then Some(DeviceGone)
    else if ExitDue(missing, LONG_QUIET_TICKS, sinceInbound).Some? then ExitDue(missing, LONG_QUIET_TICKS, sinceInbound)
    else if quiet >= LONG_QUIET_TICKS then Some(Stale)
    else None
  }

  function Due(owned: seq<Endpoint>): Hold -> bool {
    (s: Hold) => ReleaseReason(s.bind in owned, s.misses, s.quiet, s.missing, s.sinceInbound).Some?
  }

  function OnTuple(bind: Endpoint): Hold -> bool { (s: Hold) => s.bind == bind }

  function LiveOn(bind: Endpoint): Candidate -> bool { (c: Candidate) => c.bind == bind }

  // ---- the tick as a function ----

  datatype Config = Config(natAddr: Ipv4, maxRefresh: u32, perHost: u32)

  // Young flows carry the running maximum of the device's packets and the quiet ticks.
  type Young = map<Endpoint, (u64, u32)>

  // Pins and accepts are kept by port: a pin operation on another address than the NAT one touches neither.
  datatype State = State(
    cfg: Config, slots: seq<Hold>, young: Young, reported: set<Endpoint>, ticks: nat, cursor: nat,
    selfPins: set<u16>, accepts: set<u16>)

  function Booked(s: Hold, input: TickInput): Hold {
    var now := if s.bind in input.inbound then input.inbound[s.bind] else s.inboundSeen;
    var missing := if Exists(input.live, LiveOn(s.bind)) then 0 else Sat32(s.missing + 1);
    if now != s.inboundSeen then s.(missing := missing, inboundSeen := now, sinceInbound := 0)
    else s.(missing := missing, sinceInbound := Sat32(s.sinceInbound + 1))
  }

  function BookAll(slots: seq<Hold>, input: TickInput): (r: seq<Hold>)
    ensures |r| == |slots| && forall i :: 0 <= i < |r| ==> r[i] == Booked(slots[i], input)
  {
    if slots == [] then []
    else BookAll(slots[..|slots| - 1], input) + [Booked(slots[|slots| - 1], input)]
  }

  lemma BookPrefix(slots: seq<Hold>, k: nat, input: TickInput)
    requires k < |slots|
    ensures BookAll(slots[..k + 1], input) == BookAll(slots[..k], input) + [Booked(slots[k], input)]
  {
    assert slots[..k + 1][..k] == slots[..k];
  }

  function Fresh(c: Candidate, inbound: u64): Hold { Hold(c.host, c.hostPort, c.bind, 0, 0, 0, 0, 0, inbound) }

  function QuietOf(young: Young, bind: Endpoint): u32 { if bind in young then young[bind].1 else 0 }

  // One candidate: claimed, refused, or given up halfway with its pins rolled back.
  function Claim(st: State, c: Candidate, owned: seq<Endpoint>, env: ClaimEnv): State {
    if Exists(st.slots, OnTuple(c.bind)) || QuietOf(st.young, c.bind) < KEEPALIVE_AFTER_TICKS
       || !HostBudgetOk(c.host, st.slots, st.cfg.perHost)
    then st
    else if !ClaimAllowed(c.bind, owned, |st.slots|, st.cfg.maxRefresh) then
      if c.bind in owned then st.(reported := st.reported + {c.bind}) else st
    else if !env.bindOk then st
    else if !env.selfPinOk then PinFailed(st, c.bind)
    else if !env.pinOk then PinDeleted(PinFailed(PinAdded(st, c.bind), c.bind), c.bind)
    else if !env.acceptOk then PinDeleted(PinDeleted(PinAdded(st, c.bind), Endpoint(c.host, c.hostPort)), c.bind)
    else
      var p := PinAdded(st, c.bind);
      p.(slots := st.slots + [Fresh(c, env.inbound)], accepts := st.accepts + {c.bind.port})
  }

  // The self-pin's key is the NAT address and the port. A failed add has dropped the key before giving up.
  function PinAdded(st: State, bind: Endpoint): State { st.(selfPins := st.selfPins + {bind.port}) }

  function PinFailed(st: State, bind: Endpoint): State { st.(selfPins := st.selfPins - {bind.port}) }

  function PinDeleted(st: State, at: Endpoint): State {
    if at.ip == st.cfg.natAddr then st.(selfPins := st.selfPins - {at.port}) else st
  }

  function ClaimAll(st: State, live: seq<Candidate>, owned: seq<Endpoint>, envs: seq<ClaimEnv>): State
    requires |envs| == |live|
  {
    if live == [] then st
    else
      var n := |live| - 1;
      Claim(ClaimAll(st, live[..n], owned, envs[..n]), live[n], owned, envs[n])
  }

  // A packet count above the running maximum means the device still refreshes the flow.
  function Aged(young: Young, bind: Endpoint, pkts: u64): Young {
    var e := if bind in young then young[bind] else (pkts, 0);
    var quiet: nat := e.1;
    young[bind := if pkts > e.0 then (pkts, 0) else (e.0, Sat32(quiet + 1))]
  }

  function AgeAll(young: Young, live: seq<Candidate>, counts: Counts): Young {
    if live == [] then young
    else
      var c := live[|live| - 1];
      Aged(AgeAll(young, live[..|live| - 1], counts), c.bind, PacketsOr(counts, (c.bind, c.host), 0))
  }

  // Young flows are aged and pruned only on ticks whose live list is not empty.
  function AgeYoung(young: Young, live: seq<Candidate>, counts: Counts): Young {
    if live == [] then young
    else
      var aged := AgeAll(young, live, counts);
      map b | b in aged && Exists(live, LiveOn(b)) :: aged[b]
  }

  function Quieted(s: Hold, counts: Counts): Hold {
    var now := PacketsOr(counts, (s.bind, s.host), s.devPkts);
    s.(devPkts := now, quiet := if now > s.devPkts || s.sinceInbound == 0 then 0 else Sat32(s.quiet + 1))
  }

  function Probed(s: Hold, host: Ipv4, up: bool): Hold {
    if s.host != host then s else s.(misses := if up then 0 else Sat8(s.misses + 1))
  }

  // The same fields of every hold, by position.
  function QuietAll(slots: seq<Hold>, counts: Counts): (r: seq<Hold>)
    ensures |r| == |slots| && forall i :: 0 <= i < |r| ==> r[i] == Quieted(slots[i], counts)
  {
    if slots == [] then []
    else QuietAll(slots[..|slots| - 1], counts) + [Quieted(slots[|slots| - 1], counts)]
  }

  function ProbeAll(slots: seq<Hold>, host: Ipv4, up: bool): (r: seq<Hold>)
    ensures |r| == |slots| && forall i :: 0 <= i < |r| ==> r[i] == Probed(slots[i], host, up)
  {
    if slots == [] then []
    else ProbeAll(slots[..|slots| - 1], host, up) + [Probed(slots[|slots| - 1], host, up)]
  }

  // Every third tick one hold's device is probed, round robin, for all that device's holds.
  function Liveness(st: State, input: TickInput): State {
    var t := st.(ticks := st.ticks + 1, young := AgeYoung(st.young, input.live, input.ageCounts));
    if t.slots == [] then t
    else
      var quieted := QuietAll(t.slots, input.liveCounts);
      if t.ticks % PROBE_EVERY_TICKS != 0 then t.(slots := quieted)
      else
        var cursor := if t.cursor >= |quieted| then 0 else t.cursor;
        t.(slots := ProbeAll(quieted, quieted[cursor].host, input.deviceUp), cursor := cursor + 1)
  }

  function Released(st: State, s: Hold): State {
    var p := PinDeleted(PinDeleted(st, Endpoint(s.host, s.hostPort)), s.bind);
    p.(accepts := p.accepts - {s.bind.port})
  }

  // Release from position i on: the last hold moves into a gap and is judged there.
  function Sweep(st: State, owned: seq<Endpoint>, i: nat): State
    requires i <= |st.slots|
    decreases |st.slots| - i
  {
    if i == |st.slots| then st
    else if Due(owned)(st.slots[i])
    then Sweep(Released(st, st.slots[i]).(slots := SwapRemove(st.slots, i)), owned, i)
    else Sweep(st, owned, i + 1)
  }

  function Opened(st: State, input: TickInput): State {
    st.(reported := (set t | t in st.reported && Exists(input.live, LiveOn(t))), slots := BookAll(st.slots, input))
  }

  function Tick(st: State, input: TickInput): State
    requires |input.claims| == |input.live|
  {
    var claimed := ClaimAll(Opened(st, input), input.live, input.owned, input.claims);
    Sweep(Liveness(claimed, input), input.owned, 0)
  }

  // ---- the engine as the program holds it ----

  class ObservationEngine {
    const cfg: Config
    var slots: seq<Hold>
    var young: Young
    var reported: set<Endpoint>
    var ticks: nat
    var cursor: nat
    var selfPins: set<u16>
    var accepts: set<u16>

    ghost function View(): State
      reads this
    {
      State(cfg, slots, young, reported, ticks, cursor, selfPins, accepts)
    }

    constructor (cfg: Config)
      ensures View() == State(cfg, [], map[], {}, 0, 0, {}, {})
    {
      this.cfg := cfg;
      slots, young, reported, ticks, cursor, selfPins, accepts := [], map[], {}, 0, 0, {}, {};
    }

    method PinAdd(bind: Endpoint, ok: bool)
      modifies this`selfPins
      ensures View() == if ok then PinAdded(old(View()), bind) else PinFailed(old(View()), bind)
    {
      selfPins := if ok then selfPins + {bind.port} else selfPins - {bind.port};
    }

    method PinDel(at: Endpoint)
      modifies this`selfPins
      ensures View() == PinDeleted(old(View()), at)
    {
      if at.ip == cfg.natAddr {
        selfPins := selfPins - {at.port};
      }
    }

    method Bookkeep(input: TickInput)
      modifies this`slots
      ensures View() == old(View()).(slots := BookAll(old(slots), input))
    {
      hide BookAll, Exists, FirstIndex, LiveOn;
      var done: seq<Hold> := [];
      assert BookAll(slots[..0], input) == [];
      var k := 0;
      while k < |slots|
        invariant k <= |slots| && slots == old(slots) && done == BookAll(slots[..k], input)
      {
        BookPrefix(slots, k, input);
        var s := slots[k];
        s := s.(missing := if Exists(input.live, LiveOn(s.bind)) then 0 else Sat32(s.missing + 1));
        var ts := if s.bind in input.inbound then input.inbound[s.bind] else s.inboundSeen;
        if ts != s.inboundSeen {
          s := s.(inboundSeen := ts, sinceInbound := 0);
        } else {
          s := s.(sinceInbound := Sat32(s.sinceInbound + 1));
        }
        assert s == Booked(slots[k], input);
        done := done + [s];
        k := k + 1;
      }
      assert slots[..k] == slots;
      slots := done;
    }

    method TryClaim(c: Candidate, owned: seq<Endpoint>, env: ClaimEnv)
      modifies this`slots, this`reported, this`selfPins, this`accepts
      ensures View() == Claim(old(View()), c, owned, env)
    {
      if Exists(slots, OnTuple(c.bind)) {
        return;
      }
      if QuietOf(young, c.bind) < KEEPALIVE_AFTER_TICKS {
        return;
      }
      if !HostBudgetOk(c.host, slots, cfg.perHost) {
        return;
      }
      if !ClaimAllowed(c.bind, owned, |slots|, cfg.maxRefresh) {
        if c.bind in owned {
          reported := reported + {c.bind};
        }
        return;
      }
      if !env.bindOk {
        return;
      }
      PinAdd(c.bind, env.selfPinOk);
      if !env.selfPinOk {
        return;
      }
      // the device's pin writes the same key as the self-pin
      PinAdd(c.bind, env.pinOk);
      if !env.pinOk {
        PinDel(c.bind);
        return;
      }
      if !env.acceptOk {
        PinDel(Endpoint(c.host, c.hostPort));
        PinDel(c.bind);
        return;
      }
      accepts := accepts + {c.bind.port};
      slots := slots + [Fresh(c, env.inbound)];
    }

    method AgeCandidates(input: TickInput)
      modifies this`young
      ensures View() == old(View()).(young := AgeYoung(old(young), input.live, input.ageCounts))
    {
      hide Exists, FirstIndex;
      if input.live == [] {
        return;
      }
      var k := 0;
      while k < |input.live|
        invariant k <= |input.live| && young == AgeAll(old(young), input.live[..k], input.ageCounts)
      {
        assert input.live[..k + 1][..k] == input.live[..k];
        var c := input.live[k];
        var pkts := PacketsOr(input.ageCounts, (c.bind, c.host), 0);
        if c.bind !in young {
          young := young[c.bind := (pkts, 0)];
        }
        var e := young[c.bind];
        if pkts > e.0 {
          young := young[c.bind := (pkts, 0)];
        } else {
          var quiet: nat := e.1;
          young := young[c.bind := (Max(e.0, pkts), Sat32(quiet + 1))];
        }
        assert young == Aged(AgeAll(old(young), input.live[..k], input.ageCounts), c.bind, pkts);
        k := k + 1;
      }
      assert input.live[..k] == input.live;
      young := map b | b in young && Exists(input.live, LiveOn(b)) :: young[b];
    }

    method WatchLiveness(input: TickInput)
      modifies this`slots, this`young, this`ticks, this`cursor
      ensures View() == Liveness(old(View()), input)
    {
      hide AgeYoung, QuietAll, ProbeAll;
      ticks := ticks + 1;
      AgeCandidates(input);
      if slots == [] {
        return;
      }
      QuietHolds(input.liveCounts);
      if ticks % PROBE_EVERY_TICKS == 0 {
        if cursor >= |slots| {
          cursor := 0;
        }
        ProbeHolds(slots[cursor].host, input.deviceUp);
        cursor := cursor + 1;
      }
    }

    method QuietHolds(counts: Counts)
      modifies this`slots
      ensures View() == old(View()).(slots := QuietAll(old(slots), counts))
    {
      var done: seq<Hold> := [];
      var k := 0;
      while k < |slots|
        invariant k <= |slots| && slots == old(slots) && done == QuietAll(slots[..k], counts)
      {
        assert slots[..k + 1][..k] == slots[..k];
        var s := slots[k];
        var now := PacketsOr(counts, (s.bind, s.host), s.devPkts);
        var deviceActive := now > s.devPkts;
        var peerActive := s.sinceInbound == 0;
        s := s.(devPkts := now);
        s := s.(quiet := if deviceActive || peerActive then 0 else Sat32(s.quiet + 1));
        done := done + [s];
        k := k + 1;
      }
      assert slots[..k] == slots;
      slots := done;
    }

    method ProbeHolds(host: Ipv4, up: bool)
      modifies this`slots
      ensures View() == old(View()).(slots := ProbeAll(old(slots), host, up))
    {
      var done: seq<Hold> := [];
      var k := 0;
      while k < |slots|
        invariant k <= |slots| && slots == old(slots) && done == ProbeAll(slots[..k], host, up)
      {
        assert slots[..k + 1][..k] == slots[..k];
        var s := slots[k];
        if s.host == host {
          s := s.(misses := if up then 0 else Sat8(s.misses + 1));
        }
        done := done + [s];
        k := k + 1;
      }
      assert slots[..k] == slots;
      slots := done;
    }

    method ReleaseDue(owned: seq<Endpoint>)
      modifies this`slots, this`selfPins, this`accepts
      ensures View() == Sweep(old(View()), owned, 0)
    {
      hide ReleaseReason, SwapRemove;
      var i := 0;
      while i < |slots|
        invariant i <= |slots|
        invariant Sweep(old(View()), owned, 0) == Sweep(View(), owned, i)
        decreases |slots| - i
      {
        ghost var before := View();
        var s := slots[i];
        if ReleaseReason(s.bind in owned, s.misses, s.quiet, s.missing, s.sinceInbound).Some? {
          slots := SwapRemove(slots, i);
          PinDel(Endpoint(s.host, s.hostPort));
          PinDel(s.bind);
          accepts := accepts - {s.bind.port};
          assert View() == Released(before, s).(slots := SwapRemove(before.slots, i));
        } else {
          i := i + 1;
        }
      }
    }

    method HoldingTick(input: TickInput)
      requires |input.claims| == |input.live|
      modifies this
      ensures View() == Tick(old(View()), input)
    {
      hide Booked, BookAll, Claim, Liveness, Sweep;
      reported := (set t | t in reported && Exists(input.live, LiveOn(t)));
      Bookkeep(input);
      assert View() == Opened(old(View()), input);
      ghost var begun := View();
      var k := 0;
      while k < |input.live|
        invariant k <= |input.live|
        invariant View() == ClaimAll(begun, input.live[..k], input.owned, input.claims[..k])
      {
        assert input.live[..k + 1][..k] == input.live[..k] && input.claims[..k + 1][..k] == input.claims[..k];
        TryClaim(input.live[k], input.owned, input.claims[k]);
        k := k + 1;
      }
      assert input.live[..k] == input.live && input.claims[..k] == input.claims;
      WatchLiveness(input);
      ReleaseDue(input.owned);
    }
  }
}
