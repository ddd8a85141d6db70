// The slot table: deterministic bind ports, leases, quota, collection, eviction and restore.
//
// Every operation exists twice: as a method of the class LeaseTable, written with the loops the program
// runs, and as a ghost function on the value Table, against which the method is proved.
module LeaseTables {
  import opened Net
  import opened Seqs

  // ---- slots and leases ----

  datatype Proto = Udp | Tcp {
    // The IANA code PCP, NAT-PMP and the lease file carry.
    function Code(): u8 { if Udp? then 17 else 6 }
  }

  datatype Lease =
    | Static
    | Granted(client: Ipv4, intPort: u16, lifetime: u32, expires: u64)
  {
    predicate IsExpired(now: u64) { Granted? && now >= expires }
  }

  datatype Key = Key(proto: Proto, intPort: u16, client: Ipv4)

  datatype Slot = Slot(
    bindPort: u16, proto: Proto, target: Ipv4, targetPort: u16,
    lease: Lease, phaseMs: u32, lastActivity: u64)
  {
    // A static slot has no client, so no key addresses it.
    function PcpKey(): Option<Key> {
      if lease.Static? then None else Some(Key(proto, lease.intPort, lease.client))
    }

    function Client(): Option<Ipv4> {
      if lease.Static? then None else Some(lease.client)
    }
  }

  function HasPort(port: u16): Slot -> bool { (s: Slot) => s.bindPort == port }

  function HasKey(key: Key): Slot -> bool { (s: Slot) => s.PcpKey() == Some(key) }

  function HasClient(client: Ipv4): Slot -> bool { (s: Slot) => s.Client() == Some(client) }

  // ---- the table as a value ----

  datatype Config = Config(lo: u16, hi: u16, maxSlots: nat, maxPerClient: u16) {
    predicate InRange(port: u16) { lo <= port <= hi }
  }

  datatype Table = Table(cfg: Config, slots: seq<Slot>, avoid: set<u16>) {
    predicate IsFull() { |slots| >= cfg.maxSlots }
  }

  datatype Outcome =
    | GrantedAt(bindPort: u16)
    | RefreshedAt(bindPort: u16)
    | UserQuotaExceeded
    | TableFull

  // Rejections of a static or restored record. ClampPanic is the abort of `clamp(1, 0)`: the clamp that
  // bounds a restored lease has no defined result for a record whose lifetime is zero.
  datatype StaticMapErr =
    | OutOfRange(port: u16)
    | InUse(port: u16)
    | ClampPanic(port: u16)

  datatype StaticMap = StaticMap(bindPort: u16, target: Ipv4, targetPort: u16)

  datatype GrantedRecord = GrantedRecord(
    bindPort: u16, proto: Proto, client: Ipv4, intPort: u16,
    target: Ipv4, targetPort: u16, lifetime: u32, expires: u64)

  ghost function Held(slots: seq<Slot>): set<u16> {
    set s | s in slots :: s.bindPort
  }

  function Ports(slots: seq<Slot>): (r: seq<u16>)
    ensures |r| == |slots|
    ensures forall i :: 0 <= i < |slots| ==> r[i] == slots[i].bindPort
  {
    if slots == [] then [] else Ports(slots[..|slots| - 1]) + [slots[|slots| - 1].bindPort]
  }

  lemma PortsPrefix(slots: seq<Slot>, i: nat, p: Slot -> bool)
    requires i < |slots|
    ensures Ports(Filter(slots[..i + 1], p)) ==
            Ports(Filter(slots[..i], p)) + (if p(slots[i]) then [slots[i].bindPort] else [])
  {
    FilterPrefix(slots, i, p);
    var f := Filter(slots[..i], p);
    assert (f + [slots[i]])[..|f|] == f;
  }

  // ---- specifications ----

  // The lowest port of [lo, hi] outside `taken`.
  ghost function LowestFree(lo: int, hi: u16, taken: set<u16>): (r: Option<u16>)
    requires 0 <= lo
    ensures r.Some? ==> lo <= r.value <= hi && r.value !in taken
    ensures forall p: u16 :: lo <= p <= hi && (r.Some? ==> p < r.value) ==> p in taken
    decreases hi as int + 1 - lo
  {
    if lo > hi then None
    else if lo !in taken then Some(lo)
    else LowestFree(lo + 1, hi, taken)
  }

  ghost function FreePort(t: Table): Option<u16> {
    LowestFree(t.cfg.lo, t.cfg.hi, Held(t.slots) + t.avoid)
  }

  // A slot after its lease was refreshed: port and target stay, the client was just seen.
  function Refreshed(s: Slot, lifetime: u32, now: u64): Slot
    requires s.lease.Granted?
  {
    s.(lease := Granted(s.lease.client, s.lease.intPort, lifetime, SatAdd(now, lifetime)), lastActivity := now)
  }

  function FreshSlot(port: u16, k: Key, lifetime: u32, now: u64, target: Ipv4, targetPort: u16): Slot {
    Slot(port, k.proto, target, targetPort, Granted(k.client, k.intPort, lifetime, SatAdd(now, lifetime)), 0, now)
  }

  ghost function Upsert(t: Table, k: Key, lifetime: u32, now: u64, target: Ipv4, targetPort: u16): (Table, Outcome) {
    var i := FirstIndex(t.slots, HasKey(k));
    if i < |t.slots| then
      (t.(slots := t.slots[i := Refreshed(t.slots[i], lifetime, now)]), RefreshedAt(t.slots[i].bindPort))
    else if Count(t.slots, HasClient(k.client)) >= t.cfg.maxPerClient then (t, UserQuotaExceeded)
    else if t.IsFull() || FreePort(t).None? then (t, TableFull)
    else
      var port := FreePort(t).value;
      (t.(slots := t.slots + [FreshSlot(port, k, lifetime, now, target, targetPort)]), GrantedAt(port))
  }

  predicate Admitted(o: Outcome) { o.GrantedAt? || o.RefreshedAt? }

  lemma RefusalChangesNothing(t: Table, k: Key, lifetime: u32, now: u64, target: Ipv4, targetPort: u16)
    ensures var (u, o) := Upsert(t, k, lifetime, now, target, targetPort); !Admitted(o) ==> u == t
  {}

  function InsertStatic(t: Table, m: StaticMap): Result<Table, StaticMapErr> {
    if !t.cfg.InRange(m.bindPort) then Err(OutOfRange(m.bindPort))
    else if Exists(t.slots, HasPort(m.bindPort)) then Err(InUse(m.bindPort))
    else Ok(t.(slots := t.slots + [Slot(m.bindPort, Udp, m.target, m.targetPort, Static, 0, 0)]))
  }

  ghost function DeletePort(t: Table, port: u16): Table {
    var i := FirstIndex(t.slots, HasPort(port));
    if i < |t.slots| then t.(slots := SwapRemove(t.slots, i)) else t
  }

  // A lease outlives the expiry scan while any one of these still holds.
  function SurvivesGc(now: u64, grace: u64): Slot -> bool {
    (s: Slot) =>
      s.lease.Static?
      || !s.lease.IsExpired(now)
      || !(SatSub(now, s.lease.expires) > grace)
      || s.lastActivity >= SatSub(now, grace)
  }

  // A UDP grant silent since before the cutoff does not outlive the backstop sweep; nothing else is touched.
  function SurvivesIdle(now: u64, backstop: u64): Slot -> bool {
    (s: Slot) => !(s.lease.Granted? && s.proto.Udp? && s.lastActivity < SatSub(now, backstop))
  }

  ghost function Keep(t: Table, p: Slot -> bool): Table { t.(slots := Filter(t.slots, p)) }

  ghost function Stamp(t: Table, port: u16, now: u64, minInterval: u64): Table {
    var i := FirstIndex(t.slots, HasPort(port));
    if i < |t.slots| && SatSub(now, t.slots[i].lastActivity) >= minInterval
    then t.(slots := t.slots[i := t.slots[i].(lastActivity := now)])
    else t
  }

  // Slots pressure may take: UDP grants of other clients, silent since before the grace cutoff.
  predicate Evictable(s: Slot, now: u64, grace: u64, requester: Ipv4) {
    s.lease.Granted? && s.lease.client != requester && s.proto.Udp? && s.lastActivity < SatSub(now, grace)
  }

  // No evictable slot of the table has been silent longer than s.
  ghost predicate LongestIdle(slots: seq<Slot>, s: Slot, now: u64, grace: u64, requester: Ipv4) {
    forall o :: o in slots && Evictable(o, now, grace, requester) ==> o.lastActivity >= s.lastActivity
  }

  ghost function Victim(slots: seq<Slot>, now: u64, grace: u64, requester: Ipv4): Option<Slot> {
    var i := FirstIndex(slots, (s: Slot) =>
      Evictable(s, now, grace, requester) && LongestIdle(slots, s, now, grace, requester));
    if i < |slots| then Some(slots[i]) else None
  }

  // Reserve exactly the live ports that lie in the range.
  ghost function AvoidPorts(t: Table, live: seq<u16>): Table {
    t.(avoid := set p | p in live && t.cfg.InRange(p))
  }

  ghost function MovePort(t: Table, oldPort: u16): (Table, Option<u16>) {
    var i := FirstIndex(t.slots, HasPort(oldPort));
    if i == |t.slots| then (t, None)
    else
      var u := t.(avoid := t.avoid + {oldPort});
      var free := FreePort(u);
      if free.None? then (u, None)
      else (u.(slots := t.slots[i := t.slots[i].(bindPort := free.value)]), free)
  }

  ghost function RestorePort(t: Table, from: u16, to: u16): Table {
    var i := FirstIndex(t.slots, HasPort(from));
    if i < |t.slots| then t.(slots := t.slots[i := t.slots[i].(bindPort := to)]) else t
  }

  // The expiry a restored lease gets: what remains of it, at least a second and at most its lifetime.
  function RestoredExpiry(r: GrantedRecord, now: u64): u64
    requires r.lifetime >= 1
  {
    SatAdd(now, Min(Max(SatSub(r.expires, now), 1), r.lifetime))
  }

  function RestoredSlot(r: GrantedRecord, now: u64): Slot
    requires r.lifetime >= 1
  {
    Slot(r.bindPort, r.proto, r.target, r.targetPort,
         Granted(r.client, r.intPort, r.lifetime, RestoredExpiry(r, now)), 0, now)
  }

  function RestoreOne(t: Table, r: GrantedRecord, now: u64): Result<Table, StaticMapErr> {
    if !t.cfg.InRange(r.bindPort) then Err(OutOfRange(r.bindPort))
    else if Exists(t.slots, HasPort(r.bindPort)) then Err(InUse(r.bindPort))
    else if r.lifetime == 0 then Err(ClampPanic(r.bindPort))
    else Ok(t.(slots := t.slots + [RestoredSlot(r, now)]))
  }

  function InsertStatics(t: Table, maps: seq<StaticMap>): Result<Table, StaticMapErr>
    decreases |maps|
  {
    if maps == [] then Ok(t)
    else
      var r := InsertStatic(t, maps[0]);
      if r.Err? then r else InsertStatics(r.value, maps[1..])
  }

  function RestoreGrants(t: Table, recs: seq<GrantedRecord>, now: u64): Result<Table, StaticMapErr>
    decreases |recs|
  {
    if recs == [] then Ok(t)
    else
      var r := RestoreOne(t, recs[0], now);
      if r.Err? then r else RestoreGrants(r.value, recs[1..], now)
  }

  // Statics first, since the configuration is authoritative; the first rejection ends the restore.
  function Restore(t: Table, maps: seq<StaticMap>, recs: seq<GrantedRecord>, now: u64): Result<Table, StaticMapErr> {
    var r := InsertStatics(t, maps);
    if r.Err? then r else RestoreGrants(r.value, recs, now)
  }

  // Where a rejected restore stops: u holds what was rebuilt before the record that e rejects.
  ghost predicate StoppedAt(
    t: Table, maps: seq<StaticMap>, recs: seq<GrantedRecord>, now: u64, u: Table, e: StaticMapErr)
  {
    (exists n :: 0 <= n < |maps| && InsertStatics(t, maps[..n]) == Ok(u) && InsertStatic(u, maps[n]) == Err(e))
    || (exists n ::
          0 <= n < |recs| && Restore(t, maps, recs[..n], now) == Ok(u) && RestoreOne(u, recs[n], now) == Err(e))
  }

  lemma {:induction false} InsertStaticsOneMore(t: Table, maps: seq<StaticMap>, n: nat)
    requires n < |maps|
    ensures InsertStatics(t, maps[..n + 1]) ==
            match InsertStatics(t, maps[..n])
            case Err(e) => Err(e)
            case Ok(u) => InsertStatic(u, maps[n])
    decreases n
  {
    hide InsertStatic;
    if n > 0 {
      var r := InsertStatic(t, maps[0]);
      assert maps[..n + 1][1..] == maps[1..][..n] && maps[..n][1..] == maps[1..][..n - 1];
      if r.Ok? {
        InsertStaticsOneMore(r.value, maps[1..], n - 1);
      }
    } else {
      assert maps[..1][1..] == [];
    }
  }

  lemma {:induction false} RestoreGrantsOneMore(t: Table, recs: seq<GrantedRecord>, now: u64, n: nat)
    requires n < |recs|
    ensures RestoreGrants(t, recs[..n + 1], now) ==
            match RestoreGrants(t, recs[..n], now)
            case Err(e) => Err(e)
            case Ok(u) => RestoreOne(u, recs[n], now)
    decreases n
  {
    hide RestoreOne;
    if n > 0 {
      var r := RestoreOne(t, recs[0], now);
      assert recs[..n + 1][1..] == recs[1..][..n] && recs[..n][1..] == recs[1..][..n - 1];
      if r.Ok? {
        RestoreGrantsOneMore(r.value, recs[1..], now, n - 1);
      }
    } else {
      assert recs[..1][1..] == [];
    }
  }

  // ---- the table as the program holds it ----

  class LeaseTable {
    const cfg: Config
    var slots: seq<Slot>
    var avoid: set<u16>

    ghost function View(): Table
      reads this
    {
      Table(cfg, slots, avoid)
    }

    constructor (cfg: Config)
      ensures View() == Table(cfg, [], {})
    {
      this.cfg := cfg;
      slots, avoid := [], {};
    }

    method FindFreeBindPort() returns (r: Option<u16>)
      ensures r == FreePort(View())
    {
      var port: int := cfg.lo;
      while port <= cfg.hi
        invariant cfg.lo <= port <= Max(cfg.lo, cfg.hi + 1)
        invariant LowestFree(cfg.lo, cfg.hi, Held(slots) + avoid) == LowestFree(port, cfg.hi, Held(slots) + avoid)
      {
        if port !in avoid && !Exists(slots, HasPort(port)) {
          return Some(port);
        }
        port := port + 1;
      }
      return None;
    }

    method UpsertPcp(k: Key, lifetime: u32, now: u64, target: Ipv4, targetPort: u16) returns (r: Outcome)
      modifies this
      ensures (View(), r) == Upsert(old(View()), k, lifetime, now, target, targetPort)
    {
      var i := FirstIndex(slots, HasKey(k));
      if i < |slots| {
        var lease := Granted(k.client, k.intPort, lifetime, SatAdd(now, lifetime));
        slots := slots[i := slots[i].(lease := lease, lastActivity := now)];
        return RefreshedAt(slots[i].bindPort);
      }
      if Count(slots, HasClient(k.client)) >= cfg.maxPerClient {
        return UserQuotaExceeded;
      }
      if |slots| >= cfg.maxSlots {
        return TableFull;
      }
      var free := FindFreeBindPort();
      if free.None? {
        return TableFull;
      }
      var lease := Granted(k.client, k.intPort, lifetime, SatAdd(now, lifetime));
      slots := slots + [Slot(free.value, k.proto, target, targetPort, lease, 0, now)];
      return GrantedAt(free.value);
    }

    method AddStatic(m: StaticMap) returns (r: Result<u16, StaticMapErr>)
      modifies this`slots
      ensures match InsertStatic(old(View()), m)
              case Ok(t) => View() == t && r == Ok(m.bindPort)
              case Err(e) => View() == old(View()) && r == Err(e)
      ensures r.Ok? <==>
                cfg.lo <= m.bindPort <= cfg.hi
                && forall k :: 0 <= k < |old(slots)| ==> old(slots[k].bindPort) != m.bindPort
      ensures r == Err(OutOfRange(m.bindPort)) <==> !(cfg.lo <= m.bindPort <= cfg.hi)
      ensures r.Ok? ==> slots == old(slots) + [Slot(m.bindPort, Udp, m.target, m.targetPort, Static, 0, 0)]
    {
      if !cfg.InRange(m.bindPort) {
        return Err(OutOfRange(m.bindPort));
      }
      if Exists(slots, HasPort(m.bindPort)) {
        return Err(InUse(m.bindPort));
      }
      slots := slots + [Slot(m.bindPort, Udp, m.target, m.targetPort, Static, 0, 0)];
      return Ok(m.bindPort);
    }

    method DeleteByBindPort(port: u16) returns (r: Option<u16>)
      modifies this`slots
      ensures View() == DeletePort(old(View()), port)
      ensures r == if Exists(old(slots), HasPort(port)) then Some(port) else None
    {
      var i := FirstIndex(slots, HasPort(port));
      if i == |slots| {
        return None;
      }
      slots := SwapRemove(slots, i);
      return Some(port);
    }

    // The expiry scan, draining the slots into those kept and those freed.
    method Gc(now: u64, grace: u64) returns (freed: seq<u16>)
      modifies this`slots
      ensures View() == Keep(old(View()), SurvivesGc(now, grace))
      ensures freed == Ports(Filter(old(slots), Not(SurvivesGc(now, grace))))
      ensures forall s :: s in slots <==>
                s in old(slots)
                && (s.lease.Static? || now <= s.lease.expires + grace || now <= s.lastActivity + grace)
    {
      hide Filter, Ports;
      var cutoff := SatSub(now, grace);
      var keep: seq<Slot> := [];
      freed := [];
      var i := 0;
      while i < |slots|
        invariant i <= |slots| && slots == old(slots)
        invariant keep == Filter(slots[..i], SurvivesGc(now, grace))
        invariant freed == Ports(Filter(slots[..i], Not(SurvivesGc(now, grace))))
      {
        var s := slots[i];
        var expired := s.lease.IsExpired(now);
        var beyondGrace := s.lease.Granted? && SatSub(now, s.lease.expires) > grace;
        var busy := s.lastActivity >= cutoff;
        FilterPrefix(slots, i, SurvivesGc(now, grace));
        PortsPrefix(slots, i, Not(SurvivesGc(now, grace)));
        if s.lease.Static? || !expired || !beyondGrace || busy {
          keep := keep + [s];
        } else {
          freed := freed + [s.bindPort];
        }
        i := i + 1;
      }
      assert slots[..i] == slots;
      slots := keep;
    }

    // The backstop sweep over silent UDP grants.
    method GcIdle(now: u64, backstop: u64) returns (freed: seq<u16>)
      modifies this`slots
      ensures View() == Keep(old(View()), SurvivesIdle(now, backstop))
      ensures freed == Ports(Filter(old(slots), Not(SurvivesIdle(now, backstop))))
      ensures forall s :: s in slots <==>
                s in old(slots) && (s.lease.Static? || s.proto.Tcp? || now <= s.lastActivity + backstop)
    {
      hide Filter, Ports;
      var cutoff := SatSub(now, backstop);
      var keep: seq<Slot> := [];
      freed := [];
      var i := 0;
      while i < |slots|
        invariant i <= |slots| && slots == old(slots)
        invariant keep == Filter(slots[..i], SurvivesIdle(now, backstop))
        invariant freed == Ports(Filter(slots[..i], Not(SurvivesIdle(now, backstop))))
      {
        var s := slots[i];
        FilterPrefix(slots, i, SurvivesIdle(now, backstop));
        PortsPrefix(slots, i, Not(SurvivesIdle(now, backstop)));
        if s.lease.Granted? && s.proto.Udp? && s.lastActivity < cutoff {
          freed := freed + [s.bindPort];
        } else {
          keep := keep + [s];
        }
        i := i + 1;
      }
      assert slots[..i] == slots;
      slots := keep;
    }

    method StampActivityIfStale(port: u16, now: u64, minInterval: u64)
      modifies this`slots
      ensures View() == Stamp(old(View()), port, now, minInterval)
    {
      var i := FirstIndex(slots, HasPort(port));
      if i == |slots| {
        return;
      }
      if SatSub(now, slots[i].lastActivity) >= minInterval {
        slots := slots[i := slots[i].(lastActivity := now)];
      }
    }

    // The pressure-eviction candidate: the first of the longest-idle evictable slots.
    method EvictIdleClient(now: u64, grace: u64, requester: Ipv4) returns (best: Option<Slot>)
      ensures best == Victim(slots, now, grace, requester)
    {
      var cutoff := SatSub(now, grace);
      var at, bestIdle := 0, 0;
      best := None;
      var i := 0;
      while i < |slots|
        invariant i <= |slots|
        invariant best.None? ==> forall j :: 0 <= j < i ==> !Evictable(slots[j], now, grace, requester)
        invariant best.Some? ==> at < i && slots[at] == best.value && Evictable(best.value, now, grace, requester)
        invariant best.Some? ==> bestIdle == SatSub(now, best.value.lastActivity)
        invariant best.Some? ==> forall j :: 0 <= j < i && Evictable(slots[j], now, grace, requester) ==>
          slots[j].lastActivity >= best.value.lastActivity
            && (j < at ==> slots[j].lastActivity > best.value.lastActivity)
      {
        var s := slots[i];
        if s.lease.Granted? && s.lease.client != requester && s.proto.Udp? && s.lastActivity < cutoff {
          var idle := SatSub(now, s.lastActivity);
          if best.None? || idle > bestIdle {
            best, at, bestIdle := Some(s), i, idle;
          }
        }
        i := i + 1;
      }
    }

    method ReserveLive(live: seq<u16>)
      modifies this`avoid
      ensures View() == AvoidPorts(old(View()), live)
    {
      avoid := set p | p in live && cfg.InRange(p);
    }

    method MoveBindPort(oldPort: u16) returns (r: Option<u16>)
      modifies this
      ensures (View(), r) == MovePort(old(View()), oldPort)
    {
      var i := FirstIndex(slots, HasPort(oldPort));
      if i == |slots| {
        return None;
      }
      avoid := avoid + {oldPort};
      r := FindFreeBindPort();
      if r.Some? {
        slots := slots[i := slots[i].(bindPort := r.value)];
      }
    }

    method RestoreBindPort(from: u16, to: u16)
      modifies this`slots
      ensures View() == RestorePort(old(View()), from, to)
    {
      var i := FirstIndex(slots, HasPort(from));
      if i < |slots| {
        slots := slots[i := slots[i].(bindPort := to)];
      }
    }

    // Rebuild after a respawn: static maps first, then the persisted grants on their old ports. A rejection
    // leaves what was rebuilt before it.
    method RestoreAll(maps: seq<StaticMap>, recs: seq<GrantedRecord>, now: u64) returns (r: Result<(), StaticMapErr>)
      modifies this`slots
      ensures match Restore(old(View()), maps, recs, now)
              case Ok(t) => View() == t && r.Ok?
              case Err(e) => r == Err(e) && StoppedAt(old(View()), maps, recs, now, View(), e)
    {
      hide InsertStatic, RestoreOne;
      ghost var t := View();
      var i := 0;
      while i < |maps|
        invariant i <= |maps|
        invariant InsertStatics(t, maps) == InsertStatics(View(), maps[i..])
        invariant InsertStatics(t, maps[..i]) == Ok(View())
      {
        InsertStaticsOneMore(t, maps, i);
        var one := AddStatic(maps[i]);
        if one.Err? {
          return Err(one.error);
        }
        i := i + 1;
      }
      assert maps[..i] == maps;
      ghost var base := View();
      var j := 0;
      while j < |recs|
        invariant j <= |recs|
        invariant RestoreGrants(base, recs, now) == RestoreGrants(View(), recs[j..], now)
        invariant RestoreGrants(base, recs[..j], now) == Ok(View())
      {
        RestoreGrantsOneMore(base, recs, now, j);
        var one := RestoreGrant(recs[j], now);
        if one.Err? {
          assert Restore(t, maps, recs[..j], now) == Ok(View());
          return one;
        }
        j := j + 1;
      }
      assert recs[..j] == recs;
      return Ok(());
    }

    method RestoreGrant(rec: GrantedRecord, now: u64) returns (r: Result<(), StaticMapErr>)
      modifies this`slots
      ensures match RestoreOne(old(View()), rec, now)
              case Ok(t) => View() == t && r.Ok?
              case Err(e) => View() == old(View()) && r == Err(e)
    {
      if !cfg.InRange(rec.bindPort) {
        return Err(OutOfRange(rec.bindPort));
      }
      if Exists(slots, HasPort(rec.bindPort)) {
        return Err(InUse(rec.bindPort));
      }
      if rec.lifetime == 0 {
        return Err(ClampPanic(rec.bindPort));
      }
      var remaining := SatSub(rec.expires, now);
      var expires := SatAdd(now, Min(Max(remaining, 1), rec.lifetime));
      slots := slots + [Slot(rec.bindPort, rec.proto, rec.target, rec.targetPort,
                             Granted(rec.client, rec.intPort, rec.lifetime, expires), 0, now)];
      return Ok(());
    }
  }
}
