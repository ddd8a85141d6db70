// What a grant answers, spelled out: which port a fresh mapping takes, what pressure frees for it, and what is stored.
module GrantAnswers {
  import opened Net
  import opened Seqs
  import opened LeaseTables
  import opened TableLaws
  import opened Facade
  import opened Agreement
  import opened FacadeRuns

  // ---- the guards, written out ----

  // A contained caller maps for its own address, on the v2 face at high ports only; the target is on the /24 LAN.
  predicate WithinView(req: MappingReq, view: Option<Contain>) {
    view.Some? ==>
      req.client == view.value.caller
      && (view.value.highPort ==> req.intPort >= 1024 && (req.ext == 0 || req.ext >= 1024))
  }

  predicate OnLan(req: MappingReq, lan: Ipv4) {
    req.client.a == lan.a && req.client.b == lan.b && req.client.c == lan.c
  }

  ghost predicate Mapped(slots: seq<Slot>, req: MappingReq, client: Ipv4) {
    exists s :: s in slots && s.lease.Granted? && s.proto == req.proto
      && s.lease.client == client && s.lease.intPort == req.intPort
  }

  // How many grants a client holds.
  ghost function Grants(slots: seq<Slot>, client: Ipv4): nat {
    |set i | 0 <= i < |slots| && slots[i].lease.Granted? && slots[i].lease.client == client|
  }

  // The ports set aside for a request: when its owner has no such mapping and the probe works, those of the live
  // tuples; else what was set aside before.
  ghost function SetAside(st: State, req: MappingReq, owner: Ipv4, env: GrantEnv): set<u16> {
    if env.live.Some? && !Mapped(st.table.slots, req, owner) then (set p | p in env.live.value) else st.table.avoid
  }

  ghost predicate Lowest(cfg: Config, taken: set<u16>, p: u16) {
    cfg.lo <= p <= cfg.hi && p !in taken && forall q: u16 :: cfg.lo <= q < p ==> q in taken
  }

  ghost predicate Roomy(st: State, taken: set<u16>) {
    |st.table.slots| < st.table.cfg.maxSlots && exists p: u16 :: Lowest(st.table.cfg, taken, p)
  }

  // A UDP grant of another client, silent for more than a day.
  predicate Idle(s: Slot, now: u64, requester: Ipv4) {
    s.lease.Granted? && s.proto.Udp? && s.lease.client != requester && s.lastActivity + 86_400 < now
  }

  // The slot pressure frees: the first of those idle longest.
  ghost predicate Freed(slots: seq<Slot>, i: int, now: u64, requester: Ipv4) {
    0 <= i < |slots| && Idle(slots[i], now, requester)
    && forall j :: 0 <= j < |slots| && Idle(slots[j], now, requester) ==>
         slots[j].lastActivity >= slots[i].lastActivity && (j < i ==> slots[j].lastActivity > slots[i].lastActivity)
  }

  // ---- the table's own notions are these ----

  lemma GrantsAreCounted(slots: seq<Slot>, client: Ipv4)
    ensures Count(slots, HasClient(client)) == Grants(slots, client)
  {
    CountIsPlaces(slots, HasClient(client));
    assert Places(slots, HasClient(client))
        == (set i | 0 <= i < |slots| && slots[i].lease.Granted? && slots[i].lease.client == client);
  }

  lemma MappedIsKeyed(slots: seq<Slot>, req: MappingReq, client: Ipv4)
    ensures Exists(slots, HasKey(KeyOf(req).(client := client))) <==> Mapped(slots, req, client)
  {
    var p := HasKey(KeyOf(req).(client := client));
    if Exists(slots, p) {
      var s := slots[FirstIndex(slots, p)];
      assert s in slots && s.lease.Granted? && s.proto == req.proto
          && s.lease.client == client && s.lease.intPort == req.intPort;
    }
    if Mapped(slots, req, client) {
      var s :| s in slots && s.lease.Granted? && s.proto == req.proto
        && s.lease.client == client && s.lease.intPort == req.intPort;
      var k :| 0 <= k < |slots| && slots[k] == s;
      assert p(slots[k]);
    }
  }

  // The reserved ports of the range are those set aside, seen from within the range.
  lemma SteeredSetsAside(st: State, req: MappingReq, owner: Ipv4, env: GrantEnv, q: u16)
    requires st.table.cfg.InRange(q)
    ensures var s := Steered(st, req, owner, env);
            s.table.slots == st.table.slots && s.table.cfg == st.table.cfg && s.lan == st.lan && s.entries == st.entries
            && (q in s.table.avoid <==> q in SetAside(st, req, owner, env))
  {
    MappedIsKeyed(st.table.slots, req, owner);
  }

  lemma FreePortIsLowest(t: Table, taken: set<u16>, p: u16)
    requires forall q: u16 :: t.cfg.InRange(q) ==> (q in Held(t.slots) + t.avoid <==> q in taken)
    ensures FreePort(t) == Some(p) <==> Lowest(t.cfg, taken, p)
  {
    hide LowestFree;
  }

  lemma VictimIsFreed(slots: seq<Slot>, now: u64, requester: Ipv4)
    ensures match Victim(slots, now, 86_400, requester)
            case None => forall i :: !Freed(slots, i, now, requester)
            case Some(v) => exists i :: 0 <= i < |slots| && Freed(slots, i, now, requester) && slots[i] == v
  {
    var p := (s: Slot) => Evictable(s, now, 86_400, requester) && LongestIdle(slots, s, now, 86_400, requester);
    assert forall s: Slot :: Evictable(s, now, 86_400, requester) <==> Idle(s, now, requester);
    var i := FirstIndex(slots, p);
    if i < |slots| {
      forall j | 0 <= j < |slots| && Idle(slots[j], now, requester)
        ensures slots[j].lastActivity >= slots[i].lastActivity
        ensures j < i ==> slots[j].lastActivity > slots[i].lastActivity
      {
        assert slots[j] in slots;
        if j < i {
          assert !p(slots[j]);
        }
      }
      assert Freed(slots, i, now, requester);
    } else {
      forall k | 0 <= k < |slots| ensures !Freed(slots, k, now, requester) {
        assert !p(slots[k]);
        LongestFromFreed(slots, k, now, requester);
      }
    }
  }

  lemma LongestFromFreed(slots: seq<Slot>, k: int, now: u64, requester: Ipv4)
    ensures Freed(slots, k, now, requester) ==>
              Evictable(slots[k], now, 86_400, requester) && LongestIdle(slots, slots[k], now, 86_400, requester)
  {
    if Freed(slots, k, now, requester) {
      forall o | o in slots && Evictable(o, now, 86_400, requester) ensures o.lastActivity >= slots[k].lastActivity {
        var j :| 0 <= j < |slots| && slots[j] == o;
        assert Idle(slots[j], now, requester);
      }
    }
  }

  lemma FreedOnce(slots: seq<Slot>, i: int, j: int, now: u64, requester: Ipv4)
    requires Freed(slots, i, now, requester) && Freed(slots, j, now, requester)
    ensures i == j
  {}

  // ---- which port a fresh mapping takes ----

  // A table without the mapping, within the quota and with room, admits it on the lowest port not taken.
  lemma UpsertExactly(t: Table, req: MappingReq, now: u64, taken: set<u16>, p: u16)
    requires forall q: u16 :: t.cfg.InRange(q) ==> (q in Held(t.slots) + t.avoid <==> q in taken)
    ensures var o := UpsertFor(t, req, now).1;
            var asks := !Mapped(t.slots, req, req.client) && Grants(t.slots, req.client) < t.cfg.maxPerClient;
            (o == GrantedAt(p) <==> asks && |t.slots| < t.cfg.maxSlots && Lowest(t.cfg, taken, p))
            && (o.TableFull? <==>
                asks && (|t.slots| >= t.cfg.maxSlots || forall q: u16 :: !Lowest(t.cfg, taken, q)))
  {
    MappedIsKeyed(t.slots, req, req.client);
    GrantsAreCounted(t.slots, req.client);
    forall q: u16 ensures FreePort(t) == Some(q) <==> Lowest(t.cfg, taken, q) {
      FreePortIsLowest(t, taken, q);
    }
    hide FreePort, Lowest, Count;
  }

  lemma AdmitExactly(st: State, req: MappingReq, owner: Ipv4, env: GrantEnv, p: u16)
    ensures Admit(st, req, owner, env).1 == Ok(GrantedAt(p)) <==>
            UpsertFor(st.table, req, env.now).1 == GrantedAt(p) && env.datapathUp
  {
    hide Upsert, Recorded, DeletePort;
  }

  // Without pressure the port is the lowest neither held nor set aside.
  lemma RoomyTakes(st: State, req: MappingReq, owner: Ipv4, env: GrantEnv, p: u16)
    requires var taken := SetAside(st, req, owner, env) + Held(st.table.slots);
             Roomy(st, taken) || Mapped(st.table.slots, req, req.client)
             || Grants(st.table.slots, req.client) >= st.table.cfg.maxPerClient
    ensures var s := Relieved(Steered(st, req, owner, env), req, env);
            var taken := SetAside(st, req, owner, env) + Held(st.table.slots);
            UpsertFor(s.table, req, env.now).1 == GrantedAt(p) <==>
            !Mapped(st.table.slots, req, req.client) && Grants(st.table.slots, req.client) < st.table.cfg.maxPerClient
            && |st.table.slots| < st.table.cfg.maxSlots && Lowest(st.table.cfg, taken, p)
  {
    hide Mapped, Grants, SetAside, Upsert, Evict, Steered, Lowest;
    var s := Steered(st, req, owner, env);
    var taken := SetAside(st, req, owner, env) + Held(st.table.slots);
    SetAsideTaken(st, req, owner, env);
    UpsertExactly(s.table, req, env.now, taken, p);
    if Roomy(st, taken) {
      var q: u16 :| Lowest(st.table.cfg, taken, q);
    }
  }

  lemma SetAsideTaken(st: State, req: MappingReq, owner: Ipv4, env: GrantEnv)
    ensures var s := Steered(st, req, owner, env);
            s.table.slots == st.table.slots && s.table.cfg == st.table.cfg && s.lan == st.lan && s.entries == st.entries
            && forall q: u16 :: s.table.cfg.InRange(q) ==> (q in s.table.avoid <==> q in SetAside(st, req, owner, env))
  {
    var s := Steered(st, req, owner, env);
    assert s.table.slots == st.table.slots && s.table.cfg == st.table.cfg;
    hide Steered, SetAside;
    SteeredFields(st, req, owner, env);
    forall q: u16 | st.table.cfg.InRange(q)
      ensures q in s.table.avoid <==> q in SetAside(st, req, owner, env)
    {
      SteeredSetsAside(st, req, owner, env, q);
    }
  }

  lemma SteeredFields(st: State, req: MappingReq, owner: Ipv4, env: GrantEnv)
    ensures Steered(st, req, owner, env).lan == st.lan && Steered(st, req, owner, env).entries == st.entries
  {}

  // What freeing a slot leaves.
  lemma AfterFreeing(st: State, i: nat, req: MappingReq)
    requires DistinctPorts(st.table.slots) && i < |st.table.slots| && st.table.slots[i].Client() != Some(req.client)
    ensures var t, u := st.table, DropPort(st, st.table.slots[i].bindPort).table;
            |u.slots| == |t.slots| - 1 && u.cfg == t.cfg && u.avoid == t.avoid
            && Held(u.slots) == Held(t.slots) - {t.slots[i].bindPort}
            && (Mapped(u.slots, req, req.client) <==> Mapped(t.slots, req, req.client))
            && Grants(u.slots, req.client) == Grants(t.slots, req.client)
  {
    var t, port := st.table, st.table.slots[i].bindPort;
    var u := DeletePort(t, port);
    assert HasPort(port)(t.slots[i]) && FirstIndex(t.slots, HasPort(port)) == i;
    DeleteMembers(t, port);
    CountSwapRemove(t.slots, i, HasClient(req.client));
    GrantsAreCounted(t.slots, req.client);
    GrantsAreCounted(u.slots, req.client);
    hide Grants, DeletePort, SwapRemove, Count;
    forall s | s in t.slots && s.bindPort == port ensures s == t.slots[i] {
      var k :| 0 <= k < |t.slots| && t.slots[k] == s;
      assert k == i;
    }
    forall q ensures q in Held(u.slots) <==> q in Held(t.slots) - {port} {}
  }

  // Under pressure it is the lowest once the slot that pressure frees no longer holds its own.
  ghost predicate PressureTakes(st: State, req: MappingReq, env: GrantEnv, aside: set<u16>, p: u16) {
    exists i :: Freed(st.table.slots, i, env.evictNow, req.client)
      && |st.table.slots| - 1 < st.table.cfg.maxSlots
      && Lowest(st.table.cfg, aside + (Held(st.table.slots) - {st.table.slots[i].bindPort}), p)
  }

  lemma PressedTakes(st: State, req: MappingReq, owner: Ipv4, env: GrantEnv, p: u16)
    requires DistinctPorts(st.table.slots)
    requires !Mapped(st.table.slots, req, req.client) && Grants(st.table.slots, req.client) < st.table.cfg.maxPerClient
    requires !Roomy(st, SetAside(st, req, owner, env) + Held(st.table.slots))
    ensures var s := Relieved(Steered(st, req, owner, env), req, env);
            UpsertFor(s.table, req, env.now).1 == GrantedAt(p) <==>
            PressureTakes(st, req, env, SetAside(st, req, owner, env), p)
  {
    var aside := SetAside(st, req, owner, env);
    var s := Steered(st, req, owner, env);
    VictimIsFreed(st.table.slots, env.evictNow, req.client);
    hide Mapped, Grants, SetAside, Upsert, Steered, Lowest, Victim, DropPort, Freed, DistinctPorts;
    SetAsideTaken(st, req, owner, env);
    UpsertExactly(s.table, req, env.now, aside + Held(st.table.slots), p);
    assert UpsertFor(s.table, req, env.now).1.TableFull?;
    var v := Victim(s.table.slots, env.evictNow, LEASE_GRACE, req.client);
    if v.Some? {
      var i :| 0 <= i < |st.table.slots| && Freed(st.table.slots, i, env.evictNow, req.client)
        && st.table.slots[i] == v.value;
      FreedIsOther(st.table.slots, i, env.evictNow, req.client);
      AfterFreeing(s, i, req);
      var u := DropPort(s, v.value.bindPort);
      var taken := aside + (Held(st.table.slots) - {v.value.bindPort});
      UpsertExactly(u.table, req, env.now, taken, p);
      forall j | Freed(st.table.slots, j, env.evictNow, req.client) ensures j == i {
        FreedOnce(st.table.slots, i, j, env.evictNow, req.client);
      }
    }
  }

  lemma FreedIsOther(slots: seq<Slot>, i: int, now: u64, requester: Ipv4)
    requires Freed(slots, i, now, requester)
    ensures 0 <= i < |slots| && slots[i].Client() != Some(requester)
  {}

  // Which port a fresh mapping takes: the lowest of the range that is neither set aside nor held, where a table
  // without room first frees one idle slot of another client.
  lemma FreshGrantExactly(st: State, req: MappingReq, owner: Ipv4, view: Option<Contain>, env: GrantEnv, p: u16)
    requires DistinctPorts(st.table.slots)
    ensures var aside := SetAside(st, req, owner, env);
            var taken := aside + Held(st.table.slots);
            Grant(st, req, owner, view, env).1 == Ok(GrantedAt(p)) <==>
            WithinView(req, view) && OnLan(req, st.lan) && env.datapathUp
            && !Mapped(st.table.slots, req, req.client)
            && Grants(st.table.slots, req.client) < st.table.cfg.maxPerClient
            && if Roomy(st, taken) then Lowest(st.table.cfg, taken, p) else PressureTakes(st, req, env, aside, p)
  {
    var leased := Leased(req);
    LeasedAsks(st, req, owner, env, p);
    hide Mapped, Grants, SetAside, Upsert, Steered, Relieved, Lowest, PressureTakes, DistinctPorts, Admit;
    var s := Relieved(Steered(st, leased, owner, env), leased, env);
    AdmitExactly(s, leased, owner, env, p);
    var taken := SetAside(st, req, owner, env) + Held(st.table.slots);
    if Roomy(st, taken) || Mapped(st.table.slots, req, req.client)
       || Grants(st.table.slots, req.client) >= st.table.cfg.maxPerClient {
      RoomyTakes(st, leased, owner, env, p);
    } else {
      PressedTakes(st, leased, owner, env, p);
    }
  }

  // The lifetime asked for has no part in it.
  lemma LeasedAsks(st: State, req: MappingReq, owner: Ipv4, env: GrantEnv, p: u16)
    ensures var leased := Leased(req);
            SetAside(st, leased, owner, env) == SetAside(st, req, owner, env)
            && leased.client == req.client
            && (forall client :: Mapped(st.table.slots, leased, client) <==> Mapped(st.table.slots, req, client))
            && (forall aside :: PressureTakes(st, leased, env, aside, p) <==> PressureTakes(st, req, env, aside, p))
  {
    forall client ensures Mapped(st.table.slots, Leased(req), client) <==> Mapped(st.table.slots, req, client) {
    }
  }

  lemma RefusalsExactly(st: State, req: MappingReq, owner: Ipv4, view: Option<Contain>, env: GrantEnv)
    ensures var r := Grant(st, req, owner, view, env).1;
            (r == Err(NotAuthorized) <==> !WithinView(req, view))
            && (r == Err(InvalidArgs) <==> WithinView(req, view) && !OnLan(req, st.lan))
            && (WithinView(req, view) && OnLan(req, st.lan) ==> r.Ok? || r == Err(ActionFailed))
  {
    hide Relieved, Steered, Upsert, Recorded, DeletePort;
  }

  // A known mapping is refreshed on the port it has.
  lemma RefreshExactly(st: State, req: MappingReq, owner: Ipv4, view: Option<Contain>, env: GrantEnv, p: u16)
    requires TableInv(st.table)
    ensures Grant(st, req, owner, view, env).1 == Ok(RefreshedAt(p)) <==>
            WithinView(req, view) && OnLan(req, st.lan)
            && exists s :: s in st.table.slots && s.lease.Granted? && s.proto == req.proto
                 && s.lease.client == req.client && s.lease.intPort == req.intPort && s.bindPort == p
  {
    var slots, key := st.table.slots, HasKey(KeyOf(req));
    KeyOnPort(st.table, req, p);
    if Exists(slots, key) {
      KnownOutcome(st, req, owner, view, env);
    } else {
      NewOutcome(st, Leased(req), owner, env);
    }
    hide Upsert, Relieved, Steered, Recorded, DeletePort, TableInv, FirstIndex;
  }

  lemma KeyOnPort(t: Table, req: MappingReq, p: u16)
    requires TableInv(t)
    ensures var i := FirstIndex(t.slots, HasKey(KeyOf(req)));
            (exists s :: s in t.slots && s.lease.Granted? && s.proto == req.proto
               && s.lease.client == req.client && s.lease.intPort == req.intPort && s.bindPort == p)
            <==> i < |t.slots| && t.slots[i].bindPort == p
    ensures !Exists(t.slots, HasKey(KeyOf(req))) ==> forall s :: s in t.slots ==> !HasKey(KeyOf(req))(s)
  {
    hide QuotaKept, PortsInRange, DistinctPorts;
    var slots, key := t.slots, HasKey(KeyOf(req));
    var i := FirstIndex(slots, key);
    forall s | s in slots && key(s) ensures i < |slots| && s == slots[i] {
      var k :| 0 <= k < |slots| && slots[k] == s;
      assert key(slots[k]) && key(slots[i]);
    }
    if i < |slots| {
      assert key(slots[i]) && slots[i] in slots;
    }
  }

  lemma KnownOutcome(st: State, req: MappingReq, owner: Ipv4, view: Option<Contain>, env: GrantEnv)
    requires Exists(st.table.slots, HasKey(KeyOf(req)))
    ensures var i := FirstIndex(st.table.slots, HasKey(KeyOf(req)));
            Grant(st, req, owner, view, env).1.Ok? ==>
              Grant(st, req, owner, view, env).1.value == RefreshedAt(st.table.slots[i].bindPort)
    ensures WithinView(req, view) && OnLan(req, st.lan) ==> Grant(st, req, owner, view, env).1.Ok?
  {
    hide Victim, FreePort, Count, Recorded, DeletePort, InsertSorted;
  }

  lemma NewOutcome(st: State, req: MappingReq, owner: Ipv4, env: GrantEnv)
    requires forall s :: s in st.table.slots ==> !HasKey(KeyOf(req))(s)
    ensures var s := Relieved(Steered(st, req, owner, env), req, env);
            !UpsertFor(s.table, req, env.now).1.RefreshedAt?
  {
    var s := Relieved(Steered(st, req, owner, env), req, env);
    ReliefSlots(st, req, owner, env);
    hide Relieved, Steered;
    NoKeyNoRefresh(s.table, req, env.now);
  }

  lemma ReliefSlots(st: State, req: MappingReq, owner: Ipv4, env: GrantEnv)
    ensures forall x :: x in Relieved(Steered(st, req, owner, env), req, env).table.slots ==> x in st.table.slots
  {
    hide Victim, Upsert, SwapRemove;
    var s := Relieved(Steered(st, req, owner, env), req, env);
    forall x | x in s.table.slots ensures x in st.table.slots {
      assert x in multiset(s.table.slots);
    }
  }

  lemma NoKeyNoRefresh(t: Table, req: MappingReq, now: u64)
    requires forall s :: s in t.slots ==> !HasKey(KeyOf(req))(s)
    ensures !UpsertFor(t, req, now).1.RefreshedAt?
  {
    hide FreePort, Count;
  }

  // ---- what an admitted request stores ----

  // No lifetime asked for means the longest one; the lease ends that much after the clock, or never in its width.
  function AskedLifetime(req: MappingReq): u32 { if req.lifetime == 0 then 4_294_967_295 else req.lifetime }

  function AskedExpiry(req: MappingReq, now: u64): u64 {
    if now + AskedLifetime(req) <= 18_446_744_073_709_551_615 then now + AskedLifetime(req)
    else 18_446_744_073_709_551_615
  }

  ghost predicate SlotStored(slots: seq<Slot>, req: MappingReq, now: u64, o: Outcome)
    requires Admitted(o)
  {
    exists s :: s in slots && s.bindPort == o.bindPort && s.proto == req.proto
      && s.lease == Granted(req.client, req.intPort, AskedLifetime(req), AskedExpiry(req, now))
      && s.lastActivity == now
      && (o.GrantedAt? ==> s.target == req.client && s.targetPort == req.intPort)
  }

  // The owner's entry for the internal port carries label, terms and description; a new one is bound to the slot,
  // one the owner had stays bound as it was.
  ghost predicate EntryStored(es: seq<Entry>, before: seq<Entry>, req: MappingReq, owner: Ipv4, now: u64, port: u16) {
    exists e :: e in es && e.owner == owner && e.proto == req.proto && e.intPort == req.intPort
      && e.reqExt == req.ext && e.desc == req.desc
      && e.lifetime == AskedLifetime(req) && e.expires == AskedExpiry(req, now)
      && ((e.bindPort == port && e.client == req.client)
          || exists f :: f in before && f.owner == owner && f.proto == req.proto && f.intPort == req.intPort
               && f.bindPort == e.bindPort && f.client == e.client)
  }

  lemma UpsertStores(t: Table, req: MappingReq, now: u64)
    requires req.lifetime > 0 && Admitted(UpsertFor(t, req, now).1)
    ensures var (u, o) := UpsertFor(t, req, now); SlotStored(u.slots, req, now, o)
  {
    hide FreePort, Count;
    var (u, o) := UpsertFor(t, req, now);
    var i := FirstIndex(t.slots, HasKey(KeyOf(req)));
    var k := if i < |t.slots| then i else |t.slots|;
    assert HasKey(KeyOf(req))(u.slots[k]) && u.slots[k] in u.slots;
    var s := u.slots[k];
    assert s.lease == Granted(req.client, req.intPort, AskedLifetime(req), AskedExpiry(req, now));
  }

  // The slot a label leaves is on another port.
  lemma RecordStores(st: State, req: MappingReq, owner: Ipv4, o: Outcome, now: u64)
    requires TableInv(st.table) && Admitted(o) && SlotStored(st.table.slots, req, now, o) && req.lifetime > 0
    ensures var u := Recorded(st, req, owner, o.bindPort, now);
            SlotStored(u.table.slots, req, now, o)
            && EntryStored(u.entries, st.entries, req, owner, now, o.bindPort)
  {
    hide DeletePort, InsertSorted, RemoveAt;
    var (es, stray) := ApplyEntry(st.entries, req, owner, o.bindPort, now);
    if stray.Some? {
      DeleteMembers(st.table, stray.value);
    }
    EntryIsStored(st.entries, req, owner, o.bindPort, now);
    hide ApplyEntry, EntryStored;
  }

  lemma InsertedIn(es: seq<Entry>, e: Entry)
    ensures e in InsertSorted(es, e)
  {
    var at := FirstIndex(es, (x: Entry) => Before(e, x));
    assert InsertAt(es, at, e)[at] == e;
  }

  lemma EntryIsStored(es: seq<Entry>, req: MappingReq, owner: Ipv4, port: u16, now: u64)
    requires req.lifetime > 0
    ensures EntryStored(ApplyEntry(es, req, owner, port, now).0, es, req, owner, now, port)
  {
    hide InsertSorted, RemoveAt;
    var i := FirstIndex(es, IsInternal(req.proto, owner, req.intPort));
    var j := FirstIndex(es, IsHandle(req.ext, req.proto, owner));
    var e := EntryFor(req, owner, port, now);
    if i < |es| {
      assert es[i] in es;
      InsertedIn(RemoveAt(es, i), Relabelled(es[i], req, now));
    } else if req.ext != 0 && j < |es| {
      assert es[j := e][j] == e;
    } else {
      InsertedIn(es, e);
    }
  }

  lemma ReliefShrinks(st: State, req: MappingReq, owner: Ipv4, env: GrantEnv)
    requires TableInv(st.table)
    ensures var s := Relieved(Steered(st, req, owner, env), req, env);
            TableInv(s.table) && (forall e :: e in s.entries ==> e in st.entries) && s.table.cfg == st.table.cfg
            && s.table.avoid == Steered(st, req, owner, env).table.avoid
  {
    var s := Steered(st, req, owner, env);
    assert TableInv(s.table);
    hide Victim, Upsert, DeletePort, TableInv;
    var v := Victim(s.table.slots, env.evictNow, LEASE_GRACE, req.client);
    if v.Some? {
      DeleteKeeps(s.table, v.value.bindPort);
      DeletedFields(s.table, v.value.bindPort);
    }
  }

  lemma DeletedFields(t: Table, port: u16)
    ensures DeletePort(t, port).cfg == t.cfg && DeletePort(t, port).avoid == t.avoid
  {}

  // Every admitted request is stored, slot and entry, as asked.
  lemma GrantStores(st: State, req: MappingReq, owner: Ipv4, view: Option<Contain>, env: GrantEnv)
    requires TableInv(st.table) && Grant(st, req, owner, view, env).1.Ok?
    ensures var (u, r) := Grant(st, req, owner, view, env);
            Admitted(r.value) && SlotStored(u.table.slots, req, env.now, r.value)
            && EntryStored(u.entries, st.entries, req, owner, env.now, r.value.bindPort)
  {
    var leased := Leased(req);
    var s := Relieved(Steered(st, leased, owner, env), leased, env);
    var (t, o) := UpsertFor(s.table, leased, env.now);
    GrantUnfolds(st, req, owner, view, env);
    ReliefShrinks(st, leased, owner, env);
    hide Grant, Upsert, Relieved, Steered, Recorded, DeletePort, TableInv, SlotStored, EntryStored;
    hide AskedLifetime, AskedExpiry;
    UpsertKeeps(s.table, KeyOf(leased), leased.lifetime, env.now, leased.client, leased.intPort);
    UpsertStores(s.table, leased, env.now);
    RecordStores(s.(table := t), leased, owner, o, env.now);
    var u := Recorded(s.(table := t), leased, owner, o.bindPort, env.now);
    StoredAlike(u.table.slots, req, env.now, o);
    EntryAlike(u.entries, s.entries, st.entries, req, owner, env.now, o.bindPort);
  }

  lemma StoredAlike(slots: seq<Slot>, req: MappingReq, now: u64, o: Outcome)
    requires Admitted(o)
    ensures SlotStored(slots, Leased(req), now, o) <==> SlotStored(slots, req, now, o)
  {
    assert AskedLifetime(Leased(req)) == AskedLifetime(req);
  }

  lemma EntryAlike(
    es: seq<Entry>, fewer: seq<Entry>, before: seq<Entry>, req: MappingReq, owner: Ipv4, now: u64, port: u16)
    requires EntryStored(es, fewer, Leased(req), owner, now, port) && forall e :: e in fewer ==> e in before
    ensures EntryStored(es, before, req, owner, now, port)
  {
    assert AskedLifetime(Leased(req)) == AskedLifetime(req);
    hide AskedLifetime, AskedExpiry;
  }

  // ---- the live flows ----

  // The owner's entry under the label, whose slot a take-over gives up.
  ghost predicate GivenUp(es: seq<Entry>, req: MappingReq, owner: Ipv4, port: u16) {
    req.ext != 0
    && exists e :: e in es && e.owner == owner && e.proto == req.proto && e.reqExt == req.ext && e.bindPort == port
  }

  // With the probe working, a mapping its owner does not have yet never lands on a live flow's port, and passes a
  // lower port only for a live flow, for a slot that is still there, or for the one the owner gives up for it.
  lemma FreshGrantSparesLive(st: State, req: MappingReq, owner: Ipv4, view: Option<Contain>, env: GrantEnv, b: u16)
    requires TableInv(st.table) && Grant(st, req, owner, view, env).1 == Ok(GrantedAt(b))
    requires env.live.Some? && !Mapped(st.table.slots, req, owner)
    ensures var u := Grant(st, req, owner, view, env).0;
            st.table.cfg.lo <= b <= st.table.cfg.hi && b !in env.live.value
            && forall q: u16 :: st.table.cfg.lo <= q < b ==>
                 q in env.live.value || q in Held(u.table.slots) || GivenUp(st.entries, req, owner, q)
  {
    GrantUnfolds(st, req, owner, view, env);
    AsideIsLive(st, req, owner, env);
    var leased := Leased(req);
    var s := Relieved(Steered(st, leased, owner, env), leased, env);
    ReliefShrinks(st, leased, owner, env);
    hide *;
    FreshOutcome(s.table, leased, env.now, b);
    forall q: u16 | st.table.cfg.lo <= q < b && q !in env.live.value
      ensures var u := Grant(st, req, owner, view, env).0;
              q in Held(u.table.slots) || GivenUp(st.entries, req, owner, q)
    {
      assert s.table.cfg.lo <= q < b <= st.table.cfg.hi;
      assert q !in Steered(st, leased, owner, env).table.avoid && q in Held(s.table.slots) + s.table.avoid;
      HeldAfterRecord(st, s, req, owner, env, b, q);
    }
  }

  // A port held before the upsert is held after the recording, or given up.
  lemma HeldAfterRecord(st: State, s: State, req: MappingReq, owner: Ipv4, env: GrantEnv, b: u16, q: u16)
    requires TableInv(s.table) && (forall e :: e in s.entries ==> e in st.entries) && q in Held(s.table.slots)
    ensures var u := Recorded(s.(table := UpsertFor(s.table, Leased(req), env.now).0), Leased(req), owner, b, env.now);
            q in Held(u.table.slots) || GivenUp(st.entries, req, owner, q)
  {
    hide *;
    var leased := Leased(req);
    UpsertHolds(s.table, leased, env.now);
    RecordHolds(s.(table := UpsertFor(s.table, leased, env.now).0), leased, owner, b, env.now);
    if GivenUp(s.entries, leased, owner, q) {
      GivenUpAmong(st.entries, s.entries, req, owner, q);
    }
  }

  lemma GrantUnfolds(st: State, req: MappingReq, owner: Ipv4, view: Option<Contain>, env: GrantEnv)
    requires Grant(st, req, owner, view, env).1.Ok?
    ensures var leased := Leased(req);
            var s := Relieved(Steered(st, leased, owner, env), leased, env);
            var (t, o) := UpsertFor(s.table, leased, env.now);
            Grant(st, req, owner, view, env) == (Recorded(s.(table := t), leased, owner, o.bindPort, env.now), Ok(o))
            && Admitted(o)
  {
    hide Upsert, Relieved, Steered, Recorded, DeletePort;
  }

  lemma GivenUpAmong(es: seq<Entry>, fewer: seq<Entry>, req: MappingReq, owner: Ipv4, q: u16)
    requires GivenUp(fewer, Leased(req), owner, q) && forall e :: e in fewer ==> e in es
    ensures GivenUp(es, req, owner, q)
  {}

  lemma AsideIsLive(st: State, req: MappingReq, owner: Ipv4, env: GrantEnv)
    requires env.live.Some? && !Mapped(st.table.slots, req, owner)
    ensures forall q: u16 :: st.table.cfg.lo <= q <= st.table.cfg.hi ==>
              (q in Steered(st, Leased(req), owner, env).table.avoid <==> q in env.live.value)
  {
    assert Leased(req).proto == req.proto && Leased(req).intPort == req.intPort;
    forall q: u16 | st.table.cfg.lo <= q <= st.table.cfg.hi
      ensures q in Steered(st, Leased(req), owner, env).table.avoid <==> q in env.live.value
    {
      SteeredSetsAside(st, Leased(req), owner, env, q);
    }
  }

  lemma FreshOutcome(t: Table, req: MappingReq, now: u64, b: u16)
    requires UpsertFor(t, req, now).1 == GrantedAt(b)
    ensures t.cfg.lo <= b <= t.cfg.hi && b !in Held(t.slots) + t.avoid
    ensures forall q: u16 :: t.cfg.lo <= q < b ==> q in Held(t.slots) + t.avoid
  {
    hide LowestFree, Count;
  }

  lemma UpsertHolds(t: Table, req: MappingReq, now: u64)
    requires TableInv(t)
    ensures Held(t.slots) <= Held(UpsertFor(t, req, now).0.slots) && TableInv(UpsertFor(t, req, now).0)
  {
    UpsertKeeps(t, KeyOf(req), req.lifetime, now, req.client, req.intPort);
    hide TableInv, FreePort, Count;
    var u := UpsertFor(t, req, now).0;
    forall s | s in t.slots ensures s.bindPort in Held(u.slots) {
      var k :| 0 <= k < |t.slots| && t.slots[k] == s;
      assert u.slots[k] in u.slots && u.slots[k].bindPort == s.bindPort;
    }
  }

  lemma RecordHolds(st: State, req: MappingReq, owner: Ipv4, port: u16, now: u64)
    requires TableInv(st.table)
    ensures forall q :: q in Held(st.table.slots) ==>
              q in Held(Recorded(st, req, owner, port, now).table.slots) || GivenUp(st.entries, req, owner, q)
  {
    hide DeletePort;
    var j := FirstIndex(st.entries, IsHandle(req.ext, req.proto, owner));
    var stray := ApplyEntry(st.entries, req, owner, port, now).1;
    if stray.Some? {
      assert st.entries[j] in st.entries;
      DeleteMembers(st.table, stray.value);
      forall q | q in Held(st.table.slots) && q != stray.value
        ensures q in Held(Recorded(st, req, owner, port, now).table.slots) {
        var s :| s in st.table.slots && s.bindPort == q;
        assert s in DeletePort(st.table, stray.value).slots;
      }
    }
  }
}
