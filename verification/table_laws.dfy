// What every sequence of table operations keeps, and the clock bounds of the two collectors.
module TableLaws {
  import opened Net
  import opened Seqs
  import opened LeaseTables

  // ---- the table invariant ----

  ghost predicate DistinctPorts(slots: seq<Slot>) {
    forall i, j :: 0 <= i < j < |slots| ==> slots[i].bindPort != slots[j].bindPort
  }

  ghost predicate DistinctKeys(slots: seq<Slot>) {
    forall i, j :: 0 <= i < j < |slots| && slots[i].PcpKey().Some? ==> slots[i].PcpKey() != slots[j].PcpKey()
  }

  ghost predicate PortsInRange(t: Table) {
    forall s :: s in t.slots ==> t.cfg.InRange(s.bindPort)
  }

  ghost predicate QuotaKept(t: Table) {
    forall c: Ipv4 :: Count(t.slots, HasClient(c)) <= t.cfg.maxPerClient
  }

  ghost predicate TableInv(t: Table) {
    DistinctPorts(t.slots) && DistinctKeys(t.slots) && PortsInRange(t) && QuotaKept(t)
  }

  // ---- one operation at a time ----

  // A refresh moves no port; a fresh grant takes the lowest port that is neither held nor reserved.
  lemma UpsertPort(t: Table, k: Key, lifetime: u32, now: u64, target: Ipv4, targetPort: u16)
    ensures var (u, o) := Upsert(t, k, lifetime, now, target, targetPort);
            match o
            case RefreshedAt(b) =>
              |u.slots| == |t.slots| && (exists s :: s in t.slots && s.PcpKey() == Some(k) && s.bindPort == b) &&
              (forall i :: 0 <= i < |t.slots| ==>
                 && u.slots[i].bindPort == t.slots[i].bindPort
                 && u.slots[i].target == t.slots[i].target && u.slots[i].targetPort == t.slots[i].targetPort)
            case GrantedAt(b) =>
              b !in Held(t.slots) && b !in t.avoid && t.cfg.InRange(b)
              && (forall p: u16 :: t.cfg.lo <= p < b ==> p in Held(t.slots) || p in t.avoid)
              && (forall s :: s in t.slots ==> s.PcpKey() != Some(k))
            case _ => u == t
  {
    var i := FirstIndex(t.slots, HasKey(k));
    if i < |t.slots| {
      assert t.slots[i] in t.slots;
    } else {
      forall s | s in t.slots ensures s.PcpKey() != Some(k) {
        var j :| 0 <= j < |t.slots| && t.slots[j] == s;
        assert !HasKey(k)(t.slots[j]);
      }
    }
  }

  // Appending a slot keeps the invariant when its port and key are new and its client has quota left.
  lemma AppendKeeps(t: Table, s: Slot)
    requires TableInv(t) && t.cfg.InRange(s.bindPort)
    requires forall o :: o in t.slots ==> o.bindPort != s.bindPort
    requires s.lease.Granted? ==>
      (forall o :: o in t.slots ==> o.PcpKey() != s.PcpKey())
      && Count(t.slots, HasClient(s.lease.client)) < t.cfg.maxPerClient
    ensures TableInv(t.(slots := t.slots + [s]))
  {
    forall c: Ipv4 ensures Count(t.slots + [s], HasClient(c)) <= t.cfg.maxPerClient {
      CountConcat(t.slots, [s], HasClient(c));
      assert [s][..0] == [];
    }
  }

  // Rewriting a slot in place keeps the invariant when it stays under the same port and key.
  lemma RewriteKeeps(t: Table, i: nat, s: Slot)
    requires TableInv(t) && i < |t.slots|
    requires s.bindPort == t.slots[i].bindPort && s.PcpKey() == t.slots[i].PcpKey()
    ensures TableInv(t.(slots := t.slots[i := s]))
  {
    forall c: Ipv4 ensures Count(t.slots[i := s], HasClient(c)) <= t.cfg.maxPerClient {
      CountUpdate(t.slots, i, s, HasClient(c));
    }
  }

  lemma UpsertKeeps(t: Table, k: Key, lifetime: u32, now: u64, target: Ipv4, targetPort: u16)
    requires TableInv(t)
    ensures TableInv(Upsert(t, k, lifetime, now, target, targetPort).0)
  {
    var (u, o) := Upsert(t, k, lifetime, now, target, targetPort);
    UpsertPort(t, k, lifetime, now, target, targetPort);
    match o
    case RefreshedAt(_) =>
      var i := FirstIndex(t.slots, HasKey(k));
      RewriteKeeps(t, i, Refreshed(t.slots[i], lifetime, now));
    case GrantedAt(b) =>
      assert forall s :: s in t.slots ==> s.bindPort in Held(t.slots);
      AppendKeeps(t, FreshSlot(b, k, lifetime, now, target, targetPort));
    case _ =>
  }

  lemma InsertStaticKeeps(t: Table, m: StaticMap)
    requires TableInv(t)
    ensures InsertStatic(t, m).Ok? ==> TableInv(InsertStatic(t, m).value)
  {
    if InsertStatic(t, m).Ok? {
      assert forall j :: 0 <= j < |t.slots| ==> !HasPort(m.bindPort)(t.slots[j]);
      AppendKeeps(t, Slot(m.bindPort, Udp, m.target, m.targetPort, Static, 0, 0));
    }
  }

  // What distinctness asks of any two slots.
  function Apart(): (Slot, Slot) -> bool {
    (a: Slot, b: Slot) => a.bindPort != b.bindPort && (a.PcpKey().Some? ==> a.PcpKey() != b.PcpKey())
  }

  // Ports being distinct, the lookup by port finds the slot itself.
  lemma FoundByPort(slots: seq<Slot>, s: Slot)
    requires DistinctPorts(slots) && s in slots
    ensures var k := FirstIndex(slots, HasPort(s.bindPort)); k < |slots| && slots[k] == s
  {
    var a :| 0 <= a < |slots| && slots[a] == s;
    assert HasPort(s.bindPort)(slots[a]);
  }

  // A delete takes the slot on that port and no other.
  lemma DeleteMembers(t: Table, port: u16)
    requires DistinctPorts(t.slots)
    ensures forall s :: s in DeletePort(t, port).slots <==> s in t.slots && s.bindPort != port
  {
    var i := FirstIndex(t.slots, HasPort(port));
    forall s | s in t.slots ensures s.bindPort == port <==> i < |t.slots| && s == t.slots[i] {
      var j :| 0 <= j < |t.slots| && t.slots[j] == s;
      assert j < i ==> !HasPort(port)(t.slots[j]);
    }
    if i < |t.slots| {
      SwapRemoveMembers(t.slots, i);
    }
  }

  lemma DeleteKeeps(t: Table, port: u16)
    requires TableInv(t)
    ensures TableInv(DeletePort(t, port))
  {
    var u := DeletePort(t, port);
    var i := FirstIndex(t.slots, HasPort(port));
    DeleteMembers(t, port);
    if i < |t.slots| {
      SwapRemoveKeepsPairs(t.slots, i, Apart());
      assert forall a, b :: 0 <= a < b < |u.slots| ==> Apart()(u.slots[a], u.slots[b]);
      forall c: Ipv4 ensures Count(u.slots, HasClient(c)) <= t.cfg.maxPerClient {
        CountSwapRemove(t.slots, i, HasClient(c));
      }
    }
  }

  lemma KeepKeeps(t: Table, p: Slot -> bool)
    requires TableInv(t)
    ensures TableInv(Keep(t, p))
  {
    FilterKeepsPairs(t.slots, p, Apart());
    var u := Keep(t, p);
    assert forall i, j :: 0 <= i < j < |u.slots| ==> Apart()(u.slots[i], u.slots[j]);
    forall c: Ipv4 ensures Count(u.slots, HasClient(c)) <= t.cfg.maxPerClient {
      CountFilter(t.slots, p, HasClient(c));
    }
  }

  lemma StampKeeps(t: Table, port: u16, now: u64, minInterval: u64)
    requires TableInv(t)
    ensures TableInv(Stamp(t, port, now, minInterval))
  {
    var i := FirstIndex(t.slots, HasPort(port));
    if i < |t.slots| {
      RewriteKeeps(t, i, t.slots[i].(lastActivity := now));
    }
  }

  // Giving position i a new port keeps the invariant exactly when no other slot holds that port.
  lemma RelocateKeeps(t: Table, i: nat, port: u16)
    requires TableInv(t) && i < |t.slots| && t.cfg.InRange(port)
    ensures TableInv(t.(slots := t.slots[i := t.slots[i].(bindPort := port)])) <==>
            forall j :: 0 <= j < |t.slots| && j != i ==> t.slots[j].bindPort != port
  {
    var u := t.(slots := t.slots[i := t.slots[i].(bindPort := port)]);
    forall c: Ipv4 ensures Count(u.slots, HasClient(c)) <= t.cfg.maxPerClient {
      CountUpdate(t.slots, i, u.slots[i], HasClient(c));
    }
    forall j | 0 <= j < |t.slots| && j != i && t.slots[j].bindPort == port ensures !DistinctPorts(u.slots) {
      assert u.slots[i].bindPort == u.slots[j].bindPort;
    }
    if forall j :: 0 <= j < |t.slots| && j != i ==> t.slots[j].bindPort != port {
      assert DistinctKeys(u.slots) by {
        forall a, b | 0 <= a < b < |u.slots| && u.slots[a].PcpKey().Some?
          ensures u.slots[a].PcpKey() != u.slots[b].PcpKey() {
          assert u.slots[a].PcpKey() == t.slots[a].PcpKey() && u.slots[b].PcpKey() == t.slots[b].PcpKey();
        }
      }
    }
  }

  lemma MoveKeeps(t: Table, oldPort: u16)
    requires TableInv(t)
    ensures TableInv(MovePort(t, oldPort).0)
  {
    var i := FirstIndex(t.slots, HasPort(oldPort));
    if i < |t.slots| {
      var u := t.(avoid := t.avoid + {oldPort});
      var free := FreePort(u);
      if free.Some? {
        assert forall j :: 0 <= j < |t.slots| ==> t.slots[j].bindPort in Held(t.slots);
        RelocateKeeps(u, i, free.value);
      }
    }
  }

  // restore_bind_port does not look at whether the old port is free. It keeps the table exactly when the
  // slot is missing, the port does not change, or no slot holds the port it goes back to.
  lemma RestorePortExactly(t: Table, from: u16, to: u16)
    requires TableInv(t) && t.cfg.InRange(to)
    ensures TableInv(RestorePort(t, from, to)) <==> from !in Held(t.slots) || from == to || to !in Held(t.slots)
  {
    var i := FirstIndex(t.slots, HasPort(from));
    if i < |t.slots| {
      assert t.slots[i].bindPort in Held(t.slots);
      RelocateKeeps(t, i, to);
      if to in Held(t.slots) && from != to {
        var s :| s in t.slots && s.bindPort == to;
        var j :| 0 <= j < |t.slots| && t.slots[j] == s;
      }
    } else {
      assert forall j :: 0 <= j < |t.slots| ==> !HasPort(from)(t.slots[j]);
    }
  }

  // ---- every sequence of operations ----

  datatype Op =
    | DoUpsert(k: Key, lifetime: u32, now: u64, target: Ipv4, targetPort: u16)
    | DoStatic(m: StaticMap)
    | DoDelete(port: u16)
    | DoGc(now: u64, grace: u64)
    | DoGcIdle(now: u64, backstop: u64)
    | DoStamp(port: u16, now: u64, minInterval: u64)
    | DoAvoid(live: seq<u16>)
    | DoMove(port: u16)
    | DoRestorePort(from: u16, to: u16)

  ghost function Do(t: Table, op: Op): Table {
    match op
    case DoUpsert(k, lifetime, now, target, targetPort) => Upsert(t, k, lifetime, now, target, targetPort).0
    case DoStatic(m) => var r := InsertStatic(t, m); if r.Ok? then r.value else t
    case DoDelete(port) => DeletePort(t, port)
    case DoGc(now, grace) => Keep(t, SurvivesGc(now, grace))
    case DoGcIdle(now, backstop) => Keep(t, SurvivesIdle(now, backstop))
    case DoStamp(port, now, minInterval) => Stamp(t, port, now, minInterval)
    case DoAvoid(live) => AvoidPorts(t, live)
    case DoMove(port) => MovePort(t, port).0
    case DoRestorePort(from, to) => RestorePort(t, from, to)
  }

  // A lease moves off port 10, the reservation of 10 is replaced, another client is granted 10, and the move is
  // taken back.
  function CollisionRun(first: Key, second: Key): seq<Op> {
    [DoUpsert(first, 60, 100, first.client, first.intPort), DoMove(10), DoAvoid([]),
     DoUpsert(second, 60, 100, second.client, second.intPort), DoRestorePort(11, 10)]
  }

  // From an empty table over ports 10 to 20, that run ends with two slots on port 10.
  lemma RestorePortCollides(first: Key, second: Key)
    requires first != second && first.client != second.client
    ensures var t := RunOps(Table(Config(10, 20, 4, 4), [], {}), CollisionRun(first, second));
            |t.slots| == 2 && t.slots[0].bindPort == t.slots[1].bindPort == 10 && !TableInv(t)
  {
    hide Do, TableInv;
    var t0, ops := Table(Config(10, 20, 4, 4), [], {}), CollisionRun(first, second);
    var s1 := FreshSlot(10, first, 60, 100, first.client, first.intPort);
    var s2 := FreshSlot(10, second, 60, 100, second.client, second.intPort);
    var moved := s1.(bindPort := 11);
    UpsertFresh(t0, ops[0], 10);
    assert Do(t0, ops[0]) == t0.(slots := [s1]);
    MoveTo11(t0.(slots := [s1]), s1);
    var t2 := t0.(slots := [moved], avoid := {10});
    AvoidDone(t2);
    OneSlot(moved, second.client);
    UpsertFresh(t2.(avoid := {}), ops[3], 10);
    var t4 := t0.(slots := [moved, s2]);
    assert Do(t2.(avoid := {}), ops[3]) == t4;
    RestoreDone(t4, moved, s1, s2);
    RunOfFive(t0, ops);
    TwoOnOnePort(t0.(slots := [s1, s2]));
  }

  lemma TwoOnOnePort(t: Table)
    requires |t.slots| == 2 && t.slots[0].bindPort == t.slots[1].bindPort
    ensures !TableInv(t)
  {
    hide QuotaKept, DistinctKeys, PortsInRange;
  }

  lemma AvoidDone(t: Table)
    ensures Do(t, DoAvoid([])) == t.(avoid := {})
  {
    assert AvoidPorts(t, []).avoid == {};
  }

  // A key the table does not have is granted the lowest free port.
  lemma UpsertFresh(t: Table, op: Op, port: u16)
    requires op.DoUpsert? && !Exists(t.slots, HasKey(op.k)) && Count(t.slots, HasClient(op.k.client)) == 0
    requires t.cfg.maxPerClient > 0 && |t.slots| < t.cfg.maxSlots && t.cfg.lo == port <= t.cfg.hi
    requires port !in Held(t.slots) + t.avoid
    ensures Do(t, op) == t.(slots := t.slots + [FreshSlot(port, op.k, op.lifetime, op.now, op.target, op.targetPort)])
  {}

  lemma OneSlot(s: Slot, c: Ipv4)
    ensures Held([s]) == {s.bindPort} && (s.Client() != Some(c) ==> Count([s], HasClient(c)) == 0)
  {
    assert [s][..0] == [];
  }

  lemma MoveTo11(t: Table, s: Slot)
    requires t.slots == [s] && s.bindPort == 10 && t.avoid == {} && t.cfg.lo == 10 && t.cfg.hi == 20
    ensures Do(t, DoMove(10)) == t.(slots := [s.(bindPort := 11)], avoid := {10})
  {
    hide LowestFree;
    OneSlot(s, UNSPECIFIED);
    assert FirstIndex([s], HasPort(10)) == 0;
    var u := t.(avoid := t.avoid + {10});
    var eleven: u16 := 11;
    assert Held(u.slots) + u.avoid == {10} && eleven !in Held(u.slots) + u.avoid;
    assert FreePort(u) == Some(eleven);
    assert [s][0 := s.(bindPort := 11)] == [s.(bindPort := 11)];
  }

  lemma RestoreDone(t: Table, moved: Slot, s: Slot, other: Slot)
    requires t.slots == [moved, other] && moved.bindPort == 11 && s == moved.(bindPort := 10)
    ensures Do(t, DoRestorePort(11, 10)) == t.(slots := [s, other])
  {
    assert FirstIndex([moved, other], HasPort(11)) == 0;
  }

  lemma RunOfFive(t: Table, ops: seq<Op>)
    requires |ops| == 5
    ensures RunOps(t, ops) == Do(Do(Do(Do(Do(t, ops[0]), ops[1]), ops[2]), ops[3]), ops[4])
  {
    assert RunOps(t, ops[..0]) == t;
    hide Do, RunOps;
    RunPrefix(t, ops, 0);
    RunPrefix(t, ops, 1);
    RunPrefix(t, ops, 2);
    RunPrefix(t, ops, 3);
    RunPrefix(t, ops, 4);
    assert ops[..5] == ops;
  }

  lemma RunPrefix(t: Table, ops: seq<Op>, n: nat)
    requires n < |ops|
    ensures RunOps(t, ops[..n + 1]) == Do(RunOps(t, ops[..n]), ops[n])
  {
    hide Do;
    assert ops[..n + 1][..n] == ops[..n];
  }

  // The one demand on callers: a lease is put back only onto a port of the range that no slot holds.
  ghost predicate Admissible(t: Table, op: Op) {
    op.DoRestorePort? ==> t.cfg.InRange(op.to) && (op.from == op.to || op.to !in Held(t.slots))
  }

  ghost function RunOps(t: Table, ops: seq<Op>): Table {
    if ops == [] then t else Do(RunOps(t, ops[..|ops| - 1]), ops[|ops| - 1])
  }

  ghost predicate AdmissibleRun(t: Table, ops: seq<Op>) {
    ops != [] ==> AdmissibleRun(t, ops[..|ops| - 1]) && Admissible(RunOps(t, ops[..|ops| - 1]), ops[|ops| - 1])
  }

  // Only a static may push the table past its capacity: inserting one does not look at max_slots.
  lemma DoSize(t: Table, op: Op)
    ensures Do(t, op).cfg == t.cfg
    ensures |Do(t, op).slots| <= Max(|t.slots|, t.cfg.maxSlots) + (if op.DoStatic? then 1 else 0)
  {}

  lemma DoKeeps(t: Table, op: Op)
    requires TableInv(t) && Admissible(t, op)
    ensures TableInv(Do(t, op))
  {
    match op
    case DoUpsert(k, lifetime, now, target, targetPort) => UpsertKeeps(t, k, lifetime, now, target, targetPort);
    case DoStatic(m) => InsertStaticKeeps(t, m);
    case DoDelete(port) => DeleteKeeps(t, port);
    case DoGc(now, grace) => KeepKeeps(t, SurvivesGc(now, grace));
    case DoGcIdle(now, backstop) => KeepKeeps(t, SurvivesIdle(now, backstop));
    case DoStamp(port, now, minInterval) => StampKeeps(t, port, now, minInterval);
    case DoAvoid(live) => assert Do(t, op).slots == t.slots;
    case DoMove(port) => MoveKeeps(t, port);
    case DoRestorePort(from, to) => RestorePortExactly(t, from, to);
  }

  // Over every run: ports distinct and in range, keys distinct, quotas kept, capacity passed by statics only.
  lemma {:induction false} EveryRunKeepsTheTable(t: Table, ops: seq<Op>)
    requires TableInv(t) && AdmissibleRun(t, ops)
    ensures TableInv(RunOps(t, ops)) && RunOps(t, ops).cfg == t.cfg
    ensures |RunOps(t, ops).slots| <= Max(|t.slots|, t.cfg.maxSlots) + Count(ops, (op: Op) => op.DoStatic?)
  {
    if ops != [] {
      EveryRunKeepsTheTable(t, ops[..|ops| - 1]);
      DoKeeps(RunOps(t, ops[..|ops| - 1]), ops[|ops| - 1]);
      DoSize(RunOps(t, ops[..|ops| - 1]), ops[|ops| - 1]);
    }
  }
}
