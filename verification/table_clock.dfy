// Clock bounds over whole runs of the table: when the two collectors may take a lease.
module TableClock {
  import opened Net
  import opened Seqs
  import opened LeaseTables
  import opened TableLaws

  // Peer traffic restamps a slot at most once in this many seconds.
  const STAMP_MIN: u64 := 15

  function Time(op: Op): Option<u64> {
    match op
    case DoUpsert(_, _, now, _, _) => Some(now)
    case DoGc(now, _) => Some(now)
    case DoGcIdle(now, _) => Some(now)
    case DoStamp(_, now, _) => Some(now)
    case _ => None
  }

  ghost predicate ClockNotAfter(ops: seq<Op>, now: u64) {
    forall op :: op in ops && Time(op).Some? ==> Time(op).value <= now
  }

  // A nondecreasing clock.
  ghost predicate Steady(ops: seq<Op>) {
    ops != [] ==>
      var op := ops[|ops| - 1];
      Steady(ops[..|ops| - 1]) && (Time(op).Some? ==> ClockNotAfter(ops[..|ops| - 1], Time(op).value))
  }

  // ---- what a run remembers about one key ----

  // When the mapping was last asked for, and for how long, by a request that was admitted.
  ghost function LastUpsert(t: Table, ops: seq<Op>, k: Key): Option<(u64, u32)> {
    if ops == [] then None
    else
      var front, op := ops[..|ops| - 1], ops[|ops| - 1];
      if op.DoUpsert? && op.k == k
         && Admitted(Upsert(RunOps(t, front), k, op.lifetime, op.now, op.target, op.targetPort).1)
      then Some((op.now, op.lifetime))
      else LastUpsert(t, front, k)
  }

  // The slot on a port, if any.
  ghost function OnPort(t: Table, port: u16): Option<Slot> {
    var i := FirstIndex(t.slots, HasPort(port));
    if i < |t.slots| then Some(t.slots[i]) else None
  }

  // When peer traffic last reached the mapping: every datagram is offered to the rate-limited stamp.
  ghost function LastTraffic(t: Table, ops: seq<Op>, k: Key): Option<u64> {
    if ops == [] then None
    else
      var front, op := ops[..|ops| - 1], ops[|ops| - 1];
      if op.DoStamp? && op.minInterval <= STAMP_MIN
         && OnPort(RunOps(t, front), op.port).Some? && OnPort(RunOps(t, front), op.port).value.PcpKey() == Some(k)
      then Some(op.now)
      else LastTraffic(t, front, k)
  }

  // The slot's own fields agree with what the run remembers.
  ghost predicate InStep(t: Table, ops: seq<Op>, s: Slot) {
    s.lease.Granted? ==>
      var k := s.PcpKey().value;
      && (LastUpsert(t, ops, k).Some? ==>
            var (at, lifetime) := LastUpsert(t, ops, k).value;
            s.lease.lifetime == lifetime && s.lease.expires == SatAdd(at, lifetime))
      && (LastTraffic(t, ops, k).Some? ==> LastTraffic(t, ops, k).value < s.lastActivity + STAMP_MIN)
  }

  // ---- where a slot's clocks come from ----

  predicate SameClocks(s: Slot, o: Slot) {
    s.proto == o.proto && s.lease == o.lease && s.lastActivity == o.lastActivity
  }

  predicate UpsertedBy(op: Op, s: Slot) {
    op.DoUpsert? && s.PcpKey() == Some(op.k) && s.lastActivity == op.now
    && s.lease.lifetime == op.lifetime && s.lease.expires == SatAdd(op.now, op.lifetime)
  }

  predicate StampedBy(op: Op, s: Slot, o: Slot) {
    op.DoStamp? && o.bindPort == op.port && s == o.(lastActivity := op.now)
  }

  // Every slot after an operation is static, or carries the clocks of a slot before it, or is the one slot
  // that operation upserted or stamped.
  lemma ClockOrigin(t: Table, op: Op, s: Slot)
    requires s in Do(t, op).slots
    ensures s.lease.Static? || UpsertedBy(op, s)
            || exists o :: o in t.slots && (SameClocks(s, o) || StampedBy(op, s, o))
  {
    var u := Do(t, op);
    if op.DoDelete? {
      assert s in multiset(u.slots) && s in multiset(t.slots);
      assert SameClocks(s, s);
    } else if s in t.slots {
      assert SameClocks(s, s);
    } else {
      var j :| 0 <= j < |u.slots| && u.slots[j] == s;
      if j < |t.slots| {
        assert t.slots[j] in t.slots;
      }
    }
  }

  lemma {:induction false} MemoryNotAfter(t: Table, ops: seq<Op>, k: Key, now: u64)
    requires ClockNotAfter(ops, now)
    ensures LastTraffic(t, ops, k).Some? ==> LastTraffic(t, ops, k).value <= now
  {
    if ops != [] {
      assert forall op :: op in ops[..|ops| - 1] ==> op in ops;
      MemoryNotAfter(t, ops[..|ops| - 1], k, now);
      assert ops[|ops| - 1] in ops;
    }
  }

  // Two slots of a table with the same key are the same slot.
  lemma SameKeySameSlot(t: Table, a: Slot, b: Slot)
    requires DistinctKeys(t.slots) && a in t.slots && b in t.slots
    requires a.lease.Granted? && a.PcpKey() == b.PcpKey()
    ensures a == b
  {
    var i :| 0 <= i < |t.slots| && t.slots[i] == a;
    var j :| 0 <= j < |t.slots| && t.slots[j] == b;
  }

  // A table that holds an upsert's key afterwards admitted it, and that slot is the upserted one.
  lemma UpsertLands(t: Table, op: Op, s: Slot)
    requires TableInv(t) && op.DoUpsert? && s in Do(t, op).slots && s.PcpKey() == Some(op.k)
    ensures Admitted(Upsert(t, op.k, op.lifetime, op.now, op.target, op.targetPort).1)
    ensures UpsertedBy(op, s)
  {
    var u := Do(t, op);
    UpsertPort(t, op.k, op.lifetime, op.now, op.target, op.targetPort);
    UpsertKeeps(t, op.k, op.lifetime, op.now, op.target, op.targetPort);
    var i := FirstIndex(t.slots, HasKey(op.k));
    assert u.slots[i] in u.slots;
    SameKeySameSlot(u, s, u.slots[i]);
  }

  lemma StepStaysInStep(t: Table, ops: seq<Op>, op: Op, s: Slot)
    requires Steady(ops + [op]) && s in Do(RunOps(t, ops), op).slots
    requires TableInv(RunOps(t, ops)) && TableInv(Do(RunOps(t, ops), op))
    requires forall o :: o in RunOps(t, ops).slots ==> InStep(t, ops, o)
    ensures InStep(t, ops + [op], s)
  {
    var all := ops + [op];
    assert all[..|all| - 1] == ops;
    var before := RunOps(t, ops);
    if s.lease.Granted? {
      var k := s.PcpKey().value;
      if Time(op).Some? {
        MemoryNotAfter(t, ops, k, Time(op).value);
      }
      ClockOrigin(before, op, s);
      if op.DoUpsert? && op.k == k {
        UpsertLands(before, op, s);
      } else {
        var o :| o in before.slots && (SameClocks(s, o) || StampedBy(op, s, o));
        assert InStep(t, ops, o);
        if op.DoStamp? && OnPort(before, op.port).Some? && OnPort(before, op.port).value.PcpKey() == Some(k) {
          StampLands(before, op, s);
        }
      }
    }
  }

  // The slot a stamp was aimed at was either stamped or stamped recently enough.
  lemma StampLands(t: Table, op: Op, s: Slot)
    requires TableInv(t) && TableInv(Do(t, op)) && op.DoStamp? && s in Do(t, op).slots && s.lease.Granted?
    requires OnPort(t, op.port).Some? && OnPort(t, op.port).value.PcpKey() == s.PcpKey()
    ensures s.lastActivity == op.now || op.now < s.lastActivity + op.minInterval
  {
    var i := FirstIndex(t.slots, HasPort(op.port));
    var u := Do(t, op);
    assert u.slots[i] in u.slots;
    SameKeySameSlot(u, s, u.slots[i]);
  }

  lemma {:induction false} RunStaysInStep(t: Table, ops: seq<Op>)
    requires TableInv(t) && AdmissibleRun(t, ops) && Steady(ops)
    ensures forall s :: s in RunOps(t, ops).slots ==> InStep(t, ops, s)
  {
    if ops != [] {
      var front, op := ops[..|ops| - 1], ops[|ops| - 1];
      RunStaysInStep(t, front);
      EveryRunKeepsTheTable(t, front);
      EveryRunKeepsTheTable(t, ops);
      assert ops == front + [op];
      forall s | s in RunOps(t, ops).slots ensures InStep(t, ops, s) {
        StepStaysInStep(t, front, op, s);
      }
    }
  }

  // In a run from a table without grants every grant is remembered.
  lemma {:induction false} GrantsAreRemembered(t: Table, ops: seq<Op>)
    requires TableInv(t) && AdmissibleRun(t, ops)
    requires forall s :: s in t.slots ==> s.lease.Static?
    ensures forall s :: s in RunOps(t, ops).slots && s.lease.Granted? ==> LastUpsert(t, ops, s.PcpKey().value).Some?
  {
    if ops != [] {
      var front, op := ops[..|ops| - 1], ops[|ops| - 1];
      GrantsAreRemembered(t, front);
      EveryRunKeepsTheTable(t, front);
      EveryRunKeepsTheTable(t, ops);
      forall s | s in RunOps(t, ops).slots && s.lease.Granted?
        ensures LastUpsert(t, ops, s.PcpKey().value).Some? {
        ClockOrigin(RunOps(t, front), op, s);
        if op.DoUpsert? && s.PcpKey() == Some(op.k) {
          UpsertLands(RunOps(t, front), op, s);
        }
      }
    }
  }

  // ---- the bounds ----

  // The expiry scan frees a grant only once its last request, its lifetime and the grace are all past.
  lemma GcWaitsOutTheLease(t: Table, ops: seq<Op>, now: u64, grace: u64, s: Slot)
    requires TableInv(t) && AdmissibleRun(t, ops) && Steady(ops)
    requires s in RunOps(t, ops).slots && !SurvivesGc(now, grace)(s)
    ensures s.lease.Granted?
    ensures LastUpsert(t, ops, s.PcpKey().value).Some? ==>
              var (at, lifetime) := LastUpsert(t, ops, s.PcpKey().value).value;
              now > at + lifetime + grace
    ensures LastTraffic(t, ops, s.PcpKey().value).Some? ==>
              now - LastTraffic(t, ops, s.PcpKey().value).value > grace - STAMP_MIN
  {
    RunStaysInStep(t, ops);
    assert InStep(t, ops, s);
  }

  // The backstop sweep never frees a grant that peer traffic reached within the backstop less the stamp limit.
  lemma GcIdleSparesTraffic(t: Table, ops: seq<Op>, now: u64, backstop: u64, s: Slot)
    requires TableInv(t) && AdmissibleRun(t, ops) && Steady(ops)
    requires s in RunOps(t, ops).slots && !SurvivesIdle(now, backstop)(s)
    ensures s.lease.Granted? && s.proto.Udp?
    ensures LastTraffic(t, ops, s.PcpKey().value).Some? ==>
              now - LastTraffic(t, ops, s.PcpKey().value).value > backstop - STAMP_MIN
  {
    RunStaysInStep(t, ops);
    assert InStep(t, ops, s);
  }

  // ---- what goes, exactly ----

  // The expiry scan keeps a static, a lease that has not run out or only within the grace, and one seen within it.
  lemma GcExactly(t: Table, now: u64, grace: u64, s: Slot)
    ensures s in Keep(t, SurvivesGc(now, grace)).slots <==>
            s in t.slots
            && (s.lease.Static? || now <= s.lease.expires + grace || now <= s.lastActivity + grace)
  {}

  // The backstop sweep keeps a static, a TCP grant, and a UDP grant seen within the backstop.
  lemma GcIdleExactly(t: Table, now: u64, backstop: u64, s: Slot)
    ensures s in Keep(t, SurvivesIdle(now, backstop)).slots <==>
            s in t.slots && (s.lease.Static? || s.proto.Tcp? || now <= s.lastActivity + backstop)
  {}

  // When the mapping was last seen: its last admitted request, or the last stamp aimed at its port.
  ghost function LastSeen(t: Table, ops: seq<Op>, k: Key): Option<u64> {
    if ops == [] then None
    else
      var front, op := ops[..|ops| - 1], ops[|ops| - 1];
      if op.DoUpsert? && op.k == k
         && Admitted(Upsert(RunOps(t, front), k, op.lifetime, op.now, op.target, op.targetPort).1)
      then Some(op.now)
      else if op.DoStamp? && OnPort(RunOps(t, front), op.port).Some?
              && OnPort(RunOps(t, front), op.port).value.PcpKey() == Some(k)
      then Some(op.now)
      else LastSeen(t, front, k)
  }

  lemma {:induction false} SeenNotAfter(t: Table, ops: seq<Op>, k: Key, now: u64)
    requires ClockNotAfter(ops, now)
    ensures LastSeen(t, ops, k).Some? ==> LastSeen(t, ops, k).value <= now
  {
    if ops != [] {
      hide Upsert, OnPort, RunOps;
      assert forall op :: op in ops[..|ops| - 1] ==> op in ops;
      SeenNotAfter(t, ops[..|ops| - 1], k, now);
      assert ops[|ops| - 1] in ops;
    }
  }

  // A remembered grant's clock is not ahead of that.
  ghost predicate SeenInStep(t: Table, ops: seq<Op>, s: Slot) {
    s.lease.Granted? && LastUpsert(t, ops, s.PcpKey().value).Some? ==>
      LastSeen(t, ops, s.PcpKey().value).Some? && s.lastActivity <= LastSeen(t, ops, s.PcpKey().value).value
  }

  lemma StepStaysSeen(t: Table, ops: seq<Op>, op: Op, s: Slot)
    requires Steady(ops + [op]) && s in Do(RunOps(t, ops), op).slots
    requires TableInv(RunOps(t, ops)) && TableInv(Do(RunOps(t, ops), op))
    requires forall o :: o in RunOps(t, ops).slots ==> SeenInStep(t, ops, o)
    ensures SeenInStep(t, ops + [op], s)
  {
    var all := ops + [op];
    assert all[..|all| - 1] == ops;
    var before := RunOps(t, ops);
    if s.lease.Granted? {
      var k := s.PcpKey().value;
      if Time(op).Some? {
        SeenNotAfter(t, ops, k, Time(op).value);
      }
      ClockOrigin(before, op, s);
      if op.DoUpsert? && op.k == k {
        UpsertLands(before, op, s);
      } else {
        var o :| o in before.slots && (SameClocks(s, o) || StampedBy(op, s, o));
        assert SeenInStep(t, ops, o);
        if StampedBy(op, s, o) && !SameClocks(s, o) {
          StampedOnPort(before, op, o);
        }
      }
    }
  }

  lemma StampedOnPort(t: Table, op: Op, o: Slot)
    requires TableInv(t) && op.DoStamp? && o in t.slots && o.bindPort == op.port
    ensures OnPort(t, op.port) == Some(o)
  {
    FoundByPort(t.slots, o);
  }

  lemma {:induction false} RunStaysSeen(t: Table, ops: seq<Op>)
    requires TableInv(t) && AdmissibleRun(t, ops) && Steady(ops)
    ensures forall s :: s in RunOps(t, ops).slots ==> SeenInStep(t, ops, s)
  {
    if ops != [] {
      var front, op := ops[..|ops| - 1], ops[|ops| - 1];
      assert ops == front + [op] && RunOps(t, ops) == Do(RunOps(t, front), op);
      hide SeenInStep, TableInv, Do, RunOps, Admissible, Upsert, LastSeen;
      RunStaysSeen(t, front);
      EveryRunKeepsTheTable(t, front);
      EveryRunKeepsTheTable(t, ops);
      forall s | s in RunOps(t, ops).slots ensures SeenInStep(t, ops, s) {
        StepStaysSeen(t, front, op, s);
      }
    }
  }

  // A grant whose last request, lifetime and grace are past, and that was last seen before the grace, is taken.
  lemma GcTakesTheForgotten(t: Table, ops: seq<Op>, now: u64, grace: u64, s: Slot)
    requires TableInv(t) && AdmissibleRun(t, ops) && Steady(ops)
    requires s in RunOps(t, ops).slots && s.lease.Granted? && LastUpsert(t, ops, s.PcpKey().value).Some?
    requires var (at, lifetime) := LastUpsert(t, ops, s.PcpKey().value).value; at + lifetime + grace < now
    requires var seen := LastSeen(t, ops, s.PcpKey().value); seen.Some? ==> seen.value + grace < now
    ensures s !in Keep(RunOps(t, ops), SurvivesGc(now, grace)).slots
  {
    RunStaysInStep(t, ops);
    RunStaysSeen(t, ops);
    assert InStep(t, ops, s) && SeenInStep(t, ops, s);
    GcExactly(RunOps(t, ops), now, grace, s);
  }

  // A UDP grant not seen within the backstop is taken by the sweep.
  lemma GcIdleTakesTheSilent(t: Table, ops: seq<Op>, now: u64, backstop: u64, s: Slot)
    requires TableInv(t) && AdmissibleRun(t, ops) && Steady(ops)
    requires s in RunOps(t, ops).slots && s.lease.Granted? && s.proto.Udp?
    requires LastUpsert(t, ops, s.PcpKey().value).Some?
    requires var seen := LastSeen(t, ops, s.PcpKey().value); seen.Some? ==> seen.value + backstop < now
    ensures s !in Keep(RunOps(t, ops), SurvivesIdle(now, backstop)).slots
  {
    RunStaysSeen(t, ops);
    assert SeenInStep(t, ops, s);
    GcIdleExactly(RunOps(t, ops), now, backstop, s);
  }
}
