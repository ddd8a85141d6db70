// What the two collectors take from table and index, exactly, and after which silence a mapping is gone.
module Collecting {
  import opened Net
  import opened Seqs
  import opened LeaseTables
  import opened TableLaws
  import opened TableClock
  import opened Facade
  import opened Agreement
  import opened FacadeRuns

  // Kept by the expiry pass: statics, leases no more than the grace past their end, and slots seen within it.
  predicate Spared(s: Slot, now: u64, grace: u64) {
    s.lease.Static? || now <= s.lease.expires + grace || now <= s.lastActivity + grace
  }

  // Kept by the backstop pass: all but UDP grants not seen for a week.
  predicate SparedIdle(s: Slot, now: u64) {
    s.lease.Static? || s.proto.Tcp? || now <= s.lastActivity + 604_800
  }

  // A pass takes a slot and every entry bound to its port together.
  lemma CollectByPort(st: State, survives: Slot -> bool, s: Slot, e: Entry)
    requires DistinctPorts(st.table.slots)
    ensures s in Collect(st, survives).table.slots <==> s in st.table.slots && survives(s)
    ensures e in Collect(st, survives).entries <==>
            e in st.entries && forall o :: o in st.table.slots && o.bindPort == e.bindPort ==> survives(o)
  {
    var slots := st.table.slots;
    var gone := Filter(slots, Not(survives));
    forall o | o in slots && o.bindPort == e.bindPort
      ensures survives(o) <==> e.bindPort !in Ports(gone) {
      SurvivesByPort(slots, survives, o);
    }
    if e.bindPort in Ports(gone) {
      var k :| 0 <= k < |gone| && Ports(gone)[k] == e.bindPort;
      assert gone[k] in gone && gone[k] in slots;
    }
  }

  // What an expiry pass leaves of table and index.
  lemma ExpiryPassExactly(st: State, now: u64, grace: u64, s: Slot, e: Entry)
    requires DistinctPorts(st.table.slots)
    ensures var u := Take(st, DoCollectExpired(now, grace));
            (s in u.table.slots <==> s in st.table.slots && Spared(s, now, grace))
            && (e in u.entries <==>
                e in st.entries
                && forall o :: o in st.table.slots && o.bindPort == e.bindPort ==> Spared(o, now, grace))
  {
    CollectByPort(st, SurvivesGc(now, grace), s, e);
    assert forall o: Slot :: SurvivesGc(now, grace)(o) <==> Spared(o, now, grace);
    hide DistinctPorts, Collect;
  }

  // And a backstop pass.
  lemma BackstopPassExactly(st: State, now: u64, s: Slot, e: Entry)
    requires DistinctPorts(st.table.slots)
    ensures var u := Take(st, DoCollectIdle(now));
            (s in u.table.slots <==> s in st.table.slots && SparedIdle(s, now))
            && (e in u.entries <==>
                e in st.entries && forall o :: o in st.table.slots && o.bindPort == e.bindPort ==> SparedIdle(o, now))
  {
    CollectByPort(st, SurvivesIdle(now, LEASE_BACKSTOP), s, e);
    assert forall o: Slot :: SurvivesIdle(now, LEASE_BACKSTOP)(o) <==> SparedIdle(o, now);
    hide DistinctPorts, Collect;
  }

  // After every clocked run of table operations: a grant whose last admitted request was at `at`, with its lifetime and
  // the grace past, and not seen since before the grace, is in neither table nor index after an expiry pass.
  lemma ForgottenGrantGoes(st: State, t: Table, ops: seq<Op>, now: u64, grace: u64, s: Slot)
    requires TableInv(t) && AdmissibleRun(t, ops) && Steady(ops) && st.table == RunOps(t, ops)
    requires s in st.table.slots && s.lease.Granted? && LastUpsert(t, ops, s.PcpKey().value).Some?
    requires var (at, lifetime) := LastUpsert(t, ops, s.PcpKey().value).value; at + lifetime + grace < now
    requires var seen := LastSeen(t, ops, s.PcpKey().value); seen.Some? ==> seen.value + grace < now
    ensures var u := Take(st, DoCollectExpired(now, grace));
            s !in u.table.slots && s.bindPort !in BindsOf(u.entries)
  {
    RunKeepsPorts(t, ops);
    GcTakesTheForgotten(t, ops, now, grace, s);
    NotKept(st.table, SurvivesGc(now, grace), s);
    hide *;
    GoneFromBoth(st, SurvivesGc(now, grace), s);
    TakesExpired(st, now, grace);
  }

  lemma TakesExpired(st: State, now: u64, grace: u64)
    ensures Take(st, DoCollectExpired(now, grace)) == Collect(st, SurvivesGc(now, grace))
    ensures Take(st, DoCollectIdle(now)) == Collect(st, SurvivesIdle(now, LEASE_BACKSTOP))
  {
    hide Collect, SurvivesGc, SurvivesIdle;
  }

  lemma NotKept(t: Table, survives: Slot -> bool, s: Slot)
    requires s in t.slots && s !in Keep(t, survives).slots
    ensures !survives(s)
  {}

  lemma RunKeepsPorts(t: Table, ops: seq<Op>)
    requires TableInv(t) && AdmissibleRun(t, ops)
    ensures DistinctPorts(RunOps(t, ops).slots)
  {
    hide RunOps;
    EveryRunKeepsTheTable(t, ops);
  }

  lemma GoneFromBoth(st: State, survives: Slot -> bool, s: Slot)
    requires DistinctPorts(st.table.slots) && s in st.table.slots && !survives(s)
    ensures s !in Collect(st, survives).table.slots && s.bindPort !in BindsOf(Collect(st, survives).entries)
  {
    hide Collect;
    forall e | e in Collect(st, survives).entries ensures e.bindPort != s.bindPort {
      CollectByPort(st, survives, s, e);
    }
    CollectByPort(st, survives, s, Entry(0, Udp, UNSPECIFIED, UNSPECIFIED, 0, 0, 0, 0, ""));
  }

  // And a UDP grant not seen for a week is in neither after a backstop pass.
  lemma SilentGrantGoes(st: State, t: Table, ops: seq<Op>, now: u64, s: Slot)
    requires TableInv(t) && AdmissibleRun(t, ops) && Steady(ops) && st.table == RunOps(t, ops)
    requires s in st.table.slots && s.lease.Granted? && s.proto.Udp? && LastUpsert(t, ops, s.PcpKey().value).Some?
    requires var seen := LastSeen(t, ops, s.PcpKey().value); seen.Some? ==> seen.value + 604_800 < now
    ensures var u := Take(st, DoCollectIdle(now));
            s !in u.table.slots && s.bindPort !in BindsOf(u.entries)
  {
    RunKeepsPorts(t, ops);
    GcIdleTakesTheSilent(t, ops, now, LEASE_BACKSTOP, s);
    NotKept(st.table, SurvivesIdle(now, LEASE_BACKSTOP), s);
    hide *;
    GoneFromBoth(st, SurvivesIdle(now, LEASE_BACKSTOP), s);
    TakesExpired(st, now, 0);
  }
}
