// Containment over whole runs: callers that map for themselves never reach another's mapping, whatever they delete.
module BackedRuns {
  import opened Net
  import opened Seqs
  import opened LeaseTables
  import opened TableLaws
  import opened Facade
  import opened Agreement
  import opened FacadeLaws
  import opened FacadeRuns
  import opened SelfMappedRuns
  import opened Containment

  // ---- grants ----

  function AskedRow(req: MappingReq, bindPort: u16): Row { Row(bindPort, req.proto, req.client, req.intPort, 0, 0) }

  // On one port there is one row.
  lemma RowOnPort(t: Table, s: Slot, row: Row)
    requires TableInv(t) && s in t.slots && s.lease.Granted?
    requires row in GrantRows(t.slots, false) && row.bindPort == s.bindPort
    ensures row == SlotRow(s, false)
  {
    var o :| o in t.slots && o.lease.Granted? && SlotRow(o, false) == row;
    FoundByPort(t.slots, o);
    FoundByPort(t.slots, s);
  }

  // An admitted upsert keeps every identity and has the one asked for; no entry of another mapping is on its port.
  lemma UpsertKeepsRows(t: Table, req: MappingReq, now: u64)
    requires TableInv(t) && Admitted(UpsertFor(t, req, now).1)
    ensures var (u, o) := UpsertFor(t, req, now);
            TableInv(u) && GrantRows(t.slots, false) <= GrantRows(u.slots, false)
            && AskedRow(req, o.bindPort) in GrantRows(u.slots, false)
            && forall r :: r in GrantRows(t.slots, false) && r.bindPort == o.bindPort ==> r == AskedRow(req, o.bindPort)
  {
    var (u, o) := UpsertFor(t, req, now);
    if o.GrantedAt? {
      FreshRows(t, req, now, false);
      hide Upsert, TableInv;
      assert forall r :: r in GrantRows(t.slots, false) ==> r.bindPort in Held(t.slots);
    } else {
      RefreshedRows(t, req, now, false);
      hide Upsert, TableInv;
      var s :| s in t.slots && s.PcpKey() == Some(KeyOf(req)) && s.bindPort == o.bindPort;
      assert SlotRow(s, false) == AskedRow(req, o.bindPort);
      forall r | r in GrantRows(t.slots, false) && r.bindPort == o.bindPort ensures r == AskedRow(req, o.bindPort) {
        RowOnPort(t, s, r);
      }
    }
  }

  // Without an entry at the internal port of its own, the caller's port is in no entry.
  lemma PortIsUnbound(st: State, req: MappingReq, bindPort: u16)
    requires Backed(st) && !Exists(st.entries, IsInternal(req.proto, req.client, req.intPort))
    requires forall r :: r in GrantRows(st.table.slots, false) && r.bindPort == bindPort ==>
               r == AskedRow(req, bindPort)
    ensures bindPort !in BindsOf(st.entries)
  {
    hide TableInv, GrantRows;
    forall e | e in st.entries ensures e.bindPort != bindPort {
      assert EntryRow(e, false) in EntryRows(st.entries, false);
      var k :| 0 <= k < |st.entries| && st.entries[k] == e;
      assert !IsInternal(req.proto, req.client, req.intPort)(st.entries[k]);
    }
  }

  lemma RecordKeepsBacked(st: State, req: MappingReq, bindPort: u16, now: u64)
    requires Backed(st) && AskedRow(req, bindPort) in GrantRows(st.table.slots, false)
    requires Exists(st.entries, IsInternal(req.proto, req.client, req.intPort)) || bindPort !in BindsOf(st.entries)
    ensures Backed(Recorded(st, req, req.client, bindPort, now))
  {
    hide DeletePort, InsertSorted, InsertAt, RemoveAt, TableInv, GrantRows;
    var es := st.entries;
    var i := FirstIndex(es, IsInternal(req.proto, req.client, req.intPort));
    var j := FirstIndex(es, IsHandle(req.ext, req.proto, req.client));
    var e := EntryFor(req, req.client, bindPort, now);
    if i < |es| {
      var moved := Relabelled(es[i], req, now);
      assert es[i] in es && EntryRow(moved, false) == EntryRow(es[i], false);
      RelabelledRows(es, i, moved, false);
      SortedOwners(es, i, moved);
    } else if req.ext != 0 && j < |es| {
      assert es[j].bindPort in BindsOf(es);
      RowsAfterRewrite(es, j, e, false);
      TablePorts(st);
      RowsAfterDelete(st.table, es[j].bindPort, false);
      DeleteKeeps(st.table, es[j].bindPort);
    } else {
      SortedRows(es, e);
    }
  }

  lemma TablePorts(st: State)
    requires Backed(st)
    ensures DistinctPorts(st.table.slots)
  {}

  lemma SortedOwners(es: seq<Entry>, i: nat, e: Entry)
    requires OwnersMap(es) && i < |es| && e.owner == e.client
    ensures OwnersMap(InsertSorted(RemoveAt(es, i), e))
  {
    var rest := RemoveAt(es, i);
    RemovedMembers(es, i);
    InsertMembers(rest, FirstIndex(rest, (x: Entry) => Before(e, x)), e);
  }

  lemma SortedRows(es: seq<Entry>, e: Entry)
    requires DistinctBinds(es) && OwnersMap(es) && e.owner == e.client && e.bindPort !in BindsOf(es)
    ensures var u := InsertSorted(es, e);
            DistinctBinds(u) && OwnersMap(u) && EntryRows(u, false) == EntryRows(es, false) + {EntryRow(e, false)}
  {
    var at := FirstIndex(es, (x: Entry) => Before(e, x));
    RowsAfterInsert(es, at, e, false);
    DistinctAfterInsert(es, at, e);
    InsertMembers(es, at, e);
  }

  lemma AdmitKeepsBacked(st: State, req: MappingReq, env: GrantEnv)
    requires Backed(st)
    ensures Backed(Admit(st, req, req.client, env).0)
  {
    var (t, o) := UpsertFor(st.table, req, env.now);
    hide Upsert, DeletePort, Recorded, GrantRows, EntryRows, TableInv;
    if !Admitted(o) {
      RefusalChangesNothing(st.table, KeyOf(req), req.lifetime, env.now, req.client, req.intPort);
    } else if o.GrantedAt? && !env.datapathUp {
      RollbackUndoes(st.table, req, env.now);
    } else {
      UpsertKeepsRows(st.table, req, env.now);
      if !Exists(st.entries, IsInternal(req.proto, req.client, req.intPort)) {
        PortIsUnbound(st, req, o.bindPort);
      }
      RecordKeepsBacked(st.(table := t), req, o.bindPort, env.now);
    }
  }

  lemma GrantKeepsBacked(st: State, req: MappingReq, view: Option<Contain>, env: GrantEnv)
    requires Backed(st)
    ensures Backed(Grant(st, req, req.client, view, env).0)
  {
    hide Admit, Relieved, Steered, Backed;
    var leased := Leased(req);
    ReliefKeepsBacked(st, leased, req.client, env);
    AdmitKeepsBacked(Relieved(Steered(st, leased, req.client, env), leased, env), leased, env);
  }

  // ---- the other steps ----

  lemma {:induction false} DeleteAllKeepsBacked(st: State, targets: seq<Entry>, view: Option<Contain>)
    requires Backed(st)
    ensures Backed(DeleteAll(st, targets, view))
  {
    hide Backed, Delete;
    if targets != [] {
      var front, e := targets[..|targets| - 1], targets[|targets| - 1];
      DeleteAllKeepsBacked(st, front, view);
      DeleteKeepsBacked(DeleteAll(st, front, view), e.reqExt, e.proto, e.owner, view);
    }
  }

  lemma CollectKeepsBacked(st: State, survives: Slot -> bool)
    requires Backed(st)
    ensures Backed(Collect(st, survives))
  {
    var slots := st.table.slots;
    var freed := Ports(Filter(slots, Not(survives)));
    KeepKeeps(st.table, survives);
    TablePorts(st);
    hide TableInv;
    var u := Collect(st, survives);
    FilterKeepsPairs(st.entries, BoundOutside(freed), (a: Entry, b: Entry) => a.bindPort != b.bindPort);
    forall e | e in u.entries ensures EntryRow(e, false) in GrantRows(u.table.slots, false) {
      assert EntryRow(e, false) in EntryRows(st.entries, false);
      var s :| s in slots && s.lease.Granted? && SlotRow(s, false) == EntryRow(e, false);
      SurvivesByPort(slots, survives, s);
      assert s in u.table.slots;
    }
  }

  lemma StampKeepsRows(t: Table, port: u16, now: u64, minInterval: u64)
    requires TableInv(t)
    ensures TableInv(Stamp(t, port, now, minInterval))
    ensures GrantRows(t.slots, false) <= GrantRows(Stamp(t, port, now, minInterval).slots, false)
  {
    StampKeeps(t, port, now, minInterval);
    hide TableInv;
    var i := FirstIndex(t.slots, HasPort(port));
    var u := Stamp(t, port, now, minInterval);
    forall r | r in GrantRows(t.slots, false) ensures r in GrantRows(u.slots, false) {
      var o :| o in t.slots && o.lease.Granted? && SlotRow(o, false) == r;
      var k :| 0 <= k < |t.slots| && t.slots[k] == o;
      assert u.slots[k] in u.slots && SlotRow(u.slots[k], false) == r;
    }
  }

  lemma {:induction false} StampPortsKeepsRows(t: Table, es: seq<Entry>, client: Ipv4, now: u64)
    requires TableInv(t)
    ensures TableInv(StampPorts(t, es, client, now))
    ensures GrantRows(t.slots, false) <= GrantRows(StampPorts(t, es, client, now).slots, false)
  {
    if es != [] {
      hide Stamp, TableInv, GrantRows;
      StampPortsKeepsRows(t, es[..|es| - 1], client, now);
      StampKeepsRows(StampPorts(t, es[..|es| - 1], client, now), es[|es| - 1].bindPort, now, 0);
    }
  }

  lemma MovedPortIsFree(t: Table, port: u16)
    ensures MovePort(t, port).1.Some? ==> MovePort(t, port).1.value !in Held(t.slots)
  {}

  lemma YieldKeepsBacked(st: State, port: u16, datapathUp: bool)
    requires Backed(st)
    ensures Backed(Yield(st, port, datapathUp))
  {
    var i := FirstIndex(st.entries, BoundTo(port));
    if i < |st.entries| {
      var (t, moved) := MovePort(st.table, port);
      MoveKeeps(st.table, port);
      MovedPortIsFree(st.table, port);
      hide FreePort, TableInv, GrantRows, EntryRows;
      if moved.Some? && datapathUp {
        BothMove(st, i, moved.value);
      } else if moved.Some? {
        FailedYieldOnlyReserves(st.table, port);
      }
    }
  }

  // The entry and its slot move to a port no slot holds.
  lemma BothMove(st: State, i: nat, port: u16)
    requires Backed(st) && i < |st.entries| && port !in Held(st.table.slots)
    ensures var es, slots := st.entries, st.table.slots;
            var k := FirstIndex(slots, HasPort(es[i].bindPort));
            var moved := es[i := es[i].(bindPort := port)];
            k < |slots| && DistinctBinds(moved) && OwnersMap(moved)
            && EntryRows(moved, false) <= GrantRows(slots[k := slots[k].(bindPort := port)], false)
  {
    var es, slots := st.entries, st.table.slots;
    var k := FirstIndex(slots, HasPort(es[i].bindPort));
    assert es[i] in es;
    BoundSlot(st, es[i], k);
    BindsAreHeld(st);
    TablePorts(st);
    hide TableInv;
    RowsAfterUpdate(slots, k, slots[k].(bindPort := port), false);
    RowsAfterRewrite(es, i, es[i].(bindPort := port), false);
  }

  // The slot on an entry's port, where a lookup finds it.
  lemma BoundSlot(st: State, e: Entry, k: nat)
    requires Backed(st) && e in st.entries && k == FirstIndex(st.table.slots, HasPort(e.bindPort))
    ensures k < |st.table.slots| && st.table.slots[k].lease.Granted?
    ensures SlotRow(st.table.slots[k], false) == EntryRow(e, false)
  {
    assert EntryRow(e, false) in EntryRows(st.entries, false);
    var s :| s in st.table.slots && s.lease.Granted? && SlotRow(s, false) == EntryRow(e, false);
    FoundByPort(st.table.slots, s);
  }

  lemma BindsAreHeld(st: State)
    requires Backed(st)
    ensures BindsOf(st.entries) <= Held(st.table.slots)
  {
    hide TableInv;
    forall e | e in st.entries ensures e.bindPort in Held(st.table.slots) {
      assert EntryRow(e, false) in EntryRows(st.entries, false);
    }
  }

  // ---- runs ----

  lemma StepKeepsBacked(st: State, step: Step)
    requires Backed(st) && SelfMapping(step)
    ensures Backed(Take(st, step))
  {
    hide Grant, Delete, DeleteAll, Yield, Collect, StampPorts, Stamp, PreferredLabel, TableInv, GrantRows, EntryRows;
    match step
    case DoGrant(req, owner, view, env) => GrantKeepsBacked(st, req, view, env);
    case DoGrantPreferred(req, owner, view, env) =>
      GrantKeepsBacked(st, req.(ext := PreferredLabel(st.entries, req.ext, req.proto)), None, env);
    case DoDelete(ext, proto, caller, view) => DeleteKeepsBacked(st, ext, proto, caller, view);
    case DoDeleteRange(start, end, proto, view) =>
      DeleteAllKeepsBacked(st, Filter(st.entries, InRange(start, end, proto, view)), view);
    case DoReserve(live) => ReserveKeepsTable(st.table, live);
    case DoYield(port, datapathUp) => YieldKeepsBacked(st, port, datapathUp);
    case DoCollectExpired(now, grace) => CollectKeepsBacked(st, SurvivesGc(now, grace));
    case DoCollectIdle(now) => CollectKeepsBacked(st, SurvivesIdle(now, LEASE_BACKSTOP));
    case DoStampClient(client, now) => StampPortsKeepsRows(st.table, st.entries, client, now);
    case DoStampTraffic(port, now, minInterval) => StampKeepsRows(st.table, port, now, minInterval);
  }

  lemma ReserveKeepsTable(t: Table, live: seq<u16>)
    requires TableInv(t)
    ensures TableInv(AvoidPorts(t, live)) && AvoidPorts(t, live).slots == t.slots
  {}

  // Over every run in which callers map for themselves, whatever labels they use and delete, each entry's slot
  // stays its owner's.
  lemma {:induction false} EverySelfMappingRunStaysBacked(st: State, steps: seq<Step>)
    requires Backed(st) && forall step :: step in steps ==> SelfMapping(step)
    ensures Backed(Run(st, steps))
  {
    if steps != [] {
      hide Backed, Take, SelfMapping;
      var front, step := steps[..|steps| - 1], steps[|steps| - 1];
      assert forall s :: s in front ==> s in steps;
      EverySelfMappingRunStaysBacked(st, front);
      assert step in steps;
      StepKeepsBacked(Run(st, front), step);
    }
  }

  // A request of a contained caller.
  predicate ContainedStep(step: Step, c: Contain) {
    match step
    case DoGrant(_, owner, view, _) => owner == c.caller && view == Some(c)
    case DoGrantPreferred(_, owner, view, _) => owner == c.caller && view == Some(c)
    case DoDelete(_, _, caller, view) => caller == c.caller && view == Some(c)
    case DoDeleteRange(_, _, _, view) => view == Some(c)
    case _ => false
  }

  // The clock by which a grant may evict.
  function EvictClock(step: Step): Option<u64> {
    match step
    case DoGrant(_, _, _, env) => Some(env.evictNow)
    case DoGrantPreferred(_, _, _, env) => Some(env.evictNow)
    case _ => None
  }

  // After any such run, a contained caller's request touches nothing of the others, but for the one slot that
  // pressure takes: a UDP grant of another client, silent longer than the grace, and no such grant for longer.
  lemma ContainedAfterAnyRun(st: State, steps: seq<Step>, step: Step, c: Contain)
    requires Backed(st) && forall s :: s in steps ==> SelfMapping(s)
    requires ContainedStep(step, c)
    ensures var u := Run(st, steps);
            SparesOthers(u, Take(u, step), c.caller)
            || exists v :: v in u.table.slots && SparesOthersBut(u, Take(u, step), c.caller, v)
                 && EvictClock(step).Some?
                 && Evictable(v, EvictClock(step).value, LEASE_GRACE, c.caller)
                 && LongestIdle(u.table.slots, v, EvictClock(step).value, LEASE_GRACE, c.caller)
  {
    EverySelfMappingRunStaysBacked(st, steps);
    hide Backed, Run, Grant, GrantPreferred, Delete, DeleteRange, LongestIdle, OtherEntries, OtherSlots, SelfMapping;
    var u := Run(st, steps);
    match step
    case DoGrant(req, owner, view, env) => ContainedGrantSparesOthers(u, req, c, env);
    case DoGrantPreferred(req, owner, view, env) => ContainedPreferredSparesOthers(u, req, c, env);
    case DoDelete(ext, proto, caller, view) => DeleteSpares(u, ext, proto, caller, view);
    case DoDeleteRange(start, end, proto, view) => ContainedRangeSparesOthers(u, start, end, proto, c);
  }
}
