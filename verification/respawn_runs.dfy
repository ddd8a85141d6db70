// Every table that runs of the facade reach can be restored, whoever maps for whom under what label.
module RespawnRuns {
  import opened Net
  import opened Seqs
  import opened LeaseTables
  import opened TableLaws
  import opened Facade
  import opened Agreement
  import opened FacadeRuns
  import opened Containment
  import opened Respawn

  // ---- plain grants ----

  lemma UpsertKeepsPlain(t: Table, req: MappingReq, at: u64, now: u64)
    requires AllPlain(t.slots, now) && at <= now && req.lifetime >= 1
    ensures AllPlain(UpsertFor(t, req, at).0.slots, now)
  {
    var i := FirstIndex(t.slots, HasKey(KeyOf(req)));
    var u := UpsertFor(t, req, at).0;
    if i < |t.slots| {
      assert t.slots[i] in t.slots;
      assert forall s :: s in u.slots ==> s in t.slots || s == u.slots[i];
    }
  }

  lemma DeleteKeepsPlain(t: Table, port: u16, now: u64)
    requires AllPlain(t.slots, now)
    ensures AllPlain(DeletePort(t, port).slots, now)
  {
    forall s | s in DeletePort(t, port).slots ensures s in t.slots {
      assert s in multiset(DeletePort(t, port).slots) && s in multiset(t.slots);
    }
  }

  // A slot rewritten without touching its lease or target stays plain.
  lemma RewriteKeepsPlain(slots: seq<Slot>, i: nat, s: Slot, now: u64)
    requires AllPlain(slots, now) && i < |slots|
    requires s.lease == slots[i].lease && s.target == slots[i].target && s.targetPort == slots[i].targetPort
    ensures AllPlain(slots[i := s], now)
  {
    assert slots[i] in slots;
    assert forall x :: x in slots[i := s] ==> x in slots || x == s;
  }

  // ---- the statics ----

  lemma UpsertKeepsStatics(t: Table, req: MappingReq, at: u64)
    ensures StaticsOf(UpsertFor(t, req, at).0.slots) == StaticsOf(t.slots)
  {
    hide Upsert;
    UpsertSparesOthers(t, req, at);
    OtherSlotsHoldStatics(UpsertFor(t, req, at).0.slots, req.client);
    OtherSlotsHoldStatics(t.slots, req.client);
  }

  lemma OtherSlotsHoldStatics(slots: seq<Slot>, c: Ipv4)
    ensures StaticsOf(slots) == set s | s in OtherSlots(slots, c) && s.lease.Static? :: MapOf(s)
  {}

  lemma DeleteKeepsStatics(t: Table, port: u16)
    requires DistinctPorts(t.slots)
    requires forall s :: s in t.slots && s.bindPort == port ==> s.lease.Granted?
    ensures StaticsOf(DeletePort(t, port).slots) == StaticsOf(t.slots)
  {
    hide DeletePort;
    DeleteMembers(t, port);
  }

  lemma RewriteKeepsStatics(slots: seq<Slot>, i: nat, s: Slot)
    requires i < |slots| && s.lease == slots[i].lease
    requires s.lease.Static? ==> MapOf(s) == MapOf(slots[i])
    ensures StaticsOf(slots[i := s]) == StaticsOf(slots)
  {
    var u := slots[i := s];
    forall m ensures m in StaticsOf(u) <==> m in StaticsOf(slots) {
      if m in StaticsOf(u) {
        var x :| x in u && x.lease.Static? && MapOf(x) == m;
        var k :| 0 <= k < |u| && u[k] == x;
        assert slots[k] in slots;
      }
      if m in StaticsOf(slots) {
        var x :| x in slots && x.lease.Static? && MapOf(x) == m;
        var k :| 0 <= k < |slots| && slots[k] == x;
        assert u[k] in u;
      }
    }
  }

  // ---- what a step keeps ----

  ghost predicate Stays(t: Table, u: Table, now: u64) {
    (AllPlain(t.slots, now) ==> AllPlain(u.slots, now)) && StaticsOf(u.slots) == StaticsOf(t.slots) && u.cfg == t.cfg
  }

  lemma DeleteStays(t: Table, port: u16, now: u64)
    requires DistinctPorts(t.slots)
    requires forall s :: s in t.slots && s.bindPort == port ==> s.lease.Granted?
    ensures Stays(t, DeletePort(t, port), now)
  {
    DeleteKeepsStatics(t, port);
    if AllPlain(t.slots, now) {
      DeleteKeepsPlain(t, port, now);
    }
  }

  // All a respawn asks of the index: no entry is bound to the port of a static.
  ghost predicate Grounded(st: State) {
    TableInv(st.table)
    && forall e, s :: e in st.entries && s in st.table.slots && s.lease.Static? ==> e.bindPort != s.bindPort
  }

  ghost predicate GrantOn(slots: seq<Slot>, port: u16) {
    exists s :: s in slots && s.lease.Granted? && s.bindPort == port
  }

  // What a step does to both: the table stays restorable, and the index stays off the statics.
  ghost predicate Holds(st: State, u: State, now: u64) {
    Grounded(u) && Stays(st.table, u.table, now)
  }

  // An entry is off the statics when its port was bound before or is held by a grant.
  lemma StaysGrounded(st: State, u: State, now: u64)
    requires Grounded(st) && TableInv(u.table) && Stays(st.table, u.table, now)
    requires forall e :: e in u.entries ==> e.bindPort in BindsOf(st.entries) || GrantOn(u.table.slots, e.bindPort)
    ensures Holds(st, u, now)
  {
    hide AllPlain;
    forall e, s | e in u.entries && s in u.table.slots && s.lease.Static? ensures e.bindPort != s.bindPort {
      assert MapOf(s) in StaticsOf(u.table.slots);
      var o :| o in st.table.slots && o.lease.Static? && MapOf(o) == MapOf(s);
      if GrantOn(u.table.slots, e.bindPort) {
        var g :| g in u.table.slots && g.lease.Granted? && g.bindPort == e.bindPort;
        FoundByPort(u.table.slots, s);
        FoundByPort(u.table.slots, g);
      }
    }
  }

  lemma StaysThrough(t: Table, u: Table, v: Table, now: u64)
    requires Stays(t, u, now) && Stays(u, v, now)
    ensures Stays(t, v, now)
  {}

  // A port some entry is bound to goes, and the index loses what it loses.
  lemma DeletePortHolds(st: State, port: u16, es: seq<Entry>, now: u64)
    requires Grounded(st) && port in BindsOf(st.entries) && BindsOf(es) <= BindsOf(st.entries)
    ensures Holds(st, st.(table := DeletePort(st.table, port), entries := es), now)
  {
    hide DeletePort, AllPlain, StaticsOf;
    DeleteStays(st.table, port, now);
    DeleteConfig(st.table, port);
    DeleteKeeps(st.table, port);
    var u := st.(table := DeletePort(st.table, port), entries := es);
    assert forall e :: e in u.entries ==> e.bindPort in BindsOf(es);
    StaysGrounded(st, u, now);
  }

  lemma DeleteConfig(t: Table, port: u16)
    ensures DeletePort(t, port).cfg == t.cfg && DeletePort(t, port).avoid == t.avoid
  {}

  // ---- grants, of any caller ----

  lemma UpsertHolds(st: State, req: MappingReq, at: u64, now: u64)
    requires Grounded(st) && at <= now && req.lifetime >= 1
    ensures Holds(st, st.(table := UpsertFor(st.table, req, at).0), now)
    ensures Admitted(UpsertFor(st.table, req, at).1) ==>
              GrantOn(UpsertFor(st.table, req, at).0.slots, UpsertFor(st.table, req, at).1.bindPort)
  {
    UpsertLeavesGrant(st.table, req, at);
    hide Upsert, AllPlain, StaticsOf;
    UpsertKeeps(st.table, KeyOf(req), req.lifetime, at, req.client, req.intPort);
    UpsertConfig(st.table, req, at);
    UpsertKeepsStatics(st.table, req, at);
    if AllPlain(st.table.slots, now) {
      UpsertKeepsPlain(st.table, req, at, now);
    }
    var u := st.(table := UpsertFor(st.table, req, at).0);
    assert forall e :: e in u.entries ==> e.bindPort in BindsOf(st.entries);
    StaysGrounded(st, u, now);
  }

  lemma UpsertLeavesGrant(t: Table, req: MappingReq, at: u64)
    ensures var (u, o) := UpsertFor(t, req, at); Admitted(o) ==> GrantOn(u.slots, o.bindPort)
  {
    var (u, o) := UpsertFor(t, req, at);
    var i := FirstIndex(t.slots, HasKey(KeyOf(req)));
    if i < |t.slots| {
      assert u.slots[i] in u.slots;
    } else if o.GrantedAt? {
      assert u.slots[|t.slots|] in u.slots;
    }
  }

  lemma UpsertConfig(t: Table, req: MappingReq, at: u64)
    ensures UpsertFor(t, req, at).0.cfg == t.cfg
  {}

  // Recording binds entries to ports that were bound before or to the admitted one.
  lemma ApplyBinds(es: seq<Entry>, req: MappingReq, owner: Ipv4, bindPort: u16, now: u64)
    ensures var (u, stray) := ApplyEntry(es, req, owner, bindPort, now);
            (forall e :: e in u ==> e.bindPort in BindsOf(es) || e.bindPort == bindPort)
            && (stray.Some? ==> stray.value in BindsOf(es) && stray.value != bindPort)
  {
    var i := FirstIndex(es, IsInternal(req.proto, owner, req.intPort));
    var j := FirstIndex(es, IsHandle(req.ext, req.proto, owner));
    if i < |es| {
      assert es[i] in es;
      assert forall e :: e in RemoveAt(es, i) ==> e in es;
      var moved, rest := Relabelled(es[i], req, now), RemoveAt(es, i);
      InsertMembers(rest, FirstIndex(rest, (x: Entry) => Before(moved, x)), moved);
    } else if req.ext != 0 && j < |es| {
      assert es[j] in es;
      assert forall e :: e in es[j := EntryFor(req, owner, bindPort, now)] ==> e in es || e.bindPort == bindPort;
    } else {
      var e := EntryFor(req, owner, bindPort, now);
      InsertMembers(es, FirstIndex(es, (x: Entry) => Before(e, x)), e);
    }
  }

  lemma RecordHolds(st: State, req: MappingReq, owner: Ipv4, bindPort: u16, at: u64, now: u64)
    requires Grounded(st) && GrantOn(st.table.slots, bindPort)
    ensures Holds(st, Recorded(st, req, owner, bindPort, at), now)
  {
    hide DeletePort, ApplyEntry, AllPlain, StaticsOf;
    var (es, stray) := ApplyEntry(st.entries, req, owner, bindPort, at);
    var u := Recorded(st, req, owner, bindPort, at);
    ApplyBinds(st.entries, req, owner, bindPort, at);
    if stray.Some? {
      DeletePortHolds(st, stray.value, [], now);
      DeleteMembers(st.table, stray.value);
      var g :| g in st.table.slots && g.lease.Granted? && g.bindPort == bindPort;
      assert g in u.table.slots;
    }
    StaysGrounded(st, u, now);
  }

  lemma AdmitHolds(st: State, req: MappingReq, owner: Ipv4, env: GrantEnv, now: u64)
    requires Grounded(st) && env.now <= now && req.lifetime >= 1
    ensures Holds(st, Admit(st, req, owner, env).0, now)
  {
    hide Upsert, DeletePort, Recorded, Grounded, AllPlain, StaticsOf;
    var (t, o) := UpsertFor(st.table, req, env.now);
    UpsertHolds(st, req, env.now, now);
    if o.GrantedAt? && !env.datapathUp {
      RollbackUndoes(st.table, req, env.now);
    } else if Admitted(o) {
      RecordHolds(st.(table := t), req, owner, o.bindPort, env.now, now);
      StaysThrough(st.table, t, Admit(st, req, owner, env).0.table, now);
    }
  }

  lemma ReliefHolds(st: State, req: MappingReq, owner: Ipv4, env: GrantEnv, now: u64)
    requires Grounded(st)
    ensures Holds(st, Relieved(Steered(st, req, owner, env), req, env), now)
  {
    hide Upsert, DeletePort, AllPlain;
    var s := Steered(st, req, owner, env);
    assert s.table.slots == st.table.slots && s.entries == st.entries && Grounded(s);
    var v := Victim(s.table.slots, env.evictNow, LEASE_GRACE, req.client);
    if v.Some? {
      var port := v.value.bindPort;
      assert v.value in s.table.slots;
      forall x | x in s.table.slots && x.bindPort == port ensures x == v.value {
        FoundByPort(s.table.slots, x);
        FoundByPort(s.table.slots, v.value);
      }
      hide Victim, StaticsOf, Grounded;
      DropHolds(s, port, now);
    }
  }

  lemma DropHolds(st: State, port: u16, now: u64)
    requires Grounded(st) && forall s :: s in st.table.slots && s.bindPort == port ==> s.lease.Granted?
    ensures Holds(st, DropPort(st, port), now)
  {
    hide DeletePort, AllPlain, StaticsOf;
    DeleteStays(st.table, port, now);
    DeleteConfig(st.table, port);
    DeleteKeeps(st.table, port);
    StaysGrounded(st, DropPort(st, port), now);
  }

  lemma GrantHolds(st: State, req: MappingReq, owner: Ipv4, view: Option<Contain>, env: GrantEnv, now: u64)
    requires Grounded(st) && env.now <= now
    ensures Holds(st, Grant(st, req, owner, view, env).0, now)
  {
    hide Admit, Relieved, Steered, Grounded, AllPlain, StaticsOf;
    var leased := Leased(req);
    var s := Relieved(Steered(st, leased, owner, env), leased, env);
    ReliefHolds(st, leased, owner, env, now);
    AdmitHolds(s, leased, owner, env, now);
    StaysThrough(st.table, s.table, Admit(s, leased, owner, env).0.table, now);
  }

  // ---- deletes, collectors, stamps and yields ----

  lemma DeleteHolds(st: State, ext: u16, proto: Proto, caller: Ipv4, view: Option<Contain>, now: u64)
    requires Grounded(st)
    ensures Holds(st, Delete(st, ext, proto, caller, view).0, now)
  {
    hide DeletePort, Grounded, AllPlain, StaticsOf;
    var handle := IsHandle(ext, proto, caller);
    var i := FirstIndex(st.entries, handle);
    if i < |st.entries| {
      assert st.entries[i] in st.entries;
      DeletePortHolds(st, st.entries[i].bindPort, Filter(st.entries, Not(handle)), now);
    }
  }

  lemma {:induction false} DeleteAllHolds(st: State, targets: seq<Entry>, view: Option<Contain>, now: u64)
    requires Grounded(st)
    ensures Holds(st, DeleteAll(st, targets, view), now)
  {
    hide Grounded, Delete, AllPlain, StaticsOf;
    if targets != [] {
      var front, e := targets[..|targets| - 1], targets[|targets| - 1];
      DeleteAllHolds(st, front, view, now);
      var u := DeleteAll(st, front, view);
      DeleteHolds(u, e.reqExt, e.proto, e.owner, view, now);
      StaysThrough(st.table, u.table, Delete(u, e.reqExt, e.proto, e.owner, view).0.table, now);
    }
  }

  lemma CollectHolds(st: State, survives: Slot -> bool, now: u64)
    requires Grounded(st) && forall s: Slot :: s.lease.Static? ==> survives(s)
    ensures Holds(st, Collect(st, survives), now)
  {
    KeepKeeps(st.table, survives);
    hide TableInv;
    StaysGrounded(st, Collect(st, survives), now);
  }

  lemma StampStays(t: Table, port: u16, at: u64, minInterval: u64, now: u64)
    ensures Stays(t, Stamp(t, port, at, minInterval), now)
  {
    var i := FirstIndex(t.slots, HasPort(port));
    if i < |t.slots| {
      var s := t.slots[i].(lastActivity := at);
      RewriteKeepsStatics(t.slots, i, s);
      if AllPlain(t.slots, now) {
        RewriteKeepsPlain(t.slots, i, s, now);
      }
    }
  }

  lemma {:induction false} StampPortsStays(t: Table, es: seq<Entry>, client: Ipv4, at: u64, now: u64)
    requires TableInv(t)
    ensures TableInv(StampPorts(t, es, client, at)) && Stays(t, StampPorts(t, es, client, at), now)
  {
    if es != [] {
      hide Stamp, AllPlain, StaticsOf, TableInv;
      var u, port := StampPorts(t, es[..|es| - 1], client, at), es[|es| - 1].bindPort;
      StampPortsStays(t, es[..|es| - 1], client, at, now);
      StampStays(u, port, at, 0, now);
      StampKeeps(u, port, at, 0);
    }
  }

  // A table step that leaves the index alone.
  lemma TableHolds(st: State, t: Table, now: u64)
    requires Grounded(st) && TableInv(t) && Stays(st.table, t, now)
    ensures Holds(st, st.(table := t), now)
  {
    hide TableInv, AllPlain, StaticsOf;
    assert forall e :: e in st.entries ==> e.bindPort in BindsOf(st.entries);
    StaysGrounded(st, st.(table := t), now);
  }

  lemma YieldHolds(st: State, port: u16, datapathUp: bool, now: u64)
    requires Grounded(st)
    ensures Holds(st, Yield(st, port, datapathUp), now)
  {
    hide FreePort, AllPlain;
    var i := FirstIndex(st.entries, BoundTo(port));
    if i < |st.entries| {
      assert st.entries[i] in st.entries;
      MoveStays(st.table, port, now);
      MoveKeeps(st.table, port);
      var (t, moved) := MovePort(st.table, port);
      var u := Yield(st, port, datapathUp);
      if moved.Some? && !datapathUp {
        FailedYieldOnlyReserves(st.table, port);
      }
      hide MovePort, RestorePort, StaticsOf, TableInv;
      assert forall e :: e in u.entries ==> e in st.entries || (moved.Some? && e.bindPort == moved.value);
      assert forall e :: e in st.entries ==> e.bindPort in BindsOf(st.entries);
      StaysGrounded(st, u, now);
    }
  }

  // A move takes a grant to a grant on the new port.
  lemma MoveStays(t: Table, port: u16, now: u64)
    requires forall s :: s in t.slots && s.bindPort == port ==> s.lease.Granted?
    ensures var (u, moved) := MovePort(t, port);
            Stays(t, u, now) && (moved.Some? ==> GrantOn(u.slots, moved.value))
  {
    hide FreePort;
    var k := FirstIndex(t.slots, HasPort(port));
    var (u, moved) := MovePort(t, port);
    if moved.Some? {
      var s := t.slots[k].(bindPort := moved.value);
      assert t.slots[k] in t.slots && u.slots[k] in u.slots;
      RewriteKeepsStatics(t.slots, k, s);
      if AllPlain(t.slots, now) {
        RewriteKeepsPlain(t.slots, k, s, now);
      }
    }
  }

  // ---- steps and runs, of any callers under any labels ----

  predicate StepTimeAtMost(step: Step, now: u64) {
    match step
    case DoGrant(_, _, _, env) => env.now <= now
    case DoGrantPreferred(_, _, _, env) => env.now <= now
    case _ => true
  }

  // Whoever takes it, a step leaves a restorable table restorable.
  lemma StepHolds(st: State, step: Step, now: u64)
    requires Grounded(st) && StepTimeAtMost(step, now)
    ensures Holds(st, Take(st, step), now)
  {
    assert TableInv(st.table);
    hide TableInv, Grant, Delete, DeleteAll, Yield, Collect, StampPorts, Stamp, AllPlain, StaticsOf, PreferredLabel;
    match step
    case DoGrant(req, owner, view, env) => GrantHolds(st, req, owner, view, env, now);
    case DoGrantPreferred(req, owner, view, env) =>
      GrantHolds(st, req.(ext := PreferredLabel(st.entries, req.ext, req.proto)), owner, None, env, now);
    case DoDelete(ext, proto, caller, view) => DeleteHolds(st, ext, proto, caller, view, now);
    case DoDeleteRange(start, end, proto, view) =>
      DeleteAllHolds(st, Filter(st.entries, InRange(start, end, proto, view)), view, now);
    case DoReserve(live) =>
      ReserveKeeps(st.table, live);
      TableHolds(st, AvoidPorts(st.table, live), now);
    case DoYield(port, datapathUp) => YieldHolds(st, port, datapathUp, now);
    case DoCollectExpired(at, grace) => CollectHolds(st, SurvivesGc(at, grace), now);
    case DoCollectIdle(at) => CollectHolds(st, SurvivesIdle(at, LEASE_BACKSTOP), now);
    case DoStampClient(client, at) =>
      StampPortsStays(st.table, st.entries, client, at, now);
      TableHolds(st, StampPorts(st.table, st.entries, client, at), now);
    case DoStampTraffic(port, at, minInterval) =>
      StampStays(st.table, port, at, minInterval, now);
      StampKeeps(st.table, port, at, minInterval);
      TableHolds(st, Stamp(st.table, port, at, minInterval), now);
  }

  lemma ReserveKeeps(t: Table, live: seq<u16>)
    requires TableInv(t)
    ensures TableInv(AvoidPorts(t, live)) && AvoidPorts(t, live).slots == t.slots && AvoidPorts(t, live).cfg == t.cfg
  {}

  // Whatever a run of any callers does before `now`, the table it reaches can be restored at `now`.
  lemma {:induction false} EveryRunIsRestorable(st: State, steps: seq<Step>, maps: seq<StaticMap>, now: u64)
    requires Grounded(st) && Restorable(st.table, maps, now)
    requires forall step :: step in steps ==> StepTimeAtMost(step, now)
    ensures Grounded(Run(st, steps)) && Restorable(Run(st, steps).table, maps, now)
    ensures Run(st, steps).table.cfg == st.table.cfg
  {
    hide AllPlain, StaticsOf, TableInv;
    if steps != [] {
      hide Take, StepTimeAtMost;
      var front, step := steps[..|steps| - 1], steps[|steps| - 1];
      assert forall s :: s in front ==> s in steps;
      EveryRunIsRestorable(st, front, maps, now);
      assert step in steps;
      StepHolds(Run(st, front), step, now);
    }
  }

  // In agreement no entry is on a static, so every such state starts runs like these.
  lemma AgreementIsGrounded(st: State)
    requires Agree(st, false)
    ensures Grounded(st)
  {
    forall e, s | e in st.entries && s in st.table.slots && s.lease.Static? ensures e.bindPort != s.bindPort {
      var o := EntryHasSlot(st, false, e);
      FoundByPort(st.table.slots, o);
      FoundByPort(st.table.slots, s);
    }
  }
}
