// Whole runs of the facade: the order of the index, and agreement for callers that map for themselves.
module FacadeRuns {
  import opened Net
  import opened Seqs
  import opened LeaseTables
  import opened TableLaws
  import opened Facade
  import opened Agreement
  import opened FacadeLaws

  datatype Step =
    | DoGrant(req: MappingReq, owner: Ipv4, view: Option<Contain>, env: GrantEnv)
    | DoGrantPreferred(req: MappingReq, owner: Ipv4, view: Option<Contain>, env: GrantEnv)
    | DoDelete(ext: u16, proto: Proto, caller: Ipv4, view: Option<Contain>)
    | DoDeleteRange(start: u16, end: u16, proto: Proto, view: Option<Contain>)
    | DoReserve(live: seq<u16>)
    | DoYield(port: u16, datapathUp: bool)
    | DoCollectExpired(now: u64, grace: u64)
    | DoCollectIdle(now: u64)
    | DoStampClient(client: Ipv4, now: u64)
    | DoStampTraffic(port: u16, now: u64, minInterval: u64)

  ghost function Take(st: State, step: Step): State {
    match step
    case DoGrant(req, owner, view, env) => Grant(st, req, owner, view, env).0
    case DoGrantPreferred(req, owner, view, env) => GrantPreferred(st, req, owner, view, env).0
    case DoDelete(ext, proto, caller, view) => Delete(st, ext, proto, caller, view).0
    case DoDeleteRange(start, end, proto, view) => DeleteRange(st, start, end, proto, view).0
    case DoReserve(live) => st.(table := AvoidPorts(st.table, live))
    case DoYield(port, datapathUp) => Yield(st, port, datapathUp)
    case DoCollectExpired(now, grace) => Collect(st, SurvivesGc(now, grace))
    case DoCollectIdle(now) => Collect(st, SurvivesIdle(now, LEASE_BACKSTOP))
    case DoStampClient(client, now) => st.(table := StampPorts(st.table, st.entries, client, now))
    case DoStampTraffic(port, now, minInterval) => st.(table := Stamp(st.table, port, now, minInterval))
  }

  ghost function Run(st: State, steps: seq<Step>): State {
    if steps == [] then st else Take(Run(st, steps[..|steps| - 1]), steps[|steps| - 1])
  }

  // ---- the index stays sorted in every run, whoever maps what ----

  ghost predicate Sorted(es: seq<Entry>) {
    forall i, j :: 0 <= i < j < |es| ==> !Before(es[j], es[i])
  }

  lemma InsertKeepsSorted(es: seq<Entry>, e: Entry)
    requires Sorted(es)
    ensures Sorted(InsertSorted(es, e))
  {
    var after := (x: Entry) => Before(e, x);
    var at := FirstIndex(es, after);
    var u := InsertSorted(es, e);
    forall i, j | 0 <= i < j < |u| ensures !Before(u[j], u[i]) {
      assert i < at ==> u[i] == es[i] && !after(es[i]);
      assert j > at ==> u[j] == es[j - 1];
      assert i > at ==> u[i] == es[i - 1];
      assert j < at ==> u[j] == es[j];
      if j > at {
        assert after(es[at]);
      }
    }
  }

  lemma RemoveKeepsSorted(es: seq<Entry>, i: nat)
    requires Sorted(es) && i < |es|
    ensures Sorted(RemoveAt(es, i))
  {
    assert forall k :: 0 <= k < |es| - 1 ==> RemoveAt(es, i)[k] == es[if k < i then k else k + 1];
  }

  lemma FilterKeepsSorted(es: seq<Entry>, p: Entry -> bool)
    requires Sorted(es)
    ensures Sorted(Filter(es, p))
  {
    FilterKeepsPairs(es, p, (a: Entry, b: Entry) => !Before(b, a));
  }

  lemma ApplyKeepsSorted(es: seq<Entry>, req: MappingReq, owner: Ipv4, bindPort: u16, now: u64)
    requires Sorted(es)
    ensures Sorted(ApplyEntry(es, req, owner, bindPort, now).0)
  {
    hide InsertSorted;
    var i := FirstIndex(es, IsInternal(req.proto, owner, req.intPort));
    var j := FirstIndex(es, IsHandle(req.ext, req.proto, owner));
    if i < |es| {
      RemoveKeepsSorted(es, i);
      var e := Relabelled(es[i], req, now);
      InsertKeepsSorted(RemoveAt(es, i), e);
    } else if req.ext == 0 || j == |es| {
      InsertKeepsSorted(es, EntryFor(req, owner, bindPort, now));
    }
  }

  lemma AdmitKeepsSorted(st: State, req: MappingReq, owner: Ipv4, env: GrantEnv)
    requires Sorted(st.entries)
    ensures Sorted(Admit(st, req, owner, env).0.entries)
  {
    hide Upsert, ApplyEntry, DeletePort;
    var (t, o) := UpsertFor(st.table, req, env.now);
    if Admitted(o) {
      ApplyKeepsSorted(st.entries, req, owner, o.bindPort, env.now);
    }
  }

  lemma GrantKeepsSorted(st: State, req: MappingReq, owner: Ipv4, view: Option<Contain>, env: GrantEnv)
    requires Sorted(st.entries)
    ensures Sorted(Grant(st, req, owner, view, env).0.entries)
  {
    hide Admit, DeletePort, Victim, Upsert;
    var leased := Leased(req);
    var s := Steered(st, leased, owner, env);
    var r := Relieved(s, leased, env);
    var v := Victim(s.table.slots, env.evictNow, LEASE_GRACE, req.client);
    if v.Some? {
      FilterKeepsSorted(s.entries, Not(BoundTo(v.value.bindPort)));
    }
    AdmitKeepsSorted(r, leased, owner, env);
  }

  lemma {:induction false} DeleteAllKeepsSorted(st: State, targets: seq<Entry>, view: Option<Contain>)
    requires Sorted(st.entries)
    ensures Sorted(DeleteAll(st, targets, view).entries)
  {
    if targets != [] {
      var front, e := DeleteAll(st, targets[..|targets| - 1], view), targets[|targets| - 1];
      DeleteAllKeepsSorted(st, targets[..|targets| - 1], view);
      FilterKeepsSorted(front.entries, Not(IsHandle(e.reqExt, e.proto, e.owner)));
    }
  }

  lemma StepKeepsSorted(st: State, step: Step)
    requires Sorted(st.entries)
    ensures Sorted(Take(st, step).entries)
  {
    hide Grant, DeleteAll, MovePort, StampPorts, RestorePort;
    match step
    case DoGrant(req, owner, view, env) => GrantKeepsSorted(st, req, owner, view, env);
    case DoGrantPreferred(req, owner, view, env) =>
      GrantKeepsSorted(st, req.(ext := PreferredLabel(st.entries, req.ext, req.proto)), owner, None, env);
    case DoDelete(ext, proto, caller, view) => FilterKeepsSorted(st.entries, Not(IsHandle(ext, proto, caller)));
    case DoDeleteRange(start, end, proto, view) =>
      DeleteAllKeepsSorted(st, Filter(st.entries, InRange(start, end, proto, view)), view);
    case DoCollectExpired(now, grace) =>
      FilterKeepsSorted(st.entries, BoundOutside(Ports(Filter(st.table.slots, Not(SurvivesGc(now, grace))))));
    case DoCollectIdle(now) =>
      FilterKeepsSorted(st.entries,
        BoundOutside(Ports(Filter(st.table.slots, Not(SurvivesIdle(now, LEASE_BACKSTOP))))));
    case _ =>
  }

  lemma {:induction false} EveryRunStaysSorted(st: State, steps: seq<Step>)
    requires Sorted(st.entries)
    ensures Sorted(Run(st, steps).entries)
  {
    if steps != [] {
      EveryRunStaysSorted(st, steps[..|steps| - 1]);
      StepKeepsSorted(Run(st, steps[..|steps| - 1]), steps[|steps| - 1]);
    }
  }

  // ---- agreement in disciplined runs ----

  // Every entry maps for its owner under a non-zero label.
  ghost predicate SelfMapped(es: seq<Entry>) {
    forall e :: e in es ==> e.owner == e.client && e.reqExt != 0
  }

  predicate SameHandle(a: Entry, b: Entry) {
    a.reqExt == b.reqExt && a.proto == b.proto && a.owner == b.owner
  }

  predicate SameInternal(a: Entry, b: Entry) {
    a.proto == b.proto && a.owner == b.owner && a.intPort == b.intPort
  }

  // An owner uses a label once per protocol, and has one entry per internal port.
  function KeyedApart(): (Entry, Entry) -> bool {
    (a: Entry, b: Entry) => !SameHandle(a, b) && !SameInternal(a, b)
  }

  ghost predicate Keyed(es: seq<Entry>) {
    forall i, j :: 0 <= i < |es| && 0 <= j < |es| && i != j ==> KeyedApart()(es[i], es[j])
  }

  ghost predicate FacadeInv(st: State) {
    Agree(st, true) && SelfMapped(st.entries) && Keyed(st.entries)
  }

  // What self-mapping callers keep whatever labels they use: agreement, and one entry per internal port.
  ghost predicate OwnersMap(es: seq<Entry>) {
    forall e :: e in es ==> e.owner == e.client
  }

  ghost predicate InternalsApart(es: seq<Entry>) {
    forall i, j :: 0 <= i < |es| && 0 <= j < |es| && i != j ==> !SameInternal(es[i], es[j])
  }

  ghost predicate SelfInv(st: State) {
    Agree(st, true) && OwnersMap(st.entries) && InternalsApart(st.entries)
  }

  lemma InvIsSelf(st: State)
    requires FacadeInv(st)
    ensures SelfInv(st)
  {
    hide Agree;
    forall i, j | 0 <= i < |st.entries| && 0 <= j < |st.entries| && i != j
      ensures !SameInternal(st.entries[i], st.entries[j])
    {
      assert KeyedApart()(st.entries[i], st.entries[j]);
    }
  }

  // A caller that relabels an entry of its own does not pick a label another of its entries has.
  ghost predicate NoClash(es: seq<Entry>, req: MappingReq, owner: Ipv4) {
    Exists(es, IsInternal(req.proto, owner, req.intPort)) ==>
      forall e :: e in es && IsHandle(req.ext, req.proto, owner)(e) ==> e.intPort == req.intPort
  }

  ghost predicate DisciplinedGrant(st: State, req: MappingReq, owner: Ipv4) {
    owner == req.client && req.ext != 0 && NoClash(st.entries, req, owner)
  }

  ghost predicate Disciplined(st: State, step: Step) {
    match step
    case DoGrant(req, owner, _, _) => DisciplinedGrant(st, req, owner)
    case DoGrantPreferred(req, owner, _, _) =>
      DisciplinedGrant(st, req.(ext := PreferredLabel(st.entries, req.ext, req.proto)), owner)
    case _ => true
  }

  ghost predicate DisciplinedRun(st: State, steps: seq<Step>) {
    steps != [] ==>
      DisciplinedRun(st, steps[..|steps| - 1]) && Disciplined(Run(st, steps[..|steps| - 1]), steps[|steps| - 1])
  }

  lemma FilterKeepsKeyed(es: seq<Entry>, p: Entry -> bool)
    requires Keyed(es)
    ensures Keyed(Filter(es, p)) && (SelfMapped(es) ==> SelfMapped(Filter(es, p)))
  {
    FilterKeepsPairs(es, p, KeyedApart());
  }

  // An entry whose label and internal port the owner uses nowhere else may join the index.
  lemma InsertKeepsKeyed(es: seq<Entry>, at: nat, e: Entry)
    requires Keyed(es) && at <= |es| && forall x :: x in es ==> KeyedApart()(x, e)
    ensures Keyed(InsertAt(es, at, e))
  {
    var u := InsertAt(es, at, e);
    forall i, j | 0 <= i < |u| && 0 <= j < |u| && i != j ensures KeyedApart()(u[i], u[j]) {
      assert i != at ==> u[i] == es[if i < at then i else i - 1] && u[i] in es;
      assert j != at ==> u[j] == es[if j < at then j else j - 1] && u[j] in es;
    }
  }

  lemma RemoveKeepsKeyed(es: seq<Entry>, i: nat)
    requires Keyed(es) && i < |es|
    ensures Keyed(RemoveAt(es, i))
    ensures forall x :: x in RemoveAt(es, i) ==> x in es && KeyedApart()(x, es[i])
  {
    var u := RemoveAt(es, i);
    assert forall k :: 0 <= k < |u| ==> u[k] == es[if k < i then k else k + 1];
  }

  // Relabelling the owner's own entry.
  lemma RelabelKeepsKeyed(es: seq<Entry>, i: nat, e: Entry)
    requires SelfMapped(es) && Keyed(es) && i < |es|
    requires SameInternal(e, es[i]) && e.owner == e.client && e.reqExt != 0
    requires forall x :: x in es && SameHandle(x, e) ==> x.intPort == e.intPort
    ensures var u := InsertSorted(RemoveAt(es, i), e); SelfMapped(u) && Keyed(u)
  {
    var rest := RemoveAt(es, i);
    RemoveKeepsKeyed(es, i);
    InsertKeepsKeyed(rest, FirstIndex(rest, (x: Entry) => Before(e, x)), e);
    InsertMembers(rest, FirstIndex(rest, (x: Entry) => Before(e, x)), e);
  }

  // Recording a mapping at an internal port the owner has no entry for, under a label the owner uses nowhere.
  lemma RecordKeepsKeyed(es: seq<Entry>, e: Entry)
    requires SelfMapped(es) && Keyed(es) && e.owner == e.client && e.reqExt != 0
    requires forall x :: x in es ==> !SameInternal(x, e) && !SameHandle(x, e)
    ensures var u := InsertSorted(es, e); SelfMapped(u) && Keyed(u)
  {
    var at := FirstIndex(es, (x: Entry) => Before(e, x));
    InsertKeepsKeyed(es, at, e);
    InsertMembers(es, at, e);
    hide Keyed, InsertAt;
  }

  // Recording it over the entry of its label.
  lemma ReplaceKeepsKeyed(es: seq<Entry>, j: nat, e: Entry)
    requires SelfMapped(es) && Keyed(es) && e.owner == e.client && e.reqExt != 0
    requires forall x :: x in es ==> !SameInternal(x, e)
    requires j < |es| && SameHandle(es[j], e)
    ensures SelfMapped(es[j := e]) && Keyed(es[j := e])
  {
    var rest := RemoveAt(es, j);
    RemoveKeepsKeyed(es, j);
    assert es[j := e] == InsertAt(rest, j, e);
    hide Keyed;
    InsertKeepsKeyed(rest, j, e);
    InsertMembers(rest, j, e);
  }

  lemma InsertMembers(es: seq<Entry>, at: nat, e: Entry)
    requires at <= |es|
    ensures forall x :: x in InsertAt(es, at, e) ==> x in es || x == e
  {}

  lemma ApplyKeepsKeyed(es: seq<Entry>, req: MappingReq, owner: Ipv4, bindPort: u16, now: u64)
    requires SelfMapped(es) && Keyed(es)
    requires owner == req.client && req.ext != 0 && NoClash(es, req, owner)
    ensures var (u, _) := ApplyEntry(es, req, owner, bindPort, now); SelfMapped(u) && Keyed(u)
  {
    hide Keyed, InsertSorted, InsertAt;
    var i := FirstIndex(es, IsInternal(req.proto, owner, req.intPort));
    var j := FirstIndex(es, IsHandle(req.ext, req.proto, owner));
    if i < |es| {
      assert es[i] in es;
      var e := Relabelled(es[i], req, now);
      RelabelKeepsKeyed(es, i, e);
    } else {
      assert forall k :: 0 <= k < |es| ==> !IsInternal(req.proto, owner, req.intPort)(es[k]);
      assert forall k :: 0 <= k < j ==> !IsHandle(req.ext, req.proto, owner)(es[k]);
      var e := EntryFor(req, owner, bindPort, now);
      if j < |es| {
        ReplaceKeepsKeyed(es, j, e);
      } else {
        RecordKeepsKeyed(es, e);
      }
    }
  }

  // The entry a self-mapping caller refreshes is the one of the slot it refreshes.
  lemma RefreshMeetsItsEntry(st: State, req: MappingReq, now: u64)
    requires SelfInv(st) && UpsertFor(st.table, req, now).1.RefreshedAt?
    ensures var i := FirstIndex(st.entries, IsInternal(req.proto, req.client, req.intPort));
            i < |st.entries| && st.entries[i].bindPort == UpsertFor(st.table, req, now).1.bindPort
  {
    hide TableInv;
    RefreshedRows(st.table, req, now, true);
    var s :| s in st.table.slots && s.PcpKey() == Some(KeyOf(req))
      && s.bindPort == UpsertFor(st.table, req, now).1.bindPort;
    var e := SlotHasEntry(st, true, s);
    var k :| 0 <= k < |st.entries| && st.entries[k] == e;
    assert IsInternal(req.proto, req.client, req.intPort)(st.entries[k]);
    var i := FirstIndex(st.entries, IsInternal(req.proto, req.client, req.intPort));
    OnlyInternal(st.entries, i, k);
  }

  lemma OnlyInternal(es: seq<Entry>, i: nat, k: nat)
    requires InternalsApart(es) && i < |es| && k < |es| && SameInternal(es[i], es[k])
    ensures i == k
  {}

  // And a fresh slot means it has no entry at that internal port yet.
  lemma FreshMeetsNoEntry(st: State, req: MappingReq, now: u64)
    requires SelfInv(st) && UpsertFor(st.table, req, now).1.GrantedAt?
    ensures !Exists(st.entries, IsInternal(req.proto, req.client, req.intPort))
  {
    UpsertPort(st.table, KeyOf(req), req.lifetime, now, req.client, req.intPort);
    forall e | e in st.entries ensures !IsInternal(req.proto, req.client, req.intPort)(e) {
      var s := EntryHasSlot(st, true, e);
      assert s.PcpKey() != Some(KeyOf(req));
    }
  }

  // Taking back a slot just granted leaves the table exactly as it was.
  lemma RollbackUndoes(t: Table, req: MappingReq, now: u64)
    requires UpsertFor(t, req, now).1.GrantedAt?
    ensures var (u, o) := UpsertFor(t, req, now); DeletePort(u, o.bindPort) == t
  {
    var (u, o) := UpsertFor(t, req, now);
    UpsertPort(t, KeyOf(req), req.lifetime, now, req.client, req.intPort);
    var n := |t.slots|;
    assert HasPort(o.bindPort)(u.slots[n]);
    forall j | 0 <= j < n ensures !HasPort(o.bindPort)(u.slots[j]) {
      assert t.slots[j].bindPort in Held(t.slots);
    }
    assert FirstIndex(u.slots, HasPort(o.bindPort)) == n;
  }

  lemma AdmitKeepsInv(st: State, req: MappingReq, owner: Ipv4, env: GrantEnv)
    requires FacadeInv(st) && DisciplinedGrant(st, req, owner)
    ensures FacadeInv(Admit(st, req, owner, env).0)
  {
    hide Upsert, DeletePort, ApplyEntry, Keyed, NoClash, TableInv, GrantRows, EntryRows, DistinctBinds;
    var (t, o) := UpsertFor(st.table, req, env.now);
    InvIsSelf(st);
    match o
    case GrantedAt(b) =>
      if env.datapathUp {
        FreshMeetsNoEntry(st, req, env.now);
        FreshIsRecorded(st, req, owner, env.now, true);
        ApplyKeepsKeyed(st.entries, req, owner, b, env.now);
      } else {
        RollbackUndoes(st.table, req, env.now);
      }
    case RefreshedAt(b) =>
      RefreshMeetsItsEntry(st, req, env.now);
      RefreshIsRecorded(st, req, owner, env.now, true);
      ApplyKeepsKeyed(st.entries, req, owner, b, env.now);
    case _ =>
      RefusalChangesNothing(st.table, KeyOf(req), req.lifetime, env.now, req.client, req.intPort);
  }

  lemma DropPortKeepsInv(st: State, port: u16)
    requires FacadeInv(st)
    ensures FacadeInv(DropPort(st, port))
  {
    DropPortKeepsAgreement(st, port, true);
    FilterKeepsKeyed(st.entries, Not(BoundTo(port)));
  }

  // Steering only moves the reservations, and relief drops one port from both sides.
  lemma ReliefKeepsInv(st: State, req: MappingReq, owner: Ipv4, env: GrantEnv)
    requires FacadeInv(st)
    ensures var s := Relieved(Steered(st, req, owner, env), req, env);
            FacadeInv(s) && s.lan == st.lan && forall e :: e in s.entries ==> e in st.entries
  {
    hide Victim, Upsert, DropPort;
    var s := Steered(st, req, owner, env);
    assert FacadeInv(s);
    var v := Victim(s.table.slots, env.evictNow, LEASE_GRACE, req.client);
    if v.Some? {
      DropPortKeepsInv(s, v.value.bindPort);
      DropPortShrinks(s, v.value.bindPort);
    }
  }

  lemma DropPortShrinks(st: State, port: u16)
    ensures DropPort(st, port).lan == st.lan
    ensures forall e :: e in DropPort(st, port).entries <==> e in st.entries && e.bindPort != port
  {}

  lemma FewerEntriesClashLess(es: seq<Entry>, fewer: seq<Entry>, req: MappingReq, owner: Ipv4)
    requires NoClash(es, req, owner) && forall e :: e in fewer ==> e in es
    ensures NoClash(fewer, req, owner)
  {
    var p := IsInternal(req.proto, owner, req.intPort);
    if Exists(fewer, p) {
      assert fewer[FirstIndex(fewer, p)] in es;
      var k :| 0 <= k < |es| && es[k] == fewer[FirstIndex(fewer, p)];
      assert p(es[k]);
    }
  }

  lemma GrantKeepsInv(st: State, req: MappingReq, owner: Ipv4, view: Option<Contain>, env: GrantEnv)
    requires FacadeInv(st) && DisciplinedGrant(st, req, owner)
    ensures FacadeInv(Grant(st, req, owner, view, env).0)
  {
    hide Admit, Relieved, Steered, NoClash, FacadeInv;
    var leased := Leased(req);
    var s := Relieved(Steered(st, leased, owner, env), leased, env);
    ReliefKeepsInv(st, leased, owner, env);
    FewerEntriesClashLess(st.entries, s.entries, req, owner);
    SameClash(s.entries, req, leased, owner);
    AdmitKeepsInv(s, leased, owner, env);
  }

  lemma SameClash(es: seq<Entry>, a: MappingReq, b: MappingReq, owner: Ipv4)
    requires NoClash(es, a, owner) && a.ext == b.ext && a.proto == b.proto && a.intPort == b.intPort
    ensures NoClash(es, b, owner)
  {}

  lemma DeleteKeepsInv(st: State, ext: u16, proto: Proto, caller: Ipv4, view: Option<Contain>)
    requires FacadeInv(st)
    ensures FacadeInv(Delete(st, ext, proto, caller, view).0)
  {
    var handle := IsHandle(ext, proto, caller);
    if Delete(st, ext, proto, caller, view).1.Ok? {
      HandleOnce(st.entries, ext, proto, caller);
      DeleteExactly(st, ext, proto, caller, view, true);
      FilterKeepsKeyed(st.entries, Not(handle));
    }
  }

  lemma HandleOnce(es: seq<Entry>, ext: u16, proto: Proto, caller: Ipv4)
    requires Keyed(es) && Exists(es, IsHandle(ext, proto, caller))
    ensures Count(es, IsHandle(ext, proto, caller)) == 1
  {
    var handle := IsHandle(ext, proto, caller);
    var i := FirstIndex(es, handle);
    CountOne(es, i, handle);
    forall j | 0 <= j < |es| && j != i ensures !handle(es[j]) {
      assert KeyedApart()(es[i], es[j]);
    }
  }

  lemma {:induction false} DeleteAllKeepsInv(st: State, targets: seq<Entry>, view: Option<Contain>)
    requires FacadeInv(st)
    ensures FacadeInv(DeleteAll(st, targets, view))
  {
    hide FacadeInv, Delete;
    if targets != [] {
      var e := targets[|targets| - 1];
      DeleteAllKeepsInv(st, targets[..|targets| - 1], view);
      DeleteKeepsInv(DeleteAll(st, targets[..|targets| - 1], view), e.reqExt, e.proto, e.owner, view);
    }
  }

  lemma CollectKeepsInv(st: State, survives: Slot -> bool)
    requires FacadeInv(st)
    ensures FacadeInv(Collect(st, survives))
  {
    CollectKeepsAgreement(st, survives, true);
    FilterKeepsKeyed(st.entries, BoundOutside(Ports(Filter(st.table.slots, Not(survives)))));
  }

  lemma YieldKeepsInv(st: State, port: u16, datapathUp: bool)
    requires FacadeInv(st)
    ensures FacadeInv(Yield(st, port, datapathUp))
  {
    YieldKeepsAgreement(st, port, datapathUp, true);
    hide MovePort, RestorePort, Agree;
    var i := FirstIndex(st.entries, BoundTo(port));
    if i < |st.entries| {
      assert st.entries[i] in st.entries;
      assert forall q: u16 :: Keyed(st.entries[i := st.entries[i].(bindPort := q)]);
    }
  }

  lemma StepKeepsInv(st: State, step: Step)
    requires FacadeInv(st) && Disciplined(st, step)
    ensures FacadeInv(Take(st, step))
  {
    hide Grant, Delete, DeleteAll, Yield, Collect, StampPorts, Stamp, PreferredLabel, NoClash;
    match step
    case DoGrant(req, owner, view, env) => GrantKeepsInv(st, req, owner, view, env);
    case DoGrantPreferred(req, owner, view, env) =>
      GrantKeepsInv(st, req.(ext := PreferredLabel(st.entries, req.ext, req.proto)), owner, None, env);
    case DoDelete(ext, proto, caller, view) => DeleteKeepsInv(st, ext, proto, caller, view);
    case DoDeleteRange(start, end, proto, view) =>
      DeleteAllKeepsInv(st, Filter(st.entries, InRange(start, end, proto, view)), view);
    case DoReserve(live) =>
    case DoYield(port, datapathUp) => YieldKeepsInv(st, port, datapathUp);
    case DoCollectExpired(now, grace) => CollectKeepsInv(st, SurvivesGc(now, grace));
    case DoCollectIdle(now) => CollectKeepsInv(st, SurvivesIdle(now, LEASE_BACKSTOP));
    case DoStampClient(client, now) => StampPortsKeepsAgreement(st, st.entries, client, now, true);
    case DoStampTraffic(port, now, minInterval) => StampKeepsAgreement(st, port, now, minInterval, true);
  }

  // Over every run in which callers map for themselves, under non-zero labels, and never relabel onto a
  // label of another of their own entries: slots and entries agree on every mapping and its terms.
  lemma {:induction false} EveryDisciplinedRunAgrees(st: State, steps: seq<Step>)
    requires FacadeInv(st) && DisciplinedRun(st, steps)
    ensures FacadeInv(Run(st, steps))
  {
    if steps != [] {
      EveryDisciplinedRunAgrees(st, steps[..|steps| - 1]);
      StepKeepsInv(Run(st, steps[..|steps| - 1]), steps[|steps| - 1]);
    }
  }
}
