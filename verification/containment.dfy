// What one owner's requests can do to another's mappings, and which requests break the agreement.
module Containment {
  import opened Net
  import opened Seqs
  import opened LeaseTables
  import opened TableLaws
  import opened Facade
  import opened Agreement
  import opened FacadeLaws
  import opened FacadeRuns
  import opened AgreementExact
  import opened SelfMappedRuns

  // Each entry's slot is held by its owner. It is all a caller's containment rests on. Agreement has it, and it
  // outlives a lost one: a slot may have no entry.
  ghost predicate Backed(st: State) {
    TableInv(st.table) && DistinctBinds(st.entries) && OwnersMap(st.entries)
    && EntryRows(st.entries, false) <= GrantRows(st.table.slots, false)
  }

  lemma SelfIsBacked(st: State)
    requires SelfInv(st)
    ensures Backed(st)
  {
    TermsThenIdentity(st);
  }

  function OwnedByOther(c: Ipv4): Entry -> bool { (e: Entry) => e.owner != c }

  // The other owners' entries, in index order, and the slots of other clients with the statics.
  function OtherEntries(es: seq<Entry>, c: Ipv4): seq<Entry> { Filter(es, OwnedByOther(c)) }

  ghost function OtherSlots(slots: seq<Slot>, c: Ipv4): set<Slot> {
    set s | s in slots && s.Client() != Some(c)
  }

  ghost predicate SparesOthers(st: State, u: State, c: Ipv4) {
    OtherEntries(u.entries, c) == OtherEntries(st.entries, c)
    && OtherSlots(u.table.slots, c) == OtherSlots(st.table.slots, c)
  }

  // Everything of the others but the mapping of one slot.
  ghost predicate SparesOthersBut(st: State, u: State, c: Ipv4, v: Slot) {
    OtherEntries(u.entries, c) == Filter(OtherEntries(st.entries, c), Not(BoundTo(v.bindPort)))
    && OtherSlots(u.table.slots, c) == OtherSlots(st.table.slots, c) - {v}
  }

  // ---- the index ----

  lemma InsertSparesOthers(es: seq<Entry>, at: nat, e: Entry, c: Ipv4)
    requires at <= |es| && e.owner == c
    ensures OtherEntries(InsertAt(es, at, e), c) == OtherEntries(es, c)
  {
    var p := OwnedByOther(c);
    assert es == es[..at] + es[at..];
    FilterConcat(es[..at], es[at..], p);
    FilterConcat(es[..at] + [e], es[at..], p);
    FilterConcat(es[..at], [e], p);
    assert [e][..0] == [];
    assert Filter([e], p) == [];
  }

  lemma RemoveSparesOthers(es: seq<Entry>, i: nat, c: Ipv4)
    requires i < |es| && es[i].owner == c
    ensures OtherEntries(RemoveAt(es, i), c) == OtherEntries(es, c)
  {
    assert es == InsertAt(RemoveAt(es, i), i, es[i]);
    InsertSparesOthers(RemoveAt(es, i), i, es[i], c);
  }

  lemma ApplySparesOthers(es: seq<Entry>, req: MappingReq, owner: Ipv4, bindPort: u16, now: u64)
    ensures OtherEntries(ApplyEntry(es, req, owner, bindPort, now).0, owner) == OtherEntries(es, owner)
  {
    hide OtherEntries;
    var i := FirstIndex(es, IsInternal(req.proto, owner, req.intPort));
    var j := FirstIndex(es, IsHandle(req.ext, req.proto, owner));
    var e := EntryFor(req, owner, bindPort, now);
    if i < |es| {
      var moved := Relabelled(es[i], req, now);
      var rest := RemoveAt(es, i);
      RemoveSparesOthers(es, i, owner);
      InsertSparesOthers(rest, FirstIndex(rest, (x: Entry) => Before(moved, x)), moved, owner);
    } else if req.ext != 0 && j < |es| {
      RemoveSparesOthers(es, j, owner);
      assert es[j := e] == InsertAt(RemoveAt(es, j), j, e);
      InsertSparesOthers(RemoveAt(es, j), j, e, owner);
    } else {
      InsertSparesOthers(es, FirstIndex(es, (x: Entry) => Before(e, x)), e, owner);
    }
  }

  // ---- the table ----

  lemma UpsertSparesOthers(t: Table, req: MappingReq, now: u64)
    ensures OtherSlots(UpsertFor(t, req, now).0.slots, req.client) == OtherSlots(t.slots, req.client)
  {
    var i := FirstIndex(t.slots, HasKey(KeyOf(req)));
    var u := UpsertFor(t, req, now).0;
    if i < |t.slots| {
      assert forall k :: 0 <= k < |t.slots| && k != i ==> u.slots[k] == t.slots[k] && u.slots[k] in u.slots;
      assert forall s :: s in u.slots ==> s in t.slots || s == u.slots[i];
    }
  }

  lemma DeleteSparesOthers(t: Table, port: u16, c: Ipv4)
    requires DistinctPorts(t.slots)
    requires forall s :: s in t.slots && s.bindPort == port ==> s.Client() == Some(c)
    ensures OtherSlots(DeletePort(t, port).slots, c) == OtherSlots(t.slots, c)
  {
    hide DeletePort;
    DeleteMembers(t, port);
  }

  // The slot on the port of an owner's entry is the owner's.
  lemma EntrySlotIsOwners(st: State, e: Entry)
    requires Backed(st) && e in st.entries
    ensures forall s :: s in st.table.slots && s.bindPort == e.bindPort ==> s.Client() == Some(e.owner)
  {
    assert EntryRow(e, false) in EntryRows(st.entries, false);
    var o :| o in st.table.slots && o.lease.Granted? && SlotRow(o, false) == EntryRow(e, false);
    forall s | s in st.table.slots && s.bindPort == e.bindPort ensures s == o {
      FoundByPort(st.table.slots, s);
      FoundByPort(st.table.slots, o);
    }
  }

  // ---- grants ----

  lemma AdmitSparesOthers(st: State, req: MappingReq, env: GrantEnv)
    requires Backed(st)
    ensures SparesOthers(st, Admit(st, req, req.client, env).0, req.client)
  {
    hide Upsert, DeletePort, ApplyEntry, Backed, OtherEntries, OtherSlots;
    var (t, o) := UpsertFor(st.table, req, env.now);
    UpsertSparesOthers(st.table, req, env.now);
    if o.GrantedAt? && !env.datapathUp {
      RollbackUndoes(st.table, req, env.now);
    } else if Admitted(o) {
      ApplySparesOthers(st.entries, req, req.client, o.bindPort, env.now);
      StrayIsOwners(st, req, env.now);
    }
  }

  // The slot a label's owner abandons is its own.
  lemma StrayIsOwners(st: State, req: MappingReq, now: u64)
    requires Backed(st) && Admitted(UpsertFor(st.table, req, now).1)
    ensures var (t, o) := UpsertFor(st.table, req, now);
            OtherSlots(Recorded(st.(table := t), req, req.client, o.bindPort, now).table.slots, req.client)
            == OtherSlots(t.slots, req.client)
  {
    hide Upsert, DeletePort, OtherSlots, InsertSorted, RemoveAt;
    var (t, o) := UpsertFor(st.table, req, now);
    var stray := ApplyEntry(st.entries, req, req.client, o.bindPort, now).1;
    if stray.Some? {
      var j := FirstIndex(st.entries, IsHandle(req.ext, req.proto, req.client));
      assert st.entries[j] in st.entries;
      EntrySlotIsOwners(st, st.entries[j]);
      UpsertKeeps(st.table, KeyOf(req), req.lifetime, now, req.client, req.intPort);
      UpsertSparesPorts(st.table, req, now);
      DeleteSparesOthers(t, stray.value, req.client);
    }
  }

  // Whoever held a port before an upsert holds it afterwards, and new holders are the client's.
  lemma UpsertSparesPorts(t: Table, req: MappingReq, now: u64)
    ensures forall s :: s in UpsertFor(t, req, now).0.slots && s.Client() != Some(req.client) ==> s in t.slots
  {
    UpsertSparesOthers(t, req, now);
    forall s | s in UpsertFor(t, req, now).0.slots && s.Client() != Some(req.client) ensures s in t.slots {
      assert s in OtherSlots(t.slots, req.client);
    }
  }

  lemma DropSparesOthersBut(st: State, v: Slot, c: Ipv4)
    requires Backed(st) && v in st.table.slots && v.Client() != Some(c)
    ensures SparesOthersBut(st, DropPort(st, v.bindPort), c, v)
  {
    hide DeletePort;
    DeleteMembers(st.table, v.bindPort);
    forall s | s in st.table.slots && s.bindPort == v.bindPort ensures s == v {
      FoundByPort(st.table.slots, s);
      FoundByPort(st.table.slots, v);
    }
    FiltersCommute(st.entries, OwnedByOther(c), Not(BoundTo(v.bindPort)));
  }

  lemma FiltersCommute(es: seq<Entry>, p: Entry -> bool, q: Entry -> bool)
    ensures Filter(Filter(es, p), q) == Filter(Filter(es, q), p)
  {
    var both := (e: Entry) => p(e) && q(e);
    FilterTwice(es, p, q, both);
    FilterTwice(es, q, p, both);
  }

  // A grant to its own caller changes nothing of anyone else's, except that on a full table it may take one
  // slot: a UDP grant of another client, silent longer than the grace, and no such grant silent for longer.
  lemma SelfGrantSparesOthers(st: State, req: MappingReq, view: Option<Contain>, env: GrantEnv)
    requires Backed(st)
    ensures var u := Grant(st, req, req.client, view, env).0;
            SparesOthers(st, u, req.client)
            || exists v :: v in st.table.slots && SparesOthersBut(st, u, req.client, v)
                 && UpsertFor(Steered(st, Leased(req), req.client, env).table, Leased(req), env.now).1.TableFull?
                 && Evictable(v, env.evictNow, LEASE_GRACE, req.client)
                 && LongestIdle(st.table.slots, v, env.evictNow, LEASE_GRACE, req.client)
  {
    hide Admit, Upsert, DropPort, Backed, OtherEntries, OtherSlots;
    var leased := Leased(req);
    var s := Steered(st, leased, req.client, env);
    var r := Relieved(s, leased, env);
    ReliefKeepsBacked(st, leased, req.client, env);
    SteeringKeepsBacked(st, leased, req.client, env);
    AdmitSparesOthers(r, leased, env);
    if r != s {
      var v := Victim(s.table.slots, env.evictNow, LEASE_GRACE, req.client).value;
      assert v in s.table.slots;
      DropSparesOthersBut(s, v, req.client);
    }
  }

  lemma SteeringKeepsBacked(st: State, req: MappingReq, owner: Ipv4, env: GrantEnv)
    requires Backed(st)
    ensures Backed(Steered(st, req, owner, env))
  {}

  lemma DropPortKeepsBacked(st: State, port: u16)
    requires Backed(st)
    ensures Backed(DropPort(st, port))
  {
    hide DeletePort;
    RowsAfterDelete(st.table, port, false);
    DeleteKeeps(st.table, port);
    RowsAfterFilter(st.entries, Not(BoundTo(port)), {port}, false);
  }

  lemma ReliefKeepsBacked(st: State, req: MappingReq, owner: Ipv4, env: GrantEnv)
    requires Backed(st)
    ensures Backed(Relieved(Steered(st, req, owner, env), req, env))
  {
    hide Victim, Upsert, DropPort;
    var s := Steered(st, req, owner, env);
    SteeringKeepsBacked(st, req, owner, env);
    hide Backed;
    var v := Victim(s.table.slots, env.evictNow, LEASE_GRACE, req.client);
    if v.Some? {
      DropPortKeepsBacked(s, v.value.bindPort);
    }
  }

  // A contained caller either maps for itself or is refused.
  lemma ContainedGrantSparesOthers(st: State, req: MappingReq, c: Contain, env: GrantEnv)
    requires Backed(st)
    ensures var (u, r) := Grant(st, req, c.caller, Some(c), env);
            if req.client == c.caller
            then SparesOthers(st, u, c.caller)
                 || exists v :: v in st.table.slots && SparesOthersBut(st, u, c.caller, v)
                      && Evictable(v, env.evictNow, LEASE_GRACE, c.caller)
                      && LongestIdle(st.table.slots, v, env.evictNow, LEASE_GRACE, c.caller)
            else u == st && r == Err(NotAuthorized)
  {
    if req.client == c.caller {
      SelfGrantSparesOthers(st, req, Some(c), env);
    }
  }

  // So does AddAnyPortMapping, which judges the request before it resolves the label.
  lemma ContainedPreferredSparesOthers(st: State, req: MappingReq, c: Contain, env: GrantEnv)
    requires Backed(st)
    ensures var (u, r) := GrantPreferred(st, req, c.caller, Some(c), env);
            if req.client == c.caller
            then SparesOthers(st, u, c.caller)
                 || exists v :: v in st.table.slots && SparesOthersBut(st, u, c.caller, v)
                      && Evictable(v, env.evictNow, LEASE_GRACE, c.caller)
                      && LongestIdle(st.table.slots, v, env.evictNow, LEASE_GRACE, c.caller)
            else u == st && r == Err(NotAuthorized)
  {
    hide Grant, PreferredLabel;
    if req.client == c.caller {
      SelfGrantSparesOthers(st, req.(ext := PreferredLabel(st.entries, req.ext, req.proto)), None, env);
    }
  }

  // ---- deletes ----

  // A delete takes the slot of one of the entries it drops, so the others keep theirs.
  lemma DeleteKeepsBacked(st: State, ext: u16, proto: Proto, caller: Ipv4, view: Option<Contain>)
    requires Backed(st)
    ensures Backed(Delete(st, ext, proto, caller, view).0)
  {
    hide DeletePort, TableInv;
    var es, handle := st.entries, IsHandle(ext, proto, caller);
    var i := FirstIndex(es, handle);
    var u := Delete(st, ext, proto, caller, view).0;
    if u != st {
      BackedPorts(st);
      hide TableInv, EntryRows, GrantRows;
      RowsAfterDelete(st.table, es[i].bindPort, false);
      DeleteKeeps(st.table, es[i].bindPort);
      FilterKeepsPairs(es, Not(handle), (a: Entry, b: Entry) => a.bindPort != b.bindPort);
      DroppedRows(es, i, handle);
    }
  }

  lemma BackedPorts(st: State)
    requires Backed(st)
    ensures DistinctPorts(st.table.slots)
  {}

  lemma DroppedRows(es: seq<Entry>, i: nat, handle: Entry -> bool)
    requires DistinctBinds(es) && i < |es| && handle(es[i])
    ensures EntryRows(Filter(es, Not(handle)), false) <= WithoutPort(EntryRows(es, false), es[i].bindPort)
  {
    hide Filter;
    forall e | e in Filter(es, Not(handle)) ensures e in es && e.bindPort != es[i].bindPort {
      var k :| 0 <= k < |es| && es[k] == e;
      assert k < i || i < k;
    }
    hide DistinctBinds, EntryRow;
  }

  lemma DeleteSpares(st: State, ext: u16, proto: Proto, caller: Ipv4, view: Option<Contain>)
    requires Backed(st)
    ensures SparesOthers(st, Delete(st, ext, proto, caller, view).0, caller)
  {
    hide DeletePort;
    var es, handle := st.entries, IsHandle(ext, proto, caller);
    var i := FirstIndex(es, handle);
    if i < |es| {
      assert es[i] in es;
      EntrySlotIsOwners(st, es[i]);
      DeleteSparesOthers(st.table, es[i].bindPort, caller);
      FilterTwice(es, Not(handle), OwnedByOther(caller), OwnedByOther(caller));
    }
  }

  lemma {:induction false} DeleteAllSpares(st: State, targets: seq<Entry>, c: Contain)
    requires Backed(st) && forall e :: e in targets ==> e.owner == c.caller
    ensures Backed(DeleteAll(st, targets, Some(c)))
    ensures SparesOthers(st, DeleteAll(st, targets, Some(c)), c.caller)
  {
    hide Backed, Delete, OtherEntries, OtherSlots;
    if targets != [] {
      var front, e := targets[..|targets| - 1], targets[|targets| - 1];
      DeleteAllSpares(st, front, c);
      var u := DeleteAll(st, front, Some(c));
      DeleteKeepsBacked(u, e.reqExt, e.proto, e.owner, Some(c));
      DeleteSpares(u, e.reqExt, e.proto, e.owner, Some(c));
    }
  }

  // A contained caller's range delete takes its own entries and slots only.
  lemma ContainedRangeSparesOthers(st: State, start: u16, end: u16, proto: Proto, c: Contain)
    requires Backed(st)
    ensures SparesOthers(st, DeleteRange(st, start, end, proto, Some(c)).0, c.caller)
  {
    hide Backed, DeleteAll, OtherEntries, OtherSlots;
    DeleteAllSpares(st, Filter(st.entries, InRange(start, end, proto, Some(c))), c);
  }

  // ---- the requests that break the agreement ----

  // Who maps for whom: a granted request keeps the identities in agreement exactly when the caller's two
  // lookups, made once pressure has made room, both hit or both miss.
  lemma GrantExactly(st: State, req: MappingReq, owner: Ipv4, view: Option<Contain>, env: GrantEnv)
    requires Agree(st, false) && Grant(st, req, owner, view, env).1.Ok?
    ensures var s := Relieved(Steered(st, Leased(req), owner, env), Leased(req), env);
            Agree(Grant(st, req, owner, view, env).0, false) <==>
            (Exists(s.table.slots, HasKey(KeyOf(req)))
             <==> Exists(s.entries, IsInternal(req.proto, owner, req.intPort)))
  {
    hide Upsert, Recorded, Evict, Agree;
    var leased := Leased(req);
    SteeringKeepsAgreement(st, leased, owner, env);
    var steered := Steered(st, leased, owner, env);
    EvictKeepsAgreement(steered, env.evictNow, req.client, false);
    RecordExactly(Relieved(steered, leased, env), leased, owner, env.now);
  }

  lemma SteeringKeepsAgreement(st: State, req: MappingReq, owner: Ipv4, env: GrantEnv)
    requires Agree(st, false)
    ensures Agree(Steered(st, req, owner, env), false)
  {}

  // Pressure takes another client's slot, so the caller's own entries stay.
  lemma ReliefSparesOwn(st: State, req: MappingReq, env: GrantEnv, p: Entry -> bool)
    requires Backed(st) && forall e :: p(e) ==> e.owner == req.client
    ensures Filter(Relieved(Steered(st, req, req.client, env), req, env).entries, p) == Filter(st.entries, p)
  {
    hide Upsert, DeletePort;
    var s := Steered(st, req, req.client, env);
    var v := Victim(s.table.slots, env.evictNow, LEASE_GRACE, req.client);
    if v.Some? {
      assert v.value in st.table.slots;
      forall e | e in st.entries && p(e) ensures e.bindPort != v.value.bindPort {
        EntrySlotIsOwners(st, e);
      }
      FilterTwice(st.entries, Not(BoundTo(v.value.bindPort)), p, p);
    }
  }

  // After the request the caller would have its label once: a relabelling meets no other entry of the label, a
  // new mapping under label 0 is the first there, and under another label takes over the one entry there.
  ghost predicate LabelAlone(es: seq<Entry>, req: MappingReq) {
    var handle := IsHandle(req.ext, req.proto, req.client);
    if Exists(es, IsInternal(req.proto, req.client, req.intPort)) then NoClash(es, req, req.client)
    else if req.ext == 0 then Count(es, handle) == 0
    else Count(es, handle) <= 1
  }

  lemma LabelAloneSame(es: seq<Entry>, later: seq<Entry>, req: MappingReq, leased: MappingReq)
    requires leased == Leased(req)
    requires var handle, internal := IsHandle(req.ext, req.proto, req.client),
             IsInternal(req.proto, req.client, req.intPort);
             Filter(later, handle) == Filter(es, handle) && Filter(later, internal) == Filter(es, internal)
    ensures LabelAlone(later, leased) == LabelAlone(es, req)
  {
    var handle, internal := IsHandle(req.ext, req.proto, req.client), IsInternal(req.proto, req.client, req.intPort);
    ExistsByFilter(es, internal);
    ExistsByFilter(later, internal);
    assert forall e :: e in Filter(es, handle) <==> e in es && handle(e);
    assert forall e :: e in Filter(later, handle) <==> e in later && handle(e);
  }

  lemma ExistsByFilter(es: seq<Entry>, p: Entry -> bool)
    ensures Exists(es, p) <==> Filter(es, p) != []
  {
    CountZero(es, p);
  }

  // How often the caller has the label once the grant is recorded.
  lemma ApplyCounts(es: seq<Entry>, req: MappingReq, bindPort: u16, now: u64)
    requires InternalsApart(es)
    ensures var n := Count(ApplyEntry(es, req, req.client, bindPort, now).0, IsHandle(req.ext, req.proto, req.client));
            n >= 1 && (n == 1 <==> LabelAlone(es, req))
  {
    hide Filter, InsertAt, RemoveAt;
    var handle, internal := IsHandle(req.ext, req.proto, req.client), IsInternal(req.proto, req.client, req.intPort);
    var i, j := FirstIndex(es, internal), FirstIndex(es, handle);
    var e := EntryFor(req, req.client, bindPort, now);
    if i < |es| {
      var moved := Relabelled(es[i], req, now);
      var rest := RemoveAt(es, i);
      CountRemoveAt(es, i, handle);
      CountInsertAt(rest, FirstIndex(rest, (x: Entry) => Before(moved, x)), moved, handle);
      LabelOfInternal(es, i, req);
    } else if req.ext != 0 && j < |es| {
      CountUpdate(es, j, e, handle);
      CountZero(es, handle);
    } else {
      CountInsertAt(es, FirstIndex(es, (x: Entry) => Before(e, x)), e, handle);
      CountZero(es, handle);
    }
  }

  // Relabelling clashes exactly when some entry other than the relabelled one has the label.
  lemma LabelOfInternal(es: seq<Entry>, i: nat, req: MappingReq)
    requires InternalsApart(es) && i < |es| && i == FirstIndex(es, IsInternal(req.proto, req.client, req.intPort))
    ensures var handle := IsHandle(req.ext, req.proto, req.client);
            NoClash(es, req, req.client) <==> Count(es, handle) == if handle(es[i]) then 1 else 0
    ensures Count(es, IsHandle(req.ext, req.proto, req.client)) >=
            if IsHandle(req.ext, req.proto, req.client)(es[i]) then 1 else 0
  {
    hide Filter;
    var handle := IsHandle(req.ext, req.proto, req.client);
    CountZero(es, handle);
    if handle(es[i]) {
      CountOne(es, i, handle);
    }
    forall j | 0 <= j < |es| && handle(es[j]) ensures es[j].intPort == req.intPort <==> j == i {
      assert j != i ==> !SameInternal(es[j], es[i]);
    }
  }

  lemma SelfAgrees(st: State)
    requires SelfInv(st)
    ensures Agree(st, true) && InternalsApart(st.entries)
  {}

  // A mapping granted to its own caller and then deleted by its label: the delete keeps the agreement exactly
  // when the caller then has the label once, which the entries before the grant already tell.
  lemma GrantThenDeleteExactly(st: State, req: MappingReq, view: Option<Contain>, env: GrantEnv)
    requires SelfInv(st) && Grant(st, req, req.client, view, env).1.Ok?
    ensures var u := Grant(st, req, req.client, view, env).0;
            var once := Count(u.entries, IsHandle(req.ext, req.proto, req.client)) == 1;
            (Agree(Delete(u, req.ext, req.proto, req.client, None).0, true) <==> once)
            && (once <==> LabelAlone(st.entries, req))
  {
    hide Upsert, Relieved, Steered, SelfInv, Agree, LookupsMeet, ApplyEntry, DeletePort, LabelAlone, IsHandle,
      GrantMeets;
    var u := Grant(st, req, req.client, view, env).0;
    var handle, leased := IsHandle(req.ext, req.proto, req.client), Leased(req);
    GrantedCounts(st, req, view, env);
    SelfGrantMeets(st, req, view, env);
    SelfAgrees(st);
    GrantAgreesExactly(st, req, req.client, view, env);
    CountZero(u.entries, handle);
    DeleteExactly(u, req.ext, req.proto, req.client, None, true);
  }

  lemma GrantedCounts(st: State, req: MappingReq, view: Option<Contain>, env: GrantEnv)
    requires SelfInv(st) && Grant(st, req, req.client, view, env).1.Ok?
    ensures var n := Count(Grant(st, req, req.client, view, env).0.entries, IsHandle(req.ext, req.proto, req.client));
            n >= 1 && (n == 1 <==> LabelAlone(st.entries, req))
  {
    var handle, internal := IsHandle(req.ext, req.proto, req.client), IsInternal(req.proto, req.client, req.intPort);
    assert forall e :: handle(e) || internal(e) ==> e.owner == req.client;
    hide Upsert, Relieved, Steered, SelfInv, Backed, ApplyEntry, DeletePort, LabelAlone, IsHandle, IsInternal;
    var leased := Leased(req);
    var s := Relieved(Steered(st, leased, req.client, env), leased, env);
    SelfIsBacked(st);
    ReliefSparesOwn(st, leased, env, handle);
    ReliefSparesOwn(st, leased, env, internal);
    LabelAloneSame(st.entries, s.entries, req, leased);
    ReliefKeepsSelf(st, leased, req.client, env);
    SelfAgrees(s);
    ApplyCounts(s.entries, leased, UpsertFor(s.table, leased, env.now).1.bindPort, env.now);
  }

  // The wildcard's label is the lowest from 1024 up that no entry of the protocol has, unless none is left;
  // such a label never clashes.
  lemma WildcardLabelIsFree(es: seq<Entry>, req: MappingReq, owner: Ipv4)
    requires req.ext == 0
    ensures var ext := PreferredLabel(es, req.ext, req.proto);
            1024 <= ext
            && (ext < 65_535 ==> ext !in LabelsOf(es, req.proto) && NoClash(es, req.(ext := ext), owner))
            && (forall p: u16 :: 1024 <= p < ext ==> p in LabelsOf(es, req.proto))
  {
    var ext := PreferredLabel(es, req.ext, req.proto);
    if ext < U16_MAX {
      forall e | e in es && e.proto == req.proto ensures e.reqExt != ext {
        assert e.reqExt in LabelsOf(es, req.proto);
      }
    }
  }
}
