// Agreement of the two structures: granted slots and index entries describe the same mappings.
//
// Both sides are projected to sets of rows. With `terms` the rows carry lifetime and expiry; without, they
// carry the identity of the mapping only: its bind port, protocol, client and internal port.
module Agreement {
  import opened Net
  import opened Seqs
  import opened LeaseTables
  import opened TableLaws
  import opened Facade

  datatype Row = Row(bindPort: u16, proto: Proto, client: Ipv4, intPort: u16, lifetime: u32, expires: u64)

  function SlotRow(s: Slot, terms: bool): Row
    requires s.lease.Granted?
  {
    Row(s.bindPort, s.proto, s.lease.client, s.lease.intPort,
        if terms then s.lease.lifetime else 0, if terms then s.lease.expires else 0)
  }

  function EntryRow(e: Entry, terms: bool): Row {
    Row(e.bindPort, e.proto, e.client, e.intPort, if terms then e.lifetime else 0, if terms then e.expires else 0)
  }

  ghost function GrantRows(slots: seq<Slot>, terms: bool): set<Row> {
    set s | s in slots && s.lease.Granted? :: SlotRow(s, terms)
  }

  ghost function EntryRows(es: seq<Entry>, terms: bool): set<Row> {
    set e | e in es :: EntryRow(e, terms)
  }

  ghost predicate DistinctBinds(es: seq<Entry>) {
    forall i, j :: 0 <= i < j < |es| ==> es[i].bindPort != es[j].bindPort
  }

  // Same mappings on both sides, each once. Ports being distinct, this is a bijection of granted slots and entries.
  ghost predicate Agree(st: State, terms: bool) {
    TableInv(st.table) && DistinctBinds(st.entries)
    && GrantRows(st.table.slots, terms) == EntryRows(st.entries, terms)
  }

  ghost function WithoutPort(rows: set<Row>, port: u16): set<Row> {
    set r | r in rows && r.bindPort != port
  }

  // ---- rows of the table ----

  lemma RowsAfterDelete(t: Table, port: u16, terms: bool)
    requires DistinctPorts(t.slots)
    ensures GrantRows(DeletePort(t, port).slots, terms) == WithoutPort(GrantRows(t.slots, terms), port)
  {
    hide DeletePort;
    DeleteMembers(t, port);
    var u := DeletePort(t, port).slots;
    forall r ensures r in GrantRows(u, terms) <==> r in WithoutPort(GrantRows(t.slots, terms), port) {
      if r in GrantRows(u, terms) {
        var s :| s in u && s.lease.Granted? && SlotRow(s, terms) == r;
        assert s in t.slots;
      }
      if r in WithoutPort(GrantRows(t.slots, terms), port) {
        var s :| s in t.slots && s.lease.Granted? && SlotRow(s, terms) == r;
        assert s in u;
      }
    }
  }

  lemma RowsAfterAppend(slots: seq<Slot>, s: Slot, terms: bool)
    requires s.lease.Granted?
    ensures GrantRows(slots + [s], terms) == GrantRows(slots, terms) + {SlotRow(s, terms)}
  {}

  lemma RowsAfterUpdate(slots: seq<Slot>, i: nat, s: Slot, terms: bool)
    requires DistinctPorts(slots) && i < |slots| && s.lease.Granted?
    ensures GrantRows(slots[i := s], terms) ==
            WithoutPort(GrantRows(slots, terms), slots[i].bindPort) + {SlotRow(s, terms)}
  {
    var u := slots[i := s];
    assert u[i] == s;
    forall r ensures r in GrantRows(u, terms) <==>
                     r in WithoutPort(GrantRows(slots, terms), slots[i].bindPort) + {SlotRow(s, terms)} {
      if r in GrantRows(u, terms) {
        var o :| o in u && o.lease.Granted? && SlotRow(o, terms) == r;
        var k :| 0 <= k < |u| && u[k] == o;
        assert k != i ==> slots[k] in slots;
      }
      if r in WithoutPort(GrantRows(slots, terms), slots[i].bindPort) {
        var o :| o in slots && o.lease.Granted? && SlotRow(o, terms) == r;
        var k :| 0 <= k < |slots| && slots[k] == o;
        assert u[k] in u;
      }
    }
  }

  // ---- rows of the index ----

  lemma RowsAfterRemoveAt(es: seq<Entry>, i: nat, terms: bool)
    requires DistinctBinds(es) && i < |es|
    ensures EntryRows(RemoveAt(es, i), terms) == WithoutPort(EntryRows(es, terms), es[i].bindPort)
    ensures DistinctBinds(RemoveAt(es, i)) && es[i].bindPort !in BindsOf(RemoveAt(es, i))
  {
    RemovedByBind(es, i);
    hide RemoveAt, DistinctBinds;
    RowsOffPort(es, RemoveAt(es, i), es[i].bindPort, terms);
  }

  lemma RemovedByBind(es: seq<Entry>, i: nat)
    requires DistinctBinds(es) && i < |es|
    ensures DistinctBinds(RemoveAt(es, i))
    ensures forall e :: e in RemoveAt(es, i) <==> e in es && e.bindPort != es[i].bindPort
  {
    var u := RemoveAt(es, i);
    assert forall k :: 0 <= k < |u| ==> u[k] == es[if k < i then k else k + 1];
    forall e | e in es && e.bindPort != es[i].bindPort ensures e in u {
      var k :| 0 <= k < |es| && es[k] == e;
      assert u[if k < i then k else k - 1] == e;
    }
  }

  // Entries off a port have the rows off it.
  lemma RowsOffPort(es: seq<Entry>, some: seq<Entry>, port: u16, terms: bool)
    requires forall e :: e in some <==> e in es && e.bindPort != port
    ensures EntryRows(some, terms) == WithoutPort(EntryRows(es, terms), port)
  {
    forall r ensures r in EntryRows(some, terms) <==> r in WithoutPort(EntryRows(es, terms), port) {
      if r in WithoutPort(EntryRows(es, terms), port) {
        var e :| e in es && EntryRow(e, terms) == r;
        assert e in some;
      }
    }
  }

  ghost function BindsOf(es: seq<Entry>): set<u16> {
    set e | e in es :: e.bindPort
  }

  lemma RowsAfterInsert(es: seq<Entry>, i: nat, e: Entry, terms: bool)
    requires i <= |es|
    ensures EntryRows(InsertAt(es, i, e), terms) == EntryRows(es, terms) + {EntryRow(e, terms)}
  {
    var u := InsertAt(es, i, e);
    assert u[i] == e;
    assert forall k :: 0 <= k < |es| ==> es[k] == u[if k < i then k else k + 1];
    assert forall x :: x in u <==> x in es || x == e;
  }

  // An insertion keeps bind ports distinct exactly when the new one is not in the index yet.
  lemma DistinctAfterInsert(es: seq<Entry>, i: nat, e: Entry)
    requires i <= |es| && DistinctBinds(es)
    ensures DistinctBinds(InsertAt(es, i, e)) <==> e.bindPort !in BindsOf(es)
  {
    var u := InsertAt(es, i, e);
    if e.bindPort in BindsOf(es) {
      var x :| x in es && x.bindPort == e.bindPort;
      var k :| 0 <= k < |es| && es[k] == x;
      assert u[i].bindPort == u[if k < i then k else k + 1].bindPort;
    } else {
      assert forall k :: 0 <= k < |es| ==> es[k].bindPort in BindsOf(es);
    }
  }

  lemma RowsAfterRewrite(es: seq<Entry>, i: nat, e: Entry, terms: bool)
    requires DistinctBinds(es) && i < |es|
    ensures EntryRows(es[i := e], terms) == WithoutPort(EntryRows(es, terms), es[i].bindPort) + {EntryRow(e, terms)}
    ensures e.bindPort == es[i].bindPort || e.bindPort !in BindsOf(es) ==> DistinctBinds(es[i := e])
  {
    assert forall k :: 0 <= k < |es| ==> es[k].bindPort in BindsOf(es);
    assert es[i := e] == InsertAt(RemoveAt(es, i), i, e);
    RowsAfterRemoveAt(es, i, terms);
    RowsAfterInsert(RemoveAt(es, i), i, e, terms);
    DistinctAfterInsert(RemoveAt(es, i), i, e);
    assert BindsOf(RemoveAt(es, i)) <= BindsOf(es);
  }

  // Dropping the entries bound to some ports drops their rows.
  lemma RowsAfterFilter(es: seq<Entry>, p: Entry -> bool, ports: set<u16>, terms: bool)
    requires DistinctBinds(es)
    requires forall e :: e in es ==> (p(e) <==> e.bindPort !in ports)
    ensures EntryRows(Filter(es, p), terms) == set r | r in EntryRows(es, terms) && r.bindPort !in ports
    ensures DistinctBinds(Filter(es, p))
  {
    FilterKeepsPairs(es, p, (a: Entry, b: Entry) => a.bindPort != b.bindPort);
    var u := Filter(es, p);
    forall r ensures r in EntryRows(u, terms) <==> r in EntryRows(es, terms) && r.bindPort !in ports {
      if r in EntryRows(u, terms) {
        var e :| e in u && EntryRow(e, terms) == r;
      }
      if r in EntryRows(es, terms) && r.bindPort !in ports {
        var e :| e in es && EntryRow(e, terms) == r;
        assert e in u;
      }
    }
  }

  // In agreement, an entry's port is held by the granted slot it describes.
  lemma EntryHasSlot(st: State, terms: bool, e: Entry) returns (s: Slot)
    requires Agree(st, terms) && e in st.entries
    ensures s in st.table.slots && s.lease.Granted? && SlotRow(s, terms) == EntryRow(e, terms)
    ensures e.bindPort in Held(st.table.slots)
  {
    assert EntryRow(e, terms) in EntryRows(st.entries, terms);
    s :| s in st.table.slots && s.lease.Granted? && SlotRow(s, terms) == EntryRow(e, terms);
  }

  lemma SlotHasEntry(st: State, terms: bool, s: Slot) returns (e: Entry)
    requires Agree(st, terms) && s in st.table.slots && s.lease.Granted?
    ensures e in st.entries && EntryRow(e, terms) == SlotRow(s, terms)
  {
    assert SlotRow(s, terms) in GrantRows(st.table.slots, terms);
    e :| e in st.entries && EntryRow(e, terms) == SlotRow(s, terms);
  }

  // Agreement on terms contains agreement on identity.
  lemma TermsThenIdentity(st: State)
    requires Agree(st, true)
    ensures Agree(st, false)
  {
    forall r ensures r in GrantRows(st.table.slots, false) <==> r in EntryRows(st.entries, false) {
      if r in GrantRows(st.table.slots, false) {
        var s :| s in st.table.slots && s.lease.Granted? && SlotRow(s, false) == r;
        var e := SlotHasEntry(st, true, s);
        assert EntryRow(e, false) == r;
      }
      if r in EntryRows(st.entries, false) {
        var e :| e in st.entries && EntryRow(e, false) == r;
        var s := EntryHasSlot(st, true, e);
        assert SlotRow(s, false) == r;
      }
    }
  }

  // ---- steps that change a port on both sides ----

  lemma DropPortKeepsAgreement(st: State, port: u16, terms: bool)
    requires Agree(st, terms)
    ensures Agree(DropPort(st, port), terms)
  {
    RowsAfterDelete(st.table, port, terms);
    DeleteKeeps(st.table, port);
    RowsAfterFilter(st.entries, Not(BoundTo(port)), {port}, terms);
  }

  lemma EvictKeepsAgreement(st: State, now: u64, requester: Ipv4, terms: bool)
    requires Agree(st, terms)
    ensures Agree(Evict(st, now, requester).0, terms)
  {
    hide DropPort, Victim;
    var v := Victim(st.table.slots, now, LEASE_GRACE, requester);
    if v.Some? {
      DropPortKeepsAgreement(st, v.value.bindPort, terms);
    }
  }

  // A collector pass frees the same ports on both sides.
  lemma CollectKeepsAgreement(st: State, survives: Slot -> bool, terms: bool)
    requires Agree(st, terms)
    ensures Agree(Collect(st, survives), terms)
  {
    var slots := st.table.slots;
    var gone := Filter(slots, Not(survives));
    var freed := Ports(gone);
    var ports := set p | p in freed;
    KeepKeeps(st.table, survives);
    RowsAfterFilter(st.entries, BoundOutside(freed), ports, terms);
    forall s | s in slots ensures survives(s) <==> s.bindPort !in ports {
      SurvivesByPort(slots, survives, s);
    }
    var kept := Filter(slots, survives);
    forall r ensures r in GrantRows(kept, terms) <==> r in GrantRows(slots, terms) && r.bindPort !in ports {
      if r in GrantRows(kept, terms) {
        var s :| s in kept && s.lease.Granted? && SlotRow(s, terms) == r;
        assert s in slots;
      }
      if r in GrantRows(slots, terms) && r.bindPort !in ports {
        var s :| s in slots && s.lease.Granted? && SlotRow(s, terms) == r;
        assert s in kept;
      }
    }
  }

  // Ports being distinct, a slot is freed exactly when its port is.
  lemma SurvivesByPort(slots: seq<Slot>, survives: Slot -> bool, s: Slot)
    requires DistinctPorts(slots) && s in slots
    ensures survives(s) <==> s.bindPort !in Ports(Filter(slots, Not(survives)))
  {
    var gone := Filter(slots, Not(survives));
    if !survives(s) {
      assert s in gone;
      var k :| 0 <= k < |gone| && gone[k] == s;
      assert Ports(gone)[k] == s.bindPort;
    }
    if s.bindPort in Ports(gone) {
      var k :| 0 <= k < |gone| && Ports(gone)[k] == s.bindPort;
      assert gone[k] in gone && gone[k] in slots;
      var a :| 0 <= a < |slots| && slots[a] == s;
      var b :| 0 <= b < |slots| && slots[b] == gone[k];
    }
  }

  lemma StampKeepsAgreement(st: State, port: u16, now: u64, minInterval: u64, terms: bool)
    requires Agree(st, terms)
    ensures Agree(st.(table := Stamp(st.table, port, now, minInterval)), terms)
  {
    StampKeeps(st.table, port, now, minInterval);
    var slots := st.table.slots;
    var i := FirstIndex(slots, HasPort(port));
    if i < |slots| {
      var s := slots[i].(lastActivity := now);
      forall r ensures r in GrantRows(slots[i := s], terms) <==> r in GrantRows(slots, terms) {
        if r in GrantRows(slots[i := s], terms) {
          var o :| o in slots[i := s] && o.lease.Granted? && SlotRow(o, terms) == r;
          var k :| 0 <= k < |slots| && slots[i := s][k] == o;
          assert slots[k] in slots;
        }
        if r in GrantRows(slots, terms) {
          var o :| o in slots && o.lease.Granted? && SlotRow(o, terms) == r;
          var k :| 0 <= k < |slots| && slots[k] == o;
          assert slots[i := s][k] in slots[i := s];
        }
      }
    }
  }

  lemma {:induction false} StampPortsKeepsAgreement(st: State, es: seq<Entry>, client: Ipv4, now: u64, terms: bool)
    requires Agree(st, terms)
    ensures Agree(st.(table := StampPorts(st.table, es, client, now)), terms)
  {
    if es != [] {
      var u := st.(table := StampPorts(st.table, es[..|es| - 1], client, now));
      StampPortsKeepsAgreement(st, es[..|es| - 1], client, now, terms);
      StampKeepsAgreement(u, es[|es| - 1].bindPort, now, 0, terms);
    }
  }

  // The slot an entry is bound to, where a yield finds it.
  lemma YieldFindsSlot(st: State, oldPort: u16, terms: bool)
    requires Agree(st, terms) && FirstIndex(st.entries, BoundTo(oldPort)) < |st.entries|
    ensures var e := st.entries[FirstIndex(st.entries, BoundTo(oldPort))];
            var k := FirstIndex(st.table.slots, HasPort(oldPort));
            k < |st.table.slots| && st.table.slots[k].lease.Granted?
            && SlotRow(st.table.slots[k], terms) == EntryRow(e, terms)
  {
    var e := st.entries[FirstIndex(st.entries, BoundTo(oldPort))];
    var s := EntryHasSlot(st, terms, e);
    FoundByPort(st.table.slots, s);
  }

  // A yield whose datapath fails puts the slot back where it was; only its port stays reserved.
  lemma FailedYieldOnlyReserves(t: Table, oldPort: u16)
    requires MovePort(t, oldPort).1.Some?
    ensures RestorePort(MovePort(t, oldPort).0, MovePort(t, oldPort).1.value, oldPort)
            == t.(avoid := t.avoid + {oldPort})
  {
    var (u, moved) := MovePort(t, oldPort);
    var k := FirstIndex(t.slots, HasPort(oldPort));
    assert forall j :: 0 <= j < |t.slots| ==> t.slots[j].bindPort in Held(t.slots);
    assert HasPort(moved.value)(u.slots[k]);
    assert FirstIndex(u.slots, HasPort(moved.value)) == k;
    assert u.slots[k := u.slots[k].(bindPort := oldPort)] == t.slots;
  }

  // A yield moves both sides to the new port.
  lemma YieldKeepsAgreement(st: State, oldPort: u16, datapathUp: bool, terms: bool)
    requires Agree(st, terms)
    ensures Agree(Yield(st, oldPort, datapathUp), terms)
  {
    var i := FirstIndex(st.entries, BoundTo(oldPort));
    var slots := st.table.slots;
    if i < |st.entries| {
      YieldFindsSlot(st, oldPort, terms);
      var (t, moved) := MovePort(st.table, oldPort);
      MoveKeeps(st.table, oldPort);
      if moved.Some? {
        if datapathUp {
          MovedPortIsNew(st, terms, moved.value);
          var k := FirstIndex(slots, HasPort(oldPort));
          RowsAfterUpdate(slots, k, slots[k].(bindPort := moved.value), terms);
          RowsAfterRewrite(st.entries, i, st.entries[i].(bindPort := moved.value), terms);
        } else {
          FailedYieldOnlyReserves(st.table, oldPort);
        }
      }
    }
  }

  // A port no slot holds is in no entry either.
  lemma MovedPortIsNew(st: State, terms: bool, port: u16)
    requires Agree(st, terms) && port !in Held(st.table.slots)
    ensures port !in BindsOf(st.entries)
  {
    if port in BindsOf(st.entries) {
      var x :| x in st.entries && x.bindPort == port;
      var _ := EntryHasSlot(st, terms, x);
    }
  }
}
