// When a step keeps the table and the index in agreement, exactly; and what every run keeps.
module FacadeLaws {
  import opened Net
  import opened Seqs
  import opened LeaseTables
  import opened TableLaws
  import opened Facade
  import opened Agreement

  // ---- delete: exactly when ----

  // A delete takes one slot but every entry of the caller under the label, so it keeps the agreement
  // exactly when the caller has that label once.
  lemma DeleteExactly(st: State, ext: u16, proto: Proto, caller: Ipv4, view: Option<Contain>, terms: bool)
    requires Agree(st, terms) && Delete(st, ext, proto, caller, view).1.Ok?
    ensures Agree(Delete(st, ext, proto, caller, view).0, terms) <==>
            Count(st.entries, IsHandle(ext, proto, caller)) == 1
  {
    hide DeletePort;
    var es, handle := st.entries, IsHandle(ext, proto, caller);
    var i := FirstIndex(es, handle);
    var after := Delete(st, ext, proto, caller, view).0;
    RowsAfterDelete(st.table, es[i].bindPort, terms);
    DeleteKeeps(st.table, es[i].bindPort);
    CountOne(es, i, handle);
    if forall j :: 0 <= j < |es| && j != i ==> !handle(es[j]) {
      RowsAfterFilter(es, Not(handle), {es[i].bindPort}, terms);
    } else {
      var j :| 0 <= j < |es| && j != i && handle(es[j]);
      OrphanRow(st, after, i, j, terms);
    }
  }

  // An entry dropped without its slot leaves the slot's row behind.
  lemma OrphanRow(st: State, after: State, i: nat, j: nat, terms: bool)
    requires Agree(st, terms) && i < |st.entries| && j < |st.entries| && i != j
    requires GrantRows(after.table.slots, terms) ==
             WithoutPort(GrantRows(st.table.slots, terms), st.entries[i].bindPort)
    requires forall e :: e in after.entries ==> e in st.entries && e != st.entries[j]
    ensures !Agree(after, terms)
  {
    var row := EntryRow(st.entries[j], terms);
    assert st.entries[j] in st.entries;
    assert row in GrantRows(after.table.slots, terms);
    forall e | e in after.entries ensures EntryRow(e, terms) != row {
      var k :| 0 <= k < |st.entries| && st.entries[k] == e;
      assert k < j || j < k;
    }
  }

  // ---- record: exactly when ----

  // A fresh slot whose owner has no entry at the internal port is recorded in agreement: added, or taking
  // over the owner's label, whose abandoned slot goes.
  lemma FreshIsRecorded(st: State, req: MappingReq, owner: Ipv4, now: u64, terms: bool)
    requires Agree(st, terms) && UpsertFor(st.table, req, now).1.GrantedAt?
    requires !Exists(st.entries, IsInternal(req.proto, owner, req.intPort))
    ensures var (t, o) := UpsertFor(st.table, req, now);
            Agree(Recorded(st.(table := t), req, owner, o.bindPort, now), terms)
  {
    hide Upsert, DeletePort;
    var (t, o) := UpsertFor(st.table, req, now);
    var b, es := o.bindPort, st.entries;
    FreshRows(st.table, req, now, terms);
    MovedPortIsNew(st, terms, b);
    var e := EntryFor(req, owner, b, now);
    var j := FirstIndex(es, IsHandle(req.ext, req.proto, owner));
    if req.ext != 0 && j < |es| {
      assert es[j].bindPort in BindsOf(es);
      RowsAfterRewrite(es, j, e, terms);
      RowsAfterDelete(t, es[j].bindPort, terms);
      DeleteKeeps(t, es[j].bindPort);
    } else {
      var at := FirstIndex(es, (x: Entry) => Before(e, x));
      RowsAfterInsert(es, at, e, terms);
      DistinctAfterInsert(es, at, e);
    }
  }

  // What an admitted upsert does to the rows.
  lemma FreshRows(t: Table, req: MappingReq, now: u64, terms: bool)
    requires TableInv(t) && UpsertFor(t, req, now).1.GrantedAt?
    ensures var (u, o) := UpsertFor(t, req, now);
            TableInv(u) && o.bindPort !in Held(t.slots)
            && GrantRows(u.slots, terms) ==
               GrantRows(t.slots, terms) + {EntryRow(EntryFor(req, req.client, o.bindPort, now), terms)}
  {
    UpsertKeeps(t, KeyOf(req), req.lifetime, now, req.client, req.intPort);
    UpsertPort(t, KeyOf(req), req.lifetime, now, req.client, req.intPort);
    var b := UpsertFor(t, req, now).1.bindPort;
    RowsAfterAppend(t.slots, FreshSlot(b, KeyOf(req), req.lifetime, now, req.client, req.intPort), terms);
  }

  lemma RefreshedRows(t: Table, req: MappingReq, now: u64, terms: bool)
    requires TableInv(t) && UpsertFor(t, req, now).1.RefreshedAt?
    ensures var (u, o) := UpsertFor(t, req, now);
            TableInv(u)
            && (exists s :: s in t.slots && s.PcpKey() == Some(KeyOf(req)) && s.bindPort == o.bindPort)
            && GrantRows(u.slots, terms) ==
               WithoutPort(GrantRows(t.slots, terms), o.bindPort)
               + {EntryRow(EntryFor(req, req.client, o.bindPort, now), terms)}
  {
    UpsertKeeps(t, KeyOf(req), req.lifetime, now, req.client, req.intPort);
    var i := FirstIndex(t.slots, HasKey(KeyOf(req)));
    assert t.slots[i] in t.slots;
    RowsAfterUpdate(t.slots, i, Refreshed(t.slots[i], req.lifetime, now), terms);
  }

  // A refresh finds its entry when the owner has one at the internal port. For the terms to agree it has to
  // be the entry of the refreshed slot.
  lemma RefreshIsRecorded(st: State, req: MappingReq, owner: Ipv4, now: u64, terms: bool)
    requires Agree(st, terms) && UpsertFor(st.table, req, now).1.RefreshedAt?
    requires Exists(st.entries, IsInternal(req.proto, owner, req.intPort))
    requires terms ==> st.entries[FirstIndex(st.entries, IsInternal(req.proto, owner, req.intPort))].bindPort
                       == UpsertFor(st.table, req, now).1.bindPort
    ensures var (t, o) := UpsertFor(st.table, req, now);
            Agree(Recorded(st.(table := t), req, owner, o.bindPort, now), terms)
  {
    hide Upsert;
    var (t, o) := UpsertFor(st.table, req, now);
    var b, es := o.bindPort, st.entries;
    var i := FirstIndex(es, IsInternal(req.proto, owner, req.intPort));
    RefreshedRows(st.table, req, now, terms);
    var s :| s in st.table.slots && s.PcpKey() == Some(KeyOf(req)) && s.bindPort == b;
    RowsAfterRemoveAt(es, i, terms);
    var e := Relabelled(es[i], req, now);
    var rest := RemoveAt(es, i);
    var at := FirstIndex(rest, (x: Entry) => Before(e, x));
    RowsAfterInsert(rest, at, e, terms);
    DistinctAfterInsert(rest, at, e);
    OneRowPerPort(st, s, terms);
    assert es[i] in es;
    if terms {
      OneEntryPerPort(st, es[i], s);
    } else {
      RowsByPort(st, es[i].bindPort, EntryRow(es[i], false), false);
      RowsByPort(st, b, SlotRow(s, false), false);
    }
  }

  lemma OneRowPerPort(st: State, s: Slot, terms: bool)
    requires Agree(st, terms) && s in st.table.slots && s.lease.Granted?
    ensures SlotRow(s, terms) in GrantRows(st.table.slots, terms)
  {}

  // In agreement a row is recovered from its port.
  lemma RowsByPort(st: State, port: u16, row: Row, terms: bool)
    requires Agree(st, terms) && row in GrantRows(st.table.slots, terms) && row.bindPort == port
    ensures WithoutPort(GrantRows(st.table.slots, terms), port) + {row} == GrantRows(st.table.slots, terms)
  {
    forall r | r in GrantRows(st.table.slots, terms) && r.bindPort == port ensures r == row {
      var s :| s in st.table.slots && s.lease.Granted? && SlotRow(s, terms) == r;
      var o :| o in st.table.slots && o.lease.Granted? && SlotRow(o, terms) == row;
      FoundByPort(st.table.slots, s);
      FoundByPort(st.table.slots, o);
    }
  }

  // In agreement, an entry and a slot on one port carry the same mapping.
  lemma OneEntryPerPort(st: State, e: Entry, s: Slot)
    requires Agree(st, true) && e in st.entries && s in st.table.slots && s.lease.Granted?
    requires e.bindPort == s.bindPort
    ensures EntryRow(e, true) == SlotRow(s, true)
  {
    var o := EntryHasSlot(st, true, e);
    FoundByPort(st.table.slots, s);
    FoundByPort(st.table.slots, o);
  }

  // The caller's own lookups must both hit or both miss: the table is searched under the target's address,
  // the index under the owner's. Recording an admitted mapping keeps the identities in agreement exactly then.
  lemma RecordExactly(st: State, req: MappingReq, owner: Ipv4, now: u64)
    requires Agree(st, false) && Admitted(UpsertFor(st.table, req, now).1)
    ensures var (t, o) := UpsertFor(st.table, req, now);
            Agree(Recorded(st.(table := t), req, owner, o.bindPort, now), false) <==>
            (Exists(st.table.slots, HasKey(KeyOf(req)))
             <==> Exists(st.entries, IsInternal(req.proto, owner, req.intPort)))
  {
    var (t, o) := UpsertFor(st.table, req, now);
    var es := st.entries;
    assert o.RefreshedAt? <==> Exists(st.table.slots, HasKey(KeyOf(req)));
    if o.GrantedAt? && !Exists(es, IsInternal(req.proto, owner, req.intPort)) {
      FreshIsRecorded(st, req, owner, now, false);
    } else if o.RefreshedAt? && Exists(es, IsInternal(req.proto, owner, req.intPort)) {
      RefreshIsRecorded(st, req, owner, now, false);
    } else if o.GrantedAt? {
      FreshSlotUnrecorded(st, req, owner, now);
    } else {
      RefreshedSlotShared(st, req, owner, now);
    }
  }

  // A fresh slot beside an entry the owner already has at that internal port: the old entry is relabelled
  // and the slot gets none.
  lemma FreshSlotUnrecorded(st: State, req: MappingReq, owner: Ipv4, now: u64)
    requires Agree(st, false) && UpsertFor(st.table, req, now).1.GrantedAt?
    requires Exists(st.entries, IsInternal(req.proto, owner, req.intPort))
    ensures var (t, o) := UpsertFor(st.table, req, now);
            !Agree(Recorded(st.(table := t), req, owner, o.bindPort, now), false)
  {
    hide Upsert;
    var (t, o) := UpsertFor(st.table, req, now);
    var b, es := o.bindPort, st.entries;
    FreshRows(st.table, req, now, false);
    MovedPortIsNew(st, false, b);
    var i := FirstIndex(es, IsInternal(req.proto, owner, req.intPort));
    var e := Relabelled(es[i], req, now);
    var after := InsertSorted(RemoveAt(es, i), e);
    var row := EntryRow(EntryFor(req, req.client, b, now), false);
    assert row in GrantRows(t.slots, false);
    assert es[i] in es;
    forall x | x in after ensures x.bindPort != b {
      assert x in es || x == e;
    }
  }

  // A refreshed slot whose entry belongs to another owner: a second entry appears on the same port.
  lemma RefreshedSlotShared(st: State, req: MappingReq, owner: Ipv4, now: u64)
    requires Agree(st, false) && UpsertFor(st.table, req, now).1.RefreshedAt?
    requires !Exists(st.entries, IsInternal(req.proto, owner, req.intPort))
    ensures var (t, o) := UpsertFor(st.table, req, now);
            !Agree(Recorded(st.(table := t), req, owner, o.bindPort, now), false)
  {
    hide Upsert, DeletePort;
    var (t, o) := UpsertFor(st.table, req, now);
    var b, es := o.bindPort, st.entries;
    RefreshedRows(st.table, req, now, false);
    var s :| s in st.table.slots && s.PcpKey() == Some(KeyOf(req)) && s.bindPort == b;
    var ec := SlotHasEntry(st, false, s);
    var k :| 0 <= k < |es| && es[k] == ec;
    assert !IsInternal(req.proto, owner, req.intPort)(es[k]);
    var e := EntryFor(req, owner, b, now);
    var j := FirstIndex(es, IsHandle(req.ext, req.proto, owner));
    if req.ext != 0 && j < |es| {
      assert es[j := e][j].bindPort == es[j := e][k].bindPort;
    } else {
      assert ec.bindPort in BindsOf(es);
      DistinctAfterInsert(es, FirstIndex(es, (x: Entry) => Before(e, x)), e);
    }
  }

  // ---- recording and the terms ----

  // The two lookups of an admitted request meet when both miss, when both hit the same mapping, or when the
  // mappings they hit apart already carry the terms the request asks for.
  ghost predicate LookupsMeet(st: State, req: MappingReq, owner: Ipv4, now: u64) {
    var i := FirstIndex(st.table.slots, HasKey(KeyOf(req)));
    var k := FirstIndex(st.entries, IsInternal(req.proto, owner, req.intPort));
    if i == |st.table.slots| || k == |st.entries| then i == |st.table.slots| && k == |st.entries|
    else
      st.entries[k].bindPort == st.table.slots[i].bindPort
      || (HasTerms(st.table.slots[i], req.lifetime, SatAdd(now, req.lifetime))
          && st.entries[k].lifetime == req.lifetime && st.entries[k].expires == SatAdd(now, req.lifetime))
  }

  predicate HasTerms(s: Slot, lifetime: u32, expires: u64) {
    s.lease.Granted? && s.lease.lifetime == lifetime && s.lease.expires == expires
  }

  // Recording an admitted mapping keeps the terms in agreement exactly when the lookups meet.
  lemma RecordTermsExactly(st: State, req: MappingReq, owner: Ipv4, now: u64)
    requires Agree(st, true) && Admitted(UpsertFor(st.table, req, now).1)
    ensures var (t, o) := UpsertFor(st.table, req, now);
            Agree(Recorded(st.(table := t), req, owner, o.bindPort, now), true) <==> LookupsMeet(st, req, owner, now)
  {
    var (t, o) := UpsertFor(st.table, req, now);
    var after := Recorded(st.(table := t), req, owner, o.bindPort, now);
    var i := FirstIndex(st.table.slots, HasKey(KeyOf(req)));
    var k := FirstIndex(st.entries, IsInternal(req.proto, owner, req.intPort));
    TermsThenIdentity(st);
    RecordExactly(st, req, owner, now);
    assert o.RefreshedAt? <==> i < |st.table.slots|;
    hide Agree, Recorded, Upsert;
    if Agree(after, true) {
      TermsThenIdentity(after);
    }
    if i == |st.table.slots| {
      if k == |st.entries| {
        FreshIsRecorded(st, req, owner, now, true);
      }
    } else if k < |st.entries| {
      RefreshedSlot(st, req, now);
      if st.entries[k].bindPort == o.bindPort {
        RefreshIsRecorded(st, req, owner, now, true);
      } else {
        RefreshApartExactly(st, req, owner, now);
      }
    }
  }

  lemma RefreshedSlot(st: State, req: MappingReq, now: u64)
    requires UpsertFor(st.table, req, now).1.RefreshedAt?
    ensures var i := FirstIndex(st.table.slots, HasKey(KeyOf(req)));
            i < |st.table.slots| && st.table.slots[i].bindPort == UpsertFor(st.table, req, now).1.bindPort
  {}

  // The slot of one mapping is refreshed and the entry of another rewritten.
  lemma RefreshApartExactly(st: State, req: MappingReq, owner: Ipv4, now: u64)
    requires Agree(st, true) && UpsertFor(st.table, req, now).1.RefreshedAt?
    requires Exists(st.entries, IsInternal(req.proto, owner, req.intPort))
    requires st.entries[FirstIndex(st.entries, IsInternal(req.proto, owner, req.intPort))].bindPort
             != UpsertFor(st.table, req, now).1.bindPort
    ensures var (t, o) := UpsertFor(st.table, req, now);
            Agree(Recorded(st.(table := t), req, owner, o.bindPort, now), true) <==> LookupsMeet(st, req, owner, now)
  {
    var (t, o) := UpsertFor(st.table, req, now);
    var es := st.entries;
    var i := FirstIndex(st.table.slots, HasKey(KeyOf(req)));
    var k := FirstIndex(es, IsInternal(req.proto, owner, req.intPort));
    var s, e := st.table.slots[i], es[k];
    RefreshedSlot(st, req, now);
    assert s in st.table.slots && e in es && HasKey(KeyOf(req))(s);
    var moved := Relabelled(e, req, now);
    RefreshedRows(st.table, req, now, true);
    RelabelledRows(es, k, moved, true);
    var expires := SatAdd(now, req.lifetime);
    var after := Recorded(st.(table := t), req, owner, o.bindPort, now);
    var asked := EntryRow(EntryFor(req, req.client, o.bindPort, now), true);
    assert asked == SlotRow(s, true) <==> HasTerms(s, req.lifetime, expires);
    hide Upsert, InsertSorted, RemoveAt, TableInv, DistinctBinds;
    assert GrantRows(t.slots, true) == WithoutPort(GrantRows(st.table.slots, true), o.bindPort) + {asked};
    assert EntryRows(after.entries, true) == WithoutPort(EntryRows(es, true), e.bindPort) + {EntryRow(moved, true)};
    OneRowPerPort(st, s, true);
    ApartRows(st, s, e, asked, EntryRow(moved, true));
  }

  lemma RelabelledRows(es: seq<Entry>, k: nat, e: Entry, terms: bool)
    requires DistinctBinds(es) && k < |es| && e.bindPort == es[k].bindPort
    ensures var u := InsertSorted(RemoveAt(es, k), e);
            DistinctBinds(u)
              && EntryRows(u, terms) == WithoutPort(EntryRows(es, terms), e.bindPort) + {EntryRow(e, terms)}
  {
    RowsAfterRemoveAt(es, k, terms);
    var rest := RemoveAt(es, k);
    var at := FirstIndex(rest, (x: Entry) => Before(e, x));
    RowsAfterInsert(rest, at, e, terms);
    DistinctAfterInsert(rest, at, e);
  }

  // One row replaced on one port on the one side, another on another port on the other side: the sides agree
  // again exactly when neither replacement changed its row.
  lemma ApartRows(st: State, s: Slot, e: Entry, a: Row, b: Row)
    requires Agree(st, true) && s in st.table.slots && s.lease.Granted? && e in st.entries
    requires s.bindPort != e.bindPort && a.bindPort == s.bindPort && b.bindPort == e.bindPort
    ensures var rows := GrantRows(st.table.slots, true);
            WithoutPort(rows, s.bindPort) + {a} == WithoutPort(rows, e.bindPort) + {b}
            <==> a == SlotRow(s, true) && b == EntryRow(e, true)
  {
    hide TableInv, DistinctBinds;
    var rows := GrantRows(st.table.slots, true);
    var x, y := SlotRow(s, true), EntryRow(e, true);
    OneRowPerPort(st, s, true);
    assert y in EntryRows(st.entries, true);
    RowsByPort(st, s.bindPort, x, true);
    RowsByPort(st, e.bindPort, y, true);
    var left, right := WithoutPort(rows, s.bindPort) + {a}, WithoutPort(rows, e.bindPort) + {b};
    if left == right {
      assert x in right && y in left;
    }
  }
}
