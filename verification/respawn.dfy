// Respawn: the lease file of a table, read back and restored under the same configuration, is that table.
module Respawn {
  import opened Net
  import opened Seqs
  import opened Text
  import opened LeaseTables
  import opened TableLaws
  import opened Persist

  // ---- the boot path ----

  function StaticPorts(maps: seq<StaticMap>): set<u16> {
    set m | m in maps :: m.bindPort
  }

  // Rows restored as grants: those marked granted whose port no static map of the configuration has.
  function Kept(maps: seq<StaticMap>): PersistedSlot -> bool {
    (p: PersistedSlot) => p.kind == 1 && p.bindPort !in StaticPorts(maps)
  }

  // A granted slot forwards to its own flow.
  function RecordOf(p: PersistedSlot): GrantedRecord {
    GrantedRecord(p.bindPort, if p.proto == 6 then Tcp else Udp, p.client, p.intPort,
                  p.client, p.intPort, p.lifetime, p.expires)
  }

  function RecordsOf(rows: seq<PersistedSlot>): (r: seq<GrantedRecord>)
    ensures |r| == |rows| && forall i :: 0 <= i < |r| ==> r[i] == RecordOf(rows[i])
  {
    seq(|rows|, i requires 0 <= i < |rows| => RecordOf(rows[i]))
  }

  function Boot(cfg: Config, maps: seq<StaticMap>, text: string, now: u64): Result<Table, StaticMapErr> {
    Restore(Table(cfg, [], {}), maps, RecordsOf(Filter(ReadRows(Lines(text)).0, Kept(maps))), now)
  }

  // ---- when a restore succeeds, and what it builds ----

  function StaticSlot(m: StaticMap): Slot { Slot(m.bindPort, Udp, m.target, m.targetPort, Static, 0, 0) }

  function StaticSlots(maps: seq<StaticMap>): (r: seq<Slot>)
    ensures |r| == |maps| && forall i :: 0 <= i < |r| ==> r[i] == StaticSlot(maps[i])
  {
    if maps == [] then [] else [StaticSlot(maps[0])] + StaticSlots(maps[1..])
  }

  ghost predicate RecordsFit(t: Table, recs: seq<GrantedRecord>) {
    (forall r :: r in recs ==> t.cfg.InRange(r.bindPort) && r.lifetime >= 1 && r.bindPort !in Held(t.slots))
    && forall i, j :: 0 <= i < j < |recs| ==> recs[i].bindPort != recs[j].bindPort
  }

  ghost predicate MapsFit(t: Table, maps: seq<StaticMap>) {
    (forall m :: m in maps ==> t.cfg.InRange(m.bindPort) && m.bindPort !in Held(t.slots))
    && forall i, j :: 0 <= i < j < |maps| ==> maps[i].bindPort != maps[j].bindPort
  }

  function RestoredSlots(recs: seq<GrantedRecord>, now: u64): (r: seq<Slot>)
    requires forall x :: x in recs ==> x.lifetime >= 1
    ensures |r| == |recs| && forall i :: 0 <= i < |r| ==> r[i] == RestoredSlot(recs[i], now)
  {
    if recs == [] then [] else [RestoredSlot(recs[0], now)] + RestoredSlots(recs[1..], now)
  }

  lemma ExistsHeld(slots: seq<Slot>, port: u16)
    ensures Exists(slots, HasPort(port)) <==> port in Held(slots)
  {
    if port in Held(slots) {
      var s :| s in slots && s.bindPort == port;
      var k :| 0 <= k < |slots| && slots[k] == s;
      assert HasPort(port)(slots[k]);
    } else {
      assert forall k :: 0 <= k < |slots| ==> slots[k].bindPort in Held(slots);
    }
  }

  lemma RestoreOneExactly(t: Table, r: GrantedRecord, now: u64)
    ensures RestoreOne(t, r, now).Ok? <==> t.cfg.InRange(r.bindPort) && r.lifetime >= 1 && r.bindPort !in Held(t.slots)
    ensures RestoreOne(t, r, now).Ok? ==>
              var u := RestoreOne(t, r, now).value;
              u == t.(slots := t.slots + [RestoredSlot(r, now)]) && Held(u.slots) == Held(t.slots) + {r.bindPort}
  {
    ExistsHeld(t.slots, r.bindPort);
    HeldAfterAppend(t.slots, RestoreOne(t, r, now));
  }

  lemma HeldAfterAppend(slots: seq<Slot>, r: Result<Table, StaticMapErr>)
    requires r.Ok? ==> |r.value.slots| == |slots| + 1 && r.value.slots[..|slots|] == slots
    ensures r.Ok? ==> Held(r.value.slots) == Held(slots) + {r.value.slots[|slots|].bindPort}
  {
    if r.Ok? {
      assert r.value.slots == slots + [r.value.slots[|slots|]];
    }
  }

  // Restoring grants succeeds exactly when every record fits: its port is in range, free and used once, and
  // its lifetime is not zero. Then each record becomes one slot, in order.
  lemma {:induction false} RestoreGrantsExactly(t: Table, recs: seq<GrantedRecord>, now: u64)
    ensures RestoreGrants(t, recs, now).Ok? <==> RecordsFit(t, recs)
    ensures RecordsFit(t, recs) ==>
              RestoreGrants(t, recs, now).value == t.(slots := t.slots + RestoredSlots(recs, now))
    decreases |recs|
  {
    if recs == [] {
      assert t.slots + RestoredSlots(recs, now) == t.slots;
    } else {
      hide RestoreOne, RestoredSlot, Held, RestoredSlots;
      var r, rest := recs[0], recs[1..];
      RestoreOneExactly(t, r, now);
      assert recs == [r] + rest && r in recs;
      if RestoreOne(t, r, now).Ok? {
        var u := RestoreOne(t, r, now).value;
        RestoreGrantsExactly(u, rest, now);
        FitsOneByOne(t, u, r, rest);
        if RecordsFit(t, recs) {
          hide RecordsFit;
          RestoredSlotsCons(t.slots, r, rest, now);
        }
      }
    }
  }

  lemma RestoredSlotsCons(slots: seq<Slot>, r: GrantedRecord, rest: seq<GrantedRecord>, now: u64)
    requires r.lifetime >= 1 && forall x :: x in rest ==> x.lifetime >= 1
    ensures slots + RestoredSlots([r] + rest, now) == slots + [RestoredSlot(r, now)] + RestoredSlots(rest, now)
  {
    hide RestoredSlot;
    assert ([r] + rest)[1..] == rest;
    assert slots + ([RestoredSlot(r, now)] + RestoredSlots(rest, now))
        == slots + [RestoredSlot(r, now)] + RestoredSlots(rest, now);
  }

  lemma FitsOneByOne(t: Table, u: Table, r: GrantedRecord, rest: seq<GrantedRecord>)
    requires t.cfg == u.cfg && Held(u.slots) == Held(t.slots) + {r.bindPort}
    requires t.cfg.InRange(r.bindPort) && r.lifetime >= 1 && r.bindPort !in Held(t.slots)
    ensures RecordsFit(t, [r] + rest) <==> RecordsFit(u, rest)
  {
    var recs := [r] + rest;
    if RecordsFit(u, rest) {
      forall i, j | 0 <= i < j < |recs| ensures recs[i].bindPort != recs[j].bindPort {
        assert recs[j] == rest[j - 1] && rest[j - 1] in rest;
      }
    }
    if RecordsFit(t, recs) {
      forall x | x in rest ensures x.bindPort !in Held(u.slots) && x in recs {
        var k :| 0 <= k < |rest| && rest[k] == x;
        assert recs[0].bindPort != recs[k + 1].bindPort;
      }
      forall i, j | 0 <= i < j < |rest| ensures rest[i].bindPort != rest[j].bindPort {
        assert recs[i + 1].bindPort != recs[j + 1].bindPort;
      }
    }
  }

  lemma MapsFitOneByOne(t: Table, maps: seq<StaticMap>)
    requires MapsFit(t, maps) && maps != []
    ensures InsertStatic(t, maps[0]) == Ok(t.(slots := t.slots + [StaticSlot(maps[0])]))
    ensures MapsFit(InsertStatic(t, maps[0]).value, maps[1..])
  {
    assert maps[0] in maps;
    ExistsHeld(t.slots, maps[0].bindPort);
    HeldAfterAppend(t.slots, InsertStatic(t, maps[0]));
    forall x | x in maps[1..] ensures x in maps && x.bindPort != maps[0].bindPort {
      var k :| 0 <= k < |maps[1..]| && maps[1..][k] == x;
      assert maps[0].bindPort != maps[k + 1].bindPort;
    }
  }

  lemma {:induction false} InsertStaticsBuild(t: Table, maps: seq<StaticMap>)
    requires MapsFit(t, maps)
    ensures InsertStatics(t, maps) == Ok(t.(slots := t.slots + StaticSlots(maps)))
    decreases |maps|
  {
    if maps == [] {
      assert t.slots + StaticSlots(maps) == t.slots;
    } else {
      hide MapsFit, InsertStatic, StaticSlot, StaticSlots;
      MapsFitOneByOne(t, maps);
      InsertStaticsBuild(InsertStatic(t, maps[0]).value, maps[1..]);
      StaticSlotsCons(t.slots, maps);
    }
  }

  lemma StaticSlotsCons(slots: seq<Slot>, maps: seq<StaticMap>)
    requires maps != []
    ensures slots + StaticSlots(maps) == slots + [StaticSlot(maps[0])] + StaticSlots(maps[1..])
  {
    hide StaticSlot;
    assert slots + ([StaticSlot(maps[0])] + StaticSlots(maps[1..]))
        == slots + [StaticSlot(maps[0])] + StaticSlots(maps[1..]);
  }

  // ---- the tables a respawn can restore ----

  function MapOf(s: Slot): StaticMap { StaticMap(s.bindPort, s.target, s.targetPort) }

  ghost function StaticsOf(slots: seq<Slot>): set<StaticMap> {
    set s | s in slots && s.lease.Static? :: MapOf(s)
  }

  // A grant of the facade: it targets its own client, has a lifetime, and expires no later than that
  // lifetime from now.
  predicate Plain(s: Slot, now: u64) {
    s.lease.Granted? ==>
      s.target == s.lease.client && s.targetPort == s.lease.intPort
      && s.lease.lifetime >= 1 && s.lease.expires <= SatAdd(now, s.lease.lifetime)
  }

  ghost predicate AllPlain(slots: seq<Slot>, now: u64) {
    forall s :: s in slots ==> Plain(s, now)
  }

  // The table holds the configured statics, each once, and plain grants.
  ghost predicate Restorable(t: Table, maps: seq<StaticMap>, now: u64) {
    TableInv(t) && AllPlain(t.slots, now)
    && StaticsOf(t.slots) == (set m | m in maps)
    && forall i, j :: 0 <= i < j < |maps| ==> maps[i].bindPort != maps[j].bindPort
  }

  // What a grant comes back as: an unexpired lease keeps its expiry, an expired one gets one more second.
  function Reborn(s: Slot, now: u64): Slot
    requires s.lease.Granted?
  {
    var expires := if now < s.lease.expires then s.lease.expires else SatAdd(now, 1);
    Slot(s.bindPort, s.proto, s.target, s.targetPort,
         Granted(s.lease.client, s.lease.intPort, s.lease.lifetime, expires), 0, now)
  }

  ghost function RebornGrants(slots: seq<Slot>, now: u64): set<Slot> {
    set s | s in slots && s.lease.Granted? :: Reborn(s, now)
  }

  lemma RestoredIsReborn(s: Slot, wrote: u64, now: u64)
    requires s.lease.Granted? && Plain(s, now)
    ensures RestoredSlot(RecordOf(ProjectSlot(s, wrote)), now) == Reborn(s, now)
  {}

  // ---- the records of a table ----

  function RecordsFrom(t: Table, maps: seq<StaticMap>, wrote: u64): seq<GrantedRecord> {
    RecordsOf(Filter(SortByPort(Snapshot(t.slots, wrote)), Kept(maps)))
  }

  lemma SnapshotIsDistinct(t: Table, wrote: u64)
    requires DistinctPorts(t.slots)
    ensures DistinctRowPorts(Snapshot(t.slots, wrote))
    ensures forall p :: p in Snapshot(t.slots, wrote) ==> RealProto(p)
  {
    var rows := Snapshot(t.slots, wrote);
    forall p | p in rows ensures RealProto(p) {
      var k :| 0 <= k < |rows| && rows[k] == p;
    }
  }

  // The rows kept are the granted slots'.
  lemma KeptRows(t: Table, maps: seq<StaticMap>, wrote: u64, now: u64)
    requires Restorable(t, maps, now)
    ensures var kept := Filter(SortByPort(Snapshot(t.slots, wrote)), Kept(maps));
            DistinctRowPorts(kept)
            && (forall s :: s in t.slots && s.lease.Granted? ==> ProjectSlot(s, wrote) in kept)
            && (forall p :: p in kept ==> exists s :: s in t.slots && s.lease.Granted? && p == ProjectSlot(s, wrote))
  {
    hide SortByPort;
    var rows := Snapshot(t.slots, wrote);
    var sorted := SortByPort(rows);
    SortSorts(rows);
    SnapshotIsDistinct(t, wrote);
    PermutationStaysDistinct(rows, sorted);
    FilterKeepsPairs(sorted, Kept(maps), (a: PersistedSlot, b: PersistedSlot) => a.bindPort != b.bindPort);
    var kept := Filter(sorted, Kept(maps));
    forall s | s in t.slots && s.lease.Granted? ensures ProjectSlot(s, wrote) in kept {
      var k :| 0 <= k < |t.slots| && t.slots[k] == s;
      assert rows[k] in multiset(rows);
      GrantIsOffStatics(t, maps, now, s);
    }
    forall p | p in kept ensures exists s :: s in t.slots && s.lease.Granted? && p == ProjectSlot(s, wrote) {
      assert p in multiset(sorted) && p in multiset(rows);
      var k :| 0 <= k < |rows| && rows[k] == p;
      assert t.slots[k] in t.slots;
    }
  }

  lemma GrantIsOffStatics(t: Table, maps: seq<StaticMap>, now: u64, s: Slot)
    requires Restorable(t, maps, now) && s in t.slots && s.lease.Granted?
    ensures s.bindPort !in StaticPorts(maps)
  {
    if s.bindPort in StaticPorts(maps) {
      var m :| m in maps && m.bindPort == s.bindPort;
      assert m in StaticsOf(t.slots);
      var o :| o in t.slots && o.lease.Static? && MapOf(o) == m;
      FoundByPort(t.slots, s);
      FoundByPort(t.slots, o);
    }
  }

  lemma StaticsFit(t: Table, maps: seq<StaticMap>, now: u64)
    requires Restorable(t, maps, now)
    ensures MapsFit(Table(t.cfg, [], {}), maps)
  {
    forall m | m in maps ensures t.cfg.InRange(m.bindPort) {
      assert m in StaticsOf(t.slots);
      var o :| o in t.slots && o.lease.Static? && MapOf(o) == m;
    }
  }

  lemma RecordsFitStatics(t: Table, maps: seq<StaticMap>, wrote: u64, now: u64)
    requires Restorable(t, maps, now)
    ensures RecordsFit(Table(t.cfg, StaticSlots(maps), {}), RecordsFrom(t, maps, wrote))
  {
    hide SortByPort, RestoredSlot, StaticSlots;
    KeptRows(t, maps, wrote, now);
    var kept := Filter(SortByPort(Snapshot(t.slots, wrote)), Kept(maps));
    var recs := RecordsOf(kept);
    forall r | r in recs
      ensures t.cfg.InRange(r.bindPort) && r.lifetime >= 1 && r.bindPort !in Held(StaticSlots(maps)) {
      var k :| 0 <= k < |recs| && recs[k] == r;
      assert kept[k] in kept;
      var s :| s in t.slots && s.lease.Granted? && kept[k] == ProjectSlot(s, wrote);
      GrantIsOffStatics(t, maps, now, s);
      assert Plain(s, now);
      forall o | o in StaticSlots(maps) ensures o.bindPort in StaticPorts(maps) {
        var i :| 0 <= i < |maps| && StaticSlots(maps)[i] == o;
        assert maps[i] in maps;
      }
    }
  }

  // ---- the result ----

  // The restored table's contents: the configured statics, and every grant reborn.
  ghost function RestoredTable(t: Table, maps: seq<StaticMap>, wrote: u64, now: u64): Result<Table, StaticMapErr> {
    Boot(t.cfg, maps, Tsv(Snapshot(t.slots, wrote)), now)
  }

  lemma RespawnBuilds(t: Table, maps: seq<StaticMap>, wrote: u64, now: u64)
    requires Restorable(t, maps, now)
    ensures ReadRows(Lines(Tsv(Snapshot(t.slots, wrote)))).1 == 0
    ensures forall r :: r in RecordsFrom(t, maps, wrote) ==> r.lifetime >= 1
    ensures RestoredTable(t, maps, wrote, now) ==
            Ok(Table(t.cfg, StaticSlots(maps) + RestoredSlots(RecordsFrom(t, maps, wrote), now), {}))
  {
    hide SortByPort, Tsv, Lines, ReadRows, RestoredSlots, StaticSlots;
    SnapshotIsDistinct(t, wrote);
    TsvRoundTrip(Snapshot(t.slots, wrote));
    StaticsFit(t, maps, now);
    InsertStaticsBuild(Table(t.cfg, [], {}), maps);
    assert [] + StaticSlots(maps) == StaticSlots(maps);
    RecordsFitStatics(t, maps, wrote, now);
    RestoreGrantsExactly(Table(t.cfg, StaticSlots(maps), {}), RecordsFrom(t, maps, wrote), now);
  }

  ghost predicate KeptFrom(t: Table, wrote: u64, kept: seq<PersistedSlot>) {
    (forall s :: s in t.slots && s.lease.Granted? ==> ProjectSlot(s, wrote) in kept)
    && forall p :: p in kept ==> exists s :: s in t.slots && s.lease.Granted? && p == ProjectSlot(s, wrote)
  }

  // Each restored slot is a grant reborn, and each grant is.
  lemma RestoredSlotsAreReborn(t: Table, wrote: u64, now: u64, kept: seq<PersistedSlot>, slots: seq<Slot>)
    requires AllPlain(t.slots, now) && KeptFrom(t, wrote, kept) && |slots| == |kept|
    requires forall i :: 0 <= i < |kept| ==> kept[i].lifetime >= 1 && slots[i] == RestoredSlot(RecordOf(kept[i]), now)
    ensures (set s | s in slots) == RebornGrants(t.slots, now)
  {
    hide RestoredSlot, ProjectSlot, Reborn;
    forall i | 0 <= i < |kept| ensures slots[i] in RebornGrants(t.slots, now) {
      assert kept[i] in kept;
      var s :| s in t.slots && s.lease.Granted? && kept[i] == ProjectSlot(s, wrote);
      assert Plain(s, now);
      RestoredIsReborn(s, wrote, now);
    }
    forall s | s in t.slots && s.lease.Granted? ensures Reborn(s, now) in slots {
      assert ProjectSlot(s, wrote) in kept && Plain(s, now);
      var k :| 0 <= k < |kept| && kept[k] == ProjectSlot(s, wrote);
      RestoredIsReborn(s, wrote, now);
      assert slots[k] == Reborn(s, now);
    }
  }

  // Write, read and restore never errs and rebuilds the table: every static, every grant on its own port
  // with its key, target and lifetime, and nothing else.
  lemma RespawnRebuilds(t: Table, maps: seq<StaticMap>, wrote: u64, now: u64)
    requires Restorable(t, maps, now)
    ensures RestoredTable(t, maps, wrote, now).Ok?
    ensures Rebuilt(t, maps, now, RestoredTable(t, maps, wrote, now).value)
  {
    RespawnBuilds(t, maps, wrote, now);
    RecordsBecomeReborn(t, maps, wrote, now);
    hide RestoredTable, RestoredSlots, RecordsFrom, StaticSlots, RebornGrants, Restorable;
    SetOfConcat(StaticSlots(maps), RestoredSlots(RecordsFrom(t, maps, wrote), now));
  }

  lemma SetOfConcat(a: seq<Slot>, b: seq<Slot>)
    ensures (set s | s in a + b) == (set s | s in a) + (set s | s in b)
  {}

  lemma RecordsBecomeReborn(t: Table, maps: seq<StaticMap>, wrote: u64, now: u64)
    requires Restorable(t, maps, now) && forall r :: r in RecordsFrom(t, maps, wrote) ==> r.lifetime >= 1
    ensures (set s | s in RestoredSlots(RecordsFrom(t, maps, wrote), now)) == RebornGrants(t.slots, now)
  {
    hide SortByPort, RestoredSlot, RestoredSlots, Filter, RebornGrants, ProjectSlot;
    KeptRows(t, maps, wrote, now);
    var kept := Filter(SortByPort(Snapshot(t.slots, wrote)), Kept(maps));
    var recs := RecordsOf(kept);
    forall i | 0 <= i < |kept| ensures kept[i].lifetime >= 1 {
      assert recs[i] in recs;
    }
    RestoredSlotsAreReborn(t, wrote, now, kept, RestoredSlots(recs, now));
  }

  // The rebuilt table satisfies the table invariant again, so runs go on from it.
  lemma RespawnKeepsTheTable(t: Table, maps: seq<StaticMap>, wrote: u64, now: u64)
    requires Restorable(t, maps, now)
    ensures RestoredTable(t, maps, wrote, now).Ok? && TableInv(RestoredTable(t, maps, wrote, now).value)
    ensures Restorable(RestoredTable(t, maps, wrote, now).value, maps, now)
  {
    RespawnBuilds(t, maps, wrote, now);
    RespawnRebuilds(t, maps, wrote, now);
    RestoredPortsDistinct(t, maps, wrote, now);
    RestoredQuota(t, maps, wrote, now);
    hide RestoredTable, RestoredSlots, StaticSlots, RecordsFrom, Rebuilt;
    RebuiltIsRestorable(t, maps, now, RestoredTable(t, maps, wrote, now).value);
  }

  lemma RebuiltIsRestorable(t: Table, maps: seq<StaticMap>, now: u64, u: Table)
    requires Restorable(t, maps, now) && Rebuilt(t, maps, now, u) && u.cfg == t.cfg
    requires DistinctPorts(u.slots) && QuotaKept(u)
    ensures Restorable(u, maps, now)
  {
    hide StaticSlots, RebornGrants, StaticsOf, Rebuilt, DistinctPorts, QuotaKept;
    forall i, j | 0 <= i < j < |u.slots| && u.slots[i].PcpKey().Some?
      ensures u.slots[i].PcpKey() != u.slots[j].PcpKey() {
      RestoredKeysApart(t, maps, now, u, i, j);
    }
    forall s | s in u.slots ensures t.cfg.InRange(s.bindPort) && Plain(s, now) {
      RestoredSlotIsPlain(t, maps, now, u, s);
    }
    RestoredStatics(t, maps, now, u);
  }

  ghost predicate Rebuilt(t: Table, maps: seq<StaticMap>, now: u64, u: Table) {
    (set s | s in u.slots) == (set s | s in StaticSlots(maps)) + RebornGrants(t.slots, now)
  }

  // The slots are the configured statics and the grants reborn.
  lemma RestoredSlotIsPlain(t: Table, maps: seq<StaticMap>, now: u64, u: Table, s: Slot)
    requires Restorable(t, maps, now) && Rebuilt(t, maps, now, u) && s in u.slots
    ensures t.cfg.InRange(s.bindPort) && Plain(s, now)
    ensures s.lease.Static? ==> s in StaticSlots(maps)
    ensures s.lease.Granted? ==> exists o :: o in t.slots && o.lease.Granted? && s == Reborn(o, now)
  {
    assert s in (set x | x in u.slots);
    assert s in (set x | x in StaticSlots(maps)) + RebornGrants(t.slots, now);
    if s in StaticSlots(maps) {
      var i :| 0 <= i < |maps| && StaticSlots(maps)[i] == s;
      StaticsFit(t, maps, now);
      assert maps[i] in maps;
    } else {
      assert s in RebornGrants(t.slots, now);
      var o :| o in t.slots && o.lease.Granted? && s == Reborn(o, now);
      assert Plain(o, now);
    }
  }

  lemma RestoredStatics(t: Table, maps: seq<StaticMap>, now: u64, u: Table)
    requires Restorable(t, maps, now) && Rebuilt(t, maps, now, u)
    ensures StaticsOf(u.slots) == (set m | m in maps)
  {
    forall m ensures m in StaticsOf(u.slots) <==> m in maps {
      if m in StaticsOf(u.slots) {
        var s :| s in u.slots && s.lease.Static? && MapOf(s) == m;
        RestoredSlotIsPlain(t, maps, now, u, s);
        var i :| 0 <= i < |maps| && StaticSlots(maps)[i] == s;
      }
      if m in maps {
        var i :| 0 <= i < |maps| && maps[i] == m;
        assert StaticSlots(maps)[i] in (set s | s in StaticSlots(maps)) + RebornGrants(t.slots, now);
        assert StaticSlots(maps)[i] in u.slots;
      }
    }
  }

  lemma RestoredKeysApart(t: Table, maps: seq<StaticMap>, now: u64, u: Table, i: nat, j: nat)
    requires Restorable(t, maps, now) && Rebuilt(t, maps, now, u) && DistinctPorts(u.slots)
    requires i < j < |u.slots| && u.slots[i].PcpKey().Some?
    ensures u.slots[i].PcpKey() != u.slots[j].PcpKey()
  {
    if u.slots[j].lease.Granted? {
      RestoredSlotIsPlain(t, maps, now, u, u.slots[i]);
      RestoredSlotIsPlain(t, maps, now, u, u.slots[j]);
      var a :| a in t.slots && a.lease.Granted? && u.slots[i] == Reborn(a, now);
      var b :| b in t.slots && b.lease.Granted? && u.slots[j] == Reborn(b, now);
      assert a.bindPort != b.bindPort;
      var k :| 0 <= k < |t.slots| && t.slots[k] == a;
      var l :| 0 <= l < |t.slots| && t.slots[l] == b;
      assert k < l || l < k;
    }
  }

  lemma RestoredPortsDistinct(t: Table, maps: seq<StaticMap>, wrote: u64, now: u64)
    requires Restorable(t, maps, now) && forall r :: r in RecordsFrom(t, maps, wrote) ==> r.lifetime >= 1
    ensures DistinctPorts(StaticSlots(maps) + RestoredSlots(RecordsFrom(t, maps, wrote), now))
  {
    RecordsFitStatics(t, maps, wrote, now);
    hide RecordsFrom, RestoredSlots, StaticSlots;
    var recs := RecordsFrom(t, maps, wrote);
    var a: seq<Slot> := StaticSlots(maps);
    var all: seq<Slot> := a + RestoredSlots(recs, now);
    forall i, j | 0 <= i < j < |all| ensures all[i].bindPort != all[j].bindPort {
      if j >= |a| {
        assert recs[j - |a|] in recs;
        if i < |a| {
          assert a[i] in a && a[i].bindPort in Held(a);
        }
      }
    }
  }

  // Each client holds as many grants as before.
  lemma RestoredQuota(t: Table, maps: seq<StaticMap>, wrote: u64, now: u64)
    requires Restorable(t, maps, now) && forall r :: r in RecordsFrom(t, maps, wrote) ==> r.lifetime >= 1
    ensures forall c: Ipv4 ::
      Count(StaticSlots(maps) + RestoredSlots(RecordsFrom(t, maps, wrote), now), HasClient(c)) <= t.cfg.maxPerClient
  {
    hide RecordsFrom, Restorable;
    forall c: Ipv4
      ensures Count(StaticSlots(maps) + RestoredSlots(RecordsFrom(t, maps, wrote), now), HasClient(c)) <=
              t.cfg.maxPerClient {
      RestoredQuotaOf(t, maps, wrote, now, c);
    }
  }

  function GrantedTo(c: Ipv4): PersistedSlot -> bool { (p: PersistedSlot) => p.kind == 1 && p.client == c }

  lemma RestoredQuotaOf(t: Table, maps: seq<StaticMap>, wrote: u64, now: u64, c: Ipv4)
    requires Restorable(t, maps, now) && forall r :: r in RecordsFrom(t, maps, wrote) ==> r.lifetime >= 1
    ensures Count(StaticSlots(maps) + RestoredSlots(RecordsFrom(t, maps, wrote), now), HasClient(c)) <=
            t.cfg.maxPerClient
  {
    hide SortByPort, RestoredSlot, RestoredSlots, StaticSlots, Snapshot;
    var kept := Filter(SortByPort(Snapshot(t.slots, wrote)), Kept(maps));
    var slots := RestoredSlots(RecordsOf(kept), now);
    CountConcat(StaticSlots(maps), slots, HasClient(c));
    CountZero(StaticSlots(maps), HasClient(c));
    RestoredCount(kept, slots, now, c);
    KeptCount(t, maps, wrote, c);
  }

  lemma KeptCount(t: Table, maps: seq<StaticMap>, wrote: u64, c: Ipv4)
    ensures Count(Filter(SortByPort(Snapshot(t.slots, wrote)), Kept(maps)), GrantedTo(c)) <=
            Count(t.slots, HasClient(c))
  {
    hide SortByPort, Filter;
    var rows := Snapshot(t.slots, wrote);
    SortSorts(rows);
    CountFilter(SortByPort(rows), Kept(maps), GrantedTo(c));
    CountPermutation(SortByPort(rows), rows, GrantedTo(c));
    CountPointwise(rows, t.slots, GrantedTo(c), HasClient(c));
  }

  lemma RestoredCount(kept: seq<PersistedSlot>, slots: seq<Slot>, now: u64, c: Ipv4)
    requires |slots| == |kept| && forall p: PersistedSlot :: p in kept ==> p.kind == 1
    requires forall i :: 0 <= i < |kept| ==> kept[i].lifetime >= 1 && slots[i] == RestoredSlot(RecordOf(kept[i]), now)
    ensures Count(slots, HasClient(c)) == Count(kept, GrantedTo(c))
  {
    forall i | 0 <= i < |kept| ensures HasClient(c)(slots[i]) == GrantedTo(c)(kept[i]) {
      assert kept[i] in kept;
    }
    CountPointwise(slots, kept, HasClient(c), GrantedTo(c));
  }
}
