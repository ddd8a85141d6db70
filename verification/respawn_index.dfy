// The index file, and what a respawn makes of table and index together.
module RespawnIndex {
  import opened Net
  import opened Seqs
  import opened Text
  import opened LeaseTables
  import opened TableLaws
  import opened Facade
  import opened Agreement
  import opened FacadeRuns
  import opened AgreementExact
  import opened Respawn
  import opened RespawnRuns

  // ---- the index file ----

  function EntryColumns(e: Entry): seq<string> {
    [Dec(e.reqExt), Dec(e.proto.Code()), Dec(e.bindPort), ShowIpv4(e.client), Dec(e.intPort),
     Dec(e.lifetime), Dec(e.expires), e.desc, ShowIpv4(e.owner)]
  }

  function EntryLine(e: Entry): string { Join(EntryColumns(e), '\t') }

  function IndexText(es: seq<Entry>): string {
    if es == [] then "" else EntryLine(es[0]) + "\n" + IndexText(es[1..])
  }

  predicate IsSpace(c: char) { c == ' ' || '\t' <= c <= '\r' }

  function TrimSpace(s: string): string {
    if s != "" && IsSpace(s[0]) then TrimSpace(s[1..])
    else if s != "" && IsSpace(s[|s| - 1]) then TrimSpace(s[..|s| - 1])
    else s
  }

  // Seven to nine columns: the description and the owner were added later, and an owner that is missing or
  // does not parse is the client. Any protocol but 6 reads as UDP.
  function EntryFromLine(line: string): Option<Entry> {
    var parts := Split(line, '\t');
    if !(7 <= |parts| <= 9) then None
    else
      var reqExt, bindPort := ParseUint(parts[0], U16_MAX), ParseUint(parts[2], U16_MAX);
      var client, intPort := ParseIpv4(parts[3]), ParseUint(parts[4], U16_MAX);
      var lifetime, expires := ParseUint(parts[5], U32_MAX), ParseUint(parts[6], U64_MAX);
      if reqExt.None? || bindPort.None? || client.None? || intPort.None? || lifetime.None? || expires.None? then None
      else
        var owner := if |parts| == 9 then ParseIpv4(parts[8]) else None;
        Some(Entry(reqExt.value, if TrimSpace(parts[1]) == "6" then Tcp else Udp,
                   if owner.Some? then owner.value else client.value, client.value, intPort.value,
                   bindPort.value, lifetime.value, expires.value, if |parts| >= 8 then parts[7] else ""))
  }

  function ReadEntries(lines: seq<string>): seq<Entry> {
    if lines == [] then []
    else
      var rest := ReadEntries(lines[1..]);
      match EntryFromLine(lines[0])
      case Some(e) => [e] + rest
      case None => rest
  }

  // A description is stored without control characters, so it holds neither separator.
  predicate CleanDesc(e: Entry) { '\t' !in e.desc && '\n' !in e.desc }

  lemma EntryColumnsAreClean(e: Entry, c: string)
    requires CleanDesc(e) && c in EntryColumns(e)
    ensures '\t' !in c && '\n' !in c
  {
    Ipv4Avoids(e.client, '\t');
    Ipv4Avoids(e.client, '\n');
    Ipv4Avoids(e.owner, '\t');
    Ipv4Avoids(e.owner, '\n');
    if c != ShowIpv4(e.client) && c != ShowIpv4(e.owner) && c != e.desc {
      assert forall x :: x in c ==> IsDigit(x);
    }
  }

  lemma EntryLineSplits(e: Entry)
    requires CleanDesc(e)
    ensures '\n' !in EntryLine(e) && Split(EntryLine(e), '\t') == EntryColumns(e)
  {
    forall c | c in EntryColumns(e) ensures '\t' !in c && '\n' !in c {
      EntryColumnsAreClean(e, c);
    }
    JoinAvoids(EntryColumns(e), '\t', '\n');
    SplitJoin(EntryColumns(e), '\t');
  }

  // The line ends with an address, so no carriage return is stripped off it.
  lemma EntryLineEndsClean(e: Entry)
    ensures StripCr(EntryLine(e)) == EntryLine(e)
  {
    hide ShowIpv4;
    Ipv4Avoids(e.owner, '\r');
    LastOctet(e.owner);
    JoinEndsWith(EntryColumns(e), '\t');
  }

  // A joined row ends as its last column does.
  lemma {:induction false} JoinEndsWith(parts: seq<string>, c: char)
    requires parts != [] && parts[|parts| - 1] != ""
    ensures |Join(parts, c)| >= |parts[|parts| - 1]|
    ensures Join(parts, c)[|Join(parts, c)| - 1] == parts[|parts| - 1][|parts[|parts| - 1]| - 1]
  {
    if |parts| > 1 {
      JoinEndsWith(parts[1..], c);
    }
  }

  lemma LastOctet(ip: Ipv4)
    ensures ShowIpv4(ip) != ""
  {
    JoinEndsWith([Dec(ip.a), Dec(ip.b), Dec(ip.c), Dec(ip.d)], '.');
  }

  lemma ProtoRoundTrip(p: Proto)
    ensures (TrimSpace(Dec(p.Code())) == "6") == p.Tcp?
  {
    assert Dec(6) == "6";
    assert Dec(17) == "17" by {
      assert Dec(1) == "1";
    }
  }

  lemma EntryRoundTrip(e: Entry)
    requires CleanDesc(e)
    ensures EntryFromLine(EntryLine(e)) == Some(e)
  {
    hide ParseUint, ParseIpv4, Dec, ShowIpv4, TrimSpace;
    EntryLineSplits(e);
    DecRoundTrip(e.reqExt, U16_MAX);
    ProtoRoundTrip(e.proto);
    DecRoundTrip(e.bindPort, U16_MAX);
    Ipv4RoundTrip(e.client);
    DecRoundTrip(e.intPort, U16_MAX);
    DecRoundTrip(e.lifetime, U32_MAX);
    DecRoundTrip(e.expires, U64_MAX);
    Ipv4RoundTrip(e.owner);
  }

  // The index read back is the index, in its order.
  lemma {:induction false} IndexRoundTrip(es: seq<Entry>)
    requires forall e :: e in es ==> CleanDesc(e)
    ensures ReadEntries(Lines(IndexText(es))) == es
  {
    if es != [] {
      hide EntryLine, EntryFromLine, StripCr;
      EntryLineSplits(es[0]);
      EntryLineEndsClean(es[0]);
      LinesHead(EntryLine(es[0]), IndexText(es[1..]));
      EntryRoundTrip(es[0]);
      IndexRoundTrip(es[1..]);
      var lines := Lines(IndexText(es));
      assert lines[0] == EntryLine(es[0]) && lines[1..] == Lines(IndexText(es[1..]));
    }
  }

  // ---- table and index after a respawn ----

  // Entries whose port the restored table does not hold are dropped.
  ghost function Respawned(st: State, u: Table): State {
    State(st.lan, u, Filter(ReadEntries(Lines(IndexText(st.entries))), Alive(u.slots)))
  }

  lemma RebornRow(s: Slot, now: u64, terms: bool)
    requires s.lease.Granted? && now < U64_MAX
    ensures SlotRow(Reborn(s, now), terms) == SlotRow(s, terms) <==> !terms || now < s.lease.expires
    ensures SlotRow(Reborn(s, now), terms).bindPort == s.bindPort
  {}

  // The rows of the restored grants are those of the grants reborn.
  lemma RebuiltRows(t: Table, maps: seq<StaticMap>, now: u64, u: Table, terms: bool)
    requires Rebuilt(t, maps, now, u)
    ensures GrantRows(u.slots, terms) ==
            set s | s in t.slots && s.lease.Granted? :: SlotRow(Reborn(s, now), terms)
  {
    hide Reborn, StaticSlots;
    forall x ensures x in u.slots && x.lease.Granted? <==> x in RebornGrants(t.slots, now) {
      RebuiltGrants(t, maps, now, u, x);
    }
    var rows := set s | s in t.slots && s.lease.Granted? :: SlotRow(Reborn(s, now), terms);
    forall r ensures r in GrantRows(u.slots, terms) <==> r in rows {
      if r in GrantRows(u.slots, terms) {
        var x :| x in u.slots && x.lease.Granted? && SlotRow(x, terms) == r;
        assert x in RebornGrants(t.slots, now);
      }
      if r in rows {
        var s :| s in t.slots && s.lease.Granted? && SlotRow(Reborn(s, now), terms) == r;
        assert Reborn(s, now) in RebornGrants(t.slots, now);
      }
    }
  }

  lemma RebuiltGrants(t: Table, maps: seq<StaticMap>, now: u64, u: Table, x: Slot)
    requires Rebuilt(t, maps, now, u)
    ensures x in u.slots && x.lease.Granted? <==> x in RebornGrants(t.slots, now)
  {
    assert x in u.slots <==> x in (set s | s in StaticSlots(maps)) + RebornGrants(t.slots, now);
    if x in StaticSlots(maps) {
      var i :| 0 <= i < |maps| && StaticSlots(maps)[i] == x;
    }
  }

  // Every entry's port is held again, so no entry is dropped.
  lemma AllStayAlive(st: State, maps: seq<StaticMap>, now: u64, u: Table)
    requires Agree(st, true) && Rebuilt(st.table, maps, now, u)
    ensures Filter(st.entries, Alive(u.slots)) == st.entries
  {
    hide Agree, TableInv, Rebuilt;
    forall e | e in st.entries ensures Alive(u.slots)(e) {
      var s := EntryHasSlot(st, true, e);
      assert Reborn(s, now) in RebornGrants(st.table.slots, now);
      RebuiltGrants(st.table, maps, now, u, Reborn(s, now));
      assert Reborn(s, now).bindPort in Held(u.slots);
      ExistsHeld(u.slots, e.bindPort);
    }
    FilterAll(st.entries, Alive(u.slots));
  }

  // Both files read back: the index is the same and every mapping agrees with its slot. Their terms agree
  // exactly when no lease had expired, because a restored slot gets a new second and its entry does not.
  lemma RespawnKeepsAgreement(st: State, maps: seq<StaticMap>, wrote: u64, now: u64)
    requires Agree(st, true) && Restorable(st.table, maps, now) && now < U64_MAX
    requires forall e :: e in st.entries ==> CleanDesc(e)
    ensures RestoredTable(st.table, maps, wrote, now).Ok?
    ensures var v := Respawned(st, RestoredTable(st.table, maps, wrote, now).value);
            v.entries == st.entries && Agree(v, false)
            && (Agree(v, true) <==> forall s :: s in st.table.slots && s.lease.Granted? ==> now < s.lease.expires)
  {
    RespawnRebuilds(st.table, maps, wrote, now);
    RespawnKeepsTheTable(st.table, maps, wrote, now);
    hide RestoredTable, Restorable, Rebuilt, RebornGrants;
    var u := RestoredTable(st.table, maps, wrote, now).value;
    RestorableHoldsTable(u, maps, now);
    IndexRoundTrip(st.entries);
    AllStayAlive(st, maps, now, u);
    TermsThenIdentity(st);
    AgreementAfter(st, maps, now, u, false);
    AgreementAfter(st, maps, now, u, true);
  }

  lemma RestorableHoldsTable(u: Table, maps: seq<StaticMap>, now: u64)
    requires Restorable(u, maps, now)
    ensures TableInv(u)
  {}

  lemma AgreementAfter(st: State, maps: seq<StaticMap>, now: u64, u: Table, terms: bool)
    requires Agree(st, terms) && Rebuilt(st.table, maps, now, u) && TableInv(u) && now < U64_MAX
    ensures Agree(State(st.lan, u, st.entries), terms) <==>
            (!terms || forall s :: s in st.table.slots && s.lease.Granted? ==> now < s.lease.expires)
  {
    RebuiltRows(st.table, maps, now, u, terms);
    hide Rebuilt, TableInv, DistinctPorts, Reborn;
    var slots := st.table.slots;
    forall s | s in slots && s.lease.Granted?
      ensures SlotRow(Reborn(s, now), terms) == SlotRow(s, terms) <==> !terms || now < s.lease.expires {
      RebornRow(s, now, terms);
    }
    if terms && exists s :: s in slots && s.lease.Granted? && s.lease.expires <= now {
      var s :| s in slots && s.lease.Granted? && s.lease.expires <= now;
      ExpiredRowIsNew(st, s, now);
    } else {
      assert GrantRows(u.slots, terms) == GrantRows(slots, terms);
    }
  }

  // The new terms of an expired lease are in no entry.
  lemma ExpiredRowIsNew(st: State, s: Slot, now: u64)
    requires Agree(st, true) && s in st.table.slots && s.lease.Granted? && s.lease.expires <= now < U64_MAX
    ensures SlotRow(Reborn(s, now), true) !in EntryRows(st.entries, true)
  {
    var row := SlotRow(Reborn(s, now), true);
    forall o | o in st.table.slots && o.lease.Granted? ensures SlotRow(o, true) != row {
      FoundByPort(st.table.slots, s);
      FoundByPort(st.table.slots, o);
    }
  }

  // ---- clean descriptions over whole runs ----

  ghost predicate AllClean(es: seq<Entry>) { forall e :: e in es ==> CleanDesc(e) }

  // What a request brings is stripped of control characters before it reaches the facade.
  predicate CleanStep(step: Step) {
    match step
    case DoGrant(req, _, _, _) => '\t' !in req.desc && '\n' !in req.desc
    case DoGrantPreferred(req, _, _, _) => '\t' !in req.desc && '\n' !in req.desc
    case _ => true
  }

  lemma InsertKeepsClean(es: seq<Entry>, e: Entry)
    requires AllClean(es) && CleanDesc(e)
    ensures AllClean(InsertSorted(es, e))
  {}

  lemma ApplyKeepsClean(es: seq<Entry>, req: MappingReq, owner: Ipv4, bindPort: u16, now: u64)
    requires AllClean(es) && '\t' !in req.desc && '\n' !in req.desc
    ensures AllClean(ApplyEntry(es, req, owner, bindPort, now).0)
  {
    hide InsertSorted;
    var i := FirstIndex(es, IsInternal(req.proto, owner, req.intPort));
    if i < |es| {
      assert forall e :: e in RemoveAt(es, i) ==> e in es;
      InsertKeepsClean(RemoveAt(es, i), Relabelled(es[i], req, now));
    } else {
      InsertKeepsClean(es, EntryFor(req, owner, bindPort, now));
    }
  }

  lemma GrantKeepsClean(st: State, req: MappingReq, owner: Ipv4, view: Option<Contain>, env: GrantEnv)
    requires AllClean(st.entries) && '\t' !in req.desc && '\n' !in req.desc
    ensures AllClean(Grant(st, req, owner, view, env).0.entries)
  {
    hide Upsert, Victim, DeletePort, ApplyEntry;
    var leased := Leased(req);
    var s := Relieved(Steered(st, leased, owner, env), leased, env);
    assert AllClean(s.entries);
    ApplyKeepsCleanAt(s, leased, owner, env);
  }

  lemma ApplyKeepsCleanAt(st: State, req: MappingReq, owner: Ipv4, env: GrantEnv)
    requires AllClean(st.entries) && '\t' !in req.desc && '\n' !in req.desc
    ensures AllClean(Admit(st, req, owner, env).0.entries)
  {
    hide Upsert, DeletePort, ApplyEntry, AllClean;
    var o := UpsertFor(st.table, req, env.now).1;
    if Admitted(o) {
      ApplyKeepsClean(st.entries, req, owner, o.bindPort, env.now);
    }
  }

  lemma {:induction false} DeleteAllKeepsClean(st: State, targets: seq<Entry>, view: Option<Contain>)
    requires AllClean(st.entries)
    ensures AllClean(DeleteAll(st, targets, view).entries)
  {
    if targets != [] {
      hide DeletePort;
      DeleteAllKeepsClean(st, targets[..|targets| - 1], view);
    }
  }

  lemma StepKeepsClean(st: State, step: Step)
    requires AllClean(st.entries) && CleanStep(step)
    ensures AllClean(Take(st, step).entries)
  {
    hide Grant, DeleteAll, DeletePort, MovePort, RestorePort, StampPorts, Stamp, PreferredLabel;
    match step
    case DoGrant(req, owner, view, env) => GrantKeepsClean(st, req, owner, view, env);
    case DoGrantPreferred(req, owner, view, env) =>
      GrantKeepsClean(st, req.(ext := PreferredLabel(st.entries, req.ext, req.proto)), owner, None, env);
    case DoDeleteRange(start, end, proto, view) =>
      DeleteAllKeepsClean(st, Filter(st.entries, InRange(start, end, proto, view)), view);
    case DoYield(port, datapathUp) =>
      var i := FirstIndex(st.entries, BoundTo(port));
      assert i < |st.entries| ==> st.entries[i] in st.entries;
    case _ =>
  }

  // Over every run whose requests carry clean descriptions every entry's description is clean.
  lemma {:induction false} EveryRunStaysClean(st: State, steps: seq<Step>)
    requires AllClean(st.entries) && forall step :: step in steps ==> CleanStep(step)
    ensures AllClean(Run(st, steps).entries)
  {
    if steps != [] {
      hide Take, AllClean, CleanStep;
      var front, step := steps[..|steps| - 1], steps[|steps| - 1];
      assert forall s :: s in front ==> s in steps;
      EveryRunStaysClean(st, front);
      assert step in steps;
      StepKeepsClean(Run(st, front), step);
    }
  }

  // ---- a respawn after whole runs ----

  // A respawn holds again the ports that were held.
  lemma RebuiltPorts(t: Table, maps: seq<StaticMap>, now: u64, u: Table)
    requires Rebuilt(t, maps, now, u) && StaticsOf(t.slots) == (set m | m in maps)
    ensures Held(u.slots) == Held(t.slots)
  {
    hide Rebuilt, StaticSlots;
    forall port ensures port in Held(u.slots) <==> port in Held(t.slots) {
      if port in Held(u.slots) {
        var x :| x in u.slots && x.bindPort == port;
        RebuiltSlot(t, maps, now, u, x);
        if x.lease.Static? {
          assert MapOf(x) in StaticsOf(t.slots);
        }
      }
      if port in Held(t.slots) {
        var s :| s in t.slots && s.bindPort == port;
        if s.lease.Static? {
          assert MapOf(s) in StaticsOf(t.slots);
          StaticIsBack(t, maps, now, u, MapOf(s));
        } else {
          assert Reborn(s, now) in RebornGrants(t.slots, now);
          RebuiltGrants(t, maps, now, u, Reborn(s, now));
        }
      }
    }
  }

  lemma RebuiltSlot(t: Table, maps: seq<StaticMap>, now: u64, u: Table, x: Slot)
    requires Rebuilt(t, maps, now, u) && x in u.slots
    ensures x.lease.Static? ==> MapOf(x) in maps
    ensures x.lease.Granted? ==> exists s :: s in t.slots && s.lease.Granted? && x == Reborn(s, now)
  {
    assert x in (set s | s in StaticSlots(maps)) + RebornGrants(t.slots, now);
    if x in StaticSlots(maps) {
      var i :| 0 <= i < |maps| && StaticSlots(maps)[i] == x;
    }
  }

  lemma StaticIsBack(t: Table, maps: seq<StaticMap>, now: u64, u: Table, m: StaticMap)
    requires Rebuilt(t, maps, now, u) && m in maps
    ensures m.bindPort in Held(u.slots)
  {
    var i :| 0 <= i < |maps| && maps[i] == m;
    var x := StaticSlots(maps)[i];
    assert x in (set s | s in StaticSlots(maps)) + RebornGrants(t.slots, now);
    assert x in u.slots;
  }

  // What the index becomes: of the entries, those whose port the table held, still off the statics.
  lemma RespawnedIndex(st: State, maps: seq<StaticMap>, now: u64, u: Table)
    requires Grounded(st) && AllClean(st.entries) && Restorable(st.table, maps, now)
    requires Rebuilt(st.table, maps, now, u) && Restorable(u, maps, now)
    ensures Respawned(st, u).entries == Filter(st.entries, Alive(st.table.slots))
    ensures Grounded(Respawned(st, u))
  {
    hide Rebuilt, AllPlain, TableInv;
    IndexRoundTrip(st.entries);
    RebuiltPorts(st.table, maps, now, u);
    forall e | e in st.entries ensures Alive(u.slots)(e) == Alive(st.table.slots)(e) {
      ExistsHeld(u.slots, e.bindPort);
      ExistsHeld(st.table.slots, e.bindPort);
    }
    FilterAlike(st.entries, Alive(u.slots), Alive(st.table.slots));
    forall e, s | e in st.entries && s in u.slots && s.lease.Static? ensures e.bindPort != s.bindPort {
      assert MapOf(s) in StaticsOf(u.slots);
      var o :| o in st.table.slots && o.lease.Static? && MapOf(o) == MapOf(s);
    }
  }

  // A respawn after any run of any callers never fails and rebuilds the table; the index comes back with every
  // entry whose port was held, and runs and respawns can go on from there.
  lemma RespawnAfterAnyRun(st: State, steps: seq<Step>, maps: seq<StaticMap>, wrote: u64, now: u64)
    requires Grounded(st) && Restorable(st.table, maps, now) && AllClean(st.entries)
    requires forall step :: step in steps ==> StepTimeAtMost(step, now) && CleanStep(step)
    ensures var u := Run(st, steps);
            RestoredTable(u.table, maps, wrote, now).Ok?
            && (var t := RestoredTable(u.table, maps, wrote, now).value;
                Rebuilt(u.table, maps, now, t)
                && Respawned(u, t).entries == Filter(u.entries, Alive(u.table.slots))
                && Grounded(Respawned(u, t)) && Restorable(t, maps, now))
  {
    hide Grounded, Restorable, Run, RestoredTable, Respawned, Rebuilt, StepTimeAtMost, CleanStep, AllClean;
    EveryRunStaysClean(st, steps);
    EveryRunIsRestorable(st, steps, maps, now);
    var u := Run(st, steps);
    RespawnRebuilds(u.table, maps, wrote, now);
    RespawnKeepsTheTable(u.table, maps, wrote, now);
    RespawnedIndex(u, maps, now, RestoredTable(u.table, maps, wrote, now).value);
  }

  // After a run that kept the agreement, no entry is dropped, and index and table agree on every mapping, and on
  // the terms exactly when no lease had expired.
  lemma RespawnAfterAgreeingRun(st: State, steps: seq<Step>, maps: seq<StaticMap>, wrote: u64, now: u64)
    requires Agree(st, true) && Restorable(st.table, maps, now) && AllClean(st.entries) && now < U64_MAX
    requires forall step :: step in steps ==> StepTimeAtMost(step, now) && CleanStep(step)
    requires AlwaysMeets(st, steps)
    ensures var u := Run(st, steps);
            RestoredTable(u.table, maps, wrote, now).Ok?
            && (var v := Respawned(u, RestoredTable(u.table, maps, wrote, now).value);
                v.entries == u.entries && Agree(v, false)
                && (Agree(v, true) <==>
                    forall s :: s in u.table.slots && s.lease.Granted? ==> now < s.lease.expires))
  {
    EveryRunStaysClean(st, steps);
    TermsThenIdentity(st);
    hide Restorable, Run, RestoredTable, Respawned, Agree, StepTimeAtMost, CleanStep, AlwaysAgrees, AlwaysMeets,
      Grounded;
    RunAgreesExactly(st, steps);
    AlwaysIsNow(st, steps);
    AgreementIsGrounded(st);
    EveryRunIsRestorable(st, steps, maps, now);
    RespawnKeepsAgreement(Run(st, steps), maps, wrote, now);
  }
}
