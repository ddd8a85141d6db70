// Three runs of plain requests, from an empty facade, that lose the agreement of table and index.
module LostAgreement {
  import opened Net
  import opened Seqs
  import opened LeaseTables
  import opened Facade
  import opened Agreement
  import opened FacadeLaws
  import opened FacadeRuns
  import opened AgreementExact
  import opened Containment

  const LAN: Ipv4 := Ipv4(192, 168, 21, 1)
  const FIRST: Ipv4 := Ipv4(192, 168, 21, 50)
  const SECOND: Ipv4 := Ipv4(192, 168, 21, 51)
  const LIFTED: Ipv4 := Ipv4(192, 168, 21, 60)

  function Empty(): State { State(LAN, Table(Config(30000, 30003, 4, 2), [], {}), []) }

  function At(now: u64): GrantEnv { GrantEnv(now, now, None, true) }

  function Ask(ext: u16, client: Ipv4, intPort: u16, lifetime: u32): MappingReq {
    MappingReq(ext, Udp, client, intPort, lifetime, "")
  }

  function GrantStep(req: MappingReq, owner: Ipv4, now: u64): Step { DoGrant(req, owner, None, At(now)) }

  // ---- single steps, computed ----

  function SlotFor(req: MappingReq, port: u16, now: u64): Slot {
    FreshSlot(port, KeyOf(req), req.lifetime, now, req.client, req.intPort)
  }

  // A new mapping: the port is the lowest free one, and the entry is filed under its label.
  lemma NewMapping(st: State, req: MappingReq, owner: Ipv4, port: u16, now: u64)
    requires InLan(req.client, st.lan) && req.lifetime > 0 && |st.table.slots| < st.table.cfg.maxSlots
    requires !Exists(st.table.slots, HasKey(KeyOf(req)))
    requires Count(st.table.slots, HasClient(req.client)) < st.table.cfg.maxPerClient
    requires st.table.cfg.InRange(port) && port !in Held(st.table.slots) + st.table.avoid
    requires forall p: u16 :: st.table.cfg.lo <= p < port ==> p in Held(st.table.slots) + st.table.avoid
    requires !Exists(st.entries, IsInternal(req.proto, owner, req.intPort))
    requires req.ext == 0 || !Exists(st.entries, IsHandle(req.ext, req.proto, owner))
    ensures var t := st.table;
            Take(st, GrantStep(req, owner, now)) ==
            State(st.lan, t.(slots := t.slots + [SlotFor(req, port, now)]),
                  InsertSorted(st.entries, EntryFor(req, owner, port, now)))
    ensures GrantMeets(st, req, owner, None, At(now))
  {
    FreshUpsert(st.table, req, port, now);
    hide Upsert, InsertSorted, Victim;
  }

  lemma FreshUpsert(t: Table, req: MappingReq, port: u16, now: u64)
    requires |t.slots| < t.cfg.maxSlots && !Exists(t.slots, HasKey(KeyOf(req)))
    requires Count(t.slots, HasClient(req.client)) < t.cfg.maxPerClient
    requires t.cfg.InRange(port) && port !in Held(t.slots) + t.avoid
    requires forall p: u16 :: t.cfg.lo <= p < port ==> p in Held(t.slots) + t.avoid
    ensures UpsertFor(t, req, now) == (t.(slots := t.slots + [SlotFor(req, port, now)]), GrantedAt(port))
  {
    hide LowestFree, Filter;
    assert FreePort(t) == Some(port);
  }

  // A request for a mapping the table has and the owner's index has: slot refreshed, entry relabelled.
  lemma KnownMapping(st: State, req: MappingReq, owner: Ipv4, now: u64)
    requires InLan(req.client, st.lan) && req.lifetime > 0
    requires Exists(st.table.slots, HasKey(KeyOf(req))) && Exists(st.entries, IsInternal(req.proto, owner, req.intPort))
    ensures var t, es := st.table, st.entries;
            var i, k := FirstIndex(t.slots, HasKey(KeyOf(req))),
              FirstIndex(es, IsInternal(req.proto, owner, req.intPort));
            Take(st, GrantStep(req, owner, now)) ==
            State(st.lan, t.(slots := t.slots[i := Refreshed(t.slots[i], req.lifetime, now)]),
                  InsertSorted(RemoveAt(es, k), Relabelled(es[k], req, now)))
    ensures GrantMeets(st, req, owner, None, At(now)) <==> LookupsMeet(st, req, owner, now)
    ensures Grant(st, req, owner, None, At(now)).1.Ok?
  {
    hide InsertSorted, RemoveAt, Victim, LookupsMeet, FreePort, Count;
  }

  lemma EmptyAgrees()
    ensures Agree(Empty(), true)
  {
    assert forall c: Ipv4 :: Filter([], HasClient(c)) == [];
  }

  lemma RunOfTwo(st: State, a: Step, b: Step)
    ensures Run(st, [a, b]) == Take(Take(st, a), b)
  {
    hide Take;
    assert [a, b][..1] == [a] && [a][..0] == [];
    assert Run(st, [a]) == Take(Run(st, [a][..0]), a);
  }

  lemma RunOfThree(st: State, a: Step, b: Step, c: Step)
    ensures Run(st, [a, b, c]) == Take(Take(Take(st, a), b), c)
  {
    hide Take;
    RunOfTwo(st, a, b);
    assert [a, b, c][..2] == [a, b];
  }

  lemma RunOfFour(st: State, a: Step, b: Step, c: Step, d: Step)
    ensures Run(st, [a, b, c, d]) == Take(Take(Take(Take(st, a), b), c), d)
  {
    hide Take;
    RunOfThree(st, a, b, c);
    assert [a, b, c, d][..3] == [a, b, c];
  }

  // The facade after one mapping, and after two.
  function After(slots: seq<Slot>, entries: seq<Entry>): State { State(LAN, Empty().table.(slots := slots), entries) }

  lemma FirstMapping(a: MappingReq, owner: Ipv4, now: u64)
    requires InLan(a.client, LAN) && a.lifetime > 0
    ensures Take(Empty(), GrantStep(a, owner, now)) == After([SlotFor(a, 30000, now)], [EntryFor(a, owner, 30000, now)])
    ensures GrantMeets(Empty(), a, owner, None, At(now))
  {
    hide Take, GrantMeets, EntryFor, SlotFor, InLan;
    NewMapping(Empty(), a, owner, 30000, now);
    assert InsertSorted([], EntryFor(a, owner, 30000, now)) == [EntryFor(a, owner, 30000, now)];
  }

  lemma SecondMapping(s: Slot, e: Entry, b: MappingReq, owner: Ipv4, now: u64)
    requires InLan(b.client, LAN) && b.lifetime > 0
    requires s.bindPort == 30000 && s.PcpKey() != Some(KeyOf(b))
    requires !IsInternal(b.proto, owner, b.intPort)(e) && !Before(EntryFor(b, owner, 30001, now), e)
    requires b.ext == 0 || !IsHandle(b.ext, b.proto, owner)(e)
    ensures Take(After([s], [e]), GrantStep(b, owner, now)) ==
            After([s, SlotFor(b, 30001, now)], [e, EntryFor(b, owner, 30001, now)])
    ensures GrantMeets(After([s], [e]), b, owner, None, At(now))
  {
    hide Take, GrantMeets, EntryFor, SlotFor, InLan, KeyOf, Before;
    var st, f := After([s], [e]), EntryFor(b, owner, 30001, now);
    assert [s][..0] == [] && Count([s], HasClient(b.client)) <= 1;
    assert Held([s]) == {30000};
    NewMapping(st, b, owner, 30001, now);
    assert FirstIndex([e], (x: Entry) => Before(f, x)) == 1;
    assert InsertAt([e], 1, f) == [e, f];
  }

  // ---- one client, one label, two mappings ----

  // After two mappings of one client, the second filed behind the first.
  lemma TwoMappings(ext: u16, other: u16, now: u64)
    requires ext < other || ext == other == 0
    ensures var a, b := Ask(ext, FIRST, 1, 60), Ask(other, FIRST, 2, 60);
            Take(Take(Empty(), GrantStep(a, FIRST, now)), GrantStep(b, FIRST, now)) ==
            After([SlotFor(a, 30000, now), SlotFor(b, 30001, now)],
                  [EntryFor(a, FIRST, 30000, now), EntryFor(b, FIRST, 30001, now)])
  {
    var a, b := Ask(ext, FIRST, 1, 60), Ask(other, FIRST, 2, 60);
    var s, e := SlotFor(a, 30000, now), EntryFor(a, FIRST, 30000, now);
    hide Take, SatAdd, After, Empty;
    FirstMapping(a, FIRST, now);
    SecondMapping(s, e, b, FIRST, now);
  }

  // Deleting the label two entries of one client have: the first one's slot goes, and both entries.
  lemma DeleteOfBoth(st: State, s: Slot, o: Slot, e: Entry, f: Entry, ext: u16)
    requires st.table.slots == [s, o] && st.entries == [e, f]
    requires IsHandle(ext, Udp, FIRST)(e) && IsHandle(ext, Udp, FIRST)(f) && e.bindPort == s.bindPort
    ensures Take(st, Step.DoDelete(ext, Udp, FIRST, None)) == st.(table := st.table.(slots := [o]), entries := [])
  {
    var handle := IsHandle(ext, Udp, FIRST);
    assert [e, f][..1] == [e] && [e][..0] == [];
    assert Filter([e], Not(handle)) == [];
    assert Filter([e, f], Not(handle)) == [];
    assert FirstIndex([e, f], handle) == 0 && FirstIndex([s, o], HasPort(s.bindPort)) == 0;
    assert SwapRemove([s, o], 0) == [o];
  }

  // A granted slot without an entry is left over.
  ghost predicate LeftOver(st: State) {
    st.entries == [] && |st.table.slots| == 1 && st.table.slots[0].lease.Granted?
  }

  lemma LeftOverDisagrees(st: State, terms: bool)
    requires LeftOver(st)
    ensures !Agree(st, terms)
  {
    var s := st.table.slots[0];
    assert s in st.table.slots && SlotRow(s, terms) in GrantRows(st.table.slots, terms);
  }

  function RelabelRun(): seq<Step> {
    [GrantStep(Ask(5, FIRST, 1, 60), FIRST, 100), GrantStep(Ask(6, FIRST, 2, 60), FIRST, 100),
     GrantStep(Ask(5, FIRST, 2, 60), FIRST, 100), Step.DoDelete(5, Udp, FIRST, None)]
  }

  // The refresh under the other label: the second entry is filed anew, behind the first.
  lemma RelabelledStep(s: Slot, o: Slot, e: Entry, f: Entry, c: MappingReq)
    requires InLan(c.client, LAN) && c.lifetime > 0 && s.PcpKey() != Some(KeyOf(c)) && o.PcpKey() == Some(KeyOf(c))
    requires !IsInternal(c.proto, c.client, c.intPort)(e) && IsInternal(c.proto, c.client, c.intPort)(f)
    requires e.reqExt == c.ext && e.proto == c.proto
    ensures Take(After([s, o], [e, f]), GrantStep(c, c.client, 100)) ==
            After([s, Refreshed(o, c.lifetime, 100)], [e, Relabelled(f, c, 100)])
  {
    var st, g := After([s, o], [e, f]), Relabelled(f, c, 100);
    SecondFound([s, o], HasKey(KeyOf(c)));
    SecondFound([e, f], IsInternal(c.proto, c.client, c.intPort));
    KnownMapping(st, c, c.client, 100);
    SecondRefiled(e, f, g);
    hide Take, InLan, InsertSorted, RemoveAt, FirstIndex, SatAdd;
    assert [s, o][1 := Refreshed(o, c.lifetime, 100)] == [s, Refreshed(o, c.lifetime, 100)];
  }

  lemma SecondFound<T>(s: seq<T>, p: T -> bool)
    requires |s| == 2 && !p(s[0]) && p(s[1])
    ensures FirstIndex(s, p) == 1
  {}

  lemma SecondRefiled(e: Entry, f: Entry, g: Entry)
    requires !Before(g, e)
    ensures InsertSorted(RemoveAt([e, f], 1), g) == [e, g]
  {
    assert RemoveAt([e, f], 1) == [e] && FirstIndex([e], (x: Entry) => Before(g, x)) == 1;
    assert InsertAt([e], 1, g) == [e, g];
  }

  lemma RelabelledThenDeleted(s: Slot, o: Slot, e: Entry, f: Entry)
    requires s == SlotFor(Ask(5, FIRST, 1, 60), 30000, 100) && o == SlotFor(Ask(6, FIRST, 2, 60), 30001, 100)
    requires e == EntryFor(Ask(5, FIRST, 1, 60), FIRST, 30000, 100)
             && f == EntryFor(Ask(6, FIRST, 2, 60), FIRST, 30001, 100)
    ensures var third := Take(After([s, o], [e, f]), GrantStep(Ask(5, FIRST, 2, 60), FIRST, 100));
            LeftOver(Take(third, Step.DoDelete(5, Udp, FIRST, None)))
  {
    var c := Ask(5, FIRST, 2, 60);
    hide Take, SatAdd;
    RelabelledStep(s, o, e, f, c);
    DeleteOfBoth(After([s, Refreshed(o, 60, 100)], [e, Relabelled(f, c, 100)]), s, Refreshed(o, 60, 100), e,
      Relabelled(f, c, 100), 5);
  }

  // Labels 5 and 6 granted to one client, 6 refreshed under label 5, and label 5 deleted.
  lemma RelabelLosesAgreement()
    ensures LeftOver(Run(Empty(), RelabelRun())) && !Agree(Run(Empty(), RelabelRun()), true)
  {
    var a, b, c := Ask(5, FIRST, 1, 60), Ask(6, FIRST, 2, 60), Ask(5, FIRST, 2, 60);
    hide Take, Run, Agree, LeftOver, After, Empty, SlotFor, EntryFor, Ask;
    TwoMappings(5, 6, 100);
    RelabelledThenDeleted(
      SlotFor(a, 30000, 100), SlotFor(b, 30001, 100), EntryFor(a, FIRST, 30000, 100), EntryFor(b, FIRST, 30001, 100));
    RunOfFour(Empty(), GrantStep(a, FIRST, 100), GrantStep(b, FIRST, 100), GrantStep(c, FIRST, 100),
              Step.DoDelete(5, Udp, FIRST, None));
    LeftOverDisagrees(Run(Empty(), RelabelRun()), true);
  }

  function UnlabelledRun(): seq<Step> {
    [GrantStep(Ask(0, FIRST, 1, 60), FIRST, 100), GrantStep(Ask(0, FIRST, 2, 60), FIRST, 100),
     Step.DoDelete(0, Udp, FIRST, None)]
  }

  lemma UnlabelledThenDeleted(s: Slot, o: Slot, e: Entry, f: Entry)
    requires s == SlotFor(Ask(0, FIRST, 1, 60), 30000, 100) && o == SlotFor(Ask(0, FIRST, 2, 60), 30001, 100)
    requires e == EntryFor(Ask(0, FIRST, 1, 60), FIRST, 30000, 100)
             && f == EntryFor(Ask(0, FIRST, 2, 60), FIRST, 30001, 100)
    ensures LeftOver(Take(After([s, o], [e, f]), Step.DoDelete(0, Udp, FIRST, None)))
  {
    hide Take, SatAdd;
    DeleteOfBoth(After([s, o], [e, f]), s, o, e, f, 0);
  }

  // Two mappings of one client under label 0, which is never taken over, and label 0 deleted.
  lemma LabelZeroLosesAgreement()
    ensures LeftOver(Run(Empty(), UnlabelledRun())) && !Agree(Run(Empty(), UnlabelledRun()), true)
  {
    var a, b := Ask(0, FIRST, 1, 60), Ask(0, FIRST, 2, 60);
    hide Take, Run, Agree, LeftOver, After, Empty, SlotFor, EntryFor, Ask;
    TwoMappings(0, 0, 100);
    UnlabelledThenDeleted(
      SlotFor(a, 30000, 100), SlotFor(b, 30001, 100), EntryFor(a, FIRST, 30000, 100), EntryFor(b, FIRST, 30001, 100));
    RunOfThree(Empty(), GrantStep(a, FIRST, 100), GrantStep(b, FIRST, 100), Step.DoDelete(0, Udp, FIRST, None));
    LeftOverDisagrees(Run(Empty(), UnlabelledRun()), true);
  }

  // ---- one requester, two clients ----

  function LiftedGrant(): Step { GrantStep(Ask(5, FIRST, 5000, 60), LIFTED, 100) }

  function OwnGrant(): Step { GrantStep(Ask(6, SECOND, 5000, 60), SECOND, 100) }

  function LiftedRefresh(): Step { GrantStep(Ask(7, SECOND, 5000, 120), LIFTED, 200) }

  lemma BothGranted()
    ensures var a, b := Ask(5, FIRST, 5000, 60), Ask(6, SECOND, 5000, 60);
            var st := After([SlotFor(a, 30000, 100), SlotFor(b, 30001, 100)],
                            [EntryFor(a, LIFTED, 30000, 100), EntryFor(b, SECOND, 30001, 100)]);
            Take(Take(Empty(), LiftedGrant()), OwnGrant()) == st && Agree(st, true)
  {
    var a, b := Ask(5, FIRST, 5000, 60), Ask(6, SECOND, 5000, 60);
    var s, e := SlotFor(a, 30000, 100), EntryFor(a, LIFTED, 30000, 100);
    EmptyAgrees();
    hide Take, SatAdd, After, Empty, Agree, GrantMeets;
    FirstMapping(a, LIFTED, 100);
    SecondMapping(s, e, b, SECOND, 100);
    hide SlotFor, EntryFor;
    StepAgreesExactly(Empty(), LiftedGrant());
    StepAgreesExactly(After([s], [e]), OwnGrant());
  }

  // A lifted caller maps for the first client, the second client maps for itself, and the lifted caller asks for
  // the second one's mapping: that slot is refreshed and the first one's entry rewritten. Both lookups hit and
  // every mapping has its slot and entry, but their terms part.
  lemma LiftedRefreshPartsTerms()
    ensures Agree(Run(Empty(), [LiftedGrant(), OwnGrant()]), true)
    ensures var u := Run(Empty(), [LiftedGrant(), OwnGrant(), LiftedRefresh()]); Agree(u, false) && !Agree(u, true)
  {
    var a, b := Ask(5, FIRST, 5000, 60), Ask(6, SECOND, 5000, 60);
    hide Take, Run, Agree, After, Empty, SlotFor, EntryFor, Ask, LiftedGrant, OwnGrant, LiftedRefresh;
    BothGranted();
    RunOfTwo(Empty(), LiftedGrant(), OwnGrant());
    RunOfThree(Empty(), LiftedGrant(), OwnGrant(), LiftedRefresh());
    LiftedRefreshParts(SlotFor(a, 30000, 100), SlotFor(b, 30001, 100),
                       EntryFor(a, LIFTED, 30000, 100), EntryFor(b, SECOND, 30001, 100));
  }

  lemma LiftedRefreshParts(s: Slot, o: Slot, e: Entry, f: Entry)
    requires Agree(After([s, o], [e, f]), true)
    requires var a, b := Ask(5, FIRST, 5000, 60), Ask(6, SECOND, 5000, 60);
             s == SlotFor(a, 30000, 100) && o == SlotFor(b, 30001, 100)
             && e == EntryFor(a, LIFTED, 30000, 100) && f == EntryFor(b, SECOND, 30001, 100)
    ensures var u := Take(After([s, o], [e, f]), LiftedRefresh()); Agree(u, false) && !Agree(u, true)
  {
    var st, c := After([s, o], [e, f]), Ask(7, SECOND, 5000, 120);
    LiftedLookupsPart(s, o, e, f);
    KnownMapping(st, c, LIFTED, 200);
    hide Agree, GrantMeets, LookupsMeet, Grant, SlotFor, EntryFor, FirstIndex;
    StepAgreesExactly(st, LiftedRefresh());
    TermsThenIdentity(st);
    GrantExactly(st, c, LIFTED, None, At(200));
    NotRelieved(st, c, LIFTED, 200);
  }

  lemma LiftedLookupsPart(s: Slot, o: Slot, e: Entry, f: Entry)
    requires var a, b := Ask(5, FIRST, 5000, 60), Ask(6, SECOND, 5000, 60);
             s == SlotFor(a, 30000, 100) && o == SlotFor(b, 30001, 100)
             && e == EntryFor(a, LIFTED, 30000, 100) && f == EntryFor(b, SECOND, 30001, 100)
    ensures var st, c := After([s, o], [e, f]), Ask(7, SECOND, 5000, 120);
            !LookupsMeet(st, c, LIFTED, 200)
            && Exists(st.table.slots, HasKey(KeyOf(c))) && Exists(st.entries, IsInternal(Udp, LIFTED, 5000))
  {
    var c := Ask(7, SECOND, 5000, 120);
    assert HasKey(KeyOf(c))([s, o][1]) && FirstIndex([s, o], HasKey(KeyOf(c))) == 1;
    assert IsInternal(Udp, LIFTED, 5000)([e, f][0]) && FirstIndex([e, f], IsInternal(Udp, LIFTED, 5000)) == 0;
  }

  lemma NotRelieved(st: State, req: MappingReq, owner: Ipv4, now: u64)
    requires req.lifetime > 0 && Exists(st.table.slots, HasKey(KeyOf(req)))
    ensures Relieved(Steered(st, Leased(req), owner, At(now)), Leased(req), At(now)) == st
  {
    hide Victim, FreePort, Count;
  }
}
