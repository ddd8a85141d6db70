// The control plane: the lease table and the sorted index of entries beside it, one method one atomic step.
//
// Clocks, the live-tuple probe and the outcome of raising a datapath are inputs of each step.
module Facade {
  import opened Net
  import opened Seqs
  import opened LeaseTables

  const INFINITE_LEASE: u32 := U32_MAX
  const ANY_PORT_BASE: u16 := 1024
  const LEASE_GRACE: u64 := 86_400
  const LEASE_BACKSTOP: u64 := 604_800

  // One granted mapping: reqExt is the owner's own label for it, bindPort the port the table granted.
  datatype Entry = Entry(
    reqExt: u16, proto: Proto, owner: Ipv4, client: Ipv4, intPort: u16,
    bindPort: u16, lifetime: u32, expires: u64, desc: string)

  datatype UpnpErr = NotAuthorized | InvalidArgs | ActionFailed | NoSuchEntry | PortMappingNotFound

  datatype MappingReq = MappingReq(ext: u16, proto: Proto, client: Ipv4, intPort: u16, lifetime: u32, desc: string)

  // What a caller without the lift is held to: its own address, and a port floor on the v2 face.
  datatype Contain = Contain(caller: Ipv4, highPort: bool)

  predicate RequestWithin(c: Contain, client: Ipv4, ext: u16, intPort: u16) {
    client == c.caller && (!c.highPort || (intPort >= ANY_PORT_BASE && (ext == 0 || ext >= ANY_PORT_BASE)))
  }

  predicate EntryWithin(c: Contain, e: Entry) {
    e.owner == c.caller && (!c.highPort || (e.intPort >= ANY_PORT_BASE && e.reqExt >= ANY_PORT_BASE))
  }

  predicate Visible(view: Option<Contain>, e: Entry) { view.Some? ==> EntryWithin(view.value, e) }

  // The LAN is the /24 of the LAN address.
  predicate InLan(ip: Ipv4, lan: Ipv4) { ip.a == lan.a && ip.b == lan.b && ip.c == lan.c }

  // ---- the index ----

  // The index order: label, then protocol code.
  predicate Before(a: Entry, b: Entry) {
    a.reqExt < b.reqExt || (a.reqExt == b.reqExt && a.proto.Code() < b.proto.Code())
  }

  function IsInternal(proto: Proto, owner: Ipv4, intPort: u16): Entry -> bool {
    (e: Entry) => e.proto == proto && e.owner == owner && e.intPort == intPort
  }

  function IsHandle(reqExt: u16, proto: Proto, owner: Ipv4): Entry -> bool {
    (e: Entry) => e.reqExt == reqExt && e.proto == proto && e.owner == owner
  }

  function BoundTo(port: u16): Entry -> bool { (e: Entry) => e.bindPort == port }

  function BoundOutside(ports: seq<u16>): Entry -> bool { (e: Entry) => e.bindPort !in ports }

  function Alive(slots: seq<Slot>): Entry -> bool { (e: Entry) => Exists(slots, HasPort(e.bindPort)) }

  function InRange(start: u16, end: u16, proto: Proto, view: Option<Contain>): Entry -> bool {
    (e: Entry) => e.proto == proto && start <= e.reqExt <= end && Visible(view, e)
  }

  function InsertSorted(es: seq<Entry>, e: Entry): seq<Entry> {
    InsertAt(es, FirstIndex(es, (x: Entry) => Before(e, x)), e)
  }

  function EntryFor(req: MappingReq, owner: Ipv4, bindPort: u16, now: u64): Entry {
    Entry(req.ext, req.proto, owner, req.client, req.intPort, bindPort, req.lifetime, SatAdd(now, req.lifetime),
      req.desc)
  }

  // The entry a repeated request finds: it keeps its mapping and takes the request's label and terms.
  function Relabelled(e: Entry, req: MappingReq, now: u64): Entry {
    e.(reqExt := req.ext, lifetime := req.lifetime, expires := SatAdd(now, req.lifetime), desc := req.desc)
  }

  // Record a grant: relabel the owner's entry for the same internal port, else take over its entry with the
  // same non-zero label, else add one. The port a taken-over entry leaves behind comes back as the stray.
  function ApplyEntry(
    es: seq<Entry>, req: MappingReq, owner: Ipv4, bindPort: u16, now: u64): (seq<Entry>, Option<u16>)
  {
    var i := FirstIndex(es, IsInternal(req.proto, owner, req.intPort));
    var j := FirstIndex(es, IsHandle(req.ext, req.proto, owner));
    if i < |es| then
      var e := Relabelled(es[i], req, now);
      (InsertSorted(RemoveAt(es, i), e), None)
    else if req.ext != 0 && j < |es| then
      (es[j := EntryFor(req, owner, bindPort, now)],
       if es[j].bindPort != bindPort then Some(es[j].bindPort) else None)
    else
      (InsertSorted(es, EntryFor(req, owner, bindPort, now)), None)
  }

  // ---- the two structures together, and the steps over them ----

  datatype State = State(lan: Ipv4, table: Table, entries: seq<Entry>)

  // What the world answers during a grant: the clock twice, the live tuples if the probe works, and whether
  // the datapath and its tasks come up.
  datatype GrantEnv = GrantEnv(now: u64, evictNow: u64, live: Option<seq<u16>>, datapathUp: bool)

  function KeyOf(req: MappingReq): Key { Key(req.proto, req.intPort, req.client) }

  function Leased(req: MappingReq): MappingReq {
    if req.lifetime == 0 then req.(lifetime := INFINITE_LEASE) else req
  }

  // The port a freed slot had goes from the index as well.
  ghost function DropPort(st: State, port: u16): State {
    st.(table := DeletePort(st.table, port), entries := Filter(st.entries, Not(BoundTo(port))))
  }

  ghost function Evict(st: State, now: u64, requester: Ipv4): (State, Option<u16>) {
    var v := Victim(st.table.slots, now, LEASE_GRACE, requester);
    if v.None? then (st, None) else (DropPort(st, v.value.bindPort), Some(v.value.bindPort))
  }

  ghost function UpsertFor(t: Table, req: MappingReq, now: u64): (Table, Outcome) {
    Upsert(t, KeyOf(req), req.lifetime, now, req.client, req.intPort)
  }

  // Before a fresh allocation the live tuples are reserved. "Fresh" is judged under the owner's address.
  ghost function Steered(st: State, req: MappingReq, owner: Ipv4, env: GrantEnv): State {
    if !Exists(st.table.slots, HasKey(KeyOf(req).(client := owner))) && env.live.Some?
    then st.(table := AvoidPorts(st.table, env.live.value))
    else st
  }

  // A full table makes room by one eviction; otherwise the state is left as it was.
  ghost function Relieved(st: State, req: MappingReq, env: GrantEnv): State {
    if UpsertFor(st.table, req, env.now).1.TableFull? then Evict(st, env.evictNow, req.client).0 else st
  }

  // The admitted slot gets its entry, and the slot its owner thereby abandons goes.
  ghost function Recorded(st: State, req: MappingReq, owner: Ipv4, bindPort: u16, now: u64): State {
    var (es, stray) := ApplyEntry(st.entries, req, owner, bindPort, now);
    st.(table := if stray.Some? then DeletePort(st.table, stray.value) else st.table, entries := es)
  }

  // Upsert and record. A fresh slot whose datapath does not come up is taken back.
  ghost function Admit(st: State, req: MappingReq, owner: Ipv4, env: GrantEnv): (State, Result<Outcome, UpnpErr>) {
    var (t, o) := UpsertFor(st.table, req, env.now);
    match o
    case UserQuotaExceeded => (st.(table := t), Err(ActionFailed))
    case TableFull => (st.(table := t), Err(ActionFailed))
    case GrantedAt(b) =>
      if !env.datapathUp then (st.(table := DeletePort(t, b)), Err(ActionFailed))
      else (Recorded(st.(table := t), req, owner, b, env.now), Ok(o))
    case RefreshedAt(b) => (Recorded(st.(table := t), req, owner, b, env.now), Ok(o))
  }

  ghost function Grant(st: State, req: MappingReq, owner: Ipv4, view: Option<Contain>, env: GrantEnv)
    : (State, Result<Outcome, UpnpErr>)
  {
    if view.Some? && !RequestWithin(view.value, req.client, req.ext, req.intPort) then (st, Err(NotAuthorized))
    else if !InLan(req.client, st.lan) then (st, Err(InvalidArgs))
    else
      var leased := Leased(req);
      Admit(Relieved(Steered(st, leased, owner, env), leased, env), leased, owner, env)
  }

  ghost function LabelsOf(es: seq<Entry>, proto: Proto): set<u16> {
    set e | e in es && e.proto == proto :: e.reqExt
  }

  // The lowest label from 1024 up that no entry of the protocol uses; 65535 when all are in use.
  ghost function FreeLabel(es: seq<Entry>, proto: Proto): u16 {
    var r := LowestFree(ANY_PORT_BASE, U16_MAX - 1, LabelsOf(es, proto));
    if r.Some? then r.value else U16_MAX
  }

  // A requested label is honoured even when another owner uses it: labels are per owner.
  ghost function PreferredLabel(es: seq<Entry>, ext: u16, proto: Proto): u16 {
    if ext == 0 then FreeLabel(es, proto) else ext
  }

  // AddAnyPortMapping: containment is judged on the request, then the label is resolved.
  ghost function GrantPreferred(st: State, req: MappingReq, owner: Ipv4, view: Option<Contain>, env: GrantEnv)
    : (State, Result<u16, UpnpErr>)
  {
    if view.Some? && !RequestWithin(view.value, req.client, req.ext, req.intPort) then (st, Err(NotAuthorized))
    else
      var ext := PreferredLabel(st.entries, req.ext, req.proto);
      var (u, r) := Grant(st, req.(ext := ext), owner, None, env);
      (u, if r.Ok? then Ok(ext) else Err(r.error))
  }

  // The key of a delete names no client: it is the caller's own first entry under that label, and every
  // entry of the caller under that label goes with it.
  ghost function Delete(
    st: State, ext: u16, proto: Proto, caller: Ipv4, view: Option<Contain>): (State, Result<(), UpnpErr>)
  {
    var i := FirstIndex(st.entries, IsHandle(ext, proto, caller));
    if i == |st.entries| then (st, Err(NoSuchEntry))
    else if !Visible(view, st.entries[i]) then (st, Err(NotAuthorized))
    else
      (st.(table := DeletePort(st.table, st.entries[i].bindPort),
           entries := Filter(st.entries, Not(IsHandle(ext, proto, caller)))), Ok(()))
  }

  ghost function DeleteAll(st: State, targets: seq<Entry>, view: Option<Contain>): State {
    if targets == [] then st
    else
      var e := targets[|targets| - 1];
      Delete(DeleteAll(st, targets[..|targets| - 1], view), e.reqExt, e.proto, e.owner, view).0
  }

  // Entries of the range the caller may not touch are skipped; a range without any left is an error.
  ghost function DeleteRange(
    st: State, start: u16, end: u16, proto: Proto, view: Option<Contain>): (State, Result<(), UpnpErr>)
  {
    var targets := Filter(st.entries, InRange(start, end, proto, view));
    if targets == [] then (st, Err(PortMappingNotFound)) else (DeleteAll(st, targets, view), Ok(()))
  }

  // Move a lease off a port a device's flow holds. If its datapath does not come up, it stays where it was.
  ghost function Yield(st: State, oldPort: u16, datapathUp: bool): State {
    var i := FirstIndex(st.entries, BoundTo(oldPort));
    if i == |st.entries| then st
    else
      var (t, moved) := MovePort(st.table, oldPort);
      if moved.None? then st.(table := t)
      else if !datapathUp then st.(table := RestorePort(t, moved.value, oldPort))
      else st.(table := t, entries := st.entries[i := st.entries[i].(bindPort := moved.value)])
  }

  // A collector pass: the freed ports leave the index too.
  ghost function Collect(st: State, survives: Slot -> bool): State {
    var freed := Ports(Filter(st.table.slots, Not(survives)));
    st.(table := Keep(st.table, survives), entries := Filter(st.entries, BoundOutside(freed)))
  }

  ghost function StampPorts(t: Table, es: seq<Entry>, client: Ipv4, now: u64): Table {
    if es == [] then t
    else
      var u := StampPorts(t, es[..|es| - 1], client, now);
      var e := es[|es| - 1];
      if e.client == client then Stamp(u, e.bindPort, now, 0) else u
  }

  // ---- the facade as the program holds it ----

  class UpnpFacade {
    const lan: Ipv4
    const table: LeaseTable
    var entries: seq<Entry>

    ghost function View(): State
      reads this, table
    {
      State(lan, table.View(), entries)
    }

    // Rows read back for ports the table no longer holds are dropped.
    constructor (lan: Ipv4, table: LeaseTable, rows: seq<Entry>)
      ensures this.lan == lan && this.table == table
      ensures entries == Filter(rows, Alive(table.slots))
    {
      this.lan, this.table := lan, table;
      entries := Filter(rows, Alive(table.slots));
    }

    method ApplyInPlace(req: MappingReq, owner: Ipv4, bindPort: u16, now: u64) returns (stray: Option<u16>)
      modifies this`entries
      ensures (entries, stray) == ApplyEntry(old(entries), req, owner, bindPort, now)
    {
      var i := FirstIndex(entries, IsInternal(req.proto, owner, req.intPort));
      if i < |entries| {
        var e := entries[i];
        entries := RemoveAt(entries, i);
        e := e.(reqExt := req.ext, lifetime := req.lifetime, expires := SatAdd(now, req.lifetime), desc := req.desc);
        entries := InsertSorted(entries, e);
        return None;
      }
      if req.ext != 0 {
        var j := FirstIndex(entries, IsHandle(req.ext, req.proto, owner));
        if j < |entries| {
          stray := if entries[j].bindPort != bindPort then Some(entries[j].bindPort) else None;
          entries := entries[j := entries[j].(
            reqExt := req.ext, client := req.client, intPort := req.intPort, bindPort := bindPort,
            lifetime := req.lifetime, expires := SatAdd(now, req.lifetime), desc := req.desc)];
          return;
        }
      }
      entries := InsertSorted(entries, Entry(req.ext, req.proto, owner, req.client, req.intPort, bindPort,
                                             req.lifetime, SatAdd(now, req.lifetime), req.desc));
      return None;
    }

    method EvictCandidate(now: u64, requester: Ipv4) returns (r: Option<u16>)
      modifies this`entries, table
      ensures (View(), r) == Evict(old(View()), now, requester)
    {
      var cand := table.EvictIdleClient(now, LEASE_GRACE, requester);
      if cand.None? {
        return None;
      }
      var port := cand.value.bindPort;
      var _ := table.DeleteByBindPort(port);
      entries := Filter(entries, Not(BoundTo(port)));
      return Some(port);
    }

    // One upsert; on a full table, one eviction and one more try.
    method UpsertUnderPressure(req: MappingReq, env: GrantEnv) returns (o: Outcome)
      modifies this`entries, table
      ensures var s := Relieved(old(View()), req, env);
              View() == s.(table := UpsertFor(s.table, req, env.now).0) && o == UpsertFor(s.table, req, env.now).1
    {
      hide Upsert;
      RefusalChangesNothing(table.View(), KeyOf(req), req.lifetime, env.now, req.client, req.intPort);
      var key := Key(req.proto, req.intPort, req.client);
      o := table.UpsertPcp(key, req.lifetime, env.now, req.client, req.intPort);
      if o.TableFull? {
        var victim := EvictCandidate(env.evictNow, req.client);
        if victim.Some? {
          o := table.UpsertPcp(key, req.lifetime, env.now, req.client, req.intPort);
        }
      }
    }

    method RecordGrant(req: MappingReq, owner: Ipv4, bindPort: u16, now: u64)
      modifies this`entries, table
      ensures View() == Recorded(old(View()), req, owner, bindPort, now)
    {
      var stray := ApplyInPlace(req, owner, bindPort, now);
      if stray.Some? {
        var _ := table.DeleteByBindPort(stray.value);
      }
    }

    method GrantMapping(req: MappingReq, owner: Ipv4, view: Option<Contain>, env: GrantEnv)
      returns (r: Result<Outcome, UpnpErr>)
      modifies this`entries, table
      ensures (View(), r) == Grant(old(View()), req, owner, view, env)
    {
      hide Upsert, Relieved, Recorded;
      if view.Some? && !RequestWithin(view.value, req.client, req.ext, req.intPort) {
        return Err(NotAuthorized);
      }
      if !InLan(req.client, lan) {
        return Err(InvalidArgs);
      }
      var lifetime := if req.lifetime == 0 then INFINITE_LEASE else req.lifetime;
      var leased := req.(lifetime := lifetime);
      var unmapped := !Exists(table.slots, HasKey(Key(req.proto, req.intPort, owner)));
      if unmapped && env.live.Some? {
        table.ReserveLive(env.live.value);
      }
      var outcome := UpsertUnderPressure(leased, env);
      match outcome {
        case UserQuotaExceeded => return Err(ActionFailed);
        case TableFull => return Err(ActionFailed);
        case GrantedAt(b) =>
          if !env.datapathUp {
            var _ := table.DeleteByBindPort(b);
            return Err(ActionFailed);
          }
          RecordGrant(leased, owner, b, env.now);
        case RefreshedAt(b) =>
          RecordGrant(leased, owner, b, env.now);
      }
      return Ok(outcome);
    }

    method FreeRequestedPort(proto: Proto) returns (p: u16)
      ensures p == FreeLabel(entries, proto)
    {
      ghost var taken := LabelsOf(entries, proto);
      p := ANY_PORT_BASE;
      while p < U16_MAX && Exists(entries, (e: Entry) => e.proto == proto && e.reqExt == p)
        invariant ANY_PORT_BASE <= p
        invariant LowestFree(ANY_PORT_BASE, U16_MAX - 1, taken) == LowestFree(p, U16_MAX - 1, taken)
        decreases U16_MAX - p
      {
        p := p + 1;
      }
      if p < U16_MAX {
        assert forall j :: 0 <= j < |entries| ==> !(entries[j].proto == proto && entries[j].reqExt == p);
      }
    }

    method AllocatePreferred(req: MappingReq, owner: Ipv4, view: Option<Contain>, env: GrantEnv)
      returns (r: Result<u16, UpnpErr>)
      modifies this`entries, table
      ensures (View(), r) == GrantPreferred(old(View()), req, owner, view, env)
    {
      if view.Some? && !RequestWithin(view.value, req.client, req.ext, req.intPort) {
        return Err(NotAuthorized);
      }
      var ext := req.ext;
      if ext == 0 {
        ext := FreeRequestedPort(req.proto);
      }
      var granted := GrantMapping(req.(ext := ext), owner, None, env);
      return if granted.Ok? then Ok(ext) else Err(granted.error);
    }

    method DeleteMapping(ext: u16, proto: Proto, caller: Ipv4, view: Option<Contain>) returns (r: Result<(), UpnpErr>)
      modifies this`entries, table
      ensures (View(), r) == Delete(old(View()), ext, proto, caller, view)
    {
      var i := FirstIndex(entries, IsHandle(ext, proto, caller));
      if i == |entries| {
        return Err(NoSuchEntry);
      }
      var e := entries[i];
      if view.Some? && !EntryWithin(view.value, e) {
        return Err(NotAuthorized);
      }
      var _ := table.DeleteByBindPort(e.bindPort);
      entries := Filter(entries, Not(IsHandle(ext, proto, caller)));
      return Ok(());
    }

    method DeleteMappingRange(
      start: u16, end: u16, proto: Proto, view: Option<Contain>) returns (r: Result<(), UpnpErr>)
      modifies this`entries, table
      ensures (View(), r) == DeleteRange(old(View()), start, end, proto, view)
    {
      hide Delete, Filter;
      var targets := Filter(entries, InRange(start, end, proto, view));
      if targets == [] {
        return Err(PortMappingNotFound);
      }
      var i := 0;
      while i < |targets|
        invariant i <= |targets|
        invariant View() == DeleteAll(old(View()), targets[..i], view)
      {
        assert targets[..i + 1][..i] == targets[..i];
        var _ := DeleteMapping(targets[i].reqExt, targets[i].proto, targets[i].owner, view);
        i := i + 1;
      }
      assert targets[..i] == targets;
      return Ok(());
    }

    method YieldPort(oldPort: u16, datapathUp: bool)
      modifies this`entries, table
      ensures View() == Yield(old(View()), oldPort, datapathUp)
    {
      var i := FirstIndex(entries, BoundTo(oldPort));
      if i == |entries| {
        return;
      }
      var moved := table.MoveBindPort(oldPort);
      if moved.None? {
        return;
      }
      if !datapathUp {
        table.RestoreBindPort(moved.value, oldPort);
        return;
      }
      entries := entries[i := entries[i].(bindPort := moved.value)];
    }

    method TearDownPorts(freed: seq<u16>)
      modifies this`entries
      ensures entries == Filter(old(entries), BoundOutside(freed))
    {
      hide Filter;
      var i := 0;
      FilterAll(entries, BoundOutside([]));
      while i < |freed|
        invariant i <= |freed|
        invariant entries == Filter(old(entries), BoundOutside(freed[..i]))
      {
        FilterTwice(old(entries), BoundOutside(freed[..i]), Not(BoundTo(freed[i])), BoundOutside(freed[..i + 1]));
        entries := Filter(entries, Not(BoundTo(freed[i])));
        i := i + 1;
      }
      assert freed[..i] == freed;
    }

    method CollectExpired(now: u64, grace: u64)
      modifies this`entries, table
      ensures View() == Collect(old(View()), SurvivesGc(now, grace))
    {
      var freed := table.Gc(now, grace);
      TearDownPorts(freed);
    }

    method CollectIdle(now: u64)
      modifies this`entries, table
      ensures View() == Collect(old(View()), SurvivesIdle(now, LEASE_BACKSTOP))
    {
      var freed := table.GcIdle(now, LEASE_BACKSTOP);
      TearDownPorts(freed);
    }

    // Any action from a client refreshes the last-seen clock of every grant that targets it.
    method StampClient(client: Ipv4, now: u64)
      modifies table
      ensures View() == old(View()).(table := StampPorts(old(View()).table, entries, client, now))
    {
      var i := 0;
      while i < |entries|
        invariant i <= |entries|
        invariant table.View() == StampPorts(old(table.View()), entries[..i], client, now)
      {
        assert entries[..i + 1][..i] == entries[..i];
        if entries[i].client == client {
          table.StampActivityIfStale(entries[i].bindPort, now, 0);
        }
        i := i + 1;
      }
      assert entries[..i] == entries;
    }
  }
}
