// Runs in which callers map for themselves, under any label: only a delete can cost them the agreement.
module SelfMappedRuns {
  import opened Net
  import opened Seqs
  import opened LeaseTables
  import opened Facade
  import opened Agreement
  import opened FacadeLaws
  import opened FacadeRuns
  import opened AgreementExact

  ghost predicate Shaped(es: seq<Entry>) { OwnersMap(es) && InternalsApart(es) }

  // ---- what keeps one entry per owner and internal port ----

  lemma FilterKeepsShape(es: seq<Entry>, p: Entry -> bool)
    requires Shaped(es)
    ensures Shaped(Filter(es, p))
  {
    FilterKeepsPairs(es, p, (a: Entry, b: Entry) => !SameInternal(a, b));
  }

  lemma InsertKeepsShape(es: seq<Entry>, at: nat, e: Entry)
    requires Shaped(es) && at <= |es| && e.owner == e.client && forall x :: x in es ==> !SameInternal(x, e)
    ensures Shaped(InsertAt(es, at, e))
  {
    var u := InsertAt(es, at, e);
    assert forall k :: 0 <= k < |u| && k != at ==> u[k] == es[if k < at then k else k - 1] && u[k] in es;
  }

  lemma RemoveKeepsShape(es: seq<Entry>, i: nat)
    requires Shaped(es) && i < |es|
    ensures Shaped(RemoveAt(es, i)) && forall x :: x in RemoveAt(es, i) ==> !SameInternal(x, es[i])
  {
    var u := RemoveAt(es, i);
    assert forall k :: 0 <= k < |u| ==> u[k] == es[if k < i then k else k + 1];
  }

  lemma ApplyKeepsShape(es: seq<Entry>, req: MappingReq, bindPort: u16, now: u64)
    requires Shaped(es)
    ensures Shaped(ApplyEntry(es, req, req.client, bindPort, now).0)
  {
    hide Shaped, InsertAt, RemoveAt;
    var i := FirstIndex(es, IsInternal(req.proto, req.client, req.intPort));
    var j := FirstIndex(es, IsHandle(req.ext, req.proto, req.client));
    var e := EntryFor(req, req.client, bindPort, now);
    if i < |es| {
      var moved := Relabelled(es[i], req, now);
      var rest := RemoveAt(es, i);
      RemoveKeepsShape(es, i);
      OwnerOf(es, i);
      InsertKeepsShape(rest, FirstIndex(rest, (x: Entry) => Before(moved, x)), moved);
    } else {
      forall x | x in es ensures !SameInternal(x, e) {
        var k :| 0 <= k < |es| && es[k] == x;
        assert !IsInternal(req.proto, req.client, req.intPort)(es[k]);
      }
      if req.ext != 0 && j < |es| {
        RemoveKeepsShape(es, j);
        assert es[j := e] == InsertAt(RemoveAt(es, j), j, e) by { ReplacedIsMoved(es, j, e); }
        RemovedMembers(es, j);
        InsertKeepsShape(RemoveAt(es, j), j, e);
      } else {
        InsertKeepsShape(es, FirstIndex(es, (x: Entry) => Before(e, x)), e);
      }
    }
  }

  lemma OwnerOf(es: seq<Entry>, i: nat)
    requires Shaped(es) && i < |es|
    ensures es[i].owner == es[i].client
  {}

  lemma ReplacedIsMoved(es: seq<Entry>, j: nat, e: Entry)
    requires j < |es|
    ensures es[j := e] == InsertAt(RemoveAt(es, j), j, e)
  {}

  lemma RemovedMembers(es: seq<Entry>, j: nat)
    requires j < |es|
    ensures forall x :: x in RemoveAt(es, j) ==> x in es
  {}

  // ---- grants ----

  lemma DropPortKeepsSelf(st: State, port: u16)
    requires SelfInv(st)
    ensures SelfInv(DropPort(st, port))
  {
    DropPortKeepsAgreement(st, port, true);
    hide Agree;
    FilterKeepsShape(st.entries, Not(BoundTo(port)));
  }

  lemma ReliefKeepsSelf(st: State, req: MappingReq, owner: Ipv4, env: GrantEnv)
    requires SelfInv(st)
    ensures SelfInv(Relieved(Steered(st, req, owner, env), req, env))
  {
    hide Victim, Upsert, DropPort;
    var s := Steered(st, req, owner, env);
    assert SelfInv(s);
    hide SelfInv;
    var v := Victim(s.table.slots, env.evictNow, LEASE_GRACE, req.client);
    if v.Some? {
      DropPortKeepsSelf(s, v.value.bindPort);
    }
  }

  // A caller's two lookups of its own mapping meet.
  lemma SelfLookupsMeet(st: State, req: MappingReq, now: u64)
    requires SelfInv(st) && Admitted(UpsertFor(st.table, req, now).1)
    ensures LookupsMeet(st, req, req.client, now)
  {
    var o := UpsertFor(st.table, req, now).1;
    if o.RefreshedAt? {
      RefreshMeetsItsEntry(st, req, now);
    } else {
      FreshMeetsNoEntry(st, req, now);
    }
    hide SelfInv;
  }

  lemma SelfGrantMeets(st: State, req: MappingReq, view: Option<Contain>, env: GrantEnv)
    requires SelfInv(st)
    ensures GrantMeets(st, req, req.client, view, env)
  {
    hide SelfInv, Relieved, Steered, Upsert, LookupsMeet, Recorded;
    var leased := Leased(req);
    ReliefKeepsSelf(st, leased, req.client, env);
    var s := Relieved(Steered(st, leased, req.client, env), leased, env);
    if Admitted(UpsertFor(s.table, leased, env.now).1) {
      SelfLookupsMeet(s, leased, env.now);
    }
  }

  lemma GrantKeepsShape(st: State, req: MappingReq, view: Option<Contain>, env: GrantEnv)
    requires SelfInv(st)
    ensures Shaped(Grant(st, req, req.client, view, env).0.entries)
  {
    hide Agree, Relieved, Steered, Upsert, DeletePort, ApplyEntry;
    var leased := Leased(req);
    var s := Relieved(Steered(st, leased, req.client, env), leased, env);
    ReliefKeepsSelf(st, leased, req.client, env);
    var o := UpsertFor(s.table, leased, env.now).1;
    if Admitted(o) {
      ApplyKeepsShape(s.entries, leased, o.bindPort, env.now);
    }
  }

  lemma {:induction false} DeleteAllKeepsShape(st: State, targets: seq<Entry>, view: Option<Contain>)
    requires Shaped(st.entries)
    ensures Shaped(DeleteAll(st, targets, view).entries)
  {
    if targets != [] {
      hide Shaped, DeletePort;
      var front, e := targets[..|targets| - 1], targets[|targets| - 1];
      DeleteAllKeepsShape(st, front, view);
      FilterKeepsShape(DeleteAll(st, front, view).entries, Not(IsHandle(e.reqExt, e.proto, e.owner)));
    }
  }

  // ---- steps and runs ----

  predicate SelfMapping(step: Step) {
    match step
    case DoGrant(req, owner, _, _) => owner == req.client
    case DoGrantPreferred(req, owner, _, _) => owner == req.client
    case _ => true
  }

  // Every delete that is carried out finds its label once.
  ghost predicate LabelsOnce(st: State, step: Step) {
    match step
    case DoDelete(ext, proto, caller, view) => DeleteMeets(st, ext, proto, caller, view)
    case DoDeleteRange(start, end, proto, view) =>
      DeletesMeet(st, Filter(st.entries, InRange(start, end, proto, view)), view)
    case _ => true
  }

  lemma StepKeepsShape(st: State, step: Step)
    requires SelfInv(st) && SelfMapping(step)
    ensures Shaped(Take(st, step).entries)
  {
    hide Agree, Grant, DeletePort, DeleteAll, MovePort, RestorePort, StampPorts, Stamp, PreferredLabel;
    match step
    case DoGrant(req, owner, view, env) => GrantKeepsShape(st, req, view, env);
    case DoGrantPreferred(req, owner, view, env) =>
      GrantKeepsShape(st, req.(ext := PreferredLabel(st.entries, req.ext, req.proto)), None, env);
    case DoDelete(ext, proto, caller, view) => FilterKeepsShape(st.entries, Not(IsHandle(ext, proto, caller)));
    case DoDeleteRange(start, end, proto, view) =>
      DeleteAllKeepsShape(st, Filter(st.entries, InRange(start, end, proto, view)), view);
    case DoYield(port, datapathUp) =>
      var i := FirstIndex(st.entries, BoundTo(port));
      if i < |st.entries| {
        assert st.entries[i] in st.entries;
        assert forall q: u16 :: Shaped(st.entries[i := st.entries[i].(bindPort := q)]);
      }
    case DoCollectExpired(now, grace) =>
      FilterKeepsShape(st.entries, BoundOutside(Ports(Filter(st.table.slots, Not(SurvivesGc(now, grace))))));
    case DoCollectIdle(now) =>
      FilterKeepsShape(st.entries, BoundOutside(Ports(Filter(st.table.slots, Not(SurvivesIdle(now, LEASE_BACKSTOP))))));
    case _ =>
  }

  lemma SelfStepMeets(st: State, step: Step)
    requires SelfInv(st) && SelfMapping(step)
    ensures Meets(st, step) <==> LabelsOnce(st, step)
  {
    hide SelfInv, GrantMeets, PreferredLabel, DeleteMeets, DeletesMeet;
    match step
    case DoGrant(req, owner, view, env) => SelfGrantMeets(st, req, view, env);
    case DoGrantPreferred(req, owner, view, env) =>
      SelfGrantMeets(st, req.(ext := PreferredLabel(st.entries, req.ext, req.proto)), None, env);
    case _ =>
  }

  // A step of a self-mapping caller costs the agreement exactly when it deletes a label the owner has several times.
  lemma SelfStepExactly(st: State, step: Step)
    requires SelfInv(st) && SelfMapping(step)
    ensures SelfInv(Take(st, step)) <==> LabelsOnce(st, step)
  {
    hide Agree, Take, LabelsOnce, Meets;
    SelfStepMeets(st, step);
    StepAgreesExactly(st, step);
    StepKeepsShape(st, step);
  }

  ghost predicate SelfMappedRun(st: State, steps: seq<Step>) {
    steps != [] ==>
      var front, step := steps[..|steps| - 1], steps[|steps| - 1];
      SelfMappedRun(st, front) && SelfMapping(step) && LabelsOnce(Run(st, front), step)
  }

  // Over every run in which callers map for themselves, under whatever labels and relabelling as they like, and
  // delete a label only while they have it once: slots and entries agree on every mapping and its terms.
  lemma {:induction false} EverySelfMappedRunAgrees(st: State, steps: seq<Step>)
    requires SelfInv(st) && SelfMappedRun(st, steps)
    ensures SelfInv(Run(st, steps))
  {
    if steps != [] {
      hide SelfInv, Take, LabelsOnce;
      EverySelfMappedRunAgrees(st, steps[..|steps| - 1]);
      SelfStepExactly(Run(st, steps[..|steps| - 1]), steps[|steps| - 1]);
    }
  }

  // Such a run meets the exact condition of every run.
  lemma {:induction false} SelfMappedRunMeets(st: State, steps: seq<Step>)
    requires SelfInv(st) && SelfMappedRun(st, steps)
    ensures AlwaysMeets(st, steps)
  {
    hide Agree, Take, Meets, LabelsOnce, AlwaysAgrees, AlwaysMeets;
    AlwaysByFront(st, steps);
    if steps != [] {
      var front := steps[..|steps| - 1];
      SelfMappedRunMeets(st, front);
      EverySelfMappedRunAgrees(st, front);
      SelfStepMeets(Run(st, front), steps[|steps| - 1]);
    }
  }

  // A disciplined run is such a run: with every label used once, each delete finds its label once.
  lemma {:induction false} DisciplinedIsSelfMapped(st: State, steps: seq<Step>)
    requires FacadeInv(st) && DisciplinedRun(st, steps)
    ensures SelfMappedRun(st, steps) && SelfInv(Run(st, steps))
  {
    InvIsSelf(st);
    if steps != [] {
      hide SelfInv, FacadeInv, Take, LabelsOnce;
      var front, step := steps[..|steps| - 1], steps[|steps| - 1];
      DisciplinedIsSelfMapped(st, front);
      EveryDisciplinedRunAgrees(st, front);
      EveryDisciplinedRunAgrees(st, steps);
      InvIsSelf(Run(st, steps));
      SelfStepExactly(Run(st, front), step);
    }
  }
}
