// Exactly when a step keeps table and index in agreement, terms included, whoever maps for whom under what label.
module AgreementExact {
  import opened Net
  import opened Seqs
  import opened LeaseTables
  import opened TableLaws
  import opened Facade
  import opened Agreement
  import opened FacadeLaws
  import opened FacadeRuns

  // ---- grants ----

  // The guards of a grant: contained, on the LAN, admitted once pressure has made room, and, for a fresh slot,
  // with a datapath that comes up.
  ghost predicate Grantable(st: State, req: MappingReq, owner: Ipv4, view: Option<Contain>, env: GrantEnv) {
    var leased := Leased(req);
    var o := UpsertFor(Relieved(Steered(st, leased, owner, env), leased, env).table, leased, env.now).1;
    (view.Some? ==> RequestWithin(view.value, req.client, req.ext, req.intPort))
    && InLan(req.client, st.lan)
    && Admitted(o) && (o.GrantedAt? ==> env.datapathUp)
  }

  lemma GrantableExactly(st: State, req: MappingReq, owner: Ipv4, view: Option<Contain>, env: GrantEnv)
    ensures Grant(st, req, owner, view, env).1.Ok? <==> Grantable(st, req, owner, view, env)
  {
    hide Relieved, Steered, Upsert, Recorded;
  }

  // A grant that passes them finds table and index telling the same mapping or none.
  ghost predicate GrantMeets(st: State, req: MappingReq, owner: Ipv4, view: Option<Contain>, env: GrantEnv) {
    var leased := Leased(req);
    Grantable(st, req, owner, view, env) ==>
      LookupsMeet(Relieved(Steered(st, leased, owner, env), leased, env), leased, owner, env.now)
  }

  lemma AdmitAgreesExactly(st: State, req: MappingReq, owner: Ipv4, env: GrantEnv)
    requires Agree(st, true)
    ensures Agree(Admit(st, req, owner, env).0, true) <==>
            (Admit(st, req, owner, env).1.Ok? ==> LookupsMeet(st, req, owner, env.now))
  {
    hide Upsert, DeletePort, Recorded, LookupsMeet, TableInv, GrantRows, EntryRows, DistinctBinds;
    var o := UpsertFor(st.table, req, env.now).1;
    if Admitted(o) {
      if o.GrantedAt? && !env.datapathUp {
        RollbackUndoes(st.table, req, env.now);
      } else {
        RecordTermsExactly(st, req, owner, env.now);
      }
    } else {
      RefusalChangesNothing(st.table, KeyOf(req), req.lifetime, env.now, req.client, req.intPort);
    }
  }

  // A grant keeps the terms in agreement exactly when it is refused or its lookups meet.
  lemma GrantAgreesExactly(st: State, req: MappingReq, owner: Ipv4, view: Option<Contain>, env: GrantEnv)
    requires Agree(st, true)
    ensures Agree(Grant(st, req, owner, view, env).0, true) <==> GrantMeets(st, req, owner, view, env)
  {
    GrantableExactly(st, req, owner, view, env);
    hide Admit, Upsert, Evict, LookupsMeet, Agree, Grantable;
    var leased := Leased(req);
    var steered := Steered(st, leased, owner, env);
    SteeringAgrees(st, leased, owner, env);
    EvictKeepsAgreement(steered, env.evictNow, req.client, true);
    AdmitAgreesExactly(Relieved(steered, leased, env), leased, owner, env);
  }

  lemma SteeringAgrees(st: State, req: MappingReq, owner: Ipv4, env: GrantEnv)
    requires Agree(st, true)
    ensures Agree(Steered(st, req, owner, env), true)
  {}

  // ---- deletes ----

  // A label whose first entry the caller may touch is there once.
  ghost predicate LabelOk(es: seq<Entry>, handle: Entry -> bool, view: Option<Contain>) {
    Exists(es, handle) && Visible(view, es[FirstIndex(es, handle)]) ==> Count(es, handle) == 1
  }

  // A delete that is carried out finds the caller's label once.
  ghost predicate DeleteMeets(st: State, ext: u16, proto: Proto, caller: Ipv4, view: Option<Contain>) {
    LabelOk(st.entries, IsHandle(ext, proto, caller), view)
  }

  lemma DeleteOkExactly(st: State, ext: u16, proto: Proto, caller: Ipv4, view: Option<Contain>)
    ensures var es, handle := st.entries, IsHandle(ext, proto, caller);
            Delete(st, ext, proto, caller, view).1.Ok? <==>
            Exists(es, handle) && Visible(view, es[FirstIndex(es, handle)])
  {
    hide DeletePort;
  }

  // So does each delete of a range, by the entries before the first of them.
  ghost predicate DeletesMeet(st: State, targets: seq<Entry>, view: Option<Contain>) {
    forall t :: t in targets ==> DeleteMeets(st, t.reqExt, t.proto, t.owner, view)
  }

  // The same, one delete at a time.
  ghost predicate StepwiseMeet(st: State, targets: seq<Entry>, view: Option<Contain>) {
    targets == []
    || (var front, e := targets[..|targets| - 1], targets[|targets| - 1];
        StepwiseMeet(st, front, view)
        && DeleteMeets(DeleteAll(st, front, view), e.reqExt, e.proto, e.owner, view))
  }

  // A label is judged by its entries alone.
  lemma LabelOkByFilter(es: seq<Entry>, handle: Entry -> bool, view: Option<Contain>)
    ensures var own := Filter(es, handle);
            LabelOk(es, handle, view) <==> (own != [] && Visible(view, own[0]) ==> |own| == 1)
  {
    FirstOfFilter(es, handle);
  }

  lemma {:induction false} FirstOfFilter(es: seq<Entry>, p: Entry -> bool)
    ensures Exists(es, p) <==> Filter(es, p) != []
    ensures Exists(es, p) ==> Filter(es, p)[0] == es[FirstIndex(es, p)]
  {
    if es != [] {
      var front, e := es[..|es| - 1], es[|es| - 1];
      FirstOfFilter(front, p);
      FirstIndexFront(es, p);
    }
  }

  lemma FirstIndexFront(es: seq<Entry>, p: Entry -> bool)
    requires es != []
    ensures var n := |es| - 1;
            var i := FirstIndex(es[..n], p);
            FirstIndex(es, p) == if i < n || p(es[n]) then i else |es|
  {
    var front := es[..|es| - 1];
    assert forall k :: 0 <= k < |front| ==> front[k] == es[k];
  }

  // After some deletes a label's entries are all there or all gone, and gone only if the label was deleted.
  lemma {:induction false} LabelAllOrNone(
    st: State, targets: seq<Entry>, view: Option<Contain>, ext: u16, proto: Proto, owner: Ipv4)
    ensures var handle := IsHandle(ext, proto, owner);
            var left := Filter(DeleteAll(st, targets, view).entries, handle);
            left == Filter(st.entries, handle)
            || (left == [] && exists t :: t in targets && handle(t))
  {
    if targets != [] {
      hide DeletePort, Filter;
      var front, e := targets[..|targets| - 1], targets[|targets| - 1];
      LabelAllOrNone(st, front, view, ext, proto, owner);
      assert forall t :: t in front ==> t in targets;
      assert e in targets;
      LabelAfterDelete(DeleteAll(st, front, view), e, view, ext, proto, owner);
    }
  }

  lemma LabelAfterDelete(st: State, e: Entry, view: Option<Contain>, ext: u16, proto: Proto, owner: Ipv4)
    ensures var handle := IsHandle(ext, proto, owner);
            var left := Filter(Delete(st, e.reqExt, e.proto, e.owner, view).0.entries, handle);
            left == Filter(st.entries, handle) || (left == [] && handle(e))
  {
    hide DeletePort;
    var handle, other := IsHandle(ext, proto, owner), IsHandle(e.reqExt, e.proto, e.owner);
    if handle(e) {
      FilterTwice(st.entries, Not(other), handle, (x: Entry) => false);
      CountZero(st.entries, (x: Entry) => false);
    } else {
      FilterTwice(st.entries, Not(other), handle, handle);
    }
  }

  // Whether each delete finds its label once shows in the entries before the first.
  lemma {:induction false} StepwiseExactly(st: State, targets: seq<Entry>, view: Option<Contain>)
    ensures StepwiseMeet(st, targets, view) <==> DeletesMeet(st, targets, view)
  {
    if targets != [] {
      hide DeleteAll, Delete, LabelOk, Filter;
      var front, e := targets[..|targets| - 1], targets[|targets| - 1];
      var handle, u := IsHandle(e.reqExt, e.proto, e.owner), DeleteAll(st, front, view);
      StepwiseExactly(st, front, view);
      LabelAllOrNone(st, front, view, e.reqExt, e.proto, e.owner);
      LabelOkByFilter(st.entries, handle, view);
      LabelOkByFilter(u.entries, handle, view);
      assert forall t :: t in targets <==> t in front || t == e;
      assert forall t :: t in front && handle(t) ==>
          IsHandle(t.reqExt, t.proto, t.owner) == handle && DeleteMeets(st, t.reqExt, t.proto, t.owner, view)
          == DeleteMeets(st, e.reqExt, e.proto, e.owner, view);
    }
  }

  // A granted slot no entry is bound to: once there, no delete brings agreement back.
  ghost predicate Orphaned(st: State) {
    TableInv(st.table)
    && exists s :: s in st.table.slots && s.lease.Granted? && s.bindPort !in BindsOf(st.entries)
  }

  lemma OrphanDisagrees(st: State, terms: bool)
    requires Orphaned(st)
    ensures !Agree(st, terms)
  {
    hide TableInv;
    if Agree(st, terms) {
      var s :| s in st.table.slots && s.lease.Granted? && s.bindPort !in BindsOf(st.entries);
      var e := SlotHasEntry(st, terms, s);
      assert false;
    }
  }

  lemma DeleteKeepsOrphan(st: State, ext: u16, proto: Proto, caller: Ipv4, view: Option<Contain>)
    requires Orphaned(st)
    ensures Orphaned(Delete(st, ext, proto, caller, view).0)
  {
    hide DeletePort, TableInv;
    var u := Delete(st, ext, proto, caller, view).0;
    var s :| s in st.table.slots && s.lease.Granted? && s.bindPort !in BindsOf(st.entries);
    if u != st {
      var i := FirstIndex(st.entries, IsHandle(ext, proto, caller));
      assert st.entries[i].bindPort in BindsOf(st.entries);
      DeleteKeeps(st.table, st.entries[i].bindPort);
      PortsDistinct(st.table);
      DeleteMembers(st.table, st.entries[i].bindPort);
      assert s in u.table.slots && BindsOf(u.entries) <= BindsOf(st.entries);
    }
  }

  lemma PortsDistinct(t: Table)
    requires TableInv(t)
    ensures DistinctPorts(t.slots)
  {}

  lemma LabelTwice(es: seq<Entry>, handle: Entry -> bool, view: Option<Contain>) returns (j: nat)
    requires !LabelOk(es, handle, view)
    ensures var i := FirstIndex(es, handle);
            i < |es| && Visible(view, es[i]) && j < |es| && j != i && handle(es[j])
  {
    hide Filter;
    var i := FirstIndex(es, handle);
    CountOne(es, i, handle);
    j :| 0 <= j < |es| && j != i && handle(es[j]);
  }

  // A delete of a label the caller has several times takes one slot and leaves the others without an entry.
  lemma DeleteOrphans(st: State, ext: u16, proto: Proto, caller: Ipv4, view: Option<Contain>)
    requires Agree(st, true) && !DeleteMeets(st, ext, proto, caller, view)
    ensures Orphaned(Delete(st, ext, proto, caller, view).0)
  {
    var es, handle := st.entries, IsHandle(ext, proto, caller);
    var j := LabelTwice(es, handle, view);
    hide DeletePort, TableInv, LabelOk;
    var i := FirstIndex(es, handle);
    var u := Delete(st, ext, proto, caller, view).0;
    assert es[j] in es && es[j].bindPort != es[i].bindPort;
    var s := EntryHasSlot(st, true, es[j]);
    DeleteKeeps(st.table, es[i].bindPort);
    PortsDistinct(st.table);
    DeleteMembers(st.table, es[i].bindPort);
    assert s in u.table.slots && s.lease.Granted?;
    hide GrantRows, EntryRows;
    DroppedBinds(es, j, handle);
    assert s.bindPort !in BindsOf(Filter(es, Not(handle)));
  }

  lemma DroppedBinds(es: seq<Entry>, j: nat, handle: Entry -> bool)
    requires DistinctBinds(es) && j < |es| && handle(es[j])
    ensures es[j].bindPort !in BindsOf(Filter(es, Not(handle)))
  {
    forall e | e in Filter(es, Not(handle)) ensures e.bindPort != es[j].bindPort {
      var k :| 0 <= k < |es| && es[k] == e;
      assert k < j || j < k;
    }
  }

  // A sequence of deletes keeps agreement exactly when each label it may touch was there once.
  lemma DeleteAllAgreesExactly(st: State, targets: seq<Entry>, view: Option<Contain>)
    requires Agree(st, true)
    ensures if DeletesMeet(st, targets, view) then Agree(DeleteAll(st, targets, view), true)
            else Orphaned(DeleteAll(st, targets, view))
  {
    hide Agree, Orphaned, DeletesMeet, StepwiseMeet;
    StepwiseExactly(st, targets, view);
    DeleteAllStepwise(st, targets, view);
  }

  lemma {:induction false} DeleteAllStepwise(st: State, targets: seq<Entry>, view: Option<Contain>)
    requires Agree(st, true)
    ensures if StepwiseMeet(st, targets, view) then Agree(DeleteAll(st, targets, view), true)
            else Orphaned(DeleteAll(st, targets, view))
  {
    hide Delete, Agree, Orphaned, DeleteMeets;
    if targets != [] {
      var front, e := targets[..|targets| - 1], targets[|targets| - 1];
      DeleteAllStepwise(st, front, view);
      var u := DeleteAll(st, front, view);
      if !StepwiseMeet(st, front, view) {
        DeleteKeepsOrphan(u, e.reqExt, e.proto, e.owner, view);
      } else if DeleteMeets(u, e.reqExt, e.proto, e.owner, view) {
        DeleteAgrees(u, e.reqExt, e.proto, e.owner, view);
      } else {
        DeleteOrphans(u, e.reqExt, e.proto, e.owner, view);
      }
    }
  }

  lemma DeleteAgrees(st: State, ext: u16, proto: Proto, caller: Ipv4, view: Option<Contain>)
    requires Agree(st, true)
    ensures Agree(Delete(st, ext, proto, caller, view).0, true) <==> DeleteMeets(st, ext, proto, caller, view)
  {
    hide Agree;
    DeleteOkExactly(st, ext, proto, caller, view);
    if Delete(st, ext, proto, caller, view).1.Ok? {
      DeleteExactly(st, ext, proto, caller, view, true);
    }
  }

  // ---- steps and runs ----

  ghost predicate Meets(st: State, step: Step) {
    match step
    case DoGrant(req, owner, view, env) => GrantMeets(st, req, owner, view, env)
    case DoGrantPreferred(req, owner, view, env) =>
      (view.Some? ==> RequestWithin(view.value, req.client, req.ext, req.intPort)) ==>
        GrantMeets(st, req.(ext := PreferredLabel(st.entries, req.ext, req.proto)), owner, None, env)
    case DoDelete(ext, proto, caller, view) => DeleteMeets(st, ext, proto, caller, view)
    case DoDeleteRange(start, end, proto, view) =>
      DeletesMeet(st, Filter(st.entries, InRange(start, end, proto, view)), view)
    case _ => true
  }

  // A step keeps agreement exactly when the lookups of its grants meet and its deletes find their label once.
  lemma StepAgreesExactly(st: State, step: Step)
    requires Agree(st, true)
    ensures Agree(Take(st, step), true) <==> Meets(st, step)
  {
    hide Grant, GrantMeets, Delete, DeleteMeets, DeleteAll, DeletesMeet, Yield, Collect, StampPorts, Stamp,
      PreferredLabel;
    match step
    case DoGrant(req, owner, view, env) => GrantAgreesExactly(st, req, owner, view, env);
    case DoGrantPreferred(req, owner, view, env) =>
      GrantAgreesExactly(st, req.(ext := PreferredLabel(st.entries, req.ext, req.proto)), owner, None, env);
    case DoDelete(ext, proto, caller, view) => DeleteAgrees(st, ext, proto, caller, view);
    case DoDeleteRange(start, end, proto, view) =>
      hide Agree, Orphaned, Filter;
      var targets := Filter(st.entries, InRange(start, end, proto, view));
      DeleteAllAgreesExactly(st, targets, view);
      NothingToDelete(st, view);
      if !DeletesMeet(st, targets, view) {
        OrphanDisagrees(DeleteAll(st, targets, view), true);
      }
    case DoReserve(live) =>
    case DoYield(port, datapathUp) => YieldKeepsAgreement(st, port, datapathUp, true);
    case DoCollectExpired(now, grace) => CollectKeepsAgreement(st, SurvivesGc(now, grace), true);
    case DoCollectIdle(now) => CollectKeepsAgreement(st, SurvivesIdle(now, LEASE_BACKSTOP), true);
    case DoStampClient(client, now) => StampPortsKeepsAgreement(st, st.entries, client, now, true);
    case DoStampTraffic(port, now, minInterval) => StampKeepsAgreement(st, port, now, minInterval, true);
  }

  lemma NothingToDelete(st: State, view: Option<Contain>)
    ensures DeletesMeet(st, [], view) && DeleteAll(st, [], view) == st
  {}

  ghost predicate AlwaysAgrees(st: State, steps: seq<Step>) {
    forall n :: 0 <= n <= |steps| ==> Agree(Run(st, steps[..n]), true)
  }

  ghost predicate AlwaysMeets(st: State, steps: seq<Step>) {
    forall n :: 0 <= n < |steps| ==> Meets(Run(st, steps[..n]), steps[n])
  }

  // Over every run of any callers under any labels: table and index agree all along exactly when every grant's
  // lookups meet and every delete finds its label once.
  lemma {:induction false} RunAgreesExactly(st: State, steps: seq<Step>)
    requires Agree(st, true)
    ensures AlwaysAgrees(st, steps) <==> AlwaysMeets(st, steps)
  {
    hide Agree, Meets, Take, AlwaysAgrees, AlwaysMeets;
    AlwaysByFront(st, steps);
    if steps != [] {
      var front := steps[..|steps| - 1];
      RunAgreesExactly(st, front);
      if Agree(Run(st, front), true) {
        StepAgreesExactly(Run(st, front), steps[|steps| - 1]);
      }
      AlwaysIsNow(st, front);
    }
  }

  lemma AlwaysByFront(st: State, steps: seq<Step>)
    requires Agree(st, true)
    ensures if steps == [] then AlwaysAgrees(st, steps) && AlwaysMeets(st, steps)
            else
              var front := steps[..|steps| - 1];
              (AlwaysAgrees(st, steps) <==> AlwaysAgrees(st, front) && Agree(Run(st, steps), true))
              && (AlwaysMeets(st, steps) <==> AlwaysMeets(st, front) && Meets(Run(st, front), steps[|steps| - 1]))
  {
    hide Agree, Meets, Take;
    if steps == [] {
      assert steps[..0] == [];
    } else {
      var n := |steps| - 1;
      var front := steps[..n];
      hide Run;
      assert forall k :: 0 <= k <= n ==> front[..k] == steps[..k];
      assert steps[..n + 1] == steps;
    }
  }

  lemma AlwaysIsNow(st: State, steps: seq<Step>)
    ensures AlwaysAgrees(st, steps) ==> Agree(Run(st, steps), true)
  {
    hide Agree, Run;
    assert steps[..|steps|] == steps;
  }
}
