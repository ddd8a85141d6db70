// What deletes, wildcard allocations, yields and stamps answer and change, spelled out.
module EditAnswers {
  import opened Net
  import opened Seqs
  import opened LeaseTables
  import opened TableLaws
  import opened Facade
  import opened Agreement
  import opened FacadeRuns
  import opened GrantAnswers

  // What a contained caller may delete: its own mappings, on the v2 face those with both ports high.
  predicate Touchable(view: Option<Contain>, e: Entry) {
    view.Some? ==>
      e.owner == view.value.caller && (view.value.highPort ==> e.intPort >= 1024 && e.reqExt >= 1024)
  }

  predicate Labelled(e: Entry, ext: u16, proto: Proto, owner: Ipv4) {
    e.reqExt == ext && e.proto == proto && e.owner == owner
  }

  predicate FirstLabelled(es: seq<Entry>, i: int, ext: u16, proto: Proto, owner: Ipv4) {
    0 <= i < |es| && Labelled(es[i], ext, proto, owner)
    && forall j :: 0 <= j < i ==> !Labelled(es[j], ext, proto, owner)
  }

  // ---- one delete ----

  ghost predicate Deleted(st: State, u: State, ext: u16, proto: Proto, owner: Ipv4, port: u16) {
    (forall e :: e in u.entries <==> e in st.entries && !Labelled(e, ext, proto, owner))
    && (forall s :: s in u.table.slots <==> s in st.table.slots && s.bindPort != port)
  }

  // A delete finds the caller's first entry under the label; if the caller may touch it, its slot goes and so does
  // every entry of the caller under the label.
  lemma DeleteAnswersExactly(st: State, ext: u16, proto: Proto, caller: Ipv4, view: Option<Contain>)
    requires DistinctPorts(st.table.slots)
    ensures var (u, r) := Delete(st, ext, proto, caller, view);
            if forall e :: e in st.entries ==> !Labelled(e, ext, proto, caller) then u == st && r == Err(NoSuchEntry)
            else exists i ::
                   FirstLabelled(st.entries, i, ext, proto, caller)
                   && (if Touchable(view, st.entries[i])
                       then r == Ok(()) && Deleted(st, u, ext, proto, caller, st.entries[i].bindPort)
                       else u == st && r == Err(NotAuthorized))
  {
    LabelFound(st.entries, ext, proto, caller);
    var i := FirstIndex(st.entries, IsHandle(ext, proto, caller));
    if i < |st.entries| && Touchable(view, st.entries[i]) {
      DeleteTakes(st, ext, proto, caller, view);
    }
    hide FirstIndex, DeletePort, FirstLabelled, DistinctPorts, Deleted, Filter, Labelled;
  }

  lemma DeleteTakes(st: State, ext: u16, proto: Proto, caller: Ipv4, view: Option<Contain>)
    requires DistinctPorts(st.table.slots)
    requires var i := FirstIndex(st.entries, IsHandle(ext, proto, caller));
             i < |st.entries| && Touchable(view, st.entries[i])
    ensures var i := FirstIndex(st.entries, IsHandle(ext, proto, caller));
            Deleted(st, Delete(st, ext, proto, caller, view).0, ext, proto, caller, st.entries[i].bindPort)
  {
    DeleteMembers(st.table, st.entries[FirstIndex(st.entries, IsHandle(ext, proto, caller))].bindPort);
    hide FirstIndex, DeletePort, DistinctPorts;
  }

  lemma LabelFound(es: seq<Entry>, ext: u16, proto: Proto, owner: Ipv4)
    ensures var i := FirstIndex(es, IsHandle(ext, proto, owner));
            (i == |es| <==> forall e :: e in es ==> !Labelled(e, ext, proto, owner))
            && (i < |es| ==> FirstLabelled(es, i, ext, proto, owner))
  {
    var i := FirstIndex(es, IsHandle(ext, proto, owner));
    assert forall j :: 0 <= j < i ==> !IsHandle(ext, proto, owner)(es[j]);
    if i < |es| {
      assert es[i] in es;
    }
  }

  // ---- a range ----

  predicate Inside(e: Entry, start: u16, end: u16, proto: Proto) { e.proto == proto && start <= e.reqExt <= end }

  // The first entry under e's own label is one the caller may touch.
  ghost predicate Leads(es: seq<Entry>, e: Entry, view: Option<Contain>) {
    exists i :: FirstLabelled(es, i, e.reqExt, e.proto, e.owner) && Touchable(view, es[i])
  }

  ghost predicate First(es: seq<Entry>, e: Entry) {
    exists i :: FirstLabelled(es, i, e.reqExt, e.proto, e.owner) && es[i] == e
  }

  ghost predicate RangeDeleted(
    st: State, u: State, start: u16, end: u16, proto: Proto, view: Option<Contain>)
  {
    var es := st.entries;
    (forall e :: e in u.entries <==> e in es && !(Inside(e, start, end, proto) && Leads(es, e, view)))
    && (forall s :: s in u.table.slots <==>
          s in st.table.slots
          && forall e :: e in es && Inside(e, start, end, proto) && First(es, e) && Touchable(view, e) ==>
               e.bindPort != s.bindPort)
  }

  // What the deletes of some targets have struck: entries whose label a target has and whose first may be touched.
  ghost predicate Struck(es: seq<Entry>, targets: seq<Entry>, view: Option<Contain>, e: Entry) {
    Leads(es, e, view) && exists t :: t in targets && Labelled(t, e.reqExt, e.proto, e.owner)
  }

  ghost function Spared(es: seq<Entry>, targets: seq<Entry>, view: Option<Contain>): Entry -> bool {
    (e: Entry) => !Struck(es, targets, view, e)
  }

  lemma {:induction false} FirstOfFilter(es: seq<Entry>, p: Entry -> bool, h: Entry -> bool)
    requires forall e :: e in es && h(e) ==> p(e)
    ensures var i, j := FirstIndex(es, h), FirstIndex(Filter(es, p), h);
            (i < |es| <==> j < |Filter(es, p)|) && (i < |es| ==> Filter(es, p)[j] == es[i])
  {
    if es != [] {
      var front, x := es[..|es| - 1], es[|es| - 1];
      assert es == front + [x];
      FirstOfFilter(front, p, h);
      FirstOfMore(front, x, h);
      FirstOfMore(Filter(front, p), x, h);
      assert x in es;
    }
  }

  lemma FirstOfMore(es: seq<Entry>, x: Entry, h: Entry -> bool)
    ensures var i := FirstIndex(es, h);
            FirstIndex(es + [x], h) == if i < |es| || h(x) then i else |es| + 1
  {
    var more := es + [x];
    var i, j := FirstIndex(es, h), FirstIndex(more, h);
    assert more[|es|] == x && forall k :: 0 <= k < |es| ==> more[k] == es[k];
    hide FirstIndex;
    assert j < |es| ==> h(es[j]);
    assert i < |es| ==> h(more[i]);
  }

  // The first entry under a label, as the delete finds it.
  lemma FirstFound(es: seq<Entry>, e: Entry, view: Option<Contain>)
    requires e in es
    ensures var i := FirstIndex(es, IsHandle(e.reqExt, e.proto, e.owner));
            i < |es| && FirstLabelled(es, i, e.reqExt, e.proto, e.owner) && First(es, es[i])
            && (Leads(es, e, view) <==> Touchable(view, es[i]))
            && forall f :: First(es, f) && Labelled(f, e.reqExt, e.proto, e.owner) ==> f == es[i]
  {
    var h := IsHandle(e.reqExt, e.proto, e.owner);
    var k :| 0 <= k < |es| && es[k] == e;
    assert h(es[k]);
    var i := FirstIndex(es, h);
    assert forall j :: 0 <= j < i ==> !h(es[j]);
    assert FirstLabelled(es, i, e.reqExt, e.proto, e.owner);
    assert FirstLabelled(es, i, es[i].reqExt, es[i].proto, es[i].owner);
  }

  ghost predicate AllStruck(st: State, u: State, targets: seq<Entry>, view: Option<Contain>) {
    var es := st.entries;
    u.entries == Filter(es, Spared(es, targets, view)) && DistinctPorts(u.table.slots)
    && (forall s :: s in u.table.slots <==>
          s in st.table.slots
          && forall e :: e in es && First(es, e) && Struck(es, targets, view, e) ==> e.bindPort != s.bindPort)
  }

  lemma OneMoreStruck(es: seq<Entry>, targets: seq<Entry>, t: Entry, view: Option<Contain>, e: Entry)
    ensures Struck(es, targets + [t], view, e) <==>
            Struck(es, targets, view, e) || (Leads(es, e, view) && Labelled(t, e.reqExt, e.proto, e.owner))
  {
    assert forall x :: x in targets + [t] <==> x in targets || x == t;
  }

  // Entries under one label are struck together.
  lemma StruckAlike(es: seq<Entry>, targets: seq<Entry>, view: Option<Contain>, e: Entry, f: Entry)
    requires Labelled(f, e.reqExt, e.proto, e.owner)
    ensures Struck(es, targets, view, e) == Struck(es, targets, view, f) && Leads(es, e, view) == Leads(es, f, view)
  {}

  lemma NoneLeft(st: State, u: State, targets: seq<Entry>, t: Entry, view: Option<Contain>)
    requires u.entries == Filter(st.entries, Spared(st.entries, targets, view)) && Struck(st.entries, targets, view, t)
    ensures Delete(u, t.reqExt, t.proto, t.owner, view).0 == u
  {
    var i := FirstIndex(u.entries, IsHandle(t.reqExt, t.proto, t.owner));
    if i < |u.entries| {
      assert u.entries[i] in u.entries;
      StruckAlike(st.entries, targets, view, u.entries[i], t);
    }
  }

  lemma NotTouched(u: State, t: Entry, view: Option<Contain>)
    requires var i := FirstIndex(u.entries, IsHandle(t.reqExt, t.proto, t.owner));
             i < |u.entries| && !Touchable(view, u.entries[i])
    ensures Delete(u, t.reqExt, t.proto, t.owner, view).0 == u
  {}

  // A target more strikes what has its label, if the first of that may be touched.
  lemma StruckMore(es: seq<Entry>, targets: seq<Entry>, t: Entry, view: Option<Contain>)
    ensures var h := IsHandle(t.reqExt, t.proto, t.owner);
            (forall e :: Struck(es, targets + [t], view, e) <==>
                         Struck(es, targets, view, e) || (Leads(es, t, view) && h(e)))
            && (forall e :: h(e) ==> Struck(es, targets, view, e) == Struck(es, targets, view, t))
  {
    var h := IsHandle(t.reqExt, t.proto, t.owner);
    forall e
      ensures Struck(es, targets + [t], view, e) <==> Struck(es, targets, view, e) || (Leads(es, t, view) && h(e))
      ensures h(e) ==> Struck(es, targets, view, e) == Struck(es, targets, view, t)
    {
      OneMoreStruck(es, targets, t, view, e);
      if h(e) {
        StruckAlike(es, targets, view, e, t);
      }
    }
  }

  // Of the first entries under their labels it strikes one more.
  lemma StruckFirsts(es: seq<Entry>, targets: seq<Entry>, t: Entry, view: Option<Contain>)
    requires t in es && Leads(es, t, view)
    ensures var first := es[FirstIndex(es, IsHandle(t.reqExt, t.proto, t.owner))];
            First(es, first) && first in es
            && forall e :: First(es, e) ==>
                 (Struck(es, targets + [t], view, e) <==> Struck(es, targets, view, e) || e == first)
  {
    StruckMore(es, targets, t, view);
    FirstFound(es, t, view);
    hide Struck, Leads, First;
  }

  // The first entry under the label is found and may be touched.
  lemma DeletesFirst(st: State, u: State, targets: seq<Entry>, t: Entry, view: Option<Contain>)
    requires AllStruck(st, u, targets, view) && t in st.entries && Leads(st.entries, t, view)
    requires !Struck(st.entries, targets, view, t)
    ensures AllStruck(st, Delete(u, t.reqExt, t.proto, t.owner, view).0, targets + [t], view)
  {
    var es, h := st.entries, IsHandle(t.reqExt, t.proto, t.owner);
    var more, spared := targets + [t], Spared(es, targets, view);
    StruckMore(es, targets, t, view);
    StruckFirsts(es, targets, t, view);
    FirstFound(es, t, view);
    hide Struck, Leads, First, FirstLabelled, DeletePort, FirstIndex, DistinctPorts, Filter;
    FirstOfFilter(es, spared, h);
    var first := es[FirstIndex(es, h)];
    DeletesTo(u, t, first, view);
    FilterTwice(es, spared, Not(h), Spared(es, more, view));
    DeleteMembers(u.table, first.bindPort);
    DeleteStaysDistinct(u.table, first.bindPort);
    hide Delete;
  }

  lemma DeletesTo(u: State, t: Entry, first: Entry, view: Option<Contain>)
    requires var i := FirstIndex(u.entries, IsHandle(t.reqExt, t.proto, t.owner));
             i < |u.entries| && u.entries[i] == first && Touchable(view, first)
    ensures Delete(u, t.reqExt, t.proto, t.owner, view).0 ==
            u.(table := DeletePort(u.table, first.bindPort),
               entries := Filter(u.entries, Not(IsHandle(t.reqExt, t.proto, t.owner))))
  {
    hide DeletePort, FirstIndex, Filter;
  }

  lemma DeleteStaysDistinct(t: Table, port: u16)
    requires DistinctPorts(t.slots)
    ensures DistinctPorts(DeletePort(t, port).slots)
  {
    var i := FirstIndex(t.slots, HasPort(port));
    if i < |t.slots| {
      var u := SwapRemove(t.slots, i);
      var n := |t.slots| - 1;
      assert forall k :: 0 <= k < n ==> u[k] == if k == i then t.slots[n] else t.slots[k];
    }
  }

  lemma DeleteStrikes(st: State, u: State, targets: seq<Entry>, t: Entry, view: Option<Contain>)
    requires AllStruck(st, u, targets, view) && t in st.entries
    ensures AllStruck(st, Delete(u, t.reqExt, t.proto, t.owner, view).0, targets + [t], view)
  {
    var es, h := st.entries, IsHandle(t.reqExt, t.proto, t.owner);
    StruckMore(es, targets, t, view);
    hide Struck, Leads, First, FirstLabelled, Touchable;
    if Struck(es, targets, view, t) {
      NoneLeft(st, u, targets, t, view);
      FilterAlike(es, Spared(es, targets, view), Spared(es, targets + [t], view));
    } else {
      FirstFound(es, t, view);
      FirstOfFilter(es, Spared(es, targets, view), h);
      if Leads(es, t, view) {
        DeletesFirst(st, u, targets, t, view);
      } else {
        FilterAlike(es, Spared(es, targets, view), Spared(es, targets + [t], view));
        assert Delete(u, t.reqExt, t.proto, t.owner, view).0 == u by {
          NotTouched(u, t, view);
        }
      }
    }
  }

  lemma {:induction false} AllStrikes(st: State, targets: seq<Entry>, view: Option<Contain>)
    requires DistinctPorts(st.table.slots) && forall t :: t in targets ==> t in st.entries
    ensures AllStruck(st, DeleteAll(st, targets, view), targets, view)
  {
    if targets == [] {
      FilterAll(st.entries, Spared(st.entries, [], view));
    } else {
      var front, t := targets[..|targets| - 1], targets[|targets| - 1];
      assert targets == front + [t];
      assert forall x :: x in front ==> x in targets;
      AllStrikes(st, front, view);
      hide AllStruck, Delete;
      DeleteStrikes(st, DeleteAll(st, front, view), front, t, view);
    }
  }

  // The targets strike exactly the labels of the range whose first entry may be touched.
  lemma RangeStrikes(es: seq<Entry>, start: u16, end: u16, proto: Proto, view: Option<Contain>, e: Entry)
    requires e in es
    ensures Struck(es, Filter(es, InRange(start, end, proto, view)), view, e)
       <==> Inside(e, start, end, proto) && Leads(es, e, view)
  {
    var targets := Filter(es, InRange(start, end, proto, view));
    FirstFound(es, e, view);
    if Inside(e, start, end, proto) && Leads(es, e, view) {
      var f := es[FirstIndex(es, IsHandle(e.reqExt, e.proto, e.owner))];
      assert f in es && f in targets;
    }
  }

  // A range delete takes every label of the range whose first entry the caller may touch, each with its slot; it is
  // an error when the range holds no entry the caller may touch.
  lemma RangeAnswersExactly(st: State, start: u16, end: u16, proto: Proto, view: Option<Contain>)
    requires DistinctPorts(st.table.slots)
    ensures var (u, r) := DeleteRange(st, start, end, proto, view);
            if exists e :: e in st.entries && Inside(e, start, end, proto) && Touchable(view, e)
            then r == Ok(()) && RangeDeleted(st, u, start, end, proto, view)
            else u == st && r == Err(PortMappingNotFound)
  {
    var es := st.entries;
    var targets := Filter(es, InRange(start, end, proto, view));
    assert forall e :: e in targets <==> e in es && Inside(e, start, end, proto) && Touchable(view, e);
    if targets == [] {
      assert forall e :: e in es ==> e !in targets;
    } else {
      assert targets[0] in targets;
      AllStrikes(st, targets, view);
      RangeIsStruck(st, DeleteAll(st, targets, view), start, end, proto, view);
    }
  }

  lemma RangeIsStruck(st: State, u: State, start: u16, end: u16, proto: Proto, view: Option<Contain>)
    requires AllStruck(st, u, Filter(st.entries, InRange(start, end, proto, view)), view)
    ensures RangeDeleted(st, u, start, end, proto, view)
  {
    var es := st.entries;
    var targets := Filter(es, InRange(start, end, proto, view));
    forall e | e in es
      ensures Struck(es, targets, view, e) <==> Inside(e, start, end, proto) && Leads(es, e, view)
    {
      RangeStrikes(es, start, end, proto, view, e);
    }
    forall e | e in es && First(es, e) ensures Leads(es, e, view) <==> Touchable(view, e) {
      FirstFound(es, e, view);
    }
    hide Struck, Leads, First, Inside, Touchable;
  }

  // ---- the label of a wildcard request ----

  ghost predicate LabelUsed(es: seq<Entry>, proto: Proto, p: u16) {
    exists e :: e in es && e.proto == proto && e.reqExt == p
  }

  // The label asked for, whoever uses it; for none, the lowest from 1024 up that no mapping of the protocol has,
  // and 65535 when all are in use.
  ghost predicate Reserved(es: seq<Entry>, req: MappingReq, p: u16) {
    if req.ext != 0 then p == req.ext
    else
      1024 <= p && (p < 65_535 ==> !LabelUsed(es, req.proto, p))
      && forall q: u16 :: 1024 <= q < p ==> LabelUsed(es, req.proto, q)
  }

  lemma PreferredIsReserved(es: seq<Entry>, req: MappingReq, p: u16)
    ensures Reserved(es, req, p) <==> p == PreferredLabel(es, req.ext, req.proto)
  {
    forall q: u16 ensures LabelUsed(es, req.proto, q) <==> q in LabelsOf(es, req.proto) {}
    var ext := PreferredLabel(es, req.ext, req.proto);
    hide LabelUsed;
    assert Reserved(es, req, ext);
  }

  // The containment is judged on the request as it came; then the mapping is granted under the label, and the
  // label is the answer.
  lemma PreferredAnswersExactly(st: State, req: MappingReq, owner: Ipv4, view: Option<Contain>, env: GrantEnv)
    ensures var (u, r) := GrantPreferred(st, req, owner, view, env);
            if !WithinView(req, view) then u == st && r == Err(NotAuthorized)
            else exists p: u16 ::
                   Reserved(st.entries, req, p)
                   && (var (v, g) := Grant(st, req.(ext := p), owner, None, env);
                       u == v && r == if g.Ok? then Ok(p) else Err(g.error))
  {
    hide Grant, Reserved;
    var p := PreferredLabel(st.entries, req.ext, req.proto);
    PreferredIsReserved(st.entries, req, p);
  }

  // ---- a stamp of one client ----

  lemma StampAt(t: Table, port: u16, now: u64, i: nat)
    requires DistinctPorts(t.slots) && i < |t.slots|
    ensures var u := Stamp(t, port, now, 0);
            |u.slots| == |t.slots| && DistinctPorts(u.slots)
            && u.slots[i] == if t.slots[i].bindPort == port then t.slots[i].(lastActivity := now) else t.slots[i]
  {
    if t.slots[i].bindPort == port {
      assert HasPort(port)(t.slots[i]) && FirstIndex(t.slots, HasPort(port)) == i;
    }
  }

  lemma {:induction false} StampsAt(t: Table, es: seq<Entry>, client: Ipv4, now: u64, i: nat)
    requires DistinctPorts(t.slots) && i < |t.slots|
    ensures var u := StampPorts(t, es, client, now);
            |u.slots| == |t.slots| && DistinctPorts(u.slots)
            && u.slots[i] == if exists e :: e in es && e.client == client && e.bindPort == t.slots[i].bindPort
                             then t.slots[i].(lastActivity := now) else t.slots[i]
  {
    if es != [] {
      hide Stamp, DistinctPorts;
      var front, e := es[..|es| - 1], es[|es| - 1];
      assert es == front + [e];
      StampsAt(t, front, client, now, i);
      StampAt(StampPorts(t, front, client, now), e.bindPort, now, i);
    }
  }

  // An action of a client stamps exactly the slots its mappings are bound to.
  lemma StampExactly(st: State, client: Ipv4, now: u64, i: nat)
    requires DistinctPorts(st.table.slots) && i < |st.table.slots|
    ensures var u, s := Take(st, DoStampClient(client, now)), st.table.slots[i];
            u.entries == st.entries && |u.table.slots| == |st.table.slots|
            && u.table.slots[i] == if exists e :: e in st.entries && e.client == client && e.bindPort == s.bindPort
                                   then s.(lastActivity := now) else s
  {
    hide StampPorts;
    StampsAt(st.table, st.entries, client, now, i);
  }

  // ---- a yield ----

  ghost predicate FirstBound(es: seq<Entry>, i: int, port: u16) {
    0 <= i < |es| && es[i].bindPort == port && forall j :: 0 <= j < i ==> es[j].bindPort != port
  }

  ghost predicate Moved(st: State, u: State, i: int, k: int, port: u16, p: u16) {
    FirstBound(st.entries, i, port) && 0 <= k < |st.table.slots| && st.table.slots[k].bindPort == port
    && Lowest(st.table.cfg, Held(st.table.slots) + st.table.avoid, p)
    && u.table.slots == st.table.slots[k := st.table.slots[k].(bindPort := p)]
    && u.entries == st.entries[i := st.entries[i].(bindPort := p)]
  }

  // A slot with an entry gives up its port: it is set aside, and slot and entry move to the lowest port of the range
  // neither held nor set aside, unless there is none or the datapath does not come up there.
  lemma YieldExactly(st: State, port: u16, datapathUp: bool)
    requires DistinctPorts(st.table.slots)
    ensures var u := Yield(st, port, datapathUp);
            if port !in Held(st.table.slots) || forall e :: e in st.entries ==> e.bindPort != port then u == st
            else
              u.table.cfg == st.table.cfg && u.table.avoid == st.table.avoid + {port}
              && if datapathUp && exists p: u16 :: Lowest(st.table.cfg, Held(st.table.slots) + st.table.avoid, p)
                 then exists i, k, p :: Moved(st, u, i, k, port, p)
                 else u.table.slots == st.table.slots && u.entries == st.entries
  {
    var es, slots := st.entries, st.table.slots;
    var i, k := FirstIndex(es, BoundTo(port)), FirstIndex(slots, HasPort(port));
    NoneBound(es, port);
    NoneOn(slots, port);
    if i < |es| && k < |slots| {
      var t := st.table.(avoid := st.table.avoid + {port});
      var taken := Held(slots) + st.table.avoid;
      assert slots[k] in slots && port in taken;
      assert Held(t.slots) + t.avoid == taken;
      forall p: u16 ensures FreePort(t) == Some(p) <==> Lowest(st.table.cfg, taken, p) {
        FreePortIsLowest(t, taken, p);
      }
      var free := FreePort(t);
      hide FreePort, Lowest;
      if free.Some? {
        if datapathUp {
          assert Moved(st, Yield(st, port, datapathUp), i, k, port, free.value);
        } else {
          FailedYieldOnlyReserves(st.table, port);
        }
      }
    }
  }

  lemma NoneBound(es: seq<Entry>, port: u16)
    ensures var i := FirstIndex(es, BoundTo(port));
            (i == |es| <==> forall e :: e in es ==> e.bindPort != port)
            && (i < |es| ==> FirstBound(es, i, port))
  {
    var i := FirstIndex(es, BoundTo(port));
    assert forall j :: 0 <= j < i ==> !BoundTo(port)(es[j]);
    if i < |es| {
      assert es[i] in es;
    }
  }

  lemma NoneOn(slots: seq<Slot>, port: u16)
    ensures Exists(slots, HasPort(port)) <==> port in Held(slots)
  {
    var i := FirstIndex(slots, HasPort(port));
    assert forall j :: 0 <= j < i ==> !HasPort(port)(slots[j]);
    if i < |slots| {
      assert slots[i] in slots;
    }
  }
}
