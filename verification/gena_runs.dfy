// Whole runs of eventing: the mirror, and what a subscriber knows from the events it got.
module GenaRuns {
  import opened Net
  import opened Seqs
  import opened Gena

  datatype Action =
    | DoSubscribe(sid: Sid, caller: Ipv4, isV2: bool, timeout: u32, now: u64, view: EventView)
    | DoOffer(sid: Sid, view: EventView)
    | DoRenew(sid: Sid, timeout: u32, now: u64)
    | DoUnsubscribe(sid: Sid)
    | DoPrune(now: u64)
    | DoBump

  function Act(g: State, a: Action): (State, Option<Event>) {
    match a
    case DoSubscribe(sid, caller, isV2, timeout, now, view) => Subscribe(g, sid, caller, isV2, timeout, now, view)
    case DoOffer(sid, view) => Offer(g, sid, view, false)
    case DoRenew(sid, timeout, now) => (Renew(g, sid, timeout, now), None)
    case DoUnsubscribe(sid) => (Unsubscribe(g, sid).0, None)
    case DoPrune(now) => (Prune(g, now), None)
    case DoBump => (BumpUpdateId(g), None)
  }

  function Run(trace: seq<Action>): State {
    if trace == [] then State([], [], 0) else Act(Run(trace[..|trace| - 1]), trace[|trace| - 1]).0
  }

  // ---- the mirror ----

  ghost predicate DistinctSubs(subs: seq<Sub>) {
    forall i, j :: 0 <= i < j < |subs| ==> subs[i].sid != subs[j].sid
  }

  // The mirror holds exactly the live subscriptions' identifiers, each once, and at most eight.
  ghost predicate Mirror(g: State) {
    DistinctSubs(g.subs) && multiset(g.sids) == multiset(SidsOf(g.subs)) && |g.sids| <= MAX_SUBS
  }

  lemma SidsOfAppend(subs: seq<Sub>, x: Sub)
    ensures SidsOf(subs + [x]) == SidsOf(subs) + [x.sid]
  {
    assert (subs + [x])[..|subs|] == subs;
  }

  lemma AppendCounts(sids: seq<Sid>, x: Sid, q: Sid)
    ensures multiset(sids + [x])[q] == multiset(sids)[q] + (if x == q then 1 else 0)
  {}

  // Dropping a subscription drops its identifier and no other.
  lemma {:induction false} SidsWithout(subs: seq<Sub>, s: Sid, q: Sid)
    ensures multiset(SidsOf(Filter(subs, Not(HasSid(s)))))[q] == if q == s then 0 else multiset(SidsOf(subs))[q]
  {
    if subs != [] {
      var front, x := subs[..|subs| - 1], subs[|subs| - 1];
      assert subs == front + [x];
      hide SidsOf, Filter;
      SidsWithout(front, s, q);
      var kept := Filter(front, Not(HasSid(s)));
      FilterAppend(front, x, Not(HasSid(s)));
      SidCounts(front, x, q);
      if x.sid == s {
        assert Filter(subs, Not(HasSid(s))) == kept;
      } else {
        assert Filter(subs, Not(HasSid(s))) == kept + [x];
        SidCounts(kept, x, q);
      }
    }
  }

  lemma SidCounts(subs: seq<Sub>, x: Sub, q: Sid)
    ensures multiset(SidsOf(subs + [x]))[q] == multiset(SidsOf(subs))[q] + (if x.sid == q then 1 else 0)
  {
    SidsOfAppend(subs, x);
    hide SidsOf;
    AppendCounts(SidsOf(subs), x.sid, q);
  }

  lemma {:induction false} SidOnce(subs: seq<Sub>, q: Sid)
    requires DistinctSubs(subs)
    ensures multiset(SidsOf(subs))[q] <= 1
  {
    if subs != [] {
      var front, x := subs[..|subs| - 1], subs[|subs| - 1];
      assert subs == front + [x];
      SidOnce(front, q);
      SidsOfAppend(front, x);
      AppendCounts(SidsOf(front), x.sid, q);
      if x.sid == q {
        forall k | 0 <= k < |front| ensures SidsOf(front)[k] != q {
          assert subs[k].sid != subs[|front|].sid;
        }
      }
    }
  }

  lemma {:induction false} RebuiltTakesAll(sids: seq<Sid>)
    requires |sids| <= MAX_SUBS && forall i, j :: 0 <= i < j < |sids| ==> sids[i] != sids[j]
    ensures Rebuilt(sids) == sids
  {
    if sids != [] {
      RebuiltTakesAll(sids[..|sids| - 1]);
    }
  }

  lemma SidInMirror(g: State, s: Sid)
    requires Mirror(g)
    ensures s in g.sids <==> Exists(g.subs, HasSid(s))
    ensures |g.sids| == |g.subs|
  {
    assert |multiset(g.sids)| == |multiset(SidsOf(g.subs))|;
    assert s in g.sids <==> s in multiset(g.sids);
    assert s in SidsOf(g.subs) <==> s in multiset(SidsOf(g.subs));
    if s in SidsOf(g.subs) {
      var k :| 0 <= k < |g.subs| && SidsOf(g.subs)[k] == s;
      assert HasSid(s)(g.subs[k]);
    } else {
      forall k | 0 <= k < |g.subs| ensures !HasSid(s)(g.subs[k]) {
        assert SidsOf(g.subs)[k] in SidsOf(g.subs);
      }
    }
  }

  // Rewriting a subscription under its own identifier leaves the mirror right.
  lemma RewriteKeepsMirror(g: State, i: nat, x: Sub)
    requires Mirror(g) && i < |g.subs| && x.sid == g.subs[i].sid
    ensures Mirror(g.(subs := g.subs[i := x]))
  {
    assert SidsOf(g.subs[i := x]) == SidsOf(g.subs);
  }

  lemma OfferKeepsMirror(g: State, s: Sid, view: EventView, force: bool)
    requires Mirror(g)
    ensures Mirror(Offer(g, s, view, force).0)
  {
    hide Mirror, PropertySet;
    var i := FirstIndex(g.subs, HasSid(s));
    if i < |g.subs| {
      RewriteKeepsMirror(g, i, g.subs[i].(sent := Some(view), key := AdvanceKey(g.subs[i].key)));
    }
  }

  lemma AppendKeepsMirror(g: State, x: Sub)
    requires Mirror(g) && x.sid !in g.sids && |g.sids| < MAX_SUBS
    ensures Mirror(g.(subs := g.subs + [x], sids := g.sids + [x.sid]))
  {
    SidInMirror(g, x.sid);
    SidsOfAppend(g.subs, x);
    forall k | 0 <= k < |g.subs| ensures g.subs[k].sid != x.sid {
      assert !HasSid(x.sid)(g.subs[k]);
    }
  }

  lemma WithoutSidMultiset(sids: seq<Sid>, s: Sid)
    ensures multiset(WithoutSid(sids, s)) == multiset(sids) - multiset{s}
  {
    var i := FirstIndex(sids, Same(s));
    if i == |sids| {
      assert forall k :: 0 <= k < |sids| ==> !Same(s)(sids[k]);
    }
  }

  lemma DropSidKeepsMultisets(g: State, s: Sid)
    requires Mirror(g)
    ensures multiset(WithoutSid(g.sids, s)) == multiset(SidsOf(Filter(g.subs, Not(HasSid(s)))))
  {
    hide Filter, SidsOf, WithoutSid;
    WithoutSidMultiset(g.sids, s);
    forall q ensures multiset(WithoutSid(g.sids, s))[q] == multiset(SidsOf(Filter(g.subs, Not(HasSid(s)))))[q] {
      SidsWithout(g.subs, s, q);
      SidOnce(g.subs, q);
    }
  }

  lemma UnsubscribeKeepsMirror(g: State, s: Sid)
    requires Mirror(g)
    ensures Mirror(Unsubscribe(g, s).0)
  {
    hide SidsOf, WithoutSid;
    DropSidKeepsMultisets(g, s);
    WithoutSidMultiset(g.sids, s);
    FilterKeepsPairs(g.subs, Not(HasSid(s)), (a: Sub, b: Sub) => a.sid != b.sid);
    var subs := Filter(g.subs, Not(HasSid(s)));
    assert |WithoutSid(g.sids, s)| == |multiset(WithoutSid(g.sids, s))| <= |g.sids|;
    if |subs| == |g.subs| {
      FilterSame(g.subs, Not(HasSid(s)));
    }
  }

  // An unsubscription succeeds exactly when the identifier is live, and then it is not.
  lemma UnsubscribeExactly(g: State, s: Sid)
    requires Mirror(g)
    ensures Unsubscribe(g, s).1 <==> Exists(g.subs, HasSid(s))
    ensures !Exists(Unsubscribe(g, s).0.subs, HasSid(s))
  {
    hide SidsOf, WithoutSid;
    SidInMirror(g, s);
    var subs := Filter(g.subs, Not(HasSid(s)));
    if |subs| == |g.subs| {
      FilterSame(g.subs, Not(HasSid(s)));
    }
    assert forall x :: x in subs ==> !HasSid(s)(x);
    if Exists(g.subs, HasSid(s)) {
      var i := FirstIndex(g.subs, HasSid(s));
      assert g.subs[i] in g.subs && g.subs[i] !in subs;
    }
  }

  lemma PruneKeepsMirror(g: State, now: u64)
    requires Mirror(g)
    ensures Mirror(Prune(g, now))
  {
    FilterKeepsPairs(g.subs, Outlives(now), (a: Sub, b: Sub) => a.sid != b.sid);
    var subs := Filter(g.subs, Outlives(now));
    assert |multiset(g.sids)| == |multiset(SidsOf(g.subs))|;
    if |subs| < |g.subs| {
      RebuiltTakesAll(SidsOf(subs));
    } else {
      FilterSame(g.subs, Outlives(now));
    }
  }

  // A filter that drops nothing by count drops nothing.
  lemma {:induction false} FilterSame(subs: seq<Sub>, p: Sub -> bool)
    requires |Filter(subs, p)| == |subs|
    ensures Filter(subs, p) == subs
  {
    if subs != [] {
      FilterSame(subs[..|subs| - 1], p);
    }
  }

  lemma ActKeepsMirror(g: State, a: Action)
    requires Mirror(g)
    ensures Mirror(Act(g, a).0)
  {
    hide Offer, Unsubscribe, Prune, Mirror;
    match a
    case DoSubscribe(sid, caller, isV2, timeout, now, view) =>
      if sid !in g.sids && |g.sids| < MAX_SUBS {
        var t := ClampTimeout(timeout);
        var x := Sub(sid, caller, isV2, t, SatAdd(now, t * 2), 0, None);
        AppendKeepsMirror(g, x);
        OfferKeepsMirror(g.(subs := g.subs + [x], sids := g.sids + [sid]), sid, view, true);
      }
    case DoOffer(sid, view) => OfferKeepsMirror(g, sid, view, false);
    case DoRenew(sid, timeout, now) =>
      var i := FirstIndex(g.subs, HasSid(sid));
      var t := ClampTimeout(timeout);
      if i < |g.subs| {
        RewriteKeepsMirror(g, i, g.subs[i].(timeout := t, expires := SatAdd(now, t * 2)));
      }
    case DoUnsubscribe(sid) => UnsubscribeKeepsMirror(g, sid);
    case DoPrune(now) => PruneKeepsMirror(g, now);
    case DoBump => MirrorIgnoresUpdateId(g);
  }

  lemma MirrorIgnoresUpdateId(g: State)
    requires Mirror(g)
    ensures Mirror(BumpUpdateId(g))
  {}

  lemma {:induction false} EveryRunMirrors(trace: seq<Action>)
    ensures Mirror(Run(trace))
  {
    if trace != [] {
      hide Act, Mirror;
      EveryRunMirrors(trace[..|trace| - 1]);
      ActKeepsMirror(Run(trace[..|trace| - 1]), trace[|trace| - 1]);
    } else {
      assert Mirror(State([], [], 0));
    }
  }

  // ---- what a subscriber knows ----

  function Find(g: State, s: Sid): Option<Sub> {
    var i := FirstIndex(g.subs, HasSid(s));
    if i < |g.subs| then Some(g.subs[i]) else None
  }

  // The events delivered to a live subscription since it began.
  function Delivered(trace: seq<Action>, s: Sid): seq<Event> {
    if trace == [] || Find(Run(trace), s).None? then []
    else
      var front, a := trace[..|trace| - 1], trace[|trace| - 1];
      var e := Act(Run(front), a).1;
      if e.Some? && e.value.sid == s
      then (if a.DoSubscribe? then [e.value] else Delivered(front, s) + [e.value])
      else Delivered(front, s)
  }

  // The last view a live subscription was offered, whether or not it made an event.
  function LastOffered(trace: seq<Action>, s: Sid): Option<EventView> {
    if trace == [] || Find(Run(trace), s).None? then None
    else
      var front, a := trace[..|trace| - 1], trace[|trace| - 1];
      if a.DoOffer? && a.sid == s then Some(a.view)
      else if a.DoSubscribe? && a.sid == s && Act(Run(front), a).1.Some? then Some(a.view)
      else LastOffered(front, s)
  }

  // A subscriber starts from nothing and patches in each body.
  function Replay(events: seq<Event>): EventView {
    if events == [] then NewView(UNSPECIFIED, 0, 0)
    else Patched(Replay(events[..|events| - 1]), events[|events| - 1].body)
  }

  ghost predicate InSequence(events: seq<Event>) {
    forall i :: 0 <= i < |events| ==> events[i].key == i % 0x1_0000_0000
  }

  // A log of events brings its reader to what the subscription records as sent.
  ghost predicate Tells(log: seq<Event>, x: Sub, last: Option<EventView>) {
    x.sent.Some? && log != []
    && Replay(log) == x.sent.value && last == x.sent
    && InSequence(log) && x.key == |log| % 0x1_0000_0000
    && log[0].body == PropertySet(None, Replay(log[..1]))
  }

  // The subscription and its events tell the same story.
  ghost predicate Knows(trace: seq<Action>, s: Sid, x: Sub) {
    Tells(Delivered(trace, s), x, LastOffered(trace, s))
  }

  lemma TellsMore(log: seq<Event>, x: Sub, view: EventView)
    requires Tells(log, x, x.sent)
    ensures var body := PropertySet(x.sent, view);
            if body == EMPTY_BODY then x.sent == Some(view)
            else x.sent != Some(view)
                 && Tells(log + [Event(x.sid, x.key, body)], x.(sent := Some(view), key := AdvanceKey(x.key)),
                    Some(view))
  {
    hide Replay, InSequence, PropertySet, Patched;
    PatchGivesNow(x.sent, view, x.sent.value);
    ReplayOfMore(log, Event(x.sid, x.key, PropertySet(x.sent, view)));
    SequenceOfMore(log, Event(x.sid, x.key, PropertySet(x.sent, view)));
  }

  lemma TellsFirst(x: Sub, view: EventView)
    requires x.sent == Some(view) && x.key == 1
    ensures Tells([Event(x.sid, 0, PropertySet(None, view))], x, Some(view))
  {
    var e := Event(x.sid, 0, PropertySet(None, view));
    assert [e][..1] == [e] && [e][..0] == [];
    PatchGivesNow(None, view, Replay([]));
  }

  // What one action does to the subscription under an identifier.
  lemma FindAfterOffer(g: State, s: Sid, view: EventView, force: bool, q: Sid)
    ensures Find(Offer(g, s, view, force).0, q) ==
            if q == s && Offer(g, s, view, force).1.Some?
            then Some(Find(g, q).value.(sent := Some(view), key := AdvanceKey(Find(g, q).value.key)))
            else Find(g, q)
  {
    hide PropertySet;
    var i := FirstIndex(g.subs, HasSid(s));
    if i < |g.subs| {
      var x := g.subs[i].(sent := Some(view), key := AdvanceKey(g.subs[i].key));
      FindAfterRewrite(g.subs, i, x, q);
    }
  }

  lemma FindAfterRewrite(subs: seq<Sub>, i: nat, x: Sub, q: Sid)
    requires i < |subs| && x.sid == subs[i].sid && FirstIndex(subs, HasSid(x.sid)) == i
    ensures FirstIndex(subs[i := x], HasSid(q)) == FirstIndex(subs, HasSid(q))
  {
    var u := subs[i := x];
    assert forall k :: 0 <= k < |subs| ==> HasSid(q)(u[k]) == HasSid(q)(subs[k]);
    var a, b := FirstIndex(u, HasSid(q)), FirstIndex(subs, HasSid(q));
    assert a < |u| ==> HasSid(q)(subs[a]);
    assert b < |u| ==> HasSid(q)(u[b]);
  }

  lemma FindAfterFilter(g: State, subs: seq<Sub>, p: Sub -> bool, q: Sid)
    requires DistinctSubs(g.subs) && subs == Filter(g.subs, p)
    ensures Find(g.(subs := subs), q).Some? ==> Find(g.(subs := subs), q) == Find(g, q)
  {
    var i := FirstIndex(subs, HasSid(q));
    if i < |subs| {
      assert subs[i] in g.subs;
      var k :| 0 <= k < |g.subs| && g.subs[k] == subs[i];
      assert HasSid(q)(g.subs[k]);
    }
  }

  // No action but an offer and a subscription gives a subscription a new story.
  lemma FindAfterOther(g: State, a: Action, q: Sid)
    requires Mirror(g) && !a.DoOffer? && !a.DoSubscribe?
    ensures Find(Act(g, a).0, q).Some? ==>
              Find(g, q).Some? && Find(Act(g, a).0, q).value.sent == Find(g, q).value.sent
              && Find(Act(g, a).0, q).value.key == Find(g, q).value.key
    ensures Act(g, a).1.None?
  {
    match a
    case DoRenew(sid, timeout, now) => FindAfterRenew(g, sid, timeout, now, q);
    case DoUnsubscribe(sid) =>
      FindBySubs(Unsubscribe(g, sid).0, g.(subs := Filter(g.subs, Not(HasSid(sid)))), q);
      FindAfterFilter(g, Filter(g.subs, Not(HasSid(sid))), Not(HasSid(sid)), q);
    case DoPrune(now) =>
      FindBySubs(Prune(g, now), g.(subs := Filter(g.subs, Outlives(now))), q);
      FindAfterFilter(g, Filter(g.subs, Outlives(now)), Outlives(now), q);
    case _ => FindBySubs(BumpUpdateId(g), g, q);
  }

  lemma FindBySubs(g: State, u: State, q: Sid)
    requires g.subs == u.subs
    ensures Find(g, q) == Find(u, q)
  {}

  lemma FindAfterRenew(g: State, s: Sid, timeout: u32, now: u64, q: Sid)
    ensures Find(Renew(g, s, timeout, now), q).Some? ==>
              Find(g, q).Some? && Find(Renew(g, s, timeout, now), q).value.sent == Find(g, q).value.sent
              && Find(Renew(g, s, timeout, now), q).value.key == Find(g, q).value.key
  {
    var i := FirstIndex(g.subs, HasSid(s));
    var t := ClampTimeout(timeout);
    if i < |g.subs| {
      FindAfterRewrite(g.subs, i, g.subs[i].(timeout := t, expires := SatAdd(now, t * 2)), q);
    }
  }

  // A new subscription gets its first event under key zero, with every variable.
  lemma FindAfterSubscribe(g: State, a: Action, q: Sid)
    requires Mirror(g) && a.DoSubscribe?
    ensures var (u, e) := Act(g, a);
            if e.Some? && q == a.sid
            then Find(g, q).None? && Find(u, q).Some? && Find(u, q).value.sent == Some(a.view)
              && Find(u, q).value.key == 1
                 && e.value == Event(q, 0, PropertySet(None, a.view))
            else Find(u, q) == Find(g, q) && (e.Some? ==> e.value.sid != q)
  {
    hide Mirror, Offer, PropertySet;
    if a.sid !in g.sids && |g.sids| < MAX_SUBS {
      var t := ClampTimeout(a.timeout);
      var x := Sub(a.sid, a.caller, a.isV2, t, SatAdd(a.now, t * 2), 0, None);
      var v := g.(subs := g.subs + [x], sids := g.sids + [a.sid]);
      SidInMirror(g, a.sid);
      FindAfterAppend(g, x, q);
      FindAfterAppend(g, x, a.sid);
      FindAfterOffer(v, a.sid, a.view, true, q);
      FirstOffer(v, a.sid, a.view);
    }
  }

  // A forced offer to a live subscription always sends everything.
  lemma FirstOffer(g: State, s: Sid, view: EventView)
    requires Find(g, s).Some?
    ensures Offer(g, s, view, true).1 == Some(Event(s, Find(g, s).value.key, PropertySet(None, view)))
  {
    FullIsSomething(view);
    hide PropertySet;
  }

  lemma FullIsSomething(view: EventView)
    ensures PropertySet(None, view) != EMPTY_BODY
  {}

  lemma FindAfterAppend(g: State, x: Sub, q: Sid)
    requires !Exists(g.subs, HasSid(x.sid))
    ensures Find(g.(subs := g.subs + [x]), q) == if q == x.sid then Some(x) else Find(g, q)
  {
    var u := g.subs + [x];
    assert forall k :: 0 <= k < |g.subs| ==> u[k] == g.subs[k] && !HasSid(x.sid)(u[k]);
    assert HasSid(x.sid)(u[|g.subs|]);
    var i, j := FirstIndex(u, HasSid(q)), FirstIndex(g.subs, HasSid(q));
    assert j < |g.subs| ==> HasSid(q)(u[j]);
    assert i < |g.subs| ==> HasSid(q)(g.subs[i]);
  }

  lemma ReplayOfMore(events: seq<Event>, e: Event)
    ensures Replay(events + [e]) == Patched(Replay(events), e.body)
    ensures events != [] ==> (events + [e])[..1] == events[..1]
  {
    hide Patched, NewView;
    assert (events + [e])[..|events|] == events;
  }

  lemma SequenceOfMore(events: seq<Event>, e: Event)
    ensures InSequence(events) && e.key == |events| % 0x1_0000_0000 ==> InSequence(events + [e])
  {}

  // The log and the last offered view after one more action.
  lemma LogGrows(trace: seq<Action>, a: Action, s: Sid)
    requires Find(Run(trace + [a]), s).Some?
    ensures Run(trace + [a]) == Act(Run(trace), a).0
    ensures var e := Act(Run(trace), a).1;
            Delivered(trace + [a], s) ==
            if e.Some? && e.value.sid == s
            then (if a.DoSubscribe? then [e.value] else Delivered(trace, s) + [e.value])
            else Delivered(trace, s)
    ensures LastOffered(trace + [a], s) ==
            if a.DoOffer? && a.sid == s then Some(a.view)
            else if a.DoSubscribe? && a.sid == s && Act(Run(trace), a).1.Some? then Some(a.view)
            else LastOffered(trace, s)
  {
    hide Act, Find;
    assert (trace + [a])[..|trace|] == trace;
  }

  // What an offer to a live subscription does to it and to its event.
  lemma OfferToLive(g: State, s: Sid, view: EventView)
    requires Find(g, s).Some?
    ensures var x := Find(g, s).value;
            var body := PropertySet(x.sent, view);
            Offer(g, s, view, false).1 == (if body == EMPTY_BODY then None else Some(Event(s, x.key, body)))
  {
    hide PropertySet;
    assert HasSid(s)(Find(g, s).value);
  }

  lemma OfferedKnows(trace: seq<Action>, a: Action, s: Sid)
    requires a.DoOffer? && a.sid == s && Find(Run(trace), s).Some? && Knows(trace, s, Find(Run(trace), s).value)
    ensures Find(Run(trace + [a]), s).Some? && Knows(trace + [a], s, Find(Run(trace + [a]), s).value)
    ensures Act(Run(trace), a).1.Some? <==> LastOffered(trace, s) != Some(a.view)
  {
    var g := Run(trace);
    var x := Find(g, s).value;
    assert HasSid(s)(x);
    FindAfterOffer(g, s, a.view, false, s);
    OfferToLive(g, s, a.view);
    assert (trace + [a])[..|trace|] == trace;
    assert Run(trace + [a]) == Act(g, a).0;
    LogGrows(trace, a, s);
    TellsMore(Delivered(trace, s), x, a.view);
    hide Run, Delivered, LastOffered, PropertySet, Find, Offer;
    assert x.sent == LastOffered(trace, s);
    hide Tells;
  }

  lemma ActKnows(trace: seq<Action>, a: Action, s: Sid)
    requires Mirror(Run(trace))
    requires Find(Run(trace), s).Some? ==> Knows(trace, s, Find(Run(trace), s).value)
    ensures Find(Run(trace + [a]), s).Some? ==> Knows(trace + [a], s, Find(Run(trace + [a]), s).value)
  {
    var g := Run(trace);
    assert (trace + [a])[..|trace|] == trace;
    assert Run(trace + [a]) == Act(g, a).0;
    if Find(Act(g, a).0, s).Some? {
      LogGrows(trace, a, s);
      hide Run, Delivered, LastOffered, Tells, Mirror;
      if a.DoSubscribe? {
        FindAfterSubscribe(g, a, s);
        hide Act;
        var e := Act(g, a).1;
        if e.Some? && s == a.sid {
          TellsFirst(Find(Run(trace + [a]), s).value, a.view);
        }
      } else if a.DoOffer? {
        FindAfterOffer(g, a.sid, a.view, false, s);
        if a.sid == s {
          OfferedKnows(trace, a, s);
        }
      } else {
        FindAfterOther(g, a, s);
      }
    }
  }

  // In every run, for every live subscription: its events came under keys 0, 1, 2 and on, modulo 2^32; the
  // first carried every variable; and replaying them gives exactly the last view it was offered.
  lemma {:induction false} EverySubscriberKnows(trace: seq<Action>, s: Sid)
    ensures Find(Run(trace), s).Some? ==> Knows(trace, s, Find(Run(trace), s).value)
  {
    if trace != [] {
      var front, a := trace[..|trace| - 1], trace[|trace| - 1];
      assert trace == front + [a];
      EverySubscriberKnows(front, s);
      EveryRunMirrors(front);
      ActKnows(front, a, s);
    }
  }

  // An offer makes an event exactly when the view differs from the last one offered.
  lemma EventExactlyWhenMoved(trace: seq<Action>, a: Action)
    requires a.DoOffer? && Find(Run(trace), a.sid).Some?
    ensures Act(Run(trace), a).1.Some? <==> LastOffered(trace, a.sid) != Some(a.view)
  {
    EverySubscriberKnows(trace, a.sid);
    OfferedKnows(trace, a, a.sid);
  }
}
