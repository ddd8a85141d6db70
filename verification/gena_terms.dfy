// How long a subscription lives, over whole runs: who is taken up, who a prune takes, and what else leaves it alone.
module GenaTerms {
  import opened Net
  import opened Seqs
  import opened Gena
  import opened GenaRuns

  // The term granted: at least a second, at most half an hour.
  function Clamped(timeout: u32): u32 { if timeout == 0 then 1 else if timeout > 1_800 then 1_800 else timeout }

  // A subscription lives for twice its term.
  function TermEnd(now: u64, timeout: u32): u64 {
    if now + 2 * Clamped(timeout) > 18_446_744_073_709_551_615 then 18_446_744_073_709_551_615
    else now + 2 * Clamped(timeout)
  }

  // ---- what each action does to the subscription under an identifier ----

  lemma FindInFilter(subs: seq<Sub>, p: Sub -> bool, s: Sid)
    requires DistinctSubs(subs)
    ensures var i, j := FirstIndex(subs, HasSid(s)), FirstIndex(Filter(subs, p), HasSid(s));
            if i < |subs| && p(subs[i]) then j < |Filter(subs, p)| && Filter(subs, p)[j] == subs[i]
            else j == |Filter(subs, p)|
  {
    var kept := Filter(subs, p);
    var i, j := FirstIndex(subs, HasSid(s)), FirstIndex(kept, HasSid(s));
    if j < |kept| {
      assert kept[j] in subs;
      var k :| 0 <= k < |subs| && subs[k] == kept[j];
      assert HasSid(s)(subs[k]) && HasSid(s)(subs[i]);
    }
    if i < |subs| && p(subs[i]) {
      assert subs[i] in kept;
      var k :| 0 <= k < |kept| && kept[k] == subs[i];
      assert HasSid(s)(kept[k]);
    }
  }

  lemma FindAfterPrune(g: State, now: u64, s: Sid)
    requires Mirror(g)
    ensures var x := Find(g, s);
            Find(Act(g, DoPrune(now)).0, s) == if x.Some? && x.value.expires > now then x else None
  {
    hide FirstIndex, Filter, DistinctSubs, SidsOf, Rebuilt;
    FindBySubs(Prune(g, now), g.(subs := Filter(g.subs, Outlives(now))), s);
    FindInFilter(g.subs, Outlives(now), s);
  }

  lemma FindAfterUnsubscribe(g: State, q: Sid, s: Sid)
    requires Mirror(g)
    ensures Find(Act(g, DoUnsubscribe(q)).0, s) == if s == q then None else Find(g, s)
  {
    hide FirstIndex, Filter, DistinctSubs, SidsOf, WithoutSid;
    FindBySubs(Unsubscribe(g, q).0, g.(subs := Filter(g.subs, Not(HasSid(q)))), s);
    FindInFilter(g.subs, Not(HasSid(q)), s);
  }

  lemma FindRenewed(g: State, q: Sid, timeout: u32, now: u64, s: Sid)
    ensures var x := Find(g, s);
            Find(Act(g, DoRenew(q, timeout, now)).0, s) ==
            if s == q && x.Some?
            then Some(x.value.(timeout := Clamped(timeout), expires := TermEnd(now, timeout))) else x
  {
    var i := FirstIndex(g.subs, HasSid(q));
    var t := ClampTimeout(timeout);
    if i < |g.subs| {
      FindAfterRewrite(g.subs, i, g.subs[i].(timeout := t, expires := SatAdd(now, t * 2)), s);
    }
  }

  lemma FindOffered(g: State, q: Sid, view: EventView, s: Sid)
    ensures var x, y := Find(g, s), Find(Act(g, DoOffer(q, view)).0, s);
            (x.Some? <==> y.Some?)
            && (x.Some? ==> y.value.expires == x.value.expires && y.value.timeout == x.value.timeout)
  {
    FindAfterOffer(g, q, view, false, s);
  }

  // A subscription is taken up exactly when its identifier is not live and fewer than eight are.
  lemma SubscribedExactly(g: State, a: Action, s: Sid)
    requires Mirror(g) && a.DoSubscribe?
    ensures var (u, e) := Act(g, a);
            (e.Some? <==> Find(g, a.sid).None? && |g.subs| < 8)
            && (if e.Some? && s == a.sid
                then Find(u, s).Some? && Find(u, s).value.expires == TermEnd(a.now, a.timeout)
                     && Find(u, s).value.timeout == Clamped(a.timeout)
                     && Find(u, s).value.caller == a.caller && Find(u, s).value.isV2 == a.isV2
                else Find(u, s) == Find(g, s))
  {
    MirrorSize(g);
    SidInMirror(g, a.sid);
    FindAfterSubscribe(g, a, s);
    FullIsSomething(a.view);
    hide PropertySet, SidsOf, FirstIndex, Mirror;
    if a.sid !in g.sids && |g.sids| < MAX_SUBS {
      NewTerm(g, a);
    }
  }

  lemma MirrorSize(g: State)
    requires Mirror(g)
    ensures |g.sids| == |g.subs|
  {
    assert |multiset(g.sids)| == |multiset(SidsOf(g.subs))|;
  }

  lemma NewTerm(g: State, a: Action)
    requires Mirror(g) && a.DoSubscribe? && a.sid !in g.sids && |g.sids| < MAX_SUBS
    ensures var u := Act(g, a).0;
            Act(g, a).1.Some? && Find(u, a.sid).Some? && Find(u, a.sid).value.expires == TermEnd(a.now, a.timeout)
            && Find(u, a.sid).value.timeout == Clamped(a.timeout)
            && Find(u, a.sid).value.caller == a.caller && Find(u, a.sid).value.isV2 == a.isV2
  {
    SidInMirror(g, a.sid);
    FullIsSomething(a.view);
    hide PropertySet, SidsOf, FirstIndex, Mirror;
    var t := ClampTimeout(a.timeout);
    var x := Sub(a.sid, a.caller, a.isV2, t, SatAdd(a.now, t * 2), 0, None);
    var v := g.(subs := g.subs + [x], sids := g.sids + [a.sid]);
    FindAfterAppend(g, x, a.sid);
    assert Find(v, a.sid) == Find(g.(subs := g.subs + [x]), a.sid) == Some(x);
    FindAfterOffer(v, a.sid, a.view, true, a.sid);
  }

  // ---- over runs ----

  // When a live subscription's term was last set, and for how long: by the subscription or a renewal.
  function LastTerm(trace: seq<Action>, s: Sid): Option<(u64, u32)> {
    if trace == [] then None
    else
      var front, a := trace[..|trace| - 1], trace[|trace| - 1];
      if a.DoSubscribe? && a.sid == s && Find(Run(front), s).None? && |Run(front).subs| < 8
      then Some((a.now, a.timeout))
      else if a.DoRenew? && a.sid == s && Find(Run(front), s).Some? then Some((a.now, a.timeout))
      else LastTerm(front, s)
  }

  ghost predicate TermHolds(trace: seq<Action>, s: Sid) {
    var x := Find(Run(trace), s);
    x.Some? ==>
      LastTerm(trace, s).Some?
      && var (at, timeout) := LastTerm(trace, s).value;
         x.value.expires == TermEnd(at, timeout) && x.value.timeout == Clamped(timeout)
  }

  lemma {:induction false} EveryTermHolds(trace: seq<Action>, s: Sid)
    ensures TermHolds(trace, s)
  {
    if trace != [] {
      var front, a := trace[..|trace| - 1], trace[|trace| - 1];
      EveryTermHolds(front, s);
      EveryRunMirrors(front);
      hide Mirror, Act, TermEnd, Clamped;
      StepKeepsTerm(Run(front), a, s);
    }
  }

  // The action that sets a term is the one the run remembers.
  lemma StepKeepsTerm(g: State, a: Action, s: Sid)
    requires Mirror(g)
    ensures var x, y := Find(g, s), Find(Act(g, a).0, s);
            y.Some? ==>
              if a.DoSubscribe? && a.sid == s && x.None? && |g.subs| < 8
              then y.value.expires == TermEnd(a.now, a.timeout) && y.value.timeout == Clamped(a.timeout)
              else x.Some?
                   && if a.DoRenew? && a.sid == s
                      then y.value.expires == TermEnd(a.now, a.timeout) && y.value.timeout == Clamped(a.timeout)
                      else y.value.expires == x.value.expires && y.value.timeout == x.value.timeout
  {
    hide Find, Act, Mirror, TermEnd, Clamped;
    match a
    case DoSubscribe(_, _, _, _, _, _) => SubscribedExactly(g, a, s);
    case DoOffer(sid, view) => FindOffered(g, sid, view, s);
    case DoRenew(sid, timeout, now) => FindRenewed(g, sid, timeout, now, s);
    case DoUnsubscribe(sid) => FindAfterUnsubscribe(g, sid, s);
    case DoPrune(now) => FindAfterPrune(g, now, s);
    case DoBump => BumpLeaves(g, s);
  }

  lemma BumpLeaves(g: State, s: Sid)
    ensures Find(Act(g, DoBump).0, s) == Find(g, s)
  {
    FindBySubs(BumpUpdateId(g), g, s);
  }

  lemma RunOneMore(trace: seq<Action>, a: Action)
    ensures Run(trace + [a]) == Act(Run(trace), a).0
  {
    hide Act;
    assert (trace + [a])[..|trace|] == trace;
  }

  // In every run, a prune leaves exactly the live subscriptions whose term, twice counted from when it was last set, is
  // not over, each as it was.
  lemma PruneExactly(trace: seq<Action>, now: u64, s: Sid)
    ensures var x, y := Find(Run(trace), s), Find(Run(trace + [DoPrune(now)]), s);
            (y.Some? <==> x.Some? && LastTerm(trace, s).Some?
                          && var (at, timeout) := LastTerm(trace, s).value; TermEnd(at, timeout) > now)
            && (y.Some? ==> y == x)
  {
    hide Run, Act, Find, Mirror, LastTerm;
    EveryRunMirrors(trace);
    EveryTermHolds(trace, s);
    RunOneMore(trace, DoPrune(now));
    FindAfterPrune(Run(trace), now, s);
  }

  // In every run, an unsubscription takes its own subscription and leaves every other as it was.
  lemma UnsubscribeTakesExactly(trace: seq<Action>, q: Sid, s: Sid)
    ensures Find(Run(trace + [DoUnsubscribe(q)]), s) == if s == q then None else Find(Run(trace), s)
  {
    hide Run, Act, Find, Mirror;
    EveryRunMirrors(trace);
    RunOneMore(trace, DoUnsubscribe(q));
    FindAfterUnsubscribe(Run(trace), q, s);
  }

  // In every run, a subscription is taken up exactly when its identifier is not live and fewer than eight are.
  lemma SubscribeTakesUpExactly(trace: seq<Action>, a: Action)
    requires a.DoSubscribe?
    ensures Act(Run(trace), a).1.Some? <==> Find(Run(trace), a.sid).None? && |Run(trace).subs| < 8
    ensures Find(Run(trace + [a]), a.sid).Some?
            <==> Find(Run(trace), a.sid).Some? || |Run(trace).subs| < 8
  {
    EveryRunMirrors(trace);
    RunOneMore(trace, a);
    hide Run, Act, Find, Mirror;
    SubscribedExactly(Run(trace), a, a.sid);
  }

  // ---- bodies ----

  // A body carries each variable that moved, and no other; the first one carries all.
  lemma BodyExactly(prev: Option<EventView>, now: EventView)
    ensures var b := PropertySet(prev, now);
            b.status == (if prev.Some? && prev.value.connected == now.connected then None else Some(now.connected))
            && b.extIp == (if prev.Some? && prev.value.extIp == now.extIp then None else Some(now.extIp))
            && b.entries == (if prev.Some? && prev.value.entries == now.entries then None else Some(now.entries))
            && b.updateId == (if prev.Some? && prev.value.updateId == now.updateId then None else Some(now.updateId))
  {}

  // ---- the evented state ----

  // How often the run has moved the update identifier.
  function Moves(trace: seq<Action>): nat {
    if trace == [] then 0 else Moves(trace[..|trace| - 1]) + (if trace[|trace| - 1].DoBump? then 1 else 0)
  }

  // The identifier counts the moves and wraps in its 32 bits; no other action touches it.
  lemma {:induction false} UpdateIdCounts(trace: seq<Action>)
    ensures Run(trace).updateId == Moves(trace) % 4_294_967_296
  {
    if trace != [] {
      var front, a := trace[..|trace| - 1], trace[|trace| - 1];
      UpdateIdCounts(front);
      OnlyBumpsMove(Run(front), a);
      hide Act;
      WrapsOnce(Moves(front));
    }
  }

  lemma WrapsOnce(n: nat)
    ensures (n % 4_294_967_296 + 1) % 4_294_967_296 == (n + 1) % 4_294_967_296
  {}

  lemma OnlyBumpsMove(g: State, a: Action)
    ensures Act(g, a).0.updateId == if a.DoBump? then (g.updateId + 1) % 4_294_967_296 else g.updateId
  {
    hide PropertySet, ClampTimeout, Filter, SidsOf, Rebuilt, FirstIndex, WithoutSid, SatAdd;
  }

  // The service says it is connected unless the external address is 0.0.0.0.
  lemma ConnectedExactly(ip: Ipv4, entries: u16, updateId: u32)
    ensures var v := NewView(ip, entries, updateId);
            v.connected <==> ip.a != 0 || ip.b != 0 || ip.c != 0 || ip.d != 0
    ensures var v := NewView(ip, entries, updateId); v.extIp == ip && v.entries == entries && v.updateId == updateId
  {}
}
