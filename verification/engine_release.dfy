// When a hold ends: its counters are what the whole run says they are, and it goes exactly when they are due.
module EngineRelease {
  import opened Net
  import opened Seqs
  import opened Engine
  import opened EngineLaws
  import opened EngineHistory

  function HoldOn(slots: seq<Hold>, t: Endpoint): Option<Hold> {
    var i := FirstIndex(slots, OnTuple(t));
    if i == |slots| then None else Some(slots[i])
  }

  // ---- one tick, seen from one hold ----

  // The device the tick probes, if it probes one.
  function ProbeOf(st: State): Option<Ipv4> {
    if st.slots == [] || (st.ticks + 1) % PROBE_EVERY_TICKS != 0 then None
    else Some(st.slots[if st.cursor >= |st.slots| then 0 else st.cursor].host)
  }

  function Judge(s: Hold, input: TickInput, probe: Option<Ipv4>): Hold {
    var q := Quieted(s, input.liveCounts);
    if probe.Some? then Probed(q, probe.value, input.deviceUp) else q
  }

  function Claimed(st: State, input: TickInput): State
    requires |input.claims| == |input.live|
  {
    ClaimAll(Opened(st, input), input.live, input.owned, input.claims)
  }

  lemma LivenessJudges(st: State, input: TickInput)
    ensures |Liveness(st, input).slots| == |st.slots|
    ensures forall i :: 0 <= i < |st.slots| ==>
              Liveness(st, input).slots[i] == Judge(st.slots[i], input, ProbeOf(st))
  {
    hide AgeYoung, Quieted, Probed, QuietAll, ProbeAll;
    if st.slots != [] && (st.ticks + 1) % PROBE_EVERY_TICKS == 0 {
      var cursor := if st.cursor >= |st.slots| then 0 else st.cursor;
      QuietedHost(st.slots[cursor], input.liveCounts);
    }
  }

  lemma QuietedHost(s: Hold, counts: Counts)
    ensures Quieted(s, counts).host == s.host && Quieted(s, counts).bind == s.bind
  {}

  // Claims add new holds behind the old ones.
  lemma {:induction false} ClaimExtends(st: State, live: seq<Candidate>, owned: seq<Endpoint>, envs: seq<ClaimEnv>)
    requires |envs| == |live|
    ensures st.slots <= ClaimAll(st, live, owned, envs).slots
  {
    hide Exists, HostBudgetOk, ClaimAllowed, QuietOf;
    if live != [] {
      ClaimExtends(st, live[..|live| - 1], owned, envs[..|live| - 1]);
    }
  }

  predicate FromCandidate(live: seq<Candidate>, envs: seq<ClaimEnv>, s: Hold)
    requires |envs| == |live|
  {
    exists k :: 0 <= k < |live| && s == Fresh(live[k], envs[k].inbound)
  }

  lemma {:induction false} NewHoldIsFresh(
    st: State, live: seq<Candidate>, owned: seq<Endpoint>, envs: seq<ClaimEnv>, s: Hold)
    requires |envs| == |live| && s in ClaimAll(st, live, owned, envs).slots && s !in st.slots
    ensures FromCandidate(live, envs, s)
  {
    hide Exists, HostBudgetOk, ClaimAllowed, QuietOf, Fresh;
    var n := |live| - 1;
    var before := ClaimAll(st, live[..n], owned, envs[..n]);
    if s in before.slots {
      NewHoldIsFresh(st, live[..n], owned, envs[..n], s);
      var k :| 0 <= k < n && s == Fresh(live[..n][k], envs[..n][k].inbound);
      assert s == Fresh(live[k], envs[k].inbound);
    } else {
      assert s == Fresh(live[n], envs[n].inbound);
    }
  }

  // With distinct tuples, a hold found anywhere is the one found first.
  lemma HoldAt(slots: seq<Hold>, i: nat, t: Endpoint)
    requires DistinctTuples(slots) && i < |slots| && slots[i].bind == t
    ensures HoldOn(slots, t) == Some(slots[i])
  {
    assert OnTuple(t)(slots[i]);
    var k := FirstIndex(slots, OnTuple(t));
    assert OnTuple(t)(slots[k]);
  }

  lemma NoHoldAt(slots: seq<Hold>, t: Endpoint)
    requires HoldOn(slots, t) == None
    ensures forall i :: 0 <= i < |slots| ==> slots[i].bind != t
  {
    assert forall i :: 0 <= i < |slots| ==> !OnTuple(t)(slots[i]);
  }

  // The hold on t as this tick's sweep finds it.
  function Judged(st: State, input: TickInput, t: Endpoint): Option<Hold>
    requires |input.claims| == |input.live|
  {
    var claimed := Claimed(st, input);
    var s := HoldOn(claimed.slots, t);
    if s.None? then None else Some(Judge(s.value, input, ProbeOf(claimed)))
  }

  // A kept hold is booked first; a new one comes from the live candidate on its tuple.
  lemma JudgedComesFrom(st: State, input: TickInput, t: Endpoint)
    requires HoldInv(st) && FromNat(st.cfg.natAddr, input.live) && |input.claims| == |input.live|
    requires NoDuplicates(input.live)
    ensures var s := HoldOn(Claimed(st, input).slots, t);
            var at := FirstIndex(input.live, LiveOn(t));
            (HoldOn(st.slots, t).Some? ==> s == Some(Booked(HoldOn(st.slots, t).value, input)))
            && (HoldOn(st.slots, t).None? && s.Some? ==>
                  at < |input.live| && s.value == Fresh(input.live[at], input.claims[at].inbound))
  {
    hide ClaimAll, BookAll, Booked, WithinBudgets, FirstIndex;
    var begun := Opened(st, input);
    BegunKeeps(st, input);
    ClaimAllKeeps(begun, input.live, input.owned, input.claims);
    ClaimExtends(begun, input.live, input.owned, input.claims);
    var claimed := Claimed(st, input);
    if HoldOn(st.slots, t).Some? {
      var m := FirstIndex(st.slots, OnTuple(t));
      BookedTuple(st.slots[m], input);
      assert begun.slots[m] == Booked(st.slots[m], input) && claimed.slots[m] == begun.slots[m];
      assert OnTuple(t)(st.slots[m]);
      HoldAt(claimed.slots, m, t);
    } else {
      NoHoldAt(st.slots, t);
      var s := HoldOn(claimed.slots, t);
      if s.Some? {
        var i := FirstIndex(claimed.slots, OnTuple(t));
        assert OnTuple(t)(claimed.slots[i]);
        forall m | 0 <= m < |begun.slots| ensures begun.slots[m].bind != t {
          BookedTuple(st.slots[m], input);
        }
        NewHoldIsFresh(begun, input.live, input.owned, input.claims, claimed.slots[i]);
        CandidateOf(input, claimed.slots[i]);
      }
    }
  }

  lemma BookedTuple(s: Hold, input: TickInput)
    ensures Booked(s, input).bind == s.bind && Booked(s, input).host == s.host
  {}

  lemma BegunKeeps(st: State, input: TickInput)
    requires HoldInv(st)
    ensures HoldInv(Opened(st, input))
  {
    hide HoldInv, BookAll;
    SameFlows(st, BookAll(st.slots, input));
    SameHolds(st.(slots := BookAll(st.slots, input)), Opened(st, input));
  }

  lemma CandidateOf(input: TickInput, s: Hold)
    requires |input.claims| == |input.live| && NoDuplicates(input.live) && FromCandidate(input.live, input.claims, s)
    ensures var at := FirstIndex(input.live, LiveOn(s.bind));
            at < |input.live| && s == Fresh(input.live[at], input.claims[at].inbound)
  {
    var k :| 0 <= k < |input.live| && s == Fresh(input.live[k], input.claims[k].inbound);
    assert LiveOn(s.bind)(input.live[k]);
    var at := FirstIndex(input.live, LiveOn(s.bind));
    assert LiveOn(s.bind)(input.live[at]);
  }

  // After the tick the hold is there, as judged, exactly when it is not due.
  lemma TickOn(st: State, input: TickInput, t: Endpoint)
    requires HoldInv(st) && FromNat(st.cfg.natAddr, input.live) && |input.claims| == |input.live|
    ensures var j := Judged(st, input, t);
            HoldOn(Tick(st, input).slots, t) == if j.Some? && !Due(input.owned)(j.value) then j else None
  {
    hide ClaimAll, BookAll, Liveness, Sweep, ReleaseReason, WithinBudgets, Judge, ProbeOf;
    var claimed := Claimed(st, input);
    BegunKeeps(st, input);
    ClaimAllKeeps(Opened(st, input), input.live, input.owned, input.claims);
    LivenessJudges(claimed, input);
    LivenessKeeps(claimed, input);
    var watched := Liveness(claimed, input);
    JudgedIsWatched(claimed, input, t);
    TickKeeps(st, input);
    SweepRemovesExactly(watched, input.owned);
    LeftIsKept(watched.slots, Sweep(watched, input.owned, 0).slots, input.owned, t);
  }

  lemma JudgedIsWatched(claimed: State, input: TickInput, t: Endpoint)
    requires HoldInv(claimed)
    ensures HoldOn(Liveness(claimed, input).slots, t)
         == match HoldOn(claimed.slots, t)
            case None => None
            case Some(s) => Some(Judge(s, input, ProbeOf(claimed)))
  {
    hide Liveness, ProbeOf, WithinBudgets;
    LivenessJudges(claimed, input);
    var w := Liveness(claimed, input).slots;
    assert forall i :: 0 <= i < |w| ==> w[i].bind == claimed.slots[i].bind;
    assert DistinctTuples(w);
    var i := FirstIndex(claimed.slots, OnTuple(t));
    if i < |w| {
      assert OnTuple(t)(claimed.slots[i]);
      HoldAt(w, i, t);
    } else {
      NoHoldAt(claimed.slots, t);
      forall k | 0 <= k < |w| ensures !OnTuple(t)(w[k]) {
        assert w[k].bind == claimed.slots[k].bind;
      }
    }
  }

  lemma LeftIsKept(before: seq<Hold>, left: seq<Hold>, owned: seq<Endpoint>, t: Endpoint)
    requires DistinctTuples(before) && DistinctTuples(left)
    requires multiset(left) == multiset(Filter(before, Not(Due(owned))))
    ensures var j := HoldOn(before, t);
            HoldOn(left, t) == if j.Some? && !Due(owned)(j.value) then j else None
  {
    hide Due, FirstIndex, Filter;
    var j, r := HoldOn(before, t), HoldOn(left, t);
    assert forall s :: s in left <==> s in multiset(left);
    assert forall s :: s in left <==> s in before && Not(Due(owned))(s);
    if j.Some? && !Due(owned)(j.value) {
      assert j.value in left;
      var i :| 0 <= i < |left| && left[i] == j.value;
      assert OnTuple(t)(before[FirstIndex(before, OnTuple(t))]);
      HoldAt(left, i, t);
    } else if r.Some? {
      assert OnTuple(t)(left[FirstIndex(left, OnTuple(t))]);
      assert r.value in left && r.value in before;
      var i :| 0 <= i < |before| && before[i] == r.value;
      HoldAt(before, i, t);
    }
  }

  // ---- the run's own account of a hold ----

  predicate RunInputs(cfg: Config, h: seq<TickInput>) { Inputs(cfg, h) && OncePerTuple(h) }

  ghost predicate Held(cfg: Config, h: seq<TickInput>, t: Endpoint)
    requires RunInputs(cfg, h)
  {
    HoldOn(Run(cfg, h).slots, t).Some?
  }

  // Held when the last tick began.
  ghost predicate Kept(cfg: Config, h: seq<TickInput>, t: Endpoint)
    requires RunInputs(cfg, h)
  {
    h != [] && Held(cfg, Front(h), t)
  }

  function Front(h: seq<TickInput>): seq<TickInput>
    requires h != []
  {
    h[..|h| - 1]
  }

  function LastTick(h: seq<TickInput>): TickInput
    requires h != []
  {
    h[|h| - 1]
  }

  // The latest inbound reading since the claim, which brought the first one.
  ghost function LastInbound(cfg: Config, h: seq<TickInput>, t: Endpoint): u64
    requires RunInputs(cfg, h)
  {
    if h == [] then 0
    else
      var input := LastTick(h);
      var at := FirstIndex(input.live, LiveOn(t));
      if Kept(cfg, h, t) then (if t in input.inbound then input.inbound[t] else LastInbound(cfg, Front(h), t))
      else if at < |input.live| then input.claims[at].inbound else 0
  }

  // The device that was live on the tuple when it was claimed.
  ghost function Device(cfg: Config, h: seq<TickInput>, t: Endpoint): Ipv4
    requires RunInputs(cfg, h)
  {
    if h == [] then UNSPECIFIED
    else
      var input := LastTick(h);
      var at := FirstIndex(input.live, LiveOn(t));
      if Kept(cfg, h, t) then Device(cfg, Front(h), t)
      else if at < |input.live| then input.live[at].host else UNSPECIFIED
  }

  // The latest packet count of that device since the claim.
  ghost function LastPackets(cfg: Config, h: seq<TickInput>, t: Endpoint): u64
    requires RunInputs(cfg, h)
  {
    if h == [] then 0
    else
      var before := if Kept(cfg, h, t) then LastPackets(cfg, Front(h), t) else 0;
      PacketsOr(LastTick(h).liveCounts, (t, Device(cfg, h, t)), before)
  }

  // What the last tick brought a hold that it found.
  ghost predicate Absent(cfg: Config, h: seq<TickInput>, t: Endpoint)
    requires RunInputs(cfg, h)
  {
    Kept(cfg, h, t) && !LiveIn(LastTick(h), t)
  }

  ghost predicate PeerSilent(cfg: Config, h: seq<TickInput>, t: Endpoint)
    requires RunInputs(cfg, h)
  {
    Kept(cfg, h, t) && LastInbound(cfg, h, t) == LastInbound(cfg, Front(h), t)
  }

  ghost predicate BothSilent(cfg: Config, h: seq<TickInput>, t: Endpoint)
    requires RunInputs(cfg, h)
  {
    PeerSilent(cfg, h, t) && LastPackets(cfg, h, t) <= LastPackets(cfg, Front(h), t)
  }

  // For how many ticks at the end of the run something has held.
  ghost function Ticks(h: seq<TickInput>, p: seq<TickInput> -> bool): (n: nat)
    ensures n <= |h|
  {
    if h == [] || !p(h) then 0 else 1 + Ticks(Front(h), p)
  }

  ghost predicate EachOfLast(h: seq<TickInput>, n: nat, p: seq<TickInput> -> bool) {
    n <= |h| && forall k :: |h| - n < k <= |h| ==> p(h[..k])
  }

  lemma {:induction false} TicksMeans(h: seq<TickInput>, n: nat, p: seq<TickInput> -> bool)
    ensures n <= Ticks(h, p) <==> EachOfLast(h, n, p)
  {
    if 0 < n <= |h| {
      var f := Front(h);
      TicksMeans(f, n - 1, p);
      assert h[..|h|] == h;
      assert forall k :: 0 <= k <= |f| ==> h[..k] == f[..k];
      if EachOfLast(h, n, p) {
        assert p(h[..|h|]);
      }
    }
  }

  ghost function AbsentAt(cfg: Config, t: Endpoint): seq<TickInput> -> bool {
    (h: seq<TickInput>) => RunInputs(cfg, h) && Absent(cfg, h, t)
  }

  ghost function PeerSilentAt(cfg: Config, t: Endpoint): seq<TickInput> -> bool {
    (h: seq<TickInput>) => RunInputs(cfg, h) && PeerSilent(cfg, h, t)
  }

  ghost function BothSilentAt(cfg: Config, t: Endpoint): seq<TickInput> -> bool {
    (h: seq<TickInput>) => RunInputs(cfg, h) && BothSilent(cfg, h, t)
  }

  ghost function LastProbe(cfg: Config, h: seq<TickInput>): Option<Ipv4>
    requires RunInputs(cfg, h) && h != []
  {
    ProbeOf(Claimed(Run(cfg, Front(h)), LastTick(h)))
  }

  // Probes of the device in vain since it last answered, or since the claim.
  ghost function Missed(cfg: Config, h: seq<TickInput>, t: Endpoint): nat
    requires RunInputs(cfg, h)
  {
    if h == [] then 0
    else
      var before := if Kept(cfg, h, t) then Missed(cfg, Front(h), t) else 0;
      if LastProbe(cfg, h) != Some(Device(cfg, h, t)) then before
      else if LastTick(h).deviceUp then 0
      else before + 1
  }

  // A hold's fields are the run's account of it.
  ghost predicate Follows(s: Hold, cfg: Config, h: seq<TickInput>, t: Endpoint)
    requires RunInputs(cfg, h)
  {
    s.bind == t
    && s.host == Device(cfg, h, t)
    && s.inboundSeen == LastInbound(cfg, h, t)
    && s.devPkts == LastPackets(cfg, h, t)
    && s.missing == Sat32(Ticks(h, AbsentAt(cfg, t)))
    && s.sinceInbound == Sat32(Ticks(h, PeerSilentAt(cfg, t)))
    && s.quiet == Sat32(Ticks(h, BothSilentAt(cfg, t)))
    && s.misses == Sat8(Missed(cfg, h, t))
  }

  // One more tick of a hold that was kept, in the run's account.
  lemma ReadingsAfter(cfg: Config, h: seq<TickInput>, t: Endpoint)
    requires RunInputs(cfg, h) && Kept(cfg, h, t) && RunInputs(cfg, Front(h))
    ensures Device(cfg, h, t) == Device(cfg, Front(h), t)
    ensures LastInbound(cfg, h, t)
         == if t in LastTick(h).inbound then LastTick(h).inbound[t] else LastInbound(cfg, Front(h), t)
    ensures LastPackets(cfg, h, t)
         == PacketsOr(LastTick(h).liveCounts, (t, Device(cfg, h, t)), LastPackets(cfg, Front(h), t))
    ensures Missed(cfg, h, t)
         == if LastProbe(cfg, h) != Some(Device(cfg, h, t)) then Missed(cfg, Front(h), t)
            else if LastTick(h).deviceUp then 0 else Missed(cfg, Front(h), t) + 1
  {
    hide Held, PacketsOr, LastProbe, FirstIndex, LiveOn;
  }

  lemma SilencesAfter(cfg: Config, h: seq<TickInput>, t: Endpoint)
    requires RunInputs(cfg, h) && Kept(cfg, h, t) && RunInputs(cfg, Front(h))
    ensures Ticks(h, AbsentAt(cfg, t)) == if LiveIn(LastTick(h), t) then 0 else 1 + Ticks(Front(h), AbsentAt(cfg, t))
    ensures Ticks(h, PeerSilentAt(cfg, t))
         == if LastInbound(cfg, h, t) != LastInbound(cfg, Front(h), t) then 0
            else 1 + Ticks(Front(h), PeerSilentAt(cfg, t))
    ensures Ticks(h, BothSilentAt(cfg, t))
         == if LastInbound(cfg, h, t) != LastInbound(cfg, Front(h), t)
               || LastPackets(cfg, h, t) > LastPackets(cfg, Front(h), t) then 0
            else 1 + Ticks(Front(h), BothSilentAt(cfg, t))
  {
    hide LastInbound, LastPackets, LiveIn;
  }

  lemma KeptFollows(cfg: Config, h: seq<TickInput>, t: Endpoint, s: Hold)
    requires RunInputs(cfg, h) && Kept(cfg, h, t) && RunInputs(cfg, Front(h)) && Follows(s, cfg, Front(h), t)
    ensures Follows(Judge(Booked(s, LastTick(h)), LastTick(h), LastProbe(cfg, h)), cfg, h, t)
  {
    hide RunInputs, Kept, Exists, FirstIndex, PacketsOr, LastProbe, Ticks, LastInbound, LastPackets, Missed, Device,
      AbsentAt, PeerSilentAt, BothSilentAt;
    ReadingsAfter(cfg, h, t);
    SilencesAfter(cfg, h, t);
  }

  lemma FreshFollows(cfg: Config, h: seq<TickInput>, t: Endpoint)
    requires RunInputs(cfg, h) && h != [] && !Kept(cfg, h, t)
    requires FirstIndex(LastTick(h).live, LiveOn(t)) < |LastTick(h).live|
    ensures var input := LastTick(h);
            var at := FirstIndex(input.live, LiveOn(t));
            Follows(Judge(Fresh(input.live[at], input.claims[at].inbound), input, LastProbe(cfg, h)), cfg, h, t)
  {
    hide RunInputs, Kept, PacketsOr, LastProbe;
    var input := LastTick(h);
    assert LiveOn(t)(input.live[FirstIndex(input.live, LiveOn(t))]);
    hide FirstIndex;
  }

  // In every run, what the sweep judges follows the run's account, and so does what it leaves.
  lemma {:induction false} EveryHoldFollows(cfg: Config, h: seq<TickInput>, t: Endpoint)
    requires RunInputs(cfg, h) && h != []
    ensures var j := Judged(Run(cfg, Front(h)), LastTick(h), t);
            (j.Some? ==> Follows(j.value, cfg, h, t))
            && (Kept(cfg, h, t) ==> j.Some?)
            && HoldOn(Run(cfg, h).slots, t) == if j.Some? && !Due(LastTick(h).owned)(j.value) then j else None
  {
    var st, input := Run(cfg, Front(h)), LastTick(h);
    EveryRunHolds(cfg, Front(h));
    assert FromNat(cfg.natAddr, input.live) && |input.claims| == |input.live| && NoDuplicates(input.live);
    assert RunInputs(cfg, Front(h));
    hide HoldInv, Follows, Tick, Judge, Due, Booked, Fresh, RunInputs, Inputs, OncePerTuple;
    JudgedComesFrom(st, input, t);
    TickOn(st, input, t);
    assert Run(cfg, h) == Tick(st, input);
    if Kept(cfg, h, t) {
      KeptHas(cfg, h, t);
      EveryHoldFollows(cfg, Front(h), t);
      KeptFollows(cfg, h, t, HoldOn(st.slots, t).value);
    } else if Judged(st, input, t).Some? {
      assert HoldOn(st.slots, t).None?;
      assert HoldOn(Claimed(st, input).slots, t).Some?;
      assert FirstIndex(input.live, LiveOn(t)) < |input.live|;
      FreshFollows(cfg, h, t);
    }
  }

  lemma KeptHas(cfg: Config, h: seq<TickInput>, t: Endpoint)
    requires RunInputs(cfg, h) && Kept(cfg, h, t)
    ensures Front(h) != [] && HoldOn(Run(cfg, Front(h)).slots, t).Some?
  {
    hide Tick;
  }

  // In every run, a tick ends a hold exactly when an allocation owns its tuple, its device has missed three
  // probes in a row, the flow was gone and its peer silent for the last 150 ticks, or both ends were silent
  // for that long.
  lemma ReleasedExactly(cfg: Config, h: seq<TickInput>, t: Endpoint)
    requires RunInputs(cfg, h) && Kept(cfg, h, t)
    ensures !Held(cfg, h, t) <==>
            t in LastTick(h).owned
            || Missed(cfg, h, t) >= 3
            || (EachOfLast(h, 150, AbsentAt(cfg, t)) && EachOfLast(h, 150, PeerSilentAt(cfg, t)))
            || EachOfLast(h, 150, BothSilentAt(cfg, t))
  {
    assert h != [];
    EveryHoldFollows(cfg, h, t);
    var j := Judged(Run(cfg, Front(h)), LastTick(h), t).value;
    hide *;
    DueByAccount(cfg, h, t, j, LastTick(h).owned);
    TicksMeans(h, 150, AbsentAt(cfg, t));
    TicksMeans(h, 150, PeerSilentAt(cfg, t));
    TicksMeans(h, 150, BothSilentAt(cfg, t));
  }

  lemma DueByAccount(cfg: Config, h: seq<TickInput>, t: Endpoint, j: Hold, owned: seq<Endpoint>)
    requires RunInputs(cfg, h) && Follows(j, cfg, h, t)
    ensures Due(owned)(j) <==>
            t in owned || Missed(cfg, h, t) >= 3
            || (Ticks(h, AbsentAt(cfg, t)) >= 150 && Ticks(h, PeerSilentAt(cfg, t)) >= 150)
            || Ticks(h, BothSilentAt(cfg, t)) >= 150
  {
    hide RunInputs, Missed, Ticks, AbsentAt, PeerSilentAt, BothSilentAt, Device, LastInbound, LastPackets;
  }
}
