// When a flow may be claimed: only after three ticks in which its device stopped refreshing it.
//
// The history of a flow is the sequence of ticks whose live list was not empty, oldest first.
module EngineHistory {
  import opened Net
  import opened Seqs
  import opened Engine
  import opened EngineLaws

  predicate Listed(input: TickInput) { input.live != [] }

  predicate LiveIn(input: TickInput, t: Endpoint) { Exists(input.live, LiveOn(t)) }

  // The device's packet count on a live flow, as that tick read it.
  function Packets(input: TickInput, t: Endpoint): u64
    requires LiveIn(input, t)
  {
    PacketsOr(input.ageCounts, (t, input.live[FirstIndex(input.live, LiveOn(t))].host), 0)
  }

  predicate NoDuplicates(live: seq<Candidate>) {
    forall i, j :: 0 <= i < j < |live| ==> live[i].bind != live[j].bind
  }

  // For how many ticks at the end of the history the flow has been live without a break.
  function Stretch(h: seq<TickInput>, t: Endpoint): (n: nat)
    ensures n <= |h|
    ensures forall k :: |h| - n <= k < |h| ==> LiveIn(h[k], t)
  {
    if h == [] || !LiveIn(h[|h| - 1], t) then 0 else 1 + Stretch(h[..|h| - 1], t)
  }

  // The last tick of the history brought no more packets than some earlier tick of the same unbroken stretch.
  ghost predicate Steady(h: seq<TickInput>, t: Endpoint) {
    var first := |h| - Stretch(h, t);
    first < |h|
    && (first == |h| - 1
        || exists k :: first <= k < |h| - 1 && Packets(h[|h| - 1], t) <= Packets(h[k], t))
  }

  ghost predicate SteadyFor(h: seq<TickInput>, t: Endpoint, n: nat)
    requires n <= |h|
  {
    forall k :: |h| - n < k <= |h| ==> Steady(h[..k], t)
  }

  // ---- the counters as the history defines them ----

  function Peak(h: seq<TickInput>, t: Endpoint): u64 {
    if Stretch(h, t) == 0 then 0
    else Max(Peak(h[..|h| - 1], t), Packets(h[|h| - 1], t))
  }

  ghost function Streak(h: seq<TickInput>, t: Endpoint): (n: nat)
    ensures n <= Stretch(h, t)
  {
    if Steady(h, t) then 1 + Streak(h[..|h| - 1], t) else 0
  }

  // The running maximum is a bound that some tick of the stretch attains.
  lemma {:induction false} PeakBounds(h: seq<TickInput>, t: Endpoint, x: u64)
    requires Stretch(h, t) > 0
    ensures x <= Peak(h, t) <==> exists k :: |h| - Stretch(h, t) <= k < |h| && x <= Packets(h[k], t)
  {
    var n := |h| - 1;
    var front := h[..n];
    var from := |h| - Stretch(h, t);
    if Stretch(front, t) == 0 {
      assert Peak(h, t) == Packets(h[n], t);
      if x <= Peak(h, t) {
        assert from <= n < |h| && x <= Packets(h[n], t);
      }
    } else {
      PeakBounds(front, t, x);
      assert |front| - Stretch(front, t) == from;
      if k :| from <= k < |h| && x <= Packets(h[k], t) {
        if k < n {
          assert front[k] == h[k];
        }
      }
      if x <= Peak(h, t) {
        if x <= Packets(h[n], t) {
          assert from <= n < |h|;
        } else {
          var k :| from <= k < |front| && x <= Packets(front[k], t);
          assert h[k] == front[k];
        }
      }
    }
  }

  // A live tick is steady unless it raises the running maximum.
  lemma SteadyIsNoRise(h: seq<TickInput>, t: Endpoint)
    requires Stretch(h, t) > 0
    ensures Steady(h, t) <==>
            Stretch(h[..|h| - 1], t) == 0 || Packets(h[|h| - 1], t) <= Peak(h[..|h| - 1], t)
  {
    var n := |h| - 1;
    var front := h[..n];
    if Stretch(front, t) > 0 {
      var x := Packets(h[n], t);
      PeakBounds(front, t, x);
      assert forall k :: 0 <= k < n ==> front[k] == h[k];
      if Steady(h, t) {
        var k :| |h| - Stretch(h, t) <= k < n && x <= Packets(h[k], t);
        assert x <= Packets(front[k], t);
      }
      if x <= Peak(front, t) {
        var k :| |front| - Stretch(front, t) <= k < |front| && x <= Packets(front[k], t);
        assert x <= Packets(h[k], t);
      }
    }
  }

  lemma SteadyForStep(h: seq<TickInput>, t: Endpoint, n: nat)
    requires 0 < n <= |h|
    ensures SteadyFor(h, t, n) <==> Steady(h, t) && SteadyFor(h[..|h| - 1], t, n - 1)
  {
    hide Steady;
    var front := h[..|h| - 1];
    assert h[..|h|] == h;
    assert forall k :: 0 <= k < |h| ==> h[..k] == front[..k];
    if SteadyFor(h, t, n) {
      assert Steady(h[..|h|], t);
    }
  }

  lemma {:induction false} StreakIsSteady(h: seq<TickInput>, t: Endpoint, n: nat)
    ensures n <= Streak(h, t) <==> n <= |h| && SteadyFor(h, t, n)
  {
    if 0 < n <= |h| {
      hide Steady, Stretch, SteadyFor;
      StreakIsSteady(h[..|h| - 1], t, n - 1);
      SteadyForStep(h, t, n);
    }
  }

  // ---- the engine's counters are the history's ----

  ghost predicate Remembers(young: Young, h: seq<TickInput>) {
    forall t :: (t in young <==> Stretch(h, t) > 0)
                && (t in young ==> young[t] == (Peak(h, t), Sat32(Streak(h, t))))
  }

  // With one entry a tuple, ageing touches each live flow once.
  lemma {:induction false} AgeAllAt(young: Young, live: seq<Candidate>, counts: Counts, t: Endpoint)
    requires NoDuplicates(live)
    ensures var aged := AgeAll(young, live, counts);
            var at := FirstIndex(live, LiveOn(t));
            if at < |live|
            then t in aged && aged[t] == Aged(young, t, PacketsOr(counts, (t, live[at].host), 0))[t]
            else (t in aged <==> t in young) && (t in young ==> aged[t] == young[t])
  {
    if live != [] {
      var n := |live| - 1;
      var front := live[..n];
      AgeAllAt(young, front, counts, t);
      FirstIndexPrefix(live, LiveOn(t));
      hide FirstIndex, PacketsOr;
      if live[n].bind == t {
        assert LiveOn(t)(live[n]);
        forall j | 0 <= j < n ensures !LiveOn(t)(front[j]) {
          assert front[j] == live[j];
        }
        assert FirstIndex(front, LiveOn(t)) == n;
      } else {
        hide Aged;
        assert !LiveOn(t)(live[n]);
        AgedElsewhere(AgeAll(young, front, counts), live[n].bind, PacketsOr(counts, (live[n].bind, live[n].host), 0),
          t);
      }
    }
  }

  lemma FirstIndexPrefix<T>(s: seq<T>, p: T -> bool)
    requires s != []
    ensures var i := FirstIndex(s[..|s| - 1], p);
            FirstIndex(s, p) == if i < |s| - 1 || p(s[|s| - 1]) then i else |s|
  {
    var front := s[..|s| - 1];
    assert forall j :: 0 <= j < |front| ==> front[j] == s[j];
  }

  lemma AgedElsewhere(young: Young, bind: Endpoint, pkts: u64, t: Endpoint)
    requires t != bind
    ensures t in Aged(young, bind, pkts) <==> t in young
    ensures t in young ==> Aged(young, bind, pkts)[t] == young[t]
  {}

  lemma AgingRemembers(young: Young, h: seq<TickInput>, input: TickInput)
    requires Remembers(young, h) && Listed(input) && NoDuplicates(input.live)
    ensures Remembers(AgeYoung(young, input.live, input.ageCounts), h + [input])
  {
    var next := AgeYoung(young, input.live, input.ageCounts);
    var longer := h + [input];
    assert longer[..|h|] == h;
    forall t ensures (t in next <==> Stretch(longer, t) > 0)
                     && (t in next ==> next[t] == (Peak(longer, t), Sat32(Streak(longer, t)))) {
      AgingRemembersOne(young, h, input, t);
    }
  }

  lemma AgeYoungAt(young: Young, input: TickInput, t: Endpoint)
    requires Listed(input) && NoDuplicates(input.live)
    ensures var next := AgeYoung(young, input.live, input.ageCounts);
            (t in next <==> LiveIn(input, t))
            && (LiveIn(input, t) ==> next[t] == Aged(young, t, Packets(input, t))[t])
  {
    hide FirstIndex, AgeAll, PacketsOr, Aged;
    AgeAllAt(young, input.live, input.ageCounts, t);
  }

  // One more listed tick, in terms of the history before it.
  lemma CountersAfter(h: seq<TickInput>, input: TickInput, t: Endpoint)
    ensures var longer := h + [input];
            if !LiveIn(input, t) then Stretch(longer, t) == 0
            else
              var rose := Stretch(h, t) > 0 && Packets(input, t) > Peak(h, t);
              Stretch(longer, t) == 1 + Stretch(h, t)
              && Peak(longer, t) == Max(Peak(h, t), Packets(input, t))
              && Streak(longer, t) == if rose then 0 else 1 + Streak(h, t)
  {
    hide LiveIn, Packets, Steady;
    var longer := h + [input];
    assert longer[..|h|] == h && longer[|h|] == input;
    if LiveIn(input, t) {
      SteadyIsNoRise(longer, t);
    }
  }

  lemma RemembersAt(young: Young, h: seq<TickInput>, t: Endpoint)
    requires Remembers(young, h)
    ensures t in young <==> Stretch(h, t) > 0
    ensures t in young ==> young[t] == (Peak(h, t), Sat32(Streak(h, t)))
  {
    hide Stretch, Peak, Streak;
  }

  lemma AgingRemembersOne(young: Young, h: seq<TickInput>, input: TickInput, t: Endpoint)
    requires Remembers(young, h) && Listed(input) && NoDuplicates(input.live)
    ensures var next := AgeYoung(young, input.live, input.ageCounts);
            var longer := h + [input];
            (t in next <==> Stretch(longer, t) > 0)
            && (t in next ==> next[t] == (Peak(longer, t), Sat32(Streak(longer, t))))
  {
    hide AgeYoung, LiveIn, Packets, Steady, NoDuplicates, Stretch, Peak, Streak, Exists, FirstIndex, LiveOn,
      PacketsOr, Remembers;
    AgeYoungAt(young, input, t);
    CountersAfter(h, input, t);
    UnseenHasNoStreak(h, t);
    RemembersAt(young, h, t);
  }

  lemma UnseenHasNoStreak(h: seq<TickInput>, t: Endpoint)
    ensures Stretch(h, t) == 0 ==> Streak(h, t) == 0 && Peak(h, t) == 0
  {}

  // ---- runs ----

  function History(inputs: seq<TickInput>): seq<TickInput> { Filter(inputs, Listed) }

  predicate OncePerTuple(inputs: seq<TickInput>) {
    inputs == [] || (NoDuplicates(inputs[|inputs| - 1].live) && OncePerTuple(inputs[..|inputs| - 1]))
  }

  // Claiming and sweeping leave the ages alone.
  lemma {:induction false} ClaimAllLeavesAges(
    st: State, live: seq<Candidate>, owned: seq<Endpoint>, envs: seq<ClaimEnv>)
    requires |envs| == |live|
    ensures ClaimAll(st, live, owned, envs).young == st.young
  {
    if live != [] {
      ClaimAllLeavesAges(st, live[..|live| - 1], owned, envs[..|live| - 1]);
    }
  }

  lemma {:induction false} SweepLeavesAges(st: State, owned: seq<Endpoint>, i: nat)
    requires i <= |st.slots|
    ensures Sweep(st, owned, i).young == st.young
    decreases |st.slots| - i
  {
    hide ReleaseReason, SwapRemove;
    if i < |st.slots| {
      if Due(owned)(st.slots[i]) {
        SweepLeavesAges(Released(st, st.slots[i]).(slots := SwapRemove(st.slots, i)), owned, i);
      } else {
        SweepLeavesAges(st, owned, i + 1);
      }
    }
  }

  lemma TickAges(st: State, input: TickInput)
    requires |input.claims| == |input.live|
    ensures Tick(st, input).young == AgeYoung(st.young, input.live, input.ageCounts)
  {
    hide AgeYoung, BookAll, ClaimAll, Sweep, QuietAll, ProbeAll;
    var claimed := ClaimAll(Opened(st, input), input.live, input.owned, input.claims);
    ClaimAllLeavesAges(Opened(st, input), input.live, input.owned, input.claims);
    SweepLeavesAges(Liveness(claimed, input), input.owned, 0);
  }

  lemma {:induction false} EveryRunRemembers(cfg: Config, inputs: seq<TickInput>)
    requires Inputs(cfg, inputs) && OncePerTuple(inputs)
    ensures Remembers(Run(cfg, inputs).young, History(inputs))
  {
    hide Tick, Remembers, Listed;
    if inputs == [] {
      RemembersNothing();
    } else {
      var n := |inputs| - 1;
      var front := inputs[..n];
      EveryRunRemembers(cfg, front);
      TickAges(Run(cfg, front), inputs[n]);
      AgesOfTick(Run(cfg, front).young, History(front), inputs[n]);
    }
  }

  lemma RemembersNothing()
    ensures Remembers(map[], [])
  {}

  lemma AgesOfTick(young: Young, h: seq<TickInput>, input: TickInput)
    requires Remembers(young, h) && NoDuplicates(input.live)
    ensures Remembers(AgeYoung(young, input.live, input.ageCounts), if Listed(input) then h + [input] else h)
  {
    hide Remembers;
    if Listed(input) {
      AgingRemembers(young, h, input);
    }
  }

  // A hold on a tuple that was not held before comes from a claim that the ages allowed.
  lemma {:induction false} ClaimedIsQuiet(
    st: State, live: seq<Candidate>, owned: seq<Endpoint>, envs: seq<ClaimEnv>, s: Hold)
    requires |envs| == |live| && s in ClaimAll(st, live, owned, envs).slots
    ensures s in st.slots || QuietOf(st.young, s.bind) >= KEEPALIVE_AFTER_TICKS
  {
    hide Exists, HostBudgetOk, ClaimAllowed, QuietOf;
    if live != [] {
      var n := |live| - 1;
      var before := ClaimAll(st, live[..n], owned, envs[..n]);
      ClaimAllLeavesAges(st, live[..n], owned, envs[..n]);
      if s in before.slots {
        ClaimedIsQuiet(st, live[..n], owned, envs[..n], s);
      }
    }
  }

  predicate Holds(slots: seq<Hold>, t: Endpoint) { exists i :: 0 <= i < |slots| && slots[i].bind == t }

  lemma SweepKeepsOld(st: State, owned: seq<Endpoint>, s: Hold)
    requires s in Sweep(st, owned, 0).slots
    ensures s in st.slots
  {
    hide Sweep;
    SweepRemovesExactly(st, owned);
    assert s in multiset(Sweep(st, owned, 0).slots);
    assert s in Filter(st.slots, Not(Due(owned)));
  }

  lemma LivenessSameTuples(st: State, input: TickInput)
    ensures |Liveness(st, input).slots| == |st.slots|
    ensures forall i :: 0 <= i < |st.slots| ==> Liveness(st, input).slots[i].bind == st.slots[i].bind
  {
    hide AgeYoung, PacketsOr;
  }

  // In every run, a tick takes up a flow only when that flow was live in each of the last three ticks
  // with a non-empty live list, and in none of them beat the running maximum of its packets.
  lemma ClaimsOnlyTheQuiet(cfg: Config, inputs: seq<TickInput>, input: TickInput, t: Endpoint)
    requires Inputs(cfg, inputs) && OncePerTuple(inputs)
    requires |input.claims| == |input.live|
    requires Holds(Tick(Run(cfg, inputs), input).slots, t) && !Holds(Run(cfg, inputs).slots, t)
    ensures 3 <= |History(inputs)| && SteadyFor(History(inputs), t, 3)
  {
    hide Liveness, BookAll, Sweep, ClaimAll, Remembers, Steady, SteadyFor, Inputs;
    var st := Run(cfg, inputs);
    var begun := Opened(st, input);
    var claimed := ClaimAll(begun, input.live, input.owned, input.claims);
    var watched := Liveness(claimed, input);
    var slots := Tick(st, input).slots;
    var i :| 0 <= i < |slots| && slots[i].bind == t;
    assert slots == Sweep(watched, input.owned, 0).slots && slots[i] in slots;
    SweepKeepsOld(watched, input.owned, slots[i]);
    var k :| 0 <= k < |watched.slots| && watched.slots[k] == slots[i];
    LivenessSameTuples(claimed, input);
    var s := claimed.slots[k];
    assert s in claimed.slots && s.bind == t;
    ClaimedIsQuiet(begun, input.live, input.owned, input.claims, s);
    forall m | 0 <= m < |begun.slots| ensures begun.slots[m].bind != t {
      assert begun.slots[m] == Booked(st.slots[m], input);
    }
    QuietMeansSteady(cfg, inputs, t, 3);
  }

  // The quiet count is at least n exactly when the last n listed ticks were steady.
  lemma QuietMeansSteady(cfg: Config, inputs: seq<TickInput>, t: Endpoint, n: u32)
    requires Inputs(cfg, inputs) && OncePerTuple(inputs) && n > 0
    ensures QuietOf(Run(cfg, inputs).young, t) >= n
            <==> n <= |History(inputs)| && SteadyFor(History(inputs), t, n)
  {
    hide Run, SteadyFor, Inputs, Filter;
    EveryRunRemembers(cfg, inputs);
    var young, h := Run(cfg, inputs).young, History(inputs);
    StreakIsSteady(h, t, n);
    UnseenHasNoStreak(h, t);
  }
}
