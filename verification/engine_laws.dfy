// What every holding tick of the observation engine keeps: budgets, distinct tuples, and pins that match the holds.
module EngineLaws {
  import opened Net
  import opened Seqs
  import opened Engine

  // Every flow the connection table offers leaves by the one NAT address, from a device that is not the NAT.
  predicate FromNat(natAddr: Ipv4, live: seq<Candidate>) {
    forall c :: c in live ==> c.bind.ip == natAddr && c.host != natAddr
  }

  function Ports(slots: seq<Hold>): set<u16> { set i | 0 <= i < |slots| :: slots[i].bind.port }

  predicate DistinctTuples(slots: seq<Hold>) {
    forall i, j :: 0 <= i < j < |slots| ==> slots[i].bind != slots[j].bind
  }

  ghost predicate WithinBudgets(cfg: Config, slots: seq<Hold>) {
    |slots| <= cfg.maxRefresh && forall host :: Count(slots, OfHost(host)) <= cfg.perHost
  }

  ghost predicate HoldInv(st: State) {
    DistinctTuples(st.slots)
    && WithinBudgets(st.cfg, st.slots)
    && (forall s :: s in st.slots ==> s.bind.ip == st.cfg.natAddr && s.host != st.cfg.natAddr)
    && st.selfPins == Ports(st.slots)
    && st.accepts == Ports(st.slots)
  }

  // Counters may change in place; what a hold is for does not.
  lemma SameFlows(st: State, slots: seq<Hold>)
    requires HoldInv(st) && |slots| == |st.slots|
    requires forall i :: 0 <= i < |slots| ==> slots[i].bind == st.slots[i].bind && slots[i].host == st.slots[i].host
    ensures HoldInv(st.(slots := slots))
  {
    forall host ensures Count(slots, OfHost(host)) <= st.cfg.perHost {
      CountPointwise(slots, st.slots, OfHost(host), OfHost(host));
    }
  }

  lemma ClaimedKeeps(st: State, c: Candidate, inbound: u64)
    requires HoldInv(st) && FromNat(st.cfg.natAddr, [c])
    requires !Exists(st.slots, OnTuple(c.bind))
    requires HostBudgetOk(c.host, st.slots, st.cfg.perHost) && |st.slots| < st.cfg.maxRefresh
    ensures HoldInv(st.(slots := st.slots + [Fresh(c, inbound)], selfPins := st.selfPins + {c.bind.port},
                        accepts := st.accepts + {c.bind.port}))
  {
    assert c in [c];
    var newHold := Fresh(c, inbound);
    var slots := st.slots + [newHold];
    forall i | 0 <= i < |st.slots| ensures st.slots[i].bind != c.bind {
      assert !OnTuple(c.bind)(st.slots[i]);
    }
    hide Exists, FirstIndex, Filter;
    forall host ensures Count(slots, OfHost(host)) <= st.cfg.perHost {
      FilterAppend(st.slots, newHold, OfHost(host));
    }
    assert Ports(slots) == Ports(st.slots) + {c.bind.port} by {
      hide Fresh;
      assert forall i :: 0 <= i < |st.slots| ==> slots[i] == st.slots[i];
      assert slots[|st.slots|].bind.port == c.bind.port;
    }
  }

  // A claim that stops halfway leaves no pin behind and takes none from another hold.
  lemma ClaimKeeps(st: State, c: Candidate, owned: seq<Endpoint>, env: ClaimEnv)
    requires HoldInv(st) && FromNat(st.cfg.natAddr, [c])
    ensures HoldInv(Claim(st, c, owned, env))
    ensures Claim(st, c, owned, env).cfg == st.cfg
  {
    hide WithinBudgets, Count, Fresh;
    assert c in [c];
    if !Exists(st.slots, OnTuple(c.bind)) {
      NotAPin(st, c.bind);
      if HostBudgetOk(c.host, st.slots, st.cfg.perHost) && ClaimAllowed(c.bind, owned, |st.slots|, st.cfg.maxRefresh) {
        ClaimedKeeps(st, c, env.inbound);
      }
    }
  }

  lemma NotAPin(st: State, bind: Endpoint)
    requires HoldInv(st) && bind.ip == st.cfg.natAddr && !Exists(st.slots, OnTuple(bind))
    ensures bind.port !in st.selfPins
  {
    hide WithinBudgets;
    forall i | 0 <= i < |st.slots| ensures st.slots[i].bind.port != bind.port {
      assert !OnTuple(bind)(st.slots[i]);
      assert st.slots[i] in st.slots;
    }
  }

  lemma {:induction false} ClaimAllKeeps(st: State, live: seq<Candidate>, owned: seq<Endpoint>, envs: seq<ClaimEnv>)
    requires HoldInv(st) && FromNat(st.cfg.natAddr, live) && |envs| == |live|
    ensures HoldInv(ClaimAll(st, live, owned, envs))
    ensures ClaimAll(st, live, owned, envs).cfg == st.cfg
  {
    hide HoldInv, Claim;
    if live != [] {
      var n := |live| - 1;
      ClaimAllKeeps(st, live[..n], owned, envs[..n]);
      ClaimKeeps(ClaimAll(st, live[..n], owned, envs[..n]), live[n], owned, envs[n]);
    }
  }

  lemma LivenessKeeps(st: State, input: TickInput)
    requires HoldInv(st)
    ensures HoldInv(Liveness(st, input)) && Liveness(st, input).cfg == st.cfg
  {
    hide AgeYoung, QuietAll, ProbeAll, HoldInv, PacketsOr;
    var t := st.(ticks := st.ticks + 1, young := AgeYoung(st.young, input.live, input.ageCounts));
    SameHolds(st, t);
    if t.slots != [] {
      var quieted := QuietAll(t.slots, input.liveCounts);
      SameFlows(t, quieted);
      if t.ticks % PROBE_EVERY_TICKS == 0 {
        var cursor := if t.cursor >= |quieted| then 0 else t.cursor;
        var probed := ProbeAll(quieted, quieted[cursor].host, input.deviceUp);
        SameFlows(t.(slots := quieted), probed);
        SameHolds(t.(slots := probed), Liveness(st, input));
      }
    }
  }

  lemma SameHolds(a: State, b: State)
    requires HoldInv(a)
    requires a.cfg == b.cfg && a.slots == b.slots && a.selfPins == b.selfPins && a.accepts == b.accepts
    ensures HoldInv(b)
  {}

  lemma ReleaseKeeps(st: State, i: nat)
    requires HoldInv(st) && i < |st.slots|
    ensures HoldInv(Released(st, st.slots[i]).(slots := SwapRemove(st.slots, i)))
  {
    hide SwapRemove;
    var s, left := st.slots[i], SwapRemove(st.slots, i);
    forall host ensures Count(left, OfHost(host)) <= st.cfg.perHost {
      CountSwapRemove(st.slots, i, OfHost(host));
    }
    SwapRemoveKeepsPairs(st.slots, i, (a: Hold, b: Hold) => a.bind != b.bind);
    SwapRemoveMembers(st.slots, i);
    PortsAfterRelease(st, i);
    assert s in st.slots;
  }

  lemma PortsAfterRelease(st: State, i: nat)
    requires HoldInv(st) && i < |st.slots|
    ensures Ports(SwapRemove(st.slots, i)) == Ports(st.slots) - {st.slots[i].bind.port}
  {
    hide WithinBudgets, SwapRemove;
    var s, left := st.slots[i], SwapRemove(st.slots, i);
    SwapRemoveMembers(st.slots, i);
    forall p ensures p in Ports(left) <==> p in Ports(st.slots) && p != s.bind.port {
      if p in Ports(left) {
        var k :| 0 <= k < |left| && left[k].bind.port == p;
        assert left[k] in left;
        var m :| 0 <= m < |st.slots| && st.slots[m] == left[k];
        assert m != i && st.slots[m] in st.slots && s in st.slots;
      }
      if p in Ports(st.slots) && p != s.bind.port {
        var k :| 0 <= k < |st.slots| && st.slots[k].bind.port == p;
        assert st.slots[k] in st.slots && st.slots[k] in left;
        var m :| 0 <= m < |left| && left[m] == st.slots[k];
      }
    }
  }

  lemma {:induction false} SweepKeeps(st: State, owned: seq<Endpoint>, i: nat)
    requires HoldInv(st) && i <= |st.slots|
    ensures HoldInv(Sweep(st, owned, i)) && Sweep(st, owned, i).cfg == st.cfg
    decreases |st.slots| - i
  {
    hide HoldInv, ReleaseReason, SwapRemove;
    if i < |st.slots| {
      if Due(owned)(st.slots[i]) {
        ReleaseKeeps(st, i);
        SweepKeeps(Released(st, st.slots[i]).(slots := SwapRemove(st.slots, i)), owned, i);
      } else {
        SweepKeeps(st, owned, i + 1);
      }
    }
  }

  // The sweep removes exactly the holds with a release reason, though each removal moves the last hold.
  lemma {:induction false} SweepCounts(st: State, owned: seq<Endpoint>, i: nat, s: Hold)
    requires i <= |st.slots| && forall k :: 0 <= k < i ==> !Due(owned)(st.slots[k])
    ensures multiset(Sweep(st, owned, i).slots)[s] == if Due(owned)(s) then 0 else multiset(st.slots)[s]
    decreases |st.slots| - i
  {
    hide ReleaseReason;
    if i == |st.slots| {
      if Due(owned)(s) {
        assert s !in st.slots;
      }
    } else if Due(owned)(st.slots[i]) {
      var next := Released(st, st.slots[i]).(slots := SwapRemove(st.slots, i));
      assert forall k :: 0 <= k < i ==> next.slots[k] == st.slots[k];
      SweepCounts(next, owned, i, s);
    } else {
      SweepCounts(st, owned, i + 1, s);
    }
  }

  lemma SweepRemovesExactly(st: State, owned: seq<Endpoint>)
    ensures multiset(Sweep(st, owned, 0).slots) == multiset(Filter(st.slots, Not(Due(owned))))
  {
    hide Sweep, ReleaseReason;
    forall s ensures multiset(Sweep(st, owned, 0).slots)[s] == multiset(Filter(st.slots, Not(Due(owned))))[s] {
      SweepCounts(st, owned, 0, s);
      FilterMultiset(st.slots, Not(Due(owned)), s);
    }
  }

  // One whole tick: budgets, distinct tuples and pins hold again, and no held tuple belongs to an allocation.
  lemma TickKeeps(st: State, input: TickInput)
    requires HoldInv(st) && FromNat(st.cfg.natAddr, input.live) && |input.claims| == |input.live|
    ensures HoldInv(Tick(st, input)) && Tick(st, input).cfg == st.cfg
    ensures forall s :: s in Tick(st, input).slots ==> s.bind !in input.owned && !Due(input.owned)(s)
  {
    hide HoldInv, BookAll, Sweep, Liveness, ClaimAll, ReleaseReason;
    var begun := Opened(st, input);
    SameFlows(st, BookAll(st.slots, input));
    SameHolds(st.(slots := BookAll(st.slots, input)), begun);
    var claimed := ClaimAll(begun, input.live, input.owned, input.claims);
    ClaimAllKeeps(begun, input.live, input.owned, input.claims);
    LivenessKeeps(claimed, input);
    var watched := Liveness(claimed, input);
    SweepKeeps(watched, input.owned, 0);
    SweepRemovesExactly(watched, input.owned);
    forall s | s in Tick(st, input).slots ensures s.bind !in input.owned && !Due(input.owned)(s) {
      assert s in multiset(Sweep(watched, input.owned, 0).slots);
      assert s in Filter(watched.slots, Not(Due(input.owned)));
      assert Not(Due(input.owned))(s);
      OwnedIsDue(input.owned, s);
    }
  }

  lemma OwnedIsDue(owned: seq<Endpoint>, s: Hold)
    ensures s.bind in owned ==> Due(owned)(s)
  {}

  function Start(cfg: Config): State { State(cfg, [], map[], {}, 0, 0, {}, {}) }

  // Every tick's flows leave by the NAT address, and every flow has its claim outcomes.
  predicate Inputs(cfg: Config, inputs: seq<TickInput>) {
    inputs == []
    || (var input := inputs[|inputs| - 1];
        FromNat(cfg.natAddr, input.live) && |input.claims| == |input.live| && Inputs(cfg, inputs[..|inputs| - 1]))
  }

  ghost function Run(cfg: Config, inputs: seq<TickInput>): State
    requires Inputs(cfg, inputs)
  {
    if inputs == [] then Start(cfg) else Tick(Run(cfg, inputs[..|inputs| - 1]), inputs[|inputs| - 1])
  }

  lemma {:induction false} EveryRunHolds(cfg: Config, inputs: seq<TickInput>)
    requires Inputs(cfg, inputs)
    ensures HoldInv(Run(cfg, inputs)) && Run(cfg, inputs).cfg == cfg
    ensures inputs != [] ==>
              forall s :: s in Run(cfg, inputs).slots ==> s.bind !in inputs[|inputs| - 1].owned
  {
    hide Tick;
    if inputs != [] {
      var n := |inputs| - 1;
      EveryRunHolds(cfg, inputs[..n]);
      hide HoldInv;
      TickKeeps(Run(cfg, inputs[..n]), inputs[n]);
    } else {
      assert forall host :: Filter([], OfHost(host)) == [];
    }
  }
}
