// Which flows a tick takes up, exactly, over whole runs: the claim gate spelled out.
module EngineClaims {
  import opened Net
  import opened Seqs
  import opened Engine
  import opened EngineLaws
  import opened EngineHistory
  import opened EngineRelease

  // The state before candidate k's turn in a tick.
  function Turn(st: State, input: TickInput, k: nat): State
    requires k <= |input.live| == |input.claims|
  {
    ClaimAll(Opened(st, input), input.live[..k], input.owned, input.claims[..k])
  }

  // How many holds a device has.
  ghost function HoldsOfDevice(slots: seq<Hold>, host: Ipv4): nat {
    |set i | 0 <= i < |slots| && slots[i].host == host|
  }

  lemma HoldsAreCounted(slots: seq<Hold>, host: Ipv4)
    ensures Count(slots, OfHost(host)) == HoldsOfDevice(slots, host)
  {
    CountIsPlaces(slots, OfHost(host));
    assert Places(slots, OfHost(host)) == (set i | 0 <= i < |slots| && slots[i].host == host);
  }

  // A flow may be taken up when it was steady in the last three listed ticks and its device has budget left.
  ghost predicate Ripe(h: seq<TickInput>, slots: seq<Hold>, c: Candidate, perHost: u32) {
    3 <= |h| && SteadyFor(h, c.bind, 3) && HoldsOfDevice(slots, c.host) < perHost
  }

  predicate AllStepsWork(env: ClaimEnv) { env.bindOk && env.selfPinOk && env.pinOk && env.acceptOk }

  lemma HoldsIsFound(slots: seq<Hold>, t: Endpoint)
    ensures Holds(slots, t) <==> Exists(slots, OnTuple(t))
  {
    if Holds(slots, t) {
      var i :| 0 <= i < |slots| && slots[i].bind == t;
      assert OnTuple(t)(slots[i]);
    }
    if Exists(slots, OnTuple(t)) {
      assert OnTuple(t)(slots[FirstIndex(slots, OnTuple(t))]);
    }
  }

  lemma TurnIsClaim(st: State, input: TickInput, k: nat)
    requires k < |input.live| == |input.claims|
    ensures Turn(st, input, k + 1) == Claim(Turn(st, input, k), input.live[k], input.owned, input.claims[k])
  {
    hide Claim, Opened;
    assert input.live[..k + 1][..k] == input.live[..k] && input.claims[..k + 1][..k] == input.claims[..k];
  }

  lemma TurnKeepsAges(st: State, input: TickInput, k: nat)
    requires k <= |input.live| == |input.claims|
    ensures Turn(st, input, k).young == st.young && Turn(st, input, k).cfg == st.cfg
  {
    hide Claim, BookAll;
    ClaimAllLeavesAges(Opened(st, input), input.live[..k], input.owned, input.claims[..k]);
    ClaimAllKeepsConfig(Opened(st, input), input.live[..k], input.owned, input.claims[..k]);
  }

  lemma {:induction false} ClaimAllKeepsConfig(
    st: State, live: seq<Candidate>, owned: seq<Endpoint>, envs: seq<ClaimEnv>)
    requires |envs| == |live|
    ensures ClaimAll(st, live, owned, envs).cfg == st.cfg
  {
    hide Exists, HostBudgetOk, ClaimAllowed, QuietOf;
    if live != [] {
      ClaimAllKeepsConfig(st, live[..|live| - 1], owned, envs[..|live| - 1]);
    }
  }

  // In every run, candidate k's turn adds its flow to the holds exactly when the flow is not held, ripe, not owned by
  // an allocation and within the total budget, and all four steps of the claim work. It is added as it stands,
  // with every counter at zero. A ripe flow that an allocation owns is reported; nothing else is.
  lemma ClaimsExactly(cfg: Config, inputs: seq<TickInput>, input: TickInput, k: nat)
    requires Inputs(cfg, inputs) && OncePerTuple(inputs) && k < |input.live| == |input.claims|
    ensures var before, after := Turn(Run(cfg, inputs), input, k), Turn(Run(cfg, inputs), input, k + 1);
            var c, env, h := input.live[k], input.claims[k], History(inputs);
            var ripe := !Holds(before.slots, c.bind) && Ripe(h, before.slots, c, cfg.perHost);
            after.slots ==
              (if ripe && c.bind !in input.owned && |before.slots| < cfg.maxRefresh && AllStepsWork(env)
               then before.slots + [Hold(c.host, c.hostPort, c.bind, 0, 0, 0, 0, 0, env.inbound)] else before.slots)
            && after.reported == before.reported + (if ripe && c.bind in input.owned then {c.bind} else {})
  {
    hide Run, Opened, ClaimAll, SteadyFor, Inputs, OncePerTuple, Filter;
    var st := Run(cfg, inputs);
    var before, c := Turn(st, input, k), input.live[k];
    TurnIsClaim(st, input, k);
    TurnKeepsAges(st, input, k);
    RunKeepsConfig(cfg, inputs);
    QuietMeansSteady(cfg, inputs, c.bind, 3);
    HoldsIsFound(before.slots, c.bind);
    HoldsAreCounted(before.slots, c.host);
    hide Turn, Holds, HoldsOfDevice, History, QuietOf, Exists, Count;
    ClaimSpelledOut(before, c, input.owned, input.claims[k]);
  }

  lemma ClaimSpelledOut(st: State, c: Candidate, owned: seq<Endpoint>, env: ClaimEnv)
    ensures var open := !Exists(st.slots, OnTuple(c.bind)) && QuietOf(st.young, c.bind) >= 3
                        && Count(st.slots, OfHost(c.host)) < st.cfg.perHost;
            var u := Claim(st, c, owned, env);
            u.slots ==
              (if open && c.bind !in owned && |st.slots| < st.cfg.maxRefresh && AllStepsWork(env)
               then st.slots + [Hold(c.host, c.hostPort, c.bind, 0, 0, 0, 0, 0, env.inbound)] else st.slots)
            && u.reported == st.reported + (if open && c.bind in owned then {c.bind} else {})
  {
    hide Exists, Count, QuietOf;
  }

  lemma {:induction false} RunKeepsConfig(cfg: Config, inputs: seq<TickInput>)
    requires Inputs(cfg, inputs)
    ensures Run(cfg, inputs).cfg == cfg
  {
    hide HoldInv;
    EveryRunHolds(cfg, inputs);
  }

  // ---- whole ticks ----

  lemma ClaimElsewhere(st: State, c: Candidate, owned: seq<Endpoint>, env: ClaimEnv, t: Endpoint)
    requires c.bind != t
    ensures Holds(Claim(st, c, owned, env).slots, t) <==> Holds(st.slots, t)
  {
    hide Exists, HostBudgetOk, QuietOf;
    var slots := Claim(st, c, owned, env).slots;
    assert forall i :: 0 <= i < |st.slots| ==> slots[i] == st.slots[i];
    assert |slots| > |st.slots| ==> slots[|st.slots|].bind == c.bind;
  }

  // Among distinct candidates, only its own turn takes a flow up.
  lemma {:induction false} OtherTurns(st: State, input: TickInput, k: nat, m: nat, t: Endpoint)
    requires k <= m <= |input.live| == |input.claims|
    requires forall j :: k <= j < m ==> input.live[j].bind != t
    ensures Holds(Turn(st, input, m).slots, t) <==> Holds(Turn(st, input, k).slots, t)
    decreases m
  {
    hide Turn, Claim, Holds;
    if k < m {
      OtherTurns(st, input, k, m - 1, t);
      TurnIsClaim(st, input, m - 1);
      ClaimElsewhere(Turn(st, input, m - 1), input.live[m - 1], input.owned, input.claims[m - 1], t);
    }
  }

  lemma FirstTurn(st: State, input: TickInput, t: Endpoint)
    requires |input.live| == |input.claims|
    ensures Holds(Turn(st, input, 0).slots, t) <==> Holds(st.slots, t)
  {
    hide Booked;
    var slots := Turn(st, input, 0).slots;
    forall i | 0 <= i < |slots| ensures slots[i].bind == st.slots[i].bind {
      BookedTuple(st.slots[i], input);
    }
  }

  lemma LastTurn(st: State, input: TickInput)
    requires |input.live| == |input.claims|
    ensures Turn(st, input, |input.live|) == Claimed(st, input)
  {
    hide ClaimAll, Opened;
    assert input.live[..|input.live|] == input.live && input.claims[..|input.live|] == input.claims;
  }

  lemma HoldOnHolds(slots: seq<Hold>, t: Endpoint)
    ensures HoldOn(slots, t).Some? <==> Holds(slots, t)
  {
    HoldsIsFound(slots, t);
  }

  // In every run, a tick over distinct flows ends with a live flow held that was not held before exactly when, at its
  // turn, it was ripe, unowned and within the total budget, and the four steps worked.
  lemma TickTakesUpExactly(cfg: Config, inputs: seq<TickInput>, input: TickInput, k: nat)
    requires Inputs(cfg, inputs) && OncePerTuple(inputs) && k < |input.live| == |input.claims|
    requires FromNat(cfg.natAddr, input.live) && NoDuplicates(input.live)
    requires !Holds(Run(cfg, inputs).slots, input.live[k].bind)
    ensures var before := Turn(Run(cfg, inputs), input, k);
            var c := input.live[k];
            Holds(Tick(Run(cfg, inputs), input).slots, c.bind) <==>
            Ripe(History(inputs), before.slots, c, cfg.perHost) && c.bind !in input.owned
            && |before.slots| < cfg.maxRefresh && AllStepsWork(input.claims[k])
  {
    var st, c := Run(cfg, inputs), input.live[k];
    ClaimsExactly(cfg, inputs, input, k);
    EveryRunHolds(cfg, inputs);
    TurnTakesUp(st, input, k);
    var before, after := Turn(st, input, k), Turn(st, input, k + 1);
    var taken := Fresh(c, input.claims[k].inbound);
    hide HoldInv, Run, Turn, Ripe, Tick, SteadyFor, Inputs, OncePerTuple, History;
    assert after.slots == before.slots + [taken] ==> after.slots[|before.slots|] == taken;
  }

  // Whether a tick ends with a flow held is decided at its turn.
  lemma TurnTakesUp(st: State, input: TickInput, k: nat)
    requires HoldInv(st) && FromNat(st.cfg.natAddr, input.live) && NoDuplicates(input.live)
    requires k < |input.live| == |input.claims| && !Holds(st.slots, input.live[k].bind)
    ensures var t := input.live[k].bind;
            !Holds(Turn(st, input, k).slots, t)
            && (Holds(Tick(st, input).slots, t) <==>
                Holds(Turn(st, input, k + 1).slots, t) && t !in input.owned)
  {
    var c := input.live[k];
    hide HoldInv, Turn, Tick, Due, Judge, Holds;
    FirstTurn(st, input, c.bind);
    OtherTurns(st, input, 0, k, c.bind);
    OtherTurns(st, input, k + 1, |input.live|, c.bind);
    LastTurn(st, input);
    TickOn(st, input, c.bind);
    HoldOnHolds(Tick(st, input).slots, c.bind);
    HoldOnHolds(st.slots, c.bind);
    HoldOnHolds(Claimed(st, input).slots, c.bind);
    JudgedComesFrom(st, input, c.bind);
    LiveAt(input, k);
    FreshIsJudged(c, input.claims[k].inbound, input, ProbeOf(Claimed(st, input)));
  }

  // A hold just taken up is due only if its tuple is owned.
  lemma FreshIsJudged(c: Candidate, inbound: u64, input: TickInput, probe: Option<Ipv4>)
    ensures Due(input.owned)(Judge(Fresh(c, inbound), input, probe)) <==> c.bind in input.owned
  {}

  lemma LiveAt(input: TickInput, k: nat)
    requires k < |input.live| && NoDuplicates(input.live)
    ensures FirstIndex(input.live, LiveOn(input.live[k].bind)) == k
  {
    assert LiveOn(input.live[k].bind)(input.live[k]);
  }
}
