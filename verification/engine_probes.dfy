// When a tick probes which device, why a hold ends, and which refused flows are on report, over whole runs.
module EngineProbes {
  import opened Net
  import opened Seqs
  import opened Engine
  import opened EngineLaws
  import opened EngineHistory
  import opened EngineRelease
  import opened EngineClaims

  // ---- the probe ----

  // The holds the liveness watch of the last tick goes over.
  ghost function Watched(cfg: Config, h: seq<TickInput>): seq<Hold>
    requires RunInputs(cfg, h) && h != []
  {
    Claimed(Run(cfg, Front(h)), LastTick(h)).slots
  }

  ghost predicate Probes(cfg: Config, h: seq<TickInput>)
    requires RunInputs(cfg, h) && h != []
  {
    |h| % 3 == 0 && Watched(cfg, h) != []
  }

  // The place after the last one probed.
  ghost function Place(cfg: Config, h: seq<TickInput>): nat
    requires RunInputs(cfg, h)
  {
    if h == [] then 0
    else if !Probes(cfg, h) then Place(cfg, Front(h))
    else if Place(cfg, Front(h)) < |Watched(cfg, h)| then Place(cfg, Front(h)) + 1
    else 1
  }

  lemma {:induction false} ClaimsLeaveTheProbe(
    st: State, live: seq<Candidate>, owned: seq<Endpoint>, envs: seq<ClaimEnv>)
    requires |envs| == |live|
    ensures ClaimAll(st, live, owned, envs).ticks == st.ticks && ClaimAll(st, live, owned, envs).cursor == st.cursor
  {
    hide Exists, HostBudgetOk, ClaimAllowed, QuietOf;
    if live != [] {
      ClaimsLeaveTheProbe(st, live[..|live| - 1], owned, envs[..|live| - 1]);
    }
  }

  lemma {:induction false} SweepLeavesTheProbe(st: State, owned: seq<Endpoint>, i: nat)
    requires i <= |st.slots|
    ensures Sweep(st, owned, i).ticks == st.ticks && Sweep(st, owned, i).cursor == st.cursor
    ensures Sweep(st, owned, i).reported == st.reported
    decreases |st.slots| - i
  {
    hide Due, SwapRemove;
    if i < |st.slots| {
      if Due(owned)(st.slots[i]) {
        SweepLeavesTheProbe(Released(st, st.slots[i]).(slots := SwapRemove(st.slots, i)), owned, i);
      } else {
        SweepLeavesTheProbe(st, owned, i + 1);
      }
    }
  }

  lemma TickMovesTheProbe(st: State, input: TickInput)
    requires |input.claims| == |input.live|
    ensures var u, n := Tick(st, input), |Claimed(st, input).slots|;
            u.ticks == st.ticks + 1
            && u.cursor == if u.ticks % 3 != 0 || n == 0 then st.cursor else if st.cursor < n then st.cursor + 1 else 1
  {
    hide ClaimAll, Sweep, AgeYoung, QuietAll, ProbeAll, BookAll;
    ClaimsLeaveTheProbe(Opened(st, input), input.live, input.owned, input.claims);
    SweepLeavesTheProbe(Liveness(Claimed(st, input), input), input.owned, 0);
  }

  lemma {:induction false} EveryRunProbesInTurn(cfg: Config, h: seq<TickInput>)
    requires RunInputs(cfg, h)
    ensures Run(cfg, h).ticks == |h| && Run(cfg, h).cursor == Place(cfg, h)
  {
    if h != [] {
      EveryRunProbesInTurn(cfg, Front(h));
      TickMovesTheProbe(Run(cfg, Front(h)), LastTick(h));
      hide Tick, Claimed;
    }
  }

  // In every run, a tick probes exactly when it is a third one and something is held; the device it probes is that
  // of the hold after the last one probed, round robin.
  lemma ProbesExactly(cfg: Config, h: seq<TickInput>)
    requires RunInputs(cfg, h) && h != []
    ensures var holds, place := Watched(cfg, h), Place(cfg, Front(h));
            LastProbe(cfg, h) ==
            if |h| % 3 != 0 || holds == [] then None else Some(holds[if place < |holds| then place else 0].host)
  {
    var st := Run(cfg, Front(h));
    EveryRunProbesInTurn(cfg, Front(h));
    ClaimsLeaveTheProbe(Opened(st, LastTick(h)), LastTick(h).live, LastTick(h).owned, LastTick(h).claims);
    hide ClaimAll, BookAll, Run;
  }

  // ---- why a hold ends ----

  lemma ReasonByAccount(cfg: Config, h: seq<TickInput>, t: Endpoint, j: Hold, owned: seq<Endpoint>)
    requires RunInputs(cfg, h) && Follows(j, cfg, h, t)
    ensures ReleaseReason(j.bind in owned, j.misses, j.quiet, j.missing, j.sinceInbound) ==
            if t in owned then Some(OwnedBySlot)
            else if Missed(cfg, h, t) >= 3 then Some(DeviceGone)
            else if (Ticks(h, AbsentAt(cfg, t)) >= 150 && Ticks(h, PeerSilentAt(cfg, t)) >= 150)
                    || Ticks(h, BothSilentAt(cfg, t)) >= 150 then Some(Stale)
            else None
  {
    hide RunInputs, Missed, Ticks, AbsentAt, PeerSilentAt, BothSilentAt, Device, LastInbound, LastPackets;
  }

  // In every run, the reason a hold is released for: an owner's allocation first, then an absent device, then silence.
  lemma ReasonExactly(cfg: Config, h: seq<TickInput>, t: Endpoint)
    requires RunInputs(cfg, h) && Kept(cfg, h, t)
    ensures var j := Judged(Run(cfg, Front(h)), LastTick(h), t);
            j.Some?
            && (var s := j.value;
                ReleaseReason(t in LastTick(h).owned, s.misses, s.quiet, s.missing, s.sinceInbound) ==
                if t in LastTick(h).owned then Some(OwnedBySlot)
                else if Missed(cfg, h, t) >= 3 then Some(DeviceGone)
                else if (EachOfLast(h, 150, AbsentAt(cfg, t)) && EachOfLast(h, 150, PeerSilentAt(cfg, t)))
                        || EachOfLast(h, 150, BothSilentAt(cfg, t)) then Some(Stale)
                else None)
  {
    EveryHoldFollows(cfg, h, t);
    var j := Judged(Run(cfg, Front(h)), LastTick(h), t).value;
    hide *;
    ReasonByAccount(cfg, h, t, j, LastTick(h).owned);
    FollowedTuple(cfg, h, t, j);
    TicksMeans(h, 150, AbsentAt(cfg, t));
    TicksMeans(h, 150, PeerSilentAt(cfg, t));
    TicksMeans(h, 150, BothSilentAt(cfg, t));
  }

  lemma FollowedTuple(cfg: Config, h: seq<TickInput>, t: Endpoint, j: Hold)
    requires RunInputs(cfg, h) && Follows(j, cfg, h, t)
    ensures j.bind == t
  {}

  // ---- the flows on report ----

  // Candidate k is on t and, at its turn, could be held but for the allocation that owns it.
  ghost predicate Refused(cfg: Config, inputs: seq<TickInput>, input: TickInput, k: int, t: Endpoint)
    requires Inputs(cfg, inputs) && |input.live| == |input.claims|
  {
    0 <= k < |input.live| && input.live[k].bind == t && t in input.owned
    && !Holds(Turn(Run(cfg, inputs), input, k).slots, t)
    && Ripe(History(inputs), Turn(Run(cfg, inputs), input, k).slots, input.live[k], cfg.perHost)
  }

  lemma TurnReports(cfg: Config, inputs: seq<TickInput>, input: TickInput, k: nat, t: Endpoint)
    requires Inputs(cfg, inputs) && OncePerTuple(inputs) && k < |input.live| == |input.claims|
    ensures t in Turn(Run(cfg, inputs), input, k + 1).reported <==>
            t in Turn(Run(cfg, inputs), input, k).reported || Refused(cfg, inputs, input, k, t)
  {
    hide Run, Turn, Ripe, History, Holds, Inputs, OncePerTuple;
    ClaimsExactly(cfg, inputs, input, k);
  }

  ghost predicate RefusedBefore(cfg: Config, inputs: seq<TickInput>, input: TickInput, m: int, t: Endpoint)
    requires Inputs(cfg, inputs) && |input.live| == |input.claims|
  {
    exists k :: k < m && Refused(cfg, inputs, input, k, t)
  }

  lemma RefusedOneMore(cfg: Config, inputs: seq<TickInput>, input: TickInput, m: nat, t: Endpoint)
    requires Inputs(cfg, inputs) && |input.live| == |input.claims|
    ensures RefusedBefore(cfg, inputs, input, m + 1, t) <==>
            RefusedBefore(cfg, inputs, input, m, t) || Refused(cfg, inputs, input, m, t)
  {
    hide Refused, Inputs;
  }

  lemma {:induction false} ReportedByTurn(cfg: Config, inputs: seq<TickInput>, input: TickInput, m: nat, t: Endpoint)
    requires Inputs(cfg, inputs) && OncePerTuple(inputs) && m <= |input.live| == |input.claims|
    ensures t in Turn(Run(cfg, inputs), input, m).reported <==>
            (t in Run(cfg, inputs).reported && LiveIn(input, t)) || RefusedBefore(cfg, inputs, input, m, t)
    decreases m
  {
    hide Run, Turn, LiveIn, Inputs, OncePerTuple, RefusedBefore, Refused;
    if m == 0 {
      NothingRefusedYet(Run(cfg, inputs), input, t);
      NoneBefore(cfg, inputs, input, t);
    } else {
      ReportedByTurn(cfg, inputs, input, m - 1, t);
      TurnReports(cfg, inputs, input, m - 1, t);
      RefusedOneMore(cfg, inputs, input, m - 1, t);
    }
  }

  lemma NoneBefore(cfg: Config, inputs: seq<TickInput>, input: TickInput, t: Endpoint)
    requires Inputs(cfg, inputs) && |input.live| == |input.claims|
    ensures !RefusedBefore(cfg, inputs, input, 0, t)
  {
    hide Run, Turn, Inputs;
  }

  lemma NothingRefusedYet(st: State, input: TickInput, t: Endpoint)
    requires |input.live| == |input.claims|
    ensures t in Turn(st, input, 0).reported <==> t in st.reported && LiveIn(input, t)
  {
    hide BookAll;
    assert input.live[..0] == [];
  }

  lemma TickKeepsReports(st: State, input: TickInput)
    requires |input.live| == |input.claims|
    ensures Tick(st, input).reported == Turn(st, input, |input.live|).reported
  {
    hide ClaimAll, Sweep, AgeYoung, QuietAll, ProbeAll, Opened;
    LastTurn(st, input);
    SweepLeavesTheProbe(Liveness(Claimed(st, input), input), input.owned, 0);
    hide Turn;
  }

  // In every run, a tick ends with a flow on report exactly when it is live and was on report before, or the tick
  // refused it for the allocation that owns it.
  lemma ReportedExactly(cfg: Config, inputs: seq<TickInput>, input: TickInput, t: Endpoint)
    requires Inputs(cfg, inputs) && OncePerTuple(inputs) && |input.live| == |input.claims|
    ensures t in Tick(Run(cfg, inputs), input).reported <==>
            (t in Run(cfg, inputs).reported && LiveIn(input, t)) || exists k :: Refused(cfg, inputs, input, k, t)
  {
    ReportedByTurn(cfg, inputs, input, |input.live|, t);
    TickKeepsReports(Run(cfg, inputs), input);
    hide Tick, Run, Turn, Ripe, Inputs, OncePerTuple, Holds, History;
  }
}
