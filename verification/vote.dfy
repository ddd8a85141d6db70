// The majority vote over STUN servers: the confirmed tuple moves only to a value two servers agree on.
module Votes {
  import opened Net
  import opened Seqs

  const MAX_VOTE_SERVERS: nat := 4

  datatype Decision = Stable | Disagree(server: nat) | Churn(tuple: Endpoint)

  datatype Vote = Vote(confirmed: Option<Endpoint>, pend: seq<Option<Endpoint>>)

  const NO_PEND: seq<Option<Endpoint>> := [None, None, None, None]

  function Says(t: Endpoint): Option<Endpoint> -> bool { (p: Option<Endpoint>) => p == Some(t) }

  // A report is noted against its server; one from an untracked server is not.
  function Noted(pend: seq<Option<Endpoint>>, server: nat, t: Endpoint): seq<Option<Endpoint>>
    requires |pend| == MAX_VOTE_SERVERS
  {
    if server < MAX_VOTE_SERVERS then pend[server := Some(t)] else pend
  }

  // One report. The confirmed value heals all suspicion; otherwise the report is noted, and two noted reports
  // of one tuple confirm it, as does the very first report.
  function Observed(v: Vote, server: nat, t: Endpoint): (Vote, Decision)
    requires |v.pend| == MAX_VOTE_SERVERS
  {
    if v.confirmed == Some(t) then (Vote(v.confirmed, NO_PEND), Stable)
    else
      var pend := Noted(v.pend, server, t);
      if Count(pend, Says(t)) >= 2 || v.confirmed.None? then (Vote(Some(t), NO_PEND), Churn(t))
      else (Vote(v.confirmed, pend), Disagree(server))
  }

  class VoteState {
    var confirmed: Option<Endpoint>
    const pend: array<Option<Endpoint>>

    ghost predicate Valid()
      reads this
    {
      pend.Length == MAX_VOTE_SERVERS
    }

    ghost function View(): Vote
      reads this, pend
    {
      Vote(confirmed, pend[..])
    }

    constructor ()
      ensures Valid() && fresh(pend) && View() == Vote(None, NO_PEND)
    {
      confirmed := None;
      pend := new Option<Endpoint>[MAX_VOTE_SERVERS](_ => None);
    }

    method ClearPend()
      requires Valid()
      modifies pend
      ensures pend[..] == NO_PEND
    {
      for i := 0 to MAX_VOTE_SERVERS
        invariant forall j :: 0 <= j < i ==> pend[j] == None
      {
        pend[i] := None;
      }
    }

    method Observe(server: nat, t: Endpoint) returns (d: Decision)
      requires Valid()
      modifies this`confirmed, pend
      ensures (View(), d) == Observed(old(View()), server, t)
    {
      if confirmed == Some(t) {
        ClearPend();
        return Stable;
      }
      if server < MAX_VOTE_SERVERS {
        pend[server] := Some(t);
      }
      ghost var noted := Noted(old(pend[..]), server, t);
      assert pend[..] == noted;
      var agreeing := 0;
      for i := 0 to MAX_VOTE_SERVERS
        invariant pend[..] == noted && confirmed == old(confirmed)
        invariant agreeing == Count(noted[..i], Says(t))
      {
        FilterPrefix(noted, i, Says(t));
        if pend[i] == Some(t) {
          agreeing := agreeing + 1;
        }
      }
      assert noted[..MAX_VOTE_SERVERS] == noted;
      if agreeing >= 2 || confirmed.None? {
        confirmed := Some(t);
        ClearPend();
        return Churn(t);
      }
      return Disagree(server);
    }
  }

  // ---- runs ----

  datatype Report = Report(server: nat, tuple: Endpoint)

  function Run(obs: seq<Report>): (v: Vote)
    ensures |v.pend| == MAX_VOTE_SERVERS
  {
    if obs == [] then Vote(None, NO_PEND)
    else
      var o := obs[|obs| - 1];
      Observed(Run(obs[..|obs| - 1]), o.server, o.tuple).0
  }

  function Decided(obs: seq<Report>, o: Report): Decision {
    Observed(Run(obs), o.server, o.tuple).1
  }

  // The reports since the suspicion was last cleared: after any decision but a disagreement.
  function SinceClear(obs: seq<Report>): seq<Report> {
    if obs == [] then []
    else
      var front, o := obs[..|obs| - 1], obs[|obs| - 1];
      if Decided(front, o).Disagree? then SinceClear(front) + [o] else []
  }

  // A server's latest report among those.
  function Latest(obs: seq<Report>, server: nat): Option<Endpoint> {
    if obs == [] then None
    else if obs[|obs| - 1].server == server then Some(obs[|obs| - 1].tuple)
    else Latest(obs[..|obs| - 1], server)
  }

  // What is pending is each tracked server's latest report since the last clear. No two pending reports are
  // the same and none is the confirmed tuple.
  ghost predicate VoteInv(v: Vote) {
    |v.pend| == MAX_VOTE_SERVERS
    && (v.confirmed.None? ==> v.pend == NO_PEND)
    && (forall i :: 0 <= i < |v.pend| && v.pend[i].Some? ==> v.pend[i] != v.confirmed)
    && forall i, j :: 0 <= i < j < |v.pend| && v.pend[i].Some? ==> v.pend[i] != v.pend[j]
  }

  // Another server's noted report of t.
  ghost predicate Seconded(pend: seq<Option<Endpoint>>, server: nat, t: Endpoint) {
    exists j :: 0 <= j < |pend| && j != server && pend[j] == Some(t)
  }

  // Two noted reports of t: the reporting server's own, and another server's noted earlier.
  lemma AgreementNeedsAnother(v: Vote, server: nat, t: Endpoint)
    requires VoteInv(v) && v.confirmed != Some(t)
    ensures Count(Noted(v.pend, server, t), Says(t)) >= 2 <==> server < MAX_VOTE_SERVERS && Seconded(v.pend, server, t)
  {
    var pend := Noted(v.pend, server, t);
    CountZero(pend, Says(t));
    if server < MAX_VOTE_SERVERS {
      CountOne(pend, server, Says(t));
      assert forall j :: 0 <= j < |pend| && j != server ==>
          pend[j] == v.pend[j] && Says(t)(pend[j]) == (pend[j] == Some(t));
    } else if Seconded(v.pend, server, t) {
      var j :| 0 <= j < |pend| && pend[j] == Some(t);
      CountOne(pend, j, Says(t));
    }
  }

  lemma ObservedKeepsInv(v: Vote, server: nat, t: Endpoint)
    requires VoteInv(v)
    ensures VoteInv(Observed(v, server, t).0)
  {
    hide Count;
    if v.confirmed != Some(t) {
      AgreementNeedsAnother(v, server, t);
    }
  }

  lemma ObservedPend(v: Vote, server: nat, t: Endpoint)
    requires |v.pend| == MAX_VOTE_SERVERS
    ensures var (u, d) := Observed(v, server, t);
            u.pend == if d.Disagree? then Noted(v.pend, server, t) else NO_PEND
  {}

  lemma LatestOfMore(obs: seq<Report>, o: Report, server: nat)
    ensures Latest(obs + [o], server) == if o.server == server then Some(o.tuple) else Latest(obs, server)
  {
    assert (obs + [o])[..|obs|] == obs;
  }

  lemma {:induction false} PendingIsLatest(obs: seq<Report>)
    ensures VoteInv(Run(obs))
    ensures forall s :: 0 <= s < MAX_VOTE_SERVERS ==> Run(obs).pend[s] == Latest(SinceClear(obs), s)
  {
    if obs != [] {
      hide VoteInv, Observed, Latest;
      var front, o := obs[..|obs| - 1], obs[|obs| - 1];
      PendingIsLatest(front);
      ObservedKeepsInv(Run(front), o.server, o.tuple);
      ObservedPend(Run(front), o.server, o.tuple);
      forall s | 0 <= s < MAX_VOTE_SERVERS ensures Run(obs).pend[s] == Latest(SinceClear(obs), s) {
        LatestOfMore(SinceClear(front), o, s);
        NeverReported([], s);
      }
    }
  }

  // Another tracked server's latest report since the last clear is t.
  ghost predicate Backed(obs: seq<Report>, server: nat, t: Endpoint) {
    exists j :: 0 <= j < 4 && j != server && Latest(SinceClear(obs), j) == Some(t)
  }

  lemma SecondedIsBacked(obs: seq<Report>, server: nat, t: Endpoint)
    ensures Seconded(Run(obs).pend, server, t) <==> Backed(obs, server, t)
  {
    PendingIsLatest(obs);
    hide SinceClear, Latest, Run;
    if Seconded(Run(obs).pend, server, t) {
      var j :| 0 <= j < MAX_VOTE_SERVERS && j != server && Run(obs).pend[j] == Some(t);
      assert Latest(SinceClear(obs), j) == Some(t);
    }
    if Backed(obs, server, t) {
      var j :| 0 <= j < MAX_VOTE_SERVERS && j != server && Latest(SinceClear(obs), j) == Some(t);
      assert Run(obs).pend[j] == Some(t);
    }
  }

  // Exactly when a report moves the confirmed tuple: it is the first of all, or it differs from the confirmed
  // tuple, comes from a tracked server, and another tracked server's latest report since the last clear is
  // the same tuple. So every confirmation after the first is backed by two servers.
  lemma MovesExactly(obs: seq<Report>, o: Report)
    ensures Decided(obs, o) == Churn(o.tuple) <==>
            Run(obs).confirmed.None?
            || (Run(obs).confirmed != Some(o.tuple) && o.server < 4 && Backed(obs, o.server, o.tuple))
    ensures Run(obs + [o]).confirmed == if Decided(obs, o) == Churn(o.tuple) then Some(o.tuple) else Run(obs).confirmed
    ensures Decided(obs, o) == Stable <==> Run(obs).confirmed == Some(o.tuple)
  {
    PendingIsLatest(obs);
    SecondedIsBacked(obs, o.server, o.tuple);
    if Run(obs).confirmed != Some(o.tuple) {
      AgreementNeedsAnother(Run(obs), o.server, o.tuple);
    }
    hide Count, Noted, Backed, Seconded, SinceClear, Latest, VoteInv;
    assert (obs + [o])[..|obs|] == obs;
  }

  lemma {:induction false} OnlyOneReports(obs: seq<Report>, more: seq<Report>, server: nat)
    requires Run(obs).confirmed.Some? && SinceClear(obs) == []
    requires forall o :: o in more ==> o.server == server
    ensures Run(obs + more).confirmed == Run(obs).confirmed
    ensures forall o :: o in SinceClear(obs + more) ==> o.server == server
  {
    if more == [] {
      assert obs + more == obs;
    } else {
      var front, o := more[..|more| - 1], more[|more| - 1];
      OnlyOneReports(obs, front, server);
      assert obs + more == (obs + front) + [o];
      assert (obs + more)[..|obs + more| - 1] == obs + front;
      MovesExactly(obs + front, o);
      hide Run, Decided;
      forall j | 0 <= j < MAX_VOTE_SERVERS && j != server ensures Latest(SinceClear(obs + front), j).None? {
        NeverReported(SinceClear(obs + front), j);
      }
    }
  }

  lemma {:induction false} NeverReported(obs: seq<Report>, server: nat)
    requires forall o :: o in obs ==> o.server != server
    ensures Latest(obs, server).None?
  {
    if obs != [] {
      NeverReported(obs[..|obs| - 1], server);
    }
  }

  // Once confirmed and clear of suspicion, whatever one server alone reports, however often, moves nothing.
  lemma OneServerNeverMovesIt(obs: seq<Report>, more: seq<Report>, server: nat)
    requires Run(obs).confirmed.Some? && SinceClear(obs) == []
    requires forall o :: o in more ==> o.server == server
    ensures Run(obs + more).confirmed == Run(obs).confirmed
  {
    OnlyOneReports(obs, more, server);
  }
}
