// GENA eventing: the subscriptions, the bounded mirror of their identifiers, and delta events.
//
// A view offered to a subscriber is an input, and an event body is the set of variables it carries.
module Gena {
  import opened Net
  import opened Seqs

  const MAX_SUBS: nat := 8
  const TIMEOUT_CAP: u32 := 1800

  type Sid = seq<u8>

  // ---- the mirror ----

  // A bounded set of subscription identifiers in a fixed buffer, the first n slots in use.
  class SidSet {
    const sids: array<Option<Sid>>
    var n: nat

    ghost predicate Valid()
      reads this, sids
    {
      sids.Length == MAX_SUBS && n <= MAX_SUBS && forall i :: 0 <= i < MAX_SUBS ==> (sids[i].Some? <==> i < n)
    }

    ghost function Contents(): (c: seq<Sid>)
      reads this, sids
      requires Valid()
      ensures |c| == n && forall i :: 0 <= i < n ==> sids[i] == Some(c[i])
    {
      seq(n, i requires 0 <= i < n && Valid() reads this, sids => sids[i].value)
    }

    constructor ()
      ensures Valid() && fresh(sids) && Contents() == []
    {
      sids := new Option<Sid>[MAX_SUBS](_ => None);
      n := 0;
    }

    method Clear()
      requires Valid()
      modifies this, sids
      ensures Valid() && Contents() == []
    {
      n := 0;
      for i := 0 to MAX_SUBS
        invariant n == 0 && forall j :: 0 <= j < i ==> sids[j] == None
      {
        sids[i] := None;
      }
    }

    method Has(s: Sid) returns (r: bool)
      requires Valid()
      ensures r == (s in Contents())
    {
      for i := 0 to n
        invariant forall j :: 0 <= j < i ==> sids[j] != Some(s)
      {
        if sids[i] == Some(s) {
          assert Contents()[i] == s;
          return true;
        }
      }
      return false;
    }

    method Add(s: Sid) returns (ok: bool)
      requires Valid()
      modifies this, sids
      ensures Valid()
      ensures ok == (s !in old(Contents()) && |old(Contents())| < MAX_SUBS)
      ensures Contents() == if ok then old(Contents()) + [s] else old(Contents())
    {
      var present := Has(s);
      if present || n >= MAX_SUBS {
        return false;
      }
      sids[n] := Some(s);
      n := n + 1;
      return true;
    }

    // Swap the last identifier into the gap.
    method RemoveIndex(i: nat)
      requires Valid() && i < n
      modifies this, sids
      ensures Valid() && Contents() == SwapRemove(old(Contents()), i)
    {
      sids[i], sids[n - 1] := sids[n - 1], sids[i];
      sids[n - 1] := None;
      n := n - 1;
    }

    method Remove(s: Sid) returns (ok: bool)
      requires Valid()
      modifies this, sids
      ensures Valid()
      ensures ok == (s in old(Contents()))
      ensures Contents() == WithoutSid(old(Contents()), s)
    {
      var i := 0;
      while i < n
        invariant i <= n && Valid() && Contents() == old(Contents())
        invariant forall j :: 0 <= j < i ==> !Same(s)(Contents()[j])
      {
        if sids[i] == Some(s) {
          assert Same(s)(Contents()[i]);
          RemoveIndex(i);
          return true;
        }
        i := i + 1;
      }
      return false;
    }
  }

  function Same(s: Sid): Sid -> bool { (x: Sid) => x == s }

  function WithoutSid(sids: seq<Sid>, s: Sid): seq<Sid> {
    var i := FirstIndex(sids, Same(s));
    if i < |sids| then SwapRemove(sids, i) else sids
  }

  // ---- views and event bodies ----

  // The evented variables; connected exactly when the external address is known.
  datatype EventView = EventView(extIp: Ipv4, connected: bool, entries: u16, updateId: u32)

  function NewView(extIp: Ipv4, entries: u16, updateId: u32): EventView {
    EventView(extIp, extIp != UNSPECIFIED, entries, updateId)
  }

  datatype Body = Body(status: Option<bool>, extIp: Option<Ipv4>, entries: Option<u16>, updateId: Option<u32>)

  const EMPTY_BODY: Body := Body(None, None, None, None)

  // The variables that moved since the previous view, or all of them when there is none.
  function PropertySet(prev: Option<EventView>, now: EventView): Body {
    Body(if prev.None? || prev.value.connected != now.connected then Some(now.connected) else None,
         if prev.None? || prev.value.extIp != now.extIp then Some(now.extIp) else None,
         if prev.None? || prev.value.entries != now.entries then Some(now.entries) else None,
         if prev.None? || prev.value.updateId != now.updateId then Some(now.updateId) else None)
  }

  // What a subscriber makes of a body: each variable it carries replaces the one held.
  function Patched(v: EventView, b: Body): EventView {
    EventView(if b.extIp.Some? then b.extIp.value else v.extIp,
              if b.status.Some? then b.status.value else v.connected,
              if b.entries.Some? then b.entries.value else v.entries,
              if b.updateId.Some? then b.updateId.value else v.updateId)
  }

  lemma PatchGivesNow(prev: Option<EventView>, now: EventView, held: EventView)
    requires prev.Some? ==> prev.value == held
    ensures Patched(held, PropertySet(prev, now)) == now
    ensures PropertySet(prev, now) == EMPTY_BODY <==> prev == Some(now)
  {}

  // ---- subscriptions ----

  datatype Sub = Sub(sid: Sid, caller: Ipv4, isV2: bool, timeout: u32, expires: u64, key: u32, sent: Option<EventView>)

  datatype State = State(subs: seq<Sub>, sids: seq<Sid>, updateId: u32)

  function HasSid(s: Sid): Sub -> bool { (x: Sub) => x.sid == s }

  function Outlives(now: u64): Sub -> bool { (x: Sub) => x.expires > now }

  function SidsOf(subs: seq<Sub>): (r: seq<Sid>)
    ensures |r| == |subs| && forall i :: 0 <= i < |r| ==> r[i] == subs[i].sid
  {
    if subs == [] then [] else SidsOf(subs[..|subs| - 1]) + [subs[|subs| - 1].sid]
  }

  function ClampTimeout(t: u32): u32 { Max(1, Min(t, TIMEOUT_CAP)) }

  function AdvanceKey(key: u32): u32 { (key + 1) % 0x1_0000_0000 }

  // An event as delivered: the subscriber it went to, its key and its body.
  datatype Event = Event(sid: Sid, key: u32, body: Body)

  // Offer a view to one subscriber. Nothing moved is no event and no advance of the key.
  function Offer(g: State, s: Sid, view: EventView, force: bool): (State, Option<Event>) {
    var i := FirstIndex(g.subs, HasSid(s));
    if i == |g.subs| then (g, None)
    else
      var sub := g.subs[i];
      var body := PropertySet(if force then None else sub.sent, view);
      if body == EMPTY_BODY then (g, None)
      else
        (g.(subs := g.subs[i := sub.(sent := Some(view), key := AdvanceKey(sub.key))]),
         Some(Event(s, sub.key, body)))
  }

  // A subscription is refused when the mirror is full or already has its identifier. The first event follows
  // at once and carries every variable.
  function Subscribe(
    g: State, s: Sid, caller: Ipv4, isV2: bool, timeout: u32, now: u64, view: EventView): (State, Option<Event>)
  {
    if s in g.sids || |g.sids| >= MAX_SUBS then (g, None)
    else
      var t := ClampTimeout(timeout);
      Offer(g.(subs := g.subs + [Sub(s, caller, isV2, t, SatAdd(now, t * 2), 0, None)], sids := g.sids + [s]), s,
        view, true)
  }

  function Renew(g: State, s: Sid, timeout: u32, now: u64): State {
    var i := FirstIndex(g.subs, HasSid(s));
    var t := ClampTimeout(timeout);
    if i == |g.subs| then g else g.(subs := g.subs[i := g.subs[i].(timeout := t, expires := SatAdd(now, t * 2))])
  }

  // The mirror is asked only when a subscription went.
  function Unsubscribe(g: State, s: Sid): (State, bool) {
    var subs := Filter(g.subs, Not(HasSid(s)));
    if |subs| == |g.subs| then (g.(subs := subs), false)
    else (g.(subs := subs, sids := WithoutSid(g.sids, s)), s in g.sids)
  }

  // Rebuilding refuses what the mirror cannot take.
  function Rebuilt(sids: seq<Sid>): seq<Sid> {
    if sids == [] then []
    else
      var r := Rebuilt(sids[..|sids| - 1]);
      if sids[|sids| - 1] in r || |r| >= MAX_SUBS then r else r + [sids[|sids| - 1]]
  }

  function Prune(g: State, now: u64): State {
    var subs := Filter(g.subs, Outlives(now));
    if |subs| < |g.subs| then g.(subs := subs, sids := Rebuilt(SidsOf(subs))) else g.(subs := subs)
  }

  function BumpUpdateId(g: State): State { g.(updateId := (g.updateId + 1) % 0x1_0000_0000) }

  // ---- the state as the program holds it ----

  class GenaState {
    var subs: seq<Sub>
    const sids: SidSet
    var updateId: u32

    ghost predicate Valid()
      reads this, sids, sids.sids
    {
      sids.Valid()
    }

    ghost function View(): State
      reads this, sids, sids.sids
      requires Valid()
    {
      State(subs, sids.Contents(), updateId)
    }

    constructor ()
      ensures Valid() && fresh(sids) && fresh(sids.sids) && View() == State([], [], 0)
    {
      subs, updateId := [], 0;
      sids := new SidSet();
    }

    method NotifyView(s: Sid, view: EventView, force: bool) returns (e: Option<Event>)
      requires Valid()
      modifies this`subs
      ensures Valid() && (View(), e) == Offer(old(View()), s, view, force)
    {
      var i := FirstIndex(subs, HasSid(s));
      if i == |subs| {
        return None;
      }
      var sub := subs[i];
      var body := if force then PropertySet(None, view) else PropertySet(sub.sent, view);
      if body == EMPTY_BODY {
        return None;
      }
      subs := subs[i := subs[i].(sent := Some(view), key := AdvanceKey(sub.key))];
      return Some(Event(s, sub.key, body));
    }

    method AddSubscription(
      s: Sid, caller: Ipv4, isV2: bool, timeout: u32, now: u64, view: EventView) returns (e: Option<Event>)
      requires Valid()
      modifies this`subs, sids, sids.sids
      ensures Valid() && (View(), e) == Subscribe(old(View()), s, caller, isV2, timeout, now, view)
    {
      var t := ClampTimeout(timeout);
      var added := sids.Add(s);
      if !added {
        return None;
      }
      subs := subs + [Sub(s, caller, isV2, t, SatAdd(now, t * 2), 0, None)];
      e := NotifyView(s, view, true);
    }

    method RenewSubscription(s: Sid, timeout: u32, now: u64) returns (ok: bool)
      requires Valid()
      modifies this`subs
      ensures Valid() && View() == Renew(old(View()), s, timeout, now) && ok == Exists(old(subs), HasSid(s))
    {
      var i := FirstIndex(subs, HasSid(s));
      if i == |subs| {
        return false;
      }
      var t := ClampTimeout(timeout);
      subs := subs[i := subs[i].(timeout := t, expires := SatAdd(now, t * 2))];
      return true;
    }

    method RemoveSubscription(s: Sid) returns (ok: bool)
      requires Valid()
      modifies this`subs, sids, sids.sids
      ensures Valid() && (View(), ok) == Unsubscribe(old(View()), s)
    {
      var before := |subs|;
      subs := Filter(subs, Not(HasSid(s)));
      if |subs| == before {
        return false;
      }
      ok := sids.Remove(s);
    }

    method PruneExpired(now: u64)
      requires Valid()
      modifies this`subs, sids, sids.sids
      ensures Valid() && View() == Prune(old(View()), now)
    {
      var before := |subs|;
      subs := Filter(subs, Outlives(now));
      if |subs| < before {
        var keep := SidsOf(subs);
        sids.Clear();
        var k := 0;
        while k < |keep|
          invariant k <= |keep| && Valid()
          invariant subs == Filter(old(subs), Outlives(now)) && updateId == old(updateId)
          invariant sids.Contents() == Rebuilt(keep[..k])
        {
          assert keep[..k + 1][..k] == keep[..k];
          var _ := sids.Add(keep[k]);
          k := k + 1;
        }
        assert keep[..k] == keep;
      }
    }

    method MoveUpdateId()
      requires Valid()
      modifies this`updateId
      ensures Valid() && View() == BumpUpdateId(old(View()))
    {
      updateId := (updateId + 1) % 0x1_0000_0000;
    }
  }
}
