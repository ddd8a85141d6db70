// Whole runs of DeviceProtection: what a passed authorization says about the past.
module DeviceProtectionRuns {
  import opened Net
  import opened Seqs
  import opened DeviceProtection

  datatype Event =
    | Begin(key: Ipv4, name: string, nonce: Octets16, now: u64)
    | LoginWith(key: Ipv4, challenge: Octets16, auth: seq<u8>, now: u64)
    | LogoutOf(key: Ipv4, now: u64)
    | TouchOf(key: Ipv4, now: u64)
    | Enrol(incoming: seq<Identity>)
    | Expel(name: string)
    | Password(name: string, stored: Octets16, salt: Octets16)
    | GrantRoles(name: string, roles: seq<string>)
    | RevokeRoles(name: string, roles: seq<string>)

  function Apply(d: Dp, mac: Mac, e: Event): Dp {
    match e
    case Begin(key, name, nonce, now) => BeginLogin(d, key, name, nonce, now).0
    case LoginWith(key, challenge, auth, now) => Login(d, mac, key, challenge, auth, now).0
    case LogoutOf(key, now) => Logout(d, key, now)
    case TouchOf(key, now) => Touch(d, key, now)
    case Enrol(incoming) => d.(acl := AddIdentities(d.acl, incoming).0)
    case Expel(name) => d.(acl := RemoveIdentity(d.acl, name))
    case Password(name, stored, salt) => SetPassword(d, name, stored, salt).0
    case GrantRoles(name, roles) => EditRoles(d, name, AddingRoles(roles)).0
    case RevokeRoles(name, roles) => EditRoles(d, name, RemovingRoles(roles)).0
  }

  // The state after a trace, from records without any session.
  function After(d: Dp, mac: Mac, trace: seq<Event>): Dp {
    if trace == [] then d.(sessions := map[]) else Apply(After(d, mac, trace[..|trace| - 1]), mac, trace[|trace| - 1])
  }

  // ---- what the trace says about one key ----

  predicate Issues(d: Dp, mac: Mac, front: seq<Event>, e: Event, key: Ipv4) {
    e.Begin? && e.key == key && FindUser(After(d, mac, front).users, e.name).Some?
  }

  predicate LogsIn(d: Dp, mac: Mac, front: seq<Event>, e: Event, key: Ipv4) {
    e.LoginWith? && e.key == key && Login(After(d, mac, front), mac, key, e.challenge, e.auth, e.now).1.Ok?
  }

  // The position of the last challenge issued to the key after its last logout.
  function LastIssue(d: Dp, mac: Mac, trace: seq<Event>, key: Ipv4): Option<nat> {
    if trace == [] then None
    else
      var front, e := trace[..|trace| - 1], trace[|trace| - 1];
      if e.LogoutOf? && e.key == key then None
      else if Issues(d, mac, front, e, key) then Some(|trace| - 1)
      else LastIssue(d, mac, front, key)
  }

  // The position of the last successful login of the key after its last logout.
  function LastLogin(d: Dp, mac: Mac, trace: seq<Event>, key: Ipv4): Option<nat> {
    if trace == [] then None
    else
      var front, e := trace[..|trace| - 1], trace[|trace| - 1];
      if e.LogoutOf? && e.key == key then None
      else if LogsIn(d, mac, front, e, key) then Some(|trace| - 1)
      else LastLogin(d, mac, front, key)
  }

  // When the key was last active: a challenge issued, a logout, or, once it has a session, any login attempt,
  // successful or not, and any touch.
  function LastActive(d: Dp, mac: Mac, trace: seq<Event>, key: Ipv4): Option<u64> {
    if trace == [] then None
    else
      var front, e := trace[..|trace| - 1], trace[|trace| - 1];
      var before := LastActive(d, mac, front, key);
      if e.LogoutOf? && e.key == key then Some(e.now)
      else if Issues(d, mac, front, e, key) then Some(e.now)
      else if (e.LoginWith? || e.TouchOf?) && e.key == key && before.Some? then Some(e.now)
      else before
  }

  // ---- the sessions against the trace ----

  ghost predicate SessionFollows(d: Dp, mac: Mac, trace: seq<Event>, key: Ipv4, s: Session) {
    s.failures < FAILURE_LIMIT
    && LastActive(d, mac, trace, key) == Some(s.lastSeen)
    && (s.challenge.Some? ==>
          var j := LastIssue(d, mac, trace, key);
          j.Some? && j.value < |trace| && trace[j.value].Begin?
          && s.challenge.value == (trace[j.value].nonce, trace[j.value].name))
    && (s.user.Some? <==> s.cpIdentity.Some?)
    && (s.user.Some? <==> LastLogin(d, mac, trace, key).Some?)
    && (s.user.Some? ==>
          var i := LastLogin(d, mac, trace, key).value;
          i < |trace| && trace[i].LoginWith?
          && PrincipalAt(d, mac, trace, i) == Some((s.user.value, s.cpIdentity.value)))
  }

  // Whom the login at position i logged in: the challenge's user, and the control point that proved itself.
  function PrincipalAt(d: Dp, mac: Mac, trace: seq<Event>, i: nat): Option<(string, Octets16)>
    requires i < |trace| && trace[i].LoginWith?
  {
    var before := After(d, mac, trace[..i]);
    var e := trace[i];
    if e.key !in before.sessions || before.sessions[e.key].challenge.None? then None
    else
      var name := before.sessions[e.key].challenge.value.1;
      var u := FindUser(before.users, name);
      if u.None? then None
      else
        var k := FirstIndex(before.acl, Proves(mac, u.value.stored, e.challenge, before.deviceId, e.auth));
        if k < |before.acl| then Some((name, before.acl[k].id)) else None
  }

  ghost predicate Follows(d: Dp, mac: Mac, trace: seq<Event>) {
    var now := After(d, mac, trace);
    forall key: Ipv4 ::
      if key in now.sessions then SessionFollows(d, mac, trace, key, now.sessions[key])
      else LastActive(d, mac, trace, key).None? && LastLogin(d, mac, trace, key).None?
  }

  // What one event does to the session of a key: nothing, unless it names the key.
  lemma OtherKeysUntouched(d: Dp, mac: Mac, e: Event, key: Ipv4)
    requires !((e.Begin? || e.LoginWith? || e.LogoutOf? || e.TouchOf?) && e.key == key)
    ensures key in Apply(d, mac, e).sessions <==> key in d.sessions
    ensures key in d.sessions ==> Apply(d, mac, e).sessions[key] == d.sessions[key]
  {
    hide AddIdentities, SetPassword, RemoveIdentity, FindUser, Attempt;
    match e
    case Password(name, stored, salt) => PasswordKeepsSessions(d, name, stored, salt);
    case GrantRoles(name, roles) =>
    case _ =>
  }

  lemma PasswordKeepsSessions(d: Dp, name: string, stored: Octets16, salt: Octets16)
    ensures SetPassword(d, name, stored, salt).0.sessions == d.sessions
  {}

  // The references a session hangs on do not move when the trace grows by an event of another kind or key.
  lemma QuietEvent(d: Dp, mac: Mac, trace: seq<Event>, e: Event, key: Ipv4)
    requires !((e.Begin? || e.LoginWith? || e.LogoutOf? || e.TouchOf?) && e.key == key)
    ensures LastIssue(d, mac, trace + [e], key) == LastIssue(d, mac, trace, key)
    ensures LastLogin(d, mac, trace + [e], key) == LastLogin(d, mac, trace, key)
    ensures LastActive(d, mac, trace + [e], key) == LastActive(d, mac, trace, key)
  {
    GrownTrace(d, mac, trace, e, key);
  }

  lemma PrincipalStays(d: Dp, mac: Mac, trace: seq<Event>, e: Event, i: nat)
    requires i < |trace| && trace[i].LoginWith?
    ensures PrincipalAt(d, mac, trace + [e], i) == PrincipalAt(d, mac, trace, i)
  {
    hide After, FindUser, Proves;
    assert (trace + [e])[..i] == trace[..i] && (trace + [e])[i] == trace[i];
  }

  lemma {:induction false} IssueInTrace(d: Dp, mac: Mac, trace: seq<Event>, key: Ipv4)
    ensures LastIssue(d, mac, trace, key).Some? ==>
              var j := LastIssue(d, mac, trace, key).value;
              j < |trace| && Issues(d, mac, trace[..j], trace[j], key)
              && forall k :: j < k < |trace| ==>
                   !Issues(d, mac, trace[..k], trace[k], key) && !(trace[k].LogoutOf? && trace[k].key == key)
  {
    hide After, Issues, LogsIn;
    if trace != [] {
      var front := trace[..|trace| - 1];
      IssueInTrace(d, mac, front, key);
      assert forall k :: 0 <= k < |front| ==> front[..k] == trace[..k] && front[k] == trace[k];
    }
  }

  lemma {:induction false} LoginInTrace(d: Dp, mac: Mac, trace: seq<Event>, key: Ipv4)
    ensures LastLogin(d, mac, trace, key).Some? ==>
              var i := LastLogin(d, mac, trace, key).value;
              i < |trace| && LogsIn(d, mac, trace[..i], trace[i], key)
              && forall k :: i < k < |trace| ==>
                   !LogsIn(d, mac, trace[..k], trace[k], key) && !(trace[k].LogoutOf? && trace[k].key == key)
  {
    hide After, Issues, LogsIn;
    if trace != [] {
      var front := trace[..|trace| - 1];
      LoginInTrace(d, mac, front, key);
      assert forall k :: 0 <= k < |front| ==> front[..k] == trace[..k] && front[k] == trace[k];
    }
  }

  lemma QuietFollows(d: Dp, mac: Mac, trace: seq<Event>, e: Event, key: Ipv4, s: Session)
    requires !((e.Begin? || e.LoginWith? || e.LogoutOf? || e.TouchOf?) && e.key == key)
    requires SessionFollows(d, mac, trace, key, s)
    ensures SessionFollows(d, mac, trace + [e], key, s)
  {
    QuietEvent(d, mac, trace, e, key);
    hide LastIssue, LastActive, PrincipalAt;
    if s.user.Some? {
      PrincipalStays(d, mac, trace, e, LastLogin(d, mac, trace, key).value);
    }
    hide LastLogin;
  }

  // The references after one more event.
  lemma GrownTrace(d: Dp, mac: Mac, trace: seq<Event>, e: Event, key: Ipv4)
    ensures var out := e.LogoutOf? && e.key == key;
            var issues, logsIn := Issues(d, mac, trace, e, key), LogsIn(d, mac, trace, e, key);
            LastIssue(d, mac, trace + [e], key) ==
              (if out then None else if issues then Some(|trace|) else LastIssue(d, mac, trace, key))
            && LastLogin(d, mac, trace + [e], key) ==
              (if out then None else if logsIn then Some(|trace|) else LastLogin(d, mac, trace, key))
    ensures var before := LastActive(d, mac, trace, key);
            LastActive(d, mac, trace + [e], key) ==
              if (e.LogoutOf? && e.key == key) || Issues(d, mac, trace, e, key) then Some(e.now)
              else if (e.LoginWith? || e.TouchOf?) && e.key == key && before.Some? then Some(e.now)
              else before
  {
    hide After, Issues, LogsIn;
    assert (trace + [e])[..|trace|] == trace;
  }

  // A touch only moves the last activity.
  lemma TouchFollows(d: Dp, mac: Mac, trace: seq<Event>, e: Event, s: Session)
    requires e.TouchOf? && SessionFollows(d, mac, trace, e.key, s)
    ensures SessionFollows(d, mac, trace + [e], e.key, s.(lastSeen := e.now))
  {
    GrownTrace(d, mac, trace, e, e.key);
    hide PrincipalAt, After, LastIssue, LastLogin, LastActive;
    if s.user.Some? {
      PrincipalStays(d, mac, trace, e, LastLogin(d, mac, trace, e.key).value);
    }
  }

  // A challenge for a known user is the last one issued from then on; for an unknown one nothing happens.
  lemma BeginFollows(d: Dp, mac: Mac, trace: seq<Event>, e: Event)
    requires e.Begin? && Follows(d, mac, trace)
    ensures var now := Apply(After(d, mac, trace), mac, e);
            if e.key in now.sessions then SessionFollows(d, mac, trace + [e], e.key, now.sessions[e.key])
            else LastActive(d, mac, trace + [e], e.key).None? && LastLogin(d, mac, trace + [e], e.key).None?
  {
    GrownTrace(d, mac, trace, e, e.key);
    hide PrincipalAt, After, FindUser, LastIssue, LastLogin, LastActive;
    var before := After(d, mac, trace);
    if e.key in before.sessions && before.sessions[e.key].user.Some? {
      PrincipalStays(d, mac, trace, e, LastLogin(d, mac, trace, e.key).value);
    }
  }

  // One attempt: failures stay below the limit, the challenge stays or goes, and only success names a principal.
  lemma AttemptEffect(d: Dp, mac: Mac, s: Session, challenge: Octets16, auth: seq<u8>)
    requires s.failures < FAILURE_LIMIT
    ensures var (u, r) := Attempt(d, mac, s, challenge, auth);
            u.failures < FAILURE_LIMIT && u.lastSeen == s.lastSeen
            && (u.challenge.Some? ==> u.challenge == s.challenge)
            && (r.Err? ==> u.user == s.user && u.cpIdentity == s.cpIdentity)
            && (r.Ok? ==> u.user.Some? && u.cpIdentity.Some?)
  {
    hide FindUser, Proves;
  }

  // The principal of a login is what its attempt left in the session.
  lemma PrincipalIsTheSessions(d: Dp, mac: Mac, trace: seq<Event>, e: Event)
    requires e.LoginWith? && LogsIn(d, mac, trace, e, e.key)
    ensures var s := Apply(After(d, mac, trace), mac, e).sessions[e.key];
            s.user.Some? && s.cpIdentity.Some?
            && PrincipalAt(d, mac, trace + [e], |trace|) == Some((s.user.value, s.cpIdentity.value))
  {
    assert (trace + [e])[..|trace|] == trace && (trace + [e])[|trace|] == e;
    hide After, FindUser, Proves;
  }

  // A login attempt on a session: its failures stay below the limit, and success makes it the last login.
  lemma LoginFollows(d: Dp, mac: Mac, trace: seq<Event>, e: Event)
    requires e.LoginWith? && Follows(d, mac, trace)
    ensures var now := Apply(After(d, mac, trace), mac, e);
            if e.key in now.sessions then SessionFollows(d, mac, trace + [e], e.key, now.sessions[e.key])
            else LastActive(d, mac, trace + [e], e.key).None? && LastLogin(d, mac, trace + [e], e.key).None?
  {
    GrownTrace(d, mac, trace, e, e.key);
    hide After, Attempt, PrincipalAt, LastIssue, LastLogin, LastActive;
    var before := After(d, mac, trace);
    if e.key in before.sessions {
      var s := before.sessions[e.key];
      assert SessionFollows(d, mac, trace, e.key, s);
      AttemptEffect(before, mac, s.(lastSeen := e.now), e.challenge, e.auth);
      if LogsIn(d, mac, trace, e, e.key) {
        PrincipalIsTheSessions(d, mac, trace, e);
      } else if s.user.Some? {
        PrincipalStays(d, mac, trace, e, LastLogin(d, mac, trace, e.key).value);
      }
    }
  }

  lemma {:induction false} EveryTraceFollows(d: Dp, mac: Mac, trace: seq<Event>)
    ensures Follows(d, mac, trace)
  {
    if trace != [] {
      var front, e := trace[..|trace| - 1], trace[|trace| - 1];
      assert trace == front + [e];
      EveryTraceFollows(d, mac, front);
      forall key: Ipv4
        ensures var now := After(d, mac, trace);
                if key in now.sessions then SessionFollows(d, mac, trace, key, now.sessions[key])
                else LastActive(d, mac, trace, key).None? && LastLogin(d, mac, trace, key).None? {
        StepFollows(d, mac, front, e, key);
      }
    }
  }

  lemma LogoutFollows(d: Dp, mac: Mac, trace: seq<Event>, e: Event)
    requires e.LogoutOf?
    ensures var now := Apply(After(d, mac, trace), mac, e);
            e.key in now.sessions && SessionFollows(d, mac, trace + [e], e.key, now.sessions[e.key])
  {
    hide After;
    assert (trace + [e])[..|trace|] == trace;
  }

  lemma StepFollows(d: Dp, mac: Mac, trace: seq<Event>, e: Event, key: Ipv4)
    requires Follows(d, mac, trace)
    ensures var now := Apply(After(d, mac, trace), mac, e);
            if key in now.sessions then SessionFollows(d, mac, trace + [e], key, now.sessions[key])
            else LastActive(d, mac, trace + [e], key).None? && LastLogin(d, mac, trace + [e], key).None?
  {
    var before := After(d, mac, trace);
    if (e.Begin? || e.LoginWith? || e.LogoutOf? || e.TouchOf?) && e.key == key {
      hide After, LastActive, LastLogin, LastIssue;
      match e
      case Begin(_, _, _, _) => BeginFollows(d, mac, trace, e);
      case LoginWith(_, _, _, _) => LoginFollows(d, mac, trace, e);
      case LogoutOf(_, _) => LogoutFollows(d, mac, trace, e);
      case TouchOf(_, _) =>
        hide SessionFollows;
        if key in before.sessions {
          TouchFollows(d, mac, trace, e, before.sessions[key]);
        }
    } else {
      hide SessionFollows, After, Apply;
      OtherKeysUntouched(before, mac, e, key);
      QuietEvent(d, mac, trace, e, key);
      if key in before.sessions {
        QuietFollows(d, mac, trace, e, key, before.sessions[key]);
      }
    }
  }

  // ---- what a passed authorization means ----

  // The proof of a control point with an identifier: the first sixteen octets of the keyed hash over nonce, device
  // and control point.
  predicate Proved(mac: Mac, stored: Octets16, nonce: Octets16, deviceId: Octets16, cp: Identity, auth: seq<u8>) {
    (exists b :: b in cp.id && b != 0)
    && |auth| >= 16 && forall i :: 0 <= i < 16 ==> mac(stored, nonce + deviceId + cp.id)[i] == auth[i]
  }

  lemma ProvedIsProves(
    mac: Mac, stored: Octets16, nonce: Octets16, deviceId: Octets16, cp: Identity, auth: seq<u8>)
    ensures Proves(mac, stored, nonce, deviceId, auth)(cp) <==> Proved(mac, stored, nonce, deviceId, cp, auth)
  {
    NotZeroExactly(cp.id);
    if |auth| >= 16 {
      var digest := mac(stored, nonce + deviceId + cp.id);
      assert digest[..16] == auth[..16] <==> forall i :: 0 <= i < 16 ==> digest[..16][i] == auth[..16][i];
    }
  }

  lemma NotZeroExactly(id: Octets16)
    ensures id != ZERO_ID <==> exists b :: b in id && b != 0
  {
    if id != ZERO_ID {
      var i :| 0 <= i < 16 && id[i] != ZERO_ID[i];
      assert id[i] in id;
    }
  }

  // Admin has every right of Basic; any role has its own.
  predicate Suffices(r: string, n: string) { r == n || (r == "Admin" && n == "Basic") }

  lemma SufficesExactly(r: string, n: string)
    ensures RoleSatisfies(r, n) <==> Suffices(r, n)
  {}

  // A login that succeeds answers the last challenge issued to its key since the last logout, and its
  // authenticator verifies against that nonce and the secret stored for the challenge's user, for a control
  // point of the access list.
  lemma LoginAnswersLastChallenge(d: Dp, mac: Mac, front: seq<Event>, e: Event, key: Ipv4)
    requires LogsIn(d, mac, front, e, key)
    ensures var before := After(d, mac, front);
            var j := LastIssue(d, mac, front, key);
            j.Some? && j.value < |front| && front[j.value].Begin?
            && front[j.value].nonce == e.challenge
            && FindUser(before.users, front[j.value].name).Some?
            && (exists i :: i in before.acl
                  && Proved(mac, FindUser(before.users, front[j.value].name).value.stored, e.challenge, d.deviceId,
                            i, e.auth)
                  && PrincipalAt(d, mac, front + [e], |front|) == Some((front[j.value].name, i.id)))
  {
    EveryTraceFollows(d, mac, front);
    DeviceIdStays(d, mac, front);
    hide After, FindUser, Proved, LastIssue, LastActive, LastLogin;
    var before := After(d, mac, front);
    assert (front + [e])[..|front|] == front && (front + [e])[|front|] == e;
    var s := before.sessions[key];
    assert SessionFollows(d, mac, front, key, s);
    var u := FindUser(before.users, s.challenge.value.1).value;
    var k := FirstIndex(before.acl, Proves(mac, u.stored, e.challenge, before.deviceId, e.auth));
    assert before.acl[k] in before.acl;
    ProvedIsProves(mac, u.stored, e.challenge, d.deviceId, before.acl[k], e.auth);
  }

  lemma {:induction false} DeviceIdStays(d: Dp, mac: Mac, trace: seq<Event>)
    ensures After(d, mac, trace).deviceId == d.deviceId
  {
    if trace != [] {
      hide Apply;
      DeviceIdStays(d, mac, trace[..|trace| - 1]);
      ApplyKeepsDevice(After(d, mac, trace[..|trace| - 1]), mac, trace[|trace| - 1]);
    }
  }

  lemma ApplyKeepsDevice(d: Dp, mac: Mac, e: Event)
    ensures Apply(d, mac, e).deviceId == d.deviceId
  {
    hide AddIdentities, RemoveIdentity, FindUser, Attempt, CleanName, AddingRoles, RemovingRoles;
  }

  // The roles a key holds after a trace: none without a login since its last logout or past the idle limit,
  // else those its principal has in the records now.
  function RolesHeld(d: Dp, mac: Mac, trace: seq<Event>, key: Ipv4, now: u64): (r: set<string>) {
    var i := LastLogin(d, mac, trace, key);
    var seen := LastActive(d, mac, trace, key);
    if i.None? || seen.None? || now > seen.value + 1_800 then {}
    else if i.value >= |trace| || !trace[i.value].LoginWith? then {}
    else
      var p := PrincipalAt(d, mac, trace, i.value);
      if p.None? then {}
      else
        var records := After(d, mac, trace);
        (set r | r in UserRoles(records.users, p.value.0)) + (set r | r in IdentityRoles(records.acl, p.value.1))
  }

  lemma SessionRolesAreHeld(d: Dp, mac: Mac, trace: seq<Event>, key: Ipv4, now: u64)
    ensures (set r | r in SessionRoles(After(d, mac, trace), key, now)) == RolesHeld(d, mac, trace, key, now)
  {
    EveryTraceFollows(d, mac, trace);
    hide After, LastLogin, LastActive, LastIssue, PrincipalAt, UserRoles, IdentityRoles;
    var records := After(d, mac, trace);
    if key in records.sessions {
      assert SessionFollows(d, mac, trace, key, records.sessions[key]);
    }
  }

  // A role-gated action passes exactly when the key has logged in since its last logout, was active within
  // the idle limit, and its principal holds, in the records as they are now, a role that satisfies the need.
  lemma EnforceExactly(d: Dp, mac: Mac, trace: seq<Event>, key: Ipv4, needed: seq<string>, now: u64)
    ensures Enforce(After(d, mac, trace), key, Roles(needed), now).Ok? <==>
            exists r, n :: r in RolesHeld(d, mac, trace, key, now) && n in needed && Suffices(r, n)
    ensures Enforce(After(d, mac, trace), key, Roles(needed), now).Ok? ==>
              LastLogin(d, mac, trace, key).Some? && LastActive(d, mac, trace, key).Some?
              && now <= LastActive(d, mac, trace, key).value + 1_800
  {
    SessionRolesAreHeld(d, mac, trace, key, now);
    hide After, LastLogin, LastActive, PrincipalAt, SessionRoles, RoleSatisfies, Suffices;
    var roles := SessionRoles(After(d, mac, trace), key, now);
    forall r, n ensures RoleSatisfies(r, n) <==> Suffices(r, n) {
      SufficesExactly(r, n);
    }
    assert forall r :: r in roles <==> r in (set x | x in roles);
  }

  // The ladder over every trace: a need for Admin takes Admin, one for Basic takes either, any other need itself;
  // and a list of needs passes as soon as one of them does.
  lemma LadderExactly(d: Dp, mac: Mac, trace: seq<Event>, key: Ipv4, needed: seq<string>, n: string, now: u64)
    ensures var held, records := RolesHeld(d, mac, trace, key, now), After(d, mac, trace);
            (Enforce(records, key, Roles(["Admin"]), now).Ok? <==> "Admin" in held)
            && (Enforce(records, key, Roles(["Basic"]), now).Ok? <==> "Basic" in held || "Admin" in held)
            && (n != "Basic" ==> (Enforce(records, key, Roles([n]), now).Ok? <==> n in held))
            && (Enforce(records, key, Roles(needed), now).Ok? <==>
                exists m :: m in needed && Enforce(records, key, Roles([m]), now).Ok?)
            && Enforce(records, key, Public, now).Ok?
  {
    hide *;
    var held := RolesHeld(d, mac, trace, key, now);
    OneNeed(d, mac, trace, key, "Admin", now);
    OneNeed(d, mac, trace, key, "Basic", now);
    OneNeed(d, mac, trace, key, n, now);
    SomeNeed(d, mac, trace, key, needed, now);
    Ladder(held, n);
    PublicPasses(After(d, mac, trace), key, now);
  }

  lemma PublicPasses(records: Dp, key: Ipv4, now: u64)
    ensures Enforce(records, key, Public, now).Ok?
  {}

  lemma Ladder(held: set<string>, n: string)
    ensures (exists r :: r in held && Suffices(r, "Admin")) <==> "Admin" in held
    ensures (exists r :: r in held && Suffices(r, "Basic")) <==> "Basic" in held || "Admin" in held
    ensures n != "Basic" ==> ((exists r :: r in held && Suffices(r, n)) <==> n in held)
  {
    assert "Admin" != "Basic";
    assert Suffices("Admin", "Basic") && Suffices("Basic", "Basic") && Suffices("Admin", "Admin") && Suffices(n, n);
  }

  lemma OneNeed(d: Dp, mac: Mac, trace: seq<Event>, key: Ipv4, m: string, now: u64)
    ensures Enforce(After(d, mac, trace), key, Roles([m]), now).Ok? <==>
            exists r :: r in RolesHeld(d, mac, trace, key, now) && Suffices(r, m)
  {
    EnforceExactly(d, mac, trace, key, [m], now);
    hide After, RolesHeld, Suffices, Enforce;
    assert forall x :: x in [m] <==> x == m;
  }

  lemma SomeNeed(d: Dp, mac: Mac, trace: seq<Event>, key: Ipv4, needed: seq<string>, now: u64)
    ensures Enforce(After(d, mac, trace), key, Roles(needed), now).Ok? <==>
            exists m :: m in needed && Enforce(After(d, mac, trace), key, Roles([m]), now).Ok?
  {
    EnforceExactly(d, mac, trace, key, needed, now);
    hide After, RolesHeld, Suffices, Enforce;
    forall m ensures Enforce(After(d, mac, trace), key, Roles([m]), now).Ok? <==>
                     exists r :: r in RolesHeld(d, mac, trace, key, now) && Suffices(r, m)
    {
      OneNeed(d, mac, trace, key, m, now);
    }
  }

  // An event that shows the key's holder to be there.
  predicate ShowsActivity(d: Dp, mac: Mac, front: seq<Event>, e: Event, key: Ipv4) {
    Issues(d, mac, front, e, key) || ((e.LoginWith? || e.TouchOf?) && e.key == key)
  }

  lemma LoggedInIsActive(d: Dp, mac: Mac, trace: seq<Event>, key: Ipv4)
    ensures LastLogin(d, mac, trace, key).Some? ==> LastActive(d, mac, trace, key).Some?
    ensures forall e :: LogsIn(d, mac, trace, e, key) ==> LastActive(d, mac, trace, key).Some?
  {
    EveryTraceFollows(d, mac, trace);
    hide After, LastLogin, LastActive, LastIssue, PrincipalAt, Attempt;
    var now := After(d, mac, trace);
    if key in now.sessions {
      assert SessionFollows(d, mac, trace, key, now.sessions[key]);
    }
  }

  // The last activity of a key that is logged in is an event of the trace, at its last login or later.
  lemma {:induction false} ActivityInTrace(d: Dp, mac: Mac, trace: seq<Event>, key: Ipv4) returns (k: nat)
    requires LastLogin(d, mac, trace, key).Some?
    ensures LastLogin(d, mac, trace, key).value <= k < |trace|
    ensures ShowsActivity(d, mac, trace[..k], trace[k], key) && LastActive(d, mac, trace, key) == Some(trace[k].now)
    ensures forall m :: k < m < |trace| ==> !ShowsActivity(d, mac, trace[..m], trace[m], key)
  {
    LoginInTrace(d, mac, trace, key);
    hide After, Issues, Login;
    var n := |trace| - 1;
    var front, e := trace[..n], trace[n];
    LoggedInIsActive(d, mac, front, key);
    if ShowsActivity(d, mac, front, e, key) {
      k := n;
    } else {
      k := ActivityInTrace(d, mac, front, key);
      assert forall m :: 0 <= m < n ==> front[..m] == trace[..m] && front[m] == trace[m];
    }
  }

  // What stands behind a passed authorization: a login at i, the challenge at j that it answered, the control
  // point that proved itself, and the last activity at k.
  ghost predicate StandsBehind(
    d: Dp, mac: Mac, trace: seq<Event>, key: Ipv4, needed: seq<string>, now: u64, i: nat, j: nat, k: nat, cp: Identity)
  {
    j < i <= k < |trace|
    && LoginBehind(d, mac, trace, key, i)
    && ChallengeBehind(d, mac, trace, key, i, j)
    && ProofBehind(d, mac, trace, i, j, cp)
    && ShowsActivity(d, mac, trace[..k], trace[k], key) && now <= trace[k].now + 1_800
    && (forall m :: k < m < |trace| ==> !ShowsActivity(d, mac, trace[..m], trace[m], key))
    && RoleBehind(After(d, mac, trace), trace[j], cp, needed)
  }

  // The key logged in at i and has not logged out since.
  ghost predicate LoginBehind(d: Dp, mac: Mac, trace: seq<Event>, key: Ipv4, i: nat)
    requires i < |trace|
  {
    LogsIn(d, mac, trace[..i], trace[i], key)
    && forall m :: i < m < |trace| ==> !(trace[m].LogoutOf? && trace[m].key == key)
  }

  // At j the key was issued the nonce the login answers, and nothing newer nor a logout came between.
  ghost predicate ChallengeBehind(d: Dp, mac: Mac, trace: seq<Event>, key: Ipv4, i: nat, j: nat)
    requires j < i < |trace|
  {
    Issues(d, mac, trace[..j], trace[j], key) && trace[i].LoginWith? && trace[j].nonce == trace[i].challenge
    && forall m :: j < m < i ==>
         !Issues(d, mac, trace[..m], trace[m], key) && !(trace[m].LogoutOf? && trace[m].key == key)
  }

  // The authenticator verified, for an enrolled control point, under the secret then stored for that user.
  ghost predicate ProofBehind(d: Dp, mac: Mac, trace: seq<Event>, i: nat, j: nat, cp: Identity)
    requires j < i < |trace|
  {
    var before := After(d, mac, trace[..i]);
    trace[i].LoginWith? && trace[j].Begin? && cp in before.acl
    && FindUser(before.users, trace[j].name).Some?
    && Proved(mac, FindUser(before.users, trace[j].name).value.stored, trace[i].challenge, d.deviceId, cp,
              trace[i].auth)
  }

  // The user or the control point has, in the records as they are, a role that satisfies the need.
  ghost predicate RoleBehind(records: Dp, begun: Event, cp: Identity, needed: seq<string>) {
    begun.Begin?
    && exists r, n :: (r in UserRoles(records.users, begun.name) || r in IdentityRoles(records.acl, cp.id))
         && n in needed && Suffices(r, n)
  }

  // In every trace, a role-gated action passes only if all of this stands behind it.
  lemma EnforceMeansLogin(d: Dp, mac: Mac, trace: seq<Event>, key: Ipv4, needed: seq<string>, now: u64)
    requires Enforce(After(d, mac, trace), key, Roles(needed), now).Ok?
    ensures exists i, j, k, cp :: StandsBehind(d, mac, trace, key, needed, now, i, j, k, cp)
  {
    hide After, LogsIn, ShowsActivity, ChallengeBehind, ProofBehind, RoleBehind, Issues, Enforce, Suffices;
    EnforceExactly(d, mac, trace, key, needed, now);
    var i := LastLogin(d, mac, trace, key).value;
    var k := ActivityInTrace(d, mac, trace, key);
    var r, n :| r in RolesHeld(d, mac, trace, key, now) && n in needed && Suffices(r, n);
    hide LastLogin, LastActive, RolesHeld;
    LoginInTrace(d, mac, trace, key);
    var j, cp := LoginStands(d, mac, trace, key, i);
    RolesOfPrincipal(d, mac, trace, key, now, trace[j], cp, needed, r, n);
    assert StandsBehind(d, mac, trace, key, needed, now, i, j, k, cp);
  }

  // Behind a login at i: the challenge it answered and the control point it names as principal.
  lemma LoginStands(d: Dp, mac: Mac, trace: seq<Event>, key: Ipv4, i: nat) returns (j: nat, cp: Identity)
    requires i < |trace| && LogsIn(d, mac, trace[..i], trace[i], key)
    ensures j < i && ChallengeBehind(d, mac, trace, key, i, j) && ProofBehind(d, mac, trace, i, j, cp)
    ensures trace[j].Begin? && trace[i].LoginWith? && PrincipalAt(d, mac, trace, i) == Some((trace[j].name, cp.id))
  {
    var front, e := trace[..i], trace[i];
    LoginAnswersLastChallenge(d, mac, front, e, key);
    IssueInTrace(d, mac, front, key);
    hide After, FindUser, Proved, LastIssue, Login;
    j := LastIssue(d, mac, front, key).value;
    var before := After(d, mac, front);
    cp :| cp in before.acl
          && Proved(mac, FindUser(before.users, front[j].name).value.stored, e.challenge, d.deviceId, cp, e.auth)
          && PrincipalAt(d, mac, front + [e], |front|) == Some((front[j].name, cp.id));
    PrincipalByPrefix(d, mac, trace, i);
    hide PrincipalAt;
    assert forall m :: 0 <= m < i ==> front[..m] == trace[..m] && front[m] == trace[m];
  }

  lemma PrincipalByPrefix(d: Dp, mac: Mac, trace: seq<Event>, i: nat)
    requires i < |trace| && trace[i].LoginWith?
    ensures PrincipalAt(d, mac, trace[..i] + [trace[i]], i) == PrincipalAt(d, mac, trace, i)
  {
    assert (trace[..i] + [trace[i]])[..i] == trace[..i];
  }

  lemma RolesOfPrincipal(
    d: Dp, mac: Mac, trace: seq<Event>, key: Ipv4, now: u64, begun: Event, cp: Identity, needed: seq<string>,
    r: string, n: string)
    requires r in RolesHeld(d, mac, trace, key, now) && n in needed && Suffices(r, n) && begun.Begin?
    requires var i := LastLogin(d, mac, trace, key);
             i.Some? && i.value < |trace| && trace[i.value].LoginWith?
             && PrincipalAt(d, mac, trace, i.value) == Some((begun.name, cp.id))
    ensures RoleBehind(After(d, mac, trace), begun, cp, needed)
  {
    hide After, LastLogin, LastActive, PrincipalAt, UserRoles, IdentityRoles, Suffices;
  }

  // In every trace a session's failures stay below the limit, so an attempt never finds them at it.
  lemma FailuresStayBelowLimit(d: Dp, mac: Mac, trace: seq<Event>, key: Ipv4)
    ensures key in After(d, mac, trace).sessions ==> After(d, mac, trace).sessions[key].failures < FAILURE_LIMIT
  {
    EveryTraceFollows(d, mac, trace);
  }

  // ---- the access list stays keyed ----

  predicate ApartIdentities(a: Identity, b: Identity) {
    a.name != b.name && (a.id != ZERO_ID ==> a.id != b.id)
  }

  // Names are distinct, and so are the identifiers of the control points.
  ghost predicate AclKeyed(acl: seq<Identity>) {
    forall i, j :: 0 <= i < j < |acl| ==> ApartIdentities(acl[i], acl[j])
  }

  lemma {:induction false} AddKeepsKeyed(acl: seq<Identity>, incoming: seq<Identity>)
    requires AclKeyed(acl)
    ensures AclKeyed(AddIdentities(acl, incoming).0)
    ensures AddIdentities(acl, incoming).0 == acl + AddIdentities(acl, incoming).1
  {
    if incoming != [] {
      hide Cleaned;
      AddKeepsKeyed(acl, incoming[..|incoming| - 1]);
    }
  }

  lemma ApplyKeepsKeyed(d: Dp, mac: Mac, e: Event)
    requires AclKeyed(d.acl)
    ensures AclKeyed(Apply(d, mac, e).acl)
  {
    hide FindUser, Attempt, CleanName, AddMissing;
    match e
    case Enrol(incoming) => AddKeepsKeyed(d.acl, incoming);
    case Expel(name) => FilterKeepsPairs(d.acl, Not(IdentityNamed(name)),
      (a: Identity, b: Identity) => ApartIdentities(a, b));
    case GrantRoles(name, roles) => EditKeepsKeyed(d, name, AddingRoles(roles));
    case RevokeRoles(name, roles) => EditKeepsKeyed(d, name, RemovingRoles(roles));
    case _ =>
  }

  lemma EditKeepsKeyed(d: Dp, name: string, edit: seq<string> -> seq<string>)
    requires AclKeyed(d.acl)
    ensures AclKeyed(EditRoles(d, name, edit).0.acl)
  {}

  // In every trace from a keyed list, a control point's identifier and a name each find one identity.
  lemma {:induction false} EveryTraceStaysKeyed(d: Dp, mac: Mac, trace: seq<Event>)
    requires AclKeyed(d.acl)
    ensures AclKeyed(After(d, mac, trace).acl)
  {
    if trace != [] {
      hide Apply;
      EveryTraceStaysKeyed(d, mac, trace[..|trace| - 1]);
      ApplyKeepsKeyed(After(d, mac, trace[..|trace| - 1]), mac, trace[|trace| - 1]);
    }
  }
}
