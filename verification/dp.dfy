// DeviceProtection: login sessions, the access list, and the authorization they give.
//
// The keyed hash is a parameter: nothing here depends on which one it is.
module DeviceProtection {
  import opened Net
  import opened Seqs

  type Octets16 = s: seq<u8> | |s| == 16 witness seq(16, i => 0)
  type Digest = s: seq<u8> | |s| == 32 witness seq(32, i => 0)
  type Mac = (seq<u8>, seq<u8>) -> Digest

  const SESSION_TTL: u64 := 1800
  const FAILURE_LIMIT: nat := 5
  const ZERO_ID: Octets16 := [0, 0, 0, 0, 0, 0, 0, 0, 0, 0, 0, 0, 0, 0, 0, 0]

  datatype User = User(name: string, salt: Octets16, stored: Octets16, roles: seq<string>)

  datatype Identity = Identity(name: string, alias: Option<string>, id: Octets16, roles: seq<string>)

  // One control point's session. A challenge is kept with the user name it was issued for.
  datatype Session = Session(
    challenge: Option<(Octets16, string)>, user: Option<string>, cpIdentity: Option<Octets16>,
    failures: nat, lastSeen: u64)

  datatype Dp = Dp(deviceId: Octets16, users: seq<User>, acl: seq<Identity>, sessions: map<Ipv4, Session>)

  datatype DpErr = InvalidValue | NotAuthorized | AuthFailure

  datatype Authz = Public | Roles(needed: seq<string>)

  function NoSession(now: u64): Session { Session(None, None, None, 0, now) }

  function Named(name: string): User -> bool { (u: User) => u.name == name }

  function IdentityNamed(name: string): Identity -> bool { (i: Identity) => i.name == name }

  function HasId(id: Octets16): Identity -> bool { (i: Identity) => i.id == id }

  function FindUser(users: seq<User>, name: string): Option<User> {
    var i := FirstIndex(users, Named(name));
    if i < |users| then Some(users[i]) else None
  }

  // ---- authorization ----

  function RoleLevel(role: string): Option<nat> {
    if role == "Basic" then Some(0) else if role == "Admin" then Some(1) else None
  }

  // A higher role satisfies a lower requirement; a role outside the ladder only itself.
  predicate RoleSatisfies(r: string, n: string) {
    if RoleLevel(r).Some? && RoleLevel(n).Some? then RoleLevel(r).value >= RoleLevel(n).value else r == n
  }

  predicate Authorize(roles: seq<string>, required: Authz) {
    required.Public? || exists r, n :: r in roles && n in required.needed && RoleSatisfies(r, n)
  }

  function AddMissing(roles: seq<string>, more: seq<string>): (r: seq<string>)
    ensures forall x :: x in r <==> x in roles || x in more
  {
    if more == [] then roles
    else
      var rest := AddMissing(roles, more[..|more| - 1]);
      var x := more[|more| - 1];
      assert more == more[..|more| - 1] + [x];
      if x in rest then rest else rest + [x]
  }

  function UserRoles(users: seq<User>, name: string): seq<string> {
    var u := FindUser(users, name);
    if u.Some? then u.value.roles else []
  }

  function IdentityRoles(acl: seq<Identity>, id: Octets16): seq<string> {
    var i := FirstIndex(acl, HasId(id));
    if i < |acl| then acl[i].roles else []
  }

  // A live session's roles, read from the records as they are now.
  function SessionRoles(d: Dp, key: Ipv4, now: u64): seq<string> {
    if key !in d.sessions then []
    else
      var s := d.sessions[key];
      if s.user.None? || SatSub(now, s.lastSeen) > SESSION_TTL then []
      else
        var roles := UserRoles(d.users, s.user.value);
        if s.cpIdentity.None? then roles else AddMissing(roles, IdentityRoles(d.acl, s.cpIdentity.value))
  }

  function Enforce(d: Dp, key: Ipv4, required: Authz, now: u64): Result<(), DpErr> {
    if required.Public? || Authorize(SessionRoles(d, key, now), required) then Ok(()) else Err(NotAuthorized)
  }

  // ---- login ----

  // The first sixteen octets of the keyed hash over challenge, device and control point.
  predicate Verified(
    mac: Mac, stored: Octets16, challenge: Octets16, deviceId: Octets16, cpId: Octets16, auth: seq<u8>)
  {
    |auth| >= 16 && mac(stored, challenge + deviceId + cpId)[..16] == auth[..16]
  }

  // An identity without a control point identifier is never matched.
  function Proves(
    mac: Mac, stored: Octets16, challenge: Octets16, deviceId: Octets16, auth: seq<u8>): Identity -> bool
  {
    (i: Identity) => i.id != ZERO_ID && Verified(mac, stored, challenge, deviceId, i.id, auth)
  }

  function BeginLogin(
    d: Dp, key: Ipv4, name: string, nonce: Octets16, now: u64): (Dp, Result<(Octets16, Octets16), DpErr>)
  {
    var u := FindUser(d.users, name);
    if u.None? then (d, Err(InvalidValue))
    else
      var s := if key in d.sessions then d.sessions[key] else NoSession(now);
      (d.(sessions := d.sessions[key := s.(challenge := Some((nonce, name)), failures := 0, lastSeen := now)]),
       Ok((u.value.salt, nonce)))
  }

  // A failed attempt counts, and the last allowed one frees the challenge.
  function Failed(s: Session): Session {
    if s.failures + 1 >= FAILURE_LIMIT then s.(challenge := None, failures := 0) else s.(failures := s.failures + 1)
  }

  function Attempt(d: Dp, mac: Mac, s: Session, challenge: Octets16, auth: seq<u8>): (Session, Result<(), DpErr>) {
    if s.challenge.None? || s.challenge.value.0 != challenge then (s, Err(InvalidValue))
    else if s.failures >= FAILURE_LIMIT then (s.(challenge := None, failures := 0), Err(InvalidValue))
    else
      var u := FindUser(d.users, s.challenge.value.1);
      if u.None? then (s.(challenge := None), Err(InvalidValue))
      else
        var i := FirstIndex(d.acl, Proves(mac, u.value.stored, challenge, d.deviceId, auth));
        if i == |d.acl| then (Failed(s), Err(AuthFailure))
        else (s.(user := Some(s.challenge.value.1), cpIdentity := Some(d.acl[i].id), failures := 0), Ok(()))
  }

  // Every attempt on a known session, successful or not, is activity.
  function Login(d: Dp, mac: Mac, key: Ipv4, challenge: Octets16, auth: seq<u8>, now: u64): (Dp, Result<(), DpErr>) {
    if key !in d.sessions then (d, Err(InvalidValue))
    else
      var (s, r) := Attempt(d, mac, d.sessions[key].(lastSeen := now), challenge, auth);
      (d.(sessions := d.sessions[key := s]), r)
  }

  function Logout(d: Dp, key: Ipv4, now: u64): Dp { d.(sessions := d.sessions[key := NoSession(now)]) }

  function Touch(d: Dp, key: Ipv4, now: u64): Dp {
    if key in d.sessions then d.(sessions := d.sessions[key := d.sessions[key].(lastSeen := now)]) else d
  }

  // ---- edits of the records ----

  predicate IsControl(c: char) { c < ' ' || '\U{7f}' <= c <= '\U{9f}' }

  function CleanName(s: string): string { Filter(s, (c: char) => !IsControl(c)) }

  function Cleaned(i: Identity): Identity {
    i.(name := CleanName(i.name), alias := if i.alias.Some? then Some(CleanName(i.alias.value)) else None)
  }

  // An identity is present already under its identifier or its name.
  predicate Present(acl: seq<Identity>, i: Identity) {
    exists x :: x in acl && ((i.id != ZERO_ID && x.id == i.id) || x.name == i.name)
  }

  function AddIdentities(acl: seq<Identity>, incoming: seq<Identity>): (seq<Identity>, seq<Identity>) {
    if incoming == [] then (acl, [])
    else
      var (a, added) := AddIdentities(acl, incoming[..|incoming| - 1]);
      var i := Cleaned(incoming[|incoming| - 1]);
      if Present(a, i) then (a, added) else (a + [i], added + [i])
  }

  function RemoveIdentity(acl: seq<Identity>, name: string): seq<Identity> { Filter(acl, Not(IdentityNamed(name))) }

  // A known name's record is rewritten; a name of the access list, or any name once some control point is
  // enrolled, gets a new one.
  function SetPassword(d: Dp, name: string, stored: Octets16, salt: Octets16): (Dp, bool) {
    var n := CleanName(name);
    var i := FirstIndex(d.users, Named(n));
    if i < |d.users| then (d.(users := d.users[i := d.users[i].(stored := stored, salt := salt)]), true)
    else if exists x :: x in d.acl && (x.name == n || x.id != ZERO_ID)
    then (d.(users := d.users + [User(n, salt, stored, [])]), true)
    else (d, false)
  }

  function RemoveRolesFrom(roles: seq<string>, gone: seq<string>): seq<string> {
    Filter(roles, (r: string) => r !in gone)
  }

  // Role edits go to the user of that name, else to the identity of that name.
  function EditRoles(d: Dp, name: string, edit: seq<string> -> seq<string>): (Dp, bool) {
    var i, j := FirstIndex(d.users, Named(name)), FirstIndex(d.acl, IdentityNamed(name));
    if i < |d.users| then (d.(users := d.users[i := d.users[i].(roles := edit(d.users[i].roles))]), true)
    else if j < |d.acl| then (d.(acl := d.acl[j := d.acl[j].(roles := edit(d.acl[j].roles))]), true)
    else (d, false)
  }

  function AddingRoles(more: seq<string>): seq<string> -> seq<string> {
    (roles: seq<string>) => AddMissing(roles, more)
  }

  function RemovingRoles(gone: seq<string>): seq<string> -> seq<string> {
    (roles: seq<string>) => RemoveRolesFrom(roles, gone)
  }

  // ---- the service as the program holds it ----

  class DpState {
    const mac: Mac
    const deviceId: Octets16
    var users: seq<User>
    var acl: seq<Identity>
    var sessions: map<Ipv4, Session>

    ghost function View(): Dp
      reads this
    {
      Dp(deviceId, users, acl, sessions)
    }

    constructor (mac: Mac, deviceId: Octets16, users: seq<User>, acl: seq<Identity>)
      ensures this.mac == mac && View() == Dp(deviceId, users, acl, map[])
    {
      this.mac, this.deviceId, this.users, this.acl := mac, deviceId, users, acl;
      sessions := map[];
    }

    method BeginUserLogin(
      key: Ipv4, name: string, nonce: Octets16, now: u64) returns (r: Result<(Octets16, Octets16), DpErr>)
      modifies this`sessions
      ensures (View(), r) == BeginLogin(old(View()), key, name, nonce, now)
    {
      var i := FirstIndex(users, Named(name));
      if i == |users| {
        return Err(InvalidValue);
      }
      if key !in sessions {
        sessions := sessions[key := NoSession(now)];
      }
      var session := sessions[key];
      session := session.(challenge := Some((nonce, name)));
      session := session.(failures := 0);
      session := session.(lastSeen := now);
      sessions := sessions[key := session];
      assert sessions == old(sessions)[key := session];
      return Ok((users[i].salt, nonce));
    }

    // The first enrolled control point whose authenticator verifies.
    method MatchIdentity(stored: Octets16, challenge: Octets16, auth: seq<u8>) returns (matched: Option<Octets16>)
      ensures var i := FirstIndex(acl, Proves(mac, stored, challenge, deviceId, auth));
              matched == if i < |acl| then Some(acl[i].id) else None
    {
      var proves := Proves(mac, stored, challenge, deviceId, auth);
      var k := 0;
      while k < |acl|
        invariant k <= |acl| && forall j :: 0 <= j < k ==> !proves(acl[j])
      {
        if acl[k].id != ZERO_ID && Verified(mac, stored, challenge, deviceId, acl[k].id, auth) {
          assert proves(acl[k]);
          return Some(acl[k].id);
        }
        k := k + 1;
      }
      return None;
    }

    method UserLogin(key: Ipv4, challenge: Octets16, auth: seq<u8>, now: u64) returns (r: Result<(), DpErr>)
      modifies this`sessions
      ensures (View(), r) == Login(old(View()), mac, key, challenge, auth, now)
    {
      hide Verified;
      if key !in sessions {
        return Err(InvalidValue);
      }
      var s := sessions[key].(lastSeen := now);
      if s.challenge.None? || s.challenge.value.0 != challenge {
        sessions := sessions[key := s];
        return Err(InvalidValue);
      }
      if s.failures >= FAILURE_LIMIT {
        sessions := sessions[key := s.(challenge := None, failures := 0)];
        return Err(InvalidValue);
      }
      var i := FirstIndex(users, Named(s.challenge.value.1));
      if i == |users| {
        sessions := sessions[key := s.(challenge := None)];
        return Err(InvalidValue);
      }
      var matched := MatchIdentity(users[i].stored, challenge, auth);
      if matched.None? {
        var failures := s.failures + 1;
        s := s.(failures := failures);
        if failures >= FAILURE_LIMIT {
          s := s.(challenge := None, failures := 0);
        }
        sessions := sessions[key := s];
        return Err(AuthFailure);
      }
      sessions := sessions[key := s.(user := Some(s.challenge.value.1), cpIdentity := matched, failures := 0)];
      return Ok(());
    }

    method UserLogout(key: Ipv4, now: u64)
      modifies this`sessions
      ensures View() == Logout(old(View()), key, now)
    {
      sessions := sessions[key := Session(None, None, None, 0, now)];
    }

    method TouchSession(key: Ipv4, now: u64)
      modifies this`sessions
      ensures View() == Touch(old(View()), key, now)
    {
      if key in sessions {
        sessions := sessions[key := sessions[key].(lastSeen := now)];
      }
    }

    method AddIdentityList(incoming: seq<Identity>) returns (added: seq<Identity>)
      modifies this`acl
      ensures (acl, added) == AddIdentities(old(acl), incoming)
    {
      added := [];
      var k := 0;
      while k < |incoming|
        invariant k <= |incoming|
        invariant (acl, added) == AddIdentities(old(acl), incoming[..k])
      {
        assert incoming[..k + 1][..k] == incoming[..k];
        var i := Cleaned(incoming[k]);
        if !Present(acl, i) {
          acl := acl + [i];
          added := added + [i];
        }
        k := k + 1;
      }
      assert incoming[..k] == incoming;
    }

    method RemoveIdentityNamed(name: string) returns (removed: bool)
      modifies this`acl
      ensures acl == RemoveIdentity(old(acl), name)
      ensures removed == (|acl| != |old(acl)|)
    {
      var before := |acl|;
      acl := Filter(acl, Not(IdentityNamed(name)));
      return |acl| != before;
    }

    method SetUserLoginPassword(name: string, stored: Octets16, salt: Octets16) returns (ok: bool)
      modifies this`users
      ensures (View(), ok) == SetPassword(old(View()), name, stored, salt)
    {
      var n := CleanName(name);
      var i := FirstIndex(users, Named(n));
      if i < |users| {
        users := users[i := users[i].(stored := stored, salt := salt)];
        return true;
      }
      if exists x :: x in acl && (x.name == n || x.id != ZERO_ID) {
        users := users + [User(n, salt, stored, [])];
        return true;
      }
      return false;
    }

    method AddRolesForIdentity(name: string, roles: seq<string>) returns (ok: bool)
      modifies this`users, this`acl
      ensures (View(), ok) == EditRoles(old(View()), name, AddingRoles(roles))
    {
      var i, j := FirstIndex(users, Named(name)), FirstIndex(acl, IdentityNamed(name));
      if i < |users| {
        users := users[i := users[i].(roles := AddMissing(users[i].roles, roles))];
      } else if j < |acl| {
        acl := acl[j := acl[j].(roles := AddMissing(acl[j].roles, roles))];
      }
      return i < |users| || j < |acl|;
    }

    method RemoveRolesForIdentity(name: string, roles: seq<string>) returns (ok: bool)
      modifies this`users, this`acl
      ensures (View(), ok) == EditRoles(old(View()), name, RemovingRoles(roles))
    {
      var i, j := FirstIndex(users, Named(name)), FirstIndex(acl, IdentityNamed(name));
      if i < |users| {
        users := users[i := users[i].(roles := RemoveRolesFrom(users[i].roles, roles))];
      } else if j < |acl| {
        acl := acl[j := acl[j].(roles := RemoveRolesFrom(acl[j].roles, roles))];
      }
      return i < |users| || j < |acl|;
    }
  }
}
