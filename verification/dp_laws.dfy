// Single DeviceProtection actions spelled out: when a login succeeds and what the edits of the records do.
module DeviceProtectionLaws {
  import opened Net
  import opened Seqs
  import opened DeviceProtection
  import opened DeviceProtectionRuns

  // ---- login ----

  // A login succeeds exactly when the key's pending challenge is the one answered, less than five attempts on it have
  // failed, its user is on record, and the authenticator proves some enrolled control point under that secret.
  lemma LoginExactly(d: Dp, mac: Mac, key: Ipv4, nonce: Octets16, auth: seq<u8>, now: u64)
    ensures Login(d, mac, key, nonce, auth, now).1.Ok? <==>
            key in d.sessions && d.sessions[key].failures < 5
            && exists name :: d.sessions[key].challenge == Some((nonce, name))
                 && FindUser(d.users, name).Some?
                 && exists cp :: cp in d.acl
                      && Proved(mac, FindUser(d.users, name).value.stored, nonce, d.deviceId, cp, auth)
  {
    hide FindUser, Proved;
    if key in d.sessions && d.sessions[key].challenge.Some? {
      var name := d.sessions[key].challenge.value.1;
      if FindUser(d.users, name).Some? {
        AnyProves(d, mac, FindUser(d.users, name).value.stored, nonce, auth);
      }
    }
  }

  lemma AnyProves(d: Dp, mac: Mac, stored: Octets16, nonce: Octets16, auth: seq<u8>)
    ensures FirstIndex(d.acl, Proves(mac, stored, nonce, d.deviceId, auth)) < |d.acl| <==>
            exists cp :: cp in d.acl && Proved(mac, stored, nonce, d.deviceId, cp, auth)
  {
    var p := Proves(mac, stored, nonce, d.deviceId, auth);
    forall k | 0 <= k < |d.acl| ensures p(d.acl[k]) <==> Proved(mac, stored, nonce, d.deviceId, d.acl[k], auth) {
      ProvedIsProves(mac, stored, nonce, d.deviceId, d.acl[k], auth);
    }
    hide Proves, Proved;
    var i := FirstIndex(d.acl, p);
    if i < |d.acl| {
      assert d.acl[i] in d.acl;
    }
    if exists cp :: cp in d.acl && Proved(mac, stored, nonce, d.deviceId, cp, auth) {
      var cp :| cp in d.acl && Proved(mac, stored, nonce, d.deviceId, cp, auth);
      var k :| 0 <= k < |d.acl| && d.acl[k] == cp;
    }
  }

  // A wrong answer to the pending challenge counts; the fifth takes the challenge away, and a new one is needed.
  lemma WrongAnswersExactly(d: Dp, mac: Mac, key: Ipv4, nonce: Octets16, auth: seq<u8>, now: u64)
    requires Login(d, mac, key, nonce, auth, now).1 == Err(AuthFailure)
    ensures var before, after := d.sessions[key], Login(d, mac, key, nonce, auth, now).0.sessions[key];
            (before.failures < 4 ==> after.failures == before.failures + 1 && after.challenge == before.challenge)
            && (before.failures == 4 ==> after.failures == 0 && after.challenge == None)
            && after.user == before.user && after.cpIdentity == before.cpIdentity && after.lastSeen == now
  {
    hide FindUser, Proves;
  }

  // The answer of wrongs[i], after the ones before it, is wrong for the challenge.
  ghost predicate WrongInTurn(
    d: Dp, mac: Mac, begun: seq<Event>, wrongs: seq<Event>, i: int, key: Ipv4, nonce: Octets16)
    requires 0 <= i < |wrongs|
  {
    var e := wrongs[i];
    e.LoginWith? && e.key == key && e.challenge == nonce
    && Login(After(d, mac, begun + wrongs[..i]), mac, key, nonce, e.auth, e.now).1 == Err(AuthFailure)
  }

  // Over any trace: a challenge just issued outlives four wrong answers in a row, and falls with the fifth.
  lemma {:induction false} FifthWrongAnswerEnds(
    d: Dp, mac: Mac, trace: seq<Event>, e: Event, key: Ipv4, wrongs: seq<Event>)
    requires Issues(d, mac, trace, e, key) && |wrongs| <= 5
    requires forall i :: 0 <= i < |wrongs| ==> WrongInTurn(d, mac, trace + [e], wrongs, i, key, e.nonce)
    ensures key in After(d, mac, trace + [e] + wrongs).sessions
    ensures var s := After(d, mac, trace + [e] + wrongs).sessions[key];
            if |wrongs| < 5 then s.challenge == Some((e.nonce, e.name)) && s.failures == |wrongs|
            else s.challenge == None && s.failures == 0
  {
    var begun := trace + [e];
    if wrongs == [] {
      assert begun + wrongs == begun;
      AfterOneMore(d, mac, trace, e);
      hide FindUser, After;
    } else {
      hide Login, Issues, After, Apply;
      var front, w := wrongs[..|wrongs| - 1], wrongs[|wrongs| - 1];
      FewerWrongs(d, mac, begun, wrongs, key, e.nonce);
      FifthWrongAnswerEnds(d, mac, trace, e, key, front);
      assert begun + wrongs == begun + front + [w];
      hide WrongInTurn;
      AfterOneMore(d, mac, begun + front, w);
      WrongCounts(After(d, mac, begun + front), mac, w, key, e.nonce);
    }
  }

  lemma FewerWrongs(d: Dp, mac: Mac, begun: seq<Event>, wrongs: seq<Event>, key: Ipv4, nonce: Octets16)
    requires wrongs != [] && forall i :: 0 <= i < |wrongs| ==> WrongInTurn(d, mac, begun, wrongs, i, key, nonce)
    ensures var front, w := wrongs[..|wrongs| - 1], wrongs[|wrongs| - 1];
            (forall i :: 0 <= i < |front| ==> WrongInTurn(d, mac, begun, front, i, key, nonce))
            && w.LoginWith? && w.key == key && w.challenge == nonce
            && Login(After(d, mac, begun + front), mac, key, nonce, w.auth, w.now).1 == Err(AuthFailure)
  {
    hide Login, After;
    var front := wrongs[..|wrongs| - 1];
    forall i | 0 <= i < |front| ensures WrongInTurn(d, mac, begun, front, i, key, nonce) {
      assert WrongInTurn(d, mac, begun, wrongs, i, key, nonce) && front[..i] == wrongs[..i];
    }
    assert WrongInTurn(d, mac, begun, wrongs, |front|, key, nonce);
  }

  lemma AfterOneMore(d: Dp, mac: Mac, trace: seq<Event>, e: Event)
    ensures After(d, mac, trace + [e]) == Apply(After(d, mac, trace), mac, e)
  {
    hide Apply;
    assert (trace + [e])[..|trace|] == trace;
  }

  lemma WrongCounts(d: Dp, mac: Mac, w: Event, key: Ipv4, nonce: Octets16)
    requires w.LoginWith? && w.key == key && w.challenge == nonce
    requires Login(d, mac, key, nonce, w.auth, w.now).1 == Err(AuthFailure)
    ensures key in d.sessions && key in Apply(d, mac, w).sessions
    ensures var s, after := d.sessions[key], Apply(d, mac, w).sessions[key];
            (s.failures < 4 ==> after.failures == s.failures + 1 && after.challenge == s.challenge)
            && (s.failures == 4 ==> after.failures == 0 && after.challenge == None)
  {
    WrongAnswersExactly(d, mac, key, nonce, w.auth, w.now);
    WrongStays(d, mac, key, nonce, w.auth, w.now);
    hide Login;
  }

  lemma WrongStays(d: Dp, mac: Mac, key: Ipv4, nonce: Octets16, auth: seq<u8>, now: u64)
    requires Login(d, mac, key, nonce, auth, now).1 == Err(AuthFailure)
    ensures key in d.sessions && key in Login(d, mac, key, nonce, auth, now).0.sessions
  {
    hide Attempt;
  }

  // ---- edits of the records ----

  // What a user's and a control point's roles become when roles are granted to a name.
  lemma GrantedRolesExactly(d: Dp, mac: Mac, name: string, roles: seq<string>, who: string, id: Octets16, r: string)
    requires AclKeyed(d.acl) && id != ZERO_ID
    ensures var u := Apply(d, mac, GrantRoles(name, roles));
            var isUser := FindUser(d.users, name).Some?;
            (r in UserRoles(u.users, who) <==>
             r in UserRoles(d.users, who) || (isUser && who == name && r in roles))
            && (r in IdentityRoles(u.acl, id) <==>
                r in IdentityRoles(d.acl, id)
                || (!isUser && r in roles && exists x :: x in d.acl && x.id == id && x.name == name))
  {
    EditReaches(d, name, AddingRoles(roles), who, id);
  }

  lemma RevokedRolesExactly(d: Dp, mac: Mac, name: string, roles: seq<string>, who: string, id: Octets16, r: string)
    requires AclKeyed(d.acl) && id != ZERO_ID
    ensures var u := Apply(d, mac, RevokeRoles(name, roles));
            var isUser := FindUser(d.users, name).Some?;
            (r in UserRoles(u.users, who) <==>
             r in UserRoles(d.users, who) && !(isUser && who == name && r in roles))
            && (r in IdentityRoles(u.acl, id) <==>
                r in IdentityRoles(d.acl, id)
                && !(!isUser && r in roles && exists x :: x in d.acl && x.id == id && x.name == name))
  {
    EditReaches(d, name, RemovingRoles(roles), who, id);
  }

  // An edit reaches the user of the name, else the identity of the name, and nobody else.
  lemma EditReaches(d: Dp, name: string, edit: seq<string> -> seq<string>, who: string, id: Octets16)
    requires AclKeyed(d.acl) && id != ZERO_ID
    ensures var u, isUser := EditRoles(d, name, edit).0, FindUser(d.users, name).Some?;
            UserRoles(u.users, who) ==
              (if isUser && who == name then edit(UserRoles(d.users, who)) else UserRoles(d.users, who))
            && IdentityRoles(u.acl, id) ==
              (if !isUser && exists x :: x in d.acl && x.id == id && x.name == name
               then edit(IdentityRoles(d.acl, id)) else IdentityRoles(d.acl, id))
  {
    var i, j := FirstIndex(d.users, Named(name)), FirstIndex(d.acl, IdentityNamed(name));
    if i < |d.users| {
      UserAfterUpdate(d.users, i, d.users[i].(roles := edit(d.users[i].roles)), who);
    } else {
      IdentityByName(d.acl, name, id);
      if j < |d.acl| {
        IdentityAfterUpdate(d.acl, j, d.acl[j].(roles := edit(d.acl[j].roles)), id);
      }
    }
  }

  lemma UserAfterUpdate(users: seq<User>, i: nat, u: User, who: string)
    requires i < |users| && u.name == users[i].name && i == FirstIndex(users, Named(u.name))
    ensures FindUser(users[i := u], who) == if who == u.name then Some(u) else FindUser(users, who)
  {
    var after := users[i := u];
    assert forall k :: 0 <= k < |users| ==> Named(who)(after[k]) == Named(who)(users[k]);
    var a, b := FirstIndex(after, Named(who)), FirstIndex(users, Named(who));
    assert a < |after| ==> Named(who)(users[a]);
    assert b < |users| ==> Named(who)(after[b]);
  }

  lemma IdentityByName(acl: seq<Identity>, name: string, id: Octets16)
    requires AclKeyed(acl) && id != ZERO_ID
    ensures var i, j := FirstIndex(acl, HasId(id)), FirstIndex(acl, IdentityNamed(name));
            (exists x :: x in acl && x.id == id && x.name == name) <==> i == j < |acl|
  {
    var i, j := FirstIndex(acl, HasId(id)), FirstIndex(acl, IdentityNamed(name));
    if x :| x in acl && x.id == id && x.name == name {
      var k :| 0 <= k < |acl| && acl[k] == x;
      assert HasId(id)(acl[k]) && IdentityNamed(name)(acl[k]);
      assert HasId(id)(acl[i]) && IdentityNamed(name)(acl[j]);
    }
    if i == j < |acl| {
      assert acl[i] in acl && HasId(id)(acl[i]) && IdentityNamed(name)(acl[i]);
    }
  }

  lemma IdentityAfterUpdate(acl: seq<Identity>, j: nat, x: Identity, id: Octets16)
    requires j < |acl| && x.id == acl[j].id && x.name == acl[j].name
    ensures FirstIndex(acl[j := x], HasId(id)) == FirstIndex(acl, HasId(id))
  {
    var after := acl[j := x];
    assert forall k :: 0 <= k < |acl| ==> HasId(id)(after[k]) == HasId(id)(acl[k]);
    var a, b := FirstIndex(after, HasId(id)), FirstIndex(acl, HasId(id));
    assert a < |after| ==> HasId(id)(acl[a]);
    assert b < |acl| ==> HasId(id)(after[b]);
  }

  // One more identity is enrolled, under its name without control characters, exactly when no identity has that name
  // or its identifier.
  lemma EnrolExactly(acl: seq<Identity>, incoming: seq<Identity>, i: Identity)
    ensures var before := AddIdentities(acl, incoming).0;
            var after, added := AddIdentities(acl, incoming + [i]).0, AddIdentities(acl, incoming + [i]).1;
            var name := Filter(i.name, (c: char) => !(c < ' ' || '\U{7f}' <= c <= '\U{9f}'));
            if exists x :: x in before && (x.name == name || (x.id == i.id && exists b :: b in i.id && b != 0))
            then after == before && added == AddIdentities(acl, incoming).1
            else |after| == |before| + 1 && after[..|before|] == before
                 && after[|before|].name == name && after[|before|].id == i.id && after[|before|].roles == i.roles
                 && added == AddIdentities(acl, incoming).1 + [after[|before|]]
  {
    assert (incoming + [i])[..|incoming|] == incoming;
    var before := AddIdentities(acl, incoming).0;
    NotZeroExactly(i.id);
    NameIsCleaned(i.name);
    hide CleanName, Filter;
    PresentExactly(before, Cleaned(i));
  }

  lemma NameIsCleaned(name: string)
    ensures CleanName(name) == Filter(name, (c: char) => !(c < ' ' || '\U{7f}' <= c <= '\U{9f}'))
  {
    FilterAlike(name, (c: char) => !IsControl(c), (c: char) => !(c < ' ' || '\U{7f}' <= c <= '\U{9f}'));
  }

  lemma PresentExactly(acl: seq<Identity>, i: Identity)
    ensures Present(acl, i) <==>
            exists x :: x in acl && (x.name == i.name || (x.id == i.id && exists b :: b in i.id && b != 0))
  {
    NotZeroExactly(i.id);
  }

  lemma ExpelExactly(d: Dp, mac: Mac, name: string, x: Identity)
    ensures x in Apply(d, mac, Expel(name)).acl <==> x in d.acl && x.name != name
  {}

  // A password is set for a user on record, or for a new one when the name is enrolled or any control point is.
  lemma PasswordExactly(d: Dp, name: string, stored: Octets16, salt: Octets16, who: string)
    ensures var n := Filter(name, (c: char) => !(c < ' ' || '\U{7f}' <= c <= '\U{9f}'));
            var (u, ok) := SetPassword(d, name, stored, salt);
            (ok <==> FindUser(d.users, n).Some?
                     || exists x :: x in d.acl && (x.name == n || exists b :: b in x.id && b != 0))
            && (!ok ==> u == d)
            && (who != n ==> FindUser(u.users, who) == FindUser(d.users, who))
            && (ok ==> FindUser(u.users, n) == Some(User(n, salt, stored, UserRoles(d.users, n))))
  {
    var n := CleanName(name);
    NameIsCleaned(name);
    hide CleanName, Filter;
    forall x: Identity ensures x.id != ZERO_ID <==> exists b :: b in x.id && b != 0 {
      NotZeroExactly(x.id);
    }
    var i := FirstIndex(d.users, Named(n));
    if i < |d.users| {
      UserAfterUpdate(d.users, i, d.users[i].(stored := stored, salt := salt), who);
      UserAfterUpdate(d.users, i, d.users[i].(stored := stored, salt := salt), n);
    } else {
      UserAfterAppend(d.users, User(n, salt, stored, []), who);
      UserAfterAppend(d.users, User(n, salt, stored, []), n);
    }
  }

  lemma UserAfterAppend(users: seq<User>, u: User, who: string)
    requires FindUser(users, u.name).None?
    ensures FindUser(users + [u], who) == if who == u.name then Some(u) else FindUser(users, who)
  {
    var after := users + [u];
    assert forall k :: 0 <= k < |users| ==> after[k] == users[k] && !Named(u.name)(users[k]);
    assert after[|users|] == u;
    var a, b := FirstIndex(after, Named(who)), FirstIndex(users, Named(who));
    assert a < |users| ==> Named(who)(users[a]);
    assert b < |users| ==> Named(who)(after[b]);
    assert who == u.name ==> Named(who)(after[|users|]);
  }
}
