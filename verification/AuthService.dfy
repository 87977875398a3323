/** The sign-in service as an object over its tables and the Redis server. */
module AuthService {
  import opened Words
  import opened SessionStore
  import opened Refresh
  import opened Access
  import opened Accounts
  import opened Standing

  class Service {
    var accounts: map<nat, Account>
    var access: map<nat, AccessRow>
    var restrictions: map<RestrictionKey, Restriction>
    const redis: RedisStore
    const ttl: int

    ghost function View(): World
      reads this, redis
    {
      World(accounts, access, restrictions, redis.View())
    }

    /** Every session agrees with the tables. */
    ghost predicate Good()
      reads this, redis
    {
      Accounts.Inv(View())
    }

    constructor (redis: RedisStore, ttl: int)
      ensures this.redis == redis && this.ttl == ttl
      ensures View() == World(map[], map[], map[], redis.View())
    {
      accounts, access, restrictions := map[], map[], map[];
      this.redis, this.ttl := redis, ttl;
    }

    method LoadRow(user: nat) returns (row: Option<AccessRow>)
      modifies this
      ensures (View(), row) == LoadAccess(old(View()), user)
      ensures old(Good()) ==> Good()
    {
      LoadingKeeps(View(), user);
      if user in access {
        return Some(access[user]);
      }
      if user !in accounts {
        return None;
      }
      access := access[user := FULL_ACCESS];
      row := Some(FULL_ACCESS);
    }

    method CompilePermissions(user: nat, role: Role) returns (permissions: Option<seq<Permission>>)
      modifies this
      ensures (View(), permissions) == Compile(old(View()), user, role)
    {
      if !KnownRole(role) {
        return None;
      }
      var row := LoadRow(user);
      if row.None? {
        return None;
      }
      var now := redis.now;
      var ps, rowAfter, restrictionsAfter := CompileRole(role, row.value, restrictions, user, now);
      OneOutcome(role, row.value, restrictions, user, now,
                 rowAfter, LiftedRow(role, row.value, restrictions, user, now),
                 restrictionsAfter, LiftedRestrictions(role, row.value, restrictions, user, now));
      access := access[user := rowAfter];
      restrictions := restrictionsAfter;
      permissions := Some(ps);
    }

    method RevokeSession(sid: Sid)
      modifies redis
      ensures redis.View() == RevokeOne(old(redis.View()), sid)
    {
      var session := redis.GetSession(sid);
      if session.Some? {
        var _ := redis.DeleteSessionIfCurrent(session.value.slot, sid);
      }
    }

    method CreateSessionFor(user: nat, account: Account, device: Device, draw: Draw) returns (r: Outcome)
      modifies this, redis
      ensures (View(), r) == CreateSession(old(View()), user, account, device, draw, ttl)
    {
      if !account.active {
        return Unavailable;
      }
      var permissions := CompilePermissions(user, account.role);
      if permissions.None? {
        return Failed;
      }
      var record := Session(Slot(user, device), account.role, permissions.value, draw.hash, (redis.now + ttl) / 1000);
      var ok, _ := redis.ReplaceSession(draw.sid, record, ttl);
      if !ok {
        return Failed;
      }
      if !draw.recorded {
        RevokeSession(draw.sid);
        return Failed;
      }
      r := SignedIn(draw.sid);
    }

    method Register(user: nat, role: Role, device: Device, draw: Draw) returns (r: Outcome)
      modifies this, redis
      ensures (View(), r) == SignUp(old(View()), user, role, device, draw, ttl)
      ensures old(Good()) && draw.sid !in old(redis.sessions) ==> Good()
    {
      hide Accounts.Inv, ShutOut;
      OperationIsGood(View(), DoSignUp(user, role, device, draw, ttl));
      if user in accounts {
        return Failed;
      }
      accounts := accounts[user := Account(role, true)];
      access := access[user := FULL_ACCESS];
      r := CreateSessionFor(user, Account(role, true), device, draw);
    }

    method Login(user: nat, device: Device, draw: Draw) returns (r: Outcome)
      modifies this, redis
      ensures (View(), r) == SignIn(old(View()), user, device, draw, ttl)
      ensures old(Good()) && draw.sid !in old(redis.sessions) ==> Good()
    {
      hide Accounts.Inv, ShutOut;
      OperationIsGood(View(), DoSignIn(user, device, draw, ttl));
      if user !in accounts {
        return NotFound;
      }
      r := CreateSessionFor(user, accounts[user], device, draw);
    }

    /** Both devices in turn, giving up at the first record that does not belong in its slot. */
    method RevokeUserSessions(user: nat) returns (ok: bool)
      modifies redis
      ensures (redis.View(), ok) == RevokeAll(old(redis.View()), user)
    {
      var devices := [PC, Mobile];
      var i := 0;
      while i < |devices|
        invariant 0 <= i <= 2
        invariant i == 0 ==> redis.View() == old(redis.View())
        invariant i == 1 ==> (redis.View(), true) == RevokeDevice(old(redis.View()), Slot(user, PC))
        invariant i == 2 ==> (redis.View(), true) == RevokeAll(old(redis.View()), user)
      {
        var slot := Slot(user, devices[i]);
        if slot in redis.slots {
          var sid := redis.slots[slot].value;
          var session := redis.GetSession(sid);
          if session.Some? && (!KnownRole(session.value.role) || session.value.slot != slot) {
            return false;
          }
          var _ := redis.DeleteSessionIfCurrent(slot, sid);
        }
        i := i + 1;
      }
      ok := true;
    }

    method LogoutAll(user: nat) returns (r: Outcome)
      modifies redis
      ensures (View(), r) == SignOutAll(old(View()), user)
      ensures old(Good()) ==> Good()
      ensures old(Good()) && r == Done ==> ShutOut(redis.View(), user)
    {
      hide Accounts.Inv, ShutOut;
      OperationIsGood(View(), DoSignOutAll(user));
      var ok := RevokeUserSessions(user);
      r := if ok then Done else Failed;
    }

    method Logout(caller: nat, sid: Sid) returns (r: Outcome)
      modifies redis
      ensures (View(), r) == SignOut(old(View()), caller, sid)
      ensures old(Good()) ==> Good()
    {
      hide Accounts.Inv, ShutOut;
      OperationIsGood(View(), DoSignOut(caller, sid));
      var session := redis.GetSession(sid);
      if session.None? || session.value.expiresAt * 1000 <= redis.now || !KnownRole(session.value.role)
         || session.value.slot.user != caller {
        return Unavailable;
      }
      var _ := redis.DeleteSessionIfCurrent(session.value.slot, sid);
      r := Done;
    }

    method ChangeRole(user: nat, role: Role) returns (r: Outcome)
      modifies this, redis
      ensures (View(), r) == SetRole(old(View()), user, role)
      ensures old(Good()) ==> Good()
      ensures old(Good()) && r == Done ==> ShutOut(redis.View(), user)
      ensures old(Good()) && KnownRole(role) && user in old(accounts) ==>
        r == Done && accounts == old(accounts)[user := Account(role, old(accounts)[user].active)]
      ensures old(Good()) ==> access == old(access) && restrictions == old(restrictions)
    {
      hide Accounts.Inv, ShutOut;
      if Good() { RoleIsSet(View(), user, role); }
      OperationIsGood(View(), DoSetRole(user, role));
      if !KnownRole(role) {
        return Invalid;
      }
      if user !in accounts {
        return NotFound;
      }
      accounts := accounts[user := accounts[user].(role := role)];
      r := LogoutAll(user);
    }

    method SetAccountStatus(user: nat, active: bool) returns (r: Outcome)
      modifies this, redis
      ensures (View(), r) == SetStatus(old(View()), user, active)
      ensures old(Good()) ==> Good()
      ensures old(Good()) && r == Done ==> ShutOut(redis.View(), user)
      ensures old(Good()) && user in old(accounts) ==>
        r == Done && accounts == old(accounts)[user := Account(old(accounts)[user].role, active)]
      ensures old(Good()) ==> access == old(access) && restrictions == old(restrictions)
    {
      hide Accounts.Inv, ShutOut;
      if Good() { StatusIsSet(View(), user, active); }
      OperationIsGood(View(), DoSetStatus(user, active));
      if user !in accounts {
        return NotFound;
      }
      accounts := accounts[user := accounts[user].(active := active)];
      r := LogoutAll(user);
    }

    method BootstrapAdmin(user: nat) returns (r: Outcome)
      modifies this, redis
      ensures (View(), r) == Promote(old(View()), user)
      ensures old(Good()) ==> Good()
      ensures old(Good() && user in accounts && accounts[user].role != RoleAdmin) && r == Done ==> ShutOut(redis.View(), user)
      ensures old(Good()) && user in old(accounts) ==>
        r == Done && accounts == old(accounts)[user := Account(RoleAdmin, old(accounts)[user].active)]
    {
      hide Accounts.Inv, ShutOut;
      if Good() { AdminIsMade(View(), user); }
      OperationIsGood(View(), DoPromote(user));
      if user !in accounts || accounts[user].role == RoleAdmin {
        return Done;
      }
      accounts := accounts[user := accounts[user].(role := RoleAdmin)];
      r := LogoutAll(user);
    }

    method SetPermissionRestriction(user: nat, p: Permission, expiresAt: Option<int>) returns (r: Outcome)
      modifies this, redis
      ensures (View(), r) == Restrict(old(View()), user, p, expiresAt)
      ensures old(Good()) ==> Good()
      ensures old(Good()) && r == Done ==> ShutOut(redis.View(), user)
    {
      hide Accounts.Inv, ShutOut;
      OperationIsGood(View(), DoRestrict(user, p, expiresAt));
      if expiresAt.Some? && expiresAt.value <= redis.now {
        return Invalid;
      }
      var row := LoadRow(user);
      if row.None? {
        return Failed;
      }
      access := access[user := WithFlag(row.value, p, false)];
      restrictions := restrictions[(user, p) := Restriction(true, expiresAt)];
      r := LogoutAll(user);
    }

    method ClearPermissionRestriction(user: nat, p: Permission) returns (r: Outcome)
      modifies this, redis
      ensures (View(), r) == Unrestrict(old(View()), user, p)
      ensures old(Good()) ==> Good()
      ensures old(Good()) && r == Done ==> ShutOut(redis.View(), user)
    {
      hide Accounts.Inv, ShutOut;
      OperationIsGood(View(), DoUnrestrict(user, p));
      var row := LoadRow(user);
      if row.None? {
        return Failed;
      }
      access := access[user := WithFlag(row.value, p, true)];
      if (user, p) in restrictions {
        restrictions := Lift(restrictions, user, p);
      }
      r := LogoutAll(user);
    }

    method RefreshToken(hash: Hash, newHash: Hash) returns (r: Answer)
      modifies redis
      ensures (redis.View(), r) == RefreshAlone(old(redis.View()), hash, newHash)
      ensures old(Good()) ==> Good()
    {
      hide Accounts.Inv, ShutOut;
      OperationIsGood(View(), DoRefresh(hash, newHash));
      if hash !in redis.index {
        return InvalidRefresh;
      }
      var sid := redis.index[hash].value;
      var session := redis.GetSession(sid);
      if session.None? || session.value.expiresAt * 1000 <= redis.now || !KnownRole(session.value.role) {
        return InvalidRefresh;
      }
      var left := session.value.expiresAt * 1000 - redis.now;
      var result := redis.RotateRefreshHash(sid, hash, newHash, left);
      match result {
        case Rotated =>
          return Pair(sid);
        case Replayed(other) =>
          var found := redis.GetSession(other);
          if found.Some? && found.value.slot.user != 0 {
            var _ := redis.DeleteSessionIfCurrent(found.value.slot, other);
          }
          return InvalidRefresh;
        case NotRotated =>
          return InvalidRefresh;
      }
    }

    /** Only the session record is read. */
    method AuthenticateIdentity(user: nat, sid: Sid) returns (who: Option<Identity>)
      ensures who == Authenticate(redis.View(), user, sid)
      ensures Good() && who.Some? ==>
        && user in accounts && accounts[user] == Account(who.value.role, true)
        && forall p :: p in who.value.permissions ==> May(View(), user, p)
    {
      if Good() && Authenticate(redis.View(), user, sid).Some? {
        IdentityIsCorrect(View(), user, sid);
      }
      var session := redis.GetSession(sid);
      if session.None? || session.value.expiresAt * 1000 <= redis.now || !KnownRole(session.value.role)
         || session.value.slot.user != user {
        return None;
      }
      who := Some(Identity(user, session.value.role, session.value.permissions));
    }
  }
}
