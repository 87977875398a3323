/** What the changes to an account leave in the tables, how long they last, and how long a sign-in lasts. */
module Standing {
  import opened Words
  import opened SessionStore
  import opened Refresh
  import opened Access
  import opened Accounts

  // ---- what a change leaves ------------------------------------------------------------------

  /** Just the user's sessions are gone, at the same moment. */
  ghost predicate SessionsLeft(s: Store, t: Store, user: nat) {
    && t.now == s.now
    && (forall sid :: sid in t.sessions <==> sid in s.sessions && s.sessions[sid].value.slot.user != user)
    && (forall sid :: sid in t.sessions ==> t.sessions[sid] == s.sessions[sid])
  }

  lemma SignsOutAll(w: World, user: nat)
    requires Coherent(w.store) && RolesKnown(w.store)
    ensures var (z, r) := SignOutAll(w, user);
      r == Done && z == w.(store := z.store) && SessionsLeft(w.store, z.store, user)
  {
    hide Coherent;
    RevokeAllIsExact(w.store, user);
  }

  lemma StoreIsGood(w: World)
    requires Accounts.Inv(w)
    ensures Coherent(w.store) && RolesKnown(w.store)
  {
    RolesAreKnown(w);
  }

  /** The status of a known account is stored, everything else in the tables stays, and its sessions are over. */
  lemma StatusIsSet(w: World, user: nat, active: bool)
    requires Accounts.Inv(w)
    ensures var (z, r) := SetStatus(w, user, active);
      if user !in w.accounts then (z, r) == (w, NotFound)
      else r == Done && z == w.(accounts := w.accounts[user := Account(w.accounts[user].role, active)], store := z.store)
           && SessionsLeft(w.store, z.store, user)
  {
    hide Accounts.Inv, Coherent, RolesKnown, SignOutAll, SessionsLeft;
    StoreIsGood(w);
    if user in w.accounts {
      SignsOutAll(w.(accounts := w.accounts[user := Account(w.accounts[user].role, active)]), user);
    }
  }

  /** So is a known role. */
  lemma RoleIsSet(w: World, user: nat, role: Role)
    requires Accounts.Inv(w)
    ensures var (z, r) := SetRole(w, user, role);
      if role !in {RoleUser, RoleSupport, RoleAdmin} then (z, r) == (w, Invalid)
      else if user !in w.accounts then (z, r) == (w, NotFound)
      else r == Done && z == w.(accounts := w.accounts[user := Account(role, w.accounts[user].active)], store := z.store)
           && SessionsLeft(w.store, z.store, user)
  {
    hide Accounts.Inv, Coherent, RolesKnown, SignOutAll, SessionsLeft;
    StoreIsGood(w);
    if user in w.accounts {
      SignsOutAll(w.(accounts := w.accounts[user := Account(role, w.accounts[user].active)]), user);
    }
  }

  /** The configured account becomes an administrator, once; one that is there already keeps its sessions. */
  lemma AdminIsMade(w: World, user: nat)
    requires Accounts.Inv(w)
    ensures var (z, r) := Promote(w, user);
      && r == Done
      && if user in w.accounts && w.accounts[user].role != RoleAdmin
         then z == w.(accounts := w.accounts[user := Account(RoleAdmin, w.accounts[user].active)], store := z.store)
              && SessionsLeft(w.store, z.store, user)
         else z == w
  {
    hide Accounts.Inv, Coherent, RolesKnown, SignOutAll, SessionsLeft;
    StoreIsGood(w);
    if user in w.accounts {
      SignsOutAll(w.(accounts := w.accounts[user := Account(RoleAdmin, w.accounts[user].active)]), user);
    }
  }

  /** What a user is allowed at the start of a change: the row, or everything for an account that has none yet. */
  predicate AllowedBefore(w: World, user: nat, p: Permission) {
    if user in w.access then Allows(w.access[user], p) else user in w.accounts
  }

  /** Only the user's row differs, and in it only the permission. */
  ghost predicate OneFlagSet(w: World, z: World, user: nat, p: Permission, allowed: bool) {
    && z.accounts == w.accounts && user in z.access && z.access == w.access[user := z.access[user]]
    && forall q :: Allows(z.access[user], q) == if q == p then allowed else AllowedBefore(w, user, q)
  }

  lemma RestrictionIsSet(w: World, user: nat, p: Permission, expiresAt: Option<int>)
    requires Accounts.Inv(w)
    ensures var (z, r) := Restrict(w, user, p, expiresAt);
      if expiresAt.Some? && expiresAt.value <= w.store.now then (z, r) == (w, Invalid)
      else if user !in w.accounts && user !in w.access then (z, r) == (w, Failed)
      else r == Done && OneFlagSet(w, z, user, p, false) && SessionsLeft(w.store, z.store, user)
           && z.restrictions == w.restrictions[(user, p) := Restriction(true, expiresAt)]
  {
    hide Accounts.Inv, Coherent, RolesKnown, SignOutAll, SessionsLeft;
    StoreIsGood(w);
    var (v, row) := LoadAccess(w, user);
    if row.Some? {
      SignsOutAll(v.(access := v.access[user := WithFlag(row.value, p, false)],
                     restrictions := v.restrictions[(user, p) := Restriction(true, expiresAt)]), user);
    }
  }

  lemma RestrictionIsLifted(w: World, user: nat, p: Permission)
    requires Accounts.Inv(w)
    ensures var (z, r) := Unrestrict(w, user, p);
      if user !in w.accounts && user !in w.access then (z, r) == (w, Failed)
      else r == Done && OneFlagSet(w, z, user, p, true) && SessionsLeft(w.store, z.store, user)
           && z.restrictions == if (user, p) in w.restrictions
                                then w.restrictions[(user, p) := Restriction(false, w.restrictions[(user, p)].expiresAt)]
                                else w.restrictions
  {
    hide Accounts.Inv, Coherent, RolesKnown, SignOutAll, SessionsLeft;
    StoreIsGood(w);
    var (v, row) := LoadAccess(w, user);
    if row.Some? {
      SignsOutAll(v.(access := v.access[user := WithFlag(row.value, p, true)],
                     restrictions := if (user, p) in v.restrictions then Lift(v.restrictions, user, p)
                                     else v.restrictions), user);
    }
  }

  /** After a restriction is cleared the next sign-in may do the thing again exactly when its role includes it. */
  lemma ClearedGivesBack(w: World, user: nat, p: Permission, to: int, device: Device, draw: Draw, ttl: int)
    requires Accounts.Inv(w) && Unrestrict(w, user, p).1 == Done
    requires var v := Unrestrict(w, user, p).0;
      SignIn(v.(store := Advance(v.store, to)), user, device, draw, ttl).1.SignedIn?
    ensures user in w.accounts
    ensures var v := Unrestrict(w, user, p).0;
      var z := SignIn(v.(store := Advance(v.store, to)), user, device, draw, ttl).0;
      && draw.sid in z.store.sessions
      && (p in z.store.sessions[draw.sid].value.permissions <==> p in RolePermissions(w.accounts[user].role))
  {
    hide Accounts.Inv, Unrestrict, SessionsLeft, Writable, Replace;
    RestrictionIsLifted(w, user, p);
    var v := Unrestrict(w, user, p).0;
    var u := v.(store := Advance(v.store, to));
    SignInIsExact(u, user, device, draw, ttl);
    CompileFacts(u, user, u.accounts[user].role);
    assert Allows(v.access[user], p);
  }

  // ---- how long a freeze lasts ---------------------------------------------------------------

  predicate Frozen(w: World, user: nat) {
    user in w.accounts && !w.accounts[user].active
  }

  /** No operation but a change of status thaws an account. */
  lemma StaysFrozen(w: World, op: Accounts.Op, user: nat)
    requires Frozen(w, user) && !(op.DoSetStatus? && op.user == user)
    ensures Frozen(Accounts.Do(w, op).0, user)
  {
    hide RevokeAll, RevokeOne, Replace, RefreshAlone, Advance, DeleteIfCurrent, LiftedRow, LiftedRestrictions, Allowed, Lift, WithFlag;
  }

  ghost predicate NoStatusChange(ops: seq<Accounts.Op>, user: nat) {
    forall i :: 0 <= i < |ops| ==> !(ops[i].DoSetStatus? && ops[i].user == user)
  }

  lemma {:induction false} FrozenInRuns(w: World, ops: seq<Accounts.Op>, user: nat)
    requires Frozen(w, user) && NoStatusChange(ops, user)
    ensures Frozen(Accounts.Run(w, ops), user)
    decreases |ops|
  {
    if ops != [] {
      hide Accounts.Do, Frozen;
      StaysFrozen(w, ops[0], user);
      assert forall i :: 0 <= i < |ops[1..]| ==> ops[1..][i] == ops[i + 1];
      FrozenInRuns(Accounts.Do(w, ops[0]).0, ops[1..], user);
    }
  }

  /**
   * From a freeze until the next change of status, whatever else is done to the account: every sign-in is
   * told that the account is unavailable, and no access token of the user is accepted.
   */
  lemma FreezeLasts(w: World, user: nat, ops: seq<Accounts.Op>, device: Device, draw: Draw, ttl: int)
    requires Accounts.Inv(w) && user in w.accounts && NoStatusChange(ops, user)
    requires Accounts.Legal(SetStatus(w, user, false).0, ops)
    ensures var z := Accounts.Run(SetStatus(w, user, false).0, ops);
      && SignIn(z, user, device, draw, ttl) == (z, Unavailable)
      && ShutOut(z.store, user)
  {
    hide Accounts.Inv, SetStatus, Accounts.Do, Accounts.Legal, Accounts.Run, SignIn, ShutOut, Frozen, NoStatusChange;
    Freezes(w, user);
    var v := SetStatus(w, user, false).0;
    FrozenInRuns(v, ops, user);
    AgreementInRuns(v, ops);
    var z := Accounts.Run(v, ops);
    FrozenIsShutOut(z, user);
    FrozenIsToldSo(z, user, device, draw, ttl);
  }

  lemma Freezes(w: World, user: nat)
    requires Accounts.Inv(w) && user in w.accounts
    ensures Accounts.Inv(SetStatus(w, user, false).0) && Frozen(SetStatus(w, user, false).0, user)
  {
    hide Accounts.Inv, SetStatus, SessionsLeft;
    StatusIsSet(w, user, false);
    Accounts.DoKeeps(w, DoSetStatus(user, false));
  }

  lemma FrozenIsToldSo(w: World, user: nat, device: Device, draw: Draw, ttl: int)
    requires Frozen(w, user)
    ensures SignIn(w, user, device, draw, ttl) == (w, Unavailable)
  {
    hide SignIn;
    FrozenStaysOut(w, user, device, draw, ttl);
  }

  lemma FrozenIsShutOut(w: World, user: nat)
    requires Accounts.Inv(w) && Frozen(w, user)
    ensures ShutOut(w.store, user)
  {
    forall sid ensures Authenticate(w.store, user, sid) == None {
      if Authenticate(w.store, user, sid).Some? { IdentityIsCorrect(w, user, sid); }
    }
  }

  // ---- signing in ----------------------------------------------------------------------------

  /** Each answer to a sign-in and exactly when it is given. */
  lemma SignsInExactly(w: World, user: nat, device: Device, draw: Draw, ttl: int)
    ensures SignIn(w, user, device, draw, ttl).1 ==
      if user !in w.accounts then NotFound
      else if !w.accounts[user].active then Unavailable
      else if w.accounts[user].role in {RoleUser, RoleSupport, RoleAdmin} && user != 0 && ttl > 0 && w.store.now + ttl >= 1000
              && draw.recorded
      then SignedIn(draw.sid)
      else Failed
  {
    hide Replace, RevokeOne, LiftedRow, LiftedRestrictions, Allowed;
  }

  /** A sign-in writes one record, under the device's slot and the refresh hash, all three for the time asked. */
  lemma SignInWrites(w: World, user: nat, device: Device, draw: Draw, ttl: int)
    requires SignIn(w, user, device, draw, ttl).1.SignedIn?
    ensures user in w.accounts
    ensures var s, t, end := w.store, SignIn(w, user, device, draw, ttl).0.store, w.store.now + ttl;
      && draw.sid in t.sessions && t.sessions[draw.sid].deadline == end
      && t.sessions[draw.sid].value == Session(Slot(user, device), w.accounts[user].role,
                                               t.sessions[draw.sid].value.permissions, draw.hash, end / 1000)
      && t.slots == s.slots[Slot(user, device) := Entry(draw.sid, end)]
      && t.index == s.index[draw.hash := Entry(draw.sid, end)]
      && t.replay == s.replay && t.now == s.now
  {
    CompileFacts(w, user, w.accounts[user].role);
    hide Compile;
  }

  /** One that does not succeed opens no session. */
  lemma FailedOpensNone(w: World, user: nat, device: Device, draw: Draw, ttl: int)
    requires draw.sid !in w.store.sessions && !SignIn(w, user, device, draw, ttl).1.SignedIn?
    ensures var t := SignIn(w, user, device, draw, ttl).0.store;
      forall sid :: sid in t.sessions ==> sid in w.store.sessions && t.sessions[sid] == w.store.sessions[sid]
  {
    if user in w.accounts { CompileFacts(w, user, w.accounts[user].role); }
    hide Compile;
  }

  /** A new account is active, in its role and with nothing denied; its first session may do just what the role is for. */
  lemma SignsUpExactly(w: World, user: nat, role: Role, device: Device, draw: Draw, ttl: int)
    ensures var (z, r) := SignUp(w, user, role, device, draw, ttl);
      if user in w.accounts then (z, r) == (w, Failed)
      else z.accounts == w.accounts[user := Account(role, true)] && user in z.access && (forall p :: Allows(z.access[user], p))
           && (r.SignedIn? ==> r.sid in z.store.sessions && z.store.sessions[r.sid].value.permissions == RolePermissions(role))
  {
    hide Replace, RevokeOne, LiftedRestrictions;
    if user !in w.accounts { FirstSession(w, user, role, device, draw, ttl); }
  }

  lemma FirstSession(w: World, user: nat, role: Role, device: Device, draw: Draw, ttl: int)
    requires user !in w.accounts
    ensures var (z, r) := SignUp(w, user, role, device, draw, ttl);
      r.SignedIn? ==> r.sid in z.store.sessions && z.store.sessions[r.sid].value.permissions == RolePermissions(role)
  {
    AllAllowed(RolePermissions(role), FULL_ACCESS);
    hide LiftedRestrictions, Allowed;
    assert LiftedRow(role, FULL_ACCESS, w.restrictions, user, w.store.now) == FULL_ACCESS;
  }

  /** Duties are apart: in every run only administrators manage, only support handles tickets, and neither trades. */
  lemma DutiesApart(start: int, accounts: map<nat, Account>, access: map<nat, AccessRow>,
                    restrictions: map<RestrictionKey, Restriction>, ops: seq<Accounts.Op>, user: nat, sid: Sid, p: Permission)
    requires var w := World(accounts, access, restrictions, Store(start, map[], map[], map[], map[])); Accounts.Legal(w, ops)
    requires var w := World(accounts, access, restrictions, Store(start, map[], map[], map[], map[]));
      var who := Authenticate(Accounts.Run(w, ops).store, user, sid);
      who.Some? && p in who.value.permissions
    ensures var w := World(accounts, access, restrictions, Store(start, map[], map[], map[], map[]));
      var z := Accounts.Run(w, ops);
      && user in z.accounts
      && match p
         case Buy => z.accounts[user].role == RoleUser
         case Sell => z.accounts[user].role == RoleUser
         case Chat => z.accounts[user].role == RoleUser || z.accounts[user].role == RoleSupport
         case HandleTicket => z.accounts[user].role == RoleSupport
         case ManageUser => z.accounts[user].role == RoleAdmin
         case ManageSystem => z.accounts[user].role == RoleAdmin
  {
    hide Accounts.Legal, Accounts.Run, Authenticate;
    ServedAsTheTablesSay(start, accounts, access, restrictions, ops, user, sid);
    var w := World(accounts, access, restrictions, Store(start, map[], map[], map[], map[]));
    assert May(Accounts.Run(w, ops), user, p);
  }

  /** The moment, in milliseconds, at which a session opened at `now` is over: its seconds are whole. */
  function EndOf(now: int, ttl: int): int {
    (now + ttl) / 1000 * 1000
  }

  /**
   * A sign-in lasts to the whole second of its end and no longer: until then its token is accepted as the
   * user's, in the account's role and with all the account may do; for nobody else at any time.
   */
  lemma SignedInUntil(w: World, user: nat, device: Device, draw: Draw, ttl: int, to: int, other: nat)
    requires SignIn(w, user, device, draw, ttl).1.SignedIn?
    ensures var z := SignIn(w, user, device, draw, ttl).0;
      var who := Authenticate(Advance(z.store, to), user, draw.sid);
      && user in w.accounts
      && (who.Some? <==> to < EndOf(w.store.now, ttl))
      && (who.Some? ==> who.value.user == user && who.value.role == w.accounts[user].role
                        && forall p :: p in who.value.permissions <==> May(z, user, p))
      && (other != user ==> Authenticate(Advance(z.store, to), other, draw.sid) == None)
  {
    SignInIsExact(w, user, device, draw, ttl);
    hide May, LiftedRow, LiftedRestrictions, Allowed, LoadAccess;
    assert (w.store.now + ttl) / 1000 * 1000 <= w.store.now + ttl;
  }

  /** A sign-in takes the place of the session its device had, and leaves every other one alone. */
  lemma SignInTakesItsSlot(w: World, user: nat, device: Device, draw: Draw, ttl: int, sid: Sid)
    requires Accounts.Inv(w) && draw.sid !in w.store.sessions && sid in w.store.sessions
    requires SignIn(w, user, device, draw, ttl).1.SignedIn?
    ensures var z := SignIn(w, user, device, draw, ttl).0;
      if w.store.sessions[sid].value.slot == Slot(user, device) then sid !in z.store.sessions
      else sid in z.store.sessions && z.store.sessions[sid] == w.store.sessions[sid]
  {
    SlotIffSession(w.store, w.store.sessions[sid].value.slot, sid);
    if Slot(user, device) in w.store.slots {
      SlotIffSession(w.store, Slot(user, device), w.store.slots[Slot(user, device)].value);
    }
    hide Coherent, Accounts.Inv, LiftedRow, LiftedRestrictions, Allowed, LoadAccess;
  }

  /** Signing out ends the session named, if it is a live one of the caller's, and no other. */
  lemma SignOutIsExact(w: World, caller: nat, sid: Sid)
    requires Accounts.Inv(w)
    ensures var (z, r) := SignOut(w, caller, sid);
      if Authenticate(w.store, caller, sid).Some?
      then r == Done && z == w.(store := z.store) && z.store.sessions == w.store.sessions - {sid} && z.store.now == w.store.now
      else (z, r) == (w, Unavailable)
  {
    if sid in w.store.sessions { SlotIffSession(w.store, w.store.sessions[sid].value.slot, sid); }
  }

  // ---- staying signed in ---------------------------------------------------------------------

  /** The session is there with all but its refresh hash as in the record, for as long as the record says. */
  ghost predicate Holds(s: Store, sid: Sid, record: Session) {
    && sid in s.sessions && s.sessions[sid].value.(hash := record.hash) == record
    && s.now < 1000 * record.expiresAt <= s.sessions[sid].deadline
  }

  /** What may end a session: another sign-in on its device, a sign-out, a change to its account, a replay of one of its hashes, and time. */
  predicate Disturbs(w: World, op: Accounts.Op, sid: Sid, record: Session) {
    match op
    case DoSignUp(user, _, device, _, _) => Slot(user, device) == record.slot
    case DoSignIn(user, device, _, _) => Slot(user, device) == record.slot
    case DoSignOut(_, out) => out == sid
    case DoRefresh(hash, _) => hash in w.store.replay && w.store.replay[hash].value == sid
    case DoWait(to) => to >= 1000 * record.expiresAt
    case _ => op.user == record.slot.user
  }

  ghost predicate Undisturbed(w: World, ops: seq<Accounts.Op>, sid: Sid, record: Session)
    decreases |ops|
  {
    ops == [] || (!Disturbs(w, ops[0], sid, record) && Undisturbed(Accounts.Do(w, ops[0]).0, ops[1..], sid, record))
  }

  lemma RevokingOthersHolds(w: World, v: World, user: nat, sid: Sid, record: Session)
    requires Coherent(w.store) && RolesKnown(w.store) && Holds(w.store, sid, record) && v.store == w.store
    requires record.slot.user != user
    ensures Holds(SignOutAll(v, user).0.store, sid, record)
  {
    hide Coherent, RolesKnown, SignOutAll;
    SignsOutAll(v, user);
  }

  lemma CreatingHolds(w: World, user: nat, account: Account, device: Device, draw: Draw, ttl: int, sid: Sid, record: Session)
    requires Coherent(w.store) && Holds(w.store, sid, record)
    requires Slot(user, device) != record.slot && draw.sid !in w.store.sessions
    ensures Holds(CreateSession(w, user, account, device, draw, ttl).0.store, sid, record)
  {
    if Slot(user, device) in w.store.slots {
      SlotIffSession(w.store, Slot(user, device), w.store.slots[Slot(user, device)].value);
    }
    hide Coherent, LiftedRow, LiftedRestrictions, Allowed, LoadAccess;
    CompileFacts(w, user, account.role);
    hide Compile;
  }

  lemma RefreshHolds(w: World, hash: Hash, newHash: Hash, sid: Sid, record: Session)
    requires Coherent(w.store) && Holds(w.store, sid, record)
    requires hash in w.store.replay ==> w.store.replay[hash].value != sid
    ensures Holds(RefreshAlone(w.store, hash, newHash).0, sid, record)
  {
  }

  lemma StillHolds(w: World, op: Accounts.Op, sid: Sid, record: Session)
    requires Accounts.Inv(w) && Possible(w, op) && Holds(w.store, sid, record) && !Disturbs(w, op, sid, record)
    ensures Holds(Accounts.Do(w, op).0.store, sid, record)
  {
    hide Accounts.Inv, Coherent, RolesKnown, Holds, SignOutAll, CreateSession, RefreshAlone, WithFlag, Lift;
    StoreIsGood(w);
    match op
    case DoSignUp(user, role, device, draw, ttl) =>
      if user !in w.accounts {
        CreatingHolds(w.(accounts := w.accounts[user := Account(role, true)], access := w.access[user := FULL_ACCESS]),
                      user, Account(role, true), device, draw, ttl, sid, record);
      }
    case DoSignIn(user, device, draw, ttl) =>
      if user in w.accounts { CreatingHolds(w, user, w.accounts[user], device, draw, ttl, sid, record); }
    case DoSignOut(user, out) => SignOutHolds(w, user, out, sid, record);
    case DoRefresh(hash, newHash) => RefreshHolds(w, hash, newHash, sid, record);
    case DoWait(to) => WaitHolds(w, to, sid, record);
    case DoSignOutAll(user) => RevokingOthersHolds(w, w, user, sid, record);
    case DoSetRole(user, role) => ChangeHolds(w, op, sid, record);
    case DoSetStatus(user, active) => ChangeHolds(w, op, sid, record);
    case DoPromote(user) => ChangeHolds(w, op, sid, record);
    case DoRestrict(user, p, expiresAt) => ChangeHolds(w, op, sid, record);
    case DoUnrestrict(user, p) => ChangeHolds(w, op, sid, record);
  }

  lemma SignOutHolds(w: World, caller: nat, out: Sid, sid: Sid, record: Session)
    requires Holds(w.store, sid, record) && out != sid && Coherent(w.store)
    ensures Holds(SignOut(w, caller, out).0.store, sid, record)
  {
    if out in w.store.sessions { SlotIffSession(w.store, w.store.sessions[out].value.slot, out); }
  }

  lemma WaitHolds(w: World, to: int, sid: Sid, record: Session)
    requires Holds(w.store, sid, record) && to < 1000 * record.expiresAt
    ensures Holds(Advance(w.store, to), sid, record)
  {
  }

  lemma ChangeHolds(w: World, op: Accounts.Op, sid: Sid, record: Session)
    requires Coherent(w.store) && RolesKnown(w.store) && Holds(w.store, sid, record)
    requires Changes(op) && op.user != record.slot.user
    ensures Holds(Accounts.Do(w, op).0.store, sid, record)
  {
    hide Coherent, RolesKnown, Holds, SignOutAll, WithFlag, Lift;
    forall v: World | v.store == w.store ensures Holds(SignOutAll(v, op.user).0.store, sid, record) {
      RevokingOthersHolds(w, v, op.user, sid, record);
    }
  }

  lemma {:induction false} HoldsInRuns(w: World, ops: seq<Accounts.Op>, sid: Sid, record: Session)
    requires Accounts.Inv(w) && Accounts.Legal(w, ops) && Undisturbed(w, ops, sid, record) && Holds(w.store, sid, record)
    ensures Holds(Accounts.Run(w, ops).store, sid, record)
    decreases |ops|
  {
    if ops != [] {
      hide Accounts.Inv, Accounts.Do, Holds, Disturbs, Possible;
      StillHolds(w, ops[0], sid, record);
      Accounts.DoKeeps(w, ops[0]);
      HoldsInRuns(Accounts.Do(w, ops[0]).0, ops[1..], sid, record);
    }
  }

  lemma HeldIsLetIn(s: Store, sid: Sid, record: Session)
    requires Holds(s, sid, record) && KnownRole(record.role)
    ensures Authenticate(s, record.slot.user, sid) == Some(Identity(record.slot.user, record.role, record.permissions))
  {
  }

  lemma SignedInHolds(w: World, user: nat, device: Device, draw: Draw, ttl: int)
    requires SignIn(w, user, device, draw, ttl).1.SignedIn? && w.store.now < EndOf(w.store.now, ttl)
    ensures var z := SignIn(w, user, device, draw, ttl).0;
      && draw.sid in z.store.sessions && Holds(z.store, draw.sid, z.store.sessions[draw.sid].value)
      && z.store.sessions[draw.sid].value.slot == Slot(user, device) && KnownRole(z.store.sessions[draw.sid].value.role)
      && 1000 * z.store.sessions[draw.sid].value.expiresAt == EndOf(w.store.now, ttl)
  {
    CompileFacts(w, user, w.accounts[user].role);
    hide May, Compile;
    assert (w.store.now + ttl) / 1000 * 1000 <= w.store.now + ttl;
  }

  /** Whoever has signed in stays signed in, with the same permissions, until the end or something that may end the session. */
  lemma StaysSignedIn(w: World, user: nat, device: Device, draw: Draw, ttl: int, ops: seq<Accounts.Op>)
    requires Accounts.Inv(w) && draw.sid !in w.store.sessions && w.store.now < EndOf(w.store.now, ttl)
    requires SignIn(w, user, device, draw, ttl).1.SignedIn?
    requires var z := SignIn(w, user, device, draw, ttl).0;
      draw.sid in z.store.sessions && Accounts.Legal(z, ops) && Undisturbed(z, ops, draw.sid, z.store.sessions[draw.sid].value)
    ensures var z := SignIn(w, user, device, draw, ttl).0;
      && Authenticate(z.store, user, draw.sid).Some?
      && Authenticate(Accounts.Run(z, ops).store, user, draw.sid) == Authenticate(z.store, user, draw.sid)
  {
    hide Accounts.Inv, SignIn, Holds, Accounts.Run, Authenticate;
    var z := SignIn(w, user, device, draw, ttl).0;
    var record := z.store.sessions[draw.sid].value;
    SignedInHolds(w, user, device, draw, ttl);
    Accounts.DoKeeps(w, DoSignIn(user, device, draw, ttl));
    HoldsInRuns(z, ops, draw.sid, record);
    HeldIsLetIn(z.store, draw.sid, record);
    HeldIsLetIn(Accounts.Run(z, ops).store, draw.sid, record);
  }
}
