/**
 * Sign-in, sign-out and the administrator's changes to an account, each run to completion. Requests are
 * then served from the Redis session alone, so that record has to agree with the account it was made from.
 */
module Accounts {
  import opened Words
  import opened SessionStore
  import opened Refresh
  import opened Access

  datatype World = World(
    accounts: map<nat, Account>,
    access: map<nat, AccessRow>,
    restrictions: map<RestrictionKey, Restriction>,
    store: Store)

  datatype Outcome = Done | SignedIn(sid: Sid) | Unavailable | NotFound | Invalid | Failed

  /** What a sign-in draws: a session id, a refresh hash; and whether its login event could be written. */
  datatype Draw = Draw(sid: Sid, hash: Hash, recorded: bool)

  // ---- sign-in -------------------------------------------------------------------------------

  /** The access row, which accounts from before the table get on first use. */
  function LoadAccess(w: World, user: nat): (World, Option<AccessRow>) {
    if user in w.access then (w, Some(w.access[user]))
    else if user in w.accounts then (w.(access := w.access[user := FULL_ACCESS]), Some(FULL_ACCESS))
    else (w, None)
  }

  function Compile(w: World, user: nat, role: Role): (World, Option<seq<Permission>>) {
    if !KnownRole(role) then (w, None)
    else
      var (v, row) := LoadAccess(w, user);
      if row.None? then (v, None)
      else
        var after := LiftedRow(role, row.value, v.restrictions, user, v.store.now);
        (v.(access := v.access[user := after],
            restrictions := LiftedRestrictions(role, row.value, v.restrictions, user, v.store.now)),
         Some(Allowed(RolePermissions(role), after)))
  }

  function RevokeOne(s: Store, sid: Sid): Store {
    if sid in s.sessions then DeleteIfCurrent(s, s.sessions[sid].value.slot, sid) else s
  }

  function RecordFor(w: World, user: nat, account: Account, device: Device, permissions: seq<Permission>, hash: Hash,
                     ttl: int): Session {
    Session(Slot(user, device), account.role, permissions, hash, (w.store.now + ttl) / 1000)
  }

  function CreateSession(w: World, user: nat, account: Account, device: Device, draw: Draw, ttl: int)
      : (World, Outcome) {
    if !account.active then (w, Unavailable)
    else
      var (v, permissions) := Compile(w, user, account.role);
      if permissions.None? then (v, Failed)
      else
        var record := RecordFor(v, user, account, device, permissions.value, draw.hash, ttl);
        if !Writable(record, ttl) then (v, Failed)
        else
          var signedIn := v.(store := Replace(v.store, draw.sid, record, ttl));
          if draw.recorded then (signedIn, SignedIn(draw.sid))
          else (signedIn.(store := RevokeOne(signedIn.store, draw.sid)), Failed)
  }

  function SignIn(w: World, user: nat, device: Device, draw: Draw, ttl: int): (World, Outcome) {
    if user !in w.accounts then (w, NotFound)
    else CreateSession(w, user, w.accounts[user], device, draw, ttl)
  }

  function SignUp(w: World, user: nat, role: Role, device: Device, draw: Draw, ttl: int): (World, Outcome) {
    if user in w.accounts then (w, Failed)
    else
      var account := Account(role, true);
      CreateSession(w.(accounts := w.accounts[user := account], access := w.access[user := FULL_ACCESS]),
                    user, account, device, draw, ttl)
  }

  // ---- sign-out ------------------------------------------------------------------------------

  /** One device of a user; a record that does not belong there stops the whole revocation. */
  function RevokeDevice(s: Store, slot: Slot): (Store, bool) {
    if slot !in s.slots then (s, true)
    else
      var sid := s.slots[slot].value;
      if sid !in s.sessions then (DeleteIfCurrent(s, slot, sid), true)
      else if !KnownRole(s.sessions[sid].value.role) || s.sessions[sid].value.slot != slot then (s, false)
      else (DeleteIfCurrent(s, slot, sid), true)
  }

  function RevokeAll(s: Store, user: nat): (Store, bool) {
    var (t, ok) := RevokeDevice(s, Slot(user, PC));
    if ok then RevokeDevice(t, Slot(user, Mobile)) else (t, false)
  }

  function SignOut(w: World, caller: nat, sid: Sid): (World, Outcome) {
    if Usable(w.store, sid) && w.store.sessions[sid].value.slot.user == caller then
      (w.(store := DeleteIfCurrent(w.store, w.store.sessions[sid].value.slot, sid)), Done)
    else (w, Unavailable)
  }

  function SignOutAll(w: World, user: nat): (World, Outcome) {
    var (s, ok) := RevokeAll(w.store, user);
    (w.(store := s), if ok then Done else Failed)
  }

  // ---- changes to an account -----------------------------------------------------------------

  function SetRole(w: World, user: nat, role: Role): (World, Outcome) {
    if !KnownRole(role) then (w, Invalid)
    else if user !in w.accounts then (w, NotFound)
    else SignOutAll(w.(accounts := w.accounts[user := w.accounts[user].(role := role)]), user)
  }

  function SetStatus(w: World, user: nat, active: bool): (World, Outcome) {
    if user !in w.accounts then (w, NotFound)
    else SignOutAll(w.(accounts := w.accounts[user := w.accounts[user].(active := active)]), user)
  }

  /** The configured administrator is promoted at start; nothing happens when there is none, or it is one already. */
  function Promote(w: World, user: nat): (World, Outcome) {
    if user !in w.accounts || w.accounts[user].role == RoleAdmin then (w, Done)
    else SignOutAll(w.(accounts := w.accounts[user := w.accounts[user].(role := RoleAdmin)]), user)
  }

  function Restrict(w: World, user: nat, p: Permission, expiresAt: Option<int>): (World, Outcome) {
    if expiresAt.Some? && expiresAt.value <= w.store.now then (w, Invalid)
    else
      var (v, row) := LoadAccess(w, user);
      if row.None? then (v, Failed)
      else SignOutAll(v.(access := v.access[user := WithFlag(row.value, p, false)],
                         restrictions := v.restrictions[(user, p) := Restriction(true, expiresAt)]), user)
  }

  function Unrestrict(w: World, user: nat, p: Permission): (World, Outcome) {
    var (v, row) := LoadAccess(w, user);
    if row.None? then (v, Failed)
    else SignOutAll(v.(access := v.access[user := WithFlag(row.value, p, true)],
                       restrictions := if (user, p) in v.restrictions then Lift(v.restrictions, user, p)
                                       else v.restrictions), user)
  }

  // ---- authentication ------------------------------------------------------------------------

  datatype Identity = Identity(user: nat, role: Role, permissions: seq<Permission>)

  /** Who a request comes from, read off the session record without a look at the database. */
  function Authenticate(s: Store, user: nat, sid: Sid): Option<Identity> {
    if Usable(s, sid) && s.sessions[sid].value.slot.user == user then
      Some(Identity(user, s.sessions[sid].value.role, s.sessions[sid].value.permissions))
    else None
  }

  // ---- agreement -----------------------------------------------------------------------------

  /** What the tables say a user may do now. */
  ghost predicate May(w: World, user: nat, p: Permission) {
    && user in w.accounts && w.accounts[user].active && p in RolePermissions(w.accounts[user].role)
    && user in w.access && Allows(w.access[user], p)
  }

  ghost predicate Matches(w: World, session: Session) {
    && session.slot.user in w.accounts
    && w.accounts[session.slot.user] == Account(session.role, true)
    && KnownRole(session.role)
    && forall p :: p in session.permissions ==> May(w, session.slot.user, p)
  }

  ghost predicate SessionAgrees(w: World, sid: Sid) {
    sid in w.store.sessions && Matches(w, w.store.sessions[sid].value)
  }

  ghost predicate Inv(w: World) {
    Coherent(w.store) && forall sid :: sid in w.store.sessions ==> SessionAgrees(w, sid)
  }

  /** A request is served as the account stands: it is active, in that role, and may do all it is let do. */
  lemma IdentityIsCorrect(w: World, user: nat, sid: Sid)
    requires Inv(w) && Authenticate(w.store, user, sid).Some?
    ensures var who := Authenticate(w.store, user, sid).value;
      && who.user == user && user in w.accounts && w.accounts[user] == Account(who.role, true)
      && forall p :: p in who.permissions ==> May(w, user, p)
  {
  }

  // ---- revoking ------------------------------------------------------------------------------

  ghost predicate RolesKnown(s: Store) {
    forall sid :: sid in s.sessions ==> KnownRole(s.sessions[sid].value.role)
  }

  /** What is left of a store when the sessions of some slot are gone. */
  ghost predicate Without(s: Store, t: Store, slot: Slot) {
    && t.sessions.Keys <= s.sessions.Keys
    && (forall sid :: sid in s.sessions ==>
          (sid in t.sessions <==> s.sessions[sid].value.slot != slot))
    && (forall sid :: sid in t.sessions ==> t.sessions[sid] == s.sessions[sid])
    && t.now == s.now
  }

  lemma RevokeDeviceIsExact(s: Store, slot: Slot)
    requires Coherent(s) && RolesKnown(s)
    ensures RevokeDevice(s, slot).1
    ensures var t := RevokeDevice(s, slot).0; Coherent(t) && RolesKnown(t) && Without(s, t, slot)
  {
    if slot in s.slots {
      var sid := s.slots[slot].value;
      assert SlotOk(s, slot);
      DeleteKeeps(s, slot, sid);
      forall x | x in s.sessions && s.sessions[x].value.slot == slot ensures x == sid { SlotIffSession(s, slot, x); }
    } else {
      forall x | x in s.sessions ensures s.sessions[x].value.slot != slot { SlotIffSession(s, slot, x); }
    }
  }

  /** Revoking a user's sessions never fails half way, and takes exactly that user's sessions. */
  lemma RevokeAllIsExact(s: Store, user: nat)
    requires Coherent(s) && RolesKnown(s)
    ensures RevokeAll(s, user).1
    ensures var t := RevokeAll(s, user).0;
      && Coherent(t) && t.sessions.Keys <= s.sessions.Keys && t.now == s.now
      && (forall sid :: sid in s.sessions ==> (sid in t.sessions <==> s.sessions[sid].value.slot.user != user))
      && (forall sid :: sid in t.sessions ==> t.sessions[sid] == s.sessions[sid])
  {
    hide Coherent;
    RevokeDeviceIsExact(s, Slot(user, PC));
    var t := RevokeDevice(s, Slot(user, PC)).0;
    RevokeDeviceIsExact(t, Slot(user, Mobile));
    forall sid | sid in s.sessions
      ensures s.sessions[sid].value.slot.user == user
              <==> s.sessions[sid].value.slot == Slot(user, PC) || s.sessions[sid].value.slot == Slot(user, Mobile)
    {
      var slot := s.sessions[sid].value.slot;
      assert slot.device == PC || slot.device == Mobile;
    }
  }

  lemma RolesAreKnown(w: World)
    requires Inv(w)
    ensures RolesKnown(w.store)
  {
  }

  /** Tables that differ only in one user's rows. */
  ghost predicate OthersSame(a: World, b: World, user: nat) {
    forall u :: u != user ==>
      && (u in b.accounts <==> u in a.accounts) && (u in a.accounts ==> b.accounts[u] == a.accounts[u])
      && (u in b.access <==> u in a.access) && (u in a.access ==> b.access[u] == a.access[u])
  }

  /** Changing one user's rows and then revoking that user's sessions leaves every session in agreement. */
  lemma ChangeKeeps(w: World, v: World, user: nat)
    requires Inv(w) && OthersSame(w, v, user) && v.store == w.store
    ensures SignOutAll(v, user).1 == Done && Inv(SignOutAll(v, user).0)
  {
    RolesAreKnown(w);
    RevokeAllIsExact(w.store, user);
    var z := SignOutAll(v, user).0;
    forall sid | sid in z.store.sessions ensures SessionAgrees(z, sid) {
      assert SessionAgrees(w, sid);
      var session := z.store.sessions[sid].value;
      forall p | p in session.permissions ensures May(z, session.slot.user, p) {
        assert May(w, session.slot.user, p);
      }
    }
  }

  // ---- signing in keeps agreement ------------------------------------------------------------

  /** Rows only ever gain permissions, and accounts are left alone. */
  ghost predicate Widened(a: World, b: World) {
    && a.accounts.Keys <= b.accounts.Keys && (forall u :: u in a.accounts ==> b.accounts[u] == a.accounts[u])
    && a.access.Keys <= b.access.Keys
    && (forall u, p :: u in a.access && Allows(a.access[u], p) ==> Allows(b.access[u], p))
  }

  lemma WideningKeeps(w: World, v: World)
    requires Inv(w) && Widened(w, v) && v.store == w.store
    ensures Inv(v)
  {
  }

  lemma LoadingKeeps(w: World, user: nat)
    ensures Inv(w) ==> Inv(LoadAccess(w, user).0)
  {
    if Inv(w) { WideningKeeps(w, LoadAccess(w, user).0); }
  }

  ghost predicate Compiled(w: World, user: nat, role: Role, permissions: seq<Permission>) {
    && KnownRole(role) && user in w.access
    && forall p :: p in permissions <==> p in RolePermissions(role) && Allows(w.access[user], p)
  }

  lemma CompileFacts(w: World, user: nat, role: Role)
    ensures var (v, permissions) := Compile(w, user, role);
      && Widened(w, v) && v.store == w.store && v.accounts == w.accounts
      && (permissions.Some? ==> Compiled(v, user, role, permissions.value))
  {
    var (v, permissions) := Compile(w, user, role);
    if permissions.Some? {
      forall p ensures p in permissions.value <==> p in RolePermissions(role) && Allows(v.access[user], p) {
        AllowedHas(RolePermissions(role), v.access[user], p);
      }
    }
  }

  /**
   * Writing a fresh session record keeps agreement exactly when the record matches the rows at that
   * moment; a record made from rows read earlier does not, if they have changed since.
   */
  lemma WriteAgreesExactly(w: World, sid: Sid, session: Session, ttl: int)
    requires Inv(w) && Writable(session, ttl) && sid !in w.store.sessions
    ensures Inv(w.(store := Replace(w.store, sid, session, ttl))) <==> Matches(w, session)
  {
    hide Coherent;
    var v := w.(store := Replace(w.store, sid, session, ttl));
    ReplaceKeepsExactly(w.store, sid, session, ttl);
    if Matches(w, session) {
      forall x | x in v.store.sessions ensures SessionAgrees(v, x) {
        if x != sid { assert SessionAgrees(w, x); }
        MatchesSame(w, v, v.store.sessions[x].value);
      }
    } else {
      MatchesSame(v, w, session);
      assert sid in v.store.sessions && !SessionAgrees(v, sid);
    }
  }

  lemma MatchesSame(w: World, v: World, session: Session)
    requires w.accounts == v.accounts && w.access == v.access
    ensures Matches(w, session) <==> Matches(v, session)
  {
  }

  lemma StoreShrinks(w: World, t: Store)
    requires Inv(w) && Coherent(t)
    requires t.sessions.Keys <= w.store.sessions.Keys
    requires forall sid :: sid in t.sessions ==>
      t.sessions[sid].value.(hash := 0) == w.store.sessions[sid].value.(hash := 0)
    ensures Inv(w.(store := t))
  {
  }

  lemma CreateSessionKeeps(w: World, user: nat, device: Device, draw: Draw, ttl: int)
    requires Inv(w) && user in w.accounts && draw.sid !in w.store.sessions
    ensures Inv(CreateSession(w, user, w.accounts[user], device, draw, ttl).0)
  {
    hide Inv, Compile, Replace, RevokeOne;
    var account := w.accounts[user];
    if account.active {
      var (v, permissions) := Compile(w, user, account.role);
      CompileFacts(w, user, account.role);
      WideningKeeps(w, v);
      if permissions.Some? {
        var record := RecordFor(v, user, account, device, permissions.value, draw.hash, ttl);
        if Writable(record, ttl) {
          WriteAgreesExactly(v, draw.sid, record, ttl);
          if !draw.recorded {
            RevokeOneKeeps(v.(store := Replace(v.store, draw.sid, record, ttl)), draw.sid);
          }
        }
      }
    }
  }

  lemma RevokeOneKeeps(w: World, sid: Sid)
    requires Inv(w)
    ensures Inv(w.(store := RevokeOne(w.store, sid)))
  {
    if sid in w.store.sessions {
      DeleteKeeps(w.store, w.store.sessions[sid].value.slot, sid);
      StoreShrinks(w, RevokeOne(w.store, sid));
    }
  }

  /** A completed sign-in leaves the session with precisely what the account may do. */
  lemma SignInIsExact(w: World, user: nat, device: Device, draw: Draw, ttl: int)
    requires SignIn(w, user, device, draw, ttl).1.SignedIn?
    ensures var z := SignIn(w, user, device, draw, ttl).0;
      && draw.sid in z.store.sessions
      && forall p :: p in z.store.sessions[draw.sid].value.permissions <==> May(z, user, p)
  {
    CompileFacts(w, user, w.accounts[user].role);
  }

  /** An account that is not active cannot sign in, and nothing is touched when it tries. */
  lemma FrozenStaysOut(w: World, user: nat, device: Device, draw: Draw, ttl: int)
    requires user in w.accounts && !w.accounts[user].active
    ensures SignIn(w, user, device, draw, ttl) == (w, Unavailable)
  {
  }

  /**
   * From a restriction on, a sign-in is let do the restricted thing exactly when the account's role includes
   * it and the restriction had an end that has come; with no end, never.
   */
  lemma RestrictedUntil(w: World, user: nat, p: Permission, expiresAt: Option<int>, to: int, device: Device, draw: Draw, ttl: int)
    requires Restrict(w, user, p, expiresAt).1 == Done
    requires var v := Restrict(w, user, p, expiresAt).0;
      SignIn(v.(store := Advance(v.store, to)), user, device, draw, ttl).1.SignedIn?
    ensures var v := Restrict(w, user, p, expiresAt).0;
      var z := SignIn(v.(store := Advance(v.store, to)), user, device, draw, ttl).0;
      && draw.sid in z.store.sessions
      && (p in z.store.sessions[draw.sid].value.permissions
          <==> p in RolePermissions(v.accounts[user].role) && expiresAt.Some? && expiresAt.value <= to)
  {
    var v := Restrict(w, user, p, expiresAt).0;
    var u := v.(store := Advance(v.store, to));
    CompileFacts(u, user, u.accounts[user].role);
    assert !Allows(v.access[user], p) && v.restrictions[(user, p)] == Restriction(true, expiresAt);
    var after := LiftedRow(u.accounts[user].role, u.access[user], u.restrictions, user, to);
    assert Allows(after, p) == Lifts(u.accounts[user].role, u.access[user], u.restrictions, user, to, p);
  }

  // ---- runs ----------------------------------------------------------------------------------

  datatype Op =
    | DoSignUp(user: nat, role: Role, device: Device, draw: Draw, ttl: int)
    | DoSignIn(user: nat, device: Device, draw: Draw, ttl: int)
    | DoSignOut(user: nat, sid: Sid)
    | DoSignOutAll(user: nat)
    | DoSetRole(user: nat, role: Role)
    | DoSetStatus(user: nat, active: bool)
    | DoPromote(user: nat)
    | DoRestrict(user: nat, p: Permission, expiresAt: Option<int>)
    | DoUnrestrict(user: nat, p: Permission)
    | DoRefresh(hash: Hash, newHash: Hash)
    | DoWait(to: int)

  function Do(w: World, op: Op): (World, Outcome) {
    match op
    case DoSignUp(user, role, device, draw, ttl) => SignUp(w, user, role, device, draw, ttl)
    case DoSignIn(user, device, draw, ttl) => SignIn(w, user, device, draw, ttl)
    case DoSignOut(user, sid) => SignOut(w, user, sid)
    case DoSignOutAll(user) => SignOutAll(w, user)
    case DoSetRole(user, role) => SetRole(w, user, role)
    case DoSetStatus(user, active) => SetStatus(w, user, active)
    case DoPromote(user) => Promote(w, user)
    case DoRestrict(user, p, expiresAt) => Restrict(w, user, p, expiresAt)
    case DoUnrestrict(user, p) => Unrestrict(w, user, p)
    case DoRefresh(hash, newHash) =>
      var (s, answer) := RefreshAlone(w.store, hash, newHash);
      (w.(store := s), if answer.Pair? then SignedIn(answer.sid) else Unavailable)
    case DoWait(to) => (w.(store := Advance(w.store, to)), Done)
  }

  /** Session ids are drawn fresh. */
  ghost predicate Possible(w: World, op: Op) {
    op.DoSignUp? || op.DoSignIn? ==> op.draw.sid !in w.store.sessions
  }

  lemma SignUpKeeps(w: World, user: nat, role: Role, device: Device, draw: Draw, ttl: int)
    requires Inv(w) && draw.sid !in w.store.sessions
    ensures Inv(SignUp(w, user, role, device, draw, ttl).0)
  {
    if user !in w.accounts {
      var v := w.(accounts := w.accounts[user := Account(role, true)], access := w.access[user := FULL_ACCESS]);
      assert Widened(w, v) by {
        forall u, p | u in w.access && Allows(w.access[u], p) ensures Allows(v.access[u], p) {
          assert Allows(FULL_ACCESS, p);
        }
      }
      WideningKeeps(w, v);
      CreateSessionKeeps(v, user, device, draw, ttl);
    }
  }

  lemma RestrictKeeps(w: World, user: nat, p: Permission, expiresAt: Option<int>)
    requires Inv(w)
    ensures Inv(Restrict(w, user, p, expiresAt).0)
  {
    hide Inv;
    if !(expiresAt.Some? && expiresAt.value <= w.store.now) && LoadAccess(w, user).1.Some? {
      var (v, row) := LoadAccess(w, user);
      ChangeKeeps(w, v.(access := v.access[user := WithFlag(row.value, p, false)],
                        restrictions := v.restrictions[(user, p) := Restriction(true, expiresAt)]), user);
    }
  }

  lemma UnrestrictKeeps(w: World, user: nat, p: Permission)
    requires Inv(w)
    ensures Inv(Unrestrict(w, user, p).0)
  {
    hide Inv;
    var (v, row) := LoadAccess(w, user);
    if row.Some? {
      ChangeKeeps(w, v.(access := v.access[user := WithFlag(row.value, p, true)],
                        restrictions := if (user, p) in v.restrictions then Lift(v.restrictions, user, p)
                                        else v.restrictions), user);
    }
  }

  lemma RefreshKeeps(w: World, hash: Hash, newHash: Hash)
    requires Inv(w)
    ensures Inv(w.(store := RefreshAlone(w.store, hash, newHash).0))
  {
    hide Coherent;
    var s := w.store;
    var t := RefreshAlone(s, hash, newHash).0;
    assert w == w.(store := s);
    if hash in s.index && Usable(s, s.index[hash].value) {
      var sid := s.index[hash].value;
      var ttl := 1000 * s.sessions[sid].value.expiresAt - s.now;
      RotateKeeps(s, sid, hash, newHash, ttl);
      match RotationOf(s, sid, hash) {
        case Rotated => StoreShrinks(w, t);
        case Replayed(other) =>
          if other in s.sessions {
            DeleteKeeps(s, s.sessions[other].value.slot, other);
            StoreShrinks(w, t);
          }
        case NotRotated =>
      }
    }
  }

  lemma DoKeeps(w: World, op: Op)
    requires Inv(w) && Possible(w, op)
    ensures Inv(Do(w, op).0)
  {
    hide Inv, CreateSession, Restrict, Unrestrict, SignUp, RefreshAlone, SignOutAll;
    match op
    case DoSignUp(user, role, device, draw, ttl) => SignUpKeeps(w, user, role, device, draw, ttl);
    case DoSignIn(user, device, draw, ttl) => if user in w.accounts { CreateSessionKeeps(w, user, device, draw, ttl); }
    case DoSignOut(user, sid) => RevokeOneKeeps(w, sid);
    case DoSignOutAll(user) => ChangeKeeps(w, w, user);
    case DoSetRole(user, role) =>
      if user in w.accounts {
        ChangeKeeps(w, w.(accounts := w.accounts[user := w.accounts[user].(role := role)]), user);
      }
    case DoSetStatus(user, active) =>
      if user in w.accounts {
        ChangeKeeps(w, w.(accounts := w.accounts[user := w.accounts[user].(active := active)]), user);
      }
    case DoPromote(user) =>
      if user in w.accounts {
        ChangeKeeps(w, w.(accounts := w.accounts[user := w.accounts[user].(role := RoleAdmin)]), user);
      }
    case DoRestrict(user, p, expiresAt) => RestrictKeeps(w, user, p, expiresAt);
    case DoUnrestrict(user, p) => UnrestrictKeeps(w, user, p);
    case DoRefresh(hash, newHash) => RefreshKeeps(w, hash, newHash);
    case DoWait(to) => ShrinkByTime(w, to);
  }

  lemma ShrinkByTime(w: World, to: int)
    requires Inv(w)
    ensures Inv(w.(store := Advance(w.store, to)))
  {
  }

  ghost predicate Legal(w: World, ops: seq<Op>)
    decreases |ops|
  {
    ops == [] || (Possible(w, ops[0]) && Legal(Do(w, ops[0]).0, ops[1..]))
  }

  ghost function Run(w: World, ops: seq<Op>): World
    decreases |ops|
  {
    if ops == [] then w else Run(Do(w, ops[0]).0, ops[1..])
  }

  lemma {:induction false} AgreementInRuns(w: World, ops: seq<Op>)
    requires Inv(w) && Legal(w, ops)
    ensures Inv(Run(w, ops))
    decreases |ops|
  {
    if ops != [] {
      DoKeeps(w, ops[0]);
      AgreementInRuns(Do(w, ops[0]).0, ops[1..]);
    }
  }

  /** In every run of completed operations, whoever is let in is who the tables say, and may do no more. */
  lemma ServedAsTheTablesSay(start: int, accounts: map<nat, Account>, access: map<nat, AccessRow>,
                             restrictions: map<RestrictionKey, Restriction>, ops: seq<Op>, user: nat, sid: Sid)
    requires var w := World(accounts, access, restrictions, Store(start, map[], map[], map[], map[])); Legal(w, ops)
    requires var w := World(accounts, access, restrictions, Store(start, map[], map[], map[], map[]));
      Authenticate(Run(w, ops).store, user, sid).Some?
    ensures var w := World(accounts, access, restrictions, Store(start, map[], map[], map[], map[]));
      var z := Run(w, ops);
      var who := Authenticate(z.store, user, sid).value;
      && user in z.accounts && z.accounts[user] == Account(who.role, true)
      && forall p :: p in who.permissions ==> May(z, user, p)
  {
    var w := World(accounts, access, restrictions, Store(start, map[], map[], map[], map[]));
    AgreementInRuns(w, ops);
    IdentityIsCorrect(Run(w, ops), user, sid);
  }

  /** No access token of the user is accepted. */
  ghost predicate ShutOut(s: Store, user: nat) {
    forall sid :: Authenticate(s, user, sid) == None
  }

  /** The operations that revoke the sessions of their user when they succeed. */
  predicate Revokes(w: World, op: Op) {
    match op
    case DoSetRole(_, _) => true
    case DoSetStatus(_, _) => true
    case DoRestrict(_, _, _) => true
    case DoUnrestrict(_, _) => true
    case DoSignOutAll(_) => true
    case DoPromote(user) => user in w.accounts && w.accounts[user].role != RoleAdmin
    case _ => false
  }

  lemma RevokesAll(w: World, op: Op)
    requires Inv(w) && Revokes(w, op) && Do(w, op).1 == Done
    ensures ShutOut(Do(w, op).0.store, op.user)
  {
    hide Coherent;
    RolesAreKnown(w);
    RevokeAllIsExact(w.store, op.user);
  }

  /** What a caller gets from an operation: agreement again, and the user shut out where it revokes. */
  lemma OperationIsGood(w: World, op: Op)
    ensures Inv(w) && Possible(w, op) ==> Inv(Do(w, op).0)
    ensures Inv(w) && Revokes(w, op) && Do(w, op).1 == Done ==> ShutOut(Do(w, op).0.store, op.user)
  {
    hide Inv, Do, Possible, ShutOut;
    if Inv(w) && Possible(w, op) { DoKeeps(w, op); }
    if Inv(w) && Revokes(w, op) && Do(w, op).1 == Done { RevokesAll(w, op); }
  }

  /** The operations that change an account. */
  predicate Changes(op: Op) {
    op.DoSetRole? || op.DoSetStatus? || op.DoPromote? || op.DoSignOutAll? || op.DoRestrict? || op.DoUnrestrict?
  }

  /** There is neither an account nor an access row to work on, and the request was not refused before. */
  predicate Rowless(w: World, op: Op) {
    && (op.DoRestrict? || op.DoUnrestrict?) && op.user !in w.accounts && op.user !in w.access
    && !(op.DoRestrict? && op.expiresAt.Some? && op.expiresAt.value <= w.store.now)
  }

  /** No change ever stops half way, with the rows changed and a session left: one fails only for want of rows, with nothing changed. */
  lemma ChangesComplete(w: World, op: Op)
    requires Inv(w) && Changes(op)
    ensures Do(w, op).1 == Failed <==> Rowless(w, op)
    ensures Do(w, op).1 == Failed ==> Do(w, op).0 == w
  {
    hide Coherent;
    RolesAreKnown(w);
    RevokeAllIsExact(w.store, op.user);
  }
}
