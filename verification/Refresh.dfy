/**
 * Refreshing a token, as several calls at once: each reads the index, reads the session, works out the
 * time left, runs the rotation script and, on a replay, revokes the session, one step at a time, while
 * sign-ins, sign-outs and the clock go on in between.
 */
module Refresh {
  import opened Words
  import opened SessionStore

  datatype Call =
    | Indexed(hash: Hash, knew: bool, sid: Sid)
    | Checked(hash: Hash, knew: bool, sid: Sid, expiresAt: int)
    | Timed(hash: Hash, knew: bool, sid: Sid, expiresAt: int, ttl: int)
    | Revoking(hash: Hash, knew: bool, sid: Sid)
    | Deleting(hash: Hash, knew: bool, sid: Sid, slot: Slot)
    | Granted(hash: Hash, knew: bool, sid: Sid, newHash: Hash)
    | Refused(hash: Hash, knew: bool)
    | Revoked(hash: Hash, knew: bool, sid: Sid)
    | Broken(hash: Hash, knew: bool)

  /**
   * The store, the calls under way or done, and what has happened so far: the expiry of every session
   * ever opened, the session every refresh hash was issued for, and the hashes that have been rotated.
   * A call remembers in `knew` whether its hash had already been rotated when it was presented.
   */
  datatype Sys = Sys(store: Store, expiry: map<Sid, int>, family: map<Hash, Sid>, rotated: set<Hash>,
                     calls: map<nat, Call>)

  datatype Step =
    | Login(sid: Sid, session: Session, ttl: int)
    | Logout(slot: Slot, sid: Sid)
    | Tick(to: int)
    | Present(call: nat, hash: Hash)
    | Check(call: nat)
    | Time(call: nat)
    | Turn(call: nat, newHash: Hash)
    | Look(call: nat)
    | Delete(call: nat)

  predicate KnownRole(role: Role) {
    !role.RoleOther?
  }

  /** A session that a request may still use. */
  predicate Usable(s: Store, sid: Sid) {
    sid in s.sessions && s.now < 1000 * s.sessions[sid].value.expiresAt && KnownRole(s.sessions[sid].value.role)
  }

  // ---- the steps -----------------------------------------------------------------------------

  ghost predicate Enabled(y: Sys, step: Step) {
    match step
    case Login(sid, session, ttl) =>
      && sid !in y.expiry && session.hash !in y.family
      && Writable(session, ttl) && KnownRole(session.role)
      && 1000 * session.expiresAt <= y.store.now + ttl
    case Logout(slot, sid) => true
    case Tick(to) => y.store.now <= to
    case Present(c, hash) => c !in y.calls
    case Check(c) => c in y.calls && y.calls[c].Indexed?
    case Time(c) => c in y.calls && y.calls[c].Checked?
    case Turn(c, newHash) => c in y.calls && y.calls[c].Timed? && newHash !in y.family
    case Look(c) => c in y.calls && y.calls[c].Revoking?
    case Delete(c) => c in y.calls && y.calls[c].Deleting?
  }

  ghost function Next(y: Sys, step: Step): Sys
    requires Enabled(y, step)
  {
    match step
    case Login(sid, session, ttl) =>
      y.(store := Replace(y.store, sid, session, ttl),
         expiry := y.expiry[sid := session.expiresAt],
         family := y.family[session.hash := sid])
    case Logout(slot, sid) => y.(store := DeleteIfCurrent(y.store, slot, sid))
    case Tick(to) => y.(store := Advance(y.store, to))
    case Present(c, hash) => Set(y, c, Presented(y, hash))
    case Check(c) => Set(y, c, AfterCheck(y.store, y.calls[c]))
    case Time(c) => Set(y, c, AfterTime(y.store, y.calls[c]))
    case Turn(c, newHash) => Set(Turned(y, y.calls[c], newHash), c, AfterTurn(y.store, y.calls[c], newHash))
    case Look(c) => Set(y, c, AfterLook(y.store, y.calls[c]))
    case Delete(c) =>
      var d := y.calls[c];
      Set(y.(store := DeleteIfCurrent(y.store, d.slot, d.sid)), c, Revoked(d.hash, d.knew, d.sid))
  }

  ghost function Set(y: Sys, c: nat, call: Call): Sys {
    y.(calls := y.calls[c := call])
  }

  ghost function Presented(y: Sys, hash: Hash): Call {
    var knew := hash in y.rotated;
    if hash in y.store.index then Indexed(hash, knew, y.store.index[hash].value) else Refused(hash, knew)
  }

  function AfterCheck(s: Store, c: Call): Call
    requires c.Indexed?
  {
    if Usable(s, c.sid) then Checked(c.hash, c.knew, c.sid, s.sessions[c.sid].value.expiresAt)
    else Refused(c.hash, c.knew)
  }

  function AfterTime(s: Store, c: Call): Call
    requires c.Checked?
  {
    var ttl := 1000 * c.expiresAt - s.now;
    if ttl <= 0 then Refused(c.hash, c.knew) else Timed(c.hash, c.knew, c.sid, c.expiresAt, ttl)
  }

  ghost function Turned(y: Sys, c: Call, newHash: Hash): Sys
    requires c.Timed?
  {
    if RotationOf(y.store, c.sid, c.hash).Rotated? then
      y.(store := Rotate(y.store, c.sid, c.hash, newHash, c.ttl),
         family := y.family[newHash := c.sid],
         rotated := y.rotated + {c.hash})
    else y
  }

  function AfterTurn(s: Store, c: Call, newHash: Hash): Call
    requires c.Timed?
  {
    match RotationOf(s, c.sid, c.hash)
    case Rotated => Granted(c.hash, c.knew, c.sid, newHash)
    case Replayed(sid) => Revoking(c.hash, c.knew, sid)
    case NotRotated => Refused(c.hash, c.knew)
  }

  function AfterLook(s: Store, c: Call): Call
    requires c.Revoking?
  {
    if c.sid !in s.sessions then Revoked(c.hash, c.knew, c.sid)
    else if s.sessions[c.sid].value.slot.user == 0 then Broken(c.hash, c.knew)
    else Deleting(c.hash, c.knew, c.sid, s.sessions[c.sid].value.slot)
  }

  // ---- the invariant -------------------------------------------------------------------------

  /** A session that has been deleted or has run out. */
  ghost predicate Dead(y: Sys, sid: Sid) {
    sid in y.expiry && (sid !in y.store.sessions || 1000 * y.expiry[sid] <= y.store.now)
  }

  ghost predicate SessionFits(y: Sys, sid: Sid) {
    && sid in y.expiry && sid in y.store.sessions
    && var e := y.store.sessions[sid];
    && e.value.expiresAt == y.expiry[sid]
    && 1000 * e.value.expiresAt <= e.deadline
    && e.value.slot.user != 0 && KnownRole(e.value.role)
    && e.value.hash in y.family && y.family[e.value.hash] == sid && e.value.hash !in y.rotated
  }

  /** The key is there and outlives the session. */
  ghost predicate Held(m: map<Hash, Entry<Sid>>, hash: Hash, sid: Sid, until: int) {
    hash in m && m[hash].value == sid && until <= m[hash].deadline
  }

  /** While a session lives, every hash of its family is indexed and every rotated one is marked. */
  ghost predicate HashFits(y: Sys, hash: Hash) {
    && hash in y.family && y.family[hash] in y.expiry
    && var sid := y.family[hash];
    && (!Dead(y, sid) ==> Held(y.store.index, hash, sid, 1000 * y.expiry[sid]))
    && (!Dead(y, sid) && hash in y.rotated ==> Held(y.store.replay, hash, sid, 1000 * y.expiry[sid]))
  }

  ghost predicate MarkFits(y: Sys, hash: Hash) {
    && (hash in y.store.index ==> hash in y.family && y.store.index[hash].value == y.family[hash])
    && (hash in y.store.replay ==> hash in y.family && hash in y.rotated && y.store.replay[hash].value == y.family[hash])
    && (hash in y.rotated ==> hash in y.family)
  }

  ghost predicate Belongs(y: Sys, c: Call, sid: Sid) {
    c.hash in y.family && y.family[c.hash] == sid && sid in y.expiry
  }

  ghost predicate CallFits(y: Sys, c: Call) {
    && (c.knew ==> c.hash in y.rotated && c.hash in y.family)
    && match c
       case Indexed(hash, knew, sid) => Belongs(y, c, sid)
       case Checked(hash, knew, sid, expiresAt) => Belongs(y, c, sid) && expiresAt == y.expiry[sid]
       case Timed(hash, knew, sid, expiresAt, ttl) => Belongs(y, c, sid) && 1000 * y.expiry[sid] <= y.store.now + ttl
       case Revoking(hash, knew, sid) => Belongs(y, c, sid) && hash in y.rotated
       case Deleting(hash, knew, sid, slot) =>
         && Belongs(y, c, sid) && hash in y.rotated
         && (sid in y.store.sessions ==> y.store.sessions[sid].value.slot == slot)
       case Granted(hash, knew, sid, newHash) =>
         && Belongs(y, c, sid) && hash in y.rotated && !knew && newHash in y.family && y.family[newHash] == sid
       case Refused(hash, knew) => knew ==> Dead(y, y.family[hash])
       case Revoked(hash, knew, sid) => Belongs(y, c, sid) && hash in y.rotated && sid !in y.store.sessions
       case Broken(hash, knew) => false
  }

  ghost predicate Won(y: Sys, c: nat) {
    c in y.calls && y.calls[c].Granted?
  }

  /** No two calls have rotated the same hash. */
  ghost predicate OneWinner(y: Sys) {
    forall a, b :: Won(y, a) && Won(y, b) && y.calls[a].hash == y.calls[b].hash ==> a == b
  }

  ghost predicate Inv(y: Sys) {
    && Coherent(y.store)
    && (forall sid :: sid in y.store.sessions ==> SessionFits(y, sid))
    && (forall hash :: hash in y.family ==> HashFits(y, hash))
    && (forall hash :: MarkFits(y, hash))
    && (forall c :: c in y.calls ==> CallFits(y, y.calls[c]))
    && OneWinner(y)
  }

  function Fresh(start: int): Sys {
    Sys(Store(start, map[], map[], map[], map[]), map[], map[], {}, map[])
  }

  lemma FreshHolds(start: int)
    ensures Inv(Fresh(start))
  {
  }

  // ---- every step keeps it -------------------------------------------------------------------

  /** What a later state owes to an earlier one. */
  ghost predicate Grows(a: Sys, b: Sys) {
    && a.store.now <= b.store.now
    && a.rotated <= b.rotated
    && a.expiry.Keys <= b.expiry.Keys && (forall sid :: sid in a.expiry ==> b.expiry[sid] == a.expiry[sid])
    && a.family.Keys <= b.family.Keys && (forall h :: h in a.family ==> b.family[h] == a.family[h])
    && (forall sid :: sid in a.expiry && sid in b.store.sessions ==> SameSession(a.store, b.store, sid))
  }

  ghost predicate SameSession(a: Store, b: Store, sid: Sid) {
    sid in a.sessions && sid in b.sessions && a.sessions[sid].value.slot == b.sessions[sid].value.slot
  }

  lemma CallStays(a: Sys, b: Sys, c: Call)
    requires Grows(a, b) && CallFits(a, c)
    ensures CallFits(b, c)
  {
  }

  lemma StepGrows(y: Sys, step: Step)
    requires Inv(y) && Enabled(y, step)
    ensures Grows(y, Next(y, step))
  {
    var z := Next(y, step);
    forall sid | sid in y.expiry && sid in z.store.sessions ensures SameSession(y.store, z.store, sid) {
    }
  }

  /** The calls of the next state fit, if the one that moved does. */
  lemma CallsStay(y: Sys, z: Sys, c: nat)
    requires forall x :: x in y.calls ==> CallFits(y, y.calls[x])
    requires Grows(y, z)
    requires c in z.calls && z.calls == y.calls[c := z.calls[c]] && CallFits(z, z.calls[c])
    ensures forall x :: x in z.calls ==> CallFits(z, z.calls[x])
  {
  }

  lemma LoginKeeps(y: Sys, sid: Sid, session: Session, ttl: int)
    requires Inv(y) && Enabled(y, Login(sid, session, ttl))
    ensures Inv(Next(y, Login(sid, session, ttl)))
  {
    hide CallFits, HashFits, MarkFits, Coherent;
    var z := Next(y, Login(sid, session, ttl));
    StepGrows(y, Login(sid, session, ttl));
    assert sid !in y.store.sessions;
    ReplaceKeepsExactly(y.store, sid, session, ttl);
    Issued(y, z, sid, session, ttl);
    forall c | c in z.calls ensures CallFits(z, z.calls[c]) { CallStays(y, z, y.calls[c]); }
  }

  lemma Issued(y: Sys, z: Sys, sid: Sid, session: Session, ttl: int)
    requires Enabled(y, Login(sid, session, ttl)) && z == Next(y, Login(sid, session, ttl))
    requires forall x :: x in y.store.sessions ==> SessionFits(y, x)
    requires forall hash :: hash in y.family ==> HashFits(y, hash)
    requires forall hash :: MarkFits(y, hash)
    ensures forall x :: x in z.store.sessions ==> SessionFits(z, x)
    ensures forall hash :: hash in z.family ==> HashFits(z, hash)
    ensures forall hash :: MarkFits(z, hash)
  {
    hide CallFits, Coherent;
    assert MarkFits(y, session.hash);
    forall x | x in z.store.sessions ensures SessionFits(z, x) { if x != sid { assert SessionFits(y, x); } }
    forall h | h in z.family ensures HashFits(z, h) { if h != session.hash { assert HashFits(y, h); } }
    forall h ensures MarkFits(z, h) { assert MarkFits(y, h); }
  }

  lemma LogoutKeeps(y: Sys, slot: Slot, sid: Sid)
    requires Inv(y)
    ensures Inv(Next(y, Logout(slot, sid)))
  {
    hide CallFits, Coherent;
    var z := Next(y, Logout(slot, sid));
    StepGrows(y, Logout(slot, sid));
    DeleteKeeps(y.store, slot, sid);
    forall x | x in z.store.sessions ensures SessionFits(z, x) { assert SessionFits(y, x); }
    forall h | h in z.family ensures HashFits(z, h) { assert HashFits(y, h); }
    forall h ensures MarkFits(z, h) { assert MarkFits(y, h); }
    forall c | c in z.calls ensures CallFits(z, z.calls[c]) { CallStays(y, z, y.calls[c]); }
  }

  lemma TickKeeps(y: Sys, to: int)
    requires Inv(y) && Enabled(y, Tick(to))
    ensures Inv(Next(y, Tick(to)))
  {
    hide CallFits, Coherent;
    var z := Next(y, Tick(to));
    StepGrows(y, Tick(to));
    AdvanceKeeps(y.store, to);
    forall x | x in z.store.sessions ensures SessionFits(z, x) { assert SessionFits(y, x); }
    forall h | h in z.family ensures HashFits(z, h) { assert HashFits(y, h); }
    forall h ensures MarkFits(z, h) { assert MarkFits(y, h); }
    forall c | c in z.calls ensures CallFits(z, z.calls[c]) { CallStays(y, z, y.calls[c]); }
  }

  /** Steps that only move a call on. */
  lemma MoveKeeps(y: Sys, c: nat, call: Call)
    requires Inv(y) && CallFits(y, call) && !call.Granted?
    ensures Inv(Set(y, c, call))
  {
    hide CallFits;
    var z := Set(y, c, call);
    forall x | x in z.store.sessions ensures SessionFits(z, x) { assert SessionFits(y, x); }
    forall h | h in z.family ensures HashFits(z, h) { assert HashFits(y, h); }
    forall h ensures MarkFits(z, h) { assert MarkFits(y, h); }
    forall x | x in z.calls ensures CallFits(z, z.calls[x]) {
      var k := if x == c then call else y.calls[x];
      CallStays(y, z, k);
    }
  }

  lemma DeleteStepKeeps(y: Sys, c: nat)
    requires Inv(y) && Enabled(y, Delete(c))
    ensures Inv(Next(y, Delete(c)))
  {
    var d := y.calls[c];
    var z := Next(y, Logout(d.slot, d.sid));
    LogoutKeeps(y, d.slot, d.sid);
    assert CallFits(y, d);
    DeleteIsExact(y.store, d.slot, d.sid);
    assert CallFits(z, Revoked(d.hash, d.knew, d.sid));
    MoveKeeps(z, c, Revoked(d.hash, d.knew, d.sid));
  }

  lemma TurnKeeps(y: Sys, c: nat, newHash: Hash)
    requires Inv(y) && Enabled(y, Turn(c, newHash))
    ensures Inv(Next(y, Turn(c, newHash)))
  {
    var d := y.calls[c];
    assert CallFits(y, d);
    assert MarkFits(y, d.hash) && HashFits(y, d.hash);
    match RotationOf(y.store, d.sid, d.hash) {
      case Rotated => RotatedKeeps(y, c, newHash);
      case Replayed(sid) => MoveKeeps(y, c, AfterTurn(y.store, d, newHash));
      case NotRotated => MoveKeeps(y, c, AfterTurn(y.store, d, newHash));
    }
  }

  lemma RotatedKeeps(y: Sys, c: nat, newHash: Hash)
    requires Inv(y) && Enabled(y, Turn(c, newHash))
    requires RotationOf(y.store, y.calls[c].sid, y.calls[c].hash).Rotated?
    ensures Inv(Next(y, Turn(c, newHash)))
  {
    hide Coherent, MarkFits;
    var d := y.calls[c];
    var z := Next(y, Turn(c, newHash));
    StepGrows(y, Turn(c, newHash));
    assert CallFits(y, d) && SessionFits(y, d.sid);
    RotateKeeps(y.store, d.sid, d.hash, newHash, d.ttl);
    Rehashed(y, z, d, newHash);
    assert CallFits(z, z.calls[c]);
    CallsStay(y, z, c);
    forall x | x in y.calls && y.calls[x].Granted? ensures y.calls[x].hash != d.hash { assert CallFits(y, y.calls[x]); }
  }

  lemma Rehashed(y: Sys, z: Sys, d: Call, newHash: Hash)
    requires d.Timed? && RotationOf(y.store, d.sid, d.hash).Rotated? && newHash !in y.family
    requires forall sid :: sid in y.store.sessions ==> SessionFits(y, sid)
    requires forall hash :: hash in y.family ==> HashFits(y, hash)
    requires forall hash :: MarkFits(y, hash)
    requires CallFits(y, d)
    requires z == Turned(y, d, newHash).(calls := z.calls)
    ensures forall sid :: sid in z.store.sessions ==> SessionFits(z, sid)
    ensures forall hash :: hash in z.family ==> HashFits(z, hash)
    ensures forall hash :: MarkFits(z, hash)
  {
    assert MarkFits(y, newHash) && SessionFits(y, d.sid);
    forall x | x in z.store.sessions ensures SessionFits(z, x) { assert SessionFits(y, x); }
    forall h | h in z.family ensures HashFits(z, h) { if h != newHash { assert HashFits(y, h); } }
    forall h ensures MarkFits(z, h) { assert MarkFits(y, h); }
  }

  lemma StepKeeps(y: Sys, step: Step)
    requires Inv(y) && Enabled(y, step)
    ensures Inv(Next(y, step))
  {
    match step
    case Login(sid, session, ttl) => LoginKeeps(y, sid, session, ttl);
    case Logout(slot, sid) => LogoutKeeps(y, slot, sid);
    case Tick(to) => TickKeeps(y, to);
    case Present(c, hash) =>
      assert MarkFits(y, hash);
      if hash in y.family { assert HashFits(y, hash); }
      MoveKeeps(y, c, Presented(y, hash));
    case Check(c) => CheckFits(y, y.calls[c]); MoveKeeps(y, c, AfterCheck(y.store, y.calls[c]));
    case Time(c) => assert CallFits(y, y.calls[c]); MoveKeeps(y, c, AfterTime(y.store, y.calls[c]));
    case Turn(c, newHash) => TurnKeeps(y, c, newHash);
    case Look(c) => CheckFits(y, y.calls[c]); MoveKeeps(y, c, AfterLook(y.store, y.calls[c]));
    case Delete(c) => DeleteStepKeeps(y, c);
  }

  lemma CheckFits(y: Sys, c: Call)
    requires Inv(y) && CallFits(y, c) && (c.Indexed? || c.Revoking?)
    ensures CallFits(y, if c.Indexed? then AfterCheck(y.store, c) else AfterLook(y.store, c))
  {
  }

  // ---- runs ----------------------------------------------------------------------------------

  ghost predicate Legal(y: Sys, steps: seq<Step>)
    decreases |steps|
  {
    steps == [] || (Enabled(y, steps[0]) && Legal(Next(y, steps[0]), steps[1..]))
  }

  ghost function Run(y: Sys, steps: seq<Step>): Sys
    requires Legal(y, steps)
    decreases |steps|
  {
    if steps == [] then y else Run(Next(y, steps[0]), steps[1..])
  }

  lemma GrowsRefl(y: Sys)
    requires Inv(y)
    ensures Grows(y, y)
  {
  }

  lemma GrowsTrans(a: Sys, b: Sys, c: Sys)
    requires Grows(a, b) && Grows(b, c)
    ensures Grows(a, c)
  {
  }

  lemma {:induction false} RunKeeps(y: Sys, steps: seq<Step>)
    requires Inv(y) && Legal(y, steps)
    ensures Inv(Run(y, steps)) && Grows(y, Run(y, steps))
    decreases |steps|
  {
    hide Inv, Grows, Enabled, Next;
    if steps == [] {
      GrowsRefl(y);
    } else {
      StepKeeps(y, steps[0]);
      StepGrows(y, steps[0]);
      RunKeeps(Next(y, steps[0]), steps[1..]);
      GrowsTrans(y, Next(y, steps[0]), Run(y, steps));
    }
  }

  /** Whatever happens, a refresh hash is rotated at most once. */
  lemma RotatesOnce(start: int, steps: seq<Step>, a: nat, b: nat)
    requires Legal(Fresh(start), steps)
    requires var z := Run(Fresh(start), steps);
      && a in z.calls && b in z.calls && z.calls[a].Granted? && z.calls[b].Granted?
      && z.calls[a].hash == z.calls[b].hash
    ensures a == b
  {
    FreshHolds(start);
    RunKeeps(Fresh(start), steps);
  }

  predicate Ended(c: Call) {
    c.Granted? || c.Refused? || c.Revoked? || c.Broken?
  }

  /**
   * A call that presents a hash already rotated never gets a token, and when it has ended the
   * session of that hash is over.
   */
  lemma ReplayEndsTheSession(start: int, steps: seq<Step>, c: nat)
    requires Legal(Fresh(start), steps)
    requires var z := Run(Fresh(start), steps); c in z.calls && z.calls[c].knew && Ended(z.calls[c])
    ensures var z := Run(Fresh(start), steps);
      && !z.calls[c].Granted?
      && z.calls[c].hash in z.family
      && Dead(z, z.family[z.calls[c].hash])
      && !Usable(z.store, z.family[z.calls[c].hash])
  {
    FreshHolds(start);
    RunKeeps(Fresh(start), steps);
    var z := Run(Fresh(start), steps);
    assert CallFits(z, z.calls[c]);
    var sid := z.family[z.calls[c].hash];
    if sid in z.store.sessions { assert SessionFits(z, sid); }
  }

  /** The script having seen a replay, the session is deleted outright by the time the call ends. */
  lemma RevokedMeansDeleted(start: int, steps: seq<Step>, c: nat)
    requires Legal(Fresh(start), steps)
    requires var z := Run(Fresh(start), steps); c in z.calls && (z.calls[c].Revoked? || z.calls[c].Broken?)
    ensures var z := Run(Fresh(start), steps); z.calls[c].Revoked? && z.calls[c].sid !in z.store.sessions
  {
    FreshHolds(start);
    RunKeeps(Fresh(start), steps);
    var z := Run(Fresh(start), steps);
    assert CallFits(z, z.calls[c]);
  }

  /** A session that is over stays over: no access token of it is accepted again. */
  lemma DeadForever(y: Sys, steps: seq<Step>, sid: Sid)
    requires Inv(y) && Legal(y, steps) && Dead(y, sid)
    ensures var z := Run(y, steps); Dead(z, sid) && !Usable(z.store, sid)
  {
    RunKeeps(y, steps);
    var z := Run(y, steps);
    if sid in z.store.sessions { assert SessionFits(z, sid) && SameSession(y.store, z.store, sid); }
  }

  lemma GoneStays(y: Sys, step: Step, sid: Sid)
    requires Inv(y) && Enabled(y, step) && sid in y.expiry && sid !in y.store.sessions
    ensures sid in Next(y, step).expiry && sid !in Next(y, step).store.sessions
  {
    StepGrows(y, step);
  }

  /** And once it is deleted, no hash of its family, old or new, is rotated again. */
  lemma {:induction false} NoRefreshAfter(y: Sys, steps: seq<Step>, sid: Sid, c: nat)
    requires Inv(y) && Legal(y, steps)
    requires sid in y.expiry && sid !in y.store.sessions
    requires var z := Run(y, steps); c in z.calls && z.calls[c].Granted? && z.calls[c].sid == sid
    ensures c in y.calls && y.calls[c] == Run(y, steps).calls[c]
    decreases |steps|
  {
    hide Inv, Grows, Coherent;
    if steps != [] {
      var z := Next(y, steps[0]);
      StepKeeps(y, steps[0]);
      GoneStays(y, steps[0], sid);
      NoRefreshAfter(z, steps[1..], sid, c);
    }
  }

  // ---- a call on its own ---------------------------------------------------------------------

  datatype Answer = Pair(sid: Sid) | InvalidRefresh

  /** A refresh with nothing in between. */
  function RefreshAlone(s: Store, hash: Hash, newHash: Hash): (Store, Answer) {
    if hash !in s.index then (s, InvalidRefresh)
    else
      var sid := s.index[hash].value;
      if !Usable(s, sid) then (s, InvalidRefresh)
      else
        var ttl := 1000 * s.sessions[sid].value.expiresAt - s.now;
        match RotationOf(s, sid, hash)
        case Rotated => (Rotate(s, sid, hash, newHash, ttl), Pair(sid))
        case Replayed(other) =>
          (if other in s.sessions && s.sessions[other].value.slot.user != 0
           then DeleteIfCurrent(s, s.sessions[other].value.slot, other) else s,
           InvalidRefresh)
        case NotRotated => (s, InvalidRefresh)
  }

  /** What is left of a call, with nothing in between. */
  function Rest(s: Store, c: Call, newHash: Hash): (Store, Answer)
    decreases StepsLeft(c)
  {
    match c
    case Indexed(_, _, _) => Rest(s, AfterCheck(s, c), newHash)
    case Checked(_, _, _, _) => Rest(s, AfterTime(s, c), newHash)
    case Timed(hash, _, sid, _, ttl) => Rest(Rotate(s, sid, hash, newHash, ttl), AfterTurn(s, c, newHash), newHash)
    case Revoking(_, _, _) => Rest(s, AfterLook(s, c), newHash)
    case Deleting(_, _, sid, slot) => (DeleteIfCurrent(s, slot, sid), InvalidRefresh)
    case Granted(_, _, sid, _) => (s, Pair(sid))
    case _ => (s, InvalidRefresh)
  }

  function StepsLeft(c: Call): nat {
    match c
    case Indexed(_, _, _) => 5
    case Checked(_, _, _, _) => 4
    case Timed(_, _, _, _, _) => 3
    case Revoking(_, _, _) => 2
    case Deleting(_, _, _, _) => 1
    case _ => 0
  }

  function StepOf(call: Call, c: nat, newHash: Hash): Step
    requires !Ended(call)
  {
    match call
    case Indexed(_, _, _) => Check(c)
    case Checked(_, _, _, _) => Time(c)
    case Timed(_, _, _, _, _) => Turn(c, newHash)
    case Revoking(_, _, _) => Look(c)
    case Deleting(_, _, _, _) => Delete(c)
  }

  /** The steps left to a call, taken in a row, bring it to its end. */
  lemma {:induction false} StepsFinish(y: Sys, c: nat, newHash: Hash) returns (steps: seq<Step>)
    requires c in y.calls && newHash !in y.family
    ensures Legal(y, steps)
    ensures var z := Run(y, steps);
      && z.store == Rest(y.store, y.calls[c], newHash).0
      && c in z.calls && Ended(z.calls[c])
      && Rest(y.store, y.calls[c], newHash).1
         == (if z.calls[c].Granted? then Pair(z.calls[c].sid) else InvalidRefresh)
    decreases StepsLeft(y.calls[c])
  {
    if Ended(y.calls[c]) {
      steps := [];
    } else {
      var step := StepOf(y.calls[c], c, newHash);
      if step.Delete? {
        steps := [step];
      } else if step.Turn? && RotationOf(y.store, y.calls[c].sid, y.calls[c].hash).Rotated? {
        steps := [step];
      } else {
        var rest := StepsFinish(Next(y, step), c, newHash);
        steps := [step] + rest;
        assert steps[1..] == rest;
      }
    }
  }

  /** The five steps of a call taken in a row are the call on its own. */
  lemma AloneIsTheSteps(y: Sys, hash: Hash, newHash: Hash)
    ensures RefreshAlone(y.store, hash, newHash) == Rest(y.store, Presented(y, hash), newHash)
  {
    var s := y.store;
    if hash in s.index && Usable(s, s.index[hash].value) {
      var checked := AfterCheck(s, Presented(y, hash));
      assert checked.Checked?;
      var timed := AfterTime(s, checked);
      assert timed.Timed?;
      var turned := AfterTurn(s, timed, newHash);
      assert Rest(s, checked, newHash) == Rest(s, timed, newHash);
      var t := Rotate(s, timed.sid, hash, newHash, timed.ttl);
      assert Rest(s, timed, newHash) == Rest(t, turned, newHash);
      if turned.Revoking? {
        assert Rest(t, turned, newHash) == Rest(t, AfterLook(t, turned), newHash);
      }
    }
  }

  /** Replaying a rotated hash of a live session takes exactly that session away. */
  lemma ReplayAlone(y: Sys, hash: Hash, newHash: Hash)
    requires Inv(y) && hash in y.rotated && hash in y.family && Usable(y.store, y.family[hash])
    ensures var (t, a) := RefreshAlone(y.store, hash, newHash);
      && a == InvalidRefresh
      && t.sessions == y.store.sessions - {y.family[hash]}
  {
    var sid := y.family[hash];
    assert MarkFits(y, hash) && HashFits(y, hash) && SessionFits(y, sid);
    SlotIffSession(y.store, y.store.sessions[sid].value.slot, sid);
  }

  /** The current hash of a live session is always good for one rotation. */
  lemma CurrentAlone(y: Sys, sid: Sid, newHash: Hash)
    requires Inv(y) && Usable(y.store, sid)
    ensures RefreshAlone(y.store, y.store.sessions[sid].value.hash, newHash).1 == Pair(sid)
  {
  }
}
