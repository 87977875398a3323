/** The session keys kept in Redis: device slots, session hashes, refresh indexes and replay marks. */
module SessionStore {
  import opened Words

  datatype Role = RoleUser | RoleSupport | RoleAdmin | RoleOther(name: string)
  datatype Permission = Buy | Chat | Sell | HandleTicket | ManageUser | ManageSystem
  datatype Device = PC | Mobile

  /** Session ids and refresh hashes, as the random sources hand them out. */
  type Sid = nat
  type Hash = nat

  datatype Slot = Slot(user: nat, device: Device)
  datatype Session = Session(slot: Slot, role: Role, permissions: seq<Permission>, hash: Hash, expiresAt: int)

  /** A key with its time to live, as the moment in milliseconds at which it vanishes. */
  datatype Entry<T> = Entry(value: T, deadline: int)

  datatype Store = Store(
    now: int,
    slots: map<Slot, Entry<Sid>>,
    sessions: map<Sid, Entry<Session>>,
    index: map<Hash, Entry<Sid>>,
    replay: map<Hash, Entry<Sid>>)

  datatype Rotation = Rotated | Replayed(sid: Sid) | NotRotated

  // ---- the scripts ---------------------------------------------------------------------------

  /** A record the adapter sends to the server at all. */
  predicate Writable(session: Session, ttl: int) {
    ttl > 0 && session.slot.user != 0 && session.expiresAt > 0
  }

  function Replace(s: Store, sid: Sid, session: Session, ttl: int): Store {
    if !Writable(session, ttl) then s
    else
      var others := if session.slot in s.slots then s.sessions - {s.slots[session.slot].value} else s.sessions;
      s.(sessions := others[sid := Entry(session, s.now + ttl)],
         slots := s.slots[session.slot := Entry(sid, s.now + ttl)],
         index := s.index[session.hash := Entry(sid, s.now + ttl)])
  }

  predicate Current(s: Store, slot: Slot, sid: Sid) {
    slot in s.slots && s.slots[slot].value == sid
  }

  function DeleteIfCurrent(s: Store, slot: Slot, sid: Sid): Store {
    if Current(s, slot, sid) then s.(slots := s.slots - {slot}, sessions := s.sessions - {sid}) else s
  }

  function RotationOf(s: Store, sid: Sid, hash: Hash): Rotation {
    if sid in s.sessions && s.sessions[sid].value.hash == hash then Rotated
    else if hash in s.replay then Replayed(s.replay[hash].value)
    else NotRotated
  }

  function Rotate(s: Store, sid: Sid, hash: Hash, newHash: Hash, ttl: int): Store {
    if RotationOf(s, sid, hash).Rotated? then
      s.(sessions := s.sessions[sid := s.sessions[sid].(value := s.sessions[sid].value.(hash := newHash))],
         replay := s.replay[hash := Entry(sid, s.now + ttl)],
         index := s.index[newHash := Entry(sid, s.now + ttl)])
    else s
  }

  function Alive<K, T>(m: map<K, Entry<T>>, now: int): map<K, Entry<T>> {
    map k | k in m && m[k].deadline > now :: m[k]
  }

  /** Time passes, and the keys whose time has come are gone. */
  function Advance(s: Store, to: int): Store {
    Store(to, Alive(s.slots, to), Alive(s.sessions, to), Alive(s.index, to), Alive(s.replay, to))
  }

  // ---- slots and sessions name each other ----------------------------------------------------

  ghost predicate SlotOk(s: Store, slot: Slot) {
    && slot in s.slots
    && s.slots[slot].value in s.sessions
    && s.sessions[s.slots[slot].value].value.slot == slot
    && s.sessions[s.slots[slot].value].deadline == s.slots[slot].deadline
  }

  ghost predicate SessionOk(s: Store, sid: Sid) {
    sid in s.sessions && Current(s, s.sessions[sid].value.slot, sid)
  }

  ghost predicate Coherent(s: Store) {
    && (forall slot :: slot in s.slots ==> SlotOk(s, slot))
    && (forall sid :: sid in s.sessions ==> SessionOk(s, sid))
  }

  /** A slot holds a session id exactly when that session exists for its user and device. */
  lemma SlotIffSession(s: Store, slot: Slot, sid: Sid)
    requires Coherent(s)
    ensures Current(s, slot, sid) <==> sid in s.sessions && s.sessions[sid].value.slot == slot
  {
  }

  /** So no device has two sessions. */
  lemma OneSessionPerDevice(s: Store, a: Sid, b: Sid)
    requires Coherent(s) && a in s.sessions && b in s.sessions
    requires s.sessions[a].value.slot == s.sessions[b].value.slot
    ensures a == b
  {
  }

  /** Replacing keeps slots and sessions in step exactly when the id is not the id of another device's session. */
  lemma ReplaceKeepsExactly(s: Store, sid: Sid, session: Session, ttl: int)
    requires Coherent(s) && Writable(session, ttl)
    ensures Coherent(Replace(s, sid, session, ttl))
       <==> (sid in s.sessions ==> s.sessions[sid].value.slot == session.slot)
  {
    var t := Replace(s, sid, session, ttl);
    if sid in s.sessions && s.sessions[sid].value.slot != session.slot {
      var other := s.sessions[sid].value.slot;
      assert SessionOk(s, sid);
      assert other in t.slots && !SlotOk(t, other);
    } else {
      forall slot | slot in t.slots ensures SlotOk(t, slot) {
        if slot != session.slot { assert SlotOk(s, slot); }
      }
      forall x | x in t.sessions ensures SessionOk(t, x) {
        if x != sid { assert SessionOk(s, x); }
      }
    }
  }

  /** The three keys of a session live equally long: to the end of its time and not a moment longer. */
  lemma KeysLiveTogether(s: Store, sid: Sid, session: Session, ttl: int, to: int)
    requires Writable(session, ttl)
    ensures var t := Advance(Replace(s, sid, session, ttl), to);
      var alive := to < s.now + ttl;
      && (sid in t.sessions <==> alive) && (session.slot in t.slots <==> alive) && (session.hash in t.index <==> alive)
      && (alive ==> t.sessions[sid].value == session && t.slots[session.slot].value == sid && t.index[session.hash].value == sid)
  {
  }

  lemma DeleteKeeps(s: Store, slot: Slot, sid: Sid)
    requires Coherent(s)
    ensures Coherent(DeleteIfCurrent(s, slot, sid))
  {
  }

  lemma RotateKeeps(s: Store, sid: Sid, hash: Hash, newHash: Hash, ttl: int)
    requires Coherent(s)
    ensures Coherent(Rotate(s, sid, hash, newHash, ttl))
  {
  }

  lemma AdvanceKeeps(s: Store, to: int)
    requires Coherent(s)
    ensures Coherent(Advance(s, to))
  {
  }

  /** A conditional delete takes away the session it names and no other. */
  lemma DeleteIsExact(s: Store, slot: Slot, sid: Sid)
    requires Coherent(s)
    ensures var t := DeleteIfCurrent(s, slot, sid);
      && (sid in s.sessions && s.sessions[sid].value.slot == slot ==>
            t.sessions == s.sessions - {sid} && t.slots == s.slots - {slot})
      && (sid !in s.sessions || s.sessions[sid].value.slot != slot ==> t == s)
  {
  }

  // ---- runs ----------------------------------------------------------------------------------

  datatype Op =
    | Put(sid: Sid, session: Session, ttl: int)
    | Drop(slot: Slot, sid: Sid)
    | Swap(sid: Sid, hash: Hash, newHash: Hash, ttl: int)
    | Wait(to: int)

  function Do(s: Store, op: Op): Store {
    match op
    case Put(sid, session, ttl) => Replace(s, sid, session, ttl)
    case Drop(slot, sid) => DeleteIfCurrent(s, slot, sid)
    case Swap(sid, hash, newHash, ttl) => Rotate(s, sid, hash, newHash, ttl)
    case Wait(to) => Advance(s, to)
  }

  function Run(s: Store, ops: seq<Op>): Store
    decreases |ops|
  {
    if ops == [] then s else Run(Do(s, ops[0]), ops[1..])
  }

  /** Session ids are random: none is drawn twice, and none that was in use at the start. */
  ghost predicate FreshIds(used: set<Sid>, ops: seq<Op>) {
    && (forall i :: 0 <= i < |ops| && ops[i].Put? ==> ops[i].sid !in used)
    && (forall i, j :: 0 <= i < j < |ops| && ops[i].Put? && ops[j].Put? ==> ops[i].sid != ops[j].sid)
  }

  lemma DoKeeps(s: Store, op: Op)
    requires Coherent(s) && (op.Put? ==> op.sid !in s.sessions)
    ensures Coherent(Do(s, op))
    ensures Do(s, op).sessions.Keys <= s.sessions.Keys + (if op.Put? then {op.sid} else {})
  {
    match op
    case Put(sid, session, ttl) =>
      if Writable(session, ttl) { ReplaceKeepsExactly(s, sid, session, ttl); }
    case Drop(slot, sid) => DeleteKeeps(s, slot, sid);
    case Swap(sid, hash, newHash, ttl) => RotateKeeps(s, sid, hash, newHash, ttl);
    case Wait(to) => AdvanceKeeps(s, to);
  }

  /** Slots and sessions stay in step through any sequence of operations. */
  lemma {:induction false} CoherentInRuns(s: Store, used: set<Sid>, ops: seq<Op>)
    requires Coherent(s) && s.sessions.Keys <= used && FreshIds(used, ops)
    ensures Coherent(Run(s, ops))
    decreases |ops|
  {
    if ops != [] {
      DoKeeps(s, ops[0]);
      var drawn := if ops[0].Put? then {ops[0].sid} else {};
      assert forall i :: 0 <= i < |ops[1..]| ==> ops[1..][i] == ops[i + 1];
      CoherentInRuns(Do(s, ops[0]), used + drawn, ops[1..]);
    }
  }

  /** A session that is gone stays gone, so deleting by its id later never harms a newer session. */
  lemma {:induction false} StaleDeleteIsHarmless(s: Store, used: set<Sid>, ops: seq<Op>, slot: Slot, sid: Sid)
    requires Coherent(s) && s.sessions.Keys <= used && FreshIds(used, ops)
    requires sid in used && sid !in s.sessions
    ensures sid !in Run(s, ops).sessions
    ensures DeleteIfCurrent(Run(s, ops), slot, sid) == Run(s, ops)
    decreases |ops|
  {
    if ops == [] {
      SlotIffSession(s, slot, sid);
    } else {
      DoKeeps(s, ops[0]);
      var drawn := if ops[0].Put? then {ops[0].sid} else {};
      assert forall i :: 0 <= i < |ops[1..]| ==> ops[1..][i] == ops[i + 1];
      StaleDeleteIsHarmless(Do(s, ops[0]), used + drawn, ops[1..], slot, sid);
    }
  }

  // ---- the server ----------------------------------------------------------------------------

  class RedisStore {
    var now: int
    var slots: map<Slot, Entry<Sid>>
    var sessions: map<Sid, Entry<Session>>
    var index: map<Hash, Entry<Sid>>
    var replay: map<Hash, Entry<Sid>>

    ghost function View(): Store
      reads this
    {
      Store(now, slots, sessions, index, replay)
    }

    constructor (start: int)
      ensures View() == Store(start, map[], map[], map[], map[]) && Coherent(View())
    {
      now, slots, sessions, index, replay := start, map[], map[], map[], map[];
    }

    /** The id the device had before is reported, if there was one. */
    method ReplaceSession(sid: Sid, session: Session, ttl: int) returns (ok: bool, previous: Option<Sid>)
      modifies this
      ensures View() == Replace(old(View()), sid, session, ttl)
      ensures ok == Writable(session, ttl)
      ensures previous == (if ok && session.slot in old(slots) then Some(old(slots)[session.slot].value) else None)
    {
      if !Writable(session, ttl) {
        return false, None;
      }
      previous := None;
      if session.slot in slots {
        previous := Some(slots[session.slot].value);
        sessions := sessions - {previous.value};
      }
      sessions := sessions[sid := Entry(session, now + ttl)];
      slots := slots[session.slot := Entry(sid, now + ttl)];
      index := index[session.hash := Entry(sid, now + ttl)];
      ok := true;
    }

    method DeleteSessionIfCurrent(slot: Slot, sid: Sid) returns (deleted: bool)
      modifies this
      ensures View() == DeleteIfCurrent(old(View()), slot, sid)
      ensures deleted == Current(old(View()), slot, sid)
    {
      if slot !in slots || slots[slot].value != sid {
        return false;
      }
      slots := slots - {slot};
      sessions := sessions - {sid};
      deleted := true;
    }

    method RotateRefreshHash(sid: Sid, hash: Hash, newHash: Hash, ttl: int) returns (r: Rotation)
      modifies this
      ensures ttl > 0 ==> View() == Rotate(old(View()), sid, hash, newHash, ttl)
      ensures ttl > 0 ==> r == RotationOf(old(View()), sid, hash)
      ensures ttl <= 0 ==> View() == old(View()) && r == NotRotated
    {
      if ttl <= 0 {
        return NotRotated;
      }
      if sid in sessions && sessions[sid].value.hash == hash {
        sessions := sessions[sid := sessions[sid].(value := sessions[sid].value.(hash := newHash))];
        replay := replay[hash := Entry(sid, now + ttl)];
        index := index[newHash := Entry(sid, now + ttl)];
        return Rotated;
      }
      if hash in replay {
        return Replayed(replay[hash].value);
      }
      return NotRotated;
    }

    method GetSession(sid: Sid) returns (found: Option<Session>)
      ensures found == (if sid in sessions then Some(sessions[sid].value) else None)
    {
      found := if sid in sessions then Some(sessions[sid].value) else None;
    }

    method Expire(to: int)
      modifies this
      ensures View() == Advance(old(View()), to)
    {
      now := to;
      slots := Alive(slots, to);
      sessions := Alive(sessions, to);
      index := Alive(index, to);
      replay := Alive(replay, to);
    }
  }
}
