/**
 * The realtime hub's seats: reservations made before a connection is upgraded, connected peers, the
 * cooldowns of those put out, and the handlers that come and go in any order.
 */
module Seats {
  import opened Words
  import opened Sums

  /** The user id of a token, which the hub keeps in decimal. */
  type Subject = nat

  /** A connection: whose it is, which one it is, and when a message last got through. */
  datatype Peer = Peer(subject: Subject, serial: nat, delivered: int)

  datatype Hub = Hub(
    limit: nat,
    cooldown: int,
    peers: map<Subject, Peer>,
    pending: set<Subject>,
    cooldowns: map<Subject, int>)

  datatype Answer = Reserved(evicted: Option<Peer>) | Full | Cooling

  // ---- the operations under the lock ---------------------------------------------------------

  predicate Cools(h: Hub, subject: Subject, now: int) {
    subject in h.cooldowns && now < h.cooldowns[subject]
  }

  /** The peer that has gone longest without a delivery; the order of a tie is not fixed. */
  predicate Oldest(peers: map<Subject, Peer>, who: Subject) {
    who in peers && forall s :: s in peers ==> peers[who].delivered <= peers[s].delivered
  }

  /** There is always an oldest among some. */
  lemma {:induction false} OldestKey(peers: map<Subject, Peer>) returns (who: Subject)
    ensures peers != map[] ==> Oldest(peers, who)
  {
    who := 0;
    if peers != map[] {
      var s :| s in peers;
      var rest := OldestKey(peers - {s});
      assert forall x :: x in peers ==> x == s || x in peers - {s};
      who := if peers - {s} == map[] || peers[s].delivered < peers[rest].delivered then s else rest;
    }
  }

  /** The seat of a connected peer passes to a reservation. */
  function Swap(h: Hub, out: Subject, subject: Subject, cooldowns: map<Subject, int>): Hub {
    h.(peers := h.peers - {out}, pending := h.pending + {subject}, cooldowns := cooldowns)
  }

  /** A seat for one that is not cooling; `who` is the peer put out if one has to be. */
  function Claim(h: Hub, subject: Subject, now: int, who: Subject): (Hub, Answer)
    requires h.peers != map[] ==> Oldest(h.peers, who)
  {
    if subject in h.pending then (h, Full)
    else if subject in h.peers then (Swap(h, subject, subject, h.cooldowns), Reserved(Some(h.peers[subject])))
    else if |h.peers| + |h.pending| < h.limit then (h.(pending := h.pending + {subject}), Reserved(None))
    else PutOut(h, subject, now, who)
  }

  /** All seats are taken: the oldest peer has to go, if there is any peer. */
  function PutOut(h: Hub, subject: Subject, now: int, who: Subject): (Hub, Answer)
    requires h.peers != map[] ==> Oldest(h.peers, who)
  {
    if h.peers == map[] then (h, Full)
    else
      var out := h.peers[who];
      (Swap(h, out.subject, subject, h.cooldowns[out.subject := now + h.cooldown]), Reserved(Some(out)))
  }

  lemma ClaimCases(h: Hub, subject: Subject, now: int, who: Subject)
    requires h.peers != map[] ==> Oldest(h.peers, who)
    ensures subject in h.pending ==> Claim(h, subject, now, who) == (h, Full)
    ensures subject !in h.pending && subject in h.peers ==>
      Claim(h, subject, now, who) == (Swap(h, subject, subject, h.cooldowns), Reserved(Some(h.peers[subject])))
    ensures subject !in h.pending && subject !in h.peers && |h.peers| + |h.pending| < h.limit ==>
      Claim(h, subject, now, who) == (h.(pending := h.pending + {subject}), Reserved(None))
  {
  }

  function Reserve(h: Hub, subject: Subject, now: int, who: Subject): (Hub, Answer)
    requires h.peers != map[] ==> Oldest(h.peers, who)
  {
    if Cools(h, subject, now) then (h, Cooling)
    else Claim(h.(cooldowns := h.cooldowns - {subject}), subject, now, who)
  }

  function Cancel(h: Hub, subject: Subject): Hub {
    h.(pending := h.pending - {subject})
  }

  function Register(h: Hub, peer: Peer): (Hub, bool) {
    if peer.subject in h.pending then
      (h.(pending := h.pending - {peer.subject}, peers := h.peers[peer.subject := peer]), true)
    else (h, false)
  }

  predicate Connected(h: Hub, subject: Subject, serial: nat) {
    subject in h.peers && h.peers[subject].serial == serial
  }

  function Remove(h: Hub, subject: Subject, serial: nat): Hub {
    if Connected(h, subject, serial) then h.(peers := h.peers - {subject}) else h
  }

  function Detach(h: Hub, subject: Subject, serial: nat, now: int): Hub {
    if Connected(h, subject, serial) then
      h.(peers := h.peers - {subject}, cooldowns := h.cooldowns[subject := now + h.cooldown])
    else h
  }

  function Touched(peers: map<Subject, Peer>, subject: Subject, now: int): map<Subject, Peer> {
    if subject in peers then peers[subject := peers[subject].(delivered := now)] else peers
  }

  function Deliver(h: Hub, sender: Subject, recipient: Subject, now: int): Hub {
    h.(peers := Touched(Touched(h.peers, sender, now), recipient, now))
  }

  // ---- the seats -----------------------------------------------------------------------------

  /** A peer is filed under its own subject, which has neither a reservation nor a cooldown. */
  ghost predicate PeerOk(h: Hub, s: Subject) {
    s in h.peers && h.peers[s].subject == s && s !in h.pending && s !in h.cooldowns
  }

  ghost predicate SeatsOk(h: Hub) {
    && h.limit > 0
    && |h.peers| + |h.pending| <= h.limit
    && (forall s :: s in h.peers ==> PeerOk(h, s))
    && (forall s :: s in h.pending ==> s !in h.cooldowns)
  }

  lemma OneFewer<K, V>(m: map<K, V>, k: K)
    requires k in m
    ensures |m - {k}| == |m| - 1
  {
  }

  /** Where one seat is handed from a peer to a reservation. */
  lemma SeatSwapped(h: Hub, out: Subject, subject: Subject, cooldowns: map<Subject, int>)
    requires SeatsOk(h) && out in h.peers && subject !in h.pending && (subject in h.peers ==> subject == out)
    requires cooldowns.Keys <= h.cooldowns.Keys + {out} && subject !in cooldowns
    ensures SeatsOk(Swap(h, out, subject, cooldowns))
  {
    var g := Swap(h, out, subject, cooldowns);
    OneFewer(h.peers, out);
    forall s | s in g.peers ensures PeerOk(g, s) { assert PeerOk(h, s); }
    forall s | s in g.pending ensures s !in g.cooldowns { assert PeerOk(h, out); }
  }

  lemma Forgotten(h: Hub, subject: Subject)
    requires SeatsOk(h)
    ensures SeatsOk(h.(cooldowns := h.cooldowns - {subject}))
  {
  }

  lemma ClaimKeeps(h: Hub, subject: Subject, now: int, who: Subject)
    requires SeatsOk(h) && (h.peers != map[] ==> Oldest(h.peers, who)) && subject !in h.cooldowns
    ensures SeatsOk(Claim(h, subject, now, who).0)
  {
    hide SeatsOk, Oldest, Swap;
    if subject !in h.pending {
      if subject in h.peers {
        SeatSwapped(h, subject, subject, h.cooldowns);
      } else if |h.peers| + |h.pending| < h.limit {
        OneMore(h, subject);
      } else if h.peers != map[] {
        PeerKey(h, who);
        OldestIn(h.peers, who);
        SeatSwapped(h, who, subject, h.cooldowns[who := now + h.cooldown]);
      }
    }
  }

  lemma ReserveKeeps(h: Hub, subject: Subject, now: int, who: Subject)
    requires SeatsOk(h) && (h.peers != map[] ==> Oldest(h.peers, who))
    ensures SeatsOk(Reserve(h, subject, now, who).0)
  {
    hide SeatsOk, Oldest, Claim;
    Forgotten(h, subject);
    ClaimKeeps(h.(cooldowns := h.cooldowns - {subject}), subject, now, who);
  }

  lemma OldestIn(peers: map<Subject, Peer>, who: Subject)
    requires Oldest(peers, who)
    ensures who in peers
  {
  }

  lemma PeerKey(h: Hub, who: Subject)
    requires SeatsOk(h) && Oldest(h.peers, who)
    ensures h.peers[who].subject == who
  {
  }

  lemma OneMore(h: Hub, subject: Subject)
    requires SeatsOk(h) && subject !in h.peers && subject !in h.cooldowns && |h.peers| + |h.pending| < h.limit
    ensures SeatsOk(h.(pending := h.pending + {subject}))
  {
  }

  lemma RegisterKeeps(h: Hub, peer: Peer)
    requires SeatsOk(h)
    ensures SeatsOk(Register(h, peer).0)
  {
  }

  lemma RemoveKeeps(h: Hub, subject: Subject, serial: nat, now: int)
    requires SeatsOk(h)
    ensures SeatsOk(Remove(h, subject, serial)) && SeatsOk(Detach(h, subject, serial, now))
  {
  }

  lemma DeliverKeeps(h: Hub, sender: Subject, recipient: Subject, now: int)
    requires SeatsOk(h)
    ensures SeatsOk(Deliver(h, sender, recipient, now))
  {
  }

  lemma TouchedSame(peers: map<Subject, Peer>, subject: Subject, now: int)
    ensures var t := Touched(peers, subject, now);
      && t.Keys == peers.Keys && |t| == |peers|
      && forall s :: s in peers ==> t[s].subject == peers[s].subject && t[s].serial == peers[s].serial
  {
  }

  lemma CancelKeeps(h: Hub, subject: Subject)
    requires SeatsOk(h)
    ensures SeatsOk(Cancel(h, subject))
  {
  }

  /** When a seat is refused, and whom a granted one costs its connection. */
  lemma ReserveExactly(h: Hub, subject: Subject, now: int, who: Subject)
    requires SeatsOk(h) && (h.peers != map[] ==> Oldest(h.peers, who))
    ensures var (g, a) := Reserve(h, subject, now, who);
      && (a == Cooling <==> Cools(h, subject, now))
      && (a == Full <==> !Cools(h, subject, now) && (subject in h.pending || |h.pending| == h.limit))
      && (a.Reserved? ==> g.pending == h.pending + {subject} && subject !in h.pending && subject !in g.peers)
      && (a.Reserved? && a.evicted.Some? ==>
            && var out := a.evicted.value;
            && out.subject in h.peers && out == h.peers[out.subject] && g.peers == h.peers - {out.subject}
            && (out.subject != subject ==>
                  && |h.peers| + |h.pending| == h.limit
                  && (forall s :: s in h.peers ==> out.delivered <= h.peers[s].delivered)
                  && g.cooldowns == (h.cooldowns - {subject})[out.subject := now + h.cooldown]))
      && (a.Reserved? && a.evicted.None? ==> g.peers == h.peers && |h.peers| + |h.pending| < h.limit)
  {
    assert h.peers == map[] <==> |h.peers| == 0;
    if subject in h.pending { SubsetCount({subject}, h.pending); }
    assert |h.peers| > 0 ==> |h.pending| < h.limit;
  }

  /** A delivery timed later than all before keeps both its ends from being put out while anybody else is connected. */
  lemma DeliveryProtects(h: Hub, sender: Subject, recipient: Subject, now: int, who: Subject)
    requires SeatsOk(h) && forall s :: s in h.peers ==> h.peers[s].delivered < now
    requires Oldest(Deliver(h, sender, recipient, now).peers, who)
    ensures who == sender || who == recipient ==> forall s :: s in h.peers ==> s == sender || s == recipient
  {
    var g := Deliver(h, sender, recipient, now);
    TouchedSame(h.peers, sender, now);
    TouchedSame(Touched(h.peers, sender, now), recipient, now);
    forall s | s in h.peers ensures s in g.peers && g.peers[s].delivered == (if s == sender || s == recipient then now else h.peers[s].delivered) {
    }
  }

  // ---- handlers ------------------------------------------------------------------------------

  /** A request between its reservation and its upgrade, one being served, and one that is over. */
  datatype Handler = Upgrading(subject: Subject) | Serving(subject: Subject, serial: nat) | Over

  datatype Sys = Sys(hub: Hub, handlers: map<nat, Handler>, next: nat)

  datatype Step =
    | Arrive(id: nat, subject: Subject, now: int, who: Subject)
    | UpgradeFails(id: nat)
    | Upgraded(id: nat, now: int)
    | Leave(id: nat)
    | WriteFails(subject: Subject, serial: nat)              // a write pump drops its peer
    | Slow(subject: Subject, serial: nat, now: int)          // a full queue, found by any sender
    | Acknowledge(sender: Subject, recipient: Subject, now: int)

  ghost predicate Enabled(y: Sys, step: Step) {
    match step
    case Arrive(id, subject, now, who) => id !in y.handlers && (y.hub.peers != map[] ==> Oldest(y.hub.peers, who))
    case UpgradeFails(id) => id in y.handlers && y.handlers[id].Upgrading?
    case Upgraded(id, now) => id in y.handlers && y.handlers[id].Upgrading?
    case Leave(id) => id in y.handlers && y.handlers[id].Serving?
    case _ => true
  }

  function Arrived(a: Answer, subject: Subject): Handler {
    if a.Reserved? then Upgrading(subject) else Over
  }

  ghost function Next(y: Sys, step: Step): Sys
    requires Enabled(y, step)
  {
    match step
    case Arrive(id, subject, now, who) =>
      var (g, a) := Reserve(y.hub, subject, now, who);
      y.(hub := g, handlers := y.handlers[id := Arrived(a, subject)])
    case UpgradeFails(id) =>
      y.(hub := Cancel(y.hub, y.handlers[id].subject), handlers := y.handlers[id := Over])
    case Upgraded(id, now) =>
      var subject := y.handlers[id].subject;
      var (g, ok) := Register(y.hub, Peer(subject, y.next, now));
      if ok then Sys(g, y.handlers[id := Serving(subject, y.next)], y.next + 1)
      else Sys(Cancel(g, subject), y.handlers[id := Over], y.next + 1)
    case Leave(id) =>
      y.(hub := Remove(y.hub, y.handlers[id].subject, y.handlers[id].serial), handlers := y.handlers[id := Over])
    case WriteFails(subject, serial) => y.(hub := Remove(y.hub, subject, serial))
    case Slow(subject, serial, now) => y.(hub := Detach(y.hub, subject, serial, now))
    case Acknowledge(sender, recipient, now) => y.(hub := Deliver(y.hub, sender, recipient, now))
  }

  ghost predicate Owns(y: Sys, id: nat, subject: Subject) {
    id in y.handlers && y.handlers[id] == Upgrading(subject)
  }

  /** Every reservation has one handler behind it, and every handler on its way has its reservation. */
  ghost predicate OwnersOk(y: Sys) {
    && (forall id, s :: Owns(y, id, s) ==> s in y.hub.pending)
    && (forall s :: s in y.hub.pending ==> exists id :: Owns(y, id, s))
    && (forall a, b, s :: Owns(y, a, s) && Owns(y, b, s) ==> a == b)
  }

  ghost predicate Serves(y: Sys, id: nat, serial: nat) {
    id in y.handlers && y.handlers[id].Serving? && y.handlers[id].serial == serial
  }

  /** Connections are numbered apart, and each belongs to a handler that has not left. */
  ghost predicate SerialsOk(y: Sys) {
    && (forall s :: s in y.hub.peers ==> y.hub.peers[s].serial < y.next)
    && (forall id: nat, n: nat :: Serves(y, id, n) ==> n < y.next)
    && (forall a: nat, b: nat, n: nat :: Serves(y, a, n) && Serves(y, b, n) ==> a == b)
    && (forall s :: s in y.hub.peers ==> Served(y, s))
  }

  ghost predicate Served(y: Sys, s: Subject) {
    s in y.hub.peers && exists id :: Serves(y, id, y.hub.peers[s].serial) && y.handlers[id].subject == s
  }

  ghost predicate Inv(y: Sys) {
    SeatsOk(y.hub) && OwnersOk(y) && SerialsOk(y)
  }

  lemma SeatsStay(y: Sys, step: Step)
    requires SeatsOk(y.hub) && Enabled(y, step)
    ensures SeatsOk(Next(y, step).hub)
  {
    hide Reserve;
    match step
    case Arrive(id, subject, now, who) => ReserveKeeps(y.hub, subject, now, who);
    case UpgradeFails(id) => CancelKeeps(y.hub, y.handlers[id].subject);
    case Upgraded(id, now) =>
      var peer := Peer(y.handlers[id].subject, y.next, now);
      RegisterKeeps(y.hub, peer);
      CancelKeeps(Register(y.hub, peer).0, peer.subject);
    case Leave(id) => RemoveKeeps(y.hub, y.handlers[id].subject, y.handlers[id].serial, 0);
    case WriteFails(subject, serial) => RemoveKeeps(y.hub, subject, serial, 0);
    case Slow(subject, serial, now) => RemoveKeeps(y.hub, subject, serial, now);
    case Acknowledge(sender, recipient, now) => DeliverKeeps(y.hub, sender, recipient, now);
  }

  /** One handler changes, the others stay: enough of the owners' part to see who owns what then. */
  lemma OwnersMove(y: Sys, z: Sys, id: nat, given: set<Subject>, taken: set<Subject>)
    requires OwnersOk(y)
    requires id in z.handlers && z.handlers == y.handlers[id := z.handlers[id]]
    requires z.hub.pending == y.hub.pending - given + taken
    requires given == (if id in y.handlers && y.handlers[id].Upgrading? then {y.handlers[id].subject} else {})
    requires taken == (if z.handlers[id].Upgrading? then {z.handlers[id].subject} else {})
    requires taken !! y.hub.pending
    ensures OwnersOk(z)
  {
    forall x, s | Owns(z, x, s) ensures s in z.hub.pending {
      if x != id {
        assert Owns(y, x, s);
        if s in given { assert Owns(y, id, s); }
      }
    }
    forall s | s in z.hub.pending ensures exists x :: Owns(z, x, s) {
      if s in taken {
        assert Owns(z, id, s);
      } else {
        var x :| Owns(y, x, s);
        assert Owns(z, x, s);
      }
    }
    forall a, b, s | Owns(z, a, s) && Owns(z, b, s) ensures a == b {
      assert (a != id ==> Owns(y, a, s)) && (b != id ==> Owns(y, b, s));
    }
  }

  lemma OwnersRest(y: Sys, z: Sys)
    requires OwnersOk(y) && z.handlers == y.handlers && z.hub.pending == y.hub.pending
    ensures OwnersOk(z)
  {
    assert forall id, s :: Owns(z, id, s) == Owns(y, id, s);
  }

  lemma OwnersStay(y: Sys, step: Step)
    requires Inv(y) && Enabled(y, step)
    ensures OwnersOk(Next(y, step))
  {
    hide SerialsOk, OwnersOk, SeatsOk, Reserve, Register;
    var z := Next(y, step);
    match step
    case Arrive(id, subject, now, who) => OwnersArrive(y, id, subject, now, who);
    case UpgradeFails(id) => OwnersMove(y, z, id, {y.handlers[id].subject}, {});
    case Upgraded(id, now) =>
      RegisterNeverFails(y, id, now);
      OwnersMove(y, z, id, {y.handlers[id].subject}, {});
    case Leave(id) => OwnersMove(y, z, id, {}, {});
    case WriteFails(subject, serial) => OwnersRest(y, z);
    case Slow(subject, serial, now) => OwnersRest(y, z);
    case Acknowledge(sender, recipient, now) => OwnersRest(y, z);
  }

  lemma ReservesPending(h: Hub, subject: Subject, now: int, who: Subject)
    requires h.peers != map[] ==> Oldest(h.peers, who)
    ensures var (g, a) := Reserve(h, subject, now, who);
      && g.pending == h.pending + (if a.Reserved? then {subject} else {})
      && (a.Reserved? ==> subject !in h.pending)
  {
  }

  lemma OwnersArrive(y: Sys, id: nat, subject: Subject, now: int, who: Subject)
    requires Inv(y) && Enabled(y, Arrive(id, subject, now, who))
    ensures OwnersOk(Next(y, Arrive(id, subject, now, who)))
  {
    hide SerialsOk, OwnersOk, SeatsOk, Reserve;
    var z := Next(y, Arrive(id, subject, now, who));
    ReservesPending(y.hub, subject, now, who);
    OwnersMove(y, z, id, {}, if z.handlers[id].Upgrading? then {subject} else {});
  }

  /** The handler that holds a reservation always gets its seat. */
  lemma RegisterNeverFails(y: Sys, id: nat, now: int)
    requires Inv(y) && id in y.handlers && y.handlers[id].Upgrading?
    ensures var subject := y.handlers[id].subject;
      var (h, ok) := Register(y.hub, Peer(subject, y.next, now));
      && ok && h.pending == y.hub.pending - {subject} && h.peers == y.hub.peers[subject := Peer(subject, y.next, now)]
  {
    assert Owns(y, id, y.handlers[id].subject);
  }
  // ---- connections ---------------------------------------------------------------------------

  /** Peers that were there before, under the same numbers. */
  ghost predicate FewerPeers(a: Hub, b: Hub) {
    forall s :: s in b.peers ==> s in a.peers && b.peers[s].serial == a.peers[s].serial
  }

  lemma PeersOnlyGo(y: Sys, step: Step)
    requires Enabled(y, step) && !step.Upgraded?
    ensures FewerPeers(y.hub, Next(y, step).hub)
  {
    match step
    case Acknowledge(sender, recipient, now) =>
      TouchedSame(y.hub.peers, sender, now);
      TouchedSame(Touched(y.hub.peers, sender, now), recipient, now);
    case _ =>
  }

  /** The peer, if any, that a handler put in the table is no longer there. */
  ghost predicate PeerGone(y: Sys, z: Sys, id: nat) {
    forall s :: s in z.hub.peers ==> !Serves(y, id, z.hub.peers[s].serial)
  }

  /** Peers only go, and a handler only ends after its peer is gone. */
  lemma SerialsRest(y: Sys, z: Sys, id: nat)
    requires SerialsOk(y) && FewerPeers(y.hub, z.hub) && y.next == z.next
    requires z.handlers == y.handlers
      || (id in z.handlers && z.handlers == y.handlers[id := z.handlers[id]] && !z.handlers[id].Serving? && PeerGone(y, z, id))
    ensures SerialsOk(z)
  {
    forall x: nat, n: nat | Serves(z, x, n) ensures Serves(y, x, n) {
    }
    forall s | s in z.hub.peers ensures Served(z, s) {
      assert Served(y, s);
      var x :| Serves(y, x, y.hub.peers[s].serial) && y.handlers[x].subject == s;
      assert Serves(z, x, z.hub.peers[s].serial);
    }
  }

  lemma LeaverTakesPeer(y: Sys, id: nat)
    requires SerialsOk(y) && Enabled(y, Leave(id))
    ensures PeerGone(y, Next(y, Leave(id)), id)
  {
  }

  lemma SerialsUpgraded(y: Sys, id: nat, now: int)
    requires Inv(y) && Enabled(y, Upgraded(id, now))
    ensures SerialsOk(Next(y, Upgraded(id, now)))
  {
    var z := Next(y, Upgraded(id, now));
    var subject := y.handlers[id].subject;
    RegisterNeverFails(y, id, now);
    forall x: nat, n: nat | Serves(z, x, n) && x != id ensures Serves(y, x, n) {
    }
    forall s | s in z.hub.peers ensures Served(z, s) {
      if s == subject {
        assert Serves(z, id, y.next);
      } else {
        assert Served(y, s);
        var x :| Serves(y, x, y.hub.peers[s].serial) && y.handlers[x].subject == s;
        assert Serves(z, x, z.hub.peers[s].serial);
      }
    }
  }

  lemma SerialsStay(y: Sys, step: Step)
    requires Inv(y) && Enabled(y, step)
    ensures SerialsOk(Next(y, step))
  {
    hide SerialsOk, OwnersOk, SeatsOk, FewerPeers, Reserve, Remove, Detach, Deliver;
    var z := Next(y, step);
    if !step.Upgraded? { PeersOnlyGo(y, step); }
    match step
    case Upgraded(id, now) => SerialsUpgraded(y, id, now);
    case Arrive(id, subject, now, who) => SerialsRest(y, z, id);
    case UpgradeFails(id) => SerialsRest(y, z, id);
    case Leave(id) => LeaverTakesPeer(y, id); SerialsRest(y, z, id);
    case WriteFails(subject, serial) => SerialsRest(y, z, serial);
    case Slow(subject, serial, now) => SerialsRest(y, z, serial);
    case Acknowledge(sender, recipient, now) => SerialsRest(y, z, sender);
  }

  // ---- runs ----------------------------------------------------------------------------------

  lemma StepKeeps(y: Sys, step: Step)
    requires Inv(y) && Enabled(y, step)
    ensures Inv(Next(y, step))
  {
    hide SerialsOk, OwnersOk, SeatsOk, Next, Enabled;
    SeatsStay(y, step);
    OwnersStay(y, step);
    SerialsStay(y, step);
  }

  ghost predicate Legal(y: Sys, steps: seq<Step>)
    decreases |steps|
  {
    steps == [] || (Enabled(y, steps[0]) && Legal(Next(y, steps[0]), steps[1..]))
  }

  ghost function Run(y: Sys, steps: seq<Step>): Sys
    requires Legal(y, steps)
    decreases |steps|
  {
    if steps == [] then y else Run(Next(y, steps[0]), steps[1..])
  }

  function Fresh(limit: nat, cooldown: int): Sys {
    Sys(Hub(limit, cooldown, map[], {}, map[]), map[], 0)
  }

  lemma {:induction false} RunKeeps(y: Sys, steps: seq<Step>)
    requires Inv(y) && Legal(y, steps)
    ensures Inv(Run(y, steps))
    decreases |steps|
  {
    if steps != [] {
      hide Inv, Next, Enabled;
      StepKeeps(y, steps[0]);
      RunKeeps(Next(y, steps[0]), steps[1..]);
    }
  }

  lemma InvInRuns(limit: nat, cooldown: int, steps: seq<Step>)
    requires limit > 0 && Legal(Fresh(limit, cooldown), steps)
    ensures Inv(Run(Fresh(limit, cooldown), steps))
  {
    RunKeeps(Fresh(limit, cooldown), steps);
  }

  /**
   * However handlers interleave: no more seats than the limit, nobody with both a seat and a reservation,
   * one handler behind every reservation, and nobody seated while a cooldown of theirs is running.
   */
  lemma SeatsInRuns(limit: nat, cooldown: int, steps: seq<Step>, subject: Subject, now: int)
    requires limit > 0 && Legal(Fresh(limit, cooldown), steps)
    ensures var y := Run(Fresh(limit, cooldown), steps);
      && |y.hub.peers| + |y.hub.pending| <= y.hub.limit
      && !(subject in y.hub.peers && subject in y.hub.pending)
      && (subject in y.hub.pending <==> exists id :: Owns(y, id, subject))
      && (forall a, b :: Owns(y, a, subject) && Owns(y, b, subject) ==> a == b)
      && (Cools(y.hub, subject, now) ==> subject !in y.hub.peers && subject !in y.hub.pending)
  {
    InvInRuns(limit, cooldown, steps);
    var y := Run(Fresh(limit, cooldown), steps);
    if subject in y.hub.peers { assert PeerOk(y.hub, subject); }
  }

  /** Giving a reservation up frees the seat of the handler that gives it up and leaves every other one its own. */
  lemma CancelDropsOnlyItsOwn(y: Sys, id: nat, other: nat, subject: Subject)
    requires Inv(y) && Enabled(y, UpgradeFails(id)) && other != id && Owns(y, other, subject)
    ensures var z := Next(y, UpgradeFails(id)); Owns(z, other, subject) && subject in z.hub.pending
    ensures |Next(y, UpgradeFails(id)).hub.pending| == |y.hub.pending| - 1
  {
    assert Owns(y, id, y.handlers[id].subject);
  }

  /** A handler whose connection has been replaced or put out changes nothing when it leaves. */
  lemma StaleHandlerIsHarmless(y: Sys, id: nat, subject: Subject)
    requires Inv(y) && Enabled(y, Leave(id))
    requires !Connected(y.hub, y.handlers[id].subject, y.handlers[id].serial)
    ensures Next(y, Leave(id)).hub == y.hub
  {
  }

  /** One that is still connected takes its own peer out and no other. */
  lemma LeavingIsExact(y: Sys, id: nat, s: Subject)
    requires Inv(y) && Enabled(y, Leave(id)) && s in y.hub.peers
    ensures s in Next(y, Leave(id)).hub.peers <==> !Serves(y, id, y.hub.peers[s].serial)
  {
  }

  /** A second connection of a subject takes the place of the first, whose number never comes back. */
  lemma {:induction false} ReplacedForGood(y: Sys, steps: seq<Step>, s: Subject, serial: nat)
    requires Inv(y) && Legal(y, steps)
    requires serial < y.next && !Connected(y.hub, s, serial)
    ensures !Connected(Run(y, steps).hub, s, serial)
    decreases |steps|
  {
    if steps != [] {
      hide Inv, Next;
      StepKeeps(y, steps[0]);
      NotConnectedAgain(y, steps[0], s, serial);
      ReplacedForGood(Next(y, steps[0]), steps[1..], s, serial);
    }
  }

  lemma NotConnectedAgain(y: Sys, step: Step, s: Subject, serial: nat)
    requires Enabled(y, step) && serial < y.next && !Connected(y.hub, s, serial)
    ensures serial < Next(y, step).next && !Connected(Next(y, step).hub, s, serial)
  {
  }

  // ---- the cooldown --------------------------------------------------------------------------

  /** Put out, and not let in again before `until`. */
  predicate OutUntil(h: Hub, subject: Subject, until: int) {
    subject in h.cooldowns && h.cooldowns[subject] == until && subject !in h.peers && subject !in h.pending
  }

  /** A slow peer that is put out stays out for the cooldown, and so does one that has to make room. */
  lemma PutOutCools(h: Hub, subject: Subject, serial: nat, now: int, who: Subject)
    requires SeatsOk(h)
    ensures Connected(h, subject, serial) ==> OutUntil(Detach(h, subject, serial, now), subject, now + h.cooldown)
    ensures !Connected(h, subject, serial) ==> Detach(h, subject, serial, now) == h
    ensures (h.peers != map[] ==> Oldest(h.peers, who)) && Reserve(h, subject, now, who).1.Reserved? ==>
      match Reserve(h, subject, now, who).1.evicted
      case Some(out) => out.subject != subject ==> OutUntil(Reserve(h, subject, now, who).0, out.subject, now + h.cooldown)
      case None => true
  {
    if subject in h.peers { assert PeerOk(h, subject); }
    if h.peers != map[] && Oldest(h.peers, who) { assert PeerOk(h, who); }
  }

  lemma StillOut(y: Sys, step: Step, subject: Subject, until: int)
    requires Inv(y) && Enabled(y, step) && OutUntil(y.hub, subject, until)
    requires !(step.Arrive? && step.subject == subject && step.now >= until)
    ensures OutUntil(Next(y, step).hub, subject, until)
  {
    hide SerialsOk, SeatsOk, OwnersOk, Reserve, Register, Deliver;
    match step
    case Upgraded(id, now) =>
      RegisterNeverFails(y, id, now);
      OwnsPending(y, id, y.handlers[id].subject);
      RegisterLeaves(y.hub, Peer(y.handlers[id].subject, y.next, now));
    case Arrive(id, s, now, who) => OthersStillOut(y.hub, s, now, who, subject, until);
    case Acknowledge(sender, recipient, now) => DeliverLeaves(y.hub, sender, recipient, now);
    case _ =>
  }

  lemma OwnsPending(y: Sys, id: nat, subject: Subject)
    requires OwnersOk(y) && Owns(y, id, subject)
    ensures subject in y.hub.pending
  {
  }

  lemma RegisterLeaves(h: Hub, peer: Peer)
    ensures Register(h, peer).0.cooldowns == h.cooldowns
  {
  }

  lemma DeliverLeaves(h: Hub, sender: Subject, recipient: Subject, now: int)
    ensures var g := Deliver(h, sender, recipient, now);
      g.cooldowns == h.cooldowns && g.pending == h.pending && g.peers.Keys == h.peers.Keys
  {
    TouchedSame(h.peers, sender, now);
    TouchedSame(Touched(h.peers, sender, now), recipient, now);
  }

  /** Somebody else's arrival, or one during the cooldown. */
  lemma OthersStillOut(h: Hub, s: Subject, now: int, who: Subject, subject: Subject, until: int)
    requires SeatsOk(h) && OutUntil(h, subject, until) && (h.peers != map[] ==> Oldest(h.peers, who))
    requires s == subject ==> now < until
    ensures OutUntil(Reserve(h, s, now, who).0, subject, until)
  {
    if h.peers != map[] { assert PeerOk(h, who); }
  }

  /** Nobody of that subject arrives once the cooldown is over. */
  ghost predicate ArrivesBefore(steps: seq<Step>, subject: Subject, until: int) {
    forall i :: 0 <= i < |steps| && steps[i].Arrive? && steps[i].subject == subject ==> steps[i].now < until
  }

  /** And so it is through any run: whoever was put out is told to wait until its cooldown is over, and not a moment longer. */
  lemma {:induction false} OutForTheCooldown(y: Sys, steps: seq<Step>, subject: Subject, until: int, now: int, who: Subject)
    requires Inv(y) && Legal(y, steps) && OutUntil(y.hub, subject, until) && ArrivesBefore(steps, subject, until)
    requires Run(y, steps).hub.peers != map[] ==> Oldest(Run(y, steps).hub.peers, who)
    ensures var h := Run(y, steps).hub;
      && subject !in h.peers && subject !in h.pending
      && (now < until ==> Reserve(h, subject, now, who) == (h, Cooling))
      && (now >= until ==> Reserve(h, subject, now, who).1 != Cooling)
    decreases |steps|
  {
    if steps == [] {
    } else {
      hide Inv, Next, Reserve;
      StepKeeps(y, steps[0]);
      StillOut(y, steps[0], subject, until);
      assert forall i :: 0 <= i < |steps[1..]| ==> steps[1..][i] == steps[i + 1];
      OutForTheCooldown(Next(y, steps[0]), steps[1..], subject, until, now, who);
    }
  }
}
