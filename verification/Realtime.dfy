/** The hub as an object: peers are references, and a peer is itself only when it is the same reference. */
module Realtime {
  import opened Words
  import opened Seats

  const DEFAULT_LIMIT: nat := 1000
  const DEFAULT_COOLDOWN: int := 60_000

  class Client {
    const subject: Subject
    const serial: nat
    var lastDelivered: int

    constructor (subject: Subject, serial: nat, now: int)
      ensures this.subject == subject && this.serial == serial && lastDelivered == now
    {
      this.subject, this.serial, lastDelivered := subject, serial, now;
    }

    function Row(): Peer
      reads this
    {
      Peer(subject, serial, lastDelivered)
    }
  }

  class Table {
    const limit: nat
    const cooldown: int
    var peers: map<Subject, Client>
    var pending: set<Subject>
    var cooldowns: map<Subject, int>
    ghost var made: set<Client>      // every client that was ever connected

    ghost predicate Valid()
      reads this, made
    {
      && (forall s :: s in peers ==> peers[s] in made && peers[s].subject == s)
      && (forall a, b :: a in made && b in made && a.serial == b.serial ==> a == b)
    }

    ghost function View(): Hub
      requires Valid()
      reads this, made
    {
      Hub(limit, cooldown, map s | s in peers :: peers[s].Row(), pending, cooldowns)
    }

    constructor (maxConnections: int, fallbackCooldown: int)
      ensures Valid() && fresh(made)
      ensures View() == Fresh(if maxConnections <= 0 then DEFAULT_LIMIT else maxConnections,
                              if fallbackCooldown <= 0 then DEFAULT_COOLDOWN else fallbackCooldown).hub
    {
      limit := if maxConnections <= 0 then DEFAULT_LIMIT else maxConnections;
      cooldown := if fallbackCooldown <= 0 then DEFAULT_COOLDOWN else fallbackCooldown;
      peers, pending, cooldowns, made := map[], {}, map[], {};
    }

    /** A scan in whatever order the map gives. */
    method OldestPeer() returns (oldest: Client?)
      requires Valid()
      ensures oldest == null <==> peers == map[]
      ensures oldest != null ==> oldest.subject in peers && peers[oldest.subject] == oldest
                                 && Oldest(View().peers, oldest.subject)
    {
      oldest := null;
      var left := peers.Keys;
      while left != {}
        invariant left <= peers.Keys
        invariant oldest == null <==> left == peers.Keys
        invariant oldest != null ==> oldest.subject in peers && peers[oldest.subject] == oldest
        invariant oldest != null ==>
          forall s :: s in peers.Keys - left ==> oldest.lastDelivered <= peers[s].lastDelivered
        decreases |left|
      {
        var s :| s in left;
        if oldest == null || peers[s].lastDelivered < oldest.lastDelivered {
          oldest := peers[s];
        }
        left := left - {s};
      }
    }

    method SwapSeat(out: Client, subject: Subject, cooldowns: map<Subject, int>)
      requires Valid() && out.subject in peers && peers[out.subject] == out
      modifies this`peers, this`pending, this`cooldowns
      ensures Valid() && View() == Swap(old(View()), out.subject, subject, cooldowns)
      ensures old(View()).peers[out.subject] == out.Row()
    {
      Drop(out.subject);
      pending := pending + {subject};
      this.cooldowns := cooldowns;
    }

    /** `who` is the peer the scan found, for the specification. */
    method PutOutOldest(subject: Subject, now: int) returns (evicted: Client?, answer: Answer, ghost who: Subject)
      requires Valid()
      modifies this`peers, this`pending, this`cooldowns
      ensures Valid()
      ensures old(View()).peers != map[] ==> Oldest(old(View()).peers, who)
      ensures (View(), answer) == PutOut(old(View()), subject, now, who)
      ensures evicted != null <==> answer.Reserved? && answer.evicted.Some?
      ensures evicted != null ==> evicted in made && evicted.Row() == answer.evicted.value
    {
      hide Swap, Oldest;
      SameCount();
      evicted := OldestPeer();
      if evicted == null {
        return null, Full, subject;
      }
      SwapSeat(evicted, subject, cooldowns[evicted.subject := now + cooldown]);
      return evicted, Reserved(Some(evicted.Row())), evicted.subject;
    }

    method ClaimSeat(subject: Subject, now: int) returns (evicted: Client?, answer: Answer, ghost who: Subject)
      requires Valid()
      modifies this`peers, this`pending, this`cooldowns
      ensures Valid()
      ensures old(View()).peers != map[] ==> Oldest(old(View()).peers, who)
      ensures (View(), answer) == Claim(old(View()), subject, now, who)
      ensures evicted != null <==> answer.Reserved? && answer.evicted.Some?
      ensures evicted != null ==> evicted in made && evicted.Row() == answer.evicted.value
    {
      hide Swap, Oldest, PutOut;
      SameCount();
      if subject !in pending && subject !in peers && |peers| + |pending| >= limit {
        evicted, answer, who := PutOutOldest(subject, now);
        return;
      }
      hide Claim;
      who := AnyOldest();
      ClaimCases(View(), subject, now, who);
      if subject in pending {
        return null, Full, who;
      }
      if subject in peers {
        evicted := peers[subject];
        SwapSeat(evicted, subject, cooldowns);
        answer := Reserved(Some(evicted.Row()));
      } else {
        TakeFree(subject);
        return null, Reserved(None), who;
      }
    }

    method TakeFree(subject: Subject)
      requires Valid()
      modifies this`pending
      ensures Valid() && View() == old(View()).(pending := old(View()).pending + {subject})
    {
      pending := pending + {subject};
    }

    ghost method AnyOldest() returns (who: Subject)
      requires Valid()
      ensures View().peers != map[] ==> Oldest(View().peers, who)
    {
      SameCount();
      who := OldestKey(View().peers);
    }

    lemma SameCount()
      requires Valid()
      ensures View().peers.Keys == peers.Keys && |View().peers| == |peers|
    {
      assert View().peers.Keys == peers.Keys;
      assert |View().peers| == |View().peers.Keys| && |peers| == |peers.Keys|;
    }

    method Reserve(subject: Subject, now: int) returns (evicted: Client?, answer: Answer, ghost who: Subject)
      requires Valid()
      modifies this`peers, this`pending, this`cooldowns
      ensures Valid()
      ensures old(View()).peers != map[] ==> Oldest(old(View()).peers, who)
      ensures (View(), answer) == Seats.Reserve(old(View()), subject, now, who)
      ensures evicted != null <==> answer.Reserved? && answer.evicted.Some?
      ensures evicted != null ==> evicted in made && evicted.Row() == answer.evicted.value
    {
      hide Claim;
      if subject in cooldowns && now < cooldowns[subject] {
        who := AnyOldest();
        return null, Cooling, who;
      }
      cooldowns := cooldowns - {subject};
      assert View() == old(View()).(cooldowns := old(View()).cooldowns - {subject});
      evicted, answer, who := ClaimSeat(subject, now);
    }

    method Drop(subject: Subject)
      requires Valid() && subject in peers
      modifies this`peers
      ensures Valid() && View() == old(View()).(peers := old(View()).peers - {subject})
    {
      peers := peers - {subject};
    }

    method CancelReservation(subject: Subject)
      requires Valid()
      modifies this`pending
      ensures Valid() && View() == Cancel(old(View()), subject)
    {
      pending := pending - {subject};
    }

    method Register(peer: Client) returns (ok: bool)
      requires Valid() && forall c :: c in made && c != peer ==> c.serial != peer.serial
      modifies this
      ensures Valid() && made == old(made) + {peer}
      ensures (View(), ok) == Seats.Register(old(View()), peer.Row())
    {
      made := made + {peer};
      assert View().peers == old(View()).peers;
      if peer.subject !in pending {
        return false;
      }
      pending := pending - {peer.subject};
      peers := peers[peer.subject := peer];
      assert View().peers == old(View()).peers[peer.subject := peer.Row()];
      ok := true;
    }

    method Remove(peer: Client)
      requires Valid() && peer in made
      modifies this`peers
      ensures Valid() && View() == Seats.Remove(old(View()), peer.subject, peer.serial)
    {
      if peer.subject in peers && peers[peer.subject] == peer {
        Drop(peer.subject);
      }
    }

    method DetachSlowPeer(peer: Client, now: int)
      requires Valid() && peer in made
      modifies this`peers, this`cooldowns
      ensures Valid() && View() == Detach(old(View()), peer.subject, peer.serial, now)
    {
      if peer.subject in peers && peers[peer.subject] == peer {
        Drop(peer.subject);
        cooldowns := cooldowns[peer.subject := now + cooldown];
      }
    }

    method Touch(subject: Subject, now: int)
      requires Valid()
      modifies made
      ensures Valid() && View() == old(View()).(peers := Touched(old(View()).peers, subject, now))
    {
      if subject in peers {
        peers[subject].lastDelivered := now;
      }
    }

    method RecordCompletedDelivery(sender: Subject, recipient: Subject, now: int)
      requires Valid()
      modifies made
      ensures Valid() && View() == Deliver(old(View()), sender, recipient, now)
    {
      Touch(sender, now);
      Touch(recipient, now);
    }
  }
}
