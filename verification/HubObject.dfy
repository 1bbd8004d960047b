/** The hub object (backend/internal/wsserver/hub.go): the client set and each client's bounded channel,
    updated in place under the lock. `Hub.UndisturbedBroadcast` is the machine's account of
    `Broadcast`, in terms of the same `Offered`. */
module HubObject {
  import opened Hub

  class Subscriber {
    var send: seq<nat>
    var closed: bool

    constructor ()
      ensures send == [] && !closed
    {
      send, closed := [], false;
    }

    /** The non-blocking send; on a closed channel it would panic. */
    method Offer(msg: nat) returns (sent: bool)
      requires !closed
      modifies this`send
      ensures sent <==> |old(send)| < BUFFER
      ensures send == Offered(old(send), msg)
    {
      sent := |send| < BUFFER;
      if sent {
        send := send + [msg];
      }
    }
  }

  class HubClients {
    var clients: set<Subscriber>

    /** Every registered client's channel is open. */
    ghost predicate Valid()
      reads this, clients
    {
      forall c | c in clients :: !c.closed
    }

    constructor ()
      ensures clients == {} && Valid()
    {
      clients := {};
    }

    /** The first half of `Register`. */
    method Join() returns (c: Subscriber)
      requires Valid()
      modifies this
      ensures Valid() && fresh(c) && c.send == [] && clients == old(clients) + {c}
    {
      c := new Subscriber();
      clients := clients + {c};
    }

    /** The end of `Register`: the client leaves the map before its channel is closed. */
    method Leave(c: Subscriber)
      requires Valid()
      modifies this, c`closed
      ensures Valid() && clients == old(clients) - {c} && c.closed
    {
      clients := clients - {c};
      c.closed := true;
    }

    /** Visits every client once, in any order, and skips exactly those with 32 messages pending. No
        client's channel depends on another's. */
    method Broadcast(msg: nat) returns (skipped: set<Subscriber>)
      requires Valid()
      modifies clients`send
      ensures Valid()
      ensures forall c | c in clients :: c.send == if |old(c.send)| < 32 then old(c.send) + [msg] else old(c.send)
      ensures skipped == set c | c in clients && |old(c.send)| >= 32
    {
      skipped := {};
      var rest := clients;
      while rest != {}
        invariant rest <= clients
        invariant forall c | c in rest :: c.send == old(c.send)
        invariant forall c | c in clients && c !in rest :: c.send == Offered(old(c.send), msg)
        invariant skipped == set c | c in clients && c !in rest && |old(c.send)| >= BUFFER
        decreases rest
      {
        var c :| c in rest;
        rest := rest - {c};
        var sent := c.Offer(msg);
        if !sent {
          skipped := skipped + {c};
        }
      }
    }
  }
}
