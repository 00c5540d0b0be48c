/** The window sender and the two exactly-once receivers as objects. */
module WindowNodes {
  import opened WindowSpec

  /** `ExactlyOnceSender` and `ExactlyOnceOrderedSender` differ only in the limit. */
  class WindowSender {
    const limit: nat
    var order: nat
    var orderLowerBound: nat
    var messageStore: map<nat, string>
    /** Timers set with the framework and not fired yet. */
    var timers: set<nat>

    ghost function Abs(): Sender
      reads this
    {
      Sender(order, orderLowerBound, messageStore, timers)
    }

    constructor (limit: nat)
      ensures Abs() == Sender(0, 0, map[], {}) && this.limit == limit
    {
      this.limit := limit;
      order, orderLowerBound := 0, 0;
      messageStore, timers := map[], {};
    }

    method OnLocalMessage(text: string) returns (sent: seq<Data>)
      modifies this
      ensures Abs() == OnLocal(old(Abs()), text)
      ensures sent == Sent(old(Abs()), old(order), text, limit)
      ensures sent == if old(order) <= old(orderLowerBound) + limit then [Data(old(order), text)] else []
      ensures order == old(order) + 1 && orderLowerBound == old(orderLowerBound)
      ensures messageStore == old(messageStore)[old(order) := text] && timers == old(timers) + {old(order)}
    {
      sent := [];
      messageStore := messageStore[order := text];
      if order <= orderLowerBound + limit {
        sent := [Data(order, text)];
      }
      timers := timers + {order};
      order := order + 1;
    }

    method OnMessage(a: Ack)
      modifies this
      ensures Abs() == OnAck(old(Abs()), a)
      ensures messageStore == old(messageStore) - {a.order}
      ensures orderLowerBound >= old(orderLowerBound) && orderLowerBound >= a.bound
      ensures orderLowerBound in {old(orderLowerBound), a.bound} && order == old(order) && timers == old(timers)
    {
      messageStore := messageStore - {a.order};
      orderLowerBound := if orderLowerBound < a.bound then a.bound else orderLowerBound;
    }

    method OnTimerFired(fired: nat) returns (sent: seq<Data>)
      requires fired in timers
      modifies this
      ensures Abs() == OnTimer(old(Abs()), fired)
      ensures sent == Resent(old(Abs()), fired, limit)
      ensures sent ==
        if fired in messageStore && fired <= orderLowerBound + limit then [Data(fired, messageStore[fired])] else []
      ensures fired in timers <==> fired in messageStore
      ensures messageStore == old(messageStore) && orderLowerBound == old(orderLowerBound) && order == old(order)
    {
      sent := [];
      timers := timers - {fired};
      if fired !in messageStore {
        return;
      }
      if fired <= orderLowerBound + limit {
        sent := [Data(fired, messageStore[fired])];
      }
      timers := timers + {fired};
    }
  }

  class ExactlyOnceReceiver {
    var orderLowerBound: nat
    var orderStore: set<nat>

    ghost function Abs(): Window
      reads this
    {
      Window(orderLowerBound, orderStore)
    }

    constructor ()
      ensures Abs() == Window(0, {})
    {
      orderLowerBound, orderStore := 0, {};
    }

    /** `local` is what the user is shown: the text the first time its order is seen, nothing otherwise. */
    method OnMessage(d: Data) returns (ack: Ack, local: seq<string>)
      modifies this
      ensures Abs() == Take(old(Abs()), d.order)
      ensures ack == Ack(d.order, orderLowerBound)
      ensures local == if Seen(old(Abs()), d.order) then [] else [d.text]
    {
      local := [];
      if d.order >= orderLowerBound && d.order !in orderStore {
        orderStore := orderStore + {d.order};
        local := [d.text];
      }
      ghost var full := Abs();
      while orderLowerBound in orderStore
        invariant Compact(Abs()) == Compact(full)
        decreases |orderStore|
      {
        orderStore := orderStore - {orderLowerBound};
        orderLowerBound := orderLowerBound + 1;
      }
      ack := Ack(d.order, orderLowerBound);
    }
  }

  /** What the ordered receiver holds: the texts above its bound that arrived early. */
  datatype Ordered = Ordered(bound: nat, store: map<nat, string>, log: seq<string>)

  /** Show the user every text that is next in order. */
  function Flush(r: Ordered): Ordered
    decreases |r.store|
  {
    if r.bound in r.store then
      assert r.store.Keys == (r.store - {r.bound}).Keys + {r.bound};
      Flush(Ordered(r.bound + 1, r.store - {r.bound}, r.log + [r.store[r.bound]]))
    else r
  }

  function Keep(r: Ordered, d: Data): Ordered {
    if d.order >= r.bound && d.order !in r.store then Flush(r.(store := r.store[d.order := d.text])) else r
  }

  class ExactlyOnceOrderedReceiver {
    var orderLowerBound: nat
    var messageStore: map<nat, string>
    ghost var log: seq<string>

    ghost function Abs(): Ordered
      reads this
    {
      Ordered(orderLowerBound, messageStore, log)
    }

    constructor ()
      ensures Abs() == Ordered(0, map[], [])
    {
      orderLowerBound, messageStore, log := 0, map[], [];
    }

    method OnMessage(d: Data) returns (ack: Ack, local: seq<string>)
      modifies this
      ensures Abs() == Keep(old(Abs()), d)
      ensures ack == Ack(d.order, orderLowerBound)
      ensures log == old(log) + local
    {
      local := [];
      if d.order >= orderLowerBound && d.order !in messageStore {
        messageStore := messageStore[d.order := d.text];
        ghost var full := Abs();
        while orderLowerBound in messageStore
          invariant Flush(Abs()) == Flush(full)
          invariant log == old(log) + local
          decreases |messageStore|
        {
          var text := messageStore[orderLowerBound];
          local := local + [text];
          log := log + [text];
          messageStore := messageStore - {orderLowerBound};
          orderLowerBound := orderLowerBound + 1;
        }
      }
      ack := Ack(d.order, orderLowerBound);
    }
  }
}
