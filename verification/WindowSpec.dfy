/** Exactly-once delivery through a sliding window: the sender, and what a receiver remembers, as values. */
module WindowSpec {

  const LIMIT_EO: nat := 21
  const LIMIT_EOO: nat := 30

  datatype Data = Data(order: nat, text: string)
  datatype Ack = Ack(order: nat, bound: nat)

  /** `timers` holds the orders whose timer is pending. */
  datatype Sender = Sender(order: nat, bound: nat, store: map<nat, string>, timers: set<nat>)

  function Max(a: nat, b: nat): nat {
    if a < b then b else a
  }

  function Sent(s: Sender, order: nat, text: string, limit: nat): seq<Data> {
    if order <= s.bound + limit then [Data(order, text)] else []
  }

  function OnLocal(s: Sender, text: string): Sender {
    Sender(s.order + 1, s.bound, s.store[s.order := text], s.timers + {s.order})
  }

  function OnAck(s: Sender, a: Ack): Sender {
    s.(store := s.store - {a.order}, bound := Max(s.bound, a.bound))
  }

  /** A fired timer is no longer pending; it is set again as long as its message is not acknowledged. */
  function OnTimer(s: Sender, order: nat): Sender {
    if order in s.store then s else s.(timers := s.timers - {order})
  }

  function Resent(s: Sender, order: nat, limit: nat): seq<Data> {
    if order in s.store then Sent(s, order, s.store[order], limit) else []
  }

  /** A receiver's memory of the orders it has seen: all below `bound`, and those in `held`. */
  datatype Window = Window(bound: nat, held: set<nat>)

  predicate Seen(w: Window, order: nat) {
    order < w.bound || order in w.held
  }

  /** Nothing that could be forgotten is still held. */
  predicate Compacted(w: Window) {
    forall o | o in w.held :: w.bound < o
  }

  function Compact(w: Window): Window
    decreases |w.held|
  {
    if w.bound in w.held then Compact(Window(w.bound + 1, w.held - {w.bound})) else w
  }

  function Take(w: Window, order: nat): Window {
    Compact(if Seen(w, order) then w else Window(w.bound, w.held + {order}))
  }

  /** Compacting loses nothing: the same orders count as seen before and after. */
  lemma {:induction false} CompactMeans(w: Window)
    requires forall o | o in w.held :: w.bound <= o
    ensures Compacted(Compact(w)) && w.bound <= Compact(w).bound
    ensures forall o :: Seen(Compact(w), o) <==> Seen(w, o)
    ensures Compact(w).held <= w.held
    decreases |w.held|
  {
    if w.bound in w.held {
      CompactMeans(Window(w.bound + 1, w.held - {w.bound}));
    }
  }

  /** The window denotes exactly the set of orders ever taken. */
  lemma TakeMeans(w: Window, order: nat)
    requires Compacted(w)
    ensures Compacted(Take(w, order)) && w.bound <= Take(w, order).bound
    ensures forall o :: Seen(Take(w, order), o) <==> Seen(w, o) || o == order
    ensures Take(w, order).held <= w.held + {order}
    ensures Seen(w, order) ==> Take(w, order) == w
  {
    CompactMeans(if Seen(w, order) then w else Window(w.bound, w.held + {order}));
  }
}
