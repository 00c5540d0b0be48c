/** At-most-once delivery: the receiver forgets old orders after a short run of consecutive ones. */
module AtMostOnce {
  import opened Sets
  import opened WindowSpec
  import opened Permutations

  const LIMIT_AMO: nat := 3

  /** `log` is everything shown to the user. */
  datatype Receiver = Receiver(bound: nat, store: set<nat>, log: seq<Data>)

  const FRESH := Receiver(0, {}, [])

  predicate Refuses(r: Receiver, order: nat) {
    order < r.bound || order in r.store
  }

  function Show(r: Receiver, d: Data): Receiver {
    if Refuses(r, d.order) then r else r.(store := r.store + {d.order}, log := r.log + [d])
  }

  /** All of the LIMIT_AMO orders just before `order` are stored; an order below the limit has no such run. */
  predicate RunBefore(store: set<nat>, order: nat) {
    order >= LIMIT_AMO && forall o | order - LIMIT_AMO <= o < order :: o in store
  }

  /** The three orders just before `order`; there are none before order 3. */
  predicate ThreeBefore(store: set<nat>, order: nat) {
    order >= 3 && order - 1 in store && order - 2 in store && order - 3 in store
  }

  lemma RunOfThree(store: set<nat>, order: nat)
    ensures RunBefore(store, order) <==> ThreeBefore(store, order)
  {
    if ThreeBefore(store, order) {
      forall o | order - LIMIT_AMO <= o < order ensures o in store { assert o in {order - 1, order - 2, order - 3}; }
    }
    if RunBefore(store, order) {
      assert forall o | order - LIMIT_AMO <= o < order :: o in store;
    }
  }

  function OnMessage(r: Receiver, d: Data): Receiver {
    var q := Show(r, d);
    if RunBefore(q.store, d.order) then
      q.(bound := d.order + 1, store := set o | o in q.store && !(q.bound <= o <= d.order))
    else q
  }

  function OnAll(r: Receiver, arrivals: seq<Data>): Receiver {
    if arrivals == [] then r else OnMessage(OnAll(r, arrivals[..|arrivals| - 1]), arrivals[|arrivals| - 1])
  }

  class AtMostOnceSender {
    var order: nat

    constructor ()
      ensures order == 0
    {
      order := 0;
    }

    method OnLocalMessage(text: string) returns (sent: Data)
      modifies this
      ensures sent == Data(old(order), text) && order == old(order) + 1
    {
      sent := Data(order, text);
      order := order + 1;
    }
  }

  class AtMostOnceReceiver {
    var orderLowerBound: nat
    var orderStore: set<nat>
    ghost var log: seq<Data>

    ghost function Abs(): Receiver
      reads this
    {
      Receiver(orderLowerBound, orderStore, log)
    }

    constructor ()
      ensures Abs() == FRESH
    {
      orderLowerBound, orderStore, log := 0, {}, [];
    }

    method HasRunBefore(order: nat) returns (all: bool)
      ensures all == RunBefore(orderStore, order)
      ensures all == ThreeBefore(orderStore, order)
    {
      RunOfThree(orderStore, order);
      var o: int := order - LIMIT_AMO;
      while o < order
        invariant order - LIMIT_AMO <= o <= order
        invariant forall i: nat | order - LIMIT_AMO <= i < o :: i in orderStore
        invariant order - LIMIT_AMO < o ==> order >= LIMIT_AMO
      {
        if o < 0 || o !in orderStore {
          return false;
        }
        o := o + 1;
      }
      return true;
    }

    method Receive(d: Data) returns (local: seq<string>)
      modifies this
      ensures Abs() == OnMessage(old(Abs()), d)
      ensures local == if Refuses(old(Abs()), d.order) then [] else [d.text]
    {
      local := [];
      if d.order >= orderLowerBound && d.order !in orderStore {
        orderStore := orderStore + {d.order};
        log := log + [d];
        local := [d.text];
      }
      ghost var shown := Abs();
      var all := HasRunBefore(d.order);
      if all {
        var o := orderLowerBound;
        while o < d.order + 1
          invariant orderLowerBound == shown.bound && log == shown.log
          invariant shown.bound <= o
          invariant orderStore == set i | i in shown.store && !(shown.bound <= i < o)
          invariant o <= d.order + 1 || o == shown.bound
        {
          orderStore := orderStore - {o};
          o := o + 1;
        }
        orderLowerBound := d.order + 1;
        assert orderStore == set i | i in shown.store && !(shown.bound <= i <= d.order);
      }
    }
  }

  // ---------------------------------------------------------------- the invariant

  /** The receiver after `arrivals`: nothing shown twice, everything stored was shown and is not below the
      bound, and the bound was reached by four consecutive orders that had all been shown. */
  ghost predicate Inv(r: Receiver, arrivals: seq<Data>) {
    && Distinct(r.log)
    && (forall d | d in r.log :: d in arrivals)
    && (forall o | o in r.store :: r.bound <= o)
    && (forall o: nat | r.bound <= o :: o in r.store <==> o in Orders(r.log))
    && (r.bound == 0 || r.bound > LIMIT_AMO)
    && forall o: nat | r.bound <= o + LIMIT_AMO + 1 && o < r.bound :: o in Orders(r.log)
  }

  lemma ShowKeeps(r: Receiver, d: Data, arrivals: seq<Data>)
    requires Inv(r, arrivals)
    ensures Inv(Show(r, d), arrivals + [d]) && Show(r, d).bound == r.bound
    ensures r.bound <= d.order ==> d.order in Show(r, d).store
  {
    hide Distinct, Orders;
    OrdersMore(r.log, d);
    forall e | e in Show(r, d).log ensures e in arrivals + [d] {
      assert e in r.log || e == d;
    }
  }

  lemma BoundKeeps(q: Receiver, order: nat, arrivals: seq<Data>)
    requires Inv(q, arrivals) && RunBefore(q.store, order) && (q.bound <= order ==> order in q.store)
    ensures q.bound + LIMIT_AMO <= order
    ensures Inv(q.(bound := order + 1, store := set o | o in q.store && !(q.bound <= o <= order)), arrivals)
  {
    hide Distinct, Orders;
    assert order - 1 in q.store && order - 2 in q.store && order - 3 in q.store;
    assert order in q.store;
    var r := q.(bound := order + 1, store := set o | o in q.store && !(q.bound <= o <= order));
    forall o: nat | r.bound <= o + LIMIT_AMO + 1 && o < r.bound ensures o in Orders(r.log) {
      assert o in q.store;
    }
  }

  lemma OnMessageKeeps(r: Receiver, d: Data, arrivals: seq<Data>)
    requires Inv(r, arrivals)
    ensures Inv(OnMessage(r, d), arrivals + [d]) && r.bound <= OnMessage(r, d).bound
  {
    hide Inv, RunBefore;
    ShowKeeps(r, d, arrivals);
    var q := Show(r, d);
    if RunBefore(q.store, d.order) {
      BoundKeeps(q, d.order, arrivals + [d]);
    }
  }

  lemma {:induction false} Safety(arrivals: seq<Data>)
    ensures Inv(OnAll(FRESH, arrivals), arrivals)
  {
    if arrivals == [] {
    } else {
      var front, d := arrivals[..|arrivals| - 1], arrivals[|arrivals| - 1];
      Safety(front);
      OnMessageKeeps(OnAll(FRESH, front), d, front);
      assert front + [d] == arrivals;
    }
  }

  // ---------------------------------------------------------------- what follows

  /** No order is ever shown twice, nothing is shown that did not arrive, and the lower bound never decreases. */
  lemma AtMostOnceDelivery(arrivals: seq<Data>, d: Data)
    ensures Distinct(OnAll(FRESH, arrivals).log)
    ensures forall e | e in OnAll(FRESH, arrivals).log :: e in arrivals
    ensures OnAll(FRESH, arrivals).bound <= OnAll(FRESH, arrivals + [d]).bound
    ensures OnAll(FRESH, arrivals).log <= OnAll(FRESH, arrivals + [d]).log
  {
    Safety(arrivals);
    OnMessageKeeps(OnAll(FRESH, arrivals), d, arrivals);
    assert (arrivals + [d])[..|arrivals|] == arrivals;
  }

  /** The orders of the arrivals before a copy that are later than it. */
  ghost function Overtaking(arrivals: seq<Data>, order: nat): set<nat> {
    set o | o in Orders(arrivals) && o > order
  }

  lemma ShownArrived(r: Receiver, arrivals: seq<Data>)
    requires Inv(r, arrivals)
    ensures Orders(r.log) <= Orders(arrivals)
  {
    forall o | o in Orders(r.log) ensures o in Orders(arrivals) {
      var d :| d in r.log && d.order == o;
      assert d in arrivals;
    }
  }

  /** A first copy is refused only if four consecutive later orders arrived before it. */
  lemma RefusedOnlyIfOvertaken(arrivals: seq<Data>, order: nat)
    requires order !in Orders(arrivals) && Refuses(OnAll(FRESH, arrivals), order)
    ensures order + 4 < OnAll(FRESH, arrivals).bound
    ensures forall o: nat | OnAll(FRESH, arrivals).bound <= o + 4 && o < OnAll(FRESH, arrivals).bound ::
      o in Overtaking(arrivals, order)
    ensures |Overtaking(arrivals, order)| >= 4
  {
    Safety(arrivals);
    var r := OnAll(FRESH, arrivals);
    hide OnAll;
    ShownArrived(r, arrivals);
    assert order < r.bound;
    assert order !in Orders(r.log);
    var first := r.bound - 4;
    assert forall o: nat | first <= o < first + 4 :: o in Orders(r.log);
    SubsetSize({first, first + 1, first + 2, first + 3}, Overtaking(arrivals, order));
  }

  // ---------------------------------------------------------------- exactly which messages are lost

  /** An arrival later than `order` came when the three orders just before it had all arrived. */
  ghost predicate PassedAt(arrivals: seq<Data>, order: nat, j: nat)
    requires j < |arrivals|
  {
    order < arrivals[j].order && ThreeBefore(Orders(arrivals[..j]), arrivals[j].order)
  }

  /** The arrivals end a run of consecutive orders above `order`. */
  ghost predicate Passed(arrivals: seq<Data>, order: nat) {
    exists j :: 0 <= j < |arrivals| && PassedAt(arrivals, order, j)
  }

  lemma PassedMore(arrivals: seq<Data>, d: Data, order: nat)
    ensures Passed(arrivals + [d], order) <==>
      Passed(arrivals, order) || (order < d.order && ThreeBefore(Orders(arrivals), d.order))
  {
    hide Orders, ThreeBefore;
    var more := arrivals + [d];
    assert more[..|arrivals|] == arrivals;
    assert PassedAt(more, order, |arrivals|) <==> order < d.order && ThreeBefore(Orders(arrivals), d.order);
    forall j: nat | j < |arrivals| ensures PassedAt(more, order, j) == PassedAt(arrivals, order, j) {
      assert more[..j] == arrivals[..j];
    }
  }

  /** The bound speaks about the arrivals alone: what arrived at or above it has been shown, and of the orders
      that did not arrive exactly the passed ones lie below it. */
  ghost predicate Tracks(r: Receiver, arrivals: seq<Data>) {
    && (forall o: nat | r.bound <= o && o in Orders(arrivals) :: o in Orders(r.log))
    && forall o: nat | o !in Orders(arrivals) :: o < r.bound <==> Passed(arrivals, o)
  }

  /** The receiver moves its bound when a run of arrivals lies entirely at or above it. */
  lemma RunExactly(r: Receiver, arrivals: seq<Data>, d: Data)
    requires Inv(r, arrivals) && Tracks(r, arrivals)
    ensures RunBefore(Show(r, d).store, d.order) <==>
      ThreeBefore(Orders(arrivals), d.order) && r.bound + 3 <= d.order
  {
    RunOfThree(Orders(arrivals), d.order);
    hide Passed, Orders, Distinct;
    ShownArrived(r, arrivals);
    assert forall o: nat | o < d.order :: o in Show(r, d).store <==> o in r.store;
    assert forall o: nat :: o in r.store <==> r.bound <= o && o in Orders(arrivals);
    if RunBefore(Show(r, d).store, d.order) {
      assert d.order - LIMIT_AMO in Show(r, d).store;
    }
  }

  lemma StoredWasShown(r: Receiver, arrivals: seq<Data>, order: nat)
    requires Inv(r, arrivals) && order in r.store
    ensures order in Orders(r.log)
  {
  }

  lemma OnMessageTracks(r: Receiver, d: Data, arrivals: seq<Data>)
    requires Inv(r, arrivals) && Tracks(r, arrivals)
    ensures Tracks(OnMessage(r, d), arrivals + [d])
  {
    hide Passed, Orders, Inv;
    RunExactly(r, arrivals, d);
    OrdersMore(r.log, d);
    OrdersMore(arrivals, d);
    var next := OnMessage(r, d);
    forall o: nat | next.bound <= o && o in Orders(arrivals + [d]) ensures o in Orders(next.log) {
      if d.order in r.store { StoredWasShown(r, arrivals, d.order); }
    }
    forall o: nat | o !in Orders(arrivals + [d]) ensures o < next.bound <==> Passed(arrivals + [d], o) {
      PassedMore(arrivals, d, o);
    }
  }

  lemma {:induction false} AlwaysTracks(arrivals: seq<Data>)
    ensures Tracks(OnAll(FRESH, arrivals), arrivals)
  {
    if arrivals != [] {
      var front, d := arrivals[..|arrivals| - 1], arrivals[|arrivals| - 1];
      Safety(front);
      AlwaysTracks(front);
      OnMessageTracks(OnAll(FRESH, front), d, front);
      assert front + [d] == arrivals;
    }
  }

  /** A first copy is refused if and only if the arrivals so far have passed it. */
  lemma RefusedExactly(arrivals: seq<Data>, order: nat)
    requires order !in Orders(arrivals)
    ensures Refuses(OnAll(FRESH, arrivals), order) <==> Passed(arrivals, order)
  {
    hide OnAll, Passed;
    Safety(arrivals);
    AlwaysTracks(arrivals);
    ShownArrived(OnAll(FRESH, arrivals), arrivals);
  }

  /** Every arrival that is the first of its order comes before a run of later orders has passed it. */
  ghost predicate NonePassed(arrivals: seq<Data>) {
    forall k | 0 <= k < |arrivals| && arrivals[k].order !in Orders(arrivals[..k]) ::
      !Passed(arrivals[..k], arrivals[k].order)
  }

  lemma OnAllMore(arrivals: seq<Data>, d: Data)
    ensures OnAll(FRESH, arrivals + [d]) == OnMessage(OnAll(FRESH, arrivals), d)
  {
    assert (arrivals + [d])[..|arrivals|] == arrivals;
  }

  /** A repeated copy changes nothing about what has been shown. */
  lemma RepeatsChangeNothing(arrivals: seq<Data>, d: Data)
    requires d.order in Orders(arrivals)
    ensures Orders(OnMessage(OnAll(FRESH, arrivals), d).log) == Orders(OnAll(FRESH, arrivals).log)
  {
    hide OnAll, Orders, Passed;
    var r := OnAll(FRESH, arrivals);
    AlwaysTracks(arrivals);
    OrdersMore(r.log, d);
  }

  lemma InOrders(arrivals: seq<Data>, k: nat)
    requires k < |arrivals|
    ensures arrivals[k].order in Orders(arrivals)
  {
    assert arrivals[k] in arrivals;
  }

  /** A message is shown if and only if its first copy came before a run of later orders had passed it;
      nothing that arrives afterwards changes that. */
  lemma {:induction false} ShownExactly(arrivals: seq<Data>, k: nat)
    requires k < |arrivals| && arrivals[k].order !in Orders(arrivals[..k])
    ensures arrivals[k].order in Orders(OnAll(FRESH, arrivals).log) <==> !Passed(arrivals[..k], arrivals[k].order)
    decreases |arrivals|
  {
    hide OnAll, Orders, Passed;
    var front, d := arrivals[..|arrivals| - 1], arrivals[|arrivals| - 1];
    var r := OnAll(FRESH, front);
    assert front + [d] == arrivals;
    OnAllMore(front, d);
    OrdersMore(r.log, d);
    if k == |front| {
      Safety(front);
      ShownArrived(r, front);
      RefusedExactly(front, d.order);
    } else {
      assert front[..k] == arrivals[..k];
      ShownExactly(front, k);
      if d.order == arrivals[k].order {
        InOrders(front, k);
        RepeatsChangeNothing(front, d);
      }
    }
  }

  lemma SomeArrived(arrivals: seq<Data>, order: nat)
    requires order in Orders(arrivals)
    ensures arrivals != []
  {
  }

  lemma {:induction false} FirstCopy(arrivals: seq<Data>, order: nat) returns (k: nat)
    requires order in Orders(arrivals)
    ensures k < |arrivals| && arrivals[k].order == order && order !in Orders(arrivals[..k])
    decreases |arrivals|
  {
    hide Orders;
    SomeArrived(arrivals, order);
    var front, d := arrivals[..|arrivals| - 1], arrivals[|arrivals| - 1];
    assert front + [d] == arrivals;
    OrdersMore(front, d);
    k := |front|;
    if order in Orders(front) {
      k := FirstCopy(front, order);
      assert front[..k] == arrivals[..k];
    }
  }

  /** Everything that arrived is shown if and only if no message was passed before its first copy. */
  lemma AllShownExactly(arrivals: seq<Data>)
    ensures Orders(OnAll(FRESH, arrivals).log) == Orders(arrivals) <==> NonePassed(arrivals)
  {
    hide OnAll, Orders, Passed;
    Safety(arrivals);
    ShownArrived(OnAll(FRESH, arrivals), arrivals);
    forall k: nat | k < |arrivals| && arrivals[k].order !in Orders(arrivals[..k])
      ensures arrivals[k].order in Orders(arrivals)
      ensures arrivals[k].order in Orders(OnAll(FRESH, arrivals).log) <==> !Passed(arrivals[..k], arrivals[k].order)
    {
      InOrders(arrivals, k);
      ShownExactly(arrivals, k);
    }
    forall o | o in Orders(arrivals) && NonePassed(arrivals) ensures o in Orders(OnAll(FRESH, arrivals).log) {
      var k := FirstCopy(arrivals, o);
    }
  }

  lemma AllBelow(arrivals: seq<Data>, n: nat)
    requires forall d | d in arrivals :: d.order < n
    ensures forall o | o in Orders(arrivals) :: o < n
  {
  }

  lemma {:induction false} OrdersCount(log: seq<Data>)
    requires Distinct(log)
    ensures |Orders(log)| == |log| == |TextsOf(log)|
  {
    if log == [] {
      assert Orders(log) == {};
    } else {
      var front, d := log[..|log| - 1], log[|log| - 1];
      OrdersCount(front);
      OrdersMore(front, d);
      assert front + [d] == log;
    }
  }

  /** A run that loses nothing shows every text exactly once if and only if no message is passed. */
  lemma LosslessDeliveryExactly(arrivals: seq<Data>, texts: seq<string>)
    requires forall d | d in arrivals :: d.order < |texts| && d.text == texts[d.order]
    requires forall o: nat | o < |texts| :: o in Orders(arrivals)
    ensures multiset(TextsOf(OnAll(FRESH, arrivals).log)) == multiset(texts) <==> NonePassed(arrivals)
  {
    hide OnAll, Orders, TextsOf, NonePassed, Distinct;
    var log := OnAll(FRESH, arrivals).log;
    Safety(arrivals);
    AllShownExactly(arrivals);
    if NonePassed(arrivals) {
      Rearranged(log, texts);
    } else {
      ShownArrived(OnAll(FRESH, arrivals), arrivals);
      var o :| o in Orders(arrivals) && o !in Orders(log);
      AllBelow(arrivals, |texts|);
      RangeSize(0, |texts|, Orders(log) + {o});
      OrdersCount(log);
      assert |multiset(TextsOf(log))| < |multiset(texts)|;
    }
  }

  // ---------------------------------------------------------------- bounded reordering

  lemma ThreeOrders(three: seq<Data>)
    requires |three| == 3 && forall i | 0 <= i < 3 :: three[i].order == i + 1
    ensures Orders(three) == {1, 2, 3}
  {
    forall o ensures o in Orders(three) <==> o in {1, 2, 3} {
      if o in {1, 2, 3} { assert three[o - 1] in three; }
    }
  }

  lemma PassedByFourth(four: seq<Data>)
    requires |four| == 4 && four[3].order == 4 && Orders(four[..3]) == {1, 2, 3}
    ensures Passed(four, 0)
  {
    assert PassedAt(four, 0, 3);
  }

  /** Four is the exact threshold: overtaken by 1, 2, 3 and 4, message 0 is lost. */
  lemma FourOvertakingLose()
    ensures var arrivals := [Data(1, "b"), Data(2, "c"), Data(3, "d"), Data(4, "e"), Data(0, "a")];
      |Overtaking(arrivals[..4], 0)| == 4 && 0 !in Orders(OnAll(FRESH, arrivals).log)
  {
    hide OnAll, Orders, Passed;
    var arrivals := [Data(1, "b"), Data(2, "c"), Data(3, "d"), Data(4, "e"), Data(0, "a")];
    ThreeOrders(arrivals[..3]);
    OrdersMore(arrivals[..3], arrivals[3]);
    assert arrivals[..3] + [arrivals[3]] == arrivals[..4];
    assert Overtaking(arrivals[..4], 0) == {1, 2, 3, 4};
    assert Passed(arrivals[..4], 0) by {
      assert arrivals[..4][..3] == arrivals[..3];
      PassedByFourth(arrivals[..4]);
    }
    ShownExactly(arrivals, 4);
  }

  /** In every prefix of the arrivals, fewer than four later messages have overtaken a message that has not arrived. */
  ghost predicate Gentle(arrivals: seq<Data>) {
    forall k | 0 <= k < |arrivals| && arrivals[k].order !in Orders(arrivals[..k]) ::
      |Overtaking(arrivals[..k], arrivals[k].order)| < 4
  }

  lemma OrdersOfPrefix(arrivals: seq<Data>, j: nat)
    requires j <= |arrivals|
    ensures Orders(arrivals[..j]) <= Orders(arrivals)
  {
    forall o | o in Orders(arrivals[..j]) ensures o in Orders(arrivals) {
      var d :| d in arrivals[..j] && d.order == o;
      assert d in arrivals;
    }
  }

  /** Passing an order that has not arrived takes four later ones. */
  lemma PassingTakesFour(arrivals: seq<Data>, order: nat)
    requires order !in Orders(arrivals) && Passed(arrivals, order)
    ensures |Overtaking(arrivals, order)| >= 4
  {
    hide Orders;
    var j :| 0 <= j < |arrivals| && PassedAt(arrivals, order, j);
    var last := arrivals[j].order;
    forall o | o in Orders(arrivals[..j]) ensures o in Orders(arrivals) { OrdersOfPrefix(arrivals, j); }
    InOrders(arrivals, j);
    assert last - 1 in Orders(arrivals[..j]) && last - 2 in Orders(arrivals[..j]) && last - 3 in Orders(arrivals[..j]);
    SubsetSize({last - 3, last - 2, last - 1, last}, Overtaking(arrivals, order));
  }

  lemma GentlePassesNone(arrivals: seq<Data>)
    requires Gentle(arrivals)
    ensures NonePassed(arrivals)
  {
    hide Orders, Passed, Overtaking;
    forall k | 0 <= k < |arrivals| && arrivals[k].order !in Orders(arrivals[..k])
      ensures !Passed(arrivals[..k], arrivals[k].order)
    {
      if Passed(arrivals[..k], arrivals[k].order) { PassingTakesFour(arrivals[..k], arrivals[k].order); }
    }
  }

  /** Under bounded reordering whatever arrives is shown. */
  lemma GentleShowsAll(arrivals: seq<Data>)
    requires Gentle(arrivals)
    ensures Orders(OnAll(FRESH, arrivals).log) == Orders(arrivals)
  {
    GentlePassesNone(arrivals);
    AllShownExactly(arrivals);
  }

  /** A run that loses nothing and reorders gently shows every text exactly once. */
  lemma GentleLosslessDelivery(arrivals: seq<Data>, texts: seq<string>)
    requires Gentle(arrivals)
    requires forall d | d in arrivals :: d.order < |texts| && d.text == texts[d.order]
    requires forall o: nat | o < |texts| :: o in Orders(arrivals)
    ensures multiset(TextsOf(OnAll(FRESH, arrivals).log)) == multiset(texts)
  {
    GentlePassesNone(arrivals);
    LosslessDeliveryExactly(arrivals, texts);
  }
}
