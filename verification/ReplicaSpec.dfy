/** One node of the replicated store: the coordinator's event and the replica's register, as values. */
module ReplicaSpec {
  import opened Items
  import opened Options

  const REPLICAS := 3

  type Key = string

  datatype Op = Get | Put

  /** A request sent to a replica on behalf of client operation `id`; a Get carries no item of its own. */
  datatype Request = Request(id: nat, from: nat, to: nat, op: Op, key: Key, item: Item)

  /** A replica's answer: the item it stores. */
  datatype Reply = Reply(id: nat, from: nat, to: nat, key: Key, item: Item)

  /** `resp` keeps, for each replica, the newest item it reported, once the stale ones have been dropped;
      `handoff` is the node to turn to next when the timer fires. */
  datatype Event = Event(op: Op, key: Key, quorum: int, sent: bool, resp: map<nat, Item>, handoff: nat)

  function Stored(data: map<Key, Item>, key: Key): Item {
    if key in data then data[key] else NONE
  }

  function NextReplica(i: nat, n: nat): nat
    requires n > 0
  {
    (i + 1) % n
  }

  function KeyReplicas(h: nat, n: nat): seq<nat>
    requires n > 0
  {
    var a := h % n;
    var b := NextReplica(a, n);
    [a, b, NextReplica(b, n)]
  }

  lemma OneMoreRound(q: nat, n: nat)
    ensures q * n + n == (q + 1) * n
  {
  }

  lemma {:induction false} RoundsApart(q: nat, q': nat, n: nat)
    requires q < q'
    ensures q * n + n <= q' * n
    decreases q'
  {
    OneMoreRound(q' - 1, n);
    if q < q' - 1 { RoundsApart(q, q' - 1, n); }
  }

  lemma SameRemainder(q: nat, r: nat, q': nat, r': nat, n: nat)
    requires q * n + r == q' * n + r' && r < n && r' < n
    ensures r == r'
  {
    if q < q' { RoundsApart(q, q', n); } else if q' < q { RoundsApart(q', q, n); }
  }

  lemma Remainder(i: nat, n: nat) returns (q: nat, r: nat)
    requires n > 0
    ensures i == q * n + r && r == i % n && r < n
  {
    q, r := i / n, i % n;
  }

  lemma NextInARow(i: nat, n: nat)
    requires n > 0
    ensures NextReplica(i % n, n) == (i + 1) % n
  {
    var q, r := Remainder(i, n);
    var q', r' := Remainder(i + 1, n);
    if r + 1 == n {
      OneMoreRound(q, n);
      SameRemainder(q + 1, 0, q', r', n);
    } else {
      SameRemainder(q, r + 1, q', r', n);
    }
  }

  /** The replicas are three nodes in a row, from the one the key hashes to on. */
  lemma ReplicasInARow(h: nat, n: nat)
    requires n > 0
    ensures KeyReplicas(h, n) == [h % n, (h + 1) % n, (h + 2) % n]
    ensures NextReplica(KeyReplicas(h, n)[2], n) == (h + 3) % n
  {
    NextInARow(h, n);
    NextInARow(h + 1, n);
    NextInARow(h + 2, n);
  }

  /** The event of a new operation on a key with hash `h`: no answers yet, and the node after the replicas next. */
  function Opened(op: Op, key: Key, quorum: int, h: nat, n: nat): Event
    requires n > 0
  {
    Event(op, key, quorum, false, map[], NextReplica(KeyReplicas(h, n)[REPLICAS - 1], n))
  }

  function ReplicaSet(h: nat, n: nat): set<nat>
    requires n > 0
  {
    set r | r in KeyReplicas(h, n)
  }

  lemma Apart(a: nat, n: nat)
    requires n >= 3 && a < n
    ensures var b := NextReplica(a, n); var c := NextReplica(b, n); a != b && b != c && a != c
  {
  }

  /** The three replicas are nodes of the system, and distinct exactly when there are three nodes. */
  lemma ReplicasDistinct(h: nat, n: nat)
    requires n > 0
    ensures forall r | r in KeyReplicas(h, n) :: r < n
    ensures |ReplicaSet(h, n)| == REPLICAS <==> n >= REPLICAS
    ensures |ReplicaSet(h, n)| <= REPLICAS
  {
    var s := ReplicaSet(h, n);
    var a, b, c := KeyReplicas(h, n)[0], KeyReplicas(h, n)[1], KeyReplicas(h, n)[2];
    assert s == {a, b, c};
    if n == 1 { assert a == b == c; assert s == {a}; }
    if n == 2 { assert c == a; assert s == {a, b}; }
    if n >= 3 { Apart(a, n); assert a != b && b != c && a != c; assert |{a, b, c}| == 3; }
  }

  function Requests(id: nat, from: nat, replicas: seq<nat>, op: Op, key: Key, item: Item): seq<Request> {
    seq(|replicas|, i requires 0 <= i < |replicas| => Request(id, from, replicas[i], op, key, item))
  }

  // ---------------------------------------------------------------- the replica

  function Serve(data: map<Key, Item>, req: Request): map<Key, Item> {
    if req.op.Put? && Less(Stored(data, req.key), req.item) then data[req.key := req.item] else data
  }

  /** The writes a node keeps for the replicas of some keys without being one, and which of them it still
      has to tell. */
  datatype StandIn = StandIn(data: map<Key, Item>, waiting: set<nat>)

  function StandInFor(standIns: map<nat, StandIn>, group: nat, replicas: seq<nat>): StandIn {
    if group in standIns then standIns[group] else StandIn(map[], set r | r in replicas)
  }

  // ---------------------------------------------------------------- the coordinator

  /** The client sees an empty value as no record. */
  function Shown(value: string): Option<string> {
    if value == "" then None else Some(value)
  }

  ghost predicate IsTop(resp: map<nat, Item>, top: Item) {
    top in resp.Values && forall r | r in resp :: Leq(resp[r], top)
  }

  /** The event with one more answer recorded; an older answer never replaces a newer one. */
  function Record(e: Event, from: nat, item: Item): Event {
    if from in e.resp && !Leq(e.resp[from], item) then e else e.(resp := e.resp[from := item])
  }

  function Stale(resp: map<nat, Item>, top: Item): set<nat> {
    set r | r in resp && Less(resp[r], top)
  }

  function Repairs(id: nat, at: nat, e: Event, stale: set<nat>, top: Item): set<Request> {
    set r | r in stale :: Request(id, at, r, Put, e.key, top)
  }

  /** What remains are the replicas that hold the newest item; enough of them make an answer. */
  function Settle(e: Event, top: Item): Event {
    var resp := e.resp - Stale(e.resp, top);
    e.(resp := resp, sent := e.sent || |resp| >= e.quorum)
  }

  predicate Answers(e: Event, top: Item) {
    !e.sent && |e.resp - Stale(e.resp, top)| >= e.quorum
  }
}
