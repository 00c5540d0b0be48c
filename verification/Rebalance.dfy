/** One node joins or leaves: the notices and the UPDATE may be handled in any order, and the records
    stay a partition of the same map throughout. */
module Rebalance {
  import opened RingSpec
  import opened RingNode

  datatype Change = Join(a: Key) | Leave(a: Key)

  /** `pending` are the nodes that have not handled the notice yet. */
  datatype System = System(nodes: map<Key, Node>, pending: set<Key>, flight: set<Update>)

  datatype Step = Notice(p: Key) | Deliver(u: Update)

  /** The ring before and after the change, for a change that is possible at all. */
  ghost predicate Possible(h: Key -> nat, d: seq<Entry>, c: Change) {
    && Ring(h, d) && d != []
    && match c
       case Join(a) => forall m | m in Members(d) :: h(m) != h(a)
       case Leave(a) => a in Members(d) && |d| > 1
  }

  function NewRing(h: Key -> nat, d: seq<Entry>, c: Change): seq<Entry>
    requires d != []
  {
    match c
    case Join(a) => Add(h, d, a)
    case Leave(a) => Remove(h, d, a)
  }

  /** The records of `all` that node `p` is responsible for under ring `d`. */
  function Part(h: Key -> nat, d: seq<Entry>, all: Data, p: Key): Data
    requires d != []
  {
    map k | k in all && Closest(h, d, k) == p :: all[k]
  }

  ghost predicate Enabled(h: Key -> nat, c: Change, g: System, step: Step) {
    match step
    case Notice(p) =>
      && p in g.pending && p in g.nodes && g.nodes[p].ring != []
      && (c.Leave? && g.nodes[p].id == c.a ==> Remove(h, g.nodes[p].ring, c.a) != [])
    case Deliver(u) => u in g.flight && u.to in g.nodes
  }

  ghost function Apply(h: Key -> nat, c: Change, g: System, step: Step): System
    requires Enabled(h, c, g, step)
  {
    match step
    case Notice(p) =>
      var x := g.nodes[p];
      System(g.nodes[p := if c.Join? then Added(h, x, c.a) else Removed(h, x, c.a)],
             g.pending - {p},
             g.flight + if c.Join? then AddedUpdates(h, x, c.a) else RemovedUpdates(h, x, c.a))
    case Deliver(u) =>
      System(g.nodes[u.to := Arrived(g.nodes[u.to], u)], g.pending, g.flight - {u})
  }

  /** Every member holds its own records; a joining node knows the new ring and holds nothing. */
  function Start(h: Key -> nat, d: seq<Entry>, all: Data, c: Change): System
    requires d != []
  {
    var ms := Members(d) + if c.Join? then {c.a} else {};
    System(map p | p in ms ::
             if c.Join? && p == c.a then Node(p, Add(h, d, p), map[]) else Node(p, d, Part(h, d, all, p)),
           ms, {})
  }

  ghost predicate IsRun(h: Key -> nat, d: seq<Entry>, all: Data, c: Change, run: seq<System>, steps: seq<Step>)
    requires d != []
  {
    && |run| == |steps| + 1 && run[0] == Start(h, d, all, c)
    && forall k | 0 <= k < |steps| :: Enabled(h, c, run[k], steps[k]) && run[k + 1] == Apply(h, c, run[k], steps[k])
  }

  // ---------------------------------------------------------------- the reachable states

  /** The node that sends the UPDATE, and the one that receives it. */
  function Sender(h: Key -> nat, d: seq<Entry>, c: Change): Key
    requires d != []
  {
    if c.Join? then Closest(h, d, c.a) else c.a
  }

  function Receiver(h: Key -> nat, d: seq<Entry>, c: Change): Key
    requires d != [] && NewRing(h, d, c) != []
  {
    if c.Join? then c.a else Closest(h, NewRing(h, d, c), c.a)
  }

  /** The records whose responsible node changes. */
  function Moving(h: Key -> nat, d: seq<Entry>, all: Data, c: Change): Data
    requires d != [] && NewRing(h, d, c) != []
  {
    map k | k in all && Closest(h, d, k) != Closest(h, NewRing(h, d, c), k) :: all[k]
  }

  /** What node `p` stores, given whether it has handled the notice and whether the UPDATE has arrived. */
  function Expected(h: Key -> nat, d: seq<Entry>, all: Data, c: Change, p: Key, pending: bool, arrived: bool): Data
    requires d != [] && NewRing(h, d, c) != []
  {
    if p == Receiver(h, d, c) then (if arrived then Part(h, NewRing(h, d, c), all, p) else Part(h, d, all, p))
    else if c.Leave? || pending then Part(h, d, all, p)
    else Part(h, NewRing(h, d, c), all, p)
  }

  ghost predicate NodeOk(h: Key -> nat, d: seq<Entry>, all: Data, c: Change,
                         x: Node, p: Key, pending: bool, arrived: bool)
    requires d != [] && NewRing(h, d, c) != []
  {
    && x.id == p && x.ring == (if pending && !(c.Join? && p == c.a) then d else NewRing(h, d, c))
    && x.data == Expected(h, d, all, c, p, pending, arrived)
  }

  /** Before the sender's notice nothing is in flight, then the records whose owner changes, until they arrive. */
  ghost predicate FlightOk(h: Key -> nat, d: seq<Entry>, all: Data, c: Change, g: System, arrived: bool)
    requires d != [] && NewRing(h, d, c) != []
  {
    && g.flight == (if Sender(h, d, c) in g.pending || arrived then {}
                    else {Update(Receiver(h, d, c), Moving(h, d, all, c))})
    && (arrived ==> Sender(h, d, c) !in g.pending)
  }

  ghost predicate Reached(h: Key -> nat, d: seq<Entry>, all: Data, c: Change, g: System, arrived: bool)
    requires d != [] && NewRing(h, d, c) != []
  {
    && g.nodes.Keys == Members(d) + (if c.Join? then {c.a} else {}) && g.pending <= g.nodes.Keys
    && (forall p | p in g.nodes :: NodeOk(h, d, all, c, g.nodes[p], p, p in g.pending, arrived))
    && FlightOk(h, d, all, c, g, arrived)
  }

  /** Ownership moves from the sender to the receiver and nowhere else. */
  lemma Owners(h: Key -> nat, d: seq<Entry>, c: Change, key: Key)
    requires Possible(h, d, c)
    ensures NewRing(h, d, c) != [] && Ring(h, NewRing(h, d, c))
    ensures Members(NewRing(h, d, c)) == if c.Join? then Members(d) + {c.a} else Members(d) - {c.a}
    ensures Sender(h, d, c) in Members(d) && Receiver(h, d, c) in Members(NewRing(h, d, c))
    ensures Sender(h, d, c) != Receiver(h, d, c)
    ensures Closest(h, NewRing(h, d, c), key) != Closest(h, d, key) ==>
      Closest(h, d, key) == Sender(h, d, c) && Closest(h, NewRing(h, d, c), key) == Receiver(h, d, c)
    ensures c.Join? ==> Closest(h, d, key) != c.a
    ensures c.Leave? ==> Closest(h, NewRing(h, d, c), key) != c.a
    ensures Closest(h, d, key) in Members(d) && Closest(h, NewRing(h, d, c), key) in Members(NewRing(h, d, c))
  {
    hide Add, Remove, Closest, Members, Ring;
    match c
    case Join(a) =>
      AddKeepsRing(h, d, a);
      JoinOwners(h, d, a, key);
      ClosestIsOwner(h, d, key);
      ClosestIsOwner(h, d, a);
      ClosestIsOwner(h, Add(h, d, a), key);
    case Leave(a) =>
      RemoveKeepsRing(h, d, a);
      LeaveOwners(h, d, a, key);
      ClosestIsOwner(h, d, key);
      ClosestIsOwner(h, Remove(h, d, a), key);
      ClosestIsOwner(h, Remove(h, d, a), a);
  }

  /** What the sender keeps and sends is exactly the new division of its records. */
  lemma JoinSplit(h: Key -> nat, d: seq<Entry>, all: Data, a: Key)
    requires Possible(h, d, Join(a))
    ensures Add(h, d, a) != []
    ensures var prev, d' := Closest(h, d, a), Add(h, d, a);
      && Kept(h, d', Part(h, d, all, prev), prev, a) == Part(h, d', all, prev)
      && Part(h, d, all, prev) - Kept(h, d', Part(h, d, all, prev), prev, a).Keys == Moving(h, d, all, Join(a))
  {
    hide Add, Closest, Members, Ring, Keeps;
    var prev, d' := Closest(h, d, a), Add(h, d, a);
    AddKeepsRing(h, d, a);
    forall k ensures Closest(h, d', k) == a || Closest(h, d', k) == Closest(h, d, k)
      ensures Closest(h, d', k) == a ==> Closest(h, d, k) == prev
      ensures Closest(h, d, k) == prev ==> (Keeps(h, d', prev, a, k) <==> Closest(h, d', k) == prev)
    {
      JoinOwners(h, d, a, k);
    }
    Owners(h, d, Join(a), a);
  }

  lemma OthersSame(h: Key -> nat, d: seq<Entry>, all: Data, c: Change, p: Key)
    requires d != [] && Possible(h, d, c) && NewRing(h, d, c) != [] && p != Sender(h, d, c) && p != Receiver(h, d, c)
    ensures Part(h, NewRing(h, d, c), all, p) == Part(h, d, all, p)
  {
    hide NewRing, Closest, Possible, Sender, Receiver;
    forall k ensures Closest(h, NewRing(h, d, c), k) == p <==> Closest(h, d, k) == p { Owners(h, d, c, k); }
  }

  lemma ReceiverGets(h: Key -> nat, d: seq<Entry>, all: Data, c: Change)
    requires d != [] && Possible(h, d, c) && NewRing(h, d, c) != []
    ensures var q := Receiver(h, d, c);
      Part(h, d, all, q) + Moving(h, d, all, c) == Part(h, NewRing(h, d, c), all, q)
  {
    hide NewRing, Closest, Possible, Sender, Receiver;
    var q, d' := Receiver(h, d, c), NewRing(h, d, c);
    forall k
      ensures Closest(h, d', k) == q <==> Closest(h, d, k) == q || Closest(h, d, k) != Closest(h, d', k)
    {
      Owners(h, d, c, k);
    }
  }

  lemma LeaverSends(h: Key -> nat, d: seq<Entry>, all: Data, a: Key)
    requires d != [] && Possible(h, d, Leave(a)) && Remove(h, d, a) != []
    ensures Part(h, d, all, a) == Moving(h, d, all, Leave(a))
  {
    hide Remove, Closest, Possible;
    forall k ensures Closest(h, d, k) == a <==> Closest(h, d, k) != Closest(h, Remove(h, d, a), k) {
      Owners(h, d, Leave(a), k);
    }
  }

  lemma JoinRing(h: Key -> nat, d: seq<Entry>, c: Change)
    requires d != []
    ensures c.Join? ==> NewRing(h, d, c) == Add(h, d, c.a)
    ensures c.Leave? ==> NewRing(h, d, c) == Remove(h, d, c.a)
  {
  }

  lemma JoinerEmpty(h: Key -> nat, d: seq<Entry>, all: Data, c: Change)
    requires d != [] && Possible(h, d, c)
    ensures c.Join? ==> Part(h, d, all, c.a) == map[]
  {
    hide Closest, Possible;
    forall k ensures c.Join? ==> Closest(h, d, k) != c.a { Owners(h, d, c, k); }
  }

  lemma StartReached(h: Key -> nat, d: seq<Entry>, all: Data, c: Change)
    requires d != [] && Possible(h, d, c) && NewRing(h, d, c) != []
    ensures Reached(h, d, all, c, Start(h, d, all, c), false)
  {
    hide NewRing, Closest, Members;
    assert Sender(h, d, c) in Members(d) by { Owners(h, d, c, c.a); }
    assert c.Join? ==> NewRing(h, d, c) == Add(h, d, c.a) by { JoinRing(h, d, c); }
    assert c.Join? ==> Part(h, d, all, c.a) == map[] by { JoinerEmpty(h, d, all, c); }
  }

  lemma NoticeFlight(h: Key -> nat, d: seq<Entry>, all: Data, c: Change, g: System, g': System, p: Key, arrived: bool)
    requires d != [] && NewRing(h, d, c) != [] && FlightOk(h, d, all, c, g, arrived)
    requires p in g.pending && g'.pending == g.pending - {p}
    requires g'.flight == g.flight +
      if p == Sender(h, d, c) then {Update(Receiver(h, d, c), Moving(h, d, all, c))} else {}
    ensures FlightOk(h, d, all, c, g', arrived)
  {
    hide NewRing, Sender, Receiver, Moving;
  }

  /** One node handles the notice. */
  lemma NoticeOne(h: Key -> nat, d: seq<Entry>, all: Data, c: Change, x: Node, p: Key, arrived: bool)
    requires d != [] && Possible(h, d, c) && NewRing(h, d, c) != []
    requires NodeOk(h, d, all, c, x, p, true, arrived)
    ensures NodeOk(h, d, all, c, if c.Join? then Added(h, x, c.a) else Removed(h, x, c.a), p, false, arrived)
    ensures c.Leave? && p == c.a ==> Remove(h, x.ring, c.a) != []
    ensures (if c.Join? then AddedUpdates(h, x, c.a) else RemovedUpdates(h, x, c.a)) ==
      if p == Sender(h, d, c) then {Update(Receiver(h, d, c), Moving(h, d, all, c))} else {}
  {
    hide Closest, Members, Part, Moving, Add, Remove, Kept, Possible;
    Owners(h, d, c, c.a);
    if p == Sender(h, d, c) {
      if c.Join? { JoinSplit(h, d, all, c.a); } else { LeaverSends(h, d, all, c.a); }
    } else if p != Receiver(h, d, c) {
      OthersSame(h, d, all, c, p);
    }
  }

  lemma NoticeKeeps(h: Key -> nat, d: seq<Entry>, all: Data, c: Change, g: System, step: Step, arrived: bool)
    requires d != [] && Possible(h, d, c) && NewRing(h, d, c) != [] && Reached(h, d, all, c, g, arrived)
    requires step.Notice? && Enabled(h, c, g, step)
    ensures Reached(h, d, all, c, Apply(h, c, g, step), arrived)
  {
    hide Members, NewRing, Possible, Added, Removed, AddedUpdates, RemovedUpdates, NodeOk, FlightOk, Remove;
    var p, g' := step.p, Apply(h, c, g, step);
    assert NodeOk(h, d, all, c, g.nodes[p], p, true, arrived);
    NoticeOne(h, d, all, c, g.nodes[p], p, arrived);
    forall q | q in g'.nodes ensures NodeOk(h, d, all, c, g'.nodes[q], q, q in g'.pending, arrived) {
      if q != p { assert g'.nodes[q] == g.nodes[q]; }
    }
    NoticeFlight(h, d, all, c, g, g', p, arrived);
    assert g'.nodes.Keys == g.nodes.Keys;
  }

  lemma DeliverOne(h: Key -> nat, d: seq<Entry>, all: Data, c: Change, x: Node, p: Key, pending: bool, u: Update)
    requires d != [] && Possible(h, d, c) && NewRing(h, d, c) != []
    requires NodeOk(h, d, all, c, x, p, pending, false) && u == Update(Receiver(h, d, c), Moving(h, d, all, c))
    ensures NodeOk(h, d, all, c, if p == u.to then Arrived(x, u) else x, p, pending, true)
  {
    hide Closest, Part, Moving, NewRing, Possible;
    ReceiverGets(h, d, all, c);
  }

  lemma DeliverKeeps(h: Key -> nat, d: seq<Entry>, all: Data, c: Change, g: System, step: Step, arrived: bool)
    requires d != [] && Possible(h, d, c) && NewRing(h, d, c) != [] && Reached(h, d, all, c, g, arrived)
    requires step.Deliver? && Enabled(h, c, g, step)
    ensures !arrived && Reached(h, d, all, c, Apply(h, c, g, step), true)
  {
    hide Closest, Members, Moving, NewRing, Possible, NodeOk, Sender, Receiver;
    var u, g' := step.u, Apply(h, c, g, step);
    assert u == Update(Receiver(h, d, c), Moving(h, d, all, c)) && !arrived;
    forall q | q in g'.nodes ensures NodeOk(h, d, all, c, g'.nodes[q], q, q in g'.pending, true) {
      assert NodeOk(h, d, all, c, g.nodes[q], q, q in g.pending, false);
      DeliverOne(h, d, all, c, g.nodes[q], q, q in g.pending, u);
    }
    assert g'.nodes.Keys == g.nodes.Keys;
  }

  lemma {:induction false} Reachable(h: Key -> nat, d: seq<Entry>, all: Data, c: Change,
                                     run: seq<System>, steps: seq<Step>, k: nat) returns (arrived: bool)
    requires d != [] && Possible(h, d, c) && IsRun(h, d, all, c, run, steps) && k < |run|
    ensures NewRing(h, d, c) != [] && Reached(h, d, all, c, run[k], arrived)
  {
    hide Reached, Start, Possible, NewRing, Enabled, Apply;
    Owners(h, d, c, c.a);
    if k == 0 {
      StartReached(h, d, all, c);
      arrived := false;
    } else {
      arrived := Reachable(h, d, all, c, run, steps, k - 1);
      assert Enabled(h, c, run[k - 1], steps[k - 1]) && run[k] == Apply(h, c, run[k - 1], steps[k - 1]);
      if steps[k - 1].Notice? {
        NoticeKeeps(h, d, all, c, run[k - 1], steps[k - 1], arrived);
      } else {
        DeliverKeeps(h, d, all, c, run[k - 1], steps[k - 1], arrived);
        arrived := true;
      }
    }
  }

  // ---------------------------------------------------------------- what follows

  /** Where records can be: on a node, or on their way in an UPDATE. */
  datatype Place = On(p: Key) | In(u: Update)

  /** A node that has handled its own removal no longer counts. */
  predicate Live(c: Change, g: System, w: Place) {
    match w
    case On(p) => p in g.nodes && (c == Leave(p) ==> p in g.pending)
    case In(u) => u in g.flight
  }

  function Content(g: System, w: Place): Data
    requires w.On? ==> w.p in g.nodes
  {
    match w
    case On(p) => g.nodes[p].data
    case In(u) => u.data
  }

  /** The place a record is expected in. */
  ghost function PlaceOf(h: Key -> nat, d: seq<Entry>, all: Data, c: Change, g: System, arrived: bool, k: Key): Place
    requires d != [] && NewRing(h, d, c) != []
  {
    if Closest(h, d, k) == Closest(h, NewRing(h, d, c), k) then On(Closest(h, d, k))
    else if Sender(h, d, c) in g.pending then On(Sender(h, d, c))
    else if arrived then On(Receiver(h, d, c))
    else In(Update(Receiver(h, d, c), Moving(h, d, all, c)))
  }

  lemma RecordIsThere(h: Key -> nat, d: seq<Entry>, all: Data, c: Change, g: System, arrived: bool, k: Key)
    requires d != [] && Possible(h, d, c) && NewRing(h, d, c) != [] && Reached(h, d, all, c, g, arrived) && k in all
    ensures var w := PlaceOf(h, d, all, c, g, arrived, k);
      Live(c, g, w) && k in Content(g, w) && Content(g, w)[k] == all[k]
  {
    hide Closest, Members, NewRing, Possible, Ring;
    Owners(h, d, c, k);
    var w := PlaceOf(h, d, all, c, g, arrived, k);
    if w.On? {
      assert w.p in g.nodes;
      assert NodeOk(h, d, all, c, g.nodes[w.p], w.p, w.p in g.pending, arrived);
    }
  }

  lemma NowhereElse(h: Key -> nat, d: seq<Entry>, all: Data, c: Change, g: System, arrived: bool, k: Key, w: Place)
    requires d != [] && Possible(h, d, c) && NewRing(h, d, c) != [] && Reached(h, d, all, c, g, arrived)
    requires Live(c, g, w) && k in Content(g, w)
    ensures k in all && w == PlaceOf(h, d, all, c, g, arrived, k)
  {
    hide Closest, Members, NewRing, Possible, Ring;
    Owners(h, d, c, k);
    if w.On? {
      assert NodeOk(h, d, all, c, g.nodes[w.p], w.p, w.p in g.pending, arrived);
    }
  }

  /** At every moment, whatever the interleaving, each record of the map is in exactly one place, with its value. */
  lemma AlwaysPartitioned(h: Key -> nat, d: seq<Entry>, all: Data, c: Change,
                          run: seq<System>, steps: seq<Step>, k: nat)
    requires d != [] && Possible(h, d, c) && IsRun(h, d, all, c, run, steps) && k < |run|
    ensures forall key | key in all ::
      exists w :: Live(c, run[k], w) && key in Content(run[k], w) && Content(run[k], w)[key] == all[key]
    ensures forall w, key | Live(c, run[k], w) && key in Content(run[k], w) :: key in all
    ensures forall w, v, key | Live(c, run[k], w) && Live(c, run[k], v)
                             && key in Content(run[k], w) && key in Content(run[k], v) :: w == v
  {
    hide Possible, IsRun, NewRing, Reached, PlaceOf;
    var arrived := Reachable(h, d, all, c, run, steps, k);
    var g := run[k];
    forall key | key in all
      ensures exists w :: Live(c, g, w) && key in Content(g, w) && Content(g, w)[key] == all[key]
    {
      RecordIsThere(h, d, all, c, g, arrived, key);
    }
    forall w, key | Live(c, g, w) && key in Content(g, w) ensures key in all {
      NowhereElse(h, d, all, c, g, arrived, key, w);
    }
    forall w, v, key | Live(c, g, w) && Live(c, g, v) && key in Content(g, w) && key in Content(g, v) ensures w == v {
      NowhereElse(h, d, all, c, g, arrived, key, w);
      NowhereElse(h, d, all, c, g, arrived, key, v);
    }
  }

  /** Only records whose responsible node changes are ever moved, and straight to the new one. */
  lemma MinimalMoves(h: Key -> nat, d: seq<Entry>, all: Data, c: Change,
                     run: seq<System>, steps: seq<Step>, k: nat, u: Update)
    requires d != [] && Possible(h, d, c) && IsRun(h, d, all, c, run, steps) && k < |run| && u in run[k].flight
    ensures NewRing(h, d, c) != []
    ensures forall key :: key in u.data <==>
      key in all && Closest(h, d, key) != Closest(h, NewRing(h, d, c), key)
    ensures forall key | key in u.data :: Closest(h, NewRing(h, d, c), key) == u.to
  {
    hide Possible, IsRun, NewRing, Closest;
    var arrived := Reachable(h, d, all, c, run, steps, k);
    forall key | key in u.data ensures Closest(h, NewRing(h, d, c), key) == u.to { Owners(h, d, c, key); }
  }

  /** Nothing ever gets stuck: every notice still pending and every UPDATE in flight can be handled at once. */
  lemma NeverStuck(h: Key -> nat, d: seq<Entry>, all: Data, c: Change, run: seq<System>, steps: seq<Step>, k: nat)
    requires d != [] && Possible(h, d, c) && IsRun(h, d, all, c, run, steps) && k < |run|
    ensures forall p | p in run[k].pending :: Enabled(h, c, run[k], Notice(p))
    ensures forall u | u in run[k].flight :: Enabled(h, c, run[k], Deliver(u))
  {
    hide Possible, IsRun, NewRing, Closest, Members, Ring, Part, Moving, Expected;
    var arrived := Reachable(h, d, all, c, run, steps, k);
    var g := run[k];
    Owners(h, d, c, c.a);
    forall p | p in g.pending ensures Enabled(h, c, g, Notice(p)) {
      assert NodeOk(h, d, all, c, g.nodes[p], p, true, arrived);
      NoticeOne(h, d, all, c, g.nodes[p], p, arrived);
    }
  }

  /** When all notices and the UPDATE have been handled, every node of the new ring knows it and stores
      exactly the records it is responsible for. */
  lemma EndsBalanced(h: Key -> nat, d: seq<Entry>, all: Data, c: Change,
                     run: seq<System>, steps: seq<Step>, k: nat, p: Key)
    requires d != [] && Possible(h, d, c) && IsRun(h, d, all, c, run, steps) && k < |run|
    requires run[k].pending == {} && run[k].flight == {}
    requires NewRing(h, d, c) != [] && p in Members(NewRing(h, d, c))
    ensures p in run[k].nodes && run[k].nodes[p].ring == NewRing(h, d, c)
    ensures run[k].nodes[p].data == Part(h, NewRing(h, d, c), all, p)
  {
    hide Possible, IsRun, NewRing, Closest, Members, Ring, Part, Moving;
    var arrived := Reachable(h, d, all, c, run, steps, k);
    var g := run[k];
    assert arrived;
    Owners(h, d, c, p);
    assert NodeOk(h, d, all, c, g.nodes[p], p, false, true);
    if c.Leave? && p != Receiver(h, d, c) { OthersSame(h, d, all, c, p); }
  }
}
