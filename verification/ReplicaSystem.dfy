/** Quorum reads and writes over replicas while no timer fires: messages may be delayed, reordered, repeated or lost. */
module ReplicaSystem {
  import opened Sets
  import opened Items
  import opened Options
  import opened ReplicaSpec

  datatype Node = Node(data: map<Key, Item>, events: map<nat, Event>)

  /** The item answered, and what the client is told. */
  datatype Answer = Pending | Answered(item: Item, client: Option<string>)

  /** The history of a client operation: `base` is what every node stored for the key when it began,
      `best` the greatest item received for it. */
  datatype Oper = Oper(at: nat, op: Op, key: Key, quorum: int, item: Item, base: seq<Item>, best: Item, answer: Answer)

  datatype System = System(hash: Key -> nat, nodes: seq<Node>, opers: map<nat, Oper>,
                           requests: set<Request>, replies: set<Reply>)

  datatype Step =
    | Begin(id: nat, at: nat, op: Op, key: Key, value: string, quorum: int, time: real)
    | Handle(req: Request)
    | Collect(rep: Reply, top: Item)

  function Start(hash: Key -> nat, n: nat): System {
    System(hash, seq(n, _ => Node(map[], map[])), map[], {}, {})
  }

  function Register(g: System, r: nat, key: Key): Item
    requires r < |g.nodes|
  {
    Stored(g.nodes[r].data, key)
  }

  function Registers(g: System, key: Key): seq<Item> {
    seq(|g.nodes|, r requires 0 <= r < |g.nodes| => Register(g, r, key))
  }

  ghost predicate Enabled(g: System, step: Step) {
    match step
    case Begin(id, at, _, _, _, _, _) => at < |g.nodes| && id !in g.opers
    case Handle(req) => req in g.requests && req.to < |g.nodes|
    case Collect(rep, top) =>
      && rep in g.replies && rep.to < |g.nodes| && rep.id in g.opers && rep.id in g.nodes[rep.to].events
      && IsTop(Record(g.nodes[rep.to].events[rep.id], rep.from, rep.item).resp, top)
  }

  function BeginAt(g: System, s: Step): System
    requires s.Begin? && s.at < |g.nodes|
  {
    var item := Item(At(s.time), s.value);
    var out := Requests(s.id, s.at, KeyReplicas(g.hash(s.key), |g.nodes|), s.op, s.key, item);
    var e := Opened(s.op, s.key, s.quorum, g.hash(s.key), |g.nodes|);
    g.(nodes := g.nodes[s.at := g.nodes[s.at].(events := g.nodes[s.at].events[s.id := e])],
       opers := g.opers[s.id := Oper(s.at, s.op, s.key, s.quorum, item, Registers(g, s.key), NONE, Pending)],
       requests := g.requests + set q | q in out)
  }

  function HandleAt(g: System, req: Request): System
    requires req.to < |g.nodes|
  {
    var data := Serve(g.nodes[req.to].data, req);
    g.(nodes := g.nodes[req.to := g.nodes[req.to].(data := data)],
       replies := g.replies + {Reply(req.id, req.to, req.from, req.key, Stored(data, req.key))})
  }

  function CollectAt(g: System, rep: Reply, top: Item): System
    requires rep.to < |g.nodes| && rep.id in g.opers && rep.id in g.nodes[rep.to].events
  {
    var e := Record(g.nodes[rep.to].events[rep.id], rep.from, rep.item);
    var h := g.opers[rep.id];
    g.(nodes := g.nodes[rep.to := g.nodes[rep.to].(events := g.nodes[rep.to].events[rep.id := Settle(e, top)])],
       opers := g.opers[rep.id := h.(best := Join(h.best, rep.item),
                                     answer := if Answers(e, top) then Answered(top, Shown(top.value)) else h.answer)],
       requests := g.requests + Repairs(rep.id, rep.to, e, Stale(e.resp, top), top))
  }

  ghost function Apply(g: System, step: Step): System
    requires Enabled(g, step)
  {
    match step
    case Begin(_, _, _, _, _, _, _) => BeginAt(g, step)
    case Handle(req) => HandleAt(g, req)
    case Collect(rep, top) => CollectAt(g, rep, top)
  }

  ghost predicate IsRun(hash: Key -> nat, n: nat, run: seq<System>, steps: seq<Step>) {
    && |run| == |steps| + 1 && run[0] == Start(hash, n)
    && forall k | 0 <= k < |steps| :: Enabled(run[k], steps[k]) && run[k + 1] == Apply(run[k], steps[k])
  }

  // ---------------------------------------------------------------- the invariant

  predicate IsReplica(g: System, r: nat, key: Key) {
    |g.nodes| > 0 && r in KeyReplicas(g.hash(key), |g.nodes|)
  }

  /** Replica `r`'s register has reached `x`. */
  predicate Holds(g: System, r: nat, key: Key, x: Item) {
    r < |g.nodes| && Leq(x, Register(g, r, key))
  }

  predicate BaseBelow(h: Oper, r: nat, x: Item) {
    r < |h.base| && Leq(h.base[r], x)
  }

  /** An item reported for the operation: not older than what the replica had at the beginning, and for a
      write not older than the item written. */
  predicate Fresh(h: Oper, r: nat, x: Item) {
    BaseBelow(h, r, x) && (h.op.Put? ==> Leq(h.item, x))
  }

  ghost predicate RequestOk(g: System, q: Request) {
    && q.id in g.opers && q.from == g.opers[q.id].at && q.key == g.opers[q.id].key
    && IsReplica(g, q.to, q.key) && q.to < |g.nodes|
    && (g.opers[q.id].op.Put? ==> q.op.Put? && Leq(g.opers[q.id].item, q.item))
  }

  ghost predicate ReplyOk(g: System, p: Reply) {
    && p.id in g.opers && p.to == g.opers[p.id].at && p.key == g.opers[p.id].key
    && IsReplica(g, p.from, p.key) && Holds(g, p.from, p.key, p.item) && Fresh(g.opers[p.id], p.from, p.item)
  }

  /** The replicas of the key that hold `x` or something newer. */
  ghost function Holding(g: System, key: Key, x: Item): set<nat> {
    set r | 0 <= r < |g.nodes| && IsReplica(g, r, key) && Holds(g, r, key, x)
  }

  /** The replicas that stored `x` or something older when the operation began. */
  ghost function Passed(g: System, h: Oper, x: Item): set<nat> {
    set r | 0 <= r < |h.base| && IsReplica(g, r, h.key) && BaseBelow(h, r, x)
  }

  /** The answers kept all equal the greatest item received, and their senders store it. */
  ghost predicate EventOk(g: System, h: Oper, e: Event) {
    && e.key == h.key && e.quorum == h.quorum && e.op == h.op && (e.sent <==> h.answer.Answered?)
    && (e.resp == map[] ==> h.best == NONE)
    && forall r | r in e.resp ::
         e.resp[r] == h.best && IsReplica(g, r, h.key) && Holds(g, r, h.key, h.best) && Fresh(h, r, h.best)
  }

  ghost predicate AnswerOk(g: System, h: Oper) {
    h.answer.Answered? ==>
      && |Holding(g, h.key, h.answer.item)| >= h.quorum
      && |Passed(g, h, h.answer.item)| >= h.quorum
      && (h.op.Put? ==> Leq(h.item, h.answer.item))
      && h.answer.client == if h.answer.item.value != "" then Some(h.answer.item.value) else None
  }

  ghost predicate BaseOk(g: System, h: Oper) {
    |h.base| == |g.nodes| && forall r | 0 <= r < |g.nodes| :: Holds(g, r, h.key, h.base[r])
  }

  ghost predicate OperOk(g: System, id: nat) {
    && id in g.opers
    && var h := g.opers[id];
       && h.at < |g.nodes| && id in g.nodes[h.at].events
       && EventOk(g, h, g.nodes[h.at].events[id]) && AnswerOk(g, h) && BaseOk(g, h)
  }

  ghost predicate Inv(g: System) {
    && (forall q | q in g.requests :: RequestOk(g, q))
    && (forall p | p in g.replies :: ReplyOk(g, p))
    && forall id | id in g.opers :: OperOk(g, id)
  }

  // ---------------------------------------------------------------- registers only grow

  /** The same operation, apart from its progress. */
  predicate SameCall(h: Oper, h': Oper) {
    h'.(best := h.best, answer := h.answer) == h
  }

  /** `g'` has the same operations apart from their progress, and registers that are nowhere older. */
  ghost predicate Grows(g: System, g': System) {
    && g'.hash == g.hash && |g'.nodes| == |g.nodes|
    && (forall id | id in g.opers :: id in g'.opers && SameCall(g.opers[id], g'.opers[id]))
    && forall r, key | 0 <= r < |g.nodes| :: Leq(Register(g, r, key), Register(g', r, key))
  }

  lemma HoldsGrows(g: System, g': System, r: nat, key: Key, x: Item)
    requires Grows(g, g') && Holds(g, r, key, x)
    ensures Holds(g', r, key, x)
  {
    LeqTransitive(x, Register(g, r, key), Register(g', r, key));
  }

  lemma RequestGrows(g: System, g': System, q: Request)
    requires Grows(g, g') && RequestOk(g, q)
    ensures RequestOk(g', q)
  {
    hide Leq;
  }

  lemma ReplyGrows(g: System, g': System, p: Reply)
    requires Grows(g, g') && ReplyOk(g, p)
    ensures ReplyOk(g', p)
  {
    hide Leq, Holds;
    HoldsGrows(g, g', p.from, p.key, p.item);
  }

  lemma SameShape(g: System, g': System)
    requires Grows(g, g')
    ensures g'.hash == g.hash && |g'.nodes| == |g.nodes|
  {
  }

  lemma HoldingGrows(g: System, g': System, key: Key, x: Item)
    requires Grows(g, g')
    ensures |Holding(g, key, x)| <= |Holding(g', key, x)|
  {
    hide Grows, Holds;
    assert g'.hash == g.hash && |g'.nodes| == |g.nodes| by { SameShape(g, g'); }
    forall r | r in Holding(g, key, x) ensures r in Holding(g', key, x) { HoldsGrows(g, g', r, key, x); }
    SubsetSize(Holding(g, key, x), Holding(g', key, x));
  }

  lemma EventGrows(g: System, g': System, h: Oper, e: Event)
    requires Grows(g, g') && EventOk(g, h, e)
    ensures EventOk(g', h, e)
  {
    hide Leq, Holds, Fresh;
    forall r | r in e.resp ensures IsReplica(g', r, h.key) && Holds(g', r, h.key, h.best) {
      HoldsGrows(g, g', r, h.key, h.best);
    }
  }

  lemma AnswerGrows(g: System, g': System, h: Oper)
    requires Grows(g, g') && AnswerOk(g, h)
    ensures AnswerOk(g', h)
  {
    hide Leq, Holds, BaseBelow;
    if h.answer.Answered? {
      HoldingGrows(g, g', h.key, h.answer.item);
      assert Passed(g', h, h.answer.item) == Passed(g, h, h.answer.item);
    }
  }

  /** An operation that made no progress keeps its invariant. */
  lemma OperGrows(g: System, g': System, id: nat)
    requires Grows(g, g') && OperOk(g, id) && g'.opers[id] == g.opers[id]
    requires var at := g.opers[id].at;
      id in g'.nodes[at].events && g'.nodes[at].events[id] == g.nodes[at].events[id]
    ensures OperOk(g', id)
  {
    hide Leq, Holds, Fresh, Holding, Passed, IsReplica;
    var h := g.opers[id];
    var e := g.nodes[h.at].events[id];
    assert AnswerOk(g', h) by { AnswerGrows(g, g', h); }
    assert BaseOk(g', h) by {
      forall r | 0 <= r < |g.nodes| ensures Holds(g', r, h.key, h.base[r]) { HoldsGrows(g, g', r, h.key, h.base[r]); }
    }
    assert EventOk(g', h, e) by { EventGrows(g, g', h, e); }
  }
}
