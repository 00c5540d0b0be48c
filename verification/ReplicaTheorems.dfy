/** The invariant of the replicated store and what it means for clients. */
module ReplicaTheorems {
  import opened Sets
  import opened Items
  import opened ReplicaSpec
  import opened ReplicaSystem

  // ---------------------------------------------------------------- a client operation begins

  lemma LeqSelf(a: Item)
    ensures Leq(a, a)
  {
  }

  lemma AtItsNode(g: System, id: nat)
    requires OperOk(g, id)
    ensures id in g.opers && g.opers[id].at < |g.nodes| && id in g.nodes[g.opers[id].at].events
  {
  }

  lemma BeginRequest(g: System, step: Step, q: Request)
    requires step.Begin? && Enabled(g, step)
    requires var replicas, item := KeyReplicas(g.hash(step.key), |g.nodes|), Item(At(step.time), step.value);
      q in Requests(step.id, step.at, replicas, step.op, step.key, item)
    ensures RequestOk(Apply(g, step), q)
  {
    ReplicasDistinct(g.hash(step.key), |g.nodes|);
    LeqSelf(Item(At(step.time), step.value));
  }

  lemma BeginOper(g: System, step: Step)
    requires step.Begin? && Enabled(g, step)
    ensures OperOk(Apply(g, step), step.id)
  {
    hide Leq;
    var g' := Apply(g, step);
    var h := g'.opers[step.id];
    forall r | 0 <= r < |g.nodes| ensures Holds(g', r, h.key, h.base[r]) {
      LeqSelf(Register(g, r, step.key));
      assert Register(g', r, step.key) == Register(g, r, step.key);
    }
  }

  lemma BeginKeeps(g: System, step: Step)
    requires Inv(g) && step.Begin? && Enabled(g, step)
    ensures Inv(Apply(g, step)) && Grows(g, Apply(g, step))
  {
    hide RequestOk, ReplyOk, OperOk, Less, Serve, KeyReplicas;
    var g' := Apply(g, step);
    forall r, key | 0 <= r < |g.nodes| ensures Register(g', r, key) == Register(g, r, key) {}
    assert Grows(g, g');
    forall q | q in g'.requests ensures RequestOk(g', q) {
      if q in g.requests { RequestGrows(g, g', q); } else { BeginRequest(g, step, q); }
    }
    forall p | p in g'.replies ensures ReplyOk(g', p) { ReplyGrows(g, g', p); }
    forall id | id in g'.opers ensures OperOk(g', id) {
      if id != step.id {
        AtItsNode(g, id);
        OperGrows(g, g', id);
      } else {
        BeginOper(g, step);
      }
    }
  }

  // ---------------------------------------------------------------- a replica handles a request

  lemma ServeJoins(data: map<Key, Item>, req: Request, key: Key)
    ensures Leq(Stored(data, key), Stored(Serve(data, req), key))
    ensures req.op.Put? ==> Leq(req.item, Stored(Serve(data, req), req.key))
  {
    JoinIsMax(Stored(data, req.key), req.item);
  }

  lemma HandleGrows(g: System, req: Request)
    requires req.to < |g.nodes|
    ensures Grows(g, HandleAt(g, req))
  {
    hide Leq, Serve;
    var g' := HandleAt(g, req);
    forall r, key | 0 <= r < |g.nodes| ensures Leq(Register(g, r, key), Register(g', r, key)) {
      if r == req.to { ServeJoins(g.nodes[r].data, req, key); } else { LeqSelf(Register(g, r, key)); }
    }
  }

  lemma HandleReply(g: System, req: Request)
    requires RequestOk(g, req) && OperOk(g, req.id)
    ensures var item := Stored(Serve(g.nodes[req.to].data, req), req.key);
      ReplyOk(HandleAt(g, req), Reply(req.id, req.to, req.from, req.key, item))
  {
    hide Serve, EventOk, AnswerOk, Leq;
    var h, r := g.opers[req.id], req.to;
    var old', item := Stored(g.nodes[r].data, req.key), Stored(Serve(g.nodes[r].data, req), req.key);
    ServeJoins(g.nodes[r].data, req, req.key);
    assert Holds(g, r, h.key, h.base[r]);
    LeqTransitive(h.base[r], old', item);
    if h.op.Put? { LeqTransitive(h.item, req.item, item); }
    LeqSelf(item);
  }

  lemma AboutOper(g: System, q: Request)
    requires Inv(g) && q in g.requests
    ensures RequestOk(g, q) && OperOk(g, q.id)
  {
  }

  lemma HandleKeeps(g: System, step: Step)
    requires Inv(g) && step.Handle? && Enabled(g, step)
    ensures Inv(Apply(g, step)) && Grows(g, Apply(g, step))
  {
    hide RequestOk, ReplyOk, OperOk, Grows, Serve;
    var req, g' := step.req, Apply(g, step);
    HandleGrows(g, req);
    forall q | q in g'.requests ensures RequestOk(g', q) { RequestGrows(g, g', q); }
    assert RequestOk(g, req) && OperOk(g, req.id) by { AboutOper(g, req); }
    HandleReply(g, req);
    forall p | p in g'.replies ensures ReplyOk(g', p) {
      if p in g.replies { ReplyGrows(g, g', p); }
    }
    forall id | id in g'.opers ensures OperOk(g', id) {
      AtItsNode(g, id);
      OperGrows(g, g', id);
    }
  }

  // ---------------------------------------------------------------- the coordinator collects an answer

  lemma TopIsJoin(e: Event, from: nat, x: Item, best: Item, top: Item)
    requires forall r | r in e.resp :: e.resp[r] == best
    requires e.resp == map[] ==> best == NONE
    requires IsTop(Record(e, from, x).resp, top)
    ensures top == Join(best, x)
    ensures forall r | r in Record(e, from, x).resp && Record(e, from, x).resp[r] == top ::
      (r in e.resp && top == best) || (r == from && top == x)
  {
    hide Less;
    Total(best, x);
    Total(x, best);
    var resp := Record(e, from, x).resp;
    if from in e.resp && !Leq(e.resp[from], x) {
      assert resp == e.resp;
    } else {
      assert resp[from] == x;
      if r :| r in e.resp && r != from { assert resp[r] == best; }
    }
  }

  lemma KeptAreTop(e: Event, top: Item)
    requires IsTop(e.resp, top)
    ensures forall r | r in Settle(e, top).resp :: r in e.resp && e.resp[r] == top && Settle(e, top).resp[r] == top
    ensures Settle(e, top).resp != map[]
  {
    hide Less;
    var kept := Settle(e, top).resp;
    forall r | r in kept ensures kept[r] == top { Total(e.resp[r], top); Total(top, e.resp[r]); }
    var r :| r in e.resp && e.resp[r] == top;
    Total(top, top);
    assert r in kept;
  }

  /** After the stale answers are dropped, what is left all equals the greatest item received. */
  lemma SettleMeans(e: Event, from: nat, x: Item, best: Item, top: Item)
    requires forall r | r in e.resp :: e.resp[r] == best
    requires e.resp == map[] ==> best == NONE
    requires IsTop(Record(e, from, x).resp, top)
    ensures top == Join(best, x)
    ensures forall r | r in Settle(Record(e, from, x), top).resp ::
      Settle(Record(e, from, x), top).resp[r] == top && ((r in e.resp && top == best) || (r == from && top == x))
    ensures Settle(Record(e, from, x), top).resp != map[]
  {
    hide Less, Settle;
    TopIsJoin(e, from, x, best, top);
    KeptAreTop(Record(e, from, x), top);
  }

  lemma SameReplica(g: System, g': System, r: nat, key: Key)
    requires g.hash == g'.hash && |g.nodes| == |g'.nodes|
    ensures IsReplica(g', r, key) == IsReplica(g, r, key)
  {
  }

  lemma BaseBelowSame(h: Oper, h': Oper, r: nat, x: Item)
    requires h'.base == h.base
    ensures BaseBelow(h', r, x) == BaseBelow(h, r, x)
  {
  }

  lemma SentMeansAnswered(e: Event, top: Item)
    ensures Settle(e, top).sent <==> e.sent || Answers(e, top)
  {
  }

  lemma CollectEvent(g: System, g': System, rep: Reply, h: Oper, e: Event, top: Item)
    requires EventOk(g, h, e) && Grows(g, g') && ReplyOk(g, rep) && g.opers[rep.id] == h
    requires IsTop(Record(e, rep.from, rep.item).resp, top)
    ensures var h' := h.(best := Join(h.best, rep.item),
                         answer := if Answers(Record(e, rep.from, rep.item), top) then Answered(top, Shown(top.value))
                                   else h.answer);
      EventOk(g', h', Settle(Record(e, rep.from, rep.item), top))
    ensures top == Join(h.best, rep.item) && Fresh(h, rep.from, rep.item)
  {
    hide Less, Leq, Join, Holds, IsTop, Stale, BaseBelow, IsReplica, KeyReplicas;
    var e1 := Record(e, rep.from, rep.item);
    SettleMeans(e, rep.from, rep.item, h.best, top);
    var e2 := Settle(e1, top);
    SameShape(g, g');
    var h' := h.(best := top, answer := if Answers(e1, top) then Answered(top, Shown(top.value)) else h.answer);
    forall r | r in e2.resp
      ensures IsReplica(g', r, h.key) && Holds(g', r, h.key, top) && Fresh(h', r, top)
    {
      SameReplica(g, g', r, h.key);
      HoldsGrows(g, g', r, h.key, top);
      BaseBelowSame(h, h', r, top);
    }
    SentMeansAnswered(e1, top);
  }

  /** An answer is given only when a quorum of replicas holds it, each having had no newer item at the beginning. */
  lemma CollectAnswer(g: System, h: Oper, e: Event)
    requires EventOk(g, h, e) && BaseOk(g, h) && |e.resp| >= h.quorum && e.resp != map[]
    ensures |Holding(g, h.key, h.best)| >= h.quorum && |Passed(g, h, h.best)| >= h.quorum
    ensures h.op.Put? ==> Leq(h.item, h.best)
  {
    hide Leq;
    assert e.resp.Keys <= Holding(g, h.key, h.best);
    assert e.resp.Keys <= Passed(g, h, h.best);
    SubsetSize(e.resp.Keys, Holding(g, h.key, h.best));
    SubsetSize(e.resp.Keys, Passed(g, h, h.best));
    assert |e.resp.Keys| == |e.resp|;
    var r :| r in e.resp;
  }

  lemma AnswersMeans(e: Event, top: Item)
    requires Answers(e, top)
    ensures |Settle(e, top).resp| >= e.quorum
  {
  }

  lemma KeepsQuorum(g: System, h: Oper, e: Event, from: nat, x: Item, top: Item)
    requires EventOk(g, h, e) && IsTop(Record(e, from, x).resp, top)
    ensures Settle(Record(e, from, x), top).resp != map[] && Settle(Record(e, from, x), top).quorum == h.quorum
    ensures Record(e, from, x).quorum == h.quorum
  {
    hide Less, Holds, Fresh, IsReplica;
    SettleMeans(e, from, x, h.best, top);
  }

  lemma AnswerFromBest(g: System, h: Oper)
    requires h.answer == Answered(h.best, Shown(h.best.value))
    requires |Holding(g, h.key, h.best)| >= h.quorum && |Passed(g, h, h.best)| >= h.quorum
    requires h.op.Put? ==> Leq(h.item, h.best)
    ensures AnswerOk(g, h)
  {
  }

  lemma AnswerSame(g: System, h: Oper, h': Oper)
    requires AnswerOk(g, h) && h' == h.(best := h'.best)
    ensures AnswerOk(g, h')
  {
    hide Leq, Holds, IsReplica;
    if h.answer.Answered? { assert Passed(g, h', h.answer.item) == Passed(g, h, h.answer.item); }
  }

  lemma BaseSame(g: System, h: Oper, h': Oper)
    requires BaseOk(g, h) && h'.base == h.base && h'.key == h.key
    ensures BaseOk(g, h')
  {
  }

  lemma BaseGrows(g: System, g': System, h: Oper)
    requires Grows(g, g') && BaseOk(g, h)
    ensures BaseOk(g', h)
  {
    hide Holds;
    forall r | 0 <= r < |g.nodes| ensures Holds(g', r, h.key, h.base[r]) { HoldsGrows(g, g', r, h.key, h.base[r]); }
  }

  lemma CollectOper(g: System, step: Step)
    requires step.Collect? && Enabled(g, step) && ReplyOk(g, step.rep) && OperOk(g, step.rep.id)
    requires Grows(g, Apply(g, step))
    ensures OperOk(Apply(g, step), step.rep.id)
  {
    hide Leq, Join, IsTop, EventOk, AnswerOk, BaseOk, Holding, Passed, Grows, Fresh, Stale, Less;
    var g', rep, top := Apply(g, step), step.rep, step.top;
    var h := g.opers[rep.id];
    var e := g.nodes[h.at].events[rep.id];
    var e1 := Record(e, rep.from, rep.item);
    assert rep.to == h.at;
    var h' := g'.opers[rep.id];
    var e2 := g'.nodes[h'.at].events[rep.id];
    CollectEvent(g, g', rep, h, e, top);
    assert EventOk(g', h', e2);
    assert BaseOk(g', h') by { BaseGrows(g, g', h); BaseSame(g', h, h'); }
    assert AnswerOk(g', h') by {
      if Answers(e1, top) {
        AnswersMeans(e1, top);
        KeepsQuorum(g, h, e, rep.from, rep.item, top);
        CollectAnswer(g', h', e2);
        AnswerFromBest(g', h');
      } else {
        AnswerGrows(g, g', h);
        AnswerSame(g', h, h');
      }
    }
  }

  lemma CollectRepair(g: System, g': System, step: Step, q: Request)
    requires step.Collect? && Enabled(g, step) && ReplyOk(g, step.rep) && OperOk(g, step.rep.id) && g' == Apply(g, step)
    requires var e := Record(g.nodes[step.rep.to].events[step.rep.id], step.rep.from, step.rep.item);
      q in Repairs(step.rep.id, step.rep.to, e, Stale(e.resp, step.top), step.top)
    ensures RequestOk(g', q)
  {
    hide Less, Leq, AnswerOk, BaseOk, IsTop;
    var h := g.opers[step.rep.id];
    var e := g.nodes[h.at].events[step.rep.id];
    var e1 := Record(e, step.rep.from, step.rep.item);
    ReplicasDistinct(g.hash(h.key), |g.nodes|);
    assert q.to in e1.resp && IsReplica(g, q.to, h.key);
    SettleMeans(e, step.rep.from, step.rep.item, h.best, step.top);
    var kept := Settle(e1, step.top).resp;
    var r :| r in kept;
  }

  lemma CollectKeeps(g: System, step: Step)
    requires Inv(g) && step.Collect? && Enabled(g, step)
    ensures Inv(Apply(g, step)) && Grows(g, Apply(g, step))
  {
    hide RequestOk, ReplyOk, OperOk, Record, Settle, Repairs, Stale, Join, Less;
    var rep, g' := step.rep, Apply(g, step);
    forall r, key | 0 <= r < |g.nodes| ensures Register(g', r, key) == Register(g, r, key) {}
    assert Grows(g, g');
    assert ReplyOk(g, rep) && OperOk(g, rep.id);
    CollectOper(g, step);
    forall q | q in g'.requests ensures RequestOk(g', q) {
      if q in g.requests { RequestGrows(g, g', q); } else { CollectRepair(g, g', step, q); }
    }
    forall p | p in g'.replies ensures ReplyOk(g', p) { ReplyGrows(g, g', p); }
    forall id | id in g'.opers && id != rep.id ensures OperOk(g', id) {
      AtItsNode(g, id);
      OperGrows(g, g', id);
    }
  }

  lemma StepKeeps(g: System, step: Step)
    requires Inv(g) && Enabled(g, step)
    ensures Inv(Apply(g, step)) && Grows(g, Apply(g, step))
  {
    hide Inv, Grows;
    match step
    case Begin(_, _, _, _, _, _, _) => BeginKeeps(g, step);
    case Handle(_) => HandleKeeps(g, step);
    case Collect(_, _) => CollectKeeps(g, step);
  }

  // ---------------------------------------------------------------- whole runs

  lemma StartOk(hash: Key -> nat, n: nat)
    ensures Inv(Start(hash, n))
  {
  }

  lemma {:induction false} Safety(hash: Key -> nat, n: nat, run: seq<System>, steps: seq<Step>, k: nat)
    requires IsRun(hash, n, run, steps) && k < |run|
    ensures Inv(run[k])
  {
    hide Inv, Grows, Start;
    if k == 0 {
      StartOk(hash, n);
    } else {
      Safety(hash, n, run, steps, k - 1);
      assert Enabled(run[k - 1], steps[k - 1]) && run[k] == Apply(run[k - 1], steps[k - 1]);
      StepKeeps(run[k - 1], steps[k - 1]);
    }
  }

  lemma CoordinatorIs(g: System, p: Reply)
    requires ReplyOk(g, p)
    ensures p.id in g.opers && p.to == g.opers[p.id].at
  {
  }

  lemma AnswerStaysOnce(g: System, step: Step, id: nat)
    requires Inv(g) && Enabled(g, step) && id in g.opers && g.opers[id].answer.Answered?
    ensures id in Apply(g, step).opers && Apply(g, step).opers[id].answer == g.opers[id].answer
  {
    hide RequestOk, ReplyOk, AnswerOk, BaseOk, Stale, IsTop;
    if step.Collect? && step.rep.id == id {
      assert ReplyOk(g, step.rep) && OperOk(g, id);
      CoordinatorIs(g, step.rep);
    }
  }

  /** From a state on, registers only grow and operations keep their history and their answer. */
  lemma {:induction false} Later(hash: Key -> nat, n: nat, run: seq<System>, steps: seq<Step>, a: nat, b: nat, id: nat)
    requires IsRun(hash, n, run, steps) && a <= b < |run| && id in run[a].opers
    ensures id in run[b].opers && run[b].hash == run[a].hash && |run[b].nodes| == |run[a].nodes|
    ensures var h, h' := run[a].opers[id], run[b].opers[id];
      && h'.key == h.key && h'.quorum == h.quorum && h'.base == h.base && h'.op == h.op && h'.item == h.item
      && (h.answer.Answered? ==> h'.answer == h.answer)
  {
    hide Inv, Enabled;
    if a < b {
      Later(hash, n, run, steps, a, b - 1, id);
      Safety(hash, n, run, steps, b - 1);
      assert Enabled(run[b - 1], steps[b - 1]) && run[b] == Apply(run[b - 1], steps[b - 1]);
      StepKeeps(run[b - 1], steps[b - 1]);
      if run[b - 1].opers[id].answer.Answered? { AnswerStaysOnce(run[b - 1], steps[b - 1], id); }
    }
  }

  /** A reply is backed by a quorum: from the moment it is given, that many replicas store the answer or
      something newer; and the answer to a write is at least what was written. */
  lemma BackedByQuorum(hash: Key -> nat, n: nat, run: seq<System>, steps: seq<Step>, a: nat, b: nat, id: nat)
    requires IsRun(hash, n, run, steps) && a <= b < |run|
    requires id in run[a].opers && run[a].opers[id].answer.Answered?
    ensures var h := run[a].opers[id];
      && |Holding(run[b], h.key, h.answer.item)| >= h.quorum
      && (h.op.Put? ==> Leq(h.item, h.answer.item))
  {
    hide Leq, IsRun, EventOk, BaseOk, Holding, Passed;
    Later(hash, n, run, steps, a, b, id);
    Safety(hash, n, run, steps, b);
    assert OperOk(run[b], id);
  }

  lemma KeptAreNewest(hash: Key -> nat, n: nat, run: seq<System>, steps: seq<Step>, k: nat, id: nat)
    requires IsRun(hash, n, run, steps) && k < |run| && id in run[k].opers
    ensures var h := run[k].opers[id];
      && h.at < |run[k].nodes| && id in run[k].nodes[h.at].events
      && var resp := run[k].nodes[h.at].events[id].resp;
         forall r | r in resp :: resp[r] == h.best && Holds(run[k], r, h.key, h.best)
  {
    hide Leq, IsRun, Fresh, IsReplica;
    Safety(hash, n, run, steps, k);
    assert OperOk(run[k], id);
  }

  /** Two sets of replicas of one key whose quorums add up to more than the number of replicas meet. */
  lemma QuorumsMeet(g: System, key: Key, one: set<nat>, two: set<nat>) returns (r: nat)
    requires forall r | r in one + two :: IsReplica(g, r, key)
    requires |g.nodes| > 0 && |one| + |two| > REPLICAS
    ensures r in one && r in two
  {
    var all := ReplicaSet(g.hash(key), |g.nodes|);
    ReplicasDistinct(g.hash(key), |g.nodes|);
    SubsetSize(one + two, all);
    assert |one + two| + |one * two| == |one| + |two|;
    assert one * two != {};
    r :| r in one && r in two;
  }

  lemma HoldingInReplicas(g: System, key: Key, x: Item)
    ensures forall r | r in Holding(g, key, x) :: IsReplica(g, r, key) && Holds(g, r, key, x)
  {
  }

  lemma PassedInReplicas(g: System, h: Oper, x: Item)
    ensures forall r | r in Passed(g, h, x) :: IsReplica(g, r, h.key) && BaseBelow(h, r, x)
  {
  }

  lemma AnswerOf(g: System, id: nat)
    requires Inv(g) && id in g.opers
    ensures AnswerOk(g, g.opers[id])
  {
    assert OperOk(g, id);
  }

  lemma RegistersAt(g: System, r: nat, key: Key)
    requires r < |g.nodes|
    ensures Registers(g, key)[r] == Register(g, r, key)
  {
  }

  /** Overlapping quorums order operations: one that begins after another has answered never answers with
      an older item, so reads see completed writes and never go backwards. */
  lemma OverlappingQuorumsOrder(hash: Key -> nat, n: nat, run: seq<System>, steps: seq<Step>,
                                a: nat, b: nat, c: nat, first: nat, second: nat)
    requires IsRun(hash, n, run, steps) && a <= b < c < |run|
    requires first in run[a].opers && run[a].opers[first].answer.Answered?
    requires steps[b].Begin? && steps[b].id == second
    requires second in run[c].opers && run[c].opers[second].answer.Answered?
    requires run[a].opers[first].key == run[c].opers[second].key
    requires run[a].opers[first].quorum + run[c].opers[second].quorum > REPLICAS
    ensures Leq(run[a].opers[first].answer.item, run[c].opers[second].answer.item)
    ensures run[a].opers[first].op.Put? ==> Leq(run[a].opers[first].item, run[c].opers[second].answer.item)
  {
    hide Leq, IsReplica, Holding, Passed, Inv, EventOk, Registers;
    var h1, h2 := run[a].opers[first], run[c].opers[second];
    var x, y := h1.answer.item, h2.answer.item;
    BackedByQuorum(hash, n, run, steps, a, b, first);
    assert Enabled(run[b], steps[b]) && run[b + 1] == Apply(run[b], steps[b]);
    Later(hash, n, run, steps, b + 1, c, second);
    assert h2.base == Registers(run[b], h2.key);
    assert AnswerOk(run[c], h2) by { Safety(hash, n, run, steps, c); AnswerOf(run[c], second); }
    HoldingInReplicas(run[b], h1.key, x);
    PassedInReplicas(run[c], h2, y);
    assert run[c].hash == run[b].hash && |run[c].nodes| == |run[b].nodes|;
    forall r | r in Passed(run[c], h2, y) ensures IsReplica(run[b], r, h2.key) {
      SameReplica(run[c], run[b], r, h2.key);
    }
    var r := QuorumsMeet(run[b], h1.key, Holding(run[b], h1.key, x), Passed(run[c], h2, y));
    assert h2.base[r] == Register(run[b], r, h1.key) by { RegistersAt(run[b], r, h1.key); }
    LeqTransitive(x, h2.base[r], y);
    if h1.op.Put? { LeqTransitive(h1.item, x, y); }
  }
}
