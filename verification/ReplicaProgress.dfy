/** Operations can be answered: repairing the stale replicas brings every replica to the newest item, so a quorum
    that the replicas can form is always within reach. */
module ReplicaProgress {
  import opened Sets
  import opened Items
  import opened ReplicaSpec
  import opened ReplicaSystem
  import opened ReplicaTheorems

  // ---------------------------------------------------------------- continuations

  /** `steps`, none of them a new operation, lead from `g` to `after`. */
  ghost predicate Leads(g: System, steps: seq<Step>, after: System)
    decreases |steps|
  {
    if steps == [] then after == g
    else !steps[0].Begin? && Enabled(g, steps[0]) && Leads(Apply(g, steps[0]), steps[1..], after)
  }

  lemma {:induction false} LeadsJoin(g: System, a: seq<Step>, mid: System, b: seq<Step>, after: System)
    requires Leads(g, a, mid) && Leads(mid, b, after)
    ensures Leads(g, a + b, after)
    decreases |a|
  {
    if a == [] {
      assert a + b == b;
    } else {
      LeadsJoin(Apply(g, a[0]), a[1..], mid, b, after);
      assert (a + b)[1..] == a[1..] + b;
    }
  }

  lemma LeadsTwo(g: System, one: Step, two: Step)
    requires !one.Begin? && Enabled(g, one) && !two.Begin? && Enabled(Apply(g, one), two)
    ensures Leads(g, [one, two], Apply(Apply(g, one), two))
  {
    hide Enabled, Apply;
    assert [one, two][1..] == [two] && [two][1..] == [];
    assert Leads(Apply(Apply(g, one), two), [], Apply(Apply(g, one), two));
    assert Leads(Apply(g, one), [two], Apply(Apply(g, one), two));
  }

  function Asking(g: System, id: nat, r: nat): Request
    requires id in g.opers
  {
    var h := g.opers[id];
    Request(id, h.at, r, h.op, h.key, h.item)
  }

  /** The requests of every operation to its replicas, once sent, can still arrive. */
  ghost predicate AskedOk(g: System) {
    forall id, r | id in g.opers && IsReplica(g, r, g.opers[id].key) :: Asking(g, id, r) in g.requests
  }

  /** What no continuation changes. */
  ghost predicate SameOpers(g: System, g': System) {
    && g'.hash == g.hash && |g'.nodes| == |g.nodes| && g'.opers.Keys == g.opers.Keys
    && forall id | id in g.opers ::
         && SameCall(g.opers[id], g'.opers[id])
         && (g.opers[id].answer.Answered? ==> g'.opers[id].answer == g.opers[id].answer)
  }

  ghost predicate Ready(g: System) {
    Inv(g) && AskedOk(g)
  }

  lemma StepReady(g: System, step: Step)
    requires Ready(g) && Enabled(g, step) && !step.Begin?
    ensures Ready(Apply(g, step)) && SameOpers(g, Apply(g, step))
  {
    hide Inv, IsTop, Stale, Less;
    StepKeeps(g, step);
    var g' := Apply(g, step);
    forall id | id in g.opers && g.opers[id].answer.Answered? ensures g'.opers[id].answer == g.opers[id].answer {
      AnswerStaysOnce(g, step, id);
    }
    assert g.requests <= g'.requests;
    forall id, r | id in g'.opers && IsReplica(g', r, g'.opers[id].key) ensures Asking(g', id, r) in g'.requests {
      assert Asking(g', id, r) == Asking(g, id, r);
    }
  }

  lemma {:induction false} LeadsKeeps(g: System, steps: seq<Step>, after: System)
    requires Ready(g) && Leads(g, steps, after)
    ensures Ready(after) && SameOpers(g, after)
    decreases |steps|
  {
    hide Ready, Enabled, Apply;
    if steps != [] {
      StepReady(g, steps[0]);
      LeadsKeeps(Apply(g, steps[0]), steps[1..], after);
    }
  }

  lemma BeginAsks(g: System, step: Step)
    requires AskedOk(g) && Enabled(g, step) && step.Begin?
    ensures AskedOk(Apply(g, step))
  {
    var g' := Apply(g, step);
    var replicas := KeyReplicas(g.hash(step.key), |g.nodes|);
    forall id, r | id in g'.opers && IsReplica(g', r, g'.opers[id].key) ensures Asking(g', id, r) in g'.requests {
      if id == step.id {
        var i :| 0 <= i < |replicas| && replicas[i] == r;
        var out := Requests(step.id, step.at, replicas, step.op, step.key, Item(At(step.time), step.value));
        assert out[i] == Asking(g', id, r) && out[i] in out;
      } else {
        assert Asking(g', id, r) == Asking(g, id, r);
      }
    }
  }

  lemma NothingAsked(hash: Key -> nat, n: nat)
    ensures AskedOk(Start(hash, n))
  {
  }

  lemma {:induction false} AlwaysReady(hash: Key -> nat, n: nat, run: seq<System>, steps: seq<Step>, k: nat)
    requires IsRun(hash, n, run, steps) && k < |run|
    ensures Ready(run[k])
  {
    hide Inv, AskedOk, Apply, Enabled;
    Safety(hash, n, run, steps, k);
    if k == 0 {
      NothingAsked(hash, n);
    } else {
      AlwaysReady(hash, n, run, steps, k - 1);
      assert Enabled(run[k - 1], steps[k - 1]) && run[k - 1 + 1] == Apply(run[k - 1], steps[k - 1]);
      if steps[k - 1].Begin? {
        BeginAsks(run[k - 1], steps[k - 1]);
      } else {
        StepReady(run[k - 1], steps[k - 1]);
      }
    }
  }

  // ---------------------------------------------------------------- asking one replica

  function EventOf(g: System, id: nat): Event
    requires id in g.opers && g.opers[id].at < |g.nodes| && id in g.nodes[g.opers[id].at].events
  {
    g.nodes[g.opers[id].at].events[id]
  }

  ghost predicate Started(g: System, id: nat) {
    && id in g.opers && g.opers[id].at < |g.nodes| && id in g.nodes[g.opers[id].at].events
    && EventOk(g, g.opers[id], EventOf(g, id))
  }

  /** The coordinator has answered if enough answers agree. */
  ghost predicate Concluded(g: System, id: nat)
    requires Started(g, id)
  {
    |EventOf(g, id).resp| >= EventOf(g, id).quorum ==> EventOf(g, id).sent
  }

  lemma ReadyMeans(g: System, id: nat)
    requires Ready(g) && id in g.opers
    ensures Started(g, id)
  {
    assert OperOk(g, id);
  }

  /** Collecting one more answer, the newest is the newer of the newest so far and it. */
  lemma NewTop(e: Event, from: nat, x: Item, best: Item)
    requires forall r | r in e.resp :: e.resp[r] == best
    requires e.resp == map[] ==> best == NONE
    ensures IsTop(Record(e, from, x).resp, Join(best, x))
  {
    hide Less;
    Total(best, x);
    Total(x, best);
    Total(best, best);
    Total(NONE, x);
    var resp := Record(e, from, x).resp;
    if from in e.resp && !Leq(e.resp[from], x) {
      assert resp[from] == best;
    } else {
      assert resp[from] == x;
      if s :| s in e.resp && s != from { assert resp[s] == best; }
    }
  }

  /** A replica keeps its place among the answers unless it is older than the newest. */
  lemma WhoStays(e: Event, from: nat, x: Item, best: Item)
    requires forall r | r in e.resp :: e.resp[r] == best
    ensures var top := Join(best, x); var kept := Settle(Record(e, from, x), top).resp;
      && (from in kept || (Less(x, best) && top == best && from in Stale(Record(e, from, x).resp, top)))
      && (Leq(x, best) ==> top == best && e.resp.Keys <= kept.Keys + {from})
  {
    hide Less;
    Total(best, x);
    Total(x, best);
    Total(best, best);
    Total(x, x);
  }

  lemma SettleConcludes(e: Event, top: Item)
    ensures |Settle(e, top).resp| >= Settle(e, top).quorum ==> Settle(e, top).sent
  {
  }

  lemma RecordKey(e: Event, from: nat, x: Item)
    ensures Record(e, from, x).key == e.key
  {
  }

  lemma ServeIsJoin(data: map<Key, Item>, req: Request)
    ensures Stored(Serve(data, req), req.key) ==
      if req.op.Put? then Join(Stored(data, req.key), req.item) else Stored(data, req.key)
  {
  }

  lemma RequestMeans(g: System, q: Request)
    requires Ready(g) && q in g.requests
    ensures q.id in g.opers && RequestOk(g, q)
  {
    AboutOper(g, q);
  }

  /** One request for the operation is handled by replica `r`, and its reply collected. */
  lemma Ask(g: System, id: nat, req: Request) returns (steps: seq<Step>, after: System)
    requires Ready(g) && req in g.requests && req.id == id
    ensures id in g.opers && req.from == g.opers[id].at && req.key == g.opers[id].key
    ensures Leads(g, steps, after) && Started(g, id) && Started(after, id) && req.to < |g.nodes| == |after.nodes|
    ensures forall s | 0 <= s < |g.nodes| && s != req.to :: Register(after, s, req.key) == Register(g, s, req.key)
    ensures Register(after, req.to, req.key) ==
      if req.op.Put? then Join(Register(g, req.to, req.key), req.item) else Register(g, req.to, req.key)
    ensures after.opers[id].best == Join(g.opers[id].best, Register(after, req.to, req.key))
    ensures var best, x := g.opers[id].best, Register(after, req.to, req.key);
      var kept := EventOf(after, id).resp;
      && kept != map[]
      && (req.to in kept || (Less(x, best)
           && Request(id, req.from, req.to, Put, req.key, after.opers[id].best) in after.requests))
      && (Leq(x, best) ==> EventOf(g, id).resp.Keys <= kept.Keys + {req.to})
    ensures Concluded(after, id)
  {
    hide Ready, IsTop, Less, Leq, Join, Serve, Stale, Settle, Record, Answers;
    RequestMeans(g, req);
    ReadyMeans(g, id);
    var one := Handle(req);
    var mid := Apply(g, one);
    StepReady(g, one);
    ReadyMeans(mid, id);
    var h := mid.opers[id];
    var x := Register(mid, req.to, req.key);
    var rep := Reply(id, req.to, req.from, req.key, x);
    var e := EventOf(mid, id);
    assert e == EventOf(g, id);
    NewTop(e, req.to, x, h.best);
    var two := Collect(rep, Join(h.best, x));
    assert Enabled(mid, two);
    after := Apply(mid, two);
    steps := [one, two];
    LeadsTwo(g, one, two);
    StepReady(mid, two);
    ReadyMeans(after, id);
    WhoStays(e, req.to, x, h.best);
    SettleMeans(e, req.to, x, h.best, Join(h.best, x));
    ServeIsJoin(g.nodes[req.to].data, req);
    assert EventOf(after, id) == Settle(Record(e, req.to, x), Join(h.best, x));
    RecordKey(e, req.to, x);
    SettleConcludes(Record(e, req.to, x), Join(h.best, x));
  }

  /** The newest answer so far to a write is at least what is being written. */
  lemma WrittenBelowBest(g: System, id: nat)
    requires Started(g, id) && EventOf(g, id).resp != map[] && g.opers[id].op.Put?
    ensures Leq(g.opers[id].item, g.opers[id].best)
  {
    hide Leq, Holds, IsReplica, BaseBelow;
    var r :| r in EventOf(g, id).resp;
  }

  ghost predicate SameOper(g: System, g': System, id: nat) {
    && g'.hash == g.hash && |g'.nodes| == |g.nodes| && id in g.opers && id in g'.opers
    && g'.opers[id].key == g.opers[id].key && g'.opers[id].quorum == g.opers[id].quorum
  }

  lemma AskingIsSent(g: System, id: nat, r: nat)
    requires Ready(g) && id in g.opers && IsReplica(g, r, g.opers[id].key)
    ensures Asking(g, id, r) in g.requests && Started(g, id)
  {
    ReadyMeans(g, id);
  }

  lemma JoinLeq(a: Item, b: Item)
    ensures Leq(a, a) && !Less(a, a)
    ensures Leq(a, Join(a, b)) && Leq(b, Join(a, b))
    ensures Leq(b, a) ==> Join(a, b) == a
    ensures Less(a, b) ==> Join(a, b) == b && Join(b, a) == b && Leq(a, b)
  {
    JoinIsMax(a, b);
    Total(a, b);
    Total(b, a);
    Total(a, a);
  }

  lemma JoinBelow(a: Item, b: Item, c: Item)
    requires Leq(a, c) && Leq(b, c)
    ensures Leq(Join(a, b), c)
  {
  }

  /** Replica `r` is asked again, repaired if it turns out to be stale, and asked once more. */
  lemma Bring(g: System, id: nat, r: nat) returns (steps: seq<Step>, after: System)
    requires Ready(g) && id in g.opers && IsReplica(g, r, g.opers[id].key)
    ensures Leads(g, steps, after) && Started(g, id) && Started(after, id) && r < |g.nodes| == |after.nodes|
    ensures Ready(after) && SameOper(g, after, id) && Concluded(after, id)
    ensures var key, best := g.opers[id].key, g.opers[id].best;
      && (forall s | 0 <= s < |g.nodes| && s != r :: Register(after, s, key) == Register(g, s, key))
      && Leq(Register(after, r, key), after.opers[id].best) && Leq(best, after.opers[id].best)
      && r in EventOf(after, id).resp
      && (EventOf(g, id).resp != map[] && Leq(Register(g, r, key), best) ==>
            after.opers[id].best == best && EventOf(g, id).resp.Keys <= EventOf(after, id).resp.Keys)
  {
    hide Ready, Leads, EventOk, IsReplica, Less, Leq, Join;
    var h := g.opers[id];
    AskingIsSent(g, id, r);
    steps, after := Ask(g, id, Asking(g, id, r));
    var x := Register(after, r, h.key);
    JoinLeq(h.best, x);
    if EventOf(g, id).resp != map[] && Leq(Register(g, r, h.key), h.best) && h.op.Put? {
      WrittenBelowBest(g, id);
      JoinBelow(Register(g, r, h.key), h.item, h.best);
    }
    if r !in EventOf(after, id).resp {
      LeadsKeeps(g, steps, after);
      var mid := after;
      JoinLeq(x, h.best);
      JoinLeq(h.best, h.best);
      var more;
      more, after := Ask(mid, id, Request(id, h.at, r, Put, h.key, mid.opers[id].best));
      LeadsJoin(g, steps, mid, more, after);
      steps := steps + more;
    }
    LeadsKeeps(g, steps, after);
  }

  // ---------------------------------------------------------------- answering

  ghost predicate Caught(g: System, id: nat, r: nat)
    requires Started(g, id)
  {
    r < |g.nodes| && Leq(Register(g, r, g.opers[id].key), g.opers[id].best)
  }

  /** What bringing in the replicas `rs` achieves: none stores anything newer than the newest answer, and if that was
      so before, all of them are among the answers. */
  ghost predicate CaughtUp(g: System, id: nat, rs: seq<nat>, after: System)
    requires Started(g, id) && Started(after, id)
  {
    && (forall r | r in rs :: Caught(after, id, r))
    && (rs != [] ==> EventOf(after, id).resp != map[])
    && ((forall r | r in rs :: Caught(g, id, r)) && EventOf(g, id).resp != map[] ==>
          && EventOf(g, id).resp.Keys <= EventOf(after, id).resp.Keys
          && (forall r | r in rs :: r in EventOf(after, id).resp))
  }

  lemma NobodyToCatch(g: System, id: nat)
    requires Started(g, id)
    ensures CaughtUp(g, id, [], g)
  {
  }

  lemma OneMoreCaught(g: System, mid: System, after: System, id: nat, front: seq<nat>, last: nat)
    requires Started(g, id) && Started(mid, id) && Started(after, id) && CaughtUp(g, id, front, mid)
    requires forall s | Caught(g, id, s) :: Caught(mid, id, s)
    requires forall s | Caught(mid, id, s) :: Caught(after, id, s)
    requires Caught(after, id, last) && last in EventOf(after, id).resp
    requires EventOf(mid, id).resp != map[] && Caught(mid, id, last) ==>
      EventOf(mid, id).resp.Keys <= EventOf(after, id).resp.Keys
    ensures CaughtUp(g, id, front + [last], after)
  {
    hide EventOk, Caught;
    var rs := front + [last];
    forall r | r in rs ensures r in front || r == last {}
    assert forall r | r in front :: r in rs;
    assert last in rs;
    if EventOf(g, id).resp != map[] && forall r | r in rs :: Caught(g, id, r) {
      assert forall r | r in front :: Caught(g, id, r);
      var r :| r in EventOf(g, id).resp;
      assert r in EventOf(mid, id).resp;
    }
  }

  lemma StillCaught(g: System, g': System, id: nat, r: nat)
    requires Started(g, id) && Started(g', id) && Caught(g, id, r) && r < |g'.nodes|
    requires g'.opers[id].key == g.opers[id].key && Leq(g.opers[id].best, g'.opers[id].best)
    requires Register(g', r, g.opers[id].key) == Register(g, r, g.opers[id].key)
    ensures Caught(g', id, r)
  {
    LeqTransitive(Register(g, r, g.opers[id].key), g.opers[id].best, g'.opers[id].best);
  }

  lemma LeadsNone(g: System)
    ensures Leads(g, [], g)
  {
  }

  lemma SameReplicas(g: System, g': System, key: Key)
    requires g'.hash == g.hash && |g'.nodes| == |g.nodes|
    ensures forall r :: IsReplica(g', r, key) == IsReplica(g, r, key)
  {
  }

  lemma {:induction false} CatchUp(g: System, id: nat, rs: seq<nat>) returns (steps: seq<Step>, after: System)
    requires Ready(g) && id in g.opers && forall r | r in rs :: IsReplica(g, r, g.opers[id].key)
    ensures Leads(g, steps, after) && Started(g, id) && Started(after, id)
    ensures Ready(after) && SameOper(g, after, id)
    ensures CaughtUp(g, id, rs, after) && (rs != [] ==> Concluded(after, id))
    ensures forall s | Caught(g, id, s) :: Caught(after, id, s)
    decreases |rs|
  {
    hide Ready, Leads, EventOk, IsReplica, Leq, CaughtUp, Register;
    ReadyMeans(g, id);
    steps, after := [], g;
    LeadsNone(g);
    if rs == [] {
      assert CaughtUp(g, id, rs, after) by { NobodyToCatch(g, id); }
    } else {
      var front, last := rs[..|rs| - 1], rs[|rs| - 1];
      assert rs == front + [last];
      var mid, more;
      steps, mid := CatchUp(g, id, front);
      SameReplicas(g, mid, g.opers[id].key);
      more, after := Bring(mid, id, last);
      LeadsJoin(g, steps, mid, more, after);
      steps := steps + more;
      forall s | Caught(mid, id, s) ensures Caught(after, id, s) {
        if s != last { StillCaught(mid, after, id, s); }
      }
      assert Caught(after, id, last);
      OneMoreCaught(g, mid, after, id, front, last);
    }
  }

  /** When all replicas of the key are among the answers, the operation has been answered. */
  lemma EnoughAnswered(g: System, id: nat)
    requires Started(g, id) && Concluded(g, id)
    requires |g.nodes| > 0 && g.opers[id].quorum <= |ReplicaSet(g.hash(g.opers[id].key), |g.nodes|)|
    requires forall r | r in KeyReplicas(g.hash(g.opers[id].key), |g.nodes|) :: r in EventOf(g, id).resp
    ensures g.opers[id].answer.Answered?
  {
    hide KeyReplicas, Holds, Fresh;
    var replicas, resp := ReplicaSet(g.hash(g.opers[id].key), |g.nodes|), EventOf(g, id).resp;
    SubsetSize(replicas, resp.Keys);
    assert |resp.Keys| == |resp|;
  }

  /** The key of the operation has as many distinct replicas as the quorum asks for. */
  ghost predicate Possible(g: System, id: nat) {
    id in g.opers && |g.nodes| > 0 && g.opers[id].quorum <= |ReplicaSet(g.hash(g.opers[id].key), |g.nodes|)|
  }

  ghost predicate IsAnswered(g: System, id: nat) {
    id in g.opers && g.opers[id].answer.Answered?
  }

  lemma SomeReplicas(h: nat, n: nat)
    requires n > 0
    ensures KeyReplicas(h, n) != []
  {
  }

  /** Two rounds over the replicas: after the first no replica is ahead of the newest answer, after the second
      all of them hold it and are counted. */
  lemma Answer(g: System, id: nat) returns (steps: seq<Step>, after: System)
    requires Ready(g) && Possible(g, id)
    ensures Leads(g, steps, after) && Ready(after) && SameOpers(g, after)
    ensures IsAnswered(after, id)
  {
    hide Ready, Leads, EventOk, KeyReplicas, Leq, Register;
    var replicas := KeyReplicas(g.hash(g.opers[id].key), |g.nodes|);
    var mid, more;
    steps, mid := CatchUp(g, id, replicas);
    assert forall r | r in replicas :: IsReplica(mid, r, mid.opers[id].key);
    more, after := CatchUp(mid, id, replicas);
    LeadsJoin(g, steps, mid, more, after);
    steps := steps + more;
    SomeReplicas(g.hash(g.opers[id].key), |g.nodes|);
    EnoughAnswered(after, id);
    LeadsKeeps(g, steps, after);
  }

  lemma PossibleStays(g: System, g': System, id: nat)
    requires SameOpers(g, g') && Possible(g, id)
    ensures Possible(g', id)
  {
  }

  lemma AnsweredOk(g: System, id: nat)
    requires Ready(g) && id in g.opers
    ensures OperOk(g, id)
  {
  }

  /** An answer takes a quorum of distinct replicas. */
  lemma AnsweredIsPossible(g: System, id: nat)
    requires Ready(g) && IsAnswered(g, id)
    ensures Possible(g, id)
  {
    hide Inv, EventOk, BaseOk, Holds, Passed;
    assert OperOk(g, id) by { AnsweredOk(g, id); }
    var h := g.opers[id];
    SubsetSize(Holding(g, h.key, h.answer.item), ReplicaSet(g.hash(h.key), |g.nodes|));
  }

  lemma {:induction false} AnswerAll(g: System, todo: set<nat>) returns (steps: seq<Step>, after: System)
    requires Ready(g) && forall id | id in todo :: Possible(g, id)
    ensures Leads(g, steps, after) && Ready(after) && SameOpers(g, after)
    ensures forall id | id in todo :: IsAnswered(after, id)
    decreases |todo|
  {
    hide Ready, Leads, Possible;
    steps, after := [], g;
    LeadsNone(g);
    if todo != {} {
      var id :| id in todo;
      var mid, more;
      steps, mid := Answer(g, id);
      assert |todo - {id}| < |todo|;
      forall i | i in todo ensures Possible(mid, i) { PossibleStays(g, mid, i); }
      more, after := AnswerAll(mid, todo - {id});
      LeadsJoin(g, steps, mid, more, after);
      steps := steps + more;
    }
  }

  // ---------------------------------------------------------------- runs

  lemma LeadsFirst(g: System, steps: seq<Step>, after: System)
    requires Leads(g, steps, after) && steps != []
    ensures !steps[0].Begin? && Enabled(g, steps[0]) && Leads(Apply(g, steps[0]), steps[1..], after)
  {
  }

  lemma LeadsNowhere(g: System, after: System)
    requires Leads(g, [], after)
    ensures after == g
  {
  }

  lemma RunStep(hash: Key -> nat, n: nat, run: seq<System>, steps: seq<Step>, step: Step)
    requires IsRun(hash, n, run, steps) && |run| == |steps| + 1 && Enabled(run[|steps|], step)
    ensures IsRun(hash, n, run + [Apply(run[|steps|], step)], steps + [step])
  {
    hide Enabled, Apply, Start;
  }

  lemma {:induction false} RunOn(hash: Key -> nat, n: nat, run: seq<System>, steps: seq<Step>,
                                 more: seq<Step>, after: System) returns (run': seq<System>)
    requires IsRun(hash, n, run, steps) && |run| == |steps| + 1 && Leads(run[|steps|], more, after)
    ensures IsRun(hash, n, run', steps + more) && |run'| == |steps + more| + 1 && run <= run'
    ensures run'[|steps + more|] == after
    ensures forall k | |steps| <= k < |steps + more| :: !(steps + more)[k].Begin?
    decreases |more|
  {
    hide IsRun, Enabled, Apply, Leads;
    if more == [] {
      run' := run;
      assert steps + more == steps;
      LeadsNowhere(run[|steps|], after);
    } else {
      LeadsFirst(run[|steps|], more, after);
      var next := Apply(run[|steps|], more[0]);
      RunStep(hash, n, run, steps, more[0]);
      run' := RunOn(hash, n, run + [next], steps + [more[0]], more[1..], after);
      assert steps + [more[0]] + more[1..] == steps + more;
      assert (steps + more)[|steps|] == more[0];
    }
  }

  lemma RunSize(hash: Key -> nat, n: nat, run: seq<System>, steps: seq<Step>)
    requires IsRun(hash, n, run, steps)
    ensures |run| == |steps| + 1
  {
  }

  lemma PossibleBefore(g: System, g': System, id: nat)
    requires SameOpers(g, g') && Possible(g', id)
    ensures Possible(g, id)
  {
  }

  lemma PossibleMeans(g: System, id: nat)
    requires Possible(g, id)
    ensures id in g.opers
  {
  }

  /** From every reachable state a continuation without new operations answers exactly the operations whose quorum
      is at most the number of distinct replicas of their key; no continuation answers the others. */
  lemma CanAnswerAll(hash: Key -> nat, n: nat, run: seq<System>, steps: seq<Step>)
      returns (run': seq<System>, steps': seq<Step>)
    requires IsRun(hash, n, run, steps)
    ensures IsRun(hash, n, run', steps') && run <= run' && steps <= steps'
    ensures forall k | |steps| <= k < |steps'| :: !steps'[k].Begin?
    ensures SameOpers(run[|steps|], run'[|steps'|])
    ensures forall id :: IsAnswered(run'[|steps'|], id) <==> Possible(run[|steps|], id)
  {
    hide IsRun, Leads, Possible, Ready, SameOpers;
    RunSize(hash, n, run, steps);
    var g := run[|steps|];
    AlwaysReady(hash, n, run, steps, |steps|);
    var todo := set id | id in g.opers && Possible(g, id);
    forall id | Possible(g, id) ensures id in todo { PossibleMeans(g, id); }
    var more, after := AnswerAll(g, todo);
    run' := RunOn(hash, n, run, steps, more, after);
    steps' := steps + more;
    forall id | IsAnswered(after, id) ensures Possible(g, id) {
      AnsweredIsPossible(after, id);
      PossibleBefore(g, after, id);
    }
  }
}
