/** Nothing is answered that no client wrote. */
module ReplicaOrigin {
  import opened Items
  import opened ReplicaSpec
  import opened ReplicaSystem
  import opened ReplicaTheorems

  /** `x` is the absent record, or the item of some client's PUT of the key. */
  ghost predicate Written(g: System, key: Key, x: Item) {
    x == NONE || exists id :: id in g.opers && g.opers[id].op.Put? && g.opers[id].key == key && g.opers[id].item == x
  }

  ghost predicate RegistersWritten(g: System) {
    forall r, key | 0 <= r < |g.nodes| :: Written(g, key, Register(g, r, key))
  }

  ghost predicate MessagesWritten(g: System) {
    && (forall q | q in g.requests && q.op.Put? :: Written(g, q.key, q.item))
    && forall p | p in g.replies :: Written(g, p.key, p.item)
  }

  ghost predicate OpersWritten(g: System) {
    forall id | id in g.opers ::
      && Written(g, g.opers[id].key, g.opers[id].best)
      && (g.opers[id].answer.Answered? ==> Written(g, g.opers[id].key, g.opers[id].answer.item))
  }

  ghost predicate OriginOk(g: System) {
    RegistersWritten(g) && MessagesWritten(g) && OpersWritten(g)
  }

  lemma WrittenStays(g: System, g': System, key: Key, x: Item)
    requires Grows(g, g') && Written(g, key, x)
    ensures Written(g', key, x)
  {
    hide Leq;
    if x != NONE {
      var id :| id in g.opers && g.opers[id].op.Put? && g.opers[id].key == key && g.opers[id].item == x;
      assert id in g'.opers && g'.opers[id].item == x;
    }
  }

  lemma NewWrite(g: System, id: nat)
    requires id in g.opers && g.opers[id].op.Put?
    ensures Written(g, g.opers[id].key, g.opers[id].item)
  {
  }

  lemma NothingWritten(g: System, key: Key)
    ensures Written(g, key, NONE)
  {
  }

  lemma OperStays(g: System, g': System, id: nat)
    requires Grows(g, g') && OpersWritten(g) && id in g.opers && id in g'.opers && g'.opers[id] == g.opers[id]
    ensures Written(g', g'.opers[id].key, g'.opers[id].best)
    ensures g'.opers[id].answer.Answered? ==> Written(g', g'.opers[id].key, g'.opers[id].answer.item)
  {
    hide Written, Grows;
    WrittenStays(g, g', g.opers[id].key, g.opers[id].best);
    if g.opers[id].answer.Answered? { WrittenStays(g, g', g.opers[id].key, g.opers[id].answer.item); }
  }

  lemma BeginOrigin(g: System, step: Step)
    requires Inv(g) && OriginOk(g) && step.Begin? && Enabled(g, step)
    ensures OriginOk(Apply(g, step))
  {
    hide Written, Inv, Grows, KeyReplicas;
    var g' := Apply(g, step);
    BeginKeeps(g, step);
    forall r, key | 0 <= r < |g'.nodes| ensures Written(g', key, Register(g', r, key)) {
      assert Register(g', r, key) == Register(g, r, key);
      WrittenStays(g, g', key, Register(g, r, key));
    }
    var item := Item(At(step.time), step.value);
    forall q | q in g'.requests && q.op.Put? ensures Written(g', q.key, q.item) {
      if q in g.requests {
        WrittenStays(g, g', q.key, q.item);
      } else {
        NewWrite(g', step.id);
      }
    }
    forall p | p in g'.replies ensures Written(g', p.key, p.item) { WrittenStays(g, g', p.key, p.item); }
    NothingWritten(g', step.key);
    forall id | id in g'.opers && id != step.id
      ensures Written(g', g'.opers[id].key, g'.opers[id].best)
      ensures g'.opers[id].answer.Answered? ==> Written(g', g'.opers[id].key, g'.opers[id].answer.item)
    {
      OperStays(g, g', id);
    }
  }

  lemma HandleOrigin(g: System, step: Step)
    requires Inv(g) && OriginOk(g) && step.Handle? && Enabled(g, step)
    ensures OriginOk(Apply(g, step))
  {
    hide Written, Inv, Grows, Less;
    var req, g' := step.req, Apply(g, step);
    HandleKeeps(g, step);
    forall r, key | 0 <= r < |g'.nodes| ensures Written(g', key, Register(g', r, key)) {
      assert Register(g', r, key) == Register(g, r, key)
        || (req.op.Put? && key == req.key && Register(g', r, key) == req.item);
      WrittenStays(g, g', key, Register(g', r, key));
    }
    forall q | q in g'.requests && q.op.Put? ensures Written(g', q.key, q.item) { WrittenStays(g, g', q.key, q.item); }
    forall p | p in g'.replies ensures Written(g', p.key, p.item) {
      if p in g.replies {
        WrittenStays(g, g', p.key, p.item);
      } else {
        assert p.item == Register(g', req.to, req.key);
      }
    }
    forall id | id in g'.opers
      ensures Written(g', g'.opers[id].key, g'.opers[id].best)
      ensures g'.opers[id].answer.Answered? ==> Written(g', g'.opers[id].key, g'.opers[id].answer.item)
    {
      OperStays(g, g', id);
    }
  }

  lemma TopOf(g: System, step: Step)
    requires Inv(g) && step.Collect? && Enabled(g, step)
    ensures step.top in {g.opers[step.rep.id].best, step.rep.item}
    ensures step.rep.key == g.opers[step.rep.id].key
    ensures g.nodes[step.rep.to].events[step.rep.id].key == step.rep.key
  {
    hide Leq, Less, Fresh, AnswerOk, BaseOk, IsTop;
    var rep := step.rep;
    assert ReplyOk(g, rep) && OperOk(g, rep.id);
    var h := g.opers[rep.id];
    SettleMeans(g.nodes[h.at].events[rep.id], rep.from, rep.item, h.best, step.top);
  }

  lemma CollectOrigin(g: System, step: Step)
    requires Inv(g) && OriginOk(g) && step.Collect? && Enabled(g, step)
    ensures OriginOk(Apply(g, step))
  {
    hide Written, Inv, Grows, Less, Stale, IsTop, Answers;
    var rep, g' := step.rep, Apply(g, step);
    CollectKeeps(g, step);
    TopOf(g, step);
    WrittenStays(g, g', rep.key, step.top);
    forall r, key | 0 <= r < |g'.nodes| ensures Written(g', key, Register(g', r, key)) {
      assert Register(g', r, key) == Register(g, r, key);
      WrittenStays(g, g', key, Register(g, r, key));
    }
    forall q | q in g'.requests && q.op.Put? ensures Written(g', q.key, q.item) {
      if q in g.requests { WrittenStays(g, g', q.key, q.item); }
    }
    forall p | p in g'.replies ensures Written(g', p.key, p.item) { WrittenStays(g, g', p.key, p.item); }
    forall id | id in g'.opers
      ensures Written(g', g'.opers[id].key, g'.opers[id].best)
      ensures g'.opers[id].answer.Answered? ==> Written(g', g'.opers[id].key, g'.opers[id].answer.item)
    {
      if id != rep.id {
        OperStays(g, g', id);
      } else {
        WrittenStays(g, g', rep.key, g'.opers[id].best);
        if g.opers[id].answer.Answered? { WrittenStays(g, g', rep.key, g.opers[id].answer.item); }
      }
    }
  }

  lemma StartOrigin(hash: Key -> nat, n: nat)
    ensures OriginOk(Start(hash, n))
  {
  }

  /** Every answer, and everything stored or in flight, was written by some client, or says that nothing was. */
  lemma {:induction false} NoCreation(hash: Key -> nat, n: nat, run: seq<System>, steps: seq<Step>, k: nat)
    requires IsRun(hash, n, run, steps) && k < |run|
    ensures OriginOk(run[k])
  {
    hide Inv, OriginOk, Start, Enabled, Apply;
    if k == 0 {
      StartOrigin(hash, n);
    } else {
      NoCreation(hash, n, run, steps, k - 1);
      Safety(hash, n, run, steps, k - 1);
      var step := steps[k - 1];
      assert Enabled(run[k - 1], step) && run[k] == Apply(run[k - 1], step);
      match step
      case Begin(_, _, _, _, _, _, _) => BeginOrigin(run[k - 1], step);
      case Handle(_) => HandleOrigin(run[k - 1], step);
      case Collect(_, _) => CollectOrigin(run[k - 1], step);
    }
  }
}
