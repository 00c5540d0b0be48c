/** What clients of the replicated store see, told by the operations they began. */
module ReplicaClients {
  import opened Items
  import opened Options
  import opened ReplicaSpec
  import opened ReplicaSystem
  import opened ReplicaTheorems
  import opened ReplicaOrigin

  /** Operation `id` is recorded as step `b` began it. */
  ghost predicate BegunAs(g: System, id: nat, step: Step) {
    && step.Begin? && step.id == id && id in g.opers
    && var h := g.opers[id];
       && h.at == step.at && h.op == step.op && h.key == step.key && h.quorum == step.quorum
       && h.item == Item(At(step.time), step.value)
  }

  lemma StepBegun(g: System, step: Step, id: nat)
    requires Inv(g) && Enabled(g, step) && id in Apply(g, step).opers
    ensures id !in g.opers ==> BegunAs(Apply(g, step), id, step)
    ensures id in g.opers ==> SameCall(g.opers[id], Apply(g, step).opers[id])
  {
    hide Inv, IsTop, Registers, Opened, Requests, Serve, Settle, Repairs, Record, Join;
    StepKeeps(g, step);
  }

  lemma NothingBegun(hash: Key -> nat, n: nat)
    ensures Start(hash, n).opers == map[]
  {
  }

  /** Every operation was begun by exactly one step, with the key, value, quorum and time it is recorded with. */
  lemma {:induction false} WhereBegun(hash: Key -> nat, n: nat, run: seq<System>, steps: seq<Step>, k: nat, id: nat)
      returns (b: nat)
    requires IsRun(hash, n, run, steps) && k < |run| && id in run[k].opers
    ensures b < k && b < |steps| && BegunAs(run[k], id, steps[b])
  {
    hide Inv, Enabled, Apply;
    assert k > 0 by { NothingBegun(hash, n); }
    Safety(hash, n, run, steps, k - 1);
    assert Enabled(run[k - 1], steps[k - 1]) && run[k - 1 + 1] == Apply(run[k - 1], steps[k - 1]);
    StepBegun(run[k - 1], steps[k - 1], id);
    b := k - 1;
    if id in run[k - 1].opers { b := WhereBegun(hash, n, run, steps, k - 1, id); }
  }

  /** The item answered is told to the client as its value, an empty one as no record. */
  lemma ClientSees(hash: Key -> nat, n: nat, run: seq<System>, steps: seq<Step>, k: nat, id: nat)
    requires IsRun(hash, n, run, steps) && k < |run| && id in run[k].opers && run[k].opers[id].answer.Answered?
    ensures var answer := run[k].opers[id].answer;
      && (forall w :: answer.client == Some(w) <==> w != "" && w == answer.item.value)
      && (answer.client == None <==> answer.item.value == "")
  {
    hide IsRun, Inv, Leq, Holding, Passed;
    Safety(hash, n, run, steps, k);
    AnswerOf(run[k], id);
  }

  /** An item other than the absent one was put by a client, under the same key. */
  lemma WherePut(hash: Key -> nat, n: nat, run: seq<System>, steps: seq<Step>, k: nat, key: Key, x: Item)
      returns (b: nat)
    requires IsRun(hash, n, run, steps) && k < |run| && Written(run[k], key, x) && x != NONE
    ensures b < k && b < |steps| && steps[b].Begin? && steps[b].op.Put? && steps[b].key == key
    ensures x == Item(At(steps[b].time), steps[b].value)
  {
    hide IsRun;
    var id :| id in run[k].opers && run[k].opers[id].op.Put? && run[k].opers[id].key == key
            && run[k].opers[id].item == x;
    b := WhereBegun(hash, n, run, steps, k, id);
  }

  /** What a client is told was put by some client before, under the same key. */
  lemma SeenWasPut(hash: Key -> nat, n: nat, run: seq<System>, steps: seq<Step>, k: nat, id: nat, w: string)
      returns (b: nat)
    requires IsRun(hash, n, run, steps) && k < |run| && id in run[k].opers && run[k].opers[id].answer.Answered?
    requires run[k].opers[id].answer.client == Some(w)
    ensures b < k && b < |steps| && steps[b].Begin? && steps[b].op.Put?
    ensures steps[b].key == run[k].opers[id].key && steps[b].value == w != ""
  {
    hide IsRun, Written, RegistersWritten, MessagesWritten;
    ClientSees(hash, n, run, steps, k, id);
    NoCreation(hash, n, run, steps, k);
    b := WherePut(hash, n, run, steps, k, run[k].opers[id].key, run[k].opers[id].answer.item);
  }

  lemma {:induction false} StillBegun(hash: Key -> nat, n: nat, run: seq<System>, steps: seq<Step>,
                                      a: nat, k: nat, id: nat, step: Step)
    requires IsRun(hash, n, run, steps) && a <= k < |run| && BegunAs(run[a], id, step)
    ensures BegunAs(run[k], id, step)
  {
    hide Inv, Enabled, Apply;
    if a < k {
      StillBegun(hash, n, run, steps, a, k - 1, id, step);
      Safety(hash, n, run, steps, k - 1);
      assert Enabled(run[k - 1], steps[k - 1]) && run[k - 1 + 1] == Apply(run[k - 1], steps[k - 1]);
      StepKeeps(run[k - 1], steps[k - 1]);
      StepBegun(run[k - 1], steps[k - 1], id);
    }
  }

  lemma AsBegun(hash: Key -> nat, n: nat, run: seq<System>, steps: seq<Step>, b: nat, k: nat)
    requires IsRun(hash, n, run, steps) && b < k < |run| && b < |steps| && steps[b].Begin?
    ensures BegunAs(run[k], steps[b].id, steps[b])
  {
    hide Inv, Registers, Opened, Requests;
    assert Enabled(run[b], steps[b]) && run[b + 1] == Apply(run[b], steps[b]);
    assert BegunAs(run[b + 1], steps[b].id, steps[b]);
    StillBegun(hash, n, run, steps, b + 1, k, steps[b].id, steps[b]);
  }

  /** Reads see completed writes: an operation begun after a PUT of `v` at time `t` was answered, with quorums that
      overlap, tells its client the value of a PUT no earlier than that one: it is later, or as late and not smaller. */
  lemma SeesCompletedWrite(hash: Key -> nat, n: nat, run: seq<System>, steps: seq<Step>,
                           p: nat, a: nat, b: nat, c: nat, id: nat) returns (w: nat)
    requires IsRun(hash, n, run, steps) && p < a <= b < c < |run| && c <= |steps|
    requires steps[p].Begin? && steps[p].op.Put? && steps[b].Begin? && steps[p].key == steps[b].key
    requires steps[p].id in run[a].opers && run[a].opers[steps[p].id].answer.Answered?
    requires id == steps[b].id && id in run[c].opers && run[c].opers[id].answer.Answered?
    requires steps[p].quorum + steps[b].quorum > REPLICAS
    ensures w < c && steps[w].Begin? && steps[w].op.Put? && steps[w].key == steps[p].key
    ensures steps[p].time < steps[w].time || (steps[p].time == steps[w].time &&
      (steps[p].value == steps[w].value || StringLess(steps[p].value, steps[w].value)))
    ensures run[c].opers[id].answer.client == if steps[w].value != "" then Some(steps[w].value) else None
  {
    hide IsRun, Written, RegistersWritten, MessagesWritten, StringLess;
    var first := steps[p].id;
    AsBegun(hash, n, run, steps, p, a);
    AsBegun(hash, n, run, steps, b, c);
    OverlappingQuorumsOrder(hash, n, run, steps, a, b, c, first, id);
    NoCreation(hash, n, run, steps, c);
    ClientSees(hash, n, run, steps, c, id);
    var x := run[c].opers[id].answer.item;
    w := WherePut(hash, n, run, steps, c, run[c].opers[id].key, x);
    LaterWins(steps[p].time, steps[p].value, steps[w].time, steps[w].value);
  }
}
