/** What the users of the broadcast see, told by the steps of a run: what they type, and what they are shown. */
module BroadcastUsers {
  import opened BroadcastSpec
  import opened BroadcastSystem
  import opened BroadcastInvariant
  import opened BroadcastTheorems

  // ---------------------------------------------------------------- one broadcast

  /** A best-effort broadcast makes exactly one copy for each process, and no other copy. */
  lemma {:induction false} OneCopyEach(m: Message, n: nat)
    ensures |Copies(m, n)| == n
    ensures forall c :: multiset(Copies(m, n))[c] == if c.dst < n && c.msg == m then 1 else 0
  {
    if n > 0 {
      OneCopyEach(m, n - 1);
      assert Copies(m, n) == Copies(m, n - 1) + [Copy(n - 1, m)];
    } else {
      assert Copies(m, n) == [];
    }
  }

  /** Delivery forgets the relayers of what it delivers, and of nothing else but the message just received. */
  lemma DeliveryForgets(p: Proc, src: nat, m: Message, ms: seq<Message>)
    requires Delivers(p, src, m, ms)
    ensures var q := After(p, src, m, ms);
      && (forall x | x in ms :: x.Hash() !in q.casters && x.Hash() in q.delivered)
      && (m !in ms ==> m.Hash() in q.casters && {src, p.id} <= q.casters[m.Hash()])
      && (forall h | h in p.casters && h != m.Hash() && (forall x | x in ms :: x.Hash() != h) ::
            h in q.casters && q.casters[h] == p.casters[h])
      && q.log == p.log + ms && q.counter == p.counter
  {
    hide Ready, InTurn, Advance, Settled;
    if ms == [] { assert p.log + ms == p.log; }
  }

  // ---------------------------------------------------------------- what users type

  /** The texts the user of process `u` has typed in the first `k` steps. */
  function Typed(steps: seq<Step>, k: nat, u: nat): seq<string>
    requires k <= |steps|
  {
    if k == 0 then []
    else Typed(steps, k - 1, u) + if steps[k - 1].Send? && steps[k - 1].at == u then [steps[k - 1].text] else []
  }

  lemma StepTypes(g: System, step: Step, u: nat)
    requires Enabled(g, step) && u < |g.members|
    ensures |Apply(g, step).members| == |g.members|
    ensures Apply(g, step).members[u].typed ==
      g.members[u].typed + if step.Send? && step.at == u then [step.text] else []
  {
    hide Delivers, After, Relays;
  }

  lemma {:induction false} TypedIsKept(n: nat, run: seq<System>, steps: seq<Step>, k: nat, u: nat)
    requires IsRun(n, run, steps) && k < |run| && u < n
    ensures k <= |steps| && |run[k].members| == n && run[k].members[u].typed == Typed(steps, k, u)
  {
    hide Delivers, Apply;
    if k > 0 {
      TypedIsKept(n, run, steps, k - 1, u);
      assert Enabled(run[k - 1], steps[k - 1]) && run[k - 1 + 1] == Apply(run[k - 1], steps[k - 1]);
      StepTypes(run[k - 1], steps[k - 1], u);
    }
  }

  lemma {:induction false} TextsAre(ms: seq<Message>)
    ensures |Texts(ms)| == |ms| && forall a | 0 <= a < |ms| :: Texts(ms)[a] == ms[a].text
  {
    if ms != [] { TextsAre(ms[..|ms| - 1]); }
  }

  /** The user is shown, in the order of the log, exactly the texts the authors' users have typed. */
  lemma ShownWasTyped(n: nat, run: seq<System>, steps: seq<Step>, k: nat, i: nat)
    requires IsRun(n, run, steps) && k < |run| && i < n
    ensures k <= |steps| && |run[k].members| == n
    ensures var x := run[k].members[i];
      && |x.shown| == |x.p.log|
      && forall a | 0 <= a < |x.p.log| ::
           && x.p.log[a].sender < n && x.p.log[a].counter < |Typed(steps, k, x.p.log[a].sender)|
           && x.shown[a] == Typed(steps, k, x.p.log[a].sender)[x.p.log[a].counter]
  {
    hide IsRun, InTurn, Advance, Hashes, Texts;
    TypedIsKept(n, run, steps, k, i);
    Safety(n, run, steps, k);
    var x := run[k].members[i];
    assert MemberOk(run[k], x, i);
    TextsAre(x.p.log);
    forall a | 0 <= a < |x.p.log|
      ensures x.p.log[a].sender < n && x.p.log[a].counter < |Typed(steps, k, x.p.log[a].sender)|
      ensures x.shown[a] == Typed(steps, k, x.p.log[a].sender)[x.p.log[a].counter]
    {
      var m := x.p.log[a];
      assert m in x.p.log && Authentic(run[k], m);
      TypedIsKept(n, run, steps, k, m.sender);
      assert MemberOk(run[k], run[k].members[m.sender], m.sender);
    }
  }

  // ---------------------------------------------------------------- from a SEND on

  lemma StepHistory(g: System, step: Step, u: nat)
    requires Enabled(g, step) && u < |g.members|
    ensures var x, y := g.members[u], Apply(g, step).members[u];
      x.sent <= y.sent && x.past <= y.past && x.p.log <= y.p.log
  {
    hide Delivers, Relays, Advance, Hashes;
  }

  lemma Sizes(n: nat, run: seq<System>, steps: seq<Step>, k: nat)
    requires IsRun(n, run, steps) && k < |run|
    ensures |run[k].members| == n
  {
    hide Inv;
    Safety(n, run, steps, k);
  }

  lemma {:induction false} HistoryGrows(n: nat, run: seq<System>, steps: seq<Step>, a: nat, b: nat, u: nat)
    requires IsRun(n, run, steps) && a <= b < |run| && u < n
    ensures |run[a].members| == n == |run[b].members|
    ensures run[a].members[u].sent <= run[b].members[u].sent && run[a].members[u].past <= run[b].members[u].past
    ensures run[a].members[u].p.log <= run[b].members[u].p.log
  {
    hide Delivers, Apply, Start;
    Sizes(n, run, steps, a);
    Sizes(n, run, steps, b);
    if a < b {
      HistoryGrows(n, run, steps, a, b - 1, u);
      assert Enabled(run[b - 1], steps[b - 1]) && run[b - 1 + 1] == Apply(run[b - 1], steps[b - 1]);
      StepHistory(run[b - 1], steps[b - 1], u);
    }
  }

  lemma EnabledAt(n: nat, run: seq<System>, steps: seq<Step>, k: nat)
    requires IsRun(n, run, steps) && k < |steps|
    ensures k < |run| && steps[k].at < |run[k].members|
  {
    hide Delivers;
    assert Enabled(run[k], steps[k]);
  }

  /** The message that the step `b`, a SEND, makes: what the user typed, as the author's next one. */
  lemma SentAt(n: nat, run: seq<System>, steps: seq<Step>, b: nat, k: nat) returns (m: Message)
    requires IsRun(n, run, steps) && b < k < |run| && b < |steps| && steps[b].Send?
    ensures steps[b].at < n && |run[b].members| == n == |run[k].members|
    ensures m.text == steps[b].text && m.sender == steps[b].at
    ensures var u := steps[b].at; var c := |run[b].members[u].sent|;
      && m.counter == c && c < |run[k].members[u].sent| && run[k].members[u].sent[c] == m
      && c < |run[k].members[u].past| && run[k].members[u].past[c] == run[b].members[u].p.log
      && run[b].members[u].sent == run[k].members[u].sent[..c]
  {
    hide Delivers, Relays, Copies;
    var u := steps[b].at;
    Sizes(n, run, steps, b);
    assert Enabled(run[b], steps[b]) && run[b + 1] == Apply(run[b], steps[b]);
    var x := run[b].members[u];
    assert SentOk(run[b], x, u) by { Safety(n, run, steps, b); assert MemberOk(run[b], x, u); }
    m := Message(steps[b].text, x.p.id, x.p.counter, x.p.state);
    assert run[b + 1].members[u].sent == x.sent + [m] && run[b + 1].members[u].past == x.past + [x.p.log];
    HistoryGrows(n, run, steps, b + 1, k, u);
  }

  /** Causal order, told by steps: where the message of a SEND is delivered, everything its author had delivered or
      sent before that step is delivered earlier. */
  lemma CausalOrderOfSends(n: nat, run: seq<System>, steps: seq<Step>, b: nat, k: nat, i: nat, a: nat, m': Message)
    requires IsRun(n, run, steps) && b < k < |run| && b < |steps| && steps[b].Send? && i < n
    requires steps[b].at < n && |run[b].members| == n == |run[k].members|
    requires var u := run[b].members[steps[b].at]; m' in u.p.log || m' in u.sent
    requires a < |run[k].members[i].p.log|
    requires run[k].members[i].p.log[a].Hash() == (steps[b].at, |run[b].members[steps[b].at].sent|)
    ensures run[k].members[i].p.log[a].text == steps[b].text
    ensures m' in run[k].members[i].p.log[..a]
  {
    hide IsRun, InTurn, Advance, Hashes;
    var m := SentAt(n, run, steps, b, k);
    var d := run[k].members[i].p.log[a];
    DeliveredOnceInOrder(n, run, steps, k, i);
    assert d in run[k].members[i].p.log && Authentic(run[k], d);
    assert d == m;
    CausalOrder(n, run, steps, k, i, a, m');
  }

  /** Validity, told by texts: what the user of a correct process has typed is shown to every correct user. */
  lemma TypedIsShown(n: nat, run: seq<System>, steps: seq<Step>, b: nat, k: nat, correct: set<nat>, q: nat)
    requires IsRun(n, run, steps) && b < k < |run| && b < |steps| && steps[b].Send?
    requires Majority(run[k], correct) && Quiet(run[k], correct) && steps[b].at in correct && q in correct
    ensures |run[k].members| == n && q < n && steps[b].text in run[k].members[q].shown
  {
    hide IsRun, Quiet, Texts;
    Sizes(n, run, steps, b);
    EnabledAt(n, run, steps, b);
    var u, c := steps[b].at, |run[b].members[steps[b].at].sent|;
    var m := SentAt(n, run, steps, b, k);
    Validity(n, run, steps, k, correct, u, q, c);
    Safety(n, run, steps, k);
    var x := run[k].members[q];
    assert MemberOk(run[k], x, q);
    TextsAre(x.p.log);
    var a :| 0 <= a < |x.p.log| && x.p.log[a] == m;
    assert x.shown[a] == steps[b].text;
  }
}
