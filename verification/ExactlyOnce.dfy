/** What the two exactly-once guarantees deliver, in every run of a lossy, duplicating, reordering network. */
module ExactlyOnce {
  import opened WindowSpec
  import opened WindowNodes
  import opened WindowSystem
  import opened Permutations

  // ---------------------------------------------------------------- any order

  /** What `ExactlyOnceReceiver` shows its user during the run of `steps` from `g`. */
  function Shown(g: System, steps: seq<Step>): seq<Data>
    decreases |steps|
  {
    if steps == [] then []
    else
      (if steps[0].Arrive? && !Seen(g.w, steps[0].d.order) then [steps[0].d] else [])
      + Shown(Apply(g, steps[0]), steps[1..])
  }

  /** `log` holds, once each, exactly the orders the window denotes. */
  ghost predicate Denotes(g: System, log: seq<Data>) {
    && Distinct(log)
    && (forall d | d in log :: d.order < |g.texts| && d.text == g.texts[d.order])
    && forall o: nat :: Seen(g.w, o) <==> o in Orders(log)
  }

  lemma StepDenotes(g: System, step: Step, log: seq<Data>, now: seq<Data>)
    requires Inv(g) && Enabled(g, step) && Denotes(g, log)
    requires now == if step.Arrive? && !Seen(g.w, step.d.order) then [step.d] else []
    ensures Denotes(Apply(g, step), log + now)
  {
    hide Take, Seen, TwoAcks, AcksOk, ForgotOk, SenderOk, Orders, Distinct;
    if step.Arrive? {
      TakeMeans(g.w, step.d.order);
    }
    if now == [] {
      assert log + now == log;
    } else {
      OrdersMore(log, step.d);
    }
  }

  lemma {:induction false} ShownDenotes(g: System, steps: seq<Step>, after: System, log: seq<Data>)
    requires Inv(g) && Leads(g, steps, after) && Denotes(g, log)
    ensures Denotes(after, log + Shown(g, steps))
    decreases |steps|
  {
    hide Inv, Denotes;
    if steps == [] {
      assert log + Shown(g, steps) == log;
    } else {
      var now := if steps[0].Arrive? && !Seen(g.w, steps[0].d.order) then [steps[0].d] else [];
      StepKeeps(g, steps[0]);
      StepDenotes(g, steps[0], log, now);
      ShownDenotes(Apply(g, steps[0]), steps[1..], after, log + now);
      assert log + Shown(g, steps) == log + now + Shown(Apply(g, steps[0]), steps[1..]);
    }
  }

  /** Every order is shown at most once, with the text that was sent; the bound and the set denote exactly the
      orders shown; and an empty store means that precisely the texts sent have been shown. */
  lemma ExactlyOnceDelivery(steps: seq<Step>, after: System)
    requires Leads(Start(LIMIT_EO), steps, after)
    ensures Denotes(after, Shown(Start(LIMIT_EO), steps))
    ensures |after.w.held| <= 21
    ensures after.s.store == map[] ==> multiset(TextsOf(Shown(Start(LIMIT_EO), steps))) == multiset(after.texts)
  {
    hide Inv, Leads, Shown;
    var g := Start(LIMIT_EO);
    StartOk(LIMIT_EO);
    assert Denotes(g, []);
    ShownDenotes(g, steps, after, []);
    assert [] + Shown(g, steps) == Shown(g, steps);
    Safety(g, steps, after);
    WindowBounds(after);
    if after.s.store == map[] {
      EmptyStoreMeansDone(after);
      forall o: nat | o < |after.texts| ensures o in Orders(Shown(g, steps)) {
        assert Seen(after.w, o) <==> o in Orders(Shown(g, steps));
      }
      Rearranged(Shown(g, steps), after.texts);
    }
  }

  // ---------------------------------------------------------------- in order

  /** The ordered receiver after the messages that arrive during `steps`. */
  function KeepAll(r: Ordered, steps: seq<Step>): Ordered
    decreases |steps|
  {
    if steps == [] then r
    else KeepAll(if steps[0].Arrive? then Keep(r, steps[0].d) else r, steps[1..])
  }

  /** The receiver has the memory of the window and has shown exactly the first texts sent. */
  ghost predicate Follows(g: System, r: Ordered) {
    && g.w == Window(r.bound, r.store.Keys)
    && r.bound <= |g.texts| && r.log == g.texts[..r.bound]
    && forall o | o in r.store :: o < |g.texts| && r.store[o] == g.texts[o]
  }

  lemma {:induction false} FlushFollows(r: Ordered, texts: seq<string>)
    requires r.bound <= |texts| && r.log == texts[..r.bound]
    requires forall o | o in r.store :: o < |texts| && r.store[o] == texts[o]
    ensures var f := Flush(r);
      && Window(f.bound, f.store.Keys) == Compact(Window(r.bound, r.store.Keys))
      && f.bound <= |texts| && f.log == texts[..f.bound]
      && forall o | o in f.store :: o < |texts| && f.store[o] == texts[o]
    decreases |r.store|
  {
    if r.bound in r.store {
      var next := Ordered(r.bound + 1, r.store - {r.bound}, r.log + [r.store[r.bound]]);
      assert next.store.Keys == r.store.Keys - {r.bound};
      assert r.store.Keys == next.store.Keys + {r.bound};
      assert next.log == texts[..next.bound];
      FlushFollows(next, texts);
    }
  }

  lemma StepFollows(g: System, step: Step, r: Ordered)
    requires Inv(g) && Enabled(g, step) && Follows(g, r)
    ensures Follows(Apply(g, step), if step.Arrive? then Keep(r, step.d) else r)
  {
    hide Flush, Compact;
    if step.Arrive? {
      var d := step.d;
      if d.order >= r.bound && d.order !in r.store {
        var full := r.(store := r.store[d.order := d.text]);
        assert full.store.Keys == r.store.Keys + {d.order};
        FlushFollows(full, g.texts);
      } else {
        TakeMeans(g.w, d.order);
      }
    }
  }

  lemma {:induction false} KeepFollows(g: System, steps: seq<Step>, after: System, r: Ordered)
    requires Inv(g) && Leads(g, steps, after) && Follows(g, r)
    ensures Follows(after, KeepAll(r, steps))
    decreases |steps|
  {
    hide Inv, Follows, Keep;
    if steps != [] {
      StepKeeps(g, steps[0]);
      StepFollows(g, steps[0], r);
      KeepFollows(Apply(g, steps[0]), steps[1..], after, if steps[0].Arrive? then Keep(r, steps[0].d) else r);
    }
  }

  const FRESH := Ordered(0, map[], [])

  /** At every moment the texts shown are the first ones sent, in order; at most LIMIT_EOO wait in memory;
      and an empty store means that all of them have been shown. */
  lemma InOrderDelivery(steps: seq<Step>, after: System)
    requires Leads(Start(LIMIT_EOO), steps, after)
    ensures var r := KeepAll(FRESH, steps);
      && r.bound <= |after.texts| && r.log == after.texts[..r.bound]
      && |r.store| <= 30
      && (after.s.store == map[] ==> r.log == after.texts)
  {
    hide Inv, Leads, KeepAll;
    var g := Start(LIMIT_EOO);
    StartOk(LIMIT_EOO);
    assert Follows(g, FRESH);
    KeepFollows(g, steps, after, FRESH);
    Safety(g, steps, after);
    WindowBounds(after);
    var r := KeepAll(FRESH, steps);
    assert |r.store| == |r.store.Keys|;
    if after.s.store == map[] {
      EmptyStoreMeansDone(after);
      assert after.texts[..|after.texts|] == after.texts;
    }
  }

  /** In every reachable state, for any window size: the first text the sender cannot yet forget is stored, has
      its timer pending and is resent when it fires; and the bounds stay within one window of each other. */
  lemma NeverStalls(limit: nat, steps: seq<Step>, g: System)
    requires Leads(Start(limit), steps, g)
    ensures g.s.order == |g.texts| && g.s.bound <= g.w.bound <= g.s.bound + limit + 1
    ensures forall o | o in g.w.held :: g.w.bound < o <= g.w.bound + limit
    ensures g.s.bound < g.s.order ==>
      && g.s.bound in g.s.store && g.s.bound in g.s.timers
      && Resent(g.s, g.s.bound, limit) == [Data(g.s.bound, g.texts[g.s.bound])]
  {
    StartOk(limit);
    Safety(Start(limit), steps, g);
    WindowBounds(g);
    Unfold(g);
    if g.s.bound < g.s.order { NoStall(g); }
  }

  /** From every reachable state some continuation, three steps for each unacknowledged text at most,
      gets every text sent so far shown by either receiver. */
  lemma CanComplete(limit: nat, steps: seq<Step>, g: System) returns (more: seq<Step>, after: System)
    requires limit == LIMIT_EO || limit == LIMIT_EOO
    requires Leads(Start(limit), steps, g)
    ensures |more| <= 3 * |g.s.store| && Leads(Start(limit), steps + more, after) && after.texts == g.texts
    ensures limit == LIMIT_EO ==> multiset(TextsOf(Shown(Start(limit), steps + more))) == multiset(g.texts)
    ensures limit == LIMIT_EOO ==> KeepAll(FRESH, steps + more).log == g.texts
  {
    hide Inv, Leads, Shown, KeepAll;
    StartOk(limit);
    Safety(Start(limit), steps, g);
    more, after := Completion(g);
    LeadsJoin(Start(limit), steps, g, more, after);
    if limit == LIMIT_EO {
      ExactlyOnceDelivery(steps + more, after);
    } else {
      InOrderDelivery(steps + more, after);
    }
  }

  // ---------------------------------------------------------------- what the sender puts on the network

  /** What the user typed during `steps`. */
  function Typed(steps: seq<Step>): seq<string>
    decreases |steps|
  {
    if steps == [] then [] else (if steps[0].Local? then [steps[0].text] else []) + Typed(steps[1..])
  }

  /** The texts that count as sent are exactly those the user typed. */
  lemma {:induction false} TextsAreTyped(g: System, steps: seq<Step>, after: System)
    requires Leads(g, steps, after)
    ensures after.texts == g.texts + Typed(steps)
    decreases |steps|
  {
    hide Enabled;
    if steps != [] { TextsAreTyped(Apply(g, steps[0]), steps[1..], after); }
  }

  /** The texts of the first window. */
  ghost predicate FirstWindowOut(g: System) {
    forall o: nat | o < |g.texts| && o <= g.limit :: Data(o, g.texts[o]) in g.data
  }

  lemma FirstWindowStep(g: System, step: Step)
    requires Inv(g) && Enabled(g, step) && FirstWindowOut(g)
    ensures FirstWindowOut(Apply(g, step))
  {
    hide Take, TwoAcks, AcksOk, ForgotOk, WindowOk;
    if step.Local? && g.s.order <= g.limit {
      var sent := Sent(g.s, g.s.order, step.text, g.limit);
      assert sent == [Data(g.s.order, step.text)];
      assert sent[0] in sent;
    }
  }

  lemma {:induction false} FirstWindowStays(g: System, steps: seq<Step>, after: System)
    requires Inv(g) && Leads(g, steps, after) && FirstWindowOut(g)
    ensures FirstWindowOut(after)
    decreases |steps|
  {
    if steps != [] {
      assert FirstWindowOut(Apply(g, steps[0])) by { FirstWindowStep(g, steps[0]); }
      StepKeeps(g, steps[0]);
      hide Inv, FirstWindowOut;
      FirstWindowStays(Apply(g, steps[0]), steps[1..], after);
    }
  }

  /** The first limit + 1 texts are on the network as soon as they are typed, whatever has been acknowledged:
      22 of them without order, 31 with. */
  lemma FirstWindowIsSent(limit: nat, steps: seq<Step>, g: System)
    requires Leads(Start(limit), steps, g)
    ensures g.texts == Typed(steps)
    ensures forall o: nat | o < |Typed(steps)| && o <= limit :: Data(o, Typed(steps)[o]) in g.data
    ensures limit == LIMIT_EO && |Typed(steps)| <= 22 ==>
      forall o: nat | o < |Typed(steps)| :: Data(o, Typed(steps)[o]) in g.data
    ensures limit == LIMIT_EOO && |Typed(steps)| <= 31 ==>
      forall o: nat | o < |Typed(steps)| :: Data(o, Typed(steps)[o]) in g.data
  {
    hide Leads;
    StartOk(limit);
    Safety(Start(limit), steps, g);
    TextsAreTyped(Start(limit), steps, g);
    assert [] + Typed(steps) == Typed(steps);
    FirstWindowStays(Start(limit), steps, g);
  }

  /** In every reachable state: a new text goes out at once exactly when its order is within the window, and so does
      each stored text when its timer fires, which is always pending; an acknowledged one stops its timer. */
  lemma WindowIsUsed(limit: nat, steps: seq<Step>, g: System, text: string)
    requires Leads(Start(limit), steps, g)
    ensures var o := |g.texts|;
      Data(o, text) in Apply(g, Local(text)).data <==> o <= g.s.bound + limit
    ensures forall o | o in g.s.store ::
      && o < |g.texts| && o in g.s.timers && o in Apply(g, Timer(o)).s.timers
      && Apply(g, Timer(o)).data == g.data + if o <= g.s.bound + limit then {Data(o, g.texts[o])} else {}
    ensures forall o | o in g.s.timers && o !in g.s.store ::
      Apply(g, Timer(o)).data == g.data && o !in Apply(g, Timer(o)).s.timers
    ensures forall d | d in g.data :: d.order <= g.s.bound + limit
  {
    StartOk(limit);
    Safety(Start(limit), steps, g);
    var sent := Sent(g.s, g.s.order, text, limit);
    if g.s.order <= g.s.bound + limit { assert sent[0] in sent; }
    forall o | o in g.s.store
      ensures Apply(g, Timer(o)).data == g.data + if o <= g.s.bound + limit then {Data(o, g.texts[o])} else {}
    {
      var again := Resent(g.s, o, limit);
      if o <= g.s.bound + limit { assert again[0] in again; }
      assert Batch(again) == if o <= g.s.bound + limit then {Data(o, g.texts[o])} else {};
    }
    forall o | o in g.s.timers && o !in g.s.store ensures Apply(g, Timer(o)).data == g.data {
      assert Batch([]) == {};
    }
  }
}
