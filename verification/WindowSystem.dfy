/** Sender and receiver memory over a network that loses, duplicates and reorders:
    the window never stalls, and every run can be completed. */
module WindowSystem {
  import opened Sets
  import opened WindowSpec

  /** `texts` is everything the user has sent; `data` and `acks` everything ever put on the network. */
  datatype System = System(limit: nat, s: Sender, w: Window, texts: seq<string>, data: set<Data>, acks: set<Ack>)

  datatype Step = Local(text: string) | Timer(order: nat) | Arrive(d: Data) | Acked(a: Ack)

  function Start(limit: nat): System {
    System(limit, Sender(0, 0, map[], {}), Window(0, {}), [], {}, {})
  }

  predicate Enabled(g: System, step: Step) {
    match step
    case Local(_) => true
    case Timer(order) => order in g.s.timers
    case Arrive(d) => d in g.data
    case Acked(a) => a in g.acks
  }

  function Batch(out: seq<Data>): set<Data> {
    set d | d in out
  }

  function Apply(g: System, step: Step): System {
    match step
    case Local(text) =>
      g.(s := OnLocal(g.s, text), texts := g.texts + [text],
         data := g.data + Batch(Sent(g.s, g.s.order, text, g.limit)))
    case Timer(order) =>
      g.(s := OnTimer(g.s, order), data := g.data + Batch(Resent(g.s, order, g.limit)))
    case Arrive(d) =>
      var w := Take(g.w, d.order);
      g.(w := w, acks := g.acks + {Ack(d.order, w.bound)})
    case Acked(a) =>
      g.(s := OnAck(g.s, a))
  }

  /** `after` is reached from `g` by taking `steps` one after the other. */
  ghost predicate Leads(g: System, steps: seq<Step>, after: System)
    decreases |steps|
  {
    if steps == [] then after == g
    else Enabled(g, steps[0]) && Leads(Apply(g, steps[0]), steps[1..], after)
  }

  // ---------------------------------------------------------------- the invariant

  ghost predicate SenderOk(g: System) {
    && g.s.order == |g.texts|
    && (forall o | o in g.s.store :: o < |g.texts| && g.s.store[o] == g.texts[o] && o in g.s.timers)
    && forall o | o in g.s.timers :: o < |g.texts|
  }

  ghost predicate DataOk(g: System) {
    forall d | d in g.data :: d.order < |g.texts| && d.text == g.texts[d.order] && d.order <= g.s.bound + g.limit
  }

  /** What is seen was sent, within the window. */
  ghost predicate WindowOk(g: System) {
    && Compacted(g.w) && g.s.bound <= g.w.bound
    && forall o: nat | Seen(g.w, o) :: o < |g.texts| && o <= g.s.bound + g.limit
  }

  ghost predicate AcksOk(g: System) {
    forall a | a in g.acks :: a.bound <= g.w.bound && Seen(g.w, a.order)
  }

  /** If some acknowledgement ever carried the bound s, every acknowledgement of order s carries a larger one. */
  ghost predicate TwoAcks(g: System) {
    && (forall a, b | a in g.acks && b in g.acks && a.bound == b.order :: b.bound > b.order)
    && forall b | b in g.acks && b.order == 0 :: b.bound > 0
  }

  ghost predicate AckedOnce(g: System, o: nat) {
    exists a :: a in g.acks && a.order == o && a.bound <= g.s.bound
  }

  /** What the sender has forgotten was acknowledged, and its bound came from an acknowledgement. */
  ghost predicate ForgotOk(g: System) {
    && (forall o | 0 <= o < |g.texts| && o !in g.s.store :: AckedOnce(g, o))
    && (g.s.bound == 0 || exists a :: a in g.acks && a.bound == g.s.bound)
  }

  ghost predicate Inv(g: System) {
    SenderOk(g) && DataOk(g) && WindowOk(g) && AcksOk(g) && TwoAcks(g) && ForgotOk(g)
  }

  lemma StartOk(limit: nat)
    ensures Inv(Start(limit))
  {
  }

  lemma LocalKeeps(g: System, step: Step)
    requires Inv(g) && step.Local?
    ensures Inv(Apply(g, step))
  {
    var g' := Apply(g, step);
    forall o | 0 <= o < |g'.texts| && o !in g'.s.store ensures AckedOnce(g', o) {
      assert AckedOnce(g, o);
    }
  }

  lemma NotAtBound(w: Window)
    requires Compacted(w)
    ensures !Seen(w, w.bound)
  {
  }

  lemma ArriveKeeps(g: System, step: Step)
    requires Inv(g) && step.Arrive? && Enabled(g, step)
    ensures Inv(Apply(g, step))
  {
    hide Take, Seen;
    var g' := Apply(g, step);
    TakeMeans(g.w, step.d.order);
    NotAtBound(g'.w);
    assert TwoAcks(g');
    forall o | 0 <= o < |g'.texts| && o !in g'.s.store ensures AckedOnce(g', o) {
      assert AckedOnce(g, o);
    }
  }

  lemma AckedKeeps(g: System, step: Step)
    requires Inv(g) && step.Acked? && Enabled(g, step)
    ensures Inv(Apply(g, step))
  {
    var g' := Apply(g, step);
    forall o | 0 <= o < |g'.texts| && o !in g'.s.store ensures AckedOnce(g', o) {
      if o == step.a.order {
        assert step.a in g'.acks;
      } else {
        assert AckedOnce(g, o);
      }
    }
  }

  lemma StepKeeps(g: System, step: Step)
    requires Inv(g) && Enabled(g, step)
    ensures Inv(Apply(g, step)) && Apply(g, step).limit == g.limit
  {
    match step
    case Local(text) => LocalKeeps(g, step);
    case Timer(order) =>
    case Arrive(d) => ArriveKeeps(g, step);
    case Acked(a) => AckedKeeps(g, step);
  }

  // ---------------------------------------------------------------- what follows

  /** No stall: while something is unconfirmed, the first unconfirmed order is stored, timed and inside the window. */
  lemma NoStall(g: System)
    requires Inv(g) && g.s.bound < g.s.order
    ensures g.s.bound in g.s.store && g.s.bound in g.s.timers
    ensures Resent(g.s, g.s.bound, g.limit) == [Data(g.s.bound, g.texts[g.s.bound])]
  {
    assert !AckedOnce(g, g.s.bound);
  }

  /** The two bounds stay within one window of each other, and the receiver's memory within the limit. */
  lemma WindowBounds(g: System)
    requires Inv(g)
    ensures g.s.bound <= g.w.bound <= g.s.bound + g.limit + 1
    ensures forall o | o in g.w.held :: g.w.bound < o <= g.w.bound + g.limit
    ensures |g.w.held| <= g.limit
  {
    if g.w.bound > 0 { assert Seen(g.w, g.w.bound - 1); }
    forall o | o in g.w.held ensures g.w.bound < o <= g.w.bound + g.limit { assert Seen(g.w, o); }
    RangeSize(g.w.bound + 1, g.limit, g.w.held);
  }

  /** An empty store means that everything sent has been seen. */
  lemma EmptyStoreMeansDone(g: System)
    requires Inv(g) && g.s.store == map[]
    ensures g.w == Window(|g.texts|, {})
  {
    if g.s.bound < g.s.order { NoStall(g); assert false; }
    if g.w.bound > 0 { assert Seen(g.w, g.w.bound - 1); }
    forall o | o in g.w.held ensures false { assert Seen(g.w, o); }
  }

  lemma Unfold(g: System)
    requires Inv(g)
    ensures SenderOk(g)
  {
  }

  lemma TimerResends(g: System, o: nat)
    requires Inv(g) && o in g.s.store && (g.s.bound < g.s.order ==> o == g.s.bound)
    ensures Enabled(g, Timer(o))
    ensures var g' := Apply(g, Timer(o));
      Data(o, g.s.store[o]) in g'.data && g'.s.store == g.s.store && g'.texts == g.texts
  {
    hide Inv;
    assert SenderOk(g) by { Unfold(g); }
    assert Resent(g.s, o, g.limit) == [Data(o, g.s.store[o])];
  }

  lemma ArriveAcks(g: System, d: Data)
    requires d in g.data
    ensures Enabled(g, Arrive(d))
    ensures var g' := Apply(g, Arrive(d)); Ack(d.order, g'.w.bound) in g'.acks && g'.s == g.s && g'.texts == g.texts
  {
    hide Take;
  }

  lemma AckedRemoves(g: System, a: Ack)
    requires a in g.acks && a.order in g.s.store
    ensures Enabled(g, Acked(a))
    ensures var g' := Apply(g, Acked(a)); g'.texts == g.texts && |g'.s.store| == |g.s.store| - 1
  {
    var store := Apply(g, Acked(a)).s.store;
    assert store == g.s.store - {a.order};
    assert store.Keys == g.s.store.Keys - {a.order};
  }

  lemma LeadsThree(g: System, a: Step, b: Step, c: Step)
    requires Enabled(g, a) && Enabled(Apply(g, a), b) && Enabled(Apply(Apply(g, a), b), c)
    ensures Leads(g, [a, b, c], Apply(Apply(Apply(g, a), b), c))
  {
    hide Enabled, Apply;
    assert [a, b, c][1..] == [b, c] && [b, c][1..] == [c] && [c][1..] == [];
    assert Leads(Apply(Apply(Apply(g, a), b), c), [], Apply(Apply(Apply(g, a), b), c));
    assert Leads(Apply(Apply(g, a), b), [c], Apply(Apply(Apply(g, a), b), c));
    assert Leads(Apply(g, a), [b, c], Apply(Apply(Apply(g, a), b), c));
  }

  /** One round (timer, message, acknowledgement) empties one entry of the store. */
  lemma Round(g: System) returns (steps: seq<Step>, after: System)
    requires Inv(g) && g.s.store != map[]
    ensures |steps| == 3 && Leads(g, steps, after) && Inv(after)
    ensures after.texts == g.texts && |after.s.store| == |g.s.store| - 1
  {
    var o :| o in g.s.store;
    if g.s.bound < g.s.order {
      NoStall(g);
      o := g.s.bound;
    }
    hide *;
    var first, d := Timer(o), Data(o, g.s.store[o]);
    TimerResends(g, o);
    var g1 := Apply(g, first);
    StepKeeps(g, first);
    var second := Arrive(d);
    ArriveAcks(g1, d);
    var g2 := Apply(g1, second);
    StepKeeps(g1, second);
    var third := Acked(Ack(o, g2.w.bound));
    AckedRemoves(g2, third.a);
    after := Apply(g2, third);
    StepKeeps(g2, third);
    steps := [first, second, third];
    LeadsThree(g, first, second, third);
  }

  lemma {:induction false} LeadsJoin(g: System, a: seq<Step>, mid: System, b: seq<Step>, after: System)
    requires Leads(g, a, mid) && Leads(mid, b, after)
    ensures Leads(g, a + b, after)
    decreases |a|
  {
    hide Enabled, Apply;
    if a == [] {
      assert a + b == b;
    } else {
      LeadsJoin(Apply(g, a[0]), a[1..], mid, b, after);
      assert (a + b)[1..] == a[1..] + b;
    }
  }

  lemma LeadsNone(g: System)
    ensures Leads(g, [], g)
  {
  }

  /** Completion is always reachable, in three steps for each entry of the sender's store. */
  lemma {:induction false} Completion(g: System) returns (steps: seq<Step>, after: System)
    requires Inv(g)
    ensures |steps| <= 3 * |g.s.store| && Leads(g, steps, after)
    ensures after.s.store == map[] && after.texts == g.texts && after.w == Window(|g.texts|, {})
    decreases |g.s.store|
  {
    hide Inv, Leads;
    if g.s.store == map[] {
      steps, after := [], g;
      assert Leads(g, [], g) by { LeadsNone(g); }
      EmptyStoreMeansDone(g);
    } else {
      var round, mid := Round(g);
      var rest;
      rest, after := Completion(mid);
      steps := round + rest;
      LeadsJoin(g, round, mid, rest, after);
    }
  }

  /** The invariant holds after any steps from the initial state. */
  lemma {:induction false} Safety(g: System, steps: seq<Step>, after: System)
    requires Inv(g) && Leads(g, steps, after)
    ensures Inv(after) && after.limit == g.limit
    decreases |steps|
  {
    hide Inv;
    if steps != [] {
      StepKeeps(g, steps[0]);
      Safety(Apply(g, steps[0]), steps[1..], after);
    }
  }
}
