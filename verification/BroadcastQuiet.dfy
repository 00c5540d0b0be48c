/** The group can always go quiet: no handler is ever stuck, and receiving what has been sent comes to an end,
    so the condition under which the broadcast promises agreement can be met from every reachable state. */
module BroadcastQuiet {
  import opened Sets
  import opened BroadcastSpec
  import opened BroadcastSystem
  import opened BroadcastInvariant
  import opened BroadcastTheorems
  import opened BroadcastTraffic

  // ---------------------------------------------------------------- no handler is stuck

  lemma ReadyIsDelivered(p: Proc, ms: seq<Message>, mid: Proc, h: Hash)
    requires Drained(p, ms, mid) && h in mid.buffer && Ready(mid.state, mid.buffer[h])
    ensures Delivered(mid, [mid.buffer[h]], DeliverOne(mid, mid.buffer[h]))
  {
    hide Ready, Exact;
    var m := mid.buffer[h];
    NothingDelivered(mid);
    DeliveredNext(mid, [], mid, m);
    assert [] + [m] == [m];
  }

  /** Draining can always be carried on until nothing buffered is deliverable. */
  lemma {:induction false} DrainOn(p: Proc, ms: seq<Message>, mid: Proc) returns (all: seq<Message>, now: Proc)
    requires Drained(p, ms, mid)
    ensures Drained(p, all, now) && Settled(now)
    decreases |mid.buffer|
  {
    hide Drained, Delivered, Consistent, Ready, Hashes;
    all, now := ms, mid;
    if !Settled(mid) {
      var h :| h in mid.buffer && Ready(mid.state, mid.buffer[h]);
      var m := mid.buffer[h];
      ReadyIsDelivered(p, ms, mid, h);
      DrainedNext(p, ms, mid, [m], DeliverOne(mid, m));
      PassShrinks(mid, [m]);
      all, now := DrainOn(p, ms + [m], DeliverOne(mid, m).(buffer := mid.buffer - Hashes([m])));
    }
  }

  /** Whatever copy arrives, the handler has an outcome. */
  lemma SomeOutcome(p: Proc, src: nat, m: Message) returns (ms: seq<Message>)
    requires Consistent(p) && Settled(p)
    ensures Delivers(p, src, m, ms)
  {
    hide Delivers, Consistent, Ready, Settled, After;
    Outcomes(p, src, m);
    NoteKeeps(p, m.Hash(), src);
    var q := Note(p, m.Hash(), src);
    ms := [];
    if m.Hash() !in q.delivered && Quorum(q, m.Hash()) && Ready(q.state, m) {
      DeliverKeeps(q, m);
      NothingDelivered(DeliverOne(q, m));
      var rest, now := DrainOn(DeliverOne(q, m), [], DeliverOne(q, m));
      OutcomeDelivered(p, src, m, rest, now);
      ms := [m] + rest;
    }
  }

  lemma DeliveredExactly(g: System, x: Member, h: Hash)
    requires LogOk(g, x) && |x.p.state| == |g.members|
    ensures h in x.p.delivered <==> h.0 < |x.p.state| && h.1 < x.p.state[h.0]
  {
    hide InTurn, Advance;
    if h.0 < |g.members| {
      LoggedExactly(|g.members|, x.p.log, h.0, h.1);
      if Logged(x.p.log, h.0, h.1) {
        var a :| 0 <= a < |x.p.log| && x.p.log[a].Hash() == (h.0, h.1);
        assert x.p.log[a] in x.p.log;
      }
    }
  }

  /** A member of a reachable group satisfies what its handlers rely on. */
  lemma MemberConsistent(g: System, i: nat)
    requires Inv(g) && i < |g.members|
    ensures Consistent(g.members[i].p) && Settled(g.members[i].p)
  {
    hide InTurn, Advance, Settled, RelayOk, BackedOk, GotOk, PendingOk, CastersOk;
    var x := g.members[i];
    assert MemberOk(g, x, i);
    forall h: Hash ensures h in x.p.delivered <==> h.0 < |x.p.state| && h.1 < x.p.state[h.0] {
      DeliveredExactly(g, x, h);
    }
    forall h | h in x.p.buffer ensures x.p.buffer[h].Hash() == h && x.p.buffer[h].Fits(|x.p.state|) {
      assert MemberOk(g, g.members[h.0], h.0);
    }
  }

  /** Any copy on the network can be received at any time by the process it was sent to. */
  lemma CanReceive(g: System, at: nat, cast: Cast) returns (step: Step)
    requires Inv(g) && at < |g.members| && Packet(cast.src, at, cast.msg) in g.wire
    ensures step.Receive? && step.at == at && step.cast == cast && Enabled(g, step)
  {
    hide Inv, Delivers, Consistent, Settled;
    MemberConsistent(g, at);
    var ms := SomeOutcome(g.members[at].p, cast.src, cast.msg);
    step := Receive(at, cast, ms);
  }

  // ---------------------------------------------------------------- receiving ends

  function Sends(g: System): seq<seq<Message>> {
    seq(|g.members|, i requires 0 <= i < |g.members| => g.members[i].sent)
  }

  lemma {:induction false} SameSent(a: seq<Member>, b: seq<Member>)
    requires |a| == |b| && forall i | 0 <= i < |a| :: a[i].sent == b[i].sent
    ensures AllSent(a) == AllSent(b)
  {
    if a != [] { SameSent(a[..|a| - 1], b[..|b| - 1]); }
  }

  lemma TimesMore(n: nat, a: nat, b: nat)
    requires n > 0 && a > b
    ensures n * a > n * b
  {
  }

  lemma InRoom(n: nat, run: seq<System>, steps: seq<Step>, k: nat)
    requires IsRun(n, run, steps) && k < |run| && n > 0
    ensures |run[k].casts| <= (2 * n + 1) * |AllSent(run[k].members)|
  {
    hide IsRun, AllSent;
    TrafficBound(n, run, steps, k);
    var most := (2 * n + 1) * |AllSent(run[k].members)|;
    if |run[k].casts| > most { TimesMore(n, |run[k].casts|, most); }
  }

  /** How many distinct copies have been received, over all processes. */
  function Received(members: seq<Member>): nat {
    if members == [] then 0 else Received(members[..|members| - 1]) + |members[|members| - 1].got|
  }

  lemma {:induction false} ReceivedSame(a: seq<Member>, b: seq<Member>)
    requires |a| == |b| && forall j | 0 <= j < |a| :: a[j].got == b[j].got
    ensures Received(b) == Received(a)
  {
    if a != [] { ReceivedSame(a[..|a| - 1], b[..|b| - 1]); }
  }

  lemma {:induction false} ReceivedMore(a: seq<Member>, b: seq<Member>, i: nat, more: nat)
    requires |a| == |b| && i < |a| && |b[i].got| == |a[i].got| + more
    requires forall j | 0 <= j < |a| && j != i :: a[j].got == b[j].got
    ensures Received(b) == Received(a) + more
    decreases |a|
  {
    if i < |a| - 1 { ReceivedMore(a[..|a| - 1], b[..|b| - 1], i, more); } else { ReceivedSame(a[..i], b[..i]); }
  }

  lemma OneMoreRow(rows: nat, width: nat)
    ensures (rows + 1) * width == rows * width + width
  {
  }

  lemma {:induction false} DistinctCasts(casts: seq<Cast>)
    ensures |set c | c in casts| <= |casts|
  {
    if casts != [] {
      var front, last := casts[..|casts| - 1], casts[|casts| - 1];
      DistinctCasts(front);
      assert casts == front + [last];
      assert (set c | c in casts) == (set c | c in front) + {last};
    }
  }

  lemma {:induction false} ReceivedBound(members: seq<Member>, casts: seq<Cast>)
    requires forall x, c | x in members && c in x.got :: c in casts
    ensures Received(members) <= |members| * |casts|
  {
    if members != [] {
      var front, last := members[..|members| - 1], members[|members| - 1];
      assert members == front + [last];
      ReceivedBound(front, casts);
      var all := set c | c in casts;
      DistinctCasts(casts);
      SubsetSize(last.got, all);
      OneMoreRow(|front|, |casts|);
    }
  }

  /** The step receives a copy for the first time. */
  predicate IsNew(g: System, step: Step) {
    step.Receive? && step.at < |g.members| && step.cast !in g.members[step.at].got
  }

  /** How many of the first `k` steps did. */
  function NewCopies(run: seq<System>, steps: seq<Step>, k: nat): nat
    requires k <= |steps| < |run|
  {
    if k == 0 then 0 else NewCopies(run, steps, k - 1) + if IsNew(run[k - 1], steps[k - 1]) then 1 else 0
  }

  lemma StepReceives(g: System, step: Step)
    requires Enabled(g, step)
    ensures Received(Apply(g, step).members) == Received(g.members) + if IsNew(g, step) then 1 else 0
  {
    hide Delivers, After, Relays;
    var g' := Apply(g, step);
    if step.Receive? && !IsNew(g, step) {
      assert g.members[step.at].got + {step.cast} == g.members[step.at].got;
    }
    ReceivedMore(g.members, g'.members, step.at, if IsNew(g, step) then 1 else 0);
  }

  lemma NothingReceived(n: nat)
    ensures Received(Start(n).members) == 0
    decreases n
  {
    var members := Start(n).members;
    ReceivedBound(members, []);
  }

  lemma {:induction false} NewCopiesCount(n: nat, run: seq<System>, steps: seq<Step>, k: nat)
    requires IsRun(n, run, steps) && k <= |steps|
    ensures NewCopies(run, steps, k) == Received(run[k].members)
  {
    hide Delivers, Start, Apply, IsNew, Received;
    if k == 0 {
      NothingReceived(n);
    } else {
      NewCopiesCount(n, run, steps, k - 1);
      assert Enabled(run[k - 1], steps[k - 1]) && run[k - 1 + 1] == Apply(run[k - 1], steps[k - 1]);
      StepReceives(run[k - 1], steps[k - 1]);
    }
  }

  lemma GotWereSent(g: System)
    requires Inv(g)
    ensures forall x, c | x in g.members && c in x.got :: c in g.casts
  {
    forall x, c | x in g.members && c in x.got ensures c in g.casts {
      var i :| 0 <= i < |g.members| && g.members[i] == x;
      assert MemberOk(g, x, i);
    }
  }

  lemma SizeOf(n: nat, run: seq<System>, steps: seq<Step>)
    requires IsRun(n, run, steps)
    ensures |run| == |steps| + 1
  {
  }

  /** In every schedule receiving ends: at most n(2n + 1) copies per message sent are ever received for the
      first time. */
  lemma ReceivingEnds(n: nat, run: seq<System>, steps: seq<Step>, k: nat)
    requires IsRun(n, run, steps) && k <= |steps|
    ensures NewCopies(run, steps, k) <= n * ((2 * n + 1) * |AllSent(run[k].members)|)
  {
    hide IsRun, AllSent, Received, NewCopies;
    SizeOf(n, run, steps);
    NewCopiesCount(n, run, steps, k);
    Safety(n, run, steps, k);
    GotWereSent(run[k]);
    ReceivedBound(run[k].members, run[k].casts);
    TrafficBound(n, run, steps, k);
  }

  // ---------------------------------------------------------------- going quiet

  /** The copies between correct processes that have not been received. */
  ghost function Missing(g: System, correct: set<nat>): set<Packet> {
    set p | p in g.wire && p.src in correct && p.dst in correct
            && p.dst < |g.members| && Cast(p.src, p.msg) !in g.members[p.dst].got
  }

  /** A new copy received is one fewer missing, unless it is relayed. */
  lemma ReceivedOne(g: System, correct: set<nat>, step: Step)
    requires step.Receive? && step.at < |g.members|
    requires Packet(step.cast.src, step.at, step.cast.msg) in Missing(g, correct)
    ensures var g' := Apply(g, step);
      && |g'.members| == |g.members| && Sends(g') == Sends(g)
      && AllSent(g'.members) == AllSent(g.members)
      && ((g'.casts == g.casts && |Missing(g', correct)| < |Missing(g, correct)|) || |g'.casts| == |g.casts| + 1)
  {
    var g' := Apply(g, step);
    assert forall i | 0 <= i < |g.members| :: g'.members[i].sent == g.members[i].sent;
    assert Sends(g') == Sends(g);
    SameSent(g'.members, g.members);
    if |g'.casts| != |g.casts| + 1 {
      assert g'.casts == g.casts;
      assert g'.wire == g.wire;
      var packet := Packet(step.cast.src, step.at, step.cast.msg);
      assert Missing(g', correct) <= Missing(g, correct) - {packet};
      SubsetSize(Missing(g', correct), Missing(g, correct) - {packet});
    }
  }

  /** How many broadcasts there can still be while nobody sends. */
  function Room(n: nat, g: System): nat {
    var most := (2 * n + 1) * |AllSent(g.members)|;
    if |g.casts| <= most then most - |g.casts| else 0
  }

  lemma RunMore(n: nat, run: seq<System>, steps: seq<Step>, step: Step)
    requires IsRun(n, run, steps) && Enabled(run[|steps|], step)
    ensures IsRun(n, run + [Apply(run[|steps|], step)], steps + [step])
  {
    hide Enabled, Apply, Start;
  }

  /** Only correct processes take steps, and only to receive copies from correct ones. */
  ghost predicate AmongCorrect(steps: seq<Step>, from: nat, correct: set<nat>) {
    forall k | from <= k < |steps| :: steps[k].Receive? && steps[k].at in correct && steps[k].cast.src in correct
  }

  /** From every reachable state the correct processes, on their own, can receive all copies between them;
      all others may have stopped. */
  lemma {:induction false} GoesQuiet(n: nat, run: seq<System>, steps: seq<Step>, correct: set<nat>)
      returns (run': seq<System>, steps': seq<Step>)
    requires IsRun(n, run, steps)
    ensures IsRun(n, run', steps') && run <= run' && steps <= steps'
    ensures AmongCorrect(steps', |steps|, correct)
    ensures Sends(run'[|steps'|]) == Sends(run[|steps|])
    ensures Quiet(run'[|steps'|], correct)
    decreases Room(n, run[|steps|]), |Missing(run[|steps|], correct)|
  {
    hide IsRun, Inv, Enabled, Apply, AllSent, Sends;
    assert |run| == |steps| + 1 by { SizeOf(n, run, steps); }
    var g := run[|steps|];
    run', steps' := run, steps;
    if Missing(g, correct) == {} {
      forall p | p in g.wire && p.src in correct && p.dst in correct && p.dst < |g.members|
        ensures Cast(p.src, p.msg) in g.members[p.dst].got
      {
        assert p !in Missing(g, correct);
      }
    } else {
      var packet :| packet in Missing(g, correct);
      Safety(n, run, steps, |steps|);
      var step := CanReceive(g, packet.dst, Cast(packet.src, packet.msg));
      ReceivedOne(g, correct, step);
      RunMore(n, run, steps, step);
      var g' := Apply(g, step);
      SizeOf(n, run + [g'], steps + [step]);
      InRoom(n, run + [g'], steps + [step], |steps| + 1);
      run', steps' := GoesQuiet(n, run + [g'], steps + [step], correct);
    }
  }

  lemma SameSends(g: System, g': System)
    requires Sends(g) == Sends(g')
    ensures |g.members| == |g'.members| && forall i | 0 <= i < |g.members| :: g.members[i].sent == g'.members[i].sent
  {
    assert |Sends(g)| == |Sends(g')|;
    forall i | 0 <= i < |g.members| ensures g.members[i].sent == g'.members[i].sent {
      assert Sends(g)[i] == Sends(g')[i];
    }
  }

  /** From every reachable state a correct majority can, on its own and without another SEND, deliver at each of its
      members everything that any process has delivered and everything that a correct user has sent. */
  lemma CanAgree(n: nat, run: seq<System>, steps: seq<Step>, correct: set<nat>)
      returns (run': seq<System>, steps': seq<Step>)
    requires IsRun(n, run, steps) && Majority(run[|steps|], correct)
    ensures IsRun(n, run', steps') && run <= run' && steps <= steps' && AmongCorrect(steps', |steps|, correct)
    ensures |run[|steps|].members| == n == |run'[|steps'|].members|
    ensures var g' := run'[|steps'|];
      && (forall i | 0 <= i < n :: g'.members[i].sent == run[|steps|].members[i].sent)
      && (forall p, q, m | 0 <= p < n && q in correct && m in g'.members[p].p.log :: m in g'.members[q].p.log)
      && (forall u, q, m | u in correct && q in correct && m in g'.members[u].sent :: m in g'.members[q].p.log)
  {
    hide IsRun, Inv, Authentic, Quiet;
    run', steps' := GoesQuiet(n, run, steps, correct);
    SizeOf(n, run, steps);
    SizeOf(n, run', steps');
    Safety(n, run, steps, |steps|);
    Safety(n, run', steps', |steps'|);
    var g := run'[|steps'|];
    SameSends(g, run[|steps|]);
    forall p, q, m | 0 <= p < n && q in correct && m in g.members[p].p.log ensures m in g.members[q].p.log {
      UniformAgreement(n, run', steps', |steps'|, correct, p, q, m);
    }
    forall u, q, m | u in correct && q in correct && m in g.members[u].sent ensures m in g.members[q].p.log {
      var c :| 0 <= c < |g.members[u].sent| && g.members[u].sent[c] == m;
      Validity(n, run', steps', |steps'|, correct, u, q, c);
    }
  }

  lemma SentBySomeone(g: System, m: Message)
    requires Authentic(g, m)
    ensures m.sender < |g.members| && m in g.members[m.sender].sent
  {
  }

  /** The processes 0..n-1. */
  function Group(n: nat): set<nat> {
    if n == 0 then {} else Group(n - 1) + {n - 1}
  }

  lemma {:induction false} Everyone(n: nat)
    ensures |Group(n)| == n && forall i: nat :: i in Group(n) <==> i < n
  {
    if n > 0 { Everyone(n - 1); }
  }

  /** When nobody has crashed, all can deliver the same messages: exactly those that users have sent. */
  lemma AllCanAgree(n: nat, run: seq<System>, steps: seq<Step>) returns (run': seq<System>, steps': seq<Step>)
    requires IsRun(n, run, steps) && n > 0
    ensures IsRun(n, run', steps') && run <= run' && steps <= steps'
    ensures |run[|steps|].members| == n == |run'[|steps'|].members|
    ensures forall i | 0 <= i < n :: run'[|steps'|].members[i].sent == run[|steps|].members[i].sent
    ensures forall p, m | 0 <= p < n ::
      m in run'[|steps'|].members[p].p.log <==> exists u :: 0 <= u < n && m in run'[|steps'|].members[u].sent
  {
    hide IsRun, Inv, Authentic;
    SizeOf(n, run, steps);
    Safety(n, run, steps, |steps|);
    Everyone(n);
    run', steps' := CanAgree(n, run, steps, Group(n));
    SizeOf(n, run', steps');
    var g := run'[|steps'|];
    forall p, m | 0 <= p < n
      ensures m in g.members[p].p.log <==> exists u :: 0 <= u < n && m in g.members[u].sent
    {
      if m in g.members[p].p.log {
        DeliveredOnceInOrder(n, run', steps', |steps'|, p);
        SentBySomeone(g, m);
      }
    }
  }
}
