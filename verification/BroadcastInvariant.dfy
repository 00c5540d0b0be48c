/** Every reachable state of the broadcast system satisfies the invariant. */
module BroadcastInvariant {
  import opened Sets
  import opened BroadcastSpec
  import opened BroadcastSystem

  ghost predicate Grows(g: System, g': System) {
    && |g.members| == |g'.members|
    && (forall i | 0 <= i < |g.members| :: g.members[i].sent <= g'.members[i].sent)
    && forall c | c in g.casts :: c in g'.casts
  }

  lemma GrowsKeepsNames(g: System, g': System, h: Hash)
    requires Grows(g, g') && Known(g, h)
    ensures Known(g', h) && Named(g', h) == Named(g, h)
  {
    assert g.members[h.0].sent <= g'.members[h.0].sent;
  }

  lemma GrowsKeepsCasters(g: System, g': System, m: Message)
    requires Grows(g, g')
    ensures Casters(g, m) <= Casters(g', m) && |Casters(g, m)| <= |Casters(g', m)|
  {
    SubsetSize(Casters(g, m), Casters(g', m));
  }

  lemma CastersKeep(g: System, g': System, x: Member, i: nat)
    requires Grows(g, g') && CastersOk(g, x, i)
    ensures CastersOk(g', x, i)
  {
    forall h | h in x.p.casters
      ensures i in x.p.casters[h] && Known(g', h) && x.p.casters[h] <= Casters(g', Named(g', h))
    {
      GrowsKeepsNames(g, g', h);
      GrowsKeepsCasters(g, g', Named(g, h));
    }
  }

  lemma LogKeeps(g: System, g': System, x: Member)
    requires Grows(g, g') && LogOk(g, x)
    ensures LogOk(g', x)
  {
    hide InTurn, Advance, Hashes;
    forall m | m in x.p.log ensures Authentic(g', m) {
      GrowsKeepsNames(g, g', m.Hash());
    }
  }

  lemma BackedKeeps(g: System, g': System, x: Member)
    requires Grows(g, g') && BackedOk(g, x)
    ensures BackedOk(g', x)
  {
    forall m | m in x.p.log ensures 2 * |Casters(g', m)| >= |g'.members| {
      GrowsKeepsCasters(g, g', m);
    }
  }

  lemma BufferKeep(g: System, g': System, x: Member)
    requires Grows(g, g') && BufferOk(g, x)
    ensures BufferOk(g', x)
  {
    forall h | h in x.p.buffer ensures Known(g', h) && x.p.buffer[h] == Named(g', h) {
      GrowsKeepsNames(g, g', h);
    }
  }

  /** What does not mention this member's own broadcasts survives any growth. */
  lemma OthersKeep(g: System, g': System, x: Member, i: nat)
    requires Grows(g, g') && MemberOk(g, x, i) && RelayOk(g', x, i)
    ensures MemberOk(g', x, i)
  {
    hide Known, Named, Casters, Hashes, Advance, InTurn, Settled, RelayOk, Texts;
    assert CastersOk(g', x, i) by { CastersKeep(g, g', x, i); }
    assert LogOk(g', x) by { LogKeeps(g, g', x); }
    assert BackedOk(g', x) by { BackedKeeps(g, g', x); }
    assert BufferOk(g', x) by { BufferKeep(g, g', x); }
  }

  lemma StartOk(n: nat)
    ensures Inv(Start(n))
  {
    var g := Start(n);
    forall i | 0 <= i < |g.members| ensures MemberOk(g, g.members[i], i) {
      assert Hashes([]) == {};
    }
  }

  /** A handler that broadcasts puts a copy for each process on the network. */
  lemma WireKeeps(g: System, g': System, i: nat, m: Message, sends: bool)
    requires WireOk(g) && |g'.members| == |g.members|
    requires g'.casts == g.casts + if sends then [Cast(i, m)] else []
    requires g'.wire == g.wire + Packets(i, if sends then Copies(m, |g.members|) else [])
    ensures WireOk(g')
  {
    var copies := if sends then Copies(m, |g.members|) else [];
    forall p | p in g'.wire ensures p.dst < |g'.members| && Cast(p.src, p.msg) in g'.casts {
      if p !in g.wire {
        var c :| c in copies && p == Packet(i, c.dst, c.msg);
      }
    }
    forall c, d: nat | c in g'.casts && d < |g'.members| ensures Packet(c.src, d, c.msg) in g'.wire {
      if c !in g.casts { assert copies[d] == Copy(d, m) && copies[d] in copies; }
    }
  }

  // ---------------------------------------------------------------- SEND

  lemma CountOneMore(casts: seq<Cast>, c: Cast)
    ensures multiset(casts + [c]) == multiset(casts) + multiset{c}
  {
  }

  lemma SenderOk(g: System, g': System, x: Member, i: nat, text: string)
    requires MemberOk(g', x, i) && |g'.members| == |g.members|
    requires Cast(i, Message(text, x.p.id, x.p.counter, x.p.state)) in g'.casts
    ensures MemberOk(g', SendBy(x, text), i)
  {
    hide Known, Named, Casters, Hashes, Advance, InTurn, Authentic;
  }

  lemma SendKeeps(g: System, step: Step)
    requires Inv(g) && step.Send? && step.at < |g.members|
    ensures Inv(Apply(g, step)) && Grows(g, Apply(g, step))
  {
    var i, x, g' := step.at, g.members[step.at], Apply(g, step);
    var m := Message(step.text, x.p.id, x.p.counter, x.p.state);
    assert MemberOk(g, x, i);
    assert Grows(g, g');
    assert Cast(i, m) in g'.casts;
    forall c | c in g'.casts ensures c.src < |g'.members| && Authentic(g', c.msg) {
      if c in g.casts { GrowsKeepsNames(g, g', c.msg.Hash()); }
    }
    assert WireOk(g') by { WireKeeps(g, g', i, m, true); }
    assert Cast(i, m) !in g.casts by {
      assert !Known(g, m.Hash());
    }
    forall j | 0 <= j < |g'.members| ensures MemberOk(g', g'.members[j], j) {
      assert MemberOk(g, g.members[j], j);
      CountOneMore(g.casts, Cast(i, m));
      OthersKeep(g, g', g.members[j], j);
      if j == i { SenderOk(g, g', x, i, step.text); }
    }
  }

  // ---------------------------------------------------------------- RECEIVE

  ghost predicate PendingExcept(g: System, x: Member, e: Hash) {
    forall h | h in x.p.casters && h != e && h !in x.p.delivered && 2 * |x.p.casters[h]| >= |g.members| ::
      h in x.p.buffer
  }

  /** The invariant of a member in the middle of handling a copy of message `e`. */
  ghost predicate MidOk(g: System, x: Member, i: nat, e: Hash) {
    && SentOk(g, x, i) && LogOk(g, x) && CastersOk(g, x, i) && BufferOk(g, x)
    && PendingExcept(g, x, e) && GotOk(g, x, i) && BackedOk(g, x) && RelayOk(g, x, i) && ShownOk(x)
  }

  function NotedBy(x: Member, cast: Cast): Member {
    x.(p := Note(x.p, cast.msg.Hash(), cast.src), got := x.got + {cast})
  }

  lemma LogSame(g: System, x: Member, y: Member)
    requires LogOk(g, x) && y.p.log == x.p.log && y.p.state == x.p.state && y.p.delivered == x.p.delivered
    ensures LogOk(g, y)
  {
  }

  lemma BackedSame(g: System, x: Member, y: Member)
    requires BackedOk(g, x) && y.p.log == x.p.log
    ensures BackedOk(g, y)
  {
  }

  lemma NoteGot(g: System, g': System, x: Member, i: nat, cast: Cast)
    requires GotOk(g, x, i) && Grows(g, g') && cast in g.casts && Cast(i, cast.msg) in g'.casts
    ensures GotOk(g', NotedBy(x, cast), i)
  {
  }

  lemma NotePending(g: System, g': System, x: Member, cast: Cast)
    requires PendingOk(g, x) && |g'.members| == |g.members|
    ensures PendingExcept(g', NotedBy(x, cast), cast.msg.Hash())
  {
  }

  lemma NotedSelf(g: System, y: Member, i: nat, cast: Cast)
    requires CastersOk(g, y, i) && cast.msg.Hash() in y.p.casters && Authentic(g, cast.msg)
    ensures Cast(i, cast.msg) in g.casts
  {
    assert i in y.p.casters[cast.msg.Hash()];
  }

  lemma NoteBuffer(g: System, x: Member, cast: Cast)
    requires BufferOk(g, x)
    ensures BufferOk(g, NotedBy(x, cast))
  {
    var h, y := cast.msg.Hash(), NotedBy(x, cast);
    if h in x.p.casters { SubsetSize(x.p.casters[h], y.p.casters[h]); }
  }

  lemma NoteCasters(g: System, g': System, x: Member, i: nat, cast: Cast)
    requires CastersOk(g, x, i) && x.p.id == i && Grows(g, g') && i < |g.members|
    requires cast in g.casts && cast.src < |g.members| && Authentic(g, cast.msg)
    requires g'.casts == g.casts + if Relays(x.p, cast.msg.Hash(), cast.src) then [Cast(i, cast.msg)] else []
    ensures CastersOk(g', NotedBy(x, cast), i) && Authentic(g', cast.msg)
  {
    var h, p := cast.msg.Hash(), NotedBy(x, cast).p;
    CastersKeep(g, g', x, i);
    GrowsKeepsNames(g, g', h);
    assert cast in g'.casts;
    if Relays(x.p, h, cast.src) { assert Cast(i, cast.msg) in g'.casts; }
    forall k | k in p.casters
      ensures i in p.casters[k] && Known(g', k) && p.casters[k] <= Casters(g', Named(g', k))
    {
      if k != h { assert p.casters[k] == x.p.casters[k]; }
    }
  }

  lemma NoteRelay(g: System, g': System, x: Member, i: nat, cast: Cast)
    requires RelayOk(g, x, i) && CastersOk(g, x, i) && x.p.id == i
    requires g'.casts == g.casts + if Relays(x.p, cast.msg.Hash(), cast.src) then [Cast(i, cast.msg)] else []
    ensures RelayOk(g', NotedBy(x, cast), i)
  {
    var h := cast.msg.Hash();
    if Relays(x.p, h, cast.src) {
      assert h !in x.p.casters;
      CountOneMore(g.casts, Cast(i, cast.msg));
    } else {
      assert g'.casts == g.casts;
    }
  }

  lemma NoteMid(g: System, g': System, x: Member, i: nat, cast: Cast)
    requires MemberOk(g, x, i) && Grows(g, g') && i < |g.members|
    requires cast in g.casts && cast.src < |g.members| && Authentic(g, cast.msg)
    requires g'.casts == g.casts + if Relays(x.p, cast.msg.Hash(), cast.src) then [Cast(i, cast.msg)] else []
    ensures MidOk(g', NotedBy(x, cast), i, cast.msg.Hash())
  {
    hide RelayOk, CastersOk, Advance, InTurn, Hashes, Authentic, BufferOk, GotOk;
    hide PendingOk, PendingExcept, LogOk, BackedOk;
    var y := NotedBy(x, cast);
    NoteRelay(g, g', x, i, cast);
    NoteCasters(g, g', x, i, cast);
    assert LogOk(g', y) by { LogKeeps(g, g', x); LogSame(g', x, y); }
    assert BackedOk(g', y) by { BackedKeeps(g, g', x); BackedSame(g', x, y); }
    assert BufferOk(g', y) by { BufferKeep(g, g', x); NoteBuffer(g', x, cast); }
    assert GotOk(g', y, i) by { NotedSelf(g', y, i, cast); NoteGot(g, g', x, i, cast); }
    assert PendingExcept(g', y, cast.msg.Hash()) by { NotePending(g, g', x, cast); }
    assert SentOk(g', y, i);
  }

  /** Delivering in turn keeps the log lawful. */
  lemma DeliverLog(g: System, x: Member, y: Member, ms: seq<Message>)
    requires LogOk(g, x) && InTurn(x.p.state, ms)
    requires y.p.log == x.p.log + ms && y.p.state == Advance(x.p.state, ms)
    requires y.p.delivered == x.p.delivered + Hashes(ms)
    requires forall m | m in ms :: Authentic(g, m)
    ensures LogOk(g, y)
  {
    hide Authentic;
    AdvanceJoin(Zeros(|g.members|), x.p.log, ms);
    HashesJoin(x.p.log, ms);
  }

  /** The messages a handler delivers: `m` itself and buffered ones, all with their half of the group. */
  ghost predicate Deliverable(g: System, x: Member, ms: seq<Message>) {
    forall m | m in ms ::
      && Authentic(g, m) && m.Hash() !in x.p.delivered
      && m.Hash() in x.p.casters && 2 * |x.p.casters[m.Hash()]| >= |g.members|
  }

  function DeliveredBy(x: Member, ms: seq<Message>): Member
    requires ms != []
  {
    x.(p := Deliver(x.p, ms).(buffer := x.p.buffer - Hashes(ms[1..])), shown := x.shown + Texts(ms))
  }

  lemma AreDeliverable(g: System, x: Member, m: Message, ms: seq<Message>)
    requires BufferOk(g, x) && Authentic(g, m) && m.Hash() !in x.p.delivered
    requires m.Hash() in x.p.casters && 2 * |x.p.casters[m.Hash()]| >= |g.members|
    requires ms != [] && ms[0] == m && FromBuffer(x.p, ms[1..])
    ensures Deliverable(g, x, ms)
  {
    forall k | k in ms
      ensures Authentic(g, k) && k.Hash() !in x.p.delivered
        && k.Hash() in x.p.casters && 2 * |x.p.casters[k.Hash()]| >= |g.members|
    {
      assert k == m || k in ms[1..];
    }
  }

  lemma DeliverBacked(g: System, x: Member, i: nat, ms: seq<Message>)
    requires BackedOk(g, x) && CastersOk(g, x, i) && Deliverable(g, x, ms) && ms != []
    ensures BackedOk(g, DeliveredBy(x, ms))
  {
    forall m | m in x.p.log + ms ensures 2 * |Casters(g, m)| >= |g.members| {
      if m in ms {
        assert Named(g, m.Hash()) == m;
        SubsetSize(x.p.casters[m.Hash()], Casters(g, m));
      }
    }
  }

  lemma DeliverableAt(g: System, x: Member, ms: seq<Message>, m: Message)
    requires Deliverable(g, x, ms) && m in ms
    ensures m.Hash() in x.p.casters && m.Hash() !in x.p.delivered
  {
  }

  lemma DeliverRelay(g: System, x: Member, i: nat, ms: seq<Message>)
    requires RelayOk(g, x, i) && Deliverable(g, x, ms) && ms != []
    ensures RelayOk(g, DeliveredBy(x, ms), i)
  {
    hide Authentic, Deliverable;
    forall h | h in Hashes(ms) ensures h in x.p.casters && h !in x.p.delivered {
      var m :| m in ms && m.Hash() == h;
      DeliverableAt(g, x, ms, m);
    }
  }

  lemma DeliverBuffer(g: System, x: Member, m: Message, ms: seq<Message>)
    requires BufferOk(g, x) && Ready(x.p.state, m) && Authentic(g, m)
    requires ms != [] && ms[0] == m && Settled(DeliveredBy(x, ms).p)
    ensures BufferOk(g, DeliveredBy(x, ms))
  {
    hide Ready, Advance;
    assert m.Hash() !in x.p.buffer;
    assert ms == [m] + ms[1..];
    HashesJoin([m], ms[1..]);
  }

  lemma DeliverPending(g: System, x: Member, m: Message, ms: seq<Message>)
    requires PendingExcept(g, x, m.Hash()) && |ms| > 0 && ms[0] == m
    ensures PendingOk(g, DeliveredBy(x, ms))
  {
    hide Advance;
    assert ms == [m] + ms[1..];
    HashesJoin([m], ms[1..]);
    assert m.Hash() in Hashes(ms);
  }

  lemma DeliverAuthentic(g: System, x: Member, ms: seq<Message>)
    requires Deliverable(g, x, ms)
    ensures forall m | m in ms :: Authentic(g, m)
  {
  }

  lemma DeliverMid(g: System, x: Member, i: nat, m: Message, ms: seq<Message>)
    requires MidOk(g, x, i, m.Hash()) && Authentic(g, m)
    requires m.Hash() !in x.p.delivered && Quorum(x.p, m.Hash()) && Ready(x.p.state, m) && |x.p.state| == |g.members|
    requires ms != [] && ms[0] == m && InTurn(x.p.state, ms) && FromBuffer(x.p, ms[1..])
    requires Settled(DeliveredBy(x, ms).p)
    ensures MemberOk(g, DeliveredBy(x, ms), i)
  {
    hide Authentic, Ready, Advance, InTurn, Hashes, RelayOk, Settled, FromBuffer;
    hide BufferOk, BackedOk, PendingExcept, Deliverable;
    var y := DeliveredBy(x, ms);
    AreDeliverable(g, x, m, ms);
    DeliverBacked(g, x, i, ms);
    DeliverRelay(g, x, i, ms);
    DeliverBuffer(g, x, m, ms);
    DeliverPending(g, x, m, ms);
    assert LogOk(g, y) by { DeliverAuthentic(g, x, ms); DeliverLog(g, x, y, ms); }
    assert SentOk(g, y, i);
    assert GotOk(g, y, i);
    assert CastersOk(g, y, i);
    assert ShownOk(y) by { TextsJoin(x.p.log, ms); }
  }

  lemma BufferIrrelevant(g: System, x: Member, y: Member, i: nat)
    requires y.p == x.p.(buffer := y.p.buffer) && y.got == x.got
    requires RelayOk(g, x, i) && BackedOk(g, x) && CastersOk(g, x, i) && GotOk(g, x, i)
    ensures RelayOk(g, y, i) && BackedOk(g, y) && CastersOk(g, y, i) && GotOk(g, y, i)
  {
  }

  /** A handler that delivers nothing leaves the message aside, or puts it in the buffer. */
  lemma StayMid(g: System, x: Member, i: nat, m: Message)
    requires MidOk(g, x, i, m.Hash()) && Authentic(g, m) && |x.p.state| == |g.members|
    requires m.Hash() in x.p.casters
    ensures m.Hash() in x.p.delivered || !Quorum(x.p, m.Hash()) ==> MemberOk(g, x, i)
    ensures m.Hash() !in x.p.delivered && Quorum(x.p, m.Hash()) && !Ready(x.p.state, m) ==>
      MemberOk(g, x.(p := x.p.(buffer := x.p.buffer[m.Hash() := m])), i)
  {
    hide Ready, Advance, InTurn, Hashes, RelayOk, BackedOk, CastersOk, GotOk;
    if m.Hash() !in x.p.delivered && Quorum(x.p, m.Hash()) && !Ready(x.p.state, m) {
      var y := x.(p := x.p.(buffer := x.p.buffer[m.Hash() := m]));
      assert RelayOk(g, y, i) && BackedOk(g, y) && CastersOk(g, y, i) && GotOk(g, y, i) by {
        BufferIrrelevant(g, x, y, i);
      }
      assert BufferOk(g, y);
      assert PendingOk(g, y);
    }
  }

  lemma NoTexts(shown: seq<string>)
    ensures shown + Texts([]) == shown
  {
  }

  lemma ReceiverOk(g: System, g': System, x: Member, i: nat, cast: Cast, ms: seq<Message>)
    requires MidOk(g', NotedBy(x, cast), i, cast.msg.Hash()) && Authentic(g', cast.msg)
    requires |x.p.state| == |g'.members| && Delivers(x.p, cast.src, cast.msg, ms)
    ensures MemberOk(g', ReceiveBy(x, cast, ms), i)
  {
    hide MidOk, MemberOk, Authentic, Ready, InTurn, FromBuffer, Settled, Deliver, Texts;
    NoTexts(x.shown);
    var y, m := NotedBy(x, cast), cast.msg;
    StayMid(g', y, i, m);
    if ms == [] {
      if m.Hash() !in y.p.delivered && Quorum(y.p, m.Hash()) {
        assert ReceiveBy(x, cast, ms) == y.(p := y.p.(buffer := y.p.buffer[m.Hash() := m]));
      } else {
        assert ReceiveBy(x, cast, ms) == y;
      }
    } else {
      assert ReceiveBy(x, cast, ms) == DeliveredBy(y, ms);
      DeliverMid(g', y, i, m, ms);
    }
  }

  lemma StateSizeOf(g: System, x: Member, i: nat)
    requires MemberOk(g, x, i)
    ensures |x.p.state| == |g.members|
  {
  }

  lemma AuthenticGrows(g: System, g': System, m: Message)
    requires Grows(g, g') && Authentic(g, m)
    ensures Authentic(g', m)
  {
    GrowsKeepsNames(g, g', m.Hash());
  }

  lemma OtherRelay(g: System, g': System, x: Member, j: nat, c: Cast)
    requires MemberOk(g, x, j) && c.src != j && (g'.casts == g.casts + [c] || g'.casts == g.casts + [])
    ensures RelayOk(g', x, j)
  {
    CountOneMore(g.casts, c);
    assert g.casts + [] == g.casts;
  }

  lemma ReceiveKeeps(g: System, step: Step)
    requires Inv(g) && step.Receive? && Enabled(g, step)
    ensures Inv(Apply(g, step)) && Grows(g, Apply(g, step))
  {
    hide MemberOk, Delivers, After, Authentic, Copies, Packets;
    var i, x, g' := step.at, g.members[step.at], Apply(g, step);
    var cast := step.cast;
    assert cast in g.casts;
    assert WireOk(g') by { WireKeeps(g, g', i, cast.msg, Relays(x.p, cast.msg.Hash(), cast.src)); }
    assert MemberOk(g, x, i) && cast.src < |g.members| && Authentic(g, cast.msg);
    assert Grows(g, g');
    forall c | c in g'.casts ensures c.src < |g'.members| && Authentic(g', c.msg) {
      AuthenticGrows(g, g', if c in g.casts then c.msg else cast.msg);
    }
    NoteMid(g, g', x, i, cast);
    StateSizeOf(g, x, i);
    ReceiverOk(g, g', x, i, cast, step.ms);
    forall j | 0 <= j < |g'.members| && j != i ensures MemberOk(g', g'.members[j], j) {
      OtherRelay(g, g', g.members[j], j, Cast(i, cast.msg));
      OthersKeep(g, g', g.members[j], j);
    }
  }

  lemma StartSize(n: nat)
    ensures |Start(n).members| == n
  {
  }

  /** The invariant holds in every state of every run. */
  lemma {:induction false} Safety(n: nat, run: seq<System>, steps: seq<Step>, k: nat)
    requires IsRun(n, run, steps) && k < |run|
    ensures Inv(run[k]) && |run[k].members| == n
  {
    hide Inv, Delivers, Start;
    if k == 0 {
      StartOk(n);
      StartSize(n);
    } else {
      Safety(n, run, steps, k - 1);
      assert Enabled(run[k - 1], steps[k - 1]) && run[k] == Apply(run[k - 1], steps[k - 1]);
      if steps[k - 1].Send? {
        SendKeeps(run[k - 1], steps[k - 1]);
      } else {
        ReceiveKeeps(run[k - 1], steps[k - 1]);
      }
    }
  }
}
