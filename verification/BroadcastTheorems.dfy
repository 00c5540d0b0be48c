/** What the broadcast promises its users: no creation, no duplication, causal order,
    uniform agreement, validity, and a bound on the traffic. */
module BroadcastTheorems {
  import opened Sets
  import opened BroadcastSpec
  import opened BroadcastSystem
  import opened BroadcastInvariant

  // ---------------------------------------------------------------- logs that replay

  lemma {:induction false} Prefix(state: seq<nat>, log: seq<Message>, k: nat)
    requires InTurn(state, log) && k <= |log|
    ensures InTurn(state, log[..k])
    ensures k < |log| ==> Ready(Advance(state, log[..k]), log[k])
    decreases |log|
  {
    hide Ready, Advance;
    if k == |log| {
      assert log[..k] == log;
    } else {
      var front := log[..|log| - 1];
      Prefix(state, front, k);
      assert front[..k] == log[..k];
    }
  }

  lemma {:induction false} Monotone(state: seq<nat>, log: seq<Message>, k: nat, j: nat)
    requires InTurn(state, log) && k <= |log| && j < |state|
    ensures Advance(state, log[..k])[j] <= Advance(state, log)[j]
    decreases |log|
  {
    if k == |log| {
      assert log[..k] == log;
    } else {
      var front := log[..|log| - 1];
      Monotone(state, front, k, j);
      assert front[..k] == log[..k];
    }
  }

  /** Every message counted by the state vector is in the log. */
  lemma {:induction false} Covered(n: nat, log: seq<Message>, j: nat, c: nat) returns (k: nat)
    requires InTurn(Zeros(n), log) && j < n && c < Advance(Zeros(n), log)[j]
    ensures k < |log| && log[k].Hash() == (j, c)
    decreases |log|
  {
    k := |log| - 1;
    if log[k].Hash() != (j, c) {
      k := Covered(n, log[..k], j, c);
    }
  }

  /** Every message in the log is counted by the state vector. */
  lemma Counted(n: nat, log: seq<Message>, k: nat)
    requires InTurn(Zeros(n), log) && k < |log|
    ensures log[k].sender < n && log[k].counter < Advance(Zeros(n), log)[log[k].sender]
  {
    Prefix(Zeros(n), log, k);
    var one := log[..k + 1];
    assert one[..k] == log[..k];
    Monotone(Zeros(n), log, k + 1, log[k].sender);
  }

  // ---------------------------------------------------------------- no duplication, no creation

  /** A message of author `j` numbered `c` is in the log. */
  ghost predicate Logged(log: seq<Message>, j: nat, c: nat) {
    exists a :: 0 <= a < |log| && log[a].Hash() == (j, c)
  }

  lemma LoggedExactly(n: nat, log: seq<Message>, j: nat, c: nat)
    requires InTurn(Zeros(n), log) && j < n
    ensures c < Advance(Zeros(n), log)[j] <==> Logged(log, j, c)
  {
    if c < Advance(Zeros(n), log)[j] {
      var a := Covered(n, log, j, c);
    }
    if Logged(log, j, c) {
      var a :| 0 <= a < |log| && log[a].Hash() == (j, c);
      Counted(n, log, a);
    }
  }

  lemma InAuthorOrder(n: nat, log: seq<Message>, a: nat, b: nat)
    requires InTurn(Zeros(n), log) && a < b < |log| && log[a].sender == log[b].sender
    ensures log[a].counter < log[b].counter
  {
    Prefix(Zeros(n), log, b);
    Counted(n, log[..b], a);
  }

  /** What a user sees is what users sent, never twice, and author by author in order without gaps;
      the state vector says exactly how much of each author has been shown. */
  lemma DeliveredOnceInOrder(n: nat, run: seq<System>, steps: seq<Step>, k: nat, i: nat)
    requires IsRun(n, run, steps) && k < |run| && i < n
    ensures |run[k].members| == n
    ensures var p := run[k].members[i].p;
      && (forall m | m in p.log :: Authentic(run[k], m))
      && (forall a, b | 0 <= a < b < |p.log| && p.log[a].sender == p.log[b].sender ::
            p.log[a].counter < p.log[b].counter)
      && |p.state| == n
      && (forall j, c: nat | 0 <= j < n :: c < p.state[j] <==> Logged(p.log, j, c))
  {
    hide InTurn, Advance, Logged, Authentic, IsRun, Hashes;
    Safety(n, run, steps, k);
    var x := run[k].members[i];
    assert LogOk(run[k], x) by { assert MemberOk(run[k], x, i); }
    forall a, b | 0 <= a < b < |x.p.log| && x.p.log[a].sender == x.p.log[b].sender
      ensures x.p.log[a].counter < x.p.log[b].counter
    {
      InAuthorOrder(n, x.p.log, a, b);
    }
    forall j, c: nat | 0 <= j < n ensures c < x.p.state[j] <==> Logged(x.p.log, j, c) {
      LoggedExactly(n, x.p.log, j, c);
    }
  }

  /** Between handlers nothing in the buffer can be delivered, nothing in it has been delivered, and whatever
      has its half of the group is delivered or waits there. */
  lemma BufferIsSettled(n: nat, run: seq<System>, steps: seq<Step>, k: nat, i: nat)
    requires IsRun(n, run, steps) && k < |run| && i < |run[k].members|
    ensures var p := run[k].members[i].p;
      && (forall h | h in p.buffer :: !Ready(p.state, p.buffer[h]) && h !in p.delivered && h in p.casters)
      && (forall h | h in p.casters && 2 * |p.casters[h]| >= n :: h in p.delivered || h in p.buffer)
  {
    hide Ready, IsRun;
    Safety(n, run, steps, k);
    assert MemberOk(run[k], run[k].members[i], i);
  }

  // ---------------------------------------------------------------- causal order

  /** The author of `m` had delivered `m'`, or had sent it, before sending `m`. */
  ghost predicate Precedes(g: System, m': Message, m: Message) {
    && m.sender < |g.members|
    && var y := g.members[m.sender];
       || (m.counter < |y.past| && m' in y.past[m.counter])
       || (m.counter <= |y.sent| && m' in y.sent[..m.counter])
  }

  /** A message that precedes `m` is authentic, and `m`'s state vector or counter covers it. */
  lemma PrecedingIsCovered(g: System, m': Message, m: Message, state: seq<nat>)
    requires Authentic(g, m) && Precedes(g, m', m) && Ready(state, m) && |state| == |g.members|
    requires SentOk(g, g.members[m.sender], m.sender) && LogOk(g, g.members[m.sender])
    ensures Authentic(g, m') && m'.counter < state[m'.sender]
  {
    hide Hashes, Advance, InTurn;
    var y, z := g.members[m.sender], Zeros(|g.members|);
    if m' in y.sent[..m.counter] {
      var b :| 0 <= b < m.counter && y.sent[b] == m';
    } else {
      var past := y.past[m.counter];
      assert past == y.p.log[..|past|];
      var b :| 0 <= b < |past| && past[b] == m';
      assert m' in y.p.log;
      Prefix(z, y.p.log, |past|);
      Counted(|g.members|, past, b);
    }
  }

  lemma CoveredIsLogged(g: System, x: Member, k: nat, m: Message)
    requires LogOk(g, x) && k <= |x.p.log| && Authentic(g, m)
    requires m.counter < Advance(Zeros(|g.members|), x.p.log[..k])[m.sender]
    ensures m in x.p.log[..k]
  {
    hide Hashes, Advance, InTurn;
    Prefix(Zeros(|g.members|), x.p.log, k);
    var b := Covered(|g.members|, x.p.log[..k], m.sender, m.counter);
    assert x.p.log[b] in x.p.log;
  }

  /** Whatever is delivered at position `a`, everything that precedes it is delivered at an earlier one. */
  lemma CausalOrder(n: nat, run: seq<System>, steps: seq<Step>, k: nat, i: nat, a: nat, m': Message)
    requires IsRun(n, run, steps) && k < |run| && i < |run[k].members| && a < |run[k].members[i].p.log|
    requires Precedes(run[k], m', run[k].members[i].p.log[a])
    ensures m' in run[k].members[i].p.log[..a]
  {
    hide Ready, Hashes, Advance, InTurn, IsRun, Precedes, SentOk;
    Safety(n, run, steps, k);
    var g, x := run[k], run[k].members[i];
    var m := x.p.log[a];
    assert MemberOk(g, x, i) && m in x.p.log && Authentic(g, m);
    assert MemberOk(g, g.members[m.sender], m.sender);
    Prefix(Zeros(n), x.p.log, a);
    PrecedingIsCovered(g, m', m, Advance(Zeros(n), x.p.log[..a]));
    CoveredIsLogged(g, x, a, m');
  }

  // ---------------------------------------------------------------- uniform agreement and validity

  /** Every copy between two correct processes has been received. */
  ghost predicate Quiet(g: System, correct: set<nat>) {
    forall p | p in g.wire && p.src in correct && p.dst in correct && p.dst < |g.members| ::
      Cast(p.src, p.msg) in g.members[p.dst].got
  }

  /** The correct processes are a majority of the group. */
  ghost predicate Majority(g: System, correct: set<nat>) {
    (forall i | i in correct :: i < |g.members|) && 2 * |correct| > |g.members|
  }

  /** Half of the group meets every majority. */
  lemma HalfMeetsMajority(n: nat, half: set<nat>, major: set<nat>) returns (i: nat)
    requires (forall i | i in half + major :: i < n) && 2 * |half| >= n && 2 * |major| > n
    ensures i in half && i in major
  {
    RangeSize(0, n, half + major);
    assert |half + major| + |half * major| == |half| + |major|;
    assert half * major != {};
    i :| i in half && i in major;
  }

  ghost predicate Placed(x: Member, m: Message) {
    m.Hash() in x.p.delivered || m.Hash() in x.p.buffer
  }

  /** In a quiet system a message that one correct process broadcast has been relayed by all correct
      processes, so each of them has delivered or buffered it. */
  lemma Spread(g: System, correct: set<nat>, m: Message, c: nat, q: nat)
    requires Inv(g) && Quiet(g, correct) && Majority(g, correct) && Authentic(g, m)
    requires c in correct && q in correct && Cast(c, m) in g.casts
    ensures Placed(g.members[q], m)
  {
    hide Authentic, RelayOk, LogOk, SentOk, BufferOk, BackedOk, CastersOk;
    forall j | j in correct ensures Cast(j, m) in g.casts {
      assert Packet(c, j, m) in g.wire;
      assert MemberOk(g, g.members[j], j) && Cast(c, m) in g.members[j].got;
    }
    var x := g.members[q];
    assert MemberOk(g, x, q);
    if m.Hash() !in x.p.delivered {
      forall j | j in correct ensures m.Hash() in x.p.casters && j in x.p.casters[m.Hash()] {
        assert Packet(j, q, m) in g.wire;
        assert Cast(j, m) in x.got;
      }
      assert correct <= x.p.casters[m.Hash()];
      SubsetSize(correct, x.p.casters[m.Hash()]);
    }
  }

  /** A delivered or buffered message whose state vector and counter are covered has been delivered. */
  lemma CoveredIsDelivered(g: System, x: Member, m: Message)
    requires LogOk(g, x) && BufferOk(g, x) && Placed(x, m) && Authentic(g, m) && |m.state| == |g.members|
    requires m.counter <= x.p.state[m.sender] && forall j | 0 <= j < |g.members| :: m.state[j] <= x.p.state[j]
    ensures m in x.p.log
  {
    if m.Hash() in x.p.delivered {
      var d :| d in x.p.log && d.Hash() == m.Hash();
      assert Authentic(g, d);
    } else {
      assert x.p.buffer[m.Hash()] == m;
      assert m.counter < x.p.state[m.sender];
      assert x.p.log[..|x.p.log|] == x.p.log;
      CoveredIsLogged(g, x, |x.p.log|, m);
    }
  }

  /** A process that has delivered all of `log[..k]` has a state vector that covers it. */
  lemma CoversPrefix(g: System, x: Member, y: Member, k: nat, j: nat)
    requires LogOk(g, x) && LogOk(g, y) && k <= |x.p.log| && j < |g.members|
    requires forall m | m in x.p.log[..k] :: m in y.p.log
    ensures Advance(Zeros(|g.members|), x.p.log[..k])[j] <= y.p.state[j]
  {
    hide InTurn, Advance, Hashes;
    if Advance(Zeros(|g.members|), x.p.log[..k])[j] > y.p.state[j] {
      Prefix(Zeros(|g.members|), x.p.log, k);
      var a := Covered(|g.members|, x.p.log[..k], j, y.p.state[j]);
      var m := x.p.log[..k][a];
      assert m in x.p.log[..k];
      var b :| 0 <= b < |y.p.log| && y.p.log[b] == m;
      Counted(|g.members|, y.p.log, b);
      assert false;
    }
  }

  lemma CorrectCaster(g: System, correct: set<nat>, p: nat, m: Message) returns (c: nat)
    requires Inv(g) && Majority(g, correct) && p < |g.members| && m in g.members[p].p.log
    ensures c in correct && Cast(c, m) in g.casts && Authentic(g, m)
  {
    hide RelayOk, SentOk, BufferOk, CastersOk, GotOk, PendingOk, Authentic;
    assert MemberOk(g, g.members[p], p);
    c := HalfMeetsMajority(|g.members|, Casters(g, m), correct);
  }

  lemma NextAgreed(g: System, p: nat, q: nat, k: nat)
    requires Inv(g) && p < |g.members| && q < |g.members| && k < |g.members[p].p.log|
    requires forall m | m in g.members[p].p.log[..k] :: m in g.members[q].p.log
    requires Placed(g.members[q], g.members[p].p.log[k])
    ensures g.members[p].p.log[k] in g.members[q].p.log
  {
    hide InTurn, Advance, Hashes, Known, Named, Placed, RelayOk, SentOk;
    hide CastersOk, GotOk, PendingOk, BackedOk, BufferOk;
    var x, y, m := g.members[p], g.members[q], g.members[p].p.log[k];
    assert MemberOk(g, x, p) && MemberOk(g, y, q) && m in x.p.log;
    Prefix(Zeros(|g.members|), x.p.log, k);
    forall j | 0 <= j < |g.members| ensures Advance(Zeros(|g.members|), x.p.log[..k])[j] <= y.p.state[j] {
      CoversPrefix(g, x, y, k, j);
    }
    CoveredIsDelivered(g, y, m);
  }

  /** Along the first deliverer's log, each message reaches every correct process. */
  lemma {:induction false} AgreeUpTo(g: System, correct: set<nat>, p: nat, q: nat, k: nat)
    requires Inv(g) && Quiet(g, correct) && Majority(g, correct)
    requires p < |g.members| && q in correct && k <= |g.members[p].p.log|
    ensures forall m | m in g.members[p].p.log[..k] :: m in g.members[q].p.log
  {
    hide Inv, MemberOk, LogOk, BufferOk, Quiet, Authentic, Placed;
    if k > 0 {
      AgreeUpTo(g, correct, p, q, k - 1);
      var log := g.members[p].p.log;
      var m := log[k - 1];
      var c := CorrectCaster(g, correct, p, m);
      Spread(g, correct, m, c, q);
      NextAgreed(g, p, q, k - 1);
      assert log[..k] == log[..k - 1] + [m];
    }
  }

  /** Uniform agreement: a message delivered anywhere, even by a faulty process, is delivered by every
      correct process once all copies between correct processes have arrived. */
  lemma UniformAgreement(n: nat, run: seq<System>, steps: seq<Step>, k: nat,
                         correct: set<nat>, p: nat, q: nat, m: Message)
    requires IsRun(n, run, steps) && k < |run| && Majority(run[k], correct) && Quiet(run[k], correct)
    requires p < |run[k].members| && q in correct && m in run[k].members[p].p.log
    ensures m in run[k].members[q].p.log
  {
    hide Inv, IsRun;
    Safety(n, run, steps, k);
    var log := run[k].members[p].p.log;
    AgreeUpTo(run[k], correct, p, q, |log|);
    assert log[..|log|] == log;
  }

  lemma {:induction false} SentIsDelivered(g: System, correct: set<nat>, u: nat, q: nat, c: nat)
    requires Inv(g) && Quiet(g, correct) && Majority(g, correct)
    requires u in correct && q in correct && c < |g.members[u].sent|
    ensures g.members[u].sent[c] in g.members[q].p.log
  {
    hide InTurn, Advance, Hashes, Placed, RelayOk, CastersOk, GotOk, PendingOk, BackedOk, BufferOk, Quiet;
    var x, y, m := g.members[u], g.members[q], g.members[u].sent[c];
    assert MemberOk(g, x, u) && MemberOk(g, y, q);
    assert Authentic(g, m);
    Spread(g, correct, m, u, q);
    AgreeUpTo(g, correct, u, q, |x.p.log|);
    assert x.p.log[..|x.p.log|] == x.p.log;
    var past := x.past[c];
    assert past == x.p.log[..|past|];
    forall j | 0 <= j < |g.members| ensures m.state[j] <= y.p.state[j] {
      CoversPrefix(g, x, y, |past|, j);
    }
    if c > 0 {
      SentIsDelivered(g, correct, u, q, c - 1);
      var b :| 0 <= b < |y.p.log| && y.p.log[b] == x.sent[c - 1];
      Counted(|g.members|, y.p.log, b);
    }
    CoveredIsDelivered(g, y, m);
  }

  /** Validity: what the user of a correct process sent is delivered by every correct process. */
  lemma Validity(n: nat, run: seq<System>, steps: seq<Step>, k: nat, correct: set<nat>, u: nat, q: nat, c: nat)
    requires IsRun(n, run, steps) && k < |run| && Majority(run[k], correct) && Quiet(run[k], correct)
    requires u in correct && q in correct && c < |run[k].members[u].sent|
    ensures run[k].members[u].sent[c] in run[k].members[q].p.log
  {
    hide Inv, IsRun;
    Safety(n, run, steps, k);
    SentIsDelivered(run[k], correct, u, q, c);
  }
}
