/** Reliable causal broadcast: one process as a value, and what each of its handlers does to it. */
module BroadcastSpec {
  import opened Sets

  /** A message is identified by its author and the author's counter. */
  type Hash = (nat, nat)

  datatype Message = Message(text: string, sender: nat, counter: nat, state: seq<nat>) {
    function Hash(): (nat, nat) { (sender, counter) }

    predicate Fits(n: nat) { sender < n && |state| == n }
  }

  /** `log` is the history of DELIVER messages shown to the local user; the rest are the process's fields. */
  datatype Proc = Proc(id: nat, counter: nat, state: seq<nat>, delivered: set<Hash>,
                       buffer: map<Hash, Message>, casters: map<Hash, set<nat>>, log: seq<Message>)

  function Initial(id: nat, n: nat): Proc {
    Proc(id, 0, seq(n, _ => 0), {}, map[], map[], [])
  }

  datatype Copy = Copy(dst: nat, msg: Message)

  /** One best-effort broadcast: a copy to each of the `n` processes. */
  function Copies(m: Message, n: nat): seq<Copy> {
    seq(n, i requires 0 <= i < n => Copy(i, m))
  }

  function Texts(ms: seq<Message>): seq<string> {
    if ms == [] then [] else Texts(ms[..|ms| - 1]) + [ms[|ms| - 1].text]
  }

  lemma {:induction false} TextsJoin(ms: seq<Message>, more: seq<Message>)
    ensures Texts(ms + more) == Texts(ms) + Texts(more)
  {
    if more == [] {
      assert ms + more == ms;
    } else {
      TextsJoin(ms, more[..|more| - 1]);
      assert (ms + more)[..|ms + more| - 1] == ms + more[..|more| - 1];
    }
  }

  lemma TextsFirst(m: Message, rest: seq<Message>)
    ensures Texts([m] + rest) == [m.text] + Texts(rest) && Texts([]) == []
  {
    TextsJoin([m], rest);
    assert [m][..0] == [];
  }

  /** The delivery condition: next from its author, and everything its author had delivered is delivered here. */
  predicate Ready(state: seq<nat>, m: Message) {
    && m.Fits(|state|)
    && m.counter == state[m.sender]
    && forall i | 0 <= i < |state| :: m.state[i] <= state[i]
  }

  function Noted(p: Proc, h: Hash, src: nat): set<nat> {
    (if h in p.casters then p.casters[h] else {}) + {src}
  }

  /** A copy from `src` makes the process relay the message when it has not relayed it already. */
  predicate Relays(p: Proc, h: Hash, src: nat) {
    p.id !in Noted(p, h, src)
  }

  function Note(p: Proc, h: Hash, src: nat): Proc {
    p.(casters := p.casters[h := Noted(p, h, src) + {p.id}])
  }

  predicate Quorum(p: Proc, h: Hash) {
    h in p.casters && 2 * |p.casters[h]| >= |p.state|
  }

  function Bump(state: seq<nat>, m: Message): seq<nat> {
    if m.sender < |state| then state[m.sender := m.counter + 1] else state
  }

  /** The state vector after delivering `ms` in order. */
  function Advance(state: seq<nat>, ms: seq<Message>): (s: seq<nat>)
    ensures |s| == |state|
  {
    if ms == [] then state else Bump(Advance(state, ms[..|ms| - 1]), ms[|ms| - 1])
  }

  function DeliverOne(p: Proc, m: Message): Proc {
    p.(state := Bump(p.state, m),
       delivered := p.delivered + {m.Hash()},
       casters := p.casters - {m.Hash()},
       log := p.log + [m])
  }

  function Hashes(ms: seq<Message>): set<Hash> {
    set m | m in ms :: m.Hash()
  }

  /** The effect of delivering `ms` in order. */
  function Deliver(p: Proc, ms: seq<Message>): Proc {
    p.(state := Advance(p.state, ms),
       delivered := p.delivered + Hashes(ms),
       casters := p.casters - Hashes(ms),
       log := p.log + ms)
  }

  /** Each message satisfies the delivery condition at the moment it is delivered. */
  ghost predicate InTurn(state: seq<nat>, ms: seq<Message>) {
    ms == [] || (InTurn(state, ms[..|ms| - 1]) && Ready(Advance(state, ms[..|ms| - 1]), ms[|ms| - 1]))
  }

  ghost predicate FromBuffer(p: Proc, ms: seq<Message>) {
    forall m | m in ms :: m.Hash() in p.buffer && p.buffer[m.Hash()] == m
  }

  /** No buffered message can be delivered. */
  ghost predicate Settled(p: Proc) {
    forall h | h in p.buffer :: !Ready(p.state, p.buffer[h])
  }

  /** The process after receiving a copy of `m` from `src` and delivering exactly `ms`, in that order. */
  function After(p: Proc, src: nat, m: Message, ms: seq<Message>): Proc {
    var q := Note(p, m.Hash(), src);
    if m.Hash() in q.delivered || !Quorum(q, m.Hash()) then q
    else if ms == [] then q.(buffer := q.buffer[m.Hash() := m])
    else Deliver(q, ms).(buffer := q.buffer - Hashes(ms[1..]))
  }

  /** Which delivery sequences the handler may choose: the buffer may be scanned in any order,
      but the scan goes on until nothing in it can be delivered. */
  ghost predicate Delivers(p: Proc, src: nat, m: Message, ms: seq<Message>) {
    var q := Note(p, m.Hash(), src);
    if m.Hash() !in q.delivered && Quorum(q, m.Hash()) && Ready(q.state, m) then
      && |ms| > 0 && ms[0] == m
      && InTurn(q.state, ms)
      && FromBuffer(q, ms[1..])
      && Settled(After(p, src, m, ms))
    else
      ms == []
  }

  /** The invariant one process keeps by itself. */
  ghost predicate Keyed(p: Proc) {
    forall h | h in p.buffer ::
      p.buffer[h].Hash() == h && p.buffer[h].Fits(|p.state|) && (h in p.delivered || h in p.casters)
  }

  /** `state[j] == k` says exactly that messages 0..k-1 of j have been delivered. */
  ghost predicate Exact(p: Proc) {
    forall h: Hash :: h in p.delivered <==> h.0 < |p.state| && h.1 < p.state[h.0]
  }

  ghost predicate Consistent(p: Proc) {
    p.id < |p.state| && Keyed(p) && Exact(p)
  }

  lemma AdvanceOne(state: seq<nat>, ms: seq<Message>, m: Message)
    ensures Advance(state, ms + [m]) == Bump(Advance(state, ms), m)
    ensures InTurn(state, ms + [m]) <==> InTurn(state, ms) && Ready(Advance(state, ms), m)
  {
    assert (ms + [m])[..|ms|] == ms;
  }

  /** Delivering in two batches is delivering the joined batch. */
  lemma {:induction false} AdvanceJoin(state: seq<nat>, ms: seq<Message>, more: seq<Message>)
    requires InTurn(state, ms) && InTurn(Advance(state, ms), more)
    ensures InTurn(state, ms + more)
    ensures Advance(Advance(state, ms), more) == Advance(state, ms + more)
  {
    if more == [] {
      assert ms + more == ms;
    } else {
      var rest, m := more[..|more| - 1], more[|more| - 1];
      assert rest + [m] == more;
      AdvanceOne(Advance(state, ms), rest, m);
      AdvanceJoin(state, ms, rest);
      AdvanceOne(state, ms + rest, m);
      assert ms + more == ms + rest + [m];
    }
  }

  lemma HashesJoin(ms: seq<Message>, more: seq<Message>)
    ensures Hashes(ms + more) == Hashes(ms) + Hashes(more)
  {
    assert forall x :: x in ms + more <==> x in ms || x in more;
  }

  /** `now` is `p` after delivering `ms` in turn out of its buffer, which is left as it was. */
  ghost predicate Delivered(p: Proc, ms: seq<Message>, now: Proc) {
    now == Deliver(p, ms) && InTurn(p.state, ms) && FromBuffer(p, ms) && Consistent(now)
  }

  /** A buffered message that can be delivered still has its relayers recorded. */
  lemma PopFindsItsKey(p: Proc, h: Hash)
    requires Consistent(p) && h in p.buffer && Ready(p.state, p.buffer[h])
    ensures h in p.casters && p.buffer[h].Hash() == h
  {
    assert h !in p.delivered;
  }

  lemma DeliverKeeps(p: Proc, m: Message)
    requires Consistent(p) && Ready(p.state, m)
    ensures Consistent(DeliverOne(p, m))
  {
  }

  lemma DeliverNext(p: Proc, ms: seq<Message>, m: Message)
    ensures Deliver(p, ms + [m]) == DeliverOne(Deliver(p, ms), m)
  {
    AdvanceOne(p.state, ms, m);
    HashesJoin(ms, [m]);
    assert Hashes([m]) == {m.Hash()};
  }

  lemma FromBufferJoin(p: Proc, ms: seq<Message>, more: seq<Message>)
    requires FromBuffer(p, ms) && FromBuffer(p, more)
    ensures FromBuffer(p, ms + more)
  {
    forall m | m in ms + more ensures m.Hash() in p.buffer && p.buffer[m.Hash()] == m {
      assert m in ms || m in more;
    }
  }

  lemma DeliveredNext(p: Proc, ms: seq<Message>, now: Proc, m: Message)
    requires Delivered(p, ms, now) && Ready(now.state, m) && FromBuffer(p, [m])
    ensures Delivered(p, ms + [m], DeliverOne(now, m))
  {
    assert InTurn(p.state, ms + [m]) by { AdvanceOne(p.state, ms, m); }
    FromBufferJoin(p, ms, [m]);
    DeliverKeeps(now, m);
    DeliverNext(p, ms, m);
  }

  /** `now` is `p` after delivering `ms` in turn out of its buffer and removing them from it. */
  ghost predicate Drained(p: Proc, ms: seq<Message>, now: Proc) {
    && now == Deliver(p, ms).(buffer := p.buffer - Hashes(ms))
    && InTurn(p.state, ms) && FromBuffer(p, ms) && Consistent(now)
  }

  lemma NothingDelivered(p: Proc)
    requires Consistent(p)
    ensures Delivered(p, [], p) && Drained(p, [], p)
  {
    assert p.buffer - {} == p.buffer && p.casters - {} == p.casters;
  }

  lemma ConsistentShrink(p: Proc, hs: set<Hash>)
    requires Consistent(p)
    ensures Consistent(p.(buffer := p.buffer - hs))
  {
  }

  lemma DeliverJoin(p: Proc, ms: seq<Message>, more: seq<Message>, b: map<Hash, Message>)
    requires InTurn(p.state, ms) && InTurn(Advance(p.state, ms), more)
    ensures Deliver(Deliver(p, ms).(buffer := b), more) == Deliver(p, ms + more).(buffer := b)
  {
    AdvanceJoin(p.state, ms, more);
    HashesJoin(ms, more);
    MinusMinus(p.casters, Hashes(ms), Hashes(more));
    assert p.log + ms + more == p.log + (ms + more);
    assert p.delivered + Hashes(ms) + Hashes(more) == p.delivered + (Hashes(ms) + Hashes(more));
  }

  /** What a pass removes is what it delivered, so a pass that delivers something shrinks the buffer. */
  lemma PassShrinks(p: Proc, ms: seq<Message>)
    requires FromBuffer(p, ms)
    ensures Hashes(ms) == {} <==> ms == []
    ensures ms == [] ==> p.buffer - Hashes(ms) == p.buffer
    ensures ms != [] ==> |p.buffer - Hashes(ms)| < |p.buffer|
  {
    if ms != [] {
      var h := ms[0].Hash();
      assert h in Hashes(ms) && h in p.buffer;
      var left := p.buffer - Hashes(ms);
      assert left.Keys <= p.buffer.Keys - {h};
      SubsetSize(left.Keys, p.buffer.Keys - {h});
      assert |left.Keys| == |left| && |p.buffer.Keys| == |p.buffer|;
    }
  }

  lemma DrainedNext(p: Proc, ms: seq<Message>, mid: Proc, more: seq<Message>, now: Proc)
    requires Drained(p, ms, mid) && Delivered(mid, more, now)
    ensures Drained(p, ms + more, now.(buffer := mid.buffer - Hashes(more)))
    ensures Consistent(now.(buffer := mid.buffer - Hashes(more)))
    ensures now.buffer == mid.buffer && FromBuffer(mid, more) && |now.state| == |mid.state|
  {
    FromBufferJoin(p, ms, more);
    ConsistentShrink(now, Hashes(more));
    AdvanceJoin(p.state, ms, more);
    DeliverJoin(p, ms, more, p.buffer - Hashes(ms));
    HashesJoin(ms, more);
    MinusMinus(p.buffer, Hashes(ms), Hashes(more));
  }

  /** Adding the sender, then adding the process itself only when it is missing. */
  lemma NoteInSteps(p: Proc, h: Hash, src: nat)
    ensures var c := p.casters[h := Noted(p, h, src)];
      Note(p, h, src).casters == if Relays(p, h, src) then c[h := c[h] + {p.id}] else c
  {
    if !Relays(p, h, src) {
      assert Noted(p, h, src) + {p.id} == Noted(p, h, src);
    }
  }

  lemma NoteKeeps(p: Proc, h: Hash, src: nat)
    requires Consistent(p)
    ensures Consistent(Note(p, h, src))
    ensures Settled(p) <==> Settled(Note(p, h, src))
  {
  }

  lemma BufferKeeps(p: Proc, m: Message)
    requires Consistent(p) && Settled(p) && m.Fits(|p.state|) && !Ready(p.state, m) && m.Hash() in p.casters
    ensures Consistent(p.(buffer := p.buffer[m.Hash() := m])) && Settled(p.(buffer := p.buffer[m.Hash() := m]))
  {
  }

  lemma DeliverFirst(p: Proc, m: Message)
    ensures Deliver(p, [m]) == DeliverOne(p, m)
    ensures InTurn(p.state, [m]) <==> Ready(p.state, m)
  {
    AdvanceOne(p.state, [], m);
    assert [] + [m] == [m];
    assert Hashes([m]) == {m.Hash()};
  }

  lemma SameBuffer(p: Proc, q: Proc, ms: seq<Message>)
    requires p.buffer == q.buffer
    ensures FromBuffer(p, ms) == FromBuffer(q, ms)
  {
  }

  /** A direct delivery followed by draining the buffer. */
  lemma FirstThenDrained(p: Proc, m: Message, rest: seq<Message>, now: Proc)
    requires Ready(p.state, m) && Drained(DeliverOne(p, m), rest, now)
    ensures now == Deliver(p, [m] + rest).(buffer := p.buffer - Hashes(rest))
    ensures InTurn(p.state, [m] + rest) && FromBuffer(p, rest)
  {
    hide InTurn, Ready, Consistent, Hashes, Advance, FromBuffer;
    DeliverFirst(p, m);
    assert FromBuffer(p, rest) by { SameBuffer(p, DeliverOne(p, m), rest); }
    AdvanceJoin(p.state, [m], rest);
    DeliverJoin(p, [m], rest, p.buffer);
    assert Deliver(p, [m]).(buffer := p.buffer) == DeliverOne(p, m);
  }

  /** The three ways a copy is handled, each a legal outcome. */
  lemma Outcomes(p: Proc, src: nat, m: Message)
    ensures var q := Note(p, m.Hash(), src);
      if m.Hash() in q.delivered || !Quorum(q, m.Hash()) then
        Delivers(p, src, m, []) && After(p, src, m, []) == q
      else
        !Ready(q.state, m) ==>
          Delivers(p, src, m, []) && After(p, src, m, []) == q.(buffer := q.buffer[m.Hash() := m])
  {
  }

  lemma OutcomeDelivered(p: Proc, src: nat, m: Message, rest: seq<Message>, now: Proc)
    requires var q := Note(p, m.Hash(), src);
      && m.Hash() !in q.delivered && Quorum(q, m.Hash()) && Ready(q.state, m)
      && Drained(DeliverOne(q, m), rest, now)
    requires Settled(now)
    ensures Delivers(p, src, m, [m] + rest) && After(p, src, m, [m] + rest) == now
  {
    FirstThenDrained(Note(p, m.Hash(), src), m, rest, now);
    assert ([m] + rest)[1..] == rest;
  }
}
