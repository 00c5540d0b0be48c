/** The broadcast process as the object it is, its handlers proved against BroadcastSpec. */
module BroadcastNode {
  import opened BroadcastSpec

  class BroadcastProcess {
    const id: nat
    const n: nat
    var counter: nat
    var state: seq<nat>
    var messagesDeliver: set<Hash>
    var messagesBuffer: map<Hash, Message>
    var messagesBroadcasters: map<Hash, set<nat>>
    ghost var log: seq<Message>

    ghost function Abs(): Proc
      reads this
    {
      Proc(id, counter, state, messagesDeliver, messagesBuffer, messagesBroadcasters, log)
    }

    ghost predicate Valid()
      reads this
    {
      |state| == n && Consistent(Abs()) && Settled(Abs())
    }

    constructor (id: nat, n: nat)
      requires id < n
      ensures Valid() && Abs() == Initial(id, n)
    {
      this.id, this.n := id, n;
      counter := 0;
      state := seq(n, _ => 0);
      messagesDeliver, messagesBuffer, messagesBroadcasters := {}, map[], map[];
      log := [];
    }

    method BestEffortBroadcast(m: Message) returns (sent: seq<Copy>)
      ensures sent == Copies(m, n)
      ensures |sent| == n && forall d | 0 <= d < n :: sent[d] == Copy(d, m)
    {
      sent := [];
      for i := 0 to n
        invariant sent == Copies(m, i)
      {
        sent := sent + [Copy(i, m)];
      }
    }

    method OnLocalMessage(text: string) returns (sent: seq<Copy>)
      requires Valid()
      modifies this
      ensures Valid()
      ensures Abs() == old(Abs()).(counter := old(counter) + 1)
      ensures sent == Copies(Message(text, id, old(counter), old(state)), n)
      ensures |sent| == n && forall d | 0 <= d < n :: sent[d] == Copy(d, Message(text, id, old(counter), old(state)))
    {
      sent := BestEffortBroadcast(Message(text, id, counter, state));
      counter := counter + 1;
    }

    method IsCausallyOrdered(m: Message) returns (ordered: bool)
      requires m.Fits(|state|)
      ensures ordered == Ready(state, m)
    {
      if m.counter != state[m.sender] {
        return false;
      }
      for i := 0 to |state|
        invariant forall j | 0 <= j < i :: m.state[j] <= state[j]
      {
        if m.state[i] > state[i] {
          return false;
        }
      }
      return true;
    }

    /** The key must be present: the source's `pop` without a default raises otherwise. */
    method DeliverMessage(m: Message) returns (text: string)
      requires m.sender < |state| && m.Hash() in messagesBroadcasters
      modifies this
      ensures Abs() == DeliverOne(old(Abs()), m) && text == m.text
      ensures state == old(state)[m.sender := m.counter + 1] && log == old(log) + [m]
      ensures m.Hash() in messagesDeliver && m.Hash() !in messagesBroadcasters
      ensures messagesBuffer == old(messagesBuffer) && counter == old(counter)
    {
      state := state[m.sender := m.counter + 1];
      messagesDeliver := messagesDeliver + {m.Hash()};
      messagesBroadcasters := messagesBroadcasters - {m.Hash()};
      log := log + [m];
      text := m.text;
    }

    /** One pass over the buffer, in any order; what it delivers stays in the buffer until the pass ends. */
    method Scan() returns (popped: set<Hash>, texts: seq<string>, ghost ms: seq<Message>)
      requires |state| == n && Consistent(Abs())
      modifies this
      ensures |state| == n && Delivered(old(Abs()), ms, Abs())
      ensures popped == Hashes(ms) && texts == Texts(ms)
      ensures ms == [] ==> Settled(Abs())
    {
      hide InTurn, Advance, Exact;
      ghost var start := Abs();
      NothingDelivered(start);
      popped, texts, ms := {}, [], [];
      var todo := messagesBuffer.Keys;
      while todo != {}
        invariant |state| == n && messagesBuffer == start.buffer && todo <= messagesBuffer.Keys
        invariant Delivered(start, ms, Abs())
        invariant popped == Hashes(ms)
        invariant texts == Texts(ms)
        invariant ms == [] ==> forall h | h in messagesBuffer && h !in todo :: !Ready(state, messagesBuffer[h])
        decreases todo
      {
        var h :| h in todo;
        todo := todo - {h};
        var m := messagesBuffer[h];
        var ordered := IsCausallyOrdered(m);
        if ordered {
          PopFindsItsKey(Abs(), h);
          DeliveredNext(start, ms, Abs(), m);
          HashesJoin(ms, [m]);
          TextsJoin(ms, [m]);
          var text := DeliverMessage(m);
          popped, texts, ms := popped + {h}, texts + [text], ms + [m];
        }
      }
    }

    method UpdateDeliver() returns (texts: seq<string>, ghost ms: seq<Message>)
      requires |state| == n && Consistent(Abs())
      modifies this
      ensures Valid()
      ensures Drained(old(Abs()), ms, Abs())
      ensures texts == Texts(ms)
    {
      hide Consistent, Drained, Delivered, FromBuffer, Hashes, Settled;
      ghost var start := Abs();
      NothingDelivered(start);
      texts, ms := [], [];
      var isUpdate := true;
      while isUpdate
        invariant |state| == n && Consistent(Abs())
        invariant Drained(start, ms, Abs())
        invariant texts == Texts(ms)
        invariant !isUpdate ==> Settled(Abs())
        decreases |messagesBuffer|, isUpdate
      {
        ghost var mid := Abs();
        var popped, more;
        ghost var batch;
        popped, more, batch := Scan();
        DrainedNext(start, ms, mid, batch, Abs());
        TextsJoin(ms, batch);
        PassShrinks(mid, batch);
        isUpdate := popped != {};
        messagesBuffer := messagesBuffer - popped;
        texts, ms := texts + more, ms + batch;
      }
    }

    method OnMessage(m: Message, sender: nat) returns (sent: seq<Copy>, texts: seq<string>, ghost ms: seq<Message>)
      requires Valid() && m.Fits(n) && sender < n
      modifies this
      ensures Valid()
      ensures Delivers(old(Abs()), sender, m, ms) && Abs() == After(old(Abs()), sender, m, ms)
      ensures sent == if Relays(old(Abs()), m.Hash(), sender) then Copies(m, n) else []
      ensures sent != [] ==> |sent| == n && forall d | 0 <= d < n :: sent[d] == Copy(d, m)
      ensures texts == Texts(ms)
    {
      hide Ready, Settled, Consistent, Drained, Delivers, After, Deliver, Texts, Copies;
      sent, texts, ms := [], [], [];
      TextsFirst(m, []);
      var h := m.Hash();
      ghost var start := Abs();
      messagesBroadcasters :=
        messagesBroadcasters[h := (if h in messagesBroadcasters then messagesBroadcasters[h] else {}) + {sender}];
      if id !in messagesBroadcasters[h] {
        sent := BestEffortBroadcast(m);
        messagesBroadcasters := messagesBroadcasters[h := messagesBroadcasters[h] + {id}];
      }
      ghost var noted := Abs();
      assert noted == Note(start, h, sender) by { NoteInSteps(start, h, sender); }
      NoteKeeps(start, h, sender);
      Outcomes(start, sender, m);
      if h !in messagesDeliver && |messagesBroadcasters[h]| * 2 >= n {
        var ordered := IsCausallyOrdered(m);
        if ordered {
          DeliverKeeps(noted, m);
          var text := DeliverMessage(m);
          var more;
          ghost var rest;
          more, rest := UpdateDeliver();
          OutcomeDelivered(start, sender, m, rest, Abs());
          texts, ms := [text] + more, [m] + rest;
          TextsFirst(m, rest);
        } else {
          BufferKeeps(noted, m);
          messagesBuffer := messagesBuffer[h := m];
        }
      }
    }
  }
}
