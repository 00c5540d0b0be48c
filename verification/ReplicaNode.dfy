/** A storage node as an object, its handlers proved against ReplicaSpec. */
module ReplicaNode {
  import opened Options
  import opened Items
  import opened ReplicaSpec

  datatype TimerName = Operation(id: nat) | Handoff(group: nat)

  lemma RepairsNone(id: nat, at: nat, e: Event, top: Item)
    ensures Repairs(id, at, e, {}, top) == {}
  {
  }

  lemma RepairsMore(id: nat, at: nat, e: Event, stale: set<nat>, r: nat, top: Item)
    ensures Repairs(id, at, e, stale + {r}, top) ==
      Repairs(id, at, e, stale, top) + {Request(id, at, r, Put, e.key, top)}
  {
  }

  /** `groupId` names a list of replicas; it hashes their joined names. */
  class StorageNode {
    const id: nat
    const n: nat
    const hash: Key -> nat
    const groupId: seq<nat> -> nat
    var data: map<Key, Item>
    var events: map<nat, Event>
    var standIns: map<nat, StandIn>
    var timers: set<TimerName>

    constructor (id: nat, n: nat, hash: Key -> nat, groupId: seq<nat> -> nat)
      ensures data == map[] && events == map[] && standIns == map[] && timers == {}
      ensures this.id == id && this.n == n && this.hash == hash && this.groupId == groupId
    {
      this.id, this.n, this.hash, this.groupId := id, n, hash, groupId;
      data, events, standIns, timers := map[], map[], map[], {};
    }

    method GetKeyReplicas(key: Key) returns (replicas: seq<nat>)
      requires n > 0
      ensures replicas == KeyReplicas(hash(key), n)
      ensures replicas == [hash(key) % n, (hash(key) + 1) % n, (hash(key) + 2) % n]
    {
      ReplicasInARow(hash(key), n);
      replicas := [];
      var cur := hash(key) % n;
      for i := 0 to REPLICAS
        invariant |replicas| == i
        invariant i < REPLICAS ==> KeyReplicas(hash(key), n)[i] == cur
        invariant replicas == KeyReplicas(hash(key), n)[..i]
      {
        replicas := replicas + [cur];
        cur := NextReplica(cur, n);
      }
    }

    method OnClient(op: Op, key: Key, value: string, quorum: int, event: nat, time: real) returns (sent: seq<Request>)
      requires n > 0
      modifies this
      ensures data == old(data) && standIns == old(standIns) && timers == old(timers) + {Operation(event)}
      ensures events == old(events)[event := Opened(op, key, quorum, hash(key), n)]
      ensures events[event].handoff == (hash(key) + 3) % n
      ensures sent == Requests(event, id, KeyReplicas(hash(key), n), op, key, Item(At(time), value))
      ensures |sent| == 3 && forall i | 0 <= i < 3 ::
        sent[i] == Request(event, id, (hash(key) + i) % n, op, key, Item(At(time), value))
    {
      ReplicasInARow(hash(key), n);
      var replicas := GetKeyReplicas(key);
      events := events[event := Event(op, key, quorum, false, map[], NextReplica(replicas[|replicas| - 1], n))];
      sent := [];
      for i := 0 to |replicas|
        invariant sent == Requests(event, id, replicas[..i], op, key, Item(At(time), value))
      {
        sent := sent + [Request(event, id, replicas[i], op, key, Item(At(time), value))];
      }
      timers := timers + {Operation(event)};
    }

    /** A node that is not one of the key's replicas keeps the write for them, apart from its own data, and sets
        the timer for telling them. */
    method OnRequest(req: Request) returns (reply: Reply)
      requires n > 0
      modifies this
      ensures events == old(events)
      ensures id in KeyReplicas(hash(req.key), n) ==>
        && data == Serve(old(data), req) && standIns == old(standIns) && timers == old(timers)
        && Stored(data, req.key) ==
             (var was := old(Stored(data, req.key)); if req.op.Put? then Join(was, req.item) else was)
        && (forall k | k != req.key :: Stored(data, k) == old(Stored(data, k)))
        && reply == Reply(req.id, id, req.from, req.key, Stored(data, req.key))
      ensures id !in KeyReplicas(hash(req.key), n) ==>
        var replicas := KeyReplicas(hash(req.key), n);
        var group := groupId(replicas);
        var was := StandInFor(old(standIns), group, replicas);
        && data == old(data) && timers == old(timers) + {Handoff(group)}
        && standIns == old(standIns)[group := was.(data := Serve(was.data, req))]
        && (group in old(standIns) ==> standIns[group].waiting == old(standIns)[group].waiting)
        && (group !in old(standIns) ==> standIns[group].waiting == set r | r in replicas)
        && Stored(standIns[group].data, req.key) ==
             (var old' := Stored(was.data, req.key); if req.op.Put? then Join(old', req.item) else old')
        && (forall k | k != req.key :: Stored(standIns[group].data, k) == Stored(was.data, k))
        && (group !in old(standIns) ==> was.data == map[])
        && reply == Reply(req.id, id, req.from, req.key, Stored(standIns[group].data, req.key))
    {
      var replicas := GetKeyReplicas(req.key);
      if id in replicas {
        if req.op.Put? && Less(Stored(data, req.key), req.item) {
          data := data[req.key := req.item];
        }
        reply := Reply(req.id, id, req.from, req.key, Stored(data, req.key));
      } else {
        var group := groupId(replicas);
        if group !in standIns {
          standIns := standIns[group := StandIn(map[], set r | r in replicas)];
        }
        timers := timers + {Handoff(group)};
        var kept := standIns[group].data;
        if req.op.Put? && Less(Stored(kept, req.key), req.item) {
          kept := kept[req.key := req.item];
        }
        standIns := standIns[group := standIns[group].(data := kept)];
        reply := Reply(req.id, id, req.from, req.key, Stored(kept, req.key));
      }
    }

    /** DELETE at one of the key's replicas: the answer has the value deleted, or none when the register is newer. */
    method OnDelete(key: Key, time: Time) returns (answer: Option<string>)
      modifies this
      ensures events == old(events) && standIns == old(standIns) && timers == old(timers)
      ensures Stored(data, key) == Delete(old(Stored(data, key)), time)
      ensures forall k | k != key :: Stored(data, k) == old(Stored(data, k))
      ensures answer == (var was := old(Stored(data, key)); if TimeLess(was.time, time) then Some(was.value) else None)
    {
      answer := None;
      var stored := Stored(data, key);
      if TimeLess(stored.time, time) {
        data := data[key := Item(time, "")];
        answer := Some(stored.value);
      }
    }

    /** `top` is the greatest of the answers kept. */
    method Greatest(resp: map<nat, Item>) returns (top: Item)
      requires resp != map[]
      ensures IsTop(resp, top)
    {
      var r :| r in resp;
      top := resp[r];
      var todo := resp.Keys - {r};
      assert Leq(resp[r], top);
      while todo != {}
        invariant todo <= resp.Keys && top in resp.Values
        invariant forall s | s in resp && s !in todo :: Leq(resp[s], top)
        decreases todo
      {
        r :| r in todo;
        todo := todo - {r};
        if Less(top, resp[r]) {
          forall s | s in resp && s !in todo && s != r ensures Leq(resp[s], resp[r]) {
            LeqTransitive(resp[s], top, resp[r]);
          }
          top := resp[r];
        } else {
          Total(resp[r], top);
        }
      }
    }

    /** Drop every answer older than `actual` and send each such replica the newer item. */
    method RepairStale(event: nat, e: Event, actual: Item) returns (resp: map<nat, Item>, repairs: set<Request>)
      ensures resp == e.resp - Stale(e.resp, actual)
      ensures repairs == Repairs(event, id, e, Stale(e.resp, actual), actual)
    {
      hide Less, Repairs;
      resp, repairs := e.resp, {};
      ghost var dropped: set<nat> := {};
      assert Repairs(event, id, e, {}, actual) == {} by { RepairsNone(event, id, e, actual); }
      var todo := e.resp.Keys;
      while todo != {}
        invariant todo <= e.resp.Keys && dropped == Stale(e.resp, actual) - todo
        invariant resp == e.resp - dropped
        invariant repairs == Repairs(event, id, e, dropped, actual)
        decreases todo
      {
        var r :| r in todo;
        todo := todo - {r};
        if Less(e.resp[r], actual) {
          RepairsMore(event, id, e, dropped, r, actual);
          resp := resp - {r};
          repairs := repairs + {Request(event, id, r, Put, e.key, actual)};
          dropped := dropped + {r};
        }
      }
      assert dropped == Stale(e.resp, actual);
    }

    /** The event must still exist: the source's lookup raises otherwise. */
    method OnReply(reply: Reply) returns (repairs: set<Request>, answer: Option<Option<string>>, ghost top: Item)
      requires reply.id in events
      modifies this
      ensures data == old(data) && standIns == old(standIns) && timers == old(timers)
      ensures var e := Record(old(events)[reply.id], reply.from, reply.item);
        && IsTop(e.resp, top)
        && events == old(events)[reply.id := Settle(e, top)]
        && repairs == Repairs(reply.id, id, e, Stale(e.resp, top), top)
        && answer == (if Answers(e, top) then Some(Shown(top.value)) else None)
        && (answer.Some? ==> answer.value == if top.value != "" then Some(top.value) else None)
    {
      hide Less, Leq, Repairs, IsTop, Stale;
      var e := events[reply.id];
      if reply.from !in e.resp || Leq(e.resp[reply.from], reply.item) {
        e := e.(resp := e.resp[reply.from := reply.item]);
      }
      assert e == Record(old(events)[reply.id], reply.from, reply.item);
      assert reply.from in e.resp;
      var actual := Greatest(e.resp);
      top := actual;
      var resp;
      resp, repairs := RepairStale(reply.id, e, actual);
      answer := None;
      if |resp| >= e.quorum && !e.sent {
        answer := Some(Shown(actual.value));
        events := events[reply.id := e.(resp := resp, sent := true)];
      } else {
        events := events[reply.id := e.(resp := resp)];
      }
    }
  }
}
