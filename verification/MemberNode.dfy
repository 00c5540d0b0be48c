/** The group member as an object: every handler proved against MemberSteps, merging against MemberSpec. */
module MemberNode {
  import opened MemberSpec
  import opened MemberSteps

  ghost predicate Disjoint(v: View) {
    forall i | i in v.active :: i !in v.suspect
  }

  lemma FindMeans(v: View, i: Id)
    requires Disjoint(v)
    ensures i in v.active <==> Find(v, i).Active?
    ensures i in v.suspect <==> Find(v, i).Suspect?
    ensures i in v.active ==> Find(v, i).version == v.active[i]
    ensures i in v.suspect ==> Find(v, i).version == v.suspect[i]
  {
  }

  /** Changing one entry changes no other. */
  lemma OneEntry(v: View, i: Id, version: int)
    requires Disjoint(v)
    ensures var w := View(v.active - {i}, v.suspect[i := version]);
      Disjoint(w) && Find(w, i) == Suspect(version) && forall j | j != i :: Find(w, j) == Find(v, j)
    ensures var w := View(v.active[i := version], v.suspect - {i});
      Disjoint(w) && Find(w, i) == Active(version) && forall j | j != i :: Find(w, j) == Find(v, j)
    ensures i !in v.active ==> v.active - {i} == v.active
    ensures i !in v.suspect ==> v.suspect - {i} == v.suspect
  {
  }

  class GroupMember {
    const id: Id
    var joined: bool
    var active: map<Id, int>
    var suspect: map<Id, int>
    var timers: set<Timer>

    ghost function Now(): View
      reads this
    {
      View(active, suspect)
    }

    ghost function Abs(): Member
      reads this
    {
      Member(joined, Now(), timers)
    }

    constructor (id: Id)
      ensures this.id == id && Abs() == Member(false, View(map[], map[]), {})
    {
      this.id, joined := id, false;
      active, suspect, timers := map[], map[], {};
    }

    method OnLocalJoin(seed: Id) returns (sent: set<Message>)
      modifies this
      ensures (Abs(), sent) == Begun(old(Abs()), id, seed)
    {
      joined, sent := true, {};
      active, suspect := map[], map[];
      if seed == id {
        active := active[id := 1];
      } else {
        sent := {Message.Join(id, seed)};
        timers := timers + {JoinT(seed)};
      }
      timers := timers + {PingT};
      assert timers == old(timers) + {PingT} + if seed == id then {} else {JoinT(seed)};
    }

    /** `notify` is the member chosen at random. */
    method OnLocalLeave(notify: Id) returns (sent: set<Message>)
      requires RandomActive(Now(), id, notify)
      modifies this
      ensures (Abs(), sent) == Ended(old(Abs()), id, notify)
    {
      sent := {};
      if notify != id {
        sent := {Leave(id, notify)};
      }
      joined := false;
      active, suspect := map[], map[];
    }

    method UnexpectedInit()
      modifies this
      ensures Now() == Init(old(Now()), id) && timers == old(timers)
      ensures joined == (old(joined) || old(active) == map[])
    {
      if |active| == 0 {
        joined := true;
        active, suspect := map[], map[];
        active := active[id := 1];
      }
    }

    /** The member must know itself once it knows anyone: the increment in the merge raises otherwise. */
    method OnMessage(m: Message) returns (sent: set<Message>)
      requires m.dst == id && Disjoint(Now()) && (active != map[] ==> id in active)
      modifies this
      ensures (Abs(), sent) == Handled(old(Abs()), m, Now())
      ensures Merges(old(Abs()), m) ==> IsMerge(old(Now()), id, m.view, Now())
    {
      match m
      case Join(src, _) => sent := OnJoin(src);
      case Leave(src, _) => OnLeave(src); sent := {};
      case JoinReq(src, _, view) => OnJoinReq(src, view); sent := {};
      case Ping(_, _, _, _, _) => sent := OnPing(m);
      case Ack(_, _, _, _) => sent := OnAck(m);
    }

    method OnJoin(sender: Id) returns (sent: set<Message>)
      modifies this
      ensures Now() == Admit(Init(old(Now()), id), sender) && sent == {JoinReq(id, sender, Now())}
      ensures joined == (old(joined) || old(active) == map[]) && timers == old(timers)
    {
      UnexpectedInit();
      if sender in active {
        active := active[sender := active[sender] + 1];
      } else if sender in suspect {
        var version := MemberSpec.Abs(suspect[sender]) + 1;
        suspect := suspect - {sender};
        active := active[sender := version];
      } else {
        active := active[sender := 1];
      }
      sent := {JoinReq(id, sender, View(active, suspect))};
    }

    method OnLeave(sender: Id)
      modifies this
      ensures Now() == Depart(old(Now()), sender) && joined == old(joined) && timers == old(timers)
      ensures sender !in active
      ensures sender in old(active) ==> sender in suspect && suspect[sender] == -old(active)[sender]
    {
      if sender in active {
        suspect := suspect[sender := -1 * active[sender]];
        active := active - {sender};
      } else if sender in suspect && suspect[sender] > 0 {
        suspect := suspect[sender := suspect[sender] * -1];
      }
    }

    method OnJoinReq(sender: Id, view: View)
      modifies this
      ensures Now() == view && joined == old(joined) && timers == old(timers) - {JoinT(sender)}
    {
      active, suspect := view.active, view.suspect;
      timers := timers - {JoinT(sender)};
    }

    method OnPing(m: Message) returns (sent: set<Message>)
      requires m.Ping? && m.dst == id && Disjoint(Now()) && (active != map[] ==> id in active)
      modifies this
      ensures (Abs(), sent) == Handled(old(Abs()), m, Now())
      ensures old(joined) ==> IsMerge(old(Now()), id, m.view, Now())
    {
      hide IsMerge, Disjoint;
      if !joined {
        return {Leave(id, m.src)};
      }
      Merge(m.view);
      if m.target == id {
        sent := {Ack(id, m.src, m.origin, View(active, suspect))};
      } else {
        sent := {Ping(id, m.target, m.origin, m.target, m.view)};
      }
    }

    method OnAck(m: Message) returns (sent: set<Message>)
      requires m.Ack? && m.dst == id && Disjoint(Now()) && (active != map[] ==> id in active)
      modifies this
      ensures (Abs(), sent) == Handled(old(Abs()), m, Now())
      ensures Merges(old(Abs()), m) ==> IsMerge(old(Now()), id, m.view, Now())
    {
      hide IsMerge, Disjoint;
      if !joined || (m.src !in active && m.src !in suspect) {
        return {Leave(id, m.src)};
      }
      Merge(m.view);
      if m.target == id {
        timers := timers - {FailedT(m.src)};
        timers := timers - {ThroughT(m.src)};
        sent := {};
      } else {
        sent := {Ack(id, m.target, m.target, m.view)};
      }
      assert old(timers) - {FailedT(m.src)} - {ThroughT(m.src)} == old(timers) - {FailedT(m.src), ThroughT(m.src)};
    }

    /** `chosen`, `suspected` and `relays` are the random choices; a timer that fires is no longer set. */
    method OnTimer(t: Timer, chosen: Id, suspected: Id, relays: seq<Id>) returns (sent: set<Message>)
      requires t in timers && RandomActive(Now(), id, chosen) && RandomSuspect(Now(), id, suspected)
      requires |relays| == if |active| < FANOUT then |active| else FANOUT
      requires forall r | r in relays :: RandomActive(Now(), id, r)
      modifies this
      ensures (Abs(), sent) == Fired(old(Abs()), id, t, chosen, suspected, set r | r in relays)
    {
      match t
      case JoinT(seed) => sent := OnJoinTimer(seed);
      case PingT => sent := OnPingTimer(chosen, suspected);
      case FailedT(other) =>
        sent := OnPingFailed(other, relays);
        ghost var asked := set r | r in relays;
        assert sent == set r | r in asked && r != id :: Ping(id, r, id, other, Now());
      case ThroughT(other) =>
        timers := timers - {t};
        OnPingThroughFailed(other);
        sent := {};
    }

    /** Asked to join and nobody else known yet: ask again. */
    method OnJoinTimer(seed: Id) returns (sent: set<Message>)
      requires JoinT(seed) in timers
      modifies this
      ensures Now() == old(Now()) && joined == old(joined)
      ensures timers == if |active| > 1 then old(timers) - {JoinT(seed)} else old(timers)
      ensures sent == if |active| > 1 then {} else {Message.Join(id, seed)}
    {
      timers := timers - {JoinT(seed)};
      if |active| > 1 {
        return {};
      }
      sent := {Message.Join(id, seed)};
      timers := timers + {JoinT(seed)};
    }

    /** Ping a random active member, and a random suspect that has not left on its own. */
    method OnPingTimer(chosen: Id, suspected: Id) returns (sent: set<Message>)
      requires PingT in timers && RandomSuspect(Now(), id, suspected)
      modifies this
      ensures Now() == old(Now()) && joined == old(joined)
      ensures timers == old(timers) + if chosen != id then {FailedT(chosen)} else {}
      ensures sent ==
        (if chosen != id then {Ping(id, chosen, id, chosen, Now())} else {})
        + (if suspected != id && suspected in suspect && suspect[suspected] > 0
           then {Ping(id, suspected, id, suspected, Now())} else {})
    {
      timers := timers - {PingT};
      timers := timers + {PingT};
      assert timers == old(timers);
      sent := {};
      if chosen != id {
        sent := sent + {Ping(id, chosen, id, chosen, View(active, suspect))};
        timers := timers + {FailedT(chosen)};
      }
      if suspected != id && suspect[suspected] > 0 {
        sent := sent + {Ping(id, suspected, id, suspected, View(active, suspect))};
      }
    }

    /** No answer to a direct ping: ask others to pass it on. */
    method OnPingFailed(other: Id, relays: seq<Id>) returns (sent: set<Message>)
      modifies this
      ensures Now() == old(Now()) && joined == old(joined)
      ensures timers == old(timers) - {FailedT(other)} + {ThroughT(other)}
      ensures sent == set r | r in relays && r != id :: Ping(id, r, id, other, Now())
    {
      timers := timers - {FailedT(other)};
      sent := {};
      for i := 0 to |relays|
        invariant timers == old(timers) - {FailedT(other)} && Now() == old(Now()) && joined == old(joined)
        invariant sent == set r | r in relays[..i] && r != id :: Ping(id, r, id, other, Now())
      {
        assert relays[..i + 1] == relays[..i] + [relays[i]];
        if relays[i] != id {
          sent := sent + {Ping(id, relays[i], id, other, View(active, suspect))};
        }
      }
      assert relays[..|relays|] == relays;
      timers := timers + {ThroughT(other)};
    }

    /** No answer to a ping in time, not even through others. */
    method OnPingThroughFailed(other: Id)
      modifies this
      ensures Now() == Distrust(old(Now()), other) && joined == old(joined) && timers == old(timers)
      ensures other !in active
      ensures other in old(active) ==> other in suspect && suspect[other] == old(active)[other]
    {
      if other in active {
        suspect := suspect[other := active[other]];
        active := active - {other};
      }
    }

    /** Python visits the entries in insertion order; any order gives the same result. */
    method MergeSuspects(received: map<Id, int>)
      requires Disjoint(Now())
      modifies this
      ensures joined == old(joined) && timers == old(timers)
      ensures Disjoint(Now())
      ensures forall i :: Find(Now(), i) == AfterSuspects(old(Find(Now(), i)), id, i, received)
    {
      hide Disjoint, Find;
      var todo := received.Keys;
      while todo != {}
        invariant todo <= received.Keys && joined == old(joined) && timers == old(timers)
        invariant Disjoint(Now())
        invariant forall i | i in todo :: Find(Now(), i) == old(Find(Now(), i))
        invariant forall i | i !in todo :: Find(Now(), i) == AfterSuspects(old(Find(Now(), i)), id, i, received)
        decreases todo
      {
        var i :| i in todo;
        todo := todo - {i};
        var version := received[i];
        FindMeans(Now(), i);
        OneEntry(Now(), i, version);
        if i in active && active[i] <= MemberSpec.Abs(version) && i != id {
          active := active - {i};
          suspect := suspect[i := version];
        } else if i in suspect && MemberSpec.Abs(suspect[i]) < MemberSpec.Abs(version) {
          suspect := suspect[i := version];
        } else if i !in active && i !in suspect && version > 0 {
          suspect := suspect[i := version];
        }
      }
    }

    method MergeActives(received: map<Id, int>)
      requires Disjoint(Now())
      modifies this
      ensures joined == old(joined) && timers == old(timers)
      ensures Disjoint(Now())
      ensures forall i :: Find(Now(), i) == AfterActives(old(Find(Now(), i)), i, received)
    {
      hide Disjoint, Find;
      var todo := received.Keys;
      while todo != {}
        invariant todo <= received.Keys && joined == old(joined) && timers == old(timers)
        invariant Disjoint(Now())
        invariant forall i | i in todo :: Find(Now(), i) == old(Find(Now(), i))
        invariant forall i | i !in todo :: Find(Now(), i) == AfterActives(old(Find(Now(), i)), i, received)
        decreases todo
      {
        var i :| i in todo;
        todo := todo - {i};
        var version := received[i];
        FindMeans(Now(), i);
        OneEntry(Now(), i, version);
        if i in active && active[i] < version {
          active := active[i := version];
        } else if i in suspect && MemberSpec.Abs(suspect[i]) < version {
          suspect := suspect - {i};
          active := active[i := version];
        } else if i !in active && i !in suspect {
          active := active[i := version];
        }
      }
    }

    /** The member must know itself once it knows anyone: the increment raises otherwise. */
    method Merge(other: View)
      requires active != map[] ==> id in active
      requires Disjoint(Now())
      modifies this
      ensures IsMerge(old(Now()), id, other, Now())
      ensures joined == (old(joined) || old(active) == map[]) && timers == old(timers)
    {
      UnexpectedInit();
      if id in other.suspect {
        active := active[id := active[id] + 1];
      }
      assert Now() == Bumped(old(Now()), id, other);
      MergeSuspects(other.suspect);
      MergeActives(other.active);
    }
  }
}
