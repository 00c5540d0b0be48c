/** What members can rely on: a process that left or was given up stays out, and what an exchange of messages
    achieves. */
module MemberLaws {
  import opened MemberSpec
  import opened MemberGossip
  import opened MemberSteps
  import opened MemberSystem

  // ---------------------------------------------------------------- staying out

  /** `s` is not active, and if `bound` is above zero it is kept as suspected or left at that version or a later one. */
  ghost predicate Out(v: View, s: Id, bound: int) {
    s !in v.active && (bound > 0 ==> Find(v, s).Suspect? && Abs(Find(v, s).version) >= bound)
  }

  /** The version known of `s`. */
  function Version(v: View, s: Id): int {
    var e := Find(v, s);
    if e.Unknown? then 0 else Abs(e.version)
  }

  /** The steps of member `p` after which `s` may be active again: `p` starts over, adopts the view of a JOINREQ,
      hears `s` asking to join, or hears from others that `s` is active at a version above `bound`. */
  predicate Readmits(step: Step, p: Id, s: Id, bound: int) {
    match step
    case LocalJoin(q, _) => q == p
    case LocalLeave(q, _) => q == p
    case Handle(m, _) =>
      && m.dst == p
      && (match m {
            case Join(src, _) => src == s
            case Leave(_, _) => false
            case JoinReq(_, _, _) => true
            case Ping(_, _, _, _, v) => s in v.active && v.active[s] > bound
            case Ack(_, _, _, v) => s in v.active && v.active[s] > bound
          })
    case Fire(_, _, _, _, _) => false
  }

  lemma MergeStaysOut(v: View, self: Id, other: View, w: View, s: Id, bound: int)
    requires Valid(v, self) && Sane(other) && IsMerge(v, self, other, w) && s != self && bound >= 0
    requires Out(v, s, bound) && (s in other.active ==> other.active[s] <= bound)
    ensures Out(w, s, bound)
  {
    hide Merged;
    if Find(v, s) != Unknown {
      MergeIsJoin(v, self, other, s);
    } else {
      MergeOfUnknown(v, self, other, s);
    }
    assert Find(w, s) == Merged(v, self, other, s);
  }

  lemma InitIsSane(v: View, self: Id, s: Id, bound: int)
    requires Valid(v, self) && Out(v, s, bound) && s != self
    ensures Sane(Init(v, self)) && Out(Init(v, self), s, bound)
  {
  }

  lemma HandledStaysOut(x: Member, m: Message, merged: View, s: Id, bound: int)
    requires MemberOk(x, m.dst) && MessageOk(m) && s != m.dst && bound >= 0 && Out(x.view, s, bound)
    requires Merges(x, m) ==> IsMerge(x.view, m.dst, m.view, merged)
    requires !Readmits(Handle(m, merged), m.dst, s, bound)
    ensures Out(Handled(x, m, merged).0.view, s, bound)
  {
    hide IsMerge, Admit, Depart, Init;
    match m
    case Join(src, _) => InitIsSane(x.view, m.dst, s, bound); AdmitMeans(Init(x.view, m.dst), src);
    case Leave(src, _) =>
      DepartMeans(x.view, src);
      assert Find(Depart(x.view, src), s) == if src == s && Find(x.view, s) != Unknown
        then Suspect(-Abs(Find(x.view, s).version)) else Find(x.view, s);
    case JoinReq(_, _, _) =>
    case Ping(_, _, _, _, _) => if x.joined { MergeStaysOut(x.view, m.dst, m.view, merged, s, bound); }
    case Ack(_, _, _, _) => if Merges(x, m) { MergeStaysOut(x.view, m.dst, m.view, merged, s, bound); }
  }

  lemma FireStaysOut(x: Member, p: Id, t: Timer, s: Id, bound: int)
    requires MemberOk(x, p) && Out(x.view, s, bound)
    ensures t.ThroughT? ==> Out(Distrust(x.view, t.id), s, bound)
  {
    if t.ThroughT? { DistrustMeans(x.view, t.id); }
  }

  lemma StepStaysOut(g: System, step: Step, p: Id, s: Id, bound: int)
    requires Inv(g) && Enabled(g, step) && p in g.members && s != p && bound >= 0
    requires Out(g.members[p].view, s, bound) && !Readmits(step, p, s, bound)
    ensures p in Apply(g, step).members && Out(Apply(g, step).members[p].view, s, bound)
  {
    hide IsMerge, Handled, Valid, Out;
    match step
    case LocalJoin(_, _) =>
    case LocalLeave(_, _) =>
    case Handle(m, merged) => if m.dst == p { HandledStaysOut(g.members[p], m, merged, s, bound); }
    case Fire(q, t, _, _, _) => if q == p { FireStaysOut(g.members[p], p, t, s, bound); }
  }

  /** Once out, `s` stays out of the member's active view until one of those steps. */
  lemma {:induction false} StaysOut(ids: set<Id>, run: seq<System>, steps: seq<Step>, a: nat, b: nat,
                                    p: Id, s: Id, bound: int)
    requires IsRun(ids, run, steps) && a <= b < |run| && p in run[a].members && s != p && bound >= 0
    requires Out(run[a].members[p].view, s, bound)
    requires forall k | a <= k < b :: !Readmits(steps[k], p, s, bound)
    ensures p in run[b].members && Out(run[b].members[p].view, s, bound)
  {
    hide Inv, Enabled, Apply, Out, Readmits;
    if a < b {
      StaysOut(ids, run, steps, a, b - 1, p, s, bound);
      Safety(ids, run, steps, b - 1);
      assert Enabled(run[b - 1], steps[b - 1]) && run[b - 1 + 1] == Apply(run[b - 1], steps[b - 1]);
      StepStaysOut(run[b - 1], steps[b - 1], p, s, bound);
    }
  }

  lemma AtLeave(g: System, p: Id, m: Message)
    requires Inv(g) && p in g.members && m in g.sent
    ensures MemberOk(g.members[p], p) && MessageOk(m)
  {
  }

  /** A process whose LEAVE has been handled stays out until it asks to join, or is reported active at a later
      version than it left with, or the member starts over. */
  lemma LeaverStaysOut(ids: set<Id>, run: seq<System>, steps: seq<Step>, a: nat, b: nat, p: Id, s: Id)
    requires IsRun(ids, run, steps) && a < b < |run| && a < |steps|
    requires steps[a].Handle? && steps[a].m == Leave(s, p) && p in run[a].members
    requires forall k | a < k < b :: !Readmits(steps[k], p, s, Version(run[a].members[p].view, s))
    ensures p in run[b].members && s !in run[b].members[p].view.active
  {
    hide Inv, Valid, Readmits;
    Safety(ids, run, steps, a);
    assert Enabled(run[a], steps[a]) && run[a + 1] == Apply(run[a], steps[a]);
    var v, bound := run[a].members[p].view, Version(run[a].members[p].view, s);
    assert MemberOk(run[a].members[p], p) && MessageOk(steps[a].m) by { hide *; AtLeave(run[a], p, steps[a].m); }
    ValidIsSane(v, p);
    DepartMeans(v, s);
    assert run[a + 1].members[p].view == Depart(v, s);
    StaysOut(ids, run, steps, a + 1, b, p, s, bound);
  }

  lemma OkAt(g: System, p: Id)
    requires Inv(g) && p in g.members
    ensures MemberOk(g.members[p], p)
  {
  }

  /** A process given up after a ping that nobody answered stays out on the same terms. */
  lemma GivenUpStaysOut(ids: set<Id>, run: seq<System>, steps: seq<Step>, a: nat, b: nat, p: Id, s: Id)
    requires IsRun(ids, run, steps) && a < b < |run| && a < |steps|
    requires steps[a].Fire? && steps[a].p == p && steps[a].t == ThroughT(s) && p in run[a].members
    requires forall k | a < k < b :: !Readmits(steps[k], p, s, Version(run[a].members[p].view, s))
    ensures p in run[b].members && s !in run[b].members[p].view.active
  {
    hide Inv, Valid, Readmits;
    Safety(ids, run, steps, a);
    assert Enabled(run[a], steps[a]) && run[a + 1] == Apply(run[a], steps[a]);
    var v, bound := run[a].members[p].view, Version(run[a].members[p].view, s);
    assert MemberOk(run[a].members[p], p) by { hide *; OkAt(run[a], p); }
    ValidIsSane(v, p);
    DistrustMeans(v, s);
    assert run[a + 1].members[p].view == Distrust(v, s);
    StaysOut(ids, run, steps, a + 1, b, p, s, bound);
  }

  // ---------------------------------------------------------------- exchanges of messages

  /** What a member does with a message, merging as it does. */
  function Next(x: Member, m: Message): (Member, set<Message>)
    requires Merges(x, m) ==> (x.view.active != map[] ==> m.dst in x.view.active)
  {
    Handled(x, m, if Merges(x, m) then MergedView(x.view, m.dst, m.view) else x.view)
  }

  /** Joining: the member asked admits the newcomer and sends it its view; the newcomer adopts it, stops asking,
      and both list both. */
  lemma JoinHandshake(x: Member, y: Member, p: Id, s: Id)
    requires Valid(x.view, p) && s != p
    ensures var (x', sent) := Next(x, Message.Join(s, p));
      && |sent| == 1 && JoinReq(p, s, x'.view) in sent
      && x'.joined == (x.joined || x.view.active == map[]) && x'.timers == x.timers
      && x'.view.active.Keys == x.view.active.Keys + {p, s}
      && x'.view.active[s] == Version(x.view, s) + 1
      && var (y', none) := Next(y, JoinReq(p, s, x'.view));
         none == {} && y' == Member(y.joined, x'.view, y.timers - {JoinT(p)})
  {
    ValidIsSane(x.view, p);
    AdmitMeans(Init(x.view, p), s);
  }

  /** A process that has not joined answers a PING, and an ACK, with LEAVE, and one that has joined an ACK from
      somebody it does not know; on receiving it the other lists it no more, and keeps it as having left. */
  lemma NotJoinedIsDropped(x: Member, y: Member, p: Id, q: Id, m: Message)
    requires Valid(x.view, p) && m.src == p && m.dst == q
    requires (!y.joined && (m.Ping? || m.Ack?)) || (m.Ack? && !Known(y.view, p))
    ensures Next(y, m) == (y, {Leave(q, p)})
    ensures var (x', none) := Next(x, Leave(q, p));
      none == {} && q !in x'.view.active && (q in x.view.active ==> Find(x'.view, q) == Suspect(-x.view.active[q]))
  {
    ValidIsSane(x.view, p);
    DepartMeans(x.view, q);
  }

  /** An ACK for the member itself cancels exactly the timers about the process it comes from. */
  lemma AckCancels(x: Member, s: Id, p: Id, v: View)
    requires x.joined && Known(x.view, s) && (x.view.active != map[] ==> p in x.view.active)
    ensures var (x', sent) := Next(x, Ack(s, p, p, v));
      && sent == {} && IsMerge(x.view, p, v, x'.view)
      && forall t :: t in x'.timers <==> t in x.timers && t != FailedT(s) && t != ThroughT(s)
  {
    MergeIsUnique(x.view, p, v, MergedView(x.view, p, v));
  }

  /** A PING to a joined member is answered to its sender with the merged view, and the answer cancels both timers
      about the member. */
  lemma DirectPing(x: Member, y: Member, p: Id, q: Id)
    requires Valid(x.view, p) && Valid(y.view, q) && x.joined && y.joined && Known(x.view, q) && p != q
    ensures var (y', answer) := Next(y, Ping(p, q, p, q, x.view));
      && answer == {Ack(q, p, p, y'.view)} && IsMerge(y.view, q, x.view, y'.view) && y'.timers == y.timers
      && var (x', none) := Next(x, Ack(q, p, p, y'.view));
         && none == {} && IsMerge(x.view, p, y'.view, x'.view)
         && FailedT(q) !in x'.timers && ThroughT(q) !in x'.timers
  {
    hide Merged, MergedView;
    KnowsItself(x.view, p);
    KnowsItself(y.view, q);
    MergeIsUnique(y.view, q, x.view, MergedView(y.view, q, x.view));
    AckCancels(x, q, p, MergedView(y.view, q, x.view));
  }

  /** A PING and its ACK bring both to the same rank of every process that both knew, other than themselves. */
  lemma PingAgrees(x: Member, y: Member, p: Id, q: Id, id: Id)
    requires Valid(x.view, p) && Valid(y.view, q) && x.joined && y.joined && Known(x.view, q) && p != q
    requires id != p && id != q && Known(x.view, id) && Known(y.view, id)
    ensures var y' := Next(y, Ping(p, q, p, q, x.view)).0;
      var x' := Next(x, Ack(q, p, p, y'.view)).0;
      && Rank(Find(x'.view, id)) == Rank(Find(y'.view, id))
      && Rank(Find(x'.view, id)) == Greater(Rank(Find(x.view, id)), Rank(Find(y.view, id)))
  {
    hide Merged, MergedView;
    KnowsItself(x.view, p);
    KnowsItself(y.view, q);
    ValidIsSane(x.view, p);
    var w := MergedView(y.view, q, x.view);
    MergeIsUnique(y.view, q, x.view, w);
    MergeKeepsValid(y.view, q, x.view, w);
    ValidIsSane(w, q);
    MergeIsJoin(y.view, q, x.view, id);
    MergeIsUnique(x.view, p, w, MergedView(x.view, p, w));
    MergeIsJoin(x.view, p, w, id);
  }

  /** A suspected process that is pinged comes back: it hears of the suspicion, raises its version, and is active
      again at the one that suspected it, if and only if its own version was not below the suspected one. */
  lemma SuspectAnswersBack(x: Member, y: Member, p: Id, q: Id)
    requires Valid(x.view, p) && Valid(y.view, q) && x.joined && y.joined && p != q
    requires q in x.view.suspect && q in y.view.active
    ensures var y' := Next(y, Ping(p, q, p, q, x.view)).0;
      var x' := Next(x, Ack(q, p, p, y'.view)).0;
      && Find(y'.view, q) == Active(y.view.active[q] + 1)
      && (q in x'.view.active <==> y.view.active[q] >= Abs(x.view.suspect[q]))
      && (q in x'.view.active ==> x'.view.active[q] == y.view.active[q] + 1)
  {
    hide Merged, MergedView;
    KnowsItself(x.view, p);
    KnowsItself(y.view, q);
    ValidIsSane(x.view, p);
    var w := MergedView(y.view, q, x.view);
    OwnMerged(y.view, q, x.view);
    MergeIsUnique(y.view, q, x.view, w);
    MergeKeepsValid(y.view, q, x.view, w);
    ValidIsSane(w, q);
    var x' := MergedView(x.view, p, w);
    MergeIsUnique(x.view, p, w, x');
    MergeIsJoin(x.view, p, w, q);
    assert Find(x', q) == Merged(x.view, p, w, q);
  }

  lemma StillKnown(v: View, self: Id, other: View, w: View, id: Id)
    requires Valid(v, self) && Sane(other) && IsMerge(v, self, other, w) && Known(v, id) && id != self
    ensures Known(w, id)
  {
    MergeIsJoin(v, self, other, id);
    assert Find(w, id) == Merged(v, self, other, id);
  }

  /** A PING through another member reaches its target unaltered, and the answer comes back the same way; but it
      arrives as coming from that other member, so the timers about the target go on, and when the second one fires
      an active target is suspected although it has answered. */
  lemma IndirectAnswerIsNotCounted(x: Member, y: Member, z: Member, p: Id, r: Id, q: Id)
    requires Valid(x.view, p) && Valid(z.view, r) && Valid(y.view, q) && x.joined && y.joined && z.joined
    requires p != q && r != q && r != p && Known(x.view, r) && Known(z.view, q)
    ensures var (z', passed) := Next(z, Ping(p, r, p, q, x.view));
      && passed == {Ping(r, q, p, q, x.view)}
      && var (y', answer) := Next(y, Ping(r, q, p, q, x.view));
      && answer == {Ack(q, r, p, y'.view)}
      && Merges(z', Ack(q, r, p, y'.view)) && r in z'.view.active
      && var (z'', back) := Next(z', Ack(q, r, p, y'.view));
      && back == {Ack(r, p, p, y'.view)}
      && var (x', none) := Next(x, Ack(r, p, p, y'.view));
      && none == {}
      && (FailedT(q) in x'.timers <==> FailedT(q) in x.timers)
      && (ThroughT(q) in x'.timers <==> ThroughT(q) in x.timers)
      && (q in x'.view.active ==>
            Find(Fired(x', p, ThroughT(q), p, p, {}).0.view, q) == Suspect(x'.view.active[q]))
  {
    hide Merged, MergedView;
    KnowsItself(x.view, p);
    KnowsItself(y.view, q);
    KnowsItself(z.view, r);
    ValidIsSane(x.view, p);
    var w := MergedView(z.view, r, x.view);
    MergeIsUnique(z.view, r, x.view, w);
    MergeKeepsValid(z.view, r, x.view, w);
    assert Known(w, q) by { StillKnown(z.view, r, x.view, w, q); }
    AckCancels(x, r, p, MergedView(y.view, q, x.view));
    var x' := Next(x, Ack(r, p, p, MergedView(y.view, q, x.view))).0;
    assert forall id | id in x'.view.active :: id !in x'.view.suspect;
  }

  /** A ping timer pings the chosen member, and a chosen suspect that has not left, with the view as it is; both
      answers are awaited only for the member. */
  lemma PingTimerPings(x: Member, self: Id, chosen: Id, suspected: Id)
    requires RandomSuspect(x.view, self, suspected) && self !in x.view.suspect
    ensures var (x', sent) := Fired(x, self, PingT, chosen, suspected, {});
      && x'.view == x.view && x'.joined == x.joined
      && (forall t :: t in x'.timers <==> t in x.timers || (chosen != self && t == FailedT(chosen)))
      && forall m :: m in sent <==>
           || (chosen != self && m == Ping(self, chosen, self, chosen, x.view))
           || (suspected in x.view.suspect && x.view.suspect[suspected] > 0
               && m == Ping(self, suspected, self, suspected, x.view))
  {
  }

  /** The first timer without an answer asks the chosen members to pass a PING on and sets the second one. */
  lemma FailedTimerAsks(x: Member, self: Id, q: Id, chosen: Id, suspected: Id, relays: set<Id>)
    ensures var (x', sent) := Fired(x, self, FailedT(q), chosen, suspected, relays);
      && x'.view == x.view && x'.joined == x.joined
      && (forall t :: t in x'.timers <==> t == ThroughT(q) || (t in x.timers && t != FailedT(q)))
      && forall m :: m in sent <==>
           m.Ping? && m.dst in relays && m.dst != self && m == Ping(self, m.dst, self, q, x.view)
  {
  }

  /** The user's JOIN starts the member over, alone when it is its own seed and asking the seed otherwise. */
  lemma BeginsAlone(x: Member, self: Id, seed: Id)
    ensures var (x', sent) := Begun(x, self, seed);
      && x'.joined && x'.view.suspect == map[]
      && x'.view.active == (if seed == self then map[self := 1] else map[])
      && (forall t :: t in x'.timers <==> t in x.timers || t == PingT || (seed != self && t == JoinT(seed)))
      && forall m :: m in sent <==> seed != self && m == Message.Join(self, seed)
  {
  }

  lemma AtMostOne(ids: set<Id>, self: Id)
    requires |ids| <= 1 && (ids != {} ==> self in ids)
    ensures forall id | id in ids :: id == self
  {
    forall id | id in ids ensures id == self {
      assert |ids - {self}| == 0;
      assert id != self ==> id in ids - {self};
    }
  }

  /** The user's LEAVE: the member forgets everybody, and one other active member, if there is any, is told, who then
      keeps it as having left. */
  lemma LeaveIsHeard(x: Member, y: Member, self: Id, notify: Id)
    requires Valid(x.view, self) && Valid(y.view, notify) && RandomActive(x.view, self, notify)
    ensures notify != self <==> exists id :: id in x.view.active && id != self
    ensures var (x', sent) := Ended(x, self, notify);
      && x' == Member(false, View(map[], map[]), x.timers)
      && (forall m :: m in sent <==> notify != self && m == Leave(self, notify))
    ensures notify != self ==>
      var (y', none) := Next(y, Leave(self, notify));
      none == {} && self !in y'.view.active && y'.joined == y.joined && y'.timers == y.timers
      && (self in y.view.active ==> Find(y'.view, self) == Suspect(-y.view.active[self]))
  {
    ValidIsSane(y.view, notify);
    DepartMeans(y.view, self);
    if |x.view.active| <= 1 { AtMostOne(x.view.active.Keys, self); }
  }

  /** The timer of a JOIN asks again and goes on until another active process is known. */
  lemma JoinTimerAsks(x: Member, self: Id, seed: Id, chosen: Id, suspected: Id, relays: set<Id>)
    ensures var (x', sent) := Fired(x, self, JoinT(seed), chosen, suspected, relays);
      && x'.view == x.view && x'.joined == x.joined
      && (if |x.view.active| > 1 then sent == {} && x'.timers == x.timers - {JoinT(seed)}
          else x'.timers == x.timers && sent == {Message.Join(self, seed)})
  {
  }

  /** The second timer gives the process up, and is over. */
  lemma ThroughTimerGivesUp(x: Member, self: Id, q: Id, chosen: Id, suspected: Id, relays: set<Id>)
    requires Valid(x.view, self)
    ensures var (x', sent) := Fired(x, self, ThroughT(q), chosen, suspected, relays);
      && sent == {} && x'.joined == x.joined && q !in x'.view.active
      && (q in x.view.active ==> Find(x'.view, q) == Suspect(x.view.active[q]))
      && (forall t :: t in x'.timers <==> t in x.timers && t != ThroughT(q))
  {
    ValidIsSane(x.view, self);
    DistrustMeans(x.view, q);
  }
}
