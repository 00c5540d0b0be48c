/** The membership protocol as a whole: in every run each member's view stays valid, and what it knows
    never grows older. */
module MemberSystem {
  import opened MemberSpec
  import opened MemberSteps

  /** `sent` is everything ever sent: messages may be lost, repeated and reordered. */
  datatype System = System(members: map<Id, Member>, sent: set<Message>)

  /** The random choices and the result of a merge are part of the step. */
  datatype Step =
    | LocalJoin(p: Id, seed: Id)
    | LocalLeave(p: Id, notify: Id)
    | Handle(m: Message, merged: View)
    | Fire(p: Id, t: Timer, chosen: Id, suspected: Id, relays: set<Id>)

  function Start(ids: set<Id>): System {
    System(map p | p in ids :: Member(false, View(map[], map[]), {}), {})
  }

  ghost predicate Enabled(g: System, step: Step) {
    match step
    case LocalJoin(p, _) => p in g.members
    case LocalLeave(p, notify) => p in g.members && RandomActive(g.members[p].view, p, notify)
    case Handle(m, merged) =>
      && m in g.sent && m.dst in g.members
      && var x := g.members[m.dst];
         Merges(x, m) ==> IsMerge(x.view, m.dst, m.view, merged)
    case Fire(p, t, chosen, suspected, relays) =>
      && p in g.members && t in g.members[p].timers
      && RandomActive(g.members[p].view, p, chosen) && RandomSuspect(g.members[p].view, p, suspected)
      && |relays| <= FANOUT && forall r | r in relays :: RandomActive(g.members[p].view, p, r)
  }

  ghost function Apply(g: System, step: Step): System
    requires Enabled(g, step)
  {
    match step
    case LocalJoin(p, seed) =>
      var r := Begun(g.members[p], p, seed);
      System(g.members[p := r.0], g.sent + r.1)
    case LocalLeave(p, notify) =>
      var r := Ended(g.members[p], p, notify);
      System(g.members[p := r.0], g.sent + r.1)
    case Handle(m, merged) =>
      var r := Handled(g.members[m.dst], m, merged);
      System(g.members[m.dst := r.0], g.sent + r.1)
    case Fire(p, t, chosen, suspected, relays) =>
      var r := Fired(g.members[p], p, t, chosen, suspected, relays);
      System(g.members[p := r.0], g.sent + r.1)
  }

  ghost predicate IsRun(ids: set<Id>, run: seq<System>, steps: seq<Step>) {
    && |run| == |steps| + 1 && run[0] == Start(ids)
    && forall k | 0 <= k < |steps| :: Enabled(run[k], steps[k]) && run[k + 1] == Apply(run[k], steps[k])
  }

  // ---------------------------------------------------------------- the invariant

  /** No timer of a member concerns the member itself. */
  ghost predicate TimersOk(x: Member, self: Id) {
    forall t | t in x.timers && !t.PingT? :: t.id != self
  }

  ghost predicate MemberOk(x: Member, self: Id) {
    Valid(x.view, self) && TimersOk(x, self)
  }

  /** Nobody writes to itself, and the view in a JOINREQ is one its receiver can adopt. */
  ghost predicate MessageOk(m: Message) {
    && m.src != m.dst
    && (m.JoinReq? ==> Valid(m.view, m.dst) && m.dst in m.view.active)
    && (m.Ping? || m.Ack? ==> Sane(m.view))
  }

  ghost predicate Inv(g: System) {
    && (forall p | p in g.members :: MemberOk(g.members[p], p))
    && forall m | m in g.sent :: MessageOk(m)
  }

  lemma AdmitKeeps(v: View, self: Id, sender: Id)
    requires Valid(v, self) && sender != self
    ensures var w := Admit(Init(v, self), sender);
      && Valid(w, self) && Valid(w, sender) && sender in w.active
      && forall id :: Rank(Find(w, id)) >= Rank(Find(v, id))
    ensures Rank(Find(Admit(Init(v, self), sender), sender)) > Rank(Find(v, sender))
  {
  }

  lemma DepartKeeps(v: View, self: Id, sender: Id)
    requires Valid(v, self) && sender != self
    ensures Valid(Depart(v, sender), self) && forall id :: Rank(Find(Depart(v, sender), id)) >= Rank(Find(v, id))
  {
  }

  lemma DistrustKeeps(v: View, self: Id, other: Id)
    requires Valid(v, self) && other != self
    ensures Valid(Distrust(v, other), self) && forall id :: Rank(Find(Distrust(v, other), id)) >= Rank(Find(v, id))
  {
  }

  ghost predicate NoRankFalls(v: View, w: View) {
    forall id :: Rank(Find(w, id)) >= Rank(Find(v, id))
  }

  lemma ValidIsSane(v: View, self: Id)
    requires Valid(v, self)
    ensures Sane(v)
  {
  }

  lemma HandledOk(x: Member, m: Message, merged: View)
    requires MemberOk(x, m.dst) && MessageOk(m)
    requires Merges(x, m) ==> IsMerge(x.view, m.dst, m.view, merged)
    ensures MemberOk(Handled(x, m, merged).0, m.dst)
    ensures forall o | o in Handled(x, m, merged).1 :: MessageOk(o)
    ensures !m.JoinReq? ==> NoRankFalls(x.view, Handled(x, m, merged).0.view)
  {
    hide Merged, IsMerge, Valid, Find, Rank, Sane, Admit, Depart, Init;
    match m
    case Join(src, _) => AdmitKeeps(x.view, m.dst, src);
    case Leave(src, _) => DepartKeeps(x.view, m.dst, src);
    case JoinReq(_, _, _) =>
    case Ping(_, _, _, _, _) =>
      if x.joined {
        MergeKeepsValid(x.view, m.dst, m.view, merged);
        ValidIsSane(merged, m.dst);
      }
    case Ack(_, _, _, _) =>
      if x.joined && Known(x.view, m.src) { MergeKeepsValid(x.view, m.dst, m.view, merged); }
  }

  lemma FiredOk(x: Member, self: Id, t: Timer, chosen: Id, suspected: Id, relays: set<Id>)
    requires MemberOk(x, self) && t in x.timers
    ensures MemberOk(Fired(x, self, t, chosen, suspected, relays).0, self)
    ensures forall o | o in Fired(x, self, t, chosen, suspected, relays).1 :: MessageOk(o)
    ensures NoRankFalls(x.view, Fired(x, self, t, chosen, suspected, relays).0.view)
  {
    hide Valid, Find, Rank, Sane, Distrust;
    ValidIsSane(x.view, self);
    if t.ThroughT? { DistrustKeeps(x.view, self, t.id); }
  }

  lemma FreshViewsValid(p: Id)
    ensures Valid(View(map[], map[]), p) && Valid(View(map[p := 1], map[]), p)
  {
  }

  lemma StepKeeps(g: System, step: Step)
    requires Inv(g) && Enabled(g, step)
    ensures Inv(Apply(g, step))
  {
    hide Valid, Handled, Fired, IsMerge, Sane;
    match step
    case LocalJoin(p, seed) => FreshViewsValid(p);
    case LocalLeave(p, notify) => FreshViewsValid(p);
    case Handle(m, merged) => HandledOk(g.members[m.dst], m, merged);
    case Fire(p, t, chosen, suspected, relays) => FiredOk(g.members[p], p, t, chosen, suspected, relays);
  }

  // ---------------------------------------------------------------- what follows

  lemma {:induction false} Safety(ids: set<Id>, run: seq<System>, steps: seq<Step>, k: nat)
    requires IsRun(ids, run, steps) && k < |run|
    ensures Inv(run[k])
  {
    if k == 0 {
      forall p: Id ensures Valid(View(map[], map[]), p) { FreshViewsValid(p); }
    } else {
      hide Inv;
      Safety(ids, run, steps, k - 1);
      assert Enabled(run[k - 1], steps[k - 1]) && run[k] == Apply(run[k - 1], steps[k - 1]);
      StepKeeps(run[k - 1], steps[k - 1]);
    }
  }

  /** In every reachable state: nobody is both active and suspected, a member that knows anyone knows itself
      to be active, and nobody suspects itself. */
  lemma ViewsStayValid(ids: set<Id>, run: seq<System>, steps: seq<Step>, k: nat, p: Id)
    requires IsRun(ids, run, steps) && k < |run| && p in run[k].members
    ensures var v := run[k].members[p].view;
      && (forall id | id in v.active :: id !in v.suspect && v.active[id] >= 1)
      && p !in v.suspect
      && (v.active != map[] ==> p in v.active)
      && (v.active == map[] ==> v.suspect == map[])
  {
    hide IsRun;
    Safety(ids, run, steps, k);
    assert MemberOk(run[k].members[p], p);
  }

  /** The steps at which a member starts over. */
  predicate StartsOver(step: Step, p: Id) {
    match step
    case LocalJoin(q, _) => q == p
    case LocalLeave(q, _) => q == p
    case Handle(m, _) => m.JoinReq? && m.dst == p
    case Fire(_, _, _, _, _) => false
  }

  lemma StepRanks(g: System, step: Step, p: Id)
    requires Inv(g) && Enabled(g, step) && p in g.members && !StartsOver(step, p)
    ensures p in Apply(g, step).members && NoRankFalls(g.members[p].view, Apply(g, step).members[p].view)
  {
    hide Valid, Handled, Fired, IsMerge, Sane, Find, Rank;
    match step
    case LocalJoin(_, _) =>
    case LocalLeave(_, _) =>
    case Handle(m, merged) => HandledOk(g.members[m.dst], m, merged);
    case Fire(q, t, chosen, suspected, relays) => FiredOk(g.members[q], q, t, chosen, suspected, relays);
  }

  /** As long as a member does not start over, nothing it knows ever loses rank. */
  lemma {:induction false} RanksNeverFall(ids: set<Id>, run: seq<System>, steps: seq<Step>, a: nat, b: nat, p: Id)
    requires IsRun(ids, run, steps) && a <= b < |run| && p in run[a].members
    requires forall k | a <= k < b :: !StartsOver(steps[k], p)
    ensures p in run[b].members && NoRankFalls(run[a].members[p].view, run[b].members[p].view)
  {
    hide Inv, Enabled, StartsOver, Find, Rank;
    if a < b {
      RanksNeverFall(ids, run, steps, a, b - 1, p);
      Safety(ids, run, steps, b - 1);
      assert Enabled(run[b - 1], steps[b - 1]) && run[b] == Apply(run[b - 1], steps[b - 1]);
      StepRanks(run[b - 1], steps[b - 1], p);
    }
  }
}
