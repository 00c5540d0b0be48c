/** A group member's view: which processes are active and which are suspected, with versions. */
module MemberSpec {

  type Id = string

  /** A negative suspect version marks a process that left on its own. */
  datatype View = View(active: map<Id, int>, suspect: map<Id, int>)

  datatype Entry = Unknown | Active(version: int) | Suspect(version: int)

  function Abs(x: int): int {
    if x < 0 then -x else x
  }

  function Find(v: View, id: Id): Entry {
    if id in v.active then Active(v.active[id])
    else if id in v.suspect then Suspect(v.suspect[id])
    else Unknown
  }

  /** Larger versions outrank smaller ones; at the same version a suspicion outranks being active. */
  function Rank(e: Entry): int {
    match e
    case Unknown => 0
    case Active(version) => 2 * Abs(version)
    case Suspect(version) => 2 * Abs(version) + 1
  }

  /** Nobody is both active and suspected, and versions count from one. */
  ghost predicate Sane(v: View) {
    && (forall id | id in v.active :: id !in v.suspect && v.active[id] >= 1)
    && forall id | id in v.suspect :: v.suspect[id] != 0
  }

  /** The view of member `self`: when it knows anyone, it knows itself to be active. */
  ghost predicate Valid(v: View, self: Id) {
    && Sane(v) && self !in v.suspect
    && if v.active == map[] then v.suspect == map[] else self in v.active
  }

  function Init(v: View, self: Id): View {
    if v.active == map[] then View(map[self := 1], map[]) else v
  }

  /** A process asks to join: it becomes active with a version above any known one. */
  function Admit(v: View, sender: Id): View {
    if sender in v.active then v.(active := v.active[sender := v.active[sender] + 1])
    else if sender in v.suspect then View(v.active[sender := Abs(v.suspect[sender]) + 1], v.suspect - {sender})
    else v.(active := v.active[sender := 1])
  }

  /** A process says it is leaving. */
  function Depart(v: View, sender: Id): View {
    if sender in v.active then View(v.active - {sender}, v.suspect[sender := -1 * v.active[sender]])
    else if sender in v.suspect && v.suspect[sender] > 0 then v.(suspect := v.suspect[sender := v.suspect[sender] * -1])
    else v
  }

  function Distrust(v: View, other: Id): View {
    if other in v.active then View(v.active - {other}, v.suspect[other := v.active[other]]) else v
  }

  /** A process that asks to join becomes active, one version above what was known of it; nothing else changes. */
  lemma AdmitMeans(v: View, sender: Id)
    requires Sane(v)
    ensures var w, e := Admit(v, sender), Find(v, sender);
      && Sane(w) && sender in w.active && w.active[sender] == (if e.Unknown? then 1 else Abs(e.version) + 1)
      && forall id | id != sender :: Find(w, id) == Find(v, id)
  {
  }

  /** A process that leaves is active no more; if it was known, it is kept as having left, at the same version.
      Nothing else changes, and leaving twice is leaving once. */
  lemma DepartMeans(v: View, sender: Id)
    requires Sane(v)
    ensures var w, e := Depart(v, sender), Find(v, sender);
      && Sane(w) && sender !in w.active
      && Find(w, sender) == (if e.Unknown? then Unknown else Suspect(-Abs(e.version)))
      && (forall id | id != sender :: Find(w, id) == Find(v, id))
      && Depart(w, sender) == w
  {
  }

  /** An active process that does not answer becomes suspected at its version; one that is not active stays as it is,
      and so does everybody else. */
  lemma DistrustMeans(v: View, other: Id)
    requires Sane(v)
    ensures var w, e := Distrust(v, other), Find(v, other);
      && Sane(w) && other !in w.active
      && Find(w, other) == (if e.Active? then Suspect(e.version) else e)
      && forall id | id != other :: Find(w, id) == Find(v, id)
  {
  }

  // ---------------------------------------------------------------- merging two views

  /** One entry of the received suspects. */
  function TakeSuspect(e: Entry, isSelf: bool, version: int): Entry {
    if e.Active? && e.version <= Abs(version) && !isSelf then Suspect(version)
    else if e.Suspect? && Abs(e.version) < Abs(version) then Suspect(version)
    else if e.Unknown? && version > 0 then Suspect(version)
    else e
  }

  /** One entry of the received actives. */
  function TakeActive(e: Entry, version: int): Entry {
    if e.Active? && e.version < version then Active(version)
    else if e.Suspect? && Abs(e.version) < version then Active(version)
    else if e.Unknown? then Active(version)
    else e
  }

  /** A member that hears itself suspected raises its own version. */
  function Bumped(v: View, self: Id, other: View): View
    requires v.active != map[] ==> self in v.active
  {
    var w := Init(v, self);
    if self in other.suspect then w.(active := w.active[self := w.active[self] + 1]) else w
  }

  function AfterSuspects(e: Entry, self: Id, id: Id, suspects: map<Id, int>): Entry {
    if id in suspects then TakeSuspect(e, id == self, suspects[id]) else e
  }

  function AfterActives(e: Entry, id: Id, actives: map<Id, int>): Entry {
    if id in actives then TakeActive(e, actives[id]) else e
  }

  function Merged(v: View, self: Id, other: View, id: Id): Entry
    requires v.active != map[] ==> self in v.active
  {
    AfterActives(AfterSuspects(Find(Bumped(v, self, other), id), self, id, other.suspect), id, other.active)
  }

  /** `w` holds exactly the merged entries. The member must know itself once it knows anyone. */
  ghost predicate IsMerge(v: View, self: Id, other: View, w: View) {
    && (v.active != map[] ==> self in v.active)
    && (forall id | id in w.active :: id !in w.suspect)
    && forall id :: Find(w, id) == Merged(v, self, other, id)
  }

  function Greater(a: int, b: int): int {
    if a < b then b else a
  }

  /** For any other process already known, merging takes the greater of the two ranks. */
  lemma MergeIsJoin(v: View, self: Id, other: View, id: Id)
    requires Valid(v, self) && Sane(other) && id != self && Find(v, id) != Unknown
    ensures Rank(Merged(v, self, other, id)) == Greater(Rank(Find(v, id)), Rank(Find(other, id)))
    ensures Merged(v, self, other, id) ==
      if Rank(Find(other, id)) > Rank(Find(v, id)) then Find(other, id) else Find(v, id)
    ensures Merged(v, self, other, id) != Unknown
  {
  }

  lemma MergeOfUnknown(v: View, self: Id, other: View, id: Id)
    requires Valid(v, self) && Sane(other) && id != self && Find(v, id) == Unknown
    ensures Merged(v, self, other, id) ==
      if Find(other, id).Suspect? && Find(other, id).version < 0 then Unknown else Find(other, id)
  {
  }

  lemma MergeOfSelf(v: View, self: Id, other: View)
    requires Valid(v, self) && Sane(other)
    ensures Merged(v, self, other, self).Active? && Rank(Merged(v, self, other, self)) >= Rank(Find(v, self))
    ensures Merged(v, self, other, self).version >= 1
    ensures self in other.suspect && self in v.active ==> Rank(Merged(v, self, other, self)) > Rank(Find(v, self))
  {
  }

  /** There is always a merged view, and only one. */
  function MergedView(v: View, self: Id, other: View): (w: View)
    requires v.active != map[] ==> self in v.active
    ensures self in w.active
  {
    var ids := v.active.Keys + v.suspect.Keys + other.active.Keys + other.suspect.Keys + {self};
    View(map id | id in ids && Merged(v, self, other, id).Active? :: Merged(v, self, other, id).version,
         map id | id in ids && Merged(v, self, other, id).Suspect? :: Merged(v, self, other, id).version)
  }

  lemma MergedElsewhere(v: View, self: Id, other: View, id: Id)
    requires v.active != map[] ==> self in v.active
    ensures Merged(v, self, other, id) != Unknown ==>
      id in v.active.Keys + v.suspect.Keys + other.active.Keys + other.suspect.Keys + {self}
  {
  }

  lemma MergeIsUnique(v: View, self: Id, other: View, w: View)
    requires v.active != map[] ==> self in v.active
    ensures IsMerge(v, self, other, w) <==> w == MergedView(v, self, other)
  {
    hide Merged;
    var m := MergedView(v, self, other);
    forall id ensures Find(m, id) == Merged(v, self, other, id) { MergedElsewhere(v, self, other, id); }
    if IsMerge(v, self, other, w) {
      forall id ensures id in w.active <==> id in m.active
        ensures id in w.suspect <==> id in m.suspect
        ensures id in w.active ==> w.active[id] == m.active[id]
        ensures id in w.suspect ==> w.suspect[id] == m.suspect[id]
      {
        assert Find(w, id) == Find(m, id);
      }
      assert w.active == m.active && w.suspect == m.suspect;
    }
  }

  lemma MergedEntry(v: View, self: Id, other: View, id: Id)
    requires Valid(v, self) && Sane(other)
    ensures var e := Merged(v, self, other, id);
      && Rank(e) >= Rank(Find(v, id)) && (e.Active? ==> e.version >= 1) && (e.Suspect? ==> e.version != 0)
  {
    if id == self { MergeOfSelf(v, self, other); }
  }

  /** A merge keeps the view valid, and no rank falls. */
  lemma MergeKeepsValid(v: View, self: Id, other: View, w: View)
    requires Valid(v, self) && Sane(other) && IsMerge(v, self, other, w)
    ensures Valid(w, self) && forall id :: Rank(Find(w, id)) >= Rank(Find(v, id))
  {
    MergeOfSelf(v, self, other);
    forall id ensures Rank(Find(w, id)) >= Rank(Find(v, id))
      ensures Find(w, id).Active? ==> Find(w, id).version >= 1
      ensures Find(w, id).Suspect? ==> Find(w, id).version != 0
    {
      MergedEntry(v, self, other, id);
    }
    forall id | id in w.active ensures w.active[id] >= 1 { assert Find(w, id) == Active(w.active[id]); }
    forall id | id in w.suspect ensures w.suspect[id] != 0 { assert Find(w, id) == Suspect(w.suspect[id]); }
    assert Find(w, self).Active?;
    assert self in w.active && self !in w.suspect;
  }

  // ---------------------------------------------------------------- a process known or not

  /** A gossip shows a process it does not only report as having left. */
  predicate Shows(g: View, id: Id) {
    var e := Find(g, id);
    e.Active? || (e.Suspect? && e.version > 0)
  }

  lemma EntryRank(g: View, id: Id)
    requires Sane(g)
    ensures Find(g, id) != Unknown ==> Rank(Find(g, id)) >= 2
    ensures Find(g, id).Suspect? ==> Find(g, id).version != 0
  {
  }

  lemma UnknownOrJoin(v: View, self: Id, other: View, w: View, id: Id)
    requires Valid(v, self) && Sane(other) && IsMerge(v, self, other, w) && id != self
    ensures Find(v, id) != Unknown ==>
      Find(w, id) != Unknown && Rank(Find(w, id)) == Greater(Rank(Find(v, id)), Rank(Find(other, id)))
    ensures Find(v, id) == Unknown ==> Find(w, id) == if Shows(other, id) then Find(other, id) else Unknown
  {
    hide Merged;
    if Find(v, id) != Unknown { MergeIsJoin(v, self, other, id); } else { MergeOfUnknown(v, self, other, id); }
    EntryRank(other, id);
  }
}
