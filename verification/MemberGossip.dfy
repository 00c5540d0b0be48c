/** Gossip heard in any order: when the order of merges matters, for a process known before, for one not known,
    and for the member itself. */
module MemberGossip {
  import opened MemberSpec

  // ---------------------------------------------------------------- a sequence of merges

  /** `views[i + 1]` is `views[i]` merged with the `i`-th gossip. */
  ghost predicate Gossiped(self: Id, views: seq<View>, gossip: seq<View>) {
    && |views| == |gossip| + 1 && Valid(views[0], self)
    && forall i | 0 <= i < |gossip| :: Sane(gossip[i]) && IsMerge(views[i], self, gossip[i], views[i + 1])
  }

  lemma {:induction false} GossipKeepsValid(self: Id, views: seq<View>, gossip: seq<View>, k: nat)
    requires Gossiped(self, views, gossip) && k <= |gossip|
    ensures Valid(views[k], self)
  {
    hide Valid, Sane, IsMerge;
    if k > 0 {
      GossipKeepsValid(self, views, gossip, k - 1);
      assert Sane(gossip[k - 1]) && IsMerge(views[k - 1], self, gossip[k - 1], views[k - 1 + 1]);
      MergeKeepsValid(views[k - 1], self, gossip[k - 1], views[k]);
    }
  }

  /** The view after merging all the gossip, one after the other. */
  function MergeAll(v: View, self: Id, gossip: seq<View>): (w: View)
    requires v.active != map[] ==> self in v.active
    ensures w.active != map[] ==> self in w.active
  {
    if gossip == [] then v
    else MergedView(MergeAll(v, self, gossip[..|gossip| - 1]), self, gossip[|gossip| - 1])
  }

  ghost predicate AllSane(gossip: seq<View>) {
    forall g | g in gossip :: Sane(g)
  }

  lemma KnowsItself(v: View, self: Id)
    requires Valid(v, self)
    ensures v.active != map[] ==> self in v.active
  {
  }

  /** Any run of merges ends in that view. */
  lemma {:induction false} GossipEndsMerged(self: Id, views: seq<View>, gossip: seq<View>, k: nat)
    requires Gossiped(self, views, gossip) && k <= |gossip|
    ensures views[0].active != map[] ==> self in views[0].active
    ensures views[k] == MergeAll(views[0], self, gossip[..k])
  {
    hide Valid, Sane, IsMerge, MergedView;
    KnowsItself(views[0], self);
    if k > 0 {
      GossipEndsMerged(self, views, gossip, k - 1);
      assert IsMerge(views[k - 1], self, gossip[k - 1], views[k - 1 + 1]);
      MergeIsUnique(views[k - 1], self, gossip[k - 1], views[k]);
      assert gossip[..k][..k - 1] == gossip[..k - 1];
    }
  }

  /** And such a run exists. */
  lemma {:induction false} MergedIsGossiped(v: View, self: Id, gossip: seq<View>) returns (views: seq<View>)
    requires Valid(v, self) && AllSane(gossip)
    ensures Gossiped(self, views, gossip) && views[0] == v && views[|gossip|] == MergeAll(v, self, gossip)
  {
    hide Valid, Sane, IsMerge, MergedView;
    KnowsItself(v, self);
    views := [v];
    if gossip != [] {
      var front, last := gossip[..|gossip| - 1], gossip[|gossip| - 1];
      assert gossip == front + [last];
      views := MergedIsGossiped(v, self, front);
      var w := MergedView(views[|front|], self, last);
      MergeIsUnique(views[|front|], self, last, w);
      var more := views + [w];
      forall i | 0 <= i < |gossip| ensures Sane(gossip[i]) && IsMerge(more[i], self, gossip[i], more[i + 1]) {
        if i < |front| {
          assert gossip[i] == front[i] && more[i] == views[i] && more[i + 1] == views[i + 1];
        }
      }
      views := more;
    }
  }

  /** All orders of the gossip leave the process with the same rank. */
  ghost predicate AnyOrder(v: View, self: Id, gossip: seq<View>, id: Id)
    requires Valid(v, self)
  {
    forall other: seq<View> | multiset(other) == multiset(gossip) ::
      Rank(Find(MergeAll(v, self, other), id)) == Rank(Find(MergeAll(v, self, gossip), id))
  }

  ghost predicate SameNews(a: seq<View>, b: seq<View>) {
    forall g :: g in a <==> g in b
  }

  /** And so does hearing each of them any number of times, but at least once. */
  ghost predicate AnyRepetition(v: View, self: Id, gossip: seq<View>, id: Id)
    requires Valid(v, self)
  {
    forall other: seq<View> | SameNews(other, gossip) ::
      Rank(Find(MergeAll(v, self, other), id)) == Rank(Find(MergeAll(v, self, gossip), id))
  }

  lemma SameMembers(a: seq<View>, b: seq<View>)
    requires multiset(a) == multiset(b)
    ensures SameNews(a, b)
  {
    forall g ensures g in a <==> g in b {
      assert g in multiset(a) <==> g in a;
      assert g in multiset(b) <==> g in b;
    }
  }

  /** The gossips with a property, or those without it. */
  function Only(gossip: seq<View>, p: View -> bool, want: bool): seq<View> {
    if gossip == [] then []
    else
      var front, last := Only(gossip[..|gossip| - 1], p, want), gossip[|gossip| - 1];
      if p(last) == want then front + [last] else front
  }

  lemma {:induction false} OnlyParts(gossip: seq<View>, p: View -> bool)
    ensures forall g | g in Only(gossip, p, true) :: p(g)
    ensures forall g | g in Only(gossip, p, false) :: !p(g)
    ensures multiset(Only(gossip, p, false) + Only(gossip, p, true)) == multiset(gossip)
    ensures multiset(Only(gossip, p, true) + Only(gossip, p, false)) == multiset(gossip)
  {
    if gossip != [] {
      var front, last := gossip[..|gossip| - 1], gossip[|gossip| - 1];
      assert gossip == front + [last];
      OnlyParts(front, p);
    }
  }

  // ---------------------------------------------------------------- a process known before

  /** After any gossip, a process known at the beginning has the greatest rank heard. */
  lemma {:induction false} GossipIsMaximum(self: Id, views: seq<View>, gossip: seq<View>, k: nat, id: Id)
    requires Gossiped(self, views, gossip) && k <= |gossip| && id != self && Find(views[0], id) != Unknown
    ensures Find(views[k], id) != Unknown
    ensures Rank(Find(views[k], id)) >= Rank(Find(views[0], id))
    ensures forall i | 0 <= i < k :: Rank(Find(views[k], id)) >= Rank(Find(gossip[i], id))
    ensures Rank(Find(views[k], id)) == Rank(Find(views[0], id))
      || exists i :: 0 <= i < k && Rank(Find(views[k], id)) == Rank(Find(gossip[i], id))
  {
    hide Rank, Find, Merged, Sane;
    if k > 0 {
      GossipIsMaximum(self, views, gossip, k - 1, id);
      GossipKeepsValid(self, views, gossip, k - 1);
      assert Sane(gossip[k - 1]) && IsMerge(views[k - 1], self, gossip[k - 1], views[k - 1 + 1]);
      MergeIsJoin(views[k - 1], self, gossip[k - 1], id);
    }
  }

  lemma SizeOf(self: Id, views: seq<View>, gossip: seq<View>)
    requires Gossiped(self, views, gossip)
    ensures |views| == |gossip| + 1
  {
  }

  /** Two members that start from the same rank and hear the same gossip, in any order and any number of
      times each, end with the same rank. */
  lemma GossipOrderIrrelevant(self: Id, views: seq<View>, gossip: seq<View>,
                              self': Id, views': seq<View>, gossip': seq<View>, id: Id)
    requires Gossiped(self, views, gossip) && Gossiped(self', views', gossip') && id != self && id != self'
    requires Find(views[0], id) != Unknown && Find(views'[0], id) != Unknown
    requires Rank(Find(views[0], id)) == Rank(Find(views'[0], id))
    requires forall g :: g in gossip <==> g in gossip'
    ensures Rank(Find(views[|gossip|], id)) == Rank(Find(views'[|gossip'|], id))
  {
    hide Gossiped, Rank, Find;
    GossipIsMaximum(self, views, gossip, |gossip|, id);
    GossipIsMaximum(self', views', gossip', |gossip'|, id);
    SizeOf(self, views, gossip);
    SizeOf(self', views', gossip');
    forall i | 0 <= i < |gossip| ensures Rank(Find(views'[|gossip'|], id)) >= Rank(Find(gossip[i], id)) {
      assert gossip[i] in gossip';
      var j :| 0 <= j < |gossip'| && gossip'[j] == gossip[i];
    }
    forall i | 0 <= i < |gossip'| ensures Rank(Find(views[|gossip|], id)) >= Rank(Find(gossip'[i], id)) {
      assert gossip'[i] in gossip;
      var j :| 0 <= j < |gossip| && gossip[j] == gossip'[i];
    }
  }

  // ---------------------------------------------------------------- a process not known before

  /** The rank of a process not known before, after this gossip: none until the first that shows it,
      from then on the greatest. */
  function HeardRank(gossip: seq<View>, id: Id): int {
    if gossip == [] then 0
    else
      var before, last := HeardRank(gossip[..|gossip| - 1], id), gossip[|gossip| - 1];
      if before == 0 && !Shows(last, id) then 0 else Greater(before, Rank(Find(last, id)))
  }

  lemma UnknownRank()
    ensures Rank(Unknown) == 0
  {
  }

  lemma ShownRank(g: View, id: Id)
    requires Sane(g)
    ensures Rank(Find(g, id)) >= 0 && (Shows(g, id) ==> Rank(Find(g, id)) > 0 && Find(g, id) != Unknown)
  {
    EntryRank(g, id);
  }

  lemma {:induction false} RankHeard(self: Id, views: seq<View>, gossip: seq<View>, k: nat, id: Id)
    requires Gossiped(self, views, gossip) && k <= |gossip| && id != self && Find(views[0], id) == Unknown
    ensures Rank(Find(views[k], id)) == HeardRank(gossip[..k], id)
    ensures HeardRank(gossip[..k], id) >= 0
    ensures Find(views[k], id) == Unknown <==> HeardRank(gossip[..k], id) == 0
  {
    hide Rank, Find, IsMerge, Sane, Valid, Shows;
    if k == 0 {
      assert Rank(Unknown) == 0 by { UnknownRank(); }
    } else {
      var last := gossip[k - 1];
      RankHeard(self, views, gossip, k - 1, id);
      GossipKeepsValid(self, views, gossip, k - 1);
      assert Sane(last) && IsMerge(views[k - 1], self, last, views[k - 1 + 1]);
      UnknownOrJoin(views[k - 1], self, last, views[k], id);
      ShownRank(last, id);
      UnknownRank();
      assert gossip[..k][..k - 1] == gossip[..k - 1];
    }
  }

  lemma {:induction false} HeardNothing(gossip: seq<View>, id: Id)
    requires forall g | g in gossip :: Sane(g)
    ensures HeardRank(gossip, id) >= 0
    ensures HeardRank(gossip, id) == 0 <==> forall g | g in gossip :: !Shows(g, id)
  {
    hide Sane, Shows, Find, Rank;
    if gossip != [] {
      var front, last := gossip[..|gossip| - 1], gossip[|gossip| - 1];
      assert gossip == front + [last];
      HeardNothing(front, id);
      ShownRank(last, id);
    }
  }

  /** Once shown, a process has exactly the greatest rank heard from the first gossip that shows it. */
  lemma {:induction false} HeardFromFirst(gossip: seq<View>, id: Id) returns (first: nat, best: nat)
    requires (forall g | g in gossip :: Sane(g)) && exists g :: g in gossip && Shows(g, id)
    ensures first <= best < |gossip| && Shows(gossip[first], id)
    ensures forall i | 0 <= i < first :: !Shows(gossip[i], id)
    ensures forall i | first <= i < |gossip| :: Rank(Find(gossip[i], id)) <= HeardRank(gossip, id)
    ensures HeardRank(gossip, id) == Rank(Find(gossip[best], id))
    decreases |gossip|
  {
    hide Sane, Shows, Find, Rank;
    var front, last := gossip[..|gossip| - 1], gossip[|gossip| - 1];
    assert gossip == front + [last];
    HeardNothing(front, id);
    ShownRank(last, id);
    first, best := |front|, |front|;
    if g :| g in front && Shows(g, id) {
      first, best := HeardFromFirst(front, id);
      if Rank(Find(last, id)) > HeardRank(front, id) { best := |front|; }
    } else {
      forall i | 0 <= i < first ensures !Shows(gossip[i], id) { assert gossip[i] in front; }
    }
  }

  ghost predicate NotOutranked(gossip: seq<View>, id: Id, b: View) {
    forall g | g in gossip :: Rank(Find(g, id)) <= Rank(Find(b, id))
  }

  /** Nobody shows the process, or a gossip that shows it is not outranked by any. */
  ghost predicate BestShown(gossip: seq<View>, id: Id) {
    || (forall g | g in gossip :: !Shows(g, id))
    || exists b :: b in gossip && Shows(b, id) && NotOutranked(gossip, id, b)
  }

  lemma HeardIsBest(gossip: seq<View>, id: Id, b: View)
    requires (forall g | g in gossip :: Sane(g)) && b in gossip && Shows(b, id) && NotOutranked(gossip, id, b)
    ensures HeardRank(gossip, id) == Rank(Find(b, id))
  {
    hide Sane, Shows, Find, Rank, HeardRank;
    var first, best := HeardFromFirst(gossip, id);
    var i :| 0 <= i < |gossip| && gossip[i] == b;
    assert first <= i;
    assert gossip[best] in gossip;
  }

  /** The best-ranked report that also shows the process decides, whatever the order and the repetitions. */
  lemma BestShownDecides(gossip: seq<View>, other: seq<View>, id: Id)
    requires AllSane(gossip) && BestShown(gossip, id) && SameNews(other, gossip)
    ensures HeardRank(other, id) == HeardRank(gossip, id)
  {
    hide Sane, Shows, Find, Rank, HeardRank;
    HeardNothing(gossip, id);
    HeardNothing(other, id);
    if b :| b in gossip && Shows(b, id) && NotOutranked(gossip, id, b) {
      HeardIsBest(gossip, id, b);
      HeardIsBest(other, id, b);
    }
  }

  lemma LateIsShown(hidden: seq<View>, shown: seq<View>, id: Id, first: nat, late: nat)
    requires first <= late < |hidden + shown| && Shows((hidden + shown)[first], id)
    requires forall g | g in hidden :: !Shows(g, id)
    ensures (hidden + shown)[late] in shown
  {
    assert forall i | 0 <= i < |hidden| :: (hidden + shown)[i] == hidden[i] && hidden[i] in hidden;
    assert first >= |hidden|;
    assert (hidden + shown)[late] == shown[late - |hidden|];
  }

  lemma AllBelowBest(gossip: seq<View>, other: seq<View>, id: Id, b: View)
    requires forall g | g in gossip :: g in other
    requires forall i | 0 <= i < |other| :: Rank(Find(other[i], id)) <= Rank(Find(b, id))
    ensures NotOutranked(gossip, id, b)
  {
    forall g | g in gossip ensures Rank(Find(g, id)) <= Rank(Find(b, id)) {
      assert g in other;
    }
  }

  /** Hearing those that show the process last and hearing them first can only agree on the best of all. */
  lemma TwoOrdersAgree(gossip: seq<View>, id: Id)
    requires AllSane(gossip) && exists g :: g in gossip && Shows(g, id)
    requires forall other: seq<View> | multiset(other) == multiset(gossip) ::
      HeardRank(other, id) == HeardRank(gossip, id)
    ensures BestShown(gossip, id)
  {
    hide Sane, Shows, Find, Rank, HeardRank, NotOutranked;
    var shows := (g: View) => Shows(g, id);
    var shown, hidden := Only(gossip, shows, true), Only(gossip, shows, false);
    OnlyParts(gossip, shows);
    SameMembers(gossip, hidden + shown);
    SameMembers(gossip, shown + hidden);
    var first, late := HeardFromFirst(hidden + shown, id);
    var zero, early := HeardFromFirst(shown + hidden, id);
    LateIsShown(hidden, shown, id, first, late);
    assert zero == 0 by { assert (shown + hidden)[0] == shown[0] && shown[0] in shown; }
    AllBelowBest(gossip, shown + hidden, id, (hidden + shown)[late]);
  }

  lemma MergedRank(v: View, self: Id, gossip: seq<View>, id: Id)
    requires Valid(v, self) && AllSane(gossip) && id != self && Find(v, id) == Unknown
    ensures Rank(Find(MergeAll(v, self, gossip), id)) == HeardRank(gossip, id)
  {
    hide Valid, Sane, Gossiped, MergeAll, Rank, Find;
    var views := MergedIsGossiped(v, self, gossip);
    RankHeard(self, views, gossip, |gossip|, id);
    assert gossip[..|gossip|] == gossip;
  }

  /** For a process not known before, all orders of the same gossip, and all repetitions of it, give the same rank
      if and only if nobody shows it or the best-ranked report of it also shows it; otherwise a departure heard
      too early is forgotten. */
  lemma EveryOrderAgrees(v: View, self: Id, gossip: seq<View>, id: Id)
    requires Valid(v, self) && AllSane(gossip) && id != self && Find(v, id) == Unknown
    ensures AnyOrder(v, self, gossip, id) <==> BestShown(gossip, id)
    ensures AnyRepetition(v, self, gossip, id) <==> BestShown(gossip, id)
  {
    hide Valid, Sane, Find, Rank, HeardRank, MergeAll, NotOutranked;
    KnowsItself(v, self);
    MergedRank(v, self, gossip, id);
    forall other: seq<View> | SameNews(other, gossip)
      ensures Rank(Find(MergeAll(v, self, other), id)) == HeardRank(other, id)
      ensures BestShown(gossip, id) ==> HeardRank(other, id) == HeardRank(gossip, id)
    {
      MergedRank(v, self, other, id);
      if BestShown(gossip, id) { BestShownDecides(gossip, other, id); }
    }
    forall other: seq<View> | multiset(other) == multiset(gossip) ensures SameNews(other, gossip) {
      SameMembers(other, gossip);
    }
    if AnyOrder(v, self, gossip, id) && exists g :: g in gossip && Shows(g, id) {
      TwoOrdersAgree(gossip, id);
    }
  }

  /** The case of two gossips, for every process but the member itself. */
  lemma OrderMattersExactly(v: View, self: Id, a: View, b: View, va: View, vab: View, vb: View, vba: View, id: Id)
    requires Valid(v, self) && Sane(a) && Sane(b) && id != self
    requires IsMerge(v, self, a, va) && IsMerge(va, self, b, vab)
    requires IsMerge(v, self, b, vb) && IsMerge(vb, self, a, vba)
    ensures Rank(Find(vab, id)) == Rank(Find(vba, id)) <==>
      || Find(v, id) != Unknown
      || Shows(a, id) == Shows(b, id)
      || (Shows(a, id) && Rank(Find(b, id)) <= Rank(Find(a, id)))
      || (Shows(b, id) && Rank(Find(a, id)) <= Rank(Find(b, id)))
  {
    hide Merged, Valid, IsMerge, Sane;
    MergeKeepsValid(v, self, a, va);
    MergeKeepsValid(v, self, b, vb);
    UnknownOrJoin(v, self, a, va, id);
    UnknownOrJoin(v, self, b, vb, id);
    UnknownOrJoin(va, self, b, vab, id);
    UnknownOrJoin(vb, self, a, vba, id);
    EntryRank(a, id);
    EntryRank(b, id);
  }

  /** The entries after two merges in a row. */
  lemma TwoMerges(v: View, self: Id, a: View, b: View, id: Id)
    requires Valid(v, self) && Sane(a) && Sane(b)
    ensures var w := MergedView(v, self, a);
      && self in w.active && Find(w, self) == Merged(v, self, a, self)
      && Find(w, id) == Merged(v, self, a, id) && Find(MergedView(w, self, b), id) == Merged(w, self, b, id)
  {
    hide Merged, Valid, Sane, MergedView;
    KnowsItself(v, self);
    var w := MergedView(v, self, a);
    MergeIsUnique(v, self, a, w);
    MergeOfSelf(v, self, a);
    assert Find(w, self).Active?;
    MergeIsUnique(w, self, b, MergedView(w, self, b));
  }

  /** It can matter: "x left at version 3" before "x is active at version 2" leaves x active,
      the other order does not. */
  lemma DepartureForgotten()
    ensures var v, left := View(map["me" := 1], map[]), View(map["you" := 1], map["x" := -3]);
      var seen := View(map["x" := 2, "you" := 1], map[]);
      var va, vb := MergedView(v, "me", left), MergedView(v, "me", seen);
      && "me" in va.active && "me" in vb.active
      && Find(va, "x") == Unknown && Find(vb, "x") == Active(2)
      && Find(MergedView(va, "me", seen), "x") == Active(2) && Find(MergedView(vb, "me", left), "x") == Suspect(-3)
  {
    var v, left := View(map["me" := 1], map[]), View(map["you" := 1], map["x" := -3]);
    var seen := View(map["x" := 2, "you" := 1], map[]);
    TwoMerges(v, "me", left, seen, "x");
    TwoMerges(v, "me", seen, left, "x");
  }

  // ---------------------------------------------------------------- the member itself

  /** Its own version after one gossip: a suspicion raises it by one, a report of a higher one to that. */
  function OwnStep(n: int, self: Id, g: View): int {
    var m := if self in g.suspect then n + 1 else n;
    if self in g.active && m < g.active[self] then g.active[self] else m
  }

  function OwnAfter(n: int, self: Id, gossip: seq<View>): int {
    if gossip == [] then n else OwnStep(OwnAfter(n, self, gossip[..|gossip| - 1]), self, gossip[|gossip| - 1])
  }

  function OwnStart(v: View, self: Id): int {
    if self in v.active then v.active[self] else 1
  }

  lemma OwnMerged(v: View, self: Id, g: View)
    requires v.active != map[] ==> self in v.active
    ensures Find(MergedView(v, self, g), self) == Active(OwnStep(OwnStart(v, self), self, g))
  {
    hide MergedView;
    MergeIsUnique(v, self, g, MergedView(v, self, g));
    assert Find(MergedView(v, self, g), self) == Merged(v, self, g, self);
  }

  /** The member's own entry after any gossip, from its version at the beginning and the gossip alone. */
  lemma {:induction false} OwnVersion(v: View, self: Id, gossip: seq<View>)
    requires v.active != map[] ==> self in v.active
    ensures gossip != [] || self in v.active ==>
      Find(MergeAll(v, self, gossip), self) == Active(OwnAfter(OwnStart(v, self), self, gossip))
    ensures OwnStart(MergeAll(v, self, gossip), self) == OwnAfter(OwnStart(v, self), self, gossip)
  {
    hide MergedView, OwnStep;
    if gossip != [] {
      var front, last := gossip[..|gossip| - 1], gossip[|gossip| - 1];
      OwnVersion(v, self, front);
      OwnMerged(MergeAll(v, self, front), self, last);
    }
  }

  ghost predicate NobodySuspects(gossip: seq<View>, self: Id) {
    forall g | g in gossip :: self !in g.suspect
  }

  /** No gossip reports the member active with a version above `n`. */
  ghost predicate NothingAbove(gossip: seq<View>, self: Id, n: int) {
    forall g | g in gossip && self in g.active :: g.active[self] <= n
  }

  lemma {:induction false} OwnJoin(n: int, self: Id, a: seq<View>, b: seq<View>)
    ensures OwnAfter(n, self, a + b) == OwnAfter(OwnAfter(n, self, a), self, b)
  {
    if b == [] {
      assert a + b == a;
    } else {
      OwnJoin(n, self, a, b[..|b| - 1]);
      assert (a + b)[..|a + b| - 1] == a + b[..|b| - 1];
    }
  }

  /** Without suspicions the version is the greatest reported, or unchanged. */
  lemma {:induction false} CalmOwn(n: int, self: Id, gossip: seq<View>)
    requires NobodySuspects(gossip, self)
    ensures OwnAfter(n, self, gossip) >= n && NothingAbove(gossip, self, OwnAfter(n, self, gossip))
    ensures OwnAfter(n, self, gossip) == n
      || exists g :: g in gossip && self in g.active && g.active[self] == OwnAfter(n, self, gossip)
  {
    if gossip != [] {
      var front, last := gossip[..|gossip| - 1], gossip[|gossip| - 1];
      assert gossip == front + [last];
      CalmOwn(n, self, front);
    }
  }

  function Suspicions(self: Id, gossip: seq<View>): nat {
    if gossip == [] then 0
    else Suspicions(self, gossip[..|gossip| - 1]) + if self in gossip[|gossip| - 1].suspect then 1 else 0
  }

  lemma {:induction false} SuspicionsJoin(self: Id, a: seq<View>, b: seq<View>)
    ensures Suspicions(self, a + b) == Suspicions(self, a) + Suspicions(self, b)
  {
    if b == [] {
      assert a + b == a;
    } else {
      SuspicionsJoin(self, a, b[..|b| - 1]);
      assert (a + b)[..|a + b| - 1] == a + b[..|b| - 1];
    }
  }

  lemma WithoutOne(self: Id, a: seq<View>, i: nat)
    requires i < |a|
    ensures var rest := a[..i] + a[i + 1..];
      && multiset(rest) == multiset(a) - multiset{a[i]} && |rest| < |a|
      && Suspicions(self, a) == Suspicions(self, rest) + Suspicions(self, [a[i]])
  {
    hide Suspicions;
    var one, two := a[..i], a[i + 1..];
    assert a == one + [a[i]] + two;
    SuspicionsJoin(self, one + [a[i]], two);
    SuspicionsJoin(self, one, [a[i]]);
    SuspicionsJoin(self, one, two);
  }

  /** How often the member is suspected does not depend on the order. */
  lemma {:induction false} SuspicionsSame(self: Id, a: seq<View>, b: seq<View>)
    requires multiset(a) == multiset(b)
    ensures Suspicions(self, a) == Suspicions(self, b)
    decreases |a|
  {
    if a == [] {
      assert |multiset(b)| == |b|;
    } else {
      var k, last := |a| - 1, a[|a| - 1];
      SameMembers(a, b);
      assert last in a && last in b;
      var i :| 0 <= i < |b| && b[i] == last;
      WithoutOne(self, a, k);
      WithoutOne(self, b, i);
      SuspicionsSame(self, a[..k] + a[k + 1..], b[..i] + b[i + 1..]);
    }
  }

  /** When nobody reports a higher version, each suspicion counts. */
  lemma {:induction false} LowOwn(n: int, self: Id, gossip: seq<View>)
    requires NothingAbove(gossip, self, n)
    ensures OwnAfter(n, self, gossip) == n + Suspicions(self, gossip)
  {
    if gossip != [] {
      var front, last := gossip[..|gossip| - 1], gossip[|gossip| - 1];
      assert gossip == front + [last];
      LowOwn(n, self, front);
    }
  }

  lemma {:induction false} AllSuspect(self: Id, gossip: seq<View>)
    requires forall g | g in gossip :: self in g.suspect
    ensures Suspicions(self, gossip) == |gossip|
  {
    if gossip != [] {
      assert gossip == gossip[..|gossip| - 1] + [gossip[|gossip| - 1]];
      AllSuspect(self, gossip[..|gossip| - 1]);
    }
  }

  ghost predicate OwnAnyOrder(n: int, self: Id, gossip: seq<View>) {
    forall other: seq<View> | multiset(other) == multiset(gossip) ::
      OwnAfter(n, self, other) == OwnAfter(n, self, gossip)
  }

  lemma SaneApart(g: View, id: Id)
    requires Sane(g) && id in g.suspect
    ensures id !in g.active
  {
  }

  lemma LoudAfterQuiet(n: int, self: Id, gossip: seq<View>, quiet: seq<View>, loud: seq<View>)
    requires AllSane(gossip) && SameNews(gossip, quiet + loud)
    requires (forall g | g in quiet :: self !in g.suspect) && forall g | g in loud :: self in g.suspect
    requires !NobodySuspects(gossip, self) && !NothingAbove(gossip, self, n)
    ensures OwnAfter(n, self, quiet + loud) > OwnAfter(n, self, loud + quiet)
  {
    hide Sane, OwnAfter, Suspicions;
    forall g | g in loud ensures self !in g.active { assert g in quiet + loud; SaneApart(g, self); }
    var high :| high in gossip && self in high.active && high.active[self] > n;
    assert high in quiet + loud;
    var some :| some in gossip && self in some.suspect;
    assert some in quiet + loud;
    var top := OwnAfter(n, self, quiet);
    AllSuspect(self, loud);
    CalmOwn(n, self, quiet);
    CalmOwn(n + |loud|, self, quiet);
    OwnJoin(n, self, quiet, loud);
    OwnJoin(n, self, loud, quiet);
    LowOwn(top, self, loud);
    LowOwn(n, self, loud);
  }

  /** With a suspicion and a higher report, suspicions heard last all count, and heard first they do not. */
  lemma TwoOwnOrdersDiffer(n: int, self: Id, gossip: seq<View>)
    requires AllSane(gossip) && !NobodySuspects(gossip, self) && !NothingAbove(gossip, self, n)
    ensures !OwnAnyOrder(n, self, gossip)
  {
    hide Sane, OwnAfter, Only, NobodySuspects, NothingAbove;
    var suspects := (g: View) => self in g.suspect;
    var quiet, loud := Only(gossip, suspects, false), Only(gossip, suspects, true);
    OnlyParts(gossip, suspects);
    SameMembers(gossip, quiet + loud);
    LoudAfterQuiet(n, self, gossip, quiet, loud);
  }

  lemma OwnOrderExactly(n: int, self: Id, gossip: seq<View>)
    requires AllSane(gossip)
    ensures OwnAnyOrder(n, self, gossip) <==> NobodySuspects(gossip, self) || NothingAbove(gossip, self, n)
  {
    hide AllSane, OwnAfter, Suspicions;
    if !NobodySuspects(gossip, self) && !NothingAbove(gossip, self, n) {
      TwoOwnOrdersDiffer(n, self, gossip);
    }
    forall other: seq<View> | multiset(other) == multiset(gossip)
      ensures NobodySuspects(gossip, self) || NothingAbove(gossip, self, n) ==>
        OwnAfter(n, self, other) == OwnAfter(n, self, gossip)
    {
      SameMembers(other, gossip);
      if NobodySuspects(gossip, self) {
        CalmOwn(n, self, gossip);
        CalmOwn(n, self, other);
      } else if NothingAbove(gossip, self, n) {
        LowOwn(n, self, gossip);
        LowOwn(n, self, other);
        SuspicionsSame(self, gossip, other);
      }
    }
  }

  lemma {:induction false} OwnNeverFalls(n: int, self: Id, gossip: seq<View>)
    ensures OwnAfter(n, self, gossip) >= n
  {
    if gossip != [] { OwnNeverFalls(n, self, gossip[..|gossip| - 1]); }
  }

  lemma OwnStartsAtOne(v: View, self: Id)
    requires Valid(v, self)
    ensures OwnStart(v, self) >= 1
  {
  }

  /** For the member itself, all orders of the gossip give the same version if and only if nobody suspects it or
      nobody reports it active with a version above its own. */
  lemma OwnEveryOrderAgrees(v: View, self: Id, gossip: seq<View>)
    requires Valid(v, self) && AllSane(gossip)
    ensures AnyOrder(v, self, gossip, self) <==>
      NobodySuspects(gossip, self) || NothingAbove(gossip, self, OwnStart(v, self))
  {
    hide AllSane, Sane, MergeAll, NobodySuspects, NothingAbove, OwnAfter;
    var n := OwnStart(v, self);
    OwnOrderExactly(n, self, gossip);
    assert n >= 1 by { OwnStartsAtOne(v, self); }
    forall other: seq<View> | multiset(other) == multiset(gossip)
      ensures Rank(Find(MergeAll(v, self, other), self)) == Rank(Find(MergeAll(v, self, gossip), self)) <==>
        OwnAfter(n, self, other) == OwnAfter(n, self, gossip)
    {
      SameMembers(other, gossip);
      assert |multiset(other)| == |other| && |multiset(gossip)| == |gossip|;
      if gossip != [] {
        OwnVersion(v, self, other);
        OwnVersion(v, self, gossip);
        OwnNeverFalls(n, self, other);
        OwnNeverFalls(n, self, gossip);
      }
    }
  }

  lemma OwnAfterTwo(n: int, self: Id, a: View, b: View)
    ensures OwnAfter(n, self, [a, b]) == OwnStep(OwnStep(n, self, a), self, b)
  {
    hide OwnStep;
    assert [a, b][..1] == [a] && [a][..0] == [];
    assert OwnAfter(n, self, [a]) == OwnStep(n, self, a);
  }

  /** An instance: a suspicion raises version 5 to 6 when heard after "active at 5", and is overtaken by it when
      heard before. */
  lemma OwnRankDependsOnOrder()
    ensures var v, active := View(map["me" := 1], map[]), View(map["me" := 5], map[]);
      var suspected := View(map["you" := 1], map["me" := 1]);
      && Find(MergeAll(v, "me", [active, suspected]), "me") == Active(6)
      && Find(MergeAll(v, "me", [suspected, active]), "me") == Active(5)
      && !AnyOrder(v, "me", [active, suspected], "me")
  {
    hide MergeAll;
    var v, active := View(map["me" := 1], map[]), View(map["me" := 5], map[]);
    var suspected := View(map["you" := 1], map["me" := 1]);
    OwnVersion(v, "me", [active, suspected]);
    OwnVersion(v, "me", [suspected, active]);
    OwnAfterTwo(1, "me", active, suspected);
    OwnAfterTwo(1, "me", suspected, active);
    OwnEveryOrderAgrees(v, "me", [active, suspected]);
    assert active in [active, suspected] && suspected in [active, suspected];
  }

  // ---------------------------------------------------------------- all together

  lemma KnownInAnyOrder(v: View, self: Id, other: seq<View>, gossip: seq<View>, id: Id)
    requires Valid(v, self) && AllSane(gossip) && multiset(other) == multiset(gossip)
    requires id != self && Find(v, id) != Unknown
    ensures Rank(Find(MergeAll(v, self, other), id)) == Rank(Find(MergeAll(v, self, gossip), id))
  {
    hide Valid, Sane, Gossiped, MergeAll, Rank, Find;
    SameMembers(other, gossip);
    var views := MergedIsGossiped(v, self, gossip);
    var views' := MergedIsGossiped(v, self, other);
    GossipOrderIrrelevant(self, views, gossip, self, views', other, id);
  }

  /** When the order of gossip does not matter for what a member believes of a process. */
  lemma OrderIrrelevantExactly(v: View, self: Id, gossip: seq<View>, id: Id)
    requires Valid(v, self) && AllSane(gossip)
    ensures AnyOrder(v, self, gossip, id) <==>
      if id == self then NobodySuspects(gossip, self) || NothingAbove(gossip, self, OwnStart(v, self))
      else Find(v, id) != Unknown || BestShown(gossip, id)
  {
    hide Valid, AllSane, MergeAll, Rank, Find, BestShown, NobodySuspects, NothingAbove;
    KnowsItself(v, self);
    if id == self {
      OwnEveryOrderAgrees(v, self, gossip);
    } else if Find(v, id) == Unknown {
      EveryOrderAgrees(v, self, gossip, id);
    } else {
      forall other: seq<View> | multiset(other) == multiset(gossip)
        ensures Rank(Find(MergeAll(v, self, other), id)) == Rank(Find(MergeAll(v, self, gossip), id))
      {
        KnownInAnyOrder(v, self, other, gossip, id);
      }
    }
  }
}
