/** While the membership is stable, requests made through any nodes behave as one sequential map. */
module StableStore {
  import opened Options
  import opened RingSpec
  import opened RingNode
  import opened Rebalance

  /** What a client asks of the node `from`. */
  datatype Call = Call(from: Key, q: Request)

  /** A request on its way from the node that was asked to the responsible node `to`. */
  datatype Asked = Asked(id: nat, to: Key, call: Call)

  datatype Done = Done(id: nat, call: Call, answer: Value)

  /** `calls` are the requests made, `history` those served, in that order; `replies` are on their way back to the
      nodes that were asked, and `answers` have been shown to the clients. */
  datatype Store = Store(nodes: map<Key, Node>, calls: map<nat, Call>, asked: set<Asked>, history: seq<Done>,
                         replies: set<Done>, answers: map<nat, Value>)

  datatype Action = Ask(id: nat, call: Call) | Serve(r: Asked) | Show(reply: Done)

  ghost predicate CanAct(g: Store, s: Action) {
    match s
    case Ask(id, call) => id !in g.calls && call.from in g.nodes && g.nodes[call.from].ring != []
    case Serve(r) => r in g.asked && r.to in g.nodes
    case Show(reply) => reply in g.replies && reply.call.from in g.nodes
  }

  ghost function Act(h: Key -> nat, g: Store, s: Action): Store
    requires CanAct(g, s)
  {
    match s
    case Ask(id, call) =>
      g.(calls := g.calls[id := call],
         asked := g.asked + {Asked(id, Closest(h, g.nodes[call.from].ring, call.q.key), call)})
    case Serve(r) =>
      var x := g.nodes[r.to];
      var done := Done(r.id, r.call, Answer(x.data, r.call.q));
      g.(nodes := g.nodes[r.to := x.(data := Perform(x.data, r.call.q))], asked := g.asked - {r},
         history := g.history + [done], replies := g.replies + {done})
    case Show(reply) =>
      g.(replies := g.replies - {reply}, answers := g.answers[reply.id := reply.answer])
  }

  /** The nodes hold the records `all`, each its own part: a new store with none, or one just rebalanced. */
  function Opening(h: Key -> nat, d: seq<Entry>, all: Data): Store
    requires d != []
  {
    Store(map p | p in Members(d) :: Node(p, d, Part(h, d, all, p)), map[], {}, [], {}, map[])
  }

  ghost predicate IsStableRun(h: Key -> nat, d: seq<Entry>, all: Data, run: seq<Store>, acts: seq<Action>)
    requires d != []
  {
    && |run| == |acts| + 1 && run[0] == Opening(h, d, all)
    && forall k | 0 <= k < |acts| :: CanAct(run[k], acts[k]) && run[k + 1] == Act(h, run[k], acts[k])
  }

  // ---------------------------------------------------------------- one map

  /** The one map, at first `all`, after the requests of `history`, served one after the other. */
  function Replay(all: Data, history: seq<Done>): Data {
    if history == [] then all else Perform(Replay(all, history[..|history| - 1]), history[|history| - 1].call.q)
  }

  /** Every answer is the one map's answer at its place in the history. */
  ghost predicate Sequential(all: Data, history: seq<Done>) {
    forall i | 0 <= i < |history| :: history[i].answer == Answer(Replay(all, history[..i]), history[i].call.q)
  }

  /** The nodes hold the one map, each the part it is responsible for. */
  ghost predicate Holds(h: Key -> nat, d: seq<Entry>, all: Data, g: Store)
    requires d != []
  {
    && g.nodes.Keys == Members(d)
    && (forall p | p in g.nodes :: g.nodes[p].ring == d && g.nodes[p].data == Part(h, d, Replay(all, g.history), p))
    && (forall r | r in g.asked :: r.to == Closest(h, d, r.call.q.key))
    && Sequential(all, g.history)
  }

  lemma PerformAtOwner(h: Key -> nat, d: seq<Entry>, all: Data, q: Request, p: Key)
    requires d != []
    ensures Closest(h, d, q.key) == p ==>
      && Perform(Part(h, d, all, p), q) == Part(h, d, Perform(all, q), p)
      && Answer(Part(h, d, all, p), q) == Answer(all, q)
    ensures Closest(h, d, q.key) != p ==> Part(h, d, Perform(all, q), p) == Part(h, d, all, p)
  {
    hide Closest;
  }

  lemma SequentialMore(all: Data, history: seq<Done>, e: Done)
    requires Sequential(all, history) && e.answer == Answer(Replay(all, history), e.call.q)
    ensures Sequential(all, history + [e]) && Replay(all, history + [e]) == Perform(Replay(all, history), e.call.q)
  {
    hide Answer, Perform;
    var more := history + [e];
    assert more[..|history|] == history;
    forall i | 0 <= i < |more| ensures more[i].answer == Answer(Replay(all, more[..i]), more[i].call.q) {
      if i < |history| { assert more[..i] == history[..i]; }
    }
  }

  lemma AskKeeps(h: Key -> nat, d: seq<Entry>, all: Data, g: Store, s: Action)
    requires d != [] && Holds(h, d, all, g) && s.Ask? && CanAct(g, s)
    ensures Holds(h, d, all, Act(h, g, s))
  {
    hide Closest, Part, Sequential, Replay;
  }

  lemma ServeKeeps(h: Key -> nat, d: seq<Entry>, all: Data, g: Store, s: Action)
    requires d != [] && Holds(h, d, all, g) && s.Serve? && CanAct(g, s)
    ensures Holds(h, d, all, Act(h, g, s))
  {
    hide Closest, Part, Sequential, Perform, Answer, Replay, Members;
    var r, g', now := s.r, Act(h, g, s), Replay(all, g.history);
    var e := Done(r.id, r.call, Answer(g.nodes[r.to].data, r.call.q));
    PerformAtOwner(h, d, now, r.call.q, r.to);
    SequentialMore(all, g.history, e);
    forall p | p in g'.nodes
      ensures g'.nodes[p].ring == d && g'.nodes[p].data == Part(h, d, Replay(all, g'.history), p)
    {
      PerformAtOwner(h, d, now, r.call.q, p);
    }
    assert g'.nodes.Keys == g.nodes.Keys;
  }

  lemma ShowKeeps(h: Key -> nat, d: seq<Entry>, all: Data, g: Store, s: Action)
    requires d != [] && Holds(h, d, all, g) && s.Show? && CanAct(g, s)
    ensures Holds(h, d, all, Act(h, g, s))
  {
    hide Closest, Part, Sequential, Replay, Members;
  }

  lemma HoldsMeansSequential(h: Key -> nat, d: seq<Entry>, all: Data, g: Store)
    requires d != [] && Holds(h, d, all, g)
    ensures Sequential(all, g.history)
  {
  }

  /** In every run the answers are those of one sequential map, given in the order the requests were served,
      and the nodes hold exactly that map. */
  lemma {:induction false} OneSequentialMap(h: Key -> nat, d: seq<Entry>, all: Data,
                                            run: seq<Store>, acts: seq<Action>, k: nat)
    requires d != [] && IsStableRun(h, d, all, run, acts) && k < |run|
    ensures Sequential(all, run[k].history) && Holds(h, d, all, run[k])
    ensures k > 0 ==> run[k - 1].history <= run[k].history
  {
    if k > 0 {
      hide Holds, Sequential;
      OneSequentialMap(h, d, all, run, acts, k - 1);
      assert CanAct(run[k - 1], acts[k - 1]) && run[k] == Act(h, run[k - 1], acts[k - 1]);
      match acts[k - 1]
      case Ask(_, _) => AskKeeps(h, d, all, run[k - 1], acts[k - 1]);
      case Serve(_) => ServeKeeps(h, d, all, run[k - 1], acts[k - 1]);
      case Show(_) => ShowKeeps(h, d, all, run[k - 1], acts[k - 1]);
      HoldsMeansSequential(h, d, all, run[k]);
    }
  }

  // ---------------------------------------------------------------- what the answers are

  predicate Writes(q: Request, key: Key) {
    q.key == key && (q.Put? || q.Delete?)
  }

  ghost predicate NeverWritten(history: seq<Done>, key: Key, i: nat) {
    forall j | 0 <= j < i && j < |history| :: !Writes(history[j].call.q, key)
  }

  /** The request at `j` is the last one before position `i` that writes the key. */
  ghost predicate IsLastWrite(history: seq<Done>, key: Key, i: nat, j: nat) {
    && j < i && j < |history| && Writes(history[j].call.q, key)
    && forall k | j < k < i && k < |history| :: !Writes(history[k].call.q, key)
  }

  /** `v` is what the last PUT or DELETE of the key before position `i` left, or, when there is none, what the key
      had at the beginning. */
  ghost predicate LeftBefore(all: Data, history: seq<Done>, i: nat, key: Key, v: Value)
    requires i <= |history|
  {
    && (NeverWritten(history, key, i) ==> v == if key in all then Some(all[key]) else None)
    && forall j: nat | IsLastWrite(history, key, i, j) ::
         v == match history[j].call.q case Put(_, value) => Some(value) case Delete(_) => None case Get(_) => None
  }

  /** A PUT is answered with its own value, a GET and a DELETE with what the last write left. */
  ghost predicate RightAnswer(all: Data, history: seq<Done>, i: nat)
    requires i < |history|
  {
    match history[i].call.q
    case Put(_, value) => history[i].answer == Some(value)
    case Get(key) => LeftBefore(all, history, i, key, history[i].answer)
    case Delete(key) => LeftBefore(all, history, i, key, history[i].answer)
  }

  lemma ReplayLast(all: Data, history: seq<Done>)
    requires history != []
    ensures Replay(all, history) == Perform(Replay(all, history[..|history| - 1]), history[|history| - 1].call.q)
  {
  }

  lemma LastWriteNext(history: seq<Done>, key: Key, i: nat)
    requires i < |history|
    ensures var writes := Writes(history[i].call.q, key);
      && (NeverWritten(history, key, i + 1) <==> NeverWritten(history, key, i) && !writes)
      && forall j: nat :: IsLastWrite(history, key, i + 1, j) <==>
           if writes then j == i else IsLastWrite(history, key, i, j)
  {
    var q := history[i].call.q;
    forall j: nat ensures IsLastWrite(history, key, i + 1, j) <==>
        if Writes(q, key) then j == i else IsLastWrite(history, key, i, j) {
      if j < i { assert IsLastWrite(history, key, i + 1, j) ==> !Writes(history[i].call.q, key); }
    }
  }

  /** One more request changes what is left of a key exactly when it is a PUT or DELETE of that key. */
  lemma LeftNext(all: Data, history: seq<Done>, i: nat, key: Key, v: Value)
    requires i < |history| && LeftBefore(all, history, i, key, v)
    ensures var q := history[i].call.q;
      LeftBefore(all, history, i + 1, key,
                 if q.key != key || q.Get? then v else if q.Put? then Some(q.value) else None)
  {
    LastWriteNext(history, key, i);
    hide NeverWritten, IsLastWrite;
  }

  lemma {:induction false} ReplayLeaves(all: Data, history: seq<Done>, i: nat, key: Key)
    requires i <= |history|
    ensures var now := Replay(all, history[..i]);
      LeftBefore(all, history, i, key, if key in now then Some(now[key]) else None)
  {
    if i == 0 {
      assert history[..0] == [];
    } else {
      ReplayLeaves(all, history, i - 1, key);
      assert history[..i][..i - 1] == history[..i - 1];
      hide Replay, LeftBefore;
      var before, now := Replay(all, history[..i - 1]), Replay(all, history[..i]);
      assert now == Perform(before, history[i - 1].call.q) by { ReplayLast(all, history[..i]); }
      LeftNext(all, history, i - 1, key, if key in before then Some(before[key]) else None);
    }
  }

  lemma SequentialIsRight(all: Data, history: seq<Done>, i: nat)
    requires Sequential(all, history) && i < |history|
    ensures RightAnswer(all, history, i)
  {
    hide LeftBefore, Replay, Perform;
    ReplayLeaves(all, history, i, history[i].call.q.key);
  }

  /** In every run each answer is right, and the responsible node, and no other, stores what the last write of each
      key left. */
  lemma AnswersAreRight(h: Key -> nat, d: seq<Entry>, all: Data, run: seq<Store>, acts: seq<Action>, k: nat)
    requires d != [] && IsStableRun(h, d, all, run, acts) && k < |run|
    ensures var g := run[k];
      && (forall i: nat | i < |g.history| :: RightAnswer(all, g.history, i))
      && forall p, key | p in g.nodes ::
           if Closest(h, d, key) == p
           then LeftBefore(all, g.history, |g.history|, key,
                           if key in g.nodes[p].data then Some(g.nodes[p].data[key]) else None)
           else key !in g.nodes[p].data
  {
    hide IsStableRun, Sequential, LeftBefore, RightAnswer, Replay, Closest;
    OneSequentialMap(h, d, all, run, acts, k);
    var g := run[k];
    forall i: nat | i < |g.history| ensures RightAnswer(all, g.history, i) { SequentialIsRight(all, g.history, i); }
    forall p, key | p in g.nodes && Closest(h, d, key) == p
      ensures LeftBefore(all, g.history, |g.history|, key,
                         if key in g.nodes[p].data then Some(g.nodes[p].data[key]) else None)
    {
      ReplayLeaves(all, g.history, |g.history|, key);
      assert g.history[..|g.history|] == g.history;
    }
  }

  // ---------------------------------------------------------------- real time

  /** Request `id` stands at position `i` of the history. */
  ghost predicate ServedAt(g: Store, id: nat, i: nat) {
    i < |g.history| && g.history[i].id == id
  }

  ghost predicate ShownRightly(g: Store, id: nat)
    requires id in g.answers
  {
    exists i: nat :: ServedAt(g, id, i) && g.history[i].answer == g.answers[id]
  }

  ghost predicate Unserved(g: Store, id: nat) {
    forall i: nat :: !ServedAt(g, id, i)
  }

  /** Every request is served at most once, as it was made, and only answers from the history are shown. */
  ghost predicate Accounted(g: Store) {
    && (forall r | r in g.asked :: r.id in g.calls && g.calls[r.id] == r.call && Unserved(g, r.id))
    && (forall e | e in g.history :: e.id in g.calls && g.calls[e.id] == e.call)
    && (forall i, j | 0 <= i < j < |g.history| :: g.history[i].id != g.history[j].id)
    && (forall reply | reply in g.replies :: reply in g.history)
    && forall id | id in g.answers :: ShownRightly(g, id)
  }

  lemma SameHistory(g: Store, g': Store)
    requires g'.history == g.history
    ensures forall id :: Unserved(g, id) ==> Unserved(g', id)
  {
    assert forall id, i :: ServedAt(g', id, i) == ServedAt(g, id, i);
  }

  lemma NotYet(g: Store, id: nat)
    requires Accounted(g) && id !in g.calls
    ensures Unserved(g, id)
  {
    forall i: nat ensures !ServedAt(g, id, i) {
      if i < |g.history| { assert g.history[i] in g.history; }
    }
  }

  lemma StillRight(g: Store, g': Store, id: nat)
    requires id in g.answers && ShownRightly(g, id) && g.history <= g'.history
    requires id in g'.answers && g'.answers[id] == g.answers[id]
    ensures ShownRightly(g', id)
  {
    var i: nat :| ServedAt(g, id, i) && g.history[i].answer == g.answers[id];
    assert ServedAt(g', id, i);
  }

  /** No request is on its way twice. */
  ghost predicate OneEach(g: Store) {
    && (forall r, s | r in g.asked && s in g.asked && r.id == s.id :: r == s)
    && forall r | r in g.asked :: r.id in g.calls
  }

  lemma AskAccounted(h: Key -> nat, g: Store, s: Action)
    requires Accounted(g) && OneEach(g) && s.Ask? && CanAct(g, s)
    ensures Accounted(Act(h, g, s)) && OneEach(Act(h, g, s))
  {
    hide Closest;
    var g' := Act(h, g, s);
    NotYet(g, s.id);
    SameHistory(g, g');
    forall id | id in g'.answers ensures ShownRightly(g', id) { StillRight(g, g', id); }
  }

  lemma ServeAccounted(h: Key -> nat, g: Store, s: Action)
    requires Accounted(g) && OneEach(g) && s.Serve? && CanAct(g, s)
    ensures Accounted(Act(h, g, s)) && OneEach(Act(h, g, s))
  {
    hide Closest, Perform, Answer;
    var g' := Act(h, g, s);
    forall r | r in g'.asked ensures Unserved(g', r.id) {
      forall i: nat ensures !ServedAt(g', r.id, i) {
        if i < |g.history| { assert !ServedAt(g, r.id, i); }
      }
    }
    forall i, j | 0 <= i < j < |g'.history| ensures g'.history[i].id != g'.history[j].id {
      if j == |g.history| { assert !ServedAt(g, s.r.id, i); }
    }
    forall id | id in g'.answers ensures ShownRightly(g', id) { StillRight(g, g', id); }
  }

  lemma ShowAccounted(h: Key -> nat, g: Store, s: Action)
    requires Accounted(g) && OneEach(g) && s.Show? && CanAct(g, s)
    ensures Accounted(Act(h, g, s)) && OneEach(Act(h, g, s))
  {
    var g' := Act(h, g, s);
    SameHistory(g, g');
    forall id | id in g'.answers ensures ShownRightly(g', id) {
      if id == s.reply.id {
        var i: nat :| i < |g.history| && g.history[i] == s.reply;
        assert ServedAt(g', id, i);
      } else {
        StillRight(g, g', id);
      }
    }
  }

  lemma AccountedKeeps(h: Key -> nat, g: Store, s: Action)
    requires Accounted(g) && OneEach(g) && CanAct(g, s)
    ensures Accounted(Act(h, g, s)) && OneEach(Act(h, g, s)) && g.history <= Act(h, g, s).history
  {
    hide Accounted, OneEach;
    match s
    case Ask(_, _) => AskAccounted(h, g, s);
    case Serve(_) => ServeAccounted(h, g, s);
    case Show(_) => ShowAccounted(h, g, s);
  }

  lemma {:induction false} AlwaysAccounted(h: Key -> nat, d: seq<Entry>, all: Data,
                                           run: seq<Store>, acts: seq<Action>, k: nat)
    requires d != [] && IsStableRun(h, d, all, run, acts) && k < |run|
    ensures Accounted(run[k]) && OneEach(run[k])
  {
    if k > 0 {
      hide Accounted, CanAct, Act, OneEach;
      AlwaysAccounted(h, d, all, run, acts, k - 1);
      assert CanAct(run[k - 1], acts[k - 1]) && run[k - 1 + 1] == Act(h, run[k - 1], acts[k - 1]);
      AccountedKeeps(h, run[k - 1], acts[k - 1]);
    }
  }

  lemma LastAct(h: Key -> nat, d: seq<Entry>, all: Data, run: seq<Store>, acts: seq<Action>, k: nat)
    requires d != [] && IsStableRun(h, d, all, run, acts) && 0 < k < |run|
    ensures |run| == |acts| + 1 && CanAct(run[k - 1], acts[k - 1])
    ensures run[k] == Act(h, run[k - 1], acts[k - 1])
  {
    hide CanAct, Act;
    assert run[k - 1 + 1] == Act(h, run[k - 1], acts[k - 1]);
  }

  lemma {:induction false} HistoryGrows(h: Key -> nat, d: seq<Entry>, all: Data,
                                        run: seq<Store>, acts: seq<Action>, a: nat, b: nat)
    requires d != [] && IsStableRun(h, d, all, run, acts) && a <= b < |run|
    ensures run[a].history <= run[b].history
  {
    hide *;
    if a < b {
      HistoryGrows(h, d, all, run, acts, a, b - 1);
      AlwaysAccounted(h, d, all, run, acts, b - 1);
      LastAct(h, d, all, run, acts, b);
      AccountedKeeps(h, run[b - 1], acts[b - 1]);
    }
  }

  lemma WhereShown(g: Store, id: nat) returns (i: nat)
    requires Accounted(g) && id in g.answers
    ensures ServedAt(g, id, i) && g.history[i].answer == g.answers[id]
    ensures id in g.calls && g.history[i].call == g.calls[id]
  {
    assert ShownRightly(g, id);
    i :| ServedAt(g, id, i) && g.history[i].answer == g.answers[id];
    assert g.history[i] in g.history;
  }

  lemma CallIsNew(h: Key -> nat, d: seq<Entry>, all: Data, run: seq<Store>, acts: seq<Action>, k: nat)
    requires d != [] && IsStableRun(h, d, all, run, acts) && k < |acts| && acts[k].Ask?
    ensures k < |run| && acts[k].id !in run[k].calls
  {
    assert CanAct(run[k], acts[k]);
  }

  lemma AnswerAt(all: Data, history: seq<Done>, i: nat)
    requires Sequential(all, history) && i < |history|
    ensures history[i].answer == Answer(Replay(all, history[..i]), history[i].call.q)
  {
  }

  /** The store is linearizable: what a client is shown is the one map's answer to its request at the request's place
      in the history, and a request made after another was answered stands behind it. */
  lemma Linearizable(h: Key -> nat, d: seq<Entry>, all: Data, run: seq<Store>, acts: seq<Action>,
                     a: nat, b: nat, c: nat, first: nat, second: nat, j: nat) returns (i: nat)
    requires d != [] && IsStableRun(h, d, all, run, acts) && a <= b < c < |run|
    requires b < |acts| && first in run[a].answers && acts[b].Ask? && acts[b].id == second
    requires ServedAt(run[c], second, j)
    ensures i < j && ServedAt(run[c], first, i) && first in run[a].calls
    ensures run[a].answers[first] == Answer(Replay(all, run[c].history[..i]), run[a].calls[first].q)
    ensures run[c].history[i].answer == run[a].answers[first] && run[c].history[i].call == run[a].calls[first]
    ensures RightAnswer(all, run[c].history, i)
  {
    hide Perform, Answer, Replay, OneEach, Accounted, IsStableRun, Holds, Sequential, RightAnswer;
    AlwaysAccounted(h, d, all, run, acts, a);
    i := WhereShown(run[a], first);
    HistoryGrows(h, d, all, run, acts, a, b);
    HistoryGrows(h, d, all, run, acts, b, c);
    AlwaysAccounted(h, d, all, run, acts, b);
    CallIsNew(h, d, all, run, acts, b);
    NotYet(run[b], second);
    assert !ServedAt(run[b], second, j);
    OneSequentialMap(h, d, all, run, acts, c);
    AnswerAt(all, run[c].history, i);
    SequentialIsRight(all, run[c].history, i);
  }

  lemma NodeIds(h: Key -> nat, d: seq<Entry>, all: Data, c: Change, g: System, arrived: bool, p: Key)
    requires d != [] && NewRing(h, d, c) != [] && Reached(h, d, all, c, g, arrived) && p in g.nodes
    ensures g.nodes[p].id == p
  {
    assert NodeOk(h, d, all, c, g.nodes[p], p, p in g.pending, arrived);
  }

  /** A finished rebalancing leaves the live nodes ready to go on serving the same map. */
  lemma ServesAfterRebalancing(h: Key -> nat, d: seq<Entry>, all: Data, c: Change,
                               run: seq<System>, steps: seq<Step>, k: nat)
    requires d != [] && Possible(h, d, c) && IsRun(h, d, all, c, run, steps) && k < |run|
    requires run[k].pending == {} && run[k].flight == {}
    ensures NewRing(h, d, c) != []
    ensures Members(NewRing(h, d, c)) <= run[k].nodes.Keys
    ensures (map p | p in Members(NewRing(h, d, c)) :: run[k].nodes[p]) == Opening(h, NewRing(h, d, c), all).nodes
  {
    hide Possible, IsRun, NewRing, Members, Part;
    Owners(h, d, c, c.a);
    var arrived := Reachable(h, d, all, c, run, steps, k);
    forall p | p in Members(NewRing(h, d, c))
      ensures p in run[k].nodes && run[k].nodes[p] == Node(p, NewRing(h, d, c), Part(h, NewRing(h, d, c), all, p))
    {
      EndsBalanced(h, d, all, c, run, steps, k, p);
      NodeIds(h, d, all, c, run[k], arrived, p);
    }
  }
}
