/** How much the broadcast can send: although delivery forgets who relayed a message, the traffic is bounded. */
module BroadcastTraffic {
  import opened BroadcastSpec
  import opened BroadcastSystem
  import opened BroadcastInvariant

  function Times(casts: seq<Cast>, m: Message): nat {
    if casts == [] then 0 else Times(casts[..|casts| - 1], m) + if casts[|casts| - 1].msg == m then 1 else 0
  }

  /** Broadcasts of `m` by processes 0..n-1. */
  ghost function TimesBy(casts: multiset<Cast>, m: Message, n: nat): nat {
    if n == 0 then 0 else TimesBy(casts, m, n - 1) + casts[Cast(n - 1, m)]
  }

  lemma {:induction false} TimesByAdd(casts: multiset<Cast>, c: Cast, m: Message, n: nat)
    ensures TimesBy(casts + multiset{c}, m, n) == TimesBy(casts, m, n) + if c.msg == m && c.src < n then 1 else 0
  {
    if n > 0 { TimesByAdd(casts, c, m, n - 1); }
  }

  lemma {:induction false} TimesByNone(m: Message, n: nat)
    ensures TimesBy(multiset{}, m, n) == 0
  {
    if n > 0 { TimesByNone(m, n - 1); }
  }

  lemma {:induction false} TimesIsSum(casts: seq<Cast>, m: Message, n: nat)
    requires forall c | c in casts :: c.src < n
    ensures Times(casts, m) == TimesBy(multiset(casts), m, n)
  {
    if casts == [] {
      TimesByNone(m, n);
    } else {
      var front, last := casts[..|casts| - 1], casts[|casts| - 1];
      TimesIsSum(front, m, n);
      TimesByAdd(multiset(front), last, m, n);
      assert casts == front + [last];
    }
  }

  lemma {:induction false} SumBound(casts: multiset<Cast>, m: Message, n: nat)
    requires forall i | 0 <= i < n :: casts[Cast(i, m)] <= 2 + if m.sender == i then 1 else 0
    ensures TimesBy(casts, m, n) <= 2 * n + if m.sender < n then 1 else 0
  {
    if n > 0 { SumBound(casts, m, n - 1); }
  }

  lemma RelayedTwice(g: System, i: nat, m: Message)
    requires Inv(g) && i < |g.members|
    ensures multiset(g.casts)[Cast(i, m)] <= 2 + if m.sender == i then 1 else 0
  {
    assert MemberOk(g, g.members[i], i);
  }

  /** A process broadcasts a message at most twice while relaying it, its author once more when sending it:
      2n + 1 broadcasts of n copies each. */
  lemma RelayBound(n: nat, run: seq<System>, steps: seq<Step>, k: nat, m: Message)
    requires IsRun(n, run, steps) && k < |run|
    ensures forall i | 0 <= i < n :: multiset(run[k].casts)[Cast(i, m)] <= 2 + if m.sender == i then 1 else 0
    ensures Times(run[k].casts, m) <= 2 * n + 1
  {
    hide MemberOk, IsRun;
    Safety(n, run, steps, k);
    forall i | 0 <= i < n ensures multiset(run[k].casts)[Cast(i, m)] <= 2 + if m.sender == i then 1 else 0 {
      RelayedTwice(run[k], i, m);
    }
    TimesIsSum(run[k].casts, m, n);
    SumBound(multiset(run[k].casts), m, n);
  }

  // ---------------------------------------------------------------- the whole run

  function Without(casts: seq<Cast>, m: Message): seq<Cast> {
    if casts == [] then []
    else
      var front, last := Without(casts[..|casts| - 1], m), casts[|casts| - 1];
      if last.msg == m then front else front + [last]
  }

  lemma {:induction false} WithoutCounts(casts: seq<Cast>, m: Message)
    ensures |casts| == Times(casts, m) + |Without(casts, m)|
    ensures forall c | c in Without(casts, m) :: c in casts && c.msg != m
  {
    if casts != [] { WithoutCounts(casts[..|casts| - 1], m); }
  }

  lemma {:induction false} WithoutTimes(casts: seq<Cast>, m: Message, o: Message)
    ensures Times(Without(casts, m), o) <= Times(casts, o)
  {
    if casts != [] {
      var front, last := casts[..|casts| - 1], casts[|casts| - 1];
      WithoutTimes(front, m, o);
      assert (Without(front, m) + [last])[..|Without(front, m)|] == Without(front, m);
    }
  }

  lemma NonNegative(b: nat, k: nat)
    ensures 0 <= b * k
  {
  }

  lemma OneMore(b: nat, k: nat, t: nat, r: nat)
    requires t <= b && r <= b * k
    ensures t + r <= b * (k + 1)
  {
  }

  lemma {:induction false} BoundByMessages(casts: seq<Cast>, all: seq<Message>, b: nat)
    requires forall c | c in casts :: c.msg in all
    requires forall m :: Times(casts, m) <= b
    ensures |casts| <= b * |all|
    decreases |all|
  {
    hide Times, Without;
    if casts == [] {
      NonNegative(b, |all|);
    } else {
      assert casts[0].msg in all;
      var m := all[0];
      var rest := Without(casts, m);
      WithoutCounts(casts, m);
      forall o ensures Times(rest, o) <= b { WithoutTimes(casts, m, o); }
      forall c | c in rest ensures c.msg in all[1..] { assert c.msg in all; }
      BoundByMessages(rest, all[1..], b);
      OneMore(b, |all| - 1, Times(casts, m), |rest|);
    }
  }

  /** Everything the users have sent, process by process. */
  function AllSent(members: seq<Member>): seq<Message> {
    if members == [] then [] else AllSent(members[..|members| - 1]) + members[|members| - 1].sent
  }

  lemma {:induction false} SentInAll(members: seq<Member>, i: nat, m: Message)
    requires i < |members| && m in members[i].sent
    ensures m in AllSent(members)
    decreases |members|
  {
    if i < |members| - 1 { SentInAll(members[..|members| - 1], i, m); }
  }

  lemma ScaleUp(n: nat, a: nat, b: nat)
    requires a <= b
    ensures n * a <= n * b
  {
  }

  /** Every run goes quiet after the last SEND: in all, at most n(2n + 1) copies per message sent. */
  lemma TrafficBound(n: nat, run: seq<System>, steps: seq<Step>, k: nat)
    requires IsRun(n, run, steps) && k < |run|
    ensures n * |run[k].casts| <= n * ((2 * n + 1) * |AllSent(run[k].members)|)
  {
    hide MemberOk, IsRun;
    Safety(n, run, steps, k);
    var g := run[k];
    forall m ensures Times(g.casts, m) <= 2 * n + 1 { RelayBound(n, run, steps, k, m); }
    forall c | c in g.casts ensures c.msg in AllSent(g.members) {
      SentInAll(g.members, c.msg.sender, c.msg);
    }
    BoundByMessages(g.casts, AllSent(g.members), 2 * n + 1);
    ScaleUp(n, |g.casts|, (2 * n + 1) * |AllSent(g.members)|);
  }
}
