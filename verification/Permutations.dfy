/** A log of numbered texts that holds each number once is a rearrangement of the texts. */
module Permutations {
  import opened WindowSpec

  ghost predicate Distinct(log: seq<Data>) {
    forall i, j | 0 <= i < j < |log| :: log[i].order != log[j].order
  }

  function Orders(log: seq<Data>): set<nat> {
    set d | d in log :: d.order
  }

  function TextsOf(log: seq<Data>): seq<string> {
    if log == [] then [] else TextsOf(log[..|log| - 1]) + [log[|log| - 1].text]
  }

  lemma OrdersMore(log: seq<Data>, d: Data)
    ensures Orders(log + [d]) == Orders(log) + {d.order}
    ensures Distinct(log) && d.order !in Orders(log) ==> Distinct(log + [d])
  {
    forall x | x in log + [d] ensures x in log || x == d {}
    assert forall x | x in log :: x in log + [d];
    assert d in log + [d];
    if Distinct(log) && d.order !in Orders(log) {
      forall i, j | 0 <= i < j < |log + [d]| ensures (log + [d])[i].order != (log + [d])[j].order {
        assert (log + [d])[i] in log;
      }
    }
  }

  lemma {:induction false} TextsJoin(a: seq<Data>, b: seq<Data>)
    ensures TextsOf(a + b) == TextsOf(a) + TextsOf(b)
  {
    if b == [] {
      assert a + b == a;
    } else {
      TextsJoin(a, b[..|b| - 1]);
      assert (a + b)[..|a + b| - 1] == a + b[..|b| - 1];
    }
  }

  lemma TextsWithout(a: seq<Data>, d: Data, b: seq<Data>)
    ensures multiset(TextsOf(a + [d] + b)) == multiset(TextsOf(a + b)) + multiset{d.text}
  {
    TextsJoin(a + [d], b);
    TextsJoin(a, [d]);
    TextsJoin(a, b);
    assert TextsOf([d]) == [d.text];
  }

  /** `log` is numbered by exactly the indices of `texts` and holds those texts. */
  ghost predicate Numbers(log: seq<Data>, texts: seq<string>) {
    && Distinct(log)
    && (forall d | d in log :: d.order < |texts| && d.text == texts[d.order])
    && forall o: nat | o < |texts| :: o in Orders(log)
  }

  lemma HasMember(log: seq<Data>)
    requires log != []
    ensures exists d :: d in log
  {
    assert log[0] in log;
  }

  lemma NumbersNone(log: seq<Data>)
    requires Numbers(log, [])
    ensures log == []
  {
    if log != [] {
      HasMember(log);
    }
  }

  lemma TextsNone()
    ensures TextsOf([]) == []
  {
  }

  lemma DistinctWithout(log: seq<Data>, i: nat)
    requires Distinct(log) && i < |log|
    ensures Distinct(log[..i] + log[i + 1..])
    ensures forall d | d in log[..i] + log[i + 1..] :: d in log && d.order != log[i].order
  {
    var rest := log[..i] + log[i + 1..];
    forall k | 0 <= k < |rest| ensures rest[k] == log[if k < i then k else k + 1] {}
  }

  lemma TakeOut(log: seq<Data>, i: nat, texts: seq<string>)
    requires Numbers(log, texts) && i < |log| && log[i].order == |texts| - 1
    ensures Numbers(log[..i] + log[i + 1..], texts[..|texts| - 1])
  {
    var rest, front := log[..i] + log[i + 1..], texts[..|texts| - 1];
    DistinctWithout(log, i);
    hide Distinct;
    forall d | d in rest ensures d.order < |front| && d.text == front[d.order] {
      assert d in log;
    }
    forall o: nat | o < |front| ensures o in Orders(rest) {
      assert o in Orders(log);
      var d :| d in log && d.order == o;
      var k :| 0 <= k < |log| && log[k] == d;
      assert d == rest[if k < i then k else k - 1];
    }
  }

  lemma {:induction false} Rearranged(log: seq<Data>, texts: seq<string>)
    requires Numbers(log, texts)
    ensures multiset(TextsOf(log)) == multiset(texts)
    decreases |texts|
  {
    hide TextsOf, Distinct;
    if texts == [] {
      assert log == [] by { NumbersNone(log); }
      assert TextsOf([]) == [] by { TextsNone(); }
    } else {
      var last := |texts| - 1;
      assert last in Orders(log);
      var d :| d in log && d.order == last;
      var i :| 0 <= i < |log| && log[i] == d;
      TakeOut(log, i, texts);
      Rearranged(log[..i] + log[i + 1..], texts[..last]);
      TextsWithout(log[..i], d, log[i + 1..]);
      assert log == log[..i] + [d] + log[i + 1..];
      assert texts == texts[..last] + [texts[last]];
    }
  }
}
