/** Timestamped values under last-write-wins: later time first, larger value on a tie. */
module Items {

  /** NegInf stands for the time of a record that was never written. */
  datatype Time = NegInf | At(t: real)

  datatype Item = Item(time: Time, value: string)

  const NONE := Item(NegInf, "")

  predicate StringLess(a: string, b: string) {
    b != [] && (a == [] || a[0] < b[0] || (a[0] == b[0] && StringLess(a[1..], b[1..])))
  }

  predicate TimeLess(a: Time, b: Time) {
    b.At? && (a.NegInf? || a.t < b.t)
  }

  predicate Less(a: Item, b: Item) {
    TimeLess(a.time, b.time) || (a.time == b.time && StringLess(a.value, b.value))
  }

  predicate Leq(a: Item, b: Item) {
    a == b || Less(a, b)
  }

  function Join(a: Item, b: Item): Item {
    if Less(a, b) then b else a
  }

  lemma {:induction false} StringTransitive(a: string, b: string, c: string)
    requires StringLess(a, b) && StringLess(b, c)
    ensures StringLess(a, c)
  {
    if a != [] && a[0] == b[0] && b[0] == c[0] { StringTransitive(a[1..], b[1..], c[1..]); }
  }

  lemma {:induction false} StringTotal(a: string, b: string)
    ensures StringLess(a, b) || a == b || StringLess(b, a)
    ensures !(StringLess(a, b) && StringLess(b, a)) && !StringLess(a, a)
    decreases |a|
  {
    if a != [] {
      StringTotal(a[1..], a[1..]);
      if b != [] && a[0] == b[0] {
        StringTotal(a[1..], b[1..]);
        assert a == [a[0]] + a[1..] && b == [b[0]] + b[1..];
      }
    }
  }

  /** Equal before `i`, and at `i` the first has ended or they differ; the second has not ended. */
  predicate DiffersAt(a: string, b: string, i: nat) {
    i <= |a| && i < |b| && a[..i] == b[..i] && (i < |a| ==> a[i] != b[i])
  }

  lemma DiffersLater(a: string, b: string, i: nat)
    requires a != [] && b != [] && a[0] == b[0]
    ensures DiffersAt(a, b, i + 1) <==> DiffersAt(a[1..], b[1..], i)
  {
    if i + 1 <= |a| && i + 1 < |b| {
      assert a[..i + 1] == [a[0]] + a[1..][..i];
      assert b[..i + 1] == [b[0]] + b[1..][..i];
      assert a[1..][..i] == a[..i + 1][1..] && b[1..][..i] == b[..i + 1][1..];
    }
  }

  /** Strings are ordered by the first position where they differ; a proper prefix comes first. */
  lemma {:induction false} FirstDifference(a: string, b: string)
    ensures StringLess(a, b) <==> exists i: nat :: DiffersAt(a, b, i) && (i == |a| || a[i] < b[i])
    decreases |a|
  {
    if a != [] && b != [] && a[0] == b[0] {
      FirstDifference(a[1..], b[1..]);
      if StringLess(a, b) {
        var i: nat :| DiffersAt(a[1..], b[1..], i) && (i == |a| - 1 || a[1..][i] < b[1..][i]);
        DiffersLater(a, b, i);
        assert DiffersAt(a, b, i + 1);
      }
      if i: nat :| DiffersAt(a, b, i) && (i == |a| || a[i] < b[i]) {
        DiffersLater(a, b, i - 1);
        assert DiffersAt(a[1..], b[1..], i - 1);
      }
    } else if b != [] {
      assert a[..0] == b[..0];
      assert DiffersAt(a, b, 0);
      forall i | 0 < i <= |a| && i < |b| ensures a[..i] != b[..i] {
        assert a[..i][0] == a[0] && b[..i][0] == b[0];
      }
    }
  }

  /** Later writes win whatever their values; at equal times the larger value does. */
  lemma LaterWins(s: real, v: string, t: real, w: string)
    ensures Less(Item(At(s), v), Item(At(t), w)) <==> s < t || (s == t && StringLess(v, w))
    ensures Less(NONE, Item(At(t), w))
  {
  }

  lemma LeqTransitive(a: Item, b: Item, c: Item)
    requires Leq(a, b) && Leq(b, c)
    ensures Leq(a, c)
  {
    if StringLess(a.value, b.value) && StringLess(b.value, c.value) {
      StringTransitive(a.value, b.value, c.value);
    }
  }

  lemma Total(a: Item, b: Item)
    ensures Leq(a, b) || Less(b, a)
    ensures !(Leq(a, b) && Less(b, a))
    ensures Leq(a, b) && Leq(b, a) ==> a == b
    ensures Leq(NONE, a)
  {
    StringTotal(a.value, b.value);
    StringTotal(a.value, a.value);
  }

  /** Join is the least upper bound. */
  lemma JoinIsMax(a: Item, b: Item)
    ensures Leq(a, Join(a, b)) && Leq(b, Join(a, b)) && Join(a, b) in {a, b}
  {
    Total(a, b);
    Total(b, a);
  }

  // ---------------------------------------------------------------- one replica's register

  /** DELETE at a replica: the record becomes an empty value when the deletion is strictly later. */
  function Delete(r: Item, time: Time): Item {
    if TimeLess(r.time, time) then Item(time, "") else r
  }

  function WriteAll(r: Item, writes: seq<Item>): Item {
    if writes == [] then r else Join(WriteAll(r, writes[..|writes| - 1]), writes[|writes| - 1])
  }

  lemma DeleteIsAWrite(r: Item, time: Time)
    ensures Delete(r, time) == Join(r, Item(time, ""))
  {
  }

  /** The register holds the greatest of its old item and everything written. */
  lemma {:induction false} RegisterIsMaximum(r: Item, writes: seq<Item>)
    ensures WriteAll(r, writes) == r || WriteAll(r, writes) in writes
    ensures Leq(r, WriteAll(r, writes))
    ensures forall w | w in writes :: Leq(w, WriteAll(r, writes))
  {
    hide Leq, Join;
    if writes == [] {
      assert Leq(r, r) by { JoinIsMax(r, r); }
    } else {
      var front, last := writes[..|writes| - 1], writes[|writes| - 1];
      RegisterIsMaximum(r, front);
      JoinIsMax(WriteAll(r, front), last);
      LeqTransitive(r, WriteAll(r, front), WriteAll(r, writes));
      forall w | w in writes ensures Leq(w, WriteAll(r, writes)) {
        if w in front { LeqTransitive(w, WriteAll(r, front), WriteAll(r, writes)); }
      }
    }
  }

  /** Replicas that saw the same writes agree, whatever the order and however often each was repeated. */
  lemma ReplicasConverge(r: Item, one: seq<Item>, two: seq<Item>)
    requires forall w :: w in one <==> w in two
    ensures WriteAll(r, one) == WriteAll(r, two)
  {
    RegisterIsMaximum(r, one);
    RegisterIsMaximum(r, two);
    Total(WriteAll(r, one), WriteAll(r, two));
  }
}
