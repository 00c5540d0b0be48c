/** Sizes of finite sets, and a little map algebra. */
module Sets {

  lemma SubsetSize<T>(a: set<T>, b: set<T>)
    requires a <= b
    ensures |a| <= |b|
  {
    assert b == a + (b - a);
  }

  lemma {:induction false} RangeSize(lo: nat, n: nat, s: set<nat>)
    requires forall i | i in s :: lo <= i < lo + n
    ensures |s| <= n
  {
    if n > 0 {
      var last := lo + n - 1;
      RangeSize(lo, n - 1, s - {last});
      SubsetSize(s, (s - {last}) + {last});
    } else {
      assert s == {};
    }
  }

  lemma MinusMinus<K, V>(m: map<K, V>, a: set<K>, b: set<K>)
    ensures m - a - b == m - (a + b)
  {
  }
}
