/** Consistent hashing: a ring of nodes sorted by hash, and the node responsible for a key. */
module RingSpec {
  import Items

  type Key = string

  datatype Entry = Entry(hash: nat, key: Key)

  ghost predicate Ascending(d: seq<Entry>) {
    forall i, j | 0 <= i < j < |d| :: d[i].hash < d[j].hash
  }

  /** Sorted by hash, no two equal, every entry filed under its own hash. */
  ghost predicate Ring(h: Key -> nat, d: seq<Entry>) {
    Ascending(d) && forall e | e in d :: e.hash == h(e.key)
  }

  function Members(d: seq<Entry>): set<Key> {
    set e | e in d :: e.key
  }

  /** No two nodes share a hash. */
  ghost predicate Spread(h: Key -> nat, ms: set<Key>) {
    forall a, b | a in ms && b in ms && h(a) == h(b) :: a == b
  }

  // ---------------------------------------------------------------- lookup

  function BinSearch(d: seq<Entry>, x: nat, l: nat, r: nat): (i: nat)
    requires l <= r < |d|
    ensures l <= i <= r
    decreases r - l
  {
    if r == l then r
    else
      var m := (l + r) / 2 + 1;
      if d[m].hash > x then BinSearch(d, x, l, m - 1) else BinSearch(d, x, m, r)
  }

  lemma BinSearchStep(d: seq<Entry>, x: nat, l: nat, r: nat)
    requires l <= r < |d|
    ensures l == r ==> BinSearch(d, x, l, r) == r
    ensures l < r ==> var m := (l + r) / 2 + 1;
      l < m <= r && BinSearch(d, x, l, r) == if d[m].hash > x then BinSearch(d, x, l, m - 1) else BinSearch(d, x, m, r)
  {
  }

  lemma AllAbove(d: seq<Entry>, x: nat, m: nat)
    requires Ascending(d) && m < |d| && x < d[m].hash
    ensures forall j | m <= j < |d| :: x < d[j].hash
  {
  }

  /** The search finds the last entry at or before the hash. */
  lemma {:induction false} BinSearchFindsLast(d: seq<Entry>, x: nat, l: nat, r: nat)
    requires l <= r < |d| && d[l].hash <= x
    requires Ascending(d)
    ensures d[BinSearch(d, x, l, r)].hash <= x
    ensures forall j | BinSearch(d, x, l, r) < j <= r :: x < d[j].hash
    decreases r - l
  {
    hide Ascending, BinSearch;
    BinSearchStep(d, x, l, r);
    if l < r {
      var m := (l + r) / 2 + 1;
      if d[m].hash > x {
        BinSearchFindsLast(d, x, l, m - 1);
        AllAbove(d, x, m);
      } else {
        BinSearchFindsLast(d, x, m, r);
      }
    }
  }

  /** Where a new entry goes after: -1 for before the first. */
  function IndexForAdd(d: seq<Entry>, x: nat): (i: int)
    requires d != []
    ensures -1 <= i < |d|
  {
    if x < d[0].hash then -1 else BinSearch(d, x, 0, |d| - 1)
  }

  function IndexOf(d: seq<Entry>, x: nat): (i: nat)
    requires d != []
    ensures i < |d|
  {
    if x < d[0].hash then |d| - 1 else BinSearch(d, x, 0, |d| - 1)
  }

  function Closest(h: Key -> nat, d: seq<Entry>, key: Key): Key
    requires d != []
  {
    d[IndexOf(d, h(key))].key
  }

  /** The node responsible for a key, by the membership alone: the last one at or before the key's hash,
      or the last one of all when every node lies after the key. */
  ghost predicate IsOwner(h: Key -> nat, ms: set<Key>, key: Key, o: Key) {
    && o in ms
    && if exists m :: m in ms && h(m) <= h(key)
       then h(o) <= h(key) && forall m | m in ms && h(m) <= h(key) :: h(m) <= h(o)
       else forall m | m in ms :: h(m) <= h(o)
  }

  lemma OwnerUnique(h: Key -> nat, ms: set<Key>, key: Key, o: Key, o': Key)
    requires Spread(h, ms) && IsOwner(h, ms, key, o) && IsOwner(h, ms, key, o')
    ensures o == o'
  {
  }

  lemma IndexForAddFindsLast(d: seq<Entry>, x: nat)
    requires d != [] && Ascending(d)
    ensures forall j | 0 <= j <= IndexForAdd(d, x) :: d[j].hash <= x
    ensures forall j | IndexForAdd(d, x) < j < |d| :: x < d[j].hash
  {
    if d[0].hash <= x { BinSearchFindsLast(d, x, 0, |d| - 1); }
  }

  /** The lookup on the sorted ring finds the owner. */
  lemma ClosestIsOwner(h: Key -> nat, d: seq<Entry>, key: Key)
    requires Ring(h, d) && d != []
    ensures IsOwner(h, Members(d), key, Closest(h, d, key))
  {
    IndexForAddFindsLast(d, h(key));
    var i := IndexForAdd(d, h(key));
    forall m | m in Members(d) ensures exists j :: 0 <= j < |d| && d[j].key == m && d[j].hash == h(m) {
      var e :| e in d && e.key == m;
      var j :| 0 <= j < |d| && d[j] == e;
    }
    if i >= 0 {
      assert d[i] in d && h(d[i].key) <= h(key);
    } else {
      assert d[|d| - 1] in d;
    }
  }

  lemma RingIsSpread(h: Key -> nat, d: seq<Entry>)
    requires Ring(h, d)
    ensures Spread(h, Members(d))
  {
    forall a, b | a in Members(d) && b in Members(d) && h(a) == h(b) ensures a == b {
      var e, f :| e in d && e.key == a && f in d && f.key == b;
      var i, j :| 0 <= i < |d| && d[i] == e && 0 <= j < |d| && d[j] == f;
    }
  }

  // ---------------------------------------------------------------- membership changes

  function Add(h: Key -> nat, d: seq<Entry>, key: Key): seq<Entry>
    requires d != []
  {
    var i := IndexForAdd(d, h(key));
    d[..i + 1] + [Entry(h(key), key)] + d[i + 1..]
  }

  function Remove(h: Key -> nat, d: seq<Entry>, key: Key): seq<Entry>
    requires d != []
  {
    var i := IndexOf(d, h(key));
    if d[i] != Entry(h(key), key) then d else d[..i] + d[i + 1..]
  }

  lemma MembersJoin(a: seq<Entry>, b: seq<Entry>)
    ensures Members(a + b) == Members(a) + Members(b)
  {
    forall m | m in Members(a + b) ensures m in Members(a) + Members(b) {
      var e :| e in a + b && e.key == m;
      assert e in a || e in b;
    }
    forall m | m in Members(a) + Members(b) ensures m in Members(a + b) {
      var e :| (e in a || e in b) && e.key == m;
      assert e in a + b;
    }
  }

  lemma MembersOne(a: seq<Entry>, e: Entry, b: seq<Entry>)
    ensures Members(a + [e] + b) == Members(a) + {e.key} + Members(b)
  {
    MembersJoin(a + [e], b);
    MembersJoin(a, [e]);
    assert Members([e]) == {e.key};
  }

  lemma InsertAscending(a: seq<Entry>, e: Entry, b: seq<Entry>)
    requires Ascending(a + b) && (forall x | x in a :: x.hash < e.hash) && (forall x | x in b :: e.hash < x.hash)
    ensures Ascending(a + [e] + b)
  {
    var d := a + b;
    var d' := a + [e] + b;
    forall i, j | 0 <= i < j < |d'| ensures d'[i].hash < d'[j].hash {
      if i == |a| {
        assert d'[j] == b[j - |a| - 1] && d'[j] in b;
      } else if j == |a| {
        assert d'[i] == a[i] && d'[i] in a;
      } else {
        assert d'[i] == d[if i < |a| then i else i - 1] && d'[j] == d[if j < |a| then j else j - 1];
      }
    }
  }

  lemma DropAscending(a: seq<Entry>, e: Entry, b: seq<Entry>)
    requires Ascending(a + [e] + b)
    ensures Ascending(a + b) && forall x | x in a + b :: x.hash != e.hash
  {
    var d, d' := a + [e] + b, a + b;
    forall i | 0 <= i < |d'| ensures d'[i] == d[if i < |a| then i else i + 1] {}
    assert d[|a|] == e;
  }

  lemma OthersDiffer(h: Key -> nat, d: seq<Entry>, x: nat)
    requires Ring(h, d) && forall m | m in Members(d) :: h(m) != x
    ensures forall e | e in d :: e.hash != x
  {
    forall e | e in d ensures e.hash != x { assert e.key in Members(d); }
  }

  lemma AddKeepsRing(h: Key -> nat, d: seq<Entry>, key: Key)
    requires Ring(h, d) && d != [] && forall m | m in Members(d) :: h(m) != h(key)
    ensures Add(h, d, key) != [] && Ring(h, Add(h, d, key)) && Members(Add(h, d, key)) == Members(d) + {key}
  {
    hide Members, IndexForAdd;
    IndexForAddFindsLast(d, h(key));
    var i, e := IndexForAdd(d, h(key)), Entry(h(key), key);
    var a, b := d[..i + 1], d[i + 1..];
    assert d == a + b;
    OthersDiffer(h, d, h(key));
    forall x | x in a ensures x.hash < e.hash { assert x in d; }
    InsertAscending(a, e, b);
    forall x | x in a + [e] + b ensures x.hash == h(x.key) { assert x in a || x == e || x in b; }
    MembersJoin(a, b);
    MembersOne(a, e, b);
  }

  /** The search ends on the entry of the key itself when the key is a member. */
  lemma IndexOfMember(h: Key -> nat, d: seq<Entry>, key: Key)
    requires Ring(h, d) && d != []
    ensures key in Members(d) <==> d[IndexOf(d, h(key))] == Entry(h(key), key)
  {
    IndexForAddFindsLast(d, h(key));
    var i := IndexOf(d, h(key));
    if key in Members(d) {
      var x :| x in d && x.key == key;
      var j :| 0 <= j < |d| && d[j] == x;
    }
    if d[i] == Entry(h(key), key) { assert d[i] in d; }
  }

  lemma NotAMember(h: Key -> nat, d: seq<Entry>, key: Key)
    requires forall e | e in d :: e.hash == h(e.key) && e.hash != h(key)
    ensures key !in Members(d)
  {
  }

  lemma RemoveKeepsRing(h: Key -> nat, d: seq<Entry>, key: Key)
    requires Ring(h, d) && d != []
    ensures Ring(h, Remove(h, d, key)) && Members(Remove(h, d, key)) == Members(d) - {key}
  {
    hide Members, IndexOf;
    IndexOfMember(h, d, key);
    var i := IndexOf(d, h(key));
    if d[i] == Entry(h(key), key) {
      var a, b := d[..i], d[i + 1..];
      assert d == a + [d[i]] + b;
      DropAscending(a, d[i], b);
      forall x | x in a + b ensures x in d { assert x in a || x in b; }
      MembersOne(a, d[i], b);
      MembersJoin(a, b);
      assert key !in Members(a + b) by { NotAMember(h, a + b, key); }
    }
  }

  lemma MembersNone(d: seq<Entry>)
    ensures Members(d) == {} <==> d == []
  {
    if d != [] { assert d[0] in d && d[0].key in Members(d); }
  }

  lemma LastIsGreatest(d: seq<Entry>, e: Entry)
    requires e in d && Ascending(d)
    ensures e.hash <= d[|d| - 1].hash
    ensures e.hash == d[|d| - 1].hash ==> e == d[|d| - 1]
  {
    var i :| 0 <= i < |d| && d[i] == e;
  }

  lemma SameLast(h: Key -> nat, d: seq<Entry>, d': seq<Entry>)
    requires Ring(h, d) && Ring(h, d') && Members(d) == Members(d') && d != [] && d' != []
    ensures d[|d| - 1] == d'[|d'| - 1]
  {
    hide Ascending;
    assert d[|d| - 1] in d && d[|d| - 1].key in Members(d');
    var e' :| e' in d' && e'.key == d[|d| - 1].key;
    assert d'[|d'| - 1] in d' && d'[|d'| - 1].key in Members(d);
    var e :| e in d && e.key == d'[|d'| - 1].key;
    LastIsGreatest(d, e);
    LastIsGreatest(d', e');
  }

  lemma WithoutLast(h: Key -> nat, d: seq<Entry>)
    requires Ring(h, d) && d != []
    ensures Ring(h, d[..|d| - 1]) && Members(d[..|d| - 1]) == Members(d) - {d[|d| - 1].key}
  {
    var front, last := d[..|d| - 1], d[|d| - 1];
    assert d == front + [last];
    forall e | e in front ensures e.key != last.key {
      var i :| 0 <= i < |front| && front[i] == e;
      assert d[i].hash < d[|d| - 1].hash && last in d && e in d;
    }
    forall m ensures m in Members(front) <==> m in Members(d) && m != last.key {
      if m in Members(d) && m != last.key { var e :| e in d && e.key == m; assert e in front; }
      if m in Members(front) { var e :| e in front && e.key == m; assert e in d; }
    }
  }

  /** A ring is determined by its members: nodes that heard the same changes in any order agree. */
  lemma {:induction false} RingUnique(h: Key -> nat, d: seq<Entry>, d': seq<Entry>)
    requires Ring(h, d) && Ring(h, d') && Members(d) == Members(d')
    ensures d == d'
    decreases |d|
  {
    hide Members, Ascending;
    MembersNone(d);
    MembersNone(d');
    if d != [] {
      SameLast(h, d, d');
      WithoutLast(h, d);
      WithoutLast(h, d');
      RingUnique(h, d[..|d| - 1], d'[..|d'| - 1]);
      assert d == d[..|d| - 1] + [d[|d| - 1]];
      assert d' == d'[..|d'| - 1] + [d'[|d'| - 1]];
    }
  }

  // ---------------------------------------------------------------- the ring a node starts with

  predicate Before(a: Entry, b: Entry) {
    a.hash < b.hash || (a.hash == b.hash && Items.StringLess(a.key, b.key))
  }

  function Insert(d: seq<Entry>, e: Entry): seq<Entry> {
    if d == [] || Before(e, d[0]) then [e] + d else [d[0]] + Insert(d[1..], e)
  }

  /** The entries of the keys, sorted by hash and, for equal hashes, by key. */
  function Sorted(h: Key -> nat, keys: seq<Key>): seq<Entry> {
    if keys == [] then []
    else
      var last := keys[|keys| - 1];
      Insert(Sorted(h, keys[..|keys| - 1]), Entry(h(last), last))
  }

  /** Nothing but the entry itself is added, and nothing is lost. */
  lemma {:induction false} InsertHolds(d: seq<Entry>, e: Entry, x: Entry)
    ensures x in Insert(d, e) <==> x in d || x == e
  {
    if d != [] && !Before(e, d[0]) {
      InsertHolds(d[1..], e, x);
      assert d == [d[0]] + d[1..];
    }
  }

  lemma PutFirst(e: Entry, d: seq<Entry>)
    requires Ascending(d) && forall x | x in d :: e.hash < x.hash
    ensures Ascending([e] + d)
  {
    var d' := [e] + d;
    forall i, j | 0 <= i < j < |d'| ensures d'[i].hash < d'[j].hash {
      assert d'[j] == d[j - 1] && d'[j] in d;
      if i > 0 { assert d'[i] == d[i - 1]; }
    }
  }

  lemma FirstIsLeast(d: seq<Entry>)
    requires Ascending(d) && d != []
    ensures Ascending(d[1..]) && (forall x | x in d[1..] :: d[0].hash < x.hash) && d[0] in d
  {
  }

  lemma {:induction false} InsertIntoRing(d: seq<Entry>, e: Entry)
    requires Ascending(d) && forall x | x in d :: x.hash != e.hash
    ensures Ascending(Insert(d, e))
  {
    hide Ascending;
    if d == [] {
      PutFirst(e, d);
    } else {
      FirstIsLeast(d);
      var first, rest := d[0], d[1..];
      forall x | x in d ensures x == first || x in rest { assert d == [first] + rest; }
      if Before(e, first) {
        PutFirst(e, d);
      } else {
        forall x | x in rest ensures x in d {}
        InsertIntoRing(rest, e);
        forall x | x in Insert(rest, e) ensures first.hash < x.hash { InsertHolds(rest, e, x); }
        PutFirst(first, Insert(rest, e));
      }
    }
  }

  ghost predicate DifferentHashes(h: Key -> nat, keys: seq<Key>) {
    forall i, j | 0 <= i < j < |keys| :: h(keys[i]) != h(keys[j])
  }

  lemma NoneAscending()
    ensures Ascending([])
  {
  }

  /** Sorting the keys of nodes with different hashes gives a ring of exactly those nodes. */
  lemma {:induction false} SortedIsRing(h: Key -> nat, keys: seq<Key>)
    requires DifferentHashes(h, keys)
    ensures Ring(h, Sorted(h, keys)) && Members(Sorted(h, keys)) == set k | k in keys
  {
    hide Before, Insert, Ascending;
    if keys == [] {
      assert Ascending(Sorted(h, keys)) by { NoneAscending(); }
    } else {
      var front, last := keys[..|keys| - 1], keys[|keys| - 1];
      assert keys == front + [last];
      SortedIsRing(h, front);
      var d, e := Sorted(h, front), Entry(h(last), last);
      forall x | x in d ensures x.hash != e.hash {
        assert x.key in Members(d) && x.key in front;
        var i :| 0 <= i < |front| && front[i] == x.key;
        assert h(keys[i]) != h(keys[|keys| - 1]);
      }
      InsertIntoRing(d, e);
      forall x ensures x in Insert(d, e) <==> x in d || x == e { InsertHolds(d, e, x); }
      forall m ensures m in Members(Insert(d, e)) <==> m in Members(d) + {last} {
        if m in Members(d) { var x :| x in d && x.key == m; assert x in Insert(d, e); }
        if m == last { assert e in Insert(d, e); }
      }
    }
  }

  /** A node started with the new membership has the very ring the others get by adding it to theirs. */
  lemma JoinerKnowsTheRing(h: Key -> nat, d: seq<Entry>, a: Key, keys: seq<Key>)
    requires Ring(h, d) && d != [] && forall m | m in Members(d) :: h(m) != h(a)
    requires DifferentHashes(h, keys) && (set k | k in keys) == Members(d) + {a}
    ensures Sorted(h, keys) == Add(h, d, a)
  {
    hide Ring, Members, Sorted, Add;
    SortedIsRing(h, keys);
    AddKeepsRing(h, d, a);
    RingUnique(h, Sorted(h, keys), Add(h, d, a));
  }

  // ---------------------------------------------------------------- who owns what after a change

  /** The condition under which the predecessor of a new node keeps a record; `d` already has the new node. */
  predicate Keeps(h: Key -> nat, d: seq<Entry>, from: Key, split: Key, key: Key)
    requires d != []
  {
    || (h(from) <= h(key) && h(key) < h(split))
    || (from == d[|d| - 1].key && (h(key) >= h(from) || h(key) < h(split)))
  }

  lemma LastOwns(h: Key -> nat, d: seq<Entry>)
    requires Ring(h, d) && d != []
    ensures d[|d| - 1].key in Members(d) && forall m | m in Members(d) :: h(m) <= h(d[|d| - 1].key)
  {
    assert d[|d| - 1] in d;
    forall m | m in Members(d) ensures h(m) <= h(d[|d| - 1].key) {
      var e :| e in d && e.key == m;
      LastIsGreatest(d, e);
    }
  }

  /** A new node takes records only from its predecessor, and which ones is exactly the splitting condition. */
  lemma JoinOwners(h: Key -> nat, d: seq<Entry>, a: Key, key: Key)
    requires Ring(h, d) && d != [] && forall m | m in Members(d) :: h(m) != h(a)
    ensures var d', prev := Add(h, d, a), Closest(h, d, a);
      && (Closest(h, d', key) == a || Closest(h, d', key) == Closest(h, d, key))
      && (Closest(h, d', key) == a ==> Closest(h, d, key) == prev)
      && (Closest(h, d, key) == prev ==> (Keeps(h, d', prev, a, key) <==> Closest(h, d', key) == prev))
    ensures Closest(h, d, key) != a
  {
    hide Members, Add, Closest, Ring;
    var d' := Add(h, d, a);
    AddKeepsRing(h, d, a);
    ClosestIsOwner(h, d, a);
    ClosestIsOwner(h, d, key);
    ClosestIsOwner(h, d', key);
    LastOwns(h, d');
    RingIsSpread(h, d');
  }

  lemma RemoveSize(h: Key -> nat, d: seq<Entry>, a: Key)
    requires |d| > 1
    ensures Remove(h, d, a) != []
  {
  }

  /** When a node leaves, its records go to the node that owns its own position, and no others move. */
  lemma LeaveOwners(h: Key -> nat, d: seq<Entry>, a: Key, key: Key)
    requires Ring(h, d) && a in Members(d) && |d| > 1
    ensures Remove(h, d, a) != []
    ensures var d' := Remove(h, d, a);
      Closest(h, d', key) == if Closest(h, d, key) == a then Closest(h, d', a) else Closest(h, d, key)
  {
    hide Members, Remove, Closest, Ring;
    var d' := Remove(h, d, a);
    RemoveKeepsRing(h, d, a);
    RemoveSize(h, d, a);
    ClosestIsOwner(h, d', a);
    ClosestIsOwner(h, d, key);
    ClosestIsOwner(h, d', key);
    RingIsSpread(h, d);
  }
}
