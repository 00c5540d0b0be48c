/** The key store and the sharded storage node as objects, proved against values. */
module RingNode {
  import opened Options
  import opened RingSpec

  type Data = map<Key, string>

  datatype Node = Node(id: Key, ring: seq<Entry>, data: Data)

  /** An UPDATE message: records on their way to `to`. */
  datatype Update = Update(to: Key, data: Data)

  function Kept(h: Key -> nat, d: seq<Entry>, data: Data, from: Key, split: Key): Data
    requires d != []
  {
    map k | k in data && Keeps(h, d, from, split, k) :: data[k]
  }

  function Added(h: Key -> nat, x: Node, a: Key): Node
    requires x.ring != []
  {
    if x.id == a then x
    else
      var ring := Add(h, x.ring, a);
      Node(x.id, ring, if x.id == Closest(h, x.ring, a) then Kept(h, ring, x.data, x.id, a) else x.data)
  }

  function AddedUpdates(h: Key -> nat, x: Node, a: Key): set<Update>
    requires x.ring != []
  {
    if x.id != a && x.id == Closest(h, x.ring, a)
    then {Update(a, x.data - Kept(h, Add(h, x.ring, a), x.data, x.id, a).Keys)}
    else {}
  }

  function Removed(h: Key -> nat, x: Node, a: Key): Node
    requires x.ring != []
  {
    x.(ring := Remove(h, x.ring, a))
  }

  /** Removing the last node is an error in the source: the lookup on the empty ring raises. */
  function RemovedUpdates(h: Key -> nat, x: Node, a: Key): set<Update>
    requires x.ring != [] && (x.id == a ==> Remove(h, x.ring, a) != [])
  {
    if x.id == a then {Update(Closest(h, Remove(h, x.ring, a), a), x.data)} else {}
  }

  function Arrived(x: Node, u: Update): Node {
    x.(data := x.data + u.data)
  }

  datatype Request = Get(key: Key) | Put(key: Key, value: string) | Delete(key: Key)
  type Value = Option<string>

  function Lookup(data: Data, key: Key): Value {
    if key in data then Some(data[key]) else None
  }

  /** The effect and the answer of a request on a map. */
  function Perform(data: Data, q: Request): Data {
    match q
    case Get(_) => data
    case Put(key, value) => data[key := value]
    case Delete(key) => data - {key}
  }

  function Answer(data: Data, q: Request): Value {
    match q
    case Get(key) => Lookup(data, key)
    case Put(_, value) => Some(value)
    case Delete(key) => Lookup(data, key)
  }

  // ---------------------------------------------------------------- the objects

  class KeyStore {
    const h: Key -> nat
    var d: seq<Entry>

    /** Nodes with different hashes, at least one of them. */
    ghost predicate Valid()
      reads this
    {
      Ring(h, d) && d != []
    }

    constructor (h: Key -> nat, keys: seq<Key>)
      ensures this.h == h && d == Sorted(h, keys)
      ensures DifferentHashes(h, keys) && keys != [] ==> Valid() && Members(d) == set k | k in keys
    {
      this.h := h;
      d := Sorted(h, keys);
      new;
      if DifferentHashes(h, keys) && keys != [] {
        SortedIsRing(h, keys);
        assert keys[0] in keys;
        MembersNone(d);
      }
    }

    method GetIndexByKey(key: Key, keyAdd: bool) returns (i: int)
      requires d != []
      ensures i == if keyAdd then IndexForAdd(d, h(key)) else IndexOf(d, h(key))
      ensures -1 <= i < |d| && (!keyAdd ==> 0 <= i)
      ensures Valid() && keyAdd ==> forall j | 0 <= j < |d| :: d[j].hash <= h(key) <==> j <= i
      ensures Valid() && !keyAdd ==>
        if h(key) < d[0].hash then i == |d| - 1 else forall j | 0 <= j < |d| :: d[j].hash <= h(key) <==> j <= i
    {
      if Valid() { IndexForAddFindsLast(d, h(key)); }
      var x := h(key);
      if x < d[0].hash {
        if keyAdd {
          return -1;
        } else {
          return |d| - 1;
        }
      }
      i := BinSearch(d, x, 0, |d| - 1);
    }

    method GetClosestKey(key: Key) returns (node: Key)
      requires d != []
      ensures node == Closest(h, d, key)
      ensures Valid() ==> IsOwner(h, Members(d), key, node)
    {
      if Valid() { ClosestIsOwner(h, d, key); }
      var i := GetIndexByKey(key, false);
      node := d[i].key;
    }

    method AddKey(key: Key)
      requires d != []
      modifies this
      ensures d == Add(h, old(d), key)
      ensures old(Valid()) && (forall m | m in Members(old(d)) :: h(m) != h(key)) ==>
        Valid() && Members(d) == Members(old(d)) + {key}
    {
      hide Ring, Members, IndexForAdd, Ascending;
      if Valid() && forall m | m in Members(d) :: h(m) != h(key) { AddKeepsRing(h, d, key); }
      var el := Entry(h(key), key);
      var i := GetIndexByKey(key, true);
      d := d[..i + 1] + [el] + d[i + 1..];
    }

    method RemoveKey(key: Key)
      requires d != []
      modifies this
      ensures d == Remove(h, old(d), key)
      ensures old(Valid()) ==> Ring(h, d) && Members(d) == Members(old(d)) - {key}
    {
      hide Ring, Members, IndexOf, Ascending;
      if Valid() { RemoveKeepsRing(h, d, key); }
      var el := Entry(h(key), key);
      var i := GetIndexByKey(key, false);
      if d[i] != el {
        return;
      }
      d := d[..i] + d[i + 1..];
    }

    method SplitByKey(data: Data, from: Key, split: Key) returns (l: Data, r: Data)
      requires d != []
      ensures l == Kept(h, d, data, from, split) && r == data - l.Keys
    {
      var splitHash, fromHash := h(split), h(from);
      l, r := map[], map[];
      var todo := data.Keys;
      while todo != {}
        invariant todo <= data.Keys
        invariant l == map k | k in data && k !in todo && Keeps(h, d, from, split, k) :: data[k]
        invariant r == map k | k in data && k !in todo && !Keeps(h, d, from, split, k) :: data[k]
        decreases todo
      {
        var key :| key in todo;
        todo := todo - {key};
        var hash := h(key);
        if fromHash <= hash && hash < splitHash {
          l := l[key := data[key]];
        } else if from == d[|d| - 1].key && (hash >= fromHash || hash < splitHash) {
          l := l[key := data[key]];
        } else {
          r := r[key := data[key]];
        }
      }
    }
  }

  class StorageNode {
    const id: Key
    const nodes: KeyStore
    var data: Data

    ghost function Abs(): Node
      reads this, nodes
    {
      Node(id, nodes.d, data)
    }

    constructor (h: Key -> nat, id: Key, keys: seq<Key>)
      ensures fresh(nodes) && nodes.h == h
      ensures Abs() == Node(id, Sorted(h, keys), map[])
    {
      this.id := id;
      nodes := new KeyStore(h, keys);
      data := map[];
    }

    /** Route a client request to the responsible node. */
    method OnClient(q: Request) returns (to: Key)
      requires nodes.d != []
      ensures to == Closest(nodes.h, nodes.d, q.key)
    {
      to := nodes.GetClosestKey(q.key);
    }

    method OnNodeAdded(a: Key) returns (sent: set<Update>)
      requires nodes.d != []
      modifies this, nodes
      ensures Abs() == Added(nodes.h, old(Abs()), a)
      ensures sent == AddedUpdates(nodes.h, old(Abs()), a)
    {
      sent := {};
      if id == a {
        return;
      }
      var prev := nodes.GetClosestKey(a);
      nodes.AddKey(a);
      if id == prev {
        var moved;
        data, moved := nodes.SplitByKey(data, id, a);
        sent := {Update(a, moved)};
      }
    }

    method OnNodeRemoved(a: Key) returns (sent: set<Update>)
      requires nodes.d != [] && (id == a ==> Remove(nodes.h, nodes.d, a) != [])
      modifies nodes
      ensures Abs() == Removed(nodes.h, old(Abs()), a)
      ensures sent == RemovedUpdates(nodes.h, old(Abs()), a)
    {
      sent := {};
      nodes.RemoveKey(a);
      if id == a {
        var to := nodes.GetClosestKey(a);
        sent := {Update(to, data)};
      }
    }

    method OnUpdate(u: Update)
      modifies this
      ensures Abs() == Arrived(old(Abs()), u)
    {
      data := data + u.data;
    }

    method OnRequest(q: Request) returns (answer: Value)
      modifies this
      ensures data == Perform(old(data), q) && answer == Answer(old(data), q)
      ensures q.Put? ==> data == old(data)[q.key := q.value] && answer == Some(q.value)
      ensures !q.Put? ==> answer == if q.key in old(data) then Some(old(data)[q.key]) else None
      ensures q.Get? ==> data == old(data)
      ensures q.Delete? ==> data == old(data) - {q.key}
    {
      match q
      case Get(key) =>
        answer := if key in data then Some(data[key]) else None;
      case Put(key, value) =>
        data := data[key := value];
        answer := Some(value);
      case Delete(key) =>
        answer := if key in data then Some(data[key]) else None;
        data := data - {key};
    }
  }
}
