/** RAID3 over a proxy: a value split into blocks, one parity block, and the recovery of any one lost block. */
module Raid3 {

  type Bytes = seq<bv8>

  /** The parity block carries no index. */
  datatype Index = NoIndex | At(i: nat)
  datatype DataBlock = DataBlock(index: Index, data: Bytes)
  datatype MaybeBlock = Lost | Have(block: DataBlock)
  datatype Result<T> = Ok(value: T) | ValueError

  function Zeros(n: nat): Bytes {
    seq(n, _ => 0)
  }

  // ---------------------------------------------------------------- splitting

  function Ceil(a: nat, b: nat): nat
    requires b > 0
  {
    (a + b - 1) / b
  }

  /** Blocks of `size` bytes, the last one filled up with zeros. */
  function Chunks(bytes: Bytes, size: nat): seq<Bytes>
    requires size > 0
    decreases |bytes|
  {
    if bytes == [] then []
    else if |bytes| <= size then [bytes + Zeros(size - |bytes|)]
    else [bytes[..size]] + Chunks(bytes[size..], size)
  }

  function Numbered(first: nat, chunks: seq<Bytes>): seq<DataBlock> {
    seq(|chunks|, i requires 0 <= i < |chunks| => DataBlock(At(first + i), chunks[i]))
  }

  /** What is left of the bytes from position `at` on. */
  function From(bytes: Bytes, at: nat): Bytes {
    if at <= |bytes| then bytes[at..] else []
  }

  /** The bytes from `at` on, up to `size` of them: a slice stops at the end of the bytes. */
  function Slice(bytes: Bytes, at: nat, size: nat): (r: Bytes)
    ensures |r| <= size
  {
    if at + size <= |bytes| then bytes[at..at + size] else From(bytes, at)
  }

  /** The blocks made so far, with those still to come, are the blocks wanted. */
  ghost predicate CutTo(bytes: Bytes, size: nat, at: nat, res: seq<DataBlock>)
    requires size > 0
  {
    res + Numbered(|res|, Chunks(From(bytes, at), size)) == Numbered(0, Chunks(bytes, size))
  }

  lemma FromStart(bytes: Bytes)
    ensures From(bytes, 0) == bytes
  {
  }

  lemma NothingCut(bytes: Bytes, size: nat)
    requires size > 0
    ensures CutTo(bytes, size, 0, [])
  {
    hide Chunks, Numbered;
    FromStart(bytes);
    assert forall s: seq<DataBlock> :: [] + s == s;
  }

  lemma Regroup<T>(a: seq<T>, x: T, b: seq<T>)
    ensures a + ([x] + b) == (a + [x]) + b
    ensures |a + [x]| == |a| + 1
  {
  }

  lemma ChunksNext(bytes: Bytes, at: nat, size: nat)
    requires size > 0 && at < |bytes|
    ensures var block := Slice(bytes, at, size);
      Chunks(From(bytes, at), size) == [block + Zeros(size - |block|)] + Chunks(From(bytes, at + size), size)
  {
    var rest := From(bytes, at);
    if size < |rest| {
      assert rest[..size] + Zeros(0) == rest[..size];
      assert rest[..size] == Slice(bytes, at, size);
      assert rest[size..] == From(bytes, at + size);
    } else {
      assert Slice(bytes, at, size) == rest;
    }
  }

  lemma NumberedCons(first: nat, c: Bytes, rest: seq<Bytes>)
    ensures Numbered(first, [c] + rest) == [DataBlock(At(first), c)] + Numbered(first + 1, rest)
  {
  }

  lemma NumberedNext(first: nat, bytes: Bytes, at: nat, size: nat)
    requires size > 0 && at < |bytes|
    ensures var block := Slice(bytes, at, size);
      Numbered(first, Chunks(From(bytes, at), size)) ==
        [DataBlock(At(first), block + Zeros(size - |block|))]
        + Numbered(first + 1, Chunks(From(bytes, at + size), size))
  {
    hide Numbered;
    var block := Slice(bytes, at, size);
    var c := block + Zeros(size - |block|);
    assert Chunks(From(bytes, at), size) == [c] + Chunks(From(bytes, at + size), size) by {
      ChunksNext(bytes, at, size);
    }
    NumberedCons(first, c, Chunks(From(bytes, at + size), size));
  }

  lemma CutNext(bytes: Bytes, size: nat, at: nat, res: seq<DataBlock>)
    requires size > 0 && at < |bytes| && CutTo(bytes, size, at, res)
    ensures var block := Slice(bytes, at, size);
      CutTo(bytes, size, at + size, res + [DataBlock(At(|res|), block + Zeros(size - |block|))])
  {
    hide Chunks, Numbered, Zeros, Slice, From;
    var block := Slice(bytes, at, size);
    NumberedNext(|res|, bytes, at, size);
    var more := Numbered(|res| + 1, Chunks(From(bytes, at + size), size));
    Regroup(res, DataBlock(At(|res|), block + Zeros(size - |block|)), more);
  }

  lemma NumberedNone(first: nat, bytes: Bytes, at: nat, size: nat)
    requires size > 0 && |bytes| <= at
    ensures Numbered(first, Chunks(From(bytes, at), size)) == []
  {
  }

  lemma CutAll(bytes: Bytes, size: nat, at: nat, res: seq<DataBlock>)
    requires size > 0 && |bytes| <= at && CutTo(bytes, size, at, res)
    ensures res == Numbered(0, Chunks(bytes, size))
  {
    hide Chunks, Numbered, From;
    NumberedNone(|res|, bytes, at, size);
    assert res + [] == res;
  }

  lemma CeilPositive(a: nat, b: nat)
    requires a > 0 && b > 0
    ensures Ceil(a, b) > 0
  {
  }

  lemma {:induction false} ChunksSize(bytes: Bytes, size: nat)
    requires size > 0
    ensures forall c | c in Chunks(bytes, size) :: |c| == size
    decreases |bytes|
  {
    if |bytes| > size { ChunksSize(bytes[size..], size); }
  }

  /** Every block carries its position and, like its neighbours, the chunk at it. */
  lemma BlocksAre(chunks: seq<Bytes>)
    ensures |Numbered(0, chunks)| == |chunks|
    ensures forall i | 0 <= i < |chunks| :: Numbered(0, chunks)[i] == DataBlock(At(i), chunks[i]) && chunks[i] in chunks
  {
  }

  /** An empty value is an error: the step between blocks would be zero. */
  method Split(dataBlocks: nat, bytes: Bytes) returns (blocks: Result<seq<DataBlock>>)
    requires dataBlocks > 0
    ensures bytes == [] <==> blocks.ValueError?
    ensures bytes != [] ==> Ceil(|bytes|, dataBlocks) > 0
    ensures bytes != [] ==> blocks == Ok(Numbered(0, Chunks(bytes, Ceil(|bytes|, dataBlocks))))
    ensures blocks.Ok? ==> forall i | 0 <= i < |blocks.value| ::
      blocks.value[i].index == At(i) && |blocks.value[i].data| == Ceil(|bytes|, dataBlocks)
  {
    hide *;
    if bytes == [] {
      return ValueError;
    }
    var size := Ceil(|bytes|, dataBlocks);
    CeilPositive(|bytes|, dataBlocks);
    var res: seq<DataBlock> := [];
    var at := 0;
    NothingCut(bytes, size);
    while at < |bytes|
      invariant CutTo(bytes, size, at, res)
      decreases |bytes| - at
    {
      var block := Slice(bytes, at, size);
      block := block + Zeros(size - |block|);
      CutNext(bytes, size, at, res);
      res := res + [DataBlock(At(|res|), block)];
      at := at + size;
    }
    CutAll(bytes, size, at, res);
    BlocksAre(Chunks(bytes, size));
    ChunksSize(bytes, size);
    blocks := Ok(res);
  }

  function Concat(chunks: seq<Bytes>): Bytes {
    if chunks == [] then [] else chunks[0] + Concat(chunks[1..])
  }

  lemma ConcatFirst(first: Bytes, rest: seq<Bytes>)
    ensures Concat([first] + rest) == first + Concat(rest)
  {
    assert ([first] + rest)[1..] == rest;
  }

  lemma LastChunk(bytes: Bytes, size: nat)
    requires |bytes| <= size
    ensures Concat([]) == []
    ensures var p := bytes + Zeros(size - |bytes|);
      Concat([p]) == p && bytes <= p && forall i | |bytes| <= i < |p| :: p[i] == 0
  {
    ConcatFirst(bytes + Zeros(size - |bytes|), []);
  }

  lemma PadMore(a: Bytes, b: Bytes, padded: Bytes)
    requires b <= padded && forall i | |b| <= i < |padded| :: padded[i] == 0
    ensures a + b <= a + padded && forall i | |a + b| <= i < |a + padded| :: (a + padded)[i] == 0
  {
  }

  /** Nothing is lost or reordered by splitting; only zeros are added at the end. */
  lemma {:induction false} ChunksConcat(bytes: Bytes, size: nat)
    requires size > 0
    ensures bytes <= Concat(Chunks(bytes, size))
    ensures forall i | |bytes| <= i < |Concat(Chunks(bytes, size))| :: Concat(Chunks(bytes, size))[i] == 0
    decreases |bytes|
  {
    hide Concat, Zeros;
    if |bytes| > size {
      ChunksConcat(bytes[size..], size);
      ConcatFirst(bytes[..size], Chunks(bytes[size..], size));
      PadMore(bytes[..size], bytes[size..], Concat(Chunks(bytes[size..], size)));
      assert bytes == bytes[..size] + bytes[size..];
    } else if bytes != [] {
      LastChunk(bytes, size);
    } else {
      LastChunk([], 0);
    }
  }

  // ---------------------------------------------------------------- how many blocks

  /** The number of blocks: the least one whose capacity reaches the length. */
  lemma {:induction false} ChunkCount(bytes: Bytes, size: nat)
    requires size > 0 && bytes != []
    ensures |Chunks(bytes, size)| >= 1
    ensures (|Chunks(bytes, size)| - 1) * size < |bytes| <= |Chunks(bytes, size)| * size
    decreases |bytes|
  {
    if |bytes| > size {
      ChunkCount(bytes[size..], size);
      var k := |Chunks(bytes[size..], size)|;
      assert |Chunks(bytes, size)| == k + 1;
      assert (k - 1) * size + size == k * size && k * size + size == (k + 1) * size;
    }
  }

  lemma CeilBounds(a: nat, b: nat)
    requires b > 0
    ensures (Ceil(a, b) - 1) * b < a + (if a == 0 then 1 else 0) && a <= Ceil(a, b) * b
  {
    var q := (a + b - 1) / b;
    assert a + b - 1 == q * b + (a + b - 1) % b;
  }

  lemma Times(a: nat, b: nat, c: nat)
    requires a <= b
    ensures a * c <= b * c
  {
  }

  /** The split fills all `d` blocks exactly when d - 1 of them are too few. */
  lemma FillsExactly(bytes: Bytes, d: nat)
    requires d > 0 && bytes != []
    ensures Ceil(|bytes|, d) > 0
    ensures |Chunks(bytes, Ceil(|bytes|, d))| == d <==> (d - 1) * Ceil(|bytes|, d) < |bytes|
    ensures |Chunks(bytes, Ceil(|bytes|, d))| <= d
  {
    CeilPositive(|bytes|, d);
    var size := Ceil(|bytes|, d);
    CeilBounds(|bytes|, d);
    ChunkCount(bytes, size);
    var k := |Chunks(bytes, size)|;
    if k > d { Times(d, k - 1, size); }
    if k < d { Times(k, d - 1, size); }
  }

  lemma LongEnough(n: nat, d: nat, size: nat)
    requires d > 0 && n > 0 && (size - 1) * d < n <= size * d
    ensures n > (d - 1) * (d - 1) ==> (d - 1) * size < n
    ensures d >= 2 && n == (d - 1) * (d - 1) ==> (d - 1) * size >= n
  {
    var s := size - 1;
    assert (d - 1) * size == s * d - s + d - 1;
    if n > (d - 1) * (d - 1) {
      if s < d - 1 {
        Times(s + 1, d - 1, d - 1);
        assert (d - 1) * (s + 1) == (s + 1) * (d - 1);
      }
    }
    if d >= 2 && n == (d - 1) * (d - 1) {
      assert (d - 2) * d == (d - 1) * (d - 1) - 1;
      if size <= d - 2 { Times(size, d - 2, d); }
      assert size >= d - 1;
      Times(d - 1, size, d - 1);
    }
  }

  /** Any value longer than (d - 1) squared fills all `d` blocks, and that bound is tight for every d. */
  lemma FillsWhenLong(bytes: Bytes, d: nat)
    requires d > 0 && bytes != []
    ensures Ceil(|bytes|, d) > 0
    ensures |bytes| > (d - 1) * (d - 1) ==> |Chunks(bytes, Ceil(|bytes|, d))| == d
    ensures d >= 2 && |bytes| == (d - 1) * (d - 1) ==> |Chunks(bytes, Ceil(|bytes|, d))| < d
  {
    FillsExactly(bytes, d);
    CeilBounds(|bytes|, d);
    LongEnough(|bytes|, d, Ceil(|bytes|, d));
  }

  // ---------------------------------------------------------------- parity

  function Min(a: nat, b: nat): nat {
    if a < b then a else b
  }

  /** Byte by byte; like the source's zip it stops at the shorter one. */
  function Xor(a: Bytes, b: Bytes): Bytes {
    seq(Min(|a|, |b|), i requires 0 <= i < Min(|a|, |b|) => a[i] ^ b[i])
  }

  function XorAll(size: nat, chunks: seq<Bytes>): Bytes {
    if chunks == [] then Zeros(size) else Xor(XorAll(size, chunks[..|chunks| - 1]), chunks[|chunks| - 1])
  }

  function DataOf(blocks: seq<DataBlock>): seq<Bytes> {
    seq(|blocks|, i requires 0 <= i < |blocks| => blocks[i].data)
  }

  method Parity(blocks: seq<DataBlock>) returns (res: Result<DataBlock>)
    requires blocks != []
    ensures res.Ok? <==> forall b | b in blocks :: |b.data| == |blocks[0].data|
    ensures res.Ok? ==> res.value == DataBlock(NoIndex, XorAll(|blocks[0].data|, DataOf(blocks)))
  {
    var size := |blocks[0].data|;
    var parity := Zeros(size);
    for i := 0 to |blocks|
      invariant |parity| == size && parity == XorAll(size, DataOf(blocks[..i]))
      invariant forall j | 0 <= j < i :: |blocks[j].data| == size
    {
      if |blocks[i].data| != |parity| {
        return ValueError;
      }
      parity := Xor(parity, blocks[i].data);
      assert DataOf(blocks[..i + 1])[..i] == DataOf(blocks[..i]);
    }
    assert blocks[..|blocks|] == blocks;
    res := Ok(DataBlock(NoIndex, parity));
  }

  lemma {:induction false} XorAllSize(size: nat, chunks: seq<Bytes>)
    requires forall c | c in chunks :: |c| == size
    ensures |XorAll(size, chunks)| == size
  {
    if chunks != [] { XorAllSize(size, chunks[..|chunks| - 1]); }
  }

  lemma XorAssociative(a: Bytes, b: Bytes, c: Bytes)
    requires |a| == |b| == |c|
    ensures Xor(Xor(a, b), c) == Xor(a, Xor(b, c))
  {
  }

  lemma {:induction false} XorAllJoin(size: nat, a: seq<Bytes>, b: seq<Bytes>)
    requires forall c | c in a + b :: |c| == size
    ensures XorAll(size, a + b) == Xor(XorAll(size, a), XorAll(size, b))
  {
    if b == [] {
      assert a + b == a;
      XorAllSize(size, a);
      assert Xor(XorAll(size, a), Zeros(size)) == XorAll(size, a);
    } else {
      var front, last := b[..|b| - 1], b[|b| - 1];
      assert (a + b)[..|a + b| - 1] == a + front;
      forall c | c in a + front ensures |c| == size { assert c in a + b; }
      assert last in a + b;
      XorAllJoin(size, a, front);
      forall c | c in a ensures |c| == size { assert c in a + b; }
      XorAllSize(size, a);
      XorAllSize(size, front);
      XorAssociative(XorAll(size, a), XorAll(size, front), last);
    }
  }

  lemma OneBlock(size: nat, x: Bytes)
    requires |x| == size
    ensures XorAll(size, [x]) == x
  {
    assert [x][..0] == [];
    assert Xor(Zeros(size), x) == x;
  }

  lemma CancelByte(a: bv8, b: bv8, x: bv8)
    ensures (a ^ b) ^ (a ^ (x ^ b)) == x
  {
  }

  lemma Cancel(a: Bytes, b: Bytes, x: Bytes)
    requires |a| == |b| == |x|
    ensures Xor(Xor(a, b), Xor(a, Xor(x, b))) == x
  {
    forall i | 0 <= i < |x| ensures Xor(Xor(a, b), Xor(a, Xor(x, b)))[i] == x[i] {
      CancelByte(a[i], b[i], x[i]);
    }
  }

  /** The exclusive or of all blocks but one, and of the parity of them all, is the missing block. */
  lemma MissingBlock(size: nat, a: seq<Bytes>, x: Bytes, b: seq<Bytes>)
    requires |x| == size && forall c | c in a + b :: |c| == size
    ensures XorAll(size, a + b + [XorAll(size, a + [x] + b)]) == x
  {
    var p := XorAll(size, a + [x] + b);
    forall c | c in a + [x] + b ensures |c| == size { assert c in a + b || c == x; }
    XorAllSize(size, a + [x] + b);
    XorAllSize(size, a + b);
    forall c | c in a + b + [p] ensures |c| == size { assert c in a + b || c == p; }
    XorAllJoin(size, a + b, [p]);
    OneBlock(size, p);
    assert a + [x] + b == a + ([x] + b);
    forall c | c in [x] + b ensures |c| == size { assert c == x || c in a + b; }
    XorAllJoin(size, a, [x] + b);
    XorAllJoin(size, [x], b);
    OneBlock(size, x);
    XorAllJoin(size, a, b);
    forall c | c in a ensures |c| == size { assert c in a + b; }
    forall c | c in b ensures |c| == size { assert c in a + b; }
    XorAllSize(size, a);
    XorAllSize(size, b);
    Cancel(XorAll(size, a), XorAll(size, b), x);
  }

  /** Bit by bit, the parity of two blocks tells where they differ. */
  lemma ParityOfTwo(a: Bytes, b: Bytes)
    requires |a| == |b|
    ensures |XorAll(|a|, [a, b])| == |a| && forall i | 0 <= i < |a| :: XorAll(|a|, [a, b])[i] == a[i] ^ b[i]
  {
    OneBlock(|a|, a);
    assert [a, b][..1] == [a];
  }

  // ---------------------------------------------------------------- joining and recovering

  /** Cut the zeros off the end. */
  function Strip(bytes: Bytes): Bytes {
    if bytes != [] && bytes[|bytes| - 1] == 0 then Strip(bytes[..|bytes| - 1]) else bytes
  }

  predicate EndsInZero(bytes: Bytes) {
    bytes != [] && bytes[|bytes| - 1] == 0
  }

  lemma {:induction false} StripPadding(bytes: Bytes, padded: Bytes)
    requires bytes <= padded && forall i | |bytes| <= i < |padded| :: padded[i] == 0
    ensures Strip(padded) == Strip(bytes)
    decreases |padded|
  {
    if |padded| > |bytes| {
      StripPadding(bytes, padded[..|padded| - 1]);
    } else {
      assert padded == bytes;
    }
  }

  lemma {:induction false} StripShorter(bytes: Bytes)
    ensures |Strip(bytes)| <= |bytes| && (EndsInZero(bytes) ==> |Strip(bytes)| < |bytes|)
  {
    if EndsInZero(bytes) { StripShorter(bytes[..|bytes| - 1]); }
  }

  /** Only zeros are cut off, and all of them. */
  lemma {:induction false} StripCuts(bytes: Bytes)
    ensures Strip(bytes) <= bytes && !EndsInZero(Strip(bytes))
    ensures forall i | |Strip(bytes)| <= i < |bytes| :: bytes[i] == 0
  {
    if EndsInZero(bytes) { StripCuts(bytes[..|bytes| - 1]); }
  }

  /** All blocks but the parity must be there: the source raises on a missing one. */
  predicate Complete(blocks: seq<MaybeBlock>) {
    forall i | 0 <= i < |blocks| - 1 :: blocks[i].Have?
  }

  function Present(blocks: seq<MaybeBlock>): seq<Bytes> {
    if blocks == [] then []
    else
      Present(blocks[..|blocks| - 1])
      + match blocks[|blocks| - 1] { case Lost => [] case Have(b) => [b.data] }
  }

  lemma {:induction false} ConcatLast(chunks: seq<Bytes>, last: Bytes)
    ensures Concat(chunks + [last]) == Concat(chunks) + last
  {
    if chunks == [] {
      assert [last][1..] == [];
    } else {
      ConcatLast(chunks[1..], last);
      assert (chunks + [last])[1..] == chunks[1..] + [last];
    }
  }

  method Join(blocks: array<MaybeBlock>) returns (value: Bytes)
    requires blocks.Length > 0 && Complete(blocks[..])
    ensures value == Strip(Concat(Present(blocks[..blocks.Length - 1])))
  {
    var all: Bytes := [];
    for i := 0 to blocks.Length - 1
      invariant all == Concat(Present(blocks[..i]))
    {
      assert blocks[..][i].Have?;
      assert blocks[..i + 1][..i] == blocks[..i];
      ConcatLast(Present(blocks[..i]), blocks[i].block.data);
      all := all + blocks[i].block.data;
    }
    value := Strip(all);
  }

  /** What the recovery puts in the place of the lost block. */
  function Rebuilt(blocks: seq<MaybeBlock>, lost: nat): seq<MaybeBlock>
    requires lost < |blocks|
  {
    if lost == |blocks| - 1 || Present(blocks) == [] then blocks
    else blocks[lost := Have(DataBlock(At(lost), XorAll(|Present(blocks)[0]|, Present(blocks))))]
  }

  lemma XorAllMore(size: nat, chunks: seq<Bytes>, c: Bytes)
    ensures XorAll(size, chunks + [c]) == Xor(XorAll(size, chunks), c)
  {
    assert (chunks + [c])[..|chunks|] == chunks;
  }

  method Recover(blocks: array<MaybeBlock>, errorIndex: nat) returns (value: Bytes)
    requires blocks.Length > 1 && errorIndex < blocks.Length
    requires forall i | 0 <= i < blocks.Length :: blocks[i].Lost? <==> i == errorIndex
    modifies blocks
    ensures blocks[..] == Rebuilt(old(blocks[..]), errorIndex)
    ensures value == Strip(Concat(Present(blocks[..blocks.Length - 1])))
  {
    if errorIndex == blocks.Length - 1 {
      value := Join(blocks);
      return;
    }
    hide Xor;
    var recovered: Bytes, started := [], false;
    for i := 0 to blocks.Length
      invariant blocks[..] == old(blocks[..])
      invariant started <==> Present(blocks[..i]) != []
      invariant started ==> recovered == XorAll(|Present(blocks[..i])[0]|, Present(blocks[..i]))
      invariant i >= 2 ==> started
      invariant i == 1 && errorIndex != 0 ==> started
    {
      ghost var seen := Present(blocks[..i]);
      assert blocks[..i + 1][..i] == blocks[..i];
      if blocks[i].Have? {
        ghost var size := if seen == [] then |blocks[i].block.data| else |seen[0]|;
        if !started {
          recovered, started := Zeros(|blocks[i].block.data|), true;
        }
        assert recovered == XorAll(size, seen);
        XorAllMore(size, seen, blocks[i].block.data);
        assert Present(blocks[..i + 1]) == seen + [blocks[i].block.data];
        recovered := Xor(recovered, blocks[i].block.data);
      } else {
        assert Present(blocks[..i + 1]) == seen;
      }
    }
    assert blocks[..blocks.Length] == blocks[..];
    blocks[errorIndex] := Have(DataBlock(At(errorIndex), recovered));
    value := Join(blocks);
  }

  // ---------------------------------------------------------------- any one loss is survived

  function Haves(blocks: seq<DataBlock>): seq<MaybeBlock> {
    seq(|blocks|, i requires 0 <= i < |blocks| => Have(blocks[i]))
  }

  /** What the proxy stores: the numbered blocks and their parity. */
  function Stored(bytes: Bytes, d: nat): seq<DataBlock>
    requires d > 0 && Ceil(|bytes|, d) > 0
  {
    var chunks := Chunks(bytes, Ceil(|bytes|, d));
    Numbered(0, chunks) + [DataBlock(NoIndex, XorAll(Ceil(|bytes|, d), chunks))]
  }

  function Damaged(stored: seq<DataBlock>, lost: nat): seq<MaybeBlock>
    requires lost < |stored|
  {
    Haves(stored)[lost := Lost]
  }

  lemma {:induction false} PresentJoin(a: seq<MaybeBlock>, b: seq<MaybeBlock>)
    ensures Present(a + b) == Present(a) + Present(b)
  {
    if b == [] {
      assert a + b == a;
    } else {
      PresentJoin(a, b[..|b| - 1]);
      assert (a + b)[..|a + b| - 1] == a + b[..|b| - 1];
    }
  }

  lemma {:induction false} PresentHaves(blocks: seq<DataBlock>)
    ensures Present(Haves(blocks)) == DataOf(blocks)
  {
    if blocks != [] {
      PresentHaves(blocks[..|blocks| - 1]);
      assert Haves(blocks)[..|blocks| - 1] == Haves(blocks[..|blocks| - 1]);
    }
  }

  lemma PresentOne()
    ensures Present([Lost]) == []
  {
    assert [Lost][..0] == [];
  }

  lemma PresentDamaged(stored: seq<DataBlock>, lost: nat)
    requires lost < |stored|
    ensures Present(Damaged(stored, lost)) == DataOf(stored[..lost]) + DataOf(stored[lost + 1..])
  {
    var a, b := Haves(stored[..lost]), Haves(stored[lost + 1..]);
    assert Damaged(stored, lost) == a + [Lost] + b;
    hide Present, Haves;
    PresentJoin(a + [Lost], b);
    PresentJoin(a, [Lost]);
    PresentHaves(stored[..lost]);
    PresentHaves(stored[lost + 1..]);
    PresentOne();
  }

  lemma StoredData(chunks: seq<Bytes>, parity: Bytes, lost: nat)
    requires lost < |chunks|
    ensures var stored := Numbered(0, chunks) + [DataBlock(NoIndex, parity)];
      && |stored| == |chunks| + 1 && stored[lost] == DataBlock(At(lost), chunks[lost])
      && DataOf(stored[..lost]) + DataOf(stored[lost + 1..]) == chunks[..lost] + chunks[lost + 1..] + [parity]
  {
    var stored := Numbered(0, chunks) + [DataBlock(NoIndex, parity)];
    assert DataOf(stored[..lost]) == chunks[..lost];
    assert DataOf(stored[lost + 1..]) == chunks[lost + 1..] + [parity];
  }

  lemma PutBack(stored: seq<DataBlock>, lost: nat)
    requires lost < |stored|
    ensures |Damaged(stored, lost)| == |stored| && Damaged(stored, lost)[lost := Have(stored[lost])] == Haves(stored)
  {
  }

  /** Rebuilding a lost data block gives back exactly what was stored. */
  lemma RebuiltIsStored(size: nat, chunks: seq<Bytes>, lost: nat)
    requires lost < |chunks| && forall c | c in chunks :: |c| == size
    ensures var stored := Numbered(0, chunks) + [DataBlock(NoIndex, XorAll(size, chunks))];
      Rebuilt(Damaged(stored, lost), lost) == Haves(stored)
  {
    hide Present, Numbered, XorAll, Haves;
    var parity := XorAll(size, chunks);
    var stored := Numbered(0, chunks) + [DataBlock(NoIndex, parity)];
    StoredData(chunks, parity, lost);
    var damaged := Damaged(stored, lost);
    var x, a, b := chunks[lost], chunks[..lost], chunks[lost + 1..];
    PresentDamaged(stored, lost);
    assert x in chunks;
    forall c | c in a + b ensures |c| == size { assert c in a || c in b; }
    assert chunks == a + [x] + b;
    MissingBlock(size, a, x, b);
    XorAllSize(size, chunks);
    assert |(a + b + [parity])[0]| == size;
    PutBack(stored, lost);
  }

  lemma NumberedData(chunks: seq<Bytes>)
    ensures |Numbered(0, chunks)| == |chunks| && DataOf(Numbered(0, chunks)) == chunks
  {
  }

  /** Losing any one of the stored blocks, the parity included, the bytes come back without their trailing
      zeros: the value itself exactly when it does not end in one. */
  lemma AnyOneLost(bytes: Bytes, d: nat, lost: nat)
    requires d > 0 && bytes != [] && Ceil(|bytes|, d) > 0 && lost < |Stored(bytes, d)|
    ensures var stored := Stored(bytes, d);
      var value := Strip(Concat(Present(Rebuilt(Damaged(stored, lost), lost)[..|stored| - 1])));
      value == Strip(bytes) && (value == bytes <==> !EndsInZero(bytes))
  {
    hide Numbered, XorAll, Chunks, Concat, Present;
    var size := Ceil(|bytes|, d);
    var chunks, stored := Chunks(bytes, size), Stored(bytes, d);
    ChunksConcat(bytes, size);
    ChunksSize(bytes, size);
    NumberedData(chunks);
    var front := stored[..|stored| - 1];
    assert front == Numbered(0, chunks);
    if lost < |chunks| {
      RebuiltIsStored(size, chunks, lost);
    }
    assert Rebuilt(Damaged(stored, lost), lost)[..|stored| - 1] == Haves(front);
    PresentHaves(front);
    StripPadding(bytes, Concat(chunks));
    StripShorter(bytes);
  }

  // ---------------------------------------------------------------- one slot for each node

  datatype ReadResult = Value(bytes: Bytes) | TooManyErrors

  function Errors(blocks: seq<MaybeBlock>): nat {
    if blocks == [] then 0
    else Errors(blocks[..|blocks| - 1]) + if blocks[|blocks| - 1].Lost? then 1 else 0
  }

  /** The node that failed last. */
  function ErrorIndex(blocks: seq<MaybeBlock>): nat
    requires Errors(blocks) > 0
  {
    if blocks[|blocks| - 1].Lost? then |blocks| - 1 else ErrorIndex(blocks[..|blocks| - 1])
  }

  lemma {:induction false} ErrorIndexBelow(blocks: seq<MaybeBlock>)
    requires Errors(blocks) > 0
    ensures ErrorIndex(blocks) < |blocks|
  {
    if blocks[|blocks| - 1].Have? { ErrorIndexBelow(blocks[..|blocks| - 1]); }
  }

  function Completed(blocks: seq<MaybeBlock>): (r: seq<MaybeBlock>)
    ensures |r| == |blocks|
  {
    if Errors(blocks) == 0 then blocks else ErrorIndexBelow(blocks); Rebuilt(blocks, ErrorIndex(blocks))
  }

  /** What the proxy makes of the answers of its nodes, one slot for each. */
  function Read(blocks: seq<MaybeBlock>): ReadResult
    requires blocks != []
  {
    if Errors(blocks) > 1 then TooManyErrors
    else Value(Strip(Concat(Present(Completed(blocks)[..|blocks| - 1]))))
  }

  /** The slots of the d + 1 nodes: those beyond the blocks stored have nothing to answer with. */
  function Slots(bytes: Bytes, d: nat): seq<MaybeBlock>
    requires d > 0 && Ceil(|bytes|, d) > 0
  {
    var stored := Stored(bytes, d);
    seq(d + 1, i requires 0 <= i < d + 1 => if i < |stored| then Have(stored[i]) else Lost)
  }

  lemma {:induction false} NoErrors(blocks: seq<MaybeBlock>)
    requires forall b | b in blocks :: b.Have?
    ensures Errors(blocks) == 0
  {
    if blocks != [] {
      assert blocks[|blocks| - 1] in blocks;
      NoErrors(blocks[..|blocks| - 1]);
    }
  }

  lemma {:induction false} OneError(blocks: seq<MaybeBlock>, e: nat)
    requires e < |blocks| && forall i | 0 <= i < |blocks| :: blocks[i].Lost? <==> i == e
    ensures Errors(blocks) == 1 && ErrorIndex(blocks) == e
    decreases |blocks|
  {
    var front := blocks[..|blocks| - 1];
    if e < |front| { OneError(front, e); } else { NoErrors(front); }
  }

  lemma {:induction false} SomeError(blocks: seq<MaybeBlock>, e: nat)
    requires e < |blocks| && blocks[e].Lost?
    ensures Errors(blocks) >= 1
    decreases |blocks|
  {
    if e < |blocks| - 1 { SomeError(blocks[..|blocks| - 1], e); }
  }

  lemma {:induction false} TwoErrors(blocks: seq<MaybeBlock>, e: nat, f: nat)
    requires e < f < |blocks| && blocks[e].Lost? && blocks[f].Lost?
    ensures Errors(blocks) >= 2
    decreases |blocks|
  {
    var front := blocks[..|blocks| - 1];
    if f < |front| { TwoErrors(front, e, f); } else { SomeError(front, e); }
  }

  lemma StoredSize(bytes: Bytes, d: nat)
    requires d > 0 && bytes != []
    ensures Ceil(|bytes|, d) > 0
    ensures var k := |Chunks(bytes, Ceil(|bytes|, d))|; 1 <= k <= d && |Stored(bytes, d)| == k + 1
  {
    hide Chunks, Numbered, XorAll;
    FillsExactly(bytes, d);
    ChunkCount(bytes, Ceil(|bytes|, d));
    NumberedData(Chunks(bytes, Ceil(|bytes|, d)));
  }

  /** A full split survives any one failure up to trailing zeros. */
  lemma FullReads(bytes: Bytes, d: nat, lost: nat)
    requires d > 0 && bytes != [] && Ceil(|bytes|, d) > 0 && |Chunks(bytes, Ceil(|bytes|, d))| == d && lost <= d
    ensures Read(Slots(bytes, d)[lost := Lost]) == Value(Strip(bytes))
  {
    hide Chunks, Numbered, XorAll, Present, Concat, Strip, Errors, ErrorIndex, Rebuilt;
    StoredSize(bytes, d);
    AnyOneLost(bytes, d, lost);
    var damaged := Slots(bytes, d)[lost := Lost];
    assert damaged == Damaged(Stored(bytes, d), lost);
    OneError(damaged, lost);
  }

  ghost predicate SurvivesLoss(bytes: Bytes, d: nat, lost: nat)
    requires d > 0 && Ceil(|bytes|, d) > 0 && lost <= d
  {
    Read(Slots(bytes, d)[lost := Lost]) == Value(bytes)
  }

  lemma TooMany(blocks: seq<MaybeBlock>)
    requires blocks != [] && Errors(blocks) > 1
    ensures Read(blocks) == TooManyErrors
  {
  }

  /** One failure of any node is survived if and only if the split fills all d blocks and the bytes do not end
      in a zero. */
  lemma AnyNodeLost(bytes: Bytes, d: nat)
    requires d > 0 && bytes != []
    ensures Ceil(|bytes|, d) > 0
    ensures (forall lost: nat | lost <= d :: SurvivesLoss(bytes, d, lost)) <==>
      |Chunks(bytes, Ceil(|bytes|, d))| == d && !EndsInZero(bytes)
  {
    hide Chunks, Numbered, XorAll, Present, Concat, Read, Stored;
    StoredSize(bytes, d);
    StripShorter(bytes);
    if |Chunks(bytes, Ceil(|bytes|, d))| == d {
      forall lost: nat | lost <= d ensures SurvivesLoss(bytes, d, lost) <==> Strip(bytes) == bytes {
        FullReads(bytes, d, lost);
      }
      assert SurvivesLoss(bytes, d, 0) <==> Strip(bytes) == bytes;
    } else {
      var damaged := Slots(bytes, d)[0 := Lost];
      TwoErrors(damaged, 0, d);
      TooMany(damaged);
      assert !SurvivesLoss(bytes, d, 0);
    }
  }

  lemma StoredAll(chunks: seq<Bytes>, parity: Bytes)
    ensures DataOf(Numbered(0, chunks) + [DataBlock(NoIndex, parity)]) == chunks + [parity]
  {
  }

  /** What the proxy reads when no node fails: the bytes without trailing zeros from a full split, too few answers
      from a split that misses two blocks, and one that misses a single block is read together with its parity. */
  lemma UndamagedRead(bytes: Bytes, d: nat)
    requires d > 0 && bytes != []
    ensures Ceil(|bytes|, d) > 0
    ensures var size := Ceil(|bytes|, d); var chunks := Chunks(bytes, size);
      Read(Slots(bytes, d)) ==
        if |chunks| == d then Value(Strip(bytes))
        else if |chunks| == d - 1 then Value(Strip(Concat(chunks) + XorAll(size, chunks)))
        else TooManyErrors
  {
    hide Chunks, Numbered, XorAll, Present, Concat, Strip, Errors, ErrorIndex;
    StoredSize(bytes, d);
    var size := Ceil(|bytes|, d);
    var chunks, stored, slots := Chunks(bytes, size), Stored(bytes, d), Slots(bytes, d);
    NumberedData(chunks);
    if |chunks| == d {
      NoErrors(slots);
      assert slots[..d] == Haves(Numbered(0, chunks));
      PresentHaves(Numbered(0, chunks));
      ChunksConcat(bytes, size);
      StripPadding(bytes, Concat(chunks));
    } else if |chunks| == d - 1 {
      OneError(slots, d);
      assert slots[..d] == Haves(stored);
      PresentHaves(stored);
      assert DataOf(stored) == chunks + [XorAll(size, chunks)] by { StoredAll(chunks, XorAll(size, chunks)); }
      ConcatLast(chunks, XorAll(size, chunks));
    } else {
      TwoErrors(slots, d - 1, d);
    }
  }

  lemma {:induction false} StripJoin(a: Bytes, b: Bytes)
    ensures b == Zeros(|b|) ==> Strip(a + b) == Strip(a)
    ensures b != Zeros(|b|) ==> |Strip(a + b)| > |a|
    decreases |b|
  {
    if b == [] {
      assert a + b == a;
    } else {
      var front := b[..|b| - 1];
      StripJoin(a, front);
      assert (a + b)[..|a + b| - 1] == a + front;
      if b[|b| - 1] == 0 && front == Zeros(|front|) { assert b == Zeros(|b|); }
      if b == Zeros(|b|) { assert front == Zeros(|front|); }
    }
  }

  lemma StripKeeps(bytes: Bytes)
    ensures Strip(bytes) == bytes <==> !EndsInZero(bytes)
  {
    StripShorter(bytes);
  }

  /** Exactly when the proxy reads back what was put, no node failing. */
  lemma ReadsRight(bytes: Bytes, d: nat)
    requires d > 0 && bytes != []
    ensures Ceil(|bytes|, d) > 0
    ensures var size := Ceil(|bytes|, d); var chunks := Chunks(bytes, size);
      Read(Slots(bytes, d)) == Value(bytes) <==>
        !EndsInZero(bytes) && (|chunks| == d || (|chunks| == d - 1 && XorAll(size, chunks) == Zeros(size)))
  {
    hide Chunks, XorAll, Concat, Read, Slots, Strip, Zeros;
    UndamagedRead(bytes, d);
    var size := Ceil(|bytes|, d);
    var chunks := Chunks(bytes, size);
    ChunksConcat(bytes, size);
    ChunksSize(bytes, size);
    XorAllSize(size, chunks);
    StripPadding(bytes, Concat(chunks));
    StripJoin(Concat(chunks), XorAll(size, chunks));
    StripKeeps(bytes);
  }
}
