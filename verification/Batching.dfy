/** Collapsing a target's tests into batched actions, and splitting them over CI shards. */
module Batching {
  import opened Results

  // ---------------------------------------------------------------- weights and pools

  function Total<T>(chunk: seq<T>, weight: T -> nat): nat {
    if chunk == [] then 0 else Total(chunk[..|chunk| - 1], weight) + weight(chunk[|chunk| - 1])
  }

  /** All members of all chunks, with multiplicity. */
  ghost function Pool<T>(chunks: seq<seq<T>>): multiset<T> {
    if chunks == [] then multiset{} else Pool(chunks[..|chunks| - 1]) + multiset(chunks[|chunks| - 1])
  }

  ghost function Members<T>(chunks: seq<seq<T>>): nat {
    if chunks == [] then 0 else Members(chunks[..|chunks| - 1]) + |chunks[|chunks| - 1]|
  }

  lemma {:induction false} PoolSize<T>(chunks: seq<seq<T>>)
    ensures |Pool(chunks)| == Members(chunks)
  {
    if chunks != [] {
      PoolSize(chunks[..|chunks| - 1]);
    }
  }

  lemma {:induction false} PoolPush<T>(chunks: seq<seq<T>>, i: nat, item: T)
    requires i < |chunks|
    ensures Pool(chunks[i := chunks[i] + [item]]) == Pool(chunks) + multiset{item}
  {
    var pushed := chunks[i := chunks[i] + [item]];
    var last := |chunks| - 1;
    assert Pool(chunks) == Pool(chunks[..last]) + multiset(chunks[last]);
    assert Pool(pushed) == Pool(pushed[..last]) + multiset(pushed[last]);
    hide Pool;
    if i == last {
      assert pushed[..last] == chunks[..last] && pushed[last] == chunks[last] + [item];
      assert multiset(chunks[last] + [item]) == multiset(chunks[last]) + multiset{item};
    } else {
      assert pushed[..last] == chunks[..last][i := chunks[..last][i] + [item]] && pushed[last] == chunks[last];
      PoolPush(chunks[..last], i, item);
    }
  }

  lemma {:induction false} FullChunks<T>(chunks: seq<seq<T>>, size: nat)
    requires forall i :: 0 <= i < |chunks| ==> |chunks[i]| == size
    ensures Members(chunks) == |chunks| * size
  {
    if chunks != [] {
      var before := chunks[..|chunks| - 1];
      FullChunks(before, size);
      assert |before| * size + size == |chunks| * size;
    }
  }

  lemma {:induction false} MembersAtMost<T>(chunks: seq<seq<T>>, size: nat)
    requires forall i :: 0 <= i < |chunks| ==> |chunks[i]| <= size
    ensures Members(chunks) <= |chunks| * size
  {
    if chunks != [] {
      var before := chunks[..|chunks| - 1];
      MembersAtMost(before, size);
      assert |before| * size + size == |chunks| * size;
    }
  }

  lemma {:induction false} MembersWithEmpty<T>(chunks: seq<seq<T>>, size: nat, empty: nat)
    requires forall i :: 0 <= i < |chunks| ==> |chunks[i]| <= size
    requires empty < |chunks| && chunks[empty] == []
    ensures Members(chunks) <= (|chunks| - 1) * size
  {
    var before := chunks[..|chunks| - 1];
    if empty == |before| {
      MembersAtMost(before, size);
    } else {
      MembersWithEmpty(before, size, empty);
      assert (|before| - 1) * size + size == |before| * size;
    }
  }

  lemma {:induction false} EmptyPool<T>(chunks: seq<seq<T>>)
    requires forall i :: 0 <= i < |chunks| ==> chunks[i] == []
    ensures Pool(chunks) == multiset{}
  {
    if chunks != [] {
      EmptyPool(chunks[..|chunks| - 1]);
    }
  }

  // ---------------------------------------------------------------- heaviest first

  function InsertByWeight<T>(item: T, sorted: seq<T>, weight: T -> nat): seq<T> {
    if sorted == [] || weight(item) >= weight(sorted[0]) then [item] + sorted
    else [sorted[0]] + InsertByWeight(item, sorted[1..], weight)
  }

  /** The stable sort by descending weight. */
  function HeaviestFirst<T>(items: seq<T>, weight: T -> nat): seq<T> {
    if items == [] then [] else InsertByWeight(items[0], HeaviestFirst(items[1..], weight), weight)
  }

  ghost predicate Descending<T>(items: seq<T>, weight: T -> nat) {
    forall i, j :: 0 <= i < j < |items| ==> weight(items[i]) >= weight(items[j])
  }

  lemma {:induction false} InsertPermutes<T>(item: T, sorted: seq<T>, weight: T -> nat)
    ensures multiset(InsertByWeight(item, sorted, weight)) == multiset(sorted) + multiset{item}
  {
    if sorted != [] && weight(item) < weight(sorted[0]) {
      InsertPermutes(item, sorted[1..], weight);
      assert sorted == [sorted[0]] + sorted[1..];
    }
  }

  lemma {:induction false} ConsSorts<T>(first: T, rest: seq<T>, weight: T -> nat)
    requires Descending(rest, weight)
    requires forall x :: x in rest ==> weight(x) <= weight(first)
    ensures Descending([first] + rest, weight)
  {
  }

  lemma {:induction false} InsertSorts<T>(item: T, sorted: seq<T>, weight: T -> nat)
    requires Descending(sorted, weight)
    ensures Descending(InsertByWeight(item, sorted, weight), weight)
  {
    if sorted == [] || weight(item) >= weight(sorted[0]) {
      ConsSorts(item, sorted, weight);
    } else {
      var tail := sorted[1..];
      var rest := InsertByWeight(item, tail, weight);
      InsertSorts(item, tail, weight);
      InsertPermutes(item, tail, weight);
      forall x | x in rest
        ensures weight(x) <= weight(sorted[0])
      {
        assert x in multiset(rest);
        assert x == item || x in tail;
      }
      ConsSorts(sorted[0], rest, weight);
    }
  }

  lemma {:induction false} HeaviestFirstSorts<T>(items: seq<T>, weight: T -> nat)
    ensures Descending(HeaviestFirst(items, weight), weight)
    ensures multiset(HeaviestFirst(items, weight)) == multiset(items)
    ensures |HeaviestFirst(items, weight)| == |items|
  {
    assert |multiset(items)| == |items|;
    if items != [] {
      HeaviestFirstSorts(items[1..], weight);
      InsertSorts(items[0], HeaviestFirst(items[1..], weight), weight);
      InsertPermutes(items[0], HeaviestFirst(items[1..], weight), weight);
      assert items == [items[0]] + items[1..];
    }
  }

  /** The items of one weight, in their order. */
  function Weighing<T>(items: seq<T>, weight: T -> nat, w: nat): seq<T> {
    if items == [] then [] else (if weight(items[0]) == w then [items[0]] else []) + Weighing(items[1..], weight, w)
  }

  lemma {:induction false} InsertIsStable<T>(item: T, sorted: seq<T>, weight: T -> nat, w: nat)
    ensures Weighing(InsertByWeight(item, sorted, weight), weight, w)
            == (if weight(item) == w then [item] else []) + Weighing(sorted, weight, w)
  {
    if sorted != [] && weight(item) < weight(sorted[0]) {
      InsertIsStable(item, sorted[1..], weight, w);
      if weight(item) == w {
        assert [] + Weighing(sorted[1..], weight, w) == Weighing(sorted[1..], weight, w);
      }
    }
  }

  /** Items of equal weight keep their order. */
  lemma {:induction false} HeaviestFirstIsStable<T>(items: seq<T>, weight: T -> nat, w: nat)
    ensures Weighing(HeaviestFirst(items, weight), weight, w) == Weighing(items, weight, w)
  {
    if items != [] {
      HeaviestFirstIsStable(items[1..], weight, w);
      InsertIsStable(items[0], HeaviestFirst(items[1..], weight), weight, w);
    }
  }

  // ---------------------------------------------------------------- fixed-size chunks

  type HeapEntry = (nat, nat)

  predicate Before(a: HeapEntry, b: HeapEntry) {
    a.0 < b.0 || (a.0 == b.0 && a.1 <= b.1)
  }

  /** Pop the entry of least weight, the lower chunk index on ties. */
  method PopLightest(heap: set<HeapEntry>) returns (lightest: HeapEntry, rest: set<HeapEntry>)
    requires heap != {}
    ensures lightest in heap && rest == heap - {lightest}
    ensures forall e :: e in heap ==> lightest.0 < e.0 || (lightest.0 == e.0 && lightest.1 <= e.1)
  {
    lightest :| lightest in heap;
    var unseen := heap - {lightest};
    while unseen != {}
      invariant unseen <= heap && lightest in heap
      invariant forall e :: e in heap && e !in unseen ==> Before(lightest, e)
      decreases unseen
    {
      var e :| e in unseen;
      if Before(e, lightest) {
        lightest := e;
      }
      unseen := unseen - {e};
    }
    rest := heap - {lightest};
  }

  /** The heap holds exactly the chunks with room, under their current weights. */
  ghost predicate HeapMatches<T>(heap: set<HeapEntry>, chunks: seq<seq<T>>, size: nat, weight: T -> nat) {
    forall w: nat, i: nat ::
      (w, i) in heap <==> i < |chunks| && |chunks[i]| < size && w == Total(chunks[i], weight)
  }

  /** A chunk's weight without its last member never exceeds that of a chunk with room. */
  ghost predicate Balanced<T>(chunks: seq<seq<T>>, size: nat, weight: T -> nat) {
    forall c, d :: 0 <= c < |chunks| && 0 <= d < |chunks| && chunks[c] != [] && |chunks[d]| < size ==>
      Total(chunks[c], weight) <= Total(chunks[d], weight) + weight(chunks[c][|chunks[c]| - 1])
  }

  ghost predicate HeavierThan<T>(chunks: seq<seq<T>>, bound: nat, weight: T -> nat) {
    forall i, x :: 0 <= i < |chunks| && x in chunks[i] ==> weight(x) >= bound
  }

  ghost predicate ChunksDescend<T>(chunks: seq<seq<T>>, weight: T -> nat) {
    forall i :: 0 <= i < |chunks| ==> Descending(chunks[i], weight)
  }

  lemma {:induction false} TotalPush<T>(chunk: seq<T>, item: T, weight: T -> nat)
    ensures Total(chunk + [item], weight) == Total(chunk, weight) + weight(item)
  {
    assert (chunk + [item])[..|chunk|] == chunk;
  }

  lemma {:induction false} RoomIsLeft<T>(
      heap: set<HeapEntry>, chunks: seq<seq<T>>, size: nat, weight: T -> nat, done: nat, all: nat)
    requires HeapMatches(heap, chunks, size, weight)
    requires forall i :: 0 <= i < |chunks| ==> |chunks[i]| <= size
    requires Members(chunks) == done < all <= |chunks| * size
    ensures heap != {}
  {
    if heap == {} {
      forall i | 0 <= i < |chunks|
        ensures |chunks[i]| == size
      {
        assert (Total(chunks[i], weight), i) !in heap;
      }
      FullChunks(chunks, size);
    }
  }

  lemma {:induction false} LightestHasRoom<T>(
    heap: set<HeapEntry>, chunks: seq<seq<T>>, size: nat, weight: T -> nat, lightest: HeapEntry)
    requires HeapMatches(heap, chunks, size, weight) && lightest in heap
    ensures lightest.1 < |chunks| && |chunks[lightest.1]| < size
  {
    hide Total;
    assert (lightest.0, lightest.1) in heap;
  }

  lemma {:induction false} PushKeepsBalance<T>(
    heap: set<HeapEntry>, chunks: seq<seq<T>>, size: nat, weight: T -> nat, lightest: HeapEntry, item: T)
    requires HeapMatches(heap, chunks, size, weight)
    requires lightest in heap && forall e :: e in heap ==> Before(lightest, e)
    requires lightest.1 < |chunks|
    requires Balanced(chunks, size, weight)
    ensures Balanced(chunks[lightest.1 := chunks[lightest.1] + [item]], size, weight)
  {
    var target := lightest.1;
    var pushed := chunks[target := chunks[target] + [item]];
    TotalPush(chunks[target], item, weight);
    forall c, d | 0 <= c < |pushed| && 0 <= d < |pushed| && pushed[c] != [] && |pushed[d]| < size
      ensures Total(pushed[c], weight) <= Total(pushed[d], weight) + weight(pushed[c][|pushed[c]| - 1])
    {
      if c == target {
        assert (Total(chunks[d], weight), d) in heap;
      }
    }
  }

  lemma {:induction false} PushKeepsHeap<T>(
    heap: set<HeapEntry>, rest: set<HeapEntry>, chunks: seq<seq<T>>, size: nat, weight: T -> nat, lightest: HeapEntry,
    item: T)
    requires HeapMatches(heap, chunks, size, weight)
    requires lightest in heap && rest == heap - {lightest}
    requires lightest.1 < |chunks|
    ensures var pushed := chunks[lightest.1 := chunks[lightest.1] + [item]];
            HeapMatches(
              if |pushed[lightest.1]| < size then rest + {(lightest.0 + weight(item), lightest.1)} else rest,
              pushed, size, weight)
  {
    hide Total;
    var target := lightest.1;
    var pushed := chunks[target := chunks[target] + [item]];
    TotalPush(chunks[target], item, weight);
    assert (lightest.0, lightest.1) in heap;
    assert forall i :: 0 <= i < |chunks| && i != target ==> pushed[i] == chunks[i];
  }

  lemma {:induction false} PushKeepsOrder<T>(chunks: seq<seq<T>>, weight: T -> nat, i: nat, item: T)
    requires i < |chunks|
    requires ChunksDescend(chunks, weight) && HeavierThan(chunks, weight(item), weight)
    ensures ChunksDescend(chunks[i := chunks[i] + [item]], weight)
    ensures HeavierThan(chunks[i := chunks[i] + [item]], weight(item), weight)
  {
    forall k | 0 <= k < |chunks[i]|
      ensures weight(chunks[i][k]) >= weight(item)
    {
      assert chunks[i][k] in chunks[i];
    }
  }

  /** No chunk outweighs a chunk with room by more than the lightest of its own members. */
  ghost predicate Levelled<T>(chunks: seq<seq<T>>, size: nat, weight: T -> nat) {
    forall c, d, x :: 0 <= c < |chunks| && 0 <= d < |chunks| && x in chunks[c] && |chunks[d]| < size ==>
      Total(chunks[c], weight) <= Total(chunks[d], weight) + weight(x)
  }

  lemma {:induction false} BalancedIsLevelled<T>(chunks: seq<seq<T>>, size: nat, weight: T -> nat)
    requires Balanced(chunks, size, weight) && ChunksDescend(chunks, weight)
    ensures Levelled(chunks, size, weight)
  {
    forall c, d, x | 0 <= c < |chunks| && 0 <= d < |chunks| && x in chunks[c] && |chunks[d]| < size
      ensures Total(chunks[c], weight) <= Total(chunks[d], weight) + weight(x)
    {
      assert Descending(chunks[c], weight);
      var k :| 0 <= k < |chunks[c]| && chunks[c][k] == x;
      assert weight(x) >= weight(chunks[c][|chunks[c]| - 1]);
    }
  }

  lemma {:induction false} NoChunkIsEmpty<T>(chunks: seq<seq<T>>, size: nat, all: nat)
    requires 1 <= size && forall i :: 0 <= i < |chunks| ==> |chunks[i]| <= size
    requires Members(chunks) == all && all > (|chunks| - 1) * size
    ensures forall i :: 0 <= i < |chunks| ==> chunks[i] != []
  {
    if i :| 0 <= i < |chunks| && chunks[i] == [] {
      MembersWithEmpty(chunks, size, i);
    }
  }

  /** The least number of chunks of the given size that hold `n` items. */
  function CeilDiv(n: nat, size: nat): (chunks: nat)
    requires 1 <= size
    ensures n <= chunks * size && (if n == 0 then chunks == 0 else (chunks - 1) * size < n)
  {
    (n + size - 1) / size
  }

  lemma {:induction false} StartsMatched<T>(heap: set<HeapEntry>, chunks: seq<seq<T>>, size: nat, weight: T -> nat)
    requires 1 <= size
    requires forall i :: 0 <= i < |chunks| ==> chunks[i] == []
    requires forall w: nat, i: nat :: (w, i) in heap <==> w == 0 && i < |chunks|
    ensures HeapMatches(heap, chunks, size, weight) && Balanced(chunks, size, weight) && ChunksDescend(chunks, weight)
    ensures forall bound :: HeavierThan(chunks, bound, weight)
    ensures Pool(chunks) == multiset{}
  {
    EmptyPool(chunks);
  }

  method EmptyChunks<T>(count: nat, size: nat, weight: T -> nat) returns (chunks: seq<seq<T>>, heap: set<HeapEntry>)
    requires 1 <= size
    ensures |chunks| == count && forall i :: 0 <= i < count ==> chunks[i] == []
    ensures HeapMatches(heap, chunks, size, weight) && Balanced(chunks, size, weight) && ChunksDescend(chunks, weight)
    ensures forall bound :: HeavierThan(chunks, bound, weight)
    ensures Pool(chunks) == multiset{}
  {
    chunks := seq(count, i => []);
    heap := set i: nat | 0 <= i < count :: (0, i);
    StartsMatched(heap, chunks, size, weight);
  }

  lemma {:induction false} LighterBound<T>(chunks: seq<seq<T>>, order: seq<T>, k: nat, weight: T -> nat)
    requires Descending(order, weight)
    requires k + 1 < |order|
    requires HeavierThan(chunks, weight(order[k]), weight)
    ensures HeavierThan(chunks, weight(order[k + 1]), weight)
  {
  }

  /** Put one item into the lightest chunk with room; every property of the packing is kept. */
  method PackOne<T>(chunks: seq<seq<T>>, heap: set<HeapEntry>, size: nat, weight: T -> nat, input: T)
    returns (packed: seq<seq<T>>, next: set<HeapEntry>)
    requires heap != {}
    requires forall i :: 0 <= i < |chunks| ==> |chunks[i]| <= size
    requires HeapMatches(heap, chunks, size, weight) && Balanced(chunks, size, weight)
    requires ChunksDescend(chunks, weight) && HeavierThan(chunks, weight(input), weight)
    ensures |packed| == |chunks| && forall i :: 0 <= i < |packed| ==> |packed[i]| <= size
    ensures HeapMatches(next, packed, size, weight) && Balanced(packed, size, weight)
    ensures ChunksDescend(packed, weight) && HeavierThan(packed, weight(input), weight)
    ensures Pool(packed) == Pool(chunks) + multiset{input}
  {
    hide HeapMatches, Balanced, ChunksDescend, HeavierThan, Pool, Total;
    var lightest, rest := PopLightest(heap);
    LightestHasRoom(heap, chunks, size, weight, lightest);
    PushKeepsBalance(heap, chunks, size, weight, lightest, input);
    PushKeepsHeap(heap, rest, chunks, size, weight, lightest, input);
    PushKeepsOrder(chunks, weight, lightest.1, input);
    PoolPush(chunks, lightest.1, input);
    packed := chunks[lightest.1 := chunks[lightest.1] + [input]];
    next := rest;
    if |packed[lightest.1]| < size {
      next := next + {(lightest.0 + weight(input), lightest.1)};
    }
  }

  /**
   * Longest-processing-time packing with a cardinality cap. The chunk popped from the heap always
   * exists; the chunks are a partition of the items into exactly the ceiling of n/size non-empty
   * chunks of at most `size`, levelled by weight.
   */
  method ChunkFixed<T(==)>(items: seq<T>, size: nat, weight: T -> nat) returns (chunks: seq<seq<T>>)
    requires 1 <= size
    ensures Pool(chunks) == multiset(items)
    ensures |chunks| == CeilDiv(|items|, size)
    ensures forall i :: 0 <= i < |chunks| ==> 1 <= |chunks[i]| <= size
    ensures Levelled(chunks, size, weight)
  {
    hide HeapMatches, Balanced, ChunksDescend, HeavierThan, Members;
    hide Total, HeaviestFirst, Levelled, Descending, Pool, CeilDiv;
    if items == [] {
      NothingIsLevelled(size, weight);
      return [];
    }
    var count := CeilDiv(|items|, size);
    var order := HeaviestFirst(items, weight);
    HeaviestFirstSorts(items, weight);
    var heap;
    chunks, heap := EmptyChunks(count, size, weight);
    for k := 0 to |order|
      invariant |chunks| == count
      invariant Pool(chunks) == multiset(order[..k])
      invariant forall i :: 0 <= i < |chunks| ==> |chunks[i]| <= size
      invariant HeapMatches(heap, chunks, size, weight)
      invariant Balanced(chunks, size, weight)
      invariant ChunksDescend(chunks, weight)
      invariant k < |order| ==> HeavierThan(chunks, weight(order[k]), weight)
    {
      assert order[..k + 1] == order[..k] + [order[k]];
      PoolSize(chunks);
      RoomIsLeft(heap, chunks, size, weight, k, |order|);
      chunks, heap := PackOne(chunks, heap, size, weight, order[k]);
      if k + 1 < |order| {
        LighterBound(chunks, order, k, weight);
      }
    }
    assert order[..|order|] == order;
    PoolSize(chunks);
    NoChunkIsEmpty(chunks, size, |order|);
    BalancedIsLevelled(chunks, size, weight);
  }

  lemma {:induction false} NothingIsLevelled<T>(size: nat, weight: T -> nat)
    ensures Levelled<T>([], size, weight)
    ensures Pool<T>([]) == multiset{}
  {
  }

  // ---------------------------------------------------------------- duration buckets

  ghost function Concat<T>(batches: seq<seq<T>>): seq<T> {
    if batches == [] then [] else Concat(batches[..|batches| - 1]) + batches[|batches| - 1]
  }

  lemma {:induction false} ConcatPush<T>(batches: seq<seq<T>>, batch: seq<T>)
    ensures Concat(batches + [batch]) == Concat(batches) + batch
  {
    assert (batches + [batch])[..|batches|] == batches;
  }

  ghost predicate AllSmall<T(!new)>(batch: seq<T>, small: T -> bool) {
    forall x :: x in batch ==> small(x)
  }

  /** Every batch is one large item, or small items only; a small batch before another is full. */
  ghost predicate Bucketed<T(!new)>(batches: seq<seq<T>>, maxBatch: nat, small: T -> bool) {
    && (forall b :: b in batches ==>
          1 <= |b| <= maxBatch && (AllSmall(b, small) || (|b| == 1 && !small(b[0]))))
    && (forall i :: 0 <= i < |batches| - 1 && AllSmall(batches[i], small) && AllSmall(batches[i + 1], small) ==>
          |batches[i]| == maxBatch)
  }

  lemma {:induction false} BucketPush<T(!new)>(batches: seq<seq<T>>, batch: seq<T>, maxBatch: nat, small: T -> bool)
    requires Bucketed(batches, maxBatch, small)
    requires 1 <= |batch| <= maxBatch && (AllSmall(batch, small) || (|batch| == 1 && !small(batch[0])))
    requires batches != [] && AllSmall(batches[|batches| - 1], small) && AllSmall(batch, small) ==>
               |batches[|batches| - 1]| == maxBatch
    ensures Bucketed(batches + [batch], maxBatch, small)
    ensures Concat(batches + [batch]) == Concat(batches) + batch
  {
    hide AllSmall;
    ConcatPush(batches, batch);
  }

  lemma {:induction false} SmallPush<T(!new)>(batch: seq<T>, item: T, small: T -> bool)
    ensures AllSmall<T>([], small)
    ensures AllSmall(batch, small) && small(item) ==> AllSmall(batch + [item], small)
    ensures AllSmall([item], small) <==> small(item)
  {
    assert item in [item];
  }

  lemma {:induction false} NoBuckets<T(!new)>(maxBatch: nat, small: T -> bool)
    ensures Bucketed<T>([], maxBatch, small)
    ensures AllSmall<T>([], small)
    ensures Concat<T>([]) == []
  {
  }

  /** Keep large items alone and group consecutive small ones, without reordering anything. */
  method BucketByDuration<T(!new)>(items: seq<T>, maxBatch: nat, small: T -> bool) returns (batches: seq<seq<T>>)
    requires 1 <= maxBatch
    ensures Concat(batches) == items
    ensures Bucketed(batches, maxBatch, small)
  {
    hide Bucketed, Concat, AllSmall;
    NoBuckets(maxBatch, small);
    batches := [];
    var current: seq<T> := [];
    for k := 0 to |items|
      invariant Concat(batches) + current == items[..k]
      invariant Bucketed(batches, maxBatch, small)
      invariant |current| < maxBatch && AllSmall(current, small)
      invariant batches != [] && AllSmall(batches[|batches| - 1], small) ==> |batches[|batches| - 1]| == maxBatch
    {
      var input := items[k];
      assert items[..k + 1] == items[..k] + [input];
      SmallPush(current, input, small);
      assert (Concat(batches) + current) + [input] == Concat(batches) + (current + [input]);
      if small(input) {
        current := current + [input];
        if |current| >= maxBatch {
          BucketPush(batches, current, maxBatch, small);
          batches := batches + [current];
          current := [];
        }
      } else {
        if current != [] {
          BucketPush(batches, current, maxBatch, small);
          batches := batches + [current];
        }
        BucketPush(batches, [input], maxBatch, small);
        batches := batches + [[input]];
        current := [];
      }
    }
    assert items[..|items|] == items;
    if current != [] {
      BucketPush(batches, current, maxBatch, small);
      batches := batches + [current];
    }
  }
}
