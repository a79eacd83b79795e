/** From a target's listed tests to the actions that run them: shard filter, batch mode, order. */
module Selections {
  import opened Results
  import opened Sequences
  import opened ActionModel
  import opened Batching

  // ---------------------------------------------------------------- shards

  /** The separator between target and name in the shard key. */
  const SHARD_SEPARATOR: string := ['\U{0001}']

  datatype Shard = Shard(index: nat, count: nat) {
    predicate Sharded() {
      count > 1
    }
  }

  /** The tests this shard owns, by a hash of target and name; `hash` is any function. */
  function ShardFilter(hash: string -> nat, target: string, shard: Shard, tests: seq<Name>): seq<Name>
    requires 1 <= shard.count
  {
    if !shard.Sharded() then tests else Owned(hash, target, shard, tests)
  }

  function Owned(hash: string -> nat, target: string, shard: Shard, tests: seq<Name>): seq<Name>
    requires 1 <= shard.count
  {
    if tests == [] then []
    else
      (if hash(target + SHARD_SEPARATOR + tests[0]) % shard.count == shard.index then [tests[0]] else [])
      + Owned(hash, target, shard, tests[1..])
  }

  /** How often the shards with an index below `upTo` keep the name, all together. */
  function KeptBelow(hash: string -> nat, target: string, count: nat, upTo: nat, tests: seq<Name>, name: Name): nat
    requires 1 <= count
  {
    if upTo == 0 then 0
    else KeptBelow(hash, target, count, upTo - 1, tests, name)
         + multiset(ShardFilter(hash, target, Shard(upTo - 1, count), tests))[name]
  }

  lemma {:induction false} NothingBelow(hash: string -> nat, target: string, count: nat, upTo: nat, name: Name)
    requires 1 < count
    ensures KeptBelow(hash, target, count, upTo, [], name) == 0
  {
    if upTo > 0 {
      NothingBelow(hash, target, count, upTo - 1, name);
    }
  }

  lemma {:induction false} ShardOfOneMore(
      hash: string -> nat, target: string, shard: Shard, tests: seq<Name>, name: Name)
    requires 1 < shard.count && tests != []
    ensures multiset(ShardFilter(hash, target, shard, tests))[name]
            == multiset(ShardFilter(hash, target, shard, tests[1..]))[name]
               + (if name == tests[0] && hash(target + SHARD_SEPARATOR + name) % shard.count == shard.index
                  then 1 else 0)
  {
  }

  lemma {:induction false} OneMoreTest(
    hash: string -> nat, target: string, count: nat, upTo: nat, tests: seq<Name>, name: Name)
    requires 1 < count && tests != []
    ensures KeptBelow(hash, target, count, upTo, tests, name)
            == KeptBelow(hash, target, count, upTo, tests[1..], name)
               + (if name == tests[0] && hash(target + SHARD_SEPARATOR + name) % count < upTo then 1 else 0)
  {
    hide ShardFilter;
    if upTo > 0 {
      OneMoreTest(hash, target, count, upTo - 1, tests, name);
      ShardOfOneMore(hash, target, Shard(upTo - 1, count), tests, name);
    }
  }

  /** Over all indices of one count the shards together keep each test exactly as often as it is listed. */
  lemma {:induction false} ShardsCoverListing(
      hash: string -> nat, target: string, count: nat, tests: seq<Name>, name: Name)
    requires 1 <= count
    ensures KeptBelow(hash, target, count, count, tests, name) == multiset(tests)[name]
  {
    hide KeptBelow;
    if count == 1 {
      UnshardedKeepsAll(hash, target, tests, name);
    } else if tests == [] {
      NothingBelow(hash, target, count, count, name);
    } else {
      OneMoreTest(hash, target, count, count, tests, name);
      ShardsCoverListing(hash, target, count, tests[1..], name);
      assert hash(target + SHARD_SEPARATOR + name) % count < count;
      CountFirst(tests, name);
    }
  }

  lemma {:induction false} UnshardedKeepsAll(hash: string -> nat, target: string, tests: seq<Name>, name: Name)
    ensures KeptBelow(hash, target, 1, 1, tests, name) == multiset(tests)[name]
  {
    assert KeptBelow(hash, target, 1, 0, tests, name) == 0;
  }

  lemma {:induction false} CountFirst(tests: seq<Name>, name: Name)
    requires tests != []
    ensures multiset(tests)[name] == multiset(tests[1..])[name] + (if name == tests[0] then 1 else 0)
  {
    assert tests == [tests[0]] + tests[1..];
  }

  lemma {:induction false} OwnedIs(hash: string -> nat, target: string, shard: Shard, tests: seq<Name>, name: Name)
    requires 1 <= shard.count
    ensures name in Owned(hash, target, shard, tests)
            <==> name in tests && hash(target + SHARD_SEPARATOR + name) % shard.count == shard.index
  {
    if tests != [] {
      OwnedIs(hash, target, shard, tests[1..], name);
      assert tests == [tests[0]] + tests[1..];
    }
  }

  /** A sharded run keeps a listed test exactly when the hash of target and name falls to its index. */
  lemma {:induction false} KeptIff(hash: string -> nat, target: string, shard: Shard, tests: seq<Name>, name: Name)
    requires 1 <= shard.count
    ensures name in ShardFilter(hash, target, shard, tests)
            <==> && name in tests
                 && (shard.count > 1 ==> hash(target + "\U{0001}" + name) % shard.count == shard.index)
  {
    if shard.Sharded() {
      OwnedIs(hash, target, shard, tests, name);
      assert SHARD_SEPARATOR == "\U{0001}";
    }
  }

  /** No test name is kept by two different shards. */
  lemma {:induction false} ShardsAreDisjoint(
    hash: string -> nat, target: string, count: nat, i: nat, j: nat, tests: seq<Name>, name: Name)
    requires i < count && j < count
    requires name in ShardFilter(hash, target, Shard(i, count), tests)
    requires name in ShardFilter(hash, target, Shard(j, count), tests)
    ensures i == j
  {
    if count > 1 {
      OwnedIs(hash, target, Shard(i, count), tests, name);
      OwnedIs(hash, target, Shard(j, count), tests, name);
    }
  }

  lemma {:induction false} KeptStaysDistinct(hash: string -> nat, target: string, shard: Shard, tests: seq<Name>)
    requires 1 <= shard.count && Distinct(tests)
    ensures Distinct(ShardFilter(hash, target, shard, tests))
  {
    if shard.Sharded() && tests != [] {
      KeptStaysDistinct(hash, target, shard, tests[1..]);
      OwnedIs(hash, target, shard, tests[1..], tests[0]);
    }
  }

  // ---------------------------------------------------------------- batch modes

  const MAX_BATCH: nat := 64

  type ChunkSize = n: nat | 1 <= n witness 1

  datatype BatchMode = PerTest | DurationBucketed(p50Below: nat) | FixedChunk(size: ChunkSize) | WholeTargetMode

  /** The members a selection denotes when the kept tests are `kept`. */
  function MembersOf(selection: Selection, kept: seq<Name>): seq<Name> {
    if selection.All? then kept else selection.names
  }

  /** How often the selections run the name. */
  ghost function Occurrences(selections: seq<Selection>, kept: seq<Name>, name: Name): nat {
    if selections == [] then 0
    else
      Occurrences(selections[..|selections| - 1], kept, name)
      + multiset(MembersOf(selections[|selections| - 1], kept))[name]
  }

  /** Each kept test is run by exactly as many selections as it is listed: one, when listed once. */
  ghost predicate RunsEachOnce(selections: seq<Selection>, kept: seq<Name>) {
    forall n: Name :: Occurrences(selections, kept, n) == multiset(kept)[n]
  }

  lemma {:induction false} OccurrencesPush(
      selections: seq<Selection>, selection: Selection, kept: seq<Name>, name: Name)
    ensures Occurrences(selections + [selection], kept, name)
            == Occurrences(selections, kept, name) + multiset(MembersOf(selection, kept))[name]
  {
    hide MembersOf;
    assert (selections + [selection])[..|selections|] == selections;
  }

  function Explicitly(groups: seq<seq<Name>>): (selections: seq<Selection>)
    ensures |selections| == |groups|
    ensures forall i :: 0 <= i < |groups| ==> selections[i] == Explicit(groups[i])
  {
    seq(|groups|, i requires 0 <= i < |groups| => Explicit(groups[i]))
  }

  lemma {:induction false} GroupsOccur(groups: seq<seq<Name>>, kept: seq<Name>, name: Name)
    ensures Occurrences(Explicitly(groups), kept, name) == Pool(groups)[name]
  {
    if groups != [] {
      var before, last := groups[..|groups| - 1], groups[|groups| - 1];
      GroupsOccur(before, kept, name);
      assert Explicitly(groups) == Explicitly(before) + [Explicit(last)];
      OccurrencesPush(Explicitly(before), Explicit(last), kept, name);
    }
  }

  lemma {:induction false} GroupsRunEachOnce(groups: seq<seq<Name>>, kept: seq<Name>)
    requires Pool(groups) == multiset(kept)
    ensures RunsEachOnce(Explicitly(groups), kept)
  {
    hide Pool, Occurrences;
    forall n: Name
      ensures Occurrences(Explicitly(groups), kept, n) == multiset(kept)[n]
    {
      GroupsOccur(groups, kept, n);
    }
  }

  lemma {:induction false} OneSelectionRunsEachOnce(selection: Selection, kept: seq<Name>)
    requires MembersOf(selection, kept) == kept
    ensures RunsEachOnce([selection], kept)
  {
    forall n: Name
      ensures Occurrences([selection], kept, n) == multiset(kept)[n]
    {
      OccurrencesPush([], selection, kept, n);
    }
  }

  lemma {:induction false} ConcatPools<T>(groups: seq<seq<T>>)
    ensures Pool(groups) == multiset(Concat(groups))
  {
    if groups != [] {
      ConcatPools(groups[..|groups| - 1]);
    }
  }

  /** Every test is a group of its own. */
  ghost predicate Alone(groups: seq<seq<Name>>, kept: seq<Name>) {
    |groups| == |kept| && forall i :: 0 <= i < |kept| ==> groups[i] == [kept[i]]
  }

  /**
   * The tests in as few groups of at most `size` as hold them all; no group outweighs one with room
   * by more than the lightest of its own members.
   */
  ghost predicate Chunked(groups: seq<seq<Name>>, kept: seq<Name>, size: nat, weightOf: Name -> nat) {
    && Pool(groups) == multiset(kept)
    && |kept| <= |groups| * size
    && (groups != [] ==> (|groups| - 1) * size < |kept|)
    && (forall g :: g in groups ==> 1 <= |g| <= size)
    && (forall g, h, t :: g in groups && h in groups && t in g && |h| < size ==>
          Total(g, weightOf) <= Total(h, weightOf) + weightOf(t))
  }

  /**
   * The tests in their order: one that takes `p50Below` or longer is alone, and the others between
   * two such share groups of 64, of which only the last may have room.
   */
  ghost predicate BucketedBy(groups: seq<seq<Name>>, kept: seq<Name>, p50Below: nat, p50Of: Name -> nat) {
    && Concat(groups) == kept
    && (forall g :: g in groups ==>
          1 <= |g| <= 64 && ((forall t :: t in g ==> p50Of(t) < p50Below) || (|g| == 1 && p50Of(g[0]) >= p50Below)))
    && (forall i :: 0 <= i < |groups| - 1 && SmallAt(groups, i, p50Below, p50Of)
                    && SmallAt(groups, i + 1, p50Below, p50Of) ==>
          |groups[i]| == 64)
  }

  predicate SmallAt(groups: seq<seq<Name>>, i: nat, p50Below: nat, p50Of: Name -> nat)
    requires i < |groups|
  {
    forall t :: t in groups[i] ==> p50Of(t) < p50Below
  }

  /** The groups that the mode makes of the tests. */
  ghost predicate GroupedBy(
    mode: BatchMode, groups: seq<seq<Name>>, kept: seq<Name>, weightOf: Name -> nat, p50Of: Name -> nat)
  {
    match mode
    case PerTest => Alone(groups, kept)
    case WholeTargetMode => groups == [kept]
    case FixedChunk(size) => Chunked(groups, kept, size, weightOf)
    case DurationBucketed(p50Below) => BucketedBy(groups, kept, p50Below, p50Of)
  }

  lemma {:induction false} ChunksAreChunked(
    groups: seq<seq<Name>>, kept: seq<Name>, size: nat, weightOf: Name -> nat)
    requires 1 <= size && Pool(groups) == multiset(kept) && |groups| == CeilDiv(|kept|, size)
    requires forall i :: 0 <= i < |groups| ==> 1 <= |groups[i]| <= size
    requires Levelled(groups, size, weightOf)
    ensures Chunked(groups, kept, size, weightOf)
  {
    hide Pool, Total;
    assert |kept| <= CeilDiv(|kept|, size) * size;
    hide CeilDiv;
    forall g, h, t | g in groups && h in groups && t in g && |h| < size
      ensures Total(g, weightOf) <= Total(h, weightOf) + weightOf(t)
    {
      var c :| 0 <= c < |groups| && groups[c] == g;
      var d :| 0 <= d < |groups| && groups[d] == h;
    }
  }

  lemma {:induction false} BucketsAreBucketed(
    groups: seq<seq<Name>>, kept: seq<Name>, p50Below: nat, p50Of: Name -> nat)
    requires Concat(groups) == kept && Bucketed(groups, 64, (t: Name) => p50Of(t) < p50Below)
    ensures BucketedBy(groups, kept, p50Below, p50Of)
  {
    hide Concat;
    var small := (t: Name) => p50Of(t) < p50Below;
    forall i | 0 <= i < |groups| && SmallAt(groups, i, p50Below, p50Of)
      ensures AllSmall(groups[i], small)
    {
    }
  }

  /** Group the tests as the mode asks; every test ends up in exactly one selection. */
  method Partition(mode: BatchMode, kept: seq<Name>, weightOf: Name -> nat, p50Of: Name -> nat)
    returns (selections: seq<Selection>)
    ensures RunsEachOnce(selections, kept)
    ensures mode.WholeTargetMode? ==> selections == [All]
    ensures !mode.WholeTargetMode? ==>
              exists groups :: selections == Explicitly(groups) && GroupedBy(mode, groups, kept, weightOf, p50Of)
  {
    hide Levelled, CeilDiv, Pool, Concat, RunsEachOnce, Chunked, BucketedBy, Bucketed;
    match mode {
      case PerTest =>
        var groups := seq(|kept|, i requires 0 <= i < |kept| => [kept[i]]);
        Singletons(kept, groups);
        GroupsRunEachOnce(groups, kept);
        selections := Explicitly(groups);
        assert GroupedBy(mode, groups, kept, weightOf, p50Of);
      case WholeTargetMode =>
        selections := [All];
        OneSelectionRunsEachOnce(All, kept);
      case DurationBucketed(p50Below) =>
        var groups := BucketByDuration(kept, MAX_BATCH, (t: Name) => p50Of(t) < p50Below);
        ConcatPools(groups);
        GroupsRunEachOnce(groups, kept);
        BucketsAreBucketed(groups, kept, p50Below, p50Of);
        selections := Explicitly(groups);
        assert GroupedBy(mode, groups, kept, weightOf, p50Of);
      case FixedChunk(size) =>
        var groups := ChunkFixed(kept, size, weightOf);
        GroupsRunEachOnce(groups, kept);
        ChunksAreChunked(groups, kept, size, weightOf);
        selections := Explicitly(groups);
        assert GroupedBy(mode, groups, kept, weightOf, p50Of);
    }
  }

  lemma {:induction false} Singletons(kept: seq<Name>, groups: seq<seq<Name>>)
    requires Alone(groups, kept)
    ensures Pool(groups) == multiset(kept)
  {
    if kept != [] {
      Singletons(kept[..|kept| - 1], groups[..|groups| - 1]);
      assert kept == kept[..|kept| - 1] + [kept[|kept| - 1]];
    }
  }

  // ---------------------------------------------------------------- labels

  const RUST_BIG: string := "rust:big"

  /** A label without what stands before its first colon. */
  function AfterColon(tag: string): string {
    if ':' !in tag then tag
    else if tag[0] == ':' then tag[1..]
    else AfterColon(tag[1..])
  }

  /** A label whose part after the colon is "big" asks for single-test actions. */
  function TargetBatchMode(labels: seq<string>): Option<BatchMode> {
    if exists l :: l in labels && AfterColon(l) == "big" then Some(PerTest) else None
  }

  lemma {:induction false} AfterColonIs(before: string, rest: string)
    requires ':' !in before
    ensures AfterColon(before + ([':'] + rest)) == rest
  {
    var tag := before + ([':'] + rest);
    assert tag[|before|] == ':';
    if before == "" {
      assert tag[1..] == rest;
    } else {
      assert tag[0] == before[0] && tag[1..] == before[1..] + ([':'] + rest);
      AfterColonIs(before[1..], rest);
    }
  }

  /** The label is "big", or "big" is all that follows its first colon. */
  ghost predicate AsksForSingles(tag: string) {
    tag == "big" || exists k :: 0 <= k < |tag| && ':' !in tag[..k] && tag[k..] == ":big"
  }

  lemma {:induction false} WithoutColon(tag: string)
    requires ':' !in tag
    ensures AfterColon(tag) == tag && (AsksForSingles(tag) <==> tag == "big")
  {
    assert forall k :: 0 <= k < |tag| ==> tag[k..][0] == tag[k];
  }

  lemma {:induction false} NoColonBefore(tag: string, k: nat)
    requires k <= |tag| && ':' !in tag[..k]
    ensures forall i :: 0 <= i < k ==> tag[i] != ':'
  {
    assert forall i :: 0 <= i < k ==> tag[..k][i] == tag[i];
  }

  lemma {:induction false} AfterColonBig(tag: string)
    ensures AfterColon(tag) == "big" <==> AsksForSingles(tag)
  {
    hide AfterColon, AsksForSingles;
    if ':' in tag {
      var k := FirstColon(tag);
      assert tag == tag[..k] + ([':'] + tag[k + 1..]);
      AfterColonIs(tag[..k], tag[k + 1..]);
      BigFollows(tag, k);
    } else {
      WithoutColon(tag);
    }
  }

  lemma {:induction false} BigFollows(tag: string, k: nat)
    requires k < |tag| && tag[k] == ':' && ':' !in tag[..k]
    ensures AsksForSingles(tag) <==> tag[k + 1..] == "big"
  {
    assert tag[k..] == [':'] + tag[k + 1..];
    NoColonBefore(tag, k);
    if i :| 0 <= i < |tag| && ':' !in tag[..i] && tag[i..] == ":big" {
      NoColonBefore(tag, i);
      assert tag[i] == tag[i..][0];
      assert i == k;
      assert tag[k + 1..] == tag[k..][1..];
    } else {
      assert ":big" == [':'] + "big";
      assert ':' !in "big";
    }
  }

  lemma {:induction false} FirstColon(tag: string) returns (k: nat)
    requires ':' in tag
    ensures k < |tag| && tag[k] == ':' && ':' !in tag[..k]
  {
    if tag[0] == ':' {
      k := 0;
    } else {
      var rest := FirstColon(tag[1..]);
      k := rest + 1;
      assert tag[..k] == [tag[0]] + tag[1..][..rest];
    }
  }

  /** A label decides the batch mode of its target exactly when it asks for single tests. */
  lemma {:induction false} LabelsDecide(labels: seq<string>)
    ensures TargetBatchMode(labels)
            == if exists l :: l in labels && AsksForSingles(l) then Some(PerTest) else None
  {
    hide AfterColon, AsksForSingles;
    forall l | l in labels
      ensures AfterColon(l) == "big" <==> AsksForSingles(l)
    {
      AfterColonBig(l);
    }
  }

  /** A rust:big target runs its tests one by one. */
  lemma {:induction false} RustBigRunsSingly(labels: seq<string>)
    requires RUST_BIG in labels
    ensures TargetBatchMode(labels) == Some(PerTest)
  {
    hide AfterColon, AsksForSingles;
    RustBigAsksForSingles();
    LabelsDecide(labels);
  }

  lemma {:induction false} RustBigAsksForSingles()
    ensures AsksForSingles(RUST_BIG)
  {
    assert ':' !in RUST_BIG[..4] && RUST_BIG[4..] == ":big";
  }

  // ---------------------------------------------------------------- ordered batches

  /** Everything about a target that decides how its tests are batched. */
  datatype BatchPolicy = BatchPolicy(
    granularity: CgroupGranularity,
    nameAttributable: bool,
    targetMode: Option<BatchMode>,
    configMode: BatchMode,
    sharded: bool)

  /** A memory limit per test, or a target whose harness names no tests, forces single tests. */
  function EffectiveMode(policy: BatchPolicy): BatchMode {
    if policy.granularity == LogicalTest || !policy.nameAttributable then PerTest
    else if policy.targetMode.Some? then policy.targetMode.value
    else policy.configMode
  }

  function Heaviest(weightOf: Name -> nat, names: seq<Name>): nat {
    if names == [] then 0
    else
      var rest := Heaviest(weightOf, names[1..]);
      if rest < weightOf(names[0]) then weightOf(names[0]) else rest
  }

  lemma {:induction false} OccurrencesAppend(a: seq<Selection>, b: seq<Selection>, kept: seq<Name>, name: Name)
    ensures Occurrences(a + b, kept, name) == Occurrences(a, kept, name) + Occurrences(b, kept, name)
  {
    hide MembersOf;
    if b == [] {
      assert a + b == a;
    } else {
      var rest, last := b[..|b| - 1], b[|b| - 1];
      OccurrencesAppend(a, rest, kept, name);
      assert a + b == (a + rest) + [last];
      OccurrencesPush(a + rest, last, kept, name);
    }
  }

  lemma {:induction false} OccurrencesWithout(selections: seq<Selection>, k: nat, kept: seq<Name>, name: Name)
    requires k < |selections|
    ensures Occurrences(selections, kept, name)
            == Occurrences(selections[..k] + selections[k + 1..], kept, name)
               + multiset(MembersOf(selections[k], kept))[name]
  {
    hide MembersOf, Occurrences;
    assert selections == (selections[..k] + [selections[k]]) + selections[k + 1..];
    OccurrencesAppend(selections[..k] + [selections[k]], selections[k + 1..], kept, name);
    OccurrencesPush(selections[..k], selections[k], kept, name);
    OccurrencesAppend(selections[..k], selections[k + 1..], kept, name);
  }

  lemma {:induction false} SameSelectionsOccur(a: seq<Selection>, b: seq<Selection>, kept: seq<Name>, name: Name)
    requires multiset(a) == multiset(b)
    ensures Occurrences(a, kept, name) == Occurrences(b, kept, name)
    decreases |a|
  {
    if a == [] {
      assert |b| == |multiset(b)| == 0;
    } else {
      var last, rest := a[|a| - 1], a[..|a| - 1];
      assert a == rest + [last];
      var k := RemoveAt(b, last);
      SameSelectionsOccur(rest, b[..k] + b[k + 1..], kept, name);
      OccurrencesWithout(b, k, kept, name);
    }
  }

  lemma {:induction false} ReorderedRunsEachOnce(a: seq<Selection>, b: seq<Selection>, kept: seq<Name>)
    requires multiset(a) == multiset(b) && RunsEachOnce(b, kept)
    ensures RunsEachOnce(a, kept)
  {
    hide Occurrences;
    forall n: Name
      ensures Occurrences(a, kept, n) == multiset(kept)[n]
    {
      SameSelectionsOccur(a, b, kept, n);
    }
  }

  /**
   * The actions that a batch mode asks for, in some order. The native whole-target action is only
   * for a run that owns the whole listing.
   */
  ghost predicate BatchedAs(
    mode: BatchMode, sharded: bool, batches: seq<Selection>, kept: seq<Name>, weightOf: Name -> nat,
    p50Of: Name -> nat)
  {
    if mode.WholeTargetMode? then batches == [if sharded then Explicit(kept) else All]
    else
      exists groups ::
        GroupedBy(mode, groups, kept, weightOf, p50Of) && multiset(batches) == multiset(Explicitly(groups))
  }

  /**
   * The batches of a target, by what decides them: single tests under a memory limit per test or
   * with a harness that names none, else what the target asks for, else what is configured.
   */
  ghost predicate BatchedFor(
    policy: BatchPolicy, batches: seq<Selection>, kept: seq<Name>, weightOf: Name -> nat, p50Of: Name -> nat)
  {
    && (policy.granularity == LogicalTest || !policy.nameAttributable ==>
          BatchedAs(PerTest, policy.sharded, batches, kept, weightOf, p50Of))
    && (policy.granularity == Action && policy.nameAttributable ==>
          match policy.targetMode
          case Some(mode) => BatchedAs(mode, policy.sharded, batches, kept, weightOf, p50Of)
          case None => BatchedAs(policy.configMode, policy.sharded, batches, kept, weightOf, p50Of))
  }

  /** Some of the names weighs at least as much as `n`, or there are none and it weighs nothing. */
  ghost predicate OutweighedIn(names: seq<Name>, n: Name, weightOf: Name -> nat) {
    if names == [] then weightOf(n) == 0 else exists m :: m in names && weightOf(m) >= weightOf(n)
  }

  /** No member of a later batch is heavier than all members of an earlier one. */
  ghost predicate LongestFirst(batches: seq<Selection>, kept: seq<Name>, weightOf: Name -> nat) {
    forall i, j, n :: 0 <= i < j < |batches| && n in MembersOf(batches[j], kept) ==>
      OutweighedIn(MembersOf(batches[i], kept), n, weightOf)
  }

  /**
   * The actions of a target, longest first. Each kept test is in exactly one action, and the actions
   * are what the policy asks for.
   */
  method BuildBatches(policy: BatchPolicy, kept: seq<Name>, weightOf: Name -> nat, p50Of: Name -> nat)
    returns (batches: seq<Selection>)
    ensures RunsEachOnce(batches, kept)
    ensures BatchedFor(policy, batches, kept, weightOf, p50Of)
    ensures LongestFirst(batches, kept, weightOf)
  {
    hide RunsEachOnce, Descending, HeaviestFirst, Heaviest, GroupedBy, LongestFirst;
    var mode := EffectiveMode(policy);
    var selections;
    if mode == WholeTargetMode && policy.sharded {
      selections := [Explicit(kept)];
      OneSelectionRunsEachOnce(Explicit(kept), kept);
    } else {
      selections := Partition(mode, kept, weightOf, p50Of);
    }
    var heaviest := s => Heaviest(weightOf, MembersOf(s, kept));
    batches := HeaviestFirst(selections, heaviest);
    HeaviestFirstSorts(selections, heaviest);
    ReorderedRunsEachOnce(batches, selections, kept);
    OneStaysOne(batches, selections);
    DescendingIsLongestFirst(batches, kept, weightOf);
  }

  lemma {:induction false} HeaviestIs(weightOf: Name -> nat, names: seq<Name>)
    ensures forall n :: n in names ==> weightOf(n) <= Heaviest(weightOf, names)
    ensures names != [] ==> exists n :: n in names && weightOf(n) == Heaviest(weightOf, names)
  {
    if names != [] {
      HeaviestIs(weightOf, names[1..]);
      assert names == [names[0]] + names[1..];
      if names[1..] != [] {
        var n :| n in names[1..] && weightOf(n) == Heaviest(weightOf, names[1..]);
        assert n in names;
      }
      assert names[0] in names;
    }
  }

  lemma {:induction false} NothingIsLight(weightOf: Name -> nat)
    ensures Heaviest(weightOf, []) == 0
  {
  }

  lemma {:induction false} DescendingIsLongestFirst(batches: seq<Selection>, kept: seq<Name>, weightOf: Name -> nat)
    requires Descending(batches, (s: Selection) => Heaviest(weightOf, MembersOf(s, kept)))
    ensures LongestFirst(batches, kept, weightOf)
  {
    hide Heaviest, MembersOf;
    forall i, j, n | 0 <= i < j < |batches| && n in MembersOf(batches[j], kept)
      ensures OutweighedIn(MembersOf(batches[i], kept), n, weightOf)
    {
      var first := MembersOf(batches[i], kept);
      HeaviestIs(weightOf, first);
      HeaviestIs(weightOf, MembersOf(batches[j], kept));
      assert Heaviest(weightOf, first) >= Heaviest(weightOf, MembersOf(batches[j], kept)) >= weightOf(n);
      if first == [] {
        NothingIsLight(weightOf);
      }
    }
  }

  lemma {:induction false} OneStaysOne(a: seq<Selection>, b: seq<Selection>)
    requires multiset(a) == multiset(b)
    ensures |b| == 1 ==> a == b
  {
    SameLength(a, b);
    if |b| == 1 {
      assert a == [a[0]] && b == [b[0]];
      assert a[0] in multiset(b);
    }
  }

  /** Under a policy that asks for single tests every action has one test. */
  lemma {:induction false} SingleTestActions(
    batches: seq<Selection>, sharded: bool, kept: seq<Name>, weightOf: Name -> nat, p50Of: Name -> nat,
    batch: Selection)
    requires BatchedAs(PerTest, sharded, batches, kept, weightOf, p50Of) && batch in batches
    ensures batch.Explicit? && |batch.names| == 1
  {
    var groups :|
      GroupedBy(PerTest, groups, kept, weightOf, p50Of) && multiset(batches) == multiset(Explicitly(groups));
    SameElements(batches, Explicitly(groups));
    var i :| 0 <= i < |groups| && Explicitly(groups)[i] == batch;
  }

  /** The members of each action are distinct when the kept tests are. */
  lemma {:induction false} ActionsAreDistinct(batches: seq<Selection>, kept: seq<Name>, i: nat)
    requires RunsEachOnce(batches, kept)
    requires Distinct(kept)
    requires i < |batches|
    ensures Distinct(MembersOf(batches[i], kept))
    ensures forall n :: n in MembersOf(batches[i], kept) ==> n in kept
  {
    hide Occurrences;
    var members := MembersOf(batches[i], kept);
    forall n: Name
      ensures multiset(members)[n] <= multiset(kept)[n]
    {
      OccurrencesWithout(batches, i, kept, n);
    }
    assert multiset(members) <= multiset(kept);
    forall n | n in members
      ensures n in kept
    {
      assert n in multiset(members);
    }
    SubsetOfDistinct(members, kept);
  }

  lemma {:induction false} CountsAtMostOnce(s: seq<Name>, n: Name)
    requires Distinct(s)
    ensures multiset(s)[n] <= 1
  {
    if s != [] {
      CountsAtMostOnce(s[..|s| - 1], n);
      assert s == s[..|s| - 1] + [s[|s| - 1]];
      if n in s[..|s| - 1] {
        assert n != s[|s| - 1];
      }
    }
  }

  lemma {:induction false} TwiceMeansTwo(s: seq<Name>, i: nat, j: nat)
    requires i < j < |s| && s[i] == s[j]
    ensures multiset(s)[s[i]] >= 2
  {
    assert s == s[..j] + s[j..];
    assert s[i] in s[..j];
    assert s[j..][0] == s[j];
  }

  lemma {:induction false} SubsetOfDistinct(s: seq<Name>, all: seq<Name>)
    requires multiset(s) <= multiset(all) && Distinct(all)
    ensures Distinct(s)
  {
    forall i, j | 0 <= i < j < |s|
      ensures s[i] != s[j]
    {
      CountsAtMostOnce(all, s[i]);
      if s[i] == s[j] {
        TwiceMeansTwo(s, i, j);
      }
    }
  }
}
