/** Performance records: the most recent samples of a test, and the percentiles read off them. */
module Samples {
  import opened Results
  import opened Sequences

  const MAX_SAMPLES: nat := 64

  datatype Sample = Sample(timestamp: U64, duration: U64)

  /** Newest first, and the longer one first among samples of the same time. */
  predicate AtLeast(a: Sample, b: Sample) {
    a.timestamp > b.timestamp || (a.timestamp == b.timestamp && a.duration >= b.duration)
  }

  ghost predicate Sorted(s: seq<Sample>) {
    forall i, j :: 0 <= i < j < |s| ==> AtLeast(s[i], s[j])
  }

  function Insert(x: Sample, s: seq<Sample>): (r: seq<Sample>)
    ensures |r| == |s| + 1
  {
    if s == [] then [x]
    else if AtLeast(x, s[0]) then [x] + s
    else [s[0]] + Insert(x, s[1..])
  }

  function Sort(s: seq<Sample>): (r: seq<Sample>)
    ensures |r| == |s|
  {
    if s == [] then [] else Insert(s[|s| - 1], Sort(s[..|s| - 1]))
  }

  function Truncate(s: seq<Sample>): seq<Sample> {
    if |s| <= MAX_SAMPLES then s else s[..MAX_SAMPLES]
  }

  /** What `sort_and_truncate` keeps. */
  function Top(s: seq<Sample>): seq<Sample> {
    Truncate(Sort(s))
  }

  /** `PerfRecord::record`. */
  function Recorded(samples: seq<Sample>, x: Sample): seq<Sample> {
    Top(samples + [x])
  }

  /** `PerfRecord::combine`. */
  function Combined(a: seq<Sample>, b: seq<Sample>): seq<Sample> {
    Top(a + b)
  }

  /** The record after these samples, one after another. */
  function Replay(samples: seq<Sample>, log: seq<Sample>): seq<Sample> {
    if log == [] then samples else Recorded(Replay(samples, log[..|log| - 1]), log[|log| - 1])
  }

  lemma {:induction false} ReplayNothing(samples: seq<Sample>)
    ensures Replay(samples, []) == samples
  {
  }

  lemma {:induction false} ReplayPush(samples: seq<Sample>, log: seq<Sample>, x: Sample)
    ensures Replay(samples, log + [x]) == Recorded(Replay(samples, log), x)
  {
    hide Recorded;
    assert (log + [x])[..|log|] == log;
  }

  lemma {:induction false} RecordTwice(x: Sample)
    ensures Recorded([], x) == [x] && Recorded([x], x) == [x, x]
  {
    assert [x][..0] == [] && [x, x][..1] == [x];
    assert [] + [x] == [x] && [x] + [x] == [x, x];
    assert Sort([x]) == [x];
    assert Sort([x, x]) == [x, x];
  }

  // ---------------------------------------------------------------- sorting

  lemma {:induction false} InsertPermutes(x: Sample, s: seq<Sample>)
    ensures multiset(Insert(x, s)) == multiset{x} + multiset(s)
  {
    if s != [] && !AtLeast(x, s[0]) {
      InsertPermutes(x, s[1..]);
      Uncons(s);
    }
  }

  lemma {:induction false} SortPermutes(s: seq<Sample>)
    ensures multiset(Sort(s)) == multiset(s)
  {
    if s != [] {
      var rest, last := s[..|s| - 1], s[|s| - 1];
      SortPermutes(rest);
      InsertPermutes(last, Sort(rest));
      assert s == rest + [last];
    }
  }

  lemma {:induction false} InsertKeepsBound(x: Sample, s: seq<Sample>, bound: Sample)
    requires AtLeast(bound, x) && forall y :: y in s ==> AtLeast(bound, y)
    ensures forall y :: y in Insert(x, s) ==> AtLeast(bound, y)
  {
    InsertPermutes(x, s);
    forall y | y in Insert(x, s)
      ensures AtLeast(bound, y)
    {
      assert y in multiset(Insert(x, s));
    }
  }

  lemma {:induction false} InsertSorts(x: Sample, s: seq<Sample>)
    requires Sorted(s)
    ensures Sorted(Insert(x, s))
  {
    if s != [] && !AtLeast(x, s[0]) {
      InsertSorts(x, s[1..]);
      InsertKeepsBound(x, s[1..], s[0]);
      SortedCons(s[0], Insert(x, s[1..]));
    } else if s != [] {
      SortedCons(x, s);
    }
  }

  lemma {:induction false} SortedCons(first: Sample, rest: seq<Sample>)
    requires Sorted(rest) && (rest != [] ==> AtLeast(first, rest[0]))
    ensures Sorted([first] + rest)
  {
  }

  lemma {:induction false} SortSorts(s: seq<Sample>)
    ensures Sorted(Sort(s))
  {
    if s != [] {
      SortSorts(s[..|s| - 1]);
      InsertSorts(s[|s| - 1], Sort(s[..|s| - 1]));
    }
  }

  lemma {:induction false} SamePeak(a: seq<Sample>, b: seq<Sample>)
    requires Sorted(a) && multiset(a) == multiset(b) && a != [] && b != []
    ensures AtLeast(a[0], b[0])
  {
    assert b[0] in multiset(b);
    var k :| 0 <= k < |a| && a[k] == b[0];
  }

  /** There is only one way to sort: an unstable sort cannot show. */
  lemma {:induction false} SortedIsUnique(a: seq<Sample>, b: seq<Sample>)
    requires Sorted(a) && Sorted(b) && multiset(a) == multiset(b)
    ensures a == b
  {
    SameLength(a, b);
    if a != [] {
      SamePeak(a, b);
      SamePeak(b, a);
      assert a[0] == b[0];
      SameRest(a, b);
      SortedIsUnique(a[1..], b[1..]);
      assert a == [a[0]] + a[1..] && b == [b[0]] + b[1..];
    }
  }

  lemma {:induction false} SortOfSorted(s: seq<Sample>)
    requires Sorted(s)
    ensures Sort(s) == s
  {
    SortSorts(s);
    SortPermutes(s);
    SortedIsUnique(Sort(s), s);
  }

  /** Only the multiset of samples counts, not the order in which they were written. */
  lemma {:induction false} TopIgnoresOrder(a: seq<Sample>, b: seq<Sample>)
    requires multiset(a) == multiset(b)
    ensures Top(a) == Top(b)
  {
    SortSorts(a);
    SortSorts(b);
    SortPermutes(a);
    SortPermutes(b);
    SortedIsUnique(Sort(a), Sort(b));
  }

  // ---------------------------------------------------------------- forgetting early is harmless

  lemma {:induction false} InsertBeyond(x: Sample, s: seq<Sample>, k: nat)
    requires k <= |s|
    ensures Insert(x, s[..k])[..k] == Insert(x, s)[..k]
  {
    if k > 0 && !AtLeast(x, s[0]) {
      InsertBeyond(x, s[1..], k - 1);
      assert s[..k][1..] == s[1..][..k - 1];
    }
  }

  lemma {:induction false} TruncateThenInsert(x: Sample, s: seq<Sample>)
    ensures Truncate(Insert(x, Truncate(s))) == Truncate(Insert(x, s))
  {
    if |s| > MAX_SAMPLES {
      InsertBeyond(x, s, MAX_SAMPLES);
    }
  }

  lemma {:induction false} SortPush(s: seq<Sample>, x: Sample)
    ensures Sort(s + [x]) == Insert(x, Sort(s))
  {
    assert (s + [x])[..|s|] == s;
  }

  lemma {:induction false} TopIsSorted(s: seq<Sample>)
    ensures Sorted(Top(s)) && |Top(s)| <= MAX_SAMPLES
  {
    SortSorts(s);
  }

  /** Dropping old samples before a new one arrives loses nothing that would have been kept. */
  lemma {:induction false} TopOfTopPush(s: seq<Sample>, x: Sample)
    ensures Top(Top(s) + [x]) == Top(s + [x])
  {
    TopIsSorted(s);
    SortOfSorted(Top(s));
    SortPush(Top(s), x);
    SortPush(s, x);
    TruncateThenInsert(x, Sort(s));
  }

  lemma {:induction false} ReplayIsTop(base: seq<Sample>, log: seq<Sample>)
    ensures Replay(Top(base), log) == Top(base + log)
  {
    hide Top, Recorded;
    if log == [] {
      assert base + log == base;
    } else {
      var rest, last := log[..|log| - 1], log[|log| - 1];
      ReplayIsTop(base, rest);
      TopOfTopPush(base + rest, last);
      assert base + log == (base + rest) + [last];
      RecordedIs(Top(base + rest), last);
    }
  }

  lemma {:induction false} RecordedIs(samples: seq<Sample>, x: Sample)
    ensures Recorded(samples, x) == Top(samples + [x])
  {
  }

  /** Onto any record, even one no fold produced, the first sample of a log already sorts and truncates. */
  lemma {:induction false} ReplayOntoAny(base: seq<Sample>, log: seq<Sample>)
    requires log != []
    ensures Replay(base, log) == Top(base + log)
  {
    hide Top, Recorded;
    var rest, last := log[..|log| - 1], log[|log| - 1];
    assert base + log == (base + rest) + [last];
    if rest == [] {
      assert base + rest == base;
      RecordedIs(base, last);
      assert Replay(base, []) == base;
    } else {
      ReplayOntoAny(base, rest);
      RecordedIs(Top(base + rest), last);
      TopOfTopPush(base + rest, last);
    }
  }

  /** Onto any record, interleaved appends of parallel runs fold to the same record. */
  lemma {:induction false} ReplayIgnoresOrder(base: seq<Sample>, a: seq<Sample>, b: seq<Sample>)
    requires multiset(a) == multiset(b)
    ensures Replay(base, a) == Replay(base, b)
  {
    hide Top, Replay;
    SameLength(a, b);
    if a == [] {
      assert a == b;
    } else {
      ReplayOntoAny(base, a);
      ReplayOntoAny(base, b);
      TopIgnoresOrder(base + a, base + b);
    }
  }

  /** The record of a log is the 64 newest of all its samples, whatever their order. */
  lemma {:induction false} RecordIsTop(log: seq<Sample>)
    ensures Replay([], log) == Top(log)
  {
    ReplayIsTop([], log);
    assert Top([]) == [];
    assert [] + log == log;
  }

  lemma {:induction false} TopOfTop(a: seq<Sample>, b: seq<Sample>)
    ensures Top(Top(a) + b) == Top(a + b)
  {
    TopIsSorted(a);
    SortOfSorted(Top(a));
    assert Top(Top(a)) == Top(a);
    ReplayIsTop(Top(a), b);
    ReplayIsTop(a, b);
  }

  /** Combining the records of two logs gives the record of the logs put together. */
  lemma {:induction false} CombineIsConcat(a: seq<Sample>, b: seq<Sample>)
    ensures Combined(Replay([], a), Replay([], b)) == Replay([], a + b)
  {
    RecordIsTop(a);
    RecordIsTop(b);
    RecordIsTop(a + b);
    TopOfTop(a, Top(b));
    TopIgnoresOrder(a + Top(b), Top(b) + a);
    TopOfTop(b, a);
    TopIgnoresOrder(b + a, a + b);
  }

  /** The default record is neutral, given that records are what `Top` yields. */
  lemma {:induction false} CombineWithDefault(log: seq<Sample>)
    ensures Combined(Replay([], log), []) == Replay([], log)
    ensures Combined([], Replay([], log)) == Replay([], log)
  {
    RecordIsTop(log);
    assert Top(log) + [] == Top(log) && [] + Top(log) == Top(log);
    TopIsSorted(log);
    SortOfSorted(Top(log));
  }

  // ---------------------------------------------------------------- what is kept, in terms of times

  /**
   * Of all samples the newest 64 are kept: none that is left out is newer than a kept one, nor as
   * new and longer.
   */
  ghost predicate NewestOf(kept: seq<Sample>, all: seq<Sample>) {
    && |kept| == (if |all| < 64 then |all| else 64)
    && multiset(kept) <= multiset(all)
    && forall x, gone :: x in kept && gone in multiset(all) - multiset(kept) ==>
         gone.timestamp < x.timestamp || (gone.timestamp == x.timestamp && gone.duration <= x.duration)
  }

  /** Later samples of a record are never newer. */
  ghost predicate NewestFirst(samples: seq<Sample>) {
    forall i, j :: 0 <= i < j < |samples| ==> samples[i].timestamp >= samples[j].timestamp
  }

  lemma {:induction false} SplitPermutes(sorted: seq<Sample>, all: seq<Sample>, k: nat)
    requires multiset(sorted) == multiset(all) && k <= |sorted|
    ensures multiset(sorted[..k]) <= multiset(all)
    ensures multiset(all) - multiset(sorted[..k]) == multiset(sorted[k..])
  {
    assert sorted == sorted[..k] + sorted[k..];
  }

  lemma {:induction false} SortedSplit(sorted: seq<Sample>, k: nat, x: Sample, gone: Sample)
    requires Sorted(sorted) && k <= |sorted|
    requires x in sorted[..k] && gone in sorted[k..]
    ensures AtLeast(x, gone)
  {
    var i :| 0 <= i < k && sorted[i] == x;
    var j :| 0 <= j < |sorted[k..]| && sorted[k..][j] == gone;
    assert sorted[k + j] == gone;
  }

  lemma {:induction false} SplitIsNewest(sorted: seq<Sample>, all: seq<Sample>, k: nat)
    requires Sorted(sorted) && multiset(sorted) == multiset(all) && |sorted| == |all|
    requires k == if |all| < 64 then |all| else 64
    ensures NewestOf(sorted[..k], all)
  {
    hide Sorted;
    SplitPermutes(sorted, all, k);
    forall x, gone | x in sorted[..k] && gone in multiset(all) - multiset(sorted[..k])
      ensures AtLeast(x, gone)
    {
      assert gone in multiset(sorted[k..]);
      SortedSplit(sorted, k, x, gone);
    }
  }

  lemma {:induction false} TopKeepsNewest(s: seq<Sample>)
    ensures NewestOf(Top(s), s) && NewestFirst(Top(s))
  {
    hide Sort, NewestOf;
    SortSorts(s);
    SortPermutes(s);
    SplitIsNewest(Sort(s), s, if |s| < 64 then |s| else 64);
    assert Sort(s)[..|s|] == Sort(s);
  }

  /** The record of a log holds its 64 newest samples, newest first. */
  lemma {:induction false} RecordKeepsNewest(log: seq<Sample>)
    ensures NewestOf(Replay([], log), log) && NewestFirst(Replay([], log))
  {
    RecordIsTop(log);
    TopKeepsNewest(log);
  }

  /** A sample that is newer than all in the record becomes its first, whatever the record. */
  lemma {:induction false} NewestIsRecorded(samples: seq<Sample>, x: Sample)
    requires forall y :: y in samples ==> y.timestamp < x.timestamp
    ensures Recorded(samples, x) != [] && Recorded(samples, x)[0] == x
  {
    SortPush(samples, x);
    SortPermutes(samples);
    if samples != [] {
      assert Sort(samples)[0] in multiset(Sort(samples));
      assert Sort(samples)[0] in samples;
    }
  }

  // ---------------------------------------------------------------- replaying a log twice

  predicate BelowAll(samples: seq<Sample>, x: Sample) {
    |samples| == MAX_SAMPLES && AtLeast(samples[MAX_SAMPLES - 1], x)
  }

  lemma {:induction false} InsertAtEnd(x: Sample, s: seq<Sample>)
    requires Sorted(s)
    requires s != [] ==> AtLeast(s[|s| - 1], x)
    ensures Insert(x, s)[..|s|] == s
  {
    if s != [] {
      if AtLeast(x, s[0]) {
        assert forall i :: 0 <= i < |s| ==> s[i] == x by {
          forall i | 0 <= i < |s|
            ensures s[i] == x
          {
            assert i < |s| - 1 ==> AtLeast(s[i], s[|s| - 1]);
            assert 0 < i ==> AtLeast(s[0], s[i]);
          }
        }
      } else {
        InsertAtEnd(x, s[1..]);
      }
    }
  }

  lemma {:induction false} RecordedChanges(samples: seq<Sample>, x: Sample)
    requires Sorted(samples) && |samples| <= MAX_SAMPLES
    ensures Recorded(samples, x) == samples <==> BelowAll(samples, x)
  {
    SortOfSorted(samples);
    SortPush(samples, x);
    if BelowAll(samples, x) {
      InsertAtEnd(x, samples);
    } else if |samples| == MAX_SAMPLES {
      InsertEarly(x, samples);
    }
  }

  lemma {:induction false} InsertEarly(x: Sample, s: seq<Sample>)
    requires Sorted(s) && s != [] && !AtLeast(s[|s| - 1], x)
    ensures Insert(x, s)[..|s|] != s
  {
    var grown := Insert(x, s);
    if AtLeast(x, s[0]) {
      if grown[..|s|] == s {
        ShiftedIsConstant(x, s);
      }
    } else {
      InsertEarly(x, s[1..]);
      assert grown[..|s|][1..] == Insert(x, s[1..])[..|s| - 1];
    }
  }

  lemma {:induction false} ShiftedIsConstant(x: Sample, s: seq<Sample>)
    requires s != [] && ([x] + s)[..|s|] == s
    ensures s[|s| - 1] == x
  {
    if |s| > 1 {
      var shorter := s[..|s| - 1];
      assert ([x] + s)[|s| - 1] == s[|s| - 2];
      assert ([x] + shorter)[..|shorter|] == shorter by {
        forall i | 0 <= i < |shorter|
          ensures ([x] + shorter)[i] == shorter[i]
        {
          assert ([x] + s)[..|s|][i] == s[i];
        }
      }
      ShiftedIsConstant(x, shorter);
      assert ([x] + s)[..|s|][|s| - 1] == s[|s| - 1];
    }
  }

  ghost predicate Dominates(a: seq<Sample>, b: seq<Sample>) {
    |a| >= |b| && forall i :: 0 <= i < |b| ==> AtLeast(a[i], b[i])
  }

  lemma {:induction false} InsertDominates(x: Sample, s: seq<Sample>, i: nat)
    requires Sorted(s) && i < |s|
    ensures AtLeast(Insert(x, s)[i], s[i])
  {
    if AtLeast(x, s[0]) {
      assert i > 0 ==> Insert(x, s)[i] == s[i - 1];
    } else if i > 0 {
      InsertDominates(x, s[1..], i - 1);
    }
  }

  lemma {:induction false} RecordedDominates(samples: seq<Sample>, x: Sample)
    requires Sorted(samples) && |samples| <= MAX_SAMPLES
    ensures Dominates(Recorded(samples, x), samples)
    ensures Sorted(Recorded(samples, x)) && |Recorded(samples, x)| <= MAX_SAMPLES
  {
    SortOfSorted(samples);
    SortPush(samples, x);
    TopIsSorted(samples + [x]);
    forall i | 0 <= i < |samples|
      ensures AtLeast(Recorded(samples, x)[i], samples[i])
    {
      InsertDominates(x, samples, i);
    }
  }

  lemma {:induction false} ReplayDominates(samples: seq<Sample>, log: seq<Sample>)
    requires Sorted(samples) && |samples| <= MAX_SAMPLES
    ensures Dominates(Replay(samples, log), samples)
    ensures Sorted(Replay(samples, log)) && |Replay(samples, log)| <= MAX_SAMPLES
  {
    hide Recorded;
    if log != [] {
      ReplayDominates(samples, log[..|log| - 1]);
      RecordedDominates(Replay(samples, log[..|log| - 1]), log[|log| - 1]);
    }
  }

  /**
   * A log that is replayed although the snapshot already contains it, after a failed truncation,
   * changes the record unless the record is full and every sample of the log is at its lower end.
   */
  lemma {:induction false} ReplayAgainIff(samples: seq<Sample>, log: seq<Sample>)
    requires Sorted(samples) && |samples| <= MAX_SAMPLES
    ensures Replay(samples, log) == samples <==> forall x :: x in log ==> BelowAll(samples, x)
  {
    hide Recorded;
    if log != [] {
      var rest, last := log[..|log| - 1], log[|log| - 1];
      assert log == rest + [last];
      var before := Replay(samples, rest);
      ReplayDominates(samples, rest);
      RecordedDominates(before, last);
      ReplayAgainIff(samples, rest);
      RecordedChanges(samples, last);
      if Replay(samples, log) == samples {
        assert Recorded(before, last) == samples;
        forall i | 0 <= i < |samples|
          ensures before[i] == samples[i]
        {
          assert AtLeast(before[i], samples[i]) && AtLeast(samples[i], before[i]);
        }
        assert before == samples;
      }
    }
  }

  // ---------------------------------------------------------------- percentiles

  function InsertUp(x: nat, s: seq<nat>): (r: seq<nat>)
    ensures |r| == |s| + 1
  {
    if s == [] then [x]
    else if x <= s[0] then [x] + s
    else [s[0]] + InsertUp(x, s[1..])
  }

  function SortUp(s: seq<nat>): (r: seq<nat>)
    ensures |r| == |s|
  {
    if s == [] then [] else InsertUp(s[0], SortUp(s[1..]))
  }

  lemma {:induction false} InsertUpPermutes(x: nat, s: seq<nat>)
    ensures multiset(InsertUp(x, s)) == multiset{x} + multiset(s)
  {
    if s != [] && x > s[0] {
      InsertUpPermutes(x, s[1..]);
      Uncons(s);
    }
  }

  lemma {:induction false} SortUpPermutes(s: seq<nat>)
    ensures multiset(SortUp(s)) == multiset(s)
  {
    if s != [] {
      SortUpPermutes(s[1..]);
      InsertUpPermutes(s[0], SortUp(s[1..]));
      Uncons(s);
    }
  }

  ghost predicate Ascending(s: seq<nat>) {
    forall i, j :: 0 <= i < j < |s| ==> s[i] <= s[j]
  }

  lemma {:induction false} InsertUpSorts(x: nat, s: seq<nat>)
    requires Ascending(s)
    ensures Ascending(InsertUp(x, s))
  {
    if s != [] && x > s[0] {
      InsertUpSorts(x, s[1..]);
      InsertUpPermutes(x, s[1..]);
      assert InsertUp(x, s[1..])[0] in multiset(InsertUp(x, s[1..]));
      AscendingCons(s[0], InsertUp(x, s[1..]));
    } else {
      AscendingCons(x, s);
    }
  }

  lemma {:induction false} AscendingCons(first: nat, rest: seq<nat>)
    requires Ascending(rest) && (rest != [] ==> first <= rest[0])
    ensures Ascending([first] + rest)
  {
  }

  lemma {:induction false} SortUpSorts(s: seq<nat>)
    ensures Ascending(SortUp(s))
  {
    if s != [] {
      SortUpSorts(s[1..]);
      InsertUpSorts(s[0], SortUp(s[1..]));
    }
  }

  /** The one-based rank at `product` hundredths. */
  function RankAt(product: nat): nat {
    var rank := (product + 99) / 100;
    if rank < 1 then 1 else rank
  }

  /** The one-based rank that `percentile` reads, before it is clamped to the sample count. */
  function Rank(p: nat, n: nat): nat {
    RankAt(p * n)
  }

  function ClampedRank(p: nat, n: nat): (rank: nat)
    requires n > 0
    ensures 1 <= rank <= n
  {
    if Rank(p, n) < n then Rank(p, n) else n
  }

  function Percentile(samples: seq<nat>, p: nat): nat {
    if samples == [] then 0 else SortUp(samples)[ClampedRank(p, |samples|) - 1]
  }

  function CountAtMost(s: seq<nat>, v: nat): nat {
    if s == [] then 0 else (if s[0] <= v then 1 else 0) + CountAtMost(s[1..], v)
  }

  function CountBelow(s: seq<nat>, v: nat): nat {
    if s == [] then 0 else (if s[0] < v then 1 else 0) + CountBelow(s[1..], v)
  }

  lemma {:induction false} InsertUpCounts(x: nat, s: seq<nat>, v: nat)
    ensures CountAtMost(InsertUp(x, s), v) == CountAtMost(s, v) + (if x <= v then 1 else 0)
    ensures CountBelow(InsertUp(x, s), v) == CountBelow(s, v) + (if x < v then 1 else 0)
  {
    if s != [] && x > s[0] {
      InsertUpCounts(x, s[1..], v);
    }
  }

  lemma {:induction false} SortUpCounts(s: seq<nat>, v: nat)
    ensures CountAtMost(SortUp(s), v) == CountAtMost(s, v)
    ensures CountBelow(SortUp(s), v) == CountBelow(s, v)
  {
    if s != [] {
      SortUpCounts(s[1..], v);
      InsertUpCounts(s[0], SortUp(s[1..]), v);
    }
  }

  lemma {:induction false} CountsAt(s: seq<nat>, i: nat)
    requires Ascending(s) && i < |s|
    ensures CountAtMost(s, s[i]) >= i + 1
    ensures CountBelow(s, s[i]) <= i
  {
    if i == 0 {
      NoneBelow(s, s[0]);
    } else {
      CountsAt(s[1..], i - 1);
    }
  }

  lemma {:induction false} NoneBelow(s: seq<nat>, v: nat)
    requires forall i :: 0 <= i < |s| ==> v <= s[i]
    ensures CountBelow(s, v) == 0
  {
    if s != [] {
      NoneBelow(s[1..], v);
    }
  }

  /**
   * The percentile is the smallest sample that has at least p hundredths of the samples at or below
   * it: that many are, and fewer than p hundredths, or none at all, are strictly below.
   */
  lemma {:induction false} PercentileRanks(samples: seq<nat>, p: nat)
    requires samples != []
    ensures Percentile(samples, p) in samples
    ensures p <= 100 ==> 100 * CountAtMost(samples, Percentile(samples, p)) >= p * |samples|
    ensures p > 100 ==> CountAtMost(samples, Percentile(samples, p)) == |samples|
    ensures var below := CountBelow(samples, Percentile(samples, p)); below == 0 || 100 * below < p * |samples|
  {
    var sorted, rank := SortUp(samples), ClampedRank(p, |samples|);
    SortUpSorts(samples);
    SortUpCounts(samples, sorted[rank - 1]);
    CountsAt(sorted, rank - 1);
    SortUpPermutes(samples);
    assert sorted[rank - 1] in multiset(sorted);
    CountsAtMostAll(samples, sorted[rank - 1]);
    RankCovers(p, |samples|);
  }

  lemma {:induction false} CountsAtMostAll(s: seq<nat>, v: nat)
    ensures CountAtMost(s, v) <= |s|
  {
    if s != [] {
      CountsAtMostAll(s[1..], v);
    }
  }

  lemma {:induction false} ProductGrows(p: nat, q: nat, n: nat)
    requires p <= q
    ensures p * n <= q * n
  {
  }

  lemma {:induction false} RankAtIs(product: nat)
    ensures 100 * RankAt(product) >= product
    ensures 1 <= RankAt(product) && (RankAt(product) > 1 ==> 100 * (RankAt(product) - 1) < product)
  {
  }

  lemma {:induction false} RankCovers(p: nat, n: nat)
    requires n > 0
    ensures p <= 100 ==> 100 * ClampedRank(p, n) >= p * n
    ensures p > 100 ==> ClampedRank(p, n) == n
    ensures ClampedRank(p, n) == 1 || 100 * (ClampedRank(p, n) - 1) < p * n
  {
    hide RankAt;
    if p <= 100 {
      ProductGrows(p, 100, n);
    } else {
      ProductGrows(101, p, n);
    }
    RankAtIs(p * n);
  }

  lemma {:induction false} RankAtGrows(a: nat, b: nat)
    requires a <= b
    ensures RankAt(a) <= RankAt(b)
  {
  }

  lemma {:induction false} RankGrows(p: nat, q: nat, n: nat)
    requires p <= q && n > 0
    ensures ClampedRank(p, n) <= ClampedRank(q, n)
  {
    hide RankAt;
    ProductGrows(p, q, n);
    RankAtGrows(p * n, q * n);
  }

  /** Higher percentiles are never smaller: in particular p50 never exceeds p95. */
  lemma {:induction false} PercentileGrows(samples: seq<nat>, p: nat, q: nat)
    requires p <= q
    ensures Percentile(samples, p) <= Percentile(samples, q)
  {
    if samples != [] {
      SortUpSorts(samples);
      RankGrows(p, q, |samples|);
    }
  }

  lemma {:induction false} LowestFirst(a: seq<nat>, b: seq<nat>)
    requires Ascending(a) && multiset(a) == multiset(b) && a != [] && b != []
    ensures a[0] <= b[0]
  {
    assert b[0] in multiset(b);
    var k :| 0 <= k < |a| && a[k] == b[0];
  }

  lemma {:induction false} AscendingIsUnique(a: seq<nat>, b: seq<nat>)
    requires Ascending(a) && Ascending(b) && multiset(a) == multiset(b)
    ensures a == b
  {
    SameLength(a, b);
    if a != [] {
      LowestFirst(a, b);
      LowestFirst(b, a);
      assert a[0] == b[0];
      SameRest(a, b);
      AscendingIsUnique(a[1..], b[1..]);
      assert a == [a[0]] + a[1..] && b == [b[0]] + b[1..];
    }
  }

  lemma {:induction false} PercentileIgnoresOrder(a: seq<nat>, b: seq<nat>, p: nat)
    requires multiset(a) == multiset(b)
    ensures Percentile(a, p) == Percentile(b, p)
  {
    SameLength(a, b);
    SortUpSorts(a);
    SortUpSorts(b);
    SortUpPermutes(a);
    SortUpPermutes(b);
    AscendingIsUnique(SortUp(a), SortUp(b));
  }
}
