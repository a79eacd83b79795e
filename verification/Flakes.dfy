/** Flake records: how often a test ran and failed, and its latest failure. */
module Flakes {
  import opened Results
  import opened Sequences

  datatype FlakeRecord = FlakeRecord(
    runs: nat,
    failures: nat,
    lastTimestamp: Option<U64>,
    lastClass: Option<FailureClass>)

  const NO_RUNS: FlakeRecord := FlakeRecord(0, 0, None, None)

  datatype RunEntry = RunEntry(failed: bool, class_: Option<FailureClass>, timestamp: U64)

  /** A failure replaces the latest one unless it is older; a tie goes to the newcomer. */
  predicate Supersedes(existing: Option<U64>, timestamp: U64) {
    (if existing.Some? then existing.value else 0) <= timestamp
  }

  /** `FlakeRecord::record`. */
  function Recorded(record: FlakeRecord, entry: RunEntry): FlakeRecord {
    var counted := record.(runs := record.runs + 1, failures := record.failures + (if entry.failed then 1 else 0));
    if entry.failed && Supersedes(record.lastTimestamp, entry.timestamp)
    then counted.(lastTimestamp := Some(entry.timestamp), lastClass := entry.class_)
    else counted
  }

  /** `FlakeRecord::combine`. */
  function Combined(a: FlakeRecord, b: FlakeRecord): FlakeRecord {
    var counted := a.(runs := a.runs + b.runs, failures := a.failures + b.failures);
    if b.lastTimestamp.Some? && Supersedes(a.lastTimestamp, b.lastTimestamp.value)
    then counted.(lastTimestamp := b.lastTimestamp, lastClass := b.lastClass)
    else counted
  }

  function Replay(record: FlakeRecord, log: seq<RunEntry>): FlakeRecord {
    if log == [] then record else Recorded(Replay(record, log[..|log| - 1]), log[|log| - 1])
  }

  lemma {:induction false} ReplayNothing(record: FlakeRecord)
    ensures Replay(record, []) == record
  {
  }

  lemma {:induction false} ReplayPush(record: FlakeRecord, log: seq<RunEntry>, entry: RunEntry)
    ensures Replay(record, log + [entry]) == Recorded(Replay(record, log), entry)
  {
    hide Recorded;
    assert (log + [entry])[..|log|] == log;
  }

  // ---------------------------------------------------------------- combining

  /** A record that was folded from runs has no failure class without a failure time. */
  predicate Consistent(record: FlakeRecord) {
    record.lastTimestamp.None? ==> record.lastClass.None?
  }

  lemma {:induction false} ReplayIsConsistent(record: FlakeRecord, log: seq<RunEntry>)
    requires Consistent(record)
    ensures Consistent(Replay(record, log))
  {
    if log != [] {
      ReplayIsConsistent(record, log[..|log| - 1]);
    }
  }

  /** The default record is neutral on the right always, and on the left exactly for consistent records. */
  lemma {:induction false} CombineWithDefault(record: FlakeRecord)
    ensures Combined(record, NO_RUNS) == record
    ensures Combined(NO_RUNS, record) == record <==> Consistent(record)
  {
    assert Supersedes(None, if record.lastTimestamp.Some? then record.lastTimestamp.value else 0);
  }

  /** So for the record of any log it is neutral on both sides. */
  lemma {:induction false} FoldedWithDefault(log: seq<RunEntry>)
    ensures Combined(NO_RUNS, Replay(NO_RUNS, log)) == Replay(NO_RUNS, log) == Combined(Replay(NO_RUNS, log), NO_RUNS)
  {
    ReplayIsConsistent(NO_RUNS, log);
    CombineWithDefault(Replay(NO_RUNS, log));
  }

  /** A record with a class but no time loses the class. */
  lemma {:induction false} StrayClassIsLost()
    ensures Combined(NO_RUNS, FlakeRecord(1, 1, None, Some(ClassFail))) == FlakeRecord(1, 1, None, None)
  {
  }

  lemma {:induction false} CombinePush(x: FlakeRecord, y: FlakeRecord, entry: RunEntry)
    ensures Combined(x, Recorded(y, entry)) == Recorded(Combined(x, y), entry)
  {
  }

  /** Combining the records of two logs gives the record of the logs put together. */
  lemma {:induction false} CombineIsConcat(a: seq<RunEntry>, b: seq<RunEntry>)
    ensures Combined(Replay(NO_RUNS, a), Replay(NO_RUNS, b)) == Replay(NO_RUNS, a + b)
  {
    if b == [] {
      assert a + b == a;
      CombineWithDefault(Replay(NO_RUNS, a));
    } else {
      var rest, last := b[..|b| - 1], b[|b| - 1];
      assert b == rest + [last] && a + b == (a + rest) + [last];
      ReplayPush(NO_RUNS, rest, last);
      ReplayPush(NO_RUNS, a + rest, last);
      hide Replay;
      CombineIsConcat(a, rest);
      CombinePush(Replay(NO_RUNS, a), Replay(NO_RUNS, rest), last);
    }
  }

  lemma {:induction false} ReplayOnto(record: FlakeRecord, log: seq<RunEntry>)
    ensures Replay(record, log) == Combined(record, Replay(NO_RUNS, log))
  {
    if log == [] {
      CombineWithDefault(record);
    } else {
      ReplayOnto(record, log[..|log| - 1]);
    }
  }

  // ---------------------------------------------------------------- what order can change

  function Failures(log: seq<RunEntry>): nat {
    if log == [] then 0 else Failures(log[..|log| - 1]) + (if log[|log| - 1].failed then 1 else 0)
  }

  ghost predicate IsLatest(log: seq<RunEntry>, timestamp: U64, class_: Option<FailureClass>) {
    && (exists e :: e in log && e.failed && e.timestamp == timestamp && e.class_ == class_)
    && (forall e :: e in log && e.failed ==> e.timestamp <= timestamp)
  }

  /** The record counts every run and failure, and its latest failure is one of the latest ones. */
  lemma {:induction false} RecordDescribesLog(log: seq<RunEntry>)
    ensures var record := Replay(NO_RUNS, log);
            && record.runs == |log| && record.failures == Failures(log)
            && (record.lastTimestamp.None? <==> forall e :: e in log ==> !e.failed)
            && (record.lastTimestamp.Some? ==> IsLatest(log, record.lastTimestamp.value, record.lastClass))
  {
    if log != [] {
      var rest, last := log[..|log| - 1], log[|log| - 1];
      RecordDescribesLog(rest);
      assert log == rest + [last];
    }
  }

  lemma {:induction false} FailuresOfMultiset(a: seq<RunEntry>, b: seq<RunEntry>)
    requires multiset(a) == multiset(b)
    ensures Failures(a) == Failures(b)
    decreases |a|
  {
    assert |multiset(a)| == |a| && |multiset(b)| == |b|;
    if a != [] {
      var last, rest := a[|a| - 1], a[..|a| - 1];
      assert a == rest + [last];
      assert last in multiset(b);
      var k :| 0 <= k < |b| && b[k] == last;
      WithoutAt(b, k);
      assert multiset(rest) == multiset(a) - multiset{last};
      FailuresOfMultiset(rest, b[..k] + b[k + 1..]);
      FailuresSplit(b, k);
    }
  }

  lemma {:induction false} FailuresPush(log: seq<RunEntry>, entry: RunEntry)
    ensures Failures(log + [entry]) == Failures(log) + (if entry.failed then 1 else 0)
  {
    assert (log + [entry])[..|log|] == log;
  }

  lemma {:induction false} FailuresSplit(log: seq<RunEntry>, k: nat)
    requires k < |log|
    ensures Failures(log) == Failures(log[..k] + log[k + 1..]) + (if log[k].failed then 1 else 0)
  {
    var rest, last := log[..|log| - 1], log[|log| - 1];
    var without := log[..k] + log[k + 1..];
    assert Failures(log) == Failures(rest) + (if last.failed then 1 else 0);
    if k < |log| - 1 {
      assert without == (rest[..k] + rest[k + 1..]) + [last];
      FailuresPush(rest[..k] + rest[k + 1..], last);
      hide Failures;
      FailuresSplit(rest, k);
    } else {
      assert without == rest;
    }
  }

  lemma {:induction false} SameCounts(a: seq<RunEntry>, b: seq<RunEntry>)
    requires multiset(a) == multiset(b)
    ensures Replay(NO_RUNS, a).runs == Replay(NO_RUNS, b).runs
    ensures Replay(NO_RUNS, a).failures == Replay(NO_RUNS, b).failures
    ensures Replay(NO_RUNS, a).lastTimestamp == Replay(NO_RUNS, b).lastTimestamp
  {
    SameLength(a, b);
    SameElements(a, b);
    FailuresOfMultiset(a, b);
    RecordDescribesLog(a);
    RecordDescribesLog(b);
  }

  /**
   * Interleaved appends of parallel runs, on top of any record, load to the same counts and the
   * same latest failure time.
   */
  lemma {:induction false} OrderKeepsCounts(record: FlakeRecord, a: seq<RunEntry>, b: seq<RunEntry>)
    requires multiset(a) == multiset(b)
    ensures Replay(record, a).runs == Replay(record, b).runs
    ensures Replay(record, a).failures == Replay(record, b).failures
    ensures Replay(record, a).lastTimestamp == Replay(record, b).lastTimestamp
  {
    hide Replay;
    SameCounts(a, b);
    ReplayOnto(record, a);
    ReplayOnto(record, b);
  }

  ghost predicate Latest(log: seq<RunEntry>, entry: RunEntry) {
    entry in log && entry.failed && forall e :: e in log && e.failed ==> e.timestamp <= entry.timestamp
  }

  /** The latest failures of the log agree on their class, unless the record already has a later one. */
  ghost predicate TiesAgree(record: FlakeRecord, log: seq<RunEntry>) {
    forall d, e :: Latest(log, d) && Latest(log, e) && Supersedes(record.lastTimestamp, d.timestamp) ==>
      d.class_ == e.class_
  }

  lemma {:induction false} LatestOfReordered(a: seq<RunEntry>, b: seq<RunEntry>, entry: RunEntry)
    requires multiset(a) == multiset(b)
    ensures Latest(a, entry) <==> Latest(b, entry)
  {
    SameElements(a, b);
  }

  lemma {:induction false} AgreeingTiesHide(record: FlakeRecord, a: seq<RunEntry>, b: seq<RunEntry>)
    requires multiset(a) == multiset(b) && TiesAgree(record, a)
    ensures Replay(record, a) == Replay(record, b)
  {
    hide Replay, Failures;
    OrderKeepsCounts(record, a, b);
    SameCounts(a, b);
    RecordDescribesLog(a);
    RecordDescribesLog(b);
    ReplayOnto(record, a);
    ReplayOnto(record, b);
    var last := Replay(NO_RUNS, a).lastTimestamp;
    if last.Some? && Supersedes(record.lastTimestamp, last.value) {
      var d :| d in a && d.failed && d.timestamp == last.value && d.class_ == Replay(NO_RUNS, a).lastClass;
      var e :| e in b && e.failed && e.timestamp == last.value && e.class_ == Replay(NO_RUNS, b).lastClass;
      assert Latest(a, d) && Latest(b, e);
      LatestOfReordered(a, b, e);
    }
  }

  /** A latest failure that comes last is the one that is remembered. */
  lemma {:induction false} MovedLast(
      record: FlakeRecord, log: seq<RunEntry>, entry: RunEntry)
    returns (moved: seq<RunEntry>)
    requires Latest(log, entry) && Supersedes(record.lastTimestamp, entry.timestamp)
    ensures multiset(moved) == multiset(log)
    ensures Replay(record, moved).lastClass == entry.class_
  {
    var k := RemoveAt(log, entry);
    var rest := log[..k] + log[k + 1..];
    moved := rest + [entry];
    assert multiset(moved) == multiset(log);
    SameElements(moved, log);
    EndsWithLatest(record, rest, entry);
  }

  lemma {:induction false} EndsWithLatest(record: FlakeRecord, rest: seq<RunEntry>, entry: RunEntry)
    requires Latest(rest + [entry], entry) && Supersedes(record.lastTimestamp, entry.timestamp)
    ensures Replay(record, rest + [entry]).lastClass == entry.class_
  {
    hide Replay, Failures;
    ReplayPush(record, rest, entry);
    ReplayOnto(record, rest);
    RecordDescribesLog(rest);
    assert forall e :: e in rest ==> e in rest + [entry];
  }

  /**
   * Exactly when the order of a log cannot show in the record it is replayed onto: when all
   * failures at the latest failure time agree on their class, or the record has a later failure.
   */
  lemma {:induction false} OrderIsHiddenIff(record: FlakeRecord, a: seq<RunEntry>)
    ensures (forall b {:trigger Replay(record, b)} :: multiset(b) == multiset(a) ==>
            Replay(record, b) == Replay(record, a))
            <==> TiesAgree(record, a)
  {
    hide Replay, Latest;
    if TiesAgree(record, a) {
      forall b | multiset(b) == multiset(a)
        ensures Replay(record, b) == Replay(record, a)
      {
        AgreeingTiesHide(record, a, b);
      }
    } else {
      var d, e :| Latest(a, d) && Latest(a, e) && Supersedes(record.lastTimestamp, d.timestamp) && d.class_ != e.class_;
      SameTime(a, d, e);
      var first := MovedLast(record, a, d);
      var second := MovedLast(record, a, e);
      assert Replay(record, first) != Replay(record, second);
    }
  }

  lemma {:induction false} SameTime(log: seq<RunEntry>, d: RunEntry, e: RunEntry)
    requires Latest(log, d) && Latest(log, e)
    ensures d.timestamp == e.timestamp
  {
  }

  lemma {:induction false} LastOfTwo(first: RunEntry, second: RunEntry)
    ensures Replay(NO_RUNS, [first, second]) == Recorded(Recorded(NO_RUNS, first), second)
  {
    assert [first, second][..1] == [first];
    assert [first][..0] == [];
    assert Replay(NO_RUNS, [first]) == Recorded(NO_RUNS, first);
  }

  /** Which of two equally late failures is remembered does depend on the order. */
  lemma {:induction false} TiesDependOnOrder(timestamp: U64)
    ensures var first := RunEntry(true, Some(ClassFail), timestamp);
            var second := RunEntry(true, Some(ClassTimeout), timestamp);
            Replay(NO_RUNS, [first, second]) != Replay(NO_RUNS, [second, first])
  {
    var first, second := RunEntry(true, Some(ClassFail), timestamp), RunEntry(true, Some(ClassTimeout), timestamp);
    LastOfTwo(first, second);
    LastOfTwo(second, first);
  }

  /** A log that is replayed although the snapshot already contains it counts its runs twice. */
  lemma {:induction false} ReplayAgainIff(record: FlakeRecord, log: seq<RunEntry>)
    ensures Replay(record, log) == record <==> log == []
  {
    ReplayOnto(record, log);
    RecordDescribesLog(log);
  }
}
