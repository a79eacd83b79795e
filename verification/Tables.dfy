/** The tables of the duration database: what replaying logs onto them yields, in any order and twice. */
module Tables {
  import opened Results
  import opened Sequences
  import opened DbFormat
  import Samples
  import Flakes
  import Variants

  // ---------------------------------------------------------------- tables

  type PerfTable = map<Slot, seq<Samples.Sample>>
  type FlakeTable = map<Slot, Flakes.FlakeRecord>
  type NameTable = map<U64, Variants.TestIdentity>

  function PerfAt(table: PerfTable, slot: Slot): seq<Samples.Sample> {
    if slot in table then table[slot] else []
  }

  function FlakeAt(table: FlakeTable, slot: Slot): Flakes.FlakeRecord {
    if slot in table then table[slot] else Flakes.NO_RUNS
  }

  function PerfStep(table: PerfTable, e: PerfEntry): PerfTable {
    table[e.slot := Samples.Recorded(PerfAt(table, e.slot), e.sample)]
  }

  function FlakeStep(table: FlakeTable, e: FlakeEntry): FlakeTable {
    table[e.slot := Flakes.Recorded(FlakeAt(table, e.slot), e.run)]
  }

  function NameStep(table: NameTable, e: NameEntry): NameTable {
    table[e.key := e.identity]
  }

  function ReplayPerf(table: PerfTable, log: seq<PerfEntry>): PerfTable {
    if log == [] then table else PerfStep(ReplayPerf(table, log[..|log| - 1]), log[|log| - 1])
  }

  function ReplayFlake(table: FlakeTable, log: seq<FlakeEntry>): FlakeTable {
    if log == [] then table else FlakeStep(ReplayFlake(table, log[..|log| - 1]), log[|log| - 1])
  }

  function ReplayNames(table: NameTable, log: seq<NameEntry>): NameTable {
    if log == [] then table else NameStep(ReplayNames(table, log[..|log| - 1]), log[|log| - 1])
  }

  lemma {:induction false} ReplayPerfPush(table: PerfTable, log: seq<PerfEntry>, e: PerfEntry)
    ensures ReplayPerf(table, log + [e]) == PerfStep(ReplayPerf(table, log), e)
  {
    hide PerfStep;
    assert (log + [e])[..|log|] == log;
  }

  lemma {:induction false} ReplayFlakePush(table: FlakeTable, log: seq<FlakeEntry>, e: FlakeEntry)
    ensures ReplayFlake(table, log + [e]) == FlakeStep(ReplayFlake(table, log), e)
  {
    hide FlakeStep;
    assert (log + [e])[..|log|] == log;
  }

  lemma {:induction false} ReplayNamesPush(table: NameTable, log: seq<NameEntry>, e: NameEntry)
    ensures ReplayNames(table, log + [e]) == NameStep(ReplayNames(table, log), e)
  {
    hide NameStep;
    assert (log + [e])[..|log|] == log;
  }

  lemma {:induction false} ReplayPerfAppend(table: PerfTable, a: seq<PerfEntry>, b: seq<PerfEntry>)
    ensures ReplayPerf(table, a + b) == ReplayPerf(ReplayPerf(table, a), b)
  {
    hide PerfStep;
    if b == [] {
      assert a + b == a;
    } else {
      ReplayPerfAppend(table, a, b[..|b| - 1]);
      assert (a + b)[..|a + b| - 1] == a + b[..|b| - 1];
    }
  }

  lemma {:induction false} ReplayFlakeAppend(table: FlakeTable, a: seq<FlakeEntry>, b: seq<FlakeEntry>)
    ensures ReplayFlake(table, a + b) == ReplayFlake(ReplayFlake(table, a), b)
  {
    hide FlakeStep;
    if b == [] {
      assert a + b == a;
    } else {
      ReplayFlakeAppend(table, a, b[..|b| - 1]);
      assert (a + b)[..|a + b| - 1] == a + b[..|b| - 1];
    }
  }

  lemma {:induction false} ReplayNamesAppend(table: NameTable, a: seq<NameEntry>, b: seq<NameEntry>)
    ensures ReplayNames(table, a + b) == ReplayNames(ReplayNames(table, a), b)
  {
    hide NameStep;
    if b == [] {
      assert a + b == a;
    } else {
      ReplayNamesAppend(table, a, b[..|b| - 1]);
      assert (a + b)[..|a + b| - 1] == a + b[..|b| - 1];
    }
  }

  // ---------------------------------------------------------------- one slot of a table

  function SampleAt(slot: Slot): PerfEntry -> Option<Samples.Sample> {
    (e: PerfEntry) => if e.slot == slot then Some(e.sample) else None
  }

  function RunAt(slot: Slot): FlakeEntry -> Option<Flakes.RunEntry> {
    (e: FlakeEntry) => if e.slot == slot then Some(e.run) else None
  }

  function SamplesFor(log: seq<PerfEntry>, slot: Slot): seq<Samples.Sample> {
    Picked(log, SampleAt(slot))
  }

  function RunsFor(log: seq<FlakeEntry>, slot: Slot): seq<Flakes.RunEntry> {
    Picked(log, RunAt(slot))
  }

  /** Whatever is underneath, a slot's record is replayed from that slot's own samples. */
  lemma {:induction false} PerfSlotIsFold(table: PerfTable, log: seq<PerfEntry>, slot: Slot)
    ensures PerfAt(ReplayPerf(table, log), slot) == Samples.Replay(PerfAt(table, slot), SamplesFor(log, slot))
    ensures slot in ReplayPerf(table, log) <==> slot in table || SamplesFor(log, slot) != []
  {
    hide Samples.Recorded, Samples.Replay;
    if log == [] {
      Samples.ReplayNothing(PerfAt(table, slot));
    } else {
      var rest, last := log[..|log| - 1], log[|log| - 1];
      PerfSlotIsFold(table, rest, slot);
      assert SamplesFor(rest, slot) + [] == SamplesFor(rest, slot);
      Samples.ReplayPush(PerfAt(table, slot), SamplesFor(rest, slot), last.sample);
    }
  }

  /** In terms of times: after any log with a sample for the slot, its record is the 64 newest of all. */
  lemma {:induction false} SlotKeepsNewest(table: PerfTable, log: seq<PerfEntry>, slot: Slot)
    requires SamplesFor(log, slot) != [] || PerfAt(table, slot) == []
    ensures var record := PerfAt(ReplayPerf(table, log), slot);
            && Samples.NewestOf(record, PerfAt(table, slot) + SamplesFor(log, slot))
            && Samples.NewestFirst(record)
  {
    hide Samples.NewestOf, Samples.NewestFirst, Samples.Top, Samples.Replay, SamplesFor;
    var before, all := PerfAt(table, slot), SamplesFor(log, slot);
    PerfSlotIsFold(table, log, slot);
    if all == [] {
      Samples.RecordIsTop([]);
      assert before + all == all;
    } else {
      Samples.ReplayOntoAny(before, all);
    }
    Samples.TopKeepsNewest(before + all);
  }

  /** Whatever is underneath, a slot's record is replayed from that slot's own runs. */
  lemma {:induction false} FlakeSlotIsFold(table: FlakeTable, log: seq<FlakeEntry>, slot: Slot)
    ensures FlakeAt(ReplayFlake(table, log), slot) == Flakes.Replay(FlakeAt(table, slot), RunsFor(log, slot))
    ensures slot in ReplayFlake(table, log) <==> slot in table || RunsFor(log, slot) != []
  {
    hide Flakes.Recorded, Flakes.Replay;
    if log == [] {
      Flakes.ReplayNothing(FlakeAt(table, slot));
    } else {
      var rest, last := log[..|log| - 1], log[|log| - 1];
      FlakeSlotIsFold(table, rest, slot);
      assert RunsFor(rest, slot) + [] == RunsFor(rest, slot);
      Flakes.ReplayPush(FlakeAt(table, slot), RunsFor(rest, slot), last.run);
    }
  }

  lemma {:induction false} SamePerf(a: PerfTable, b: PerfTable)
    requires forall slot: Slot :: (slot in a <==> slot in b) && PerfAt(a, slot) == PerfAt(b, slot)
    ensures a == b
  {
    assert forall slot: Slot :: slot in a ==> a[slot] == PerfAt(a, slot);
    assert forall slot: Slot :: slot in b ==> b[slot] == PerfAt(b, slot);
  }

  lemma {:induction false} SameFlake(a: FlakeTable, b: FlakeTable)
    requires forall slot: Slot :: (slot in a <==> slot in b) && FlakeAt(a, slot) == FlakeAt(b, slot)
    ensures a == b
  {
    assert forall slot: Slot :: slot in a ==> a[slot] == FlakeAt(a, slot);
    assert forall slot: Slot :: slot in b ==> b[slot] == FlakeAt(b, slot);
  }

  // ---------------------------------------------------------------- order of parallel appends

  /** However the appends of parallel runs interleave, on top of any table they load to the same perf table. */
  lemma {:induction false} PerfIgnoresOrder(table: PerfTable, a: seq<PerfEntry>, b: seq<PerfEntry>)
    requires multiset(a) == multiset(b)
    ensures ReplayPerf(table, a) == ReplayPerf(table, b)
  {
    hide ReplayPerf, Picked, Samples.Replay;
    forall slot: Slot
      ensures slot in ReplayPerf(table, a) <==> slot in ReplayPerf(table, b)
      ensures PerfAt(ReplayPerf(table, a), slot) == PerfAt(ReplayPerf(table, b), slot)
    {
      PerfSlotIsFold(table, a, slot);
      PerfSlotIsFold(table, b, slot);
      PickedIgnoresOrder(a, b, SampleAt(slot));
      SameLength(SamplesFor(a, slot), SamplesFor(b, slot));
      Samples.ReplayIgnoresOrder(PerfAt(table, slot), SamplesFor(a, slot), SamplesFor(b, slot));
    }
    SamePerf(ReplayPerf(table, a), ReplayPerf(table, b));
  }

  /** The flake table agrees too in every count and every latest failure time. */
  lemma {:induction false} FlakeOrderKeepsCounts(table: FlakeTable, a: seq<FlakeEntry>, b: seq<FlakeEntry>, slot: Slot)
    requires multiset(a) == multiset(b)
    ensures slot in ReplayFlake(table, a) <==> slot in ReplayFlake(table, b)
    ensures var x, y := FlakeAt(ReplayFlake(table, a), slot), FlakeAt(ReplayFlake(table, b), slot);
            x.runs == y.runs && x.failures == y.failures && x.lastTimestamp == y.lastTimestamp
  {
    hide ReplayFlake, Picked, Flakes.Replay;
    FlakeSlotIsFold(table, a, slot);
    FlakeSlotIsFold(table, b, slot);
    PickedIgnoresOrder(a, b, RunAt(slot));
    SameLength(RunsFor(a, slot), RunsFor(b, slot));
    Flakes.OrderKeepsCounts(FlakeAt(table, slot), RunsFor(a, slot), RunsFor(b, slot));
  }

  /** No slot has two latest failures that would show their order. */
  ghost predicate TiesAgree(table: FlakeTable, log: seq<FlakeEntry>) {
    forall slot: Slot :: Flakes.TiesAgree(FlakeAt(table, slot), RunsFor(log, slot))
  }

  lemma {:induction false} AgreeingTiesHide(table: FlakeTable, a: seq<FlakeEntry>, b: seq<FlakeEntry>)
    requires multiset(a) == multiset(b) && TiesAgree(table, a)
    ensures ReplayFlake(table, a) == ReplayFlake(table, b)
  {
    hide ReplayFlake, Picked, Flakes.Replay, Flakes.TiesAgree;
    forall slot: Slot
      ensures slot in ReplayFlake(table, a) <==> slot in ReplayFlake(table, b)
      ensures FlakeAt(ReplayFlake(table, a), slot) == FlakeAt(ReplayFlake(table, b), slot)
    {
      FlakeOrderKeepsCounts(table, a, b, slot);
      FlakeSlotIsFold(table, a, slot);
      FlakeSlotIsFold(table, b, slot);
      PickedIgnoresOrder(a, b, RunAt(slot));
      assert Flakes.TiesAgree(FlakeAt(table, slot), RunsFor(a, slot));
      Flakes.AgreeingTiesHide(FlakeAt(table, slot), RunsFor(a, slot), RunsFor(b, slot));
    }
    SameFlake(ReplayFlake(table, a), ReplayFlake(table, b));
  }

  lemma {:induction false} MovedLast(table: FlakeTable, log: seq<FlakeEntry>, slot: Slot, run: Flakes.RunEntry)
    returns (moved: seq<FlakeEntry>)
    requires Flakes.Latest(RunsFor(log, slot), run)
    requires Flakes.Supersedes(FlakeAt(table, slot).lastTimestamp, run.timestamp)
    ensures multiset(moved) == multiset(log)
    ensures FlakeAt(ReplayFlake(table, moved), slot).lastClass == run.class_
  {
    hide ReplayFlake, Picked, Flakes.Replay;
    PickedIn(log, RunAt(slot), run);
    var entry := FlakeEntry(slot, run);
    assert entry in log;
    var k := RemoveAt(log, entry);
    var rest := log[..k] + log[k + 1..];
    moved := rest + [entry];
    assert multiset(moved) == multiset(log);
    PickedPush(rest, entry, RunAt(slot));
    PickedIgnoresOrder(log, moved, RunAt(slot));
    Flakes.LatestOfReordered(RunsFor(log, slot), RunsFor(moved, slot), run);
    Flakes.EndsWithLatest(FlakeAt(table, slot), RunsFor(rest, slot), run);
    FlakeSlotIsFold(table, moved, slot);
  }

  /** Exactly when the interleaving of parallel appends cannot show in the flake table. */
  lemma {:induction false} FlakeOrderIsHiddenIff(table: FlakeTable, a: seq<FlakeEntry>)
    ensures (forall b {:trigger ReplayFlake(table, b)} :: multiset(b) == multiset(a) ==>
            ReplayFlake(table, b) == ReplayFlake(table, a))
            <==> TiesAgree(table, a)
  {
    hide ReplayFlake, Picked, Flakes.Latest;
    if TiesAgree(table, a) {
      forall b | multiset(b) == multiset(a)
        ensures ReplayFlake(table, b) == ReplayFlake(table, a)
      {
        AgreeingTiesHide(table, a, b);
      }
    } else {
      var slot :| !Flakes.TiesAgree(FlakeAt(table, slot), RunsFor(a, slot));
      var d, e :|
        && Flakes.Latest(RunsFor(a, slot), d) && Flakes.Latest(RunsFor(a, slot), e)
        && Flakes.Supersedes(FlakeAt(table, slot).lastTimestamp, d.timestamp) && d.class_ != e.class_;
      Flakes.SameTime(RunsFor(a, slot), d, e);
      var first := MovedLast(table, a, slot, d);
      var second := MovedLast(table, a, slot, e);
      assert ReplayFlake(table, first) != ReplayFlake(table, second);
    }
  }

  // ---------------------------------------------------------------- a log replayed twice

  /** A table that has already absorbed the log; its records for the log's slots are what folds yield. */
  lemma {:induction false} AbsorbedSlot(base: PerfTable, log: seq<PerfEntry>, slot: Slot)
    requires SamplesFor(log, slot) != []
    ensures var record := PerfAt(ReplayPerf(base, log), slot); Samples.Sorted(record) && |record| <= Samples.MAX_SAMPLES
  {
    hide ReplayPerf, Picked, Samples.Replay, Samples.Top;
    PerfSlotIsFold(base, log, slot);
    Samples.ReplayOntoAny(PerfAt(base, slot), SamplesFor(log, slot));
    Samples.TopIsSorted(PerfAt(base, slot) + SamplesFor(log, slot));
  }

  lemma {:induction false} SlotReplayAgainIff(base: PerfTable, log: seq<PerfEntry>, again: seq<PerfEntry>, slot: Slot)
    requires forall e :: e in again ==> e in log
    ensures var once := ReplayPerf(base, log);
            PerfAt(ReplayPerf(once, again), slot) == PerfAt(once, slot)
            <==> forall x :: x in SamplesFor(again, slot) ==> Samples.BelowAll(PerfAt(once, slot), x)
  {
    hide ReplayPerf, Picked, Samples.Replay, Samples.BelowAll;
    var once := ReplayPerf(base, log);
    PerfSlotIsFold(once, again, slot);
    if SamplesFor(again, slot) == [] {
      Samples.ReplayNothing(PerfAt(once, slot));
    } else {
      var x := SamplesFor(again, slot)[0];
      PickedIn(again, SampleAt(slot), x);
      PickedIn(log, SampleAt(slot), x);
      AbsorbedSlot(base, log, slot);
      Samples.ReplayAgainIff(PerfAt(once, slot), SamplesFor(again, slot));
    }
  }

  /** Every one of the samples is at the lower end of a full record of the table. */
  ghost predicate AllBelow(table: PerfTable, entries: seq<PerfEntry>) {
    forall e :: e in entries ==> Samples.BelowAll(PerfAt(table, e.slot), e.sample)
  }

  /** Replaying a part of the log that the table already contains leaves it alone exactly when all of it is below. */
  lemma {:induction false} PerfReplayMoreIff(base: PerfTable, log: seq<PerfEntry>, again: seq<PerfEntry>)
    requires forall e :: e in again ==> e in log
    ensures var once := ReplayPerf(base, log);
            ReplayPerf(once, again) == once <==> AllBelow(once, again)
  {
    hide ReplayPerf, Picked, Samples.BelowAll;
    var once := ReplayPerf(base, log);
    if AllBelow(once, again) {
      forall slot: Slot
        ensures slot in ReplayPerf(once, again) <==> slot in once
        ensures PerfAt(ReplayPerf(once, again), slot) == PerfAt(once, slot)
      {
        BelowInSlot(once, again, slot);
        SlotReplayAgainIff(base, log, again, slot);
        PerfSlotIsFold(base, log, slot);
        PerfSlotIsFold(once, again, slot);
        SamplesAreIn(log, again, slot);
      }
      SamePerf(ReplayPerf(once, again), once);
    }
    if ReplayPerf(once, again) == once {
      forall e | e in again
        ensures Samples.BelowAll(PerfAt(once, e.slot), e.sample)
      {
        SlotReplayAgainIff(base, log, again, e.slot);
        PickedIn(again, SampleAt(e.slot), e.sample);
      }
    }
  }

  lemma {:induction false} BelowInSlot(table: PerfTable, entries: seq<PerfEntry>, slot: Slot)
    requires AllBelow(table, entries)
    ensures forall x :: x in SamplesFor(entries, slot) ==> Samples.BelowAll(PerfAt(table, slot), x)
  {
    hide Samples.BelowAll, Picked;
    forall x | x in SamplesFor(entries, slot)
      ensures Samples.BelowAll(PerfAt(table, slot), x)
    {
      PickedIn(entries, SampleAt(slot), x);
    }
  }

  lemma {:induction false} SamplesAreIn(log: seq<PerfEntry>, part: seq<PerfEntry>, slot: Slot)
    requires forall e :: e in part ==> e in log
    ensures SamplesFor(part, slot) != [] ==> SamplesFor(log, slot) != []
  {
    hide Picked;
    if SamplesFor(part, slot) != [] {
      var x := SamplesFor(part, slot)[0];
      PickedIn(part, SampleAt(slot), x);
      PickedIn(log, SampleAt(slot), x);
    }
  }

  /**
   * Replaying a perf log that the snapshot already contains leaves the table alone exactly when
   * every sample of the log is at the lower end of a full record.
   */
  lemma {:induction false} PerfReplayAgainIff(base: PerfTable, log: seq<PerfEntry>)
    ensures var once := ReplayPerf(base, log);
            ReplayPerf(once, log) == once <==> AllBelow(once, log)
  {
    hide ReplayPerf, AllBelow;
    PerfReplayMoreIff(base, log, log);
  }

  lemma {:induction false} NothingReplayed(table: FlakeTable)
    ensures ReplayFlake(table, []) == table
  {
  }

  lemma {:induction false} RunsAreCounted(table: FlakeTable, log: seq<FlakeEntry>, slot: Slot)
    ensures FlakeAt(ReplayFlake(table, log), slot).runs == FlakeAt(table, slot).runs + |RunsFor(log, slot)|
  {
    if log != [] {
      RunsAreCounted(table, log[..|log| - 1], slot);
    }
  }

  /** Replaying a flake log that the snapshot already contains always changes the table, unless it is empty. */
  lemma {:induction false} FlakeReplayAgainIff(table: FlakeTable, log: seq<FlakeEntry>)
    ensures ReplayFlake(table, log) == table <==> log == []
  {
    hide ReplayFlake;
    if log == [] {
      assert ReplayFlake(table, []) == table by { NothingReplayed(table); }
    } else {
      var slot := log[|log| - 1].slot;
      RunsAreCounted(table, log, slot);
    }
  }

  lemma {:induction false} LastNameWins(table: NameTable, log: seq<NameEntry>, key: U64)
    ensures key in ReplayNames(table, log) <==> key in table || key in ReplayNames(map[], log)
    ensures key in ReplayNames(map[], log) ==> ReplayNames(table, log)[key] == ReplayNames(map[], log)[key]
    ensures key in table && key !in ReplayNames(map[], log) ==> ReplayNames(table, log)[key] == table[key]
  {
    if log != [] {
      LastNameWins(table, log[..|log| - 1], key);
    }
  }

  /** Replaying a names log that the snapshot already contains is harmless. */
  lemma {:induction false} NamesReplayAgain(table: NameTable, log: seq<NameEntry>)
    ensures ReplayNames(ReplayNames(table, log), log) == ReplayNames(table, log)
  {
    hide ReplayNames;
    var once := ReplayNames(table, log);
    forall key: U64
      ensures key in ReplayNames(once, log) <==> key in once
      ensures key in once ==> ReplayNames(once, log)[key] == once[key]
    {
      LastNameWins(table, log, key);
      LastNameWins(once, log, key);
    }
  }

  // ---------------------------------------------------------------- a failed append, tried again

  /** When the first k samples got out and then all are appended: as appended once exactly when those are below. */
  lemma {:induction false} RetriedPerfIff(base: PerfTable, entries: seq<PerfEntry>, k: nat)
    requires k <= |entries|
    ensures var once := ReplayPerf(base, entries);
            ReplayPerf(ReplayPerf(base, entries[..k]), entries) == once <==> AllBelow(once, entries[..k])
  {
    hide ReplayPerf, AllBelow;
    var part := entries[..k];
    ReplayPerfAppend(base, part, entries);
    ReplayPerfAppend(base, entries, part);
    assert multiset(part + entries) == multiset(entries + part);
    PerfIgnoresOrder(base, part + entries, entries + part);
    PerfReplayMoreIff(base, entries, part);
  }

  /** When the first k runs got out and then all are appended: as appended once exactly when k is zero. */
  lemma {:induction false} RetriedFlakeIff(base: FlakeTable, entries: seq<FlakeEntry>, k: nat)
    requires k <= |entries|
    ensures ReplayFlake(ReplayFlake(base, entries[..k]), entries) == ReplayFlake(base, entries) <==> k == 0
  {
    hide ReplayFlake, Picked;
    if k == 0 {
      assert entries[..0] == [];
      NothingReplayed(base);
    } else {
      var slot := entries[0].slot;
      assert entries[..k] == [entries[0]] + entries[1..k];
      PickedAppend([entries[0]], entries[1..k], RunAt(slot));
      OneRun(entries[0]);
      RunsAreCounted(base, entries[..k], slot);
      RunsAreCounted(ReplayFlake(base, entries[..k]), entries, slot);
      RunsAreCounted(base, entries, slot);
    }
  }

  lemma {:induction false} OneRun(entry: FlakeEntry)
    ensures RunsFor([entry], entry.slot) == [entry.run]
  {
    PickedPush([], entry, RunAt(entry.slot));
    assert [] + [entry] == [entry];
  }

  /** When the first k names got out and then all are appended, the table is as appended once. */
  lemma {:induction false} RetriedNames(base: NameTable, entries: seq<NameEntry>, k: nat)
    requires k <= |entries|
    ensures ReplayNames(ReplayNames(base, entries[..k]), entries) == ReplayNames(base, entries)
  {
    hide ReplayNames;
    var first, second := entries[..k], entries[k..];
    assert entries == first + second;
    ReplayNamesAppend(base, first, second);
    ReplayNamesAppend(ReplayNames(base, first), first, second);
    NamesReplayAgain(base, first);
  }

  // ---------------------------------------------------------------- combining whole tables

  /** Slot by slot the records of another table are combined into this one's. */
  function CombinedTable<V>(table: map<Slot, V>, other: map<Slot, V>, empty: V, combine: (V, V) -> V): map<Slot, V> {
    map slot | slot in table.Keys + other.Keys ::
      if slot in other then combine(if slot in table then table[slot] else empty, other[slot]) else table[slot]
  }

  function CombinedPerf(table: PerfTable, other: PerfTable): PerfTable {
    CombinedTable(table, other, [], (a, b) => Samples.Combined(a, b))
  }

  function CombinedFlake(table: FlakeTable, other: FlakeTable): FlakeTable {
    CombinedTable(table, other, Flakes.NO_RUNS, (a, b) => Flakes.Combined(a, b))
  }

  /** The first identity that was seen for a key is kept. */
  function CombinedNames(table: NameTable, other: NameTable): NameTable {
    map key | key in table.Keys + other.Keys :: if key in table then table[key] else other[key]
  }

  lemma {:induction false} CombinedSlot(base: seq<Samples.Sample>, log: seq<Samples.Sample>)
    requires log != []
    ensures Samples.Combined(base, Samples.Replay([], log)) == Samples.Replay(base, log)
  {
    hide Samples.Top, Samples.Replay;
    Samples.ReplayOntoAny([], log);
    Samples.ReplayOntoAny(base, log);
    assert [] + log == log;
    Samples.TopOfTop(log, base);
    Samples.TopIgnoresOrder(base + Samples.Top(log), Samples.Top(log) + base);
    Samples.TopIgnoresOrder(base + log, log + base);
  }

  /** Combining in the table of a log is replaying that log, onto any table. */
  lemma {:induction false} CombinedPerfIsReplay(table: PerfTable, log: seq<PerfEntry>)
    ensures CombinedPerf(table, ReplayPerf(map[], log)) == ReplayPerf(table, log)
  {
    hide ReplayPerf, Picked, Samples.Combined, Samples.Replay;
    var other, combined := ReplayPerf(map[], log), CombinedPerf(table, ReplayPerf(map[], log));
    forall slot: Slot
      ensures slot in combined <==> slot in ReplayPerf(table, log)
      ensures PerfAt(combined, slot) == PerfAt(ReplayPerf(table, log), slot)
    {
      PerfSlotIsFold(map[], log, slot);
      PerfSlotIsFold(table, log, slot);
      if slot in other {
        CombinedSlot(PerfAt(table, slot), SamplesFor(log, slot));
      } else {
        Samples.ReplayNothing(PerfAt(table, slot));
      }
    }
    SamePerf(combined, ReplayPerf(table, log));
  }

  /** The same for flakes. */
  lemma {:induction false} CombinedFlakeIsReplay(table: FlakeTable, log: seq<FlakeEntry>)
    ensures CombinedFlake(table, ReplayFlake(map[], log)) == ReplayFlake(table, log)
  {
    hide ReplayFlake, Picked, Flakes.Combined, Flakes.Replay;
    var other, combined := ReplayFlake(map[], log), CombinedFlake(table, ReplayFlake(map[], log));
    forall slot: Slot
      ensures slot in combined <==> slot in ReplayFlake(table, log)
      ensures FlakeAt(combined, slot) == FlakeAt(ReplayFlake(table, log), slot)
    {
      FlakeSlotIsFold(map[], log, slot);
      FlakeSlotIsFold(table, log, slot);
      if slot in other {
        Flakes.ReplayOnto(FlakeAt(table, slot), RunsFor(log, slot));
      } else {
        Flakes.ReplayNothing(FlakeAt(table, slot));
      }
    }
    SameFlake(combined, ReplayFlake(table, log));
  }

  /** So combining the tables of two logs gives the table of the logs put together. */
  lemma {:induction false} CombineIsConcat(
      a: seq<PerfEntry>, b: seq<PerfEntry>, c: seq<FlakeEntry>, d: seq<FlakeEntry>)
    ensures CombinedPerf(ReplayPerf(map[], a), ReplayPerf(map[], b)) == ReplayPerf(map[], a + b)
    ensures CombinedFlake(ReplayFlake(map[], c), ReplayFlake(map[], d)) == ReplayFlake(map[], c + d)
  {
    hide ReplayPerf, ReplayFlake, CombinedPerf, CombinedFlake;
    CombinedPerfIsReplay(ReplayPerf(map[], a), b);
    ReplayPerfAppend(map[], a, b);
    CombinedFlakeIsReplay(ReplayFlake(map[], c), d);
    ReplayFlakeAppend(map[], c, d);
  }
}
