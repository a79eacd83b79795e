/** The duration database: tables in memory, records not yet saved, and the directory behind them. */
module DurationDb {
  import opened Results
  import opened Sequences
  import opened Variants
  import opened ByteCodec
  import opened DbFormat
  import opened Snapshots
  import opened Tables
  import Samples
  import Flakes

  const COMPACTION_THRESHOLD: nat := 512 * 1024

  /** How the replacement of one snapshot ends. */
  datatype Compaction = Compacts | FailsBeforeRename | FailsBeforeTruncate

  /** How an append to a log ends: a failing one may have written any number of the bytes, even all of them. */
  datatype Append = Appends | AppendFails(written: nat)

  /** What an append leaves in the log. */
  function Got(append: Append, bytes: Bytes): (got: Bytes)
    ensures got <= bytes
  {
    if append.Appends? || |bytes| <= append.written then bytes else bytes[..append.written]
  }

  /** How the file operations of one flush end. */
  datatype Faults = Faults(
    createDir: bool, perfAppend: Append, flakeAppend: Append, namesAppend: Append,
    perf: Compaction, flake: Compaction, names: Compaction)

  // ---------------------------------------------------------------- walking buffers

  /** Walk the perf log record by record. */
  method WalkPerfLog(base: PerfTable, buf: Bytes) returns (table: PerfTable)
    ensures table == ReplayPerf(base, PerfLog(buf))
  {
    hide DecodePerf, PerfStep, ReplayPerf, RecordsIn;
    table := base;
    var i := 0;
    ghost var done: seq<PerfEntry> := [];
    assert buf[0..] == buf && ReplayPerf(base, []) == base by { ReplayNoPerf(base); }
    while i + PERF_SIZE <= |buf|
      invariant i <= |buf|
      invariant done + RecordsIn(buf[i..], PERF_SIZE, DecodePerf) == PerfLog(buf)
      invariant table == ReplayPerf(base, done)
    {
      RecordsFrom(buf, i, PERF_SIZE, DecodePerf);
      var record := DecodePerf(buf[i..i + PERF_SIZE]);
      if record.Some? {
        ReplayPerfPush(base, done, record.value);
        table := PerfStep(table, record.value);
        done := done + [record.value];
      }
      i := i + PERF_SIZE;
    }
    RecordsFrom(buf, i, PERF_SIZE, DecodePerf);
    assert done + [] == done;
  }

  /** Walk the flake log record by record. */
  method WalkFlakeLog(base: FlakeTable, buf: Bytes) returns (table: FlakeTable)
    ensures table == ReplayFlake(base, FlakeLog(buf))
  {
    hide DecodeFlake, FlakeStep, ReplayFlake, RecordsIn;
    table := base;
    var i := 0;
    ghost var done: seq<FlakeEntry> := [];
    assert buf[0..] == buf && ReplayFlake(base, []) == base by { ReplayNoFlake(base); }
    while i + FLAKE_SIZE <= |buf|
      invariant i <= |buf|
      invariant done + RecordsIn(buf[i..], FLAKE_SIZE, DecodeFlake) == FlakeLog(buf)
      invariant table == ReplayFlake(base, done)
    {
      RecordsFrom(buf, i, FLAKE_SIZE, DecodeFlake);
      var record := DecodeFlake(buf[i..i + FLAKE_SIZE]);
      if record.Some? {
        ReplayFlakePush(base, done, record.value);
        table := FlakeStep(table, record.value);
        done := done + [record.value];
      }
      i := i + FLAKE_SIZE;
    }
    RecordsFrom(buf, i, FLAKE_SIZE, DecodeFlake);
    assert done + [] == done;
  }

  /** Read names one after another until the buffer is used up. */
  method WalkNames(utf8: Utf8, base: NameTable, buf: Bytes) returns (table: NameTable)
    ensures table == ReplayNames(base, NamesLog(utf8, buf))
  {
    hide ReadName, NameStep;
    table := base;
    var rest := buf;
    ghost var done: seq<NameEntry> := [];
    while rest != []
      invariant done + NamesLog(utf8, rest) == NamesLog(utf8, buf)
      invariant table == ReplayNames(base, done)
      decreases |rest|
    {
      var read := ReadName(utf8, rest);
      if read.value.Some? {
        assert (done + [read.value.value])[..|done|] == done;
        table := NameStep(table, read.value.value);
        done := done + [read.value.value];
      }
      rest := read.rest;
    }
    assert done + [] == done;
  }

  /** Encode records one after another. */
  method EncodeRecords<T>(entries: seq<T>, encode: T -> Bytes) returns (buf: Bytes)
    ensures buf == EncodeAll(entries, encode)
  {
    buf := [];
    for i := 0 to |entries|
      invariant buf == EncodeAll(entries[..i], encode)
    {
      EncodeAllAppend(entries[..i], [entries[i]], encode);
      assert entries[..i + 1] == entries[..i] + [entries[i]];
      assert EncodeAll([entries[i]], encode) == encode(entries[i]) + EncodeAll([], encode);
      buf := buf + encode(entries[i]);
    }
    assert entries[..|entries|] == entries;
  }

  /** The rows of one environment, in whatever order the table yields them. */
  method ListRows<V>(table: map<Slot, V>, environment: Environment) returns (rows: seq<(U64, V)>)
    ensures Lists(rows, environment, table)
    ensures |rows| <= |table|
  {
    rows := [];
    var rest := set slot | slot in table && slot.environment == environment;
    assert rest <= table.Keys;
    SubsetIsSmaller(rest, table.Keys);
    while rest != {}
      invariant forall slot :: slot in rest ==> slot in table && slot.environment == environment
      invariant forall slot :: slot in table && slot.environment == environment && slot !in rest ==>
                  exists i :: 0 <= i < |rows| && rows[i].0 == slot.key
      invariant forall i :: 0 <= i < |rows| ==>
                  && Slot(environment, rows[i].0) !in rest
                  && Slot(environment, rows[i].0) in table
                  && table[Slot(environment, rows[i].0)] == rows[i].1
      invariant forall i, j :: 0 <= i < j < |rows| ==> rows[i].0 != rows[j].0
      invariant |rows| + |rest| <= |table|
      decreases rest
    {
      var slot :| slot in rest;
      ghost var before := rows;
      rows := rows + [(slot.key, table[slot])];
      rest := rest - {slot};
      assert rows[|before|].0 == slot.key;
      assert forall i :: 0 <= i < |before| ==> rows[i] == before[i];
    }
  }

  method ListNames(table: NameTable) returns (rows: seq<NameEntry>)
    ensures ListsNames(rows, table)
    ensures |rows| <= |table|
  {
    rows := [];
    var rest := table.Keys;
    while rest != {}
      invariant rest <= table.Keys
      invariant forall key :: key in table && key !in rest ==> exists i :: 0 <= i < |rows| && rows[i].key == key
      invariant forall i :: 0 <= i < |rows| ==>
                  rows[i].key !in rest && rows[i].key in table && table[rows[i].key] == rows[i].identity
      invariant forall i, j :: 0 <= i < j < |rows| ==> rows[i].key != rows[j].key
      invariant |rows| + |rest| <= |table|
      decreases rest
    {
      var key :| key in rest;
      ghost var before := rows;
      rows := rows + [NameEntry(key, table[key])];
      rest := rest - {key};
      assert rows[|before|].key == key;
      assert forall i :: 0 <= i < |before| ==> rows[i] == before[i];
    }
  }

  // ---------------------------------------------------------------- tables only grow

  lemma {:induction false} PerfGrows(table: PerfTable, log: seq<PerfEntry>)
    ensures table.Keys <= ReplayPerf(table, log).Keys
  {
    hide Samples.Recorded;
    if log != [] {
      PerfGrows(table, log[..|log| - 1]);
    }
  }

  lemma {:induction false} FlakeGrows(table: FlakeTable, log: seq<FlakeEntry>)
    ensures table.Keys <= ReplayFlake(table, log).Keys
    ensures FlakesFit(ReplayFlake(table, log)) ==> FlakesFit(table)
  {
    if log != [] {
      var before, last := ReplayFlake(table, log[..|log| - 1]), log[|log| - 1];
      FlakeGrows(table, log[..|log| - 1]);
      if FlakesFit(ReplayFlake(table, log)) {
        forall slot | slot in before
          ensures FlakeFits(before[slot])
        {
          assert slot in FlakeStep(before, last);
        }
      }
    }
  }

  lemma {:induction false} NamesGrow(table: NameTable, log: seq<NameEntry>)
    ensures table.Keys <= ReplayNames(table, log).Keys
  {
    if log != [] {
      NamesGrow(table, log[..|log| - 1]);
    }
  }

  // ---------------------------------------------------------------- combining tables

  /** Combine the records of another table into this one, slot by slot in any order. */
  method CombineTables<V>(table: map<Slot, V>, other: map<Slot, V>, empty: V, combine: (V, V) -> V)
    returns (combined: map<Slot, V>)
    ensures combined == CombinedTable(table, other, empty, combine)
  {
    combined := table;
    var rest := other.Keys;
    while rest != {}
      invariant rest <= other.Keys
      invariant forall slot :: slot in combined <==> slot in table || (slot in other && slot !in rest)
      invariant forall slot :: slot in combined && (slot !in other || slot in rest) ==> combined[slot] == table[slot]
      invariant forall slot :: slot in other && slot !in rest ==>
                  combined[slot] == combine(if slot in table then table[slot] else empty, other[slot])
      decreases rest
    {
      var slot :| slot in rest;
      combined := combined[slot := combine(if slot in combined then combined[slot] else empty, other[slot])];
      rest := rest - {slot};
    }
  }

  method CombinePerf(table: PerfTable, other: PerfTable) returns (combined: PerfTable)
    ensures combined == CombinedPerf(table, other)
  {
    combined := CombineTables(table, other, [], (a, b) => Samples.Combined(a, b));
  }

  method CombineFlake(table: FlakeTable, other: FlakeTable) returns (combined: FlakeTable)
    ensures combined == CombinedFlake(table, other)
  {
    combined := CombineTables(table, other, Flakes.NO_RUNS, (a, b) => Flakes.Combined(a, b));
  }

  // ---------------------------------------------------------------- the store

  /** A sample that is newer than all of its slot comes first. */
  lemma {:induction false} NewestIsFirst(table: PerfTable, e: PerfEntry)
    ensures (forall x :: x in PerfAt(table, e.slot) ==> x.timestamp < e.sample.timestamp) ==>
              var record := PerfAt(PerfStep(table, e), e.slot);
              e.slot in PerfStep(table, e) && record != [] && record[0] == e.sample
  {
    hide Samples.Recorded;
    if forall x :: x in PerfAt(table, e.slot) ==> x.timestamp < e.sample.timestamp {
      Samples.NewestIsRecorded(PerfAt(table, e.slot), e.sample);
    }
  }

  class Store {
    /** An ephemeral store has no directory. */
    const persistent: bool
    const utf8: Utf8
    const hash: TestIdentity -> U64
    var disk: Disk
    var perf: PerfTable
    var flake: FlakeTable
    var names: NameTable
    var newPerf: seq<PerfEntry>
    var newFlake: seq<FlakeEntry>
    var newNames: seq<NameEntry>

    /** The table in memory is what is on disk, with the unsaved records on top. */
    ghost predicate PerfAgrees()
      reads this
    {
      perf == ReplayPerf(PerfOn(disk), newPerf) && Whole(|disk.perfLog|, PERF_SIZE)
    }

    ghost predicate FlakeAgrees()
      reads this
    {
      flake == ReplayFlake(FlakeOn(disk), newFlake) && Whole(|disk.flakeLog|, FLAKE_SIZE)
    }

    ghost predicate NamesAgree()
      reads this
    {
      names == ReplayNames(NamesOn(utf8, disk), newNames) && Appendable(utf8, disk.namesLog)
    }

    /** Load the directory; unreadable content counts as no content. */
    constructor Load(utf8: Utf8, hash: TestIdentity -> U64, disk: Disk)
      ensures persistent && this.utf8 == utf8 && this.hash == hash && this.disk == disk
      ensures perf == PerfOn(disk) && flake == FlakeOn(disk) && names == NamesOn(utf8, disk)
      ensures newPerf == [] && newFlake == [] && newNames == []
    {
      hide PerfLog, FlakeLog, NamesLog, ReplayPerf, ReplayFlake, ReplayNames;
      var perfTable := WalkPerfLog(PerfBase(disk), disk.perfLog);
      var flakeTable := WalkFlakeLog(FlakeBase(disk), disk.flakeLog);
      var nameTable := WalkNames(utf8, NamesBase(utf8, disk), disk.namesLog);
      this.persistent, this.utf8, this.hash, this.disk := true, utf8, hash, disk;
      perf, flake, names := perfTable, flakeTable, nameTable;
      newPerf, newFlake, newNames := [], [], [];
    }

    /** The tables hold what was recorded in this store, and nothing else. */
    ghost predicate OnlyUnsaved()
      reads this
    {
      perf == ReplayPerf(map[], newPerf) && flake == ReplayFlake(map[], newFlake)
    }

    constructor Ephemeral(utf8: Utf8, hash: TestIdentity -> U64)
      ensures !persistent && this.utf8 == utf8 && this.hash == hash && OnlyUnsaved()
      ensures perf == map[] && flake == map[] && names == map[]
      ensures newPerf == [] && newFlake == [] && newNames == []
    {
      this.persistent, this.utf8, this.hash := false, utf8, hash;
      disk := Disk([], [], [], [], [], []);
      perf, flake, names := map[], map[], map[];
      newPerf, newFlake, newNames := [], [], [];
    }

    /** Remember the identity behind a key, once. */
    method RecordDiscoveredName(identity: TestIdentity)
      modifies this`names, this`newNames
      ensures names == if hash(identity) in old(names) then old(names) else old(names)[hash(identity) := identity]
      ensures newNames
              == old(newNames) + (if hash(identity) in old(names) then [] else [NameEntry(hash(identity), identity)])
      ensures old(NamesAgree()) ==> NamesAgree()
    {
      hide NamesOn, Appendable, ReplayNames;
      var key := hash(identity);
      if key !in names {
        ReplayNamesPush(NamesOn(utf8, disk), newNames, NameEntry(key, identity));
        names := names[key := identity];
        newNames := newNames + [NameEntry(key, identity)];
      }
    }

    /**
     * Record one physical run: every run counts for the flake history, only a run that did not
     * fail is a duration sample.
     */
    method RecordAt(
      environment: Environment, identity: TestIdentity, duration: U64, failed: bool,
      failureClass: Option<FailureClass>, timestamp: U64)
      modifies this`perf, this`flake, this`names, this`newPerf, this`newFlake, this`newNames
      ensures var slot := Slot(environment, hash(identity));
              var sample := Samples.Sample(timestamp, duration);
              && perf == (if failed then old(perf) else PerfStep(old(perf), PerfEntry(slot, sample)))
              && newPerf == old(newPerf) + (if failed then [] else [PerfEntry(slot, sample)])
              && flake == FlakeStep(old(flake), FlakeEntry(slot, Flakes.RunEntry(failed, failureClass, timestamp)))
              && newFlake == old(newFlake) + [FlakeEntry(slot, Flakes.RunEntry(failed, failureClass, timestamp))]
      ensures hash(identity) in names
      ensures var slot, sample := Slot(environment, hash(identity)), Samples.Sample(timestamp, duration);
              !failed && (forall x :: x in PerfAt(old(perf), slot) ==> x.timestamp < timestamp) ==>
                slot in perf && perf[slot] != [] && perf[slot][0] == sample
      ensures old(PerfAgrees()) ==> PerfAgrees()
      ensures old(FlakeAgrees()) ==> FlakeAgrees()
      ensures old(NamesAgree()) ==> NamesAgree()
      ensures old(OnlyUnsaved()) ==> OnlyUnsaved()
    {
      hide NamesOn, Appendable, ReplayNames, PerfOn, ReplayPerf, FlakeOn, ReplayFlake, PerfStep, FlakeStep, Whole;
      var slot := Slot(environment, hash(identity));
      RecordDiscoveredName(identity);
      if !failed {
        var entry := PerfEntry(slot, Samples.Sample(timestamp, duration));
        ReplayPerfPush(PerfOn(disk), newPerf, entry);
        ReplayPerfPush(map[], newPerf, entry);
        NewestIsFirst(perf, entry);
        perf := PerfStep(perf, entry);
        newPerf := newPerf + [entry];
      }
      var entry := FlakeEntry(slot, Flakes.RunEntry(failed, failureClass, timestamp));
      ReplayFlakePush(FlakeOn(disk), newFlake, entry);
      ReplayFlakePush(map[], newFlake, entry);
      flake := FlakeStep(flake, entry);
      newFlake := newFlake + [entry];
    }

    // ---------------------------------------------------------------- combining

    /** Take over the names of the other store that are new here, in any order. */
    method CombineNames(others: NameTable)
      modifies this`names, this`newNames
      ensures names == CombinedNames(old(names), others)
      ensures old(NamesAgree()) ==> NamesAgree()
    {
      hide NamesOn, Appendable, ReplayNames;
      var rest := others.Keys;
      while rest != {}
        invariant rest <= others.Keys
        invariant forall key :: key in names <==> key in old(names) || (key in others && key !in rest)
        invariant forall key :: key in names ==>
                    names[key] == if key in old(names) then old(names)[key] else others[key]
        invariant old(NamesAgree()) ==> NamesAgree()
        decreases rest
      {
        var key :| key in rest;
        if key !in names {
          ReplayNamesPush(NamesOn(utf8, disk), newNames, NameEntry(key, others[key]));
          names := names[key := others[key]];
          newNames := newNames + [NameEntry(key, others[key])];
        }
        rest := rest - {key};
      }
    }

    /**
     * Combine another store into this one. Its records and its unsaved records are taken over, so
     * memory still is the directory with the unsaved records on top if the other store held nothing
     * that it had loaded.
     */
    method Combine(other: Store)
      requires other != this
      modifies this`perf, this`flake, this`names, this`newPerf, this`newFlake, this`newNames
      ensures perf == CombinedPerf(old(perf), other.perf) && newPerf == old(newPerf) + other.newPerf
      ensures flake == CombinedFlake(old(flake), other.flake) && newFlake == old(newFlake) + other.newFlake
      ensures names == CombinedNames(old(names), other.names)
      ensures old(PerfAgrees()) && other.OnlyUnsaved() ==> PerfAgrees()
      ensures old(FlakeAgrees()) && other.OnlyUnsaved() ==> FlakeAgrees()
      ensures old(NamesAgree()) ==> NamesAgree()
      ensures old(OnlyUnsaved()) && other.OnlyUnsaved() ==> OnlyUnsaved()
    {
      hide NamesOn, Appendable, ReplayNames, PerfOn, ReplayPerf, FlakeOn, ReplayFlake, Whole;
      hide CombinedPerf, CombinedFlake, CombinedNames;
      CombinedPerfIsReplay(perf, other.newPerf);
      CombinedFlakeIsReplay(flake, other.newFlake);
      ReplayPerfAppend(PerfOn(disk), newPerf, other.newPerf);
      ReplayFlakeAppend(FlakeOn(disk), newFlake, other.newFlake);
      ReplayPerfAppend(map[], newPerf, other.newPerf);
      ReplayFlakeAppend(map[], newFlake, other.newFlake);
      perf := CombinePerf(perf, other.perf);
      flake := CombineFlake(flake, other.flake);
      CombineNames(other.names);
      newPerf := newPerf + other.newPerf;
      newFlake := newFlake + other.newFlake;
    }

    // ---------------------------------------------------------------- saving

    /**
     * Append the unsaved samples. A failing append keeps all of them, although those that got out
     * are loaded: the agreement is then kept exactly when whole records were written, and a second
     * copy of each would be at the lower end of a full record.
     */
    method SavePerf(append: Append) returns (ok: bool)
      modifies this`disk, this`newPerf
      ensures disk == old(disk).(perfLog := old(disk).perfLog + Got(append, EncodeAll(old(newPerf), EncodePerf)))
      ensures ok <==> append.Appends? || old(newPerf) == []
      ensures newPerf == if ok then [] else old(newPerf)
      ensures old(PerfAgrees()) && ok ==> PerfAgrees()
      ensures old(PerfAgrees()) && !ok ==>
                var n := |Got(append, EncodeAll(newPerf, EncodePerf))|;
                && n / PERF_SIZE <= |newPerf|
                && PerfOn(disk) == ReplayPerf(PerfOn(old(disk)), newPerf[..n / PERF_SIZE])
                && (PerfAgrees() <==> Whole(n, PERF_SIZE) && AllBelow(perf, newPerf[..n / PERF_SIZE]))
    {
      hide PerfOn, ReplayPerf, Whole, EncodeAll, AllBelow;
      NothingEncoded(EncodePerf);
      if newPerf == [] {
        return true;
      }
      var buf := EncodeRecords(newPerf, EncodePerf);
      if PerfAgrees() {
        AppendPerf(disk, newPerf);
        ReplayNoPerf(ReplayPerf(PerfOn(disk), newPerf));
        var n := |Got(append, buf)|;
        TornPerf(disk, newPerf, n);
        RetriedPerfIff(PerfOn(disk), newPerf, n / PERF_SIZE);
        assert buf[..n] == Got(append, buf);
      }
      disk := disk.(perfLog := disk.perfLog + Got(append, buf));
      ok := append.Appends?;
      if ok {
        newPerf := [];
      }
    }

    /** Append the unsaved runs. A failing append keeps the agreement exactly when it wrote nothing. */
    method SaveFlake(append: Append) returns (ok: bool)
      modifies this`disk, this`newFlake
      ensures disk == old(disk).(flakeLog := old(disk).flakeLog + Got(append, EncodeAll(old(newFlake), EncodeFlake)))
      ensures ok <==> append.Appends? || old(newFlake) == []
      ensures newFlake == if ok then [] else old(newFlake)
      ensures old(FlakeAgrees()) && ok ==> FlakeAgrees()
      ensures old(FlakeAgrees()) && !ok ==>
                var n := |Got(append, EncodeAll(newFlake, EncodeFlake))|;
                && n / FLAKE_SIZE <= |newFlake|
                && FlakeOn(disk) == ReplayFlake(FlakeOn(old(disk)), newFlake[..n / FLAKE_SIZE])
                && (FlakeAgrees() <==> n == 0)
    {
      hide FlakeOn, ReplayFlake, Whole, EncodeAll;
      NothingEncoded(EncodeFlake);
      if newFlake == [] {
        return true;
      }
      var buf := EncodeRecords(newFlake, EncodeFlake);
      if FlakeAgrees() {
        AppendFlake(disk, newFlake);
        ReplayNoFlake(ReplayFlake(FlakeOn(disk), newFlake));
        var n := |Got(append, buf)|;
        TornFlake(disk, newFlake, n);
        RetriedFlakeIff(FlakeOn(disk), newFlake, n / FLAKE_SIZE);
        SmallIsNotWhole(n, FLAKE_SIZE);
        assert buf[..n] == Got(append, buf);
      }
      disk := disk.(flakeLog := disk.flakeLog + Got(append, buf));
      ok := append.Appends?;
      if ok {
        newFlake := [];
      }
    }

    /**
     * Append the unsaved names. After a failing append the tables in memory still are those on disk
     * with the unsaved names on top, and the log can be appended to exactly when it broke off
     * between two names.
     */
    method SaveNames(append: Append) returns (ok: bool)
      requires Lawful(utf8)
      modifies this`disk, this`newNames
      ensures var got := Got(append, EncodeAll(old(newNames), NameEncoder(utf8)));
              disk == old(disk).(namesLog := old(disk).namesLog + got)
      ensures ok <==> append.Appends? || old(newNames) == []
      ensures newNames == if ok then [] else old(newNames)
      ensures old(NamesAgree()) && AllStorable(utf8, old(newNames)) && ok ==> NamesAgree()
      ensures old(NamesAgree()) && AllStorable(utf8, newNames) && !ok ==>
                && names == ReplayNames(NamesOn(utf8, disk), newNames)
                && (NamesAgree() <==> AtBoundary(utf8, newNames, |Got(append, EncodeAll(newNames, NameEncoder(utf8)))|))
    {
      hide NamesOn, ReplayNames, Appendable, EncodeAll, AllStorable, Lawful, AtBoundary;
      NothingEncoded(NameEncoder(utf8));
      if newNames == [] {
        return true;
      }
      var buf := EncodeRecords(newNames, NameEncoder(utf8));
      if NamesAgree() && AllStorable(utf8, newNames) {
        AppendNames(utf8, disk, newNames);
        ReplayNoNames(ReplayNames(NamesOn(utf8, disk), newNames));
        ghost var n := |Got(append, buf)|;
        ghost var k := TornNames(utf8, disk, newNames, n);
        assert buf[..n] == Got(append, buf);
      }
      disk := disk.(namesLog := disk.namesLog + Got(append, buf));
      ok := append.Appends?;
      if ok {
        newNames := [];
      }
    }

    // ---------------------------------------------------------------- compaction

    /** Replace the perf snapshot by what the directory holds, and empty the log. */
    method CompactPerfFile(ending: Compaction) returns (ok: bool)
      modifies this`disk
      ensures disk == old(disk).(perfBin := disk.perfBin, perfLog := disk.perfLog)
      ensures ok <==> ending.Compacts?
      ensures disk.perfLog == if ok then [] else old(disk.perfLog)
      ensures ending.FailsBeforeRename? ==> disk == old(disk)
      ensures |PerfOn(old(disk))| < 0x1_0000_0000 ==>
                PerfOn(disk)
                == if ending.FailsBeforeTruncate? then ReplayPerf(PerfOn(old(disk)), PerfLog(old(disk.perfLog)))
                   else PerfOn(old(disk))
    {
      hide PerfOn, ReplayPerf, PerfLog, EncodeTwo, Lists;
      if ending.FailsBeforeRename? {
        return false;
      }
      var loaded := WalkPerfLog(PerfBase(disk), disk.perfLog);
      assert loaded == PerfOn(disk) by { PerfIsWalked(disk); }
      var local := ListRows(loaded, LocalEnvironment);
      var remote := ListRows(loaded, RemoteEnvironment);
      if |loaded| < 0x1_0000_0000 {
        CompactPerf(disk, local, remote);
        UntruncatedPerf(disk, local, remote);
      }
      disk := disk.(perfBin := EncodeTwo(PERF_MAGIC, local, remote, EncodePerfRow));
      if ending.FailsBeforeTruncate? {
        return false;
      }
      disk := disk.(perfLog := []);
      return true;
    }

    /** Replace the flake snapshot by what the directory holds, and empty the log. */
    method CompactFlakeFile(ending: Compaction) returns (ok: bool)
      modifies this`disk
      ensures disk == old(disk).(flakeBin := disk.flakeBin, flakeLog := disk.flakeLog)
      ensures ok <==> ending.Compacts?
      ensures disk.flakeLog == if ok then [] else old(disk.flakeLog)
      ensures ending.FailsBeforeRename? ==> disk == old(disk)
      ensures |FlakeOn(old(disk))| < 0x1_0000_0000 && !ending.FailsBeforeRename? ==>
                FlakeOn(disk)
                == if ok then StoredTable(FlakeOn(old(disk)))
                   else ReplayFlake(StoredTable(FlakeOn(old(disk))), FlakeLog(old(disk.flakeLog)))
      ensures |FlakeOn(old(disk))| < 0x1_0000_0000 && !ending.FailsBeforeTruncate? && FlakesFit(FlakeOn(old(disk))) ==>
                FlakeOn(disk) == FlakeOn(old(disk))
    {
      hide FlakeOn, ReplayFlake, FlakeLog, EncodeTwo, Lists, FlakesFit, StoredTable;
      if ending.FailsBeforeRename? {
        return false;
      }
      var loaded := WalkFlakeLog(FlakeBase(disk), disk.flakeLog);
      assert loaded == FlakeOn(disk) by { FlakeIsWalked(disk); }
      var local := ListRows(loaded, LocalEnvironment);
      var remote := ListRows(loaded, RemoteEnvironment);
      if |loaded| < 0x1_0000_0000 {
        CompactFlakeMeans(disk, local, remote);
        StoredTableIff(loaded);
        UntruncatedFlake(disk, local, remote);
      }
      disk := disk.(flakeBin := EncodeTwo(FLAKE_MAGIC, local, remote, EncodeFlakeRow));
      if ending.FailsBeforeTruncate? {
        return false;
      }
      disk := disk.(flakeLog := []);
      return true;
    }

    /** Replace the names snapshot by what the directory holds, and empty the log. */
    method CompactNamesFile(ending: Compaction) returns (ok: bool)
      requires Lawful(utf8)
      modifies this`disk
      ensures disk == old(disk).(namesBin := disk.namesBin, namesLog := disk.namesLog)
      ensures ok <==> ending.Compacts?
      ensures disk.namesLog == if ok then [] else old(disk.namesLog)
      ensures |NamesOn(utf8, old(disk))| < 0x1_0000_0000 ==> NamesOn(utf8, disk) == NamesOn(utf8, old(disk))
    {
      hide NamesOn, ReplayNames, NamesLog, EncodeNames, ListsNames, Lawful;
      if ending.FailsBeforeRename? {
        return false;
      }
      var loaded := WalkNames(utf8, NamesBase(utf8, disk), disk.namesLog);
      assert loaded == NamesOn(utf8, disk) by { NamesAreWalked(utf8, disk); }
      var rows := ListNames(loaded);
      if |loaded| < 0x1_0000_0000 {
        CompactNames(utf8, disk, rows);
        UntruncatedNames(utf8, disk, rows);
      }
      disk := disk.(namesBin := EncodeNames(utf8, rows));
      if ending.FailsBeforeTruncate? {
        return false;
      }
      disk := disk.(namesLog := []);
      return true;
    }

    // ---------------------------------------------------------------- flush

    /** Every table small enough for its row count, and every flake counter for its field. */
    ghost predicate PerfFits()
      reads this
    {
      |perf| < 0x1_0000_0000
    }

    ghost predicate FlakeTableFits()
      reads this
    {
      |flake| < 0x1_0000_0000 && FlakesFit(flake)
    }

    ghost predicate NamesFit()
      reads this
    {
      |names| < 0x1_0000_0000
    }

    /** Whether saving so many records cannot leave bytes behind that are not accounted for. */
    static predicate Keeps(append: Append, unsaved: nat) {
      append.Appends? || append.written == 0 || unsaved == 0
    }

    /** The directory once every section has been appended as far as its append went. */
    ghost function AppendedDisk(faults: Faults): (appended: Disk)
      reads this
    {
      disk.(
        perfLog := disk.perfLog + Got(faults.perfAppend, EncodeAll(newPerf, EncodePerf)),
        flakeLog := disk.flakeLog + Got(faults.flakeAppend, EncodeAll(newFlake, EncodeFlake)),
        namesLog := disk.namesLog + Got(faults.namesAppend, EncodeAll(newNames, NameEncoder(utf8))))
    }

    /** Every section that has something to append gets it out. */
    ghost predicate AllAppended(faults: Faults)
      reads this
    {
      && (faults.perfAppend.Appends? || newPerf == [])
      && (faults.flakeAppend.Appends? || newFlake == [])
      && (faults.namesAppend.Appends? || newNames == [])
    }

    /** Append every section's unsaved records; one failure does not stop the others. */
    method SaveAll(faults: Faults) returns (ok: bool)
      requires Lawful(utf8)
      modifies this`disk, this`newPerf, this`newFlake, this`newNames
      ensures disk == old(AppendedDisk(faults)) && (ok <==> old(AllAppended(faults)))
      ensures ok ==> newPerf == [] && newFlake == [] && newNames == []
      ensures newPerf == (if faults.perfAppend.Appends? then [] else old(newPerf))
      ensures newFlake == (if faults.flakeAppend.Appends? then [] else old(newFlake))
      ensures newNames == (if faults.namesAppend.Appends? then [] else old(newNames))
      ensures ok ==>
                && Keeps(faults.perfAppend, |old(newPerf)|)
                && Keeps(faults.flakeAppend, |old(newFlake)|)
                && Keeps(faults.namesAppend, |old(newNames)|)
      ensures old(PerfAgrees()) && Keeps(faults.perfAppend, |old(newPerf)|) ==> PerfAgrees()
      ensures old(FlakeAgrees()) && Keeps(faults.flakeAppend, |old(newFlake)|) ==> FlakeAgrees()
      ensures old(NamesAgree()) && AllStorable(utf8, old(newNames)) && Keeps(faults.namesAppend, |old(newNames)|) ==>
                NamesAgree()
    {
      hide PerfOn, FlakeOn, NamesOn, ReplayPerf, ReplayFlake, ReplayNames, Appendable, Whole, Lawful, AllStorable;
      hide AllBelow, AtBoundary, EncodeAll;
      ghost var before := disk;
      NothingLost(utf8, newPerf, newNames, perf);
      var perfSaved := SavePerf(faults.perfAppend);
      FlakeFiles(before, disk);
      NamesFiles(utf8, before, disk);
      before := disk;
      var flakeSaved := SaveFlake(faults.flakeAppend);
      PerfFiles(before, disk);
      NamesFiles(utf8, before, disk);
      before := disk;
      var namesSaved := SaveNames(faults.namesAppend);
      PerfFiles(before, disk);
      FlakeFiles(before, disk);
      ok := perfSaved && flakeSaved && namesSaved;
    }

    /** Compact every section; one failure does not stop the others. */
    method CompactAll(faults: Faults) returns (ok: bool)
      requires Lawful(utf8)
      modifies this`disk
      ensures ok <==> faults.perf.Compacts? && faults.flake.Compacts? && faults.names.Compacts?
      ensures disk.perfLog == (if faults.perf.Compacts? then [] else old(disk.perfLog))
      ensures disk.flakeLog == (if faults.flake.Compacts? then [] else old(disk.flakeLog))
      ensures disk.namesLog == (if faults.names.Compacts? then [] else old(disk.namesLog))
      ensures old(PerfAgrees()) && PerfFits() && !faults.perf.FailsBeforeTruncate? ==> PerfAgrees()
      ensures old(FlakeAgrees()) && FlakeTableFits() && !faults.flake.FailsBeforeTruncate? ==> FlakeAgrees()
      ensures old(NamesAgree()) && NamesFit() ==> NamesAgree()
    {
      hide PerfOn, FlakeOn, NamesOn, ReplayPerf, ReplayFlake, ReplayNames, Appendable, Lawful, FlakesFit, Whole;
      PerfGrows(PerfOn(disk), newPerf);
      SubsetIsSmaller(PerfOn(disk).Keys, ReplayPerf(PerfOn(disk), newPerf).Keys);
      FlakeGrows(FlakeOn(disk), newFlake);
      SubsetIsSmaller(FlakeOn(disk).Keys, ReplayFlake(FlakeOn(disk), newFlake).Keys);
      NamesGrow(NamesOn(utf8, disk), newNames);
      SubsetIsSmaller(NamesOn(utf8, disk).Keys, ReplayNames(NamesOn(utf8, disk), newNames).Keys);
      assert Whole(0, PERF_SIZE) && Whole(0, FLAKE_SIZE) by { NothingIsWhole(); }
      EmptyIsAppendable(utf8);
      ghost var before := disk;
      var perfDone := CompactPerfFile(faults.perf);
      FlakeFiles(before, disk);
      NamesFiles(utf8, before, disk);
      before := disk;
      var flakeDone := CompactFlakeFile(faults.flake);
      PerfFiles(before, disk);
      NamesFiles(utf8, before, disk);
      before := disk;
      var namesDone := CompactNamesFile(faults.names);
      PerfFiles(before, disk);
      FlakeFiles(before, disk);
      ok := perfDone && flakeDone && namesDone;
    }

    /**
     * Persist what is unsaved. Each section is attempted whatever happens to the others; a section
     * that could not be appended keeps its records. All logs are compacted when one of them has
     * outgrown half a megabyte. After a flush that reports success the directory loads to exactly
     * the tables in memory.
     */
    method Flush(faults: Faults) returns (ok: bool)
      requires Lawful(utf8)
      modifies this`disk, this`newPerf, this`newFlake, this`newNames
      ensures !persistent || faults.createDir ==>
                ok == !persistent && disk == old(disk)
      ensures persistent && !faults.createDir ==>
                var appended := old(AppendedDisk(faults));
                if |appended.perfLog| > 524_288 || |appended.flakeLog| > 524_288 || |appended.namesLog| > 524_288 then
                  && (ok <==> && old(AllAppended(faults))
                              && faults.perf.Compacts? && faults.flake.Compacts? && faults.names.Compacts?)
                  && disk.perfLog == (if faults.perf.Compacts? then [] else appended.perfLog)
                  && disk.flakeLog == (if faults.flake.Compacts? then [] else appended.flakeLog)
                  && disk.namesLog == (if faults.names.Compacts? then [] else appended.namesLog)
                else disk == appended && (ok <==> old(AllAppended(faults)))
      ensures newPerf
              == if persistent && !faults.createDir && faults.perfAppend.Appends? then [] else old(newPerf)
      ensures newFlake
              == if persistent && !faults.createDir && faults.flakeAppend.Appends? then [] else old(newFlake)
      ensures newNames
              == if persistent && !faults.createDir && faults.namesAppend.Appends? then [] else old(newNames)
      ensures ok && persistent ==> newPerf == [] && newFlake == [] && newNames == []
      ensures old(PerfAgrees()) && PerfFits() ==>
                (ok || (!faults.perf.FailsBeforeTruncate? && Keeps(faults.perfAppend, |old(newPerf)|))) ==> PerfAgrees()
      ensures old(FlakeAgrees()) && FlakeTableFits() ==>
                (ok || (!faults.flake.FailsBeforeTruncate? && Keeps(faults.flakeAppend, |old(newFlake)|))) ==>
                  FlakeAgrees()
      ensures old(NamesAgree()) && NamesFit() && AllStorable(utf8, old(newNames)) ==>
                (ok || Keeps(faults.namesAppend, |old(newNames)|)) ==> NamesAgree()
      ensures ok && persistent && old(PerfAgrees()) && PerfFits() ==> PerfOn(disk) == perf
      ensures ok && persistent && old(FlakeAgrees()) && FlakeTableFits() ==> FlakeOn(disk) == flake
      ensures ok && persistent && old(NamesAgree()) && NamesFit() && AllStorable(utf8, old(newNames)) ==>
                NamesOn(utf8, disk) == names
    {
      hide PerfOn, FlakeOn, NamesOn, ReplayPerf, ReplayFlake;
      hide ReplayNames, Appendable, Lawful, FlakesFit, AllStorable, Whole, AppendedDisk;
      ReplayNoPerf(PerfOn(disk));
      if !persistent {
        return true;
      }
      if faults.createDir {
        return false;
      }
      ok := SaveAll(faults);
      if |disk.perfLog| > COMPACTION_THRESHOLD || |disk.flakeLog| > COMPACTION_THRESHOLD
        || |disk.namesLog| > COMPACTION_THRESHOLD
      {
        var compacted := CompactAll(faults);
        ok := ok && compacted;
      }
      ReplayNoPerf(PerfOn(disk));
      ReplayNoFlake(FlakeOn(disk));
      ReplayNoNames(NamesOn(utf8, disk));
    }
  }

  lemma {:induction false} NothingLost(utf8: Utf8, samples: seq<PerfEntry>, names: seq<NameEntry>, table: PerfTable)
    ensures Whole(0, PERF_SIZE) && AllBelow(table, samples[..0]) && AtBoundary(utf8, names, 0)
  {
    assert names[..0] == [];
    NothingEncoded(NameEncoder(utf8));
  }

  lemma {:induction false} NothingIsWhole()
    ensures Whole(0, PERF_SIZE) && Whole(0, FLAKE_SIZE)
  {
  }

  lemma {:induction false} PerfFiles(a: Disk, b: Disk)
    ensures a.perfBin == b.perfBin && a.perfLog == b.perfLog ==> PerfOn(a) == PerfOn(b)
  {
    hide ReadTwo, TableOf, ReplayPerf, PerfLog;
  }

  lemma {:induction false} FlakeFiles(a: Disk, b: Disk)
    ensures a.flakeBin == b.flakeBin && a.flakeLog == b.flakeLog ==> FlakeOn(a) == FlakeOn(b)
  {
    hide ReadTwo, TableOf, ReplayFlake, FlakeLog;
  }

  lemma {:induction false} NamesFiles(utf8: Utf8, a: Disk, b: Disk)
    ensures a.namesBin == b.namesBin && a.namesLog == b.namesLog ==> NamesOn(utf8, a) == NamesOn(utf8, b)
  {
    hide NamesIn, ReplayNames, NamesLog;
  }

  lemma {:induction false} PerfIsWalked(disk: Disk)
    ensures PerfOn(disk) == ReplayPerf(PerfBase(disk), PerfLog(disk.perfLog))
  {
  }

  lemma {:induction false} FlakeIsWalked(disk: Disk)
    ensures FlakeOn(disk) == ReplayFlake(FlakeBase(disk), FlakeLog(disk.flakeLog))
  {
  }

  lemma {:induction false} NamesAreWalked(utf8: Utf8, disk: Disk)
    ensures NamesOn(utf8, disk) == ReplayNames(NamesBase(utf8, disk), NamesLog(utf8, disk.namesLog))
  {
  }

  // ---------------------------------------------------------------- estimates

  datatype Estimate = Measured(p50: nat, p95: nat) | Unseen

  /** A key's samples in one environment, or over both when the environment is not known. */
  function SamplesOf(perf: PerfTable, environment: Option<Environment>, key: U64): seq<Samples.Sample> {
    match environment
    case Some(e) => WithRecord([], perf, Slot(e, key))
    case None => WithRecord(WithRecord([], perf, Slot(LocalEnvironment, key)), perf, Slot(RemoteEnvironment, key))
  }

  function WithRecord(combined: seq<Samples.Sample>, perf: PerfTable, slot: Slot): seq<Samples.Sample> {
    if slot in perf then Samples.Combined(combined, perf[slot]) else combined
  }

  function Durations(samples: seq<Samples.Sample>): seq<nat> {
    seq(|samples|, i requires 0 <= i < |samples| => samples[i].duration)
  }

  function EstimateByKey(perf: PerfTable, environment: Option<Environment>, key: U64): Estimate {
    var samples := SamplesOf(perf, environment, key);
    if samples == [] then Unseen
    else Estimate.Measured(Samples.Percentile(Durations(samples), 50), Samples.Percentile(Durations(samples), 95))
  }

  /** Without a known environment an estimate reads the 64 newest samples of both environments. */
  lemma {:induction false} SamplesOverBoth(perf: PerfTable, key: U64)
    ensures SamplesOf(perf, None, key)
            == Samples.Top(PerfAt(perf, Slot(LocalEnvironment, key)) + PerfAt(perf, Slot(RemoteEnvironment, key)))
    ensures Samples.NewestOf(
              SamplesOf(perf, None, key),
              PerfAt(perf, Slot(LocalEnvironment, key)) + PerfAt(perf, Slot(RemoteEnvironment, key)))
  {
    hide Samples.Top, Samples.NewestOf;
    var local, remote := PerfAt(perf, Slot(LocalEnvironment, key)), PerfAt(perf, Slot(RemoteEnvironment, key));
    assert [] + local == local && [] + remote == remote && local + [] == local;
    assert Samples.Top([]) == [] by { TopOfNothing(); }
    Samples.TopOfTop(local, remote);
    Samples.TopKeepsNewest(local + remote);
  }

  /** In a known environment it reads the 64 newest of that environment alone. */
  lemma {:induction false} SamplesInOne(perf: PerfTable, environment: Environment, key: U64)
    ensures Samples.NewestOf(SamplesOf(perf, Some(environment), key), PerfAt(perf, Slot(environment, key)))
  {
    hide Samples.Top, Samples.NewestOf;
    var own := PerfAt(perf, Slot(environment, key));
    assert [] + own == own;
    TopOfNothing();
    Samples.TopKeepsNewest(own);
  }

  lemma {:induction false} TopOfNothing()
    ensures Samples.Top([]) == []
  {
  }

  /** In terms of the files: the 64 newest of what snapshot and log hold for the key in either environment. */
  lemma {:induction false} SamplesOnDisk(disk: Disk, key: U64)
    ensures var local, remote := Slot(LocalEnvironment, key), Slot(RemoteEnvironment, key);
            SamplesOf(PerfOn(disk), None, key)
            == Samples.Top(
                 (PerfAt(PerfBase(disk), local) + SamplesFor(PerfLog(disk.perfLog), local))
                 + (PerfAt(PerfBase(disk), remote) + SamplesFor(PerfLog(disk.perfLog), remote)))
    ensures var local, remote := Slot(LocalEnvironment, key), Slot(RemoteEnvironment, key);
            Samples.NewestOf(
              SamplesOf(PerfOn(disk), None, key),
              (PerfAt(PerfBase(disk), local) + SamplesFor(PerfLog(disk.perfLog), local))
              + (PerfAt(PerfBase(disk), remote) + SamplesFor(PerfLog(disk.perfLog), remote)))
  {
    hide Samples.Top, Samples.NewestOf, SamplesOf, PerfBase, PerfLog, ReplayPerf, Picked;
    var local, remote := Slot(LocalEnvironment, key), Slot(RemoteEnvironment, key);
    var base, log := PerfBase(disk), PerfLog(disk.perfLog);
    SamplesOverBoth(PerfOn(disk), key);
    PerfSlotIsFold(base, log, local);
    PerfSlotIsFold(base, log, remote);
    SettledFirst(PerfAt(base, local), SamplesFor(log, local), PerfAt(PerfOn(disk), remote));
    var x := PerfAt(base, local) + SamplesFor(log, local);
    Samples.TopIgnoresOrder(x + PerfAt(PerfOn(disk), remote), PerfAt(PerfOn(disk), remote) + x);
    SettledFirst(PerfAt(base, remote), SamplesFor(log, remote), x);
    var y := PerfAt(base, remote) + SamplesFor(log, remote);
    Samples.TopIgnoresOrder(x + y, y + x);
    Samples.TopKeepsNewest(x + y);
  }

  lemma {:induction false} SettledFirst(
      base: seq<Samples.Sample>, log: seq<Samples.Sample>, others: seq<Samples.Sample>)
    ensures Samples.Top(Samples.Replay(base, log) + others) == Samples.Top((base + log) + others)
  {
    hide Samples.Top, Samples.Replay;
    if log == [] {
      Samples.ReplayNothing(base);
      assert base + log == base;
    } else {
      Samples.ReplayOntoAny(base, log);
      Samples.TopOfTop(base + log, others);
    }
  }

  /** How many of the samples took at most `v`. */
  function Within(samples: seq<Samples.Sample>, v: nat): nat {
    if samples == [] then 0 else (if samples[0].duration <= v then 1 else 0) + Within(samples[1..], v)
  }

  /** How many of the samples took less than `v`. */
  function Quicker(samples: seq<Samples.Sample>, v: nat): nat {
    if samples == [] then 0 else (if samples[0].duration < v then 1 else 0) + Quicker(samples[1..], v)
  }

  lemma {:induction false} DurationCounts(samples: seq<Samples.Sample>, v: nat)
    ensures Samples.CountAtMost(Durations(samples), v) == Within(samples, v)
    ensures Samples.CountBelow(Durations(samples), v) == Quicker(samples, v)
  {
    if samples != [] {
      DurationCounts(samples[1..], v);
      assert Durations(samples)[1..] == Durations(samples[1..]);
    }
  }

  /** `v` is the duration of a sample; p hundredths of the samples took at most `v`, and fewer took less. */
  ghost predicate IsPercentile(samples: seq<Samples.Sample>, p: nat, v: nat) {
    && (exists x :: x in samples && x.duration == v)
    && 100 * Within(samples, v) >= p * |samples|
    && (Quicker(samples, v) == 0 || 100 * Quicker(samples, v) < p * |samples|)
  }

  lemma {:induction false} DurationPercentile(samples: seq<Samples.Sample>, p: nat)
    requires samples != [] && p <= 100
    ensures IsPercentile(samples, p, Samples.Percentile(Durations(samples), p))
  {
    hide Samples.Percentile;
    var v := Samples.Percentile(Durations(samples), p);
    Samples.PercentileRanks(Durations(samples), p);
    DurationCounts(samples, v);
    var i :| 0 <= i < |Durations(samples)| && Durations(samples)[i] == v;
    assert samples[i] in samples && samples[i].duration == v;
  }

  /**
   * For every table, environment and key: the estimate is "unseen" exactly when there is no sample
   * to read, and otherwise its p50 and p95 are what half and 95 hundredths of the samples took at
   * most, and the one never exceeds the other.
   */
  lemma {:induction false} EstimateIsOrdered(perf: PerfTable, environment: Option<Environment>, key: U64)
    ensures var estimate := EstimateByKey(perf, environment, key);
            && (estimate.Unseen? <==>
                match environment
                case Some(e) => PerfAt(perf, Slot(e, key)) == []
                case None =>
                  PerfAt(perf, Slot(LocalEnvironment, key)) == [] == PerfAt(perf, Slot(RemoteEnvironment, key)))
            && (estimate.Measured? ==>
                  && estimate.p50 <= estimate.p95
                  && IsPercentile(SamplesOf(perf, environment, key), 50, estimate.p50)
                  && IsPercentile(SamplesOf(perf, environment, key), 95, estimate.p95))
  {
    hide Samples.Sort, Samples.Percentile, IsPercentile;
    var local, remote := PerfAt(perf, Slot(LocalEnvironment, key)), PerfAt(perf, Slot(RemoteEnvironment, key));
    SamplesOverBoth(perf, key);
    if environment.Some? {
      var own := PerfAt(perf, Slot(environment.value, key));
      assert [] + own == own;
      assert |SamplesOf(perf, environment, key)| == 0 <==> own == [];
    } else {
      assert |SamplesOf(perf, environment, key)| == 0 <==> local == [] && remote == [];
    }
    var samples := SamplesOf(perf, environment, key);
    Samples.PercentileGrows(Durations(samples), 50, 95);
    if samples != [] {
      DurationPercentile(samples, 50);
      DurationPercentile(samples, 95);
    }
  }

  // ---------------------------------------------------------------- known flakes

  function WithRuns(combined: Option<Flakes.FlakeRecord>, flake: FlakeTable, slot: Slot): Option<Flakes.FlakeRecord> {
    if slot in flake then
      Some(Flakes.Combined(if combined.Some? then combined.value else Flakes.NO_RUNS, flake[slot]))
    else combined
  }

  /** A key's flake record in one environment, or over both; None when it has never run there. */
  function FlakeOf(flake: FlakeTable, environment: Option<Environment>, key: U64): Option<Flakes.FlakeRecord> {
    match environment
    case Some(e) => WithRuns(None, flake, Slot(e, key))
    case None => WithRuns(WithRuns(None, flake, Slot(LocalEnvironment, key)), flake, Slot(RemoteEnvironment, key))
  }

  /** The test has failed before, which gives it the retry budget of flaky tests. */
  predicate KnownFlake(flake: FlakeTable, key: U64) {
    FlakeOf(flake, None, key).Some? && FlakeOf(flake, None, key).value.failures > 0
  }

  lemma {:induction false} FailureOnRecord(record: Flakes.FlakeRecord, runs: seq<Flakes.RunEntry>)
    ensures Flakes.Replay(record, runs).failures > 0 <==> record.failures > 0 || exists r :: r in runs && r.failed
  {
    if runs == [] {
      Flakes.ReplayNothing(record);
    } else {
      var rest, last := runs[..|runs| - 1], runs[|runs| - 1];
      FailureOnRecord(record, rest);
      Flakes.ReplayPush(record, rest, last);
      assert runs == rest + [last];
      if r :| r in runs && r.failed {
        assert r in rest || r == last;
      }
    }
  }

  lemma {:induction false} FailedInSlot(base: FlakeTable, log: seq<FlakeEntry>, slot: Slot)
    ensures FlakeAt(ReplayFlake(base, log), slot).failures > 0
            <==> FlakeAt(base, slot).failures > 0 || exists e :: e in log && e.slot == slot && e.run.failed
  {
    FlakeSlotIsFold(base, log, slot);
    hide Picked, ReplayFlake;
    FailureOnRecord(FlakeAt(base, slot), RunsFor(log, slot));
    forall r
      ensures r in RunsFor(log, slot) <==> exists e :: e in log && RunAt(slot)(e) == Some(r)
    {
      PickedIn(log, RunAt(slot), r);
    }
    if e :| e in log && e.slot == slot && e.run.failed {
      assert RunAt(slot)(e) == Some(e.run);
      assert e.run in RunsFor(log, slot);
    }
  }

  /** Snapshot or log of the directory hold a failure in this slot. */
  ghost predicate FailedOn(disk: Disk, slot: Slot) {
    || FlakeAt(FlakeBase(disk), slot).failures > 0
    || exists e :: e in FlakeLog(disk.flakeLog) && e.slot == slot && e.run.failed
  }

  /** A test is a known flake exactly when the directory holds a failure of it, in either environment. */
  lemma {:induction false} KnownFlakeIff(disk: Disk, key: U64)
    ensures KnownFlake(FlakeOn(disk), key)
            <==> FailedOn(disk, Slot(LocalEnvironment, key)) || FailedOn(disk, Slot(RemoteEnvironment, key))
  {
    hide FlakeBase, FlakeLog, ReplayFlake;
    FlakeIsWalked(disk);
    FailedInSlot(FlakeBase(disk), FlakeLog(disk.flakeLog), Slot(LocalEnvironment, key));
    FailedInSlot(FlakeBase(disk), FlakeLog(disk.flakeLog), Slot(RemoteEnvironment, key));
    FlakeCounts(FlakeOn(disk), key);
  }

  /** Runs and failures add up over the environments that are asked for. */
  lemma {:induction false} FlakeCounts(flake: FlakeTable, key: U64)
    ensures var local, remote := Slot(LocalEnvironment, key), Slot(RemoteEnvironment, key);
            var both := FlakeOf(flake, None, key);
            && (both.Some? <==> local in flake || remote in flake)
            && (both.Some? ==>
                  && both.value.runs == FlakeAt(flake, local).runs + FlakeAt(flake, remote).runs
                  && both.value.failures == FlakeAt(flake, local).failures + FlakeAt(flake, remote).failures)
    ensures forall environment ::
              var one := FlakeOf(flake, Some(environment), key);
              && (one.Some? <==> Slot(environment, key) in flake)
              && (one.Some? ==>
                    && one.value.runs == FlakeAt(flake, Slot(environment, key)).runs
                    && one.value.failures == FlakeAt(flake, Slot(environment, key)).failures)
  {
  }
}
