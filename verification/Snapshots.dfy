/** Snapshots of the duration database, the meaning of its directory, and compaction. */
module Snapshots {
  import opened Results
  import opened Sequences
  import opened ByteCodec
  import opened DbFormat
  import opened Tables
  import Samples
  import Flakes
  import Variants

  // ---------------------------------------------------------------- snapshot entries

  type PerfRow = (U64, seq<Samples.Sample>)
  type FlakeRow = (U64, Flakes.FlakeRecord)

  function EncodeSample(s: Samples.Sample): Bytes {
    Le64(s.timestamp) + Le64(s.duration)
  }

  function ReadSample(buf: Bytes): (read: Read<Samples.Sample>)
    ensures |read.rest| <= |buf|
  {
    var timestamp := ReadExact(buf, 8);
    if timestamp.value.None? then Read(None, timestamp.rest)
    else
      var duration := ReadExact(timestamp.rest, 8);
      if duration.value.None? then Read(None, duration.rest)
      else Read(Some(Samples.Sample(Un64(timestamp.value.value), Un64(duration.value.value))), duration.rest)
  }

  /** A row of the perf snapshot; the sample count is written as one byte. */
  function EncodePerfRow(row: PerfRow): Bytes {
    Le64(row.0) + [|row.1| % 256] + EncodeAll(row.1, EncodeSample)
  }

  function ReadPerfRow(buf: Bytes): Read<PerfRow> {
    var key := ReadExact(buf, 8);
    if key.value.None? then Read(None, key.rest)
    else
      var count := ReadExact(key.rest, 1);
      if count.value.None? then Read(None, count.rest)
      else
        var (samples, rest) := ReadMany(count.rest, count.value.value[0], ReadSample);
        Read(Some((Un64(key.value.value), samples)), rest)
  }

  lemma {:induction false} SampleTakesBack(s: Samples.Sample)
    ensures TakesBack(ReadSample, EncodeSample, s)
  {
    hide Le64, Un64;
    forall rest: Bytes
      ensures ReadSample(EncodeSample(s) + rest) == Read(Some(s), rest)
    {
      var buf := EncodeSample(s) + rest;
      assert buf[..8] == Le64(s.timestamp) && buf[8..][..8] == Le64(s.duration) && buf[8..][8..] == rest;
      Le64RoundTrip(s.timestamp);
      Le64RoundTrip(s.duration);
    }
  }

  lemma {:induction false} ReadsAtMost<T>(buf: Bytes, count: nat, readEntry: Bytes -> Read<T>)
    ensures |ReadMany(buf, count, readEntry).0| <= count
    decreases count
  {
    if count > 0 {
      ReadsAtMost(readEntry(buf).rest, count - 1, readEntry);
    }
  }

  /** A row holds as many samples as one byte can count, whatever the bytes were. */
  lemma {:induction false} ReadRowIsShort(buf: Bytes)
    ensures ReadPerfRow(buf).value.Some? ==> |ReadPerfRow(buf).value.value.1| < 256
  {
    hide ReadMany, ReadSample, Un64;
    var count := ReadExact(ReadExact(buf, 8).rest, 1);
    if count.value.Some? {
      ReadsAtMost(count.rest, count.value.value[0], ReadSample);
    }
  }

  /** The one-byte count is lossless exactly below 256 samples; records keep at most 64. */
  lemma {:induction false} PerfRowRoundTripIff(row: PerfRow, rest: Bytes)
    ensures ReadPerfRow(EncodePerfRow(row) + rest) == Read(Some(row), rest) <==> |row.1| < 256
  {
    hide Le64, Un64, ReadMany, EncodeAll, ReadSample, EncodeSample, TakesBack;
    var buf := EncodePerfRow(row) + rest;
    if |row.1| < 256 {
      var body := EncodeAll(row.1, EncodeSample) + rest;
      assert buf[..8] == Le64(row.0) && buf[8..][..1] == [|row.1|] && buf[8..][1..] == body;
      Le64RoundTrip(row.0);
      forall s | s in row.1
        ensures TakesBack(ReadSample, EncodeSample, s)
      {
        SampleTakesBack(s);
      }
      ReadManyRoundTrip(row.1, EncodeSample, ReadSample, rest);
    } else {
      ReadRowIsShort(buf);
    }
  }

  lemma {:induction false} PerfRowTakesBack(row: PerfRow)
    requires |row.1| < 256
    ensures TakesBack(ReadPerfRow, EncodePerfRow, row)
  {
    hide ReadPerfRow, EncodePerfRow;
    forall rest: Bytes
      ensures ReadPerfRow(EncodePerfRow(row) + rest) == Read(Some(row), rest)
    {
      PerfRowRoundTripIff(row, rest);
    }
  }

  const FLAKE_ROW_SIZE: nat := 33

  /** A row of the flake snapshot: counters modulo 2^64, and "no failure" as the largest timestamp. */
  function EncodeFlakeRow(row: FlakeRow): (bytes: Bytes)
    ensures |bytes| == FLAKE_ROW_SIZE
  {
    Le64(row.0) + ToLe(row.1.runs, 8) + ToLe(row.1.failures, 8)
    + Le64(if row.1.lastTimestamp.Some? then row.1.lastTimestamp.value else U64_MAX)
    + [ClassCode(row.1.lastClass)]
  }

  function DecodeFlakeRow(bytes: Bytes): FlakeRow
    requires |bytes| == FLAKE_ROW_SIZE
  {
    var timestamp := Un64(bytes[24..32]);
    (Un64(bytes[..8]),
     Flakes.FlakeRecord(
       Un64(bytes[8..16]),
       Un64(bytes[16..24]),
       if timestamp == U64_MAX then None else Some(timestamp),
       ClassAt(bytes[32])))
  }

  function ReadFlakeRow(buf: Bytes): Read<FlakeRow> {
    var bytes := ReadExact(buf, FLAKE_ROW_SIZE);
    Read(if bytes.value.Some? then Some(DecodeFlakeRow(bytes.value.value)) else None, bytes.rest)
  }

  /** What a flake row can express. */
  predicate FlakeFits(record: Flakes.FlakeRecord) {
    && record.runs < 0x1_0000_0000_0000_0000
    && record.failures < 0x1_0000_0000_0000_0000
    && record.lastTimestamp != Some(U64_MAX)
  }

  lemma {:induction false} WrappedRoundTrip(n: nat)
    ensures Un64(ToLe(n, 8)) == n % 0x1_0000_0000_0000_0000
  {
    hide ToLe, FromLe, Pow256;
    Widths();
    LeRoundTrip(n, 8);
  }

  /** What a flake row keeps of a record. */
  function Stored(record: Flakes.FlakeRecord): Flakes.FlakeRecord {
    Flakes.FlakeRecord(
      record.runs % 0x1_0000_0000_0000_0000,
      record.failures % 0x1_0000_0000_0000_0000,
      if record.lastTimestamp == Some(U64_MAX) then None else record.lastTimestamp,
      record.lastClass)
  }

  lemma {:induction false} FlakeRowStores(row: FlakeRow)
    ensures DecodeFlakeRow(EncodeFlakeRow(row)) == (row.0, Stored(row.1))
  {
    hide Le64, Un64, ToLe;
    var bytes := EncodeFlakeRow(row);
    var timestamp: U64 := if row.1.lastTimestamp.Some? then row.1.lastTimestamp.value else U64_MAX;
    assert bytes[..8] == Le64(row.0);
    assert bytes[8..16] == ToLe(row.1.runs, 8);
    assert bytes[16..24] == ToLe(row.1.failures, 8);
    assert bytes[24..32] == Le64(timestamp);
    Le64RoundTrip(row.0);
    WrappedRoundTrip(row.1.runs);
    WrappedRoundTrip(row.1.failures);
    Le64RoundTrip(timestamp);
  }

  /** A flake row reads back unchanged exactly when its counters fit and its time is not the sentinel. */
  lemma {:induction false} FlakeRowRoundTripIff(row: FlakeRow)
    ensures DecodeFlakeRow(EncodeFlakeRow(row)) == row <==> FlakeFits(row.1)
  {
    hide EncodeFlakeRow, DecodeFlakeRow;
    FlakeRowStores(row);
  }

  lemma {:induction false} FlakeRowReadsAs(row: FlakeRow)
    ensures ReadsAs(ReadFlakeRow, EncodeFlakeRow, row, (row.0, Stored(row.1)))
  {
    hide EncodeFlakeRow, DecodeFlakeRow, Stored;
    FlakeRowStores(row);
    forall rest: Bytes
      ensures ReadFlakeRow(EncodeFlakeRow(row) + rest) == Read(Some((row.0, Stored(row.1))), rest)
    {
      var buf := EncodeFlakeRow(row) + rest;
      assert buf[..FLAKE_ROW_SIZE] == EncodeFlakeRow(row) && buf[FLAKE_ROW_SIZE..] == rest;
    }
  }

  lemma {:induction false} NameTakesBack(utf8: Utf8, e: NameEntry)
    requires Lawful(utf8) && Storable(utf8, e.identity)
    ensures TakesBack(NameReader(utf8), NameEncoder(utf8), e)
  {
    hide EncodeName, ReadName, Storable, Lawful;
    forall rest: Bytes
      ensures NameReader(utf8)(NameEncoder(utf8)(e) + rest) == Read(Some(e), rest)
    {
      NameRoundTrip(utf8, e, rest);
    }
  }

  // ---------------------------------------------------------------- whole snapshots

  const PERF_MAGIC: Bytes := [80, 82, 70, 49]
  const FLAKE_MAGIC: Bytes := [70, 76, 75, 49]
  const NAMES_MAGIC: Bytes := [78, 77, 83, 49]

  /** A section: the row count in four bytes, and the rows. */
  function EncodeSection<T>(rows: seq<T>, encode: T -> Bytes): Bytes {
    Le32(|rows|) + EncodeAll(rows, encode)
  }

  function ReadSection<T>(buf: Bytes, readRow: Bytes -> Read<T>): (seq<T>, Bytes) {
    var count := ReadExact(buf, 4);
    if count.value.None? then ([], count.rest) else ReadMany(count.rest, FromLe(count.value.value), readRow)
  }

  lemma {:induction false} SectionAs<T(!new)>(
      rows: seq<T>, seen: seq<T>, encode: T -> Bytes, readRow: Bytes -> Read<T>, rest: Bytes)
    requires |seen| == |rows| < 0x1_0000_0000
    requires forall i :: 0 <= i < |rows| ==> ReadsAs(readRow, encode, rows[i], seen[i])
    ensures ReadSection(EncodeSection(rows, encode) + rest, readRow) == (seen, rest)
  {
    hide Le32, FromLe, ReadMany, EncodeAll, ReadsAs;
    var buf := EncodeSection(rows, encode) + rest;
    Le32RoundTrip(|rows|);
    assert buf[..4] == Le32(|rows|) && buf[4..] == EncodeAll(rows, encode) + rest;
    ReadManyAs(rows, seen, encode, readRow, rest);
  }

  /** The body of a snapshot, if it starts with the right magic. */
  function Unsealed(buf: Bytes, magic: Bytes): Option<Bytes>
    requires |magic| == 4
  {
    if |buf| >= 4 && buf[..4] == magic then Some(buf[4..]) else None
  }

  /** A snapshot with one section for each environment. */
  function EncodeTwo<T>(magic: Bytes, local: seq<T>, remote: seq<T>, encode: T -> Bytes): Bytes {
    magic + (EncodeSection(local, encode) + EncodeSection(remote, encode))
  }

  function ReadTwo<T>(buf: Bytes, magic: Bytes, readRow: Bytes -> Read<T>): (seq<T>, seq<T>)
    requires |magic| == 4
  {
    var body := Unsealed(buf, magic);
    if body.None? then ([], [])
    else
      var (local, rest) := ReadSection(body.value, readRow);
      (local, ReadSection(rest, readRow).0)
  }

  lemma {:induction false} TwoAs<T(!new)>(
    magic: Bytes, local: seq<T>, remote: seq<T>, seenLocal: seq<T>, seenRemote: seq<T>,
    encode: T -> Bytes, readRow: Bytes -> Read<T>)
    requires |magic| == 4
    requires |seenLocal| == |local| < 0x1_0000_0000 && |seenRemote| == |remote| < 0x1_0000_0000
    requires forall i :: 0 <= i < |local| ==> ReadsAs(readRow, encode, local[i], seenLocal[i])
    requires forall i :: 0 <= i < |remote| ==> ReadsAs(readRow, encode, remote[i], seenRemote[i])
    ensures ReadTwo(EncodeTwo(magic, local, remote, encode), magic, readRow) == (seenLocal, seenRemote)
  {
    hide ReadSection, EncodeSection, ReadsAs;
    var second := EncodeSection(remote, encode);
    var buf := EncodeTwo(magic, local, remote, encode);
    assert buf[..4] == magic && buf[4..] == EncodeSection(local, encode) + second;
    assert second + [] == second;
    SectionAs(local, seenLocal, encode, readRow, second);
    SectionAs(remote, seenRemote, encode, readRow, []);
  }

  lemma {:induction false} TwoRoundTrip<T(!new)>(
    magic: Bytes, local: seq<T>, remote: seq<T>, encode: T -> Bytes, readRow: Bytes -> Read<T>)
    requires |magic| == 4
    requires |local| < 0x1_0000_0000 && |remote| < 0x1_0000_0000
    requires forall row :: row in local ==> TakesBack(readRow, encode, row)
    requires forall row :: row in remote ==> TakesBack(readRow, encode, row)
    ensures ReadTwo(EncodeTwo(magic, local, remote, encode), magic, readRow) == (local, remote)
  {
    hide ReadTwo, EncodeTwo, ReadsAs;
    assert forall i :: 0 <= i < |local| ==> TakesBack(readRow, encode, local[i]);
    assert forall i :: 0 <= i < |remote| ==> TakesBack(readRow, encode, remote[i]);
    TwoAs(magic, local, remote, local, remote, encode, readRow);
  }

  // ---------------------------------------------------------------- from rows to tables

  /** Insert the rows into the table, a later one over an earlier one with the same key. */
  function WithRows<V>(table: map<Slot, V>, environment: Environment, rows: seq<(U64, V)>): map<Slot, V> {
    if rows == [] then table
    else
      var last := rows[|rows| - 1];
      WithRows(table, environment, rows[..|rows| - 1])[Slot(environment, last.0) := last.1]
  }

  function TableOf<V>(local: seq<(U64, V)>, remote: seq<(U64, V)>): map<Slot, V> {
    WithRows(WithRows(map[], LocalEnvironment, local), RemoteEnvironment, remote)
  }

  /** The rows list the part of the table that belongs to the environment, each key once, in any order. */
  ghost predicate Lists<V>(rows: seq<(U64, V)>, environment: Environment, table: map<Slot, V>) {
    && (forall i, j :: 0 <= i < j < |rows| ==> rows[i].0 != rows[j].0)
    && (forall i :: 0 <= i < |rows| ==>
          Slot(environment, rows[i].0) in table && table[Slot(environment, rows[i].0)] == rows[i].1)
    && (forall slot :: slot in table && slot.environment == environment ==>
          exists i :: 0 <= i < |rows| && rows[i].0 == slot.key)
  }

  lemma {:induction false} RowsAreIn<V>(table: map<Slot, V>, environment: Environment, rows: seq<(U64, V)>, slot: Slot)
    requires forall i, j :: 0 <= i < j < |rows| ==> rows[i].0 != rows[j].0
    ensures var listed := exists i :: 0 <= i < |rows| && Slot(environment, rows[i].0) == slot;
            && (slot in WithRows(table, environment, rows) <==> slot in table || listed)
            && (!listed && slot in table ==> WithRows(table, environment, rows)[slot] == table[slot])
    ensures forall i :: 0 <= i < |rows| && Slot(environment, rows[i].0) == slot ==>
            WithRows(table, environment, rows)[slot] == rows[i].1
  {
    if rows != [] {
      var rest, last := rows[..|rows| - 1], rows[|rows| - 1];
      RowsAreIn(table, environment, rest, slot);
      assert WithRows(table, environment, rows)
        == WithRows(table, environment, rest)[Slot(environment, last.0) := last.1];
      assert forall i :: 0 <= i < |rest| ==> rest[i] == rows[i];
    }
  }

  /** Whatever order a snapshot lists its rows in, it loads to the same table. */
  lemma {:induction false} ListingIsTable<V>(local: seq<(U64, V)>, remote: seq<(U64, V)>, table: map<Slot, V>)
    requires Lists(local, LocalEnvironment, table) && Lists(remote, RemoteEnvironment, table)
    ensures TableOf(local, remote) == table
  {
    hide WithRows;
    var first := WithRows(map[], LocalEnvironment, local);
    forall slot: Slot
      ensures slot in TableOf(local, remote) <==> slot in table
      ensures slot in table ==> TableOf(local, remote)[slot] == table[slot]
    {
      RowsAreIn(map[], LocalEnvironment, local, slot);
      RowsAreIn(first, RemoteEnvironment, remote, slot);
    }
  }

  // ---------------------------------------------------------------- the directory

  /** The files of a database directory; a file that does not exist reads like an empty one. */
  datatype Disk = Disk(
    perfBin: Bytes, perfLog: Bytes, flakeBin: Bytes, flakeLog: Bytes, namesBin: Bytes, namesLog: Bytes)

  function PerfBase(disk: Disk): PerfTable {
    var rows := ReadTwo(disk.perfBin, PERF_MAGIC, ReadPerfRow);
    TableOf(rows.0, rows.1)
  }

  function FlakeBase(disk: Disk): FlakeTable {
    var rows := ReadTwo(disk.flakeBin, FLAKE_MAGIC, ReadFlakeRow);
    TableOf(rows.0, rows.1)
  }

  function NamesIn(utf8: Utf8, buf: Bytes): seq<NameEntry> {
    var body := Unsealed(buf, NAMES_MAGIC);
    if body.None? then [] else ReadSection(body.value, NameReader(utf8)).0
  }

  function NamesBase(utf8: Utf8, disk: Disk): NameTable {
    ReplayNames(map[], NamesIn(utf8, disk.namesBin))
  }

  /** What loading the directory yields: the snapshot, with the log replayed on top. */
  function PerfOn(disk: Disk): PerfTable {
    ReplayPerf(PerfBase(disk), PerfLog(disk.perfLog))
  }

  function FlakeOn(disk: Disk): FlakeTable {
    ReplayFlake(FlakeBase(disk), FlakeLog(disk.flakeLog))
  }

  function NamesOn(utf8: Utf8, disk: Disk): NameTable {
    ReplayNames(NamesBase(utf8, disk), NamesLog(utf8, disk.namesLog))
  }

  // ---------------------------------------------------------------- appending

  lemma {:induction false} AppendPerf(disk: Disk, entries: seq<PerfEntry>)
    requires Whole(|disk.perfLog|, PERF_SIZE)
    ensures var next := disk.(perfLog := disk.perfLog + EncodeAll(entries, EncodePerf));
            PerfOn(next) == ReplayPerf(PerfOn(disk), entries) && Whole(|next.perfLog|, PERF_SIZE)
  {
    hide PerfBase, ReplayPerf, DecodePerf, EncodePerf, Whole, RecordsIn, EncodeAll;
    var bytes := EncodeAll(entries, EncodePerf);
    RecordsAppend(disk.perfLog, bytes, PERF_SIZE, DecodePerf);
    PerfLogRoundTrip(entries, []);
    assert bytes + [] == bytes;
    ReplayPerfAppend(PerfBase(disk), PerfLog(disk.perfLog), entries);
    EncodedIsWhole(entries, PERF_SIZE, EncodePerf);
    WholeAppend(|disk.perfLog|, |bytes|, PERF_SIZE);
    assert PerfBase(disk.(perfLog := disk.perfLog + bytes)) == PerfBase(disk) by {
      PerfBaseIsSnapshot(disk, disk.perfLog + bytes);
    }
  }

  /** An append that breaks off after n bytes adds exactly the samples it wrote in full. */
  lemma {:induction false} TornPerf(disk: Disk, entries: seq<PerfEntry>, n: nat)
    requires Whole(|disk.perfLog|, PERF_SIZE)
    requires n <= |EncodeAll(entries, EncodePerf)|
    ensures var torn := disk.(perfLog := disk.perfLog + EncodeAll(entries, EncodePerf)[..n]);
            && n / PERF_SIZE <= |entries|
            && PerfOn(torn) == ReplayPerf(PerfOn(disk), entries[..n / PERF_SIZE])
            && (Whole(|torn.perfLog|, PERF_SIZE) <==> Whole(n, PERF_SIZE))
  {
    hide PerfBase, ReplayPerf, DecodePerf, EncodePerf, Whole, RecordsIn, EncodeAll;
    forall e | e in entries
      ensures DecodePerf(EncodePerf(e)) == Some(e)
    {
      PerfRoundTrip(e);
    }
    var k := TornLog(entries, n, PERF_SIZE, EncodePerf, DecodePerf);
    EncodedLength(entries[..k], PERF_SIZE, EncodePerf);
    if k < |entries| {
      EncodedLength(entries[..k + 1], PERF_SIZE, EncodePerf);
    }
    assert k == |entries| ==> entries[..k] == entries;
    assert k == n / PERF_SIZE;
    var bytes := EncodeAll(entries, EncodePerf)[..n];
    RecordsAppend(disk.perfLog, bytes, PERF_SIZE, DecodePerf);
    ReplayPerfAppend(PerfBase(disk), PerfLog(disk.perfLog), entries[..k]);
    PerfBaseIsSnapshot(disk, disk.perfLog + bytes);
    WholeAppendIff(|disk.perfLog|, n, PERF_SIZE);
  }

  lemma {:induction false} PerfBaseIsSnapshot(disk: Disk, log: Bytes)
    ensures PerfBase(disk.(perfLog := log)) == PerfBase(disk)
  {
  }

  lemma {:induction false} AppendFlake(disk: Disk, entries: seq<FlakeEntry>)
    requires Whole(|disk.flakeLog|, FLAKE_SIZE)
    ensures var next := disk.(flakeLog := disk.flakeLog + EncodeAll(entries, EncodeFlake));
            FlakeOn(next) == ReplayFlake(FlakeOn(disk), entries) && Whole(|next.flakeLog|, FLAKE_SIZE)
  {
    hide FlakeBase, ReplayFlake, DecodeFlake, EncodeFlake, Whole, RecordsIn, EncodeAll;
    var bytes := EncodeAll(entries, EncodeFlake);
    RecordsAppend(disk.flakeLog, bytes, FLAKE_SIZE, DecodeFlake);
    FlakeLogRoundTrip(entries, []);
    assert bytes + [] == bytes;
    ReplayFlakeAppend(FlakeBase(disk), FlakeLog(disk.flakeLog), entries);
    EncodedIsWhole(entries, FLAKE_SIZE, EncodeFlake);
    WholeAppend(|disk.flakeLog|, |bytes|, FLAKE_SIZE);
    assert FlakeBase(disk.(flakeLog := disk.flakeLog + bytes)) == FlakeBase(disk) by {
      FlakeBaseIsSnapshot(disk, disk.flakeLog + bytes);
    }
  }

  /** The same for runs. */
  lemma {:induction false} TornFlake(disk: Disk, entries: seq<FlakeEntry>, n: nat)
    requires Whole(|disk.flakeLog|, FLAKE_SIZE)
    requires n <= |EncodeAll(entries, EncodeFlake)|
    ensures var torn := disk.(flakeLog := disk.flakeLog + EncodeAll(entries, EncodeFlake)[..n]);
            && n / FLAKE_SIZE <= |entries|
            && FlakeOn(torn) == ReplayFlake(FlakeOn(disk), entries[..n / FLAKE_SIZE])
            && (Whole(|torn.flakeLog|, FLAKE_SIZE) <==> Whole(n, FLAKE_SIZE))
  {
    hide FlakeBase, ReplayFlake, DecodeFlake, EncodeFlake, Whole, RecordsIn, EncodeAll;
    forall e | e in entries
      ensures DecodeFlake(EncodeFlake(e)) == Some(e)
    {
      FlakeRoundTrip(e);
    }
    var k := TornLog(entries, n, FLAKE_SIZE, EncodeFlake, DecodeFlake);
    EncodedLength(entries[..k], FLAKE_SIZE, EncodeFlake);
    if k < |entries| {
      EncodedLength(entries[..k + 1], FLAKE_SIZE, EncodeFlake);
    }
    assert k == |entries| ==> entries[..k] == entries;
    assert k == n / FLAKE_SIZE;
    var bytes := EncodeAll(entries, EncodeFlake)[..n];
    RecordsAppend(disk.flakeLog, bytes, FLAKE_SIZE, DecodeFlake);
    ReplayFlakeAppend(FlakeBase(disk), FlakeLog(disk.flakeLog), entries[..k]);
    FlakeBaseIsSnapshot(disk, disk.flakeLog + bytes);
    WholeAppendIff(|disk.flakeLog|, n, FLAKE_SIZE);
  }

  lemma {:induction false} FlakeBaseIsSnapshot(disk: Disk, log: Bytes)
    ensures FlakeBase(disk.(flakeLog := log)) == FlakeBase(disk)
  {
  }

  lemma {:induction false} EmptyIsAppendable(utf8: Utf8)
    ensures Appendable(utf8, [])
  {
    hide ReadName;
    forall more: Bytes
      ensures NamesLog(utf8, [] + more) == NamesLog(utf8, []) + NamesLog(utf8, more)
    {
      assert [] + more == more;
    }
  }

  lemma {:induction false} AppendableIff(utf8: Utf8, log: Bytes, bytes: Bytes)
    requires Appendable(utf8, log)
    ensures Appendable(utf8, log + bytes) <==> Appendable(utf8, bytes)
  {
    hide NamesLog;
    forall more: Bytes
      ensures NamesLog(utf8, (log + bytes) + more) == NamesLog(utf8, log + bytes) + NamesLog(utf8, more)
              <==> NamesLog(utf8, bytes + more) == NamesLog(utf8, bytes) + NamesLog(utf8, more)
    {
      var held := NamesLog(utf8, log);
      assert (log + bytes) + more == log + (bytes + more);
      assert (held + NamesLog(utf8, bytes)) + NamesLog(utf8, more)
        == held + (NamesLog(utf8, bytes) + NamesLog(utf8, more));
      SamePrefixCancels(held, NamesLog(utf8, bytes + more), NamesLog(utf8, bytes) + NamesLog(utf8, more));
    }
  }

  lemma {:induction false} SamePrefixCancels<T>(prefix: seq<T>, a: seq<T>, b: seq<T>)
    ensures prefix + a == prefix + b <==> a == b
  {
    assert (prefix + a)[|prefix|..] == a && (prefix + b)[|prefix|..] == b;
  }

  lemma {:induction false} AppendNames(utf8: Utf8, disk: Disk, entries: seq<NameEntry>)
    requires Lawful(utf8) && AllStorable(utf8, entries)
    requires Appendable(utf8, disk.namesLog)
    ensures var next := disk.(namesLog := disk.namesLog + EncodeAll(entries, NameEncoder(utf8)));
            NamesOn(utf8, next) == ReplayNames(NamesOn(utf8, disk), entries) && Appendable(utf8, next.namesLog)
  {
    hide NamesBase, ReplayNames, Lawful, AllStorable, EncodeAll, NamesLog;
    var bytes := EncodeAll(entries, NameEncoder(utf8));
    var log := disk.namesLog;
    NamesLogRoundTripIff(utf8, entries);
    assert NamesLog(utf8, log + bytes) == NamesLog(utf8, log) + entries;
    ReplayNamesAppend(NamesBase(utf8, disk), NamesLog(utf8, log), entries);
    NamesBaseIsSnapshot(utf8, disk, log + bytes);
    hide Appendable;
    AppendableIff(utf8, log, bytes);
    WrittenIsAppendable(utf8, entries);
  }

  /**
   * An append of names that breaks off adds those it wrote in full. Appending them all again then
   * yields the right table, if it is read at all: exactly when the log broke off between two names.
   */
  lemma {:induction false} TornNames(utf8: Utf8, disk: Disk, entries: seq<NameEntry>, n: nat) returns (k: nat)
    requires Lawful(utf8) && AllStorable(utf8, entries) && Appendable(utf8, disk.namesLog)
    requires n <= |EncodeAll(entries, NameEncoder(utf8))|
    ensures var torn := disk.(namesLog := disk.namesLog + EncodeAll(entries, NameEncoder(utf8))[..n]);
            && k <= |entries| && NamesOn(utf8, torn) == ReplayNames(NamesOn(utf8, disk), entries[..k])
            && ReplayNames(NamesOn(utf8, torn), entries) == ReplayNames(NamesOn(utf8, disk), entries)
            && (Appendable(utf8, torn.namesLog) <==> AtBoundary(utf8, entries, n))
  {
    hide NamesBase, ReplayNames, Lawful, AllStorable, EncodeAll, NamesLog, AtBoundary;
    var bytes := EncodeAll(entries, NameEncoder(utf8))[..n];
    k := TornNamesLog(utf8, entries, n);
    assert NamesLog(utf8, disk.namesLog + bytes) == NamesLog(utf8, disk.namesLog) + NamesLog(utf8, bytes);
    ReplayNamesAppend(NamesBase(utf8, disk), NamesLog(utf8, disk.namesLog), entries[..k]);
    NamesBaseIsSnapshot(utf8, disk, disk.namesLog + bytes);
    RetriedNames(NamesOn(utf8, disk), entries, k);
    hide Appendable;
    AppendableIff(utf8, disk.namesLog, bytes);
    TornIsAppendableIff(utf8, entries, n);
  }

  lemma {:induction false} NamesBaseIsSnapshot(utf8: Utf8, disk: Disk, log: Bytes)
    ensures NamesBase(utf8, disk.(namesLog := log)) == NamesBase(utf8, disk)
  {
  }

  // ---------------------------------------------------------------- compaction

  ghost predicate ShortRows(table: PerfTable) {
    forall slot :: slot in table ==> |table[slot]| < 256
  }

  lemma {:induction false} ManyAreShort(buf: Bytes, count: nat)
    ensures forall row :: row in ReadMany(buf, count, ReadPerfRow).0 ==> |row.1| < 256
    decreases count
  {
    hide ReadPerfRow;
    if count > 0 {
      ReadRowIsShort(buf);
      ManyAreShort(ReadPerfRow(buf).rest, count - 1);
    }
  }

  lemma {:induction false} ShortTable(table: PerfTable, environment: Environment, rows: seq<PerfRow>)
    requires ShortRows(table) && forall row :: row in rows ==> |row.1| < 256
    ensures ShortRows(WithRows(table, environment, rows))
  {
    if rows != [] {
      ShortTable(table, environment, rows[..|rows| - 1]);
    }
  }

  lemma {:induction false} ShortReplay(table: PerfTable, log: seq<PerfEntry>)
    requires ShortRows(table)
    ensures ShortRows(ReplayPerf(table, log))
  {
    if log != [] {
      hide Samples.Top;
      ShortReplay(table, log[..|log| - 1]);
      var last := log[|log| - 1];
      Samples.TopIsSorted(PerfAt(ReplayPerf(table, log[..|log| - 1]), last.slot) + [last.sample]);
    }
  }

  /** Whatever is on disk, no loaded record has more samples than a snapshot row can count. */
  lemma {:induction false} LoadedIsShort(disk: Disk)
    ensures ShortRows(PerfOn(disk))
  {
    hide ReadMany, WithRows, ShortRows, ReadPerfRow, FromLe, ReplayPerf;
    var body := Unsealed(disk.perfBin, PERF_MAGIC);
    NothingIsShort();
    if body.None? {
      ShortTable(map[], LocalEnvironment, []);
      ShortTable(WithRows(map[], LocalEnvironment, []), RemoteEnvironment, []);
    } else {
      SectionIsShort(body.value);
      SectionIsShort(ReadSection(body.value, ReadPerfRow).1);
      var rows := ReadTwo(disk.perfBin, PERF_MAGIC, ReadPerfRow);
      ShortTable(map[], LocalEnvironment, rows.0);
      ShortTable(WithRows(map[], LocalEnvironment, rows.0), RemoteEnvironment, rows.1);
    }
    ShortReplay(PerfBase(disk), PerfLog(disk.perfLog));
  }

  lemma {:induction false} NothingIsShort()
    ensures ShortRows(map[])
  {
  }

  lemma {:induction false} SectionIsShort(buf: Bytes)
    ensures forall row :: row in ReadSection(buf, ReadPerfRow).0 ==> |row.1| < 256
  {
    hide ReadMany, ReadPerfRow, FromLe;
    var count := ReadExact(buf, 4);
    if count.value.Some? {
      ManyAreShort(count.rest, FromLe(count.value.value));
    }
  }

  /** Replacing the perf snapshot by the loaded table, rows in any order, and emptying the log changes nothing. */
  lemma {:induction false} CompactPerf(disk: Disk, local: seq<PerfRow>, remote: seq<PerfRow>)
    requires Lists(local, LocalEnvironment, PerfOn(disk)) && Lists(remote, RemoteEnvironment, PerfOn(disk))
    requires |local| < 0x1_0000_0000 && |remote| < 0x1_0000_0000
    ensures PerfOn(disk.(perfBin := EncodeTwo(PERF_MAGIC, local, remote, EncodePerfRow), perfLog := [])) == PerfOn(disk)
  {
    hide EncodePerfRow, ReadPerfRow, EncodeTwo, ReadTwo, TableOf, TakesBack, PerfLog, ReplayPerf;
    LoadedIsShort(disk);
    RowsAreShort(local, LocalEnvironment, PerfOn(disk));
    RowsAreShort(remote, RemoteEnvironment, PerfOn(disk));
    TwoRoundTrip(PERF_MAGIC, local, remote, EncodePerfRow, ReadPerfRow);
    ListingIsTable(local, remote, PerfOn(disk));
    ReplayNoPerf(TableOf(local, remote));
  }

  lemma {:induction false} ReplayNoPerf(table: PerfTable)
    ensures PerfLog([]) == [] && ReplayPerf(table, []) == table
  {
  }

  lemma {:induction false} RowsAreShort(rows: seq<PerfRow>, environment: Environment, table: PerfTable)
    requires Lists(rows, environment, table) && ShortRows(table)
    ensures forall row :: row in rows ==> TakesBack(ReadPerfRow, EncodePerfRow, row)
  {
    hide TakesBack;
    forall row | row in rows
      ensures TakesBack(ReadPerfRow, EncodePerfRow, row)
    {
      PerfRowTakesBack(row);
    }
  }

  ghost predicate FlakesFit(table: FlakeTable) {
    forall slot :: slot in table ==> FlakeFits(table[slot])
  }

  function StoredTable(table: FlakeTable): FlakeTable {
    map slot | slot in table :: Stored(table[slot])
  }

  lemma {:induction false} StoredTableIff(table: FlakeTable)
    ensures StoredTable(table) == table <==> FlakesFit(table)
  {
    if StoredTable(table) == table {
      forall slot | slot in table
        ensures FlakeFits(table[slot])
      {
        assert StoredTable(table)[slot] == table[slot];
      }
    }
  }

  function StoredRows(rows: seq<FlakeRow>): (stored: seq<FlakeRow>)
    ensures |stored| == |rows| && forall i :: 0 <= i < |rows| ==> stored[i] == (rows[i].0, Stored(rows[i].1))
  {
    seq(|rows|, i requires 0 <= i < |rows| => (rows[i].0, Stored(rows[i].1)))
  }

  lemma {:induction false} StoredRowsList(rows: seq<FlakeRow>, environment: Environment, table: FlakeTable)
    requires Lists(rows, environment, table)
    ensures Lists(StoredRows(rows), environment, StoredTable(table))
    ensures forall i :: 0 <= i < |rows| ==> ReadsAs(ReadFlakeRow, EncodeFlakeRow, rows[i], StoredRows(rows)[i])
  {
    hide Stored, ReadsAs;
    forall i | 0 <= i < |rows|
      ensures ReadsAs(ReadFlakeRow, EncodeFlakeRow, rows[i], StoredRows(rows)[i])
    {
      FlakeRowReadsAs(rows[i]);
    }
    forall slot | slot in StoredTable(table) && slot.environment == environment
      ensures exists i :: 0 <= i < |rows| && StoredRows(rows)[i].0 == slot.key
    {
      var i :| 0 <= i < |rows| && rows[i].0 == slot.key;
      assert StoredRows(rows)[i].0 == slot.key;
    }
  }

  /** A compacted flake snapshot means what its rows keep of the table, whatever their order. */
  lemma {:induction false} CompactFlakeMeans(disk: Disk, local: seq<FlakeRow>, remote: seq<FlakeRow>)
    requires Lists(local, LocalEnvironment, FlakeOn(disk)) && Lists(remote, RemoteEnvironment, FlakeOn(disk))
    requires |local| < 0x1_0000_0000 && |remote| < 0x1_0000_0000
    ensures FlakeOn(disk.(flakeBin := EncodeTwo(FLAKE_MAGIC, local, remote, EncodeFlakeRow), flakeLog := []))
            == StoredTable(FlakeOn(disk))
  {
    hide EncodeFlakeRow, ReadFlakeRow, EncodeTwo, ReadTwo, TableOf;
    hide ReadsAs, FlakeLog, ReplayFlake, StoredRows, Lists, StoredTable;
    StoredRowsList(local, LocalEnvironment, FlakeOn(disk));
    StoredRowsList(remote, RemoteEnvironment, FlakeOn(disk));
    TwoAs(FLAKE_MAGIC, local, remote, StoredRows(local), StoredRows(remote), EncodeFlakeRow, ReadFlakeRow);
    ListingIsTable(StoredRows(local), StoredRows(remote), StoredTable(FlakeOn(disk)));
    ReplayNoFlake(StoredTable(FlakeOn(disk)));
  }

  /** The flake snapshot keeps the table exactly when every counter and time fits its field. */
  lemma {:induction false} CompactFlake(disk: Disk, local: seq<FlakeRow>, remote: seq<FlakeRow>)
    requires Lists(local, LocalEnvironment, FlakeOn(disk)) && Lists(remote, RemoteEnvironment, FlakeOn(disk))
    requires |local| < 0x1_0000_0000 && |remote| < 0x1_0000_0000
    ensures FlakeOn(disk.(flakeBin := EncodeTwo(FLAKE_MAGIC, local, remote, EncodeFlakeRow), flakeLog := []))
            == FlakeOn(disk)
            <==> FlakesFit(FlakeOn(disk))
  {
    hide EncodeTwo, FlakeOn, Lists, StoredTable, FlakesFit;
    CompactFlakeMeans(disk, local, remote);
    StoredTableIff(FlakeOn(disk));
  }

  lemma {:induction false} ReplayNoFlake(table: FlakeTable)
    ensures FlakeLog([]) == [] && ReplayFlake(table, []) == table
  {
  }

  function EncodeNames(utf8: Utf8, rows: seq<NameEntry>): Bytes {
    NAMES_MAGIC + EncodeSection(rows, NameEncoder(utf8))
  }

  /** The entries list the table, each key once, in any order. */
  ghost predicate ListsNames(rows: seq<NameEntry>, table: NameTable) {
    && (forall i, j :: 0 <= i < j < |rows| ==> rows[i].key != rows[j].key)
    && (forall i :: 0 <= i < |rows| ==> rows[i].key in table && table[rows[i].key] == rows[i].identity)
    && (forall key :: key in table ==> exists i :: 0 <= i < |rows| && rows[i].key == key)
  }

  lemma {:induction false} NameRowsAreIn(rows: seq<NameEntry>, key: U64)
    requires forall i, j :: 0 <= i < j < |rows| ==> rows[i].key != rows[j].key
    ensures key in ReplayNames(map[], rows) <==> exists i :: 0 <= i < |rows| && rows[i].key == key
    ensures forall i :: 0 <= i < |rows| && rows[i].key == key ==> ReplayNames(map[], rows)[key] == rows[i].identity
  {
    if rows != [] {
      NameRowsAreIn(rows[..|rows| - 1], key);
    }
  }

  lemma {:induction false} NameListingIsTable(rows: seq<NameEntry>, table: NameTable)
    requires ListsNames(rows, table)
    ensures ReplayNames(map[], rows) == table
  {
    hide ReplayNames;
    forall key: U64
      ensures key in ReplayNames(map[], rows) <==> key in table
      ensures key in table ==> ReplayNames(map[], rows)[key] == table[key]
    {
      NameRowsAreIn(rows, key);
    }
  }

  ghost predicate NamesStorable(utf8: Utf8, table: NameTable) {
    forall key :: key in table ==> Storable(utf8, table[key])
  }

  lemma {:induction false} ReplayKeepsStorable(utf8: Utf8, table: NameTable, log: seq<NameEntry>)
    requires NamesStorable(utf8, table) && AllStorable(utf8, log)
    ensures NamesStorable(utf8, ReplayNames(table, log))
  {
    hide Storable;
    if log != [] {
      assert log == log[..|log| - 1] + [log[|log| - 1]];
      ReplayKeepsStorable(utf8, table, log[..|log| - 1]);
    }
  }

  lemma {:induction false} ManyAreStorable(utf8: Utf8, buf: Bytes, count: nat)
    requires Lawful(utf8)
    ensures AllStorable(utf8, ReadMany(buf, count, NameReader(utf8)).0)
    decreases count
  {
    hide ReadIdentity, Storable, Lawful;
    if count > 0 {
      var first := ReadName(utf8, buf);
      ManyAreStorable(utf8, first.rest, count - 1);
      if first.value.Some? {
        ReadIsStorable(utf8, ReadExact(buf, 8).rest);
      }
    }
  }

  /** Whatever is on disk, every name that loads can be stored again. */
  lemma {:induction false} LoadedIsStorable(utf8: Utf8, disk: Disk)
    requires Lawful(utf8)
    ensures NamesStorable(utf8, NamesOn(utf8, disk))
  {
    hide ReadMany, NamesLog, Storable, FromLe, Lawful, ReplayNames;
    var rows := NamesIn(utf8, disk.namesBin);
    var body := Unsealed(disk.namesBin, NAMES_MAGIC);
    if body.Some? {
      var count := ReadExact(body.value, 4);
      if count.value.Some? {
        ManyAreStorable(utf8, count.rest, FromLe(count.value.value));
      }
    }
    assert AllStorable(utf8, rows);
    ReplayKeepsStorable(utf8, map[], rows);
    NamesLogIsStorable(utf8, disk.namesLog);
    ReplayKeepsStorable(utf8, NamesBase(utf8, disk), NamesLog(utf8, disk.namesLog));
  }

  lemma {:induction false} CompactNames(utf8: Utf8, disk: Disk, rows: seq<NameEntry>)
    requires Lawful(utf8)
    requires ListsNames(rows, NamesOn(utf8, disk)) && |rows| < 0x1_0000_0000
    ensures NamesOn(utf8, disk.(namesBin := EncodeNames(utf8, rows), namesLog := [])) == NamesOn(utf8, disk)
  {
    hide ReadSection, EncodeSection, ReadsAs, NamesLog, ReplayNames, Lawful, Storable, EncodeName, ReadName;
    LoadedIsStorable(utf8, disk);
    forall i | 0 <= i < |rows|
      ensures ReadsAs(NameReader(utf8), NameEncoder(utf8), rows[i], rows[i])
    {
      NameTakesBack(utf8, rows[i]);
    }
    var body := EncodeSection(rows, NameEncoder(utf8));
    assert EncodeNames(utf8, rows)[4..] == body && EncodeNames(utf8, rows)[..4] == NAMES_MAGIC;
    assert body + [] == body;
    SectionAs(rows, rows, NameEncoder(utf8), NameReader(utf8), []);
    NameListingIsTable(rows, NamesOn(utf8, disk));
    EmptyNamesLog(utf8);
    ReplayNoNames(NamesOn(utf8, disk));
  }

  lemma {:induction false} ReplayNoNames(table: NameTable)
    ensures ReplayNames(table, []) == table
  {
  }

  /** Compacting first and appending later loads like appending to the uncompacted log. */
  lemma {:induction false} CompactThenAppendPerf(
      disk: Disk, local: seq<PerfRow>, remote: seq<PerfRow>, entries: seq<PerfEntry>)
    requires Lists(local, LocalEnvironment, PerfOn(disk)) && Lists(remote, RemoteEnvironment, PerfOn(disk))
    requires |local| < 0x1_0000_0000 && |remote| < 0x1_0000_0000
    requires Whole(|disk.perfLog|, PERF_SIZE)
    ensures var more := EncodeAll(entries, EncodePerf);
            PerfOn(disk.(perfBin := EncodeTwo(PERF_MAGIC, local, remote, EncodePerfRow), perfLog := more))
            == PerfOn(disk.(perfLog := disk.perfLog + more))
  {
    hide PerfOn, EncodeAll, EncodeTwo, Lists, ReplayPerf;
    var more := EncodeAll(entries, EncodePerf);
    var compacted := disk.(perfBin := EncodeTwo(PERF_MAGIC, local, remote, EncodePerfRow), perfLog := []);
    CompactPerf(disk, local, remote);
    AppendPerf(disk, entries);
    AppendPerf(compacted, entries);
    assert [] + more == more;
    assert compacted.(perfLog := [] + more) == disk.(perfBin := compacted.perfBin, perfLog := more);
  }

  /** The same for flakes, on top of what the rows keep, and so of everything when everything fits. */
  lemma {:induction false} CompactThenAppendFlake(
      disk: Disk, local: seq<FlakeRow>, remote: seq<FlakeRow>, entries: seq<FlakeEntry>)
    requires Lists(local, LocalEnvironment, FlakeOn(disk)) && Lists(remote, RemoteEnvironment, FlakeOn(disk))
    requires |local| < 0x1_0000_0000 && |remote| < 0x1_0000_0000
    requires Whole(|disk.flakeLog|, FLAKE_SIZE)
    ensures var more := EncodeAll(entries, EncodeFlake);
            var bin := EncodeTwo(FLAKE_MAGIC, local, remote, EncodeFlakeRow);
            var loaded := FlakeOn(disk.(flakeBin := bin, flakeLog := more));
            && loaded == ReplayFlake(StoredTable(FlakeOn(disk)), entries)
            && (FlakesFit(FlakeOn(disk)) ==> loaded == FlakeOn(disk.(flakeLog := disk.flakeLog + more)))
  {
    hide FlakeOn, EncodeAll, EncodeTwo, Lists, ReplayFlake, StoredTable, FlakesFit;
    var more := EncodeAll(entries, EncodeFlake);
    var compacted := disk.(flakeBin := EncodeTwo(FLAKE_MAGIC, local, remote, EncodeFlakeRow), flakeLog := []);
    CompactFlakeMeans(disk, local, remote);
    StoredTableIff(FlakeOn(disk));
    AppendFlake(disk, entries);
    AppendFlake(compacted, entries);
    assert [] + more == more;
    assert compacted.(flakeLog := [] + more) == disk.(flakeBin := compacted.flakeBin, flakeLog := more);
  }

  /** The same for names. */
  lemma {:induction false} CompactThenAppendNames(
      utf8: Utf8, disk: Disk, rows: seq<NameEntry>, entries: seq<NameEntry>)
    requires Lawful(utf8) && AllStorable(utf8, entries)
    requires ListsNames(rows, NamesOn(utf8, disk)) && |rows| < 0x1_0000_0000
    requires Appendable(utf8, disk.namesLog)
    ensures var more := EncodeAll(entries, NameEncoder(utf8));
            NamesOn(utf8, disk.(namesBin := EncodeNames(utf8, rows), namesLog := more))
            == NamesOn(utf8, disk.(namesLog := disk.namesLog + more))
  {
    hide NamesOn, EncodeAll, EncodeNames, ListsNames, ReplayNames, Appendable, Lawful, AllStorable;
    var more := EncodeAll(entries, NameEncoder(utf8));
    var compacted := disk.(namesBin := EncodeNames(utf8, rows), namesLog := []);
    CompactNames(utf8, disk, rows);
    AppendNames(utf8, disk, entries);
    EmptyIsAppendable(utf8);
    AppendNames(utf8, compacted, entries);
    assert [] + more == more;
    assert compacted.(namesLog := [] + more) == disk.(namesBin := compacted.namesBin, namesLog := more);
  }

  // ---------------------------------------------------------------- parallel appends

  /** Over any snapshot and log, interleaved appends of parallel runs load to the same perf table. */
  lemma {:induction false} DiskPerfIgnoresOrder(disk: Disk, a: seq<PerfEntry>, b: seq<PerfEntry>)
    requires Whole(|disk.perfLog|, PERF_SIZE)
    requires multiset(a) == multiset(b)
    ensures PerfOn(disk.(perfLog := disk.perfLog + EncodeAll(a, EncodePerf)))
            == PerfOn(disk.(perfLog := disk.perfLog + EncodeAll(b, EncodePerf)))
  {
    hide PerfOn, EncodeAll, ReplayPerf;
    AppendPerf(disk, a);
    AppendPerf(disk, b);
    PerfIgnoresOrder(PerfOn(disk), a, b);
  }

  function FlakeAppended(disk: Disk, entries: seq<FlakeEntry>): FlakeTable {
    FlakeOn(disk.(flakeLog := disk.flakeLog + EncodeAll(entries, EncodeFlake)))
  }

  /** And to a flake table with the same counts and times, and the same altogether exactly when no tie shows. */
  lemma {:induction false} DiskFlakeOrderIsHiddenIff(disk: Disk, a: seq<FlakeEntry>)
    requires Whole(|disk.flakeLog|, FLAKE_SIZE)
    ensures forall b, slot: Slot {:trigger FlakeAt(FlakeAppended(disk, b), slot)} :: multiset(b) == multiset(a) ==>
              var x, y := FlakeAt(FlakeAppended(disk, a), slot), FlakeAt(FlakeAppended(disk, b), slot);
              x.runs == y.runs && x.failures == y.failures && x.lastTimestamp == y.lastTimestamp
    ensures (forall b {:trigger FlakeAppended(disk, b)} :: multiset(b) == multiset(a) ==>
            FlakeAppended(disk, b) == FlakeAppended(disk, a))
            <==> TiesAgree(FlakeOn(disk), a)
  {
    hide FlakeOn, EncodeAll, ReplayFlake, TiesAgree;
    forall b
      ensures FlakeAppended(disk, b) == ReplayFlake(FlakeOn(disk), b)
    {
      AppendFlake(disk, b);
    }
    FlakeOrderIsHiddenIff(FlakeOn(disk), a);
    if TiesAgree(FlakeOn(disk), a) {
      forall b | multiset(b) == multiset(a)
        ensures FlakeAppended(disk, b) == FlakeAppended(disk, a)
      {
        assert ReplayFlake(FlakeOn(disk), b) == ReplayFlake(FlakeOn(disk), a);
      }
    } else {
      var b :| multiset(b) == multiset(a) && ReplayFlake(FlakeOn(disk), b) != ReplayFlake(FlakeOn(disk), a);
      assert FlakeAppended(disk, b) != FlakeAppended(disk, a);
    }
    forall b, slot: Slot | multiset(b) == multiset(a)
      ensures var x, y := FlakeAt(FlakeAppended(disk, a), slot), FlakeAt(FlakeAppended(disk, b), slot);
              x.runs == y.runs && x.failures == y.failures && x.lastTimestamp == y.lastTimestamp
    {
      FlakeOrderKeepsCounts(FlakeOn(disk), a, b, slot);
    }
  }

  // ---------------------------------------------------------------- a snapshot renamed, its log not yet emptied

  lemma {:induction false} UntruncatedPerf(disk: Disk, local: seq<PerfRow>, remote: seq<PerfRow>)
    requires Lists(local, LocalEnvironment, PerfOn(disk)) && Lists(remote, RemoteEnvironment, PerfOn(disk))
    requires |local| < 0x1_0000_0000 && |remote| < 0x1_0000_0000
    ensures PerfOn(disk.(perfBin := EncodeTwo(PERF_MAGIC, local, remote, EncodePerfRow)))
            == ReplayPerf(PerfOn(disk), PerfLog(disk.perfLog))
  {
    hide PerfLog, ReplayPerf, PerfBase, EncodeTwo, Lists;
    var bin := EncodeTwo(PERF_MAGIC, local, remote, EncodePerfRow);
    CompactPerf(disk, local, remote);
    var compacted := disk.(perfBin := bin, perfLog := []);
    ReplayNoPerf(PerfBase(compacted));
    PerfBaseIsSnapshot(compacted, disk.perfLog);
    assert compacted.(perfLog := disk.perfLog) == disk.(perfBin := bin);
  }

  /**
   * After a failed truncation the directory loads as it should exactly when every sample still in
   * the log is at the lower end of a full record.
   */
  lemma {:induction false} UntruncatedPerfIff(disk: Disk, local: seq<PerfRow>, remote: seq<PerfRow>)
    requires Lists(local, LocalEnvironment, PerfOn(disk)) && Lists(remote, RemoteEnvironment, PerfOn(disk))
    requires |local| < 0x1_0000_0000 && |remote| < 0x1_0000_0000
    ensures PerfOn(disk.(perfBin := EncodeTwo(PERF_MAGIC, local, remote, EncodePerfRow))) == PerfOn(disk)
            <==> AllBelow(PerfOn(disk), PerfLog(disk.perfLog))
  {
    hide PerfLog, ReplayPerf, PerfBase, EncodeTwo, Lists, AllBelow;
    UntruncatedPerf(disk, local, remote);
    PerfReplayAgainIff(PerfBase(disk), PerfLog(disk.perfLog));
  }

  lemma {:induction false} UntruncatedFlake(disk: Disk, local: seq<FlakeRow>, remote: seq<FlakeRow>)
    requires Lists(local, LocalEnvironment, FlakeOn(disk)) && Lists(remote, RemoteEnvironment, FlakeOn(disk))
    requires |local| < 0x1_0000_0000 && |remote| < 0x1_0000_0000
    ensures FlakeOn(disk.(flakeBin := EncodeTwo(FLAKE_MAGIC, local, remote, EncodeFlakeRow)))
            == ReplayFlake(StoredTable(FlakeOn(disk)), FlakeLog(disk.flakeLog))
  {
    hide FlakeLog, ReplayFlake, FlakeBase, EncodeTwo, Lists, StoredTable;
    var bin := EncodeTwo(FLAKE_MAGIC, local, remote, EncodeFlakeRow);
    CompactFlakeMeans(disk, local, remote);
    var compacted := disk.(flakeBin := bin, flakeLog := []);
    ReplayNoFlake(FlakeBase(compacted));
    FlakeBaseIsSnapshot(compacted, disk.flakeLog);
    assert compacted.(flakeLog := disk.flakeLog) == disk.(flakeBin := bin);
  }

  /** After a failed truncation every run still in the log counts twice, so it must hold none. */
  lemma {:induction false} UntruncatedFlakeIff(disk: Disk, local: seq<FlakeRow>, remote: seq<FlakeRow>)
    requires Lists(local, LocalEnvironment, FlakeOn(disk)) && Lists(remote, RemoteEnvironment, FlakeOn(disk))
    requires |local| < 0x1_0000_0000 && |remote| < 0x1_0000_0000
    requires FlakesFit(FlakeOn(disk))
    ensures FlakeOn(disk.(flakeBin := EncodeTwo(FLAKE_MAGIC, local, remote, EncodeFlakeRow))) == FlakeOn(disk)
            <==> FlakeLog(disk.flakeLog) == []
  {
    hide FlakeLog, ReplayFlake, FlakeOn, EncodeTwo, Lists, StoredTable, FlakesFit;
    UntruncatedFlake(disk, local, remote);
    StoredTableIff(FlakeOn(disk));
    FlakeReplayAgainIff(FlakeOn(disk), FlakeLog(disk.flakeLog));
  }

  lemma {:induction false} UntruncatedNames(utf8: Utf8, disk: Disk, rows: seq<NameEntry>)
    requires Lawful(utf8)
    requires ListsNames(rows, NamesOn(utf8, disk)) && |rows| < 0x1_0000_0000
    ensures NamesOn(utf8, disk.(namesBin := EncodeNames(utf8, rows))) == NamesOn(utf8, disk)
  {
    hide NamesLog, ReplayNames, NamesBase, EncodeNames, ListsNames, Lawful;
    var bin := EncodeNames(utf8, rows);
    CompactNames(utf8, disk, rows);
    var compacted := disk.(namesBin := bin, namesLog := []);
    EmptyNamesLog(utf8);
    ReplayNoNames(NamesBase(utf8, compacted));
    NamesBaseIsSnapshot(utf8, compacted, disk.namesLog);
    assert compacted.(namesLog := disk.namesLog) == disk.(namesBin := bin);
    NamesReplayAgain(NamesBase(utf8, disk), NamesLog(utf8, disk.namesLog));
  }

  // ---------------------------------------------------------------- a failed append, tried again

  /** When k whole runs got out and all are appended again, the log loads as if appended once exactly when k is zero. */
  lemma {:induction false} RetriedFlakeAppendIff(disk: Disk, entries: seq<FlakeEntry>, k: nat)
    requires Whole(|disk.flakeLog|, FLAKE_SIZE) && k <= |entries|
    ensures var torn := disk.flakeLog + EncodeAll(entries[..k], EncodeFlake);
            FlakeOn(disk.(flakeLog := torn + EncodeAll(entries, EncodeFlake)))
            == FlakeOn(disk.(flakeLog := disk.flakeLog + EncodeAll(entries, EncodeFlake)))
            <==> k == 0
  {
    hide FlakeOn, EncodeAll, ReplayFlake, Whole;
    AppendFlake(disk, entries[..k]);
    AppendFlake(disk.(flakeLog := disk.flakeLog + EncodeAll(entries[..k], EncodeFlake)), entries);
    AppendFlake(disk, entries);
    RetriedFlakeIff(FlakeOn(disk), entries, k);
  }

  /** For samples it does exactly when a second copy of each of the k would be at the lower end of a full record. */
  lemma {:induction false} RetriedPerfAppendIff(disk: Disk, entries: seq<PerfEntry>, k: nat)
    requires Whole(|disk.perfLog|, PERF_SIZE) && k <= |entries|
    ensures var torn := disk.perfLog + EncodeAll(entries[..k], EncodePerf);
            var once := PerfOn(disk.(perfLog := disk.perfLog + EncodeAll(entries, EncodePerf)));
            PerfOn(disk.(perfLog := torn + EncodeAll(entries, EncodePerf))) == once <==> AllBelow(once, entries[..k])
  {
    hide PerfOn, EncodeAll, ReplayPerf, Whole, AllBelow;
    AppendPerf(disk, entries[..k]);
    AppendPerf(disk.(perfLog := disk.perfLog + EncodeAll(entries[..k], EncodePerf)), entries);
    AppendPerf(disk, entries);
    RetriedPerfIff(PerfOn(disk), entries, k);
  }

  // ---------------------------------------------------------------- concrete inputs

  const EMPTY_DISK: Disk := Disk([], [], [], [], [], [])

  lemma {:induction false} NothingOnDisk()
    ensures PerfOn(EMPTY_DISK) == map[] && FlakeOn(EMPTY_DISK) == map[]
    ensures Whole(|EMPTY_DISK.perfLog|, PERF_SIZE) && Whole(|EMPTY_DISK.flakeLog|, FLAKE_SIZE)
  {
    assert PerfLog([]) == [] && FlakeLog([]) == [];
  }

  lemma {:induction false} OneRowLists<V>(row: (U64, V), table: map<Slot, V>)
    requires table == map[Slot(LocalEnvironment, row.0) := row.1]
    ensures Lists([row], LocalEnvironment, table) && Lists([], RemoteEnvironment, table)
  {
    forall slot | slot in table
      ensures exists i :: 0 <= i < |[row]| && [row][i].0 == slot.key
    {
      assert [row][0].0 == slot.key;
    }
  }

  /** A failure at the sentinel time comes back as a record with a class and no time. */
  lemma {:induction false} SentinelTimeIsLost(key: U64)
    ensures DecodeFlakeRow(EncodeFlakeRow((key, Flakes.FlakeRecord(1, 1, Some(U64_MAX), Some(ClassFail)))))
            == (key, Flakes.FlakeRecord(1, 1, None, Some(ClassFail)))
  {
    hide EncodeFlakeRow, DecodeFlakeRow;
    FlakeRowStores((key, Flakes.FlakeRecord(1, 1, Some(U64_MAX), Some(ClassFail))));
  }

  /** One run in the log, a renamed snapshot that contains it, and no truncation: the run counts twice. */
  lemma {:induction false} UntruncatedRunCountsTwice(key: U64, timestamp: U64)
    requires timestamp != U64_MAX
    ensures var slot := Slot(LocalEnvironment, key);
            var entry := FlakeEntry(slot, Flakes.RunEntry(true, Some(ClassFail), timestamp));
            var row: FlakeRow := (key, Flakes.FlakeRecord(1, 1, Some(timestamp), Some(ClassFail)));
            var disk := EMPTY_DISK.(flakeLog := EncodeAll([entry], EncodeFlake));
            && FlakeAt(FlakeOn(disk), slot).failures == 1
            && FlakeAt(FlakeOn(disk.(flakeBin := EncodeTwo(FLAKE_MAGIC, [row], [], EncodeFlakeRow))), slot).failures
                 == 2
  {
    hide FlakeOn, EncodeAll, EncodeTwo, EncodeFlake, FlakeLog;
    var slot := Slot(LocalEnvironment, key);
    var entry := FlakeEntry(slot, Flakes.RunEntry(true, Some(ClassFail), timestamp));
    var row: FlakeRow := (key, Flakes.FlakeRecord(1, 1, Some(timestamp), Some(ClassFail)));
    var disk := EMPTY_DISK.(flakeLog := EncodeAll([entry], EncodeFlake));
    NothingOnDisk();
    AppendFlake(EMPTY_DISK, [entry]);
    assert [] + EncodeAll([entry], EncodeFlake) == EncodeAll([entry], EncodeFlake);
    assert [entry][..0] == [];
    var table := FlakeOn(disk);
    assert table == map[slot := row.1];
    OneRowLists(row, table);
    UntruncatedFlake(disk, [row], []);
    StoredTableIff(table);
    FlakeLogRoundTrip([entry], []);
    assert disk.flakeLog + [] == disk.flakeLog;
  }

  /** One run that got out although its append failed, and is appended again: it counts twice. */
  lemma {:induction false} RetriedRunCountsTwice(key: U64, timestamp: U64)
    ensures var slot := Slot(LocalEnvironment, key);
            var bytes := EncodeAll([FlakeEntry(slot, Flakes.RunEntry(true, Some(ClassFail), timestamp))], EncodeFlake);
            && FlakeAt(FlakeOn(EMPTY_DISK.(flakeLog := bytes)), slot).failures == 1
            && FlakeAt(FlakeOn(EMPTY_DISK.(flakeLog := bytes + bytes)), slot).failures == 2
  {
    hide FlakeOn, EncodeAll, EncodeFlake;
    var slot := Slot(LocalEnvironment, key);
    var entry := FlakeEntry(slot, Flakes.RunEntry(true, Some(ClassFail), timestamp));
    var bytes := EncodeAll([entry], EncodeFlake);
    NothingOnDisk();
    AppendFlake(EMPTY_DISK, [entry]);
    assert [] + bytes == bytes && [entry][..0] == [];
    AppendFlake(EMPTY_DISK.(flakeLog := bytes), [entry]);
    var once := Flakes.FlakeRecord(1, 1, Some(timestamp), Some(ClassFail));
    assert FlakeOn(EMPTY_DISK.(flakeLog := bytes)) == map[slot := once];
  }

  /** One sample in the old log of a renamed snapshot: the record then holds it twice. */
  lemma {:induction false} UntruncatedSampleIsDoubled(key: U64, sample: Samples.Sample)
    ensures var slot := Slot(LocalEnvironment, key);
            var row: PerfRow := (key, [sample]);
            var disk := EMPTY_DISK.(perfLog := EncodeAll([PerfEntry(slot, sample)], EncodePerf));
            && PerfAt(PerfOn(disk), slot) == [sample]
            && PerfAt(PerfOn(disk.(perfBin := EncodeTwo(PERF_MAGIC, [row], [], EncodePerfRow))), slot)
                 == [sample, sample]
  {
    hide PerfOn, EncodeAll, EncodeTwo, EncodePerf, PerfLog;
    var slot := Slot(LocalEnvironment, key);
    var entry := PerfEntry(slot, sample);
    var row: PerfRow := (key, [sample]);
    var disk := EMPTY_DISK.(perfLog := EncodeAll([entry], EncodePerf));
    NothingOnDisk();
    AppendPerf(EMPTY_DISK, [entry]);
    assert [] + EncodeAll([entry], EncodePerf) == EncodeAll([entry], EncodePerf);
    assert [entry][..0] == [];
    var table := PerfOn(disk);
    Samples.RecordTwice(sample);
    assert table == map[slot := [sample]];
    OneRowLists(row, table);
    UntruncatedPerf(disk, [row], []);
    PerfLogRoundTrip([entry], []);
    assert disk.perfLog + [] == disk.perfLog;
  }
}
