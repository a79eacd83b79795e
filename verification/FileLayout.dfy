/** Where everything stands in the files of the duration database, byte by byte. */
module FileLayout {
  import opened Results
  import opened ByteCodec
  import opened DbFormat
  import opened Snapshots
  import Flakes
  import Samples
  import Variants

  // ---------------------------------------------------------------- numbers

  /** The number stands at the offset, its lowest byte first. */
  ghost predicate NumberAt(bytes: Bytes, at: nat, width: nat, n: nat) {
    at + width <= |bytes| && forall i :: 0 <= i < width ==> bytes[at + i] == n / Pow256(i) % 256
  }

  lemma {:induction false} DivideTwice(n: nat, p: nat)
    requires p > 0
    ensures n / 256 / p == n / (256 * p)
  {
    var q, r := n / 256 / p, n / 256 % p;
    assert n / 256 == q * p + r;
    assert n == q * (256 * p) + (256 * r + n % 256);
    assert 256 * r + n % 256 < 256 * p;
    QuotientIs(n, 256 * p, q, 256 * r + n % 256);
  }

  lemma {:induction false} QuotientIs(n: nat, d: nat, q: nat, r: nat)
    requires d > 0 && r < d && n == q * d + r
    ensures n / d == q
  {
    RemainderIs(n, d, q, r);
    assert (n / d) * d == q * d;
    Multiples(n / d - q, d);
  }

  lemma {:induction false} Digits(n: nat, width: nat)
    ensures NumberAt(ToLe(n, width), 0, width, n)
  {
    if width > 0 {
      Digits(n / 256, width - 1);
      var bytes, rest := ToLe(n, width), ToLe(n / 256, width - 1);
      forall i | 0 <= i < width
        ensures bytes[i] == n / Pow256(i) % 256
      {
        if i > 0 {
          assert bytes[i] == rest[0 + (i - 1)] == n / 256 / Pow256(i - 1) % 256;
          DivideTwice(n, Pow256(i - 1));
        }
      }
    }
  }

  lemma {:induction false} Placed(before: Bytes, n: nat, width: nat, after: Bytes)
    ensures NumberAt(before + ToLe(n, width) + after, |before|, width, n)
  {
    Digits(n, width);
    var number := ToLe(n, width);
    forall i | 0 <= i < width
      ensures (before + number + after)[|before| + i] == n / Pow256(i) % 256
    {
      assert (before + number + after)[|before| + i] == number[0 + i];
    }
  }

  // ---------------------------------------------------------------- log records

  /** A perf record: environment, key, time, duration. */
  lemma {:induction false} PerfLayout(e: PerfEntry)
    ensures var bytes := EncodePerf(e);
            && |bytes| == 25
            && bytes[0] == (if e.slot.environment == LocalEnvironment then 0 else 1)
            && NumberAt(bytes, 1, 8, e.slot.key)
            && NumberAt(bytes, 9, 8, e.sample.timestamp)
            && NumberAt(bytes, 17, 8, e.sample.duration)
  {
    hide NumberAt, ToLe;
    var bytes, first := EncodePerf(e), [EnvironmentIndex(e.slot.environment)];
    var key, timestamp, duration := Le64(e.slot.key), Le64(e.sample.timestamp), Le64(e.sample.duration);
    Placed(first, e.slot.key, 8, timestamp + duration);
    Placed(first + key, e.sample.timestamp, 8, duration);
    Placed(first + key + timestamp, e.sample.duration, 8, []);
    assert bytes == first + key + (timestamp + duration);
    assert bytes == first + key + timestamp + duration + [];
  }

  /** The byte of a failure class: none, fail, fatal, timeout, infrastructure. */
  ghost predicate IsClass(byte: Byte, class_: Option<FailureClass>) {
    && (byte == 0 <==> class_ == None)
    && (byte == 1 <==> class_ == Some(ClassFail))
    && (byte == 2 <==> class_ == Some(ClassFatal))
    && (byte == 3 <==> class_ == Some(ClassTimeout))
    && (byte == 4 <==> class_ == Some(ClassInfra))
  }

  /** A flake record: environment, key, whether the run failed, class, time. */
  lemma {:induction false} FlakeLayout(e: FlakeEntry)
    ensures var bytes := EncodeFlake(e);
            && |bytes| == 19
            && bytes[0] == (if e.slot.environment == LocalEnvironment then 0 else 1)
            && NumberAt(bytes, 1, 8, e.slot.key)
            && bytes[9] == (if e.run.failed then 1 else 0)
            && IsClass(bytes[10], e.run.class_)
            && NumberAt(bytes, 11, 8, e.run.timestamp)
  {
    hide NumberAt, ToLe;
    var bytes, first := EncodeFlake(e), [EnvironmentIndex(e.slot.environment)];
    var key, timestamp := Le64(e.slot.key), Le64(e.run.timestamp);
    var middle := [if e.run.failed then 1 else 0] + [ClassCode(e.run.class_)];
    Placed(first, e.slot.key, 8, middle + timestamp);
    Placed(first + key + middle, e.run.timestamp, 8, []);
    assert bytes == first + key + (middle + timestamp);
    assert bytes == first + key + middle + timestamp + [];
  }

  /** A string: its length in bytes in four bytes, and these bytes. */
  lemma {:induction false} StringLayout(utf8: Utf8, s: string)
    ensures var bytes := EncodeString(utf8, s);
            NumberAt(bytes, 0, 4, |utf8.encode(s)|) && bytes[4..] == utf8.encode(s)
  {
    hide NumberAt, ToLe;
    Placed([], |utf8.encode(s)|, 4, utf8.encode(s));
    assert [] + ToLe(|utf8.encode(s)|, 4) == ToLe(|utf8.encode(s)|, 4);
  }

  /** A name: key, target, name and variant. */
  lemma {:induction false} NameLayout(utf8: Utf8, e: NameEntry)
    ensures var bytes := EncodeName(utf8, e);
            && NumberAt(bytes, 0, 8, e.key)
            && bytes[8..]
               == EncodeString(utf8, e.identity.target) + EncodeString(utf8, e.identity.name)
                  + EncodeString(utf8, Variants.Text(e.identity.variant))
  {
    hide NumberAt, ToLe, EncodeString;
    var text := EncodeIdentity(utf8, e.identity);
    Placed([], e.key, 8, text);
    assert [] + ToLe(e.key, 8) == ToLe(e.key, 8);
    assert EncodeName(utf8, e)[8..] == text;
  }

  // ---------------------------------------------------------------- snapshots

  lemma {:induction false} SamplesSize(samples: seq<Samples.Sample>)
    ensures |EncodeAll(samples, EncodeSample)| == 16 * |samples|
  {
    if samples != [] {
      SamplesSize(samples[1..]);
    }
  }

  lemma {:induction false} SampleAt(samples: seq<Samples.Sample>, i: nat)
    requires i < |samples|
    ensures 16 * i + 16 <= |EncodeAll(samples, EncodeSample)|
    ensures EncodeAll(samples, EncodeSample)[16 * i..16 * i + 16] == EncodeSample(samples[i])
  {
    hide EncodeSample;
    var bytes, first := EncodeAll(samples, EncodeSample), EncodeSample(samples[0]);
    SamplesSize(samples);
    SampleSize(samples[0]);
    assert bytes == first + EncodeAll(samples[1..], EncodeSample);
    if i > 0 {
      SampleAt(samples[1..], i - 1);
      assert bytes[16..] == EncodeAll(samples[1..], EncodeSample);
      assert bytes[16 * i..16 * i + 16] == bytes[16..][16 * (i - 1)..16 * (i - 1) + 16];
    }
  }

  lemma {:induction false} SampleSize(s: Samples.Sample)
    ensures |EncodeSample(s)| == 16
  {
  }

  /** A sample: time, duration. */
  lemma {:induction false} SampleLayout(s: Samples.Sample)
    ensures NumberAt(EncodeSample(s), 0, 8, s.timestamp) && NumberAt(EncodeSample(s), 8, 8, s.duration)
  {
    hide NumberAt, ToLe;
    Placed([], s.timestamp, 8, Le64(s.duration));
    Placed(Le64(s.timestamp), s.duration, 8, []);
    assert [] + Le64(s.timestamp) == Le64(s.timestamp);
    assert Le64(s.timestamp) + Le64(s.duration) + [] == EncodeSample(s);
  }

  /** A perf row: key, the number of samples in one byte, and the samples, 16 bytes each. */
  lemma {:induction false} PerfRowLayout(row: PerfRow, i: nat)
    requires i < |row.1|
    ensures var bytes := EncodePerfRow(row);
            && |bytes| == 9 + 16 * |row.1|
            && NumberAt(bytes, 0, 8, row.0)
            && bytes[8] == |row.1| % 256
            && bytes[9 + 16 * i..9 + 16 * i + 16] == EncodeSample(row.1[i])
  {
    hide NumberAt, ToLe, EncodeAll, EncodeSample;
    var bytes, count, samples := EncodePerfRow(row), [|row.1| % 256], EncodeAll(row.1, EncodeSample);
    Placed([], row.0, 8, count + samples);
    assert [] + Le64(row.0) == Le64(row.0);
    assert bytes == Le64(row.0) + (count + samples);
    SamplesSize(row.1);
    SampleAt(row.1, i);
    assert bytes[9..] == samples;
    assert bytes[9 + 16 * i..9 + 16 * i + 16] == bytes[9..][16 * i..16 * i + 16];
  }

  /** A flake row: key, runs, failures, time of the latest failure or the largest number, class. */
  lemma {:induction false} FlakeRowLayout(row: FlakeRow)
    ensures var bytes := EncodeFlakeRow(row);
            && |bytes| == 33
            && NumberAt(bytes, 0, 8, row.0)
            && NumberAt(bytes, 8, 8, row.1.runs)
            && NumberAt(bytes, 16, 8, row.1.failures)
            && NumberAt(
                 bytes, 24, 8,
                 if row.1.lastTimestamp.Some? then row.1.lastTimestamp.value else 18_446_744_073_709_551_615)
            && IsClass(bytes[32], row.1.lastClass)
  {
    hide NumberAt, ToLe;
    var bytes, key := EncodeFlakeRow(row), Le64(row.0);
    var time: U64 := if row.1.lastTimestamp.Some? then row.1.lastTimestamp.value else U64_MAX;
    var runs, failures, timestamp := ToLe(row.1.runs, 8), ToLe(row.1.failures, 8), Le64(time);
    var class_ := [ClassCode(row.1.lastClass)];
    Placed([], row.0, 8, runs + failures + timestamp + class_);
    Placed(key, row.1.runs, 8, failures + timestamp + class_);
    Placed(key + runs, row.1.failures, 8, timestamp + class_);
    Placed(key + runs + failures, time, 8, class_);
    assert bytes == [] + key + (runs + failures + timestamp + class_);
    assert bytes == key + runs + (failures + timestamp + class_);
    assert bytes == key + runs + failures + (timestamp + class_);
    assert bytes == key + runs + failures + timestamp + class_;
  }

  /** A section: the number of rows in four bytes, and the rows. */
  lemma {:induction false} SectionLayout<T>(rows: seq<T>, encode: T -> Bytes)
    ensures NumberAt(EncodeSection(rows, encode), 0, 4, |rows|)
    ensures EncodeSection(rows, encode)[4..] == EncodeAll(rows, encode)
  {
    hide NumberAt, ToLe, EncodeAll;
    Placed([], |rows|, 4, EncodeAll(rows, encode));
    assert [] + Le32(|rows|) == Le32(|rows|);
  }

  /** A snapshot: four letters, the section of local records, and that of remote ones. */
  lemma {:induction false} SnapshotLayout(
      local: seq<PerfRow>, remote: seq<PerfRow>, localRuns: seq<FlakeRow>, remoteRuns: seq<FlakeRow>)
    ensures var perf := EncodeTwo(PERF_MAGIC, local, remote, EncodePerfRow);
            && (forall i :: 0 <= i < 4 ==> perf[i] == "PRF1"[i] as int)
            && perf[4..] == EncodeSection(local, EncodePerfRow) + EncodeSection(remote, EncodePerfRow)
    ensures var flake := EncodeTwo(FLAKE_MAGIC, localRuns, remoteRuns, EncodeFlakeRow);
            && (forall i :: 0 <= i < 4 ==> flake[i] == "FLK1"[i] as int)
            && flake[4..] == EncodeSection(localRuns, EncodeFlakeRow) + EncodeSection(remoteRuns, EncodeFlakeRow)
  {
    hide EncodeSection, EncodePerfRow, EncodeFlakeRow;
  }

  lemma {:induction false} NamesSnapshotLayout(utf8: Utf8, rows: seq<NameEntry>)
    ensures var names := EncodeNames(utf8, rows);
            && (forall i :: 0 <= i < 4 ==> names[i] == "NMS1"[i] as int)
            && names[4..] == EncodeSection(rows, NameEncoder(utf8))
  {
    hide EncodeSection, EncodeName;
  }
}
