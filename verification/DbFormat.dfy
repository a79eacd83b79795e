/** The records of the duration database, their bytes, and what a directory of such files means. */
module DbFormat {
  import opened Results
  import opened Variants
  import opened ByteCodec
  import Samples
  import Flakes

  datatype Slot = Slot(environment: Environment, key: U64)

  datatype PerfEntry = PerfEntry(slot: Slot, sample: Samples.Sample)

  datatype FlakeEntry = FlakeEntry(slot: Slot, run: Flakes.RunEntry)

  datatype NameEntry = NameEntry(key: U64, identity: TestIdentity)

  // ---------------------------------------------------------------- log records

  const PERF_SIZE: nat := 25
  const FLAKE_SIZE: nat := 19

  function EnvironmentIndex(environment: Environment): Byte {
    match environment
    case LocalEnvironment => 0
    case RemoteEnvironment => 1
  }

  function EnvironmentAt(index: Byte): Option<Environment> {
    if index == 0 then Some(LocalEnvironment) else if index == 1 then Some(RemoteEnvironment) else None
  }

  function ClassCode(class_: Option<FailureClass>): Byte {
    match class_
    case None => 0
    case Some(ClassFail) => 1
    case Some(ClassFatal) => 2
    case Some(ClassTimeout) => 3
    case Some(ClassInfra) => 4
  }

  function ClassAt(code: Byte): Option<FailureClass> {
    if code == 1 then Some(ClassFail)
    else if code == 2 then Some(ClassFatal)
    else if code == 3 then Some(ClassTimeout)
    else if code == 4 then Some(ClassInfra)
    else None
  }

  function EncodePerf(e: PerfEntry): (bytes: Bytes)
    ensures |bytes| == PERF_SIZE
  {
    [EnvironmentIndex(e.slot.environment)] + Le64(e.slot.key) + Le64(e.sample.timestamp) + Le64(e.sample.duration)
  }

  function DecodePerf(bytes: Bytes): Option<PerfEntry> {
    if |bytes| != PERF_SIZE || EnvironmentAt(bytes[0]).None? then None
    else
      Some(PerfEntry(
             Slot(EnvironmentAt(bytes[0]).value, Un64(bytes[1..9])),
             Samples.Sample(Un64(bytes[9..17]), Un64(bytes[17..25]))))
  }

  lemma {:induction false} PerfRoundTrip(e: PerfEntry)
    ensures DecodePerf(EncodePerf(e)) == Some(e)
  {
    hide Le64, Un64;
    var bytes := EncodePerf(e);
    assert bytes[1..9] == Le64(e.slot.key);
    assert bytes[9..17] == Le64(e.sample.timestamp);
    assert bytes[17..25] == Le64(e.sample.duration);
    Le64RoundTrip(e.slot.key);
    Le64RoundTrip(e.sample.timestamp);
    Le64RoundTrip(e.sample.duration);
  }

  function EncodeFlake(e: FlakeEntry): (bytes: Bytes)
    ensures |bytes| == FLAKE_SIZE
  {
    [EnvironmentIndex(e.slot.environment)] + Le64(e.slot.key)
    + [if e.run.failed then 1 else 0] + [ClassCode(e.run.class_)] + Le64(e.run.timestamp)
  }

  function DecodeFlake(bytes: Bytes): Option<FlakeEntry> {
    if |bytes| != FLAKE_SIZE || EnvironmentAt(bytes[0]).None? then None
    else
      Some(FlakeEntry(
             Slot(EnvironmentAt(bytes[0]).value, Un64(bytes[1..9])),
             Flakes.RunEntry(bytes[9] != 0, ClassAt(bytes[10]), Un64(bytes[11..19]))))
  }

  lemma {:induction false} FlakeRoundTrip(e: FlakeEntry)
    ensures DecodeFlake(EncodeFlake(e)) == Some(e)
  {
    hide Le64, Un64;
    var bytes := EncodeFlake(e);
    assert bytes[1..9] == Le64(e.slot.key);
    assert bytes[11..19] == Le64(e.run.timestamp);
    Le64RoundTrip(e.slot.key);
    Le64RoundTrip(e.run.timestamp);
  }

  function PerfLog(buf: Bytes): seq<PerfEntry> {
    RecordsIn(buf, PERF_SIZE, DecodePerf)
  }

  function FlakeLog(buf: Bytes): seq<FlakeEntry> {
    RecordsIn(buf, FLAKE_SIZE, DecodeFlake)
  }

  /** A perf log, followed by less than one record, holds exactly the records written to it. */
  lemma {:induction false} PerfLogRoundTrip(entries: seq<PerfEntry>, tail: Bytes)
    requires |tail| < PERF_SIZE
    ensures PerfLog(EncodeAll(entries, EncodePerf) + tail) == entries
  {
    hide EncodePerf, DecodePerf;
    forall e | e in entries
      ensures DecodePerf(EncodePerf(e)) == Some(e)
    {
      PerfRoundTrip(e);
    }
    LogRoundTrip(entries, tail, PERF_SIZE, EncodePerf, DecodePerf);
  }

  lemma {:induction false} FlakeLogRoundTrip(entries: seq<FlakeEntry>, tail: Bytes)
    requires |tail| < FLAKE_SIZE
    ensures FlakeLog(EncodeAll(entries, EncodeFlake) + tail) == entries
  {
    hide EncodeFlake, DecodeFlake;
    forall e | e in entries
      ensures DecodeFlake(EncodeFlake(e)) == Some(e)
    {
      FlakeRoundTrip(e);
    }
    LogRoundTrip(entries, tail, FLAKE_SIZE, EncodeFlake, DecodeFlake);
  }

  // ---------------------------------------------------------------- names

  const MAX_STRING: nat := 10000

  /** The library's conversion between strings and UTF-8, of which only its inverse laws are used. */
  datatype Utf8 = Utf8(encode: string -> Bytes, decode: Bytes -> Option<string>)

  ghost predicate Lawful(utf8: Utf8) {
    && (forall s: string {:trigger utf8.encode(s)} :: utf8.decode(utf8.encode(s)) == Some(s))
    && (forall b: Bytes {:trigger utf8.decode(b)} :: utf8.decode(b).Some? ==> utf8.encode(utf8.decode(b).value) == b)
  }

  function ReadString(utf8: Utf8, buf: Bytes): (read: Read<string>)
    ensures |read.rest| <= |buf|
  {
    var length := ReadExact(buf, 4);
    if length.value.None? then Read(None, length.rest)
    else if FromLe(length.value.value) > MAX_STRING then Read(None, length.rest)
    else
      var text := ReadExact(length.rest, FromLe(length.value.value));
      if text.value.None? then Read(None, text.rest) else Read(utf8.decode(text.value.value), text.rest)
  }

  function EncodeString(utf8: Utf8, s: string): Bytes {
    Le32(|utf8.encode(s)|) + utf8.encode(s)
  }

  function ReadIdentity(utf8: Utf8, buf: Bytes): (read: Read<TestIdentity>)
    ensures |read.rest| <= |buf|
  {
    var target := ReadString(utf8, buf);
    if target.value.None? then Read(None, target.rest)
    else
      var name := ReadString(utf8, target.rest);
      if name.value.None? then Read(None, name.rest)
      else
        var variant := ReadString(utf8, name.rest);
        if variant.value.None? then Read(None, variant.rest)
        else Read(Some(TestIdentity(target.value.value, name.value.value, Parse(variant.value.value))), variant.rest)
  }

  function EncodeIdentity(utf8: Utf8, identity: TestIdentity): Bytes {
    EncodeString(utf8, identity.target) + EncodeString(utf8, identity.name) + EncodeString(utf8, Text(identity.variant))
  }

  /** Short enough for its length to be written in four bytes. */
  predicate Encodable(utf8: Utf8, identity: TestIdentity) {
    && |utf8.encode(identity.target)| < 0x1_0000_0000
    && |utf8.encode(identity.name)| < 0x1_0000_0000
    && |utf8.encode(Text(identity.variant))| < 0x1_0000_0000
  }

  /** What the reader accepts and gives back unchanged. */
  predicate Storable(utf8: Utf8, identity: TestIdentity) {
    && |utf8.encode(identity.target)| <= MAX_STRING
    && |utf8.encode(identity.name)| <= MAX_STRING
    && |utf8.encode(Text(identity.variant))| <= MAX_STRING
    && Canonical(identity.variant)
  }

  lemma {:induction false} StringRoundTripIff(utf8: Utf8, s: string, rest: Bytes)
    requires Lawful(utf8) && |utf8.encode(s)| < 0x1_0000_0000
    ensures ReadString(utf8, EncodeString(utf8, s) + rest)
            == if |utf8.encode(s)| <= 10_000 then Read(Some(s), rest) else Read(None, utf8.encode(s) + rest)
  {
    hide Le32, FromLe;
    var text := utf8.encode(s);
    var buf := EncodeString(utf8, s) + rest;
    Le32RoundTrip(|text|);
    assert buf[..4] == Le32(|text|) && buf[4..] == text + rest;
    assert (text + rest)[..|text|] == text && (text + rest)[|text|..] == rest;
  }

  /** A stored identity reads back unchanged exactly when it is storable. */
  lemma {:induction false} IdentityRoundTripIff(utf8: Utf8, identity: TestIdentity, rest: Bytes)
    requires Lawful(utf8) && Encodable(utf8, identity)
    ensures ReadIdentity(utf8, EncodeIdentity(utf8, identity) + rest) == Read(Some(identity), rest)
            <==> Storable(utf8, identity)
  {
    hide ReadString, EncodeString, Parse, Text, Canonical, Lawful;
    var variant := Text(identity.variant);
    var afterName := EncodeString(utf8, variant) + rest;
    var afterTarget := EncodeString(utf8, identity.name) + afterName;
    assert EncodeIdentity(utf8, identity) + rest == EncodeString(utf8, identity.target) + afterTarget;
    StringRoundTripIff(utf8, identity.target, afterTarget);
    StringRoundTripIff(utf8, identity.name, afterName);
    StringRoundTripIff(utf8, variant, rest);
    TextRoundTripIff(identity.variant);
  }

  function EncodeName(utf8: Utf8, e: NameEntry): Bytes {
    Le64(e.key) + EncodeIdentity(utf8, e.identity)
  }

  function NameEncoder(utf8: Utf8): NameEntry -> Bytes {
    e => EncodeName(utf8, e)
  }

  /** One name of a snapshot: its key, and its identity if that can be read. */
  function ReadName(utf8: Utf8, buf: Bytes): (read: Read<NameEntry>)
    ensures |read.rest| <= |buf| && (buf != [] ==> |read.rest| < |buf|)
  {
    var key := ReadExact(buf, 8);
    if key.value.None? then Read(None, key.rest)
    else
      var identity := ReadIdentity(utf8, key.rest);
      if identity.value.None? then Read(None, identity.rest)
      else Read(Some(NameEntry(Un64(key.value.value), identity.value.value)), identity.rest)
  }

  function NameReader(utf8: Utf8): Bytes -> Read<NameEntry> {
    buf => ReadName(utf8, buf)
  }

  function NamesLog(utf8: Utf8, buf: Bytes): seq<NameEntry>
    decreases |buf|
  {
    if buf == [] then []
    else
      var first := ReadName(utf8, buf);
      (if first.value.Some? then [first.value.value] else []) + NamesLog(utf8, first.rest)
  }

  lemma {:induction false} NameRoundTrip(utf8: Utf8, e: NameEntry, rest: Bytes)
    requires Lawful(utf8) && Storable(utf8, e.identity)
    ensures ReadName(utf8, EncodeName(utf8, e) + rest) == Read(Some(e), rest)
  {
    hide Le64, Un64, Storable, EncodeIdentity, ReadIdentity, Lawful;
    var buf := EncodeName(utf8, e) + rest;
    var identity := EncodeIdentity(utf8, e.identity);
    assert buf[..8] == Le64(e.key) && buf[8..] == identity + rest;
    Le64RoundTrip(e.key);
    StorableIsEncodable(utf8, e.identity);
    IdentityRoundTripIff(utf8, e.identity, rest);
  }

  lemma {:induction false} StorableIsEncodable(utf8: Utf8, identity: TestIdentity)
    requires Storable(utf8, identity)
    ensures Encodable(utf8, identity)
  {
  }

  ghost predicate AllStorable(utf8: Utf8, entries: seq<NameEntry>) {
    forall e :: e in entries ==> Storable(utf8, e.identity)
  }

  lemma {:induction false} NamesLogRoundTrip(utf8: Utf8, entries: seq<NameEntry>, rest: Bytes)
    requires Lawful(utf8) && AllStorable(utf8, entries)
    ensures NamesLog(utf8, EncodeAll(entries, NameEncoder(utf8)) + rest) == entries + NamesLog(utf8, rest)
  {
    hide EncodeName, ReadName, Storable, Lawful;
    if entries == [] {
      assert EncodeAll(entries, NameEncoder(utf8)) + rest == rest;
    } else {
      var tail := EncodeAll(entries[1..], NameEncoder(utf8)) + rest;
      var buf := EncodeAll(entries, NameEncoder(utf8)) + rest;
      assert buf == EncodeName(utf8, entries[0]) + tail;
      NameRoundTrip(utf8, entries[0], tail);
      assert buf != [] by {
        if buf == [] {
          NothingToRead(utf8);
        }
      }
      assert NamesLog(utf8, buf) == [entries[0]] + NamesLog(utf8, tail);
      hide NamesLog, EncodeAll;
      NamesLogRoundTrip(utf8, entries[1..], rest);
      assert entries + NamesLog(utf8, rest) == [entries[0]] + (entries[1..] + NamesLog(utf8, rest));
    }
  }

  lemma {:induction false} NothingToRead(utf8: Utf8)
    ensures ReadName(utf8, []).value.None?
  {
  }

  /** Every identity that can be read can be stored again. */
  lemma {:induction false} ReadIsStorable(utf8: Utf8, buf: Bytes)
    requires Lawful(utf8)
    requires ReadIdentity(utf8, buf).value.Some?
    ensures Storable(utf8, ReadIdentity(utf8, buf).value.value)
  {
    hide FromLe, Lawful, Parse, Text;
    var target := ReadString(utf8, buf);
    var name := ReadString(utf8, target.rest);
    var variant := ReadString(utf8, name.rest);
    ReadIsShort(utf8, buf);
    ReadIsShort(utf8, target.rest);
    ReadIsShort(utf8, name.rest);
    ParseIsCanonical(variant.value.value);
  }

  lemma {:induction false} ReadIsShort(utf8: Utf8, buf: Bytes)
    requires Lawful(utf8)
    requires ReadString(utf8, buf).value.Some?
    ensures |utf8.encode(ReadString(utf8, buf).value.value)| <= MAX_STRING
  {
    hide FromLe;
    var length := ReadExact(buf, 4);
    var text := ReadExact(length.rest, FromLe(length.value.value));
    assert utf8.decode(text.value.value).Some?;
  }

  lemma {:induction false} NamesLogIsStorable(utf8: Utf8, buf: Bytes)
    requires Lawful(utf8)
    ensures AllStorable(utf8, NamesLog(utf8, buf))
    decreases |buf|
  {
    hide ReadIdentity, Storable, Lawful;
    if buf != [] {
      var first := ReadName(utf8, buf);
      NamesLogIsStorable(utf8, first.rest);
      if first.value.Some? {
        ReadIsStorable(utf8, ReadExact(buf, 8).rest);
      }
    }
  }

  /** A written names log reads back exactly when every identity in it is storable. */
  lemma {:induction false} NamesLogRoundTripIff(utf8: Utf8, entries: seq<NameEntry>)
    requires Lawful(utf8)
    ensures NamesLog(utf8, EncodeAll(entries, NameEncoder(utf8))) == entries <==> AllStorable(utf8, entries)
  {
    hide NamesLog, EncodeAll, AllStorable, Lawful;
    var log := EncodeAll(entries, NameEncoder(utf8));
    NamesLogIsStorable(utf8, log);
    if AllStorable(utf8, entries) {
      NamesLogRoundTrip(utf8, entries, []);
      EmptyNamesLog(utf8);
      assert log + [] == log && entries + [] == entries;
    }
  }

  lemma {:induction false} EmptyNamesLog(utf8: Utf8)
    ensures NamesLog(utf8, []) == []
  {
  }

  // ---------------------------------------------------------------- a names log that breaks off

  lemma {:induction false} TornString(utf8: Utf8, s: string, n: nat)
    requires Lawful(utf8) && |utf8.encode(s)| <= MAX_STRING
    requires n < |EncodeString(utf8, s)|
    ensures ReadString(utf8, EncodeString(utf8, s)[..n]) == Read(None, [])
  {
    hide Le32, FromLe, Lawful;
    var text := utf8.encode(s);
    if n >= 4 {
      Le32RoundTrip(|text|);
      assert EncodeString(utf8, s)[..n][..4] == Le32(|text|);
    }
  }

  lemma {:induction false} TornIdentity(utf8: Utf8, identity: TestIdentity, n: nat)
    requires Lawful(utf8) && Storable(utf8, identity)
    requires n < |EncodeIdentity(utf8, identity)|
    ensures ReadIdentity(utf8, EncodeIdentity(utf8, identity)[..n]) == Read(None, [])
  {
    hide ReadString, EncodeString, Text, Canonical, Lawful;
    var a, b := EncodeString(utf8, identity.target), EncodeString(utf8, identity.name);
    var c := EncodeString(utf8, Text(identity.variant));
    var buf := EncodeIdentity(utf8, identity)[..n];
    if n < |a| {
      assert buf == a[..n];
      TornString(utf8, identity.target, n);
    } else if n < |a| + |b| {
      assert buf == a + b[..n - |a|];
      StringRoundTripIff(utf8, identity.target, b[..n - |a|]);
      TornString(utf8, identity.name, n - |a|);
    } else {
      var m := n - |a| - |b|;
      assert buf == a + (b + c[..m]);
      StringRoundTripIff(utf8, identity.target, b + c[..m]);
      StringRoundTripIff(utf8, identity.name, c[..m]);
      TornString(utf8, Text(identity.variant), m);
    }
  }

  lemma {:induction false} TornName(utf8: Utf8, e: NameEntry, n: nat)
    requires Lawful(utf8) && Storable(utf8, e.identity)
    requires n < |EncodeName(utf8, e)|
    ensures ReadName(utf8, EncodeName(utf8, e)[..n]) == Read(None, [])
  {
    hide Le64, Un64, Storable, EncodeIdentity, ReadIdentity, Lawful;
    if n >= 8 {
      var buf := EncodeName(utf8, e)[..n];
      assert buf[8..] == EncodeIdentity(utf8, e.identity)[..n - 8];
      TornIdentity(utf8, e.identity, n - 8);
    }
  }

  lemma {:induction false} NothingAfter(utf8: Utf8, buf: Bytes)
    requires ReadName(utf8, buf) == Read(None, [])
    ensures NamesLog(utf8, buf) == []
  {
    hide ReadName;
  }

  lemma {:induction false} NameFirst(utf8: Utf8, e: NameEntry, rest: Bytes)
    requires Lawful(utf8) && Storable(utf8, e.identity)
    ensures NamesLog(utf8, EncodeName(utf8, e) + rest) == [e] + NamesLog(utf8, rest)
  {
    hide EncodeName, ReadName, Storable, Lawful, NamesLog;
    var entries := [e];
    assert forall x :: x in entries ==> x == e;
    NamesLogRoundTrip(utf8, entries, rest);
    assert entries == [e] + [];
    EncodeAllCons(e, [], NameEncoder(utf8));
    assert EncodeName(utf8, e) + EncodeAll([], NameEncoder(utf8)) == EncodeName(utf8, e);
  }

  /** When only the first n bytes got written: the log holds the names that were written in full. */
  lemma {:induction false} TornNamesLog(utf8: Utf8, entries: seq<NameEntry>, n: nat) returns (k: nat)
    requires Lawful(utf8) && AllStorable(utf8, entries)
    requires n <= |EncodeAll(entries, NameEncoder(utf8))|
    ensures k <= |entries| && NamesLog(utf8, EncodeAll(entries, NameEncoder(utf8))[..n]) == entries[..k]
    ensures |EncodeAll(entries[..k], NameEncoder(utf8))| <= n
    ensures k < |entries| ==> n < |EncodeAll(entries[..k + 1], NameEncoder(utf8))|
  {
    hide EncodeName, ReadName, Storable, Lawful, NamesLog;
    if entries == [] {
      k := 0;
      EmptyNamesLog(utf8);
    } else {
      var encode := NameEncoder(utf8);
      var first, rest := entries[0], entries[1..];
      var bytes, more := EncodeName(utf8, first), EncodeAll(rest, encode);
      assert entries == [first] + rest && first in entries;
      EncodeAllCons(first, rest, encode);
      if n < |bytes| {
        k := 0;
        assert (bytes + more)[..n] == bytes[..n];
        TornName(utf8, first, n);
        NothingAfter(utf8, bytes[..n]);
        assert entries[..1] == [first] + [];
        EncodeAllCons(first, [], encode);
      } else {
        hide EncodeAll;
        assert (bytes + more)[..n] == bytes + more[..n - |bytes|];
        var j := TornNamesLog(utf8, rest, n - |bytes|);
        NameFirst(utf8, first, more[..n - |bytes|]);
        k := j + 1;
        assert entries[..k] == [first] + rest[..j];
        EncodeAllCons(first, rest[..j], encode);
        if k < |entries| {
          assert entries[..k + 1] == [first] + rest[..j + 1];
          EncodeAllCons(first, rest[..j + 1], encode);
        }
      }
    }
  }

  lemma {:induction false} StringTakesItsBytes(utf8: Utf8, buf: Bytes)
    requires Lawful(utf8)
    ensures var read := ReadString(utf8, buf);
            read.value.Some? ==> |buf| - |read.rest| == |EncodeString(utf8, read.value.value)|
  {
    hide FromLe, Le32;
    var length := ReadExact(buf, 4);
    if length.value.Some? {
      var text := ReadExact(length.rest, FromLe(length.value.value));
      if text.value.Some? && utf8.decode(text.value.value).Some? {
        assert utf8.encode(utf8.decode(text.value.value).value) == text.value.value;
      }
    }
  }

  lemma {:induction false} NameTakesItsBytes(utf8: Utf8, buf: Bytes)
    requires Lawful(utf8)
    ensures var read := ReadName(utf8, buf);
            read.value.Some? ==> |buf| - |read.rest| == |EncodeName(utf8, read.value.value)|
  {
    hide ReadString, EncodeString, Parse, Text, Canonical, Lawful, Le64, Un64;
    var target := ReadString(utf8, ReadExact(buf, 8).rest);
    var name := ReadString(utf8, target.rest);
    var variant := ReadString(utf8, name.rest);
    StringTakesItsBytes(utf8, ReadExact(buf, 8).rest);
    StringTakesItsBytes(utf8, target.rest);
    StringTakesItsBytes(utf8, name.rest);
    if variant.value.Some? {
      ParseIsCanonical(variant.value.value);
    }
  }

  /** A name that is read from a log was there with all its bytes. */
  lemma {:induction false} ReadNamesFit(utf8: Utf8, buf: Bytes, e: NameEntry)
    requires Lawful(utf8) && e in NamesLog(utf8, buf)
    ensures |EncodeName(utf8, e)| <= |buf|
    decreases |buf|
  {
    hide ReadName, EncodeName, Lawful;
    NameTakesItsBytes(utf8, buf);
    var first := ReadName(utf8, buf);
    if first.value != Some(e) {
      ReadNamesFit(utf8, first.rest, e);
    }
  }

  /** Some number of the entries takes up exactly n bytes. */
  ghost predicate AtBoundary(utf8: Utf8, entries: seq<NameEntry>, n: nat) {
    exists k :: 0 <= k <= |entries| && |EncodeAll(entries[..k], NameEncoder(utf8))| == n
  }

  /** A names log that ends at a record boundary, so that whatever is appended is read as appended. */
  ghost predicate Appendable(utf8: Utf8, log: Bytes) {
    forall more: Bytes {:trigger NamesLog(utf8, log + more)} ::
      NamesLog(utf8, log + more) == NamesLog(utf8, log) + NamesLog(utf8, more)
  }

  lemma {:induction false} WrittenIsAppendable(utf8: Utf8, entries: seq<NameEntry>)
    requires Lawful(utf8) && AllStorable(utf8, entries)
    ensures Appendable(utf8, EncodeAll(entries, NameEncoder(utf8)))
  {
    hide NamesLog, EncodeAll, AllStorable, Lawful;
    var log := EncodeAll(entries, NameEncoder(utf8));
    NamesLogRoundTripIff(utf8, entries);
    forall more: Bytes
      ensures NamesLog(utf8, log + more) == NamesLog(utf8, log) + NamesLog(utf8, more)
    {
      NamesLogRoundTrip(utf8, entries, more);
    }
  }

  lemma {:induction false} EncodedPrefix(utf8: Utf8, entries: seq<NameEntry>, k: nat)
    requires k <= |entries|
    ensures var encode := NameEncoder(utf8); EncodeAll(entries[..k], encode) <= EncodeAll(entries, encode)
  {
    EncodeAllAppend(entries[..k], entries[k..], NameEncoder(utf8));
    assert entries == entries[..k] + entries[k..];
  }

  lemma {:induction false} BrokenIsNotAppendable(utf8: Utf8, entries: seq<NameEntry>, k: nat, m: nat)
    requires Lawful(utf8) && AllStorable(utf8, entries)
    requires k < |entries| && 0 < m < |EncodeName(utf8, entries[k])|
    ensures !Appendable(utf8, EncodeAll(entries[..k], NameEncoder(utf8)) + EncodeName(utf8, entries[k])[..m])
  {
    hide EncodeName, NamesLog, ReadName, Storable, Lawful, EncodeAll;
    var e, before := entries[k], entries[..k];
    var bytes, written := EncodeName(utf8, e), EncodeAll(entries[..k], NameEncoder(utf8));
    var log, more := written + bytes[..m], bytes[m..];
    assert e in entries && AllStorable(utf8, before);
    TornName(utf8, e, m);
    NothingAfter(utf8, bytes[..m]);
    NamesLogRoundTrip(utf8, before, bytes[..m]);
    NamesLogRoundTrip(utf8, before, bytes);
    NameFirst(utf8, e, []);
    EmptyNamesLog(utf8);
    assert log + more == written + bytes && bytes + [] == bytes;
    assert NamesLog(utf8, log) == before && NamesLog(utf8, log + more) == before + [e];
    if Appendable(utf8, log) {
      assert NamesLog(utf8, log + more) == NamesLog(utf8, log) + NamesLog(utf8, more);
      assert (before + [e])[k..] == [e] && (before + NamesLog(utf8, more))[k..] == NamesLog(utf8, more);
      ReadNamesFit(utf8, more, e);
    }
  }

  /** A log that broke off can be appended to exactly when it broke off between two names. */
  lemma {:induction false} TornIsAppendableIff(utf8: Utf8, entries: seq<NameEntry>, n: nat)
    requires Lawful(utf8) && AllStorable(utf8, entries)
    requires n <= |EncodeAll(entries, NameEncoder(utf8))|
    ensures Appendable(utf8, EncodeAll(entries, NameEncoder(utf8))[..n]) <==> AtBoundary(utf8, entries, n)
  {
    hide EncodeAll, EncodeName, Storable, Lawful, Appendable;
    var bytes := EncodeAll(entries, NameEncoder(utf8));
    if AtBoundary(utf8, entries, n) {
      var k :| 0 <= k <= |entries| && |EncodeAll(entries[..k], NameEncoder(utf8))| == n;
      EncodedPrefix(utf8, entries, k);
      WrittenIsAppendable(utf8, entries[..k]);
      assert bytes[..n] == EncodeAll(entries[..k], NameEncoder(utf8));
    } else {
      var k := TornNamesLog(utf8, entries, n);
      var written := EncodeAll(entries[..k], NameEncoder(utf8));
      EncodedPrefix(utf8, entries, k);
      assert entries[..|entries|] == entries && |written| != n;
      assert entries[..k + 1] == entries[..k] + ([entries[k]] + []);
      EncodeAllAppend(entries[..k], [entries[k]] + [], NameEncoder(utf8));
      EncodeAllCons(entries[k], [], NameEncoder(utf8));
      NothingEncoded(NameEncoder(utf8));
      EncodedPrefix(utf8, entries, k + 1);
      var m := n - |written|;
      assert bytes[..n] == written + EncodeName(utf8, entries[k])[..m];
      BrokenIsNotAppendable(utf8, entries, k, m);
    }
  }
}
