/** The byte formats of the duration database: append-only logs and snapshots. */
module ByteCodec {
  import opened Results
  import opened Variants
  import Samples
  import Flakes

  type Bytes = seq<Byte>

  // ---------------------------------------------------------------- little-endian integers

  function Pow256(n: nat): (p: nat)
    ensures p > 0
  {
    if n == 0 then 1 else 256 * Pow256(n - 1)
  }

  lemma {:induction false} Widths()
    ensures Pow256(1) == 256
    ensures Pow256(4) == 0x1_0000_0000
    ensures Pow256(8) == 0x1_0000_0000_0000_0000
  {
    assert Pow256(1) == 256 * Pow256(0);
    assert Pow256(2) == 256 * Pow256(1);
    assert Pow256(3) == 256 * Pow256(2);
    assert Pow256(4) == 256 * Pow256(3);
    assert Pow256(5) == 256 * Pow256(4);
    assert Pow256(6) == 256 * Pow256(5);
    assert Pow256(7) == 256 * Pow256(6);
    assert Pow256(8) == 256 * Pow256(7);
  }

  /** The low `width` bytes of the number, lowest first. */
  function ToLe(n: nat, width: nat): (bytes: Bytes)
    ensures |bytes| == width
  {
    if width == 0 then [] else [n % 256] + ToLe(n / 256, width - 1)
  }

  function FromLe(bytes: Bytes): (n: nat)
    ensures n < Pow256(|bytes|)
  {
    if bytes == [] then 0 else bytes[0] + 256 * FromLe(bytes[1..])
  }

  /** Encoding keeps the number exactly modulo its width. */
  lemma {:induction false} LeRoundTrip(n: nat, width: nat)
    ensures FromLe(ToLe(n, width)) == n % Pow256(width)
  {
    if width > 0 {
      LeRoundTrip(n / 256, width - 1);
      ModSplit(n, Pow256(width - 1));
    }
  }

  lemma {:induction false} ModSplit(n: nat, p: nat)
    requires p > 0
    ensures n % (256 * p) == n % 256 + 256 * ((n / 256) % p)
  {
    var q := n / 256;
    var high := q / p;
    assert q == high * p + q % p;
    assert n == 256 * q + n % 256;
    assert n == high * (256 * p) + (n % 256 + 256 * (q % p));
    RemainderIs(n, 256 * p, high, n % 256 + 256 * (q % p));
  }

  lemma {:induction false} RemainderIs(n: nat, d: nat, q: nat, r: nat)
    requires d > 0 && r < d && n == q * d + r
    ensures n % d == r
  {
    var e := n / d - q;
    assert (n / d) * d == e * d + q * d;
    Multiples(e, d);
  }

  lemma {:induction false} Multiples(e: int, d: nat)
    requires d > 0
    ensures e >= 1 ==> e * d >= d as int
    ensures e <= -1 ==> e * d <= 0 - d
  {
    if e >= 1 {
      assert (e - 1) * d >= 0;
    } else if e <= -1 {
      assert (-1 - e) * d >= 0;
    }
  }

  function Le64(n: U64): (bytes: Bytes)
    ensures |bytes| == 8
  {
    ToLe(n, 8)
  }

  function Un64(bytes: Bytes): U64
    requires |bytes| == 8
  {
    Widths();
    FromLe(bytes)
  }

  lemma {:induction false} Le64RoundTrip(n: U64)
    ensures Un64(Le64(n)) == n
  {
    hide ToLe, FromLe, Pow256;
    Widths();
    LeRoundTrip(n, 8);
  }

  /** `n as u32` before it is written. */
  function Le32(n: nat): (bytes: Bytes)
    ensures |bytes| == 4
  {
    ToLe(n, 4)
  }

  lemma {:induction false} Le32RoundTrip(n: U32)
    ensures FromLe(Le32(n)) == n
  {
    hide ToLe, FromLe, Pow256;
    Widths();
    LeRoundTrip(n, 4);
  }

  // ---------------------------------------------------------------- reading

  /** What one read yields and what it leaves; a read that fails at the end has consumed the rest. */
  datatype Read<+T> = Read(value: Option<T>, rest: Bytes)

  function ReadExact(buf: Bytes, n: nat): (read: Read<Bytes>)
    ensures read.value.Some? ==> |read.value.value| == n
    ensures |read.rest| <= |buf| && (n > 0 && buf != [] ==> |read.rest| < |buf|)
  {
    if n <= |buf| then Read(Some(buf[..n]), buf[n..]) else Read(None, [])
  }

  /** Read `count` entries; one that cannot be read is skipped. */
  function ReadMany<T>(buf: Bytes, count: nat, readEntry: Bytes -> Read<T>): (seq<T>, Bytes)
    decreases count
  {
    if count == 0 then ([], buf)
    else
      var first := readEntry(buf);
      var (others, rest) := ReadMany(first.rest, count - 1, readEntry);
      ((if first.value.Some? then [first.value.value] else []) + others, rest)
  }

  function EncodeAll<T>(entries: seq<T>, encode: T -> Bytes): Bytes {
    if entries == [] then [] else encode(entries[0]) + EncodeAll(entries[1..], encode)
  }

  /** Reading the encoded entry yields `seen`, and takes exactly its bytes, whatever follows them. */
  ghost predicate ReadsAs<T(!new)>(readEntry: Bytes -> Read<T>, encode: T -> Bytes, entry: T, seen: T) {
    forall rest: Bytes {:trigger encode(entry) + rest} :: readEntry(encode(entry) + rest) == Read(Some(seen), rest)
  }

  /** Reading takes back exactly the encoded entry. */
  ghost predicate TakesBack<T(!new)>(readEntry: Bytes -> Read<T>, encode: T -> Bytes, entry: T) {
    ReadsAs(readEntry, encode, entry, entry)
  }

  lemma {:induction false} ReadManyAs<T(!new)>(
      entries: seq<T>, seen: seq<T>, encode: T -> Bytes, readEntry: Bytes -> Read<T>, rest: Bytes)
    requires |seen| == |entries|
    requires forall i :: 0 <= i < |entries| ==> ReadsAs(readEntry, encode, entries[i], seen[i])
    ensures ReadMany(EncodeAll(entries, encode) + rest, |entries|, readEntry) == (seen, rest)
  {
    if entries != [] {
      var tail := EncodeAll(entries[1..], encode) + rest;
      assert EncodeAll(entries, encode) + rest == encode(entries[0]) + tail;
      assert ReadsAs(readEntry, encode, entries[0], seen[0]);
      ReadManyAs(entries[1..], seen[1..], encode, readEntry, rest);
      assert [seen[0]] + seen[1..] == seen;
    } else {
      assert EncodeAll(entries, encode) + rest == rest;
    }
  }

  lemma {:induction false} ReadManyRoundTrip<T(!new)>(
      entries: seq<T>, encode: T -> Bytes, readEntry: Bytes -> Read<T>, rest: Bytes)
    requires forall e :: e in entries ==> TakesBack(readEntry, encode, e)
    ensures ReadMany(EncodeAll(entries, encode) + rest, |entries|, readEntry) == (entries, rest)
  {
    hide ReadsAs;
    forall i | 0 <= i < |entries|
      ensures ReadsAs(readEntry, encode, entries[i], entries[i])
    {
      assert TakesBack(readEntry, encode, entries[i]);
    }
    ReadManyAs(entries, entries, encode, readEntry, rest);
  }

  lemma {:induction false} NothingEncoded<T>(encode: T -> Bytes)
    ensures EncodeAll([], encode) == []
  {
  }

  lemma {:induction false} EncodeAllCons<T>(first: T, rest: seq<T>, encode: T -> Bytes)
    ensures EncodeAll([first] + rest, encode) == encode(first) + EncodeAll(rest, encode)
  {
    assert ([first] + rest)[1..] == rest;
  }

  lemma {:induction false} EncodeAllAppend<T>(a: seq<T>, b: seq<T>, encode: T -> Bytes)
    ensures EncodeAll(a + b, encode) == EncodeAll(a, encode) + EncodeAll(b, encode)
  {
    if a == [] {
      assert a + b == b;
    } else {
      var first, rest := encode(a[0]), EncodeAll(a[1..], encode);
      assert (a + b)[0] == a[0] && (a + b)[1..] == a[1..] + b;
      EncodeAllAppend(a[1..], b, encode);
      assert EncodeAll(a + b, encode) == first + (rest + EncodeAll(b, encode));
      assert first + (rest + EncodeAll(b, encode)) == (first + rest) + EncodeAll(b, encode);
    }
  }

  // ---------------------------------------------------------------- logs of fixed-size records

  /** Cut the log into whole records; a shorter tail is ignored, an undecodable record skipped. */
  function RecordsIn<T>(buf: Bytes, size: nat, decode: Bytes -> Option<T>): seq<T>
    requires size > 0
  {
    if |buf| < size then []
    else
      var first := decode(buf[..size]);
      (if first.Some? then [first.value] else []) + RecordsIn(buf[size..], size, decode)
  }

  lemma {:induction false} RecordsFrom<T>(buf: Bytes, i: nat, size: nat, decode: Bytes -> Option<T>)
    requires size > 0 && i <= |buf|
    ensures i + size > |buf| ==> RecordsIn(buf[i..], size, decode) == []
    ensures i + size <= |buf| ==>
              RecordsIn(buf[i..], size, decode)
              == (if decode(buf[i..i + size]).Some? then [decode(buf[i..i + size]).value] else [])
                 + RecordsIn(buf[i + size..], size, decode)
  {
    if i + size <= |buf| {
      assert buf[i..][..size] == buf[i..i + size];
      assert buf[i..][size..] == buf[i + size..];
    }
  }

  /** Any tail shorter than one record, left by an interrupted append, is harmless. */
  lemma {:induction false} LogRoundTrip<T>(
      entries: seq<T>, tail: Bytes, size: nat, encode: T -> Bytes, decode: Bytes -> Option<T>)
    requires size > 0 && |tail| < size
    requires forall e :: e in entries ==> |encode(e)| == size && decode(encode(e)) == Some(e)
    ensures RecordsIn(EncodeAll(entries, encode) + tail, size, decode) == entries
  {
    if entries != [] {
      var buf := EncodeAll(entries, encode) + tail;
      assert buf[..size] == encode(entries[0]);
      assert buf[size..] == EncodeAll(entries[1..], encode) + tail;
      LogRoundTrip(entries[1..], tail, size, encode, decode);
      assert [entries[0]] + entries[1..] == entries;
    }
  }

  lemma {:induction false} EncodedLength<T>(entries: seq<T>, size: nat, encode: T -> Bytes)
    requires forall e :: e in entries ==> |encode(e)| == size
    ensures |EncodeAll(entries, encode)| == |entries| * size
  {
    if entries != [] {
      EncodedLength(entries[1..], size, encode);
      assert |entries| * size == size + (|entries| - 1) * size;
    }
  }

  lemma {:induction false} TornFirst<T>(
      first: T, rest: Bytes, n: nat, size: nat, encode: T -> Bytes, decode: Bytes -> Option<T>)
    requires 0 < size == |encode(first)| && decode(encode(first)) == Some(first)
    requires size <= n <= size + |rest|
    ensures RecordsIn((encode(first) + rest)[..n], size, decode) == [first] + RecordsIn(rest[..n - size], size, decode)
  {
    var buf := (encode(first) + rest)[..n];
    assert buf[..size] == encode(first) && buf[size..] == rest[..n - size];
  }

  /** When only the first n bytes got written: the log holds the entries that were written in full. */
  lemma {:induction false} TornLog<T>(
      entries: seq<T>, n: nat, size: nat, encode: T -> Bytes, decode: Bytes -> Option<T>) returns (k: nat)
    requires size > 0 && n <= |EncodeAll(entries, encode)|
    requires forall e :: e in entries ==> |encode(e)| == size && decode(encode(e)) == Some(e)
    ensures k <= |entries| && RecordsIn(EncodeAll(entries, encode)[..n], size, decode) == entries[..k]
    ensures |EncodeAll(entries[..k], encode)| <= n
    ensures k < |entries| ==> n < |EncodeAll(entries[..k + 1], encode)|
  {
    if n < size {
      k := 0;
      if entries != [] {
        assert entries[..1] == [entries[0]] + [];
        EncodeAllCons(entries[0], [], encode);
      }
    } else {
      assert entries != [];
      var first, rest := entries[0], entries[1..];
      assert entries == [first] + rest && first in entries;
      EncodeAllCons(first, rest, encode);
      TornFirst(first, EncodeAll(rest, encode), n, size, encode, decode);
      hide EncodeAll, RecordsIn;
      var j := TornLog(rest, n - size, size, encode, decode);
      k := j + 1;
      assert entries[..k] == [first] + rest[..j];
      EncodeAllCons(first, rest[..j], encode);
      if k < |entries| {
        assert entries[..k + 1] == [first] + rest[..j + 1];
        EncodeAllCons(first, rest[..j + 1], encode);
      }
    }
  }

  /** A length that is a multiple of the record size. */
  predicate Whole(length: nat, size: nat)
    requires size > 0
  {
    if length < size then length == 0 else Whole(length - size, size)
  }

  lemma {:induction false} WholeAppend(a: nat, b: nat, size: nat)
    requires size > 0 && Whole(a, size) && Whole(b, size)
    ensures Whole(a + b, size)
  {
    if a >= size {
      WholeAppend(a - size, b, size);
    }
  }

  lemma {:induction false} SmallIsNotWhole(length: nat, size: nat)
    requires size > 0
    ensures length < size ==> (Whole(length, size) <==> length == 0)
  {
  }

  lemma {:induction false} WholeAppendIff(a: nat, b: nat, size: nat)
    requires size > 0 && Whole(a, size)
    ensures Whole(a + b, size) <==> Whole(b, size)
  {
    if a >= size {
      WholeAppendIff(a - size, b, size);
    }
  }

  lemma {:induction false} EncodedIsWhole<T>(entries: seq<T>, size: nat, encode: T -> Bytes)
    requires size > 0
    requires forall e :: e in entries ==> |encode(e)| == size
    ensures Whole(|EncodeAll(entries, encode)|, size)
  {
    if entries != [] {
      EncodedIsWhole(entries[1..], size, encode);
    }
  }

  /** Appending to a log of whole records appends to what it holds. */
  lemma {:induction false} RecordsAppend<T>(a: Bytes, b: Bytes, size: nat, decode: Bytes -> Option<T>)
    requires size > 0 && Whole(|a|, size)
    ensures RecordsIn(a + b, size, decode) == RecordsIn(a, size, decode) + RecordsIn(b, size, decode)
  {
    if |a| < size {
      assert |a| == 0;
      assert a + b == b;
    } else {
      assert (a + b)[..size] == a[..size] && (a + b)[size..] == a[size..] + b;
      RecordsAppend(a[size..], b, size, decode);
    }
  }
}
