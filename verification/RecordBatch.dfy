/**
 The record codec as the compactor uses it: records are varint-coded inside a batch, and a batch is
 written with the fixed 61-byte header. Readers take the bytes still to be read and return them
 shortened; any failure is None.
 */
module RecordBatches {
  import opened Bytes
  import opened BatchLog

  datatype Header = Header(key: bytes, value: Option<bytes>)

  datatype Record = Record(
    attributes: int, timestampDelta: int64, offsetDelta: int32,
    key: Option<bytes>, value: Option<bytes>, headers: seq<Header>)

  type Checksum = c: bytes -> nat | forall p :: c(p) < TWO_32 witness _ => 0

  // ------------------------------------------------------------ varints

  const MAX_VARINT := 10

  // Groups of seven bits, least significant first, each but the last marked by its high bit.
  function Uvarint(u: nat): (s: bytes)
    ensures |s| >= 1
  {
    if u < 128 then [u] else [u % 128 + 128] + Uvarint(u / 128)
  }

  // The i-th group of a varint may hold only what still fits in 64 bits.
  function ReadUvarint(s: bytes, i: nat): (r: Option<(nat, bytes)>)
    requires i <= MAX_VARINT
    ensures r.Some? ==> |r.value.1| < |s| && i < MAX_VARINT && r.value.0 < Room(i)
  {
    if s == [] || i == MAX_VARINT then None
    else if s[0] < 128 then
      if i == MAX_VARINT - 1 && s[0] > 1 then None else Some((s[0], s[1..]))
    else
      var r := ReadUvarint(s[1..], i + 1);
      if r.None? then None else Some((s[0] - 128 + 128 * r.value.0, r.value.1))
  }

  function Room(i: nat): (n: nat)
    requires i < MAX_VARINT
    ensures n >= 2 && (i < MAX_VARINT - 1 ==> n >= 256)
    decreases MAX_VARINT - i
  {
    if i == MAX_VARINT - 1 then 2 else 128 * Room(i + 1)
  }

  lemma FirstRoom()
    ensures Room(0) == TWO_64
  {
    assert Room(7) == 0x8000;
    assert Room(5) == 0x2000_0000;
    assert Room(3) == 0x800_0000_0000;
  }

  lemma {:induction false} UvarintRoundTrip(u: nat, tail: bytes, i: nat)
    requires i < MAX_VARINT && u < Room(i)
    ensures ReadUvarint(Uvarint(u) + tail, i) == Some((u, tail))
    decreases u
  {
    hide Room, Uvarint, ReadUvarint;
    RoomStep(i, u);
    if u < 128 {
      LastGroup(u, tail, i);
    } else {
      UvarintRoundTrip(u / 128, tail, i + 1);
      MarkedGroup(u, tail, i);
    }
  }

  lemma LastGroup(u: nat, tail: bytes, i: nat)
    requires i < MAX_VARINT && u < 128 && (i == MAX_VARINT - 1 ==> u < 2)
    ensures ReadUvarint(Uvarint(u) + tail, i) == Some((u, tail))
  {
    assert (Uvarint(u) + tail)[1..] == tail;
  }

  lemma MarkedGroup(u: nat, tail: bytes, i: nat)
    requires i < MAX_VARINT && u >= 128 && ReadUvarint(Uvarint(u / 128) + tail, i + 1) == Some((u / 128, tail))
    ensures ReadUvarint(Uvarint(u) + tail, i) == Some((u, tail))
  {
    hide Room;
    var low, rest := u % 128, u / 128;
    assert Uvarint(u) == [low + 128] + Uvarint(rest);
    assert (Uvarint(u) + tail)[1..] == Uvarint(rest) + tail;
  }

  lemma RoomStep(i: nat, u: nat)
    requires i < MAX_VARINT && u < Room(i)
    ensures i == MAX_VARINT - 1 ==> u < 2
    ensures i < MAX_VARINT - 1 ==> u / 128 < Room(i + 1)
  {
    if i < MAX_VARINT - 1 { assert Room(i) == 128 * Room(i + 1); }
  }

  function ZigZag(v: int64): nat { if v >= 0 then 2 * v else -2 * v - 1 }

  function UnZigZag(u: nat): int { if u % 2 == 0 then u / 2 else -(u / 2) - 1 }

  function Varint(v: int64): bytes { Uvarint(ZigZag(v)) }

  function ReadVarint(s: bytes): (r: Option<(int64, bytes)>)
    ensures r.Some? ==> |r.value.1| < |s|
  {
    FirstRoom();
    var r := ReadUvarint(s, 0);
    if r.None? then None else Some((UnZigZag(r.value.0), r.value.1))
  }

  lemma VarintRoundTrip(v: int64, tail: bytes)
    ensures ReadVarint(Varint(v) + tail) == Some((v, tail))
  {
    hide Uvarint, ReadUvarint;
    FirstRoom();
    UvarintRoundTrip(ZigZag(v), tail, 0);
  }

  // ------------------------------------------------------------ byte strings

  function Plain(s: bytes): bytes requires |s| < TWO_31 { Varint(|s|) + s }

  function Nullable(s: Option<bytes>): bytes
    requires s.Some? ==> |s.value| < TWO_31
  {
    if s.None? then Varint(-1) else Plain(s.value)
  }

  function ReadNullable(s: bytes): (r: Option<(Option<bytes>, bytes)>)
    ensures r.Some? ==> |r.value.1| < |s|
  {
    var r := ReadVarint(s);
    if r.None? then None else
    var (n, rest) := r.value;
    if n < 0 then Some((None, rest))
    else if n > |rest| then None
    else Some((Some(rest[..n]), rest[n..]))
  }

  lemma NullableRoundTrip(s: Option<bytes>, tail: bytes)
    requires s.Some? ==> |s.value| < TWO_31
    ensures ReadNullable(Nullable(s) + tail) == Some((s, tail))
  {
    hide Varint, ReadVarint;
    if s.None? {
      VarintRoundTrip(-1, tail);
    } else {
      assert Nullable(s) + tail == Varint(|s.value|) + (s.value + tail);
      VarintRoundTrip(|s.value|, s.value + tail);
    }
  }

  // A key is written with its length alone, so no key reads back as an empty one.
  function KeyBytes(k: Option<bytes>): bytes
    requires k.Some? ==> |k.value| < TWO_31
  {
    if k.None? then Varint(0) else Plain(k.value)
  }

  function Reread(k: Option<bytes>): Option<bytes> { if k.None? then Some([]) else k }

  lemma KeyRoundTrip(k: Option<bytes>, tail: bytes)
    requires k.Some? ==> |k.value| < TWO_31
    ensures ReadNullable(KeyBytes(k) + tail) == Some((Reread(k), tail))
  {
    hide Varint, ReadVarint, ReadNullable;
    NullableRoundTrip(Reread(k), tail);
    if k.None? { assert Plain([]) == Varint(0); }
  }

  // ------------------------------------------------------------ headers

  predicate HeaderFits(h: Header)
  {
    |h.key| < TWO_31 && (h.value.Some? ==> |h.value.value| < TWO_31)
  }

  function HeaderBytes(h: Header): bytes
    requires HeaderFits(h)
  {
    Plain(h.key) + Nullable(h.value)
  }

  function HeadersBytes(hs: seq<Header>): bytes
    requires forall i :: 0 <= i < |hs| ==> HeaderFits(hs[i])
  {
    if hs == [] then [] else HeaderBytes(hs[0]) + HeadersBytes(hs[1..])
  }

  function ReadHeader(s: bytes): (r: Option<(Header, bytes)>)
    ensures r.Some? ==> |r.value.1| < |s|
  {
    var k := ReadNullable(s);
    if k.None? then None else
    var v := ReadNullable(k.value.1);
    if v.None? then None else
    Some((Header(if k.value.0.None? then [] else k.value.0.value, v.value.0), v.value.1))
  }

  function ReadHeaders(s: bytes, count: nat): Option<(seq<Header>, bytes)>
    decreases count
  {
    if count == 0 then Some(([], s)) else
    var h := ReadHeader(s);
    if h.None? then None else
    var rest := ReadHeaders(h.value.1, count - 1);
    if rest.None? then None else Some(([h.value.0] + rest.value.0, rest.value.1))
  }

  lemma HeaderRoundTrip(h: Header, tail: bytes)
    requires HeaderFits(h)
    ensures ReadHeader(HeaderBytes(h) + tail) == Some((h, tail))
  {
    hide Varint, ReadNullable, Nullable, Plain;
    assert HeaderBytes(h) + tail == Plain(h.key) + (Nullable(h.value) + tail);
    assert Nullable(Some(h.key)) == Plain(h.key) by { PlainIsNullable(h.key); }
    NullableRoundTrip(Some(h.key), Nullable(h.value) + tail);
    NullableRoundTrip(h.value, tail);
  }

  lemma PlainIsNullable(s: bytes)
    requires |s| < TWO_31
    ensures Nullable(Some(s)) == Plain(s)
  {
  }

  lemma {:induction false} HeadersRoundTrip(hs: seq<Header>, tail: bytes)
    requires forall i :: 0 <= i < |hs| ==> HeaderFits(hs[i])
    ensures ReadHeaders(HeadersBytes(hs) + tail, |hs|) == Some((hs, tail))
    decreases |hs|
  {
    hide HeaderBytes, ReadHeader, HeaderFits;
    if hs == [] {
      assert HeadersBytes(hs) + tail == tail;
    } else {
      assert HeadersBytes(hs) + tail == HeaderBytes(hs[0]) + (HeadersBytes(hs[1..]) + tail);
      HeaderRoundTrip(hs[0], HeadersBytes(hs[1..]) + tail);
      HeadersRoundTrip(hs[1..], tail);
      assert [hs[0]] + hs[1..] == hs;
    }
  }

  // ------------------------------------------------------------ records

  predicate Fits(r: Record)
  {
    && -128 <= r.attributes < 128 && |r.headers| < TWO_31
    && (r.key.Some? ==> |r.key.value| < TWO_31) && (r.value.Some? ==> |r.value.value| < TWO_31)
    && (forall i :: 0 <= i < |r.headers| ==> HeaderFits(r.headers[i]))
  }

  function Body(r: Record): bytes
    requires Fits(r)
  {
    [r.attributes % 256] + (Varint(r.timestampDelta) + (Varint(r.offsetDelta) + (KeyBytes(r.key)
    + (Nullable(r.value) + (Uvarint(|r.headers|) + HeadersBytes(r.headers))))))
  }

  // What a record reads back as: itself, with an empty key where there was none.
  function AsReread(r: Record): Record { r.(key := Reread(r.key)) }

  function ReadBody(s: bytes): Option<Record>
  {
    if s == [] then None else
    var attributes := if s[0] < 128 then s[0] as int else s[0] as int - 256;
    var ts := ReadVarint(s[1..]);
    if ts.None? then None else
    var od := ReadVarint(ts.value.1);
    if od.None? then None else ReadContent(attributes, ts.value.0, Int32(od.value.0), od.value.1)
  }

  function ReadContent(attributes: int, ts: int64, od: int32, s: bytes): Option<Record>
  {
    var k := ReadNullable(s);
    if k.None? then None else
    var v := ReadNullable(k.value.1);
    if v.None? then None else
    var n := ReadUvarint(v.value.1, 0);
    if n.None? then None else
    var hs := ReadHeaders(n.value.1, n.value.0);
    if hs.None? then None else Some(Record(attributes, ts, od, k.value.0, v.value.0, hs.value.0))
  }

  lemma ContentRoundTrip(r: Record)
    requires Fits(r)
    ensures ReadContent(r.attributes, r.timestampDelta, r.offsetDelta,
              KeyBytes(r.key) + (Nullable(r.value) + (Uvarint(|r.headers|) + HeadersBytes(r.headers))))
         == Some(AsReread(r))
  {
    hide KeyBytes, Nullable, Uvarint, HeadersBytes, ReadNullable, ReadUvarint, ReadHeaders, HeaderFits;
    var hs := HeadersBytes(r.headers);
    var n := Uvarint(|r.headers|) + hs;
    KeyRoundTrip(r.key, Nullable(r.value) + n);
    NullableRoundTrip(r.value, n);
    FirstRoom();
    UvarintRoundTrip(|r.headers|, hs, 0);
    HeadersRoundTrip(r.headers, []);
    assert hs + [] == hs;
  }

  lemma BodyRoundTrip(r: Record)
    requires Fits(r)
    ensures ReadBody(Body(r)) == Some(AsReread(r))
  {
    hide KeyBytes, Nullable, Uvarint, HeadersBytes, ReadVarint, ReadContent, Varint, HeaderFits, AsReread;
    var rest := KeyBytes(r.key) + (Nullable(r.value) + (Uvarint(|r.headers|) + HeadersBytes(r.headers)));
    var s := Body(r);
    assert s[1..] == Varint(r.timestampDelta) + (Varint(r.offsetDelta) + rest);
    VarintRoundTrip(r.timestampDelta, Varint(r.offsetDelta) + rest);
    VarintRoundTrip(r.offsetDelta, rest);
    ContentRoundTrip(r);
  }

  function RecordBytes(r: Record): bytes
    requires Fits(r) && |Body(r)| < TWO_31
  {
    Varint(|Body(r)|) + Body(r)
  }

  function ReadRecord(s: bytes): (r: Option<(Record, bytes)>)
    ensures r.Some? ==> |r.value.1| < |s|
  {
    var n := ReadVarint(s);
    if n.None? || n.value.0 < 0 || n.value.0 > |n.value.1| then None else
    var rec := ReadBody(n.value.1[..n.value.0]);
    if rec.None? then None else Some((rec.value, n.value.1[n.value.0..]))
  }

  // A record read from its own bytes.
  lemma RecordRoundTrip(r: Record, tail: bytes)
    requires Fits(r) && |Body(r)| < TWO_31
    ensures ReadRecord(RecordBytes(r) + tail) == Some((AsReread(r), tail))
  {
    hide Varint, ReadVarint, Body, ReadBody, Fits, AsReread;
    var body := Body(r);
    assert RecordBytes(r) + tail == Varint(|body|) + (body + tail);
    VarintRoundTrip(|body|, body + tail);
    assert (body + tail)[..|body|] == body && (body + tail)[|body|..] == tail;
    BodyRoundTrip(r);
  }

  // ------------------------------------------------------------ batches

  ghost predicate AllFit(rs: seq<Record>) { forall i :: 0 <= i < |rs| ==> Fits(rs[i]) && |Body(rs[i])| < TWO_31 }

  function RecordsBytes(rs: seq<Record>): bytes
    requires AllFit(rs)
  {
    if rs == [] then [] else RecordBytes(rs[0]) + RecordsBytes(rs[1..])
  }

  function ReadRecords(s: bytes, count: int): Option<seq<Record>>
    decreases |s|
  {
    if count <= 0 || s == [] then Some([]) else
    var r := ReadRecord(s);
    if r.None? then None else
    var rest := ReadRecords(r.value.1, count - 1);
    if rest.None? then None else Some([r.value.0] + rest.value)
  }

  function AllReread(rs: seq<Record>): (r: seq<Record>)
    ensures |r| == |rs| && forall i :: 0 <= i < |rs| ==> r[i] == AsReread(rs[i])
  {
    seq(|rs|, i requires 0 <= i < |rs| => AsReread(rs[i]))
  }

  lemma {:induction false} RecordsRoundTrip(rs: seq<Record>)
    requires AllFit(rs)
    ensures ReadRecords(RecordsBytes(rs), |rs|) == Some(AllReread(rs))
    decreases |rs|
  {
    hide RecordBytes, ReadRecord, AsReread, Fits, Body;
    if rs != [] {
      RecordRoundTrip(rs[0], RecordsBytes(rs[1..]));
      RecordsRoundTrip(rs[1..]);
      assert [AsReread(rs[0])] + AllReread(rs[1..]) == AllReread(rs);
      assert RecordBytes(rs[0]) != [] by { RecordNotEmpty(rs[0]); }
    }
  }

  lemma RecordNotEmpty(r: Record)
    requires Fits(r) && |Body(r)| < TWO_31
    ensures RecordBytes(r) != []
  {
    hide Body;
  }

  // Whether the compactor can write these records as one batch.
  ghost predicate OneBatch(rs: seq<Record>)
  {
    rs != [] && |rs| < TWO_31 && AllFit(rs) && 49 + |RecordsBytes(rs)| < TWO_31
  }

  // The part of a batch under the checksum: no attributes, no producer, one timestamp.
  function Checked(now: int64, rs: seq<Record>): bytes
    requires OneBatch(rs)
  {
    BigEndian(0, 2) + Int32Bytes(|rs| - 1)
    + (Int64Bytes(now) + Int64Bytes(now) + Int64Bytes(-1) + BigEndian(0xffff, 2) + Int32Bytes(-1))
    + Int32Bytes(|rs|) + RecordsBytes(rs)
  }

  function LengthWord(rs: seq<Record>): bytes
    requires OneBatch(rs)
  {
    Int32Bytes(49 + |RecordsBytes(rs)|)
  }

  function Sealed(crc: Checksum, length: bytes, checked: bytes): bytes
  {
    Int64Bytes(0) + length + Int32Bytes(0) + [MAGIC] + BigEndian(crc(checked), 4) + checked
  }

  function BatchBytes(crc: Checksum, now: int64, rs: seq<Record>): bytes
    requires OneBatch(rs)
  {
    Sealed(crc, LengthWord(rs), Checked(now, rs))
  }

  // The records of a stored batch; a count of 0 stands for the last offset delta plus 1.
  function Decoded(raw: bytes): Option<seq<Record>>
  {
    if !HeaderOk(raw) then None else
    var count := Int32(Word(raw, 57, 4));
    ReadRecords(raw[61..], if count == 0 then Delta(raw) + 1 else count)
  }

  lemma CheckedFields(now: int64, rs: seq<Record>)
    requires OneBatch(rs)
    ensures var c := Checked(now, rs);
      && |c| == 40 + |RecordsBytes(rs)| && c[2..6] == Int32Bytes(|rs| - 1)
      && c[36..40] == Int32Bytes(|rs|) && c[40..] == RecordsBytes(rs)
  {
    hide Int32Bytes, Int64Bytes, BigEndian, RecordsBytes;
  }

  lemma BatchFields(crc: Checksum, now: int64, rs: seq<Record>)
    requires OneBatch(rs)
    ensures var b := BatchBytes(crc, now, rs);
      && |b| == 61 + |RecordsBytes(rs)| && b[16] == MAGIC
      && b[8..12] == Int32Bytes(49 + |RecordsBytes(rs)|) && b[23..27] == Int32Bytes(|rs| - 1)
      && b[57..61] == Int32Bytes(|rs|) && b[61..] == RecordsBytes(rs)
  {
    hide Int32Bytes, Int64Bytes, BigEndian, RecordsBytes, Checked;
    CheckedFields(now, rs);
    var b, c := BatchBytes(crc, now, rs), Checked(now, rs);
    assert b[21..] == c;
    SuffixSlice(b, 21, 2, 6);
    SuffixSlice(b, 21, 36, 40);
    assert b[8..12] == Int32Bytes(49 + |RecordsBytes(rs)|);
  }

  // A batch the compactor writes is well formed, takes one offset per record, and reads back as
  // its records with empty keys where there were none.
  lemma BatchRoundTrip(crc: Checksum, now: int64, rs: seq<Record>)
    requires OneBatch(rs)
    ensures var b := BatchBytes(crc, now, rs);
      WellFormed(b) && Delta(b) == |rs| - 1 && Decoded(b) == Some(AllReread(rs))
  {
    hide Int32Bytes, FromBigEndian, RecordsBytes, ReadRecords, BatchBytes, Int32;
    BatchFields(crc, now, rs);
    Int32RoundTrip(49 + |RecordsBytes(rs)|);
    Int32RoundTrip(|rs| - 1);
    Int32RoundTrip(|rs|);
    RecordsRoundTrip(rs);
  }

  // A batch that leaves its record count at 0 reads back the same: the last delta stands in for it.
  lemma ZeroCount(crc: Checksum, now: int64, rs: seq<Record>)
    requires OneBatch(rs)
    ensures var b := BatchBytes(crc, now, rs);
      |b| >= HEADER_SIZE && Decoded(b[..57] + Int32Bytes(0) + b[61..]) == Some(AllReread(rs))
  {
    hide Int32Bytes, FromBigEndian, RecordsBytes, ReadRecords, BatchBytes, Int32;
    BatchFields(crc, now, rs);
    var b := BatchBytes(crc, now, rs);
    var z := b[..57] + Int32Bytes(0) + b[61..];
    assert z[57..61] == Int32Bytes(0) && z[61..] == b[61..] && z[23..27] == b[23..27] && z[16] == b[16];
    Int32RoundTrip(|rs| - 1);
    Int32RoundTrip(0);
    RecordsRoundTrip(rs);
  }

  // Where a batch is placed in the log does not change its records.
  lemma AssignedRecords(raw: bytes, base: int64)
    requires |raw| >= HEADER_SIZE
    ensures Decoded(Assigned(raw, base)) == Decoded(raw)
  {
    hide Int64Bytes, FromBigEndian, ReadRecords, Int32;
    var b := Assigned(raw, base);
    assert b[57..61] == raw[57..61] && b[61..] == raw[61..] && b[23..27] == raw[23..27];
  }
}
