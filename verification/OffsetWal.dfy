/**
 The write-ahead log of committed offsets: length-prefixed, checksummed records appended to one
 file. Parsers take the bytes still to be read and return them shortened, as the source's
 advancing position does. The checksum is any function to 32-bit words.
 */
module OffsetWal {
  import opened Bytes

  const VERSION := 1
  const COMMIT := 1
  const MAX_RECORD := 0x10_0000
  const NULL_LENGTH := 0xffff

  datatype WalRecord = WalRecord(
    kind: byte, group: bytes, topic: bytes, partition: int32,
    offset: int64, leaderEpoch: int32, metadata: Option<bytes>, timestamp: int64)

  datatype Error =
    | ShortPayload | UnsupportedVersion | TruncatedStringLength | TruncatedString
    | TruncatedPartition | TruncatedOffset | TruncatedLeaderEpoch | TruncatedTimestamp
    | BadLength | ChecksumMismatch

  datatype Result<+T> = Ok(value: T) | Err(error: Error)
  {
    predicate IsFailure() { Err? }
    function PropagateFailure<U>(): Result<U> requires Err? { Err(error) }
    function Extract(): T requires Ok? { value }
  }

  type Checksum = c: bytes -> nat | forall p :: c(p) < TWO_32 witness _ => 0

  // ------------------------------------------------------------ payloads

  function StringBytes(s: bytes): bytes
  {
    BigEndian(|s|, 2) + s
  }

  function NullableBytes(s: Option<bytes>): bytes
  {
    if s.None? then BigEndian(NULL_LENGTH, 2) else StringBytes(s.value)
  }

  function Payload(r: WalRecord): bytes
  {
    [VERSION, r.kind] + (StringBytes(r.group) + (StringBytes(r.topic) + (Int32Bytes(r.partition) + (Int64Bytes(r.offset)
    + (Int32Bytes(r.leaderEpoch) + (NullableBytes(r.metadata) + Int64Bytes(r.timestamp)))))))
  }

  function ReadString(p: bytes): (r: Result<(bytes, bytes)>)
    ensures r.Ok? ==> |r.value.0| < TWO_16
  {
    if |p| < 2 then Err(TruncatedStringLength) else
    var n := FromBigEndian(p[..2]);
    FromBigEndianBound(p[..2]); WidthPowers();
    if 2 + n > |p| then Err(TruncatedString) else Ok((p[2..2 + n], p[2 + n..]))
  }

  function ReadNullable(p: bytes): (r: Result<(Option<bytes>, bytes)>)
    ensures r.Ok? && r.value.0.Some? ==> |r.value.0.value| < NULL_LENGTH
  {
    if |p| < 2 then Err(TruncatedStringLength)
    else if FromBigEndian(p[..2]) == NULL_LENGTH then Ok((None, p[2..]))
    else var s :- ReadString(p); Ok((Some(s.0), s.1))
  }

  function ReadInt32(p: bytes, short: Error): Result<(int32, bytes)>
  {
    if |p| < 4 then Err(short) else Ok((Int32(FromBigEndian(p[..4])), p[4..]))
  }

  function ReadInt64(p: bytes, short: Error): Result<(int64, bytes)>
  {
    if |p| < 8 then Err(short) else Ok((Int64(FromBigEndian(p[..8])), p[8..]))
  }

  function DecodePayload(p: bytes): Result<WalRecord>
  {
    if |p| < 2 then Err(ShortPayload)
    else if p[0] != VERSION then Err(UnsupportedVersion)
    else DecodeNames(p[1], p[2..])
  }

  function DecodeNames(kind: byte, p: bytes): Result<WalRecord>
  {
    var g :- ReadString(p);
    var t :- ReadString(g.1);
    DecodeRest(kind, g.0, t.0, t.1)
  }

  function DecodeRest(kind: byte, group: bytes, topic: bytes, p: bytes): Result<WalRecord>
  {
    var pt :- ReadInt32(p, TruncatedPartition);
    var off :- ReadInt64(pt.1, TruncatedOffset);
    var ep :- ReadInt32(off.1, TruncatedLeaderEpoch);
    var md :- ReadNullable(ep.1);
    var ts :- ReadInt64(md.1, TruncatedTimestamp);
    Ok(WalRecord(kind, group, topic, pt.0, off.0, ep.0, md.0, ts.0))
  }

  // The names' 16-bit lengths, and the one metadata length that means null, bound what survives.
  predicate Fits(r: WalRecord)
  {
    && |r.group| < TWO_16 && |r.topic| < TWO_16
    && (r.metadata.Some? ==> |r.metadata.value| < NULL_LENGTH)
  }

  lemma ReadStringBytes(s: bytes, tail: bytes)
    requires |s| < TWO_16
    ensures ReadString(StringBytes(s) + tail) == Ok((s, tail))
  {
    hide BigEndian, FromBigEndian;
    var p := StringBytes(s) + tail;
    assert p[..2] == BigEndian(|s|, 2);
    Uint16RoundTrip(|s|);
    assert p[2..2 + |s|] == s && p[2 + |s|..] == tail;
  }

  lemma ReadNullableBytes(s: Option<bytes>, tail: bytes)
    requires s.Some? ==> |s.value| < NULL_LENGTH
    ensures ReadNullable(NullableBytes(s) + tail) == Ok((s, tail))
  {
    hide BigEndian, FromBigEndian, ReadString;
    var p := NullableBytes(s) + tail;
    if s.None? {
      assert p[..2] == BigEndian(NULL_LENGTH, 2) && p[2..] == tail;
      Uint16RoundTrip(NULL_LENGTH);
    } else {
      assert p[..2] == BigEndian(|s.value|, 2);
      Uint16RoundTrip(|s.value|);
      ReadStringBytes(s.value, tail);
    }
  }

  lemma ReadInt32Bytes(v: int32, tail: bytes, short: Error)
    ensures ReadInt32(Int32Bytes(v) + tail, short) == Ok((v, tail))
  {
    hide Int32Bytes, FromBigEndian, Int32;
    var p := Int32Bytes(v) + tail;
    assert p[..4] == Int32Bytes(v) && p[4..] == tail;
    Int32RoundTrip(v);
  }

  lemma ReadInt64Bytes(v: int64, tail: bytes, short: Error)
    ensures ReadInt64(Int64Bytes(v) + tail, short) == Ok((v, tail))
  {
    hide Int64Bytes, FromBigEndian, Int64;
    var p := Int64Bytes(v) + tail;
    assert p[..8] == Int64Bytes(v) && p[8..] == tail;
    Int64RoundTrip(v);
  }

  // Decoding gives a record back, every field intact, exactly when its strings fit.
  lemma PayloadRoundTrip(r: WalRecord)
    ensures DecodePayload(Payload(r)) == Ok(r) <==> Fits(r)
  {
    hide StringBytes, NullableBytes, Int32Bytes, Int64Bytes, ReadString, ReadNullable, ReadInt32, ReadInt64;
    if Fits(r) {
      var ts := Int64Bytes(r.timestamp);
      var md := NullableBytes(r.metadata) + ts;
      var ep := Int32Bytes(r.leaderEpoch) + md;
      var off := Int64Bytes(r.offset) + ep;
      var pt := Int32Bytes(r.partition) + off;
      var tp := StringBytes(r.topic) + pt;
      assert Payload(r)[2..] == StringBytes(r.group) + tp;
      ReadStringBytes(r.group, tp);
      ReadStringBytes(r.topic, pt);
      ReadInt32Bytes(r.partition, off, TruncatedPartition);
      ReadInt64Bytes(r.offset, ep, TruncatedOffset);
      ReadInt32Bytes(r.leaderEpoch, md, TruncatedLeaderEpoch);
      ReadNullableBytes(r.metadata, ts);
      ReadInt64Bytes(r.timestamp, [], TruncatedTimestamp);
      assert ts + [] == ts;
    }
  }

  // ------------------------------------------------------------ the file

  function Encode(crc: Checksum, r: WalRecord): bytes
  {
    BigEndian(|Payload(r)|, 4) + Payload(r) + BigEndian(crc(Payload(r)), 4)
  }

  function EncodeAll(crc: Checksum, rs: seq<WalRecord>): bytes
  {
    if rs == [] then [] else Encode(crc, rs[0]) + EncodeAll(crc, rs[1..])
  }

  // The records handed to the callback, and the error that stopped the replay, if any.
  datatype Replayed = Replayed(records: seq<WalRecord>, error: Option<Error>)

  function Replay(crc: Checksum, file: bytes): Replayed
  {
    if |file| < 4 then Replayed([], None) else
    var n := FromBigEndian(file[..4]);
    if n <= 0 || n > MAX_RECORD then Replayed([], Some(BadLength))
    else if |file| < 4 + n + 4 then Replayed([], None)
    else if crc(file[4..4 + n]) != FromBigEndian(file[4 + n..8 + n]) then Replayed([], Some(ChecksumMismatch))
    else match DecodePayload(file[4..4 + n])
         case Err(e) => Replayed([], Some(e))
         case Ok(r) =>
           var rest := Replay(crc, file[8 + n..]);
           Replayed([r] + rest.records, rest.error)
  }

  // Reading record after record until the bytes run out, a torn last record being the end.
  method ReplayFile(crc: Checksum, file: bytes) returns (records: seq<WalRecord>, error: Option<Error>)
    ensures Replayed(records, error) == Replay(crc, file)
  {
    hide DecodePayload, FromBigEndian;
    records := [];
    var pos := 0;
    assert file[0..] == file;
    while true
      invariant pos <= |file|
      invariant var rest := Replay(crc, file[pos..]);
        Replay(crc, file) == Replayed(records + rest.records, rest.error)
      decreases |file| - pos
    {
      if pos + 4 > |file| {
        return records, None;
      }
      SuffixSlice(file, pos, 0, 4);
      var n := FromBigEndian(file[pos..pos + 4]);
      if n <= 0 || n > MAX_RECORD {
        return records, Some(BadLength);
      }
      if pos + 4 + n > |file| || pos + 4 + n + 4 > |file| {
        return records, None;
      }
      var payload := file[pos + 4..pos + 4 + n];
      SuffixSlice(file, pos, 4, 4 + n);
      SuffixSlice(file, pos, 4 + n, 8 + n);
      if crc(payload) != FromBigEndian(file[pos + 4 + n..pos + 8 + n]) {
        return records, Some(ChecksumMismatch);
      }
      var rec := DecodePayload(payload);
      if rec.Err? {
        return records, Some(rec.error);
      }
      ghost var rest := Replay(crc, file[pos + 8 + n..]);
      assert records + ([rec.value] + rest.records) == records + [rec.value] + rest.records;
      records := records + [rec.value];
      pos := pos + 8 + n;
    }
  }

  // How many of the records lie wholly inside the first k bytes.
  function Inside(crc: Checksum, rs: seq<WalRecord>, k: nat): (j: nat)
    ensures j <= |rs|
  {
    if rs == [] || k < |Encode(crc, rs[0])| then 0
    else 1 + Inside(crc, rs[1..], k - |Encode(crc, rs[0])|)
  }

  lemma PayloadSize(r: WalRecord)
    requires Fits(r)
    ensures 2 <= |Payload(r)| <= MAX_RECORD
  {
    hide BigEndian, Int32Bytes, Int64Bytes;
  }

  lemma EncodedFields(crc: Checksum, r: WalRecord, tail: bytes)
    requires |Payload(r)| <= MAX_RECORD
    ensures var n, file := |Payload(r)|, Encode(crc, r) + tail;
      && |file| == 8 + n + |tail| && file[4..4 + n] == Payload(r) && file[8 + n..] == tail
      && FromBigEndian(file[..4]) == n && FromBigEndian(file[4 + n..8 + n]) == crc(Payload(r))
  {
    hide Payload, BigEndian, FromBigEndian;
    var n, file := |Payload(r)|, Encode(crc, r) + tail;
    Uint32RoundTrip(n);
    Uint32RoundTrip(crc(Payload(r)));
    assert file[..4] == BigEndian(n, 4);
    assert file[4 + n..8 + n] == BigEndian(crc(Payload(r)), 4);
  }

  // The first record of a file, its bytes complete.
  lemma ReplayWhole(crc: Checksum, r: WalRecord, tail: bytes)
    requires Fits(r)
    ensures var rest := Replay(crc, tail);
      Replay(crc, Encode(crc, r) + tail) == Replayed([r] + rest.records, rest.error)
  {
    hide Payload, BigEndian, FromBigEndian, DecodePayload, Fits, Encode;
    PayloadSize(r);
    PayloadRoundTrip(r);
    EncodedFields(crc, r, tail);
  }

  // A record cut short anywhere ends the replay quietly.
  lemma ReplayTorn(crc: Checksum, r: WalRecord, k: nat)
    requires Fits(r) && k < |Encode(crc, r)|
    ensures Replay(crc, Encode(crc, r)[..k]) == Replayed([], None)
  {
    hide Payload, BigEndian, FromBigEndian, DecodePayload, Fits;
    PayloadSize(r);
    if k >= 4 {
      Uint32RoundTrip(|Payload(r)|);
      assert Encode(crc, r)[..k][..4] == BigEndian(|Payload(r)|, 4);
    }
  }

  // A crash may keep any byte prefix of the log: replaying it gives exactly the records wholly
  // inside the prefix, and no error.
  lemma {:induction false} ReplayPrefix(crc: Checksum, rs: seq<WalRecord>, k: nat)
    requires forall r :: r in rs ==> Fits(r)
    requires k <= |EncodeAll(crc, rs)|
    ensures Replay(crc, EncodeAll(crc, rs)[..k]) == Replayed(rs[..Inside(crc, rs, k)], None)
    decreases |rs|
  {
    hide Replay, Encode, Fits;
    if rs == [] {
      ReplayEmpty(crc);
      assert EncodeAll(crc, rs)[..k] == [];
    } else {
      var head, all := Encode(crc, rs[0]), EncodeAll(crc, rs);
      if k < |head| {
        ReplayTorn(crc, rs[0], k);
        assert all[..k] == head[..k];
      } else {
        var rest := EncodeAll(crc, rs[1..]);
        assert all[..k] == head + rest[..k - |head|];
        ReplayPrefix(crc, rs[1..], k - |head|);
        ReplayWhole(crc, rs[0], rest[..k - |head|]);
        var j := Inside(crc, rs[1..], k - |head|);
        assert [rs[0]] + rs[1..][..j] == rs[..1 + j];
      }
    }
  }

  lemma ReplayEmpty(crc: Checksum)
    ensures Replay(crc, []) == Replayed([], None)
  {
  }

  lemma {:induction false} ReplayOnto(crc: Checksum, rs: seq<WalRecord>, tail: bytes)
    requires forall r :: r in rs ==> Fits(r)
    ensures var rest := Replay(crc, tail);
      Replay(crc, EncodeAll(crc, rs) + tail) == Replayed(rs + rest.records, rest.error)
    decreases |rs|
  {
    hide Replay, Encode, Fits;
    if rs == [] {
      assert EncodeAll(crc, rs) + tail == tail;
      assert rs + Replay(crc, tail).records == Replay(crc, tail).records;
    } else {
      var rest := EncodeAll(crc, rs[1..]) + tail;
      assert EncodeAll(crc, rs) + tail == Encode(crc, rs[0]) + rest;
      ReplayWhole(crc, rs[0], rest);
      ReplayOnto(crc, rs[1..], tail);
      assert [rs[0]] + (rs[1..] + Replay(crc, tail).records) == rs + Replay(crc, tail).records;
    }
  }

  // Whether the bytes begin with what a replay takes for a record.
  predicate Passes(crc: Checksum, s: bytes)
  {
    && |s| >= 4 && var n := FromBigEndian(s[..4]);
    && 0 < n <= MAX_RECORD && 8 + n <= |s| && crc(s[4..4 + n]) == FromBigEndian(s[4 + n..8 + n])
    && DecodePayload(s[4..4 + n]).Ok?
  }

  lemma ReplayTail(crc: Checksum, tail: bytes)
    ensures Replay(crc, tail).records == [] <==> !Passes(crc, tail)
  {
    hide DecodePayload, FromBigEndian;
  }

  // For any torn tail and whatever is appended behind it: the records before it are all that a
  // replay gives, unless the tail's bytes run on into ones that pass for a record.
  lemma TornTailHides(crc: Checksum, rs: seq<WalRecord>, t: bytes, more: bytes)
    requires forall w :: w in rs ==> Fits(w)
    ensures Replay(crc, EncodeAll(crc, rs) + (t + more)).records == rs <==> !Passes(crc, t + more)
  {
    hide Replay, EncodeAll, Fits, Passes;
    ReplayOnto(crc, rs, t + more);
    ReplayTail(crc, t + more);
    var found := Replay(crc, t + more).records;
    assert found == [] ==> rs + found == rs;
    assert found != [] ==> |rs + found| > |rs|;
  }

  // A record that was decoded fits.
  lemma DecodedFits(p: bytes)
    requires DecodePayload(p).Ok?
    ensures Fits(DecodePayload(p).value)
  {
    hide FromBigEndian, ReadString, ReadNullable, ReadInt32, ReadInt64;
  }

  lemma {:induction false} ReplayedFit(crc: Checksum, file: bytes)
    ensures forall r :: r in Replay(crc, file).records ==> Fits(r)
    decreases |file|
  {
    hide DecodePayload, FromBigEndian, Fits;
    if |file| >= 4 {
      var n := FromBigEndian(file[..4]);
      if 0 < n <= MAX_RECORD && 8 + n <= |file| {
        ReplayedFit(crc, file[8 + n..]);
        if DecodePayload(file[4..4 + n]).Ok? { DecodedFits(file[4..4 + n]); }
      }
    }
  }

  lemma HighBytesZero(n: nat, v: nat)
    requires n <= MAX_RECORD && v < 256
    ensures BigEndian(n, 4)[0] == 0 && BigEndian(v, 4)[..3] == [0, 0, 0]
  {
    assert BigEndian(n, 4) == BigEndian(n / 256, 3) + [n % 256];
    assert BigEndian(n / 256, 3) == BigEndian(n / 256 / 256, 2) + [n / 256 % 256];
    assert BigEndian(v, 4) == BigEndian(0, 3) + [v];
    assert BigEndian(0, 3) == BigEndian(0, 2) + [0];
    assert BigEndian(0, 2) == BigEndian(0, 1) + [0];
  }

  // A torn tail is tolerated only as the end of the file. The log is opened for appending without
  // cutting the tail off, and then a record acknowledged after a one-byte tail makes the next
  // replay stop with an error at the tail.
  lemma AppendAfterTornTail(crc: Checksum, rs: seq<WalRecord>, torn: WalRecord, r: WalRecord)
    requires (forall w :: w in rs ==> Fits(w)) && Fits(torn) && |Payload(r)| < 256
    ensures |Encode(crc, torn)| >= 1
    ensures Replay(crc, EncodeAll(crc, rs) + (Encode(crc, torn)[..1] + Encode(crc, r))) == Replayed(rs, Some(BadLength))
  {
    hide Payload, BigEndian, FromBigEndian, DecodePayload, Fits, EncodeAll;
    PayloadSize(torn);
    HighBytesZero(|Payload(torn)|, |Payload(r)|);
    var tail := Encode(crc, torn)[..1] + Encode(crc, r);
    assert Encode(crc, r)[..3] == BigEndian(|Payload(r)|, 4)[..3];
    assert tail[..4] == [0, 0, 0, 0];
    ZeroWord();
    ReplayOnto(crc, rs, tail);
    assert rs + [] == rs;
  }

  lemma ZeroWord()
    ensures FromBigEndian([0, 0, 0, 0]) == 0
  {
    assert [0, 0, 0, 0][..3] == [0, 0, 0] && [0, 0, 0][..2] == [0, 0] && [0, 0][..1] == [0];
    assert FromBigEndian([0, 0]) == 0;
  }
}
