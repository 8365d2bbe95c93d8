/**
 The broker's LZ4 codec. `Block` is the meaning of a compressed block (section "Compressed block
 format" of the LZ4 Block Format Description): sequences of a literal run and a back reference,
 closed by a last literal run. `Serialize` and `Expand` are the two readings of a block, as bytes
 and as the data it stands for.
 */
module Lz4 {
  import opened Bytes

  datatype Block =
    | Last(literals: bytes)
    | Match(literals: bytes, offset: nat, length: nat, rest: Block)

  datatype Error =
    | LiteralLengthOverrun | LiteralOverrun | OffsetOverrun | MatchLengthOverrun
    | InvalidOffset(offset: int)
    | FrameTooShort | BadMagic | LengthMismatch | SizeMismatch

  datatype Result<+T> = Ok(value: T) | Err(error: Error)

  const MIN_MATCH := 4
  const MAX_MATCH := 65535 + 15
  const MAX_OFFSET := 65535
  const TABLE_SIZE := 16384
  const FRAME_MAGIC := 0x184D2204

  function MaxCompressedLen(n: nat): nat { n + n / 255 + 16 }

  // ------------------------------------------------------------ the format

  // A length is a nibble, followed when the nibble is 15 by bytes that are summed until one is not 255.
  function Nibble(n: nat): (r: nat)
    ensures r <= 15
  {
    if n >= 15 then 15 else n
  }

  function Extension(rest: nat): bytes
  {
    if rest >= 255 then [255] + Extension(rest - 255) else [rest]
  }

  function LengthBytes(n: nat): bytes
  {
    if n >= 15 then Extension(n - 15) else []
  }

  // The bytes of one block. A back reference stores its offset little-endian and its length minus 4.
  function Serialize(b: Block): bytes
    requires WellFormed(b)
  {
    match b
    case Last(lits) => [Nibble(|lits|) * 16] + LengthBytes(|lits|) + lits
    case Match(lits, offset, length, rest) =>
      [Nibble(|lits|) * 16 + Nibble(length - MIN_MATCH)] + LengthBytes(|lits|) + lits
      + [offset % 256, offset / 256] + LengthBytes(length - MIN_MATCH) + Serialize(rest)
  }

  predicate WellFormed(b: Block)
  {
    b.Match? ==> MIN_MATCH <= b.length && 1 <= b.offset <= MAX_OFFSET && WellFormed(b.rest)
  }

  // Every back reference stays inside what has been produced by then.
  predicate InRange(b: Block, produced: nat)
  {
    b.Match? ==> b.offset <= produced + |b.literals| && InRange(b.rest, produced + |b.literals| + b.length)
  }

  // An overlapping copy: each byte appended is the one `offset` back from the current end.
  function Copy(dst: bytes, offset: nat, count: nat): (r: bytes)
    requires 1 <= offset <= |dst|
    ensures |r| == |dst| + count
    decreases count
  {
    if count == 0 then dst else Copy(dst + [dst[|dst| - offset]], offset, count - 1)
  }

  function Expand(dst: bytes, b: Block): (r: bytes)
    requires WellFormed(b) && InRange(b, |dst|)
    decreases b
  {
    match b
    case Last(lits) => dst + lits
    case Match(lits, offset, length, rest) => Expand(Copy(dst + lits, offset, length), rest)
  }

  // ------------------------------------------------------------ decoding

  function ReadLength(src: bytes, sum: nat): (r: Option<(nat, bytes)>)
    ensures r.Some? ==> |r.value.1| < |src|
  {
    if src == [] then None
    else if src[0] == 255 then ReadLength(src[1..], sum + 255)
    else Some((sum + src[0], src[1..]))
  }

  // A nibble and, when it is 15, its extension bytes.
  function FullLength(nibble: nat, src: bytes): (r: Option<(nat, bytes)>)
    ensures r.Some? ==> |r.value.1| <= |src|
  {
    if nibble == 15 then ReadLength(src, 15) else Some((nibble, src))
  }

  // What the decoder answers for the input still to be read, `dst` being the output so far.
  function Decode(src: bytes, dst: bytes): (r: Result<bytes>)
    decreases |src|
  {
    if src == [] then Ok(dst) else
    var lits := FullLength(src[0] / 16, src[1..]);
    if lits.None? then Err(LiteralLengthOverrun) else
    var (n, rest) := lits.value;
    if n > |rest| then Err(LiteralOverrun) else
    var dst', rest' := dst + rest[..n], rest[n..];
    if rest' == [] then Ok(dst')
    else if |rest'| < 2 then Err(OffsetOverrun)
    else DecodeMatch(src[0] % 16, rest', dst')
  }

  // The second half of a sequence: offset, match length and copy.
  function DecodeMatch(nibble: nat, src: bytes, dst: bytes): (r: Result<bytes>)
    requires |src| >= 2
    decreases |src|
  {
    var offset := src[0] as int + src[1] as int * 256;
    var len := FullLength(nibble, src[2..]);
    if len.None? then Err(MatchLengthOverrun)
    else if offset <= 0 || offset > |dst| then Err(InvalidOffset(offset))
    else Decode(len.value.1, Copy(dst, offset, len.value.0 + MIN_MATCH))
  }

  lemma {:induction false} ReadLengthExtension(rest: nat, tail: bytes, sum: nat)
    ensures ReadLength(Extension(rest) + tail, sum) == Some((sum + rest, tail))
  {
    var s := Extension(rest) + tail;
    if rest >= 255 {
      assert s[1..] == Extension(rest - 255) + tail;
      ReadLengthExtension(rest - 255, tail, sum + 255);
    } else {
      assert s[1..] == tail;
    }
  }

  lemma FullLengthBytes(n: nat, tail: bytes)
    ensures FullLength(Nibble(n), LengthBytes(n) + tail) == Some((n, tail))
  {
    if n >= 15 {
      ReadLengthExtension(n - 15, tail, 15);
    } else {
      assert LengthBytes(n) + tail == tail;
    }
  }

  lemma DecodeLiterals(token: byte, lits: bytes, tail: bytes, dst: bytes)
    requires token / 16 == Nibble(|lits|)
    ensures Decode([token] + LengthBytes(|lits|) + lits + tail, dst)
         == if tail == [] then Ok(dst + lits)
            else if |tail| < 2 then Err(OffsetOverrun)
            else DecodeMatch(token % 16, tail, dst + lits)
  {
    var s := [token] + LengthBytes(|lits|) + lits + tail;
    var rest := lits + tail;
    assert s[1..] == LengthBytes(|lits|) + rest;
    FullLengthBytes(|lits|, rest);
    assert rest[..|lits|] == lits && rest[|lits|..] == tail;
  }

  lemma DecodeReference(offset: nat, length: nat, tail: bytes, dst: bytes)
    requires 1 <= offset <= MAX_OFFSET && offset <= |dst| && MIN_MATCH <= length
    ensures var s := [offset % 256, offset / 256] + LengthBytes(length - MIN_MATCH) + tail;
            DecodeMatch(Nibble(length - MIN_MATCH), s, dst) == Decode(tail, Copy(dst, offset, length))
  {
    hide Decode, Copy, LengthBytes, Nibble, FullLength;
    var m := length - MIN_MATCH;
    var s := [offset % 256, offset / 256] + LengthBytes(m) + tail;
    assert s[2..] == LengthBytes(m) + tail;
    FullLengthBytes(m, tail);
  }

  // Decoding a block's bytes yields what the block stands for.
  lemma {:induction false} DecodeSerialize(b: Block, dst: bytes)
    requires WellFormed(b) && InRange(b, |dst|)
    ensures Decode(Serialize(b), dst) == Ok(Expand(dst, b))
    decreases b
  {
    hide Decode, DecodeMatch, LengthBytes;
    var lits := b.literals;
    match b
    case Last(_) =>
      DecodeLiterals(Nibble(|lits|) * 16, lits, [], dst);
      assert Serialize(b) + [] == Serialize(b);
    case Match(_, offset, length, rest) =>
      var token := Nibble(|lits|) * 16 + Nibble(length - MIN_MATCH);
      var tail := [offset % 256, offset / 256] + LengthBytes(length - MIN_MATCH) + Serialize(rest);
      assert Serialize(b) == [token] + LengthBytes(|lits|) + lits + tail;
      DecodeLiterals(token, lits, tail, dst);
      DecodeReference(offset, length, Serialize(rest), dst + lits);
      DecodeSerialize(rest, Copy(dst + lits, offset, length));
  }

  // ------------------------------------------------------------ size

  lemma {:induction false} ExtensionSize(rest: nat)
    ensures |Extension(rest)| == rest / 255 + 1
  {
    if rest >= 255 { ExtensionSize(rest - 255); }
  }

  lemma LengthBytesSize(n: nat)
    ensures 255 * |LengthBytes(n)| <= n + 240
    ensures n < 15 ==> LengthBytes(n) == []
  {
    if n >= 15 { ExtensionSize(n - 15); }
  }

  // Every match pays for its own sequence, so only the literals' extension bytes and the last
  // token can exceed the size of the data.
  lemma {:induction false} SerializedSize(b: Block, dst: bytes)
    requires WellFormed(b) && InRange(b, |dst|)
    ensures |Expand(dst, b)| >= |dst|
    ensures 255 * |Serialize(b)| <= 256 * (|Expand(dst, b)| - |dst|) + 495
    decreases b
  {
    LengthBytesSize(|b.literals|);
    if b.Match? {
      LengthBytesSize(b.length - MIN_MATCH);
      SerializedSize(b.rest, Copy(dst + b.literals, b.offset, b.length));
    }
  }

  // ------------------------------------------------------------ encoding

  // The hash of four input bytes picks a slot of the position table.
  type Hasher = h: (byte, byte, byte, byte) -> nat | forall a, b, c, d :: h(a, b, c, d) < TABLE_SIZE
    witness (a, b, c, d) => 0

  // The multiplicative hash in use.
  function Multiplicative(a: byte, b: byte, c: byte, d: byte): (h: nat)
    ensures h < TABLE_SIZE
  {
    var w: bv32 := (a as bv32) | ((b as bv32) << 8) | ((c as bv32) << 16) | ((d as bv32) << 24);
    var x := (w ^ (w >> 16)) * 0x9e3779b1;
    (((x ^ (x >> 16)) & 0x3fff) as bv14) as nat
  }

  function SourceHash(): Hasher { (a, b, c, d) => Multiplicative(a, b, c, d) }

  predicate IsMatch(src: bytes, cand: int, i: nat)
    requires i + MIN_MATCH <= |src|
  {
    0 <= cand && cand + 4 <= i && i - cand <= MAX_OFFSET
    && src[cand] == src[i] && src[cand + 1] == src[i + 1]
    && src[cand + 2] == src[i + 2] && src[cand + 3] == src[i + 3]
  }

  // The k bytes at cand and at i are the same.
  predicate Agree(src: bytes, cand: nat, i: nat, k: nat)
    requires cand < i && i + k <= |src|
  {
    src[cand..cand + k] == src[i..i + k]
  }

  lemma MatchAgrees(src: bytes, cand: int, i: nat)
    requires i + MIN_MATCH <= |src| && IsMatch(src, cand, i)
    ensures Agree(src, cand, i, MIN_MATCH)
  {
    assert src[cand..cand + 4] == src[i..i + 4];
  }

  // The length of the longest common run at cand and i, from a run of k known to agree.
  function MatchLength(src: bytes, cand: nat, i: nat, k: nat): (n: nat)
    requires cand < i && i + k <= |src| && k <= MAX_MATCH && Agree(src, cand, i, k)
    ensures k <= n <= MAX_MATCH && i + n <= |src| && Agree(src, cand, i, n)
    ensures n == MAX_MATCH || i + n == |src| || src[cand + n] != src[i + n]
    decreases |src| - i - k
  {
    if i + k < |src| && src[cand + k] == src[i + k] && k < MAX_MATCH then
      assert src[cand..cand + k + 1] == src[cand..cand + k] + [src[cand + k]];
      assert src[i..i + k + 1] == src[i..i + k] + [src[i + k]];
      MatchLength(src, cand, i, k + 1)
    else k
  }

  // The greedy parse of src from position i, with the literals since litStart pending.
  function Parse(hash: Hasher, src: bytes, table: seq<int>, i: nat, litStart: nat): (b: Block)
    requires |table| == TABLE_SIZE && litStart <= i <= |src|
    ensures WellFormed(b) && InRange(b, litStart)
    decreases |src| - i
  {
    if i + MIN_MATCH > |src| then Last(src[litStart..]) else
    var pos := hash(src[i], src[i + 1], src[i + 2], src[i + 3]);
    var cand, table' := table[pos], table[pos := Int32(i)];
    if IsMatch(src, cand, i) then
      MatchAgrees(src, cand, i);
      var n := MatchLength(src, cand, i, MIN_MATCH);
      Match(src[litStart..i], i - cand, n, Parse(hash, src, table', i + n, i + n))
    else Parse(hash, src, table', i + 1, litStart)
  }

  lemma {:induction false} CopyOfMatch(src: bytes, cand: nat, i: nat, count: nat)
    requires cand < i && i + count <= |src| && Agree(src, cand, i, count)
    ensures Copy(src[..i], i - cand, count) == src[..i + count]
    decreases count
  {
    if count > 0 {
      assert src[cand] == src[cand..cand + count][0] == src[i..i + count][0] == src[i];
      assert src[..i] + [src[cand]] == src[..i + 1];
      assert src[cand + 1..cand + count] == src[cand..cand + count][1..];
      assert src[i + 1..i + count] == src[i..i + count][1..];
      CopyOfMatch(src, cand + 1, i + 1, count - 1);
    }
  }

  lemma ExpandMatch(src: bytes, litStart: nat, cand: nat, i: nat, n: nat, rest: Block)
    requires litStart <= i && cand < i && i + n <= |src| && Agree(src, cand, i, n)
    requires WellFormed(rest) && InRange(rest, i + n) && MIN_MATCH <= n && i - cand <= MAX_OFFSET
    ensures Expand(src[..litStart], Match(src[litStart..i], i - cand, n, rest)) == Expand(src[..i + n], rest)
  {
    hide Copy;
    assert src[..litStart] + src[litStart..i] == src[..i];
    CopyOfMatch(src, cand, i, n);
  }

  lemma ExpandLast(src: bytes, litStart: nat)
    requires litStart <= |src|
    ensures Expand(src[..litStart], Last(src[litStart..])) == src
  {
  }

  // Whatever candidates the table holds, the parse stands for the input.
  lemma {:induction false} ParseExpands(hash: Hasher, src: bytes, table: seq<int>, i: nat, litStart: nat)
    requires |table| == TABLE_SIZE && litStart <= i <= |src|
    ensures Expand(src[..litStart], Parse(hash, src, table, i, litStart)) == src
    decreases |src| - i
  {
    hide Expand, MatchLength, Int32;
    if i + MIN_MATCH > |src| {
      ExpandLast(src, litStart);
    } else {
      var pos := hash(src[i], src[i + 1], src[i + 2], src[i + 3]);
      var cand, table' := table[pos], table[pos := Int32(i)];
      if IsMatch(src, cand, i) {
        MatchAgrees(src, cand, i);
        var n := MatchLength(src, cand, i, MIN_MATCH);
        ExpandMatch(src, litStart, cand, i, n, Parse(hash, src, table', i + n, i + n));
        ParseExpands(hash, src, table', i + n, i + n);
      } else {
        ParseExpands(hash, src, table', i + 1, litStart);
      }
    }
  }

  // ------------------------------------------------------------ the codec as the source runs it

  function EmptyTable(): (t: seq<int>)
    ensures |t| == TABLE_SIZE
  {
    seq(TABLE_SIZE, _ => -1)
  }

  function Encoded(hash: Hasher, src: bytes): bytes
  {
    Serialize(Parse(hash, src, EmptyTable(), 0, 0))
  }

  // Any hash function gives a block that decodes to the input and fits the buffer set aside for it.
  lemma EncodedCorrect(hash: Hasher, src: bytes)
    ensures Decode(Encoded(hash, src), []) == Ok(src)
    ensures |Encoded(hash, src)| <= MaxCompressedLen(|src|)
  {
    hide Decode, Expand, Serialize, Parse;
    var b := Parse(hash, src, EmptyTable(), 0, 0);
    assert src[..0] == [];
    ParseExpands(hash, src, EmptyTable(), 0, 0);
    DecodeSerialize(b, []);
    SerializedSize(b, []);
  }

  method AppendLength(buf: bytes, n: nat) returns (out: bytes)
    ensures out == buf + LengthBytes(n)
  {
    out := buf;
    if n >= 15 {
      var rest := n - 15;
      while rest >= 255
        invariant out + Extension(rest) == buf + LengthBytes(n)
      {
        out := out + [255];
        rest := rest - 255;
      }
      out := out + [rest];
    }
  }

  method AppendSequence(buf: bytes, lits: bytes, offset: nat, matchLen: nat) returns (out: bytes)
    requires 1 <= offset <= MAX_OFFSET && MIN_MATCH <= matchLen
    ensures forall rest :: WellFormed(rest) ==>
      out + Serialize(rest) == buf + Serialize(Match(lits, offset, matchLen, rest))
  {
    hide LengthBytes, Serialize, Nibble;
    out := buf + [Nibble(|lits|) * 16 + Nibble(matchLen - MIN_MATCH)];
    out := AppendLength(out, |lits|);
    out := out + lits + [offset % 256, offset / 256];
    out := AppendLength(out, matchLen - MIN_MATCH);
    forall rest | WellFormed(rest)
      ensures out + Serialize(rest) == buf + Serialize(Match(lits, offset, matchLen, rest))
    {
      SerializeMatch(buf, lits, offset, matchLen, rest);
    }
  }

  method AppendLast(buf: bytes, lits: bytes) returns (out: bytes)
    ensures out == buf + Serialize(Last(lits))
  {
    out := buf + [Nibble(|lits|) * 16];
    out := AppendLength(out, |lits|);
    out := out + lits;
  }

  lemma SerializeMatch(buf: bytes, lits: bytes, offset: nat, length: nat, rest: Block)
    requires 1 <= offset <= MAX_OFFSET && MIN_MATCH <= length && WellFormed(rest)
    ensures buf + Serialize(Match(lits, offset, length, rest))
         == buf + [Nibble(|lits|) * 16 + Nibble(length - MIN_MATCH)] + LengthBytes(|lits|) + lits
            + [offset % 256, offset / 256] + LengthBytes(length - MIN_MATCH) + Serialize(rest)
  {
    hide LengthBytes, Nibble;
  }

  method ExtendMatch(src: bytes, cand: nat, i: nat) returns (matchLen: nat)
    requires i + MIN_MATCH <= |src| && IsMatch(src, cand, i) && Agree(src, cand, i, MIN_MATCH)
    ensures matchLen == MatchLength(src, cand, i, MIN_MATCH)
  {
    hide Agree, MatchLength;
    matchLen := 4;
    while i + matchLen < |src| && src[cand + matchLen] == src[i + matchLen] && matchLen < MAX_MATCH
      invariant 4 <= matchLen <= MAX_MATCH && i + matchLen <= |src| && Agree(src, cand, i, matchLen)
      invariant MatchLength(src, cand, i, MIN_MATCH) == MatchLength(src, cand, i, matchLen)
    {
      MatchGoesOn(src, cand, i, matchLen);
      matchLen := matchLen + 1;
    }
    MatchStops(src, cand, i, matchLen);
  }

  lemma MatchGoesOn(src: bytes, cand: nat, i: nat, k: nat)
    requires cand < i && i + k < |src| && src[cand + k] == src[i + k] && k < MAX_MATCH && Agree(src, cand, i, k)
    ensures Agree(src, cand, i, k + 1) && MatchLength(src, cand, i, k) == MatchLength(src, cand, i, k + 1)
  {
    assert src[cand..cand + k + 1] == src[cand..cand + k] + [src[cand + k]];
    assert src[i..i + k + 1] == src[i..i + k] + [src[i + k]];
  }

  lemma MatchStops(src: bytes, cand: nat, i: nat, k: nat)
    requires cand < i && i + k <= |src| && k <= MAX_MATCH && Agree(src, cand, i, k)
    requires i + k == |src| || k == MAX_MATCH || src[cand + k] != src[i + k]
    ensures MatchLength(src, cand, i, k) == k
  {
  }

  lemma ParseStep(hash: Hasher, src: bytes, table: seq<int>, i: nat, litStart: nat)
    requires |table| == TABLE_SIZE && litStart <= i && i + MIN_MATCH <= |src|
    ensures var pos := hash(src[i], src[i + 1], src[i + 2], src[i + 3]);
      var cand, table' := table[pos], table[pos := Int32(i)];
      if IsMatch(src, cand, i) then
        && Agree(src, cand, i, MIN_MATCH)
        && Parse(hash, src, table, i, litStart)
           == var n := MatchLength(src, cand, i, MIN_MATCH);
              Match(src[litStart..i], i - cand, n, Parse(hash, src, table', i + n, i + n))
      else Parse(hash, src, table, i, litStart) == Parse(hash, src, table', i + 1, litStart)
  {
    hide MatchLength, Int32;
    var cand := table[hash(src[i], src[i + 1], src[i + 2], src[i + 3])];
    if IsMatch(src, cand, i) { MatchAgrees(src, cand, i); }
  }

  lemma ParseEnd(hash: Hasher, src: bytes, table: seq<int>, i: nat, litStart: nat)
    requires |table| == TABLE_SIZE && litStart <= i <= |src| < i + MIN_MATCH
    ensures Parse(hash, src, table, i, litStart) == Last(src[litStart..])
  {
  }

  // The match finder: a table of positions by hash, literals pending since litStart.
  method BlockEncode(hash: Hasher, src: bytes) returns (out: bytes)
    ensures out == Encoded(hash, src)
    ensures Decode(out, []) == Ok(src) && |out| <= MaxCompressedLen(|src|)
  {
    hide Decode, Serialize, Parse, MatchLength, MaxCompressedLen, Int32, Agree;
    out := [];
    var table := new int[TABLE_SIZE](_ => -1);
    var litStart: nat, i: nat := 0, 0;
    assert table[..] == EmptyTable();
    while i + MIN_MATCH <= |src|
      invariant litStart <= i <= |src| && table.Length == TABLE_SIZE
      invariant out + Serialize(Parse(hash, src, table[..], i, litStart)) == Encoded(hash, src)
    {
      var pos := hash(src[i], src[i + 1], src[i + 2], src[i + 3]);
      var cand := table[pos];
      ghost var before := table[..];
      ParseStep(hash, src, before, i, litStart);
      table[pos] := Int32(i);
      assert table[..] == before[pos := Int32(i)];
      if IsMatch(src, cand, i) {
        var matchLen := ExtendMatch(src, cand, i);
        out := AppendSequence(out, src[litStart..i], i - cand, matchLen);
        i := i + matchLen;
        litStart := i;
      } else {
        i := i + 1;
      }
    }
    ParseEnd(hash, src, table[..], i, litStart);
    out := AppendLast(out, src[litStart..]);
    EncodedCorrect(hash, src);
  }

  // The bytes of a length extension, from position i.
  method ReadLengthAt(src: bytes, start: nat, nibble: nat) returns (ok: bool, len: nat, i: nat)
    requires start <= |src|
    ensures ok ==> start <= i <= |src| && FullLength(nibble, src[start..]) == Some((len, src[i..]))
    ensures !ok ==> FullLength(nibble, src[start..]) == None
  {
    len, i := nibble, start;
    if nibble == 15 {
      while true
        invariant start <= i <= |src|
        invariant ReadLength(src[start..], 15) == ReadLength(src[i..], len)
        decreases |src| - i
      {
        if i >= |src| {
          return false, len, i;
        }
        var b := src[i];
        assert src[i..][1..] == src[i + 1..];
        i := i + 1;
        len := len + b;
        if b != 255 {
          return true, len, i;
        }
      }
    }
    return true, len, i;
  }

  method CopyMatch(buf: bytes, offset: nat, matchLen: nat) returns (dst: bytes)
    requires 1 <= offset <= |buf|
    ensures dst == Copy(buf, offset, matchLen)
  {
    dst := buf;
    var start := |dst| - offset;
    for j := 0 to matchLen
      invariant |dst| == |buf| + j
      invariant Copy(dst, offset, matchLen - j) == Copy(buf, offset, matchLen)
    {
      dst := dst + [dst[start + j]];
    }
  }

  function Truncated(r: Result<bytes>, n: nat): Result<bytes>
  {
    if r.Ok? && |r.value| > n then Ok(r.value[..n]) else r
  }

  method BlockDecode(src: bytes, uncompLen: nat) returns (r: Result<bytes>)
    ensures r == Truncated(Decode(src, []), uncompLen)
  {
    hide FullLength, Copy;
    var dst, i: nat := [], 0;
    assert src[0..] == src;
    while i < |src|
      invariant i <= |src|
      invariant Decode(src, []) == Decode(src[i..], dst)
    {
      var token := src[i];
      ghost var at := src[i..];
      assert at[1..] == src[i + 1..];
      i := i + 1;
      var ok, litLen, next := ReadLengthAt(src, i, token / 16);
      if !ok {
        return Err(LiteralLengthOverrun);
      }
      i := next;
      if i + litLen > |src| {
        return Err(LiteralOverrun);
      }
      assert src[i..][..litLen] == src[i..i + litLen] && src[i..][litLen..] == src[i + litLen..];
      dst := dst + src[i..i + litLen];
      i := i + litLen;
      if i >= |src| {
        break;
      }
      if i + 2 > |src| {
        return Err(OffsetOverrun);
      }
      assert Decode(src, []) == DecodeMatch(token % 16, src[i..], dst);
      var offset := src[i] as int + src[i + 1] as int * 256;
      assert src[i..][2..] == src[i + 2..];
      i := i + 2;
      var matchLen;
      ok, matchLen, next := ReadLengthAt(src, i, token % 16);
      if !ok {
        return Err(MatchLengthOverrun);
      }
      i := next;
      matchLen := matchLen + MIN_MATCH;
      if offset <= 0 || offset > |dst| {
        return Err(InvalidOffset(offset));
      }
      dst := CopyMatch(dst, offset, matchLen);
    }
    assert Decode(src, []) == Ok(dst);
    if |dst| > uncompLen {
      dst := dst[..uncompLen];
    }
    return Ok(dst);
  }

  // ------------------------------------------------------------ the private frame

  function Frame(block: bytes, srcLen: nat): bytes
  {
    BigEndian(FRAME_MAGIC, 4) + BigEndian(|block|, 4) + BigEndian(srcLen, 4) + block
  }

  function Compressed(hash: Hasher, src: bytes): bytes
  {
    if src == [] then [] else Frame(Encoded(hash, src), |src|)
  }

  function Decompressed(src: bytes): Result<bytes>
  {
    if src == [] then Ok([])
    else if |src| < 12 then Err(FrameTooShort)
    else if FromBigEndian(src[..4]) != FRAME_MAGIC then Err(BadMagic)
    else if FromBigEndian(src[4..8]) != |src| - 12 then Err(LengthMismatch)
    else
      var n := FromBigEndian(src[8..12]);
      var out := Truncated(Decode(src[12..], []), n);
      if out.Ok? && |out.value| != n then Err(SizeMismatch) else out
  }

  // The codec with its own hash function.
  method Compress(src: bytes) returns (out: bytes)
    ensures out == Compressed(SourceHash(), src)
    ensures Decompressed(out) == Ok(src) <==> |src| < TWO_32 && |Encoded(SourceHash(), src)| < TWO_32
  {
    hide Decompressed, Encoded, SourceHash;
    RoundTripExactly(SourceHash(), src);
    if |src| == 0 {
      return [];
    }
    var block := BlockEncode(SourceHash(), src);
    out := BigEndian(FRAME_MAGIC, 4);
    out := out + BigEndian(|block|, 4);
    out := out + BigEndian(|src|, 4);
    out := out + block;
  }

  // Once the recorded length equals the bytes present, the source's branch for a four-byte
  // trailer cannot be taken, so it has no counterpart here.
  method Decompress(src: bytes) returns (r: Result<bytes>)
    ensures r == Decompressed(src)
  {
    hide Decode;
    if |src| == 0 {
      return Ok([]);
    }
    if |src| < 12 {
      return Err(FrameTooShort);
    }
    if FromBigEndian(src[..4]) != FRAME_MAGIC {
      return Err(BadMagic);
    }
    var compLen, uncompLen := FromBigEndian(src[4..8]), FromBigEndian(src[8..12]);
    if compLen != |src| - 12 {
      return Err(LengthMismatch);
    }
    var out := BlockDecode(src[12..], uncompLen);
    if out.Err? {
      return out;
    }
    if |out.value| != uncompLen {
      return Err(SizeMismatch);
    }
    return out;
  }

  lemma FrameFields(block: bytes, srcLen: nat)
    ensures var f := Frame(block, srcLen);
      && |f| == 12 + |block| && f[12..] == block
      && FromBigEndian(f[..4]) == FRAME_MAGIC
      && FromBigEndian(f[4..8]) == |block| % TWO_32
      && FromBigEndian(f[8..12]) == srcLen % TWO_32
  {
    hide BigEndian, FromBigEndian;
    var f := Frame(block, srcLen);
    assert f[..4] == BigEndian(FRAME_MAGIC, 4);
    assert f[4..8] == BigEndian(|block|, 4);
    assert f[8..12] == BigEndian(srcLen, 4);
    assert f[12..] == block;
    Uint32RoundTrip(FRAME_MAGIC);
    Uint32RoundTrip(|block|);
    Uint32RoundTrip(srcLen);
  }

  // What is decompressed without an error: nothing, and the frames, as the encoder lays them out,
  // around a block that decodes to the output or to more. Whatever else the header says is refused.
  lemma FrameAccepted(src: bytes, out: bytes)
    ensures Decompressed(src) == Ok(out) <==>
      || (src == [] && out == [])
      || (&& 12 <= |src| < 12 + TWO_32 && |out| < TWO_32 && src == Frame(src[12..], |out|)
          && Decode(src[12..], []).Ok? && out <= Decode(src[12..], []).value)
  {
    hide Decode, FromBigEndian, Frame;
    if |src| >= 12 {
      FrameFields(src[12..], |out|);
      if FromBigEndian(src[..4]) == FRAME_MAGIC && FromBigEndian(src[4..8]) == |src| - 12 { FrameOf(src); }
      if Decode(src[12..], []).Ok? && out <= Decode(src[12..], []).value {
        var d := Decode(src[12..], []).value;
        assert out == d[..|out|] && d[..|d|] == d;
      }
    }
  }

  // A frame is what its own fields say.
  lemma FrameOf(src: bytes)
    requires |src| >= 12 && FromBigEndian(src[..4]) == FRAME_MAGIC && FromBigEndian(src[4..8]) == |src| - 12
    ensures src == Frame(src[12..], FromBigEndian(src[8..12]))
    ensures FromBigEndian(src[8..12]) < TWO_32 && |src| - 12 < TWO_32
  {
    hide BigEndian, FromBigEndian;
    BytesRoundTrip(src[..4]);
    BytesRoundTrip(src[4..8]);
    BytesRoundTrip(src[8..12]);
    Uint32RoundTrip(FromBigEndian(src[8..12]));
    Uint32RoundTrip(FromBigEndian(src[4..8]));
    assert src == src[..4] + src[4..8] + src[8..12] + src[12..];
  }

  // The codec is lossless exactly as long as both lengths fit the header's 32-bit fields.
  lemma RoundTripExactly(hash: Hasher, src: bytes)
    ensures Decompressed(Compressed(hash, src)) == Ok(src)
       <==> |src| < TWO_32 && |Encoded(hash, src)| < TWO_32
  {
    hide Decode, FromBigEndian, Frame, Encoded;
    EncodedCorrect(hash, src);
    if src != [] {
      var block := Encoded(hash, src);
      FrameFields(block, |src|);
      assert Frame(block, |src|) != [];
    }
  }

  // In particular every input whose reserved buffer is below 4 GiB survives.
  lemma RoundTrip(hash: Hasher, src: bytes)
    requires MaxCompressedLen(|src|) < TWO_32
    ensures Decompressed(Compressed(hash, src)) == Ok(src)
  {
    hide Decompressed, Compressed, Encoded;
    EncodedCorrect(hash, src);
    RoundTripExactly(hash, src);
  }
}
