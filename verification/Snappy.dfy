/** The decoder of the Snappy framing format. */
module Snappy {
  import opened Arithmetic
  import opened Primitives

  type Byte = b: nat | b < 256
  type Bytes = seq<Byte>

  const ID_COMPRESSED: nat := 0x00
  const ID_UNCOMPRESSED: nat := 0x01
  const ID_PADDING: nat := 0xFE
  const ID_STREAM: nat := 0xFF
  const CHUNK_SIZE_LIMIT: nat := 65540
  const STREAM_IDENTIFIER: Bytes := [0x73, 0x4E, 0x61, 0x50, 0x70, 0x59]  // "sNaPpY"

  /** The checksum and the block decompression come from libraries outside this model. */
  datatype Codec = Codec(crc: Bytes -> Word32, inflate: Bytes -> Option<Bytes>)

  datatype Error =
    | NoStreamIdentifier | HeaderTooSmall | MissingData | InvalidStreamIdentifier
    | ChunkTooBig | Unskippable | InvalidPayload | InvalidChecksum

  /** `Crash` is a failed pattern match, which no caller sees as an error tuple. */
  datatype Result = Ok(data: Bytes) | Err(error: Error) | Crash

  // ---------- the masked checksum ----------

  // 32-bit words within 64 bits, which hold every intermediate value of the client without loss.
  type Word32 = w: bv64 | w <= 0xFFFF_FFFF witness 0

  const MASK_DELTA: bv64 := 0xA282EAD8

  function Rotated(c: Word32): Word32 {
    (c >> 15) | ((c << 17) & 0xFFFF_FFFF)
  }

  /** The format's own definition: rotate right by 15 bits and add a constant, modulo 2^32. */
  function Masked(c: Word32): Word32 {
    (Rotated(c) + MASK_DELTA) & 0xFFFF_FFFF
  }

  function Unmasked(m: Word32): Word32 {
    var r := (m - MASK_DELTA) & 0xFFFF_FFFF;
    ((r << 15) & 0xFFFF_FFFF) | (r >> 17)
  }

  /** The client's expression: nothing is cut off before the final mask. */
  function ClientMask(c: Word32): Word32 {
    (((c >> 15) | (c << 17)) + MASK_DELTA) & 0xFFFF_FFFF
  }

  lemma ClientMaskIsRotation(c: Word32)
    ensures ClientMask(c) == Masked(c)
    ensures (c << 17) >> 17 == c && ((c >> 15) | (c << 17)) <= 0x1_FFFF_FFFF_FFFF
  {
  }

  /** The mask is a bijection on 32-bit words. */
  lemma MaskBijective(c: Word32)
    ensures Unmasked(Masked(c)) == c && Masked(Unmasked(c)) == c
  {
  }

  function ComputeChecksum(codec: Codec, data: Bytes): nat {
    ClientMask(codec.crc(data)) as nat
  }

  // ---------- the decoder ----------

  function Size(header: Bytes): nat
    requires |header| >= 4
  {
    var a: nat, b: nat, c: nat := header[1], header[2], header[3];
    a + 256 * b + 65536 * c
  }

  function Word(data: Bytes): nat
    requires |data| >= 4
  {
    var a: nat, b: nat, c: nat, d: nat := data[0], data[1], data[2], data[3];
    a + 256 * b + 65536 * c + 16777216 * d
  }

  function ParsePayload(codec: Codec, acc: Bytes, id: Byte, data: Bytes): Result {
    if |data| > CHUNK_SIZE_LIMIT then Err(ChunkTooBig)
    else if |data| < 4 then Crash
    else
      match if id == ID_COMPRESSED then codec.inflate(data[4..]) else Some(data[4..])
      case None => Err(InvalidPayload)
      case Some(plain) => if Word(data) == ComputeChecksum(codec, plain) then Ok(acc + plain) else Err(InvalidChecksum)
  }

  function ParseChunk(codec: Codec, acc: Bytes, id: Byte, data: Bytes): Result {
    if id == ID_STREAM then (if data == STREAM_IDENTIFIER then Ok(acc) else Err(InvalidStreamIdentifier))
    else if id == ID_COMPRESSED || id == ID_UNCOMPRESSED then ParsePayload(codec, acc, id, data)
    else if 0x80 <= id then Ok(acc)
    else Err(Unskippable)
  }

  function DecompressFrames(codec: Codec, chunks: Bytes, acc: Bytes): Result
    decreases |chunks|
  {
    if chunks == [] then Ok(acc)
    else if |chunks| < 4 then Err(HeaderTooSmall)
    else if |chunks| - 4 < Size(chunks) then Err(MissingData)
    else
      var end := 4 + Size(chunks);
      match ParseChunk(codec, acc, chunks[0], chunks[4..end])
      case Ok(more) => DecompressFrames(codec, chunks[end..], more)
      case failure => failure
  }

  function Decompress(codec: Codec, chunks: Bytes): Result {
    if chunks != [] && chunks[0] == ID_STREAM then DecompressFrames(codec, chunks, [])
    else Err(NoStreamIdentifier)
  }

  // ---------- streams as lists of frames ----------

  datatype Frame = Frame(id: Byte, data: Bytes)

  predicate Encodable(f: Frame) {
    |f.data| < 16777216
  }

  function Encode(f: Frame): (bytes: Bytes)
    requires Encodable(f)
    ensures |bytes| == 4 + |f.data|
  {
    var n := |f.data|;
    [f.id, n % 256, n / 256 % 256, n / 65536] + f.data
  }

  ghost predicate AllEncodable(fs: seq<Frame>) {
    forall i :: 0 <= i < |fs| ==> Encodable(fs[i])
  }

  function EncodeAll(fs: seq<Frame>): Bytes
    requires AllEncodable(fs)
  {
    if fs == [] then [] else Encode(fs[0]) + EncodeAll(fs[1..])
  }

  /** What the frames mean, chunk by chunk. */
  function Meaning(codec: Codec, fs: seq<Frame>, acc: Bytes): Result {
    if fs == [] then Ok(acc)
    else
      match ParseChunk(codec, acc, fs[0].id, fs[0].data)
      case Ok(more) => Meaning(codec, fs[1..], more)
      case failure => failure
  }

  lemma EncodedHeader(f: Frame, rest: Bytes)
    requires Encodable(f)
    ensures var s := Encode(f) + rest;
      |s| >= 4 && s[0] == f.id && Size(s) == |f.data| && s[4..4 + |f.data|] == f.data && s[4 + |f.data|..] == rest
  {
  }

  /** The decoder computes the meaning of every list of frames, errors included. */
  lemma {:induction false} DecodesFrames(codec: Codec, fs: seq<Frame>, acc: Bytes)
    requires AllEncodable(fs)
    ensures DecompressFrames(codec, EncodeAll(fs), acc) == Meaning(codec, fs, acc)
    decreases |fs|
  {
    if fs != [] {
      EncodedHeader(fs[0], EncodeAll(fs[1..]));
      match ParseChunk(codec, acc, fs[0].id, fs[0].data)
      case Ok(more) => DecodesFrames(codec, fs[1..], more);
      case _ =>
    }
  }

  // A size is cut into the bytes it was put together from.
  lemma SizeBytes(a: nat, b: nat, c: nat, n: nat)
    requires a < 256 && b < 256 && n == a + 256 * b + 65536 * c
    ensures n % 256 == a && n / 256 % 256 == b && n / 65536 == c
  {
    DivUnique(n, 256, b + 256 * c, a);
    DivUnique(b + 256 * c, 256, c, b);
    DivUnique(n, 65536, c, a + 256 * b);
  }

  lemma Reencoded(s: Bytes)
    requires |s| >= 4 && |s| - 4 >= Size(s)
    ensures var end := 4 + Size(s); Encodable(Frame(s[0], s[4..end])) && Encode(Frame(s[0], s[4..end])) + s[end..] == s
  {
    var n := Size(s);
    SizeBytes(s[1], s[2], s[3], n);
    assert s == s[..4] + s[4..4 + n] + s[4 + n..];
    assert s[..4] == [s[0], n % 256, n / 256 % 256, n / 65536];
  }

  lemma EncodeMore(f: Frame, rest: seq<Frame>)
    requires Encodable(f) && AllEncodable(rest)
    ensures AllEncodable([f] + rest) && EncodeAll([f] + rest) == Encode(f) + EncodeAll(rest)
  {
    assert ([f] + rest)[1..] == rest;
  }

  /** And nothing else decodes: whatever the decoder accepts is a list of frames. */
  lemma {:induction false} AcceptedIsFrames(codec: Codec, s: Bytes, acc: Bytes) returns (fs: seq<Frame>)
    requires DecompressFrames(codec, s, acc).Ok?
    ensures AllEncodable(fs) && EncodeAll(fs) == s
    decreases |s|
  {
    if s == [] {
      fs := [];
    } else {
      var end := 4 + Size(s);
      var f := Frame(s[0], s[4..end]);
      var rest := AcceptedIsFrames(codec, s[end..], ParseChunk(codec, acc, f.id, f.data).data);
      fs := [f] + rest;
      Reencoded(s);
      EncodeMore(f, rest);
    }
  }

  // ---------- what one chunk adds ----------

  /** A data chunk that carries `plain`: a checksum, then `plain` itself or what inflates to it, where the checksum is the
      masked one of `plain`, least byte first. */
  ghost predicate Carries(codec: Codec, f: Frame, plain: Bytes) {
    && 4 <= |f.data| <= 65540
    && (f.id == 0x00 || f.id == 0x01)
    && (if f.id == 0x00 then codec.inflate(f.data[4..]) == Some(plain) else f.data[4..] == plain)
    && (var a: nat, b: nat, c: nat, d: nat := f.data[0], f.data[1], f.data[2], f.data[3];
        a + 0x100 * b + 0x1_0000 * c + 0x100_0000 * d == Masked(codec.crc(plain)) as nat)
  }

  /** A chunk is accepted exactly if it carries data, which it adds and nothing else, or repeats the stream identifier,
      or is of a kind to skip; those two add nothing. */
  lemma ChunkAddsExactly(codec: Codec, acc: Bytes, f: Frame, out: Bytes)
    ensures ParseChunk(codec, acc, f.id, f.data) == Ok(out) <==>
      || (exists plain :: Carries(codec, f, plain) && out == acc + plain)
      || (out == acc && f.id == 0xFF && f.data == [0x73, 0x4E, 0x61, 0x50, 0x70, 0x59])
      || (out == acc && 0x80 <= f.id < 0xFF)
  {
    ChecksumIsMasked(codec);
    if ParsePayload(codec, acc, f.id, f.data) == Ok(out) && f.id <= 1 {
      var plain := if f.id == 0x00 then codec.inflate(f.data[4..]).value else f.data[4..];
      assert Carries(codec, f, plain) && out == acc + plain;
    }
  }

  lemma ChecksumIsMasked(codec: Codec)
    ensures forall plain :: ComputeChecksum(codec, plain) == Masked(codec.crc(plain)) as nat
  {
    forall plain ensures ComputeChecksum(codec, plain) == Masked(codec.crc(plain)) as nat {
      ClientMaskIsRotation(codec.crc(plain));
    }
  }

  /** Which of the failures a chunk meets. */
  lemma ChunkFailsExactly(codec: Codec, acc: Bytes, f: Frame)
    ensures var r := ParseChunk(codec, acc, f.id, f.data);
      && (r == Err(InvalidStreamIdentifier) <==> f.id == 0xFF && f.data != [0x73, 0x4E, 0x61, 0x50, 0x70, 0x59])
      && (r == Err(Unskippable) <==> 0x02 <= f.id < 0x80)
      && (r == Err(ChunkTooBig) <==> f.id <= 0x01 && |f.data| > 65540)
      && (r == Crash <==> f.id <= 0x01 && |f.data| < 4)
      && (r == Err(InvalidPayload) <==> f.id == 0x00 && 4 <= |f.data| <= 65540 && codec.inflate(f.data[4..]).None?)
  {
  }

  function Joined(pieces: seq<Bytes>): Bytes {
    if pieces == [] then [] else pieces[0] + Joined(pieces[1..])
  }

  lemma CarriedChunk(codec: Codec, acc: Bytes, f: Frame, plain: Bytes)
    requires Carries(codec, f, plain)
    ensures ParseChunk(codec, acc, f.id, f.data) == Ok(acc + plain)
  {
    ChunkAddsExactly(codec, acc, f, acc + plain);
  }

  lemma {:induction false} CarriedDataMeans(codec: Codec, fs: seq<Frame>, pieces: seq<Bytes>, acc: Bytes)
    requires |pieces| == |fs| && forall i :: 0 <= i < |fs| ==> Carries(codec, fs[i], pieces[i])
    ensures Meaning(codec, fs, acc) == Ok(acc + Joined(pieces))
    decreases |fs|
  {
    if fs == [] {
      assert acc + Joined(pieces) == acc;
    } else {
      CarriedChunk(codec, acc, fs[0], pieces[0]);
      CarriedDataMeans(codec, fs[1..], pieces[1..], acc + pieces[0]);
      assert acc + pieces[0] + Joined(pieces[1..]) == acc + Joined(pieces);
    }
  }

  /** Chunks that carry data, compressed or not, decode to that data joined together. */
  lemma CarriedDataJoins(codec: Codec, fs: seq<Frame>, pieces: seq<Bytes>, acc: Bytes)
    requires |pieces| == |fs| && AllEncodable(fs) && forall i :: 0 <= i < |fs| ==> Carries(codec, fs[i], pieces[i])
    ensures DecompressFrames(codec, EncodeAll(fs), acc) == Ok(acc + Joined(pieces))
  {
    CarriedDataMeans(codec, fs, pieces, acc);
    DecodesFrames(codec, fs, acc);
  }

  // ---------- concatenation ----------

  /** Accepted frames leave the decoder ready for whatever follows, good or bad. */
  lemma {:induction false} DecodesOn(codec: Codec, s: Bytes, t: Bytes, acc: Bytes)
    requires DecompressFrames(codec, s, acc).Ok?
    ensures DecompressFrames(codec, s + t, acc) == DecompressFrames(codec, t, DecompressFrames(codec, s, acc).data)
    decreases |s|
  {
    if s == [] {
      assert s + t == t;
    } else {
      var end := 4 + Size(s);
      assert (s + t)[4..end] == s[4..end] && (s + t)[end..] == s[end..] + t && Size(s + t) == Size(s);
      DecodesOn(codec, s[end..], t, ParseChunk(codec, acc, s[0], s[4..end]).data);
    }
  }

  function Prefixed(acc: Bytes, r: Result): Result {
    match r
    case Ok(data) => Ok(acc + data)
    case failure => failure
  }

  lemma ChunkPrefixed(codec: Codec, acc: Bytes, id: Byte, data: Bytes)
    ensures ParseChunk(codec, acc, id, data) == Prefixed(acc, ParseChunk(codec, [], id, data))
  {
  }

  /** The accumulator is only ever a prefix of the result. */
  lemma {:induction false} AccumulatorIsPrefix(codec: Codec, s: Bytes, acc: Bytes)
    ensures DecompressFrames(codec, s, acc) == Prefixed(acc, DecompressFrames(codec, s, []))
    decreases |s|
  {
    if |s| >= 4 && |s| - 4 >= Size(s) {
      var end := 4 + Size(s);
      ChunkPrefixed(codec, acc, s[0], s[4..end]);
      if ParseChunk(codec, [], s[0], s[4..end]).Ok? {
        var first := ParseChunk(codec, [], s[0], s[4..end]).data;
        AccumulatorIsPrefix(codec, s[end..], acc + first);
        AccumulatorIsPrefix(codec, s[end..], first);
        PrefixedTwice(acc, first, DecompressFrames(codec, s[end..], []));
      }
    }
  }

  lemma PrefixedTwice(a: Bytes, b: Bytes, r: Result)
    ensures Prefixed(a, Prefixed(b, r)) == Prefixed(a + b, r)
  {
    if r.Ok? { assert a + (b + r.data) == (a + b) + r.data; }
  }

  /** Concatenated valid streams decode to the concatenated outputs. */
  lemma StreamsConcatenate(codec: Codec, s: Bytes, t: Bytes)
    requires Decompress(codec, s).Ok? && Decompress(codec, t).Ok?
    ensures Decompress(codec, s + t) == Ok(Decompress(codec, s).data + Decompress(codec, t).data)
  {
    DecodesOn(codec, s, t, []);
    AccumulatorIsPrefix(codec, t, Decompress(codec, s).data);
  }

  // ---------- when the decoder crashes ----------

  /** A chunk that should carry data but is too short for its checksum. */
  predicate TooShort(f: Frame) {
    (f.id == ID_COMPRESSED || f.id == ID_UNCOMPRESSED) && |f.data| < 4
  }

  /** `s` is frames that decode, then a chunk too short for its checksum, then anything. */
  ghost predicate CrashesAt(codec: Codec, s: Bytes, acc: Bytes, fs: seq<Frame>, f: Frame, rest: Bytes) {
    && AllEncodable(fs) && Encodable(f) && s == EncodeAll(fs) + Encode(f) + rest
    && Meaning(codec, fs, acc).Ok? && TooShort(f)
  }

  // A frame that decodes in front of a crash.
  lemma CrashBehind(codec: Codec, s: Bytes, acc: Bytes, first: Frame, tail: Bytes, more: Bytes, fs: seq<Frame>, f: Frame, rest: Bytes)
    requires Encodable(first) && s == Encode(first) + tail && ParseChunk(codec, acc, first.id, first.data) == Ok(more)
    requires CrashesAt(codec, tail, more, fs, f, rest)
    ensures CrashesAt(codec, s, acc, [first] + fs, f, rest)
  {
    EncodeMore(first, fs);
    assert ([first] + fs)[1..] == fs;
    assert Encode(first) + (EncodeAll(fs) + Encode(f) + rest) == (Encode(first) + EncodeAll(fs)) + Encode(f) + rest;
  }

  lemma CrashHere(codec: Codec, s: Bytes, acc: Bytes, first: Frame, tail: Bytes)
    requires Encodable(first) && s == Encode(first) + tail && ParseChunk(codec, acc, first.id, first.data).Crash?
    ensures CrashesAt(codec, s, acc, [], first, tail)
  {
    assert EncodeAll([]) + Encode(first) + tail == Encode(first) + tail;
  }

  lemma {:induction false} CrashFound(codec: Codec, s: Bytes, acc: Bytes) returns (fs: seq<Frame>, f: Frame, rest: Bytes)
    requires DecompressFrames(codec, s, acc).Crash?
    ensures CrashesAt(codec, s, acc, fs, f, rest)
    decreases |s|
  {
    var end := 4 + Size(s);
    var first := Frame(s[0], s[4..end]);
    Reencoded(s);
    var parsed := ParseChunk(codec, acc, first.id, first.data);
    if parsed.Crash? {
      fs, f, rest := [], first, s[end..];
      CrashHere(codec, s, acc, first, rest);
    } else {
      var behind: seq<Frame>;
      behind, f, rest := CrashFound(codec, s[end..], parsed.data);
      CrashBehind(codec, s, acc, first, s[end..], parsed.data, behind, f, rest);
      fs := [first] + behind;
    }
  }

  lemma CrashReached(codec: Codec, s: Bytes, acc: Bytes, fs: seq<Frame>, f: Frame, rest: Bytes)
    requires CrashesAt(codec, s, acc, fs, f, rest)
    ensures DecompressFrames(codec, s, acc).Crash?
  {
    DecodesFrames(codec, fs, acc);
    assert s == EncodeAll(fs) + (Encode(f) + rest);
    DecodesOn(codec, EncodeAll(fs), Encode(f) + rest, acc);
    ShortChunkCrashes(codec, f, rest, Meaning(codec, fs, acc).data);
  }

  lemma ShortChunkCrashes(codec: Codec, f: Frame, rest: Bytes, acc: Bytes)
    requires Encodable(f) && TooShort(f)
    ensures DecompressFrames(codec, Encode(f) + rest, acc).Crash?
  {
    EncodedHeader(f, rest);
  }

  /** Of all inputs the decoder fails without an error value exactly on those where, after a stream identifier and
      frames that decode, a data chunk is too short for its checksum. */
  lemma CrashesExactly(codec: Codec, s: Bytes)
    ensures Decompress(codec, s).Crash? <==>
      s != [] && s[0] == ID_STREAM && exists fs, f, rest :: CrashesAt(codec, s, [], fs, f, rest)
  {
    if Decompress(codec, s).Crash? {
      var fs, f, rest := CrashFound(codec, s, []);
    }
    if s != [] && s[0] == ID_STREAM && exists fs, f, rest :: CrashesAt(codec, s, [], fs, f, rest) {
      var fs, f, rest :| CrashesAt(codec, s, [], fs, f, rest);
      CrashReached(codec, s, [], fs, f, rest);
    }
  }

  /** The stream identifier followed by an empty data chunk is such an input, whatever the codec. */
  lemma EmptyChunkCrashes(codec: Codec)
    ensures Decompress(codec, [0xFF, 6, 0, 0, 0x73, 0x4E, 0x61, 0x50, 0x70, 0x59, 0, 0, 0, 0]).Crash?
  {
    var head, empty := Frame(ID_STREAM, STREAM_IDENTIFIER), Frame(ID_COMPRESSED, []);
    var s: Bytes := [0xFF, 6, 0, 0, 0x73, 0x4E, 0x61, 0x50, 0x70, 0x59, 0, 0, 0, 0];
    assert EncodeAll([head]) == Encode(head) + EncodeAll([]);
    assert s == EncodeAll([head]) + Encode(empty) + [];
    assert Meaning(codec, [head], []) == Meaning(codec, [], []);
    CrashReached(codec, s, [], [head], empty, []);
  }

  // ---------- padding and skippable chunks ----------

  predicate Skippable(f: Frame) {
    0x80 <= f.id <= ID_PADDING
  }

  /** The frames without those that carry nothing. */
  function Stripped(fs: seq<Frame>): seq<Frame> {
    if fs == [] then [] else (if Skippable(fs[0]) then [] else [fs[0]]) + Stripped(fs[1..])
  }

  lemma {:induction false} StrippedEncodable(fs: seq<Frame>)
    requires AllEncodable(fs)
    ensures AllEncodable(Stripped(fs))
  {
    if fs != [] { StrippedEncodable(fs[1..]); }
  }

  /** Padding and skippable chunks mean nothing, wherever they stand and whatever they hold. */
  lemma {:induction false} SkippableMeansNothing(codec: Codec, fs: seq<Frame>, acc: Bytes)
    ensures Meaning(codec, fs, acc) == Meaning(codec, Stripped(fs), acc)
    decreases |fs|
  {
    if fs != [] {
      var f, rest := fs[0], fs[1..];
      if Skippable(f) {
        SkippableMeansNothing(codec, rest, acc);
        assert Stripped(fs) == Stripped(rest);
      } else {
        assert Stripped(fs)[0] == f && Stripped(fs)[1..] == Stripped(rest);
        var parsed := ParseChunk(codec, acc, f.id, f.data);
        if parsed.Ok? { SkippableMeansNothing(codec, rest, parsed.data); }
      }
    }
  }

  lemma SkippableIgnored(codec: Codec, fs: seq<Frame>, acc: Bytes)
    requires AllEncodable(fs)
    ensures AllEncodable(Stripped(fs))
    ensures DecompressFrames(codec, EncodeAll(fs), acc) == DecompressFrames(codec, EncodeAll(Stripped(fs)), acc)
  {
    StrippedEncodable(fs);
    DecodesFrames(codec, fs, acc);
    DecodesFrames(codec, Stripped(fs), acc);
    SkippableMeansNothing(codec, fs, acc);
  }

  // ---------- round trip ----------

  // A word is put together from the bytes it is cut into.
  lemma WordParts(w: nat)
    ensures w == w % 256 + 256 * (w / 256 % 256) + 65536 * (w / 65536 % 256) + 16777216 * (w / 16777216)
  {
    var q := w / 256;
    var r := q / 256;
    DivUnique(w, 65536, r, 256 * (q % 256) + w % 256);
    DivUnique(w, 16777216, r / 256, 65536 * (r % 256) + 256 * (q % 256) + w % 256);
  }

  function WordBytes(w: nat): (b: Bytes)
    requires w < 0x1_0000_0000
    ensures |b| == 4 && Word(b) == w
  {
    WordParts(w);
    [w % 256, w / 256 % 256, w / 65536 % 256, w / 16777216]
  }

  const MAX_PIECE: nat := 65536

  /** A chunk of data as it is, behind its checksum. */
  function DataFrame(codec: Codec, piece: Bytes): Frame {
    Frame(ID_UNCOMPRESSED, WordBytes(ComputeChecksum(codec, piece)) + piece)
  }

  /** Any data, cut into uncompressed chunks of at most 65536 bytes. */
  function DataFrames(codec: Codec, data: Bytes): (fs: seq<Frame>)
    ensures AllEncodable(fs)
    decreases |data|
  {
    if data == [] then []
    else if |data| <= MAX_PIECE then [DataFrame(codec, data)]
    else [DataFrame(codec, data[..MAX_PIECE])] + DataFrames(codec, data[MAX_PIECE..])
  }

  function Framed(codec: Codec, data: Bytes): Bytes {
    EncodeAll([Frame(ID_STREAM, STREAM_IDENTIFIER)] + DataFrames(codec, data))
  }

  lemma PieceParses(codec: Codec, acc: Bytes, piece: Bytes)
    requires |piece| <= MAX_PIECE
    ensures var f := DataFrame(codec, piece); ParseChunk(codec, acc, f.id, f.data) == Ok(acc + piece)
  {
    var f := DataFrame(codec, piece);
    assert f.data[4..] == piece && f.data[..4] == WordBytes(ComputeChecksum(codec, piece));
    assert Word(f.data) == Word(f.data[..4]);
  }

  lemma {:induction false} DataFramesMean(codec: Codec, data: Bytes, acc: Bytes)
    ensures Meaning(codec, DataFrames(codec, data), acc) == Ok(acc + data)
    decreases |data|
  {
    if data == [] {
      assert acc + data == acc;
    } else if |data| <= MAX_PIECE {
      PieceParses(codec, acc, data);
    } else {
      var piece, rest := data[..MAX_PIECE], data[MAX_PIECE..];
      PieceParses(codec, acc, piece);
      DataFramesMean(codec, rest, acc + piece);
      assert DataFrames(codec, data)[1..] == DataFrames(codec, rest);
      assert acc + piece + rest == acc + data;
    }
  }

  /** The decoder recovers any data framed in uncompressed chunks. */
  lemma RoundTrip(codec: Codec, data: Bytes)
    ensures Decompress(codec, Framed(codec, data)) == Ok(data)
  {
    var head, tail := Frame(ID_STREAM, STREAM_IDENTIFIER), DataFrames(codec, data);
    var fs := [head] + tail;
    EncodeMore(head, tail);
    DecodesFrames(codec, fs, []);
    assert fs[0] == head && fs[1..] == tail;
    DataFramesMean(codec, data, []);
    assert [] + data == data;
  }
}
