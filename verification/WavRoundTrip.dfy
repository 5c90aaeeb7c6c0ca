/** A writer for RIFF chunks and PCM samples, and the proof that the reader inverts it. */
module WavRoundTrip {
  import opened Arithmetic
  import opened Octets
  import opened Outcomes
  import opened Wav

  // ---------- chunks ----------

  /** A chunk that a RIFF file can hold. */
  ghost predicate Writable(c: Chunk) {
    |c.id| == 4 && |c.body| < 0x1_0000_0000
  }

  /** A chunk as written: identifier, length, body and whatever padding follows. */
  ghost function Framed(c: Chunk, pad: Bytes): (bytes: Bytes)
    requires Writable(c)
    ensures |bytes| == 8 + |c.body| + |pad|
  {
    c.id + Little(|c.body|, 4) + c.body + pad
  }

  /** Chunks one after the other, each with its padding. */
  ghost function Joined(chunks: seq<Chunk>, pads: seq<Bytes>): Bytes
    requires |pads| == |chunks| && forall c :: c in chunks ==> Writable(c)
  {
    if chunks == [] then [] else Framed(chunks[0], pads[0]) + Joined(chunks[1..], pads[1..])
  }

  /** Odd bodies are followed by one byte, which only the end of the file may cut off. */
  ghost predicate WellPadded(chunks: seq<Chunk>, pads: seq<Bytes>, tail: Bytes) {
    && |pads| == |chunks| && |tail| < 8
    && forall k :: 0 <= k < |chunks| ==>
         |pads[k]| == |chunks[k].body| % 2 || (k == |chunks| - 1 && pads[k] == [] && tail == [])
  }

  /** The bytes from the cursor on are these chunks followed by a tail too short for a chunk header. */
  ghost predicate Spells(bytes: Bytes, cursor: nat, chunks: seq<Chunk>, pads: seq<Bytes>, tail: Bytes) {
    && cursor <= |bytes|
    && (forall c :: c in chunks ==> Writable(c))
    && WellPadded(chunks, pads, tail)
    && bytes[cursor..] == Joined(chunks, pads) + tail
  }

  /** A framed chunk at the cursor is read back, and what follows it starts where the walk goes next. */
  lemma FramedReadBack(bytes: Bytes, cursor: nat, c: Chunk, pad: Bytes, rest: Bytes)
    requires cursor <= |bytes| && Writable(c) && bytes[cursor..] == Framed(c, pad) + rest
    ensures cursor + 8 + |c.body| + |pad| <= |bytes|
    ensures U32At(bytes, cursor + 4) == |c.body| && ChunkAt(bytes, cursor) == c
    ensures bytes[cursor + 8 + |c.body| + |pad|..] == rest
  {
    var s := Framed(c, pad) + rest;
    var n, length := |c.body|, Little(|c.body|, 4);
    assert |s| == |bytes| - cursor;
    assert forall k :: 0 <= k < |s| ==> bytes[cursor + k] == s[k];
    Little32(n);
    assert forall k :: 0 <= k < 4 ==> s[4 + k] == length[k];
    assert bytes[cursor + 4] == s[4] && bytes[cursor + 5] == s[5] && bytes[cursor + 6] == s[6]
      && bytes[cursor + 7] == s[7];
    assert U32At(bytes, cursor + 4) == n;
    assert forall k :: 0 <= k < 4 ==> bytes[cursor + k] == c.id[k];
    assert bytes[cursor..cursor + 4] == c.id;
    assert forall k :: 0 <= k < n ==> bytes[cursor + 8 + k] == c.body[k];
    assert bytes[cursor + 8..cursor + 8 + n] == c.body;
    assert forall k :: 0 <= k < |rest| ==> s[8 + n + |pad| + k] == rest[k];
    assert bytes[cursor + 8 + n + |pad|..] == rest;
  }

  /** The first written chunk is at the cursor, and either the walk ends with it or the others follow. */
  lemma FirstWritten(bytes: Bytes, cursor: nat, chunks: seq<Chunk>, pads: seq<Bytes>, tail: Bytes)
    requires chunks != [] && Spells(bytes, cursor, chunks, pads, tail)
    ensures cursor + 8 + |chunks[0].body| <= |bytes|
    ensures U32At(bytes, cursor + 4) == |chunks[0].body| && ChunkAt(bytes, cursor) == chunks[0]
    ensures if |pads[0]| == |chunks[0].body| % 2 then Spells(bytes, NextAt(bytes, cursor), chunks[1..], pads[1..], tail)
            else |chunks| == 1 && NextAt(bytes, cursor) > |bytes|
  {
    var c, pad := chunks[0], pads[0];
    var rest := Joined(chunks[1..], pads[1..]) + tail;
    assert bytes[cursor..] == Framed(c, pad) + rest;
    FramedReadBack(bytes, cursor, c, pad, rest);
    hide Framed, U32At, ChunkAt;
    forall k | 0 <= k < |chunks| - 1
      ensures |pads[1..][k]| == |chunks[1..][k].body| % 2 || (k == |chunks| - 2 && pads[1..][k] == [] && tail == [])
    {
      assert pads[1..][k] == pads[k + 1] && chunks[1..][k] == chunks[k + 1];
    }
  }

  /** The walk finds exactly the chunks that were written. */
  lemma {:induction false} WrittenChunksFound(bytes: Bytes, cursor: nat, chunks: seq<Chunk>, pads: seq<Bytes>,
      tail: Bytes)
    requires Spells(bytes, cursor, chunks, pads, tail)
    ensures ChunksAt(bytes, cursor) == Chunks(chunks, false)
    decreases |chunks|
  {
    if chunks == [] {
      assert bytes[cursor..] == tail;
    } else {
      FirstWritten(bytes, cursor, chunks, pads, tail);
      hide Spells, Framed, Joined, ChunkAt, U32At;
      if |pads[0]| == |chunks[0].body| % 2 {
        WrittenChunksFound(bytes, NextAt(bytes, cursor), chunks[1..], pads[1..], tail);
      }
      assert chunks == [chunks[0]] + chunks[1..];
    }
  }

  lemma SpellsOneMore(bytes: Bytes, cursor: nat, c: Chunk, pad: Bytes, next: nat, rest: seq<Chunk>,
      more: seq<Bytes>, tail: Bytes)
    requires cursor <= next <= |bytes| && Writable(c) && |pad| == |c.body| % 2
    requires bytes[cursor..] == Framed(c, pad) + bytes[next..]
    requires Spells(bytes, next, rest, more, tail)
    ensures Spells(bytes, cursor, [c] + rest, [pad] + more, tail)
  {
    hide Framed;
    var chunks, pads := [c] + rest, [pad] + more;
    assert chunks[1..] == rest && pads[1..] == more;
    assert Framed(c, pad) + (Joined(rest, more) + tail) == Joined(chunks, pads) + tail;
    forall k | 0 <= k < |chunks|
      ensures |pads[k]| == |chunks[k].body| % 2 || (k == |chunks| - 1 && pads[k] == [] && tail == [])
    {
      if k > 0 {
        assert pads[k] == more[k - 1] && chunks[k] == rest[k - 1];
      }
    }
  }

  /** Whatever the walk accepts without running past the end is the writing of the chunks it found. */
  lemma {:induction false} FoundChunksWritten(bytes: Bytes, cursor: nat, chunks: seq<Chunk>)
    requires cursor <= |bytes| && ChunksAt(bytes, cursor) == Chunks(chunks, false)
    ensures exists pads, tail :: Spells(bytes, cursor, chunks, pads, tail)
    decreases |bytes| - cursor
  {
    if cursor + 8 > |bytes| {
      assert Spells(bytes, cursor, [], [], bytes[cursor..]);
    } else {
      var c, n := ChunkAt(bytes, cursor), U32At(bytes, cursor + 4);
      var body, next := cursor + 8 + n, NextAt(bytes, cursor);
      HeaderWritten(bytes, cursor);
      if next > |bytes| {
        CutOff(bytes, cursor);
        assert chunks == [c];
        assert Spells(bytes, cursor, chunks, [[]], []);
      } else {
        FoundChunksWritten(bytes, next, ChunksAt(bytes, next).list);
        var more, tail :| Spells(bytes, next, ChunksAt(bytes, next).list, more, tail);
        hide ChunksAt, Framed, U32At, Little;
        FrameSplits(bytes, cursor, c, bytes[body..next], bytes[next..]);
        SpellsOneMore(bytes, cursor, c, bytes[body..next], next, ChunksAt(bytes, next).list, more, tail);
        assert Spells(bytes, cursor, chunks, [bytes[body..next]] + more, tail);
      }
    }
  }

  /** The end of the file may cut off the padding of the last chunk. */
  lemma CutOff(bytes: Bytes, cursor: nat)
    requires cursor + 8 <= |bytes| && cursor + 8 + U32At(bytes, cursor + 4) <= |bytes|
    requires NextAt(bytes, cursor) > |bytes|
    ensures Spells(bytes, cursor, [ChunkAt(bytes, cursor)], [[]], [])
  {
    var c := ChunkAt(bytes, cursor);
    HeaderWritten(bytes, cursor);
    FrameSplits(bytes, cursor, c, [], []);
    assert Joined([c], [[]]) == Framed(c, []) + Joined([], []);
  }

  lemma HeaderWritten(bytes: Bytes, cursor: nat)
    requires cursor + 8 <= |bytes| && cursor + 8 + U32At(bytes, cursor + 4) <= |bytes|
    ensures Writable(ChunkAt(bytes, cursor))
    ensures Little(U32At(bytes, cursor + 4), 4) == bytes[cursor + 4..cursor + 8]
  {
    LittleInverts(bytes[cursor + 4], bytes[cursor + 5], bytes[cursor + 6], bytes[cursor + 7]);
    var n := U32At(bytes, cursor + 4);
    assert Little(n, 4) == [bytes[cursor + 4], bytes[cursor + 5], bytes[cursor + 6], bytes[cursor + 7]];
  }

  lemma LittleInverts(b0: Byte, b1: Byte, b2: Byte, b3: Byte)
    ensures Word32(b0, b1, b2, b3) < 0x1_0000_0000
    ensures Little(Word32(b0, b1, b2, b3), 4) == [b0, b1, b2, b3]
  {
    var n := Word32(b0, b1, b2, b3);
    var q, r, s := b1 as int + 0x100 * b2 + 0x1_0000 * b3, b2 as int + 0x100 * b3, b3 as int;
    assert n / 0x100 == q && n % 0x100 == b0;
    assert q / 0x100 == r && q % 0x100 == b1;
    assert r / 0x100 == s && r % 0x100 == b2;
    assert s / 0x100 == 0 && s % 0x100 == b3;
    assert Little(s, 1) == [s % 0x100] + Little(0, 0);
    assert Little(r, 2) == [r % 0x100] + Little(s, 1);
    assert Little(q, 3) == [q % 0x100] + Little(r, 2);
    assert Little(n, 4) == [n % 0x100] + Little(q, 3);
  }

  lemma FrameSplits(bytes: Bytes, cursor: nat, c: Chunk, pad: Bytes, rest: Bytes)
    requires cursor + 8 + |c.body| + |pad| + |rest| == |bytes| && Writable(c)
    requires bytes[cursor..cursor + 4] == c.id && bytes[cursor + 4..cursor + 8] == Little(|c.body|, 4)
    requires bytes[cursor + 8..cursor + 8 + |c.body|] == c.body
    requires bytes[cursor + 8 + |c.body|..cursor + 8 + |c.body| + |pad|] == pad
    requires bytes[cursor + 8 + |c.body| + |pad|..] == rest
    ensures bytes[cursor..] == Framed(c, pad) + rest
  {
    var n := |c.body|;
    assert bytes[cursor..]
      == bytes[cursor..cursor + 4] + bytes[cursor + 4..cursor + 8] + bytes[cursor + 8..cursor + 8 + n]
      + bytes[cursor + 8 + n..cursor + 8 + n + |pad|] + bytes[cursor + 8 + n + |pad|..];
  }

  /** The chunk walk succeeds on exactly the byte strings the writer can produce, and then finds what was written. */
  lemma WalkIffWritten(bytes: Bytes, cursor: nat, chunks: seq<Chunk>)
    requires cursor <= |bytes|
    ensures ChunksAt(bytes, cursor) == Chunks(chunks, false) <==>
      exists pads, tail :: Spells(bytes, cursor, chunks, pads, tail)
  {
    if ChunksAt(bytes, cursor) == Chunks(chunks, false) {
      FoundChunksWritten(bytes, cursor, chunks);
    }
    if pads, tail :| Spells(bytes, cursor, chunks, pads, tail) {
      WrittenChunksFound(bytes, cursor, chunks, pads, tail);
    }
  }

  // ---------- which chunks count ----------

  /** Chunk i is the last with this identifier. */
  ghost predicate LastWith(chunks: seq<Chunk>, id: Bytes, i: nat) {
    i < |chunks| && chunks[i].id == id && forall j :: i < j < |chunks| ==> chunks[j].id != id
  }

  ghost predicate BadFormat(chunks: seq<Chunk>, i: nat)
    requires i < |chunks|
  {
    chunks[i].id == FMT && ReadWavFormat(chunks[i].body).Err?
  }

  lemma {:induction false} SelectAppend(front: seq<Chunk>, c: Chunk, s: Selected)
    requires Select(front + [c], s).Ok?
    ensures Select(front, s).Ok? && Select(front + [c], s) == Select([c], Select(front, s).value)
  {
    hide ReadWavFormat;
    var all := front + [c];
    if front == [] {
      assert all == [c];
    } else {
      assert all[0] == front[0] && all[1..] == front[1..] + [c];
      var first := front[0];
      var next := if first.id == FMT then s.(format := Some(ReadWavFormat(first.body).value))
                  else if first.id == DATA then s.(data := Some(first.body)) else s;
      assert Select(all, s) == Select(all[1..], next);
      SelectAppend(front[1..], c, next);
    }
  }

  lemma SelectOne(c: Chunk, s: Selected)
    requires Select([c], s).Ok?
    ensures c.id == FMT ==> ReadWavFormat(c.body).Ok?
    ensures c.id == FMT ==> Select([c], s).value == s.(format := Some(ReadWavFormat(c.body).value))
    ensures c.id == DATA ==> Select([c], s).value == s.(data := Some(c.body))
    ensures c.id != FMT && c.id != DATA ==> Select([c], s).value == s
  {
    hide ReadWavFormat;
    assert [c][1..] == [];
  }

  /** Later chunks win: the last format chunk and the last data chunk are the ones kept. */
  lemma {:induction false} LastChunksKept(chunks: seq<Chunk>, s: Selected)
    requires Select(chunks, s).Ok?
    ensures forall i: nat :: LastWith(chunks, FMT, i) ==>
      ReadWavFormat(chunks[i].body).Ok? && Select(chunks, s).value.format == Some(ReadWavFormat(chunks[i].body).value)
    ensures forall i: nat :: LastWith(chunks, DATA, i) ==> Select(chunks, s).value.data == Some(chunks[i].body)
  {
    hide ReadWavFormat;
    if chunks != [] {
      var n := |chunks| - 1;
      var front, c := chunks[..n], chunks[n];
      assert chunks == front + [c];
      SelectAppend(front, c, s);
      SelectOne(c, Select(front, s).value);
      LastChunksKept(front, s);
      hide Select;
      forall i: nat | LastWith(chunks, FMT, i)
        ensures ReadWavFormat(chunks[i].body).Ok?
          && Select(chunks, s).value.format == Some(ReadWavFormat(chunks[i].body).value)
      {
        LastInFront(chunks, FMT, i);
      }
      forall i: nat | LastWith(chunks, DATA, i) ensures Select(chunks, s).value.data == Some(chunks[i].body) {
        LastInFront(chunks, DATA, i);
      }
    }
  }

  lemma LastInFront(chunks: seq<Chunk>, id: Bytes, i: nat)
    requires LastWith(chunks, id, i)
    ensures i == |chunks| - 1 || (chunks[|chunks| - 1].id != id && LastWith(chunks[..|chunks| - 1], id, i))
  {
  }

  ghost predicate NoneBadBefore(chunks: seq<Chunk>, i: nat)
    requires i <= |chunks|
  {
    forall j :: 0 <= j < i ==> !BadFormat(chunks, j)
  }

  /** Selection fails exactly when some format chunk is bad, with the error of the first such chunk. */
  lemma {:induction false} FirstBadFormat(chunks: seq<Chunk>, s: Selected)
    ensures Select(chunks, s).Err? <==> exists i :: 0 <= i < |chunks| && BadFormat(chunks, i)
    ensures forall i :: 0 <= i < |chunks| && BadFormat(chunks, i) && NoneBadBefore(chunks, i) ==>
      Select(chunks, s) == Err(ReadWavFormat(chunks[i].body).error)
  {
    hide ReadWavFormat;
    if chunks != [] {
      var c, rest := chunks[0], chunks[1..];
      assert forall i :: 0 <= i < |rest| ==> (BadFormat(rest, i) <==> BadFormat(chunks, i + 1));
      if !BadFormat(chunks, 0) {
        var next := if c.id == FMT then s.(format := Some(ReadWavFormat(c.body).value))
                    else if c.id == DATA then s.(data := Some(c.body)) else s;
        assert Select(chunks, s) == Select(rest, next);
        FirstBadFormat(rest, next);
        forall i | 0 <= i < |chunks| && BadFormat(chunks, i) && (forall j :: 0 <= j < i ==> !BadFormat(chunks, j))
          ensures Select(chunks, s) == Err(ReadWavFormat(chunks[i].body).error)
        {
          assert BadFormat(rest, i - 1);
          forall j | 0 <= j < i - 1 ensures !BadFormat(rest, j) {
            assert !BadFormat(chunks, j + 1);
          }
        }
        if i :| 0 <= i < |chunks| && BadFormat(chunks, i) {
          assert BadFormat(rest, i - 1);
        }
        if i :| 0 <= i < |rest| && BadFormat(rest, i) {
          assert BadFormat(chunks, i + 1);
        }
      }
    }
  }

  // ---------- samples ----------

  /** Two's complement of the sample's width. */
  function Unsigned(v: int, bits: nat): nat
    requires bits in {16, 24, 32} && -FullScale(bits) <= v < FullScale(bits)
  {
    if v < 0 then v + 2 * FullScale(bits) else v
  }

  function EncodeInteger(v: int, bits: nat): (bytes: Bytes)
    requires bits in {16, 24, 32} && -FullScale(bits) <= v < FullScale(bits)
    ensures |bytes| == bits / 8
  {
    Little(Unsigned(v, bits), bits / 8)
  }

  lemma Little24(n: nat)
    requires n < 0x100_0000
    ensures var b := Little(n, 3); Word32(b[0], b[1], b[2], 0) == n
  {
    var q := n / 0x100;
    var r := q / 0x100;
    assert Little(r, 1) == [r % 0x100] + Little(r / 0x100, 0);
    assert Little(q, 2) == [q % 0x100] + Little(r, 1);
    assert Little(n, 3) == [n % 0x100] + Little(q, 2);
  }

  lemma SampleRoundTrip(v: int, bits: nat)
    requires bits in {16, 24, 32} && -FullScale(bits) <= v < FullScale(bits)
    ensures DecodeInteger(EncodeInteger(v, bits), bits) == v
  {
    var u := Unsigned(v, bits);
    if bits == 16 {
      Little16(u);
    } else if bits == 24 {
      Little24(u);
      ShiftedBack(u);
    } else {
      Little32(u);
    }
  }

  /** Shifting a 24-bit value to the top of a word and arithmetically back down extends its sign. */
  lemma ShiftedBack(u: nat)
    requires u < 0x100_0000
    ensures Signed((u * 0x100) % 0x1_0000_0000, 0x1_0000_0000) / 0x100 == Signed(u, 0x100_0000)
  {
    assert (u * 0x100) % 0x1_0000_0000 == u * 0x100;
    if 2 * u < 0x100_0000 {
      DivModUnique(u * 0x100, 0x100, u, 0);
    } else {
      DivModUnique(u * 0x100 - 0x1_0000_0000, 0x100, u - 0x100_0000, 0);
    }
  }

  ghost predicate InRange(vs: seq<int>, bits: nat) {
    bits in {16, 24, 32} && forall k :: 0 <= k < |vs| ==> -FullScale(bits) <= vs[k] < FullScale(bits)
  }

  ghost function EncodeSamples(vs: seq<int>, bits: nat): (data: Bytes)
    requires InRange(vs, bits)
    ensures |data| == |vs| * (bits / 8)
  {
    if vs == [] then [] else EncodeInteger(vs[0], bits) + EncodeSamples(vs[1..], bits)
  }

  lemma {:induction false} SamplesRoundTrip(vs: seq<int>, bits: nat)
    requires InRange(vs, bits)
    ensures Decoded(EncodeSamples(vs, bits), bits) == Scaled(vs, bits)
  {
    if vs != [] {
      var width := bits / 8;
      var head, rest := EncodeInteger(vs[0], bits), EncodeSamples(vs[1..], bits);
      var data := EncodeSamples(vs, bits);
      assert data == head + rest;
      assert data[..width] == head && data[width..] == rest;
      SampleRoundTrip(vs[0], bits);
      SamplesRoundTrip(vs[1..], bits);
      hide FullScale, DecodeInteger, EncodeInteger;
      assert Scaled(vs, bits) == [DecodeSample(head, bits)] + Scaled(vs[1..], bits);
    }
  }

  lemma WholeFrames(count: nat, channels: nat, width: nat)
    requires channels > 0 && width > 0 && count % channels == 0
    ensures width * channels > 0 && (count * width) % (width * channels) == 0
  {
    var k := count / channels;
    assert count == k * channels;
    assert (k * channels) * width == k * (width * channels);
    AtLeastOneMultiple(width, channels);
    DivModUnique(k * (width * channels), width * channels, k, 0);
  }

  // ---------- a format chunk ----------

  /** The fields of a format chunk, in the order they are stored; the reader ignores the byte rate. */
  datatype Fields = Fields(tag: nat, channels: nat, sampleRate: nat, byteRate: nat, align: nat, bits: nat)

  predicate Encodable(f: Fields) {
    && f.tag < 0x1_0000 && f.channels < 0x1_0000 && f.align < 0x1_0000 && f.bits < 0x1_0000
    && f.sampleRate < 0x1_0000_0000
  }

  function FieldBytes(f: Fields): (body: Bytes)
    ensures |body| == 16
  {
    Little(f.tag, 2) + Little(f.channels, 2) + Little(f.sampleRate, 4) + Little(f.byteRate, 4) + Little(f.align, 2)
    + Little(f.bits, 2)
  }

  /** What the fields, and the extension behind them, amount to: the first complaint in the reader's order, or
    * the format.
    */
  function Verdict(f: Fields, extension: Bytes): Result<WavFormat, WavError> {
    if f.tag !in {PCM, EXTENSIBLE} then Err(UnsupportedFormat)
    else if f.tag == EXTENSIBLE && !(|extension| >= 24
      && extension[8..24] == PCM_SUBFORMAT) then Err(UnsupportedSubformat)
    else if f.channels == 0 then Err(ZeroChannels)
    else if f.bits !in {16, 24, 32} then Err(UnsupportedDepth)
    else Ok(WavFormat(f.tag, f.sampleRate, f.channels, f.bits, f.align))
  }

  /** The fields of a format chunk, side by side. */
  lemma FieldsInPlace(a: Bytes, b: Bytes, c: Bytes, d: Bytes, e: Bytes, f: Bytes, g: Bytes)
    requires |a| == 2 && |b| == 2 && |c| == 4 && |d| == 4 && |e| == 2 && |f| == 2
    ensures var body := a + b + c + d + e + f + g;
      && |body| == 16 + |g|
      && ReadU16(body, 0) == ReadU16(a, 0) && ReadU16(body, 2) == ReadU16(b, 0) && ReadU32(body, 4) == ReadU32(c, 0)
      && ReadU16(body, 12) == ReadU16(e, 0) && ReadU16(body, 14) == ReadU16(f, 0)
  {
    hide Word16, Word32;
  }

  lemma ReadBack16(n: nat)
    requires n < 0x1_0000
    ensures ReadU16(Little(n, 2), 0) == Ok(n)
  {
    Little16(n);
  }

  lemma ReadBack32(n: nat)
    requires n < 0x1_0000_0000
    ensures ReadU32(Little(n, 4), 0) == Ok(n)
  {
    Little32(n);
  }

  /** A written format chunk is read as its fields say. */
  lemma FormatMeans(f: Fields, extension: Bytes)
    requires Encodable(f)
    ensures ReadWavFormat(FieldBytes(f) + extension) == Verdict(f, extension)
  {
    hide ReadU16, ReadU32, Little, ReadWavFormat, Verdict;
    ReadBack16(f.tag);
    ReadBack16(f.channels);
    ReadBack16(f.align);
    ReadBack16(f.bits);
    ReadBack32(f.sampleRate);
    FieldsInPlace(Little(f.tag, 2), Little(f.channels, 2), Little(f.sampleRate, 4), Little(f.byteRate, 4),
      Little(f.align, 2),
                  Little(f.bits, 2), extension);
    FormatOf(FieldBytes(f) + extension, f, extension);
  }

  lemma FormatOf(body: Bytes, f: Fields, extension: Bytes)
    requires |body| == 16 + |extension| && body[16..] == extension
    requires ReadU16(body, 0) == Ok(f.tag) && ReadU16(body, 2) == Ok(f.channels) && ReadU32(body, 4) == Ok(f.sampleRate)
    requires ReadU16(body, 12) == Ok(f.align) && ReadU16(body, 14) == Ok(f.bits)
    ensures ReadWavFormat(body) == Verdict(f, extension)
  {
    hide ReadU16, ReadU32;
    if |extension| >= 24 {
      assert body[24..40] == extension[8..24];
    }
  }

  /** Every chunk long enough is some fields and an extension; a shorter one is refused. */
  lemma FormatReading(chunk: Bytes) returns (f: Fields, extension: Bytes)
    ensures |chunk| < 16 ==> ReadWavFormat(chunk) == Err(ShortFormat)
    ensures |chunk| >= 16 ==>
      Encodable(f) && chunk == FieldBytes(f) + extension && ReadWavFormat(chunk) == Verdict(f, extension)
  {
    f, extension := Fields(0, 0, 0, 0, 0, 0), [];
    if |chunk| >= 16 {
      f, extension := FieldsOf(chunk), chunk[16..];
      FieldsSpell(chunk);
      hide FieldsOf, FieldBytes, Encodable, ReadWavFormat, Verdict;
      FormatMeans(f, extension);
      assert chunk == chunk[..16] + chunk[16..];
    }
  }

  function FieldsOf(chunk: Bytes): Fields
    requires |chunk| >= 16
  {
    Fields(Word16(chunk[0], chunk[1]), Word16(chunk[2], chunk[3]), U32At(chunk, 4), U32At(chunk, 8),
      Word16(chunk[12], chunk[13]), Word16(chunk[14], chunk[15]))
  }

  lemma FieldsSpell(chunk: Bytes)
    requires |chunk| >= 16
    ensures Encodable(FieldsOf(chunk)) && FieldBytes(FieldsOf(chunk)) == chunk[..16]
  {
    hide Word16, Word32, Little;
    WordInverts(chunk[0], chunk[1]);
    WordInverts(chunk[2], chunk[3]);
    LittleInverts(chunk[4], chunk[5], chunk[6], chunk[7]);
    LittleInverts(chunk[8], chunk[9], chunk[10], chunk[11]);
    WordInverts(chunk[12], chunk[13]);
    WordInverts(chunk[14], chunk[15]);
  }

  lemma WordInverts(b0: Byte, b1: Byte)
    ensures Word16(b0, b1) < 0x1_0000 && Little(Word16(b0, b1), 2) == [b0, b1]
  {
    var n := Word16(b0, b1);
    assert n / 0x100 == b1 && n % 0x100 == b0;
    Little16(n);
  }

  /** A plain format chunk is read back as it was written. */
  lemma FormatRoundTrip(channels: nat, sampleRate: nat, byteRate: nat, align: nat, bits: nat)
    requires 0 < channels < 0x1_0000 && align < 0x1_0000 && sampleRate < 0x1_0000_0000 && bits in {16, 24, 32}
    ensures ReadWavFormat(FieldBytes(Fields(PCM, channels, sampleRate, byteRate, align, bits)))
         == Ok(WavFormat(PCM, sampleRate, channels, bits, align))
  {
    var f := Fields(PCM, channels, sampleRate, byteRate, align, bits);
    FormatMeans(f, []);
    hide Little, ReadWavFormat;
    assert FieldBytes(f) + [] == FieldBytes(f);
  }

  // ---------- whole files ----------

  /** A file of padded chunks whose format chunks are all valid, the last one saying `format`, and which has a
    * last data chunk.
    */
  ghost predicate WrittenFile(bytes: Bytes, chunks: seq<Chunk>, f: nat, d: nat, format: WavFormat) {
    && HasHeader(bytes)
    && (exists pads, tail :: Spells(bytes, 12, chunks, pads, tail))
    && (forall i :: 0 <= i < |chunks| ==> !BadFormat(chunks, i))
    && LastWith(chunks, FMT, f) && LastWith(chunks, DATA, d)
    && ReadWavFormat(chunks[f].body) == Ok(format)
  }

  /** Samples as the reader scales them. */
  ghost function Scaled(vs: seq<int>, bits: nat): seq<real>
    requires bits in {16, 24, 32}
  {
    seq(|vs|, k requires 0 <= k < |vs| => vs[k] as real / FullScale(bits) as real)
  }

  /** Reading back a written file gives the samples that were written, scaled by the full scale of their depth. */
  lemma FileRoundTrip(bytes: Bytes, chunks: seq<Chunk>, f: nat, d: nat, format: WavFormat, vs: seq<int>,
      r: Result<WavData, WavError>)
    requires WrittenFile(bytes, chunks, f, d, format)
    requires Accepted(format) && format.blockAlign == format.bitsPerSample / 8 * format.channels
    requires |vs| % format.channels == 0 && InRange(vs, format.bitsPerSample)
    requires chunks[d].body == EncodeSamples(vs, format.bitsPerSample)
    requires Means(ChunksAt(bytes, 12), r)
    ensures r == Ok(WavData(format.sampleRate, format.channels, Scaled(vs, format.bitsPerSample)))
  {
    hide ReadWavFormat, FullScale, EncodeSamples, Decoded, BadFormat, Spells, Select, ChunksAt, LastWith;
    WalkIffWritten(bytes, 12, chunks);
    FirstBadFormat(chunks, Selected(None, None));
    LastChunksKept(chunks, Selected(None, None));
    SamplesRoundTrip(vs, format.bitsPerSample);
    WholeFrames(|vs|, format.channels, format.bitsPerSample / 8);
  }

  // ---------- a writer of whole files ----------

  /** One zero byte after each odd body. */
  ghost function WordPads(chunks: seq<Chunk>): (pads: seq<Bytes>)
    ensures |pads| == |chunks|
  {
    seq(|chunks|, k requires 0 <= k < |chunks| => if |chunks[k].body| % 2 == 1 then [0] else [])
  }

  /** A file of these chunks. */
  ghost function FileOf(chunks: seq<Chunk>): (bytes: Bytes)
    requires forall c :: c in chunks ==> Writable(c)
  {
    var body := Joined(chunks, WordPads(chunks));
    RIFF + Little(4 + |body|, 4) + WAVE + body
  }

  /** The reader finds the header and then exactly the chunks that were written. */
  lemma FileSpells(chunks: seq<Chunk>)
    requires forall c :: c in chunks ==> Writable(c)
    ensures HasHeader(FileOf(chunks)) && Spells(FileOf(chunks), 12, chunks, WordPads(chunks), [])
  {
    var bytes, pads := FileOf(chunks), WordPads(chunks);
    var body := Joined(chunks, pads);
    var size := Little(4 + |body|, 4);
    assert bytes == RIFF + size + WAVE + body;
    assert bytes[..4] == RIFF && bytes[8..12] == WAVE && bytes[12..] == body;
    assert body == body + [];
  }

  /** A chunk that is neither a format nor a data chunk. */
  ghost predicate Other(c: Chunk) {
    Writable(c) && c.id != FMT && c.id != DATA
  }

  /** A format chunk, a data chunk, and any other chunks before, between and after them. */
  ghost function SoundChunks(f: Fields, extension: Bytes, data: Bytes, before: seq<Chunk>, between: seq<Chunk>,
      after: seq<Chunk>): seq<Chunk>
  {
    before + [Chunk(FMT, FieldBytes(f) + extension)] + between + [Chunk(DATA, data)] + after
  }

  lemma SoundChunksAt(f: Fields, extension: Bytes, data: Bytes, before: seq<Chunk>, between: seq<Chunk>,
      after: seq<Chunk>)
    requires |extension| + 16 < 0x1_0000_0000 && |data| < 0x1_0000_0000
    requires forall c :: c in before + between + after ==> Other(c)
    ensures var chunks := SoundChunks(f, extension, data, before, between, after);
      var i, j := |before|, |before| + 1 + |between|;
      && (forall c :: c in chunks ==> Writable(c)) && j < |chunks|
      && chunks[i] == Chunk(FMT, FieldBytes(f) + extension) && chunks[j] == Chunk(DATA, data)
      && (forall k :: 0 <= k < |chunks| && k != i ==> chunks[k].id != FMT)
      && (forall k :: 0 <= k < |chunks| && k != j ==> chunks[k].id != DATA)
  {
    var chunks := SoundChunks(f, extension, data, before, between, after);
    var i, j := |before|, |before| + 1 + |between|;
    hide FieldBytes;
    forall k | 0 <= k < |chunks|
      ensures Writable(chunks[k]) && (k != i ==> chunks[k].id != FMT) && (k != j ==> chunks[k].id != DATA)
    {
      if k < i {
        assert chunks[k] == before[k] && before[k] in before + between + after;
      } else if i < k < j {
        assert chunks[k] == between[k - i - 1] && between[k - i - 1] in before + between + after;
      } else if k > j {
        assert chunks[k] == after[k - j - 1] && after[k - j - 1] in before + between + after;
      }
    }
  }

  /** Such a file is a written file in the reader's sense. */
  lemma SoundFile(f: Fields, extension: Bytes, data: Bytes, before: seq<Chunk>, between: seq<Chunk>, after: seq<Chunk>)
    requires Encodable(f) && Verdict(f, extension).Ok?
    requires |extension| + 16 < 0x1_0000_0000 && |data| < 0x1_0000_0000
    requires forall c :: c in before + between + after ==> Other(c)
    ensures var chunks := SoundChunks(f, extension, data, before, between, after);
      && (forall c :: c in chunks ==> Writable(c)) && |before| + 1 + |between| < |chunks|
      && chunks[|before| + 1 + |between|].body == data
      && WrittenFile(FileOf(chunks), chunks, |before|, |before| + 1 + |between|, Verdict(f, extension).value)
  {
    hide FieldBytes, SoundChunks, FileOf, ReadWavFormat, Encodable, Spells, Verdict;
    var chunks := SoundChunks(f, extension, data, before, between, after);
    SoundChunksAt(f, extension, data, before, between, after);
    FileSpells(chunks);
    FormatMeans(f, extension);
  }

  lemma VerdictFields(f: Fields, extension: Bytes)
    requires Verdict(f, extension).Ok?
    ensures var format := Verdict(f, extension).value;
      Accepted(format) && format == WavFormat(f.tag, f.sampleRate, f.channels, f.bits, f.align)
  {
  }

  /** Whatever the writer is given that the format can describe, the reader returns, scaled. */
  lemma WriteThenRead(f: Fields, extension: Bytes, vs: seq<int>, data: Bytes, before: seq<Chunk>, between: seq<Chunk>,
      after: seq<Chunk>, r: Result<WavData, WavError>)
    requires Encodable(f) && Verdict(f, extension).Ok? && f.align == f.bits / 8 * f.channels
    requires |vs| % f.channels == 0 && InRange(vs, f.bits) && data == EncodeSamples(vs, f.bits)
    requires |extension| + 16 < 0x1_0000_0000 && |data| < 0x1_0000_0000
    requires forall c :: c in before + between + after ==> Other(c)
    ensures forall c :: c in SoundChunks(f, extension, data, before, between, after) ==> Writable(c)
    ensures var bytes := FileOf(SoundChunks(f, extension, data, before, between, after));
      && HasHeader(bytes)
      && (Means(ChunksAt(bytes, 12), r) ==> r == Ok(WavData(f.sampleRate, f.channels, Scaled(vs, f.bits))))
  {
    hide FieldBytes, EncodeSamples, SoundChunks, ChunksAt, FileOf, Encodable, Scaled, Verdict, Means, WrittenFile,
         InRange, Accepted, Writable, Other, HasHeader;
    var format := Verdict(f, extension).value;
    VerdictFields(f, extension);
    SoundFile(f, extension, data, before, between, after);
    var chunks := SoundChunks(f, extension, data, before, between, after);
    WrittenHeader(FileOf(chunks), chunks, |before|, |before| + 1 + |between|, format);
    if Means(ChunksAt(FileOf(chunks), 12), r) {
      FileRoundTrip(FileOf(chunks), chunks, |before|, |before| + 1 + |between|, format, vs, r);
    }
  }

  lemma WrittenHeader(bytes: Bytes, chunks: seq<Chunk>, f: nat, d: nat, format: WavFormat)
    requires WrittenFile(bytes, chunks, f, d, format)
    ensures HasHeader(bytes) && d < |chunks|
  {
  }
}
