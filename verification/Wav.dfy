/** The RIFF/WAVE reader of the loudness corpus: chunk walk, format chunk, PCM decoding, and the writer it inverts. */
module Wav {
  import opened Arithmetic
  import opened Octets
  import opened Outcomes

  datatype WavFormat = WavFormat(audioFormat: nat, sampleRate: nat, channels: nat, bitsPerSample: nat, blockAlign: nat)

  datatype WavData = WavData(sampleRate: nat, channels: nat, samples: seq<real>)

  datatype WavError =
    | NotRiffWave
    | ChunkPastEnd
    | MissingFormat
    | MissingData
    | ShortFormat
    | UnsupportedFormat
    | UnsupportedSubformat
    | ZeroChannels
    | UnsupportedDepth
    | BadBlockAlign
    | NotFrameAligned
    | UnexpectedEnd

  const RIFF: Bytes := [0x52, 0x49, 0x46, 0x46]
  const WAVE: Bytes := [0x57, 0x41, 0x56, 0x45]
  const FMT: Bytes := [0x66, 0x6D, 0x74, 0x20]
  const DATA: Bytes := [0x64, 0x61, 0x74, 0x61]
  const PCM := 1
  const EXTENSIBLE := 0xFFFE
  const PCM_SUBFORMAT: Bytes := [
    0x01, 0x00, 0x00, 0x00, 0x00, 0x00, 0x10, 0x00, 0x80, 0x00, 0x00, 0xAA, 0x00, 0x38, 0x9B, 0x71]

  // ---------- little-endian numbers ----------

  function Word16(b0: nat, b1: nat): nat {
    b0 + 0x100 * b1
  }

  function Word32(b0: nat, b1: nat, b2: nat, b3: nat): nat {
    b0 + 0x100 * b1 + 0x1_0000 * b2 + 0x100_0000 * b3
  }

  function ReadU16(bytes: Bytes, offset: nat): Result<nat, WavError> {
    if offset + 2 > |bytes| then Err(UnexpectedEnd)
    else Ok(Word16(bytes[offset], bytes[offset + 1]))
  }

  function U32At(bytes: Bytes, offset: nat): nat
    requires offset + 4 <= |bytes|
  {
    Word32(bytes[offset], bytes[offset + 1], bytes[offset + 2], bytes[offset + 3])
  }

  function ReadU32(bytes: Bytes, offset: nat): Result<nat, WavError> {
    if offset + 4 > |bytes| then Err(UnexpectedEnd) else Ok(U32At(bytes, offset))
  }

  /** The `width` low bytes of n, least significant first. */
  function Little(n: nat, width: nat): (bytes: Bytes)
    ensures |bytes| == width
  {
    if width == 0 then [] else [n % 0x100] + Little(n / 0x100, width - 1)
  }

  lemma Little16(n: nat)
    requires n < 0x1_0000
    ensures Little(n, 2) == [n % 0x100, n / 0x100]
  {
    assert Little(n / 0x100, 1) == [n / 0x100 % 0x100] + Little(n / 0x100 / 0x100, 0);
  }

  lemma Little32(n: nat)
    requires n < 0x1_0000_0000
    ensures var b := Little(n, 4); Word32(b[0], b[1], b[2], b[3]) == n
  {
    var q := n / 0x100;
    var r := q / 0x100;
    var s := r / 0x100;
    assert Little(s, 1) == [s % 0x100] + Little(s / 0x100, 0);
    assert Little(r, 2) == [r % 0x100] + Little(s, 1);
    assert Little(q, 3) == [q % 0x100] + Little(r, 2);
    assert Little(n, 4) == [n % 0x100] + Little(q, 3);
  }

  // ---------- format chunk ----------

  predicate IsExtensiblePcm(chunk: Bytes) {
    |chunk| >= 40 && chunk[24..40] == PCM_SUBFORMAT
  }

  function ReadWavFormat(chunk: Bytes): (r: Result<WavFormat, WavError>)
    ensures r.Ok? ==> Accepted(r.value)
  {
    if |chunk| < 16 then Err(ShortFormat)
    else
      var audioFormat := ReadU16(chunk, 0).value;
      var channels := ReadU16(chunk, 2).value;
      var sampleRate := ReadU32(chunk, 4).value;
      var blockAlign := ReadU16(chunk, 12).value;
      var bitsPerSample := ReadU16(chunk, 14).value;
      if audioFormat != PCM && audioFormat != EXTENSIBLE then Err(UnsupportedFormat)
      else if audioFormat == EXTENSIBLE && !IsExtensiblePcm(chunk) then Err(UnsupportedSubformat)
      else if channels == 0 then Err(ZeroChannels)
      else if bitsPerSample != 16 && bitsPerSample != 24 && bitsPerSample != 32 then Err(UnsupportedDepth)
      else Ok(WavFormat(audioFormat, sampleRate, channels, bitsPerSample, blockAlign))
  }

  // ---------- samples ----------

  /** Reinterprets an unsigned value of the given modulus as two's complement. */
  function Signed(unsigned: nat, modulus: nat): int
    requires unsigned < modulus
  {
    if 2 * unsigned < modulus then unsigned else unsigned - modulus
  }

  /** The signed integer a sample's bytes spell: 24-bit samples are shifted up and arithmetically shifted back down. */
  function DecodeInteger(bytes: Bytes, bits: nat): int
    requires bits in {16, 24, 32} && |bytes| == bits / 8
  {
    if bits == 16 then Signed(Word16(bytes[0], bytes[1]), 0x1_0000)
    else if bits == 24 then
      var unsigned := Word32(bytes[0], bytes[1], bytes[2], 0);
      Signed((unsigned * 0x100) % 0x1_0000_0000, 0x1_0000_0000) / 0x100
    else Signed(Word32(bytes[0], bytes[1], bytes[2], bytes[3]), 0x1_0000_0000)
  }

  /** The magnitude of the most negative sample. */
  function FullScale(bits: nat): (scale: int)
    requires bits in {16, 24, 32}
    ensures scale > 0
    ensures (bits == 16 ==> scale == 32768) && (bits == 24 ==> scale == 8388608) && (bits == 32 ==> scale == 2147483648)
  {
    if bits == 16 then 0x8000 else if bits == 24 then 0x80_0000 else 0x8000_0000
  }

  function DecodeSample(bytes: Bytes, bits: nat): real
    requires bits in {16, 24, 32} && |bytes| == bits / 8
  {
    DecodeInteger(bytes, bits) as real / FullScale(bits) as real
  }

  /** The samples that whole groups of bytes spell, in order. */
  ghost function Decoded(data: Bytes, bits: nat): (samples: seq<real>)
    requires bits in {16, 24, 32}
    decreases |data|
  {
    var width := bits / 8;
    if |data| < width then [] else [DecodeSample(data[..width], bits)] + Decoded(data[width..], bits)
  }

  /** A format whose chunk was accepted. */
  predicate Accepted(f: WavFormat) {
    (f.audioFormat == PCM || f.audioFormat == EXTENSIBLE) && f.channels > 0 && f.bitsPerSample in {16, 24, 32}
  }

  /** What the data chunk means under an accepted format. */
  ghost function PcmMeaning(data: Bytes, f: WavFormat): Result<WavData, WavError>
    requires Accepted(f)
  {
    AtLeastOneMultiple(f.bitsPerSample / 8, f.channels);
    if f.blockAlign != f.bitsPerSample / 8 * f.channels then Err(BadBlockAlign)
    else if |data| % f.blockAlign != 0 then Err(NotFrameAligned)
    else Ok(WavData(f.sampleRate, f.channels, Decoded(data, f.bitsPerSample)))
  }

  method DecodePcmSamples(data: Bytes, format: WavFormat) returns (r: Result<WavData, WavError>)
    requires Accepted(format)
    ensures r == PcmMeaning(data, format)
  {
    var bytesPerSample := format.bitsPerSample / 8;
    var expectedBlockAlign := bytesPerSample * format.channels;
    AtLeastOneMultiple(bytesPerSample, format.channels);
    if format.blockAlign != expectedBlockAlign {
      return Err(BadBlockAlign);
    }
    if |data| % format.blockAlign != 0 {
      return Err(NotFrameAligned);
    }
    var samples := DecodeAll(data, format.bitsPerSample);
    r := Ok(WavData(format.sampleRate, format.channels, samples));
  }

  method DecodeAll(data: Bytes, bits: nat) returns (samples: seq<real>)
    requires bits in {16, 24, 32}
    ensures samples == Decoded(data, bits)
  {
    hide DecodeSample;
    var width := bits / 8;
    var cursor := 0;
    samples := [];
    while cursor + width <= |data|
      invariant cursor <= |data|
      invariant samples + Decoded(data[cursor..], bits) == Decoded(data, bits)
    {
      assert data[cursor..][..width] == data[cursor..cursor + width];
      assert data[cursor..][width..] == data[cursor + width..];
      samples := samples + [DecodeSample(data[cursor..cursor + width], bits)];
      cursor := cursor + width;
    }
    assert Decoded(data[cursor..], bits) == [];
  }

  // ---------- the chunk walk ----------

  datatype Chunk = Chunk(id: Bytes, body: Bytes)

  /** The chunks of a byte string, and whether the walk ran into one that extends past the end. */
  datatype Chunks = Chunks(list: seq<Chunk>, overrun: bool)

  function Padded(length: nat): nat {
    length + length % 2
  }

  /** The chunk whose header is at the cursor. */
  function ChunkAt(bytes: Bytes, cursor: nat): Chunk
    requires cursor + 8 <= |bytes| && cursor + 8 + U32At(bytes, cursor + 4) <= |bytes|
  {
    Chunk(bytes[cursor..cursor + 4], bytes[cursor + 8..cursor + 8 + U32At(bytes, cursor + 4)])
  }

  /** Where the chunk after the one at the cursor starts. */
  function NextAt(bytes: Bytes, cursor: nat): nat
    requires cursor + 8 <= |bytes|
  {
    cursor + 8 + Padded(U32At(bytes, cursor + 4))
  }

  function ChunksAt(bytes: Bytes, cursor: nat): Chunks
    decreases |bytes| + 8 - cursor
  {
    if cursor + 8 > |bytes| then Chunks([], false)
    else if cursor + 8 + U32At(bytes, cursor + 4) > |bytes| then Chunks([], true)
    else
      var more := ChunksAt(bytes, NextAt(bytes, cursor));
      Chunks([ChunkAt(bytes, cursor)] + more.list, more.overrun)
  }

  /** What the walk remembers: the last format and the last data chunk so far. */
  datatype Selected = Selected(format: Option<WavFormat>, data: Option<Bytes>)

  /** Chunks taken in order: a later format or data chunk replaces an earlier one, and a bad format chunk stops
    * the walk.
    */
  function Select(chunks: seq<Chunk>, s: Selected): Result<Selected, WavError> {
    if chunks == [] then Ok(s)
    else
      var c := chunks[0];
      if c.id == FMT then
        match ReadWavFormat(c.body)
        case Err(error) => Err(error)
        case Ok(format) => Select(chunks[1..], s.(format := Some(format)))
      else if c.id == DATA then Select(chunks[1..], s.(data := Some(c.body)))
      else Select(chunks[1..], s)
  }

  predicate HasHeader(bytes: Bytes) {
    |bytes| >= 12 && bytes[..4] == RIFF && bytes[8..12] == WAVE
  }

  /** What a file with these chunks means. */
  ghost predicate Means(chunks: Chunks, r: Result<WavData, WavError>) {
    match Select(chunks.list, Selected(None, None))
    case Err(error) => r == Err(error)
    case Ok(selected) =>
      if chunks.overrun then r == Err(ChunkPastEnd)
      else if selected.format.None? then r == Err(MissingFormat)
      else if selected.data.None? then r == Err(MissingData)
      else
        Accepted(selected.format.value) && r == PcmMeaning(selected.data.value, selected.format.value)
  }

  /** Reads a file's bytes. */
  method ReadPcmWav(bytes: Bytes) returns (r: Result<WavData, WavError>)
    ensures !HasHeader(bytes) ==> r == Err(NotRiffWave)
    ensures HasHeader(bytes) ==> Means(ChunksAt(bytes, 12), r)
  {
    if |bytes| < 12 || bytes[..4] != RIFF || bytes[8..12] != WAVE {
      return Err(NotRiffWave);
    }
    var walked := WalkChunks(bytes);
    if walked.Err? {
      return Err(walked.error);
    }
    var format, dataRange := walked.value.format, walked.value.dataRange;
    hide ChunksAt, Select, PcmMeaning, Pending;
    if format.None? {
      return Err(MissingFormat);
    }
    if dataRange.None? {
      return Err(MissingData);
    }
    var (start, length) := dataRange.value;
    r := DecodePcmSamples(bytes[start..start + length], format.value);
  }

  /** The walk's own variables: the cursor, the last format and the span of the last data chunk. */
  datatype Walk = Walk(cursor: nat, format: Option<WavFormat>, dataRange: Option<(nat, nat)>)

  /** The variables stay inside the file and decide its meaning together with the chunks ahead. */
  ghost predicate OnTrack(bytes: Bytes, w: Walk, all: Chunks) {
    && (w.dataRange.Some? ==> w.dataRange.value.0 + w.dataRange.value.1 <= |bytes|)
    && (w.format.Some? ==> Accepted(w.format.value))
    && Pending(bytes, w.cursor, SelectedOf(bytes, w.format, w.dataRange), all)
  }

  /** What taking the chunk at the cursor amounts to. */
  ghost function WalkStep(bytes: Bytes, w: Walk): Result<Walk, WavError>
    requires w.cursor + 8 <= |bytes|
  {
    var length, next := U32At(bytes, w.cursor + 4), NextAt(bytes, w.cursor);
    if w.cursor + 8 + length > |bytes| then Err(ChunkPastEnd)
    else
      var chunk := ChunkAt(bytes, w.cursor);
      if chunk.id == FMT then
        var parsed := ReadWavFormat(chunk.body);
        if parsed.Err? then Err(parsed.error) else Ok(Walk(next, Some(parsed.value), w.dataRange))
      else if chunk.id == DATA then Ok(Walk(next, w.format, Some((w.cursor + 8, length))))
      else Ok(Walk(next, w.format, w.dataRange))
  }

  lemma WalkStepKeeps(bytes: Bytes, w: Walk, all: Chunks)
    requires w.cursor + 8 <= |bytes| && OnTrack(bytes, w, all)
    ensures WalkStep(bytes, w).Err? ==> WalkFails(all, WalkStep(bytes, w).error)
    ensures WalkStep(bytes, w).Ok? ==> OnTrack(bytes, WalkStep(bytes, w).value, all)
    ensures WalkStep(bytes, w).Ok? ==> w.cursor < WalkStep(bytes, w).value.cursor <= |bytes| + 1
  {
    hide ReadWavFormat, U32At, Accepted;
    if w.cursor + 8 + U32At(bytes, w.cursor + 4) <= |bytes| {
      SelectStep(ChunkAt(bytes, w.cursor), ChunksAt(bytes, NextAt(bytes, w.cursor)).list,
        SelectedOf(bytes, w.format, w.dataRange));
    }
  }

  /** Takes one chunk. */
  method WalkOne(bytes: Bytes, w: Walk) returns (r: Result<Walk, WavError>)
    requires w.cursor + 8 <= |bytes|
    ensures r == WalkStep(bytes, w)
  {
    hide ReadWavFormat, Word32;
    var chunkId := bytes[w.cursor..w.cursor + 4];
    var chunkLength := ReadU32(bytes, w.cursor + 4).value;
    var cursor, format, dataRange := w.cursor + 8, w.format, w.dataRange;
    if cursor + chunkLength > |bytes| {
      return Err(ChunkPastEnd);
    }
    if chunkId == FMT {
      var parsed := ReadWavFormat(bytes[cursor..cursor + chunkLength]);
      if parsed.Err? {
        return Err(parsed.error);
      }
      format := Some(parsed.value);
    } else if chunkId == DATA {
      dataRange := Some((cursor, chunkLength));
    }
    r := Ok(Walk(cursor + chunkLength + chunkLength % 2, format, dataRange));
  }

  /** The whole walk. */
  method WalkChunks(bytes: Bytes) returns (r: Result<Walk, WavError>)
    requires |bytes| >= 12
    ensures r.Ok? ==>
      && OnTrack(bytes, r.value, ChunksAt(bytes, 12))
      && !ChunksAt(bytes, 12).overrun
      && Select(ChunksAt(bytes, 12).list, Selected(None, None))
        == Ok(SelectedOf(bytes, r.value.format, r.value.dataRange))
    ensures r.Err? ==> WalkFails(ChunksAt(bytes, 12), r.error)
  {
    var w := Walk(12, None, None);
    ghost var all := ChunksAt(bytes, 12);
    WalkStarts(bytes);
    hide ChunksAt, Select, Pending, WalkStep;
    while w.cursor + 8 <= |bytes|
      invariant OnTrack(bytes, w, all) && w.cursor <= |bytes| + 1
      decreases |bytes| + 1 - w.cursor
    {
      WalkStepKeeps(bytes, w, all);
      var next := WalkOne(bytes, w);
      if next.Err? {
        return Err(next.error);
      }
      w := next.value;
    }
    WalkEnds(bytes, w.cursor, SelectedOf(bytes, w.format, w.dataRange), all);
    r := Ok(w);
  }

  /** Why a walk fails: a bad format chunk in time, or else a chunk that runs past the end. */
  ghost predicate WalkFails(all: Chunks, error: WavError) {
    var selected := Select(all.list, Selected(None, None));
    if selected.Err? then error == selected.error else all.overrun && error == ChunkPastEnd
  }

  ghost function SelectedOf(bytes: Bytes, format: Option<WavFormat>, dataRange: Option<(nat, nat)>): Selected
    requires dataRange.Some? ==> dataRange.value.0 + dataRange.value.1 <= |bytes|
  {
    Selected(format,
      if dataRange.Some? then Some(bytes[dataRange.value.0..dataRange.value.0 + dataRange.value.1]) else None)
  }

  /** The chunks not yet walked, continued from what is remembered, decide the outcome of the whole file. */
  ghost predicate Pending(bytes: Bytes, cursor: nat, s: Selected, all: Chunks) {
    var rest := ChunksAt(bytes, cursor);
    rest.overrun == all.overrun && Select(rest.list, s) == Select(all.list, Selected(None, None))
  }

  lemma SelectStep(chunk: Chunk, rest: seq<Chunk>, s: Selected)
    ensures Select([chunk] + rest, s)
         == if chunk.id == FMT then
              var parsed := ReadWavFormat(chunk.body);
              if parsed.Err? then Err(parsed.error) else Select(rest, s.(format := Some(parsed.value)))
            else if chunk.id == DATA then Select(rest, s.(data := Some(chunk.body)))
            else Select(rest, s)
  {
    hide ReadWavFormat;
    assert ([chunk] + rest)[1..] == rest;
  }

  lemma WalkEnds(bytes: Bytes, cursor: nat, s: Selected, all: Chunks)
    requires cursor + 8 > |bytes| && Pending(bytes, cursor, s, all)
    ensures !all.overrun && Select(all.list, Selected(None, None)) == Ok(s)
  {
  }

  lemma WalkStarts(bytes: Bytes)
    requires |bytes| >= 12
    ensures Pending(bytes, 12, Selected(None, None), ChunksAt(bytes, 12))
  {
  }
}
