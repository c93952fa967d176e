/** The canonical 44-byte RIFF/WAVE PCM header as `WavSource::open` reads
  * it (wavfile.cc) and `WavSink::close` writes it (wavfile.hh).
  *
  * A file is its sequence of bytes. Reading a field that runs past the end
  * of the file fails; a header too short to hold the field a check needs is
  * taken as failing that check. Multi-byte fields are little-endian. */
module WavHeader {
  import opened Common
  import opened NodeConfig

  type Byte = b: int | 0 <= b < 256

  /** The chunk ids, as their ASCII codes. */
  const RiffId: seq<Byte> := [0x52, 0x49, 0x46, 0x46]  // "RIFF"
  const WaveId: seq<Byte> := [0x57, 0x41, 0x56, 0x45]  // "WAVE"
  const FmtId: seq<Byte> := [0x66, 0x6d, 0x74, 0x20]   // "fmt "
  const DataId: seq<Byte> := [0x64, 0x61, 0x74, 0x61]  // "data"

  function Pow256(n: nat): (r: nat)
    ensures r >= 1
  {
    if n == 0 then 1 else 256 * Pow256(n - 1)
  }

  /** The value of a little-endian field. */
  function LE(bs: seq<Byte>): nat
  {
    if bs == [] then 0 else bs[0] + 256 * LE(bs[1..])
  }

  /** The `n` little-endian bytes of `x` modulo 256^n, as `write` puts an
    * integer of `n` bytes. */
  function Encode(x: nat, n: nat): (r: seq<Byte>)
    ensures |r| == n
  {
    if n == 0 then [] else [x % 256] + Encode(x / 256, n - 1)
  }

  /** Reading back a written field gives the value written when it fits. */
  lemma {:induction false} DecodeEncode(x: nat, n: nat)
    requires x < Pow256(n)
    ensures LE(Encode(x, n)) == x
  {
    if n > 0 {
      var e := Encode(x, n);
      assert e[1..] == Encode(x / 256, n - 1);
      assert x / 256 < Pow256(n - 1) by {
        DivBelow(x, 256, Pow256(n - 1) - 1);
      }
      DecodeEncode(x / 256, n - 1);
    }
  }

  lemma Pow256Values()
    ensures Pow256(2) == 0x1_0000 && Pow256(4) == 0x1_0000_0000
  {
    assert Pow256(1) == 256;
    assert Pow256(3) == 0x100_0000;
  }

  /** The fields of the "fmt " chunk. */
  datatype Format = Format(fmtSize: nat, channels: nat, sampleRate: nat, blockAlign: nat, bits: nat)

  /** `open` up to the end of the "fmt " chunk: "RIFF" at 0, "WAVE" at 8,
    * "fmt " at 12, format tag 1, one or two channels, 8 or 16 bits per
    * sample and a block alignment of channels · bits / 8. Every failure is
    * a `RuntimeError`. */
  function ParseFormat(f: seq<Byte>): (r: Result<Format>)
    ensures r.Err? ==> r.error == RuntimeError
    ensures r.Ok? ==> |f| >= 36 && f[..4] == RiffId && f[8..12] == WaveId && f[12..16] == FmtId
    ensures r.Ok? ==> r.value.channels in {1, 2} && r.value.bits in {8, 16}
                      && r.value.blockAlign == r.value.channels * (r.value.bits / 8)
                      && LE(f[20..22]) == 1
  {
    if |f| < 4 || f[..4] != RiffId then Err(RuntimeError)
    else if |f| < 12 || f[8..12] != WaveId then Err(RuntimeError)
    else if |f| < 16 || f[12..16] != FmtId then Err(RuntimeError)
    else if |f| < 36 then Err(RuntimeError)
    else
      var fmtSize := LE(f[16..20]);
      var format := LE(f[20..22]);
      var channels := LE(f[22..24]);
      var rate := LE(f[24..28]);
      var blockAlign := LE(f[32..34]);
      var bits := LE(f[34..36]);
      if format != 1 then Err(RuntimeError)
      else if channels != 1 && channels != 2 then Err(RuntimeError)
      else if bits != 16 && bits != 8 then Err(RuntimeError)
      else if blockAlign != channels * (bits / 8) then Err(RuntimeError)
      else Ok(Format(fmtSize, channels, rate, blockAlign, bits))
  }

  /** The search for the "data" chunk as evidently intended: from `off`,
    * each chunk is an id and a size, and a chunk that is not "data" is
    * skipped; running out of file ends the search with a `RuntimeError`.
    * Offsets do not wrap. */
  function FindData(f: seq<Byte>, off: nat): (r: Result<nat>)
    ensures r.Err? ==> r.error == RuntimeError
    ensures r.Ok? ==> off <= r.value && r.value + 8 <= |f| && f[r.value..r.value + 4] == DataId
    decreases if off <= |f| then |f| - off else 0
  {
    if off + 8 > |f| then Err(RuntimeError)
    else if f[off..off + 4] == DataId then Ok(off)
    else
      FindData(f, off + 8 + LE(f[off + 4..off + 8]))
  }

  /** The state of the search loop as written: the chunk offset (a
    * `uint32_t`), the last id read into `str`, the last size read into
    * `chunk_size`, and whether a read has failed. A failed stream reads
    * nothing more and reports end of file. */
  datatype Scan = Scan(off: nat, id: seq<Byte>, size: nat, failed: bool)

  /** Whether the loop of wavfile.cc:119 goes round again: the id is not
    * "data", or the stream is at end of file. */
  predicate Continues(s: Scan)
  {
    s.id != DataId || s.failed
  }

  /** The read of the first id, at `off`; `str` still holds "fmt " and
    * `chunk_size` the size of the "fmt " chunk. */
  function ScanStart(f: seq<Byte>, off: nat, fmtSize: nat): (r: Scan)
    ensures !r.failed ==> r.off + 4 <= |f| && r.id == f[r.off..r.off + 4]
  {
    if off + 4 > |f| then Scan(off, FmtId, fmtSize, true)
    else Scan(off, f[off..off + 4], fmtSize, false)
  }

  /** One round of the loop: read the size, move the offset past the chunk
    * (wrapping at 32 bits), read the next id. */
  function ScanStep(f: seq<Byte>, s: Scan): (r: Scan)
    ensures !r.failed ==> r.off + 4 <= |f| && r.id == f[r.off..r.off + 4]
    ensures s.failed ==> r.failed
  {
    if s.failed then s.(off := U32(s.off + 8 + s.size))
    else if s.off + 8 > |f| then s.(off := U32(s.off + 8 + s.size), failed := true)
    else
      var size := LE(f[s.off + 4..s.off + 8]);
      var next := U32(s.off + 8 + size);
      if next + 4 > |f| then Scan(next, s.id, size, true)
      else Scan(next, f[next..next + 4], size, false)
  }

  /** The loop as written, run for at most `fuel` rounds: the state in
    * which it reads the "data" id, or `None` when it is still running. */
  function ScanAsWritten(f: seq<Byte>, s: Scan, fuel: nat): (r: Option<Scan>)
    requires !s.failed ==> s.off + 4 <= |f| && s.id == f[s.off..s.off + 4]
    ensures r.Some? ==> !Continues(r.value) && r.value.off + 4 <= |f| && f[r.value.off..r.value.off + 4] == DataId
    decreases fuel
  {
    if !Continues(s) then Some(s)
    else if fuel == 0 then None
    else ScanAsWritten(f, ScanStep(f, s), fuel - 1)
  }

  /** A stream that has failed keeps the id it last read, which was not
    * "data". */
  predicate Stuck(s: Scan)
  {
    s.failed && s.id != DataId
  }

  lemma StuckStaysStuck(f: seq<Byte>, s: Scan)
    requires Stuck(s)
    ensures Stuck(ScanStep(f, s)) && Continues(ScanStep(f, s))
  {
  }

  /** Once a read has failed the loop never ends: the search as written
    * spins at end of file instead of reporting the missing chunk. */
  lemma {:induction false} StuckSpinsForever(f: seq<Byte>, s: Scan, fuel: nat)
    requires Stuck(s)
    ensures ScanAsWritten(f, s, fuel) == None
    decreases fuel
  {
    if fuel > 0 {
      StuckStaysStuck(f, s);
      StuckSpinsForever(f, ScanStep(f, s), fuel - 1);
    }
  }

  /** Every round of the loop either keeps going or fails only after an id
    * other than "data" was read: a failed state is always stuck. */
  lemma FailureIsStuck(f: seq<Byte>, s: Scan)
    requires Continues(s) && (s.failed ==> Stuck(s))
    ensures ScanStep(f, s).failed ==> Stuck(ScanStep(f, s))
  {
  }

  /** The header fields `open` keeps. */
  datatype WavInfo = WavInfo(sampleType: SampleType, sampleRate: nat, channels: nat, bits: nat,
                             frameCount: nat, dataStart: nat)

  /** The sample type `open` picks for (channels, bits). */
  function ReadType(channels: nat, bits: nat): Option<SampleType>
  {
    if channels == 1 && bits == 8 then Some(UInt8)
    else if channels == 1 && bits == 16 then Some(Int16)
    else if channels == 2 && bits == 8 then Some(CUInt8)
    else if channels == 2 && bits == 16 then Some(CInt16)
    else None
  }

  /** `_frame_count` as written: the data size over 2 · channels, which is
    * the frame size only for 16-bit samples. */
  function FrameCountAsWritten(dataSize: nat, channels: nat): nat
    requires channels >= 1
  {
    DivLower(0, 2 * channels, dataSize);
    dataSize / (2 * channels)
  }

  /** The frame count: the data size over the block alignment. */
  function FrameCount(dataSize: nat, blockAlign: nat): nat
    requires blockAlign >= 1
  {
    dataSize / blockAlign
  }

  /** For 16-bit samples the two agree; for 8-bit samples the count as
    * written is half the number of frames, so half of the data is never
    * read. */
  lemma FrameCountDiffers(dataSize: nat, channels: nat)
    requires channels in {1, 2}
    ensures FrameCountAsWritten(dataSize, channels) == FrameCount(dataSize, channels * 2)
    ensures FrameCountAsWritten(dataSize, channels) == FrameCount(dataSize, channels) / 2
    ensures FrameCountAsWritten(100, 1) == 50 && FrameCount(100, 1) == 100
  {
  }

  /** `open` after the file is opened, as evidently intended: the
    * header, the "data" chunk found by `FindData` and the frame count over
    * the block alignment. */
  function Open(f: seq<Byte>): (r: Result<WavInfo>)
    ensures r.Ok? ==> r.value.sampleType in {UInt8, Int16, CUInt8, CInt16}
                      && r.value.channels in {1, 2} && r.value.bits in {8, 16}
                      && r.value.dataStart <= |f|
  {
    match ParseFormat(f)
    case Err(e) => Err(e)
    case Ok(fm) =>
      match FindData(f, 20 + fm.fmtSize)
      case Err(e) => Err(e)
      case Ok(p) =>
        var size := LE(f[p + 4..p + 8]);
        match ReadType(fm.channels, fm.bits)
        case None => Err(ConfigError)
        case Some(t) => Ok(WavInfo(t, fm.sampleRate, fm.channels, fm.bits,
                                   FrameCount(size, fm.blockAlign), p + 8))
  }

  /** A 4-byte `read` at `at` into a variable holding prev: the bytes
    * the file still has replace the low bytes of the old value, and the
    * others keep theirs. */
  function ReadOver(f: seq<Byte>, at: nat, prev: nat): nat
    requires at <= |f|
  {
    var e := if at + 4 <= |f| then at + 4 else |f|;
    LE(f[at..e] + Encode(prev, 4)[e - at..])
  }

  /** A read with 4 bytes left reads them; one at the very end of the
    * file leaves a 32-bit value as it was. */
  lemma ReadOverEnds(f: seq<Byte>, at: nat, prev: nat)
    requires at <= |f|
    ensures at + 4 <= |f| ==> ReadOver(f, at, prev) == LE(f[at..at + 4])
    ensures at == |f| && prev < 0x1_0000_0000 ==> ReadOver(f, at, prev) == prev
  {
    if at + 4 <= |f| {
      assert f[at..at + 4] + Encode(prev, 4)[4..] == f[at..at + 4];
    } else if at == |f| && prev < 0x1_0000_0000 {
      assert f[at..at] + Encode(prev, 4)[0..] == Encode(prev, 4);
      Pow256Values();
      DecodeEncode(prev, 4);
    }
  }

  /** What `open` as written ends in within `fuel` rounds of the search. */
  datatype Outcome = Opened(info: WavInfo) | Threw(error: Error) | Running

  /** `open` as written: the chunk offset wraps at 32 bits, the search
    * loop of wavfile.cc:119 does not stop at end of file, the size of the
    * "data" chunk is read over the `chunk_size` the loop read last, so
    * bytes missing at the end of the file keep that value's, and the frame
    * count is the data size over 2 · channels. */
  function OpenAsWritten(f: seq<Byte>, fuel: nat): (r: Outcome)
    ensures r.Threw? ==> r.error in {RuntimeError, ConfigError}
    ensures r.Opened? ==> r.info.sampleType in {UInt8, Int16, CUInt8, CInt16}
                          && r.info.channels in {1, 2} && r.info.bits in {8, 16}
                          && r.info.dataStart <= |f| + 4
  {
    match ParseFormat(f)
    case Err(e) => Threw(e)
    case Ok(fm) =>
      match ScanAsWritten(f, ScanStart(f, U32(20 + fm.fmtSize), fm.fmtSize), fuel)
      case None => Running
      case Some(s) =>
        var p := s.off;
        var size := ReadOver(f, p + 4, s.size);
        match ReadType(fm.channels, fm.bits)
        case None => Threw(ConfigError)
        case Some(t) => Opened(WavInfo(t, fm.sampleRate, fm.channels, fm.bits,
                                       FrameCountAsWritten(size, fm.channels), p + 8))
  }

  /** The values `close` writes into the header. */
  datatype Fields = Fields(riffSize: nat, channels: nat, rate: nat, byteRate: nat, blockAlign: nat,
                           bits: nat, dataSize: nat)

  /** The 44-byte header: "RIFF" and its size; "WAVE"; a 16-byte "fmt "
    * chunk (PCM, channels, rate, byte rate, block alignment, bits per
    * sample); the "data" id and size. */
  function Write(h: Fields): (r: seq<Byte>)
    ensures |r| == 44
  {
    RiffId + Encode(h.riffSize, 4)
    + (WaveId
       + (FmtId + Encode(16, 4)
          + ((Encode(1, 2) + Encode(h.channels, 2) + Encode(h.rate, 4))
             + (Encode(h.byteRate, 4) + Encode(h.blockAlign, 2) + Encode(h.bits, 2))))
       + DataId + Encode(h.dataSize, 4))
  }

  /** The fields `WavSink::close` computes for `frames` frames, with the
    * given RIFF size; every field is cut to its width. */
  function SinkFields(riff: int, channels: nat, bits: nat, rate: nat, frames: nat): (h: Fields)
    ensures h.riffSize < 0x1_0000_0000 && h.dataSize < 0x1_0000_0000 && h.rate < 0x1_0000_0000
    ensures h.blockAlign < 0x1_0000
  {
    Fields(U32(riff), channels, U32(rate), U32(channels * rate * (bits / 8)), U16(channels * (bits / 8)),
           bits, U32(channels * frames * (bits / 8)))
  }

  /** The header `close` writes, as written: the RIFF size is
    * 36 + 2 · frames whatever the frame size. */
  function HeaderAsWritten(channels: nat, bits: nat, rate: nat, frames: nat): (h: seq<Byte>)
    ensures |h| == 44
  {
    Write(SinkFields(36 + 2 * frames, channels, bits, rate, frames))
  }

  /** The header with the RIFF size the format defines: 36 plus the data
    * size, the length of the file after the size field. */
  function Header(channels: nat, bits: nat, rate: nat, frames: nat): (h: seq<Byte>)
    ensures |h| == 44
  {
    Write(SinkFields(36 + channels * frames * (bits / 8), channels, bits, rate, frames))
  }

  /** The three parts of a concatenation. */
  lemma Parts(a: seq<Byte>, b: seq<Byte>, c: seq<Byte>)
    ensures (a + b + c)[..|a|] == a && (a + b + c)[|a|..|a| + |b|] == b
    ensures (a + b + c)[|a| + |b|..] == c
  {
  }

  /** A slice of a slice. */
  lemma SubSlice(s: seq<Byte>, t: seq<Byte>, i: nat, j: nat, k: nat, l: nat)
    requires i <= j <= |s| && s[i..j] == t && k <= l <= |t|
    ensures s[i + k..i + l] == t[k..l]
  {
    forall m | 0 <= m < l - k
      ensures s[i + k..i + l][m] == t[k..l][m]
    {
      assert s[i..j][k + m] == s[i + k + m];
    }
  }

  /** The slices of a header assembled from parts of the header's lengths. */
  lemma Layout(f: seq<Byte>, riff: seq<Byte>, size: seq<Byte>, wave: seq<Byte>, fmt: seq<Byte>,
               fmtSize: seq<Byte>, pcm: seq<Byte>, channels: seq<Byte>, rate: seq<Byte>,
               byteRate: seq<Byte>, align: seq<Byte>, bits: seq<Byte>, data: seq<Byte>, dataSize: seq<Byte>)
    requires |riff| == |size| == |wave| == |fmt| == |fmtSize| == |rate| == |byteRate| == |data| == |dataSize| == 4
    requires |pcm| == |channels| == |align| == |bits| == 2
    requires |f| >= 44
    requires f[..44] == riff + size + (wave + (fmt + fmtSize + ((pcm + channels + rate) + (byteRate + align + bits)))
                                       + data + dataSize)
    ensures f[..4] == riff && f[4..8] == size && f[8..12] == wave && f[12..16] == fmt && f[16..20] == fmtSize
    ensures f[20..22] == pcm && f[22..24] == channels && f[24..28] == rate && f[28..32] == byteRate
    ensures f[32..34] == align && f[34..36] == bits && f[36..40] == data && f[40..44] == dataSize
  {
    var h := f[..44];
    var g := wave + (fmt + fmtSize + ((pcm + channels + rate) + (byteRate + align + bits))) + data + dataSize;
    var c := fmt + fmtSize + ((pcm + channels + rate) + (byteRate + align + bits));
    var lo, hi := pcm + channels + rate, byteRate + align + bits;
    Parts(riff, size, g);
    SubSlice(f, h, 0, 44, 0, 4);
    SubSlice(f, h, 0, 44, 4, 8);
    SubSlice(f, h, 0, 44, 8, 44);
    Parts(wave + c, data, dataSize);
    SubSlice(f, g, 8, 44, 0, 28);
    SubSlice(f, g, 8, 44, 28, 32);
    SubSlice(f, g, 8, 44, 32, 36);
    Parts(wave, c, []);
    SubSlice(f, wave + c, 8, 36, 0, 4);
    SubSlice(f, wave + c, 8, 36, 4, 28);
    Parts(fmt, fmtSize, lo + hi);
    SubSlice(f, c, 12, 36, 0, 4);
    SubSlice(f, c, 12, 36, 4, 8);
    SubSlice(f, c, 12, 36, 8, 24);
    Parts(lo, hi, []);
    SubSlice(f, lo + hi, 20, 36, 0, 8);
    SubSlice(f, lo + hi, 20, 36, 8, 16);
    Parts(pcm, channels, rate);
    SubSlice(f, lo, 20, 28, 0, 2);
    SubSlice(f, lo, 20, 28, 2, 4);
    SubSlice(f, lo, 20, 28, 4, 8);
    Parts(byteRate, align, bits);
    SubSlice(f, hi, 28, 36, 0, 4);
    SubSlice(f, hi, 28, 36, 4, 6);
    SubSlice(f, hi, 28, 36, 6, 8);
  }

  /** Where the fields of a written header sit: "RIFF" at 0, its size at 4,
    * "WAVE" at 8, "fmt " at 12, the fmt size at 16, PCM at 20, the channels
    * at 22, the rate at 24, the byte rate at 28, the block alignment at 32,
    * the bits at 34, "data" at 36 and the data size at 40. */
  lemma WriteLayout(h: Fields, f: seq<Byte>)
    requires |f| >= 44 && f[..44] == Write(h)
    ensures f[..4] == RiffId && f[4..8] == Encode(h.riffSize, 4) && f[8..12] == WaveId && f[12..16] == FmtId
    ensures f[16..20] == Encode(16, 4) && f[20..22] == Encode(1, 2) && f[22..24] == Encode(h.channels, 2)
    ensures f[24..28] == Encode(h.rate, 4) && f[28..32] == Encode(h.byteRate, 4)
    ensures f[32..34] == Encode(h.blockAlign, 2) && f[34..36] == Encode(h.bits, 2)
    ensures f[36..40] == DataId && f[40..44] == Encode(h.dataSize, 4)
  {
    Layout(f, RiffId, Encode(h.riffSize, 4), WaveId, FmtId, Encode(16, 4), Encode(1, 2),
           Encode(h.channels, 2), Encode(h.rate, 4), Encode(h.byteRate, 4),
           Encode(h.blockAlign, 2), Encode(h.bits, 2), DataId, Encode(h.dataSize, 4));
  }

  /** Two fields of four bytes are equal exactly when the values are. */
  lemma EncodeInjective(x: nat, y: nat)
    requires x < 0x1_0000_0000 && y < 0x1_0000_0000
    ensures Encode(x, 4) == Encode(y, 4) <==> x == y
  {
    Pow256Values();
    DecodeEncode(x, 4);
    DecodeEncode(y, 4);
  }

  /** A header whose fields describe a PCM stream `open` accepts: one or two
    * channels, 8 or 16 bits, a matching block alignment, and values that
    * fit their fields. */
  predicate Readable(h: Fields)
  {
    h.channels in {1, 2} && h.bits in {8, 16} && h.blockAlign == h.channels * (h.bits / 8)
    && h.rate < 0x1_0000_0000 && h.dataSize < 0x1_0000_0000
  }

  /** The header fields of a readable header read back as written. */
  lemma ReadFields(h: Fields, f: seq<Byte>)
    requires Readable(h) && |f| >= 44 && f[..44] == Write(h)
    ensures ParseFormat(f) == Ok(Format(16, h.channels, h.rate, h.blockAlign, h.bits))
    ensures f[36..40] == DataId && LE(f[40..44]) == h.dataSize
  {
    WriteLayout(h, f);
    assert h.blockAlign <= 4 by {
      if h.channels == 1 {
        assert h.blockAlign == h.bits / 8;
      } else {
        assert h.blockAlign == 2 * (h.bits / 8);
      }
    }
    Pow256Values();
    DecodeEncode(16, 4);
    DecodeEncode(1, 2);
    DecodeEncode(h.channels, 2);
    DecodeEncode(h.rate, 4);
    DecodeEncode(h.bits, 2);
    DecodeEncode(h.blockAlign, 2);
    DecodeEncode(h.dataSize, 4);
  }

  /** `open` reads a readable header back, whatever its RIFF size: the "data"
    * chunk is found right after the "fmt " chunk, and the samples start at
    * byte 44. As intended the frame count is the data size over the block
    * alignment; as written it is the data size over 2 · channels, and the
    * search ends at once. */
  lemma WriteOpen(h: Fields, f: seq<Byte>, fuel: nat)
    requires Readable(h) && |f| >= 44 && f[..44] == Write(h)
    ensures Open(f) == Ok(WavInfo(ReadType(h.channels, h.bits).value, h.rate, h.channels, h.bits,
                                  FrameCount(h.dataSize, h.blockAlign), 44))
    ensures OpenAsWritten(f, fuel) == Opened(WavInfo(ReadType(h.channels, h.bits).value, h.rate, h.channels,
                                                     h.bits, FrameCountAsWritten(h.dataSize, h.channels), 44))
  {
    ReadFields(h, f);
    assert FindData(f, 36) == Ok(36);
    assert ScanStart(f, 36, 16) == Scan(36, DataId, 16, false);
    ReadOverEnds(f, 40, 16);
  }

  /** The checks of `open` read only the first 36 bytes. */
  lemma ParseFormatPrefix(f: seq<Byte>)
    requires |f| >= 36
    ensures ParseFormat(f[..36]) == ParseFormat(f)
  {
    var g := f[..36];
    assert g[..4] == f[..4] && g[8..12] == f[8..12] && g[12..16] == f[12..16];
    assert g[16..20] == f[16..20] && g[20..22] == f[20..22] && g[22..24] == f[22..24];
    assert g[24..28] == f[24..28] && g[32..34] == f[32..34] && g[34..36] == f[34..36];
  }

  /** The input that shows the search as written spinning: a header cut
    * after its "fmt " chunk, so that the file has no "data" chunk. As
    * intended `open` throws a `RuntimeError`; as written it is still
    * running after any number of rounds. */
  lemma NoDataChunk(h: Fields, fuel: nat)
    requires Readable(h)
    ensures Open(Write(h)[..36]) == Err(RuntimeError)
    ensures OpenAsWritten(Write(h)[..36], fuel) == Running
  {
    var f := Write(h)[..36];
    ReadFields(h, Write(h));
    ParseFormatPrefix(Write(h));
    assert ParseFormat(f) == Ok(Format(16, h.channels, h.rate, h.blockAlign, h.bits));
    assert FindData(f, 36) == Err(RuntimeError);
    var s := ScanStart(f, 36, 16);
    assert Stuck(s);
    StuckSpinsForever(f, s, fuel);
  }

  /** The input that shows the size of the "data" chunk read over the
    * last `chunk_size`: a header cut right after the "data" id. As
    * intended `open` throws a `RuntimeError`; as written it opens, with
    * the 16 bytes of the "fmt " chunk taken for the data size. */
  lemma DataSizeMissing(h: Fields)
    requires Readable(h)
    ensures Open(Write(h)[..40]) == Err(RuntimeError)
    ensures OpenAsWritten(Write(h)[..40], 0)
            == Opened(WavInfo(ReadType(h.channels, h.bits).value, h.rate, h.channels, h.bits,
                              FrameCountAsWritten(16, h.channels), 44))
  {
    var f := Write(h)[..40];
    ReadFields(h, Write(h));
    ParseFormatPrefix(Write(h));
    ParseFormatPrefix(f);
    assert f[..36] == Write(h)[..36];
    assert f[36..40] == DataId;
    assert FindData(f, 36) == Err(RuntimeError);
    assert ScanStart(f, 36, 16) == Scan(36, DataId, 16, false);
    ReadOverEnds(f, 40, 16);
  }

  /** The data size is the frame count times the block alignment. */
  lemma FrameBytes(channels: nat, bits: nat, frames: nat)
    ensures channels * frames * (bits / 8) == frames * (channels * (bits / 8)) >= 0
  {
    MulMono(0, frames, channels * (bits / 8));
  }

  /** A header `close` writes for one or two channels of 8 or 16 bits, whose
    * data size fits 32 bits, opens with the channels, bits, rate and frame
    * count written, whatever its RIFF size (so both `Header` and
    * `HeaderAsWritten` do). */
  lemma HeaderRoundTrip(riff: int, channels: nat, bits: nat, rate: nat, frames: nat, f: seq<Byte>)
    requires channels in {1, 2} && bits in {8, 16} && rate < 0x1_0000_0000
    requires channels * frames * (bits / 8) < 0x1_0000_0000
    requires |f| >= 44 && f[..44] == Write(SinkFields(riff, channels, bits, rate, frames))
    ensures Open(f) == Ok(WavInfo(ReadType(channels, bits).value, rate, channels, bits, frames, 44))
  {
    var align := channels * (bits / 8);
    FrameBytes(channels, bits, frames);
    var size: nat := channels * frames * (bits / 8);
    var h := SinkFields(riff, channels, bits, rate, frames);
    assert h.dataSize == size && h.rate == rate && h.blockAlign == align;
    WriteOpen(h, f, 0);
    DivUnique(frames, 0, align, size);
  }

  /** As written, a file `WavSink` wrote with 8-bit samples reads back with
    * half its frames: mono 8-bit, 100 frames, opens with 50. */
  lemma EightBitFramesHalved(f: seq<Byte>)
    requires |f| >= 44 && f[..44] == HeaderAsWritten(1, 8, 8000, 100)
    ensures Open(f).Ok? && Open(f).value.frameCount == 100
    ensures OpenAsWritten(f, 0).Opened? && OpenAsWritten(f, 0).info.frameCount == 50
  {
    var h := SinkFields(36 + 2 * 100, 1, 8, 8000, 100);
    assert h.dataSize == 100 && h.channels == 1;
    HeaderRoundTrip(36 + 2 * 100, 1, 8, 8000, 100, f);
    WriteOpen(h, f, 0);
  }

  /** The size field of a header, and the 36 bytes after it, which do not
    * depend on the RIFF size. */
  lemma RiffBytes(h: Fields)
    ensures Write(h)[4..8] == Encode(h.riffSize, 4)
    ensures Write(h)[8..] == Write(h.(riffSize := 0))[8..]
  {
    var g := WaveId
       + (FmtId + Encode(16, 4)
          + ((Encode(1, 2) + Encode(h.channels, 2) + Encode(h.rate, 4))
             + (Encode(h.byteRate, 4) + Encode(h.blockAlign, 2) + Encode(h.bits, 2))))
       + DataId + Encode(h.dataSize, 4);
    Parts(RiffId, Encode(h.riffSize, 4), g);
    Parts(RiffId, Encode(0, 4), g);
  }

  /** 36 + 2 · frames is 36 plus the data size exactly when a frame is two
    * bytes. */
  lemma TwoBytesPerFrame(channels: nat, bits: nat, frames: nat)
    requires channels in {1, 2} && bits in {8, 16} && 0 < frames
    ensures 36 + 2 * frames == 36 + channels * frames * (bits / 8) <==> channels * (bits / 8) == 2
  {
    if channels == 1 && bits == 8 {
      assert channels * frames * (bits / 8) == frames;
    } else if channels == 2 && bits == 16 {
      assert channels * frames * (bits / 8) == 4 * frames;
    } else {
      assert channels * frames * (bits / 8) == 2 * frames;
    }
  }

  /** Two headers whose fields differ at most in the RIFF size are equal
    * exactly when the RIFF sizes are, and agree after the size field. */
  lemma WriteRiffOnly(h1: Fields, h2: Fields)
    requires h1.(riffSize := 0) == h2.(riffSize := 0)
    requires h1.riffSize < 0x1_0000_0000 && h2.riffSize < 0x1_0000_0000
    ensures Write(h1) == Write(h2) <==> h1.riffSize == h2.riffSize
    ensures Write(h1)[8..] == Write(h2)[8..]
  {
    RiffBytes(h1);
    RiffBytes(h2);
    if h1.riffSize != h2.riffSize {
      EncodeInjective(h1.riffSize, h2.riffSize);
      assert Write(h1)[4..8] != Write(h2)[4..8];
    } else {
      assert h1 == h2;
    }
  }

  /** Both RIFF sizes fit 32 bits when the larger does, and they are the
    * only field in which the two headers differ. */
  lemma SinkRiffSizes(channels: nat, bits: nat, rate: nat, frames: nat)
    requires channels in {1, 2} && bits in {8, 16}
    requires 36 + channels * frames * 2 < 0x1_0000_0000
    ensures SinkFields(36 + 2 * frames, channels, bits, rate, frames).riffSize == 36 + 2 * frames
    ensures SinkFields(36 + channels * frames * (bits / 8), channels, bits, rate, frames).riffSize
            == 36 + channels * frames * (bits / 8)
    ensures SinkFields(36 + 2 * frames, channels, bits, rate, frames).(riffSize := 0)
            == SinkFields(36 + channels * frames * (bits / 8), channels, bits, rate, frames).(riffSize := 0)
  {
    if channels == 1 {
      assert channels * frames * 2 == 2 * frames;
      assert channels * frames * (bits / 8) == frames * (bits / 8);
    } else {
      assert channels * frames * 2 == 4 * frames;
      assert channels * frames * (bits / 8) == 2 * frames * (bits / 8);
    }
  }

  /** The header as written is the intended one exactly when a frame is
    * two bytes (mono 16-bit or stereo 8-bit); otherwise only the RIFF
    * size differs. */
  lemma RiffSizeDiffers(channels: nat, bits: nat, rate: nat, frames: nat)
    requires channels in {1, 2} && bits in {8, 16} && 0 < frames
    requires 36 + channels * frames * 2 < 0x1_0000_0000
    ensures HeaderAsWritten(channels, bits, rate, frames) == Header(channels, bits, rate, frames)
            <==> channels * (bits / 8) == 2
    ensures HeaderAsWritten(channels, bits, rate, frames)[8..] == Header(channels, bits, rate, frames)[8..]
  {
    var x, y := 36 + 2 * frames, 36 + channels * frames * (bits / 8);
    TwoBytesPerFrame(channels, bits, frames);
    SinkRiffSizes(channels, bits, rate, frames);
    WriteRiffOnly(SinkFields(x, channels, bits, rate, frames), SinkFields(y, channels, bits, rate, frames));
  }

  /** The input that shows it: a stereo 16-bit file of 10 frames gets the
    * RIFF size 56 instead of 76. */
  lemma RiffSizeStereo16(rate: nat)
    ensures HeaderAsWritten(2, 16, rate, 10)[4..8] == Encode(56, 4)
    ensures Header(2, 16, rate, 10)[4..8] == Encode(76, 4)
    ensures Encode(56, 4) != Encode(76, 4)
  {
    RiffBytes(SinkFields(56, 2, 16, rate, 10));
    RiffBytes(SinkFields(76, 2, 16, rate, 10));
    EncodeInjective(56, 76);
  }
}
