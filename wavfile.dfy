/** The WAV file nodes (wavfile.cc, wavfile.hh): `WavSource` reads a
  * RIFF/WAVE PCM file and sends its samples buffer by buffer, `WavSink`
  * appends the samples it receives to a file and writes the header on
  * `close`.
  *
  * A file is its byte content. Opening a file by name becomes an
  * `Option<seq<Byte>>` (`None` when it cannot be opened); the source's
  * `send` and the queue's `stop` are returned to the caller. */
module WavFiles {
  import opened Common
  import opened NodeConfig
  import opened WavHeader

  /** The frames `next` reads at each call while frames are left: the
    * minimum of the frames left and the buffer size, until none are left. */
  function Chunks(left: nat, size: nat): (r: seq<nat>)
    requires size > 0
    decreases left
  {
    if left == 0 then [] else
      var n := Min(left, size);
      [n] + Chunks(left - n, size)
  }

  function Sum(s: seq<nat>): nat
  {
    if s == [] then 0 else s[0] + Sum(s[1..])
  }

  /** Reading a file of `left` frames in buffers of `size` frames reads
    * every frame exactly once, in buffers of at most `size` frames, all but
    * the last of them full, and takes ceil(left / size) buffers. */
  lemma {:induction false} ChunksCover(left: nat, size: nat)
    requires size > 0
    ensures Sum(Chunks(left, size)) == left
    ensures forall i :: 0 <= i < |Chunks(left, size)| ==> 0 < Chunks(left, size)[i] <= size
    ensures forall i :: 0 <= i < |Chunks(left, size)| - 1 ==> Chunks(left, size)[i] == size
    ensures |Chunks(left, size)| == (left + size - 1) / size
    decreases left
  {
    if left > 0 {
      var n := Min(left, size);
      var rest := Chunks(left - n, size);
      assert Chunks(left, size) == [n] + rest;
      ChunksCover(left - n, size);
      if left <= size {
        assert rest == [];
        DivUnique(1, left - 1, size, left + size - 1);
      } else {
        DivStep(left + size - 1, size);
      }
    } else {
      DivUnique(0, size - 1, size, size - 1);
    }
  }

  /** `isReal`: the real sample types `open` selects are those of the mono
    * files. */
  lemma RealIffMono(channels: nat, bits: nat)
    requires ReadType(channels, bits).Some?
    ensures ReadType(channels, bits).value in {UInt8, Int16} <==> channels == 1
    ensures TypeSize(ReadType(channels, bits).value) == channels * (bits / 8)
  {
  }

  class WavSource {
    /** `_buffer_size`, in frames. */
    const bufferSize: nat
    /** `_file.is_open()`, the file's bytes and the read position. */
    var isOpen: bool
    var file: seq<Byte>
    var pos: nat
    var sampleType: SampleType
    var sampleRate: nat
    var frameCount: nat
    var framesLeft: nat
    /** `_buffer`, as bytes. */
    var buffer: array<Byte>

    /** While frames are left, the buffer holds a full buffer of samples of
      * one of the four types `open` selects. */
    ghost predicate Valid()
      reads this
    {
      pos <= |file|
      && (framesLeft > 0 ==> sampleType in {UInt8, Int16, CUInt8, CInt16}
                             && buffer.Length == bufferSize * TypeSize(sampleType))
    }

    /** `WavSource(buffer_size)`: no file, undefined type, no frames. */
    constructor (bufferSize: nat)
      ensures Valid() && this.bufferSize == bufferSize && !isOpen
      ensures sampleType == Undefined && sampleRate == 0 && frameCount == 0 && framesLeft == 0
    {
      this.bufferSize := bufferSize;
      isOpen := false;
      file := [];
      pos := 0;
      sampleType := Undefined;
      sampleRate := 0;
      frameCount := 0;
      framesLeft := 0;
      buffer := new Byte[0];
    }

    /** `open`: an open file is closed first; a file that cannot be opened
      * leaves the source closed and otherwise as it was. A file whose
      * header `Open` rejects is an error: the file stays open and the
      * source keeps its type, rate and frames left; otherwise the
      * type, rate and frame count come from the header, the read position
      * is the start of the samples, a buffer of `bufferSize` samples is
      * allocated and the configuration (type, rate, buffer size, one
      * buffer) is published. */
    method Open(f: Option<seq<Byte>>) returns (r: Result<Option<Config>>)
      requires Valid()
      modifies this`isOpen, this`file, this`pos, this`sampleType, this`sampleRate, this`frameCount,
               this`framesLeft, this`buffer
      ensures Valid()
      ensures f.None? ==> !isOpen && r == Ok(None) && file == old(file) && pos == old(pos)
                          && sampleType == old(sampleType) && framesLeft == old(framesLeft)
                          && buffer == old(buffer)
      ensures f.Some? && WavHeader.Open(f.value).Err? ==>
                isOpen && r == Err(WavHeader.Open(f.value).error) && file == f.value && pos == |file|
                && sampleType == old(sampleType) && sampleRate == old(sampleRate)
                && frameCount == old(frameCount) && framesLeft == old(framesLeft) && buffer == old(buffer)
      ensures f.Some? && WavHeader.Open(f.value).Ok? ==>
                var info := WavHeader.Open(f.value).value;
                isOpen && file == f.value && pos == info.dataStart
                && sampleType == info.sampleType && sampleRate == info.sampleRate
                && frameCount == info.frameCount && framesLeft == frameCount
                && fresh(buffer) && buffer.Length == bufferSize * TypeSize(sampleType)
                && r == Ok(Some(Config(info.sampleType, info.sampleRate as real, bufferSize, 1)))
    {
      isOpen := false;
      if f.None? {
        return Ok(None);
      }
      isOpen := true;
      file := f.value;
      match WavHeader.Open(f.value)
      case Err(e) =>
        pos := |file|;
        r := Err(e);
      case Ok(info) =>
        pos := info.dataStart;
        sampleType := info.sampleType;
        sampleRate := info.sampleRate;
        frameCount := info.frameCount;
        framesLeft := frameCount;
        buffer := new Byte[bufferSize * TypeSize(sampleType)];
        r := Ok(Some(Config(info.sampleType, info.sampleRate as real, bufferSize, 1)));
    }

    /** `close`: the file is closed and no frames are left. */
    method Close()
      modifies this`isOpen, this`framesLeft
      ensures !isOpen && framesLeft == 0
    {
      isOpen := false;
      framesLeft := 0;
    }

    /** `isReal`: u8 and s16 files (the mono ones). */
    function IsReal(): (r: bool)
      reads this
      ensures r <==> sampleType == UInt8 || sampleType == Int16
    {
      sampleType in {UInt8, Int16}
    }

    /** `next`: with no frames left the file is closed and the queue is
      * told to stop (`stop`), and nothing is sent. Otherwise
      * n = min(frames left, buffer size) frames are read into the buffer
      * (as many of their bytes as the file still holds) and the first
      * n · sample-size bytes of the buffer are sent; n frames fewer are
      * left. */
    method Next() returns (sent: nat, stop: bool)
      requires Valid()
      modifies this`isOpen, this`pos, this`framesLeft, buffer
      ensures Valid()
      ensures old(framesLeft) == 0 ==> stop && sent == 0 && !isOpen && framesLeft == 0 && pos == old(pos)
                                       && buffer[..] == old(buffer[..])
      ensures old(framesLeft) > 0 ==>
                var n := Min(old(framesLeft), bufferSize);
                var k := if old(isOpen) then Min(n * TypeSize(sampleType), |file| - old(pos)) else 0;
                !stop && sent == n * TypeSize(sampleType) && sent <= buffer.Length
                && framesLeft == old(framesLeft) - n && isOpen == old(isOpen)
                && pos == old(pos) + k && buffer[..k] == file[old(pos)..pos] && buffer[k..] == old(buffer[k..])
    {
      if framesLeft == 0 {
        isOpen := false;
        return 0, true;
      }
      var n := Min(framesLeft, bufferSize);
      sent := n * TypeSize(sampleType);
      MulMono(n, bufferSize, TypeSize(sampleType));
      var k := if isOpen then Min(sent, |file| - pos) else 0;
      forall i | 0 <= i < k {
        buffer[i] := file[pos + i];
      }
      pos := pos + k;
      framesLeft := framesLeft - n;
      stop := false;
    }
  }

  /** The next sizes of a source with frames left follow `Chunks`: the
    * frames read by `next` are the first chunk and the frames left are
    * the rest. */
  lemma NextFollowsChunks(left: nat, size: nat)
    requires size > 0 && left > 0
    ensures Chunks(left, size) == [Min(left, size)] + Chunks(left - Min(left, size), size)
  {
  }

  /** The bits and channels `WavSink` writes for a sample type (`None` for
    * the floating-point types, which it rejects). */
  function SinkLayout(s: Scalar): Option<(nat, nat)>
  {
    match s
    case ScalarUInt8 => Some((8, 1))
    case ScalarInt8 => Some((8, 1))
    case ComplexUInt8 => Some((8, 2))
    case ComplexInt8 => Some((8, 2))
    case ScalarUInt16 => Some((16, 1))
    case ScalarInt16 => Some((16, 1))
    case ComplexUInt16 => Some((16, 2))
    case ComplexInt16 => Some((16, 2))
    case _ => None
  }

  /** A frame of the header `WavSink` writes is one sample of its type, and
    * `WavSource` reads such a file back as u8, s16, cu8 or cs16 of the
    * same size: the type itself for those four, the unsigned 8-bit or
    * signed 16-bit type of the same shape for the others. */
  lemma SinkLayoutReadsBack(s: Scalar)
    ensures SinkLayout(s).None? <==> s in {ScalarFloat, ScalarDouble, ComplexFloat, ComplexDouble}
    ensures SinkLayout(s).Some? ==>
              var (bits, channels) := SinkLayout(s).value;
              channels * (bits / 8) == SizeOf(s)
              && ReadType(channels, bits).Some?
              && TypeSize(ReadType(channels, bits).value) == SizeOf(s)
              && IsComplex(ReadType(channels, bits).value) == IsComplex(TypeId(s))
              && (ReadType(channels, bits).value == TypeId(s)
                  <==> s in {ScalarUInt8, ComplexUInt8, ScalarInt16, ComplexInt16})
  {
  }

  class WavSink {
    const scalar: Scalar
    const bits: nat
    const channels: nat
    var isOpen: bool
    /** `_frameCount` and `_sampleRate`, both `uint32_t`. */
    var frameCount: nat
    var sampleRate: nat
    /** The file's bytes: the header (zeros until `close`) and the samples. */
    var file: seq<Byte>

    ghost predicate Valid()
      reads this
    {
      SinkLayout(scalar) == Some((bits, channels)) && |file| >= 44
      && frameCount < 0x1_0000_0000 && sampleRate < 0x1_0000_0000
    }

    /** The constructor once the file is open and the type is supported: 44
      * zero bytes are written, no frames, rate 0. */
    constructor (scalar: Scalar)
      requires SinkLayout(scalar).Some?
      ensures Valid() && this.scalar == scalar && isOpen
      ensures file == seq(44, i => 0) && frameCount == 0 && sampleRate == 0
    {
      this.scalar := scalar;
      bits := SinkLayout(scalar).value.0;
      channels := SinkLayout(scalar).value.1;
      isOpen := true;
      frameCount := 0;
      sampleRate := 0;
      file := seq(44, i => 0);
    }

    /** `config`: ignored without a type or a rate; a type other than the
      * sink's is a `ConfigError`; otherwise the rate is stored (converted
      * to `uint32_t`, which C++ defines only for rates that fit). */
    method Configure(c: Config) returns (r: Result<()>)
      requires Valid()
      requires c.HasType() && c.HasSampleRate() && c.sampleType == TypeId(scalar) ==>
                 0.0 <= c.sampleRate < 4294967296.0
      modifies this`sampleRate
      ensures Valid() && r.Ok? <==> !(c.HasType() && c.HasSampleRate() && c.sampleType != TypeId(scalar))
      ensures r.Err? ==> r.error == ConfigError
      ensures c.HasType() && c.HasSampleRate() && r.Ok? ==> sampleRate == c.sampleRate.Floor
      ensures !(c.HasType() && c.HasSampleRate() && r.Ok?) ==> sampleRate == old(sampleRate)
    {
      if !c.HasType() || !c.HasSampleRate() {
        return Ok(());
      }
      if TypeId(scalar) != c.sampleType {
        return Err(ConfigError);
      }
      sampleRate := c.sampleRate.Floor;
      r := Ok(());
    }

    /** `process`: while the file is open, the buffer's bytes are appended
      * and its sample count is added to the frame count (wrapping at 32
      * bits); a closed sink ignores the buffer. */
    method Process(samples: nat, data: seq<Byte>)
      requires Valid() && |data| == samples * SizeOf(scalar)
      modifies this`file, this`frameCount
      ensures Valid()
      ensures old(isOpen) ==> file == old(file) + data && frameCount == U32(old(frameCount) + samples)
      ensures !old(isOpen) ==> file == old(file) && frameCount == old(frameCount)
    {
      if !isOpen {
        return;
      }
      file := file + data;
      frameCount := U32(frameCount + samples);
    }

    /** `close`, as evidently intended: the header with the RIFF size
      * 36 + data size replaces the first 44 bytes and the file is closed;
      * closing a closed sink does nothing. */
    method Close()
      requires Valid()
      modifies this`file, this`isOpen
      ensures Valid() && !isOpen
      ensures old(isOpen) ==> file[..44] == Header(channels, bits, sampleRate, frameCount)
                              && file[44..] == old(file[44..])
      ensures !old(isOpen) ==> file == old(file)
    {
      if !isOpen {
        return;
      }
      file := Header(channels, bits, sampleRate, frameCount) + file[44..];
      isOpen := false;
    }

    /** `close` as written: the RIFF size is 36 + 2 · frames. */
    method CloseAsWritten()
      requires Valid()
      modifies this`file, this`isOpen
      ensures Valid() && !isOpen
      ensures old(isOpen) ==> file[..44] == HeaderAsWritten(channels, bits, sampleRate, frameCount)
                              && file[44..] == old(file[44..])
      ensures !old(isOpen) ==> file == old(file)
    {
      if !isOpen {
        return;
      }
      file := HeaderAsWritten(channels, bits, sampleRate, frameCount) + file[44..];
      isOpen := false;
    }
  }

  /** What a sink writes, a source reads: a file closed by `WavSink` with
    * fewer than 2^32 bytes of samples opens in `WavSource` with the sink's
    * rate and frame count and with a type of the sink's sample size. */
  lemma SinkThenSource(scalar: Scalar, rate: nat, frames: nat, f: seq<Byte>)
    requires SinkLayout(scalar).Some? && rate < 0x1_0000_0000
    requires var (bits, channels) := SinkLayout(scalar).value;
             channels * frames * (bits / 8) < 0x1_0000_0000
             && |f| >= 44 && f[..44] == Header(channels, bits, rate, frames)
    ensures WavHeader.Open(f).Ok?
    ensures WavHeader.Open(f).value.frameCount == frames && WavHeader.Open(f).value.sampleRate == rate
    ensures TypeSize(WavHeader.Open(f).value.sampleType) == SizeOf(scalar)
  {
    var (bits, channels) := SinkLayout(scalar).value;
    HeaderRoundTrip(36 + channels * frames * (bits / 8), channels, bits, rate, frames, f);
    SinkLayoutReadsBack(scalar);
  }
}
