/**
 * Two-bit voltage samples inside VDIF payloads: the bulk decoders of
 * src/cuphoton/xbeam/cuda_ingest.py, load_sample of
 * src/cuphoton/xbeam/cuda_front.py and the geometry checks of
 * src/cuphoton/xbeam/gpu_kernels.py. Elements fill a byte from its low bits
 * (data array format of the VDIF Specification, Release 1.1.1).
 */
module PackedDecode {
  import opened Arithmetic
  import opened Threads

  type Byte = b: int | 0 <= b < 256

  datatype Complex = Complex(x: real, y: real)

  const INT32_MAX: int := 0x7FFF_FFFF

  datatype Geometry = Geometry(samplesPerFrame: int, payloadBytes: int, channelCount: int, complexInput: bool)

  function Components(g: Geometry): nat {
    if g.complexInput then 2 else 1
  }

  /** _validate_packed_geometry accepts. */
  predicate ValidGeometry(g: Geometry) {
    && 0 < g.samplesPerFrame <= INT32_MAX && 0 < g.payloadBytes <= INT32_MAX && 0 < g.channelCount <= INT32_MAX
    && g.payloadBytes * 4 == g.samplesPerFrame * g.channelCount * Components(g)
  }

  /** The host's checks before a packed launch. */
  predicate ValidSource(g: Geometry, payloads: seq<Byte>, sampleCount: int, channel: int) {
    && ValidGeometry(g) && 0 <= channel < g.channelCount && 0 < sampleCount
    && sampleCount % g.samplesPerFrame == 0
    && |payloads| == sampleCount / g.samplesPerFrame * g.payloadBytes
  }

  // ----- one element -----

  /** 1 << ((component & 3) * 2). */
  function Weight(component: nat): (w: nat)
    ensures w > 0
  {
    var k := component % 4;
    if k == 0 then 1 else if k == 1 then 4 else if k == 2 then 16 else 64
  }

  /** (packed >> ((component & 3) * 2)) & 3. */
  function Code(packed: Byte, component: nat): (c: nat)
    ensures c < 4
  {
    packed / Weight(component) % 4
  }

  /** The table of the bulk decoders. */
  const LEVELS: seq<real> := [-3.3359, -1.0, 1.0, 3.3359]

  /** decode_2bit_level. */
  function Level(code: nat): real {
    if code == 0 then -3.3359 else if code == 1 then -1.0 else if code == 2 then 1.0 else 3.3359
  }

  /** Four codes in one byte, the first in the low bits. */
  function PackByte(a: nat, b: nat, c: nat, d: nat): Byte
    requires a < 4 && b < 4 && c < 4 && d < 4
  {
    a + 4 * b + 16 * c + 64 * d
  }

  lemma CodeOfPackedByte(a: nat, b: nat, c: nat, d: nat, component: nat)
    requires a < 4 && b < 4 && c < 4 && d < 4
    ensures Code(PackByte(a, b, c, d), component)
            == var k := component % 4; if k == 0 then a else if k == 1 then b else if k == 2 then c else d
  {
    var packed := PackByte(a, b, c, d);
    match component % 4
    case 0 => DivUnique(packed, 4, b + 4 * c + 16 * d, a);
    case 1 =>
      DivUnique(packed, 4, b + 4 * c + 16 * d, a);
      DivUnique(b + 4 * c + 16 * d, 4, c + 4 * d, b);
    case 2 =>
      DivUnique(packed, 16, c + 4 * d, a + 4 * b);
      DivUnique(c + 4 * d, 4, d, c);
    case _ =>
      DivUnique(packed, 64, d, a + 4 * b + 16 * c);
      DivUnique(d, 4, 0, d);
  }

  // ----- where an element is -----

  /** Component of sample `within` of a frame: `part` is 0 for I, 1 for Q. */
  function ComponentOf(g: Geometry, within: nat, channel: nat, part: nat): nat
    requires g.channelCount >= 0
  {
    (within * g.channelCount + channel) * Components(g) + part
  }

  lemma ComponentInPayload(g: Geometry, within: nat, channel: nat, part: nat)
    requires ValidGeometry(g) && within < g.samplesPerFrame && channel < g.channelCount && part < Components(g)
    ensures ComponentOf(g, within, channel, part) / 4 < g.payloadBytes
    ensures ComponentOf(g, within, channel, part) < 4 * g.payloadBytes
  {
    var element := within * g.channelCount + channel;
    MulStep(g.channelCount, within, g.samplesPerFrame);
    assert element < g.samplesPerFrame * g.channelCount;
    MulStep(Components(g), element, g.samplesPerFrame * g.channelCount);
  }

  /** Every element of a checked source lies inside the payload buffer. */
  lemma ElementInBuffer(g: Geometry, payloads: seq<Byte>, sampleCount: int, channel: nat, index: int, part: nat)
    requires ValidSource(g, payloads, sampleCount, channel) && 0 <= index < sampleCount && part < Components(g)
    ensures 0 <= index / g.samplesPerFrame < sampleCount / g.samplesPerFrame
    ensures index % g.samplesPerFrame < g.samplesPerFrame
    ensures var at := index / g.samplesPerFrame * g.payloadBytes
                      + ComponentOf(g, index % g.samplesPerFrame, channel, part) / 4;
            0 <= at < |payloads|
  {
    var frame, frames := index / g.samplesPerFrame, sampleCount / g.samplesPerFrame;
    ComponentInPayload(g, index % g.samplesPerFrame, channel, part);
    FrameBelow(index, sampleCount, g.samplesPerFrame);
    MulStep(g.payloadBytes, frame, frames);
    MulMonotone(g.payloadBytes, 0, frame);
  }

  lemma FrameBelow(index: int, count: int, spf: int)
    requires spf > 0 && 0 <= index < count && count % spf == 0
    ensures 0 <= index / spf < count / spf
  {
    assert count == spf * (count / spf);
    if index / spf >= count / spf {
      MulMonotone(spf, count / spf, index / spf);
    }
    DivMonotone(0, index, spf);
  }

  // ----- the bulk decoders -----

  /** The code of one element, at frame sample / samples_per_frame. */
  function ElementCode(g: Geometry, payloads: seq<Byte>, sampleCount: int, channel: nat, index: int, part: nat): nat
    requires ValidSource(g, payloads, sampleCount, channel) && 0 <= index < sampleCount && part < Components(g)
  {
    ElementInBuffer(g, payloads, sampleCount, channel, index, part);
    var component := ComponentOf(g, index % g.samplesPerFrame, channel, part);
    Code(payloads[index / g.samplesPerFrame * g.payloadBytes + component / 4], component)
  }

  /** What the bulk decoder of the input kind writes for one sample. */
  function DecodedSample(g: Geometry, payloads: seq<Byte>, sampleCount: int, channel: nat, index: int): Complex
    requires ValidSource(g, payloads, sampleCount, channel) && 0 <= index < sampleCount
  {
    Complex(LEVELS[ElementCode(g, payloads, sampleCount, channel, index, 0) % 4],
            if g.complexInput then LEVELS[ElementCode(g, payloads, sampleCount, channel, index, 1) % 4] else 0.0)
  }

  /** decode_real_band and decode_complex_band: one thread a sample, in any order. */
  method DecodeBand(g: Geometry, payloads: seq<Byte>, sampleCount: int, channel: nat, output: array<Complex>)
    requires ValidSource(g, payloads, sampleCount, channel) && output.Length == sampleCount
    modifies output
    ensures forall s :: 0 <= s < sampleCount ==> output[s] == DecodedSample(g, payloads, sampleCount, channel, s)
  {
    var blocks := (sampleCount + 255) / 256;
    var pending := AllThreads(blocks * 256);
    while pending != {}
      invariant forall s :: s in pending ==> 0 <= s
      invariant forall s :: 0 <= s < sampleCount && s !in pending ==>
        output[s] == DecodedSample(g, payloads, sampleCount, channel, s)
      decreases pending
    {
      hide DecodedSample;
      var sample: int :| sample in pending;
      if sample < sampleCount {
        output[sample] := DecodeOne(g, payloads, sampleCount, channel, sample);
      }
      pending := pending - {sample};
    }
  }

  method DecodeOne(g: Geometry, payloads: seq<Byte>, sampleCount: int, channel: nat, sample: int) returns (value: Complex)
    requires ValidSource(g, payloads, sampleCount, channel) && 0 <= sample < sampleCount
    ensures value == DecodedSample(g, payloads, sampleCount, channel, sample)
  {
    hide Code;
    var frame := sample / g.samplesPerFrame;
    var withinFrame := sample - frame * g.samplesPerFrame;
    RemainderOf(sample, g.samplesPerFrame);
    ElementInBuffer(g, payloads, sampleCount, channel, sample, 0);
    if g.complexInput {
      ElementInBuffer(g, payloads, sampleCount, channel, sample, 1);
      var first := (withinFrame * g.channelCount + channel) * 2;
      var packedI := payloads[frame * g.payloadBytes + first / 4];
      var packedQ := payloads[frame * g.payloadBytes + (first + 1) / 4];
      value := Complex(LEVELS[Code(packedI, first)], LEVELS[Code(packedQ, first + 1)]);
    } else {
      var component := withinFrame * g.channelCount + channel;
      value := Complex(LEVELS[Code(payloads[frame * g.payloadBytes + component / 4], component)], 0.0);
    }
  }

  lemma RemainderOf(n: int, d: int)
    requires d > 0
    ensures n - n / d * d == n % d
  {
  }

  // ----- the fused loader -----

  /** load_sample of packed input at a given frame and position in it. */
  function LoadPacked(g: Geometry, payloads: seq<Byte>, frame: nat, within: nat, channel: nat): Complex
    requires g.channelCount >= 0 && g.payloadBytes >= 0
    requires forall part :: 0 <= part < Components(g) ==>
      frame * g.payloadBytes + ComponentOf(g, within, channel, part) / 4 < |payloads|
  {
    if g.complexInput then
      var first := (within * g.channelCount + channel) * 2;
      assert first == ComponentOf(g, within, channel, 0) && first + 1 == ComponentOf(g, within, channel, 1);
      Complex(Level(Code(payloads[frame * g.payloadBytes + first / 4], first)),
              Level(Code(payloads[frame * g.payloadBytes + (first + 1) / 4], first + 1)))
    else
      var component := within * g.channelCount + channel;
      assert component == ComponentOf(g, within, channel, 0);
      Complex(Level(Code(payloads[frame * g.payloadBytes + component / 4], component)), 0.0)
  }

  /** At the right position the fused loader stays in the buffer and reads what the bulk decoder writes. */
  lemma FusedLoad(g: Geometry, payloads: seq<Byte>, sampleCount: int, channel: nat, index: int, frame: nat, within: nat)
    requires ValidSource(g, payloads, sampleCount, channel) && 0 <= index < sampleCount
    requires frame == index / g.samplesPerFrame && within == index % g.samplesPerFrame
    ensures forall part :: 0 <= part < Components(g) ==>
      frame * g.payloadBytes + ComponentOf(g, within, channel, part) / 4 < |payloads|
    ensures LoadPacked(g, payloads, frame, within, channel) == DecodedSample(g, payloads, sampleCount, channel, index)
  {
    forall part | 0 <= part < Components(g)
      ensures frame * g.payloadBytes + ComponentOf(g, within, channel, part) / 4 < |payloads|
    {
      ElementInBuffer(g, payloads, sampleCount, channel, index, part);
    }
  }

  // ----- packing and decoding -----

  /** Payload bytes whose elements are given by `code(frame, component)`. */
  function Pack(g: Geometry, frames: nat, code: (nat, nat) -> nat): (payloads: seq<Byte>)
    requires g.payloadBytes > 0
    ensures |payloads| == frames * g.payloadBytes
  {
    seq(frames * g.payloadBytes, at requires 0 <= at < frames * g.payloadBytes =>
      PackedByte(at / g.payloadBytes, at % g.payloadBytes, code))
  }

  function PackedByte(frame: nat, byte: nat, code: (nat, nat) -> nat): Byte {
    PackByte(code(frame, 4 * byte) % 4, code(frame, 4 * byte + 1) % 4,
             code(frame, 4 * byte + 2) % 4, code(frame, 4 * byte + 3) % 4)
  }

  lemma CodeOfComponent(frame: nat, component: nat, code: (nat, nat) -> nat)
    ensures Code(PackedByte(frame, component / 4, code), component) == code(frame, component) % 4
  {
    var byte := component / 4;
    assert component == 4 * byte + component % 4;
    CodeOfPackedByte(code(frame, 4 * byte) % 4, code(frame, 4 * byte + 1) % 4,
                     code(frame, 4 * byte + 2) % 4, code(frame, 4 * byte + 3) % 4, component);
  }

  lemma PackedIsValid(g: Geometry, frames: nat, code: (nat, nat) -> nat, channel: nat)
    requires ValidGeometry(g) && channel < g.channelCount && frames > 0
    ensures ValidSource(g, Pack(g, frames, code), frames * g.samplesPerFrame, channel)
  {
    DivExact(frames, g.samplesPerFrame);
    MulStep(g.samplesPerFrame, 0, frames);
  }

  lemma PackedAt(g: Geometry, frames: nat, code: (nat, nat) -> nat, frame: nat, byte: nat)
    requires g.payloadBytes > 0 && frame < frames && byte < g.payloadBytes
    ensures 0 <= frame * g.payloadBytes + byte < |Pack(g, frames, code)|
    ensures Pack(g, frames, code)[frame * g.payloadBytes + byte] == PackedByte(frame, byte, code)
  {
    MulStep(g.payloadBytes, frame, frames);
    MulMonotone(g.payloadBytes, 0, frame);
    DivUnique(frame * g.payloadBytes + byte, g.payloadBytes, frame, byte);
  }

  /** Decoding packed payloads gives back every element of every channel. */
  lemma DecodePacked(g: Geometry, frames: nat, code: (nat, nat) -> nat, channel: nat, frame: nat, within: nat, part: nat)
    requires ValidGeometry(g) && channel < g.channelCount && part < Components(g)
    requires frame < frames && within < g.samplesPerFrame
    requires ValidSource(g, Pack(g, frames, code), frames * g.samplesPerFrame, channel)
    ensures 0 <= frame * g.samplesPerFrame + within < frames * g.samplesPerFrame
    ensures ElementCode(g, Pack(g, frames, code), frames * g.samplesPerFrame, channel, frame * g.samplesPerFrame + within, part)
            == code(frame, ComponentOf(g, within, channel, part)) % 4
  {
    hide Pack, Code;
    var index := frame * g.samplesPerFrame + within;
    MulStep(g.samplesPerFrame, frame, frames);
    MulMonotone(g.samplesPerFrame, 0, frame);
    DivUnique(index, g.samplesPerFrame, frame, within);
    var component := ComponentOf(g, within, channel, part);
    ComponentInPayload(g, within, channel, part);
    PackedAt(g, frames, code, frame, component / 4);
    CodeOfComponent(frame, component, code);
  }
}
