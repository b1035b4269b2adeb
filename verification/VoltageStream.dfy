/**
 * The bytes a digitizer sends and the samples the kernels read back: two-bit codes
 * laid out one after another, sample by sample, channel by channel, in-phase before
 * quadrature, four to a byte from its low bits (data array format of the VDIF
 * Specification, Release 1.1.1), against the decoders of PackedDecode.
 */
module VoltageStream {
  import opened Arithmetic
  import opened PackedDecode

  /** The code of a component: sample number, channel, 0 for in-phase and 1 for quadrature. */
  type Codes = (nat, nat, nat) -> nat

  /** Offset binary: codes 2 and 3 are positive, 0 and 3 are the large magnitude. */
  function Voltage(code: nat): real {
    var magnitude := if code == 0 || code == 3 then 3.3359 else 1.0;
    if code < 2 then -magnitude else magnitude
  }

  function Parts(complexInput: bool): nat {
    if complexInput then 2 else 1
  }

  // ----- writing -----

  /** The codes of one sample, its first n channels. */
  function SampleCodes(codes: Codes, complexInput: bool, sample: nat, n: nat): seq<nat> {
    if n == 0 then []
    else
      SampleCodes(codes, complexInput, sample, n - 1)
      + if complexInput then [codes(sample, n - 1, 0), codes(sample, n - 1, 1)] else [codes(sample, n - 1, 0)]
  }

  /** The codes of samples [first, first + n). */
  function FrameCodes(codes: Codes, complexInput: bool, channels: nat, first: nat, n: nat): seq<nat> {
    if n == 0 then []
    else
      FrameCodes(codes, complexInput, channels, first, n - 1) + SampleCodes(codes, complexInput, first + n - 1, channels)
  }

  /** Four codes to a byte, the first in the low bits. */
  function Bytes(elements: seq<nat>): seq<int> {
    if |elements| < 4 then []
    else [elements[0] + 4 * elements[1] + 16 * elements[2] + 64 * elements[3]] + Bytes(elements[4..])
  }

  /** The payloads of n frames, one after another. */
  function Stream(codes: Codes, g: Geometry, n: nat): seq<int>
    requires g.samplesPerFrame >= 0 && g.channelCount >= 0
  {
    if n == 0 then []
    else
      Stream(codes, g, n - 1)
      + Bytes(FrameCodes(codes, g.complexInput, g.channelCount, (n - 1) * g.samplesPerFrame, g.samplesPerFrame))
  }

  predicate InTwoBits(codes: Codes, sample: nat, channel: nat, part: nat) {
    codes(sample, channel, part) < 4
  }

  ghost predicate TwoBits(codes: Codes) {
    forall sample, channel, part :: InTwoBits(codes, sample, channel, part)
  }

  // ----- where things are -----

  lemma {:induction false} SampleCodesAt(codes: Codes, complexInput: bool, sample: nat, n: nat, channel: nat, part: nat)
    requires channel < n && part < Parts(complexInput)
    ensures |SampleCodes(codes, complexInput, sample, n)| == n * Parts(complexInput)
    ensures channel * Parts(complexInput) + part < n * Parts(complexInput)
    ensures SampleCodes(codes, complexInput, sample, n)[channel * Parts(complexInput) + part] == codes(sample, channel, part)
  {
    SampleCodesLength(codes, complexInput, sample, n);
    SampleCodesLength(codes, complexInput, sample, n - 1);
    if channel < n - 1 {
      SampleCodesAt(codes, complexInput, sample, n - 1, channel, part);
    }
  }

  lemma {:induction false} SampleCodesLength(codes: Codes, complexInput: bool, sample: nat, n: nat)
    ensures |SampleCodes(codes, complexInput, sample, n)| == n * Parts(complexInput)
  {
    if n > 0 {
      SampleCodesLength(codes, complexInput, sample, n - 1);
    }
  }

  lemma {:induction false} FrameCodesLength(codes: Codes, complexInput: bool, channels: nat, first: nat, n: nat)
    ensures |FrameCodes(codes, complexInput, channels, first, n)| == n * (channels * Parts(complexInput))
  {
    if n > 0 {
      FrameCodesLength(codes, complexInput, channels, first, n - 1);
      SampleCodesLength(codes, complexInput, first + n - 1, channels);
      MulOne(channels * Parts(complexInput), n);
    } else {
      assert 0 * (channels * Parts(complexInput)) == 0;
    }
  }

  lemma MulOne(d: int, n: int)
    ensures n * d == (n - 1) * d + d
  {
  }

  /** Component `part` of a channel of sample first + w stands at (w * channels + channel) * components + part. */
  lemma {:induction false} FrameCodesAt(codes: Codes, complexInput: bool, channels: nat, first: nat, n: nat,
                                        w: nat, channel: nat, part: nat)
    requires w < n && channel < channels && part < Parts(complexInput)
    ensures var at := w * (channels * Parts(complexInput)) + (channel * Parts(complexInput) + part);
            && 0 <= at < |FrameCodes(codes, complexInput, channels, first, n)|
            && FrameCodes(codes, complexInput, channels, first, n)[at] == codes(first + w, channel, part)
  {
    var width := channels * Parts(complexInput);
    FrameCodesLength(codes, complexInput, channels, first, n);
    FrameCodesLength(codes, complexInput, channels, first, n - 1);
    SampleCodesAt(codes, complexInput, first + n - 1, channels, channel, part);
    MulOne(width, n);
    if w < n - 1 {
      FrameCodesAt(codes, complexInput, channels, first, n - 1, w, channel, part);
    } else {
      MulMonotone(width, 0, w);
    }
  }

  lemma {:induction false} BytesAt(elements: seq<nat>, b: nat)
    requires 4 * b + 3 < |elements|
    ensures b < |Bytes(elements)|
    ensures Bytes(elements)[b]
            == elements[4 * b] + 4 * elements[4 * b + 1] + 16 * elements[4 * b + 2] + 64 * elements[4 * b + 3]
  {
    if b > 0 {
      BytesAt(elements[4..], b - 1);
    }
  }

  lemma {:induction false} BytesLength(elements: seq<nat>)
    requires |elements| % 4 == 0
    ensures 4 * |Bytes(elements)| == |elements|
  {
    if elements != [] {
      BytesLength(elements[4..]);
    }
  }

  lemma FrameBytesLength(codes: Codes, g: Geometry, first: nat)
    requires ValidGeometry(g)
    ensures |FrameCodes(codes, g.complexInput, g.channelCount, first, g.samplesPerFrame)| == 4 * g.payloadBytes
    ensures |Bytes(FrameCodes(codes, g.complexInput, g.channelCount, first, g.samplesPerFrame))| == g.payloadBytes
  {
    var elements := FrameCodes(codes, g.complexInput, g.channelCount, first, g.samplesPerFrame);
    FrameCodesLength(codes, g.complexInput, g.channelCount, first, g.samplesPerFrame);
    Regroup(g.samplesPerFrame, g.channelCount, Parts(g.complexInput));
    BytesLength(elements);
  }

  /** The host accepts a geometry exactly when 32-bit positive counts fill each payload with whole samples. */
  lemma GeometryExactly(codes: Codes, g: Geometry, first: nat)
    ensures ValidGeometry(g) <==>
      && 0 < g.samplesPerFrame < 0x8000_0000 && 0 < g.payloadBytes < 0x8000_0000 && 0 < g.channelCount < 0x8000_0000
      && |FrameCodes(codes, g.complexInput, g.channelCount, first, g.samplesPerFrame)| == 4 * g.payloadBytes
  {
    if g.samplesPerFrame > 0 && g.channelCount > 0 {
      FrameCodesLength(codes, g.complexInput, g.channelCount, first, g.samplesPerFrame);
      Regroup(g.samplesPerFrame, g.channelCount, Parts(g.complexInput));
      hide FrameCodes;
    }
  }

  lemma Regroup(a: int, b: int, c: int)
    ensures a * (b * c) == a * b * c
  {
  }

  lemma {:induction false} StreamLength(codes: Codes, g: Geometry, n: nat)
    requires ValidGeometry(g)
    ensures |Stream(codes, g, n)| == n * g.payloadBytes
  {
    if n > 0 {
      StreamLength(codes, g, n - 1);
      FrameBytesLength(codes, g, (n - 1) * g.samplesPerFrame);
      MulOne(g.payloadBytes, n);
    }
  }

  lemma {:induction false} StreamAt(codes: Codes, g: Geometry, n: nat, frame: nat, b: nat)
    requires ValidGeometry(g) && frame < n && b < g.payloadBytes
    ensures 0 <= frame * g.payloadBytes + b < |Stream(codes, g, n)|
    ensures var elements := FrameCodes(codes, g.complexInput, g.channelCount, frame * g.samplesPerFrame, g.samplesPerFrame);
            4 * b + 3 < |elements|
            && Stream(codes, g, n)[frame * g.payloadBytes + b]
               == elements[4 * b] + 4 * elements[4 * b + 1] + 16 * elements[4 * b + 2] + 64 * elements[4 * b + 3]
  {
    hide FrameCodes, Bytes;
    StreamLength(codes, g, n);
    StreamLength(codes, g, n - 1);
    MulStep(g.payloadBytes, frame, n);
    MulMonotone(g.payloadBytes, 0, frame);
    FrameBytesLength(codes, g, frame * g.samplesPerFrame);
    FrameBytesLength(codes, g, (n - 1) * g.samplesPerFrame);
    if frame < n - 1 {
      StreamAt(codes, g, n - 1, frame, b);
    } else {
      BytesAt(FrameCodes(codes, g.complexInput, g.channelCount, frame * g.samplesPerFrame, g.samplesPerFrame), b);
    }
  }

  // ----- reading back -----

  /** The payload buffer holds n frames of the stream. */
  ghost predicate Holds(payloads: seq<Byte>, codes: Codes, g: Geometry, n: nat)
    requires g.samplesPerFrame >= 0 && g.channelCount >= 0
  {
    TwoBits(codes) && payloads == Stream(codes, g, n)
  }

  /** Such buffers exist: every byte of a stream of two-bit codes is one. */
  lemma {:induction false} StreamIsBytes(codes: Codes, g: Geometry, n: nat) returns (payloads: seq<Byte>)
    requires ValidGeometry(g) && TwoBits(codes)
    ensures Holds(payloads, codes, g, n)
  {
    if n == 0 {
      payloads := [];
    } else {
      var before := StreamIsBytes(codes, g, n - 1);
      var first := (n - 1) * g.samplesPerFrame;
      var elements := FrameCodes(codes, g.complexInput, g.channelCount, first, g.samplesPerFrame);
      FrameCodesSmall(codes, g.complexInput, g.channelCount, first, g.samplesPerFrame);
      var frame := BytesSmall(elements);
      payloads := before + frame;
    }
  }

  lemma {:induction false} BytesSmall(elements: seq<nat>) returns (bytes: seq<Byte>)
    requires forall i :: 0 <= i < |elements| ==> elements[i] < 4
    ensures bytes == Bytes(elements)
  {
    if |elements| < 4 {
      bytes := [];
    } else {
      var rest := BytesSmall(elements[4..]);
      bytes := [PackByte(elements[0], elements[1], elements[2], elements[3])] + rest;
    }
  }

  lemma {:induction false} SampleCodesSmall(codes: Codes, complexInput: bool, sample: nat, n: nat)
    requires TwoBits(codes)
    ensures forall i :: 0 <= i < |SampleCodes(codes, complexInput, sample, n)| ==> SampleCodes(codes, complexInput, sample, n)[i] < 4
  {
    if n > 0 {
      SampleCodesSmall(codes, complexInput, sample, n - 1);
      assert InTwoBits(codes, sample, n - 1, 0) && InTwoBits(codes, sample, n - 1, 1);
    }
  }

  lemma {:induction false} FrameCodesSmall(codes: Codes, complexInput: bool, channels: nat, first: nat, n: nat)
    requires TwoBits(codes)
    ensures forall i :: 0 <= i < |FrameCodes(codes, complexInput, channels, first, n)| ==>
      FrameCodes(codes, complexInput, channels, first, n)[i] < 4
  {
    hide TwoBits;
    if n > 0 {
      FrameCodesSmall(codes, complexInput, channels, first, n - 1);
      SampleCodesSmall(codes, complexInput, first + n - 1, channels);
    }
  }

  /** The byte an element is in. */
  lemma ElementByte(codes: Codes, g: Geometry, payloads: seq<Byte>, n: nat, frame: nat, at: nat)
    requires ValidGeometry(g) && Holds(payloads, codes, g, n) && frame < n && at < 4 * g.payloadBytes
    ensures 0 <= frame * g.payloadBytes + at / 4 < |payloads|
    ensures var elements := FrameCodes(codes, g.complexInput, g.channelCount, frame * g.samplesPerFrame, g.samplesPerFrame);
            at < |elements| && Code(payloads[frame * g.payloadBytes + at / 4], at) == elements[at]
  {
    var elements := FrameCodes(codes, g.complexInput, g.channelCount, frame * g.samplesPerFrame, g.samplesPerFrame);
    var b := at / 4;
    StreamAt(codes, g, n, frame, b);
    FrameCodesSmall(codes, g.complexInput, g.channelCount, frame * g.samplesPerFrame, g.samplesPerFrame);
    hide Code, FrameCodes, Stream, TwoBits, ValidGeometry;
    CodeOfByte(elements, b, at % 4, at);
  }

  lemma CodeOfByte(elements: seq<nat>, b: nat, k: nat, at: nat)
    requires k < 4 && at % 4 == k && at == 4 * b + k && 4 * b + 3 < |elements|
    requires forall i :: 0 <= i < |elements| ==> elements[i] < 4
    ensures var value := elements[4 * b] + 4 * elements[4 * b + 1] + 16 * elements[4 * b + 2] + 64 * elements[4 * b + 3];
            0 <= value < 256 && Code(value, at) == elements[at]
  {
    hide Code;
    CodeOfPackedByte(elements[4 * b], elements[4 * b + 1], elements[4 * b + 2], elements[4 * b + 3], at);
  }

  /** The decoder's code of an element is the one the digitizer wrote. */
  lemma ElementIsWritten(codes: Codes, g: Geometry, payloads: seq<Byte>, n: nat, channel: nat, index: nat, part: nat)
    requires ValidSource(g, payloads, n * g.samplesPerFrame, channel) && Holds(payloads, codes, g, n)
    requires index < n * g.samplesPerFrame && part < Parts(g.complexInput)
    ensures ElementCode(g, payloads, n * g.samplesPerFrame, channel, index, part) == codes(index, channel, part) < 4
  {
    var frame, within := index / g.samplesPerFrame, index % g.samplesPerFrame;
    RowColumn(index, g.samplesPerFrame, n);
    var at := ComponentOf(g, within, channel, part);
    ComponentInPayload(g, within, channel, part);
    ElementByte(codes, g, payloads, n, frame, at);
    FrameCodesAt(codes, g.complexInput, g.channelCount, frame * g.samplesPerFrame, g.samplesPerFrame, within, channel, part);
    SamePlace(within, g.channelCount, channel, Parts(g.complexInput), part);
    assert InTwoBits(codes, index, channel, part);
    hide Code, FrameCodes, Stream, TwoBits, ValidGeometry;
  }

  lemma SamePlace(w: nat, channels: nat, channel: nat, parts: nat, part: nat)
    ensures (w * channels + channel) * parts + part == w * (channels * parts) + (channel * parts + part)
  {
    Regroup(w, channels, parts);
    assert (w * channels + channel) * parts == w * channels * parts + channel * parts;
  }

  /** Decoding gives back the voltage of every sample of every channel. */
  lemma DecodesStream(codes: Codes, g: Geometry, payloads: seq<Byte>, n: nat, channel: nat, index: nat)
    requires ValidSource(g, payloads, n * g.samplesPerFrame, channel) && Holds(payloads, codes, g, n)
    requires index < n * g.samplesPerFrame
    ensures DecodedSample(g, payloads, n * g.samplesPerFrame, channel, index)
            == Complex(Voltage(codes(index, channel, 0)), if g.complexInput then Voltage(codes(index, channel, 1)) else 0.0)
  {
    ElementIsWritten(codes, g, payloads, n, channel, index, 0);
    if g.complexInput {
      ElementIsWritten(codes, g, payloads, n, channel, index, 1);
    }
    hide ElementCode, Holds, ValidSource;
  }

  /** And so does the fused loader, at the frame and position of the sample. */
  lemma FusedReadsStream(codes: Codes, g: Geometry, payloads: seq<Byte>, n: nat, channel: nat, frame: nat, within: nat)
    requires ValidSource(g, payloads, n * g.samplesPerFrame, channel) && Holds(payloads, codes, g, n)
    requires frame < n && within < g.samplesPerFrame
    ensures forall part :: 0 <= part < Components(g) ==>
      frame * g.payloadBytes + ComponentOf(g, within, channel, part) / 4 < |payloads|
    ensures var index := frame * g.samplesPerFrame + within;
            && index >= 0
            && LoadPacked(g, payloads, frame, within, channel)
               == Complex(Voltage(codes(index, channel, 0)), if g.complexInput then Voltage(codes(index, channel, 1)) else 0.0)
  {
    var index := frame * g.samplesPerFrame + within;
    MulStep(g.samplesPerFrame, frame, n);
    MulMonotone(g.samplesPerFrame, 0, frame);
    DivUnique(index, g.samplesPerFrame, frame, within);
    FusedLoad(g, payloads, n * g.samplesPerFrame, channel, index, frame, within);
    hide LoadPacked, DecodedSample, Holds, ValidSource, ComponentOf;
    DecodesStream(codes, g, payloads, n, channel, index);
  }
}
