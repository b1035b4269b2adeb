/**
 * What the front-end kernel (src/cuphoton/xbeam/cuda_front.py) does to the received
 * stream: sample i of a row is the stream sample the coarse delay points at, turned by
 * the phase that is due then, and zero where the buffer, the valid range or the frame
 * validity does not give one.
 */
module FrontStream {
  import opened FrontKernel
  import opened FrontPhase
  import opened PackedDecode
  import opened VoltageStream

  /** Entry k of the buffer is stream sample sourceStart + k, decoded or as packed bytes. */
  ghost predicate Carries(l: Launch, stream: int -> Complex, codes: Codes)
    requires Checked(l)
  {
    match l.source
    case Decoded(samples) => forall k :: 0 <= k < |samples| ==> samples[k] == stream(l.sourceStart + k)
    case Packed(g, payloads, channel) =>
      && Holds(payloads, codes, g, l.size / g.samplesPerFrame)
      && forall k: nat :: k < l.size ==>
           stream(l.sourceStart + k)
           == Complex(Voltage(codes(k, channel, 0)), if g.complexInput then Voltage(codes(k, channel, 1)) else 0.0)
  }

  /** The stream sample row sample i is taken from: the coarse delay earlier, and moved by the offset from the cutover on. */
  function Wanted(l: Launch, i: int): int {
    var early := l.parameters.outputIndex - l.parameters.coarseSample + i;
    if i < l.parameters.sourceCutover then early else early + l.parameters.sourceOffset
  }

  /** It is in the buffer, the row is valid there, and so is its frame unless validity is authoritative. */
  predicate Usable(l: Launch, i: int)
    requires Checked(l)
  {
    var k := Wanted(l, i) - l.sourceStart;
    && 0 <= k < l.size && l.parameters.validStart <= i < l.parameters.validStop
    && (l.authoritative
        || (ValidityInBuffer(l, k);
            l.validity[k / (if l.source.Packed? then l.source.geometry.samplesPerFrame else l.validityStride)] != 0))
  }

  /** The phase due at row sample i: the oscillators' at its time, less the fringe of the delay there. */
  function Phase(l: Launch, i: int): real {
    var p, u, x := l.parameters, l.tuning, i as real;
    var time := p.blockStart + x * u.inverseRate;
    var delay := p.delayZero + p.delayStep * x + p.delayQuadratic * x * x;
    u.wallLoCycles + u.loOffset * time - u.fringeReference * delay
  }

  lemma UsableIsValid(l: Launch, i: int)
    requires Checked(l)
    ensures SourceIndex(l, i) == Wanted(l, i) - l.sourceStart
    ensures Usable(l, i) <==> SampleValid(l, i)
  {
  }

  lemma BufferSample(l: Launch, stream: int -> Complex, codes: Codes, k: nat)
    requires Checked(l) && Carries(l, stream, codes) && k < l.size
    ensures SourceSample(l, k) == stream(l.sourceStart + k)
  {
    match l.source {
      case Decoded(samples) =>
      case Packed(g, payloads, channel) =>
        var n := l.size / g.samplesPerFrame;
        WholeFrames(l.size, g.samplesPerFrame);
        hide Holds, DecodedSample, ValidSource;
        DecodesStream(codes, g, payloads, n, channel, k);
    }
  }

  lemma WholeFrames(size: int, spf: int)
    requires spf > 0 && size > 0 && size % spf == 0
    ensures size / spf * spf == size && size / spf >= 0
  {
  }

  /** Turning a value by an angle is multiplying by its cosine and sine. */
  lemma Turned(v: Complex, c: real, s: real)
    ensures Rotate(v, c, s).x == v.x * c - v.y * s && Rotate(v, c, s).y == v.x * s + v.y * c
    ensures Rotate(Complex(1.0, 0.0), c, s) == Complex(c, s)
    ensures Rotate(Complex(0.0, 0.0), c, s) == Complex(0.0, 0.0)
  {
  }

  /** Turning twice is turning by both angles. */
  lemma TurnsAdd(c: real -> real, s: real -> real, v: Complex, x: real, y: real)
    requires Circle(c, s)
    ensures Rotate(Rotate(v, c(x), s(x)), c(y), s(y)) == Rotate(v, c(x + y), s(x + y))
  {
    assert Adds(c, s, x, y);
    Expand(v.x, v.y, c(x), s(x), c(y), s(y));
  }

  lemma Expand(a: real, b: real, c: real, s: real, d: real, t: real)
    ensures (a * c - b * s) * d - (a * s + b * c) * t == a * (c * d - s * t) - b * (s * d + c * t)
    ensures (a * c - b * s) * t + (a * s + b * c) * d == a * (s * d + c * t) + b * (c * d - s * t)
  {
  }

  /** Every sample of the row, from the stream. */
  lemma RowIsDelayedStream(l: Launch, stream: int -> Complex, codes: Codes, i: int)
    requires Checked(l) && Carries(l, stream, codes)
    ensures Direct(l, i)
            == if Usable(l, i) then
                 var v, c, s := stream(Wanted(l, i)), l.cosine(Phase(l, i)), l.sine(Phase(l, i));
                 Complex(v.x * c - v.y * s, v.x * s + v.y * c)
               else Complex(0.0, 0.0)
  {
    UsableIsValid(l, i);
    var cycles := Cycles(l.parameters, l.tuning, i as real);
    assert cycles == Phase(l, i);
    Turned(Value(l, i), l.cosine(cycles), l.sine(cycles));
    hide Usable, SampleValid, SourceSample, Rotate, Phase, Wanted, SourceIndex;
    if SampleValid(l, i) {
      ValidInBuffer(l, i);
      BufferSample(l, stream, codes, SourceIndex(l, i));
    }
    hide Checked, Carries;
  }

  lemma ValidInBuffer(l: Launch, i: int)
    requires Checked(l) && SampleValid(l, i)
    ensures 0 <= SourceIndex(l, i) < l.size
  {
  }

  /** The weight of a row counts its usable samples. */
  lemma {:induction false} WeightCountsUsable(l: Launch, n: nat)
    requires Checked(l)
    ensures ValidCount(l, 0, n) == |set i | 0 <= i < n && Usable(l, i)|
  {
    hide Usable, SampleValid, Checked;
    var before, all := set i | 0 <= i < n - 1 && Usable(l, i), set i | 0 <= i < n && Usable(l, i);
    if n == 0 {
      assert all == {};
    } else {
      WeightCountsUsable(l, n - 1);
      CountStep(l, 0, n);
      UsableIsValid(l, n - 1);
      assert all == before + if Usable(l, n - 1) then {n - 1} else {};
      hide ValidCount;
    }
  }
}
