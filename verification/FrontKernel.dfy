/**
 * The front-end kernel (front_impl and finish_front_weights of
 * src/cuphoton/xbeam/cuda_front.py) with exact arithmetic: whole rows and chunks
 * of rows, packed and decoded input, against one direct definition of the
 * rotated row and its valid-sample count.
 */
module FrontKernel {
  import opened Arithmetic
  import opened FrontPhase
  import opened PackedDecode
  import opened Strides
  import opened Threads

  datatype BlockParameters = BlockParameters(
    outputIndex: int, coarseSample: int, blockStart: real, delayZero: real, delayStep: real, delayQuadratic: real,
    sourceOffset: int, sourceCutover: int, validStart: int, validStop: int)

  datatype Tuning = Tuning(inverseRate: real, fringeReference: real, loOffset: real, wallLoCycles: real)

  datatype Source = Packed(geometry: Geometry, payloads: seq<Byte>, channel: nat) | Decoded(samples: seq<Complex>)

  /** Everything one row of the launch depends on. */
  datatype Launch = Launch(
    source: Source, size: int, validity: seq<Byte>, validityStride: int, authoritative: bool, sourceStart: int,
    parameters: BlockParameters, tuning: Tuning, fftLength: nat, cosine: real -> real, sine: real -> real)

  /** Samples to one entry of the validity buffer. */
  function Stride(l: Launch): int {
    if l.source.Packed? then l.source.geometry.samplesPerFrame else l.validityStride
  }

  /** The host checks of a launch. */
  ghost predicate Checked(l: Launch) {
    && Circle(l.cosine, l.sine) && Stride(l) > 0
    && (match l.source
        case Packed(g, payloads, channel) => ValidSource(g, payloads, l.size, channel)
        case Decoded(samples) => |samples| == l.size)
    && (!l.authoritative ==> |l.validity| >= (l.size + Stride(l) - 1) / Stride(l))
  }

  // ----- the direct definition -----

  function SourceIndex(l: Launch, sample: int): int {
    l.parameters.outputIndex - l.parameters.coarseSample - l.sourceStart + sample
    + if sample >= l.parameters.sourceCutover then l.parameters.sourceOffset else 0
  }

  lemma ValidityInBuffer(l: Launch, index: int)
    requires Checked(l) && 0 <= index < l.size && !l.authoritative
    ensures 0 <= index / Stride(l) < |l.validity|
  {
    var d := Stride(l);
    DivMonotone(0, index, d);
    DivMonotone(index + d, l.size + d - 1, d);
    DivAddOne(index, d);
  }

  predicate SampleValid(l: Launch, sample: int)
    requires Checked(l)
  {
    var index := SourceIndex(l, sample);
    && 0 <= index < l.size && l.parameters.validStart <= sample < l.parameters.validStop
    && (l.authoritative || (ValidityInBuffer(l, index); l.validity[index / Stride(l)] != 0))
  }

  function SourceSample(l: Launch, index: int): Complex
    requires Checked(l) && 0 <= index < l.size
  {
    match l.source
    case Packed(g, payloads, channel) => DecodedSample(g, payloads, l.size, channel, index)
    case Decoded(samples) => samples[index]
  }

  function Value(l: Launch, sample: int): Complex
    requires Checked(l)
  {
    if SampleValid(l, sample) then SourceSample(l, SourceIndex(l, sample)) else Complex(0.0, 0.0)
  }

  /** Cycles of phase at a sample: the oscillator's, less the fringe of the delay there. */
  function Cycles(p: BlockParameters, u: Tuning, x: real): real {
    u.wallLoCycles + u.loOffset * (p.blockStart + x * u.inverseRate)
    - u.fringeReference * (p.delayZero + p.delayStep * x + p.delayQuadratic * x * x)
  }

  function Rotate(v: Complex, cosine: real, sine: real): Complex {
    Complex(v.x * cosine - v.y * sine, v.x * sine + v.y * cosine)
  }

  /** The sample of the rotated row. */
  function Direct(l: Launch, sample: int): Complex
    requires Checked(l)
  {
    var cycles := Cycles(l.parameters, l.tuning, sample as real);
    Rotate(Value(l, sample), l.cosine(cycles), l.sine(cycles))
  }

  /** One for a valid sample at begin + i. */
  ghost function Flags(l: Launch, begin: nat): nat -> int
    requires Checked(l)
  {
    (i: nat) => if SampleValid(l, begin + i) then 1 else 0
  }

  /** The valid samples of [begin, end). */
  ghost function ValidCount(l: Launch, begin: nat, end: nat): int
    requires Checked(l)
  {
    if end <= begin then 0 else Total(Flags(l, begin), end - begin)
  }

  // ----- the phase polynomial of the row -----

  function RowPolynomial(p: BlockParameters, u: Tuning): Polynomial {
    Polynomial(-u.fringeReference * p.delayZero + u.wallLoCycles + u.loOffset * p.blockStart,
               -u.fringeReference * p.delayStep + u.loOffset * u.inverseRate,
               -u.fringeReference * p.delayQuadratic)
  }

  lemma PolynomialIsCycles(p: BlockParameters, u: Tuning, x: real)
    ensures At(RowPolynomial(p, u), x) == Cycles(p, u, x)
  {
    var f := u.fringeReference;
    Distribute(u.loOffset, p.blockStart, x * u.inverseRate);
    Distribute(f, p.delayZero + p.delayStep * x, p.delayQuadratic * x * x);
    Distribute(f, p.delayZero, p.delayStep * x);
    Negated(f, p.delayZero);
    Negated(f, p.delayStep);
    Negated(f, p.delayQuadratic);
    Reorder(f, p.delayStep, x);
    Reorder(u.loOffset, u.inverseRate, x);
    Reorder3(f, p.delayQuadratic, x);
    LinearTerm(-f * p.delayStep, u.loOffset * u.inverseRate, x);
  }

  lemma Negated(f: real, d: real)
    ensures -f * d == -(f * d)
  {
  }

  lemma Reorder(f: real, d: real, x: real)
    ensures f * (d * x) == f * d * x && f * (x * d) == f * d * x && -(f * d) * x == -(f * (d * x))
  {
  }

  lemma Reorder3(f: real, d: real, x: real)
    ensures f * (d * x * x) == f * d * x * x && -(f * d) * x * x == -(f * (d * x * x))
  {
  }

  lemma LinearTerm(a: real, b: real, x: real)
    ensures (a + b) * x == a * x + b * x
  {
  }

  // ----- one thread -----

  /** Load the value of a sample from a located position. */
  method LoadValue(l: Launch, sample: int, index: int, pos: Position) returns (value: Complex, valid: bool)
    requires Checked(l) && index == SourceIndex(l, sample)
    requires l.source.Packed? ==> Located(pos, index, l.source.geometry.samplesPerFrame)
    ensures valid == SampleValid(l, sample) && value == Value(l, sample)
  {
    valid := false;
    value := Complex(0.0, 0.0);
    if 0 <= index < l.size && l.parameters.validStart <= sample < l.parameters.validStop {
      if l.authoritative {
        valid := true;
      } else {
        ValidityInBuffer(l, index);
        var entry := if l.source.Packed? then pos.frame else index / l.validityStride;
        valid := l.validity[entry] != 0;
      }
      if valid {
        match l.source
        case Decoded(samples) => value := samples[index];
        case Packed(g, payloads, channel) =>
          FusedLoad(g, payloads, l.size, channel, index, pos.frame, pos.within);
          value := LoadPacked(g, payloads, pos.frame, pos.within, channel);
      }
    }
  }

  /** Without an offset the source index moves with the sample. */
  lemma IndexMoves(l: Launch, sample: int)
    ensures l.parameters.sourceOffset == 0 ==> SourceIndex(l, sample + 256) == SourceIndex(l, sample) + 256
  {
  }

  /** Sample i of a chunk that begins at `begin` belongs to thread t. */
  predicate Mine(i: int, begin: nat, t: nat) {
    i >= begin && (i - begin) % 256 == t
  }

  lemma NextMine(begin: nat, t: nat, sample: int, i: int)
    requires Mine(sample, begin, t) && sample < i < sample + 256
    ensures !Mine(i, begin, t)
  {
    OtherThreads(sample - begin, i - begin, 256);
  }

  /** What a thread has written once it reaches `sample`. */
  ghost predicate Written(l: Launch, begin: nat, end: nat, t: nat, sample: int, before: seq<Complex>, row: array<Complex>)
    requires Checked(l)
    reads row
  {
    && row.Length == |before|
    && forall i :: 0 <= i < row.Length ==>
         row[i] == if i < end && i < sample && Mine(i, begin, t) then Direct(l, i) else before[i]
  }

  /** A row whose samples are all invalid is zero and counts nothing. */
  lemma NothingValid(l: Launch, sample: int)
    requires Checked(l) && l.parameters.validStop <= l.parameters.validStart
    ensures !SampleValid(l, sample) && Direct(l, sample) == Complex(0.0, 0.0)
  {
  }

  lemma {:induction false} NothingCounted(l: Launch, begin: nat, n: nat, t: nat)
    requires Checked(l) && l.parameters.validStop <= l.parameters.validStart
    ensures Total(Flags(l, begin), n) == 0 && Strided(Flags(l, begin), n, t, 256) == 0
  {
    if n > 0 {
      NothingCounted(l, begin, n - 1, t);
      NothingValid(l, begin + (n - 1));
    }
  }

  /** One thread of a block: every 256th sample of [begin, end), starting with its own. */
  method RunThread(l: Launch, begin: nat, end: nat, t: nat, row: array<Complex>) returns (count: int)
    requires Checked(l) && begin <= end <= row.Length && t < 256
    modifies row
    ensures Written(l, begin, end, t, end, old(row[..]), row)
    ensures count == Strided(Flags(l, begin), end - begin, t, 256)
  {
    hide Checked, Direct, Strided, At, Delta, SecondDelta, Tracks;
    var p := RowPolynomial(l.parameters, l.tuning);
    var sample := begin + t;
    var z := Start(l, p, sample);
    var steps := 0;
    var pos := Position(0, 0, false);
    NoPositionYet(l, sample);
    count := 0;
    StridedStart(Flags(l, begin), MinNat(t, end - begin), t, 256);
    while sample < end
      invariant Mine(sample, begin, t)
      invariant Tracks(l.cosine, l.sine, p, sample as real, z)
      invariant PositionFollows(l, sample, pos)
      invariant count == Strided(Flags(l, begin), MinNat(sample - begin, end - begin), t, 256)
      invariant Written(l, begin, end, t, sample, old(row[..]), row)
    {
      var value, valid;
      value, valid, pos := Take(l, sample, pos);
      DirectFromPhasor(l, sample, z);
      row[sample] := Rotate(value, z.cosine, z.sine);
      if valid {
        count := count + 1;
      }
      steps := steps + 1;
      z := Turn(l, p, sample, steps, z);
      WriteAdvances(l, begin, end, t, sample);
      StridedStep(Flags(l, begin), sample - begin, MinNat(sample - begin + 256, end - begin), t, 256);
      NextIndex(sample - begin, 256);
      sample := sample + 256;
    }
  }

  lemma WriteAdvances(l: Launch, begin: nat, end: nat, t: nat, sample: int)
    requires Mine(sample, begin, t)
    ensures forall i :: i < sample + 256 && Mine(i, begin, t) <==> (i < sample && Mine(i, begin, t)) || i == sample
  {
    forall i | sample < i < sample + 256 ensures !Mine(i, begin, t) {
      NextMine(begin, t, sample, i);
    }
  }

  method Start(l: Launch, p: Polynomial, sample: int) returns (z: Phasor)
    requires Checked(l)
    ensures Tracks(l.cosine, l.sine, p, sample as real, z)
  {
    z := StartPhasor(l.cosine, l.sine, p, sample);
  }

  method Turn(l: Launch, p: Polynomial, sample: int, steps: nat, z: Phasor) returns (next: Phasor)
    requires Checked(l) && Tracks(l.cosine, l.sine, p, sample as real, z)
    ensures Tracks(l.cosine, l.sine, p, (sample + 256) as real, next)
  {
    next := StepPhasor(l.cosine, l.sine, p, sample, steps, z);
  }

  lemma DirectFromPhasor(l: Launch, sample: int, z: Phasor)
    requires Checked(l) && Tracks(l.cosine, l.sine, RowPolynomial(l.parameters, l.tuning), sample as real, z)
    ensures Rotate(Value(l, sample), z.cosine, z.sine) == Direct(l, sample)
  {
    PolynomialIsCycles(l.parameters, l.tuning, sample as real);
    hide Checked, RowPolynomial, At, Cycles, Value;
  }

  /** The packed position of a thread before it reaches `sample`. */
  predicate PositionFollows(l: Launch, sample: int, pos: Position) {
    l.source.Packed? ==>
      l.source.geometry.samplesPerFrame > 0
      && Follows(pos, SourceIndex(l, sample), l.parameters.sourceOffset, l.source.geometry.samplesPerFrame)
  }

  lemma NoPositionYet(l: Launch, sample: int)
    requires Checked(l)
    ensures PositionFollows(l, sample, Position(0, 0, false))
  {
  }

  /** Locate a sample, load it and move the position on. */
  method Take(l: Launch, sample: int, pos: Position) returns (value: Complex, valid: bool, next: Position)
    requires Checked(l) && PositionFollows(l, sample, pos)
    ensures valid == SampleValid(l, sample) && value == Value(l, sample)
    ensures PositionFollows(l, sample + 256, next)
  {
    var index := SourceIndex(l, sample);
    var offset := l.parameters.sourceOffset;
    next := pos;
    IndexMoves(l, sample);
    hide SourceIndex, SampleValid, Value;
    if l.source.Packed? {
      var spf := l.source.geometry.samplesPerFrame;
      next := Locate(pos, index, offset, spf);
      value, valid := LoadValue(l, sample, index, next);
      next := Advance(next, index, offset, spf);
    } else {
      value, valid := LoadValue(l, sample, index, next);
    }
  }

  // ----- one block of threads -----

  /** Row samples [begin, end) rotated, the rest as before. */
  ghost predicate Filled(l: Launch, begin: nat, end: nat, before: seq<Complex>, row: array<Complex>)
    requires Checked(l)
    reads row
  {
    && row.Length == |before|
    && forall i :: 0 <= i < row.Length ==> row[i] == if begin <= i < end then Direct(l, i) else before[i]
  }

  /** Threads not in `pending` have written their samples. */
  ghost predicate FilledBut(l: Launch, begin: nat, end: nat, pending: set<int>, before: seq<Complex>, row: array<Complex>)
    requires Checked(l)
    reads row
  {
    && row.Length == |before|
    && forall i :: 0 <= i < row.Length ==>
         row[i] == if begin <= i < end && (i - begin) % 256 !in pending then Direct(l, i) else before[i]
  }

  /** The valid branch of a block: 256 threads in any order, then the tree reduction. */
  method RunThreads(l: Launch, begin: nat, end: nat, row: array<Complex>) returns (total: int)
    requires Checked(l) && begin <= end <= row.Length
    modifies row
    ensures Filled(l, begin, end, old(row[..]), row)
    ensures total == Total(Flags(l, begin), end - begin)
  {
    hide Checked, Direct, Strided, Total, Flags;
    var counts := new int[256](_ => 0);
    ghost var sums := StridedSums(Flags(l, begin), end - begin, 256);
    var pending := AllThreads(256);
    while pending != {}
      invariant forall t :: t in pending ==> 0 <= t < 256
      invariant FilledBut(l, begin, end, pending, old(row[..]), row)
      invariant forall t :: 0 <= t < 256 && t !in pending ==> counts[t] == sums[t]
      decreases pending
    {
      var thread: int :| thread in pending;
      ghost var before := row[..];
      counts[thread] := RunThread(l, begin, end, thread, row);
      ThreadFills(l, begin, end, thread, pending, old(row[..]), before, row);
      pending := pending - {thread};
    }
    assert counts[..] == sums;
    StridesCover(Flags(l, begin), end - begin, 256);
    TreeReduce(counts);
    total := counts[0];
  }

  lemma ThreadFills(l: Launch, begin: nat, end: nat, thread: nat, pending: set<int>, before: seq<Complex>,
                    middle: seq<Complex>, row: array<Complex>)
    requires Checked(l) && thread in pending && end <= row.Length == |before| == |middle|
    requires forall i :: 0 <= i < row.Length ==>
      middle[i] == if begin <= i < end && (i - begin) % 256 !in pending then Direct(l, i) else before[i]
    requires Written(l, begin, end, thread, end, middle, row)
    ensures FilledBut(l, begin, end, pending - {thread}, before, row)
  {
    hide Checked, Direct;
  }

  /** A whole block of the kernel over [begin, end). */
  method RunBlock(l: Launch, begin: nat, end: nat, row: array<Complex>) returns (total: int)
    requires Checked(l) && end <= row.Length
    modifies row
    ensures Filled(l, begin, end, old(row[..]), row)
    ensures total == ValidCount(l, begin, end)
  {
    if end <= begin {
      total := 0;
    } else if l.parameters.validStop <= l.parameters.validStart {
      ZeroRow(l, begin, end, row);
      NothingCounted(l, begin, end - begin, 0);
      total := 0;
    } else {
      total := RunThreads(l, begin, end, row);
    }
  }

  method ZeroRow(l: Launch, begin: nat, end: nat, row: array<Complex>)
    requires Checked(l) && begin <= end <= row.Length && l.parameters.validStop <= l.parameters.validStart
    modifies row
    ensures Filled(l, begin, end, old(row[..]), row)
  {
    forall i | 0 <= i < row.Length ensures Direct(l, i) == Complex(0.0, 0.0) {
      NothingValid(l, i);
    }
    hide Direct, Checked;
    for i := begin to end
      invariant Filled(l, begin, i, old(row[..]), row)
    {
      row[i] := Complex(0.0, 0.0);
    }
  }

  // ----- whole rows and chunked rows -----

  /** The kernel without chunks: one block a row. */
  method FrontRow(l: Launch, row: array<Complex>) returns (weight: real)
    requires Checked(l) && 0 < l.fftLength == row.Length
    modifies row
    ensures forall i :: 0 <= i < row.Length ==> row[i] == Direct(l, i)
    ensures weight == ValidCount(l, 0, l.fftLength) as real / l.fftLength as real
  {
    var total := RunBlock(l, 0, l.fftLength, row);
    weight := total as real / l.fftLength as real;
  }

  const CHUNK: nat := 4096

  function ChunkEnd(l: Launch, chunk: nat): nat {
    MinNat(chunk * CHUNK + CHUNK, l.fftLength)
  }

  /** The valid samples of each chunk. */
  ghost function ChunkCounts(l: Launch, chunks: nat): (counts: seq<int>)
    requires Checked(l)
    ensures |counts| == chunks
  {
    seq(chunks, chunk requires 0 <= chunk < chunks => ValidCount(l, chunk * CHUNK, ChunkEnd(l, chunk)))
  }

  lemma CountStep(l: Launch, begin: nat, end: nat)
    requires Checked(l) && begin < end
    ensures ValidCount(l, begin, end) == ValidCount(l, begin, end - 1) + if SampleValid(l, end - 1) then 1 else 0
  {
    hide SampleValid, Checked;
    var n: nat := end - 1 - begin;
    assert begin + n == end - 1;
    assert Flags(l, begin)(n) == if SampleValid(l, end - 1) then 1 else 0;
    assert Total(Flags(l, begin), n + 1) == Total(Flags(l, begin), n) + Flags(l, begin)(n);
  }

  lemma {:induction false} CountSplits(l: Launch, begin: nat, middle: nat, end: nat)
    requires Checked(l) && begin <= middle <= end
    ensures ValidCount(l, begin, end) == ValidCount(l, begin, middle) + ValidCount(l, middle, end)
    decreases end
  {
    if middle < end {
      hide Checked, SampleValid, ValidCount;
      CountStep(l, begin, end);
      CountStep(l, middle, end);
      CountSplits(l, begin, middle, end - 1);
    }
  }

  /** Where the first n chunks end. */
  function UpTo(l: Launch, n: nat): nat {
    MinNat(n * CHUNK, l.fftLength)
  }

  lemma ChunkStep(l: Launch, n: nat)
    requires Checked(l)
    ensures ValidCount(l, 0, UpTo(l, n + 1)) == ValidCount(l, 0, UpTo(l, n)) + ValidCount(l, n * CHUNK, ChunkEnd(l, n))
  {
    hide Checked;
    if n * CHUNK <= l.fftLength {
      CountSplits(l, 0, n * CHUNK, ChunkEnd(l, n));
    }
  }

  lemma ChunkCountAt(l: Launch, chunks: nat, n: nat)
    requires Checked(l) && n < chunks
    ensures ChunkCounts(l, chunks)[n] == ValidCount(l, n * CHUNK, ChunkEnd(l, n))
  {
    hide Checked, ValidCount;
  }

  lemma NoChunks(l: Launch)
    requires Checked(l)
    ensures ValidCount(l, 0, UpTo(l, 0)) == 0
  {
    hide Checked, Total;
  }

  /** Chunk counts add up to the count of the row. */
  lemma {:induction false} ChunksCount(l: Launch, chunks: nat, n: nat)
    requires Checked(l) && n <= chunks
    ensures SumFirst(ChunkCounts(l, chunks), n) == ValidCount(l, 0, UpTo(l, n))
  {
    hide Checked, ValidCount, UpTo, ChunkEnd;
    if n == 0 {
      NoChunks(l);
    } else {
      hide ChunkCounts;
      var counts := ChunkCounts(l, chunks);
      ChunksCount(l, chunks, n - 1);
      ChunkStep(l, n - 1);
      ChunkCountAt(l, chunks, n - 1);
      assert SumFirst(counts, n) == SumFirst(counts, n - 1) + counts[n - 1];
    }
  }

  /** Rows filled by all chunks not in `pending`. */
  ghost predicate ChunksFilled(l: Launch, pending: set<int>, row: array<Complex>)
    requires Checked(l)
    reads row
  {
    row.Length == l.fftLength
    && forall i :: 0 <= i < row.Length && i / CHUNK !in pending ==> row[i] == Direct(l, i)
  }

  /** The chunked kernel: blocks of 4096 samples in any order, then finish_front_weights. */
  method FrontChunkedRow(l: Launch, chunks: nat, row: array<Complex>) returns (weight: real)
    requires Checked(l) && 0 < l.fftLength == row.Length && chunks * CHUNK >= l.fftLength
    modifies row
    ensures forall i :: 0 <= i < row.Length ==> row[i] == Direct(l, i)
    ensures weight == ValidCount(l, 0, l.fftLength) as real / l.fftLength as real
  {
    hide Checked, Direct, ValidCount;
    var counts := new int[chunks](_ => 0);
    var pending := AllThreads(chunks);
    ghost var expected := ChunkCounts(l, chunks);
    while pending != {}
      invariant forall chunk :: chunk in pending ==> 0 <= chunk < chunks
      invariant ChunksFilled(l, pending, row)
      invariant forall chunk :: 0 <= chunk < chunks && chunk !in pending ==> counts[chunk] == expected[chunk]
      decreases pending
    {
      var chunk: int :| chunk in pending;
      ghost var before := row[..];
      counts[chunk] := RunBlock(l, chunk * CHUNK, ChunkEnd(l, chunk), row);
      ChunkFills(l, chunk, pending, before, row);
      pending := pending - {chunk};
    }
    assert counts[..] == expected;
    ChunksCount(l, chunks, chunks);
    var total := AddChunkCounts(counts[..]);
    weight := total as real / l.fftLength as real;
  }

  lemma ChunkFills(l: Launch, chunk: nat, pending: set<int>, before: seq<Complex>, row: array<Complex>)
    requires Checked(l) && row.Length == l.fftLength == |before|
    requires forall i :: 0 <= i < |before| && i / CHUNK !in pending ==> before[i] == Direct(l, i)
    requires Filled(l, chunk * CHUNK, ChunkEnd(l, chunk), before, row)
    ensures ChunksFilled(l, pending - {chunk}, row)
  {
    hide Checked, Direct;
    forall i | 0 <= i < row.Length && i / CHUNK !in pending - {chunk} ensures row[i] == Direct(l, i) {
      if i / CHUNK == chunk {
        assert chunk * CHUNK <= i < ChunkEnd(l, chunk);
      }
    }
  }

  // ----- fused equals decode, then process -----

  /** The launch over the bulk decoder's output with one validity entry a frame. */
  ghost predicate DecodedLaunch(packed: Launch, decoded: Launch) {
    && packed.source.Packed? && decoded.source.Decoded? && Checked(packed) && |decoded.source.samples| == packed.size
    && (forall i :: 0 <= i < packed.size ==> decoded.source.samples[i] == SourceSample(packed, i))
    && decoded == packed.(source := decoded.source, validityStride := packed.source.geometry.samplesPerFrame)
  }

  lemma DecodedIsChecked(packed: Launch, decoded: Launch)
    requires DecodedLaunch(packed, decoded)
    ensures Checked(decoded) && Stride(decoded) == Stride(packed)
    ensures decoded.size == packed.size && decoded.validity == packed.validity
    ensures forall sample :: SourceIndex(packed, sample) == SourceIndex(decoded, sample)
  {
    hide Circle, ValidSource, SourceSample;
  }

  lemma FusedValidity(packed: Launch, decoded: Launch, sample: int)
    requires DecodedLaunch(packed, decoded) && Checked(decoded)
    ensures SampleValid(packed, sample) <==> SampleValid(decoded, sample)
  {
    DecodedIsChecked(packed, decoded);
    var index := SourceIndex(packed, sample);
    assert index == SourceIndex(decoded, sample);
    hide Checked, SourceIndex, Stride;
  }

  /** Row by row the fused kernel computes what decoding first would. */
  lemma FusedEqualsDecoded(packed: Launch, decoded: Launch, sample: int)
    requires DecodedLaunch(packed, decoded)
    ensures Checked(decoded)
    ensures Direct(packed, sample) == Direct(decoded, sample)
    ensures SampleValid(packed, sample) <==> SampleValid(decoded, sample)
  {
    DecodedIsChecked(packed, decoded);
    FusedValidity(packed, decoded, sample);
    FusedValue(packed, decoded, sample);
    hide Checked, Value, SampleValid, Cycles;
  }

  lemma FusedValue(packed: Launch, decoded: Launch, sample: int)
    requires DecodedLaunch(packed, decoded) && Checked(decoded)
    ensures Value(packed, sample) == Value(decoded, sample)
  {
    DecodedIsChecked(packed, decoded);
    FusedValidity(packed, decoded, sample);
    var index := SourceIndex(packed, sample);
    assert index == SourceIndex(decoded, sample);
    hide Checked, SourceIndex;
    if SampleValid(packed, sample) {
      assert 0 <= index < packed.size;
      hide SampleValid;
      assert SourceSample(decoded, index) == decoded.source.samples[index];
    }
  }

  lemma {:induction false} FusedCountsEqual(packed: Launch, decoded: Launch, begin: nat, n: nat)
    requires DecodedLaunch(packed, decoded) && Checked(decoded)
    ensures Total(Flags(packed, begin), n) == Total(Flags(decoded, begin), n)
  {
    if n > 0 {
      FusedCountsEqual(packed, decoded, begin, n - 1);
      FusedEqualsDecoded(packed, decoded, begin + (n - 1));
    }
  }
}
