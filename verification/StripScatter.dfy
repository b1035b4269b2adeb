/**
 * The strip-scatter kernels of src/cuphoton/xbeam/cuda_ingest.py: one thread a
 * payload word, in any order. A raw frame is a four-word header (VDIF
 * Specification, Release 1.1.1: 32 bytes, invalid flag in bit 31 of word 0)
 * followed by its payload words.
 */
module StripScatter {
  import opened Arithmetic
  import opened Envelopes
  import opened Frontier
  import opened Options
  import opened Slicing
  import opened Threads

  type Word = w: int | 0 <= w < 0x1_0000_0000_0000_0000

  const HEADER_WORDS: nat := 4

  datatype Shape = Shape(frameWords: nat, payloadWords: nat)

  predicate FitsShape(s: Shape) {
    s.payloadWords > 0 && s.frameWords >= HEADER_WORDS + s.payloadWords
  }

  /** Where entry i of a mapping reads and writes: a frame and a slot, or nothing. */
  datatype Move = Skip | Copy(source: nat, destination: nat)

  /** The dense kernels: every frame, unless its slot is negative. */
  function DenseMove(slots: seq<int>, i: nat): Move
    requires i < |slots|
  {
    if slots[i] < 0 then Skip else Copy(i, slots[i])
  }

  /** The sparse kernel: both ends checked against their buffers. */
  function SparseMove(sources: seq<int>, slots: seq<int>, frames: nat, count: nat, i: nat): Move
    requires i < |slots| == |sources|
  {
    if sources[i] < 0 || sources[i] >= frames || slots[i] < 0 || slots[i] >= count then Skip
    else Copy(sources[i], slots[i])
  }

  function DenseMoves(slots: seq<int>): (r: seq<Move>)
    ensures |r| == |slots|
  {
    seq(|slots|, i requires 0 <= i < |slots| => DenseMove(slots, i))
  }

  function SparseMoves(sources: seq<int>, slots: seq<int>, frames: nat, count: nat): (r: seq<Move>)
    requires |sources| == |slots|
    ensures |r| == |slots|
  {
    seq(|slots|, i requires 0 <= i < |slots| => SparseMove(sources, slots, frames, count, i))
  }

  function Moves(sources: Option<seq<int>>, slots: seq<int>, frames: nat, count: nat): (r: seq<Move>)
    requires sources.Some? ==> |sources.value| == |slots|
    ensures |r| == |slots|
  {
    if sources.Some? then SparseMoves(sources.value, slots, frames, count) else DenseMoves(slots)
  }

  /** Moves stay inside raw frames and output slots, and no two fill one slot. */
  predicate SoundMoves(moves: seq<Move>, frames: nat, count: nat) {
    && (forall i :: 0 <= i < |moves| && moves[i].Copy? ==> moves[i].source < frames && moves[i].destination < count)
    && (forall i, j :: 0 <= i < j < |moves| && moves[i].Copy? && moves[j].Copy? ==>
          moves[i].destination != moves[j].destination)
  }

  // ----- one word -----

  /** Payload word `word` of a raw frame. */
  function PayloadWord(s: Shape, raw: seq<Word>, frames: nat, frame: nat, word: nat): Word
    requires FitsShape(s) && |raw| == frames * s.frameWords && frame < frames && word < s.payloadWords
  {
    MulStep(s.frameWords, frame, frames);
    raw[frame * s.frameWords + HEADER_WORDS + word]
  }

  /** The validity byte of a frame: bit 31 of its first word is clear. */
  function FrameValid(s: Shape, raw: seq<Word>, frames: nat, frame: nat): bool
    requires FitsShape(s) && |raw| == frames * s.frameWords && frame < frames
  {
    MulStep(s.frameWords, frame, frames);
    raw[frame * s.frameWords] / 0x8000_0000 % 2 == 0
  }

  // ----- what a launch leaves in each output word -----

  /** The mapping entry that fills a slot, or -1. */
  function MoverOf(moves: seq<Move>, slot: int): (i: int)
    ensures -1 <= i < |moves|
    ensures i >= 0 ==> moves[i].Copy? && moves[i].destination == slot
    ensures i < 0 ==> forall k :: 0 <= k < |moves| && moves[k].Copy? ==> moves[k].destination != slot
  {
    if moves == [] then -1
    else
      var last := |moves| - 1;
      if moves[last].Copy? && moves[last].destination == slot then last else MoverOf(moves[..last], slot)
  }

  /** Every output word after the launch: the payload word of the frame mapped to its slot, or what was there. */
  function Expected(s: Shape, raw: seq<Word>, frames: nat, moves: seq<Move>, before: seq<Word>, count: nat): (r: seq<Word>)
    requires FitsShape(s) && |raw| == frames * s.frameWords && SoundMoves(moves, frames, count)
    requires |before| == count * s.payloadWords
    ensures |r| == |before|
    ensures forall at :: 0 <= at < |before| ==>
      r[at] == ExpectedWord(s, raw, frames, moves, before[at], at)
  {
    seq(|before|, at requires 0 <= at < |before| => ExpectedWord(s, raw, frames, moves, before[at], at))
  }

  function ExpectedWord(s: Shape, raw: seq<Word>, frames: nat, moves: seq<Move>, before: Word, at: nat): Word
    requires FitsShape(s) && |raw| == frames * s.frameWords
    requires forall i :: 0 <= i < |moves| && moves[i].Copy? ==> moves[i].source < frames
  {
    var i := MoverOf(moves, at / s.payloadWords);
    if i < 0 then before else PayloadWord(s, raw, frames, moves[i].source, at % s.payloadWords)
  }

  /** The thread that writes an output word, or -1. */
  function WriterOf(s: Shape, moves: seq<Move>, at: int): int
    requires s.payloadWords > 0
  {
    var i := MoverOf(moves, at / s.payloadWords);
    if i < 0 then -1 else i * s.payloadWords + at % s.payloadWords
  }

  /** A copying thread writes exactly the word whose writer it is. */
  lemma ThreadWrites(s: Shape, moves: seq<Move>, frames: nat, count: nat, thread: nat)
    requires s.payloadWords > 0 && SoundMoves(moves, frames, count) && thread / s.payloadWords < |moves|
    requires moves[thread / s.payloadWords].Copy?
    ensures var w := s.payloadWords;
            var at := moves[thread / w].destination * w + thread % w;
            && 0 <= at < count * w && at / w == moves[thread / w].destination && at % w == thread % w
            && WriterOf(s, moves, at) == thread && MoverOf(moves, at / w) == thread / w
            && forall other :: WriterOf(s, moves, other) == thread ==> other == at
  {
    var i := thread / s.payloadWords;
    WordOf(s.payloadWords, count, moves[i].destination, thread);
    MoverUnique(moves, frames, count, i);
    hide SoundMoves, MoverOf;
    forall other | WriterOf(s, moves, other) == thread
      ensures other == moves[i].destination * s.payloadWords + thread % s.payloadWords
    {
      OneWord(s, moves, frames, count, thread, other);
    }
  }

  lemma WordOf(w: int, count: nat, d: int, thread: nat)
    requires w > 0 && 0 <= d < count
    ensures 0 <= d * w + thread % w < count * w && (d * w + thread % w) / w == d && (d * w + thread % w) % w == thread % w
    ensures thread == w * (thread / w) + thread % w
  {
    DivUnique(d * w + thread % w, w, d, thread % w);
    MulStep(w, d, count);
    MulMonotone(w, 0, d);
  }

  /** The word a thread is the writer of. */
  lemma OneWord(s: Shape, moves: seq<Move>, frames: nat, count: nat, thread: nat, other: int)
    requires s.payloadWords > 0 && SoundMoves(moves, frames, count) && thread / s.payloadWords < |moves|
    requires moves[thread / s.payloadWords].Copy? && WriterOf(s, moves, other) == thread
    ensures other == moves[thread / s.payloadWords].destination * s.payloadWords + thread % s.payloadWords
  {
    var w, k := s.payloadWords, MoverOf(moves, other / s.payloadWords);
    hide SoundMoves;
    DivUnique(thread, w, k, other % w);
    assert other == w * (other / w) + other % w;
  }

  lemma MoverUnique(moves: seq<Move>, frames: nat, count: nat, i: nat)
    requires SoundMoves(moves, frames, count) && i < |moves| && moves[i].Copy?
    ensures MoverOf(moves, moves[i].destination) == i
  {
    var k := MoverOf(moves, moves[i].destination);
    assert k >= 0 && moves[k].destination == moves[i].destination;
  }

  /** A skipping thread is no word's writer. */
  lemma ThreadSkips(s: Shape, moves: seq<Move>, thread: nat)
    requires s.payloadWords > 0
    requires thread / s.payloadWords >= |moves| || moves[thread / s.payloadWords].Skip?
    ensures forall at :: WriterOf(s, moves, at) != thread
  {
    forall at ensures WriterOf(s, moves, at) != thread {
      var w := s.payloadWords;
      var k := MoverOf(moves, at / w);
      if WriterOf(s, moves, at) == thread {
        DivUnique(thread, w, k, at % w);
      }
    }
  }

  /** Output words whose writer still waits are untouched, the others final. */
  ghost predicate Progressed(s: Shape, moves: seq<Move>, pending: set<int>, before: seq<Word>, final: seq<Word>,
                             output: seq<Word>)
    requires s.payloadWords > 0
  {
    && |output| == |before| == |final|
    && forall at :: 0 <= at < |output| ==>
         output[at] == if WriterOf(s, moves, at) in pending then before[at] else final[at]
  }

  lemma SkipProgresses(s: Shape, moves: seq<Move>, pending: set<int>, before: seq<Word>, final: seq<Word>,
                       output: seq<Word>, thread: nat)
    requires s.payloadWords > 0 && Progressed(s, moves, pending, before, final, output)
    requires thread / s.payloadWords >= |moves| || moves[thread / s.payloadWords].Skip?
    ensures Progressed(s, moves, pending - {thread}, before, final, output)
  {
    ThreadSkips(s, moves, thread);
    hide WriterOf;
  }

  lemma StoreProgresses(s: Shape, moves: seq<Move>, pending: set<int>, before: seq<Word>, final: seq<Word>,
                        output: seq<Word>, thread: nat, at: nat)
    requires s.payloadWords > 0 && Progressed(s, moves, pending, before, final, output) && at < |output|
    requires forall other :: WriterOf(s, moves, other) == thread <==> other == at
    ensures Progressed(s, moves, pending - {thread}, before, final, output[at := final[at]])
  {
    hide WriterOf;
  }

  // ----- the kernels -----

  /** strip_scatter_vdif_payload and, with sources, strip_scatter_sparse_vdif_payload: all threads in any order. */
  method StripScatterPayload(s: Shape, raw: seq<Word>, frames: nat, sources: Option<seq<int>>, slots: seq<int>,
                             count: nat, output: array<Word>)
    requires FitsShape(s) && |raw| == frames * s.frameWords && output.Length == count * s.payloadWords
    requires sources.Some? ==> |sources.value| == |slots|
    requires SoundMoves(Moves(sources, slots, frames, count), frames, count)
    modifies output
    ensures output[..] == Expected(s, raw, frames, Moves(sources, slots, frames, count), old(output[..]), count)
  {
    ghost var moves := Moves(sources, slots, frames, count);
    ghost var before := output[..];
    ghost var final := Expected(s, raw, frames, moves, before, count);
    var wordCount := |slots| * s.payloadWords;
    MulMonotone(s.payloadWords, 0, |slots|);
    var pending := AllThreads((wordCount + 255) / 256 * 256);
    NobodyWrites(s, moves, before, final, raw, frames, count);
    hide Expected, Moves, WriterOf, SoundMoves;
    while pending != {}
      invariant forall t :: t in pending ==> t >= 0
      invariant Progressed(s, moves, pending, before, final, output[..])
      decreases pending
    {
      var index: int :| index in pending;
      RunCopy(s, raw, frames, sources, slots, count, index, output, pending, before);
      pending := pending - {index};
    }
  }

  lemma NobodyWrites(s: Shape, moves: seq<Move>, before: seq<Word>, final: seq<Word>, raw: seq<Word>, frames: nat, count: nat)
    requires FitsShape(s) && |raw| == frames * s.frameWords && SoundMoves(moves, frames, count)
    requires |before| == count * s.payloadWords && final == Expected(s, raw, frames, moves, before, count)
    ensures forall at :: 0 <= at < |before| && WriterOf(s, moves, at) < 0 ==> final[at] == before[at]
    ensures forall at :: WriterOf(s, moves, at) < |moves| * s.payloadWords
  {
    forall at ensures WriterOf(s, moves, at) < |moves| * s.payloadWords {
      WriterBelow(s, moves, at);
    }
    forall at | 0 <= at < |before| && WriterOf(s, moves, at) < 0 ensures final[at] == before[at] {
      WriterBelow(s, moves, at);
    }
  }

  lemma WriterBelow(s: Shape, moves: seq<Move>, at: int)
    requires s.payloadWords > 0
    ensures WriterOf(s, moves, at) < |moves| * s.payloadWords
    ensures WriterOf(s, moves, at) < 0 <==> MoverOf(moves, at / s.payloadWords) < 0
  {
    var i := MoverOf(moves, at / s.payloadWords);
    if i >= 0 {
      MulStep(s.payloadWords, i, |moves|);
      MulMonotone(s.payloadWords, 0, i);
    } else {
      MulMonotone(s.payloadWords, 0, |moves|);
    }
  }

  /** One thread of the copy kernels. */
  method RunCopy(s: Shape, raw: seq<Word>, frames: nat, sources: Option<seq<int>>, slots: seq<int>, count: nat,
                 index: nat, output: array<Word>, ghost pending: set<int>, ghost before: seq<Word>)
    requires FitsShape(s) && |raw| == frames * s.frameWords && output.Length == |before| == count * s.payloadWords
    requires sources.Some? ==> |sources.value| == |slots|
    requires SoundMoves(Moves(sources, slots, frames, count), frames, count)
    requires var moves := Moves(sources, slots, frames, count);
             Progressed(s, moves, pending, before, Expected(s, raw, frames, moves, before, count), output[..])
    modifies output
    ensures var moves := Moves(sources, slots, frames, count);
            Progressed(s, moves, pending - {index}, before, Expected(s, raw, frames, moves, before, count), output[..])
  {
    ghost var moves := Moves(sources, slots, frames, count);
    ghost var final := Expected(s, raw, frames, moves, before, count);
    var move := ThreadMove(s, sources, slots, frames, count, index);
    if move.Skip? {
      SkipProgresses(s, moves, pending, before, final, output[..], index);
      return;
    }
    var payloadWord := index - index / s.payloadWords * s.payloadWords;
    var at := move.destination * s.payloadWords + payloadWord;
    CopyTarget(s, raw, frames, moves, before, count, index, at);
    hide SoundMoves, Moves, WriterOf, MoverOf, Expected, FitsShape;
    StoreProgresses(s, moves, pending, before, final, output[..], index, at);
    hide Progressed;
    output[at] := raw[move.source * s.frameWords + HEADER_WORDS + payloadWord];
    assert output[..] == old(output[..])[at := final[at]];
  }

  /** The word a copying thread stores is the final value of the only word it writes. */
  lemma CopyTarget(s: Shape, raw: seq<Word>, frames: nat, moves: seq<Move>, before: seq<Word>, count: nat, index: nat, at: int)
    requires FitsShape(s) && |raw| == frames * s.frameWords && SoundMoves(moves, frames, count)
    requires |before| == count * s.payloadWords
    requires index / s.payloadWords < |moves| && moves[index / s.payloadWords].Copy?
    requires at == moves[index / s.payloadWords].destination * s.payloadWords + (index - index / s.payloadWords * s.payloadWords)
    ensures 0 <= at < |before|
    ensures forall other :: WriterOf(s, moves, other) == index <==> other == at
    ensures var from := moves[index / s.payloadWords].source * s.frameWords + HEADER_WORDS
                        + (index - index / s.payloadWords * s.payloadWords);
            0 <= from < |raw| && Expected(s, raw, frames, moves, before, count)[at] == raw[from]
  {
    var i := index / s.payloadWords;
    RemainderBelow(index, s.payloadWords);
    ThreadWrites(s, moves, frames, count, index);
    MulMonotone(s.frameWords, 0, moves[i].source);
    MulStep(s.frameWords, moves[i].source, frames);
    hide WriterOf, MoverOf, SoundMoves, Expected;
    assert ExpectedWord(s, raw, frames, moves, before[at], at)
           == PayloadWord(s, raw, frames, moves[i].source, index % s.payloadWords);
  }

  /** The guards of a thread: past the mapping, a negative slot, or a sparse entry out of range. */
  method ThreadMove(s: Shape, sources: Option<seq<int>>, slots: seq<int>, frames: nat, count: nat, index: nat)
    returns (move: Move)
    requires s.payloadWords > 0 && (sources.Some? ==> |sources.value| == |slots|)
    ensures move.Copy? ==>
      index / s.payloadWords < |slots| && Moves(sources, slots, frames, count)[index / s.payloadWords] == move
    ensures move.Skip? ==>
      index / s.payloadWords >= |slots| || Moves(sources, slots, frames, count)[index / s.payloadWords].Skip?
  {
    var frame := index / s.payloadWords;
    RemainderBelow(index, s.payloadWords);
    if index >= |slots| * s.payloadWords {
      PastTheEnd(index, s.payloadWords, |slots|);
      return Skip;
    }
    BeforeTheEnd(index, s.payloadWords, |slots|);
    var destination := slots[frame];
    if sources.None? {
      move := if destination < 0 then Skip else Copy(frame, destination);
    } else {
      var source := sources.value[frame];
      move := if source < 0 || source >= frames || destination < 0 || destination >= count then Skip
              else Copy(source, destination);
    }
  }

  lemma RemainderBelow(n: nat, d: nat)
    requires d > 0
    ensures n - n / d * d == n % d && 0 <= n / d
  {
    DivMonotone(0, n, d);
  }

  lemma PastTheEnd(n: nat, d: nat, rows: nat)
    requires d > 0 && n >= rows * d
    ensures n / d >= rows
  {
    DivExact(rows, d);
    DivMonotone(rows * d, n, d);
  }

  lemma BeforeTheEnd(n: nat, d: nat, rows: nat)
    requires d > 0 && n < rows * d
    ensures n / d < rows
  {
    if n / d >= rows {
      MulMonotone(d, rows, n / d);
    }
  }

  // ----- validity -----

  /** Every validity byte after the launch. */
  function ExpectedValidity(s: Shape, raw: seq<Word>, frames: nat, moves: seq<Move>, before: seq<bool>): (r: seq<bool>)
    requires FitsShape(s) && |raw| == frames * s.frameWords && SoundMoves(moves, frames, |before|)
    ensures |r| == |before|
  {
    seq(|before|, slot requires 0 <= slot < |before| =>
      var i := MoverOf(moves, slot);
      if i < 0 then before[slot] else FrameValid(s, raw, frames, moves[i].source))
  }

  /** The thread that writes the validity of a slot: the first word of its frame. */
  function ValidityWriter(s: Shape, moves: seq<Move>, slot: int): int {
    var i := MoverOf(moves, slot);
    if i < 0 then -1 else i * s.payloadWords
  }

  /** Validity bytes whose writer still waits are untouched, the others final. */
  ghost predicate ValidityProgressed(s: Shape, moves: seq<Move>, pending: set<int>, before: seq<bool>, final: seq<bool>,
                                     validity: seq<bool>)
  {
    && |validity| == |before| == |final|
    && forall slot :: 0 <= slot < |validity| ==>
         validity[slot] == if ValidityWriter(s, moves, slot) in pending then before[slot] else final[slot]
  }

  lemma ValidityThread(s: Shape, moves: seq<Move>, frames: nat, count: nat, thread: nat)
    requires s.payloadWords > 0 && SoundMoves(moves, frames, count)
    ensures var i := thread / s.payloadWords;
            forall slot :: ValidityWriter(s, moves, slot) == thread <==>
              thread % s.payloadWords == 0 && i < |moves| && moves[i].Copy? && moves[i].destination == slot
  {
    var w := s.payloadWords;
    var i := thread / w;
    assert thread == w * i + thread % w;
    forall slot
      ensures ValidityWriter(s, moves, slot) == thread <==>
        thread % w == 0 && i < |moves| && moves[i].Copy? && moves[i].destination == slot
    {
      var k := MoverOf(moves, slot);
      if k >= 0 && k * w == thread {
        DivExact(k, w);
      }
      if thread % w == 0 && i < |moves| && moves[i].Copy? && moves[i].destination == slot {
        MoverUnique(moves, frames, count, i);
      }
    }
  }

  /** What one thread of strip_scatter_vdif_payload_validity does besides copying. */
  method RunValidity(s: Shape, raw: seq<Word>, frames: nat, slots: seq<int>, index: nat, validity: array<bool>,
                     ghost pending: set<int>, ghost before: seq<bool>)
    requires FitsShape(s) && |raw| == frames * s.frameWords && validity.Length == |before|
    requires SoundMoves(DenseMoves(slots), frames, |before|)
    requires ValidityProgressed(s, DenseMoves(slots), pending, before,
                                ExpectedValidity(s, raw, frames, DenseMoves(slots), before), validity[..])
    modifies validity
    ensures ValidityProgressed(s, DenseMoves(slots), pending - {index}, before,
                               ExpectedValidity(s, raw, frames, DenseMoves(slots), before), validity[..])
  {
    ghost var moves := DenseMoves(slots);
    ghost var final := ExpectedValidity(s, raw, frames, moves, before);
    ValidityThread(s, moves, frames, |before|, index);
    var move := ThreadMove(s, None, slots, frames, validity.Length, index);
    var frame := index / s.payloadWords;
    var payloadWord := index - frame * s.payloadWords;
    RemainderBelow(index, s.payloadWords);
    if move.Copy? && payloadWord == 0 {
      MoverUnique(moves, frames, |before|, frame);
      MulStep(s.frameWords, frame, frames);
      MulMonotone(s.frameWords, 0, frame);
      ghost var expected := final[move.destination];
      assert expected == FrameValid(s, raw, frames, frame);
      hide ValidityWriter, SoundMoves, DenseMoves, MoverOf, ExpectedValidity, FitsShape;
      validity[move.destination] := raw[frame * s.frameWords] / 0x8000_0000 % 2 == 0;
      assert validity[..] == old(validity[..])[move.destination := expected];
    }
  }

  /** strip_scatter_vdif_payload_validity. */
  method StripScatterPayloadValidity(s: Shape, raw: seq<Word>, frames: nat, slots: seq<int>, count: nat,
                                     output: array<Word>, validity: array<bool>)
    requires FitsShape(s) && |raw| == frames * s.frameWords && output.Length == count * s.payloadWords
    requires validity.Length == count && SoundMoves(DenseMoves(slots), frames, count)
    modifies output, validity
    ensures output[..] == Expected(s, raw, frames, DenseMoves(slots), old(output[..]), count)
    ensures validity[..] == ExpectedValidity(s, raw, frames, DenseMoves(slots), old(validity[..]))
  {
    ghost var moves := DenseMoves(slots);
    ghost var words, flags := output[..], validity[..];
    var wordCount := |slots| * s.payloadWords;
    MulMonotone(s.payloadWords, 0, |slots|);
    var pending := AllThreads((wordCount + 255) / 256 * 256);
    NobodyWrites(s, moves, words, Expected(s, raw, frames, moves, words, count), raw, frames, count);
    ValidityWriters(s, moves);
    assert Moves(None, slots, frames, count) == moves;
    hide Expected, DenseMoves, Moves, WriterOf, SoundMoves, ValidityWriter;
    while pending != {}
      invariant forall t :: t in pending ==> t >= 0
      invariant Progressed(s, moves, pending, words, Expected(s, raw, frames, moves, words, count), output[..])
      invariant ValidityProgressed(s, moves, pending, flags, ExpectedValidity(s, raw, frames, moves, flags), validity[..])
      decreases pending
    {
      var index: int :| index in pending;
      RunCopy(s, raw, frames, None, slots, count, index, output, pending, words);
      RunValidity(s, raw, frames, slots, index, validity, pending, flags);
      pending := pending - {index};
    }
  }

  lemma ValidityWriters(s: Shape, moves: seq<Move>)
    requires s.payloadWords > 0
    ensures forall slot :: ValidityWriter(s, moves, slot) < |moves| * s.payloadWords
    ensures forall slot :: ValidityWriter(s, moves, slot) < 0 <==> MoverOf(moves, slot) < 0
  {
    forall slot
      ensures ValidityWriter(s, moves, slot) < |moves| * s.payloadWords
      ensures ValidityWriter(s, moves, slot) < 0 <==> MoverOf(moves, slot) < 0
    {
      var i := MoverOf(moves, slot);
      if i >= 0 {
        MulStep(s.payloadWords, i, |moves|);
        MulMonotone(s.payloadWords, 0, i);
      } else {
        MulMonotone(s.payloadWords, 0, |moves|);
      }
    }
  }

  // ----- what the launch means -----

  /** Every mapped slot holds the payload of its frame, header dropped. */
  lemma MappedSlotHoldsPayload(s: Shape, raw: seq<Word>, frames: nat, moves: seq<Move>, before: seq<Word>, count: nat,
                               i: nat, word: nat)
    requires FitsShape(s) && |raw| == frames * s.frameWords && SoundMoves(moves, frames, count)
    requires |before| == count * s.payloadWords
    requires i < |moves| && moves[i].Copy? && word < s.payloadWords
    ensures var at := moves[i].destination * s.payloadWords + word;
            && 0 <= at < |before|
            && Expected(s, raw, frames, moves, before, count)[at] == PayloadWord(s, raw, frames, moves[i].source, word)
  {
    MoverUnique(moves, frames, count, i);
    DivUnique(moves[i].destination * s.payloadWords + word, s.payloadWords, moves[i].destination, word);
    MulStep(s.payloadWords, moves[i].destination, count);
    MulMonotone(s.payloadWords, 0, moves[i].destination);
  }

  /** Slots no entry maps to keep their words. */
  lemma UnmappedSlotKept(s: Shape, raw: seq<Word>, frames: nat, moves: seq<Move>, before: seq<Word>, count: nat,
                         slot: nat, word: nat)
    requires FitsShape(s) && |raw| == frames * s.frameWords && SoundMoves(moves, frames, count)
    requires |before| == count * s.payloadWords && slot < count && word < s.payloadWords
    requires forall i :: 0 <= i < |moves| && moves[i].Copy? ==> moves[i].destination != slot
    ensures var at := slot * s.payloadWords + word;
            0 <= at < |before| && Expected(s, raw, frames, moves, before, count)[at] == before[at]
  {
    DivUnique(slot * s.payloadWords + word, s.payloadWords, slot, word);
    MulStep(s.payloadWords, slot, count);
    MulMonotone(s.payloadWords, 0, slot);
  }

  /** Validity is the complement of bit 31 of the first header word. */
  lemma ValidityOfMappedSlot(s: Shape, raw: seq<Word>, frames: nat, moves: seq<Move>, before: seq<bool>, i: nat)
    requires FitsShape(s) && |raw| == frames * s.frameWords && SoundMoves(moves, frames, |before|)
    requires i < |moves| && moves[i].Copy?
    ensures ExpectedValidity(s, raw, frames, moves, before)[moves[i].destination]
            == FrameValid(s, raw, frames, moves[i].source)
  {
    MoverUnique(moves, frames, |before|, i);
  }

  // ----- the moves are the writes that slicing preserves -----

  /** Entry i of a file mapping moves a frame exactly when Slicing says it writes. */
  lemma MoveIsWrite(f: FilePlan, slotCount: nat, i: nat, w: Write)
    requires ShapeFits(f) && i < |f.slots.value|
    ensures KernelWrites(f, slotCount, i, w) <==>
      var move := Moves(f.sources, f.slots.value, f.frameCount, slotCount)[i];
      move.Copy? && w == Write(move.destination, Source(f.path, f.firstFrame + move.source))
  {
  }

  /** Where a mapped entry stands among the selected ones. */
  lemma {:induction false} SelectedPosition(f: FilePlan, i: nat, n: nat)
    requires ShapeFits(f) && i < n <= |f.slots.value| && f.slots.value[i] >= 0
    ensures |SelectedUpTo(f, i)| < |SelectedUpTo(f, n)|
    ensures SelectedUpTo(f, n)[|SelectedUpTo(f, i)|].slot == f.slots.value[i]
  {
    if i < n - 1 {
      SelectedPosition(f, i, n - 1);
    }
  }

  lemma MappedSlotsDiffer(files: seq<FilePlan>, k: nat, i: nat, j: nat)
    requires k < |files| && DistinctSlots(PlanSelected(files, |files|)) && ShapeFits(files[k])
    requires i < j < |files[k].slots.value| && files[k].slots.value[i] >= 0 && files[k].slots.value[j] >= 0
    ensures files[k].slots.value[i] != files[k].slots.value[j]
  {
    var f := files[k];
    var n := |f.slots.value|;
    SelectedPosition(f, i, n);
    SelectedPosition(f, j, n);
    SelectedPosition(f, i, j);
    var a := PlanSelectedMembers(files, |files|, k, |SelectedUpTo(f, i)|);
    var b := PlanSelectedMembers(files, |files|, k, |SelectedUpTo(f, j)|);
  }

  /** Every file of an accepted plan is safe to launch. */
  lemma AcceptedMovesSound(group: seq<Plan>, p: nat, k: nat)
    requires FineGroup(group) && Uniform(group) && p < |group| && k < |group[0].files|
    ensures ShapeFits(group[p].files[k]) && group[p].slotCount >= 0
    ensures var f := group[p].files[k];
            SoundMoves(Moves(f.sources, f.slots.value, f.frameCount, group[p].slotCount), f.frameCount, group[p].slotCount)
  {
    AcceptedFile(group, p, k);
    GroupShape(group);
    hide FineGroup, PlanSelected;
    var f := group[p].files[k];
    var moves := Moves(f.sources, f.slots.value, f.frameCount, group[p].slotCount);
    forall i | 0 <= i < |moves| && moves[i].Copy?
      ensures moves[i].source < f.frameCount && moves[i].destination < group[p].slotCount
    {
      MappedInRange(f, group[p].slotCount, i);
    }
    forall i, j | 0 <= i < j < |moves| && moves[i].Copy? && moves[j].Copy?
      ensures moves[i].destination != moves[j].destination
    {
      MappedSlotsDiffer(group[p].files, k, i, j);
    }
  }

  lemma MappedInRange(f: FilePlan, slotCount: nat, i: nat)
    requires InRange(f, slotCount) && i < |f.slots.value|
    ensures var move := Moves(f.sources, f.slots.value, f.frameCount, slotCount)[i];
            move.Copy? ==> move.source < f.frameCount && move.destination < slotCount
  {
    if f.slots.value[i] >= 0 {
      var e := Entry(SourceOf(f, i), f.slots.value[i]);
      assert Picks(f, i, e);
      SelectedMembers(f, |f.slots.value|, e);
    }
  }
}
