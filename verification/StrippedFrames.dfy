/**
 * What the strip-scatter kernels do to raw frames written one after the other: a frame
 * is a header of eight 32-bit words (VDIF Specification, Release 1.1.1), its payload,
 * and whatever fills it up. A mapped slot then holds the payload, and its validity is
 * the header's invalid flag, bit 31 of the first word, turned round.
 */
module StrippedFrames {
  import opened Arithmetic
  import opened StripScatter

  type Half = h: int | 0 <= h < 0x1_0000_0000

  datatype RawFrame = RawFrame(header: seq<Half>, payload: seq<Word>, filling: seq<Word>)

  /** Two 32-bit words in memory order are one 64-bit word, the first the lower half. */
  function Joined(low: int, high: int): int {
    low + 0x1_0000_0000 * high
  }

  function Pairs(halves: seq<Half>): (r: seq<Word>)
    ensures |r| == |halves| / 2
  {
    seq(|halves| / 2, i requires 0 <= i < |halves| / 2 => Joined(halves[2 * i], halves[2 * i + 1]))
  }

  function FrameWords(f: RawFrame): seq<Word> {
    Pairs(f.header) + f.payload + f.filling
  }

  /** Frames of one file: all of the same shape. */
  predicate OfShape(s: Shape, frames: seq<RawFrame>) {
    forall k :: 0 <= k < |frames| ==>
      |frames[k].header| == 8 && |frames[k].payload| == s.payloadWords && |FrameWords(frames[k])| == s.frameWords
  }

  function Written(frames: seq<RawFrame>, n: nat): seq<Word>
    requires n <= |frames|
  {
    if n == 0 then [] else Written(frames, n - 1) + FrameWords(frames[n - 1])
  }

  lemma {:induction false} WrittenLength(s: Shape, frames: seq<RawFrame>, n: nat)
    requires OfShape(s, frames) && n <= |frames|
    ensures |Written(frames, n)| == n * s.frameWords
  {
    if n > 0 {
      WrittenLength(s, frames, n - 1);
      assert n * s.frameWords == (n - 1) * s.frameWords + s.frameWords;
    }
  }

  lemma {:induction false} WrittenAt(s: Shape, frames: seq<RawFrame>, n: nat, k: nat, x: nat)
    requires OfShape(s, frames) && k < n <= |frames| && x < s.frameWords
    ensures k * s.frameWords + x < |Written(frames, n)|
    ensures Written(frames, n)[k * s.frameWords + x] == FrameWords(frames[k])[x]
  {
    hide FrameWords;
    WrittenLength(s, frames, n);
    WrittenLength(s, frames, n - 1);
    MulStep(s.frameWords, k, n);
    if k < n - 1 {
      WrittenAt(s, frames, n - 1, k, x);
    }
  }

  /** Frames with payload fit the kernels' shape. */
  lemma WrittenFits(s: Shape, frames: seq<RawFrame>)
    requires OfShape(s, frames) && frames != [] && s.payloadWords > 0
    ensures FitsShape(s) && |Written(frames, |frames|)| == |frames| * s.frameWords
  {
    WrittenLength(s, frames, |frames|);
    assert |FrameWords(frames[0])| == s.frameWords;
  }

  /** After the launch a mapped slot holds its frame's payload, word for word. */
  lemma SlotHoldsPayload(s: Shape, frames: seq<RawFrame>, moves: seq<Move>, before: seq<Word>, count: nat, i: nat, word: nat)
    requires OfShape(s, frames) && s.payloadWords > 0 && SoundMoves(moves, |frames|, count)
    requires |before| == count * s.payloadWords
    requires i < |moves| && moves[i].Copy? && word < s.payloadWords
    ensures FitsShape(s) && |Written(frames, |frames|)| == |frames| * s.frameWords
    ensures var at := moves[i].destination * s.payloadWords + word;
            && 0 <= at < |before|
            && Expected(s, Written(frames, |frames|), |frames|, moves, before, count)[at]
               == frames[moves[i].source].payload[word]
  {
    WrittenFits(s, frames);
    MappedSlotHoldsPayload(s, Written(frames, |frames|), |frames|, moves, before, count, i, word);
    var f := frames[moves[i].source];
    WrittenAt(s, frames, |frames|, moves[i].source, |Pairs(f.header)| + word);
  }

  /** A frame whose header does not raise the invalid flag, and no other, is marked valid. */
  lemma SlotIsValid(s: Shape, frames: seq<RawFrame>, moves: seq<Move>, before: seq<bool>, i: nat)
    requires OfShape(s, frames) && s.payloadWords > 0 && SoundMoves(moves, |frames|, |before|)
    requires i < |moves| && moves[i].Copy?
    ensures FitsShape(s) && |Written(frames, |frames|)| == |frames| * s.frameWords
    ensures ExpectedValidity(s, Written(frames, |frames|), |frames|, moves, before)[moves[i].destination]
            <==> frames[moves[i].source].header[0] < 0x8000_0000
  {
    WrittenFits(s, frames);
    ValidityOfMappedSlot(s, Written(frames, |frames|), |frames|, moves, before, i);
    var f := frames[moves[i].source];
    WrittenAt(s, frames, |frames|, moves[i].source, 0);
    FlagOf(f.header[0], f.header[1]);
  }

  /** Bit 31 of a pair is the top bit of its lower half. */
  lemma FlagOf(low: Half, high: Half)
    ensures Joined(low, high) / 0x8000_0000 % 2 == 0 <==> low < 0x8000_0000
  {
    var bit := if low < 0x8000_0000 then 0 else 1;
    DivUnique(Joined(low, high), 0x8000_0000, 2 * high + bit, low - 0x8000_0000 * bit);
  }
}
