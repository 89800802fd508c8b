/** The bounded queue between the decoders and playback. */
module FrameQueue {
  import opened Bytes
  import opened MachineInts
  import opened Pcm
  import opened Wave
  import opened Wrappers

  /** A video frame's pixels are only counted. */
  datatype DecodedFrame = Audio(frame: AudioFrame) | Video(timestamp: int, duration: nat, pixelBytes: nat) {
    function Timestamp(): (t: int) {
      if Audio? then frame.timestamp else timestamp
    }

    function Bytes(): (n: nat) {
      if Audio? then SaturatingMul(|frame.samples|, 2) else pixelBytes
    }
  }

  datatype Error = CountBudget | ByteOverflow | ByteBudget | NonMonotonic

  datatype Queue = Queue(maxFrames: nat, maxBytes: nat, frames: seq<DecodedFrame>)

  function TotalBytes(frames: seq<DecodedFrame>): (n: nat) {
    if frames == [] then 0 else TotalBytes(frames[..|frames| - 1]) + frames[|frames| - 1].Bytes()
  }

  predicate Sorted(frames: seq<DecodedFrame>) {
    forall i, j :: 0 <= i < j < |frames| ==> frames[i].Timestamp() <= frames[j].Timestamp()
  }

  ghost predicate Sound(q: Queue) {
    |q.frames| <= q.maxFrames && TotalBytes(q.frames) <= q.maxBytes && Sorted(q.frames)
  }

  function Refusal(q: Queue, frame: DecodedFrame): (e: Option<Error>) {
    if |q.frames| >= q.maxFrames then Some(CountBudget)
    else if TotalBytes(q.frames) + frame.Bytes() > USIZE_MAX then Some(ByteOverflow)
    else if TotalBytes(q.frames) + frame.Bytes() > q.maxBytes then Some(ByteBudget)
    else if q.frames != [] && frame.Timestamp() < q.frames[|q.frames| - 1].Timestamp() then Some(NonMonotonic)
    else None
  }

  function Pushed(q: Queue, frame: DecodedFrame): (after: Queue) {
    if Refusal(q, frame).None? then q.(frames := q.frames + [frame]) else q
  }

  function Popped(q: Queue): (after: Queue) {
    if q.frames == [] then q else q.(frames := q.frames[1..])
  }

  lemma PushKeepsSound(q: Queue, frame: DecodedFrame)
    requires Sound(q)
    ensures Sound(Pushed(q, frame))
  {
    assert (q.frames + [frame])[..|q.frames|] == q.frames;
  }

  lemma {:induction false} TotalSplits(frames: seq<DecodedFrame>)
    requires frames != []
    ensures TotalBytes(frames) == frames[0].Bytes() + TotalBytes(frames[1..])
  {
    var n := |frames| - 1;
    if n > 0 {
      TotalSplits(frames[..n]);
      assert frames[..n][1..] == frames[1..][..n - 1];
    } else {
      assert frames[..0] == [] && frames[1..] == [];
    }
  }

  lemma PopKeepsSound(q: Queue)
    requires Sound(q)
    ensures Sound(Popped(q))
  {
    if q.frames != [] {
      TotalSplits(q.frames);
    }
  }

  class BoundedFrameQueue {
    const maxFrames: nat
    const maxBytes: nat
    var queuedBytes: nat
    var frames: seq<DecodedFrame>

    ghost function View(): (q: Queue)
      reads this
    {
      Queue(maxFrames, maxBytes, frames)
    }

    /** The byte counter is the sum over the queue. */
    ghost predicate Valid()
      reads this
    {
      Sound(View()) && queuedBytes == TotalBytes(frames)
    }

    constructor (maxFrames: nat, maxBytes: nat)
      ensures Valid() && View() == Queue(maxFrames, maxBytes, [])
    {
      this.maxFrames, this.maxBytes := maxFrames, maxBytes;
      queuedBytes, frames := 0, [];
    }

    method Push(frame: DecodedFrame) returns (refused: Option<Error>)
      requires Valid()
      modifies this
      ensures Valid() && View() == Pushed(old(View()), frame) && refused == Refusal(old(View()), frame)
    {
      PushKeepsSound(View(), frame);
      if |frames| >= maxFrames {
        return Some(CountBudget);
      }
      var projected := queuedBytes + frame.Bytes();
      if projected > USIZE_MAX {
        return Some(ByteOverflow);
      }
      if projected > maxBytes {
        return Some(ByteBudget);
      }
      if frames != [] && frame.Timestamp() < frames[|frames| - 1].Timestamp() {
        return Some(NonMonotonic);
      }
      assert (frames + [frame])[..|frames|] == frames;
      frames := frames + [frame];
      queuedBytes := projected;
      refused := None;
    }

    method Pop() returns (frame: Option<DecodedFrame>)
      requires Valid()
      modifies this
      ensures Valid() && View() == Popped(old(View()))
      ensures frame == if old(frames) == [] then None else Some(old(frames)[0])
    {
      PopKeepsSound(View());
      if frames == [] {
        return None;
      }
      TotalSplits(frames);
      var first := frames[0];
      frames := frames[1..];
      queuedBytes := SaturatingSub(queuedBytes, first.Bytes());
      frame := Some(first);
    }

    method Clear()
      modifies this
      ensures Valid() && View() == Queue(maxFrames, maxBytes, [])
    {
      frames, queuedBytes := [], 0;
    }
  }

  // ---- Feeding a stream --------------------------------------------------------------------

  datatype Op = PushNext | PopFirst | ClearAll

  /** The refusals of a run that feeds `frames` in order, popping and clearing at any time. */
  function Refusals(q: Queue, frames: seq<DecodedFrame>, ops: seq<Op>): (r: seq<Error>)
    decreases |ops|
  {
    if ops == [] then []
    else match ops[0]
      case PopFirst => Refusals(Popped(q), frames, ops[1..])
      case ClearAll => Refusals(q.(frames := []), frames, ops[1..])
      case PushNext =>
        if frames == [] then Refusals(q, frames, ops[1..])
        else
          var refused := Refusal(q, frames[0]);
          (if refused.Some? then [refused.value] else []) + Refusals(Pushed(q, frames[0]), frames[1..], ops[1..])
  }

  predicate NotAfter(q: Queue, frames: seq<DecodedFrame>) {
    forall i, j :: 0 <= i < |q.frames| && 0 <= j < |frames| ==> q.frames[i].Timestamp() <= frames[j].Timestamp()
  }

  /** A stream in timestamp order is never refused for its order, whatever pops and refusals come between. */
  lemma {:induction false} OrderIsNeverRefused(q: Queue, frames: seq<DecodedFrame>, ops: seq<Op>)
    requires Sorted(frames) && NotAfter(q, frames)
    ensures NonMonotonic !in Refusals(q, frames, ops)
    decreases |ops|
  {
    if ops != [] {
      match ops[0] {
        case PopFirst => OrderIsNeverRefused(Popped(q), frames, ops[1..]);
        case ClearAll => OrderIsNeverRefused(q.(frames := []), frames, ops[1..]);
        case PushNext =>
          if frames == [] {
            OrderIsNeverRefused(q, frames, ops[1..]);
          } else {
            OrderIsNeverRefused(Pushed(q, frames[0]), frames[1..], ops[1..]);
          }
      }
    }
  }

  function Wrapped(frames: seq<AudioFrame>): (s: seq<DecodedFrame>) {
    seq(|frames|, i requires 0 <= i < |frames| => Audio(frames[i]))
  }

  /** So what the demuxer accepts from any bytes at all is queued without an order refusal. */
  lemma PlayedFramesAreNeverRefused(d: Demuxer, bytes: seq<Byte>, f: PcmFormat, data: seq<Byte>, maxFrames: nat,
                                    maxBytes: nat, ops: seq<Op>)
    requires Wave.Push(d, bytes, true).1 == Ok(Some((f, data)))
    ensures IsPcm(f) && DecodeAll(f, Samples(f, data, 0)).Ok?
    ensures NonMonotonic !in
              Refusals(Queue(maxFrames, maxBytes, []), Wrapped(DecodeAll(f, Samples(f, data, 0)).value), ops)
  {
    AcceptedDataPlays(d, bytes, f, data);
    OrderIsNeverRefused(Queue(maxFrames, maxBytes, []), Wrapped(DecodeAll(f, Samples(f, data, 0)).value), ops);
  }
}
