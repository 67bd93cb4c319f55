/** The strict frame reader of the capture proxy (scripts/nhk_tls_proxy.py), and its agreement
    with the tolerant transport. */
module StrictReader {
  import opened Prelude
  import opened Framing

  const MAX_FRAME_BYTES: nat := 1024 * 1024
  const RECV_BYTES: nat := 65536

  /** A frame, the empty bytes at the end of the stream, or a ValueError. */
  datatype Answer = Frame(frame: Bytes) | Eof | TooLarge | MissingStart | Incomplete

  /** `read` on a buffer and the chunks still to come; an empty chunk, or no more chunks, is
      the end of the stream.  Gives the buffer and the chunks it leaves, and its answer. */
  function Read(buffer: Bytes, chunks: seq<Bytes>): (r: (Bytes, seq<Bytes>, Answer))
    ensures |r.1| <= |chunks|
    ensures r.2.Frame? ==> |r.1| < |chunks| || |r.0| < |buffer|
    decreases |chunks|
  {
    match IndexOf(buffer, ETX, 0)
    case Some(end) =>
      if end + 1 > MAX_FRAME_BYTES then (buffer, chunks, TooLarge)
      else if buffer[0] != STX then (buffer[end + 1..], chunks, MissingStart)
      else (buffer[end + 1..], chunks, Frame(buffer[..end + 1]))
    case None =>
      if |buffer| > MAX_FRAME_BYTES then (buffer, chunks, TooLarge)
      else if chunks == [] || chunks[0] == [] then (buffer, chunks, if buffer == [] then Eof else Incomplete)
      else Read(buffer + chunks[0], chunks[1..])
  }

  function Flat(parts: seq<Bytes>): Bytes
  {
    if parts == [] then [] else parts[0] + Flat(parts[1..])
  }

  predicate NoEmptyChunk(chunks: seq<Bytes>)
  {
    forall i :: 0 <= i < |chunks| ==> chunks[i] != []
  }

  /** Reading to the end: the frames, and the answer that ended it. */
  function ReadAll(buffer: Bytes, chunks: seq<Bytes>): (seq<Bytes>, Answer)
    decreases |chunks|, |buffer|
  {
    var (rest, left, answer) := Read(buffer, chunks);
    if answer.Frame? then
      var (frames, last) := ReadAll(rest, left);
      ([answer.frame] + frames, last)
    else ([], answer)
  }

  class FrameReader {
    var buffer: Bytes

    constructor ()
      ensures buffer == []
    {
      buffer := [];
    }

    /** Returns no frame above the limit, and never lets its buffer outgrow the limit by more
        than one `recv`; its frames are complete frames. */
    method ReadFrame(chunks: seq<Bytes>) returns (answer: Answer, left: seq<Bytes>)
      requires |buffer| <= MAX_FRAME_BYTES + RECV_BYTES
      requires forall i :: 0 <= i < |chunks| ==> |chunks[i]| <= RECV_BYTES
      modifies this
      ensures (buffer, left, answer) == Read(old(buffer), chunks)
      ensures |buffer| <= MAX_FRAME_BYTES + RECV_BYTES
      ensures answer.Frame? ==> |answer.frame| <= MAX_FRAME_BYTES && IsFrame(answer.frame)
    {
      left := chunks;
      while true
        invariant Read(buffer, left) == Read(old(buffer), chunks)
        invariant |buffer| <= MAX_FRAME_BYTES + RECV_BYTES
        invariant forall i :: 0 <= i < |left| ==> |left[i]| <= RECV_BYTES
        decreases |left|
      {
        var end := IndexOf(buffer, ETX, 0);
        if end.Some? {
          if end.value + 1 > MAX_FRAME_BYTES {
            return TooLarge, left;
          }
          var frame := buffer[..end.value + 1];
          ghost var front := buffer[..end.value];
          assert frame[..|frame| - 1] == front && Free(front, ETX);
          buffer := buffer[end.value + 1..];
          if frame[0] != STX {
            return MissingStart, left;
          }
          return Frame(frame), left;
        }
        if |buffer| > MAX_FRAME_BYTES {
          return TooLarge, left;
        }
        if left == [] || left[0] == [] {
          if buffer != [] {
            return Incomplete, left;
          }
          return Eof, left;
        }
        buffer := buffer + left[0];
        left := left[1..];
      }
    }
  }

  // ----- which streams it accepts -----

  predicate AllAcceptable(frames: seq<Bytes>)
  {
    forall i :: 0 <= i < |frames| ==> IsFrame(frames[i]) && |frames[i]| <= MAX_FRAME_BYTES
  }

  lemma {:induction false} FlatSplits(a: seq<Bytes>, b: seq<Bytes>)
    ensures Flat(a + b) == Flat(a) + Flat(b)
  {
    if a == [] {
      assert a + b == b;
    } else {
      assert (a + b)[1..] == a[1..] + b;
      FlatSplits(a[1..], b);
    }
  }

  /** One read, whatever the chunks: a frame is cut off the front of the stream, the end of the
      stream is reported only when nothing is left, and a stream that begins with an acceptable
      frame gives that frame. */
  lemma {:induction false} ReadMeans(buffer: Bytes, chunks: seq<Bytes>)
    requires NoEmptyChunk(chunks)
    ensures var (rest, left, answer) := Read(buffer, chunks);
            && NoEmptyChunk(left)
            && (answer.Frame? ==> IsFrame(answer.frame) && |answer.frame| <= MAX_FRAME_BYTES
                                  && buffer + Flat(chunks) == answer.frame + (rest + Flat(left)))
            && (answer.Eof? <==> buffer + Flat(chunks) == [])
    decreases |chunks|
  {
    match IndexOf(buffer, ETX, 0)
    case Some(end) =>
      var frame := buffer[..end + 1];
      assert frame[..|frame| - 1] == buffer[..end];
      assert Free(buffer[..end], ETX);
      assert buffer == frame + buffer[end + 1..];
      assert buffer + Flat(chunks) == frame + (buffer[end + 1..] + Flat(chunks));
      assert (buffer + Flat(chunks))[end] == ETX;
      if buffer[0] == STX {
        assert frame[|frame| - 1] == ETX && |frame| >= 2;
      }
    case None =>
      if |buffer| <= MAX_FRAME_BYTES && chunks != [] {
        ReadMeans(buffer + chunks[0], chunks[1..]);
        assert (buffer + chunks[0]) + Flat(chunks[1..]) == buffer + Flat(chunks);
      } else if chunks != [] {
        assert (buffer + Flat(chunks))[..|buffer|] == buffer;
      } else {
        assert buffer + [] == buffer;
      }
  }

  /** A stream that begins with an acceptable frame gives that frame, whatever the chunks. */
  lemma {:induction false} ReadTakesFrame(buffer: Bytes, chunks: seq<Bytes>, frame: Bytes, rest: Bytes)
    requires NoEmptyChunk(chunks) && IsFrame(frame) && |frame| <= MAX_FRAME_BYTES
    requires buffer + Flat(chunks) == frame + rest
    ensures Read(buffer, chunks).2 == Frame(frame)
    decreases |chunks|
  {
    var all := buffer + Flat(chunks);
    var n := |frame| - 1;
    assert all[n] == ETX && all[0] == STX;
    assert forall k :: 0 <= k < n ==> all[k] == frame[..n][k];
    if |buffer| > n {
      assert forall k :: 0 <= k <= n ==> buffer[k] == all[k];
      IndexIs(buffer, ETX, 0, n);
      assert buffer[..n + 1] == all[..n + 1] == frame;
    } else {
      assert forall k :: 0 <= k < |buffer| ==> buffer[k] == all[k];
      assert IndexOf(buffer, ETX, 0).None?;
      assert chunks != [];
      assert (buffer + chunks[0]) + Flat(chunks[1..]) == all;
      ReadTakesFrame(buffer + chunks[0], chunks[1..], frame, rest);
    }
  }

  /** The answer to one read is told by the stream alone, whatever the chunks: whether its first ETX
      comes within the limit, and whether it begins with STX. */
  lemma {:induction false} ReadAnswers(buffer: Bytes, chunks: seq<Bytes>)
    requires NoEmptyChunk(chunks)
    ensures var stream := buffer + Flat(chunks);
            var end := IndexOf(stream, ETX, 0);
            Read(buffer, chunks).2
            == if end.Some? && end.value < MAX_FRAME_BYTES then
                 (if stream[0] == STX then Frame(stream[..end.value + 1]) else MissingStart)
               else if |stream| > MAX_FRAME_BYTES then TooLarge
               else if stream == [] then Eof
               else Incomplete
    decreases |chunks|
  {
    hide IndexOf;
    var stream := buffer + Flat(chunks);
    var end := IndexOf(buffer, ETX, 0);
    assert forall k :: 0 <= k < |buffer| ==> stream[k] == buffer[k];
    if end.Some? {
      IndexIs(stream, ETX, 0, end.value);
      assert stream[..end.value + 1] == buffer[..end.value + 1];
    } else if |buffer| > MAX_FRAME_BYTES {
      LateEnd(stream, |buffer|);
    } else if chunks != [] {
      assert (buffer + chunks[0]) + Flat(chunks[1..]) == stream;
      ReadAnswers(buffer + chunks[0], chunks[1..]);
    } else {
      assert stream == buffer;
    }
  }

  lemma {:induction false} LateEnd(stream: Bytes, n: nat)
    requires n <= |stream| && forall k :: 0 <= k < n ==> stream[k] != ETX
    ensures IndexOf(stream, ETX, 0).Some? ==> IndexOf(stream, ETX, 0).value >= n
  {
    hide IndexOf;
  }

  /** What an accepting run returned is the whole stream. */
  lemma {:induction false} AcceptedIsFlat(buffer: Bytes, chunks: seq<Bytes>)
    requires NoEmptyChunk(chunks) && ReadAll(buffer, chunks).1.Eof?
    ensures var frames := ReadAll(buffer, chunks).0;
            AllAcceptable(frames) && Flat(frames) == buffer + Flat(chunks)
    decreases |chunks|, |buffer|
  {
    ReadMeans(buffer, chunks);
    var (rest, left, answer) := Read(buffer, chunks);
    if answer.Frame? {
      AcceptedIsFlat(rest, left);
      var frames := ReadAll(rest, left).0;
      assert ([answer.frame] + frames)[1..] == frames;
    }
  }

  /** And every stream of acceptable frames is accepted, as exactly those frames. */
  lemma {:induction false} FlatIsAccepted(buffer: Bytes, chunks: seq<Bytes>, frames: seq<Bytes>)
    requires NoEmptyChunk(chunks) && AllAcceptable(frames) && Flat(frames) == buffer + Flat(chunks)
    ensures ReadAll(buffer, chunks) == (frames, Eof)
    decreases |frames|
  {
    ReadMeans(buffer, chunks);
    var (rest, left, answer) := Read(buffer, chunks);
    if frames == [] {
      assert buffer + Flat(chunks) == [];
    } else {
      ReadTakesFrame(buffer, chunks, frames[0], Flat(frames[1..]));
      assert frames[0] + Flat(frames[1..]) == frames[0] + (rest + Flat(left));
      CancelFront(frames[0], Flat(frames[1..]), rest + Flat(left));
      FlatIsAccepted(rest, left, frames[1..]);
      assert frames == [frames[0]] + frames[1..];
    }
  }

  lemma {:induction false} CancelFront(front: Bytes, a: Bytes, b: Bytes)
    requires front + a == front + b
    ensures a == b
  {
    assert a == (front + a)[|front|..];
    assert b == (front + b)[|front|..];
  }

  /** Acceptance does not depend on the chunks: a stream is read to its end without an error if
      and only if it is a concatenation of complete frames within the limit, and then those are
      the frames returned. */
  lemma {:induction false} AcceptsExactly(chunks: seq<Bytes>)
    requires NoEmptyChunk(chunks)
    ensures ReadAll([], chunks).1.Eof? <==> exists frames :: AllAcceptable(frames) && Flat(frames) == Flat(chunks)
    ensures forall frames :: AllAcceptable(frames) && Flat(frames) == Flat(chunks) ==> ReadAll([], chunks).0 == frames
  {
    var nothing: Bytes := [];
    assert nothing + Flat(chunks) == Flat(chunks);
    if ReadAll([], chunks).1.Eof? {
      AcceptedIsFlat([], chunks);
    }
    forall frames | AllAcceptable(frames) && Flat(frames) == Flat(chunks) ensures ReadAll([], chunks) == (frames, Eof) {
      FlatIsAccepted([], chunks, frames);
    }
  }

  // ----- agreement with the tolerant reader -----

  lemma {:induction false} FlatIsWoven(frames: seq<Bytes>)
    ensures Flat(frames) == Weave(seq(|frames|, _ => []), frames)
  {
    if frames != [] {
      FlatIsWoven(frames[1..]);
      var nothing: seq<Bytes> := seq(|frames|, _ => []);
      assert nothing[1..] == seq(|frames[1..]|, _ => []);
    }
  }

  /** On every stream the strict reader accepts, both readers yield the same frames and the
      tolerant one is left with an empty buffer. */
  lemma {:induction false} ReadersAgree(chunks: seq<Bytes>)
    requires NoEmptyChunk(chunks) && ReadAll([], chunks).1.Eof?
    ensures Extract(Flat(chunks)) == (ReadAll([], chunks).0, [])
  {
    hide ReadAll, Extract, Flat, IsFrame;
    AcceptedIsFlat([], chunks);
    var frames := ReadAll([], chunks).0;
    var junks: seq<Bytes> := seq(|frames|, _ => []);
    FlatIsWoven(frames);
    var nothing: Bytes := [];
    assert nothing + Flat(chunks) == Flat(chunks);
    assert Flat(chunks) == Weave(junks, frames) + nothing + nothing;
    ExtractIsUnique(Flat(chunks), junks, frames, [], []);
  }
}
