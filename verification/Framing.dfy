/** STX/ETX framing of byte streams: the reference extraction of frames from a stream, what it
    means, and the codec around it (custom_components/nice_bidiwifi/protocol/nhk/codec.py). */
module Framing {
  import opened Prelude

  type Bytes = seq<bv8>

  const STX: bv8 := 0x02
  const ETX: bv8 := 0x03

  /** `bytearray.index(byte, from)`, with None in place of the ValueError. */
  function IndexOf(s: Bytes, b: bv8, from: nat): (r: Option<nat>)
    requires from <= |s|
    ensures r.Some? ==> from <= r.value < |s| && s[r.value] == b && forall k :: from <= k < r.value ==> s[k] != b
    ensures r.None? ==> forall k :: from <= k < |s| ==> s[k] != b
    decreases |s| - from
  {
    if from == |s| then None else if s[from] == b then Some(from) else IndexOf(s, b, from + 1)
  }

  /** One `_buffered_frame`: the buffer it leaves and the frame it takes out. */
  function Buffered(buffer: Bytes): (r: (Bytes, Option<Bytes>))
    ensures r.1.Some? ==> |r.0| < |buffer|
  {
    match IndexOf(buffer, STX, 0)
    case None => ([], None)
    case Some(start) =>
      match IndexOf(buffer, ETX, start + 1)
      case None => (buffer[start..], None)
      case Some(end) => (buffer[end + 1..], Some(buffer[start..end + 1]))
  }

  /** All frames of a stream, and what is left to wait with. */
  function Extract(stream: Bytes): (seq<Bytes>, Bytes)
    decreases |stream|
  {
    var (rest, frame) := Buffered(stream);
    if frame.None? then ([], rest)
    else
      var (frames, tail) := Extract(rest);
      ([frame.value] + frames, tail)
  }

  predicate Free(s: Bytes, b: bv8) { forall k :: 0 <= k < |s| ==> s[k] != b }

  /** STX, no ETX inside, ETX. */
  predicate IsFrame(f: Bytes)
  {
    |f| >= 2 && f[0] == STX && f[|f| - 1] == ETX && Free(f[..|f| - 1], ETX)
  }

  /** What a reader may be left with: nothing, or the beginning of a frame. */
  predicate IsRest(s: Bytes)
  {
    s == [] || (s[0] == STX && Free(s, ETX))
  }

  lemma {:induction false} IndexIs(s: Bytes, b: bv8, from: nat, k: nat)
    requires from <= k < |s| && s[k] == b
    requires forall i :: from <= i < k ==> s[i] != b
    ensures IndexOf(s, b, from) == Some(k)
  {
  }

  /** A complete frame at the front, after junk, is taken out whatever follows. */
  lemma {:induction false} TakesFrame(junk: Bytes, frame: Bytes, s: Bytes)
    requires Free(junk, STX) && IsFrame(frame)
    ensures Buffered(junk + frame + s) == (s, Some(frame))
  {
    var all := junk + frame + s;
    var start, end := |junk|, |junk| + |frame| - 1;
    assert forall i :: 0 <= i < |frame| ==> all[start + i] == frame[i];
    IndexIs(all, STX, 0, start);
    forall i | start + 1 <= i < end ensures all[i] != ETX {
      assert all[i] == frame[..|frame| - 1][i - start];
    }
    IndexIs(all, ETX, start + 1, end);
    assert all[end + 1..] == s;
    assert all[start..end + 1] == frame;
  }

  /** Junk in front of the remainder of a frame, or alone, is dropped. */
  lemma {:induction false} KeepsRest(junk: Bytes, rest: Bytes)
    requires Free(junk, STX) && IsRest(rest)
    ensures Buffered(junk + rest) == (rest, None)
  {
    var all := junk + rest;
    assert forall i :: 0 <= i < |rest| ==> all[|junk| + i] == rest[i];
    if rest == [] {
      assert all == junk;
    } else {
      IndexIs(all, STX, 0, |junk|);
      assert all[|junk|..] == rest;
    }
  }

  lemma {:induction false} FrameCut(s: Bytes, start: nat, end: nat)
    requires start < end < |s| && s[start] == STX && s[end] == ETX
    requires forall k :: start + 1 <= k < end ==> s[k] != ETX
    ensures IsFrame(s[start..end + 1])
    ensures s == s[..start] + s[start..end + 1] + s[end + 1..]
  {
    var frame := s[start..end + 1];
    assert frame[..|frame| - 1] == s[start..end];
    assert Free(s[start..end], ETX);
  }

  /** What one step of the extraction means for the stream. */
  lemma {:induction false} StepMeans(s: Bytes) returns (junk: Bytes)
    ensures var (rest, frame) := Buffered(s);
            && Free(junk, STX)
            && (frame.Some? ==> IsFrame(frame.value) && s == junk + frame.value + rest)
            && (frame.None? ==> IsRest(rest) && s == junk + rest)
  {
    hide IndexOf, IsFrame;
    var start := IndexOf(s, STX, 0);
    junk := if start.Some? then s[..start.value] else s;
    if start.Some? {
      var end := IndexOf(s, ETX, start.value + 1);
      if end.Some? {
        FrameCut(s, start.value, end.value);
      } else {
        assert Free(s[start.value..], ETX);
      }
    } else {
      assert s == s + [];
    }
  }

  /** One step of the extraction. */
  lemma {:induction false} ExtractSteps(s: Bytes, rest: Bytes, frame: Bytes)
    requires Buffered(s) == (rest, Some(frame))
    ensures Extract(s) == ([frame] + Extract(rest).0, Extract(rest).1)
  {
  }

  /** Junk and frames woven into one stream. */
  function Weave(junks: seq<Bytes>, frames: seq<Bytes>): Bytes
    requires |junks| == |frames|
  {
    if frames == [] then [] else junks[0] + frames[0] + Weave(junks[1..], frames[1..])
  }

  /** A stream read as junk without STX between frames, then junk and the start of a frame. */
  predicate Reads(s: Bytes, junks: seq<Bytes>, frames: seq<Bytes>, last: Bytes, rest: Bytes)
  {
    && |junks| == |frames|
    && (forall i :: 0 <= i < |frames| ==> Free(junks[i], STX) && IsFrame(frames[i]))
    && Free(last, STX) && IsRest(rest)
    && s == Weave(junks, frames) + last + rest
  }

  /** There is only one way to read a stream, and extraction finds it. */
  lemma {:induction false} ExtractIsUnique(s: Bytes, junks: seq<Bytes>, frames: seq<Bytes>, last: Bytes, rest: Bytes)
    requires Reads(s, junks, frames, last, rest)
    ensures Extract(s) == (frames, rest)
    decreases |frames|
  {
    hide IsFrame, IsRest, Free, Buffered;
    if frames == [] {
      assert s == last + rest;
      KeepsRest(last, rest);
      assert Extract(s) == ([], rest);
    } else {
      hide Extract;
      var tail := Weave(junks[1..], frames[1..]) + last + rest;
      assert s == junks[0] + frames[0] + tail;
      ExtractTakes(junks[0], frames[0], tail);
      ExtractIsUnique(tail, junks[1..], frames[1..], last, rest);
      assert [frames[0]] + frames[1..] == frames;
    }
  }

  /** Every stream can be read that way. */
  lemma {:induction false} ExtractReads(s: Bytes) returns (junks: seq<Bytes>, last: Bytes)
    ensures Reads(s, junks, Extract(s).0, last, Extract(s).1)
    decreases |s|
  {
    var junk := StepMeans(s);
    var (rest, frame) := Buffered(s);
    if frame.None? {
      junks, last := [], junk;
      assert Extract(s) == ([], rest);
    } else {
      var more;
      more, last := ExtractReads(rest);
      junks := [junk] + more;
      ExtractSteps(s, rest, frame.value);
      ReadsOneMore(s, junk, frame.value, rest, more, Extract(rest).0, last, Extract(rest).1);
    }
  }

  lemma {:induction false} ReadsOneMore(s: Bytes, junk: Bytes, frame: Bytes, after: Bytes,
                                        junks: seq<Bytes>, frames: seq<Bytes>, last: Bytes, rest: Bytes)
    requires s == junk + frame + after && Free(junk, STX) && IsFrame(frame)
    requires Reads(after, junks, frames, last, rest)
    ensures Reads(s, [junk] + junks, [frame] + frames, last, rest)
  {
    assert ([junk] + junks)[1..] == junks && ([frame] + frames)[1..] == frames;
    assert s == junk + frame + Weave(junks, frames) + last + rest;
  }

  /** A stream without a complete frame. */
  lemma {:induction false} ExtractStops(s: Bytes, rest: Bytes)
    requires Buffered(s) == (rest, None)
    ensures Extract(s) == ([], rest)
  {
    hide Buffered;
  }

  lemma {:induction false} FreeConcat(a: Bytes, b: Bytes, x: bv8)
    requires Free(a, x) && Free(b, x)
    ensures Free(a + b, x)
  {
  }

  /** Dropping junk in front changes nothing. */
  lemma {:induction false} JunkDropped(junk: Bytes, s: Bytes)
    requires Free(junk, STX)
    ensures Extract(junk + s) == Extract(s)
  {
    hide Extract, Buffered, Free, IsFrame, IsRest;
    var first := StepMeans(s);
    var (rest, frame) := Buffered(s);
    if frame.None? {
      assert junk + s == (junk + first) + rest;
      FreeConcat(junk, first, STX);
      KeepsRest(junk + first, rest);
      ExtractStops(junk + s, rest);
      ExtractStops(s, rest);
    } else {
      JunkBeforeFrame(junk, first, frame.value, rest);
      assert s == first + frame.value + rest;
      ExtractSteps(junk + s, rest, frame.value);
      ExtractSteps(s, rest, frame.value);
    }
  }

  lemma {:induction false} JunkBeforeFrame(junk: Bytes, first: Bytes, frame: Bytes, rest: Bytes)
    requires Free(junk, STX) && Free(first, STX) && IsFrame(frame)
    ensures Buffered(junk + (first + frame + rest)) == (rest, Some(frame))
  {
    assert junk + (first + frame + rest) == (junk + first) + frame + rest;
    TakesFrame(junk + first, frame, rest);
  }

  /** The frames of `a`, then those that its remainder forms with `b`. */
  function ExtractInTwo(a: Bytes, b: Bytes): (seq<Bytes>, Bytes)
  {
    var (first, kept) := Extract(a);
    var (second, rest) := Extract(kept + b);
    (first + second, rest)
  }

  /** Extraction is incremental: frames can be taken out of the bytes received so far, and the
      remainder stands for those bytes in every possible continuation of the stream. */
  lemma {:induction false} ExtractSplits(a: Bytes, b: Bytes)
    ensures Extract(a + b) == ExtractInTwo(a, b)
    decreases |a|
  {
    hide Extract, Buffered, Free, IsFrame, IsRest;
    var junk := StepMeans(a);
    var (rest, frame) := Buffered(a);
    if frame.None? {
      ExtractStops(a, rest);
      assert a + b == junk + (rest + b);
      JunkDropped(junk, rest + b);
      assert [] + Extract(rest + b).0 == Extract(rest + b).0;
    } else {
      ExtractSplits(rest, b);
      FrameFirst(a, b, junk, frame.value, rest);
    }
  }

  lemma {:induction false} FrameFirst(a: Bytes, b: Bytes, junk: Bytes, frame: Bytes, rest: Bytes)
    requires a == junk + frame + rest && Free(junk, STX) && IsFrame(frame)
    requires Extract(rest + b) == ExtractInTwo(rest, b)
    ensures Extract(a + b) == ExtractInTwo(a, b)
  {
    hide Extract, ExtractInTwo, IsFrame, Free;
    assert a + b == junk + frame + (rest + b);
    ExtractTakes(junk, frame, rest);
    ExtractTakes(junk, frame, rest + b);
    OneMoreFrame(Extract(a), Extract(rest), frame, a, rest, b);
  }

  lemma {:induction false} ExtractTakes(junk: Bytes, frame: Bytes, s: Bytes)
    requires Free(junk, STX) && IsFrame(frame)
    ensures Extract(junk + frame + s) == ([frame] + Extract(s).0, Extract(s).1)
  {
    TakesFrame(junk, frame, s);
    ExtractSteps(junk + frame + s, s, frame);
  }

  lemma {:induction false} OneMoreFrame(whole: (seq<Bytes>, Bytes), part: (seq<Bytes>, Bytes), frame: Bytes,
                                        a: Bytes, rest: Bytes, b: Bytes)
    requires whole == Extract(a) && part == Extract(rest) && whole == ([frame] + part.0, part.1)
    ensures ExtractInTwo(a, b) == ([frame] + ExtractInTwo(rest, b).0, ExtractInTwo(rest, b).1)
  {
    hide Extract;
    var second := Extract(part.1 + b).0;
    assert [frame] + (part.0 + second) == ([frame] + part.0) + second;
  }

  lemma {:induction false} RestIsFixed(rest: Bytes)
    requires IsRest(rest)
    ensures Extract(rest) == ([], rest)
  {
    assert rest == [] + rest;
    KeepsRest([], rest);
  }

  // ----- the codec -----

  /** `frame_xml` on the encoded payload. */
  function FrameXml(payload: Bytes): Bytes { [STX] + payload + [ETX] }

  /** `xml_payload` before decoding: drop one leading STX and one trailing ETX if present. */
  function XmlPayload(frame: Bytes): Bytes
  {
    var payload := if |frame| > 0 && frame[0] == STX then frame[1..] else frame;
    if |payload| > 0 && payload[|payload| - 1] == ETX then payload[..|payload| - 1] else payload
  }

  /** A framed payload gives the payload back, and is one frame exactly when it holds no ETX. */
  lemma {:induction false} FrameRoundTrip(payload: Bytes)
    ensures XmlPayload(FrameXml(payload)) == payload
    ensures IsFrame(FrameXml(payload)) <==> Free(payload, ETX)
  {
    var f := FrameXml(payload);
    assert f[1..] == payload + [ETX];
    assert f[..|f| - 1] == [STX] + payload;
    assert forall i :: 0 <= i < |payload| ==> f[..|f| - 1][i + 1] == payload[i];
  }

  /** What `xml_payload` leaves of any bytes: one STX is taken off the front if it stands there, and
      then one ETX off the end. */
  lemma {:induction false} PayloadStrips(frame: Bytes) returns (front: Bytes, back: Bytes)
    ensures frame == front + XmlPayload(frame) + back
    ensures front == (if frame != [] && frame[0] == STX then [STX] else [])
    ensures back == (if |frame| > |front| && frame[|frame| - 1] == ETX then [ETX] else [])
  {
    front := if frame != [] && frame[0] == STX then [STX] else [];
    back := if |frame| > |front| && frame[|frame| - 1] == ETX then [ETX] else [];
  }

  function FrameAll(payloads: seq<Bytes>): seq<Bytes>
  {
    seq(|payloads|, i requires 0 <= i < |payloads| => FrameXml(payloads[i]))
  }

  /** Any list of ETX-free payloads, framed and sent with STX-free junk between the frames,
      arrives as exactly those payloads. */
  lemma {:induction false} StreamRoundTrip(junks: seq<Bytes>, payloads: seq<Bytes>, last: Bytes)
    requires |junks| == |payloads| && Free(last, STX)
    requires forall i :: 0 <= i < |payloads| ==> Free(junks[i], STX) && Free(payloads[i], ETX)
    ensures Extract(Weave(junks, FrameAll(payloads)) + last) == (FrameAll(payloads), [])
    ensures forall i :: 0 <= i < |payloads| ==> XmlPayload(FrameAll(payloads)[i]) == payloads[i]
  {
    forall i | 0 <= i < |payloads|
      ensures IsFrame(FrameAll(payloads)[i]) && XmlPayload(FrameAll(payloads)[i]) == payloads[i]
    {
      FrameRoundTrip(payloads[i]);
    }
    var s := Weave(junks, FrameAll(payloads)) + last;
    assert s == s + [];
    ExtractIsUnique(s, junks, FrameAll(payloads), last, []);
  }
}
