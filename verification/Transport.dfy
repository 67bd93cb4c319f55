/** The incremental stream reader of the integration
    (custom_components/nice_bidiwifi/transport/lan.py).  A script says what the socket's `recv`
    calls bring. */
module Transport {
  import opened Prelude
  import opened Framing

  // ----- SocketFrameTransport -----

  /** One `recv`: bytes (none at all when the peer closed), a timeout, or another OSError. */
  datatype Recv = Data(bytes: Bytes) | TimedOut | Broken

  /** The result of `read_frame`: a frame, the empty bytes, or an OSError. */
  datatype Got = Frame(frame: Bytes) | Nothing | Raised

  /** The receiving loop on a buffer without a complete frame: the buffer it leaves, how many
      results it used, and what it returns.  A script that ends is a socket that times out. */
  function Receive(buffer: Bytes, script: seq<Recv>): (r: (Bytes, nat, Got))
    ensures r.1 <= |script|
    decreases |script|
  {
    if script == [] then (buffer, 0, Nothing)
    else match script[0]
         case TimedOut => (buffer, 1, Nothing)
         case Broken => (buffer, 1, Raised)
         case Data(chunk) =>
           if chunk == [] then (buffer, 1, Raised)
           else
             var (rest, frame) := Buffered(buffer + chunk);
             if frame.Some? then (rest, 1, Frame(frame.value))
             else
               var more := Receive(rest, script[1..]);
               (more.0, more.1 + 1, more.2)
  }

  /** `read_frame`. */
  function ReadStep(buffer: Bytes, open: bool, script: seq<Recv>): (r: (Bytes, nat, Got))
    ensures r.1 <= |script|
  {
    var (rest, frame) := Buffered(buffer);
    if frame.Some? then (rest, 0, Frame(frame.value))
    else if !open then (rest, 0, Nothing)
    else Receive(rest, script)
  }

  function Received(script: seq<Recv>): Bytes
  {
    if script == [] then []
    else (if script[0].Data? then script[0].bytes else []) + Received(script[1..])
  }

  /** After a read, the bytes that were buffered or arrived amount to the returned frame, if
      any, followed by what is buffered now; a read without a frame leaves no complete frame. */
  predicate Accounts(stream: Bytes, buffer: Bytes, got: Got)
  {
    match got
    case Frame(frame) => Extract(stream) == ([frame] + Extract(buffer).0, Extract(buffer).1)
    case _ => Extract(stream) == ([], buffer) && IsRest(buffer)
  }

  lemma {:induction false} BufferedAccounts(buffer: Bytes)
    ensures var (rest, frame) := Buffered(buffer);
            Accounts(buffer, rest, if frame.Some? then Frame(frame.value) else Nothing)
  {
    var (rest, frame) := Buffered(buffer);
    var junk := StepMeans(buffer);
    if frame.Some? {
      ExtractSteps(buffer, rest, frame.value);
    }
  }

  /** If `a` holds no frame and comes down to `rest`, more bytes may be read behind `rest`. */
  lemma {:induction false} ContinueFromRest(a: Bytes, rest: Bytes, b: Bytes)
    requires Extract(a) == ([], rest)
    ensures Extract(a + b) == Extract(rest + b)
  {
    hide Extract;
    ExtractSplits(a, b);
    assert [] + Extract(rest + b).0 == Extract(rest + b).0;
  }

  /** One turn of the receiving loop. */
  lemma {:induction false} ReceiveOne(buffer: Bytes, script: seq<Recv>, i: nat)
    requires i < |script|
    ensures Receive(buffer, script[i..])
            == match script[i]
               case TimedOut => (buffer, 1, Nothing)
               case Broken => (buffer, 1, Raised)
               case Data(chunk) =>
                 if chunk == [] then (buffer, 1, Raised)
                 else
                   var (rest, frame) := Buffered(buffer + chunk);
                   if frame.Some? then (rest, 1, Frame(frame.value))
                   else
                     var more := Receive(rest, script[i + 1..]);
                     (more.0, more.1 + 1, more.2)
  {
    hide Buffered;
    assert script[i..][0] == script[i] && script[i..][1..] == script[i + 1..];
  }

  lemma {:induction false} ReceiveAccounts(buffer: Bytes, script: seq<Recv>)
    requires IsRest(buffer)
    ensures var (rest, used, got) := Receive(buffer, script);
            Accounts(buffer + Received(script[..used]), rest, got)
    decreases |script|
  {
    hide Extract, Buffered;
    var (rest, used, got) := Receive(buffer, script);
    if script == [] || used == 1 {
      assert used == 1 ==> script[..1][0] == script[0] && Received(script[..1][1..]) == [];
    }
    if script == [] || !script[0].Data? || script[0].bytes == [] {
      RestIsFixed(buffer);
      assert buffer + [] == buffer;
      assert Received(script[..used]) == [];
    } else {
      var chunk := script[0].bytes;
      BufferedAccounts(buffer + chunk);
      var (kept, frame) := Buffered(buffer + chunk);
      if frame.Some? {
        assert Received(script[..1]) == chunk + [];
        assert buffer + Received(script[..1]) == buffer + chunk;
      } else {
        ReceiveAccounts(kept, script[1..]);
        var later := Received(script[1..][..used - 1]);
        assert script[..used][1..] == script[1..][..used - 1];
        assert buffer + Received(script[..used]) == (buffer + chunk) + later;
        ContinueFromRest(buffer + chunk, kept, later);
      }
    }
  }

  lemma {:induction false} ReadAccounts(buffer: Bytes, open: bool, script: seq<Recv>)
    ensures var (rest, used, got) := ReadStep(buffer, open, script);
            Accounts(buffer + Received(script[..used]), rest, got)
  {
    hide Extract, Buffered;
    BufferedAccounts(buffer);
    assert buffer + [] == buffer;
    var (rest, frame) := Buffered(buffer);
    if frame.None? && open {
      ReceiveAccounts(rest, script);
      ContinueFromRest(buffer, rest, Received(script[..ReadStep(buffer, open, script).1]));
    }
  }

  /** Frames delivered so far and the buffer stand for every byte received so far. */
  predicate Faithful(received: Bytes, delivered: seq<Bytes>, buffer: Bytes)
  {
    Extract(received) == (delivered + Extract(buffer).0, Extract(buffer).1)
  }

  lemma {:induction false} NothingIsFaithful()
    ensures Faithful([], [], [])
  {
    RestIsFixed([]);
    var none: seq<Bytes> := [];
    assert none + none == none;
  }

  /** And they keep standing for it, whatever arrives later. */
  lemma {:induction false} FaithfulForever(received: Bytes, delivered: seq<Bytes>, buffer: Bytes, later: Bytes)
    requires Faithful(received, delivered, buffer)
    ensures Faithful(received + later, delivered, buffer + later)
  {
    hide Extract;
    ExtractSplits(received, later);
    ExtractSplits(buffer, later);
    var (f, r) := Extract(buffer);
    var more := Extract(r + later).0;
    assert (delivered + f) + more == delivered + (f + more);
  }

  lemma {:induction false} ReadStaysFaithful(received: Bytes, delivered: seq<Bytes>, buffer: Bytes,
                                             open: bool, script: seq<Recv>)
    requires Faithful(received, delivered, buffer)
    ensures var (rest, used, got) := ReadStep(buffer, open, script);
            Faithful(received + Received(script[..used]),
                     if got.Frame? then delivered + [got.frame] else delivered, rest)
  {
    hide Extract, ReadStep;
    var (rest, used, got) := ReadStep(buffer, open, script);
    FaithfulForever(received, delivered, buffer, Received(script[..used]));
    ReadAccounts(buffer, open, script);
    if got.Frame? {
      assert delivered + ([got.frame] + Extract(rest).0) == (delivered + [got.frame]) + Extract(rest).0;
    } else {
      RestIsFixed(rest);
    }
  }

  class SocketFrameTransport {
    var open: bool
    var buffer: Bytes
    ghost var received: Bytes
    ghost var delivered: seq<Bytes>

    constructor ()
      ensures open && buffer == [] && received == [] && delivered == []
      ensures Faithful(received, delivered, buffer)
    {
      open, buffer, received, delivered := true, [], [], [];
      NothingIsFaithful();
    }

    method BufferedFrame() returns (frame: Option<Bytes>)
      modifies this`buffer
      ensures (buffer, frame) == Buffered(old(buffer))
    {
      var start := IndexOf(buffer, STX, 0);
      if start.None? {
        buffer := [];
        return None;
      }
      var end := IndexOf(buffer, ETX, start.value + 1);
      if end.None? {
        if start.value > 0 {
          buffer := buffer[start.value..];
        }
        return None;
      }
      frame := Some(buffer[start.value..end.value + 1]);
      buffer := buffer[end.value + 1..];
    }

    /** The receiving loop of `read_frame`. */
    method ReceiveLoop(script: seq<Recv>) returns (got: Got, used: nat)
      modifies this`buffer
      ensures (buffer, used, got) == Receive(old(buffer), script)
    {
      ghost var kept := buffer;
      used := 0;
      while used < |script|
        invariant used <= |script|
        invariant var more := Receive(buffer, script[used..]);
                  Receive(kept, script) == (more.0, more.1 + used, more.2)
      {
        hide Buffered, Receive;
        var result := script[used];
        ReceiveOne(buffer, script, used);
        used := used + 1;
        match result
        case TimedOut => return Nothing, used;
        case Broken => return Raised, used;
        case Data(chunk) =>
          if chunk == [] {
            return Raised, used;
          }
          buffer := buffer + chunk;
          var frame := BufferedFrame();
          if frame.Some? {
            return Frame(frame.value), used;
          }
      }
      return Nothing, used;
    }

    /** Delivers the next frame of the stream or leaves the buffer waiting for it. */
    method ReadFrame(script: seq<Recv>) returns (got: Got, used: nat)
      requires Faithful(received, delivered, buffer)
      modifies this`buffer, this`received, this`delivered
      ensures (buffer, used, got) == ReadStep(old(buffer), open, script)
      ensures received == old(received) + Received(script[..used])
      ensures delivered == if got.Frame? then old(delivered) + [got.frame] else old(delivered)
      ensures Faithful(received, delivered, buffer)
      ensures !got.Frame? ==> IsRest(buffer)
    {
      hide Buffered, Receive, Extract;
      ReadStaysFaithful(received, delivered, buffer, open, script);
      ReadAccounts(buffer, open, script);
      var frame := BufferedFrame();
      if frame.Some? {
        got, used := Frame(frame.value), 0;
      } else if !open {
        got, used := Nothing, 0;
      } else {
        got, used := ReceiveLoop(script);
      }
      received := received + Received(script[..used]);
      if got.Frame? {
        delivered := delivered + [got.frame];
      }
    }

    method Close()
      modifies this`open, this`buffer
      ensures !open && buffer == []
    {
      open, buffer := false, [];
    }
  }

  // ----- when a read returns, and with what -----

  predicate Arrives(recv: Recv) { recv.Data? && recv.bytes != [] }

  /** A read without a frame in its buffer receives until the first frame is complete, or until a
      result that is not data: a timeout, or the end of the script, returns nothing, and a closed or
      broken connection raises. */
  ghost predicate Waits(buffer: Bytes, script: seq<Recv>, used: nat, got: Got)
    requires used <= |script|
  {
    && (forall i :: 0 <= i < used - 1 ==> Arrives(script[i]))
    && (forall i :: 0 <= i < used ==> Extract(buffer + Received(script[..i])).0 == [])
    && match got
       case Frame(frame) =>
         used > 0 && Arrives(script[used - 1])
         && Extract(buffer + Received(script[..used])).0 != []
         && Extract(buffer + Received(script[..used])).0[0] == frame
       case Nothing =>
         || (used == |script| && (used > 0 ==> Arrives(script[used - 1])))
         || (used > 0 && script[used - 1] == TimedOut)
       case Raised => used > 0 && (script[used - 1] == Broken || script[used - 1] == Data([]))
  }

  lemma {:induction false} ReceivedNext(script: seq<Recv>, i: nat)
    requires 1 <= i <= |script| && script[0].Data?
    ensures Received(script[..i]) == script[0].bytes + Received(script[1..][..i - 1])
  {
    assert script[..i][1..] == script[1..][..i - 1];
  }

  lemma {:induction false} ReceiveWaits(buffer: Bytes, script: seq<Recv>)
    requires IsRest(buffer)
    ensures Waits(buffer, script, Receive(buffer, script).1, Receive(buffer, script).2)
    decreases |script|
  {
    hide Extract, Buffered, Received;
    var (rest, used, got) := Receive(buffer, script);
    ReceiveAccounts(buffer, script);
    RestIsFixed(buffer);
    NothingReceived(script);
    assert buffer + [] == buffer;
    if script != [] && Arrives(script[0]) && Buffered(buffer + script[0].bytes).1.None? {
      var a, kept := buffer + script[0].bytes, Buffered(buffer + script[0].bytes).0;
      BufferedAccounts(a);
      ReceiveWaits(kept, script[1..]);
      forall i | 1 <= i <= used
        ensures Extract(buffer + Received(script[..i])) == Extract(kept + Received(script[1..][..i - 1]))
      {
        ReceivedNext(script, i);
        assert buffer + Received(script[..i]) == a + Received(script[1..][..i - 1]);
        ContinueFromRest(a, kept, Received(script[1..][..i - 1]));
      }
      assert forall i :: 1 <= i < |script| ==> script[i] == script[1..][i - 1];
    }
  }

  lemma {:induction false} NothingReceived(script: seq<Recv>)
    ensures Received(script[..0]) == []
  {
  }

  /** What a read returns.  A frame in the buffer comes first, and nothing is received; a closed
      transport returns nothing else. */
  lemma {:induction false} ReadReturns(buffer: Bytes, open: bool, script: seq<Recv>)
    ensures var (rest, used, got) := ReadStep(buffer, open, script);
            if Extract(buffer).0 != [] then used == 0 && got == Frame(Extract(buffer).0[0])
            else if !open then used == 0 && got == Nothing
            else Waits(buffer, script, used, got)
  {
    hide Extract, Buffered, Receive, Received;
    var (rest, frame) := Buffered(buffer);
    BufferedAccounts(buffer);
    if frame.None? && open {
      ReceiveWaits(rest, script);
      forall i | 0 <= i <= Receive(rest, script).1
        ensures Extract(buffer + Received(script[..i])) == Extract(rest + Received(script[..i]))
      {
        ContinueFromRest(buffer, rest, Received(script[..i]));
      }
    }
  }

  // ----- whole sessions -----

  datatype Session = Session(buffer: Bytes, received: Bytes, delivered: seq<Bytes>, last: Got)

  /** Any number of `read_frame` calls, each with its own chunks and timeouts. */
  function Reads(scripts: seq<seq<Recv>>): Session
  {
    if scripts == [] then Session([], [], [], Nothing)
    else
      var s := Reads(scripts[..|scripts| - 1]);
      var script := scripts[|scripts| - 1];
      var (rest, used, got) := ReadStep(s.buffer, true, script);
      Session(rest, s.received + Received(script[..used]),
              if got.Frame? then s.delivered + [got.frame] else s.delivered, got)
  }

  /** Chunking does not matter: whatever the chunks and timeouts, the frames delivered and the
      frames still to come out of the buffer are those of the whole stream, for every
      continuation; after a read without a frame the buffer is empty or the start of a frame. */
  lemma {:induction false} ChunkingDoesNotMatter(scripts: seq<seq<Recv>>, later: Bytes)
    ensures var s := Reads(scripts);
            && Faithful(s.received, s.delivered, s.buffer)
            && Faithful(s.received + later, s.delivered, s.buffer + later)
            && (scripts != [] && !s.last.Frame? ==> IsRest(s.buffer))
  {
    hide Extract, Faithful, ReadStep;
    var s := Reads(scripts);
    if scripts == [] {
      NothingIsFaithful();
    } else {
      var before := Reads(scripts[..|scripts| - 1]);
      ChunkingDoesNotMatter(scripts[..|scripts| - 1], later);
      ReadStaysFaithful(before.received, before.delivered, before.buffer, true, scripts[|scripts| - 1]);
      ReadAccounts(before.buffer, true, scripts[|scripts| - 1]);
    }
    FaithfulForever(s.received, s.delivered, s.buffer, later);
  }

  /** So two drained sessions over the same bytes delivered the same frames and wait alike. */
  lemma {:induction false} SameBytesSameFrames(a: seq<seq<Recv>>, b: seq<seq<Recv>>)
    requires a != [] && b != [] && !Reads(a).last.Frame? && !Reads(b).last.Frame?
    requires Reads(a).received == Reads(b).received
    ensures Reads(a).delivered == Reads(b).delivered && Reads(a).buffer == Reads(b).buffer
  {
    hide Extract;
    ChunkingDoesNotMatter(a, []);
    ChunkingDoesNotMatter(b, []);
    RestIsFixed(Reads(a).buffer);
    RestIsFixed(Reads(b).buffer);
    assert Reads(a).delivered + [] == Reads(a).delivered;
    assert Reads(b).delivered + [] == Reads(b).delivered;
  }
}
