/** What the client promises over whole runs: a legal wire trace, request identifiers that are
    never reused within a session, no leaked transport, and commands sent at most once. */
module ClientRuns {
  import opened Prelude
  import opened Client

  // ----- an automaton that accepts exactly the legal wire traces -----

  /** `Down(n)`: no transport, the next one is number `n`.  `Up(e, last)`: transport `e` is
      open and `last` is the identifier sent last on it. */
  datatype Line = Down(next: nat) | Up(epoch: nat, last: Option<nat>)

  /** CONNECT with identifier 0 comes first on every transport and once; everything after it
      carries a strictly larger identifier of at least 256; nothing is sent on a closed
      transport, and the next transport is opened only after the previous one was closed. */
  function Next(line: Line, event: Wire): Option<Line>
  {
    match (line, event)
    case (Down(n), Opened(e)) => if e == n then Some(Up(e, None)) else None
    case (Up(e, last), Closed(e')) => if e == e' then Some(Down(e + 1)) else None
    case (Up(e, last), Sent(e', id, kind)) =>
      if e != e' then None
      else if kind.Connect? then (if last.None? && id == 0 then Some(Up(e, Some(0))) else None)
      else if last.Some? && id > last.value && id >= 256 then Some(Up(e, Some(id)))
      else None
    case _ => None
  }

  function Watch(wire: seq<Wire>): Option<Line>
  {
    if wire == [] then Some(Down(0))
    else match Watch(wire[..|wire| - 1])
         case None => None
         case Some(line) => Next(line, wire[|wire| - 1])
  }

  lemma {:induction false} WatchAppend(wire: seq<Wire>, event: Wire)
    requires Watch(wire).Some?
    ensures Watch(wire + [event]) == Next(Watch(wire).value, event)
  {
    assert (wire + [event])[..|wire + [event]| - 1] == wire;
  }

  /** The session and the wire agree. */
  predicate Inv(s: Session)
  {
    && s.sequence >= 1
    && Watch(s.wire).Some?
    && match Watch(s.wire).value
       case Down(next) => s.transport.None? && !s.hasKey && next == s.nextEpoch
       case Up(epoch, last) =>
         && s.transport == Some(epoch)
         && epoch + 1 == s.nextEpoch
         && (s.hasKey ==> last.Some? && last.value < RequestId(s.sequence, s.sessionId))
  }

  lemma {:induction false} CloseKeeps(s: Session)
    requires Inv(s)
    ensures Inv(AfterClose(s)) && AfterClose(s).transport.None?
  {
    if s.transport.Some? {
      WatchAppend(s.wire, Closed(s.transport.value));
    }
  }

  lemma {:induction false} EnsureKeeps(s: Session, link: Link)
    requires Inv(s)
    ensures Inv(AfterEnsure(s, link).0)
  {
    CloseKeeps(s);
    var c := AfterClose(s);
    OpenSuccessAttaches(c, link, 0);
    WatchAppend(c.wire, Opened(c.nextEpoch));
    var a := AfterAttach(c);
    WatchAppend(a.wire, Sent(c.nextEpoch, 0, Connect));
  }

  lemma {:induction false} ExchangeKeeps(s: Session, kind: Kind, handed: bool)
    requires Inv(s) && s.transport.Some? && s.hasKey && !kind.Connect?
    ensures Inv(AfterExchange(s, kind, handed))
  {
    WatchAppend(s.wire, Sent(s.transport.value, RequestId(s.sequence, s.sessionId), kind));
  }

  lemma {:induction false} QueriesKeep(s: Session, handed: seq<bool>)
    requires Inv(s) && s.transport.Some? && s.hasKey
    ensures Inv(AfterQueries(s, handed))
    decreases |handed|
  {
    if handed != [] {
      ExchangeKeeps(s, Query, handed[0]);
      QueriesKeep(AfterExchange(s, Query, handed[0]), handed[1..]);
    }
  }

  lemma {:induction false} AttemptKeeps(s: Session, link: Link, read: ReadEnv)
    requires Inv(s)
    ensures Inv(AfterAttempt(s, link, read).0)
  {
    EnsureKeeps(s, link);
    EnsureSuccessHasSession(s, link);
    var (ready, outcome) := AfterEnsure(s, link);
    if outcome.Success? {
      QueriesKeep(ready, read.handed);
    }
  }

  lemma {:induction false} ReadKeeps(s: Session, l0: Link, r0: ReadEnv, l1: Link, r1: ReadEnv)
    requires Inv(s)
    ensures Inv(AfterRead(s, l0, r0, l1, r1).0)
  {
    AttemptKeeps(s, l0, r0);
    var s1 := AfterAttempt(s, l0, r0).0;
    GiveUpKeeps(s1);
    AttemptKeeps(AfterGiveUp(s1), l1, r1);
    var s2 := AfterAttempt(AfterGiveUp(s1), l1, r1).0;
    CloseKeeps(s2);
    assert AfterRead(s, l0, r0, l1, r1).0 in {s1, s2, AfterClose(s2)};
  }

  lemma {:induction false} GiveUpKeeps(s: Session)
    requires Inv(s)
    ensures Inv(AfterGiveUp(s))
  {
    CloseKeeps(s);
  }

  lemma {:induction false} CommandKeeps(s: Session, link: Link, command: CommandEnv)
    requires Inv(s)
    ensures Inv(AfterCommand(s, link, command).0)
  {
    hide Inv, AfterEnsure, AfterExchange, AfterClose;
    EnsureKeeps(s, link);
    EnsureSuccessHasSession(s, link);
    var (ready, outcome) := AfterEnsure(s, link);
    if outcome.Success? {
      ExchangeKeeps(ready, Command, command.Handed?);
      CloseKeeps(AfterExchange(ready, Command, command.Handed?));
    } else {
      CloseKeeps(ready);
    }
  }

  /** Every operation, whatever the environment does, keeps the wire legal. */
  lemma {:induction false} OpKeeps(s: Session, op: ClientOp)
    requires Inv(s)
    ensures Inv(AfterOp(s, op).0)
  {
    match op
    case ReadOp(l0, r0, l1, r1) =>
      ReadKeeps(s, l0, r0, l1, r1);
    case CommandOp(l, c) =>
      CommandKeeps(s, l, c);
    case CloseOp =>
      CloseKeeps(s);
  }

  function Run(ops: seq<ClientOp>): Session
  {
    if ops == [] then FRESH else AfterOp(Run(ops[..|ops| - 1]), ops[|ops| - 1]).0
  }

  lemma {:induction false} RunKeeps(ops: seq<ClientOp>)
    ensures Inv(Run(ops))
  {
    if ops != [] {
      RunKeeps(ops[..|ops| - 1]);
      OpKeeps(Run(ops[..|ops| - 1]), ops[|ops| - 1]);
    }
  }

  /** The client keeps the wire legal through any operation. */
  method Perform(client: NiceBidiClient, op: ClientOp) returns (outcome: Outcome)
    requires Inv(client.View())
    modifies client
    ensures (client.View(), outcome) == AfterOp(old(client.View()), op) && Inv(client.View())
  {
    hide Inv, AfterOp;
    OpKeeps(client.View(), op);
    outcome := client.Run(op);
  }

  // ----- what a legal trace means, without the automaton -----

  /** If the automaton is up on epoch `e` after `wire`, nothing sent on `e` so far exceeds the
      last identifier, and if it is down nothing was sent on a later epoch. */
  lemma {:induction false} WatchBounds(wire: seq<Wire>, k: nat)
    requires Watch(wire).Some? && k < |wire| && wire[k].Sent?
    ensures match Watch(wire).value
            case Down(next) => wire[k].epoch < next
            case Up(epoch, last) =>
              wire[k].epoch < epoch
              || (wire[k].epoch == epoch && last.Some? && wire[k].id <= last.value)
  {
    var front := wire[..|wire| - 1];
    if k < |front| {
      assert front[k] == wire[k];
      WatchBounds(front, k);
    }
  }

  lemma {:induction false} PrefixWatched(wire: seq<Wire>, n: nat)
    requires Watch(wire).Some? && n <= |wire|
    ensures Watch(wire[..n]).Some?
  {
    if n < |wire| {
      PrefixWatched(wire[..|wire| - 1], n);
      assert wire[..|wire| - 1][..n] == wire[..n];
    } else {
      assert wire[..n] == wire;
    }
  }

  /** The step of the automaton at position `j` of a legal trace. */
  lemma {:induction false} StepAt(wire: seq<Wire>, j: nat)
    requires Watch(wire).Some? && j < |wire|
    ensures Watch(wire[..j]).Some?
    ensures Watch(wire[..j + 1]) == Next(Watch(wire[..j]).value, wire[j])
    ensures Watch(wire[..j + 1]).Some?
  {
    PrefixWatched(wire, j);
    PrefixWatched(wire, j + 1);
    assert wire[..j + 1][..j] == wire[..j];
  }

  /** Request identifiers: over any run, frames sent on the same transport carry strictly
      increasing, hence pairwise distinct, identifiers; only the first of them is CONNECT, it
      alone has identifier 0, and every other identifier is at least 256. */
  lemma {:induction false} IdentifiersNeverReused(ops: seq<ClientOp>, i: nat, j: nat)
    requires i < j < |Run(ops).wire|
    requires Run(ops).wire[i].Sent? && Run(ops).wire[j].Sent?
    requires Run(ops).wire[i].epoch == Run(ops).wire[j].epoch
    ensures Run(ops).wire[i].id < Run(ops).wire[j].id
    ensures !Run(ops).wire[j].kind.Connect? && Run(ops).wire[j].id >= 256
    ensures Run(ops).wire[i].id == 0 <==> Run(ops).wire[i].kind.Connect?
  {
    var wire := Run(ops).wire;
    RunKeeps(ops);
    StepAt(wire, i);
    StepAt(wire, j);
    WatchBounds(wire[..j], i);
    assert wire[..j][i] == wire[i];
  }

  /** The first frame on every transport is CONNECT. */
  lemma {:induction false} ConnectComesFirst(ops: seq<ClientOp>, j: nat)
    requires j < |Run(ops).wire|
    requires Run(ops).wire[j].Sent? && !Run(ops).wire[j].kind.Connect?
    ensures exists i :: 0 <= i < j && Run(ops).wire[i] == Sent(Run(ops).wire[j].epoch, 0, Connect)
  {
    var wire := Run(ops).wire;
    RunKeeps(ops);
    StepAt(wire, j);
    var i := FindConnect(wire[..j]);
    assert wire[i] == wire[..j][i];
  }

  lemma {:induction false} FindConnect(wire: seq<Wire>) returns (i: nat)
    requires Watch(wire).Some? && Watch(wire).value.Up? && Watch(wire).value.last.Some?
    ensures i < |wire| && wire[i] == Sent(Watch(wire).value.epoch, 0, Connect)
  {
    var n := |wire| - 1;
    if wire[n].Sent? && wire[n].kind.Connect? {
      i := n;
    } else {
      i := FindConnect(wire[..n]);
    }
  }

  function OpenCount(wire: seq<Wire>): int
  {
    if wire == [] then 0
    else OpenCount(wire[..|wire| - 1])
         + match wire[|wire| - 1] case Opened(_) => 1 case Closed(_) => -1 case Sent(_, _, _) => 0
  }

  lemma {:induction false} OpenCountIsLine(wire: seq<Wire>)
    requires Watch(wire).Some?
    ensures OpenCount(wire) == if Watch(wire).value.Up? then 1 else 0
  {
    if wire != [] {
      OpenCountIsLine(wire[..|wire| - 1]);
    }
  }

  /** No transport is leaked: at every operation boundary of every run, the transports opened
      and not closed again are exactly the one the client still holds. */
  lemma {:induction false} NoTransportLeak(ops: seq<ClientOp>)
    ensures OpenCount(Run(ops).wire) == if Run(ops).transport.Some? then 1 else 0
  {
    RunKeeps(ops);
    OpenCountIsLine(Run(ops).wire);
  }

  /** An identifier tells its sequence number and the low byte of the session id apart. */
  lemma {:induction false} RequestIdDecodes(sequence: nat, sessionId: int)
    ensures RequestId(sequence, sessionId) / 256 == sequence
    ensures RequestId(sequence, sessionId) % 256 == sessionId % 256
    ensures sequence >= 1 ==> RequestId(sequence, sessionId) >= 256
  {
  }

  // ----- at most once -----

  function Count(wire: seq<Wire>, kind: Kind): nat
  {
    if wire == [] then 0
    else Count(wire[..|wire| - 1], kind)
         + if wire[|wire| - 1].Sent? && wire[|wire| - 1].kind == kind then 1 else 0
  }

  lemma {:induction false} CountAppend(wire: seq<Wire>, event: Wire, kind: Kind)
    ensures Count(wire + [event], kind)
            == Count(wire, kind) + if event.Sent? && event.kind == kind then 1 else 0
  {
    assert (wire + [event])[..|wire + [event]| - 1] == wire;
  }

  lemma {:induction false} CloseCounts(s: Session, kind: Kind)
    ensures Count(AfterClose(s).wire, kind) == Count(s.wire, kind)
  {
    if s.transport.Some? {
      CountAppend(s.wire, Closed(s.transport.value), kind);
    }
  }

  lemma {:induction false} EnsureCounts(s: Session, link: Link, kind: Kind)
    ensures var d := Count(AfterEnsure(s, link).0.wire, kind) - Count(s.wire, kind);
            if kind.Connect? then 0 <= d <= 1 else d == 0
  {
    hide Count, AfterOpen;
    CloseCounts(s, kind);
    var c := AfterClose(s);
    OpenSuccessAttaches(c, link, 0);
    CountAppend(c.wire, Opened(c.nextEpoch), kind);
    CountAppend(AfterAttach(c).wire, Sent(c.nextEpoch, 0, Connect), kind);
  }

  lemma {:induction false} QueriesCount(s: Session, handed: seq<bool>, kind: Kind)
    requires s.transport.Some?
    ensures var d := Count(AfterQueries(s, handed).wire, kind) - Count(s.wire, kind);
            if kind.Query? then 0 <= d <= |handed| else d == 0
    decreases |handed|
  {
    if handed != [] {
      CountAppend(s.wire, Sent(s.transport.value, RequestId(s.sequence, s.sessionId), Query), kind);
      QueriesCount(AfterExchange(s, Query, handed[0]), handed[1..], kind);
    }
  }

  /** A command is handed to a transport at most once, and exactly once when it succeeds or was
      handed and lost; at most one CONNECT goes with it, no query does, and the identifier is
      the next one of the session that carries it. */
  lemma {:induction false} CommandAtMostOnce(s: Session, link: Link, command: CommandEnv)
    ensures var (after, outcome) := AfterCommand(s, link, command);
            var (ready, linked) := AfterEnsure(s, link);
            var sent := Count(after.wire, Command) - Count(s.wire, Command);
            && 0 <= sent <= 1
            && (sent == 1 <==> command.Handed? && linked.Success?)
            && (sent == 1 ==>
                  && ready.transport.Some? && |after.wire| > |ready.wire|
                  && after.wire[..|ready.wire|] == ready.wire
                  && after.wire[|ready.wire|]
                     == Sent(ready.transport.value, RequestId(ready.sequence, ready.sessionId), Command))
            && (outcome.Success? ==> sent == 1)
            && Count(after.wire, Query) == Count(s.wire, Query)
            && 0 <= Count(after.wire, Connect) - Count(s.wire, Connect) <= 1
            && after.reconnects == s.reconnects
  {
    hide Count;
    EnsureSuccessHasSession(s, link);
    OpenSuccessAttaches(AfterClose(s), link, 0);
    CommandCounts(s, link, command, Command);
    CommandCounts(s, link, command, Query);
    CommandCounts(s, link, command, Connect);
  }

  lemma {:induction false} CommandCounts(s: Session, link: Link, command: CommandEnv, kind: Kind)
    ensures var handed := command.Handed? && AfterEnsure(s, link).1.Success?;
            Count(AfterCommand(s, link, command).0.wire, kind)
            == Count(AfterEnsure(s, link).0.wire, kind) + if handed && kind.Command? then 1 else 0
    ensures var d := Count(AfterEnsure(s, link).0.wire, kind) - Count(s.wire, kind);
            if kind.Connect? then 0 <= d <= 1 else d == 0
  {
    EnsureCounts(s, link, kind);
    EnsureSuccessHasSession(s, link);
    var (ready, outcome) := AfterEnsure(s, link);
    if outcome.Success? {
      CommandStepCounts(ready, command.Handed?, kind);
      var sent := AfterExchange(ready, Command, command.Handed?);
      assert AfterCommand(s, link, command).0 in {ready, sent, AfterClose(sent)};
    } else {
      CloseCounts(ready, kind);
    }
  }

  lemma {:induction false} CommandStepCounts(ready: Session, handed: bool, kind: Kind)
    requires ready.transport.Some?
    ensures var sent := AfterExchange(ready, Command, handed);
            && Count(sent.wire, kind) == Count(ready.wire, kind) + (if handed && kind.Command? then 1 else 0)
            && Count(AfterClose(sent).wire, kind) == Count(sent.wire, kind)
  {
    CountAppend(ready.wire, Sent(ready.transport.value, RequestId(ready.sequence, ready.sessionId), Command), kind);
    CloseCounts(AfterExchange(ready, Command, handed), kind);
  }

  /** A read never sends a command.  It runs its operation on one attempt, and on a second one
      exactly when the first ends in a connection error, so that no more queries reach a
      transport than the exchanges of those attempts; the reconnect counter then moves by one.
      After a final connection error no transport is left open. */
  lemma {:induction false} ReadRunsAtMostTwice(s: Session, l0: Link, r0: ReadEnv, l1: Link, r1: ReadEnv)
    ensures var (after, outcome) := AfterRead(s, l0, r0, l1, r1);
            var again := AfterAttempt(s, l0, r0).1.ConnError?;
            && Count(after.wire, Command) == Count(s.wire, Command)
            && 0 <= Count(after.wire, Connect) - Count(s.wire, Connect) <= (if again then 2 else 1)
            && 0 <= Count(after.wire, Query) - Count(s.wire, Query)
               <= |r0.handed| + (if again then |r1.handed| else 0)
            && after.reconnects == s.reconnects + (if again then 1 else 0)
            && (outcome.ConnError? ==> after.transport.None? && again)
            && (!again ==> (after, outcome) == AfterAttempt(s, l0, r0))
  {
    var (s1, o1) := AfterAttempt(s, l0, r0);
    AttemptReconnects(s, l0, r0);
    ReadCounts(s, l0, r0, l1, r1, Command);
    ReadCounts(s, l0, r0, l1, r1, Connect);
    ReadCounts(s, l0, r0, l1, r1, Query);
    if o1.ConnError? {
      var (s2, o2) := AfterAttempt(AfterGiveUp(s1), l1, r1);
      AttemptReconnects(AfterGiveUp(s1), l1, r1);
      assert AfterRead(s, l0, r0, l1, r1) == if o2.ConnError? then (AfterClose(s2), o2) else (s2, o2);
    } else {
      assert AfterRead(s, l0, r0, l1, r1) == (s1, o1);
    }
  }

  /** How many frames of a kind one attempt may send. */
  function Budget(read: ReadEnv, kind: Kind): nat
  {
    match kind case Connect => 1 case Query => |read.handed| case Command => 0
  }

  lemma {:induction false} ReadCounts(s: Session, l0: Link, r0: ReadEnv, l1: Link, r1: ReadEnv, kind: Kind)
    ensures 0 <= Count(AfterRead(s, l0, r0, l1, r1).0.wire, kind) - Count(s.wire, kind)
              <= Budget(r0, kind) + (if AfterAttempt(s, l0, r0).1.ConnError? then Budget(r1, kind) else 0)
  {
    hide Count, AfterAttempt;
    var (s1, o1) := AfterAttempt(s, l0, r0);
    AttemptCounts(s, l0, r0, kind);
    if o1.ConnError? {
      CloseCounts(s1, kind);
      var s2 := AfterAttempt(AfterGiveUp(s1), l1, r1).0;
      AttemptCounts(AfterGiveUp(s1), l1, r1, kind);
      CloseCounts(s2, kind);
    }
  }

  lemma {:induction false} AttemptCounts(s: Session, link: Link, read: ReadEnv, kind: Kind)
    ensures 0 <= Count(AfterAttempt(s, link, read).0.wire, kind) - Count(s.wire, kind) <= Budget(read, kind)
  {
    hide Count;
    EnsureCounts(s, link, kind);
    EnsureSuccessHasSession(s, link);
    var (ready, outcome) := AfterEnsure(s, link);
    if outcome.Success? {
      QueriesCount(ready, read.handed, kind);
    }
  }

  lemma {:induction false} AttemptReconnects(s: Session, link: Link, read: ReadEnv)
    ensures AfterAttempt(s, link, read).0.reconnects == s.reconnects
  {
    EnsureSuccessHasSession(s, link);
    OpenSuccessAttaches(AfterClose(s), link, 0);
    var (ready, outcome) := AfterEnsure(s, link);
    if outcome.Success? {
      QueriesKeepReconnects(ready, read.handed);
    }
  }

  lemma {:induction false} QueriesKeepReconnects(s: Session, handed: seq<bool>)
    requires s.transport.Some?
    ensures AfterQueries(s, handed).reconnects == s.reconnects
    decreases |handed|
  {
    if handed != [] {
      QueriesKeepReconnects(AfterExchange(s, Query, handed[0]), handed[1..]);
    }
  }
}
