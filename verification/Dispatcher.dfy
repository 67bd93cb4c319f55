/** The single-reader response dispatcher
    (custom_components/nice_bidiwifi/transport/dispatcher.py).  Its lock-held regions are the
    atomic steps.  Exchanges are mutable objects held in a list, so the abstract state has a
    heap of exchanges, named by the order of registration, and a list of names. */
module Dispatcher {
  import opened Prelude

  const MAX_EXCHANGE_FRAMES: nat := 64

  /** A frame as `response_matches` sees it; the rest of its bytes are the payload. */
  datatype Frame = Frame(isResponse: bool, kind: Option<string>, id: Option<string>, payload: seq<int>)

  function Digit(d: nat): char
    requires d < 10
  {
    ('0' as int + d) as char
  }

  function Digits(n: nat): string
  {
    if n < 10 then [Digit(n)] else Digits(n / 10) + [Digit(n % 10)]
  }

  /** Python's `str` of an integer. */
  function Decimal(n: int): string
  {
    if n < 0 then "-" + Digits(-n) else Digits(n)
  }

  /** `response_matches`: an absent or empty expected type and an absent expected id match anything. */
  predicate Matches(frame: Frame, expectedType: Option<string>, expectedId: Option<int>)
  {
    && frame.isResponse
    && (expectedType.Some? && expectedType.value != "" ==> frame.kind == expectedType)
    && (expectedId.Some? ==> frame.id == Some(Decimal(expectedId.value)))
  }

  /** The fields of a `_PendingExchange`.  The source compares exchanges by value, as this
      datatype does. */
  datatype Exchange = Exchange(
    expectedType: Option<string>, expectedId: Option<int>, listen: real,
    frames: seq<Frame>, matched: bool, deadline: Option<real>)
  {
    predicate Wants(frame: Frame) { Matches(frame, expectedType, expectedId) }
  }

  function NewExchange(expectedType: Option<string>, expectedId: Option<int>, listen: real): Exchange
  {
    Exchange(expectedType, expectedId, Max(0.0, listen), [], false, None)
  }

  datatype Event =
    | Registered(ident: nat)
    | Consumed(frame: Frame, owner: nat)
    | Published(frame: Frame, windows: seq<nat>)
    | Answered(ident: nat, finding: Finding)
    | Left(ident: nat)

  /** What a waiter finds when it holds the lock. */
  datatype Finding = RaisesFailure | RaisesClosed | Returns(frames: seq<Frame>) | Waits(until: real)

  /** `waiting` holds the exchanges whose waiters have not left yet, `answered` those whose
      waiters have what they return or raise. */
  datatype State = State(
    objs: seq<Exchange>, pending: seq<nat>, waiting: set<nat>, answered: set<nat>,
    closed: bool, failed: bool, log: seq<Event>)

  const INITIAL: State := State([], [], {}, {}, false, false, [])

  predicate WellFormed(s: State)
  {
    && (forall i :: 0 <= i < |s.pending| ==> s.pending[i] < |s.objs|)
    && (forall i, j :: 0 <= i < j < |s.pending| ==> s.pending[i] < s.pending[j])
    && (forall p :: p in s.waiting ==> p < |s.objs|)
  }

  // ----- the steps -----

  function AppendFrame(ex: Exchange, frame: Frame): Exchange
  {
    ex.(frames := (if |ex.frames| >= MAX_EXCHANGE_FRAMES then ex.frames[1..] else ex.frames) + [frame])
  }

  function MarkMatched(ex: Exchange, frame: Frame, now: real): Exchange
  {
    AppendFrame(ex, frame).(matched := true,
                            deadline := if ex.listen > 0.0 then Some(now + ex.listen) else ex.deadline)
  }

  /** The position in the list of the exchange the reader correlates a frame with, from `i` on:
      the earliest one that is unmatched and wants the frame. */
  function FirstMatch(s: State, frame: Frame, i: nat): (r: Option<nat>)
    requires WellFormed(s) && i <= |s.pending|
    ensures r.Some? ==> i <= r.value < |s.pending|
                        && !s.objs[s.pending[r.value]].matched && s.objs[s.pending[r.value]].Wants(frame)
                        && forall k :: i <= k < r.value ==>
                             s.objs[s.pending[k]].matched || !s.objs[s.pending[k]].Wants(frame)
    ensures r.None? ==> forall k :: i <= k < |s.pending| ==>
                          s.objs[s.pending[k]].matched || !s.objs[s.pending[k]].Wants(frame)
    decreases |s.pending| - i
  {
    if i == |s.pending| then None
    else if !s.objs[s.pending[i]].matched && s.objs[s.pending[i]].Wants(frame) then Some(i)
    else FirstMatch(s, frame, i + 1)
  }

  function AppendTo(objs: seq<Exchange>, names: seq<nat>, frame: Frame): (r: seq<Exchange>)
    ensures |r| == |objs|
    ensures forall p :: 0 <= p < |objs| ==> r[p] == if p in names then AppendFrame(objs[p], frame) else objs[p]
  {
    seq(|objs|, p requires 0 <= p < |objs| => if p in names then AppendFrame(objs[p], frame) else objs[p])
  }

  /** The reader routes one frame. */
  function AfterRoute(s: State, frame: Frame, now: real): (r: State)
    requires WellFormed(s)
    ensures WellFormed(r)
  {
    match FirstMatch(s, frame, 0)
    case Some(i) =>
      var p := s.pending[i];
      s.(objs := s.objs[p := MarkMatched(s.objs[p], frame, now)], log := s.log + [Consumed(frame, p)])
    case None =>
      s.(objs := AppendTo(s.objs, s.pending, frame), log := s.log + [Published(frame, s.pending)])
  }

  function AfterRegister(s: State, ex: Exchange): (r: State)
    requires WellFormed(s)
    ensures WellFormed(r)
  {
    s.(objs := s.objs + [ex], pending := s.pending + [|s.objs|], waiting := s.waiting + {|s.objs|},
       log := s.log + [Registered(|s.objs|)])
  }

  /** Where `list.remove` finds the exchange: the first list entry equal to it by value. */
  function FirstEqual(s: State, ex: Exchange, i: nat): (r: Option<nat>)
    requires WellFormed(s) && i <= |s.pending|
    ensures r.Some? ==> i <= r.value < |s.pending| && s.objs[s.pending[r.value]] == ex
                        && forall k :: i <= k < r.value ==> s.objs[s.pending[k]] != ex
    ensures r.None? ==> forall k :: i <= k < |s.pending| ==> s.objs[s.pending[k]] != ex
    decreases |s.pending| - i
  {
    if i == |s.pending| then None
    else if s.objs[s.pending[i]] == ex then Some(i)
    else FirstEqual(s, ex, i + 1)
  }

  lemma FirstEqualIs(s: State, ex: Exchange, i: nat)
    requires WellFormed(s) && i <= |s.pending|
    requires forall k :: 0 <= k < i ==> s.objs[s.pending[k]] != ex
    requires i < |s.pending| ==> s.objs[s.pending[i]] == ex
    ensures FirstEqual(s, ex, 0) == if i < |s.pending| then Some(i) else None
  {
    hide FirstEqual;
  }

  /** A waiter leaves `exchange`, by returning, timing out or raising. */
  function AfterLeave(s: State, p: nat): (r: State)
    requires WellFormed(s) && p < |s.objs|
    ensures WellFormed(r)
  {
    var rest := match FirstEqual(s, s.objs[p], 0)
                case Some(i) => s.pending[..i] + s.pending[i + 1..]
                case None => s.pending;
    s.(pending := rest, waiting := s.waiting - {p}, log := s.log + [Left(p)])
  }

  function Poll(s: State, p: nat, now: real, deadline: real): Finding
    requires p < |s.objs|
  {
    var ex := s.objs[p];
    if s.failed then RaisesFailure
    else if s.closed then RaisesClosed
    else if ex.matched then
      (if ex.deadline.None? || now >= ex.deadline.value then Returns(ex.frames) else Waits(ex.deadline.value))
    else if now >= deadline then Returns(ex.frames)
    else Waits(deadline)
  }

  /** A waiter holds the lock.  What it returns or raises is fixed here, in a region of its own;
      it leaves the list in a later one. */
  function AfterPoll(s: State, p: nat, now: real, deadline: real): (r: State)
    requires WellFormed(s) && p < |s.objs|
    ensures WellFormed(r)
  {
    var finding := Poll(s, p, now, deadline);
    if finding.Waits? then s
    else s.(answered := s.answered + {p}, log := s.log + [Answered(p, finding)])
  }

  // ----- the dispatcher as the mutable objects it is -----

  class PendingExchange {
    const ident: nat
    const expectedType: Option<string>
    const expectedId: Option<int>
    const listen: real
    var frames: seq<Frame>
    var matched: bool
    var deadline: Option<real>

    ghost function View(): Exchange
      reads this
    {
      Exchange(expectedType, expectedId, listen, frames, matched, deadline)
    }

    constructor (ident: nat, expectedType: Option<string>, expectedId: Option<int>, listen: real)
      ensures View() == NewExchange(expectedType, expectedId, listen) && this.ident == ident
    {
      this.ident, this.expectedType, this.expectedId := ident, expectedType, expectedId;
      this.listen := Max(0.0, listen);
      frames, matched, deadline := [], false, None;
    }

    method Append(frame: Frame)
      modifies this
      ensures View() == AppendFrame(old(View()), frame)
    {
      if |frames| >= MAX_EXCHANGE_FRAMES {
        frames := frames[1..];
      }
      frames := frames + [frame];
    }

    method SameAs(other: PendingExchange) returns (same: bool)
      ensures same <==> View() == other.View()
    {
      same := && expectedType == other.expectedType
              && expectedId == other.expectedId
              && listen == other.listen
              && frames == other.frames
              && matched == other.matched
              && deadline == other.deadline;
    }
  }

  class ResponseDispatcher {
    var pending: seq<PendingExchange>
    var closed: bool
    var failed: bool
    ghost var registry: seq<PendingExchange>  // every exchange ever registered, by name
    ghost var waiting: set<nat>
    ghost var answered: set<nat>
    ghost var log: seq<Event>
    var registered: nat

    ghost predicate Valid()
      reads this
    {
      && registered == |registry|
      && (forall i :: 0 <= i < |registry| ==> registry[i].ident == i)
      && (forall i :: 0 <= i < |pending| ==> pending[i].ident < |registry| && registry[pending[i].ident] == pending[i])
      && (forall i, j :: 0 <= i < j < |pending| ==> pending[i].ident < pending[j].ident)
      && (forall p :: p in waiting ==> p < |registry|)
    }

    ghost function View(): State
      reads this, registry
    {
      State(seq(|registry|, i requires 0 <= i < |registry| reads this, registry => registry[i].View()),
            Names(), waiting, answered, closed, failed, log)
    }

    ghost function Names(): seq<nat>
      reads this
    {
      seq(|pending|, i requires 0 <= i < |pending| reads this => pending[i].ident)
    }

    constructor ()
      ensures Valid() && View() == INITIAL
    {
      pending, closed, failed := [], false, false;
      registry, waiting, answered, log := [], {}, {}, [];
      registered := 0;
    }

    /** The entry of `exchange`: refuse when closed or failed, else append a fresh exchange. */
    method Register(expectedType: Option<string>, expectedId: Option<int>, listen: real)
      returns (exchange: PendingExchange?)
      requires Valid()
      modifies this
      ensures Valid() && (exchange == null <==> old(closed) || old(failed))
      ensures exchange == null ==> View() == old(View())
      ensures exchange != null ==> fresh(exchange) && exchange.ident == old(registered)
      ensures exchange != null ==> registry == old(registry) + [exchange]
      ensures exchange != null ==>
                View() == AfterRegister(old(View()), NewExchange(expectedType, expectedId, listen))
    {
      if closed || failed {
        return null;
      }
      exchange := new PendingExchange(registered, expectedType, expectedId, listen);
      log := log + [Registered(registered)];
      waiting := waiting + {registered};
      registry := registry + [exchange];
      pending := pending + [exchange];
      registered := registered + 1;
    }

    lemma HeapAt(i: nat)
      requires Valid() && i < |pending|
      ensures View().objs[View().pending[i]] == pending[i].View()
    {
    }

    /** The search of `_reader_loop` for the exchange a frame belongs to. */
    method Correlated(frame: Frame) returns (found: Option<nat>)
      requires Valid() && WellFormed(View())
      ensures found == FirstMatch(View(), frame, 0)
    {
      hide FirstMatch, Matches;
      ghost var view := View();
      for i := 0 to |pending|
        invariant forall k :: 0 <= k < i ==>
                    view.objs[view.pending[k]].matched || !view.objs[view.pending[k]].Wants(frame)
      {
        HeapAt(i);
        if !pending[i].matched && Matches(frame, pending[i].expectedType, pending[i].expectedId) {
          return Some(i);
        }
      }
      return None;
    }

    /** The correlated frame goes to one window, whose exchange is then matched. */
    method Consume(i: nat, frame: Frame, now: real)
      requires Valid() && i < |pending|
      modifies this`log, pending
      ensures Valid()
      ensures var before := old(View());
              var p := before.pending[i];
              View() == before.(objs := before.objs[p := MarkMatched(before.objs[p], frame, now)],
                                log := before.log + [Consumed(frame, p)])
    {
      ghost var before := View();
      var candidate := pending[i];
      HeapAt(i);
      candidate.Append(frame);
      candidate.matched := true;
      if candidate.listen > 0.0 {
        candidate.deadline := Some(now + candidate.listen);
      }
      log := log + [Consumed(frame, candidate.ident)];
      assert View().objs == before.objs[candidate.ident := MarkMatched(before.objs[candidate.ident], frame, now)];
    }

    /** The loop that keeps an unsolicited frame in every open window. */
    method AppendToAll(frame: Frame)
      requires Valid()
      modifies this`log, pending
      ensures Valid()
      ensures View() == old(View()).(objs := AppendTo(old(View()).objs, old(View()).pending, frame),
                                     log := old(log) + [Published(frame, old(View()).pending)])
    {
      ghost var before := View();
      log := log + [Published(frame, before.pending)];
      for i := 0 to |pending|
        invariant log == before.log + [Published(frame, before.pending)]
        invariant forall p :: 0 <= p < |registry| ==>
                    registry[p].View() == if registry[p] in pending[..i] then AppendFrame(before.objs[p], frame)
                                          else before.objs[p]
      {
        assert registry[pending[i].ident] == pending[i] && pending[i] !in pending[..i];
        pending[i].Append(frame);
        assert pending[..i + 1] == pending[..i] + [pending[i]];
      }
      assert pending[..|pending|] == pending;
      assert Names() == before.pending;
      forall p | 0 <= p < |registry| ensures p in before.pending <==> registry[p] in pending {
        NamesNameObjects(p);
      }
      assert View().objs == AppendTo(before.objs, before.pending, frame);
    }

    lemma NamesNameObjects(p: nat)
      requires Valid() && p < |registry|
      ensures p in Names() <==> registry[p] in pending
    {
      if p in Names() {
        var i :| 0 <= i < |Names()| && Names()[i] == p;
        assert pending[i] == registry[p];
      }
      if registry[p] in pending {
        var i :| 0 <= i < |pending| && pending[i] == registry[p];
        assert Names()[i] == p;
      }
    }

    /** The routing region of `_reader_loop`. */
    method RouteFrame(frame: Frame, now: real) returns (publish: bool)
      requires Valid() && WellFormed(View())
      modifies this`log, pending
      ensures Valid() && View() == AfterRoute(old(View()), frame, now)
      ensures publish <==> FirstMatch(old(View()), frame, 0).None?
    {
      var found := Correlated(frame);
      publish := found.None?;
      if found.Some? {
        Consume(found.value, frame, now);
      } else {
        AppendToAll(frame);
      }
    }

    method ReaderFails()
      requires Valid()
      modifies this`failed
      ensures Valid() && View() == old(View()).(failed := old(failed) || !closed)
    {
      if !closed {
        failed := true;
      }
    }

    method Close()
      requires Valid()
      modifies this`closed
      ensures Valid() && View() == old(View()).(closed := true)
    {
      closed := true;
    }

    /** The search behind `pending in self._pending` and `list.remove`. */
    method FindEqual(exchange: PendingExchange) returns (found: Option<nat>)
      requires Valid() && WellFormed(View())
      ensures found == FirstEqual(View(), exchange.View(), 0)
    {
      ghost var sought := exchange.View();
      found := None;
      for i := 0 to |pending|
        invariant found.None? && forall k :: 0 <= k < i ==> pending[k].View() != sought
      {
        var same := pending[i].SameAs(exchange);
        if same {
          EqualAt(sought, i);
          return Some(i);
        }
      }
      EqualAt(sought, |pending|);
    }

    /** The search by value, told by the objects. */
    lemma EqualAt(sought: Exchange, i: nat)
      requires Valid() && WellFormed(View()) && i <= |pending|
      requires forall k :: 0 <= k < i ==> pending[k].View() != sought
      requires i < |pending| ==> pending[i].View() == sought
      ensures FirstEqual(View(), sought, 0) == if i < |pending| then Some(i) else None
    {
      hide FirstEqual;
      var s := View();
      forall k | 0 <= k < |pending| ensures s.objs[s.pending[k]] == pending[k].View() {
        HeapAt(k);
      }
      FirstEqualIs(s, sought, i);
    }

    method RemoveAt(i: nat)
      requires Valid() && i < |pending|
      modifies this`pending
      ensures Valid()
      ensures View() == old(View()).(pending := old(View()).pending[..i] + old(View()).pending[i + 1..])
    {
      ghost var names := Names();
      pending := pending[..i] + pending[i + 1..];
      assert Names() == names[..i] + names[i + 1..];
    }

    ghost method Forget(p: nat)
      requires Valid()
      modifies this`waiting, this`log
      ensures Valid()
      ensures View() == old(View()).(waiting := old(waiting) - {p}, log := old(log) + [Left(p)])
    {
      waiting := waiting - {p};
      log := log + [Left(p)];
    }

    /** The `finally` of `exchange`; the list search compares by value. */
    method Leave(exchange: PendingExchange)
      requires Valid() && WellFormed(View())
      requires exchange.ident < |registry| && registry[exchange.ident] == exchange
      modifies this
      ensures Valid() && View() == AfterLeave(old(View()), exchange.ident)
    {
      ghost var before := View();
      ghost var p := exchange.ident;
      assert before.objs[p] == exchange.View();
      var found := FindEqual(exchange);
      if found.Some? {
        RemoveAt(found.value);
      }
      Forget(p);
    }

    method PollExchange(exchange: PendingExchange, now: real, deadline: real) returns (finding: Finding)
      requires Valid()
      requires exchange.ident < |registry| && registry[exchange.ident] == exchange
      ensures finding == Poll(View(), exchange.ident, now, deadline)
    {
      if failed {
        return RaisesFailure;
      }
      if closed {
        return RaisesClosed;
      }
      if exchange.matched {
        if exchange.deadline.None? || now >= exchange.deadline.value {
          return Returns(exchange.frames);
        }
        return Waits(exchange.deadline.value);
      }
      if now >= deadline {
        return Returns(exchange.frames);
      }
      return Waits(deadline);
    }

    /** One lock-held region of the waiting loop of `exchange`. */
    method Await(exchange: PendingExchange, now: real, deadline: real) returns (finding: Finding)
      requires Valid() && WellFormed(View())
      requires exchange.ident < |registry| && registry[exchange.ident] == exchange
      modifies this`answered, this`log
      ensures Valid() && View() == AfterPoll(old(View()), exchange.ident, now, deadline)
      ensures finding == Poll(old(View()), exchange.ident, now, deadline)
    {
      finding := PollExchange(exchange, now, deadline);
      if !finding.Waits? {
        answered := answered + {exchange.ident};
        log := log + [Answered(exchange.ident, finding)];
      }
    }
  }
}
