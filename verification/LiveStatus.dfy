/** CU_WIFI live status events (custom_components/nice_bidiwifi/protocol/t4/live.py). */
module LiveStatus {
  import opened Prelude
  import opened Position
  import opened T4Frames

  const RAW_OPEN: int := 7000

  /** `STATUS_BY_BYTE`. */
  function StateOf(b: Octet): Option<Motion>
  {
    if b == 0x01 then Some(Stopped)
    else if b == 0x02 || b == 0x83 then Some(Opening)
    else if b == 0x03 || b == 0x84 then Some(Closing)
    else if b == 0x04 then Some(AtOpen)
    else if b == 0x05 then Some(AtClosed)
    else if b == 0x10 || b == 0x11 || b == 0x12 then Some(PartiallyOpen)
    else None
  }

  datatype Scale = RawScale | PercentScale

  /** `_live_04_40_position`. */
  function LivePosition(value: nat, fromRawTarget: bool): (r: (Option<real>, Option<Scale>))
    ensures OptionalPercent(r.0)
    ensures r.0.Some? <==> value <= if fromRawTarget then RAW_OPEN else 100
  {
    if fromRawTarget then
      if value <= RAW_OPEN then
        Round1Percent(value as real / RAW_OPEN as real * 100.0);
        (Some(Round1(value as real / RAW_OPEN as real * 100.0)), Some(RawScale))
      else (None, Some(RawScale))
    else if value <= 100 then (Some(value as real), Some(PercentScale))
    else (None, None)
  }

  datatype Live = Live(state: Option<Motion>, position: Option<real>, raw: Option<nat>, scale: Option<Scale>)

  /** `parse_cuwifi_live_status_payload`. */
  function ParseLive(plain: Octets): Option<Live>
  {
    var live := CuwifiMessage(plain);
    if live.None? || |live.value.message| < 3 || live.value.message[0] != 0x04 then None
    else
      var m := live.value.message;
      if m[1] == 0x40 && |m| >= 5 then
        var value := FromBytes(m[3..5]);
        var (position, scale) := LivePosition(value, live.value.toRow == 0xFF);
        if StateOf(m[2]).None? && position.None? then None
        else if position.Some? then Some(Live(StateOf(m[2]), position, Some(value), scale))
        else Some(Live(StateOf(m[2]), None, None, None))
      else if m[1] == 0x02 && StateOf(m[2]).Some? then Some(Live(StateOf(m[2]), None, None, None))
      else None
  }

  /** Whatever bytes arrive, a live event carries a state or a position, its position is a
      percentage, and a raw position comes with a position and a scale only. */
  lemma LivePositionPercent(plain: Octets)
    ensures ParseLive(plain).Some? ==>
              var live := ParseLive(plain).value;
              && (live.state.Some? || live.position.Some?)
              && OptionalPercent(live.position)
              && (live.raw.Some? <==> live.position.Some?) && (live.scale.Some? <==> live.position.Some?)
  {
  }

  /** The fully open raw position is shown as 100 percent, and a farther one is not lower. */
  lemma RawScaleMonotone(a: nat, b: nat)
    requires a <= b <= RAW_OPEN
    ensures LivePosition(a, true).0.value <= LivePosition(b, true).0.value
    ensures LivePosition(0, true).0 == Some(0.0) && LivePosition(RAW_OPEN, true).0 == Some(100.0)
  {
    RoundMonotone(a as real / RAW_OPEN as real * 100.0 * 10.0, b as real / RAW_OPEN as real * 100.0 * 10.0);
    RoundInteger(0);
    RoundInteger(1000);
  }

  /** Which byte of a message means which state, and none for the other bytes. */
  lemma StateBytes(b: Octet)
    ensures StateOf(b) == Some(Stopped) <==> b == 0x01
    ensures StateOf(b) == Some(Opening) <==> b in {0x02, 0x83}
    ensures StateOf(b) == Some(Closing) <==> b in {0x03, 0x84}
    ensures StateOf(b) == Some(AtOpen) <==> b == 0x04
    ensures StateOf(b) == Some(AtClosed) <==> b == 0x05
    ensures StateOf(b) == Some(PartiallyOpen) <==> b in {0x10, 0x11, 0x12}
    ensures StateOf(b) != Some(NoState)
  {
  }

  /** What the messages of the controller report.  A status message reports its state.  A position
      message reports its state and its two position bytes: of the whole way of 7000 when it is sent to
      the raw target, and as a percentage otherwise; without a position in range only its state. */
  lemma {:induction false} LiveMessagesReport(plain: Octets, message: Octets, raw: bool)
    requires CuwifiMessage(plain) == Some(LiveMessage(message, if raw then 0xFF else 0x00, if raw then 0x01 else 0xFF))
    requires |message| >= 3 && message[0] == 0x04
    ensures message[1] == 0x02 ==>
              ParseLive(plain) == if StateOf(message[2]).Some? then Some(Live(StateOf(message[2]), None, None, None))
                                  else None
    ensures message[1] == 0x40 && |message| >= 5 ==>
              var high: int, low: int := message[3], message[4];
              var n := high * 256 + low;
              var live := ParseLive(plain);
              if raw && n <= 7000 then
                live.Some? && live.value.state == StateOf(message[2]) && live.value.raw == Some(n)
                && live.value.scale == Some(RawScale) && live.value.position.Some?
                && Abs(live.value.position.value * 70.0 - n as real) <= 3.5
              else if !raw && n <= 100 then
                live == Some(Live(StateOf(message[2]), Some(n as real), Some(n), Some(PercentScale)))
              else if StateOf(message[2]).Some? then live == Some(Live(StateOf(message[2]), None, None, None))
              else live.None?
    ensures message[1] != 0x02 && (message[1] != 0x40 || |message| < 5) ==> ParseLive(plain).None?
  {
    hide StateOf, CuwifiMessage, Round1;
    if message[1] == 0x40 && |message| >= 5 {
      var high: int, low: int := message[3], message[4];
      var n := high * 256 + low;
      TwoBytes(message[3], message[4]);
      assert message[3..5] == [message[3], message[4]];
      Round1Close(n as real / RAW_OPEN as real * 100.0);
    }
  }

  lemma TwoBytes(high: Octet, low: Octet)
    ensures var h: int, l: int := high, low; FromBytes([high, low]) == h * 256 + l
  {
    FromBytesSnoc([], high);
    FromBytesSnoc([high], low);
    assert [] + [high] == [high] && [high] + [low] == [high, low];
  }

  lemma Round1Close(x: real)
    ensures Abs(Round1(x) - x) <= 0.05
  {
  }
}
