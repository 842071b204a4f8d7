/** The driver's process-wide state (`_started`, `_running`, `_prevMask`,
    `_pollMs`) as the fields of one object, with the operations that update it.
    The bus and the event machinery are not modelled: bytes read from the bus are
    parameters, register writes go to the ghost log `writes` and raised event
    values to the ghost log `events`. */
module Mpr121 {
  import opened Registers
  import opened BusLog
  import opened Touch

  /** The channel loop of a poll that found `mask` different from `prev`: for
      each channel in ascending order whose bit differs, its event and then the
      aggregate event, in the direction of the channel's new bit. The test
      `diff & (1 << k)` is written as the two channel bits differing, which
      DiffBit and ChannelBitIsShift show to be the same test. */
  method ScanChannels(prev: Word, mask: Word) returns (raised: seq<int>)
    ensures raised == StepEvents(prev, mask)
  {
    raised := [];
    for k := 0 to NUM_KEYS
      invariant raised == EventsBelow(prev, mask, k)
    {
      if Bit(prev, k) != Bit(mask, k) {
        var pressed := Bit(mask, k);
        if pressed {
          raised := raised + [Code(Pressed(k)), Code(AnyPressed)];
        } else {
          raised := raised + [Code(Released(k)), Code(AnyReleased)];
        }
      }
    }
  }

  /** The bus writes of startIfNeeded from the latch and run flag it finds:
      none once started; otherwise a stop when running, then a start. */
  function StartWrites(started: bool, running: bool): (ws: seq<RegWrite>)
    ensures started ==> ws == []
    ensures !started ==> 1 <= |ws| <= 2 && ws[|ws| - 1] == RegWrite(REG_ECR, ECR_RUN)
    ensures forall i :: 0 <= i < |ws| ==> ws[i].reg == REG_ECR
  {
    if started then []
    else (if running then [RegWrite(REG_ECR, ECR_STOP)] else []) + [RegWrite(REG_ECR, ECR_RUN)]
  }

  class Driver {
    var started: bool
    var running: bool
    var prevMask: Word
    var pollMs: int
    /** Every register write sent on the bus, oldest first. */
    ghost var writes: seq<RegWrite>
    /** Every event value raised, oldest first. */
    ghost var events: seq<int>

    /** `running` is what the bus log says about the controller; every
        configuration write reached a stopped controller; once polling has
        started the controller is left scanning; the previous mask is a 12-bit
        mask and the polling interval within its bounds. */
    ghost predicate Valid()
      reads this
    {
      BusConsistent() &&
      (started ==> running) &&
      prevMask <= 0x0FFF &&
      MIN_POLL_MS <= pollMs <= MAX_POLL_MS
    }

    /** `running` agrees with the bus log, and the log keeps the safety rule. */
    ghost predicate BusConsistent()
      reads this
    {
      running == Scanning(writes) && ConfigWritesWhileStopped(writes)
    }

    /** The state at program start: nothing started, controller stopped (its
        power-on state), previous mask 0, polling every 20 ms. */
    constructor ()
      ensures Valid()
      ensures !started && !running && prevMask == 0 && pollMs == DEFAULT_POLL_MS
      ensures writes == [] && events == []
    {
      started := false;
      running := false;
      prevMask := 0;
      pollMs := DEFAULT_POLL_MS;
      writes := [];
      events := [];
    }

    /** `writeReg`: one two-byte transaction, register then the value's low byte. */
    method WriteReg(reg: int, val: int)
      modifies this`writes
      ensures writes == old(writes) + [Wire(RegWrite(reg, val))]
    {
      writes := writes + [Wire(RegWrite(reg, val))];
    }

    /** `stopRun`: writes ECR = 0x00 only when the controller is running. */
    method StopRun()
      requires BusConsistent()
      modifies this`running, this`writes
      ensures BusConsistent() && !running
      ensures writes == old(writes) + (if old(running) then [RegWrite(REG_ECR, ECR_STOP)] else [])
    {
      if running {
        AppendWrite(writes, RegWrite(REG_ECR, ECR_STOP));
        WriteReg(REG_ECR, ECR_STOP);
        running := false;
      }
    }

    /** `startRun`: writes ECR = 0x8F only when the controller is stopped. */
    method StartRun()
      requires BusConsistent()
      modifies this`running, this`writes
      ensures BusConsistent() && running
      ensures writes == old(writes) + (if old(running) then [] else [RegWrite(REG_ECR, ECR_RUN)])
    {
      if !running {
        AppendWrite(writes, RegWrite(REG_ECR, ECR_RUN));
        WriteReg(REG_ECR, ECR_RUN);
        running := true;
      }
    }

    /** The mutation's own writes, in order, made while the controller is stopped. */
    method PerformWrites(mutation: seq<RegWrite>)
      requires BusConsistent() && !running
      requires forall i :: 0 <= i < |mutation| ==> mutation[i].reg != REG_ECR
      modifies this`writes
      ensures BusConsistent() && !running
      ensures writes == old(writes) + WireAll(mutation)
    {
      for i := 0 to |mutation|
        invariant BusConsistent() && !running
        invariant writes == old(writes) + WireAll(mutation[..i])
      {
        AppendWrite(writes, Wire(mutation[i]));
        assert mutation[..i + 1][..i] == mutation[..i];
        WriteReg(mutation[i].reg, mutation[i].val);
      }
      assert mutation[..|mutation|] == mutation;
    }

    /** `applySafely`: stop, perform the mutation's writes, start. The mutation is
        the list of register writes it makes, none of them to ECR. Each of its
        writes reaches a stopped controller, and the controller runs afterwards. */
    method ApplySafely(mutation: seq<RegWrite>)
      requires Valid()
      requires forall i :: 0 <= i < |mutation| ==> mutation[i].reg != REG_ECR
      modifies this`running, this`writes
      ensures Valid() && running
      ensures writes == old(writes) + (if old(running) then [RegWrite(REG_ECR, ECR_STOP)] else [])
                        + WireAll(mutation) + [RegWrite(REG_ECR, ECR_RUN)]
      ensures var from := |writes| - |mutation| - 1;
              0 <= from && StoppedDuring(writes, from, from + |mutation|)
    {
      StopRun();
      ghost var from := |writes|;
      PerformWrites(mutation);
      StartRun();
      ConfigSegmentStopped(writes, from, from + |mutation|);
    }

    /** `startIfNeeded`: the one-shot latch. The first call stops (a no-op unless
        the controller is running) and starts the controller; later calls do nothing. */
    method StartIfNeeded()
      requires Valid()
      modifies this`started, this`running, this`writes
      ensures Valid() && started && running
      ensures writes == old(writes) + StartWrites(old(started), old(running))
    {
      if started {
        return;
      }
      started := true;
      StopRun();
      StartRun();
    }

    /** One iteration of the polling task, given the two status bytes it reads:
        raise the events of every changed channel and remember the new mask. */
    method PollStep(lo: bv8, hi: bv8)
      requires Valid()
      modifies this`prevMask, this`events
      ensures Valid()
      ensures prevMask == TouchMask(lo, hi)
      ensures events == old(events) + StepEvents(old(prevMask), prevMask)
    {
      var mask := TouchMask(lo, hi);
      var diff := mask ^ prevMask;
      if diff != 0 {
        var raised := ScanChannels(prevMask, mask);
        events := events + raised;
        prevMask := mask;
      } else {
        NoEdgeNoEvents(prevMask, mask, NUM_KEYS);
      }
    }

    /** `setPollingInterval`: the interval is clamped into [5, 200] ms. */
    method SetPollingInterval(ms: int)
      requires Valid()
      modifies this`pollMs
      ensures Valid() && pollMs == PollInterval(ms)
    {
      pollMs := Clamp(MIN_POLL_MS, MAX_POLL_MS, ToInt32(ms));
    }

    /** `readTouchStatus`: a fresh mask, without touching the previous mask or the events. */
    method ReadTouchStatus(lo: bv8, hi: bv8) returns (mask: Word)
      requires Valid()
      modifies this`started, this`running, this`writes
      ensures Valid() && started
      ensures writes == old(writes) + StartWrites(old(started), old(running))
      ensures mask == TouchMask(lo, hi)
    {
      StartIfNeeded();
      mask := TouchMask(lo, hi);
    }

    /** `isTouched`: the key's bit of a fresh mask, which is a bit of the low status
        byte for T0-T7 and of the high one for T8-T11. */
    method IsTouched(key: Key, lo: bv8, hi: bv8) returns (touched: bool)
      requires Valid()
      modifies this`started, this`running, this`writes
      ensures Valid() && started
      ensures writes == old(writes) + StartWrites(old(started), old(running))
      ensures touched <==> if key < 8 then Bit(lo as Word, key) else Bit(hi as Word, key - 8)
    {
      StartIfNeeded();
      touched := (TouchMask(lo, hi) & ChannelBit(key)) != 0;
      TouchMaskBit(lo, hi, key);
    }

    /** `onPressed`: the event value a pressed-handler for `key` is registered under,
        built as the poller builds the value it raises. */
    method OnPressed(key: Key) returns (value: int)
      requires Valid()
      modifies this`started, this`running, this`writes
      ensures Valid() && started
      ensures writes == old(writes) + StartWrites(old(started), old(running))
      ensures Decode(value) == Some(Pressed(key))
    {
      StartIfNeeded();
      value := ChannelCode(key, EVT_PRESSED);
    }

    /** `onReleased`: likewise for a released-handler. */
    method OnReleased(key: Key) returns (value: int)
      requires Valid()
      modifies this`started, this`running, this`writes
      ensures Valid() && started
      ensures writes == old(writes) + StartWrites(old(started), old(running))
      ensures Decode(value) == Some(Released(key))
    {
      StartIfNeeded();
      value := ChannelCode(key, EVT_RELEASED);
    }

    /** `onAnyPressed` and `onAnyReleased`: the aggregate event values. */
    method OnAnyPressed() returns (value: int)
      requires Valid()
      modifies this`started, this`running, this`writes
      ensures Valid() && started
      ensures writes == old(writes) + StartWrites(old(started), old(running))
      ensures Decode(value) == Some(AnyPressed)
    {
      StartIfNeeded();
      value := EVT_ANY_PRESSED;
    }

    method OnAnyReleased() returns (value: int)
      requires Valid()
      modifies this`started, this`running, this`writes
      ensures Valid() && started
      ensures writes == old(writes) + StartWrites(old(started), old(running))
      ensures Decode(value) == Some(AnyReleased)
    {
      StartIfNeeded();
      value := EVT_ANY_RELEASED;
    }

    /** `setThreshold`: both values clamped into [0, 255], then written to the
        key's touch and release threshold registers between a stop and a start. */
    method SetThreshold(key: Key, touch: int, release: int)
      requires Valid()
      modifies this`running, this`writes
      ensures Valid() && running
      ensures writes == old(writes) + (if old(running) then [RegWrite(REG_ECR, ECR_STOP)] else [])
        + [RegWrite(RegTTH(key), ThresholdValue(touch)), RegWrite(RegRTH(key), ThresholdValue(release))]
        + [RegWrite(REG_ECR, ECR_RUN)]
    {
      var m := key;
      var t := Clamp(0, 0xFF, ToInt32(touch));
      var r := Clamp(0, 0xFF, ToInt32(release));
      ApplySafely([RegWrite(RegTTH(m), t), RegWrite(RegRTH(m), r)]);
      assert WireAll([RegWrite(RegTTH(m), t), RegWrite(RegRTH(m), r)])
          == [RegWrite(RegTTH(m), t), RegWrite(RegRTH(m), r)];
    }

    /** `setAllThresholds`: both values clamped into [0, 255], then written to all
        twelve channels, ascending, between a stop and a start. */
    method SetAllThresholds(touch: int, release: int)
      requires Valid()
      modifies this`running, this`writes
      ensures Valid() && running
      ensures writes == old(writes) + (if old(running) then [RegWrite(REG_ECR, ECR_STOP)] else [])
        + ThresholdWritesBelow(ThresholdValue(touch), ThresholdValue(release), NUM_KEYS)
        + [RegWrite(REG_ECR, ECR_RUN)]
    {
      var u := Clamp(0, 0xFF, ToInt32(touch));
      var s := Clamp(0, 0xFF, ToInt32(release));
      var mutation: seq<RegWrite> := [];
      for n := 0 to NUM_KEYS
        invariant mutation == ThresholdWritesBelow(u, s, n)
      {
        mutation := mutation + [RegWrite(RegTTH(n), u), RegWrite(RegRTH(n), s)];
      }
      ThresholdWritesAreConfig(u, s);
      ApplySafely(mutation);
      ThresholdWritesShape(u, s, NUM_KEYS);
      assert WireAll(mutation) == mutation;
    }
  }

  /** The masks read by successive polls, from their status byte pairs. */
  function Masks(lows: seq<bv8>, highs: seq<bv8>): (ms: seq<Word>)
    requires |lows| == |highs|
    ensures |ms| == |lows|
    ensures forall i :: 0 <= i < |ms| ==> ms[i] == TouchMask(lows[i], highs[i])
  {
    if lows == [] then []
    else Masks(lows[..|lows| - 1], highs[..|highs| - 1]) + [TouchMask(lows[|lows| - 1], highs[|highs| - 1])]
  }

  lemma MasksSnoc(lows: seq<bv8>, highs: seq<bv8>, i: nat)
    requires |lows| == |highs| && i < |lows|
    ensures Masks(lows[..i + 1], highs[..i + 1]) == Masks(lows[..i], highs[..i]) + [TouchMask(lows[i], highs[i])]
  {
    assert lows[..i + 1][..i] == lows[..i];
    assert highs[..i + 1][..i] == highs[..i];
  }

  /** Successive iterations of the polling task: the events raised are those
      of the run of masks read, and the last mask read is remembered. */
  method PollRun(d: Driver, lows: seq<bv8>, highs: seq<bv8>)
    requires d.Valid() && |lows| == |highs|
    modifies d`prevMask, d`events
    ensures d.Valid()
    ensures d.prevMask == LastMask(old(d.prevMask), Masks(lows, highs))
    ensures d.events == old(d.events) + RunEvents(old(d.prevMask), Masks(lows, highs))
  {
    ghost var prev0 := d.prevMask;
    for i := 0 to |lows|
      invariant d.Valid()
      invariant d.prevMask == LastMask(prev0, Masks(lows[..i], highs[..i]))
      invariant d.events == old(d.events) + RunEvents(prev0, Masks(lows[..i], highs[..i]))
    {
      ghost var ms := Masks(lows[..i], highs[..i]);
      ghost var m := TouchMask(lows[i], highs[i]);
      MasksSnoc(lows, highs, i);
      RunEventsSnoc(prev0, ms, m);
      ghost var run := RunEvents(prev0, ms);
      ghost var step := StepEvents(d.prevMask, m);
      d.PollStep(lows[i], highs[i]);
      assert d.events == old(d.events) + (run + step);
    }
    assert lows[..|lows|] == lows && highs[..|highs|] == highs;
  }

  /** Calling stopRun twice in a row writes ECR at most once, and only if the
      controller was running. */
  method StopRunTwice(d: Driver)
    requires d.BusConsistent()
    modifies d`running, d`writes
    ensures !d.running
    ensures d.writes == old(d.writes) + (if old(d.running) then [RegWrite(REG_ECR, ECR_STOP)] else [])
  {
    d.StopRun();
    d.StopRun();
  }

  /** Calling startRun twice in a row writes ECR at most once, and only if the
      controller was stopped. */
  method StartRunTwice(d: Driver)
    requires d.BusConsistent()
    modifies d`running, d`writes
    ensures d.running
    ensures d.writes == old(d.writes) + (if old(d.running) then [] else [RegWrite(REG_ECR, ECR_RUN)])
  {
    d.StartRun();
    d.StartRun();
  }

  /** After the first call to startIfNeeded, further calls change nothing. */
  method StartIfNeededTwice(d: Driver)
    requires d.Valid()
    modifies d`started, d`running, d`writes
    ensures d.started && d.running
    ensures d.writes == old(d.writes)
      + (if old(d.started) then [] else
           (if old(d.running) then [RegWrite(REG_ECR, ECR_STOP)] else []) + [RegWrite(REG_ECR, ECR_RUN)])
  {
    d.StartIfNeeded();
    ghost var once := d.writes;
    d.StartIfNeeded();
    assert d.writes == once;
  }
}
