/** The register writes the driver sends over the bus, as a log, and what can be
    read off such a log: whether the controller is scanning after it, and
    whether every configuration write in it reached a stopped controller. */
module BusLog {
  import opened Registers

  /** One two-byte bus transaction: register address, then value. */
  datatype RegWrite = RegWrite(reg: int, val: int)

  /** What writeReg puts on the bus for a requested write: the value is masked to a byte. */
  function Wire(w: RegWrite): (r: RegWrite)
    ensures r.reg == w.reg && 0 <= r.val <= 0xFF
    ensures (w.val - r.val) % 0x100 == 0
    ensures 0 <= w.val <= 0xFF ==> r == w
  {
    RegWrite(w.reg, LowByte(w.val))
  }

  /** The bus transactions of a sequence of writeReg calls, in call order. */
  function WireAll(ws: seq<RegWrite>): (r: seq<RegWrite>)
    ensures |r| == |ws|
    ensures forall i :: 0 <= i < |ws| ==> r[i] == Wire(ws[i])
  {
    if ws == [] then [] else WireAll(ws[..|ws| - 1]) + [Wire(ws[|ws| - 1])]
  }

  /** Whether the controller is scanning after the writes of `log`, starting from
      its power-on state (ECR = 0x00, stopped): the last write to ECR decides. */
  function Scanning(log: seq<RegWrite>): (scanning: bool)
    ensures (forall i :: 0 <= i < |log| ==> log[i].reg != REG_ECR) ==> !scanning
    ensures scanning ==> exists i :: 0 <= i < |log| && log[i].reg == REG_ECR && log[i].val != ECR_STOP
  {
    if log == [] then false
    else if log[|log| - 1].reg == REG_ECR then log[|log| - 1].val != ECR_STOP
    else Scanning(log[..|log| - 1])
  }

  lemma ScanningAppend(log: seq<RegWrite>, w: RegWrite)
    ensures Scanning(log + [w]) == if w.reg == REG_ECR then w.val != ECR_STOP else Scanning(log)
  {
    assert (log + [w])[..|log|] == log;
  }

  /** Writes that leave ECR alone leave the scan state as it was. */
  lemma {:induction false} ScanningAppendConfig(log: seq<RegWrite>, ws: seq<RegWrite>)
    requires forall i :: 0 <= i < |ws| ==> ws[i].reg != REG_ECR
    ensures Scanning(log + ws) == Scanning(log)
  {
    if ws == [] {
      assert log + ws == log;
    } else {
      var init := ws[..|ws| - 1];
      ScanningAppendConfig(log, init);
      assert log + ws == (log + init) + [ws[|ws| - 1]];
      ScanningAppend(log + init, ws[|ws| - 1]);
    }
  }

  /** The writes at positions [from, to) of `log` all reached a stopped controller. */
  ghost predicate StoppedDuring(log: seq<RegWrite>, from: int, to: int)
    requires 0 <= from <= to <= |log|
  {
    forall i :: from <= i < to ==> !Scanning(log[..i])
  }

  /** The driver's safety rule: every write to a register other than ECR reaches
      a stopped controller (a scanning MPR121 ignores configuration writes). */
  ghost predicate ConfigWritesWhileStopped(log: seq<RegWrite>)
  {
    forall i :: 0 <= i < |log| && log[i].reg != REG_ECR ==> !Scanning(log[..i])
  }

  /** Under the safety rule, a stretch of configuration writes all reached a
      stopped controller. */
  lemma ConfigSegmentStopped(log: seq<RegWrite>, from: int, to: int)
    requires ConfigWritesWhileStopped(log)
    requires 0 <= from <= to <= |log|
    requires forall i :: from <= i < to ==> log[i].reg != REG_ECR
    ensures StoppedDuring(log, from, to)
  {
  }

  /** Appending a write keeps the safety rule when it is an ECR write or the
      controller is stopped, and moves the scan state as ECR writes dictate. */
  lemma AppendWrite(log: seq<RegWrite>, w: RegWrite)
    requires ConfigWritesWhileStopped(log)
    requires w.reg == REG_ECR || !Scanning(log)
    ensures ConfigWritesWhileStopped(log + [w])
    ensures Scanning(log + [w]) == if w.reg == REG_ECR then w.val != ECR_STOP else Scanning(log)
  {
    ScanningAppend(log, w);
    var log' := log + [w];
    forall i | 0 <= i < |log'| && log'[i].reg != REG_ECR
      ensures !Scanning(log'[..i])
    {
      if i < |log| {
        assert log'[..i] == log[..i];
      } else {
        assert log'[..i] == log;
      }
    }
  }

  /** The writes setAllThresholds hands to applySafely for channels 0 .. n-1:
      the touch then release threshold of each channel, channels ascending. */
  function ThresholdWritesBelow(touch: int, release: int, n: nat): (ws: seq<RegWrite>)
    requires n <= NUM_KEYS
    ensures |ws| == 2 * n
    ensures forall i :: 0 <= i < |ws| ==> ws[i].reg != REG_ECR
  {
    if n == 0 then []
    else ThresholdWritesBelow(touch, release, n - 1)
         + [RegWrite(RegTTH(n - 1), touch), RegWrite(RegRTH(n - 1), release)]
  }

  /** The threshold writes walk the register file from 0x41 upwards, one address
      per write, alternating touch and release values. */
  lemma {:induction false} ThresholdWritesShape(touch: int, release: int, n: nat)
    requires n <= NUM_KEYS
    ensures |ThresholdWritesBelow(touch, release, n)| == 2 * n
    ensures forall i :: 0 <= i < 2 * n ==>
      ThresholdWritesBelow(touch, release, n)[i]
        == RegWrite(0x41 + i, if i % 2 == 0 then touch else release)
  {
    if n > 0 {
      ThresholdWritesShape(touch, release, n - 1);
    }
  }

  /** No threshold write touches ECR. */
  lemma ThresholdWritesAreConfig(touch: int, release: int)
    ensures forall i :: 0 <= i < |ThresholdWritesBelow(touch, release, NUM_KEYS)| ==>
      0x41 <= ThresholdWritesBelow(touch, release, NUM_KEYS)[i].reg <= 0x58
  {
    ThresholdWritesShape(touch, release, NUM_KEYS);
  }
}
