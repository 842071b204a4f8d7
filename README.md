# MPR121 touch driver — verified model

`main.ts` is a MakeCode driver for the MPR121, a 12-channel capacitive touch
controller on an I2C bus. It keeps five module-level variables:
- `I2C_ADDR`: the controller's bus address, changed by `setAddress`;
- `_started`: whether polling has begun;
- `_running`: whether the controller's electrode configuration register (ECR) is enabled;
- `_prevMask`: the last 12-bit touch mask;
- `_pollMs`: the polling period.

It exposes blocks to read the touch state, subscribe to press and release events, set the polling period and write touch and release thresholds.

The project models the driver's core:

- `registers.dfy` (`Registers`): the register map and the arithmetic applied to
  requested values:
  - the threshold register addressing;
  - `x | 0` as 32-bit truncation;
  - `v & 0xFF` byte masking;
  - clamping of the polling period and of thresholds.
- `bus_log.dfy` (`BusLog`): register writes as a log of `(reg, val)` pairs.
  - Whether the controller is scanning is read off the log: the last ECR write decides, and the power-on state is stopped.
  - The safety rule: every configuration write reaches a stopped controller.
  - The list of writes `setAllThresholds` makes.
- `touch.dfy` (`Touch`): touch masks and edge events.
  - The byte combine of `readTouchMask`.
  - The channel bit test.
  - The event values raised and subscribed to.
  - The events of one poll, as a specification function, with its properties: which channels fire, in which direction, in which order.
  - The events of a run of polls, with per-channel edge counts.
- `driver.dfy` (`Mpr121`): class `Driver`, which holds `_started`, `_running`, `_prevMask` and `_pollMs`, the bus-write log and the raised-event log.
  - Its methods are the driver's functions: `stopRun`, `startRun`, `applySafely`, `startIfNeeded`, one iteration of the polling task, and the public blocks.
  - Each method is proved against the functions above.
  - Its invariant `Valid` ties `_running` to the bus log and keeps the safety rule.

Bus reads are parameters: the two status bytes a call would read. Register
writes are appended to the ghost log `writes`, and raised event values to the ghost log `events`.
The channel loop tests "bit k of `mask ^ _prevMask`" as "channel k differs
between the two masks"; `Touch.DiffBit` and `Touch.ChannelBitIsShift` prove
the two tests equal. The per-channel counts of `Touch.RunEventCounts` hold
from any starting mask, including the mask 0 of program start.

Some specification functions only compute; the lemmas that state what they
mean carry their rows below:
- `Touch.ChannelBit` (`1 << k`): `Touch.ChannelBitValue` and `Touch.ChannelBitIsShift`.
- `Touch.Bit` (`(mask & (1 << k)) !== 0`): `Touch.DiffBit` and `Touch.TouchMaskBit`.
- `Touch.Code` (the raised and subscribed values): `Touch.DecodeCode`, `Touch.CodeDecode` and `Touch.CodeInjective`.
- `Touch.EventsBelow` and `Touch.StepEvents` (the events of the poll body): `Touch.EventsBelowOrder`, `Touch.StepEventsOrder`, `Touch.NoEdgeNoEvents` and `Touch.EventsBelowCount`.

## Model

| member | source | states |
|---|---|---|
| Registers.RegTTH | main.ts:10 | the touch-threshold register of channel k is odd, lies in [0x41, 0x57], and (reg - 0x41) / 2 recovers k |
| Registers.RegRTH | main.ts:11 | the release-threshold register is even, lies in [0x42, 0x58], and sits right after the channel's touch-threshold register |
| Registers.ThresholdRegistersDistinct | main.ts:8-11 | the 24 threshold addresses are pairwise distinct and never the touch status registers or ECR |
| Registers.ToInt32 | main.ts:161 | the int32 truncation of an integer is a signed 32-bit value congruent to it modulo 2^32 |
| Registers.LowByte | main.ts:69 | `val & 0xFF` is a byte congruent to val modulo 256, and a value already in [0, 255] passes unchanged |
| Registers.Clamp | main.ts:161 | `Math.max(lo, Math.min(hi, x))` lies in [lo, hi], is x inside the range, lo below it and hi above it |
| Registers.ClampIsNearest | main.ts:238-239 | the clamped value is the point of [lo, hi] nearest to the request |
| Registers.PollInterval | main.ts:161 | the stored polling period is in [5, 200] ms; it equals the request when that is in range, is 5 for an int32 request below 5 and 200 for an int32 request above 200 |
| Registers.ThresholdValue | main.ts:238-239 | a written threshold is in [0, 255]; it equals the request when in range, is 0 for a negative int32 request and 255 for an int32 request above 255, and survives the byte mask unchanged |
| Registers.ClampExamples | main.ts:254-255 | requests of 1, 1000 and -1 ms give 5, 200 and 5 ms; thresholds 300, -5 and 2^32 + 12 give 255, 0 and 12 |
| BusLog.Wire | main.ts:66-71 | a bus transaction carries the register and a byte congruent to the value modulo 256 (its low byte), which is the value itself when it is a byte |
| BusLog.WireAll | main.ts:66-71 | a sequence of writeReg calls puts one transaction per call on the bus, in call order |
| BusLog.Scanning | main.ts:84-100 | the controller's run state after a log of writes: stopped when no write went to ECR, and scanning only if some write enabled ECR |
| BusLog.ScanningAppend | main.ts:84-100 | after one more write the controller scans exactly when that write enables ECR, or it is not an ECR write and the controller was already scanning |
| BusLog.ScanningAppendConfig | main.ts:102-107 | writes to registers other than ECR leave the scan state as it was |
| BusLog.AppendWrite | main.ts:102-107 | a write to ECR, or any write to a stopped controller, keeps the safety rule |
| BusLog.ThresholdWritesBelow | main.ts:257-260 | the writes of the first n iterations of the all-channel loop: two per channel, none to ECR |
| BusLog.ThresholdWritesShape | main.ts:257-260 | the all-channel threshold writes are exactly 24 writes to 0x41, 0x42, .., 0x58 in order, alternating touch and release values |
| BusLog.ThresholdWritesAreConfig | main.ts:257-260 | no all-channel threshold write goes to ECR |
| Touch.TouchMask | main.ts:78-82 | the combined mask is at most 0x0FFF, bits 0-7 are the low status byte, bits 8-11 the low nibble of the high byte |
| Touch.TouchMaskSplit | main.ts:81 | every 12-bit mask is the combination of its own two bytes, so no touch state is lost |
| Touch.ChannelBitValue | main.ts:124 | the channel words are 0x001, 0x002, .., 0x800 |
| Touch.ChannelBitIsShift | main.ts:124 | the channel word of k is `1 << k` |
| Touch.DiffBit | main.ts:121-125 | bit k of `mask ^ _prevMask` is set exactly when channel k differs between the two masks |
| Touch.TouchMaskBit | main.ts:78-82 | channel k of the combined mask is bit k of the low byte for T0-T7 and bit k - 8 of the high byte for T8-T11 |
| Touch.ChannelCode | main.ts:128-131 | `(k << 4) + d` keeps the channel in the high part and the direction in the low nibble |
| Touch.ChannelCodeIsShiftOr | main.ts:191 | for the pressed and released directions, shifting k left by 4 and or-ing in d on 32-bit words gives the arithmetic value |
| Touch.Decode | main.ts:15-18 | the values 3 and 4 are exactly the aggregate pressed and released events |
| Touch.DecodeCode | main.ts:128-131 | every event value decodes back to its event |
| Touch.CodeDecode | main.ts:15-18 | a value that decodes to an event is that event's value |
| Touch.CodeInjective | main.ts:15-18 | the 26 event values are pairwise distinct, so a handler never runs for another event |
| Touch.ChangedBelowSpec | main.ts:122-125 | the changed-channel list holds exactly the channels whose bit differs, strictly ascending |
| Touch.EventsBelowOrder | main.ts:123-134 | the first k channels raise one pair per changed channel, ascending; each pair is the channel value then the aggregate value, pressed exactly when the new bit is set |
| Touch.StepEventsOrder | main.ts:121-135 | a poll raises, for exactly the changed channels in ascending order, the channel value then the aggregate value, pressed iff the new bit is set |
| Touch.NoEdgeNoEvents | main.ts:121-122 | a poll raises nothing exactly when no channel changed |
| Touch.EdgeEventsCount | main.ts:125-133 | one channel's edge holds channel k's pressed value once on a rising edge of k and its released value once on a falling edge, and neither otherwise |
| Touch.EventsBelowCount | main.ts:123-134 | within one poll, channel k's pressed value is raised once if its bit rose and never otherwise; likewise released for a fall |
| Touch.RunEventsSnoc | main.ts:118-139 | one more poll at the end of a run adds that poll's events, taken against the mask the run left |
| Touch.RunEventCounts | main.ts:118-139 | over any run of polls, channel k's pressed (released) value is raised once per 0 -> 1 (1 -> 0) transition of its bit |
| Touch.RunOfThree | main.ts:118-139 | three polls raise the events of each step, in order, each taken against the previous mask |
| Touch.PressChannelZeroExample | main.ts:126-129 | touching T0 raises T0's pressed value (1) then 3 and nothing else |
| Touch.ReleaseChannelZeroExample | main.ts:130-133 | letting go of T0 raises T0's released value (2) then 4 and nothing else |
| Touch.HoldAndReleaseExample | main.ts:118-139 | a touch of T0 held for one poll raises the press pair, nothing, then the release pair |
| Touch.SimultaneousTouchExample | main.ts:123-134 | T0 and T3 touched together raise T0's pair before T3's |
| Mpr121.ScanChannels | main.ts:123-135 | the channel loop builds exactly the events the poll specification prescribes |
| Mpr121.Masks | main.ts:78-82 | each poll of a run reads the combination of its own two status bytes |
| Mpr121.StartWrites | main.ts:110-116 | the start-up writes: none once started, otherwise one or two ECR writes ending with ECR = 0x8F |
| Mpr121.Driver.constructor | main.ts:21-24 | the initial state: not started, not running, previous mask 0, period 20 ms, nothing written or raised |
| Mpr121.Driver.WriteReg | main.ts:66-71 | one transaction is logged: the register and the value's low byte |
| Mpr121.Driver.StopRun | main.ts:85-91 | ECR = 0x00 is written only when running, and the controller is stopped afterwards |
| Mpr121.Driver.StartRun | main.ts:93-100 | ECR = 0x8F is written only when stopped, and the controller is running afterwards |
| Mpr121.Driver.PerformWrites | main.ts:105 | the mutation's writes are logged in order, each while the controller is stopped |
| Mpr121.Driver.ApplySafely | main.ts:103-107 | the log gains a stop (if running), the mutation's writes, then a start; every mutation write reaches a stopped controller; the controller runs afterwards |
| Mpr121.Driver.StartIfNeeded | main.ts:110-116 | the first call stops (a no-op when stopped) and starts the controller; later calls write nothing |
| Mpr121.Driver.PollStep | main.ts:119-138 | one poll raises exactly the events the poll specification gives for the old and new masks, stores the new mask, and changes nothing else |
| Mpr121.PollRun | main.ts:118-140 | successive polls raise exactly the events of the run of masks read, and the last mask read is remembered |
| Mpr121.Driver.SetPollingInterval | main.ts:160-162 | the period becomes the clamped request |
| Mpr121.Driver.ReadTouchStatus | main.ts:169-172 | polling is started and the returned mask is the combination of the two status bytes; the bus log gains exactly the start-up writes |
| Mpr121.Driver.IsTouched | main.ts:179-182 | polling is started and the key reads touched exactly when its bit is set in the status byte that holds it; the bus log gains exactly the start-up writes |
| Mpr121.Driver.OnPressed | main.ts:189-193 | the value subscribed to is the one the poller raises for a press of the key; the bus log gains exactly the start-up writes |
| Mpr121.Driver.OnReleased | main.ts:200-204 | the value subscribed to is the one the poller raises for a release of the key; the bus log gains exactly the start-up writes |
| Mpr121.Driver.OnAnyPressed | main.ts:211-214 | the value subscribed to is the aggregate pressed value; the bus log gains exactly the start-up writes |
| Mpr121.Driver.OnAnyReleased | main.ts:221-224 | the value subscribed to is the aggregate released value; the bus log gains exactly the start-up writes |
| Mpr121.Driver.SetThreshold | main.ts:236-244 | the log gains a stop (if running), the clamped touch and release writes to the key's two registers, then a start |
| Mpr121.Driver.SetAllThresholds | main.ts:253-262 | the log gains a stop (if running), the 24 threshold writes for T0..T11 ascending with the clamped values, then a start |
| Mpr121.StopRunTwice | main.ts:85-91 | two stops in a row write ECR at most once, and only when the controller was running |
| Mpr121.StartRunTwice | main.ts:93-100 | two starts in a row write ECR at most once, and only when the controller was stopped |
| Mpr121.StartIfNeededTwice | main.ts:110-112 | a second call of startIfNeeded writes nothing |

## Left out

- I2C transport (`pins.createBuffer`, `pins.i2cWriteBuffer`, `pins.i2cWriteNumber`, `pins.i2cReadNumber`): foreign calls. A read is a byte parameter; a write is a log entry.
- `readRegU8`: its `& 0xFF` is implied by the `bv8` type of the status bytes.
- `basic.pause`: in MakeCode it yields to other fibers, and `stopRun` and `startRun` pause between the ECR write and the flag update. Each modelled method runs atomically. The safety rule is therefore proved only for calls that do not interleave. Two `applySafely` calls from different fibers (main code and a handler, say) can interleave so that one writes thresholds to a running controller; the model does not capture that.
- `control.inBackground` and the unbounded `while (true)` loop: cooperative concurrency. One iteration is `PollStep`, and a finite run of iterations is `PollRun`.
- `control.raiseEvent`, `control.onEvent` and handler execution: foreign event machinery. Only the sequence of raised values and the value each subscription uses are modelled. `EVT_SRC` is not modelled.
- `setAddress` and the I2C address: only the bus address of transactions, which the log does not record.
- The `Key` and `I2CAddress` enums and the block annotations: UI metadata. A key is an integer in [0, 11].
- `x | 0` on non-integer numbers: requested periods and thresholds are integers here; fractional and non-finite inputs are not modelled.
- Mpr121.Driver.ApplySafely: the mutation is modelled as the list of register writes it makes. It must not write ECR, and it returns normally; the driver's own mutations meet both conditions. The source has no try/finally, so nothing is claimed about the run state when a mutation throws.
- BusLog.Scanning: the controller's scan state is modelled as "the last ECR write was not 0x00, starting stopped at power-on". This covers the two values the driver writes, 0x00 and 0x8F; other ECR encodings and other writers of the chip are not modelled.
- Mpr121.Driver.StartIfNeeded: the source's `stopRun` before `startRun` writes nothing at the first call from a fresh state, because `_running` starts false. The contract states this case split rather than an unconditional stop and start.
