/** The touch status mask and the edge events one poll derives from it.
    Bitwise operators act on 32-bit two's-complement values, so masks and
    shifted bits are `bv32`; the status bytes read from the bus are `bv8`. */
module Touch {
  import opened Registers

  type Word = bv32

  datatype Option<T> = None | Some(value: T)

  /** `readTouchMask`: the two status bytes combined as `((hi << 8) | lo) & 0x0FFF`.
      Bits 0-7 are the low byte, bits 8-11 the low nibble of the high byte;
      the high nibble of the high byte is dropped. */
  function TouchMask(lo: bv8, hi: bv8): (m: Word)
    ensures m <= 0x0FFF
    ensures m & 0xFF == lo as Word
    ensures m >> 8 == (hi & 0x0F) as Word
  {
    (((hi as Word) << 8) | (lo as Word)) & 0x0FFF
  }

  /** Every 12-bit mask is the combination of its own two status bytes. */
  lemma TouchMaskSplit(m: Word)
    requires m <= 0x0FFF
    ensures TouchMask((m & 0xFF) as bv8, (m >> 8) as bv8) == m
  {
  }

  /** The word `1 << k` of channel `k`: bit `k` alone. Built by doubling so that
      proofs about it stay within bit-vector arithmetic; ChannelBitIsShift
      shows it is the source's `1 << k`. */
  function ChannelBit(k: Key): Word
  {
    if k == 0 then 1 else ChannelBit(k - 1) << 1
  }

  /** The twelve channel words, written out. */
  lemma ChannelBitValue(k: Key)
    ensures ChannelBit(k) == [0x001, 0x002, 0x004, 0x008, 0x010, 0x020,
                              0x040, 0x080, 0x100, 0x200, 0x400, 0x800][k]
  {
    if k == 0 {} else if k == 1 {} else if k == 2 {} else if k == 3 {}
    else if k == 4 {} else if k == 5 {} else if k == 6 {} else if k == 7 {}
    else if k == 8 {} else if k == 9 {} else if k == 10 {} else {}
  }

  lemma ChannelBitIsShift(k: Key)
    ensures ChannelBit(k) == (1 as Word) << k
  {
    ChannelBitValue(k);
    if k == 0 {} else if k == 1 {} else if k == 2 {} else if k == 3 {}
    else if k == 4 {} else if k == 5 {} else if k == 6 {} else if k == 7 {}
    else if k == 8 {} else if k == 9 {} else if k == 10 {} else {}
  }

  /** A channel word has a single bit set. */
  lemma ChannelBitSingle(k: Key)
    ensures ChannelBit(k) != 0 && ChannelBit(k) & (ChannelBit(k) - 1) == 0
  {
    ChannelBitValue(k);
  }

  /** Channel `k` of mask `m`: `(m & (1 << k)) !== 0`. */
  predicate Bit(m: Word, k: Key)
  {
    (m & ChannelBit(k)) != 0
  }

  /** A single set bit of an exclusive or is set in exactly one operand. */
  lemma XorSingleBit(x: Word, y: Word, b: Word)
    requires b & (b - 1) == 0
    ensures ((x ^ y) & b != 0) == ((x & b != 0) != (y & b != 0))
  {
  }

  /** Channel `k` of `mask ^ prev` is set exactly when `k` differs between them. */
  lemma DiffBit(prev: Word, mask: Word, k: Key)
    ensures ((mask ^ prev) & ChannelBit(k) != 0) == (Bit(prev, k) != Bit(mask, k))
  {
    ChannelBitSingle(k);
    XorSingleBit(mask, prev, ChannelBit(k));
  }

  /** Channel `k` of the combined mask is bit `k` of the low byte for k < 8 and
      bit `k - 8` of the high byte for 8 <= k < 12. */
  lemma TouchMaskBit(lo: bv8, hi: bv8, k: Key)
    ensures Bit(TouchMask(lo, hi), k)
        <==> if k < 8 then Bit(lo as Word, k) else Bit(hi as Word, k - 8)
  {
    ChannelBitValue(k);
    if k >= 8 {
      ChannelBitValue(k - 8);
    }
  }

  /** Event values raised under the driver's event source. */
  const EVT_PRESSED: int := 1
  const EVT_RELEASED: int := 2
  const EVT_ANY_PRESSED: int := 3
  const EVT_ANY_RELEASED: int := 4

  /** The events the driver raises and handlers subscribe to. */
  datatype Event = Pressed(key: Key) | Released(key: Key) | AnyPressed | AnyReleased

  /** `(k << 4) | d` for a channel `k` and a direction `d` < 16: the shift leaves
      the low four bits clear, so the or is an addition. */
  function ChannelCode(k: Key, d: int): (v: int)
    requires 0 <= d < 16
    ensures v / 16 == k && v % 16 == d
  {
    k * 16 + d
  }

  /** For the two directions the driver uses, the arithmetic form agrees with
      the bitwise `(k << 4) | d`. */
  lemma ChannelCodeIsShiftOr(k: Key, d: int)
    requires d == EVT_PRESSED || d == EVT_RELEASED
    ensures ((((k as bv32) << 4) | (d as bv32)) as int) == ChannelCode(k, d)
  {
    if k == 0 {} else if k == 1 {} else if k == 2 {} else if k == 3 {}
    else if k == 4 {} else if k == 5 {} else if k == 6 {} else if k == 7 {}
    else if k == 8 {} else if k == 9 {} else if k == 10 {} else {}
  }

  /** The event value: `(k << 4) | EVT_PRESSED` and `(k << 4) | EVT_RELEASED` per
      channel, 3 and 4 for the aggregate events. */
  function Code(e: Event): int
  {
    match e
    case Pressed(k) => ChannelCode(k, EVT_PRESSED)
    case Released(k) => ChannelCode(k, EVT_RELEASED)
    case AnyPressed => EVT_ANY_PRESSED
    case AnyReleased => EVT_ANY_RELEASED
  }

  /** Which subscription an event value reaches, if any: the channel is the high
      part of the value, the direction its low nibble. */
  function Decode(v: int): (e: Option<Event>)
    ensures e.Some? && e.value.AnyPressed? <==> v == EVT_ANY_PRESSED
    ensures e.Some? && e.value.AnyReleased? <==> v == EVT_ANY_RELEASED
  {
    if v == EVT_ANY_PRESSED then Some(AnyPressed)
    else if v == EVT_ANY_RELEASED then Some(AnyReleased)
    else if 0 <= v < 16 * NUM_KEYS && v % 16 == EVT_PRESSED then Some(Pressed(v / 16))
    else if 0 <= v < 16 * NUM_KEYS && v % 16 == EVT_RELEASED then Some(Released(v / 16))
    else None
  }

  /** Decoding undoes Code, and Code undoes decoding. */
  lemma DecodeCode(e: Event)
    ensures Decode(Code(e)) == Some(e)
  {
  }

  lemma CodeDecode(v: int)
    ensures Decode(v).Some? ==> Code(Decode(v).value) == v
  {
  }

  /** The 26 event values are pairwise distinct: a handler subscribed to one
      event never runs for another. */
  lemma CodeInjective(a: Event, b: Event)
    ensures Code(a) == Code(b) <==> a == b
  {
    DecodeCode(a);
    DecodeCode(b);
  }

  /** The per-channel event and the aggregate event of one edge. */
  function ChannelEvent(k: Key, pressed: bool): Event
  {
    if pressed then Pressed(k) else Released(k)
  }

  function AnyEvent(pressed: bool): Event
  {
    if pressed then AnyPressed else AnyReleased
  }

  /** The values raised for channel `k` when its bit goes from `was` to `now`:
      none when the bit is unchanged, otherwise the channel event and then the
      aggregate event, in the direction of the new bit. */
  function EdgeEvents(k: Key, was: bool, now: bool): seq<int>
  {
    if was == now then []
    else [Code(ChannelEvent(k, now)), Code(AnyEvent(now))]
  }

  /** The values raised for channel `k` in a poll that moves from `prev` to `mask`. */
  function ChannelEvents(prev: Word, mask: Word, k: Key): seq<int>
  {
    EdgeEvents(k, Bit(prev, k), Bit(mask, k))
  }

  /** The values raised for channels 0 .. n-1, channels ascending. */
  function EventsBelow(prev: Word, mask: Word, n: nat): seq<int>
    requires n <= NUM_KEYS
  {
    if n == 0 then [] else EventsBelow(prev, mask, n - 1) + ChannelEvents(prev, mask, n - 1)
  }

  /** The values one poll raises when the previous mask is `prev` and the new one `mask`. */
  function StepEvents(prev: Word, mask: Word): seq<int>
  {
    EventsBelow(prev, mask, NUM_KEYS)
  }

  /** The channels below `n` whose bit differs between `prev` and `mask`, ascending. */
  function ChangedBelow(prev: Word, mask: Word, n: nat): seq<Key>
    requires n <= NUM_KEYS
  {
    if n == 0 then []
    else ChangedBelow(prev, mask, n - 1) + (if Bit(prev, n - 1) != Bit(mask, n - 1) then [n - 1] else [])
  }

  function Changed(prev: Word, mask: Word): seq<Key>
  {
    ChangedBelow(prev, mask, NUM_KEYS)
  }

  /** ChangedBelow lists exactly the changed channels below `n`, strictly ascending. */
  lemma {:induction false} ChangedBelowSpec(prev: Word, mask: Word, n: nat)
    requires n <= NUM_KEYS
    ensures forall i :: 0 <= i < |ChangedBelow(prev, mask, n)| ==> ChangedBelow(prev, mask, n)[i] < n
    ensures forall k: Key :: k < n && Bit(prev, k) != Bit(mask, k) <==> k in ChangedBelow(prev, mask, n)
    ensures forall i, j :: 0 <= i < j < |ChangedBelow(prev, mask, n)| ==>
      ChangedBelow(prev, mask, n)[i] < ChangedBelow(prev, mask, n)[j]
  {
    if n > 0 {
      ChangedBelowSpec(prev, mask, n - 1);
    }
  }

  /** Event order within a poll: one pair per changed channel, channels ascending,
      each pair the channel event followed by the aggregate event of the same
      direction, pressed exactly when the channel's new bit is set. */
  lemma {:induction false} EventsBelowOrder(prev: Word, mask: Word, n: nat)
    requires n <= NUM_KEYS
    ensures |EventsBelow(prev, mask, n)| == 2 * |ChangedBelow(prev, mask, n)|
    ensures forall i :: 0 <= i < |ChangedBelow(prev, mask, n)| ==>
      var k := ChangedBelow(prev, mask, n)[i];
      EventsBelow(prev, mask, n)[2 * i] == Code(ChannelEvent(k, Bit(mask, k))) &&
      EventsBelow(prev, mask, n)[2 * i + 1] == Code(AnyEvent(Bit(mask, k)))
  {
    if n > 0 {
      EventsBelowOrder(prev, mask, n - 1);
    }
  }

  lemma StepEventsOrder(prev: Word, mask: Word)
    ensures forall k: Key :: Bit(prev, k) != Bit(mask, k) <==> k in Changed(prev, mask)
    ensures forall i, j :: 0 <= i < j < |Changed(prev, mask)| ==> Changed(prev, mask)[i] < Changed(prev, mask)[j]
    ensures |StepEvents(prev, mask)| == 2 * |Changed(prev, mask)|
    ensures forall i :: 0 <= i < |Changed(prev, mask)| ==>
      var k := Changed(prev, mask)[i];
      StepEvents(prev, mask)[2 * i] == Code(ChannelEvent(k, Bit(mask, k))) &&
      StepEvents(prev, mask)[2 * i + 1] == Code(AnyEvent(Bit(mask, k)))
  {
    ChangedBelowSpec(prev, mask, NUM_KEYS);
    EventsBelowOrder(prev, mask, NUM_KEYS);
  }

  /** A poll raises nothing exactly when no channel's bit changed. */
  lemma {:induction false} NoEdgeNoEvents(prev: Word, mask: Word, n: nat)
    requires n <= NUM_KEYS
    ensures EventsBelow(prev, mask, n) == [] <==> forall k: Key :: k < n ==> Bit(prev, k) == Bit(mask, k)
  {
    if n > 0 {
      NoEdgeNoEvents(prev, mask, n - 1);
    }
  }

  /** Channel `j`'s events hold channel `k`'s pressed value once if `j` is `k`
      and its bit rose, its released value once if `j` is `k` and its bit fell. */
  lemma EdgeEventsCount(j: Key, was: bool, now: bool, k: Key)
    ensures multiset(EdgeEvents(j, was, now))[Code(Pressed(k))]
            == if j == k && !was && now then 1 else 0
    ensures multiset(EdgeEvents(j, was, now))[Code(Released(k))]
            == if j == k && was && !now then 1 else 0
  {
    CodeInjective(Pressed(k), ChannelEvent(j, now));
    CodeInjective(Pressed(k), AnyEvent(now));
    CodeInjective(Released(k), ChannelEvent(j, now));
    CodeInjective(Released(k), AnyEvent(now));
  }

  /** Occurrences in a concatenation add up. */
  lemma CountConcat(a: seq<int>, b: seq<int>, x: int)
    ensures multiset(a + b)[x] == multiset(a)[x] + multiset(b)[x]
  {
  }

  /** Within one poll, channel `k`'s pressed value is raised once if its bit rose
      and never otherwise; its released value once if the bit fell. */
  lemma {:induction false} EventsBelowCount(prev: Word, mask: Word, n: nat, k: Key)
    requires n <= NUM_KEYS
    ensures multiset(EventsBelow(prev, mask, n))[Code(Pressed(k))]
            == if k < n && !Bit(prev, k) && Bit(mask, k) then 1 else 0
    ensures multiset(EventsBelow(prev, mask, n))[Code(Released(k))]
            == if k < n && Bit(prev, k) && !Bit(mask, k) then 1 else 0
  {
    if n > 0 {
      var j := n - 1;
      EventsBelowCount(prev, mask, j, k);
      var before := EventsBelow(prev, mask, j);
      var here := ChannelEvents(prev, mask, j);
      assert EventsBelow(prev, mask, n) == before + here;
      CountConcat(before, here, Code(Pressed(k)));
      CountConcat(before, here, Code(Released(k)));
      if j == k {
        EdgeEventsCount(k, Bit(prev, k), Bit(mask, k), k);
      } else {
        EdgeEventsCount(j, Bit(prev, j), Bit(mask, j), k);
      }
    }
  }

  /** The values raised by successive polls that read `masks`, starting from `prev`. */
  function RunEvents(prev: Word, masks: seq<Word>): seq<int>
    decreases |masks|
  {
    if masks == [] then [] else StepEvents(prev, masks[0]) + RunEvents(masks[0], masks[1..])
  }

  /** Number of 0 -> 1 transitions of bit `k` along `prev, masks[0], masks[1], ..`. */
  function Rises(k: Key, prev: Word, masks: seq<Word>): nat
    decreases |masks|
  {
    if masks == [] then 0
    else (if !Bit(prev, k) && Bit(masks[0], k) then 1 else 0) + Rises(k, masks[0], masks[1..])
  }

  /** Number of 1 -> 0 transitions of bit `k` along `prev, masks[0], masks[1], ..`. */
  function Falls(k: Key, prev: Word, masks: seq<Word>): nat
    decreases |masks|
  {
    if masks == [] then 0
    else (if Bit(prev, k) && !Bit(masks[0], k) then 1 else 0) + Falls(k, masks[0], masks[1..])
  }

  /** Over any run of polls, channel `k` raises one pressed event per rising edge
      of its bit and one released event per falling edge, and no others. */
  lemma {:induction false} RunEventCounts(k: Key, prev: Word, masks: seq<Word>)
    decreases |masks|
    ensures multiset(RunEvents(prev, masks))[Code(Pressed(k))] == Rises(k, prev, masks)
    ensures multiset(RunEvents(prev, masks))[Code(Released(k))] == Falls(k, prev, masks)
  {
    if masks != [] {
      EventsBelowCount(prev, masks[0], NUM_KEYS, k);
      RunEventCounts(k, masks[0], masks[1..]);
    }
  }

  /** Channel 0 touched: the press pair alone. */
  lemma PressChannelZeroExample()
    ensures StepEvents(0x000, 0x001) == [Code(Pressed(0)), Code(AnyPressed)]
  {
    assert ChannelEvents(0x000, 0x001, 0) == [Code(Pressed(0)), Code(AnyPressed)];
    assert ChannelEvents(0x000, 0x001, 1) == [];
    assert ChannelEvents(0x000, 0x001, 2) == [];
    assert ChannelEvents(0x000, 0x001, 3) == [];
    assert ChannelEvents(0x000, 0x001, 4) == [];
    assert ChannelEvents(0x000, 0x001, 5) == [];
    assert ChannelEvents(0x000, 0x001, 6) == [];
    assert ChannelEvents(0x000, 0x001, 7) == [];
    assert ChannelEvents(0x000, 0x001, 8) == [];
    assert ChannelEvents(0x000, 0x001, 9) == [];
    assert ChannelEvents(0x000, 0x001, 10) == [];
    assert ChannelEvents(0x000, 0x001, 11) == [];
  }

  /** Channel 0 let go: the release pair alone. */
  lemma ReleaseChannelZeroExample()
    ensures StepEvents(0x001, 0x000) == [Code(Released(0)), Code(AnyReleased)]
  {
    assert ChannelEvents(0x001, 0x000, 0) == [Code(Released(0)), Code(AnyReleased)];
    assert ChannelEvents(0x001, 0x000, 1) == [];
    assert ChannelEvents(0x001, 0x000, 2) == [];
    assert ChannelEvents(0x001, 0x000, 3) == [];
    assert ChannelEvents(0x001, 0x000, 4) == [];
    assert ChannelEvents(0x001, 0x000, 5) == [];
    assert ChannelEvents(0x001, 0x000, 6) == [];
    assert ChannelEvents(0x001, 0x000, 7) == [];
    assert ChannelEvents(0x001, 0x000, 8) == [];
    assert ChannelEvents(0x001, 0x000, 9) == [];
    assert ChannelEvents(0x001, 0x000, 10) == [];
    assert ChannelEvents(0x001, 0x000, 11) == [];
  }

  /** The first poll of a run, then the rest of the run from its mask. */
  lemma RunEventsCons(prev: Word, m: Word, rest: seq<Word>)
    ensures RunEvents(prev, [m] + rest) == StepEvents(prev, m) + RunEvents(m, rest)
  {
    assert ([m] + rest)[1..] == rest;
  }

  /** The mask in force after the polls of `masks`. */
  function LastMask(prev: Word, masks: seq<Word>): Word
  {
    if masks == [] then prev else masks[|masks| - 1]
  }

  /** One more poll at the end of a run adds that poll's events, taken from the
      mask the run left behind. */
  lemma {:induction false} RunEventsSnoc(prev: Word, masks: seq<Word>, m: Word)
    decreases |masks|
    ensures RunEvents(prev, masks + [m]) == RunEvents(prev, masks) + StepEvents(LastMask(prev, masks), m)
  {
    if masks == [] {
      RunEventsCons(prev, m, []);
      assert masks + [m] == [m] + [];
    } else {
      var rest := masks[1..];
      RunEventsSnoc(masks[0], rest, m);
      assert masks + [m] == [masks[0]] + (rest + [m]);
      RunEventsCons(prev, masks[0], rest + [m]);
      assert masks == [masks[0]] + rest;
      RunEventsCons(prev, masks[0], rest);
      assert LastMask(masks[0], rest) == LastMask(prev, masks);
    }
  }

  lemma RunOfThree(prev: Word, a: Word, b: Word, c: Word)
    ensures RunEvents(prev, [a, b, c]) == StepEvents(prev, a) + StepEvents(a, b) + StepEvents(b, c)
  {
    RunEventsCons(b, c, []);
    assert [c] == [c] + [];
    RunEventsCons(a, b, [c]);
    assert [b, c] == [b] + [c];
    RunEventsCons(prev, a, [b, c]);
    assert [a, b, c] == [a] + [b, c];
  }

  /** A touch on channel 0 that is held for one poll and then released raises
      a press pair at the first poll, nothing at the second, a release pair at the third. */
  lemma HoldAndReleaseExample()
    ensures RunEvents(0x000, [0x001, 0x001, 0x000])
            == [Code(Pressed(0)), Code(AnyPressed), Code(Released(0)), Code(AnyReleased)]
  {
    PressChannelZeroExample();
    ReleaseChannelZeroExample();
    NoEdgeNoEvents(0x001, 0x001, NUM_KEYS);
    RunOfThree(0x000, 0x001, 0x001, 0x000);
  }

  /** Channels 0 and 3 touched in the same poll: channel 0's pair, then channel 3's. */
  lemma SimultaneousTouchExample()
    ensures StepEvents(0x000, 0x009)
            == [Code(Pressed(0)), Code(AnyPressed), Code(Pressed(3)), Code(AnyPressed)]
  {
    assert ChannelEvents(0x000, 0x009, 0) == [Code(Pressed(0)), Code(AnyPressed)];
    assert ChannelEvents(0x000, 0x009, 1) == [];
    assert ChannelEvents(0x000, 0x009, 2) == [];
    assert ChannelEvents(0x000, 0x009, 3) == [Code(Pressed(3)), Code(AnyPressed)];
    assert ChannelEvents(0x000, 0x009, 4) == [];
    assert ChannelEvents(0x000, 0x009, 5) == [];
    assert ChannelEvents(0x000, 0x009, 6) == [];
    assert ChannelEvents(0x000, 0x009, 7) == [];
    assert ChannelEvents(0x000, 0x009, 8) == [];
    assert ChannelEvents(0x000, 0x009, 9) == [];
    assert ChannelEvents(0x000, 0x009, 10) == [];
    assert ChannelEvents(0x000, 0x009, 11) == [];
  }
}
