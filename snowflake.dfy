/** The Snowflake id generator of util/Snowflake.java.

    Java `long` values are integers; where Java's 64-bit arithmetic wraps (the
    subtraction of the epoch, the shifts, the addition in `extractTimestamp`)
    the wrap is written out with `Wrap`, and `|` is a bitwise or on the
    unsigned 64-bit patterns. An id packs, from the low bits up, a 12-bit
    sequence, a 41-bit timestamp (milliseconds since the epoch) and a 10-bit
    machine id. */
module Ids {
  import opened Common

  const TWO_64: int := 0x1_0000_0000_0000_0000
  const TWO_63: int := 0x8000_0000_0000_0000
  const TWO_53: int := 0x20_0000_0000_0000
  const TWO_41: int := 0x200_0000_0000
  const TWO_12: int := 0x1000

  const SEQUENCE_MASK: int := 4095        // (1L << 12) - 1
  const MAX_MACHINE_ID: int := 1023       // (1L << 10) - 1
  /** 2025-01-01T00:00:00Z in epoch milliseconds. */
  const DEFAULT_EPOCH: int := 1735689600000

  /** The values of Java's `long`. */
  predicate IsLong(x: int) { -TWO_63 <= x < TWO_63 }

  /** The 64-bit pattern of a long, read as an unsigned number. */
  function Bits(x: int): (u: nat)
    ensures u < TWO_64 && (u - x) % TWO_64 == 0
  {
    x % TWO_64
  }

  /** The long whose pattern agrees with `x` in the low 64 bits: the result of
      any Java long arithmetic whose exact value is `x`. */
  function Wrap(x: int): (r: int)
    ensures IsLong(r) && (r - x) % TWO_64 == 0
    ensures IsLong(x) ==> r == x
  {
    var u := Bits(x);
    if u < TWO_63 then u else u - TWO_64
  }

  function Pow2(k: nat): (p: nat)
    ensures p >= 1
  {
    if k == 0 then 1 else 2 * Pow2(k - 1)
  }

  lemma {:induction false} Pow2Add(a: nat, b: nat)
    ensures Pow2(a + b) == Pow2(a) * Pow2(b)
    decreases a
  {
    if a > 0 { Pow2Add(a - 1, b); }
  }

  lemma Pow2Values()
    ensures Pow2(12) == TWO_12 && Pow2(41) == TWO_41 && Pow2(53) == TWO_53
  {
    assert Pow2(5) == 32 && Pow2(6) == 64;
    Pow2Add(6, 6);
    Pow2Add(12, 12);
    Pow2Add(24, 12);
    Pow2Add(36, 5);
    Pow2Add(41, 12);
  }

  /** Bitwise or of two unsigned patterns. */
  function BitOr(a: nat, b: nat): nat
    decreases a + b
  {
    if a == 0 then b
    else if b == 0 then a
    else 2 * BitOr(a / 2, b / 2) + (if a % 2 == 1 || b % 2 == 1 then 1 else 0)
  }

  /** Or of a multiple of 2^k with a number below 2^k is their sum. */
  lemma {:induction false} BitOrDisjoint(q: nat, lo: nat, k: nat)
    requires lo < Pow2(k)
    ensures BitOr(q * Pow2(k), lo) == q * Pow2(k) + lo
    ensures BitOr(lo, q * Pow2(k)) == q * Pow2(k) + lo
    decreases k
  {
    var hi := q * Pow2(k);
    if hi != 0 && lo != 0 {
      var h := q * Pow2(k - 1);
      assert hi == 2 * h;
      BitOrDisjoint(q, lo / 2, k - 1);
    }
  }

  lemma MulAtLeast(a: int, d: int)
    requires a >= 1 && d > 0
    ensures a * d >= d
  {
  }

  lemma MulDistributes(a: int, b: int, d: int)
    ensures (a - b) * d == a * d - b * d
  {
  }

  /** Euclidean division undoes `q * d + r` for a remainder below `d`. */
  lemma DivSplit(q: int, r: int, d: int)
    requires d > 0 && 0 <= r < d
    ensures (q * d + r) / d == q && (q * d + r) % d == r
  {
    var n := q * d + r;
    var qq := n / d;
    MulDistributes(q, qq, d);
    MulDistributes(qq, q, d);
    if q > qq {
      MulAtLeast(q - qq, d);
    } else if q < qq {
      MulAtLeast(qq - q, d);
    }
  }

  /** `x << n` on a long, as an unsigned pattern, for `scale` = 2^n. */
  function ShiftLeft(x: int, scale: nat): (u: nat)
    ensures u < TWO_64
  {
    (Bits(x) * scale) % TWO_64
  }

  /** `(timestamp << 12) | (machineId << 53) | sequence`. */
  function Layout(timestamp: int, machineId: int, sequence: int): (id: int)
    ensures IsLong(id)
  {
    Wrap(BitOr(BitOr(ShiftLeft(timestamp, TWO_12), ShiftLeft(machineId, TWO_53)), Bits(sequence)))
  }

  /** `((id >> 12) & ((1L << 41) - 1)) + epoch`. The bits that the arithmetic
      shift copies from the sign lie above the 41-bit mask, so the field is
      read from the unsigned pattern; the final addition wraps like Java's. */
  function ExtractTimestamp(id: int, epoch: int): (t: int)
    ensures IsLong(t)
    ensures 0 <= epoch && epoch + TWO_41 <= TWO_63 ==> epoch <= t < epoch + TWO_41
  {
    Wrap((Bits(id) / TWO_12) % TWO_41 + epoch)
  }

  /** `(id >> 53) & ((1L << 10) - 1)`. */
  function ExtractMachineId(id: int): (m: int)
    ensures 0 <= m <= MAX_MACHINE_ID
  {
    (Bits(id) / TWO_53) % 1024
  }

  /** The low 12 bits of an id: `id & SEQUENCE_MASK`. */
  function ExtractSequence(id: int): (s: int)
    ensures 0 <= s <= SEQUENCE_MASK
  {
    Bits(id) % TWO_12
  }

  /** A shift that moves no bit past bit 63 is a multiplication. */
  lemma ShiftLeftSmall(x: int, scale: nat)
    requires 0 <= x && 1 <= scale && x * scale < TWO_64
    ensures ShiftLeft(x, scale) == x * scale
  {
    MulAtLeast(scale, x + 1);
    DivSplit(0, x, TWO_64);
    DivSplit(0, x * scale, TWO_64);
  }

  /** With each field in its width the bitwise layout is the positional sum. */
  lemma LayoutIsSum(t: int, m: int, s: int)
    requires 0 <= t < TWO_41 && 0 <= m <= MAX_MACHINE_ID && 0 <= s <= SEQUENCE_MASK
    ensures Layout(t, m, s) == m * TWO_53 + t * TWO_12 + s
  {
    HighFields(t, m);
    var q := m * TWO_41 + t;
    assert m * TWO_53 + t * TWO_12 == q * TWO_12;
    DivSplit(0, s, TWO_64);
    OrBelow(q, s, 12);
    assert 0 <= q * TWO_12 + s < TWO_63;
  }

  /** The timestamp and machine-id fields, shifted into place and or-ed. */
  lemma HighFields(t: int, m: int)
    requires 0 <= t < TWO_41 && 0 <= m <= MAX_MACHINE_ID
    ensures BitOr(ShiftLeft(t, TWO_12), ShiftLeft(m, TWO_53)) == m * TWO_53 + t * TWO_12
  {
    ShiftLeftSmall(t, TWO_12);
    ShiftLeftSmall(m, TWO_53);
    OrBelow(m, t * TWO_12, 53);
  }

  /** `BitOrDisjoint` at the two shifts the layout uses. */
  lemma OrBelow(q: nat, lo: nat, k: nat)
    requires k == 12 || k == 53
    requires lo < (if k == 12 then TWO_12 else TWO_53)
    ensures var p := if k == 12 then TWO_12 else TWO_53;
            BitOr(q * p, lo) == q * p + lo && BitOr(lo, q * p) == q * p + lo
  {
    Pow2Values();
    BitOrDisjoint(q, lo, k);
  }

  /** The fields of a laid-out id, read back by the extractors. */
  lemma LayoutFields(t: int, m: int, s: int)
    requires 0 <= t < TWO_41 && 0 <= m <= MAX_MACHINE_ID && 0 <= s <= SEQUENCE_MASK
    ensures var id := Layout(t, m, s);
      0 <= id && Bits(id) / TWO_12 % TWO_41 == t && ExtractMachineId(id) == m && ExtractSequence(id) == s
  {
    LayoutIsSum(t, m, s);
    SumFields(Layout(t, m, s), t, m, s);
  }

  /** The positional sum of the three fields, read back field by field. */
  lemma SumFields(id: int, t: int, m: int, s: int)
    requires 0 <= t < TWO_41 && 0 <= m <= MAX_MACHINE_ID && 0 <= s <= SEQUENCE_MASK
    requires id == m * TWO_53 + t * TWO_12 + s
    ensures 0 <= id && Bits(id) / TWO_12 % TWO_41 == t && ExtractMachineId(id) == m && ExtractSequence(id) == s
  {
    assert id == (m * TWO_41 + t) * TWO_12 + s;
    assert 0 <= id < TWO_64;
    DivSplit(0, id, TWO_64);
    DivSplit(m * TWO_41 + t, s, TWO_12);
    DivSplit(m, t, TWO_41);
    assert id == m * TWO_53 + (t * TWO_12 + s);
    DivSplit(m, t * TWO_12 + s, TWO_53);
  }

  /** Layout round trip: an id made at clock reading `ts` gives back `ts`, the
      machine id and the sequence, provided 0 <= ts - epoch < 2^41. */
  lemma LayoutRoundTrip(ts: int, epoch: int, m: int, s: int)
    requires IsLong(ts) && 0 <= ts - epoch < TWO_41
    requires 0 <= m <= MAX_MACHINE_ID && 0 <= s <= SEQUENCE_MASK
    ensures ExtractTimestamp(Layout(Wrap(ts - epoch), m, s), epoch) == ts
    ensures ExtractMachineId(Layout(Wrap(ts - epoch), m, s)) == m
    ensures ExtractSequence(Layout(Wrap(ts - epoch), m, s)) == s
  {
    LayoutFields(ts - epoch, m, s);
  }

  /** Successive fields give larger ids: a later timestamp, or the same
      timestamp with a larger sequence number. */
  lemma LayoutOrder(t1: int, s1: int, t2: int, s2: int, m: int)
    requires 0 <= t1 < TWO_41 && 0 <= t2 < TWO_41 && 0 <= m <= MAX_MACHINE_ID
    requires 0 <= s1 <= SEQUENCE_MASK && 0 <= s2 <= SEQUENCE_MASK
    requires t1 < t2 || (t1 == t2 && s1 < s2)
    ensures Layout(t1, m, s1) < Layout(t2, m, s2)
  {
    LayoutIsSum(t1, m, s1);
    LayoutIsSum(t2, m, s2);
  }

  /** How one successful `next()` moves (lastTimestamp, sequence): the same
      millisecond with the next sequence number, or a later millisecond with
      sequence 0. */
  ghost predicate Advances(l1: int, s1: int, l2: int, s2: int) {
    (l2 == l1 && s1 < SEQUENCE_MASK && s2 == s1 + 1) || (l1 < l2 && s2 == 0)
  }

  /** Successive ids of one generator strictly increase, hence differ, while
      the readings stay within 2^41 ms after the epoch. */
  lemma SuccessiveIdsIncrease(epoch: int, m: int, l1: int, s1: int, l2: int, s2: int)
    requires 0 <= m <= MAX_MACHINE_ID
    requires 0 <= l1 - epoch < TWO_41 && 0 <= l2 - epoch < TWO_41
    requires 0 <= s1 <= SEQUENCE_MASK && 0 <= s2 <= SEQUENCE_MASK
    requires Advances(l1, s1, l2, s2)
    ensures Layout(Wrap(l1 - epoch), m, s1) < Layout(Wrap(l2 - epoch), m, s2)
  {
    var t1, t2 := l1 - epoch, l2 - epoch;
    assert Wrap(t1) == t1 && Wrap(t2) == t2;
    LayoutOrder(t1, s1, t2, s2, m);
  }

  /** The wall clock, as the readings it is still going to return. */
  class Clock {
    var readings: seq<int>

    constructor (readings: seq<int>)
      ensures this.readings == readings
    {
      this.readings := readings;
    }

    /** `DateTimeHelper.currentTimeMillis()`: the next reading. */
    method CurrentTimeMillis() returns (t: int)
      requires readings != []
      modifies this
      ensures t == old(readings[0]) && readings == old(readings[1..])
    {
      t := readings[0];
      readings := readings[1..];
    }
  }

  /** Some reading after the first one is later than `last`. */
  predicate ClockPasses(rs: seq<int>, last: int) {
    exists i :: 1 <= i < |rs| && last < rs[i]
  }

  /** The index of the first reading at or after `i` that is later than `last`. */
  function FirstLater(rs: seq<int>, last: int, i: nat): (k: nat)
    requires i <= |rs|
    requires exists j :: i <= j < |rs| && last < rs[j]
    ensures i <= k < |rs| && last < rs[k]
    ensures forall j :: i <= j < k ==> rs[j] <= last
    decreases |rs| - i
  {
    if last < rs[i] then i else FirstLater(rs, last, i + 1)
  }

  /** Searching a suffix finds the same reading, shifted by the suffix's start. */
  lemma {:induction false} FirstLaterShift(rs: seq<int>, last: int, i: nat)
    requires 1 <= i <= |rs|
    requires exists j :: i <= j < |rs| && last < rs[j]
    ensures exists j :: i - 1 <= j < |rs| - 1 && last < rs[1..][j]
    ensures FirstLater(rs[1..], last, i - 1) + 1 == FirstLater(rs, last, i)
    decreases |rs| - i
  {
    var j :| i <= j < |rs| && last < rs[j];
    assert rs[1..][j - 1] == rs[j];
    if rs[i] <= last {
      FirstLaterShift(rs, last, i + 1);
    }
  }

  class Snowflake {
    const machineId: int
    const epoch: int
    var sequence: int
    var lastTimestamp: int

    /** The generator's invariant: the sequence fits its 12 bits, the machine id its 10. */
    ghost predicate Valid()
      reads this
    {
      0 <= sequence <= SEQUENCE_MASK && 0 <= machineId <= MAX_MACHINE_ID
    }

    /** Java's `Snowflake(machineId, customEpoch)` once the machine id passed its check. */
    constructor (machineId: int, customEpoch: int)
      requires 0 <= machineId <= MAX_MACHINE_ID
      ensures Valid()
      ensures this.machineId == machineId && epoch == customEpoch
      ensures sequence == 0 && lastTimestamp == -1
    {
      this.machineId := machineId;
      epoch := customEpoch;
      sequence := 0;
      lastTimestamp := -1;
    }

    /** `new Snowflake(machineId, customEpoch)`: throws IllegalArgumentException
        unless 0 <= machineId <= 1023. */
    static method Create(machineId: int, customEpoch: int) returns (r: Result<Snowflake>)
      ensures r.Ok? <==> 0 <= machineId <= MAX_MACHINE_ID
      ensures r.Fail? ==> r.error == IllegalArgument
      ensures r.Ok? ==> fresh(r.value) && r.value.Valid()
                        && r.value.machineId == machineId && r.value.epoch == customEpoch
                        && r.value.sequence == 0 && r.value.lastTimestamp == -1
    {
      if machineId < 0 || machineId > MAX_MACHINE_ID {
        return Fail(IllegalArgument);
      }
      var g := new Snowflake(machineId, customEpoch);
      r := Ok(g);
    }

    /** `new Snowflake(machineId)`: the default epoch. */
    static method CreateDefault(machineId: int) returns (r: Result<Snowflake>)
      ensures r.Ok? <==> 0 <= machineId <= MAX_MACHINE_ID
      ensures r.Fail? ==> r.error == IllegalArgument
      ensures r.Ok? ==> fresh(r.value) && r.value.Valid()
                        && r.value.machineId == machineId && r.value.epoch == DEFAULT_EPOCH
                        && r.value.sequence == 0 && r.value.lastTimestamp == -1
    {
      r := Create(machineId, DEFAULT_EPOCH);
    }

    /** `waitForNextMillis`: reads the clock until it passes `lastTimestamp`. */
    method WaitForNextMillis(clock: Clock) returns (t: int)
      requires exists i :: 0 <= i < |clock.readings| && lastTimestamp < clock.readings[i]
      modifies clock
      ensures var k := FirstLater(old(clock.readings), lastTimestamp, 0);
              t == old(clock.readings)[k] && clock.readings == old(clock.readings)[k + 1..]
      ensures lastTimestamp < t
    {
      ghost var rs := clock.readings;
      ghost var k := FirstLater(rs, lastTimestamp, 0);
      t := clock.CurrentTimeMillis();
      ghost var read := 1;
      while t <= lastTimestamp
        invariant 1 <= read <= k + 1
        invariant t == rs[read - 1] && clock.readings == rs[read..]
        invariant forall j :: 0 <= j < read - 1 ==> rs[j] <= lastTimestamp
        decreases |clock.readings|
      {
        t := clock.CurrentTimeMillis();
        read := read + 1;
      }
    }

    /** `next()`: the next id, or IllegalStateException when the clock went back. */
    method Next(clock: Clock) returns (r: Result<int>)
      requires Valid()
      requires clock.readings != []
      requires clock.readings[0] == lastTimestamp && sequence >= SEQUENCE_MASK
               ==> ClockPasses(clock.readings, lastTimestamp)
      modifies this, clock
      ensures Valid()
      ensures var t := old(clock.readings[0]);
        if t < old(lastTimestamp) then
          r == Fail(IllegalState) && sequence == old(sequence) && lastTimestamp == old(lastTimestamp)
          && clock.readings == old(clock.readings[1..])
        else if t != old(lastTimestamp) then
          sequence == 0 && lastTimestamp == t && clock.readings == old(clock.readings[1..])
        else if old(sequence) < SEQUENCE_MASK then
          sequence == old(sequence) + 1 && lastTimestamp == t && clock.readings == old(clock.readings[1..])
        else
          var k := FirstLater(old(clock.readings), t, 1);
          sequence == 0 && lastTimestamp == old(clock.readings)[k]
          && clock.readings == old(clock.readings)[k + 1..]
      ensures r.Ok? <==> old(clock.readings[0]) >= old(lastTimestamp)
      ensures r.Ok? ==> r.value == Layout(Wrap(lastTimestamp - epoch), machineId, sequence)
      ensures r.Ok? ==> Advances(old(lastTimestamp), old(sequence), lastTimestamp, sequence)
      ensures old(lastTimestamp) <= lastTimestamp
    {
      ghost var rs := clock.readings;
      var currentTimestamp := clock.CurrentTimeMillis();
      if currentTimestamp < lastTimestamp {
        return Fail(IllegalState);
      }
      var timestamp := Wrap(currentTimestamp - epoch);
      if currentTimestamp != lastTimestamp {
        sequence := 0;
        lastTimestamp := currentTimestamp;
      } else if sequence >= SEQUENCE_MASK {
        var nextMillis := WaitForNextMillis(clock);
        FirstLaterShift(rs, lastTimestamp, 1);
        timestamp := Wrap(nextMillis - epoch);
        sequence := 0;
        lastTimestamp := nextMillis;
      } else {
        sequence := sequence + 1;
      }
      r := Ok(Layout(timestamp, machineId, sequence));
    }
  }
}
