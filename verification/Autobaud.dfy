/** The autobaud estimator: a linear-probing table that stands for a multiset of pulse
    widths, and the running one-bit average over it. Floating point is exact here. */
module Autobaud {
  import opened Words

  const SLOTS: nat := 500
  const MIN_FREQUENCY: real := 0.05
  const VALIDITY_THRESHOLD: real := 0.6

  type Slot = i: nat | i < SLOTS

  /** A table slot; key 0 marks it empty. */
  datatype Entry = Entry(key: u32, count: u32)

  const EMPTY: Entry := Entry(0, 0)

  // The table

  /** The slot `d` probes on from the hash of `key`, wrapping round. */
  function Probe(hash: u32 -> Slot, key: u32, d: nat): Slot {
    (hash(key) + d) % SLOTS
  }

  predicate Stops(t: seq<Entry>, hash: u32 -> Slot, key: u32, d: nat)
    requires |t| == SLOTS
  {
    t[Probe(hash, key, d)].key == 0 || t[Probe(hash, key, d)].key == key
  }

  /** Probing for `key` comes to an end. */
  predicate CanProbe(t: seq<Entry>, hash: u32 -> Slot, key: u32)
    requires |t| == SLOTS
  {
    exists d: nat :: d < SLOTS && Stops(t, hash, key, d)
  }

  /** A probe that does not end within one round of the table goes round for ever. */
  lemma ProbesForEver(t: seq<Entry>, hash: u32 -> Slot, key: u32, d: nat)
    requires |t| == 500
    ensures Stops(t, hash, key, d) ==> exists e: nat :: e < 500 && Stops(t, hash, key, e)
  {
    if Stops(t, hash, key, d) {
      SameSlot(hash, key, d);
      assert Stops(t, hash, key, d % SLOTS);
    }
  }

  lemma ProbeStart(hash: u32 -> Slot, key: u32)
    ensures Probe(hash, key, 0) == hash(key)
  {
  }

  lemma ProbeNext(hash: u32 -> Slot, key: u32, d: nat)
    ensures Probe(hash, key, d + 1) == (Probe(hash, key, d) + 1) % SLOTS
  {
  }

  lemma SameSlot(hash: u32 -> Slot, key: u32, d: nat)
    ensures Probe(hash, key, d) == Probe(hash, key, d % SLOTS)
  {
  }

  /** The table stands for `seen`: each key has one slot, holding its count, and every slot
      probed before it is taken. */
  ghost predicate StandsFor(t: seq<Entry>, hash: u32 -> Slot, seen: multiset<u32>) {
    && |t| == 500 && 0 !in seen
    && (forall i, j :: 0 <= i < j < SLOTS && t[i].key != 0 ==> t[i].key != t[j].key)
    && (forall i :: 0 <= i < SLOTS && t[i].key != 0 ==> t[i].count == seen[t[i].key] > 0)
    && (forall key :: key in seen ==> Found(t, hash, key))
  }

  /** `key` is in its first probed slot that is not another key's. */
  predicate Found(t: seq<Entry>, hash: u32 -> Slot, key: u32)
    requires |t| == SLOTS
  {
    exists d: nat :: d < SLOTS && FoundAt(t, hash, key, d)
  }

  predicate FoundAt(t: seq<Entry>, hash: u32 -> Slot, key: u32, d: nat)
    requires |t| == SLOTS
  {
    && t[Probe(hash, key, d)].key == key
    && forall e: nat :: e < d ==> t[Probe(hash, key, e)].key != 0
  }

  lemma TableSize(t: seq<Entry>, hash: u32 -> Slot, seen: multiset<u32>)
    requires StandsFor(t, hash, seen)
    ensures |t| == SLOTS
  {
  }

  lemma EmptyStandsFor(t: seq<Entry>, hash: u32 -> Slot)
    requires |t| == SLOTS && forall i :: 0 <= i < SLOTS ==> t[i] == EMPTY
    ensures StandsFor(t, hash, multiset{})
  {
  }

  function Keys(t: seq<Entry>, n: nat): set<u32>
    requires n <= |t|
  {
    set i | 0 <= i < n :: t[i].key
  }

  lemma {:induction false} KeyPerSlot(t: seq<Entry>, n: nat)
    requires n <= |t| && forall i, j :: 0 <= i < j < |t| ==> t[i].key != t[j].key
    ensures |Keys(t, n)| == n
  {
    if n > 0 {
      KeyPerSlot(t, n - 1);
      assert Keys(t, n) == Keys(t, n - 1) + {t[n - 1].key};
    }
  }

  /** The distinct values of a multiset. */
  function Distinct(seen: multiset<u32>): set<u32> {
    set key | key in seen
  }

  /** With fewer distinct keys than slots one is free. */
  lemma FreeSlot(t: seq<Entry>, hash: u32 -> Slot, seen: multiset<u32>) returns (free: nat)
    requires StandsFor(t, hash, seen) && |Distinct(seen)| < SLOTS
    ensures free < SLOTS && t[free].key == 0
  {
    hide Found;
    if free': nat :| free' < SLOTS && t[free'].key == 0 {
      free := free';
    } else {
      free := 0;
      KeyPerSlot(t, SLOTS);
      assert Keys(t, SLOTS) <= Distinct(seen);
      SubsetSize(Keys(t, SLOTS), Distinct(seen));
      assert false;
    }
  }

  lemma ProbeReaches(hash: u32 -> Slot, key: u32, i: Slot) returns (d: nat)
    ensures d < SLOTS && Probe(hash, key, d) == i
  {
    d := if hash(key) <= i then i - hash(key) else i + SLOTS - hash(key);
  }

  /** So every probe comes to an end. */
  lemma FewKeysProbe(t: seq<Entry>, hash: u32 -> Slot, seen: multiset<u32>, key: u32)
    requires StandsFor(t, hash, seen) && |Distinct(seen)| < 500
    ensures CanProbe(t, hash, key)
  {
    hide StandsFor, Probe, Distinct;
    TableSize(t, hash, seen);
    var free := FreeSlot(t, hash, seen);
    var d := ProbeReaches(hash, key, free);
    assert Stops(t, hash, key, d);
  }

  lemma {:induction false} SubsetSize(a: set<u32>, b: set<u32>)
    requires a <= b
    ensures |a| <= |b|
  {
    if a != {} {
      var x :| x in a;
      SubsetSize(a - {x}, b - {x});
    }
  }

  lemma KeyFound(t: seq<Entry>, hash: u32 -> Slot, seen: multiset<u32>, key: u32)
    requires StandsFor(t, hash, seen) && key in seen
    ensures CanProbe(t, hash, key)
  {
    var d: nat :| d < SLOTS && FoundAt(t, hash, key, d);
    assert Stops(t, hash, key, d);
  }

  /** Where a probe that stops after `d` others stands for a key in the table, and where it
      does not. */
  lemma StopMeans(t: seq<Entry>, hash: u32 -> Slot, seen: multiset<u32>, key: u32, d: nat)
    requires StandsFor(t, hash, seen) && d < SLOTS && Stops(t, hash, key, d)
    requires forall e: nat :: e < d ==> !Stops(t, hash, key, e)
    ensures var entry := t[Probe(hash, key, d)];
            if entry.key != 0 then entry.count == seen[key] else seen[key] == 0
  {
    if t[Probe(hash, key, d)].key == 0 && key in seen {
      var f: nat :| f < SLOTS && FoundAt(t, hash, key, f);
      assert Stops(t, hash, key, f);
      assert false;
    }
  }

  /** What an insertion makes of the table: a zero key only ever marks a slot that stays empty. */
  lemma InsertedStandsFor(t: seq<Entry>, hash: u32 -> Slot, seen: multiset<u32>, key: u32, d: nat, entry: Entry)
    requires StandsFor(t, hash, seen) && d < SLOTS && Stops(t, hash, key, d)
    requires forall e: nat :: e < d ==> !Stops(t, hash, key, e)
    requires seen[key] + 1 < 0x1_0000_0000 && entry == Entry(key, if key == 0 then 1 else seen[key] + 1)
    ensures StandsFor(t[Probe(hash, key, d) := entry], hash, seen + Width(key))
  {
    hide Probe;
    StopMeans(t, hash, seen, key, d);
    var i := Probe(hash, key, d);
    var t' := t[i := entry];
    forall other | other in seen + Width(key) ensures Found(t', hash, other) {
      if other == key {
        forall e: nat | e < d ensures t'[Probe(hash, key, e)].key != 0 { assert !Stops(t, hash, key, e); }
        assert FoundAt(t', hash, key, d);
      } else {
        var f: nat :| f < SLOTS && FoundAt(t, hash, other, f);
        assert FoundAt(t', hash, other, f);
      }
    }
    if key != 0 {
      forall j | 0 <= j < SLOTS && j != i ensures t[j].key != key { KeyElsewhere(t, hash, seen, key, d, j); }
    }
  }

  /** A key in the table is where its probe stops, and nowhere else. */
  lemma {:induction false} KeysBound(t: seq<Entry>, n: nat)
    requires n <= |t|
    ensures |Keys(t, n)| <= n
  {
    if n > 0 {
      KeysBound(t, n - 1);
      assert Keys(t, n) == Keys(t, n - 1) + {t[n - 1].key};
    }
  }

  /** And once 500 keys are in the table the probe for any other key is one of those. */
  lemma FullTable(t: seq<Entry>, hash: u32 -> Slot, seen: multiset<u32>, key: u32, d: nat)
    requires StandsFor(t, hash, seen) && |Distinct(seen)| >= 500 && key !in seen && key != 0
    ensures !Stops(t, hash, key, d)
  {
    hide Probe;
    TableSize(t, hash, seen);
    var i := Probe(hash, key, d);
    if t[i].key == 0 {
      forall other | other in Distinct(seen) ensures other in Keys(t, SLOTS) {
        var e: nat :| e < SLOTS && FoundAt(t, hash, other, e);
        assert t[Probe(hash, other, e)].key == other;
      }
      assert 0 in Keys(t, SLOTS);
      SubsetSize(Distinct(seen) + {0}, Keys(t, SLOTS));
      KeysBound(t, SLOTS);
    }
  }

  lemma KeyElsewhere(t: seq<Entry>, hash: u32 -> Slot, seen: multiset<u32>, key: u32, d: nat, j: nat)
    requires StandsFor(t, hash, seen) && d < SLOTS && Stops(t, hash, key, d) && key != 0
    requires forall e: nat :: e < d ==> !Stops(t, hash, key, e)
    requires j < SLOTS && j != Probe(hash, key, d)
    ensures t[j].key != key
  {
    if t[j].key == key {
      assert key in seen;
      StopMeans(t, hash, seen, key, d);
    }
  }

  lemma CountBound(seen: multiset<u32>, key: u32)
    ensures seen[key] <= |seen|
  {
    assert |seen[key := 0]| == |seen| - seen[key];
  }

  // The estimate

  /** `raw_to_cycles`: two clocks a count, counting down from the top, wrapping. */
  function RawToCycles(raw: u32): u32 {
    (0xFFFF_FFFF - raw) * 2 % 0x1_0000_0000
  }

  datatype Estimate = Estimate(baud: u32, validity: real)

  /** Everything the estimator accumulates besides the table; `seen` is what the table
      stands for. */
  datatype Acc = Acc(
    seen: multiset<u32>, baud: real, minCycles: u32, maxCycles: u32, total: nat,
    bitTimeSum: nat, bitTimeCount: nat, outlierCount: nat)

  /** The environment: the clock, and `expf` as any function into (0, 1) below zero. */
  datatype Timing = Timing(clockHz: u32, exp: real -> real)

  ghost predicate Decays(tm: Timing) {
    forall x: real {:trigger tm.exp(x)} :: x < 0.0 ==> 0.0 < tm.exp(x) < 1.0
  }

  const FRESH: Acc := Acc(multiset{}, 0.0, 0xFFFF_FFFF, 0, 0, 0, 0, 0)

  /** A saturating cast of a non-negative number. */
  function ToU32(r: real): u32
    requires r >= 0.0
  {
    if r.Floor < 0x1_0000_0000 then r.Floor else 0xFFFF_FFFF
  }

  predicate BaudChanged(baud: real, newBaud: real)
    requires baud >= 0.0 && newBaud >= 0.0
  {
    ToU32(newBaud) > ToU32(baud * 1.005) || ToU32(newBaud) < ToU32(baud * 0.995)
  }

  /** The sample's own frequency reaches the signal threshold. */
  predicate Frequent(a: Acc, cycles: u32) {
    a.total > 0 && a.seen[cycles] as real / a.total as real >= MIN_FREQUENCY
  }

  /** Within +10% of the minimum. */
  predicate OneBit(min: u32, cycles: u32) {
    min <= cycles && (cycles - min) as real < min as real * 0.1
  }

  /** What every history keeps: the accumulated average lies in [min, 1.1 min). */
  predicate Sane(a: Acc) {
    && a.baud >= 0.0 && |a.seen| <= a.total && 0 !in a.seen
    && a.minCycles > 0 && a.outlierCount <= a.bitTimeCount
    && (a.bitTimeCount == 0 ==> a.bitTimeSum == 0)
    && a.minCycles * a.bitTimeCount <= a.bitTimeSum
    && (a.bitTimeCount > 0 ==> 10 * a.bitTimeSum < 11 * (a.minCycles * a.bitTimeCount))
  }

  function Average(a: Acc): real
    requires a.bitTimeCount > 0
  {
    a.bitTimeSum as real / a.bitTimeCount as real
  }

  function Noise(a: Acc): real
    requires a.bitTimeCount > 0
  {
    a.outlierCount as real / a.bitTimeCount as real
  }

  function Validity(tm: Timing, a: Acc): real
    requires a.bitTimeCount > 0
  {
    var completeness := 1.0 - tm.exp(-(a.total as real) / 40.0);
    var consistency := 1.0 - if Noise(a) * 2.0 < 1.0 then Noise(a) * 2.0 else 1.0;
    completeness * consistency
  }

  lemma RealOf(q: real, n: real, d: real)
    requires d > 0.0 && q == n / d
    ensures q * d == n
  {
  }

  lemma Unscaled(x: real, y: real, n: real)
    requires n > 0.0
    ensures x * n <= y * n ==> x <= y
    ensures x * n < y * n ==> x < y
  {
  }

  lemma ProductReal(x: int, y: int)
    ensures (x * y) as real == x as real * y as real
  {
  }

  /** A quotient of a sum of numbers of [m, 1.1 m) by their count. */
  lemma Mean(q: real, m: real, n: real, mn: real)
    requires n > 0.0 && m > 0.0 && mn == m * n && mn <= q * n && 10.0 * (q * n) < 11.0 * mn
    ensures m <= q < m * 1.1
  {
    Unscaled(m, q, n);
    assert (m * 1.1) * n == 1.1 * mn;
    Unscaled(q, m * 1.1, n);
  }

  /** The average of the one-bit samples, as the quotient the estimate divides by. */
  lemma AverageBounds(a: Acc)
    requires Sane(a) && a.bitTimeCount > 0
    ensures 0.0 < a.minCycles as real <= Average(a) < a.minCycles as real * 1.1
  {
    RealOf(Average(a), a.bitTimeSum as real, a.bitTimeCount as real);
    ProductReal(a.minCycles, a.bitTimeCount);
    var mn := a.minCycles * a.bitTimeCount;
    Mean(Average(a), a.minCycles as real, a.bitTimeCount as real, mn as real);
  }

  lemma SaneBaud(a: Acc)
    requires Sane(a)
    ensures a.baud >= 0.0
  {
  }

  /** What a width adds to the table: nothing if it is zero. */
  function Width(cycles: u32): multiset<u32> {
    if cycles == 0 then multiset{} else multiset{cycles}
  }

  /** The sample counted, before it is judged. */
  function Counted(a: Acc, cycles: u32): Acc {
    a.(seen := a.seen + Width(cycles),
       total := a.total + 1,
       maxCycles := if cycles > a.maxCycles then cycles else a.maxCycles)
  }

  /** A one-bit sample averaged in; an implausibly short one is an outlier. */
  function Averaged(a: Acc, cycles: u32): Acc {
    a.(bitTimeSum := a.bitTimeSum + cycles,
       bitTimeCount := a.bitTimeCount + 1,
       outlierCount := a.outlierCount + if cycles < a.maxCycles / 9 then 1 else 0)
  }

  lemma AveragedSane(a: Acc, cycles: u32)
    requires Sane(a) && OneBit(a.minCycles, cycles)
    ensures Sane(Averaged(a, cycles))
  {
    assert a.minCycles * (a.bitTimeCount + 1) == a.minCycles * a.bitTimeCount + a.minCycles;
    assert 10 * cycles < 11 * a.minCycles;
  }

  /** The estimate the averaged one-bit samples make: published when it has changed and is
      confident. */
  function Publish(tm: Timing, a: Acc): (Acc, Option<Estimate>)
    requires Sane(a) && a.bitTimeCount > 0
  {
    AverageBounds(a);
    var newBaud := tm.clockHz as real / Average(a);
    if BaudChanged(a.baud, newBaud) && Validity(tm, a) > VALIDITY_THRESHOLD then
      (a.(baud := newBaud), Some(Estimate(ToU32(newBaud + 0.5), Validity(tm, a))))
    else (a, None)
  }

  /** One sample: the new state, and the estimate it publishes, if any. */
  function Absorb(tm: Timing, a: Acc, raw: u32): (Acc, Option<Estimate>)
    requires Sane(a)
  {
    var cycles := RawToCycles(raw);
    var a1 := Counted(a, cycles);
    if !Frequent(a1, cycles) then (a1, None)
    else if cycles < a1.minCycles then
      (a1.(minCycles := cycles, bitTimeSum := 0, bitTimeCount := 0, outlierCount := 0), None)
    else if !OneBit(a1.minCycles, cycles) then (a1, None)
    else
      AveragedSane(a1, cycles);
      Publish(tm, Averaged(a1, cycles))
  }

  lemma AbsorbSane(tm: Timing, a: Acc, raw: u32)
    requires Sane(a)
    ensures var (a', _) := Absorb(tm, a, raw);
            && Sane(a') && a'.total == a.total + 1 && a'.bitTimeSum <= a.bitTimeSum + RawToCycles(raw)
            && a'.seen == Counted(a, RawToCycles(raw)).seen && a'.maxCycles == Counted(a, RawToCycles(raw)).maxCycles
  {
    hide ToU32, BaudChanged, Validity;
    var cycles := RawToCycles(raw);
    var a1 := Counted(a, cycles);
    if Frequent(a1, cycles) && cycles >= a1.minCycles && OneBit(a1.minCycles, cycles) {
      AveragedSane(a1, cycles);
      AverageBounds(Averaged(a1, cycles));
    }
  }

  /** Dividing by more gives less. */
  lemma Quotients(n: real, x: real, y: real)
    requires n > 0.0 && x > 0.0
    ensures x <= y ==> n / y <= n / x
    ensures x < y ==> n / y < n / x
  {
    if x <= y {
      RealOf(n / x, n, x);
      RealOf(n / y, n, y);
      var p, q := n / x, n / y;
      assert q * x <= q * y by { Scale(x, y, q); }
      Unscaled(q, p, x);
      if x < y { Scale(x, y, q); }
    }
  }

  lemma Scale(x: real, y: real, n: real)
    requires n >= 0.0
    ensures x <= y ==> n * x <= n * y
    ensures x < y && n > 0.0 ==> n * x < n * y
  {
  }

  /** A product of two numbers of [0, 1], the first below 1, is below 1 and no more than the second. */
  lemma UnitProduct(x: real, y: real)
    requires 0.0 < x < 1.0 && 0.0 <= y <= 1.0
    ensures x * y <= y && x * y < 1.0
  {
    if y > 0.0 { Scale(x, 1.0, y); }
  }

  /** What a published estimate says of the state it is published from. */
  ghost predicate Credible(tm: Timing, a: Acc, e: Estimate) {
    && a.minCycles > 0 && a.bitTimeCount > 0
    && var min := a.minCycles as real;
    && tm.clockHz as real / (min * 1.1) < a.baud <= tm.clockHz as real / min
    && e.baud == ToU32(a.baud + 0.5)
    && 0.6 < e.validity <= 1.0
    && 5 * a.outlierCount < a.bitTimeCount
  }

  /** A fraction below a fifth. */
  lemma Fifth(q: real, k: real, n: real)
    requires n > 0.0 && k >= 0.0 && q * n == k
    ensures q >= 0.0 && (q < 0.2 ==> k < 0.2 * n)
  {
    Unscaled(0.0, q, n);
    if q < 0.2 { Unscaled(0.2, q, n); }
  }

  lemma FewOutliers(tm: Timing, a: Acc)
    requires Decays(tm) && a.total > 0 && a.bitTimeCount > 0
    requires Validity(tm, a) > VALIDITY_THRESHOLD
    ensures 5 * a.outlierCount < a.bitTimeCount && Validity(tm, a) <= 1.0
  {
    hide Noise;
    var noise := Noise(a);
    assert noise >= 0.0 && (noise < 0.2 ==> 5 * a.outlierCount < a.bitTimeCount) by { NoiseIs(a); }
    var x := -(a.total as real) / 40.0;
    assert x < 0.0;
    assert 0.0 < tm.exp(x) < 1.0;
    UnitProduct(1.0 - tm.exp(x), 1.0 - if noise * 2.0 < 1.0 then noise * 2.0 else 1.0);
  }

  lemma NoiseIs(a: Acc)
    requires a.bitTimeCount > 0
    ensures Noise(a) >= 0.0 && (Noise(a) < 0.2 ==> 5 * a.outlierCount < a.bitTimeCount)
  {
    RealOf(Noise(a), a.outlierCount as real, a.bitTimeCount as real);
    Fifth(Noise(a), a.outlierCount as real, a.bitTimeCount as real);
    assert Noise(a) < 0.2 ==> (5 * a.outlierCount) as real < a.bitTimeCount as real;
  }

  /** Every estimate published is credible. */
  lemma PublishedCredible(tm: Timing, a: Acc, raw: u32)
    requires Sane(a) && Decays(tm) && (tm.clockHz == 0 ==> a.baud == 0.0)
    ensures var (a', e) := Absorb(tm, a, raw);
            && (e.Some? ==> Credible(tm, a', e.value))
            && (e.None? ==> a'.baud == a.baud)
            && (tm.clockHz == 0 ==> a'.baud == 0.0 && e.None?)
  {
    hide Validity, ToU32, Sane;
    var (a', e) := Absorb(tm, a, raw);
    if e.Some? {
      var a2 := Averaged(Counted(a, RawToCycles(raw)), RawToCycles(raw));
      CountedSane(a, RawToCycles(raw));
      AveragedSane(Counted(a, RawToCycles(raw)), RawToCycles(raw));
      FewOutliers(tm, a2);
      AverageBounds(a2);
      var clock, min := tm.clockHz as real, a2.minCycles as real;
      if tm.clockHz > 0 {
        Quotients(clock, min, Average(a2));
        Quotients(clock, Average(a2), min * 1.1);
      } else {
        NoClock(tm, a2);
      }
    }
  }

  lemma CountedSane(a: Acc, cycles: u32)
    requires Sane(a)
    ensures Sane(Counted(a, cycles)) && Counted(a, cycles).total > 0
  {
  }

  lemma NoClock(tm: Timing, a: Acc)
    requires tm.clockHz == 0 && a.bitTimeCount > 0 && a.baud == 0.0 && Average(a) > 0.0
    ensures !BaudChanged(a.baud, tm.clockHz as real / Average(a))
  {
  }

  // Histories

  /** The state after a history of samples, and what each of them published. */
  function Absorbed(tm: Timing, raws: seq<u32>): (r: (Acc, seq<Option<Estimate>>))
    ensures Sane(r.0) && |r.1| == |raws| && r.0.total == |raws|
  {
    if raws == [] then (FRESH, [])
    else
      var (a, estimates) := Absorbed(tm, raws[..|raws| - 1]);
      AbsorbSane(tm, a, raws[|raws| - 1]);
      var (a', e) := Absorb(tm, a, raws[|raws| - 1]);
      (a', estimates + [e])
  }

  /** The pulse widths of a history that a table can hold: the nonzero ones. */
  function Widths(raws: seq<u32>): multiset<u32> {
    if raws == [] then multiset{}
    else Widths(raws[..|raws| - 1]) + Width(RawToCycles(raws[|raws| - 1]))
  }

  /** Over every history, the table stands for exactly the nonzero widths, zero samples
      having changed no count; the accumulated average lies in [min, 1.1 min) for the
      current minimum; outliers are among the one-bit samples; and whatever the last sample
      published is credible. */
  lemma {:induction false} EveryHistory(tm: Timing, raws: seq<u32>)
    requires Decays(tm)
    ensures var (a, estimates) := Absorbed(tm, raws);
            && a.seen == Widths(raws)
            && (a.bitTimeCount > 0 ==> a.minCycles as real <= Average(a) < a.minCycles as real * 1.1)
            && a.outlierCount <= a.bitTimeCount
            && (raws != [] && estimates[|raws| - 1].Some? ==> Credible(tm, a, estimates[|raws| - 1].value))
            && (tm.clockHz == 0 ==> a.baud == 0.0)
  {
    hide Absorb, Credible, RawToCycles;
    if raws != [] {
      var front, raw := raws[..|raws| - 1], raws[|raws| - 1];
      EveryHistory(tm, front);
      AbsorbSane(tm, Absorbed(tm, front).0, raw);
      PublishedCredible(tm, Absorbed(tm, front).0, raw);
    }
    if Absorbed(tm, raws).0.bitTimeCount > 0 { AverageBounds(Absorbed(tm, raws).0); }
  }

  // What a sample does, in whole numbers

  /** `k` passes of the two-clock loop are a pulse of `2 k` clocks, modulo 2^32. */
  lemma PassWidth(k: u32)
    ensures RawToCycles(0xFFFF_FFFF - k) == if k < 0x8000_0000 then k + k else k + k - 0x1_0000_0000
  {
  }

  /** At least one sample in twenty. */
  lemma FrequentMeans(a: Acc, cycles: u32)
    requires a.total > 0
    ensures Frequent(a, cycles) <==> 20 * a.seen[cycles] >= a.total
  {
    Twentieth(a.seen[cycles] as real / a.total as real, a.seen[cycles], a.total);
  }

  lemma Twentieth(q: real, s: nat, n: nat)
    requires n > 0 && q == s as real / n as real
    ensures q >= 0.05 <==> 20 * s >= n
  {
    RealOf(q, s as real, n as real);
    Unscaled(0.05, q, n as real);
    ScaleRight(0.05, q, n as real);
    assert (20 * s) as real == 20.0 * s as real;
    assert 0.05 * n as real * 20.0 == n as real;
  }

  lemma CountedSeen(a: Acc, w: u32)
    ensures Counted(a, w).seen == a.seen[w := a.seen[w] + if w > 0 then 1 else 0]
  {
  }

  lemma PublishKeeps(tm: Timing, a: Acc)
    requires Sane(a) && a.bitTimeCount > 0
    ensures var (a', e) := Publish(tm, a); a' == a.(baud := a'.baud) && (e.None? ==> a' == a)
  {
    hide ToU32, BaudChanged, Validity, Average, Sane;
  }

  /** A pulse of `k` passes: counted always, but for a zero width; otherwise ignored while it
      is rarer than one sample in twenty; a new minimum, which starts the average anew; ignored
      if it is a tenth longer than the minimum or more; else averaged in, as an outlier if the
      longest pulse is over nine times as long. */
  lemma SampleEffect(tm: Timing, a: Acc, k: u32)
    requires Sane(a) && k < 0x8000_0000
    ensures var w, (a', e) := k + k, Absorb(tm, a, 0xFFFF_FFFF - k);
            var count := a.seen[w] + if k > 0 then 1 else 0;
            && a'.seen == a.seen[w := count] && a'.total == a.total + 1
            && a'.maxCycles == (if w > a.maxCycles then w else a.maxCycles)
            && (e.None? ==> a'.baud == a.baud)
            && if 20 * count >= a'.total && w < a.minCycles then
                 a'.minCycles == w && a'.bitTimeSum == a'.bitTimeCount == a'.outlierCount == 0 && e.None?
               else
                 && a'.minCycles == a.minCycles
                 && if 20 * count >= a'.total && 10 * w < 11 * a.minCycles then
                      && a'.bitTimeSum == a.bitTimeSum + w && a'.bitTimeCount == a.bitTimeCount + 1
                      && a'.outlierCount == a.outlierCount + if 9 * w + 9 <= a'.maxCycles then 1 else 0
                    else
                      && a'.bitTimeSum == a.bitTimeSum && a'.bitTimeCount == a.bitTimeCount
                      && a'.outlierCount == a.outlierCount && e.None?
  {
    hide Publish, Sane, RawToCycles, Frequent, OneBit;
    PassWidth(k);
    var w: u32 := k + k;
    var a1 := Counted(a, w);
    CountedSane(a, w);
    CountedSeen(a, w);
    FrequentMeans(a1, w);
    OneBitMeans(a1.minCycles, w);
    if OneBit(a1.minCycles, w) {
      AveragedSane(a1, w);
      PublishKeeps(tm, Averaged(a1, w));
    }
  }

  lemma OneBitMeans(min: u32, cycles: u32)
    ensures OneBit(min, cycles) <==> min <= cycles && 10 * cycles < 11 * min
  {
  }

  /** A new estimate is over half a percent away from the last one. */
  lemma MovedEnough(baud: real, newBaud: real)
    requires 0.0 <= baud < 4294967296.0 && 0.0 <= newBaud < 4294967296.0
    ensures BaudChanged(baud, newBaud) ==> 200.0 * newBaud > 201.0 * baud || 200.0 * newBaud < 199.0 * baud
    ensures 200.0 * newBaud >= 201.0 * baud + 200.0 ==> BaudChanged(baud, newBaud)
    ensures 200.0 * newBaud <= 199.0 * baud - 200.0 ==> BaudChanged(baud, newBaud)
  {
  }

  /** The estimate of the averaged samples is published if it has moved and the confidence
      that the number of samples and the share of outliers leave is above 3/5. */
  lemma PublishedWhen(tm: Timing, a: Acc)
    requires Sane(a) && a.bitTimeCount > 0 && a.total > 0 && Decays(tm)
    ensures Average(a) > 0.0
    ensures Publish(tm, a).1.Some?
       <==> && BaudChanged(a.baud, tm.clockHz as real / Average(a))
            && 5.0 * (1.0 - tm.exp(-(a.total as real) / 40.0)) * (a.bitTimeCount - 2 * a.outlierCount) as real
               > 3.0 * a.bitTimeCount as real
  {
    AverageBounds(a);
    var x := -(a.total as real) / 40.0;
    assert x < 0.0 && 0.0 < tm.exp(x) < 1.0;
    Confident(1.0 - tm.exp(x), a.outlierCount as real, a.bitTimeCount as real, Noise(a));
  }

  /** And it is the clock times the number of averaged samples by their sum, rounded to the
      nearest whole number, with that confidence. */
  lemma PublishedValue(tm: Timing, a: Acc)
    requires Sane(a) && a.bitTimeCount > 0 && Publish(tm, a).1.Some?
    ensures var (a', e) := Publish(tm, a);
            && a'.baud * a.bitTimeSum as real == (tm.clockHz * a.bitTimeCount) as real
            && e.value.validity * a.bitTimeCount as real
               == (1.0 - tm.exp(-(a.total as real) / 40.0)) * (a.bitTimeCount as real - 2.0 * a.outlierCount as real)
            && NearestRatio(e.value.baud, tm.clockHz * a.bitTimeCount, a.bitTimeSum)
  {
    hide Validity, BaudChanged, ToU32, NearestRatio;
    AverageBounds(a);
    var baud, sum, count, clock := Publish(tm, a).0.baud, a.bitTimeSum as real, a.bitTimeCount as real, tm.clockHz as real;
    RealOf(Average(a), sum, count);
    RealOf(baud, clock, Average(a));
    Swap(baud, Average(a), count, clock);
    ProductReal(tm.clockHz, a.bitTimeCount);
    SumPositive(a);
    BaudBound(clock, a.minCycles as real, Average(a), baud);
    RatioRound(tm.clockHz * a.bitTimeCount, a.bitTimeSum, baud);
    ValidityShare(tm, a);
  }

  lemma ValidityShare(tm: Timing, a: Acc)
    requires a.bitTimeCount > 0 && Validity(tm, a) > 0.0
    ensures Validity(tm, a) * a.bitTimeCount as real
         == (1.0 - tm.exp(-(a.total as real) / 40.0)) * (a.bitTimeCount as real - 2.0 * a.outlierCount as real)
  {
    Share(1.0 - tm.exp(-(a.total as real) / 40.0), a.outlierCount as real, a.bitTimeCount as real, Noise(a));
  }

  lemma Share(c: real, o: real, n: real, q: real)
    requires n > 0.0 && q == o / n
    ensures c * (1.0 - q * 2.0) * n == c * (n - 2.0 * o)
  {
    RealOf(q, o, n);
    assert (1.0 - q * 2.0) * n == n - 2.0 * o;
    assert c * (1.0 - q * 2.0) * n == c * ((1.0 - q * 2.0) * n);
  }

  /** `b` is the whole number nearest to `n / d`. */
  predicate NearestRatio(b: u32, n: nat, d: nat) {
    2 * (d * b) <= 2 * n + d < 2 * (d * b) + 2 * d
  }

  lemma Swap(b: real, q: real, n: real, c: real)
    requires b * q == c
    ensures b * (q * n) == c * n
  {
    assert b * (q * n) == (b * q) * n;
  }

  lemma SumPositive(a: Acc)
    requires Sane(a) && a.bitTimeCount > 0
    ensures a.bitTimeSum > 0
  {
    assert a.minCycles * a.bitTimeCount > 0;
  }

  lemma BaudBound(clock: real, min: real, q: real, b: real)
    requires clock >= 0.0 && 1.0 <= min <= q && b * q == clock
    ensures 0.0 <= b <= clock
  {
    Unscaled(0.0, b, q);
    Scale(1.0, q, b);
  }

  lemma RatioRound(n: nat, d: nat, b: real)
    requires d > 0 && b * d as real == n as real && 0.0 <= b <= 4294967295.0
    ensures NearestRatio(ToU32(b + 0.5), n, d)
  {
    hide NearestRatio;
    var r := (b + 0.5).Floor;
    Rounded(r as real, b, d as real, n as real);
    ProductReal(d, r);
    RatioInt(r, n, d);
  }

  lemma RatioInt(r: nat, n: nat, d: nat)
    requires r < 0x1_0000_0000
    requires 2.0 * (d * r) as real <= 2.0 * n as real + d as real < 2.0 * (d * r) as real + 2.0 * d as real
    ensures NearestRatio(r, n, d)
  {
    var x := d * r;
    assert 2 * x <= 2 * n + d < 2 * x + 2 * d;
  }

  lemma Confident(c: real, o: real, n: real, q: real)
    requires 0.0 < c < 1.0 && n > 0.0 && q == o / n
    ensures c * (1.0 - if q * 2.0 < 1.0 then q * 2.0 else 1.0) > 0.6 <==> 5.0 * c * (n - 2.0 * o) > 3.0 * n
  {
    RealOf(q, o, n);
    if q * 2.0 < 1.0 {
      var v := c * (1.0 - q * 2.0);
      assert v * n == c * (n - 2.0 * o) by { assert (1.0 - q * 2.0) * n == n - 2.0 * o; }
      Unscaled(0.6, v, n);
      Unscaled(v, 0.6, n);
    } else {
      Unscaled(1.0, q * 2.0, n);
      assert n - 2.0 * o <= 0.0 by { assert q * 2.0 * n == 2.0 * o; Scale(1.0, q * 2.0, n); }
      Scale(n - 2.0 * o, 0.0, 5.0 * c);
    }
  }

  // A steady signal

  /** After `m` samples the confidence of a clean signal is above 0.6. */
  predicate Sure(tm: Timing, m: nat) {
    1.0 - tm.exp(-(m as real) / 40.0) > 0.6
  }

  ghost predicate SureBy(tm: Timing, n: nat) {
    exists m :: 2 <= m <= n && Sure(tm, m)
  }

  function Steady(k: u32, n: nat): (raws: seq<u32>)
    ensures |raws| == n
  {
    seq(n, _ => 0xFFFF_FFFF - k)
  }

  /** What the `m`-th pulse of a steady signal publishes: the estimate, if it is the first
      sample that makes it sure; nothing otherwise. */
  ghost predicate SteadyAt(tm: Timing, k: u32, m: nat, e: Option<Estimate>) {
    if tm.clockHz >= k + k && SureBy(tm, m) && m > 0 && !SureBy(tm, m - 1) then
      && e.Some? && NearestRatio(e.value.baud, tm.clockHz, k + k)
      && e.value.validity == 1.0 - tm.exp(-(m as real) / 40.0)
    else e.None?
  }

  lemma AbsorbedSnoc(tm: Timing, raws: seq<u32>, raw: u32)
    ensures var (a, estimates) := Absorbed(tm, raws);
            Absorbed(tm, raws + [raw]) == (Absorb(tm, a, raw).0, estimates + [Absorb(tm, a, raw).1])
  {
    hide Absorb, Sane;
    assert (raws + [raw])[..|raws|] == raws;
  }

  /** A signal of equal pulses of `k` passes is published once, as soon as it is sure, at the
      clock divided by the pulse's `2 k` clocks; never if that is below one. */
  lemma {:induction false} SteadySignal(tm: Timing, k: u32, n: nat)
    requires 0 < k < 0x8000_0000
    ensures forall i :: 0 <= i < n ==> SteadyAt(tm, k, i + 1, Absorbed(tm, Steady(k, n)).1[i])
    ensures SteadyState(tm, k, n, Absorbed(tm, Steady(k, n)).0)
  {
    hide *;
    if n == 0 {
      SteadyStart(tm, k);
    } else {
      SteadySignal(tm, k, n - 1);
      SteadyMore(k, n - 1);
      AbsorbedSnoc(tm, Steady(k, n - 1), 0xFFFF_FFFF - k);
      SteadyStep(tm, k, n - 1, Absorbed(tm, Steady(k, n - 1)).0);
    }
  }

  lemma SteadyMore(k: u32, n: nat)
    ensures Steady(k, n + 1) == Steady(k, n) + [0xFFFF_FFFF - k]
  {
  }

  ghost predicate SteadyState(tm: Timing, k: u32, n: nat, a: Acc) {
    && Sane(a) && a.total == n && a.seen[k + k] == n && a.outlierCount == 0
    && a.baud == (if tm.clockHz >= k + k && SureBy(tm, n) then tm.clockHz as real / (k + k) as real else 0.0)
    && if n == 0 then a.minCycles == 0xFFFF_FFFF && a.maxCycles == a.bitTimeCount == a.bitTimeSum == 0
       else a.minCycles == a.maxCycles == k + k && a.bitTimeCount == n - 1 && a.bitTimeSum == (k + k) * (n - 1)
  }

  lemma SteadyStart(tm: Timing, k: u32)
    ensures SteadyState(tm, k, 0, Absorbed(tm, Steady(k, 0)).0)
  {
  }

  lemma SteadyStep(tm: Timing, k: u32, n: nat, a: Acc)
    requires SteadyState(tm, k, n, a) && Sane(a) && 0 < k < 0x8000_0000
    ensures var (a', e) := Absorb(tm, a, 0xFFFF_FFFF - k);
            SteadyState(tm, k, n + 1, a') && SteadyAt(tm, k, n + 1, e)
  {
    hide NearestRatio, Absorb, Sane, Sure, SureBy;
    var w: u32 := k + k;
    SampleEffect(tm, a, k);
    SteadySane(tm, a, k);
    SureNext(tm, n);
    if n > 0 {
      SteadyCounted(tm, k, n, a);
      Succ(w, n);
      SteadyPublish(tm, w, n, Averaged(Counted(a, w), w));
    }
  }

  lemma SteadySane(tm: Timing, a: Acc, k: u32)
    requires Sane(a)
    ensures Sane(Absorb(tm, a, 0xFFFF_FFFF - k).0)
  {
    hide Absorb, Sane;
    AbsorbSane(tm, a, 0xFFFF_FFFF - k);
  }

  lemma Succ(w: nat, n: nat)
    requires n > 0
    ensures w * (n - 1) + w == w * n
  {
  }

  lemma SteadyCounted(tm: Timing, k: u32, n: nat, a: Acc)
    requires SteadyState(tm, k, n, a) && Sane(a) && 0 < k < 0x8000_0000 && n > 0
    ensures Sane(Averaged(Counted(a, k + k), k + k))
    ensures Absorb(tm, a, 0xFFFF_FFFF - k) == Publish(tm, Averaged(Counted(a, k + k), k + k))
  {
    hide Publish, RawToCycles, Frequent, OneBit, Sane, SureBy;
    var w: u32 := k + k;
    PassWidth(k);
    CountedSane(a, w);
    FrequentMeans(Counted(a, w), w);
    OneBitMeans(w, w);
    AveragedSane(Counted(a, w), w);
  }

  lemma SteadyPublish(tm: Timing, w: u32, n: nat, a: Acc)
    requires Sane(a) && n > 0 && w > 0 && a.bitTimeCount == n && a.bitTimeSum == w * n && a.outlierCount == 0
    requires a.baud == 0.0 || (a.baud == tm.clockHz as real / w as real && tm.clockHz >= w)
    ensures var (a', e) := Publish(tm, a);
            && (e.Some? <==> tm.clockHz >= w && a.baud == 0.0 && Sure(tm, a.total))
            && (e.Some? ==> && NearestRatio(e.value.baud, tm.clockHz, w) && a'.baud == tm.clockHz as real / w as real
                            && e.value.validity == 1.0 - tm.exp(-(a.total as real) / 40.0))
  {
    hide ToU32, BaudChanged, Average, Validity, NearestRatio, Sane;
    AverageBounds(a);
    SteadyAverage(tm, a, w, n);
    UnchangedBaud(tm.clockHz as real / w as real);
    FirstBaud(tm.clockHz, w);
  }

  lemma SureNext(tm: Timing, n: nat)
    ensures SureBy(tm, n + 1) <==> SureBy(tm, n) || (n > 0 && Sure(tm, n + 1))
  {
    hide Sure;
  }

  lemma SteadyAverage(tm: Timing, a: Acc, w: u32, n: nat)
    requires n > 0 && w > 0 && a.bitTimeCount == n && a.bitTimeSum == w * n && a.outlierCount == 0
    ensures Average(a) == w as real && Validity(tm, a) == 1.0 - tm.exp(-(a.total as real) / 40.0)
  {
    ProductReal(w, n);
    var q := Average(a);
    RealOf(q, a.bitTimeSum as real, n as real);
    Unscaled(q, w as real, n as real);
    Unscaled(w as real, q, n as real);
    RealOf(Noise(a), 0.0, n as real);
    Unscaled(Noise(a), 0.0, n as real);
    Unscaled(0.0, Noise(a), n as real);
  }

  lemma UnchangedBaud(b: real)
    requires b >= 0.0
    ensures !BaudChanged(b, b)
  {
  }

  /** The first estimate: due if it is a whole baud at least, and rounded to the nearest. */
  lemma FirstBaud(clock: u32, w: u32)
    requires w > 0
    ensures var b := clock as real / w as real;
            && b >= 0.0 && (BaudChanged(0.0, b) <==> clock >= w) && NearestRatio(ToU32(b + 0.5), clock, w)
            && (clock >= w ==> b > 0.0)
  {
    hide NearestRatio, BaudChanged, ToU32;
    var b := clock as real / w as real;
    Quotient(b, clock as real, w as real);
    ChangedFromZero(b);
    RatioRound(clock, w, b);
  }

  lemma Quotient(b: real, c: real, n: real)
    requires n >= 1.0 && c >= 0.0 && b == c / n
    ensures b * n == c && 0.0 <= b <= c && (b >= 1.0 <==> c >= n)
  {
    RealOf(b, c, n);
    Unscaled(0.0, b, n);
    Unscaled(b, 1.0, n);
    Unscaled(1.0, b, n);
    AtLeastOne(b, n);
  }

  lemma AtLeastOne(b: real, n: real)
    requires b >= 0.0 && n >= 1.0
    ensures b <= b * n && (b >= 1.0 ==> b * n >= n)
  {
    Scale(1.0, n, b);
    if b >= 1.0 { Scale(1.0, b, n); }
  }

  lemma ChangedFromZero(b: real)
    requires b >= 0.0
    ensures BaudChanged(0.0, b) <==> b >= 1.0
  {
  }

  lemma Rounded(r: real, b: real, n: real, c: real)
    requires n > 0.0 && r <= b + 0.5 < r + 1.0 && b * n == c && r >= 0.0
    ensures 2.0 * (n * r) <= 2.0 * c + n < 2.0 * (n * r) + 2.0 * n
  {
    var d := b - r;
    Difference(b, r, n);
    Between(d, n);
    HalfAway(d * n, n, c, n * r);
  }

  lemma Difference(b: real, r: real, n: real)
    ensures (b - r) * n == b * n - n * r
  {
  }

  lemma Between(d: real, n: real)
    requires n > 0.0 && -0.5 <= d < 0.5
    ensures -0.5 * n <= d * n < 0.5 * n
  {
    ScaleRight(-0.5, d, n);
    ScaleRight(d, 0.5, n);
  }

  lemma HalfAway(x: real, n: real, c: real, p: real)
    requires -0.5 * n <= x < 0.5 * n && x == c - p
    ensures 2.0 * p <= 2.0 * c + n < 2.0 * p + 2.0 * n
  {
  }

  lemma ScaleRight(x: real, y: real, n: real)
    requires n > 0.0
    ensures x <= y ==> x * n <= y * n
    ensures x < y ==> x * n < y * n
  {
  }

  /** The sum of the widths of a batch. */
  function Cycles(raws: seq<u32>): nat {
    if raws == [] then 0 else RawToCycles(raws[0]) + Cycles(raws[1..])
  }

  /** What a batch of samples makes of the state, and the last estimate it publishes. */
  function AbsorbAll(tm: Timing, a: Acc, raws: seq<u32>): (Acc, Option<Estimate>)
    requires Sane(a)
    decreases |raws|
  {
    if raws == [] then (a, None)
    else
      var (a', e) := Absorb(tm, a, raws[0]);
      AbsorbSane(tm, a, raws[0]);
      var (end, last) := AbsorbAll(tm, a', raws[1..]);
      (end, if last.Some? then last else e)
  }

  lemma {:induction false} WidthsFirst(raws: seq<u32>)
    requires raws != []
    ensures Widths(raws) == Width(RawToCycles(raws[0])) + Widths(raws[1..])
  {
    hide RawToCycles, Width;
    var n := |raws| - 1;
    if n == 0 {
      assert raws[..0] == [] && raws[1..] == [];
    } else {
      WidthsFirst(raws[..n]);
      assert raws[..n][1..] == raws[1..][..n - 1] && raws[1..][n - 1] == raws[n];
      var first, middle, last := Width(RawToCycles(raws[0])), Widths(raws[1..][..n - 1]), Width(RawToCycles(raws[n]));
      RegroupBags(first, middle, last);
    }
  }

  lemma RegroupBags(a: multiset<u32>, b: multiset<u32>, c: multiset<u32>)
    ensures (a + b) + c == a + (b + c)
  {
  }

  lemma FewerDistinct(a: multiset<u32>, b: multiset<u32>)
    requires a <= b
    ensures |Distinct(a)| <= |Distinct(b)|
  {
    SubsetSize(Distinct(a), Distinct(b));
  }

  /** A sample the estimator can take: its probes end, and no 32-bit accumulator overflows. */
  predicate Takes(tm: Timing, a: Acc, raw: u32)
    requires Sane(a)
  {
    var (a', _) := Absorb(tm, a, raw);
    && a'.total < 0x1_0000_0000 && a'.bitTimeSum < 0x1_0000_0000
    && (RawToCycles(raw) in a.seen || |Distinct(a.seen)| < SLOTS)
  }

  lemma TakesMeans(tm: Timing, a: Acc, raw: u32)
    requires Sane(a) && Takes(tm, a, raw)
    ensures a.total + 1 < 0x1_0000_0000
    ensures RawToCycles(raw) in a.seen || |Distinct(a.seen)| < SLOTS
    ensures var cycles, a1 := RawToCycles(raw), Counted(a, RawToCycles(raw));
            Frequent(a1, cycles) && cycles >= a1.minCycles && OneBit(a1.minCycles, cycles) ==>
              a.bitTimeSum + cycles < 0x1_0000_0000
  {
    hide ToU32, BaudChanged, Validity, Average, Distinct;
    AbsorbSane(tm, a, raw);
    CountedSane(a, RawToCycles(raw));
  }

  /** Each sample of a batch can be taken in its turn. */
  predicate TakesAll(tm: Timing, a: Acc, raws: seq<u32>)
    requires Sane(a)
    decreases |raws|
  {
    if raws == [] then true
    else
      AbsorbSane(tm, a, raws[0]);
      Takes(tm, a, raws[0]) && TakesAll(tm, Absorb(tm, a, raws[0]).0, raws[1..])
  }

  /** Any batch can be taken that leaves fewer distinct widths than slots and whose number
      and sum fit the accumulators. */
  lemma {:induction false} FewWidthsTaken(tm: Timing, a: Acc, raws: seq<u32>)
    requires Sane(a) && a.total + |raws| < 0x1_0000_0000 && a.bitTimeSum + Cycles(raws) < 0x1_0000_0000
    requires |Distinct(a.seen + Widths(raws))| < 500
    ensures TakesAll(tm, a, raws)
    decreases |raws|
  {
    hide Absorb, Sane, RawToCycles, Width, Distinct, Widths;
    if raws != [] {
      AbsorbSane(tm, a, raws[0]);
      WidthsFirst(raws);
      RegroupBags(a.seen, Width(RawToCycles(raws[0])), Widths(raws[1..]));
      FewerDistinct(a.seen, a.seen + Widths(raws));
      FewWidthsTaken(tm, Absorb(tm, a, raws[0]).0, raws[1..]);
    }
  }

  class BaudEstimator {
    ghost const tm: Timing
    const clockHz: u32
    const exp: real -> real
    const hash: u32 -> Slot
    const table: array<Entry>
    var baud: real
    var minCycles: u32
    var maxCycles: u32
    var total: u32
    var bitTimeSum: u32
    var bitTimeCount: u32
    var outlierCount: u32
    ghost var seen: multiset<u32>

    ghost function State(): Acc
      reads this
    {
      Acc(seen, baud, minCycles, maxCycles, total, bitTimeSum, bitTimeCount, outlierCount)
    }

    ghost predicate Valid()
      reads this, table
    {
      && tm == Timing(clockHz, exp)
      && StandsFor(table[..], hash, seen) && Sane(State()) && bitTimeCount <= total
    }

    constructor (clockHz: u32, exp: real -> real, hash: u32 -> Slot)
      ensures Valid() && State() == FRESH && tm == Timing(clockHz, exp) && this.hash == hash
      ensures fresh(table)
    {
      this.clockHz, this.exp, this.hash := clockHz, exp, hash;
      tm := Timing(clockHz, exp);
      table := new Entry[SLOTS](_ => EMPTY);
      baud, minCycles, maxCycles, total := 0.0, 0xFFFF_FFFF, 0, 0;
      bitTimeSum, bitTimeCount, outlierCount := 0, 0, 0;
      seen := multiset{};
    }

    method Reset()
      requires Valid()
      modifies this, table
      ensures Valid() && State() == FRESH
    {
      hide StandsFor;
      assert table.Length == SLOTS by { TableSize(table[..], hash, seen); }
      forall i | 0 <= i < table.Length {
        table[i] := EMPTY;
      }
      baud, minCycles, maxCycles, total := 0.0, 0xFFFF_FFFF, 0, 0;
      bitTimeSum, bitTimeCount, outlierCount := 0, 0, 0;
      seen := multiset{};
      EmptyStandsFor(table[..], hash);
    }

    /** Probe on from the hash of `key` to its slot, or to an empty one. */
    method Locate(key: u32) returns (i: Slot, ghost d: nat)
      requires table.Length == SLOTS && CanProbe(table[..], hash, key)
      ensures d < SLOTS && i == Probe(hash, key, d) && Stops(table[..], hash, key, d)
      ensures forall e: nat :: e < d ==> !Stops(table[..], hash, key, e)
    {
      hide Probe;
      ProbeStart(hash, key);
      ghost var end: nat :| end < SLOTS && Stops(table[..], hash, key, end);
      i, d := hash(key), 0;
      while table[i].key != 0
        invariant d <= end && i == Probe(hash, key, d)
        invariant forall e: nat :: e < d ==> !Stops(table[..], hash, key, e)
        decreases end - d
      {
        if table[i].key == key {
          return;
        }
        ProbeNext(hash, key, d);
        i := (i + 1) % SLOTS;
        d := d + 1;
      }
    }

    method Insert(key: u32)
      requires Valid() && CanProbe(table[..], hash, key) && |seen| + 1 < 0x1_0000_0000
      modifies table, this`seen
      ensures StandsFor(table[..], hash, seen)
      ensures seen == old(seen) + Width(key)
    {
      var i, d := Locate(key);
      CountBound(seen, key);
      StopMeans(table[..], hash, seen, key, d);
      ghost var was := table[..];
      if table[i].key != 0 {
        table[i] := Entry(key, table[i].count + 1);
      } else {
        table[i] := Entry(key, 1);
      }
      assert table[..] == was[i := table[i]];
      InsertedStandsFor(was, hash, seen, key, d, table[i]);
      seen := seen + Width(key);
    }

    method GetCount(key: u32) returns (n: u32)
      requires StandsFor(table[..], hash, seen) && CanProbe(table[..], hash, key)
      ensures n == seen[key]
    {
      var i, d := Locate(key);
      StopMeans(table[..], hash, seen, key, d);
      return if table[i].key != 0 then table[i].count else 0;
    }

    /** The sample's probes end: its width is in the table, or a slot is free. */
    ghost predicate Holds(cycles: u32)
      reads this
    {
      cycles in seen || |Distinct(seen)| < SLOTS
    }

    /** `insert`, then `get_count` of the same width. */
    method Tally(cycles: u32) returns (n: u32)
      requires Valid() && Holds(cycles) && |seen| + 1 < 0x1_0000_0000
      modifies table, this`seen
      ensures StandsFor(table[..], hash, seen) && seen == Counted(old(State()), cycles).seen && n == seen[cycles]
    {
      hide StandsFor, CanProbe;
      if cycles in seen {
        KeyFound(table[..], hash, seen, cycles);
      } else {
        FewKeysProbe(table[..], hash, seen, cycles);
      }
      Insert(cycles);
      if cycles in seen {
        KeyFound(table[..], hash, seen, cycles);
      } else {
        assert seen == old(seen);
        FewKeysProbe(table[..], hash, seen, cycles);
      }
      n := GetCount(cycles);
    }

    method NewBaud() returns (b: real)
      requires tm.clockHz == clockHz && Sane(State()) && bitTimeCount > 0
      ensures Average(State()) > 0.0 && b == tm.clockHz as real / Average(State())
    {
      AverageBounds(State());
      var avgBitTime := bitTimeSum as real / bitTimeCount as real;
      b := clockHz as real / avgBitTime;
    }

    method Confidence() returns (validity: real)
      requires tm.exp == exp && bitTimeCount > 0
      ensures validity == Validity(tm, State())
    {
      var completeness := 1.0 - exp(-(total as real) / 40.0);
      var noise := outlierCount as real / bitTimeCount as real;
      var consistency := 1.0 - if noise * 2.0 < 1.0 then noise * 2.0 else 1.0;
      validity := completeness * consistency;
    }

    /** A one-bit sample: average it in, and publish what that changes confidently. */
    method AverageIn(cycles: u32) returns (r: Option<Estimate>)
      requires tm == Timing(clockHz, exp) && Sane(State()) && OneBit(minCycles, cycles)
      requires bitTimeSum + cycles < 0x1_0000_0000 && bitTimeCount < total
      modifies `baud, `bitTimeSum, `bitTimeCount, `outlierCount
      ensures bitTimeCount <= total && bitTimeSum == old(bitTimeSum) + cycles
      ensures Sane(Averaged(old(State()), cycles))
      ensures (State(), r) == Publish(tm, Averaged(old(State()), cycles))
    {
      hide ToU32, BaudChanged, Sane, Average, Validity, OneBit;
      ghost var a := Averaged(State(), cycles);
      AveragedSane(State(), cycles);
      bitTimeSum := bitTimeSum + cycles;
      bitTimeCount := bitTimeCount + 1;
      if cycles < maxCycles / 9 {
        outlierCount := outlierCount + 1;
      }
      assert State() == a;
      AverageBounds(a);
      SaneBaud(a);
      var newBaud := NewBaud();
      r := None;
      if BaudChanged(baud, newBaud) {
        var validity := Confidence();
        if validity > VALIDITY_THRESHOLD {
          baud := newBaud;
          r := Some(Estimate(ToU32(newBaud + 0.5), validity));
        }
      }
    }

    method Push(raw: u32) returns (r: Option<Estimate>)
      requires Valid() && Takes(tm, State(), raw)
      modifies this, table
      ensures Valid() && (State(), r) == Absorb(tm, old(State()), raw)
    {
      hide StandsFor, RawToCycles, Publish, Takes, Distinct;
      ghost var a := State();
      var cycles := RawToCycles(raw);
      TakesMeans(tm, a, raw);
      AbsorbSane(tm, a, raw);
      CountedSane(a, cycles);
      var count := Tally(cycles);
      total := total + 1;
      if cycles > maxCycles {
        maxCycles := cycles;
      }
      assert State() == Counted(a, cycles);
      r := None;
      if count as real / total as real >= MIN_FREQUENCY {
        if cycles < minCycles {
          minCycles, bitTimeSum, bitTimeCount, outlierCount := cycles, 0, 0, 0;
        } else if (cycles - minCycles) as real < minCycles as real * 0.1 {
          r := AverageIn(cycles);
        }
      }
    }

    /** The last estimate published within the batch. */
    method PushBatch(raws: seq<u32>) returns (last: Option<Estimate>)
      requires Valid() && TakesAll(tm, State(), raws)
      modifies this, table
      ensures Valid() && (State(), last) == AbsorbAll(tm, old(State()), raws)
    {
      hide StandsFor, RawToCycles, Absorb, Sane, Takes;
      last := None;
      var i := 0;
      ghost var a := State();
      while i < |raws|
        invariant 0 <= i <= |raws| && Valid() && TakesAll(tm, State(), raws[i..])
        invariant var (end, e) := AbsorbAll(tm, State(), raws[i..]);
                  AbsorbAll(tm, a, raws) == (end, if e.Some? then e else last)
      {
        assert raws[i..][0] == raws[i] && raws[i..][1..] == raws[i + 1..];
        AbsorbSane(tm, State(), raws[i]);
        var e := Push(raws[i]);
        if e.Some? {
          last := e;
        }
        i := i + 1;
      }
    }
  }
}
