/** The driver over the PIO engine: plans of FIFO operations, each performed once and in
    order however often the FIFOs block. */
module PioDriver {
  import opened Words
  import opened Pio
  import opened Fifo
  import opened Swd
  import opened Wire

  const SPIN_FAST: nat := 160
  const SPIN_SLOW: nat := 2
  const FAST_KHZ: nat := 6000
  const YIELD_EVERY: nat := 8
  const PLAN_SLOTS: nat := 10
  const PLAN_WORDS: nat := 2

  // Plans

  /** A plan: `Ops` reads it as a list of FIFO operations, a slot being a pull or a push by
      its bit of `pulls`. */
  datatype Plan = Plan(ops: seq<u32>, pulls: nat, len: nat) {
    ghost predicate Valid() {
      |ops| == PLAN_SLOTS && len <= PLAN_SLOTS && pulls < Pow2(len)
    }

    /** The operations the slots stand for. */
    function Ops(): (s: seq<Op>)
      requires Valid()
      ensures |s| == len
    {
      seq(len, i requires 0 <= i < len && Valid() => if HasBit(pulls, i) then PullOp else PushOp(ops[i]))
    }

    function Push(v: u32): (p: Plan)
      requires Valid() && len < PLAN_SLOTS
      ensures p.Valid() && p.Ops() == Ops() + [PushOp(v)]
    {
      HighBitClear(pulls, len);
      var p := Plan(ops[len := v], pulls, len + 1);
      assert p.Ops() == Ops() + [PushOp(v)];
      p
    }

    function Pull(): (p: Plan)
      requires Valid() && len < PLAN_SLOTS
      ensures p.Valid() && p.Ops() == Ops() + [PullOp]
    {
      HighBitClear(pulls, len);
      var p := Plan(ops, SetBit(pulls, len), len + 1);
      assert forall i: nat | i < p.len :: p.Ops()[i] == (Ops() + [PullOp])[i] by {
        forall i: nat | i < p.len ensures p.Ops()[i] == (Ops() + [PullOp])[i] { AddedBit(pulls, len, i); }
      }
      assert p.Ops() == Ops() + [PullOp];
      p
    }

    predicate IsPull(i: nat) {
      HasBit(pulls, i)
    }
  }

  const NO_PLAN: Plan := Plan(seq(PLAN_SLOTS, _ => 0), 0, 0)

  /** Where a plan stands: the operation at `idx` is next, and `nOut` words have come back. */
  datatype Cursor = Cursor(idx: nat, nOut: nat, out: seq<u32>)

  const NEW_CURSOR: Cursor := Cursor(0, 0, [0, 0])

  /** A plan `ops` started at meaning `start` is balanced, pulls at most two words, and
      has been carried out exactly up to the cursor: what was sent so far means `now`, what
      was taken is `got`, and the words the plan pulled are the cursor's. */
  ghost predicate Progress(
    o: nat, line: Line, start: Sem, ops: seq<Op>, now: Sem, got: seq<u32>, cur: Cursor)
  {
    && cur.idx <= |ops|
    && var end := RunOps(o, line, start, ops);
    && |start.rx| <= |end.rx| <= |start.rx| + PLAN_WORDS
    && RunOps(o, line, now, ops[cur.idx..]) == end
    && Balanced(o, line, now, |now.rx| - |got|, ops[cur.idx..])
    && got <= now.rx <= end.rx
    && |got| == |start.rx| + cur.nOut
    && |cur.out| == PLAN_WORDS && cur.nOut <= PLAN_WORDS
    && cur.out[..cur.nOut] == got[|start.rx|..]
  }

  lemma {:induction false} RunOpsGrows(o: nat, line: Line, s: Sem, ops: seq<Op>)
    ensures s.rx <= RunOps(o, line, s, ops).rx
    decreases |ops|
  {
    if ops != [] {
      RunOpsGrows(o, line, if ops[0].PushOp? then Feed(o, line, s, ops[0].w) else s, ops[1..]);
    }
  }

  lemma PushProgress(o: nat, line: Line, start: Sem, ops: seq<Op>, now: Sem, got: seq<u32>, cur: Cursor)
    requires Progress(o, line, start, ops, now, got, cur) && cur.idx < |ops| && ops[cur.idx].PushOp?
    ensures Accepts(o, now, ops[cur.idx].w)
    ensures Progress(o, line, start, ops, Feed(o, line, now, ops[cur.idx].w), got, cur.(idx := cur.idx + 1))
  {
    var i := cur.idx;
    assert ops[i..][0] == ops[i] && ops[i..][1..] == ops[i + 1..];
    RunOpsGrows(o, line, Feed(o, line, now, ops[i].w), ops[i + 1..]);
  }

  lemma ProgressBounds(o: nat, line: Line, start: Sem, ops: seq<Op>, now: Sem, got: seq<u32>, cur: Cursor)
    requires Progress(o, line, start, ops, now, got, cur)
    ensures cur.idx <= |ops|
  {
  }

  lemma PullProgress(o: nat, line: Line, start: Sem, ops: seq<Op>, now: Sem, got: seq<u32>, cur: Cursor)
    requires Progress(o, line, start, ops, now, got, cur) && cur.idx < |ops| && ops[cur.idx].PullOp?
    ensures cur.nOut < PLAN_WORDS == |cur.out| && |got| < |now.rx|
    ensures var w := now.rx[|got|];
            Progress(o, line, start, ops, now, got + [w],
                     Cursor(cur.idx + 1, cur.nOut + 1, cur.out[cur.nOut := w]))
  {
    var i, w := cur.idx, now.rx[|got|];
    assert ops[i..][0] == ops[i] && ops[i..][1..] == ops[i + 1..];
    assert cur.out[cur.nOut := w][..cur.nOut + 1] == cur.out[..cur.nOut] + [w];
    assert (got + [w])[|start.rx|..] == got[|start.rx|..] + [w];
  }

  lemma Begun(o: nat, line: Line, start: Sem, ops: seq<Op>, cycles: seq<Cycle>, words: seq<u32>)
    requires Compiles(o, line, start, ops, cycles, words) && |words| <= PLAN_WORDS
    ensures Progress(o, line, start, ops, start, start.rx, NEW_CURSOR)
  {
    assert ops[0..] == ops;
  }

  lemma Finished(o: nat, line: Line, start: Sem, ops: seq<Op>, now: Sem, got: seq<u32>, cur: Cursor,
                 cycles: seq<Cycle>, words: seq<u32>)
    requires Progress(o, line, start, ops, now, got, cur) && cur.idx == |ops|
    requires Compiles(o, line, start, ops, cycles, words)
    ensures now == Sem(Idle, start.wave + cycles, start.rx + words) && got == now.rx
    ensures cur.nOut == |words| && cur.out[..cur.nOut] == words
  {
    assert ops[cur.idx..] == [];
  }

  /** Every cycle since `cycles` has executed one of the `busy` instructions left then. */
  ghost predicate Worked(engine: Engine, busy: nat, cycles: nat)
    reads engine
  {
    engine.Busy() + engine.cycles - cycles <= busy
  }

  /** Moves for the operations of a plan after the first `idx`: each push adds up to 2000
      instructions to those the state machine has left. */
  function OpMoves(len: nat, idx: nat): nat {
    if idx < len then 3000 * (len - idx) else 0
  }

  /** From `moves` left to `moves'`: none are added, and if the hardware ran any cycle, there
      are fewer. */
  predicate MovesOn(moves: nat, cycles: nat, moves': nat, cycles': nat) {
    cycles <= cycles' && moves' <= moves && (moves' < moves || cycles' == cycles)
  }

  /** Over the hardware as it is, a plan underway is a system that never deadlocks: if its
      next operation is blocked, the state machine is not waiting for the driver. */
  lemma BlockedMeansBusy(engine: Engine, start: Sem, ops: seq<Op>, cur: Cursor)
    requires engine.Valid() && cur.idx < |ops|
    requires Progress(engine.origin, engine.line, start, ops, engine.sent, engine.got, cur)
    ensures var s := System(engine.hw, ops[cur.idx..], engine.done, engine.got);
            && SystemInv(engine.line, engine.depths, s)
            && (DriverReady(engine.depths, s) || !engine.Waiting())
    ensures ops[cur.idx].PullOp? && engine.hw.rx == [] ==> !engine.Waiting()
    ensures ops[cur.idx].PushOp? && |engine.hw.tx| >= engine.depths.tx ==> !engine.Waiting()
  {
    hide RunOps, RunToPull, HwInv, Sent, Balanced, Stalled;
    NeverDeadlocked(engine.line, engine.depths, System(engine.hw, ops[cur.idx..], engine.done, engine.got));
    assert ops[cur.idx..][0] == ops[cur.idx];
  }

  /** One probe's driver. `calls` are the attempts completed since the wire stood at
      `base`, `mark` how many there were when this lane last yielded, and `alone` is set
      once the lane has seen no other lane active since then. While it has not, at most
      YIELD_EVERY attempts complete from one yield to the next. */
  class PioSwd {
    const engine: Engine
    var spin: nat
    var run: nat
    ghost const base: seq<Cycle>
    ghost var calls: seq<Call>
    ghost var mark: nat
    ghost var alone: bool

    ghost predicate Valid()
      reads this, engine
    {
      && engine.Valid()
      && run <= YIELD_EVERY
      && mark <= |calls|
      && (!alone ==> |calls| - mark <= run)
    }

    constructor (engine: Engine, swclkKhz: nat)
      requires engine.Valid() && engine.sent.mode.Idle? && engine.got == engine.sent.rx
      ensures Valid() && this.engine == engine && base == engine.sent.wave && calls == []
    {
      this.engine := engine;
      spin := if swclkKhz >= FAST_KHZ then SPIN_FAST else SPIN_SLOW;
      run, mark, alone := 0, 0, false;
      base, calls := engine.sent.wave, [];
    }

    /** `ACTIVE_LANES`, which the other lanes change at any time. */
    method ActiveLanes() returns (n: nat)
      modifies this`alone
      ensures alone == (old(alone) || n <= 1)
    {
      n := *;
      alone := alone || n <= 1;
    }

    /** A cooperative yield. */
    method Yield()
      requires engine.Valid() && run <= YIELD_EVERY
      modifies this`mark, this`alone
      ensures Valid() && mark == |calls|
    {
      mark, alone := |calls|, false;
    }

    /** Poll the RX FIFO once and up to `budget` more times. */
    method PullWithin(budget: nat) returns (word: Option<u32>)
      requires engine.Valid()
      modifies engine
      ensures engine.Valid() && engine.sent == old(engine.sent)
      ensures word.Some? ==> |old(engine.got)| < |engine.sent.rx| && word.value == engine.sent.rx[|old(engine.got)|]
      ensures engine.got == if word.Some? then old(engine.got) + [word.value] else old(engine.got)
      ensures engine.cycles >= old(engine.cycles) && engine.Busy() <= old(engine.Busy())
      ensures word.None? ==> engine.hw.rx == []
                             && (engine.Waiting() || Worked(engine, old(engine.Busy()), old(engine.cycles)))
    {
      hide HwInv, Sent, Engine.Waiting, Engine.Busy;
      word := engine.TryPull();
      var n := budget;
      while word.None? && n > 0
        invariant engine.Valid() && engine.sent == old(engine.sent)
        invariant word.Some? ==> |old(engine.got)| < |engine.sent.rx|
                                 && word.value == engine.sent.rx[|old(engine.got)|]
        invariant engine.got == if word.Some? then old(engine.got) + [word.value] else old(engine.got)
        invariant engine.cycles >= old(engine.cycles) && engine.Busy() <= old(engine.Busy())
        invariant word.None? ==> engine.hw.rx == []
                                 && (engine.Waiting() || Worked(engine, old(engine.Busy()), old(engine.cycles)))
      {
        word := engine.TryPull();
        n := n - 1;
      }
    }

    /** Offer `v` to the TX FIFO once and up to `budget` more times. */
    method PushWithin(v: u32, budget: nat) returns (ok: bool)
      requires engine.Valid() && Accepts(engine.origin, engine.sent, v)
      modifies engine
      ensures engine.Valid() && engine.got == old(engine.got)
      ensures engine.sent == if ok then Feed(engine.origin, engine.line, old(engine.sent), v) else old(engine.sent)
      ensures engine.cycles >= old(engine.cycles) && engine.Busy() <= old(engine.Busy()) + if ok then 2000 else 0
      ensures !ok ==> |engine.hw.tx| >= engine.depths.tx
                      && (engine.Waiting() || Worked(engine, old(engine.Busy()), old(engine.cycles)))
    {
      hide HwInv, Sent, Feed, Accepts, Engine.Waiting, Engine.Busy;
      ok := engine.TryPush(v);
      var n := budget;
      while !ok && n > 0
        invariant engine.Valid() && engine.got == old(engine.got)
        invariant engine.sent == if ok then Feed(engine.origin, engine.line, old(engine.sent), v)
                                 else old(engine.sent)
        invariant engine.cycles >= old(engine.cycles) && engine.Busy() <= old(engine.Busy()) + if ok then 2000 else 0
        invariant !ok ==> |engine.hw.tx| >= engine.depths.tx
                          && (engine.Waiting() || Worked(engine, old(engine.Busy()), old(engine.cycles)))
      {
        ok := engine.TryPush(v);
        n := n - 1;
      }
    }

    /** `plan`, begun at `start`, is carried out up to `cur`. */
    ghost predicate Underway(start: Sem, plan: Plan, cur: Cursor)
      reads engine
    {
      plan.Valid() && Progress(engine.origin, engine.line, start, plan.Ops(), engine.sent, engine.got, cur)
    }

    /** The plan stays underway whatever the FIFOs answer: the operations between the two
        cursors, and no others, are performed, and `done` exactly at its end. */
    method Step(plan: Plan, cur: Cursor, ghost start: Sem) returns (done: bool, now: Cursor)
      requires engine.Valid() && Underway(start, plan, cur)
      modifies engine, this`alone
      ensures engine.Valid() && Underway(start, plan, now) && (old(alone) ==> alone)
      ensures done ==> now.idx == plan.len
      ensures MovesOn(old(engine.Busy()) + OpMoves(plan.len, cur.idx), old(engine.cycles),
                      engine.Busy() + OpMoves(plan.len, now.idx), engine.cycles)
    {
      hide Progress, HwInv, Sent, Feed, Accepts, HasBit, Engine.Waiting, Engine.Busy;
      ghost var ops := plan.Ops();
      ProgressBounds(engine.origin, engine.line, start, ops, engine.sent, engine.got, cur);
      var lanes := ActiveLanes();
      var budget := if lanes <= 1 then SPIN_FAST else spin;
      now := cur;
      while now.idx < plan.len
        invariant engine.Valid() && (old(alone) ==> alone) && now.idx <= plan.len
        invariant Progress(engine.origin, engine.line, start, ops, engine.sent, engine.got, now)
        invariant MovesOn(old(engine.Busy()) + OpMoves(plan.len, cur.idx), old(engine.cycles),
                          engine.Busy() + OpMoves(plan.len, now.idx), engine.cycles)
        decreases plan.len - now.idx
      {
        if plan.IsPull(now.idx) {
          PullProgress(engine.origin, engine.line, start, ops, engine.sent, engine.got, now);
          var word := PullWithin(budget);
          if word.None? {
            BlockedMeansBusy(engine, start, ops, now);
            return false, now;
          }
          now := now.(nOut := now.nOut + 1, out := now.out[now.nOut := word.value], idx := now.idx + 1);
        } else {
          PushProgress(engine.origin, engine.line, start, ops, engine.sent, engine.got, now);
          var ok := PushWithin(plan.ops[now.idx], budget);
          if !ok {
            BlockedMeansBusy(engine, start, ops, now);
            return false, now;
          }
          now := now.(idx := now.idx + 1);
        }
      }
      return true, now;
    }
  }
}
