/** The state machine behind its two bounded FIFOs, and the driver's raw access to
    them. Between any two driver accesses the hardware runs an arbitrary number of
    instructions. */
module Fifo {
  import opened Words
  import opened Pio

  datatype Depths = Depths(tx: nat, rx: nat)

  /** State machine registers and FIFO contents, oldest word first. */
  datatype Hw = Hw(regs: Regs, tx: seq<u32>, rx: seq<u32>)

  predicate Stalled(d: Depths, h: Hw)
    requires Live(h.regs)
  {
    || (h.regs.At().op.Pull? && h.tx == [])
    || (h.regs.At().op.Push? && |h.rx| >= d.rx)
  }

  /** One state machine cycle; a stalled instruction still applies its side-set. */
  function HwStep(line: Line, d: Depths, h: Hw): Hw
    requires Live(h.regs)
  {
    if Stalled(d, h) then h.(regs := h.regs.Side(line, h.regs.At().side))
    else if h.regs.At().op.Pull? then Hw(ExecPull(line, h.regs, h.tx[0]), h.tx[1..], h.rx)
    else if h.regs.At().op.Push? then
      var (regs, w) := ExecPush(h.regs);
      Hw(regs, h.tx, h.rx + [w])
    else h.(regs := Exec(line, h.regs))
  }

  /** `done` is the meaning of the words the program has pulled, `got` the RX words
      the driver has taken: nothing is lost, repeated or reordered in between. */
  predicate HwInv(line: Line, d: Depths, h: Hw, done: Sem, got: seq<u32>) {
    && Live(h.regs) && |h.tx| <= d.tx && |h.rx| <= d.rx
    && AcceptsAll(h.regs.origin, line, done, h.tx)
    && var (end, out) := RunToPull(line, h.regs);
       && Waits(end, done) && end.origin == h.regs.origin
       && done.rx == got + h.rx + out
  }

  /** The meaning of every word pushed so far. */
  function Sent(line: Line, h: Hw, done: Sem): Sem {
    FeedAll(h.regs.origin, line, done, h.tx)
  }

  /** The meaning of the words pulled, after one cycle. */
  function DoneAfter(line: Line, h: Hw, done: Sem): Sem
    requires Live(h.regs)
  {
    if h.regs.At().op.Pull? && h.tx != [] then Feed(h.regs.origin, line, done, h.tx[0]) else done
  }

  lemma HwStepKeeps(line: Line, d: Depths, h: Hw, done: Sem, got: seq<u32>)
    requires HwInv(line, d, h, done, got)
    ensures var h' := HwStep(line, d, h);
            var done' := DoneAfter(line, h, done);
            && HwInv(line, d, h', done', got) && h'.regs.origin == h.regs.origin
            && Sent(line, h', done') == Sent(line, h, done)
  {
    hide RunToPull, Exec, FeedAll, AcceptsAll, Feed, Waits;
    if Stalled(d, h) {
      StallKeeps(line, d, h, done, got);
    } else if h.regs.At().op.Pull? {
      PullStepKeeps(line, d, h, done, got);
    } else if h.regs.At().op.Push? {
      PushStepKeeps(line, d, h, done, got);
    } else {
      ExecStepKeeps(line, d, h, done, got);
    }
  }

  lemma ExecStepKeeps(line: Line, d: Depths, h: Hw, done: Sem, got: seq<u32>)
    requires HwInv(line, d, h, done, got) && !h.regs.At().op.Pull? && !h.regs.At().op.Push?
    ensures var h' := HwStep(line, d, h);
            HwInv(line, d, h', done, got) && h'.regs.origin == h.regs.origin && Sent(line, h', done) == Sent(line, h, done)
  {
    hide Exec, FeedAll, AcceptsAll, Feed, Waits;
    RunStep(line, h.regs);
    ExecLive(line, h.regs);
  }

  lemma StallKeeps(line: Line, d: Depths, h: Hw, done: Sem, got: seq<u32>)
    requires HwInv(line, d, h, done, got) && Stalled(d, h)
    ensures HwInv(line, d, HwStep(line, d, h), done, got)
  {
  }

  lemma PullStepKeeps(line: Line, d: Depths, h: Hw, done: Sem, got: seq<u32>)
    requires HwInv(line, d, h, done, got) && h.regs.At().op.Pull? && h.tx != []
    ensures var done' := Feed(h.regs.origin, line, done, h.tx[0]);
            && HwInv(line, d, HwStep(line, d, h), done', got)
            && Sent(line, HwStep(line, d, h), done') == Sent(line, h, done)
  {
    FeedCorrect(line, h.regs, done, h.tx[0]);
  }

  lemma PushStepKeeps(line: Line, d: Depths, h: Hw, done: Sem, got: seq<u32>)
    requires HwInv(line, d, h, done, got) && h.regs.At().op.Push? && |h.rx| < d.rx
    ensures HwInv(line, d, HwStep(line, d, h), done, got)
  {
    var (end, out) := RunToPull(line, h.regs);
    var (_, w) := ExecPush(h.regs);
    assert got + (h.rx + [w]) + out[1..] == got + h.rx + out;
  }

  // The driver's side

  datatype Op = PushOp(w: u32) | PullOp

  /** The operations of a plan performed in order, each push with its meaning. */
  function RunOps(origin: nat, line: Line, s: Sem, ops: seq<Op>): Sem
    decreases |ops|
  {
    if ops == [] then s
    else RunOps(origin, line, if ops[0].PushOp? then Feed(origin, line, s, ops[0].w) else s, ops[1..])
  }

  /** Every push is a word the program accepts, RX words never pile up beyond two,
      every pull has a word coming, and the plan ends idle with none left over.
      `owed` counts the RX words pushed for but not yet pulled. */
  predicate Balanced(origin: nat, line: Line, s: Sem, owed: int, ops: seq<Op>)
    decreases |ops|
  {
    && 0 <= owed <= 2
    && if ops == [] then owed == 0 && s.mode.Idle?
       else match ops[0]
            case PushOp(w) =>
              var s' := Feed(origin, line, s, w);
              Accepts(origin, s, w) && Balanced(origin, line, s', owed + |s'.rx| - |s.rx|, ops[1..])
            case PullOp => owed > 0 && Balanced(origin, line, s, owed - 1, ops[1..])
  }

  lemma {:induction false} BalancedConcat(origin: nat, line: Line, s: Sem, owed: int, a: seq<Op>, b: seq<Op>)
    requires Balanced(origin, line, s, owed, a)
    requires Balanced(origin, line, RunOps(origin, line, s, a), 0, b)
    ensures Balanced(origin, line, s, owed, a + b)
    ensures RunOps(origin, line, s, a + b) == RunOps(origin, line, RunOps(origin, line, s, a), b)
    decreases |a|
  {
    if a == [] {
      assert a + b == b;
    } else {
      assert (a + b)[1..] == a[1..] + b;
      match a[0]
      case PushOp(w) =>
        var s' := Feed(origin, line, s, w);
        BalancedConcat(origin, line, s', owed + |s'.rx| - |s.rx|, a[1..], b);
      case PullOp => BalancedConcat(origin, line, s, owed - 1, a[1..], b);
    }
  }

  /** A driver that still has `todo` to do, over the hardware. */
  datatype System = System(hw: Hw, todo: seq<Op>, done: Sem, got: seq<u32>)

  predicate SystemInv(line: Line, d: Depths, s: System) {
    && d.tx >= 1 && d.rx >= 2
    && HwInv(line, d, s.hw, s.done, s.got)
    && var sent := Sent(line, s.hw, s.done);
       Balanced(s.hw.regs.origin, line, sent, |sent.rx| - |s.got|, s.todo)
  }

  /** The driver's next FIFO access would find room, or a word. */
  predicate DriverReady(d: Depths, s: System) {
    s.todo != [] && match s.todo[0]
                    case PushOp(_) => |s.hw.tx| < d.tx
                    case PullOp => s.hw.rx != []
  }

  function DriverStep(d: Depths, s: System): System
    requires DriverReady(d, s)
  {
    match s.todo[0]
    case PushOp(w) => s.(hw := s.hw.(tx := s.hw.tx + [w]), todo := s.todo[1..])
    case PullOp => s.(hw := s.hw.(rx := s.hw.rx[1..]), todo := s.todo[1..], got := s.got + [s.hw.rx[0]])
  }

  lemma PushKeeps(line: Line, d: Depths, h: Hw, done: Sem, got: seq<u32>, w: u32)
    requires HwInv(line, d, h, done, got) && |h.tx| < d.tx
    requires Accepts(h.regs.origin, Sent(line, h, done), w)
    ensures var h' := h.(tx := h.tx + [w]);
            && HwInv(line, d, h', done, got)
            && Sent(line, h', done) == Feed(h.regs.origin, line, Sent(line, h, done), w)
  {
    FeedAllConcat(h.regs.origin, line, done, h.tx, [w]);
    var sent := Sent(line, h, done);
    assert [w][1..] == [];
    assert FeedAll(h.regs.origin, line, sent, [w]) == Feed(h.regs.origin, line, sent, w);
  }

  lemma PullKeeps(line: Line, d: Depths, h: Hw, done: Sem, got: seq<u32>)
    requires HwInv(line, d, h, done, got) && h.rx != []
    ensures HwInv(line, d, h.(rx := h.rx[1..]), done, got + [h.rx[0]])
    ensures |got| < |Sent(line, h, done).rx| && Sent(line, h, done).rx[|got|] == h.rx[0]
    ensures got <= Sent(line, h, done).rx
  {
    var (end, out) := RunToPull(line, h.regs);
    assert got + h.rx + out == got + [h.rx[0]] + h.rx[1..] + out;
    FeedGrows(h.regs.origin, line, done, h.tx);
  }

  lemma DriverStepKeeps(line: Line, d: Depths, s: System)
    requires SystemInv(line, d, s) && DriverReady(d, s)
    ensures SystemInv(line, d, DriverStep(d, s))
  {
    match s.todo[0]
    case PushOp(w) => PushKeeps(line, d, s.hw, s.done, s.got, w);
    case PullOp => PullKeeps(line, d, s.hw, s.done, s.got);
  }

  /** Driver and state machine never wait for each other: while the driver has work
      left, one of the two can move. */
  lemma NeverDeadlocked(line: Line, d: Depths, s: System)
    requires SystemInv(line, d, s) && s.todo != []
    ensures DriverReady(d, s) || !Stalled(d, s.hw)
  {
    FeedGrows(s.hw.regs.origin, line, s.done, s.hw.tx);
    var (end, out) := RunToPull(line, s.hw.regs);
    assert |s.done.rx| == |s.got| + |s.hw.rx| + |out|;
    assert s.done.rx <= Sent(line, s.hw, s.done).rx;
  }

  /** Bounds the moves both sides still have. */
  function Moves(s: System): nat
    requires Live(s.hw.regs)
  {
    3000 * |s.todo| + 2000 * |s.hw.tx| + Work(s.hw.regs)
  }

  lemma WorkBound(line: Line, r: Regs, w: u32)
    requires Live(r) && r.At().op.Pull? && Live(ExecPull(line, r, w))
    requires r.pc == r.origin ==> r.x < 0x100
    ensures Work(ExecPull(line, r, w)) < 2000
  {
  }

  /** One move of the chosen side, or of the other one when the chosen side waits. */
  function Turn(line: Line, d: Depths, s: System, driver: bool): System
    requires Live(s.hw.regs)
  {
    if DriverReady(d, s) && (driver || Stalled(d, s.hw)) then DriverStep(d, s)
    else s.(hw := HwStep(line, d, s.hw), done := DoneAfter(line, s.hw, s.done))
  }

  lemma HwStepWork(line: Line, d: Depths, h: Hw, done: Sem, got: seq<u32>)
    requires HwInv(line, d, h, done, got) && !Stalled(d, h)
    ensures var h' := HwStep(line, d, h);
            Live(h'.regs) && 2000 * |h'.tx| + Work(h'.regs) < 2000 * |h.tx| + Work(h.regs)
  {
    if h.regs.At().op.Pull? {
      FeedCorrect(line, h.regs, done, h.tx[0]);
      WorkBound(line, h.regs, h.tx[0]);
    } else if !h.regs.At().op.Push? {
      ExecLive(line, h.regs);
    }
  }

  lemma TurnProgress(line: Line, d: Depths, s: System, driver: bool)
    requires SystemInv(line, d, s) && s.todo != []
    ensures var t := Turn(line, d, s, driver);
            SystemInv(line, d, t) && Moves(t) < Moves(s)
  {
    NeverDeadlocked(line, d, s);
    if DriverReady(d, s) && (driver || Stalled(d, s.hw)) {
      DriverStepKeeps(line, d, s);
    } else {
      HwStepKeeps(line, d, s.hw, s.done, s.got);
      HwStepWork(line, d, s.hw, s.done, s.got);
    }
  }

  function Turns(line: Line, d: Depths, s: System, schedule: seq<bool>): System
    requires SystemInv(line, d, s)
    decreases |schedule|
  {
    if schedule == [] || s.todo == [] then s
    else
      TurnProgress(line, d, s, schedule[0]);
      Turns(line, d, Turn(line, d, s, schedule[0]), schedule[1..])
  }

  /** Whoever moves when, a plan is through after boundedly many moves. */
  lemma {:induction false} EveryScheduleCompletes(line: Line, d: Depths, s: System, schedule: seq<bool>)
    requires SystemInv(line, d, s) && |schedule| >= Moves(s)
    ensures Turns(line, d, s, schedule).todo == []
    decreases |schedule|
  {
    if s.todo != [] {
      TurnProgress(line, d, s, schedule[0]);
      EveryScheduleCompletes(line, d, Turn(line, d, s, schedule[0]), schedule[1..]);
    }
  }

  /** The wire never shows anything but the meaning of the words pushed, in order; once
      the state machine waits with nothing queued, it has shown all of it. */
  lemma WireIsSent(line: Line, d: Depths, h: Hw, done: Sem, got: seq<u32>)
    requires HwInv(line, d, h, done, got)
    ensures h.regs.wave <= Sent(line, h, done).wave
    ensures h.regs.At().op.Pull? && h.tx == [] ==> h.regs.wave == Sent(line, h, done).wave
  {
    RunGrows(line, h.regs);
    FeedGrows(h.regs.origin, line, done, h.tx);
  }

  lemma {:induction false} RunGrows(line: Line, r: Regs)
    requires Live(r)
    ensures r.wave <= RunToPull(line, r).0.wave
    decreases Work(r)
  {
    if r.At().op.Push? {
      RunGrows(line, ExecPush(r).0);
    } else if !r.At().op.Pull? {
      ExecLive(line, r);
      RunGrows(line, Exec(line, r));
    }
  }

  lemma {:induction false} TurnsMeaning(line: Line, d: Depths, s: System, schedule: seq<bool>)
    requires SystemInv(line, d, s)
    ensures var t := Turns(line, d, s, schedule);
            && SystemInv(line, d, t) && t.hw.regs.origin == s.hw.regs.origin
            && RunOps(t.hw.regs.origin, line, Sent(line, t.hw, t.done), t.todo)
            == RunOps(s.hw.regs.origin, line, Sent(line, s.hw, s.done), s.todo)
    decreases |schedule|
  {
    if schedule != [] && s.todo != [] {
      var t := Turn(line, d, s, schedule[0]);
      TurnProgress(line, d, s, schedule[0]);
      TurnMeaning(line, d, s, schedule[0]);
      TurnsMeaning(line, d, t, schedule[1..]);
    }
  }

  lemma TurnMeaning(line: Line, d: Depths, s: System, driver: bool)
    requires SystemInv(line, d, s) && s.todo != []
    ensures var t := Turn(line, d, s, driver);
            && t.hw.regs.origin == s.hw.regs.origin
            && RunOps(t.hw.regs.origin, line, Sent(line, t.hw, t.done), t.todo)
            == RunOps(s.hw.regs.origin, line, Sent(line, s.hw, s.done), s.todo)
  {
    if DriverReady(d, s) && (driver || Stalled(d, s.hw)) {
      match s.todo[0]
      case PushOp(w) => PushKeeps(line, d, s.hw, s.done, s.got, w);
      case PullOp => PullKeeps(line, d, s.hw, s.done, s.got);
    } else {
      HwStepKeeps(line, d, s.hw, s.done, s.got);
    }
  }

  /** Under every schedule a plan completes with the same words pushed and pulled: the
      wire's and the driver's view do not depend on who moved when. */
  lemma EveryScheduleAgrees(line: Line, d: Depths, s: System, schedule: seq<bool>)
    requires SystemInv(line, d, s) && |schedule| >= Moves(s)
    ensures var t := Turns(line, d, s, schedule);
            var meaning := RunOps(s.hw.regs.origin, line, Sent(line, s.hw, s.done), s.todo);
            && t.todo == [] && HwInv(line, d, t.hw, t.done, t.got)
            && Sent(line, t.hw, t.done) == meaning && t.got == meaning.rx
            && t.hw.regs.wave <= meaning.wave
  {
    EveryScheduleCompletes(line, d, s, schedule);
    TurnsMeaning(line, d, s, schedule);
    var t := Turns(line, d, s, schedule);
    FeedGrows(t.hw.regs.origin, line, t.done, t.hw.tx);
    WireIsSent(line, d, t.hw, t.done, t.got);
  }

  /** Instructions the state machine has left before it waits with an empty TX FIFO, or more. */
  ghost function Pending(h: Hw): nat {
    if Live(h.regs) then 2000 * |h.tx| + Work(h.regs) else 0
  }

  /** A stalled state machine stays stalled until the driver acts. */
  lemma StallStays(line: Line, d: Depths, h: Hw, done: Sem, got: seq<u32>)
    requires HwInv(line, d, h, done, got) && Stalled(d, h)
    ensures var h' := HwStep(line, d, h);
            Live(h'.regs) && Stalled(d, h') && Pending(h') == Pending(h) && h'.tx == h.tx && h'.rx == h.rx
  {
    StallKeeps(line, d, h, done, got);
  }

  /** The hardware left alone for `n` cycles. */
  function HwRun(line: Line, d: Depths, h: Hw, done: Sem, got: seq<u32>, n: nat): (Hw, Sem)
    requires HwInv(line, d, h, done, got)
    decreases n
  {
    if n == 0 then (h, done)
    else
      HwStepKeeps(line, d, h, done, got);
      HwRun(line, d, HwStep(line, d, h), DoneAfter(line, h, done), got, n - 1)
  }

  /** A driver whose next access is blocked finds it ready, and then for good, once the
      hardware has run more cycles than it has instructions left. */
  lemma {:induction false} BlockedBecomesReady(line: Line, d: Depths, s: System, n: nat)
    requires SystemInv(line, d, s) && s.todo != []
    requires DriverReady(d, s) || n > Pending(s.hw)
    ensures var (hw, done) := HwRun(line, d, s.hw, s.done, s.got, n);
            DriverReady(d, s.(hw := hw, done := done))
    decreases n
  {
    hide SystemInv, HwStep, DoneAfter;
    if n > 0 {
      NeverDeadlocked(line, d, s);
      IdleDriver(line, d, s);
      var t := s.(hw := HwStep(line, d, s.hw), done := DoneAfter(line, s.hw, s.done));
      BlockedBecomesReady(line, d, t, n - 1);
    }
  }

  /** One cycle of the hardware, the driver doing nothing. */
  lemma IdleDriver(line: Line, d: Depths, s: System)
    requires SystemInv(line, d, s) && s.todo != []
    ensures var t := s.(hw := HwStep(line, d, s.hw), done := DoneAfter(line, s.hw, s.done));
            && SystemInv(line, d, t) && (DriverReady(d, s) ==> DriverReady(d, t))
            && (!Stalled(d, s.hw) ==> Pending(t.hw) < Pending(s.hw))
    ensures HwInv(line, d, s.hw, s.done, s.got)
  {
    HwStepKeeps(line, d, s.hw, s.done, s.got);
    if !Stalled(d, s.hw) { HwStepWork(line, d, s.hw, s.done, s.got); }
  }

  /** One cycle, as the driver's side accounts for it. */
  lemma CycleWorks(line: Line, d: Depths, h: Hw, done: Sem, got: seq<u32>)
    requires HwInv(line, d, h, done, got)
    ensures Live(h.regs)
    ensures var h', done' := HwStep(line, d, h), DoneAfter(line, h, done);
            && HwInv(line, d, h', done', got) && h'.regs.origin == h.regs.origin && Live(h'.regs)
            && Sent(line, h', done') == Sent(line, h, done)
            && (if Stalled(d, h) then Stalled(d, h') && Pending(h') == Pending(h) else Pending(h') < Pending(h))
  {
    hide HwStep, DoneAfter, Stalled, RunToPull, Sent;
    HwStepKeeps(line, d, h, done, got);
    if Stalled(d, h) {
      StallStays(line, d, h, done, got);
    } else {
      HwStepWork(line, d, h, done, got);
    }
  }

  /** One state machine and its FIFOs as the driver holds them: `sent` is the meaning of
      every word pushed, `got` the RX words taken. */
  class Engine {
    const line: Line
    const depths: Depths
    const origin: nat
    var hw: Hw
    ghost var done: Sem
    ghost var sent: Sem
    ghost var got: seq<u32>
    /** Cycles the hardware has run. */
    ghost var cycles: nat

    ghost predicate Valid()
      reads this
    {
      && depths.tx >= 1 && depths.rx >= 2 && hw.regs.origin == origin && origin + PROGRAM_LEN <= 32
      && HwInv(line, depths, hw, done, got)
      && sent == Sent(line, hw, done)
    }

    /** Started in `get_next_cmd`, with both pins driven. */
    constructor (line: Line, depths: Depths, origin: nat)
      requires depths.tx >= 1 && depths.rx >= 2 && origin + PROGRAM_LEN <= 32
      ensures Valid() && this.line == line && this.depths == depths && this.origin == origin
      ensures sent == Sem(Idle, [], []) && got == [] && cycles == 0
    {
      this.line, this.depths, this.origin := line, depths, origin;
      hw := Hw(Regs(origin, origin + GET_NEXT_CMD, 0, 0, 0, false, false, true, []), [], []);
      done, sent, got, cycles := Sem(Idle, [], []), Sem(Idle, [], []), [], 0;
    }

    /** Instructions left, and whether the state machine waits for the driver. */
    ghost function Busy(): nat
      reads this
    {
      Pending(hw)
    }

    ghost predicate Waiting()
      reads this
    {
      Live(hw.regs) && Stalled(depths, hw)
    }

    /** The hardware runs on its own for any number of cycles; each of them executes an
        instruction until it waits for the driver, and then none does. */
    method Elapse()
      requires Valid()
      modifies this`hw, this`done, this`cycles
      ensures Valid() && cycles >= old(cycles) && Busy() <= old(Busy()) && (old(Waiting()) ==> Waiting())
      ensures Waiting() || Busy() + cycles - old(cycles) <= old(Busy())
    {
      hide HwInv, Sent, HwStep, DoneAfter, Stalled, Live, Pending;
      var n: nat := *;
      while n > 0
        invariant Valid() && cycles >= old(cycles) && Busy() <= old(Busy()) && (old(Waiting()) ==> Waiting())
        invariant Waiting() || Busy() + cycles - old(cycles) <= old(Busy())
      {
        CycleWorks(line, depths, hw, done, got);
        done := DoneAfter(line, hw, done);
        hw := HwStep(line, depths, hw);
        cycles := cycles + 1;
        n := n - 1;
      }
    }

    /** What was sent then means `w` as well, unless the FIFO is full. */
    method TryPush(w: u32) returns (ok: bool)
      requires Valid() && Accepts(origin, sent, w)
      modifies this
      ensures Valid() && got == old(got)
      ensures sent == if ok then Feed(origin, line, old(sent), w) else old(sent)
      ensures cycles >= old(cycles) && Busy() <= old(Busy()) + if ok then 2000 else 0
      ensures !ok ==> |hw.tx| >= depths.tx && (old(Waiting()) ==> Waiting())
                      && (Waiting() || Busy() + cycles - old(cycles) <= old(Busy()))
    {
      hide HwStep, Stalled, RunToPull, Feed, AcceptsAll;
      Elapse();
      ok := |hw.tx| < depths.tx;
      if ok {
        PushKeeps(line, depths, hw, done, got, w);
        hw := hw.(tx := hw.tx + [w]);
        sent := Feed(origin, line, sent, w);
      }
    }

    /** The word is the next the program pushed, unless it has pushed none yet. */
    method TryPull() returns (word: Option<u32>)
      requires Valid()
      modifies this
      ensures Valid() && sent == old(sent)
      ensures word.Some? ==> |old(got)| < |sent.rx| && word.value == sent.rx[|old(got)|]
      ensures got == if word.Some? then old(got) + [word.value] else old(got)
      ensures cycles >= old(cycles) && Busy() <= old(Busy())
      ensures word.None? ==> hw.rx == [] && (old(Waiting()) ==> Waiting())
                             && (Waiting() || Busy() + cycles - old(cycles) <= old(Busy()))
    {
      hide HwStep, Stalled, RunToPull, Feed, AcceptsAll;
      Elapse();
      if hw.rx == [] {
        return None;
      }
      PullKeeps(line, depths, hw, done, got);
      word := Some(hw.rx[0]);
      got := got + [hw.rx[0]];
      hw := hw.(rx := hw.rx[1..]);
    }
  }
}
