/** The SWD PIO program as an instruction-level machine, and the meaning of a
    stream of TX FIFO words for it.

    A `Line` gives the level of the SWDIO wire on clock `n` whenever the host has
    released it; quantifying over all lines covers every target behaviour. */
module Pio {
  import opened Words

  type Line = nat -> bool

  /** One SWCLK period as the wire shows it: SWDIO driven by the host or released,
      and the level at the rising edge. */
  datatype Cycle = Cycle(driven: bool, level: bool)

  function Driven(bits: seq<bool>): (cycles: seq<Cycle>)
    ensures |cycles| == |bits|
  {
    if bits == [] then [] else [Cycle(true, bits[0])] + Driven(bits[1..])
  }

  /** What the line shows on `count` clocks from clock `n` on. */
  function LineBits(line: Line, n: nat, count: nat): (bits: seq<bool>)
    ensures |bits| == count
    ensures forall i :: 0 <= i < count ==> bits[i] == line(n + i)
    decreases count
  {
    if count == 0 then [] else [line(n)] + LineBits(line, n + 1, count - 1)
  }

  function Released(line: Line, n: nat, count: nat): (cycles: seq<Cycle>)
    ensures |cycles| == count
    decreases count
  {
    if count == 0 then [] else [Cycle(false, line(n))] + Released(line, n + 1, count - 1)
  }

  /** `count` clocks that drive the low bits of `w`, or leave SWDIO released. */
  function Clocks(line: Line, n: nat, dir: bool, w: nat, count: nat): (cycles: seq<Cycle>)
    ensures |cycles| == count
  {
    if dir then Driven(BitsOf(w, count)) else Released(line, n, count)
  }

  lemma ClocksStep(line: Line, n: nat, dir: bool, w: nat, count: nat)
    requires count > 0
    ensures Clocks(line, n, dir, w, count)
         == [Cycle(dir, if dir then w % 2 == 1 else line(n))] + Clocks(line, n + 1, dir, w / 2, count - 1)
  {
    var bits := BitsOf(w, count);
    assert bits[0] == (w % 2 == 1) && bits[1..] == BitsOf(w / 2, count - 1);
  }

  lemma {:induction false} ReleasedSplit(line: Line, n: nat, a: nat, b: nat)
    ensures Released(line, n, a + b) == Released(line, n, a) + Released(line, n + a, b)
    decreases a
  {
    if a > 0 { ReleasedSplit(line, n + 1, a - 1, b); }
  }

  lemma {:induction false} DrivenConcat(a: seq<bool>, b: seq<bool>)
    ensures Driven(a + b) == Driven(a) + Driven(b)
  {
    if a == [] {
      assert a + b == b;
    } else {
      assert (a + b)[1..] == a[1..] + b;
      DrivenConcat(a[1..], b);
    }
  }

  // The program

  datatype Instr =
    | Pull
    | Push
    | OutPins
    | OutX
    | OutPindirs
    | OutPc
    | InPins
    | JmpXDec(target: nat)
    | Nop

  /** An instruction with its optional side-set value (SWCLK). */
  datatype Slot = Slot(op: Instr, side: Option<bool>)

  const WRITE_CMD: nat := 0
  const WRITE_BITLOOP: nat := 1
  const GET_NEXT_CMD: nat := 3
  const READ_BITLOOP: nat := 7
  const READ_CMD: nat := 8
  const PROGRAM_LEN: nat := 11

  /** The program, by offset from where it was loaded; the last instruction wraps
      to `get_next_cmd`. */
  function Program(at: nat): Slot
    requires at < PROGRAM_LEN
  {
    if at == 0 then Slot(Pull, None)                              // write_cmd, turnaround_cmd
    else if at == 1 then Slot(OutPins, Some(false))               // write_bitloop
    else if at == 2 then Slot(JmpXDec(WRITE_BITLOOP), Some(true))
    else if at == 3 then Slot(Pull, Some(false))                  // get_next_cmd
    else if at == 4 then Slot(OutX, None)
    else if at == 5 then Slot(OutPindirs, None)
    else if at == 6 then Slot(OutPc, None)
    else if at == 7 then Slot(Nop, None)                          // read_bitloop
    else if at == 8 then Slot(InPins, Some(true))                 // read_cmd
    else if at == 9 then Slot(JmpXDec(READ_BITLOOP), Some(false))
    else Slot(Push, None)
  }

  /** The state machine's registers, its two pins, and the wire so far. `origin`
      is where the program was loaded; `pc` is absolute. */
  datatype Regs = Regs(
    origin: nat, pc: nat, x: u32, osr: u32, isr: u32,
    clk: bool, pin: bool, dir: bool, wave: seq<Cycle>)
  {
    predicate InProgram() {
      origin + PROGRAM_LEN <= 32 && origin <= pc < origin + PROGRAM_LEN
    }

    function At(): Slot
      requires InProgram()
    {
      Program(pc - origin)
    }

    function Level(line: Line): bool {
      if dir then pin else line(|wave|)
    }

    /** Apply a side-set: a rising SWCLK edge completes one wire cycle. */
    function Side(line: Line, side: Option<bool>): Regs {
      match side
      case None => this
      case Some(level) =>
        if level && !clk then this.(clk := true, wave := wave + [Cycle(dir, Level(line))])
        else this.(clk := level)
    }

    function Next(): nat {
      if pc + 1 == origin + PROGRAM_LEN then origin + GET_NEXT_CMD else pc + 1
    }
  }

  /** One instruction that needs no FIFO. */
  function Exec(line: Line, r: Regs): Regs
    requires r.InProgram() && !r.At().op.Pull? && !r.At().op.Push?
  {
    var s := r.Side(line, r.At().side);
    match r.At().op
    case OutPins => s.(pin := s.osr % 2 == 1, osr := s.osr / 2, pc := s.Next())
    case OutX => s.(x := s.osr % 0x100, osr := s.osr / 0x100, pc := s.Next())
    case OutPindirs => s.(dir := s.osr % 2 == 1, osr := s.osr / 2, pc := s.Next())
    case OutPc => s.(pc := s.osr % 32, osr := s.osr / 32)
    case InPins => s.(isr := s.isr / 2 + Bit(r.Level(line)) * 0x8000_0000, pc := s.Next())
    case JmpXDec(target) =>
      if s.x != 0 then s.(x := s.x - 1, pc := s.origin + target)
      else s.(x := 0xFFFF_FFFF, pc := s.Next())
    case Nop => s.(pc := s.Next())
  }

  /** A `pull` that finds `w` in the TX FIFO. */
  function ExecPull(line: Line, r: Regs, w: u32): Regs
    requires r.InProgram() && r.At().op.Pull?
  {
    var s := r.Side(line, r.At().side);
    s.(osr := w, pc := s.Next())
  }

  /** A `push` that finds room in the RX FIFO: hands over and clears the ISR. */
  function ExecPush(r: Regs): (Regs, u32)
    requires r.InProgram() && r.At().op.Push?
  {
    (r.(isr := 0, pc := r.Next()), r.isr)
  }

  // Command words

  /** `CmdAddrs::cmd`: `bits` clocks, SWDIO output enable, routine address. */
  function Cmd(bits: nat, outEn: bool, addr: nat): u32
    requires 1 <= bits <= 256 && addr < 32
  {
    (bits - 1) % 0x100 + Bit(outEn) * 0x100 + addr * 0x200
  }

  function CmdBits(w: u32): nat { w % 0x100 + 1 }
  function CmdDir(w: u32): bool { w / 0x100 % 2 == 1 }
  function CmdAddr(w: u32): nat { w / 0x100 / 2 % 32 }

  /** The command words the driver sends: write, skip, or read with SWDIO released. */
  predicate IsCommand(origin: nat, w: u32) {
    || CmdAddr(w) == origin + WRITE_CMD
    || CmdAddr(w) == origin + GET_NEXT_CMD
    || (CmdAddr(w) == origin + READ_CMD && !CmdDir(w))
  }

  // Meaning of a word stream

  datatype Mode = Idle | Data(bits: nat, dir: bool)

  /** What a word stream has produced: the wire cycles and the RX words. */
  datatype Sem = Sem(mode: Mode, wave: seq<Cycle>, rx: seq<u32>)

  /** The RX word of a read: the last 32 sampled bits, right-shifted in. */
  function RxWord(bits: seq<bool>): u32 {
    var window := (Zeros(32) + bits)[|bits|..];
    WordOfBound(window);
    Pow2Word();
    WordOf(window)
  }

  predicate Accepts(origin: nat, s: Sem, w: u32) {
    match s.mode
    case Idle => IsCommand(origin, w)
    case Data(bits, _) => 1 <= bits <= 256
  }

  function Feed(origin: nat, line: Line, s: Sem, w: u32): Sem {
    match s.mode
    case Data(bits, dir) =>
      Sem(Idle, s.wave + Clocks(line, |s.wave|, dir, w, bits), s.rx)
    case Idle =>
      if CmdAddr(w) == origin + WRITE_CMD then s.(mode := Data(CmdBits(w), CmdDir(w)))
      else if CmdAddr(w) == origin + READ_CMD then
        Sem(Idle,
            s.wave + Released(line, |s.wave|, CmdBits(w)),
            s.rx + [RxWord(LineBits(line, |s.wave|, CmdBits(w)))])
      else s
  }

  predicate AcceptsAll(origin: nat, line: Line, s: Sem, ws: seq<u32>)
    decreases |ws|
  {
    ws == [] || (Accepts(origin, s, ws[0]) && AcceptsAll(origin, line, Feed(origin, line, s, ws[0]), ws[1..]))
  }

  function FeedAll(origin: nat, line: Line, s: Sem, ws: seq<u32>): Sem
    decreases |ws|
  {
    if ws == [] then s else FeedAll(origin, line, Feed(origin, line, s, ws[0]), ws[1..])
  }

  lemma {:induction false} FeedAllConcat(origin: nat, line: Line, s: Sem, a: seq<u32>, b: seq<u32>)
    ensures FeedAll(origin, line, s, a + b) == FeedAll(origin, line, FeedAll(origin, line, s, a), b)
    ensures AcceptsAll(origin, line, s, a + b)
       <==> AcceptsAll(origin, line, s, a) && AcceptsAll(origin, line, FeedAll(origin, line, s, a), b)
    decreases |a|
  {
    if a == [] {
      assert a + b == b;
    } else {
      assert (a + b)[1..] == a[1..] + b;
      FeedAllConcat(origin, line, Feed(origin, line, s, a[0]), a[1..], b);
    }
  }

  /** Words only ever add to the wire and to the RX words. */
  lemma {:induction false} FeedGrows(origin: nat, line: Line, s: Sem, ws: seq<u32>)
    ensures s.wave <= FeedAll(origin, line, s, ws).wave && s.rx <= FeedAll(origin, line, s, ws).rx
    decreases |ws|
  {
    if ws != [] { FeedGrows(origin, line, Feed(origin, line, s, ws[0]), ws[1..]); }
  }

  // From instructions to words

  /** States the program can be in once only command words and data were pulled. */
  predicate Live(r: Regs) {
    && r.InProgram()
    && var at := r.pc - r.origin;
    && (at == 4 ==> IsCommand(r.origin, r.osr))
    && (at == 5 ==> r.x < 0x100 && (r.osr / 2 % 32 == r.origin || r.osr / 2 % 32 == r.origin + GET_NEXT_CMD
                                    || (r.osr / 2 % 32 == r.origin + READ_CMD && r.osr % 2 == 0)))
    && (at == 6 ==> r.x < 0x100 && (r.osr % 32 == r.origin || r.osr % 32 == r.origin + GET_NEXT_CMD
                                    || (r.osr % 32 == r.origin + READ_CMD && !r.dir)))
    && (at >= 7 ==> !r.dir)
    && (at in {0, 2, 4, 5, 6, 7, 8} ==> !r.clk)
    && (at <= 6 ==> r.isr == 0)
  }

  /** Instructions left before the program next waits on the TX FIFO. */
  function Work(r: Regs): nat
    requires Live(r)
  {
    var at := r.pc - r.origin;
    if at == 0 || at == 3 then 0
    else if at == 1 then 4 * r.x + 3
    else if at == 2 then 4 * r.x + 2
    else if at == 4 then 1060
    else if at == 5 then 1059
    else if at == 6 then 1058
    else if at == 7 then 4 * r.x + 5
    else if at == 8 then 4 * r.x + 4
    else if at == 9 then 4 * r.x + 3
    else 1
  }

  lemma ExecLive(line: Line, r: Regs)
    requires Live(r) && !r.At().op.Pull? && !r.At().op.Push?
    ensures Live(Exec(line, r)) && Exec(line, r).origin == r.origin
    ensures Work(Exec(line, r)) < Work(r)
  {
  }

  /** Run until the program waits on the TX FIFO, never stalling on the RX FIFO. */
  function RunToPull(line: Line, r: Regs): (Regs, seq<u32>)
    requires Live(r)
    decreases Work(r)
  {
    if r.At().op.Pull? then (r, [])
    else if r.At().op.Push? then
      var (next, w) := ExecPush(r);
      var (end, out) := RunToPull(line, next);
      (end, [w] + out)
    else
      ExecLive(line, r);
      RunToPull(line, Exec(line, r))
  }

  /** The program waits on the TX FIFO and its wire and mode are those of `s`. */
  predicate Waits(r: Regs, s: Sem) {
    && Live(r) && r.At().op.Pull? && r.wave == s.wave
    && match s.mode
       case Idle => r.pc == r.origin + GET_NEXT_CMD
       case Data(bits, dir) => r.pc == r.origin + WRITE_CMD && r.x == bits - 1 && r.dir == dir
  }

  lemma RunStep(line: Line, r: Regs)
    requires Live(r) && !r.At().op.Pull? && !r.At().op.Push?
    ensures Live(Exec(line, r)) && RunToPull(line, r) == RunToPull(line, Exec(line, r))
  {
    ExecLive(line, r);
  }

  lemma RunStopped(line: Line, r: Regs)
    requires Live(r) && r.At().op.Pull?
    ensures RunToPull(line, r) == (r, [])
  {
  }

  /** One pass of the write loop: SWDIO set while SWCLK is low, then the rising edge. */
  lemma WriteBit(line: Line, r: Regs) returns (q: Regs)
    requires Live(r) && r.pc == r.origin + WRITE_BITLOOP
    ensures Live(q) && q.origin == r.origin && q.dir == r.dir && q.osr == r.osr / 2
    ensures q.wave == r.wave + [Cycle(r.dir, if r.dir then r.osr % 2 == 1 else line(|r.wave|))]
    ensures if r.x == 0 then q.pc == r.origin + GET_NEXT_CMD else q.pc == r.pc && q.x == r.x - 1
    ensures RunToPull(line, r) == RunToPull(line, q)
  {
    var r1 := Exec(line, r);
    RunStep(line, r);
    RunStep(line, r1);
    q := Exec(line, r1);
  }

  lemma {:induction false} WriteLoop(line: Line, r: Regs)
    requires Live(r) && r.pc == r.origin + WRITE_BITLOOP
    ensures var (end, out) := RunToPull(line, r);
            && out == [] && Live(end) && end.origin == r.origin && end.pc == r.origin + GET_NEXT_CMD
            && end.wave == r.wave + Clocks(line, |r.wave|, r.dir, r.osr, r.x + 1)
    decreases r.x
  {
    hide RunToPull, Exec, Clocks, Driven, Released, BitsOf, Work;
    var q := WriteBit(line, r);
    ClocksStep(line, |r.wave|, r.dir, r.osr, r.x + 1);
    if r.x == 0 {
      RunStopped(line, q);
    } else {
      WriteLoop(line, q);
      var c := Cycle(r.dir, if r.dir then r.osr % 2 == 1 else line(|r.wave|));
      Regroup(r.wave, [c], Clocks(line, |q.wave|, r.dir, r.osr / 2, r.x));
    }
  }

  /** Shifting a bit into the ISR drops the oldest bit of its 32-bit window. */
  lemma ShiftIn(window: seq<bool>, b: bool)
    requires |window| == 32
    ensures WordOf(window) / 2 + Bit(b) * 0x8000_0000 == WordOf(window[1..] + [b])
  {
    WordOfSnoc(window[1..], b);
    Pow2Word();
  }

  /** One pass of the read loop from its rising edge: SWDIO sampled into the ISR. */
  lemma ReadBit(line: Line, r: Regs, window: seq<bool>) returns (q: Regs)
    requires Live(r) && r.pc == r.origin + READ_CMD
    requires |window| == 32 && r.isr == WordOf(window)
    ensures Live(q) && q.origin == r.origin && !q.dir
    ensures q.isr == WordOf(window[1..] + [line(|r.wave|)])
    ensures q.wave == r.wave + [Cycle(false, line(|r.wave|))]
    ensures if r.x == 0 then q.pc == r.origin + 10 else q.pc == r.pc && q.x == r.x - 1
    ensures RunToPull(line, r) == RunToPull(line, q)
  {
    ShiftIn(window, line(|r.wave|));
    RunStep(line, r);
    var r1 := Exec(line, r);
    RunStep(line, r1);
    q := Exec(line, r1);
    if r.x != 0 {
      RunStep(line, q);
      q := Exec(line, q);
    }
  }

  /** The 32-bit window after `count` more samples from clock `n` on. */
  function Slide(line: Line, n: nat, count: nat, window: seq<bool>): (w: seq<bool>)
    requires |window| == 32
    ensures |w| == 32
  {
    (window + LineBits(line, n, count))[count..]
  }

  lemma SlideStep(line: Line, n: nat, count: nat, window: seq<bool>)
    requires |window| == 32 && count > 0
    ensures Slide(line, n, count, window) == Slide(line, n + 1, count - 1, window[1..] + [line(n)])
    ensures count == 1 ==> Slide(line, n, count, window) == window[1..] + [line(n)]
  {
    var tail := LineBits(line, n + 1, count - 1);
    assert LineBits(line, n, count) == [line(n)] + tail;
    assert window + ([line(n)] + tail) == [window[0]] + (window[1..] + [line(n)] + tail);
  }

  lemma {:induction false} ReadLoop(line: Line, r: Regs, window: seq<bool>)
    requires Live(r) && r.pc == r.origin + READ_CMD
    requires |window| == 32 && r.isr == WordOf(window)
    ensures var (end, out) := RunToPull(line, r);
            && out == [WordOf(Slide(line, |r.wave|, r.x + 1, window))]
            && Live(end) && end.origin == r.origin && end.pc == r.origin + GET_NEXT_CMD
            && end.wave == r.wave + Released(line, |r.wave|, r.x + 1)
    decreases r.x
  {
    hide RunToPull, Exec, Slide, WordOf, Work;
    var q := ReadBit(line, r, window);
    SlideStep(line, |r.wave|, r.x + 1, window);
    if r.x == 0 {
      PushedWord(line, q);
      assert Released(line, |r.wave|, 1) == [Cycle(false, line(|r.wave|))];
    } else {
      ReadLoop(line, q, window[1..] + [line(|r.wave|)]);
      Regroup(r.wave, [Cycle(false, line(|r.wave|))], Released(line, |q.wave|, r.x));
    }
  }

  lemma PushedWord(line: Line, r: Regs)
    requires Live(r) && r.pc == r.origin + 10
    ensures var (end, out) := RunToPull(line, r);
            && out == [r.isr] && Live(end) && end.origin == r.origin && end.pc == r.origin + GET_NEXT_CMD
            && end.wave == r.wave
  {
    var (next, w) := ExecPush(r);
    assert RunToPull(line, next) == (next, []);
  }

  /** Fetching a command: count, direction, then the jump to its routine. */
  lemma Dispatch(line: Line, r: Regs, w: u32) returns (q: Regs)
    requires Live(r) && r.pc == r.origin + GET_NEXT_CMD && IsCommand(r.origin, w)
    ensures Live(ExecPull(line, r, w)) && Live(q)
    ensures RunToPull(line, ExecPull(line, r, w)) == RunToPull(line, q)
    ensures q.origin == r.origin && q.pc == CmdAddr(w) && q.x == CmdBits(w) - 1 && q.dir == CmdDir(w)
    ensures q.isr == 0 && q.wave == r.wave
  {
    var p := ExecPull(line, r, w);
    assert p.pc == p.origin + 4 && Live(p);
    RunStep(line, p);
    var p1 := Exec(line, p);
    RunStep(line, p1);
    var p2 := Exec(line, p1);
    RunStep(line, p2);
    q := Exec(line, p2);
  }

  /** The program run on one more word ends waiting, having done what the word means. */
  predicate Executes(line: Line, r: Regs, s: Sem, w: u32)
    requires Waits(r, s) && Accepts(r.origin, s, w)
  {
    var p := ExecPull(line, r, w);
    && Live(p)
    && var (end, out) := RunToPull(line, p);
       && Waits(end, Feed(r.origin, line, s, w)) && end.origin == r.origin
       && Feed(r.origin, line, s, w).rx == s.rx + out
  }

  lemma DataExecutes(line: Line, r: Regs, s: Sem, w: u32)
    requires Waits(r, s) && Accepts(r.origin, s, w) && s.mode.Data?
    ensures Executes(line, r, s, w)
  {
    WriteLoop(line, ExecPull(line, r, w));
  }

  lemma CommandExecutes(line: Line, r: Regs, s: Sem, w: u32)
    requires Waits(r, s) && Accepts(r.origin, s, w) && s.mode.Idle?
    ensures Executes(line, r, s, w)
  {
    var q := Dispatch(line, r, w);
    if CmdAddr(w) == r.origin + READ_CMD {
      WordOfZeros(32);
      ReadLoop(line, q, Zeros(32));
    } else {
      RunStopped(line, q);
    }
  }

  /** Instruction-level execution of the program refines the meaning of words. */
  lemma FeedCorrect(line: Line, r: Regs, s: Sem, w: u32)
    requires Waits(r, s) && Accepts(r.origin, s, w)
    ensures Executes(line, r, s, w)
  {
    if s.mode.Data? { DataExecutes(line, r, s, w); } else { CommandExecutes(line, r, s, w); }
  }
}
