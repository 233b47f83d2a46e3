/** One SWD transfer as the protocol defines it on the wire, and the FIFO plans the
    driver compiles it to. */
module Wire {
  import opened Words
  import opened Pio
  import opened Fifo
  import opened Swd

  // The protocol

  /** The eight fields of a request, in the order they are sent. */
  function PacketBits(rv: u8): seq<bool> {
    var fields := [IsAp(rv), IsRead(rv), HasA2(rv), HasA3(rv)];
    [true] + fields + [OddOnes(fields), false, true]
  }

  datatype Outcome = Outcome(cycles: seq<Cycle>, transfer: Transfer)

  /** The ACK the target drives after request packet and turnaround. */
  function TargetAck(line: Line, n: nat, p: Params): nat {
    WordOf(LineBits(line, n + 8 + p.turnaround, 3))
  }

  function RequestCycles(line: Line, n: nat, rv: u8, p: Params): (cycles: seq<Cycle>)
    ensures |cycles| == 8 + p.turnaround + 3
  {
    Driven(PacketBits(rv)) + Released(line, n + 8, p.turnaround + 3)
  }

  /** The data phase from clock `m`, after an ACK of `ack`. */
  function DataCycles(line: Line, m: nat, ack: nat, c: Call): seq<Cycle> {
    var trn, idle := c.params.turnaround, Driven(Zeros(c.params.idleCycles));
    if ack == OK then
      if IsRead(c.request) then Released(line, m, 33 + trn) + idle
      else
        var bits := BitsOf(c.data, 32);
        Released(line, m, trn) + Driven(bits + [OddOnes(bits)]) + idle
    else if ack == WAIT || ack == FAULT then
      if c.params.dataPhase && IsRead(c.request) then Released(line, m, 33 + trn)
      else Released(line, m, trn) + if c.params.dataPhase then Driven(Zeros(33)) else []
    else Released(line, m, trn + 33)
  }

  /** What the host learns: on an OK read the data, checked against its parity bit. */
  function HostView(line: Line, m: nat, ack: nat, c: Call): Transfer
    requires ack < 8
  {
    if ack == OK && IsRead(c.request) then
      WordOfBound(LineBits(line, m, 32));
      Pow2Word();
      Transfer(if OddOnes(LineBits(line, m, 33)) then ERROR else OK, WordOf(LineBits(line, m, 32)))
    else Transfer(ack, 0)
  }

  /** The reference transfer starting at clock `n`. */
  function RefTransfer(line: Line, n: nat, c: Call): Outcome {
    var ack := TargetAck(line, n, c.params);
    AckBound(line, n, c.params);
    var m := n + 8 + c.params.turnaround + 3;
    Outcome(RequestCycles(line, n, c.request, c.params) + DataCycles(line, m, ack, c), HostView(line, m, ack, c))
  }

  lemma AckBound(line: Line, n: nat, p: Params)
    ensures TargetAck(line, n, p) < 8
  {
    WordOfBound(LineBits(line, n + 8 + p.turnaround, 3));
    assert Pow2(3) == 8;
  }

  /** The wire `base` followed by a history of transfers. */
  function WaveOf(line: Line, base: seq<Cycle>, calls: seq<Call>): seq<Cycle> {
    if calls == [] then base
    else
      var before := WaveOf(line, base, calls[..|calls| - 1]);
      before + RefTransfer(line, |before|, calls[|calls| - 1]).cycles
  }

  /** What the wire answers to the last attempt of a history. */
  function LineReply(line: Line, base: seq<Cycle>, calls: seq<Call>): Transfer {
    if calls == [] then Transfer(0, 0)
    else RefTransfer(line, |WaveOf(line, base, calls[..|calls| - 1])|, calls[|calls| - 1]).transfer
  }

  /** The environment that a line makes from wire `base` on. */
  function LineEnv(line: Line, base: seq<Cycle>): Env {
    Env(calls => LineReply(line, base, calls), _ => 0)
  }

  /** The line shows these three bits, first to last, where the attempt after `before` has
      its ACK. */
  predicate AckShown(line: Line, base: seq<Cycle>, before: seq<Call>, p: Params, b0: bool, b1: bool, b2: bool) {
    var at := |WaveOf(line, base, before)| + 8 + p.turnaround;
    line(at) == b0 && line(at + 1) == b1 && line(at + 2) == b2
  }

  /** The ACKs bit by bit: OK is 1, 0, 0 on the wire, WAIT is 0, 1, 0 and FAULT 0, 0, 1. */
  lemma AckBits(line: Line, n: nat, p: Params)
    ensures var at := n + 8 + p.turnaround;
            var b0, b1, b2 := line(at), line(at + 1), line(at + 2);
            && TargetAck(line, n, p) == Bit(b0) + 2 * Bit(b1) + 4 * Bit(b2)
            && (TargetAck(line, n, p) == OK <==> b0 && !b1 && !b2)
            && (TargetAck(line, n, p) == WAIT <==> !b0 && b1 && !b2)
            && (TargetAck(line, n, p) == FAULT <==> !b0 && !b1 && b2)
  {
    var at := n + 8 + p.turnaround;
    WordOfThree(line(at), line(at + 1), line(at + 2));
    assert LineBits(line, at, 3) == [line(at), line(at + 1), line(at + 2)];
  }

  /** The answer to an attempt is the number its three ACK bits make, least significant
      first; or 8 for a read acknowledged 1, 0, 0 whose 33 data and parity bits hold an odd
      number of ones. */
  lemma AnswerBits(line: Line, base: seq<Cycle>, before: seq<Call>, c: Call)
    ensures var n := |WaveOf(line, base, before)|;
            var at := n + 8 + c.params.turnaround;
            var b0, b1, b2 := line(at), line(at + 1), line(at + 2);
            LineReply(line, base, before + [c]).ack
            == if b0 && !b1 && !b2 && IsRead(c.request) && OddOnes(LineBits(line, at + 3, 33)) then 8
               else Bit(b0) + 2 * Bit(b1) + 4 * Bit(b2)
  {
    hide LineBits, OddOnes, WordOf, RequestCycles, DataCycles, TargetAck;
    AckBits(line, |WaveOf(line, base, before)|, c.params);
    assert (before + [c])[..|before|] == before;
  }

  /** Another attempt follows only if the line showed 0, 1, 0, and then always while the
      budget lasts. */
  lemma {:induction false} RetriesOnWait(
    line: Line, base: seq<Cycle>, calls: seq<Call>, rv: u8, data: u32, p: Params, retries: nat)
    ensures var (after, _) := SeqRetry(LineEnv(line, base), calls, rv, data, p, retries);
            && |calls| < |after| <= |calls| + 1 + retries
            && (forall i :: |calls| <= i < |after| - 1 ==> AckShown(line, base, after[..i], p, false, true, false))
            && (|after| <= |calls| + retries ==> !AckShown(line, base, after[..|after| - 1], p, false, true, false))
    decreases retries
  {
    hide LineReply, WaveOf, AckShown;
    var c := Call(rv % 16, data, p);
    var calls' := calls + [c];
    WaitShown(line, base, calls, c);
    assert calls'[..|calls|] == calls;
    if LineReply(line, base, calls').ack == WAIT && retries > 0 {
      RetriesOnWait(line, base, calls', rv, data, p, retries - 1);
      RetryAttempts(LineEnv(line, base), calls', rv, data, p, retries - 1);
      var (after, _) := SeqRetry(LineEnv(line, base), calls', rv, data, p, retries - 1);
      assert after[..|calls|] == calls;
    }
  }

  lemma WaitShown(line: Line, base: seq<Cycle>, before: seq<Call>, c: Call)
    ensures LineReply(line, base, before + [c]).ack == WAIT
       <==> AckShown(line, base, before, c.params, false, true, false)
  {
    hide LineReply, WaveOf, LineBits, OddOnes;
    AnswerBits(line, base, before, c);
  }

  /** The packets the driver itself decides on: the read of RDBUFF, at DP address 0xC, that
      collects a posted read, and the write of ABORT, at DP address 0. */
  lemma OwnPackets()
    ensures PacketBits(RDBUFF_READ) == [true, false, true, true, true, true, false, true]
    ensures PacketBits(ABORT_WRITE) == [true, false, false, false, false, false, false, true]
  {
    assert OddOnes([false, true, true, true]) by {
      assert [false, true, true, true][1..] == [true, true, true] && [true, true, true][1..] == [true, true];
      assert [true, true][1..] == [true] && [true][1..] == [];
    }
    assert !OddOnes([false, false, false, false]) by {
      OddOnesZeros(4);
      assert [false, false, false, false] == Zeros(4);
    }
  }

  /** A read is an ERROR exactly when an odd number of its 33 data and parity bits was
      flipped on the way. */
  lemma FlippedBits(line: Line, m: nat, c: Call, data: seq<bool>, sent: seq<bool>, flips: seq<bool>)
    requires IsRead(c.request) && |data| == 32 && |flips| == 33
    requires sent == data + [OddOnes(data)]
    requires forall i :: 0 <= i < 33 ==> line(m + i) == (sent[i] != flips[i])
    ensures HostView(line, m, OK, c).ack == if OddOnes(flips) then ERROR else OK
    ensures flips == Zeros(33) ==> HostView(line, m, OK, c).ack == OK && HostView(line, m, OK, c).data == WordOf(data)
  {
    hide LineBits, OddOnes, WordOf;
    OddOnesOne(OddOnes(data));
    OddOnesConcat(data, [OddOnes(data)]);
    OddOnesFlipped(sent, flips, LineBits(line, m, 33));
    if flips == Zeros(33) {
      OddOnesZeros(33);
      forall i | 0 <= i < 32 ensures LineBits(line, m, 32)[i] == data[i] {
        assert sent[i] == data[i] && !flips[i];
      }
      assert LineBits(line, m, 32) == data;
    }
  }

  lemma OddOnesOne(b: bool)
    ensures OddOnes([b]) == b
  {
    assert [b][1..] == [];
  }

  lemma {:induction false} OddOnesFlipped(a: seq<bool>, flips: seq<bool>, b: seq<bool>)
    requires |a| == |flips| == |b|
    requires forall i :: 0 <= i < |a| ==> b[i] == (a[i] != flips[i])
    ensures OddOnes(b) == (OddOnes(a) != OddOnes(flips))
  {
    if a != [] { OddOnesFlipped(a[1..], flips[1..], b[1..]); }
  }

  lemma {:induction false} OddOnesZeros(n: nat)
    ensures !OddOnes(Zeros(n))
  {
    if n > 0 {
      assert Zeros(n)[1..] == Zeros(n - 1);
      OddOnesZeros(n - 1);
    }
  }

  // The plans

  function WriteOps(o: nat, bits: nat, dir: bool, w: u32): seq<Op>
    requires 1 <= bits <= 256 && o + PROGRAM_LEN <= 32
  {
    [PushOp(Cmd(bits, dir, o + WRITE_CMD)), PushOp(w)]
  }

  function ReadOps(o: nat, bits: nat): seq<Op>
    requires 1 <= bits <= 256 && o + PROGRAM_LEN <= 32
  {
    [PushOp(Cmd(bits, false, o + READ_CMD))]
  }

  function IdleOps(o: nat, p: Params): seq<Op>
    requires o + PROGRAM_LEN <= 32
  {
    if p.idleCycles > 0 then WriteOps(o, p.idleCycles, true, 0) else []
  }

  /** `plan_request`. */
  function RequestOps(o: nat, request: u8, trn: nat): seq<Op>
    requires 1 <= trn <= 4 && o + PROGRAM_LEN <= 32
  {
    WriteOps(o, 8, true, Packet(request)) + (ReadOps(o, trn + 3) + [PullOp])
  }

  /** `plan_data`. */
  function DataOps(o: nat, ack: nat, c: Call): seq<Op>
    requires ValidParams(c.params) && o + PROGRAM_LEN <= 32
  {
    var trn := c.params.turnaround;
    var hiz := WriteOps(o, trn, false, 0);
    if ack == OK then
      if IsRead(c.request) then
        ReadOps(o, 32) + (ReadOps(o, 1) + (hiz + (IdleOps(o, c.params) + [PullOp, PullOp])))
      else
        hiz + (WriteOps(o, 32, true, c.data) + (WriteOps(o, 1, true, CountOnes(c.data) % 2) + IdleOps(o, c.params)))
    else if ack == WAIT || ack == FAULT then
      if c.params.dataPhase && IsRead(c.request) then ReadOps(o, 33) + ([PullOp] + hiz)
      else if c.params.dataPhase then hiz + (WriteOps(o, 32, true, 0) + WriteOps(o, 1, true, 0))
      else hiz
    else ReadOps(o, trn + 33) + [PullOp]
  }

  // What the driver makes of the words it pulled

  /** The ACK in the RX word, shifted down in two steps. */
  function AckOf(w: u32, trn: nat): nat
    requires 1 <= trn <= 4
  {
    w / Pow2(32 - (trn + 3)) / Pow2(trn) % 8
  }

  /** The result of an OK read from its data and parity words. */
  function ReadResult(data: u32, parity: u32): Transfer {
    Transfer(if CountOnes(data) % 2 != parity / 0x8000_0000 then ERROR else OK, data)
  }

  // Compilation is correct: operation by operation

  function Wrote(line: Line, s: Sem, bits: nat, dir: bool, w: u32): Sem {
    Sem(Idle, s.wave + Clocks(line, |s.wave|, dir, w, bits), s.rx)
  }

  function Sampled(line: Line, s: Sem, bits: nat): Sem {
    Sem(Idle, s.wave + Released(line, |s.wave|, bits), s.rx + [RxWord(LineBits(line, |s.wave|, bits))])
  }

  lemma CmdFields(bits: nat, dir: bool, addr: nat)
    requires 1 <= bits <= 256 && addr < 32
    ensures var w := Cmd(bits, dir, addr); CmdBits(w) == bits && CmdDir(w) == dir && CmdAddr(w) == addr
  {
  }

  lemma WriteSegment(o: nat, line: Line, s: Sem, owed: int, bits: nat, dir: bool, w: u32, rest: seq<Op>)
    requires 1 <= bits <= 256 && o + PROGRAM_LEN <= 32 && s.mode.Idle? && 0 <= owed <= 2
    ensures var ops := WriteOps(o, bits, dir, w) + rest;
            var t := Wrote(line, s, bits, dir, w);
            && RunOps(o, line, s, ops) == RunOps(o, line, t, rest)
            && Balanced(o, line, s, owed, ops) == Balanced(o, line, t, owed, rest)
  {
    CmdFields(bits, dir, o + WRITE_CMD);
    var ops := WriteOps(o, bits, dir, w) + rest;
    var cmd := Cmd(bits, dir, o + WRITE_CMD);
    assert ops[0] == PushOp(cmd) && ops[1..] == [PushOp(w)] + rest;
    assert ops[1..][0] == PushOp(w) && ops[1..][1..] == rest;
    assert Feed(o, line, s, cmd) == s.(mode := Data(bits, dir));
    assert Feed(o, line, Feed(o, line, s, cmd), w) == Wrote(line, s, bits, dir, w);
  }

  lemma FeedRead(o: nat, line: Line, s: Sem, bits: nat)
    requires 1 <= bits <= 256 && o + PROGRAM_LEN <= 32 && s.mode.Idle?
    ensures var cmd := Cmd(bits, false, o + READ_CMD);
            Accepts(o, s, cmd) && Feed(o, line, s, cmd) == Sampled(line, s, bits)
  {
    hide LineBits, RxWord, Released;
    CmdFields(bits, false, o + READ_CMD);
  }

  lemma ReadSegment(o: nat, line: Line, s: Sem, owed: int, bits: nat, rest: seq<Op>)
    requires 1 <= bits <= 256 && o + PROGRAM_LEN <= 32 && s.mode.Idle? && 0 <= owed <= 1
    ensures var ops := ReadOps(o, bits) + rest;
            var t := Sampled(line, s, bits);
            && RunOps(o, line, s, ops) == RunOps(o, line, t, rest)
            && Balanced(o, line, s, owed, ops) == Balanced(o, line, t, owed + 1, rest)
  {
    hide LineBits, RxWord, Released, Feed, Accepts, Cmd;
    FeedRead(o, line, s, bits);
    var ops := ReadOps(o, bits) + rest;
    assert ops[0] == PushOp(Cmd(bits, false, o + READ_CMD)) && ops[1..] == rest;
  }

  lemma PullSegment(o: nat, line: Line, s: Sem, owed: int, rest: seq<Op>)
    requires 1 <= owed <= 2
    ensures var ops := [PullOp] + rest;
            && RunOps(o, line, s, ops) == RunOps(o, line, s, rest)
            && Balanced(o, line, s, owed, ops) == Balanced(o, line, s, owed - 1, rest)
  {
    assert ([PullOp] + rest)[1..] == rest;
  }

  /** The RX word of up to 32 samples holds them in its top bits. */
  lemma RxWordBits(bits: seq<bool>)
    requires |bits| <= 32
    ensures RxWord(bits) / Pow2(32 - |bits|) == WordOf(bits)
  {
    var window := (Zeros(32) + bits)[|bits|..];
    ShiftRight(window, 32 - |bits|);
    assert window[32 - |bits|..] == bits;
  }

  lemma RxWordFull(bits: seq<bool>)
    requires |bits| == 32
    ensures RxWord(bits) == WordOf(bits)
  {
    assert (Zeros(32) + bits)[32..] == bits;
  }

  /** The ACK bits come out of the turnaround-and-ACK word. */
  lemma AckExtracted(line: Line, n: nat, trn: nat)
    requires 1 <= trn <= 4
    ensures AckOf(RxWord(LineBits(line, n, trn + 3)), trn) == WordOf(LineBits(line, n + trn, 3)) < 8
  {
    hide RxWord, LineBits, WordOf;
    var bits := LineBits(line, n, trn + 3);
    RxWordBits(bits);
    ShiftRight(bits, trn);
    assert bits[trn..] == LineBits(line, n + trn, 3);
    WordOfBound(LineBits(line, n + trn, 3));
    assert Pow2(3) == 8;
  }

  /** The wire form of the request packet is the packet byte, bit by bit. */
  lemma PacketOnWire(rv: u8)
    ensures BitsOf(Packet(rv), 8) == PacketBits(rv)
  {
    hide BitsOf, OddOnes, CountOnes, WordOf;
    var fields := [IsAp(rv), IsRead(rv), HasA2(rv), HasA3(rv)];
    var tail := [OddOnes(fields), false, true];
    assert PacketBits(rv) == [true] + (fields + tail);
    WordOfCons(true, fields + tail);
    WordOfConcat(fields, tail);
    assert Pow2(4) == 16;
    WordOfThree(OddOnes(fields), false, true);
    WordOfFour(IsAp(rv), IsRead(rv), HasA2(rv), HasA3(rv));
    NibbleFields(rv);
    CountOnesParity(fields);
    BitsOfWordOf(PacketBits(rv));
  }

  lemma NibbleFields(rv: u8)
    ensures Bit(IsAp(rv)) + 2 * Bit(IsRead(rv)) + 4 * Bit(HasA2(rv)) + 8 * Bit(HasA3(rv)) == rv % 16
  {
    assert rv / 4 == rv / 2 / 2 && rv / 8 == rv / 4 / 2 && rv / 16 == rv / 8 / 2;
    assert rv == rv % 2 + 2 * (rv / 2) && rv / 2 == rv / 2 % 2 + 2 * (rv / 4);
    assert rv / 4 == rv / 4 % 2 + 2 * (rv / 8) && rv / 8 == rv / 8 % 2 + 2 * (rv / 16);
  }

  lemma WordOfCons(b: bool, bits: seq<bool>)
    ensures WordOf([b] + bits) == Bit(b) + 2 * WordOf(bits)
  {
    assert ([b] + bits)[1..] == bits;
  }

  lemma WordOfThree(a: bool, b: bool, c: bool)
    ensures WordOf([a, b, c]) == Bit(a) + 2 * Bit(b) + 4 * Bit(c)
  {
    assert [a, b, c][1..] == [b, c] && [b, c][1..] == [c] && [c][1..] == [];
    assert WordOf([c]) == Bit(c);
    assert WordOf([b, c]) == Bit(b) + 2 * Bit(c);
  }

  lemma WordOfFour(a: bool, b: bool, c: bool, d: bool)
    ensures WordOf([a, b, c, d]) == Bit(a) + 2 * Bit(b) + 4 * Bit(c) + 8 * Bit(d)
  {
    assert [a, b, c, d][1..] == [b, c, d];
    WordOfThree(b, c, d);
  }

  /** A plan does what the protocol says from here, and leaves the driver even. */
  predicate Compiles(o: nat, line: Line, s: Sem, ops: seq<Op>, cycles: seq<Cycle>, words: seq<u32>) {
    && Balanced(o, line, s, 0, ops)
    && RunOps(o, line, s, ops) == Sem(Idle, s.wave + cycles, s.rx + words)
  }

  lemma NothingLeft(o: nat, line: Line, s: Sem)
    requires s.mode.Idle?
    ensures RunOps(o, line, s, []) == s && Balanced(o, line, s, 0, [])
  {
  }

  lemma RequestCompiles(o: nat, line: Line, s: Sem, rv: u8, p: Params)
    requires ValidParams(p) && o + PROGRAM_LEN <= 32 && s.mode.Idle?
    ensures var word := RxWord(LineBits(line, |s.wave| + 8, p.turnaround + 3));
            && Compiles(o, line, s, RequestOps(o, rv, p.turnaround), RequestCycles(line, |s.wave|, rv, p), [word])
            && AckOf(word, p.turnaround) == TargetAck(line, |s.wave|, p)
  {
    hide RunOps, Balanced, Driven, Released, LineBits, RxWord, WriteOps, ReadOps, BitsOf, Pow2;
    var n, trn := |s.wave|, p.turnaround;
    PacketOnWire(rv);
    var s1 := Wrote(line, s, 8, true, Packet(rv));
    var s2 := Sampled(line, s1, trn + 3);
    WriteSegment(o, line, s, 0, 8, true, Packet(rv), ReadOps(o, trn + 3) + [PullOp]);
    ReadSegment(o, line, s1, 0, trn + 3, [PullOp]);
    LastPull(o, line, s2);
    Regroup(s.wave, Driven(PacketBits(rv)), Released(line, n + 8, trn + 3));
    AckExtracted(line, n + 8, trn);
  }

  lemma LastPull(o: nat, line: Line, s: Sem)
    requires s.mode.Idle?
    ensures RunOps(o, line, s, [PullOp]) == s && Balanced(o, line, s, 1, [PullOp])
    ensures RunOps(o, line, s, [PullOp, PullOp]) == s && Balanced(o, line, s, 2, [PullOp, PullOp])
  {
    PullSegment(o, line, s, 2, [PullOp]);
    PullSegment(o, line, s, 1, []);
    assert [PullOp] + [] == [PullOp] && [PullOp] + [PullOp] == [PullOp, PullOp];
    NothingLeft(o, line, s);
  }

  /** Idle cycles compile to SWDIO driven low; none at all to no operation. */
  lemma IdleCompiles(o: nat, line: Line, s: Sem, owed: int, p: Params, rest: seq<Op>)
    requires o + PROGRAM_LEN <= 32 && s.mode.Idle? && 0 <= owed <= 2
    ensures var t := Sem(Idle, s.wave + Driven(Zeros(p.idleCycles)), s.rx);
            && RunOps(o, line, s, IdleOps(o, p) + rest) == RunOps(o, line, t, rest)
            && Balanced(o, line, s, owed, IdleOps(o, p) + rest) == Balanced(o, line, t, owed, rest)
  {
    if p.idleCycles > 0 {
      WriteSegment(o, line, s, owed, p.idleCycles, true, 0, rest);
      BitsOfZero(p.idleCycles);
    } else {
      assert IdleOps(o, p) + rest == rest;
      assert Sem(Idle, s.wave + Driven(Zeros(0)), s.rx) == s;
    }
  }

  lemma {:induction false} BitsOfZero(n: nat)
    ensures BitsOf(0, n) == Zeros(n)
  {
    if n > 0 { BitsOfZero(n - 1); }
  }

  lemma ReadDataCompiles(o: nat, line: Line, s: Sem, c: Call)
    requires ValidParams(c.params) && o + PROGRAM_LEN <= 32 && s.mode.Idle? && IsRead(c.request)
    ensures var m := |s.wave|;
            var data, parity := RxWord(LineBits(line, m, 32)), RxWord(LineBits(line, m + 32, 1));
            && Compiles(o, line, s, DataOps(o, OK, c), DataCycles(line, m, OK, c), [data, parity])
            && ReadResult(data, parity) == HostView(line, m, OK, c)
  {
    hide RunOps, Balanced, Driven, Released, LineBits, RxWord, WriteOps, ReadOps, IdleOps, ReadResult, HostView;
    var m, trn, p := |s.wave|, c.params.turnaround, c.params;
    var s1 := Sampled(line, s, 32);
    var s2 := Sampled(line, s1, 1);
    var s3 := Wrote(line, s2, trn, false, 0);
    var low := Driven(Zeros(p.idleCycles));
    var s4 := Sem(Idle, s3.wave + low, s3.rx);
    var hiz, idle := WriteOps(o, trn, false, 0), IdleOps(o, p);
    ReadSegment(o, line, s, 0, 32, ReadOps(o, 1) + (hiz + (idle + [PullOp, PullOp])));
    ReadSegment(o, line, s1, 1, 1, hiz + (idle + [PullOp, PullOp]));
    WriteSegment(o, line, s2, 2, trn, false, 0, idle + [PullOp, PullOp]);
    IdleCompiles(o, line, s3, 2, p, [PullOp, PullOp]);
    LastPull(o, line, s4);
    ReleasedSplit(line, m, 32, 1);
    ReleasedSplit(line, m, 33, trn);
    assert s4.wave == s.wave + (Released(line, m, 33 + trn) + low);
    ReadWordsChecked(line, m, c);
  }

  lemma ReadWordsChecked(line: Line, m: nat, c: Call)
    requires IsRead(c.request)
    ensures ReadResult(RxWord(LineBits(line, m, 32)), RxWord(LineBits(line, m + 32, 1))) == HostView(line, m, OK, c)
  {
    hide LineBits, RxWord, OddOnes, CountOnes;
    var bits, last := LineBits(line, m, 32), LineBits(line, m + 32, 1);
    RxWordFull(bits);
    CountOnesParity(bits);
    RxWordBits(last);
    Pow2Word();
    assert last == [line(m + 32)];
    WordOfCons(line(m + 32), []);
    assert LineBits(line, m, 33) == bits + last;
    OddOnesConcat(bits, last);
    OddOnesOne(line(m + 32));
  }

  lemma WriteDataCompiles(o: nat, line: Line, s: Sem, c: Call)
    requires ValidParams(c.params) && o + PROGRAM_LEN <= 32 && s.mode.Idle? && !IsRead(c.request)
    ensures Compiles(o, line, s, DataOps(o, OK, c), DataCycles(line, |s.wave|, OK, c), [])
  {
    hide RunOps, Balanced, Driven, Released, WriteOps, IdleOps, BitsOf, OddOnes, CountOnes;
    var m, trn, p := |s.wave|, c.params.turnaround, c.params;
    var bits := BitsOf(c.data, 32);
    var parity := CountOnes(c.data) % 2;
    ParityOnWire(c.data);
    var s1 := Wrote(line, s, trn, false, 0);
    var s2 := Wrote(line, s1, 32, true, c.data);
    var s3 := Wrote(line, s2, 1, true, parity);
    var low := Driven(Zeros(p.idleCycles));
    var idle := IdleOps(o, p);
    var word, check := WriteOps(o, 32, true, c.data), WriteOps(o, 1, true, parity);
    assert idle + [] == idle;
    WriteSegment(o, line, s, 0, trn, false, 0, word + (check + idle));
    WriteSegment(o, line, s1, 0, 32, true, c.data, check + idle);
    WriteSegment(o, line, s2, 0, 1, true, parity, idle);
    IdleCompiles(o, line, s3, 0, p, []);
    NothingLeft(o, line, Sem(Idle, s3.wave + low, s3.rx));
    DrivenConcat(bits, [OddOnes(bits)]);
    assert s3.wave + low == s.wave + (Released(line, m, trn) + Driven(bits + [OddOnes(bits)]) + low);
  }

  /** The parity word puts the odd-parity bit of the data on the wire. */
  lemma ParityOnWire(w: u32)
    ensures BitsOf(CountOnes(w) % 2, 1) == [OddOnes(BitsOf(w, 32))]
  {
    Pow2Word();
    WordOfBitsOf(w, 32);
    CountOnesParity(BitsOf(w, 32));
    var parity := CountOnes(w) % 2;
    assert BitsOf(parity, 1) == [parity % 2 == 1] + BitsOf(parity / 2, 0);
  }

  lemma RefusedCompiles(o: nat, line: Line, s: Sem, ack: nat, c: Call) returns (words: seq<u32>)
    requires ValidParams(c.params) && o + PROGRAM_LEN <= 32 && s.mode.Idle? && (ack == WAIT || ack == FAULT)
    ensures |words| <= 1
    ensures Compiles(o, line, s, DataOps(o, ack, c), DataCycles(line, |s.wave|, ack, c), words)
  {
    hide RunOps, Balanced, Driven, Released, WriteOps, ReadOps, BitsOf, LineBits, RxWord;
    var m, trn := |s.wave|, c.params.turnaround;
    var hiz := WriteOps(o, trn, false, 0);
    assert hiz + [] == hiz;
    if c.params.dataPhase && IsRead(c.request) {
      var s1 := Sampled(line, s, 33);
      ReadSegment(o, line, s, 0, 33, [PullOp] + hiz);
      PullSegment(o, line, s1, 1, hiz);
      WriteSegment(o, line, s1, 0, trn, false, 0, []);
      NothingLeft(o, line, Wrote(line, s1, trn, false, 0));
      ReleasedSplit(line, m, 33, trn);
      Regroup(s.wave, Released(line, m, 33), Released(line, m + 33, trn));
      words := [RxWord(LineBits(line, m, 33))];
    } else if c.params.dataPhase {
      DummyWriteCompiles(o, line, s, ack, c);
      words := [];
    } else {
      WriteSegment(o, line, s, 0, trn, false, 0, []);
      NothingLeft(o, line, Wrote(line, s, trn, false, 0));
      assert Released(line, m, trn) + [] == Released(line, m, trn);
      words := [];
    }
  }

  lemma DummyWriteCompiles(o: nat, line: Line, s: Sem, ack: nat, c: Call)
    requires ValidParams(c.params) && o + PROGRAM_LEN <= 32 && s.mode.Idle? && (ack == WAIT || ack == FAULT)
    requires c.params.dataPhase && !IsRead(c.request)
    ensures Compiles(o, line, s, DataOps(o, ack, c), DataCycles(line, |s.wave|, ack, c), [])
  {
    hide RunOps, Balanced, Driven, Released, WriteOps, BitsOf;
    var m, trn := |s.wave|, c.params.turnaround;
    var s1 := Wrote(line, s, trn, false, 0);
    var s2 := Wrote(line, s1, 32, true, 0);
    var s3 := Wrote(line, s2, 1, true, 0);
    var word, check := WriteOps(o, 32, true, 0), WriteOps(o, 1, true, 0);
    assert check + [] == check;
    WriteSegment(o, line, s, 0, trn, false, 0, word + check);
    WriteSegment(o, line, s1, 0, 32, true, 0, check);
    WriteSegment(o, line, s2, 0, 1, true, 0, []);
    NothingLeft(o, line, s3);
    BitsOfZero(32);
    BitsOfZero(1);
    assert Zeros(33) == Zeros(32) + Zeros(1);
    DrivenConcat(Zeros(32), Zeros(1));
    assert s3.wave == s.wave + (Released(line, m, trn) + Driven(Zeros(33)));
  }

  lemma BackOffCompiles(o: nat, line: Line, s: Sem, ack: nat, c: Call) returns (words: seq<u32>)
    requires ValidParams(c.params) && o + PROGRAM_LEN <= 32 && s.mode.Idle?
    requires ack != OK && ack != WAIT && ack != FAULT
    ensures |words| <= 1
    ensures Compiles(o, line, s, DataOps(o, ack, c), DataCycles(line, |s.wave|, ack, c), words)
  {
    hide RunOps, Balanced, Driven, Released, WriteOps, ReadOps, BitsOf, LineBits, RxWord;
    var trn := c.params.turnaround;
    ReadSegment(o, line, s, 0, trn + 33, [PullOp]);
    LastPull(o, line, Sampled(line, s, trn + 33));
    words := [RxWord(LineBits(line, |s.wave|, trn + 33))];
  }

  /** Only the request's low nibble reaches the wire. */
  lemma NibbleOnly(line: Line, n: nat, rv: u8, data: u32, p: Params)
    ensures RefTransfer(line, n, Call(rv % 16, data, p)) == RefTransfer(line, n, Call(rv, data, p))
  {
    hide LineBits, Released, Driven, BitsOf, WordOf, OddOnes;
    var low: u8 := rv % 16;
    LowFlags(rv);
    assert PacketBits(low) == PacketBits(rv);
  }

  lemma LowFlags(rv: u8)
    ensures var low: u8 := rv % 16;
            && IsAp(low) == IsAp(rv) && IsRead(low) == IsRead(rv)
            && HasA2(low) == HasA2(rv) && HasA3(low) == HasA3(rv)
  {
    var q, low := rv / 16, rv % 16;
    LowFlag(q, low, 1);
    LowFlag(q, low, 2);
    LowFlag(q, low, 4);
    LowFlag(q, low, 8);
  }

  /** A flag below 16 does not see what is above. */
  lemma LowFlag(q: nat, low: nat, bit: nat)
    requires bit in {1, 2, 4, 8}
    ensures (16 * q + low) / bit % 2 == low / bit % 2
  {
    var half: nat := if bit == 1 then 8 * q else if bit == 2 then 4 * q else if bit == 4 then 2 * q else q;
    var above, rest := low / bit, low % bit;
    assert low == above * bit + rest;
    assert 16 * q == 2 * half * bit;
    Above(2 * half, above, bit, rest);
    assert (2 * half + above) % 2 == above % 2;
  }

  lemma Above(a: nat, b: nat, bit: nat, rest: nat)
    requires rest < bit
    ensures (a * bit + (b * bit + rest)) / bit == a + b
  {
    assert a * bit + (b * bit + rest) == (a + b) * bit + rest;
    DivUnique(a * bit + (b * bit + rest), bit, a + b, rest);
  }

  /** The result the driver computes from the words of the two plans. */
  function DriverResult(ack: nat, c: Call, words: seq<u32>): Transfer
    requires ack < 8 && (ack == OK && IsRead(c.request) ==> |words| == 2)
  {
    if ack == OK && IsRead(c.request) then ReadResult(words[0], words[1]) else Transfer(ack, 0)
  }

  lemma DataCompiles(o: nat, line: Line, s: Sem, ack: nat, c: Call) returns (words: seq<u32>)
    requires ValidParams(c.params) && o + PROGRAM_LEN <= 32 && s.mode.Idle? && ack < 8
    ensures Compiles(o, line, s, DataOps(o, ack, c), DataCycles(line, |s.wave|, ack, c), words)
    ensures ack == OK && IsRead(c.request) ==> |words| == 2
    ensures DriverResult(ack, c, words) == HostView(line, |s.wave|, ack, c)
    ensures |words| <= 2
  {
    var m := |s.wave|;
    if ack == OK && IsRead(c.request) {
      ReadDataCompiles(o, line, s, c);
      words := [RxWord(LineBits(line, m, 32)), RxWord(LineBits(line, m + 32, 1))];
    } else if ack == OK {
      WriteDataCompiles(o, line, s, c);
      words := [];
    } else if ack == WAIT || ack == FAULT {
      words := RefusedCompiles(o, line, s, ack, c);
    } else {
      words := BackOffCompiles(o, line, s, ack, c);
    }
  }

  /** The two plans of a transfer put exactly the reference transfer on the wire and
      give the driver exactly its result. */
  lemma TransferCompiles(o: nat, line: Line, s: Sem, c: Call) returns (word: u32, words: seq<u32>)
    requires ValidParams(c.params) && o + PROGRAM_LEN <= 32 && s.mode.Idle?
    ensures var ref := RefTransfer(line, |s.wave|, c);
            var ack := AckOf(word, c.params.turnaround);
            var request, data := RequestOps(o, c.request, c.params.turnaround), DataOps(o, ack, c);
            var mid := RunOps(o, line, s, request);
            && mid.rx == s.rx + [word] && mid.mode.Idle?
            && Balanced(o, line, s, 0, request) && Balanced(o, line, mid, 0, data)
            && RunOps(o, line, mid, data) == Sem(Idle, s.wave + ref.cycles, s.rx + [word] + words)
            && (ack == OK && IsRead(c.request) ==> |words| == 2)
            && DriverResult(ack, c, words) == ref.transfer
            && ack == TargetAck(line, |s.wave|, c.params)
  {
    hide LineBits, RequestOps, DataOps, RequestCycles, DataCycles, HostView, RunOps, Balanced;
    RequestCompiles(o, line, s, c.request, c.params);
    word := RxWord(LineBits(line, |s.wave| + 8, c.params.turnaround + 3));
    AckBound(line, |s.wave|, c.params);
    AckExtracted(line, |s.wave| + 8, c.params.turnaround);
    var mid := RunOps(o, line, s, RequestOps(o, c.request, c.params.turnaround));
    words := DataCompiles(o, line, mid, AckOf(word, c.params.turnaround), c);
  }

  // Any number of transfers

  /** Every FIFO operation of a transfer begun at clock `n`. */
  function TransferOps(o: nat, line: Line, n: nat, c: Call): seq<Op>
    requires o + PROGRAM_LEN <= 32 && ValidParams(c.params)
  {
    RequestOps(o, c.request, c.params.turnaround) + DataOps(o, TargetAck(line, n, c.params), c)
  }

  /** Every FIFO operation of a sequence of transfers begun on wire `base`; what a data
      plan is depends on the ACK the line gives. */
  function SessionOps(o: nat, line: Line, base: seq<Cycle>, calls: seq<Call>): seq<Op>
    requires o + PROGRAM_LEN <= 32 && forall c :: c in calls ==> ValidParams(c.params)
  {
    if calls == [] then []
    else
      var front := calls[..|calls| - 1];
      SessionOps(o, line, base, front)
      + TransferOps(o, line, |WaveOf(line, base, front)|, calls[|calls| - 1])
  }

  /** They are balanced and put exactly the reference transfers on the wire. */
  lemma {:induction false} SessionCompiles(o: nat, line: Line, base: seq<Cycle>, rx: seq<u32>, calls: seq<Call>)
    requires o + PROGRAM_LEN <= 32 && forall c :: c in calls ==> ValidParams(c.params)
    ensures var ops, start := SessionOps(o, line, base, calls), Sem(Idle, base, rx);
            && Balanced(o, line, start, 0, ops)
            && RunOps(o, line, start, ops).mode.Idle?
            && RunOps(o, line, start, ops).wave == WaveOf(line, base, calls)
  {
    hide RequestOps, DataOps, RefTransfer, TargetAck, RunOps, Balanced, AckOf, DriverResult;
    var start := Sem(Idle, base, rx);
    if calls == [] {
      NothingLeft(o, line, start);
    } else {
      var front, c := calls[..|calls| - 1], calls[|calls| - 1];
      SessionCompiles(o, line, base, rx, front);
      var ops := SessionOps(o, line, base, front);
      var before := RunOps(o, line, start, ops);
      var word, words := TransferCompiles(o, line, before, c);
      var request, data := RequestOps(o, c.request, c.params.turnaround),
                           DataOps(o, TargetAck(line, |before.wave|, c.params), c);
      BalancedConcat(o, line, before, 0, request, data);
      BalancedConcat(o, line, start, 0, ops, request + data);
    }
  }

  /** From a state at rest, any sequence of transfers can be run without a deadlock, and
      however driver and hardware take turns it completes, the wire showing exactly the
      reference transfers. */
  lemma SessionCompletes(
    line: Line, d: Depths, hw: Hw, done: Sem, got: seq<u32>, base: seq<Cycle>, calls: seq<Call>, schedule: seq<bool>)
    requires d.tx >= 1 && d.rx >= 2 && HwInv(line, d, hw, done, got) && Sent(line, hw, done) == Sem(Idle, base, got)
    requires forall c :: c in calls ==> ValidParams(c.params)
    ensures var s := System(hw, SessionOps(hw.regs.origin, line, base, calls), done, got);
            && SystemInv(line, d, s)
            && (|schedule| >= Moves(s) ==>
                  var t := Turns(line, d, s, schedule);
                  t.todo == [] && Sent(line, t.hw, t.done).wave == WaveOf(line, base, calls))
  {
    hide SessionOps, WaveOf, RunToPull, Sent, Turns, Balanced, AcceptsAll;
    SessionCompiles(hw.regs.origin, line, base, got, calls);
    var s := System(hw, SessionOps(hw.regs.origin, line, base, calls), done, got);
    if |schedule| >= Moves(s) { EveryScheduleAgrees(line, d, s, schedule); }
  }
}
