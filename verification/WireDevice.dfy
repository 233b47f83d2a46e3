/** The command processor over the wire itself: the environment is a line, on which a device
    with posted reads answers. */
module WireDevice {
  import opened Words
  import opened Pio
  import opened Swd
  import opened Wire
  import opened DapTransfer

  /** The environment a line makes, with a timer. */
  function WireEnv(line: Line, base: seq<Cycle>, clock: seq<Call> -> u32): Env {
    LineEnv(line, base).(clock := clock)
  }

  /** What the driver does over its line is what the processor's driver interface does over
      this environment. */
  lemma DriverOnWire(
    line: Line, base: seq<Cycle>, clock: seq<Call> -> u32, calls: seq<Call>, rv: u8, p: Params, retries: nat)
    ensures forall data ::
              SeqRetry(LineEnv(line, base), calls, rv, data, p, retries)
              == SeqRetry(WireEnv(line, base, clock), calls, rv, data, p, retries)
    ensures forall total ::
              SeqReadBlock(LineEnv(line, base), p, retries, rv, calls, total)
              == SeqReadBlock(WireEnv(line, base, clock), p, retries, rv, calls, total)
    ensures forall words ::
              SeqWriteBlock(LineEnv(line, base), p, retries, rv, calls, words)
              == SeqWriteBlock(WireEnv(line, base, clock), p, retries, rv, calls, words)
  {
    hide SeqRetry, SeqReadBlock, SeqWriteBlock, LineEnv;
    var env := LineEnv(line, base);
    forall data
      ensures SeqRetry(env, calls, rv, data, p, retries) == SeqRetry(env.(clock := clock), calls, rv, data, p, retries)
    {
      RetryTimeless(env, clock, calls, rv, data, p, retries);
    }
    forall total
      ensures SeqReadBlock(env, p, retries, rv, calls, total)
           == SeqReadBlock(env.(clock := clock), p, retries, rv, calls, total)
    {
      ReadBlockTimeless(env, clock, p, retries, rv, calls, total);
    }
    forall words
      ensures SeqWriteBlock(env, p, retries, rv, calls, words)
           == SeqWriteBlock(env.(clock := clock), p, retries, rv, calls, words)
    {
      WriteBlockTimeless(env, clock, p, retries, rv, calls, words);
    }
  }

  /** A data word and its parity on the wire; `damaged` is whether the parity bit is flipped. */
  function Protected(w: u32, damaged: bool): (bits: seq<bool>)
    ensures |bits| == 33
  {
    BitsOf(w, 32) + [OddOnes(BitsOf(w, 32)) != damaged]
  }

  function Flips(sent: seq<bool>, seen: seq<bool>): (flips: seq<bool>)
    requires |sent| == |seen|
    ensures |flips| == |sent|
  {
    seq(|sent|, i requires 0 <= i < |sent| => sent[i] != seen[i])
  }

  /** The clock at which the data phase of the attempt after `before` begins. */
  function DataClock(line: Line, base: seq<Cycle>, before: seq<Call>, c: Call): nat {
    |WaveOf(line, base, before)| + 8 + c.params.turnaround + 3
  }

  /** Of the attempts made since `from`, as long as nothing had failed, those acknowledged
      as reads found the target's own value, with its parity, on the wire, or an odd number
      of its bits flipped. */
  ghost predicate DrivesReads(
    line: Line, base: seq<Cycle>, clock: seq<Call> -> u32, tgt: Target, from: nat, made: seq<Call>)
  {
    var env := WireEnv(line, base, clock);
    forall i {:trigger made[i]} ::
      (from <= i < |made| && Unbroken(env, from, made[..i]) && IsRead(made[i].request)
       && TargetAck(line, |WaveOf(line, base, made[..i])|, made[i].params) == OK)
      ==> var sent := Protected(Returned(tgt, Log(env, from, made[..i]), made[i].request), false);
          var seen := LineBits(line, DataClock(line, base, made[..i], made[i]), 33);
          seen == sent || OddOnes(Flips(sent, seen))
  }

  lemma {:induction false} LineBitsTake(line: Line, n: nat, count: nat, k: nat)
    requires k <= count
    ensures LineBits(line, n, count)[..k] == LineBits(line, n, k)
  {
  }

  /** The host sees exactly the value driven, and a flipped parity bit. */
  lemma ProtectedRead(line: Line, m: nat, c: Call, w: u32, damaged: bool)
    requires IsRead(c.request) && LineBits(line, m, 33) == Protected(w, damaged)
    ensures HostView(line, m, OK, c) == Transfer(if damaged then ERROR else OK, w)
  {
    hide LineBits, OddOnes, BitsOf, WordOf;
    LineBitsTake(line, m, 33, 32);
    assert Protected(w, damaged)[..32] == BitsOf(w, 32);
    Pow2Word();
    WordOfBitsOf(w, 32);
    ProtectedParity(w, damaged);
  }

  lemma ProtectedParity(w: u32, damaged: bool)
    ensures OddOnes(Protected(w, damaged)) == damaged
  {
    hide OddOnes, BitsOf;
    var bits := BitsOf(w, 32);
    OddOnesConcat(bits, [OddOnes(bits) != damaged]);
    OddOnesOne(OddOnes(bits) != damaged);
  }

  /** A read is answered OK exactly if an even number of its bits was flipped, and with the
      value driven exactly if none was. */
  lemma ReadSeen(line: Line, m: nat, c: Call, w: u32)
    requires IsRead(c.request)
    ensures var sent, seen, view := Protected(w, false), LineBits(line, m, 33), HostView(line, m, OK, c);
            && (view.ack == OK <==> !OddOnes(Flips(sent, seen)))
            && (view == Transfer(OK, w) <==> seen == sent)
  {
    hide OddOnes, BitsOf, LineBits, WordOf;
    var sent, seen := Protected(w, false), LineBits(line, m, 33);
    ProtectedParity(w, false);
    OddOnesFlipped(sent, Flips(sent, seen), seen);
    LineBitsTake(line, m, 33, 32);
    BitsOfWordOf(seen[..32]);
    assert seen == seen[..32] + [seen[32]];
    OddOnesConcat(seen[..32], [seen[32]]);
    OddOnesOne(seen[32]);
    if seen == sent {
      ProtectedRead(line, m, c, w, false);
    }
  }

  /** What the wire answers is what the last attempt's waveform gives. */
  lemma ReplyOf(line: Line, base: seq<Cycle>, before: seq<Call>, c: Call)
    ensures LineReply(line, base, before + [c]) == RefTransfer(line, |WaveOf(line, base, before)|, c).transfer
    ensures WaveOf(line, base, before + [c])
         == WaveOf(line, base, before) + RefTransfer(line, |WaveOf(line, base, before)|, c).cycles
  {
    hide RefTransfer;
    assert (before + [c])[..|before|] == before;
  }

  /** The target posts its reads to the processor exactly if the wire carries them. */
  lemma LinePosts(line: Line, base: seq<Cycle>, clock: seq<Call> -> u32, tgt: Target, from: nat, made: seq<Call>)
    ensures PostsReads(WireEnv(line, base, clock), tgt, from, made)
       <==> DrivesReads(line, base, clock, tgt, from, made)
  {
    hide Unbroken, Log, Returned, TargetAck, LineBits, WaveOf, Protected, LineReply, RefTransfer, HostView,
         Flips, OddOnes;
    var env := WireEnv(line, base, clock);
    forall i {:trigger made[i]} | from <= i < |made| && IsRead(made[i].request)
      ensures var n, c := |WaveOf(line, base, made[..i])|, made[i];
              var w, reply := Returned(tgt, Log(env, from, made[..i]), c.request), env.reply(made[..i + 1]);
              var sent, seen := Protected(w, false), LineBits(line, DataClock(line, base, made[..i], c), 33);
              && (reply.ack == OK ==> TargetAck(line, n, c.params) == OK)
              && (TargetAck(line, n, c.params) == OK ==>
                    && (reply.ack == OK <==> !OddOnes(Flips(sent, seen)))
                    && (reply == Transfer(OK, w) <==> seen == sent))
    {
      var n, c := |WaveOf(line, base, made[..i])|, made[i];
      assert made[..i + 1] == made[..i] + [c];
      ReplyOf(line, base, made[..i], c);
      OkAcked(line, n, c);
      ReadSeen(line, n + 8 + c.params.turnaround + 3, c, Returned(tgt, Log(env, from, made[..i]), c.request));
    }
  }

  lemma OkAcked(line: Line, n: nat, c: Call)
    ensures RefTransfer(line, n, c).transfer.ack == OK ==> TargetAck(line, n, c.params) == OK
    ensures TargetAck(line, n, c.params) == OK ==>
              RefTransfer(line, n, c).transfer == HostView(line, n + 8 + c.params.turnaround + 3, OK, c)
  {
    hide LineBits, OddOnes, WordOf, RequestCycles, DataCycles;
  }

  /** Every `DAP_Transfer` the PIO driver carries out on a wire whose target posts its AP
      reads replies as the simple execution of the transfers it counts. */
  lemma TransferOnWire(
    line: Line, base: seq<Cycle>, clock: seq<Call> -> u32, tgt: Target,
    cfg: Config, room: nat, calls: seq<Call>, mask: u32, items: seq<Item>)
    requires var f := Transferred(WireEnv(line, base, clock), cfg, room, calls, mask, items);
             !f.phase.Failed? && DrivesReads(line, base, clock, tgt, |calls|, f.calls)
    ensures var env := WireEnv(line, base, clock);
            RepliesSimply(env, tgt, cfg, room, calls, mask, items, Transferred(env, cfg, room, calls, mask, items))
  {
    hide DrivesReads, PostsReads, RepliesSimply, Transferred, WireEnv;
    var env := WireEnv(line, base, clock);
    LinePosts(line, base, clock, tgt, |calls|, Transferred(env, cfg, room, calls, mask, items).calls);
    TransferReplies(env, tgt, cfg, room, calls, mask, items);
  }

  // Putting a device on the wire

  /** Clocks of a data phase. */
  function DataLen(ack: nat, c: Call): nat {
    var trn := c.params.turnaround;
    if ack == OK then 33 + trn + c.params.idleCycles
    else if (ack == WAIT || ack == FAULT) && !c.params.dataPhase then trn
    else 33 + trn
  }

  lemma DataLenIs(line: Line, m: nat, ack: nat, c: Call)
    ensures |DataCycles(line, m, ack, c)| == DataLen(ack, c)
  {
    hide Released, BitsOf, OddOnes, Zeros, Driven;
  }

  /** How an attempt can end on a wire: with the ACK the device drives, or as a read whose
      data is damaged. */
  predicate Possible(end: u8, request: u8) {
    end < 8 || (end == ERROR && IsRead(request))
  }

  /** The attempts `made` ended in possible ways. */
  ghost predicate AllPossible(acks: seq<Call> -> u8, made: seq<Call>) {
    forall i :: 0 <= i < |made| ==> Possible(acks(made[..i + 1]), made[i].request)
  }

  lemma PossibleFront(acks: seq<Call> -> u8, before: seq<Call>, c: Call)
    requires AllPossible(acks, before + [c])
    ensures AllPossible(acks, before) && Possible(acks(before + [c]), c.request)
  {
    var made := before + [c];
    assert made[|before|] == c && made[..|before| + 1] == made;
    forall i | 0 <= i < |before| ensures Possible(acks(before[..i + 1]), before[i].request) {
      assert made[i] == before[i] && made[..i + 1] == before[..i + 1];
    }
  }

  /** The ACK driven: a damaged read was acknowledged OK. */
  function AckDriven(end: u8): u8 { if end == ERROR then OK else end }

  /** What the line shows during an attempt answered by a device. */
  function Levels(device: Target, acks: seq<Call> -> u8, before: seq<Call>, c: Call): (levels: seq<bool>)
    ensures |levels| == 11 + c.params.turnaround + DataLen(AckDriven(acks(before + [c])), c)
  {
    var end, trn := acks(before + [c]), c.params.turnaround;
    Zeros(8 + trn) + BitsOf(AckDriven(end), 3)
    + if AckDriven(end) == OK && IsRead(c.request) then
        Protected(Returned(device, AckedLog(acks, before), c.request), end == ERROR) + Zeros(trn + c.params.idleCycles)
      else Zeros(DataLen(AckDriven(end), c))
  }

  function AllLevels(device: Target, acks: seq<Call> -> u8, made: seq<Call>): seq<bool> {
    if made == [] then []
    else AllLevels(device, acks, made[..|made| - 1]) + Levels(device, acks, made[..|made| - 1], made[|made| - 1])
  }

  lemma LevelsSnoc(device: Target, acks: seq<Call> -> u8, before: seq<Call>, c: Call)
    ensures AllLevels(device, acks, before + [c]) == AllLevels(device, acks, before) + Levels(device, acks, before, c)
  {
    hide Levels;
    assert (before + [c])[..|before|] == before;
  }

  predicate Shows(line: Line, at: nat, levels: seq<bool>) {
    forall k :: 0 <= k < |levels| ==> line(at + k) == levels[k]
  }

  lemma {:induction false} ShowsBits(line: Line, at: nat, levels: seq<bool>, k: nat, n: nat)
    requires Shows(line, at, levels) && k + n <= |levels|
    ensures LineBits(line, at + k, n) == levels[k..k + n]
    decreases n
  {
    if n > 0 {
      ShowsBits(line, at, levels, k + 1, n - 1);
      assert line(at + k) == levels[k];
      assert levels[k..k + n] == [levels[k]] + levels[k + 1..k + n];
    }
  }

  lemma ShowsParts(line: Line, at: nat, a: seq<bool>, b: seq<bool>)
    requires Shows(line, at, a + b)
    ensures Shows(line, at, a) && Shows(line, at + |a|, b)
  {
    forall k | 0 <= k < |a| ensures line(at + k) == a[k] {
      assert (a + b)[k] == a[k];
    }
    forall k | 0 <= k < |b| ensures line(at + |a| + k) == b[k] {
      assert line(at + (|a| + k)) == (a + b)[|a| + k];
    }
  }

  lemma AgreeMore(a: Env, b: Env, before: seq<Call>, c: Call)
    requires Agree(a, b, before)
    requires a.reply(before + [c]) == b.reply(before + [c]) && a.clock(before + [c]) == b.clock(before + [c])
    ensures Agree(a, b, before + [c])
  {
    var made := before + [c];
    forall i | 0 <= i <= |made| ensures a.reply(made[..i]) == b.reply(made[..i]) && a.clock(made[..i]) == b.clock(made[..i]) {
      if i == |made| {
        assert made[..i] == made;
      } else {
        assert made[..i] == before[..i];
      }
    }
  }

  /** An attempt whose levels the line shows is answered as the device answers it. */
  lemma AttemptOnLine(line: Line, n: nat, device: Target, acks: seq<Call> -> u8, before: seq<Call>, c: Call)
    requires Shows(line, n, Levels(device, acks, before, c)) && Possible(acks(before + [c]), c.request)
    ensures var ref := RefTransfer(line, n, c);
            && |ref.cycles| == |Levels(device, acks, before, c)|
            && ref.transfer == Transfer(acks(before + [c]), DeviceData(device, acks, before, c))
  {
    hide LineBits, OddOnes, BitsOf, WordOf, RequestCycles, DataCycles, Returned, AckedLog, Shows, Zeros, Protected;
    var levels, end, trn := Levels(device, acks, before, c), acks(before + [c]), c.params.turnaround;
    var ack := AckDriven(end);
    ShowsBits(line, n, levels, 8 + trn, 3);
    assert levels[8 + trn..11 + trn] == BitsOf(ack, 3);
    SmallWord(ack);
    var m := n + 8 + trn + 3;
    DataLenIs(line, m, ack, c);
    if ack == OK && IsRead(c.request) {
      var w := Returned(device, AckedLog(acks, before), c.request);
      ShowsBits(line, n, levels, 11 + trn, 33);
      assert levels[11 + trn..44 + trn] == Protected(w, end == ERROR);
      ProtectedRead(line, m, c, w, end == ERROR);
    }
  }

  lemma SmallWord(ack: nat)
    requires ack < 8
    ensures WordOf(BitsOf(ack, 3)) == ack
  {
    assert Pow2(3) == 8;
    WordOfBitsOf(ack, 3);
  }

  lemma {:induction false} DeviceOnLine(
    line: Line, base: seq<Cycle>, device: Target, acks: seq<Call> -> u8, clock: seq<Call> -> u32, made: seq<Call>)
    requires Shows(line, |base|, AllLevels(device, acks, made))
    requires AllPossible(acks, made)
    ensures |WaveOf(line, base, made)| == |base| + |AllLevels(device, acks, made)|
    ensures Agree(DeviceEnv(device, acks, clock), WireEnv(line, base, clock), made)
  {
    hide Levels, AllLevels, WaveOf, Shows, Agree, DeviceEnv, WireEnv, AllPossible;
    if made == [] {
      NoAttempts(line, base, device, acks, clock);
    } else {
      var front, c := made[..|made| - 1], made[|made| - 1];
      assert made == front + [c];
      PossibleFront(acks, front, c);
      LevelsSnoc(device, acks, front, c);
      ShowsParts(line, |base|, AllLevels(device, acks, front), Levels(device, acks, front, c));
      DeviceOnLine(line, base, device, acks, clock, front);
      OneMoreOnLine(line, base, device, acks, clock, front, c);
    }
  }

  lemma OneMoreOnLine(
    line: Line, base: seq<Cycle>, device: Target, acks: seq<Call> -> u8, clock: seq<Call> -> u32,
    before: seq<Call>, c: Call)
    requires Shows(line, |WaveOf(line, base, before)|, Levels(device, acks, before, c))
    requires Possible(acks(before + [c]), c.request)
    requires Agree(DeviceEnv(device, acks, clock), WireEnv(line, base, clock), before)
    ensures |WaveOf(line, base, before + [c])| == |WaveOf(line, base, before)| + |Levels(device, acks, before, c)|
    ensures Agree(DeviceEnv(device, acks, clock), WireEnv(line, base, clock), before + [c])
  {
    hide Levels, DeviceData, LineReply, RefTransfer, WaveOf, Shows, Agree;
    AttemptOnLine(line, |WaveOf(line, base, before)|, device, acks, before, c);
    ReplyOf(line, base, before, c);
    DeviceReply(device, acks, clock, before, c);
    AgreeMore(DeviceEnv(device, acks, clock), WireEnv(line, base, clock), before, c);
  }

  lemma NoAttempts(line: Line, base: seq<Cycle>, device: Target, acks: seq<Call> -> u8, clock: seq<Call> -> u32)
    ensures WaveOf(line, base, []) == base && AllLevels(device, acks, []) == []
    ensures Agree(DeviceEnv(device, acks, clock), WireEnv(line, base, clock), [])
  {
  }

  /** Every device with posted reads, whatever ACKs it gives, whichever reads are damaged
      and whatever was done to it before, can stand on the wire; the command then runs there as over the device, and
      unless it fails replies as its simple execution. */
  lemma EveryDeviceOnWire(
    device: Target, acks: seq<Call> -> u8, clock: seq<Call> -> u32, base: seq<Cycle>,
    cfg: Config, room: nat, calls: seq<Call>, mask: u32, items: seq<Item>) returns (line: Line)
    requires AllPossible(acks, Transferred(DeviceEnv(device, acks, clock), cfg, room, calls, mask, items).calls)
    ensures var env := WireEnv(line, base, clock);
            var f, tgt := Transferred(env, cfg, room, calls, mask, items), Since(device, AckedLog(acks, calls));
            && f == Transferred(DeviceEnv(device, acks, clock), cfg, room, calls, mask, items)
            && PostsReads(env, tgt, |calls|, f.calls)
            && (!f.phase.Failed? ==> RepliesSimply(env, tgt, cfg, room, calls, mask, items, f))
  {
    hide AllLevels, AllPossible, Agree, PostsReads, RepliesSimply, RunItems, AckedLog, Finish, WaveOf,
         DeviceEnv, WireEnv;
    var over := DeviceEnv(device, acks, clock);
    var made := Transferred(over, cfg, room, calls, mask, items).calls;
    var levels := AllLevels(device, acks, made);
    line := n => |base| <= n < |base| + |levels| && levels[n - |base|];
    DeviceOnLine(line, base, device, acks, clock, made);
    var env, tgt := WireEnv(line, base, clock), Since(device, AckedLog(acks, calls));
    SameTransferred(over, env, cfg, room, calls, mask, items);
    TransferGrows(over, cfg, room, calls, mask, items);
    DevicesPost(device, acks, clock, calls, made);
    SamePosts(over, env, tgt, |calls|, made);
    if !Transferred(env, cfg, room, calls, mask, items).phase.Failed? {
      TransferReplies(env, tgt, cfg, room, calls, mask, items);
    }
  }
}
