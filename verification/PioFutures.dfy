/** The hand-written futures over the PIO driver. `None` from a `Poll` is `Pending`:
    what a future has done when it is ready does not depend on how often, or at which
    FIFO operation, it was pending on the way. */
module PioFutures {
  import opened Words
  import opened Pio
  import opened Fifo
  import opened Swd
  import opened Wire
  import opened PioDriver

  // Building plans

  /** A write command and its data word. */
  function PushWrite(plan: Plan, o: nat, bits: nat, dir: bool, w: u32): (p: Plan)
    requires plan.Valid() && plan.len + 2 <= PLAN_SLOTS && 1 <= bits <= 256 && o + PROGRAM_LEN <= 32
    ensures p.Valid() && p.len == plan.len + 2 && p.Ops() == plan.Ops() + WriteOps(o, bits, dir, w)
  {
    plan.Push(Cmd(bits, dir, o + WRITE_CMD)).Push(w)
  }

  function PushRead(plan: Plan, o: nat, bits: nat): (p: Plan)
    requires plan.Valid() && plan.len < PLAN_SLOTS && 1 <= bits <= 256 && o + PROGRAM_LEN <= 32
    ensures p.Valid() && p.len == plan.len + 1 && p.Ops() == plan.Ops() + ReadOps(o, bits)
  {
    plan.Push(Cmd(bits, false, o + READ_CMD))
  }

  function PushIdle(plan: Plan, o: nat, p: Params): (r: Plan)
    requires plan.Valid() && plan.len + 2 <= PLAN_SLOTS && o + PROGRAM_LEN <= 32
    ensures r.Valid() && r.len <= plan.len + 2 && r.Ops() == plan.Ops() + IdleOps(o, p)
  {
    if p.idleCycles > 0 then PushWrite(plan, o, p.idleCycles, true, 0) else plan
  }

  /** `plan_request`. */
  method PlanRequest(o: nat, request: u8, trn: nat) returns (plan: Plan)
    requires o + PROGRAM_LEN <= 32 && 1 <= trn <= 4
    ensures plan.Valid() && plan.Ops() == RequestOps(o, request, trn)
  {
    hide WriteOps, ReadOps, Plan.Ops, Plan.Push, Plan.Pull, PushWrite, PushRead, Packet;
    plan := NO_PLAN;
    EmptyPlan();
    plan := PushWrite(plan, o, 8, true, Packet(request));
    plan := PushRead(plan, o, trn + 3);
    plan := plan.Pull();
  }

  lemma EmptyPlan()
    ensures NO_PLAN.Valid() && NO_PLAN.Ops() == []
  {
  }

  /** `plan_data`: every plan fits its ten slots. */
  method PlanData(o: nat, ack: u8, rnw: bool, data: u32, p: Params, ghost c: Call) returns (plan: Plan)
    requires o + PROGRAM_LEN <= 32
    requires ValidParams(p) && c.params == p && c.data == data && IsRead(c.request) == rnw
    ensures plan.Valid() && plan.Ops() == DataOps(o, ack, c) && |plan.Ops()| <= 10
  {
    hide WriteOps, ReadOps, IdleOps, Plan.Ops, Plan.Push, Plan.Pull, PushWrite, PushRead, PushIdle, CountOnes;
    var trn := p.turnaround;
    plan := NO_PLAN;
    EmptyPlan();
    if ack == OK {
      if rnw {
        // both reads before the pulls: two RX words are owed at once
        plan := PushRead(plan, o, 32);
        plan := PushRead(plan, o, 1);
        plan := PushWrite(plan, o, trn, false, 0);
        plan := PushIdle(plan, o, p);
        plan := plan.Pull();
        plan := plan.Pull();
      } else {
        plan := PushWrite(plan, o, trn, false, 0);
        plan := PushWrite(plan, o, 32, true, data);
        plan := PushWrite(plan, o, 1, true, CountOnes(data) % 2);
        plan := PushIdle(plan, o, p);
      }
    } else if ack == WAIT || ack == FAULT {
      if p.dataPhase && rnw {
        plan := PushRead(plan, o, 33);
        plan := plan.Pull();
      }
      plan := PushWrite(plan, o, trn, false, 0);
      if p.dataPhase && !rnw {
        plan := PushWrite(plan, o, 32, true, 0);
        plan := PushWrite(plan, o, 1, true, 0);
      }
    } else {
      // as many clocks as the longest data phase, SWDIO released
      plan := PushRead(plan, o, trn + 33);
      plan := plan.Pull();
    }
  }

  // One transfer

  datatype Stage = Start | Request | Data

  /** The driver is between transfers: the wire shows its completed attempts, the state
      machine has been given nothing else, and no RX word is outstanding. */
  ghost predicate Rests(drv: PioSwd)
    reads drv, drv.engine
  {
    && drv.Valid()
    && drv.engine.sent == Sem(Idle, WaveOf(drv.engine.line, drv.base, drv.calls), drv.engine.got)
  }

  /** A driver over a state machine just started rests. */
  method NewDriver(line: Line, depths: Depths, origin: nat, swclkKhz: nat) returns (drv: PioSwd)
    requires depths.tx >= 1 && depths.rx >= 2 && origin + PROGRAM_LEN <= 32
    ensures Rests(drv) && drv.calls == [] && fresh(drv) && fresh(drv.engine)
  {
    var engine := new Engine(line, depths, origin);
    drv := new PioSwd(engine, swclkKhz);
  }

  lemma SamePacket(o: nat, request: u8, trn: nat)
    requires 1 <= trn <= 4 && o + PROGRAM_LEN <= 32
    ensures RequestOps(o, request, trn) == RequestOps(o, request % 16, trn)
  {
    hide WriteOps, ReadOps, CountOnes;
  }

  lemma RequestBegins(o: nat, line: Line, start: Sem, c: Call)
    requires start.mode.Idle? && ValidParams(c.params) && o + PROGRAM_LEN <= 32
    ensures Progress(o, line, start, RequestOps(o, c.request, c.params.turnaround), start, start.rx, NEW_CURSOR)
  {
    hide RequestOps, RequestCycles, Compiles, LineBits, RxWord;
    RequestCompiles(o, line, start, c.request, c.params);
    Begun(o, line, start, RequestOps(o, c.request, c.params.turnaround),
          RequestCycles(line, |start.wave|, c.request, c.params),
          [RxWord(LineBits(line, |start.wave| + 8, c.params.turnaround + 3))]);
  }

  lemma RequestEnds(o: nat, line: Line, start: Sem, now: Sem, got: seq<u32>, cur: Cursor, c: Call)
    requires start.mode.Idle? && ValidParams(c.params) && o + PROGRAM_LEN <= 32
    requires var ops := RequestOps(o, c.request, c.params.turnaround);
             Progress(o, line, start, ops, now, got, cur) && cur.idx == |ops|
    ensures var n := |start.wave|;
            && |cur.out| == PLAN_WORDS && AckOf(cur.out[0], c.params.turnaround) == TargetAck(line, n, c.params) < 8
            && now == Sem(Idle, start.wave + RequestCycles(line, n, c.request, c.params), got)
  {
    hide RequestOps, RequestCycles, LineBits, RxWord, TargetAck, AckOf;
    var trn, ops := c.params.turnaround, RequestOps(o, c.request, c.params.turnaround);
    var word := RxWord(LineBits(line, |start.wave| + 8, trn + 3));
    RequestCompiles(o, line, start, c.request, c.params);
    Finished(o, line, start, ops, now, got, cur, RequestCycles(line, |start.wave|, c.request, c.params), [word]);
    AckBound(line, |start.wave|, c.params);
    assert cur.out[0] == cur.out[..cur.nOut][0];
  }

  lemma DataBegins(o: nat, line: Line, start: Sem, ack: nat, c: Call)
    requires start.mode.Idle? && ValidParams(c.params) && o + PROGRAM_LEN <= 32 && ack < 8
    ensures Progress(o, line, start, DataOps(o, ack, c), start, start.rx, NEW_CURSOR)
  {
    hide DataOps, DataCycles, Compiles;
    var words := DataCompiles(o, line, start, ack, c);
    Begun(o, line, start, DataOps(o, ack, c), DataCycles(line, |start.wave|, ack, c), words);
  }

  lemma DataEnds(o: nat, line: Line, start: Sem, now: Sem, got: seq<u32>, cur: Cursor, ack: nat, c: Call)
    requires start.mode.Idle? && ValidParams(c.params) && o + PROGRAM_LEN <= 32 && ack < 8
    requires var ops := DataOps(o, ack, c); Progress(o, line, start, ops, now, got, cur) && cur.idx == |ops|
    ensures var m := |start.wave|;
            && now == Sem(Idle, start.wave + DataCycles(line, m, ack, c), got)
            && |cur.out| == PLAN_WORDS
            && HostView(line, m, ack, c)
            == if ack == OK && IsRead(c.request) then ReadResult(cur.out[0], cur.out[1]) else Transfer(ack, 0)
  {
    hide DataOps, DataCycles, Compiles, ReadResult, HostView;
    var words := DataCompiles(o, line, start, ack, c);
    Finished(o, line, start, DataOps(o, ack, c), now, got, cur, DataCycles(line, |start.wave|, ack, c), words);
    if ack == OK && IsRead(c.request) {
      assert cur.out[0] == cur.out[..cur.nOut][0] && cur.out[1] == cur.out[..cur.nOut][1];
    }
  }

  /** One more attempt on the wire: its request cycles, then its data cycles. */
  lemma WaveSnoc(line: Line, base: seq<Cycle>, calls: seq<Call>, c: Call)
    ensures var n := |WaveOf(line, base, calls)|;
            var ack := TargetAck(line, n, c.params);
            var m := n + 8 + c.params.turnaround + 3;
            && ack < 8
            && WaveOf(line, base, calls + [c]) == WaveOf(line, base, calls)
               + RequestCycles(line, n, c.request, c.params) + DataCycles(line, m, ack, c)
            && LineReply(line, base, calls + [c]) == HostView(line, m, ack, c)
  {
    hide RequestCycles, DataCycles, TargetAck, HostView;
    assert (calls + [c])[..|calls|] == calls;
    AckBound(line, |WaveOf(line, base, calls)|, c.params);
  }

  /** Where an attempt stands; `NEW_TRANSFER` before and after each. */
  datatype TransferState = TransferState(stage: Stage, ack: u8, plan: Plan, cur: Cursor)

  const NEW_TRANSFER: TransferState := TransferState(Start, 0, NO_PLAN, NEW_CURSOR)

  // How far there is to go

  /** Moves for a whole transfer: two plans of up to ten operations, and starting each. */
  const TRANSFER_MOVES: nat := 60002

  /** Moves for what is left of a transfer's plans. */
  function StageMoves(st: TransferState): nat {
    match st.stage
    case Start => TRANSFER_MOVES
    case Request => OpMoves(st.plan.len, st.cur.idx) + 30001
    case Data => OpMoves(st.plan.len, st.cur.idx) + 1
  }

  /** And with what the state machine has left, and a yield that may be due. */
  ghost function MovesLeft(drv: PioSwd, st: TransferState): nat
    reads drv, drv.engine
  {
    drv.engine.Busy() + StageMoves(st) + if drv.run >= YIELD_EVERY then 1 else 0
  }

  /** Moves before a transfer is begun. */
  ghost function FreshMoves(drv: PioSwd): nat
    reads drv, drv.engine
  {
    drv.engine.Busy() + if drv.run >= YIELD_EVERY then 1 else 0
  }

  /** The plan at hand was begun on wire `wave`, with the words taken before its own. */
  ghost predicate PlanUnderway(drv: PioSwd, st: TransferState, wave: seq<Cycle>, ops: seq<Op>)
    reads drv.engine
  {
    && st.plan.Valid() && st.plan.Ops() == ops && st.cur.nOut <= |drv.engine.got|
    && var start := Sem(Idle, wave, drv.engine.got[..|drv.engine.got| - st.cur.nOut]);
       Progress(drv.engine.origin, drv.engine.line, start, ops, drv.engine.sent, drv.engine.got, st.cur)
  }

  /** Attempt `c` is where `st` says, on top of the attempts completed. */
  ghost predicate InFlight(drv: PioSwd, st: TransferState, c: Call)
    reads drv, drv.engine
  {
    && ValidParams(c.params) && drv.Valid() && (st.stage != Start ==> drv.run < YIELD_EVERY)
    && var line, o := drv.engine.line, drv.engine.origin;
    && var wave := WaveOf(line, drv.base, drv.calls);
    && match st.stage
       case Start => Rests(drv)
       case Request => PlanUnderway(drv, st, wave, RequestOps(o, c.request, c.params.turnaround))
       case Data =>
         && st.ack == TargetAck(line, |wave|, c.params) < 8
         && PlanUnderway(drv, st, wave + RequestCycles(line, |wave|, c.request, c.params), DataOps(o, st.ack, c))
  }

  method BeginRequest(drv: PioSwd, st: TransferState, request: u8, data: u32, p: Params) returns (now: TransferState)
    requires st.stage == Start && InFlight(drv, st, Call(request % 16, data, p)) && drv.run < YIELD_EVERY
    ensures now.stage == Request && InFlight(drv, now, Call(request % 16, data, p))
    ensures StageMoves(now) < StageMoves(st)
  {
    hide RequestCycles, RequestOps, DataCycles, DataOps, TargetAck, WaveOf, Progress, HwInv, Sent, Packet, Plan.Ops;
    ghost var c := Call(request % 16, data, p);
    SamePacket(drv.engine.origin, request, p.turnaround);
    RequestBegins(drv.engine.origin, drv.engine.line, drv.engine.sent, c);
    var plan := PlanRequest(drv.engine.origin, request, p.turnaround);
    now := TransferState(Request, st.ack, plan, NEW_CURSOR);
    assert drv.engine.got[..|drv.engine.got|] == drv.engine.got;
  }

  method BeginData(drv: PioSwd, st: TransferState, request: u8, data: u32, p: Params) returns (now: TransferState)
    requires st.stage == Request && InFlight(drv, st, Call(request % 16, data, p)) && st.cur.idx == st.plan.len
    ensures now.stage == Stage.Data && InFlight(drv, now, Call(request % 16, data, p))
    ensures StageMoves(now) <= StageMoves(st)
  {
    hide RequestCycles, RequestOps, DataCycles, DataOps, TargetAck, WaveOf, Progress, HwInv, Sent, AckOf, Plan.Ops;
    ghost var c := Call(request % 16, data, p);
    ghost var o, line, sent, got := drv.engine.origin, drv.engine.line, drv.engine.sent, drv.engine.got;
    RequestEnds(o, line, Sem(Idle, WaveOf(line, drv.base, drv.calls), got[..|got| - st.cur.nOut]), sent, got, st.cur, c);
    var ack := AckOf(st.cur.out[0], p.turnaround);
    LowFlags(request);
    DataBegins(o, line, sent, ack, c);
    var plan := PlanData(drv.engine.origin, ack, IsRead(request), data, p, c);
    now := TransferState(Stage.Data, ack, plan, NEW_CURSOR);
    assert got[..|got|] == got;
  }

  method Complete(drv: PioSwd, st: TransferState, request: u8, data: u32, p: Params)
    returns (now: TransferState, t: Transfer)
    requires st.stage == Stage.Data && InFlight(drv, st, Call(request % 16, data, p)) && st.cur.idx == st.plan.len
    modifies drv`run, drv`calls
    ensures now.stage == Start && Rests(drv)
    ensures drv.calls == old(drv.calls) + [Call(request % 16, data, p)]
    ensures t == LineReply(drv.engine.line, drv.base, drv.calls)
    ensures FreshMoves(drv) <= old(MovesLeft(drv, st))
  {
    hide RequestCycles, RequestOps, DataCycles, DataOps, TargetAck, WaveOf, Progress, HwInv, Sent,
         LineReply, HostView, CountOnes, Plan.Ops;
    ghost var c := Call(request % 16, data, p);
    ghost var o, line, sent, got := drv.engine.origin, drv.engine.line, drv.engine.sent, drv.engine.got;
    ghost var wave := WaveOf(line, drv.base, drv.calls);
    DataEnds(o, line, Sem(Idle, wave + RequestCycles(line, |wave|, c.request, p), got[..|got| - st.cur.nOut]),
             sent, got, st.cur, st.ack, c);
    WaveSnoc(line, drv.base, drv.calls, c);
    LowFlags(request);
    if st.ack == OK && IsRead(request) {
      var parity := st.cur.out[1] / 0x8000_0000;
      var status := if CountOnes(st.cur.out[0]) % 2 != parity then ERROR else OK;
      t := Transfer(status, st.cur.out[0]);
    } else {
      t := Transfer(st.ack, 0);
    }
    now := st.(stage := Start);
    drv.run := drv.run + 1;
    drv.calls := drv.calls + [c];
  }

  /** Run the plan at hand as far as it goes. */
  method RunPlan(drv: PioSwd, st: TransferState, ghost wave: seq<Cycle>, ghost ops: seq<Op>)
    returns (done: bool, now: TransferState)
    requires drv.engine.Valid() && PlanUnderway(drv, st, wave, ops)
    modifies drv`alone, drv.engine
    ensures drv.engine.Valid() && PlanUnderway(drv, now, wave, ops) && (old(drv.alone) ==> drv.alone)
    ensures now == st.(cur := now.cur) && (done ==> now.cur.idx == now.plan.len)
    ensures MovesOn(old(drv.engine.Busy()) + OpMoves(st.plan.len, st.cur.idx), old(drv.engine.cycles),
                    drv.engine.Busy() + OpMoves(now.plan.len, now.cur.idx), drv.engine.cycles)
  {
    hide HwInv, Sent, Plan.Ops, Engine.Busy;
    ghost var start := Sem(Idle, wave, drv.engine.got[..|drv.engine.got| - st.cur.nOut]);
    var cur;
    done, cur := drv.Step(st.plan, st.cur, start);
    now := st.(cur := cur);
    RunOpsGrows(drv.engine.origin, drv.engine.line, start, ops);
    assert start.rx == drv.engine.got[..|drv.engine.got| - now.cur.nOut];
  }

  /** One poll of an attempt: it stays in flight, or is made and answered by the line. */
  method PollTransfer(drv: PioSwd, st: TransferState, request: u8, data: u32, p: Params)
    returns (r: Option<Transfer>, now: TransferState)
    requires InFlight(drv, st, Call(request % 16, data, p))
    modifies drv, drv.engine
    ensures drv.Valid()
    ensures r.None? ==> && InFlight(drv, now, Call(request % 16, data, p))
                        && drv.calls == old(drv.calls) && drv.mark == |drv.calls|
    ensures r.Some? ==> && Rests(drv) && now.stage == Start && drv.mark == old(drv.mark)
                        && drv.calls == old(drv.calls) + [Call(request % 16, data, p)]
                        && r.value == LineReply(drv.engine.line, drv.base, drv.calls)
    ensures MovesOn(old(MovesLeft(drv, st)), old(drv.engine.cycles),
                    if r.None? then MovesLeft(drv, now) else FreshMoves(drv), drv.engine.cycles)
  {
    hide Engine.Busy, RequestCycles, RequestOps, DataCycles, DataOps, TargetAck, WaveOf, Progress, HwInv, Sent,
         LineReply, Plan.Ops, PlanUnderway;
    ghost var c := Call(request % 16, data, p);
    ghost var o, line := drv.engine.origin, drv.engine.line;
    ghost var wave := WaveOf(line, drv.base, drv.calls);
    now := st;
    while true
      invariant InFlight(drv, now, c) && drv.calls == old(drv.calls) && drv.mark == old(drv.mark)
      invariant MovesOn(old(MovesLeft(drv, st)), old(drv.engine.cycles), MovesLeft(drv, now), drv.engine.cycles)
      decreases match now.stage case Start => 2 case Request => 1 case Data => 0
    {
      match now.stage {
        case Start =>
          if drv.run >= YIELD_EVERY {
            drv.run := 0;
            var lanes := drv.ActiveLanes();
            if lanes > 1 {
              drv.Yield();
              return None, now;
            }
          }
          now := BeginRequest(drv, now, request, data, p);
        case Request =>
          var done;
          done, now := RunPlan(drv, now, wave, RequestOps(o, c.request, p.turnaround));
          if !done {
            drv.Yield();
            return None, now;
          }
          now := BeginData(drv, now, request, data, p);
        case Data =>
          var done;
          done, now := RunPlan(drv, now, wave + RequestCycles(line, |wave|, c.request, p), DataOps(o, now.ack, c));
          if !done {
            drv.Yield();
            return None, now;
          }
          var t;
          now, t := Complete(drv, now, request, data, p);
          return Some(t), now;
      }
    }
  }

  // Retries

  /** The sequential loop ends with the attempt the future ends with. */
  lemma AttemptLast(
    line: Line, base: seq<Cycle>, calls: seq<Call>, request: u8, data: u32, p: Params, retries: nat,
    after: seq<Call>, t: Transfer)
    requires after == calls + [Call(request % 16, data, p)] && t == LineReply(line, base, after)
    requires t.ack != WAIT || retries == 0
    ensures SeqRetry(LineEnv(line, base), calls, request, data, p, retries) == (after, t)
  {
    hide LineReply;
  }

  /** The sequential loop goes on after the attempt the future goes on after. */
  lemma AttemptAgain(
    line: Line, base: seq<Cycle>, calls: seq<Call>, request: u8, data: u32, p: Params, retries: nat, after: seq<Call>)
    requires after == calls + [Call(request % 16, data, p)]
    requires LineReply(line, base, after).ack == WAIT && retries > 0
    ensures SeqRetry(LineEnv(line, base), calls, request, data, p, retries)
         == SeqRetry(LineEnv(line, base), after, request, data, p, retries - 1)
  {
    hide LineReply;
  }

  /** An attempt in flight and how many may still follow it. */
  datatype RetryState = RetryState(xfer: TransferState, retry: nat)

  /** Of a transfer whose attempts began at history `from`, those made so far are the
      sequential loop's. */
  ghost predicate RetryInFlight(
    drv: PioSwd, st: RetryState, from: seq<Call>, request: u8, data: u32, p: Params, waitRetries: nat)
    reads drv, drv.engine
  {
    && InFlight(drv, st.xfer, Call(request % 16, data, p))
    && SeqRetry(LineEnv(drv.engine.line, drv.base), from, request, data, p, waitRetries)
    == SeqRetry(LineEnv(drv.engine.line, drv.base), drv.calls, request, data, p, st.retry)
  }

  lemma RestsInFlight(drv: PioSwd, st: TransferState, c: Call)
    requires Rests(drv) && st.stage == Start && ValidParams(c.params)
    ensures InFlight(drv, st, c)
  {
  }

  lemma ParamsInFlight(drv: PioSwd, st: TransferState, c: Call)
    requires InFlight(drv, st, c)
    ensures ValidParams(c.params)
  {
  }

  lemma FreshRetry(drv: PioSwd, st: RetryState, request: u8, data: u32, p: Params)
    requires Rests(drv) && st.xfer.stage == Start && ValidParams(p)
    ensures RetryInFlight(drv, st, drv.calls, request, data, p, st.retry)
  {
  }

  ghost function RetryMoves(drv: PioSwd, st: RetryState): nat
    reads drv, drv.engine
  {
    MovesLeft(drv, st.xfer) + TRANSFER_MOVES * st.retry
  }

  datatype Attempt = Blocked | Again | Done(t: Transfer)

  /** One pass of the retry loop. */
  method PollAttempt(
    drv: PioSwd, st: RetryState, ghost from: seq<Call>, request: u8, data: u32, p: Params, waitRetries: u16)
    returns (a: Attempt, now: RetryState)
    requires RetryInFlight(drv, st, from, request, data, p, waitRetries)
    modifies drv, drv.engine
    ensures drv.Valid()
    ensures !a.Done? ==> RetryInFlight(drv, now, from, request, data, p, waitRetries)
    ensures a.Blocked? ==> drv.mark == |drv.calls|
    ensures !a.Blocked? ==> drv.mark == old(drv.mark)
    ensures a.Again? ==> now.retry < st.retry
    ensures a.Done? ==>
              && Rests(drv) && now.xfer.stage == Start && now.retry == waitRetries
              && (drv.calls, a.t) == SeqRetry(LineEnv(drv.engine.line, drv.base), from, request, data, p, waitRetries)
    ensures MovesOn(old(RetryMoves(drv, st)), old(drv.engine.cycles),
                    if a.Done? then FreshMoves(drv) else RetryMoves(drv, now), drv.engine.cycles)
  {
    hide Engine.Busy, Engine.Valid, WaveOf, LineReply, LineEnv, SeqRetry, InFlight, Rests;
    ghost var line, base, calls := drv.engine.line, drv.base, drv.calls;
    ParamsInFlight(drv, st.xfer, Call(request % 16, data, p));
    var t, xfer := PollTransfer(drv, st.xfer, request, data, p);
    if t.None? {
      return Blocked, RetryState(xfer, st.retry);
    }
    if t.value.ack == WAIT && st.retry > 0 {
      AttemptAgain(line, base, calls, request, data, p, st.retry, drv.calls);
      RestsInFlight(drv, xfer, Call(request % 16, data, p));
      return Again, RetryState(xfer, st.retry - 1);
    }
    AttemptLast(line, base, calls, request, data, p, st.retry, drv.calls, t.value);
    return Done(t.value), RetryState(xfer, waitRetries);
  }

  /** Like `PollTransfer`, retrying on WAIT; the budget is reset on `Ready`. */
  method PollRetry(
    drv: PioSwd, st: RetryState, ghost from: seq<Call>, request: u8, data: u32, p: Params, waitRetries: u16)
    returns (r: Option<Transfer>, now: RetryState)
    requires RetryInFlight(drv, st, from, request, data, p, waitRetries)
    modifies drv, drv.engine
    ensures drv.Valid()
    ensures r.None? ==> RetryInFlight(drv, now, from, request, data, p, waitRetries) && drv.mark == |drv.calls|
    ensures r.Some? ==>
              && Rests(drv) && now.xfer.stage == Start && now.retry == waitRetries && drv.mark == old(drv.mark)
              && (drv.calls, r.value)
              == SeqRetry(LineEnv(drv.engine.line, drv.base), from, request, data, p, waitRetries)
    ensures MovesOn(old(RetryMoves(drv, st)), old(drv.engine.cycles),
                    if r.Some? then FreshMoves(drv) else RetryMoves(drv, now), drv.engine.cycles)
  {
    hide RetryMoves, FreshMoves, RetryInFlight, Rests, LineEnv, SeqRetry, PioSwd.Valid;
    now := st;
    while true
      invariant RetryInFlight(drv, now, from, request, data, p, waitRetries) && drv.mark == old(drv.mark)
      invariant MovesOn(old(RetryMoves(drv, st)), old(drv.engine.cycles), RetryMoves(drv, now), drv.engine.cycles)
      decreases now.retry
    {
      var a;
      a, now := PollAttempt(drv, now, from, request, data, p, waitRetries);
      match a
      case Blocked => return None, now;
      case Again =>
      case Done(t) => return Some(t), now;
    }
  }

  // Blocks

  /** Moves for a word of a block, with all its retries. */
  function WordMoves(waitRetries: nat): nat {
    TRANSFER_MOVES * (waitRetries + 1)
  }

  lemma FreshWord(drv: PioSwd, st: RetryState)
    requires st.xfer.stage == Start
    ensures RetryMoves(drv, st) == FreshMoves(drv) + WordMoves(st.retry)
  {
  }

  /** Moves for `n` words. */
  function WordsMoves(waitRetries: nat, n: nat): nat {
    if n == 0 then 0 else WordMoves(waitRetries) + WordsMoves(waitRetries, n - 1)
  }

  /** The sequential loop, once its posting read has been answered. */
  lemma PostAnswered(
    env: Env, p: Params, retries: nat, request: u8, calls: seq<Call>, total: nat, after: seq<Call>, t: Transfer)
    requires total > 0 && IsAp(request) && SeqRetry(env, calls, request, 0, p, retries) == (after, t)
    ensures SeqReadBlock(env, p, retries, request, calls, total)
         == if t.ack != OK then Block(after, [], 0, t.ack)
            else ReadWords(env, p, retries, request, Block(after, [], 0, OK), total)
  {
  }

  /** The sequential loop, once a word's read has been answered. */
  lemma WordAnswered(
    env: Env, p: Params, retries: nat, request: u8, b: Block, total: nat, after: seq<Call>, t: Transfer)
    requires b.count < total
    requires var rv := if IsAp(request) && b.count + 1 == total then RDBUFF_READ else request;
             SeqRetry(env, b.calls, rv, 0, p, retries) == (after, t)
    ensures ReadWords(env, p, retries, request, b, total)
         == if t.ack != OK then Block(after, b.words, b.count, t.ack)
            else ReadWords(env, p, retries, request, Block(after, b.words + [t.data], b.count + 1, OK), total)
  {
  }

  /** A block read in flight; `Goal` is the sequential block it becomes. */
  class ReadBlockFuture {
    const drv: PioSwd
    const request: u8
    const params: Params
    const waitRetries: u16
    const out: array<u8>
    const count: u16
    /** How many words are stored; nothing before an AP has its first read posted. */
    var next: Option<nat>
    var st: RetryState
    /** The attempts before the block, those before the transfer in flight, what `out`
        held, and the words stored in it since. */
    ghost const before: seq<Call>
    ghost var from: seq<Call>
    ghost const was: seq<u8>
    ghost var words: seq<u32>

    /** The sequential loop's block from `before` on. */
    ghost function Goal(): Block {
      SeqReadBlock(LineEnv(drv.engine.line, drv.base), params, waitRetries, request, before, count)
    }

    /** What is left of it. */
    ghost function Rest(): Block
      requires next.Some?
      reads this
    {
      ReadWords(LineEnv(drv.engine.line, drv.base), params, waitRetries, request,
                Block(from, words, next.value, OK), count)
    }

    /** Words still to come after the one in flight. */
    function WordsAfter(): nat
      reads this
    {
      match next
      case None => count
      case Some(i) => if i < count then count - 1 - i else 0
    }

    ghost function Moves(): nat
      reads this, drv, drv.engine
    {
      RetryMoves(drv, st) + WordsMoves(waitRetries, WordsAfter())
    }

    function WordRequest(): u8
      reads this
    {
      if next.Some? && IsAp(request) && next.value + 1 == count then RDBUFF_READ else request
    }

    ghost predicate Valid()
      reads this, out, drv, drv.engine
    {
      && 0 < count && 4 * count <= out.Length == |was| && ValidParams(params)
      && 4 * |words| <= |was| && out[..] == Overlay(was, 0, LeBytes(words))
      && RetryInFlight(drv, st, from, WordRequest(), 0, params, waitRetries)
      && match next
         case None => IsAp(request) && words == [] && from == before
         case Some(i) => i == |words| < count && Goal() == Rest()
    }

    constructor (drv: PioSwd, request: u8, params: Params, waitRetries: u16, out: array<u8>)
      requires Rests(drv) && ValidParams(params) && 4 <= out.Length && out.Length / 4 < 0x1_0000
      ensures Valid() && this.drv == drv && this.request == request && this.params == params
      ensures this.waitRetries == waitRetries && this.out == out && count == out.Length / 4
      ensures before == drv.calls && was == out[..]
      ensures Moves() <= FreshMoves(drv) + WordsMoves(waitRetries, count + 1)
    {
      hide FreshMoves, RetryMoves, WordMoves, Overlay, LeBytes, LineEnv, InFlight, SeqRetry, ReadWords, Rests;
      this.drv, this.request, this.params, this.waitRetries, this.out := drv, request, params, waitRetries, out;
      count := out.Length / 4;
      next := if IsAp(request) then None else Some(0);
      st := RetryState(NEW_TRANSFER, waitRetries);
      before, from, was, words := drv.calls, drv.calls, out[..], [];
      new;
      OverlayNothing(was, 0);
      FreshRetry(drv, st, WordRequest(), 0, params);
      FreshWord(drv, st);
    }

    /** The AP read is posted; on to the first word. */
    method Post()
      requires 0 < count && 4 * count <= out.Length == |was| && ValidParams(params)
      requires next.None? && IsAp(request) && words == [] && Rests(drv)
      requires out[..] == Overlay(was, 0, LeBytes(words))
      requires st.xfer.stage == Start && st.retry == waitRetries
      requires Goal() == ReadWords(LineEnv(drv.engine.line, drv.base), params, waitRetries, request,
                                   Block(drv.calls, [], 0, OK), count)
      modifies this
      ensures Valid() && next == Some(0)
      ensures Moves() <= FreshMoves(drv) + WordsMoves(waitRetries, old(WordsAfter()))
    {
      hide FreshMoves, RetryMoves, WordMoves, Overlay, LeBytes, LineEnv, InFlight, SeqRetry, SeqReadBlock, ReadWords;
      next := Some(0);
      from := drv.calls;
      FreshRetry(drv, st, WordRequest(), 0, params);
      FreshWord(drv, st);
    }

    /** One more word has come; `done` after the last. */
    method Store(data: u32) returns (done: bool)
      requires 0 < count && 4 * count <= out.Length == |was| && ValidParams(params)
      requires next.Some? && next.value == |words| < count && Rests(drv)
      requires out[..] == Overlay(was, 0, LeBytes(words))
      requires st.xfer.stage == Start && st.retry == waitRetries
      requires Goal() == ReadWords(LineEnv(drv.engine.line, drv.base), params, waitRetries, request,
                                   Block(drv.calls, words + [data], next.value + 1, OK), count)
      modifies this, out
      ensures !done ==> Valid() && next == Some(old(next).value + 1)
      ensures !done ==> Moves() <= FreshMoves(drv) + WordsMoves(waitRetries, old(WordsAfter()))
      ensures done ==> && Goal() == Block(drv.calls, words, count, OK)
                       && out[..] == Overlay(was, 0, LeBytes(words)) && |words| == count
    {
      hide FreshMoves, RetryMoves, WordMoves, Overlay, LeBytes, LineEnv, InFlight, SeqRetry;
      var i := next.value;
      PutWord(out, 4 * i, data);
      OverlayMore(was, 0, LeBytes(words), Le32(data));
      LeBytesSnoc(words, data);
      words := words + [data];
      from := drv.calls;
      done := i + 1 == count;
      if !done {
        next := Some(i + 1);
        FreshRetry(drv, st, WordRequest(), 0, params);
        FreshWord(drv, st);
      }
    }

    method Poll() returns (r: Option<(u16, u8)>)
      requires Valid()
      modifies this, out, drv, drv.engine
      ensures drv.alone || |drv.calls| - drv.mark <= 8
      ensures r.Some? ==> drv.mark == old(drv.mark)
      ensures r.None? ==> Valid() && drv.mark == |drv.calls|
      ensures r.Some? ==>
                && Rests(drv) && drv.calls == Goal().calls
                && r.value == (Goal().count, Goal().status)
                && 4 * |Goal().words| <= |was| && out[..] == Overlay(was, 0, LeBytes(Goal().words))
      ensures r.None? ==> MovesOn(old(Moves()), old(drv.engine.cycles), Moves(), drv.engine.cycles)
    {
      hide FreshMoves, RetryMoves, WordMoves, Overlay, LeBytes, LineEnv, InFlight, SeqRetry, ReadWords,
           SeqReadBlock, Rests, Engine.Valid;
      ghost var env := LineEnv(drv.engine.line, drv.base);
      while true
        invariant Valid() && drv.mark == old(drv.mark)
        invariant MovesOn(old(Moves()), old(drv.engine.cycles), Moves(), drv.engine.cycles)
        decreases if next.None? then count + 1 else count - next.value
      {
        ghost var attempts := from;
        var t;
        t, st := PollRetry(drv, st, from, WordRequest(), 0, params, waitRetries);
        if t.None? {
          return None;
        }
        match next
        case None =>
          PostAnswered(env, params, waitRetries, request, before, count, drv.calls, t.value);
          if t.value.ack != OK {
            return Some((0, t.value.ack));
          }
          Post();
        case Some(i) =>
          WordAnswered(env, params, waitRetries, request, Block(attempts, words, i, OK), count, drv.calls, t.value);
          if t.value.ack != OK {
            return Some((i, t.value.ack));
          }
          var done := Store(t.value.data);
          if done {
            return Some((count, OK));
          }
      }
    }
  }

  /** The sequential loop, once a word's write has been answered. */
  lemma WriteAnswered(
    env: Env, p: Params, retries: nat, request: u8, b: Block, words: seq<u32>, after: seq<Call>, t: Transfer)
    requires b.count < |words| && SeqRetry(env, b.calls, request, words[b.count], p, retries) == (after, t)
    ensures WriteWords(env, p, retries, request, b, words)
         == if t.ack != OK then Block(after, b.words, b.count, t.ack)
            else WriteWords(env, p, retries, request, Block(after, b.words, b.count + 1, OK), words)
  {
  }

  /** The sequential loop, once its trailing RDBUFF read has been answered. */
  lemma CheckAnswered(
    env: Env, p: Params, retries: nat, request: u8, b: Block, words: seq<u32>, after: seq<Call>, t: Transfer)
    requires b.count == |words| && SeqRetry(env, b.calls, RDBUFF_READ, 0, p, retries) == (after, t)
    ensures WriteWords(env, p, retries, request, b, words) == Block(after, b.words, b.count, t.ack)
  {
  }

  /** A block write in flight; `Goal` is the sequential block it becomes. */
  class WriteBlockFuture {
    const drv: PioSwd
    const request: u8
    const params: Params
    const waitRetries: u16
    const data: seq<u8>
    const count: u16
    /** How many words are written; the check is under way once all are. */
    var next: nat
    var st: RetryState
    ghost const before: seq<Call>
    ghost var from: seq<Call>

    ghost function Goal(): Block {
      SeqWriteBlock(LineEnv(drv.engine.line, drv.base), params, waitRetries, request, before, WordsOf(data))
    }

    ghost function Rest(): Block
      requires next <= |WordsOf(data)|
      reads this
    {
      WriteWords(LineEnv(drv.engine.line, drv.base), params, waitRetries, request,
                 Block(from, [], next, OK), WordsOf(data))
    }

    /** Transfers still to come after the one in flight, the check among them. */
    function After(): nat
      reads this
    {
      if next < count then count - next else 0
    }

    ghost function Moves(): nat
      reads this, drv, drv.engine
    {
      RetryMoves(drv, st) + WordsMoves(waitRetries, After())
    }

    function Request(): u8
      reads this
    {
      if next == count then RDBUFF_READ else request
    }

    function Word(): u32
      requires next <= count == |data| / 4
      reads this
    {
      if next == count then 0 else FromLe32(data[4 * next..4 * next + 4])
    }

    ghost predicate Valid()
      reads this, drv, drv.engine
    {
      && 0 < count == |data| / 4 && next <= count && ValidParams(params)
      && RetryInFlight(drv, st, from, Request(), Word(), params, waitRetries)
      && Goal() == Rest()
    }

    constructor (drv: PioSwd, request: u8, params: Params, waitRetries: u16, data: seq<u8>)
      requires Rests(drv) && ValidParams(params) && 4 <= |data| && |data| / 4 < 0x1_0000
      ensures Valid() && this.drv == drv && this.request == request && this.params == params
      ensures this.waitRetries == waitRetries && this.data == data && before == drv.calls
      ensures count == |data| / 4 && Moves() <= FreshMoves(drv) + WordsMoves(waitRetries, count + 1)
    {
      hide FreshMoves, RetryMoves, WordMoves, LineEnv, InFlight, SeqRetry, WriteWords, Rests, FromLe32;
      this.drv, this.request, this.params, this.waitRetries, this.data := drv, request, params, waitRetries, data;
      count := |data| / 4;
      next := 0;
      st := RetryState(NEW_TRANSFER, waitRetries);
      before, from := drv.calls, drv.calls;
      new;
      FreshRetry(drv, st, Request(), Word(), params);
      FreshWord(drv, st);
    }

    /** The word is written; on to the next, or to the check. */
    method Advance()
      requires 0 < count == |data| / 4 && next < count && ValidParams(params) && Rests(drv)
      requires st.xfer.stage == Start && st.retry == waitRetries
      requires Goal() == WriteWords(LineEnv(drv.engine.line, drv.base), params, waitRetries, request,
                                    Block(drv.calls, [], next + 1, OK), WordsOf(data))
      modifies this
      ensures Valid() && next == old(next) + 1
      ensures Moves() <= FreshMoves(drv) + WordsMoves(waitRetries, old(After()))
    {
      hide FreshMoves, RetryMoves, WordMoves, LineEnv, InFlight, SeqRetry, WriteWords, SeqWriteBlock, FromLe32;
      next := next + 1;
      from := drv.calls;
      FreshRetry(drv, st, Request(), Word(), params);
      FreshWord(drv, st);
    }

    method Poll() returns (r: Option<(u16, u8)>)
      requires Valid()
      modifies this, drv, drv.engine
      ensures drv.alone || |drv.calls| - drv.mark <= 8
      ensures r.Some? ==> drv.mark == old(drv.mark)
      ensures r.None? ==> Valid() && drv.mark == |drv.calls|
      ensures r.Some? ==>
                && Rests(drv) && drv.calls == Goal().calls
                && r.value == (Goal().count, Goal().status)
      ensures r.None? ==> MovesOn(old(Moves()), old(drv.engine.cycles), Moves(), drv.engine.cycles)
    {
      hide FreshMoves, RetryMoves, WordMoves, LineEnv, InFlight, SeqRetry, WriteWords, SeqWriteBlock, Rests,
           Engine.Valid, FromLe32;
      ghost var env, words := LineEnv(drv.engine.line, drv.base), WordsOf(data);
      while true
        invariant Valid() && drv.mark == old(drv.mark)
        invariant MovesOn(old(Moves()), old(drv.engine.cycles), Moves(), drv.engine.cycles)
        decreases count - next
      {
        ghost var b := Block(from, [], next, OK);
        var t;
        t, st := PollRetry(drv, st, from, Request(), Word(), params, waitRetries);
        if t.None? {
          return None;
        }
        if next == count {
          CheckAnswered(env, params, waitRetries, request, b, words, drv.calls, t.value);
          return Some((count, t.value.ack));
        }
        WriteAnswered(env, params, waitRetries, request, b, words, drv.calls, t.value);
        if t.value.ack != OK {
          return Some((next, t.value.ack));
        }
        Advance();
      }
    }
  }

  // The block commands, polled up to `polls` times. `idle` counts the polls during which the
  // state machine ran no cycle: in all others a block gets on, so it completes unless polls
  // or cycles run out.

  /** `read_block`: the sequential loop's block, completed within a bounded number of polls
      that find the state machine running. */
  method ReadBlock(drv: PioSwd, request: u8, out: array<u8>, params: Params, waitRetries: u16, polls: nat)
    returns (r: Option<(u16, u8)>, ghost idle: nat)
    requires Rests(drv) && ValidParams(params) && out.Length / 4 < 0x1_0000
    modifies drv, drv.engine, out
    ensures r.Some? ==>
              && var b := SeqReadBlock(LineEnv(drv.engine.line, drv.base), params, waitRetries, request,
                                       old(drv.calls), out.Length / 4);
              && Rests(drv) && drv.calls == b.calls && r.value == (b.count, b.status)
              && 4 * |b.words| <= out.Length && out[..] == Overlay(old(out[..]), 0, LeBytes(b.words))
    ensures r.None? ==> polls <= idle + old(FreshMoves(drv)) + WordsMoves(waitRetries, out.Length / 4 + 1)
  {
    hide FreshMoves, RetryMoves, WordMoves, WordsMoves, Overlay, LeBytes, LineEnv, InFlight, SeqRetry,
         ReadWords, Rests, Engine.Valid, RetryInFlight;
    OverlayNothing(out[..], 0);
    if out.Length / 4 == 0 {
      return Some((0, 0)), 0;
    }
    var f := new ReadBlockFuture(drv, request, params, waitRetries, out);
    r, idle := None, 0;
    var n := polls;
    ghost var moves := f.Moves();
    while n > 0 && r.None?
      invariant r.None? ==> f.Valid() && f.Moves() + polls - n <= moves + idle
      invariant r.Some? ==>
                  && Rests(drv) && drv.calls == f.Goal().calls
                  && r.value == (f.Goal().count, f.Goal().status)
                  && 4 * |f.Goal().words| <= |f.was| && out[..] == Overlay(f.was, 0, LeBytes(f.Goal().words))
    {
      ghost var cycles := drv.engine.cycles;
      r := f.Poll();
      n := n - 1;
      if r.None? && drv.engine.cycles == cycles {
        idle := idle + 1;
      }
    }
  }

  /** `write_block`: likewise. */
  method WriteBlock(drv: PioSwd, request: u8, data: seq<u8>, params: Params, waitRetries: u16, polls: nat)
    returns (r: Option<(u16, u8)>, ghost idle: nat)
    requires Rests(drv) && ValidParams(params) && |data| / 4 < 0x1_0000
    modifies drv, drv.engine
    ensures r.Some? ==>
              && var b := SeqWriteBlock(LineEnv(drv.engine.line, drv.base), params, waitRetries, request,
                                        old(drv.calls), WordsOf(data));
              && Rests(drv) && drv.calls == b.calls && r.value == (b.count, b.status)
    ensures r.None? ==> polls <= idle + old(FreshMoves(drv)) + WordsMoves(waitRetries, |data| / 4 + 1)
  {
    hide FreshMoves, RetryMoves, WordMoves, WordsMoves, LineEnv, InFlight, SeqRetry, WriteWords, Rests,
         Engine.Valid, FromLe32, RetryInFlight;
    if |data| / 4 == 0 {
      return Some((0, 0)), 0;
    }
    var f := new WriteBlockFuture(drv, request, params, waitRetries, data);
    r, idle := None, 0;
    var n := polls;
    ghost var moves := f.Moves();
    while n > 0 && r.None?
      invariant r.None? ==> f.Valid() && f.Moves() + polls - n <= moves + idle
      invariant r.Some? ==>
                  && Rests(drv) && drv.calls == f.Goal().calls
                  && r.value == (f.Goal().count, f.Goal().status)
    {
      ghost var cycles := drv.engine.cycles;
      r := f.Poll();
      n := n - 1;
      if r.None? && drv.engine.cycles == cycles {
        idle := idle + 1;
      }
    }
  }

  /** The wire itself never shows anything but the completed attempts, cycle by cycle;
      once the state machine waits with nothing queued, it shows them all. */
  lemma WireShowsAttempts(drv: PioSwd)
    requires Rests(drv)
    ensures var hw, wave := drv.engine.hw, WaveOf(drv.engine.line, drv.base, drv.calls);
            && Live(hw.regs) && hw.regs.wave <= wave
            && (hw.regs.At().op.Pull? && hw.tx == [] ==> hw.regs.wave == wave)
  {
    WireIsSent(drv.engine.line, drv.engine.depths, drv.engine.hw, drv.engine.done, drv.engine.got);
  }
}
