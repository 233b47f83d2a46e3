/** `DAP_Transfer` as a run over its transfer items, against any environment; and what
    that run means for a target whose AP reads are posted. */
module DapTransfer {
  import opened Words
  import opened Swd
  import opened Framing

  /** `DAP_SWD_Configure` and `DAP_TransferConfigure` settings. */
  datatype Config = Config(params: Params, waitRetries: nat, matchRetries: nat)

  /** One transfer of a request: the request byte, and the operand word it carries
      (`None` when the request is cut short before it). */
  datatype Item = Item(rv: u8, word: Option<u32>)

  datatype Phase =
    | Going
    | Stopped   // a bus cycle or a match failed
    | Failed    // the request is cut short or the reply is full

  /** A command under way: attempts made, match mask, reply words, transfers counted,
      last status, and whether an AP read is posted or a write awaits its check. */
  datatype Run = Run(
    calls: seq<Call>, mask: u32, out: seq<u32>, count: nat, status: u8,
    posted: bool, check: bool, phase: Phase)

  predicate PlainAp(rv: u8) { IsRead(rv) && IsAp(rv) && !HasMatchValue(rv) }

  function Xfer(env: Env, cfg: Config, calls: seq<Call>, rv: u8, data: u32): (seq<Call>, Transfer) {
    SeqRetry(env, calls, rv, data, cfg.params, cfg.waitRetries)
  }

  /** Append a reply word; `room` is how many the reply holds. */
  function Emit(s: Run, room: nat, w: u32): Run {
    if |s.out| < room then s.(out := s.out + [w]) else s.(phase := Failed)
  }

  function EmitStamp(env: Env, s: Run, room: nat, rv: u8): Run {
    if s.phase.Going? && HasTimestamp(rv) then Emit(s, room, env.clock(s.calls)) else s
  }

  /** Make the transfer `rv`; `Stopped` unless it is answered OK. */
  function Cycle(env: Env, cfg: Config, s: Run, rv: u8, data: u32): (Run, u32) {
    var (calls, t) := Xfer(env, cfg, s.calls, rv, data);
    (s.(calls := calls, status := t.ack, phase := if t.ack == OK then Going else Stopped), t.data)
  }

  /** Collect the posted AP read before `rv`: by posting `rv` if that is a plain AP read,
      else through RDBUFF. */
  function Collect(env: Env, cfg: Config, room: nat, s: Run, rv: u8): Run {
    if PlainAp(rv) then
      var (s1, data) := Cycle(env, cfg, s, rv, 0);
      if s1.phase.Stopped? then s1 else EmitStamp(env, Emit(s1, room, data), room, rv)
    else
      var (s1, data) := Cycle(env, cfg, s.(posted := false), RDBUFF_READ, 0);
      if s1.phase.Stopped? then s1 else Emit(s1, room, data)
  }

  /** Read until the masked value is `target`, at most `retries` further times. */
  function MatchLoop(env: Env, cfg: Config, calls: seq<Call>, mask: u32, rv: u8, target: u32, retries: nat)
    : (seq<Call>, Transfer)
    decreases retries
  {
    var (calls', t) := Xfer(env, cfg, calls, rv, 0);
    if t.ack != OK || BitAnd(t.data, mask) == target || retries == 0 then (calls', t)
    else MatchLoop(env, cfg, calls', mask, rv, target, retries - 1)
  }

  function MatchRead(env: Env, cfg: Config, s: Run, it: Item): Run {
    if it.word.None? then s.(phase := Failed)
    else
      var (s1, _) := if IsAp(it.rv) then Cycle(env, cfg, s, it.rv, 0) else (s, 0);
      if s1.phase.Stopped? then s1
      else
        var (calls, t) := MatchLoop(env, cfg, s1.calls, s1.mask, it.rv, it.word.value, cfg.matchRetries);
        var status := if t.ack == OK && BitAnd(t.data, s1.mask) != it.word.value then OK + MISMATCH else t.ack;
        s1.(calls := calls, status := status, phase := if status == OK then Going else Stopped)
  }

  /** A read's own part, any posted read before it having been collected. */
  function ReadOwn(env: Env, cfg: Config, room: nat, s: Run, it: Item): Run {
    if HasMatchValue(it.rv) then MatchRead(env, cfg, s, it)
    else if IsAp(it.rv) then
      if s.posted then s
      else
        var (s1, _) := Cycle(env, cfg, s, it.rv, 0);
        if s1.phase.Stopped? then s1
        else
          var s2 := EmitStamp(env, s1, room, it.rv);
          if s2.phase.Going? then s2.(posted := true) else s2
    else
      var (s1, data) := Cycle(env, cfg, s, it.rv, 0);
      if s1.phase.Stopped? then s1
      else
        var s2 := EmitStamp(env, s1, room, it.rv);
        if s2.phase.Going? then Emit(s2, room, data) else s2
  }

  function WriteOwn(env: Env, cfg: Config, room: nat, s: Run, it: Item): Run {
    if it.word.None? then s.(phase := Failed)
    else if HasMatchMask(it.rv) then s.(mask := it.word.value, status := OK)
    else
      var (s1, _) := Cycle(env, cfg, s, it.rv, it.word.value);
      if s1.phase.Stopped? then s1
      else
        var s2 := EmitStamp(env, s1, room, it.rv);
        if s2.phase.Going? then s2.(check := true) else s2
  }

  /** One pass of the transfer loop. */
  function Step(env: Env, cfg: Config, room: nat, s: Run, it: Item): Run {
    var s1 := if s.posted then Collect(env, cfg, room, s, it.rv) else s;
    if !s1.phase.Going? then s1
    else
      var s2 := if IsRead(it.rv) then ReadOwn(env, cfg, room, s1, it) else WriteOwn(env, cfg, room, s1, it);
      if !s2.phase.Going? then s2
      else s2.(count := s2.count + 1, check := if IsRead(it.rv) then false else s2.check)
  }

  function RunItems(env: Env, cfg: Config, room: nat, s: Run, items: seq<Item>): Run
    decreases |items|
  {
    if items == [] || !s.phase.Going? then s
    else RunItems(env, cfg, room, Step(env, cfg, room, s, items[0]), items[1..])
  }

  function Begin(calls: seq<Call>, mask: u32): Run {
    Run(calls, mask, [], 0, 0, false, false, Going)
  }

  /** After the last transfer: collect the posted read, or have the last write complete. */
  function Finish(env: Env, cfg: Config, room: nat, s: Run): Run {
    if s.phase.Failed? || s.status != OK then s
    else if s.posted then
      var (s1, data) := Cycle(env, cfg, s, RDBUFF_READ, 0);
      if s1.phase.Stopped? then s1 else Emit(s1, room, data)
    else if s.check then Cycle(env, cfg, s, RDBUFF_READ, 0).0
    else s
  }

  /** The end of a `DAP_Transfer` on `items`. */
  function Transferred(env: Env, cfg: Config, room: nat, calls: seq<Call>, mask: u32, items: seq<Item>): Run {
    Finish(env, cfg, room, RunItems(env, cfg, room, Begin(calls, mask), items))
  }

  lemma {:induction false} RunSnoc(env: Env, cfg: Config, room: nat, s: Run, items: seq<Item>, it: Item)
    ensures var r := RunItems(env, cfg, room, s, items);
            RunItems(env, cfg, room, s, items + [it]) == if r.phase.Going? then Step(env, cfg, room, r, it) else r
    decreases |items|
  {
    if items == [] {
      assert [it][1..] == [];
    } else if s.phase.Going? {
      assert (items + [it])[0] == items[0] && (items + [it])[1..] == items[1..] + [it];
      RunSnoc(env, cfg, room, Step(env, cfg, room, s, items[0]), items[1..], it);
    }
  }

  /** A posted AP read and an unchecked write are never both outstanding. */
  lemma {:induction false} PostedOrCheck(env: Env, cfg: Config, room: nat, s: Run, items: seq<Item>)
    requires !(s.posted && s.check)
    ensures var r := RunItems(env, cfg, room, s, items); !(r.phase.Going? && r.posted && r.check)
    decreases |items|
  {
    if items != [] && s.phase.Going? {
      var s' := Step(env, cfg, room, s, items[0]);
      if s'.phase.Going? {
        PostedOrCheck(env, cfg, room, s', items[1..]);
      } else {
        assert RunItems(env, cfg, room, s', items[1..]) == s';
      }
    }
  }

  // The target

  /** What a transfer does to the target; reading RDBUFF does nothing. */
  datatype Access = ApRead(reg: u8) | ApWrite(reg: u8, data: u32) | DpRead(reg: u8) | DpWrite(reg: u8, data: u32)

  /** A target with a one-word read buffer: `buffer` is what the buffer holds, `dp` what a
      DP register read returns, after a history of accesses. */
  datatype Target = Target(buffer: seq<Access> -> u32, dp: seq<Access> -> u32)

  /** A read of DP address 0xC, the read buffer. */
  predicate ReadsBuffer(rv: u8) { IsRead(rv) && !IsAp(rv) && HasA2(rv) && HasA3(rv) }

  function Accesses(rv: u8, data: u32): seq<Access> {
    var reg := rv % 16;
    if ReadsBuffer(rv) then []
    else if IsRead(rv) then (if IsAp(rv) then [ApRead(reg)] else [DpRead(reg)])
    else (if IsAp(rv) then [ApWrite(reg, data)] else [DpWrite(reg, data)])
  }

  /** What an OK read returns: an AP read and RDBUFF the buffer as it stood before. */
  function Returned(tgt: Target, log: seq<Access>, rv: u8): u32 {
    if IsAp(rv) || ReadsBuffer(rv) then tgt.buffer(log) else tgt.dp(log + [DpRead(rv % 16)])
  }

  /** The target took the attempt: a read is only reported as ERROR once it was acknowledged
      OK and its data arrived damaged. */
  predicate Taken(ack: u8, request: u8) {
    ack == OK || (ack == ERROR && IsRead(request))
  }

  /** The accesses made by the attempts after the first `base`. */
  function Log(env: Env, base: nat, calls: seq<Call>): seq<Access> {
    if |calls| <= base then []
    else
      var front, last := calls[..|calls| - 1], calls[|calls| - 1];
      Log(env, base, front) + if Taken(env.reply(calls).ack, last.request) then Accesses(last.request, last.data) else []
  }

  /** The access of the last attempt, if that was a read whose data arrived damaged. */
  function Damaged(env: Env, base: nat, calls: seq<Call>): seq<Access> {
    if |calls| <= base then []
    else
      var last := calls[|calls| - 1];
      if env.reply(calls).ack == ERROR && IsRead(last.request) then Accesses(last.request, last.data) else []
  }

  /** Every attempt after the first `base` was answered OK or WAIT. */
  predicate Unbroken(env: Env, base: nat, calls: seq<Call>) {
    forall i :: base < i <= |calls| ==> env.reply(calls[..i]).ack == OK || env.reply(calls[..i]).ack == WAIT
  }

  /** No attempt after the first `base` was answered OK. */
  predicate NoneOk(env: Env, base: nat, calls: seq<Call>) {
    forall i :: base < i <= |calls| ==> env.reply(calls[..i]).ack != OK
  }

  /** Of the attempts made since `base`, as long as nothing had failed, the OK reads
      returned what the target posts. */
  ghost predicate PostsReads(env: Env, tgt: Target, base: nat, made: seq<Call>) {
    forall i {:trigger made[i]} ::
      (base <= i < |made| && Unbroken(env, base, made[..i])
       && env.reply(made[..i + 1]).ack == OK && IsRead(made[i].request))
      ==> env.reply(made[..i + 1]).data == Returned(tgt, Log(env, base, made[..i]), made[i].request)
  }

  /** The accesses of a history whose ACKs are `acks`. */
  function AckedLog(acks: seq<Call> -> u8, calls: seq<Call>): seq<Access> {
    if calls == [] then []
    else
      var front, last := calls[..|calls| - 1], calls[|calls| - 1];
      AckedLog(acks, front) + if Taken(acks(calls), last.request) then Accesses(last.request, last.data) else []
  }

  /** A device since power-up: its attempts end in any way, and the reads it takes return
      what its whole history of accesses makes of them. */
  function DeviceEnv(device: Target, acks: seq<Call> -> u8, clock: seq<Call> -> u32): Env {
    Env((calls: seq<Call>) => if calls == [] then Transfer(0, 0)
                 else
                   Transfer(acks(calls), DeviceData(device, acks, calls[..|calls| - 1], calls[|calls| - 1])),
        clock)
  }

  function DeviceData(device: Target, acks: seq<Call> -> u8, before: seq<Call>, c: Call): u32 {
    if IsRead(c.request) && Taken(acks(before + [c]), c.request) then
      Returned(device, AckedLog(acks, before), c.request)
    else 0
  }

  /** The device as a target from a point of its history on. */
  function Since(device: Target, past: seq<Access>): Target {
    Target(log => device.buffer(past + log), log => device.dp(past + log))
  }

  lemma {:induction false} LogSince(
    device: Target, acks: seq<Call> -> u8, clock: seq<Call> -> u32, base: nat, calls: seq<Call>)
    requires base <= |calls|
    ensures AckedLog(acks, calls) == AckedLog(acks, calls[..base]) + Log(DeviceEnv(device, acks, clock), base, calls)
    decreases |calls|
  {
    hide Accesses, DeviceEnv, DeviceData;
    if |calls| == base {
      assert calls[..base] == calls;
    } else {
      var front, last := calls[..|calls| - 1], calls[|calls| - 1];
      LogSince(device, acks, clock, base, front);
      assert front[..base] == calls[..base] && calls == front + [last];
      DeviceReply(device, acks, clock, front, last);
    }
  }

  lemma DeviceReply(device: Target, acks: seq<Call> -> u8, clock: seq<Call> -> u32, before: seq<Call>, c: Call)
    ensures DeviceEnv(device, acks, clock).reply(before + [c])
         == Transfer(acks(before + [c]), DeviceData(device, acks, before, c))
  {
    hide DeviceData;
    var made := before + [c];
    assert made[..|made| - 1] == before && made[|made| - 1] == c;
  }

  lemma SinceReturns(device: Target, past: seq<Access>, log: seq<Access>, rv: u8)
    ensures Returned(Since(device, past), log, rv) == Returned(device, past + log, rv)
  {
    assert past + log + [DpRead(rv % 16)] == past + (log + [DpRead(rv % 16)]);
  }

  lemma DevicePosts(
    device: Target, acks: seq<Call> -> u8, clock: seq<Call> -> u32, calls: seq<Call>, before: seq<Call>, c: Call)
    requires calls <= before && acks(before + [c]) == OK && IsRead(c.request)
    ensures var env, past := DeviceEnv(device, acks, clock), AckedLog(acks, calls);
            env.reply(before + [c]).data == Returned(Since(device, past), Log(env, |calls|, before), c.request)
  {
    hide AckedLog, Log, Returned, DeviceEnv, Since;
    LogSince(device, acks, clock, |calls|, before);
    assert before[..|calls|] == calls;
    DeviceReply(device, acks, clock, before, c);
    SinceReturns(device, AckedLog(acks, calls), Log(DeviceEnv(device, acks, clock), |calls|, before), c.request);
  }

  /** Every device with memory, whatever was done to it before, posts its reads. */
  lemma DevicesPost(device: Target, acks: seq<Call> -> u8, clock: seq<Call> -> u32, calls: seq<Call>, made: seq<Call>)
    requires calls <= made
    ensures PostsReads(DeviceEnv(device, acks, clock), Since(device, AckedLog(acks, calls)), |calls|, made)
  {
    hide Unbroken, Accesses, AckedLog, Log, Returned, DeviceEnv, Since;
    forall i | |calls| <= i < |made| ensures made[..i + 1] == made[..i] + [made[i]] && calls <= made[..i] {
    }
    forall i | |calls| <= i < |made| && DeviceEnv(device, acks, clock).reply(made[..i + 1]).ack == OK && IsRead(made[i].request)
      ensures DeviceEnv(device, acks, clock).reply(made[..i + 1]).data
           == Returned(Since(device, AckedLog(acks, calls)),
                       Log(DeviceEnv(device, acks, clock), |calls|, made[..i]), made[i].request)
    {
      DeviceReply(device, acks, clock, made[..i], made[i]);
      DevicePosts(device, acks, clock, calls, made[..i], made[i]);
    }
  }

  // The simple executor

  /** A direct execution: accesses made, match mask, reply so far, and whether every
      match was found. */
  datatype Simple = Simple(log: seq<Access>, mask: u32, out: seq<u32>, matched: bool)

  /** Reads the register until its value agrees with `target` under the mask; an AP register's value comes
      with the read after, so one read more than values compared is made. */
  function SimpleMatch(tgt: Target, log: seq<Access>, mask: u32, rv: u8, target: u32, retries: nat): (seq<Access>, bool)
    decreases retries
  {
    var log' := log + Accesses(rv, 0);
    if AgreesUnder(Returned(tgt, log, rv), mask, target) then (log', true)
    else if retries == 0 then (log', false)
    else SimpleMatch(tgt, log', mask, rv, target, retries - 1)
  }

  predicate Complete(it: Item) {
    it.word.Some? || (IsRead(it.rv) && !HasMatchValue(it.rv))
  }

  /** Each read is made and its own value returned before anything else happens; `stamp`
      is the timer when the transfer's bus cycle was over. */
  function SimpleStep(tgt: Target, retries: nat, s: Simple, it: Item, stamp: u32): Simple
    requires Complete(it)
  {
    var stamps := if HasTimestamp(it.rv) then [stamp] else [];
    if IsRead(it.rv) then
      var log := s.log + Accesses(it.rv, 0);
      if HasMatchValue(it.rv) then
        var (log', found) := SimpleMatch(tgt, if IsAp(it.rv) then log else s.log, s.mask, it.rv, it.word.value, retries);
        s.(log := log', matched := s.matched && found)
      else
        s.(log := log, out := s.out + stamps + [if IsAp(it.rv) then tgt.buffer(log) else Returned(tgt, s.log, it.rv)])
    else if HasMatchMask(it.rv) then s.(mask := it.word.value)
    else s.(log := s.log + Accesses(it.rv, it.word.value), out := s.out + stamps)
  }

  /** The simple execution of `items`, `stamps` giving the timer for each. */
  function SimpleRun(tgt: Target, retries: nat, s: Simple, items: seq<Item>, stamps: seq<u32>): Simple
    requires |stamps| == |items| && forall it :: it in items ==> Complete(it)
  {
    if items == [] then s
    else
      var n := |items| - 1;
      SimpleStep(tgt, retries, SimpleRun(tgt, retries, s, items[..n], stamps[..n]), items[n], stamps[n])
  }

  // One transfer

  lemma LowNibble(rv: u8, data: u32)
    ensures var low: u8 := rv % 16;
            && IsAp(low) == IsAp(rv) && IsRead(low) == IsRead(rv) && low % 16 == low
            && ReadsBuffer(low) == ReadsBuffer(rv) && Accesses(low, data) == Accesses(rv, data)
  {
    var q, low := rv / 16, rv % 16;
    assert rv == 16 * q + low;
    assert rv / 2 == 8 * q + low / 2;
    assert rv / 4 == 4 * q + low / 4;
    assert rv / 8 == 2 * q + low / 8;
  }

  lemma ReturnedLow(tgt: Target, log: seq<Access>, rv: u8)
    ensures Returned(tgt, log, rv % 16) == Returned(tgt, log, rv)
  {
    hide ReadsBuffer, IsAp, IsRead;
    LowNibble(rv, 0);
  }

  /** An attempt answered WAIT breaks nothing and does nothing. */
  lemma WaitLogs(env: Env, base: nat, calls: seq<Call>, c: Call)
    requires base <= |calls| && env.reply(calls + [c]).ack == WAIT
    ensures Log(env, base, calls + [c]) == Log(env, base, calls)
    ensures Unbroken(env, base, calls) ==> Unbroken(env, base, calls + [c])
  {
    assert (calls + [c])[..|calls|] == calls;
    assert forall i :: 0 <= i <= |calls| ==> (calls + [c])[..i] == calls[..i];
    assert (calls + [c])[..|calls| + 1] == calls + [c];
  }

  /** An OK transfer makes its access once, however many attempts it took, and so does a read
      whose data arrived damaged; any other makes none. */
  lemma {:induction false} XferLogs(env: Env, base: nat, calls: seq<Call>, rv: u8, data: u32, p: Params, retries: nat)
    requires base <= |calls|
    ensures var (after, t) := SeqRetry(env, calls, rv, data, p, retries);
            && calls <= after && |calls| < |after| && t == env.reply(after)
            && Log(env, base, after) == Log(env, base, calls) + (if Taken(t.ack, rv) then Accesses(rv, data) else [])
            && Damaged(env, base, after) == (if t.ack == ERROR && IsRead(rv) then Accesses(rv, data) else [])
            && (t.ack != OK ==> NoneOk(env, |calls|, after))
            && (t.ack == OK && Unbroken(env, base, calls) ==> Unbroken(env, base, after))
    decreases retries
  {
    LowNibble(rv, data);
    var calls' := calls + [Call(rv % 16, data, p)];
    var t := env.reply(calls');
    assert calls'[..|calls|] == calls && calls'[..|calls'|] == calls';
    assert forall i :: 0 <= i <= |calls| ==> calls'[..i] == calls[..i];
    if t.ack == WAIT && retries > 0 {
      XferLogs(env, base, calls', rv, data, p, retries - 1);
      var (after, t') := SeqRetry(env, calls', rv, data, p, retries - 1);
      assert after[..|calls'|] == calls';
      assert Log(env, base, calls') == Log(env, base, calls);
    }
  }

  /** And an OK read returns what the target posts. */
  lemma {:induction false} XferPosts(
    env: Env, tgt: Target, base: nat, made: seq<Call>, calls: seq<Call>, rv: u8, data: u32, p: Params, retries: nat)
    requires base <= |calls| && Unbroken(env, base, calls)
    requires PostsReads(env, tgt, base, made) && SeqRetry(env, calls, rv, data, p, retries).0 <= made
    ensures var (after, t) := SeqRetry(env, calls, rv, data, p, retries);
            t.ack == OK && IsRead(rv) ==> t.data == Returned(tgt, Log(env, base, calls), rv)
    decreases retries
  {
    hide Log, Accesses, Returned, IsAp, ReadsBuffer, IsRead;
    LowNibble(rv, data);
    ReturnedLow(tgt, Log(env, base, calls), rv);
    var calls' := calls + [Call(rv % 16, data, p)];
    var t := env.reply(calls');
    XferLogs(env, base, calls, rv, data, p, retries);
    if t.ack == WAIT && retries > 0 {
      WaitLogs(env, base, calls, Call(rv % 16, data, p));
      XferPosts(env, tgt, base, made, calls', rv, data, p, retries - 1);
    } else {
      assert made[..|calls|] == calls && made[..|calls| + 1] == calls' && made[|calls|] == calls'[|calls|];
    }
  }

  // The pipeline

  /** The run has made exactly the simple execution's accesses and emitted its reply, all
      but the value still in the read buffer if an AP read is posted. */
  ghost predicate Tracks(env: Env, tgt: Target, base: nat, s: Run, sim: Simple) {
    && base <= |s.calls| && Unbroken(env, base, s.calls)
    && Log(env, base, s.calls) == sim.log && s.mask == sim.mask && sim.matched
    && sim.out == s.out + (if s.posted then [tgt.buffer(sim.log)] else [])
    && !(s.posted && s.check)
  }

  // Attempts are only ever added

  lemma CycleGrows(env: Env, cfg: Config, s: Run, rv: u8, data: u32)
    ensures s.calls <= Cycle(env, cfg, s, rv, data).0.calls && !Cycle(env, cfg, s, rv, data).0.phase.Failed?
  {
    hide SeqRetry;
    RetryAttempts(env, s.calls, rv, data, cfg.params, cfg.waitRetries);
  }

  lemma CollectGrows(env: Env, cfg: Config, room: nat, s: Run, rv: u8)
    ensures s.calls <= Collect(env, cfg, room, s, rv).calls
  {
    hide Cycle;
    CycleGrows(env, cfg, s, rv, 0);
    CycleGrows(env, cfg, s.(posted := false), RDBUFF_READ, 0);
  }

  lemma {:induction false} MatchLoopGrows(
    env: Env, cfg: Config, calls: seq<Call>, mask: u32, rv: u8, target: u32, retries: nat)
    ensures calls <= MatchLoop(env, cfg, calls, mask, rv, target, retries).0
    ensures Xfer(env, cfg, calls, rv, 0).0 <= MatchLoop(env, cfg, calls, mask, rv, target, retries).0
    decreases retries
  {
    hide SeqRetry, BitAnd;
    RetryAttempts(env, calls, rv, 0, cfg.params, cfg.waitRetries);
    if retries > 0 { MatchLoopGrows(env, cfg, Xfer(env, cfg, calls, rv, 0).0, mask, rv, target, retries - 1); }
  }

  lemma MatchReadGrows(env: Env, cfg: Config, s: Run, it: Item)
    ensures s.calls <= MatchRead(env, cfg, s, it).calls
    ensures it.word.Some? && IsAp(it.rv) ==> Cycle(env, cfg, s, it.rv, 0).0.calls <= MatchRead(env, cfg, s, it).calls
  {
    hide Cycle, MatchLoop, BitAnd;
    CycleGrows(env, cfg, s, it.rv, 0);
    if it.word.Some? {
      var s1 := if IsAp(it.rv) then Cycle(env, cfg, s, it.rv, 0).0 else s;
      MatchLoopGrows(env, cfg, s1.calls, s1.mask, it.rv, it.word.value, cfg.matchRetries);
    }
  }

  lemma OwnGrows(env: Env, cfg: Config, room: nat, s: Run, it: Item)
    ensures s.calls <= ReadOwn(env, cfg, room, s, it).calls && s.calls <= WriteOwn(env, cfg, room, s, it).calls
  {
    hide Cycle, MatchRead;
    CycleGrows(env, cfg, s, it.rv, 0);
    MatchReadGrows(env, cfg, s, it);
    if it.word.Some? { CycleGrows(env, cfg, s, it.rv, it.word.value); }
  }

  lemma StepGrows(env: Env, cfg: Config, room: nat, s: Run, it: Item)
    ensures s.calls <= Step(env, cfg, room, s, it).calls
    ensures s.posted ==> Collect(env, cfg, room, s, it.rv).calls <= Step(env, cfg, room, s, it).calls
  {
    hide Collect, ReadOwn, WriteOwn;
    CollectGrows(env, cfg, room, s, it.rv);
    OwnGrows(env, cfg, room, if s.posted then Collect(env, cfg, room, s, it.rv) else s, it);
  }

  lemma {:induction false} RunGrows(env: Env, cfg: Config, room: nat, s: Run, items: seq<Item>)
    ensures s.calls <= RunItems(env, cfg, room, s, items).calls
    decreases |items|
  {
    hide Step;
    if items != [] && s.phase.Going? {
      StepGrows(env, cfg, room, s, items[0]);
      RunGrows(env, cfg, room, Step(env, cfg, room, s, items[0]), items[1..]);
    }
  }

  lemma FinishGrows(env: Env, cfg: Config, room: nat, s: Run)
    ensures s.calls <= Finish(env, cfg, room, s).calls
  {
    hide Cycle;
    CycleGrows(env, cfg, s, RDBUFF_READ, 0);
  }

  // Environments that answer alike are run alike

  ghost predicate Agree(a: Env, b: Env, made: seq<Call>) {
    forall i :: 0 <= i <= |made| ==> a.reply(made[..i]) == b.reply(made[..i]) && a.clock(made[..i]) == b.clock(made[..i])
  }

  lemma AgreeAt(a: Env, b: Env, made: seq<Call>, calls: seq<Call>)
    requires Agree(a, b, made) && calls <= made
    ensures a.reply(calls) == b.reply(calls) && a.clock(calls) == b.clock(calls)
  {
    assert made[..|calls|] == calls;
  }

  lemma {:induction false} SameRetry(
    a: Env, b: Env, made: seq<Call>, calls: seq<Call>, rv: u8, data: u32, p: Params, retries: nat)
    requires Agree(a, b, made) && SeqRetry(a, calls, rv, data, p, retries).0 <= made
    ensures SeqRetry(b, calls, rv, data, p, retries) == SeqRetry(a, calls, rv, data, p, retries)
    decreases retries
  {
    hide Agree;
    var calls' := calls + [Call(rv % 16, data, p)];
    if a.reply(calls').ack == WAIT && retries > 0 { RetryAttempts(a, calls', rv, data, p, retries - 1); }
    AgreeAt(a, b, made, calls');
    if a.reply(calls').ack == WAIT && retries > 0 { SameRetry(a, b, made, calls', rv, data, p, retries - 1); }
  }

  lemma SameCycle(a: Env, b: Env, made: seq<Call>, cfg: Config, s: Run, rv: u8, data: u32)
    requires Agree(a, b, made) && Cycle(a, cfg, s, rv, data).0.calls <= made
    ensures Cycle(b, cfg, s, rv, data) == Cycle(a, cfg, s, rv, data)
  {
    hide SeqRetry, Agree;
    SameRetry(a, b, made, s.calls, rv, data, cfg.params, cfg.waitRetries);
  }

  lemma SameCollect(a: Env, b: Env, made: seq<Call>, cfg: Config, room: nat, s: Run, rv: u8)
    requires Agree(a, b, made) && Collect(a, cfg, room, s, rv).calls <= made
    ensures Collect(b, cfg, room, s, rv) == Collect(a, cfg, room, s, rv)
  {
    hide Cycle, Agree;
    if PlainAp(rv) {
      SameCycle(a, b, made, cfg, s, rv, 0);
    } else {
      SameCycle(a, b, made, cfg, s.(posted := false), RDBUFF_READ, 0);
    }
    AgreeAt(a, b, made, Collect(a, cfg, room, s, rv).calls);
  }

  lemma {:induction false} SameMatchLoop(
    a: Env, b: Env, made: seq<Call>, cfg: Config, calls: seq<Call>, mask: u32, rv: u8, target: u32, retries: nat)
    requires Agree(a, b, made) && MatchLoop(a, cfg, calls, mask, rv, target, retries).0 <= made
    ensures MatchLoop(b, cfg, calls, mask, rv, target, retries) == MatchLoop(a, cfg, calls, mask, rv, target, retries)
    decreases retries
  {
    hide SeqRetry, BitAnd, Agree;
    MatchLoopGrows(a, cfg, calls, mask, rv, target, retries);
    SameRetry(a, b, made, calls, rv, 0, cfg.params, cfg.waitRetries);
    var (calls', t) := Xfer(a, cfg, calls, rv, 0);
    if t.ack == OK && BitAnd(t.data, mask) != target && retries > 0 {
      SameMatchLoop(a, b, made, cfg, calls', mask, rv, target, retries - 1);
    }
  }

  lemma SameMatchRead(a: Env, b: Env, made: seq<Call>, cfg: Config, s: Run, it: Item)
    requires Agree(a, b, made) && MatchRead(a, cfg, s, it).calls <= made
    ensures MatchRead(b, cfg, s, it) == MatchRead(a, cfg, s, it)
  {
    hide Cycle, MatchLoop, BitAnd, Agree;
    MatchReadGrows(a, cfg, s, it);
    if it.word.Some? {
      if IsAp(it.rv) { SameCycle(a, b, made, cfg, s, it.rv, 0); }
      var s1 := if IsAp(it.rv) then Cycle(a, cfg, s, it.rv, 0).0 else s;
      if !s1.phase.Stopped? {
        SameMatchLoop(a, b, made, cfg, s1.calls, s1.mask, it.rv, it.word.value, cfg.matchRetries);
      }
    }
  }

  lemma SameReadOwn(a: Env, b: Env, made: seq<Call>, cfg: Config, room: nat, s: Run, it: Item)
    requires Agree(a, b, made) && ReadOwn(a, cfg, room, s, it).calls <= made
    ensures ReadOwn(b, cfg, room, s, it) == ReadOwn(a, cfg, room, s, it)
  {
    hide Cycle, MatchRead, Agree;
    if HasMatchValue(it.rv) {
      SameMatchRead(a, b, made, cfg, s, it);
    } else if !IsAp(it.rv) || !s.posted {
      SameCycle(a, b, made, cfg, s, it.rv, 0);
      AgreeAt(a, b, made, ReadOwn(a, cfg, room, s, it).calls);
    }
  }

  lemma SameWriteOwn(a: Env, b: Env, made: seq<Call>, cfg: Config, room: nat, s: Run, it: Item)
    requires Agree(a, b, made) && WriteOwn(a, cfg, room, s, it).calls <= made
    ensures WriteOwn(b, cfg, room, s, it) == WriteOwn(a, cfg, room, s, it)
  {
    hide Cycle, Agree;
    if it.word.Some? && !HasMatchMask(it.rv) {
      SameCycle(a, b, made, cfg, s, it.rv, it.word.value);
      AgreeAt(a, b, made, WriteOwn(a, cfg, room, s, it).calls);
    }
  }

  lemma SameStep(a: Env, b: Env, made: seq<Call>, cfg: Config, room: nat, s: Run, it: Item)
    requires Agree(a, b, made) && Step(a, cfg, room, s, it).calls <= made
    ensures Step(b, cfg, room, s, it) == Step(a, cfg, room, s, it)
  {
    hide Collect, ReadOwn, WriteOwn, Agree;
    StepGrows(a, cfg, room, s, it);
    if s.posted { SameCollect(a, b, made, cfg, room, s, it.rv); }
    var s1 := if s.posted then Collect(a, cfg, room, s, it.rv) else s;
    if s1.phase.Going? {
      if IsRead(it.rv) {
        SameReadOwn(a, b, made, cfg, room, s1, it);
      } else {
        SameWriteOwn(a, b, made, cfg, room, s1, it);
      }
    }
  }

  lemma {:induction false} SameRun(a: Env, b: Env, made: seq<Call>, cfg: Config, room: nat, s: Run, items: seq<Item>)
    requires Agree(a, b, made) && RunItems(a, cfg, room, s, items).calls <= made
    ensures RunItems(b, cfg, room, s, items) == RunItems(a, cfg, room, s, items)
    decreases |items|
  {
    hide Step, Agree;
    if items != [] && s.phase.Going? {
      RunGrows(a, cfg, room, Step(a, cfg, room, s, items[0]), items[1..]);
      SameStep(a, b, made, cfg, room, s, items[0]);
      SameRun(a, b, made, cfg, room, Step(a, cfg, room, s, items[0]), items[1..]);
    }
  }

  /** A command makes the same attempts and has the same end over any environment that
      answers those attempts alike. */
  lemma SameTransferred(a: Env, b: Env, cfg: Config, room: nat, calls: seq<Call>, mask: u32, items: seq<Item>)
    requires Agree(a, b, Transferred(a, cfg, room, calls, mask, items).calls)
    ensures Transferred(b, cfg, room, calls, mask, items) == Transferred(a, cfg, room, calls, mask, items)
  {
    hide Cycle, Agree, RunItems;
    var r, made := RunItems(a, cfg, room, Begin(calls, mask), items), Transferred(a, cfg, room, calls, mask, items).calls;
    FinishGrows(a, cfg, room, r);
    SameRun(a, b, made, cfg, room, Begin(calls, mask), items);
    if !r.phase.Failed? && r.status == OK && (r.posted || r.check) {
      SameCycle(a, b, made, cfg, r, RDBUFF_READ, 0);
    }
  }

  /** What an environment does to the target depends on its ACKs alone. */
  lemma {:induction false} SameLog(a: Env, b: Env, made: seq<Call>, base: nat, calls: seq<Call>)
    requires Agree(a, b, made) && calls <= made
    ensures Log(a, base, calls) == Log(b, base, calls) && (Unbroken(a, base, calls) <==> Unbroken(b, base, calls))
    decreases |calls|
  {
    hide Agree, Accesses;
    forall i | 0 <= i <= |calls| ensures a.reply(calls[..i]) == b.reply(calls[..i]) { AgreeAt(a, b, made, calls[..i]); }
    assert calls[..|calls|] == calls;
    if |calls| > base { SameLog(a, b, made, base, calls[..|calls| - 1]); }
  }

  lemma SamePosts(a: Env, b: Env, tgt: Target, base: nat, made: seq<Call>)
    requires Agree(a, b, made) && PostsReads(a, tgt, base, made)
    ensures PostsReads(b, tgt, base, made)
  {
    hide Unbroken, Log, Returned, Agree;
    forall i {:trigger made[i]} |
      base <= i < |made| && Unbroken(b, base, made[..i]) && b.reply(made[..i + 1]).ack == OK && IsRead(made[i].request)
      ensures b.reply(made[..i + 1]).data == Returned(tgt, Log(b, base, made[..i]), made[i].request)
    {
      SameLog(a, b, made, base, made[..i]);
      AgreeAt(a, b, made, made[..i + 1]);
    }
  }

  lemma TransferGrows(env: Env, cfg: Config, room: nat, calls: seq<Call>, mask: u32, items: seq<Item>)
    ensures calls <= Transferred(env, cfg, room, calls, mask, items).calls
  {
    hide RunItems, Finish;
    RunGrows(env, cfg, room, Begin(calls, mask), items);
    FinishGrows(env, cfg, room, RunItems(env, cfg, room, Begin(calls, mask), items));
  }

  lemma CycleTracks(env: Env, tgt: Target, cfg: Config, base: nat, made: seq<Call>, s: Run, rv: u8, data: u32)
    requires PostsReads(env, tgt, base, made) && Cycle(env, cfg, s, rv, data).0.calls <= made
    requires base <= |s.calls| && Unbroken(env, base, s.calls)
    ensures var (s1, w) := Cycle(env, cfg, s, rv, data);
            var log := Log(env, base, s.calls);
            && s1 == s.(calls := s1.calls, status := s1.status, phase := s1.phase) && |s.calls| < |s1.calls|
            && s.calls <= s1.calls
            && (s1.phase.Going? ==> && s1.status == OK == env.reply(s1.calls).ack && Unbroken(env, base, s1.calls)
                                    && Log(env, base, s1.calls) == log + Accesses(rv, data)
                                    && (IsRead(rv) ==> w == Returned(tgt, log, rv)))
            && (s1.phase.Stopped? ==> && s1.status != OK && Log(env, base, s1.calls) == log + Damaged(env, base, s1.calls)
                                      && Damaged(env, base, s1.calls) in {[], Accesses(rv, data)}
                                      && NoneOk(env, |s.calls|, s1.calls))
            && !s1.phase.Failed?
  {
    hide Log, Unbroken, NoneOk, Accesses, Damaged, Returned, SeqRetry, PostsReads;
    XferLogs(env, base, s.calls, rv, data, cfg.params, cfg.waitRetries);
    XferPosts(env, tgt, base, made, s.calls, rv, data, cfg.params, cfg.waitRetries);
  }

  predicate IsMatch(rv: u8) { IsRead(rv) && HasMatchValue(rv) }

  /** What a step that stops has done to the target: the access of a read whose data arrived
      damaged, and nothing else; a match, any number of reads of its register. */
  predicate Stopping(env: Env, base: nat, calls: seq<Call>, log: seq<Access>, it: Item) {
    var all := Log(env, base, calls);
    if IsMatch(it.rv) then Repeats(log, all, it.rv) else all == log + Damaged(env, base, calls)
  }

  /** `all` is `log` and then only reads `rv`. */
  predicate Repeats(log: seq<Access>, all: seq<Access>, rv: u8) {
    log <= all && forall i :: |log| <= i < |all| ==> Accesses(rv, 0) == [all[i]]
  }

  lemma OnlyRepeats(log: seq<Access>, rv: u8)
    ensures Repeats(log, log + [], rv) && log + [] == log && Repeats(log, log + Accesses(rv, 0), rv)
  {
  }

  lemma RepeatsMore(log: seq<Access>, all: seq<Access>, rv: u8)
    requires Repeats(log + Accesses(rv, 0), all, rv)
    ensures Repeats(log, all, rv)
  {
    var mid := log + Accesses(rv, 0);
    assert all[..|mid|] == mid;
    forall i | |log| <= i < |all| ensures Accesses(rv, 0) == [all[i]] {
      if i < |mid| {
        assert all[i] == mid[i];
      }
    }
  }

  /** Once the value posted is collected the next is posted only if a plain AP read did the
      collecting. */
  lemma CollectTracks(
    env: Env, tgt: Target, cfg: Config, base: nat, made: seq<Call>, room: nat, s: Run, sim: Simple, it: Item)
    requires PostsReads(env, tgt, base, made) && Collect(env, cfg, room, s, it.rv).calls <= made
    requires Tracks(env, tgt, base, s, sim) && s.phase.Going? && s.posted
    ensures var s1 := Collect(env, cfg, room, s, it.rv);
            && (s1.phase.Going? ==>
                  && s1.posted == PlainAp(it.rv) && s1.count == s.count
                  && s1.status == OK == env.reply(s1.calls).ack && |s1.calls| > |s.calls| && s.calls <= s1.calls
                  && Tracks(env, tgt, base, s1,
                            if PlainAp(it.rv) then SimpleStep(tgt, cfg.matchRetries, sim, it, env.clock(s1.calls)) else sim))
            && (s1.phase.Stopped? ==>
                  && s1.status != OK && s1.count == s.count && s1.out == s.out && s1.mask == s.mask
                  && Stopping(env, base, s1.calls, sim.log, it)
                  && NoneOk(env, |s.calls|, s1.calls) && s.calls <= s1.calls)
  {
    hide Log, Unbroken, NoneOk, Accesses, Xfer, PostsReads;
    if PlainAp(it.rv) {
      CycleTracks(env, tgt, cfg, base, made, s, it.rv, 0);
    } else {
      CycleTracks(env, tgt, cfg, base, made, s.(posted := false), RDBUFF_READ, 0);
      RdbuffAccess();
    }
  }

  lemma RdbuffAccess()
    ensures ReadsBuffer(RDBUFF_READ) && RDBUFF_READ % 16 == RDBUFF_READ && Accesses(RDBUFF_READ, 0) == []
  {
  }

  lemma {:induction false} MatchTracks(
    env: Env, tgt: Target, cfg: Config, base: nat, made: seq<Call>, calls: seq<Call>, mask: u32, rv: u8, target: u32, retries: nat)
    requires PostsReads(env, tgt, base, made) && MatchLoop(env, cfg, calls, mask, rv, target, retries).0 <= made
    requires base <= |calls| && Unbroken(env, base, calls) && IsRead(rv)
    ensures var (after, t) := MatchLoop(env, cfg, calls, mask, rv, target, retries);
            var log := Log(env, base, calls);
            var (log', found) := SimpleMatch(tgt, log, mask, rv, target, retries);
            && calls <= after && Repeats(log, Log(env, base, after), rv)
            && (t.ack == OK ==> && Unbroken(env, base, after) && Log(env, base, after) == log'
                                && found == AgreesUnder(t.data, mask, target))
    decreases retries
  {
    hide Log, Unbroken, NoneOk, Accesses, Returned, BitAnd, AgreesUnder, PostsReads, Repeats;
    MaskedEquals(Xfer(env, cfg, calls, rv, 0).1.data, mask, target);
    MatchLoopGrows(env, cfg, calls, mask, rv, target, retries);
    OnlyRepeats(Log(env, base, calls), rv);
    XferLogs(env, base, calls, rv, 0, cfg.params, cfg.waitRetries);
    XferPosts(env, tgt, base, made, calls, rv, 0, cfg.params, cfg.waitRetries);
    var (calls', t) := Xfer(env, cfg, calls, rv, 0);
    if t.ack == OK && BitAnd(t.data, mask) != target && retries > 0 {
      MatchTracks(env, tgt, cfg, base, made, calls', mask, rv, target, retries - 1);
      RepeatsMore(Log(env, base, calls), Log(env, base, MatchLoop(env, cfg, calls, mask, rv, target, retries).0), rv);
    }
  }

  /** What a stopped step leaves behind: nothing emitted, and accesses as `Stopping` says. */
  ghost predicate StoppedAt(env: Env, base: nat, s: Run, s1: Run, log: seq<Access>, it: Item) {
    && s1.phase.Stopped? && s1.status != OK && s1.count == s.count && s1.out == s.out && s1.mask == s.mask
    && s.calls <= s1.calls && Stopping(env, base, s1.calls, log, it)
  }

  lemma MatchReadTracks(
    env: Env, tgt: Target, cfg: Config, base: nat, made: seq<Call>, s: Run, sim: Simple, it: Item, stamp: u32)
    requires PostsReads(env, tgt, base, made) && MatchRead(env, cfg, s, it).calls <= made
    requires Tracks(env, tgt, base, s, sim) && s.phase.Going? && !s.posted
    requires IsRead(it.rv) && HasMatchValue(it.rv)
    ensures var s1 := MatchRead(env, cfg, s, it);
            && (s1.phase.Going? ==>
                  && Complete(it) && !s1.posted && s1.count == s.count && s1.status == OK
                  && Tracks(env, tgt, base, s1.(check := false), SimpleStep(tgt, cfg.matchRetries, sim, it, stamp)))
            && (s1.phase.Stopped? ==> StoppedAt(env, base, s, s1, sim.log, it))
  {
    hide Log, Unbroken, NoneOk, Accesses, PostsReads, Xfer, BitAnd, AgreesUnder, Returned, MatchLoop,
      SimpleMatch, Repeats;
    MatchReadGrows(env, cfg, s, it);
    OnlyRepeats(sim.log, it.rv);
    if it.word.Some? {
      if IsAp(it.rv) {
        CycleTracks(env, tgt, cfg, base, made, s, it.rv, 0);
      }
      var s1 := if IsAp(it.rv) then Cycle(env, cfg, s, it.rv, 0).0 else s;
      if s1.phase.Going? {
        MatchTracks(env, tgt, cfg, base, made, s1.calls, s.mask, it.rv, it.word.value, cfg.matchRetries);
        MaskedEquals(MatchLoop(env, cfg, s1.calls, s.mask, it.rv, it.word.value, cfg.matchRetries).1.data, s.mask,
                     it.word.value);
        if IsAp(it.rv) {
          RepeatsMore(sim.log, Log(env, base, MatchRead(env, cfg, s, it).calls), it.rv);
        }
      }
    }
  }

  /** The attempts of a match end with its answer: refused, or a value that agrees with the
      target under the mask, or one that does not and the retries are used up. */
  lemma {:induction false} MatchLoopEnds(
    env: Env, cfg: Config, calls: seq<Call>, mask: u32, rv: u8, target: u32, retries: nat)
    ensures var (after, t) := MatchLoop(env, cfg, calls, mask, rv, target, retries);
            && calls <= after && |calls| < |after| && t == env.reply(after)
    decreases retries
  {
    hide SeqRetry, BitAnd;
    RetryAttempts(env, calls, rv, 0, cfg.params, cfg.waitRetries);
    if retries > 0 { MatchLoopEnds(env, cfg, Xfer(env, cfg, calls, rv, 0).0, mask, rv, target, retries - 1); }
  }

  /** The status of a match read: the last answer as it is if that is not OK, else 1 where
      the value agrees with the operand under the mask and 17 where it does not. */
  lemma MatchStatus(env: Env, cfg: Config, s: Run, it: Item)
    requires it.word.Some? && s.phase.Going?
    ensures var s' := MatchRead(env, cfg, s, it);
            var t := env.reply(s'.calls);
            && s'.status == (if t.ack != 1 then t.ack else if AgreesUnder(t.data, s.mask, it.word.value) then 1 else 17)
            && (s'.phase.Going? <==> s'.status == 1)
  {
    hide SeqRetry, BitAnd, AgreesUnder, MatchLoop;
    RetryAttempts(env, s.calls, it.rv, 0, cfg.params, cfg.waitRetries);
    var s1 := if IsAp(it.rv) then Cycle(env, cfg, s, it.rv, 0).0 else s;
    MatchLoopEnds(env, cfg, s1.calls, s.mask, it.rv, it.word.value, cfg.matchRetries);
    MaskedEquals(MatchLoop(env, cfg, s1.calls, s.mask, it.rv, it.word.value, cfg.matchRetries).1.data, s.mask,
                 it.word.value);
  }

  lemma ReadOwnTracks(
    env: Env, tgt: Target, cfg: Config, base: nat, made: seq<Call>, room: nat, s: Run, sim: Simple, it: Item)
    requires PostsReads(env, tgt, base, made) && ReadOwn(env, cfg, room, s, it).calls <= made
    requires Tracks(env, tgt, base, s, sim) && s.phase.Going? && !s.posted
    requires IsRead(it.rv)
    ensures var s1 := ReadOwn(env, cfg, room, s, it);
            && (s1.phase.Going? ==>
                  && Complete(it) && s1.posted == PlainAp(it.rv) && s1.count == s.count && s1.status == OK
                  && Tracks(env, tgt, base, s1.(check := false),
                            SimpleStep(tgt, cfg.matchRetries, sim, it, env.clock(s1.calls))))
            && (s1.phase.Stopped? ==> StoppedAt(env, base, s, s1, sim.log, it))
  {
    hide Log, Unbroken, NoneOk, Accesses, PostsReads, Xfer;
    if HasMatchValue(it.rv) {
      MatchReadTracks(env, tgt, cfg, base, made, s, sim, it, env.clock(MatchRead(env, cfg, s, it).calls));
    } else {
      CycleTracks(env, tgt, cfg, base, made, s, it.rv, 0);
    }
  }

  lemma WriteOwnTracks(
    env: Env, tgt: Target, cfg: Config, base: nat, made: seq<Call>, room: nat, s: Run, sim: Simple, it: Item)
    requires PostsReads(env, tgt, base, made) && WriteOwn(env, cfg, room, s, it).calls <= made
    requires Tracks(env, tgt, base, s, sim) && s.phase.Going? && !s.posted
    requires !IsRead(it.rv)
    ensures var s1 := WriteOwn(env, cfg, room, s, it);
            && (s1.phase.Going? ==>
                  && Complete(it) && !s1.posted && s1.count == s.count && s1.status == OK
                  && Tracks(env, tgt, base, s1, SimpleStep(tgt, cfg.matchRetries, sim, it, env.clock(s1.calls))))
            && (s1.phase.Stopped? ==> StoppedAt(env, base, s, s1, sim.log, it))
  {
    hide Log, Unbroken, NoneOk, Accesses, PostsReads, Xfer;
    if it.word.Some? && !HasMatchMask(it.rv) {
      CycleTracks(env, tgt, cfg, base, made, s, it.rv, it.word.value);
    }
  }

  /** Why a step stopped: collecting the posted read failed before anything else happened,
      so its value is missing; or everything posted had been collected. */
  ghost predicate Cut(env: Env, tgt: Target, base: nat, s: Run, s1: Run, sim: Simple, it: Item) {
    && s1.phase.Stopped? && s1.status != OK && s1.count == s.count && s1.mask == s.mask
    && s.calls <= s1.calls && Stopping(env, base, s1.calls, sim.log, it)
    && sim.out == s1.out + if s.posted && NoneOk(env, |s.calls|, s1.calls) then [tgt.buffer(sim.log)] else []
  }

  /** One pass of the transfer loop is one simple transfer, or is cut. */
  lemma StepTracks(
    env: Env, tgt: Target, cfg: Config, base: nat, made: seq<Call>, room: nat, s: Run, sim: Simple, it: Item)
    requires PostsReads(env, tgt, base, made) && Step(env, cfg, room, s, it).calls <= made
    requires Tracks(env, tgt, base, s, sim) && s.phase.Going?
    ensures var s' := Step(env, cfg, room, s, it);
            && (s'.phase.Going? ==>
                  && Complete(it) && s'.posted == PlainAp(it.rv) && s'.count == s.count + 1 && s'.status == OK
                  && Tracks(env, tgt, base, s', SimpleStep(tgt, cfg.matchRetries, sim, it, env.clock(s'.calls))))
            && (s'.phase.Stopped? ==> Cut(env, tgt, base, s, s', sim, it))
  {
    hide Log, Unbroken, Accesses, PostsReads, Xfer, Collect, ReadOwn, WriteOwn;
    StepGrows(env, cfg, room, s, it);
    if s.posted {
      CollectTracks(env, tgt, cfg, base, made, room, s, sim, it);
    }
    var s1 := if s.posted then Collect(env, cfg, room, s, it.rv) else s;
    if s1.phase.Going? {
      if s1.posted {
        PostedStays(env, cfg, room, s1, it);
      } else if IsRead(it.rv) {
        ReadOwnTracks(env, tgt, cfg, base, made, room, s1, sim, it);
      } else {
        WriteOwnTracks(env, tgt, cfg, base, made, room, s1, sim, it);
      }
      var s' := Step(env, cfg, room, s, it);
      if s.posted && s'.phase.Stopped? {
        Collected(env, |s.calls|, s1.calls, s'.calls);
      }
    }
  }

  lemma Collected(env: Env, base: nat, calls: seq<Call>, after: seq<Call>)
    requires base < |calls| && calls <= after && env.reply(calls).ack == OK
    ensures !NoneOk(env, base, after)
  {
    assert after[..|calls|] == calls;
  }

  lemma PostedStays(env: Env, cfg: Config, room: nat, s: Run, it: Item)
    requires s.posted && PlainAp(it.rv)
    ensures ReadOwn(env, cfg, room, s, it) == s
  {
  }

  // Whole requests

  /** The timer at the end of each transfer's bus cycle. */
  function Stamps(env: Env, cfg: Config, room: nat, s: Run, items: seq<Item>): (stamps: seq<u32>)
    ensures |stamps| == |items|
  {
    if items == [] then []
    else Stamps(env, cfg, room, s, items[..|items| - 1]) + [env.clock(RunItems(env, cfg, room, s, items).calls)]
  }

  lemma StampsSnoc(env: Env, cfg: Config, room: nat, s: Run, items: seq<Item>, it: Item)
    ensures Stamps(env, cfg, room, s, items + [it])
         == Stamps(env, cfg, room, s, items) + [env.clock(RunItems(env, cfg, room, s, items + [it]).calls)]
  {
    hide RunItems;
    assert (items + [it])[..|items|] == items;
  }

  lemma SimpleSnoc(tgt: Target, retries: nat, s: Simple, items: seq<Item>, stamps: seq<u32>, it: Item, stamp: u32)
    requires |stamps| == |items| && Complete(it) && forall it :: it in items ==> Complete(it)
    ensures SimpleRun(tgt, retries, s, items + [it], stamps + [stamp])
         == SimpleStep(tgt, retries, SimpleRun(tgt, retries, s, items, stamps), it, stamp)
  {
    hide SimpleStep;
    assert (items + [it])[..|items|] == items && (stamps + [stamp])[..|items|] == stamps;
  }

  /** While a run goes on it is the simple execution of all its items. */
  lemma {:induction false} GoingTracks(
    env: Env, tgt: Target, cfg: Config, made: seq<Call>, room: nat, s: Run, sim: Simple, items: seq<Item>)
    requires PostsReads(env, tgt, |s.calls|, made) && RunItems(env, cfg, room, s, items).calls <= made
    requires Tracks(env, tgt, |s.calls|, s, sim) && s.phase.Going?
    requires RunItems(env, cfg, room, s, items).phase.Going?
    ensures var r := RunItems(env, cfg, room, s, items);
            && r.count == s.count + |items| && (items != [] ==> r.status == OK)
            && (r.posted <==> if items == [] then s.posted else PlainAp(items[|items| - 1].rv))
            && (forall it :: it in items ==> Complete(it))
            && Tracks(env, tgt, |s.calls|, r,
                      SimpleRun(tgt, cfg.matchRetries, sim, items, Stamps(env, cfg, room, s, items)))
    decreases |items|
  {
    hide Tracks, PostsReads, Step, SimpleStep;
    if items != [] {
      hide RunItems, Stamps, SimpleRun;
      var front, last := items[..|items| - 1], items[|items| - 1];
      assert items == front + [last];
      var r, stamps := RunItems(env, cfg, room, s, front), Stamps(env, cfg, room, s, front);
      RunSnoc(env, cfg, room, s, front, last);
      StepGrows(env, cfg, room, r, last);
      GoingTracks(env, tgt, cfg, made, room, s, sim, front);
      StampsSnoc(env, cfg, room, s, front, last);
      var before := SimpleRun(tgt, cfg.matchRetries, sim, front, stamps);
      var stamp := env.clock(Step(env, cfg, room, r, last).calls);
      StepTracks(env, tgt, cfg, |s.calls|, made, room, r, before, last);
      SimpleSnoc(tgt, cfg.matchRetries, sim, front, stamps, last, stamp);
    }
  }

  /** A run that did not go through all its items ended in the step after some of them. */
  lemma {:induction false} EndedAt(env: Env, cfg: Config, room: nat, s: Run, items: seq<Item>) returns (n: nat)
    requires s.phase.Going? && !RunItems(env, cfg, room, s, items).phase.Going?
    ensures n < |items| && RunItems(env, cfg, room, s, items[..n]).phase.Going?
    ensures RunItems(env, cfg, room, s, items) == Step(env, cfg, room, RunItems(env, cfg, room, s, items[..n]), items[n])
    decreases |items|
  {
    hide Step;
    n := 0;
    if items != [] {
      var s' := Step(env, cfg, room, s, items[0]);
      if s'.phase.Going? {
        var k := EndedAt(env, cfg, room, s', items[1..]);
        n := k + 1;
        assert items[..n][1..] == items[1..][..k];
      } else {
        assert items[..0] == [];
        assert RunItems(env, cfg, room, s', items[1..]) == s';
      }
    }
  }

  /** `f` counts the transfers the loop went through: all of them, or those before the
      one that stopped it. */
  ghost predicate CountsThrough(
    env: Env, cfg: Config, room: nat, calls: seq<Call>, mask: u32, items: seq<Item>, f: Run)
  {
    && f.count <= |items|
    && var r := RunItems(env, cfg, room, Begin(calls, mask), items[..f.count]);
    && r.phase.Going? && r.calls <= f.calls
    && (f.count < |items| ==> Step(env, cfg, room, r, items[f.count]).phase.Stopped?)
  }

  /** `f`, the end of a command on `items`, against the simple execution of the transfers
      it counts: the reply is that execution's, short of its last word exactly when that
      is a posted read no further bus cycle collected, and so are the accesses, apart from
      those of the step that stopped it. */
  ghost predicate RepliesSimply(
    env: Env, tgt: Target, cfg: Config, room: nat, calls: seq<Call>, mask: u32, items: seq<Item>, f: Run)
  {
    && CountsThrough(env, cfg, room, calls, mask, items, f)
    && var done := items[..f.count];
    && (forall it :: it in done ==> Complete(it))
    && var s := Begin(calls, mask);
    && var sim := SimpleRun(tgt, cfg.matchRetries, Simple([], mask, [], true), done, Stamps(env, cfg, room, s, done));
    && var pending := RunItems(env, cfg, room, s, done).calls;
    && var short := f.count > 0 && PlainAp(done[f.count - 1].rv) && NoneOk(env, |pending|, f.calls);
    && sim.matched && sim.mask == f.mask
    && sim.out == f.out + (if short then [tgt.buffer(sim.log)] else [])
    && (if f.count == |items| then sim.log == Log(env, |calls|, f.calls)
        else Stopping(env, |calls|, f.calls, sim.log, items[f.count]))
    && (items != [] && f.status == OK ==> f.count == |items| && !short)
  }

  /** The transfers counted are determined: no other count goes through the same loop. */
  lemma CountUnique(
    env: Env, cfg: Config, room: nat, calls: seq<Call>, mask: u32, items: seq<Item>, f: Run, g: Run)
    requires CountsThrough(env, cfg, room, calls, mask, items, f) && CountsThrough(env, cfg, room, calls, mask, items, g)
    ensures f.count == g.count
  {
    hide Step, RunItems;
    if f.count < g.count {
      assert items[..g.count][..f.count] == items[..f.count];
      PrefixGoes(env, cfg, room, Begin(calls, mask), items[..g.count], f.count);
    } else if g.count < f.count {
      assert items[..f.count][..g.count] == items[..g.count];
      PrefixGoes(env, cfg, room, Begin(calls, mask), items[..f.count], g.count);
    }
  }

  lemma OverStays(env: Env, cfg: Config, room: nat, s: Run, items: seq<Item>)
    ensures !s.phase.Going? ==> RunItems(env, cfg, room, s, items) == s
  {
  }

  /** A run that goes on went on after each of its items. */
  lemma {:induction false} PrefixGoes(env: Env, cfg: Config, room: nat, s: Run, items: seq<Item>, n: nat)
    requires n < |items| && s.phase.Going? && RunItems(env, cfg, room, s, items).phase.Going?
    ensures Step(env, cfg, room, RunItems(env, cfg, room, s, items[..n]), items[n]).phase.Going?
    decreases |items|
  {
    hide Step;
    var s' := Step(env, cfg, room, s, items[0]);
    OverStays(env, cfg, room, s', items[1..]);
    if n > 0 {
      PrefixGoes(env, cfg, room, s', items[1..], n - 1);
      assert items[..n][1..] == items[1..][..n - 1] && items[..n][0] == items[0];
    } else {
      assert items[..0] == [];
    }
  }

  lemma CutReplies(
    env: Env, tgt: Target, cfg: Config, room: nat, calls: seq<Call>, mask: u32, items: seq<Item>)
    requires PostsReads(env, tgt, |calls|, Transferred(env, cfg, room, calls, mask, items).calls)
    requires RunItems(env, cfg, room, Begin(calls, mask), items).phase.Stopped?
    ensures RepliesSimply(env, tgt, cfg, room, calls, mask, items,
                          Finish(env, cfg, room, RunItems(env, cfg, room, Begin(calls, mask), items)))
  {
    hide PostsReads, Step, SimpleStep, RunItems, Stamps, SimpleRun, Log, NoneOk;
    var s, sim := Begin(calls, mask), Simple([], mask, [], true);
    BeginTracks(env, tgt, calls, mask);
    var n := EndedAt(env, cfg, room, s, items);
    var done, made := items[..n], Transferred(env, cfg, room, calls, mask, items).calls;
    FinishGrows(env, cfg, room, RunItems(env, cfg, room, s, items));
    var r := RunItems(env, cfg, room, s, done);
    StepGrows(env, cfg, room, r, items[n]);
    GoingTracks(env, tgt, cfg, made, room, s, sim, done);
    StepTracks(env, tgt, cfg, |calls|, made, room, r,
               SimpleRun(tgt, cfg.matchRetries, sim, done, Stamps(env, cfg, room, s, done)), items[n]);
  }

  lemma BeginTracks(env: Env, tgt: Target, calls: seq<Call>, mask: u32)
    ensures Tracks(env, tgt, |calls|, Begin(calls, mask), Simple([], mask, [], true))
  {
  }

  lemma ThroughReplies(
    env: Env, tgt: Target, cfg: Config, room: nat, calls: seq<Call>, mask: u32, items: seq<Item>)
    requires PostsReads(env, tgt, |calls|, Transferred(env, cfg, room, calls, mask, items).calls)
    requires RunItems(env, cfg, room, Begin(calls, mask), items).phase.Going?
    ensures var f := Finish(env, cfg, room, RunItems(env, cfg, room, Begin(calls, mask), items));
            f.phase.Failed? || RepliesSimply(env, tgt, cfg, room, calls, mask, items, f)
  {
    hide PostsReads, Step, SimpleStep, RunItems, Stamps, SimpleRun, Log, NoneOk, Cycle, Unbroken, Accesses;
    var s, sim := Begin(calls, mask), Simple([], mask, [], true);
    BeginTracks(env, tgt, calls, mask);
    var r := RunItems(env, cfg, room, s, items);
    var f := Finish(env, cfg, room, r);
    FinishGrows(env, cfg, room, r);
    GoingTracks(env, tgt, cfg, f.calls, room, s, sim, items);
    assert items[..|items|] == items;
    if r.status == OK && (r.posted || r.check) {
      CycleTracks(env, tgt, cfg, |calls|, f.calls, r, RDBUFF_READ, 0);
    }
    RdbuffAccess();
    if r.posted && f.phase.Going? {
      Collected(env, |r.calls|, f.calls, f.calls);
    }
  }

  /** Every `DAP_Transfer` that is not cut short by its own request or reply answers what
      the simple execution of the transfers it counts answers. */
  lemma TransferReplies(
    env: Env, tgt: Target, cfg: Config, room: nat, calls: seq<Call>, mask: u32, items: seq<Item>)
    requires PostsReads(env, tgt, |calls|, Transferred(env, cfg, room, calls, mask, items).calls)
    requires !Transferred(env, cfg, room, calls, mask, items).phase.Failed?
    ensures RepliesSimply(env, tgt, cfg, room, calls, mask, items, Transferred(env, cfg, room, calls, mask, items))
  {
    hide PostsReads, RunItems, RepliesSimply;
    if RunItems(env, cfg, room, Begin(calls, mask), items).phase.Going? {
      ThroughReplies(env, tgt, cfg, room, calls, mask, items);
    } else {
      CutReplies(env, tgt, cfg, room, calls, mask, items);
    }
  }

  function ApReadsIn(log: seq<Access>): nat {
    if log == [] then 0
    else ApReadsIn(log[..|log| - 1]) + if log[|log| - 1].ApRead? then 1 else 0
  }

  lemma ApReadsAdd(log: seq<Access>, rv: u8, data: u32)
    ensures ApReadsIn(log + Accesses(rv, data)) == ApReadsIn(log) + if IsRead(rv) && IsAp(rv) then 1 else 0
  {
    LowNibble(rv, data);
    var a := Accesses(rv, data);
    if a == [] {
      assert log + a == log;
    } else {
      assert (log + a)[..|log|] == log;
    }
  }

  /** How many values a match compares. */
  function Compared(tgt: Target, log: seq<Access>, mask: u32, rv: u8, target: u32, retries: nat): (n: nat)
    ensures 1 <= n <= retries + 1
    decreases retries
  {
    if AgreesUnder(Returned(tgt, log, rv), mask, target) || retries == 0 then 1
    else 1 + Compared(tgt, log + Accesses(rv, 0), mask, rv, target, retries - 1)
  }

  lemma {:induction false} MatchReads(tgt: Target, log: seq<Access>, mask: u32, rv: u8, target: u32, retries: nat)
    requires IsRead(rv)
    ensures ApReadsIn(SimpleMatch(tgt, log, mask, rv, target, retries).0)
         == ApReadsIn(log) + if IsAp(rv) then Compared(tgt, log, mask, rv, target, retries) else 0
    decreases retries
  {
    hide Accesses, Returned, AgreesUnder, ApReadsIn;
    ApReadsAdd(log, rv, 0);
    if retries > 0 { MatchReads(tgt, log + Accesses(rv, 0), mask, rv, target, retries - 1); }
  }

  /** AP reads a transfer calls for: one for a plain AP read, and for an AP match read one
      more than the values it compares. */
  function ApReadsOf(tgt: Target, retries: nat, s: Simple, it: Item): nat
    requires Complete(it)
  {
    if !(IsRead(it.rv) && IsAp(it.rv)) then 0
    else if HasMatchValue(it.rv) then
      1 + Compared(tgt, s.log + Accesses(it.rv, 0), s.mask, it.rv, it.word.value, retries)
    else 1
  }

  function ApReadsDue(tgt: Target, retries: nat, s: Simple, items: seq<Item>, stamps: seq<u32>): nat
    requires |stamps| == |items| && forall it :: it in items ==> Complete(it)
  {
    if items == [] then 0
    else
      var n := |items| - 1;
      ApReadsDue(tgt, retries, s, items[..n], stamps[..n])
      + ApReadsOf(tgt, retries, SimpleRun(tgt, retries, s, items[..n], stamps[..n]), items[n])
  }

  lemma StepReads(tgt: Target, retries: nat, s: Simple, it: Item, stamp: u32)
    requires Complete(it)
    ensures ApReadsIn(SimpleStep(tgt, retries, s, it, stamp).log) == ApReadsIn(s.log) + ApReadsOf(tgt, retries, s, it)
  {
    hide Accesses, Returned, SimpleMatch, Compared, ApReadsIn;
    ApReadsAdd(s.log, it.rv, 0);
    if it.word.Some? {
      ApReadsAdd(s.log, it.rv, it.word.value);
      if IsMatch(it.rv) {
        MatchReads(tgt, if IsAp(it.rv) then s.log + Accesses(it.rv, 0) else s.log, s.mask, it.rv, it.word.value, retries);
      }
    }
  }

  /** The AP is read exactly once for each plain AP read, and for each AP match read once
      more than it compares values. */
  lemma {:induction false} OneAccessPerApRead(
    tgt: Target, retries: nat, s: Simple, items: seq<Item>, stamps: seq<u32>)
    requires |stamps| == |items| && forall it :: it in items ==> Complete(it)
    ensures ApReadsIn(SimpleRun(tgt, retries, s, items, stamps).log)
         == ApReadsIn(s.log) + ApReadsDue(tgt, retries, s, items, stamps)
    decreases |items|
  {
    hide ApReadsIn, SimpleStep, ApReadsOf;
    if items != [] {
      var n := |items| - 1;
      OneAccessPerApRead(tgt, retries, s, items[..n], stamps[..n]);
      StepReads(tgt, retries, SimpleRun(tgt, retries, s, items[..n], stamps[..n]), items[n], stamps[n]);
    }
  }

  // Blocks are repeated transfers

  function ReadItems(rv: u8, n: nat): (items: seq<Item>)
    ensures |items| == n
  {
    if n == 0 then [] else [Item(rv, None)] + ReadItems(rv, n - 1)
  }

  function WriteItems(rv: u8, words: seq<u32>): (items: seq<Item>)
    ensures |items| == |words|
  {
    if words == [] then [] else [Item(rv, Some(words[0]))] + WriteItems(rv, words[1..])
  }

  /** Same attempts, same data, same status. */
  predicate SameOutcome(f: Run, b: Block) {
    !f.phase.Failed? && f.calls == b.calls && f.out == b.words && f.status == b.status
  }

  lemma {:induction false} ApReadsGoOn(env: Env, cfg: Config, room: nat, s: Run, b: Block, rv: u8, total: nat, k: nat)
    requires PlainAp(rv) && !HasTimestamp(rv) && total <= room
    requires s.phase.Going? && s.posted && s.status == OK
    requires s.calls == b.calls && s.out == b.words && b.count == |b.words| == total - 1 - k
    ensures SameOutcome(Finish(env, cfg, room, RunItems(env, cfg, room, s, ReadItems(rv, k))),
                        ReadWords(env, cfg.params, cfg.waitRetries, rv, b, total))
    decreases k
  {
    if k == 0 {
      var (calls, t) := Xfer(env, cfg, s.calls, RDBUFF_READ, 0);
      var b' := Block(calls, b.words + [t.data], b.count + 1, OK);
      assert ReadWords(env, cfg.params, cfg.waitRetries, rv, b', total) == b';
    } else {
      var s' := Step(env, cfg, room, s, Item(rv, None));
      assert ReadItems(rv, k)[1..] == ReadItems(rv, k - 1);
      if s'.phase.Going? {
        ApReadsGoOn(env, cfg, room, s', Block(s'.calls, s'.out, b.count + 1, OK), rv, total, k - 1);
      } else {
        assert RunItems(env, cfg, room, s', ReadItems(rv, k - 1)) == s';
      }
    }
  }

  lemma {:induction false} DpReadsGoOn(env: Env, cfg: Config, room: nat, s: Run, b: Block, rv: u8, total: nat, k: nat)
    requires IsRead(rv) && !IsAp(rv) && !HasMatchValue(rv) && !HasTimestamp(rv) && total <= room
    requires s.phase.Going? && !s.posted && !s.check && (k == 0 ==> s.status == OK)
    requires s.calls == b.calls && s.out == b.words && b.count == |b.words| == total - k
    ensures SameOutcome(Finish(env, cfg, room, RunItems(env, cfg, room, s, ReadItems(rv, k))),
                        ReadWords(env, cfg.params, cfg.waitRetries, rv, b, total))
    decreases k
  {
    if k > 0 {
      var s' := Step(env, cfg, room, s, Item(rv, None));
      assert ReadItems(rv, k)[1..] == ReadItems(rv, k - 1);
      if s'.phase.Going? {
        DpReadsGoOn(env, cfg, room, s', Block(s'.calls, s'.out, b.count + 1, OK), rv, total, k - 1);
      } else {
        assert RunItems(env, cfg, room, s', ReadItems(rv, k - 1)) == s';
      }
    }
  }

  /** A block read makes the attempts of the `DAP_Transfer` of that many plain reads and
      answers the same words and status. */
  lemma ReadBlockIsTransfers(env: Env, cfg: Config, room: nat, calls: seq<Call>, mask: u32, rv: u8, n: nat)
    requires IsRead(rv) && !HasMatchValue(rv) && !HasTimestamp(rv) && n <= room
    ensures SameOutcome(Transferred(env, cfg, room, calls, mask, ReadItems(rv, n)),
                        SeqReadBlock(env, cfg.params, cfg.waitRetries, rv, calls, n))
  {
    var s := Begin(calls, mask);
    if n > 0 && IsAp(rv) {
      var s' := Step(env, cfg, room, s, Item(rv, None));
      assert ReadItems(rv, n)[1..] == ReadItems(rv, n - 1);
      if s'.phase.Going? {
        ApReadsGoOn(env, cfg, room, s', Block(s'.calls, [], 0, OK), rv, n, n - 1);
      } else {
        assert RunItems(env, cfg, room, s', ReadItems(rv, n - 1)) == s';
      }
    } else if n > 0 {
      DpReadsGoOn(env, cfg, room, s, Block(calls, [], 0, OK), rv, n, n);
    }
  }

  lemma {:induction false} WritesGoOn(env: Env, cfg: Config, room: nat, s: Run, b: Block, rv: u8, words: seq<u32>)
    requires !IsRead(rv) && !HasMatchMask(rv) && !HasTimestamp(rv)
    requires s.phase.Going? && !s.posted && s.out == b.words == [] && s.calls == b.calls
    requires s.count == b.count <= |words|
    requires b.count == |words| ==> s.check && s.status == OK
    ensures var f := Finish(env, cfg, room, RunItems(env, cfg, room, s, WriteItems(rv, words[b.count..])));
            var r := WriteWords(env, cfg.params, cfg.waitRetries, rv, b, words);
            SameOutcome(f, r) && f.count == r.count
    decreases |words| - b.count
  {
    if b.count < |words| {
      var rest := words[b.count..];
      var s' := Step(env, cfg, room, s, Item(rv, Some(rest[0])));
      assert rest[0] == words[b.count] && rest[1..] == words[b.count + 1..];
      assert WriteItems(rv, rest)[1..] == WriteItems(rv, rest[1..]);
      if s'.phase.Going? {
        WritesGoOn(env, cfg, room, s', Block(s'.calls, [], b.count + 1, OK), rv, words);
      } else {
        assert RunItems(env, cfg, room, s', WriteItems(rv, rest[1..])) == s';
      }
    }
  }

  /** So does a block write, which also counts the same transfers. */
  lemma WriteBlockIsTransfers(env: Env, cfg: Config, room: nat, calls: seq<Call>, mask: u32, rv: u8, words: seq<u32>)
    requires !IsRead(rv) && !HasMatchMask(rv) && !HasTimestamp(rv)
    ensures var f := Transferred(env, cfg, room, calls, mask, WriteItems(rv, words));
            var b := SeqWriteBlock(env, cfg.params, cfg.waitRetries, rv, calls, words);
            SameOutcome(f, b) && f.count == b.count
  {
    if words != [] {
      assert words[0..] == words;
      WritesGoOn(env, cfg, room, Begin(calls, mask), Block(calls, [], 0, OK), rv, words);
    }
  }

  // What blocks do to the AP

  function Reads(rv: u8, n: nat): (log: seq<Access>)
    ensures |log| == n
  {
    seq(n, _ => ApRead(rv % 16))
  }

  function Writes(rv: u8, words: seq<u32>): (log: seq<Access>)
    ensures |log| == |words|
  {
    seq(|words|, i requires 0 <= i < |words| => ApWrite(rv % 16, words[i]))
  }

  lemma {:induction false} ReadWordsLog(
    env: Env, base: nat, p: Params, retries: nat, rv: u8, b: Block, total: nat, k: nat)
    requires PlainAp(rv) && base <= |b.calls| && b.count < total
    requires Log(env, base, b.calls) == Reads(rv, k)
    ensures var r := ReadWords(env, p, retries, rv, b, total);
            && Log(env, base, r.calls)
               == Reads(rv, k + if r.count < total then r.count - b.count + |Damaged(env, base, r.calls)|
                                else total - 1 - b.count)
            && b.calls <= r.calls
    decreases total - b.count
  {
    hide Log, SeqRetry;
    var last := b.count + 1 == total;
    var request := if last then RDBUFF_READ else rv;
    XferLogs(env, base, b.calls, request, 0, p, retries);
    RdbuffAccess();
    var (calls, t) := SeqRetry(env, b.calls, request, 0, p, retries);
    if t.ack == OK {
      var b' := Block(calls, b.words + [t.data], b.count + 1, OK);
      if last {
        assert ReadWords(env, p, retries, rv, b', total) == b';
        assert Log(env, base, calls) == Reads(rv, k);
      } else {
        assert Reads(rv, k) + Accesses(rv, 0) == Reads(rv, k + 1);
        ReadWordsLog(env, base, p, retries, rv, b', total, k + 1);
      }
    }
  }

  /** An AP block read reads the AP and nothing else: exactly `n` times if it is free of
      errors; else once more than words came back, unless nothing was answered OK, and once
      more again if it was a read of the AP whose data arrived damaged. */
  lemma BlockReadsApOnce(env: Env, cfg: Config, calls: seq<Call>, rv: u8, n: nat)
    requires PlainAp(rv) && n > 0
    ensures var b := SeqReadBlock(env, cfg.params, cfg.waitRetries, rv, calls, n);
            var log := Log(env, |calls|, b.calls);
            && log == Reads(rv, |log|)
            && (b.status == OK ==> |log| == n)
            && (b.status != OK ==>
                  |log| == (if NoneOk(env, |calls|, b.calls) then 0 else b.count + 1) + |Damaged(env, |calls|, b.calls)|)
            && (NoneOk(env, |calls|, b.calls) ==> b.count == 0 && b.status != OK)
  {
    hide SeqRetry, ReadWords, Log, NoneOk, Damaged, Accesses;
    var (after, t) := SeqRetry(env, calls, rv, 0, cfg.params, cfg.waitRetries);
    XferLogs(env, |calls|, calls, rv, 0, cfg.params, cfg.waitRetries);
    ReadsOne(env, calls, rv);
    if t.ack == OK {
      ReadWordsLog(env, |calls|, cfg.params, cfg.waitRetries, rv, Block(after, [], 0, OK), n, 1);
      BlockStatus(env, cfg.params, cfg.waitRetries, rv, Block(after, [], 0, OK), n);
      var b := ReadWords(env, cfg.params, cfg.waitRetries, rv, Block(after, [], 0, OK), n);
      Collected(env, |calls|, after, b.calls);
    }
  }

  lemma ReadsOne(env: Env, calls: seq<Call>, rv: u8)
    requires PlainAp(rv)
    ensures Log(env, |calls|, calls) == Reads(rv, 0) == [] && Accesses(rv, 0) == Reads(rv, 1)
  {
  }

  lemma {:induction false} BlockStatus(env: Env, p: Params, retries: nat, rv: u8, b: Block, total: nat)
    requires b.count <= total
    ensures var r := ReadWords(env, p, retries, rv, b, total); r.status == OK <==> r.count == total
    decreases total - b.count
  {
    hide SeqRetry;
    if b.count < total {
      var request := if IsAp(rv) && b.count + 1 == total then RDBUFF_READ else rv;
      var (calls, t) := SeqRetry(env, b.calls, request, 0, p, retries);
      if t.ack == OK {
        BlockStatus(env, p, retries, rv, Block(calls, b.words + [t.data], b.count + 1, OK), total);
      }
    }
  }

  lemma {:induction false} WriteWordsLog(
    env: Env, base: nat, p: Params, retries: nat, rv: u8, b: Block, words: seq<u32>)
    requires !IsRead(rv) && IsAp(rv) && base <= |b.calls| && b.count <= |words|
    requires Log(env, base, b.calls) == Writes(rv, words[..b.count])
    ensures var r := WriteWords(env, p, retries, rv, b, words);
            && Log(env, base, r.calls) == Writes(rv, words[..r.count])
            && (r.status == OK ==> r.count == |words|)
    decreases |words| - b.count
  {
    hide Log, SeqRetry;
    if b.count == |words| {
      XferLogs(env, base, b.calls, RDBUFF_READ, 0, p, retries);
      RdbuffAccess();
    } else {
      var w := words[b.count];
      XferLogs(env, base, b.calls, rv, w, p, retries);
      var (calls, t) := SeqRetry(env, b.calls, rv, w, p, retries);
      if t.ack == OK {
        LowNibble(rv, w);
        assert Writes(rv, words[..b.count]) + Accesses(rv, w) == Writes(rv, words[..b.count + 1]);
        WriteWordsLog(env, base, p, retries, rv, Block(calls, b.words, b.count + 1, OK), words);
      }
    }
  }

  /** An AP block write makes exactly the writes it counts, in order, and nothing else;
      free of errors, all of them. */
  lemma BlockWritesApOnce(env: Env, cfg: Config, calls: seq<Call>, rv: u8, words: seq<u32>)
    requires !IsRead(rv) && IsAp(rv)
    ensures var b := SeqWriteBlock(env, cfg.params, cfg.waitRetries, rv, calls, words);
            && Log(env, |calls|, b.calls) == Writes(rv, words[..b.count])
            && (words != [] && b.status == OK ==> b.count == |words|)
  {
    hide WriteWords;
    if words != [] {
      WriteWordsLog(env, |calls|, cfg.params, cfg.waitRetries, rv, Block(calls, [], 0, OK), words);
    }
  }

  // Requests as bytes

  /** The next item of a request body, without its operand if the body ends before it. */
  function TakeItem(body: seq<u8>): Item
    requires body != []
  {
    Item(body[0], if ItemLen(body[0]) == 5 && |body| >= 5 then Some(FromLe32(body[1..5])) else None)
  }

  function AfterItem(body: seq<u8>): seq<u8>
    requires body != []
  {
    if ItemLen(body[0]) <= |body| then body[ItemLen(body[0])..] else []
  }

  /** The transfer loop on the bytes of a request: items are parsed as they execute, so
      those before a cut still run. */
  function RunBytes(env: Env, cfg: Config, room: nat, s: Run, body: seq<u8>, n: nat): Run
    decreases n
  {
    if n == 0 || !s.phase.Going? then s
    else if body == [] then s.(phase := Failed)
    else RunBytes(env, cfg, room, Step(env, cfg, room, s, TakeItem(body)), AfterItem(body), n - 1)
  }

  function Items(body: seq<u8>, n: nat): seq<Item>
    requires ListLen(Transfers, body, n).Some?
    decreases n
  {
    if n == 0 then [] else [TakeItem(body)] + Items(AfterItem(body), n - 1)
  }

  /** A body that holds all its items runs as its items. */
  lemma {:induction false} BytesAreItems(env: Env, cfg: Config, room: nat, s: Run, body: seq<u8>, n: nat)
    requires ListLen(Transfers, body, n).Some?
    ensures RunBytes(env, cfg, room, s, body, n) == RunItems(env, cfg, room, s, Items(body, n))
    ensures |Items(body, n)| == n && forall it :: it in Items(body, n) ==> Complete(it)
    decreases n
  {
    hide Step;
    if n > 0 {
      BytesAreItems(env, cfg, room, Step(env, cfg, room, s, TakeItem(body)), AfterItem(body), n - 1);
      assert Items(body, n)[1..] == Items(AfterItem(body), n - 1);
    }
  }
}
