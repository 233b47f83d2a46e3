/** The command processor: one DAP interface over a hardware driver. */
module Dap {
  import opened Words
  import opened Swd
  import opened Framing
  import opened DapTransfer
  import opened DapIo
  import opened Sequences

  const DAP_OK: u8 := 0
  const DAP_ERROR: u8 := 0xFF
  const INVALID: u8 := 0xFF
  const CAPABILITIES: u8 := 1
  const MAX_PINS_WAIT_US: nat := 3_000_000

  class Dap {
    const driver: Driver
    const port: Port
    const version: seq<u8>
    const packetSize: u16
    var params: Params
    /** `DAP_TransferConfigure` WAIT retries per transfer. */
    var waitRetries: u16
    /** `DAP_TransferConfigure` value-match retries. */
    var matchRetries: u16
    /** What a match compares under; only match-mask writes change it. */
    var matchMask: u32

    constructor (driver: Driver, port: Port, version: seq<u8>, packetSize: u16)
      ensures this.driver == driver && this.port == port && this.version == version && this.packetSize == packetSize
      ensures params == Params(1, false, 0) && waitRetries == 100 && matchRetries == 0 && matchMask == 0
    {
      this.driver, this.port, this.version, this.packetSize := driver, port, version, packetSize;
      params := Params(1, false, 0);
      waitRetries, matchRetries, matchMask := 100, 0, 0;
    }

    ghost function Cfg(): Config
      reads this`params, this`waitRetries, this`matchRetries
    {
      Config(params, waitRetries, matchRetries)
    }

    /** The driver, the match mask and the reply are as run `s` has them; `head` is the
        reply before its words. */
    ghost predicate Synced(s: Run, resp: Response, head: seq<u8>)
      reads this, driver, resp, resp.buf
    {
      && resp.Valid() && |head| == 3 && resp.buf[0] == head[0]
      && driver.calls == s.calls && matchMask == s.mask
      && (!s.phase.Failed? ==> resp.Written() == head + LeBytes(s.out))
    }

    ghost function Room(resp: Response): nat {
      if resp.buf.Length < 3 then 0 else (resp.buf.Length - 3) / 4
    }

    /** A bus cycle of the run: the driver makes the attempts `Cycle` makes. */
    method Xfer(ghost s: Run, request: u8, data: u32) returns (t: Transfer, ghost s': Run)
      requires driver.calls == s.calls && s.phase.Going?
      modifies driver
      ensures (s', t.data) == Cycle(driver.env, Cfg(), s, request, data)
      ensures driver.calls == s'.calls && t.ack == s'.status && (t.ack == OK <==> s'.phase.Going?)
      ensures t.ack != OK <==> s'.phase.Stopped?
    {
      t := driver.TransferRetry(request, data, params, waitRetries);
      s' := Cycle(driver.env, Cfg(), s, request, data).0;
    }

    /** Append a word to the reply. */
    method Reply(ghost s: Run, resp: Response, ghost head: seq<u8>, w: u32) returns (ok: bool, ghost s': Run)
      requires Synced(s, resp, head) && s.phase.Going?
      modifies resp, resp.buf
      ensures s' == Emit(s, Room(resp), w) && Synced(s', resp, head) && ok == s'.phase.Going?
    {
      LeBytesSnoc(s.out, w);
      ok := resp.U32(w);
      s' := Emit(s, Room(resp), w);
      assert head + LeBytes(s.out) + Le32(w) == head + (LeBytes(s.out) + Le32(w));
    }

    /** Append the timer to the reply if the request asks for it. */
    method Stamp(ghost s: Run, resp: Response, ghost head: seq<u8>, rv: u8) returns (ok: bool, ghost s': Run)
      requires Synced(s, resp, head) && s.phase.Going?
      modifies resp, resp.buf
      ensures s' == EmitStamp(driver.env, s, Room(resp), rv) && Synced(s', resp, head) && ok == s'.phase.Going?
    {
      if HasTimestamp(rv) {
        ok, s' := Reply(s, resp, head, driver.env.clock(driver.calls));
      } else {
        ok, s' := true, s;
      }
    }

    /** The first half of a pass, when a read is still in the target's buffer: its word ends
        the reply, unless the cycle fails or there is no room for it, and the run is as
        `Collect` leaves it. */
    method CollectPosted(ghost s: Run, resp: Response, ghost head: seq<u8>, rv: u8)
      returns (ok: bool, status: u8, posted: bool, ghost s': Run)
      requires Synced(s, resp, head) && s.phase.Going? && s.posted
      modifies driver, resp, resp.buf
      ensures s' == Collect(driver.env, Cfg(), Room(resp), s, rv) && Synced(s', resp, head)
      ensures ok == !s'.phase.Failed? && (ok ==> status == s'.status && posted == s'.posted)
      ensures ok ==> (status == OK <==> s'.phase.Going?)
      ensures s'.check == s.check && s'.count == s.count
    {
      hide SeqRetry, LeBytes;
      var t;
      if IsAp(rv) && IsRead(rv) && !HasMatchValue(rv) {
        posted := true;
        t, s' := Xfer(s, rv, 0);
      } else {
        posted := false;
        t, s' := Xfer(s.(posted := false), RDBUFF_READ, 0);
      }
      status := t.ack;
      ok := true;
      if status == OK {
        ok, s' := Reply(s', resp, head, t.data);
        if ok && posted {
          ok, s' := Stamp(s', resp, head, rv);
        }
      }
    }

    /** Read until the masked value is `target` or the match retries are used up. */
    method MatchUntil(rv: u8, target: u32) returns (t: Transfer)
      modifies driver
      ensures (driver.calls, t) == MatchLoop(driver.env, Cfg(), old(driver.calls), matchMask, rv, target, matchRetries)
    {
      hide SeqRetry, BitAnd;
      var matchRetry := matchRetries;
      ghost var cfg, goal := Cfg(), MatchLoop(driver.env, Cfg(), driver.calls, matchMask, rv, target, matchRetries);
      t := driver.TransferRetry(rv, 0, params, waitRetries);
      while t.ack == OK && BitAnd(t.data, matchMask) != target && matchRetry != 0
        invariant goal == if t.ack != OK || BitAnd(t.data, matchMask) == target || matchRetry == 0
                          then (driver.calls, t)
                          else MatchLoop(driver.env, cfg, driver.calls, matchMask, rv, target, matchRetry - 1)
        decreases matchRetry
      {
        matchRetry := matchRetry - 1;
        t := driver.TransferRetry(rv, 0, params, waitRetries);
      }
    }

    /** The reads of a match: the run is as `MatchRead` leaves it, and only the operand is consumed. */
    method ReadMatch(ghost s: Run, req: Request, resp: Response, ghost head: seq<u8>, rv: u8, ghost it: Item)
      returns (ok: bool, status: u8, ghost s': Run)
      requires Synced(s, resp, head) && s.phase.Going?
      requires it == Item(rv, if |req.data| >= 4 then Some(FromLe32(req.data[..4])) else None)
      modifies driver, req
      ensures s' == MatchRead(driver.env, Cfg(), s, it) && Synced(s', resp, head)
      ensures ok == !s'.phase.Failed? && (ok ==> status == s'.status && (status == OK <==> s'.phase.Going?))
      ensures if |old(req.data)| >= 4 then req.data == old(req.data)[4..] && req.underrun == old(req.underrun) else !ok
    {
      hide SeqRetry, LeBytes, BitAnd, MatchLoop;
      var target := req.U32();
      status := 0;
      if target.None? {
        return false, status, s.(phase := Failed);
      }
      s' := s;
      if IsAp(rv) {
        var posting;
        posting, s' := Xfer(s, rv, 0);
        if posting.ack != OK {
          return true, posting.ack, s';
        }
      }
      var t := MatchUntil(rv, target.value);
      status := t.ack;
      if status == OK && BitAnd(t.data, matchMask) != target.value {
        status := OK + MISMATCH;
      }
      ok := true;
      s' := MatchRead(driver.env, Cfg(), s, it);
    }

    /** A read's own part; `was` and `wasPosted` are the run's status and posted read. */
    method ReadTransfer(
      ghost s: Run, req: Request, resp: Response, ghost head: seq<u8>, rv: u8, ghost it: Item, was: u8, wasPosted: bool)
      returns (ok: bool, status: u8, posted: bool, ghost s': Run)
      requires Synced(s, resp, head) && s.phase.Going? && s.posted == wasPosted && s.status == was && IsRead(rv)
      requires wasPosted ==> was == OK
      requires it == Item(rv, if HasMatchValue(rv) && |req.data| >= 4 then Some(FromLe32(req.data[..4])) else None)
      modifies driver, req, resp, resp.buf
      ensures s' == ReadOwn(driver.env, Cfg(), Room(resp), s, it) && Synced(s', resp, head)
      ensures ok == !s'.phase.Failed?
      ensures ok ==> status == s'.status && posted == s'.posted && (s'.phase.Stopped? <==> status != OK)
      ensures s'.count == s.count
      ensures HasMatchValue(rv) ==>
                if |old(req.data)| >= 4 then req.data == old(req.data)[4..] && req.underrun == old(req.underrun) else !ok
      ensures !HasMatchValue(rv) ==> req.data == old(req.data) && req.underrun == old(req.underrun)
    {
      hide SeqRetry, LeBytes, BitAnd, MatchLoop;
      ok, status, posted, s' := true, was, wasPosted, s;
      if HasMatchValue(rv) {
        ok, status, s' := ReadMatch(s, req, resp, head, rv, it);
      } else if IsAp(rv) {
        if !wasPosted {
          // Nothing to reply yet: the value stays in the target.
          var t;
          t, s' := Xfer(s, rv, 0);
          status := t.ack;
          if status == OK {
            ok, s' := Stamp(s', resp, head, rv);
            if ok {
              posted := true;
              s' := s'.(posted := true);
            }
          }
        }
      } else {
        var t;
        t, s' := Xfer(s, rv, 0);
        status := t.ack;
        if status == OK {
          ok, s' := Stamp(s', resp, head, rv);
          if ok {
            ok, s' := Reply(s', resp, head, t.data);
          }
        }
      }
    }

    /** A write's own part: a match mask is kept, anything else goes to the target. */
    method WriteTransfer(
      ghost s: Run, req: Request, resp: Response, ghost head: seq<u8>, rv: u8, ghost it: Item, wasCheck: bool)
      returns (ok: bool, status: u8, check: bool, ghost s': Run)
      requires Synced(s, resp, head) && s.phase.Going? && s.check == wasCheck && !IsRead(rv)
      requires it == Item(rv, if |req.data| >= 4 then Some(FromLe32(req.data[..4])) else None)
      modifies `matchMask, driver, req, resp, resp.buf
      ensures s' == WriteOwn(driver.env, Cfg(), Room(resp), s, it) && Synced(s', resp, head)
      ensures ok == !s'.phase.Failed?
      ensures ok ==> status == s'.status && check == s'.check && (s'.phase.Stopped? <==> status != OK)
      ensures s'.posted == s.posted && s'.count == s.count
      ensures if |old(req.data)| >= 4 then req.data == old(req.data)[4..] && req.underrun == old(req.underrun) else !ok
    {
      hide SeqRetry, LeBytes;
      var data := req.U32();
      ok, status, check, s' := true, OK, wasCheck, s;
      if data.None? {
        return false, status, check, s.(phase := Failed);
      }
      if HasMatchMask(rv) {
        matchMask := data.value;
        s' := s.(mask := data.value, status := OK);
      } else {
        var t;
        t, s' := Xfer(s, rv, data.value);
        status := t.ack;
        if status == OK {
          ok, s' := Stamp(s', resp, head, rv);
          if ok {
            check := true;
            s' := s'.(check := true);
          }
        }
      }
    }

    /** One pass of the transfer loop, over the request from `body` on. */
    method OneTransfer(
      ghost s: Run, req: Request, resp: Response, ghost head: seq<u8>, was: u8, wasPosted: bool, wasCheck: bool)
      returns (ok: bool, status: u8, posted: bool, check: bool, ghost s': Run)
      requires Synced(s, resp, head) && s.phase.Going?
      requires s.status == was && s.posted == wasPosted && s.check == wasCheck && (wasPosted ==> was == OK)
      modifies `matchMask, driver, req, resp, resp.buf
      ensures Synced(s', resp, head) && ok == !s'.phase.Failed?
      ensures old(req.data) == [] ==> !ok && s' == s.(phase := Failed)
      ensures old(req.data) != [] ==>
                && s' == Step(driver.env, Cfg(), Room(resp), s, TakeItem(old(req.data)))
                && (s'.phase.Going? ==> req.data == AfterItem(old(req.data)))
      ensures ok ==> status == s'.status && (s'.phase.Stopped? <==> status != OK)
      ensures s'.phase.Going? ==> posted == s'.posted && check == s'.check
      ensures s'.count == if s'.phase.Going? then s.count + 1 else s.count
      ensures old(req.data) != [] && ItemLen(old(req.data)[0]) <= |old(req.data)| ==>
                req.underrun == old(req.underrun) && |old(req.data)| - ItemLen(old(req.data)[0]) <= |req.data|
    {
      hide SeqRetry, LeBytes, Collect, ReadOwn, WriteOwn, Cycle, Emit, FromLe32;
      ok, status, posted, check, s' := false, was, wasPosted, wasCheck, s.(phase := Failed);
      ghost var body := req.data;
      var rv := req.U8();
      if rv.None? {
        return;
      }
      ghost var it := TakeItem(body);
      AfterRequestByte(body);
      ok, s' := true, s;
      if posted {
        ok, status, posted, s' := CollectPosted(s, resp, head, rv.value);
        if !ok || status != OK {
          return;
        }
      }
      if IsRead(rv.value) {
        ok, status, posted, s' := ReadTransfer(s', req, resp, head, rv.value, it, status, posted);
        if !ok || status != OK {
          return;
        }
        check := false;
      } else {
        ok, status, check, s' := WriteTransfer(s', req, resp, head, rv.value, it, check);
        if !ok || status != OK {
          return;
        }
      }
      s' := s'.(count := s'.count + 1, check := check);
    }

    /** After the last transfer, and the count and status at the head of the reply. */
    method FinishTransfer(
      ghost s: Run, resp: Response, ghost lead: seq<u8>, last: u8, posted: bool, check: bool, count: u8)
      returns (ok: bool, ghost s': Run)
      requires Synced(s, resp, lead) && !s.phase.Failed? && (s.phase.Stopped? ==> last != OK)
      requires s.status == last && s.count == count && (s.phase.Going? ==> s.posted == posted && s.check == check)
      modifies driver, resp, resp.buf
      ensures s' == Finish(driver.env, Cfg(), Room(resp), s) && driver.calls == s'.calls && matchMask == s'.mask
      ensures s'.count == s.count
      ensures resp.Valid() && resp.buf[0] == lead[0] && ok == !s'.phase.Failed?
      ensures ok ==> s'.count < 0x100
                     && resp.Written() == lead[1 := s'.count][2 := s'.status] + LeBytes(s'.out)
    {
      hide SeqRetry, LeBytes;
      var status := last;
      ok, s' := true, s;
      if status == OK {
        if posted {
          var t;
          t, s' := Xfer(s, RDBUFF_READ, 0);
          status := t.ack;
          if status == OK {
            ok, s' := Reply(s', resp, lead, t.data);
          }
        } else if check {
          var t;
          t, s' := Xfer(s, RDBUFF_READ, 0);
          status := t.ack;
        }
      }
      if ok {
        resp.SetU8(1, count);
        resp.SetU8(2, status);
      }
    }

    /** The transfers of a request, while they succeed. */
    method TransferLoop(ghost s0: Run, req: Request, resp: Response, ghost head: seq<u8>, total: u8)
      returns (ok: bool, count: u8, status: u8, posted: bool, check: bool, ghost s: Run)
      requires Synced(s0, resp, head) && s0.phase.Going?
      requires s0.count == s0.status == 0 && !s0.posted && !s0.check
      modifies `matchMask, driver, req, resp, resp.buf
      ensures s == RunBytes(driver.env, Cfg(), Room(resp), s0, old(req.data), total)
      ensures Synced(s, resp, head) && ok == !s.phase.Failed?
      ensures ok ==> s.count == count && s.status == status && (s.phase.Stopped? ==> status != OK)
      ensures ok ==> (s.phase.Going? <==> count == total)
      ensures s.phase.Going? ==> s.posted == posted && s.check == check
      ensures ListLen(Transfers, old(req.data), total).Some? ==>
                && req.underrun == old(req.underrun)
                && |req.data| + ListLen(Transfers, old(req.data), total).value >= |old(req.data)|
                && (s.phase.Going? ==> |req.data| + ListLen(Transfers, old(req.data), total).value == |old(req.data)|)
    {
      hide SeqRetry, LeBytes, Step, TakeItem, Dap.Synced;
      ok, count, status, posted, check, s := true, 0, 0, false, false, s0;
      var remaining := total;
      ghost var goal := RunBytes(driver.env, Cfg(), Room(resp), s0, req.data, total);
      while remaining > 0
        invariant Synced(s, resp, head) && s.phase.Going? && ok
        invariant s.count == count && s.status == status && s.posted == posted && s.check == check
        invariant count as nat + remaining as nat == total && (posted ==> status == OK)
        invariant goal == RunBytes(driver.env, Cfg(), Room(resp), s, req.data, remaining)
        invariant ListLen(Transfers, old(req.data), total).Some? ==>
                    && req.underrun == old(req.underrun) && ListLen(Transfers, req.data, remaining).Some?
                    && |req.data| + ListLen(Transfers, old(req.data), total).value
                       == |old(req.data)| + ListLen(Transfers, req.data, remaining).value
      {
        remaining := remaining - 1;
        ok, status, posted, check, s := OneTransfer(s, req, resp, head, status, posted, check);
        if !ok || status != OK {
          return;
        }
        count := count + 1;
      }
    }

    /** How a `DAP_Transfer` with this payload ends, for a reply of `size` bytes. */
    ghost function EndOf(payload: seq<u8>, size: nat, calls: seq<Call>, mask: u32): Run
      reads this`params, this`waitRetries, this`matchRetries
    {
      if |payload| < 2 || size < 3 then Begin(calls, mask).(phase := Failed)
      else
        var room := (size - 3) / 4;
        Finish(driver.env, Cfg(), room, RunBytes(driver.env, Cfg(), room, Begin(calls, mask), payload[2..], payload[1]))
    }

    /** The transfers of a request and what follows them, over a reply whose head is reserved. */
    method TransferBody(req: Request, resp: Response, ghost lead: seq<u8>, total: u8) returns (ok: bool, ghost s: Run)
      requires resp.Valid() && |lead| == 3 && resp.Written() == lead
      modifies `matchMask, driver, req, resp, resp.buf
      ensures Kept(resp) && Cfg() == old(Cfg())
      ensures s == Finish(driver.env, Cfg(), Room(resp),
                          RunBytes(driver.env, Cfg(), Room(resp), Begin(old(driver.calls), old(matchMask)),
                                   old(req.data), total))
      ensures ok == !s.phase.Failed? && driver.calls == s.calls && matchMask == s.mask
      ensures ok ==> s.count < 0x100 && resp.Written() == lead[1 := s.count][2 := s.status] + LeBytes(s.out)
      ensures var len := ListLen(Transfers, old(req.data), total);
              len.Some? ==>
                && req.Within(len.value)
                && (ok && s.count == total ==> |old(req.data)| == |req.data| + len.value)
    {
      hide SeqRetry, LeBytes, Finish, RunBytes, ListLen;
      NoWords(lead);
      s := Begin(driver.calls, matchMask);
      var count, status, posted, check;
      ok, count, status, posted, check, s := TransferLoop(s, req, resp, lead, total);
      if ok {
        ok, s := FinishTransfer(s, resp, lead, status, posted, check, count);
      } else {
        FailedStays(driver.env, Cfg(), Room(resp), s);
      }
    }

    /** `DAP_Transfer`; false when the request is cut short or the reply is full. */
    method Transfer(req: Request, resp: Response) returns (ok: bool)
      requires resp.Valid() && resp.len == 1
      modifies `matchMask, driver, req, resp, resp.buf
      ensures Kept(resp) && Cfg() == old(Cfg())
      ensures var f := EndOf(old(req.data), resp.buf.Length, old(driver.calls), old(matchMask));
              && ok == !f.phase.Failed? && driver.calls == f.calls && matchMask == f.mask
              && (ok ==> f.count < 0x100
                         && resp.Written() == old(resp.Written()) + [f.count, f.status] + LeBytes(f.out))
              && (|old(req.data)| >= 2 ==>
                    var n := old(req.data)[1];
                    var len := ListLen(Transfers, old(req.data)[2..], n);
                    len.Some? ==>
                      && req.Within(2 + len.value)
                      && (ok && f.count == n ==> |old(req.data)| == |req.data| + 2 + len.value))
    {
      hide SeqRetry, LeBytes, Finish, RunBytes, ListLen;
      ok := false;
      var index := req.U8();
      if index.None? {
        return;
      }
      var total := req.U8();
      if total.None? {
        return;
      }
      var head := resp.Reserve(2);
      if head.None? {
        return;
      }
      ghost var lead := resp.Written();
      assert lead == old(resp.Written()) + [0, 0];
      ghost var s;
      ok, s := TransferBody(req, resp, lead, total.value);
    }

    /** What a block of `total` transfers does, from its request byte on, if its request
        holds its words and its reply has room for them. */
    ghost function BodyOf(body: seq<u8>, size: nat, calls: seq<Call>, total: u16): Option<Block>
      reads this`params, this`waitRetries
    {
      if body == [] then None
      else if IsRead(body[0]) then
        if size < 4 + 4 * total then None
        else Some(SeqReadBlock(driver.env, params, waitRetries, body[0], calls, total))
      else if |body| < 1 + 4 * total then None
      else Some(SeqWriteBlock(driver.env, params, waitRetries, body[0], calls, WordsOf(body[1..1 + 4 * total])))
    }

    /** What a block command does. */
    ghost function BlockOf(payload: seq<u8>, size: nat, calls: seq<Call>): Option<Block>
      reads this`params, this`waitRetries
    {
      if |payload| < 3 || size < 4 then None
      else
        var total := FromLe16(payload[1..3]);
        if total == 0 then Some(Block(calls, [], 0, 0)) else BodyOf(payload[3..], size, calls, total)
    }

    /** The words of a block, read to the end of the reply. */
    method BlockRead(rv: u8, resp: Response, total: u16) returns (ok: bool, count: u16, status: u8)
      requires resp.Valid() && resp.len == 4 && total > 0
      modifies driver, resp, resp.buf
      ensures Kept(resp) && ok == (4 + 4 * total <= resp.buf.Length)
      ensures if ok then
                var b := SeqReadBlock(driver.env, params, waitRetries, rv, old(driver.calls), total);
                && driver.calls == b.calls && count == b.count && status == b.status
                && resp.Written() == old(resp.Written()) + LeBytes(b.words)
              else driver.calls == old(driver.calls)
    {
      hide SeqRetry, LeBytes, SeqReadBlock, Overlay;
      ok, count, status := false, 0, 0;
      ghost var head := resp.Written();
      var at := resp.Reserve(4 * total);
      if at.Some? {
        ghost var was := resp.buf[..];
        assert resp.Written()[..4] == head;
        assert was[..4] == resp.Written()[..4];
        count, status := driver.ReadBlock(rv, resp.buf, at.value, 4 * total, params, waitRetries);
        ghost var b := SeqReadBlock(driver.env, params, waitRetries, rv, old(driver.calls), total);
        OverlaidFront(was, 4, LeBytes(b.words));
        resp.Truncate(at.value + 4 * count);
        assert resp.Written() == resp.buf[..][..4 + 4 * count] == head + LeBytes(b.words);
        assert resp.buf[0] == resp.Written()[0] == head[0];
        ok := true;
      }
    }

    /** The words of a block, written from the request. */
    method BlockWrite(rv: u8, req: Request, total: u16) returns (ok: bool, count: u16, status: u8)
      requires total > 0
      modifies driver, req
      ensures ok == (4 * total <= |old(req.data)|) && req.Within(4 * total)
      ensures if ok then
                var b := SeqWriteBlock(driver.env, params, waitRetries, rv, old(driver.calls),
                                       WordsOf(old(req.data)[..4 * total]));
                && driver.calls == b.calls && count == b.count && status == b.status
                && |old(req.data)| == |req.data| + 4 * total
              else driver.calls == old(driver.calls)
    {
      hide SeqRetry, WordsOf, SeqWriteBlock;
      ok, count, status := false, 0, 0;
      var data := req.Bytes(4 * total);
      if data.Some? {
        count, status := driver.WriteBlock(rv, data.value, params, waitRetries);
        ok := true;
      }
    }

    /** The request byte and the words of a block. */
    method BlockBody(req: Request, resp: Response, total: u16) returns (ok: bool, count: u16, status: u8)
      requires resp.Valid() && resp.len == 4 && total > 0
      modifies driver, req, resp, resp.buf
      ensures Kept(resp)
      ensures var b := BodyOf(old(req.data), resp.buf.Length, old(driver.calls), total);
              if b.None? then !ok && driver.calls == old(driver.calls)
              else ok && driver.calls == b.value.calls && count == b.value.count && status == b.value.status
                   && resp.Written() == old(resp.Written()) + LeBytes(b.value.words)
      ensures old(req.data) != [] ==>
                var n := if IsRead(old(req.data)[0]) then 1 else 1 + 4 * total;
                req.Within(n) && (ok ==> |old(req.data)| == |req.data| + n)
    {
      hide SeqRetry, LeBytes, WordsOf, SeqReadBlock, SeqWriteBlock;
      ok, count, status := false, 0, 0;
      ghost var data := req.data;
      NoWords(resp.Written());
      var rv := req.U8();
      if rv.None? {
        return;
      }
      if IsRead(rv.value) {
        ok, count, status := BlockRead(rv.value, resp, total);
      } else {
        assert 1 + 4 * total <= |data| ==> req.data[..4 * total] == data[1..1 + 4 * total];
        ok, count, status := BlockWrite(rv.value, req, total);
      }
    }

    /** The count and status at the head of a block reply. */
    method PutBlockHead(resp: Response, ghost head: seq<u8>, ghost words: seq<u8>, count: u16, status: u8)
      requires resp.Valid() && |head| == 1 && resp.Written() == head + [0, 0, 0] + words
      modifies resp.buf
      ensures Kept(resp) && resp.Written() == head + Le16(count) + [status] + words
    {
      resp.SetU16(1, count);
      resp.SetU8(3, status);
    }

    /** `DAP_TransferBlock`: the reply is the block's count, status and words, and without the
        request's words or the room for a reply nothing is attempted. */
    method TransferBlock(req: Request, resp: Response) returns (ok: bool)
      requires resp.Valid() && resp.len == 1
      modifies driver, req, resp, resp.buf
      ensures Kept(resp)
      ensures var b := BlockOf(old(req.data), resp.buf.Length, old(driver.calls));
              if b.None? then !ok && driver.calls == old(driver.calls)
              else ok && driver.calls == b.value.calls && b.value.count < 0x1_0000
                   && resp.Written() == old(resp.Written()) + Le16(b.value.count) + [b.value.status]
                                        + LeBytes(b.value.words)
      ensures BlockLen(old(req.data)).Some? ==>
                && req.Within(BlockLen(old(req.data)).value)
                && (ok ==> |old(req.data)| == |req.data| + BlockLen(old(req.data)).value
                                              - if FromLe16(old(req.data)[1..3]) == 0 then 1 else 0)
    {
      hide LeBytes, Le16, Dap.BodyOf, FromLe16;
      ok := false;
      ghost var data, lead, words := req.data, resp.Written(), LeBytes([]);
      NoWords([]);
      var index := req.U8();
      if index.None? {
        return;
      }
      var total := req.U16();
      if total.None? {
        return;
      }
      assert data[1..][..2] == data[1..3] && req.data == data[3..];
      var head := resp.Reserve(3);
      if head.None? {
        return;
      }
      assert seq(3, _ => 0) == [0, 0, 0];
      var count: u16, status: u8 := 0, 0;
      if total.value > 0 {
        ok, count, status := BlockBody(req, resp, total.value);
        if !ok {
          return;
        }
        words := LeBytes(BodyOf(data[3..], resp.buf.Length, old(driver.calls), total.value).value.words);
      }
      ok := true;
      PutBlockHead(resp, lead, words, count, status);
    }

    /** One sequence, written to the port or read into the reply. */
    method OneSequence(ghost s: Played, req: Request, resp: Response, ghost lead: seq<u8>, ghost n: nat)
      returns (ok: bool, ghost s': Played)
      requires resp.Valid() && |lead| == 2 && s.ok && s.acts == port.acts && resp.Written() == lead + s.out && n > 0
      modifies port, req, resp, resp.buf
      ensures Kept(resp) && ok == s'.ok && s'.acts == port.acts && (ok ==> resp.Written() == lead + s'.out)
      ensures var room, body := resp.buf.Length - 2, old(req.data);
              RunSequences(port.env, room, s, body, n)
              == if ok then RunSequences(port.env, room, s', req.data, n - 1) else s'
      ensures var body := old(req.data);
              body != [] && EntryLen(SwdSequences, body[0]) <= |body| ==>
                && req.underrun == old(req.underrun)
                && (if ok then req.data == body[EntryLen(SwdSequences, body[0])..]
                    else |req.data| + EntryLen(SwdSequences, body[0]) >= |body|)
    {
      hide BytesRead, RunSequences, EntryLen, SequenceBits, DivCeil8;
      OneMore(port.env, resp.buf.Length - 2, s, req.data, n);
      ok, s' := false, s.(ok := false);
      ghost var before := req.data;
      var info := req.U8();
      if info.None? {
        return;
      }
      var bits := SequenceBits(info.value);
      if info.value < 0x80 {
        var data := req.Bytes(DivCeil8(bits));
        if data.None? {
          return;
        }
        assert data.value == before[1..1 + DivCeil8(bits)] && req.data == before[1 + DivCeil8(bits)..];
        port.Do(WriteSequence(bits, data.value));
        s' := s.(acts := port.acts);
      } else {
        var at := resp.Reserve(DivCeil8(bits));
        if at.None? {
          return;
        }
        ghost var was := resp.buf[..];
        port.ReadBits(bits, resp.buf, at.value);
        ghost var bytes := BytesRead(port.env, port.acts, DivCeil8(bits));
        s' := Played(port.acts, s.out + bytes, true);
        assert resp.Written() == was[..at.value] + bytes;
        assert was[..at.value] == lead + s.out;
      }
      ok := true;
    }

    /** `DAP_SWD_Sequence`. */
    method SwdSequence(req: Request, resp: Response) returns (ok: bool)
      requires resp.Valid() && resp.len == 1 && resp.buf.Length >= 2
      modifies port, req, resp, resp.buf
      ensures Kept(resp)
      ensures if old(req.data) == [] then !ok && port.acts == old(port.acts)
              else
                var r := RunSequences(port.env, resp.buf.Length - 2, Played(old(port.acts), [], true),
                                      old(req.data)[1..], old(req.data)[0]);
                && ok == r.ok && port.acts == r.acts
                && (ok ==> resp.Written() == old(resp.Written()) + [DAP_OK] + r.out)
      ensures old(req.data) != [] ==>
                var len := ListLen(SwdSequences, old(req.data)[1..], old(req.data)[0]);
                len.Some? ==> req.Within(1 + len.value) && (ok ==> |old(req.data)| == |req.data| + 1 + len.value)
    {
      hide BytesRead, RunSequences, EntryLen, ListLen;
      ok := false;
      var count := req.U8();
      if count.None? {
        return;
      }
      ok := resp.U8(DAP_OK);
      ghost var s, lead := Played(port.acts, [], true), resp.Written();
      ghost var body, len := req.data, ListLen(SwdSequences, req.data, count.value);
      var i := 0;
      while i < count.value
        invariant i <= count.value && Kept(resp) && ok && s.ok
        invariant s.acts == port.acts && resp.Written() == lead + s.out
        invariant RunSequences(port.env, resp.buf.Length - 2, Played(old(port.acts), [], true), body, count.value)
               == RunSequences(port.env, resp.buf.Length - 2, s, req.data, count.value - i)
        invariant len.Some? ==>
                    var rest := ListLen(SwdSequences, req.data, count.value - i);
                    && req.underrun == old(req.underrun) && rest.Some?
                    && |body| + rest.value == |req.data| + len.value
      {
        if len.Some? {
          FirstEntry(SwdSequences, req.data, count.value - i);
        }
        ok, s := OneSequence(s, req, resp, lead, count.value - i);
        if !ok {
          return;
        }
        i := i + 1;
      }
      NoSequences(port.env, resp.buf.Length - 2, s, req.data);
      NoEntries(SwdSequences, req.data);
    }

    /** A response just opened. */
    ghost predicate Opened(resp: Response)
      reads resp, resp.buf
    {
      resp.Valid() && resp.len == 1 && resp.buf.Length >= 2
    }

    /** The command id still leads the reply. */
    twostate predicate Kept(resp: Response)
      reads resp, resp.buf
    {
      old(resp.Valid()) && resp.Valid() && resp.buf[0] == old(resp.buf[0])
    }

    /** The value `DAP_Info` reports for `id`, after its length. */
    function InfoValue(id: u8): seq<u8> {
      if id == 0x04 then [|version| % 0x100] + version
      else if id == 0xF0 then [1, CAPABILITIES]
      else if id == 0xFE then [1, 1]
      else if id == 0xFD then [4, 0, 0, 0, 0]
      else if id == 0xFF then [2] + Le16(packetSize)
      else [0]
    }

    /** What a command with payload `d` makes the port do, sequence lists aside. */
    function PortActs(command: u8, d: seq<u8>): seq<Act> {
      if command == HOST_STATUS && |d| >= 2 && d[0] <= 1 then [HostStatus(d[0], d[1] != 0)]
      else if command == CONNECT && |d| >= 1 && d[0] <= 1 then [Connect]
      else if command == DISCONNECT then [Disconnect]
      else if command == DELAY && |d| >= 2 then [Delay(FromLe16(d[..2]))]
      else if command == SWJ_PINS && |d| >= 6 then
        var us := FromLe32(d[2..6]);
        [SetPins(d[0], d[1], if us <= MAX_PINS_WAIT_US then us else MAX_PINS_WAIT_US)]
      else if command == SWJ_CLOCK && |d| >= 4 then [SetClock(FromLe32(d[..4]))]
      else if command == SWJ_SEQUENCE && |d| >= 1 && 1 + SwjBytes(d[0]) <= |d| then
        [WriteSequence(if d[0] == 0 then 256 else d[0], d[1..1 + SwjBytes(d[0])])]
      else []
    }

    /** The settings after a command. */
    function Settings(command: u8, d: seq<u8>, cfg: Config): Config {
      if command == SWD_CONFIGURE && |d| >= 1 then
        cfg.(params := Params(d[0] % 4 + 1, d[0] / 4 % 2 == 1, cfg.params.idleCycles))
      else if command == TRANSFER_CONFIGURE then
        Config(if |d| >= 1 then cfg.params.(idleCycles := d[0]) else cfg.params,
               if |d| >= 3 then FromLe16(d[1..3]) else cfg.waitRetries,
               if |d| >= 5 then FromLe16(d[3..5]) else cfg.matchRetries)
      else cfg
    }

    /** What a command answers after its id, the port having done `acts`; `None` is an error. */
    function PlainReply(command: u8, d: seq<u8>, acts: seq<Act>): Option<seq<u8>> {
      if command == INFO then if |d| >= 1 then Some(InfoValue(d[0])) else None
      else if command == CONNECT then if |d| >= 1 then Some([if d[0] <= 1 then 1 else 0]) else None
      else if command == SWJ_PINS then if |d| >= 6 then Some([port.env.pins(acts)]) else None
      else if command == SWJ_CLOCK then
        if |d| >= 4 then Some([if port.env.clock(acts) then DAP_OK else DAP_ERROR]) else None
      else if command == RESET_TARGET then Some([DAP_OK, 0])
      else if command == SWO_BAUDRATE then Some([0, 0, 0, 0])
      else if command == SWO_STATUS then Some([0, 0, 0, 0, 0])
      else if command == SWO_EXTENDED_STATUS then Some(seq(13, _ => 0))
      else if command == SWO_DATA then Some([0, 0, 0])
      else if || (command == HOST_STATUS && |d| >= 2 && d[0] <= 1)
              || command == DISCONNECT
              || (command == TRANSFER_CONFIGURE && |d| >= 5)
              || (command == WRITE_ABORT && |d| >= 5)
              || (command == DELAY && |d| >= 2)
              || (command == SWD_CONFIGURE && |d| >= 1)
              || (command == SWJ_SEQUENCE && |d| >= 1 && 1 + SwjBytes(d[0]) <= |d|)
              || (command == SWO_TRANSPORT && |d| >= 1 && d[0] <= 2) then Some([DAP_OK])
      else None
    }

    /** The reply holds `answer` after `before`, as far as there is one and it fits. */
    ghost predicate Replied(resp: Response, before: seq<u8>, answer: Option<seq<u8>>, ok: bool)
      reads resp, resp.buf
    {
      && resp.Valid() && ok == (answer.Some? && |before| + |answer.value| <= resp.buf.Length)
      && (ok ==> resp.Written() == before + answer.value)
    }

    /** The reply is the one a command with payload `req` has. */
    twostate predicate Answers(command: u8, req: Request, resp: Response, ok: bool)
      reads port, resp, resp.buf
    {
      Kept(resp) && Replied(resp, old(resp.Written()), PlainReply(command, old(req.data), port.acts), ok)
    }

    method Info(req: Request, resp: Response) returns (ok: bool)
      requires Opened(resp)
      modifies req, resp, resp.buf
      ensures Answers(INFO, req, resp, ok) && req.Within(1)
    {
      var id := req.U8();
      ok := false;
      if id.Some? {
        ok := resp.Slice(InfoValue(id.value));
      }
    }

    method HostStatusCommand(req: Request, resp: Response) returns (ok: bool)
      requires Opened(resp)
      modifies port, req, resp, resp.buf
      ensures Answers(HOST_STATUS, req, resp, ok) && req.Within(2)
      ensures port.acts == old(port.acts) + PortActs(HOST_STATUS, old(req.data))
    {
      ok := false;
      var kind := req.U8();
      if kind.Some? {
        var value := req.U8();
        if value.Some? && kind.value <= 1 {
          port.Do(HostStatus(kind.value, value.value != 0));
          ok := resp.U8(DAP_OK);
        }
      }
    }

    /** The SWD port is taken; JTAG or an unknown port is not. */
    method ConnectCommand(req: Request, resp: Response) returns (ok: bool)
      requires Opened(resp)
      modifies port, req, resp, resp.buf
      ensures Answers(CONNECT, req, resp, ok) && req.Within(1)
      ensures port.acts == old(port.acts) + PortActs(CONNECT, old(req.data))
    {
      ok := false;
      var which := req.U8();
      if which.Some? {
        if which.value <= 1 {
          port.Do(Connect);
        }
        ok := resp.U8(if which.value <= 1 then 1 else 0);
      }
    }

    /** Settings are taken one by one, so a payload cut short sets those before the cut. */
    method TransferConfigure(req: Request, resp: Response) returns (ok: bool)
      requires Opened(resp)
      modifies `params, `waitRetries, `matchRetries, req, resp, resp.buf
      ensures Answers(TRANSFER_CONFIGURE, req, resp, ok) && req.Within(5)
      ensures Cfg() == Settings(TRANSFER_CONFIGURE, old(req.data), old(Cfg()))
    {
      ok := false;
      ghost var d := req.data;
      var idle := req.U8();
      if idle.None? {
        return;
      }
      params := params.(idleCycles := idle.value);
      var wait := req.U16();
      if wait.None? {
        return;
      }
      assert wait.value == FromLe16(d[1..3]);
      waitRetries := wait.value;
      var match_ := req.U16();
      if match_.None? {
        return;
      }
      assert match_.value == FromLe16(d[3..5]);
      matchRetries := match_.value;
      ok := resp.U8(DAP_OK);
    }

    /** Turnaround 1..4 and the data phase; any byte gives valid settings. */
    method SwdConfigure(req: Request, resp: Response) returns (ok: bool)
      requires Opened(resp) && ValidParams(params)
      modifies `params, req, resp, resp.buf
      ensures Answers(SWD_CONFIGURE, req, resp, ok) && req.Within(1) && ValidParams(params)
      ensures Cfg() == Settings(SWD_CONFIGURE, old(req.data), old(Cfg()))
    {
      ok := false;
      var config := req.U8();
      if config.Some? {
        params := params.(turnaround := config.value % 4 + 1, dataPhase := config.value / 4 % 2 == 1);
        ok := resp.U8(DAP_OK);
      }
    }

    /** One write of ABORT, whatever the target answers. */
    method WriteAbort(req: Request, resp: Response) returns (ok: bool)
      requires Opened(resp)
      modifies driver, req, resp, resp.buf
      ensures Answers(WRITE_ABORT, req, resp, ok) && req.Within(5)
      ensures driver.calls == old(driver.calls) + Aborts(WRITE_ABORT, old(req.data), params)
    {
      ok := false;
      ghost var d := req.data;
      var index := req.U8();
      if index.Some? {
        var word := req.U32();
        if word.Some? {
          assert word.value == FromLe32(d[1..5]);
          var _ := driver.TransferOnce(ABORT_WRITE, word.value, params);
          ok := resp.U8(DAP_OK);
        }
      }
    }

    method DelayCommand(req: Request, resp: Response) returns (ok: bool)
      requires Opened(resp)
      modifies port, req, resp, resp.buf
      ensures Answers(DELAY, req, resp, ok) && req.Within(2)
      ensures port.acts == old(port.acts) + PortActs(DELAY, old(req.data))
    {
      ok := false;
      var us := req.U16();
      if us.Some? {
        port.Do(Delay(us.value));
        ok := resp.U8(DAP_OK);
      }
    }

    /** A longer wait than `MAX_PINS_WAIT_US` is cut to it. */
    method SwjPins(req: Request, resp: Response) returns (ok: bool)
      requires Opened(resp)
      modifies port, req, resp, resp.buf
      ensures Answers(SWJ_PINS, req, resp, ok) && req.Within(6)
      ensures port.acts == old(port.acts) + PortActs(SWJ_PINS, old(req.data))
    {
      ok := false;
      ghost var d := req.data;
      var output := req.U8();
      if output.None? {
        return;
      }
      var mask := req.U8();
      if mask.None? {
        return;
      }
      var wait := req.U32();
      if wait.None? {
        return;
      }
      assert wait.value == FromLe32(d[2..6]);
      var us: nat := if wait.value <= MAX_PINS_WAIT_US then wait.value else MAX_PINS_WAIT_US;
      port.Do(SetPins(output.value, mask.value, us));
      ok := resp.U8(port.env.pins(port.acts));
    }

    method SwjClock(req: Request, resp: Response) returns (ok: bool)
      requires Opened(resp)
      modifies port, req, resp, resp.buf
      ensures Answers(SWJ_CLOCK, req, resp, ok) && req.Within(4)
      ensures port.acts == old(port.acts) + PortActs(SWJ_CLOCK, old(req.data))
    {
      ok := false;
      var hz := req.U32();
      if hz.Some? {
        port.Do(SetClock(hz.value));
        ok := resp.U8(if port.env.clock(port.acts) then DAP_OK else DAP_ERROR);
      }
    }

    /** `DAP_SWJ_Sequence`: 1 to 256 bits clocked out, if all their bytes are there. */
    method SwjSequence(req: Request, resp: Response) returns (ok: bool)
      requires Opened(resp)
      modifies port, req, resp, resp.buf
      ensures Answers(SWJ_SEQUENCE, req, resp, ok)
      ensures port.acts == old(port.acts) + PortActs(SWJ_SEQUENCE, old(req.data))
      ensures old(req.data) != [] ==>
                var len := 1 + SwjBytes(old(req.data)[0]);
                req.Within(len) && (ok ==> |old(req.data)| == |req.data| + len)
    {
      ok := false;
      ghost var d := req.data;
      var n := req.U8();
      if n.Some? {
        var data := req.Bytes(SwjBytes(n.value));
        if data.Some? {
          assert data.value == d[1..1 + SwjBytes(n.value)];
          port.Do(WriteSequence(if n.value == 0 then 256 else n.value, data.value));
          ok := resp.U8(DAP_OK);
        }
      }
    }

    /** No SWO: only transports 0 to 2 are accepted. */
    method SwoTransport(req: Request, resp: Response) returns (ok: bool)
      requires Opened(resp)
      modifies req, resp, resp.buf
      ensures Answers(SWO_TRANSPORT, req, resp, ok) && req.Within(1)
    {
      ok := false;
      var which := req.U8();
      if which.Some? && which.value <= 2 {
        ok := resp.U8(DAP_OK);
      }
    }

    /** Commands that only answer. */
    method FixedReply(command: u8, req: Request, resp: Response) returns (ok: bool)
      requires Opened(resp)
      requires command in {RESET_TARGET, SWO_BAUDRATE, SWO_STATUS, SWO_EXTENDED_STATUS, SWO_DATA}
      modifies resp, resp.buf
      ensures Answers(command, req, resp, ok)
    {
      if command == RESET_TARGET {
        ok := resp.Slice([DAP_OK, 0]);
      } else if command == SWO_BAUDRATE {
        ok := resp.U32(0);
      } else if command == SWO_STATUS {
        ok := resp.Slice([0, 0, 0, 0, 0]);
      } else if command == SWO_EXTENDED_STATUS {
        ok := resp.Slice(seq(13, _ => 0));
      } else {
        ok := resp.Slice([0, 0, 0]);
      }
    }

    /** Commands that go to the port. */
    method PortCommand(command: u8, req: Request, resp: Response) returns (ok: bool)
      requires Opened(resp) && command in {HOST_STATUS, CONNECT, DISCONNECT, DELAY, SWJ_PINS, SWJ_CLOCK}
      modifies port, req, resp, resp.buf
      ensures Answers(command, req, resp, ok) && req.Within(PortLen(command))
      ensures port.acts == old(port.acts) + PortActs(command, old(req.data))
    {
      hide FromLe16, FromLe32;
      if command == HOST_STATUS {
        ok := HostStatusCommand(req, resp);
      } else if command == CONNECT {
        ok := ConnectCommand(req, resp);
      } else if command == DISCONNECT {
        port.Do(Disconnect);
        ok := resp.U8(DAP_OK);
      } else if command == DELAY {
        ok := DelayCommand(req, resp);
      } else if command == SWJ_PINS {
        ok := SwjPins(req, resp);
      } else {
        ok := SwjClock(req, resp);
      }
    }

    /** Payload length of a command that goes to the port. */
    function PortLen(command: u8): nat {
      if command == DISCONNECT then 0
      else if command == CONNECT then 1
      else if command == HOST_STATUS || command == DELAY then 2
      else if command == SWJ_CLOCK then 4
      else 6
    }

    /** Every command but transfers and sequences. */
    method PlainCommand(command: u8, req: Request, resp: Response, ghost request: seq<u8>) returns (ok: bool)
      requires Opened(resp) && ValidParams(params) && request == [command] + req.data
      requires command !in {TRANSFER, TRANSFER_BLOCK, SWJ_SEQUENCE, SWD_SEQUENCE}
      modifies `params, `waitRetries, `matchRetries, driver, port, req, resp, resp.buf
      ensures Answers(command, req, resp, ok) && ValidParams(params)
      ensures port.acts == old(port.acts) + PortActs(command, old(req.data))
      ensures Cfg() == Settings(command, old(req.data), old(Cfg()))
      ensures driver.calls == old(driver.calls) + Aborts(command, old(req.data), old(params))
      ensures FramingOf(request).Complete? ==> req.Within(FramingOf(request).len - 1)
    {
      hide FromLe16, FromLe32, ListFraming, Le16, Le32, Dap.InfoValue;
      FramedLen(request);
      if command in {RESET_TARGET, SWO_BAUDRATE, SWO_STATUS, SWO_EXTENDED_STATUS, SWO_DATA} {
        ok := FixedReply(command, req, resp);
      } else if command in {HOST_STATUS, CONNECT, DISCONNECT, DELAY, SWJ_PINS, SWJ_CLOCK} {
        ok := PortCommand(command, req, resp);
      } else if command == INFO {
        ok := Info(req, resp);
      } else if command == TRANSFER_CONFIGURE {
        ok := TransferConfigure(req, resp);
      } else if command == WRITE_ABORT {
        ok := WriteAbort(req, resp);
      } else if command == SWD_CONFIGURE {
        ok := SwdConfigure(req, resp);
      } else if command == SWO_TRANSPORT {
        ok := SwoTransport(req, resp);
      } else {
        // JTAG and the remaining SWO commands are not available.
        ok := false;
      }
    }

    /** The list commands: transfers, blocks and SWD sequences. */
    static predicate IsList(command: u8) {
      command in {TRANSFER, TRANSFER_BLOCK, SWD_SEQUENCE}
    }

    /** How a `DAP_SWD_Sequence` goes. */
    ghost function PlayedBy(payload: seq<u8>, size: nat, acts: seq<Act>): Played {
      if payload == [] || size < 2 then Played(acts, [], false)
      else RunSequences(port.env, size - 2, Played(acts, [], true), payload[1..], payload[0])
    }

    /** The command byte is taken; run the command. */
    method Execute(command: u8, req: Request, resp: Response, ghost request: seq<u8>) returns (ok: bool)
      requires Opened(resp) && ValidParams(params) && request == [command] + req.data
      modifies this, driver, port, req, resp, resp.buf
      ensures Kept(resp) && ValidParams(params)
      ensures Cfg() == Settings(command, old(req.data), old(Cfg()))
      ensures command != TRANSFER ==> matchMask == old(matchMask)
      ensures !IsList(command) ==>
                && port.acts == old(port.acts) + PortActs(command, old(req.data))
                && driver.calls == old(driver.calls) + Aborts(command, old(req.data), old(params))
                && Replied(resp, old(resp.Written()), PlainReply(command, old(req.data), port.acts), ok)
      ensures command == TRANSFER ==>
                var f := EndOf(old(req.data), resp.buf.Length, old(driver.calls), old(matchMask));
                && ok == !f.phase.Failed? && driver.calls == f.calls && matchMask == f.mask
                && port.acts == old(port.acts)
                && (ok ==> f.count < 0x100
                           && resp.Written() == old(resp.Written()) + [f.count, f.status] + LeBytes(f.out))
      ensures command == TRANSFER_BLOCK ==>
                var b := BlockOf(old(req.data), resp.buf.Length, old(driver.calls));
                && ok == b.Some? && driver.calls == (if ok then b.value.calls else old(driver.calls))
                && port.acts == old(port.acts)
                && (ok ==> b.value.count < 0x1_0000
                           && resp.Written() == old(resp.Written()) + Le16(b.value.count) + [b.value.status]
                                                + LeBytes(b.value.words))
      ensures command == SWD_SEQUENCE ==>
                var r := PlayedBy(old(req.data), resp.buf.Length, old(port.acts));
                && ok == r.ok && port.acts == r.acts && driver.calls == old(driver.calls)
                && (ok ==> resp.Written() == old(resp.Written()) + [DAP_OK] + r.out)
      ensures FramingOf(request).Complete? ==> req.Within(FramingOf(request).len - 1)
      ensures FramingOf(request).Complete? && ok && command in {SWJ_SEQUENCE, SWD_SEQUENCE} ==>
                |old(req.data)| == |req.data| + FramingOf(request).len - 1
      ensures FramingOf(request).Complete? && ok && command == TRANSFER && resp.Written()[1] == request[2] ==>
                |old(req.data)| == |req.data| + FramingOf(request).len - 1
      ensures FramingOf(request).Complete? && ok && command == TRANSFER_BLOCK ==>
                |old(req.data)| == |req.data| + FramingOf(request).len - if FromLe16(request[2..4]) == 0 then 2 else 1
    {
      hide FromLe16, RunSequences, ListEnd, ListLen, LeBytes, Le16, Dap.BlockOf, Dap.EndOf, Dap.PortActs,
           Dap.PlainReply;
      FramedLen(request);
      if FramingOf(request).Complete? {
        FramedLists(request);
      }
      if command == TRANSFER {
        ok := Transfer(req, resp);
      } else if command == TRANSFER_BLOCK {
        ok := TransferBlock(req, resp);
      } else if command == SWJ_SEQUENCE {
        ok := SwjSequence(req, resp);
      } else if command == SWD_SEQUENCE {
        ok := SwdSequence(req, resp);
      } else {
        ok := PlainCommand(command, req, resp, request);
      }
    }

    /** The reply bytes for an answer that may be missing or may not fit. */
    static function ReplyOf(command: u8, size: nat, answer: Option<seq<u8>>): seq<u8> {
      if answer.Some? && 1 + |answer.value| <= size then [command] + answer.value else [command, DAP_ERROR]
    }

    /** A request from its bytes to those of its reply, `n` of them; none for an abort or
        where a reply cannot fit. `used` is how much of the request was parsed and `cut`
        whether parsing ran past its end. */
    method ProcessCommand(request: seq<u8>, response: array<u8>) returns (n: nat, ghost used: int, ghost cut: bool)
      requires ValidParams(params)
      modifies this, driver, port, response
      ensures ValidParams(params) && n <= response.Length
      ensures FramingOf(request).Complete? ==> !cut && used <= FramingOf(request).len
      ensures var replies := request != [] && response.Length >= 2 && request[0] != TRANSFER_ABORT;
              && (n > 0 <==> replies)
              && (!replies || FramingOf(request).Unknown? ==>
                    driver.calls == old(driver.calls) && port.acts == old(port.acts) && Cfg() == old(Cfg()))
              && (replies ==>
                    var command, payload := request[0], request[1..];
                    && Cfg() == Settings(command, payload, old(Cfg()))
                    && (command != TRANSFER ==> matchMask == old(matchMask))
                    && (FramingOf(request).Unknown? ==> response[..n] == [0xFF])
                    && (!FramingOf(request).Unknown? && !IsList(command) ==>
                          && port.acts == old(port.acts) + PortActs(command, payload)
                          && driver.calls == old(driver.calls) + Aborts(command, payload, old(params))
                          && response[..n] == ReplyOf(command, response.Length, PlainReply(command, payload, port.acts)))
                    && (command == TRANSFER ==>
                          var f := old(EndOf(payload, response.Length, driver.calls, matchMask));
                          && driver.calls == f.calls && matchMask == f.mask && port.acts == old(port.acts)
                          && (if f.phase.Failed? then response[..n] == [TRANSFER, DAP_ERROR]
                              else f.count < 0x100 && response[..n] == [TRANSFER, f.count, f.status] + LeBytes(f.out)))
                    && (command == TRANSFER_BLOCK ==>
                          var b := old(BlockOf(payload, response.Length, driver.calls));
                          && port.acts == old(port.acts)
                          && (if b.None?
                              then driver.calls == old(driver.calls) && response[..n] == [TRANSFER_BLOCK, DAP_ERROR]
                              else driver.calls == b.value.calls && b.value.count < 0x1_0000
                                   && response[..n] == [TRANSFER_BLOCK] + Le16(b.value.count) + [b.value.status]
                                                       + LeBytes(b.value.words)))
                    && (command == SWD_SEQUENCE ==>
                          var r := PlayedBy(payload, response.Length, old(port.acts));
                          && port.acts == r.acts && driver.calls == old(driver.calls)
                          && response[..n] == [SWD_SEQUENCE] + if r.ok then [DAP_OK] + r.out else [DAP_ERROR]))
    {
      hide FramingOf, FromLe16, LeBytes, Le16, Dap.BlockOf, Dap.EndOf, Dap.PortActs, Dap.PlainReply, Dap.PlayedBy;
      n, used, cut := 0, 0, false;
      if request == [] || response.Length < 2 || request[0] == TRANSFER_ABORT {
        return;
      }
      var req := new Request(request[1..]);
      var resp := new Response(response, request[0]);
      assert request == [request[0]] + request[1..];
      UnknownCommand(request);
      FramedLen(request);
      if !Known(request[0]) {
        resp.SetU8(0, INVALID);
        return 1, 1, false;
      }
      var ok := Execute(request[0], req, resp, request);
      n := resp.len;
      if !ok {
        resp.SetU8(1, DAP_ERROR);
        n := 2;
      }
      used, cut := |request| - |req.data|, req.underrun;
    }
  }

  /** Length of a block command's payload; a read carries no words. */
  function BlockLen(payload: seq<u8>): Option<nat> {
    if |payload| < 4 then None
    else if IsRead(payload[3]) then Some(4) else Some(4 + 4 * FromLe16(payload[1..3]))
  }

  lemma FramedLen(request: seq<u8>)
    ensures FramingOf(request).Complete? ==> 1 <= FramingOf(request).len <= |request|
  {
    if FramingOf(request).Complete? { CompleteExtends(request, []); }
  }

  /** How long the framing says a complete request's list, block or sequence is. */
  lemma FramedLists(request: seq<u8>)
    requires FramingOf(request).Complete?
    ensures var len, payload := FramingOf(request).len, request[1..];
            && len >= 1
            && (request[0] == TRANSFER ==>
                  len >= 3 && |payload| >= 2 && ListLen(Transfers, payload[2..], payload[1]) == Some(len - 3))
            && (request[0] == SWD_SEQUENCE ==>
                  len >= 2 && |payload| >= 1 && ListLen(SwdSequences, payload[1..], payload[0]) == Some(len - 2))
            && (request[0] == TRANSFER_BLOCK ==>
                  BlockLen(payload) == Some(len - 1) && payload[1..3] == request[2..4])
            && (request[0] == SWJ_SEQUENCE ==> |payload| >= 1 && len == 2 + SwjBytes(payload[0]))
  {
    CompleteExtends(request, []);
    if request[0] == TRANSFER {
      ListEndIsLen(Transfers, request, 3, request[2]);
      assert request[1..][2..] == request[3..];
    } else if request[0] == SWD_SEQUENCE {
      ListEndIsLen(SwdSequences, request, 2, request[1]);
      assert request[1..][1..] == request[2..];
    }
  }

  /** The processor and the framing know the same commands. */
  predicate Known(command: u8) {
    command <= RESET_TARGET || SWJ_PINS <= command <= SWO_EXTENDED_STATUS
  }

  lemma UnknownCommand(request: seq<u8>)
    requires request != []
    ensures FramingOf(request).Unknown? <==> !Known(request[0])
    ensures Known(request[0]) <==> request[0] <= 0x0A || 0x10 <= request[0] <= 0x1E
  {
  }

  /** The attempts a command makes outside transfers and blocks. */
  function Aborts(command: u8, d: seq<u8>, p: Params): seq<Call> {
    if command == WRITE_ABORT && |d| >= 5 then [Call(ABORT_WRITE, FromLe32(d[1..5]), p)] else []
  }

  lemma FailedStays(env: Env, cfg: Config, room: nat, s: Run)
    requires s.phase.Failed?
    ensures Finish(env, cfg, room, s) == s
  {
  }

  lemma OverlaidFront(was: seq<u8>, at: nat, bytes: seq<u8>)
    requires at + |bytes| <= |was|
    ensures Overlay(was, at, bytes)[..at + |bytes|] == was[..at] + bytes
  {
  }

  lemma NoWords(head: seq<u8>)
    ensures head == head + LeBytes([])
  {
  }

  /** Where the rest of a request lies once its request byte is taken. */
  lemma AfterRequestByte(body: seq<u8>)
    requires body != []
    ensures var rest, it := body[1..], TakeItem(body);
            && it.rv == body[0]
            && (ItemLen(body[0]) == 1 ==> it.word.None? && AfterItem(body) == rest)
            && (ItemLen(body[0]) == 5 ==>
                  && it.word == (if |rest| >= 4 then Some(FromLe32(rest[..4])) else None)
                  && (|rest| >= 4 ==> AfterItem(body) == rest[4..]))
  {
    if |body| >= 5 {
      assert body[1..5] == body[1..][..4];
    }
  }
}
