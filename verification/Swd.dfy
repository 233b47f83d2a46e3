/** The hardware driver interface: request flags, ACK values, one transfer, and the
    sequential retry and block loops every driver has to agree with. */
module Swd {
  import opened Words

  // Request-byte flags

  predicate IsAp(rv: u8) { rv % 2 == 1 }
  predicate IsRead(rv: u8) { rv / 2 % 2 == 1 }
  predicate HasA2(rv: u8) { rv / 4 % 2 == 1 }
  predicate HasA3(rv: u8) { rv / 8 % 2 == 1 }
  predicate HasMatchValue(rv: u8) { rv / 16 % 2 == 1 }
  predicate HasMatchMask(rv: u8) { rv / 32 % 2 == 1 }
  predicate HasTimestamp(rv: u8) { rv / 128 == 1 }

  /** Read of DP `RDBUFF`: collects a posted AP read. */
  const RDBUFF_READ: u8 := 0x0E

  /** Write of DP `ABORT`. */
  const ABORT_WRITE: u8 := 0

  const OK: u8 := 1
  const WAIT: u8 := 2
  const FAULT: u8 := 4
  const ERROR: u8 := 8
  const MISMATCH: u8 := 16

  /** `packet`; `Wire.PacketOnWire` says what its bits are. */
  function Packet(request: u8): u8 {
    var nibble := request % 16;
    1 + 2 * nibble + 32 * (CountOnes(nibble) % 2) + 128
  }

  datatype Params = Params(turnaround: nat, dataPhase: bool, idleCycles: u8)

  predicate ValidParams(p: Params) {
    1 <= p.turnaround <= 4
  }

  datatype Transfer = Transfer(ack: u8, data: u32)

  /** One attempt at a transfer; the wire only sees the request's low nibble. */
  datatype Call = Call(request: u8, data: u32, params: Params)

  /** Everything outside the probe: what each attempt is answered, and what the timer
      shows, given all attempts made so far. */
  datatype Env = Env(reply: seq<Call> -> Transfer, clock: seq<Call> -> u32)

  // The sequential loops, over any environment

  /** `transfer_retry`; `RetryAttempts` says which attempts these are. */
  function SeqRetry(env: Env, calls: seq<Call>, request: u8, data: u32, p: Params, retries: nat): (seq<Call>, Transfer)
    decreases retries
  {
    var calls' := calls + [Call(request % 16, data, p)];
    var t := env.reply(calls');
    if t.ack != WAIT || retries == 0 then (calls', t)
    else SeqRetry(env, calls', request, data, p, retries - 1)
  }

  /** A transfer costs at most `retries + 1` attempts, all of the same request, all but
      the last answered WAIT; its result is the last answer. */
  lemma {:induction false} RetryAttempts(env: Env, calls: seq<Call>, request: u8, data: u32, p: Params, retries: nat)
    ensures var (after, t) := SeqRetry(env, calls, request, data, p, retries);
            && |calls| < |after| <= |calls| + retries + 1 && calls <= after
            && t == env.reply(after)
            && (t.ack == WAIT ==> |after| == |calls| + retries + 1)
            && (forall i :: |calls| <= i < |after| ==> after[i] == Call(request % 16, data, p))
            && (forall i :: |calls| < i < |after| ==> env.reply(after[..i]).ack == WAIT)
    decreases retries
  {
    var calls' := calls + [Call(request % 16, data, p)];
    if env.reply(calls').ack == WAIT && retries > 0 {
      RetryAttempts(env, calls', request, data, p, retries - 1);
      var (after, t) := SeqRetry(env, calls', request, data, p, retries - 1);
      assert after[..|calls'|] == calls';
    }
  }

  /** A block command under way or over. */
  datatype Block = Block(calls: seq<Call>, words: seq<u32>, count: nat, status: u8)

  function ReadWords(env: Env, p: Params, retries: nat, request: u8, b: Block, total: nat): (r: Block)
    ensures |b.words| == b.count ==> |r.words| == r.count
    ensures b.count <= total ==> r.count <= total && (r.count == total || r.status != OK)
    ensures b.words <= r.words && b.count <= r.count
    decreases total - b.count
  {
    if b.count >= total then b.(status := OK)
    else
      var rv := if IsAp(request) && b.count + 1 == total then RDBUFF_READ else request;
      var (calls, t) := SeqRetry(env, b.calls, rv, 0, p, retries);
      if t.ack != OK then Block(calls, b.words, b.count, t.ack)
      else ReadWords(env, p, retries, request, Block(calls, b.words + [t.data], b.count + 1, OK), total)
  }

  /** `read_block`: an AP read is posted first and its last word comes through RDBUFF. */
  function SeqReadBlock(env: Env, p: Params, retries: nat, request: u8, calls: seq<Call>, total: nat): (r: Block)
    ensures |r.words| == r.count <= total
  {
    if total == 0 then Block(calls, [], 0, 0)
    else if IsAp(request) then
      var (calls', t) := SeqRetry(env, calls, request, 0, p, retries);
      if t.ack != OK then Block(calls', [], 0, t.ack)
      else ReadWords(env, p, retries, request, Block(calls', [], 0, OK), total)
    else ReadWords(env, p, retries, request, Block(calls, [], 0, OK), total)
  }

  function WriteWords(env: Env, p: Params, retries: nat, request: u8, b: Block, words: seq<u32>): (r: Block)
    requires b.count <= |words|
    ensures b.count <= r.count <= |words|
    ensures r.words == b.words
    decreases |words| - b.count
  {
    if b.count == |words| then
      var (calls, t) := SeqRetry(env, b.calls, RDBUFF_READ, 0, p, retries);
      Block(calls, b.words, b.count, t.ack)
    else
      var (calls, t) := SeqRetry(env, b.calls, request, words[b.count], p, retries);
      if t.ack != OK then Block(calls, b.words, b.count, t.ack)
      else WriteWords(env, p, retries, request, Block(calls, b.words, b.count + 1, OK), words)
  }

  /** `write_block`; the check that ends it is a read of RDBUFF. */
  function SeqWriteBlock(env: Env, p: Params, retries: nat, request: u8, calls: seq<Call>, words: seq<u32>): (r: Block)
    ensures r.count <= |words| && r.words == []
  {
    if words == [] then Block(calls, [], 0, 0)
    else WriteWords(env, p, retries, request, Block(calls, [], 0, OK), words)
  }

  // The timer plays no part in any of this

  lemma {:induction false} RetryTimeless(
    env: Env, clock: seq<Call> -> u32, calls: seq<Call>, request: u8, data: u32, p: Params, retries: nat)
    ensures SeqRetry(env.(clock := clock), calls, request, data, p, retries)
         == SeqRetry(env, calls, request, data, p, retries)
    decreases retries
  {
    if retries > 0 {
      RetryTimeless(env, clock, calls + [Call(request % 16, data, p)], request, data, p, retries - 1);
    }
  }

  lemma {:induction false} ReadWordsTimeless(
    env: Env, clock: seq<Call> -> u32, p: Params, retries: nat, request: u8, b: Block, total: nat)
    ensures ReadWords(env.(clock := clock), p, retries, request, b, total)
         == ReadWords(env, p, retries, request, b, total)
    decreases total - b.count
  {
    hide SeqRetry;
    if b.count < total {
      var rv := if IsAp(request) && b.count + 1 == total then RDBUFF_READ else request;
      RetryTimeless(env, clock, b.calls, rv, 0, p, retries);
      var (calls, t) := SeqRetry(env, b.calls, rv, 0, p, retries);
      ReadWordsTimeless(env, clock, p, retries, request, Block(calls, b.words + [t.data], b.count + 1, OK), total);
    }
  }

  lemma ReadBlockTimeless(
    env: Env, clock: seq<Call> -> u32, p: Params, retries: nat, request: u8, calls: seq<Call>, total: nat)
    ensures SeqReadBlock(env.(clock := clock), p, retries, request, calls, total)
         == SeqReadBlock(env, p, retries, request, calls, total)
  {
    hide SeqRetry, ReadWords;
    RetryTimeless(env, clock, calls, request, 0, p, retries);
    var after := if IsAp(request) then SeqRetry(env, calls, request, 0, p, retries).0 else calls;
    ReadWordsTimeless(env, clock, p, retries, request, Block(after, [], 0, OK), total);
  }

  lemma {:induction false} WriteWordsTimeless(
    env: Env, clock: seq<Call> -> u32, p: Params, retries: nat, request: u8, b: Block, words: seq<u32>)
    requires b.count <= |words|
    ensures WriteWords(env.(clock := clock), p, retries, request, b, words)
         == WriteWords(env, p, retries, request, b, words)
    decreases |words| - b.count
  {
    hide SeqRetry;
    RetryTimeless(env, clock, b.calls, RDBUFF_READ, 0, p, retries);
    if b.count < |words| {
      var w := words[b.count];
      RetryTimeless(env, clock, b.calls, request, w, p, retries);
      var after := SeqRetry(env, b.calls, request, w, p, retries).0;
      WriteWordsTimeless(env, clock, p, retries, request, Block(after, b.words, b.count + 1, OK), words);
    }
  }

  lemma WriteBlockTimeless(
    env: Env, clock: seq<Call> -> u32, p: Params, retries: nat, request: u8, calls: seq<Call>, words: seq<u32>)
    ensures SeqWriteBlock(env.(clock := clock), p, retries, request, calls, words)
         == SeqWriteBlock(env, p, retries, request, calls, words)
  {
    hide SeqRetry, WriteWords;
    WriteWordsTimeless(env, clock, p, retries, request, Block(calls, [], 0, OK), words);
  }

  // Little-endian word arrays

  function LeBytes(words: seq<u32>): (bytes: seq<u8>)
    ensures |bytes| == 4 * |words|
  {
    if words == [] then [] else LeBytes(words[..|words| - 1]) + Le32(words[|words| - 1])
  }

  function WordsOf(bytes: seq<u8>): (words: seq<u32>)
    ensures |words| == |bytes| / 4
    ensures forall i :: 0 <= i < |words| ==> words[i] == FromLe32(bytes[4 * i..4 * i + 4])
  {
    seq(|bytes| / 4, i requires 0 <= i < |bytes| / 4 => FromLe32(bytes[4 * i..4 * i + 4]))
  }

  lemma LeBytesSnoc(words: seq<u32>, w: u32)
    ensures LeBytes(words + [w]) == LeBytes(words) + Le32(w)
  {
    assert (words + [w])[..|words|] == words;
  }

  lemma {:induction false} WordsOfLeBytes(words: seq<u32>)
    ensures WordsOf(LeBytes(words)) == words
  {
    if words != [] {
      var front, last := words[..|words| - 1], words[|words| - 1];
      WordsOfLeBytes(front);
      FromLe32Le32(last);
      var bytes := LeBytes(words);
      forall i | 0 <= i < |words| ensures WordsOf(bytes)[i] == words[i] {
        if i < |front| {
          assert bytes[4 * i..4 * i + 4] == LeBytes(front)[4 * i..4 * i + 4];
          assert WordsOf(LeBytes(front))[i] == front[i];
        } else {
          assert bytes[4 * i..4 * i + 4] == Le32(last);
        }
      }
    }
  }

  /** Store a little-endian word. */
  method PutWord(out: array<u8>, at: nat, w: u32)
    requires at + 4 <= out.Length
    modifies out
    ensures out[..] == Overlay(old(out[..]), at, Le32(w))
  {
    var b := Le32(w);
    out[at], out[at + 1], out[at + 2], out[at + 3] := b[0], b[1], b[2], b[3];
  }

  /** `was` with `bytes` laid over it from `at` on. */
  function Overlay(was: seq<u8>, at: nat, bytes: seq<u8>): (now: seq<u8>)
    requires at + |bytes| <= |was|
    ensures |now| == |was|
  {
    was[..at] + bytes + was[at + |bytes|..]
  }

  lemma OverlayNothing(was: seq<u8>, at: nat)
    requires at <= |was|
    ensures Overlay(was, at, LeBytes([])) == was
  {
  }

  lemma OverlayMore(was: seq<u8>, at: nat, a: seq<u8>, b: seq<u8>)
    requires at + |a| + |b| <= |was|
    ensures Overlay(Overlay(was, at, a), at + |a|, b) == Overlay(was, at, a + b)
  {
    var now := Overlay(was, at, a);
    assert now[..at + |a|] == was[..at] + a;
    assert now[at + |a| + |b|..] == was[at + |a| + |b|..];
    assert was[..at] + a + b == was[..at] + (a + b);
  }

  /** The driver interface's provided methods, as the loops they are. `calls` records
      the attempts the environment has seen. */
  class Driver {
    const env: Env
    var calls: seq<Call>

    constructor (env: Env)
      ensures this.env == env && calls == []
    {
      this.env := env;
      calls := [];
    }

    method TransferOnce(request: u8, data: u32, params: Params) returns (t: Transfer)
      modifies this
      ensures calls == old(calls) + [Call(request % 16, data, params)]
      ensures t == env.reply(calls)
    {
      calls := calls + [Call(request % 16, data, params)];
      t := env.reply(calls);
    }

    method TransferRetry(request: u8, data: u32, params: Params, waitRetries: u16) returns (t: Transfer)
      modifies this
      ensures (calls, t) == SeqRetry(env, old(calls), request, data, params, waitRetries)
    {
      var retry := waitRetries;
      t := TransferOnce(request % 16, data, params);
      while t.ack == WAIT && retry != 0
        invariant t == env.reply(calls)
        invariant SeqRetry(env, old(calls), request, data, params, waitRetries)
               == if t.ack != WAIT || retry == 0 then (calls, t)
                  else SeqRetry(env, calls, request, data, params, retry - 1)
        decreases retry
      {
        retry := retry - 1;
        t := TransferOnce(request % 16, data, params);
      }
    }

    /** The words go to `out` from `at` on, which has room for `len` bytes. */
    method ReadBlock(request: u8, out: array<u8>, at: nat, len: nat, params: Params, waitRetries: u16)
      returns (count: u16, status: u8)
      requires at + len <= out.Length && len / 4 < 0x1_0000
      modifies this, out
      ensures var b := SeqReadBlock(env, params, waitRetries, request, old(calls), len / 4);
              && count == b.count && status == b.status && calls == b.calls
              && out[..] == Overlay(old(out[..]), at, LeBytes(b.words))
    {
      hide Overlay, LeBytes, SeqRetry;
      var total := len / 4;
      ghost var was := out[..];
      OverlayNothing(was, at);
      if total == 0 {
        return 0, 0;
      }
      var ap := IsAp(request);
      if ap {
        var t := TransferRetry(request, 0, params, waitRetries);
        if t.ack != OK {
          return 0, t.ack;
        }
      }
      ghost var words: seq<u32> := [];
      var i := 0;
      while i < total
        invariant i == |words| <= total
        invariant SeqReadBlock(env, params, waitRetries, request, old(calls), total)
               == ReadWords(env, params, waitRetries, request, Block(calls, words, i, OK), total)
        invariant out[..] == Overlay(was, at, LeBytes(words))
      {
        var r := if ap && i + 1 == total then RDBUFF_READ else request;
        var t := TransferRetry(r, 0, params, waitRetries);
        if t.ack != OK {
          return i, t.ack;
        }
        PutWord(out, at + 4 * i, t.data);
        OverlayMore(was, at, LeBytes(words), Le32(t.data));
        LeBytesSnoc(words, t.data);
        words := words + [t.data];
        i := i + 1;
      }
      return total, OK;
    }

    method WriteBlock(request: u8, data: seq<u8>, params: Params, waitRetries: u16) returns (count: u16, status: u8)
      requires |data| / 4 < 0x1_0000
      modifies this
      ensures var b := SeqWriteBlock(env, params, waitRetries, request, old(calls), WordsOf(data));
              count == b.count && status == b.status && calls == b.calls
    {
      hide WordsOf, FromLe32, SeqRetry;
      var total := |data| / 4;
      ghost var words := WordsOf(data);
      if total == 0 {
        return 0, 0;
      }
      var i := 0;
      while i < total
        invariant i <= total
        invariant SeqWriteBlock(env, params, waitRetries, request, old(calls), words)
               == WriteWords(env, params, waitRetries, request, Block(calls, [], i, OK), words)
      {
        var word := FromLe32(data[4 * i..4 * i + 4]);
        assert word == words[i];
        var t := TransferRetry(request, word, params, waitRetries);
        if t.ack != OK {
          return i, t.ack;
        }
        i := i + 1;
      }
      var t := TransferRetry(RDBUFF_READ, 0, params, waitRetries);
      return total, t.ack;
    }
  }

  // The rest of the driver interface

  /** An operation other than a transfer. */
  datatype Act =
    | Connect
    | Disconnect
    | HostStatus(kind: u8, on: bool)
    | SetClock(hz: u32)
    | SetPins(output: u8, mask: u8, waitUs: nat)
    | WriteSequence(bits: nat, data: seq<u8>)
    | ReadSequence(bits: nat)
    | Delay(us: u16)

  /** What such operations are answered, given those made so far: whether a clock is
      supported, the pins, and byte `i` of a sequence read. */
  datatype PortEnv = PortEnv(clock: seq<Act> -> bool, pins: seq<Act> -> u8, byte: (seq<Act>, nat) -> u8)

  function BytesRead(env: PortEnv, acts: seq<Act>, n: nat): (bytes: seq<u8>)
    ensures |bytes| == n
  {
    seq<u8>(n, i requires 0 <= i < n => env.byte(acts, i))
  }

  class Port {
    const env: PortEnv
    var acts: seq<Act>

    constructor (env: PortEnv)
      ensures this.env == env && acts == []
    {
      this.env := env;
      acts := [];
    }

    method Do(act: Act)
      modifies this
      ensures acts == old(acts) + [act]
    {
      acts := acts + [act];
    }

    /** Clock in `bits` bits to `out` from `at` on. */
    method ReadBits(bits: nat, out: array<u8>, at: nat)
      requires at + DivCeil8(bits) <= out.Length
      modifies this, out
      ensures acts == old(acts) + [ReadSequence(bits)]
      ensures out[..] == Overlay(old(out[..]), at, BytesRead(env, acts, DivCeil8(bits)))
    {
      acts := acts + [ReadSequence(bits)];
      var n, i := DivCeil8(bits), 0;
      ghost var was := out[..];
      while i < n
        invariant i <= n && acts == old(acts) + [ReadSequence(bits)]
        invariant forall k :: 0 <= k < out.Length ==>
                    out[k] == if at <= k < at + i then env.byte(acts, k - at) else was[k]
      {
        out[at + i] := env.byte(acts, i);
        i := i + 1;
      }
      assert out[..] == Overlay(was, at, BytesRead(env, acts, n));
    }
  }
}
