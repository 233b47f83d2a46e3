/** How long a CMSIS-DAP request is, as far as a prefix of it tells. */
module Framing {
  import opened Words
  import opened Swd

  // Command ids

  const INFO: u8 := 0x00
  const HOST_STATUS: u8 := 0x01
  const CONNECT: u8 := 0x02
  const DISCONNECT: u8 := 0x03
  const TRANSFER_CONFIGURE: u8 := 0x04
  const TRANSFER: u8 := 0x05
  const TRANSFER_BLOCK: u8 := 0x06
  const TRANSFER_ABORT: u8 := 0x07
  const WRITE_ABORT: u8 := 0x08
  const DELAY: u8 := 0x09
  const RESET_TARGET: u8 := 0x0A
  const SWJ_PINS: u8 := 0x10
  const SWJ_CLOCK: u8 := 0x11
  const SWJ_SEQUENCE: u8 := 0x12
  const SWD_CONFIGURE: u8 := 0x13
  const JTAG_SEQUENCE: u8 := 0x14
  const JTAG_CONFIGURE: u8 := 0x15
  const JTAG_IDCODE: u8 := 0x16
  const SWO_TRANSPORT: u8 := 0x17
  const SWO_MODE: u8 := 0x18
  const SWO_BAUDRATE: u8 := 0x19
  const SWO_CONTROL: u8 := 0x1A
  const SWO_STATUS: u8 := 0x1B
  const SWO_DATA: u8 := 0x1C
  const SWD_SEQUENCE: u8 := 0x1D
  const SWO_EXTENDED_STATUS: u8 := 0x1E

  datatype Framing =
    | Complete(len: nat)  // the first `len` bytes are a request
    | NeedMore            // a prefix of one
    | Unknown             // not a standard command

  function Fixed(buf: seq<u8>, n: nat): Framing {
    if |buf| >= n then Complete(n) else NeedMore
  }

  /** Bits of one sequence: 0 stands for 64. */
  function SequenceBits(info: u8): nat {
    if info % 64 == 0 then 64 else info % 64
  }

  function SequenceLen(info: u8, jtag: bool): nat {
    1 + if jtag || info < 0x80 then DivCeil8(SequenceBits(info)) else 0
  }

  /** A transfer's request byte, and its operand word if it has one. */
  function ItemLen(rv: u8): nat {
    if IsRead(rv) && !HasMatchValue(rv) then 1 else 5
  }

  /** The variable-length lists: each entry's length is told by its first byte. */
  datatype List = Transfers | SwdSequences | JtagSequences

  function EntryLen(list: List, first: u8): (n: nat)
    ensures 1 <= n
  {
    match list
    case Transfers => ItemLen(first)
    case SwdSequences => SequenceLen(first, false)
    case JtagSequences => SequenceLen(first, true)
  }

  /** Where `count` entries starting at `at` end, once all their first bytes are there. */
  function ListEnd(list: List, buf: seq<u8>, at: nat, count: nat): (end: Option<nat>)
    ensures end.Some? ==> at <= end.value
    decreases count
  {
    if count == 0 then Some(at)
    else if at >= |buf| then None
    else ListEnd(list, buf, at + EntryLen(list, buf[at]), count - 1)
  }

  function ListFraming(list: List, buf: seq<u8>, at: nat, count: nat): Framing {
    var end := ListEnd(list, buf, at, count);
    if end.None? then NeedMore else Fixed(buf, end.value)
  }

  /** Length of the first `count` entries of a body that holds them all. */
  function ListLen(list: List, body: seq<u8>, count: nat): Option<nat>
    decreases count
  {
    if count == 0 then Some(0)
    else if body == [] || |body| < EntryLen(list, body[0]) then None
    else
      var rest := ListLen(list, body[EntryLen(list, body[0])..], count - 1);
      if rest.None? then None else Some(EntryLen(list, body[0]) + rest.value)
  }

  lemma NoEntries(list: List, body: seq<u8>)
    ensures ListLen(list, body, 0) == Some(0)
  {
  }

  lemma FirstEntry(list: List, body: seq<u8>, count: nat)
    requires count > 0 && ListLen(list, body, count).Some?
    ensures body != [] && EntryLen(list, body[0]) <= |body|
    ensures var rest := ListLen(list, body[EntryLen(list, body[0])..], count - 1);
            rest.Some? && ListLen(list, body, count).value == EntryLen(list, body[0]) + rest.value
  {
    hide EntryLen;
  }

  lemma ListEndPast(list: List, buf: seq<u8>, at: nat, count: nat)
    requires at > |buf|
    ensures ListEnd(list, buf, at, count).Some? ==> ListEnd(list, buf, at, count).value > |buf|
  {
  }

  /** Walking a list by position finds its end within the buffer exactly when the buffer
      holds all its entries. */
  lemma {:induction false} ListEndIsLen(list: List, buf: seq<u8>, at: nat, count: nat)
    requires at <= |buf|
    ensures var end, len := ListEnd(list, buf, at, count), ListLen(list, buf[at..], count);
            && (end.Some? && end.value <= |buf| <==> len.Some?)
            && (len.Some? ==> end == Some(at + len.value))
    decreases count
  {
    hide EntryLen;
    if count > 0 && at < |buf| {
      var next := at + EntryLen(list, buf[at]);
      if next > |buf| {
        ListEndPast(list, buf, next, count - 1);
      } else {
        ListEndIsLen(list, buf, next, count - 1);
        assert buf[at..][EntryLen(list, buf[at])..] == buf[next..];
      }
    }
  }

  function SwjBytes(n: u8): nat {
    DivCeil8(if n == 0 then 256 else n)
  }

  /** The framing of the request that starts in `buf`. */
  function FramingOf(buf: seq<u8>): Framing {
    if buf == [] then NeedMore
    else
      var command := buf[0];
      if command in {DISCONNECT, TRANSFER_ABORT, RESET_TARGET, SWO_STATUS} then Fixed(buf, 1)
      else if command in {INFO, CONNECT, SWD_CONFIGURE, JTAG_IDCODE, SWO_TRANSPORT, SWO_MODE, SWO_CONTROL,
                          SWO_EXTENDED_STATUS} then Fixed(buf, 2)
      else if command in {HOST_STATUS, DELAY, SWO_DATA} then Fixed(buf, 3)
      else if command in {SWJ_CLOCK, SWO_BAUDRATE} then Fixed(buf, 5)
      else if command in {TRANSFER_CONFIGURE, WRITE_ABORT} then Fixed(buf, 6)
      else if command == SWJ_PINS then Fixed(buf, 7)
      else if command == SWJ_SEQUENCE then
        if |buf| < 2 then NeedMore else Fixed(buf, 2 + SwjBytes(buf[1]))
      else if command == JTAG_CONFIGURE then
        if |buf| < 2 then NeedMore else Fixed(buf, 2 + buf[1] as nat)
      else if command == TRANSFER_BLOCK then
        if |buf| < 5 then NeedMore
        else Fixed(buf, 5 + if IsRead(buf[4]) then 0 else FromLe16(buf[2..4]) * 4)
      else if command == TRANSFER then
        if |buf| < 3 then NeedMore else ListFraming(Transfers, buf, 3, buf[2])
      else if command == SWD_SEQUENCE || command == JTAG_SEQUENCE then
        if |buf| < 2 then NeedMore
        else ListFraming(if command == JTAG_SEQUENCE then JtagSequences else SwdSequences, buf, 2, buf[1])
      else Unknown
  }

  /** `request_len`: the lists are walked entry by entry. */
  method RequestLen(buf: seq<u8>) returns (r: Framing)
    ensures r == FramingOf(buf)
  {
    if |buf| >= 3 && buf[0] == TRANSFER {
      r := WalkList(Transfers, buf, 3, buf[2]);
    } else if |buf| >= 2 && buf[0] == SWD_SEQUENCE {
      r := WalkList(SwdSequences, buf, 2, buf[1]);
    } else if |buf| >= 2 && buf[0] == JTAG_SEQUENCE {
      r := WalkList(JtagSequences, buf, 2, buf[1]);
    } else {
      r := FramingOf(buf);
    }
  }

  method WalkList(list: List, buf: seq<u8>, start: nat, count: u8) returns (r: Framing)
    ensures r == ListFraming(list, buf, start, count)
  {
    var at: nat := start;
    var i: nat := 0;
    while i < count
      invariant i <= count
      invariant ListEnd(list, buf, start, count) == ListEnd(list, buf, at, count - i)
    {
      if at >= |buf| {
        return NeedMore;
      }
      at := at + EntryLen(list, buf[at]);
      i := i + 1;
    }
    return Fixed(buf, at);
  }

  lemma {:induction false} ListEndExtends(list: List, buf: seq<u8>, more: seq<u8>, at: nat, count: nat)
    requires ListEnd(list, buf, at, count).Some?
    ensures ListEnd(list, buf + more, at, count) == ListEnd(list, buf, at, count)
    decreases count
  {
    if count > 0 { ListEndExtends(list, buf, more, at + EntryLen(list, buf[at]), count - 1); }
  }

  /** Of a shorter prefix, the list either is not through or ends past it. */
  lemma {:induction false} ListEndOfPrefix(list: List, buf: seq<u8>, k: nat, at: nat, count: nat)
    requires k <= |buf| && ListEnd(list, buf, at, count).Some? && k < ListEnd(list, buf, at, count).value
    ensures var end := ListEnd(list, buf[..k], at, count);
            end.None? || end == ListEnd(list, buf, at, count)
    decreases count
  {
    if count > 0 && at < k { ListEndOfPrefix(list, buf, k, at + EntryLen(list, buf[at]), count - 1); }
  }

  /** A complete request stays complete, of the same length, whatever follows it. */
  lemma CompleteExtends(buf: seq<u8>, more: seq<u8>)
    requires FramingOf(buf).Complete?
    ensures FramingOf(buf + more) == FramingOf(buf) && 1 <= FramingOf(buf).len <= |buf|
  {
    if |buf| >= 4 { assert (buf + more)[2..4] == buf[2..4]; }
    var command := buf[0];
    if command == TRANSFER {
      ListEndExtends(Transfers, buf, more, 3, buf[2]);
    } else if command == SWD_SEQUENCE || command == JTAG_SEQUENCE {
      ListEndExtends(if command == JTAG_SEQUENCE then JtagSequences else SwdSequences, buf, more, 2, buf[1]);
    }
  }

  /** No shorter prefix of a complete request is one: the code is prefix-free. */
  lemma PrefixNeedsMore(buf: seq<u8>, k: nat)
    requires FramingOf(buf).Complete? && k < FramingOf(buf).len
    ensures FramingOf(buf[..k]) == NeedMore
  {
    CompleteExtends(buf, []);
    if k >= 4 { assert buf[..k][2..4] == buf[2..4]; }
    var command := buf[0];
    if command == TRANSFER && k >= 3 {
      ListEndOfPrefix(Transfers, buf, k, 3, buf[2]);
    } else if (command == SWD_SEQUENCE || command == JTAG_SEQUENCE) && k >= 2 {
      ListEndOfPrefix(if command == JTAG_SEQUENCE then JtagSequences else SwdSequences, buf, k, 2, buf[1]);
    }
  }
}
