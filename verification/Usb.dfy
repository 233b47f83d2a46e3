/** DAP requests and replies as USB packets: requests reassembled without a terminator on
    exact multiples of the packet size, replies ended by a short packet. */
module Usb {
  import opened Words
  import opened Framing

  const MPS: nat := 64
  const DAP_PACKET_SIZE: nat := 512
  const VENDOR_BASE: u8 := 0x80
  const VENDOR_END: u8 := 0x9F

  predicate IsVendor(command: u8) {
    VENDOR_BASE <= command <= VENDOR_END
  }

  type Packet = p: seq<u8> | |p| <= MPS witness []

  /** What the OUT endpoint has to say next: a packet, or that it went down. */
  datatype Event = Arrived(packet: Packet) | WentDown

  /** One `read_request`; `Starved` when it would wait for more than the events there are. */
  datatype Outcome = Got(request: seq<u8>) | Nothing | Down | Starved

  /** Bytes cut into packets, the last one short unless the length is a multiple. */
  function Chunks(data: seq<u8>): (packets: seq<Packet>)
    ensures |packets| == (|data| + MPS - 1) / MPS
    decreases |data|
  {
    if data == [] then []
    else if |data| <= MPS then [data]
    else [data[..MPS]] + Chunks(data[MPS..])
  }

  function Arrivals(packets: seq<Packet>): (events: seq<Event>)
    ensures |events| == |packets|
    ensures forall i :: 0 <= i < |packets| ==> events[i] == Arrived(packets[i])
  {
    seq(|packets|, i requires 0 <= i < |packets| => Arrived(packets[i]))
  }

  // Requests

  /** What a read that holds `got` makes of `events`, and the events it leaves. */
  function Reading(got: seq<u8>, events: seq<Event>): (Outcome, seq<Event>)
    decreases |events|
  {
    if |got| + MPS > DAP_PACKET_SIZE then (Nothing, events)
    else if events == [] then (Starved, [])
    else
      match events[0]
      case WentDown => (Down, events[1..])
      case Arrived(p) =>
        if |p| == MPS && FramingOf(got + p).NeedMore? then Reading(got + p, events[1..])
        else (if got + p == [] then Nothing else Got(got + p), events[1..])
  }

  /** The OUT endpoint: what it will deliver, in order. */
  class OutEndpoint {
    var events: seq<Event>

    constructor (events: seq<Event>)
      ensures this.events == events
    {
      this.events := events;
    }

    /** One packet into `buf` from `at` on; its length, if it arrives. */
    method Read(buf: array<u8>, at: nat) returns (n: Option<nat>)
      requires events != [] && at + MPS <= buf.Length
      modifies this, buf
      ensures events == old(events)[1..]
      ensures match old(events)[0]
              case WentDown => n == None && buf[..at] == old(buf[..at])
              case Arrived(p) => n == Some(|p|) && buf[..at] == old(buf[..at]) && buf[at..at + |p|] == p
    {
      var event := events[0];
      events := events[1..];
      if event.WentDown? {
        return None;
      }
      var p := event.packet;
      var i := 0;
      while i < |p|
        invariant 0 <= i <= |p| && events == old(events)[1..]
        invariant buf[..at] == old(buf[..at]) && buf[at..at + i] == p[..i]
      {
        buf[at + i] := p[i];
        i := i + 1;
      }
      return Some(|p|);
    }
  }

  /** `read_request`: the outcome `Reading` specifies, the request left in the buffer. */
  method ReadRequest(ep: OutEndpoint, request: array<u8>) returns (r: Outcome)
    requires request.Length == DAP_PACKET_SIZE
    modifies ep, request
    ensures (r, ep.events) == Reading([], old(ep.events))
    ensures r.Got? ==> |r.request| <= request.Length && request[..|r.request|] == r.request
  {
    hide FramingOf;
    var len := 0;
    assert request[..0] == [];
    while true
      invariant len <= request.Length
      invariant Reading([], old(ep.events)) == Reading(request[..len], ep.events)
      decreases |ep.events|
    {
      if len + MPS > request.Length {
        return Nothing;
      }
      if ep.events == [] {
        return Starved;
      }
      ghost var before := request[..len];
      var n := ep.Read(request, len);
      if n.None? {
        return Down;
      }
      assert request[..len + n.value] == before + request[len..len + n.value];
      len := len + n.value;
      if n.value < MPS {
        break;
      }
      var framing := RequestLen(request[..len]);
      if !framing.NeedMore? {
        break;
      }
    }
    return if len == 0 then Nothing else Got(request[..len]);
  }

  lemma ChunksFirst(data: seq<u8>)
    requires data != []
    ensures var n := if |data| <= MPS then |data| else MPS;
            Chunks(data) == [data[..n]] + Chunks(data[n..])
  {
    if |data| <= MPS { assert data[..|data|] == data; }
  }

  lemma ArrivalsFirst(p: Packet, packets: seq<Packet>, more: seq<Event>)
    ensures Arrivals([p] + packets) + more == [Arrived(p)] + (Arrivals(packets) + more)
  {
    assert Arrivals([p] + packets) == [Arrived(p)] + Arrivals(packets);
  }

  /** A standard request sent as its bytes alone is read back whole, and nothing after it
      is touched, exactly when it fits in the buffer; a longer one is dropped once the
      buffer is full. */
  lemma {:induction false} StandardRead(r: seq<u8>, got: nat, more: seq<Event>)
    requires FramingOf(r) == Complete(|r|) && got < |r| && got % MPS == 0 && got <= DAP_PACKET_SIZE
    ensures var (outcome, rest) := Reading(r[..got], Arrivals(Chunks(r[got..])) + more);
            if |r| <= 512 then outcome == Got(r) && rest == more
            else outcome == Nothing && rest == Arrivals(Chunks(r[512..])) + more
    decreases |r| - got
  {
    hide FramingOf, Chunks, Arrivals;
    if got < DAP_PACKET_SIZE {
      var n := if |r| - got <= MPS then |r| - got else MPS;
      ChunksFirst(r[got..]);
      assert r[got..][n..] == r[got + n..];
      ArrivalsFirst(r[got..][..n], Chunks(r[got + n..]), more);
      assert r[..got] + r[got..][..n] == r[..got + n];
      if got + n < |r| {
        PrefixNeedsMore(r, got + n);
        StandardRead(r, got + n, more);
      } else {
        assert r[..got + n] == r;
        NothingLeft(r, more);
      }
    }
  }

  lemma NothingLeft(r: seq<u8>, more: seq<Event>)
    ensures Arrivals(Chunks(r[|r|..])) + more == more
  {
  }

  /** A vendor request is one packet: more than that is cut at the packet. */
  lemma VendorRead(r: seq<u8>, more: seq<Event>)
    requires r != [] && 0x80 <= r[0] <= 0x9F
    ensures var n := if |r| <= 64 then |r| else 64;
            Reading([], Arrivals(Chunks(r)) + more) == (Got(r[..n]), Arrivals(Chunks(r[n..])) + more)
  {
    hide Chunks, Arrivals;
    var n := if |r| <= MPS then |r| else MPS;
    ChunksFirst(r);
    ArrivalsFirst(r[..n], Chunks(r[n..]), more);
    assert [] + r[..n] == r[..n];
  }

  predicate WellFormed(r: seq<u8>) {
    && r != []
    && (0x80 <= r[0] <= 0x9F ==> |r| <= 64)
    && (!(0x80 <= r[0] <= 0x9F) ==> FramingOf(r) == Complete(|r|) && |r| <= 512)
  }

  lemma WellFormedRead(r: seq<u8>, more: seq<Event>)
    requires WellFormed(r)
    ensures Reading([], Arrivals(Chunks(r)) + more) == (Got(r), more)
  {
    hide FramingOf, Chunks, Arrivals;
    if IsVendor(r[0]) {
      VendorRead(r, more);
      assert r[..|r|] == r;
      NothingLeft(r, more);
    } else {
      assert r[0..] == r && r[..0] == [];
      StandardRead(r, 0, more);
    }
  }

  /** `n` reads in a row. */
  function Reads(events: seq<Event>, n: nat): (seq<Outcome>, seq<Event>)
    decreases n
  {
    if n == 0 then ([], events)
    else
      var (first, rest) := Reading([], events);
      var (others, end) := Reads(rest, n - 1);
      ([first] + others, end)
  }

  /** What a host puts on the wire for `requests`: their packets, nothing between them. */
  function Wire(requests: seq<seq<u8>>): seq<Event> {
    if requests == [] then [] else Arrivals(Chunks(requests[0])) + Wire(requests[1..])
  }

  /** Any sequence of well-formed requests is read back as exactly that sequence, and no
      read waits for a packet the host does not send. */
  lemma {:induction false} RequestsReadBack(requests: seq<seq<u8>>, more: seq<Event>)
    requires forall r :: r in requests ==> WellFormed(r)
    ensures var (outcomes, rest) := Reads(Wire(requests) + more, |requests|);
            && |outcomes| == |requests| && rest == more
            && (forall i :: 0 <= i < |requests| ==> outcomes[i] == Got(requests[i]))
    decreases |requests|
  {
    hide WellFormed, Chunks, Arrivals, Reading;
    if requests == [] {
      assert Wire(requests) + more == more;
    } else {
      RequestsReadBack(requests[1..], more);
      WellFormedRead(requests[0], Wire(requests[1..]) + more);
      var first := Arrivals(Chunks(requests[0]));
      assert Wire(requests) + more == first + (Wire(requests[1..]) + more);
    }
  }

  // Replies

  /** The packets of a reply, with a zero-length one after an exact multiple if asked. */
  function ReplyPackets(data: seq<u8>, zlp: bool): seq<Packet> {
    Chunks(data) + if zlp && |data| % MPS == 0 then [[]] else []
  }

  /** The IN endpoint: the packets it has sent. */
  class InEndpoint {
    var sent: seq<Packet>

    constructor ()
      ensures sent == []
    {
      sent := [];
    }

    /** Fails, sending nothing, when the endpoint is down. */
    method Write(p: Packet) returns (ok: bool)
      modifies this
      ensures sent == if ok then old(sent) + [p] else old(sent)
    {
      ok := *;
      if ok {
        sent := sent + [p];
      }
    }
  }

  /** `write_response`. */
  method WriteResponse(ep: InEndpoint, data: seq<u8>, zlp: bool) returns (ok: bool)
    modifies ep
    ensures ok ==> ep.sent == old(ep.sent) + ReplyPackets(data, zlp)
    ensures !ok ==> old(ep.sent) <= ep.sent < old(ep.sent) + ReplyPackets(data, zlp)
  {
    hide Chunks;
    var rest := data;
    ghost var done: seq<Packet> := [];
    NoChunks();
    while rest != []
      invariant ep.sent == old(ep.sent) + done && done + Chunks(rest) == Chunks(data)
      decreases |rest|
    {
      var n := if |rest| <= MPS then |rest| else MPS;
      ChunksFirst(rest);
      ok := ep.Write(rest[..n]);
      if !ok {
        return;
      }
      done, rest := done + [rest[..n]], rest[n..];
    }
    ok := true;
    if zlp && |data| % MPS == 0 {
      ok := ep.Write([]);
    }
  }

  lemma NoChunks()
    ensures Chunks([]) == []
  {
  }

  /** A reader that ends on a short packet: the bytes, and the packets after it. */
  function ReadReply(packets: seq<Packet>): Option<(seq<u8>, seq<Packet>)>
    decreases |packets|
  {
    if packets == [] then None
    else if |packets[0]| < MPS then Some((packets[0], packets[1..]))
    else
      var rest := ReadReply(packets[1..]);
      if rest.None? then None else Some((packets[0] + rest.value.0, rest.value.1))
  }

  /** Replies end on their own short packet. */
  lemma {:induction false} ReplyReadBack(data: seq<u8>, more: seq<Packet>)
    ensures ReadReply(ReplyPackets(data, true) + more) == Some((data, more))
    decreases |data|
  {
    var n := if |data| <= MPS then |data| else MPS;
    var packets := ReplyPackets(data, true) + more;
    if data == [] {
      assert packets == [[]] + more;
    } else {
      ChunksFirst(data);
      assert (|data| - n) % MPS == 0 <==> |data| % MPS == 0 || |data| < MPS;
      if n < MPS {
        assert packets == [data] + more;
      } else {
        ReplyReadBack(data[MPS..], more);
        assert packets == [data[..MPS]] + (ReplyPackets(data[MPS..], true) + more);
        assert data[..MPS] + data[MPS..] == data;
      }
    }
  }

  /** Without the zero-length packet the reader has the reply by the time it is sent
      exactly when it is not a multiple of the packet size. */
  lemma {:induction false} NeedsTerminator(data: seq<u8>)
    requires data != []
    ensures ReadReply(ReplyPackets(data, false)) == if |data| % 64 == 0 then None else Some((data, []))
    decreases |data|
  {
    ChunksFirst(data);
    assert Chunks(data) + [] == Chunks(data);
    if |data| > MPS {
      NeedsTerminator(data[MPS..]);
      assert Chunks(data[MPS..]) + [] == Chunks(data[MPS..]);
      assert data[..MPS] + data[MPS..] == data;
    } else if |data| == MPS {
      assert Chunks(data)[1..] == [];
    }
  }

  /** Vendor hosts read one packet: a reply of at most one packet is that packet alone. */
  lemma VendorReply(data: seq<u8>)
    requires 1 <= |data| <= 64
    ensures ReplyPackets(data, false) == [data]
  {
  }
}
