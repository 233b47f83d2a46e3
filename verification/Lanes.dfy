/** The lanes of a probe: for each, an I/O task and a worker on different cores that share a
    request and a reply buffer and take turns over two channels of depth one. Every
    interleaving of their steps, of every lane, with every host behaviour, is a trace. */
module Lanes {
  import opened Words
  import opened Framing
  import opened Usb

  const INFO_COMMAND: u8 := 0

  type Reply = r: seq<u8> | |r| <= DAP_PACKET_SIZE witness []

  /** What a worker has done with its DAP: run a command, or suspended. */
  datatype Job = Ran(request: seq<u8>) | Suspended

  /** `process_command`: the reply depends on the request and on all that was done before. */
  type Processor = (seq<Job>, seq<u8>) -> Reply

  /** Messages to a worker; `len` bytes of the request buffer hold the command. */
  datatype Message = Process(len: nat) | Suspend

  /** Where the I/O task is, by what it waits for. */
  datatype Io =
    | Disabled               // the interface to be enabled
    | Receiving(len: nat)    // a packet, `len` bytes of the request being there
    | Local                  // an answer made on core 0
    | Handing(len: nat)      // room for `Process`
    | Awaiting               // the worker's reply
    | Sending(len: nat)      // the host to take the reply
    | Leaving                // room for `Suspend`

  datatype Worker =
    | Idle
    | Running(len: nat)      // in `process_command`
    | Replying(len: nat)     // room for the reply message
    | Parking                // in `suspend`

  datatype Exchange = Exchange(asked: seq<u8>, reply: seq<u8>)

  /** A reply the I/O task has for the host: its own, or one collected from the worker. */
  datatype Given = Given(exchange: Exchange, local: bool)

  /** Bytes sent to the host, which of the answers they were sent for, and whether sending
      went through. */
  datatype Delivery = Delivery(at: nat, bytes: seq<u8>, whole: bool)

  /** One lane. The last six fields are history: the bytes of the current request as they
      arrived, the requests handed to the worker, the worker's jobs, the answers the I/O
      task has had, what it has sent, and how often it found the interface down. */
  datatype Lane = Lane(
    io: Io, worker: Worker, toWorker: Option<Message>, toIo: Option<nat>, req: seq<u8>, resp: seq<u8>,
    heard: seq<u8>, handed: seq<seq<u8>>, jobs: seq<Job>, answered: seq<Given>, sent: seq<Delivery>,
    downs: nat)

  datatype Action =
    | Enable
    | Receive(packet: Packet)
    | ReceiveFailed
    | AnswerLocally(reply: Reply)
    | Hand
    | Collect
    | Sent
    | SendFailed(packets: nat)   // so many packets of the reply had gone out
    | Leave
    | Take
    | Scribble(reply: Reply)   // `process_command` under way writes into the reply buffer
    | Finish
    | Answer
    | Parked

  predicate Enabled(l: Lane, a: Action) {
    match a
    case Enable => l.io.Disabled?
    case Receive(_) => l.io.Receiving?
    case ReceiveFailed => l.io.Receiving?
    case AnswerLocally(_) => l.io.Local?
    case Hand => l.io.Handing? && l.toWorker.None?
    case Collect => l.io.Awaiting? && l.toIo.Some?
    case Sent => l.io.Sending?
    case SendFailed(packets) =>
      // not the last packet: all bytes can only be out if a terminator was to follow
      && l.io.Sending? && MPS * packets <= l.io.len
      && (MPS * packets == l.io.len ==> l.req != [] && !IsVendor(l.req[0]))
    case Leave => l.io.Leaving? && l.toWorker.None?
    case Take => l.worker.Idle? && l.toWorker.Some?
    case Scribble(_) => l.worker.Running?
    case Finish => l.worker.Running?
    case Answer => l.worker.Replying? && l.toIo.None?
    case Parked => l.worker.Parking?
  }

  /** `bytes` written to a buffer from `at` on; what does not fit is not written. */
  function Put(buf: seq<u8>, at: nat, bytes: seq<u8>): seq<u8> {
    if at + |bytes| <= |buf| then buf[..at] + bytes + buf[at + |bytes|..] else buf
  }

  function Front(buf: seq<u8>, len: nat): seq<u8> {
    if len <= |buf| then buf[..len] else buf
  }

  /** A packet for a request of which `len` bytes are there; the buffer's own bytes decide
      whether the request is over and who is to answer it. One that needs more than the
      buffer has room for is dropped, before its next packet is read. */
  function Received(l: Lane, len: nat, packet: Packet): Lane {
    var req, n := Put(l.req, len, packet), len + |packet|;
    var l' := l.(req := req, heard := l.heard + packet);
    if |packet| == MPS && FramingOf(Front(req, n)).NeedMore? then
      if n + MPS > |req| then l'.(io := Receiving(0), heard := []) else l'.(io := Receiving(n))
    else if n == 0 || req == [] then l'.(io := Receiving(0), heard := [])
    else if req[0] == INFO_COMMAND || IsVendor(req[0]) then l'.(io := Local)
    else l'.(io := Handing(n))
  }

  /** The answer being sent, with what of it has gone out. */
  function Delivered(l: Lane, bytes: seq<u8>, whole: bool): Lane {
    var at: nat := if l.answered == [] then 0 else |l.answered| - 1;
    l.(sent := l.sent + [Delivery(at, bytes, whole)])
  }

  /** Back to reading, or on to sending a reply of `len` bytes. */
  function Replied(l: Lane, len: nat): Lane {
    if len == 0 then l.(io := Receiving(0), heard := []) else l.(io := Sending(len))
  }

  function Next(run: Processor, l: Lane, a: Action): Lane
    requires Enabled(l, a)
  {
    match a
    case Enable => l.(io := Receiving(0), heard := [])
    case Receive(packet) => Received(l, l.io.len, packet)
    case ReceiveFailed => l.(io := Leaving, downs := l.downs + 1)
    case AnswerLocally(reply) =>
      var answer := Given(Exchange(l.heard, reply), true);
      Replied(l.(resp := Put(l.resp, 0, reply), answered := l.answered + [answer]), |reply|)
    case Hand =>
      l.(io := Awaiting, toWorker := Some(Process(l.io.len)), handed := l.handed + [Front(l.req, l.io.len)])
    case Collect =>
      var answer := Given(Exchange(l.heard, Front(l.resp, l.toIo.value)), false);
      Replied(l.(toIo := None, answered := l.answered + [answer]), l.toIo.value)
    case Sent => Delivered(l, Front(l.resp, l.io.len), true).(io := Receiving(0), heard := [])
    case SendFailed(packets) => Delivered(l, Front(l.resp, MPS * packets), false).(io := Leaving, downs := l.downs + 1)
    case Leave => l.(io := Disabled, toWorker := Some(Suspend))
    case Take =>
      l.(toWorker := None, worker := if l.toWorker.value.Process? then Running(l.toWorker.value.len) else Parking)
    case Scribble(reply) => l.(resp := Put(l.resp, 0, reply))
    case Finish =>
      var request := Front(l.req, l.worker.len);
      var reply := run(l.jobs, request);
      l.(worker := Replying(|reply|), resp := Put(l.resp, 0, reply), jobs := l.jobs + [Ran(request)])
    case Answer => l.(worker := Idle, toIo := Some(l.worker.len))
    case Parked => l.(worker := Idle, jobs := l.jobs + [Suspended])
  }

  // What holds in every state

  predicate IoHolds(l: Lane) {
    l.io.Receiving? || l.io.Local? || l.io.Handing? || l.io.Sending?
  }

  predicate WorkerHolds(l: Lane) {
    l.worker.Running?
  }

  /** A request is queued, run, or its reply queued. */
  predicate Queued(l: Lane) { l.toWorker.Some? && l.toWorker.value.Process? }
  predicate Busy(l: Lane) { l.worker.Running? || l.worker.Replying? }
  predicate Answered(l: Lane) { l.toIo.Some? }

  /** What the worker's jobs answer, command by command. */
  function Exchanges(run: Processor, jobs: seq<Job>): seq<Exchange> {
    if jobs == [] then []
    else
      var before, last := jobs[..|jobs| - 1], jobs[|jobs| - 1];
      if last.Ran? then Exchanges(run, before) + [Exchange(last.request, run(before, last.request))]
      else Exchanges(run, before)
  }

  /** The answers collected from the worker. */
  function Collected(answers: seq<Given>): seq<Exchange> {
    if answers == [] then []
    else
      var before, last := answers[..|answers| - 1], answers[|answers| - 1];
      if last.local then Collected(before) else Collected(before) + [last.exchange]
  }

  lemma CollectedMore(answers: seq<Given>, a: Given)
    ensures Collected(answers + [a]) == if a.local then Collected(answers) else Collected(answers) + [a.exchange]
  {
    assert (answers + [a])[..|answers|] == answers;
  }

  function Asked(exchanges: seq<Exchange>): (asked: seq<seq<u8>>)
    ensures |asked| == |exchanges|
    ensures forall i :: 0 <= i < |asked| ==> asked[i] == exchanges[i].asked
  {
    seq(|exchanges|, i requires 0 <= i < |exchanges| => exchanges[i].asked)
  }

  /** Whose turn it is. */
  predicate Turns(l: Lane) {
    && (l.io.Awaiting? ==> Bit(Queued(l)) + Bit(Busy(l)) + Bit(Answered(l)) == 1)
    && (!l.io.Awaiting? ==> !Queued(l) && !Busy(l) && !Answered(l))
    && (l.io.Awaiting? && l.toWorker.Some? ==> Queued(l))
    && (Answered(l) ==> l.worker.Idle?)
  }

  /** The request buffer holds the request as it arrived, up to `len` bytes. */
  predicate Holds(l: Lane, len: nat) {
    len <= |l.req| && l.req[..len] == l.heard
  }

  predicate Contents(l: Lane) {
    && |l.req| == |l.resp| == DAP_PACKET_SIZE
    && (l.io.Receiving? ==> Holds(l, l.io.len) && l.io.len + MPS <= |l.req|)
    && (l.io.Handing? ==> Holds(l, l.io.len))
    && (Queued(l) ==> Holds(l, l.toWorker.value.len))
    && (l.worker.Running? ==> Holds(l, l.worker.len))
    && (l.worker.Replying? ==> l.worker.len <= |l.resp|)
    && (l.toIo.Some? ==> l.toIo.value <= |l.resp|)
    && (l.io.Sending? ==> l.io.len <= |l.resp|)
  }

  /** Every request handed over is answered by its own exchange, in order. */
  predicate InOrder(run: Processor, l: Lane) {
    && Exchanges(run, l.jobs)
       == Collected(l.answered)
          + (if l.worker.Replying? then [Exchange(l.heard, Front(l.resp, l.worker.len))]
             else if l.toIo.Some? then [Exchange(l.heard, Front(l.resp, l.toIo.value))]
             else [])
    && l.handed == Asked(Collected(l.answered)) + if l.io.Awaiting? then [l.heard] else []
  }

  /** A delivery is its answer, or, if sending failed, whole packets from its beginning. */
  predicate IsDelivery(d: Delivery, answered: seq<Given>) {
    && d.at < |answered|
    && var reply := answered[d.at].exchange.reply;
    if d.whole then d.bytes == reply else d.bytes <= reply && |d.bytes| % MPS == 0
  }

  /** The answers there is something to send for, by their place among all. */
  function Due(answers: seq<Given>): (due: seq<nat>)
    ensures forall k :: 0 <= k < |due| ==> due[k] < |answers|
    ensures forall j, k :: 0 <= j < k < |due| ==> due[j] < due[k]
  {
    if answers == [] then []
    else
      var n: nat := |answers| - 1;
      Due(answers[..n]) + if answers[n].exchange.reply == [] then [] else [n]
  }

  lemma DueMore(answers: seq<Given>, a: Given)
    ensures Due(answers + [a]) == Due(answers) + if a.exchange.reply == [] then [] else [|answers|]
  {
    assert (answers + [a])[..|answers|] == answers;
  }

  /** What is being sent is the last answer, made to the request last heard; and every answer
      that is not empty has been sent, in order and once, or is being sent. */
  predicate Deliveries(l: Lane) {
    && (l.io.Sending? ==>
          && l.answered != []
          && l.answered[|l.answered| - 1].exchange == Exchange(l.heard, Front(l.resp, l.io.len)))
    && |Due(l.answered)| == |l.sent| + Bit(l.io.Sending?)
    && (l.io.Sending? ==> Due(l.answered)[|l.sent|] == |l.answered| - 1)
    && (forall i :: 0 <= i < |l.sent| ==> l.sent[i].at == Due(l.answered)[i] && IsDelivery(l.sent[i], l.answered))
  }

  /** What core 0 answers by itself: DAP_Info and the vendor commands, 0x80 to 0x9F. */
  predicate ForCore0(request: seq<u8>) {
    request != [] && (request[0] == 0x00 || 0x80 <= request[0] <= 0x9F)
  }

  predicate ForWorker(request: seq<u8>) {
    request != [] && request[0] != 0x00 && !(0x80 <= request[0] <= 0x9F)
  }

  /** Every request is answered by its own side. */
  predicate Routed(l: Lane) {
    && (l.io.Local? ==> ForCore0(l.heard))
    && (l.io.Handing? || l.io.Awaiting? ==> ForWorker(l.heard))
    && (forall r :: r in l.handed ==> ForWorker(r))
    && (forall g :: g in l.answered ==> if g.local then ForCore0(g.exchange.asked) else ForWorker(g.exchange.asked))
  }

  function CountSuspended(jobs: seq<Job>): nat {
    if jobs == [] then 0 else CountSuspended(jobs[..|jobs| - 1]) + Bit(jobs[|jobs| - 1].Suspended?)
  }

  /** The worker suspends once for every time the interface went down. */
  predicate Suspends(l: Lane) {
    l.downs == CountSuspended(l.jobs) + Bit(l.worker.Parking?) + Bit(l.toWorker == Some(Suspend)) + Bit(l.io.Leaving?)
  }

  predicate Inv(run: Processor, l: Lane) {
    Turns(l) && Contents(l) && InOrder(run, l) && Deliveries(l) && Routed(l) && Suspends(l)
  }

  lemma PutHolds(buf: seq<u8>, at: nat, bytes: seq<u8>)
    requires at + |bytes| <= |buf|
    ensures |Put(buf, at, bytes)| == |buf| && Put(buf, at, bytes)[..at + |bytes|] == buf[..at] + bytes
  {
  }

  lemma JobDone(run: Processor, jobs: seq<Job>, job: Job)
    ensures Exchanges(run, jobs + [job])
         == if job.Ran? then Exchanges(run, jobs) + [Exchange(job.request, run(jobs, job.request))]
            else Exchanges(run, jobs)
  {
    assert (jobs + [job])[..|jobs|] == jobs;
  }

  lemma AskedMore(exchanges: seq<Exchange>, e: Exchange)
    ensures Asked(exchanges + [e]) == Asked(exchanges) + [e.asked]
  {
  }

  /** Only an answer and its sending touch what is delivered. */
  lemma DeliveriesKept(run: Processor, l: Lane, a: Action)
    requires Inv(run, l) && Enabled(l, a)
    ensures Deliveries(Next(run, l, a))
  {
    hide Exchanges, Asked, Collected, FramingOf, InOrder, Deliveries, IsDelivery, Routed, Suspends;
    if a.AnswerLocally? {
      PutHolds(l.resp, 0, a.reply);
      assert l.resp[..0] + a.reply == a.reply;
      AnswerAdded(l, Next(run, l, a), Given(Exchange(l.heard, a.reply), true));
    } else if a.Collect? {
      AnswerAdded(l, Next(run, l, a), Given(Exchange(l.heard, Front(l.resp, l.toIo.value)), false));
    } else if a.Sent? {
      DeliveryAdded(l, Next(run, l, a), l.io.len, true);
    } else if a.SendFailed? {
      DeliveryAdded(l, Next(run, l, a), MPS * a.packets, false);
    } else {
      NothingDelivered(l, Next(run, l, a));
    }
  }

  lemma NothingDelivered(l: Lane, l': Lane)
    requires Deliveries(l) && l'.sent == l.sent && l'.answered == l.answered && l'.io.Sending? == l.io.Sending?
    requires l'.io.Sending? ==> l'.io == l.io && l'.heard == l.heard && l'.resp == l.resp
    ensures Deliveries(l')
  {
  }

  lemma AnswerAdded(l: Lane, l': Lane, answer: Given)
    requires Deliveries(l) && l'.sent == l.sent && l'.answered == l.answered + [answer]
    requires !l.io.Sending? && (l'.io.Sending? <==> answer.exchange.reply != [])
    requires l'.io.Sending? ==> answer.exchange == Exchange(l'.heard, Front(l'.resp, l'.io.len))
    ensures Deliveries(l')
  {
    DueMore(l.answered, answer);
  }

  lemma DeliveryAdded(l: Lane, l': Lane, n: nat, whole: bool)
    requires Deliveries(l) && l.io.Sending? && n <= l.io.len <= |l.resp|
    requires if whole then n == l.io.len else n % MPS == 0
    requires l'.sent == Delivered(l, Front(l.resp, n), whole).sent && l'.answered == l.answered && !l'.io.Sending?
    ensures Deliveries(l')
  {
    assert IsDelivery(l'.sent[|l.sent|], l.answered);
    forall i | 0 <= i < |l'.sent| ensures l'.sent[i].at == Due(l.answered)[i] && IsDelivery(l'.sent[i], l'.answered) {
      if i < |l.sent| {
        assert l'.sent[i] == l.sent[i];
      }
    }
  }

  /** Where a request goes is decided by the byte that was heard first. */
  lemma RoutedKept(run: Processor, l: Lane, a: Action)
    requires Inv(run, l) && Enabled(l, a)
    ensures Routed(Next(run, l, a))
  {
    hide Exchanges, Asked, Collected, FramingOf, InOrder, Deliveries, Suspends;
    if a.Receive? {
      PutHolds(l.req, l.io.len, a.packet);
      var req, n := Put(l.req, l.io.len, a.packet), l.io.len + |a.packet|;
      assert req[..n] == l.heard + a.packet;
      assert n > 0 ==> req[0] == req[..n][0];
    }
  }

  lemma SuspendsKept(run: Processor, l: Lane, a: Action)
    requires Inv(run, l) && Enabled(l, a)
    ensures Suspends(Next(run, l, a))
  {
    hide Exchanges, Asked, Collected, FramingOf, InOrder, Deliveries, Routed, Contents;
    if a.Parked? {
      assert (l.jobs + [Suspended])[..|l.jobs|] == l.jobs;
    } else if a.Finish? {
      assert Next(run, l, a).jobs[..|l.jobs|] == l.jobs;
    }
  }

  lemma IoKeeps(run: Processor, l: Lane, a: Action)
    requires Inv(run, l) && Enabled(l, a)
    requires a.Enable? || a.Receive? || a.ReceiveFailed? || a.AnswerLocally? || a.Sent? || a.SendFailed? || a.Leave?
    ensures var l' := Next(run, l, a); Turns(l') && Contents(l') && InOrder(run, l')
  {
    hide Exchanges, Asked, Collected, Deliveries, FramingOf, Routed, Suspends;
    if a.Receive? {
      PutHolds(l.req, l.io.len, a.packet);
    } else if a.AnswerLocally? {
      PutHolds(l.resp, 0, a.reply);
      CollectedMore(l.answered, Given(Exchange(l.heard, a.reply), true));
    }
  }

  lemma ChannelKeeps(run: Processor, l: Lane, a: Action)
    requires Inv(run, l) && Enabled(l, a) && (a.Hand? || a.Collect? || a.Take? || a.Answer? || a.Parked?)
    ensures var l' := Next(run, l, a); Turns(l') && Contents(l') && InOrder(run, l')
  {
    hide Exchanges, Asked, Collected, Deliveries, FramingOf, Routed, Suspends;
    if a.Parked? {
      JobDone(run, l.jobs, Suspended);
    } else if a.Collect? {
      var e := Exchange(l.heard, Front(l.resp, l.toIo.value));
      AskedMore(Collected(l.answered), e);
      CollectedMore(l.answered, Given(e, false));
    }
  }

  lemma WorkerKeeps(run: Processor, l: Lane, a: Action)
    requires Inv(run, l) && Enabled(l, a) && (a.Scribble? || a.Finish?)
    ensures var l' := Next(run, l, a); Turns(l') && Contents(l') && InOrder(run, l')
  {
    hide Exchanges, Asked, Collected, Deliveries, FramingOf, Routed, Suspends;
    if a.Scribble? {
      PutHolds(l.resp, 0, a.reply);
    } else {
      var request := Front(l.req, l.worker.len);
      JobDone(run, l.jobs, Ran(request));
      PutHolds(l.resp, 0, run(l.jobs, request));
      assert l.resp[..0] + run(l.jobs, request) == run(l.jobs, request);
    }
  }

  /** Every step of either task keeps the lane's invariant. */
  lemma StepKeeps(run: Processor, l: Lane, a: Action)
    requires Inv(run, l) && Enabled(l, a)
    ensures Inv(run, Next(run, l, a))
  {
    hide Turns, Contents, InOrder, Deliveries, Routed, Suspends, Next;
    DeliveriesKept(run, l, a);
    RoutedKept(run, l, a);
    SuspendsKept(run, l, a);
    if a.Scribble? || a.Finish? {
      WorkerKeeps(run, l, a);
    } else if a.Hand? || a.Collect? || a.Take? || a.Answer? || a.Parked? {
      ChannelKeeps(run, l, a);
    } else {
      IoKeeps(run, l, a);
    }
  }

  /** A packet takes a lane where `read_request` goes on it: on reading, done with nothing to
      answer, or with exactly the request read. */
  lemma PacketRead(run: Processor, l: Lane, packet: Packet, more: seq<Usb.Event>)
    requires Inv(run, l) && l.io.Receiving?
    ensures var l', outcome := Next(run, l, Receive(packet)), Reading(l.heard, [Arrived(packet)] + more);
            match l'.io
            case Receiving(n) => outcome == if n > 0 then Reading(l'.heard, more) else (Nothing, more)
            case Local => outcome == (Got(l'.heard), more) && ForCore0(l'.heard)
            case Handing(n) => outcome == (Got(l'.heard), more) && n == |l'.heard| && ForWorker(l'.heard)
            case _ => false
  {
    hide Turns, InOrder, Deliveries, FramingOf, Suspends;
    RoutedKept(run, l, Receive(packet));
    PutHolds(l.req, l.io.len, packet);
    assert ([Arrived(packet)] + more)[1..] == more;
  }

  /** Sending can fail after any packets of the reply but the last, its terminator among them. */
  lemma SendFails(run: Processor, l: Lane, packets: nat)
    requires Inv(run, l) && l.io.Sending?
    ensures Enabled(l, SendFailed(packets))
       <==> packets < |ReplyPackets(Front(l.resp, l.io.len), !(0x80 <= l.req[0] <= 0x9F))|
  {
    hide Turns, InOrder, Routed, Suspends, Chunks, Exchanges;
  }

  // All lanes

  /** All lanes, and the shared count of those inside `process_command`. */
  datatype System = System(lanes: seq<Lane>, activeLanes: int)

  datatype Event = Event(lane: nat, action: Action)

  predicate CanStep(s: System, e: Event) {
    e.lane < |s.lanes| && Enabled(s.lanes[e.lane], e.action)
  }

  /** `ACTIVE_LANES` goes up before `process_command` and down after it. */
  function SystemStep(run: Processor, s: System, e: Event): System
    requires CanStep(s, e)
  {
    var l := s.lanes[e.lane];
    var change := if e.action.Take? && l.toWorker.value.Process? then 1 else if e.action.Finish? then -1 else 0;
    System(s.lanes[e.lane := Next(run, l, e.action)], s.activeLanes + change)
  }

  function CountRunning(lanes: seq<Lane>): nat {
    if lanes == [] then 0 else Bit(WorkerHolds(lanes[0])) + CountRunning(lanes[1..])
  }

  predicate SystemInv(run: Processor, s: System) {
    && (forall i :: 0 <= i < |s.lanes| ==> Inv(run, s.lanes[i]))
    && s.activeLanes == CountRunning(s.lanes)
  }

  lemma {:induction false} CountAfter(lanes: seq<Lane>, i: nat, l: Lane)
    requires i < |lanes|
    ensures CountRunning(lanes[i := l])
         == CountRunning(lanes) - Bit(WorkerHolds(lanes[i])) + Bit(WorkerHolds(l))
  {
    if i == 0 {
      assert lanes[0 := l][1..] == lanes[1..];
    } else {
      assert lanes[i := l][1..] == lanes[1..][i - 1 := l];
      CountAfter(lanes[1..], i - 1, l);
    }
  }

  lemma SystemStepKeeps(run: Processor, s: System, e: Event)
    requires SystemInv(run, s) && CanStep(s, e)
    ensures SystemInv(run, SystemStep(run, s, e))
  {
    hide Inv, Received, Replied;
    StepKeeps(run, s.lanes[e.lane], e.action);
    CountAfter(s.lanes, e.lane, Next(run, s.lanes[e.lane], e.action));
    KeepsWorker(run, s.lanes[e.lane], e.action);
  }

  /** Only taking a command and finishing it change whether a worker runs one. */
  lemma KeepsWorker(run: Processor, l: Lane, a: Action)
    requires Enabled(l, a)
    ensures !a.Take? && !a.Finish? ==> WorkerHolds(Next(run, l, a)) == WorkerHolds(l)
  {
  }

  /** A trace in which every step could be taken. */
  predicate Possible(run: Processor, s: System, trace: seq<Event>)
    decreases |trace|
  {
    trace == [] || (CanStep(s, trace[0]) && Possible(run, SystemStep(run, s, trace[0]), trace[1..]))
  }

  function After(run: Processor, s: System, trace: seq<Event>): System
    requires Possible(run, s, trace)
    decreases |trace|
  {
    if trace == [] then s else After(run, SystemStep(run, s, trace[0]), trace[1..])
  }

  function Boot(n: nat): System {
    var zeros := seq(DAP_PACKET_SIZE, _ => 0);
    System(seq(n, _ => Lane(Disabled, Idle, None, None, zeros, zeros, [], [], [], [], [], 0)), 0)
  }

  lemma {:induction false} TraceKeeps(run: Processor, s: System, trace: seq<Event>)
    requires SystemInv(run, s) && Possible(run, s, trace)
    ensures SystemInv(run, After(run, s, trace))
    decreases |trace|
  {
    hide SystemInv, SystemStep, CanStep;
    if trace != [] {
      SystemStepKeeps(run, s, trace[0]);
      TraceKeeps(run, SystemStep(run, s, trace[0]), trace[1..]);
    }
  }

  lemma {:induction false} NoneRunning(lanes: seq<Lane>)
    requires forall l :: l in lanes ==> !WorkerHolds(l)
    ensures CountRunning(lanes) == 0
  {
    if lanes != [] { NoneRunning(lanes[1..]); }
  }

  lemma BootHolds(run: Processor, n: nat)
    ensures SystemInv(run, Boot(n))
  {
    NoneRunning(Boot(n).lanes);
  }

  /** In every state of every trace from power-up: on no lane do both sides hold the
      buffers; while a reply is awaited exactly one of request queued, worker running and
      reply queued holds, and otherwise none; the k-th reply collected is the result of the
      k-th request handed over and of the jobs before it; DAP_Info and the vendor commands
      never reach the worker and nothing else is answered on core 0; every answer that is not
      empty is sent to the host, in order and once, and whole unless sending failed, which
      leaves whole packets of its beginning; the worker has suspended, or is about to, once
      for each time the interface went down; and `ACTIVE_LANES` is the number of lanes inside
      `process_command`. */
  lemma EveryTrace(run: Processor, n: nat, trace: seq<Event>, i: nat)
    requires Possible(run, Boot(n), trace) && i < n
    ensures var s := After(run, Boot(n), trace);
            && s.activeLanes == CountRunning(s.lanes) && |s.lanes| == n
            && var l := s.lanes[i];
            var collected := Collected(l.answered);
            && !(IoHolds(l) && WorkerHolds(l)) && Turns(l)
            && |l.handed| == |collected| + Bit(l.io.Awaiting?)
            && (forall k :: 0 <= k < |collected| ==> collected[k].asked == l.handed[k])
            && collected <= Exchanges(run, l.jobs)
            && (forall r :: r in l.handed ==> ForWorker(r))
            && (forall g :: g in l.answered ==>
                  if g.local then ForCore0(g.exchange.asked) else ForWorker(g.exchange.asked))
            && |Due(l.answered)| == |l.sent| + Bit(l.io.Sending?)
            && (forall k :: 0 <= k < |l.sent| ==>
                  l.sent[k].at == Due(l.answered)[k] && IsDelivery(l.sent[k], l.answered))
            && Suspends(l)
  {
    hide Exchanges, Asked, Collected, FramingOf, Suspends;
    BootHolds(run, n);
    TraceKeeps(run, Boot(n), trace);
    SameLanes(run, Boot(n), trace);
  }

  lemma {:induction false} SameLanes(run: Processor, s: System, trace: seq<Event>)
    requires Possible(run, s, trace)
    ensures |After(run, s, trace).lanes| == |s.lanes|
    decreases |trace|
  {
    hide Next;
    if trace != [] { SameLanes(run, SystemStep(run, s, trace[0]), trace[1..]); }
  }

  /** A buffer only ever changes under the side that holds it, the other not holding it. */
  lemma OnlyHolderWrites(run: Processor, l: Lane, a: Action)
    requires Inv(run, l) && Enabled(l, a)
    ensures Next(run, l, a).req != l.req ==> IoHolds(l) && !WorkerHolds(l)
    ensures Next(run, l, a).resp != l.resp ==> IoHolds(l) != WorkerHolds(l)
  {
    hide Exchanges, Asked, Collected, FramingOf;
  }

  /** What the worker is given is the request as the host's packets carried it. */
  lemma OwnBytes(run: Processor, l: Lane)
    requires Inv(run, l) && Enabled(l, Finish)
    ensures var l' := Next(run, l, Finish);
            && l'.jobs == l.jobs + [Ran(l.heard)]
            && Front(l'.resp, l'.worker.len) == run(l.jobs, l.heard)
  {
    hide Exchanges, Asked;
    PutHolds(l.resp, 0, run(l.jobs, Front(l.req, l.worker.len)));
  }

  // Nothing waits for ever

  /** Steps the worker's side still owes an awaiting I/O task. */
  function Owed(l: Lane): nat {
    if l.toIo.Some? then 1
    else if l.worker.Replying? then 2
    else if l.worker.Running? then 3
    else if l.worker.Idle? then 4
    else 5
  }

  /** While a reply is awaited there is always a step to take, and every step but writing
      into the reply buffer brings the reply nearer. */
  lemma ReplyComes(run: Processor, l: Lane) returns (a: Action)
    requires Inv(run, l) && l.io.Awaiting?
    ensures Enabled(l, a) && !a.Scribble?
    ensures forall b :: Enabled(l, b) && !b.Scribble? ==>
                          !Next(run, l, b).io.Awaiting? || Owed(Next(run, l, b)) < Owed(l)
  {
    hide Exchanges, Asked, Collected, FramingOf;
    a := if l.toIo.Some? then Collect
         else if l.worker.Replying? then Answer
         else if l.worker.Running? then Finish
         else if l.worker.Parking? then Parked
         else Take;
    forall b | Enabled(l, b) && !b.Scribble?
      ensures !Next(run, l, b).io.Awaiting? || Owed(Next(run, l, b)) < Owed(l)
    {
    }
  }

  /** A message is only ever held up by an earlier `Suspend`, which the worker takes: it is
      never queued behind a command. */
  lemma OnlySuspendsQueue(run: Processor, l: Lane)
    requires Inv(run, l) && (l.io.Handing? || l.io.Leaving?)
    ensures l.worker.Idle? || l.worker.Parking?
    ensures l.toWorker.Some? ==> l.toWorker.value.Suspend? && (Enabled(l, Take) || Enabled(l, Parked))
    ensures l.toWorker.None? ==> Enabled(l, if l.io.Handing? then Hand else Leave)
  {
    hide Exchanges, Asked, Collected, FramingOf;
  }
}
