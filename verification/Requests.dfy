/** Requests as a host writes them, byte by byte, and what each has to be taken for: the
    framing finds its length, and the processor does and answers what it asks. */
module Requests {
  import opened Words
  import opened Swd
  import opened Framing
  import opened DapTransfer
  import opened Sequences
  import Dap

  /** A transfer: the port, the direction, address bits 2 and 3, and what it asks for besides. */
  datatype Access = Access(
    ap: bool, read: bool, a2: bool, a3: bool, matchValue: bool, matchMask: bool, stamp: bool, operand: Option<u32>)

  /** A JTAG sequence: whether TDO is captured, TMS, and the TDI bits. */
  datatype JtagSequence = JtagSequence(bits: nat, capture: bool, tms: bool, data: seq<u8>)

  datatype Command =
    | Info(id: u8)
    | HostState(kind: u8, on: bool)
    | Connect(port: u8)
    | Disconnect
    | TransferConfigure(idle: u8, waits: u16, matches: u16)
    | Transfers(index: u8, accesses: seq<Access>)
    | ReadBlock(index: u8, count: u16, ap: bool, a2: bool, a3: bool)
    | WriteBlock(index: u8, ap: bool, a2: bool, a3: bool, words: seq<u32>)
    | TransferAbort
    | WriteAbort(index: u8, word: u32)
    | Delay(us: u16)
    | ResetTarget
    | SwjPins(output: u8, mask: u8, wait: u32)
    | SwjClock(hz: u32)
    | SwjSequence(bits: nat, data: seq<u8>)
    | SwdConfigure(turnaround: nat, dataPhase: bool)
    | JtagSequences(scans: seq<JtagSequence>)
    | JtagConfigure(lengths: seq<u8>)
    | JtagIdCode(index: u8)
    | SwoTransport(which: u8)
    | SwoMode(mode: u8)
    | SwoBaudrate(baud: u32)
    | SwoControl(control: u8)
    | SwoStatus
    | SwoExtendedStatus(what: u8)
    | SwoData(count: u16)
    | SwdSequences(entries: seq<Sequence>)

  // What may be written

  /** `data` holds `bits` bits and no byte more. */
  predicate Fits(bits: nat, data: seq<u8>) {
    bits <= 8 * |data| < bits + 8
  }

  predicate GoodAccess(a: Access) {
    a.operand.Some? <==> !a.read || a.matchValue
  }

  predicate GoodSequence(e: Sequence) {
    1 <= e.bits <= 64 && (e.Out? ==> Fits(e.bits, e.data))
  }

  predicate GoodJtag(e: JtagSequence) {
    1 <= e.bits <= 64 && Fits(e.bits, e.data)
  }

  predicate Good(c: Command) {
    match c
    case HostState(kind, _) => kind <= 1
    case Transfers(_, accesses) => |accesses| < 0x100 && forall a :: a in accesses ==> GoodAccess(a)
    case WriteBlock(_, _, _, _, words) => |words| < 0x1_0000
    case SwjSequence(bits, data) => 1 <= bits <= 256 && Fits(bits, data)
    case SwdConfigure(turnaround, _) => 1 <= turnaround <= 4
    case JtagSequences(entries) => |entries| < 0x100 && forall e :: e in entries ==> GoodJtag(e)
    case JtagConfigure(lengths) => |lengths| < 0x100
    case SwdSequences(entries) => |entries| < 0x100 && forall e :: e in entries ==> GoodSequence(e)
    case _ => true
  }

  // How it is written

  function RequestByte(a: Access): u8 {
    Bit(a.ap) + 2 * Bit(a.read) + 4 * Bit(a.a2) + 8 * Bit(a.a3) + 16 * Bit(a.matchValue) + 32 * Bit(a.matchMask)
    + 128 * Bit(a.stamp)
  }

  function WrittenAccess(a: Access): seq<u8> {
    [RequestByte(a)] + if a.operand.Some? then Le32(a.operand.value) else []
  }

  function WrittenAccesses(accesses: seq<Access>): seq<u8> {
    if accesses == [] then [] else WrittenAccess(accesses[0]) + WrittenAccesses(accesses[1..])
  }

  function WrittenSequence(e: Sequence): seq<u8>
    requires GoodSequence(e)
  {
    match e
    case Out(bits, data) => [bits % 64] + data
    case In(bits) => [128 + bits % 64]
  }

  function WrittenSequences(entries: seq<Sequence>): seq<u8>
    requires forall e :: e in entries ==> GoodSequence(e)
  {
    if entries == [] then [] else WrittenSequence(entries[0]) + WrittenSequences(entries[1..])
  }

  function WrittenJtag(e: JtagSequence): seq<u8>
    requires GoodJtag(e)
  {
    [e.bits % 64 + 64 * Bit(e.tms) + 128 * Bit(e.capture)] + e.data
  }

  function WrittenJtags(entries: seq<JtagSequence>): seq<u8>
    requires forall e :: e in entries ==> GoodJtag(e)
  {
    if entries == [] then [] else WrittenJtag(entries[0]) + WrittenJtags(entries[1..])
  }

  function BlockByte(ap: bool, read: bool, a2: bool, a3: bool): u8 {
    Bit(ap) + 2 * Bit(read) + 4 * Bit(a2) + 8 * Bit(a3)
  }

  /** The bytes of a command. */
  function Written(c: Command): (bytes: seq<u8>)
    requires Good(c)
    ensures bytes != []
  {
    match c
    case Info(id) => [0x00, id]
    case HostState(kind, on) => [0x01, kind, Bit(on)]
    case Connect(port) => [0x02, port]
    case Disconnect => [0x03]
    case TransferConfigure(idle, waits, matches) => [0x04, idle] + Le16(waits) + Le16(matches)
    case Transfers(index, accesses) => [0x05, index, |accesses|] + WrittenAccesses(accesses)
    case ReadBlock(index, count, ap, a2, a3) => [0x06, index] + Le16(count) + [BlockByte(ap, true, a2, a3)]
    case WriteBlock(index, ap, a2, a3, words) =>
      [0x06, index] + Le16(|words|) + [BlockByte(ap, false, a2, a3)] + LeBytes(words)
    case TransferAbort => [0x07]
    case WriteAbort(index, word) => [0x08, index] + Le32(word)
    case Delay(us) => [0x09] + Le16(us)
    case ResetTarget => [0x0A]
    case SwjPins(output, mask, wait) => [0x10, output, mask] + Le32(wait)
    case SwjClock(hz) => [0x11] + Le32(hz)
    case SwjSequence(bits, data) => [0x12, bits % 256] + data
    case SwdConfigure(turnaround, dataPhase) => [0x13, turnaround - 1 + 4 * Bit(dataPhase)]
    case JtagSequences(entries) => [0x14, |entries|] + WrittenJtags(entries)
    case JtagConfigure(lengths) => [0x15, |lengths|] + lengths
    case JtagIdCode(index) => [0x16, index]
    case SwoTransport(which) => [0x17, which]
    case SwoMode(mode) => [0x18, mode]
    case SwoBaudrate(baud) => [0x19] + Le32(baud)
    case SwoControl(control) => [0x1A, control]
    case SwoStatus => [0x1B]
    case SwoData(count) => [0x1C] + Le16(count)
    case SwdSequences(entries) => [0x1D, |entries|] + WrittenSequences(entries)
    case SwoExtendedStatus(what) => [0x1E, what]
  }

  // Transfers

  function HighFlags(a: Access): nat {
    Bit(a.matchValue) + 2 * (Bit(a.matchMask) + 2 * (2 * Bit(a.stamp)))
  }

  lemma ByteNested(a: Access)
    ensures RequestByte(a) == Bit(a.ap) + 2 * (Bit(a.read) + 2 * (Bit(a.a2) + 2 * (Bit(a.a3) + 2 * HighFlags(a))))
  {
    hide Bit;
  }

  /** Four bits in a row. */
  lemma FlagBits(x: nat, b0: bool, b1: bool, b2: bool, b3: bool, rest: nat)
    requires x == Bit(b0) + 2 * (Bit(b1) + 2 * (Bit(b2) + 2 * (Bit(b3) + 2 * rest)))
    ensures (x % 2 == 1 <==> b0) && (x / 2 % 2 == 1 <==> b1) && (x / 4 % 2 == 1 <==> b2) && (x / 8 % 2 == 1 <==> b3)
    ensures x / 16 == rest
  {
    hide Bit;
    LowBit(x, b0, Bit(b1) + 2 * (Bit(b2) + 2 * (Bit(b3) + 2 * rest)));
    LowBit(x / 2, b1, Bit(b2) + 2 * (Bit(b3) + 2 * rest));
    LowBit(x / 4, b2, Bit(b3) + 2 * rest);
    LowBit(x / 8, b3, rest);
  }

  lemma LowFlags(a: Access)
    ensures var rv := RequestByte(a);
            && IsAp(rv) == a.ap && IsRead(rv) == a.read && HasA2(rv) == a.a2 && HasA3(rv) == a.a3
            && rv / 16 == HighFlags(a)
  {
    hide Bit, RequestByte, HighFlags;
    ByteNested(a);
    FlagBits(RequestByte(a), a.ap, a.read, a.a2, a.a3, HighFlags(a));
  }

  lemma HighFlagBits(rv: u8, matchValue: bool, matchMask: bool, stamp: bool)
    requires rv / 16 == Bit(matchValue) + 2 * (Bit(matchMask) + 2 * (2 * Bit(stamp)))
    ensures HasMatchValue(rv) == matchValue && HasMatchMask(rv) == matchMask && HasTimestamp(rv) == stamp
  {
    var h := rv / 16;
    assert rv / 32 == h / 2 && rv / 128 == h / 8;
  }

  /** Every flag of a request byte is where the host puts it. */
  lemma Flags(a: Access)
    ensures var rv := RequestByte(a);
            && IsAp(rv) == a.ap && IsRead(rv) == a.read && HasA2(rv) == a.a2 && HasA3(rv) == a.a3
            && HasMatchValue(rv) == a.matchValue && HasMatchMask(rv) == a.matchMask && HasTimestamp(rv) == a.stamp
  {
    hide Bit, RequestByte, IsAp, IsRead, HasA2, HasA3, HasMatchValue, HasMatchMask, HasTimestamp;
    LowFlags(a);
    HighFlagBits(RequestByte(a), a.matchValue, a.matchMask, a.stamp);
  }

  lemma LowBit(x: nat, b: bool, rest: nat)
    requires x == Bit(b) + 2 * rest
    ensures (x % 2 == 1 <==> b) && x / 2 == rest
  {
  }

  function ItemOf(a: Access): Item {
    Item(RequestByte(a), a.operand)
  }

  function ItemsOf(accesses: seq<Access>): (items: seq<Item>)
    ensures |items| == |accesses|
    ensures forall i :: 0 <= i < |items| ==> items[i] == ItemOf(accesses[i])
  {
    seq(|accesses|, i requires 0 <= i < |accesses| => ItemOf(accesses[i]))
  }

  lemma HalfWritten(w: u16)
    ensures |Le16(w)| == 2 && FromLe16(Le16(w)) == w
  {
  }

  lemma AccessParsed(a: Access, rest: seq<u8>)
    requires GoodAccess(a)
    ensures var body := WrittenAccess(a) + rest;
            && body != [] && ItemLen(body[0]) == |WrittenAccess(a)|
            && TakeItem(body) == ItemOf(a) && AfterItem(body) == rest
  {
    hide RequestByte, Le32, FromLe32;
    Flags(a);
    var body := WrittenAccess(a) + rest;
    if a.operand.Some? {
      FromLe32Le32(a.operand.value);
      assert body[1..5] == Le32(a.operand.value);
    }
    assert body[|WrittenAccess(a)|..] == rest;
  }

  /** The accesses a host writes are the items that run. */
  lemma {:induction false} AccessesParsed(accesses: seq<Access>)
    requires forall a :: a in accesses ==> GoodAccess(a)
    ensures var body := WrittenAccesses(accesses);
            && ListLen(List.Transfers, body, |accesses|) == Some(|body|)
            && Items(body, |accesses|) == ItemsOf(accesses)
    decreases |accesses|
  {
    hide WrittenAccess, ItemLen, TakeItem, AfterItem;
    if accesses != [] {
      var first, rest := accesses[0], accesses[1..];
      AccessesParsed(rest);
      AccessParsed(first, WrittenAccesses(rest));
      var body := WrittenAccesses(accesses);
      assert body[|WrittenAccess(first)|..] == WrittenAccesses(rest);
      assert ItemsOf(accesses) == [ItemOf(first)] + ItemsOf(rest);
    }
  }

  // Sequences

  /** An info byte: the low six bits are the count, 64 written as 0. */
  lemma InfoBits(bits: nat, high: nat)
    requires 1 <= bits <= 64 && high <= 3
    ensures bits % 64 + 64 * high < 0x100 && SequenceBits(bits % 64 + 64 * high) == bits
    ensures bits % 64 + 64 * high < 0x80 <==> high < 2
  {
    assert (bits % 64 + 64 * high) % 64 == bits % 64;
  }

  lemma SequenceParsed(e: Sequence, rest: seq<u8>)
    requires GoodSequence(e)
    ensures var body := WrittenSequence(e) + rest;
            && body != [] && EntryLen(List.SwdSequences, body[0]) == |WrittenSequence(e)|
            && SequenceBits(body[0]) == e.bits && (body[0] < 0x80 <==> e.Out?)
            && (e.Out? ==> body[1..|WrittenSequence(e)|] == e.data)
            && body[|WrittenSequence(e)|..] == rest
  {
    hide SequenceBits, DivCeil8;
    InfoBits(e.bits, if e.Out? then 0 else 2);
    var body := WrittenSequence(e) + rest;
    if e.Out? {
      DivCeil8Is(e.bits, |e.data|);
      assert body[1..1 + |e.data|] == e.data;
    }
  }

  lemma DivCeil8Is(bits: nat, n: nat)
    requires bits <= 8 * n < bits + 8
    ensures DivCeil8(bits) == n
  {
  }

  /** The sequences a host writes are the ones played. */
  lemma {:induction false} SequencesParsed(entries: seq<Sequence>)
    requires forall e :: e in entries ==> GoodSequence(e)
    ensures var body := WrittenSequences(entries);
            && ListLen(List.SwdSequences, body, |entries|) == Some(|body|)
            && Entries(body, |entries|) == entries
    decreases |entries|
  {
    hide WrittenSequence, EntryLen, SequenceBits, GoodSequence;
    if entries != [] {
      SequencesParsed(entries[1..]);
      SequenceParsed(entries[0], WrittenSequences(entries[1..]));
    }
  }

  lemma JtagParsed(e: JtagSequence, rest: seq<u8>)
    requires GoodJtag(e)
    ensures var body := WrittenJtag(e) + rest;
            && body != [] && EntryLen(List.JtagSequences, body[0]) == |WrittenJtag(e)|
            && body[|WrittenJtag(e)|..] == rest
  {
    hide SequenceBits, DivCeil8;
    InfoBits(e.bits, Bit(e.tms) + 2 * Bit(e.capture));
    DivCeil8Is(e.bits, |e.data|);
  }

  lemma {:induction false} JtagsParsed(entries: seq<JtagSequence>)
    requires forall e :: e in entries ==> GoodJtag(e)
    ensures var body := WrittenJtags(entries);
            ListLen(List.JtagSequences, body, |entries|) == Some(|body|)
    decreases |entries|
  {
    hide WrittenJtag, EntryLen, GoodJtag;
    if entries != [] {
      JtagsParsed(entries[1..]);
      JtagParsed(entries[0], WrittenJtags(entries[1..]));
    }
  }

  // Lengths

  /** The framing ends every request where the host did. */
  lemma WrittenFramed(c: Command)
    requires Good(c)
    ensures FramingOf(Written(c)) == Complete(|Written(c)|)
  {
    hide FramingOf, Good, Written;
    if c.Transfers? || c.SwdSequences? || c.JtagSequences? {
      ListFramed(c);
    } else if c.ReadBlock? || c.WriteBlock? {
      BlockFramed(c);
    } else if IsSwo(c) {
      SwoFramed(c);
    } else {
      PlainFramed(c);
    }
  }

  lemma SwoFramed(c: Command)
    requires IsSwo(c)
    ensures FramingOf(Written(c)) == Complete(|Written(c)|)
  {
    hide Le16, Le32, DivCeil8, ListFraming;
    if c.SwoData? { HalfWritten(c.count); }
  }

  lemma ListFramed(c: Command)
    requires Good(c) && (c.Transfers? || c.SwdSequences? || c.JtagSequences?)
    ensures FramingOf(Written(c)) == Complete(|Written(c)|)
  {
    hide WrittenAccesses, WrittenSequences, WrittenJtags, ListLen, ListEnd;
    var b := Written(c);
    match c
    case Transfers(_, accesses) =>
      AccessesParsed(accesses);
      assert b[3..] == WrittenAccesses(accesses);
      ListEndIsLen(List.Transfers, b, 3, |accesses|);
    case SwdSequences(entries) =>
      SequencesParsed(entries);
      assert b[2..] == WrittenSequences(entries);
      ListEndIsLen(List.SwdSequences, b, 2, |entries|);
    case JtagSequences(scans) =>
      JtagsParsed(scans);
      assert b[2..] == WrittenJtags(scans);
      ListEndIsLen(List.JtagSequences, b, 2, |scans|);
  }

  lemma BlockFramed(c: Command)
    requires Good(c) && (c.ReadBlock? || c.WriteBlock?)
    ensures FramingOf(Written(c)) == Complete(|Written(c)|)
  {
    hide LeBytes, FromLe16, Le16, BlockByte;
    var b := Written(c);
    match c
    case ReadBlock(_, count, ap, a2, a3) =>
      HalfWritten(count);
      BlockFlags(ap, true, a2, a3);
      assert b[2..4] == Le16(count);
    case WriteBlock(_, ap, a2, a3, words) =>
      HalfWritten(|words|);
      BlockFlags(ap, false, a2, a3);
      assert b[2..4] == Le16(|words|);
  }

  lemma PlainFramed(c: Command)
    requires Good(c) && !(c.Transfers? || c.SwdSequences? || c.JtagSequences? || c.ReadBlock? || c.WriteBlock?)
    requires !IsSwo(c)
    ensures FramingOf(Written(c)) == Complete(|Written(c)|)
  {
    hide Le16, Le32, DivCeil8, ListFraming;
    match c
    case SwjSequence(bits, data) => DivCeil8Is(bits, |data|);
    case TransferConfigure(_, waits, matches) =>
      HalfWritten(waits);
      HalfWritten(matches);
    case Delay(us) => HalfWritten(us);
    case _ =>
  }

  lemma BlockFlags(ap: bool, read: bool, a2: bool, a3: bool)
    ensures var rv := BlockByte(ap, read, a2, a3);
            && IsAp(rv) == ap && IsRead(rv) == read && HasA2(rv) == a2 && HasA3(rv) == a3
            && !HasMatchValue(rv) && !HasMatchMask(rv) && !HasTimestamp(rv)
  {
  }

  // What it asks for

  /** What a command is to make the port do, sequences aside. */
  function ActsOf(c: Command): seq<Act> {
    match c
    case HostState(kind, on) => [HostStatus(kind, on)]
    case Connect(port) => if port <= 1 then [Act.Connect] else []
    case Disconnect => [Act.Disconnect]
    case Delay(us) => [Act.Delay(us)]
    case SwjPins(output, mask, wait) => [SetPins(output, mask, if wait <= 3_000_000 then wait else 3_000_000)]
    case SwjClock(hz) => [SetClock(hz)]
    case SwjSequence(bits, data) => [WriteSequence(bits, data)]
    case _ => []
  }

  /** The settings it is to leave. */
  function SettingsOf(c: Command, cfg: Config): Config {
    match c
    case TransferConfigure(idle, waits, matches) => Config(cfg.params.(idleCycles := idle), waits, matches)
    case SwdConfigure(turnaround, dataPhase) => cfg.(params := Params(turnaround, dataPhase, cfg.params.idleCycles))
    case _ => cfg
  }

  /** What it is to be answered after its own byte, the port having done `acts`; `None` is an
      error. Lists and blocks have their own answers. */
  function AnswerOf(dap: Dap.Dap, c: Command, acts: seq<Act>): Option<seq<u8>> {
    match c
    case Info(id) =>
      Some(if id == 0x04 then [|dap.version| % 0x100] + dap.version
           else if id == 0xF0 || id == 0xFE then [1, 1]
           else if id == 0xFD then [4, 0, 0, 0, 0]
           else if id == 0xFF then [2, dap.packetSize % 0x100, dap.packetSize / 0x100]
           else [0])
    case Connect(port) => Some([if port <= 1 then 1 else 0])
    case SwjPins(_, _, _) => Some([dap.port.env.pins(acts)])
    case SwjClock(_) => Some([if dap.port.env.clock(acts) then 0 else 0xFF])
    case HostState(_, _) => Some([0])
    case Disconnect => Some([0])
    case TransferConfigure(_, _, _) => Some([0])
    case WriteAbort(_, _) => Some([0])
    case Delay(_) => Some([0])
    case ResetTarget => Some([0, 0])
    case SwjSequence(_, _) => Some([0])
    case SwdConfigure(_, _) => Some([0])
    case SwoTransport(which) => if which <= 2 then Some([0]) else None
    case SwoBaudrate(_) => Some([0, 0, 0, 0])
    case SwoStatus => Some([0, 0, 0, 0, 0])
    case SwoExtendedStatus(_) => Some([0, 0, 0, 0, 0, 0, 0, 0, 0, 0, 0, 0, 0])
    case SwoData(_) => Some([0, 0, 0])
    case _ => None
  }

  predicate IsListCommand(c: Command) {
    c.Transfers? || c.ReadBlock? || c.WriteBlock? || c.SwdSequences?
  }

  /** What a plain command is taken for: what it makes the port do, the settings it leaves,
      its answer and the attempts it makes. */
  ghost predicate TakenFor(
    dap: Dap.Dap, b: seq<u8>, acts: seq<Act>, cfg: Config, settings: Config, done: seq<Act>, answer: Option<seq<u8>>,
    attempts: seq<Call>)
    requires b != []
  {
    && dap.PortActs(b[0], b[1..]) == acts && dap.Settings(b[0], b[1..], cfg) == settings
    && dap.PlainReply(b[0], b[1..], done) == answer && Dap.Aborts(b[0], b[1..], cfg.params) == attempts
    && !Dap.Dap.IsList(b[0])
  }

  /** A plain command is taken for what it was written for. */
  lemma PlainUnderstood(dap: Dap.Dap, c: Command, cfg: Config, done: seq<Act>)
    requires Good(c) && !IsListCommand(c)
    ensures TakenFor(dap, Written(c), ActsOf(c), cfg, SettingsOf(c, cfg), done, AnswerOf(dap, c, done),
                     if c.WriteAbort? then [Call(0, c.word, cfg.params)] else [])
  {
    hide Written, TakenFor, ActsOf, SettingsOf, AnswerOf;
    if c.SwjSequence? {
      SwjSequenceUnderstood(dap, c, cfg, done);
    } else if c.TransferConfigure? || c.Delay? {
      HalvesUnderstood(dap, c, cfg, done);
    } else if c.SwjPins? || c.SwjClock? || c.WriteAbort? {
      WordsUnderstood(dap, c, cfg, done);
    } else if c.Info? {
      InfoUnderstood(dap, c, cfg, done);
    } else if IsSwo(c) {
      SwoUnderstood(dap, c, cfg, done);
    } else {
      BytesUnderstood(dap, c, cfg, done);
    }
  }

  lemma SwjSequenceUnderstood(dap: Dap.Dap, c: Command, cfg: Config, done: seq<Act>)
    requires Good(c) && c.SwjSequence?
    ensures TakenFor(dap, Written(c), ActsOf(c), cfg, SettingsOf(c, cfg), done, AnswerOf(dap, c, done), [])
  {
    hide DivCeil8;
    var b, n := Written(c), |c.data|;
    DivCeil8Is(c.bits, n);
    assert b[2..2 + n] == c.data;
    assert b[1..][1..1 + n] == b[2..2 + n];
  }

  lemma HalvesUnderstood(dap: Dap.Dap, c: Command, cfg: Config, done: seq<Act>)
    requires Good(c) && (c.TransferConfigure? || c.Delay?)
    ensures TakenFor(dap, Written(c), ActsOf(c), cfg, SettingsOf(c, cfg), done, AnswerOf(dap, c, done), [])
  {
    hide FromLe16, Le16;
    var b := Written(c);
    if c.Delay? {
      HalfWritten(c.us);
      assert b[1..3] == Le16(c.us);
      assert b[1..][..2] == b[1..3];
    } else {
      HalfWritten(c.waits);
      HalfWritten(c.matches);
      assert b[2..4] == Le16(c.waits) && b[4..6] == Le16(c.matches);
      assert b[1..][1..3] == b[2..4] && b[1..][3..5] == b[4..6];
    }
  }

  lemma WordsUnderstood(dap: Dap.Dap, c: Command, cfg: Config, done: seq<Act>)
    requires c.SwjPins? || c.SwjClock? || c.WriteAbort?
    ensures TakenFor(dap, Written(c), ActsOf(c), cfg, SettingsOf(c, cfg), done, AnswerOf(dap, c, done),
                     if c.WriteAbort? then [Call(0, c.word, cfg.params)] else [])
  {
    hide FromLe32, Le32;
    var b := Written(c);
    if c.SwjPins? {
      FromLe32Le32(c.wait);
      assert b[3..7] == Le32(c.wait);
      assert b[1..][2..6] == b[3..7];
    } else if c.SwjClock? {
      FromLe32Le32(c.hz);
      assert b[1..5] == Le32(c.hz);
      assert b[1..][..4] == b[1..5];
    } else {
      FromLe32Le32(c.word);
      assert b[2..6] == Le32(c.word);
      assert b[1..][1..5] == b[2..6];
    }
  }

  lemma InfoUnderstood(dap: Dap.Dap, c: Command, cfg: Config, done: seq<Act>)
    requires c.Info?
    ensures TakenFor(dap, Written(c), ActsOf(c), cfg, SettingsOf(c, cfg), done, AnswerOf(dap, c, done), [])
  {
    HalfBytes(dap.packetSize);
    assert [2] + Le16(dap.packetSize) == [2, dap.packetSize % 0x100, dap.packetSize / 0x100];
  }

  predicate IsSwo(c: Command) {
    || c.SwoTransport? || c.SwoMode? || c.SwoBaudrate? || c.SwoControl? || c.SwoStatus? || c.SwoExtendedStatus?
    || c.SwoData?
  }

  lemma SwoUnderstood(dap: Dap.Dap, c: Command, cfg: Config, done: seq<Act>)
    requires IsSwo(c)
    ensures TakenFor(dap, Written(c), ActsOf(c), cfg, SettingsOf(c, cfg), done, AnswerOf(dap, c, done), [])
  {
    hide Le16, Le32, Dap.Dap.InfoValue;
    assert seq(13, _ => 0) == [0, 0, 0, 0, 0, 0, 0, 0, 0, 0, 0, 0, 0];
  }

  lemma BytesUnderstood(dap: Dap.Dap, c: Command, cfg: Config, done: seq<Act>)
    requires Good(c) && !IsListCommand(c) && !IsSwo(c)
    requires !c.SwjSequence? && !c.TransferConfigure? && !c.Delay? && !c.SwjPins? && !c.SwjClock? && !c.WriteAbort?
    requires !c.Info?
    ensures TakenFor(dap, Written(c), ActsOf(c), cfg, SettingsOf(c, cfg), done, AnswerOf(dap, c, done), [])
  {
    hide FromLe16, FromLe32, Le16, Le32, WrittenJtags, Dap.Dap.InfoValue;
  }

  lemma HalfBytes(w: u16)
    ensures Le16(w) == [w % 0x100, w / 0x100]
  {
  }

  /** The bytes of a block request are the block asked for. */
  lemma BlockUnderstood(dap: Dap.Dap, c: Command, size: nat, calls: seq<Call>)
    requires Good(c) && (c.ReadBlock? || c.WriteBlock?)
    ensures Written(c)[0] == 0x06 && dap.BlockOf(Written(c)[1..], size, calls) == BlockAsked(dap, c, size, calls)
  {
    hide LeBytes, FromLe16, Le16, BlockByte, WordsOf, ReadWords, WriteWords, SeqRetry;
    var b := Written(c);
    var d := b[1..];
    match c
    case ReadBlock(_, count, ap, a2, a3) =>
      HalfWritten(count);
      BlockFlags(ap, true, a2, a3);
      assert b[2..4] == Le16(count);
      assert d[1..3] == b[2..4] && d[3..] == [BlockByte(ap, true, a2, a3)];
    case WriteBlock(_, ap, a2, a3, words) =>
      HalfWritten(|words|);
      BlockFlags(ap, false, a2, a3);
      WordsOfLeBytes(words);
      var body := [BlockByte(ap, false, a2, a3)] + LeBytes(words);
      assert b[2..4] == Le16(|words|);
      assert d[1..3] == b[2..4] && d[3..] == body;
      assert body[1..1 + 4 * |words|] == LeBytes(words);
  }

  /** The block a command asks for; `None` if its reply has no room. */
  ghost function BlockAsked(dap: Dap.Dap, c: Command, size: nat, calls: seq<Call>): Option<Block>
    requires c.ReadBlock? || c.WriteBlock?
    reads dap`params, dap`waitRetries
  {
    var p, retries := dap.params, dap.waitRetries;
    match c
    case ReadBlock(_, count, ap, a2, a3) =>
      if size < 4 + 4 * count then None
      else Some(SeqReadBlock(dap.driver.env, p, retries, BlockByte(ap, true, a2, a3), calls, count))
    case WriteBlock(_, ap, a2, a3, words) =>
      if size < 4 then None
      else Some(SeqWriteBlock(dap.driver.env, p, retries, BlockByte(ap, false, a2, a3), calls, words))
  }

  /** The bytes of a transfer request are the transfers asked for. */
  lemma TransfersUnderstood(dap: Dap.Dap, c: Command, size: nat, calls: seq<Call>, mask: u32)
    requires Good(c) && c.Transfers? && size >= 3
    ensures Written(c)[0] == 0x05
    ensures dap.EndOf(Written(c)[1..], size, calls, mask)
         == Transferred(dap.driver.env, dap.Cfg(), (size - 3) / 4, calls, mask, ItemsOf(c.accesses))
  {
    hide Finish, RunItems, RunBytes, WrittenAccesses, ListLen, Items;
    var d, env, room := Written(c)[1..], dap.driver.env, (size - 3) / 4;
    assert d[2..] == WrittenAccesses(c.accesses);
    AccessesParsed(c.accesses);
    BytesAreItems(env, dap.Cfg(), room, Begin(calls, mask), d[2..], |c.accesses|);
  }

  /** The bytes of an SWD sequence request are the sequences asked for. */
  lemma SequencesUnderstood(dap: Dap.Dap, c: Command, size: nat, acts: seq<Act>)
    requires Good(c) && c.SwdSequences? && size >= 2
    ensures Written(c)[0] == 0x1D
    ensures var r, after := dap.PlayedBy(Written(c)[1..], size, acts), acts + Acts(c.entries);
            var out := AllRead(dap.port.env, |acts|, after);
            && (r.ok <==> |out| <= size - 2)
            && (r.ok ==> r.acts == after && r.out == out)
  {
    hide WrittenSequences, ListLen, Entries, RunSequences, AllRead;
    var d, env := Written(c)[1..], dap.port.env;
    assert d[1..] == WrittenSequences(c.entries);
    SequencesParsed(c.entries);
    NothingRead(env, acts);
    SequencesPlayed(env, size - 2, |acts|, Played(acts, [], true), d[1..], |c.entries|);
  }

  lemma NothingRead(env: PortEnv, acts: seq<Act>)
    ensures AllRead(env, |acts|, acts) == []
  {
  }

  /** A host's command from its bytes to those of the reply. */
  method Ask(dap: Dap.Dap, c: Command, response: array<u8>) returns (n: nat)
    requires Good(c) && ValidParams(dap.params)
    modifies dap, dap.driver, dap.port, response
    ensures ValidParams(dap.params) && n <= response.Length
    ensures n == 0 <==> c.TransferAbort? || response.Length < 2
    ensures n == 0 ==> dap.driver.calls == old(dap.driver.calls) && dap.port.acts == old(dap.port.acts)
                       && dap.Cfg() == old(dap.Cfg())
    ensures n > 0 ==> dap.Cfg() == SettingsOf(c, old(dap.Cfg())) && response[0] == Written(c)[0]
    ensures n > 0 && !IsListCommand(c) ==>
              && dap.port.acts == old(dap.port.acts) + ActsOf(c)
              && dap.driver.calls == old(dap.driver.calls)
                 + (if c.WriteAbort? then [Call(0, c.word, old(dap.params))] else [])
              && var answer := AnswerOf(dap, c, dap.port.acts);
              response[1..n] == if answer.Some? && 1 + |answer.value| <= response.Length then answer.value else [0xFF]
    ensures n > 0 && c.Transfers? && response.Length >= 3 ==>
              var f := old(Transferred(dap.driver.env, dap.Cfg(), (response.Length - 3) / 4, dap.driver.calls,
                                       dap.matchMask, ItemsOf(c.accesses)));
              && dap.driver.calls == f.calls && dap.matchMask == f.mask
              && (if f.phase.Failed? then response[1..n] == [0xFF]
                  else f.count < 0x100 && response[1..n] == [f.count, f.status] + LeBytes(f.out))
    ensures n > 0 && (c.ReadBlock? || c.WriteBlock?) ==>
              var b := old(BlockAsked(dap, c, response.Length, dap.driver.calls));
              if b.None? then dap.driver.calls == old(dap.driver.calls) && response[1..n] == [0xFF]
              else
                && dap.driver.calls == b.value.calls && b.value.count < 0x1_0000
                && response[1..n] == [b.value.count % 0x100, b.value.count / 0x100, b.value.status] + LeBytes(b.value.words)
    ensures n > 0 && c.SwdSequences? ==>
              var after := old(dap.port.acts) + Acts(c.entries);
              var out := AllRead(dap.port.env, |old(dap.port.acts)|, after);
              if |out| <= response.Length - 2 then dap.port.acts == after && response[1..n] == [0] + out
              else response[1..n] == [0xFF]
  {
    hide Written, FramingOf, LeBytes, Le16, Transferred, AllRead, Dap.Dap.PortActs, Dap.Dap.PlainReply, Dap.Dap.Settings,
      Dap.Dap.BlockOf, Dap.Dap.EndOf, Dap.Dap.PlayedBy, Dap.Aborts, ActsOf, SettingsOf, AnswerOf, BlockAsked;
    ghost var cfg := dap.Cfg();
    WrittenFramed(c);
    FirstByte(c);
    if c.Transfers? && response.Length >= 3 {
      TransfersUnderstood(dap, c, response.Length, dap.driver.calls, dap.matchMask);
    } else if c.ReadBlock? || c.WriteBlock? {
      BlockUnderstood(dap, c, response.Length, dap.driver.calls);
    } else if c.SwdSequences? && response.Length >= 2 {
      SequencesUnderstood(dap, c, response.Length, dap.port.acts);
    }
    ghost var used, cut;
    n, used, cut := dap.ProcessCommand(Written(c), response);
    if IsListCommand(c) {
      ListSettings(dap, c, cfg);
    } else {
      PlainUnderstood(dap, c, cfg, dap.port.acts);
    }
    assert n > 0 ==> response[..n] == [response[0]] + response[1..n];
    if n > 0 && (c.ReadBlock? || c.WriteBlock?) && old(BlockAsked(dap, c, response.Length, dap.driver.calls)).Some? {
      BlockHead(response[1..n], old(BlockAsked(dap, c, response.Length, dap.driver.calls)).value);
    }
  }

  lemma BlockHead(reply: seq<u8>, b: Block)
    requires b.count < 0x1_0000 && [0x06] + reply == [0x06] + Le16(b.count) + [b.status] + LeBytes(b.words)
    ensures reply == [b.count % 0x100, b.count / 0x100, b.status] + LeBytes(b.words)
  {
    hide LeBytes;
    HalfBytes(b.count);
    assert ([0x06] + reply)[1..] == reply;
  }

  lemma FirstByte(c: Command)
    requires Good(c)
    ensures Written(c)[0] == TRANSFER_ABORT <==> c.TransferAbort?
    ensures Dap.Dap.IsList(Written(c)[0]) <==> IsListCommand(c)
  {
  }

  lemma ListSettings(dap: Dap.Dap, c: Command, cfg: Config)
    requires Good(c) && IsListCommand(c)
    ensures dap.Settings(Written(c)[0], Written(c)[1..], cfg) == cfg == SettingsOf(c, cfg)
  {
  }
}
