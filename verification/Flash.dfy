/** Flashing ranges over PICOBOOT onto NOR flash: erasing sets every bit of a sector,
    writing only clears bits. */
module Flash {
  import opened Words
  import opened Uf2

  const SECTOR: nat := 4096
  const WRITE_CHUNK: nat := 4096
  const ADDRESSES: nat := 0x1_0000_0000
  const SIGN: nat := 0x8000_0000

  type Memory = nat -> u8

  /** `x & y` on bytes. */
  function And8(x: u8, y: u8): u8 {
    AndBound(x, y);
    BitAnd(x, y)
  }

  lemma {:induction false} AndBound(x: nat, y: nat)
    ensures BitAnd(x, y) <= x
  {
    if x != 0 && y != 0 { AndBound(x / 2, y / 2); }
  }

  lemma {:induction false} AndSame(x: nat)
    ensures BitAnd(x, x) == x
  {
    if x != 0 { AndSame(x / 2); }
  }

  lemma {:induction false} AndOnes(x: nat, k: nat)
    requires x < Pow2(k)
    ensures BitAnd(Pow2(k) - 1, x) == x
  {
    if k > 0 && x != 0 {
      assert (Pow2(k) - 1) / 2 == Pow2(k - 1) - 1;
      AndOnes(x / 2, k - 1);
    }
  }

  /** Writing an erased byte stores it, and writing it again changes nothing. */
  lemma WriteOnce(v: u8)
    ensures And8(0xFF, v) == v && And8(v, v) == v
  {
    AndSame(v);
    assert Pow2(8) == 0x100;
    AndOnes(v, 8);
  }

  // Sectors

  function SectorOf(a: nat): nat {
    a - a % SECTOR
  }

  /** `addr & ~(SECTOR - 1)`: the operator works on signed 32-bit integers. */
  function AlignDown(addr: nat): int {
    var low := SectorOf(addr % ADDRESSES);
    if low < SIGN then low else low - ADDRESSES
  }

  /** The start of the sector of `addr`, as the signed 32-bit number whose low 32 bits it is. */
  lemma AlignsSigned(addr: nat)
    requires addr < 0x1_0000_0000
    ensures var s := AlignDown(addr);
            && s % 4096 == 0 && 0 <= s + 0x8000_0000 < 0x1_0000_0000
            && (if addr < 0x8000_0000 then 0 <= addr - s < 4096 else 0 <= addr - s - 0x1_0000_0000 < 4096)
  {
  }

  /** The loop over a range's sectors visits `s`. */
  predicate Visits(r: Range, s: int) {
    AlignDown(r.addr) <= s < End(r) && s % SECTOR == 0
  }

  predicate VisitsAny(ranges: seq<Range>, s: int) {
    exists r :: r in ranges && Visits(r, s)
  }

  /** Erasing sector `s` reaches address `a`; the command carries 32 bits of `s`. */
  predicate Erases(s: int, a: nat) {
    s % ADDRESSES <= a < s % ADDRESSES + SECTOR
  }

  ghost predicate Erased(ranges: seq<Range>, a: nat) {
    exists s: int :: VisitsAny(ranges, s) && Erases(s, a)
  }

  /** The sector of `a` begins before the range ends, and does not end before it begins. */
  predicate Touches(r: Range, a: nat) {
    SectorOf(r.addr) <= SectorOf(a) < End(r)
  }

  predicate TouchesAny(ranges: seq<Range>, a: nat) {
    exists r :: r in ranges && Touches(r, a)
  }

  predicate Addressable(r: Range) {
    End(r) <= ADDRESSES
  }

  lemma SectorUnique(a: nat, s: int)
    requires s % SECTOR == 0 && s <= a < s + SECTOR
    ensures SectorOf(a) == s
  {
  }

  lemma SectorsAscend(a: nat, b: nat)
    requires a <= b
    ensures SectorOf(a) <= SectorOf(b)
  {
    assert a == SECTOR * (a / SECTOR) + a % SECTOR && b == SECTOR * (b / SECTOR) + b % SECTOR;
    assert a / SECTOR <= b / SECTOR;
  }

  /** The sectors touched are those that hold a byte of the range, and, for an empty range
      that does not begin a sector, the one it points into. */
  lemma TouchesMeans(r: Range, a: nat)
    ensures Touches(r, a) <==>
            || (exists b: nat :: r.addr <= b < End(r) && b / 4096 == a / 4096)
            || (r.data == [] && r.addr % 4096 != 0 && r.addr / 4096 == a / 4096)
  {
    hide SectorOf;
    SameSectors(r.addr, a);
    SectorHolds(a);
    SectorHolds(r.addr);
    var s := SectorOf(a);
    if Touches(r, a) {
      var b := if r.addr < s then s else r.addr;
      if b == s { SectorUnique(b, s); } else { SectorsAscend(s, b); SectorUnique(s, s); }
      assert SectorOf(b) == s;
      SameSectors(b, a);
      assert b < End(r) ==> r.addr <= b && b / 4096 == a / 4096;
      if b >= End(r) { Unaligned(r.addr); }
    }
    if b: nat :| r.addr <= b < End(r) && b / 4096 == a / 4096 {
      SameSectors(b, a);
      SectorsAscend(r.addr, b);
    }
    if r.addr % 4096 != 0 { Unaligned(r.addr); }
  }

  lemma Unaligned(a: nat)
    ensures SectorOf(a) == a <==> a % 4096 == 0
  {
  }

  lemma SameSectors(a: nat, b: nat)
    ensures SectorOf(a) == SectorOf(b) <==> a / 4096 == b / 4096
  {
    assert a == 4096 * (a / 4096) + a % 4096 && b == 4096 * (b / 4096) + b % 4096;
  }

  /** Exactly the sectors the ranges touch are erased, as long as every range begins in the
      lower half of the address space. */
  lemma LowRangesErased(ranges: seq<Range>, a: nat)
    requires forall r :: r in ranges ==> r.addr < 0x8000_0000 && Addressable(r)
    ensures Erased(ranges, a) <==> TouchesAny(ranges, a)
  {
    hide SectorOf, AlignDown;
    if Erased(ranges, a) {
      var s: int :| VisitsAny(ranges, s) && Erases(s, a);
      var r :| r in ranges && Visits(r, s);
      LowAlign(r);
      SectorUnique(a, s);
      assert Touches(r, a) && TouchesAny(ranges, a);
    }
    if TouchesAny(ranges, a) {
      var r :| r in ranges && Touches(r, a);
      LowAlign(r);
      SectorHolds(a);
      assert Visits(r, SectorOf(a));
      assert VisitsAny(ranges, SectorOf(a)) && Erases(SectorOf(a), a);
    }
  }

  lemma LowAlign(r: Range)
    requires r.addr < SIGN
    ensures AlignDown(r.addr) == SectorOf(r.addr)
  {
  }

  lemma SectorHolds(a: nat)
    ensures SectorOf(a) % SECTOR == 0 && SectorOf(a) <= a < SectorOf(a) + SECTOR
  {
  }

  /** A range in the upper half has the whole address space erased. */
  lemma HighRangeErasesAll(ranges: seq<Range>, r: Range, a: nat)
    requires r in ranges && 0x8000_0000 <= r.addr < 0x1_0000_0000 && a < 0x1_0000_0000
    ensures Erased(ranges, a)
  {
    var low := SectorOf(a);
    assert low % SECTOR == 0 && SectorOf(r.addr) % SECTOR == 0;
    var s: int := if low < SectorOf(r.addr) then low else low - ADDRESSES;
    if low >= SectorOf(r.addr) {
      assert s % SECTOR == 0 && s % ADDRESSES == low;
    }
    assert Visits(r, s);
    assert VisitsAny(ranges, s) && Erases(s, a);
  }

  /** Exactly the touched sectors are erased if and only if every range begins in the lower
      half of the address space, or the ranges touch all of it anyway. */
  lemma ErasedExactly(ranges: seq<Range>)
    requires forall r :: r in ranges ==> Addressable(r) && r.addr < 0x1_0000_0000
    ensures (forall a: nat :: a < 0x1_0000_0000 ==> (Erased(ranges, a) <==> TouchesAny(ranges, a)))
            <==> (forall r :: r in ranges ==> r.addr < 0x8000_0000)
                 || (forall a: nat :: a < 0x1_0000_0000 ==> TouchesAny(ranges, a))
  {
    hide Erased, TouchesAny, Addressable;
    if forall r :: r in ranges ==> r.addr < 0x8000_0000 {
      forall a: nat | a < ADDRESSES ensures Erased(ranges, a) <==> TouchesAny(ranges, a) {
        LowRangesErased(ranges, a);
      }
    } else {
      var high :| high in ranges && high.addr >= SIGN;
      forall a: nat | a < ADDRESSES ensures Erased(ranges, a) { HighRangeErasesAll(ranges, high, a); }
    }
  }

  /** No range with sectors to visit ends past the first sector of a range in the upper half,
      which therefore is itself empty and begins a sector. */
  predicate OncePerSector(ranges: seq<Range>) {
    forall h, r :: h in ranges && r in ranges && SIGN <= h.addr < ADDRESSES && AlignDown(r.addr) < End(r) ==>
                     End(r) <= SectorOf(h.addr)
  }

  /** A range in the upper half that holds anything has its first sector visited twice, at two
      signed addresses. */
  lemma HighVisitsTwice(ranges: seq<Range>, r: Range)
    requires r in ranges && 0x8000_0000 <= r.addr < 0x1_0000_0000 && r.data != []
    ensures AlignDown(r.addr) == SectorOf(r.addr) - 0x1_0000_0000
    ensures Visits(r, AlignDown(r.addr)) && Visits(r, SectorOf(r.addr)) && !OncePerSector(ranges)
  {
  }

  // Writing

  predicate In(r: Range, a: nat) {
    r.addr <= a < End(r)
  }

  function ByteAt(r: Range, a: nat): u8
    requires In(r, a)
  {
    r.data[a - r.addr]
  }

  /** What address `a` holds once the ranges are written over `was`. */
  function Programmed(was: u8, ranges: seq<Range>, a: nat): u8 {
    if ranges == [] then was
    else
      var r := ranges[|ranges| - 1];
      var v := Programmed(was, ranges[..|ranges| - 1], a);
      if In(r, a) then And8(v, ByteAt(r, a)) else v
  }

  /** Ranges that share an address agree on its byte. */
  ghost predicate Agree(ranges: seq<Range>) {
    forall r, s, a: nat {:trigger In(r, a), In(s, a)} ::
      r in ranges && s in ranges && In(r, a) && In(s, a) ==> ByteAt(r, a) == ByteAt(s, a)
  }

  ghost predicate Stored(mem: Memory, ranges: seq<Range>) {
    forall r, a: nat {:trigger In(r, a)} :: r in ranges && In(r, a) ==> mem(a) == ByteAt(r, a)
  }

  lemma {:induction false} ProgrammedOutside(was: u8, ranges: seq<Range>, a: nat)
    requires forall r :: r in ranges ==> !In(r, a)
    ensures Programmed(was, ranges, a) == was
  {
    if ranges != [] { ProgrammedOutside(was, ranges[..|ranges| - 1], a); }
  }

  lemma {:induction false} ProgrammedInside(ranges: seq<Range>, a: nat, v: u8)
    requires forall r :: r in ranges && In(r, a) ==> ByteAt(r, a) == v
    ensures Programmed(0xFF, ranges, a) == if exists r :: r in ranges && In(r, a) then v else 0xFF
  {
    if ranges != [] {
      var n := |ranges| - 1;
      ProgrammedInside(ranges[..n], a, v);
      WriteOnce(v);
      assert ranges == ranges[..n] + [ranges[n]];
    }
  }

  // The device

  datatype Op = Erase(s: int) | Write(addr: nat, n: nat) | Read(addr: nat, n: nat)

  class Nor {
    var mem: Memory
    ghost var log: seq<Op>

    constructor (mem: Memory)
      ensures this.mem == mem && log == []
    {
      this.mem, log := mem, [];
    }

    method EraseSector(s: int)
      modifies this
      ensures log == old(log) + [Erase(s)]
      ensures forall a: nat :: mem(a) == if Erases(s, a) then 0xFF else old(mem)(a)
    {
      var was := mem;
      mem := (a: nat) => if Erases(s, a) then 0xFF else was(a);
      log := log + [Erase(s)];
    }

    method WriteBytes(addr: nat, bytes: seq<u8>)
      modifies this
      ensures log == old(log) + [Write(addr, |bytes|)]
      ensures forall a: nat ::
                mem(a) == if addr <= a < addr + |bytes| then And8(old(mem)(a), bytes[a - addr]) else old(mem)(a)
    {
      var was := mem;
      mem := (a: nat) => if addr <= a < addr + |bytes| then And8(was(a), bytes[a - addr]) else was(a);
      log := log + [Write(addr, |bytes|)];
    }

    method ReadBytes(addr: nat, n: nat) returns (bytes: seq<u8>)
      modifies this`log
      ensures log == old(log) + [Read(addr, n)]
      ensures |bytes| == n && forall i :: 0 <= i < n ==> bytes[i] == mem(addr + i)
    {
      var m := mem;
      bytes := seq<u8>(n, (i: nat) requires i < n => m(addr + i));
      log := log + [Read(addr, n)];
    }
  }

  /** Erases come first, in ascending order. */
  predicate ErasesFirst(log: seq<Op>) {
    forall i, j :: 0 <= i < j < |log| && log[j].Erase? ==> log[i].Erase? && log[i].s < log[j].s
  }

  /** No sector is erased twice: the command carries 32 bits of its address. */
  predicate ErasesOnce(log: seq<Op>) {
    forall i, j :: 0 <= i < j < |log| && log[i].Erase? && log[j].Erase? ==> log[i].s % ADDRESSES != log[j].s % ADDRESSES
  }

  function EraseOps(sectors: seq<int>): (ops: seq<Op>)
    ensures |ops| == |sectors| && forall i :: 0 <= i < |ops| ==> ops[i] == Erase(sectors[i])
  {
    seq(|sectors|, i requires 0 <= i < |sectors| => Erase(sectors[i]))
  }

  /** Writes and reads only, of at most 4096 bytes each. */
  predicate NoErase(log: seq<Op>) {
    forall op :: op in log ==> !op.Erase? && op.n <= 4096
  }

  predicate Increasing(s: seq<int>) {
    forall i, j :: 0 <= i < j < |s| ==> s[i] < s[j]
  }

  /** Add to an ascending list without duplicates. */
  function Add(s: seq<int>, a: int): (r: seq<int>)
    requires Increasing(s)
    ensures Increasing(r) && forall x :: x in r <==> x in s || x == a
  {
    if s == [] then [a]
    else if a < s[0] then [a] + s
    else if a == s[0] then s
    else
      var rest := Add(s[1..], a);
      assert forall k :: 0 <= k < |rest| ==> rest[k] in rest;
      assert s == [s[0]] + s[1..];
      [s[0]] + rest
  }

  /** The set of sectors the ranges touch, sorted. */
  method SectorsOf(ranges: seq<Range>) returns (sectors: seq<int>)
    ensures Increasing(sectors) && forall s :: s in sectors <==> VisitsAny(ranges, s)
  {
    sectors := [];
    var i := 0;
    while i < |ranges|
      invariant 0 <= i <= |ranges| && Increasing(sectors)
      invariant forall s :: s in sectors <==> VisitsAny(ranges[..i], s)
    {
      var r := ranges[i];
      ghost var before := sectors;
      var a := AlignDown(r.addr);
      while a < End(r)
        invariant AlignDown(r.addr) <= a && a % SECTOR == 0 && Increasing(sectors)
        invariant forall s :: s in sectors <==> s in before || (Visits(r, s) && s < a)
        decreases End(r) - a
      {
        sectors := Add(sectors, a);
        a := a + SECTOR;
      }
      assert ranges[..i + 1] == ranges[..i] + [r];
      i := i + 1;
    }
    assert ranges[..i] == ranges;
  }

  method EraseAll(dev: Nor, sectors: seq<int>)
    modifies dev
    ensures dev.log == old(dev.log) + EraseOps(sectors)
    ensures forall a: nat ::
              dev.mem(a) == if exists s :: s in sectors && Erases(s, a) then 0xFF else old(dev.mem)(a)
  {
    hide Erases;
    var i := 0;
    while i < |sectors|
      invariant 0 <= i <= |sectors|
      invariant dev.log == old(dev.log) + EraseOps(sectors[..i])
      invariant forall a: nat ::
                  dev.mem(a) == if exists s :: s in sectors[..i] && Erases(s, a) then 0xFF else old(dev.mem)(a)
    {
      dev.EraseSector(sectors[i]);
      assert sectors[..i + 1] == sectors[..i] + [sectors[i]];
      assert EraseOps(sectors[..i + 1]) == EraseOps(sectors[..i]) + [Erase(sectors[i])];
      i := i + 1;
    }
    assert sectors[..i] == sectors;
  }

  /** One range, chunk by chunk. */
  method WriteRange(dev: Nor, r: Range) returns (ghost ops: seq<Op>)
    modifies dev
    ensures dev.log == old(dev.log) + ops && NoErase(ops)
    ensures forall a: nat ::
              dev.mem(a) == if In(r, a) then And8(old(dev.mem)(a), ByteAt(r, a)) else old(dev.mem)(a)
  {
    var off := 0;
    ops := [];
    while off < |r.data|
      invariant 0 <= off <= |r.data|
      invariant dev.log == old(dev.log) + ops && NoErase(ops)
      invariant forall a: nat ::
                  dev.mem(a) == if r.addr <= a < r.addr + off then And8(old(dev.mem)(a), ByteAt(r, a))
                                else old(dev.mem)(a)
    {
      var n := if |r.data| - off < WRITE_CHUNK then |r.data| - off else WRITE_CHUNK;
      dev.WriteBytes(r.addr + off, r.data[off..off + n]);
      ops := ops + [Write(r.addr + off, n)];
      off := off + n;
    }
  }

  method WriteAll(dev: Nor, ranges: seq<Range>) returns (ghost ops: seq<Op>)
    modifies dev
    ensures dev.log == old(dev.log) + ops && NoErase(ops)
    ensures forall a: nat :: dev.mem(a) == Programmed(old(dev.mem)(a), ranges, a)
  {
    hide And8;
    var i := 0;
    ops := [];
    while i < |ranges|
      invariant 0 <= i <= |ranges|
      invariant dev.log == old(dev.log) + ops && NoErase(ops)
      invariant forall a: nat :: dev.mem(a) == Programmed(old(dev.mem)(a), ranges[..i], a)
    {
      assert ranges[..i + 1][..i] == ranges[..i];
      ghost var more := WriteRange(dev, ranges[i]);
      ops := ops + more;
      i := i + 1;
    }
    assert ranges[..i] == ranges;
  }

  /** Read one range back; whether it holds what was written. */
  method VerifyRange(dev: Nor, r: Range) returns (ok: bool, ghost ops: seq<Op>)
    modifies dev`log
    ensures dev.log == old(dev.log) + ops && NoErase(ops)
    ensures ok <==> forall a: nat :: In(r, a) ==> dev.mem(a) == ByteAt(r, a)
  {
    var off := 0;
    ops := [];
    while off < |r.data|
      invariant 0 <= off <= |r.data|
      invariant dev.log == old(dev.log) + ops && NoErase(ops)
      invariant forall a: nat :: r.addr <= a < r.addr + off ==> dev.mem(a) == ByteAt(r, a)
    {
      var n := if |r.data| - off < WRITE_CHUNK then |r.data| - off else WRITE_CHUNK;
      var back := dev.ReadBytes(r.addr + off, n);
      ops := ops + [Read(r.addr + off, n)];
      assert NoErase(ops);
      var i := 0;
      while i < n
        invariant 0 <= i <= n
        invariant forall a: nat :: r.addr <= a < r.addr + off + i ==> dev.mem(a) == ByteAt(r, a)
      {
        if back[i] != r.data[off + i] {
          assert In(r, r.addr + off + i);
          ok := false;
          return;
        }
        i := i + 1;
      }
      off := off + n;
    }
    ok := true;
  }

  method VerifyAll(dev: Nor, ranges: seq<Range>) returns (ok: bool, ghost ops: seq<Op>)
    modifies dev`log
    ensures dev.log == old(dev.log) + ops && NoErase(ops)
    ensures ok <==> Stored(dev.mem, ranges)
  {
    var i := 0;
    ops := [];
    while i < |ranges|
      invariant 0 <= i <= |ranges|
      invariant dev.log == old(dev.log) + ops && NoErase(ops)
      invariant Stored(dev.mem, ranges[..i])
    {
      assert ranges[..i + 1] == ranges[..i] + [ranges[i]];
      ghost var more;
      ok, more := VerifyRange(dev, ranges[i]);
      ops := ops + more;
      if !ok {
        return;
      }
      i := i + 1;
    }
    assert ranges[..i] == ranges;
    ok := true;
  }

  /** `flashRanges`, up to the reboot; false when verification fails. `ops` is what it has
      the device do. */
  method FlashRanges(dev: Nor, ranges: seq<Range>) returns (ok: bool, ghost ops: seq<Op>)
    requires forall r :: r in ranges ==> Addressable(r)
    modifies dev
    ensures dev.log == old(dev.log) + ops && ErasesFirst(ops)
    ensures forall op :: op in ops && !op.Erase? ==> op.n <= 4096
    ensures ErasesOnce(ops) <==> OncePerSector(ranges)
    ensures forall a: nat ::
              dev.mem(a) == Programmed(if Erased(ranges, a) then 0xFF else old(dev.mem)(a), ranges, a)
    ensures ok <==> Stored(dev.mem, ranges)
  {
    hide Programmed, Erases, VisitsAny, Stored, Addressable;
    var sectors := SectorsOf(ranges);
    EraseAll(dev, sectors);
    ghost var erased := dev.mem;
    assert forall a: nat :: erased(a) == if Erased(ranges, a) then 0xFF else old(dev.mem)(a);
    ghost var writes := WriteAll(dev, ranges);
    ghost var checks;
    ok, checks := VerifyAll(dev, ranges);
    ops := EraseOps(sectors) + writes + checks;
    EraseThenNone(sectors, writes, checks);
    SectorsOnce(ranges, sectors, writes + checks);
    assert EraseOps(sectors) + writes + checks == EraseOps(sectors) + (writes + checks);
  }

  lemma EraseThenNone(sectors: seq<int>, writes: seq<Op>, checks: seq<Op>)
    requires Increasing(sectors) && NoErase(writes) && NoErase(checks)
    ensures ErasesFirst(EraseOps(sectors) + writes + checks) && NoErase(writes + checks)
    ensures forall op :: op in EraseOps(sectors) + writes + checks && !op.Erase? ==> op.n <= 4096
  {
    var log := EraseOps(sectors) + writes + checks;
    forall j | 0 <= j < |log| && log[j].Erase? ensures j < |sectors| {
      assert log[j] in writes || log[j] in checks || j < |sectors|;
    }
  }

  /** When a sector is erased once only. */
  lemma SectorsOnce(ranges: seq<Range>, sectors: seq<int>, rest: seq<Op>)
    requires Increasing(sectors) && NoErase(rest) && forall r :: r in ranges ==> Addressable(r)
    requires forall s :: s in sectors <==> VisitsAny(ranges, s)
    ensures ErasesOnce(EraseOps(sectors) + rest) <==> OncePerSector(ranges)
  {
    hide VisitsAny, Visits, SectorOf, OncePerSector;
    var log := EraseOps(sectors) + rest;
    forall j | 0 <= j < |log| && log[j].Erase? ensures j < |sectors| {
      assert log[j] in rest || j < |sectors|;
    }
    if OncePerSector(ranges) {
      forall i, j | 0 <= i < j < |sectors| ensures sectors[i] % ADDRESSES != sectors[j] % ADDRESSES {
        assert sectors[i] in sectors && sectors[j] in sectors;
        NeverTwice(ranges, sectors[i], sectors[j]);
      }
    } else {
      var s := VisitedTwice(ranges);
      assert s in sectors && s - ADDRESSES in sectors;
      var i :| 0 <= i < |sectors| && sectors[i] == s - ADDRESSES;
      var j :| 0 <= j < |sectors| && sectors[j] == s;
      assert log[i] == Erase(s - ADDRESSES) && log[j] == Erase(s);
    }
  }

  lemma VisitBounds(r: Range, s: int)
    requires Visits(r, s) && Addressable(r)
    ensures 0 <= s + SIGN && s < ADDRESSES
    ensures s < 0 ==> SIGN <= r.addr < ADDRESSES && SectorOf(r.addr) <= s + ADDRESSES
  {
  }

  lemma SameSector(s: int, t: int)
    requires 0 <= s + SIGN && s < t < ADDRESSES && s % ADDRESSES == t % ADDRESSES
    ensures s == t - ADDRESSES
  {
  }

  lemma NeverTwice(ranges: seq<Range>, s: int, t: int)
    requires OncePerSector(ranges) && forall r :: r in ranges ==> Addressable(r)
    requires VisitsAny(ranges, s) && VisitsAny(ranges, t) && s < t
    ensures s % ADDRESSES != t % ADDRESSES
  {
    hide SectorOf, AlignDown, Addressable;
    var h :| h in ranges && Visits(h, s);
    var r :| r in ranges && Visits(r, t);
    VisitBounds(h, s);
    VisitBounds(r, t);
    if s % ADDRESSES == t % ADDRESSES {
      SameSector(s, t);
    }
  }

  lemma HighAlign(r: Range)
    requires SIGN <= r.addr < ADDRESSES
    ensures AlignDown(r.addr) == SectorOf(r.addr) - ADDRESSES && SectorOf(r.addr) % SECTOR == 0
  {
  }

  lemma AlignedDown(r: Range)
    ensures AlignDown(r.addr) % SECTOR == 0
  {
  }

  lemma VisitedTwice(ranges: seq<Range>) returns (s: int)
    requires !OncePerSector(ranges) && forall r :: r in ranges ==> Addressable(r)
    ensures VisitsAny(ranges, s) && VisitsAny(ranges, s - ADDRESSES)
  {
    var h, r :| h in ranges && r in ranges && SIGN <= h.addr < ADDRESSES && AlignDown(r.addr) < End(r)
                && SectorOf(h.addr) < End(r);
    hide SectorOf, AlignDown;
    HighAlign(h);
    AlignedDown(r);
    s := if AlignDown(r.addr) < SectorOf(h.addr) then SectorOf(h.addr) else AlignDown(r.addr);
    assert Visits(r, s) && Visits(h, s - ADDRESSES);
  }

  /** Every byte of a range is erased before it is written, wherever the range begins. */
  lemma RangesErased(ranges: seq<Range>, r: Range, a: nat)
    requires r in ranges && In(r, a) && Addressable(r)
    ensures Erased(ranges, a)
  {
    if r.addr < SIGN {
      LowAlign(r);
      SectorHolds(a);
      SectorsAscend(r.addr, a);
      assert Visits(r, SectorOf(a)) && VisitsAny(ranges, SectorOf(a)) && Erases(SectorOf(a), a);
    } else {
      HighRangeErasesAll(ranges, r, a);
    }
  }

  /** What flashing leaves behind: verification succeeds exactly when ranges that overlap
      agree; every byte not erased is as it was, and one erased that lies in no range is
      0xFF. From the lower half of the address space the erased bytes are those of the
      sectors touched. */
  lemma FlashedExactly(before: Memory, mem: Memory, ranges: seq<Range>)
    requires forall r :: r in ranges ==> Addressable(r)
    requires forall a: nat :: mem(a) == Programmed(if Erased(ranges, a) then 0xFF else before(a), ranges, a)
    ensures Stored(mem, ranges) <==> Agree(ranges)
    ensures forall a: nat :: !Erased(ranges, a) ==> mem(a) == before(a)
    ensures forall a: nat :: Erased(ranges, a) && (forall r :: r in ranges ==> !In(r, a)) ==> mem(a) == 0xFF
    ensures (forall r :: r in ranges ==> r.addr < 0x8000_0000) ==>
              forall a: nat :: Erased(ranges, a) <==> TouchesAny(ranges, a)
  {
    hide TouchesAny, Erased, Programmed, Addressable;
    forall a: nat
      ensures forall r :: r in ranges && In(r, a) ==> Erased(ranges, a)
      ensures (forall r :: r in ranges ==> !In(r, a)) ==> mem(a) == if Erased(ranges, a) then 0xFF else before(a)
    {
      forall r | r in ranges && In(r, a) ensures Erased(ranges, a) { RangesErased(ranges, r, a); }
      if forall r :: r in ranges ==> !In(r, a) {
        ProgrammedOutside(if Erased(ranges, a) then 0xFF else before(a), ranges, a);
      }
    }
    if forall r :: r in ranges ==> r.addr < 0x8000_0000 {
      forall a: nat ensures Erased(ranges, a) <==> TouchesAny(ranges, a) { LowRangesErased(ranges, a); }
    }
    if Agree(ranges) {
      forall r, a: nat | r in ranges && In(r, a) ensures mem(a) == ByteAt(r, a) {
        ProgrammedInside(ranges, a, ByteAt(r, a));
      }
    }
  }

  /** Coalesced ranges never overlap, so flashing them never fails. */
  lemma SeparatedAgree(ranges: seq<Range>)
    requires Separated(ranges)
    ensures Agree(ranges)
  {
    forall r, s, a: nat | r in ranges && s in ranges && In(r, a) && In(s, a) ensures r == s {
      var i :| 0 <= i < |ranges| && ranges[i] == r;
      var j :| 0 <= j < |ranges| && ranges[j] == s;
      assert i == j;
    }
  }

  /** Once verified, every byte of every block lies at its address. */
  lemma BlocksFlashed(mem: Memory, blocks: seq<Block>, a: nat, v: u8)
    requires Stored(mem, JoinAll(SortBlocks(blocks))) && BlocksHold(blocks, a, v)
    ensures mem(a) == v
  {
    hide JoinAll, SortBlocks, BlocksHold;
    var ranges := JoinAll(SortBlocks(blocks));
    CoalesceConserves(blocks, a, v);
    var r :| r in ranges && At(r, a, v);
    assert In(r, a);
  }

  lemma {:induction false} JoinedAddressable(blocks: seq<Block>)
    requires forall b :: b in blocks ==> Addressable(RangeOf(b))
    ensures forall r :: r in JoinAll(blocks) ==> Addressable(r)
  {
    if blocks != [] {
      var n := |blocks| - 1;
      JoinedAddressable(blocks[..n]);
      assert blocks[n] in blocks;
    }
  }

  /** The blocks of a file, coalesced and flashed: disjoint ones always verify, and then
      every byte of every block lies at its address. */
  method FlashBlocks(dev: Nor, blocks: seq<Block>) returns (ok: bool)
    requires forall b :: b in blocks ==> Addressable(RangeOf(b))
    modifies dev
    ensures Disjoint(blocks) ==> ok
    ensures ok ==> forall a, v: u8 :: BlocksHold(blocks, a, v) ==> dev.mem(a) == v
  {
    hide JoinAll, SortBlocks, Addressable, Erased, Programmed, Disjoint, BlocksHold, Stored, Agree;
    var ranges := Coalesce(blocks);
    SameBlocks(blocks);
    JoinedAddressable(SortBlocks(blocks));
    ghost var before := dev.mem;
    ghost var ops;
    ok, ops := FlashRanges(dev, ranges);
    FlashedExactly(before, dev.mem, ranges);
    if Disjoint(blocks) {
      CoalesceSeparates(blocks);
      SeparatedAgree(ranges);
    }
    if ok {
      forall a, v: u8 | BlocksHold(blocks, a, v) ensures dev.mem(a) == v { BlocksFlashed(dev.mem, blocks, a, v); }
    }
  }

  lemma SameBlocks(blocks: seq<Block>)
    ensures forall b :: b in SortBlocks(blocks) <==> b in blocks
  {
    hide SortBlocks;
    assert forall b :: b in SortBlocks(blocks) <==> b in multiset(SortBlocks(blocks));
    assert forall b :: b in blocks <==> b in multiset(blocks);
  }
}
