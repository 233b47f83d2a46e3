/** UF2 files: split into blocks, filtered by family, and coalesced into ranges. */
module Uf2 {
  import opened Words

  const BLOCK: nat := 512
  const MAX_PAYLOAD: nat := 476
  const MAGIC0: u32 := 0x0a324655
  const MAGIC1: u32 := 0x9e5d5157
  const MAGIC_END: u32 := 0x0ab16f30

  datatype Block = Block(targetAddr: u32, payload: seq<u8>, familyId: Option<u32>)

  /** Contiguous bytes at an address. */
  datatype Range = Range(addr: nat, data: seq<u8>)

  /** `parse`'s outcome, or the offset of the block it fails on. */
  datatype Parsed = Blocks(blocks: seq<Block>) | BadLength | BadMagic(offset: nat) | BadPayload(offset: nat)

  function Word(b: seq<u8>, at: nat): u32
    requires at + 4 <= |b|
  {
    FromLe32(b[at..at + 4])
  }

  predicate HasMagic(b: seq<u8>)
    requires |b| == BLOCK
  {
    Word(b, 0) == MAGIC0 && Word(b, 4) == MAGIC1 && Word(b, 508) == MAGIC_END
  }

  predicate NotMainFlash(b: seq<u8>)
    requires |b| == BLOCK
  {
    Word(b, 8) % 2 == 1
  }

  function BlockOf(b: seq<u8>): Block
    requires |b| == BLOCK && Word(b, 16) <= MAX_PAYLOAD
  {
    Block(Word(b, 12), b[32..32 + Word(b, 16)], if Word(b, 8) / 0x2000 % 2 == 1 then Some(Word(b, 28)) else None)
  }

  /** The blocks of the rest of a file from `offset` on, or the first failure. */
  function ParseFrom(rest: seq<u8>, offset: nat): Parsed {
    if |rest| < BLOCK then Blocks([])
    else
      var b := rest[..BLOCK];
      if !HasMagic(b) then BadMagic(offset)
      else if !NotMainFlash(b) && Word(b, 16) > MAX_PAYLOAD then BadPayload(offset)
      else
        var more := ParseFrom(rest[BLOCK..], offset + BLOCK);
        if more.Blocks? && !NotMainFlash(b) then Blocks([BlockOf(b)] + more.blocks) else more
  }

  function Parse(file: seq<u8>): Parsed {
    if |file| % BLOCK != 0 then BadLength else ParseFrom(file, 0)
  }

  /** `parseUf2`. */
  method ParseUf2(file: seq<u8>) returns (r: Parsed)
    ensures r == Parse(file)
  {
    hide Word, HasMagic, NotMainFlash;
    if |file| % BLOCK != 0 {
      return BadLength;
    }
    var blocks: seq<Block>, offset := [], 0;
    assert file[0..] == file;
    while offset < |file|
      invariant 0 <= offset <= |file| && (|file| - offset) % BLOCK == 0
      invariant var more := ParseFrom(file[offset..], offset);
                ParseFrom(file, 0) == if more.Blocks? then Blocks(blocks + more.blocks) else more
    {
      var b := file[offset..offset + BLOCK];
      assert file[offset..][..BLOCK] == b && file[offset..][BLOCK..] == file[offset + BLOCK..];
      if !HasMagic(b) {
        return BadMagic(offset);
      }
      if !NotMainFlash(b) {
        if Word(b, 16) > MAX_PAYLOAD {
          return BadPayload(offset);
        }
        ghost var more := ParseFrom(file[offset + BLOCK..], offset + BLOCK);
        assert more.Blocks? ==> blocks + ([BlockOf(b)] + more.blocks) == (blocks + [BlockOf(b)]) + more.blocks;
        blocks := blocks + [BlockOf(b)];
      }
      offset := offset + BLOCK;
    }
    return Blocks(blocks);
  }

  // Files as they are written

  /** A block as it stands in a file, its data area always 476 bytes. */
  datatype Record = Record(
    flags: u32, addr: u32, size: u32, number: u32, total: u32, family: u32, data: seq<u8>)

  function WrittenRecord(r: Record): seq<u8> {
    Le32(0x0A324655) + Le32(0x9E5D5157) + Le32(r.flags) + Le32(r.addr) + Le32(r.size) + Le32(r.number) + Le32(r.total)
    + Le32(r.family) + r.data + Le32(0x0AB16F30)
  }

  function WrittenRecords(records: seq<Record>): seq<u8> {
    if records == [] then [] else WrittenRecord(records[0]) + WrittenRecords(records[1..])
  }

  /** What parsing is to make of the records: those not for main flash (bit 0) are passed
      over, and the first other one with more than 476 bytes is an error; bit 13 says that the
      block names its family. */
  function ReadAs(records: seq<Record>, offset: nat): Parsed {
    if records == [] then Blocks([])
    else
      var r := records[0];
      var more := ReadAs(records[1..], offset + 512);
      if HasBit(r.flags, 0) then more
      else if r.size > 476 then BadPayload(offset)
      else if more.Blocks? && r.size <= |r.data| then
        Blocks([Block(r.addr, r.data[..r.size], if HasBit(r.flags, 13) then Some(r.family) else None)] + more.blocks)
      else more
  }

  /** Every field is read from where it was written. */
  lemma FieldsRead(r: Record, b: seq<u8>)
    requires |r.data| == 476 && b == WrittenRecord(r)
    ensures |b| == 512
    ensures Word(b, 0) == 0x0A324655 && Word(b, 4) == 0x9E5D5157 && Word(b, 508) == 0x0AB16F30
    ensures Word(b, 8) == r.flags && Word(b, 12) == r.addr && Word(b, 16) == r.size && Word(b, 28) == r.family
    ensures b[32..508] == r.data
  {
    hide Le32, FromLe32;
    assert b[0..4] == Le32(0x0A324655) && b[4..8] == Le32(0x9E5D5157) && b[508..512] == Le32(0x0AB16F30);
    assert b[8..12] == Le32(r.flags) && b[12..16] == Le32(r.addr) && b[16..20] == Le32(r.size);
    assert b[28..32] == Le32(r.family);
    FromLe32Le32(0x0A324655);
    FromLe32Le32(0x9E5D5157);
    FromLe32Le32(0x0AB16F30);
    FromLe32Le32(r.flags);
    FromLe32Le32(r.addr);
    FromLe32Le32(r.size);
    FromLe32Le32(r.family);
  }

  lemma Bit13(w: nat)
    ensures HasBit(w, 13) <==> w / 0x2000 % 2 == 1
  {
    hide HasBit;
    HasBitDown(w, 13);
    HasBitDown(w / 0x10, 9);
    HasBitDown(w / 0x100, 5);
    HasBitDown(w / 0x1000, 1);
    assert w / 0x100 == w / 0x10 / 0x10 && w / 0x1000 == w / 0x100 / 0x10 && w / 0x2000 == w / 0x1000 / 2;
  }

  /** A file of records is read as its records. */
  lemma {:induction false} RecordsRead(records: seq<Record>, offset: nat)
    requires forall r :: r in records ==> |r.data| == 476
    ensures ParseFrom(WrittenRecords(records), offset) == ReadAs(records, offset)
    ensures |WrittenRecords(records)| == 512 * |records|
    decreases |records|
  {
    hide WrittenRecord, Word, HasBit;
    if records != [] {
      var r, file := records[0], WrittenRecords(records);
      var b := WrittenRecord(r);
      RecordsRead(records[1..], offset + 512);
      FieldsRead(r, b);
      Bit0(r.flags);
      Bit13(r.flags);
      assert file[..512] == b && file[512..] == WrittenRecords(records[1..]);
      if r.size <= 476 {
        assert b[32..32 + r.size] == r.data[..r.size];
      }
    }
  }

  /** A file of records is their blocks, or its first failure. */
  lemma FileRead(records: seq<Record>)
    requires forall r :: r in records ==> |r.data| == 476
    ensures Parse(WrittenRecords(records)) == ReadAs(records, 0)
  {
    hide ParseFrom, WrittenRecords, ReadAs;
    RecordsRead(records, 0);
  }

  /** The four bytes a magic number is on disk. */
  lemma MagicBytes(b: seq<u8>)
    requires |b| == 512
    ensures HasMagic(b) <==> && b[0..4] == [0x55, 0x46, 0x32, 0x0A] && b[4..8] == [0x57, 0x51, 0x5D, 0x9E]
                             && b[508..512] == [0x30, 0x6F, 0xB1, 0x0A]
  {
    hide Le32, FromLe32;
    Le32FromLe32(b[0..4]);
    Le32FromLe32(b[4..8]);
    Le32FromLe32(b[508..512]);
    Le32FromLe32([0x55, 0x46, 0x32, 0x0A]);
    Le32FromLe32([0x57, 0x51, 0x5D, 0x9E]);
    Le32FromLe32([0x30, 0x6F, 0xB1, 0x0A]);
    MagicWords();
  }

  lemma MagicWords()
    ensures FromLe32([0x55, 0x46, 0x32, 0x0A]) == MAGIC0
    ensures FromLe32([0x57, 0x51, 0x5D, 0x9E]) == MAGIC1
    ensures FromLe32([0x30, 0x6F, 0xB1, 0x0A]) == MAGIC_END
  {
  }

  /** Whatever follows good records and does not begin as a block is where parsing stops. */
  lemma {:induction false} BadMagicFound(records: seq<Record>, b: seq<u8>, rest: seq<u8>, offset: nat)
    requires (forall r :: r in records ==> |r.data| == 476) && ReadAs(records, offset).Blocks?
    requires |b| == 512 && !HasMagic(b)
    ensures ParseFrom(WrittenRecords(records) + (b + rest), offset) == BadMagic(offset + 512 * |records|)
    decreases |records|
  {
    hide WrittenRecord, HasMagic, Word, HasBit;
    var file := WrittenRecords(records) + (b + rest);
    if records == [] {
      assert file[..512] == b;
    } else {
      var first := WrittenRecord(records[0]);
      BadMagicFound(records[1..], b, rest, offset + 512);
      FieldsRead(records[0], first);
      MagicIs(first);
      Bit0(records[0].flags);
      assert file[..512] == first && file[512..] == WrittenRecords(records[1..]) + (b + rest);
    }
  }

  lemma MagicIs(b: seq<u8>)
    requires |b| == 512 && Word(b, 0) == 0x0A324655 && Word(b, 4) == 0x9E5D5157 && Word(b, 508) == 0x0AB16F30
    ensures HasMagic(b)
  {
  }

  lemma Bit0(w: nat)
    ensures HasBit(w, 0) <==> w % 2 == 1
  {
  }

  predicate Matches(b: Block, family: u32) {
    b.familyId.None? || b.familyId == Some(family)
  }

  /** The blocks of a family and those of none. */
  function FilterFamily(blocks: seq<Block>, family: u32): seq<Block> {
    if blocks == [] then []
    else (if Matches(blocks[0], family) then [blocks[0]] else []) + FilterFamily(blocks[1..], family)
  }

  /** Where a good file stands does not matter. */
  lemma {:induction false} ParseAnywhere(file: seq<u8>, from: nat, to: nat)
    requires ParseFrom(file, from).Blocks?
    ensures ParseFrom(file, to) == ParseFrom(file, from)
  {
    hide Word, HasMagic, NotMainFlash;
    if |file| >= BLOCK { ParseAnywhere(file[BLOCK..], from + BLOCK, to + BLOCK); }
  }

  lemma {:induction false} ParseConcat(a: seq<u8>, b: seq<u8>, offset: nat)
    requires |a| % BLOCK == 0 && ParseFrom(a, offset).Blocks? && ParseFrom(b, 0).Blocks?
    ensures ParseFrom(a + b, offset) == Blocks(ParseFrom(a, offset).blocks + ParseFrom(b, 0).blocks)
  {
    hide Word, HasMagic, NotMainFlash;
    if |a| < BLOCK {
      assert a + b == b;
      ParseAnywhere(b, 0, offset);
    } else {
      assert (a + b)[..BLOCK] == a[..BLOCK] && (a + b)[BLOCK..] == a[BLOCK..] + b;
      ParseConcat(a[BLOCK..], b, offset + BLOCK);
    }
  }

  lemma {:induction false} FilterConcat(a: seq<Block>, b: seq<Block>, family: u32)
    ensures FilterFamily(a + b, family) == FilterFamily(a, family) + FilterFamily(b, family)
  {
    hide Matches;
    if a == [] {
      assert a + b == b;
    } else {
      assert (a + b)[0] == a[0] && (a + b)[1..] == a[1..] + b;
      FilterConcat(a[1..], b, family);
      Regroup(if Matches(a[0], family) then [a[0]] else [], FilterFamily(a[1..], family), FilterFamily(b, family));
    }
  }

  /** A block passes the filter of a family exactly if it is of that family or of none. */
  lemma FilterSnoc(blocks: seq<Block>, b: Block, family: u32)
    ensures FilterFamily(blocks + [b], family)
         == FilterFamily(blocks, family) + if b.familyId in {None, Some(family)} then [b] else []
  {
    FilterConcat(blocks, [b], family);
    assert [b][1..] == [];
  }

  lemma {:induction false} FilterAll(blocks: seq<Block>, family: u32)
    requires forall b :: b in blocks ==> Matches(b, family)
    ensures FilterFamily(blocks, family) == blocks
  {
    if blocks != [] { FilterAll(blocks[1..], family); }
  }

  lemma {:induction false} FilterNone(blocks: seq<Block>, family: u32)
    requires forall b :: b in blocks ==> !Matches(b, family)
    ensures FilterFamily(blocks, family) == []
  {
    if blocks != [] { FilterNone(blocks[1..], family); }
  }

  /** Of two files of different families put together, filtering by one gives that file's
      own blocks, hence its own ranges. */
  lemma TwoFamilies(a: seq<u8>, b: seq<u8>, familyA: u32, familyB: u32)
    requires familyA != familyB && Parse(a).Blocks? && Parse(b).Blocks?
    requires forall x :: x in Parse(a).blocks ==> x.familyId == Some(familyA)
    requires forall x :: x in Parse(b).blocks ==> x.familyId == Some(familyB)
    ensures Parse(a + b).Blocks?
    ensures FilterFamily(Parse(a + b).blocks, familyA) == FilterFamily(Parse(a).blocks, familyA) == Parse(a).blocks
    ensures FilterFamily(Parse(a + b).blocks, familyB) == FilterFamily(Parse(b).blocks, familyB) == Parse(b).blocks
  {
    hide ParseFrom, FilterFamily;
    ParseConcat(a, b, 0);
    var x, y := Parse(a).blocks, Parse(b).blocks;
    FilterConcat(x, y, familyA);
    FilterConcat(x, y, familyB);
    FilterAll(x, familyA);
    FilterAll(y, familyB);
    FilterNone(y, familyA);
    FilterNone(x, familyB);
  }

  // Coalescing

  /** A stable sort by address, block by block. */
  function InsertBlock(b: Block, sorted: seq<Block>): (r: seq<Block>)
    ensures multiset(r) == multiset{b} + multiset(sorted)
  {
    if sorted == [] then [b]
    else if b.targetAddr <= sorted[0].targetAddr then [b] + sorted
    else
      assert sorted == [sorted[0]] + sorted[1..];
      [sorted[0]] + InsertBlock(b, sorted[1..])
  }

  function SortBlocks(blocks: seq<Block>): (r: seq<Block>)
    ensures multiset(r) == multiset(blocks)
  {
    if blocks == [] then []
    else
      assert blocks == [blocks[0]] + blocks[1..];
      InsertBlock(blocks[0], SortBlocks(blocks[1..]))
  }

  /** The blocks at an address. */
  function BlocksAt(blocks: seq<Block>, a: u32): seq<Block> {
    if blocks == [] then []
    else (if blocks[0].targetAddr == a then [blocks[0]] else []) + BlocksAt(blocks[1..], a)
  }

  lemma {:induction false} InsertStable(b: Block, sorted: seq<Block>, a: u32)
    requires Ascending(sorted)
    ensures BlocksAt(InsertBlock(b, sorted), a) == BlocksAt([b] + sorted, a)
  {
    if sorted != [] && b.targetAddr > sorted[0].targetAddr {
      var first, rest := sorted[0], sorted[1..];
      InsertStable(b, rest, a);
      assert ([first] + InsertBlock(b, rest))[1..] == InsertBlock(b, rest);
      assert ([b] + sorted)[1..] == sorted && ([b] + rest)[1..] == rest;
    }
  }

  /** Blocks at the same address stay in the order of the file. */
  lemma {:induction false} SortStable(blocks: seq<Block>, a: u32)
    ensures BlocksAt(SortBlocks(blocks), a) == BlocksAt(blocks, a)
  {
    if blocks != [] {
      SortStable(blocks[1..], a);
      SortAscending(blocks[1..]);
      InsertStable(blocks[0], SortBlocks(blocks[1..]), a);
      assert ([blocks[0]] + SortBlocks(blocks[1..]))[1..] == SortBlocks(blocks[1..]);
    }
  }

  predicate Ascending(blocks: seq<Block>) {
    forall i, j :: 0 <= i < j < |blocks| ==> blocks[i].targetAddr <= blocks[j].targetAddr
  }

  lemma {:induction false} InsertAscending(b: Block, sorted: seq<Block>)
    requires Ascending(sorted)
    ensures Ascending(InsertBlock(b, sorted))
  {
    if sorted != [] && b.targetAddr > sorted[0].targetAddr {
      InsertAscending(b, sorted[1..]);
      var r := InsertBlock(b, sorted[1..]);
      forall x | x in r ensures sorted[0].targetAddr <= x.targetAddr {
        assert x in multiset(r);
        assert x == b || x in sorted[1..];
      }
    }
  }

  lemma {:induction false} SortAscending(blocks: seq<Block>)
    ensures Ascending(SortBlocks(blocks))
  {
    if blocks != [] {
      SortAscending(blocks[1..]);
      InsertAscending(blocks[0], SortBlocks(blocks[1..]));
    }
  }

  function End(r: Range): nat { r.addr + |r.data| }

  function RangeOf(b: Block): Range { Range(b.targetAddr, b.payload) }

  /** Extend the last range by a block that starts where it ends, or start a new one. */
  function Join(ranges: seq<Range>, b: Block): seq<Range> {
    if ranges != [] && End(ranges[|ranges| - 1]) == b.targetAddr then
      var last := ranges[|ranges| - 1];
      ranges[..|ranges| - 1] + [Range(last.addr, last.data + b.payload)]
    else ranges + [RangeOf(b)]
  }

  function JoinAll(blocks: seq<Block>): seq<Range> {
    if blocks == [] then [] else Join(JoinAll(blocks[..|blocks| - 1]), blocks[|blocks| - 1])
  }

  /** `coalesce`. */
  method Coalesce(blocks: seq<Block>) returns (ranges: seq<Range>)
    ensures ranges == JoinAll(SortBlocks(blocks))
  {
    var sorted := SortBlocks(blocks);
    ranges := [];
    var i := 0;
    while i < |sorted|
      invariant 0 <= i <= |sorted| && ranges == JoinAll(sorted[..i])
    {
      assert sorted[..i + 1][..i] == sorted[..i];
      ranges := Join(ranges, sorted[i]);
      i := i + 1;
    }
    assert sorted[..i] == sorted;
  }

  /** Byte `v` lies at address `a`. */
  predicate At(r: Range, a: nat, v: u8) {
    r.addr <= a < End(r) && r.data[a - r.addr] == v
  }

  predicate Holds(ranges: seq<Range>, a: nat, v: u8) {
    exists r :: r in ranges && At(r, a, v)
  }

  predicate BlocksHold(blocks: seq<Block>, a: nat, v: u8) {
    exists b :: b in blocks && At(RangeOf(b), a, v)
  }

  lemma JoinHolds(ranges: seq<Range>, b: Block, a: nat, v: u8)
    ensures Holds(Join(ranges, b), a, v) <==> Holds(ranges, a, v) || At(RangeOf(b), a, v)
  {
    var joined := Join(ranges, b);
    if ranges != [] && End(ranges[|ranges| - 1]) == b.targetAddr {
      var n := |ranges| - 1;
      var last, grown := ranges[n], joined[n];
      assert At(grown, a, v) <==> At(last, a, v) || At(RangeOf(b), a, v);
      assert ranges == ranges[..n] + [last] && joined == ranges[..n] + [grown];
      if Holds(ranges, a, v) {
        var r :| r in ranges && At(r, a, v);
        assert r in joined || grown in joined;
      }
      if At(RangeOf(b), a, v) { assert grown in joined; }
      if Holds(joined, a, v) {
        var r :| r in joined && At(r, a, v);
        assert r in ranges[..n] || r == grown;
        assert last in ranges;
      }
    } else {
      if At(RangeOf(b), a, v) { assert RangeOf(b) in joined; }
      if Holds(ranges, a, v) {
        var r :| r in ranges && At(r, a, v);
        assert r in joined;
      }
    }
  }

  lemma {:induction false} JoinAllHolds(blocks: seq<Block>, a: nat, v: u8)
    ensures Holds(JoinAll(blocks), a, v) <==> BlocksHold(blocks, a, v)
  {
    hide At, Join;
    if blocks != [] {
      var n := |blocks| - 1;
      JoinAllHolds(blocks[..n], a, v);
      JoinHolds(JoinAll(blocks[..n]), blocks[n], a, v);
      assert blocks == blocks[..n] + [blocks[n]];
    }
  }

  /** Coalescing conserves which byte lies at which address. */
  lemma CoalesceConserves(blocks: seq<Block>, a: nat, v: u8)
    ensures Holds(JoinAll(SortBlocks(blocks)), a, v) <==> BlocksHold(blocks, a, v)
  {
    hide At;
    var sorted := SortBlocks(blocks);
    JoinAllHolds(sorted, a, v);
    assert forall b :: b in sorted <==> b in multiset(sorted);
    assert forall b :: b in blocks <==> b in multiset(blocks);
  }

  /** No two blocks (or occurrences of one) share an address, and none is empty. */
  predicate Disjoint(blocks: seq<Block>) {
    && (forall b :: b in blocks ==> b.payload != [])
    && forall i, j :: 0 <= i < j < |blocks| ==> Apart(blocks[i], blocks[j])
  }

  predicate Apart(a: Block, b: Block) {
    End(RangeOf(a)) <= b.targetAddr || End(RangeOf(b)) <= a.targetAddr
  }

  /** Each range ends before the next begins, with at least one address between them. */
  predicate Separated(ranges: seq<Range>) {
    && (forall r :: r in ranges ==> r.data != [])
    && forall i, j :: 0 <= i < j < |ranges| ==> End(ranges[i]) < ranges[j].addr
  }

  lemma ConsDisjoint(b: Block, rest: seq<Block>)
    requires Disjoint(rest) && b.payload != [] && forall x :: x in rest ==> Apart(b, x)
    ensures Disjoint([b] + rest)
  {
  }

  lemma TailDisjoint(blocks: seq<Block>)
    requires Disjoint(blocks) && blocks != []
    ensures Disjoint(blocks[1..]) && blocks[0].payload != [] && forall x :: x in blocks[1..] ==> Apart(blocks[0], x)
  {
    forall x | x in blocks[1..] ensures Apart(blocks[0], x) {
      var i :| 0 <= i < |blocks| - 1 && blocks[1..][i] == x;
      assert Apart(blocks[0], blocks[i + 1]);
    }
    assert blocks[0] in blocks;
  }

  lemma {:induction false} InsertDisjoint(b: Block, sorted: seq<Block>)
    requires Disjoint(sorted) && b.payload != [] && forall x :: x in sorted ==> Apart(b, x)
    ensures Disjoint(InsertBlock(b, sorted))
  {
    hide Disjoint, Apart;
    if sorted == [] || b.targetAddr <= sorted[0].targetAddr {
      ConsDisjoint(b, sorted);
      assert [b] + [] == [b];
    } else {
      TailDisjoint(sorted);
      InsertDisjoint(b, sorted[1..]);
      ApartBoth(b, sorted[0]);
      var rest := InsertBlock(b, sorted[1..]);
      forall x | x in rest ensures Apart(sorted[0], x) {
        assert x in multiset(rest);
        assert x == b || x in sorted[1..];
      }
      ConsDisjoint(sorted[0], rest);
    }
  }

  lemma ApartBoth(a: Block, b: Block)
    ensures Apart(a, b) <==> Apart(b, a)
  {
  }

  lemma {:induction false} SortDisjoint(blocks: seq<Block>)
    requires Disjoint(blocks)
    ensures Disjoint(SortBlocks(blocks))
  {
    if blocks != [] {
      TailDisjoint(blocks);
      SortDisjoint(blocks[1..]);
      var sorted := SortBlocks(blocks[1..]);
      forall x | x in sorted ensures Apart(blocks[0], x) {
        assert x in multiset(sorted);
        assert x in blocks[1..];
      }
      InsertDisjoint(blocks[0], sorted);
    }
  }

  lemma JoinSeparated(ranges: seq<Range>, b: Block)
    requires Separated(ranges) && b.payload != []
    requires ranges != [] ==> End(ranges[|ranges| - 1]) <= b.targetAddr
    ensures var joined := Join(ranges, b);
            Separated(joined) && joined != [] && End(joined[|joined| - 1]) == End(RangeOf(b))
  {
    var joined, n := Join(ranges, b), |ranges| - 1;
    forall i | 0 <= i < |joined| ensures joined[i].data != [] {
      if i < n { assert ranges[i] in ranges; }
    }
    forall i, j | 0 <= i < j < |joined| ensures End(joined[i]) < joined[j].addr {
      if j == n + 1 && i < n { assert End(ranges[i]) < ranges[n].addr; assert ranges[n] in ranges; }
    }
  }

  lemma {:induction false} JoinAllSeparated(blocks: seq<Block>)
    requires Ascending(blocks) && Disjoint(blocks)
    ensures Separated(JoinAll(blocks))
    ensures blocks != [] ==> JoinAll(blocks) != []
                             && End(JoinAll(blocks)[|JoinAll(blocks)| - 1]) == End(RangeOf(blocks[|blocks| - 1]))
  {
    hide Join, Separated;
    NoneSeparated();
    if blocks != [] {
      var n := |blocks| - 1;
      JoinAllSeparated(blocks[..n]);
      assert blocks[n] in blocks;
      if n > 0 {
        assert Apart(blocks[n - 1], blocks[n]);
        assert blocks[n - 1] in blocks;
      }
      JoinSeparated(JoinAll(blocks[..n]), blocks[n]);
    }
  }

  lemma NoneSeparated()
    ensures Separated([])
  {
  }

  /** For blocks with nonempty disjoint payloads the ranges ascend, are disjoint, and are
      maximal. */
  lemma CoalesceSeparates(blocks: seq<Block>)
    requires Disjoint(blocks)
    ensures Separated(JoinAll(SortBlocks(blocks)))
  {
    SortAscending(blocks);
    SortDisjoint(blocks);
    JoinAllSeparated(SortBlocks(blocks));
  }
}
