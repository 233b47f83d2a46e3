/** Bit sequences through the PIO program: bytes clocked out or in, least significant bit
    first, eight bits at a time. */
module SequenceWire {
  import opened Words
  import opened Pio
  import opened Fifo
  import opened Wire

  function Chunk(bits: nat): nat {
    if bits < 8 then bits else 8
  }

  /** The bits of bytes, least significant first. */
  function AllBits(data: seq<nat>): (bits: seq<bool>)
    ensures |bits| == 8 * |data|
  {
    if data == [] then [] else BitsOf(data[0], 8) + AllBits(data[1..])
  }

  /** `write_sequence`: one write of up to eight bits per byte. */
  function SequenceWrites(o: nat, bits: nat, data: seq<u8>): seq<Op>
    requires o + PROGRAM_LEN <= 32
  {
    if data == [] || bits == 0 then []
    else WriteOps(o, Chunk(bits), true, data[0]) + SequenceWrites(o, bits - Chunk(bits), data[1..])
  }

  /** `read_sequence`: one read of up to eight bits per byte. */
  function SequenceReads(o: nat, bits: nat, n: nat): seq<Op>
    requires o + PROGRAM_LEN <= 32
  {
    if n == 0 || bits == 0 then []
    else ReadOps(o, Chunk(bits)) + ([PullOp] + SequenceReads(o, bits - Chunk(bits), n - 1))
  }

  lemma {:induction false} FirstBits(w: nat, k: nat, n: nat)
    requires k <= n
    ensures BitsOf(w, n)[..k] == BitsOf(w, k)
  {
    if k > 0 { FirstBits(w / 2, k - 1, n - 1); }
  }

  /** A sequence write drives exactly the first `bits` bits of its bytes, in order. */
  lemma {:induction false} WritesCompile(o: nat, line: Line, s: Sem, bits: nat, data: seq<u8>)
    requires o + PROGRAM_LEN <= 32 && s.mode.Idle? && bits <= 8 * |data|
    ensures Compiles(o, line, s, SequenceWrites(o, bits, data), Driven(AllBits(data)[..bits]), [])
    decreases |data|
  {
    hide WriteOps, RunOps, Balanced, BitsOf, Driven;
    if bits == 0 {
      NothingLeft(o, line, s);
      NoCycles();
    } else {
      var k, rest := Chunk(bits), data[1..];
      WriteSegment(o, line, s, 0, k, true, data[0], SequenceWrites(o, bits - k, rest));
      var t := Wrote(line, s, k, true, data[0]);
      WritesCompile(o, line, t, bits - k, rest);
      FirstBits(data[0], k, 8);
      var first, more := BitsOf(data[0], k), AllBits(rest)[..bits - k];
      assert AllBits(data)[..bits] == first + more;
      DrivenConcat(first, more);
      Regroup(s.wave, Driven(first), Driven(more));
      assert s.rx + [] == s.rx;
    }
  }

  lemma NoCycles()
    ensures Driven([]) == []
  {
  }

  /** The byte taken from the word of a read of `k` bits. */
  function ByteOf(word: u32, k: nat): nat
    requires k <= 32
  {
    var p := Pow2(32 - k);
    QuotientNatural(word, p);
    word / p
  }

  lemma QuotientNatural(a: nat, b: nat)
    requires b > 0
    ensures a / b >= 0
  {
  }

  /** The bytes of a sequence read, from the words pulled. */
  function BytesOf(words: seq<u32>, bits: nat): seq<nat> {
    if words == [] then [] else [ByteOf(words[0], Chunk(bits))] + BytesOf(words[1..], bits - Chunk(bits))
  }

  /** A word of fewer bits than a byte, as a byte. */
  lemma BitsPadded(bits: seq<bool>, n: nat)
    requires |bits| <= n
    ensures BitsOf(WordOf(bits), n) == bits + Zeros(n - |bits|)
  {
    hide BitsOf, WordOf;
    WordOfConcat(bits, Zeros(n - |bits|));
    WordOfZeros(n - |bits|);
    BitsOfWordOf(bits + Zeros(n - |bits|));
  }

  lemma {:induction false} LineBitsSplit(line: Line, n: nat, a: nat, b: nat)
    ensures LineBits(line, n, a + b) == LineBits(line, n, a) + LineBits(line, n + a, b)
    decreases a
  {
    if a > 0 { LineBitsSplit(line, n + 1, a - 1, b); }
  }

  /** One read of up to eight bits. */
  lemma ReadCompiles(o: nat, line: Line, s: Sem, k: nat, rest: seq<Op>)
    requires o + PROGRAM_LEN <= 32 && s.mode.Idle? && 1 <= k <= 8
    ensures var ops, t := ReadOps(o, k) + ([PullOp] + rest), Sampled(line, s, k);
            && RunOps(o, line, s, ops) == RunOps(o, line, t, rest)
            && Balanced(o, line, s, 0, ops) == Balanced(o, line, t, 0, rest)
  {
    hide ReadOps, RunOps, Balanced, LineBits, RxWord;
    ReadSegment(o, line, s, 0, k, [PullOp] + rest);
    PullSegment(o, line, Sampled(line, s, k), 1, rest);
  }

  /** The byte stored for up to eight clocks: their samples, then zeros. */
  lemma ByteShown(line: Line, n: nat, k: nat)
    requires 1 <= k <= 8
    ensures var byte := ByteOf(RxWord(LineBits(line, n, k)), k);
            byte < 0x100 && BitsOf(byte, 8) == LineBits(line, n, k) + Zeros(8 - k)
  {
    hide LineBits, RxWord;
    var bits := LineBits(line, n, k);
    RxWordBits(bits);
    BitsPadded(bits, 8);
    WordOfBound(bits);
    PowersAscend(k, 8);
    assert Pow2(8) == 0x100;
  }

  lemma {:induction false} PowersAscend(a: nat, b: nat)
    requires a <= b
    ensures Pow2(a) <= Pow2(b)
    decreases b
  {
    if a < b { PowersAscend(a, b - 1); }
  }

  /** The words a sequence read pulls. */
  function WordsShown(line: Line, n: nat, bits: nat): seq<u32>
    decreases bits
  {
    if bits == 0 then []
    else [RxWord(LineBits(line, n, Chunk(bits)))] + WordsShown(line, n + Chunk(bits), bits - Chunk(bits))
  }

  lemma {:induction false} ReadsClocked(o: nat, line: Line, s: Sem, bits: nat, n: nat)
    requires o + PROGRAM_LEN <= 32 && s.mode.Idle? && bits <= 8 * n
    ensures Compiles(o, line, s, SequenceReads(o, bits, n), Released(line, |s.wave|, bits), WordsShown(line, |s.wave|, bits))
    decreases n
  {
    hide ReadOps, RunOps, Balanced, Released, RxWord, LineBits;
    if bits == 0 {
      NothingLeft(o, line, s);
      NoClocks(line, |s.wave|);
    } else {
      var k := Chunk(bits);
      ReadCompiles(o, line, s, k, SequenceReads(o, bits - k, n - 1));
      var t := Sampled(line, s, k);
      ReadsClocked(o, line, t, bits - k, n - 1);
      ReleasedSplit(line, |s.wave|, k, bits - k);
      Regroup(s.wave, Released(line, |s.wave|, k), Released(line, |t.wave|, bits - k));
      Regroup(s.rx, [RxWord(LineBits(line, |s.wave|, k))], WordsShown(line, |t.wave|, bits - k));
    }
  }

  lemma {:induction false} BytesShown(line: Line, n: nat, bits: nat)
    ensures var words := WordsShown(line, n, bits);
            var bytes := BytesOf(words, bits);
            && |words| == |bytes| == DivCeil8(bits) && (forall b :: b in bytes ==> b < 0x100)
            && AllBits(bytes) == LineBits(line, n, bits) + Zeros(8 * |bytes| - bits)
    decreases bits
  {
    hide RxWord, LineBits, ByteOf, BitsOf;
    if bits > 0 {
      var k := Chunk(bits);
      var first, rest := ByteOf(RxWord(LineBits(line, n, k)), k), BytesOf(WordsShown(line, n + k, bits - k), bits - k);
      ByteShown(line, n, k);
      BytesShown(line, n + k, bits - k);
      LineBitsSplit(line, n, k, bits - k);
      assert BytesOf(WordsShown(line, n, bits), bits) == [first] + rest;
      assert ([first] + rest)[1..] == rest;
      if bits < 8 {
        NoClocks(line, n + k);
      } else {
        assert Zeros(8 - k) == [];
      }
    }
  }

  /** A sequence read releases SWDIO for `bits` clocks, and the bytes it stores hold the bits
      the line showed on them, eight to a byte, and zeros from there to the last byte's end. */
  lemma ReadsCompile(o: nat, line: Line, s: Sem, bits: nat, n: nat) returns (words: seq<u32>)
    requires o + PROGRAM_LEN <= 32 && s.mode.Idle? && bits <= 8 * n
    ensures Compiles(o, line, s, SequenceReads(o, bits, n), Released(line, |s.wave|, bits), words)
    ensures bits <= 8 * |words| < bits + 8 && forall b :: b in BytesOf(words, bits) ==> b < 0x100
    ensures AllBits(BytesOf(words, bits)) == LineBits(line, |s.wave|, bits) + Zeros(8 * |words| - bits)
  {
    words := WordsShown(line, |s.wave|, bits);
    ReadsClocked(o, line, s, bits, n);
    BytesShown(line, |s.wave|, bits);
  }

  lemma NoClocks(line: Line, n: nat)
    ensures Released(line, n, 0) == [] && LineBits(line, n, 0) == []
  {
  }
}
