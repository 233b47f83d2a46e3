/** Machine words as naturals, and their least-significant-bit-first bit sequences. */
module Words {

  type u8 = x: nat | x < 0x100
  type u16 = x: nat | x < 0x1_0000
  type u32 = x: nat | x < 0x1_0000_0000

  datatype Option<+T> = None | Some(value: T)

  function Pow2(n: nat): (p: nat)
    ensures p > 0
  {
    if n == 0 then 1 else 2 * Pow2(n - 1)
  }

  lemma Pow2Word()
    ensures Pow2(31) == 0x8000_0000 && Pow2(32) == 0x1_0000_0000
  {
    assert Pow2(8) == 0x100;
    assert Pow2(16) == 0x1_0000;
    assert Pow2(24) == 0x100_0000;
    assert Pow2(31) == 0x8000_0000;
  }

  function Bit(b: bool): (r: nat)
    ensures r <= 1
  {
    if b then 1 else 0
  }

  /** The `n` low bits of `w`, least significant first. */
  function BitsOf(w: nat, n: nat): (bits: seq<bool>)
    ensures |bits| == n
  {
    if n == 0 then [] else [w % 2 == 1] + BitsOf(w / 2, n - 1)
  }

  /** The word whose bits, least significant first, are `bits`. */
  function WordOf(bits: seq<bool>): nat {
    if bits == [] then 0 else Bit(bits[0]) + 2 * WordOf(bits[1..])
  }

  function Zeros(n: nat): (bits: seq<bool>)
    ensures |bits| == n
  {
    seq(n, _ => false)
  }

  /** Whether an odd number of `bits` is set. */
  function OddOnes(bits: seq<bool>): bool {
    if bits == [] then false else bits[0] != OddOnes(bits[1..])
  }

  /** `count_ones` of a word. */
  function CountOnes(w: nat): nat {
    if w == 0 then 0 else w % 2 + CountOnes(w / 2)
  }

  lemma {:induction false} WordOfBound(bits: seq<bool>)
    ensures WordOf(bits) < Pow2(|bits|)
  {
    if bits != [] { WordOfBound(bits[1..]); }
  }

  lemma {:induction false} WordOfSnoc(bits: seq<bool>, b: bool)
    ensures WordOf(bits + [b]) == WordOf(bits) + Bit(b) * Pow2(|bits|)
  {
    if bits == [] {
      assert (bits + [b])[1..] == [];
    } else {
      assert (bits + [b])[1..] == bits[1..] + [b];
      WordOfSnoc(bits[1..], b);
    }
  }

  lemma {:induction false} WordOfZeros(n: nat)
    ensures WordOf(Zeros(n)) == 0
  {
    if n > 0 {
      assert Zeros(n)[1..] == Zeros(n - 1);
      WordOfZeros(n - 1);
    }
  }

  lemma {:induction false} BitsOfWordOf(bits: seq<bool>)
    ensures BitsOf(WordOf(bits), |bits|) == bits
  {
    if bits != [] {
      BitsOfWordOf(bits[1..]);
      assert WordOf(bits) / 2 == WordOf(bits[1..]);
    }
  }

  lemma {:induction false} WordOfBitsOf(w: nat, n: nat)
    requires w < Pow2(n)
    ensures WordOf(BitsOf(w, n)) == w
  {
    if n > 0 {
      WordOfBitsOf(w / 2, n - 1);
      assert BitsOf(w, n)[1..] == BitsOf(w / 2, n - 1);
    }
  }

  /** Shifting a word right drops its low bits. */
  lemma {:induction false} ShiftRight(bits: seq<bool>, k: nat)
    requires k <= |bits|
    ensures WordOf(bits) / Pow2(k) == WordOf(bits[k..])
  {
    if k == 0 {
      assert bits[0..] == bits;
    } else {
      ShiftRight(bits[1..], k - 1);
      assert bits[1..][k - 1..] == bits[k..];
      DivTwice(WordOf(bits), k - 1);
    }
  }

  lemma DivTwice(w: nat, k: nat)
    ensures w / Pow2(k + 1) == w / 2 / Pow2(k)
  {
    var p := Pow2(k);
    var q, r := w / (2 * p), w % (2 * p);
    assert w == q * (2 * p) + r;
    assert w / 2 == q * p + r / 2 by {
      assert w == 2 * (q * p) + r;
    }
    assert 0 <= r / 2 < p;
    DivUnique(w / 2, p, q, r / 2);
  }

  lemma DivUnique(a: nat, p: nat, q: nat, r: nat)
    requires p > 0 && a == q * p + r && r < p
    ensures a / p == q && a % p == r
  {
    var d := a / p - q;
    assert a == (a / p) * p + a % p;
    assert d * p == r - a % p;
    MulMonotone(1, d, p);
    MulMonotone(d, -1, p);
  }

  lemma MulMonotone(a: int, b: int, p: nat)
    ensures a <= b ==> a * p <= b * p
  {
  }

  lemma {:induction false} WordOfConcat(a: seq<bool>, b: seq<bool>)
    ensures WordOf(a + b) == WordOf(b) * Pow2(|a|) + WordOf(a)
  {
    if a == [] {
      assert a + b == b;
    } else {
      var rest := a[1..];
      assert (a + b)[0] == a[0] && (a + b)[1..] == rest + b;
      WordOfConcat(rest, b);
      Doubled(WordOf(rest + b), WordOf(b), Pow2(|rest|), WordOf(rest));
    }
  }

  lemma Doubled(sum: nat, x: nat, p: nat, y: nat)
    requires sum == x * p + y
    ensures 2 * sum == x * (2 * p) + 2 * y
  {
    MulDouble(x, p);
  }

  lemma MulDouble(x: nat, p: nat)
    ensures x * (2 * p) == 2 * (x * p)
  {
  }

  lemma {:induction false} OddOnesConcat(a: seq<bool>, b: seq<bool>)
    ensures OddOnes(a + b) == (OddOnes(a) != OddOnes(b))
  {
    if a == [] {
      assert a + b == b;
    } else {
      assert (a + b)[1..] == a[1..] + b;
      OddOnesConcat(a[1..], b);
    }
  }

  /** The parity of a word's `count_ones` is the parity of its bits. */
  lemma {:induction false} CountOnesParity(bits: seq<bool>)
    ensures CountOnes(WordOf(bits)) % 2 == Bit(OddOnes(bits))
  {
    if bits != [] {
      CountOnesParity(bits[1..]);
      var w := WordOf(bits);
      assert w / 2 == WordOf(bits[1..]) && w % 2 == Bit(bits[0]);
    }
  }

  /** Bitwise conjunction of two words. */
  function BitAnd(a: nat, b: nat): nat {
    if a == 0 || b == 0 then 0 else (a % 2) * (b % 2) + 2 * BitAnd(a / 2, b / 2)
  }

  lemma Regroup<T>(a: seq<T>, b: seq<T>, c: seq<T>)
    ensures a + b + c == a + (b + c)
  {
  }

  // Bit masks

  /** Whether bit `i` of a mask is set. */
  predicate HasBit(mask: nat, i: nat) {
    if i == 0 then mask % 2 == 1 else HasBit(mask / 2, i - 1)
  }

  /** `mask |= 1 << i`. */
  function SetBit(mask: nat, i: nat): nat {
    if HasBit(mask, i) then mask else mask + Pow2(i)
  }

  lemma {:induction false} HighBitClear(mask: nat, k: nat)
    requires mask < Pow2(k)
    ensures !HasBit(mask, k)
  {
    if k > 0 { HighBitClear(mask / 2, k - 1); }
  }

  lemma {:induction false} AddedBit(mask: nat, k: nat, i: nat)
    requires mask < Pow2(k) && i <= k
    ensures HasBit(mask + Pow2(k), i) == (i == k || HasBit(mask, i))
  {
    if k > 0 {
      assert (mask + Pow2(k)) / 2 == mask / 2 + Pow2(k - 1);
      if i > 0 { AddedBit(mask / 2, k - 1, i - 1); }
    }
  }

  lemma {:induction false} SetBitHas(mask: nat, i: nat, j: nat)
    ensures HasBit(SetBit(mask, i), j) == (i == j || HasBit(mask, j))
    decreases i
  {
    if !HasBit(mask, i) {
      if i == 0 {
        assert (mask + Pow2(0)) / 2 == mask / 2;
      } else {
        assert (mask + Pow2(i)) / 2 == mask / 2 + Pow2(i - 1) && (mask + Pow2(i)) % 2 == mask % 2;
        if j > 0 { SetBitHas(mask / 2, i - 1, j - 1); }
      }
    }
  }

  lemma {:induction false} SetBitBound(mask: nat, i: nat, k: nat)
    requires mask < Pow2(k) && i < k
    ensures SetBit(mask, i) < Pow2(k)
    decreases i
  {
    hide HasBit, Pow2;
    ClearBit(mask, i, k);
    if !HasBit(mask, i) && i > 0 {
      SetBitBound(mask / 2, i - 1, k - 1);
      HalfBound(mask, Pow2(i - 1), Pow2(k - 1));
    }
  }

  /** A clear bit of a mask is the bit before of its half. */
  lemma ClearBit(mask: nat, i: nat, k: nat)
    requires mask < Pow2(k) && i < k
    ensures Pow2(k) == 2 * Pow2(k - 1) && mask / 2 < Pow2(k - 1)
    ensures if i == 0 then !HasBit(mask, 0) ==> mask + Pow2(0) < Pow2(k)
            else HasBit(mask, i) == HasBit(mask / 2, i - 1) && Pow2(i) == 2 * Pow2(i - 1)
  {
  }

  lemma HalfBound(mask: nat, p: nat, q: nat)
    requires mask / 2 + p < q
    ensures mask + 2 * p < 2 * q
  {
  }

  /** A mask is its bits. */
  lemma {:induction false} SameMask(a: nat, b: nat, k: nat)
    requires a < Pow2(k) && b < Pow2(k) && forall i: nat :: i < k ==> HasBit(a, i) == HasBit(b, i)
    ensures a == b
  {
    if k > 0 {
      forall i: nat | i < k - 1 ensures HasBit(a / 2, i) == HasBit(b / 2, i) {
        assert HasBit(a, i + 1) == HasBit(b, i + 1);
      }
      SameMask(a / 2, b / 2, k - 1);
      assert HasBit(a, 0) == HasBit(b, 0);
    }
  }

  /** Bits by position and bits in a row are the same bits. */
  lemma {:induction false} HasBitAt(w: nat, n: nat, i: nat)
    requires i < n
    ensures HasBit(w, i) <==> BitsOf(w, n)[i]
  {
    if i > 0 { HasBitAt(w / 2, n - 1, i - 1); }
  }

  lemma {:induction false} NoBits(i: nat)
    ensures !HasBit(0, i)
  {
    if i > 0 { NoBits(i - 1); }
  }

  /** A bit of a conjunction is set exactly when it is set in both words. */
  lemma {:induction false} BitAndBits(a: nat, b: nat, i: nat)
    ensures HasBit(BitAnd(a, b), i) <==> HasBit(a, i) && HasBit(b, i)
    decreases i
  {
    if a == 0 || b == 0 {
      NoBits(i);
    } else {
      var x, y, rest := a % 2, b % 2, BitAnd(a / 2, b / 2);
      assert x * y == if x == 1 && y == 1 then 1 else 0;
      assert BitAnd(a, b) % 2 == x * y && BitAnd(a, b) / 2 == rest;
      if i > 0 { BitAndBits(a / 2, b / 2, i - 1); }
    }
  }

  lemma {:induction false} BitAndBound(a: nat, b: nat, k: nat)
    requires a < Pow2(k)
    ensures BitAnd(a, b) < Pow2(k)
  {
    if k > 0 && a != 0 && b != 0 {
      BitAndBound(a / 2, b / 2, k - 1);
      assert (a % 2) * (b % 2) <= 1;
    }
  }

  /** `value` and `target` agree wherever `mask` is set, and `target` has no other bit. */
  predicate AgreesUnder(value: u32, mask: u32, target: u32) {
    forall i: nat :: i < 32 ==> if HasBit(mask, i) then HasBit(value, i) == HasBit(target, i) else !HasBit(target, i)
  }

  /** Comparing a masked value is comparing it bit by bit under the mask. */
  lemma MaskedEquals(value: u32, mask: u32, target: u32)
    ensures BitAnd(value, mask) == target <==> AgreesUnder(value, mask, target)
  {
    hide BitAnd, HasBit;
    Pow2Word();
    BitAndBound(value, mask, 32);
    forall i: nat ensures HasBit(BitAnd(value, mask), i) <==> HasBit(value, i) && HasBit(mask, i) {
      BitAndBits(value, mask, i);
    }
    if AgreesUnder(value, mask, target) {
      SameMask(BitAnd(value, mask), target, 32);
    }
  }

  /** A bit four places down. */
  lemma HasBitDown(w: nat, i: nat)
    ensures i >= 4 ==> HasBit(w, i) == HasBit(w / 0x10, i - 4)
    ensures i == 1 ==> HasBit(w, i) == (w / 2 % 2 == 1)
  {
    assert w / 0x10 == w / 2 / 2 / 2 / 2;
    if i >= 4 {
      assert HasBit(w, i) == HasBit(w / 2, i - 1);
      assert HasBit(w / 2, i - 1) == HasBit(w / 2 / 2, i - 2);
      assert HasBit(w / 2 / 2, i - 2) == HasBit(w / 2 / 2 / 2, i - 3);
      assert HasBit(w / 2 / 2 / 2, i - 3) == HasBit(w / 2 / 2 / 2 / 2, i - 4);
    }
  }

  // Little-endian bytes

  function Le16(w: u16): seq<u8> {
    [w % 0x100, w / 0x100]
  }

  function Le32(w: u32): (bytes: seq<u8>)
    ensures |bytes| == 4
  {
    [w % 0x100, w / 0x100 % 0x100, w / 0x1_0000 % 0x100, w / 0x100_0000]
  }

  function FromLe16(b: seq<u8>): u16
    requires |b| == 2
  {
    b[0] as nat + 0x100 * b[1] as nat
  }

  function FromLe32(b: seq<u8>): u32
    requires |b| == 4
  {
    b[0] as nat + 0x100 * b[1] as nat + 0x1_0000 * b[2] as nat + 0x100_0000 * b[3] as nat
  }

  lemma FromLe32Le32(w: u32)
    ensures FromLe32(Le32(w)) == w
  {
    var a, b, c := w / 0x100, w / 0x1_0000, w / 0x100_0000;
    assert b == a / 0x100 && c == b / 0x100;
    assert w == w % 0x100 + 0x100 * a && a == a % 0x100 + 0x100 * b && b == b % 0x100 + 0x100 * c;
  }

  function DivCeil8(bits: nat): nat {
    (bits + 7) / 8
  }

  /** The fewest bytes that hold `bits` bits. */
  lemma DivCeil8Least(bits: nat)
    ensures bits <= 8 * DivCeil8(bits) < bits + 8
  {
  }

  /** `w << k`. */
  function ShiftLeft(w: nat, k: nat): nat {
    if k == 0 then w else 2 * ShiftLeft(w, k - 1)
  }

  lemma ShiftByte(w: nat)
    ensures ShiftLeft(w, 8) == 0x100 * w && Pow2(8) == 0x100
  {
    assert ShiftLeft(w, 1) == 2 * ShiftLeft(w, 0);
    assert ShiftLeft(w, 2) == 2 * ShiftLeft(w, 1);
    assert ShiftLeft(w, 4) == 4 * ShiftLeft(w, 2);
    assert ShiftLeft(w, 6) == 4 * ShiftLeft(w, 4);
    assert ShiftLeft(w, 8) == 4 * ShiftLeft(w, 6);
  }

  lemma {:induction false} BitsOfJoined(low: nat, high: nat, k: nat, n: nat)
    requires low < Pow2(k)
    ensures BitsOf(low + ShiftLeft(high, k), k + n) == BitsOf(low, k) + BitsOf(high, n)
    decreases k
  {
    if k > 0 {
      var p := ShiftLeft(high, k - 1);
      assert (low + 2 * p) % 2 == low % 2 && (low + 2 * p) / 2 == low / 2 + p;
      BitsOfJoined(low / 2, high, k - 1, n);
    }
  }

  /** Two values in a row: the low byte's bits come first. */
  lemma ByteJoined(low: u8, high: nat, n: nat)
    ensures BitsOf(low + 0x100 * high, 8 + n) == BitsOf(low, 8) + BitsOf(high, n)
  {
    hide BitsOf, ShiftLeft, Pow2;
    ShiftByte(high);
    BitsOfJoined(low, high, 8, n);
  }

  /** A half word is its two bytes, the low one first, and back. */
  lemma Le16Bits(lo: u8, hi: u8)
    ensures BitsOf(FromLe16([lo, hi]), 16) == BitsOf(lo, 8) + BitsOf(hi, 8)
    ensures Le16(FromLe16([lo, hi])) == [lo, hi]
  {
    hide BitsOf;
    ByteJoined(lo, hi, 8);
  }

  lemma Le32Nested(a: u8, b: u8, c: u8, d: u8)
    ensures FromLe32([a, b, c, d]) == a as nat + 0x100 * (b as nat + 0x100 * (c as nat + 0x100 * d as nat))
  {
  }

  lemma LowByte(b: u8, rest: nat)
    ensures (b as nat + 0x100 * rest) % 0x100 == b && (b as nat + 0x100 * rest) / 0x100 == rest
  {
  }

  lemma Le32FromLe32(b: seq<u8>)
    requires |b| == 4
    ensures Le32(FromLe32(b)) == b
  {
    var d: nat := b[3];
    var cd := b[2] as nat + 0x100 * d;
    var bcd := b[1] as nat + 0x100 * cd;
    var w := FromLe32(b);
    Le32Nested(b[0], b[1], b[2], b[3]);
    assert b == [b[0], b[1], b[2], b[3]];
    LowByte(b[0], bcd);
    LowByte(b[1], cd);
    LowByte(b[2], d);
    assert w / 0x1_0000 == w / 0x100 / 0x100 && w / 0x100_0000 == w / 0x1_0000 / 0x100;
  }

  /** A word is its four bytes, the lowest first. */
  lemma Le32Bits(a: u8, b: u8, c: u8, d: u8)
    ensures BitsOf(FromLe32([a, b, c, d]), 32) == BitsOf(a, 8) + (BitsOf(b, 8) + (BitsOf(c, 8) + BitsOf(d, 8)))
  {
    hide BitsOf, FromLe32;
    Le32Nested(a, b, c, d);
    ByteJoined(c, d, 8);
    ByteJoined(b, c as nat + 0x100 * d as nat, 16);
    ByteJoined(a, b as nat + 0x100 * (c as nat + 0x100 * d as nat), 24);
  }
}
