/**
 CRC32C. The reference is section 12.1 of RFC 3720: the message bits, least
 significant bit of each byte first, are the coefficients of a polynomial
 (highest degree first); the first 32 are complemented, the polynomial is
 multiplied by x^32 and divided by the generator, and the remainder is
 complemented. The hardware instructions are specified the same way, as a
 polynomial remainder over one little-endian word.

 A 32-bit register is the sequence of its bits, least significant first, which
 is also its reflected polynomial, highest degree first.
 */
module Crc32c {
  import opened Bytes

  type Register = s: seq<bool> | |s| == 32 witness seq(32, _ => false)

  // ---- Bits ----------------------------------------------------------------

  /** The low n bits of w, least significant first. */
  function Bits(w: nat, n: nat): (s: seq<bool>)
    ensures |s| == n
  {
    if n == 0 then [] else [w % 2 == 1] + Bits(w / 2, n - 1)
  }

  function Pow2(n: nat): (p: nat)
    ensures p > 0
  {
    if n == 0 then 1 else 2 * Pow2(n - 1)
  }

  function BitsValue(s: seq<bool>): nat {
    if s == [] then 0 else (if s[0] then 1 else 0) + 2 * BitsValue(s[1..])
  }

  lemma {:induction false} BitsValueBound(s: seq<bool>)
    ensures BitsValue(s) < Pow2(|s|)
  {
    if s != [] {
      BitsValueBound(s[1..]);
    }
  }

  function MessageBits(data: seq<byte>): (s: seq<bool>)
    ensures |s| == 8 * |data|
  {
    if data == [] then [] else Bits(data[0], 8) + MessageBits(data[1..])
  }

  lemma {:induction false} BitsSplit(low: nat, j: nat, high: nat, m: nat)
    requires low < Pow2(j)
    ensures Bits(low + Pow2(j) * high, j + m) == Bits(low, j) + Bits(high, m)
  {
    if j == 0 {
      assert low == 0;
      assert Bits(low, 0) + Bits(high, m) == Bits(high, m);
    } else {
      var half := Pow2(j - 1) * high;
      assert Pow2(j) * high == 2 * half;
      assert (low + 2 * half) % 2 == low % 2 && (low + 2 * half) / 2 == low / 2 + half;
      BitsSplit(low / 2, j - 1, high, m);
      assert [low % 2 == 1] + (Bits(low / 2, j - 1) + Bits(high, m)) == Bits(low, j) + Bits(high, m);
    }
  }

  /** A little-endian word holds exactly the bits of the bytes it was copied from. */
  lemma {:induction false} WordBits(data: seq<byte>)
    ensures Bits(LeValue(data), 8 * |data|) == MessageBits(data)
  {
    if data != [] {
      WordBits(data[1..]);
      assert Pow2(8) == 256 by { assert Pow2(4) == 16; }
      BitsSplit(data[0], 8, LeValue(data[1..]), 8 * |data[1..]|);
    }
  }

  lemma {:induction false} MessageBitsConcat(a: seq<byte>, b: seq<byte>)
    ensures MessageBits(a + b) == MessageBits(a) + MessageBits(b)
  {
    hide Bits;
    if a == [] {
      assert a + b == b;
    } else {
      MessageBitsConcat(a[1..], b);
      assert (a + b)[1..] == a[1..] + b;
    }
  }

  // ---- Polynomials over GF(2), highest degree first ------------------------

  const EXPONENTS: set<int> := {32, 28, 27, 26, 25, 23, 22, 20, 19, 18, 14, 13, 11, 10, 9, 8, 6, 0}

  /** x^32 + x^28 + ... + x^6 + 1, that is 0x11EDC6F41. */
  function Generator(): (g: seq<bool>)
    ensures |g| == 33
  {
    seq(33, i requires 0 <= i < 33 => (32 - i) in EXPONENTS)
  }

  function ZeroBits(n: nat): (s: seq<bool>)
    ensures |s| == n
  {
    seq(n, _ => false)
  }

  function Flip(s: seq<bool>): (r: seq<bool>)
    ensures |r| == |s|
  {
    seq(|s|, i requires 0 <= i < |s| => !s[i])
  }

  /** p with the coefficients of q added to its leading ones. */
  function AddLeading(p: seq<bool>, q: seq<bool>): (r: seq<bool>)
    requires |q| <= |p|
    ensures |r| == |p|
  {
    seq(|p|, i requires 0 <= i < |p| => if i < |q| then p[i] != q[i] else p[i])
  }

  /** Long division by the generator: the 32 coefficients that remain. */
  function Remainder(p: seq<bool>): (r: seq<bool>)
    requires |p| >= 32
    ensures |r| == 32
    decreases |p|
  {
    if |p| == 32 then p
    else Remainder((if p[0] then AddLeading(p, Generator()) else p)[1..])
  }

  /** Register after absorbing `bits`: the remainder of (register and bits) * x^32. */
  function Absorb(crc: Register, bits: seq<bool>): Register {
    Remainder(AddLeading(bits + ZeroBits(32), crc))
  }

  /** `_mm_crc32_u8`, `_mm_crc32_u32` and `_mm_crc32_u64`, by operand width. */
  function Crc32Instruction(crc: Register, operand: nat, width: nat): Register {
    Absorb(crc, Bits(operand, width))
  }

  function Ones(): Register {
    Flip(ZeroBits(32))
  }

  /** The checksum as RFC 3720 defines it. */
  function Checksum(data: seq<byte>): (crc: nat)
    ensures crc < 0x1_0000_0000
  {
    var bits := Flip(Absorb(Ones(), MessageBits(data)));
    BitsValueBound(bits);
    Pow2Of32();
    BitsValue(bits)
  }

  lemma Pow2Of32()
    ensures Pow2(32) == 0x1_0000_0000
  {
    assert Pow2(8) == 256 by { assert Pow2(4) == 16; }
    Pow2Add(8, 8);
    Pow2Add(16, 16);
  }

  lemma {:induction false} Pow2Add(a: nat, b: nat)
    ensures Pow2(a + b) == Pow2(a) * Pow2(b)
  {
    if a != 0 {
      Pow2Add(a - 1, b);
    }
  }

  // ---- Bit-at-a-time and byte-at-a-time forms ------------------------------

  /** One clock of the shift register with input bit b. */
  function Clock(r: Register, b: bool): Register {
    if r[0] != b then AddLeading(r[1..] + [false], Generator()[1..]) else r[1..] + [false]
  }

  function Feed(r: Register, bits: seq<bool>): Register
    decreases |bits|
  {
    if bits == [] then r else Feed(Clock(r, bits[0]), bits[1..])
  }

  /** Division of the whole polynomial is what the shift register computes. */
  lemma {:induction false} AbsorbIsFeed(r: Register, bits: seq<bool>)
    ensures Absorb(r, bits) == Feed(r, bits)
    decreases |bits|
  {
    var p := AddLeading(bits + ZeroBits(32), r);
    if bits == [] {
      assert p == r;
    } else {
      var next := Clock(r, bits[0]);
      AbsorbIsFeed(next, bits[1..]);
      var rest := bits[1..] + ZeroBits(32);
      assert p[0] == (bits[0] != r[0]);
      var q := (if p[0] then AddLeading(p, Generator()) else p)[1..];
      assert q == AddLeading(rest, next) by {
        forall i | 0 <= i < |q|
          ensures q[i] == AddLeading(rest, next)[i]
        {
          assert rest[i] == (bits + ZeroBits(32))[i + 1];
        }
      }
    }
  }

  lemma {:induction false} FeedConcat(r: Register, a: seq<bool>, b: seq<bool>)
    ensures Feed(r, a + b) == Feed(Feed(r, a), b)
    decreases |a|
  {
    if a == [] {
      assert a + b == b;
    } else {
      FeedConcat(Clock(r, a[0]), a[1..], b);
      assert (a + b)[1..] == a[1..] + b;
    }
  }

  /** Dividing in pieces, feeding each remainder into the next piece, loses nothing. */
  lemma AbsorbConcat(r: Register, a: seq<bool>, b: seq<bool>)
    ensures Absorb(Absorb(r, a), b) == Absorb(r, a + b)
  {
    AbsorbIsFeed(r, a);
    AbsorbIsFeed(Absorb(r, a), b);
    AbsorbIsFeed(r, a + b);
    FeedConcat(r, a, b);
  }

  /** The textbook byte loop: add the byte to the register, then shift eight times. */
  function BytewiseFrom(r: Register, data: seq<byte>): Register
    decreases |data|
  {
    if data == [] then r
    else BytewiseFrom(Feed(AddLeading(r, Bits(data[0], 8)), ZeroBits(8)), data[1..])
  }

  lemma {:induction false} FeedPreloaded(r: Register, bits: seq<bool>)
    requires |bits| <= 32
    ensures Feed(AddLeading(r, bits), ZeroBits(|bits|)) == Feed(r, bits)
    decreases |bits|
  {
    if bits != [] {
      var loaded := AddLeading(r, bits);
      FeedPreloaded(Clock(r, bits[0]), bits[1..]);
      assert Clock(loaded, false) == AddLeading(Clock(r, bits[0]), bits[1..]);
      assert ZeroBits(|bits|)[1..] == ZeroBits(|bits[1..]|);
    } else {
      assert AddLeading(r, bits) == r;
    }
  }

  lemma {:induction false} BytewiseIsFeed(r: Register, data: seq<byte>)
    ensures BytewiseFrom(r, data) == Feed(r, MessageBits(data))
    decreases |data|
  {
    if data != [] {
      FeedPreloaded(r, Bits(data[0], 8));
      FeedConcat(r, Bits(data[0], 8), MessageBits(data[1..]));
      BytewiseIsFeed(Feed(r, Bits(data[0], 8)), data[1..]);
    }
  }

  /** One polynomial division, the bit loop and the byte loop give the same checksum. */
  lemma ThreeForms(data: seq<byte>)
    ensures Checksum(data) == BitsValue(Flip(Feed(Ones(), MessageBits(data))))
    ensures Checksum(data) == BitsValue(Flip(BytewiseFrom(Ones(), data)))
  {
    AbsorbIsFeed(Ones(), MessageBits(data));
    BytewiseIsFeed(Ones(), data);
  }

  // ---- The word-wise loop --------------------------------------------------

  /** Absorbing one more word keeps the register at the remainder of the prefix read. */
  lemma AbsorbWord(data: seq<byte>, pos: nat, size: nat)
    requires pos + size <= |data|
    ensures Crc32Instruction(Absorb(Ones(), MessageBits(data[..pos])), LeValue(data[pos..pos + size]), 8 * size)
         == Absorb(Ones(), MessageBits(data[..pos + size]))
  {
    hide Absorb, Bits;
    var word := data[pos..pos + size];
    WordBits(word);
    MessageBitsConcat(data[..pos], word);
    assert data[..pos] + word == data[..pos + size];
    AbsorbConcat(Ones(), MessageBits(data[..pos]), MessageBits(word));
  }

  lemma AbsorbNothing(r: Register)
    ensures Absorb(r, []) == r
  {
    AbsorbIsFeed(r, []);
  }

  method Compute(data: seq<byte>) returns (crc: nat)
    ensures crc == Checksum(data)
  {
    var register := Ones();
    var pos := 0;
    AbsorbNothing(Ones());
    while |data| - pos >= 8
      invariant 0 <= pos <= |data|
      invariant register == Absorb(Ones(), MessageBits(data[..pos]))
    {
      AbsorbWord(data, pos, 8);
      register := Crc32Instruction(register, LeValue(data[pos..pos + 8]), 64);
      pos := pos + 8;
    }
    while |data| - pos >= 4
      invariant 0 <= pos <= |data|
      invariant register == Absorb(Ones(), MessageBits(data[..pos]))
    {
      AbsorbWord(data, pos, 4);
      register := Crc32Instruction(register, LeValue(data[pos..pos + 4]), 32);
      pos := pos + 4;
    }
    while pos != |data|
      invariant 0 <= pos <= |data|
      invariant register == Absorb(Ones(), MessageBits(data[..pos]))
      decreases |data| - pos
    {
      AbsorbWord(data, pos, 1);
      assert LeValue(data[pos..pos + 1]) == data[pos];
      register := Crc32Instruction(register, data[pos], 8);
      pos := pos + 1;
    }
    assert data[..pos] == data;
    crc := BitsValue(Flip(register));
  }
}
