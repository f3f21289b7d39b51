/**
 Fixed-width integer layouts shared by the on-disk format and the wire format.
 Bytes are integers in [0, 256); a stored integer wraps at its width, and a
 signed read uses two's complement.
 */
module Bytes {

  type byte = b: int | 0 <= b < 256

  /** 256^n, the number of values an n-byte field can hold. */
  function Pow256(n: nat): (p: nat)
    ensures p > 0
  {
    if n == 0 then 1 else 256 * Pow256(n - 1)
  }

  lemma Widths()
    ensures Pow256(1) == 0x100
    ensures Pow256(2) == 0x1_0000
    ensures Pow256(4) == 0x1_0000_0000
    ensures Pow256(8) == 0x1_0000_0000_0000_0000
  {
    assert Pow256(4) == 256 * (256 * Pow256(2));
    assert Pow256(8) == 256 * (256 * (256 * (256 * Pow256(4)))) by {
      assert Pow256(8) == 256 * Pow256(7);
      assert Pow256(7) == 256 * Pow256(6);
      assert Pow256(6) == 256 * Pow256(5);
      assert Pow256(5) == 256 * Pow256(4);
    }
  }

  /** Two's complement reading of an n-byte unsigned value. */
  function Signed(u: nat, n: nat): int {
    if 2 * u < Pow256(n) then u else u - Pow256(n)
  }

  predicate FitsSigned(v: int, n: nat) {
    0 <= 2 * v + Pow256(n) < 2 * Pow256(n)
  }

  /** The n-byte pattern of v, for v no further than one wrap below zero. */
  function Unsigned(v: int, n: nat): int {
    if v < 0 then v + Pow256(n) else v
  }

  // ---- Little endian (log and index files) ---------------------------------

  /** `put_i32` / `put_i64`: the low n bytes of v. */
  function PutLe(v: int, n: nat): (s: seq<byte>)
    ensures |s| == n
    decreases n, v
  {
    if n == 0 then [] else [v % 256] + PutLe(v / 256, n - 1)
  }

  function LeValue(s: seq<byte>): nat {
    if s == [] then 0 else s[0] + 256 * LeValue(s[1..])
  }

  /** `get_i32` / `get_i64`: the signed value of the whole field. */
  function GetLe(s: seq<byte>): int {
    Signed(LeValue(s), |s|)
  }

  lemma {:induction false} LePattern(v: int, n: nat)
    requires 0 <= v + Pow256(n) < 2 * Pow256(n)
    ensures LeValue(PutLe(v, n)) == Unsigned(v, n)
    decreases n, v
  {
    if n != 0 {
      LePattern(v / 256, n - 1);
      assert PutLe(v, n)[1..] == PutLe(v / 256, n - 1);
    }
  }

  lemma PutGetLe(v: int, n: nat)
    requires FitsSigned(v, n)
    ensures GetLe(PutLe(v, n)) == v
  {
    LePattern(v, n);
  }

  lemma {:induction false} LeValueBound(s: seq<byte>)
    ensures LeValue(s) < Pow256(|s|)
  {
    if s != [] {
      LeValueBound(s[1..]);
    }
  }

  /** A little-endian field is exactly what writing its unsigned or signed value gives. */
  lemma {:induction false} LeFieldOf(s: seq<byte>, negative: bool)
    ensures PutLe(LeValue(s) - (if negative then Pow256(|s|) else 0), |s|) == s
  {
    if s != [] {
      var first, rest, high := s[0], s[1..], if negative then Pow256(|s| - 1) else 0;
      LeFieldOf(rest, negative);
      var v := LeValue(s) - (if negative then Pow256(|s|) else 0);
      assert v == 256 * (LeValue(rest) - high) + first;
      assert v / 256 == LeValue(rest) - high && v % 256 == first;
      assert s == [first] + rest;
    }
  }

  /** A field reads as v exactly if it is the field of v. */
  lemma LeExact(s: seq<byte>, v: int)
    requires FitsSigned(v, |s|)
    ensures GetLe(s) == v <==> s == PutLe(v, |s|)
  {
    PutGetLe(v, |s|);
    hide PutLe, LeValue, Pow256;
    var negative := 2 * LeValue(s) >= Pow256(|s|);
    LeFieldOf(s, negative);
    assert GetLe(s) == LeValue(s) - (if negative then Pow256(|s|) else 0);
  }

  lemma LeUnsignedExact(s: seq<byte>, v: nat)
    requires v < Pow256(|s|)
    ensures GetLe(s) % Pow256(|s|) == v <==> s == PutLe(v, |s|)
  {
    LeValueBound(s);
    LePattern(v, |s|);
    hide PutLe, LeValue, Pow256;
    LeFieldOf(s, false);
    var n, u := Pow256(|s|), LeValue(s);
    assert GetLe(s) % n == u by {
      if 2 * u >= n {
        ModuloWrap(u, n);
      } else {
        ModuloSmall(u, n);
      }
    }
  }

  lemma ModuloSmall(u: nat, n: nat)
    requires u < n
    ensures u % n == u
  {
  }

  lemma ModuloWrap(u: nat, n: nat)
    requires 0 < n && u < n
    ensures (u - n) % n == u
  {
    var q, r := (u - n) / n, (u - n) % n;
    assert (q + 1) * n == u - r;
    ProductSign(q + 1, n);
  }

  lemma ProductSign(q: int, n: nat)
    ensures q >= 1 ==> q * n >= n
    ensures q <= -1 ==> q * n <= -1 * n
  {
  }

  lemma GetLeFits(s: seq<byte>)
    ensures FitsSigned(GetLe(s), |s|)
  {
    LeValueBound(s);
  }

  // ---- Big endian (Kafka record batches and RPC payloads) ------------------

  function PutBe(v: int, n: nat): (s: seq<byte>)
    ensures |s| == n
    decreases n, v
  {
    if n == 0 then [] else PutBe(v / 256, n - 1) + [v % 256]
  }

  function BeValue(s: seq<byte>): nat {
    if s == [] then 0 else 256 * BeValue(s[..|s| - 1]) + s[|s| - 1]
  }

  function GetBe(s: seq<byte>): int {
    Signed(BeValue(s), |s|)
  }

  lemma {:induction false} BePattern(v: int, n: nat)
    requires 0 <= v + Pow256(n) < 2 * Pow256(n)
    ensures BeValue(PutBe(v, n)) == Unsigned(v, n)
    decreases n, v
  {
    if n != 0 {
      BePattern(v / 256, n - 1);
      assert PutBe(v, n)[..n - 1] == PutBe(v / 256, n - 1);
    }
  }

  lemma PutGetBe(v: int, n: nat)
    requires FitsSigned(v, n)
    ensures GetBe(PutBe(v, n)) == v
  {
    BePattern(v, n);
  }

  lemma {:induction false} BeValueBound(s: seq<byte>)
    ensures BeValue(s) < Pow256(|s|)
  {
    if s != [] {
      BeValueBound(s[..|s| - 1]);
    }
  }

  lemma GetBe4Range(s: seq<byte>)
    requires |s| == 4
    ensures -0x8000_0000 <= GetBe(s) < 0x8000_0000
    ensures BeValue(s) < 0x1_0000_0000
    ensures GetBe(s) == if BeValue(s) < 0x8000_0000 then BeValue(s) else BeValue(s) - 0x1_0000_0000
  {
    Widths();
    BeValueBound(s);
  }

  /** A big-endian field is exactly what writing its unsigned or signed value gives. */
  lemma {:induction false} BeFieldOf(s: seq<byte>, negative: bool)
    ensures PutBe(BeValue(s) - (if negative then Pow256(|s|) else 0), |s|) == s
  {
    if s != [] {
      var n := |s| - 1;
      var front, last, high := s[..n], s[n], if negative then Pow256(n) else 0;
      BeFieldOf(front, negative);
      var v := BeValue(s) - (if negative then Pow256(|s|) else 0);
      assert v == 256 * (BeValue(front) - high) + last;
      assert v / 256 == BeValue(front) - high && v % 256 == last;
      assert s == front + [last];
    }
  }

  lemma GetPutBe(s: seq<byte>)
    ensures PutBe(GetBe(s), |s|) == s
  {
    hide PutBe, BeValue, Pow256;
    var negative := 2 * BeValue(s) >= Pow256(|s|);
    BeFieldOf(s, negative);
    assert GetBe(s) == BeValue(s) - (if negative then Pow256(|s|) else 0);
  }

  lemma GetBeFits(s: seq<byte>)
    ensures FitsSigned(GetBe(s), |s|)
  {
    BeValueBound(s);
  }

  // ---- Byte order ----------------------------------------------------------

  /** Byte i of v, counted from the least significant. */
  function ByteOf(v: int, i: nat): byte
    decreases i
  {
    if i == 0 then v % 256 else ByteOf(v / 256, i - 1)
  }

  /** Little endian puts the least significant byte first. */
  lemma {:induction false} LeOrder(v: int, n: nat, i: nat)
    requires i < n
    ensures PutLe(v, n)[i] == ByteOf(v, i)
    decreases n
  {
    if i > 0 {
      LeOrder(v / 256, n - 1, i - 1);
    }
  }

  /** Big endian puts it last. */
  lemma {:induction false} BeOrder(v: int, n: nat, i: nat)
    requires i < n
    ensures PutBe(v, n)[n - 1 - i] == ByteOf(v, i)
    decreases n
  {
    if i > 0 {
      BeOrder(v / 256, n - 1, i - 1);
      assert PutBe(v, n)[n - 1 - i] == PutBe(v / 256, n - 1)[n - 1 - i];
    }
  }

  // ---- Buffers -------------------------------------------------------------

  /** Smallest multiple of `alignment` that is at least `value`. */
  function RoundUp(value: nat, alignment: nat): (r: nat)
    requires alignment > 0
    ensures value <= r < value + alignment
    ensures value > 0 ==> r >= alignment
  {
    if value == 0 then 0
    else if value <= alignment then alignment
    else alignment + RoundUp(value - alignment, alignment)
  }

  /** The closed form the broker computes. */
  lemma {:induction false} RoundUpFormula(value: nat, alignment: nat)
    requires alignment > 0
    ensures RoundUp(value, alignment) == ((value + alignment - 1) / alignment) * alignment
    decreases value
  {
    if value > alignment {
      RoundUpFormula(value - alignment, alignment);
      AddOneQuotient(value - 1, alignment);
    } else if value > 0 {
      QuotientIs(value + alignment - 1, alignment, 1, value - 1);
    } else {
      QuotientIs(alignment - 1, alignment, 0, alignment - 1);
    }
  }

  lemma AddOneQuotient(x: nat, a: nat)
    requires a > 0
    ensures ((x + a) / a) * a == (x / a) * a + a
  {
    var q, r := x / a, x % a;
    assert (q + 1) * a == q * a + a;
    QuotientIs(x + a, a, q + 1, r);
  }

  lemma QuotientIs(x: nat, a: nat, q: nat, r: nat)
    requires r < a && x == q * a + r
    ensures x / a == q
  {
    DivisionUnique(a, q, r, x / a, x % a);
  }

  lemma DivisionUnique(a: nat, q: nat, r: nat, q': nat, r': nat)
    requires r < a && r' < a && q * a + r == q' * a + r'
    ensures q == q'
  {
    if q < q' {
      MulStep(q, q', a);
    } else if q' < q {
      MulStep(q', q, a);
    }
  }

  lemma MulStep(x: nat, y: nat, a: nat)
    requires x < y
    ensures x * a + a <= y * a
  {
    var d := y - x - 1;
    assert y * a == x * a + a + d * a;
  }

  function Zeros(n: nat): (s: seq<byte>)
    ensures |s| == n
  {
    seq(n, _ => 0)
  }

  /** `s` with the bytes at `pos` replaced by `field`. */
  function PutAt(s: seq<byte>, pos: nat, field: seq<byte>): (r: seq<byte>)
    requires pos + |field| <= |s|
    ensures |r| == |s|
  {
    s[..pos] + field + s[pos + |field|..]
  }

  /** The file after `data` is written at `pos`, filling any hole with zeros. */
  function WriteAt(file: seq<byte>, pos: nat, data: seq<byte>): (r: seq<byte>)
    ensures |r| >= pos + |data|
  {
    var head := if pos <= |file| then file[..pos] else file + Zeros(pos - |file|);
    var tail := if pos + |data| <= |file| then file[pos + |data|..] else [];
    head + data + tail
  }

  lemma SliceOfPrefix<T>(x: seq<T>, y: seq<T>, lo: nat, hi: nat)
    requires lo <= hi <= |x|
    ensures (x + y)[lo..hi] == x[lo..hi]
  {
  }

  lemma SliceOfSuffix<T>(x: seq<T>, y: seq<T>)
    ensures (x + y)[|x|..] == y && (x + y)[|x|..|x| + |y|] == y
  {
  }

  lemma SubSlice<T>(s: seq<T>, lo: nat, hi: nat, i: nat, j: nat)
    requires lo <= hi <= |s| && i <= j <= hi - lo
    ensures s[lo..hi][i..j] == s[lo + i..lo + j]
  {
    var left, right := s[lo..hi][i..j], s[lo + i..lo + j];
    assert forall k :: 0 <= k < |left| ==> left[k] == right[k];
  }
}
