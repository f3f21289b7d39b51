/**
 The wire reader and writer: big-endian integers, unsigned varints, and strings
 and byte arrays with a length in front. Each method is tied to a function on
 the bytes still unread, or on the bytes written.
 */
module Wire {
  import opened Bytes
  import opened Wrappers

  type int16 = v: int | -0x8000 <= v < 0x8000
  type int32 = v: int | -0x8000_0000 <= v < 0x8000_0000
  type int64 = v: int | -0x8000_0000_0000_0000 <= v < 0x8000_0000_0000_0000
  type uint32 = v: int | 0 <= v < 0x1_0000_0000

  const MAX_STRING: nat := 32767

  datatype WireError = Ended | VarintTooLarge | NullString | NullBytes | StringTooLarge

  /** A value and the bytes after it. */
  type Parse<T> = Result<(T, seq<byte>), WireError>

  // ---- What the reader recognises -------------------------------------------

  function TakeRaw(s: seq<byte>, n: nat): Parse<seq<byte>> {
    if n > |s| then Err(Ended) else Ok((s[..n], s[n..]))
  }

  function TakeInt(s: seq<byte>, n: nat): Parse<int> {
    if n > |s| then Err(Ended) else Ok((GetBe(s[..n]), s[n..]))
  }

  /** Base 128, least significant digit first, at most `budget` digits. */
  function TakeVarint(s: seq<byte>, budget: nat): Parse<nat>
    decreases budget, |s|
  {
    if budget == 0 then Err(VarintTooLarge)
    else if s == [] then Err(Ended)
    else if s[0] < 128 then Ok((s[0], s[1..]))
    else
      var more :- TakeVarint(s[1..], budget - 1);
      Ok((s[0] - 128 + 128 * more.0, more.1))
  }

  function TakeString(s: seq<byte>): Parse<seq<byte>> {
    var size :- TakeInt(s, 2);
    if size.0 < 0 then Err(NullString) else TakeRaw(size.1, size.0)
  }

  function TakeBytes(s: seq<byte>): Parse<seq<byte>> {
    var size :- TakeInt(s, 4);
    if size.0 < 0 then Err(NullBytes) else TakeRaw(size.1, size.0)
  }

  function TakeCompactString(s: seq<byte>): Parse<seq<byte>> {
    var size :- TakeVarint(s, 5);
    var plusOne := size.0 % 0x1_0000_0000;
    if plusOne == 0 then Err(NullString) else TakeRaw(size.1, plusOne - 1)
  }

  // ---- What the writer produces ---------------------------------------------

  function VarintBytes(v: nat): seq<byte> {
    if v < 128 then [v] else [v % 128 + 128] + VarintBytes(v / 128)
  }

  function StringBytes(v: seq<byte>): seq<byte> {
    PutBe(|v|, 2) + v
  }

  /** The length wraps at 32 bits. */
  function BytesBytes(v: seq<byte>): seq<byte> {
    PutBe(|v|, 4) + v
  }

  function CompactStringBytes(v: seq<byte>): seq<byte> {
    VarintBytes((|v| + 1) % 0x1_0000_0000) + v
  }

  // ---- Each field reads back, and nothing else reads as it ------------------

  /** Reading an integer succeeds with `v` exactly on its n bytes followed by the rest. */
  lemma IntExact(s: seq<byte>, n: nat, v: int, rest: seq<byte>)
    requires FitsSigned(v, n)
    ensures TakeInt(s, n) == Ok((v, rest)) <==> s == PutBe(v, n) + rest
  {
    if s == PutBe(v, n) + rest {
      PutGetBe(v, n);
      assert s[..n] == PutBe(v, n) && s[n..] == rest;
    }
    if TakeInt(s, n) == Ok((v, rest)) {
      GetPutBe(s[..n]);
      assert s == s[..n] + s[n..];
    }
  }

  lemma RawExact(s: seq<byte>, v: seq<byte>, rest: seq<byte>)
    ensures TakeRaw(s, |v|) == Ok((v, rest)) <==> s == v + rest
  {
    if |v| <= |s| {
      assert s == s[..|v|] + s[|v|..];
    }
    if s == v + rest {
      assert s[..|v|] == v && s[|v|..] == rest;
    }
  }

  lemma SizeFits(n: nat)
    ensures FitsSigned(n, 2) <==> n <= MAX_STRING
    ensures FitsSigned(n, 4) <==> n < 0x8000_0000
  {
    Widths();
  }

  /** A string reads back exactly if it fits its 16-bit length. */
  lemma StringExact(s: seq<byte>, v: seq<byte>, rest: seq<byte>)
    ensures TakeString(s) == Ok((v, rest)) <==> |v| <= MAX_STRING && s == StringBytes(v) + rest
  {
    SizeFits(|v|);
    if |v| <= MAX_STRING {
      IntExact(s, 2, |v|, v + rest);
      RawExact(v + rest, v, rest);
      assert StringBytes(v) + rest == PutBe(|v|, 2) + (v + rest);
    }
    if TakeString(s) == Ok((v, rest)) {
      var tail := s[2..];
      GetBeFits(s[..2]);
      assert GetBe(s[..2]) == |v|;
      RawExact(tail, v, rest);
    }
  }

  /** A byte array reads back exactly if its length is below 2^31. */
  lemma BytesExact(s: seq<byte>, v: seq<byte>, rest: seq<byte>)
    ensures TakeBytes(s) == Ok((v, rest)) <==> |v| < 0x8000_0000 && s == BytesBytes(v) + rest
  {
    SizeFits(|v|);
    if |v| < 0x8000_0000 {
      IntExact(s, 4, |v|, v + rest);
      RawExact(v + rest, v, rest);
      assert BytesBytes(v) + rest == PutBe(|v|, 4) + (v + rest);
    }
    if TakeBytes(s) == Ok((v, rest)) {
      var tail := s[4..];
      GetBeFits(s[..4]);
      assert GetBe(s[..4]) == |v|;
      RawExact(tail, v, rest);
    }
  }

  function Pow128(n: nat): nat {
    if n == 0 then 1 else 128 * Pow128(n - 1)
  }

  /** A value below 128^n takes at most n bytes and reads back within that budget. */
  lemma {:induction false} VarintRoundTrip(v: nat, n: nat, rest: seq<byte>)
    requires 0 < n && v < Pow128(n)
    ensures |VarintBytes(v)| <= n
    ensures TakeVarint(VarintBytes(v) + rest, n) == Ok((v, rest))
    decreases n
  {
    if v < 128 {
      assert ([v] + rest)[1..] == rest;
    } else {
      VarintRoundTrip(v / 128, n - 1, rest);
      assert (VarintBytes(v) + rest)[1..] == VarintBytes(v / 128) + rest;
    }
  }

  /** Every 32-bit value is written in at most five bytes and read back exactly. */
  lemma Varint32(v: uint32, rest: seq<byte>)
    ensures 1 <= |VarintBytes(v)| <= 5
    ensures TakeVarint(VarintBytes(v) + rest, 5) == Ok((v, rest))
  {
    assert Pow128(5) == 0x8_0000_0000 by {
      assert Pow128(2) == 128 * Pow128(1);
      assert Pow128(5) == 128 * (128 * (128 * Pow128(2)));
    }
    VarintRoundTrip(v, 5, rest);
  }

  /** Seven bits a byte, the least significant first, the top bit set on all but the last: 300 is 0xAC 0x02. */
  lemma VarintKnown()
    ensures VarintBytes(0) == [0x00] && VarintBytes(127) == [0x7F] && VarintBytes(128) == [0x80, 0x01]
    ensures VarintBytes(300) == [0xAC, 0x02]
  {
    assert VarintBytes(300 / 128) == [2] && VarintBytes(128 / 128) == [1];
  }

  /** A compact string reads back if its length plus one fits 32 bits. */
  lemma CompactStringRoundTrip(v: seq<byte>, rest: seq<byte>)
    requires |v| + 1 < 0x1_0000_0000
    ensures TakeCompactString(CompactStringBytes(v) + rest) == Ok((v, rest))
  {
    Varint32(|v| + 1, v + rest);
    assert CompactStringBytes(v) + rest == VarintBytes(|v| + 1) + (v + rest);
    RawExact(v + rest, v, rest);
  }

  // ---- Reader and writer ----------------------------------------------------

  /** v shifted right by k bytes. */
  function Shr(v: int, k: nat): int
    decreases k, v
  {
    if k == 0 then v else Shr(v / 256, k - 1)
  }

  lemma {:induction false} ShrStep(v: int, k: nat)
    ensures Shr(v, k + 1) == Shr(v, k) / 256
    decreases k, v
  {
    if k > 0 {
      ShrStep(v / 256, k - 1);
    }
  }

  class WireWriter {
    var data: seq<byte>

    constructor ()
      ensures data == []
    {
      data := [];
    }

    /** An n-byte integer, most significant byte first. */
    method WriteInt(v: int, n: nat)
      modifies this
      ensures data == old(data) + PutBe(v, n)
    {
      var i := 0;
      while i < n
        invariant 0 <= i <= n
        invariant data == old(data) + PutBe(Shr(v, n - i), i)
      {
        var high := Shr(v, n - i - 1);
        ShrStep(v, n - i - 1);
        assert PutBe(high, i + 1) == PutBe(high / 256, i) + [high % 256];
        data := data + [high % 256];
        i := i + 1;
      }
    }

    method WriteRaw(v: seq<byte>)
      modifies this
      ensures data == old(data) + v
    {
      data := data + v;
    }

    method WriteUnsignedVarint(v: uint32)
      modifies this
      ensures data == old(data) + VarintBytes(v)
    {
      var value: nat := v;
      assert data + VarintBytes(value) == old(data) + VarintBytes(v);
      while value >= 128
        invariant data + VarintBytes(value) == old(data) + VarintBytes(v)
      {
        assert data + VarintBytes(value) == data + [value % 128 + 128] + VarintBytes(value / 128);
        data := data + [value % 128 + 128];
        value := value / 128;
      }
      data := data + [value];
    }

    /** Fails, and writes nothing, above the 16-bit length limit. */
    method WriteString(v: seq<byte>) returns (r: Result<(), WireError>)
      modifies this
      ensures r == if |v| > MAX_STRING then Err(StringTooLarge) else Ok(())
      ensures data == if |v| > MAX_STRING then old(data) else old(data) + StringBytes(v)
    {
      if |v| > MAX_STRING {
        return Err(StringTooLarge);
      }
      WriteInt(|v|, 2);
      WriteRaw(v);
      return Ok(());
    }

    method WriteBytes(v: seq<byte>)
      modifies this
      ensures data == old(data) + BytesBytes(v)
    {
      WriteInt(|v|, 4);
      WriteRaw(v);
    }

    method WriteCompactString(v: seq<byte>)
      modifies this
      ensures data == old(data) + CompactStringBytes(v)
    {
      WriteUnsignedVarint((|v| + 1) % 0x1_0000_0000);
      WriteRaw(v);
    }
  }

  class WireReader {
    const data: seq<byte>
    var pos: nat

    ghost predicate Valid()
      reads this
    {
      pos <= |data|
    }

    /** The bytes not read yet. */
    ghost function Unread(): seq<byte>
      requires Valid()
      reads this
    {
      data[pos..]
    }

    /** What a read that parses as `p` leaves and returns. */
    ghost predicate Reads<T>(p: Parse<T>, r: Result<T, WireError>)
      requires Valid()
      reads this
    {
      match p
      case Ok(v) => r == Ok(v.0) && Unread() == v.1
      case Err(e) => r == Err(e)
    }

    constructor (data: seq<byte>)
      ensures Valid() && this.data == data && Unread() == data
    {
      this.data, pos := data, 0;
    }

    method ReadRaw(n: nat) returns (r: Result<seq<byte>, WireError>)
      requires Valid()
      modifies this
      ensures Valid() && Reads(TakeRaw(old(Unread()), n), r)
    {
      if n > |data| - pos {
        return Err(Ended);
      }
      r := Ok(data[pos..pos + n]);
      pos := pos + n;
      assert old(Unread())[..n] == data[old(pos)..pos] && old(Unread())[n..] == Unread();
    }

    /** An n-byte big-endian two's complement integer. */
    method ReadInt(n: nat) returns (r: Result<int, WireError>)
      requires Valid()
      modifies this
      ensures Valid() && Reads(TakeInt(old(Unread()), n), r)
    {
      if n > |data| - pos {
        return Err(Ended);
      }
      var value: nat, i := 0, 0;
      while i < n
        invariant 0 <= i <= n && pos == old(pos)
        invariant value == BeValue(data[pos..pos + i])
      {
        assert data[pos..pos + i + 1][..i] == data[pos..pos + i];
        value := 256 * value + data[pos + i];
        i := i + 1;
      }
      assert data[pos..pos + n] == Unread()[..n];
      r := Ok(Signed(value, n));
      pos := pos + n;
    }

    /** At most five digits; the shifted value wraps at 32 bits. */
    method ReadUnsignedVarint() returns (r: Result<uint32, WireError>)
      requires Valid()
      modifies this
      ensures Valid()
      ensures match TakeVarint(old(Unread()), 5)
              case Ok(v) => r == Ok(v.0 % 0x1_0000_0000) && Unread() == v.1
              case Err(e) => r == Err(e)
    {
      hide TakeVarint, VarintSoFar, Digit;
      ghost var start := Unread();
      VarintStart(start);
      var value: nat, i := 0, 0;
      while i < 5
        invariant 0 <= i <= 5 && Valid()
        invariant VarintSoFar(start, Unread(), value, i)
      {
        ghost var left := Unread();
        VarintStep(start, left, value, i);
        if pos == |data| {
          return Err(Ended);
        }
        var b := data[pos];
        pos := pos + 1;
        assert Unread() == left[1..];
        if b < 128 {
          return Ok((value + Digit(b, i)) % 0x1_0000_0000);
        }
        value := value + Digit(b - 128, i);
        i := i + 1;
      }
      VarintOver(start, Unread(), value);
      return Err(VarintTooLarge);
    }

    method ReadString() returns (r: Result<seq<byte>, WireError>)
      requires Valid()
      modifies this
      ensures Valid() && Reads(TakeString(old(Unread())), r)
    {
      var size :- ReadInt(2);
      if size < 0 {
        return Err(NullString);
      }
      r := ReadRaw(size);
    }

    method ReadBytes() returns (r: Result<seq<byte>, WireError>)
      requires Valid()
      modifies this
      ensures Valid() && Reads(TakeBytes(old(Unread())), r)
    {
      var size :- ReadInt(4);
      if size < 0 {
        return Err(NullBytes);
      }
      r := ReadRaw(size);
    }

    method ReadCompactString() returns (r: Result<seq<byte>, WireError>)
      requires Valid()
      modifies this
      ensures Valid() && Reads(TakeCompactString(old(Unread())), r)
    {
      var plusOne :- ReadUnsignedVarint();
      if plusOne == 0 {
        return Err(NullString);
      }
      r := ReadRaw(plusOne - 1);
    }
  }

  /** A base-128 digit at its place. */
  function Digit(d: nat, i: nat): nat {
    d * Pow128(i)
  }

  /** After i digits, the whole varint is what was gathered plus 128^i times what follows. */
  ghost predicate VarintSoFar(start: seq<byte>, left: seq<byte>, value: nat, i: nat) {
    i <= 5 &&
    match TakeVarint(left, 5 - i)
    case Ok(v) => TakeVarint(start, 5) == Ok((value + Digit(v.0, i), v.1))
    case Err(e) => TakeVarint(start, 5) == Err(e)
  }

  lemma VarintStart(start: seq<byte>)
    ensures VarintSoFar(start, start, 0, 0)
  {
    hide TakeVarint;
    assert TakeVarint(start, 5 - 0) == TakeVarint(start, 5);
  }

  /** What the next byte decides. */
  lemma VarintStep(start: seq<byte>, left: seq<byte>, value: nat, i: nat)
    requires i < 5 && VarintSoFar(start, left, value, i)
    ensures left == [] ==> TakeVarint(start, 5) == Err(Ended)
    ensures left != [] && left[0] < 128 ==> TakeVarint(start, 5) == Ok((value + Digit(left[0], i), left[1..]))
    ensures left != [] && left[0] >= 128 ==> VarintSoFar(start, left[1..], value + Digit(left[0] - 128, i), i + 1)
  {
    hide TakeVarint;
    VarintFirst(left, 5 - i);
    assert 5 - i - 1 == 5 - (i + 1);
    if left != [] && left[0] >= 128 {
      var more := TakeVarint(left[1..], 5 - (i + 1));
      if more.Ok? {
        Digits(left[0] - 128, more.value.0, i);
      }
    }
  }

  lemma VarintOver(start: seq<byte>, left: seq<byte>, value: nat)
    requires VarintSoFar(start, left, value, 5)
    ensures TakeVarint(start, 5) == Err(VarintTooLarge)
  {
    VarintFirst(left, 0);
    hide TakeVarint;
    assert TakeVarint(left, 5 - 5) == TakeVarint(left, 0);
  }

  lemma VarintFirst(s: seq<byte>, budget: nat)
    ensures budget == 0 ==> TakeVarint(s, budget) == Err(VarintTooLarge)
    ensures budget > 0 && s == [] ==> TakeVarint(s, budget) == Err(Ended)
    ensures budget > 0 && s != [] && s[0] < 128 ==> TakeVarint(s, budget) == Ok((s[0], s[1..]))
    ensures budget > 0 && s != [] && s[0] >= 128 ==>
              var more := TakeVarint(s[1..], budget - 1);
              TakeVarint(s, budget)
              == if more.Ok? then Ok((s[0] - 128 + 128 * more.value.0, more.value.1)) else Err(more.error)
  {
  }

  lemma Digits(d: nat, m: nat, i: nat)
    ensures Digit(d + 128 * m, i) == Digit(d, i) + Digit(m, i + 1)
  {
    var p := Pow128(i);
    assert (d + 128 * m) * p == d * p + (128 * m) * p;
    assert (128 * m) * p == m * (128 * p);
  }
}
