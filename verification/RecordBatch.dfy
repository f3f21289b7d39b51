/**
 Kafka record batches, walked as a chain (section 5.3.1, "Record Batch", of the
 Apache Kafka documentation): base offset at byte 0, batch length at 8, CRC at
 17, last offset delta at 23. The broker walks the same bytes twice, once to
 stamp offsets and CRCs and once to count records, with different loop guards.
 */
module RecordBatch {
  import opened Bytes
  import Crc32c

  /** Records in the batch that starts s, never less than one. */
  function BatchRecords(s: seq<byte>): (n: int)
    requires |s| >= 27
    ensures n >= 1
  {
    var delta := GetBe(s[23..27]);
    if delta + 1 > 1 then delta + 1 else 1
  }

  // ---- The counting walk ---------------------------------------------------

  /** Guard of the counting walk: a header of 27 bytes and a length that fits. */
  predicate Countable(s: seq<byte>) {
    |s| >= 27 && BeValue(s[8..12]) != 0 && BeValue(s[8..12]) + 12 <= |s|
  }

  function BatchSize(s: seq<byte>): (n: nat)
    requires |s| >= 12
    ensures n >= 12
  {
    BeValue(s[8..12]) + 12
  }

  function Walked(s: seq<byte>): (total: nat) {
    if !Countable(s) then 0 else BatchRecords(s) + Walked(s[BatchSize(s)..])
  }

  /** Offsets a record set occupies: at least one unless it is empty. */
  function RecordCount(s: seq<byte>): (n: nat)
    ensures n == 0 <==> s == []
  {
    if s == [] then 0 else if Walked(s) == 0 then 1 else Walked(s)
  }

  method EstimateRecordCount(records: seq<byte>) returns (count: nat)
    ensures count == RecordCount(records)
  {
    if records == [] {
      return 0;
    }
    var total := 0;
    var pos := 0;
    assert records[pos..] == records;
    while pos + 27 <= |records|
      invariant pos <= |records|
      invariant total + Walked(records[pos..]) == Walked(records)
      decreases |records| - pos
    {
      ghost var rest := records[pos..];
      assert records[pos + 8..pos + 12] == rest[8..12];
      var batchLength := BeValue(records[pos + 8..pos + 12]);
      var batchSize := batchLength + 12;
      if batchLength == 0 || pos + batchSize > |records| {
        break;
      }
      assert records[pos + 23..pos + 27] == rest[23..27];
      var lastOffsetDelta := GetBe(records[pos + 23..pos + 27]);
      total := total + if lastOffsetDelta + 1 > 1 then lastOffsetDelta + 1 else 1;
      pos := pos + batchSize;
      assert rest[batchSize..] == records[pos..];
    }
    assert !Countable(records[pos..]) by {
      assert pos + 27 <= |records| ==> records[pos..][8..12] == records[pos + 8..pos + 12];
    }
    count := if total == 0 then 1 else total;
  }

  // ---- The stamping walk ---------------------------------------------------

  /** Guard of the stamping walk: 57 bytes and a positive signed length that fits. */
  predicate Stampable(s: seq<byte>) {
    |s| >= 57 && GetBe(s[8..12]) > 0 && GetBe(s[8..12]) + 12 <= |s|
  }

  lemma StampableIsCountable(s: seq<byte>)
    requires Stampable(s)
    ensures Countable(s) && GetBe(s[8..12]) == BeValue(s[8..12])
  {
    GetBe4Range(s[8..12]);
  }

  /**
   Every batch the stamping walk visits reaches its CRC's first covered byte.
   Below this size the length handed to the CRC would wrap around.
   */
  predicate CrcInBounds(s: seq<byte>)
    decreases |s|
  {
    Stampable(s) ==>
      && StampedSize(s) >= 21
      && CrcInBounds(s[StampedSize(s)..])
  }

  function StampedSize(s: seq<byte>): (n: nat)
    requires Stampable(s)
    ensures 12 < n <= |s|
    ensures Countable(s) && n == BatchSize(s)
  {
    StampableIsCountable(s);
    GetBe(s[8..12]) + 12
  }

  /** One batch with its base offset and CRC fields replaced. */
  function Stamp(batch: seq<byte>, base: int): (t: seq<byte>)
    requires |batch| >= 21
    ensures |t| == |batch|
  {
    PutBe(base, 8) + batch[8..17] + PutBe(Crc32c.Checksum(batch[21..]), 4) + batch[21..]
  }

  function Rewrite(s: seq<byte>, base: int): (t: seq<byte>)
    requires CrcInBounds(s)
    ensures |t| == |s|
    decreases |s|
  {
    if !Stampable(s) then s
    else
      var n := StampedSize(s);
      Stamp(s[..n], base) + Rewrite(s[n..], base + BatchRecords(s))
  }

  /** Offsets the stamping walk hands out. */
  function Stamped(s: seq<byte>): (total: nat)
    decreases |s|
  {
    if !Stampable(s) then 0 else BatchRecords(s) + Stamped(s[StampedSize(s)..])
  }

  /** The bytes the stamping walk does not reach. */
  function Leftover(s: seq<byte>): (t: seq<byte>)
    ensures !Stampable(t) && |t| <= |s|
    decreases |s|
  {
    if !Stampable(s) then s else Leftover(s[StampedSize(s)..])
  }

  method WriteField(a: array<byte>, pos: nat, field: seq<byte>)
    requires pos + |field| <= a.Length
    modifies a
    ensures a[..] == PutAt(old(a[..]), pos, field)
  {
    for k := 0 to |field|
      invariant forall i :: 0 <= i < a.Length ==>
                              a[i] == if pos <= i < pos + k then field[i - pos] else old(a[i])
    {
      a[pos + k] := field[k];
    }
  }

  /** Writing the base moves neither the bytes the CRC covers nor the delta. */
  lemma BaseWritten(done: seq<byte>, rest: seq<byte>, n: nat, base: int)
    requires 21 <= n <= |rest| && |rest| >= 57
    ensures var s := PutAt(done + rest, |done|, PutBe(base, 8));
            && s[|done| + 21..|done| + n] == rest[..n][21..]
            && s == done + (PutBe(base, 8) + rest[8..])
  {
    var s := PutAt(done + rest, |done|, PutBe(base, 8));
    assert s == done + (PutBe(base, 8) + rest[8..]);
  }

  /** Both writes together are one stamp. */
  lemma BothWritten(done: seq<byte>, rest: seq<byte>, n: nat, base: int, crc: int)
    requires 21 <= n <= |rest| && |rest| >= 57
    requires crc == Crc32c.Checksum(rest[..n][21..])
    ensures var s := PutAt(done + (PutBe(base, 8) + rest[8..]), |done| + 17, PutBe(crc, 4));
            && s == (done + Stamp(rest[..n], base)) + rest[n..]
            && s[|done| + 23..|done| + 27] == rest[23..27]
  {
    var s := PutAt(done + (PutBe(base, 8) + rest[8..]), |done| + 17, PutBe(crc, 4));
    var flat := done + PutBe(base, 8) + rest[8..17] + PutBe(crc, 4) + rest[21..];
    assert s == flat;
    assert rest[..n][8..17] == rest[8..17] && rest[..n][21..] + rest[n..] == rest[21..];
    assert flat == (done + Stamp(rest[..n], base)) + rest[n..];
  }

  /** Body of the stamping loop: one batch, in place; returns the offsets it takes. */
  method StampInPlace(records: array<byte>, pos: nat, batchSize: nat, base: int,
                      ghost done: seq<byte>, ghost rest: seq<byte>)
    returns (taken: nat)
    requires records[..] == done + rest && |done| == pos
    requires Stampable(rest) && batchSize == StampedSize(rest) && batchSize >= 21
    modifies records
    ensures records[..] == (done + Stamp(rest[..batchSize], base)) + rest[batchSize..]
    ensures taken == BatchRecords(rest)
  {
    BaseWritten(done, rest, batchSize, base);
    WriteField(records, pos, PutBe(base, 8));
    ghost var mid := records[..];
    assert records[pos + 21..pos + batchSize] == mid[pos + 21..pos + batchSize];
    var crc := Crc32c.Compute(records[pos + 21..pos + batchSize]);
    BothWritten(done, rest, batchSize, base, crc);
    WriteField(records, pos + 17, PutBe(crc, 4));
    ghost var end := records[..];
    assert records[pos + 23..pos + 27] == end[pos + 23..pos + 27];
    var lastOffsetDelta := GetBe(records[pos + 23..pos + 27]);
    taken := if lastOffsetDelta + 1 > 1 then lastOffsetDelta + 1 else 1;
  }

  /** One turn of the stamping walk leaves the finished result unchanged. */
  lemma RewriteStep(done: seq<byte>, rest: seq<byte>, base: int)
    returns (done': seq<byte>, rest': seq<byte>, base': int)
    requires Stampable(rest) && StampedSize(rest) >= 21
    ensures done' == done + Stamp(rest[..StampedSize(rest)], base)
    ensures rest' == rest[StampedSize(rest)..] && (CrcInBounds(rest') <==> CrcInBounds(rest))
    ensures base' == base + BatchRecords(rest)
    ensures CrcInBounds(rest) ==> done' + Rewrite(rest', base') == done + Rewrite(rest, base)
  {
    hide Stamp, BatchRecords, Stampable, StampedSize;
    var stamp := Stamp(rest[..StampedSize(rest)], base);
    done', rest', base' := done + stamp, rest[StampedSize(rest)..], base + BatchRecords(rest);
    if CrcInBounds(rest) {
      assert Rewrite(rest, base) == stamp + Rewrite(rest', base');
      Regroup(done, stamp, Rewrite(rest', base'));
    }
  }

  lemma Regroup(x: seq<byte>, y: seq<byte>, z: seq<byte>)
    ensures (x + y) + z == x + (y + z)
  {
  }

  /**
   Stamp all batches in place. The result is false when a batch is too short for its checksum: there
   the source reads outside the buffer, and nothing is claimed of what follows.
   */
  method RewriteRecordBatchOffsets(records: array<byte>, baseOffset: int) returns (inside: bool)
    modifies records
    ensures inside <==> CrcInBounds(old(records[..]))
    ensures inside ==> records[..] == Rewrite(old(records[..]), baseOffset)
  {
    hide Rewrite, Stamp;
    var pos := 0;
    var nextBase := baseOffset;
    ghost var start := records[..];
    ghost var done, rest := [], start;
    assert CrcInBounds(start) ==> [] + Rewrite(start, baseOffset) == Rewrite(start, baseOffset);
    while pos + 57 <= records.Length
      invariant records[..] == done + rest && |done| == pos
      invariant CrcInBounds(rest) <==> CrcInBounds(start)
      invariant CrcInBounds(rest) ==> done + Rewrite(rest, nextBase) == Rewrite(start, baseOffset)
      decreases records.Length - pos
    {
      assert records[pos + 8..pos + 12] == (done + rest)[pos + 8..pos + 12] == rest[8..12];
      var batchLength := GetBe(records[pos + 8..pos + 12]);
      if batchLength <= 0 {
        break;
      }
      var batchSize := batchLength + 12;
      if pos + batchSize > records.Length {
        break;
      }
      if batchSize < 21 {
        return false;
      }
      ghost var done', rest', nextBase' := RewriteStep(done, rest, nextBase);
      var taken := StampInPlace(records, pos, batchSize, nextBase, done, rest);
      done, rest := done', rest';
      nextBase := nextBase + taken;
      assert nextBase == nextBase';
      pos := pos + batchSize;
    }
    assert !Stampable(rest) by {
      assert |rest| >= 57 ==> records[pos + 8..pos + 12] == (done + rest)[pos + 8..pos + 12] == rest[8..12];
    }
    RewriteNothing(rest, nextBase);
    return true;
  }

  lemma RewriteNothing(s: seq<byte>, base: int)
    requires !Stampable(s)
    ensures CrcInBounds(s) && Rewrite(s, base) == s
  {
  }
}
