/**
 What the two walks of RecordBatch guarantee together: on a well-formed chain
 the stamped offsets are exactly the counted ones, and on any bytes the exact
 condition under which the two walks agree.
 */
module RecordBatchProofs {
  import Crc32c
  import opened Bytes
  import opened RecordBatch

  /** Whole batches of at least 61 bytes that tile the buffer. */
  predicate WellFormed(s: seq<byte>)
    decreases |s|
  {
    s == [] ||
    (|s| >= 61 && GetBe(s[8..12]) >= 49 && GetBe(s[8..12]) + 12 <= |s| &&
     WellFormed(s[GetBe(s[8..12]) + 12..]))
  }

  lemma {:induction false} WellFormedIsSafe(s: seq<byte>)
    requires WellFormed(s)
    ensures CrcInBounds(s)
    decreases |s|
  {
    if s != [] {
      WellFormedIsSafe(s[StampedSize(s)..]);
    }
  }

  // ---- Agreement of the two walks ------------------------------------------

  /** The counting walk follows the stamping walk and then continues on what it left. */
  lemma {:induction false} CountedIsStampedPlusLeftover(s: seq<byte>)
    ensures Walked(s) == Stamped(s) + Walked(Leftover(s))
    decreases |s|
  {
    if Stampable(s) {
      CountedIsStampedPlusLeftover(s[StampedSize(s)..]);
    }
  }

  /** A batch too short for the stamping walk but long enough for the counting walk. */
  predicate ShortBatch(s: seq<byte>) {
    27 <= |s| < 57 && BeValue(s[8..12]) != 0 && BeValue(s[8..12]) + 12 <= |s|
  }

  lemma LeftoverCounts(t: seq<byte>)
    requires !Stampable(t) && |t| < 0x8000_0000
    ensures Walked(t) > 0 <==> ShortBatch(t)
  {
    if |t| >= 57 {
      GetBe4Range(t[8..12]);
    }
  }

  /**
   The offsets stamped into a record set are the offsets the log reserves for it
   exactly when the set is empty, or its first batch is stamped and what the
   stamping walk leaves is not a short batch.
   */
  lemma WalksAgreeIff(s: seq<byte>)
    requires |s| < 0x8000_0000
    ensures Stamped(s) == RecordCount(s) <==> s == [] || (Stampable(s) && !ShortBatch(Leftover(s)))
  {
    CountedIsStampedPlusLeftover(s);
    LeftoverCounts(Leftover(s));
  }

  /** A lone 40-byte batch is counted but never stamped. */
  lemma ShortBatchDisagrees()
    ensures exists s: seq<byte> :: |s| == 40 && Stamped(s) != RecordCount(s)
  {
    var s: seq<byte> := Zeros(11) + [28] + Zeros(28);
    assert s[8..12] == [0, 0, 0, 28];
    assert [0, 0, 0, 28][..3] == [0, 0, 0] && [0, 0, 0][..2] == [0, 0] && [0, 0][..1] == [0];
    assert BeValue(s[8..12]) == 28;
    assert Leftover(s) == s && ShortBatch(s);
    WalksAgreeIff(s);
  }

  lemma {:induction false} WellFormedWalk(s: seq<byte>)
    requires WellFormed(s)
    ensures Stamped(s) == Walked(s) == RecordCount(s)
    decreases |s|
  {
    if s != [] {
      assert Stampable(s);
      WellFormedWalk(s[StampedSize(s)..]);
    }
  }

  // ---- What the rewritten chain looks like ---------------------------------

  /** Batch bases read back from the chain start at b, follow each other, and end at e. */
  predicate BasesRun(s: seq<byte>, b: int, e: int)
    decreases |s|
  {
    if !Stampable(s) then b == e
    else GetBe(s[0..8]) == b && BasesRun(s[StampedSize(s)..], b + BatchRecords(s), e)
  }

  predicate CrcsMatch(s: seq<byte>)
    decreases |s|
  {
    Stampable(s) ==>
      && StampedSize(s) >= 21
      && BeValue(s[17..21]) == Crc32c.Checksum(s[21..StampedSize(s)])
      && CrcsMatch(s[StampedSize(s)..])
  }

  /** Position i lies in a base-offset or CRC field of some batch of the chain. */
  predicate InStampedField(s: seq<byte>, i: int)
    decreases |s|
  {
    Stampable(s) &&
    if i < StampedSize(s) then 0 <= i < 8 || 17 <= i < 21
    else InStampedField(s[StampedSize(s)..], i - StampedSize(s))
  }

  /** The fields of a freshly stamped batch followed by any bytes. */
  lemma StampedBatchFields(s: seq<byte>, base: int, tail: seq<byte>)
    requires Stampable(s) && StampedSize(s) >= 27
    ensures var t := Stamp(s[..StampedSize(s)], base) + tail;
            && t[0..8] == PutBe(base, 8)
            && t[8..17] == s[8..17]
            && t[17..21] == PutBe(Crc32c.Checksum(s[21..StampedSize(s)]), 4)
            && t[21..StampedSize(s)] == s[21..StampedSize(s)]
            && t[StampedSize(s)..] == tail
            && t[8..12] == s[8..12] && t[23..27] == s[23..27]
  {
    var n := StampedSize(s);
    var t := Stamp(s[..n], base) + tail;
    assert s[..n][8..17] == s[8..17] && s[..n][21..] == s[21..n];
    assert t[8..12] == t[8..17][..4] && s[8..12] == s[8..17][..4];
    assert t[23..27] == t[21..n][2..6] && s[23..27] == s[21..n][2..6];
  }

  /** Stamping keeps where the walks stop, how many records each batch has and its length. */
  lemma RewriteHead(s: seq<byte>, base: int)
    requires WellFormed(s) && s != [] && CrcInBounds(s)
    ensures var t, n := Rewrite(s, base), StampedSize(s);
            && Stampable(t) && StampedSize(t) == n && BatchRecords(t) == BatchRecords(s)
            && n >= 61 && WellFormed(s[n..])
            && t[n..] == Rewrite(s[n..], base + BatchRecords(s))
            && t[0..8] == PutBe(base, 8)
            && t[8..12] == s[8..12]
            && t[17..21] == PutBe(Crc32c.Checksum(s[21..n]), 4)
            && t[21..n] == s[21..n]
            && t[8..17] == s[8..17]
  {
    var n := StampedSize(s);
    StampedBatchFields(s, base, Rewrite(s[n..], base + BatchRecords(s)));
  }

  lemma {:induction false} RewriteKeepsCount(s: seq<byte>, base: int)
    requires WellFormed(s) && CrcInBounds(s)
    ensures WellFormed(Rewrite(s, base))
    ensures RecordCount(Rewrite(s, base)) == RecordCount(s)
    ensures Walked(Rewrite(s, base)) == Walked(s)
    decreases |s|
  {
    hide Stamp;
    if s != [] {
      RewriteHead(s, base);
      RewriteKeepsCount(s[StampedSize(s)..], base + BatchRecords(s));
    }
  }

  /**
   Main result of stamping: the chain's bases are consecutive from `base` and
   end exactly at base + count, and every stored CRC is the CRC of its batch.
   */
  lemma {:induction false} RewriteStamps(s: seq<byte>, base: int)
    requires WellFormed(s) && CrcInBounds(s)
    requires 0 <= base && base + RecordCount(s) < 0x8000_0000_0000_0000
    ensures BasesRun(Rewrite(s, base), base, base + RecordCount(s))
    ensures CrcsMatch(Rewrite(s, base))
    decreases |s|
  {
    hide Rewrite, Stamp, BatchRecords, Crc32c.Checksum, PutBe, Walked, RecordCount;
    WellFormedWalk(s);
    if s != [] {
      var n := StampedSize(s);
      RewriteHead(s, base);
      Widths();
      PutGetBe(base, 8);
      BePattern(Crc32c.Checksum(s[21..n]), 4);
      WellFormedWalk(s[n..]);
      RewriteStamps(s[n..], base + BatchRecords(s));
    }
  }

  /** Only base-offset and CRC bytes change, on any bytes the rewrite accepts. */
  lemma {:induction false} RewriteChangesOnlyFields(s: seq<byte>, base: int, i: nat)
    requires CrcInBounds(s) && i < |s|
    requires !InStampedField(s, i)
    ensures Rewrite(s, base)[i] == s[i]
    decreases |s|
  {
    if Stampable(s) && i >= StampedSize(s) {
      RewriteChangesOnlyFields(s[StampedSize(s)..], base + BatchRecords(s), i - StampedSize(s));
    }
  }

  lemma StampOverStamp(s: seq<byte>, t: seq<byte>, n: nat, c: int)
    requires 21 <= n <= |s| && n <= |t| && t[8..17] == s[8..17] && t[21..n] == s[21..n]
    ensures Stamp(t[..n], c) == Stamp(s[..n], c)
  {
    SubSlice(t, 0, n, 8, 17);
    SubSlice(s, 0, n, 8, 17);
    SubSlice(t, 0, n, 21, n);
    SubSlice(s, 0, n, 21, n);
    assert t[..n][21..] == t[..n][21..n] && s[..n][21..] == s[..n][21..n];
  }

  lemma RewriteUnfold(s: seq<byte>, base: int)
    requires CrcInBounds(s) && Stampable(s)
    ensures StampedSize(s) >= 21 && CrcInBounds(s[StampedSize(s)..])
    ensures Rewrite(s, base) == Stamp(s[..StampedSize(s)], base) + Rewrite(s[StampedSize(s)..], base + BatchRecords(s))
  {
  }

  /** The last rewrite wins: stamping at b and then at c is stamping at c. */
  lemma {:induction false} RewriteTwice(s: seq<byte>, b: int, c: int)
    requires WellFormed(s) && CrcInBounds(s) && CrcInBounds(Rewrite(s, b))
    ensures Rewrite(Rewrite(s, b), c) == Rewrite(s, c)
    decreases |s|
  {
    hide Rewrite, CrcInBounds, Stamp, BatchRecords;
    if s != [] {
      var n, t, k := StampedSize(s), Rewrite(s, b), BatchRecords(s);
      RewriteHead(s, b);
      RewriteUnfold(t, c);
      RewriteUnfold(s, c);
      StampOverStamp(s, t, n, c);
      RewriteTwice(s[n..], b + k, c + k);
    }
  }

  // ---- Concatenated chains -------------------------------------------------

  lemma ConcatHead(a: seq<byte>, b: seq<byte>)
    requires WellFormed(a) && a != []
    ensures var n := StampedSize(a);
            && Stampable(a + b) && StampedSize(a + b) == n
            && (a + b)[8..12] == a[8..12]
            && BatchRecords(a + b) == BatchRecords(a)
            && (a + b)[n..] == a[n..] + b
  {
    assert (a + b)[8..12] == a[8..12] && (a + b)[23..27] == a[23..27];
  }

  lemma {:induction false} WellFormedConcat(a: seq<byte>, b: seq<byte>)
    requires WellFormed(a) && WellFormed(b)
    ensures WellFormed(a + b)
    ensures Walked(a + b) == Walked(a) + Walked(b)
    decreases |a|
  {
    if a == [] {
      assert a + b == b;
    } else {
      ConcatHead(a, b);
      WellFormedConcat(a[StampedSize(a)..], b);
    }
  }

  /** Counts add over concatenated record sets. */
  lemma CountConcat(a: seq<byte>, b: seq<byte>)
    requires WellFormed(a) && WellFormed(b)
    ensures WellFormed(a + b)
    ensures RecordCount(a + b) == RecordCount(a) + RecordCount(b)
  {
    WellFormedConcat(a, b);
    WellFormedWalk(a);
    WellFormedWalk(b);
    WellFormedWalk(a + b);
  }

  /** The bytes the counting walk does not reach. */
  function Uncounted(s: seq<byte>): (t: seq<byte>)
    ensures !Countable(t)
    decreases |s|
  {
    if !Countable(s) then s else Uncounted(s[BatchSize(s)..])
  }

  /** The counting walk of a concatenation goes through the first part and on from what that leaves. */
  lemma {:induction false} WalkedConcat(a: seq<byte>, b: seq<byte>)
    ensures Walked(a + b) == Walked(a) + Walked(Uncounted(a) + b)
    decreases |a|
  {
    if Countable(a) {
      var n := BatchSize(a);
      assert (a + b)[8..12] == a[8..12] && (a + b)[23..27] == a[23..27];
      assert (a + b)[n..] == a[n..] + b;
      WalkedConcat(a[n..], b);
    }
  }

  /**
   Exactly when counts add, for any bytes. From what the first part leaves
   uncounted, the walk over the second must find its count, and one more where the
   first part held no batch and was counted as one.
   */
  lemma CountConcatIff(a: seq<byte>, b: seq<byte>)
    ensures RecordCount(a + b) == RecordCount(a) + RecordCount(b)
       <==> a == [] || b == []
            || Walked(Uncounted(a) + b) == RecordCount(b) + if Countable(a) then 0 else 1
  {
    if a == [] {
      assert a + b == b;
    } else if b == [] {
      assert a + b == a;
    } else {
      WalkedConcat(a, b);
      assert Countable(a) <==> Walked(a) > 0;
    }
  }

  /** Behind batches that tile their buffer, counts add exactly for sets that begin with a batch. */
  lemma TiledConcatIff(a: seq<byte>, b: seq<byte>)
    requires a != [] && Uncounted(a) == []
    ensures RecordCount(a + b) == RecordCount(a) + RecordCount(b) <==> b == [] || Countable(b)
  {
    CountConcatIff(a, b);
    assert [] + b == b;
    assert Countable(a);
  }

  /** Two sets too short for a header count one each and one together. */
  lemma ShortSetsDoNotAdd()
    ensures var a, b := Zeros(10), Zeros(10);
            RecordCount(a) == RecordCount(b) == 1 && RecordCount(a + b) == 1
  {
  }

  // ---- Reading for the checksum ---------------------------------------------

  const SIZE_MODULUS := 0x1_0000_0000_0000_0000

  /**
   What the source reads for each checksum it takes: from byte 21 of the batch, as many bytes as the
   64-bit difference of batch size and 21 says. All of it lies inside the buffer.
   */
  predicate ReadsInside(s: seq<byte>)
    decreases |s|
  {
    Stampable(s) ==>
      && 21 + (StampedSize(s) - 21) % SIZE_MODULUS <= |s|
      && ReadsInside(s[StampedSize(s)..])
  }

  /** The wrapped reads stay inside the buffer if and only if no batch is below 21 bytes. */
  lemma {:induction false} ReadsInsideIff(s: seq<byte>)
    requires |s| < SIZE_MODULUS / 2
    ensures ReadsInside(s) <==> CrcInBounds(s)
    decreases |s|
  {
    if Stampable(s) {
      var n := StampedSize(s);
      ReadsInsideIff(s[n..]);
      if n < 21 {
        assert (n - 21) % SIZE_MODULUS == n - 21 + SIZE_MODULUS;
      } else {
        assert (n - 21) % SIZE_MODULUS == n - 21;
      }
    }
  }

  /** A 57-byte buffer whose first length field is 1 is stamped, and its checksum read leaves the buffer. */
  lemma ShortBatchReadsOutside()
    ensures var s := Zeros(11) + [1] + Zeros(45);
            |s| == 57 && Stampable(s) && !CrcInBounds(s) && !ReadsInside(s)
  {
    var s := Zeros(11) + [1] + Zeros(45);
    assert s[8..12] == [0, 0, 0, 1];
    assert GetBe(s[8..12]) == 1 by {
      var w: seq<byte> := [0, 0, 0, 1];
      assert w[..3] == [0, 0, 0] && [0, 0, 0][..2] == [0, 0] && [0, 0][..1] == [0];
      assert BeValue([0]) == 0 && BeValue([0, 0]) == 0 && BeValue([0, 0, 0]) == 0;
      assert BeValue(w) == 1;
      Widths();
    }
    ReadsInsideIff(s);
  }
}
