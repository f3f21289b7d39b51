/**
 Record batches described from outside: a batch is its offset delta and the bytes
 around its fields, a record set the batches laid out one after the other. What the
 two walks count and stamp is stated in terms of that description.
 */
module BatchChain {
  import Crc32c
  import opened Bytes
  import opened RecordBatch
  import opened RecordBatchProofs

  /**
   `lead` is the base offset field, `epoch` bytes 12 to 17, `crc` the checksum field,
   `attributes` bytes 21 to 23, `delta` the last offset delta, `body` the rest.
   */
  datatype Batch = Batch(lead: seq<byte>, epoch: seq<byte>, crc: seq<byte>, attributes: seq<byte>,
                         delta: int, body: seq<byte>)

  predicate BatchOk(b: Batch) {
    && |b.lead| == 8 && |b.epoch| == 5 && |b.crc| == 4 && |b.attributes| == 2
    && -0x8000_0000 <= b.delta < 0x8000_0000 && |b.body| + 15 < 0x8000_0000
  }

  /** What the checksum covers. */
  function Covered(b: Batch): seq<byte> {
    b.attributes + PutBe(b.delta, 4) + b.body
  }

  /** The bytes of a batch; its length field counts from byte 12 on. */
  function BatchBytes(b: Batch): seq<byte> {
    b.lead + PutBe(|b.body| + 15, 4) + b.epoch + b.crc + Covered(b)
  }

  function ChainBytes(bs: seq<Batch>): seq<byte> {
    if bs == [] then [] else BatchBytes(bs[0]) + ChainBytes(bs[1..])
  }

  /** Offsets of one batch: up to and including its last delta, at least one. */
  function Records(b: Batch): nat {
    if b.delta >= 0 then b.delta + 1 else 1
  }

  function TotalRecords(bs: seq<Batch>): nat {
    if bs == [] then 0 else Records(bs[0]) + TotalRecords(bs[1..])
  }

  ghost predicate ChainOk(bs: seq<Batch>) {
    forall i :: 0 <= i < |bs| ==> BatchOk(bs[i])
  }

  // ---- One batch, followed by anything ------------------------------------------

  lemma Fields(b: Batch, tail: seq<byte>)
    requires BatchOk(b)
    ensures var s := BatchBytes(b) + tail;
            && |BatchBytes(b)| == 27 + |b.body|
            && s[8..12] == PutBe(|b.body| + 15, 4) && s[23..27] == PutBe(b.delta, 4)
            && s[27 + |b.body|..] == tail && s[..27 + |b.body|] == BatchBytes(b)
            && BatchBytes(b)[8..17] == PutBe(|b.body| + 15, 4) + b.epoch && BatchBytes(b)[21..] == Covered(b)
  {
    hide PutBe;
  }

  /** The walks read length and delta as described, and go on right behind the batch. */
  lemma ReadsBatch(b: Batch, tail: seq<byte>)
    requires BatchOk(b)
    ensures var s, n := BatchBytes(b) + tail, 27 + |b.body|;
            && |s| == n + |tail| && s[n..] == tail
            && Countable(s) && BatchSize(s) == n && BatchRecords(s) == Records(b)
            && (Stampable(s) <==> |s| >= 57) && (Stampable(s) ==> StampedSize(s) == n)
  {
    var s := BatchBytes(b) + tail;
    Fields(b, tail);
    hide PutBe, BatchBytes, GetBe, BeValue;
    LengthReads(|b.body| + 15);
    DeltaReads(b.delta);
  }

  lemma LengthReads(n: nat)
    requires n < 0x8000_0000
    ensures BeValue(PutBe(n, 4)) == n && GetBe(PutBe(n, 4)) == n
  {
    Widths();
    PutGetBe(n, 4);
    BePattern(n, 4);
  }

  lemma DeltaReads(d: int)
    requires -0x8000_0000 <= d < 0x8000_0000
    ensures GetBe(PutBe(d, 4)) == d
  {
    Widths();
    PutGetBe(d, 4);
  }

  // ---- Counting and stamping a chain ----------------------------------------------

  /** The counting walk finds every batch and adds up what the deltas say. */
  lemma {:induction false} ChainCount(bs: seq<Batch>)
    requires ChainOk(bs)
    ensures Walked(ChainBytes(bs)) == TotalRecords(bs) && RecordCount(ChainBytes(bs)) == TotalRecords(bs)
    ensures |ChainBytes(bs)| >= 27 * |bs|
  {
    hide BatchBytes, Records, BatchRecords, BatchSize;
    if bs != [] {
      ReadsBatch(bs[0], ChainBytes(bs[1..]));
      ChainCount(bs[1..]);
      assert Records(bs[0]) >= 1 by { AtLeastOne(bs[0]); }
    }
  }

  lemma AtLeastOne(b: Batch)
    ensures Records(b) >= 1
  {
  }

  /** The stamping walk hands out the same offsets, as long as 57 bytes are left. */
  lemma {:induction false} ChainStamped(bs: seq<Batch>)
    requires ChainOk(bs)
    ensures bs == [] || |ChainBytes(bs)| < 57 ==> Stamped(ChainBytes(bs)) == 0
    ensures bs != [] && |ChainBytes(bs)| >= 57 ==>
              Stamped(ChainBytes(bs)) == Records(bs[0]) + Stamped(ChainBytes(bs[1..]))
  {
    hide BatchBytes, Records, BatchRecords;
    if bs != [] {
      ReadsBatch(bs[0], ChainBytes(bs[1..]));
    }
  }

  /** Shorter than its header a set holds no batch for either walk. */
  lemma TooShort(s: seq<byte>)
    ensures |s| < 27 ==> Walked(s) == 0
    ensures |s| < 57 ==> Stamped(s) == 0
  {
  }

  /** A single batch is stamped exactly from 57 bytes on, and counted always. */
  lemma OneBatch(b: Batch)
    requires BatchOk(b)
    ensures Walked(ChainBytes([b])) == Records(b)
    ensures Stamped(ChainBytes([b])) == if 27 + |b.body| >= 57 then Records(b) else 0
  {
    hide BatchBytes, Records;
    ChainCount([b]);
    ChainStamped([b]);
    assert [b][1..] == [] && ChainBytes([]) == [];
    ReadsBatch(b, []);
    assert BatchBytes(b) + [] == BatchBytes(b);
    TooShort([]);
  }

  // ---- The stamped chain -------------------------------------------------------------

  /** Every batch is long enough to be stamped wherever it stands. */
  ghost predicate Stampables(bs: seq<Batch>) {
    ChainOk(bs) && forall i :: 0 <= i < |bs| ==> |bs[i].body| >= 34
  }

  /** A batch with its base offset and checksum fields as they should be. */
  function Restamp(b: Batch, base: int): Batch {
    b.(lead := PutBe(base, 8), crc := PutBe(Crc32c.Checksum(Covered(b)), 4))
  }

  /** The offset at which batch i starts. */
  function BaseOf(bs: seq<Batch>, base: int, i: nat): int
    requires i <= |bs|
  {
    base + TotalRecords(bs[..i])
  }

  function Restamps(bs: seq<Batch>, base: int): (r: seq<Batch>)
    ensures |r| == |bs|
  {
    if bs == [] then [] else [Restamp(bs[0], base)] + Restamps(bs[1..], base + Records(bs[0]))
  }

  lemma StampIsRestamp(b: Batch, base: int)
    requires BatchOk(b)
    ensures |BatchBytes(b)| >= 21 && Stamp(BatchBytes(b), base) == BatchBytes(Restamp(b, base))
  {
    Fields(b, []);
    hide PutBe;
    assert BatchBytes(b) + [] == BatchBytes(b);
    assert PutBe(base, 8) + (PutBe(|b.body| + 15, 4) + b.epoch) == PutBe(base, 8) + PutBe(|b.body| + 15, 4) + b.epoch;
  }

  lemma {:induction false} ChainWellFormed(bs: seq<Batch>)
    requires Stampables(bs)
    ensures WellFormed(ChainBytes(bs)) && CrcInBounds(ChainBytes(bs))
  {
    hide BatchBytes, GetBe;
    if bs != [] {
      var b, rest := bs[0], ChainBytes(bs[1..]);
      ReadsBatch(b, rest);
      Fields(b, rest);
      LengthReads(|b.body| + 15);
      ChainWellFormed(bs[1..]);
    }
  }

  /** Stamping takes the first batch and goes on behind it. */
  lemma RewriteFirst(b: Batch, rest: seq<byte>, base: int)
    requires BatchOk(b) && |b.body| >= 34 && CrcInBounds(rest)
    ensures CrcInBounds(BatchBytes(b) + rest)
    ensures Rewrite(BatchBytes(b) + rest, base) == BatchBytes(Restamp(b, base)) + Rewrite(rest, base + Records(b))
  {
    ReadsBatch(b, rest);
    Fields(b, rest);
    hide BatchBytes, Restamp, Records, Stamp, BatchRecords, Stampable, StampedSize;
    StampIsRestamp(b, base);
  }

  /** Stamping the bytes of a chain gives the bytes of the restamped chain. */
  lemma {:induction false} ChainRewrite(bs: seq<Batch>, base: int)
    requires Stampables(bs) && CrcInBounds(ChainBytes(bs))
    ensures Rewrite(ChainBytes(bs), base) == ChainBytes(Restamps(bs, base))
  {
    hide BatchBytes, Restamp, Records, CrcInBounds;
    if bs == [] {
      RewriteNothing([], base);
    } else {
      hide Rewrite;
      var b := bs[0];
      ChainWellFormed(bs[1..]);
      RewriteFirst(b, ChainBytes(bs[1..]), base);
      ChainRewrite(bs[1..], base + Records(b));
      assert Restamps(bs, base)[1..] == Restamps(bs[1..], base + Records(b));
    }
  }

  lemma {:induction false} TotalSplit(bs: seq<Batch>, i: nat)
    requires i < |bs|
    ensures TotalRecords(bs[..i + 1]) == TotalRecords(bs[..i]) + Records(bs[i])
  {
    if i == 0 {
      assert bs[..1][1..] == [] && bs[..0] == [];
    } else {
      TotalSplit(bs[1..], i - 1);
      assert bs[..i + 1][1..] == bs[1..][..i] && bs[..i][1..] == bs[1..][..i - 1];
    }
  }

  /** A batch starts one past the last offset of the one before it. */
  lemma NextBase(bs: seq<Batch>, base: int, i: nat)
    requires i < |bs|
    ensures BaseOf(bs, base, i + 1) == BaseOf(bs, base, i) + if bs[i].delta >= 0 then bs[i].delta + 1 else 1
  {
    TotalSplit(bs, i);
  }

  /** Batch i of the stamped chain carries the offset at which it starts; else only its checksum changed. */
  lemma {:induction false} RestampAt(bs: seq<Batch>, base: int, i: nat)
    requires i < |bs|
    ensures Restamps(bs, base)[i] == Restamp(bs[i], BaseOf(bs, base, i))
    decreases i
  {
    hide Restamp, Records;
    if i == 0 {
      assert bs[..0] == [];
    } else {
      RestampAt(bs[1..], base + Records(bs[0]), i - 1);
      assert bs[..i][1..] == bs[1..][..i - 1] && bs[..i][0] == bs[0];
    }
  }

  // ---- Every well-formed record set is described -----------------------------------------

  /** The first batch of a well-formed set. */
  function FirstBatch(s: seq<byte>): Batch
    requires |s| >= 61 && 49 <= GetBe(s[8..12]) <= |s| - 12
  {
    Batch(s[..8], s[12..17], s[17..21], s[21..23], GetBe(s[23..27]), s[27..GetBe(s[8..12]) + 12])
  }

  lemma FirstBatchIs(s: seq<byte>)
    requires |s| >= 61 && 49 <= GetBe(s[8..12]) <= |s| - 12
    ensures var b, n := FirstBatch(s), GetBe(s[8..12]) + 12;
            BatchOk(b) && |b.body| == n - 27 && BatchBytes(b) == s[..n]
  {
    var n := GetBe(s[8..12]) + 12;
    GetBe4Range(s[8..12]);
    GetBe4Range(s[23..27]);
    GetPutBe(s[8..12]);
    GetPutBe(s[23..27]);
    hide PutBe, GetBe;
    SevenParts(s, n);
  }

  lemma SevenParts(s: seq<byte>, n: nat)
    requires 27 <= n <= |s|
    ensures s[..n] == s[..8] + s[8..12] + s[12..17] + s[17..21] + (s[21..23] + s[23..27] + s[27..n])
  {
    assert s[..n] == s[..21] + s[21..n];
    assert s[..21] == s[..8] + s[8..12] + s[12..17] + s[17..21];
    assert s[21..n] == s[21..23] + s[23..27] + s[27..n];
  }

  /** So counts and stamps of all well-formed sets are those of a description. */
  lemma {:induction false} Described(s: seq<byte>) returns (bs: seq<Batch>)
    requires WellFormed(s)
    ensures Stampables(bs) && ChainBytes(bs) == s
    decreases |s|
  {
    if s == [] {
      bs := [];
    } else {
      var n := GetBe(s[8..12]) + 12;
      FirstBatchIs(s);
      var b := FirstBatch(s);
      var rest := Described(s[n..]);
      bs := [b] + rest;
      hide BatchBytes, GetBe, BatchOk, FirstBatch;
      assert bs[1..] == rest && s == s[..n] + s[n..];
    }
  }
}
