/**
 On-disk format of a partition log: aligned frames inside segment files, and
 fixed-size entries inside the index file.
 */
module LogFormat {
  import opened Wrappers
  import opened Bytes
  import opened RecordBatch

  const LOG_MAGIC: seq<byte> := [0x4D, 0x4B, 0x4D, 0x51, 0x4C, 0x4F, 0x47, 0x31]
  const INDEX_MAGIC: seq<byte> := [0x4D, 0x4B, 0x4D, 0x51, 0x49, 0x44, 0x58, 0x31]
  const MAX_OFFSET: int := 0x8000_0000_0000_0000
  const MAX_RECORDS: int := 0x8000_0000

  /** Write alignment of the device; a frame header must fit in one block. */
  type Alignment = a: nat | a >= 20 witness 512

  /** One record set stored at its base offset. */
  datatype Frame = Frame(base: int, bytes: seq<byte>)

  datatype Entry = Entry(base: int, last: int, segmentBase: int, position: nat, recordBytes: nat)

  datatype SegmentInfo = SegmentInfo(base: int, last: int, writePosition: nat)

  // ---- Frames --------------------------------------------------------------

  function FrameSize(recordBytes: nat, a: Alignment): (n: nat)
    ensures 20 + recordBytes <= n < 20 + recordBytes + a && n >= a
  {
    RoundUp(20 + recordBytes, a)
  }

  function FrameHeader(base: int, recordBytes: int): (h: seq<byte>)
    ensures |h| == 20
  {
    LOG_MAGIC + PutLe(base, 8) + PutLe(recordBytes, 4)
  }

  function FrameBytes(f: Frame, a: Alignment): (s: seq<byte>)
    ensures |s| == FrameSize(|f.bytes|, a)
    ensures s[..20] == FrameHeader(f.base, |f.bytes|)
    ensures s[20..20 + |f.bytes|] == f.bytes
  {
    FrameHeader(f.base, |f.bytes|) + f.bytes + Zeros(FrameSize(|f.bytes|, a) - 20 - |f.bytes|)
  }

  /** Where everything is in a frame: the text MKMQLOG1, base offset, length, records, padding. */
  lemma FrameFields(f: Frame, a: Alignment)
    ensures var s, n := FrameBytes(f, a), |f.bytes|;
            && (forall i :: 0 <= i < 8 ==> s[i] == "MKMQLOG1"[i] as int)
            && s[8..16] == PutLe(f.base, 8) && s[16..20] == PutLe(n, 4) && s[20..20 + n] == f.bytes
            && (forall i :: 20 + n <= i < |s| ==> s[i] == 0)
  {
    hide PutLe, FrameSize;
  }

  /** Offsets and sizes stay inside their signed fields. */
  predicate FrameFits(f: Frame) {
    0 <= f.base < MAX_OFFSET && |f.bytes| < MAX_RECORDS
  }

  predicate HeaderMatches(header: seq<byte>, base: int, recordBytes: int)
    requires |header| >= 20
  {
    header[..8] == LOG_MAGIC && GetLe(header[8..16]) == base && GetLe(header[16..20]) == recordBytes
  }

  lemma HeaderRoundTrip(base: int, recordBytes: int, rest: seq<byte>)
    requires 0 <= base < MAX_OFFSET && 0 <= recordBytes < MAX_RECORDS
    ensures HeaderMatches(FrameHeader(base, recordBytes) + rest, base, recordBytes)
  {
    hide PutLe, GetLe;
    Widths();
    PutGetLe(base, 8);
    PutGetLe(recordBytes, 4);
    var h := FrameHeader(base, recordBytes) + rest;
    assert h[8..16] == PutLe(base, 8) && h[16..20] == PutLe(recordBytes, 4);
  }

  /** A block passes the reader's check exactly if it begins with the header written for that frame. */
  lemma HeaderExact(header: seq<byte>, base: int, recordBytes: int)
    requires |header| >= 20 && FitsSigned(base, 8) && FitsSigned(recordBytes, 4)
    ensures HeaderMatches(header, base, recordBytes) <==> header[..20] == FrameHeader(base, recordBytes)
  {
    hide PutLe, GetLe;
    LeExact(header[8..16], base);
    LeExact(header[16..20], recordBytes);
    var h := FrameHeader(base, recordBytes);
    assert h[..8] == LOG_MAGIC && h[8..16] == PutLe(base, 8) && h[16..20] == PutLe(recordBytes, 4);
    SubSlice(header, 0, 20, 0, 8);
    SubSlice(header, 0, 20, 8, 16);
    SubSlice(header, 0, 20, 16, 20);
    assert header[..20] == header[..8] + header[8..16] + header[16..20];
  }

  // ---- Recovering one frame ------------------------------------------------

  datatype Parsed = NoFrame | Whole(frame: Frame)

  /** What the recovery scan sees at a position: a whole frame, or a reason to stop. */
  function ParseFrame(file: seq<byte>, position: nat, a: Alignment): (p: Parsed)
    ensures p.Whole? ==> p.frame.bytes != [] && position + FrameSize(|p.frame.bytes|, a) <= |file|
  {
    if position + a > |file| then NoFrame
    else
      var header := file[position..position + a];
      if header[..8] != LOG_MAGIC then NoFrame
      else
        var recordBytes := GetLe(header[16..20]);
        if recordBytes <= 0 then NoFrame
        else if position + FrameSize(recordBytes, a) > |file| then NoFrame
        else Whole(Frame(GetLe(header[8..16]), file[position + 20..position + 20 + recordBytes]))
  }

  /** The bytes of a file hold frame f at a position: its header, its records, and room for the whole of it. */
  predicate FrameAt(file: seq<byte>, position: nat, f: Frame, a: Alignment) {
    && f.bytes != [] && FitsSigned(f.base, 8) && |f.bytes| < MAX_RECORDS
    && position + FrameSize(|f.bytes|, a) <= |file|
    && file[position..position + 20] == FrameHeader(f.base, |f.bytes|)
    && file[position + 20..position + 20 + |f.bytes|] == f.bytes
  }

  /** The scan takes in a frame exactly if the bytes hold it, whatever the file is. */
  lemma ParseExact(file: seq<byte>, position: nat, f: Frame, a: Alignment)
    ensures ParseFrame(file, position, a) == Whole(f) <==> FrameAt(file, position, f, a)
  {
    hide GetLe, PutLe, FrameHeader;
    if position + a <= |file| {
      var header := file[position..position + a];
      SubSlice(file, position, position + a, 0, 20);
      SubSlice(file, position, position + a, 8, 16);
      SubSlice(file, position, position + a, 16, 20);
      Widths();
      GetLeFits(header[8..16]);
      GetLeFits(header[16..20]);
      if FitsSigned(f.base, 8) && |f.bytes| < MAX_RECORDS {
        HeaderExact(header, f.base, |f.bytes|);
      }
    }
  }

  /** The scan stops at a position exactly if the bytes hold no frame there. */
  lemma ParseStopsIff(file: seq<byte>, position: nat, a: Alignment)
    ensures ParseFrame(file, position, a) == NoFrame <==> forall f :: !FrameAt(file, position, f, a)
  {
    hide ParseFrame, FrameAt;
    forall f ensures ParseFrame(file, position, a) == Whole(f) <==> FrameAt(file, position, f, a) {
      ParseExact(file, position, f, a);
    }
    var p := ParseFrame(file, position, a);
    if p.Whole? {
      assert FrameAt(file, position, p.frame, a);
    }
  }

  /** A whole frame on disk is recovered exactly when it is not empty. */
  lemma ParseWhole(file: seq<byte>, position: nat, f: Frame, a: Alignment)
    requires FrameFits(f)
    requires position + FrameSize(|f.bytes|, a) <= |file|
    requires file[position..position + FrameSize(|f.bytes|, a)] == FrameBytes(f, a)
    ensures ParseFrame(file, position, a) == if f.bytes != [] then Whole(f) else NoFrame
  {
    hide FrameBytes, GetLe;
    var size := FrameSize(|f.bytes|, a);
    SubSlice(file, position, position + size, 0, a);
    SubSlice(file, position, position + size, 20, 20 + |f.bytes|);
    BlockHeader(f, a);
  }

  /** A frame cut short by the end of the file is not recovered. */
  lemma ParseTorn(file: seq<byte>, position: nat, f: Frame, a: Alignment)
    requires FrameFits(f)
    requires position <= |file| < position + FrameSize(|f.bytes|, a)
    requires file[position..] == FrameBytes(f, a)[..|file| - position]
    ensures ParseFrame(file, position, a) == NoFrame
  {
    hide FrameBytes, GetLe;
    if position + a <= |file| {
      var n := |file| - position;
      assert file[position..position + a] == file[position..][..a];
      SubSlice(FrameBytes(f, a), 0, n, 0, a);
      BlockHeader(f, a);
    }
  }

  lemma BlockHeader(f: Frame, a: Alignment)
    requires FrameFits(f)
    ensures HeaderMatches(FrameBytes(f, a)[..a], f.base, |f.bytes|)
  {
    var image := FrameBytes(f, a);
    HeaderRoundTrip(f.base, |f.bytes|, image[20..a]);
    assert image[..a] == FrameHeader(f.base, |f.bytes|) + image[20..a];
  }

  /** The entry noted for a frame. */
  function EntryOf(segmentBase: int, f: Frame, position: nat): Entry {
    Entry(f.base, f.base + RecordCount(f.bytes) - 1, segmentBase, position, |f.bytes|)
  }

  // ---- Index file ----------------------------------------------------------

  function IndexEntrySize(a: Alignment): (n: nat)
    ensures 48 <= n < 48 + a
  {
    RoundUp(48, a)
  }

  function EncodeEntry(e: Entry, a: Alignment): (s: seq<byte>)
    ensures |s| == IndexEntrySize(a)
  {
    INDEX_MAGIC + PutLe(e.base, 8) + PutLe(e.last, 8) + PutLe(e.segmentBase, 8)
    + PutLe(e.position, 8) + PutLe(e.recordBytes, 4) + Zeros(IndexEntrySize(a) - 44)
  }

  function DecodeEntry(s: seq<byte>): (r: Option<Entry>)
    requires |s| >= 48
    ensures r.Some? ==> r.value.recordBytes > 0 && r.value.last >= r.value.base
  {
    if s[..8] != INDEX_MAGIC then None
    else
      var base, last, recordBytes := GetLe(s[8..16]), GetLe(s[16..24]), GetLe(s[40..44]);
      if recordBytes <= 0 || last < base then None
      else Some(Entry(base, last, GetLe(s[24..32]), GetLe(s[32..40]) % Pow256(8), recordBytes))
  }

  predicate EntryFits(e: Entry) {
    && 0 <= e.base < MAX_OFFSET && -1 <= e.last < MAX_OFFSET && 0 <= e.segmentBase < MAX_OFFSET
    && e.position < MAX_OFFSET && e.recordBytes < MAX_RECORDS
  }

  /** Where everything is in an index entry: the text MKMQIDX1 and the five fields. */
  lemma EntryFields(e: Entry, a: Alignment)
    ensures var s := EncodeEntry(e, a);
            && s[..8] == INDEX_MAGIC && (forall i :: 0 <= i < 8 ==> s[i] == "MKMQIDX1"[i] as int)
            && s[8..16] == PutLe(e.base, 8)
            && s[16..24] == PutLe(e.last, 8)
            && s[24..32] == PutLe(e.segmentBase, 8)
            && s[32..40] == PutLe(e.position, 8)
            && s[40..44] == PutLe(e.recordBytes, 4)
  {
  }

  lemma FieldsFit(e: Entry)
    requires EntryFits(e)
    ensures GetLe(PutLe(e.base, 8)) == e.base
    ensures GetLe(PutLe(e.last, 8)) == e.last
    ensures GetLe(PutLe(e.segmentBase, 8)) == e.segmentBase
    ensures GetLe(PutLe(e.position, 8)) == e.position
    ensures GetLe(PutLe(e.position, 8)) % Pow256(8) == e.position
    ensures GetLe(PutLe(e.recordBytes, 4)) == e.recordBytes
  {
    hide PutLe, GetLe;
    Widths();
    PutGetLe(e.base, 8);
    PutGetLe(e.last, 8);
    PutGetLe(e.segmentBase, 8);
    PutGetLe(e.position, 8);
    PutGetLe(e.recordBytes, 4);
  }

  lemma EntryRoundTrip(e: Entry, a: Alignment)
    requires EntryFits(e)
    ensures DecodeEntry(EncodeEntry(e, a)) == if e.recordBytes > 0 && e.last >= e.base then Some(e) else None
  {
    EntryFields(e, a);
    FieldsFit(e);
  }

  /** A block is an index entry exactly if it begins with the fields written for it, none of them out of order. */
  lemma EntryExact(s: seq<byte>, e: Entry)
    requires |s| >= 48
    requires FitsSigned(e.base, 8) && FitsSigned(e.last, 8) && FitsSigned(e.segmentBase, 8)
    requires e.position < Pow256(8) && FitsSigned(e.recordBytes, 4)
    ensures DecodeEntry(s) == Some(e)
       <==> && s[..8] == INDEX_MAGIC && s[8..16] == PutLe(e.base, 8) && s[16..24] == PutLe(e.last, 8)
            && s[24..32] == PutLe(e.segmentBase, 8) && s[32..40] == PutLe(e.position, 8)
            && s[40..44] == PutLe(e.recordBytes, 4)
            && e.recordBytes > 0 && e.base <= e.last
  {
    hide GetLe, PutLe, Pow256;
    LeExact(s[8..16], e.base);
    LeExact(s[16..24], e.last);
    LeExact(s[24..32], e.segmentBase);
    LeUnsignedExact(s[32..40], e.position);
    LeExact(s[40..44], e.recordBytes);
  }

  /** What is decoded always has fields of those widths. */
  lemma EntryInRange(s: seq<byte>)
    requires |s| >= 48 && DecodeEntry(s).Some?
    ensures var e := DecodeEntry(s).value;
            && FitsSigned(e.base, 8) && FitsSigned(e.last, 8) && FitsSigned(e.segmentBase, 8)
            && e.position < Pow256(8) && FitsSigned(e.recordBytes, 4)
  {
    hide GetLe;
    GetLeFits(s[8..16]);
    GetLeFits(s[16..24]);
    GetLeFits(s[24..32]);
    GetLeFits(s[40..44]);
  }

  /** Leading entries readable from an index file, from a byte position on. */
  function DecodeIndex(index: seq<byte>, position: nat, a: Alignment): (entries: seq<Entry>)
    decreases |index| - position
  {
    var n := IndexEntrySize(a);
    if position + n > |index| then []
    else
      match DecodeEntry(index[position..position + n])
      case None => []
      case Some(e) => [e] + DecodeIndex(index, position + n, a)
  }

  /** Where the k-th entry of an index file is written. */
  function Slot(k: nat, a: Alignment): nat {
    if k == 0 then 0 else Slot(k - 1, a) + IndexEntrySize(a)
  }

  function IndexImage(entries: seq<Entry>, a: Alignment): (s: seq<byte>)
    ensures |s| == Slot(|entries|, a)
  {
    if entries == [] then []
    else IndexImage(entries[..|entries| - 1], a) + EncodeEntry(entries[|entries| - 1], a)
  }

  lemma {:induction false} IndexSlot(entries: seq<Entry>, k: nat, a: Alignment)
    requires k < |entries|
    ensures Slot(k + 1, a) <= |IndexImage(entries, a)|
    ensures IndexImage(entries, a)[Slot(k, a)..Slot(k + 1, a)] == EncodeEntry(entries[k], a)
  {
    var front := entries[..|entries| - 1];
    if k < |front| {
      IndexSlot(front, k, a);
    }
  }

  /** An index file written entry by entry reads back as exactly those entries. */
  lemma {:induction false} IndexRoundTrip(entries: seq<Entry>, k: nat, a: Alignment)
    requires k <= |entries|
    requires forall e :: e in entries ==> EntryFits(e) && e.recordBytes > 0 && e.last >= e.base
    ensures DecodeIndex(IndexImage(entries, a), Slot(k, a), a) == entries[k..]
    decreases |entries| - k
  {
    hide EncodeEntry, DecodeEntry, IndexImage, EntryFits;
    if k < |entries| {
      IndexSlot(entries, k, a);
      assert entries[k] in entries;
      EntryRoundTrip(entries[k], a);
      IndexRoundTrip(entries, k + 1, a);
      assert [entries[k]] + entries[k + 1..] == entries[k..];
    }
  }
}
