/**
 Reading records back. The broker merges a run of index entries of one segment
 into a single device read and cuts the frames out of that buffer; the
 specification reads one entry at a time.
 */
module Fetch {
  import opened Bytes
  import opened LogFormat
  import opened LogLayout

  datatype ReadResult = Records(bytes: seq<byte>) | ShortRead | Corrupt

  // ---- One entry at a time -------------------------------------------------

  /** One device read of one frame, checked against its entry. */
  function ReadEntry(e: Entry, files: map<int, seq<byte>>, a: Alignment): ReadResult {
    var file, size := FileOf(files, e.segmentBase), FrameSize(e.recordBytes, a);
    if e.position + size > |file| then ShortRead
    else
      var frame := file[e.position..e.position + size];
      if !HeaderMatches(frame, e.base, e.recordBytes) then Corrupt
      else Records(frame[20..20 + e.recordBytes])
  }

  /**
   The per-entry reader from entry i on, having collected `got`: skip entries
   before the offset, stop at the first one not fully visible, always admit the
   first, and later ones only while they fit the limit.
   */
  function ReadFrom(entries: seq<Entry>, i: nat, files: map<int, seq<byte>>, q: Query, got: seq<byte>): ReadResult
    decreases |entries| - i
  {
    if i >= |entries| then Records(got)
    else
      var e := entries[i];
      if e.last < q.offset then ReadFrom(entries, i + 1, files, q, got)
      else if e.base >= q.visibleEnd || e.last >= q.visibleEnd then Records(got)
      else if got != [] && |got| + e.recordBytes > q.limit then Records(got)
      else
        match ReadEntry(e, files, q.align)
        case Records(payload) =>
          if |got + payload| >= q.limit then Records(got + payload)
          else ReadFrom(entries, i + 1, files, q, got + payload)
        case ShortRead => ShortRead
        case Corrupt => Corrupt
  }

  datatype Query = Query(offset: int, visibleEnd: int, limit: nat, align: Alignment)

  // ---- The log invariant reads rely on -------------------------------------

  predicate OnDisk(e: Entry, files: map<int, seq<byte>>, a: Alignment) {
    e.recordBytes > 0 && ReadEntry(e, files, a).Records?
  }

  /** The index alone: no empty set, offsets increase, frames of a segment do not overlap. */
  ghost predicate Indexed(entries: seq<Entry>, a: Alignment) {
    && (forall e :: e in entries ==> e.recordBytes > 0)
    && (forall i, j :: 0 <= i < j < |entries| ==> entries[i].last <= entries[j].last)
    && (forall i, j :: 0 <= i < j < |entries| && entries[i].segmentBase == entries[j].segmentBase ==>
          entries[i].position + FrameSize(entries[i].recordBytes, a) <= entries[j].position)
  }

  /** Besides, every entry's frame is on disk. */
  ghost predicate Readable(entries: seq<Entry>, files: map<int, seq<byte>>, a: Alignment) {
    Indexed(entries, a) && forall e :: e in entries ==> OnDisk(e, files, a)
  }

  /** Both readers fail, or neither does and they return the same bytes. */
  predicate Agree(r: ReadResult, spec: ReadResult) {
    r == spec || (!r.Records? && !spec.Records?)
  }

  /** On a readable index the per-entry reader never fails. */
  lemma {:induction false} ReadableSucceeds(entries: seq<Entry>, i: nat, files: map<int, seq<byte>>, q: Query,
                                            got: seq<byte>)
    requires Readable(entries, files, q.align)
    ensures ReadFrom(entries, i, files, q, got).Records?
    decreases |entries| - i
  {
    hide ReadEntry, Indexed;
    if i < |entries| {
      assert OnDisk(entries[i], files, q.align);
      ReadableSucceeds(entries, i + 1, files, q, got);
      ReadableSucceeds(entries, i + 1, files, q, got + ReadEntry(entries[i], files, q.align).bytes);
    }
  }

  /** A read returns records exactly if the file holds the frame with those bytes where the entry says. */
  lemma ReadExact(e: Entry, f: Frame, files: map<int, seq<byte>>, a: Alignment)
    requires FitsSigned(e.base, 8) && 0 < e.recordBytes < MAX_RECORDS && f.base == e.base && |f.bytes| == e.recordBytes
    ensures ReadEntry(e, files, a) == Records(f.bytes) <==> FrameAt(FileOf(files, e.segmentBase), e.position, f, a)
  {
    hide GetLe, FrameHeader, FrameSize;
    Widths();
    var file, size := FileOf(files, e.segmentBase), FrameSize(e.recordBytes, a);
    if e.position + size <= |file| {
      HeaderExact(file[e.position..e.position + size], e.base, e.recordBytes);
      SubSlice(file, e.position, e.position + size, 0, 20);
      SubSlice(file, e.position, e.position + size, 20, 20 + e.recordBytes);
    }
  }

  // ---- Finding the first entry ---------------------------------------------

  /** `std::lower_bound` on the last offsets. */
  method FindIndexForOffset(entries: seq<Entry>, offset: int) returns (idx: nat)
    requires forall i, j :: 0 <= i < j < |entries| ==> entries[i].last <= entries[j].last
    ensures idx <= |entries|
    ensures forall i :: 0 <= i < idx ==> entries[i].last < offset
    ensures forall i :: idx <= i < |entries| ==> offset <= entries[i].last
  {
    var lo, hi := 0, |entries|;
    while lo < hi
      invariant 0 <= lo <= hi <= |entries|
      invariant forall i :: 0 <= i < lo ==> entries[i].last < offset
      invariant forall i :: hi <= i < |entries| ==> offset <= entries[i].last
    {
      var mid := (lo + hi) / 2;
      if entries[mid].last < offset {
        lo := mid + 1;
      } else {
        hi := mid;
      }
    }
    idx := lo;
  }

  lemma {:induction false} SkipBefore(entries: seq<Entry>, i: nat, idx: nat, files: map<int, seq<byte>>, q: Query,
                                      got: seq<byte>)
    requires i <= idx <= |entries|
    requires forall k :: i <= k < idx ==> entries[k].last < q.offset
    ensures ReadFrom(entries, i, files, q, got) == ReadFrom(entries, idx, files, q, got)
    decreases idx - i
  {
    if i < idx {
      SkipBefore(entries, i + 1, idx, files, q, got);
    }
  }

  // ---- One merged run ------------------------------------------------------

  function RunBytes(entries: seq<Entry>, lo: nat, n: nat): nat
    requires lo + n <= |entries|
  {
    if n == 0 then 0 else RunBytes(entries, lo, n - 1) + entries[lo + n - 1].recordBytes
  }

  predicate Visible(e: Entry, q: Query) {
    e.base < q.visibleEnd && e.last < q.visibleEnd
  }

  /** Entries lo .. lo + n form a run that the inner loop accepts after `got` bytes. */
  ghost predicate RunOk(entries: seq<Entry>, lo: nat, n: nat, got: nat, q: Query) {
    && 1 <= n && lo + n <= |entries|
    && (forall k :: lo <= k < lo + n ==> Visible(entries[k], q) && entries[k].segmentBase == entries[lo].segmentBase)
    && (forall k :: 2 <= k <= n ==> got + RunBytes(entries, lo, k) <= q.limit)
  }

  /** Header and payload of a frame, cut out of a larger read that covers it. */
  lemma CutFromBuffer(file: seq<byte>, start: nat, total: nat, position: nat, size: nat, recordBytes: nat)
    requires start <= position && position + size <= start + total <= |file| && 20 + recordBytes <= size
    ensures var buffer, relative := file[start..start + total], position - start;
            var frame := file[position..position + size];
            && buffer[relative..relative + 20] == frame[0..20]
            && buffer[relative + 20..relative + 20 + recordBytes] == frame[20..20 + recordBytes]
  {
    var relative := position - start;
    SubSlice(file, start, start + total, relative, relative + 20);
    SubSlice(file, start, start + total, relative + 20, relative + 20 + recordBytes);
    SubSlice(file, position, position + size, 0, 20);
    SubSlice(file, position, position + size, 20, 20 + recordBytes);
  }

  /** Where the per-entry reader stops. */
  lemma ReadStops(entries: seq<Entry>, i: nat, files: map<int, seq<byte>>, q: Query, got: seq<byte>)
    requires i < |entries| ==> q.offset <= entries[i].last
    ensures i >= |entries| || !Visible(entries[i], q) || (got != [] && |got| + entries[i].recordBytes > q.limit) ==>
              ReadFrom(entries, i, files, q, got) == Records(got)
  {
  }

  /** An admitted entry of the per-entry reader. */
  lemma ReadStep(entries: seq<Entry>, i: nat, files: map<int, seq<byte>>, q: Query, got: seq<byte>)
    requires i < |entries| && OnDisk(entries[i], files, q.align)
    requires q.offset <= entries[i].last && Visible(entries[i], q)
    requires got == [] || |got| + entries[i].recordBytes <= q.limit
    ensures var payload := ReadEntry(entries[i], files, q.align).bytes;
            && |payload| == entries[i].recordBytes
            && ReadFrom(entries, i, files, q, got) ==
               if |got + payload| >= q.limit then Records(got + payload)
               else ReadFrom(entries, i + 1, files, q, got + payload)
  {
  }

  lemma RunStarts(entries: seq<Entry>, idx: nat, got: nat, q: Query)
    requires idx < |entries| && Visible(entries[idx], q)
    ensures RunOk(entries, idx, 1, got, q) && RunBytes(entries, idx, 1) == entries[idx].recordBytes
  {
    assert RunBytes(entries, idx, 0) == 0;
  }

  /** A run takes in the next entry if that is visible, in the same segment and within the limit. */
  lemma RunGrows(entries: seq<Entry>, idx: nat, n: nat, got: nat, q: Query)
    requires Indexed(entries, q.align) && RunOk(entries, idx, n, got, q) && idx + n < |entries|
    requires Visible(entries[idx + n], q) && entries[idx + n].segmentBase == entries[idx].segmentBase
    requires got + RunBytes(entries, idx, n) + entries[idx + n].recordBytes <= q.limit
    ensures RunOk(entries, idx, n + 1, got, q) && entries[idx].position <= entries[idx + n].position
    ensures RunBytes(entries, idx, n + 1) == RunBytes(entries, idx, n) + entries[idx + n].recordBytes
  {
  }

  /** Grow a run as far as the visible end, the segment and the limit allow. */
  method GrowRun(entries: seq<Entry>, idx: nat, got: nat, q: Query) returns (runCount: nat, runTotal: nat)
    requires Indexed(entries, q.align) && idx < |entries| && Visible(entries[idx], q)
    ensures RunOk(entries, idx, runCount, got, q)
    ensures runTotal == entries[idx + runCount - 1].position - entries[idx].position
                        + FrameSize(entries[idx + runCount - 1].recordBytes, q.align)
  {
    hide FrameSize, RunOk, Indexed;
    var first := entries[idx];
    RunStarts(entries, idx, got, q);
    runCount := 1;
    var runRecordBytes := first.recordBytes;
    runTotal := FrameSize(first.recordBytes, q.align);
    while idx + runCount < |entries|
      invariant 1 <= runCount && idx + runCount <= |entries|
      invariant RunOk(entries, idx, runCount, got, q)
      invariant runRecordBytes == RunBytes(entries, idx, runCount)
      invariant runTotal == entries[idx + runCount - 1].position - first.position
                            + FrameSize(entries[idx + runCount - 1].recordBytes, q.align)
      decreases |entries| - runCount
    {
      var e := entries[idx + runCount];
      if e.base >= q.visibleEnd || e.last >= q.visibleEnd {
        break;
      }
      if e.segmentBase != first.segmentBase {
        break;
      }
      if got + runRecordBytes + e.recordBytes > q.limit {
        break;
      }
      var frameSize := FrameSize(e.recordBytes, q.align);
      RunGrows(entries, idx, runCount, got, q);
      runRecordBytes := runRecordBytes + e.recordBytes;
      runTotal := (e.position - first.position) + frameSize;
      runCount := runCount + 1;
    }
  }

  /** Every frame of a run lies inside the bytes of the merged read. */
  lemma RunInBuffer(entries: seq<Entry>, idx: nat, n: nat, k: nat, got: nat, q: Query)
    requires Indexed(entries, q.align) && RunOk(entries, idx, n, got, q) && k < n
    ensures var first, last, e := entries[idx], entries[idx + n - 1], entries[idx + k];
            var total := last.position - first.position + FrameSize(last.recordBytes, q.align);
            && first.position <= e.position
            && e.position + FrameSize(e.recordBytes, q.align) <= first.position + total
            && e.segmentBase == first.segmentBase && e.recordBytes > 0
  {
    hide FrameSize;
    var first, last, e := entries[idx], entries[idx + n - 1], entries[idx + k];
    assert e in entries;
    if k > 0 {
      assert first.segmentBase == e.segmentBase;
    }
    if k < n - 1 {
      assert e.segmentBase == last.segmentBase;
    }
  }

  /** The frame of entry k of a run, cut out of the merged buffer, checks and reads like a read of its own. */
  lemma BufferHoldsFrame(entries: seq<Entry>, idx: nat, n: nat, k: nat, got: nat, buffer: seq<byte>,
                         files: map<int, seq<byte>>, q: Query)
    requires k < n && idx + n <= |entries|
    requires Indexed(entries, q.align) && RunOk(entries, idx, n, got, q)
    requires IsBuffer(buffer, entries, idx, n, files, q)
    ensures var e := entries[idx + k];
            var relative := e.position - entries[idx].position;
            && 0 <= relative && relative + 20 + e.recordBytes <= |buffer|
            && (OnDisk(e, files, q.align) <==> HeaderMatches(buffer[relative..relative + 20], e.base, e.recordBytes))
            && (OnDisk(e, files, q.align) ==>
                  ReadEntry(e, files, q.align) == Records(buffer[relative + 20..relative + 20 + e.recordBytes]))
  {
    hide HeaderMatches, Indexed, RunOk, FrameSize, OnDisk, ReadEntry;
    RunInBuffer(entries, idx, n, k, got, q);
    FrameInBuffer(entries[idx + k], entries[idx].position, |buffer|, files, q.align);
  }

  lemma FrameInBuffer(e: Entry, start: nat, total: nat, files: map<int, seq<byte>>, a: Alignment)
    requires start <= e.position && e.position + FrameSize(e.recordBytes, a) <= start + total && e.recordBytes > 0
    requires start + total <= |FileOf(files, e.segmentBase)|
    ensures var buffer, relative := FileOf(files, e.segmentBase)[start..start + total], e.position - start;
            && relative + 20 + e.recordBytes <= |buffer|
            && (OnDisk(e, files, a) <==> HeaderMatches(buffer[relative..relative + 20], e.base, e.recordBytes))
            && (OnDisk(e, files, a) ==>
                  ReadEntry(e, files, a) == Records(buffer[relative + 20..relative + 20 + e.recordBytes]))
  {
    hide HeaderMatches, FrameSize;
    var file, size := FileOf(files, e.segmentBase), FrameSize(e.recordBytes, a);
    CutFromBuffer(file, start, total, e.position, size, e.recordBytes);
    HeaderOnly(file[e.position..e.position + size], e.base, e.recordBytes);
  }

  predicate IsBuffer(buffer: seq<byte>, entries: seq<Entry>, idx: nat, n: nat, files: map<int, seq<byte>>, q: Query)
    requires 1 <= n && idx + n <= |entries|
  {
    var first, last := entries[idx], entries[idx + n - 1];
    var total := last.position - first.position + FrameSize(last.recordBytes, q.align);
    && total >= 0 && first.position + total <= |FileOf(files, first.segmentBase)|
    && buffer == FileOf(files, first.segmentBase)[first.position..first.position + total]
  }

  lemma HeaderOnly(frame: seq<byte>, base: int, recordBytes: int)
    requires |frame| >= 20
    ensures HeaderMatches(frame, base, recordBytes) == HeaderMatches(frame[0..20], base, recordBytes)
  {
    SubSlice(frame, 0, 20, 0, 8);
    SubSlice(frame, 0, 20, 8, 16);
    SubSlice(frame, 0, 20, 16, 20);
  }

  /** One frame of a run: the per-entry reader admits it, and reaches the limit only on the last. */
  lemma RunStep(entries: seq<Entry>, idx: nat, n: nat, k: nat, got: nat, records: seq<byte>,
                files: map<int, seq<byte>>, q: Query)
    requires Indexed(entries, q.align) && RunOk(entries, idx, n, got, q) && k < n
    requires forall i :: idx <= i < |entries| ==> q.offset <= entries[i].last
    requires |records| == got + RunBytes(entries, idx, k)
    requires k == 0 ==> records == [] || got + entries[idx].recordBytes <= q.limit
    ensures !OnDisk(entries[idx + k], files, q.align) ==> !ReadFrom(entries, idx + k, files, q, records).Records?
    ensures OnDisk(entries[idx + k], files, q.align) ==>
              var next := records + ReadEntry(entries[idx + k], files, q.align).bytes;
              && |next| == got + RunBytes(entries, idx, k + 1)
              && (k + 1 < n ==>
                    ReadFrom(entries, idx + k, files, q, records) == ReadFrom(entries, idx + k + 1, files, q, next))
              && (k + 1 == n ==>
                    ReadFrom(entries, idx + k, files, q, records) ==
                    if |next| >= q.limit then Records(next) else ReadFrom(entries, idx + n, files, q, next))
  {
    hide ReadFrom, ReadEntry;
    assert entries[idx + k] in entries;
    if k > 0 {
      assert got + RunBytes(entries, idx, k + 1) <= q.limit;
    }
    if OnDisk(entries[idx + k], files, q.align) {
      ReadStep(entries, idx + k, files, q, records);
      if k + 1 < n {
        assert got + RunBytes(entries, idx, k + 2) <= q.limit;
        assert entries[idx + k + 1] in entries;
      }
    } else {
      ReadFails(entries, idx + k, files, q, records);
    }
  }

  lemma ReadFails(entries: seq<Entry>, i: nat, files: map<int, seq<byte>>, q: Query, got: seq<byte>)
    requires i < |entries| && entries[i].recordBytes > 0 && !OnDisk(entries[i], files, q.align)
    requires q.offset <= entries[i].last && Visible(entries[i], q)
    requires got == [] || |got| + entries[i].recordBytes <= q.limit
    ensures !ReadFrom(entries, i, files, q, got).Records?
  {
  }

  /** A run with a bad frame makes the per-entry reader fail. */
  lemma {:induction false} RunFails(entries: seq<Entry>, idx: nat, n: nat, k: nat, bad: nat, got: nat,
                                    records: seq<byte>, files: map<int, seq<byte>>, q: Query)
    requires Indexed(entries, q.align) && RunOk(entries, idx, n, got, q) && k <= bad < n && idx + n <= |entries|
    requires forall i :: idx <= i < |entries| ==> q.offset <= entries[i].last
    requires |records| == got + RunBytes(entries, idx, k)
    requires k == 0 ==> records == [] || got + entries[idx].recordBytes <= q.limit
    requires !OnDisk(entries[idx + bad], files, q.align)
    ensures !ReadFrom(entries, idx + k, files, q, records).Records?
    decreases bad - k
  {
    hide Indexed, RunOk, ReadFrom, ReadEntry, RunBytes;
    RunStep(entries, idx, n, k, got, records, files, q);
    if OnDisk(entries[idx + k], files, q.align) {
      var next := records + ReadEntry(entries[idx + k], files, q.align).bytes;
      RunFails(entries, idx, n, k + 1, bad, got, next, files, q);
    }
  }

  /** Cut every frame of a run out of the merged buffer and append its payload. */
  method ReadRun(entries: seq<Entry>, idx: nat, runCount: nat, buffer: seq<byte>, got: seq<byte>,
                 ghost files: map<int, seq<byte>>, q: Query)
    returns (r: ReadResult)
    requires 1 <= runCount && idx + runCount <= |entries|
    requires Indexed(entries, q.align) && RunOk(entries, idx, runCount, |got|, q)
    requires forall i :: idx <= i < |entries| ==> q.offset <= entries[i].last
    requires got == [] || |got| + entries[idx].recordBytes <= q.limit
    requires IsBuffer(buffer, entries, idx, runCount, files, q)
    ensures var spec := ReadFrom(entries, idx, files, q, got);
            if r.Records?
            then spec == if |r.bytes| >= q.limit then r else ReadFrom(entries, idx + runCount, files, q, r.bytes)
            else !spec.Records?
  {
    hide ReadFrom, ReadEntry, HeaderMatches, Indexed, RunOk, OnDisk;
    var start := entries[idx].position;
    var records := got;
    ghost var target := ReadFrom(entries, idx, files, q, got);
    for k := 0 to runCount
      invariant |records| == |got| + RunBytes(entries, idx, k)
      invariant k == 0 ==> records == got
      invariant k < runCount ==> target == ReadFrom(entries, idx + k, files, q, records)
      invariant k == runCount ==>
          target == if |records| >= q.limit then Records(records) else ReadFrom(entries, idx + k, files, q, records)
    {
      var e := entries[idx + k];
      BufferHoldsFrame(entries, idx, runCount, k, |got|, buffer, files, q);
      RunStep(entries, idx, runCount, k, |got|, records, files, q);
      var relative := e.position - start;
      if !HeaderMatches(buffer[relative..relative + 20], e.base, e.recordBytes) {
        return Corrupt;
      }
      records := records + buffer[relative + 20..relative + 20 + e.recordBytes];
    }
    r := Records(records);
  }

  /** A read that ends past its file has a last frame that is not on disk. */
  lemma ShortRun(entries: seq<Entry>, idx: nat, n: nat, files: map<int, seq<byte>>, q: Query)
    requires 1 <= n && idx + n <= |entries| && entries[idx + n - 1].segmentBase == entries[idx].segmentBase
    requires entries[idx + n - 1].position + FrameSize(entries[idx + n - 1].recordBytes, q.align)
           > |FileOf(files, entries[idx].segmentBase)|
    ensures !OnDisk(entries[idx + n - 1], files, q.align)
  {
  }

  /**
   The merged reader fails exactly when the per-entry reader does, and else
   returns the same bytes, whatever the files hold.
   */
  method ReadRecordsFromIndex(entries: seq<Entry>, files: map<int, seq<byte>>, q: Query) returns (r: ReadResult)
    requires Indexed(entries, q.align)
    ensures Agree(r, ReadFrom(entries, 0, files, q, []))
  {
    hide ReadFrom, ReadEntry, OnDisk;
    var records: seq<byte> := [];
    var idx := FindIndexForOffset(entries, q.offset);
    ghost var target := ReadFrom(entries, 0, files, q, []);
    SkipBefore(entries, 0, idx, files, q, []);
    while idx < |entries|
      invariant idx <= |entries|
      invariant forall i :: idx <= i < |entries| ==> q.offset <= entries[i].last
      invariant target == ReadFrom(entries, idx, files, q, records)
      decreases |entries| - idx
    {
      var first := entries[idx];
      if first.last < q.offset {
        idx := idx + 1;
        continue;
      }
      ReadStops(entries, idx, files, q, records);
      if first.base >= q.visibleEnd || first.last >= q.visibleEnd {
        return Records(records);
      }
      if records != [] && |records| + first.recordBytes > q.limit {
        return Records(records);
      }
      var runCount, runTotal := GrowRun(entries, idx, |records|, q);
      RunInBuffer(entries, idx, runCount, runCount - 1, |records|, q);
      assert RunBytes(entries, idx, 0) == 0;
      var file := FileOf(files, first.segmentBase);
      if first.position + runTotal > |file| {
        ShortRun(entries, idx, runCount, files, q);
        RunFails(entries, idx, runCount, 0, runCount - 1, |records|, records, files, q);
        return ShortRead;
      }
      var buffer := file[first.position..first.position + runTotal];
      var more := ReadRun(entries, idx, runCount, buffer, records, files, q);
      if !more.Records? {
        return more;
      }
      records := more.bytes;
      idx := idx + runCount;
      if |records| >= q.limit {
        return Records(records);
      }
    }
    ReadStops(entries, idx, files, q, records);
    r := Records(records);
  }
}
