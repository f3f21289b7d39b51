/**
 The partition log object. Every method is specified by the value-level
 functions of LogLayout, Recovery and Fetch; their properties are proved there.

 An append is one step: the DMA writes of a partition are taken to complete in
 offset order and a rollover does not overlap another append. The write
 alignment is the same for every file of the partition.
 */
module PartitionLog {
  import opened Wrappers
  import opened Bytes
  import opened RecordBatch
  import opened LogFormat
  import opened LogLayout
  import opened Recovery
  import opened Fetch

  datatype ErrorCode = NoError | RecordListTooLarge | RequestTimedOut | InvalidRequest | OffsetOutOfRange

  datatype Limits = Limits(maxFrameBytes: nat, queueLimit: nat, isrSize: nat, onlyHighWatermark: bool)

  datatype ProduceResult = ProduceResult(error: ErrorCode, baseOffset: int, logEnd: int)

  datatype FetchResult = FetchResult(error: ErrorCode, visibleEnd: int, logEnd: int, records: seq<byte>)

  /** Admission of a produce, in the order the checks run. */
  function AdmitProduce(c: Limits, queueDepth: nat, records: seq<byte>, acks: int): (e: ErrorCode)
    ensures e == NoError <==> |records| <= c.maxFrameBytes && queueDepth < c.queueLimit && -1 <= acks <= 1
  {
    if |records| > c.maxFrameBytes then RecordListTooLarge
    else if queueDepth >= c.queueLimit then RequestTimedOut
    else if acks < -1 || acks > 1 then InvalidRequest
    else NoError
  }

  /** Admission of a replica append: a follower accepts only at its own log end. */
  function AdmitReplica(c: Limits, queueDepth: nat, latest: int, base: int, records: seq<byte>): (e: ErrorCode)
    ensures e == NoError <==> |records| <= c.maxFrameBytes && base == latest && queueDepth < c.queueLimit
  {
    if |records| > c.maxFrameBytes then RecordListTooLarge
    else if base != latest then OffsetOutOfRange
    else if queueDepth >= c.queueLimit then RequestTimedOut
    else NoError
  }

  function Min(x: int, y: int): (m: int)
    ensures m <= x && m <= y && (m == x || m == y)
  {
    if x < y then x else y
  }

  /** A limit that is not positive means the partition's own. */
  function Limit(c: Limits, maxBytes: int): nat {
    if maxBytes <= 0 then c.maxFrameBytes else maxBytes
  }

  /** A successful read as a response, a failed one as none. */
  function Answer(read: ReadResult, visibleEnd: int, logEnd: int): Option<FetchResult> {
    if read.Records? then Some(FetchResult(NoError, visibleEnd, logEnd, read.bytes)) else None
  }

  /** The log once its active segment file exists. */
  function Opened(log: Log): Log {
    var files := log.disk.files;
    log.(disk := log.disk.(files := files[log.mem.active := FileOf(files, log.mem.active)]))
  }

  /** Starting on an empty directory gives the fresh log. */
  lemma EmptyStart(a: Alignment)
    ensures Opened(Restarted(Disk(map[], []), a)) == FRESH
  {
    var keys: set<int> := {};
    var files: map<int, seq<byte>> := map[];
    assert DecodeIndex([], 0, a) == [] && files.Keys == keys && Listing(keys) == [];
    assert ScanMemory(files, a) == FRESH.mem;
    assert IndexImage([], a) == [];
  }

  class PartitionLogShard {
    const g: Geometry
    var config: Limits
    var indexEntries: seq<Entry>
    var segments: seq<SegmentInfo>
    var latest: int
    var highWatermark: int
    var active: int
    var writePosition: nat
    var indexPosition: nat
    var queueDepth: nat
    var degraded: bool
    var replicaLag: int
    var files: map<int, seq<byte>>
    var index: seq<byte>

    ghost function View(): Log
      reads this
    {
      Log(Memory(indexEntries, segments, latest, active, writePosition, indexPosition), Disk(files, index))
    }

    /** Start on a directory: recover what it holds, then open the active segment, creating it if missing. */
    constructor (g: Geometry, config: Limits, files: map<int, seq<byte>>, index: seq<byte>)
      ensures this.g == g && this.config == config
      ensures View() == Opened(Restarted(Disk(files, index), g.align))
      ensures highWatermark == latest && queueDepth == 0
    {
      this.g := g;
      this.config := config;
      indexEntries, segments, latest, highWatermark := [], [], 0, 0;
      active, writePosition, indexPosition := 0, 0, 0;
      queueDepth, degraded, replicaLag := 0, false, 0;
      this.files, this.index := files, index;
      new;
      Recover();
      if active !in this.files {
        this.files := this.files[active := []];
      }
    }

    // ---- Appending ---------------------------------------------------------

    method NoteIndexEntry(e: Entry)
      modifies this`indexEntries, this`segments
      ensures indexEntries == old(indexEntries) + [e]
      ensures segments == NoteSegment(old(segments), e, g.align)
    {
      indexEntries := indexEntries + [e];
      var frameSize := FrameSize(e.recordBytes, g.align);
      var nextPosition := e.position + frameSize;
      if segments == [] || segments[|segments| - 1].base != e.segmentBase {
        segments := segments + [SegmentInfo(e.segmentBase, e.last, nextPosition)];
        return;
      }
      var s := segments[|segments| - 1];
      var last := if s.last < e.last then e.last else s.last;
      var end := if s.writePosition < nextPosition then nextPosition else s.writePosition;
      segments := segments[..|segments| - 1] + [SegmentInfo(s.base, last, end)];
    }

    method EnsureSegmentForWrite(baseOffset: int, frameSize: nat)
      modifies this`active, this`writePosition, this`files
      ensures old(RollsOver(View().mem, frameSize, g)) ==>
                && active == baseOffset && writePosition == 0
                && files == old(files)[baseOffset := FileOf(old(files), baseOffset)]
      ensures old(!RollsOver(View().mem, frameSize, g)) ==>
                active == old(active) && writePosition == old(writePosition) && files == old(files)
    {
      if writePosition == 0 || writePosition + frameSize <= g.segmentBytes {
        return;
      }
      active := baseOffset;
      writePosition := 0;
      if baseOffset !in files {
        files := files[baseOffset := []];
      }
    }

    method WriteRecordSet(f: Frame)
      modifies this`indexEntries, this`segments, this`active, this`writePosition, this`indexPosition, this`files,
               this`index
      ensures View() == Written(old(View()), f, g)
    {
      hide FrameBytes, WriteAt, EncodeEntry, NoteSegment, RecordCount, FrameSize;
      var frameSize := FrameSize(|f.bytes|, g.align);
      var buffer := FrameBytes(f, g.align);
      EnsureSegmentForWrite(f.base, frameSize);
      var position := writePosition;
      var segmentBase := active;
      writePosition := writePosition + frameSize;
      var file := if segmentBase in files then files[segmentBase] else [];
      files := files[segmentBase := WriteAt(file, position, buffer)];
      var e := Entry(f.base, f.base + RecordCount(f.bytes) - 1, segmentBase, position, |f.bytes|);
      index := WriteAt(index, indexPosition, EncodeEntry(e, g.align));
      indexPosition := indexPosition + IndexEntrySize(g.align);
      NoteIndexEntry(e);
    }

    /** The write of an append that has already moved the log end past its records. */
    method WriteAtEndOffset(f: Frame, count: nat)
      requires count == RecordCount(f.bytes) && latest == f.base + count
      modifies this`indexEntries, this`segments, this`active, this`writePosition, this`indexPosition, this`files,
               this`index
      ensures var before := old(View());
              View() == Appended(before.(mem := before.mem.(latest := f.base)), f.bytes, g)
    {
      hide Written;
      WrittenKeepsLatest(View(), f.base, f, g);
      WriteRecordSet(f);
    }

    /** Leader append at the log end. */
    method Append(records: seq<byte>, acks: int) returns (r: ProduceResult)
      modifies this`indexEntries, this`segments, this`latest, this`highWatermark, this`active, this`writePosition,
               this`indexPosition, this`queueDepth, this`files, this`index
      ensures r.error == AdmitProduce(config, old(queueDepth), records, acks)
      ensures var fits, room := |records| <= config.maxFrameBytes, old(queueDepth) < config.queueLimit;
              var known := acks in {-1, 0, 1};
              && (r.error == NoError <==> fits && room && known)
              && (r.error == RecordListTooLarge <==> !fits)
              && (r.error == RequestTimedOut <==> fits && !room)
              && (r.error == InvalidRequest <==> fits && room && !known)
      ensures queueDepth == old(queueDepth)
      ensures r.error == NoError ==>
                && View() == Appended(old(View()), records, g)
                && r.baseOffset == old(latest) && r.logEnd == latest
                && highWatermark == if config.isrSize <= 1 then latest else old(highWatermark)
      ensures r.error != NoError ==> View() == old(View()) && highWatermark == old(highWatermark)
    {
      hide Appended, RecordCount;
      if |records| > config.maxFrameBytes {
        return ProduceResult(RecordListTooLarge, 0, 0);
      }
      if queueDepth >= config.queueLimit {
        return ProduceResult(RequestTimedOut, 0, 0);
      }
      if acks < -1 || acks > 1 {
        return ProduceResult(InvalidRequest, 0, 0);
      }
      queueDepth := queueDepth + 1;
      var baseOffset := latest;
      var count := EstimateRecordCount(records);
      latest := baseOffset + count;
      if config.isrSize <= 1 {
        highWatermark := latest;
      }
      r := ProduceResult(NoError, baseOffset, latest);
      WriteAtEndOffset(Frame(baseOffset, records), count);
      queueDepth := queueDepth - 1;
    }

    /** Follower append of a replicated or fetched record set. */
    method AppendReplica(base: int, leaderHighWatermark: int, records: seq<byte>) returns (r: ProduceResult)
      modifies this`indexEntries, this`segments, this`latest, this`highWatermark, this`active, this`writePosition,
               this`indexPosition, this`queueDepth, this`replicaLag, this`files, this`index
      ensures r.error == AdmitReplica(config, old(queueDepth), old(latest), base, records)
      ensures var fits, room := |records| <= config.maxFrameBytes, old(queueDepth) < config.queueLimit;
              var atEnd := base == old(latest);
              && (r.error == NoError <==> fits && atEnd && room)
              && (r.error == RecordListTooLarge <==> !fits)
              && (r.error == OffsetOutOfRange <==> fits && !atEnd)
              && (r.error == RequestTimedOut <==> fits && atEnd && !room)
      ensures queueDepth == old(queueDepth)
      ensures r.error == NoError ==>
                && View() == Appended(old(View()), records, g)
                && r.baseOffset == old(latest) && r.logEnd == latest
                && highWatermark == Min(latest, leaderHighWatermark)
                && replicaLag == Max(0, leaderHighWatermark - highWatermark)
      ensures r.error != NoError ==>
                View() == old(View()) && highWatermark == old(highWatermark) && replicaLag == old(replicaLag)
    {
      hide Appended, RecordCount;
      if |records| > config.maxFrameBytes {
        return ProduceResult(RecordListTooLarge, base, 0);
      }
      if base != latest {
        return ProduceResult(OffsetOutOfRange, base, 0);
      }
      if queueDepth >= config.queueLimit {
        return ProduceResult(RequestTimedOut, base, 0);
      }
      queueDepth := queueDepth + 1;
      var count := EstimateRecordCount(records);
      latest := base + count;
      r := ProduceResult(NoError, base, latest);
      highWatermark := Min(latest, leaderHighWatermark);
      replicaLag := Max(0, leaderHighWatermark - highWatermark);
      WriteAtEndOffset(Frame(base, records), count);
      queueDepth := queueDepth - 1;
    }

    method MarkReplicatedThrough(offset: int)
      modifies this`highWatermark, this`replicaLag, this`degraded
      ensures highWatermark == Min(latest, Max(old(highWatermark), offset))
      ensures replicaLag == Max(0, latest - highWatermark) && !degraded
    {
      highWatermark := Min(latest, Max(highWatermark, offset));
      replicaLag := Max(0, latest - highWatermark);
      degraded := false;
    }

    method MarkDegraded()
      modifies this`replicaLag, this`degraded
      ensures replicaLag == Max(0, latest - highWatermark) && degraded
    {
      degraded := true;
      replicaLag := Max(0, latest - highWatermark);
    }

    // ---- Fetching ----------------------------------------------------------

    /** Consumer fetch: only what the partition's visibility allows. None stands for a read that throws. */
    method Fetch(offset: int, maxBytes: int) returns (r: Option<FetchResult>)
      requires Indexed(indexEntries, g.align)
      ensures var end := if config.onlyHighWatermark then highWatermark else latest;
              var q := Query(offset, end, Limit(config, maxBytes), g.align);
              r == if offset < 0 || offset > latest then Some(FetchResult(OffsetOutOfRange, end, latest, []))
                   else Answer(ReadFrom(indexEntries, 0, files, q, []), end, latest)
    {
      var visibleEnd := if config.onlyHighWatermark then highWatermark else latest;
      if offset < 0 || offset > latest {
        return Some(FetchResult(OffsetOutOfRange, visibleEnd, latest, []));
      }
      var limit := if maxBytes <= 0 then config.maxFrameBytes else maxBytes;
      var read := ReadRecordsFromIndex(indexEntries, files, Query(offset, visibleEnd, limit, g.align));
      r := if read.Records? then Some(FetchResult(NoError, visibleEnd, latest, read.bytes)) else None;
    }

    /** Replica fetch: everything up to the log end. None stands for a read that throws. */
    method FetchForReplica(offset: int, maxBytes: int) returns (r: Option<FetchResult>)
      requires Indexed(indexEntries, g.align)
      ensures var q := Query(offset, latest, Limit(config, maxBytes), g.align);
              r == if offset < 0 || offset > latest then Some(FetchResult(OffsetOutOfRange, highWatermark, latest, []))
                   else Answer(ReadFrom(indexEntries, 0, files, q, []), highWatermark, latest)
    {
      if offset < 0 || offset > latest {
        return Some(FetchResult(OffsetOutOfRange, highWatermark, latest, []));
      }
      var limit := if maxBytes <= 0 then config.maxFrameBytes else maxBytes;
      var read := ReadRecordsFromIndex(indexEntries, files, Query(offset, latest, limit, g.align));
      r := if read.Records? then Some(FetchResult(NoError, highWatermark, latest, read.bytes)) else None;
    }

    // ---- Recovery ----------------------------------------------------------

    method Reset()
      modifies this`indexEntries, this`segments, this`latest, this`highWatermark, this`active, this`writePosition,
               this`indexPosition
      ensures View().mem == Memory([], [], 0, 0, 0, 0) && highWatermark == 0
    {
      segments, indexEntries := [], [];
      latest, highWatermark := 0, 0;
      active, writePosition, indexPosition := 0, 0, 0;
    }

    method Recover()
      modifies this`indexEntries, this`segments, this`latest, this`highWatermark, this`active, this`writePosition,
               this`indexPosition, this`index
      ensures View() == Restarted(old(View()).disk, g.align)
      ensures highWatermark == latest
    {
      Reset();
      var recovered := RecoverFromIndex();
      if recovered {
        var complete := RecoveredIndexCoversSegments();
        if complete {
          return;
        }
        Reset();
      }
      RecoverFromSegments();
    }

    method RecoverFromIndex() returns (recovered: bool)
      requires View().mem == Memory([], [], 0, 0, 0, 0) && highWatermark == 0
      modifies this`indexEntries, this`segments, this`latest, this`highWatermark, this`active, this`writePosition,
               this`indexPosition
      ensures recovered == (DecodeIndex(index, 0, g.align) != [])
      ensures View().mem == IndexMemory(DecodeIndex(index, 0, g.align), g.align) && highWatermark == latest
    {
      hide DecodeEntry, Table;
      recovered := false;
      var position: nat := 0;
      var size := IndexEntrySize(g.align);
      ghost var target := DecodeIndex(index, 0, g.align);
      assert Table([], g.align) == [] by { NoTable(g.align); }
      while position + size <= |index|
        invariant position == indexPosition && IndexRead()
        invariant indexEntries + DecodeIndex(index, position, g.align) == target
        invariant recovered == (indexEntries != [])
        decreases |index| - position
      {
        ghost var before := indexEntries;
        var entry := DecodeEntry(index[position..position + size]);
        if entry.None? {
          break;
        }
        NoteRecovered(entry.value);
        recovered := true;
        position := position + size;
        AssocSnoc(before, entry.value, DecodeIndex(index, position, g.align));
      }
      assert DecodeIndex(index, position, g.align) == [];
      assert indexEntries == target;
      if recovered {
        TableNonempty(indexEntries, g.align);
        var s := segments[|segments| - 1];
        active := s.base;
        writePosition := s.writePosition;
      } else {
        NoTable(g.align);
      }
    }

    /** State of an index read in progress. */
    ghost predicate IndexRead()
      reads this
    {
      && segments == Table(indexEntries, g.align)
      && latest == MaxEnd(indexEntries) == highWatermark
      && indexPosition == Slot(|indexEntries|, g.align)
      && active == 0 && writePosition == 0
    }

    method NoteRecovered(e: Entry)
      requires IndexRead()
      modifies this`indexEntries, this`segments, this`latest, this`highWatermark, this`indexPosition
      ensures IndexRead() && indexEntries == old(indexEntries) + [e]
      ensures indexPosition == old(indexPosition) + IndexEntrySize(g.align)
    {
      hide Table, NoteSegment, IndexImage, EncodeEntry, WriteAt, Slot;
      NextSlot(|indexEntries|, g.align);
      EntriesSnoc(indexEntries, e, g.align);
      assert Front(indexEntries + [e]) == indexEntries && Last(indexEntries + [e]) == e;
      NoteIndexEntry(e);
      latest := Max(latest, e.last + 1);
      highWatermark := latest;
      indexPosition := indexPosition + IndexEntrySize(g.align);
    }

    method RecoveredIndexCoversSegments() returns (complete: bool)
      ensures complete == (segments == [] || Covers(segments, Listing(files.Keys), files))
    {
      if segments == [] {
        return true;
      }
      var bases := ListSegmentFiles();
      if |bases| != |segments| {
        return false;
      }
      for i := 0 to |bases|
        invariant forall k :: 0 <= k < i ==>
                  bases[k] == segments[k].base && |FileOf(files, bases[k])| == segments[k].writePosition
      {
        if bases[i] != segments[i].base {
          return false;
        }
        var size := |FileOf(files, bases[i])|;
        if size != segments[i].writePosition {
          return false;
        }
      }
      return true;
    }

    method RecoverFromSegments()
      requires View().mem == Memory([], [], 0, 0, 0, 0) && highWatermark == 0
      modifies this`indexEntries, this`segments, this`latest, this`highWatermark, this`active, this`writePosition,
               this`indexPosition, this`index
      ensures View().mem == ScanMemory(files, g.align) && highWatermark == latest
      ensures index == IndexImage(indexEntries, g.align)
    {
      var bases := ListSegmentFiles();
      index := [];
      for i := 0 to |bases|
        invariant indexEntries == ScanFiles(bases[..i], files, g.align)
        invariant Rebuilt()
      {
        assert Front(bases[..i + 1]) == bases[..i] && Last(bases[..i + 1]) == bases[i];
        RecoverSegmentFile(bases[i]);
      }
      assert bases[..|bases|] == bases;
      if bases == [] {
        active := latest;
        writePosition := 0;
      } else if segments != [] {
        var s := segments[|segments| - 1];
        active := s.base;
        writePosition := s.writePosition;
      }
    }

    /** State of a scan in progress. */
    ghost predicate Rebuilt()
      reads this
    {
      && segments == Table(indexEntries, g.align)
      && latest == LastEnd(indexEntries) == highWatermark
      && indexPosition == Slot(|indexEntries|, g.align)
      && index == IndexImage(indexEntries, g.align)
      && active == 0 && writePosition == 0
    }

    method RecoverSegmentFile(segmentBase: int)
      requires Rebuilt()
      modifies this`indexEntries, this`segments, this`latest, this`highWatermark, this`indexPosition, this`index
      ensures Rebuilt()
      ensures indexEntries == old(indexEntries) + ScanFrames(segmentBase, FileOf(files, segmentBase), 0, g.align)
    {
      var file := FileOf(files, segmentBase);
      hide ParseFrame, Table;
      var position: nat := 0;
      ghost var target := old(indexEntries) + ScanFrames(segmentBase, file, 0, g.align);
      var stop := false;
      while !stop
        invariant Rebuilt()
        invariant indexEntries + ScanFrames(segmentBase, file, position, g.align) == target
        invariant stop ==> ScanFrames(segmentBase, file, position, g.align) == []
        decreases !stop, |file| - position
      {
        var parsed := ReadFrame(file, position);
        ghost var before, here := indexEntries, position;
        match parsed
        case NoFrame =>
          stop := true;
        case Whole(f) =>
          var count := EstimateRecordCount(f.bytes);
          var e := Entry(f.base, f.base + count - 1, segmentBase, position, |f.bytes|);
          RebuildEntry(e);
          position := position + FrameSize(|f.bytes|, g.align);
          assert ScanFrames(segmentBase, file, here, g.align) == [e] + ScanFrames(segmentBase, file, position, g.align);
          AssocSnoc(before, e, ScanFrames(segmentBase, file, position, g.align));
      }
    }

    method RebuildEntry(e: Entry)
      requires Rebuilt()
      modifies this`indexEntries, this`segments, this`latest, this`highWatermark, this`indexPosition, this`index
      ensures Rebuilt() && indexEntries == old(indexEntries) + [e]
    {
      hide Table, NoteSegment, IndexImage, EncodeEntry, WriteAt, Slot;
      NextSlot(|indexEntries|, g.align);
      EntriesSnoc(indexEntries, e, g.align);
      assert Last(indexEntries + [e]) == e;
      NoteIndexEntry(e);
      index := WriteAt(index, indexPosition, EncodeEntry(e, g.align));
      indexPosition := indexPosition + IndexEntrySize(g.align);
      latest := e.last + 1;
      highWatermark := latest;
    }

    /** The body of the scan loop: header block first, then the whole frame if it is larger. */
    method ReadFrame(file: seq<byte>, position: nat) returns (p: Parsed)
      ensures p == ParseFrame(file, position, g.align)
    {
      if position + g.align > |file| {
        return NoFrame;
      }
      var header := file[position..position + g.align];
      if header[..8] != LOG_MAGIC {
        return NoFrame;
      }
      var base := GetLe(header[8..16]);
      var recordBytes := GetLe(header[16..20]);
      if recordBytes <= 0 {
        return NoFrame;
      }
      var frameSize := FrameSize(recordBytes, g.align);
      if position + frameSize > |file| {
        return NoFrame;
      }
      if frameSize == g.align {
        SubSlice(file, position, position + g.align, 20, 20 + recordBytes);
        return Whole(Frame(base, header[20..20 + recordBytes]));
      }
      var frame := file[position..position + frameSize];
      SubSlice(file, position, position + frameSize, 20, 20 + recordBytes);
      return Whole(Frame(base, frame[20..20 + recordBytes]));
    }

    /** Directory order is arbitrary; the bases come back sorted. */
    method ListSegmentFiles() returns (bases: seq<int>)
      ensures bases == Listing(files.Keys)
    {
      var remaining := files.Keys;
      bases := [];
      while remaining != {}
        invariant remaining <= files.Keys
        invariant Increasing(bases)
        invariant forall k :: k in bases <==> k in files.Keys && k !in remaining
        decreases remaining
      {
        assert exists k :: k in remaining by {
          if forall k :: k !in remaining {
            assert false;
          }
        }
        var k :| k in remaining;
        bases := InsertSorted(bases, k);
        remaining := remaining - {k};
      }
      ListingUnique(bases, files.Keys);
    }
  }

  lemma NextSlot(k: nat, a: Alignment)
    ensures Slot(k + 1, a) == Slot(k, a) + IndexEntrySize(a)
  {
  }

  lemma AssocSnoc<T>(s: seq<T>, e: T, t: seq<T>)
    ensures s + ([e] + t) == (s + [e]) + t
  {
  }

  lemma NoTable(a: Alignment)
    ensures Table([], a) == []
  {
  }

  lemma TableNonempty(es: seq<Entry>, a: Alignment)
    requires es != []
    ensures Table(es, a) != []
  {
  }

  ghost predicate Increasing(s: seq<int>) {
    forall i, j :: 0 <= i < j < |s| ==> s[i] < s[j]
  }

  method InsertSorted(s: seq<int>, k: int) returns (r: seq<int>)
    requires Increasing(s) && k !in s
    ensures Increasing(r)
    ensures forall x :: x in r <==> x in s || x == k
  {
    var i := 0;
    while i < |s| && s[i] < k
      invariant 0 <= i <= |s|
      invariant forall j :: 0 <= j < i ==> s[j] < k
    {
      i := i + 1;
    }
    r := s[..i] + [k] + s[i..];
    assert forall j :: i <= j < |s| ==> k < s[j];
    assert r[i] == k;
    forall x | x in s
      ensures x in r
    {
      var j :| 0 <= j < |s| && s[j] == x;
      assert r[if j < i then j else j + 1] == x;
    }
  }

  lemma {:induction false} ListingUnique(s: seq<int>, keys: set<int>)
    requires Increasing(s) && forall k :: k in s <==> k in keys
    ensures s == Listing(keys)
    decreases |s|
  {
    if s == [] {
      assert forall k :: k in keys ==> k in s;
      assert keys == {};
    } else {
      var m, front := Last(s), Front(s);
      assert m in s;
      assert IsMax(m, keys) by {
        forall k | k in keys
          ensures k <= m
        {
          var i :| 0 <= i < |s| && s[i] == k;
        }
      }
      assert forall x :: IsMax(x, keys) ==> x == m;
      forall k
        ensures k in front <==> k in keys - {m}
      {
        if k in keys - {m} {
          var i :| 0 <= i < |s| && s[i] == k;
          assert front[i] == k;
        }
      }
      ListingUnique(front, keys - {m});
      FrontLast(s);
    }
  }
}
