/**
 What a fetch returns in terms of the history: on every well-formed layout the
 index is readable, and the merged read delivers the record sets themselves.
 */
module FetchProofs {
  import opened Bytes
  import opened RecordBatch
  import opened LogFormat
  import opened LogLayout
  import opened Recovery
  import opened RecoveryProofs
  import opened Fetch

  // ---- Histories as frames -------------------------------------------------

  function FramesOf(history: seq<seq<byte>>): (frames: seq<Frame>)
    ensures |frames| == |history|
  {
    if history == [] then [] else FramesOf(Front(history)) + [Frame(EndOffset(Front(history)), Last(history))]
  }

  function AllFrames(segs: seq<Segment>): seq<Frame> {
    if segs == [] then [] else AllFrames(Front(segs)) + Last(segs).frames
  }

  /** Whatever the rollovers, the frames of a run are those of its history. */
  lemma {:induction false} LayoutFrames(history: seq<seq<byte>>, g: Geometry)
    requires Storable(history) && [] !in history
    ensures AllFrames(LayoutOf(history, g)) == FramesOf(history)
  {
    if history == [] {
      assert Front([Segment(0, [])]) == [];
    } else {
      var front, bytes := Front(history), Last(history);
      assert forall r :: r in front ==> r in history;
      assert bytes in history;
      LayoutFrames(front, g);
      RunIsLayout(front, g);
      ExtendFrames(LayoutOf(front, g), bytes, g);
    }
  }

  lemma ExtendFrames(segs: seq<Segment>, bytes: seq<byte>, g: Geometry)
    requires segs != []
    ensures AllFrames(Extend(segs, bytes, g)) == AllFrames(segs) + [Frame(End(segs), bytes)]
  {
    hide RecordCount, FrameSize, Entries, Table;
    ExtendShape(segs, bytes, g);
    var next := Extend(segs, bytes, g);
    FrontLast(Last(next).frames);
    FrontLast(next);
  }

  /** Frame-level fetch: the per-entry reader with the disk taken away. */
  function FramesFetch(frames: seq<Frame>, i: nat, q: Query, got: seq<byte>): seq<byte>
    decreases |frames| - i
  {
    if i >= |frames| then got
    else
      var f := frames[i];
      var last := f.base + RecordCount(f.bytes) - 1;
      if last < q.offset then FramesFetch(frames, i + 1, q, got)
      else if f.base >= q.visibleEnd || last >= q.visibleEnd then got
      else if got != [] && |got| + |f.bytes| > q.limit then got
      else if |got + f.bytes| >= q.limit then got + f.bytes
      else FramesFetch(frames, i + 1, q, got + f.bytes)
  }

  // ---- Entries of a layout -------------------------------------------------

  /** Entry e describes frame f and a read of e returns f's records. */
  predicate Describes(e: Entry, f: Frame, files: map<int, seq<byte>>, a: Alignment) {
    && e.base == f.base && e.last == f.base + RecordCount(f.bytes) - 1 && e.recordBytes == |f.bytes|
    && f.bytes != [] && ReadEntry(e, files, a) == Records(f.bytes)
  }

  lemma EntryDescribes(base: int, frames: seq<Frame>, k: nat, files: map<int, seq<byte>>, a: Alignment)
    requires k < |frames| && Recoverable(frames[k])
    requires SegmentFile(frames, a) <= FileOf(files, base)
    ensures Describes(SegmentEntries(base, frames, a)[k], frames[k], files, a)
  {
    hide SegmentFile;
    EntriesPrefix(base, frames, k, a);
    PrefixSize(frames, k, a);
    FrameSlice(frames, k, a);
    SubSlice(FileOf(files, base), 0, Size(frames, a), Size(frames[..k], a), Size(frames[..k + 1], a));
    DescribesFrame(base, frames[k], Size(frames[..k], a), files, a);
  }

  lemma DescribesFrame(base: int, f: Frame, position: nat, files: map<int, seq<byte>>, a: Alignment)
    requires Recoverable(f)
    requires position + FrameSize(|f.bytes|, a) <= |FileOf(files, base)|
    requires FileOf(files, base)[position..position + FrameSize(|f.bytes|, a)] == FrameBytes(f, a)
    ensures Describes(EntryOf(base, f, position), f, files, a)
  {
    var image := FrameBytes(f, a);
    HeaderRoundTrip(f.base, |f.bytes|, image[20..]);
    assert image == FrameHeader(f.base, |f.bytes|) + image[20..];
  }

  /** Entry by entry, es describes frames. */
  ghost predicate AllDescribe(es: seq<Entry>, frames: seq<Frame>, files: map<int, seq<byte>>, a: Alignment) {
    |es| == |frames| && forall i :: 0 <= i < |frames| ==> Describes(es[i], frames[i], files, a)
  }

  lemma DescribeJoin(es: seq<Entry>, frames: seq<Frame>, es': seq<Entry>, frames': seq<Frame>,
                     files: map<int, seq<byte>>, a: Alignment)
    requires AllDescribe(es, frames, files, a) && AllDescribe(es', frames', files, a)
    ensures AllDescribe(es + es', frames + frames', files, a)
  {
    hide Describes;
  }

  lemma SegmentDescribes(s: Segment, files: map<int, seq<byte>>, a: Alignment)
    requires ValidFrames(s.frames, s.base) && SegmentFile(s.frames, a) <= FileOf(files, s.base)
    ensures AllDescribe(SegmentEntries(s.base, s.frames, a), s.frames, files, a)
  {
    hide SegmentFile, Describes;
    ValidRecoverable(s.frames, s.base);
    forall k | 0 <= k < |s.frames|
      ensures Describes(SegmentEntries(s.base, s.frames, a)[k], s.frames[k], files, a)
    {
      assert s.frames[k] in s.frames;
      EntryDescribes(s.base, s.frames, k, files, a);
    }
  }

  lemma {:induction false} LayoutAllDescribe(segs: seq<Segment>, files: map<int, seq<byte>>, g: Geometry)
    requires Valid(segs, g)
    requires forall s :: s in segs ==> SegmentFile(s.frames, g.align) <= FileOf(files, s.base)
    ensures AllDescribe(Entries(segs, g.align), AllFrames(segs), files, g.align)
  {
    hide SegmentFile, AllDescribe, ValidFrames, SegmentEntries, Size;
    var front, s, a := Front(segs), Last(segs), g.align;
    FrontLast(segs);
    assert s in segs;
    if |segs| == 1 {
      assert front == [];
      NoneDescribe(files, a);
    } else {
      LayoutAllDescribe(front, files, g);
    }
    SegmentDescribes(s, files, a);
    DescribeJoin(Entries(front, a), AllFrames(front), SegmentEntries(s.base, s.frames, a), s.frames, files, a);
  }

  lemma NoneDescribe(files: map<int, seq<byte>>, a: Alignment)
    ensures AllDescribe([], [], files, a)
  {
  }

  /** Every entry of a layout describes its frame, over any files that begin with the layout's. */
  lemma LayoutDescribes(segs: seq<Segment>, files: map<int, seq<byte>>, g: Geometry)
    requires Valid(segs, g)
    requires forall s :: s in segs ==> SegmentFile(s.frames, g.align) <= FileOf(files, s.base)
    ensures |Entries(segs, g.align)| == |AllFrames(segs)|
    ensures forall i :: 0 <= i < |AllFrames(segs)| ==>
              Describes(Entries(segs, g.align)[i], AllFrames(segs)[i], files, g.align)
  {
    hide SegmentFile, Describes, Valid, Entries, AllFrames;
    LayoutAllDescribe(segs, files, g);
  }

  // ---- Order of a layout's entries -----------------------------------------

  /** Entries of one segment: bounded offsets, disjoint increasing frames. */
  ghost predicate Ordered(es: seq<Entry>, a: Alignment) {
    forall i, j :: 0 <= i < j < |es| ==>
      && es[i].last <= es[j].last
      && (es[i].segmentBase == es[j].segmentBase ==> es[i].position + FrameSize(es[i].recordBytes, a) <= es[j].position)
  }

  ghost predicate Bounded(es: seq<Entry>, base: int, end: int, size: nat, a: Alignment) {
    forall e :: e in es ==>
      && e.last < end
      && (e.segmentBase == base ==> e.position + FrameSize(e.recordBytes, a) <= size)
      && e.segmentBase <= base
  }

  lemma {:induction false} SegmentOrdered(es: seq<Entry>, base: int, frames: seq<Frame>, a: Alignment)
    requires ValidFrames(frames, base) && Ordered(es, a) && Bounded(es, base, base, 0, a)
    ensures Ordered(es + SegmentEntries(base, frames, a), a)
    ensures Bounded(es + SegmentEntries(base, frames, a), base, base + Count(frames), Size(frames, a), a)
  {
    hide RecordCount, FrameSize;
    if frames == [] {
      assert es + SegmentEntries(base, frames, a) == es;
    } else {
      var front, f := Front(frames), Last(frames);
      SegmentOrdered(es, base, front, a);
      var before, e := es + SegmentEntries(base, front, a), EntryOf(base, f, Size(front, a));
      assert es + SegmentEntries(base, frames, a) == before + [e];
      OrderedSnoc(before, e, base, base + Count(front), a);
    }
  }

  lemma OrderedSnoc(es: seq<Entry>, e: Entry, base: int, end: int, a: Alignment)
    requires Ordered(es, a) && Bounded(es, base, end, e.position, a)
    requires e.segmentBase == base && end <= e.last + 1
    ensures Ordered(es + [e], a)
    ensures Bounded(es + [e], base, e.last + 1, e.position + FrameSize(e.recordBytes, a), a)
  {
    var all := es + [e];
    forall i, j | 0 <= i < j < |all|
      ensures all[i].last <= all[j].last
      ensures all[i].segmentBase == all[j].segmentBase ==>
                all[i].position + FrameSize(all[i].recordBytes, a) <= all[j].position
    {
      assert all[i] in es;
    }
  }

  /** Entries bounded by one segment are before the next. */
  lemma BoundedNext(es: seq<Entry>, base: int, end: int, size: nat, next: int, a: Alignment)
    requires Bounded(es, base, end, size, a) && base < next && end <= next
    ensures Bounded(es, next, next, 0, a)
  {
    hide FrameSize;
  }

  lemma {:induction false} LayoutOrdered(segs: seq<Segment>, g: Geometry)
    requires Valid(segs, g)
    ensures Ordered(Entries(segs, g.align), g.align)
    ensures Bounded(Entries(segs, g.align), Last(segs).base, End(segs), Size(Last(segs).frames, g.align), g.align)
  {
    hide Ordered, Bounded, Size, ValidFrames, SegmentEntries;
    var front, s, a := Front(segs), Last(segs), g.align;
    if |segs| == 1 {
      assert front == [];
      NoneOrdered(s.base, a);
    } else {
      LayoutOrdered(front, g);
      FilesBounded(front, g);
      BoundedNext(Entries(front, a), Last(front).base, End(front), Size(Last(front).frames, a), s.base, a);
    }
    SegmentOrdered(Entries(front, a), s.base, s.frames, a);
  }

  lemma NoneOrdered(base: int, a: Alignment)
    ensures Ordered([], a) && Bounded([], base, base, 0, a)
  {
  }

  lemma DescribedReadable(entries: seq<Entry>, frames: seq<Frame>, files: map<int, seq<byte>>, a: Alignment)
    requires |entries| == |frames| && Ordered(entries, a)
    requires forall i :: 0 <= i < |frames| ==> Describes(entries[i], frames[i], files, a)
    ensures Readable(entries, files, a)
  {
    hide ReadEntry, FrameSize, RecordCount;
    forall e | e in entries
      ensures OnDisk(e, files, a)
    {
      var i :| 0 <= i < |entries| && entries[i] == e;
      assert Describes(entries[i], frames[i], files, a);
    }
  }

  lemma LayoutReadable(segs: seq<Segment>, g: Geometry)
    requires Valid(segs, g)
    ensures Readable(Entries(segs, g.align), Files(segs, g.align), g.align)
  {
    hide SegmentFile, Readable;
    FileSizes(segs, g);
    LayoutDescribes(segs, Files(segs, g.align), g);
    LayoutOrdered(segs, g);
    DescribedReadable(Entries(segs, g.align), AllFrames(segs), Files(segs, g.align), g.align);
  }

  // ---- Fetch returns history -----------------------------------------------

  lemma {:induction false} ReadsFrames(entries: seq<Entry>, frames: seq<Frame>, i: nat, files: map<int, seq<byte>>,
                                       q: Query, got: seq<byte>)
    requires |entries| == |frames|
    requires forall k :: 0 <= k < |frames| ==> Describes(entries[k], frames[k], files, q.align)
    ensures ReadFrom(entries, i, files, q, got) == Records(FramesFetch(frames, i, q, got))
    decreases |frames| - i
  {
    hide ReadEntry, RecordCount;
    if i < |frames| {
      assert Describes(entries[i], frames[i], files, q.align);
      ReadsFrames(entries, frames, i + 1, files, q, got);
      ReadsFrames(entries, frames, i + 1, files, q, got + frames[i].bytes);
    }
  }

  /**
   Merged fetch refines history. For every run of nonempty appends and every
   query, the per-entry reader, and with it the merged read, returns the record
   sets of the history that the query admits.
   */
  lemma FetchReturnsHistory(history: seq<seq<byte>>, g: Geometry, q: Query)
    requires Storable(history) && [] !in history && q.align == g.align
    ensures var log := Run(history, g);
            && Readable(log.mem.entries, log.disk.files, g.align)
            && ReadFrom(log.mem.entries, 0, log.disk.files, q, []) == Records(FramesFetch(FramesOf(history), 0, q, []))
  {
    hide Run, ReadFrom, FramesFetch, Readable, SegmentFile, Describes;
    var segs := LayoutOf(history, g);
    RunIsLayout(history, g);
    LayoutReadable(segs, g);
    LayoutFrames(history, g);
    FileSizes(segs, g);
    LayoutDescribes(segs, Files(segs, g.align), g);
    ReadsFrames(Entries(segs, g.align), AllFrames(segs), 0, Files(segs, g.align), q, []);
  }
}
