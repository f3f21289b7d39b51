/**
 State of a partition log, and the layout it stands for: a sequence of
 segments, each a run of frames. The append specification works on positions
 and bytes; the refinement below shows that every run of appends keeps the
 state equal to the image of a well-formed layout.
 */
module LogLayout {
  import opened Bytes
  import opened RecordBatch
  import opened LogFormat

  datatype Geometry = Geometry(align: Alignment, segmentBytes: nat)

  /** The fields a restart has to rebuild. */
  datatype Memory = Memory(
    entries: seq<Entry>,
    segments: seq<SegmentInfo>,
    latest: int,
    active: int,
    writePosition: nat,
    indexPosition: nat)

  datatype Disk = Disk(files: map<int, seq<byte>>, index: seq<byte>)

  datatype Log = Log(mem: Memory, disk: Disk)

  const FRESH := Log(Memory([], [], 0, 0, 0, 0), Disk(map[0 := []], []))

  function Last<T>(s: seq<T>): T
    requires s != []
  {
    s[|s| - 1]
  }

  function Front<T>(s: seq<T>): seq<T>
    requires s != []
  {
    s[..|s| - 1]
  }

  lemma FrontLast<T>(s: seq<T>)
    requires s != []
    ensures Front(s) + [Last(s)] == s
  {
  }

  function Max(x: int, y: int): (m: int)
    ensures m >= x && m >= y && (m == x || m == y)
  {
    if x < y then y else x
  }

  // ---- Appending -----------------------------------------------------------

  /** `note_index_entry` on the segment table. */
  function NoteSegment(segments: seq<SegmentInfo>, e: Entry, a: Alignment): (r: seq<SegmentInfo>)
    ensures r != []
  {
    var next := e.position + FrameSize(e.recordBytes, a);
    if segments == [] || Last(segments).base != e.segmentBase then
      segments + [SegmentInfo(e.segmentBase, e.last, next)]
    else
      var s := Last(segments);
      Front(segments) + [SegmentInfo(s.base, Max(s.last, e.last), Max(s.writePosition, next))]
  }

  function Table(entries: seq<Entry>, a: Alignment): seq<SegmentInfo> {
    if entries == [] then [] else NoteSegment(Table(Front(entries), a), Last(entries), a)
  }

  lemma TableSnoc(es: seq<Entry>, e: Entry, a: Alignment)
    ensures Table(es + [e], a) == NoteSegment(Table(es, a), e, a)
  {
    assert Front(es + [e]) == es && Last(es + [e]) == e;
  }

  predicate RollsOver(mem: Memory, size: nat, g: Geometry) {
    mem.writePosition != 0 && mem.writePosition + size > g.segmentBytes
  }

  function FileOf(files: map<int, seq<byte>>, base: int): seq<byte> {
    if base in files then files[base] else []
  }

  /** Effect of writing one frame: roll over if needed, write the frame, note its entry. */
  function Written(log: Log, f: Frame, g: Geometry): Log {
    var m := log.mem;
    var size := FrameSize(|f.bytes|, g.align);
    var active := if RollsOver(m, size, g) then f.base else m.active;
    var position := if RollsOver(m, size, g) then 0 else m.writePosition;
    var e := EntryOf(active, f, position);
    Log(Memory(m.entries + [e], NoteSegment(m.segments, e, g.align), m.latest,
               active, position + size, m.indexPosition + IndexEntrySize(g.align)),
        Disk(log.disk.files[active := WriteAt(FileOf(log.disk.files, active), position, FrameBytes(f, g.align))],
             WriteAt(log.disk.index, m.indexPosition, EncodeEntry(e, g.align))))
  }

  lemma WrittenKeepsLatest(log: Log, latest: int, f: Frame, g: Geometry)
    ensures Written(log.(mem := log.mem.(latest := latest)), f, g)
         == Written(log, f, g).(mem := Written(log, f, g).mem.(latest := latest))
  {
  }

  /** Effect of an admitted append of `bytes` at the log end. */
  function Appended(log: Log, bytes: seq<byte>, g: Geometry): Log {
    var w := Written(log, Frame(log.mem.latest, bytes), g);
    w.(mem := w.mem.(latest := log.mem.latest + RecordCount(bytes)))
  }

  /** The log after appending each record set of a history to a fresh log. */
  function Run(history: seq<seq<byte>>, g: Geometry): Log {
    if history == [] then FRESH else Appended(Run(Front(history), g), Last(history), g)
  }

  /** Offsets taken by a history. */
  function EndOffset(history: seq<seq<byte>>): nat {
    if history == [] then 0 else EndOffset(Front(history)) + RecordCount(Last(history))
  }

  predicate Storable(history: seq<seq<byte>>) {
    EndOffset(history) < MAX_OFFSET && forall r :: r in history ==> |r| < MAX_RECORDS
  }

  // ---- Layouts -------------------------------------------------------------

  datatype Segment = Segment(base: int, frames: seq<Frame>)

  function Count(frames: seq<Frame>): nat {
    if frames == [] then 0 else Count(Front(frames)) + RecordCount(Last(frames).bytes)
  }

  function Size(frames: seq<Frame>, a: Alignment): nat {
    if frames == [] then 0 else Size(Front(frames), a) + FrameSize(|Last(frames).bytes|, a)
  }

  function SegmentFile(frames: seq<Frame>, a: Alignment): (s: seq<byte>)
    ensures |s| == Size(frames, a)
  {
    if frames == [] then [] else SegmentFile(Front(frames), a) + FrameBytes(Last(frames), a)
  }

  function SegmentEntries(base: int, frames: seq<Frame>, a: Alignment): (es: seq<Entry>)
    ensures |es| == |frames|
  {
    if frames == [] then []
    else SegmentEntries(base, Front(frames), a) + [EntryOf(base, Last(frames), Size(Front(frames), a))]
  }

  /** Frames follow each other without gap from offset b, and none is empty. */
  predicate ValidFrames(frames: seq<Frame>, b: int) {
    frames == [] ||
    (ValidFrames(Front(frames), b) && Last(frames).bytes != [] &&
     Last(frames).base == b + Count(Front(frames)) && FrameFits(Last(frames)))
  }

  function End(segs: seq<Segment>): int
    requires segs != []
  {
    Last(segs).base + Count(Last(segs).frames)
  }

  predicate Valid(segs: seq<Segment>, g: Geometry) {
    && segs != []
    && ValidFrames(Last(segs).frames, Last(segs).base)
    && (Size(Last(segs).frames, g.align) <= g.segmentBytes || |Last(segs).frames| <= 1)
    && if |segs| == 1 then segs[0].base == 0
       else
         && Valid(Front(segs), g) && Last(segs).base == End(Front(segs))
         && Last(segs).frames != [] && Last(Front(segs)).frames != []
  }

  function Entries(segs: seq<Segment>, a: Alignment): seq<Entry> {
    if segs == [] then []
    else Entries(Front(segs), a) + SegmentEntries(Last(segs).base, Last(segs).frames, a)
  }

  function Files(segs: seq<Segment>, a: Alignment): map<int, seq<byte>> {
    if segs == [] then map[]
    else Files(Front(segs), a)[Last(segs).base := SegmentFile(Last(segs).frames, a)]
  }

  function MemoryOf(segs: seq<Segment>, a: Alignment): Memory
    requires segs != []
  {
    var es := Entries(segs, a);
    Memory(es, Table(es, a), End(segs), Last(segs).base, Size(Last(segs).frames, a), |IndexImage(es, a)|)
  }

  function StateOf(segs: seq<Segment>, a: Alignment): Log
    requires segs != []
  {
    Log(MemoryOf(segs, a), Disk(Files(segs, a), IndexImage(Entries(segs, a), a)))
  }

  /** The layout after one more record set, rolling over exactly when it would not fit. */
  function Extend(segs: seq<Segment>, bytes: seq<byte>, g: Geometry): seq<Segment>
    requires segs != []
  {
    var f, s := Frame(End(segs), bytes), Last(segs);
    if s.frames == [] || Size(s.frames, g.align) + FrameSize(|bytes|, g.align) <= g.segmentBytes
    then Front(segs) + [Segment(s.base, s.frames + [f])]
    else segs + [Segment(f.base, [f])]
  }

  function LayoutOf(history: seq<seq<byte>>, g: Geometry): (segs: seq<Segment>)
    ensures segs != []
  {
    if history == [] then [Segment(0, [])] else Extend(LayoutOf(Front(history), g), Last(history), g)
  }

  // ---- Refinement ----------------------------------------------------------

  lemma {:induction false} CountPositive(frames: seq<Frame>, b: int)
    requires ValidFrames(frames, b) && frames != []
    ensures Count(frames) >= 1
  {
  }

  lemma FramesSnoc(frames: seq<Frame>, f: Frame, a: Alignment)
    ensures Front(frames + [f]) == frames && Last(frames + [f]) == f
    ensures Size(frames + [f], a) == Size(frames, a) + FrameSize(|f.bytes|, a)
    ensures Count(frames + [f]) == Count(frames) + RecordCount(f.bytes)
    ensures SegmentFile(frames + [f], a) == SegmentFile(frames, a) + FrameBytes(f, a)
    ensures forall b :: SegmentEntries(b, frames + [f], a)
              == SegmentEntries(b, frames, a) + [EntryOf(b, f, Size(frames, a))]
    ensures forall b :: ValidFrames(frames + [f], b) ==
              (ValidFrames(frames, b) && f.bytes != [] && f.base == b + Count(frames) && FrameFits(f))
  {
    assert Front(frames + [f]) == frames && Last(frames + [f]) == f;
  }

  lemma SegmentsSnoc(segs: seq<Segment>, s: Segment)
    ensures Front(segs + [s]) == segs && Last(segs + [s]) == s
  {
  }

  lemma ValidSnoc(front: seq<Segment>, s: Segment, g: Geometry)
    ensures Valid(front + [s], g) ==
            (&& ValidFrames(s.frames, s.base)
             && (Size(s.frames, g.align) <= g.segmentBytes || |s.frames| <= 1)
             && if front == [] then s.base == 0
                else Valid(front, g) && s.base == End(front) && s.frames != [] && Last(front).frames != [])
  {
    SegmentsSnoc(front, s);
  }

  lemma ExtendValid(segs: seq<Segment>, bytes: seq<byte>, g: Geometry)
    requires Valid(segs, g) && bytes != [] && |bytes| < MAX_RECORDS && 0 <= End(segs) < MAX_OFFSET
    ensures Valid(Extend(segs, bytes, g), g)
    ensures End(Extend(segs, bytes, g)) == End(segs) + RecordCount(bytes)
  {
    hide RecordCount, FrameSize;
    var f, s, front := Frame(End(segs), bytes), Last(segs), Front(segs);
    FramesSnoc(s.frames, f, g.align);
    ValidSnoc(front, s, g);
    FrontLast(segs);
    if s.frames == [] || Size(s.frames, g.align) + FrameSize(|bytes|, g.align) <= g.segmentBytes {
      ValidSnoc(front, Segment(s.base, s.frames + [f]), g);
    } else {
      FramesSnoc([], f, g.align);
      assert [] + [f] == [f];
      ValidSnoc(segs, Segment(f.base, [f]), g);
    }
  }

  /** Every base in the directory of a layout is at most its last base. */
  lemma {:induction false} FilesBounded(segs: seq<Segment>, g: Geometry)
    requires Valid(segs, g)
    ensures forall k :: k in Files(segs, g.align) ==> 0 <= k <= Last(segs).base
    ensures Last(segs).frames != [] ==> End(segs) > Last(segs).base
  {
    if |segs| > 1 {
      FilesBounded(Front(segs), g);
    } else {
      assert Front(segs) == [];
    }
    if Last(segs).frames != [] {
      CountPositive(Last(segs).frames, Last(segs).base);
    }
  }

  lemma WriteAtEnd(file: seq<byte>, data: seq<byte>)
    ensures WriteAt(file, |file|, data) == file + data
  {
  }

  /** Rolling over is decided by the write position exactly as by the layout. */
  lemma ExtendShape(segs: seq<Segment>, bytes: seq<byte>, g: Geometry)
    requires segs != []
    ensures var f, s, next := Frame(End(segs), bytes), Last(segs), Extend(segs, bytes, g);
            var roll := RollsOver(MemoryOf(segs, g.align), FrameSize(|bytes|, g.align), g);
            && next != [] && Last(next).frames != []
            && Front(next) == (if roll then segs else Front(segs))
            && Last(next).base == (if roll then f.base else s.base)
            && Front(Last(next).frames) == (if roll then [] else s.frames)
            && Last(Last(next).frames) == f
            && End(next) == End(segs) + RecordCount(bytes)
  {
    var f, s := Frame(End(segs), bytes), Last(segs);
    FramesSnoc(s.frames, f, g.align);
    FramesSnoc([], f, g.align);
    assert [] + [f] == [f];
    SegmentsSnoc(Front(segs), Segment(s.base, s.frames + [f]));
    SegmentsSnoc(segs, Segment(f.base, [f]));
    assert s.frames != [] ==> Size(s.frames, g.align) > 0;
  }

  lemma ExtendEntries(segs: seq<Segment>, bytes: seq<byte>, g: Geometry)
    requires segs != []
    ensures var f, next := Frame(End(segs), bytes), Extend(segs, bytes, g);
            next != [] && Last(next).frames != [] &&
            Entries(next, g.align) == Entries(segs, g.align)
              + [EntryOf(Last(next).base, f, Size(Front(Last(next).frames), g.align))]
  {
    ExtendShape(segs, bytes, g);
  }

  lemma FilesGrow(front: seq<Segment>, s: Segment, f: Frame, a: Alignment)
    ensures Files(front + [Segment(s.base, s.frames + [f])], a) == Files(front + [s], a)[s.base :=
              WriteAt(FileOf(Files(front + [s], a), s.base), Size(s.frames, a), FrameBytes(f, a))]
  {
    SegmentsSnoc(front, s);
    SegmentsSnoc(front, Segment(s.base, s.frames + [f]));
    FramesSnoc(s.frames, f, a);
    WriteAtEnd(SegmentFile(s.frames, a), FrameBytes(f, a));
  }

  lemma FilesRoll(segs: seq<Segment>, f: Frame, a: Alignment)
    requires f.base !in Files(segs, a)
    ensures Files(segs + [Segment(f.base, [f])], a) == Files(segs, a)[f.base :=
              WriteAt(FileOf(Files(segs, a), f.base), 0, FrameBytes(f, a))]
  {
    SegmentsSnoc(segs, Segment(f.base, [f]));
    FramesSnoc([], f, a);
    assert [] + [f] == [f];
    WriteAtEnd([], FrameBytes(f, a));
  }

  lemma ExtendFiles(segs: seq<Segment>, bytes: seq<byte>, g: Geometry)
    requires Valid(segs, g)
    ensures var f, m := Frame(End(segs), bytes), MemoryOf(segs, g.align);
            var roll := RollsOver(m, FrameSize(|bytes|, g.align), g);
            var base, position := if roll then f.base else m.active, if roll then 0 else m.writePosition;
            Files(Extend(segs, bytes, g), g.align) == Files(segs, g.align)[base :=
              WriteAt(FileOf(Files(segs, g.align), base), position, FrameBytes(f, g.align))]
  {
    hide FrameBytes, WriteAt;
    var f, s := Frame(End(segs), bytes), Last(segs);
    assert s.frames != [] ==> Size(s.frames, g.align) > 0;
    if RollsOver(MemoryOf(segs, g.align), FrameSize(|bytes|, g.align), g) {
      FilesBounded(segs, g);
      FilesRoll(segs, f, g.align);
    } else {
      FilesGrow(Front(segs), s, f, g.align);
      FrontLast(segs);
    }
  }

  /** One append on positions and bytes is one extension of the layout. */
  lemma AppendRefines(segs: seq<Segment>, bytes: seq<byte>, g: Geometry)
    requires Valid(segs, g) && bytes != []
    ensures Appended(StateOf(segs, g.align), bytes, g) == StateOf(Extend(segs, bytes, g), g.align)
  {
    var a, es, next := g.align, Entries(segs, g.align), Extend(segs, bytes, g);
    var f := Frame(End(segs), bytes);
    ExtendShape(segs, bytes, g);
    ExtendEntries(segs, bytes, g);
    ExtendFiles(segs, bytes, g);
    var e := EntryOf(Last(next).base, f, Size(Front(Last(next).frames), a));
    EntriesSnoc(es, e, a);
    var left, right := Appended(StateOf(segs, a), bytes, g), StateOf(next, a);
    assert left.mem.entries == right.mem.entries;
    assert left.mem.segments == right.mem.segments;
    assert left.mem.latest == right.mem.latest;
    assert left.mem.active == right.mem.active;
    assert left.mem.writePosition == right.mem.writePosition;
    assert left.mem.indexPosition == right.mem.indexPosition;
    assert left.disk.files == right.disk.files;
    assert left.disk.index == right.disk.index;
  }

  lemma EntriesSnoc(es: seq<Entry>, e: Entry, a: Alignment)
    ensures Table(es + [e], a) == NoteSegment(Table(es, a), e, a)
    ensures |IndexImage(es + [e], a)| == |IndexImage(es, a)| + IndexEntrySize(a)
    ensures IndexImage(es + [e], a) == WriteAt(IndexImage(es, a), |IndexImage(es, a)|, EncodeEntry(e, a))
  {
    assert Front(es + [e]) == es && Last(es + [e]) == e;
    WriteAtEnd(IndexImage(es, a), EncodeEntry(e, a));
  }

  lemma FreshIsLayout(g: Geometry)
    ensures Valid([Segment(0, [])], g)
    ensures FRESH == StateOf([Segment(0, [])], g.align)
  {
    var segs, a := [Segment(0, [])], g.align;
    assert Front(segs) == [];
    assert Entries(segs, a) == [];
    assert Files(segs, a) == map[0 := []];
    assert IndexImage([], a) == [];
  }

  /** Every run of appends of nonempty record sets is the image of a valid layout. */
  lemma {:induction false} RunIsLayout(history: seq<seq<byte>>, g: Geometry)
    requires Storable(history) && [] !in history
    ensures Valid(LayoutOf(history, g), g)
    ensures Run(history, g) == StateOf(LayoutOf(history, g), g.align)
    ensures End(LayoutOf(history, g)) == EndOffset(history)
  {
    if history == [] {
      FreshIsLayout(g);
    } else {
      var front := Front(history);
      assert forall r :: r in front ==> r in history;
      assert Last(history) in history;
      RunIsLayout(front, g);
      var segs, last := LayoutOf(front, g), Last(history);
      ExtendValid(segs, last, g);
      AppendRefines(segs, last, g);
      assert LayoutOf(history, g) == Extend(segs, last, g);
      assert Run(front, g) == StateOf(segs, g.align);
      assert Run(history, g) == Appended(Run(front, g), last, g);
    }
  }

  /** Segment i was sealed because the first frame of the next did not fit. */
  ghost predicate Sealed(segs: seq<Segment>, i: nat, g: Geometry)
    requires i + 1 < |segs|
  {
    && segs[i + 1].frames != []
    && Size(segs[i].frames, g.align) + FrameSize(|segs[i + 1].frames[0].bytes|, g.align) > g.segmentBytes
  }

  ghost predicate Packed(segs: seq<Segment>, g: Geometry) {
    forall i :: 0 <= i < |segs| - 1 ==> Sealed(segs, i, g)
  }

  lemma ExtendPacked(segs: seq<Segment>, bytes: seq<byte>, g: Geometry)
    requires segs != [] && Packed(segs, g) && (|segs| > 1 ==> Last(segs).frames != [])
    ensures Packed(Extend(segs, bytes, g), g)
    ensures Last(Extend(segs, bytes, g)).frames != []
  {
    hide FrameSize, RecordCount, Size;
    var next := Extend(segs, bytes, g);
    forall i | 0 <= i < |next| - 1 ensures Sealed(next, i, g) {
      if i < |segs| - 1 {
        assert Sealed(segs, i, g);
      }
    }
  }

  /** A run rolls over only when it has to: every segment but the last was full for what came next. */
  lemma {:induction false} RunIsPacked(history: seq<seq<byte>>, g: Geometry)
    ensures Packed(LayoutOf(history, g), g)
    ensures |LayoutOf(history, g)| > 1 ==> Last(LayoutOf(history, g)).frames != []
  {
    hide Extend, Packed;
    if history == [] {
      assert Packed([Segment(0, [])], g) by { OnePacked(g); }
    } else {
      RunIsPacked(Front(history), g);
      ExtendPacked(LayoutOf(Front(history), g), Last(history), g);
    }
  }

  lemma OnePacked(g: Geometry)
    ensures Packed([Segment(0, [])], g)
  {
  }
}
