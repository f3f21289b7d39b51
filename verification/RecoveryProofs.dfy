/**
 The recovery theorems: the scan rebuilds the state every run of appends left,
 a torn tail loses exactly the frames that are not whole, and the fast path
 never disagrees with the scan.
 */
module RecoveryProofs {
  import opened Bytes
  import opened RecordBatch
  import opened LogFormat
  import opened LogLayout
  import opened Recovery

  // ---- The segment table of a layout ---------------------------------------

  function InfoOf(s: Segment, a: Alignment): SegmentInfo {
    SegmentInfo(s.base, s.base + Count(s.frames) - 1, Size(s.frames, a))
  }

  function Infos(segs: seq<Segment>, a: Alignment): seq<SegmentInfo> {
    if segs == [] then []
    else Infos(Front(segs), a) + if Last(segs).frames == [] then [] else [InfoOf(Last(segs), a)]
  }

  lemma {:induction false} TableSegment(es: seq<Entry>, base: int, frames: seq<Frame>, a: Alignment)
    requires ValidFrames(frames, base) && frames != []
    requires Table(es, a) == [] || Last(Table(es, a)).base != base
    ensures Table(es + SegmentEntries(base, frames, a), a) == Table(es, a) + [InfoOf(Segment(base, frames), a)]
  {
    hide FrameSize, RecordCount, Table;
    var front, f := Front(frames), Last(frames);
    var e := EntryOf(base, f, Size(front, a));
    var before := es + SegmentEntries(base, front, a);
    assert es + SegmentEntries(base, frames, a) == before + [e];
    TableSnoc(before, e, a);
    if front == [] {
      assert before == es;
    } else {
      TableSegment(es, base, front, a);
      NoteSame(Table(es, a), InfoOf(Segment(base, front), a), e, a);
    }
  }

  lemma NoteSame(t: seq<SegmentInfo>, s: SegmentInfo, e: Entry, a: Alignment)
    requires s.base == e.segmentBase && s.last <= e.last && s.writePosition == e.position
    ensures NoteSegment(t + [s], e, a) == t + [SegmentInfo(s.base, e.last, e.position + FrameSize(e.recordBytes, a))]
  {
    assert Front(t + [s]) == t && Last(t + [s]) == s;
  }

  lemma {:induction false} TableOf(segs: seq<Segment>, g: Geometry)
    requires Valid(segs, g)
    ensures Table(Entries(segs, g.align), g.align) == Infos(segs, g.align)
    ensures Last(segs).frames != [] ==>
              Infos(segs, g.align) != [] && Last(Infos(segs, g.align)) == InfoOf(Last(segs), g.align)
  {
    var front, s := Front(segs), Last(segs);
    if |segs| == 1 {
      assert front == [];
      assert Entries(front, g.align) == [];
    } else {
      TableOf(front, g);
      FilesBounded(front, g);
    }
    if s.frames != [] {
      TableSegment(Entries(front, g.align), s.base, s.frames, g.align);
    }
  }

  // ---- Log ends ------------------------------------------------------------

  lemma {:induction false} EndsOfSegment(es: seq<Entry>, base: int, frames: seq<Frame>, a: Alignment)
    requires ValidFrames(frames, base) && MaxEnd(es) <= base
    ensures frames != [] ==> LastEnd(es + SegmentEntries(base, frames, a)) == base + Count(frames)
    ensures frames != [] ==> MaxEnd(es + SegmentEntries(base, frames, a)) == base + Count(frames)
    ensures MaxEnd(es + SegmentEntries(base, frames, a)) <= base + Count(frames)
  {
    hide RecordCount;
    if frames == [] {
      assert es + SegmentEntries(base, frames, a) == es;
    } else {
      var front, f := Front(frames), Last(frames);
      var e := EntryOf(base, f, Size(front, a));
      var before := es + SegmentEntries(base, front, a);
      assert es + SegmentEntries(base, frames, a) == before + [e];
      assert Front(before + [e]) == before && Last(before + [e]) == e;
      EndsOfSegment(es, base, front, a);
    }
  }

  lemma {:induction false} EndsOf(segs: seq<Segment>, g: Geometry)
    requires Valid(segs, g)
    ensures LastEnd(Entries(segs, g.align)) == MaxEnd(Entries(segs, g.align)) == End(segs)
  {
    var front, s := Front(segs), Last(segs);
    if |segs| == 1 {
      assert front == [];
      assert Entries(front, g.align) == [];
    } else {
      EndsOf(front, g);
    }
    EndsOfSegment(Entries(front, g.align), s.base, s.frames, g.align);
  }

  /** The memory of a layout is what either recovery path derives from its entries. */
  lemma MemoryFromEntries(segs: seq<Segment>, g: Geometry)
    requires Valid(segs, g)
    ensures var es := Entries(segs, g.align);
            MemoryOf(segs, g.align) == MemoryFrom(es, LastEnd(es), g.align) == IndexMemory(es, g.align)
  {
    EndsOf(segs, g);
    TableOf(segs, g);
    if Last(segs).frames == [] {
      assert Front(segs) == [];
    }
  }

  // ---- Scanning a directory ------------------------------------------------

  function Bases(segs: seq<Segment>): (bs: seq<int>)
    ensures |bs| == |segs|
  {
    if segs == [] then [] else Bases(Front(segs)) + [Last(segs).base]
  }

  lemma {:induction false} ListingOf(segs: seq<Segment>, g: Geometry)
    requires Valid(segs, g)
    ensures Listing(Files(segs, g.align).Keys) == Bases(segs)
  {
    hide SegmentFile;
    var front, s, keys := Front(segs), Last(segs), Files(segs, g.align).Keys;
    FilesBounded(segs, g);
    assert IsMax(s.base, keys);
    assert forall m :: IsMax(m, keys) ==> m == s.base;
    if |segs| == 1 {
      assert front == [];
      assert keys - {s.base} == {};
      assert Listing({}) == [];
    } else {
      ListingOf(front, g);
      FilesBounded(front, g);
      assert s.base !in Files(front, g.align);
      assert keys - {s.base} == Files(front, g.align).Keys;
    }
  }

  /** Every file of a layout, cut to some prefix of itself. */
  ghost predicate CutDown(files: map<int, seq<byte>>, whole: map<int, seq<byte>>) {
    forall k :: k in files ==> k in whole && files[k] <= whole[k]
  }

  function TornEntries(segs: seq<Segment>, files: map<int, seq<byte>>, a: Alignment): seq<Entry> {
    if segs == [] then []
    else
      var s := Last(segs);
      TornEntries(Front(segs), files, a)
      + SegmentEntries(s.base, s.frames[..WholeFrames(s.frames, |FileOf(files, s.base)|, a)], a)
  }

  lemma {:induction false} ScanCutDown(segs: seq<Segment>, files: map<int, seq<byte>>, g: Geometry)
    requires Valid(segs, g)
    requires forall k :: k in Files(segs, g.align) ==> k in files && files[k] <= Files(segs, g.align)[k]
    ensures ScanFiles(Bases(segs), files, g.align) == TornEntries(segs, files, g.align)
  {
    hide SegmentFile, ScanFrames, WholeFrames, FrameFits;
    var front, s, a := Front(segs), Last(segs), g.align;
    if |segs| == 1 {
      assert front == [];
    } else {
      FilesBounded(front, g);
      FilesBounded(segs, g);
      assert s.base !in Files(front, a);
      assert forall k :: k in Files(front, a) ==> Files(front, a)[k] == Files(segs, a)[k];
      ScanCutDown(front, files, g);
    }
    assert Files(segs, a)[s.base] == SegmentFile(s.frames, a);
    var n := |files[s.base]|;
    ValidRecoverable(s.frames, s.base);
    ScanTorn(s.base, s.frames, n, a);
    assert files[s.base] == SegmentFile(s.frames, a)[..n];
    assert Bases(segs) == Bases(front) + [s.base] && Front(Bases(segs)) == Bases(front);
  }

  lemma {:induction false} NothingTorn(segs: seq<Segment>, files: map<int, seq<byte>>, a: Alignment)
    requires forall s :: s in segs ==> |FileOf(files, s.base)| == Size(s.frames, a)
    ensures TornEntries(segs, files, a) == Entries(segs, a)
  {
    if segs != [] {
      var s := Last(segs);
      assert s in segs;
      NothingTorn(Front(segs), files, a);
      assert s.frames[..WholeFrames(s.frames, |FileOf(files, s.base)|, a)] == s.frames;
    }
  }

  lemma {:induction false} FileSizes(segs: seq<Segment>, g: Geometry)
    requires Valid(segs, g)
    ensures forall s :: s in segs ==>
              s.base in Files(segs, g.align) && Files(segs, g.align)[s.base] == SegmentFile(s.frames, g.align)
  {
    hide SegmentFile;
    FrontLast(segs);
    if |segs| > 1 {
      FileSizes(Front(segs), g);
      FilesBounded(Front(segs), g);
    }
  }

  /** Scanning the directory of a layout rebuilds its memory. */
  lemma ScanLayout(segs: seq<Segment>, g: Geometry)
    requires Valid(segs, g)
    ensures ScanMemory(Files(segs, g.align), g.align) == MemoryOf(segs, g.align)
  {
    hide SegmentFile, ScanFiles, Table;
    ListingOf(segs, g);
    FileSizes(segs, g);
    ScanCutDown(segs, Files(segs, g.align), g);
    NothingTorn(segs, Files(segs, g.align), g.align);
    MemoryFromEntries(segs, g);
  }

  // ---- Recovery equals history ---------------------------------------------

  lemma {:induction false} ScanFindsNoEmpty(base: int, file: seq<byte>, position: nat, a: Alignment)
    ensures forall e :: e in ScanFrames(base, file, position, a) ==> e.recordBytes > 0
    decreases |file| - position
  {
    match ParseFrame(file, position, a)
    case NoFrame =>
    case Whole(f) => ScanFindsNoEmpty(base, file, position + FrameSize(|f.bytes|, a), a);
  }

  lemma {:induction false} ScanFilesFindNoEmpty(bases: seq<int>, files: map<int, seq<byte>>, a: Alignment)
    ensures forall e :: e in ScanFiles(bases, files, a) ==> e.recordBytes > 0
  {
    if bases != [] {
      ScanFilesFindNoEmpty(Front(bases), files, a);
      ScanFindsNoEmpty(Last(bases), FileOf(files, Last(bases)), 0, a);
    }
  }

  lemma {:induction false} RunNotesEmpty(history: seq<seq<byte>>, g: Geometry)
    requires [] in history
    ensures exists e :: e in Run(history, g).mem.entries && e.recordBytes == 0
  {
    hide WriteAt, FrameBytes, EncodeEntry, NoteSegment, RecordCount;
    var before, after := Run(Front(history), g).mem.entries, Run(history, g).mem.entries;
    assert after[..|before|] == before;
    FrontLast(history);
    if Last(history) == [] {
      assert after[|before|].recordBytes == 0;
    } else {
      RunNotesEmpty(Front(history), g);
      var e :| e in before && e.recordBytes == 0;
      assert e in after;
    }
  }

  /**
   Recovery equals history. For every history the scan of the files it left
   rebuilds entries, segment table, log end, active segment, write position and
   index position, exactly when no record set of the history was empty.
   */
  lemma RecoveryEqualsHistory(history: seq<seq<byte>>, g: Geometry)
    requires Storable(history)
    ensures ScanMemory(Run(history, g).disk.files, g.align) == Run(history, g).mem <==> [] !in history
  {
    hide Run;
    if [] in history {
      RunNotesEmpty(history, g);
      ScanFilesFindNoEmpty(Listing(Run(history, g).disk.files.Keys), Run(history, g).disk.files, g.align);
    } else {
      RunIsLayout(history, g);
      ScanLayout(LayoutOf(history, g), g);
    }
  }

  // ---- Torn tail -----------------------------------------------------------

  lemma {:induction false} ValidFramesPrefix(frames: seq<Frame>, k: nat, b: int)
    requires ValidFrames(frames, b) && k <= |frames|
    ensures ValidFrames(frames[..k], b)
  {
    if k < |frames| {
      ValidFramesPrefix(Front(frames), k, b);
      assert Front(frames)[..k] == frames[..k];
    } else {
      assert frames[..k] == frames;
    }
  }

  /** A layout whose last segment keeps only its first k frames. */
  lemma CutLastValid(segs: seq<Segment>, k: nat, g: Geometry)
    requires Valid(segs, g) && k <= |Last(segs).frames| && (k > 0 || |segs| == 1)
    ensures Valid(Front(segs) + [Segment(Last(segs).base, Last(segs).frames[..k])], g)
  {
    var front, s := Front(segs), Last(segs);
    ValidFramesPrefix(s.frames, k, s.base);
    SizeMonotone(s.frames, k, g.align);
    FrontLast(segs);
    ValidSnoc(front, s, g);
    ValidSnoc(front, Segment(s.base, s.frames[..k]), g);
  }

  /** What remains of a layout when its last segment file is cut to n bytes. */
  function TornLayout(segs: seq<Segment>, n: nat, a: Alignment): (r: seq<Segment>)
    requires segs != []
    ensures r != []
  {
    var s := Last(segs);
    var k := WholeFrames(s.frames, n, a);
    if k == 0 && |segs| > 1 then Front(segs) else Front(segs) + [Segment(s.base, s.frames[..k])]
  }

  function TornFiles(segs: seq<Segment>, n: nat, a: Alignment): map<int, seq<byte>>
    requires segs != [] && n <= Size(Last(segs).frames, a)
  {
    Files(segs, a)[Last(segs).base := SegmentFile(Last(segs).frames, a)[..n]]
  }

  lemma TornEntriesAre(segs: seq<Segment>, n: nat, g: Geometry)
    requires Valid(segs, g) && n <= Size(Last(segs).frames, g.align)
    ensures TornEntries(segs, TornFiles(segs, n, g.align), g.align) == Entries(TornLayout(segs, n, g.align), g.align)
  {
    hide SegmentFile, WholeFrames;
    var front, s, a := Front(segs), Last(segs), g.align;
    var files, k := TornFiles(segs, n, a), WholeFrames(s.frames, n, a);
    if |segs| == 1 {
      assert front == [];
    } else {
      FilesBounded(front, g);
      FilesBounded(segs, g);
      FileSizes(front, g);
      forall t | t in front
        ensures |FileOf(files, t.base)| == Size(t.frames, a)
      {
        assert t.base in Files(front, a) && t.base != s.base;
        assert files[t.base] == Files(front, a)[t.base];
      }
      NothingTorn(front, files, a);
    }
    assert TornEntries(segs, files, a) == Entries(front, a) + SegmentEntries(s.base, s.frames[..k], a);
    SegmentsSnoc(front, Segment(s.base, s.frames[..k]));
    assert s.frames[..0] == [];
  }

  lemma TornFilesScan(segs: seq<Segment>, n: nat, g: Geometry)
    requires Valid(segs, g) && n <= Size(Last(segs).frames, g.align)
    ensures ScanFiles(Listing(TornFiles(segs, n, g.align).Keys), TornFiles(segs, n, g.align), g.align)
         == TornEntries(segs, TornFiles(segs, n, g.align), g.align)
  {
    hide SegmentFile, ScanFiles, TornEntries, Entries;
    var files := TornFiles(segs, n, g.align);
    ListingOf(segs, g);
    FileSizes(segs, g);
    FrontLast(segs);
    assert Last(segs) in segs;
    assert files.Keys == Files(segs, g.align).Keys;
    ScanCutDown(segs, files, g);
  }

  /**
   Torn tail. For every layout and every length n the last segment is cut to,
   the scan recovers the memory of exactly the frames lying wholly inside the
   kept bytes; the write position is the end of the last such frame, in the
   previous segment when none is left.
   */
  lemma TornTail(segs: seq<Segment>, n: nat, g: Geometry)
    requires Valid(segs, g) && n <= Size(Last(segs).frames, g.align)
    ensures Valid(TornLayout(segs, n, g.align), g)
    ensures ScanMemory(TornFiles(segs, n, g.align), g.align) == MemoryOf(TornLayout(segs, n, g.align), g.align)
  {
    hide SegmentFile, ScanFiles, Table, MemoryOf, TornEntries, Entries;
    var s, a, torn := Last(segs), g.align, TornLayout(segs, n, g.align);
    if WholeFrames(s.frames, n, a) > 0 || |segs| == 1 {
      CutLastValid(segs, WholeFrames(s.frames, n, a), g);
    }
    TornFilesScan(segs, n, g);
    TornEntriesAre(segs, n, g);
    MemoryFromEntries(torn, g);
  }

  // ---- The fast path -------------------------------------------------------

  /** Any nonempty prefix of a layout's entries is itself a layout, cut from the first. */
  lemma {:induction false} CutLayout(segs: seq<Segment>, m: nat, g: Geometry) returns (cut: seq<Segment>)
    requires Valid(segs, g) && 1 <= m <= |Entries(segs, g.align)|
    ensures Valid(cut, g) && Last(cut).frames != []
    ensures Entries(cut, g.align) == Entries(segs, g.align)[..m]
    ensures CutDown(Files(cut, g.align), Files(segs, g.align))
  {
    var front, a := Front(segs), g.align;
    var es := Entries(front, a);
    FilesBounded(segs, g);
    if m <= |es| {
      assert |segs| > 1;
      FilesBounded(front, g);
      cut := CutLayout(front, m, g);
      assert Entries(segs, a)[..m] == es[..m];
    } else {
      cut := CutLast(segs, m - |es|, g);
    }
  }

  lemma CutLast(segs: seq<Segment>, k: nat, g: Geometry) returns (cut: seq<Segment>)
    requires segs != [] && Valid(segs, g) && 1 <= k <= |Last(segs).frames|
    ensures cut != [] && Valid(cut, g) && Last(cut).frames != []
    ensures Entries(cut, g.align) == Entries(segs, g.align)[..|Entries(Front(segs), g.align)| + k]
    ensures CutDown(Files(cut, g.align), Files(segs, g.align))
  {
    hide Valid, Files;
    var front, s, a := Front(segs), Last(segs), g.align;
    cut := front + [Segment(s.base, s.frames[..k])];
    CutLastValid(segs, k, g);
    SegmentsSnoc(front, Segment(s.base, s.frames[..k]));
    CutSegment(s.base, s.frames, k, a);
    var es, last := Entries(front, a), SegmentEntries(s.base, s.frames, a);
    assert (es + last)[..|es| + k] == es + last[..k];
    FrontLast(segs);
    CutFiles(front, s, k, g);
  }

  lemma {:induction false} CutSegment(base: int, frames: seq<Frame>, k: nat, a: Alignment)
    requires k <= |frames|
    ensures SegmentEntries(base, frames[..k], a) == SegmentEntries(base, frames, a)[..k]
    ensures SegmentFile(frames[..k], a) <= SegmentFile(frames, a)
  {
    hide FrameBytes;
    if k < |frames| {
      CutSegment(base, Front(frames), k, a);
      assert Front(frames)[..k] == frames[..k];
      assert SegmentFile(Front(frames), a) <= SegmentFile(frames, a);
    } else {
      assert frames[..k] == frames;
    }
  }

  lemma CutFiles(front: seq<Segment>, s: Segment, k: nat, g: Geometry)
    requires Valid(front + [s], g) && k <= |s.frames|
    ensures CutDown(Files(front + [Segment(s.base, s.frames[..k])], g.align), Files(front + [s], g.align))
  {
    hide SegmentFile;
    SegmentsSnoc(front, s);
    SegmentsSnoc(front, Segment(s.base, s.frames[..k]));
    CutSegment(s.base, s.frames, k, g.align);
  }

  lemma {:induction false} InfosAt(segs: seq<Segment>, g: Geometry)
    requires Valid(segs, g) && Last(segs).frames != []
    ensures |Infos(segs, g.align)| == |segs|
    ensures forall i :: 0 <= i < |segs| ==> Infos(segs, g.align)[i] == InfoOf(segs[i], g.align)
    ensures forall i :: 0 <= i < |segs| ==> Bases(segs)[i] == segs[i].base
  {
    if |segs| > 1 {
      InfosAt(Front(segs), g);
    } else {
      assert Front(segs) == [];
    }
  }

  lemma {:induction false} ListingMembers(keys: set<int>)
    ensures forall b :: b in Listing(keys) <==> b in keys
  {
    if keys != {} {
      HasMax(keys);
      var l := Listing(keys);
      var m :| IsMax(m, keys) && l == Listing(keys - {m}) + [m];
      ListingMembers(keys - {m});
    }
  }

  /** When the coverage check accepts, the files on disk are exactly those of the cut layout. */
  lemma AcceptedFiles(cut: seq<Segment>, files: map<int, seq<byte>>, whole: map<int, seq<byte>>, g: Geometry)
    requires Valid(cut, g) && Last(cut).frames != []
    requires CutDown(Files(cut, g.align), whole) && CutDown(files, whole)
    requires Covers(Infos(cut, g.align), Listing(files.Keys), files)
    ensures Listing(files.Keys) == Bases(cut)
    ensures forall s :: s in cut ==> s.base in files && files[s.base] == SegmentFile(s.frames, g.align)
  {
    hide SegmentFile, Infos, Valid;
    var bases := Listing(files.Keys);
    InfosAt(cut, g);
    ListingMembers(files.Keys);
    FileSizes(cut, g);
    forall s | s in cut
      ensures s.base in files && files[s.base] == SegmentFile(s.frames, g.align)
    {
      var i :| 0 <= i < |cut| && cut[i] == s;
      assert bases[i] == s.base && bases[i] in bases;
      var left, right := files[s.base], SegmentFile(s.frames, g.align);
      assert |left| == |right| && left <= whole[s.base] && right <= whole[s.base];
      assert left == right;
    }
  }

  /**
   Fast recovery agrees with the scan. Let the readable leading index entries be
   any prefix of the entries really written, and the segment files any
   truncation of the files on disk, some possibly gone; those may hold anything
   behind the frames written. Then recovery ends in the memory a full scan of the
   same files gives.
   */
  lemma FastEqualsScan(segs: seq<Segment>, disk: Disk, whole: map<int, seq<byte>>, g: Geometry)
    requires Valid(segs, g)
    requires CutDown(Files(segs, g.align), whole) && CutDown(disk.files, whole)
    requires DecodeIndex(disk.index, 0, g.align) <= Entries(segs, g.align)
    ensures RecoverMemory(disk, g.align) == ScanMemory(disk.files, g.align)
  {
    hide SegmentFile, Table, ScanFiles, MemoryOf, DecodeIndex, Infos, Entries, Valid;
    var a, es := g.align, DecodeIndex(disk.index, 0, g.align);
    if es != [] && Covers(Table(es, a), Listing(disk.files.Keys), disk.files) {
      var cut := CutLayout(segs, |es|, g);
      assert Entries(cut, a) == es;
      TableOf(cut, g);
      CutTwice(Files(cut, a), Files(segs, a), whole);
      AcceptedFiles(cut, disk.files, whole, g);
      ScanAccepted(cut, disk.files, g);
      MemoryFromEntries(cut, g);
    }
  }

  lemma CutTwice(x: map<int, seq<byte>>, y: map<int, seq<byte>>, z: map<int, seq<byte>>)
    requires CutDown(x, y) && CutDown(y, z)
    ensures CutDown(x, z)
  {
    forall k | k in x ensures k in z && x[k] <= z[k] {
      assert x[k] <= y[k] <= z[k];
    }
  }

  lemma ScanAccepted(cut: seq<Segment>, files: map<int, seq<byte>>, g: Geometry)
    requires Valid(cut, g)
    requires forall s :: s in cut ==> s.base in files && files[s.base] == SegmentFile(s.frames, g.align)
    ensures ScanFiles(Bases(cut), files, g.align) == Entries(cut, g.align)
  {
    hide SegmentFile, ScanFiles, TornEntries, Entries;
    FileSizes(cut, g);
    forall k | k in Files(cut, g.align)
      ensures k in files && files[k] <= Files(cut, g.align)[k]
    {
      FileOwner(cut, k, g);
    }
    ScanCutDown(cut, files, g);
    NothingTorn(cut, files, g.align);
  }

  lemma {:induction false} FileOwner(segs: seq<Segment>, k: int, g: Geometry)
    requires Valid(segs, g) && k in Files(segs, g.align)
    ensures exists s :: s in segs && s.base == k
  {
    FrontLast(segs);
    assert Last(segs) in segs;
    if |segs| == 1 {
      assert Front(segs) == [];
    } else if k != Last(segs).base {
      FileOwner(Front(segs), k, g);
      var s :| s in Front(segs) && s.base == k;
      assert s in segs;
    }
  }
}
