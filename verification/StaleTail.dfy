/**
 Logs that went through a crash. A restart that drops a torn tail leaves its
 bytes in the file, behind the write position, and later appends write over them
 from the front. Such a log stands on a history: its memory is that of the
 history, and its files begin with the history's frames. Appends, reads and further
 crashes are claimed here for every log that stands, not only for a clean one.
 */
module StaleTail {
  import opened Bytes
  import opened LogFormat
  import opened LogLayout
  import opened Recovery
  import opened RecoveryProofs
  import opened Fetch
  import opened FetchProofs

  type History = seq<seq<byte>>

  ghost predicate Stands(log: Log, h: History, g: Geometry) {
    && Storable(h) && [] !in h
    && log.mem == Run(h, g).mem
    && CutDown(Files(LayoutOf(h, g), g.align), log.disk.files)
  }

  lemma RunStands(h: History, g: Geometry)
    requires Storable(h) && [] !in h
    ensures Stands(Run(h, g), h, g)
  {
    hide Run, Files;
    RunIsLayout(h, g);
  }

  // ---- Appending and reading --------------------------------------------------

  lemma WriteOver(x: seq<byte>, y: seq<byte>, data: seq<byte>)
    requires x <= y
    ensures WriteAt(x, |x|, data) <= WriteAt(y, |x|, data)
  {
    assert y[..|x|] == x;
  }

  /** The memory after an append does not depend on what the files held. */
  lemma SameMemory(log: Log, other: Log, bytes: seq<byte>, g: Geometry)
    requires log.mem == other.mem
    ensures Appended(log, bytes, g).mem == Appended(other, bytes, g).mem
  {
  }

  lemma AppendedFiles(log: Log, segs: seq<Segment>, bytes: seq<byte>, g: Geometry)
    requires Valid(segs, g) && log.mem == MemoryOf(segs, g.align)
    requires CutDown(Files(segs, g.align), log.disk.files)
    ensures CutDown(Files(Extend(segs, bytes, g), g.align), Appended(log, bytes, g).disk.files)
  {
    var a, m, f := g.align, log.mem, Frame(End(segs), bytes);
    ExtendFiles(segs, bytes, g);
    FilesBounded(segs, g);
    LastFile(segs, g);
    var roll := RollsOver(m, FrameSize(|bytes|, a), g);
    var base, position := if roll then f.base else m.active, if roll then 0 else m.writePosition;
    var before, now := FileOf(Files(segs, a), base), FileOf(log.disk.files, base);
    assert |before| == position && before <= now by {
      if roll {
        assert Last(segs).frames != [];
      }
    }
    hide Files, FrameBytes, WriteAt, Extend, Valid;
    WriteOver(before, now, FrameBytes(f, a));
  }

  lemma LastFile(segs: seq<Segment>, g: Geometry)
    requires Valid(segs, g)
    ensures Last(segs).base in Files(segs, g.align)
    ensures Files(segs, g.align)[Last(segs).base] == SegmentFile(Last(segs).frames, g.align)
  {
  }

  /** An append to a log that stands makes it stand on one more record set, over whatever was behind. */
  lemma AppendStands(log: Log, h: History, bytes: seq<byte>, g: Geometry)
    requires Stands(log, h, g) && bytes != [] && Storable(h + [bytes])
    ensures Stands(Appended(log, bytes, g), h + [bytes], g)
  {
    hide Files, Appended, Valid, Extend;
    var segs, h' := LayoutOf(h, g), h + [bytes];
    assert Front(h') == h && Last(h') == bytes;
    RunIsLayout(h, g);
    SameMemory(log, Run(h, g), bytes, g);
    AppendedFiles(log, segs, bytes, g);
  }

  /** A log that stands is readable, and a read returns the record sets of its history. */
  lemma ReadStands(log: Log, h: History, g: Geometry, q: Query)
    requires Stands(log, h, g) && q.align == g.align
    ensures Readable(log.mem.entries, log.disk.files, g.align)
    ensures ReadFrom(log.mem.entries, 0, log.disk.files, q, []) == Records(FramesFetch(FramesOf(h), 0, q, []))
  {
    hide Run, ReadFrom, FramesFetch, Readable, SegmentFile, Describes, Files, Valid, Entries;
    var segs, files := LayoutOf(h, g), log.disk.files;
    RunIsLayout(h, g);
    FileSizes(segs, g);
    forall s | s in segs ensures SegmentFile(s.frames, g.align) <= FileOf(files, s.base) {
      assert s.base in Files(segs, g.align);
    }
    LayoutDescribes(segs, files, g);
    LayoutOrdered(segs, g);
    LayoutFrames(h, g);
    DescribedReadable(Entries(segs, g.align), AllFrames(segs), files, g.align);
    ReadsFrames(Entries(segs, g.align), AllFrames(segs), 0, files, q, []);
  }

  // ---- Scanning files with something behind the frames ----------------------------

  lemma {:induction false} ScanOver(base: int, frames: seq<Frame>, file: seq<byte>, k: nat, a: Alignment)
    requires forall f :: f in frames ==> Recoverable(f)
    requires SegmentFile(frames, a) <= file && k <= |frames|
    ensures ScanFrames(base, file, 0, a)
         == SegmentEntries(base, frames[..k], a) + ScanFrames(base, file, Size(frames[..k], a), a)
    decreases k
  {
    hide SegmentFile, ParseFrame;
    if k == 0 {
      assert frames[..0] == [];
    } else {
      var before := SegmentEntries(base, frames[..k - 1], a);
      ScanOver(base, frames, file, k - 1, a);
      FrameThere(frames, file, k - 1, a);
      EntriesPrefix(base, frames, k - 1, a);
      var e := EntryOf(base, frames[k - 1], Size(frames[..k - 1], a));
      Reassociate(before, e, ScanFrames(base, file, Size(frames[..k], a), a));
    }
  }

  lemma Reassociate<T>(s: seq<T>, e: T, t: seq<T>)
    ensures s + ([e] + t) == (s + [e]) + t
  {
  }

  lemma FrameThere(frames: seq<Frame>, file: seq<byte>, k: nat, a: Alignment)
    requires forall f :: f in frames ==> Recoverable(f)
    requires SegmentFile(frames, a) <= file && k < |frames|
    ensures ParseFrame(file, Size(frames[..k], a), a) == Whole(frames[k])
    ensures Size(frames[..k + 1], a) == Size(frames[..k], a) + FrameSize(|frames[k].bytes|, a)
  {
    hide FrameBytes, SegmentFile, ParseFrame;
    PrefixSize(frames, k, a);
    FrameSlice(frames, k, a);
    SubSlice(file, 0, Size(frames, a), Size(frames[..k], a), Size(frames[..k + 1], a));
    assert frames[k] in frames;
    ParseWhole(file, Size(frames[..k], a), frames[k], a);
  }

  /** Where the frames of a layout end in the file of that base. */
  function EndIn(segs: seq<Segment>, base: int, a: Alignment): nat {
    if segs == [] then 0
    else if Last(segs).base == base then Size(Last(segs).frames, a)
    else EndIn(Front(segs), base, a)
  }

  /** No file shows another whole frame right behind the frames of the layout. */
  ghost predicate Quiet(segs: seq<Segment>, files: map<int, seq<byte>>, keys: set<int>, a: Alignment) {
    forall k :: k in keys ==> ParseFrame(FileOf(files, k), EndIn(segs, k, a), a) == NoFrame
  }

  lemma ScanSegment(base: int, frames: seq<Frame>, file: seq<byte>, a: Alignment)
    requires ValidFrames(frames, base) && SegmentFile(frames, a) <= file
    ensures ScanFrames(base, file, 0, a) == SegmentEntries(base, frames, a) + ScanFrames(base, file, Size(frames, a), a)
    ensures ScanFrames(base, file, Size(frames, a), a) == [] <==> ParseFrame(file, Size(frames, a), a) == NoFrame
  {
    hide SegmentFile, ParseFrame, ScanFrames;
    ValidRecoverable(frames, base);
    ScanNothing(base, file, Size(frames, a), a);
    ScanOver(base, frames, file, |frames|, a);
    assert frames[..|frames|] == frames;
  }

  lemma ScanNothing(base: int, file: seq<byte>, position: nat, a: Alignment)
    ensures ScanFrames(base, file, position, a) == [] <==> ParseFrame(file, position, a) == NoFrame
  {
    hide ParseFrame;
  }

  lemma ScanOneMore(bases: seq<int>, base: int, files: map<int, seq<byte>>, a: Alignment)
    ensures ScanFiles(bases + [base], files, a)
              == ScanFiles(bases, files, a) + ScanFrames(base, FileOf(files, base), 0, a)
  {
    hide ScanFrames;
    assert Front(bases + [base]) == bases;
  }

  lemma JoinIff<T>(x: seq<T>, y: seq<T>, e: seq<T>, target: seq<T>)
    requires |x| >= |target|
    ensures x + (y + e) == target + y <==> x == target && e == []
  {
    if x + (y + e) == target + y {
      assert |x| == |target|;
      assert x == (x + (y + e))[..|x|] == (target + y)[..|x|] == target;
    }
  }

  /**
   The scan of a directory finds at least the entries of the layout whose frames
   its files begin with, and exactly those if and only if the files are quiet.
   */
  lemma {:induction false} ScanKeys(segs: seq<Segment>, files: map<int, seq<byte>>, keys: set<int>, g: Geometry)
    requires segs == [] || Valid(segs, g)
    requires CutDown(Files(segs, g.align), files) && Files(segs, g.align).Keys <= keys
    ensures |ScanFiles(Listing(keys), files, g.align)| >= |Entries(segs, g.align)|
    ensures ScanFiles(Listing(keys), files, g.align) == Entries(segs, g.align) <==> Quiet(segs, files, keys, g.align)
    decreases |keys|
  {
    if keys == {} {
      if segs != [] {
        LastFile(segs, g);
      }
    } else {
      HasMax(keys);
      var m :| IsMax(m, keys) && Listing(keys) == Listing(keys - {m}) + [m];
      if segs != [] {
        LastFile(segs, g);
        FilesBounded(segs, g);
      }
      if segs != [] && Last(segs).base == m {
        FrontFiles(segs, files, keys, g);
        ScanKeys(Front(segs), files, keys - {m}, g);
        ScanLastKey(segs, files, keys, m, g);
      } else {
        ScanKeys(segs, files, keys - {m}, g);
        ScanStrayKey(segs, files, keys, m, g);
      }
    }
  }

  lemma FrontFiles(segs: seq<Segment>, files: map<int, seq<byte>>, keys: set<int>, g: Geometry)
    requires Valid(segs, g) && CutDown(Files(segs, g.align), files) && Files(segs, g.align).Keys <= keys
    ensures Front(segs) == [] || Valid(Front(segs), g)
    ensures CutDown(Files(Front(segs), g.align), files)
    ensures Files(Front(segs), g.align).Keys <= keys - {Last(segs).base}
  {
    hide SegmentFile;
    var front := Front(segs);
    if |segs| == 1 {
      assert front == [];
    } else {
      FilesBounded(front, g);
      assert Last(segs).base !in Files(front, g.align);
    }
  }

  lemma ScanLastKey(segs: seq<Segment>, files: map<int, seq<byte>>, keys: set<int>, m: int, g: Geometry)
    requires Valid(segs, g) && CutDown(Files(segs, g.align), files)
    requires m in keys && m == Last(segs).base && Listing(keys) == Listing(keys - {m}) + [m]
    requires |ScanFiles(Listing(keys - {m}), files, g.align)| >= |Entries(Front(segs), g.align)|
    requires ScanFiles(Listing(keys - {m}), files, g.align) == Entries(Front(segs), g.align)
        <==> Quiet(Front(segs), files, keys - {m}, g.align)
    ensures |ScanFiles(Listing(keys), files, g.align)| >= |Entries(segs, g.align)|
    ensures ScanFiles(Listing(keys), files, g.align) == Entries(segs, g.align) <==> Quiet(segs, files, keys, g.align)
  {
    var front, s, a := Front(segs), Last(segs), g.align;
    LastFile(segs, g);
    ScanSegment(m, s.frames, files[m], a);
    hide SegmentFile, ScanFrames, ParseFrame, Files, Valid, Listing, Size, ScanFiles;
    ScanOneMore(Listing(keys - {m}), m, files, a);
    var x, y := ScanFiles(Listing(keys - {m}), files, a), SegmentEntries(m, s.frames, a);
    var e := ScanFrames(m, files[m], Size(s.frames, a), a);
    JoinIff(x, y, e, Entries(front, a));
    assert EndIn(segs, m, a) == Size(s.frames, a);
    assert forall k :: k in keys - {m} ==> EndIn(segs, k, a) == EndIn(front, k, a);
  }

  lemma {:induction false} NoEndIn(segs: seq<Segment>, base: int, a: Alignment)
    requires base !in Files(segs, a)
    ensures EndIn(segs, base, a) == 0
  {
    if segs != [] {
      NoEndIn(Front(segs), base, a);
    }
  }

  lemma ScanStrayKey(segs: seq<Segment>, files: map<int, seq<byte>>, keys: set<int>, m: int, g: Geometry)
    requires m in keys && m !in Files(segs, g.align) && Listing(keys) == Listing(keys - {m}) + [m]
    requires |ScanFiles(Listing(keys - {m}), files, g.align)| >= |Entries(segs, g.align)|
    requires ScanFiles(Listing(keys - {m}), files, g.align) == Entries(segs, g.align)
        <==> Quiet(segs, files, keys - {m}, g.align)
    ensures |ScanFiles(Listing(keys), files, g.align)| >= |Entries(segs, g.align)|
    ensures ScanFiles(Listing(keys), files, g.align) == Entries(segs, g.align) <==> Quiet(segs, files, keys, g.align)
  {
    hide ScanFrames, ParseFrame, Files, Listing, EndIn, Entries, ScanFiles;
    var a := g.align;
    NoEndIn(segs, m, a);
    ScanNothing(m, FileOf(files, m), 0, a);
    ScanOneMore(Listing(keys - {m}), m, files, a);
    var x, e := ScanFiles(Listing(keys - {m}), files, a), ScanFrames(m, FileOf(files, m), 0, a);
    JoinIff(x, [], e, Entries(segs, a));
    assert Entries(segs, a) + [] == Entries(segs, a) && [] + e == e;
  }

  // ---- Crashes --------------------------------------------------------------------

  /** The directory after a crash that keeps the first n bytes of one file. */
  function Cut(files: map<int, seq<byte>>, base: int, n: nat): map<int, seq<byte>> {
    if base in files && n <= |files[base]| then files[base := files[base][..n]] else files
  }

  lemma TornValid(segs: seq<Segment>, n: nat, g: Geometry)
    requires Valid(segs, g)
    ensures Valid(TornLayout(segs, n, g.align), g)
  {
    var k := WholeFrames(Last(segs).frames, n, g.align);
    if k > 0 || |segs| == 1 {
      CutLastValid(segs, k, g);
    }
  }

  lemma CutBegins(x: map<int, seq<byte>>, files: map<int, seq<byte>>, base: int, n: nat)
    requires CutDown(x, files) && (base in x ==> |x[base]| <= n)
    ensures CutDown(x, Cut(files, base, n))
  {
  }

  /** The files of the first k frames of the last segment. */
  lemma FirstFrames(segs: seq<Segment>, k: nat, g: Geometry)
    requires Valid(segs, g) && k <= |Last(segs).frames|
    ensures var torn := Front(segs) + [Segment(Last(segs).base, Last(segs).frames[..k])];
            && CutDown(Files(torn, g.align), Files(segs, g.align))
            && Last(segs).base in Files(torn, g.align)
            && |Files(torn, g.align)[Last(segs).base]| == Size(Last(segs).frames[..k], g.align)
  {
    hide SegmentFile, Size;
    FrontLast(segs);
    CutFiles(Front(segs), Last(segs), k, g);
    SegmentsSnoc(Front(segs), Segment(Last(segs).base, Last(segs).frames[..k]));
  }

  /** What the cut file still begins with. */
  lemma TornBegins(segs: seq<Segment>, files: map<int, seq<byte>>, n: nat, g: Geometry)
    requires segs != [] && Valid(segs, g) && CutDown(Files(segs, g.align), files)
    ensures CutDown(Files(TornLayout(segs, n, g.align), g.align), Cut(files, Last(segs).base, n))
  {
    hide Valid, Files, WholeFrames, Size, CutDown;
    var a, front, s := g.align, Front(segs), Last(segs);
    var k := WholeFrames(s.frames, n, a);
    if k == 0 && |segs| > 1 {
      CutKeys(Files(segs, a), files);
      FrontFiles(segs, files, files.Keys, g);
      CutBegins(Files(front, a), files, s.base, n);
    } else {
      var torn := front + [Segment(s.base, s.frames[..k])];
      FirstFrames(segs, k, g);
      WholeFramesMaximal(s.frames, n, k, a);
      CutTwice(Files(torn, a), Files(segs, a), files);
      CutBegins(Files(torn, a), files, s.base, n);
    }
  }

  lemma CutKeys(x: map<int, seq<byte>>, y: map<int, seq<byte>>)
    requires CutDown(x, y)
    ensures x.Keys <= y.Keys
  {
    forall k | k in x.Keys ensures k in y.Keys {
    }
  }

  lemma ShortFile(file: seq<byte>, position: nat, a: Alignment)
    requires |file| < position + a
    ensures ParseFrame(file, position, a) == NoFrame
  {
  }

  /** A cut inside the frames leaves nothing that parses behind the whole ones. */
  lemma TornQuiet(frames: seq<Frame>, base: int, file: seq<byte>, n: nat, a: Alignment)
    requires ValidFrames(frames, base) && SegmentFile(frames, a) <= file && WholeFrames(frames, n, a) < |frames|
    ensures n < Size(frames, a) && ParseFrame(file[..n], Size(frames[..WholeFrames(frames, n, a)], a), a) == NoFrame
    ensures ParseFrame(file[..n], Size(frames, a), a) == NoFrame
  {
    hide SegmentFile, ParseFrame;
    WholeFramesMaximal(frames, n, |frames|, a);
    assert frames[..|frames|] == frames;
    ValidRecoverable(frames, base);
    ScanStops(frames, n, WholeFrames(frames, n, a), a);
    assert file[..n] == SegmentFile(frames, a)[..n];
    ShortFile(file[..n], Size(frames, a), a);
  }

  lemma EndInTorn(segs: seq<Segment>, n: nat, g: Geometry)
    requires segs != [] && Last(segs).base !in Files(Front(segs), g.align)
    ensures var torn, s := TornLayout(segs, n, g.align), Last(segs);
            && EndIn(torn, s.base, g.align) == Size(s.frames[..WholeFrames(s.frames, n, g.align)], g.align)
            && forall b :: b != s.base ==> EndIn(torn, b, g.align) == EndIn(segs, b, g.align)
  {
    hide Files, WholeFrames;
    var s, k := Last(segs), WholeFrames(Last(segs).frames, n, g.align);
    NoEndIn(Front(segs), s.base, g.align);
    SegmentsSnoc(Front(segs), Segment(s.base, s.frames[..k]));
    assert s.frames[..0] == [];
  }

  lemma TornSame(frames: seq<Frame>, base: int, file: seq<byte>, n: nat, a: Alignment)
    requires ValidFrames(frames, base) && SegmentFile(frames, a) <= file
    ensures var cut := if n <= |file| then file[..n] else file;
            ParseFrame(cut, Size(frames[..WholeFrames(frames, n, a)], a), a) == NoFrame
            <==> ParseFrame(cut, Size(frames, a), a) == NoFrame
  {
    hide SegmentFile, ParseFrame, ValidFrames;
    var k := WholeFrames(frames, n, a);
    if k < |frames| {
      TornQuiet(frames, base, file, n, a);
    } else {
      assert frames[..k] == frames;
    }
  }

  /** A cut is quiet for what remains exactly if it is quiet for the layout before. */
  lemma QuietTorn(segs: seq<Segment>, files: map<int, seq<byte>>, n: nat, g: Geometry)
    requires segs != [] && Valid(segs, g) && CutDown(Files(segs, g.align), files)
    ensures var cut := Cut(files, Last(segs).base, n);
            Quiet(TornLayout(segs, n, g.align), cut, cut.Keys, g.align) <==> Quiet(segs, cut, cut.Keys, g.align)
  {
    var a, s := g.align, Last(segs);
    LastFile(segs, g);
    CutKeys(Files(segs, a), files);
    FrontFiles(segs, files, files.Keys, g);
    TornSame(s.frames, s.base, files[s.base], n, a);
    assert EndIn(segs, s.base, a) == Size(s.frames, a);
    hide SegmentFile, ParseFrame, Files, WholeFrames, Size, Valid, ValidFrames, TornLayout, EndIn;
    EndInTorn(segs, n, g);
  }

  /**
   Restart after a crash of any log that stands. Whatever length the active file
   is cut to, the scan rebuilds exactly the frames lying wholly inside it if and only if
   no file shows a frame behind those of the layout.
   */
  lemma CutScanIff(segs: seq<Segment>, files: map<int, seq<byte>>, n: nat, g: Geometry)
    requires segs != [] && Valid(segs, g) && CutDown(Files(segs, g.align), files)
    ensures var cut := Cut(files, Last(segs).base, n);
            ScanMemory(cut, g.align) == MemoryOf(TornLayout(segs, n, g.align), g.align)
            <==> Quiet(segs, cut, cut.Keys, g.align)
  {
    hide Files, ScanFiles, Entries, Table, Quiet, Cut, TornLayout, Valid;
    var a, torn, cut := g.align, TornLayout(segs, n, g.align), Cut(files, Last(segs).base, n);
    TornValid(segs, n, g);
    TornBegins(segs, files, n, g);
    QuietTorn(segs, files, n, g);
    MemoryFromEntries(torn, g);
    CutKeys(Files(torn, a), cut);
    ScanKeys(torn, cut, cut.Keys, g);
  }

  // ---- Layouts of prefixes ------------------------------------------------------------

  /** A layout cut to the first k frames of its last segment. */
  function Keep(segs: seq<Segment>, k: nat): seq<Segment>
    requires segs != [] && k <= |Last(segs).frames|
  {
    if k == 0 && |segs| > 1 then Front(segs)
    else Front(segs) + [Segment(Last(segs).base, Last(segs).frames[..k])]
  }

  lemma KeepAll(segs: seq<Segment>)
    requires segs != [] && (|segs| > 1 ==> Last(segs).frames != [])
    ensures Keep(segs, |Last(segs).frames|) == segs
  {
    FrontLast(segs);
    assert Last(segs).frames[..|Last(segs).frames|] == Last(segs).frames;
  }

  /** Cutting an extended layout below its new frame is cutting the layout before. */
  lemma KeepExtended(segs: seq<Segment>, bytes: seq<byte>, k: nat, g: Geometry)
    requires segs != [] && (|segs| > 1 ==> Last(segs).frames != [])
    ensures var next := Extend(segs, bytes, g);
            && next != [] && Last(next).frames != []
            && (k < |Last(next).frames| ==>
                  var j := |Last(segs).frames| + 1 - (|Last(next).frames| - k);
                  0 <= j <= |Last(segs).frames| && Keep(next, k) == Keep(segs, j))
  {
    var f, s := Frame(End(segs), bytes), Last(segs);
    SegmentsSnoc(Front(segs), Segment(s.base, s.frames + [f]));
    SegmentsSnoc(segs, Segment(f.base, [f]));
    KeepAll(segs);
    assert k <= |s.frames| ==> (s.frames + [f])[..k] == s.frames[..k];
  }

  lemma {:induction false} LastHasFrames(h: History, g: Geometry)
    ensures |LayoutOf(h, g)| > 1 ==> Last(LayoutOf(h, g)).frames != []
    ensures h == [] ==> LayoutOf(h, g) == [Segment(0, [])]
  {
    if h != [] {
      hide Extend;
      FramesGrow(LayoutOf(Front(h), g), Last(h), g);
    }
  }

  lemma FramesGrow(segs: seq<Segment>, bytes: seq<byte>, g: Geometry)
    requires segs != []
    ensures var next := Extend(segs, bytes, g);
            next != [] && 0 < |Last(next).frames| <= |Last(segs).frames| + 1
  {
  }

  /** Dropping the last frames of a run's layout gives the layout of a shorter history. */
  lemma {:induction false} KeepFrames(h: History, k: nat, g: Geometry) returns (m: nat)
    requires k <= |Last(LayoutOf(h, g)).frames|
    ensures m <= |h| && Keep(LayoutOf(h, g), k) == LayoutOf(h[..m], g)
    ensures k == |Last(LayoutOf(h, g)).frames| ==> m == |h|
    decreases |h|
  {
    hide Extend, Keep, LayoutOf;
    var segs := LayoutOf(h, g);
    LastHasFrames(h, g);
    if k == |Last(segs).frames| {
      m := |h|;
      assert h[..|h|] == h;
      KeepAll(segs);
    } else {
      var front, bytes := Front(h), Last(h);
      var before := LayoutOf(front, g);
      LayoutStep(h, g);
      LastHasFrames(front, g);
      KeepExtended(before, bytes, k, g);
      m := KeepFrames(front, |Last(before).frames| + 1 - (|Last(segs).frames| - k), g);
      assert front[..m] == h[..m];
    }
  }

  lemma LayoutStep(h: History, g: Geometry)
    requires h != []
    ensures LayoutOf(h, g) == Extend(LayoutOf(Front(h), g), Last(h), g)
  {
  }

  /** What a crash leaves of a run is a run of fewer record sets; all of them if no frame is cut. */
  lemma TornIsPrefix(h: History, n: nat, g: Geometry) returns (m: nat)
    ensures m <= |h| && LayoutOf(h[..m], g) == TornLayout(LayoutOf(h, g), n, g.align)
    ensures n >= Size(Last(LayoutOf(h, g)).frames, g.align) ==> m == |h|
  {
    hide LayoutOf;
    m := KeepFrames(h, WholeFrames(Last(LayoutOf(h, g)).frames, n, g.align), g);
  }
}
