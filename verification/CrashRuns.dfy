/**
 Runs with crashes. A log is appended to, crashes with its active file cut to any
 length, restarts and goes on, any number of times. It keeps standing on the record
 sets that were whole, as long as each restart finds no frame behind those it
 knows; the condition is exact, and stale bytes can break it.
 */
module CrashRuns {
  import opened Bytes
  import opened RecordBatch
  import opened LogFormat
  import opened LogLayout
  import opened Recovery
  import opened RecoveryProofs
  import opened LogRuns
  import opened StaleTail

  // ---- The condition, in terms of what the log holds --------------------------------

  /** The write position the segment table has for a file, 0 for a file it does not know. */
  function KnownEnd(segments: seq<SegmentInfo>, base: int): nat {
    if segments == [] then 0
    else if Last(segments).base == base then Last(segments).writePosition
    else KnownEnd(Front(segments), base)
  }

  /** The bytes of a file hold no frame at a position. */
  ghost predicate NoneAt(file: seq<byte>, position: nat, a: Alignment) {
    forall f :: !FrameAt(file, position, f, a)
  }

  /** No file holds a frame right behind what the log knows of. */
  ghost predicate NothingBehind(mem: Memory, files: map<int, seq<byte>>, a: Alignment) {
    forall k :: k in files ==> NoneAt(files[k], KnownEnd(mem.segments, k), a)
  }

  lemma {:induction false} KnownEndIs(segs: seq<Segment>, base: int, a: Alignment)
    ensures KnownEnd(Infos(segs, a), base) == EndIn(segs, base, a) || (exists s :: s in segs && s.frames == [])
  {
    hide Size, Count;
    if segs != [] && Last(segs).frames != [] {
      var front, info := Infos(Front(segs), a), InfoOf(Last(segs), a);
      assert Front(front + [info]) == front && Last(front + [info]) == info;
      KnownEndIs(Front(segs), base, a);
      if s :| s in Front(segs) && s.frames == [] {
        assert s in segs;
      }
    } else if segs != [] {
      assert Last(segs) in segs;
    }
  }

  lemma TableEnds(segs: seq<Segment>, base: int, g: Geometry)
    requires segs != [] && Valid(segs, g)
    ensures KnownEnd(Table(Entries(segs, g.align), g.align), base) == EndIn(segs, base, g.align)
  {
    hide Table, Entries;
    TableOf(segs, g);
    if Last(segs).frames == [] {
      EmptyTable(segs, g);
      assert Front(segs) == [];
    } else {
      AllHaveFrames(segs, g);
      hide Valid;
      KnownEndIs(segs, base, g.align);
    }
  }

  /** Behind-the-frames as the log sees it is behind-the-frames of its layout. */
  lemma QuietIs(segs: seq<Segment>, files: map<int, seq<byte>>, g: Geometry)
    requires segs != [] && Valid(segs, g)
    ensures NothingBehind(MemoryOf(segs, g.align), files, g.align) <==> Quiet(segs, files, files.Keys, g.align)
  {
    hide Table, Entries, Valid, EndIn, KnownEnd, ParseFrame, NoneAt, MemoryOf;
    var a, ends := g.align, MemoryOf(segs, g.align).segments;
    forall k | k in files
      ensures NoneAt(files[k], KnownEnd(ends, k), a) <==> ParseFrame(files[k], EndIn(segs, k, a), a) == NoFrame
    {
      EndOf(segs, k, g);
      NoneIs(files[k], EndIn(segs, k, a), a);
    }
  }

  lemma NoneIs(file: seq<byte>, position: nat, a: Alignment)
    ensures NoneAt(file, position, a) <==> ParseFrame(file, position, a) == NoFrame
  {
    hide ParseFrame, FrameAt;
    ParseStopsIff(file, position, a);
  }

  lemma EndOf(segs: seq<Segment>, k: int, g: Geometry)
    requires segs != [] && Valid(segs, g)
    ensures KnownEnd(MemoryOf(segs, g.align).segments, k) == EndIn(segs, k, g.align)
  {
    hide Table, Entries, Valid, EndIn, KnownEnd;
    TableEnds(segs, k, g);
  }

  // ---- One restart -------------------------------------------------------------------

  /** The disk a crash leaves: the active file cut, the index in any readable state. */
  function Crashed(log: Log, keep: nat, index: seq<byte>): Disk {
    Disk(Cut(log.disk.files, log.mem.active, keep), index)
  }

  lemma {:induction false} StorablePrefix(h: History, m: nat)
    requires Storable(h) && [] !in h && m <= |h|
    ensures Storable(h[..m]) && [] !in h[..m]
  {
    assert forall r :: r in h[..m] ==> r in h;
    EndOffsetPrefix(h, m);
  }

  lemma {:induction false} EndOffsetPrefix(h: History, m: nat)
    requires m <= |h|
    ensures EndOffset(h[..m]) <= EndOffset(h)
  {
    if m < |h| {
      EndOffsetPrefix(Front(h), m);
      assert Front(h)[..m] == h[..m];
    } else {
      assert h[..m] == h;
    }
  }

  lemma CutIsCut(files: map<int, seq<byte>>, base: int, n: nat)
    ensures CutDown(Cut(files, base, n), files)
  {
  }

  /**
   A restart of any log that stands, after a crash or none, rebuilds exactly the
   record sets whose frames lie wholly inside what is left of the active file, all
   of them if nothing before the write position was lost, if and only if nothing
   parses behind the frames the log knew. It then stands on them.
   */
  lemma RestartIff(log: Log, h: History, keep: nat, index: seq<byte>, g: Geometry) returns (m: nat)
    requires Stands(log, h, g) && DecodeIndex(index, 0, g.align) <= log.mem.entries
    ensures m <= |h| && LayoutOf(h[..m], g) == TornLayout(LayoutOf(h, g), keep, g.align)
    ensures keep >= log.mem.writePosition ==> m == |h|
    ensures var disk := Crashed(log, keep, index);
            && (Restarted(disk, g.align).mem == Run(h[..m], g).mem <==> NothingBehind(log.mem, disk.files, g.align))
            && (NothingBehind(log.mem, disk.files, g.align) ==> Stands(Restarted(disk, g.align), h[..m], g))
  {
    hide Run, Files, Valid, ScanMemory, RecoverMemory, Quiet, NothingBehind, TornLayout, LayoutOf, Cut, DecodeIndex;
    var segs, disk, files := LayoutOf(h, g), Crashed(log, keep, index), log.disk.files;
    RunIsLayout(h, g);
    m := TornIsPrefix(h, keep, g);
    StorablePrefix(h, m);
    RunIsLayout(h[..m], g);
    QuietIs(segs, disk.files, g);
    CutScanIff(segs, files, keep, g);
    CutIsCut(files, Last(segs).base, keep);
    FastEqualsScan(segs, disk, files, g);
    TornBegins(segs, files, keep, g);
  }

  // ---- Any number of them ---------------------------------------------------------------

  datatype Event = Append(records: seq<byte>) | Restart(keep: nat, index: seq<byte>)

  ghost function Live(log: Log, e: Event, g: Geometry): Log {
    match e
    case Append(records) => Appended(log, records, g)
    case Restart(keep, index) => Restarted(Crashed(log, keep, index), g.align)
  }

  /** Nonempty sets that fit, an index whose readable entries were written, and nothing behind. */
  ghost predicate Fair(log: Log, e: Event, g: Geometry) {
    match e
    case Append(records) =>
      records != [] && |records| < MAX_RECORDS && log.mem.latest + RecordCount(records) < MAX_OFFSET
    case Restart(keep, index) =>
      && DecodeIndex(index, 0, g.align) <= log.mem.entries
      && NothingBehind(log.mem, Crashed(log, keep, index).files, g.align)
  }

  ghost predicate IsLife(log: Log, events: seq<Event>, log': Log, g: Geometry)
    decreases |events|
  {
    if events == [] then log' == log
    else Fair(log, events[0], g) && IsLife(Live(log, events[0], g), events[1..], log', g)
  }

  /** Appends add a set at the end, restarts keep some prefix. */
  ghost predicate Evolves(h: History, events: seq<Event>, h': History)
    decreases |events|
  {
    if events == [] then h' == h
    else
      match events[0]
      case Append(records) => Evolves(h + [records], events[1..], h')
      case Restart(keep, index) => exists m: nat :: m <= |h| && Evolves(h[..m], events[1..], h')
  }

  lemma {:induction false} LatestIs(h: History, g: Geometry)
    ensures Run(h, g).mem.latest == EndOffset(h)
  {
    hide Written, RecordCount;
    if h != [] {
      LatestIs(Front(h), g);
    }
  }

  lemma StorableMore(h: History, r: seq<byte>)
    requires Storable(h) && |r| < MAX_RECORDS && EndOffset(h) + RecordCount(r) < MAX_OFFSET
    ensures Storable(h + [r])
  {
    assert Front(h + [r]) == h && Last(h + [r]) == r;
  }

  lemma AppendLives(log: Log, h: History, r: seq<byte>, g: Geometry)
    requires Stands(log, h, g) && Fair(log, Append(r), g)
    ensures Stands(Live(log, Append(r), g), h + [r], g)
  {
    hide Run, Files, Appended, RecordCount;
    LatestIs(h, g);
    StorableMore(h, r);
    AppendStands(log, h, r, g);
  }

  /** A log that stands keeps standing over any run of appends, crashes and restarts. */
  lemma {:induction false} LifeStands(log: Log, h: History, events: seq<Event>, log': Log, g: Geometry)
    returns (h': History)
    requires Stands(log, h, g) && IsLife(log, events, log', g)
    ensures Stands(log', h', g) && Evolves(h, events, h')
    decreases |events|
  {
    hide Stands, Fair, Live;
    h' := h;
    if events != [] {
      match events[0]
      case Append(r) =>
        AppendLives(log, h, r, g);
        h' := LifeStands(Live(log, events[0], g), h + [r], events[1..], log', g);
      case Restart(keep, index) =>
        var m := RestartLives(log, h, keep, index, g);
        h' := LifeStands(Live(log, events[0], g), h[..m], events[1..], log', g);
    }
  }

  lemma RestartLives(log: Log, h: History, keep: nat, index: seq<byte>, g: Geometry) returns (m: nat)
    requires Stands(log, h, g) && Fair(log, Restart(keep, index), g)
    ensures m <= |h| && Stands(Live(log, Restart(keep, index), g), h[..m], g)
  {
    hide Stands, NothingBehind, DecodeIndex, Restarted, Run;
    m := RestartIff(log, h, keep, index, g);
  }

  // ---- The condition can fail --------------------------------------------------------------

  const BLOCKS := Geometry(512, 4096)

  /** A record set whose bytes hold a frame at the next block boundary of its own frame. */
  function Bearer(inner: Frame): seq<byte> {
    Zeros(492) + FrameBytes(inner, 512) + Zeros(100)
  }

  lemma BearerSizes(inner: Frame)
    requires |inner.bytes| == 1
    ensures FrameSize(1, 512) == 512 && |Bearer(inner)| == 1104 && FrameSize(|Bearer(inner)|, 512) == 1536
  {
    RoundUpFormula(21, 512);
    RoundUpFormula(1124, 512);
  }

  /** The block behind the first one of a bearer's frame is the inner frame. */
  lemma BearerHolds(inner: Frame, f: Frame)
    requires |inner.bytes| == 1 && f.bytes == Bearer(inner)
    ensures |FrameBytes(f, 512)| == 1536 && FrameBytes(f, 512)[512..1024] == FrameBytes(inner, 512)
  {
    BearerSizes(inner);
    var image, r := FrameBytes(f, 512), f.bytes;
    hide FrameBytes;
    SubSlice(image, 20, 20 + |r|, 492, 1004);
    assert r[492..1004] == FrameBytes(inner, 512);
  }

  lemma WriteFront(stale: seq<byte>, data: seq<byte>)
    requires |data| <= |stale|
    ensures WriteAt(stale, 0, data) == data + stale[|data|..]
    ensures |WriteAt(stale, 0, data)| == |stale|
    ensures WriteAt(stale, 0, data)[|data|..|stale|] == stale[|data|..|stale|]
  {
    assert stale[..0] == [];
    SliceOfSuffix(data, stale[|data|..]);
  }

  /** After a crash inside the bearer's frame and one small append, the inner frame stands behind the write position. */
  lemma StaleFrameParses(small: Frame, stale: seq<byte>, inner: Frame)
    requires |small.bytes| == 1 && FrameFits(inner) && |inner.bytes| == 1
    requires |stale| == 1024 && stale[512..1024] == FrameBytes(inner, 512)
    ensures FrameSize(1, 512) == 512
    ensures ParseFrame(WriteAt(stale, 0, FrameBytes(small, 512)), 512, 512) == Whole(inner)
  {
    BearerSizes(inner);
    hide FrameBytes, ParseFrame;
    var file := WriteAt(stale, 0, FrameBytes(small, 512));
    WriteFront(stale, FrameBytes(small, 512));
    ParseWhole(file, 512, inner, 512);
  }

  lemma OneLayout(r: seq<byte>, g: Geometry)
    ensures LayoutOf([r], g) == [Segment(0, [Frame(0, r)])]
  {
    hide RecordCount, FrameSize;
    assert Front([r]) == [] && Last([r]) == r;
    var empty := LayoutOf([], g);
    assert empty == [Segment(0, [])] && Front(empty) == [];
    assert [] + [Frame(0, r)] == [Frame(0, r)];
    assert Extend(empty, r, g) == [] + [Segment(0, [Frame(0, r)])];
  }

  lemma OneFile(f: Frame, a: Alignment)
    ensures SegmentFile([f], a) == FrameBytes(f, a) && Size([f], a) == FrameSize(|f.bytes|, a)
    ensures Files([Segment(0, [f])], a) == map[0 := FrameBytes(f, a)]
    ensures EndIn([Segment(0, [f])], 0, a) == FrameSize(|f.bytes|, a)
  {
    hide FrameBytes, FrameSize;
    var segs := [Segment(0, [f])];
    assert Front([f]) == [] && Front(segs) == [] && Last(segs) == Segment(0, [f]);
    assert SegmentFile([], a) == [] && Size([], a) == 0;
  }

  lemma CountsOne(r: seq<byte>)
    requires r != [] && (|r| < 27 || r[8..12] == [0, 0, 0, 0])
    ensures RecordCount(r) == 1
  {
    if |r| >= 27 {
      var z: seq<byte> := [0, 0, 0, 0];
      assert z[..3] == [0, 0, 0] && z[..2] == [0, 0];
      assert BeValue([0, 0, 0, 0]) == 0 by {
        assert [0, 0, 0, 0][..3] == [0, 0, 0] && [0, 0, 0][..2] == [0, 0] && [0, 0][..1] == [0];
        assert BeValue([0]) == 0 && BeValue([0, 0]) == 0 && BeValue([0, 0, 0]) == 0;
      }
      assert !Countable(r);
    }
  }

  /** A fresh log after its first append. */
  lemma FirstAppend(r: seq<byte>, g: Geometry)
    requires r != [] && |r| < MAX_RECORDS && RecordCount(r) == 1
    ensures Fair(FRESH, Append(r), g)
    ensures Stands(Run([r], g), [r], g) && Live(FRESH, Append(r), g) == Run([r], g)
    ensures Run([r], g).mem == MemoryOf([Segment(0, [Frame(0, r)])], g.align)
    ensures Run([r], g).disk.files == map[0 := FrameBytes(Frame(0, r), g.align)]
    ensures Valid([Segment(0, [Frame(0, r)])], g)
  {
    hide FrameBytes, FrameSize, RecordCount, MemoryOf, Files, Appended;
    OneLayout(r, g);
    OneFile(Frame(0, r), g.align);
    assert Front([r]) == [] && Last([r]) == r && Run([], g) == FRESH;
    assert EndOffset([r]) == EndOffset([]) + RecordCount(r);
    RunStands([r], g);
    RunIsLayout([r], g);
  }

  /** A crash inside the only frame: the record set is gone, the first n bytes stay. */
  lemma LoseFirst(r: seq<byte>, n: nat, g: Geometry) returns (log: Log)
    requires r != [] && |r| < MAX_RECORDS && RecordCount(r) == 1 && n < FrameSize(|r|, g.align)
    ensures Fair(Run([r], g), Restart(n, []), g) && log == Live(Run([r], g), Restart(n, []), g)
    ensures Stands(log, [], g) && log.disk.index == []
    ensures log.disk.files == map[0 := FrameBytes(Frame(0, r), g.align)[..n]]
  {
    hide FrameBytes, FrameSize, RecordCount, MemoryOf, Files, Valid, EndIn, Run, Stands, LayoutOf, DecodeIndex, Cut;
    hide SegmentFile, Size, NothingBehind, Quiet, ParseFrame, Restarted, IndexImage;
    var a, before := g.align, Run([r], g);
    FirstAppend(r, g);
    FirstCrash(before, r, n, g);
    var m := RestartIff(before, [r], n, [], g);
    NothingWhole(r, n, m, g);
    assert [r][..0] == [];
    log := Restarted(Crashed(before, n, []), a);
    NothingKept(log, g);
    NewIndex(Crashed(before, n, []), a);
  }

  lemma NewIndex(disk: Disk, a: Alignment)
    requires DecodeIndex(disk.index, 0, a) == []
    ensures Restarted(disk, a).disk == disk.(index := IndexImage(Restarted(disk, a).mem.entries, a))
  {
  }

  /** What the crash leaves, and that nothing parses behind it. */
  lemma FirstCrash(log: Log, r: seq<byte>, n: nat, g: Geometry)
    requires log.mem == MemoryOf([Segment(0, [Frame(0, r)])], g.align) && Valid([Segment(0, [Frame(0, r)])], g)
    requires log.disk.files == map[0 := FrameBytes(Frame(0, r), g.align)] && n < FrameSize(|r|, g.align)
    ensures Crashed(log, n, []).files == map[0 := FrameBytes(Frame(0, r), g.align)[..n]]
    ensures NothingBehind(log.mem, Crashed(log, n, []).files, g.align) && DecodeIndex([], 0, g.align) == []
  {
    var a, f, files := g.align, Frame(0, r), Crashed(log, n, []).files;
    var segs := [Segment(0, [f])];
    OneFile(f, a);
    assert log.mem.active == 0;
    hide FrameBytes, FrameSize, MemoryOf, Valid, EndIn, Size, SegmentFile, Files;
    assert files == map[0 := FrameBytes(f, a)[..n]];
    ShortFile(FrameBytes(f, a)[..n], FrameSize(|r|, a), a);
    QuietIs(segs, files, g);
  }

  lemma NothingWhole(r: seq<byte>, n: nat, m: nat, g: Geometry)
    requires n < FrameSize(|r|, g.align) && m <= 1
    requires LayoutOf([r][..m], g) == TornLayout(LayoutOf([r], g), n, g.align)
    ensures m == 0
  {
    hide FrameSize, RecordCount;
    OneLayout(r, g);
    OneFile(Frame(0, r), g.align);
    assert [r][..1] == [r] && Front([Frame(0, r)]) == [];
    hide LayoutOf, Size;
    assert WholeFrames([Frame(0, r)], n, g.align) == 0;
    assert Last(TornLayout([Segment(0, [Frame(0, r)])], n, g.align)).frames == [];
  }

  lemma NothingKept(log: Log, g: Geometry)
    requires Stands(log, [], g)
    ensures log.mem == FRESH.mem && IndexImage(log.mem.entries, g.align) == []
  {
  }

  /** Then a small append, over the front of what stayed. */
  lemma AppendOver(log: Log, small: seq<byte>, g: Geometry) returns (next: Log)
    requires Stands(log, [], g) && log.disk.index == [] && log.disk.files.Keys == {0}
    requires small != [] && |small| < MAX_RECORDS && RecordCount(small) == 1
    ensures Fair(log, Append(small), g) && next == Live(log, Append(small), g)
    ensures Stands(next, [small], g) && next.disk.index == Run([small], g).disk.index
    ensures next.disk.files == map[0 := WriteAt(log.disk.files[0], 0, FrameBytes(Frame(0, small), g.align))]
  {
    hide FrameBytes, RecordCount, WriteAt, EncodeEntry, FrameSize, NoteSegment;
    NothingKept(log, g);
    next := Live(log, Append(small), g);
    assert Front([small]) == [] && Last([small]) == small && Run([], g) == FRESH;
    assert Run([small], g) == Appended(FRESH, small, g);
    hide Stands;
    AppendLives(log, [], small, g);
    assert [] + [small] == [small];
  }

  lemma LifeCons(log: Log, e: Event, events: seq<Event>, log': Log, g: Geometry)
    requires Fair(log, e, g) && IsLife(Live(log, e, g), events, log', g)
    ensures IsLife(log, [e] + events, log', g)
  {
    hide Fair, Live;
    assert ([e] + events)[1..] == events;
  }

  lemma BearerCounts(inner: Frame)
    ensures Bearer(inner) != [] && RecordCount(Bearer(inner)) == 1
  {
    hide FrameBytes;
    assert Bearer(inner)[8..12] == [0, 0, 0, 0];
    CountsOne(Bearer(inner));
  }

  /** The three events, for any record sets and any place of the cut inside the first frame. */
  lemma OverStale(r: seq<byte>, n: nat, small: seq<byte>, g: Geometry) returns (log: Log)
    requires r != [] && |r| < MAX_RECORDS && RecordCount(r) == 1 && n < FrameSize(|r|, g.align)
    requires small != [] && |small| < MAX_RECORDS && RecordCount(small) == 1
    ensures IsLife(FRESH, [Append(r), Restart(n, []), Append(small)], log, g)
    ensures Stands(log, [small], g) && log.disk.index == Run([small], g).disk.index
    ensures log.disk.files
         == map[0 := WriteAt(FrameBytes(Frame(0, r), g.align)[..n], 0, FrameBytes(Frame(0, small), g.align))]
  {
    hide FrameBytes, FrameSize, RecordCount, Stands, Fair, Live, IsLife, Run, WriteAt;
    FirstAppend(r, g);
    var log2 := LoseFirst(r, n, g);
    log := AppendOver(log2, small, g);
    LifeEnd(log, g);
    LifeCons(log2, Append(small), [], log, g);
    LifeCons(Run([r], g), Restart(n, []), [Append(small)] + [], log, g);
    LifeCons(FRESH, Append(r), [Restart(n, [])] + ([Append(small)] + []), log, g);
    assert [Append(r)] + ([Restart(n, [])] + ([Append(small)] + [])) == [Append(r), Restart(n, []), Append(small)];
  }

  lemma LifeEnd(log: Log, g: Geometry)
    ensures IsLife(log, [], log, g)
  {
  }

  lemma StandsMemory(log: Log, r: seq<byte>, g: Geometry)
    requires Stands(log, [r], g) && Run([r], g).mem == MemoryOf([Segment(0, [Frame(0, r)])], g.align)
    ensures log.mem == MemoryOf([Segment(0, [Frame(0, r)])], g.align) && log.mem.active == 0
  {
    hide Run, Table;
  }

  lemma NotQuiet(segs: seq<Segment>, files: map<int, seq<byte>>, a: Alignment)
    requires files.Keys == {0} && ParseFrame(files[0], EndIn(segs, 0, a), a) != NoFrame
    ensures !Quiet(segs, files, files.Keys, a)
  {
    hide ParseFrame, EndIn;
    assert 0 in files.Keys;
  }

  lemma WholeCut(log: Log, keep: nat)
    requires log.mem.active in log.disk.files && keep > |log.disk.files[log.mem.active]|
    ensures Crashed(log, keep, log.disk.index) == log.disk
  {
  }

  /** A frame behind the only known one is taken in by a clean restart. */
  lemma FindsMore(log: Log, small: seq<byte>, g: Geometry)
    requires Stands(log, [small], g) && log.disk.index == Run([small], g).disk.index && g.segmentBytes < MAX_OFFSET
    requires small != [] && |small| < MAX_RECORDS && RecordCount(small) == 1 && log.disk.files.Keys == {0}
    requires ParseFrame(log.disk.files[0], FrameSize(|small|, g.align), g.align) != NoFrame
    ensures Restarted(log.disk, g.align).mem != log.mem
  {
    hide Run, MemoryOf, Files, FrameBytes, FrameSize, RecordCount, Quiet, ParseFrame, Valid, NothingBehind;
    hide Stands, EndIn, LayoutOf, DecodeIndex, Crashed, Restarted, SegmentFile, Size;
    var f := Frame(0, small);
    var h, segs, files, keep := [small], [Segment(0, [f])], log.disk.files, |log.disk.files[0]| + 1;
    FirstAppend(small, g);
    OneStorable(small);
    RunIndexReadable(h, g);
    OneFile(f, g.align);
    StandsMemory(log, small, g);
    NotQuiet(segs, files, g.align);
    QuietIs(segs, files, g);
    WholeCut(log, keep);
    var m := RestartIff(log, h, keep, log.disk.index, g);
    WholeLength(log, h, keep, m, g);
  }

  lemma OneStorable(r: seq<byte>)
    requires r != [] && |r| < MAX_RECORDS && RecordCount(r) == 1
    ensures Storable([r]) && [] !in [r]
  {
    hide RecordCount;
    assert Front([r]) == [] && EndOffset([r]) == EndOffset([]) + RecordCount(r);
  }

  /** A file that stands is at least as long as the write position. */
  lemma WholeLength(log: Log, h: History, keep: nat, m: nat, g: Geometry)
    requires Stands(log, h, g) && m <= |h| && (keep >= log.mem.writePosition ==> m == |h|)
    requires log.mem.active in log.disk.files && keep > |log.disk.files[log.mem.active]|
    ensures h[..m] == h && log.mem == Run(h, g).mem
  {
    hide Run, Files;
    RunIsLayout(h, g);
    LastFile(LayoutOf(h, g), g);
  }

  /**
   Stale bytes come back. One append, a crash inside its frame and a second,
   smaller append leave a log that stands on the second record set; a clean
   restart of it, with its own index, finds one more.
   */
  lemma StaleFrameReturns(inner: Frame, g: Geometry) returns (log: Log)
    requires FrameFits(inner) && |inner.bytes| == 1 && g.align == 512 && g.segmentBytes < MAX_OFFSET
    ensures IsLife(FRESH, [Append(Bearer(inner)), Restart(1024, []), Append([0])], log, g)
    ensures Stands(log, [[0]], g) && Restarted(log.disk, g.align).mem != log.mem
  {
    hide FrameBytes, FrameSize, Bearer, RecordCount, Stands, Restarted, IsLife, Run, WriteAt, ParseFrame;
    var r, small := Bearer(inner), [0];
    BearerSizes(inner);
    BearerHolds(inner, Frame(0, r));
    BearerCounts(inner);
    CountsOne(small);
    log := OverStale(r, 1024, small, g);
    var image := FrameBytes(Frame(0, r), 512);
    SubSlice(image, 0, 1024, 512, 1024);
    StaleFrameParses(Frame(0, small), image[..1024], inner);
    FindsMore(log, small, g);
  }
}
