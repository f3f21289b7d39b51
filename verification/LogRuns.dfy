/**
 The log invariant over all runs: every sequence of produce and replica
 requests, admitted or not and with any rollovers, leaves index, segment table
 and files describing the same contiguous log; a clean restart finds it again.
 */
module LogRuns {
  import opened Bytes
  import opened RecordBatch
  import opened LogFormat
  import opened LogLayout
  import opened Recovery
  import opened RecoveryProofs
  import opened Fetch
  import opened FetchProofs
  import opened PartitionLog

  // ---- Runs of requests ----------------------------------------------------

  datatype Request =
    | Produce(records: seq<byte>, acks: int, queueDepth: nat)
    | Replica(base: int, records: seq<byte>, queueDepth: nat)

  /** The request passes the admission checks of `append` / `append_replica`. */
  predicate Admitted(log: Log, r: Request, c: Limits) {
    match r
    case Produce(records, acks, depth) => AdmitProduce(c, depth, records, acks) == NoError
    case Replica(base, records, depth) => AdmitReplica(c, depth, log.mem.latest, base, records) == NoError
  }

  function Serve(log: Log, r: Request, c: Limits, g: Geometry): Log {
    if Admitted(log, r, c) then Appended(log, r.records, g) else log
  }

  function ServeAll(requests: seq<Request>, c: Limits, g: Geometry): Log {
    if requests == [] then FRESH else Serve(ServeAll(Front(requests), c, g), Last(requests), c, g)
  }

  /** The record sets that got into the log, in order. */
  function AcceptedSets(requests: seq<Request>, c: Limits, g: Geometry): seq<seq<byte>> {
    if requests == [] then []
    else AcceptedSets(Front(requests), c, g)
         + if Admitted(ServeAll(Front(requests), c, g), Last(requests), c) then [Last(requests).records] else []
  }

  /** Rejected requests leave no trace: a run is the run of its accepted record sets. */
  lemma {:induction false} ServedIsRun(requests: seq<Request>, c: Limits, g: Geometry)
    ensures ServeAll(requests, c, g) == Run(AcceptedSets(requests, c, g), g)
  {
    hide Appended;
    if requests != [] {
      ServedIsRun(Front(requests), c, g);
      var sets := AcceptedSets(Front(requests), c, g);
      assert Front(sets + [Last(requests).records]) == sets;
      assert sets + [] == sets;
    }
  }

  // ---- The invariant -------------------------------------------------------

  /** Entry i starts its segment at position 0, named after its base, or follows entry i - 1 directly. */
  predicate Placed(es: seq<Entry>, i: nat, a: Alignment)
    requires i < |es|
  {
    if i == 0 || es[i - 1].segmentBase != es[i].segmentBase
    then es[i].position == 0 && es[i].segmentBase == es[i].base
    else es[i].position == es[i - 1].position + FrameSize(es[i - 1].recordBytes, a)
  }

  /** Entry i begins where entry i - 1 ended, or at offset 0. */
  predicate Contiguous(es: seq<Entry>, i: nat)
    requires i < |es|
  {
    es[i].base <= es[i].last && es[i].base == if i == 0 then 0 else es[i - 1].last + 1
  }

  ghost predicate Chained(es: seq<Entry>, a: Alignment) {
    forall i :: 0 <= i < |es| ==> Contiguous(es, i) && Placed(es, i, a)
  }

  ghost predicate LogInvariant(log: Log, g: Geometry) {
    var es, segments, files := log.mem.entries, log.mem.segments, log.disk.files;
    && log.mem == MemoryFrom(es, LastEnd(es), g.align)
    && Chained(es, g.align)
    && Readable(es, files, g.align)
    && (forall i, j :: 0 <= i < j < |segments| ==> segments[i].base < segments[j].base)
    && (forall e :: e in es ==> exists s :: s in segments && s.base == e.segmentBase)
    && (forall s :: s in segments ==> InfoOk(s, es, files, g))
  }

  lemma {:induction false} SegmentChained(es: seq<Entry>, base: int, frames: seq<Frame>, a: Alignment)
    requires ValidFrames(frames, base) && base == LastEnd(es)
    requires es == [] || Last(es).segmentBase != base
    requires Chained(es, a)
    ensures Chained(es + SegmentEntries(base, frames, a), a)
  {
    hide RecordCount, FrameSize, Chained;
    if frames == [] {
      assert es + SegmentEntries(base, frames, a) == es;
    } else {
      var front := Front(frames);
      SegmentChained(es, base, front, a);
      SegmentTail(es, base, front, a);
      var before, e := es + SegmentEntries(base, front, a), EntryOf(base, Last(frames), Size(front, a));
      assert es + SegmentEntries(base, frames, a) == before + [e];
      assert RecordCount(Last(frames).bytes) >= 1;
      ChainedSnoc(before, e, a);
    }
  }

  /** The last entry so far ends where the next frame of the segment goes. */
  lemma {:induction false} SegmentTail(es: seq<Entry>, base: int, frames: seq<Frame>, a: Alignment)
    requires ValidFrames(frames, base) && base == LastEnd(es)
    requires es == [] || Last(es).segmentBase != base
    ensures var all := es + SegmentEntries(base, frames, a);
            && LastEnd(all) == base + Count(frames)
            && (frames == [] ==> all == es)
            && (frames != [] ==>
                  && Last(all).segmentBase == base
                  && Last(all).position + FrameSize(Last(all).recordBytes, a) == Size(frames, a))
  {
    hide RecordCount, FrameSize;
    if frames == [] {
      assert es + SegmentEntries(base, frames, a) == es;
    } else {
      var e := EntryOf(base, Last(frames), Size(Front(frames), a));
      assert es + SegmentEntries(base, frames, a) == (es + SegmentEntries(base, Front(frames), a)) + [e];
    }
  }

  lemma ChainedSnoc(es: seq<Entry>, e: Entry, a: Alignment)
    requires Chained(es, a)
    requires e.base <= e.last && e.base == LastEnd(es)
    requires if es == [] || Last(es).segmentBase != e.segmentBase then e.position == 0 && e.segmentBase == e.base
             else e.position == Last(es).position + FrameSize(Last(es).recordBytes, a)
    ensures Chained(es + [e], a)
  {
    var all := es + [e];
    forall i | 0 <= i < |all|
      ensures Contiguous(all, i) && Placed(all, i, a)
    {
      if i < |es| {
        assert Contiguous(es, i) && Placed(es, i, a);
        assert all[i] == es[i] && (i > 0 ==> all[i - 1] == es[i - 1]);
      }
    }
  }

  lemma NothingChained(a: Alignment)
    ensures Chained([], a)
  {
  }

  lemma {:induction false} LayoutChained(segs: seq<Segment>, g: Geometry)
    requires Valid(segs, g)
    ensures Chained(Entries(segs, g.align), g.align)
  {
    hide FrameSize, RecordCount, Chained;
    var front, s, a := Front(segs), Last(segs), g.align;
    var es := Entries(front, a);
    if |segs| == 1 {
      assert front == [];
      assert es == [];
      NothingChained(a);
    } else {
      LayoutChained(front, g);
      EndsOf(front, g);
      LayoutOrdered(front, g);
      FilesBounded(front, g);
      assert es != [] ==> Last(es) in es;
    }
    SegmentChained(es, s.base, s.frames, a);
    assert Entries(segs, a) == es + SegmentEntries(s.base, s.frames, a);
  }

  lemma {:induction false} BasesIncrease(segs: seq<Segment>, g: Geometry)
    requires Valid(segs, g)
    ensures forall i, j :: 0 <= i < j < |segs| ==> segs[i].base < segs[j].base
    ensures forall s :: s in segs ==> s.base <= Last(segs).base
  {
    if |segs| > 1 {
      BasesIncrease(Front(segs), g);
      FilesBounded(Front(segs), g);
      assert forall i :: 0 <= i < |segs| - 1 ==> Front(segs)[i] in Front(segs);
      FrontLast(segs);
    }
  }

  lemma {:induction false} EntryOwners(segs: seq<Segment>, a: Alignment)
    ensures forall e :: e in Entries(segs, a) ==> exists s :: s in segs && s.base == e.segmentBase
  {
    if segs != [] {
      var front, s := Front(segs), Last(segs);
      EntryOwners(front, a);
      SingleEntry(s.base, s.frames, a);
      forall e | e in Entries(segs, a)
        ensures exists t :: t in segs && t.base == e.segmentBase
      {
        if e in Entries(front, a) {
          var t :| t in front && t.base == e.segmentBase;
          assert t in segs;
        } else {
          assert s in segs;
        }
      }
    }
  }

  /** An entry past position 0 belongs to a segment that fits its limit. */
  lemma {:induction false} SegmentsFit(segs: seq<Segment>, s: Segment, e: Entry, g: Geometry)
    requires Valid(segs, g) && s in segs && e in Entries(segs, g.align)
    requires e.segmentBase == s.base && e.position != 0
    ensures Size(s.frames, g.align) <= g.segmentBytes
  {
    hide FrameSize, SegmentEntries;
    var front, last, a := Front(segs), Last(segs), g.align;
    BasesIncrease(segs, g);
    SingleEntry(last.base, last.frames, a);
    if |segs| == 1 {
      assert front == [];
      assert Entries(front, a) == [];
    } else {
      LayoutOrdered(front, g);
      FilesBounded(front, g);
      if e in Entries(front, a) {
        assert s != last;
        var i :| 0 <= i < |segs| && segs[i] == s;
        assert front[i] == s;
        SegmentsFit(front, s, e, g);
      } else {
        var i :| 0 <= i < |segs| && segs[i] == s;
        assert s == last;
      }
    }
  }

  lemma {:induction false} SingleEntry(base: int, frames: seq<Frame>, a: Alignment)
    ensures forall e :: e in SegmentEntries(base, frames, a) ==> e.segmentBase == base
    ensures |frames| <= 1 ==> forall e :: e in SegmentEntries(base, frames, a) ==> e.position == 0
  {
    if frames != [] {
      SingleEntry(base, Front(frames), a);
    }
  }

  lemma LayoutInvariant(segs: seq<Segment>, g: Geometry)
    requires segs != [] && Valid(segs, g)
    ensures LogInvariant(StateOf(segs, g.align), g)
  {
    var a, es := g.align, Entries(segs, g.align);
    hide FrameSize, SegmentFile, Chained, Readable, Valid, Entries, InfoOk, Files, Infos, Table;
    MemoryFromEntries(segs, g);
    LayoutChained(segs, g);
    LayoutReadable(segs, g);
    TableOf(segs, g);
    SegmentTableOk(segs, g);
  }

  function FrameEnd(e: Entry, a: Alignment): nat {
    e.position + FrameSize(e.recordBytes, a)
  }

  /** A segment's last frame ends where the segment does, and no other ends later. */
  lemma {:induction false} FramesEnd(base: int, frames: seq<Frame>, a: Alignment)
    ensures forall e :: e in SegmentEntries(base, frames, a) ==> FrameEnd(e, a) <= Size(frames, a)
    ensures frames != [] ==> exists e :: e in SegmentEntries(base, frames, a) && FrameEnd(e, a) == Size(frames, a)
  {
    hide FrameSize;
    if frames != [] {
      FramesEnd(base, Front(frames), a);
      var last := EntryOf(base, Last(frames), Size(Front(frames), a));
      assert last in SegmentEntries(base, frames, a) && FrameEnd(last, a) == Size(frames, a);
    }
  }

  /** The entries of one base are those of the one segment that has it. */
  lemma {:induction false} EntriesOf(segs: seq<Segment>, s: Segment, g: Geometry)
    requires Valid(segs, g) && s in segs
    ensures forall e :: e in Entries(segs, g.align) && e.segmentBase == s.base ==>
              e in SegmentEntries(s.base, s.frames, g.align)
    ensures forall e :: e in SegmentEntries(s.base, s.frames, g.align) ==>
              e in Entries(segs, g.align) && e.segmentBase == s.base
  {
    var front, last, a := Front(segs), Last(segs), g.align;
    BasesIncrease(segs, g);
    FrontLast(segs);
    SingleEntry(last.base, last.frames, a);
    var i :| 0 <= i < |segs| && segs[i] == s;
    if i < |segs| - 1 {
      assert s == front[i] && s.base != last.base;
      EntriesOf(front, s, g);
    } else {
      EntryOwners(front, a);
      assert forall t :: t in front ==> t.base != last.base;
    }
  }

  /** What the segment table says about one segment: its file ends with its last frame. */
  ghost predicate InfoOk(s: SegmentInfo, es: seq<Entry>, files: map<int, seq<byte>>, g: Geometry) {
    && s.base in files && |files[s.base]| == s.writePosition
    && (exists e :: e in es && e.segmentBase == s.base && FrameEnd(e, g.align) == s.writePosition)
    && (forall e :: e in es && e.segmentBase == s.base ==> FrameEnd(e, g.align) <= s.writePosition)
    && (s.writePosition <= g.segmentBytes || forall e :: e in es && e.segmentBase == s.base ==> e.position == 0)
  }

  lemma SegmentInfoOk(segs: seq<Segment>, s: Segment, g: Geometry)
    requires Valid(segs, g) && s in segs && s.frames != []
    ensures InfoOk(InfoOf(s, g.align), Entries(segs, g.align), Files(segs, g.align), g)
  {
    FileSizes(segs, g);
    FramesEnd(s.base, s.frames, g.align);
    EntriesOf(segs, s, g);
    hide SegmentFile, FrameSize, Valid, Entries, Files, Size, FrameEnd, SegmentEntries;
    forall e | e in Entries(segs, g.align) && e.segmentBase == s.base && e.position != 0
      ensures Size(s.frames, g.align) <= g.segmentBytes
    {
      SegmentsFit(segs, s, e, g);
    }
  }

  lemma {:induction false} AllHaveFrames(segs: seq<Segment>, g: Geometry)
    requires Valid(segs, g) && Last(segs).frames != []
    ensures forall s :: s in segs ==> s.frames != []
  {
    if |segs| > 1 {
      AllHaveFrames(Front(segs), g);
      FrontLast(segs);
    }
  }

  lemma OwnerInTable(segs: seq<Segment>, infos: seq<SegmentInfo>, e: Entry, a: Alignment)
    requires |infos| == |segs| && forall i :: 0 <= i < |segs| ==> infos[i] == InfoOf(segs[i], a)
    requires exists s :: s in segs && s.base == e.segmentBase
    ensures exists s :: s in infos && s.base == e.segmentBase
  {
    var t :| t in segs && t.base == e.segmentBase;
    var i :| 0 <= i < |segs| && segs[i] == t;
    assert infos[i] in infos;
  }

  lemma EmptyTable(segs: seq<Segment>, g: Geometry)
    requires Valid(segs, g) && Last(segs).frames == []
    ensures Entries(segs, g.align) == [] && Infos(segs, g.align) == []
  {
    assert Front(segs) == [];
    assert Entries(Front(segs), g.align) == [] && Infos(Front(segs), g.align) == [];
  }

  lemma SegmentTableOk(segs: seq<Segment>, g: Geometry)
    requires segs != [] && Valid(segs, g)
    ensures var es, infos, files := Entries(segs, g.align), Infos(segs, g.align), Files(segs, g.align);
            && (forall i, j :: 0 <= i < j < |infos| ==> infos[i].base < infos[j].base)
            && (forall e :: e in es ==> exists s :: s in infos && s.base == e.segmentBase)
            && (forall s :: s in infos ==> InfoOk(s, es, files, g))
  {
    hide Valid, Entries, Infos, Files, Size, InfoOk;
    var a, es, infos := g.align, Entries(segs, g.align), Infos(segs, g.align);
    if Last(segs).frames == [] {
      EmptyTable(segs, g);
    } else {
      InfosAt(segs, g);
      AllHaveFrames(segs, g);
      BasesIncrease(segs, g);
      EntryOwners(segs, a);
      forall e | e in es
        ensures exists s :: s in infos && s.base == e.segmentBase
      {
        OwnerInTable(segs, infos, e, a);
      }
      forall s | s in infos
        ensures InfoOk(s, es, Files(segs, a), g)
      {
        var i :| 0 <= i < |infos| && infos[i] == s;
        assert segs[i] in segs;
        SegmentInfoOk(segs, segs[i], g);
      }
    }
  }

  /**
   Log invariant over all runs. After any sequence of produce and replica
   requests whose accepted record sets are nonempty and fit their fields, the
   index covers [0, log end) without gap or overlap, frames tile each segment
   from position 0 to the end of its file, segment bases increase and are their
   first entry's base, every segment fits the limit or holds a single frame, and
   table, log end, active segment, write and index position are those the entries give.
   */
  lemma RunsKeepInvariant(requests: seq<Request>, c: Limits, g: Geometry)
    requires Storable(AcceptedSets(requests, c, g)) && [] !in AcceptedSets(requests, c, g)
    ensures LogInvariant(ServeAll(requests, c, g), g)
  {
    hide LogInvariant, Run, StateOf;
    var history := AcceptedSets(requests, c, g);
    ServedIsRun(requests, c, g);
    RunIsLayout(history, g);
    LayoutInvariant(LayoutOf(history, g), g);
  }

  // ---- Restart after a clean run -------------------------------------------

  lemma {:induction false} SegmentEntriesFit(base: int, frames: seq<Frame>, a: Alignment)
    requires ValidFrames(frames, base) && 0 <= base && base + Count(frames) < MAX_OFFSET
    ensures forall e :: e in SegmentEntries(base, frames, a) ==>
              && 0 <= e.base <= e.last < MAX_OFFSET && e.segmentBase == base && 0 < e.recordBytes < MAX_RECORDS
              && (|frames| > 1 ==> e.position <= Size(frames, a)) && (|frames| <= 1 ==> e.position == 0)
  {
    hide FrameSize;
    if frames != [] {
      SegmentEntriesFit(base, Front(frames), a);
      assert RecordCount(Last(frames).bytes) >= 1;
    }
  }

  lemma {:induction false} EntriesFit(segs: seq<Segment>, g: Geometry)
    requires Valid(segs, g) && End(segs) < MAX_OFFSET && g.segmentBytes < MAX_OFFSET
    ensures forall e :: e in Entries(segs, g.align) ==> EntryFits(e) && e.recordBytes > 0 && e.last >= e.base
  {
    hide FrameSize;
    FilesBounded(segs, g);
    var front, s := Front(segs), Last(segs);
    if |segs| == 1 {
      assert front == [];
    } else {
      EntriesFit(front, g);
    }
    assert s.base in Files(segs, g.align);
    SegmentEntriesFit(s.base, s.frames, g.align);
  }

  /** The index file a run leaves is readable and complete. */
  lemma RunIndexReadable(history: seq<seq<byte>>, g: Geometry)
    requires Storable(history) && [] !in history && g.segmentBytes < MAX_OFFSET
    ensures DecodeIndex(Run(history, g).disk.index, 0, g.align) == Run(history, g).mem.entries
  {
    hide Run, IndexImage, DecodeIndex, Entries;
    var segs := LayoutOf(history, g);
    RunIsLayout(history, g);
    EntriesFit(segs, g);
    var es := Entries(segs, g.align);
    IndexRoundTrip(es, 0, g.align);
    assert es[0..] == es;
  }

  /** Restart after any run rebuilds the memory the run ended with. */
  lemma CleanRestart(history: seq<seq<byte>>, g: Geometry)
    requires Storable(history) && [] !in history && g.segmentBytes < MAX_OFFSET
    ensures RecoverMemory(Run(history, g).disk, g.align) == Run(history, g).mem
  {
    hide Run, RecoverMemory, ScanMemory;
    var segs := LayoutOf(history, g);
    RunIsLayout(history, g);
    RunIndexReadable(history, g);
    FastEqualsScan(segs, Run(history, g).disk, Files(segs, g.align), g);
    ScanLayout(segs, g);
  }

  /**
   Restart after a crash of any run: whatever prefix of the index is readable
   and however the segment files were cut, recovery is the scan of what is left.
   */
  lemma CrashRestart(history: seq<seq<byte>>, disk: Disk, g: Geometry)
    requires Storable(history) && [] !in history
    requires CutDown(disk.files, Run(history, g).disk.files)
    requires DecodeIndex(disk.index, 0, g.align) <= Run(history, g).mem.entries
    ensures RecoverMemory(disk, g.align) == ScanMemory(disk.files, g.align)
  {
    hide Run, RecoverMemory, ScanMemory;
    RunIsLayout(history, g);
    FastEqualsScan(LayoutOf(history, g), disk, Run(history, g).disk.files, g);
  }

  lemma TornHolds(segs: seq<Segment>, n: nat, g: Geometry)
    requires Valid(segs, g) && n <= Size(Last(segs).frames, g.align)
    ensures forall t :: t in TornLayout(segs, n, g.align) ==>
              SegmentFile(t.frames, g.align) <= FileOf(TornFiles(segs, n, g.align), t.base)
  {
    hide SegmentFile, WholeFrames;
    var a, torn, files, s := g.align, TornLayout(segs, n, g.align), TornFiles(segs, n, g.align), Last(segs);
    var k := WholeFrames(s.frames, n, a);
    FileSizes(segs, g);
    BasesIncrease(segs, g);
    WholeFramesMaximal(s.frames, n, k, a);
    CutSegment(s.base, s.frames, k, a);
    hide Valid, Files, Size;
    forall t | t in torn
      ensures SegmentFile(t.frames, a) <= FileOf(files, t.base)
    {
      if t in Front(segs) {
        var i :| 0 <= i < |segs| - 1 && segs[i] == t;
        assert t in segs && t.base != s.base;
      } else {
        assert t == Segment(s.base, s.frames[..k]);
      }
    }
  }

  /** After a torn tail the recovered index can be read in full, over the torn files. */
  lemma TornReadable(segs: seq<Segment>, n: nat, g: Geometry)
    requires segs != [] && Valid(segs, g) && n <= Size(Last(segs).frames, g.align)
    ensures Readable(Entries(TornLayout(segs, n, g.align), g.align), TornFiles(segs, n, g.align), g.align)
  {
    TornTail(segs, n, g);
    TornHolds(segs, n, g);
    hide SegmentFile, Readable, TornFiles, TornLayout, Valid, Entries, AllFrames, Describes, Ordered, Bounded;
    var a, torn, files := g.align, TornLayout(segs, n, g.align), TornFiles(segs, n, g.align);
    LayoutDescribes(torn, files, g);
    LayoutOrdered(torn, g);
    DescribedReadable(Entries(torn, a), AllFrames(torn), files, a);
  }
}
