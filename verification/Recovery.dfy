/**
 Restart. A log is rebuilt either from the index file or by scanning the
 segment files; the index is trusted only when the segment files it describes
 are exactly the ones on disk, to the byte.
 */
module Recovery {
  import opened Bytes
  import opened LogFormat
  import opened LogLayout

  // ---- Specification -------------------------------------------------------

  ghost predicate IsMax(m: int, keys: set<int>) {
    m in keys && forall k :: k in keys ==> k <= m
  }

  lemma {:induction false} HasMax(keys: set<int>)
    requires keys != {}
    ensures exists m :: IsMax(m, keys)
  {
    assert exists x :: x in keys by {
      if forall x :: x !in keys {
        assert false;
      }
    }
    var x :| x in keys;
    var rest := keys - {x};
    assert forall k :: k in keys ==> k == x || k in rest;
    if rest == {} {
      assert IsMax(x, keys);
    } else {
      HasMax(rest);
      var m :| IsMax(m, rest);
      assert IsMax(if x < m then m else x, keys);
    }
  }

  /** `list_segment_files`: the segment bases in increasing order. */
  ghost function Listing(keys: set<int>): seq<int> {
    if keys == {} then []
    else
      HasMax(keys);
      var m :| IsMax(m, keys);
      Listing(keys - {m}) + [m]
  }

  /** Entries the scan finds in one segment file, from a position on. */
  function ScanFrames(base: int, file: seq<byte>, position: nat, a: Alignment): seq<Entry>
    decreases |file| - position
  {
    match ParseFrame(file, position, a)
    case NoFrame => []
    case Whole(f) =>
      [EntryOf(base, f, position)] + ScanFrames(base, file, position + FrameSize(|f.bytes|, a), a)
  }

  function ScanFiles(bases: seq<int>, files: map<int, seq<byte>>, a: Alignment): seq<Entry> {
    if bases == [] then []
    else ScanFiles(Front(bases), files, a) + ScanFrames(Last(bases), FileOf(files, Last(bases)), 0, a)
  }

  function MemoryFrom(entries: seq<Entry>, latest: int, a: Alignment): Memory {
    var t := Table(entries, a);
    Memory(entries, t, latest,
           if t == [] then 0 else Last(t).base,
           if t == [] then 0 else Last(t).writePosition,
           Slot(|entries|, a))
  }

  function LastEnd(entries: seq<Entry>): int {
    if entries == [] then 0 else Last(entries).last + 1
  }

  function MaxEnd(entries: seq<Entry>): int {
    if entries == [] then 0 else Max(MaxEnd(Front(entries)), Last(entries).last + 1)
  }

  /** The slow path: everything from the segment files. */
  ghost function ScanMemory(files: map<int, seq<byte>>, a: Alignment): Memory {
    var es := ScanFiles(Listing(files.Keys), files, a);
    MemoryFrom(es, LastEnd(es), a)
  }

  /** The fast path: everything from the index file's readable entries. */
  function IndexMemory(entries: seq<Entry>, a: Alignment): Memory {
    MemoryFrom(entries, MaxEnd(entries), a)
  }

  predicate Covers(segments: seq<SegmentInfo>, bases: seq<int>, files: map<int, seq<byte>>) {
    |bases| == |segments| &&
    forall i :: 0 <= i < |bases| ==>
      bases[i] == segments[i].base && |FileOf(files, bases[i])| == segments[i].writePosition
  }

  /** The index has readable entries, and they describe the files on disk to the byte. */
  ghost predicate IndexAccepted(disk: Disk, a: Alignment) {
    var es := DecodeIndex(disk.index, 0, a);
    es != [] && Covers(Table(es, a), Listing(disk.files.Keys), disk.files)
  }

  ghost function RecoverMemory(disk: Disk, a: Alignment): Memory {
    if IndexAccepted(disk, a) then IndexMemory(DecodeIndex(disk.index, 0, a), a) else ScanMemory(disk.files, a)
  }

  /** The log a restart makes of a disk: an accepted index stays, any other is written anew. */
  ghost function Restarted(disk: Disk, a: Alignment): Log {
    var mem := RecoverMemory(disk, a);
    Log(mem, disk.(index := if IndexAccepted(disk, a) then disk.index else IndexImage(mem.entries, a)))
  }

  // ---- Scanning one segment ------------------------------------------------

  /** Leading frames that lie wholly inside the first n bytes of their segment. */
  function WholeFrames(frames: seq<Frame>, n: nat, a: Alignment): (k: nat)
    ensures k <= |frames|
  {
    if frames == [] then 0
    else if Size(frames, a) <= n then |frames|
    else WholeFrames(Front(frames), n, a)
  }

  lemma {:induction false} PrefixSize(frames: seq<Frame>, k: nat, a: Alignment)
    requires k < |frames|
    ensures Size(frames[..k + 1], a) == Size(frames[..k], a) + FrameSize(|frames[k].bytes|, a)
    ensures Size(frames[..k + 1], a) <= Size(frames, a)
  {
    assert Front(frames[..k + 1]) == frames[..k];
    if k + 1 < |frames| {
      PrefixSize(Front(frames), k, a);
      assert Front(frames)[..k + 1] == frames[..k + 1] && Front(frames)[..k] == frames[..k];
    } else {
      assert frames[..k + 1] == frames;
    }
  }

  lemma FrameSnoc(frames: seq<Frame>, a: Alignment)
    requires frames != []
    ensures SegmentFile(frames, a) == SegmentFile(Front(frames), a) + FrameBytes(Last(frames), a)
    ensures |SegmentFile(Front(frames), a)| == Size(Front(frames), a)
    ensures |FrameBytes(Last(frames), a)| == FrameSize(|Last(frames).bytes|, a)
  {
  }

  lemma {:induction false} FrameSlice(frames: seq<Frame>, k: nat, a: Alignment)
    requires k < |frames|
    ensures Size(frames[..k], a) <= Size(frames[..k + 1], a) <= Size(frames, a)
    ensures SegmentFile(frames, a)[Size(frames[..k], a)..Size(frames[..k + 1], a)] == FrameBytes(frames[k], a)
  {
    PrefixSize(frames, k, a);
    FrameSnoc(frames, a);
    hide FrameBytes, SegmentFile;
    var before, last := SegmentFile(Front(frames), a), FrameBytes(Last(frames), a);
    if k + 1 < |frames| {
      FrameSlice(Front(frames), k, a);
      assert Front(frames)[..k + 1] == frames[..k + 1] && Front(frames)[..k] == frames[..k];
      SliceOfPrefix(before, last, Size(frames[..k], a), Size(frames[..k + 1], a));
    } else {
      assert frames[..k + 1] == frames && frames[..k] == Front(frames);
      SliceOfSuffix(before, last);
    }
  }

  /** WholeFrames is the largest number of leading frames that fit in n bytes. */
  lemma {:induction false} WholeFramesMaximal(frames: seq<Frame>, n: nat, k: nat, a: Alignment)
    requires k <= |frames|
    ensures k <= WholeFrames(frames, n, a) <==> Size(frames[..k], a) <= n
  {
    if frames == [] {
      assert frames[..k] == [];
    } else if k == |frames| {
      assert frames[..k] == frames;
    } else {
      PrefixSize(frames, |frames| - 1, a);
      assert frames[..|frames|] == frames && frames[..|frames| - 1] == Front(frames);
      WholeFramesMaximal(Front(frames), n, k, a);
      assert Front(frames)[..k] == frames[..k];
      if Size(frames, a) <= n {
        SizeMonotone(frames, k, a);
      }
    }
  }

  lemma {:induction false} SizeMonotone(frames: seq<Frame>, k: nat, a: Alignment)
    requires k <= |frames|
    ensures Size(frames[..k], a) <= Size(frames, a)
  {
    if k < |frames| {
      SizeMonotone(Front(frames), k, a);
      assert Front(frames)[..k] == frames[..k];
    } else {
      assert frames[..k] == frames;
    }
  }

  predicate Recoverable(f: Frame) {
    FrameFits(f) && f.bytes != []
  }

  lemma {:induction false} ValidRecoverable(frames: seq<Frame>, b: int)
    requires ValidFrames(frames, b)
    ensures forall f :: f in frames ==> Recoverable(f)
  {
    if frames != [] {
      ValidRecoverable(Front(frames), b);
      FrontLast(frames);
    }
  }

  lemma {:induction false} EntriesPrefix(base: int, frames: seq<Frame>, k: nat, a: Alignment)
    requires k < |frames|
    ensures SegmentEntries(base, frames[..k + 1], a)
              == SegmentEntries(base, frames[..k], a) + [EntryOf(base, frames[k], Size(frames[..k], a))]
    ensures SegmentEntries(base, frames, a)[k] == EntryOf(base, frames[k], Size(frames[..k], a))
    ensures SegmentEntries(base, frames, a)[..k] == SegmentEntries(base, frames[..k], a)
  {
    assert Front(frames[..k + 1]) == frames[..k];
    if k + 1 < |frames| {
      EntriesPrefix(base, Front(frames), k, a);
      assert Front(frames)[..k] == frames[..k];
    } else {
      assert frames[..k] == Front(frames);
    }
  }

  /**
   Torn segment: whatever length n the file is cut to, the scan finds exactly
   the frames lying wholly inside the kept bytes.
   */
  lemma ScanTorn(base: int, frames: seq<Frame>, n: nat, a: Alignment)
    requires forall f :: f in frames ==> Recoverable(f)
    requires n <= Size(frames, a)
    ensures ScanFrames(base, SegmentFile(frames, a)[..n], 0, a)
         == SegmentEntries(base, frames[..WholeFrames(frames, n, a)], a)
  {
    assert frames[..0] == [];
    WholeFramesMaximal(frames, n, 0, a);
    ScanTornFrom(base, frames, n, 0, a);
  }

  lemma {:induction false} ScanTornFrom(base: int, frames: seq<Frame>, n: nat, k: nat, a: Alignment)
    requires forall f :: f in frames ==> Recoverable(f)
    requires n <= Size(frames, a) && k <= WholeFrames(frames, n, a)
    ensures SegmentEntries(base, frames[..k], a)
         + ScanFrames(base, SegmentFile(frames, a)[..n], Size(frames[..k], a), a)
         == SegmentEntries(base, frames[..WholeFrames(frames, n, a)], a)
    decreases |frames| - k
  {
    hide FrameBytes, SegmentFile, ParseFrame;
    var file, position, w := SegmentFile(frames, a)[..n], Size(frames[..k], a), WholeFrames(frames, n, a);
    WholeFramesMaximal(frames, n, k, a);
    if k < w {
      FrameStep(frames, n, k, a);
      EntriesPrefix(base, frames, k, a);
      ScanTornFrom(base, frames, n, k + 1, a);
    } else {
      ScanStops(frames, n, k, a);
    }
  }

  lemma FrameStep(frames: seq<Frame>, n: nat, k: nat, a: Alignment)
    requires forall f :: f in frames ==> Recoverable(f)
    requires n <= Size(frames, a) && k < WholeFrames(frames, n, a)
    ensures ParseFrame(SegmentFile(frames, a)[..n], Size(frames[..k], a), a) == Whole(frames[k])
    ensures Size(frames[..k + 1], a) == Size(frames[..k], a) + FrameSize(|frames[k].bytes|, a)
  {
    hide FrameBytes, SegmentFile, ParseFrame;
    var whole, position := SegmentFile(frames, a), Size(frames[..k], a);
    WholeFramesMaximal(frames, n, k + 1, a);
    PrefixSize(frames, k, a);
    FrameSlice(frames, k, a);
    SubSlice(whole, 0, n, position, Size(frames[..k + 1], a));
    assert frames[k] in frames;
    ParseWhole(whole[..n], position, frames[k], a);
  }

  lemma ScanStops(frames: seq<Frame>, n: nat, k: nat, a: Alignment)
    requires forall f :: f in frames ==> Recoverable(f)
    requires n <= Size(frames, a) && k == WholeFrames(frames, n, a)
    ensures ParseFrame(SegmentFile(frames, a)[..n], Size(frames[..k], a), a) == NoFrame
  {
    hide FrameBytes, SegmentFile;
    var whole, position := SegmentFile(frames, a), Size(frames[..k], a);
    WholeFramesMaximal(frames, n, k, a);
    if k == |frames| {
      assert frames[..k] == frames;
    } else {
      hide ParseFrame;
      WholeFramesMaximal(frames, n, k + 1, a);
      PrefixSize(frames, k, a);
      FrameSlice(frames, k, a);
      SubSlice(whole, 0, n, position, n);
      SubSlice(whole, position, Size(frames[..k + 1], a), 0, n - position);
      assert whole[..n][position..] == whole[..n][position..n];
      assert frames[k] in frames;
      ParseTorn(whole[..n], position, frames[k], a);
    }
  }
}
