/** Safety of replication over every run, and convergence of catch-up. */
module ReplicationProofs {
  import opened Wrappers
  import opened Bytes
  import opened RecordBatch
  import opened RecordBatchProofs
  import opened LogFormat
  import opened LogLayout
  import opened Fetch
  import opened FetchProofs
  import opened PartitionLog
  import opened Replication

  // ---- Offsets and concatenation -------------------------------------------

  lemma {:induction false} EndOffsetSplit(a: History, b: History)
    ensures EndOffset(a + b) == EndOffset(a) + EndOffset(b)
  {
    if b == [] {
      assert a + b == a;
    } else {
      EndOffsetSplit(a, Front(b));
      assert Front(a + b) == a + Front(b) && Last(a + b) == Last(b);
    }
  }

  lemma {:induction false} ConcatSplit(a: History, b: History)
    ensures Concat(a + b) == Concat(a) + Concat(b)
  {
    if b == [] {
      assert a + b == a;
    } else {
      ConcatSplit(a, Front(b));
      assert Front(a + b) == a + Front(b) && Last(a + b) == Last(b);
      assert Concat(a) + (Concat(Front(b)) + Last(b)) == (Concat(a) + Concat(Front(b))) + Last(b);
    }
  }

  /** Counts add over concatenated leader entries. */
  lemma {:induction false} ConcatCounts(h: History)
    requires GoodHistory(h)
    ensures WellFormed(Concat(h)) && RecordCount(Concat(h)) == EndOffset(h)
    ensures h != [] ==> Concat(h) != []
  {
    hide RecordCount;
    if h != [] {
      assert forall r :: r in Front(h) ==> r in h;
      assert Last(h) in h;
      ConcatCounts(Front(h));
      CountConcat(Concat(Front(h)), Last(h));
    } else {
      assert RecordCount([]) == 0;
    }
  }

  /** Log ends strictly increase with the number of entries. */
  lemma {:induction false} EndOffsetIncreases(h: History, j: nat, k: nat)
    requires GoodHistory(h) && j <= k <= |h|
    ensures EndOffset(h[..j]) <= EndOffset(h[..k])
    ensures j < k ==> EndOffset(h[..j]) < EndOffset(h[..k])
    decreases k - j
  {
    if j < k {
      EndOffsetIncreases(h, j, k - 1);
      assert Front(h[..k]) == h[..k - 1] && Last(h[..k]) == h[k - 1];
      assert h[k - 1] in h;
    }
  }

  /** Two entry counts with the same log end are the same count. */
  lemma BoundaryUnique(h: History, j: nat, k: nat)
    requires GoodHistory(h) && j <= |h| && k <= |h| && EndOffset(h[..j]) == EndOffset(h[..k])
    ensures j == k
  {
    if j < k {
      EndOffsetIncreases(h, j, k);
    } else if k < j {
      EndOffsetIncreases(h, k, j);
    }
  }

  lemma SpanCounts(h: History, j: nat, k: nat)
    requires GoodHistory(h) && j <= k <= |h|
    ensures EndOffset(h[..k]) == EndOffset(h[..j]) + EndOffset(h[j..k])
    ensures RecordCount(Concat(h[j..k])) == EndOffset(h[j..k])
    ensures j < k ==> Concat(h[j..k]) != []
  {
    assert h[..k] == h[..j] + h[j..k];
    EndOffsetSplit(h[..j], h[j..k]);
    assert forall r :: r in h[j..k] ==> r in h;
    ConcatCounts(h[j..k]);
  }

  // ---- Followers as groups of leader entries -------------------------------

  /**
   Meaning of prefix safety: the follower's bytes are the leader's first n record
   sets, and its log end is the leader's n-th entry boundary.
   */
  lemma {:induction false} CoversMeaning(log: History, leader: History, n: nat)
    requires GoodHistory(leader) && Covers(log, leader, n)
    ensures n <= |leader|
    ensures Concat(log) == Concat(leader[..n])
    ensures EndOffset(log) == EndOffset(leader[..n])
  {
    if log == [] {
      assert leader[..0] == [];
    } else {
      var j: nat :| j < n && Covers(Front(log), leader, j) && Last(log) == Concat(leader[j..n]);
      CoversMeaning(Front(log), leader, j);
      SpanCounts(leader, j, n);
      ConcatSplit(leader[..j], leader[j..n]);
      assert leader[..n] == leader[..j] + leader[j..n];
    }
  }

  lemma CoversExtend(log: History, leader: History, j: nat, k: nat)
    requires Covers(log, leader, j) && j < k <= |leader|
    ensures Covers(log + [Concat(leader[j..k])], leader, k)
  {
    var all := log + [Concat(leader[j..k])];
    assert Front(all) == log && Last(all) == Concat(leader[j..k]);
  }

  lemma {:induction false} CoversLonger(log: History, leader: History, more: History, n: nat)
    requires Covers(log, leader, n)
    ensures Covers(log, leader + more, n)
  {
    if log != [] {
      var j: nat :| j < n && Covers(Front(log), leader, j) && Last(log) == Concat(leader[j..n]);
      CoversLonger(Front(log), leader, more, j);
      assert (leader + more)[j..n] == leader[j..n];
    }
  }

  lemma {:induction false} PrefixSafeCut(log: History, leader: History, n: nat, keep: nat)
    requires Covers(log, leader, n) && keep <= |log|
    ensures PrefixSafe(log[..keep], leader)
    decreases |log|
  {
    if keep == |log| {
      assert log[..keep] == log;
    } else {
      var j: nat :| j < n && Covers(Front(log), leader, j) && Last(log) == Concat(leader[j..n]);
      PrefixSafeCut(Front(log), leader, j, keep);
      assert Front(log)[..keep] == log[..keep];
    }
  }

  // ---- What the leader serves ----------------------------------------------

  lemma {:induction false} HistoryFrame(h: History, i: nat)
    requires i < |h|
    ensures FramesOf(h)[i] == Frame(EndOffset(h[..i]), h[i])
  {
    if i < |h| - 1 {
      HistoryFrame(Front(h), i);
      assert Front(h)[..i] == h[..i];
    } else {
      assert h[..i] == Front(h);
    }
  }

  /** Entries before the offset are skipped, whatever is collected afterwards. */
  lemma {:induction false} ServeSkips(h: History, i: nat, j: nat, q: Query)
    requires GoodHistory(h) && i <= j <= |h| && q.offset == EndOffset(h[..j])
    ensures FramesFetch(FramesOf(h), i, q, []) == FramesFetch(FramesOf(h), j, q, [])
    decreases j - i
  {
    if i < j {
      HistoryFrame(h, i);
      EndOffsetIncreases(h, i + 1, j);
      assert Front(h[..i + 1]) == h[..i];
      ServeSkips(h, i + 1, j, q);
    }
  }

  /** Entry k of a served log: where it lies relative to entry j and to the log end. */
  lemma EntryVisible(h: History, j: nat, k: nat)
    requires GoodHistory(h) && j <= k < |h|
    ensures var f := FramesOf(h)[k];
            && f.bytes == h[k] && f.base < EndOffset(h)
            && EndOffset(h[..j]) <= f.base + RecordCount(f.bytes) - 1 < EndOffset(h)
  {
    hide EndOffset, FramesOf, GoodHistory, RecordCount;
    HistoryFrame(h, k);
    EndOffsetIncreases(h, j, k);
    EndOffsetIncreases(h, k, k + 1);
    EndOffsetIncreases(h, k + 1, |h|);
    assert h[..|h|] == h;
    OneMoreEntry(h, k);
  }

  lemma OneMoreEntry(h: History, k: nat)
    requires k < |h|
    ensures EndOffset(h[..k + 1]) == EndOffset(h[..k]) + RecordCount(h[k])
  {
    assert Front(h[..k + 1]) == h[..k] && Last(h[..k + 1]) == h[k];
  }

  lemma NextConcat(h: History, j: nat, k: nat)
    requires j <= k < |h|
    ensures Concat(h[j..k + 1]) == Concat(h[j..k]) + h[k]
  {
    assert Front(h[j..k + 1]) == h[j..k] && Last(h[j..k + 1]) == h[k];
  }

  /** From entry k on, with entries j..k collected, the leader serves entries j..e for some e >= k. */
  lemma {:induction false} ServeCollects(h: History, j: nat, k: nat, q: Query) returns (e: nat)
    requires GoodHistory(h) && j < k <= |h|
    requires q.offset == EndOffset(h[..j]) && q.visibleEnd == EndOffset(h)
    requires k == j + 1 || |Concat(h[j..k])| <= q.limit
    ensures k <= e <= |h|
    ensures FramesFetch(FramesOf(h), k, q, Concat(h[j..k])) == Concat(h[j..e])
    ensures e == j + 1 || |Concat(h[j..e])| <= q.limit
    decreases |h| - k
  {
    hide RecordCount;
    e := k;
    if k < |h| {
      var got, next := Concat(h[j..k]), Concat(h[j..k + 1]);
      EntryVisible(h, j, k);
      NextConcat(h, j, k);
      SpanCounts(h, j, k);
      hide Concat, EndOffset, GoodHistory, FramesOf;
      if |got| + |h[k]| <= q.limit {
        e := k + 1;
        if |next| < q.limit {
          e := ServeCollects(h, j, k + 1, q);
        }
      }
    }
  }

  /** A replica fetch at an entry boundary returns whole following entries, at least one if there is one. */
  lemma ServeAtBoundary(h: History, j: nat, limit: nat, a: Alignment) returns (e: nat)
    requires GoodHistory(h) && j <= |h|
    ensures j <= e <= |h| && (j < |h| ==> j < e)
    ensures ServedRecords(h, EndOffset(h[..j]), limit, a) == Concat(h[j..e])
    ensures e <= j + 1 || |Concat(h[j..e])| <= limit
  {
    hide RecordCount;
    var q := Query(EndOffset(h[..j]), EndOffset(h), limit, a);
    ServeSkips(h, 0, j, q);
    e := j;
    if j == |h| {
      assert h[j..j] == [];
    } else {
      EntryVisible(h, j, j);
      NextConcat(h, j, j);
      assert h[j..j] == [] && [] + h[j] == h[j];
      e := j + 1;
      if |h[j]| < limit {
        e := ServeCollects(h, j, j + 1, q);
      }
    }
  }

  // ---- Every step keeps the cluster safe -----------------------------------

  /** One message accepted at the follower's log end extends what it covers. */
  lemma AcceptCovers(log: History, leader: History, m: Message, n: nat, j: nat, k: nat)
    requires GoodHistory(leader) && Covers(log, leader, n) && MessageSpan(m, leader, j, k)
    requires m.base == EndOffset(log)
    ensures n == j && Covers(log + [m.records], leader, k)
  {
    CoversMeaning(log, leader, n);
    BoundaryUnique(leader, n, j);
    CoversExtend(log, leader, j, k);
  }

  lemma CoveredTwice(log: History, leader: History, n: nat, n': nat)
    requires GoodHistory(leader) && Covers(log, leader, n) && Covers(log, leader, n')
    ensures n == n'
  {
    CoversMeaning(log, leader, n);
    CoversMeaning(log, leader, n');
    BoundaryUnique(leader, n, n');
  }

  lemma SpanLonger(m: Message, leader: History, more: History)
    requires FromLeader(m, leader)
    ensures FromLeader(m, leader + more)
  {
    var j: nat, k: nat :| MessageSpan(m, leader, j, k);
    assert (leader + more)[..j] == leader[..j] && (leader + more)[j..k] == leader[j..k];
    assert MessageSpan(m, leader + more, j, k);
  }

  lemma BoundaryLonger(offset: int, leader: History, more: History)
    requires IsBoundary(offset, leader)
    ensures IsBoundary(offset, leader + more)
  {
    var n: nat :| n <= |leader| && offset == EndOffset(leader[..n]);
    assert (leader + more)[..n] == leader[..n];
  }

  lemma ProduceSafe(s: Cluster, records: seq<byte>, acks: int, depth: nat, c: Limits, a: Alignment)
    requires Safe(s) && GoodStep(Produce(records, acks, depth), c)
    ensures Safe(Next(s, Produce(records, acks, depth), c, a))
  {
    hide Covers, EndOffset, RecordCount, WellFormed;
    var s', leader' := Next(s, Produce(records, acks, depth), c, a), s.leader + [records];
    var m := Message(EndOffset(s.leader), EndOffset(s.leader) + RecordCount(records), records, Some(|s.leader|));
    NewMessage(s.leader, records, m);
    forall f | f in s.followers
      ensures PrefixSafe(s.followers[f].log, leader')
    {
      var n: nat :| Covers(s.followers[f].log, s.leader, n);
      CoversLonger(s.followers[f].log, s.leader, [records], n);
    }
    forall x | x in s.messages
      ensures FromLeader(x, leader')
    {
      SpanLonger(x, s.leader, [records]);
    }
    forall o | o in s.asked
      ensures IsBoundary(o, leader')
    {
      BoundaryLonger(o, s.leader, [records]);
    }
    forall k | k in s.acks
      ensures AckHolds(k, s')
    {
      var f := s.followers[k.follower];
      if k.epoch == f.epoch {
        var n: nat :| k.op < n && Covers(f.log, s.leader, n);
        CoversLonger(f.log, s.leader, [records], n);
      }
    }
  }

  lemma NewMessage(leader: History, records: seq<byte>, m: Message)
    requires m.base == EndOffset(leader) && m.records == records && m.op == Some(|leader|)
    ensures FromLeader(m, leader + [records])
  {
    var n, leader' := |leader|, leader + [records];
    assert leader'[..n] == leader && leader'[n..n + 1] == [records];
    assert Front([records]) == [] && Concat([records]) == [] + records;
    assert MessageSpan(m, leader', n, n + 1);
  }

  lemma DeliverSafe(s: Cluster, f: int, m: Message, depth: nat, c: Limits, a: Alignment)
    requires Safe(s) && f in s.followers && m in s.messages
    ensures Safe(Next(s, Deliver(f, m, depth), c, a))
  {
    hide Covers, EndOffset;
    var s', log := Next(s, Deliver(f, m, depth), c, a), s.followers[f].log;
    if AdmitReplica(c, depth, EndOffset(log), m.base, m.records) == NoError {
      var j: nat, k: nat :| MessageSpan(m, s.leader, j, k);
      var n: nat :| Covers(log, s.leader, n);
      AcceptCovers(log, s.leader, m, n, j, k);
      forall x | x in s'.acks
        ensures AckHolds(x, s')
      {
        if x in s.acks && x.follower == f && x.epoch == s.followers[f].epoch {
          var n': nat :| x.op < n' && Covers(log, s.leader, n');
          CoveredTwice(log, s.leader, n, n');
          assert x.op < k && Covers(s'.followers[f].log, s.leader, k);
        }
      }
    }
  }

  lemma ServeSafe(s: Cluster, offset: int, c: Limits, a: Alignment)
    requires Safe(s) && offset in s.asked
    ensures Safe(Next(s, ServeFetch(offset), c, a))
  {
    hide Covers, EndOffset, ServedRecords;
    var j: nat :| j <= |s.leader| && offset == EndOffset(s.leader[..j]);
    var e := ServeAtBoundary(s.leader, j, CATCHUP_MAX_BYTES, a);
    var records := ServedRecords(s.leader, offset, CATCHUP_MAX_BYTES, a);
    if j == e {
      assert s.leader[j..e] == [];
      assert records == Concat([]);
    }
    if records != [] {
      assert MessageSpan(Message(offset, s.leaderHighWatermark, records, None), s.leader, j, e);
    }
  }

  lemma AskSafe(s: Cluster, f: int, c: Limits, a: Alignment)
    requires Safe(s) && f in s.followers
    ensures Safe(Next(s, AskFetch(f), c, a))
  {
    hide Covers, EndOffset;
    var n: nat :| Covers(s.followers[f].log, s.leader, n);
    CoversMeaning(s.followers[f].log, s.leader, n);
  }

  lemma CrashSafe(s: Cluster, f: int, keep: nat, c: Limits, a: Alignment)
    requires Safe(s) && f in s.followers && keep <= |s.followers[f].log|
    ensures Safe(Next(s, Crash(f, keep), c, a))
  {
    hide Covers, EndOffset;
    var n: nat :| Covers(s.followers[f].log, s.leader, n);
    PrefixSafeCut(s.followers[f].log, s.leader, n, keep);
  }

  lemma StepSafe(s: Cluster, t: Step, c: Limits, a: Alignment)
    requires Safe(s) && Enabled(s, t) && GoodStep(t, c)
    ensures Safe(Next(s, t, c, a))
  {
    match t
    case Produce(records, acks, depth) => ProduceSafe(s, records, acks, depth, c, a);
    case Deliver(f, m, depth) => DeliverSafe(s, f, m, depth, c, a);
    case AskFetch(f) => AskSafe(s, f, c, a);
    case ServeFetch(offset) => ServeSafe(s, offset, c, a);
    case Crash(f, keep) => CrashSafe(s, f, keep, c, a);
    case Complete(op) =>
    case Fail(op) =>
  }

  lemma {:induction false} RunSafe(s: Cluster, steps: seq<Step>, s': Cluster, c: Limits, a: Alignment)
    requires Safe(s) && IsRun(s, steps, s', c, a)
    ensures Safe(s')
    decreases |steps|
  {
    hide Safe, Enabled, Next, GoodStep;
    if steps != [] {
      StepSafe(s, steps[0], c, a);
      RunSafe(Next(s, steps[0], c, a), steps[1..], s', c, a);
    }
  }

  // ---- Main results --------------------------------------------------------

  /** A leader and followers with empty logs and nothing in flight. */
  function Fresh(ids: set<int>): Cluster {
    Cluster([], 0, map f | f in ids :: Follower([], 0, 0), {}, {}, {}, {}, {})
  }

  lemma FreshSafe(ids: set<int>)
    ensures Safe(Fresh(ids))
  {
    assert Covers([], [], 0);
  }

  /**
   Replica prefix safety. In every run from a fresh cluster, over every
   interleaving of produces, lost, delayed, duplicated and reordered messages,
   catch-up rounds and follower crashes, each follower holds exactly the bytes of
   the leader's first n record sets, for some n, and ends at that boundary.
   */
  lemma PrefixSafety(ids: set<int>, steps: seq<Step>, s: Cluster, c: Limits, a: Alignment)
    requires IsRun(Fresh(ids), steps, s, c, a)
    ensures forall f :: f in s.followers ==>
              exists n: nat :: n <= |s.leader| && Concat(s.followers[f].log) == Concat(s.leader[..n])
                         && EndOffset(s.followers[f].log) == EndOffset(s.leader[..n])
  {
    FreshSafe(ids);
    RunSafe(Fresh(ids), steps, s, c, a);
    hide Covers, EndOffset, Concat, IsRun;
    forall f | f in s.followers
      ensures exists n: nat :: n <= |s.leader| && Concat(s.followers[f].log) == Concat(s.leader[..n])
                         && EndOffset(s.followers[f].log) == EndOffset(s.leader[..n])
    {
      var n: nat :| Covers(s.followers[f].log, s.leader, n);
      CoversMeaning(s.followers[f].log, s.leader, n);
    }
  }

  /** Follower f holds the leader's record sets up to and including that of produce `op`. */
  ghost predicate HoldsThrough(s: Cluster, f: int, op: nat)
    requires f in s.followers && op < |s.leader|
  {
    && Concat(s.leader[..op + 1]) <= Concat(s.followers[f].log)
    && EndOffset(s.leader[..op + 1]) <= EndOffset(s.followers[f].log)
  }

  /**
   What an acknowledgement means. In every run, every follower that has not
   crashed since it acknowledged a produce holds that produce's record set and
   all before it, byte for byte, whatever other produces overlapped it.
   */
  lemma EveryAckHolds(ids: set<int>, steps: seq<Step>, s: Cluster, k: Ack, c: Limits, a: Alignment)
    requires IsRun(Fresh(ids), steps, s, c, a) && k in s.acks
    ensures k.follower in s.followers && k.op < |s.leader| && k.epoch <= s.followers[k.follower].epoch
    ensures k.epoch == s.followers[k.follower].epoch ==> HoldsThrough(s, k.follower, k.op)
  {
    hide Safe, IsRun, HoldsThrough;
    FreshSafe(ids);
    RunSafe(Fresh(ids), steps, s, c, a);
    AckMeans(s, k);
  }

  lemma AckMeans(s: Cluster, k: Ack)
    requires Safe(s) && k in s.acks
    ensures k.follower in s.followers && k.op < |s.leader| && k.epoch <= s.followers[k.follower].epoch
    ensures k.epoch == s.followers[k.follower].epoch ==> HoldsThrough(s, k.follower, k.op)
  {
    hide Covers, EndOffset, Concat, GoodHistory;
    assert AckHolds(k, s);
    var op, f := k.op, k.follower;
    if k.epoch == s.followers[f].epoch {
      var n: nat :| op < n && Covers(s.followers[f].log, s.leader, n);
      CoversMeaning(s.followers[f].log, s.leader, n);
      EndOffsetIncreases(s.leader, op + 1, n);
      PrefixOfConcat(s.leader, op + 1, n);
    }
  }

  /**
   acks=all safety. In every run, for every produce that was acknowledged to its
   client, at any time before or now, every follower accepted it, and every one
   whose acceptance no crash followed holds it and all before it.
   */
  lemma AcksAllSafety(ids: set<int>, steps: seq<Step>, s: Cluster, op: nat, f: int, c: Limits, a: Alignment)
    requires IsRun(Fresh(ids), steps, s, c, a)
    requires op in s.acknowledged || Enabled(s, Complete(op))
    requires f in s.followers
    ensures op < |s.leader|
    ensures exists k :: k in s.acks && k.op == op && k.follower == f
    ensures (exists k :: k in s.acks && k.op == op && k.follower == f && k.epoch == s.followers[f].epoch)
              ==> HoldsThrough(s, f, op)
    ensures s.followers[f].epoch == 0 ==> HoldsThrough(s, f, op)
  {
    FreshSafe(ids);
    RunSafe(Fresh(ids), steps, s, c, a);
    hide Covers, EndOffset, Concat, IsRun, GoodHistory, HoldsThrough;
    assert AllAcked(s, op);
    var k :| k in s.acks && k.op == op && k.follower == f;
    EveryAckHolds(ids, steps, s, k, c, a);
    if k' :| k' in s.acks && k'.op == op && k'.follower == f && k'.epoch == s.followers[f].epoch {
      EveryAckHolds(ids, steps, s, k', c, a);
    }
  }

  lemma PrefixOfConcat(h: History, j: nat, n: nat)
    requires j <= n <= |h|
    ensures Concat(h[..j]) <= Concat(h[..n])
  {
    assert h[..n] == h[..j] + h[j..n];
    ConcatSplit(h[..j], h[j..n]);
  }
}
