/**
 The edges of replication: why the leader must admit what it dispatches, what a
 high-watermark fetch may show, and how a lagging follower catches up.
 */
module ReplicationLimits {
  import opened Wrappers
  import opened Bytes
  import opened RecordBatch
  import opened RecordBatchProofs
  import opened LogFormat
  import opened LogLayout
  import opened Fetch
  import opened FetchProofs
  import opened PartitionLog
  import opened Replication
  import opened ReplicationProofs

  // ---- Dispatch before admission -------------------------------------------

  /** A follower longer than the leader is not one of its prefixes. */
  lemma LongerIsUnsafe(log: History, leader: History)
    requires GoodHistory(leader) && EndOffset(log) > EndOffset(leader)
    ensures !PrefixSafe(log, leader)
  {
    assert leader[..|leader|] == leader;
    if PrefixSafe(log, leader) {
      var n: nat :| Covers(log, leader, n);
      CoversMeaning(log, leader, n);
      EndOffsetIncreases(leader, n, |leader|);
    }
  }

  /**
   Replication starts before the leader's own checks. When the message reaches a
   caught-up follower that admits it, the follower stays a prefix of the leader
   exactly when the leader admits the produce: its queue has room and acks is -1,
   0 or 1. The size test is the same on both sides.
   */
  lemma DispatchSafeIff(s: Cluster, records: seq<byte>, acks: int, depth: nat, f: int, c: Limits, a: Alignment)
    requires Safe(s) && f in s.followers && Covers(s.followers[f].log, s.leader, |s.leader|)
    requires GoodSet(records) && |records| <= c.maxFrameBytes && c.queueLimit > 0
    ensures var m := Dispatched(s.leader, records);
            var s1 := Next(s, Produce(records, acks, depth), c, a);
            && Enabled(s1, Deliver(f, m, 0))
            && var s2 := Next(s1, Deliver(f, m, 0), c, a);
               PrefixSafe(s2.followers[f].log, s2.leader) <==> depth < c.queueLimit && acks in {-1, 0, 1}
  {
    var m, log := Dispatched(s.leader, records), s.followers[f].log;
    var s1 := Next(s, Produce(records, acks, depth), c, a);
    CoversMeaning(log, s.leader, |s.leader|);
    assert s.leader[..|s.leader|] == s.leader;
    assert m in s1.messages;
    if AdmitProduce(c, depth, records, acks) == NoError {
      ProduceSafe(s, records, acks, depth, c, a);
      DeliverSafe(s1, f, m, 0, c, a);
    } else {
      assert Front(log + [records]) == log;
      LongerIsUnsafe(log + [records], s.leader);
    }
  }

  // ---- High watermark ------------------------------------------------------

  /** What the leader may check before it completes a produce: nothing was appended after it. */
  predicate CompletesLast(s: Cluster, t: Step) {
    t.Complete? ==> t.op == |s.leader| - 1
  }

  /** Completions only of the last entry, and no follower loses data. */
  ghost predicate IsLastRun(s: Cluster, steps: seq<Step>, s': Cluster, c: Limits, a: Alignment)
    decreases |steps|
  {
    if steps == [] then s' == s
    else Enabled(s, steps[0]) && GoodStep(steps[0], c) && CompletesLast(s, steps[0]) && !steps[0].Crash?
         && IsLastRun(Next(s, steps[0], c, a), steps[1..], s', c, a)
  }

  /** The high watermark is within every follower's log. */
  ghost predicate Within(s: Cluster) {
    forall f :: f in s.followers ==> s.leaderHighWatermark <= EndOffset(s.followers[f].log)
  }

  /** Every acknowledgement is from a follower's present incarnation. */
  ghost predicate NoLoss(s: Cluster) {
    forall k :: k in s.acks ==> k.follower in s.followers && k.epoch == s.followers[k.follower].epoch
  }

  ghost predicate Shown(s: Cluster) {
    Safe(s) && Within(s) && NoLoss(s) && s.leaderHighWatermark <= EndOffset(s.leader)
  }

  lemma EndOffsetSnoc(h: History, r: seq<byte>)
    ensures EndOffset(h + [r]) == EndOffset(h) + RecordCount(r)
  {
    assert Front(h + [r]) == h && Last(h + [r]) == r;
  }

  /** When the last produce can complete, every follower is at the leader's log end. */
  lemma LastCompletes(s: Cluster, op: nat, f: int)
    requires Safe(s) && NoLoss(s) && Enabled(s, Complete(op)) && op == |s.leader| - 1 && f in s.followers
    ensures EndOffset(s.followers[f].log) == EndOffset(s.leader)
  {
    hide Covers, EndOffset, Concat, GoodHistory;
    var k :| k in s.acks && k.op == op && k.follower == f;
    assert AckHolds(k, s);
    var n: nat :| op < n && Covers(s.followers[f].log, s.leader, n);
    CoversMeaning(s.followers[f].log, s.leader, n);
    assert s.leader[..n] == s.leader;
  }

  lemma LastShown(s: Cluster, t: Step, c: Limits, a: Alignment)
    requires Shown(s) && Enabled(s, t) && GoodStep(t, c) && CompletesLast(s, t) && !t.Crash?
    ensures Shown(Next(s, t, c, a))
  {
    StepSafe(s, t, c, a);
    if t.Complete? {
      CompleteWithin(s, t.op, c, a);
    } else {
      OtherWithin(s, t, c, a);
    }
  }

  lemma CompleteWithin(s: Cluster, op: nat, c: Limits, a: Alignment)
    requires Safe(s) && NoLoss(s) && Enabled(s, Complete(op)) && op == |s.leader| - 1
    ensures var s' := Next(s, Complete(op), c, a);
            Within(s') && NoLoss(s') && s'.leaderHighWatermark <= EndOffset(s'.leader)
  {
    hide EndOffset, Safe;
    forall f | f in s.followers ensures EndOffset(s.followers[f].log) == EndOffset(s.leader) {
      LastCompletes(s, op, f);
    }
  }

  lemma OtherWithin(s: Cluster, t: Step, c: Limits, a: Alignment)
    requires Within(s) && NoLoss(s) && s.leaderHighWatermark <= EndOffset(s.leader)
    requires Enabled(s, t) && !t.Crash? && !t.Complete?
    ensures var s' := Next(s, t, c, a);
            Within(s') && NoLoss(s') && s'.leaderHighWatermark <= EndOffset(s'.leader)
  {
    hide EndOffset, RecordCount, ServedRecords;
    match t
    case Produce(records, acks, depth) => EndOffsetSnoc(s.leader, records);
    case Deliver(f, m, depth) => EndOffsetSnoc(s.followers[f].log, m.records);
    case AskFetch(f) =>
    case ServeFetch(offset) =>
    case Fail(op) =>
  }

  lemma {:induction false} LastRunShown(s: Cluster, steps: seq<Step>, s': Cluster, c: Limits, a: Alignment)
    requires Shown(s) && IsLastRun(s, steps, s', c, a)
    ensures Shown(s')
    decreases |steps|
  {
    hide Shown, Enabled, Next, GoodStep, CompletesLast;
    if steps != [] {
      LastShown(s, steps[0], c, a);
      LastRunShown(Next(s, steps[0], c, a), steps[1..], s', c, a);
    }
  }

  /** Why a fetch that collected entries b to e takes no more: the end, the visible end, or the limit. */
  ghost predicate Exhausted(h: History, b: nat, e: nat, q: Query)
    requires b <= e <= |h|
  {
    || e == |h|
    || EndOffset(h[..e + 1]) > q.visibleEnd
    || (b < e && (|Concat(h[b..e])| >= q.limit || |Concat(h[b..e])| + |h[e]| > q.limit))
  }

  /** What a fetch may have collected: visible entries, and more than one only within the limit. */
  ghost predicate Allowed(h: History, b: nat, e: nat, q: Query)
    requires b <= e <= |h|
  {
    && (b < e ==> EndOffset(h[..e]) <= q.visibleEnd)
    && (b + 1 < e ==> |Concat(h[b..e])| <= q.limit)
  }

  lemma {:induction false} FetchTakes(h: History, b: nat, k: nat, q: Query) returns (e: nat)
    requires GoodHistory(h) && b <= k <= |h| && Allowed(h, b, k, q) && (b < |h| ==> q.offset < EndOffset(h[..b + 1]))
    ensures k <= e <= |h| && Allowed(h, b, e, q) && Exhausted(h, b, e, q)
    ensures FramesFetch(FramesOf(h), k, q, Concat(h[b..k])) == Concat(h[b..e])
    decreases |h| - k
  {
    hide RecordCount, EndOffset;
    e := k;
    if k < |h| {
      var got, next := Concat(h[b..k]), Concat(h[b..k + 1]);
      EntryEnd(h, k);
      EndOffsetIncreases(h, b + 1, k + 1);
      NextConcat(h, b, k);
      SpanCounts(h, b, k);
      assert h[k..k] == [] && (k == b ==> got == Concat([]));
      EmptyConcat();
      hide Concat, GoodHistory, FramesOf;
      if EndOffset(h[..k + 1]) <= q.visibleEnd && (k == b || |next| <= q.limit) {
        e := k + 1;
        if |next| < q.limit {
          e := FetchTakes(h, b, k + 1, q);
        }
      }
    }
  }

  lemma {:induction false} FetchSkips(h: History, i: nat, b: nat, q: Query)
    requires GoodHistory(h) && i <= b <= |h| && (0 < b ==> EndOffset(h[..b]) <= q.offset)
    ensures FramesFetch(FramesOf(h), i, q, []) == FramesFetch(FramesOf(h), b, q, [])
    decreases b - i
  {
    hide RecordCount, EndOffset;
    if i < b {
      EntryEnd(h, i);
      EndOffsetIncreases(h, i + 1, b);
      FetchSkips(h, i + 1, b, q);
    }
  }

  lemma {:induction false} FirstAfter(h: History, n: nat, offset: int) returns (b: nat)
    requires n <= |h|
    ensures b <= n && (0 < b ==> EndOffset(h[..b]) <= offset)
    ensures b == n || offset < EndOffset(h[..b + 1])
    decreases n
  {
    hide EndOffset;
    if n == 0 || EndOffset(h[..n]) <= offset {
      b := n;
    } else {
      b := FirstAfter(h, n - 1, offset);
    }
  }

  /**
   What a fetch returns, exactly. It begins with the first entry that reaches past
   the offset, takes whole entries that end within the visible end, the first
   whatever its size and more within the limit, and stops only where it must.
   */
  lemma FetchExact(h: History, q: Query) returns (b: nat, e: nat)
    requires GoodHistory(h)
    ensures b <= e <= |h| && FramesFetch(FramesOf(h), 0, q, []) == Concat(h[b..e])
    ensures 0 < b ==> EndOffset(h[..b]) <= q.offset
    ensures b < |h| ==> q.offset < EndOffset(h[..b + 1])
    ensures Allowed(h, b, e, q) && Exhausted(h, b, e, q)
  {
    hide EndOffset, FramesFetch, FramesOf, GoodHistory;
    b := FirstAfter(h, |h|, q.offset);
    FetchSkips(h, 0, b, q);
    EmptyConcat();
    assert h[b..b] == [];
    e := FetchTakes(h, b, b, q);
  }

  lemma EntryEnd(h: History, i: nat)
    requires GoodHistory(h) && i < |h|
    ensures FramesOf(h)[i] == Frame(EndOffset(h[..i]), h[i])
    ensures EndOffset(h[..i + 1]) == EndOffset(h[..i]) + RecordCount(h[i]) > EndOffset(h[..i])
    ensures h[i] != []
  {
    HistoryFrame(h, i);
    assert Front(h[..i + 1]) == h[..i] && Last(h[..i + 1]) == h[i] && h[i] in h;
  }

  /**
   High-watermark visibility. If a produce completes only while nothing was
   appended after it and followers lose nothing, then in every run from a fresh
   start, with produces overlapping as they may and including after failed
   replications, whatever a fetch limited to the high watermark returns is a
   stretch of leader record sets that every follower holds.
   */
  lemma HighWatermarkVisibility(ids: set<int>, steps: seq<Step>, s: Cluster, q: Query, f: int, c: Limits, a: Alignment)
    requires IsLastRun(Fresh(ids), steps, s, c, a)
    requires f in s.followers && q.visibleEnd == s.leaderHighWatermark
    ensures exists b: nat, e: nat :: b <= e <= |s.leader|
              && FramesFetch(FramesOf(s.leader), 0, q, []) == Concat(s.leader[b..e])
              && Concat(s.leader[..e]) <= Concat(s.followers[f].log)
  {
    FreshShown(ids);
    LastRunShown(Fresh(ids), steps, s, c, a);
    hide Covers, EndOffset, Concat, IsLastRun, FramesFetch, FramesOf;
    var h, log := s.leader, s.followers[f].log;
    assert h[0..0] == [];
    var b, e := FetchExact(h, q);
    if b == e {
      assert h[b..e] == h[0..0];
      b, e := 0, 0;
    }
    var n: nat :| Covers(log, h, n);
    CoversMeaning(log, h, n);
    if n < e {
      EndOffsetIncreases(h, n, e);
      NoEnd();
    }
    PrefixOfConcat(h, e, n);
  }

  // ---- Produces that never overlap ------------------------------------------

  /** No produce while another is still replicating, and no follower loses data. */
  ghost predicate IsQuietRun(s: Cluster, steps: seq<Step>, s': Cluster, c: Limits, a: Alignment)
    decreases |steps|
  {
    if steps == [] then s' == s
    else Enabled(s, steps[0]) && GoodStep(steps[0], c) && !steps[0].Crash?
         && (steps[0].Produce? ==> s.outstanding == {})
         && IsQuietRun(Next(s, steps[0], c, a), steps[1..], s', c, a)
  }

  /** Without overlap a produce that completes is always the last one. */
  lemma {:induction false} QuietIsLast(s: Cluster, steps: seq<Step>, s': Cluster, c: Limits, a: Alignment)
    requires IsQuietRun(s, steps, s', c, a)
    requires forall op :: op in s.outstanding ==> op == |s.leader| - 1
    ensures IsLastRun(s, steps, s', c, a)
    decreases |steps|
  {
    hide EndOffset, RecordCount, ServedRecords, WellFormed;
    if steps != [] {
      QuietIsLast(Next(s, steps[0], c, a), steps[1..], s', c, a);
    }
  }

  /** The code as it is, without the guard: visibility holds as long as produces never overlap. */
  lemma QuietVisibility(ids: set<int>, steps: seq<Step>, s: Cluster, q: Query, f: int, c: Limits, a: Alignment)
    requires IsQuietRun(Fresh(ids), steps, s, c, a)
    requires f in s.followers && q.visibleEnd == s.leaderHighWatermark
    ensures exists b: nat, e: nat :: b <= e <= |s.leader|
              && FramesFetch(FramesOf(s.leader), 0, q, []) == Concat(s.leader[b..e])
              && Concat(s.leader[..e]) <= Concat(s.followers[f].log)
  {
    hide FramesFetch, FramesOf, Concat, IsQuietRun, IsLastRun;
    QuietIsLast(Fresh(ids), steps, s, c, a);
    HighWatermarkVisibility(ids, steps, s, q, f, c, a);
  }

  // ---- The guard is exact -----------------------------------------------------

  lemma EmptyConcat()
    ensures Concat([]) == []
  {
  }

  lemma NoEnd()
    ensures EndOffset([]) == 0
  {
  }

  lemma FreshShown(ids: set<int>)
    ensures Shown(Fresh(ids))
  {
    FreshSafe(ids);
  }

  lemma {:induction false} RunSnoc(s: Cluster, steps: seq<Step>, s1: Cluster, t: Step, c: Limits, a: Alignment)
    requires IsRun(s, steps, s1, c, a) && Enabled(s1, t) && GoodStep(t, c)
    ensures IsRun(s, steps + [t], Next(s1, t, c, a), c, a)
    decreases |steps|
  {
    hide Enabled, Next, GoodStep;
    if steps == [] {
      assert ([t])[1..] == [] && steps + [t] == [t];
      assert IsRun(Next(s1, t, c, a), [], Next(s1, t, c, a), c, a);
    } else {
      RunSnoc(Next(s, steps[0], c, a), steps[1..], s1, t, c, a);
      assert (steps + [t])[1..] == steps[1..] + [t];
    }
  }

  /** A history every set of which the leader and its followers admit. */
  predicate Admissible(h: History, c: Limits) {
    GoodHistory(h) && c.queueLimit > 0 && forall r :: r in h ==> |r| <= c.maxFrameBytes
  }

  /** The message dispatched for entry i of a history. */
  function MessageAt(h: History, i: nat): Message
    requires i < |h|
  {
    Dispatched(h[..i], h[i])
  }

  /** All of h was produced and the first n sets delivered to the only follower; nothing is complete. */
  ghost predicate Ahead(s: Cluster, h: History, f: int, n: nat) {
    && n <= |h| && s.leader == h && s.leaderHighWatermark == 0
    && s.followers.Keys == {f} && s.followers[f].log == h[..n] && s.followers[f].epoch == 0
    && (forall i :: 0 <= i < |h| ==> MessageAt(h, i) in s.messages && i in s.outstanding)
    && (forall i :: 0 <= i < n ==> Ack(i, f, 0) in s.acks)
  }

  lemma {:induction false} ProduceAll(h: History, f: int, c: Limits, a: Alignment)
    returns (steps: seq<Step>, s: Cluster)
    requires Admissible(h, c)
    ensures IsRun(Fresh({f}), steps, s, c, a) && Ahead(s, h, f, 0)
    decreases |h|
  {
    hide RecordCount, WellFormed, EndOffset, IsRun;
    if h == [] {
      steps, s := [], Fresh({f});
      RunNothing(s, c, a);
    } else {
      var front, r := Front(h), Last(h);
      assert r in h && forall x :: x in front ==> x in h;
      steps, s := ProduceAll(front, f, c, a);
      var t := Produce(r, -1, 0);
      hide Ahead, Enabled, Next;
      AheadProduces(s, h, f, c, a);
      RunSnoc(Fresh({f}), steps, s, t, c, a);
      steps, s := steps + [t], Next(s, t, c, a);
    }
  }

  lemma AheadProduces(s: Cluster, h: History, f: int, c: Limits, a: Alignment)
    requires h != [] && Admissible(h, c) && Ahead(s, Front(h), f, 0)
    ensures Enabled(s, Produce(Last(h), -1, 0)) && GoodStep(Produce(Last(h), -1, 0), c)
    ensures Ahead(Next(s, Produce(Last(h), -1, 0), c, a), h, f, 0)
  {
    var front, r := Front(h), Last(h);
    assert r in h;
    hide RecordCount, WellFormed, EndOffset, Admissible, GoodHistory, MessageAt;
    var s' := Next(s, Produce(r, -1, 0), c, a);
    FrontLast(h);
    assert h[..0] == [] && front[..0] == [];
    MessageOfLast(h);
    forall i | 0 <= i < |front| ensures MessageAt(h, i) in s'.messages {
      MessageOfFront(h, i);
    }
  }

  lemma MessageOfLast(h: History)
    requires h != []
    ensures MessageAt(h, |h| - 1) == Dispatched(Front(h), Last(h))
  {
  }

  lemma MessageOfFront(h: History, i: nat)
    requires i < |h| - 1
    ensures MessageAt(h, i) == MessageAt(Front(h), i)
  {
    assert h[..i] == Front(h)[..i];
  }

  lemma RunNothing(s: Cluster, c: Limits, a: Alignment)
    ensures IsRun(s, [], s, c, a)
  {
  }

  lemma {:induction false} DeliverFirst(h: History, f: int, n: nat, c: Limits, a: Alignment)
    returns (steps: seq<Step>, s: Cluster)
    requires Admissible(h, c) && n <= |h|
    ensures IsRun(Fresh({f}), steps, s, c, a) && Ahead(s, h, f, n)
    decreases n
  {
    hide RecordCount, WellFormed, EndOffset, IsRun;
    if n == 0 {
      steps, s := ProduceAll(h, f, c, a);
    } else {
      steps, s := DeliverFirst(h, f, n - 1, c, a);
      var m := MessageAt(h, n - 1);
      var t := Deliver(f, m, 0);
      assert h[n - 1] in h;
      RunSnoc(Fresh({f}), steps, s, t, c, a);
      assert h[..n - 1] + [h[n - 1]] == h[..n];
      steps, s := steps + [t], Next(s, t, c, a);
    }
  }

  /**
   A run reaches the history with the watermark within the follower, entry op
   ready to complete, and its completion overshooting, whenever op is not last.
   */
  lemma EarlyCompletionOvershoots(h: History, op: nat, f: int, c: Limits, a: Alignment)
    returns (steps: seq<Step>, s: Cluster)
    requires Admissible(h, c) && op + 1 < |h|
    ensures IsRun(Fresh({f}), steps, s, c, a) && s.leader == h && NoLoss(s)
    ensures Enabled(s, Complete(op)) && Within(s) && !Within(Next(s, Complete(op), c, a))
  {
    hide RecordCount, WellFormed, EndOffset, IsRun;
    steps, s := DeliverFirst(h, f, op + 1, c, a);
    assert Ack(op, f, 0) in s.acks;
    FirstIncarnations({f}, steps, s, c, a);
    EndOffsetIncreases(h, op + 1, |h|);
    assert h[..|h|] == h;
    NonNegativeEnd(s.followers[f].log);
    assert f in s.followers && s.leaderHighWatermark == 0;
    var s' := Next(s, Complete(op), c, a);
    assert s'.followers == s.followers && s'.leaderHighWatermark == EndOffset(h);
    assert f in s'.followers && s'.leaderHighWatermark > EndOffset(s'.followers[f].log);
  }

  lemma NonNegativeEnd(h: History)
    ensures 0 <= EndOffset(h)
  {
  }

  /** A follower in its first incarnation has only acknowledgements of that incarnation. */
  lemma FirstIncarnations(ids: set<int>, steps: seq<Step>, s: Cluster, c: Limits, a: Alignment)
    requires IsRun(Fresh(ids), steps, s, c, a) && forall g :: g in s.followers ==> s.followers[g].epoch == 0
    ensures NoLoss(s)
  {
    FreshSafe(ids);
    RunSafe(Fresh(ids), steps, s, c, a);
  }

  /** In every run that reaches history h with no follower lost, completing op keeps the watermark within. */
  ghost predicate SafeToComplete(h: History, op: nat, c: Limits, a: Alignment) {
    forall ids, steps, s ::
      IsRun(Fresh(ids), steps, s, c, a) && s.leader == h && NoLoss(s) && Enabled(s, Complete(op)) && Within(s)
      ==> Within(Next(s, Complete(op), c, a))
  }

  /**
   The exact guard. The code moves the watermark to the log end whenever a
   produce completes. Over all runs that is safe for entry op of history h if and
   only if op is its last entry, which the leader can see.
   */
  lemma CompletionGuardIff(h: History, op: nat, c: Limits, a: Alignment)
    requires Admissible(h, c) && op < |h|
    ensures SafeToComplete(h, op, c, a) <==> op == |h| - 1
  {
    if op == |h| - 1 {
      forall ids, steps, s |
        IsRun(Fresh(ids), steps, s, c, a) && s.leader == h && NoLoss(s) && Enabled(s, Complete(op)) && Within(s)
        ensures Within(Next(s, Complete(op), c, a))
      {
        LastIsWithin(ids, steps, s, op, c, a);
      }
    } else {
      var steps, s := EarlyCompletionOvershoots(h, op, 0, c, a);
    }
  }

  lemma LastIsWithin(ids: set<int>, steps: seq<Step>, s: Cluster, op: nat, c: Limits, a: Alignment)
    requires IsRun(Fresh(ids), steps, s, c, a) && NoLoss(s)
    requires Enabled(s, Complete(op)) && op == |s.leader| - 1
    ensures Within(Next(s, Complete(op), c, a))
  {
    FreshSafe(ids);
    RunSafe(Fresh(ids), steps, s, c, a);
    hide EndOffset, Covers, Safe, IsRun;
    forall f | f in s.followers ensures EndOffset(s.followers[f].log) == EndOffset(s.leader) {
      LastCompletes(s, op, f);
    }
  }

  // ---- Catch-up ------------------------------------------------------------

  /** One catch-up round against an idle leader: fetch at the own log end, append what came back. */
  function CatchUpRound(leader: History, log: History, c: Limits, depth: nat, a: Alignment): History {
    var end := EndOffset(log);
    var records := ServedRecords(leader, end, CATCHUP_MAX_BYTES, a);
    if end > EndOffset(leader) || records == [] || AdmitReplica(c, depth, end, end, records) != NoError then log
    else log + [records]
  }

  function CatchUp(leader: History, log: History, rounds: nat, c: Limits, depth: nat, a: Alignment): History
    decreases rounds
  {
    if rounds == 0 then log else CatchUp(leader, CatchUpRound(leader, log, c, depth, a), rounds - 1, c, depth, a)
  }

  /** The follower has a free queue slot and room for anything a round may return. */
  predicate RoomFor(leader: History, c: Limits, depth: nat) {
    c.maxFrameBytes >= CATCHUP_MAX_BYTES && depth < c.queueLimit && forall r :: r in leader ==> |r| <= c.maxFrameBytes
  }

  /** Every round of a lagging follower gains at least one leader entry. */
  lemma RoundProgress(leader: History, log: History, n: nat, c: Limits, depth: nat, a: Alignment) returns (n': nat)
    requires GoodHistory(leader) && RoomFor(leader, c, depth)
    requires Covers(log, leader, n) && n < |leader|
    ensures n < n' <= |leader|
    ensures Covers(CatchUpRound(leader, log, c, depth, a), leader, n')
    ensures EndOffset(log) < EndOffset(CatchUpRound(leader, log, c, depth, a)) <= EndOffset(leader)
  {
    hide Covers, EndOffset, ServedRecords;
    CoversMeaning(log, leader, n);
    n' := ServeAtBoundary(leader, n, CATCHUP_MAX_BYTES, a);
    var records := Concat(leader[n..n']);
    SpanCounts(leader, n, n');
    assert |records| <= c.maxFrameBytes by {
      if n' == n + 1 {
        assert leader[n..n'] == [leader[n]] && leader[n] in leader;
        NextConcat(leader, n, n);
        assert leader[n..n] == [] && records == [] + leader[n];
      }
    }
    CoversExtend(log, leader, n, n');
    CoversMeaning(log + [records], leader, n');
    EndOffsetIncreases(leader, n, n');
    EndOffsetIncreases(leader, n', |leader|);
    assert leader[..|leader|] == leader;
  }

  /**
   Catch-up converges. From any prefix-safe follower that lags by d entries, at
   most d rounds make its log the leader's, byte for byte and offset for offset.
   */
  lemma {:induction false} CatchUpConverges(leader: History, log: History, n: nat, rounds: nat, c: Limits,
                                            depth: nat, a: Alignment)
    requires GoodHistory(leader) && RoomFor(leader, c, depth)
    requires Covers(log, leader, n) && |leader| - n <= rounds
    ensures Concat(CatchUp(leader, log, rounds, c, depth, a)) == Concat(leader)
    ensures EndOffset(CatchUp(leader, log, rounds, c, depth, a)) == EndOffset(leader)
    decreases rounds
  {
    hide Covers, EndOffset, Concat, CatchUpRound;
    CoversMeaning(log, leader, n);
    if n == |leader| {
      assert leader[..n] == leader;
      CaughtUpStays(leader, log, rounds, c, depth, a);
    } else {
      var n' := RoundProgress(leader, log, n, c, depth, a);
      CatchUpConverges(leader, CatchUpRound(leader, log, c, depth, a), n', rounds - 1, c, depth, a);
    }
  }

  lemma {:induction false} CaughtUpStays(leader: History, log: History, rounds: nat, c: Limits, depth: nat,
                                         a: Alignment)
    requires GoodHistory(leader) && EndOffset(log) == EndOffset(leader)
    ensures CatchUp(leader, log, rounds, c, depth, a) == log
  {
    if rounds > 0 {
      assert leader[..|leader|] == leader && leader[|leader|..|leader|] == [];
      var e := ServeAtBoundary(leader, |leader|, CATCHUP_MAX_BYTES, a);
      CaughtUpStays(leader, log, rounds - 1, c, depth, a);
    }
  }

  // ---- Catch-up as steps of the protocol ----------------------------------------

  /** The three steps of a round: ask at the own log end, serve that offset, deliver what was served. */
  function RoundSteps(s: Cluster, f: int, depth: nat, a: Alignment): seq<Step>
    requires f in s.followers
  {
    var end := EndOffset(s.followers[f].log);
    var records := ServedRecords(s.leader, end, CATCHUP_MAX_BYTES, a);
    [AskFetch(f), ServeFetch(end), Deliver(f, Message(end, s.leaderHighWatermark, records, None), depth)]
  }

  /**
   A round of the protocol is a catch-up round. Asked, served and delivered in
   turn, a follower behind its leader has the log CatchUpRound gives it; leader and
   other followers stay.
   */
  lemma RoundIsSteps(s: Cluster, f: int, depth: nat, c: Limits, a: Alignment) returns (s': Cluster)
    requires Safe(s) && f in s.followers && EndOffset(s.followers[f].log) < EndOffset(s.leader)
    ensures IsRun(s, RoundSteps(s, f, depth, a), s', c, a)
    ensures s'.leader == s.leader && s'.leaderHighWatermark == s.leaderHighWatermark
    ensures f in s'.followers && s'.followers == s.followers[f := s'.followers[f]]
    ensures s'.followers[f].log == CatchUpRound(s.leader, s.followers[f].log, c, depth, a)
  {
    hide EndOffset, ServedRecords, Covers, WellFormed, RecordCount;
    var log := s.followers[f].log;
    var end := EndOffset(log);
    var records := ServedRecords(s.leader, end, CATCHUP_MAX_BYTES, a);
    var m := Message(end, s.leaderHighWatermark, records, None);
    BehindIsServed(s, f, a);
    var s1 := Next(s, AskFetch(f), c, a);
    assert end in s1.asked && s1.leader == s.leader;
    var s2 := Next(s1, ServeFetch(end), c, a);
    assert m in s2.messages && s2.followers == s.followers;
    s' := Next(s2, Deliver(f, m, depth), c, a);
    assert s'.followers[f].log == CatchUpRound(s.leader, log, c, depth, a);
    ThreeSteps(s, AskFetch(f), ServeFetch(end), Deliver(f, m, depth), c, a);
  }

  lemma ThreeSteps(s: Cluster, t1: Step, t2: Step, t3: Step, c: Limits, a: Alignment)
    requires Enabled(s, t1) && GoodStep(t1, c)
    requires var s1 := Next(s, t1, c, a); Enabled(s1, t2) && GoodStep(t2, c)
    requires var s2 := Next(Next(s, t1, c, a), t2, c, a); Enabled(s2, t3) && GoodStep(t3, c)
    ensures IsRun(s, [t1, t2, t3], Next(Next(Next(s, t1, c, a), t2, c, a), t3, c, a), c, a)
  {
    hide Enabled, Next, GoodStep, IsRun;
    RunNothing(s, c, a);
    RunSnoc(s, [], s, t1, c, a);
    RunSnoc(s, [] + [t1], Next(s, t1, c, a), t2, c, a);
    RunSnoc(s, ([] + [t1]) + [t2], Next(Next(s, t1, c, a), t2, c, a), t3, c, a);
    assert (([] + [t1]) + [t2]) + [t3] == [t1, t2, t3];
  }

  /** A safe follower behind its leader is served something. */
  lemma BehindIsServed(s: Cluster, f: int, a: Alignment)
    requires Safe(s) && f in s.followers && EndOffset(s.followers[f].log) < EndOffset(s.leader)
    ensures ServedRecords(s.leader, EndOffset(s.followers[f].log), CATCHUP_MAX_BYTES, a) != []
  {
    hide EndOffset, ServedRecords, Covers;
    var n: nat :| Covers(s.followers[f].log, s.leader, n);
    CoversMeaning(s.followers[f].log, s.leader, n);
    assert s.leader[..|s.leader|] == s.leader;
    var e := ServeAtBoundary(s.leader, n, CATCHUP_MAX_BYTES, a);
    SpanCounts(s.leader, n, e);
  }

  lemma {:induction false} RunTwice(s: Cluster, xs: seq<Step>, s1: Cluster, ys: seq<Step>, s2: Cluster,
                                    c: Limits, a: Alignment)
    requires IsRun(s, xs, s1, c, a) && IsRun(s1, ys, s2, c, a)
    ensures IsRun(s, xs + ys, s2, c, a)
    decreases |xs|
  {
    hide Enabled, Next, GoodStep;
    if xs == [] {
      assert xs + ys == ys;
    } else {
      RunTwice(Next(s, xs[0], c, a), xs[1..], s1, ys, s2, c, a);
      assert (xs + ys)[1..] == xs[1..] + ys;
    }
  }

  /**
   Catch-up converges in the protocol itself. From every safe state with room on
   the follower a run of fetch rounds, in which the leader stands still, ends with
   the follower holding the leader's log byte for byte.
   */
  lemma {:induction false} CatchUpRun(s: Cluster, f: int, n: nat, depth: nat, c: Limits, a: Alignment)
    returns (steps: seq<Step>, s': Cluster)
    requires Safe(s) && f in s.followers && RoomFor(s.leader, c, depth) && Covers(s.followers[f].log, s.leader, n)
    ensures IsRun(s, steps, s', c, a) && s'.leader == s.leader && f in s'.followers
    ensures Concat(s'.followers[f].log) == Concat(s.leader)
    ensures EndOffset(s'.followers[f].log) == EndOffset(s.leader)
    decreases |s.leader| - n
  {
    hide Safe, Covers, EndOffset, Concat, IsRun, RoundSteps, CatchUpRound, GoodHistory;
    SafeHistory(s);
    CoversMeaning(s.followers[f].log, s.leader, n);
    assert s.leader[..|s.leader|] == s.leader;
    if n == |s.leader| {
      steps, s' := [], s;
      RunNothing(s, c, a);
    } else {
      EndOffsetIncreases(s.leader, n, |s.leader|);
      var n' := RoundProgress(s.leader, s.followers[f].log, n, c, depth, a);
      var s1 := RoundIsSteps(s, f, depth, c, a);
      RunSafe(s, RoundSteps(s, f, depth, a), s1, c, a);
      var more, s2 := CatchUpRun(s1, f, n', depth, c, a);
      RunTwice(s, RoundSteps(s, f, depth, a), s1, more, s2, c, a);
      steps, s' := RoundSteps(s, f, depth, a) + more, s2;
    }
  }

  lemma SafeHistory(s: Cluster)
    requires Safe(s)
    ensures GoodHistory(s.leader)
  {
  }
}
