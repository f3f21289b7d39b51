/**
 The broker's use of its partition logs: producing on the leader, finishing its
 replication, and one catch-up round of a follower. Each is one step of the
 replication protocol, on logs that may have been through crashes.
 */
module Broker {
  import opened Wrappers
  import opened Bytes
  import opened RecordBatch
  import opened RecordBatchProofs
  import opened LogFormat
  import opened LogLayout
  import opened Recovery
  import opened Fetch
  import opened FetchProofs
  import opened PartitionLog
  import opened StaleTail
  import opened CrashRuns
  import opened Replication
  import opened ReplicationLimits

  /** The batches of set i carry the offsets it has in the log, and their right checksums. */
  predicate StampedAt(h: seq<seq<byte>>, i: nat)
    requires i < |h|
  {
    BasesRun(h[i], EndOffset(h[..i]), EndOffset(h[..i + 1])) && CrcsMatch(h[i])
  }

  ghost predicate StampedHistory(h: seq<seq<byte>>) {
    forall i :: 0 <= i < |h| ==> StampedAt(h, i)
  }

  lemma StampedBefore(h: seq<seq<byte>>, r: seq<byte>, i: nat)
    requires i < |h| && StampedAt(h, i)
    ensures StampedAt(h + [r], i)
  {
    hide BasesRun, CrcsMatch, EndOffset;
    assert (h + [r])[..i] == h[..i] && (h + [r])[..i + 1] == h[..i + 1];
  }

  lemma StampedLast(h: seq<seq<byte>>, r: seq<byte>)
    requires BasesRun(r, EndOffset(h), EndOffset(h) + RecordCount(r)) && CrcsMatch(r)
    ensures StampedAt(h + [r], |h|)
  {
    hide BasesRun, CrcsMatch, EndOffset, RecordCount;
    var more := h + [r];
    EndOffsetSnoc(h, r);
    assert more[..|h|] == h && more[..|h| + 1] == more;
  }

  lemma StampedMore(h: seq<seq<byte>>, r: seq<byte>)
    requires StampedHistory(h) && BasesRun(r, EndOffset(h), EndOffset(h) + RecordCount(r)) && CrcsMatch(r)
    ensures StampedHistory(h + [r])
  {
    hide BasesRun, CrcsMatch, EndOffset, RecordCount, StampedAt;
    StampedLast(h, r);
    forall i | 0 <= i < |h| ensures StampedAt(h + [r], i) {
      StampedBefore(h, r, i);
    }
  }

  /** A stamped set appended at the log end. */
  lemma StampedAppend(h: seq<seq<byte>>, records: seq<byte>)
    requires WellFormed(records) && CrcInBounds(records)
    requires EndOffset(h) + RecordCount(records) < 0x8000_0000_0000_0000
    ensures StampedHistory(h) ==> StampedHistory(h + [Rewrite(records, EndOffset(h))])
  {
    hide Rewrite, BasesRun, CrcsMatch, RecordCount, StampedHistory;
    RewriteStamps(records, EndOffset(h));
    RewriteKeepsCount(records, EndOffset(h));
    if StampedHistory(h) {
      StampedMore(h, Rewrite(records, EndOffset(h)));
    }
  }

  lemma StandsAt(log: Log, h: seq<seq<byte>>, g: Geometry)
    requires Stands(log, h, g)
    ensures log.mem.latest == EndOffset(h) && |log.mem.entries| == |h|
  {
    LatestIs(h, g);
    OneEntryEach(h, g);
  }

  lemma {:induction false} OneEntryEach(h: seq<seq<byte>>, g: Geometry)
    ensures |Run(h, g).mem.entries| == |h|
  {
    if h != [] {
      OneEntryEach(Front(h), g);
    }
  }

  lemma AppendedEnds(log: Log, records: seq<byte>, g: Geometry)
    ensures Appended(log, records, g).mem.latest == log.mem.latest + RecordCount(records)
  {
  }

  /**
   Leader produce: stamp the records, plan base and log end before any I/O,
   dispatch the plan to the followers, then append. The plan is what the append
   does, if it is admitted. No message means that stamping read outside its
   buffer; nothing is claimed of a broker that goes on from there.
   */
  method Produce(log: PartitionLogShard, records: array<byte>, acks: int, ghost history: seq<seq<byte>>)
    returns (dispatched: Option<Message>, r: ProduceResult)
    requires Stands(log.View(), history, log.g)
    modifies records, log
    ensures log.config == old(log.config)
    ensures dispatched.Some? <==> CrcInBounds(old(records[..]))
    ensures dispatched.Some? ==> dispatched.value == Dispatched(history, Rewrite(old(records[..]), EndOffset(history)))
    ensures dispatched.Some? ==>
              r.error == AdmitProduce(old(log.config), old(log.queueDepth), dispatched.value.records, acks)
    ensures dispatched.Some? && r.error == NoError ==>
              && log.View() == Appended(old(log.View()), dispatched.value.records, log.g)
              && r.baseOffset == dispatched.value.base && r.logEnd == dispatched.value.leaderHighWatermark
    ensures dispatched.Some? && r.error == NoError && old(records[..]) != []
            && Storable(history + [dispatched.value.records]) ==>
              Stands(log.View(), history + [dispatched.value.records], log.g)
    ensures dispatched.Some? && WellFormed(old(records[..])) && StampedHistory(history)
            && EndOffset(history) + RecordCount(old(records[..])) < 0x8000_0000_0000_0000 ==>
              StampedHistory(history + [dispatched.value.records])
    ensures dispatched.None? || r.error != NoError ==> log.View() == old(log.View())
  {
    hide Run, Rewrite, RecordCount, Appended, Stands, StampedHistory, WellFormed, CrcInBounds;
    StandsAt(log.View(), history, log.g);
    var inside := RewriteRecordBatchOffsets(records, log.latest);
    if !inside {
      return None, ProduceResult(InvalidRequest, 0, 0);
    }
    ghost var bytes := old(records[..]);
    var stamped := records[..];
    var plannedBase := log.latest;
    var plannedCount := EstimateRecordCount(stamped);
    dispatched := Some(Message(plannedBase, plannedBase + plannedCount, stamped, Some(|log.indexEntries|)));
    if WellFormed(bytes) && EndOffset(history) + RecordCount(bytes) < 0x8000_0000_0000_0000 {
      StampedAppend(history, bytes);
    }
    AppendedEnds(log.View(), stamped, log.g);
    r := log.Append(stamped, acks);
    if stamped != [] && Storable(history + [stamped]) {
      AppendStands(old(log.View()), history, stamped, log.g);
    }
  }

  /**
   The end of a produce's replication. Success moves the high watermark as the
   Complete step of the protocol does, failure leaves it, and only marks what is
   not replicated yet; the log itself, and so what any fetch returns, stays.
   */
  method FinishReplication(log: PartitionLogShard, op: nat, replicated: bool, ghost s: Cluster, ghost a: Alignment)
    requires op in s.outstanding && (replicated ==> AllAcked(s, op))
    requires s.leaderHighWatermark == log.highWatermark && EndOffset(s.leader) == log.latest
    modifies log
    ensures log.View() == old(log.View()) && log.config == old(log.config)
    ensures var t := if replicated then Complete(op) else Fail(op);
            && Enabled(s, t)
            && var s' := Next(s, t, log.config, a);
               && log.highWatermark == s'.leaderHighWatermark && s'.outstanding == s.outstanding - {op}
               && s'.acknowledged == s.acknowledged + if replicated then {op} else {}
    ensures log.degraded == !replicated && log.replicaLag == Max(0, log.latest - log.highWatermark)
    ensures replicated ==> log.replicaLag == 0
  {
    if replicated {
      log.MarkReplicatedThrough(log.latest);
    } else {
      log.MarkDegraded();
    }
  }

  /** A follower's answer to a produce's message is the protocol's Deliver step. */
  method ReceiveReplicaAppend(log: PartitionLogShard, m: Message, ghost s: Cluster, ghost f: int, ghost a: Alignment)
    returns (r: ProduceResult)
    requires f in s.followers && m in s.messages && m.op.Some? && m.records != []
    requires Stands(log.View(), s.followers[f].log, log.g) && log.highWatermark == s.followers[f].highWatermark
    modifies log
    ensures log.config == old(log.config)
    ensures var t := Deliver(f, m, old(log.queueDepth));
            && Enabled(s, t)
            && var s' := Next(s, t, log.config, a);
               && log.highWatermark == s'.followers[f].highWatermark
               && (r.error == NoError ==> Ack(m.op.value, f, s.followers[f].epoch) in s'.acks)
               && (r.error != NoError ==> s' == s && log.View() == old(log.View()))
               && (Storable(s'.followers[f].log) ==> Stands(log.View(), s'.followers[f].log, log.g))
  {
    hide Run, RecordCount, Appended, Stands;
    ghost var h := s.followers[f].log;
    StandsAt(log.View(), h, log.g);
    AppendedEnds(log.View(), m.records, log.g);
    EndOffsetSnoc(h, m.records);
    r := log.AppendReplica(m.base, m.leaderHighWatermark, m.records);
    if r.error == NoError && Storable(h + [m.records]) {
      AppendStands(old(log.View()), h, m.records, log.g);
    }
  }

  /** A crash and restart of a follower's log, if it finds nothing behind, is the protocol's Crash step. */
  lemma RestartIsCrash(s: Cluster, f: int, log: Log, keep: nat, index: seq<byte>, c: Limits, g: Geometry)
    returns (m: nat, s': Cluster)
    requires f in s.followers && Stands(log, s.followers[f].log, g) && Fair(log, Restart(keep, index), g)
    ensures Enabled(s, Crash(f, m)) && s' == Next(s, Crash(f, m), c, g.align) && f in s'.followers
    ensures keep >= log.mem.writePosition ==> m == |s.followers[f].log|
    ensures Stands(Live(log, Restart(keep, index), g), s'.followers[f].log, g)
    ensures s'.followers[f].highWatermark == Live(log, Restart(keep, index), g).mem.latest
    ensures s'.followers[f].epoch == s.followers[f].epoch + 1
  {
    hide Stands, NothingBehind, DecodeIndex, Restarted, Run, LayoutOf, Crashed, EndOffset;
    m := RestartIff(log, s.followers[f].log, keep, index, g);
    s' := Next(s, Crash(f, m), c, g.align);
    StandsAt(Live(log, Restart(keep, index), g), s.followers[f].log[..m], g);
  }

  /** One catch-up round of a follower against the leader's current log. */
  method CatchUpFollowerPartition(leader: PartitionLogShard, follower: PartitionLogShard,
                                  ghost hl: seq<seq<byte>>, ghost hf: seq<seq<byte>>)
    requires leader != follower
    requires Stands(leader.View(), hl, leader.g) && Stands(follower.View(), hf, follower.g)
    modifies follower
    ensures follower.config == old(follower.config)
    ensures var next := CatchUpRound(hl, hf, follower.config, old(follower.queueDepth), leader.g.align);
            && (next == hf ==> follower.View() == old(follower.View()))
            && (next != hf ==>
                  && next == hf + [Last(next)] && Last(next) != []
                  && follower.View() == Appended(old(follower.View()), Last(next), follower.g)
                  && follower.highWatermark == follower.latest)
            && (Storable(next) ==> Stands(follower.View(), next, follower.g))
  {
    hide Run, FramesFetch, RecordCount, Appended, Stands, ReadFrom, Readable;
    StandsAt(leader.View(), hl, leader.g);
    StandsAt(follower.View(), hf, follower.g);
    ReadStands(leader.View(), hl, leader.g, Query(follower.latest, leader.latest, CATCHUP_MAX_BYTES, leader.g.align));
    ReadableIndexed(leader.indexEntries, leader.files, leader.g.align);
    var localEnd := follower.latest;
    var answer := leader.FetchForReplica(localEnd, CATCHUP_MAX_BYTES);
    var result := answer.value;
    if result.error != NoError || result.records == [] {
      return;
    }
    ghost var next := hf + [result.records];
    assert Last(next) == result.records;
    var appended := follower.AppendReplica(localEnd, result.visibleEnd, result.records);
    if appended.error != NoError {
      return;
    }
    if follower.latest >= appended.logEnd {
      follower.MarkReplicatedThrough(follower.latest);
    }
    if Storable(next) {
      AppendStands(old(follower.View()), hf, result.records, follower.g);
    }
  }

  lemma ReadableIndexed(entries: seq<Entry>, files: map<int, seq<byte>>, a: Alignment)
    requires Readable(entries, files, a)
    ensures Indexed(entries, a)
  {
  }
}
