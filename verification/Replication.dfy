/**
 Replication of one partition as a state machine. The leader dispatches every
 produce to its followers before its own admission checks run; a follower
 accepts a record set only at its own log end; a lagging follower asks the
 leader for what follows its log end. Messages stay in a set once sent, so they
 may be lost, delayed, duplicated and reordered. The leader is fixed and does
 not crash; a follower crash keeps a prefix of its whole frames.
 */
module Replication {
  import opened Wrappers
  import opened Bytes
  import opened RecordBatch
  import opened RecordBatchProofs
  import opened LogFormat
  import opened LogLayout
  import opened Fetch
  import opened FetchProofs
  import opened PartitionLog

  type History = seq<seq<byte>>

  const CATCHUP_MAX_BYTES: nat := 1024 * 1024

  // ---- State ---------------------------------------------------------------

  /** `base` and `records` of a replica append; `op` names the produce it came from, if any. */
  datatype Message = Message(base: int, leaderHighWatermark: int, records: seq<byte>, op: Option<nat>)

  /** Follower f accepted the record set of produce `op` in its incarnation `epoch`. */
  datatype Ack = Ack(op: nat, follower: int, epoch: nat)

  datatype Follower = Follower(log: History, highWatermark: int, epoch: nat)

  datatype Cluster = Cluster(
    leader: History,
    leaderHighWatermark: int,
    followers: map<int, Follower>,
    asked: set<int>,
    messages: set<Message>,
    acks: set<Ack>,
    outstanding: set<nat>,
    acknowledged: set<nat>)

  datatype Step =
    | Produce(records: seq<byte>, acks: int, queueDepth: nat)
    | Deliver(follower: int, message: Message, queueDepth: nat)
    | AskFetch(follower: int)
    | ServeFetch(offset: int)
    | Crash(follower: int, keep: nat)
    | Complete(op: nat)
    | Fail(op: nat)

  /** What a produce sends to every follower, planned from the leader's log before any I/O. */
  function Dispatched(leader: History, records: seq<byte>): Message {
    var base := EndOffset(leader);
    Message(base, base + RecordCount(records), records, Some(|leader|))
  }

  /** Records the leader returns to a replica fetch at an offset. */
  function ServedRecords(leader: History, offset: int, limit: nat, a: Alignment): seq<byte> {
    FramesFetch(FramesOf(leader), 0, Query(offset, EndOffset(leader), limit, a), [])
  }

  /**
   A follower after an admitted replica append. A catch-up round, which is a
   message of no produce, also marks its own log end as replicated.
   */
  function Accept(f: Follower, m: Message): Follower {
    var log := f.log + [m.records];
    var end := EndOffset(log);
    Follower(log, if m.op.None? then end else Min(end, m.leaderHighWatermark), f.epoch)
  }

  predicate Enabled(s: Cluster, t: Step) {
    match t
    case Produce(_, _, _) => true
    case Deliver(f, m, _) => f in s.followers && m in s.messages
    case AskFetch(f) => f in s.followers
    case ServeFetch(offset) => offset in s.asked
    case Crash(f, keep) => f in s.followers && keep <= |s.followers[f].log|
    case Complete(op) => op in s.outstanding && AllAcked(s, op)
    case Fail(op) => op in s.outstanding
  }

  /** Every ISR follower has answered produce `op` with success. */
  predicate AllAcked(s: Cluster, op: nat) {
    forall f :: f in s.followers ==> exists a :: a in s.acks && a.op == op && a.follower == f
  }

  function Next(s: Cluster, t: Step, c: Limits, a: Alignment): Cluster
    requires Enabled(s, t)
  {
    match t
    case Produce(records, acks, depth) =>
      var m := Dispatched(s.leader, records);
      if AdmitProduce(c, depth, records, acks) == NoError
      then s.(leader := s.leader + [records], messages := s.messages + {m}, outstanding := s.outstanding + {|s.leader|})
      else s.(messages := s.messages + {m})
    case Deliver(f, m, depth) =>
      if AdmitReplica(c, depth, EndOffset(s.followers[f].log), m.base, m.records) == NoError
      then s.(followers := s.followers[f := Accept(s.followers[f], m)],
              acks := if m.op.Some? then s.acks + {Ack(m.op.value, f, s.followers[f].epoch)} else s.acks)
      else s
    case AskFetch(f) => s.(asked := s.asked + {EndOffset(s.followers[f].log)})
    case ServeFetch(offset) =>
      var records := ServedRecords(s.leader, offset, CATCHUP_MAX_BYTES, a);
      if offset > EndOffset(s.leader) || records == [] then s
      else s.(messages := s.messages + {Message(offset, s.leaderHighWatermark, records, None)})
    case Crash(f, keep) =>
      var log := s.followers[f].log[..keep];
      s.(followers := s.followers[f := Follower(log, EndOffset(log), s.followers[f].epoch + 1)])
    case Complete(op) =>
      var end := EndOffset(s.leader);
      s.(leaderHighWatermark := Min(end, Max(s.leaderHighWatermark, end)),
         outstanding := s.outstanding - {op}, acknowledged := s.acknowledged + {op})
    case Fail(op) => s.(outstanding := s.outstanding - {op})
  }

  // ---- Hypotheses on a run -------------------------------------------------

  predicate GoodSet(r: seq<byte>) {
    r != [] && WellFormed(r)
  }

  predicate GoodHistory(h: History) {
    forall r :: r in h ==> GoodSet(r)
  }

  /** A produce carries well-formed records, and the leader admits what it dispatches. */
  predicate GoodStep(t: Step, c: Limits) {
    t.Produce? ==> GoodSet(t.records) && AdmitProduce(c, t.queueDepth, t.records, t.acks) == NoError
  }

  /** Steps applied in turn; undefined steps end the run as not a run. */
  ghost predicate IsRun(s: Cluster, steps: seq<Step>, s': Cluster, c: Limits, a: Alignment)
    decreases |steps|
  {
    if steps == [] then s' == s
    else Enabled(s, steps[0]) && GoodStep(steps[0], c) && IsRun(Next(s, steps[0], c, a), steps[1..], s', c, a)
  }

  // ---- Prefix safety -------------------------------------------------------

  function Concat(h: History): seq<byte> {
    if h == [] then [] else Concat(Front(h)) + Last(h)
  }

  /** The follower log is the first n leader entries, each of its entries one or more of theirs. */
  ghost predicate Covers(log: History, leader: History, n: nat) {
    if log == [] then n == 0
    else n <= |leader| && exists j: nat :: j < n && Covers(Front(log), leader, j) && Last(log) == Concat(leader[j..n])
  }

  ghost predicate PrefixSafe(log: History, leader: History) {
    exists n: nat :: Covers(log, leader, n)
  }

  /** A message holds consecutive leader entries, at the offset where they belong. */
  ghost predicate FromLeader(m: Message, leader: History) {
    exists j: nat, k: nat :: MessageSpan(m, leader, j, k)
  }

  ghost predicate MessageSpan(m: Message, leader: History, j: nat, k: nat) {
    && j < k <= |leader|
    && m.base == EndOffset(leader[..j]) && m.records == Concat(leader[j..k])
    && (m.op.Some? ==> m.op.value == j && k == j + 1)
  }

  ghost predicate IsBoundary(offset: int, leader: History) {
    exists n: nat :: n <= |leader| && offset == EndOffset(leader[..n])
  }

  /** What an acknowledgement still guarantees. */
  ghost predicate AckHolds(k: Ack, s: Cluster) {
    && k.follower in s.followers && k.epoch <= s.followers[k.follower].epoch && k.op < |s.leader|
    && (k.epoch == s.followers[k.follower].epoch ==>
          exists n: nat :: k.op < n && Covers(s.followers[k.follower].log, s.leader, n))
  }

  ghost predicate Safe(s: Cluster) {
    && GoodHistory(s.leader)
    && (forall f :: f in s.followers ==> PrefixSafe(s.followers[f].log, s.leader))
    && (forall m :: m in s.messages ==> FromLeader(m, s.leader))
    && (forall o :: o in s.asked ==> IsBoundary(o, s.leader))
    && (forall k :: k in s.acks ==> AckHolds(k, s))
    && (forall op :: op in s.acknowledged ==> AllAcked(s, op))
    && (forall op :: op in s.outstanding || op in s.acknowledged ==> op < |s.leader|)
  }
}
