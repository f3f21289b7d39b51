/**
 Broker configuration: the parsed form, its validation, the searches over it,
 and which reloads are accepted.
 */
module Config {

  datatype Endpoint = Endpoint(id: int, kafkaHost: string, kafkaPort: nat, mercuryAddress: string)

  datatype Migration = Migration(generation: nat, targetShard: nat, targetLeader: int)

  datatype Partition = Partition(topic: string, id: int, shard: nat, leader: int, replicas: seq<int>, isr: seq<int>,
                                 fsync: bool, highWatermarkOnly: bool, allowFollowerFetch: bool,
                                 queueLimit: nat, maxFrameBytes: nat, migration: Migration)

  datatype Topic = Topic(name: string, partitions: seq<Partition>)

  datatype BrokerConfig = BrokerConfig(nodeId: int, dataDir: string, segmentBytes: nat,
                                       brokers: seq<Endpoint>, topics: seq<Topic>)

  datatype Key = Key(topic: string, id: int)

  function KeyOf(p: Partition): Key {
    Key(p.topic, p.id)
  }

  function PartitionsOf(topics: seq<Topic>): seq<Partition> {
    if topics == [] then [] else topics[0].partitions + PartitionsOf(topics[1..])
  }

  function AllPartitions(c: BrokerConfig): seq<Partition> {
    PartitionsOf(c.topics)
  }

  // ---- What a valid configuration is ------------------------------------------

  /** The parser gives a partition the name of its topic. */
  ghost predicate Parsed(c: BrokerConfig) {
    forall t, p :: t in c.topics && p in t.partitions ==> p.topic == t.name
  }

  ghost predicate EndpointOk(b: Endpoint) {
    b.kafkaHost != "" && b.kafkaPort != 0 && b.mercuryAddress != ""
  }

  ghost predicate HasBroker(brokers: seq<Endpoint>, id: int) {
    exists b :: b in brokers && b.id == id
  }

  ghost predicate DistinctIds(brokers: seq<Endpoint>) {
    forall i, j :: 0 <= i < j < |brokers| ==> brokers[i].id != brokers[j].id
  }

  ghost predicate DistinctKeys(ps: seq<Partition>) {
    forall i, j :: 0 <= i < j < |ps| ==> KeyOf(ps[i]) != KeyOf(ps[j])
  }

  ghost predicate PartitionOk(p: Partition, brokers: seq<Endpoint>) {
    && p.replicas != [] && p.isr != [] && p.leader in p.replicas
    && (forall r :: r in p.replicas ==> HasBroker(brokers, r))
    && (forall r :: r in p.isr ==> r in p.replicas)
    && p.queueLimit != 0 && p.maxFrameBytes != 0
    && (p.migration.generation != 0 ==> p.migration.targetLeader >= 0 && HasBroker(brokers, p.migration.targetLeader))
  }

  ghost predicate BrokersOk(brokers: seq<Endpoint>) {
    DistinctIds(brokers) && forall b :: b in brokers ==> EndpointOk(b)
  }

  ghost predicate TopicsOk(topics: seq<Topic>, brokers: seq<Endpoint>) {
    && (forall t :: t in topics ==> t.name != "")
    && DistinctKeys(PartitionsOf(topics))
    && (forall p :: p in PartitionsOf(topics) ==> PartitionOk(p, brokers))
  }

  ghost predicate ValidConfig(c: BrokerConfig) {
    && BrokersOk(c.brokers) && HasBroker(c.brokers, c.nodeId) && c.segmentBytes != 0
    && TopicsOk(c.topics, c.brokers)
  }

  // ---- Validation ---------------------------------------------------------------

  method ValidateBrokers(brokers: seq<Endpoint>) returns (ok: bool, ids: set<int>)
    ensures ok <==> BrokersOk(brokers)
    ensures ok ==> forall id :: id in ids <==> HasBroker(brokers, id)
  {
    ids := {};
    var i := 0;
    while i < |brokers|
      invariant 0 <= i <= |brokers|
      invariant BrokersOk(brokers[..i])
      invariant forall id :: id in ids <==> HasBroker(brokers[..i], id)
    {
      BrokersSnoc(brokers, i);
      var b := brokers[i];
      if b.id in ids || b.kafkaHost == "" || b.kafkaPort == 0 || b.mercuryAddress == "" {
        PrefixBrokers(brokers, i + 1);
        return false, ids;
      }
      ids := ids + {brokers[i].id};
      i := i + 1;
    }
    assert brokers[..i] == brokers;
    return true, ids;
  }

  lemma BrokersSnoc(brokers: seq<Endpoint>, i: nat)
    requires i < |brokers|
    ensures BrokersOk(brokers[..i + 1]) <==>
              BrokersOk(brokers[..i]) && !HasBroker(brokers[..i], brokers[i].id) && EndpointOk(brokers[i])
    ensures forall id :: HasBroker(brokers[..i + 1], id) <==> HasBroker(brokers[..i], id) || id == brokers[i].id
  {
    var more, less := brokers[..i + 1], brokers[..i];
    assert more == less + [brokers[i]];
    assert brokers[i] in more && forall b :: b in less ==> b in more;
    assert forall k :: 0 <= k < i ==> more[k] == less[k] && less[k] in less;
    forall id ensures HasBroker(more, id) <==> HasBroker(less, id) || id == brokers[i].id {
      if HasBroker(more, id) {
        var b :| b in more && b.id == id;
        assert b in less || b == brokers[i];
      }
    }
  }

  lemma PrefixBrokers(brokers: seq<Endpoint>, n: nat)
    requires n <= |brokers|
    ensures BrokersOk(brokers) ==> BrokersOk(brokers[..n])
  {
    assert forall b :: b in brokers[..n] ==> b in brokers;
  }

  ghost predicate ListOk(ps: seq<Partition>, brokers: seq<Endpoint>) {
    DistinctKeys(ps) && forall p :: p in ps ==> PartitionOk(p, brokers)
  }

  ghost predicate HasKey(ps: seq<Partition>, k: Key) {
    exists p :: p in ps && KeyOf(p) == k
  }

  lemma ListSnoc(ps: seq<Partition>, p: Partition, brokers: seq<Endpoint>)
    ensures ListOk(ps + [p], brokers) <==> ListOk(ps, brokers) && !HasKey(ps, KeyOf(p)) && PartitionOk(p, brokers)
    ensures forall k :: HasKey(ps + [p], k) <==> HasKey(ps, k) || k == KeyOf(p)
  {
    hide PartitionOk;
    var more := ps + [p];
    assert p in more && forall q :: q in ps ==> q in more;
    assert more[|ps|] == p && forall i :: 0 <= i < |ps| ==> more[i] == ps[i] && ps[i] in ps;
    if DistinctKeys(more) {
      forall i | 0 <= i < |ps| ensures KeyOf(ps[i]) != KeyOf(p) {
        assert KeyOf(more[i]) != KeyOf(more[|ps|]);
      }
    }
  }

  lemma ListPrefix(ps: seq<Partition>, tail: seq<Partition>, brokers: seq<Endpoint>)
    ensures ListOk(ps + tail, brokers) ==> ListOk(ps, brokers)
  {
    hide PartitionOk;
    var more := ps + tail;
    assert forall q :: q in ps ==> q in more;
    assert forall i :: 0 <= i < |ps| ==> more[i] == ps[i];
  }

  lemma {:induction false} PartitionsConcat(a: seq<Topic>, b: seq<Topic>)
    ensures PartitionsOf(a + b) == PartitionsOf(a) + PartitionsOf(b)
  {
    if a != [] {
      PartitionsConcat(a[1..], b);
      assert (a + b)[1..] == a[1..] + b;
    } else {
      assert a + b == b;
    }
  }

  /** The partitions before the j-th of topic i, and those from it on. */
  lemma PartitionsSplit(topics: seq<Topic>, i: nat, j: nat)
    requires i < |topics| && j <= |topics[i].partitions|
    ensures PartitionsOf(topics) == PartitionsOf(topics[..i]) + topics[i].partitions[..j]
                                    + (topics[i].partitions[j..] + PartitionsOf(topics[i + 1..]))
  {
    PartitionsConcat(topics[..i], topics[i..]);
    assert topics == topics[..i] + topics[i..] && topics[i..][1..] == topics[i + 1..];
  }

  lemma PartitionsSnoc(topics: seq<Topic>, i: nat)
    requires i < |topics|
    ensures PartitionsOf(topics[..i + 1]) == PartitionsOf(topics[..i]) + topics[i].partitions
  {
    PartitionsConcat(topics[..i], [topics[i]]);
    assert topics[..i + 1] == topics[..i] + [topics[i]];
    assert PartitionsOf([topics[i]]) == topics[i].partitions + PartitionsOf([topics[i]][1..]);
  }

  method ValidatePartition(p: Partition, ids: set<int>, ghost brokers: seq<Endpoint>) returns (ok: bool)
    requires forall id :: id in ids <==> HasBroker(brokers, id)
    ensures ok <==> PartitionOk(p, brokers)
    ensures ok <==> && |p.replicas| > 0 && |p.isr| > 0 && p.leader in p.replicas
                    && (forall r :: r in p.replicas ==> r in ids) && (forall r :: r in p.isr ==> r in p.replicas)
                    && p.queueLimit > 0 && p.maxFrameBytes > 0
                    && (p.migration.generation == 0
                        || (p.migration.targetLeader >= 0 && p.migration.targetLeader in ids))
  {
    if p.replicas == [] || p.isr == [] || p.leader !in p.replicas {
      return false;
    }
    for i := 0 to |p.replicas|
      invariant forall k :: 0 <= k < i ==> p.replicas[k] in ids
    {
      var replica := p.replicas[i];
      assert replica in p.replicas && (replica in ids <==> HasBroker(brokers, replica));
      if replica !in ids { return false; }
    }
    for i := 0 to |p.isr|
      invariant forall k :: 0 <= k < i ==> p.isr[k] in p.replicas
    {
      var member := p.isr[i];
      assert member in p.isr;
      if member !in p.replicas { return false; }
    }
    if p.queueLimit == 0 || p.maxFrameBytes == 0 {
      return false;
    }
    return p.migration.generation == 0 || (p.migration.targetLeader >= 0 && p.migration.targetLeader in ids);
  }

  method ValidateTopics(topics: seq<Topic>, ids: set<int>, ghost brokers: seq<Endpoint>) returns (ok: bool)
    requires forall id :: id in ids <==> HasBroker(brokers, id)
    ensures ok <==> TopicsOk(topics, brokers)
  {
    hide PartitionOk, PartitionsOf;
    var keys: set<Key> := {};
    ghost var seen := [];
    var i := 0;
    assert PartitionsOf(topics[..0]) == [] by { NoTopics(topics[..0]); }
    while i < |topics|
      invariant 0 <= i <= |topics|
      invariant forall k :: 0 <= k < i ==> topics[k].name != ""
      invariant seen == PartitionsOf(topics[..i]) && ListOk(seen, brokers)
      invariant forall k :: k in keys <==> HasKey(seen, k)
    {
      if topics[i].name == "" { return false; }
      var j := 0;
      PartitionsSplit(topics, i, 0);
      while j < |topics[i].partitions|
        invariant 0 <= j <= |topics[i].partitions|
        invariant seen == PartitionsOf(topics[..i]) + topics[i].partitions[..j] && ListOk(seen, brokers)
        invariant forall k :: k in keys <==> HasKey(seen, k)
      {
        var p := topics[i].partitions[j];
        ListSnoc(seen, p, brokers);
        PartitionsSplit(topics, i, j + 1);
        assert topics[i].partitions[..j + 1] == topics[i].partitions[..j] + [p];
        var fine := ValidatePartition(p, ids, brokers);
        if KeyOf(p) in keys || !fine {
          ghost var tail := topics[i].partitions[j + 1..] + PartitionsOf(topics[i + 1..]);
          assert PartitionsOf(topics) == (seen + [p]) + tail;
          ListPrefix(seen + [p], tail, brokers);
          return false;
        }
        keys, seen, j := keys + {KeyOf(p)}, seen + [p], j + 1;
      }
      PartitionsSnoc(topics, i);
      i := i + 1;
    }
    assert topics[..i] == topics;
    return true;
  }

  lemma NoTopics(topics: seq<Topic>)
    requires topics == []
    ensures PartitionsOf(topics) == []
  {
  }

  /** A configuration is accepted exactly when it is valid. */
  method ValidateConfig(c: BrokerConfig) returns (ok: bool)
    ensures ok <==> ValidConfig(c)
  {
    hide PartitionOk, PartitionsOf;
    var fine, ids := ValidateBrokers(c.brokers);
    if !fine || c.nodeId !in ids || c.segmentBytes == 0 {
      return false;
    }
    ok := ValidateTopics(c.topics, ids, c.brokers);
  }
}
