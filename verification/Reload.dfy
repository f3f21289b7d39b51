/**
 Searches over a configuration and the rules of a live reload. A reload may
 add partitions; it may not remove or move one, or touch the brokers.
 */
module Reload {
  import opened Wrappers
  import opened Config

  // ---- Searches -----------------------------------------------------------------

  function FindIn(ps: seq<Partition>, id: int): (r: Option<Partition>)
    ensures r.Some? ==> r.value in ps && r.value.id == id
    ensures r.None? ==> forall p :: p in ps ==> p.id != id
  {
    if ps == [] then None
    else if ps[0].id == id then Some(ps[0])
    else FindIn(ps[1..], id)
  }

  /** The first match, over every topic of that name. */
  function FindPartitionIn(topics: seq<Topic>, topic: string, id: int): Option<Partition> {
    if topics == [] then None
    else
      var here := if topics[0].name == topic then FindIn(topics[0].partitions, id) else None;
      if here.Some? then here else FindPartitionIn(topics[1..], topic, id)
  }

  function FindPartition(c: BrokerConfig, topic: string, id: int): Option<Partition> {
    FindPartitionIn(c.topics, topic, id)
  }

  function FindBrokerIn(brokers: seq<Endpoint>, id: int): (r: Option<Endpoint>)
    ensures r.Some? ==> r.value in brokers && r.value.id == id
    ensures r.None? <==> !HasBroker(brokers, id)
  {
    if brokers == [] then None
    else if brokers[0].id == id then assert HasBroker(brokers, id); Some(brokers[0])
    else
      assert HasBroker(brokers, id) <==> HasBroker(brokers[1..], id) by {
        assert forall b :: b in brokers <==> b == brokers[0] || b in brokers[1..];
      }
      FindBrokerIn(brokers[1..], id)
  }

  /** The shard of a partition, from the first topic of that name only. */
  function OwnerShardIn(topics: seq<Topic>, topic: string, id: int): Option<nat> {
    if topics == [] then None
    else if topics[0].name == topic then
      var p := FindIn(topics[0].partitions, id);
      if p.Some? then Some(p.value.shard) else None
    else OwnerShardIn(topics[1..], topic, id)
  }

  lemma {:induction false} MemberOf(topics: seq<Topic>, p: Partition)
    ensures p in PartitionsOf(topics) <==> exists t :: t in topics && p in t.partitions
  {
    if topics != [] {
      MemberOf(topics[1..], p);
      assert forall t :: t in topics <==> t == topics[0] || t in topics[1..];
    }
  }

  ghost predicate Named(topics: seq<Topic>) {
    forall t, p :: t in topics && p in t.partitions ==> p.topic == t.name
  }

  lemma {:induction false} FoundIn(topics: seq<Topic>, topic: string, id: int)
    requires Named(topics)
    ensures var r := FindPartitionIn(topics, topic, id);
            && (r.Some? ==> r.value in PartitionsOf(topics) && KeyOf(r.value) == Key(topic, id))
            && (r.None? ==> !HasKey(PartitionsOf(topics), Key(topic, id)))
  {
    if topics != [] {
      assert topics[0] in topics && forall t :: t in topics[1..] ==> t in topics;
      FoundIn(topics[1..], topic, id);
      var all := PartitionsOf(topics);
      assert forall p :: p in all <==> p in topics[0].partitions || p in PartitionsOf(topics[1..]);
    }
  }

  lemma SameKeySame(ps: seq<Partition>, p: Partition, q: Partition)
    requires DistinctKeys(ps) && p in ps && q in ps && KeyOf(p) == KeyOf(q)
    ensures p == q
  {
    var i :| 0 <= i < |ps| && ps[i] == p;
    var j :| 0 <= j < |ps| && ps[j] == q;
  }

  /** On a valid configuration the search is the map from keys to partitions. */
  lemma FindPartitionExact(c: BrokerConfig, topic: string, id: int, p: Partition)
    requires Parsed(c) && ValidConfig(c)
    ensures FindPartition(c, topic, id) == Some(p) <==> p in AllPartitions(c) && KeyOf(p) == Key(topic, id)
  {
    FoundIn(c.topics, topic, id);
    var r := FindPartition(c, topic, id);
    if p in AllPartitions(c) && KeyOf(p) == Key(topic, id) {
      assert HasKey(AllPartitions(c), Key(topic, id));
      SameKeySame(AllPartitions(c), p, r.value);
    }
  }

  lemma FoundKey(c: BrokerConfig, topic: string, id: int)
    requires Parsed(c)
    ensures var r := FindPartition(c, topic, id); r.Some? ==> KeyOf(r.value) == Key(topic, id)
  {
    FoundIn(c.topics, topic, id);
  }

  // ---- Owner shard ----------------------------------------------------------------

  /** No topic after the first of its name lists partitions. */
  ghost predicate FirstTopicHasAll(topics: seq<Topic>) {
    forall i, j :: 0 <= i < j < |topics| && topics[i].name == topics[j].name ==> topics[j].partitions == []
  }

  ghost predicate OwnerAgrees(topics: seq<Topic>, topic: string, id: int) {
    var p := FindPartitionIn(topics, topic, id);
    OwnerShardIn(topics, topic, id) == if p.Some? then Some(p.value.shard) else None
  }

  lemma {:induction false} NothingLater(topics: seq<Topic>, topic: string, id: int)
    requires forall j :: 0 <= j < |topics| && topics[j].name == topic ==> topics[j].partitions == []
    ensures FindPartitionIn(topics, topic, id).None?
  {
    if topics != [] {
      NothingLater(topics[1..], topic, id);
    }
  }

  lemma {:induction false} OwnerAgreesIn(topics: seq<Topic>, topic: string, id: int)
    requires FirstTopicHasAll(topics)
    ensures OwnerAgrees(topics, topic, id)
  {
    if topics != [] {
      if topics[0].name == topic {
        NothingLater(topics[1..], topic, id);
      } else {
        OwnerAgreesIn(topics[1..], topic, id);
      }
    }
  }

  lemma {:induction false} OwnerMisses(topics: seq<Topic>, i: nat, topic: string, id: int)
    requires i < |topics| && topics[i].name == topic
    requires forall k, p :: 0 <= k <= i && topics[k].name == topic && p in topics[k].partitions ==> p.id != id
    ensures OwnerShardIn(topics, topic, id).None?
  {
    if topics[0].name != topic {
      OwnerMisses(topics[1..], i - 1, topic, id);
    }
  }

  lemma {:induction false} OneTopicOnly(topics: seq<Topic>, i: nat, j: nat, p: Partition, q: Partition)
    requires i < j < |topics| && p in topics[i].partitions && q in topics[j].partitions
    requires DistinctKeys(PartitionsOf(topics))
    ensures KeyOf(p) != KeyOf(q)
  {
    var first, rest := topics[0].partitions, PartitionsOf(topics[1..]);
    var all := first + rest;
    if i == 0 {
      MemberOf(topics[1..], q);
      assert topics[1..][j - 1] in topics[1..];
      var a :| 0 <= a < |first| && first[a] == p;
      var b :| 0 <= b < |rest| && rest[b] == q;
      assert all[a] == p && all[|first| + b] == q;
    } else {
      forall a, b | 0 <= a < b < |rest| ensures KeyOf(rest[a]) != KeyOf(rest[b]) {
        assert all[|first| + a] == rest[a] && all[|first| + b] == rest[b];
      }
      OneTopicOnly(topics[1..], i - 1, j - 1, p, q);
    }
  }

  /** The request router and the configuration agree on every partition exactly when no topic
   name is repeated by a topic with partitions. */
  lemma OwnerShardIff(c: BrokerConfig)
    requires Parsed(c) && ValidConfig(c)
    ensures (forall topic, id :: OwnerAgrees(c.topics, topic, id)) <==> FirstTopicHasAll(c.topics)
  {
    if FirstTopicHasAll(c.topics) {
      forall topic, id ensures OwnerAgrees(c.topics, topic, id) {
        OwnerAgreesIn(c.topics, topic, id);
      }
    } else {
      var i, j :| 0 <= i < j < |c.topics| && c.topics[i].name == c.topics[j].name && c.topics[j].partitions != [];
      RepeatedTopic(c, i, j);
    }
  }

  lemma RepeatedTopic(c: BrokerConfig, i: nat, j: nat)
    requires Parsed(c) && ValidConfig(c)
    requires i < j < |c.topics| && c.topics[i].name == c.topics[j].name && c.topics[j].partitions != []
    ensures !OwnerAgrees(c.topics, c.topics[j].name, c.topics[j].partitions[0].id)
  {
    var q := c.topics[j].partitions[0];
    var topic := c.topics[j].name;
    assert c.topics[j] in c.topics;
    forall k, p | 0 <= k <= i && c.topics[k].name == topic && p in c.topics[k].partitions ensures p.id != q.id {
      OneTopicOnly(c.topics, k, j, p, q);
      assert c.topics[k] in c.topics;
    }
    OwnerMisses(c.topics, i, topic, q.id);
    MemberOf(c.topics, q);
    FindPartitionExact(c, topic, q.id, q);
  }

  // ---- Reloads --------------------------------------------------------------------

  /** What a reload must keep of a partition. */
  ghost predicate SamePlace(p: Partition, q: Partition) {
    && KeyOf(q) == KeyOf(p) && q.shard == p.shard
    && q.replicas == p.replicas && q.isr == p.isr && q.migration == p.migration
  }

  ghost predicate Kept(p: Partition, c: BrokerConfig) {
    exists q :: q in AllPartitions(c) && SamePlace(p, q)
  }

  /** The rules, without reference to how they are checked. */
  ghost predicate ReloadAllowed(c: BrokerConfig, c': BrokerConfig) {
    && c'.nodeId == c.nodeId && c'.dataDir == c.dataDir && c'.segmentBytes == c.segmentBytes
    && |c'.brokers| == |c.brokers|
    && (forall b :: b in c.brokers ==> b in c'.brokers)
    && (forall p :: p in AllPartitions(c) ==> Kept(p, c'))
  }

  lemma FindBrokerExact(brokers: seq<Endpoint>, b: Endpoint)
    requires DistinctIds(brokers)
    ensures FindBrokerIn(brokers, b.id) == Some(b) <==> b in brokers
  {
    if b in brokers {
      assert HasBroker(brokers, b.id);
      var found := FindBrokerIn(brokers, b.id).value;
      var i :| 0 <= i < |brokers| && brokers[i] == b;
      var j :| 0 <= j < |brokers| && brokers[j] == found;
    }
  }

  lemma KeptExact(p: Partition, c: BrokerConfig)
    requires Parsed(c) && ValidConfig(c)
    ensures var q := FindPartition(c, p.topic, p.id);
            Kept(p, c) <==> q.Some? && SamePlace(p, q.value)
  {
    FoundIn(c.topics, p.topic, p.id);
    if Kept(p, c) {
      var q :| q in AllPartitions(c) && SamePlace(p, q);
      FindPartitionExact(c, p.topic, p.id, q);
    }
  }

  /** A reload is accepted exactly when the rules allow it. */
  method ValidateReload(c: BrokerConfig, c': BrokerConfig) returns (ok: bool)
    requires Parsed(c') && ValidConfig(c')
    ensures ok <==> ReloadAllowed(c, c')
  {
    hide Parsed, Kept, FindPartitionIn, FindBrokerIn, TopicsOk, PartitionsOf;
    if c.nodeId != c'.nodeId || c.dataDir != c'.dataDir || c.segmentBytes != c'.segmentBytes
       || |c.brokers| != |c'.brokers| {
      return false;
    }
    for i := 0 to |c.brokers|
      invariant forall k :: 0 <= k < i ==> c.brokers[k] in c'.brokers
    {
      var b := c.brokers[i];
      assert b in c.brokers;
      FindBrokerExact(c'.brokers, b);
      var updated := FindBrokerIn(c'.brokers, b.id);
      if updated != Some(b) {
        return false;
      }
    }
    var ps := AllPartitions(c);
    for i := 0 to |ps|
      invariant forall k :: 0 <= k < i ==> Kept(ps[k], c')
    {
      var p := ps[i];
      assert p in ps;
      KeptExact(p, c');
      FoundKey(c', p.topic, p.id);
      var updated := FindPartition(c', p.topic, p.id);
      if updated.None? || updated.value.shard != p.shard
         || updated.value.replicas != p.replicas || updated.value.isr != p.isr
         || updated.value.migration != p.migration {
        return false;
      }
    }
    return true;
  }

  ghost function Brokers(c: BrokerConfig): set<Endpoint> {
    set b | b in c.brokers
  }

  lemma {:induction false} DistinctSize(brokers: seq<Endpoint>)
    requires DistinctIds(brokers)
    ensures |set b | b in brokers| == |brokers|
  {
    if brokers != [] {
      var n := |brokers| - 1;
      DistinctSize(brokers[..n]);
      var front := set b | b in brokers[..n];
      assert (set b | b in brokers) == front + {brokers[n]};
      assert brokers[n] !in front;
    }
  }

  lemma SubsetSameSize<T>(a: set<T>, b: set<T>)
    requires a <= b && |a| == |b|
    ensures a == b
  {
    assert |b - a| == |b| - |a|;
  }

  /** Equal sizes and unique ids: no broker was added either. */
  lemma ReloadKeepsBrokers(c: BrokerConfig, c': BrokerConfig)
    requires DistinctIds(c.brokers) && DistinctIds(c'.brokers)
    requires ReloadAllowed(c, c')
    ensures Brokers(c') == Brokers(c)
  {
    DistinctSize(c.brokers);
    DistinctSize(c'.brokers);
    SubsetSameSize(Brokers(c), Brokers(c'));
  }

  /** All that a running broker may rely on across reloads. */
  ghost predicate Grows(c: BrokerConfig, c': BrokerConfig) {
    && c'.nodeId == c.nodeId && c'.dataDir == c.dataDir && c'.segmentBytes == c.segmentBytes
    && Brokers(c') == Brokers(c)
    && (forall p :: p in AllPartitions(c) ==> Kept(p, c'))
  }

  lemma GrowsTransitive(a: BrokerConfig, b: BrokerConfig, c: BrokerConfig)
    requires Grows(a, b) && Grows(b, c)
    ensures Grows(a, c)
  {
    forall p | p in AllPartitions(a) ensures Kept(p, c) {
      var q :| q in AllPartitions(b) && SamePlace(p, q);
      assert Kept(q, c);
      var r :| r in AllPartitions(c) && SamePlace(q, r);
      assert SamePlace(p, r);
    }
  }

  lemma GrowsReflexive(c: BrokerConfig)
    ensures Grows(c, c)
  {
    forall p | p in AllPartitions(c) ensures Kept(p, c) {
      assert SamePlace(p, p);
    }
  }

  /** Loaded configurations of which each may follow the one before. */
  ghost predicate Chain(cs: seq<BrokerConfig>) {
    && (forall i :: 0 <= i < |cs| ==> Parsed(cs[i]) && ValidConfig(cs[i]))
    && (forall i, j :: 0 <= i < |cs| && j == i + 1 && j < |cs| ==> ReloadAllowed(cs[i], cs[j]))
  }

  /** Any number of accepted reloads only adds partitions, and every old one stays in its place. */
  lemma ReloadChain(cs: seq<BrokerConfig>, i: nat, j: nat)
    requires Chain(cs) && i <= j < |cs|
    ensures Grows(cs[i], cs[j])
    ensures forall p :: p in AllPartitions(cs[i]) ==> exists q ::
              && q in AllPartitions(cs[j]) && q.topic == p.topic && q.id == p.id
              && q.shard == p.shard && q.replicas == p.replicas && q.isr == p.isr && q.migration == p.migration
  {
    hide Parsed, ValidConfig;
    ChainGrows(cs, i, j);
    forall p | p in AllPartitions(cs[i]) ensures exists q ::
        && q in AllPartitions(cs[j]) && q.topic == p.topic && q.id == p.id
        && q.shard == p.shard && q.replicas == p.replicas && q.isr == p.isr && q.migration == p.migration
    {
      assert Kept(p, cs[j]);
      var q :| q in AllPartitions(cs[j]) && SamePlace(p, q);
    }
  }

  lemma {:induction false} ChainGrows(cs: seq<BrokerConfig>, i: nat, j: nat)
    requires Chain(cs) && i <= j < |cs|
    ensures Grows(cs[i], cs[j])
    decreases j
  {
    hide Parsed, Kept;
    if i == j {
      GrowsReflexive(cs[i]);
    } else {
      ChainGrows(cs, i, j - 1);
      ReloadKeepsBrokers(cs[j - 1], cs[j]);
      GrowsTransitive(cs[i], cs[j - 1], cs[j]);
    }
  }
}
