/**
 One shard's partitions: a vector sorted by topic and partition id, searched by
 bisection, with a slot for the entry found last. It is kept equal to a map
 from keys to the partitions that the configuration places on this shard.
 */
module PartitionTable {
  import opened Wrappers
  import opened Config
  import opened Reload

  // ---- Key order ------------------------------------------------------------------

  predicate TextLess(a: string, b: string) {
    b != "" && (a == "" || a[0] < b[0] || (a[0] == b[0] && TextLess(a[1..], b[1..])))
  }

  lemma {:induction false} TextOrder(a: string, b: string)
    ensures !(TextLess(a, b) && TextLess(b, a))
    ensures TextLess(a, b) || TextLess(b, a) || a == b
    ensures a == b ==> !TextLess(a, b)
  {
    if a != "" && b != "" && a[0] == b[0] {
      TextOrder(a[1..], b[1..]);
      assert a == [a[0]] + a[1..] && b == [b[0]] + b[1..];
    }
  }

  lemma {:induction false} TextTransitive(a: string, b: string, c: string)
    requires TextLess(a, b) && TextLess(b, c)
    ensures TextLess(a, c)
  {
    if a != "" && a[0] == b[0] && b[0] == c[0] {
      TextTransitive(a[1..], b[1..], c[1..]);
    }
  }

  predicate KeyLess(j: Key, k: Key) {
    if j.topic != k.topic then TextLess(j.topic, k.topic) else j.id < k.id
  }

  lemma KeyOrder(j: Key, k: Key)
    ensures !(KeyLess(j, k) && KeyLess(k, j))
    ensures KeyLess(j, k) || KeyLess(k, j) || j == k
  {
    hide TextLess;
    TextOrder(j.topic, k.topic);
  }

  lemma KeyTransitive(j: Key, k: Key, l: Key)
    requires KeyLess(j, k) && KeyLess(k, l)
    ensures KeyLess(j, l)
  {
    hide TextLess;
    TextOrder(j.topic, k.topic);
    if j.topic != k.topic && k.topic != l.topic {
      TextTransitive(j.topic, k.topic, l.topic);
    }
  }

  // ---- The vector and the map it stands for -------------------------------------------

  /** `log` is the identity of the partition's log, `config` what it was last given. */
  datatype Entry = Entry(key: Key, log: nat, config: Partition)

  type Table = map<Key, Entry>

  ghost predicate Sorted(entries: seq<Entry>) {
    forall i, j :: 0 <= i < j < |entries| ==> KeyLess(entries[i].key, entries[j].key)
  }

  ghost predicate Shows(entries: seq<Entry>, table: Table) {
    && (forall i :: 0 <= i < |entries| ==> entries[i].key in table && table[entries[i].key] == entries[i])
    && (forall k :: k in table ==> table[k].key == k && table[k] in entries)
  }

  /** The first position whose key is not below `key`. */
  method LowerBound(entries: seq<Entry>, key: Key) returns (at: nat)
    requires Sorted(entries)
    ensures at <= |entries|
    ensures forall k :: 0 <= k < at ==> KeyLess(entries[k].key, key)
    ensures forall k :: at <= k < |entries| ==> !KeyLess(entries[k].key, key)
  {
    hide KeyLess;
    var lo, hi := 0, |entries|;
    while lo < hi
      invariant 0 <= lo <= hi <= |entries|
      invariant forall k :: 0 <= k < lo ==> KeyLess(entries[k].key, key)
      invariant forall k :: hi <= k < |entries| ==> !KeyLess(entries[k].key, key)
    {
      var mid := (lo + hi) / 2;
      if KeyLess(entries[mid].key, key) {
        forall k | 0 <= k < mid ensures KeyLess(entries[k].key, key) {
          KeyTransitive(entries[k].key, entries[mid].key, key);
        }
        lo := mid + 1;
      } else {
        forall k | mid < k < |entries| ensures !KeyLess(entries[k].key, key) {
          if KeyLess(entries[k].key, key) {
            KeyTransitive(entries[mid].key, entries[k].key, key);
          }
        }
        hi := mid;
      }
    }
    return lo;
  }

  /** A key is in the map exactly if it stands at its lower bound. */
  lemma BoundFinds(entries: seq<Entry>, table: Table, key: Key, at: nat)
    requires Sorted(entries) && Shows(entries, table) && at <= |entries|
    requires forall k :: 0 <= k < at ==> KeyLess(entries[k].key, key)
    requires forall k :: at <= k < |entries| ==> !KeyLess(entries[k].key, key)
    ensures key in table <==> at < |entries| && entries[at].key == key
  {
    hide KeyLess;
    KeyOrder(key, key);
    if at < |entries| {
      KeyOrder(entries[at].key, key);
    }
    if key in table {
      var i :| 0 <= i < |entries| && entries[i] == table[key];
    }
  }

  /** Inserting a new key at its lower bound keeps the vector sorted. */
  lemma InsertSorted(entries: seq<Entry>, e: Entry, at: nat)
    requires Sorted(entries) && at <= |entries|
    requires forall k :: 0 <= k < at ==> KeyLess(entries[k].key, e.key)
    requires forall k :: at <= k < |entries| ==> !KeyLess(entries[k].key, e.key)
    requires at < |entries| ==> entries[at].key != e.key
    ensures Sorted(entries[..at] + [e] + entries[at..])
  {
    hide KeyLess;
    var more := entries[..at] + [e] + entries[at..];
    forall k | at <= k < |entries| ensures KeyLess(e.key, entries[k].key) {
      KeyOrder(entries[at].key, e.key);
      if k > at {
        KeyTransitive(e.key, entries[at].key, entries[k].key);
      }
    }
    forall i, j | 0 <= i < j < |more| ensures KeyLess(more[i].key, more[j].key) {
    }
  }

  lemma InsertShows(entries: seq<Entry>, table: Table, e: Entry, at: nat)
    requires Shows(entries, table) && at <= |entries| && e.key !in table
    ensures Shows(entries[..at] + [e] + entries[at..], table[e.key := e])
  {
    var more := entries[..at] + [e] + entries[at..];
    assert more[at] == e;
    forall k | k in table ensures table[k] in more {
      var i :| 0 <= i < |entries| && entries[i] == table[k];
      assert more[if i < at then i else i + 1] == entries[i];
    }
  }

  lemma UpdateShows(entries: seq<Entry>, table: Table, i: nat, config: Partition)
    requires Sorted(entries) && Shows(entries, table) && i < |entries|
    ensures Sorted(entries[i := entries[i].(config := config)])
    ensures Shows(entries[i := entries[i].(config := config)], table[entries[i].key := entries[i].(config := config)])
  {
    hide KeyLess;
    var key := entries[i].key;
    var more := entries[i := entries[i].(config := config)];
    forall j | 0 <= j < |entries| && j != i ensures entries[j].key != key {
      KeyOrder(key, key);
    }
    forall k | k in table && k != key ensures table[k] in more {
      var j :| 0 <= j < |entries| && entries[j] == table[k];
      assert more[j] == entries[j];
    }
    assert more[i] in more;
  }

  // ---- What one partition does to the map ------------------------------------------------

  /** An existing log takes the new configuration; a new one gets its own log. */
  ghost function Placed(table: Table, p: Partition, log: nat): Table {
    table[KeyOf(p) := if KeyOf(p) in table then table[KeyOf(p)].(config := p) else Entry(KeyOf(p), log, p)]
  }

  ghost predicate LogsOk(table: Table, nextLog: nat) {
    && (forall k :: k in table ==> table[k].log < nextLog)
    && (forall j, k :: j in table && k in table && j != k ==> table[j].log != table[k].log)
  }

  /** The map from the keys of this shard's configured partitions. */
  ghost predicate Serves(table: Table, c: BrokerConfig, shard: nat) {
    forall k, p :: (k in table && table[k].config == p)
        <==> (p in AllPartitions(c) && p.shard == shard && KeyOf(p) == k)
  }

  /** After the first n partitions of a configuration were placed over `was`. */
  ghost predicate Progress(was: Table, table: Table, ps: seq<Partition>, n: nat, shard: nat)
    requires n <= |ps|
  {
    && (forall k :: k in was ==> k in table && table[k].log == was[k].log)
    && (forall i :: 0 <= i < n && ps[i].shard == shard ==> KeyOf(ps[i]) in table && table[KeyOf(ps[i])].config == ps[i])
    && (forall k :: k in table ==> Origin(was, table, ps, n, shard, k))
  }

  ghost predicate Origin(was: Table, table: Table, ps: seq<Partition>, n: nat, shard: nat, k: Key)
    requires n <= |ps| && k in table
  {
    || (k in was && table[k] == was[k])
    || (exists i :: 0 <= i < n && ps[i] == table[k].config && ps[i].shard == shard && KeyOf(ps[i]) == k)
  }

  lemma ProgressStep(was: Table, table: Table, ps: seq<Partition>, n: nat, shard: nat, log: nat)
    requires n < |ps| && DistinctKeys(ps) && Progress(was, table, ps, n, shard)
    ensures Progress(was, if ps[n].shard == shard then Placed(table, ps[n], log) else table, ps, n + 1, shard)
  {
    var p := ps[n];
    var next := if p.shard == shard then Placed(table, p, log) else table;
    forall i | 0 <= i < n + 1 && ps[i].shard == shard
      ensures KeyOf(ps[i]) in next && next[KeyOf(ps[i])].config == ps[i]
    {
    }
    forall k | k in next ensures Origin(was, next, ps, n + 1, shard, k) {
      if p.shard == shard && k == KeyOf(p) {
        assert ps[n] == next[k].config;
      } else {
        assert Origin(was, table, ps, n, shard, k);
      }
    }
  }

  lemma ProgressStart(was: Table, ps: seq<Partition>, shard: nat)
    ensures Progress(was, was, ps, 0, shard)
  {
  }

  /** When all partitions of a configuration that keeps the old ones are placed, nothing of
   the old configuration is left over. */
  lemma ProgressEnd(was: Table, table: Table, c: BrokerConfig, c': BrokerConfig, shard: nat)
    requires Serves(was, c, shard) && DistinctKeys(AllPartitions(c'))
    requires forall p :: p in AllPartitions(c) ==> Kept(p, c')
    requires Progress(was, table, AllPartitions(c'), |AllPartitions(c')|, shard)
    ensures Serves(table, c', shard)
  {
    var ps := AllPartitions(c');
    forall k, p ensures (k in table && table[k].config == p) <==> (p in ps && p.shard == shard && KeyOf(p) == k) {
      if p in ps && p.shard == shard && KeyOf(p) == k {
        var i :| 0 <= i < |ps| && ps[i] == p;
      }
      if k in table && table[k].config == p {
        NoLeftover(was, table, c, c', shard, k);
      }
    }
  }

  lemma NoLeftover(was: Table, table: Table, c: BrokerConfig, c': BrokerConfig, shard: nat, k: Key)
    requires Serves(was, c, shard) && k in table
    requires forall p :: p in AllPartitions(c) ==> Kept(p, c')
    requires Progress(was, table, AllPartitions(c'), |AllPartitions(c')|, shard)
    ensures table[k].config in AllPartitions(c') && table[k].config.shard == shard && KeyOf(table[k].config) == k
  {
    var ps := AllPartitions(c');
    assert Origin(was, table, ps, |ps|, shard, k);
    if k in was && table[k] == was[k] {
      var p := was[k].config;
      assert Kept(p, c');
      var q :| q in ps && SamePlace(p, q);
      var i :| 0 <= i < |ps| && ps[i] == q;
      assert table[KeyOf(ps[i])].config == q;
    }
  }

  lemma PlacedLogs(table: Table, p: Partition, nextLog: nat)
    requires LogsOk(table, nextLog)
    ensures LogsOk(Placed(table, p, nextLog), nextLog + 1)
  {
  }

  // ---- The shard ----------------------------------------------------------------------

  class BrokerShard {
    const shard: nat
    var config: BrokerConfig
    var partitions: seq<Entry>
    var hotPartition: Option<nat>
    var nextLog: nat
    ghost var table: Table

    /** The vector is sorted, shows the map, and the hot slot points into it. */
    ghost predicate TableOk()
      reads this
    {
      && Sorted(partitions) && Shows(partitions, table) && LogsOk(table, nextLog)
      && (hotPartition.Some? ==> hotPartition.value < |partitions|)
    }

    /** Besides, the map is the one the configuration asks for. */
    ghost predicate Valid()
      reads this
    {
      && TableOk() && Parsed(config) && ValidConfig(config)
      && Serves(table, config, shard)
    }

    /** Where a partition's entry is: the hot slot first, else by bisection. */
    method FindPartitionLog(key: Key) returns (at: Option<nat>)
      requires TableOk()
      modifies this`hotPartition
      ensures TableOk()
      ensures at.Some? <==> key in table
      ensures at.Some? ==> at.value < |partitions| && partitions[at.value] == table[key] && table[key].key == key
    {
      hide Sorted, LogsOk;
      if hotPartition.Some? && partitions[hotPartition.value].key == key {
        return hotPartition;
      }
      var i := LowerBound(partitions, key);
      BoundFinds(partitions, table, key, i);
      if i < |partitions| && partitions[i].key == key {
        hotPartition := Some(i);
        return Some(i);
      }
      return None;
    }

    /** The entry of a key, with a new log if there was none. */
    method EmplacePartitionLog(p: Partition) returns (at: nat)
      requires TableOk()
      modifies this`partitions, this`hotPartition, this`nextLog, this`table
      ensures TableOk()
      ensures at < |partitions| && partitions[at].key == KeyOf(p)
      ensures table == if KeyOf(p) in old(table) then old(table) else Placed(old(table), p, old(nextLog))
      ensures nextLog >= old(nextLog)
    {
      hide LogsOk;
      at := LowerBound(partitions, KeyOf(p));
      BoundFinds(partitions, table, KeyOf(p), at);
      if at < |partitions| && partitions[at].key == KeyOf(p) {
        return;
      }
      hotPartition := None;
      var e := Entry(KeyOf(p), nextLog, p);
      InsertSorted(partitions, e, at);
      InsertShows(partitions, table, e, at);
      PlacedLogs(table, p, nextLog);
      partitions := partitions[..at] + [e] + partitions[at..];
      nextLog, table := nextLog + 1, table[KeyOf(p) := e];
    }

    /** Give an entry's log its configuration. */
    method Configure(at: nat, p: Partition)
      requires TableOk() && at < |partitions| && partitions[at].key == KeyOf(p)
      modifies this`partitions, this`table
      ensures TableOk()
      ensures KeyOf(p) in old(table) && table == old(table)[KeyOf(p) := old(table)[KeyOf(p)].(config := p)]
    {
      hide Sorted;
      UpdateShows(partitions, table, at, p);
      table := table[KeyOf(p) := partitions[at].(config := p)];
      partitions := partitions[at := partitions[at].(config := p)];
    }

    /** Start: every partition of this shard gets its own log. */
    constructor (config: BrokerConfig, shard: nat)
      requires Parsed(config) && ValidConfig(config)
      ensures Valid() && this.config == config && this.shard == shard
    {
      this.config, this.shard := config, shard;
      partitions, hotPartition, nextLog, table := [], None, 0, map[];
      new;
      hide Sorted, Shows, LogsOk, Progress, Serves, Placed, Parsed, TopicsOk, PartitionsOf;
      EmptyTable();
      var ps := AllPartitions(config);
      NoneServed(shard);
      ProgressStart(table, ps, shard);
      var i := 0;
      while i < |ps|
        invariant 0 <= i <= |ps| && this.config == config
        invariant TableOk() && Progress(map[], table, ps, i, shard)
      {
        KeysOk(config);
        ProgressStep(map[], table, ps, i, shard, nextLog);
        if ps[i].shard == shard {
          Place(ps[i]);
        }
        i := i + 1;
      }
      KeysOk(config);
      ProgressEnd(map[], table, Nothing(), config, shard);
    }

    /** Emplace and configure: an existing log keeps its identity. */
    method Place(p: Partition)
      requires TableOk()
      modifies this`partitions, this`hotPartition, this`nextLog, this`table
      ensures TableOk()
      ensures table == Placed(old(table), p, old(nextLog))
    {
      hide Sorted, Shows, LogsOk;
      var at := EmplacePartitionLog(p);
      Configure(at, p);
    }

    /** A reload: refused, or every partition of this shard is updated in place or started. */
    method ApplyConfig(next: BrokerConfig) returns (ok: bool)
      requires Valid() && Parsed(next) && ValidConfig(next)
      modifies this`config, this`partitions, this`hotPartition, this`nextLog, this`table
      ensures Valid()
      ensures ok <==> ReloadAllowed(old(config), next)
      ensures config == if ok then next else old(config)
      ensures !ok ==> table == old(table)
      ensures forall k :: k in old(table) ==> k in table && table[k].log == old(table)[k].log
      ensures Grows(old(config), config)
    {
      hide Sorted, Shows, LogsOk, Progress, Serves, Placed, Parsed, TopicsOk, PartitionsOf, Kept;
      GrowsReflexive(config);
      ok := ValidateReload(config, next);
      if !ok {
        return;
      }
      ReloadKeepsBrokers(config, next);
      var ps := AllPartitions(next);
      ProgressStart(table, ps, shard);
      var i := 0;
      while i < |ps|
        invariant 0 <= i <= |ps| && config == old(config)
        invariant TableOk() && Progress(old(table), table, ps, i, shard)
      {
        KeysOk(next);
        ProgressStep(old(table), table, ps, i, shard, nextLog);
        if ps[i].shard == shard {
          var existing := FindPartitionLog(KeyOf(ps[i]));
          if existing.Some? {
            PlacedOver(table, ps[i]);
            Configure(existing.value, ps[i]);
          } else {
            Place(ps[i]);
          }
        }
        i := i + 1;
      }
      KeysOk(next);
      ProgressEnd(old(table), table, old(config), next, shard);
      LogsStay(old(table), table, ps, shard);
      config := next;
    }

    /** Any sequence of reloads, accepted or not. */
    method ApplyAll(configs: seq<BrokerConfig>)
      requires Valid() && forall i :: 0 <= i < |configs| ==> Parsed(configs[i]) && ValidConfig(configs[i])
      modifies this`config, this`partitions, this`hotPartition, this`nextLog, this`table
      ensures Valid() && Grows(old(config), config)
      ensures forall k :: k in old(table) ==> k in table && table[k].log == old(table)[k].log
    {
      GrowsReflexive(config);
      hide Parsed, ValidConfig, TableOk, Serves, ReloadAllowed, Grows;
      for i := 0 to |configs|
        invariant Valid() && Grows(old(config), config)
        invariant forall k :: k in old(table) ==> k in table && table[k].log == old(table)[k].log
      {
        ghost var was := config;
        var _ := ApplyConfig(configs[i]);
        GrowsTransitive(old(config), was, config);
      }
    }
  }

  ghost function Nothing(): BrokerConfig {
    BrokerConfig(0, "", 0, [], [])
  }

  lemma NoneServed(shard: nat)
    ensures Serves(map[], Nothing(), shard) && AllPartitions(Nothing()) == []
  {
  }

  lemma EmptyTable()
    ensures Sorted([]) && Shows([], map[]) && LogsOk(map[], 0)
  {
  }

  lemma KeysOk(c: BrokerConfig)
    requires ValidConfig(c)
    ensures DistinctKeys(AllPartitions(c))
  {
  }

  lemma PlacedOver(table: Table, p: Partition)
    requires KeyOf(p) in table
    ensures forall log :: Placed(table, p, log) == table[KeyOf(p) := table[KeyOf(p)].(config := p)]
  {
  }

  lemma LogsStay(was: Table, table: Table, ps: seq<Partition>, shard: nat)
    requires Progress(was, table, ps, |ps|, shard)
    ensures forall k :: k in was ==> k in table && table[k].log == was[k].log
  {
  }
}
