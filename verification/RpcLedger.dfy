/**
 Ownership of client-side RPC resources. Every handle, promise and bulk region is
 a token; a call or a peer owns the tokens it must still release, so that adding
 up all owners against what was ever created says that nothing is lost or released
 twice.
 */
module RpcLedger {
  import opened Wrappers
  import opened HandlePools

  type Tokens = multiset<Token>

  /** How a promise was resolved. */
  datatype Outcome =
    | Replied(payload: seq<nat>)
    | TimedOut
    | ForwardFailed
    | OutputFailed
    | HandlerFailed
    | CreateFailed
    | LookupFailed
    | Stopped

  datatype Call = Call(id: nat, peer: string, rpcId: nat, bulk: bool,
                       handle: Option<nat>, promiseDone: bool, recycle: bool, dropPeer: bool)

  /** A lookup in flight and the calls that wait for it. */
  datatype Lookup = Lookup(id: nat, waiters: seq<Call>)

  datatype Peer = Peer(addr: Option<nat>, pools: seq<Pool>, pending: Option<Lookup>)

  // ---- Who owns what --------------------------------------------------------

  ghost function CallTokens(c: Call): Tokens {
    (if c.promiseDone then multiset{} else multiset{Promise(c.id)})
    + (if c.handle.Some? then multiset{Handle(c.handle.value)} else multiset{})
    + (if c.bulk then multiset{Bulk(c.id)} else multiset{})
  }

  lemma CallResolved(c: Call)
    requires !c.promiseDone
    ensures CallTokens(c) == CallTokens(c.(promiseDone := true)) + multiset{Promise(c.id)}
  {
  }

  lemma CallGetsHandle(c: Call, h: nat)
    requires c.handle.None?
    ensures CallTokens(c.(handle := Some(h))) == CallTokens(c) + multiset{Handle(h)}
  {
  }

  lemma CallFlags(c: Call)
    ensures CallTokens(c.(dropPeer := true)) == CallTokens(c) == CallTokens(c.(recycle := true))
  {
  }

  ghost function CallsTokens(cs: seq<Call>): Tokens {
    if cs == [] then multiset{} else CallTokens(cs[0]) + CallsTokens(cs[1..])
  }

  lemma {:induction false} CallsSnoc(cs: seq<Call>, c: Call)
    ensures CallsTokens(cs + [c]) == CallsTokens(cs) + CallTokens(c)
  {
    hide CallTokens;
    if cs != [] {
      CallsSnoc(cs[1..], c);
      assert (cs + [c])[1..] == cs[1..] + [c];
    } else {
      assert (cs + [c])[1..] == [];
    }
  }

  lemma CallsCons(cs: seq<Call>, i: nat)
    requires i < |cs|
    ensures CallsTokens(cs[i..]) == CallTokens(cs[i]) + CallsTokens(cs[i + 1..])
  {
    hide CallTokens;
    assert cs[i..][1..] == cs[i + 1..];
  }

  ghost function PeerTokens(p: Peer): Tokens {
    PoolsBag(p.pools) + if p.pending.Some? then CallsTokens(p.pending.value.waiters) else multiset{}
  }

  ghost function Pick<K, V>(m: map<K, V>): (k: K)
    requires m != map[]
    ensures k in m
  {
    assert exists k :: k in m by {
      if forall k :: k !in m {
        assert false;
      }
    }
    var k :| k in m;
    k
  }

  /** The tokens of all values of a map. */
  ghost function Total<K, V(!new)>(m: map<K, V>, tokens: V -> Tokens): Tokens
    decreases |m|
  {
    if m == map[] then multiset{} else
      var k := Pick(m);
      tokens(m[k]) + Total(m - {k}, tokens)
  }

  lemma {:induction false} TotalSplit<K, V(!new)>(m: map<K, V>, tokens: V -> Tokens, k: K)
    requires k in m
    ensures Total(m, tokens) == Total(m - {k}, tokens) + tokens(m[k])
    decreases |m|
  {
    var first := Pick(m);
    if first != k {
      TotalSplit(m - {first}, tokens, k);
      TotalSplit(m - {k}, tokens, first);
      assert (m - {first}) - {k} == (m - {k}) - {first};
    }
  }

  lemma TotalPut<K, V(!new)>(m: map<K, V>, tokens: V -> Tokens, k: K, v: V)
    ensures k in m ==> Total(m[k := v], tokens) + tokens(m[k]) == Total(m, tokens) + tokens(v)
    ensures k !in m ==> Total(m[k := v], tokens) == Total(m, tokens) + tokens(v)
  {
    TotalSplit(m[k := v], tokens, k);
    if k in m {
      TotalSplit(m, tokens, k);
      assert m[k := v] - {k} == m - {k};
    } else {
      assert m[k := v] - {k} == m;
    }
  }

  ghost function Promises(outcome: map<nat, Outcome>): Tokens {
    multiset(set c | c in outcome :: Promise(c))
  }

  lemma PromisesPut(outcome: map<nat, Outcome>, c: nat, o: Outcome)
    requires c !in outcome
    ensures Promises(outcome[c := o]) == Promises(outcome) + multiset{Promise(c)}
  {
    var was, now := set k | k in outcome :: Promise(k), set k | k in outcome[c := o] :: Promise(k);
    assert now == was + {Promise(c)};
    assert Promise(c) !in was;
    assert multiset(was + {Promise(c)}) == multiset(was) + multiset{Promise(c)};
  }

  // ---- The ledger -----------------------------------------------------------

  /** Peers, calls in flight, the code now running, resolved promises and destroyed
   objects together hold everything ever created, each exactly once. */
  ghost predicate Ledger(peers: map<string, Peer>, calls: map<nat, Call>, held: Tokens,
                         outcome: map<nat, Outcome>, destroyed: Tokens, created: set<Token>) {
    && Total(peers, PeerTokens) + Total(calls, CallTokens) + held + Promises(outcome) + destroyed == multiset(created)
    && NoPromise(destroyed)
  }

  /** What a swap of one owner's tokens does to a total that is kept. */
  lemma Rebalance(a: Tokens, a': Tokens, out: Tokens, inn: Tokens, h: Tokens, h': Tokens, rest: Tokens, total: Tokens)
    requires a' + out == a + inn
    requires inn + h' == out + h
    requires a + h + rest == total
    ensures a' + h' + rest == total
  {
    forall t ensures (a' + h' + rest)[t] == total[t] {
      assert (a' + out)[t] == (a + inn)[t];
      assert (inn + h')[t] == (out + h)[t];
      assert (a + h + rest)[t] == total[t];
    }
  }

  lemma LedgerPeer(peers: map<string, Peer>, calls: map<nat, Call>, held: Tokens,
                   outcome: map<nat, Outcome>, destroyed: Tokens, created: set<Token>,
                   p: string, v: Peer, held': Tokens)
    requires Ledger(peers, calls, held, outcome, destroyed, created)
    requires PeerTokens(v) + held' == (if p in peers then PeerTokens(peers[p]) else multiset{}) + held
    ensures Ledger(peers[p := v], calls, held', outcome, destroyed, created)
  {
    hide PeerTokens, CallTokens, Total, Promises;
    TotalPut(peers, PeerTokens, p, v);
    var rest := Total(calls, CallTokens) + Promises(outcome) + destroyed;
    var was := if p in peers then PeerTokens(peers[p]) else multiset{};
    assert Total(peers, PeerTokens) + held + rest == multiset(created);
    Rebalance(Total(peers, PeerTokens), Total(peers[p := v], PeerTokens), was, PeerTokens(v), held, held', rest,
              multiset(created));
  }

  lemma LedgerDropPeer(peers: map<string, Peer>, calls: map<nat, Call>, held: Tokens,
                       outcome: map<nat, Outcome>, destroyed: Tokens, created: set<Token>, p: string)
    requires Ledger(peers, calls, held, outcome, destroyed, created)
    requires p in peers
    ensures Ledger(peers - {p}, calls, held + PeerTokens(peers[p]), outcome, destroyed, created)
  {
    hide PeerTokens, CallTokens, Total, Promises;
    TotalSplit(peers, PeerTokens, p);
    var rest := Total(calls, CallTokens) + Promises(outcome) + destroyed;
    assert Total(peers, PeerTokens) + held + rest == multiset(created);
    Rebalance(Total(peers, PeerTokens), Total(peers - {p}, PeerTokens), PeerTokens(peers[p]), multiset{},
              held, held + PeerTokens(peers[p]), rest, multiset(created));
  }

  /** A handle in hand is on no call in flight; the call that takes it there keeps the ledger. */
  lemma LedgerAddCall(peers: map<string, Peer>, calls: map<nat, Call>, held: Tokens,
                      outcome: map<nat, Outcome>, destroyed: Tokens, created: set<Token>, h: nat, c: Call)
    requires Ledger(peers, calls, held + CallTokens(c), outcome, destroyed, created)
    requires c.handle == Some(h) && (h in calls ==> calls[h].handle == Some(h))
    ensures h !in calls
    ensures Ledger(peers, calls[h := c], held, outcome, destroyed, created)
  {
    hide PeerTokens, CallTokens, Total, Promises;
    var all, t := Total(calls, CallTokens), Handle(h);
    var rest := Total(peers, PeerTokens) + Promises(outcome) + destroyed;
    assert all + (held + CallTokens(c)) + rest == multiset(created);
    CarriesHandle(c, h);
    assert all[t] == 0 by {
      assert (all + (held + CallTokens(c)) + rest)[t] >= all[t] + 1;
      assert multiset(created)[t] <= 1;
    }
    if h in calls {
      TotalHolds(calls, CallTokens, h, t);
      CarriesHandle(calls[h], h);
      assert false;
    }
    TotalPut(calls, CallTokens, h, c);
    Rebalance(all, Total(calls[h := c], CallTokens), multiset{}, CallTokens(c), held + CallTokens(c), held, rest,
              multiset(created));
  }

  lemma LedgerTakeCall(peers: map<string, Peer>, calls: map<nat, Call>, held: Tokens,
                       outcome: map<nat, Outcome>, destroyed: Tokens, created: set<Token>, c: nat)
    requires Ledger(peers, calls, held, outcome, destroyed, created)
    requires c in calls
    ensures Ledger(peers, calls - {c}, held + CallTokens(calls[c]), outcome, destroyed, created)
  {
    hide PeerTokens, CallTokens, Total, Promises;
    TotalSplit(calls, CallTokens, c);
    var rest := Total(peers, PeerTokens) + Promises(outcome) + destroyed;
    assert Total(calls, CallTokens) + held + rest == multiset(created);
    Rebalance(Total(calls, CallTokens), Total(calls - {c}, CallTokens), CallTokens(calls[c]), multiset{},
              held, held + CallTokens(calls[c]), rest, multiset(created));
  }

  /** A promise still in hand was not resolved before; resolving it moves it. */
  lemma LedgerResolve(peers: map<string, Peer>, calls: map<nat, Call>, held: Tokens,
                      outcome: map<nat, Outcome>, destroyed: Tokens, created: set<Token>, c: nat, o: Outcome)
    requires Ledger(peers, calls, held + multiset{Promise(c)}, outcome, destroyed, created)
    ensures c !in outcome
    ensures Ledger(peers, calls, held, outcome[c := o], destroyed, created)
  {
    hide PeerTokens, CallTokens, Total;
    var owners := Total(peers, PeerTokens) + Total(calls, CallTokens);
    var all := owners + (held + multiset{Promise(c)}) + Promises(outcome) + destroyed;
    assert all[Promise(c)] >= 1 + Promises(outcome)[Promise(c)] by {
      hide Promises;
      assert (held + multiset{Promise(c)})[Promise(c)] >= 1;
    }
    assert multiset(created)[Promise(c)] <= 1;
    assert Promise(c) !in Promises(outcome);
    PromisesPut(outcome, c, o);
    hide Promises;
    assert owners + held + (Promises(outcome) + multiset{Promise(c)}) + destroyed
        == owners + (held + multiset{Promise(c)}) + Promises(outcome) + destroyed;
  }

  lemma LedgerDestroy(peers: map<string, Peer>, calls: map<nat, Call>, held: Tokens,
                      outcome: map<nat, Outcome>, destroyed: Tokens, created: set<Token>, gone: Tokens)
    requires Ledger(peers, calls, held + gone, outcome, destroyed, created)
    requires NoPromise(gone)
    ensures Ledger(peers, calls, held, outcome, destroyed + gone, created)
  {
    hide PeerTokens, CallTokens, Total, Promises;
    var owners := Total(peers, PeerTokens) + Total(calls, CallTokens);
    assert owners + held + Promises(outcome) + (destroyed + gone)
        == owners + (held + gone) + Promises(outcome) + destroyed;
  }

  lemma LedgerCreate(peers: map<string, Peer>, calls: map<nat, Call>, held: Tokens,
                     outcome: map<nat, Outcome>, destroyed: Tokens, created: set<Token>, t: Token)
    requires Ledger(peers, calls, held, outcome, destroyed, created)
    requires t !in created
    ensures Ledger(peers, calls, held + multiset{t}, outcome, destroyed, created + {t})
  {
    hide PeerTokens, CallTokens, Total, Promises;
    var owners := Total(peers, PeerTokens) + Total(calls, CallTokens);
    assert multiset(created + {t}) == multiset(created) + multiset{t};
    assert owners + (held + multiset{t}) + Promises(outcome) + destroyed
        == (owners + held + Promises(outcome) + destroyed) + multiset{t};
  }

  // ---- What a balanced ledger means -----------------------------------------

  /** Between events a created token has exactly one owner or was released exactly once. */
  lemma ExactlyOnePlace(peers: map<string, Peer>, calls: map<nat, Call>,
                        outcome: map<nat, Outcome>, destroyed: Tokens, created: set<Token>, t: Token)
    requires Ledger(peers, calls, multiset{}, outcome, destroyed, created)
    ensures Total(peers, PeerTokens)[t] + Total(calls, CallTokens)[t] + Promises(outcome)[t] + destroyed[t]
         == if t in created then 1 else 0
  {
    hide PeerTokens, CallTokens, Total, Promises;
    var a, b, c := Total(peers, PeerTokens), Total(calls, CallTokens), Promises(outcome);
    assert (a + b + multiset{} + c + destroyed)[t] == a[t] + b[t] + c[t] + destroyed[t];
  }

  lemma {:induction false} TotalHolds<K, V(!new)>(m: map<K, V>, tokens: V -> Tokens, k: K, t: Token)
    requires k in m
    ensures tokens(m[k])[t] <= Total(m, tokens)[t]
  {
    TotalSplit(m, tokens, k);
  }

  /** A handle on a call in flight is on no other call, in no pool and not destroyed. */
  lemma NoSharing(peers: map<string, Peer>, calls: map<nat, Call>,
                  outcome: map<nat, Outcome>, destroyed: Tokens, created: set<Token>, c: nat, h: nat)
    requires Ledger(peers, calls, multiset{}, outcome, destroyed, created)
    requires c in calls && calls[c].handle == Some(h)
    ensures forall d :: d in calls && d != c ==> calls[d].handle != Some(h)
    ensures forall p :: p in peers ==> Handle(h) !in PoolsBag(peers[p].pools)
    ensures Handle(h) in created && Handle(h) !in destroyed
  {
    hide PeerTokens, CallTokens, Total, Ledger, PoolsBag, Promises;
    var t := Handle(h);
    ExactlyOnePlace(peers, calls, outcome, destroyed, created, t);
    TotalSplit(calls, CallTokens, c);
    CarriesHandle(calls[c], h);
    assert Total(calls, CallTokens)[t] == Total(calls - {c}, CallTokens)[t] + CallTokens(calls[c])[t];
    assert Total(calls - {c}, CallTokens)[t] == 0 && Total(peers, PeerTokens)[t] == 0;
    forall d | d in calls && d != c ensures calls[d].handle != Some(h) {
      assert d in calls - {c} && (calls - {c})[d] == calls[d];
      TotalHolds(calls - {c}, CallTokens, d, t);
      if calls[d].handle == Some(h) {
        CarriesHandle(calls[d], h);
      }
    }
    forall p | p in peers ensures t !in PoolsBag(peers[p].pools) {
      TotalHolds(peers, PeerTokens, p, t);
      PeerHoldsPools(peers[p], t);
    }
  }

  /** Once no peer and no call is left, every promise is resolved, exactly once, and every
   handle and bulk region destroyed, exactly once. */
  lemma ShutdownReleasesAll(outcome: map<nat, Outcome>, destroyed: Tokens, created: set<Token>, t: Token)
    requires Ledger(map[], map[], multiset{}, outcome, destroyed, created)
    ensures t.Promise? ==> (t in created <==> t.id in outcome) && t !in destroyed
    ensures !t.Promise? ==> destroyed[t] == if t in created then 1 else 0
  {
    ExactlyOnePlace(map[], map[], outcome, destroyed, created, t);
  }

  lemma CarriesHandle(c: Call, h: nat)
    requires c.handle == Some(h)
    ensures CallTokens(c)[Handle(h)] == 1
  {
  }

  lemma PeerHoldsPools(p: Peer, t: Token)
    ensures PeerTokens(p)[t] >= PoolsBag(p.pools)[t]
  {
  }
}
