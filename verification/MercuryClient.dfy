/**
 The client side of the RPC layer. A call waits for its peer's address in a
 shared lookup, goes out on a pooled or new handle, and ends in a callback that
 may race a timeout; a transport failure drops the peer and shutdown fails every
 waiter. Foreign calls are parameters: each may succeed or fail.

 The resolved address of a lookup is taken once, before the waiters are started.
 */
module MercuryClient {
  import opened Wrappers
  import opened HandlePools
  import opened RpcLedger
  import opened RpcPeers

  class Client {
    var running: bool
    var peers: map<string, Peer>
    var calls: map<nat, Call>
    var issued: map<nat, string>
    var orphaned: set<nat>
    var outcome: map<nat, Outcome>
    var nextId: nat
    ghost var destroyed: Tokens
    ghost var created: set<Token>

    ghost predicate Fresh()
      reads this
    {
      && (forall t :: t in created ==> t.id < nextId)
      && (forall l :: l in issued ==> l < nextId)
    }

    ghost predicate Valid()
      reads this
    {
      && PeersOk(peers) && CallsOk(calls) && DoneOk(calls, outcome) && LookupsOk(peers, issued, orphaned) && Fresh()
      && (running || peers == map[])
      && (running ==> orphaned == {})
    }

    /** Nothing is lost: `held` is what the running code has in hand. */
    ghost predicate Balanced(held: Tokens)
      reads this
    {
      Ledger(peers, calls, held, outcome, destroyed, created)
    }

    constructor ()
      ensures Valid() && Balanced(multiset{})
      ensures running && peers == map[] && calls == map[] && outcome == map[]
    {
      running := true;
      peers, calls, issued, orphaned, outcome, nextId := map[], map[], map[], {}, map[], 0;
      destroyed, created := multiset{}, {};
    }

    // ---- Release -------------------------------------------------------------

    method Resolve(c: nat, o: Outcome, ghost held: Tokens)
      requires Balanced(held + multiset{Promise(c)})
      modifies this`outcome
      ensures c !in old(outcome) && outcome == old(outcome)[c := o]
      ensures Balanced(held)
    {
      LedgerResolve(peers, calls, held, outcome, destroyed, created, c, o);
      outcome := outcome[c := o];
    }

    ghost method Destroy(gone: Tokens, held: Tokens)
      requires Balanced(held + gone) && NoPromise(gone)
      modifies this`destroyed
      ensures destroyed == old(destroyed) + gone
      ensures Balanced(held)
    {
      LedgerDestroy(peers, calls, held, outcome, destroyed, created, gone);
      destroyed := destroyed + gone;
    }

    /** A finished handle goes to its peer's pool if there is one with room. */
    method RecycleHandle(peer: string, rpcId: nat, h: nat, ghost held: Tokens)
      requires PeersOk(peers) && Balanced(held + multiset{Handle(h)})
      modifies this`peers, this`destroyed
      ensures PeersOk(peers) && Balanced(held)
      ensures Recycled(old(peers), peers, peer, rpcId, h)
      ensures destroyed == old(destroyed) + if Fits(old(peers), peer, rpcId) then multiset{} else multiset{Handle(h)}
      ensures old(peers) == map[] ==> peers == map[]
      ensures SamePending(old(peers), peers)
    {
      hide PoolsOk, PoolsBag, PooledFor, Ledger, LookupOk;
      if peer !in peers {
        Destroy(multiset{Handle(h)}, held);
        return;
      }
      var v := peers[peer];
      var pools, kept := PutHandle(v.pools, rpcId, h);
      if !kept {
        Destroy(multiset{Handle(h)}, held);
        return;
      }
      PeerPools(v, pools, multiset{Handle(h)});
      LedgerPeer(peers, calls, held + multiset{Handle(h)}, outcome, destroyed, created, peer, v.(pools := pools), held);
      peers := peers[peer := v.(pools := pools)];
    }

    /** Drop a peer's transport state; a pending lookup keeps the entry itself. */
    method DropPeer(peer: string, ghost held: Tokens)
      requires PeersOk(peers) && Balanced(held)
      modifies this`peers, this`destroyed
      ensures PeersOk(peers) && Balanced(held)
      ensures peers == Dropped(old(peers), peer)
      ensures destroyed == old(destroyed) + if peer in old(peers) then PoolsBag(old(peers)[peer].pools) else multiset{}
      ensures old(peers) == map[] ==> peers == map[]
      ensures SamePending(old(peers), peers)
    {
      hide PeersOk, Ledger, PeerTokens;
      DroppedKeeps(peers, peer);
      if peer !in peers {
        return;
      }
      var v := peers[peer];
      ghost var gone := PoolsBag(v.pools);
      if v.pending.Some? {
        DropPools(v, held);
        LedgerPeer(peers, calls, held, outcome, destroyed, created, peer, v.(addr := None, pools := []), held + gone);
        peers := peers[peer := v.(addr := None, pools := [])];
      } else {
        OnlyPools(v);
        LedgerDropPeer(peers, calls, held, outcome, destroyed, created, peer);
        peers := peers - {peer};
      }
      PoolsHoldHandles(v.pools);
      Destroy(gone, held);
    }

    /** Release a call whose promise is resolved. */
    method CleanupClient(call: Call, ghost held: Tokens)
      requires PeersOk(peers) && Balanced(held + CallTokens(call)) && call.promiseDone
      modifies this`peers, this`destroyed
      ensures PeersOk(peers) && Balanced(held)
      ensures old(peers) == map[] ==> peers == map[]
      ensures SamePending(old(peers), peers)
      ensures !call.recycle ==> peers == if call.dropPeer then Dropped(old(peers), call.peer) else old(peers)
      ensures call.recycle && !call.dropPeer && call.handle.Some? ==>
                Recycled(old(peers), peers, call.peer, call.rpcId, call.handle.value)
    {
      hide PeersOk, Ledger, PoolsBag, Recycled, Fits;
      ghost var handle := if call.handle.Some? then multiset{Handle(call.handle.value)} else multiset{};
      ghost var bulk := if call.bulk then multiset{Bulk(call.id)} else multiset{};
      assert held + CallTokens(call) == (held + handle) + bulk;
      Destroy(bulk, held + handle);
      if call.handle.Some? {
        if call.recycle {
          RecycleHandle(call.peer, call.rpcId, call.handle.value, held);
        } else {
          Destroy(handle, held);
        }
      } else {
        assert held + handle == held;
      }
      if call.dropPeer {
        DropPeer(call.peer, held);
      }
    }

    /** Resolve a call with an error, unless it was resolved before, and release it. */
    method FailClient(call: Call, o: Outcome, ghost held: Tokens)
      requires PeersOk(peers) && Balanced(held + CallTokens(call)) && !call.recycle
      modifies this`peers, this`destroyed, this`outcome
      ensures PeersOk(peers) && Balanced(held)
      ensures SamePending(old(peers), peers)
      ensures peers == if call.dropPeer then Dropped(old(peers), call.peer) else old(peers)
      ensures !call.promiseDone ==> call.id !in old(outcome)
      ensures outcome == if call.promiseDone then old(outcome) else old(outcome)[call.id := o]
    {
      hide PeersOk, Ledger, CallTokens, PoolsBag;
      var done := call.(promiseDone := true);
      if !call.promiseDone {
        CallResolved(call);
        assert held + CallTokens(call) == (held + CallTokens(done)) + multiset{Promise(call.id)};
        Resolve(call.id, o, held + CallTokens(done));
      }
      CleanupClient(done, held);
    }

    // ---- Start ---------------------------------------------------------------

    /** The entry of a peer, made empty if missing. */
    method EnsurePeer(peer: string, ghost held: Tokens)
      requires PeersOk(peers) && Balanced(held)
      modifies this`peers
      ensures PeersOk(peers) && Balanced(held)
      ensures peer in peers
      ensures peers == if peer in old(peers) then old(peers) else old(peers)[peer := Peer(None, [], None)]
      ensures SamePending(old(peers), peers)
    {
      if peer !in peers {
        hide Ledger, PoolsOk, LookupOk;
        EmptyPeer();
        LedgerPeer(peers, calls, held, outcome, destroyed, created, peer, Peer(None, [], None), held);
        peers := peers[peer := Peer(None, [], None)];
      }
    }

    method TakeHandle(peer: string, rpcId: nat, ghost held: Tokens) returns (h: Option<nat>)
      requires PeersOk(peers) && Balanced(held) && peer in peers
      modifies this`peers
      ensures PeersOk(peers) && SamePending(old(peers), peers)
      ensures Balanced(held + if h.Some? then multiset{Handle(h.value)} else multiset{})
      ensures h.Some? <==> PooledFor(old(peers)[peer].pools, rpcId) != []
      ensures peer in peers && peers == old(peers)[peer := old(peers)[peer].(pools := peers[peer].pools)]
      ensures h.Some? ==> PooledFor(old(peers)[peer].pools, rpcId) == PooledFor(peers[peer].pools, rpcId) + [h.value]
    {
      hide Ledger, PoolsOk, LookupOk, PoolsBag, PooledFor, PeerTokens;
      var v := peers[peer];
      var rest;
      rest, h := TakeCachedHandle(v.pools, rpcId);
      if h.Some? {
        PeerPools(v.(pools := rest), v.pools, multiset{Handle(h.value)});
        LedgerPeer(peers, calls, held, outcome, destroyed, created, peer, v.(pools := rest),
                   held + multiset{Handle(h.value)});
      } else {
        assert held + multiset{} == held;
        assert v.(pools := rest) == v && peers[peer := v] == peers;
      }
      peers := peers[peer := v.(pools := rest)];
    }

    method CreateHandle(ghost held: Tokens) returns (h: nat)
      requires Fresh() && Balanced(held)
      modifies this`nextId, this`created
      ensures Fresh() && Balanced(held + multiset{Handle(h)})
      ensures nextId > old(nextId) && old(created) <= created && Handle(h) in created - old(created)
    {
      hide Ledger;
      h := nextId;
      LedgerCreate(peers, calls, held, outcome, destroyed, created, Handle(h));
      created, nextId := created + {Handle(h)}, nextId + 1;
    }

    /** A handle for a call: a pooled one that resets, else a new one. */
    method ObtainHandle(peer: string, rpcId: nat, hg: HgResults, ghost held: Tokens) returns (h: Option<nat>)
      requires PeersOk(peers) && Fresh() && Balanced(held) && peer in peers
      modifies this`peers, this`destroyed, this`nextId, this`created
      ensures PeersOk(peers) && Fresh() && SamePending(old(peers), peers) && nextId >= old(nextId)
                && old(created) <= created
      ensures peer in peers && peers == old(peers)[peer := old(peers)[peer].(pools := peers[peer].pools)]
      ensures Balanced(held + if h.Some? then multiset{Handle(h.value)} else multiset{})
      ensures h.Some? <==> (PooledFor(old(peers)[peer].pools, rpcId) != [] && hg.resetOk) || hg.createOk
    {
      hide Ledger, PeersOk, PooledFor;
      h := TakeHandle(peer, rpcId, held);
      if h.Some? && !hg.resetOk {
        Destroy(multiset{Handle(h.value)}, held);
        h := None;
        assert held + multiset{} == held;
      }
      if h.None? {
        assert held + multiset{} == held;
        if hg.createOk {
          var made := CreateHandle(held);
          h := Some(made);
        }
      }
    }

    /** Send a call whose peer's address is known; a failed send drops the peer. */
    method StartClientForward(call: Call, hg: HgResults, ghost held: Tokens) returns (sent: Option<nat>)
      requires PeersOk(peers) && CallsOk(calls) && Fresh() && Balanced(held + CallTokens(call))
      requires call.handle.None? && !call.recycle && !call.dropPeer
      modifies this`peers, this`calls, this`outcome, this`destroyed, this`nextId, this`created
      ensures PeersOk(peers) && CallsOk(calls) && Fresh() && Balanced(held)
      ensures SamePending(old(peers), peers) && nextId >= old(nextId) && old(created) <= created
      ensures call.promiseDone ==> sent.None? && calls == old(calls) && outcome == old(outcome)
      ensures !call.promiseDone && sent.None? ==>
                && calls == old(calls) && call.id !in old(outcome)
                && outcome == old(outcome)[call.id :=
                     if CanObtain(old(peers), call, hg) then ForwardFailed else CreateFailed]
                && (call.peer in peers ==> peers[call.peer].addr.None? && peers[call.peer].pools == [])
      ensures sent.Some? ==> sent.value !in old(calls) && calls == old(calls)[sent.value := call.(handle := sent)]
      ensures sent.Some? ==> outcome == old(outcome)
      ensures sent.Some? && call.peer in old(peers) ==>
                call.peer in peers && peers[call.peer].addr == old(peers)[call.peer].addr
      ensures !call.promiseDone ==> (sent.Some? <==> hg.forwardOk && CanObtain(old(peers), call, hg))
    {
      hide Ledger, PeersOk, CallTokens, PooledFor, PoolsBag;
      if call.promiseDone {
        CleanupClient(call, held);
        return None;
      }
      EnsurePeer(call.peer, held + CallTokens(call));
      NonePooled(call.rpcId);
      var h := ObtainHandle(call.peer, call.rpcId, hg, held + CallTokens(call));
      if h.None? {
        assert (held + CallTokens(call)) + multiset{} == held + CallTokens(call);
        CallFlags(call);
        FailClient(call.(dropPeer := true), CreateFailed, held);
        return None;
      }
      var ready := call.(handle := h);
      CallGetsHandle(call, h.value);
      assert (held + CallTokens(call)) + multiset{Handle(h.value)} == held + CallTokens(ready);
      if !hg.forwardOk {
        CallFlags(ready);
        FailClient(ready.(dropPeer := true), ForwardFailed, held);
        return None;
      }
      LedgerAddCall(peers, calls, held, outcome, destroyed, created, h.value, ready);
      calls := calls[h.value := ready];
      return h;
    }

    // ---- Events --------------------------------------------------------------

    /** The lookup of a peer, taken out; an entry with nothing else in it goes. */
    method TakePendingLookup(peer: string, ghost held: Tokens) returns (l: Option<Lookup>)
      requires PeersOk(peers) && Balanced(held)
      modifies this`peers
      ensures PeersOk(peers)
      ensures l == PendingAt(old(peers), peer)
      ensures l.Some? ==> LookupOk(peer, l.value) && (peer in peers ==> peers[peer].addr.None?)
      ensures peers == LookupTaken(old(peers), peer)
      ensures Balanced(held + if l.Some? then CallsTokens(l.value.waiters) else multiset{})
    {
      hide Ledger, LookupOk, PoolsOk, CallsTokens;
      if peer !in peers || peers[peer].pending.None? {
        assert held + multiset{} == held;
        return None;
      }
      var v := peers[peer];
      l := v.pending;
      ghost var waiting := CallsTokens(l.value.waiters);
      assert PeerTokens(v) == PoolsBag(v.pools) + waiting;
      assert PeerTokens(v.(pending := None)) == PoolsBag(v.pools);
      hide PeerTokens;
      if v.addr.None? && v.pools == [] {
        LedgerDropPeer(peers, calls, held, outcome, destroyed, created, peer);
        assert PoolsBag([]) == multiset{};
        assert held + PeerTokens(v) == held + waiting;
        peers := peers - {peer};
      } else {
        assert PoolsBag(v.pools) + (held + waiting) == (PoolsBag(v.pools) + waiting) + held;
        LedgerPeer(peers, calls, held, outcome, destroyed, created, peer, v.(pending := None), held + waiting);
        peers := peers[peer := v.(pending := None)];
      }
    }

    /** A timer that fires resolves the promise, if nothing else did; the call stays in flight. */
    method Timeout(h: nat)
      requires Valid() && Balanced(multiset{}) && h in calls
      modifies this`calls, this`outcome
      ensures Valid() && Balanced(multiset{})
      ensures calls == old(calls)[h := old(calls)[h].(promiseDone := true)]
      ensures var c := old(calls)[h];
              outcome == if c.promiseDone then old(outcome) else old(outcome)[c.id := TimedOut]
      ensures Extends(old(outcome), outcome)
    {
      hide Ledger, PeersOk, LookupsOk, CallTokens;
      var call := calls[h];
      if call.promiseDone {
        assert calls[h := call] == calls;
        return;
      }
      var done := call.(promiseDone := true);
      LedgerTakeCall(peers, calls, multiset{}, outcome, destroyed, created, h);
      calls := calls - {h};
      CallResolved(call);
      assert multiset{} + CallTokens(call) == (multiset{} + CallTokens(done)) + multiset{Promise(call.id)};
      Resolve(call.id, TimedOut, multiset{} + CallTokens(done));
      LedgerAddCall(peers, calls, multiset{}, outcome, destroyed, created, h, done);
      assert calls[h := done] == old(calls)[h := done];
      calls := calls[h := done];
    }

    /** The forward callback: resolve unless timed out, then recycle the handle or drop the peer. */
    method ForwardCb(h: nat, reply: Reply)
      requires Valid() && Balanced(multiset{}) && h in calls
      modifies this`peers, this`calls, this`outcome, this`destroyed
      ensures Valid() && Balanced(multiset{})
      ensures calls == old(calls) - {h}
      ensures var c := old(calls)[h];
              outcome == if c.promiseDone then old(outcome) else old(outcome)[c.id := OutcomeOf(reply)]
      ensures Extends(old(outcome), outcome) && old(calls)[h].id in outcome
      ensures var c := old(calls)[h];
              !c.promiseDone ==>
                && (forall p :: outcome[c.id] == Replied(p) <==> reply == Payload(p))
                && (outcome[c.id] == HandlerFailed <==> reply == RemoteError)
                && (outcome[c.id] == OutputFailed <==> reply == NoOutput)
                && (outcome[c.id] == ForwardFailed <==> reply == TransportError)
      ensures var c := old(calls)[h];
              if reply.TransportError? then peers == Dropped(old(peers), c.peer)
              else Recycled(old(peers), peers, c.peer, c.rpcId, h)
    {
      hide Ledger, PeersOk, LookupsOk, CallTokens, PoolsBag, Fits;
      var call := calls[h];
      LedgerTakeCall(peers, calls, multiset{}, outcome, destroyed, created, h);
      calls := calls - {h};
      var done := call.(promiseDone := true);
      if !call.promiseDone {
        CallResolved(call);
        assert multiset{} + CallTokens(call) == (multiset{} + CallTokens(done)) + multiset{Promise(call.id)};
        Resolve(call.id, OutcomeOf(reply), multiset{} + CallTokens(done));
      }
      CallFlags(done);
      if reply.TransportError? {
        CleanupClient(done.(dropPeer := true), multiset{});
      } else {
        CleanupClient(done.(recycle := true), multiset{});
      }
      LookupsKeep(old(peers), peers, issued, orphaned);
    }

    method FailWaiters(peer: string, waiters: seq<Call>, o: Outcome)
      requires PeersOk(peers) && Balanced(CallsTokens(waiters)) && LookupOk(peer, Lookup(0, waiters))
      modifies this`peers, this`destroyed, this`outcome
      ensures Balanced(multiset{}) && peers == old(peers)
      ensures Extends(old(outcome), outcome) && Adds(old(outcome), outcome, {o})
      ensures forall i :: 0 <= i < |waiters| ==> waiters[i].id in outcome && outcome[waiters[i].id] == o
    {
      hide Ledger, PeersOk, CallTokens, CallsTokens;
      var i := 0;
      assert waiters[0..] == waiters;
      while i < |waiters|
        invariant 0 <= i <= |waiters|
        invariant peers == old(peers) && Balanced(CallsTokens(waiters[i..]))
        invariant Extends(old(outcome), outcome) && Adds(old(outcome), outcome, {o})
        invariant forall k :: 0 <= k < i ==> waiters[k].id in outcome && outcome[waiters[k].id] == o
      {
        CallsCons(waiters, i);
        assert CallsTokens(waiters[i..]) == CallsTokens(waiters[i + 1..]) + CallTokens(waiters[i]);
        assert WaiterOk(peer, Lookup(0, waiters).waiters[i]);
        FailClient(waiters[i], o, CallsTokens(waiters[i + 1..]));
        i := i + 1;
      }
      NoCalls(waiters[i..]);
    }

    /** The fan-out of a resolved lookup: every waiter goes on the wire or fails. */
    method StartWaiters(peer: string, waiters: seq<Call>, hg: nat -> HgResults)
      requires PeersOk(peers) && CallsOk(calls) && DoneOk(calls, outcome) && Fresh()
      requires Balanced(CallsTokens(waiters)) && LookupOk(peer, Lookup(0, waiters))
      modifies this`peers, this`calls, this`outcome, this`destroyed, this`nextId, this`created
      ensures PeersOk(peers) && CallsOk(calls) && DoneOk(calls, outcome) && Fresh() && Balanced(multiset{})
      ensures SamePending(old(peers), peers) && nextId >= old(nextId)
      ensures Extends(old(outcome), outcome) && Continues(old(calls), calls) && Adds(old(outcome), outcome, NOT_SENT)
      ensures forall i :: 0 <= i < |waiters| ==> Gone(calls, outcome, waiters[i].id)
      ensures outcome == old(outcome) && peer in old(peers) ==>
                peer in peers && peers[peer].addr == old(peers)[peer].addr
    {
      hide Ledger, PeersOk, CallTokens, CallsTokens, CanObtain;
      var i := 0;
      assert waiters[0..] == waiters;
      while i < |waiters|
        invariant 0 <= i <= |waiters|
        invariant PeersOk(peers) && CallsOk(calls) && DoneOk(calls, outcome) && Fresh()
        invariant Balanced(CallsTokens(waiters[i..]))
        invariant SamePending(old(peers), peers) && nextId >= old(nextId)
        invariant Extends(old(outcome), outcome) && Continues(old(calls), calls)
        invariant Adds(old(outcome), outcome, NOT_SENT)
        invariant forall k :: 0 <= k < i ==> Gone(calls, outcome, waiters[k].id)
        invariant outcome == old(outcome) && peer in old(peers) ==>
                  peer in peers && peers[peer].addr == old(peers)[peer].addr
      {
        CallsCons(waiters, i);
        assert CallsTokens(waiters[i..]) == CallsTokens(waiters[i + 1..]) + CallTokens(waiters[i]);
        assert WaiterOk(peer, Lookup(0, waiters).waiters[i]);
        var sent := StartClientForward(waiters[i], hg(i), CallsTokens(waiters[i + 1..]));
        assert Gone(calls, outcome, waiters[i].id) by {
          if sent.Some? {
            assert calls[sent.value].id == waiters[i].id;
          }
        }
        i := i + 1;
      }
      NoCalls(waiters[i..]);
    }

    /** A new promise, and a bulk region for a large request. */
    method NewCall(peer: string, rpcId: nat, large: bool) returns (call: Call)
      requires Fresh() && Balanced(multiset{})
      modifies this`nextId, this`created
      ensures Fresh() && Balanced(multiset{} + CallTokens(call)) && nextId == old(nextId) + 1
      ensures call == Call(old(nextId), peer, rpcId, large, None, false, false, false)
      ensures Promise(call.id) !in old(created) && Promise(call.id) in created
    {
      hide Ledger;
      call := Call(nextId, peer, rpcId, large, None, false, false, false);
      LedgerCreate(peers, calls, multiset{}, outcome, destroyed, created, Promise(nextId));
      created := created + {Promise(nextId)};
      ghost var held := multiset{} + multiset{Promise(nextId)};
      if large {
        LedgerCreate(peers, calls, held, outcome, destroyed, created, Bulk(nextId));
        created := created + {Bulk(nextId)};
        assert held + multiset{Bulk(nextId)} == multiset{} + CallTokens(call);
      } else {
        assert held == multiset{} + CallTokens(call);
      }
      nextId := nextId + 1;
    }

    /** A lookup callback takes its own lookup: its waiters fail or are started; one orphaned by
     shutdown has none. */
    method LookupCb(l: nat, addr: Option<nat>, hg: nat -> HgResults)
      requires Valid() && Balanced(multiset{}) && l in issued
      modifies this
      ensures Valid() && Balanced(multiset{}) && running == old(running)
      ensures issued == old(issued) - {l} && orphaned == old(orphaned) - {l}
      ensures Extends(old(outcome), outcome) && Continues(old(calls), calls) && Adds(old(outcome), outcome, NOT_SENT)
      ensures l in old(orphaned) ==> outcome == old(outcome) && calls == old(calls) && peers == old(peers)
      ensures l !in old(orphaned) ==> PendingIs(old(peers), old(issued)[l], l)
      ensures l !in old(orphaned) ==>
                forall i :: 0 <= i < |old(peers)[old(issued)[l]].pending.value.waiters| ==>
                  var c := old(peers)[old(issued)[l]].pending.value.waiters[i].id;
                  if addr.None? then c in outcome && outcome[c] == LookupFailed else Gone(calls, outcome, c)
      ensures l !in old(orphaned) && addr.Some? && outcome == old(outcome) ==>
                old(issued)[l] in peers && peers[old(issued)[l]].addr == addr
    {
      hide Ledger, PeersOk, LookupsOk, CallsTokens, LookupOk;
      LookupOwner(peers, issued, orphaned, l, running);
      var peer := issued[l];
      var taken := TakePendingLookup(peer, multiset{});
      LookupsTake(old(peers), issued, orphaned, l);
      issued := issued - {l};
      if taken.None? {
        ghost var none: Tokens := multiset{};
        assert none + none == none;
        orphaned := orphaned - {l};
        return;
      }
      var waiters := taken.value.waiters;
      assert orphaned - {l} == orphaned && running;
      assert multiset{} + CallsTokens(waiters) == CallsTokens(waiters);
      WaitersOk(peer, taken.value);
      if addr.None? {
        FailWaiters(peer, waiters, LookupFailed);
        return;
      }
      EnsurePeer(peer, CallsTokens(waiters));
      if peers[peer].addr.None? {
        CacheAddr(peer, addr, CallsTokens(waiters));
      }
      StartWaiters(peer, waiters, hg);
      LookupsKeep(LookupTaken(old(peers), peer), peers, issued, orphaned);
    }

    method CacheAddr(peer: string, addr: Option<nat>, ghost held: Tokens)
      requires PeersOk(peers) && Balanced(held) && peer in peers && peers[peer].pending.None?
      modifies this`peers
      ensures PeersOk(peers) && Balanced(held) && SamePending(old(peers), peers)
      ensures peers == old(peers)[peer := old(peers)[peer].(addr := addr)]
    {
      hide Ledger, PoolsOk;
      LedgerPeer(peers, calls, held, outcome, destroyed, created, peer, peers[peer].(addr := addr), held);
      peers := peers[peer := peers[peer].(addr := addr)];
    }

    /** Put a call at the end of a lookup's queue, a new one if the peer has none. */
    method Enqueue(call: Call)
      requires PeersOk(peers) && Balanced(multiset{} + CallTokens(call)) && call.peer in peers
      requires WaiterOk(call.peer, call) && peers[call.peer].addr.None?
      modifies this`peers
      ensures PeersOk(peers) && Balanced(multiset{})
      ensures var v := old(peers)[call.peer];
              peers == old(peers)[call.peer := v.(pending := Some(Queued(v.pending, call)))]
    {
      hide Ledger, PoolsOk, CallTokens, CallsTokens;
      var v := peers[call.peer];
      var l := Queued(v.pending, call);
      QueuedOk(v, call);
      LedgerPeer(peers, calls, multiset{} + CallTokens(call), outcome, destroyed, created, call.peer,
                 v.(pending := Some(l)), multiset{});
      peers := peers[call.peer := v.(pending := Some(l))];
    }

    /** A remote call: sent at once when the address is known, else queued on the one lookup
     for that peer, which it starts if need be. */
    method Forward(peer: string, rpcId: nat, large: bool, bulkOk: bool, lookupOk: bool, hg: HgResults)
      returns (c: Option<nat>)
      requires Valid() && Balanced(multiset{})
      modifies this
      ensures Valid() && Balanced(multiset{})
      ensures running == old(running) && orphaned == old(orphaned)
      ensures c.None? <==> !old(running) || (large && !bulkOk)
      ensures c.None? ==> peers == old(peers) && calls == old(calls) && outcome == old(outcome) && issued == old(issued)
      ensures c.Some? ==> Promise(c.value) !in old(created) && Promise(c.value) in created
      ensures Extends(old(outcome), outcome) && Continues(old(calls), calls) && Adds(old(outcome), outcome, NOT_SENT)
      ensures c.Some? && peer in old(peers) && old(peers)[peer].addr.Some? ==>
                Gone(calls, outcome, c.value) && issued == old(issued)
      ensures c.Some? && !(peer in old(peers) && old(peers)[peer].addr.Some?) ==>
                var was := PendingAt(old(peers), peer);
                && calls == old(calls)
                && if was.Some? || lookupOk then
                     && outcome == old(outcome)
                     && PendingAt(peers, peer)
                        == Some(Queued(was, Call(c.value, peer, rpcId, large, None, false, false, false)))
                     && issued == if was.Some? then old(issued) else old(issued)[c.value := peer]
                   else
                     outcome == old(outcome)[c.value := LookupFailed] && issued == old(issued)
    {
      hide Ledger, PeersOk, LookupsOk, CallTokens, CallsTokens, CanObtain, LookupOk;
      if !running || (large && !bulkOk) {
        return None;
      }
      var call := NewCall(peer, rpcId, large);
      c := Some(call.id);
      EnsurePeer(peer, multiset{} + CallTokens(call));
      LookupsKeep(old(peers), peers, issued, orphaned);
      if peers[peer].addr.Some? {
        ghost var known := peers;
        var sent := StartClientForward(call, hg, multiset{});
        LookupsKeep(known, peers, issued, orphaned);
        assert Gone(calls, outcome, call.id) by {
          if sent.Some? {
            assert calls[sent.value].id == call.id;
          }
        }
      } else {
        QueueOnLookup(call, lookupOk);
      }
    }

    method QueueOnLookup(call: Call, lookupOk: bool)
      requires Valid() && running && Balanced(multiset{} + CallTokens(call))
      requires call.peer in peers && peers[call.peer].addr.None? && WaiterOk(call.peer, call)
      requires call.id < nextId && call.id !in issued
      modifies this`peers, this`outcome, this`destroyed, this`issued
      ensures Valid() && Balanced(multiset{})
      ensures Extends(old(outcome), outcome)
      ensures var was := PendingAt(old(peers), call.peer);
              if was.Some? || lookupOk then
                && outcome == old(outcome)
                && PendingAt(peers, call.peer) == Some(Queued(was, call))
                && issued == if was.Some? then old(issued) else old(issued)[call.id := call.peer]
              else
                outcome == old(outcome)[call.id := LookupFailed] && issued == old(issued)
    {
      hide Ledger, PeersOk, LookupsOk, CallTokens, CallsTokens, LookupOk;
      var pending := peers[call.peer].pending;
      Enqueue(call);
      if pending.Some? {
        LookupsQueued(old(peers), peers, issued, orphaned, call);
      } else if lookupOk {
        LookupsStart(old(peers), peers, issued, orphaned, call);
        issued := issued[call.id := call.peer];
      } else {
        FailLookup(call, multiset{});
        LookupsKeep(old(peers), peers, issued, orphaned);
      }
    }

    /** A lookup that could not be started fails its only waiter. */
    method FailLookup(call: Call, ghost none: Tokens)
      requires PeersOk(peers) && Balanced(none) && none == multiset{} && WaiterOk(call.peer, call)
      requires call.peer in peers && peers[call.peer].pending == Some(Lookup(call.id, [call]))
      modifies this`peers, this`destroyed, this`outcome
      ensures PeersOk(peers) && Balanced(none)
      ensures peers == LookupTaken(old(peers), call.peer)
      ensures call.id !in old(outcome) && outcome == old(outcome)[call.id := LookupFailed]
    {
      hide Ledger, PeersOk, CallTokens, LookupOk;
      var taken := TakePendingLookup(call.peer, none);
      OneCall(call);
      assert taken.value.waiters == [call];
      FailClient(call, LookupFailed, none);
    }

    /** One peer's share of the shutdown. */
    method StopPeer(p: string)
      requires PeersOk(peers) && Balanced(multiset{}) && p in peers && DoneOk(calls, outcome)
      requires LookupsOk(peers, issued, orphaned)
      modifies this`peers, this`outcome, this`destroyed, this`orphaned
      ensures PeersOk(peers) && Balanced(multiset{}) && DoneOk(calls, outcome)
      ensures LookupsOk(peers, issued, orphaned)
      ensures peers == old(peers) - {p}
      ensures orphaned == old(orphaned) + Ids(old(peers)[p].pending)
      ensures Extends(old(outcome), outcome) && AllStopped(old(peers)[p], outcome)
      ensures Adds(old(outcome), outcome, {Stopped})
    {
      hide Ledger, CallsTokens, PeerTokens, PoolsBag, LookupsOk, PeersOk, LookupOk, DoneOk;
      LookupsOrphan(peers, issued, orphaned, p);
      PeerLeaves(peers, p);
      var v := peers[p];
      LedgerDropPeer(peers, calls, multiset{}, outcome, destroyed, created, p);
      peers := peers - {p};
      PeerSplit(v);
      ghost var waiting := if v.pending.Some? then CallsTokens(v.pending.value.waiters) else multiset{};
      assert multiset{} + PeerTokens(v) == waiting + PoolsBag(v.pools);
      PoolsHoldHandles(v.pools);
      Destroy(PoolsBag(v.pools), waiting);
      if v.pending.Some? {
        FailWaiters(p, v.pending.value.waiters, Stopped);
        orphaned := orphaned + {v.pending.value.id};
      }
      assert orphaned == old(orphaned) + Ids(v.pending);
      DoneStays(calls, old(outcome), outcome);
    }

    method StopPeers()
      requires PeersOk(peers) && Balanced(multiset{}) && DoneOk(calls, outcome) && LookupsOk(peers, issued, orphaned)
      modifies this`peers, this`outcome, this`destroyed, this`orphaned
      ensures peers == map[] && Balanced(multiset{}) && DoneOk(calls, outcome) && LookupsOk(peers, issued, orphaned)
      ensures Extends(old(outcome), outcome) && StoppedSoFar(old(peers), map[], outcome)
      ensures Adds(old(outcome), outcome, {Stopped})
    {
      hide Ledger, PeersOk, LookupsOk, DoneOk, AllStopped, StoppedSoFar;
      assert StoppedSoFar(peers, peers, outcome) by { NoneStopped(peers, outcome); }
      while peers != map[]
        invariant PeersOk(peers) && Balanced(multiset{}) && DoneOk(calls, outcome) && LookupsOk(peers, issued, orphaned)
        invariant Extends(old(outcome), outcome) && StoppedSoFar(old(peers), peers, outcome)
        invariant Adds(old(outcome), outcome, {Stopped})
        decreases |peers|
      {
        ghost var left, before := peers, outcome;
        assert exists p :: p in peers by { if forall p :: p !in peers { assert false; } }
        var p :| p in peers;
        StopPeer(p);
        StoppedStep(old(peers), left, p, before, outcome);
      }
    }

    /** Stopping fails every waiter, orphans the lookups and leaves only the calls in flight. */
    method Stop()
      requires Valid() && Balanced(multiset{})
      modifies this
      ensures Valid() && Balanced(multiset{})
      ensures !running && peers == map[] && calls == old(calls) && issued == old(issued)
      ensures Extends(old(outcome), outcome) && Adds(old(outcome), outcome, {Stopped})
      ensures old(running) ==> orphaned == issued.Keys
      ensures forall p :: p in old(peers) ==> AllStopped(old(peers)[p], outcome)
    {
      hide Ledger, PeersOk, LookupsOk, AllStopped;
      if !running {
        return;
      }
      running := false;
      StopPeers();
      AllOrphaned(issued, orphaned);
      NoPeers();
    }

    // ---- Runs ----------------------------------------------------------------

    /** One event; a callback or timer that is not outstanding cannot occur. */
    method Step(e: Event)
      requires Valid() && Balanced(multiset{})
      modifies this
      ensures Valid() && Balanced(multiset{})
      ensures Extends(old(outcome), outcome)
      ensures forall c :: c in outcome && c !in old(outcome) ==> Explains(e, old(calls), c, outcome[c])
    {
      hide Valid, Balanced;
      match e
      case Forwarded(peer, rpcId, large, bulkOk, lookupOk, hg) =>
        var _ := Forward(peer, rpcId, large, bulkOk, lookupOk, hg);
      case LookedUp(l, addr, hg) =>
        if l in issued { LookupCb(l, addr, hg); }
      case Completed(h, reply) =>
        if h in calls { ForwardCb(h, reply); }
      case Expired(h) =>
        if h in calls { Timeout(h); }
      case Shutdown =>
        Stop();
    }

    /**
     Any interleaving of calls, callbacks, timers and shutdown: no promise changes once resolved,
     everything created has one owner or was released once, and each outcome is explained by the event
     that brought it; a reply by the completion, with that payload, of the call then in flight.
     */
    method Run(events: seq<Event>) returns (ghost before: seq<map<nat, Call>>)
      requires Valid() && Balanced(multiset{})
      modifies this
      ensures Valid() && Balanced(multiset{})
      ensures Extends(old(outcome), outcome)
      ensures |before| == |events|
      ensures forall c :: c in outcome && c !in old(outcome) ==>
                exists i :: 0 <= i < |events| && Explains(events[i], before[i], c, outcome[c])
      ensures forall t ::
                Total(peers, PeerTokens)[t] + Total(calls, CallTokens)[t] + Promises(outcome)[t] + destroyed[t]
                == if t in created then 1 else 0
      ensures peers == map[] && calls == map[] ==> forall c :: Promise(c) in created <==> c in outcome
    {
      hide Valid, Balanced, Explains;
      before := [];
      var i := 0;
      while i < |events|
        invariant 0 <= i <= |events| && |before| == i
        invariant Valid() && Balanced(multiset{}) && Extends(old(outcome), outcome)
        invariant forall c :: c in outcome && c !in old(outcome) ==>
                    exists k :: 0 <= k < i && Explains(events[k], before[k], c, outcome[c])
      {
        ghost var was, known := outcome, before;
        before := before + [calls];
        Step(events[i]);
        forall c | c in outcome && c !in old(outcome)
          ensures exists k :: 0 <= k < i + 1 && Explains(events[k], before[k], c, outcome[c])
        {
          if c in was {
            var k :| 0 <= k < i && Explains(events[k], known[k], c, was[c]);
            assert before[k] == known[k] && outcome[c] == was[c];
          } else {
            assert Explains(events[i], before[i], c, outcome[c]);
          }
        }
        i := i + 1;
      }
      Settled();
    }

    /** What a balanced ledger says with nothing in hand. */
    lemma Settled()
      requires Balanced(multiset{})
      ensures forall t ::
                Total(peers, PeerTokens)[t] + Total(calls, CallTokens)[t] + Promises(outcome)[t] + destroyed[t]
                == if t in created then 1 else 0
      ensures peers == map[] && calls == map[] ==> forall c :: Promise(c) in created <==> c in outcome
    {
      hide Ledger;
      forall t ensures Total(peers, PeerTokens)[t] + Total(calls, CallTokens)[t] + Promises(outcome)[t] + destroyed[t]
                    == if t in created then 1 else 0 {
        ExactlyOnePlace(peers, calls, outcome, destroyed, created, t);
      }
      if peers == map[] && calls == map[] {
        forall c ensures Promise(c) in created <==> c in outcome {
          ShutdownReleasesAll(outcome, destroyed, created, Promise(c));
        }
      }
    }
  }
}
