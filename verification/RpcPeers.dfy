/**
 The client's peer table as a value: pending lookups, waiters, and what each
 change of one peer keeps of the rest.
 */
module RpcPeers {
  import opened Wrappers
  import opened HandlePools
  import opened RpcLedger

  /** Results of the foreign calls that start a forward. */
  datatype HgResults = HgResults(resetOk: bool, createOk: bool, forwardOk: bool)

  /** What the forward callback finds. */
  datatype Reply = TransportError | NoOutput | RemoteError | Payload(payload: seq<nat>)

  datatype Event =
    | Forwarded(peer: string, rpcId: nat, large: bool, bulkOk: bool, lookupOk: bool, hg: HgResults)
    | LookedUp(lookup: nat, addr: Option<nat>, started: nat -> HgResults)
    | Completed(handle: nat, reply: Reply)
    | Expired(handle: nat)
    | Shutdown

  function OutcomeOf(reply: Reply): Outcome {
    match reply
    case TransportError => ForwardFailed
    case NoOutput => OutputFailed
    case RemoteError => HandlerFailed
    case Payload(payload) => Replied(payload)
  }

  /** The lookup in flight for a peer. */
  ghost function PendingAt(peers: map<string, Peer>, p: string): Option<Lookup> {
    if p in peers then peers[p].pending else None
  }

  ghost predicate PendingIs(peers: map<string, Peer>, p: string, l: nat) {
    PendingAt(peers, p).Some? && PendingAt(peers, p).value.id == l
  }

  ghost predicate SamePending(peers: map<string, Peer>, peers': map<string, Peer>) {
    forall p :: PendingAt(peers', p) == PendingAt(peers, p)
  }

  /** A waiter has no handle and no result yet. */
  ghost predicate WaiterOk(p: string, c: Call) {
    c.peer == p && c.handle.None? && !c.promiseDone && !c.recycle && !c.dropPeer
  }

  ghost predicate LookupOk(p: string, l: Lookup) {
    forall i :: 0 <= i < |l.waiters| ==> WaiterOk(p, l.waiters[i])
  }

  ghost predicate PeerOk(p: string, v: Peer) {
    && PoolsOk(v.pools)
    && (v.pending.Some? ==> v.addr.None? && LookupOk(p, v.pending.value))
  }

  ghost predicate PeersOk(peers: map<string, Peer>) {
    forall p :: p in peers ==> PeerOk(p, peers[p])
  }

  /** Calls in flight are found by the handle they carry. */
  ghost predicate CallsOk(calls: map<nat, Call>) {
    forall h :: h in calls ==> calls[h].handle == Some(h) && !calls[h].recycle && !calls[h].dropPeer
  }

  /** A call in flight that counts as done has its promise resolved. */
  ghost predicate DoneOk(calls: map<nat, Call>, outcome: map<nat, Outcome>) {
    forall h :: h in calls && calls[h].promiseDone ==> calls[h].id in outcome
  }

  /** Promises already resolved stay as they are. */
  ghost predicate Extends(outcome: map<nat, Outcome>, outcome': map<nat, Outcome>) {
    forall c :: c in outcome ==> c in outcome' && outcome'[c] == outcome[c]
  }

  /** Every promise resolved in between got one of these outcomes. */
  ghost predicate Adds(outcome: map<nat, Outcome>, outcome': map<nat, Outcome>, kinds: set<Outcome>) {
    forall c :: c in outcome' && c !in outcome ==> outcome'[c] in kinds
  }

  /** What can go wrong before a call is on the wire. */
  const NOT_SENT: set<Outcome> := {CreateFailed, ForwardFailed, LookupFailed}

  /** What an event can tell the caller of call c, given the calls then in flight. */
  ghost predicate Explains(e: Event, calls: map<nat, Call>, c: nat, o: Outcome) {
    match e
    case Completed(h, reply) =>
      && h in calls && calls[h].id == c
      && (match o
          case Replied(payload) => reply == Payload(payload)
          case HandlerFailed => reply == RemoteError
          case OutputFailed => reply == NoOutput
          case ForwardFailed => reply == TransportError
          case _ => false)
    case Expired(h) => h in calls && calls[h].id == c && o == TimedOut
    case Shutdown => o == Stopped
    case Forwarded(_, _, _, _, _, _) => o in NOT_SENT
    case LookedUp(_, _, _) => o in NOT_SENT
  }

  /** A call that is no longer waiting: on the wire or resolved. */
  ghost predicate Gone(calls: map<nat, Call>, outcome: map<nat, Outcome>, c: nat) {
    c in outcome || exists h :: h in calls && calls[h].id == c
  }

  /** Every lookup callback still to come belongs to one pending or orphaned lookup. */
  ghost predicate LookupsOk(peers: map<string, Peer>, issued: map<nat, string>, orphaned: set<nat>) {
    && (forall l :: l in issued && l !in orphaned ==> PendingIs(peers, issued[l], l))
    && (forall p, l :: PendingIs(peers, p, l) ==> l in issued && issued[l] == p)
    && (forall l :: l in orphaned ==> l in issued)
  }

  /** The lookup with one more waiter. */
  function Queued(l: Option<Lookup>, call: Call): Lookup {
    if l.Some? then Lookup(l.value.id, l.value.waiters + [call]) else Lookup(call.id, [call])
  }

  lemma OneCall(c: Call)
    ensures CallsTokens([c]) == CallTokens(c)
  {
  }

  lemma QueuedOk(v: Peer, call: Call)
    requires PeerOk(call.peer, v) && WaiterOk(call.peer, call) && v.addr.None?
    ensures PeerOk(call.peer, v.(pending := Some(Queued(v.pending, call))))
    ensures PeerTokens(v.(pending := Some(Queued(v.pending, call)))) + multiset{}
              == PeerTokens(v) + (multiset{} + CallTokens(call))
  {
    hide PoolsOk, PoolsBag, CallTokens;
    if v.pending.Some? {
      CallsSnoc(v.pending.value.waiters, call);
    } else {
      OneCall(call);
    }
  }

  lemma LookupsQueued(peers: map<string, Peer>, peers': map<string, Peer>, issued: map<nat, string>,
                      orphaned: set<nat>, call: Call)
    requires LookupsOk(peers, issued, orphaned)
    requires call.peer in peers && peers[call.peer].pending.Some?
    requires peers' == peers[call.peer := peers[call.peer].(pending := Some(Queued(peers[call.peer].pending, call)))]
    ensures LookupsOk(peers', issued, orphaned)
  {
    forall p, l ensures PendingIs(peers', p, l) <==> PendingIs(peers, p, l) {
    }
  }

  lemma LookupsStart(peers: map<string, Peer>, peers': map<string, Peer>, issued: map<nat, string>,
                     orphaned: set<nat>, call: Call)
    requires LookupsOk(peers, issued, orphaned) && call.id !in issued
    requires PendingAt(peers, call.peer).None?
    requires call.peer in peers' && peers'[call.peer].pending.Some? && peers'[call.peer].pending.value.id == call.id
    requires forall p :: p != call.peer ==> PendingAt(peers', p) == PendingAt(peers, p)
    ensures LookupsOk(peers', issued[call.id := call.peer], orphaned)
  {
    forall p, l ensures PendingIs(peers', p, l) <==> (if p == call.peer then l == call.id else PendingIs(peers, p, l)) {
    }
  }

  lemma LookupsOrphan(peers: map<string, Peer>, issued: map<nat, string>, orphaned: set<nat>, p: string)
    requires LookupsOk(peers, issued, orphaned) && p in peers
    ensures LookupsOk(peers - {p}, issued, orphaned + Ids(peers[p].pending))
  {
    forall q, l ensures PendingIs(peers - {p}, q, l) <==> q != p && PendingIs(peers, q, l) {
    }
    forall l | l in issued && l !in orphaned + Ids(peers[p].pending) ensures PendingIs(peers - {p}, issued[l], l) {
      assert PendingIs(peers, issued[l], l);
    }
    forall l | l in Ids(peers[p].pending) ensures l in issued {
      assert PendingIs(peers, p, l);
    }
  }

  lemma AllOrphaned(issued: map<nat, string>, orphaned: set<nat>)
    requires LookupsOk(map[], issued, orphaned)
    ensures orphaned == issued.Keys
  {
    forall l | l in issued ensures l in orphaned {
      assert !PendingIs(map[], issued[l], l);
    }
  }

  function Ids(l: Option<Lookup>): set<nat> {
    if l.Some? then {l.value.id} else {}
  }

  ghost predicate AllStopped(v: Peer, outcome: map<nat, Outcome>) {
    v.pending.Some? ==> forall i :: 0 <= i < |v.pending.value.waiters| ==>
      v.pending.value.waiters[i].id in outcome && outcome[v.pending.value.waiters[i].id] == Stopped
  }

  /** The peers left are untouched; the waiters of those gone were stopped. */
  ghost predicate StoppedSoFar(start: map<string, Peer>, peers: map<string, Peer>, outcome: map<nat, Outcome>) {
    && (forall p :: p in peers ==> p in start && peers[p] == start[p])
    && (forall p :: p in start && p !in peers ==> AllStopped(start[p], outcome))
  }

  lemma PeerLeaves(peers: map<string, Peer>, p: string)
    requires PeersOk(peers) && p in peers
    ensures PeersOk(peers - {p})
    ensures peers[p].pending.Some? ==> LookupOk(p, Lookup(0, peers[p].pending.value.waiters))
  {
    hide PoolsOk;
    assert PeerOk(p, peers[p]);
  }

  lemma PeerSplit(v: Peer)
    ensures PeerTokens(v)
         == (if v.pending.Some? then CallsTokens(v.pending.value.waiters) else multiset{}) + PoolsBag(v.pools)
  {
    hide CallsTokens, PoolsBag;
  }

  lemma DoneStays(calls: map<nat, Call>, outcome: map<nat, Outcome>, outcome': map<nat, Outcome>)
    requires DoneOk(calls, outcome) && Extends(outcome, outcome')
    ensures DoneOk(calls, outcome')
  {
  }

  lemma NoneStopped(peers: map<string, Peer>, outcome: map<nat, Outcome>)
    ensures StoppedSoFar(peers, peers, outcome)
  {
  }

  lemma NoPeers()
    ensures PeersOk(map[])
  {
  }

  lemma StoppedStep(start: map<string, Peer>, peers: map<string, Peer>, p: string,
                    outcome: map<nat, Outcome>, outcome': map<nat, Outcome>)
    requires StoppedSoFar(start, peers, outcome) && p in peers
    requires Extends(outcome, outcome') && AllStopped(peers[p], outcome')
    ensures StoppedSoFar(start, peers - {p}, outcome')
  {
    forall q | q in start && q !in peers - {p} ensures AllStopped(start[q], outcome') {
      if q != p {
        assert AllStopped(start[q], outcome);
      }
    }
  }

  ghost predicate Continues(calls: map<nat, Call>, calls': map<nat, Call>) {
    forall h :: h in calls ==> h in calls' && calls'[h] == calls[h]
  }

  lemma NoCalls(cs: seq<Call>)
    requires cs == []
    ensures CallsTokens(cs) == multiset{}
  {
  }

  lemma WaitersOk(p: string, l: Lookup)
    requires LookupOk(p, l)
    ensures LookupOk(p, Lookup(0, l.waiters))
  {
  }

  /** A lookup callback to come is orphaned, or pending at its own peer. */
  lemma LookupOwner(peers: map<string, Peer>, issued: map<nat, string>, orphaned: set<nat>, l: nat, running: bool)
    requires LookupsOk(peers, issued, orphaned) && l in issued
    requires (running || peers == map[]) && (running ==> orphaned == {})
    ensures l in orphaned ==> peers == map[]
    ensures l !in orphaned ==> PendingIs(peers, issued[l], l)
  {
  }

  lemma LookupsTake(peers: map<string, Peer>, issued: map<nat, string>, orphaned: set<nat>, l: nat)
    requires LookupsOk(peers, issued, orphaned) && l in issued
    requires l in orphaned ==> peers == map[]
    ensures LookupsOk(LookupTaken(peers, issued[l]), issued - {l}, orphaned - {l})
  {
    var p, peers' := issued[l], LookupTaken(peers, issued[l]);
    forall q, k ensures PendingIs(peers', q, k) <==> q != p && PendingIs(peers, q, k) {
    }
    forall k | k in issued && k != l && k !in orphaned ensures PendingIs(peers', issued[k], k) {
      assert PendingIs(peers, issued[k], k);
    }
  }

  /** The peer table after its pending lookup is taken. */
  function LookupTaken(peers: map<string, Peer>, p: string): map<string, Peer> {
    if p !in peers || peers[p].pending.None? then peers
    else if peers[p].addr.None? && peers[p].pools == [] then peers - {p}
    else peers[p := peers[p].(pending := None)]
  }

  lemma LookupsKeep(peers: map<string, Peer>, peers': map<string, Peer>, issued: map<nat, string>, orphaned: set<nat>)
    requires LookupsOk(peers, issued, orphaned)
    requires SamePending(peers, peers')
    ensures LookupsOk(peers', issued, orphaned)
  {
    forall p, l ensures PendingIs(peers', p, l) <==> PendingIs(peers, p, l) {
    }
  }

  /** A handle can be had: by creating one, or by resetting a pooled one. */
  ghost predicate CanObtain(peers: map<string, Peer>, call: Call, hg: HgResults) {
    hg.createOk || (hg.resetOk && call.peer in peers && PooledFor(peers[call.peer].pools, call.rpcId) != [])
  }

  lemma NonePooled(rpcId: nat)
    ensures PooledFor([], rpcId) == []
  {
  }

  lemma EmptyPeer()
    ensures PoolsOk([]) && PeerTokens(Peer(None, [], None)) == multiset{}
  {
  }

  ghost predicate Fits(peers: map<string, Peer>, p: string, rpcId: nat) {
    p in peers && |PooledFor(peers[p].pools, rpcId)| < POOL_LIMIT
  }

  /** A handle came back to the end of its own pool, or did not fit. */
  ghost predicate Recycled(peers: map<string, Peer>, peers': map<string, Peer>, p: string, rpcId: nat, h: nat) {
    if Fits(peers, p, rpcId) then
      && p in peers'
      && peers' == peers[p := peers[p].(pools := peers'[p].pools)]
      && PooledFor(peers'[p].pools, rpcId) == PooledFor(peers[p].pools, rpcId) + [h]
      && forall id :: id != rpcId ==> PooledFor(peers'[p].pools, id) == PooledFor(peers[p].pools, id)
    else peers' == peers
  }

  /** The peer table without one peer's transport state. */
  function Dropped(peers: map<string, Peer>, p: string): map<string, Peer> {
    if p !in peers then peers
    else if peers[p].pending.Some? then peers[p := peers[p].(addr := None, pools := [])]
    else peers - {p}
  }

  lemma DroppedKeeps(peers: map<string, Peer>, p: string)
    requires PeersOk(peers)
    ensures PeersOk(Dropped(peers, p))
    ensures SamePending(peers, Dropped(peers, p))
  {
    hide LookupOk;
    assert PoolsOk([]);
  }

  lemma DropPools(v: Peer, held: Tokens)
    ensures PeerTokens(v.(addr := None, pools := [])) + (held + PoolsBag(v.pools)) == PeerTokens(v) + held
  {
    hide CallsTokens;
    var waiting := if v.pending.Some? then CallsTokens(v.pending.value.waiters) else multiset{};
    assert PoolsBag([]) == multiset{};
    hide PoolsBag;
    assert waiting + (held + PoolsBag(v.pools)) == (PoolsBag(v.pools) + waiting) + held;
  }

  lemma OnlyPools(v: Peer)
    requires v.pending.None?
    ensures PeerTokens(v) == PoolsBag(v.pools)
  {
  }

  lemma PeerPools(v: Peer, pools: seq<Pool>, more: Tokens)
    requires PoolsBag(pools) == PoolsBag(v.pools) + more
    ensures forall held :: PeerTokens(v.(pools := pools)) + held == PeerTokens(v) + (held + more)
  {
    hide PoolsBag, CallsTokens;
    var waiting := if v.pending.Some? then CallsTokens(v.pending.value.waiters) else multiset{};
    forall held ensures PeerTokens(v.(pools := pools)) + held == PeerTokens(v) + (held + more) {
      assert (PoolsBag(v.pools) + more + waiting) + held == (PoolsBag(v.pools) + waiting) + (held + more);
    }
  }
}
