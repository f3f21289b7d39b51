/**
 Per-peer pools of reusable RPC handles: a short vector with one pool per RPC
 id, scanned linearly, each pool used from its end and bounded.
 */
module HandlePools {
  import opened Wrappers

  const POOL_LIMIT: nat := 128

  /** What the client must release exactly once. */
  datatype Token = Handle(id: nat) | Promise(id: nat) | Bulk(id: nat)

  datatype Pool = Pool(rpcId: nat, handles: seq<nat>)

  ghost function Handles(handles: seq<nat>): multiset<Token> {
    multiset(seq(|handles|, i requires 0 <= i < |handles| => Handle(handles[i])))
  }

  lemma HandlesSnoc(handles: seq<nat>, h: nat)
    ensures Handles(handles + [h]) == Handles(handles) + multiset{Handle(h)}
  {
    var more := handles + [h];
    assert seq(|more|, i requires 0 <= i < |more| => Handle(more[i]))
        == seq(|handles|, i requires 0 <= i < |handles| => Handle(handles[i])) + [Handle(h)];
  }

  /** All pooled handles, with multiplicity. */
  ghost function PoolsBag(pools: seq<Pool>): multiset<Token> {
    if pools == [] then multiset{} else Handles(pools[0].handles) + PoolsBag(pools[1..])
  }

  ghost predicate NoPromise(tokens: multiset<Token>) {
    forall c :: Promise(c) !in tokens
  }

  lemma {:induction false} PoolsHoldHandles(pools: seq<Pool>)
    ensures NoPromise(PoolsBag(pools))
  {
    if pools != [] {
      assert NoPromise(Handles(pools[0].handles));
      PoolsHoldHandles(pools[1..]);
    }
  }

  /** The handles kept for one RPC id, oldest first. */
  ghost function PooledFor(pools: seq<Pool>, rpcId: nat): seq<nat> {
    if pools == [] then [] else if pools[0].rpcId == rpcId then pools[0].handles else PooledFor(pools[1..], rpcId)
  }

  /** Distinct RPC ids, no pool over its limit. */
  ghost predicate PoolsOk(pools: seq<Pool>) {
    && (forall i, j :: 0 <= i < j < |pools| ==> pools[i].rpcId != pools[j].rpcId)
    && (forall i :: 0 <= i < |pools| ==> |pools[i].handles| <= POOL_LIMIT)
  }

  lemma {:induction false} PooledAt(pools: seq<Pool>, i: nat)
    requires PoolsOk(pools) && i < |pools|
    ensures PooledFor(pools, pools[i].rpcId) == pools[i].handles
  {
    if i > 0 {
      assert pools[i] == pools[1..][i - 1];
      PooledAt(pools[1..], i - 1);
    }
  }

  lemma {:induction false} PooledNone(pools: seq<Pool>, rpcId: nat)
    requires forall i :: 0 <= i < |pools| ==> pools[i].rpcId != rpcId
    ensures PooledFor(pools, rpcId) == []
  {
    if pools != [] {
      PooledNone(pools[1..], rpcId);
    }
  }

  lemma BagsUnder(x: multiset<Token>, a: multiset<Token>, b: multiset<Token>, c: multiset<Token>, d: multiset<Token>)
    requires a + b == c + d
    ensures (x + a) + b == (x + c) + d
  {
    assert (x + a) + b == x + (a + b);
    assert (x + c) + d == x + (c + d);
  }

  lemma BagsCancel(a: multiset<Token>, b: multiset<Token>, x: multiset<Token>)
    requires a + x == b + x
    ensures a == b
  {
    forall t ensures a[t] == b[t] {
      assert (a + x)[t] == (b + x)[t];
    }
  }

  /** Replacing one pool's handles moves exactly those handles. */
  lemma {:induction false} BagReplace(pools: seq<Pool>, i: nat, handles: seq<nat>)
    requires i < |pools|
    ensures PoolsBag(pools[i := Pool(pools[i].rpcId, handles)]) + Handles(pools[i].handles)
              == PoolsBag(pools) + Handles(handles)
  {
    hide Handles;
    var next := pools[i := Pool(pools[i].rpcId, handles)];
    if i > 0 {
      assert pools[1..][i - 1] == pools[i];
      BagReplace(pools[1..], i - 1, handles);
      assert next[1..] == pools[1..][i - 1 := Pool(pools[i].rpcId, handles)];
      assert next[0] == pools[0];
      BagsUnder(Handles(pools[0].handles), PoolsBag(next[1..]), Handles(pools[i].handles), PoolsBag(pools[1..]),
                Handles(handles));
    } else {
      assert next[1..] == pools[1..];
      assert PoolsBag(next) == Handles(handles) + PoolsBag(pools[1..]);
      assert PoolsBag(pools) == Handles(pools[0].handles) + PoolsBag(pools[1..]);
    }
  }

  lemma {:induction false} OthersReplace(pools: seq<Pool>, i: nat, handles: seq<nat>, id: nat)
    requires i < |pools| && id != pools[i].rpcId
    ensures PooledFor(pools[i := Pool(pools[i].rpcId, handles)], id) == PooledFor(pools, id)
  {
    var next := pools[i := Pool(pools[i].rpcId, handles)];
    if i > 0 {
      assert pools[1..][i - 1] == pools[i];
      OthersReplace(pools[1..], i - 1, handles, id);
      assert next[1..] == pools[1..][i - 1 := Pool(pools[i].rpcId, handles)];
      assert next[0] == pools[0];
    } else {
      assert next[1..] == pools[1..];
    }
  }

  /** All that one pool's new contents change. */
  lemma PoolsReplace(pools: seq<Pool>, i: nat, handles: seq<nat>)
    requires PoolsOk(pools) && i < |pools| && |handles| <= POOL_LIMIT
    ensures var next := pools[i := Pool(pools[i].rpcId, handles)];
            && PoolsOk(next)
            && PoolsBag(next) + Handles(pools[i].handles) == PoolsBag(pools) + Handles(handles)
            && PooledFor(next, pools[i].rpcId) == handles
            && forall id :: id != pools[i].rpcId ==> PooledFor(next, id) == PooledFor(pools, id)
  {
    hide PoolsBag, PooledFor, Handles;
    var next := pools[i := Pool(pools[i].rpcId, handles)];
    BagReplace(pools, i, handles);
    PoolsStayOk(pools, i, handles);
    PooledAt(next, i);
    forall id | id != pools[i].rpcId ensures PooledFor(next, id) == PooledFor(pools, id) {
      OthersReplace(pools, i, handles, id);
    }
  }

  lemma WithinLimit(pools: seq<Pool>, i: nat)
    requires PoolsOk(pools) && i < |pools|
    ensures |pools[i].handles| <= POOL_LIMIT
  {
  }

  lemma PoolsStayOk(pools: seq<Pool>, i: nat, handles: seq<nat>)
    requires PoolsOk(pools) && i < |pools| && |handles| <= POOL_LIMIT
    ensures PoolsOk(pools[i := Pool(pools[i].rpcId, handles)])
  {
  }

  lemma {:induction false} PoolsSnoc(pools: seq<Pool>, pool: Pool)
    requires forall i :: 0 <= i < |pools| ==> pools[i].rpcId != pool.rpcId
    ensures PoolsBag(pools + [pool]) == PoolsBag(pools) + Handles(pool.handles)
    ensures forall id :: PooledFor(pools + [pool], id)
              == if id == pool.rpcId then pool.handles else PooledFor(pools, id)
  {
    var next := pools + [pool];
    if pools != [] {
      PoolsSnoc(pools[1..], pool);
      assert next[1..] == pools[1..] + [pool];
      assert next[0] == pools[0];
    } else {
      assert next[1..] == [];
    }
  }

  lemma PoolsPop(pools: seq<Pool>, i: nat, rest: seq<Pool>)
    requires PoolsOk(pools) && i < |pools| && pools[i].handles != []
    requires rest == pools[i := Pool(pools[i].rpcId, pools[i].handles[..|pools[i].handles| - 1])]
    ensures PoolsOk(rest)
    ensures PooledFor(pools, pools[i].rpcId)
              == PooledFor(rest, pools[i].rpcId) + [pools[i].handles[|pools[i].handles| - 1]]
    ensures forall id :: id != pools[i].rpcId ==> PooledFor(rest, id) == PooledFor(pools, id)
    ensures PoolsBag(pools) == PoolsBag(rest) + multiset{Handle(pools[i].handles[|pools[i].handles| - 1])}
  {
    hide PoolsOk, PoolsBag, PooledFor, Handles;
    WithinLimit(pools, i);
    var front, last := pools[i].handles[..|pools[i].handles| - 1], pools[i].handles[|pools[i].handles| - 1];
    assert front + [last] == pools[i].handles;
    PooledAt(pools, i);
    PoolsReplace(pools, i, front);
    HandlesSnoc(front, last);
    var one := multiset{Handle(last)};
    assert (PoolsBag(rest) + one) + Handles(front) == PoolsBag(rest) + Handles(pools[i].handles);
    BagsCancel(PoolsBag(rest) + one, PoolsBag(pools), Handles(front));
  }

  lemma PoolsPush(pools: seq<Pool>, i: nat, h: nat, next: seq<Pool>)
    requires PoolsOk(pools) && i < |pools| && |pools[i].handles| < POOL_LIMIT
    requires next == pools[i := Pool(pools[i].rpcId, pools[i].handles + [h])]
    ensures PoolsOk(next)
    ensures PooledFor(next, pools[i].rpcId) == PooledFor(pools, pools[i].rpcId) + [h]
    ensures forall id :: id != pools[i].rpcId ==> PooledFor(next, id) == PooledFor(pools, id)
    ensures PoolsBag(next) == PoolsBag(pools) + multiset{Handle(h)}
  {
    hide PoolsOk, PoolsBag, PooledFor, Handles;
    var handles, one := pools[i].handles, multiset{Handle(h)};
    PooledAt(pools, i);
    PoolsReplace(pools, i, handles + [h]);
    HandlesSnoc(handles, h);
    assert (PoolsBag(pools) + one) + Handles(handles) == PoolsBag(pools) + Handles(handles + [h]);
    BagsCancel(PoolsBag(next), PoolsBag(pools) + one, Handles(handles));
  }

  lemma PoolsAdd(pools: seq<Pool>, rpcId: nat, h: nat, next: seq<Pool>)
    requires PoolsOk(pools) && next == pools + [Pool(rpcId, [h])]
    requires forall i :: 0 <= i < |pools| ==> pools[i].rpcId != rpcId
    ensures PoolsOk(next)
    ensures PooledFor(pools, rpcId) == [] && PooledFor(next, rpcId) == [h]
    ensures forall id :: id != rpcId ==> PooledFor(next, id) == PooledFor(pools, id)
    ensures PoolsBag(next) == PoolsBag(pools) + multiset{Handle(h)}
  {
    PooledNone(pools, rpcId);
    PoolsSnoc(pools, Pool(rpcId, [h]));
    assert Handles([h]) == multiset{Handle(h)} by {
      HandlesSnoc([], h);
      assert [] + [h] == [h];
    }
  }

  /** Take the most recently pooled handle for an RPC id, if there is one. */
  method TakeCachedHandle(pools: seq<Pool>, rpcId: nat) returns (rest: seq<Pool>, h: Option<nat>)
    requires PoolsOk(pools)
    ensures PoolsOk(rest)
    ensures h.None? <==> PooledFor(pools, rpcId) == []
    ensures h.None? ==> rest == pools
    ensures h.Some? ==> PooledFor(pools, rpcId) == PooledFor(rest, rpcId) + [h.value]
    ensures forall id :: id != rpcId ==> PooledFor(rest, id) == PooledFor(pools, id)
    ensures h.Some? ==> PoolsBag(pools) == PoolsBag(rest) + multiset{Handle(h.value)}
  {
    hide PoolsOk, PoolsBag, PooledFor, Handles;
    for i := 0 to |pools|
      invariant forall k :: 0 <= k < i ==> pools[k].rpcId != rpcId
    {
      if pools[i].rpcId == rpcId {
        var handles := pools[i].handles;
        PooledAt(pools, i);
        if handles == [] {
          return pools, None;
        }
        var n := |handles| - 1;
        rest, h := pools[i := Pool(rpcId, handles[..n])], Some(handles[n]);
        PoolsPop(pools, i, rest);
        return;
      }
    }
    PooledNone(pools, rpcId);
    return pools, None;
  }

  /** Put a handle back; a full pool refuses it. */
  method PutHandle(pools: seq<Pool>, rpcId: nat, h: nat) returns (next: seq<Pool>, kept: bool)
    requires PoolsOk(pools)
    ensures PoolsOk(next)
    ensures kept <==> |PooledFor(pools, rpcId)| < 128
    ensures !kept ==> next == pools
    ensures kept ==> PooledFor(next, rpcId) == PooledFor(pools, rpcId) + [h]
    ensures forall id :: id != rpcId ==> PooledFor(next, id) == PooledFor(pools, id)
    ensures kept ==> PoolsBag(next) == PoolsBag(pools) + multiset{Handle(h)}
    ensures kept ==> next != []
  {
    hide PoolsOk, PoolsBag, PooledFor, Handles;
    for i := 0 to |pools|
      invariant forall k :: 0 <= k < i ==> pools[k].rpcId != rpcId
    {
      if pools[i].rpcId == rpcId {
        var handles := pools[i].handles;
        PooledAt(pools, i);
        if |handles| >= POOL_LIMIT {
          return pools, false;
        }
        next, kept := pools[i := Pool(rpcId, handles + [h])], true;
        PoolsPush(pools, i, h, next);
        return;
      }
    }
    next, kept := pools + [Pool(rpcId, [h])], true;
    PoolsAdd(pools, rpcId, h, next);
  }
}
