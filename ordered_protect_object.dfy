/**
 * The ordered variant of src/OrderedProtectObject.js: a protected store plus two key lists,
 * ORDER and ORDER_CACHE, that record first-insertion order for the committed store and for
 * the shadow store.
 */
module OrderedProtectObjects {
  import opened Support
  import opened ProtectObjects

  /**
   * The order list reached from `order` by replaying `writes` through the ordered `set`
   * on a store that starts as `store`: a key is appended exactly when the store does not
   * hold it yet.
   */
  function OrderAfter<V>(order: seq<string>, store: map<string, V>, writes: seq<(string, V)>): (r: seq<string>)
    ensures |order| <= |r| && r[..|order|] == order
    decreases |writes|
  {
    if writes == [] then order
    else
      var prev := writes[..|writes| - 1];
      var key := writes[|writes| - 1].0;
      var o := OrderAfter(order, store, prev);
      if key in ApplyWrites(store, prev) then o else o + [key]
  }

  /**
   * The ordered `set` keeps an order list in step with its store: duplicate-free and holding
   * exactly the store's keys.
   */
  lemma {:induction false} OrderAfterMirrors<V>(order: seq<string>, store: map<string, V>, writes: seq<(string, V)>)
    requires NoDup(order) && Elems(order) == store.Keys
    ensures NoDup(OrderAfter(order, store, writes))
    ensures Elems(OrderAfter(order, store, writes)) == ApplyWrites(store, writes).Keys
    decreases |writes|
  {
    if writes != [] {
      var prev := writes[..|writes| - 1];
      var key := writes[|writes| - 1].0;
      OrderAfterMirrors(order, store, prev);
      var o := OrderAfter(order, store, prev);
      if key !in ApplyWrites(store, prev) {
        assert key !in Elems(o);
        AppendFresh(o, key);
      }
    }
  }

  /** Replaying two runs of ordered `set` calls one after the other is replaying their concatenation. */
  lemma {:induction false} OrderAfterConcat<V>(order: seq<string>, store: map<string, V>, a: seq<(string, V)>, b: seq<(string, V)>)
    ensures OrderAfter(order, store, a + b) == OrderAfter(OrderAfter(order, store, a), ApplyWrites(store, a), b)
    decreases |b|
  {
    if b == [] {
      assert a + b == a;
    } else {
      var prev := b[..|b| - 1];
      assert (a + b)[..|a + b| - 1] == a + prev;
      OrderAfterConcat(order, store, a, prev);
      ApplyWritesConcat(store, a, prev);
    }
  }

  /** The keys of `extra` that are not in `seen`, in their order in `extra`. */
  function Unseen(extra: seq<string>, seen: seq<string>): (r: seq<string>)
    ensures Elems(r) == Elems(extra) - Elems(seen)
    ensures NoDup(extra) ==> NoDup(r)
    decreases |extra|
  {
    if extra == [] then []
    else
      var rest := Unseen(extra[1..], seen);
      assert Elems(extra) == {extra[0]} + Elems(extra[1..]);
      assert NoDup(extra) ==> extra[0] !in Elems(extra[1..]);
      if extra[0] in seen then rest
      else
        assert Elems([extra[0]] + rest) == {extra[0]} + Elems(rest);
        assert NoDup(extra) ==> NoDup([extra[0]] + rest) by {
          if NoDup(extra) {
            ConcatDisjoint([extra[0]], rest);
          }
        }
        [extra[0]] + rest
  }

  /**
   * The order list a reconciliation leaves, under the same policy as the stores: replace
   * takes the shadow list, overlay appends the shadow keys not yet in the committed list.
   */
  function Reconciled(order: seq<string>, orderShadow: seq<string>, shouldNotNewObject: bool): (r: seq<string>)
    ensures !shouldNotNewObject ==> r == orderShadow
    ensures shouldNotNewObject ==> |order| <= |r| && r[..|order|] == order
    ensures shouldNotNewObject ==> Elems(r[|order|..]) == Elems(orderShadow) - Elems(order)
  {
    assert (order + Unseen(orderShadow, order))[|order|..] == Unseen(orderShadow, order);
    if shouldNotNewObject then order + Unseen(orderShadow, order) else orderShadow
  }

  /** Reconciling the order lists under a policy mirrors `recovery` of the stores under it. */
  lemma ReconciledMirrors<V>(order: seq<string>, orderShadow: seq<string>,
                             committed: map<string, V>, shadow: map<string, V>, shouldNotNewObject: bool)
    requires NoDup(order) && Elems(order) == committed.Keys
    requires NoDup(orderShadow) && Elems(orderShadow) == shadow.Keys
    ensures NoDup(Reconciled(order, orderShadow, shouldNotNewObject))
    ensures Elems(Reconciled(order, orderShadow, shouldNotNewObject))
            == Recovered(committed, shadow, shouldNotNewObject).Keys
  {
    if shouldNotNewObject {
      ConcatDisjoint(order, Unseen(orderShadow, order));
    }
  }

  /** The ordered store: a protected store and the two insertion-order lists. */
  class OrderedProtectObject<V> {
    /** The inherited protected store. */
    const base: ProtectObject<V>
    /** ORDER: first-insertion order of the committed keys. */
    var order: seq<string>
    /** ORDER_CACHE: first-insertion order of the keys written while locked. */
    var orderCache: seq<string>

    ghost predicate Valid()
      reads this, base
    {
      base.Valid()
    }

    /**
     * Each order list is duplicate-free and holds exactly the keys of its store. Ordered
     * `set` keeps this at any depth and ordered `safeIterate` keeps it from depth 0.
     */
    ghost predicate OrderInv()
      reads this, base
    {
      && NoDup(order) && Elems(order) == base.obj.Keys
      && NoDup(orderCache) && Elems(orderCache) == base.cache.Keys
    }

    constructor ()
      ensures Valid() && OrderInv() && fresh(base)
      ensures base.obj == map[] && base.cache == map[] && base.locked == 0
      ensures order == [] && orderCache == []
    {
      base := new ProtectObject<V>();
      order := [];
      orderCache := [];
    }

    /**
     * Ordered `set`: when `hasKey` finds the key absent before the write, append it to the
     * active list (ORDER_CACHE while locked, ORDER otherwise); then the base `set`.
     */
    method Set(key: string, value: V)
      requires Valid()
      modifies this, base
      ensures Valid() && base.locked == old(base.locked)
      ensures order == if !old(base.HasKey(key)) && old(base.locked) == 0 then old(order) + [key] else old(order)
      ensures orderCache == if !old(base.HasKey(key)) && old(base.locked) > 0 then old(orderCache) + [key] else old(orderCache)
      ensures old(base.locked) == 0 ==> base.obj == old(base.obj)[key := value] && base.cache == old(base.cache)
      ensures old(base.locked) > 0 ==> base.cache == old(base.cache)[key := value] && base.obj == old(base.obj)
      ensures old(OrderInv()) ==> OrderInv()
    {
      ghost var inv0 := OrderInv();
      if !base.HasKey(key) {
        if base.IsLocked() {
          if inv0 { AppendFresh(orderCache, key); }
          orderCache := orderCache + [key];
        } else {
          if inv0 { AppendFresh(order, key); }
          order := order + [key];
        }
      }
      base.Set(key, value);
    }

    /** The `set` calls one callback invocation makes, replayed through the ordered `set` while locked. */
    method ApplyVisit(writes: seq<(string, V)>)
      requires Valid() && base.locked > 0
      modifies this, base
      ensures Valid() && base.locked == old(base.locked) && base.obj == old(base.obj) && order == old(order)
      ensures base.cache == ApplyWrites(old(base.cache), writes)
      ensures orderCache == OrderAfter(old(orderCache), old(base.cache), writes)
    {
      for j := 0 to |writes|
        invariant Valid() && base.locked == old(base.locked) && base.obj == old(base.obj) && order == old(order)
        invariant base.cache == ApplyWrites(old(base.cache), writes[..j])
        invariant orderCache == OrderAfter(old(orderCache), old(base.cache), writes[..j])
      {
        assert writes[..j + 1][..j] == writes[..j];
        Set(writes[j].0, writes[j].1);
      }
      assert writes[..|writes|] == writes;
    }

    /**
     * The indexed loop of ordered `safeIterate`, run while locked: visit ORDER[0], ORDER[1], ...
     * up to its length at the start, each with `forceGet(key)`, until `fn` returns truthy.
     */
    method Walk(fn: Callback<V>) returns (trace: seq<(string, Option<V>)>)
      requires Valid() && base.locked > 0
      modifies this, base
      ensures Valid() && base.locked == old(base.locked) && base.obj == old(base.obj) && order == old(order)
      ensures trace == Trace(base.obj, Visited(fn, base.obj, order))
      ensures base.cache == ApplyWrites(old(base.cache), WritesOf(fn, base.obj, Visited(fn, base.obj, order)))
      ensures orderCache == OrderAfter(old(orderCache), old(base.cache), WritesOf(fn, base.obj, Visited(fn, base.obj, order)))
    {
      trace := [];
      ghost var committed, keys, cache0, orderCache0 := base.obj, order, base.cache, orderCache;
      ghost var visited: seq<string> := [];
      var i, il := 0, |order|;
      while i < il
        invariant 0 <= i <= il == |keys| && visited == keys[..i]
        invariant Valid() && base.locked == old(base.locked) && base.obj == committed && order == keys
        invariant Visited(fn, committed, keys) == visited + Visited(fn, committed, keys[i..])
        invariant trace == Trace(committed, visited)
        invariant base.cache == ApplyWrites(cache0, WritesOf(fn, committed, visited))
        invariant orderCache == OrderAfter(orderCache0, cache0, WritesOf(fn, committed, visited))
      {
        var key := order[i];
        var value := base.ForceGet(key);
        var visit := fn(value, key);
        WalkStep(fn, committed, keys, i, visited);
        VisitOneMore(fn, committed, visited, key);
        ApplyWritesConcat(cache0, WritesOf(fn, committed, visited), visit.writes);
        OrderAfterConcat(orderCache0, cache0, WritesOf(fn, committed, visited), visit.writes);
        ApplyVisit(visit.writes);
        trace := trace + [(key, value)];
        visited := visited + [key];
        if visit.stop {
          break;
        }
        i := i + 1;
      }
    }

    /**
     * Ordered `safeIterate`: lock, walk ORDER, then unconditionally ORDER := ORDER_CACHE and
     * ORDER_CACHE := [], then unlock with the replace policy. `trace` is the arguments `fn` received.
     */
    method SafeIterate(fn: Option<Callback<V>>) returns (trace: seq<(string, Option<V>)>)
      requires Valid()
      modifies this, base
      ensures Valid() && base.locked == old(base.locked)
      ensures fn.None? ==>
                && trace == [] && order == old(order) && orderCache == old(orderCache)
                && base.obj == old(base.obj) && base.cache == old(base.cache)
      ensures fn.Some? ==>
                var visited := Visited(fn.value, old(base.obj), old(order));
                var writes := WritesOf(fn.value, old(base.obj), visited);
                var written := ApplyWrites(old(base.cache), writes);
                && trace == Trace(old(base.obj), visited)
                && order == OrderAfter(old(orderCache), old(base.cache), writes) && orderCache == []
                && (old(base.locked) == 0 ==> base.obj == written && base.cache == map[])
                && (old(base.locked) > 0 ==> base.obj == old(base.obj) && base.cache == written)
      ensures old(base.locked) == 0 && old(OrderInv()) ==> OrderInv()
    {
      trace := [];
      if fn.None? {
        return;
      }
      ghost var inv0, depth0 := OrderInv(), base.locked;
      ghost var committed0, cache0, orderCache0 := base.obj, base.cache, orderCache;
      base.Lock();
      trace := Walk(fn.value);
      order := orderCache;
      orderCache := [];
      base.Unlock(false);
      if depth0 == 0 && inv0 {
        var writes := WritesOf(fn.value, committed0, Visited(fn.value, committed0, old(order)));
        OrderAfterMirrors(orderCache0, cache0, writes);
      }
    }

    /**
     * The inherited `safeExecute` (with the evident intent of its line 161): the callback's
     * writes go through the ordered `set`, but the call does not move ORDER_CACHE into ORDER.
     */
    method SafeExecute(fn: Option<seq<(string, V)>>, shouldNotNewObject: bool)
      requires Valid()
      modifies this, base
      ensures Valid() && base.locked == old(base.locked) && order == old(order)
      ensures fn.None? ==> orderCache == old(orderCache) && base.obj == old(base.obj) && base.cache == old(base.cache)
      ensures fn.Some? ==> orderCache == OrderAfter(old(orderCache), old(base.cache), fn.value)
      ensures fn.Some? && old(base.locked) == 0 ==>
                && base.obj == Recovered(old(base.obj), ApplyWrites(old(base.cache), fn.value), shouldNotNewObject)
                && base.cache == map[]
      ensures fn.Some? && old(base.locked) > 0 ==>
                base.obj == old(base.obj) && base.cache == ApplyWrites(old(base.cache), fn.value)
    {
      if fn.None? {
        return;
      }
      base.Lock();
      ApplyVisit(fn.value);
      base.Unlock(shouldNotNewObject);
    }

    /**
     * `safeExecute` as the ordered store evidently needs it: when the outermost unlock folds
     * the shadow store in, the order lists are reconciled under the same policy.
     */
    method SafeExecuteReconciled(fn: Option<seq<(string, V)>>, shouldNotNewObject: bool)
      requires Valid()
      modifies this, base
      ensures Valid() && base.locked == old(base.locked)
      ensures fn.None? ==>
                && order == old(order) && orderCache == old(orderCache)
                && base.obj == old(base.obj) && base.cache == old(base.cache)
      ensures fn.Some? && old(base.locked) == 0 ==>
                && base.obj == Recovered(old(base.obj), ApplyWrites(old(base.cache), fn.value), shouldNotNewObject)
                && base.cache == map[]
                && order == Reconciled(old(order), OrderAfter(old(orderCache), old(base.cache), fn.value), shouldNotNewObject)
                && orderCache == []
      ensures fn.Some? && old(base.locked) > 0 ==>
                && base.obj == old(base.obj) && base.cache == ApplyWrites(old(base.cache), fn.value)
                && order == old(order) && orderCache == OrderAfter(old(orderCache), old(base.cache), fn.value)
      ensures old(OrderInv()) ==> OrderInv()
    {
      if fn.None? {
        return;
      }
      ghost var inv0 := OrderInv();
      base.Lock();
      ApplyVisit(fn.value);
      if inv0 {
        OrderAfterMirrors(old(orderCache), old(base.cache), fn.value);
      }
      ghost var committed, shadow := base.obj, base.cache;
      var outermost := base.locked == 1;
      base.Unlock(shouldNotNewObject);
      if outermost {
        if inv0 {
          ReconciledMirrors(order, orderCache, committed, shadow, shouldNotNewObject);
        }
        order := Reconciled(order, orderCache, shouldNotNewObject);
        orderCache := [];
      }
    }

    /** The inherited `destroy`: both stores are emptied; the order lists and the depth are not touched. */
    method Destroy()
      requires Valid()
      modifies this, base
      ensures Valid()
      ensures base.obj == map[] && base.cache == map[] && base.locked == old(base.locked)
      ensures order == old(order) && orderCache == old(orderCache)
    {
      base.Destroy();
    }

    /** `destroy` as the ordered store evidently needs it: the order lists are emptied with the stores. */
    method DestroyReconciled()
      requires Valid()
      modifies this, base
      ensures Valid() && OrderInv()
      ensures base.obj == map[] && base.cache == map[] && base.locked == old(base.locked)
      ensures order == [] && orderCache == []
    {
      base.Destroy();
      order := [];
      orderCache := [];
    }
  }
}
