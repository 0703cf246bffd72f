/**
 * The protected key-value store of src/ProtectObject.js: a committed store, a shadow store
 * that receives writes while the object is locked, and a reentrant lock depth.
 */
module ProtectObjects {
  import opened Support

  /**
   * What one call of an iteration callback does: the `set(key, value)` calls it makes on
   * the object (in order), and whether its return value was truthy.
   */
  datatype Visit<V> = Visit(writes: seq<(string, V)>, stop: bool)

  /** An iteration callback, called with the value (None for `undefined`) and the key. */
  type Callback<!V> = (Option<V>, string) -> Visit<V>

  /** How `safeExecute` as written ends when it is given a callback. */
  datatype Completion = Normal | Threw(name: string)

  /** The store reached from `store` by one `set` per write, oldest first. */
  function ApplyWrites<V>(store: map<string, V>, writes: seq<(string, V)>): (r: map<string, V>)
    decreases |writes|
  {
    if writes == [] then store
    else
      var last := writes[|writes| - 1];
      ApplyWrites(store, writes[..|writes| - 1])[last.0 := last.1]
  }

  /** A run of `set` calls adds exactly the written keys to a store and removes none. */
  lemma {:induction false} ApplyWritesKeys<V>(store: map<string, V>, writes: seq<(string, V)>)
    ensures ApplyWrites(store, writes).Keys == store.Keys + (set i | 0 <= i < |writes| :: writes[i].0)
    decreases |writes|
  {
    if writes != [] {
      var prev := writes[..|writes| - 1];
      ApplyWritesKeys(store, prev);
      assert (set i | 0 <= i < |writes| :: writes[i].0) == (set i | 0 <= i < |prev| :: prev[i].0) + {writes[|writes| - 1].0};
    }
  }

  /** The value of the most recent write to `key`, if there is one. */
  function LastWrite<V>(writes: seq<(string, V)>, key: string): (r: Option<V>)
    ensures r.Some? <==> exists i :: 0 <= i < |writes| && writes[i].0 == key
    decreases |writes|
  {
    if writes == [] then None
    else if writes[|writes| - 1].0 == key then Some(writes[|writes| - 1].1)
    else
      var r := LastWrite(writes[..|writes| - 1], key);
      assert forall i :: 0 <= i < |writes| - 1 ==> writes[..|writes| - 1][i] == writes[i];
      r
  }

  /** A found last write is a write of that key after which no write names the key again. */
  lemma {:induction false} LastWriteIsLast<V>(writes: seq<(string, V)>, key: string)
    ensures LastWrite(writes, key).Some? ==>
              exists i :: 0 <= i < |writes| && writes[i] == (key, LastWrite(writes, key).value)
                          && forall j :: i < j < |writes| ==> writes[j].0 != key
    decreases |writes|
  {
    if writes != [] && writes[|writes| - 1].0 != key {
      var prev := writes[..|writes| - 1];
      LastWriteIsLast(prev, key);
      if LastWrite(prev, key).Some? {
        var i :| 0 <= i < |prev| && prev[i] == (key, LastWrite(prev, key).value)
                 && forall j :: i < j < |prev| ==> prev[j].0 != key;
        assert writes[i] == prev[i];
        assert forall j :: i < j < |writes| ==> writes[j].0 != key by {
          forall j | i < j < |writes|
            ensures writes[j].0 != key
          {
            if j < |prev| {
              assert writes[j] == prev[j];
            }
          }
        }
      }
    }
  }

  /** After a run of `set` calls each key reads as its last write, or as before when never written. */
  lemma {:induction false} ApplyWritesLookup<V>(store: map<string, V>, writes: seq<(string, V)>, key: string)
    ensures Lookup(ApplyWrites(store, writes), key)
            == if LastWrite(writes, key).Some? then LastWrite(writes, key) else Lookup(store, key)
    decreases |writes|
  {
    if writes != [] {
      ApplyWritesLookup(store, writes[..|writes| - 1], key);
    }
  }

  /** Replaying two runs of `set` calls one after the other is replaying their concatenation. */
  lemma {:induction false} ApplyWritesConcat<V>(store: map<string, V>, a: seq<(string, V)>, b: seq<(string, V)>)
    ensures ApplyWrites(store, a + b) == ApplyWrites(ApplyWrites(store, a), b)
    decreases |b|
  {
    if b == [] {
      assert a + b == a;
    } else {
      assert (a + b)[..|a + b| - 1] == a + b[..|b| - 1];
      ApplyWritesConcat(store, a, b[..|b| - 1]);
    }
  }

  /** A run of `set` calls on an empty store leaves exactly the written keys, each at its last value. */
  lemma FreshStoreHoldsWrites<V>(writes: seq<(string, V)>, key: string)
    ensures Lookup(ApplyWrites(map[], writes), key) == LastWrite(writes, key)
  {
    ApplyWritesLookup(map[], writes, key);
  }

  /** A callback that never returns truthy is handed every key, in order. */
  lemma {:induction false} NeverStopsVisitsAll<V>(fn: Callback<V>, committed: map<string, V>, keys: seq<string>)
    requires forall v, k :: !fn(v, k).stop
    ensures Visited(fn, committed, keys) == keys
    decreases |keys|
  {
    if keys != [] {
      NeverStopsVisitsAll(fn, committed, keys[1..]);
    }
  }

  /** Visits whose callback makes no `set` call contribute no writes. */
  lemma {:induction false} SilentCallbackWritesNothing<V>(fn: Callback<V>, committed: map<string, V>, visited: seq<string>)
    requires forall v, k :: fn(v, k).writes == []
    ensures WritesOf(fn, committed, visited) == []
    decreases |visited|
  {
    if visited != [] {
      SilentCallbackWritesNothing(fn, committed, visited[..|visited| - 1]);
    }
  }

  /**
   * The committed store that `recovery` leaves. A falsy flag makes the shadow the committed
   * store; a truthy flag copies every shadow entry over the committed store.
   */
  function Recovered<V>(committed: map<string, V>, shadow: map<string, V>, shouldNotNewObject: bool): (r: map<string, V>)
    ensures !shouldNotNewObject ==> r == shadow
    ensures shouldNotNewObject ==> r.Keys == committed.Keys + shadow.Keys
    ensures shouldNotNewObject ==> forall k :: k in shadow ==> r[k] == shadow[k]
    ensures shouldNotNewObject ==> forall k :: k in committed && k !in shadow ==> r[k] == committed[k]
  {
    if shouldNotNewObject then committed + shadow else shadow
  }

  /**
   * The keys an iteration over `keys` hands to `fn`, in order: every key up to and
   * including the first one for which `fn` returns truthy.
   */
  function Visited<V>(fn: Callback<V>, committed: map<string, V>, keys: seq<string>): (r: seq<string>)
    ensures |r| <= |keys| && r == keys[..|r|]
    decreases |keys|
  {
    if keys == [] then []
    else if fn(Lookup(committed, keys[0]), keys[0]).stop then [keys[0]]
    else [keys[0]] + Visited(fn, committed, keys[1..])
  }

  /**
   * The walk stops right after the first truthy result: every visited key but the last got
   * a falsy result, and when keys remain unvisited the last visited one got a truthy result.
   */
  lemma {:induction false} VisitedStopsAtFirstTruthy<V>(fn: Callback<V>, committed: map<string, V>, keys: seq<string>)
    ensures var r := Visited(fn, committed, keys);
            && (forall j :: 0 <= j < |r| - 1 ==> !fn(Lookup(committed, r[j]), r[j]).stop)
            && (|r| < |keys| ==> |r| > 0 && fn(Lookup(committed, r[|r| - 1]), r[|r| - 1]).stop)
    decreases |keys|
  {
    if keys != [] && !fn(Lookup(committed, keys[0]), keys[0]).stop {
      VisitedStopsAtFirstTruthy(fn, committed, keys[1..]);
      var r := Visited(fn, committed, keys);
      assert r == [keys[0]] + Visited(fn, committed, keys[1..]);
    }
  }

  /** The arguments the callback receives on the keys `visited`: each key with its committed value. */
  function Trace<V>(committed: map<string, V>, visited: seq<string>): (r: seq<(string, Option<V>)>)
    ensures |r| == |visited|
    decreases |visited|
  {
    if visited == [] then []
    else
      var k := visited[|visited| - 1];
      Trace(committed, visited[..|visited| - 1]) + [(k, Lookup(committed, k))]
  }

  /** Call i of the callback receives the i-th visited key and that key's committed value. */
  lemma {:induction false} TraceArgs<V>(committed: map<string, V>, visited: seq<string>)
    ensures forall i :: 0 <= i < |visited| ==>
              Trace(committed, visited)[i] == (visited[i], Lookup(committed, visited[i]))
    decreases |visited|
  {
    if visited != [] {
      var prev := visited[..|visited| - 1];
      TraceArgs(committed, prev);
      assert forall i :: 0 <= i < |prev| ==> prev[i] == visited[i];
    }
  }

  /** Every `set` call the callback makes while visiting `visited`, in call order. */
  function WritesOf<V>(fn: Callback<V>, committed: map<string, V>, visited: seq<string>): (r: seq<(string, V)>)
    decreases |visited|
  {
    if visited == [] then []
    else
      var k := visited[|visited| - 1];
      WritesOf(fn, committed, visited[..|visited| - 1]) + fn(Lookup(committed, k), k).writes
  }

  /**
   * One step of the walk over `keys` from position `i`: the key there is visited, and the
   * walk ends there exactly when `fn` returned truthy.
   */
  lemma WalkStep<V>(fn: Callback<V>, committed: map<string, V>, keys: seq<string>, i: nat, visited: seq<string>)
    requires i < |keys| && visited == keys[..i]
    requires Visited(fn, committed, keys) == visited + Visited(fn, committed, keys[i..])
    ensures fn(Lookup(committed, keys[i]), keys[i]).stop ==> Visited(fn, committed, keys) == visited + [keys[i]]
    ensures !fn(Lookup(committed, keys[i]), keys[i]).stop ==>
              && visited + [keys[i]] == keys[..i + 1]
              && Visited(fn, committed, keys) == visited + [keys[i]] + Visited(fn, committed, keys[i + 1..])
  {
    assert keys[i..][0] == keys[i] && keys[i..][1..] == keys[i + 1..];
  }

  /** Visiting one more key appends its writes and its arguments. */
  lemma VisitOneMore<V>(fn: Callback<V>, committed: map<string, V>, visited: seq<string>, key: string)
    ensures WritesOf(fn, committed, visited + [key])
            == WritesOf(fn, committed, visited) + fn(Lookup(committed, key), key).writes
    ensures Trace(committed, visited + [key]) == Trace(committed, visited) + [(key, Lookup(committed, key))]
  {
    assert (visited + [key])[..|visited|] == visited;
  }

  /**
   * An iteration over a duplicate-free enumeration of the committed keys visits only
   * committed keys, each at most once, and hands each its committed value.
   */
  lemma VisitsCommittedOnce<V>(fn: Callback<V>, committed: map<string, V>, keys: seq<string>)
    requires NoDup(keys) && Elems(keys) == committed.Keys
    ensures NoDup(Visited(fn, committed, keys))
    ensures forall k :: k in Visited(fn, committed, keys) ==> k in committed
    ensures forall e :: e in Trace(committed, Visited(fn, committed, keys)) ==>
              e.0 in committed && e.1 == Some(committed[e.0])
  {
    var r := Visited(fn, committed, keys);
    forall k | k in r ensures k in committed {
      var i :| 0 <= i < |r| && r[i] == k;
      assert keys[i] == k;
      assert k in Elems(keys);
    }
    TraceArgs(committed, r);
  }

  /** The store object: two maps and the lock depth, updated in place. */
  class ProtectObject<V> {
    /** OBJECT: the committed store. */
    var obj: map<string, V>
    /** OBJECT_CACHE: the shadow store, written while locked. */
    var cache: map<string, V>
    /** LOCKED: the lock depth; 0 means unlocked. */
    var locked: nat

    /** The shadow is empty whenever the object is unlocked. */
    ghost predicate Valid()
      reads this
    {
      locked == 0 ==> cache == map[]
    }

    constructor ()
      ensures Valid()
      ensures obj == map[] && cache == map[] && locked == 0
    {
      obj := map[];
      cache := map[];
      locked := 0;
    }

    /** `isLocked`: whether the depth is non-zero. */
    function IsLocked(): (b: bool)
      reads this
      ensures b <==> locked > 0
    {
      locked != 0
    }

    /** `forceGet`: read the committed store whatever the depth. */
    function ForceGet(key: string): (r: Option<V>)
      reads this
      ensures r.Some? <==> key in obj
      ensures r.Some? ==> r.value == obj[key]
    {
      Lookup(obj, key)
    }

    /** `get`: read the active store, the shadow while locked. */
    function Get(key: string): (r: Option<V>)
      reads this
      ensures locked == 0 ==> r == ForceGet(key)
      ensures locked > 0 ==> r == Lookup(cache, key)
    {
      if locked != 0 then Lookup(cache, key) else Lookup(obj, key)
    }

    /** `hasKey`: membership in the active store, the one `get` reads. */
    function HasKey(key: string): (b: bool)
      reads this
      ensures b <==> Get(key).Some?
    {
      key in (if locked != 0 then cache else obj)
    }

    /** `set`: write into the active store. */
    method Set(key: string, value: V)
      requires Valid()
      modifies this
      ensures Valid() && locked == old(locked)
      ensures old(locked) == 0 ==> obj == old(obj)[key := value] && cache == old(cache)
      ensures old(locked) > 0 ==> cache == old(cache)[key := value] && obj == old(obj)
      ensures Get(key) == Some(value)
      ensures forall k :: k != key ==> Get(k) == old(Get(k))
      ensures locked > 0 ==> forall k :: ForceGet(k) == old(ForceGet(k))
    {
      if locked != 0 {
        cache := cache[key := value];
      } else {
        obj := obj[key := value];
      }
    }

    /** `lock` / `[LOCK]`: the `>= 0` guard always holds, so the depth always grows by one. */
    method Lock()
      modifies this
      ensures Valid()
      ensures locked == old(locked) + 1 && obj == old(obj) && cache == old(cache)
    {
      locked := locked + 1;
    }

    /**
     * `unlock` / `[UNLOCK]`: a no-op at depth 0; otherwise one level less, and `recovery`
     * when the depth reaches 0.
     */
    method Unlock(shouldNotNewObject: bool)
      requires Valid()
      modifies this
      ensures Valid()
      ensures old(locked) == 0 ==> locked == 0 && obj == old(obj) && cache == old(cache)
      ensures old(locked) > 1 ==> locked == old(locked) - 1 && obj == old(obj) && cache == old(cache)
      ensures old(locked) == 1 ==>
                locked == 0 && obj == Recovered(old(obj), old(cache), shouldNotNewObject) && cache == map[]
    {
      if locked == 0 {
        return;
      }
      locked := locked - 1;
      if locked == 0 {
        Recovery(shouldNotNewObject);
      }
    }

    /** `recovery`: fold the shadow into the committed store and empty the shadow. */
    method Recovery(shouldNotNewObject: bool)
      modifies this
      ensures obj == Recovered(old(obj), old(cache), shouldNotNewObject)
      ensures cache == map[] && locked == old(locked)
    {
      if shouldNotNewObject {
        var pending := cache.Keys;
        while pending != {}
          invariant pending <= cache.Keys
          invariant cache == old(cache) && locked == old(locked)
          invariant obj == old(obj) + (cache - pending)
          decreases pending
        {
          var key :| key in pending;
          assert old(obj) + (cache - (pending - {key})) == (old(obj) + (cache - pending))[key := cache[key]];
          obj := obj[key := cache[key]];
          pending := pending - {key};
        }
        assert cache - {} == cache;
      } else {
        obj := cache;
      }
      cache := map[];
    }

    /** The `set` calls one callback invocation makes, replayed while the object is locked. */
    method ApplyVisit(writes: seq<(string, V)>)
      requires Valid() && locked > 0
      modifies this
      ensures Valid() && locked == old(locked) && obj == old(obj)
      ensures cache == ApplyWrites(old(cache), writes)
    {
      for j := 0 to |writes|
        invariant locked == old(locked) && obj == old(obj)
        invariant cache == ApplyWrites(old(cache), writes[..j])
      {
        assert writes[..j + 1][..j] == writes[..j];
        Set(writes[j].0, writes[j].1);
      }
      assert writes[..|writes|] == writes;
    }

    /**
     * `safeIterate`: lock, hand each committed key and its value to `fn` until it returns
     * truthy, then unlock with the replace policy. `keys` is the for-in enumeration order
     * of the committed store; `trace` is the arguments `fn` received.
     */
    method SafeIterate(fn: Option<Callback<V>>, keys: seq<string>) returns (trace: seq<(string, Option<V>)>)
      requires Valid()
      requires NoDup(keys) && Elems(keys) == obj.Keys
      modifies this
      ensures Valid() && locked == old(locked)
      ensures fn.None? ==> trace == [] && obj == old(obj) && cache == old(cache)
      ensures fn.Some? ==>
                var visited := Visited(fn.value, old(obj), keys);
                var written := ApplyWrites(old(cache), WritesOf(fn.value, old(obj), visited));
                && trace == Trace(old(obj), visited)
                && (old(locked) == 0 ==> obj == written && cache == map[])
                && (old(locked) > 0 ==> obj == old(obj) && cache == written)
    {
      trace := [];
      if fn.None? {
        return;
      }
      Lock();
      trace := Walk(fn.value, keys);
      Unlock(false);
    }

    /** The for-in loop of `safeIterate`, run while locked: visit `keys` until `fn` returns truthy. */
    method Walk(fn: Callback<V>, keys: seq<string>) returns (trace: seq<(string, Option<V>)>)
      requires Valid() && locked > 0
      requires Elems(keys) <= obj.Keys
      modifies this
      ensures Valid() && locked == old(locked) && obj == old(obj)
      ensures trace == Trace(obj, Visited(fn, obj, keys))
      ensures cache == ApplyWrites(old(cache), WritesOf(fn, obj, Visited(fn, obj, keys)))
    {
      trace := [];
      ghost var committed, cache0 := obj, cache;
      ghost var visited: seq<string> := [];
      var i := 0;
      while i < |keys|
        invariant 0 <= i <= |keys| && visited == keys[..i]
        invariant Valid() && locked == old(locked) && obj == committed
        invariant Visited(fn, committed, keys) == visited + Visited(fn, committed, keys[i..])
        invariant trace == Trace(committed, visited)
        invariant cache == ApplyWrites(cache0, WritesOf(fn, committed, visited))
      {
        var key := keys[i];
        assert key in Elems(keys);
        var value := Some(obj[key]);
        assert value == Lookup(committed, key);
        var visit := fn(value, key);
        WalkStep(fn, committed, keys, i, visited);
        VisitOneMore(fn, committed, visited, key);
        ApplyWritesConcat(cache0, WritesOf(fn, committed, visited), visit.writes);
        ApplyVisit(visit.writes);
        trace := trace + [(key, value)];
        visited := visited + [key];
        if visit.stop {
          break;
        }
        i := i + 1;
      }
    }

    /**
     * `safeExecute` with the evident intent of line 161: lock, run `fn` once (modelled as the
     * `set` calls it makes), then unlock with the caller's policy.
     */
    method SafeExecute(fn: Option<seq<(string, V)>>, shouldNotNewObject: bool)
      requires Valid()
      modifies this
      ensures Valid() && locked == old(locked)
      ensures fn.None? ==> obj == old(obj) && cache == old(cache)
      ensures fn.Some? && old(locked) == 0 ==>
                obj == Recovered(old(obj), ApplyWrites(old(cache), fn.value), shouldNotNewObject) && cache == map[]
      ensures fn.Some? && old(locked) > 0 ==>
                obj == old(obj) && cache == ApplyWrites(old(cache), fn.value)
    {
      if fn.None? {
        return;
      }
      Lock();
      ApplyVisit(fn.value);
      Unlock(shouldNotNewObject);
    }

    /**
     * `safeExecute` as written: line 161 reads the undeclared name `shuouldNotOverride`,
     * which throws a ReferenceError after `fn` has run, so the lock is never released.
     */
    method SafeExecuteAsWritten(fn: Option<seq<(string, V)>>, shouldNotNewObject: bool) returns (outcome: Completion)
      requires Valid()
      modifies this
      ensures Valid()
      ensures fn.None? ==> outcome == Normal && locked == old(locked) && obj == old(obj) && cache == old(cache)
      ensures fn.Some? ==> outcome == Threw("ReferenceError") && locked == old(locked) + 1
      ensures fn.Some? ==> obj == old(obj) && cache == ApplyWrites(old(cache), fn.value)
    {
      if fn.None? {
        return Normal;
      }
      Lock();
      ApplyVisit(fn.value);
      outcome := Threw("ReferenceError");
    }

    /** `destroy`: empty both stores; the depth is left as it is. */
    method Destroy()
      requires Valid()
      modifies this
      ensures Valid()
      ensures obj == map[] && cache == map[] && locked == old(locked)
    {
      obj := map[];
      cache := map[];
    }
  }
}
