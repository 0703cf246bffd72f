# ProtectObject and OrderedProtectObject in Dafny

This project models two JavaScript classes.

**ProtectObject** is a double-buffered key-value store guarded by a reentrant lock counter:

- `OBJECT` is the committed store.
- `OBJECT_CACHE` is the shadow store.
- `LOCKED` is the lock depth.

While the depth is non-zero, `set`, `get` and `hasKey` go to the shadow, and `forceGet` keeps reading the committed store. The unlock that brings the depth back to 0 runs `recovery`, which folds the shadow into the committed store in one of two ways:

- **replace** (falsy flag): the committed store becomes the shadow;
- **overlay** (truthy flag): each shadow entry is copied over the committed store.

`safeIterate` locks, hands each committed key and its value to a callback until the callback returns truthy, then unlocks with the replace policy. `safeExecute` locks, runs a callback once, and is meant to unlock (see Findings). `destroy` empties both stores.

**OrderedProtectObject** extends it with two first-insertion-order lists:

- `ORDER` for the committed store;
- `ORDER_CACHE` for the shadow.

Its `set` appends a key to the active list when `hasKey` reports the key absent. Its `safeIterate` walks `ORDER` by index, reading each value through `forceGet`. It then sets `ORDER` to `ORDER_CACHE`, empties `ORDER_CACHE`, and unlocks.

## How the model is built

- `support.dfy` (module `Support`) has the shared helpers:
  - `Option`, with `None` standing for `undefined`;
  - `Lookup` for reading a plain object;
  - `NoDup` and `Elems` for lists.
- `protect_object.dfy` (module `ProtectObjects`) has the specification functions and the class `ProtectObject<V>`. The class has the fields `obj`, `cache` and `locked: nat`.
  - Each JavaScript method is a Dafny method or function on that class.
  - The two loops of the source keep their form: the for-in copy in `recovery` and the early-exit walk in `safeIterate`. Each loop is a `while` or `for` loop proved against a specification function: `Recovered`, `Visited`, `Trace`, `WritesOf` and `ApplyWrites`.
- `ordered_protect_object.dfy` (module `OrderedProtectObjects`) has the class `OrderedProtectObject<V>`.
  - Dafny classes cannot extend a concrete class, so it owns a `ProtectObject<V>` as `base`, plus the fields `order` and `orderCache`.
  - The inherited `safeExecute` and `destroy` are modelled separately on this class. They leave the order lists exactly as the inherited code does.
- `scenarios.dfy` (module `Scenarios`) has concrete runs:
  - what test/ProtectObjectSpec.js checks;
  - nested locking and both recovery policies;
  - the inputs behind the findings below.

Callbacks are pure functions. An iteration callback is called with the value and the key. It returns a `Visit`: the `set` calls it makes, in order, and whether its result was truthy. Those writes are replayed through the object's own `set`; for the ordered class that is the ordered `set`. A `safeExecute` callback is modelled by the list of `set` calls it makes; `None` stands for a missing callback.

The JavaScript for-in order of the committed store is not defined by the code. It is a parameter `keys` of `ProtectObject.SafeIterate`, which requires it to list each committed key exactly once. Each `SafeIterate` returns `trace`: the (key, value) arguments its callback received, in call order.

Two behaviours to note:

- an `unlock` at depth 0 returns silently (src/ProtectObject.js:123-125);
- the overlay recovery overwrites committed values with shadow values (src/ProtectObject.js:140-145).

## Model

| member | source | states |
|---|---|---|
| ProtectObjects.LastWrite | src/ProtectObject.js:77-80 | a run of `set` calls has a last write to a key exactly when some call in it wrote that key |
| ProtectObjects.LastWriteIsLast | src/ProtectObject.js:77-80 | a found last write is a write of that key with that value, and no later write names the key |
| ProtectObjects.ApplyWritesKeys | src/ProtectObject.js:77-80 | a run of `set` calls adds exactly the written keys to a store and removes none |
| ProtectObjects.ApplyWritesLookup | src/ProtectObject.js:77-80 | after a run of `set` calls every key reads as its last write, or as before when it was never written |
| ProtectObjects.ApplyWritesConcat | src/ProtectObject.js:77-80 | replaying two runs of `set` calls one after the other equals replaying their concatenation |
| ProtectObjects.FreshStoreHoldsWrites | src/ProtectObject.js:147-150 | a run of `set` calls on an empty store leaves exactly the written keys, each at its last value, so after an iteration at depth 0 the committed store holds exactly the callback's writes |
| ProtectObjects.NeverStopsVisitsAll | src/ProtectObject.js:108-114 | a callback that never returns truthy is handed every key, in enumeration order |
| ProtectObjects.SilentCallbackWritesNothing | src/ProtectObject.js:108-114 | visits whose callback makes no `set` call contribute no writes |
| ProtectObjects.Recovered | src/ProtectObject.js:139-149 | replace yields exactly the shadow; overlay yields the union of keys, shadow values for shadow keys and committed values for keys only in the committed store |
| ProtectObjects.Visited | src/ProtectObject.js:108-114 | the keys the walk visits are a prefix of the enumeration |
| ProtectObjects.VisitedStopsAtFirstTruthy | src/ProtectObject.js:110-113 | every visited key but the last got a falsy result; when keys remain unvisited, the last visited key got a truthy result |
| ProtectObjects.Trace | src/ProtectObject.js:110 | the callback is called once per visited key |
| ProtectObjects.TraceArgs | src/ProtectObject.js:110 | call i of the callback receives the i-th visited key together with its committed value |
| ProtectObjects.WalkStep | src/ProtectObject.js:108-114 | one step of the walk visits the key at the current position and ends the walk exactly when the result is truthy |
| ProtectObjects.VisitOneMore | src/ProtectObject.js:110 | visiting one more key appends that visit's writes and its arguments |
| ProtectObjects.VisitsCommittedOnce | src/ProtectObject.js:108-110 | an iteration over an enumeration of the committed keys visits only committed keys, each at most once, and passes each key's committed value |
| ProtectObjects.ProtectObject.constructor | src/ProtectObject.js:13-18 | both stores start empty and the depth starts at 0 |
| ProtectObjects.ProtectObject.IsLocked | src/ProtectObject.js:26-28 | true exactly when the depth is non-zero |
| ProtectObjects.ProtectObject.ForceGet | src/ProtectObject.js:55-57 | reads the committed store at any depth: present exactly when the key is committed, with its committed value |
| ProtectObjects.ProtectObject.Get | src/ProtectObject.js:89-91 | reads the committed store when unlocked and only the shadow while locked |
| ProtectObjects.ProtectObject.HasKey | src/ProtectObject.js:66-68 | true exactly when `get` finds the key, i.e. in the shadow while locked |
| ProtectObjects.ProtectObject.Set | src/ProtectObject.js:77-80 | writes only the active store; afterwards `get(key)` is the value and every other key reads as before; while locked every `forceGet` is unchanged |
| ProtectObjects.ProtectObject.Lock | src/ProtectObject.js:118-120 | the depth grows by exactly one and neither store changes |
| ProtectObjects.ProtectObject.Unlock | src/ProtectObject.js:122-135 | a no-op at depth 0; a decrement alone above depth 1; from depth 1, depth 0 with the committed store as `Recovered` gives and an empty shadow |
| ProtectObjects.ProtectObject.Recovery | src/ProtectObject.js:138-151 | the committed store becomes `Recovered(committed, shadow, flag)`, the shadow becomes empty and the depth is unchanged |
| ProtectObjects.ProtectObject.ApplyVisit | src/ProtectObject.js:78-79 | the `set` calls of one callback run go to the shadow in order; the committed store is unchanged |
| ProtectObjects.ProtectObject.Walk | src/ProtectObject.js:108-114 | the callback receives `Trace` of the visited prefix, and the shadow receives all of its writes |
| ProtectObjects.ProtectObject.SafeIterate | src/ProtectObject.js:101-116 | with no callback nothing changes; otherwise the depth returns to its old value. At depth 0 the committed store becomes the callback's writes replayed on the shadow (empty at depth 0) and the shadow is emptied. Nested, the writes stay in the shadow |
| ProtectObjects.ProtectObject.SafeExecute | src/ProtectObject.js:154-162 | with the intended `unlock(shouldNotNewObject)`: the depth is restored; at depth 0 the committed store is `Recovered` from the callback's writes under the caller's policy |
| ProtectObjects.ProtectObject.SafeExecuteAsWritten | src/ProtectObject.js:154-162 | as written, a call with a callback ends in a ReferenceError with the depth one higher and the writes left in the shadow |
| ProtectObjects.ProtectObject.Destroy | src/ProtectObject.js:169-172 | both stores become empty and the depth is unchanged |
| OrderedProtectObjects.OrderAfter | src/OrderedProtectObject.js:29-30 | the ordered `set` only appends: the list before a run of `set` calls is a prefix of the list after it |
| OrderedProtectObjects.OrderAfterMirrors | src/OrderedProtectObject.js:27-34 | replaying ordered `set` calls keeps an order list duplicate-free and equal, as a set, to its store's keys |
| OrderedProtectObjects.OrderAfterConcat | src/OrderedProtectObject.js:27-34 | replaying two runs of ordered `set` calls one after the other equals replaying their concatenation |
| OrderedProtectObjects.Unseen | src/ProtectObject.js:139-146 | for the corrected `safeExecute`: the overlay policy carried over to the order lists, i.e. the shadow list's keys missing from the committed list, duplicate-free when the shadow list is |
| OrderedProtectObjects.Reconciled | src/ProtectObject.js:139-149 | for the corrected `safeExecute`: replace takes the shadow list; overlay keeps the committed list as a prefix and appends exactly the shadow keys it lacks |
| OrderedProtectObjects.ReconciledMirrors | src/ProtectObject.js:139-149 | reconciling the order lists under a recovery policy leaves a duplicate-free list of exactly the keys `Recovered` leaves |
| OrderedProtectObjects.OrderedProtectObject.constructor | src/OrderedProtectObject.js:12-17 | empty stores, depth 0 and empty order lists |
| OrderedProtectObjects.OrderedProtectObject.Set | src/OrderedProtectObject.js:27-34 | appends the key to ORDER (unlocked) or ORDER_CACHE (locked) exactly when `hasKey` was false before the write; the value write is the base `set`; the order invariant is preserved |
| OrderedProtectObjects.OrderedProtectObject.ApplyVisit | src/OrderedProtectObject.js:27-34 | one callback run's writes go through the ordered `set` while locked: shadow and ORDER_CACHE are updated, ORDER and the committed store are not |
| OrderedProtectObjects.OrderedProtectObject.Walk | src/OrderedProtectObject.js:50-58 | visits ORDER[0], ORDER[1], ... up to the length at loop start, until the first truthy result, each with its `forceGet` value |
| OrderedProtectObjects.OrderedProtectObject.SafeIterate | src/OrderedProtectObject.js:44-63 | with no callback nothing changes; otherwise ORDER becomes the order list of the shadow after the walk's writes and ORDER_CACHE becomes empty, at any depth, and the stores change as in the base `safeIterate`. From depth 0 the order invariant is preserved |
| OrderedProtectObjects.OrderedProtectObject.SafeExecute | src/ProtectObject.js:154-162 | the inherited `safeExecute` routes the writes through the ordered `set` but leaves ORDER unchanged, even when the writes are committed |
| OrderedProtectObjects.OrderedProtectObject.SafeExecuteReconciled | src/ProtectObject.js:154-162 | the corrected `safeExecute` reconciles the order lists on the outermost unlock and preserves the order invariant |
| OrderedProtectObjects.OrderedProtectObject.Destroy | src/ProtectObject.js:169-172 | the inherited `destroy` empties the stores and leaves both order lists and the depth unchanged |
| OrderedProtectObjects.OrderedProtectObject.DestroyReconciled | src/ProtectObject.js:169-172 | the corrected `destroy` empties the order lists too, so the order invariant holds afterwards |
| Scenarios.PassOfRecord | src/OrderedProtectObject.js:50-58 | a pass of a callback that only records its arguments visits every listed key, writes nothing and receives each committed value |
| Scenarios.UnlockedReadBack | test/ProtectObjectSpec.js:5-11 | while unlocked, `get` and `forceGet` read back the value just set |
| Scenarios.LockedReads | test/ProtectObjectSpec.js:31-39 | while locked, `get` and `hasKey` miss a committed key and `forceGet` still finds it |
| Scenarios.IterateAll | test/ProtectObjectSpec.js:43-56 | iteration hands each of name, age and sex its value |
| Scenarios.IterateAddsAfterPass | test/ProtectObjectSpec.js:58-73 | a key set by the callback is not visited in the same pass and reads back afterwards |
| Scenarios.IterateClears | test/ProtectObjectSpec.js:75-85 | a callback that sets nothing leaves the committed store empty |
| Scenarios.IterateStopsEarly | src/ProtectObject.js:110-113 | a truthy result on the second key ends the pass there |
| Scenarios.IterateWithoutCallback | test/ProtectObjectSpec.js:88-93 | without a callback nothing is visited and nothing changes |
| Scenarios.NestedLock | src/ProtectObject.js:118-135 | two locks and one unlock leave the object locked with the write still in the shadow |
| Scenarios.UnbalancedUnlock | src/ProtectObject.js:123-125 | an unlock at depth 0 changes nothing |
| Scenarios.ReplaceRecovery | src/ProtectObject.js:147-150 | replace recovery drops a key committed before the lock and not set again |
| Scenarios.OverlayRecovery | src/ProtectObject.js:139-146 | overlay recovery overwrites the committed value, adds the new key and keeps the untouched one |
| Scenarios.DestroyKeepsDepth | src/ProtectObject.js:169-172 | `destroy` while locked empties the stores and the object stays locked |
| Scenarios.SafeExecuteTypoKeepsLock | src/ProtectObject.js:161 | after `safeExecute` as written, the object stays locked and later writes never reach the committed store |
| Scenarios.SafeExecuteReleasesLock | src/ProtectObject.js:161 | with the intended unlock, the lock is released and later writes are committed |
| Scenarios.SetZThenAThenZ | src/OrderedProtectObject.js:27-34 | `set('z',1); set('a',2); set('z',3)` leaves ORDER `[z, a]` and the committed store `{z: 3, a: 2}` |
| Scenarios.OrderedFirstInsertion | src/OrderedProtectObject.js:29-33 | `set('z',1); set('a',2); set('z',3)` then an ordered pass visits z with 3, then a with 2 |
| Scenarios.RewritingPass | src/OrderedProtectObject.js:44-63 | a pass over x whose callback writes y, x and y leaves ORDER `[y, x]`, the committed store `{y: 2, x: 3}` and the depth 0 |
| Scenarios.OrderedPassAddsKeys | src/OrderedProtectObject.js:50-62 | keys set during an ordered pass are not visited in it, and the next pass visits them in first-write order |
| Scenarios.RewritePass | src/OrderedProtectObject.js:29-31 | replaying the writes y, x, y on an empty shadow lists y then x, each once |
| Scenarios.ResetWithDestroy | src/ProtectObject.js:169-172 | `set('a',1); destroy(); set('a',2)` with the inherited `destroy` leaves ORDER `[a, a]` |
| Scenarios.OrderedDestroyDuplicates | src/ProtectObject.js:169-172 | after the inherited `destroy`, setting a key again lists it twice in ORDER and a pass visits it twice |
| Scenarios.ResetWithDestroyReconciled | src/ProtectObject.js:169-172 | the same calls with the corrected `destroy` leave ORDER `[a]` |
| Scenarios.OrderedDestroyReconciled | src/ProtectObject.js:169-172 | with the corrected `destroy`, setting a key again lists it once |
| Scenarios.OrderedExecuteHidesKey | src/ProtectObject.js:154-162 | with the line-161 typo fixed, a key set inside the inherited `safeExecute` is committed but not in ORDER, so the next pass skips it |
| Scenarios.OrderedExecuteThenIterate | src/OrderedProtectObject.js:60-62 | after that call, the next ordered pass moves the key into ORDER while its replace recovery drops the key's value, so ORDER lists a key the committed store lacks |
| Scenarios.OrderedExecuteReconciledShowsKey | src/ProtectObject.js:154-162 | with the corrected `safeExecute`, the committed key is in ORDER and a pass visits it |

## Left out

- `key in obj` in `hasKey` (src/ProtectObject.js:67) also finds names inherited along the prototype chain, such as `toString`. Stores are plain maps, so `HasKey` finds only own keys.
- The for-in enumeration order (src/ProtectObject.js:108, 140) is not fixed by the code. `ProtectObject.SafeIterate` takes it as the `keys` parameter. `Recovery` copies keys in an unspecified order, which does not affect its result.
- The `context` argument (the callback's `this`), the Symbol-keyed private slots and the dynamically typed values. Values are a type parameter `V`; the scenarios use a two-case `JsValue`.
- The `wrong lock state.` throw (src/ProtectObject.js:126-128). The depth is a `nat` and can never be negative, so that branch cannot be reached.
- Callbacks that do anything other than `set` calls: reads, exceptions, nested `safeIterate`, `unlock` or `destroy`. A nested ordered iterate would replace ORDER in the middle of a walk, which the model does not capture.
- The protected `lock`/`unlock` wrappers (src/ProtectObject.js:35-37, 44-46) only forward to `[LOCK]`/`[UNLOCK]`, so `Lock` and `Unlock` model both.
- OrderedProtectObjects.OrderedProtectObject.SafeExecute: models the inherited `safeExecute` with the intended `unlock(shouldNotNewObject)`. As written, a call also ends in the ReferenceError that `SafeExecuteAsWritten` models.
- Module import and export.

## Findings

| source | as written | input that shows it | evidently intended | confidence | as-written member | corrected member |
|---|---|---|---|---|---|---|
| src/ProtectObject.js:161 | `safeExecute` unlocks with the undeclared name `shuouldNotOverride`, which throws a ReferenceError once the callback has run | `set('name', 'yibuyisheng'); safeExecute(() => {}); set('name', 'other')`: the object stays locked and `forceGet('name')` is still `'yibuyisheng'` | `unlock(shouldNotNewObject)`: the depth returns to its old value | not executed | ProtectObjects.ProtectObject.SafeExecuteAsWritten, Scenarios.SafeExecuteTypoKeepsLock | ProtectObjects.ProtectObject.SafeExecute, Scenarios.SafeExecuteReleasesLock |
| src/ProtectObject.js:169-172 | the ordered store inherits `destroy`, which empties the stores and leaves ORDER as it is | `set('a', 1); destroy(); set('a', 2)` on an ordered store: ORDER is `['a', 'a']` and a pass visits `a` twice | ORDER and ORDER_CACHE are emptied with the stores | not executed | OrderedProtectObjects.OrderedProtectObject.Destroy, Scenarios.ResetWithDestroy, Scenarios.OrderedDestroyDuplicates | OrderedProtectObjects.OrderedProtectObject.DestroyReconciled, Scenarios.OrderedDestroyReconciled |
| src/ProtectObject.js:154-162 | (assuming the line-161 typo is fixed) the ordered store inherits `safeExecute`; keys it sets are recorded in ORDER_CACHE, which the call does not move into ORDER. The next ordered `safeIterate` moves them into ORDER (src/OrderedProtectObject.js:60), but its replace recovery (src/ProtectObject.js:148) then drops their values | `safeExecute(() => set('a', 1))` on an ordered store: `forceGet('a')` is 1, ORDER is empty and a pass visits nothing; after that pass ORDER is `['a']` and `forceGet('a')` is undefined | on the outermost unlock, the order lists are reconciled under the same policy as the stores | not executed | OrderedProtectObjects.OrderedProtectObject.SafeExecute, Scenarios.OrderedExecuteHidesKey, Scenarios.OrderedExecuteThenIterate | OrderedProtectObjects.OrderedProtectObject.SafeExecuteReconciled, Scenarios.OrderedExecuteReconciledShowsKey |
