/**
 * Concrete runs of the two stores: the behaviours test/ProtectObjectSpec.js checks, the
 * nesting and recovery examples, and the inputs that expose the defects listed in README.
 */
module Scenarios {
  import opened Support
  import opened ProtectObjects
  import opened OrderedProtectObjects

  /** The dynamically typed values the tests store. */
  datatype JsValue = Str(s: string) | Num(n: int)

  /** A callback that only records its arguments and returns falsy. */
  function Record(): Callback<JsValue>
  {
    (v: Option<JsValue>, k: string) => Visit([], false)
  }

  /** A pass of Record over `keys` visits every key, writes nothing and receives each committed value. */
  lemma PassOfRecord(committed: map<string, JsValue>, keys: seq<string>)
    ensures Visited(Record(), committed, keys) == keys
    ensures WritesOf(Record(), committed, keys) == []
    ensures |Trace(committed, keys)| == |keys|
    ensures forall i :: 0 <= i < |keys| ==> Trace(committed, keys)[i] == (keys[i], Lookup(committed, keys[i]))
  {
    NeverStopsVisitsAll(Record(), committed, keys);
    SilentCallbackWritesNothing(Record(), committed, keys);
    TraceArgs(committed, keys);
  }

  /** A store holding name, age and sex, set while unlocked (the fixture of the iteration tests). */
  method Person() returns (p: ProtectObject<JsValue>)
    ensures fresh(p) && p.Valid() && p.locked == 0 && p.cache == map[]
    ensures p.obj == map["name" := Str("yibuyisheng"), "age" := Num(11), "sex" := Str("male")]
  {
    p := new ProtectObject<JsValue>();
    p.Set("name", Str("yibuyisheng"));
    p.Set("age", Num(11));
    p.Set("sex", Str("male"));
  }

  /** `set` then `get` and `forceGet` while unlocked read the value back (test lines 5-11, 24-29). */
  method UnlockedReadBack() returns (got: Option<JsValue>, forced: Option<JsValue>)
    ensures got == Some(Str("yibuyisheng")) && forced == Some(Str("yibuyisheng"))
  {
    var p := new ProtectObject<JsValue>();
    p.Set("name", Str("yibuyisheng"));
    got := p.Get("name");
    forced := p.ForceGet("name");
  }

  /** While locked, `get` misses a committed key that `forceGet` still finds (test lines 13-20, 31-39). */
  method LockedReads() returns (got: Option<JsValue>, forced: Option<JsValue>, has: bool)
    ensures got == None && !has && forced == Some(Str("yibuyisheng"))
  {
    var p := new ProtectObject<JsValue>();
    p.Set("name", Str("yibuyisheng"));
    p.Lock();
    got := p.Get("name");
    has := p.HasKey("name");
    forced := p.ForceGet("name");
    p.Unlock(false);
  }

  /** Iteration hands every committed key its value (test lines 43-56). */
  method IterateAll() returns (trace: seq<(string, Option<JsValue>)>)
    ensures trace == [("name", Some(Str("yibuyisheng"))), ("age", Some(Num(11))), ("sex", Some(Str("male")))]
  {
    var p := Person();
    NeverStopsVisitsAll(Record(), p.obj, ["name", "age", "sex"]);
    TraceArgs(p.obj, ["name", "age", "sex"]);
    trace := p.SafeIterate(Some(Record()), ["name", "age", "sex"]);
  }

  /**
   * A key set by the callback is not visited in the same pass, and is readable afterwards
   * (test lines 58-73).
   */
  method IterateAddsAfterPass() returns (trace: seq<(string, Option<JsValue>)>, height: Option<JsValue>)
    ensures trace == [("name", Some(Str("yibuyisheng"))), ("age", Some(Num(11))), ("sex", Some(Str("male")))]
    ensures height == Some(Num(170))
  {
    var p := Person();
    var addHeight := (v: Option<JsValue>, k: string) => Visit([("height", Num(170))], false);
    NeverStopsVisitsAll(addHeight, p.obj, ["name", "age", "sex"]);
    TraceArgs(p.obj, ["name", "age", "sex"]);
    trace := p.SafeIterate(Some(addHeight), ["name", "age", "sex"]);
    height := p.Get("height");
  }

  /** Iterating with a callback that sets nothing leaves an empty committed store (test lines 75-85). */
  method IterateClears() returns (name: Option<JsValue>, age: Option<JsValue>, sex: Option<JsValue>)
    ensures name == None && age == None && sex == None
  {
    var p := Person();
    SilentCallbackWritesNothing(Record(), p.obj, Visited(Record(), p.obj, ["name", "age", "sex"]));
    var _ := p.SafeIterate(Some(Record()), ["name", "age", "sex"]);
    name := p.Get("name");
    age := p.Get("age");
    sex := p.Get("sex");
  }

  /** A truthy result on the second key ends the pass there. */
  method IterateStopsEarly() returns (trace: seq<(string, Option<JsValue>)>)
    ensures trace == [("name", Some(Str("yibuyisheng"))), ("age", Some(Num(11)))]
  {
    var p := Person();
    var stopAtAge := (v: Option<JsValue>, k: string) => Visit([], k == "age");
    trace := p.SafeIterate(Some(stopAtAge), ["name", "age", "sex"]);
  }

  /** Without a callback `safeIterate` does nothing (test lines 88-93). */
  method IterateWithoutCallback() returns (trace: seq<(string, Option<JsValue>)>, name: Option<JsValue>)
    ensures trace == [] && name == Some(Str("yibuyisheng"))
  {
    var p := Person();
    trace := p.SafeIterate(None, ["name", "age", "sex"]);
    name := p.Get("name");
  }

  /** Two locks and one unlock leave the object locked and the write still buffered. */
  method NestedLock() returns (stillLocked: bool, forced: Option<JsValue>, got: Option<JsValue>)
    ensures stillLocked && forced == None && got == Some(Num(1))
  {
    var p := new ProtectObject<JsValue>();
    p.Lock();
    p.Lock();
    p.Set("a", Num(1));
    p.Unlock(false);
    stillLocked := p.IsLocked();
    forced := p.ForceGet("a");
    got := p.Get("a");
  }

  /** An unlock at depth 0 is silently ignored. */
  method UnbalancedUnlock() returns (stillLocked: bool, got: Option<JsValue>)
    ensures !stillLocked && got == Some(Num(1))
  {
    var p := new ProtectObject<JsValue>();
    p.Set("a", Num(1));
    p.Unlock(false);
    stillLocked := p.IsLocked();
    got := p.Get("a");
  }

  /** Replace recovery: a key committed before the lock and not re-set is dropped. */
  method ReplaceRecovery() returns (a: Option<JsValue>, b: Option<JsValue>)
    ensures a == None && b == Some(Num(2))
  {
    var p := new ProtectObject<JsValue>();
    p.Set("a", Num(1));
    p.Lock();
    p.Set("b", Num(2));
    p.Unlock(false);
    a := p.Get("a");
    b := p.Get("b");
  }

  /** Overlay recovery: the buffered write overwrites the committed value; new keys are added. */
  method OverlayRecovery() returns (a: Option<JsValue>, b: Option<JsValue>, c: Option<JsValue>)
    ensures a == Some(Num(99)) && b == Some(Num(2)) && c == Some(Num(3))
  {
    var p := new ProtectObject<JsValue>();
    p.Set("a", Num(1));
    p.Set("c", Num(3));
    p.Lock();
    p.Set("a", Num(99));
    p.Set("b", Num(2));
    p.Unlock(true);
    a := p.Get("a");
    b := p.Get("b");
    c := p.Get("c");
  }

  /** `destroy` empties the stores and keeps the depth. */
  method DestroyKeepsDepth() returns (stillLocked: bool, name: Option<JsValue>)
    ensures stillLocked && name == None
  {
    var p := new ProtectObject<JsValue>();
    p.Set("name", Str("yibuyisheng"));
    p.Lock();
    p.Destroy();
    stillLocked := p.IsLocked();
    name := p.ForceGet("name");
  }

  /** After `safeExecute` as written has thrown, the object stays locked and later writes never commit. */
  method SafeExecuteTypoKeepsLock() returns (outcome: Completion, stillLocked: bool, forced: Option<JsValue>)
    ensures outcome == Threw("ReferenceError") && stillLocked && forced == Some(Str("yibuyisheng"))
  {
    var p := new ProtectObject<JsValue>();
    p.Set("name", Str("yibuyisheng"));
    outcome := p.SafeExecuteAsWritten(Some([]), false);
    p.Set("name", Str("other"));
    stillLocked := p.IsLocked();
    forced := p.ForceGet("name");
  }

  /** With the intended `unlock(shouldNotNewObject)`, the lock is released and later writes commit. */
  method SafeExecuteReleasesLock() returns (stillLocked: bool, forced: Option<JsValue>)
    ensures !stillLocked && forced == Some(Str("other"))
  {
    var p := new ProtectObject<JsValue>();
    p.Set("name", Str("yibuyisheng"));
    p.SafeExecute(Some([]), false);
    p.Set("name", Str("other"));
    stillLocked := p.IsLocked();
    forced := p.ForceGet("name");
  }

  /** Ordered iteration follows first insertion and re-setting a key does not repeat it. */
  method OrderedFirstInsertion() returns (trace: seq<(string, Option<JsValue>)>)
    ensures trace == [("z", Some(Num(3))), ("a", Some(Num(2)))]
  {
    var o := SetZThenAThenZ();
    PassOfRecord(o.base.obj, o.order);
    trace := o.SafeIterate(Some(Record()));
  }

  /** An ordered store after `set('z', 1); set('a', 2); set('z', 3)`. */
  method SetZThenAThenZ() returns (o: OrderedProtectObject<JsValue>)
    ensures fresh(o) && fresh(o.base) && o.Valid() && o.base.locked == 0
    ensures o.order == ["z", "a"] && o.orderCache == []
    ensures o.base.obj == map["z" := Num(3), "a" := Num(2)] && o.base.cache == map[]
  {
    o := new OrderedProtectObject<JsValue>();
    o.Set("z", Num(1));
    o.Set("a", Num(2));
    assert o.base.HasKey("z");
    o.Set("z", Num(3));
  }

  /** Keys set during an ordered pass join ORDER, in first-write order, for the next pass. */
  method OrderedPassAddsKeys() returns (first: seq<(string, Option<JsValue>)>, second: seq<(string, Option<JsValue>)>)
    ensures first == [("x", Some(Num(1)))]
    ensures second == [("y", Some(Num(2))), ("x", Some(Num(3)))]
  {
    var o;
    o, first := RewritingPass();
    PassOfRecord(o.base.obj, o.order);
    second := o.SafeIterate(Some(Record()));
  }

  /** An ordered store holding x, after a pass whose callback writes y, x and y again. */
  method RewritingPass() returns (o: OrderedProtectObject<JsValue>, trace: seq<(string, Option<JsValue>)>)
    ensures fresh(o) && fresh(o.base) && o.Valid() && o.base.locked == 0
    ensures trace == [("x", Some(Num(1)))]
    ensures o.order == ["y", "x"] && o.orderCache == []
    ensures o.base.obj == map["y" := Num(2), "x" := Num(3)] && o.base.cache == map[]
  {
    o := new OrderedProtectObject<JsValue>();
    o.Set("x", Num(1));
    var rewrite := (v: Option<JsValue>, k: string) => Visit(RewriteWrites(), false);
    NeverStopsVisitsAll(rewrite, o.base.obj, ["x"]);
    assert WritesOf(rewrite, o.base.obj, ["x"]) == RewriteWrites();
    RewritePass();
    trace := o.SafeIterate(Some(rewrite));
  }

  /** The writes of the callback in RewritingPass: a new key, an existing key, the new key again. */
  function RewriteWrites(): seq<(string, JsValue)>
  {
    [("y", Num(2)), ("x", Num(3)), ("y", Num(2))]
  }

  /** Replaying RewriteWrites on an empty shadow lists each key once, in first-write order. */
  lemma RewritePass()
    ensures OrderAfter([], map[], RewriteWrites()) == ["y", "x"]
    ensures ApplyWrites(map[], RewriteWrites()) == map["y" := Num(2), "x" := Num(3)]
  {
    var writes := RewriteWrites();
    assert writes[..1] == [("y", Num(2))] && writes[..2] == [("y", Num(2)), ("x", Num(3))];
    assert writes[..1][..0] == [];
    assert OrderAfter([], map[], writes[..1]) == ["y"] && ApplyWrites(map[], writes[..1]) == map["y" := Num(2)];
    assert OrderAfter([], map[], writes[..2]) == ["y", "x"];
  }

  /** The inherited `destroy` keeps ORDER, so re-setting a key lists it twice and a pass visits it twice. */
  method OrderedDestroyDuplicates() returns (order: seq<string>, trace: seq<(string, Option<JsValue>)>)
    ensures order == ["a", "a"] && !NoDup(order)
    ensures trace == [("a", Some(Num(2))), ("a", Some(Num(2)))]
  {
    var o := ResetWithDestroy();
    order := o.order;
    PassOfRecord(o.base.obj, o.order);
    trace := o.SafeIterate(Some(Record()));
  }

  /** An ordered store after `set('a', 1); destroy(); set('a', 2)` with the inherited `destroy`. */
  method ResetWithDestroy() returns (o: OrderedProtectObject<JsValue>)
    ensures fresh(o) && fresh(o.base) && o.Valid() && o.base.locked == 0
    ensures o.order == ["a", "a"] && o.orderCache == []
    ensures o.base.obj == map["a" := Num(2)] && o.base.cache == map[]
  {
    o := new OrderedProtectObject<JsValue>();
    o.Set("a", Num(1));
    o.Destroy();
    assert !o.base.HasKey("a");
    o.Set("a", Num(2));
  }

  /** Emptying the order lists with the stores lists the re-set key once. */
  method OrderedDestroyReconciled() returns (order: seq<string>, trace: seq<(string, Option<JsValue>)>)
    ensures order == ["a"]
    ensures trace == [("a", Some(Num(2)))]
  {
    var o := ResetWithDestroyReconciled();
    order := o.order;
    PassOfRecord(o.base.obj, o.order);
    trace := o.SafeIterate(Some(Record()));
  }

  /** An ordered store after `set('a', 1); destroy(); set('a', 2)` with the corrected `destroy`. */
  method ResetWithDestroyReconciled() returns (o: OrderedProtectObject<JsValue>)
    ensures fresh(o) && fresh(o.base) && o.Valid() && o.base.locked == 0
    ensures o.order == ["a"] && o.orderCache == []
    ensures o.base.obj == map["a" := Num(2)] && o.base.cache == map[]
  {
    o := new OrderedProtectObject<JsValue>();
    o.Set("a", Num(1));
    o.DestroyReconciled();
    assert !o.base.HasKey("a");
    o.Set("a", Num(2));
  }

  /** A key set inside the inherited `safeExecute` is committed but not in ORDER, so the next pass skips it. */
  method OrderedExecuteHidesKey() returns (forced: Option<JsValue>, order: seq<string>, trace: seq<(string, Option<JsValue>)>)
    ensures forced == Some(Num(1)) && order == [] && trace == []
  {
    var o := new OrderedProtectObject<JsValue>();
    o.SafeExecute(Some([("a", Num(1))]), false);
    forced := o.base.ForceGet("a");
    order := o.order;
    trace := o.SafeIterate(Some(Record()));
  }

  /**
   * The next ordered pass after the inherited `safeExecute` moves the hidden key into ORDER,
   * while its replace recovery drops the key's value from the committed store.
   */
  method OrderedExecuteThenIterate() returns (order: seq<string>, forced: Option<JsValue>, trace: seq<(string, Option<JsValue>)>)
    ensures order == ["a"] && forced == None && trace == []
  {
    var o := new OrderedProtectObject<JsValue>();
    o.SafeExecute(Some([("a", Num(1))]), false);
    trace := o.SafeIterate(Some(Record()));
    order := o.order;
    forced := o.base.ForceGet("a");
  }

  /** Reconciling the order lists in `safeExecute` makes the committed key visible to a pass. */
  method OrderedExecuteReconciledShowsKey() returns (order: seq<string>, trace: seq<(string, Option<JsValue>)>)
    ensures order == ["a"] && trace == [("a", Some(Num(1)))]
  {
    var o := new OrderedProtectObject<JsValue>();
    o.SafeExecuteReconciled(Some([("a", Num(1))]), false);
    order := o.order;
    trace := o.SafeIterate(Some(Record()));
  }
}
