/**
 * One persistent binding between a data key and a render callback, and the
 * stand-in for the data object it reads.
 *
 * `Vm` is the data object together with the two things of the reactive
 * property layer this core relies on: the single "current subscriber" slot
 * (`Dep.target`) and the subscription edges a read records while that slot is
 * set. Notification fan-out belongs to that layer and is not modelled.
 */
module Watchers {
  import opened Dom

  /** A subscription edge recorded by a tracked read: `watcher` depends on `key`. */
  datatype Sub = Sub(key: string, watcher: Watcher)

  /** What a watcher binds: the key it tracks and the node field its callback rewrites. */
  datatype Entry = Entry(key: string, node: Node, field: Field)

  /** What a subscription binds: its key, and the node field its watcher's callback rewrites. */
  function Binds(s: Sub): Entry
  {
    Entry(s.key, s.watcher.node, s.watcher.field)
  }

  /** What the subscriptions `subs` bind, in order. */
  function Bound(subs: seq<Sub>): (es: seq<Entry>)
    ensures |es| == |subs|
    ensures forall k :: 0 <= k < |subs| ==> es[k] == Binds(subs[k])
  {
    seq(|subs|, k requires 0 <= k < |subs| => Binds(subs[k]))
  }

  lemma BoundSnoc(subs: seq<Sub>, s: Sub)
    ensures Bound(subs + [s]) == Bound(subs) + [Binds(s)]
  {
  }

  class Vm {
    var data: map<string, Value>
    const methods: map<string, Handler>
    /** `Dep.target`: the watcher currently discovering its dependency, if any. */
    var target: Watcher?
    /** Subscription edges recorded so far, in the order they were recorded. */
    var subs: seq<Sub>

    constructor (data: map<string, Value>, methods: map<string, Handler>)
      ensures this.data == data && this.methods == methods
      ensures target == null && subs == []
    {
      this.data := data;
      this.methods := methods;
      this.target := null;
      this.subs := [];
    }

    /** `vm[key]` as a value. */
    function Get(key: string): Value
      reads this
    {
      Lookup(data, key)
    }

    /**
     * `vm[key]` as an evaluation: the getter returns the stored value and, when
     * the subscriber slot is set, records that subscriber as a dependent of `key`.
     */
    method Read(key: string) returns (v: Value)
      modifies this`subs
      ensures v == Lookup(data, key)
      ensures target == null ==> subs == old(subs)
      ensures target != null ==> subs == old(subs) + [Sub(key, target)]
    {
      v := Lookup(data, key);
      if target != null {
        subs := subs + [Sub(key, target)];
      }
    }
  }

  /** The callback arguments of successive `update()` calls that read `readings`. */
  function Fired(oldValue: Value, readings: seq<Value>): seq<Value>
  {
    if readings == [] then []
    else
      var last := readings[|readings| - 1];
      Fired(oldValue, readings[..|readings| - 1]) + (if last == oldValue then [] else [last])
  }

  class Watcher {
    const vm: Vm
    const key: string
    /** The callback is "assign the new value to `field` of `node`". */
    const node: Node
    const field: Field
    var oldValue: Value
    /** Arguments of every callback invocation so far. */
    var fired: seq<Value>

    constructor (vm: Vm, key: string, node: Node, field: Field)
      modifies vm
      ensures this.vm == vm && this.key == key && this.node == node && this.field == field
      ensures oldValue == vm.Get(key) && fired == []
      ensures vm.data == old(vm.data) && vm.target == null
      ensures vm.subs == old(vm.subs) + [Sub(key, this)]
    {
      this.vm := vm;
      this.key := key;
      this.node := node;
      this.field := field;
      this.fired := [];
      new;
      vm.target := this;
      oldValue := vm.Read(key);
      vm.target := null;
    }

    /**
     * Called on a write to `key`: re-read the value and run the callback when it
     * differs from the construction-time snapshot. The snapshot is not refreshed.
     */
    method Update()
      modifies this`fired, node, vm`subs
      ensures oldValue == old(oldValue) && vm.data == old(vm.data)
      ensures vm.target == null ==> vm.subs == old(vm.subs)
      ensures fired == old(fired) + Fired(oldValue, [vm.Get(key)])
      ensures vm.Get(key) == oldValue ==> fired == old(fired) && node.State() == old(node.State())
      ensures vm.Get(key) != oldValue ==>
                fired == old(fired) + [vm.Get(key)]
                && node.State() == old(node.State()).With(field, vm.Get(key))
    {
      var newValue := vm.Read(key);
      if oldValue == newValue {
        return;
      }
      fired := fired + [newValue];
      node.Write(field, newValue);
    }
  }

  /**
   * `s` records a watcher of `vm` that subscribed on its own key, holds the
   * value `data` gives that key, and has not fired.
   */
  ghost predicate Primed(s: Sub, vm: Vm, data: map<string, Value>)
    reads s.watcher
  {
    && s.watcher.vm == vm
    && s.watcher.key == s.key
    && s.watcher.oldValue == Lookup(data, s.key)
    && s.watcher.fired == []
  }

  /** No change, no callback: update calls that read the snapshot never fire. */
  lemma {:induction false} UnchangedNeverFires(oldValue: Value, readings: seq<Value>)
    requires forall k :: 0 <= k < |readings| ==> readings[k] == oldValue
    ensures Fired(oldValue, readings) == []
  {
    if readings != [] {
      UnchangedNeverFires(oldValue, readings[..|readings| - 1]);
    }
  }

  /**
   * Because the snapshot is never refreshed, once the value differs from it
   * every later update fires, even when the value did not change in between.
   */
  lemma {:induction false} ChangedAlwaysFires(oldValue: Value, readings: seq<Value>)
    requires forall k :: 0 <= k < |readings| ==> readings[k] != oldValue
    ensures Fired(oldValue, readings) == readings
  {
    if readings != [] {
      ChangedAlwaysFires(oldValue, readings[..|readings| - 1]);
    }
  }

  /** Every callback argument differs from the snapshot, and there is at most one per update. */
  lemma {:induction false} FiredAreChanges(oldValue: Value, readings: seq<Value>)
    ensures |Fired(oldValue, readings)| <= |readings|
    ensures forall v :: v in Fired(oldValue, readings) ==> v != oldValue && v in readings
  {
    if readings != [] {
      FiredAreChanges(oldValue, readings[..|readings| - 1]);
    }
  }

  /** Successive runs of updates fire what each run fires, in order. */
  lemma {:induction false} FiredConcat(oldValue: Value, a: seq<Value>, b: seq<Value>)
    ensures Fired(oldValue, a + b) == Fired(oldValue, a) + Fired(oldValue, b)
    decreases |b|
  {
    if b == [] {
      assert a + b == a;
    } else {
      var init, last := b[..|b| - 1], b[|b| - 1];
      var step := if last == oldValue then [] else [last];
      assert (a + b)[..|a + b| - 1] == a + init && (a + b)[|a + b| - 1] == last;
      FiredConcat(oldValue, a, init);
      assert Fired(oldValue, a + b) == Fired(oldValue, a) + Fired(oldValue, init) + step;
    }
  }
}
