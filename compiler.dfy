/**
 * The template compiler: a single document-order walk over a node tree that
 * renders every binding it recognises into the node in place and installs a
 * watcher for it. Each method is proved against the pure effect functions of
 * module Templates; the watchers it installs are read off the subscription
 * edges the data object records (`Bound(vm.subs)`), one per watcher.
 */
module Compiler {
  import opened Wrappers
  import opened Dom
  import opened Templates
  import opened Watchers

  /** The bindings of node `n` as watcher-log entries. */
  function Tag(n: Node, bs: seq<Binding>): (es: seq<Entry>)
    ensures |es| == |bs|
    ensures forall k :: 0 <= k < |bs| ==> es[k] == Entry(bs[k].key, n, bs[k].field)
  {
    seq(|bs|, k requires 0 <= k < |bs| => Entry(bs[k].key, n, bs[k].field))
  }

  lemma TagConcat(n: Node, a: seq<Binding>, b: seq<Binding>)
    ensures Tag(n, a + b) == Tag(n, a) + Tag(n, b)
  {
  }

  lemma AppendAssoc<T>(a: seq<T>, b: seq<T>, c: seq<T>)
    ensures (a + b) + c == a + (b + c)
  {
  }

  // ---------------------------------------------------------------------------
  // The updaters

  /** `textUpdater`: render into `textContent` and watch `key`. */
  method TextUpdater(node: Node, value: Value, key: string, vm: Vm)
    modifies node, vm
    ensures node.State() == old(node.State()).With(TextContentField, value)
    ensures vm.target == null && vm.data == old(vm.data)
    ensures |vm.subs| == |old(vm.subs)| + 1 && old(vm.subs) <= vm.subs
    ensures Binds(vm.subs[|old(vm.subs)|]) == Entry(key, node, TextContentField)
    ensures fresh(vm.subs[|old(vm.subs)|].watcher) && Primed(vm.subs[|old(vm.subs)|], vm, vm.data)
  {
    node.textContent := value;
    var w := new Watcher(vm, key, node, TextContentField);
  }

  /** `htmlUpdater`: render into `innerHTML` and watch `key`. */
  method HtmlUpdater(node: Node, value: Value, key: string, vm: Vm)
    modifies node, vm
    ensures node.State() == old(node.State()).With(InnerHtmlField, value)
    ensures vm.target == null && vm.data == old(vm.data)
    ensures |vm.subs| == |old(vm.subs)| + 1 && old(vm.subs) <= vm.subs
    ensures Binds(vm.subs[|old(vm.subs)|]) == Entry(key, node, InnerHtmlField)
    ensures fresh(vm.subs[|old(vm.subs)|].watcher) && Primed(vm.subs[|old(vm.subs)|], vm, vm.data)
  {
    node.innerHTML := value;
    var w := new Watcher(vm, key, node, InnerHtmlField);
  }

  /**
   * `modelUpdater`: render into `value`, watch `key`, and register the `input`
   * listener that writes the node's value back to `key`.
   */
  method ModelUpdater(node: Node, value: Value, key: string, vm: Vm)
    modifies node, vm
    ensures node.State()
         == old(node.State()).With(ValueField, value).(listeners := old(node.listeners) + [Listener("input", key)])
    ensures vm.target == null && vm.data == old(vm.data)
    ensures |vm.subs| == |old(vm.subs)| + 1 && old(vm.subs) <= vm.subs
    ensures Binds(vm.subs[|old(vm.subs)|]) == Entry(key, node, ValueField)
    ensures fresh(vm.subs[|old(vm.subs)|].watcher) && Primed(vm.subs[|old(vm.subs)|], vm, vm.data)
  {
    node.value := value;
    var w := new Watcher(vm, key, node, ValueField);
    node.listeners := node.listeners + [Listener("input", key)];
  }

  /** `onUpdater`: assign `methods[callback]` to the node's `on<eventType>` property. */
  method OnUpdater(node: Node, eventType: string, callback: string, vm: Vm)
    modifies node
    ensures node.State() == OnEffect(old(node.State()), eventType, MethodOf(vm.methods, callback))
  {
    node.handlers := node.handlers["on" + eventType := MethodOf(vm.methods, callback)];
  }

  /** `update`: call the updater named `name + "Updater"`, if there is one, with `vm[key]`. */
  method Update(node: Node, key: string, name: string, vm: Vm)
    requires vm.target == null
    modifies node, vm
    ensures vm.target == null && vm.data == old(vm.data)
    ensures node.State() == UpdateEffect(old(node.State()), key, name, vm.Get(key), vm.methods).state
    ensures old(vm.subs) <= vm.subs
    ensures Bound(vm.subs)
         == Bound(old(vm.subs)) + Tag(node, UpdateEffect(old(node.State()), key, name, vm.Get(key), vm.methods).bindings)
    ensures forall k :: |old(vm.subs)| <= k < |vm.subs| ==>
              fresh(vm.subs[k].watcher) && Primed(vm.subs[k], vm, vm.data)
  {
    if HasUpdater(name) {
      var value := vm.Read(key);
      if name == "text" {
        TextUpdater(node, value, key, vm);
      } else if name == "html" {
        HtmlUpdater(node, value, key, vm);
      } else if name == "model" {
        ModelUpdater(node, value, key, vm);
      } else {
        OnUpdater(node, Show(value), key, vm);
      }
    }
  }

  // ---------------------------------------------------------------------------
  // Compiling one node

  /** `compileText`: render the first `{{…}}` marker and watch its key. */
  method CompileText(node: Node, vm: Vm)
    requires vm.target == null
    modifies node, vm
    ensures vm.target == null && vm.data == old(vm.data)
    ensures node.State() == TextEffect(old(node.State()), vm.data).state
    ensures old(vm.subs) <= vm.subs
    ensures Bound(vm.subs) == Bound(old(vm.subs)) + Tag(node, TextEffect(old(node.State()), vm.data).bindings)
    ensures forall k :: |old(vm.subs)| <= k < |vm.subs| ==>
              fresh(vm.subs[k].watcher) && Primed(vm.subs[k], vm, vm.data)
  {
    ghost var eff := TextEffect(node.State(), vm.data);
    var text := Show(node.textContent);
    var m := FindMarker(text);
    if m.Some? {
      var key := MarkerKey(text, m.value);
      assert eff.bindings == [Binding(key, TextContentField)];
      var value := vm.Read(key);
      node.textContent := Str(Splice(text, m.value, Show(value)));
      assert node.State() == eff.state;
      var w := new Watcher(vm, key, node, TextContentField);
      assert Tag(node, eff.bindings) == [Entry(key, node, TextContentField)];
      assert vm.subs == old(vm.subs) + [Sub(key, w)];
      BoundSnoc(old(vm.subs), Sub(key, w));
    } else {
      assert eff.bindings == [];
    }
  }

  /** One pass of `compileElement`'s loop: the attribute through its directive, if it is one. */
  method CompileAttr(node: Node, attr: Attr, vm: Vm)
    requires vm.target == null
    modifies node, vm
    ensures vm.target == null && vm.data == old(vm.data)
    ensures node.State() == AttrEffect(old(node.State()), attr, vm.data, vm.methods).state
    ensures old(vm.subs) <= vm.subs
    ensures Bound(vm.subs) == Bound(old(vm.subs)) + Tag(node, AttrEffect(old(node.State()), attr, vm.data, vm.methods).bindings)
    ensures forall k :: |old(vm.subs)| <= k < |vm.subs| ==>
              fresh(vm.subs[k].watcher) && Primed(vm.subs[k], vm, vm.data)
  {
    var name := attr.name;
    if IsDirective(name) {
      name := Substr(name, 2);
      var key := attr.value;
      if IndexOf(name, "on:") != -1 {
        var eventType := Substr(name, 3);
        OnUpdater(node, eventType, key, vm);
      } else {
        Update(node, key, name, vm);
      }
    }
  }

  /** `compileElement`: every attribute, in list order, through its directive. */
  method CompileElement(node: Node, vm: Vm)
    requires vm.target == null
    modifies node, vm
    ensures vm.target == null && vm.data == old(vm.data)
    ensures node.State() == ElementEffect(old(node.State()), node.attributes, vm.data, vm.methods).state
    ensures old(vm.subs) <= vm.subs
    ensures Bound(vm.subs)
         == Bound(old(vm.subs)) + Tag(node, ElementEffect(old(node.State()), node.attributes, vm.data, vm.methods).bindings)
    ensures forall k :: |old(vm.subs)| <= k < |vm.subs| ==>
              fresh(vm.subs[k].watcher) && Primed(vm.subs[k], vm, vm.data)
  {
    var attrs := node.attributes;
    var i := 0;
    while i < |attrs|
      invariant 0 <= i <= |attrs|
      invariant vm.target == null && vm.data == old(vm.data)
      invariant node.State() == ElementEffect(old(node.State()), attrs[..i], vm.data, vm.methods).state
      invariant old(vm.subs) <= vm.subs
      invariant Bound(vm.subs)
             == Bound(old(vm.subs)) + Tag(node, ElementEffect(old(node.State()), attrs[..i], vm.data, vm.methods).bindings)
      invariant forall k :: |old(vm.subs)| <= k < |vm.subs| ==>
                  fresh(vm.subs[k].watcher) && Primed(vm.subs[k], vm, vm.data)
    {
      ghost var before := ElementEffect(old(node.State()), attrs[..i], vm.data, vm.methods);
      ghost var step := AttrEffect(before.state, attrs[i], vm.data, vm.methods);
      CompileAttr(node, attrs[i], vm);
      assert attrs[..i + 1][..i] == attrs[..i];
      assert ElementEffect(old(node.State()), attrs[..i + 1], vm.data, vm.methods)
          == Effect(step.state, before.bindings + step.bindings);
      TagConcat(node, before.bindings, step.bindings);
      AppendAssoc(Bound(old(vm.subs)), Tag(node, before.bindings), Tag(node, step.bindings));
      i := i + 1;
    }
    assert attrs[..i] == attrs;
  }

  // ---------------------------------------------------------------------------
  // The walk

  /**
   * `plan` holds, for every node of `nodes`, the effect that compiling that
   * node has when it starts from the node's current state.
   */
  ghost predicate Planned(nodes: set<Node>, plan: map<Node, Effect>, data: map<string, Value>,
                          methods: map<string, Handler>)
    reads nodes
  {
    forall n :: n in nodes ==>
      n in plan && plan[n] == NodeEffect(n.nodeType, n.attributes, n.State(), data, methods)
  }

  lemma PlannedSubset(a: set<Node>, b: set<Node>, plan: map<Node, Effect>, data: map<string, Value>,
                      methods: map<string, Handler>)
    requires Planned(a, plan, data, methods) && b <= a
    ensures Planned(b, plan, data, methods)
  {
  }

  /**
   * The watchers compiling the subtree at `n` installs: the node's own, then
   * those of its children's subtrees.
   */
  ghost function SubtreeLog(n: Node, plan: map<Node, Effect>): seq<Entry>
    requires n.Valid() && n.Repr() <= plan.Keys
    decreases n.Repr(), |n.childNodes| + 1
  {
    Tag(n, plan[n].bindings) + ChildrenLog(n, |n.childNodes|, plan)
  }

  /** The watchers compiling the subtrees of `p`'s first `i` children installs, in order. */
  ghost function ChildrenLog(p: Node, i: nat, plan: map<Node, Effect>): seq<Entry>
    requires p.Valid() && p.Descendants <= plan.Keys && i <= |p.childNodes|
    decreases p.Repr(), i
  {
    if i == 0 then []
    else ChildrenLog(p, i - 1, plan) + SubtreeLog(p.childNodes[i - 1], plan)
  }

  /** Compiling a subtree binds watchers to nodes of that subtree only. */
  lemma {:induction false} SubtreeLogNodes(n: Node, plan: map<Node, Effect>)
    requires n.Valid() && n.Repr() <= plan.Keys
    ensures forall e :: e in SubtreeLog(n, plan) ==> e.node in n.Repr()
    decreases n.Repr(), |n.childNodes| + 1
  {
    ChildrenLogNodes(n, |n.childNodes|, plan);
  }

  /** Walking the first `i` children of `p` binds watchers to nodes below `p` only. */
  lemma {:induction false} ChildrenLogNodes(p: Node, i: nat, plan: map<Node, Effect>)
    requires p.Valid() && p.Descendants <= plan.Keys && i <= |p.childNodes|
    ensures forall e :: e in ChildrenLog(p, i, plan) ==> e.node in p.Descendants
    decreases p.Repr(), i
  {
    if i > 0 {
      var c := p.childNodes[i - 1];
      ChildrenLogNodes(p, i - 1, plan);
      SubtreeLogNodes(c, plan);
    }
  }

  /** The nodes in the subtrees of `p`'s first `i` children. */
  ghost function Covered(p: Node, i: nat): set<Node>
    requires i <= |p.childNodes|
  {
    Union(p.childNodes[..i])
  }

  lemma CoveredStep(p: Node, i: nat)
    requires i < |p.childNodes|
    ensures Covered(p, i + 1) == Covered(p, i) + p.childNodes[i].Repr()
  {
    assert p.childNodes[..i + 1][..i] == p.childNodes[..i];
  }

  /** The subtrees of the first `k` children are apart from that of a later child `i`. */
  lemma {:induction false} CoveredApart(p: Node, k: nat, i: nat)
    requires p.Valid() && k <= i < |p.childNodes|
    ensures Covered(p, k) !! p.childNodes[i].Repr()
  {
    if k > 0 {
      CoveredApart(p, k - 1, i);
      CoveredStep(p, k - 1);
    }
  }

  lemma ChildInside(p: Node, i: nat)
    requires p.Valid() && i < |p.childNodes|
    ensures p.childNodes[i] in p.Descendants && p.childNodes[i].Repr() <= p.Descendants
  {
  }

  lemma CoveredAll(p: Node)
    requires p.Valid()
    ensures Covered(p, |p.childNodes|) == p.Descendants
  {
    assert p.childNodes[..|p.childNodes|] == p.childNodes;
  }

  /** The first half of `compile`'s loop body: compile a text node or an element, skip any other node. */
  method CompileOwn(node: Node, vm: Vm)
    requires vm.target == null
    modifies node, vm
    ensures vm.target == null && vm.data == old(vm.data)
    ensures node.State() == NodeEffect(node.nodeType, node.attributes, old(node.State()), vm.data, vm.methods).state
    ensures old(vm.subs) <= vm.subs
    ensures Bound(vm.subs)
         == Bound(old(vm.subs)) + Tag(node, NodeEffect(node.nodeType, node.attributes, old(node.State()), vm.data, vm.methods).bindings)
    ensures forall k :: |old(vm.subs)| <= k < |vm.subs| ==>
              fresh(vm.subs[k].watcher) && Primed(vm.subs[k], vm, vm.data)
  {
    if IsTextNode(node.nodeType) {
      CompileText(node, vm);
    } else if IsElementNode(node.nodeType) {
      CompileElement(node, vm);
    }
  }

  /**
   * One iteration of `compile`'s loop: compile `node` if it is a text node or
   * an element, then, if it has children, walk them.
   */
  method CompileNode(node: Node, vm: Vm, ghost plan: map<Node, Effect>)
    requires node.Valid() && vm.target == null
    requires Planned(node.Repr(), plan, vm.data, vm.methods)
    modifies node.Repr(), vm
    decreases node.Repr(), 2
    ensures vm.target == null && vm.data == old(vm.data)
    ensures forall n :: n in node.Repr() ==> n.State() == plan[n].state
    ensures old(vm.subs) <= vm.subs
    ensures Bound(vm.subs) == Bound(old(vm.subs)) + SubtreeLog(node, plan)
  {
    PlannedSubset(node.Repr(), node.Descendants, plan, vm.data, vm.methods);
    ghost var eff := plan[node];
    assert eff == NodeEffect(node.nodeType, node.attributes, node.State(), vm.data, vm.methods);
    ghost var subs0 := vm.subs;
    CompileOwn(node, vm);
    ghost var own := Tag(node, eff.bindings);
    assert node.State() == eff.state && Bound(vm.subs) == Bound(subs0) + own;
    assert node !in node.Descendants;
    assert Planned(node.Descendants, plan, vm.data, vm.methods);
    if |node.childNodes| > 0 {
      Compile(node, vm, plan);
    } else {
      assert node.Descendants == {};
    }
    assert node.State() == eff.state;
    AppendAssoc(Bound(subs0), own, ChildrenLog(node, |node.childNodes|, plan));
  }

  /**
   * `compile(el)`: each child of `el`, in the order of the list as it stood
   * when the walk began, through `CompileNode`. `el` itself is not compiled.
   */
  method Compile(el: Node, vm: Vm, ghost plan: map<Node, Effect>)
    requires el.Valid() && vm.target == null
    requires Planned(el.Descendants, plan, vm.data, vm.methods)
    modifies el.Descendants, vm
    decreases el.Repr(), 1
    ensures vm.target == null && vm.data == old(vm.data)
    ensures forall n :: n in el.Descendants ==> n.State() == plan[n].state
    ensures old(vm.subs) <= vm.subs
    ensures Bound(vm.subs) == Bound(old(vm.subs)) + ChildrenLog(el, |el.childNodes|, plan)
  {
    var children := el.childNodes;
    assert el.Descendants <= plan.Keys;
    var i := 0;
    while i < |children|
      invariant 0 <= i <= |children|
      invariant vm.target == null && vm.data == old(vm.data)
      invariant forall n :: n in Covered(el, i) ==> n in plan && n.State() == plan[n].state
      invariant Planned(el.Descendants - Covered(el, i), plan, vm.data, vm.methods)
      invariant old(vm.subs) <= vm.subs
      invariant Bound(vm.subs) == Bound(old(vm.subs)) + ChildrenLog(el, i, plan)
    {
      ChildInside(el, i);
      CompileChild(el, i, vm, plan);
      AppendAssoc(Bound(old(vm.subs)), ChildrenLog(el, i, plan), SubtreeLog(children[i], plan));
      i := i + 1;
    }
    CoveredAll(el);
  }

  /** One pass of `compile`'s loop body, on the `i`-th child of `el`. */
  method CompileChild(el: Node, i: nat, vm: Vm, ghost plan: map<Node, Effect>)
    requires el.Valid() && i < |el.childNodes| && vm.target == null && el.Descendants <= plan.Keys
    requires forall n :: n in Covered(el, i) ==> n in plan && n.State() == plan[n].state
    requires Planned(el.Descendants - Covered(el, i), plan, vm.data, vm.methods)
    modifies el.childNodes[i].Repr(), vm
    decreases el.Repr(), 0
    ensures vm.target == null && vm.data == old(vm.data)
    ensures forall n :: n in Covered(el, i + 1) ==> n in plan && n.State() == plan[n].state
    ensures Planned(el.Descendants - Covered(el, i + 1), plan, vm.data, vm.methods)
    ensures old(vm.subs) <= vm.subs
    ensures Bound(vm.subs) == Bound(old(vm.subs)) + SubtreeLog(el.childNodes[i], plan)
  {
    var node := el.childNodes[i];
    ChildInside(el, i);
    CoveredApart(el, i, i);
    CoveredStep(el, i);
    PlannedSubset(el.Descendants - Covered(el, i), node.Repr(), plan, vm.data, vm.methods);
    PlannedSubset(el.Descendants - Covered(el, i), el.Descendants - Covered(el, i + 1), plan, vm.data, vm.methods);
    CompileNode(node, vm, plan);
  }
}
