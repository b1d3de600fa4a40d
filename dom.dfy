/**
 * The markup tree as the compiler sees it. A node's structure (its kind, its
 * attribute list and its children) never changes while it is compiled, so it is
 * held in `const` fields; what the compiler and the watcher callbacks write in
 * place (text, markup, form value, event-handler properties, listeners) is held
 * in `var` fields.
 */
module Dom {
  import opened Wrappers

  /** A JavaScript value as far as this model needs one: a string or `undefined`. */
  datatype Value = Undefined | Str(s: string)

  /** JavaScript's string conversion, as used by `+` on strings and by `String.replace`. */
  function Show(v: Value): string
  {
    match v
    case Undefined => "undefined"
    case Str(s) => s
  }

  /** Property read on a plain object: a missing key reads as `undefined`. */
  function Lookup(data: map<string, Value>, key: string): (v: Value)
    ensures key !in data ==> v == Undefined
    ensures key in data ==> v == data[key]
  {
    if key in data then data[key] else Undefined
  }

  /** An opaque function object taken from the instance's methods table. */
  datatype Handler = Handler(id: nat)

  /** Method lookup; `None` stands for the `undefined` a missing method name yields. */
  function MethodOf(methods: map<string, Handler>, name: string): (h: Option<Handler>)
    ensures h.Some? <==> name in methods
    ensures h.Some? ==> h.value == methods[name]
  {
    if name in methods then Some(methods[name]) else None
  }

  /**
   * A registered event listener. The only one the compiler installs is the
   * `input` listener of `v-model`, which writes the node's value back to the
   * data key it names.
   */
  datatype Listener = Listener(event: string, writeBackKey: string)

  /** One entry of an element's attribute list. */
  datatype Attr = Attr(name: string, value: string)

  /** The node properties a watcher callback can rewrite. */
  datatype Field = TextContentField | InnerHtmlField | ValueField

  /** The mutable part of a node, as a value. */
  datatype NodeState = NodeState(
    textContent: Value,
    innerHTML: Value,
    value: Value,
    handlers: map<string, Option<Handler>>,
    listeners: seq<Listener>)
  {
    function Get(f: Field): Value
    {
      match f
      case TextContentField => textContent
      case InnerHtmlField => innerHTML
      case ValueField => value
    }

    /** The state after assigning `v` to field `f`. */
    function With(f: Field, v: Value): (r: NodeState)
      ensures r.Get(f) == v
      ensures forall g :: g != f ==> r.Get(g) == Get(g)
      ensures r.handlers == handlers && r.listeners == listeners
    {
      match f
      case TextContentField => this.(textContent := v)
      case InnerHtmlField => this.(innerHTML := v)
      case ValueField => this.(value := v)
    }
  }

  const TEXT_NODE := 3
  const ELEMENT_NODE := 1

  /** Every node in the subtrees of `cs`. */
  ghost function Union(cs: seq<Node>): set<Node>
  {
    if cs == [] then {} else Union(cs[..|cs| - 1]) + cs[|cs| - 1].Repr()
  }

  lemma {:induction false} UnionHas(cs: seq<Node>, j: nat)
    requires j < |cs|
    ensures cs[j].Repr() <= Union(cs)
    decreases |cs|
  {
    if j < |cs| - 1 {
      UnionHas(cs[..|cs| - 1], j);
    }
  }

  lemma {:induction false} UnionMember(cs: seq<Node>, n: Node)
    requires n in Union(cs)
    ensures exists j :: 0 <= j < |cs| && n in cs[j].Repr()
    decreases |cs|
  {
    var init := cs[..|cs| - 1];
    if n !in cs[|cs| - 1].Repr() {
      UnionMember(init, n);
      var j :| 0 <= j < |init| && n in init[j].Repr();
      assert init[j] == cs[j];
    }
  }

  class Node {
    const nodeType: int
    const attributes: seq<Attr>
    const childNodes: seq<Node>
    /** Every node strictly below this one. */
    ghost const Descendants: set<Node>

    var textContent: Value
    var innerHTML: Value
    var value: Value
    /** The `on<type>` properties, keyed by property name (`onclick`, ...). */
    var handlers: map<string, Option<Handler>>
    var listeners: seq<Listener>

    ghost function Repr(): set<Node>
    {
      {this} + Descendants
    }

    /**
     * The subtree is a proper tree: `Descendants` is exactly what lies below the
     * children, no node is its own descendant, and sibling subtrees are disjoint.
     */
    ghost predicate Valid()
      decreases Descendants
    {
      && this !in Descendants
      && Descendants == Union(childNodes)
      && (forall c :: c in childNodes ==>
            c in Descendants && c.Descendants <= Descendants && c !in c.Descendants && c.Valid())
      && (forall i, j :: 0 <= i < j < |childNodes| ==> childNodes[i].Repr() !! childNodes[j].Repr())
    }

    function State(): NodeState
      reads this
    {
      NodeState(textContent, innerHTML, value, handlers, listeners)
    }

    /** Builds a node over existing subtrees, as a parser would. */
    constructor (nodeType: int, textContent: Value, attributes: seq<Attr>, childNodes: seq<Node>)
      requires forall c :: c in childNodes ==> c.Valid()
      requires forall i, j :: 0 <= i < j < |childNodes| ==> childNodes[i].Repr() !! childNodes[j].Repr()
      ensures Valid()
      ensures this.nodeType == nodeType && this.attributes == attributes && this.childNodes == childNodes
      ensures State() == NodeState(textContent, Undefined, Undefined, map[], [])
    {
      this.nodeType := nodeType;
      this.attributes := attributes;
      this.childNodes := childNodes;
      this.Descendants := Union(childNodes);
      this.textContent := textContent;
      this.innerHTML := Undefined;
      this.value := Undefined;
      this.handlers := map[];
      this.listeners := [];
      new;
      forall c | c in childNodes
        ensures c in Descendants && c.Descendants <= Descendants
      {
        var j :| 0 <= j < |childNodes| && childNodes[j] == c;
        UnionHas(childNodes, j);
      }
      if this in Descendants {
        UnionMember(childNodes, this);
      }
    }

    /** A watcher callback: assign `v` to field `f` of this node. */
    method Write(f: Field, v: Value)
      modifies this
      ensures State() == old(State()).With(f, v)
    {
      match f
      case TextContentField => textContent := v;
      case InnerHtmlField => innerHTML := v;
      case ValueField => value := v;
    }
  }
}
