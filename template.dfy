/**
 * The pure part of the template compiler: recognising directive names,
 * finding the first `{{…}}` marker in a text, and the effect that compiling one
 * node has on that node's state and on the list of watchers it installs.
 */
module Templates {
  import opened Wrappers
  import opened Dom

  // ---------------------------------------------------------------------------
  // String primitives with JavaScript's meaning

  /** `s.substr(start)` for a non-negative start: the tail, or "" past the end. */
  function Substr(s: string, start: nat): (r: string)
    ensures start <= |s| ==> s == s[..start] + r
    ensures start >= |s| ==> r == ""
  {
    if start <= |s| then s[start..] else ""
  }

  predicate OccursAt(s: string, pat: string, i: int)
  {
    0 <= i && i + |pat| <= |s| && s[i..i + |pat|] == pat
  }

  /** `s.indexOf(pat, from)`: the first position at or after `from` where `pat` occurs, or -1. */
  function IndexFrom(s: string, pat: string, from: nat): (r: int)
    ensures r == -1 || (from <= r && OccursAt(s, pat, r))
    ensures r == -1 ==> forall i :: from <= i ==> !OccursAt(s, pat, i)
    ensures r != -1 ==> forall i :: from <= i < r ==> !OccursAt(s, pat, i)
    decreases |s| - from
  {
    if from + |pat| > |s| then -1
    else if s[from..from + |pat|] == pat then from
    else IndexFrom(s, pat, from + 1)
  }

  /** `s.indexOf(pat)`. */
  function IndexOf(s: string, pat: string): (r: int)
    ensures r == -1 <==> forall i :: !OccursAt(s, pat, i)
    ensures r != -1 ==> OccursAt(s, pat, r) && forall i :: 0 <= i < r ==> !OccursAt(s, pat, i)
  {
    IndexFrom(s, pat, 0)
  }

  /** The whitespace `trim()` removes, restricted to ASCII. */
  predicate IsSpace(c: char)
  {
    c == ' ' || c == '\t' || c == '\n' || c == '\r' || c == '\U{B}' || c == '\U{C}'
  }

  function TrimStart(s: string): (r: string)
    ensures |r| <= |s| && r == s[|s| - |r|..]
    ensures forall k :: 0 <= k < |s| - |r| ==> IsSpace(s[k])
    ensures r == [] || !IsSpace(r[0])
  {
    if s != [] && IsSpace(s[0]) then TrimStart(s[1..]) else s
  }

  function TrimEnd(s: string): (r: string)
    ensures |r| <= |s| && r == s[..|r|]
    ensures forall k :: |r| <= k < |s| ==> IsSpace(s[k])
    ensures r == [] || !IsSpace(r[|r| - 1])
  {
    if s != [] && IsSpace(s[|s| - 1]) then TrimEnd(s[..|s| - 1]) else s
  }

  /** Only whitespace lies outside `s[a..b]`. */
  predicate SpaceOutside(s: string, a: int, b: int)
  {
    && 0 <= a <= b <= |s|
    && (forall k :: 0 <= k < a ==> IsSpace(s[k]))
    && (forall k :: b <= k < |s| ==> IsSpace(s[k]))
  }

  /** Trimming the end of the trimmed start leaves a slice with only whitespace around it. */
  lemma TrimSlice(s: string, t: string, r: string)
    requires |t| <= |s| && t == s[|s| - |t|..]
    requires forall k :: 0 <= k < |s| - |t| ==> IsSpace(s[k])
    requires t == [] || !IsSpace(t[0])
    requires |r| <= |t| && r == t[..|r|]
    requires forall k :: |r| <= k < |t| ==> IsSpace(t[k])
    ensures SpaceOutside(s, |s| - |t|, |s| - |t| + |r|)
    ensures r == s[|s| - |t|..|s| - |t| + |r|]
    ensures r == [] || !IsSpace(r[0])
  {
    var a := |s| - |t|;
    assert forall k :: a <= k < |s| ==> s[k] == t[k - a];
    assert forall k :: 0 <= k < |r| ==> r[k] == s[a + k];
  }

  /** `s.trim()`: `s` without its leading and trailing whitespace. */
  function Trim(s: string): (r: string)
    ensures exists a, b :: SpaceOutside(s, a, b) && r == s[a..b]
    ensures r == [] || (!IsSpace(r[0]) && !IsSpace(r[|r| - 1]))
  {
    var t := TrimStart(s);
    var r := TrimEnd(t);
    TrimSlice(s, t, r);
    r
  }

  // ---------------------------------------------------------------------------
  // The interpolation marker /\{\{(.+?)\}\}/

  /** The characters `.` does not match. */
  predicate IsLineTerminator(c: char)
  {
    c == '\n' || c == '\r' || c == '\U{2028}' || c == '\U{2029}'
  }

  predicate OpensAt(s: string, i: int)
  {
    0 <= i && i + 2 <= |s| && s[i] == '{' && s[i + 1] == '{'
  }

  predicate ClosesAt(s: string, j: int)
  {
    0 <= j && j + 2 <= |s| && s[j] == '}' && s[j + 1] == '}'
  }

  /**
   * The pattern matches `s[i..j + 2]`: `{{` at `i`, `}}` at `j`, and between
   * them a capture of at least one character containing no line terminator.
   */
  predicate MatchAt(s: string, i: int, j: int)
  {
    OpensAt(s, i) && i + 3 <= j && ClosesAt(s, j)
    && forall k :: i + 2 <= k < j ==> !IsLineTerminator(s[k])
  }

  /** A match: `{{` at `open`, `}}` at `close`. */
  datatype Marker = Marker(open: nat, close: nat)

  /** The match a JavaScript regular expression reports: leftmost start, then shortest capture. */
  ghost predicate LeftmostShortest(s: string, m: Marker)
  {
    && MatchAt(s, m.open, m.close)
    && (forall i, j :: 0 <= i < m.open ==> !MatchAt(s, i, j))
    && (forall j :: j < m.close ==> !MatchAt(s, m.open, j))
  }

  /** The first `}}` that closes the opener at `i`, scanning candidates from `j`. */
  function ScanClose(s: string, i: nat, j: nat): (r: Option<nat>)
    requires OpensAt(s, i) && i + 3 <= j <= |s| + 1
    requires forall k :: i + 2 <= k < j - 1 ==> !IsLineTerminator(s[k])
    ensures r.Some? ==> j <= r.value && MatchAt(s, i, r.value)
                        && forall j' :: j <= j' < r.value ==> !MatchAt(s, i, j')
    ensures r.None? ==> forall j' :: j <= j' ==> !MatchAt(s, i, j')
    decreases |s| - j
  {
    if j + 2 > |s| then None
    else if IsLineTerminator(s[j - 1]) then None
    else if ClosesAt(s, j) then Some(j)
    else ScanClose(s, i, j + 1)
  }

  /** The first match starting at or after `from`. */
  function FindFrom(s: string, from: nat): (r: Option<Marker>)
    ensures r.Some? ==> from <= r.value.open && MatchAt(s, r.value.open, r.value.close)
                        && (forall i, j :: from <= i < r.value.open ==> !MatchAt(s, i, j))
                        && (forall j :: j < r.value.close ==> !MatchAt(s, r.value.open, j))
    ensures r.None? ==> forall i, j :: from <= i ==> !MatchAt(s, i, j)
    decreases |s| - from
  {
    if from >= |s| then None
    else if OpensAt(s, from) then
      match ScanClose(s, from, from + 3)
      case Some(j) => Some(Marker(from, j))
      case None => FindFrom(s, from + 1)
    else FindFrom(s, from + 1)
  }

  /** `reg.exec(s)` for the interpolation pattern. */
  function FindMarker(s: string): (r: Option<Marker>)
    ensures r.Some? ==> LeftmostShortest(s, r.value)
    ensures r.None? ==> forall i, j :: !MatchAt(s, i, j)
  {
    FindFrom(s, 0)
  }

  // ---------------------------------------------------------------------------
  // Node classification and directive names

  /** `node.nodeType === 3`. */
  predicate IsTextNode(nodeType: int)
  {
    nodeType == TEXT_NODE
  }

  /** `node.nodeType === 1`. */
  predicate IsElementNode(nodeType: int)
  {
    nodeType == ELEMENT_NODE
  }

  /** `attrName.startsWith('v-')`: the first two characters are `v` and `-`. */
  predicate IsDirective(name: string)
    ensures IsDirective(name) <==> |name| >= 2 && name[0] == 'v' && name[1] == '-'
  {
    |name| >= 2 && name[..2] == "v-"
  }

  /** The directive name without its `v-` prefix (`substr(2)`). */
  function BareName(name: string): (bare: string)
    requires IsDirective(name)
    ensures name == "v-" + bare
  {
    Substr(name, 2)
  }

  /** The bare name names an event binding when `on:` occurs anywhere in it. */
  predicate IsEventName(bare: string)
    ensures IsEventName(bare) <==> exists i :: OccursAt(bare, "on:", i)
  {
    IndexOf(bare, "on:") != -1
  }

  /**
   * The event type of an event binding: the bare name minus its first three
   * characters, which is what follows `on:` only when the name starts with it.
   */
  function EventType(bare: string): (t: string)
    ensures |bare| >= 3 ==> bare == bare[..3] + t
    ensures |bare| < 3 ==> t == ""
    ensures OccursAt(bare, "on:", 0) ==> bare == "on:" + t
  {
    Substr(bare, 3)
  }

  // ---------------------------------------------------------------------------
  // What compiling one node does

  /** A watcher the compiler installs on a node: the key and the field its callback rewrites. */
  datatype Binding = Binding(key: string, field: Field)

  /** The node's new state and the watchers installed, in order. */
  datatype Effect = Effect(state: NodeState, bindings: seq<Binding>)

  /** `onUpdater`: assign the method (or `undefined`) to the `on<type>` property. */
  function OnEffect(st: NodeState, eventType: string, handler: Option<Handler>): NodeState
  {
    st.(handlers := st.handlers["on" + eventType := handler])
  }

  /** The bare names the generic dispatcher finds an updater for. */
  predicate HasUpdater(name: string)
  {
    name == "text" || name == "html" || name == "model" || name == "on"
  }

  /** The field an updater that installs a watcher renders into. */
  function FieldOf(name: string): Field
  {
    if name == "text" then TextContentField
    else if name == "html" then InnerHtmlField
    else ValueField
  }

  /** `update(node, key, name)`: the generic dispatcher, given `value == vm[key]`. */
  function UpdateEffect(st: NodeState, key: string, name: string, value: Value,
                        methods: map<string, Handler>): Effect
  {
    if name == "text" then Effect(st.With(TextContentField, value), [Binding(key, TextContentField)])
    else if name == "html" then Effect(st.With(InnerHtmlField, value), [Binding(key, InnerHtmlField)])
    else if name == "model" then
      Effect(st.With(ValueField, value).(listeners := st.listeners + [Listener("input", key)]),
             [Binding(key, ValueField)])
    else if name == "on" then Effect(OnEffect(st, Show(value), MethodOf(methods, key)), [])
    else Effect(st, [])
  }

  /** One iteration of `compileElement`'s attribute loop. */
  function AttrEffect(st: NodeState, attr: Attr, data: map<string, Value>,
                      methods: map<string, Handler>): Effect
  {
    if !IsDirective(attr.name) then Effect(st, [])
    else
      var bare := BareName(attr.name);
      if IsEventName(bare) then Effect(OnEffect(st, EventType(bare), MethodOf(methods, attr.value)), [])
      else UpdateEffect(st, attr.value, bare, Lookup(data, attr.value), methods)
  }

  /** `compileElement`: the attributes' effects in list order. */
  function ElementEffect(st: NodeState, attrs: seq<Attr>, data: map<string, Value>,
                         methods: map<string, Handler>): Effect
  {
    if attrs == [] then Effect(st, [])
    else
      var e := ElementEffect(st, attrs[..|attrs| - 1], data, methods);
      var a := AttrEffect(e.state, attrs[|attrs| - 1], data, methods);
      Effect(a.state, e.bindings + a.bindings)
  }

  /** The key of a marker: the capture with surrounding whitespace removed. */
  function MarkerKey(text: string, m: Marker): string
    requires MatchAt(text, m.open, m.close)
  {
    Trim(text[m.open + 2..m.close])
  }

  /** `text.replace(reg, rendered)`: the first match replaced, prefix and suffix kept. */
  function Splice(text: string, m: Marker, rendered: string): string
    requires MatchAt(text, m.open, m.close)
  {
    text[..m.open] + rendered + text[m.close + 2..]
  }

  /** `compileText`. */
  function TextEffect(st: NodeState, data: map<string, Value>): Effect
  {
    var text := Show(st.textContent);
    match FindMarker(text)
    case None => Effect(st, [])
    case Some(m) =>
      var key := MarkerKey(text, m);
      Effect(st.With(TextContentField, Str(Splice(text, m, Show(Lookup(data, key))))),
             [Binding(key, TextContentField)])
  }

  /** One step of `compile`'s walk: text nodes and elements are compiled, other nodes skipped. */
  function NodeEffect(nodeType: int, attrs: seq<Attr>, st: NodeState, data: map<string, Value>,
                      methods: map<string, Handler>): Effect
  {
    if IsTextNode(nodeType) then TextEffect(st, data)
    else if IsElementNode(nodeType) then ElementEffect(st, attrs, data, methods)
    else Effect(st, [])
  }

  // ---------------------------------------------------------------------------
  // Directive names

  /** A name is a directive exactly when it is `v-` followed by anything. */
  lemma DirectiveIffPrefix(name: string)
    ensures IsDirective(name) <==> exists rest :: name == "v-" + rest
  {
    if IsDirective(name) {
      assert name == "v-" + name[2..];
    }
    forall rest | name == "v-" + rest
      ensures IsDirective(name)
    {
      assert name[..2] == "v-";
    }
  }

  /**
   * An event binding sets the property named `on` followed by the directive
   * name minus its first five characters (`v-` and three more), to the method
   * the attribute value names, and installs no watcher.
   */
  lemma EventDirective(st: NodeState, attr: Attr, data: map<string, Value>, methods: map<string, Handler>)
    requires IsDirective(attr.name) && IsEventName(attr.name[2..])
    ensures |attr.name| >= 5
    ensures AttrEffect(st, attr, data, methods)
         == Effect(st.(handlers := st.handlers["on" + attr.name[5..] := MethodOf(methods, attr.value)]), [])
  {
    var bare := BareName(attr.name);
    assert bare == attr.name[2..];
    assert |bare| >= 3;
    assert EventType(bare) == attr.name[5..];
  }

  /** A bare name holding `on:` at some position is an event name. */
  lemma EventNameAt(bare: string, i: int)
    requires OccursAt(bare, "on:", i)
    ensures IsEventName(bare)
  {
  }

  lemma OnClickName()
    ensures IsDirective("v-on:click") && IsEventName("v-on:click"[2..])
    ensures "on" + "v-on:click"[5..] == "onclick"
  {
    assert "v-on:click"[..2] == "v-" && "v-on:click"[2..] == "on:click";
    assert "on:click"[0..3] == "on:";
    EventNameAt("on:click", 0);
    assert "v-on:click"[5..] == "click";
  }

  /** `v-on:click` sets `onclick`. */
  lemma OnClick(st: NodeState, key: string, data: map<string, Value>, methods: map<string, Handler>)
    ensures AttrEffect(st, Attr("v-on:click", key), data, methods)
         == Effect(st.(handlers := st.handlers["onclick" := MethodOf(methods, key)]), [])
  {
    OnClickName();
    EventDirective(st, Attr("v-on:click", key), data, methods);
  }

  lemma XonClickName()
    ensures IsDirective("v-xon:click") && IsEventName("v-xon:click"[2..])
    ensures "on" + "v-xon:click"[5..] == "on:click"
  {
    assert "v-xon:click"[..2] == "v-" && "v-xon:click"[2..] == "xon:click";
    assert "xon:click"[1..4] == "on:";
    EventNameAt("xon:click", 1);
    assert "v-xon:click"[5..] == ":click";
  }

  /**
   * `on:` need not start the name: `v-xon:click` is an event binding too, and
   * dropping three characters leaves `:click`, so it sets `on:click`.
   */
  lemma EventTypeDropsThree(st: NodeState, key: string, data: map<string, Value>, methods: map<string, Handler>)
    ensures AttrEffect(st, Attr("v-xon:click", key), data, methods)
         == Effect(st.(handlers := st.handlers["on:click" := MethodOf(methods, key)]), [])
  {
    XonClickName();
    EventDirective(st, Attr("v-xon:click", key), data, methods);
  }

  /**
   * A bare `v-on` goes through the generic dispatcher: the event type is the
   * value of the key and the handler the method of the same name.
   */
  lemma BareOnDirective(st: NodeState, key: string, data: map<string, Value>, methods: map<string, Handler>)
    ensures AttrEffect(st, Attr("v-on", key), data, methods)
         == Effect(st.(handlers := st.handlers["on" + Show(Lookup(data, key)) := MethodOf(methods, key)]), [])
  {
    assert BareName("v-on") == "on";
    assert !IsEventName("on");
  }

  /** A directive with no updater and no `on:` changes nothing and installs nothing. */
  lemma UnknownDirectiveInert(st: NodeState, attr: Attr, data: map<string, Value>, methods: map<string, Handler>)
    requires IsDirective(attr.name) && !IsEventName(attr.name[2..]) && !HasUpdater(attr.name[2..])
    ensures AttrEffect(st, attr, data, methods) == Effect(st, [])
  {
    assert BareName(attr.name) == attr.name[2..];
  }

  // ---------------------------------------------------------------------------
  // Elements

  /** The watcher an attribute installs, read off the attribute alone. */
  function AttrBindings(attr: Attr): seq<Binding>
  {
    if IsDirective(attr.name) && !IsEventName(attr.name[2..])
       && (attr.name[2..] == "text" || attr.name[2..] == "html" || attr.name[2..] == "model")
    then [Binding(attr.value, FieldOf(attr.name[2..]))]
    else []
  }

  /** One attribute installs the watcher `AttrBindings` reads off it, whatever the state and data. */
  lemma AttrBindingsAgree(st: NodeState, attr: Attr, data: map<string, Value>, methods: map<string, Handler>)
    ensures AttrEffect(st, attr, data, methods).bindings == AttrBindings(attr)
  {
    if IsDirective(attr.name) {
      assert BareName(attr.name) == attr.name[2..];
    }
  }

  /** The watchers a list of attributes installs, in list order. */
  function DirectiveBindings(attrs: seq<Attr>): seq<Binding>
  {
    if attrs == [] then [] else AttrBindings(attrs[0]) + DirectiveBindings(attrs[1..])
  }

  lemma {:induction false} DirectiveBindingsSnoc(attrs: seq<Attr>, a: Attr)
    ensures DirectiveBindings(attrs + [a]) == DirectiveBindings(attrs) + AttrBindings(a)
    decreases |attrs|
  {
    if attrs != [] {
      assert (attrs + [a])[1..] == attrs[1..] + [a];
      DirectiveBindingsSnoc(attrs[1..], a);
    }
  }

  /**
   * The watchers compiling an element installs depend on its attributes
   * alone, not on the node's state or the data: one per `text`, `html` or
   * `model` directive, in attribute order.
   */
  lemma {:induction false} ElementBindings(st: NodeState, attrs: seq<Attr>, data: map<string, Value>,
                                           methods: map<string, Handler>)
    ensures ElementEffect(st, attrs, data, methods).bindings == DirectiveBindings(attrs)
  {
    if attrs != [] {
      var init := attrs[..|attrs| - 1];
      var last := attrs[|attrs| - 1];
      ElementBindings(st, init, data, methods);
      DirectiveBindingsSnoc(init, last);
      assert init + [last] == attrs;
      var e := ElementEffect(st, init, data, methods);
      AttrBindingsAgree(e.state, last, data, methods);
      assert ElementEffect(st, attrs, data, methods).bindings
          == e.bindings + AttrEffect(e.state, last, data, methods).bindings;
    }
  }

  /** The attributes whose names are directives, in order. */
  function Directives(attrs: seq<Attr>): (ds: seq<Attr>)
    ensures forall k :: 0 <= k < |ds| ==> IsDirective(ds[k].name) && ds[k] in attrs
  {
    if attrs == [] then []
    else
      var last := attrs[|attrs| - 1];
      Directives(attrs[..|attrs| - 1]) + (if IsDirective(last.name) then [last] else [])
  }

  /** Attributes that are not directives have no effect at all. */
  lemma {:induction false} NonDirectivesInert(st: NodeState, attrs: seq<Attr>, data: map<string, Value>,
                                              methods: map<string, Handler>)
    ensures ElementEffect(st, attrs, data, methods) == ElementEffect(st, Directives(attrs), data, methods)
  {
    if attrs != [] {
      var init := attrs[..|attrs| - 1];
      var last := attrs[|attrs| - 1];
      NonDirectivesInert(st, init, data, methods);
      var e := ElementEffect(st, init, data, methods);
      if IsDirective(last.name) {
        var ds := Directives(init) + [last];
        assert ds[..|ds| - 1] == Directives(init);
      } else {
        assert Directives(attrs) == Directives(init);
        assert AttrEffect(e.state, last, data, methods) == Effect(e.state, []);
        assert e.bindings + [] == e.bindings;
      }
    }
  }

  // ---------------------------------------------------------------------------
  // Text nodes

  /**
   * The node types split three ways: a type-3 node is compiled as text, a
   * type-1 node as an element, and any other node is not compiled at all.
   */
  lemma NodeKinds(nodeType: int, attrs: seq<Attr>, st: NodeState, data: map<string, Value>,
                  methods: map<string, Handler>)
    ensures nodeType == TEXT_NODE ==> NodeEffect(nodeType, attrs, st, data, methods) == TextEffect(st, data)
    ensures nodeType == ELEMENT_NODE
            ==> NodeEffect(nodeType, attrs, st, data, methods) == ElementEffect(st, attrs, data, methods)
    ensures nodeType != TEXT_NODE && nodeType != ELEMENT_NODE
            ==> NodeEffect(nodeType, attrs, st, data, methods) == Effect(st, [])
  {
  }

  /** There is at most one leftmost-shortest match. */
  lemma LeftmostShortestUnique(s: string, m: Marker, m': Marker)
    requires LeftmostShortest(s, m) && LeftmostShortest(s, m')
    ensures m == m'
  {
  }

  /** The match `FindMarker` reports is the leftmost-shortest one. */
  lemma FindMarkerIs(s: string, m: Marker)
    requires LeftmostShortest(s, m)
    ensures FindMarker(s) == Some(m)
  {
    var found := FindMarker(s);
    assert found.Some? by {
      assert MatchAt(s, m.open, m.close);
    }
    LeftmostShortestUnique(s, found.value, m);
  }

  /** A text without a match is left alone and gets no watcher. */
  lemma TextWithoutMarker(st: NodeState, data: map<string, Value>)
    requires forall i, j :: !MatchAt(Show(st.textContent), i, j)
    ensures TextEffect(st, data) == Effect(st, [])
  {
    assert FindMarker(Show(st.textContent)).None?;
  }

  /**
   * On a match, the first (leftmost, then shortest) match is replaced by the
   * value of its trimmed capture, the rest of the text is kept, and one
   * watcher on that key rewrites the text.
   */
  lemma TextWithMarker(st: NodeState, data: map<string, Value>, m: Marker)
    requires LeftmostShortest(Show(st.textContent), m)
    ensures (var text := Show(st.textContent);
             var key := Trim(text[m.open + 2..m.close]);
             TextEffect(st, data)
             == Effect(st.With(TextContentField, Str(text[..m.open] + Show(Lookup(data, key)) + text[m.close + 2..])),
                       [Binding(key, TextContentField)]))
  {
    FindMarkerIs(Show(st.textContent), m);
  }

  lemma MsgMarker(st: NodeState)
    requires st.textContent == Str("{{ msg }}")
    ensures LeftmostShortest(Show(st.textContent), Marker(0, 7))
  {
    var text := "{{ msg }}";
    assert text[3] == 'm' && text[4] == 's' && text[5] == 'g' && text[6] == ' ';
  }

  lemma MsgFound(st: NodeState)
    requires st.textContent == Str("{{ msg }}")
    ensures FindMarker(Show(st.textContent)) == Some(Marker(0, 7))
  {
    MsgMarker(st);
    FindMarkerIs(Show(st.textContent), Marker(0, 7));
  }

  lemma MsgCapture()
    ensures "{{ msg }}"[2..7] == " msg "
  {
    var c := "{{ msg }}"[2..7];
    assert |c| == 5 && c[0] == ' ' && c[1] == 'm' && c[2] == 's' && c[3] == 'g' && c[4] == ' ';
  }

  lemma TrimStartMsg()
    ensures TrimStart(" msg ") == "msg "
  {
    assert IsSpace(" msg "[0]) && " msg "[1..] == "msg ";
    assert !IsSpace("msg "[0]);
  }

  lemma TrimEndMsg()
    ensures TrimEnd("msg ") == "msg"
  {
    assert IsSpace("msg "[3]) && "msg "[..3] == "msg";
    assert !IsSpace("msg"[2]);
  }

  lemma TrimMsg()
    ensures Trim(" msg ") == "msg"
  {
    TrimStartMsg();
    TrimEndMsg();
  }

  lemma MsgKey()
    ensures Trim("{{ msg }}"[2..7]) == "msg"
  {
    MsgCapture();
    TrimMsg();
  }

  lemma MsgKeyAndSplice(st: NodeState)
    requires st.textContent == Str("{{ msg }}")
    ensures Trim(Show(st.textContent)[2..7]) == "msg"
    ensures Show(st.textContent)[..0] + "hi" + Show(st.textContent)[9..] == "hi"
  {
    MsgKey();
    assert Show(st.textContent) == "{{ msg }}";
  }

  /** `{{ msg }}` with `msg` bound to `hi` renders `hi` and watches `msg`. */
  lemma InterpolateMsg(st: NodeState, data: map<string, Value>)
    requires st.textContent == Str("{{ msg }}") && "msg" in data && data["msg"] == Str("hi")
    ensures TextEffect(st, data) == Effect(st.With(TextContentField, Str("hi")), [Binding("msg", TextContentField)])
  {
    MsgFound(st);
    MsgKeyAndSplice(st);
  }
}
