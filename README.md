# minvue template compiler and watcher, in Dafny

minvue is a minimal reactive view layer. This project models its two central
pieces.

- **The template compiler** (`js/compiler.js`) walks a markup tree once, in
  document order. It classifies each node as text (`nodeType` 3), element
  (`nodeType` 1) or other.
  - Elements: every attribute whose name starts with `v-` is a directive. If
    the bare name (after `v-`) contains `on:`, an event handler from the
    instance's methods is assigned to the `on<type>` property of the node.
    Otherwise the bare name goes to a dispatcher that knows `text`, `html`,
    `model` and `on`.
  - Text nodes: the first `{{ key }}` marker is replaced by the value of the
    key.
  - Each `text`, `html` or `model` binding and each text marker writes to the
    node in place and installs one watcher.
- **The watcher** (`js/watcher.js`) ties one data key to one render callback.
  - On construction it sets the global "current subscriber" slot, reads the
    key once (so the reactive getter records it as a dependent) and clears
    the slot again.
  - On `update()` it re-reads the key and calls the callback when the value
    differs from the snapshot taken at construction.

The model is organised in the same way.

- `Dom` holds the node class. Structure (type, attributes, children) is
  `const`. What the compiler and the callbacks write is `var`: text, markup,
  form value, `on<type>` properties and listeners.
- `Watchers` holds the data object `Vm` and the `Watcher` class.
  - `Vm` carries the subscriber slot and the subscription edges its getter
    records.
  - `Watcher` logs each callback invocation in `fired`. The callback itself,
    "assign the new value to this field of this node", is performed on the
    node.
- `Templates` holds the pure logic: directive names, the
  `/\{\{(.+?)\}\}/` marker (leftmost start, shortest capture, no line
  terminators in the capture), `trim`, and the effect of compiling one node
  as a function of that node's state.
- `Compiler` holds the imperative walk. Each method is proved against those
  functions. The watchers it installs are read off the subscription edges the
  data object records: each edge, read as `Binds`, gives the key, node and
  field its watcher binds, and `Bound(vm.subs)` lists them in creation order.

`update()` never refreshes the watcher's snapshot. The model follows the code
as written. So once a value has changed, every later update fires, even when
the value has not changed since the previous one.

## Model

| member | source | states |
|---|---|---|
| Compiler.Compile | js/compiler.js:13-30 | Walks `el`'s children in list order. Afterwards every node below `el` holds the state its own compile step computes from its state before the walk. The subscriptions recorded bind, in order, those of each child's whole subtree (`ChildrenLog`): pre-order, each child before its own subtree, each subtree before the next sibling. |
| Compiler.CompileChild | js/compiler.js:15-27 | One loop pass on child `i`: the child's subtree reaches its planned state, the subtrees of earlier children are untouched, and the subscriptions appended bind exactly that subtree's watchers. |
| Compiler.CompileNode | js/compiler.js:16-26 | Compiles the node by its type: text, element, or nothing for other types. It then walks the node's children, whatever its type. The subscriptions appended bind the node's own bindings, then those of its children's subtrees. |
| Compiler.CompileOwn | js/compiler.js:16-22 | A text node is compiled by `compileText`, an element by `compileElement`, and any other node is left alone. The node state and the subscriptions appended are those of `NodeEffect`, and each new watcher is primed. |
| Compiler.SubtreeLogNodes | js/compiler.js:13-27 | Every watcher installed by compiling a subtree targets a node of that subtree. |
| Compiler.ChildrenLogNodes | js/compiler.js:13-27 | Every watcher installed while walking a node's children targets a node strictly below it. |
| Compiler.CompileElement | js/compiler.js:32-51 | The node's new state is the effect of its attributes applied in list order. One subscription is appended per `text`, `html` or `model` directive, in order, binding that directive's key to this node and its field. The data and the subscriber slot are unchanged, and each new watcher is primed with the current value. |
| Compiler.CompileAttr | js/compiler.js:36-49 | One attribute: a non-directive does nothing; an `on:` name goes to `onUpdater` with the name minus three characters; any other directive goes to the dispatcher. The node state and the subscriptions appended are those of `AttrEffect`, and each new watcher is primed. |
| Compiler.Update | js/compiler.js:52-55 | Calls the `text`, `html`, `model` or `on` updater with `vm[key]`. Any other name changes nothing and installs no watcher. The subscriptions appended bind exactly the dispatched updater's bindings. |
| Compiler.TextUpdater | js/compiler.js:57-62 | `textContent` becomes the value and nothing else in the node's modelled state changes. Exactly one subscription is appended. It is on `key`, and its fresh watcher's snapshot is the current value; its callback rewrites `textContent` of this node. |
| Compiler.HtmlUpdater | js/compiler.js:64-69 | `innerHTML` becomes the value and nothing else in the node's modelled state changes. One subscription on `key`, whose watcher rewrites this node's `innerHTML`. |
| Compiler.OnUpdater | js/compiler.js:73-75 | Sets the `on<type>` property to the method named by the callback, or to `undefined` if there is none. Touches nothing else and installs no watcher. |
| Compiler.ModelUpdater | js/compiler.js:77-87 | `value` becomes the value, one `input` listener writing back to `key` is appended, and exactly one subscription on `key` is appended, whose fresh, primed watcher rewrites this node's `value`. |
| Compiler.CompileText | js/compiler.js:89-104 | The node's state and the subscriptions appended are those of `TextEffect`. Data and subscriber slot are unchanged, and the new watcher is primed. |
| Templates.IsDirective | js/compiler.js:106-108 | `startsWith('v-')`: the first two characters are `v` and `-`. |
| Templates.IsEventName | js/compiler.js:41 | The bare name takes the event path exactly when `on:` occurs at some position in it. |
| Templates.EventType | js/compiler.js:42 | The event type is the bare name minus its first three characters, or empty when it is shorter. It is what follows `on:` only when the name starts with `on:`. |
| Templates.DirectiveIffPrefix | js/compiler.js:106-108 | A name is a directive exactly when it is `v-` followed by anything. |
| Templates.NodeKinds | js/compiler.js:110-116 | The node types split three ways, as `isTextNode`/`isElementNode` and the `if`/`else if` of lines 16-22 use them. Type 3 is compiled as text. Type 1 is compiled as an element, never as text. Any other type is neither changed nor bound. |
| Templates.BareName | js/compiler.js:39 | The bare name is what follows `v-`. |
| Templates.Substr | js/compiler.js:39 | `substr(start)` is the tail from `start`, or empty past the end. |
| Templates.IndexOf | js/compiler.js:41 | Returns -1 exactly when the pattern occurs nowhere; otherwise its first occurrence. |
| Templates.EventDirective | js/compiler.js:41-43 | A directive whose bare name contains `on:` sets `on` + name-minus-five-characters to the method named by the value, and installs no watcher. |
| Templates.OnClick | js/compiler.js:41-43 | `v-on:click="f"` sets `onclick` to `methods.f`. |
| Templates.EventTypeDropsThree | js/compiler.js:41-43 | `v-xon:click` is an event binding as well. Dropping three characters makes it set `on:click`. |
| Templates.BareOnDirective | js/compiler.js:52-55 | `v-on="k"` goes through the dispatcher to `onUpdater`. It sets `on` + `String(vm[k])` to `methods[k]`. |
| Templates.UnknownDirectiveInert | js/compiler.js:52-55 | A directive that has no `on:` and no updater leaves the node unchanged and installs nothing. |
| Templates.AttrBindingsAgree | js/compiler.js:37-47 | The watcher an attribute installs depends on the attribute alone, not on the node's state or the data. |
| Templates.ElementBindings | js/compiler.js:34-50 | Compiling an element installs one watcher per `text`, `html` or `model` directive, in attribute order. |
| Templates.Directives | js/compiler.js:34-37 | Picks out the attributes whose names are directives. Every attribute it keeps is a directive from the list. |
| Templates.NonDirectivesInert | js/compiler.js:34-37 | Removing every non-directive attribute changes neither the element's new state nor its watchers. |
| Templates.TrimStart | js/compiler.js:95 | Drops only leading whitespace and stops at the first non-whitespace character. |
| Templates.TrimEnd | js/compiler.js:95 | Drops only trailing whitespace and stops at the last non-whitespace character. |
| Templates.Trim | js/compiler.js:95 | `trim()` is a slice with only whitespace outside it, and that starts and ends with non-whitespace. |
| Templates.ScanClose | js/compiler.js:92 | Finds the first `}}` closing an opener, with no line terminator in the capture. |
| Templates.FindFrom | js/compiler.js:92 | Finds the first match starting at or after a position, with the shortest capture. |
| Templates.FindMarker | js/compiler.js:92-95 | The regular expression's match is leftmost-shortest; no result means no match anywhere. |
| Templates.LeftmostShortestUnique | js/compiler.js:92 | The match is unique. |
| Templates.TextWithoutMarker | js/compiler.js:92-94 | A text with no match is left unchanged and gets no watcher. |
| Templates.TextWithMarker | js/compiler.js:92-101 | On a match, only that occurrence is replaced by the value of the trimmed capture, with prefix and suffix kept. One watcher on that key rewrites `textContent`. |
| Templates.InterpolateMsg | js/compiler.js:92-101 | `{{ msg }}` with `msg = "hi"` becomes `hi` and watches `msg`. |
| Watchers.Watcher.constructor | js/watcher.js:2-14 | The single read happens while the slot holds the new watcher, so exactly one edge `(key, this)` is recorded, and the slot is null afterwards. `oldValue` is `vm[key]`, the callback has not run and the data is unchanged. |
| Watchers.Watcher.Update | js/watcher.js:16-22 | Re-reads `vm[key]`. If it equals `oldValue`: no callback and no state change. Otherwise the callback runs exactly once with the new value. `oldValue` and the data never change. |
| Watchers.Vm.Read | js/watcher.js:12 | `vm[key]`. A missing key reads `undefined`, and an edge to the current subscriber is recorded only when the slot is set. |
| Watchers.UnchangedNeverFires | js/watcher.js:16-20 | Updates that read the snapshot never fire. |
| Watchers.ChangedAlwaysFires | js/watcher.js:16-22 | Because the snapshot is never refreshed, every update that reads a value other than the snapshot fires, repeats included. |
| Watchers.FiredAreChanges | js/watcher.js:17-21 | Every callback argument differs from the snapshot and was read by an update. There is at most one callback per update. |
| Watchers.FiredConcat | js/watcher.js:16-22 | Successive runs of updates fire what each run fires, in order. |
| Dom.Node.Write | js/compiler.js:59-61 | A watcher callback assigns the new value to its field and changes nothing else on the node. |
| Dom.Lookup | js/compiler.js:54 | `vm[key]` is the stored value, or `undefined` for a missing key. |
| Dom.MethodOf | js/compiler.js:74 | `methods[name]` is the method if one is defined, or `undefined`. |

## Left out

- HTML parsing behind `innerHTML` is not modelled. `innerHTML` is an opaque field.
- Compiler.CompileNode: children are `const`. In the source, a `text` or `html` write on an element replaces its children. A `v-text` write leaves a single text node holding the value, or none for an empty value; a `v-html` write leaves the parsed markup. The walk then descends into those new children (js/compiler.js:24-25): it compiles the new text node, interpolating any `{{…}}` the value holds, and never reaches the old children. The model descends into the original children. It agrees with the source only on trees where no element carries a `text` or `html` directive.
- Compiler.Compile: the same replacement is not modelled. Its resulting states and subscriptions match the source only on trees where no element carries a `text` or `html` directive.
- Compiler.CompileChild: likewise, it assumes a child's children are unchanged by that child's own `text` or `html` directive.
- Compiler.TextUpdater: on an element, the source's `textContent` assignment replaces all of the element's children with one text node holding the value, or with none for an empty value. The model does not replace the children; it assigns the field only.
- Compiler.HtmlUpdater: on an element, the source's `innerHTML` assignment replaces the element's children with the parsed markup. The model does not replace the children; it assigns the field only.
- Dom.Node.Write: a watcher callback assigning `textContent` or `innerHTML` on an element also replaces the element's children. The model assigns the field only.
- Event dispatch and running listeners are not modelled. A `v-model` listener is recorded as `Listener("input", key)`, meaning "writes `node.value` back to `key`".
- The reactive property layer (`Dep`, the observer's getters and setters) is not part of this model, and nothing here notifies a watcher. Its getter hook is `Vm.Read`, which records a subscription edge while the slot is set. Notification fan-out is left out. `Vm.Read` records an edge for any key read while the slot is set. A getter/setter layer records one only for a key that has a getter, so for a key missing from the data, `Bound(vm.subs)` may list a subscription the source does not have.
- `Dep.target` is a global in the source. Here it is a field of the one `Vm`.
- Compiler.Update: like every compile method, it requires the subscriber slot to be empty. The source never states this, but it always holds, because only a watcher's constructor sets the slot, and it clears the slot before returning.
- Compiler.Compile: the property "each installed watcher is primed (subscribed on its key, snapshot equal to the value, not yet fired)" is stated per updater, `CompileText`, `CompileElement` and `CompileOwn`. It is not carried through the whole walk.
- Values are strings or `undefined`, converted to text only where the source concatenates or calls `String.replace`. Numbers and other values, and `NaN`'s inequality under `===`, are left out.
- DOM/WebIDL coercion is not modelled: assigning `undefined` to a node property stores `undefined`.
- `$&` and `$1`-style patterns in the replacement string of `String.replace` are not interpreted; the value is spliced in literally.
- `trim()` removes ASCII whitespace only.
- Templates.Substr: positions count Unicode scalar values, the elements of a Dafny string. JavaScript's `substr` counts UTF-16 code units, so the two differ once a character outside the Basic Multilingual Plane comes before the start position.
- Templates.EventType: as for `Substr`. An event type differs from the source's when a non-BMP character comes before position 3 of the bare name: `😀on:x` gives `:x` here and `n:x` in the source.
- Templates.EventDirective: as for `EventType`. The property name drops five scalar values, where the source drops five UTF-16 code units.
- Compiler.CompileAttr: as for `EventType`. With a non-BMP character in the first three positions of the bare name, it sets a different `on<type>` property from the source.
- The legacy `RegExp.$1` static is replaced by the capture of the match found.
- The `Compiler` constructor plumbing (js/compiler.js:7-11) is left out. The model takes the root node, data and methods directly.
- `Node`'s constructor stands in for the parser that builds the tree and models no source line.
