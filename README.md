# nevernull in Dafny

A model of `nn`, the null-safe navigation wrapper of `src/nevernull.js`.
`nn(rawValue)` returns a handle. Calling the handle with no arguments gives
back `rawValue`. Reading any property `name` off the handle gives a new handle.
If the raw value is truthy, the new handle wraps `rawValue[name]`, with a
function value first bound to `rawValue`. If the raw value is falsy, the new
handle wraps `undefined`. A chain of reads therefore never throws on an
absent value. It can throw only where the property read itself throws (a
getter, or a `Proxy` stored in the value) or where a function's own `bind`
does (see "## Left out"). Absence shows up only when the caller unwraps, as `undefined`.

The model has two modules:

- `JsModel` (`JsModel.dfy`) holds the JavaScript that `nn` relies on:
  - `JsValue`, a JavaScript value;
  - ToBoolean (`Truthy`) and `typeof v === 'function'` (`IsCallable`);
  - one property read `v[name]` (`Lookup`), with element and `length` reads on
    arrays and strings through canonical index names (`ParseIndex`, `IndexName`);
  - `Function.prototype.bind` (`Bind`), and what a call of a possibly bound
    function runs and with which `this` (`Invoke`);
  - the plain, unguarded chain `v[p0][p1]...` (`PlainRead`). It is `None` where
    JavaScript would throw a TypeError.
- `NeverNull` (`NeverNull.dfy`) holds `nn` itself:
  - `Handle`, `Wrap` (calling `nn`) and `Unwrap` (calling the handle);
  - `Get`, the `get` trap of the `Proxy`, written as an explicit call;
  - `Nav`, a chain of `Get`s;
  - the lemmas about them.

`src/nevernull.js:34` tests truthiness, not `!= null`. So a falsy parent
(`false`, `0`, `NaN`, `""`) also gives `undefined` for every property. The
lemma `EmptyStringIsTreatedAsAbsent` shows the effect: plain JavaScript reads
`"".length` as `0`, but `nn("").length()` is `undefined`. A falsy value stored
*in* a property is still kept: see `PresentValueIsKept`.

`src/nevernull.js:38` replaces a function property by `f.bind(parent)`, a new
function object that has none of `f`'s own properties. So a chain that passes
through a function loses them: `FunctionPropertyIsLost` shows that with
`F.x = 1; o = {f: F}`, plain `o.f.x` is `1` while `nn(o).f.x()` is `undefined`.

The wrapper only reads. In the model a handle and a raw value are immutable
values, and a read only builds a new handle, so "navigating never modifies
the parent" holds by construction.

## Model

| member | source | states |
|---|---|---|
| NeverNull.Wrap | src/nevernull.js:13-19 | the handle of any value, `undefined` and `null` included, unwraps to exactly that value |
| NeverNull.Unwrap | src/nevernull.js:17-19 | calling a handle gives its raw value, and a handle holds nothing else: the handle built from that value equals it in the model (behaves the same) |
| NeverNull.Get | src/nevernull.js:31-43 | a falsy parent gives `undefined` for every name; a truthy parent gives its property value unchanged unless it is a function; a function child, called on its own with any `this`, runs the same body with the same `this` as `parent.name(...)` |
| NeverNull.Nav | src/nevernull.js:29-42 | from a falsy value, every non-empty chain of reads unwraps to `undefined` |
| NeverNull.GetFromFalsyIsAbsent | src/nevernull.js:34 | reading any name off a falsy value (`undefined`, `null`, `false`, `0`, `NaN`, `""`) gives the handle of `undefined` |
| NeverNull.AbsenceIsFixpoint | src/nevernull.js:34-42 | every chain of reads from the handle of `undefined` gives the handle of `undefined` again |
| NeverNull.NavAppend | src/nevernull.js:29-42 | since `Get` is total, reading path `p` and then path `q` is the same as reading `p + q` |
| NeverNull.NavSnoc | src/nevernull.js:42 | the last read of a chain is one `Get` on the handle the rest of the chain gives |
| NeverNull.TrackedNav | src/nevernull.js:31-43 | along a chain whose read values are truthy and not functions, the handle's value stays equal to the plain read, or is a bound copy of the same function at the end |
| NeverNull.NavAgreesWithPlainRead | src/nevernull.js:31-43 | when every value a chain reads a property of is truthy and not a function, plain JavaScript does not throw, and the handle ends on the value plain JavaScript reads, or on a bound copy of it if it is a function (which receiver: `NavBindsToParent`) |
| NeverNull.PlainAlongPrefix | src/nevernull.js:34 | in a chain that is plain up to its last read, the value before the last read is truthy and not a function, and the last read is one property read on it |
| NeverNull.NavBindsToParent | src/nevernull.js:37-42 | at the end of such a chain, the handle holds the plain value, or, if that is a function, the function bound to exactly the raw value it was read from |
| NeverNull.ThrowingReadIsAbsent | src/nevernull.js:34-42 | from a value that tracks the plain read, or from `undefined`, a chain on which plain JavaScript throws unwraps to `undefined` |
| NeverNull.NavNeverThrows | src/nevernull.js:6-8 | wherever plain `v.p0.p1...` would throw a TypeError, the handle chain unwraps to `undefined` |
| NeverNull.MissingKeyIsAbsent | src/nevernull.js:34-42 | once a chain reaches an object without the next key, the rest of the chain, however long, is the handle of `undefined` |
| NeverNull.PresentValueIsKept | src/nevernull.js:34 | a present non-function property keeps its value, including `0`, `false`, `""` and `null` |
| NeverNull.MethodIsBoundToRawParent | src/nevernull.js:37-39 | a plain function property becomes that function bound to the raw parent (not the handle), so called on its own it runs with `this` the parent |
| NeverNull.BoundCopyHasNoProperties | src/nevernull.js:37-42 | the handle of a function property holds a bound copy, which has none of the function's own properties; in the model every read of it is `undefined` (its `name`, `length` and inherited members are under "## Left out") |
| NeverNull.FunctionPropertyIsLost | src/nevernull.js:37-42 | with `F.x = 1; o = {f: F}`, plain `o.f.x` is `1` but `nn(o).f.x()` is `undefined` |
| NeverNull.BoundPropertyKeepsReceiver | src/nevernull.js:37-39 | an already bound function property keeps its own receiver, as a direct method call would |
| NeverNull.ReadIsLocalToKey | src/nevernull.js:34 | updating one key of an object does not change what a different non-function key reads |
| NeverNull.ArrayIndexNavigation | src/nevernull.js:34 | an array element is read by its index name like any property; an index past the end reads `undefined` |
| NeverNull.EmptyStringIsTreatedAsAbsent | src/nevernull.js:34 | `""` is falsy, so `nn("").length()` is `undefined` while plain `"".length` is `0`; `nn("abc").length()` is `3` |
| NeverNull.DocumentedExamples | src/nevernull.js:5-8 | `nn({a: 1}).a()` is `1`; `nn({}).non.existent.property.access()` is `undefined` |
| NeverNull.NestedExamples | src/nevernull.js:31-43 | on `{a: {b: {c: 42}}}`, `.a.b.c` is `42` and `.a.x.y` is `undefined` |
| NeverNull.ArrayExamples | src/nevernull.js:34 | on `{list: [10, 20, 30]}`, `.list["1"]` is `20` and `.list["9"]` is `undefined` |
| NeverNull.BoundMethodExample | src/nevernull.js:36-39 | `greet`, read off `{name: "x", greet}` and called on its own, runs with `this` the object, whose `name` is `"x"` |
| JsModel.Truthy | src/nevernull.js:34 | the condition `rawTarget ? …` (ToBoolean): a value is falsy exactly when it is `undefined`, `null`, `false`, `0`, `NaN` or `""` |
| JsModel.IsCallable | src/nevernull.js:37 | `typeof v === 'function'`; every function is truthy and not nullish |
| JsModel.Lookup | src/nevernull.js:34 | `rawTarget[name]`: an own key of an object or function is read as stored; `length` of an array or string is its size; other primitives and bound functions have no properties (elements: `LookupArrayIndex`, `LookupStringIndex`) |
| JsModel.IndexName | src/nevernull.js:34 | the name of index `i` is a canonical decimal index name that denotes `i` |
| JsModel.CanonicalNameIsIndexName | src/nevernull.js:34 | every canonical index name is the name of the index it denotes |
| JsModel.ParseIndexIsInverse | src/nevernull.js:34 | a property name parses to index `i` exactly when it is the name of `i` (so `"01"` and `"length"` are not indices) |
| JsModel.LookupArrayIndex | src/nevernull.js:34 | `list[i]` on an array reads element `i`, or `undefined` past the end |
| JsModel.LookupStringIndex | src/nevernull.js:34 | `s[i]` on a string reads the one-character string at `i`, or `undefined` past the end |
| JsModel.Invoke | src/nevernull.js:38 | the function a call runs is never a bound function; a plain function runs with the `this` it is given |
| JsModel.Bind | src/nevernull.js:38 | `f.bind(r)` of a function is callable, and calling it with any `this` runs what calling `f` with `this` `r` runs |
| JsModel.RebindKeepsReceiver | src/nevernull.js:38 | binding an already bound function again does not change the `this` it runs with |

## Left out

- The `Proxy` and its `get` trap (`src/nevernull.js:22-44`): a property read is the explicit call `Get(h, name)`, and dot syntax is not modelled. Any property read, whatever its name, is a `Get` and never the unwrap call `Unwrap`.
- NeverNull.NavAgreesWithPlainRead: agreement with the plain chain is proved only for chains that read no property of a function. Past a function the handle holds `f.bind(parent)`, which lacks `f`'s own properties; `BoundCopyHasNoProperties` and `FunctionPropertyIsLost` state this divergence.
- NeverNull.Get: `src/nevernull.js:38` calls whatever `bind` the function value has. A function whose own `bind` property hides `Function.prototype.bind` makes that line throw (`F.bind = 1`) or return anything (`static bind() { return 42 }`). The model always uses `Function.prototype.bind`, and a write of an own `bind` key does not change `Get`.
- NeverNull.Wrap: objects are values without identity, so an existing handle's view of later mutations is not captured. In JavaScript a handle holds a reference and re-reads it on every `get` (`src/nevernull.js:33`), so `h = nn(v); v.a = 99; h.a()` is `99`, and a bound method's receiver is the object itself, which later mutations also change. In the model a caller's update is a new value, and a handle built from it reads the update (`PresentValueIsKept` on the updated map).
- NeverNull.Unwrap: handle identity is not modelled. Every `nn(...)` call makes a fresh `Proxy`, so `nn(h()) !== h` in JavaScript; in the model the two handles are equal because they behave the same.
- A `JsValue` cannot hold an nn handle or any other `Proxy`. In JavaScript a handle stored as a property is a function to `typeof` (`src/nevernull.js:37`), and line 38 then reads `.bind` through that handle's own trap, so `nn({h: nn({a: 1})}).h()` is `undefined`, not the handle. The model does not capture this.
- Property lookup is own properties only (this is also why `BoundCopyHasNoProperties` reads `undefined` where JavaScript gives a bound function's `name`, e.g. `"bound F"`, its `length`, or `Function.prototype.call`). This covers the own keys of objects and plain functions, and the elements and `length` of arrays and strings. Prototype-chain lookup, the `name` and `length` of functions, and properties of truthy primitives other than strings (e.g. `(5).toFixed`) all read as `undefined`. Fully modelling them would require modelling the whole JavaScript standard library.
- Accessor properties (getters) are not modelled: every property is a data value. At `src/nevernull.js:34` a getter runs code, which may have effects or throw, so `nn({ get a() { throw new Error() } }).a` throws there; the model has no such value, and `Lookup` never fails on a non-nullish value.
- Array index names are unbounded here. JavaScript limits array indices to below 2^32 - 1, but since arrays are never longer than that, this does not change any read.
- String length and string indices count Dafny characters, not the UTF-16 code units JavaScript counts.
- Numbers are integers plus `NaN`. There is no floating point. `-0` is not modelled; it would be falsy like `0`. BigInt and Symbol values, and symbol-valued property names, are left out.
- `Function.prototype.bind` records only its target and receiver (`Bound`). Arity, extra bound arguments and function bodies are not modelled. A call is modelled as far as which body runs with which `this` (`Invoke`), and no further.
- ES-module `export` and concurrency: there is none to model.
