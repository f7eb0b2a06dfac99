/** The nevernull wrapper `nn`: a handle around any JavaScript value that can
    be unwrapped by calling it, and that answers every property read with a
    new handle, so that a chain of reads never throws on an absent value.
    Binding uses `Function.prototype.bind` even where a function has its own
    `bind` property, which JavaScript would call instead. The `Proxy` that
    delivers property reads in JavaScript becomes an explicit `Get`. */
module NeverNull {
  import opened JsModel

  /** What `nn(rawValue)` returns: a closure over exactly one raw value. */
  datatype Handle = Handle(raw: JsValue)

  /** `nn(rawValue)`. Whatever the value, even `undefined` or `null`, the
      handle unwraps to exactly that value. */
  function Wrap(rawValue: JsValue): (h: Handle)
    ensures Unwrap(h) == rawValue
  {
    Handle(rawValue)
  }

  /** Calling a handle with no arguments (the `wrappedValue` closure). */
  function Unwrap(h: Handle): (v: JsValue)
    // a handle holds nothing but its raw value: the handle of `v` is this one
    ensures h == Handle(v)
  {
    h.raw
  }

  /** Reading property `name` off a handle (the `get` trap). The raw parent
      is read only if it is truthy; a callable child is bound to the raw
      parent; the child is wrapped in a fresh handle in every case. */
  function Get(h: Handle, name: string): (child: Handle)
    // a falsy parent (undefined, null, false, 0, NaN, "") gives undefined, whatever the name
    ensures !Truthy(Unwrap(h)) ==> Unwrap(child) == Undefined
    // a truthy parent gives its property value unchanged, unless that is a function
    ensures Truthy(Unwrap(h)) && !IsCallable(Lookup(Unwrap(h), name)) ==>
      Unwrap(child) == Lookup(Unwrap(h), name)
    // a function property, called later on its own, runs as `parent.name(...)` would
    ensures Truthy(Unwrap(h)) && IsCallable(Lookup(Unwrap(h), name)) ==>
      && IsCallable(Unwrap(child))
      && forall t :: Invoke(Unwrap(child), t) == Invoke(Lookup(Unwrap(h), name), Unwrap(h))
  {
    var rawTarget := Unwrap(h);
    var rawPropertyValue := if Truthy(rawTarget) then Lookup(rawTarget, name) else Undefined;
    var childValue := if IsCallable(rawPropertyValue) then Bind(rawPropertyValue, rawTarget) else rawPropertyValue;
    Wrap(childValue)
  }

  /** A chain of property reads `h.p0.p1...`, one `Get` per name. */
  function Nav(h: Handle, path: seq<string>): (r: Handle)
    // from a falsy value, every non-empty chain ends in undefined
    ensures !Truthy(Unwrap(h)) && path != [] ==> Unwrap(r) == Undefined
    decreases |path|
  {
    if path == [] then h else Nav(Get(h, path[0]), path[1..])
  }

  /** Reading any property of a falsy value gives the handle of `undefined`. */
  lemma GetFromFalsyIsAbsent(v: JsValue, name: string)
    requires !Truthy(v)
    ensures Get(Wrap(v), name) == Wrap(Undefined)
  {
  }

  /** The handle of `undefined` is a fixed point of every chain. */
  lemma {:induction false} AbsenceIsFixpoint(path: seq<string>)
    ensures Nav(Wrap(Undefined), path) == Wrap(Undefined)
    decreases |path|
  {
    if path != [] {
      GetFromFalsyIsAbsent(Undefined, path[0]);
      AbsenceIsFixpoint(path[1..]);
    }
  }

  /** Chains compose: reading `p` and then `q` is reading `p + q`. */
  lemma {:induction false} NavAppend(h: Handle, p: seq<string>, q: seq<string>)
    ensures Nav(h, p + q) == Nav(Nav(h, p), q)
    decreases |p|
  {
    if p != [] {
      assert (p + q)[0] == p[0];
      assert (p + q)[1..] == p[1..] + q;
      NavAppend(Get(h, p[0]), p[1..], q);
    } else {
      assert p + q == q;
    }
  }

  /** The last read of a chain is one `Get` on the handle before it. */
  lemma NavSnoc(h: Handle, p: seq<string>, name: string)
    ensures Nav(h, p + [name]) == Get(Nav(h, p), name)
  {
    NavAppend(h, p, [name]);
  }

  /** The value a handle holds after a chain of reads, against the value plain
      JavaScript reaches: the same, or a bound copy of the same function. */
  predicate Tracks(c: JsValue, x: JsValue) {
    c == x || (IsCallable(x) && c.Bound? && c.target == x)
  }

  lemma {:induction false} TrackedNav(c: JsValue, x: JsValue, path: seq<string>)
    requires Tracks(c, x) && PlainAlong(x, path)
    ensures PlainRead(x, path).Some?
    ensures Tracks(Unwrap(Nav(Wrap(c), path)), PlainRead(x, path).value)
    decreases |path|
  {
    if path != [] {
      var name := path[0];
      var c' := Unwrap(Get(Wrap(c), name));
      var x' := Lookup(x, name);
      assert c == x;
      assert Tracks(c', x');
      assert Get(Wrap(c), name) == Wrap(c');
      TrackedNav(c', x', path[1..]);
    }
  }

  /** Where every value a chain reads a property of is truthy and not a
      function, the handle ends on the value plain JavaScript reads, bound to
      its parent if it is a function. */
  lemma NavAgreesWithPlainRead(v: JsValue, path: seq<string>)
    requires PlainAlong(v, path)
    ensures PlainRead(v, path).Some?
    ensures Tracks(Unwrap(Nav(Wrap(v), path)), PlainRead(v, path).value)
    ensures !IsCallable(PlainRead(v, path).value) ==>
      Unwrap(Nav(Wrap(v), path)) == PlainRead(v, path).value
  {
    TrackedNav(v, v, path);
  }

  /** A chain that is plain up to its last read passes plain values only:
      the value before the last read is truthy and not a function, and the
      last read is one `Lookup` on it. */
  lemma {:induction false} PlainAlongPrefix(v: JsValue, p: seq<string>, name: string)
    requires PlainAlong(v, p + [name])
    ensures PlainAlong(v, p) && PlainRead(v, p).Some?
    ensures Truthy(PlainRead(v, p).value) && !IsCallable(PlainRead(v, p).value)
    ensures PlainRead(v, p + [name]) == Some(Lookup(PlainRead(v, p).value, name))
    decreases |p|
  {
    if p == [] {
      assert p + [name] == [name];
    } else {
      assert (p + [name])[0] == p[0];
      assert (p + [name])[1..] == p[1..] + [name];
      PlainAlongPrefix(Lookup(v, p[0]), p[1..], name);
    }
  }

  /** The receiver a function at the end of a plain chain is bound to is the
      raw value the chain read it from. */
  lemma NavBindsToParent(v: JsValue, p: seq<string>, name: string)
    requires PlainAlong(v, p + [name])
    ensures PlainRead(v, p).Some? && PlainRead(v, p + [name]).Some?
    ensures
      var parent := PlainRead(v, p).value;
      var w := PlainRead(v, p + [name]).value;
      Unwrap(Nav(Wrap(v), p + [name])) == if IsCallable(w) then Bound(w, parent) else w
  {
    PlainAlongPrefix(v, p, name);
    NavAgreesWithPlainRead(v, p);
    NavSnoc(Wrap(v), p, name);
  }

  lemma {:induction false} ThrowingReadIsAbsent(c: JsValue, x: JsValue, path: seq<string>)
    requires Tracks(c, x) || c == Undefined
    requires PlainRead(x, path).None?
    ensures Unwrap(Nav(Wrap(c), path)) == Undefined
    decreases |path|
  {
    if !Nullish(x) {
      var name := path[0];
      var c' := Unwrap(Get(Wrap(c), name));
      var x' := Lookup(x, name);
      if c.Bound? && c != x {
        assert Lookup(c, name) == Undefined;
      }
      assert Tracks(c', x') || c' == Undefined;
      assert Get(Wrap(c), name) == Wrap(c');
      ThrowingReadIsAbsent(c', x', path[1..]);
    }
  }

  /** Where plain JavaScript would throw a TypeError part-way along a chain,
      the handle gives `undefined` instead. */
  lemma NavNeverThrows(v: JsValue, path: seq<string>)
    requires PlainRead(v, path).None?
    ensures Unwrap(Nav(Wrap(v), path)) == Undefined
  {
    ThrowingReadIsAbsent(v, v, path);
  }

  /** Once a chain reaches an object that lacks the next key, everything
      after it is `undefined`: `nn(v).a.x.y()` with no `x` in `v.a`. */
  lemma MissingKeyIsAbsent(v: JsValue, p: seq<string>, m: map<string, JsValue>, key: string, q: seq<string>)
    requires PlainAlong(v, p) && PlainRead(v, p) == Some(Obj(m))
    requires key !in m
    ensures Nav(Wrap(v), p + [key] + q) == Wrap(Undefined)
  {
    NavAgreesWithPlainRead(v, p);
    NavSnoc(Wrap(v), p, key);
    NavAppend(Wrap(v), p + [key], q);
    AbsenceIsFixpoint(q);
  }

  /** A present property keeps its value, falsy or not (`0`, `false`, `""`,
      `null` are not turned into absence); only functions are bound first. */
  lemma PresentValueIsKept(m: map<string, JsValue>, key: string)
    requires key in m && !IsCallable(m[key])
    ensures Unwrap(Get(Wrap(Obj(m)), key)) == m[key]
  {
  }

  /** A method read off an object is bound to that raw object, not to the
      handle: called on its own it runs `m[key]` with `this` the object. */
  lemma MethodIsBoundToRawParent(v: JsValue, name: string, t: JsValue)
    requires Truthy(v) && Lookup(v, name).Func?
    ensures Unwrap(Get(Wrap(v), name)) == Bound(Lookup(v, name), v)
    ensures Invoke(Unwrap(Get(Wrap(v), name)), t) == Invocation(Lookup(v, name), v)
  {
  }

  /** The handle of a function property holds the bound copy, not the
      function itself, so none of the function's own properties (static
      members, `prototype`) can be read through it. */
  lemma BoundCopyHasNoProperties(v: JsValue, name: string, next: string)
    requires Truthy(v) && IsCallable(Lookup(v, name))
    ensures Get(Get(Wrap(v), name), next) == Wrap(Undefined)
  {
  }

  /** `F.x = 1; o = {f: F}`: plain `o.f.x` is 1, but `nn(o).f.x()` is
      `undefined`, because `nn(o).f` wraps `F.bind(o)`. */
  lemma FunctionPropertyIsLost()
    ensures
      var o := Obj(map["f" := Func(0, map["x" := Num(1)])]);
      && PlainRead(o, ["f", "x"]) == Some(Num(1))
      && Unwrap(Nav(Wrap(o), ["f", "x"])) == Undefined
  {
    var o := Obj(map["f" := Func(0, map["x" := Num(1)])]);
    BoundCopyHasNoProperties(o, "f", "x");
  }

  /** A value that is already a bound function keeps its own receiver when
      read through a handle, as `v.name(...)` would. */
  lemma BoundPropertyKeepsReceiver(v: JsValue, name: string, f: JsValue, r: JsValue, t: JsValue)
    requires Truthy(v) && Lookup(v, name) == Bound(f, r)
    ensures Invoke(Unwrap(Get(Wrap(v), name)), t) == Invoke(f, r)
  {
  }

  /** Changing one key of an object does not change what another
      non-function key reads. */
  lemma ReadIsLocalToKey(m: map<string, JsValue>, key: string, other: string, x: JsValue)
    requires key != other && !IsCallable(Lookup(Obj(m), key))
    ensures Get(Wrap(Obj(m[other := x])), key) == Get(Wrap(Obj(m)), key)
  {
  }

  /** An array element is read by its index name like any other property,
      and an index past the end gives `undefined`. */
  lemma ArrayIndexNavigation(elems: seq<JsValue>, i: nat)
    requires i < |elems| ==> !IsCallable(elems[i])
    ensures Unwrap(Get(Wrap(Arr(elems)), IndexName(i))) == if i < |elems| then elems[i] else Undefined
  {
    LookupArrayIndex(elems, i);
  }

  /** The guard is truthiness, not `!= null`: an empty string is present in
      plain JavaScript (its `length` is 0) but reads as absent here, while a
      non-empty string's `length` is read. */
  lemma EmptyStringIsTreatedAsAbsent()
    ensures PlainRead(Str(""), ["length"]) == Some(Num(0))
    ensures Unwrap(Nav(Wrap(Str("")), ["length"])) == Undefined
    ensures Unwrap(Nav(Wrap(Str("abc")), ["length"])) == Num(3)
  {
  }

  /** `nn({ a: 1 }).a() == 1` and
      `nn({}).non.existent.property.access() == undefined`. */
  lemma DocumentedExamples()
    ensures Unwrap(Get(Wrap(Obj(map["a" := Num(1)])), "a")) == Num(1)
    ensures Unwrap(Nav(Wrap(Obj(map[])), ["non", "existent", "property", "access"])) == Undefined
  {
    var path := ["non", "existent", "property", "access"];
    MissingKeyIsAbsent(Obj(map[]), [], map[], "non", path[1..]);
    assert [] + ["non"] + path[1..] == path;
  }

  /** `{a: {b: {c: 42}}}`: `.a.b.c` is 42, `.a.x.y` is `undefined`. */
  lemma NestedExamples()
    ensures
      var v := Obj(map["a" := Obj(map["b" := Obj(map["c" := Num(42)])])]);
      && Unwrap(Nav(Wrap(v), ["a", "b", "c"])) == Num(42)
      && Unwrap(Nav(Wrap(v), ["a", "x", "y"])) == Undefined
  {
    var v := Obj(map["a" := Obj(map["b" := Obj(map["c" := Num(42)])])]);
    NavAgreesWithPlainRead(v, ["a", "b", "c"]);
    MissingKeyIsAbsent(v, ["a"], map["b" := Obj(map["c" := Num(42)])], "x", ["y"]);
    assert ["a"] + ["x"] + ["y"] == ["a", "x", "y"];
  }

  /** `{list: [10, 20, 30]}`: `.list[1]` is 20 and `.list[9]` is `undefined`. */
  lemma ArrayExamples()
    ensures
      var v := Obj(map["list" := Arr([Num(10), Num(20), Num(30)])]);
      && Unwrap(Nav(Wrap(v), ["list", "1"])) == Num(20)
      && Unwrap(Nav(Wrap(v), ["list", "9"])) == Undefined
  {
    var v := Obj(map["list" := Arr([Num(10), Num(20), Num(30)])]);
    var list := Get(Wrap(v), "list");
    assert Unwrap(list) == Arr([Num(10), Num(20), Num(30)]);
    assert IndexName(1) == "1" && IndexName(9) == "9";
    ArrayIndexNavigation([Num(10), Num(20), Num(30)], 1);
    ArrayIndexNavigation([Num(10), Num(20), Num(30)], 9);
  }

  /** `{name: "x", greet() { return this.name; }}`: `nn(v).greet()`, called on
      its own, runs `greet` with `this` the object, whose `name` is "x". */
  lemma BoundMethodExample(t: JsValue)
    ensures
      var v := Obj(map["name" := Str("x"), "greet" := Func(0, map[])]);
      var call := Invoke(Unwrap(Get(Wrap(v), "greet")), t);
      && call == Invocation(Func(0, map[]), v)
      && Unwrap(Get(Wrap(call.thisValue), "name")) == Str("x")
  {
  }
}
