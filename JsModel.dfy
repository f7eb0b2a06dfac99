/** The part of JavaScript that the nevernull wrapper relies on: values,
    truthiness (ToBoolean), `typeof v === 'function'`, one property read
    `v[name]`, `Function.prototype.bind` and a plain member-access chain
    `v[p0][p1]...` without any safety. */
module JsModel {

  datatype Option<T> = None | Some(value: T)

  /** A JavaScript value. Numbers are integer-valued, with NaN as its own
      case because it is falsy. Objects are their own string-keyed
      properties, arrays their elements. A function is an identity and its
      own properties (static members, `prototype`); `Bound(target, receiver)`
      is the new function object that `target.bind(receiver)` returns, which
      has none of its target's own properties. */
  datatype JsValue =
    | Undefined
    | Null
    | Bool(b: bool)
    | Num(n: int)
    | NaN
    | Str(s: string)
    | Obj(props: map<string, JsValue>)
    | Arr(elems: seq<JsValue>)
    | Func(id: nat, fprops: map<string, JsValue>)
    | Bound(target: JsValue, receiver: JsValue)

  /** `undefined` and `null`: reading a property of these throws a TypeError. */
  predicate Nullish(v: JsValue) {
    v.Undefined? || v.Null?
  }

  /** ToBoolean (section 7.1.2 of ECMA-262). */
  predicate Truthy(v: JsValue): (b: bool)
    ensures !b <==> v in {Undefined, Null, Bool(false), Num(0), NaN, Str("")}
  {
    match v
    case Undefined => false
    case Null => false
    case Bool(b) => b
    case Num(n) => n != 0
    case NaN => false
    case Str(s) => s != ""
    case _ => true
  }

  /** `typeof v === 'function'`. */
  predicate IsCallable(v: JsValue): (b: bool)
    // functions are objects, and every object is truthy
    ensures b ==> Truthy(v) && !Nullish(v)
  {
    v.Func? || v.Bound?
  }

  predicate IsDigit(c: char) {
    '0' <= c <= '9'
  }

  predicate AllDigits(s: string) {
    forall i | 0 <= i < |s| :: IsDigit(s[i])
  }

  function DigitValue(c: char): (d: nat)
    requires IsDigit(c)
    ensures d < 10
  {
    (c as int) - ('0' as int)
  }

  function DigitChar(d: nat): (c: char)
    requires d < 10
    ensures IsDigit(c) && DigitValue(c) == d
  {
    (('0' as int) + d) as char
  }

  /** The number a string of decimal digits denotes. */
  function DecimalValue(s: string): nat
    requires AllDigits(s)
    decreases |s|
  {
    if s == [] then 0 else 10 * DecimalValue(s[..|s| - 1]) + DigitValue(s[|s| - 1])
  }

  /** A property name that denotes an element index: decimal digits with no
      leading zero ("0", "1", "17", but not "", "01", "-1" or "length"). */
  predicate CanonicalIndex(name: string) {
    |name| > 0 && AllDigits(name) && (name[0] == '0' ==> |name| == 1)
  }

  /** The element index a property name denotes, if any. */
  function ParseIndex(name: string): Option<nat> {
    if CanonicalIndex(name) then Some(DecimalValue(name)) else None
  }

  lemma NonZeroNameHasNoLeadingZero(name: string)
    ensures CanonicalIndex(name) && DecimalValue(name) != 0 ==> name[0] != '0'
  {
    if CanonicalIndex(name) && |name| == 1 {
      assert name[..0] == [];
      assert DecimalValue(name) == DigitValue(name[0]);
    }
  }

  /** The property name under which element `i` is stored: what `String(i)`
      gives, which is also how `list[1]` turns the key 1 into a name. */
  function IndexName(i: nat): (name: string)
    ensures CanonicalIndex(name) && DecimalValue(name) == i
    decreases i
  {
    if i < 10 then [DigitChar(i)]
    else
      var prefix := IndexName(i / 10);
      var name := prefix + [DigitChar(i % 10)];
      assert name[..|name| - 1] == prefix;
      NonZeroNameHasNoLeadingZero(prefix);
      name
  }

  lemma {:induction false} LeadingDigitPositive(s: string)
    requires |s| > 0 && AllDigits(s) && s[0] != '0'
    ensures DecimalValue(s) >= 1
    decreases |s|
  {
    if |s| > 1 {
      LeadingDigitPositive(s[..|s| - 1]);
    }
  }

  /** Every canonical index name is the name of the index it denotes. */
  lemma {:induction false} CanonicalNameIsIndexName(name: string)
    requires CanonicalIndex(name)
    ensures name == IndexName(DecimalValue(name))
    decreases |name|
  {
    var last := name[|name| - 1];
    var d := DigitValue(last);
    assert DigitChar(d) == last;
    if |name| == 1 {
      assert name[..0] == [];
      assert name == [last];
    } else {
      var prefix := name[..|name| - 1];
      assert name == prefix + [last];
      assert prefix[0] == name[0];
      LeadingDigitPositive(prefix);
      CanonicalNameIsIndexName(prefix);
      var i := DecimalValue(name);
      assert i == 10 * DecimalValue(prefix) + d;
      assert i / 10 == DecimalValue(prefix) && i % 10 == d;
    }
  }

  /** Index names and indices are in one-to-one correspondence: a name parses
      to an index exactly when it is that index's canonical name. */
  lemma ParseIndexIsInverse(name: string, i: nat)
    ensures ParseIndex(name) == Some(i) <==> name == IndexName(i)
  {
    if ParseIndex(name) == Some(i) {
      CanonicalNameIsIndexName(name);
    }
  }

  /** `v[name]` for a value whose property read does not throw. Own
      properties only: an object's or a plain function's own keys, an
      array's or a string's elements and `length`. Everything reached
      through a prototype (methods of primitives, `toString` on objects,
      `call` on functions) and the `name` and `length` of bound functions
      read as `undefined` here. Every property is a data value: there are no
      getters, so a read never runs code. */
  function Lookup(v: JsValue, name: string): (r: JsValue)
    requires !Nullish(v)
    // an own key of an object or function is read as stored
    ensures v.Obj? && name in v.props ==> r == v.props[name]
    ensures v.Func? && name in v.fprops ==> r == v.fprops[name]
    // an array's or string's `length` is its size
    ensures v.Arr? && name == "length" ==> r == Num(|v.elems|)
    ensures v.Str? && name == "length" ==> r == Num(|v.s|)
    // only objects, plain functions, arrays and strings have properties
    ensures !(v.Obj? || v.Func? || v.Arr? || v.Str?) ==> r == Undefined
  {
    match v
    case Obj(props) => if name in props then props[name] else Undefined
    case Func(_, fprops) => if name in fprops then fprops[name] else Undefined
    case Arr(elems) =>
      if name == "length" then Num(|elems|)
      else
        (match ParseIndex(name)
         case Some(i) => if i < |elems| then elems[i] else Undefined
         case None => Undefined)
    case Str(s) =>
      if name == "length" then Num(|s|)
      else
        (match ParseIndex(name)
         case Some(i) => if i < |s| then Str([s[i]]) else Undefined
         case None => Undefined)
    case _ => Undefined
  }

  lemma IndexNameIsNotLength(i: nat)
    ensures IndexName(i) != "length"
  {
    assert IsDigit(IndexName(i)[0]);
  }

  /** `list[i]` reads element `i` of an array, or `undefined` past its end. */
  lemma LookupArrayIndex(elems: seq<JsValue>, i: nat)
    ensures Lookup(Arr(elems), IndexName(i)) == if i < |elems| then elems[i] else Undefined
  {
    IndexNameIsNotLength(i);
  }

  /** `s[i]` reads the one-character string at position `i`, or `undefined`. */
  lemma LookupStringIndex(s: string, i: nat)
    ensures Lookup(Str(s), IndexName(i)) == if i < |s| then Str([s[i]]) else Undefined
  {
    IndexNameIsNotLength(i);
  }

  /** Which function body a call runs, and with which `this`. */
  datatype Invocation = Invocation(callee: JsValue, thisValue: JsValue)

  /** Calling `f` with `this` set to `thisArg`. A bound function ignores the
      `this` it is called with and calls its target with its own receiver
      (the [[Call]] of bound function exotic objects, section 10.4.1.1 of
      ECMA-262); a plain function runs with the `this` it is given. Only
      meaningful for a callable `f`: calling any other value throws a
      TypeError in JavaScript, and no member here applies `Invoke` to one. */
  function Invoke(f: JsValue, thisArg: JsValue): (call: Invocation)
    ensures !call.callee.Bound?
    ensures !f.Bound? ==> call.callee == f && call.thisValue == thisArg
    decreases f
  {
    match f
    case Bound(target, receiver) => Invoke(target, receiver)
    case _ => Invocation(f, thisArg)
  }

  /** `f.bind(thisArg)` with no extra arguments. */
  function Bind(f: JsValue, thisArg: JsValue): (g: JsValue)
    requires IsCallable(f)
    ensures IsCallable(g)
    ensures forall t :: Invoke(g, t) == Invoke(f, thisArg)
  {
    Bound(f, thisArg)
  }

  /** Binding a function that is already bound does not change the `this` it
      runs with: only the first `bind` decides the receiver. */
  lemma RebindKeepsReceiver(f: JsValue, r1: JsValue, r2: JsValue, t: JsValue)
    requires IsCallable(f)
    ensures Invoke(Bind(Bind(f, r1), r2), t) == Invoke(f, r1)
  {
  }

  /** Plain JavaScript `v[p0][p1]...[pn-1]`: `None` when a step reads a
      property of `undefined` or `null`, which throws a TypeError. */
  function PlainRead(v: JsValue, path: seq<string>): (r: Option<JsValue>)
    ensures path == [] ==> r == Some(v)
    decreases |path|
  {
    if path == [] then Some(v)
    else if Nullish(v) then None
    else PlainRead(Lookup(v, path[0]), path[1..])
  }

  /** Every value the plain chain reads a property of is truthy and is not
      a function. */
  predicate PlainAlong(v: JsValue, path: seq<string>)
    decreases |path|
  {
    path == [] || (Truthy(v) && !IsCallable(v) && PlainAlong(Lookup(v, path[0]), path[1..]))
  }
}
