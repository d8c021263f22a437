/** Values produced by `JSON.parse`, and the few JavaScript operations the
    controllers apply to them: truthiness and property reads. */
module Json {
  import opened Wrappers
  import opened Records

  /** A parsed JSON value. Objects keep their members in insertion order,
      as JavaScript objects do. */
  datatype Value =
    | Null
    | Bool(b: bool)
    | Num(n: real)
    | Str(s: string)
    | Arr(items: seq<Value>)
    | Obj(fields: Record<Value>)

  /** JavaScript truthiness: `null`, `false`, `0` and `""` are falsy;
      every array and every object is truthy. JSON has no `NaN`. */
  predicate Truthy(v: Value)
  {
    match v
    case Null => false
    case Bool(b) => b
    case Num(n) => n != 0.0
    case Str(s) => |s| > 0
    case Arr(_) => true
    case Obj(_) => true
  }

  /** The outcome of reading a property: a `TypeError` was thrown, the
      property is missing (`undefined`), or it holds a value. */
  datatype Access = Thrown | Undefined | Defined(value: Value)

  /** The property names the controllers read from parsed values. None of
      them is an array index, `length`, or a member of `Object.prototype`,
      `Array.prototype`, `String.prototype`, `Number.prototype` or
      `Boolean.prototype`, so a value that lacks such an own property
      reads as `undefined`. */
  const ReadNames: set<string> :=
    {"candidates", "content", "parts", "text", "name", "tokens", "symbol", "percentage",
     "reasoning", "risks", "expectedOutcome"}

  /** The members every plain object inherits from `Object.prototype`. */
  const ObjectPrototypeMembers: set<string> :=
    {"constructor", "__proto__", "__defineGetter__", "__defineSetter__", "__lookupGetter__",
     "__lookupSetter__", "hasOwnProperty", "isPrototypeOf", "propertyIsEnumerable",
     "toString", "toLocaleString", "valueOf"}

  /** `a.name`: reading from `undefined` or `null` throws; an object gives
      its own member or `undefined`; any other value has no such property. */
  function Member(a: Access, name: string): (r: Access)
    requires name in ReadNames
    ensures r.Thrown? <==> a.Thrown? || a.Undefined? || a == Defined(Null)
    ensures r.Defined? ==> a.Defined? && a.value.Obj? && Get(a.value.fields, name) == Some(r.value)
  {
    match a
    case Thrown => Thrown
    case Undefined => Thrown
    case Defined(v) =>
      match v
      case Null => Thrown
      case Obj(fields) => if name in Keys(fields) then Defined(Get(fields, name).value) else Undefined
      case _ => Undefined
  }

  /** `a[0]`: the first element of an array, the first character of a
      string, or an object's member `"0"`. */
  function Element0(a: Access): (r: Access)
    ensures r.Thrown? <==> a.Thrown? || a.Undefined? || a == Defined(Null)
    ensures a.Defined? && a.value.Arr? ==>
      (|a.value.items| > 0 ==> r == Defined(a.value.items[0])) && (|a.value.items| == 0 ==> r.Undefined?)
  {
    match a
    case Thrown => Thrown
    case Undefined => Thrown
    case Defined(v) =>
      match v
      case Null => Thrown
      case Arr(items) => if |items| > 0 then Defined(items[0]) else Undefined
      case Str(s) => if |s| > 0 then Defined(Str([s[0]])) else Undefined
      case Obj(fields) => if "0" in Keys(fields) then Defined(Get(fields, "0").value) else Undefined
      case _ => Undefined
  }

  /** Truthiness of a property read that did not throw. */
  predicate AccessTruthy(a: Access)
  {
    a.Defined? && Truthy(a.value)
  }

  /** `String(v)`, as a template literal applies it, returns rather than
      throws. An object with its own `toString` member throws: a parsed
      member is never a function, so the conversion falls through to
      `valueOf`, which gives back the object itself. Any other object gives
      "[object Object]", and an array joins its elements' conversions
      (`null` as ""). */
  predicate Printable(v: Value)
  {
    match v
    case Arr(items) => forall i :: 0 <= i < |items| ==> Printable(items[i])
    case Obj(fields) => "toString" !in Keys(fields)
    case _ => true
  }

  /** A property read that did not throw and whose value can be written
      into a template literal; `undefined` prints as "undefined". */
  predicate AccessPrintable(a: Access)
  {
    a.Undefined? || (a.Defined? && Printable(a.value))
  }

  /** An object all of whose member values print reads printably under
      every name; an object holding its own `toString` does not print. */
  lemma MemberPrintable(fields: Record<Value>, name: string)
    requires name in ReadNames
    requires forall i :: 0 <= i < |fields| ==> Printable(fields[i].1)
    ensures AccessPrintable(Member(Defined(Obj(fields)), name))
    ensures !Printable(Obj(fields + [("toString", Num(0.0))]))
  {
    assert Keys(fields + [("toString", Num(0.0))])[|fields|] == "toString";
  }

  /** Reading a property never gives a value the object does not hold
      under that name, and reading a member the object holds gives it. */
  lemma MemberOfObject(fields: Record<Value>, name: string, v: Value)
    requires name in ReadNames
    ensures Member(Defined(Obj(fields)), name) == Defined(v) <==> Get(fields, name) == Some(v)
  {
  }
}
