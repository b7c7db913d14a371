/** The slice of the JavaScript value universe the adapter inspects: the
    primitive kinds, arrays, plain objects and Date objects, with the
    `typeof`, truthiness, `instanceof` and `for...in` rules of ECMA-262. */
module JsValues {
  import opened Wrappers
  import NumberText

  /** The largest magnitude of a Date time value, 8.64e15 milliseconds
      (section 21.4.1.1 of ECMA-262, Time Values and Time Range). */
  const MaxTime: int := 8_640_000_000_000_000

  /** A time value: milliseconds since the epoch, within the time range. */
  type TimeValue = t: int | -MaxTime <= t <= MaxTime

  /** A JavaScript value. Numbers are integral (`Num`) or `NaN`; a `DateV`
      carries its time value, None for an Invalid Date. An `Obj` carries the
      properties `for...in` visits, in visit order (own and inherited
      enumerable string keys), and whether its prototype chain misses
      `Object.prototype`, as for `Object.create(null)` or
      `Object.create(Object.create(null))`. */
  datatype Value =
    | Undefined
    | Null
    | Bool(b: bool)
    | Num(n: int)
    | NaN
    | Str(s: string)
    | Arr(elems: seq<Value>)
    | Obj(entries: seq<Prop>, noObjectProto: bool)
    | DateV(time: Option<TimeValue>)

  /** One property `for...in` visits: its key, its value, and whether it is
      an own property (`Object.hasOwnProperty`) or an inherited one. */
  datatype Prop = Prop(name: string, value: Value, own: bool)

  /** The built-in constructors `instanceof` is asked about. */
  datatype Builtin = ObjectClass | ArrayClass | DateClass

  /** The `typeof` operator (section 13.5.3 of ECMA-262). */
  function TypeOf(v: Value): string {
    match v
    case Undefined => "undefined"
    case Bool(_) => "boolean"
    case Num(_) => "number"
    case NaN => "number"
    case Str(_) => "string"
    case _ => "object"
  }

  /** ToBoolean (section 7.1.2 of ECMA-262), the test an `&&` operand gets. */
  predicate Truthy(v: Value) {
    match v
    case Undefined => false
    case Null => false
    case NaN => false
    case Bool(b) => b
    case Num(n) => n != 0
    case Str(s) => s != ""
    case _ => true
  }

  /** The built-in prototypes `instanceof` meets on its walk, nearest first;
      a primitive has none (OrdinaryHasInstance answers false for it without
      walking), and an object whose chain misses `Object.prototype` meets no
      built-in one. */
  function PrototypeChain(v: Value): seq<Builtin> {
    match v
    case Arr(_) => [ArrayClass, ObjectClass]
    case DateV(_) => [DateClass, ObjectClass]
    case Obj(_, noObjectProto) => if noObjectProto then [] else [ObjectClass]
    case _ => []
  }

  /** `v instanceof C` for a built-in constructor C. */
  predicate InstanceOf(v: Value, c: Builtin) {
    c in PrototypeChain(v)
  }

  /** The properties `for (name in v)` visits, in order: an array's and a
      string's indices as decimal keys, an object's recorded entries, and
      nothing for the other primitives or for a Date. The adapter never
      reaches the string case: a string fails `instanceof Object` first. */
  function ForInEntries(v: Value): (ps: seq<Prop>)
    ensures v.Arr? ==> |ps| == |v.elems|
    ensures v.Arr? ==> forall i :: 0 <= i < |ps| ==> ps[i] == Prop(NumberText.NatToString(i), v.elems[i], true)
  {
    match v
    case Arr(elems) => seq(|elems|, i requires 0 <= i < |elems| => Prop(NumberText.NatToString(i), elems[i], true))
    case Str(s) => seq(|s|, i requires 0 <= i < |s| => Prop(NumberText.NatToString(i), Str([s[i]]), true))
    case Obj(entries, _) => entries
    case _ => []
  }

  // ---------------------------------------------------------------------
  // Lemmas

  /** Exactly six values are falsy. */
  lemma FalsyValues(v: Value)
    ensures !Truthy(v) <==> v in {Undefined, Null, Bool(false), Num(0), NaN, Str("")}
  {
  }

  /** `instanceof Object` accepts arrays, Dates and objects whose chain
      reaches `Object.prototype`, and rejects every primitive, `null`,
      `undefined` and an object whose chain misses it. */
  lemma InstanceOfObject(v: Value)
    ensures InstanceOf(v, ObjectClass) <==> v.Arr? || v.DateV? || (v.Obj? && !v.noObjectProto)
  {
  }

  /** `instanceof Array` accepts arrays only. */
  lemma InstanceOfArray(v: Value)
    ensures InstanceOf(v, ArrayClass) <==> v.Arr?
  {
  }
}
