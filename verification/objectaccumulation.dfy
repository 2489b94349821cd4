/** The category accumulation exactly as `getSummaryByCategory` writes it,
    on a plain JavaScript object literal `{}`. Such an object is not an
    empty table: reading a key it does not own falls through to the members
    every object inherits (`constructor`, `toString`, `valueOf`, ...) and to
    the `__proto__` accessor, and writing a primitive to `__proto__` is ignored. */
module ObjectAccumulation {
  import opened Text
  import opened MapSums
  import opened Expenses
  import opened CategorySummary

  /** The JavaScript values the accumulator can hold or read. */
  datatype JsValue =
    | Undefined
    | Num(n: int)
    | Text(s: string)
    | NotANumber
    | NativeFunction(name: string)
    | ObjectPrototype

  /** Function-valued members every plain object inherits. */
  const InheritedMethods: set<string> := {
    "constructor", "hasOwnProperty", "isPrototypeOf", "propertyIsEnumerable",
    "toLocaleString", "toString", "valueOf",
    "__defineGetter__", "__defineSetter__", "__lookupGetter__", "__lookupSetter__"
  }

  const ProtoKey := "__proto__"

  /** Keys on which a plain object does not behave as an empty table. */
  predicate Inherited(key: string)
  {
    key in InheritedMethods || key == ProtoKey
  }

  /** The own properties of a plain object. */
  type PlainObject = map<string, JsValue>

  /** `o[key]`: an own property, else the inherited member (`constructor`
      is the function `Object`, the others are named by their key), else
      `undefined`. */
  function Get(o: PlainObject, key: string): JsValue
  {
    if key in o then o[key]
    else if key == "constructor" then NativeFunction("Object")
    else if key in InheritedMethods then NativeFunction(key)
    else if key == ProtoKey then ObjectPrototype
    else Undefined
  }

  /** `o[key] = v` for a primitive `v`: the `__proto__` setter ignores it. */
  function Put(o: PlainObject, key: string, v: JsValue): PlainObject
  {
    if key == ProtoKey then o else o[key := v]
  }

  predicate Truthy(v: JsValue)
  {
    match v
    case Undefined => false
    case Num(n) => n != 0
    case Text(s) => |s| > 0
    case NotANumber => false
    case NativeFunction(_) => true
    case ObjectPrototype => true
  }

  /** `v || d`. */
  function Or(v: JsValue, d: JsValue): JsValue
  {
    if Truthy(v) then v else d
  }

  /** The text a non-numeric value turns into before string concatenation;
      for a built-in function the text `String(f)` gives for it. */
  function ToText(v: JsValue): string
  {
    match v
    case Undefined => "undefined"
    case Num(n) => IntToString(n)
    case Text(s) => s
    case NotANumber => "NaN"
    case NativeFunction(name) => "function " + name + "() { [native code] }"
    case ObjectPrototype => "[object Object]"
  }

  /** `v + a` for a number `a`: numeric addition on numbers, string
      concatenation once either side is not a number. */
  function Plus(v: JsValue, a: int): JsValue
  {
    match v
    case Num(n) => Num(n + a)
    case Undefined => NotANumber
    case NotANumber => NotANumber
    case _ => Text(ToText(v) + IntToString(a))
  }

  /** `expenses.reduce((acc, e) => { acc[e.category] = (acc[e.category] || 0) + e.amount; return acc }, {})`. */
  function SummaryAsWritten(es: seq<Expense>): (r: PlainObject)
    ensures r.Keys == KeySet(es, CategoryOf) - {ProtoKey}
  {
    if |es| == 0 then map[]
    else
      var acc := SummaryAsWritten(es[..|es| - 1]);
      var e := es[|es| - 1];
      Put(acc, e.category, Plus(Or(Get(acc, e.category), Num(0)), e.amount))
  }

  /** The category summary seen as JavaScript numbers. */
  function AsNumbers(m: map<string, int>): PlainObject
  {
    map c | c in m :: Num(m[c])
  }

  /** Whenever no record's category is an inherited key, the object-based
      reduction computes exactly the category summary. */
  lemma {:induction false} AsWrittenAgreesOnOrdinaryCategories(es: seq<Expense>)
    requires forall i :: 0 <= i < |es| ==> !Inherited(es[i].category)
    ensures SummaryAsWritten(es) == AsNumbers(SummaryByCategory(es))
    decreases |es|
  {
    if |es| > 0 {
      var init, e := es[..|es| - 1], es[|es| - 1];
      assert forall i :: 0 <= i < |init| ==> init[i] == es[i];
      AsWrittenAgreesOnOrdinaryCategories(init);
      SummaryLast(es);
      AsNumbersStep(SummaryByCategory(init), e.category, e.amount);
    }
  }

  /** On an ordinary key, one step of the object-based reduction is one
      `AddTo` on the numbers. */
  lemma AsNumbersStep(s: map<string, int>, c: string, a: int)
    requires !Inherited(c)
    ensures Put(AsNumbers(s), c, Plus(Or(Get(AsNumbers(s), c), Num(0)), a)) == AsNumbers(AddTo(s, c, a))
  {
  }

  /** A single expense of 5 in the category `"constructor"` yields a string,
      not the number 5 the map-based summary gives. */
  lemma ConstructorCategoryBecomesText(e: Expense)
    requires e.category == "constructor" && e.amount == 5
    ensures SummaryByCategory([e]) == map["constructor" := 5]
    ensures SummaryAsWritten([e])["constructor"].Text?
  {
    assert [e][..0] == [];
  }

  /** A single expense in the category `"__proto__"` disappears from the
      object-based summary, while the map-based summary keeps it. */
  lemma ProtoCategoryVanishes(e: Expense)
    requires e.category == ProtoKey
    ensures ProtoKey in SummaryByCategory([e])
    ensures ProtoKey !in SummaryAsWritten([e])
  {
    assert [e][..0] == [];
  }
}
