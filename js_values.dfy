/**
 * The slice of JavaScript semantics the statistics script relies on:
 * parsed JSON values, `undefined`, truthiness, optional-chained property
 * access (`a?.b?.c`) and the `||` default operator.
 */
module JsValues {

  /** A value parsed from a JSON response body. Numbers are integers here. */
  datatype Json =
    | JNull
    | JBool(b: bool)
    | JNum(n: int)
    | JStr(s: string)
    | JArr(items: seq<Json>)
    | JObj(fields: map<string, Json>)

  /** A JavaScript value that may be `undefined` (None). */
  datatype Option<T> = None | Some(value: T)

  /** How evaluating a JavaScript expression ends: with a value, or with a thrown TypeError. */
  datatype Completion<T> = Returns(value: T) | Throws

  /** JavaScript truthiness of a defined JSON value: `null`, `false`, `0` and `""` are falsy. */
  predicate Truthy(j: Json) {
    match j
    case JNull => false
    case JBool(b) => b
    case JNum(n) => n != 0
    case JStr(s) => s != ""
    case JArr(_) => true
    case JObj(_) => true
  }

  /** Truthiness of a possibly-undefined value; `undefined` is falsy. */
  predicate TruthyOrUndefined(v: Option<Json>) {
    v.Some? && Truthy(v.value)
  }

  /**
   * `v?.key`: `undefined` when `v` is `undefined` or `null`, or when `v` has no
   * own property `key` (only objects carry the keys this script reads).
   */
  function Member(v: Option<Json>, key: string): (r: Option<Json>)
    ensures r.Some? ==> v.Some? && v.value.JObj? && key in v.value.fields && r.value == v.value.fields[key]
    ensures v.Some? && v.value.JObj? && key in v.value.fields ==> r.Some?
  {
    match v
    case Some(JObj(fields)) => if key in fields then Some(fields[key]) else None
    case _ => None
  }

  /** `v?.k0?.k1?...`: optional-chained access along a path of keys. */
  function Path(v: Option<Json>, keys: seq<string>): Option<Json>
    decreases |keys|
  {
    if keys == [] then v else Path(Member(v, keys[0]), keys[1..])
  }

  /** `v || fallback`: the value when it is truthy, the fallback otherwise. */
  function OrElse(v: Option<Json>, fallback: Json): (r: Json)
    ensures TruthyOrUndefined(v) ==> Some(r) == v
    ensures !TruthyOrUndefined(v) ==> r == fallback
    ensures Truthy(fallback) ==> Truthy(r)
  {
    if TruthyOrUndefined(v) then v.value else fallback
  }

  /**
   * Whether a template literal `${j}` turns the value into a string without
   * throwing. An object with its own `toString` key hides the inherited method
   * behind a value that is not callable, and its inherited `valueOf` returns
   * the object itself, so the conversion throws a TypeError; any other object
   * becomes "[object Object]". An array joins its elements, converting each
   * one the same way (`null` becomes "").
   */
  predicate Printable(j: Json) {
    match j
    case JObj(fields) => "toString" !in fields
    case JArr(items) => forall i :: 0 <= i < |items| ==> Printable(items[i])
    case _ => true
  }

  /** `${v}` for a possibly-undefined value: `undefined` becomes "undefined". */
  predicate PrintableOrUndefined(v: Option<Json>) {
    v.None? || Printable(v.value)
  }

  /** Once a chain reaches `undefined` it stays `undefined`. */
  lemma {:induction false} UndefinedAbsorbs(keys: seq<string>)
    ensures Path(None, keys) == None
    decreases |keys|
  {
    if keys != [] {
      UndefinedAbsorbs(keys[1..]);
    }
  }

  /**
   * A chain yields a value only if every intermediate value is an object that
   * has the next key: a missing key or a non-object anywhere ends in `undefined`.
   */
  lemma {:induction false} DefinedPathThroughObjects(v: Option<Json>, keys: seq<string>, k: nat)
    requires k < |keys|
    requires Path(v, keys).Some?
    ensures Path(v, keys[..k]).Some?
    ensures Path(v, keys[..k]).value.JObj?
    ensures keys[k] in Path(v, keys[..k]).value.fields
    decreases |keys|
  {
    if k == 0 {
      assert keys[..0] == [];
      if Member(v, keys[0]).None? {
        UndefinedAbsorbs(keys[1..]);
      }
    } else {
      DefinedPathThroughObjects(Member(v, keys[0]), keys[1..], k - 1);
      assert keys[1..][..k - 1] == keys[..k][1..];
    }
  }
}
