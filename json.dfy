/** JSON values as `JSON.parse` produces them, and the JavaScript operations the core
    applies to them: property access, truthiness, `typeof … === 'object'` and the
    string conversion of template literals. Parsing and serialising themselves are
    library code: the operations that need them take `JSON.parse` / `JSON.stringify`
    as function parameters. */
module Json {
  import opened Results
  import Strings

  /** Numbers are modelled as integers (see README, Left out). */
  datatype Value =
    | Null
    | Bool(b: bool)
    | Num(n: int)
    | Str(s: string)
    | Arr(items: seq<Value>)
    | Obj(fields: map<string, Value>)

  /** What `JSON.parse(text)` does: returns a value or throws a SyntaxError with a message. */
  datatype ParseOutcome = Parsed(value: Value) | SyntaxError(message: string)

  /** `v?.[k]` on a value that is not `null`: the member of an object, `undefined`
      (None) for anything else or for a missing key. */
  function Get(v: Value, k: string): (r: Option<Value>)
    ensures r.Some? <==> v.Obj? && k in v.fields
    ensures r.Some? ==> r.value == v.fields[k]
  {
    if v.Obj? && k in v.fields then Some(v.fields[k]) else None
  }

  /** Optional chaining `a?.[k]` where `a` may itself be `undefined`. */
  function GetOpt(v: Option<Value>, k: string): (r: Option<Value>)
    ensures r.Some? ==> v.Some? && v.value.Obj? && k in v.value.fields
  {
    if v.Some? then Get(v.value, k) else None
  }

  /** JavaScript truthiness of a possibly `undefined` value (NaN is not modelled). */
  predicate Truthy(v: Option<Value>) {
    match v
    case None => false
    case Some(Null) => false
    case Some(Bool(b)) => b
    case Some(Num(n)) => n != 0
    case Some(Str(s)) => s != ""
    case Some(Arr(_)) => true
    case Some(Obj(_)) => true
  }

  /** `typeof x === 'object'` for a value that is already known to be truthy:
      objects and arrays (and `null`, which is not truthy). */
  predicate IsObjectLike(v: Option<Value>) {
    v.Some? && (v.value.Null? || v.value.Arr? || v.value.Obj?)
  }

  /** `typeof x === 'string'`. */
  predicate IsString(v: Option<Value>) {
    v.Some? && v.value.Str?
  }

  /** The string members of an array, in their order: `xs.filter((l) => typeof l === 'string')`. */
  function StringItems(xs: seq<Value>): (r: seq<string>)
    ensures |r| <= |xs|
  {
    if xs == [] then []
    else (if xs[0].Str? then [xs[0].s] else []) + StringItems(xs[1..])
  }

  /** The filter keeps exactly the string members: both directions of membership. */
  lemma {:induction false} StringItemsSpec(xs: seq<Value>)
    ensures forall t :: t in StringItems(xs) <==> Str(t) in xs
  {
    if xs != [] {
      StringItemsSpec(xs[1..]);
      assert xs == [xs[0]] + xs[1..];
    }
  }

  /** The filter distributes over concatenation, so the kept strings stay in their
      original relative order, repeats included. */
  lemma {:induction false} StringItemsAppend(xs: seq<Value>, ys: seq<Value>)
    ensures StringItems(xs + ys) == StringItems(xs) + StringItems(ys)
  {
    if xs == [] {
      assert xs + ys == ys;
    } else {
      var head := if xs[0].Str? then [xs[0].s] else [];
      assert (xs + ys)[0] == xs[0];
      assert (xs + ys)[1..] == xs[1..] + ys;
      assert StringItems(xs + ys) == head + StringItems(xs[1..] + ys);
      StringItemsAppend(xs[1..], ys);
      assert StringItems(xs) == head + StringItems(xs[1..]);
    }
  }

  /** One more item adds its string, if it is one, at the end. */
  lemma StringItemsSnoc(xs: seq<Value>, x: Value)
    ensures StringItems(xs + [x]) == StringItems(xs) + (if x.Str? then [x.s] else [])
  {
    StringItemsAppend(xs, [x]);
    assert [x][1..] == [];
  }

  /** The string content of a response field, "" when the field is absent or not a string. */
  function Text(v: Option<Value>): string {
    if v.Some? && v.value.Str? then v.value.s else ""
  }

  /** `String(x)`, the conversion a template literal `${x}` applies. */
  function Display(v: Option<Value>): string {
    match v
    case None => "undefined"
    case Some(x) => DisplayValue(x)
  }

  function DisplayValue(v: Value): string
    decreases v, 1
  {
    match v
    case Null => "null"
    case Bool(b) => if b then "true" else "false"
    case Num(n) => Strings.IntToString(n)
    case Str(s) => s
    case Arr(items) => DisplayItems(items, v)
    case Obj(_) => "[object Object]"
  }

  /** `Array.prototype.join(',')` on the items of `whole`, where `null` items print as "". */
  function DisplayItems(items: seq<Value>, ghost whole: Value): string
    requires forall i | 0 <= i < |items| :: items[i] < whole
    decreases whole, 0, |items|
  {
    if items == [] then ""
    else
      var first := if items[0].Null? then "" else DisplayValue(items[0]);
      if |items| == 1 then first else first + "," + DisplayItems(items[1..], whole)
  }
}
