/** Parsed JSON request bodies, as the JSON body parser hands them to the
    route handlers, and the two JavaScript operations the handlers apply to
    them: truthiness (`!coin`) and `Array.isArray`. Numbers are integers, so
    `NaN` never arises. */
module Json {
  import opened Maybe

  datatype Value =
    | Null
    | Bool(b: bool)
    | Num(n: int)
    | Str(s: string)
    | Arr(items: seq<Value>)
    | Obj(fields: map<string, Value>)

  /** JavaScript's ToBoolean: `null`, `false`, `0` and `""` are falsy, every
      other value (including `[]` and `{}`) is truthy. */
  predicate Truthy(v: Value) {
    match v
    case Null => false
    case Bool(b) => b
    case Num(n) => n != 0
    case Str(s) => s != ""
    case Arr(_) => true
    case Obj(_) => true
  }

  /** Truthiness of a destructured field, where an absent field is `undefined`. */
  predicate FieldTruthy(f: Option<Value>) {
    f.Some? && Truthy(f.value)
  }

  /** `const { key } = body`: the field's value, or `None` (undefined) when
      the body is not an object or has no such key. */
  function Field(body: Value, key: string): Option<Value> {
    if body.Obj? && key in body.fields then Some(body.fields[key]) else None
  }

  /** `Array.isArray` applied to a destructured field. */
  predicate IsArray(f: Option<Value>) {
    f.Some? && f.value.Arr?
  }

  /** A coin as stored: only a JSON string is taken as a coin. */
  function AsCoin(v: Value): Option<string> {
    match v
    case Str(s) => Some(s)
    case _ => None
  }

  /** The array items as a list of coins, in order, or `None` as soon as one
      item is not a string. */
  function AsCoinList(items: seq<Value>): (r: Option<seq<string>>)
    ensures r.Some? <==> forall i :: 0 <= i < |items| ==> items[i].Str?
    ensures r.Some? ==> |r.value| == |items|
    ensures r.Some? ==> forall i :: 0 <= i < |items| ==> items[i] == Str(r.value[i])
  {
    if items == [] then Some([])
    else
      match items[0]
      case Str(s) =>
        (match AsCoinList(items[1..])
         case Some(rest) => Some([s] + rest)
         case None => None)
      case _ => None
  }

  /** The JSON array a list of coins is sent as; reading it back gives the
      same list. */
  function FromCoinList(coins: seq<string>): (r: Value)
    ensures r.Arr? && |r.items| == |coins|
    ensures AsCoinList(r.items) == Some(coins)
  {
    var items := seq(|coins|, i requires 0 <= i < |coins| => Str(coins[i]));
    var back := AsCoinList(items);
    assert back.Some? by {
      assert forall i :: 0 <= i < |items| ==> items[i].Str?;
    }
    assert back.value == coins by {
      assert forall i :: 0 <= i < |coins| ==> Str(back.value[i]) == Str(coins[i]);
    }
    Arr(items)
  }
}
