/** The JSON values a request body can carry, and the few JavaScript
    operations the handlers apply to them. */
module Json {
  import opened Common

  /** A parsed request body, plus `Undefined` for a property that is not
      there. Numbers are integers here. */
  datatype Value =
    | Undefined
    | Null
    | Bool(b: bool)
    | Num(n: int)
    | Str(s: string)
    | Arr(items: seq<Value>)
    | Obj(fields: map<string, Value>)

  /** JavaScript falsiness: `!v` holds for undefined, null, false, 0 and "". */
  predicate Falsy(v: Value) {
    v.Undefined? || v.Null? || v == Bool(false) || v == Num(0) || v == Str("")
  }

  /** Exactly five values are falsy; every list and every object, even an
      empty one, is truthy. */
  lemma FalsyValues(v: Value)
    ensures v.Arr? || v.Obj? ==> !Falsy(v)
    ensures v.Num? ==> (Falsy(v) <==> v.n == 0)
    ensures v.Str? ==> (Falsy(v) <==> v.s == "")
    ensures v.Bool? ==> (Falsy(v) <==> !v.b)
  {
  }

  /** `a || b`: the first operand when it is truthy, otherwise the second. */
  function Or(a: Value, b: Value): (r: Value)
    ensures Falsy(r) <==> Falsy(a) && Falsy(b)
    ensures r == a || r == b
    ensures !Falsy(a) ==> r == a
    ensures Falsy(a) ==> r == b
  {
    if Falsy(a) then b else a
  }

  /** Property access `v.key`: on undefined or null it throws a TypeError
      (`None`); a missing key, or any key of a primitive, reads as undefined. */
  function Member(v: Value, key: string): (r: Option<Value>)
    ensures r.None? <==> v.Undefined? || v.Null?
    ensures v.Obj? && key in v.fields ==> r == Some(v.fields[key])
    ensures r.Some? && !(v.Obj? && key in v.fields) ==> r.value.Undefined?
  {
    match v
    case Undefined => None
    case Null => None
    case Obj(fields) => if key in fields then Some(fields[key]) else Some(Undefined)
    case _ => Some(Undefined)
  }

  /** A body whose properties can be read: anything `JSON.parse` yields
      except `null` (it never yields undefined). */
  predicate Readable(body: Option<Value>) {
    body.Some? && !body.value.Undefined? && !body.value.Null?
  }

  /** `data.key` on a readable body. */
  function Field(body: Option<Value>, key: string): Value
    requires Readable(body)
  {
    Member(body.value, key).value
  }
}

/** An incoming HTTP request as the handlers see it: the Authorization
    header, if sent, and the body, `None` when `request.json()` throws. */
module Http {
  import opened Common
  import opened Json

  datatype Request = Request(authorization: Option<string>, body: Option<Value>)

  /** A list of strings as JSON strings. */
  function Strs(xs: seq<string>): (r: seq<Value>)
    ensures |r| == |xs| && forall i :: 0 <= i < |xs| ==> r[i] == Str(xs[i])
  {
    seq(|xs|, i requires 0 <= i < |xs| => Str(xs[i]))
  }
}
