// JavaScript values as they arrive in a parsed JSON request body, with the
// coercions the core relies on: truthiness (`if (!x)`, `x || y`), template
// strings (`${x}`) and Number(x).

module Js {
  import opened Optional
  import opened Text

  /** A JavaScript value. Numbers are integers: NaN, -0 and fractions are not represented. */
  datatype JsValue =
    | Undefined
    | Null
    | Bool(b: bool)
    | Num(n: int)
    | Str(s: string)
    | Arr(items: seq<JsValue>)
    | Obj(fields: map<string, JsValue>)

  /** The values `if (x)` accepts: everything but undefined, null, false, 0 and "". */
  predicate Truthy(v: JsValue)
  {
    match v
    case Undefined => false
    case Null => false
    case Bool(b) => b
    case Num(n) => n != 0
    case Str(s) => s != ""
    case Arr(_) => true
    case Obj(_) => true
  }

  /** JavaScript's `a || b`. */
  function Or(a: JsValue, b: JsValue): (r: JsValue)
    ensures Truthy(a) ==> r == a
    ensures !Truthy(a) ==> r == b
  {
    if Truthy(a) then a else b
  }

  lemma OrTruthy(a: JsValue, b: JsValue)
    requires Truthy(b)
    ensures Truthy(Or(a, b))
  {
  }

  /** String(x), the text a template literal `${x}` inserts. */
  function ToText(v: JsValue): string
  {
    match v
    case Undefined => "undefined"
    case Null => "null"
    case Bool(b) => if b then "true" else "false"
    case Num(n) => IntToString(n)
    case Str(s) => s
    case Arr(items) =>
      // Array.prototype.join writes undefined and null elements as empty text
      JoinTexts(seq(|items|, i requires 0 <= i < |items| =>
        if items[i].Undefined? || items[i].Null? then "" else ToText(items[i])))
    case Obj(_) => "[object Object]"
  }

  function JoinTexts(parts: seq<string>): string
  {
    if parts == [] then "" else if |parts| == 1 then parts[0] else parts[0] + "," + JoinTexts(parts[1..])
  }

  /** Number(x) for the values the core coerces: None stands for NaN. An array
      or object is read as its String(), so Number([60]) is 60. */
  function ToNumber(v: JsValue): (r: Option<int>)
    ensures v.Num? ==> r == Some(v.n)
    ensures v.Undefined? ==> r == None
    ensures v.Arr? || v.Obj? ==> r == NumberOfText(ToText(v))
    ensures v.Str? ==> r == NumberOfText(v.s)
  {
    match v
    case Undefined => None
    case Null => Some(0)
    case Bool(b) => Some(if b then 1 else 0)
    case Num(n) => Some(n)
    case Str(s) => NumberOfText(s)
    case _ => NumberOfText(ToText(v))
  }

  /** Number() of a text, read after trimming as an optional run of decimal digits. */
  function NumberOfText(s: string): (r: Option<int>)
    ensures r.Some? ==> r.value >= 0
  {
    var t := Trim(s);
    if t == "" then Some(0)
    else if IsDecimal(t) then Some(DecimalValue(t))
    else None
  }

  /** An array of one text or number has that element's text. */
  lemma SingletonText(x: JsValue)
    requires x.Str? || x.Num?
    ensures ToText(Arr([x])) == ToText(x)
  {
  }

  /** A one-element array of a number reads back as that number. */
  lemma ToNumberOfSingleton(n: nat)
    ensures ToNumber(Arr([Num(n)])) == Some(n)
  {
    SingletonText(Num(n));
    ToNumberOfText(n);
  }

  /** A number written into a template and read back with Number() is unchanged. */
  lemma ToNumberOfText(n: nat)
    ensures ToNumber(Str(ToText(Num(n)))) == Some(n)
  {
    var s := NatToString(n);
    DecimalOfNatToString(n);
    assert !IsSpace(s[0]) && !IsSpace(s[|s| - 1]);
    TrimOfUnpadded(s);
  }
}
