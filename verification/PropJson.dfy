/** The JSON dialect of the wrapper layers: property values, described properties and nodes. */
module PropJson {
  import opened Collections

  type I64 = i: int | -0x8000_0000_0000_0000 <= i < 0x8000_0000_0000_0000
  type U64 = n: int | 0 <= n < 0x1_0000_0000_0000_0000
  type U8 = n: int | 0 <= n < 256

  /** A float by its bit pattern; infinities and NaNs are the ones JSON cannot hold. */
  datatype Float = Finite(bits: int) | NonFinite(bits: int)

  /** The float conversions the dialect relies on. */
  datatype Casts = Casts(widen: Float -> Float, narrow: Float -> Float, ofInt: int -> Float) {
    /** Every f32 is an f64, so widening loses nothing and narrowing undoes it. */
    ghost predicate Lossless() {
      forall f: Float :: narrow(widen(f)) == f && (widen(f).Finite? <==> f.Finite?)
    }
  }

  datatype PropValue =
    | Null
    | Bool(b: bool)
    | Int(i: I64)
    | Float64(f: Float)
    | Str(s: string)
    | Bytes(bytes: seq<U8>)
    | Vector(floats: seq<Float>)
    | List(items: seq<PropValue>)
    | Map(entries: map<string, PropDesc>)

  datatype PropDesc = PropDesc(description: Option<string>, value: PropValue)

  type Properties = map<string, PropDesc>

  datatype Number = PosInt(n: U64) | NegInt(i: I64) | Flt(f: Float)

  datatype Json =
    | JNull
    | JBool(b: bool)
    | JNum(num: Number)
    | JStr(s: string)
    | JArr(items: seq<Json>)
    | JObj(fields: map<string, Json>)

  // ---- value -> JSON ---------------------------------------------------------

  function NumberOf(i: I64): Number {
    if i >= 0 then PosInt(i) else NegInt(i)
  }

  /** A float JSON cannot hold is written as null. */
  function FloatToJson(f: Float): Json {
    if f.Finite? then JNum(Flt(f)) else JNull
  }

  predicate Escapes(key: string) {
    key != [] && key[0] == '$'
  }

  function ValueToJson(c: Casts, v: PropValue): Json
    decreases v, 0
  {
    match v
    case Null => JNull
    case Bool(b) => JBool(b)
    case Int(i) => JNum(NumberOf(i))
    case Float64(f) => FloatToJson(f)
    case Str(s) => JStr(s)
    case Bytes(bytes) => JObj(map["$bytes" := JArr(seq(|bytes|, i requires 0 <= i < |bytes| => JNum(PosInt(bytes[i]))))])
    case Vector(fs) => JObj(map["$vector" := JArr(seq(|fs|, i requires 0 <= i < |fs| => FloatToJson(c.widen(fs[i]))))])
    case List(items) => JArr(seq(|items|, i requires 0 <= i < |items| => ValueToJson(c, items[i])))
    case Map(m) =>
      var obj := JObj(map k | k in m :: DescToJson(c, m[k]));
      if exists k :: k in m && Escapes(k) then JObj(map["$map" := obj]) else obj
  }

  function DescToJson(c: Casts, p: PropDesc): Json
    decreases p, 1
  {
    match p.description
    case Some(desc) => JObj(map["$desc" := JStr(desc), "$value" := ValueToJson(c, p.value)])
    case None => ValueToJson(c, p.value)
  }

  function PropertiesToJson(c: Casts, m: Properties): Json {
    JObj(map k | k in m :: DescToJson(c, m[k]))
  }

  // ---- JSON -> value ---------------------------------------------------------

  function AsF64(c: Casts, v: Json): Option<Float> {
    match v
    case JNum(PosInt(n)) => Some(c.ofInt(n))
    case JNum(NegInt(i)) => Some(c.ofInt(i))
    case JNum(Flt(f)) => Some(f)
    case _ => None
  }

  function AsByte(v: Json): Option<U8> {
    match v
    case JNum(PosInt(n)) => if n <= 255 then Some(n) else None
    case _ => None
  }

  function JsonToFloats(c: Casts, v: Json): Option<seq<Float>> {
    if v.JArr? && forall i :: 0 <= i < |v.items| ==> AsF64(c, v.items[i]).Some?
    then Some(seq(|v.items|, i requires 0 <= i < |v.items| => c.narrow(AsF64(c, v.items[i]).value)))
    else None
  }

  function JsonToBytes(v: Json): Option<seq<U8>> {
    if v.JArr? && forall i :: 0 <= i < |v.items| ==> AsByte(v.items[i]).Some?
    then Some(seq(|v.items|, i requires 0 <= i < |v.items| => AsByte(v.items[i]).value))
    else None
  }

  function NumberToValue(n: Number): Option<PropValue> {
    match n
    case PosInt(n) => if n < 0x8000_0000_0000_0000 then Some(Int(n)) else None
    case NegInt(i) => Some(Int(i))
    case Flt(f) => Some(Float64(f))
  }

  function JsonToValue(c: Casts, v: Json): Option<PropValue>
    decreases v, 1
  {
    match v
    case JNull => Some(Null)
    case JBool(b) => Some(Bool(b))
    case JNum(n) => NumberToValue(n)
    case JStr(s) => Some(Str(s))
    case JArr(a) =>
      if forall i :: 0 <= i < |a| ==> JsonToValue(c, a[i]).Some?
      then Some(List(seq(|a|, i requires 0 <= i < |a| => JsonToValue(c, a[i]).value)))
      else None
    case JObj(o) =>
      if "$vector" in o then
        var fs := JsonToFloats(c, o["$vector"]);
        if fs.Some? then Some(Vector(fs.value)) else None
      else if "$bytes" in o then
        var bytes := JsonToBytes(o["$bytes"]);
        if bytes.Some? then Some(Bytes(bytes.value)) else None
      else if "$map" in o then
        if o["$map"].JObj? then ObjectToMap(c, o["$map"]) else None
      else ObjectToMap(c, v)
  }

  function ObjectToMap(c: Casts, v: Json): Option<PropValue>
    requires v.JObj?
    decreases v, 0
  {
    if forall k :: k in v.fields ==> JsonToDesc(c, v.fields[k]).Some?
    then Some(Map(map k | k in v.fields :: JsonToDesc(c, v.fields[k]).value))
    else None
  }

  function AsStr(v: Json): Option<string> {
    if v.JStr? then Some(v.s) else None
  }

  function JsonToDesc(c: Casts, v: Json): Option<PropDesc>
    decreases v, 2
  {
    if v.JObj? && "$value" in v.fields then
      var description := if "$desc" in v.fields then AsStr(v.fields["$desc"]) else None;
      var value := JsonToValue(c, v.fields["$value"]);
      if value.Some? then Some(PropDesc(description, value.value)) else None
    else
      var value := JsonToValue(c, v);
      if value.Some? then Some(PropDesc(None, value.value)) else None
  }
}
