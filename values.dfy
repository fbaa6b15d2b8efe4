/** The Python values the policies keep in the per-call option and
    annotation maps, and Python truthiness on them. */
module Values {
  import opened Dicts

  newtype byte = x: int | 0 <= x < 256

  /** What json.loads returns (floating-point numbers are not modelled). */
  datatype Json =
    | JNull
    | JBool(b: bool)
    | JNumber(n: int)
    | JString(s: string)
    | JArray(items: seq<Json>)
    | JObject(members: seq<(string, Json)>)

  /** What xml.etree.ElementTree.fromstring returns. */
  datatype XmlElement = XmlElement(tag: string, attributes: Dict, text: string, children: seq<XmlElement>)

  /** The result of ContentDecodePolicy.deserialize_from_text. */
  datatype Decoded = Nothing | JsonData(json: Json) | XmlData(xml: XmlElement) | TextData(text: string)

  datatype Value =
    | NoneV
    | BoolV(b: bool)
    | IntV(i: int)
    | StrV(s: string)
    | DictV(d: Dict)
    | LoggerV(name: string)
    | DecodedV(data: Decoded)

  predicate JsonTruthy(j: Json) {
    match j
    case JNull => false
    case JBool(b) => b
    case JNumber(n) => n != 0
    case JString(s) => |s| > 0
    case JArray(items) => |items| > 0
    case JObject(members) => |members| > 0
  }

  predicate DecodedTruthy(d: Decoded) {
    match d
    case Nothing => false
    case JsonData(j) => JsonTruthy(j)
    // An Element is true exactly when it has children.
    case XmlData(x) => |x.children| > 0
    case TextData(s) => |s| > 0
  }

  /** bool(v) */
  predicate Truthy(v: Value) {
    match v
    case NoneV => false
    case BoolV(b) => b
    case IntV(i) => i != 0
    case StrV(s) => |s| > 0
    case DictV(d) => |d| > 0
    case LoggerV(_) => true
    case DecodedV(d) => DecodedTruthy(d)
  }
}
