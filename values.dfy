/**
 * The two value shapes the stream processor handles: the typed attribute
 * values a DynamoDB stream record carries (every value wrapped in its type
 * tag) and the plain value trees they decode to.  `Deserialize` stands in
 * for boto3's TypeDeserializer (historical/common/dynamodb.py:4-6): one
 * branch per DynamoDB type tag, numbers decoded to exact decimals.
 */
module Values {

  type Bytes = seq<bv8>

  /** A DynamoDB attribute value as written on the wire, keyed by its type tag. */
  datatype Attr =
    | S(s: string)
    | N(n: real)
    | B(b: Bytes)
    | BOOL(flag: bool)
    | NULL
    | M(m: map<string, Attr>)
    | L(l: seq<Attr>)
    | SS(ss: set<string>)
    | NS(ns: set<real>)
    | BS(bs: set<Bytes>)

  /**
   * A decoded value.  `Decimal` is what the deserializer yields for a number;
   * `Int` and `Float` are what the decimal narrowing turns it into.  A `Float`
   * carries the decimal it was converted from: binary rounding is not modelled.
   */
  datatype Value =
    | Null
    | Bool(b: bool)
    | Str(s: string)
    | Binary(bytes: Bytes)
    | Decimal(d: real)
    | Int(i: int)
    | Float(f: real)
    | List(items: seq<Value>)
    | Dict(fields: map<string, Value>)
    | StrSet(strs: set<string>)
    | DecimalSet(decimals: set<real>)
    | BinarySet(blobs: set<Bytes>)

  /** A leaf is any value that is neither a list nor a dict. */
  predicate IsLeaf(v: Value) {
    !v.List? && !v.Dict?
  }

  /** Every number in `v` is still an exact decimal: nothing has been narrowed. */
  predicate AllNumbersDecimal(v: Value)
    decreases v
  {
    match v
    case Int(_) => false
    case Float(_) => false
    case List(xs) => forall i :: 0 <= i < |xs| ==> AllNumbersDecimal(xs[i])
    case Dict(m) => forall k :: k in m ==> AllNumbersDecimal(m[k])
    case _ => true
  }

  /** Decodes a typed attribute value, keeping the shape of lists and maps. */
  function Deserialize(a: Attr): (r: Value)
    ensures AllNumbersDecimal(r)
    ensures a.L? <==> r.List?
    ensures a.L? ==> |r.items| == |a.l|
    ensures a.M? <==> r.Dict?
    ensures a.M? ==> r.fields.Keys == a.m.Keys
    ensures a.NULL? <==> r.Null?
    ensures a.N? ==> r == Decimal(a.n)
    ensures a.S? ==> r == Str(a.s)
    decreases a
  {
    match a
    case S(s) => Str(s)
    case N(n) => Decimal(n)
    case B(b) => Binary(b)
    case BOOL(flag) => Bool(flag)
    case NULL => Null
    case M(m) => Dict(map k | k in m :: Deserialize(m[k]))
    case L(l) => List(seq(|l|, i requires 0 <= i < |l| => Deserialize(l[i])))
    case SS(ss) => StrSet(ss)
    case NS(ns) => DecimalSet(ns)
    case BS(bs) => BinarySet(bs)
  }
}
