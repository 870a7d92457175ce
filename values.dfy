/**
 * The data the collection dispatcher works on: the closed set of kinds a type token can name,
 * the runtime values it dispatches on once generic type arguments are erased, the coding keys,
 * and the tree of nodes an in-memory backend stores.
 */
module Values {
  import opened Wrappers

  /** The fixed-width integer classes of Kotlin (Swift Int8 = Byte, Int16 = Short, Int and Int32 = Int,
      Int64 = Long, and their unsigned counterparts). */
  datatype IntWidth = Byte | Short | Int32 | Long | UByte | UShort | UInt32 | ULong

  /** The twelve primitive kinds of the dispatch tables. */
  datatype PrimKind = BoolKind | StringKind | IntegerKind(width: IntWidth) | FloatKind | DoubleKind

  /** A type token (a `KClass`): a primitive kind, or a user class conforming to Encodable/Decodable. */
  datatype Kind = Primitive(prim: PrimKind) | Class(classId: nat)

  /** `Int::class` and `String::class`, the two key types that get the keyed dictionary form. */
  const IntClass := Primitive(IntegerKind(Int32))
  const StringClass := Primitive(StringKind)

  /**
   * A runtime value as the dispatcher sees it. Floating-point values are opaque tags. An
   * Encodable instance is identified by its class and an opaque payload. `Unsupported` is any
   * value that falls outside the dispatch table (for example a tuple or a bare `Any`).
   */
  datatype Value =
    | BoolValue(b: bool)
    | StringValue(s: string)
    | IntegerValue(width: IntWidth, n: int)
    | FloatValue(floatBits: nat)
    | DoubleValue(doubleBits: nat)
    | EncodableValue(classId: nat, payload: nat)
    | SequenceValue(elements: seq<Value>)
    | Unsupported(tag: nat)

  /** A value written by a single primitive or Encodable encode call. */
  predicate IsLeaf(v: Value)
  {
    !v.SequenceValue? && !v.Unsupported?
  }

  /** The value is an instance of the class the type token names. */
  predicate HasKind(v: Value, k: Kind)
  {
    match v
    case BoolValue(_) => k == Primitive(BoolKind)
    case StringValue(_) => k == Primitive(StringKind)
    case IntegerValue(w, _) => k == Primitive(IntegerKind(w))
    case FloatValue(_) => k == Primitive(FloatKind)
    case DoubleValue(_) => k == Primitive(DoubleKind)
    case EncodableValue(c, _) => k == Class(c)
    case _ => false
  }

  /** Every element of the sequence is an instance of `k`. */
  predicate AllOfKind(xs: seq<Value>, k: Kind)
  {
    forall i :: 0 <= i < |xs| ==> HasKind(xs[i], k)
  }

  /** No part of the value reaches the `fatalError` branch of the dispatch table. */
  predicate Supported(v: Value)
  {
    match v
    case Unsupported(_) => false
    case SequenceValue(xs) => forall i :: 0 <= i < |xs| ==> Supported(xs[i])
    case _ => true
  }

  predicate AllSupported(xs: seq<Value>)
  {
    forall i :: 0 <= i < |xs| ==> Supported(xs[i])
  }

  /** A coding key: `{ stringValue, intValue }`. */
  datatype CodingKey = CodingKey(stringValue: string, intValue: Option<int>)

  /** `DictionaryCodingKey(rawValue)`: built from a string alone, so its intValue is absent. */
  function DictionaryCodingKey(rawValue: string): CodingKey
  {
    CodingKey(rawValue, None)
  }

  /**
   * What an in-memory backend stores: one node per encode call, an array node per unkeyed
   * container and an object node (ordered fields) per keyed container.
   */
  datatype Node =
    | BoolNode(b: bool)
    | StringNode(s: string)
    | IntegerNode(width: IntWidth, n: int)
    | FloatNode(floatBits: nat)
    | DoubleNode(doubleBits: nat)
    | EncodedNode(classId: nat, payload: nat)
    | NullNode
    | ArrayNode(items: seq<Node>)
    | ObjectNode(fields: seq<(CodingKey, Node)>)
}
