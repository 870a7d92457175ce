/**
 * A faithful in-memory backend for the container interfaces: what each primitive encode call
 * stores, what each primitive decode call reads back, and how a keyed container finds a field.
 * The concrete backends of the library (JSON and others) are not part of this model; this one
 * stands in for them so that round trips can be stated.
 */
module MemoryBackend {
  import opened Wrappers
  import opened Values

  /** Failures of this backend. They stand for "the backend threw"; they are not the library's
      own error classification. */
  datatype DecodeError = ReadPastEnd | KeyNotFound(key: string) | WrongShape

  /** The node stored by `encode(value)` for a primitive or an Encodable value. */
  function LeafNode(v: Value): Node
    requires IsLeaf(v)
  {
    match v
    case BoolValue(b) => BoolNode(b)
    case StringValue(s) => StringNode(s)
    case IntegerValue(w, n) => IntegerNode(w, n)
    case FloatValue(x) => FloatNode(x)
    case DoubleValue(x) => DoubleNode(x)
    case EncodableValue(c, p) => EncodedNode(c, p)
  }

  /** `decode(type)` for one of the twelve primitive types: succeeds exactly on a node of that type. */
  function DecodePrimitive(p: PrimKind, n: Node): (r: Result<Value, DecodeError>)
    ensures r.Ok? ==> HasKind(r.value, Primitive(p)) && LeafNode(r.value) == n
    ensures n.NullNode? || n.ArrayNode? || n.ObjectNode? ==> r.Err?
  {
    match (p, n)
    case (BoolKind, BoolNode(b)) => Ok(BoolValue(b))
    case (StringKind, StringNode(s)) => Ok(StringValue(s))
    case (IntegerKind(w), IntegerNode(w', i)) => if w == w' then Ok(IntegerValue(w, i)) else Err(WrongShape)
    case (FloatKind, FloatNode(x)) => Ok(FloatValue(x))
    case (DoubleKind, DoubleNode(x)) => Ok(DoubleValue(x))
    case _ => Err(WrongShape)
  }

  /** `decodeDecodable(type)`: reads back an instance of the given class. */
  function DecodeDecodable(classId: nat, n: Node): (r: Result<Value, DecodeError>)
    ensures r.Ok? ==> HasKind(r.value, Class(classId)) && LeafNode(r.value) == n
    ensures n.NullNode? || n.ArrayNode? || n.ObjectNode? ==> r.Err?
  {
    match n
    case EncodedNode(c, x) => if c == classId then Ok(EncodableValue(c, x)) else Err(WrongShape)
    case _ => Err(WrongShape)
  }

  /** The field of a keyed container whose key has the given stringValue, if any. */
  predicate KeyMatches(field: (CodingKey, Node), key: CodingKey)
  {
    field.0.stringValue == key.stringValue
  }

  /** The node of the first field matching `key`, as the backend's keyed lookup returns it. */
  function Find(fields: seq<(CodingKey, Node)>, key: CodingKey): (r: Option<Node>)
    ensures r.None? <==> forall i :: 0 <= i < |fields| ==> !KeyMatches(fields[i], key)
    ensures forall i :: 0 <= i < |fields| && KeyMatches(fields[i], key)
                        && (forall j :: 0 <= j < i ==> !KeyMatches(fields[j], key))
                        ==> r == Some(fields[i].1)
  {
    if fields == [] then None
    else if KeyMatches(fields[0], key) then Some(fields[0].1)
    else
      var r := Find(fields[1..], key);
      assert forall i :: 1 <= i < |fields| ==> fields[i] == fields[1..][i - 1];
      r
  }
}
