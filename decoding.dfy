/**
 * The decode half of the collection dispatcher: the `keyedDecoder` / `unkeyedDecoder` tables,
 * an unkeyed decode container with a forward-only cursor, and the keyed decode container whose
 * collection operations drain a nested unkeyed container or walk `allKeys`.
 *
 * Each loop method is specified by a function over the stored nodes (`DecodeElements`,
 * `DecodePairs`, `DecodeFields`); the round trips are proved about those functions.
 */
module Decoding {
  import opened Wrappers
  import opened Values
  import opened Collections
  import opened Decimal
  import opened MemoryBackend
  import opened Encoding

  /** The decode call a table entry stands for: one per primitive type, or `decodeDecodable`. */
  datatype ElementDecoder = DecodeAs(prim: PrimKind) | DecodeDecodableAs(classId: nat)

  /**
   * The `keyedDecoder(forType)` and `unkeyedDecoder(forType)` tables (they agree entry by
   * entry): each of the twelve primitive types maps to its own decode call, every other type to
   * `decodeDecodable`.
   */
  function DecoderFor(k: Kind): (d: ElementDecoder)
    ensures d.DecodeAs? <==> k.Primitive?
    ensures d.DecodeAs? ==> d.prim == k.prim
    ensures d.DecodeDecodableAs? ==> d.classId == k.classId
  {
    match k
    case Primitive(BoolKind) => DecodeAs(BoolKind)
    case Primitive(StringKind) => DecodeAs(StringKind)
    case Primitive(IntegerKind(Byte)) => DecodeAs(IntegerKind(Byte))
    case Primitive(IntegerKind(Short)) => DecodeAs(IntegerKind(Short))
    case Primitive(IntegerKind(Int32)) => DecodeAs(IntegerKind(Int32))
    case Primitive(IntegerKind(Long)) => DecodeAs(IntegerKind(Long))
    case Primitive(FloatKind) => DecodeAs(FloatKind)
    case Primitive(DoubleKind) => DecodeAs(DoubleKind)
    case Primitive(IntegerKind(UByte)) => DecodeAs(IntegerKind(UByte))
    case Primitive(IntegerKind(UShort)) => DecodeAs(IntegerKind(UShort))
    case Primitive(IntegerKind(UInt32)) => DecodeAs(IntegerKind(UInt32))
    case Primitive(IntegerKind(ULong)) => DecodeAs(IntegerKind(ULong))
    case Class(c) => DecodeDecodableAs(c)
  }

  /** Runs a table entry against the node the backend holds. */
  function RunDecoder(d: ElementDecoder, n: Node): (r: Result<Value, DecodeError>)
    ensures r.Ok? ==> HasKind(r.value, if d.DecodeAs? then Primitive(d.prim) else Class(d.classId))
    ensures r.Ok? ==> IsLeaf(r.value) && LeafNode(r.value) == n
  {
    match d
    case DecodeAs(p) => DecodePrimitive(p, n)
    case DecodeDecodableAs(c) => DecodeDecodable(c, n)
  }

  /** The table entry for `k` reads back exactly what encoding an instance of `k` stored. */
  lemma DecoderRoundTrip(v: Value, k: Kind)
    requires HasKind(v, k)
    ensures IsLeaf(v) && RunDecoder(DecoderFor(k), LeafNode(v)) == Ok(v)
  {
  }

  /** What `decodeSequence` still produces from `items`, having collected `acc` so far. */
  function DecodeElements(k: Kind, items: seq<Node>, acc: seq<Value>): Result<seq<Value>, DecodeError>
    decreases |items|
  {
    if items == [] then Ok(acc)
    else
      match RunDecoder(DecoderFor(k), items[0])
      case Err(e) => Err(e)
      case Ok(v) => DecodeElements(k, items[1..], acc + [v])
  }

  /**
   * What `decodeAsArray` still produces from `items`, having filled `acc` so far: a key, then a
   * value, then `map[key] = value`; a key with no value after it reads past the end.
   */
  function DecodePairs(kk: Kind, vk: Kind, items: seq<Node>, acc: Entries): Result<Entries, DecodeError>
    decreases |items|
  {
    if items == [] then Ok(acc)
    else
      match RunDecoder(DecoderFor(kk), items[0])
      case Err(e) => Err(e)
      case Ok(key) =>
        if |items| == 1 then Err(ReadPastEnd)
        else
          match RunDecoder(DecoderFor(vk), items[1])
          case Err(e) => Err(e)
          case Ok(value) => DecodePairs(kk, vk, items[2..], Put(acc, key, value))
  }

  /** The representation `decode(Dictionary)` expects, chosen from the key type. */
  datatype DictionaryShape = StringKeyed | IntKeyed | Flat

  /** The key-type test of `decode(Dictionary)`; it picks the keyed form exactly when encoding does. */
  function DictionaryShapeFor(keyKind: Kind): (s: DictionaryShape)
    ensures s != Flat <==> EncodesAsObject(keyKind)
    ensures s == StringKeyed <==> keyKind == StringClass
  {
    if keyKind == StringClass then StringKeyed
    else if keyKind == IntClass then IntKeyed
    else Flat
  }

  /** The key closure for String keys: `it.stringValue`. */
  function StringKey(ck: CodingKey): (r: Value)
    ensures HasKind(r, StringClass) && r.s == ck.stringValue
  {
    StringValue(ck.stringValue)
  }

  /** The key closure for Int keys as the library writes it: `it.intValue ?: 0`. */
  function IntKeyAsWritten(ck: CodingKey): (r: Value)
    ensures HasKind(r, IntClass)
    ensures ck.intValue.None? ==> r == IntegerValue(Int32, 0)
    ensures ck.intValue.Some? ==> r == IntegerValue(Int32, ck.intValue.value)
  {
    IntegerValue(Int32, ck.intValue.GetOr(0))
  }

  /**
   * The key closure for Int keys that the model uses: `intValue`, or else the stringValue read
   * as a decimal integer, or else 0. It agrees with `IntKeyAsWritten` whenever intValue is present.
   */
  function IntKey(ck: CodingKey): (r: Value)
    ensures ck.intValue.Some? ==> r == IntKeyAsWritten(ck)
  {
    IntegerValue(Int32, if ck.intValue.Some? then ck.intValue.value else ParseInt(ck.stringValue).GetOr(0))
  }

  /** An in-memory UnkeyedDecodingContainer: the stored elements and a forward-only cursor. */
  class UnkeyedDecodingContainer {
    const items: seq<Node>
    var currentIndex: nat

    ghost predicate Valid()
      reads this
    {
      currentIndex <= |items|
    }

    constructor(items: seq<Node>)
      ensures this.items == items && currentIndex == 0 && Valid()
    {
      this.items := items;
      currentIndex := 0;
    }

    function IsAtEnd(): bool
      reads this
    {
      currentIndex == |items|
    }

    /**
     * `decode(type)` through the table entry for `k`: reads the element under the cursor and
     * moves past it when it decodes; at the end it fails.
     */
    method Decode(k: Kind) returns (r: Result<Value, DecodeError>)
      requires Valid()
      modifies this
      ensures Valid()
      ensures old(IsAtEnd()) ==> r == Err(ReadPastEnd)
      ensures !old(IsAtEnd()) ==> r == RunDecoder(DecoderFor(k), items[old(currentIndex)])
      ensures currentIndex == if r.Ok? then old(currentIndex) + 1 else old(currentIndex)
    {
      if IsAtEnd() {
        return Err(ReadPastEnd);
      }
      r := RunDecoder(DecoderFor(k), items[currentIndex]);
      if r.Ok? {
        currentIndex := currentIndex + 1;
      }
    }

    /** The default unkeyed `decodeIfPresent`: null exactly when at the end, otherwise `decode`. */
    method DecodeIfPresent(k: Kind) returns (r: Result<Option<Value>, DecodeError>)
      requires Valid()
      modifies this
      ensures Valid()
      ensures r == Ok(None) <==> old(IsAtEnd())
      ensures old(IsAtEnd()) ==> currentIndex == old(currentIndex)
      ensures !old(IsAtEnd()) ==>
                var d := RunDecoder(DecoderFor(k), items[old(currentIndex)]);
                && (r.Ok? <==> d.Ok?)
                && (r.Ok? ==> r.value == Some(d.value))
                && (r.Err? ==> d == Err(r.error))
                && currentIndex == if d.Ok? then old(currentIndex) + 1 else old(currentIndex)
    {
      if IsAtEnd() {
        return Ok(None);
      }
      var x := Decode(k);
      r := if x.Ok? then Ok(Some(x.value)) else Err(x.error);
    }
  }

  /**
   * An in-memory KeyedDecodingContainer. Decoding never changes it, so it is a value: the
   * stored fields, in order.
   */
  datatype KeyedDecodingContainer = KeyedDecodingContainer(fields: seq<(CodingKey, Node)>) {

    /** `allKeys`: the keys of the stored fields, in order. */
    function AllKeys(): seq<CodingKey>
    {
      seq(|fields|, i requires 0 <= i < |fields| => fields[i].0)
    }

    predicate Contains(key: CodingKey)
    {
      Find(fields, key).Some?
    }

    /** `decode(type, forKey)` through the table entry for `k`. */
    function Decode(k: Kind, key: CodingKey): (r: Result<Value, DecodeError>)
      ensures !Contains(key) ==> r == Err(KeyNotFound(key.stringValue))
      ensures r.Ok? ==> HasKind(r.value, k) && Contains(key) && LeafNode(r.value) == Find(fields, key).value
    {
      match Find(fields, key)
      case None => Err(KeyNotFound(key.stringValue))
      case Some(n) => RunDecoder(DecoderFor(k), n)
    }

    /** The default keyed `decodeIfPresent`: null exactly when the key is absent, otherwise `decode`. */
    function DecodeIfPresent(k: Kind, key: CodingKey): (r: Result<Option<Value>, DecodeError>)
      ensures r == Ok(None) <==> !Contains(key)
      ensures Contains(key) ==> (r.Ok? <==> Decode(k, key).Ok?)
      ensures Contains(key) && r.Ok? ==> r.value == Some(Decode(k, key).value)
      ensures Contains(key) && r.Err? ==> Decode(k, key) == Err(r.error)
    {
      if Contains(key) then
        match Decode(k, key)
        case Ok(v) => Ok(Some(v))
        case Err(e) => Err(e)
      else
        Ok(None)
    }

    /** `nestedUnkeyedContainer(forKey)`: the elements stored under the key. */
    function NestedItems(key: CodingKey): Result<seq<Node>, DecodeError>
    {
      match Find(fields, key)
      case None => Err(KeyNotFound(key.stringValue))
      case Some(ArrayNode(items)) => Ok(items)
      case Some(_) => Err(WrongShape)
    }

    /** `nestedContainer(keyedBy:, forKey)`: the keyed container stored under the key. */
    function NestedContainer(key: CodingKey): Result<KeyedDecodingContainer, DecodeError>
    {
      match Find(fields, key)
      case None => Err(KeyNotFound(key.stringValue))
      case Some(ObjectNode(fs)) => Ok(KeyedDecodingContainer(fs))
      case Some(_) => Err(WrongShape)
    }

    /** What `decodeAsDictionary` still produces from `keys`, having filled `acc` so far. */
    function DecodeFields(vk: Kind, keyOf: CodingKey -> Value, keys: seq<CodingKey>, acc: Entries): Result<Entries, DecodeError>
      decreases |keys|
    {
      if keys == [] then Ok(acc)
      else
        match Decode(vk, keys[0])
        case Err(e) => Err(e)
        case Ok(v) => DecodeFields(vk, keyOf, keys[1..], Put(acc, keyOf(keys[0]), v))
    }

    /** The result `decodeSequence(type, forKey)` specifies. */
    function SequenceAt(k: Kind, key: CodingKey): Result<seq<Value>, DecodeError>
    {
      match NestedItems(key)
      case Err(e) => Err(e)
      case Ok(items) => DecodeElements(k, items, [])
    }

    /** The result `decodeAsArray(type, forKey)` specifies. */
    function PairsAt(kk: Kind, vk: Kind, key: CodingKey): Result<Entries, DecodeError>
    {
      match NestedItems(key)
      case Err(e) => Err(e)
      case Ok(items) => DecodePairs(kk, vk, items, [])
    }

    /** The result `decodeAsDictionary(type, forKey, key)` specifies. */
    function FieldsAt(vk: Kind, keyOf: CodingKey -> Value, key: CodingKey): Result<Entries, DecodeError>
    {
      match NestedContainer(key)
      case Err(e) => Err(e)
      case Ok(c) => c.DecodeFields(vk, keyOf, c.AllKeys(), [])
    }

    /** The result `decode(Dictionary, forKey)` specifies. */
    function DictionaryAt(kk: Kind, vk: Kind, key: CodingKey): Result<Entries, DecodeError>
    {
      match DictionaryShapeFor(kk)
      case StringKeyed => FieldsAt(vk, StringKey, key)
      case IntKeyed => FieldsAt(vk, IntKey, key)
      case Flat => PairsAt(kk, vk, key)
    }

    /**
     * `decodeSequence` (and so `decode(Array)`): drains the nested unkeyed container until
     * `isAtEnd`, collecting the elements in consumption order.
     */
    method DecodeSequence(k: Kind, key: CodingKey) returns (r: Result<seq<Value>, DecodeError>)
      ensures r == SequenceAt(k, key)
    {
      var nested := NestedItems(key);
      if nested.Err? {
        return Err(nested.error);
      }
      var container := new UnkeyedDecodingContainer(nested.value);
      var list: seq<Value> := [];
      while !container.IsAtEnd()
        invariant container.Valid() && container.items == nested.value
        invariant DecodeElements(k, container.items[container.currentIndex..], list) == SequenceAt(k, key)
        decreases |container.items| - container.currentIndex
      {
        var element := container.Decode(k);
        if element.Err? {
          return Err(element.error);
        }
        list := list + [element.value];
      }
      return Ok(list);
    }

    /** `decode(Set)`: the decoded list made into a Set, so duplicates collapse. */
    method DecodeSet(k: Kind, key: CodingKey) returns (r: Result<seq<Value>, DecodeError>)
      ensures SequenceAt(k, key).Err? ==> r == SequenceAt(k, key)
      ensures SequenceAt(k, key).Ok? ==> r == Ok(Dedup(SequenceAt(k, key).value))
    {
      var list := DecodeSequence(k, key);
      r := if list.Ok? then Ok(Dedup(list.value)) else list;
    }

    /**
     * `decodeAsArray`: until `isAtEnd`, reads a key and then a value and puts them into the
     * map, a later duplicate key overwriting the earlier value.
     */
    method DecodeAsArray(kk: Kind, vk: Kind, key: CodingKey) returns (r: Result<Entries, DecodeError>)
      ensures r == PairsAt(kk, vk, key)
    {
      var nested := NestedItems(key);
      if nested.Err? {
        return Err(nested.error);
      }
      var container := new UnkeyedDecodingContainer(nested.value);
      var entries: Entries := [];
      while !container.IsAtEnd()
        invariant container.Valid() && container.items == nested.value
        invariant DecodePairs(kk, vk, container.items[container.currentIndex..], entries) == PairsAt(kk, vk, key)
        decreases |container.items| - container.currentIndex
      {
        ghost var rest := container.items[container.currentIndex..];
        var dkey := container.Decode(kk);
        if dkey.Err? {
          return Err(dkey.error);
        }
        var dvalue := container.Decode(vk);
        if dvalue.Err? {
          return Err(dvalue.error);
        }
        assert container.items[container.currentIndex..] == rest[2..];
        entries := Put(entries, dkey.value, dvalue.value);
      }
      return Ok(entries);
    }

    /**
     * `decodeAsDictionary`: one `map[key(codingKey)] = decode(codingKey)` per element of the
     * nested keyed container's `allKeys`.
     */
    method DecodeAsDictionary(vk: Kind, key: CodingKey, keyOf: CodingKey -> Value) returns (r: Result<Entries, DecodeError>)
      ensures r == FieldsAt(vk, keyOf, key)
    {
      var nested := NestedContainer(key);
      if nested.Err? {
        return Err(nested.error);
      }
      var container := nested.value;
      var keys := container.AllKeys();
      var entries: Entries := [];
      for i := 0 to |keys|
        invariant container.DecodeFields(vk, keyOf, keys[i..], entries) == FieldsAt(vk, keyOf, key)
      {
        var value := container.Decode(vk, keys[i]);
        if value.Err? {
          return Err(value.error);
        }
        assert keys[i..][1..] == keys[i + 1..];
        entries := Put(entries, keyOf(keys[i]), value.value);
      }
      return Ok(entries);
    }

    /** `decode(Dictionary)`: the same key-type test as encoding picks the representation. */
    method DecodeDictionary(kk: Kind, vk: Kind, key: CodingKey) returns (r: Result<Entries, DecodeError>)
      ensures r == DictionaryAt(kk, vk, key)
    {
      match DictionaryShapeFor(kk)
      case StringKeyed =>
        r := DecodeAsDictionary(vk, key, StringKey);
      case IntKeyed =>
        r := DecodeAsDictionary(vk, key, IntKey);
      case Flat =>
        r := DecodeAsArray(kk, vk, key);
    }
  }
}
