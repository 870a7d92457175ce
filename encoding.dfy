/**
 * The encode half of the collection dispatcher: the closed dispatch table of `encodeAny` and
 * `encode(contentsOf:)`, the two dictionary representations, and in-memory keyed and unkeyed
 * encode containers whose default operations are the ones the library supplies.
 *
 * A nested container is modelled as a fresh container that is filled and then attached to its
 * parent as one node; the parent is not written in between, so the stored tree is the same as
 * when the backend registers the child at creation.
 */
module Encoding {
  import opened Wrappers
  import opened Values
  import opened Collections
  import opened Decimal
  import opened MemoryBackend

  /**
   * The node appended for one supported value by the dispatch table: a primitive or Encodable
   * value goes through its own encode call; a Sequence becomes one nested unkeyed container
   * holding its elements.
   */
  function ElementNode(v: Value): Node
    requires Supported(v)
    decreases v, 1
  {
    if v.SequenceValue? then ArrayNode(ElementNodes(v.elements)) else LeafNode(v)
  }

  /** The nodes `encode(contentsOf:)` appends: one per element, in iteration order. */
  function ElementNodes(xs: seq<Value>): seq<Node>
    requires AllSupported(xs)
    decreases xs, 0
  {
    seq(|xs|, i requires 0 <= i < |xs| => ElementNode(xs[i]))
  }

  /** The shape test of `encode(Dictionary)`: a keyed container for Int and String keys only. */
  predicate EncodesAsObject(keyKind: Kind)
    ensures EncodesAsObject(keyKind) ==> forall v :: HasKind(v, keyKind) ==> StringOrIntegerKey(v)
    ensures keyKind.Class? ==> !EncodesAsObject(keyKind)
  {
    keyKind == IntClass || keyKind == StringClass
  }

  predicate StringOrIntegerKey(k: Value)
  {
    k.StringValue? || k.IntegerValue?
  }

  /** `dkey.toString()` for a String or integer key. */
  function KeyString(k: Value): string
    requires StringOrIntegerKey(k)
  {
    if k.StringValue? then k.s else IntToString(k.n)
  }

  /** Every entry can go through the dispatch table, key and value. */
  predicate SupportedEntries(d: Entries)
  {
    forall i :: 0 <= i < |d| ==> Supported(d[i].0) && Supported(d[i].1)
  }

  /** The precondition of `encodeAsDictionary`: String or integer keys, supported values. */
  predicate ObjectEncodable(d: Entries)
  {
    forall i :: 0 <= i < |d| ==> StringOrIntegerKey(d[i].0) && Supported(d[i].1)
  }

  /** The fields `encodeAsDictionary` writes: one per entry, named by the stringified key. */
  function ObjectFields(d: Entries): seq<(CodingKey, Node)>
    requires ObjectEncodable(d)
  {
    seq(|d|, i requires 0 <= i < |d| => (DictionaryCodingKey(KeyString(d[i].0)), ElementNode(d[i].1)))
  }

  /** The elements `encodeAsArray` appends: key then value for each entry, in iteration order. */
  function PairNodes(d: Entries): (r: seq<Node>)
    requires SupportedEntries(d)
    ensures |r| == 2 * |d|
    ensures forall i :: 0 <= i < |d| ==> r[2 * i] == ElementNode(d[i].0) && r[2 * i + 1] == ElementNode(d[i].1)
  {
    if d == [] then []
    else
      var rest := PairNodes(d[1..]);
      assert forall i :: 1 <= i < |d| ==> d[i] == d[1..][i - 1];
      [ElementNode(d[0].0), ElementNode(d[0].1)] + rest
  }

  /**
   * Every key and value can go through the dispatch table; in the keyed form every key is an
   * instance of the key type. The flat form also takes keys that are collections.
   */
  predicate DictionaryEncodable(keyKind: Kind, d: Entries)
  {
    forall i :: 0 <= i < |d| ==>
      Supported(d[i].0) && Supported(d[i].1) && (EncodesAsObject(keyKind) ==> HasKind(d[i].0, keyKind))
  }

  /** The node `encode(Dictionary, forKey)` stores under its key. */
  function DictionaryNode(keyKind: Kind, d: Entries): Node
    requires DictionaryEncodable(keyKind, d)
  {
    if EncodesAsObject(keyKind) then ObjectNode(ObjectFields(d)) else ArrayNode(PairNodes(d))
  }

  /**
   * A key type outside Int and String, a collection type included, takes the flat form, where
   * a collection key becomes one nested unkeyed container ahead of its value.
   */
  lemma CollectionKeyGoesFlat(keyKind: Kind, xs: seq<Value>, v: Value)
    requires !EncodesAsObject(keyKind) && AllSupported(xs) && Supported(v)
    ensures DictionaryEncodable(keyKind, [(SequenceValue(xs), v)])
    ensures DictionaryNode(keyKind, [(SequenceValue(xs), v)]) == ArrayNode([ArrayNode(ElementNodes(xs)), ElementNode(v)])
  {
    var d := [(SequenceValue(xs), v)];
    assert Supported(d[0].0);
    assert PairNodes(d) == [ElementNode(d[0].0), ElementNode(d[0].1)];
  }

  /** Appending one entry appends its key node and its value node, in that order. */
  lemma {:induction false} PairNodesAppend(d: Entries, e: (Value, Value))
    requires SupportedEntries(d) && Supported(e.0) && Supported(e.1)
    ensures SupportedEntries(d + [e])
    ensures PairNodes(d + [e]) == PairNodes(d) + [ElementNode(e.0), ElementNode(e.1)]
  {
    assert forall i :: 0 <= i < |d| ==> (d + [e])[i] == d[i];
    if d != [] {
      assert (d + [e])[1..] == d[1..] + [e];
      PairNodesAppend(d[1..], e);
    }
  }

  /** An in-memory UnkeyedEncodingContainer: the elements written so far, in order. */
  class UnkeyedEncodingContainer {
    var items: seq<Node>

    constructor()
      ensures items == []
    {
      items := [];
    }

    /** `encode(value)` for a primitive or Encodable value. */
    method Encode(v: Value)
      requires IsLeaf(v)
      modifies this
      ensures items == old(items) + [LeafNode(v)]
    {
      items := items + [LeafNode(v)];
    }

    /** Attaches a filled container obtained from `nestedUnkeyedContainer()` as one element. */
    method AttachNested(nested: UnkeyedEncodingContainer)
      requires nested != this
      modifies this
      ensures items == old(items) + [ArrayNode(nested.items)]
    {
      items := items + [ArrayNode(nested.items)];
    }

    /**
     * `encode(contentsOf:)`: one element per input element, in iteration order; a nested
     * Sequence is encoded recursively into one nested unkeyed container.
     */
    method EncodeContentsOf(xs: seq<Value>)
      requires AllSupported(xs)
      modifies this
      ensures items == old(items) + ElementNodes(xs)
      decreases xs
    {
      for j := 0 to |xs|
        invariant items == old(items) + ElementNodes(xs[..j])
      {
        assert xs[..j + 1] == xs[..j] + [xs[j]];
        assert ElementNodes(xs[..j + 1]) == ElementNodes(xs[..j]) + [ElementNode(xs[j])];
        if xs[j].SequenceValue? {
          var nested := new UnkeyedEncodingContainer();
          nested.EncodeContentsOf(xs[j].elements);
          assert ElementNode(xs[j]) == ArrayNode(nested.items);
          AttachNested(nested);
        } else {
          Encode(xs[j]);
        }
      }
      assert xs[..|xs|] == xs;
    }
  }

  /** An in-memory KeyedEncodingContainer: the fields written so far, in order. */
  class KeyedEncodingContainer {
    var fields: seq<(CodingKey, Node)>

    constructor()
      ensures fields == []
    {
      fields := [];
    }

    /** `encode(value, forKey)` for a primitive or Encodable value. */
    method Encode(v: Value, key: CodingKey)
      requires IsLeaf(v)
      modifies this
      ensures fields == old(fields) + [(key, LeafNode(v))]
    {
      fields := fields + [(key, LeafNode(v))];
    }

    /** The default `encodeIfPresent(value, forKey)`: nothing for null, otherwise `encode`. */
    method EncodeIfPresent(v: Option<Value>, key: CodingKey)
      requires v.Some? ==> IsLeaf(v.value)
      modifies this
      ensures v.None? ==> fields == old(fields)
      ensures v.Some? ==> fields == old(fields) + [(key, LeafNode(v.value))]
    {
      if v.Some? {
        Encode(v.value, key);
      }
    }

    /** Attaches a filled container obtained from `nestedUnkeyedContainer(forKey)`. */
    method AttachNestedUnkeyed(key: CodingKey, nested: UnkeyedEncodingContainer)
      modifies this
      ensures fields == old(fields) + [(key, ArrayNode(nested.items))]
    {
      fields := fields + [(key, ArrayNode(nested.items))];
    }

    /** Attaches a filled container obtained from `nestedContainer(keyedBy:, forKey)`. */
    method AttachNestedKeyed(key: CodingKey, nested: KeyedEncodingContainer)
      requires nested != this
      modifies this
      ensures fields == old(fields) + [(key, ObjectNode(nested.fields))]
    {
      fields := fields + [(key, ObjectNode(nested.fields))];
    }

    /** `encode(Sequence, forKey)`: one nested unkeyed container filled by `encode(contentsOf:)`. */
    method EncodeSequence(xs: seq<Value>, key: CodingKey)
      requires AllSupported(xs)
      modifies this
      ensures fields == old(fields) + [(key, ArrayNode(ElementNodes(xs)))]
    {
      var container := new UnkeyedEncodingContainer();
      container.EncodeContentsOf(xs);
      assert container.items == ElementNodes(xs);
      AttachNestedUnkeyed(key, container);
    }

    /** `encodeIfPresent(Sequence?, forKey)`. */
    method EncodeSequenceIfPresent(xs: Option<seq<Value>>, key: CodingKey)
      requires xs.Some? ==> AllSupported(xs.value)
      modifies this
      ensures xs.None? ==> fields == old(fields)
      ensures xs.Some? ==> fields == old(fields) + [(key, ArrayNode(ElementNodes(xs.value)))]
    {
      if xs.Some? {
        EncodeSequence(xs.value, key);
      }
    }

    /** `encode(Dictionary, forKey)`: the key type alone chooses the representation. */
    method EncodeDictionary(keyKind: Kind, d: Entries, key: CodingKey)
      requires DictionaryEncodable(keyKind, d)
      modifies this
      ensures fields == old(fields) + [(key, DictionaryNode(keyKind, d))]
    {
      if EncodesAsObject(keyKind) {
        EncodeAsDictionary(d, key);
      } else {
        EncodeAsArray(d, key);
      }
    }

    /** `encodeIfPresent(Dictionary?, forKey)`. */
    method EncodeDictionaryIfPresent(keyKind: Kind, d: Option<Entries>, key: CodingKey)
      requires d.Some? ==> DictionaryEncodable(keyKind, d.value)
      modifies this
      ensures d.None? ==> fields == old(fields)
      ensures d.Some? ==> fields == old(fields) + [(key, DictionaryNode(keyKind, d.value))]
    {
      if d.Some? {
        EncodeDictionary(keyKind, d.value, key);
      }
    }

    /**
     * `encodeAsDictionary`: a nested keyed container with one field per entry, named by
     * `DictionaryCodingKey(dkey.toString())`; a Sequence value becomes a nested unkeyed container.
     */
    method EncodeAsDictionary(d: Entries, key: CodingKey)
      requires ObjectEncodable(d)
      modifies this
      ensures fields == old(fields) + [(key, ObjectNode(ObjectFields(d)))]
    {
      var container := new KeyedEncodingContainer();
      for i := 0 to |d|
        invariant fields == old(fields)
        invariant container.fields == ObjectFields(d[..i])
      {
        var (dkey, dvalue) := d[i];
        var fieldKey := DictionaryCodingKey(KeyString(dkey));
        assert d[..i + 1] == d[..i] + [d[i]];
        if dvalue.SequenceValue? {
          container.EncodeSequence(dvalue.elements, fieldKey);
        } else {
          container.Encode(dvalue, fieldKey);
        }
      }
      assert d[..|d|] == d;
      AttachNestedKeyed(key, container);
    }

    /** `encodeAsArray`: one nested unkeyed container, key then value for each entry. */
    method EncodeAsArray(d: Entries, key: CodingKey)
      requires SupportedEntries(d)
      modifies this
      ensures fields == old(fields) + [(key, ArrayNode(PairNodes(d)))]
    {
      var container := new UnkeyedEncodingContainer();
      for i := 0 to |d|
        invariant fields == old(fields)
        invariant container.items == PairNodes(d[..i])
      {
        assert d[..i + 1] == d[..i] + [d[i]];
        PairNodesAppend(d[..i], d[i]);
        EncodeAny(d[i].0, container);
        EncodeAny(d[i].1, container);
      }
      assert d[..|d|] == d;
      AttachNestedUnkeyed(key, container);
    }

    /** `encodeAny`: exactly one element for any supported value. */
    method EncodeAny(v: Value, container: UnkeyedEncodingContainer)
      requires Supported(v)
      modifies container
      ensures container.items == old(container.items) + [ElementNode(v)]
    {
      if v.SequenceValue? {
        var nested := new UnkeyedEncodingContainer();
        nested.EncodeContentsOf(v.elements);
        assert ElementNode(v) == ArrayNode(nested.items);
        container.AttachNested(nested);
      } else {
        container.Encode(v);
      }
    }
  }
}
