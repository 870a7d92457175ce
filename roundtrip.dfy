/**
 * What the collection dispatcher promises end to end, over the in-memory backend: arrays,
 * sets and dictionaries come back from what the encode side wrote; the flat dictionary form
 * fails on an odd number of elements and lets a later duplicate key win; and the Int-keyed
 * object form loses its keys when the key is read from `intValue` alone.
 */
module RoundTrip {
  import opened Wrappers
  import opened Values
  import opened Collections
  import opened Decimal
  import opened MemoryBackend
  import opened Encoding
  import opened Decoding

  /** Every key is an instance of `kk` and every value an instance of `vk`. */
  predicate EntriesOfKinds(d: Entries, kk: Kind, vk: Kind)
  {
    forall i :: 0 <= i < |d| ==> HasKind(d[i].0, kk) && HasKind(d[i].1, vk)
  }

  /** The stringified keys of the entries are pairwise distinct. */
  predicate DistinctKeyStrings(d: Entries)
    requires forall i :: 0 <= i < |d| ==> StringOrIntegerKey(d[i].0)
  {
    forall i, j :: 0 <= i < j < |d| ==> KeyString(d[i].0) != KeyString(d[j].0)
  }

  /** Decoding the nodes that `encode(contentsOf:)` wrote for instances of `k` gives them back in order. */
  lemma {:induction false} ElementsRoundTrip(k: Kind, xs: seq<Value>, acc: seq<Value>)
    requires AllOfKind(xs, k)
    ensures AllSupported(xs) && DecodeElements(k, ElementNodes(xs), acc) == Ok(acc + xs)
    decreases |xs|
  {
    if xs == [] {
      assert ElementNodes(xs) == [];
      assert acc + xs == acc;
    } else {
      var nodes := ElementNodes(xs);
      DecoderRoundTrip(xs[0], k);
      assert nodes[0] == ElementNode(xs[0]) == LeafNode(xs[0]);
      assert nodes[1..] == ElementNodes(xs[1..]);
      ElementsRoundTrip(k, xs[1..], acc + [xs[0]]);
      assert acc + [xs[0]] + xs[1..] == acc + xs;
    }
  }

  /**
   * Decoding the nodes that `encodeAsArray` wrote gives the entries back, in order, when the
   * keys are distinct from one another and from those already decoded.
   */
  lemma {:induction false} PairsRoundTrip(kk: Kind, vk: Kind, d: Entries, acc: Entries)
    requires EntriesOfKinds(d, kk, vk)
    requires DistinctKeys(acc + d)
    ensures SupportedEntries(d) && DecodePairs(kk, vk, PairNodes(d), acc) == Ok(acc + d)
    decreases |d|
  {
    if d == [] {
      assert acc + d == acc;
    } else {
      var nodes := PairNodes(d);
      var acc' := acc + [d[0]];
      PairNodesHead(kk, vk, d);
      PairsStep(kk, vk, nodes, acc, d[0].0, d[0].1);
      PutFreshKey(acc, d);
      MoveHead(acc, d);
      EntriesOfKindsTail(d, kk, vk);
      PairsRoundTrip(kk, vk, d[1..], acc');
      assert DecodePairs(kk, vk, nodes, acc) == DecodePairs(kk, vk, PairNodes(d[1..]), acc');
    }
  }

  /** Moving the head of `d` onto the end of `acc` leaves their concatenation unchanged. */
  lemma MoveHead<T>(acc: seq<T>, d: seq<T>)
    requires d != []
    ensures (acc + [d[0]]) + d[1..] == acc + d
  {
    assert d == [d[0]] + d[1..];
  }

  lemma EntriesOfKindsTail(d: Entries, kk: Kind, vk: Kind)
    requires d != [] && EntriesOfKinds(d, kk, vk)
    ensures EntriesOfKinds(d[1..], kk, vk)
  {
    forall i | 0 <= i < |d| - 1
      ensures HasKind(d[1..][i].0, kk) && HasKind(d[1..][i].1, vk)
    {
      assert d[1..][i] == d[i + 1];
    }
  }

  /** The first two flat-form nodes decode to the first entry; the rest are the remaining entries' nodes. */
  lemma PairNodesHead(kk: Kind, vk: Kind, d: Entries)
    requires d != [] && EntriesOfKinds(d, kk, vk)
    ensures SupportedEntries(d)
    ensures |PairNodes(d)| >= 2 && PairNodes(d)[2..] == PairNodes(d[1..])
    ensures RunDecoder(DecoderFor(kk), PairNodes(d)[0]) == Ok(d[0].0)
    ensures RunDecoder(DecoderFor(vk), PairNodes(d)[1]) == Ok(d[0].1)
  {
    DecoderRoundTrip(d[0].0, kk);
    DecoderRoundTrip(d[0].1, vk);
    var nodes := PairNodes(d);
    assert nodes[0] == ElementNode(d[0].0) == LeafNode(d[0].0);
    assert nodes[1] == ElementNode(d[0].1) == LeafNode(d[0].1);
  }

  /** The next key of a dictionary with distinct keys is not among those already decoded. */
  lemma PutFreshKey(acc: Entries, d: Entries)
    requires d != [] && DistinctKeys(acc + d)
    ensures Put(acc, d[0].0, d[0].1) == acc + [d[0]]
  {
    forall i | 0 <= i < |acc|
      ensures acc[i].0 != d[0].0
    {
      assert (acc + d)[i] == acc[i] && (acc + d)[|acc|] == d[0];
    }
  }

  /** The i-th node `encode(contentsOf:)` wrote decodes, through the table entry for `k`, to the i-th element. */
  lemma ElementDecodes(k: Kind, xs: seq<Value>, i: nat)
    requires AllOfKind(xs, k) && i < |xs|
    ensures AllSupported(xs) && RunDecoder(DecoderFor(k), ElementNodes(xs)[i]) == Ok(xs[i])
  {
    DecoderRoundTrip(xs[i], k);
    assert ElementNodes(xs)[i] == ElementNode(xs[i]) == LeafNode(xs[i]);
  }

  lemma PrefixStep<T>(xs: seq<T>, i: nat)
    requires i < |xs|
    ensures xs[..i + 1] == xs[..i] + [xs[i]]
  {
  }

  /** An odd number of elements in the flat form always fails: the last key has no value. */
  lemma {:induction false} OddLengthFails(kk: Kind, vk: Kind, items: seq<Node>, acc: Entries)
    requires |items| % 2 == 1
    ensures DecodePairs(kk, vk, items, acc).Err?
    decreases |items|
  {
    var key := RunDecoder(DecoderFor(kk), items[0]);
    if key.Ok? && |items| > 1 {
      var value := RunDecoder(DecoderFor(vk), items[1]);
      if value.Ok? {
        OddLengthFails(kk, vk, items[2..], Put(acc, key.value, value.value));
      }
    }
  }

  /** Whatever the flat form holds, the decoded dictionary has each key once. */
  lemma {:induction false} DecodedPairsDistinct(kk: Kind, vk: Kind, items: seq<Node>, acc: Entries)
    requires DistinctKeys(acc)
    ensures DecodePairs(kk, vk, items, acc).Ok? ==> DistinctKeys(DecodePairs(kk, vk, items, acc).value)
    decreases |items|
  {
    if items != [] && |items| > 1 {
      var key := RunDecoder(DecoderFor(kk), items[0]);
      var value := RunDecoder(DecoderFor(vk), items[1]);
      if key.Ok? && value.Ok? {
        DecodedPairsDistinct(kk, vk, items[2..], Put(acc, key.value, value.value));
      }
    }
  }

  /** One step of the flat-form walk: a decoded key and value are put into the dictionary. */
  lemma PairsStep(kk: Kind, vk: Kind, items: seq<Node>, acc: Entries, key: Value, value: Value)
    requires |items| >= 2
    requires RunDecoder(DecoderFor(kk), items[0]) == Ok(key)
    requires RunDecoder(DecoderFor(vk), items[1]) == Ok(value)
    ensures DecodePairs(kk, vk, items, acc) == DecodePairs(kk, vk, items[2..], Put(acc, key, value))
  {
  }

  /** Putting into a one-entry dictionary under its own key replaces the value. */
  lemma PutReplacesSole(k: Value, v1: Value, v2: Value)
    ensures Put([], k, v1) == [(k, v1)]
    ensures Put([(k, v1)], k, v2) == [(k, v2)]
  {
    var once: Entries := [(k, v1)];
    assert once[0].0 == k;
    assert HasKey(once, k);
    var twice := Put(once, k, v2);
    assert |twice| == 1 && twice[0].0 == k;
    assert twice[0] == (k, v2);
  }

  /**
   * In the flat form a key and value appended after any decodable content are put into the
   * dictionary decoded so far: a later occurrence of a key overwrites the earlier value in place.
   */
  lemma {:induction false} LaterDuplicateKeyWins(kk: Kind, vk: Kind, items: seq<Node>, acc: Entries, k: Value, v: Value)
    requires HasKind(k, kk) && HasKind(v, vk)
    requires DecodePairs(kk, vk, items, acc).Ok?
    ensures var before := DecodePairs(kk, vk, items, acc).value;
            DecodePairs(kk, vk, items + [LeafNode(k), LeafNode(v)], acc) == Ok(Put(before, k, v))
    ensures var r := DecodePairs(kk, vk, items + [LeafNode(k), LeafNode(v)], acc).value;
            HasKey(r, k) && forall i :: 0 <= i < |r| && r[i].0 == k ==> r[i].1 == v
    decreases |items|
  {
    var tail := [LeafNode(k), LeafNode(v)];
    DecoderRoundTrip(k, kk);
    DecoderRoundTrip(v, vk);
    if items == [] {
      assert items + tail == tail && tail[2..] == [];
      PairsStep(kk, vk, tail, acc, k, v);
    } else {
      var key := RunDecoder(DecoderFor(kk), items[0]).value;
      var value := RunDecoder(DecoderFor(vk), items[1]).value;
      assert (items + tail)[2..] == items[2..] + tail;
      PairsStep(kk, vk, items + tail, acc, key, value);
      LaterDuplicateKeyWins(kk, vk, items[2..], Put(acc, key, value), k, v);
    }
  }

  /**
   * Walking `allKeys` of the fields `encodeAsDictionary` wrote gives the entries back, provided
   * the stringified keys are distinct and the key closure recovers each key from its field name.
   */
  lemma {:induction false} FieldsRoundTrip(vk: Kind, keyOf: CodingKey -> Value, d: Entries, i: nat)
    requires forall j :: 0 <= j < |d| ==> StringOrIntegerKey(d[j].0) && HasKind(d[j].1, vk)
    requires DistinctKeys(d) && DistinctKeyStrings(d)
    requires forall j :: 0 <= j < |d| ==> keyOf(DictionaryCodingKey(KeyString(d[j].0))) == d[j].0
    requires i <= |d|
    ensures ObjectEncodable(d)
    ensures var c := KeyedDecodingContainer(ObjectFields(d));
            c.DecodeFields(vk, keyOf, c.AllKeys()[i..], d[..i]) == Ok(d)
    decreases |d| - i
  {
    var c := KeyedDecodingContainer(ObjectFields(d));
    var keys := c.AllKeys();
    if i == |d| {
      assert keys[i..] == [];
      assert d[..i] == d;
    } else {
      FieldLookup(vk, d, i);
      PutNextEntry(d, i);
      assert keys[i..][1..] == keys[i + 1..];
      FieldsRoundTrip(vk, keyOf, d, i + 1);
    }
  }

  /** The i-th name in `allKeys` finds the i-th field, which decodes to the i-th value. */
  lemma FieldLookup(vk: Kind, d: Entries, i: nat)
    requires forall j :: 0 <= j < |d| ==> StringOrIntegerKey(d[j].0) && HasKind(d[j].1, vk)
    requires DistinctKeyStrings(d)
    requires i < |d|
    ensures ObjectEncodable(d)
    ensures var c := KeyedDecodingContainer(ObjectFields(d));
            c.AllKeys()[i] == DictionaryCodingKey(KeyString(d[i].0)) &&
            c.Decode(vk, c.AllKeys()[i]) == Ok(d[i].1)
  {
    var fields := ObjectFields(d);
    var ck := DictionaryCodingKey(KeyString(d[i].0));
    assert KeyMatches(fields[i], ck);
    assert forall j :: 0 <= j < i ==> !KeyMatches(fields[j], ck);
    assert Find(fields, ck) == Some(ElementNode(d[i].1));
    DecoderRoundTrip(d[i].1, vk);
  }

  /** With distinct keys, putting the i-th entry after the first i extends the prefix by it. */
  lemma PutNextEntry(d: Entries, i: nat)
    requires DistinctKeys(d) && i < |d|
    ensures Put(d[..i], d[i].0, d[i].1) == d[..i + 1]
  {
    assert !HasKey(d[..i], d[i].0);
    assert d[..i + 1] == d[..i] + [d[i]];
  }

  /** String keys: the field names are the keys themselves, and `it.stringValue` recovers them. */
  lemma StringKeysRecovered(d: Entries)
    requires forall j :: 0 <= j < |d| ==> HasKind(d[j].0, StringClass)
    requires DistinctKeys(d)
    ensures forall j :: 0 <= j < |d| ==> StringOrIntegerKey(d[j].0)
    ensures DistinctKeyStrings(d)
    ensures forall j :: 0 <= j < |d| ==> StringKey(DictionaryCodingKey(KeyString(d[j].0))) == d[j].0
  {
  }

  /**
   * Int keys: distinct integers get distinct decimal field names, and reading the field name
   * back as a decimal integer recovers each key.
   */
  lemma IntKeysRecovered(d: Entries)
    requires forall j :: 0 <= j < |d| ==> HasKind(d[j].0, IntClass)
    requires DistinctKeys(d)
    ensures forall j :: 0 <= j < |d| ==> StringOrIntegerKey(d[j].0)
    ensures DistinctKeyStrings(d)
    ensures forall j :: 0 <= j < |d| ==> IntKey(DictionaryCodingKey(KeyString(d[j].0))) == d[j].0
  {
    forall j | 0 <= j < |d|
      ensures IntKey(DictionaryCodingKey(KeyString(d[j].0))) == d[j].0
    {
      ParseIntToString(d[j].0.n);
    }
  }

  /**
   * Whatever form the key type selects, decoding a dictionary as the same key and value types
   * gives back exactly what `encode(Dictionary)` stored.
   */
  lemma DictionaryRoundTrip(kk: Kind, vk: Kind, d: Entries, fields: seq<(CodingKey, Node)>, key: CodingKey)
    requires EntriesOfKinds(d, kk, vk) && DistinctKeys(d)
    requires DictionaryEncodable(kk, d)
    requires Find(fields, key) == Some(DictionaryNode(kk, d))
    ensures KeyedDecodingContainer(fields).DictionaryAt(kk, vk, key) == Ok(d)
  {
    match DictionaryShapeFor(kk)
    case StringKeyed =>
      StringKeysRecovered(d);
      ObjectRoundTrip(vk, StringKey, d, fields, key);
    case IntKeyed =>
      IntKeysRecovered(d);
      ObjectRoundTrip(vk, IntKey, d, fields, key);
    case Flat =>
      FlatRoundTrip(kk, vk, d, fields, key);
  }

  /** The keyed form: `decodeAsDictionary` gives back what `encodeAsDictionary` stored under the key. */
  lemma ObjectRoundTrip(vk: Kind, keyOf: CodingKey -> Value, d: Entries, fields: seq<(CodingKey, Node)>, key: CodingKey)
    requires forall j :: 0 <= j < |d| ==> StringOrIntegerKey(d[j].0) && HasKind(d[j].1, vk)
    requires DistinctKeys(d) && DistinctKeyStrings(d)
    requires forall j :: 0 <= j < |d| ==> keyOf(DictionaryCodingKey(KeyString(d[j].0))) == d[j].0
    requires ObjectEncodable(d) && Find(fields, key) == Some(ObjectNode(ObjectFields(d)))
    ensures KeyedDecodingContainer(fields).FieldsAt(vk, keyOf, key) == Ok(d)
  {
    assert d[..0] == [];
    FieldsRoundTrip(vk, keyOf, d, 0);
  }

  /** The flat form: `decodeAsArray` gives back what `encodeAsArray` stored under the key. */
  lemma FlatRoundTrip(kk: Kind, vk: Kind, d: Entries, fields: seq<(CodingKey, Node)>, key: CodingKey)
    requires EntriesOfKinds(d, kk, vk) && DistinctKeys(d)
    requires SupportedEntries(d) && Find(fields, key) == Some(ArrayNode(PairNodes(d)))
    ensures KeyedDecodingContainer(fields).PairsAt(kk, vk, key) == Ok(d)
  {
    assert [] + d == d;
    PairsRoundTrip(kk, vk, d, []);
  }

  /**
   * As written, the Int-key closure `intValue ?: 0` sees the absent intValue of every
   * `DictionaryCodingKey`, so `{1: "x", 2: "y"}` decodes to `{0: "y"}`.
   */
  lemma IntKeysCollapseAsWritten()
    ensures var d := [(IntegerValue(Int32, 1), StringValue("x")), (IntegerValue(Int32, 2), StringValue("y"))];
            ObjectEncodable(d) &&
            var c := KeyedDecodingContainer(ObjectFields(d));
            c.DecodeFields(StringClass, IntKeyAsWritten, c.AllKeys(), []) == Ok([(IntegerValue(Int32, 0), StringValue("y"))])
  {
    var d := [(IntegerValue(Int32, 1), StringValue("x")), (IntegerValue(Int32, 2), StringValue("y"))];
    var k1 := DictionaryCodingKey("1");
    var k2 := DictionaryCodingKey("2");
    assert KeyString(d[0].0) == "1" && KeyString(d[1].0) == "2";
    var fields := ObjectFields(d);
    assert fields == [(k1, StringNode("x")), (k2, StringNode("y"))];
    var c := KeyedDecodingContainer(fields);
    assert c.AllKeys() == [k1, k2];
    assert KeyMatches(fields[0], k1) && !KeyMatches(fields[0], k2) && KeyMatches(fields[1], k2);
    assert c.Decode(StringClass, k1) == Ok(StringValue("x"));
    assert c.Decode(StringClass, k2) == Ok(StringValue("y"));
    var zero := IntegerValue(Int32, 0);
    assert IntKeyAsWritten(k1) == zero && IntKeyAsWritten(k2) == zero;
    PutReplacesSole(zero, StringValue("x"), StringValue("y"));
    assert [k1, k2][1..] == [k2] && [k2][1..] == [];
    assert c.DecodeFields(StringClass, IntKeyAsWritten, [k1, k2], [])
        == c.DecodeFields(StringClass, IntKeyAsWritten, [k2], [(zero, StringValue("x"))]);
  }

  /** A field that is present but holds null is not "absent": keyed decodeIfPresent still decodes and fails. */
  lemma PresentNullIsDecoded(fields: seq<(CodingKey, Node)>, key: CodingKey, k: Kind)
    requires Find(fields, key) == Some(NullNode)
    ensures KeyedDecodingContainer(fields).DecodeIfPresent(k, key).Err?
  {
  }

  /**
   * `encode(Sequence, forKey)` followed by `decode(Array, forKey)` with the element type gives
   * the sequence back.
   */
  method ArrayThroughContainers(xs: seq<Value>, k: Kind, key: CodingKey) returns (r: Result<seq<Value>, DecodeError>)
    requires AllOfKind(xs, k)
    ensures r == Ok(xs)
  {
    ElementsRoundTrip(k, xs, []);
    var encoder := new KeyedEncodingContainer();
    encoder.EncodeSequence(xs, key);
    var decoder := KeyedDecodingContainer(encoder.fields);
    r := decoder.DecodeSequence(k, key);
    assert [] + xs == xs;
  }

  /**
   * `encode(Sequence, forKey)` followed by `decode(Set, forKey)` gives each element once; a
   * sequence without duplicates comes back unchanged.
   */
  method SetThroughContainers(xs: seq<Value>, k: Kind, key: CodingKey) returns (r: Result<seq<Value>, DecodeError>)
    requires AllOfKind(xs, k)
    ensures r == Ok(Dedup(xs))
    ensures NoDuplicates(xs) ==> r == Ok(xs)
  {
    ElementsRoundTrip(k, xs, []);
    var encoder := new KeyedEncodingContainer();
    encoder.EncodeSequence(xs, key);
    var decoder := KeyedDecodingContainer(encoder.fields);
    r := decoder.DecodeSet(k, key);
    assert [] + xs == xs;
  }

  /**
   * `encode(Dictionary, forKey)` followed by `decode(Dictionary, forKey)` with the same key and
   * value types gives the dictionary back, entries in the same order.
   */
  method DictionaryThroughContainers(kk: Kind, vk: Kind, d: Entries, key: CodingKey) returns (r: Result<Entries, DecodeError>)
    requires EntriesOfKinds(d, kk, vk) && DistinctKeys(d)
    ensures r == Ok(d)
  {
    assert DictionaryEncodable(kk, d);
    var encoder := new KeyedEncodingContainer();
    encoder.EncodeDictionary(kk, d, key);
    var decoder := KeyedDecodingContainer(encoder.fields);
    DictionaryRoundTrip(kk, vk, d, encoder.fields, key);
    r := decoder.DecodeDictionary(kk, vk, key);
  }

  /** `encodeIfPresent(value, forKey)` followed by `decodeIfPresent(type, forKey)` gives the optional back. */
  method OptionalThroughContainers(v: Option<Value>, k: Kind, key: CodingKey) returns (r: Result<Option<Value>, DecodeError>)
    requires v.Some? ==> HasKind(v.value, k)
    ensures r == Ok(v)
  {
    if v.Some? {
      DecoderRoundTrip(v.value, k);
    }
    var encoder := new KeyedEncodingContainer();
    encoder.EncodeIfPresent(v, key);
    var decoder := KeyedDecodingContainer(encoder.fields);
    r := decoder.DecodeIfPresent(k, key);
  }

  /**
   * `encode(contentsOf:)` into an unkeyed container, then `decodeIfPresent` on an unkeyed
   * decode container until it gives null: the elements come back in order, the call that ends
   * the loop gives null rather than an error, and it comes exactly at the end.
   */
  method DrainThroughUnkeyed(xs: seq<Value>, k: Kind) returns (r: seq<Value>, last: Result<Option<Value>, DecodeError>)
    requires AllOfKind(xs, k)
    ensures r == xs
    ensures last == Ok(None)
  {
    ElementsRoundTrip(k, xs, []);
    var encoder := new UnkeyedEncodingContainer();
    encoder.EncodeContentsOf(xs);
    var decoder := new UnkeyedDecodingContainer(encoder.items);
    forall i | 0 <= i < |xs|
      ensures RunDecoder(DecoderFor(k), decoder.items[i]) == Ok(xs[i])
    {
      ElementDecodes(k, xs, i);
    }
    r, last := Drain(decoder, k, xs);
  }

  /**
   * Calls `decodeIfPresent` until it gives something other than a value, collecting the
   * elements it gives before that; `last` is the call that ended the loop.
   */
  method Drain(decoder: UnkeyedDecodingContainer, k: Kind, ghost xs: seq<Value>)
    returns (r: seq<Value>, last: Result<Option<Value>, DecodeError>)
    requires decoder.Valid() && decoder.currentIndex == 0 && |decoder.items| == |xs|
    requires forall i :: 0 <= i < |xs| ==> RunDecoder(DecoderFor(k), decoder.items[i]) == Ok(xs[i])
    modifies decoder
    ensures r == xs
    ensures last == Ok(None)
    ensures decoder.Valid() && decoder.IsAtEnd()
  {
    r := [];
    last := Ok(None);
    var atEnd := false;
    while !atEnd
      invariant decoder.Valid()
      invariant r == xs[..decoder.currentIndex]
      invariant atEnd ==> decoder.currentIndex == |xs| && last == Ok(None)
      decreases |xs| - decoder.currentIndex, if atEnd then 0 else 1
    {
      var i := decoder.currentIndex;
      last := decoder.DecodeIfPresent(k);
      if last.Ok? && last.value.Some? {
        PrefixStep(xs, i);
        r := r + [last.value.value];
      } else {
        atEnd := true;
      }
    }
    assert xs[..|xs|] == xs;
  }
}
