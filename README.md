# skip-lib Codable: the collection dispatcher

This project models the part of skip-lib's Kotlin `Codable` layer that brings Swift's `Codable` arrays, sets and dictionaries to Kotlin, where generic type arguments are erased. The model covers:

- The **element dispatch** of `encodeAny` and `encode(contentsOf:)`. It is a closed table over the twelve primitive kinds, `Encodable`, and nested `Sequence`. Anything else is fatal.
- The **dictionary strategy**. Int and String keys get a keyed container with one `DictionaryCodingKey` field per entry. Any other key type gets a flat unkeyed container with key and value interleaved. Decoding picks the form with the same test.
- The **decode tables** `keyedDecoder` and `unkeyedDecoder`, and the **decode loops** `decodeSequence`, `decodeAsArray` and `decodeAsDictionary`.
- The default **optional helpers** `encodeIfPresent` and `decodeIfPresent`.

The containers are interfaces whose concrete backend is not in the library, so the model adds a small in-memory backend. Encode containers are classes that append nodes. The unkeyed decode container is a class with a forward-only `currentIndex`. The keyed decode container is an immutable list of fields. Every loop method is proved against a function over the stored nodes, and the round-trip lemmas are proved about those functions.

Files and modules:

| file | module | contents |
|---|---|---|
| `wrappers.dfy` | `Wrappers` | `Option`, `Result` |
| `values.dfy` | `Values` | type tokens (`Kind`), runtime values, coding keys, backend nodes |
| `collections.dfy` | `Collections` | `LinkedHashMap` put and `Set` construction over ordered entry lists |
| `decimal.dfy` | `Decimal` | `Int.toString()` and its inverse parse |
| `backend.dfy` | `MemoryBackend` | primitive encode/decode of the in-memory backend, keyed lookup |
| `encoding.dfy` | `Encoding` | dispatch table, both dictionary forms, encode containers |
| `decoding.dfy` | `Decoding` | decode tables, decode containers, decode loops |
| `roundtrip.dfy` | `RoundTrip` | round trips, failure cases, end-to-end clients |

## Model

| member | source | states |
|---|---|---|
| Collections.Put | Sources/SkipLib/Skip/Codable.kt:682-682 | `map[key] = value` on a `LinkedHashMap`: a new key is appended at the end; an existing key keeps its position and takes the new value; every other entry is unchanged; distinct keys stay distinct |
| Collections.Dedup | Sources/SkipLib/Skip/Codable.kt:641-643 | building a `Set` from the decoded list keeps exactly the same elements, each once; a list without duplicates is unchanged |
| Collections.DedupKeepsFirstOccurrenceOrder | Sources/SkipLib/Skip/Codable.kt:641-643 | the elements of that `Set` are ordered by the position of their first occurrence in the decoded list |
| Decimal.ParseIntToString | Sources/SkipLib/Skip/Codable.kt:265-280 | the decimal string that `dkey.toString()` produces for an Int key parses back to the same Int |
| Decimal.IntToStringInjective | Sources/SkipLib/Skip/Codable.kt:265-280 | distinct Int keys get distinct field names |
| MemoryBackend.DecodePrimitive | Sources/SkipLib/Skip/Codable.kt:737-748 | the backend's `decode(type)` for a primitive gives only a value of that type, and only from the node that encoding such a value stores; null, array and object nodes fail |
| MemoryBackend.DecodeDecodable | Sources/SkipLib/Skip/Codable.kt:749-749 | `decodeDecodable(type)` gives only an instance of that class, read from the node encoding it stored; other shapes fail |
| MemoryBackend.Find | Sources/SkipLib/Skip/Codable.kt:416-416 | keyed lookup: absent exactly when no field has the key's stringValue, otherwise the first such field's node |
| Encoding.PairNodes | Sources/SkipLib/Skip/Codable.kt:290-296 | `encodeAsArray` writes exactly 2·N elements: element 2i is the i-th key and element 2i+1 the i-th value, in iteration order |
| Encoding.PairNodesAppend | Sources/SkipLib/Skip/Codable.kt:291-294 | one loop iteration of `encodeAsArray` appends the entry's key node and then its value node |
| Encoding.UnkeyedEncodingContainer.Encode | Sources/SkipLib/Skip/Codable.kt:329-341 | an unkeyed primitive or Encodable encode appends exactly that value's node |
| Encoding.UnkeyedEncodingContainer.AttachNested | Sources/SkipLib/Skip/Codable.kt:376-376 | a nested unkeyed container becomes one element of its parent, holding the nested elements |
| Encoding.UnkeyedEncodingContainer.EncodeContentsOf | Sources/SkipLib/Skip/Codable.kt:347-373 | `encode(contentsOf:)` appends one node per element in iteration order; a nested sequence becomes one nested container holding its own elements, recursively |
| Encoding.KeyedEncodingContainer.Encode | Sources/SkipLib/Skip/Codable.kt:28-40 | a keyed primitive or Encodable encode adds exactly one field under the key |
| Encoding.KeyedEncodingContainer.EncodeIfPresent | Sources/SkipLib/Skip/Codable.kt:46-96 | the keyed primitive and Encodable `encodeIfPresent` write nothing for null, and otherwise exactly what `encode(value, forKey)` writes |
| Encoding.KeyedEncodingContainer.AttachNestedUnkeyed | Sources/SkipLib/Skip/Codable.kt:99-99 | a nested unkeyed container becomes one field of its parent under the key |
| Encoding.KeyedEncodingContainer.AttachNestedKeyed | Sources/SkipLib/Skip/Codable.kt:98-98 | a nested keyed container becomes one field of its parent under the key |
| Encoding.KeyedEncodingContainer.EncodeSequence | Sources/SkipLib/Skip/Codable.kt:240-243 | `encode(Sequence, forKey)` adds one field holding one nested unkeyed container with the elements in order |
| Encoding.KeyedEncodingContainer.EncodeSequenceIfPresent | Sources/SkipLib/Skip/Codable.kt:245-247 | the sequence `encodeIfPresent` writes nothing for null, and otherwise exactly what `encode(Sequence, forKey)` writes |
| Encoding.EncodesAsObject | Sources/SkipLib/Skip/Codable.kt:250-250 | the shape test: it selects the keyed form only for key types whose instances are Strings or integers, and never for a class |
| Encoding.CollectionKeyGoesFlat | Sources/SkipLib/Skip/Codable.kt:249-255 | a key type outside Int and String, a collection type included, takes the flat form, where a collection key becomes one nested container ahead of its value |
| Encoding.KeyedEncodingContainer.EncodeDictionary | Sources/SkipLib/Skip/Codable.kt:249-255 | `encode(Dictionary, forKey)` stores the keyed form for Int and String key types and the flat form for every other key type, collection keys included |
| Encoding.KeyedEncodingContainer.EncodeDictionaryIfPresent | Sources/SkipLib/Skip/Codable.kt:257-259 | the dictionary `encodeIfPresent` writes nothing for null, and otherwise exactly what `encode(Dictionary, forKey)` writes |
| Encoding.KeyedEncodingContainer.EncodeAsDictionary | Sources/SkipLib/Skip/Codable.kt:261-288 | `encodeAsDictionary` adds one nested keyed container with one field per entry, named by the stringified key, each value through the dispatch table |
| Encoding.KeyedEncodingContainer.EncodeAsArray | Sources/SkipLib/Skip/Codable.kt:290-296 | `encodeAsArray` adds one nested unkeyed container holding key, value, key, value, … in iteration order |
| Encoding.KeyedEncodingContainer.EncodeAny | Sources/SkipLib/Skip/Codable.kt:298-322 | each `encodeAny` call appends exactly one element: the value's own node, or one nested container for a sequence |
| Decoding.DecoderFor | Sources/SkipLib/Skip/Codable.kt:707-725 | the decode table sends each of the twelve primitive kinds to its own decode call and every other kind to `decodeDecodable` for that class |
| Decoding.RunDecoder | Sources/SkipLib/Skip/Codable.kt:687-705 | a table entry succeeds only with a value of the entry's own type (the closure's `as T`), whose stored node is the node it read |
| Decoding.DecoderRoundTrip | Sources/SkipLib/Skip/Codable.kt:707-725 | the table entry for a kind reads back any instance of that kind from the node its encode call stored |
| Decoding.DictionaryShapeFor | Sources/SkipLib/Skip/Codable.kt:656-662 | decoding picks a keyed form exactly when encoding does (Int or String key), and the String form exactly for String keys |
| Decoding.StringKey | Sources/SkipLib/Skip/Codable.kt:658-658 | the String-key closure gives a String whose text is the coding key's `stringValue` |
| Decoding.IntKeyAsWritten | Sources/SkipLib/Skip/Codable.kt:659-659 | the Int-key closure as written gives an Int: the coding key's `intValue`, or 0 when it has none |
| Decoding.IntKey | Sources/SkipLib/Skip/Codable.kt:659-659 | the Int-key closure the model uses agrees with the library's `intValue ?: 0` whenever `intValue` is present (see Findings) |
| Decoding.UnkeyedDecodingContainer.Decode | Sources/SkipLib/Skip/Codable.kt:733-749 | an unkeyed decode at the end fails; otherwise it decodes the element under the cursor and moves past it exactly when it succeeds |
| Decoding.UnkeyedDecodingContainer.DecodeIfPresent | Sources/SkipLib/Skip/Codable.kt:755-805 | the unkeyed `decodeIfPresent` gives null exactly when `isAtEnd`, and otherwise gives `decode`'s value, its error and its cursor move |
| Decoding.KeyedDecodingContainer.Decode | Sources/SkipLib/Skip/Codable.kt:418-434 | a keyed decode of a missing key fails with that key; a success is an instance of the requested kind read from the key's field |
| Decoding.KeyedDecodingContainer.DecodeIfPresent | Sources/SkipLib/Skip/Codable.kt:436-486 | the keyed `decodeIfPresent` gives null exactly when the key is absent, and otherwise gives `decode`'s value or its error |
| Decoding.KeyedDecodingContainer.DecodeSequence | Sources/SkipLib/Skip/Codable.kt:645-654 | `decodeSequence` (and `decode(Array)`) drains the nested unkeyed container until `isAtEnd` and returns the elements in consumption order, failing on the first element that fails |
| Decoding.KeyedDecodingContainer.DecodeSet | Sources/SkipLib/Skip/Codable.kt:641-643 | `decode(Set)` is the decoded list with duplicates collapsed |
| Decoding.KeyedDecodingContainer.DecodeAsArray | Sources/SkipLib/Skip/Codable.kt:674-685 | `decodeAsArray` reads a key and then a value until `isAtEnd` and puts each pair into the map in order |
| Decoding.KeyedDecodingContainer.DecodeAsDictionary | Sources/SkipLib/Skip/Codable.kt:664-672 | `decodeAsDictionary` puts one entry into the map for each element of the nested container's `allKeys`, in order |
| Decoding.KeyedDecodingContainer.DecodeDictionary | Sources/SkipLib/Skip/Codable.kt:656-662 | `decode(Dictionary)` dispatches on the key type: String keys by `stringValue`, Int keys by the Int-key closure, everything else through `decodeAsArray` |
| RoundTrip.ElementsRoundTrip | Sources/SkipLib/Skip/Codable.kt:645-654 | decoding, with the element type, what `encode(contentsOf:)` wrote gives the elements back in order |
| RoundTrip.PairsRoundTrip | Sources/SkipLib/Skip/Codable.kt:674-685 | `decodeAsArray` after `encodeAsArray` gives the dictionary back, entries in the same order |
| RoundTrip.OddLengthFails | Sources/SkipLib/Skip/Codable.kt:679-683 | an odd number of elements in the flat form always fails: the last key has no value to read |
| RoundTrip.DecodedPairsDistinct | Sources/SkipLib/Skip/Codable.kt:678-683 | whatever the flat form holds, a decoded dictionary has each key at most once |
| RoundTrip.LaterDuplicateKeyWins | Sources/SkipLib/Skip/Codable.kt:679-683 | in the flat form, a key and value that follow any decodable content are `Put` into the dictionary decoded so far, from any starting dictionary: a later occurrence of a key overwrites the earlier value in place |
| RoundTrip.FieldsRoundTrip | Sources/SkipLib/Skip/Codable.kt:664-672 | walking `allKeys` of what `encodeAsDictionary` wrote gives the entries back when field names are distinct and the key closure recovers each key from its field name |
| RoundTrip.StringKeysRecovered | Sources/SkipLib/Skip/Codable.kt:658-658 | for String keys, field names are distinct and `it.stringValue` recovers every key |
| RoundTrip.IntKeysRecovered | Sources/SkipLib/Skip/Codable.kt:659-659 | for Int keys, field names are distinct and the corrected closure recovers every key from its field name |
| RoundTrip.DictionaryRoundTrip | Sources/SkipLib/Skip/Codable.kt:656-662 | in whichever form the key type selects, `decode(Dictionary)` gives back exactly what `encode(Dictionary)` stored |
| RoundTrip.ObjectRoundTrip | Sources/SkipLib/Skip/Codable.kt:664-672 | in the keyed form, `decodeAsDictionary` gives back exactly the entries `encodeAsDictionary` stored under the key |
| RoundTrip.FlatRoundTrip | Sources/SkipLib/Skip/Codable.kt:674-685 | in the flat form, `decodeAsArray` gives back exactly the entries `encodeAsArray` stored under the key |
| RoundTrip.IntKeysCollapseAsWritten | Sources/SkipLib/Skip/Codable.kt:659-659 | with `intValue ?: 0` as written, `[1: "x", 2: "y"]` decodes to `[0: "y"]` |
| RoundTrip.PresentNullIsDecoded | Sources/SkipLib/Skip/Codable.kt:436-486 | a key present with a null value is not absent: keyed `decodeIfPresent` decodes it and fails |
| RoundTrip.ArrayThroughContainers | Sources/SkipLib/Skip/Codable.kt:637-639 | `encode(Sequence, forKey)` then `decode(Array, forKey)` with the element type gives the sequence back |
| RoundTrip.SetThroughContainers | Sources/SkipLib/Skip/Codable.kt:641-643 | `encode(Sequence, forKey)` then `decode(Set, forKey)` gives each element once; a duplicate-free sequence comes back unchanged |
| RoundTrip.DictionaryThroughContainers | Sources/SkipLib/Skip/Codable.kt:249-255 | `encode(Dictionary, forKey)` then `decode(Dictionary, forKey)` with the same key and value types gives the dictionary back |
| RoundTrip.OptionalThroughContainers | Sources/SkipLib/Skip/Codable.kt:46-96 | `encodeIfPresent` then keyed `decodeIfPresent` gives the optional back, null included |
| RoundTrip.DrainThroughUnkeyed | Sources/SkipLib/Skip/Codable.kt:755-805 | unkeyed `decodeIfPresent`, called until null after `encode(contentsOf:)`, gives the elements back in order, and the call that ends the loop gives null, not an error |
| RoundTrip.Drain | Sources/SkipLib/Skip/Codable.kt:755-805 | calling unkeyed `decodeIfPresent` from the start until it stops giving values yields exactly the elements that decode, in order, and stops on a null with the decoder at its end |

## Left out

- Floating point: `Float` and `Double` values are opaque bit patterns, and there is no numeric reasoning about them.
- Integer widths: integers are unbounded in every width. The Kotlin ranges of `Byte` through `ULong` are not enforced, and `Decimal.ParseInt` does not reject strings outside the 32-bit range.
- The concrete backends (JSON and others) are not part of the library code shown. The in-memory backend in `MemoryBackend` stands in for them with these choices:
  - a primitive decode succeeds only on a node of exactly that type;
  - a failed unkeyed decode does not advance the cursor;
  - a keyed lookup matches on `stringValue` and takes the first match;
  - fields are appended, so writing a key twice leaves two fields.
- Error kinds: `DecodeError` only stands for "the backend threw". It is not the library's `keyNotFound`/`typeMismatch`/`dataCorrupted` classification.
- `fatalError` is a precondition: every value that reaches the dispatch table must be of a supported kind (`Values.Supported`). It is not a recoverable error.
- Reflection: `KClass` tokens and reified generics become the `Values.Kind` datatype. `Kind` cannot name a collection type, so the flat dictionary form accepts any supported key, collections included, whatever key type is given. Decoding with a collection as the element or key type is not modelled, because `unkeyedDecoder` hands such a type to `decodeDecodable` with its arguments erased.
- Nested containers are built as a fresh container, filled, and then attached to the parent as one node. The backend's registration of the child at creation, and any aliasing between parent and child, are not modelled. The parent is not written in between, so the stored tree is the same.
- Encoding.KeyedEncodingContainer.EncodeAsDictionary: accepts only String and integer keys, the only key types `encode(Dictionary)` sends to it. `toString()` of any other key type is not modelled.
- `codingPath`, `userInfo`, `superEncoder`/`superDecoder`, `encodeConditional`, `encodeNil`/`decodeNil`, `count` and single-value containers are left out. They are defined by the backend or only forward to it.
- The `KeyedEncodingContainer`/`KeyedDecodingContainer` box wrappers (`Sources/SkipLib/Skip/Codable.kt:104-236`, `494-633`) only forward to the box. The model's containers stand for wrapper and box at once.
- `Sources/SkipLib/Codable.swift` only declares protocols and has no behaviour. `Sources/SkipLib/Bool.swift` and the two test files are not part of this model.
- Decoding.KeyedDecodingContainer.DecodeDictionary: uses the corrected Int-key closure `Decoding.IntKey` in place of the library's `intValue ?: 0`. The as-written closure is kept as `Decoding.IntKeyAsWritten` (see Findings). Everything else in the decode path follows the code as written.

## Findings

| source | as written | input that shows it | evidently intended | confidence | as-written member | corrected member |
|---|---|---|---|---|---|---|
| Sources/SkipLib/Skip/Codable.kt:659 | the Int-key closure of `decode(Dictionary)` is `it.intValue ?: 0`, but `encodeAsDictionary` names every field `DictionaryCodingKey(dkey.toString())`, whose `intValue` is absent | `[1: "x", 2: "y"]` under a backend that hands back the keys it was given: both keys decode as 0, giving `[0: "y"]` | read the Int key from `intValue`, falling back to parsing `stringValue` as a decimal integer | low, not executed (backends that rebuild keys with an `intValue` are not affected) | RoundTrip.IntKeysCollapseAsWritten | RoundTrip.IntKeysRecovered |
