# kv-storage namespaced driver adapter, modelled in Dafny

kv-storage is a key-value preference store over localforage. Its two custom
localforage drivers share one adapter. `localforage-driver-ipfs-repo` runs over
the datastore inside an IPFS repository. `localforage-driver-datastore-level`
runs over a level datastore. This project models that adapter. It has two
layers:

- **The namespace key codec.** `_initStorage` derives the prefix
  `'/' + name + '/'`. The closures `_toKeyClass` and `_fromKeyClass` then do
  two things. They prepend the prefix to an application key. They recover the
  key with the anchored pattern `^<prefix>(.*)$`, giving `''` when the pattern
  fails.
- **The storage operations.** These are `setItem`, `getItem`, `removeItem`,
  `clear`, `iterate`, `key`, `keys` and `length`. They run over an ordered
  engine that offers get, put, delete, a prefix query with `keysOnly`, `limit`
  and `offset`, and a deletion batch.

Modules, leaf first:

- `Values` (values.dfy): the stored value domain and the serializer. The
  serializer is a parameter `Codec(serialize, deserialize)`. The only thing
  assumed about it is its round trip, stated as the hypothesis `RoundTrips`.
- `Order` (order.dfy): the engine's natural key order, which is lexicographic
  by character. `Ordered(s)` enumerates a set of keys in that order.
- `Engine` (engine.dfy): the engine handle as a class holding a
  `map<string, Bytes>`. It also has a `Batch` class that collects deletions
  and commits them in one step.
- `KeyCodec` (key_codec.dfy): `Prefix`, `ToKey` and `FromKey`, plus the
  round-trip, sentinel and disjointness lemmas.
- `Namespace` (namespace.dfy): what each operation does to the engine's map,
  or reads from it, as a function of the map and the prefix. The lemmas here
  state the promises: a read miss is null, a set or remove changes one entry,
  a clear removes exactly the namespace, enumeration is ordered and indexed
  from 0, and one namespace never reaches another's entries.
- `Driver` (driver.dfy): class `KVDriver`, with the fields `_db`, `_keyPrefix`,
  the name and the codec. It has one method per operation. Each method is
  proved against the `Namespace` functions. The loops of `clear`, `iterate`
  and `keys` are kept as the module-level methods `DeleteEach`, `Replay` and
  `DecodeEach`, which work on the query results the operation has fetched.
- `Scenario` (scenario.dfy): the repository's storage test flow, replayed
  against the contracts. Also two drivers that share one engine handle.

Both driver files hold the same adapter code, so one class models both. The
level driver's lines are `localforage-driver-datastore-level.ts:48-167`. The
IPFS-repository driver's lines are `localforage-driver-ipfs-repo.ts:83-215`. The
two files differ in only two ways:

- Where the engine handle comes from. The constructor `InitStorage` takes the
  handle as a parameter.
- The IPFS driver awaits `_ready` before each operation. Every operation here
  is one atomic sequential step, so by the time an operation runs,
  initialisation has finished.

Each `iterate` call registers its callback invocations. The model returns
those invocations as a sequence of `Call(value, key, index)` records.

Behaviour of the code worth noting:

- A native key outside the namespace decodes to the placeholder `''`, which
  the source comments as a TypeScript placeholder
  (`src/localforage-driver-ipfs-repo.ts:98`).
- The prefix is built from `name` as given, with no normalisation. The
  constructor therefore requires the documented alphanumeric/underscore form.
  Only under that form is the pattern a literal prefix test.
- A stored key that holds a line terminator (`\n`, `\r`, U+2028, U+2029) is
  written under its own native key. It fails the pattern, because `.` does not
  match these characters. So `keys()`, `key(i)` and `iterate` all report it as
  `''`. `KeyCodec.DecodeLineTerminator` states this. The full round trip
  (`KeysAreStoredKeys`) holds when no stored key has a line terminator.
- The drivers define no error types of their own. Engine and serializer
  failures reject the operation; see "Left out".

## Model

| member | source | states |
|---|---|---|
| KeyCodec.Prefix | src/localforage-driver-ipfs-repo.ts:89-90 | the prefix is '/', the name, '/'; for a valid name it holds no regular-expression metacharacter |
| KeyCodec.ToKey | src/localforage-driver-ipfs-repo.ts:92-94 | the native key starts with the prefix and the rest is the application key |
| KeyCodec.FromKey | src/localforage-driver-ipfs-repo.ts:95-99 | the decoded key is '' or re-encodes to the native key, and never holds a line terminator |
| KeyCodec.DecodeEncode | src/localforage-driver-ipfs-repo.ts:89-99 | decoding undoes encoding for every key without a line terminator |
| KeyCodec.DecodeForeign | src/localforage-driver-ipfs-repo.ts:95-99 | a native key that does not start with the prefix decodes to the sentinel '' |
| KeyCodec.DecodeLineTerminator | src/localforage-driver-ipfs-repo.ts:97 | a key holding a line terminator does not survive the round trip: it decodes to '' |
| KeyCodec.ToKeyInjective | src/localforage-driver-ipfs-repo.ts:92-94 | distinct application keys of one namespace get distinct native keys |
| KeyCodec.PrefixesIncomparable | src/localforage-driver-datastore-level.ts:52-57 | for distinct valid names, neither prefix is a prefix of the other |
| KeyCodec.NamespacesDisjoint | src/localforage-driver-datastore-level.ts:52-57 | a native key lies in at most one valid namespace |
| Order.Ordered | test/kv-storage.test.ts:96-99 | the engine enumerates a key set with each key exactly once, in ascending order |
| Order.SortedUnique | test/kv-storage.test.ts:96-99 | two ascending duplicate-free sequences with the same elements are equal, so the enumeration order is determined by the key set |
| Engine.Matching | src/localforage-driver-ipfs-repo.ts:143-146 | a prefix query selects exactly the stored keys that start with the prefix |
| Engine.Window | src/localforage-driver-ipfs-repo.ts:179-184 | offset skips that many keys and a limit n keeps min(n, what remains) of them; the kept keys are the enumeration's from the offset on, and an offset past the end keeps none |
| Engine.Select | src/localforage-driver-ipfs-repo.ts:198-201 | query results are the windowed enumeration of matching keys, with their stored values unless keys-only |
| Engine.Datastore.Get | src/localforage-driver-ipfs-repo.ts:124 | a read returns the stored bytes, or not-found exactly when the key is absent |
| Engine.Datastore.Query | src/localforage-driver-ipfs-repo.ts:159-161 | a query returns the results of Select on the current map |
| Engine.Datastore.Open | src/localforage-driver-datastore-level.ts:49 | a freshly opened engine handle holds the given entries |
| Engine.Datastore.Put | src/localforage-driver-ipfs-repo.ts:113 | a put stores the bytes under the key, replacing any earlier entry, and changes nothing else |
| Engine.Datastore.Delete | src/localforage-driver-ipfs-repo.ts:137 | a delete removes the key and changes nothing else; an absent key is a no-op |
| Engine.Datastore.Batch | src/localforage-driver-ipfs-repo.ts:148 | a new batch over this handle, with no deletions collected |
| Engine.Batch.Delete | src/localforage-driver-ipfs-repo.ts:150 | a batch delete appends the key to the collected deletions and touches no entry |
| Engine.Batch.Commit | src/localforage-driver-ipfs-repo.ts:152 | committing removes every collected key in one step and changes nothing else |
| Driver.KVDriver.InitStorage | src/localforage-driver-ipfs-repo.ts:83-102 | the driver keeps the engine handle and the codec, and fixes the prefix '/' + name + '/' once |
| Driver.KVDriver.SetItem | src/localforage-driver-ipfs-repo.ts:109-115 | puts serialize(value) at prefix ++ key, changes no other entry, and returns the value unchanged |
| Driver.KVDriver.GetItem | src/localforage-driver-ipfs-repo.ts:118-131 | null when prefix ++ key is absent, otherwise the deserialized stored bytes |
| Driver.KVDriver.RemoveItem | src/localforage-driver-ipfs-repo.ts:134-138 | the new map is the old one without prefix ++ key and nothing else |
| Driver.KVDriver.Clear | src/localforage-driver-ipfs-repo.ts:140-153 | after collecting one batch delete per prefixed key and committing, the map is the old map minus exactly the prefixed keys |
| Driver.KVDriver.Iterate | src/localforage-driver-ipfs-repo.ts:156-171 | one callback per prefixed entry in enumeration order, with the deserialized value, the decoded key and the counter 0..n-1 |
| Driver.KVDriver.Key | src/localforage-driver-ipfs-repo.ts:176-193 | the offset query returns keys()[i] when i < length and the sentinel '' otherwise |
| Driver.KVDriver.Keys | src/localforage-driver-ipfs-repo.ts:195-209 | the decoded native keys of the namespace, in query order |
| Driver.KVDriver.Length | src/localforage-driver-ipfs-repo.ts:212-215 | equals the length of keys(), which is the number of prefixed entries |
| Namespace.SetItem | src/localforage-driver-datastore-level.ts:72-77 | setItem's new map holds the bytes at prefix ++ key and agrees with the old map everywhere else |
| Namespace.RemoveItem | src/localforage-driver-datastore-level.ts:95-98 | removeItem's new map has the old keys minus prefix ++ key, with their bytes unchanged |
| Namespace.Clear | src/localforage-driver-datastore-level.ts:100-111 | clear's new map holds exactly the old entries whose key does not start with the prefix, with their bytes unchanged |
| Namespace.GetItem | src/localforage-driver-datastore-level.ts:80-92 | getItem is non-null only when prefix ++ key is stored (null on a miss) |
| Namespace.Has | src/index.ts:127-131 | has holds only when prefix ++ key is stored |
| Namespace.Keys | src/localforage-driver-datastore-level.ts:149-161 | keys() has one entry per stored key that carries the prefix |
| Namespace.Iteration | src/localforage-driver-datastore-level.ts:114-127 | iterate makes one call per stored key that carries the prefix, the i-th with index i |
| Namespace.Enumeration | src/localforage-driver-datastore-level.ts:150-153 | every enumerated native key is stored and carries the prefix |
| Namespace.PrefixQuery | src/localforage-driver-datastore-level.ts:115-117 | an unwindowed prefix query yields the enumeration, with values exactly when it is not keys-only |
| Namespace.OffsetQuery | src/localforage-driver-datastore-level.ts:132-147 | a query with offset i and limit 1 is non-empty iff i is below the namespace size, and then yields the i-th enumerated key |
| Namespace.ClearByQuery | src/localforage-driver-datastore-level.ts:100-111 | deleting the keys of a keys-only prefix query leaves the old map minus exactly the prefixed keys |
| Namespace.EnumerationCovers | src/localforage-driver-datastore-level.ts:101-104 | the enumeration of a namespace holds exactly its native keys |
| Namespace.KeysByQuery | src/localforage-driver-datastore-level.ts:149-161 | decoding every result of a keys-only prefix query gives keys() |
| Namespace.IterationByQuery | src/localforage-driver-datastore-level.ts:114-127 | every result of a prefix query with values carries a value, and replaying the results gives iterate()'s calls |
| Namespace.KeyByQuery | src/localforage-driver-datastore-level.ts:132-147 | the first result of the limit-1 query at offset i decodes to keys()[i], and there is none (giving '') exactly when i is out of range |
| Namespace.KeyEncodesNative | src/localforage-driver-datastore-level.ts:157 | when every stored key decodes, the i-th enumerated native key is prefix ++ keys()[i] |
| Driver.DecodeEach | src/localforage-driver-ipfs-repo.ts:203-206 | the loop pushes one decoded key per query result, in result order |
| Driver.Replay | src/localforage-driver-ipfs-repo.ts:163-170 | the loop makes one call per result, with the deserialized value, the decoded key and a counter that starts at 0 and counts the results |
| Driver.DeleteEach | src/localforage-driver-ipfs-repo.ts:148-151 | the loop adds one batch delete per query result, in result order, after those already collected |
| Namespace.GetAfterSet | src/localforage-driver-datastore-level.ts:72-92 | after set, get returns deserialize(serialize(v)), and v itself under a lossless codec |
| Namespace.SetLeavesOthers | src/localforage-driver-datastore-level.ts:72-77 | set leaves every other native key's presence and bytes unchanged |
| Namespace.SetOverwrites | src/localforage-driver-datastore-level.ts:72-77 | a later set on the same key replaces the earlier entry |
| Namespace.MissIsNull | src/localforage-driver-datastore-level.ts:80-89 | a missing key reads as null, and has is false |
| Namespace.HasAfterSet | src/index.ts:127-131 | under a lossless codec, has after set(k, v) holds exactly when v is not null |
| Namespace.GetAfterRemove | src/localforage-driver-datastore-level.ts:95-98 | after remove, get of that key is null |
| Namespace.RemoveLeavesOthers | src/localforage-driver-datastore-level.ts:95-98 | remove leaves every other native key's presence and bytes unchanged |
| Namespace.ClearAbsorbsSet | src/localforage-driver-datastore-level.ts:72-77 | clear after a set in the namespace gives what clear alone gives |
| Namespace.ClearAbsorbsRemove | src/localforage-driver-datastore-level.ts:95-98 | clear after a remove in the namespace gives what clear alone gives |
| Namespace.ClearOfEmpty | src/localforage-driver-datastore-level.ts:100-111 | clear of a namespace with no entries leaves the map as it was |
| Namespace.ClearKeepsOutside | src/localforage-driver-datastore-level.ts:100-111 | clear keeps exactly the entries without the prefix, with their bytes |
| Namespace.ClearEmpties | test/kv-storage.test.ts:125-130 | after clear, keys() is empty, length is 0 and iterate calls nothing |
| Namespace.LengthCountsEntries | src/localforage-driver-datastore-level.ts:163-167 | the length of keys() is the number of prefixed entries |
| Namespace.KeysAreStoredKeys | src/localforage-driver-datastore-level.ts:149-161 | when no stored key holds a line terminator, k is in keys() iff prefix ++ k is stored, and keys() is ascending without repeats |
| Namespace.IterationFollowsKeys | src/localforage-driver-datastore-level.ts:114-127 | iterate has one call per element of keys(), with the same key and index i; when all keys decode, the value equals getItem of that key |
| Namespace.SameView | src/localforage-driver-datastore-level.ts:100-104 | equal namespace views hold the same prefixed keys and bytes |
| Namespace.ViewDetermines | src/localforage-driver-datastore-level.ts:80-161 | getItem, keys and iterate of a namespace depend only on the entries under its prefix |
| Namespace.SetIsolated | src/localforage-driver-datastore-level.ts:72-77 | set in one namespace leaves every other valid namespace's view unchanged |
| Namespace.RemoveIsolated | src/localforage-driver-datastore-level.ts:95-98 | remove in one namespace leaves every other valid namespace's view unchanged |
| Namespace.ClearIsolated | src/localforage-driver-datastore-level.ts:100-111 | clear of one namespace leaves every other valid namespace's view unchanged |
| Scenario.EmptyNamespace | test/kv-storage.test.ts:18-45 | an empty namespace has no keys and nothing to iterate, and every get returns null |
| Scenario.StorageFlow | test/kv-storage.test.ts:48-130 | the test flow's expectations hold at each step (empty reads, set returns its value, get after set, null after remove, five keys in order, empty after clear), and the flow leaves the engine's map as it found it |
| Scenario.TwoNamespaces | src/localforage-driver-datastore-level.ts:52-57 | what one driver sets or clears leaves another name's keys and reads unchanged, and its view of the engine as it was |
| Scenario.FiveKeysInOrder | test/kv-storage.test.ts:83-99 | setting a..e into an empty namespace makes keys() exactly ["a","b","c","d","e"] |

## Left out

- src/index.ts, the `KVStorage` facade: driver registration, driver-name mapping, config merging and one-to-one forwarding. Only its `has` is kept, as `Namespace.Has`.
- Values.RoundTrips: stronger than the MessagePack serializer. It assumes `deserialize(serialize(v)) == v` for every value, including every 64-bit pattern of a number. The serializer writes -0 as the integer 0, so it reads back as +0, and it does not keep NaN payloads apart. So for -0 and for non-canonical NaN patterns, the second clause of Namespace.GetAfterSet, Namespace.HasAfterSet and the reads in Scenario.StorageFlow hold only for this idealised codec.
- src/serializer.ts, which wraps MessagePack: the byte format, NaN and ±Infinity, typed-array tagging, the error on cyclic input and `undefined` encoding as null. The codec is a parameter, and the only assumption about it is `RoundTrips`. A decode failure (corrupt stored bytes) makes `getItem` reject in the source. Here `deserialize` is total, so that path is not modelled.
- Numbers are carried as their 64-bit IEEE-754 pattern, and typed arrays as their element kind and bytes. No floating-point arithmetic happens in this layer.
- `initIPFSRepo` and `noLocker`: the repository's exists/init/open lifecycle and lock bypass are foreign I/O. The engine handle enters `InitStorage` already opened.
- `dropInstance` and `close`: engine teardown is foreign I/O.
- Asynchrony: the `_ready` await, `for await` streaming and interleavings of concurrent calls. Every operation is one atomic step.
- Engine I/O failures. No engine call fails in the model. `getItem` maps every failed read to null, and here the only failed read is a miss. A failure of put, delete, query or commit would reject the operation in the source.
- The `Key` class of interface-datastore is taken to be the identity on key strings. Its path normalisation is not modelled, such as dropping a trailing '/' or collapsing '//'.
- The IPFS repository's own key order is not modelled: both engines enumerate in lexicographic character order.
- Driver.KVDriver.InitStorage: requires the documented alphanumeric/underscore name. For other names the source builds a different regular expression, which is not modelled.
- Driver.KVDriver.Key: the index is a natural number. A negative or fractional JavaScript index is not modelled.
- Driver.KVDriver.Iterate: returns the sequence of callback invocations instead of calling a callback. An exception thrown by the callback is not modelled.
