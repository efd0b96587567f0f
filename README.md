# pypers: a persistent object graph over a sorted key-value store

`pypers.py` stores a graph of Python objects in one flat Berkeley DB B-tree.
A `DB` wraps the engine and keeps `key2obj`, the identity map from an object
key to the live `Persistent` instance for that key. Each `Persistent` object
has a key: `"root"`, or a generated uuid4 string. Its attribute `a` lives in
the store under `key + '_' + repr(a)`:

- an attribute whose name starts with `_` stays in the instance's `__dict__`;
- any other attribute is read, written and deleted as a store record;
- a persistent object is pickled as a reference that carries only its key,
  and reading that reference gives back the live instance of the key;
- reading an attribute that was never set creates a child object, stores a
  reference to it and returns it;
- `keys()` seeks the engine cursor to the object's key, then walks the sorted
  keys while they start with `key + '_'`, and `eval`s each suffix back into
  a name.

The project has five modules:

- `Results` (`results.dfy`): `Option`, `Result` and the three errors the
  source raises (`AttributeError`, `KeyError`, and an undecodable suffix).
- `KeyOrder` (`keyorder.dfy`): the engine's byte-wise key order, and the
  sorted key list kept by insertion, removal and the cursor seek.
- `KeyNames` (`keynames.dfy`): attribute names (`int`, `long` or byte
  `str`), Python 2 `repr` as `Encode`, its exact inverse `Decode`, and
  `AttrKey` (`_attr_key`). An `int` and a `long` of equal value (`5` and
  `5L`) are different names, because their keys `…_5` and `…_5L` differ.
- `Enumeration` (`enumeration.dfy`): what `iterkeys` yields, as a function
  of the sorted key list, and what that result means.
- `Pypers` (`pypers.dfy`): the `DB` and `Persistent` classes. Their methods
  update the records, the sorted key list, the identity map and the
  instance's in-memory attributes in place.

`Scenarios` (`scenarios.dfy`) chains the operations into what the module's
own `test-1` session does.

Some operations have no row in the table below because they carry no
contract of their own:

- `DB.__contains__` is the predicate `Pypers.DB.Contains`.
- `__getstate__` is `Pypers.Serialise`: a persistent object becomes
  `Ref(key)`.
- The item aliases `o[a]`, `o[a] = v` and `del o[a]` (`pypers.py:19-24`) are
  the same methods as attribute access: `GetAttr`, `SetAttr` and `DelAttr`.
  Names are `AttrName` values, so `root[333]` is `GetAttr(IntName(333), …)`.

The enumeration has one precondition:

- The scan stops at the first key outside the block, so it finds every
  attribute only if no store key sorts strictly between `key` and
  `key + '_'`. An example is object `"root2"` beside object `"root"`.
- `Enumeration.ListingComplete` assumes this (`NoIntruder`).
- `Enumeration.IntruderHidesBlock` proves that one such key makes `keys()`
  empty.
- `Enumeration.UuidKeysDoNotIntrude` and `Enumeration.NoExtensionNoIntruder`
  show stores that meet it.

## Model

| member | source | states |
|---|---|---|
| KeyNames.AttrKeyShape | pypers.py:26-27 | an attribute key starts with `owner + '_'`, its suffix is the name's repr, and it sorts above the owner key |
| KeyNames.AttrKeyInjective | pypers.py:26-27 | two names of one owner with the same attribute key are the same name |
| KeyNames.AttrKeysDistinct | pypers.py:26-27 | distinct names of one owner have distinct attribute keys |
| KeyNames.DecodeEncode | pypers.py:74-83 | the suffix of an attribute key reads back as the name that wrote it (`eval(repr(a)) == a` for ints, longs, including longs in the machine range such as `5L`, and byte strings) |
| KeyNames.EncodeDecode | pypers.py:74-83 | the decoder accepts only canonical reprs: any text it decodes is the repr of its result |
| KeyNames.UnescapeEscape | pypers.py:27 | the escaped body of a string repr (`\\`, the quote, `\t`, `\n`, `\r`, `\xhh`) unescapes to the original bytes |
| KeyNames.ParseIntText | pypers.py:27 | the decimal text of an integer parses back to it and starts with a digit or `-` |
| KeyNames.GeneratedKeyIsNoAttrKey | pypers.py:13 | a uuid4-shaped key is never an attribute key, because its 36 characters hold no `_` |
| KeyOrder.Insert | pypers.py:134 | writing a new key keeps the engine's key list sorted, adds exactly that key and keeps all others |
| KeyOrder.Remove | pypers.py:137 | deleting a key keeps the list sorted and removes exactly that key |
| KeyOrder.Locate | pypers.py:70 | the cursor seek lands on the first key not below the sought key, or past the end |
| Enumeration.ScanAtAttrKey | pypers.py:72-84 | at an attribute key of the object the walk yields that attribute and carries on |
| Enumeration.SeekFinds | pypers.py:70 | the seek finds a key exactly when some stored key sorts at or above the object's key, in particular when the object's own record is present |
| Enumeration.SeekPastEnd | pypers.py:70 | when no stored key sorts at or above the object's key, `keys()` fails with `KeyError` as the cursor seek does |
| Enumeration.ListingComplete | pypers.py:69-94 | when the seek finds a key, no key intrudes and every suffix decodes, `keys()` succeeds and lists exactly the names whose attribute keys are stored, in ascending key order, each once |
| Enumeration.IntruderHidesBlock | pypers.py:72-86 | one key sorting strictly between `key` and `key + '_'` makes `keys()` return `[]`, whatever attributes are stored |
| Enumeration.ListingListsStoredKeys | pypers.py:69-94 | under any conditions every listed name has its attribute key in the store |
| Enumeration.NoExtensionNoIntruder | pypers.py:70-86 | a key that no stored key extends by a byte below `_` has no intruder |
| Enumeration.UuidKeysDoNotIntrude | pypers.py:13 | in a store of uuid keys, their attribute keys and keys not starting with a hex digit, no uuid-keyed object has an intruder |
| Pypers.DB.constructor | pypers.py:105-107 | a store opened on a new file holds no records and no live instances |
| Pypers.DB.Get | pypers.py:113-114 | `db.get(k)` returns a new instance of `k`, leaves `k` in the store (a self-reference only if it was absent) and makes it the live instance |
| Pypers.DB.SetItem | pypers.py:131-134 | `db[k] = v` writes exactly the record for `k` (a persistent object as a reference to its key), keeps the key list sorted and leaves the identity map alone |
| Pypers.DB.DelItem | pypers.py:136-137 | `del db[k]` removes exactly the record for `k`, or fails with `KeyError` and changes nothing when there is none |
| Pypers.DB.GetItem | pypers.py:116-129 | `db[k]` returns the live instance when `k` has one; otherwise the unpickled record, with a reference resolved to the live instance of its key or to a new instance registered as live; a missing key is a `KeyError`; records are unchanged, the identity map only grows, and every returned object is the live one |
| Pypers.Persistent.constructor | pypers.py:10-17 | a new object leaves its key in the store, writes a self-reference only if the key was absent, and always becomes the live instance of its key |
| Pypers.Persistent.Rehydrated | pypers.py:59-63 | an unpickled object carries only its key and is bound to the store that read it (`pypers.py:125`) |
| Pypers.Persistent.SetAttr | pypers.py:29-34 | an underscore name changes only the in-memory attributes and leaves the store unchanged; any other name writes exactly its attribute key's record and nothing else |
| Pypers.Persistent.GetAttr | pypers.py:36-48 | an underscore name gives its in-memory value or `AttributeError`; a stored name gives what `db[attribute key]` gives; an unset name creates a new object under the generated key, stores references to it under that key and under the attribute key, makes it live and returns it |
| Pypers.Persistent.DelAttr | pypers.py:50-57 | an underscore name is removed from memory or raises `AttributeError`; any other name removes exactly its record, or fails with `KeyError` when it has none |
| Pypers.Persistent.Keys | pypers.py:69-94 | the cursor walk returns exactly the listing `Enumeration.Listing` of the engine's sorted keys |
| Pypers.Persistent.ReadAll | pypers.py:97-98 | reading each listed name in turn pairs it with what `o[name]` gives: the in-memory value of an underscore name; for a stored name the value whose pickle is the record (a plain value, or the live instance of the referenced key), or the live instance of the attribute key itself; the first underscore name not held in memory ends the walk with its `AttributeError`; records are unchanged and the identity map only grows |
| Pypers.Persistent.Items | pypers.py:96-98 | `iteritems()` fails as `keys()` does when the listing fails; otherwise it pairs each listed name with what `o[name]` gives (as for ReadAll), or fails with the `AttributeError` of the first listed underscore name not held in memory; no record changes |
| Scenarios.SetThenGet | pypers.py:160-165 | after `o.a = v` on a persisted name, `o.a` gives `v` back: a plain value by equality, the live instance as itself, and any object as an instance of the same key |
| Scenarios.ReadTwice | pypers.py:44-47 | reading an unset name twice creates one child object, and the second read returns that same instance |
| Scenarios.AliasedRead | pypers.py:167-168 | `o.x = o.y` with `y` unset, then reading both, gives one and the same new instance twice |
| Scenarios.ListingOfThree | pypers.py:166 | an object key followed by three of its attribute keys lists those three names in that order |
| Scenarios.SessionNamesAscend | pypers.py:166 | `'attr1'`, `'attr2'` and `333` encode in ascending byte order, because a quote sorts below a digit |
| Scenarios.Session | pypers.py:158-166 | on a new store, three plain names written as `123`, `'abc'` and `'ttt'` read back as written and are listed in the order of their encodings |
| Scenarios.SelfTest | pypers.py:157-166 | the `test-1` session reads back `123`, `'abc'` and `'ttt'` and lists `['attr1', 'attr2', 333]` |

## Left out

- The Berkeley DB engine is an explicit sorted key list next to the records map. `sync` and `close` are not modelled (`pypers.py:109-111`). Neither is reopening a file that already holds data: `DB()` starts empty.
- The cursor's exception-based end detection is the end of the key list. A seek past the last key (`set_location` raising) is a `KeyError` result.
- Pickle is not modelled. Plain values are an opaque `Datum` (an int, a string or None). A persistent object is written as `Ref(key)`, which is what `__getstate__` leaves in the pickle.
- Weak-reference eviction from `key2obj` depends on the garbage collector. The identity map is a plain map that only grows.
- `uuid.uuid4()` is a caller-supplied `newKey` of uuid shape that the store does not hold yet.
- `eval` of key suffixes accepts far more text than reprs. `Decode` accepts exactly the reprs of `int`, `long` and byte `str`; anything else, such as the suffix `True` of a `bool` name or an integer literal without `L` outside the machine range, is a decode error. The "temp fix" that rewrites `Persistent(...)` reprs (`pypers.py:75-82`) is not modelled, because object-valued names are not.
- Attribute names are `int`, `long` or byte `str` only. Other hashable names (`bool`, unicode, tuples, objects) are not modelled, and a stored key with such a suffix makes `keys()` a decode error.
- Python compares `5 == 5L`; the model keeps them as different names, as the store does, and does not model `__dict__` lookups that would confuse them (no integer name is an underscore name).
- The process-global `main_db` default is not modelled. The store is always passed explicitly.
- `__repr__`, `__iter__`, `print_db`, `test-2`, `test-3` and the timing code are not modelled.
- Generators are not modelled lazily. `keys()` is computed to completion. `iteritems()` lists first, then reads.
- Reading a name through attribute syntax finds class members (`keys`, `iterkeys`, …) before `__getattr__`. The model follows item syntax, where every name reaches `__getattr__`.
- Python 2 `int` is taken as 64 bits wide: an `IntName` lies in that range, and any integer outside it is a `LongName`, rendered with a trailing `L`.
- Pypers.Persistent.SetAttr: requires the name not to be `_key` or `_db`. Those two are fixed fields of the model, whereas the source lets `__dict__` writes replace them.
- Pypers.Persistent.GetAttr: requires the name not to be `_key` or `_db`, so reading the object's own key or store through the attribute API is not modelled.
- Pypers.Persistent.DelAttr: requires the name not to be `_key` or `_db`, so deleting them from `__dict__` is not modelled.
- Pypers.Persistent.Items: requires no listed name to be `_key` or `_db`, for the same reason as GetAttr.
- Scenarios.SelfTest: covers `test-1` up to the listing (`pypers.py:158-166`). The aliasing step (`pypers.py:167-168`) is proved for any object and any pair of names by Scenarios.AliasedRead.
