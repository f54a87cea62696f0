# infrahub-sync record helpers, in Dafny

The sync adapters of infrahub-sync translate records between a source and a
destination system. Two helpers in `infrahub_sync/adapters/utils.py` do the
generic record reading. This project models both and proves what they do:

- `get_value(obj, name)` resolves a dot-notation path such as
  `"location.name"` against a dict or an attribute-bearing object. It splits
  at the first dot only. It reads a dict with `dict.get` and any other value
  with `getattr(..., None)`. It stops with `None` as soon as an intermediate
  value is falsy.
- `derive_identifier_key(obj)` picks the identifier of a flat dict. It takes
  `obj["id"]` when that is not `None`. Otherwise it takes the first
  truthy entry, in insertion order, whose key ends in `_id`. If neither
  exists it raises `ValueError`.

Files:

- `values.dfy` (module `Values`) holds the closed `Value` datatype that
  stands for Python's `Any`. A dict is its entries in insertion order, and an
  attribute-bearing object is a map from names to values. The file also
  defines Python truthiness, `dict.get`, `getattr` with a `None` default, and
  `Result`, whose `Err` case stands for the raised `ValueError`.
- `dot_path.dfy` (module `DotPath`) holds `get_value` as a recursive function
  on a shrinking name. `Resolve` is an independent reference that walks a path
  given as a list of segments. `GetValueIsResolve` proves the two agree on
  every object and every name.
- `identifier_key.dfy` (module `IdentifierKey`) holds `derive_identifier_key`
  as a method with the source's loop and `break`. The method is proved equal to
  `DeriveSpec`, a functional statement of the `id` / first-`*_id` precedence.
  Lemmas characterise `DeriveSpec` entry by entry.
- `scenarios.dfy` (module `Scenarios`) proves the results on a few concrete
  records.

Within the model, both helpers are total functions of their inputs. Dafny
values are immutable, so the input record is never modified, and two calls on
the same input give the same result.

Two points of the model follow directly from the code:

- A dict is an ordered sequence of entries, because the
  `derive_identifier_key` scan depends on insertion order.
- `get_value` accepts the empty name and looks it up as key `""`
  (`GetValueDictKey` allows any name without a dot).

## Model

| member | source | states |
|---|---|---|
| Values.DictGet | infrahub_sync/adapters/utils.py:11 | `d.get(key)` is `None` when no entry has that key; with the distinct keys of a Python dict it is the value stored under the key |
| Values.Truthy | infrahub_sync/adapters/utils.py:19 | the falsy values are exactly `None`, `False`, `0`, `""` and `{}`; every other value, any attribute-bearing object included, is truthy (the same test as `and value` at line 29) |
| Values.GetAttr | infrahub_sync/adapters/utils.py:12 | `getattr(obj, name, None)`: the attribute when the object carries it, the default `None` otherwise |
| Values.Access | infrahub_sync/adapters/utils.py:17 | one field read: only a dict or an attribute-bearing object can give a value; an object gives its attribute or `None`; a dict gives the value stored under the key, or `None` when the key is absent |
| DotPath.SplitAtFirstDot | infrahub_sync/adapters/utils.py:14 | there is no split exactly when the name has no dot; otherwise the head holds no dot, and head + "." + rest is the name |
| DotPath.SplitAtFirstDotOfJoin | infrahub_sync/adapters/utils.py:14 | `maxsplit=1` splits `first + "." + rest` into `first` and `rest` whenever `first` has no dot, whatever dots `rest` holds |
| DotPath.GetValue | infrahub_sync/adapters/utils.py:6-21 | total on every modelled object and name (it terminates and never fails on a missing key or attribute; Python's recursion limit is left out); a value other than `None` can only come from a dict or an attribute-bearing object |
| DotPath.GetValueDictKey | infrahub_sync/adapters/utils.py:8-11 | a name with no dot, read from a dict, gives the value stored under exactly that key, the empty name included |
| DotPath.GetValueDictMissing | infrahub_sync/adapters/utils.py:8-11 | a name with no dot, read from a dict that lacks that key, gives `None` |
| DotPath.GetValueAttribute | infrahub_sync/adapters/utils.py:12 | a name with no dot, read from an object, gives that attribute, or `None` when the object has no such attribute |
| DotPath.GetValueDotted | infrahub_sync/adapters/utils.py:14-21 | `get_value(obj, "a.b.c")` equals `get_value(sub, "b.c")`, where `sub` is the read of `"a"`, when `sub` is truthy |
| DotPath.GetValueFalsyStops | infrahub_sync/adapters/utils.py:17-20 | when the first segment reads as falsy (`None`, `""`, `0`, `False`, `{}`), the result is `None` whatever the rest of the path is |
| DotPath.Join | infrahub_sync/adapters/utils.py:14-21 | dot-free segments joined with dots form a dotted name exactly when there is more than one segment |
| DotPath.Segments | infrahub_sync/adapters/utils.py:14-21 | a name's segments are never an empty list, none holds a dot, and joined with dots they give the name back |
| DotPath.SegmentsOfJoin | infrahub_sync/adapters/utils.py:14-21 | joining dot-free segments and splitting the result gives the same segments back |
| DotPath.GetValueIsResolve | infrahub_sync/adapters/utils.py:6-21 | for every object and name, `get_value` equals the segment-by-segment walk over `name.split(".")` that stops with `None` at the first falsy intermediate value |
| DotPath.GetValueOfJoin | infrahub_sync/adapters/utils.py:6-21 | resolving the dotted form of dot-free segments equals the segment-by-segment walk over those segments |
| IdentifierKey.EndsWithId | infrahub_sync/adapters/utils.py:29 | `key.endswith("_id")`: the key is at least three characters long and its last three are `_`, `i`, `d` |
| IdentifierKey.EndsWithIdOfAppend | infrahub_sync/adapters/utils.py:29 | any prefix, the empty one included, followed by `_id` passes the suffix test |
| IdentifierKey.EndsWithIdSplits | infrahub_sync/adapters/utils.py:29 | a key that passes the suffix test is its prefix followed by `_id` |
| IdentifierKey.IsIdCandidate | infrahub_sync/adapters/utils.py:29 | an entry the scan accepts (`key.endswith("_id") and value`) is never keyed `id` and never holds `None` |
| IdentifierKey.FirstIdEntry | infrahub_sync/adapters/utils.py:28-31 | the scan finds nothing exactly when no entry has an `_id`-suffixed key and a truthy value; what it finds is truthy |
| IdentifierKey.FirstIdEntryAt | infrahub_sync/adapters/utils.py:28-31 | a candidate entry with no candidate before it is the one the scan returns |
| IdentifierKey.FirstIdEntryWitness | infrahub_sync/adapters/utils.py:28-31 | what the scan returns is the value of a candidate entry with no candidate before it |
| IdentifierKey.DeriveIdentifierKey | infrahub_sync/adapters/utils.py:24-37 | the loop with its `break` returns exactly the precedence result: `id` when not `None`, else the first truthy `*_id` value, else the `ValueError` |
| IdentifierKey.DeriveIdFirst | infrahub_sync/adapters/utils.py:26-27 | an `id` entry holding anything but `None` is the identifier, even a falsy `""` or `0`, whatever the other entries are |
| IdentifierKey.DeriveFallback | infrahub_sync/adapters/utils.py:28-31 | with `id` missing or `None`, the identifier is the first truthy `*_id` value in insertion order; earlier falsy `*_id` entries are skipped |
| IdentifierKey.DeriveErrIff | infrahub_sync/adapters/utils.py:33-36 | `ValueError("No suitable identifier key found in object")` is raised exactly when `id` is missing or `None` and no `*_id` entry is truthy |
| IdentifierKey.DeriveOkFromEntry | infrahub_sync/adapters/utils.py:26-37 | a derived identifier is never `None`, despite the declared `str \| None`, and is the value of the `id` entry or of a candidate entry |
| IdentifierKey.IdIndex | infrahub_sync/adapters/utils.py:26 | a value that `obj.get("id")` reads is stored under key `id` |
| IdentifierKey.IdIsNotSuffixed | infrahub_sync/adapters/utils.py:29 | the key `id` itself never passes the `_id` suffix test |
| Scenarios.NestedDictPath | infrahub_sync/adapters/utils.py:14-21 | `{"location": {"name": "DC1"}}` resolves `"location.name"` to `"DC1"` |
| Scenarios.EmptyIntermediateIsNone | infrahub_sync/adapters/utils.py:19-20 | `{"a": {}}` resolves `"a.b"` to `None` |
| Scenarios.IdPresent | infrahub_sync/adapters/utils.py:26-27 | `{"id": "abc"}` derives `"abc"` |
| Scenarios.FallbackSkipsFalsy | infrahub_sync/adapters/utils.py:28-31 | `{"id": None, "other_id": None, "device_id": "X2"}` derives `"X2"` |
| Scenarios.NoIdentifier | infrahub_sync/adapters/utils.py:33-36 | `{"name": "foo"}` raises the `ValueError` |

## Left out

- `infrahub-sync/infrahub_sync/cli.py` is not part of this model. It holds command-line definitions, console output, calls to the Infrahub SDK over the network, and the external load/diff/sync engine.
- `tasks/__init__.py` is not part of this model. It only registers lint, docs and test tasks.
- Python's open object model is not modelled. Properties, descriptors, `__getattr__`, `__bool__` and `__len__` are out. An attribute-bearing object is a plain attribute map and is always truthy.
- DotPath.GetValue: Python's recursion limit is not modelled. In Python a path with more segments than that limit (about 1000) raises `RecursionError`; the model returns a value. Shared or cyclic records, such as a dict that contains itself, are not modelled either, because a `Value` is a finite tree.
- Values.Access: `None`, booleans, integers and strings have no attributes in the model. Python's built-in attributes such as `(5).real` or `"s".upper` are not modelled, so `getattr` on such a value always gives `None`.
- Floats, lists, tuples and sets are not modelled, so the falsiness of `0.0` or `[]` is out. Integers are unbounded, like Python's.
- Dict keys are strings only. A key of another type never equals a path segment, so this changes no result of `get_value`.
- IdentifierKey.DeriveIdentifierKey: its input is modelled as a dict's entries. The source's declared `dict[str, Any]` type is not checked at run time and is not modelled.
