/** The records that the adapter helpers receive: Python values restricted to
    the shapes the helpers tell apart, with Python's truthiness and the two
    ways of reading a field (`dict.get` and `getattr(obj, name, None)`).
 */
module Values {

  datatype Option<T> = None | Some(value: T)

  /** A successful value, or the message of a raised `ValueError`. */
  datatype Result<T> = Ok(value: T) | Err(message: string)

  /** A closed stand-in for Python's `Any`.
      `VDict` is a `dict` as its entries in insertion order (a Python dict
      never holds one key twice; see `DistinctKeys`), and `VObj` is any
      other object that carries named attributes. */
  datatype Value =
    | VNone
    | VBool(b: bool)
    | VInt(i: int)
    | VStr(s: string)
    | VDict(entries: seq<(string, Value)>)
    | VObj(attrs: map<string, Value>)

  /** Python's `bool(v)`: `None`, `False`, `0`, `""` and `{}` are falsy;
      an attribute-bearing object is always truthy. */
  predicate Truthy(v: Value)
    ensures !Truthy(v) <==> v in {VNone, VBool(false), VInt(0), VStr(""), VDict([])}
  {
    match v
    case VNone => false
    case VBool(b) => b
    case VInt(i) => i != 0
    case VStr(s) => s != ""
    case VDict(entries) => entries != []
    case VObj(_) => true
  }

  /** The key set of a Python dict has no repetitions. */
  predicate DistinctKeys(entries: seq<(string, Value)>) {
    forall i, j | 0 <= i < j < |entries| :: entries[i].0 != entries[j].0
  }

  /** `d.get(key)`: the value stored under `key`, or `None` when the key is absent. */
  function DictGet(entries: seq<(string, Value)>, key: string): (r: Value)
    ensures (forall i | 0 <= i < |entries| :: entries[i].0 != key) ==> r == VNone
    ensures forall i | 0 <= i < |entries| && entries[i].0 == key ::
              DistinctKeys(entries) ==> r == entries[i].1
  {
    if entries == [] then VNone
    else if entries[0].0 == key then entries[0].1
    else
      assert DistinctKeys(entries) ==> DistinctKeys(entries[1..]);
      DictGet(entries[1..], key)
  }

  /** `getattr(obj, name, None)`. Only an attribute-bearing object has
      attributes here; on any other value the default `None` comes back. */
  function GetAttr(obj: Value, name: string): (r: Value)
    ensures obj.VObj? && name in obj.attrs ==> r == obj.attrs[name]
    ensures !(obj.VObj? && name in obj.attrs) ==> r == VNone
  {
    match obj
    case VObj(attrs) => if name in attrs then attrs[name] else VNone
    case _ => VNone
  }

  /** One field access as `get_value` performs it: `obj.get(name)` when
      `obj` is a dict, `getattr(obj, name, None)` otherwise. */
  function Access(obj: Value, name: string): (r: Value)
    ensures !(obj.VDict? || obj.VObj?) ==> r == VNone
    ensures obj.VObj? ==> r == (if name in obj.attrs then obj.attrs[name] else VNone)
    ensures obj.VDict? && (forall i | 0 <= i < |obj.entries| :: obj.entries[i].0 != name) ==> r == VNone
    ensures obj.VDict? && DistinctKeys(obj.entries) ==>
              forall i | 0 <= i < |obj.entries| && obj.entries[i].0 == name :: r == obj.entries[i].1
  {
    if obj.VDict? then DictGet(obj.entries, name) else GetAttr(obj, name)
  }
}
