/** `derive_identifier_key`: choosing the identifier of a flat record, `id`
    first, then the first truthy `*_id` entry in insertion order.
 */
module IdentifierKey {
  import opened Values

  const NoIdentifierMessage: string := "No suitable identifier key found in object"

  /** `key.endswith("_id")`. */
  predicate EndsWithId(key: string)
    ensures EndsWithId(key) <==>
      |key| >= 3 && key[|key| - 3] == '_' && key[|key| - 2] == 'i' && key[|key| - 1] == 'd'
  {
    |key| >= 3 && key[|key| - 3..] == "_id"
  }

  /** An entry the fallback scan accepts: an `_id`-suffixed key with a truthy value. */
  predicate IsIdCandidate(entry: (string, Value))
    ensures IsIdCandidate(entry) ==> entry.0 != "id" && entry.1 != VNone
  {
    EndsWithId(entry.0) && Truthy(entry.1)
  }

  /** A key passes the suffix test exactly when it is some prefix (possibly
      empty) followed by `_id`. */
  lemma EndsWithIdOfAppend(prefix: string)
    ensures EndsWithId(prefix + "_id")
  {
  }

  lemma EndsWithIdSplits(key: string)
    requires EndsWithId(key)
    ensures key == key[..|key| - 3] + "_id"
  {
  }

  /** The value of the first candidate entry, in insertion order. */
  function FirstIdEntry(entries: seq<(string, Value)>): (r: Option<Value>)
    ensures r.None? <==> forall i | 0 <= i < |entries| :: !IsIdCandidate(entries[i])
    ensures r.Some? ==> Truthy(r.value)
  {
    if entries == [] then None
    else if IsIdCandidate(entries[0]) then Some(entries[0].1)
    else
      assert forall i | 1 <= i < |entries| :: entries[i] == entries[1..][i - 1];
      FirstIdEntry(entries[1..])
  }

  /** The identifier the source's precedence policy picks, or the
      `ValueError` it raises. */
  function DeriveSpec(entries: seq<(string, Value)>): (r: Result<Value>)
  {
    var id := DictGet(entries, "id");
    if id != VNone then Ok(id)
    else match FirstIdEntry(entries)
      case Some(v) => Ok(v)
      case None => Err(NoIdentifierMessage)
  }

  /** `derive_identifier_key(obj)`: read `obj["id"]`; when that is `None`,
      scan the entries for the first candidate and stop there. */
  method DeriveIdentifierKey(entries: seq<(string, Value)>) returns (r: Result<Value>)
    ensures r == DeriveSpec(entries)
  {
    var id := DictGet(entries, "id");
    if id == VNone {
      var i := 0;
      while i < |entries|
        invariant 0 <= i <= |entries|
        invariant id == VNone
        invariant FirstIdEntry(entries) == FirstIdEntry(entries[i..])
      {
        var (key, value) := entries[i];
        assert entries[i..][1..] == entries[i + 1..];
        if EndsWithId(key) && Truthy(value) {
          id := value;
          break;
        }
        i := i + 1;
      }
    }
    if id == VNone {
      return Err(NoIdentifierMessage);
    }
    return Ok(id);
  }

  /** A candidate preceded by no other candidate is the one the scan returns. */
  lemma {:induction false} FirstIdEntryAt(entries: seq<(string, Value)>, i: nat)
    requires i < |entries| && IsIdCandidate(entries[i])
    requires forall j | 0 <= j < i :: !IsIdCandidate(entries[j])
    ensures FirstIdEntry(entries) == Some(entries[i].1)
  {
    if i > 0 {
      FirstIdEntryAt(entries[1..], i - 1);
    }
  }

  /** The scan's result comes from a candidate that no earlier candidate precedes. */
  lemma {:induction false} FirstIdEntryWitness(entries: seq<(string, Value)>) returns (i: nat)
    requires FirstIdEntry(entries).Some?
    ensures i < |entries| && IsIdCandidate(entries[i])
    ensures entries[i].1 == FirstIdEntry(entries).value
    ensures forall j | 0 <= j < i :: !IsIdCandidate(entries[j])
  {
    if IsIdCandidate(entries[0]) {
      i := 0;
    } else {
      var k := FirstIdEntryWitness(entries[1..]);
      i := k + 1;
    }
  }

  /** `id` wins whenever it holds a value other than `None`, even a falsy one
      such as `""` or `0`: no other entry is consulted. */
  lemma DeriveIdFirst(entries: seq<(string, Value)>, i: nat)
    requires DistinctKeys(entries)
    requires i < |entries| && entries[i].0 == "id" && entries[i].1 != VNone
    ensures DeriveSpec(entries) == Ok(entries[i].1)
  {
  }

  /** Without a usable `id`, the result is the first truthy `*_id` entry,
      skipping earlier `*_id` entries whose value is falsy. */
  lemma DeriveFallback(entries: seq<(string, Value)>, i: nat)
    requires DistinctKeys(entries)
    requires forall k | 0 <= k < |entries| && entries[k].0 == "id" :: entries[k].1 == VNone
    requires i < |entries| && IsIdCandidate(entries[i])
    requires forall j | 0 <= j < i :: !IsIdCandidate(entries[j])
    ensures DeriveSpec(entries) == Ok(entries[i].1)
  {
    FirstIdEntryAt(entries, i);
  }

  /** `ValueError` is raised exactly when there is no usable `id` and no
      `*_id` entry holds a truthy value. */
  lemma DeriveErrIff(entries: seq<(string, Value)>)
    ensures DeriveSpec(entries).Err? <==>
      DictGet(entries, "id") == VNone &&
      forall i | 0 <= i < |entries| :: !IsIdCandidate(entries[i])
    ensures DeriveSpec(entries).Err? ==> DeriveSpec(entries).message == NoIdentifierMessage
  {
  }

  /** A derived identifier is never `None`, and it is the value of some entry:
      either `id` or the first candidate. */
  lemma {:induction false} DeriveOkFromEntry(entries: seq<(string, Value)>) returns (i: nat)
    requires DeriveSpec(entries).Ok?
    ensures DeriveSpec(entries).value != VNone
    ensures i < |entries| && entries[i].1 == DeriveSpec(entries).value
    ensures entries[i].0 == "id" || IsIdCandidate(entries[i])
  {
    if DictGet(entries, "id") != VNone {
      i := IdIndex(entries);
    } else {
      i := FirstIdEntryWitness(entries);
    }
  }

  /** The entry that `d.get("id")` read, when it read one. */
  lemma {:induction false} IdIndex(entries: seq<(string, Value)>) returns (i: nat)
    requires DictGet(entries, "id") != VNone
    ensures i < |entries| && entries[i].0 == "id" && entries[i].1 == DictGet(entries, "id")
  {
    if entries[0].0 == "id" {
      i := 0;
    } else {
      var k := IdIndex(entries[1..]);
      i := k + 1;
    }
  }

  /** The key `id` itself is never taken for an `_id`-suffixed key. */
  lemma IdIsNotSuffixed()
    ensures !EndsWithId("id")
  {
  }
}
