/** `get_value`: resolving a dot-notation path such as `"location.name"`
    against a dict or an attribute-bearing object.
 */
module DotPath {
  import opened Values

  /** `name.split(".", maxsplit=1)` for a name that holds a dot: the part
      before the first dot and everything after it. */
  function SplitAtFirstDot(name: string): (r: Option<(string, string)>)
    ensures r.None? <==> '.' !in name
    ensures r.Some? ==> '.' !in r.value.0 && name == r.value.0 + "." + r.value.1
  {
    if name == [] then None
    else if name[0] == '.' then Some(([], name[1..]))
    else
      match SplitAtFirstDot(name[1..])
      case None => None
      case Some((first, rest)) => Some(([name[0]] + first, rest))
  }

  /** `get_value(obj, name)`. A name without a dot is one field access; a
      dotted name reads its first segment and, unless that value is falsy,
      resolves the remaining part against it. Missing keys and attributes
      give `None` at every depth, and a value that is neither a dict nor an
      attribute-bearing object has no fields to resolve. */
  function GetValue(obj: Value, name: string): (r: Value)
    ensures r != VNone ==> obj.VDict? || obj.VObj?
    decreases |name|
  {
    if '.' !in name then Access(obj, name)
    else
      var (first, rest) := SplitAtFirstDot(name).value;
      var sub := Access(obj, first);
      if !Truthy(sub) then VNone else GetValue(sub, rest)
  }

  /** A dotted name is split at its first dot, whatever follows it. */
  lemma {:induction false} SplitAtFirstDotOfJoin(first: string, rest: string)
    requires '.' !in first
    ensures SplitAtFirstDot(first + "." + rest) == Some((first, rest))
  {
    if first == [] {
      assert first + "." + rest == ['.'] + rest;
    } else {
      assert (first + "." + rest)[1..] == first[1..] + "." + rest;
      SplitAtFirstDotOfJoin(first[1..], rest);
      assert [first[0]] + first[1..] == first;
    }
  }

  /** A name with no dot, read from a dict: the entry stored under exactly
      that key (the empty name included). */
  lemma GetValueDictKey(entries: seq<(string, Value)>, name: string, i: nat)
    requires '.' !in name
    requires DistinctKeys(entries)
    requires i < |entries| && entries[i].0 == name
    ensures GetValue(VDict(entries), name) == entries[i].1
  {
  }

  /** A name with no dot, read from a dict that lacks that key: `None`. */
  lemma GetValueDictMissing(entries: seq<(string, Value)>, name: string)
    requires '.' !in name
    requires forall i | 0 <= i < |entries| :: entries[i].0 != name
    ensures GetValue(VDict(entries), name) == VNone
  {
  }

  /** A name with no dot, read from an object: the attribute, or `None`
      when there is no such attribute. */
  lemma GetValueAttribute(attrs: map<string, Value>, name: string)
    requires '.' !in name
    ensures GetValue(VObj(attrs), name) == if name in attrs then attrs[name] else VNone
  {
  }

  /** `get_value(obj, "a.b.c") == get_value(obj["a"], "b.c")` when `obj["a"]` is truthy. */
  lemma GetValueDotted(obj: Value, first: string, rest: string)
    requires '.' !in first
    requires Truthy(Access(obj, first))
    ensures GetValue(obj, first + "." + rest) == GetValue(Access(obj, first), rest)
  {
    SplitAtFirstDotOfJoin(first, rest);
  }

  /** A falsy first segment ends the resolution with `None`, whatever the rest is. */
  lemma GetValueFalsyStops(obj: Value, first: string, rest: string)
    requires '.' !in first
    requires !Truthy(Access(obj, first))
    ensures GetValue(obj, first + "." + rest) == VNone
  {
    SplitAtFirstDotOfJoin(first, rest);
  }

  // A path as the list of its segments, which is how `get_value` walks it.

  /** No segment holds a dot. */
  predicate DotFree(segments: seq<string>) {
    forall k | 0 <= k < |segments| :: '.' !in segments[k]
  }

  /** The segments of a path, joined back with dots. Dot-free segments
      give a dotted name exactly when there is more than one of them. */
  function Join(segments: seq<string>): (name: string)
    requires segments != []
    ensures DotFree(segments) ==> ('.' in name <==> |segments| > 1)
    decreases |segments|
  {
    if |segments| == 1 then segments[0]
    else
      var name := segments[0] + "." + Join(segments[1..]);
      assert name[|segments[0]|] == '.';
      name
  }

  /** `name.split(".")`: the dot-free segments of a name, never an empty list. */
  function Segments(name: string): (segments: seq<string>)
    ensures segments != [] && DotFree(segments)
    ensures Join(segments) == name
    decreases |name|
  {
    match SplitAtFirstDot(name)
    case None => [name]
    case Some((first, rest)) =>
      var tail := Segments(rest);
      assert Join([first] + tail) == first + "." + Join(tail) by {
        assert ([first] + tail)[1..] == tail;
      }
      [first] + tail
  }

  /** Splitting a joined list of dot-free segments gives the list back. */
  lemma {:induction false} SegmentsOfJoin(segments: seq<string>)
    requires segments != [] && DotFree(segments)
    ensures Segments(Join(segments)) == segments
    decreases |segments|
  {
    if |segments| > 1 {
      var tail := segments[1..];
      assert DotFree(tail);
      SplitAtFirstDotOfJoin(segments[0], Join(tail));
      SegmentsOfJoin(tail);
      assert [segments[0]] + tail == segments;
    }
  }

  /** Reference resolution over a path given as segments: read each segment
      in turn, giving up with `None` as soon as an intermediate value is
      falsy. */
  function Resolve(obj: Value, segments: seq<string>): (r: Value)
    requires segments != []
    decreases |segments|
  {
    var sub := Access(obj, segments[0]);
    if |segments| == 1 then sub
    else if !Truthy(sub) then VNone
    else Resolve(sub, segments[1..])
  }

  /** `get_value` agrees with the segment-by-segment walk over `name.split(".")`. */
  lemma {:induction false} GetValueIsResolve(obj: Value, name: string)
    ensures GetValue(obj, name) == Resolve(obj, Segments(name))
    decreases |name|
  {
    match SplitAtFirstDot(name)
    case None =>
    case Some((first, rest)) =>
      var sub := Access(obj, first);
      if Truthy(sub) {
        GetValueIsResolve(sub, rest);
        assert ([first] + Segments(rest))[1..] == Segments(rest);
      }
  }

  /** Resolving the dotted form of a list of dot-free segments is the
      segment-by-segment walk over that list. */
  lemma GetValueOfJoin(obj: Value, segments: seq<string>)
    requires segments != [] && DotFree(segments)
    ensures GetValue(obj, Join(segments)) == Resolve(obj, segments)
  {
    GetValueIsResolve(obj, Join(segments));
    SegmentsOfJoin(segments);
  }
}
