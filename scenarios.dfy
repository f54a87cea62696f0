/** Results of both helpers on concrete records. */
module Scenarios {
  import opened Values
  import opened DotPath
  import opened IdentifierKey

  lemma NestedDictPath()
    ensures GetValue(VDict([("location", VDict([("name", VStr("DC1"))]))]), "location.name") == VStr("DC1")
  {
    var inner := VDict([("name", VStr("DC1"))]);
    var outer := VDict([("location", inner)]);
    assert "location" + "." + "name" == "location.name";
    assert Access(outer, "location") == inner;
    GetValueDotted(outer, "location", "name");
    assert Access(inner, "name") == VStr("DC1");
  }

  /** An empty dict in the middle of a path reads as missing. */
  lemma EmptyIntermediateIsNone()
    ensures GetValue(VDict([("a", VDict([]))]), "a.b") == VNone
  {
  }

  /** `id` present: it is the identifier. */
  lemma IdPresent()
    ensures DeriveSpec([("id", VStr("abc"))]) == Ok(VStr("abc"))
  {
  }

  /** `id` is `None`: the first truthy `*_id` entry wins, a falsy one is skipped. */
  lemma FallbackSkipsFalsy()
    ensures DeriveSpec([("id", VNone), ("other_id", VNone), ("device_id", VStr("X2"))]) == Ok(VStr("X2"))
  {
  }

  /** No identifier at all raises `ValueError`. */
  lemma NoIdentifier()
    ensures DeriveSpec([("name", VStr("foo"))]) == Err(NoIdentifierMessage)
  {
  }
}
