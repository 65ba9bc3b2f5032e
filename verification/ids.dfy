/**
 Store identifiers. An ObjectId is written as 24 hexadecimal digits; the store
 accepts either case on input and always prints lower case, so the canonical
 (lower-case) spelling is the key every record is stored under.
 */
module Ids {
  import opened Text
  import opened Schemas

  predicate IsCanonical(s: string) {
    |s| == 24 && forall i :: 0 <= i < |s| ==> IsLowerHexDigit(s[i])
  }

  /** A store key: the printed form of an ObjectId. */
  type ObjectId = s: string | IsCanonical(s) witness "000000000000000000000000"

  /** Whether a request string is an ObjectId spelling, in either case. */
  predicate IsIdSpelling(s: string) {
    |s| == 24 && forall i :: 0 <= i < |s| ==> IsHexDigit(s[i])
  }

  /**
   Reads an id string from a request. A string that is not 24 hexadecimal digits
   is refused (the caller reports it as a malformed identifier); otherwise the
   key is its lower-case spelling.
   */
  function ParseId(s: string): (r: Option<ObjectId>)
    ensures r.Some? <==> IsIdSpelling(s)
    ensures r.Some? ==> r.value == LowerStr(s)
  {
    if IsIdSpelling(s) then
      var k := LowerStr(s);
      assert IsCanonical(k);
      Some(k)
    else
      None
  }

  /** Printing a key and reading it back yields the same key. */
  lemma ParsePrinted(id: ObjectId)
    ensures ParseId(id) == Some(id)
  {
    assert LowerStr(id) == id;
  }

  /** Two spellings resolve to the same key exactly when they agree up to case. */
  lemma SameKeyIffSameUpToCase(s: string, t: string)
    requires IsIdSpelling(s) && IsIdSpelling(t)
    ensures ParseId(s) == ParseId(t) <==> LowerStr(s) == LowerStr(t)
  {
  }
}
