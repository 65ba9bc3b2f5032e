/**
 ASCII text helpers: the case mapping behind `str.capitalize`, the hexadecimal
 digits an ObjectId is spelled with, and the case-insensitive substring test that
 stands for a `$regex` match with option `i`.
 */
module Text {

  predicate IsUpper(c: char) {
    'A' <= c <= 'Z'
  }

  predicate IsLower(c: char) {
    'a' <= c <= 'z'
  }

  predicate IsHexDigit(c: char) {
    ('0' <= c <= '9') || ('a' <= c <= 'f') || ('A' <= c <= 'F')
  }

  predicate IsLowerHexDigit(c: char) {
    ('0' <= c <= '9') || ('a' <= c <= 'f')
  }

  /** ASCII lower-casing of one character; every other character is kept. */
  function LowerChar(c: char): (r: char)
    ensures !IsUpper(r)
    ensures !IsUpper(c) ==> r == c
    ensures IsUpper(c) ==> IsLower(r) && r as int - c as int == 'a' as int - 'A' as int
  {
    if IsUpper(c) then (c as int + ('a' as int - 'A' as int)) as char else c
  }

  /** ASCII upper-casing of one character; every other character is kept. */
  function UpperChar(c: char): (r: char)
    ensures !IsLower(r)
    ensures !IsLower(c) ==> r == c
    ensures IsLower(c) ==> IsUpper(r) && c as int - r as int == 'a' as int - 'A' as int
  {
    if IsLower(c) then (c as int - ('a' as int - 'A' as int)) as char else c
  }

  function LowerStr(s: string): (r: string)
    ensures |r| == |s|
    ensures forall i :: 0 <= i < |s| ==> r[i] == LowerChar(s[i])
  {
    seq(|s|, i requires 0 <= i < |s| => LowerChar(s[i]))
  }

  /** Python's `str.capitalize` on ASCII: first character upper, the rest lower. */
  function Capitalize(s: string): (r: string)
    ensures |r| == |s|
    ensures |s| > 0 ==> !IsLower(r[0]) && r[1..] == LowerStr(s[1..])
  {
    if |s| == 0 then s else [UpperChar(s[0])] + LowerStr(s[1..])
  }

  lemma LowerStrIdempotent(s: string)
    ensures LowerStr(LowerStr(s)) == LowerStr(s)
  {
  }

  lemma LowerStrSlice(s: string, i: int, j: int)
    requires 0 <= i <= j <= |s|
    ensures LowerStr(s)[i..j] == LowerStr(s[i..j])
  {
  }

  /** The pattern occurs, ignoring ASCII case, at offset `i` of `t`. */
  predicate MatchesAt(t: string, p: string, i: int)
    requires 0 <= i <= |t| - |p|
  {
    LowerStr(t[i..i + |p|]) == LowerStr(p)
  }

  /** Case-insensitive substring test: some window of `t` equals `p` up to ASCII case. */
  predicate ContainsCI(t: string, p: string) {
    exists i :: 0 <= i <= |t| - |p| && MatchesAt(t, p, i)
  }

  /** The empty search pattern occurs in every text. */
  lemma EmptyPatternOccurs(t: string)
    ensures ContainsCI(t, "")
  {
    assert MatchesAt(t, "", 0);
  }

  /** The match ignores the case of the pattern. */
  lemma ContainsIgnoresPatternCase(t: string, p: string)
    ensures ContainsCI(t, p) <==> ContainsCI(t, LowerStr(p))
  {
    LowerStrIdempotent(p);
    if ContainsCI(t, p) {
      var i :| 0 <= i <= |t| - |p| && MatchesAt(t, p, i);
      assert MatchesAt(t, LowerStr(p), i);
    }
    if ContainsCI(t, LowerStr(p)) {
      var i :| 0 <= i <= |t| - |p| && MatchesAt(t, LowerStr(p), i);
      assert MatchesAt(t, p, i);
    }
  }

  /** The match ignores the case of the searched text. */
  lemma ContainsIgnoresTextCase(t: string, p: string)
    ensures ContainsCI(t, p) <==> ContainsCI(LowerStr(t), p)
  {
    forall i | 0 <= i <= |t| - |p|
      ensures MatchesAt(t, p, i) <==> MatchesAt(LowerStr(t), p, i)
    {
      LowerStrSlice(t, i, i + |p|);
      LowerStrIdempotent(t[i..i + |p|]);
    }
  }

  /** Executable search: scans the windows of `t` left to right. */
  method Search(t: string, p: string) returns (found: bool)
    ensures found <==> ContainsCI(t, p)
  {
    if |p| > |t| {
      return false;
    }
    var lp := LowerStr(p);
    var i := 0;
    while i <= |t| - |p|
      invariant 0 <= i <= |t| - |p| + 1
      invariant forall j :: 0 <= j < i ==> !MatchesAt(t, p, j)
    {
      if LowerStr(t[i..i + |p|]) == lp {
        assert MatchesAt(t, p, i);
        return true;
      }
      i := i + 1;
    }
    return false;
  }
}
