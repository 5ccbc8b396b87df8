/** Java's `String.trim()`: the string with every leading and trailing
    character whose code is at most U+0020 (space and the control characters)
    removed. */
module Text {

  /** A character that `trim()` strips. */
  predicate IsTrimmed(c: char) {
    c <= ' '
  }

  /** Drops the strippable characters at the back. */
  function TrimEnd(s: string): (r: string)
    ensures |r| <= |s| && r == s[..|r|]
    ensures forall k :: |r| <= k < |s| ==> IsTrimmed(s[k])
    ensures r != [] ==> !IsTrimmed(r[|r| - 1])
  {
    if s != [] && IsTrimmed(s[|s| - 1]) then TrimEnd(s[..|s| - 1]) else s
  }

  /** The number of strippable characters at the front. */
  function Lead(s: string): (n: nat)
    ensures n <= |s|
    ensures forall k :: 0 <= k < n ==> IsTrimmed(s[k])
    ensures n < |s| ==> !IsTrimmed(s[n])
  {
    if s != [] && IsTrimmed(s[0]) then 1 + Lead(s[1..]) else 0
  }

  /** `s.trim()`: the input with the strippable characters removed from both
      ends and nothing else; the result neither begins nor ends with one. */
  function Trim(s: string): (r: string)
    ensures Lead(s) + |r| <= |s| && r == s[Lead(s)..Lead(s) + |r|]
    ensures forall k :: Lead(s) + |r| <= k < |s| ==> IsTrimmed(s[k])
    ensures r != [] ==> !IsTrimmed(r[0]) && !IsTrimmed(r[|r| - 1])
  {
    var i := Lead(s);
    TailSlice(s, i);
    TrimEnd(s[i..])
  }

  /** What trimming the back of the suffix `s[i..]` leaves, in terms of `s`. */
  lemma TailSlice(s: string, i: nat)
    requires i <= |s|
    ensures i + |TrimEnd(s[i..])| <= |s|
    ensures TrimEnd(s[i..]) == s[i..i + |TrimEnd(s[i..])|]
    ensures forall k :: i + |TrimEnd(s[i..])| <= k < |s| ==> IsTrimmed(s[k])
    ensures TrimEnd(s[i..]) != [] ==> TrimEnd(s[i..])[0] == s[i]
  {
    var t := s[i..];
    var r := TrimEnd(t);
    assert r == t[..|r|];
    forall k | i + |r| <= k < |s|
      ensures IsTrimmed(s[k])
    {
      assert s[k] == t[k - i];
    }
  }

  /** Trimming twice changes nothing more. */
  lemma TrimIdempotent(s: string)
    ensures Trim(Trim(s)) == Trim(s)
  {
    var r := Trim(s);
    if r != [] {
      assert Lead(r) == 0;
      assert r[0..] == r;
      assert TrimEnd(r) == r;
    }
  }
}
