/**
 The character and string operations the game applies to a line typed by the
 player: trimming surrounding white space, lower-casing, and the letter test.
 They are modelled on ASCII: white space is the space and the control
 characters tab through carriage return, letters are `a`-`z` and `A`-`Z`.
 */
module Text {

  predicate IsUpper(c: char) {
    'A' <= c <= 'Z'
  }

  predicate IsLower(c: char) {
    'a' <= c <= 'z'
  }

  /** The white space trimming removes; none of it has a case. */
  function IsWhiteSpace(c: char): (r: bool)
    ensures r ==> !IsLower(c) && !IsUpper(c)
  {
    c == ' ' || '\t' <= c <= '\r'
  }

  /** A letter is never white space, and it has exactly one case. */
  function IsLetter(c: char): (r: bool)
    ensures r ==> !IsWhiteSpace(c)
    ensures r ==> (IsUpper(c) <==> !IsLower(c))
  {
    IsLower(c) || IsUpper(c)
  }

  /** Lower-cases one character; anything but an upper-case letter is kept. */
  function ToLowerChar(c: char): (r: char)
    ensures !IsUpper(r)
    ensures IsUpper(c) ==> IsLower(r) && r as int - 'a' as int == c as int - 'A' as int
    ensures IsLetter(r) <==> IsLetter(c)
    ensures IsWhiteSpace(r) <==> IsWhiteSpace(c)
    ensures !IsUpper(c) ==> r == c
  {
    if IsUpper(c) then (c as int - 'A' as int + 'a' as int) as char else c
  }

  function ToLower(s: string): (r: string)
    ensures |r| == |s|
    ensures forall i :: 0 <= i < |s| ==> r[i] == ToLowerChar(s[i])
  {
    if |s| == 0 then [] else [ToLowerChar(s[0])] + ToLower(s[1..])
  }

  /** Drops the white space at the front: what is left is a suffix of `s`
      that does not start with white space. */
  function TrimStart(s: string): (r: string)
    ensures |r| <= |s| && r == s[|s| - |r|..]
    ensures forall i :: 0 <= i < |s| - |r| ==> IsWhiteSpace(s[i])
    ensures |r| > 0 ==> !IsWhiteSpace(r[0])
  {
    if |s| > 0 && IsWhiteSpace(s[0]) then TrimStart(s[1..]) else s
  }

  /** Drops the white space at the back: what is left is a prefix of `s`
      that does not end with white space. */
  function TrimEnd(s: string): (r: string)
    ensures |r| <= |s| && r == s[..|r|]
    ensures forall i :: |r| <= i < |s| ==> IsWhiteSpace(s[i])
    ensures |r| > 0 ==> !IsWhiteSpace(r[|r| - 1])
  {
    if |s| > 0 && IsWhiteSpace(s[|s| - 1]) then TrimEnd(s[..|s| - 1]) else s
  }

  /** `r` is what is left of `s` once the white space before position `a`
      and after position `a + |r|` is removed. */
  ghost predicate Strips(s: string, a: int, r: string) {
    && 0 <= a <= a + |r| <= |s|
    && s[a..a + |r|] == r
    && (forall i :: 0 <= i < a ==> IsWhiteSpace(s[i]))
    && (forall i :: a + |r| <= i < |s| ==> IsWhiteSpace(s[i]))
  }

  function Trim(s: string): (r: string)
    ensures exists a :: Strips(s, a, r)
    ensures |r| > 0 ==> !IsWhiteSpace(r[0]) && !IsWhiteSpace(r[|r| - 1])
  {
    var front := TrimStart(s);
    var r := TrimEnd(front);
    assert Strips(s, |s| - |front|, r);
    r
  }
}
